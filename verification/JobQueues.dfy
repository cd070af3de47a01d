/**
 The two intrusive job queues of CMgrJob.cpp: linked through fields of the jobs themselves,
 whose links are never cleared.  Each operation runs under its queue's lock and is proved to
 act on a plain first-in first-out sequence.
 */
module JobQueues {
  import opened Collections

  class TestCase {
    var next: TestCase?
    var ioNext: TestCase?

    constructor ()
      ensures next == null && ioNext == null
    {
      next, ioNext := null, null;
    }
  }

  /**
   What adding job x to a queue makes of it.  Only a job that is not queued is appended; adding
   one that is queued already cuts the queue off behind it.
   */
  ghost function Enqueued(s: seq<TestCase>, x: TestCase): seq<TestCase> {
    if x in s then
      var k :| 0 <= k < |s| && s[k] == x;
      s[..k + 1]
    else s + [x]
  }

  /** The queues are first-in first-out exactly for jobs that are not in the queue. */
  lemma FifoIffNotQueued(s: seq<TestCase>, x: TestCase)
    ensures Enqueued(s, x) == s + [x] <==> x !in s
  {
    if x in s { assert |Enqueued(s, x)| <= |s|; }
  }

  class MgrJob {
    var mpHead: TestCase?
    var mpTail: TestCase?
    var mpIOHead: TestCase?
    var mpIOTail: TestCase?

    ghost var jobs: seq<TestCase>     // the main queue, front first
    ghost var ioJobs: seq<TestCase>   // the I/O queue, front first

    constructor ()
      ensures Valid() && jobs == [] && ioJobs == []
    {
      mpHead, mpTail, mpIOHead, mpIOTail := null, null, null, null;
      jobs, ioJobs := [], [];
    }

    /** The links inside each queue spell it out; nothing is said of the last job's link. */
    ghost predicate Valid()
      reads this, jobs, ioJobs
    {
      && Distinct(jobs) && Distinct(ioJobs)
      && (mpHead == null <==> jobs == []) && (mpTail == null <==> jobs == [])
      && (jobs != [] ==> mpHead == jobs[0] && mpTail == jobs[|jobs| - 1])
      && (forall i :: 0 <= i < |jobs| - 1 ==> jobs[i].next == jobs[i + 1])
      && (mpIOHead == null <==> ioJobs == []) && (mpIOTail == null <==> ioJobs == [])
      && (ioJobs != [] ==> mpIOHead == ioJobs[0] && mpIOTail == ioJobs[|ioJobs| - 1])
      && (forall i :: 0 <= i < |ioJobs| - 1 ==> ioJobs[i].ioNext == ioJobs[i + 1])
    }

    /** Whatever link the job brings along, it becomes the last element. */
    method AddJob(addjob: TestCase?) returns (ok: bool)
      requires Valid()
      modifies `mpHead, `mpTail, `jobs, jobs`next
      ensures Valid() && ok == (addjob != null)
      ensures ok ==> jobs == Enqueued(old(jobs), addjob)
      ensures !ok ==> jobs == old(jobs)
    {
      if addjob == null {
        return false;
      }
      if mpHead == null {
        mpHead := addjob;
        mpTail := mpHead;
      } else {
        mpTail.next := addjob;
        mpTail := addjob;
      }
      jobs := Enqueued(jobs, addjob);
      return true;
    }

    method AddIOJob(addIOJob: TestCase?) returns (ok: bool)
      requires Valid()
      modifies `mpIOHead, `mpIOTail, `ioJobs, ioJobs`ioNext
      ensures Valid() && ok == (addIOJob != null)
      ensures ok ==> ioJobs == Enqueued(old(ioJobs), addIOJob)
      ensures !ok ==> ioJobs == old(ioJobs)
    {
      if addIOJob == null {
        return false;
      }
      if mpIOHead == null {
        mpIOHead := addIOJob;
        mpIOTail := mpIOHead;
      } else {
        mpIOTail.ioNext := addIOJob;
        mpIOTail := addIOJob;
      }
      ioJobs := Enqueued(ioJobs, addIOJob);
      return true;
    }

    /** Takes the front job; its link is left as it is. */
    method GetJob() returns (getjob: TestCase?)
      requires Valid()
      modifies `mpHead, `mpTail, `jobs
      ensures Valid()
      ensures getjob == null <==> old(jobs) == []
      ensures getjob != null ==> old(jobs) == [getjob] + jobs && getjob !in jobs
      ensures getjob == null ==> jobs == []
    {
      if mpTail == null {
        return null;
      }
      getjob := mpHead;
      assert |jobs| > 1 ==> jobs[0] != jobs[|jobs| - 1] && jobs[0].next == jobs[0 + 1];
      if mpHead == mpTail {
        mpHead, mpTail := null, null;
      } else {
        mpHead := mpHead.next;
      }
      jobs := jobs[1..];
    }

    method GetIOJob() returns (getOutJob: TestCase?)
      requires Valid()
      modifies `mpIOHead, `mpIOTail, `ioJobs
      ensures Valid()
      ensures getOutJob == null <==> old(ioJobs) == []
      ensures getOutJob != null ==> old(ioJobs) == [getOutJob] + ioJobs && getOutJob !in ioJobs
      ensures getOutJob == null ==> ioJobs == []
    {
      if mpIOTail == null {
        return null;
      }
      getOutJob := mpIOHead;
      assert |ioJobs| > 1 ==> ioJobs[0] != ioJobs[|ioJobs| - 1] && ioJobs[0].ioNext == ioJobs[0 + 1];
      if mpIOHead == mpIOTail {
        mpIOHead, mpIOTail := null, null;
      } else {
        mpIOHead := mpIOHead.ioNext;
      }
      ioJobs := ioJobs[1..];
    }
  }
}
