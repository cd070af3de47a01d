/**
 Jobs and the calls made to them (AsyncJob.cc, AsyncJobCalls.h, AsyncCall.cc): which calls
 are fired, which are cancelled, and when a job is deleted, over every run of a program in
 which running job methods schedule calls, stop jobs, delete jobs and fire further calls.
 */
module AsyncJobs {

  type Job = nat

  datatype Call = Call(id: nat, job: Job)

  // ---------- the life a job is meant to have ----------

  /** What can be observed of jobs. */
  datatype Event =
    | Started(job: Job, call: Call)   // a method of the job begins
    | Returned(job: Job)              // it returned, and the job lives on
    | SwanSong(job: Job)
    | Deleted(job: Job)
    | Skipped(job: Job, call: Call)   // a call to the job was made but not fired

  datatype Phase = Idle | Busy | Dying | Dead | Broken

  function Live(p: Phase, e: Event): Phase {
    match e
    case Skipped(_, _) => p
    case Started(_, _) => if p == Idle then Busy else Broken
    case Returned(_) => if p == Busy then Idle else Broken
    case SwanSong(_) => if p == Idle || p == Busy then Dying else Broken
    case Deleted(_) => if p == Dying then Dead else Broken
  }

  /** The phase of job j after a history of events. */
  function PhaseOf(log: seq<Event>, j: Job): Phase {
    if log == [] then Idle
    else
      var p := PhaseOf(log[..|log| - 1], j);
      if log[|log| - 1].job == j then Live(p, log[|log| - 1]) else p
  }

  lemma {:induction false} BrokenStaysBroken(log: seq<Event>, j: Job, n: nat)
    requires n <= |log| && PhaseOf(log[..n], j) == Broken
    ensures PhaseOf(log, j) == Broken
    decreases |log|
  {
    if n < |log| {
      assert log[..|log| - 1][..n] == log[..n];
      BrokenStaysBroken(log[..|log| - 1], j, n);
    } else {
      assert log[..n] == log;
    }
  }

  lemma {:induction false} DeadStaysDead(log: seq<Event>, j: Job, n: nat, k: nat)
    requires n <= k <= |log| && PhaseOf(log[..n], j) == Dead && PhaseOf(log, j) != Broken
    ensures PhaseOf(log[..k], j) == Dead
    decreases k
  {
    if n < k {
      DeadStaysDead(log, j, n, k - 1);
      assert log[..k][..k - 1] == log[..k - 1];
      if PhaseOf(log[..k], j) == Broken { BrokenStaysBroken(log, j, k); }
    }
  }

  lemma PhaseStep(log: seq<Event>, j: Job, i: nat)
    requires i < |log| && log[i].job == j
    ensures PhaseOf(log[..i + 1], j) == Live(PhaseOf(log[..i], j), log[i])
  {
    assert log[..i + 1][..i] == log[..i];
  }

  /** In an unbroken life nothing but skipped calls follows deletion. */
  lemma NothingAfterDeletion(log: seq<Event>, j: Job, i: nat, k: nat)
    requires PhaseOf(log, j) != Broken && i < k < |log|
    requires log[i] == Deleted(j) && log[k].job == j
    ensures log[k].Skipped?
  {
    PhaseStep(log, j, i);
    if PhaseOf(log[..i + 1], j) == Broken { BrokenStaysBroken(log, j, i + 1); }
    DeadStaysDead(log, j, i + 1, k);
    PhaseStep(log, j, k);
    if PhaseOf(log[..k + 1], j) == Broken { BrokenStaysBroken(log, j, k + 1); }
  }

  // ---------- the machine ----------

  datatype JobState = JobState(inCall: bool, stopReason: bool)

  /** Activations, innermost last: a job method, or the end of a job. */
  datatype Frame = Run(job: Job) | Swan(job: Job)

  datatype State = State(
    scheduled: seq<Call>,
    pending: seq<Call>,
    made: seq<Call>,
    canceled: set<nat>,
    jobs: map<Job, JobState>,
    gone: set<Job>,
    stack: seq<Frame>,
    log: seq<Event>)

  datatype Action =
    | Create(job: Job)
    | Schedule(call: Call)
    | Cancel(id: nat)
    | FireNext
    | MethodEnds(doneAll: bool, threw: bool)
    | Delete
    | MustStop(job: Job)
    | DeleteThis(job: Job)

  ghost predicate Init(s: State) { s == State([], [], [], {}, map[], {}, [], []) }

  function Top(s: State): Frame
    requires s.stack != []
  {
    s.stack[|s.stack| - 1]
  }

  function Below(s: State): seq<Frame>
    requires s.stack != []
  {
    s.stack[..|s.stack| - 1]
  }

  /** AsyncCall::make of the call c, just taken off the queue. */
  function Make(s: State, c: Call): State {
    if c.id in s.canceled then s.(log := s.log + [Skipped(c.job, c)])
    else if c.job !in s.jobs || s.jobs[c.job].inCall then
      // "job gone" or "reentrant job call"
      s.(canceled := s.canceled + {c.id}, log := s.log + [Skipped(c.job, c)])
    else
      s.(jobs := s.jobs[c.job := s.jobs[c.job].(inCall := true)],
      stack := s.stack + [Run(c.job)],
      log := s.log + [Started(c.job, c)])
  }

  /** AsyncJob::callEnd for the innermost activation. */
  function CallEnd(s: State, doneAll: bool): State
    requires s.stack != [] && Top(s).job in s.jobs
  {
    var j := Top(s).job;
    if s.jobs[j].stopReason || doneAll then s.(stack := Below(s) + [Swan(j)], log := s.log + [SwanSong(j)])
    else s.(jobs := s.jobs[j := s.jobs[j].(inCall := false)], stack := Below(s), log := s.log + [Returned(j)])
  }

  ghost predicate Step(s: State, a: Action, t: State) {
    match a
    case Create(j) => j !in s.jobs && j !in s.gone && t == s.(jobs := s.jobs[j := JobState(false, false)])
    case Schedule(c) =>
      (c.job in s.jobs || c.job in s.gone) && t == s.(pending := s.pending + [c], scheduled := s.scheduled + [c])
    case Cancel(id) => t == s.(canceled := s.canceled + {id})
    case FireNext =>
      s.pending != [] &&
      t == Make(s.(pending := s.pending[1..], made := s.made + [s.pending[0]]), s.pending[0])
    case MethodEnds(doneAll, threw) =>
      s.stack != [] && Top(s).Run? && Top(s).job in s.jobs &&
      var j := Top(s).job;
      t == CallEnd(if threw then s.(jobs := s.jobs[j := s.jobs[j].(stopReason := true)]) else s, doneAll)
    case Delete =>
      s.stack != [] && Top(s).Swan? &&
      var j := Top(s).job;
      t == s.(jobs := s.jobs - {j}, gone := s.gone + {j}, stack := Below(s), log := s.log + [Deleted(j)])
    case MustStop(j) => j in s.jobs && t == s.(jobs := s.jobs[j := s.jobs[j].(stopReason := true)])
    case DeleteThis(j) =>
      j in s.jobs &&
      var u := s.(jobs := s.jobs[j := s.jobs[j].(stopReason := true)]);
      if s.jobs[j].inCall then t == u
      else // there is no call wrapper, so one is faked
        t == CallEnd(u.(jobs := u.jobs[j := JobState(true, true)], stack := u.stack + [Run(j)]), false)
  }

  // ---------- the invariant ----------

  ghost predicate OnStack(stack: seq<Frame>, j: Job) { exists i :: 0 <= i < |stack| && stack[i].job == j }

  ghost predicate OneFrameEach(stack: seq<Frame>) {
    forall i, k :: 0 <= i < k < |stack| ==> stack[i].job != stack[k].job
  }

  /** The calls that were made, fired or not, in a history. */
  function CallsIn(log: seq<Event>): seq<Call> {
    if log == [] then []
    else
      var e := log[|log| - 1];
      CallsIn(log[..|log| - 1]) + if e.Started? || e.Skipped? then [e.call] else []
  }

  ghost predicate PhasesAgree(s: State) {
    && (forall j :: j in s.gone ==> j !in s.jobs && PhaseOf(s.log, j) == Dead)
    && (forall j :: j !in s.gone && j !in s.jobs ==> PhaseOf(s.log, j) == Idle)
    && (forall j :: j in s.jobs && !s.jobs[j].inCall ==> PhaseOf(s.log, j) == Idle && !OnStack(s.stack, j))
    && (forall i :: 0 <= i < |s.stack| ==>
                      && s.stack[i].job in s.jobs && s.jobs[s.stack[i].job].inCall
                      && PhaseOf(s.log, s.stack[i].job) == if s.stack[i].Run? then Busy else Dying)
    && (forall j :: j in s.jobs && s.jobs[j].inCall ==> OnStack(s.stack, j))
  }

  /** A call that was not fired is cancelled. */
  ghost predicate SkippedAreCanceled(log: seq<Event>, canceled: set<nat>) {
    forall i :: 0 <= i < |log| && log[i].Skipped? ==> log[i].call.id in canceled
  }

  ghost predicate Inv(s: State) {
    && SkippedAreCanceled(s.log, s.canceled)
    && s.made + s.pending == s.scheduled
    && CallsIn(s.log) == s.made
    && OneFrameEach(s.stack)
    && PhasesAgree(s)
    && (forall i :: 0 <= i < |s.pending| ==> s.pending[i].job in s.jobs || s.pending[i].job in s.gone)
  }

  /** One more event in a history. */
  lemma LogEvent(log: seq<Event>, e: Event)
    ensures PhaseOf(log + [e], e.job) == Live(PhaseOf(log, e.job), e)
    ensures forall j :: j != e.job ==> PhaseOf(log + [e], j) == PhaseOf(log, j)
    ensures CallsIn(log + [e]) == CallsIn(log) + if e.Started? || e.Skipped? then [e.call] else []
  {
    assert (log + [e])[..|log|] == log;
  }

  lemma PushFrame(stack: seq<Frame>, f: Frame)
    requires OneFrameEach(stack) && !OnStack(stack, f.job)
    ensures OneFrameEach(stack + [f])
    ensures forall j :: OnStack(stack + [f], j) <==> OnStack(stack, j) || j == f.job
  {
    var st := stack + [f];
    assert st[|stack|] == f;
    forall j ensures OnStack(st, j) <==> OnStack(stack, j) || j == f.job {
      if OnStack(stack, j) {
        var i :| 0 <= i < |stack| && stack[i].job == j;
        assert st[i].job == j;
      }
    }
  }

  lemma PopFrame(stack: seq<Frame>)
    requires OneFrameEach(stack) && stack != []
    ensures OneFrameEach(stack[..|stack| - 1])
    ensures forall j :: OnStack(stack[..|stack| - 1], j) <==> OnStack(stack, j) && j != stack[|stack| - 1].job
  {
    var n := |stack| - 1;
    forall j ensures OnStack(stack[..n], j) <==> OnStack(stack, j) && j != stack[n].job {
      if OnStack(stack, j) && j != stack[n].job {
        var i :| 0 <= i < |stack| && stack[i].job == j;
        assert stack[..n][i].job == j;
      }
      if OnStack(stack[..n], j) {
        var i :| 0 <= i < n && stack[..n][i].job == j;
        assert stack[i].job == j;
      }
    }
  }

  lemma InCallIffOnStack(s: State, j: Job)
    requires PhasesAgree(s)
    ensures OnStack(s.stack, j) <==> j in s.jobs && s.jobs[j].inCall
  {
    hide PhaseOf;
  }

  lemma SkipKeeps(s: State, c: Call, canceled: set<nat>)
    requires Inv(s) && s.pending != [] && s.pending[0] == c && s.canceled <= canceled && c.id in canceled
    ensures Inv(s.(pending := s.pending[1..], made := s.made + [c], canceled := canceled, log := s.log + [Skipped(c.job, c)]))
  {
    hide PhaseOf, CallsIn;
    assert s.made + [c] + s.pending[1..] == s.made + s.pending;
    LogEvent(s.log, Skipped(c.job, c));
    assert PhaseOf(s.log + [Skipped(c.job, c)], c.job) == PhaseOf(s.log, c.job);
  }

  lemma StartKeeps(s: State, c: Call)
    requires Inv(s) && s.pending != [] && s.pending[0] == c && c.job in s.jobs && !s.jobs[c.job].inCall
    ensures Inv(s.(pending := s.pending[1..], made := s.made + [c], jobs := s.jobs[c.job := s.jobs[c.job].(inCall := true)],
                stack := s.stack + [Run(c.job)], log := s.log + [Started(c.job, c)]))
  {
    hide PhaseOf, CallsIn;
    assert s.made + [c] + s.pending[1..] == s.made + s.pending;
    LogEvent(s.log, Started(c.job, c));
    PushFrame(s.stack, Run(c.job));
  }

  lemma FiringKeeps(s: State, t: State)
    requires Inv(s) && Step(s, FireNext, t)
    ensures Inv(t)
  {
    hide Inv;
    var c := s.pending[0];
    if c.id in s.canceled {
      SkipKeeps(s, c, s.canceled);
    } else if c.job !in s.jobs || s.jobs[c.job].inCall {
      SkipKeeps(s, c, s.canceled + {c.id});
    } else {
      StartKeeps(s, c);
    }
  }

  /** The call is fired exactly when it is not cancelled, its job exists and is not in a call; else it is cancelled. */
  lemma FireKeeps(s: State, t: State)
    requires Inv(s) && Step(s, FireNext, t)
    ensures Inv(t)
    ensures var c := s.pending[0];
            var fires := c.id !in s.canceled && c.job in s.jobs && !OnStack(s.stack, c.job);
            && t.log == s.log + [if fires then Started(c.job, c) else Skipped(c.job, c)]
            && t.stack == (if fires then s.stack + [Run(c.job)] else s.stack)
            && t.canceled == (if fires then s.canceled else s.canceled + {c.id})
  {
    hide PhasesAgree, CallsIn;
    FiringKeeps(s, t);
    InCallIffOnStack(s, s.pending[0].job);
  }

  /** Ending the innermost method keeps the invariant. */
  lemma CallEndKeeps(s: State, doneAll: bool)
    requires Inv(s) && s.stack != [] && Top(s).Run?
    ensures Inv(CallEnd(s, doneAll))
  {
    hide PhaseOf, CallsIn;
    var j, t := Top(s).job, CallEnd(s, doneAll);
    PopFrame(s.stack);
    assert s.stack[|s.stack| - 1].job == j;
    if s.jobs[j].stopReason || doneAll {
      LogEvent(s.log, SwanSong(j));
      PushFrame(Below(s), Swan(j));
      forall k | k in s.jobs ensures OnStack(t.stack, k) <==> OnStack(s.stack, k) { }
    } else {
      LogEvent(s.log, Returned(j));
    }
  }

  lemma DeleteKeeps(s: State, t: State)
    requires Inv(s) && Step(s, Delete, t)
    ensures Inv(t)
  {
    hide PhaseOf, CallsIn;
    PopFrame(s.stack);
    LogEvent(s.log, Deleted(Top(s).job));
  }

  lemma StopKeeps(s: State, j: Job)
    requires Inv(s) && j in s.jobs
    ensures Inv(s.(jobs := s.jobs[j := s.jobs[j].(stopReason := true)]))
  {
    hide PhaseOf, CallsIn;
  }

  /** The fake call of deleteThis stands for a real one in every respect but the log. */
  lemma DeleteThisKeeps(s: State, j: Job, t: State)
    requires Inv(s) && Step(s, DeleteThis(j), t)
    ensures Inv(t)
    ensures OnStack(s.stack, j) ==> t.stack == s.stack && t.log == s.log && t.jobs[j].stopReason
    ensures !OnStack(s.stack, j) ==> t.stack == s.stack + [Swan(j)] && t.log == s.log + [SwanSong(j)]
  {
    hide PhaseOf, CallsIn;
    StopKeeps(s, j);
    if !s.jobs[j].inCall {
      PushFrame(s.stack, Swan(j));
      LogEvent(s.log, SwanSong(j));
      assert t.stack == s.stack + [Swan(j)];
    }
  }

  lemma StepKeeps(s: State, a: Action, t: State)
    requires Inv(s) && Step(s, a, t)
    ensures Inv(t)
  {
    hide PhaseOf, CallsIn;
    match a
    case Create(j) =>
    case Schedule(c) => assert s.made + (s.pending + [c]) == s.scheduled + [c];
    case Cancel(_) =>
    case FireNext => FireKeeps(s, t);
    case MethodEnds(doneAll, threw) =>
      var j := Top(s).job;
      StopKeeps(s, j);
      CallEndKeeps(if threw then s.(jobs := s.jobs[j := s.jobs[j].(stopReason := true)]) else s, doneAll);
    case Delete => DeleteKeeps(s, t);
    case MustStop(j) => StopKeeps(s, j);
    case DeleteThis(j) => DeleteThisKeeps(s, j, t);
  }

  // ---------- whole runs ----------

  ghost predicate IsRun(states: seq<State>, actions: seq<Action>) {
    && |states| == |actions| + 1
    && Init(states[0])
    && forall i :: 0 <= i < |actions| ==> Step(states[i], actions[i], states[i + 1])
  }

  lemma {:induction false} RunKeeps(states: seq<State>, actions: seq<Action>, n: nat)
    requires IsRun(states, actions) && n < |states|
    ensures Inv(states[n])
    decreases n
  {
    hide Step, PhaseOf;
    if n == 0 {
      EmptyHistory();
    } else {
      RunKeeps(states, actions, n - 1);
      assert Step(states[n - 1], actions[n - 1], states[n]);
      StepKeeps(states[n - 1], actions[n - 1], states[n]);
    }
  }

  lemma EmptyHistory()
    ensures forall j :: PhaseOf([], j) == Idle
  {
  }

  /**
   In every run: the calls made are the calls scheduled, in order, each at most once; no job's
   life is broken, that is, its methods never overlap, it gets one swan song and one deletion at
   most, and after that calls to it are skipped; a call is skipped only if it is cancelled.
   */
  lemma JobsLiveProperly(states: seq<State>, actions: seq<Action>, n: nat)
    requires IsRun(states, actions) && n < |states|
    ensures var s := states[n];
            s.made + s.pending == s.scheduled && CallsIn(s.log) == s.made
    ensures forall j :: PhaseOf(states[n].log, j) != Broken
    ensures forall j :: j in states[n].gone <==> PhaseOf(states[n].log, j) == Dead
    ensures SkippedAreCanceled(states[n].log, states[n].canceled)
  {
    RunKeeps(states, actions, n);
    var s := states[n];
    forall j ensures PhaseOf(s.log, j) != Broken && (j in s.gone <==> PhaseOf(s.log, j) == Dead) {
      if j in s.jobs && s.jobs[j].inCall {
        assert OnStack(s.stack, j);
      }
    }
  }

  // ---------- when a job must end ----------

  /** This step tells job j to stop: by mustStop, by deleteThis, or by an exception in its method. */
  ghost predicate Tells(s: State, a: Action, j: Job) {
    a == MustStop(j) || a == DeleteThis(j) || (a.MethodEnds? && a.threw && s.stack != [] && Top(s) == Run(j))
  }

  ghost predicate Told(states: seq<State>, actions: seq<Action>, n: nat, j: Job)
    requires |states| == |actions| + 1 && n <= |actions|
  {
    exists i :: 0 <= i < n && Tells(states[i], actions[i], j)
  }

  /** Job j was created in the past. */
  ghost predicate Known(s: State, j: Job) { j in s.jobs || j in s.gone }

  lemma KnownStays(s: State, a: Action, t: State, j: Job)
    requires Step(s, a, t) && Known(s, j)
    ensures Known(t, j)
  {
  }

  lemma {:induction false} ToldIsKnown(states: seq<State>, actions: seq<Action>, n: nat, j: Job)
    requires IsRun(states, actions) && n <= |actions| && Told(states, actions, n, j)
    ensures Known(states[n], j)
    decreases n
  {
    assert Step(states[n - 1], actions[n - 1], states[n]);
    if !Tells(states[n - 1], actions[n - 1], j) {
      assert Told(states, actions, n - 1, j);
      ToldIsKnown(states, actions, n - 1, j);
      KnownStays(states[n - 1], actions[n - 1], states[n], j);
    }
  }

  lemma CallEndStops(s: State, doneAll: bool, j: Job)
    requires s.stack != [] && Top(s).job in s.jobs
    ensures var t := CallEnd(s, doneAll);
            t.jobs.Keys == s.jobs.Keys && (j in s.jobs ==> t.jobs[j].stopReason == s.jobs[j].stopReason)
  {
  }

  /** One step sets the stop reason of a job exactly when it tells it to stop, and none takes it back. */
  lemma StopStep(s: State, a: Action, t: State, j: Job)
    requires Step(s, a, t) && j in t.jobs
    ensures if j in s.jobs then t.jobs[j].stopReason <==> s.jobs[j].stopReason || Tells(s, a, j)
            else a == Create(j) && !t.jobs[j].stopReason
  {
    hide CallEnd;
    match a
    case MethodEnds(doneAll, threw) =>
      var k := Top(s).job;
      CallEndStops(if threw then s.(jobs := s.jobs[k := s.jobs[k].(stopReason := true)]) else s, doneAll, j);
    case DeleteThis(k) =>
      var u := s.(jobs := s.jobs[k := s.jobs[k].(stopReason := true)]);
      if !s.jobs[k].inCall {
        CallEndStops(u.(jobs := u.jobs[k := JobState(true, true)], stack := u.stack + [Run(k)]), false, j);
      }
    case _ =>
  }

  /** A job has a stop reason exactly when it was told to stop. */
  lemma {:induction false} StoppedIffTold(states: seq<State>, actions: seq<Action>, n: nat, j: Job)
    requires IsRun(states, actions) && n <= |actions| && j in states[n].jobs
    ensures states[n].jobs[j].stopReason <==> Told(states, actions, n, j)
    decreases n
  {
    hide Step;
    if n > 0 {
      var s, a := states[n - 1], actions[n - 1];
      assert Step(s, a, states[n]);
      StopStep(s, a, states[n], j);
      assert Told(states, actions, n, j) <==> Told(states, actions, n - 1, j) || Tells(s, a, j);
      if j in s.jobs {
        StoppedIffTold(states, actions, n - 1, j);
      } else {
        NotKnownBefore(s, j, states[n]);
        if Told(states, actions, n - 1, j) { ToldIsKnown(states, actions, n - 1, j); }
      }
    }
  }

  lemma NotKnownBefore(s: State, j: Job, t: State)
    requires Step(s, Create(j), t)
    ensures !Known(s, j)
  {
  }

  /**
   In every run: when a method of a job ends, the job sings its swan song, to be deleted next, if and
   only if it has nothing more to do, or the method threw, or it was told to stop at any time before.
   Otherwise it lives on and can be called again.
   */
  lemma EndsIffDone(states: seq<State>, actions: seq<Action>, n: nat)
    requires IsRun(states, actions) && n < |actions| && actions[n].MethodEnds?
    ensures var s, t := states[n], states[n + 1];
            var j := Top(s).job;
            if actions[n].doneAll || actions[n].threw || Told(states, actions, n, j) then
              t.stack == Below(s) + [Swan(j)] && t.log == s.log + [SwanSong(j)] && j in t.jobs
            else
              t.stack == Below(s) && t.log == s.log + [Returned(j)] && t.jobs == s.jobs[j := JobState(false, false)]
  {
    hide Told;
    assert Step(states[n], actions[n], states[n + 1]);
    StoppedIffTold(states, actions, n, Top(states[n]).job);
  }

  lemma LogGrows(s: State, a: Action, t: State)
    requires Step(s, a, t)
    ensures s.log <= t.log && s.canceled <= t.canceled
  {
  }

  lemma {:induction false} CanceledStays(states: seq<State>, actions: seq<Action>, i: nat, n: nat, id: nat)
    requires IsRun(states, actions) && i < n <= |actions| && actions[i] == Cancel(id)
    ensures id in states[n].canceled
    decreases n
  {
    hide Step;
    assert Step(states[n - 1], actions[n - 1], states[n]);
    LogGrows(states[n - 1], actions[n - 1], states[n]);
    if i < n - 1 { CanceledStays(states, actions, i, n - 1, id); } else { CancelAdds(states[i], id, states[n]); }
  }

  lemma CancelAdds(s: State, id: nat, t: State)
    requires Step(s, Cancel(id), t)
    ensures id in t.canceled
  {
  }

  /** A call that was cancelled before it was made is not fired, whatever happens in between. */
  lemma CanceledIsNotFired(states: seq<State>, actions: seq<Action>, i: nat, n: nat)
    requires IsRun(states, actions) && i < n < |actions| && actions[n] == FireNext
    requires states[n].pending != [] && actions[i] == Cancel(states[n].pending[0].id)
    ensures var c := states[n].pending[0]; states[n + 1].log == states[n].log + [Skipped(c.job, c)]
  {
    hide Inv;
    CanceledStays(states, actions, i, n, states[n].pending[0].id);
    RunKeeps(states, actions, n);
    assert Step(states[n], actions[n], states[n + 1]);
    FireKeeps(states[n], states[n + 1]);
  }
}
