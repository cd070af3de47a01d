/**
 Progress of the pipeline of JobPipeline.dfy: its workers can take only so many steps, and
 when none of them can take another one, every job has gone all the way.
 */
module JobProgress {
  import opened Collections
  import opened JobPipeline
  import JobOrder

  // ---------- how many steps a run has taken ----------

  /** The steps beyond those that the parse log accounts for. */
  function Credit(pc: WorkPc): int {
    match pc
    case WorkIdle => 0
    case WorkGot(_) => 1
    case WorkParsed(_) => -2
    case WorkMarked(_) => -1
  }

  function Credits(work: seq<WorkPc>): int {
    if work == [] then 0 else Credits(work[..|work| - 1]) + Credit(work[|work| - 1])
  }

  /** The steps beyond those that the read and write logs account for. */
  function IoCredit(io: IoPc): int {
    match io
    case IoIdle => 0
    case IoGot(_) => 1
    case IoRead(_) => -2
    case IoMarked(_) => -1
    case IoWritten(_) => -1
    case IoClosed(_) => 0
  }

  /** The number of steps that led to s, read off its logs and the workers' positions. */
  function Taken(s: State): int {
    |s.submitted| + 4 * |s.read| + 4 * |s.parsed| + 3 * |s.written| + |s.deleted| + IoCredit(s.io) + Credits(s.work)
  }

  lemma {:induction false} CreditsUpdate(work: seq<WorkPc>, w: nat, pc: WorkPc)
    requires w < |work|
    ensures Credits(work[w := pc]) == Credits(work) - Credit(work[w]) + Credit(pc)
    decreases |work|
  {
    hide Credit;
    var n := |work| - 1;
    if w < n {
      CreditsUpdate(work[..n], w, pc);
      assert work[w := pc][..n] == work[..n][w := pc];
    } else {
      assert work[w := pc][..n] == work[..n];
    }
  }

  lemma StepIsCounted(s: State, a: Action)
    requires Inv(s) && Enabled(s, a)
    ensures Taken(Next(s, a)) == Taken(s) + 1
  {
    hide N, HeldN, ParsedN, Credits;
    var t := Next(s, a);
    if a.WorkGet? || a.WorkDispatch? || a.WorkMark? || a.WorkPut? {
      assert InStep(s, s.work[a.w]);
      CreditsUpdate(s.work, a.w, t.work[a.w]);
      assert t.work == s.work[a.w := t.work[a.w]];
    }
  }

  lemma {:induction false} NobodyCredited(work: seq<WorkPc>)
    requires forall w :: 0 <= w < |work| ==> work[w].WorkIdle?
    ensures Credits(work) == 0
    decreases |work|
  {
    if work != [] { NobodyCredited(work[..|work| - 1]); }
  }

  lemma {:induction false} CreditsBounded(work: seq<WorkPc>)
    ensures Credits(work) <= |work|
    decreases |work|
  {
    if work != [] { CreditsBounded(work[..|work| - 1]); }
  }

  lemma {:induction false} RunIsCounted(workers: nat, actions: seq<Action>)
    requires Play(workers, actions).Some?
    ensures |actions| == Taken(Play(workers, actions).value)
    decreases |actions|
  {
    if actions == [] {
      NobodyCredited(Start(workers).work);
    } else {
      var before := actions[..|actions| - 1];
      RunIsCounted(workers, before);
      RunKeeps(workers, before);
      StepIsCounted(Play(workers, before).value, actions[|actions| - 1]);
    }
  }

  // ---------- the logs are no longer than the submissions ----------

  lemma {:induction false} NIsMultiplicity(q: seq<Job>, j: Job)
    ensures N(q, j) == multiset(q)[j]
    decreases |q|
  {
    if q != [] {
      NIsMultiplicity(q[..|q| - 1], j);
      assert q == q[..|q| - 1] + [q[|q| - 1]];
    }
  }

  lemma FewerAreShorter(q: seq<Job>, r: seq<Job>)
    requires forall j :: N(q, j) <= N(r, j)
    ensures |q| <= |r|
    ensures (forall j :: N(r, j) <= N(q, j)) ==> |q| == |r| && multiset(q) == multiset(r)
  {
    hide N;
    forall j ensures multiset(q)[j] <= multiset(r)[j] && (N(r, j) <= N(q, j) ==> multiset(q)[j] == multiset(r)[j]) {
      assert N(q, j) <= N(r, j);
      NIsMultiplicity(q, j);
      NIsMultiplicity(r, j);
    }
    assert multiset(r) == multiset(q) + (multiset(r) - multiset(q));
    assert |multiset(q)| == |q| && |multiset(r)| == |r|;
  }

  lemma LogsAreShort(s: State)
    requires Inv(s)
    ensures |s.deleted| <= |s.written| <= |s.parsed| <= |s.read| <= |s.submitted|
  {
    hide N, Inv;
    forall j ensures N(s.deleted, j) <= N(s.written, j) <= N(s.parsed, j) <= N(s.read, j) <= N(s.submitted, j) {
      LogsNest(s, j);
    }
    FewerAreShorter(s.deleted, s.written);
    FewerAreShorter(s.written, s.parsed);
    FewerAreShorter(s.parsed, s.read);
    FewerAreShorter(s.read, s.submitted);
  }

  /** No run is longer than the submissions allow: the workers cannot go on for ever without new jobs. */
  lemma RunsAreBounded(workers: nat, actions: seq<Action>)
    requires Play(workers, actions).Some?
    ensures |actions| <= 13 * |Play(workers, actions).value.submitted| + workers + 1
  {
    hide Play, Inv;
    RunKeeps(workers, actions);
    RunIsCounted(workers, actions);
    LogsAreShort(Play(workers, actions).value);
    CreditsBounded(Play(workers, actions).value.work);
  }

  // ---------- nobody is left behind ----------

  /** No worker can take a step; only a submission could change anything. */
  ghost predicate AtRest(s: State) { forall a: Action :: Enabled(s, a) ==> a.Submit? }

  /** Every submitted job has been read, parsed, written and deleted. */
  ghost predicate AllDone(s: State) {
    multiset(s.deleted) == multiset(s.written) == multiset(s.parsed) == multiset(s.read) == multiset(s.submitted)
  }

  lemma RestIsEmpty(s: State)
    requires Inv(s) && AtRest(s) && |s.work| > 0
    ensures s.ioQueue == [] && s.queue == [] && s.io.IoIdle? && forall w :: 0 <= w < |s.work| ==> s.work[w].WorkIdle?
  {
    hide N, HeldN, ParsedN;
    assert !Enabled(s, IoGet) && !Enabled(s, IoDispatch) && !Enabled(s, IoMark) && !Enabled(s, IoPut);
    assert !Enabled(s, IoFinish) && !Enabled(s, IoDelete);
    forall w | 0 <= w < |s.work| ensures s.work[w].WorkIdle? && s.queue == [] {
      assert InStep(s, s.work[w]);
      assert !Enabled(s, WorkGet(w)) && !Enabled(s, WorkDispatch(w)) && !Enabled(s, WorkMark(w)) && !Enabled(s, WorkPut(w));
    }
    assert s.work[0].WorkIdle?;
  }

  /** At rest, with somebody to parse, every job has gone all the way, in exactly thirteen steps. */
  lemma RestMeansDone(workers: nat, actions: seq<Action>)
    requires Play(workers, actions).Some? && AtRest(Play(workers, actions).value) && workers >= 1
    ensures AllDone(Play(workers, actions).value)
    ensures |actions| == 13 * |Play(workers, actions).value.submitted|
  {
    hide Play, N;
    RunKeeps(workers, actions);
    RunIsCounted(workers, actions);
    var s := Play(workers, actions).value;
    RestIsEmpty(s);
    NobodyCredited(s.work);
    forall j ensures N(s.deleted, j) == N(s.written, j) == N(s.parsed, j) == N(s.read, j) == N(s.submitted, j) {
      LogsNest(s, j);
      DrainedMeansDone(workers, actions, j);
      NIn(s.submitted, j);
      NIn(s.deleted, j);
    }
    FewerAreShorter(s.deleted, s.written);
    FewerAreShorter(s.written, s.parsed);
    FewerAreShorter(s.parsed, s.read);
    FewerAreShorter(s.read, s.submitted);
  }

  /** Without a parse worker the first job stays in the main queue. */
  lemma NobodyParses() returns (acts: seq<Action>, s: State)
    ensures Play(0, acts) == Some(s) && AtRest(s) && !AllDone(s)
  {
    acts, s := [], Start(0);
    acts, s := JobOrder.Go(0, acts, s, Submit(0));
    acts, s := JobOrder.Go(0, acts, s, IoGet);
    acts, s := JobOrder.Go(0, acts, s, IoDispatch);
    acts, s := JobOrder.Go(0, acts, s, IoMark);
    acts, s := JobOrder.Go(0, acts, s, IoPut);
    assert s == Start(0).(stage := map[0 := ReadEnd], queue := [0], submitted := [0], read := [0]);
    assert multiset(s.deleted)[0] == 0 && multiset(s.submitted)[0] == 1;
  }

  /** On every interleaving that comes to rest all jobs are done, exactly when somebody parses. */
  lemma CompletesIffSomebodyParses(workers: nat)
    ensures (forall actions :: Play(workers, actions).Some? && AtRest(Play(workers, actions).value) ==>
                                 AllDone(Play(workers, actions).value)) <==> workers >= 1
  {
    if workers >= 1 {
      forall actions | Play(workers, actions).Some? && AtRest(Play(workers, actions).value)
        ensures AllDone(Play(workers, actions).value)
      {
        RestMeansDone(workers, actions);
      }
    } else {
      var acts, s := NobodyParses();
    }
  }
}
