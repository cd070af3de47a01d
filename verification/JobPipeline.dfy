/**
 The worker loops of CMgrJob.cpp over the two queues: one I/O worker and any number of parse
 workers, interleaved at the granularity of the locked queue operations and the single
 statements between them.  Architecture.cpp starts two parse workers.
 */
module JobPipeline {
  import opened Collections

  type Job = nat

  datatype Stage = InitStage | ReadEnd | ModelEnd | WriteEnd

  /** Where dwLoopIOWork stands with the job it holds. */
  datatype IoPc = IoIdle | IoGot(job: Job) | IoRead(job: Job) | IoMarked(job: Job) | IoWritten(job: Job) | IoClosed(job: Job)

  /** Where a dwLoopWork stands with the job it holds. */
  datatype WorkPc = WorkIdle | WorkGot(job: Job) | WorkParsed(job: Job) | WorkMarked(job: Job)

  datatype State = State(
    stage: map<Job, Stage>,
    ioQueue: seq<Job>,
    queue: seq<Job>,
    io: IoPc,
    work: seq<WorkPc>,   // one entry for each parse worker
    submitted: seq<Job>,
    read: seq<Job>,      // doReading calls so far
    parsed: seq<Job>,    // doParsing calls so far
    written: seq<Job>,   // doWriting calls so far
    deleted: seq<Job>,
    dropped: seq<Job>)   // jobs taken from a queue whose stage nobody handles

  datatype Action =
    | Submit(job: Job)
    | IoGet | IoDispatch | IoMark | IoPut | IoFinish | IoDelete
    | WorkGet(w: nat) | WorkDispatch(w: nat) | WorkMark(w: nat) | WorkPut(w: nat)

  function Start(workers: nat): State {
    State(map[], [], [], IoIdle, seq(workers, _ => WorkIdle), [], [], [], [], [], [])
  }

  predicate Enabled(s: State, a: Action) {
    match a
    case Submit(j) => j !in s.stage
    case IoGet => s.io.IoIdle? && s.ioQueue != []
    case IoDispatch => s.io.IoGot? && s.io.job in s.stage
    case IoMark => s.io.IoRead?
    case IoPut => s.io.IoMarked?
    case IoFinish => s.io.IoWritten?
    case IoDelete => s.io.IoClosed?
    case WorkGet(w) => w < |s.work| && s.work[w].WorkIdle? && s.queue != []
    case WorkDispatch(w) => w < |s.work| && s.work[w].WorkGot? && s.work[w].job in s.stage
    case WorkMark(w) => w < |s.work| && s.work[w].WorkParsed?
    case WorkPut(w) => w < |s.work| && s.work[w].WorkMarked?
  }

  /** One step of one thread. */
  function Next(s: State, a: Action): State
    requires Enabled(s, a)
  {
    match a
    case Submit(j) =>
      s.(stage := s.stage[j := InitStage], ioQueue := s.ioQueue + [j], submitted := s.submitted + [j])
    case IoGet => s.(io := IoGot(s.ioQueue[0]), ioQueue := s.ioQueue[1..])
    case IoDispatch =>
      (match s.stage[s.io.job]
       case InitStage => s.(io := IoRead(s.io.job), read := s.read + [s.io.job])
       case ModelEnd => s.(io := IoWritten(s.io.job), written := s.written + [s.io.job])
       case _ => s.(io := IoIdle, dropped := s.dropped + [s.io.job]))
    case IoMark => s.(io := IoMarked(s.io.job), stage := s.stage[s.io.job := ReadEnd])
    case IoPut => s.(io := IoIdle, queue := s.queue + [s.io.job])
    case IoFinish => s.(io := IoClosed(s.io.job), stage := s.stage[s.io.job := WriteEnd])
    case IoDelete => s.(io := IoIdle, deleted := s.deleted + [s.io.job])
    case WorkGet(w) => s.(work := s.work[w := WorkGot(s.queue[0])], queue := s.queue[1..])
    case WorkDispatch(w) =>
      var j := s.work[w].job;
      if s.stage[j] == ReadEnd then s.(work := s.work[w := WorkParsed(j)], parsed := s.parsed + [j])
      else s.(work := s.work[w := WorkIdle], dropped := s.dropped + [j])
    case WorkMark(w) =>
      var j := s.work[w].job;
      s.(work := s.work[w := WorkMarked(j)], stage := s.stage[j := ModelEnd])
    case WorkPut(w) => s.(work := s.work[w := WorkIdle], ioQueue := s.ioQueue + [s.work[w].job])
  }

  /** The state after an interleaving of steps, if all of them were possible. */
  function Play(workers: nat, actions: seq<Action>): Option<State> {
    if actions == [] then Some(Start(workers))
    else match Play(workers, actions[..|actions| - 1])
         case None => None
         case Some(s) =>
           var a := actions[|actions| - 1];
           if Enabled(s, a) then Some(Next(s, a)) else None
  }

  // ---------- counting ----------

  /** How often job j occurs in q. */
  function N(q: seq<Job>, j: Job): nat {
    if q == [] then 0 else N(q[..|q| - 1], j) + if q[|q| - 1] == j then 1 else 0
  }

  /** How many parse workers hold job j. */
  function HeldN(work: seq<WorkPc>, j: Job): nat {
    if work == [] then 0 else HeldN(work[..|work| - 1], j) + Holds(work[|work| - 1], j)
  }

  function Holds(pc: WorkPc, j: Job): nat { if !pc.WorkIdle? && pc.job == j then 1 else 0 }

  /** How many of them have parsed it. */
  function ParsedN(work: seq<WorkPc>, j: Job): nat {
    if work == [] then 0 else ParsedN(work[..|work| - 1], j) + HoldsParsed(work[|work| - 1], j)
  }

  function HoldsParsed(pc: WorkPc, j: Job): nat { if (pc.WorkParsed? || pc.WorkMarked?) && pc.job == j then 1 else 0 }

  ghost predicate InStage(s: State, j: Job, g: Stage) { j in s.stage && s.stage[j] == g }

  /** The I/O worker's job when it is on its way out, not yet written. */
  ghost function LateN(s: State, j: Job): nat {
    if s.io.IoGot? && s.io.job == j && InStage(s, j, ModelEnd) then 1 else 0
  }

  /** The I/O worker's job when it is not yet read. */
  ghost function UnreadN(s: State, j: Job): nat {
    if s.io.IoGot? && s.io.job == j && InStage(s, j, InitStage) then 1 else 0
  }

  /** The I/O worker's job when it is on its way in. */
  ghost function EarlyN(s: State, j: Job): nat {
    if (s.io.IoRead? || s.io.IoMarked?) && s.io.job == j then 1 else UnreadN(s, j)
  }

  /** In how many places job j is. */
  ghost function Places(s: State, j: Job): nat {
    N(s.written, j) + LateN(s, j) + N(s.ioQueue, j) + HeldN(s.work, j) + N(s.queue, j) + EarlyN(s, j)
  }

  /** Job j is in one place if it was submitted, in the stage of that place, and in the logs it has earned. */
  ghost predicate JobOk(s: State, j: Job) {
    && N(s.submitted, j) <= 1
    && N(s.submitted, j) == Places(s, j)
    && (N(s.submitted, j) > 0 ==> j in s.stage)
    && (N(s.ioQueue, j) > 0 ==> InStage(s, j, InitStage) || InStage(s, j, ModelEnd))
    && (N(s.queue, j) > 0 ==> InStage(s, j, ReadEnd))
    && N(s.read, j) + UnreadN(s, j) + (if InStage(s, j, InitStage) then N(s.ioQueue, j) else 0) == N(s.submitted, j)
    && N(s.parsed, j) ==
       N(s.written, j) + LateN(s, j) + (if InStage(s, j, ModelEnd) then N(s.ioQueue, j) else 0) + ParsedN(s.work, j)
  }

  /** The workers stand where the stages of their jobs say. */
  ghost predicate Control(s: State) {
    && (match s.io
        case IoIdle => true
        case IoGot(j) => InStage(s, j, InitStage) || InStage(s, j, ModelEnd)
        case IoRead(j) => InStage(s, j, InitStage)
        case IoMarked(j) => InStage(s, j, ReadEnd)
        case IoWritten(j) => InStage(s, j, ModelEnd)
        case IoClosed(j) => InStage(s, j, WriteEnd))
    && (forall w :: 0 <= w < |s.work| ==> InStep(s, s.work[w]))
    && s.written == s.deleted + (if s.io.IoWritten? || s.io.IoClosed? then [s.io.job] else [])
    && s.dropped == []
  }

  ghost predicate InStep(s: State, pc: WorkPc) {
    match pc
    case WorkIdle => true
    case WorkGot(j) => InStage(s, j, ReadEnd)
    case WorkParsed(j) => InStage(s, j, ReadEnd)
    case WorkMarked(j) => InStage(s, j, ModelEnd)
  }

  ghost predicate Inv(s: State) { Control(s) && forall j :: JobOk(s, j) }

  // ---------- facts about counts ----------

  lemma NSnoc(q: seq<Job>, x: Job, j: Job)
    ensures N(q + [x], j) == N(q, j) + if x == j then 1 else 0
  {
    assert (q + [x])[..|q|] == q;
  }

  lemma {:induction false} NCons(x: Job, q: seq<Job>, j: Job)
    ensures N([x] + q, j) == N(q, j) + if x == j then 1 else 0
    decreases |q|
  {
    if q == [] {
      assert [x] + q == [x] && [x][..0] == [];
    } else {
      NCons(x, q[..|q| - 1], j);
      assert ([x] + q)[..|q|] == [x] + q[..|q| - 1];
    }
  }

  lemma {:induction false} NIn(q: seq<Job>, j: Job)
    ensures N(q, j) > 0 <==> j in q
    decreases |q|
  {
    if q != [] {
      NIn(q[..|q| - 1], j);
      assert q == q[..|q| - 1] + [q[|q| - 1]];
    }
  }

  lemma {:induction false} CountDistinct(q: seq<Job>)
    requires forall j :: N(q, j) <= 1
    ensures Distinct(q)
    decreases |q|
  {
    if q != [] {
      var n := |q| - 1;
      forall j ensures N(q[..n], j) <= 1 { assert N(q, j) <= 1; }
      CountDistinct(q[..n]);
      assert N(q, q[n]) <= 1;
      NIn(q[..n], q[n]);
    }
  }

  lemma {:induction false} HeldUpdate(work: seq<WorkPc>, w: nat, pc: WorkPc, j: Job)
    requires w < |work|
    ensures HeldN(work[w := pc], j) + Holds(work[w], j) == HeldN(work, j) + Holds(pc, j)
    ensures ParsedN(work[w := pc], j) + HoldsParsed(work[w], j) == ParsedN(work, j) + HoldsParsed(pc, j)
    decreases |work|
  {
    hide Holds, HoldsParsed;
    var n := |work| - 1;
    if w < n {
      HeldUpdate(work[..n], w, pc, j);
      assert work[w := pc][..n] == work[..n][w := pc];
    } else {
      assert work[w := pc][..n] == work[..n];
    }
  }

  lemma {:induction false} HeldPositive(work: seq<WorkPc>, w: nat)
    requires w < |work| && !work[w].WorkIdle?
    ensures HeldN(work, work[w].job) >= 1
    decreases |work|
  {
    if w < |work| - 1 { HeldPositive(work[..|work| - 1], w); }
  }

  // ---------- no job is in two places ----------

  /** A job in the hands of a parse worker is in no queue, not written, and nobody else's. */
  lemma WorkJobAlone(s: State, w: nat)
    requires Inv(s) && w < |s.work| && !s.work[w].WorkIdle?
    ensures var j := s.work[w].job;
            && N(s.ioQueue, j) == N(s.queue, j) == N(s.written, j) == LateN(s, j) == EarlyN(s, j) == 0
            && (s.io.IoIdle? || s.io.job != j)
            && forall v :: 0 <= v < |s.work| && v != w && !s.work[v].WorkIdle? ==> s.work[v].job != j
  {
    hide N, HeldN, ParsedN;
    var j := s.work[w].job;
    HeldPositive(s.work, w);
    assert JobOk(s, j);
    forall v | 0 <= v < |s.work| && v != w && !s.work[v].WorkIdle? ensures s.work[v].job != j {
      HeldUpdate(s.work, w, WorkIdle, j);
      HeldPositive(s.work[w := WorkIdle], v);
    }
    if s.io.IoWritten? || s.io.IoClosed? { NSnoc(s.deleted, s.io.job, j); }
  }

  /** A job in the hands of the I/O worker is in no queue and no parse worker's. */
  lemma IoJobAlone(s: State)
    requires Inv(s) && !s.io.IoIdle?
    ensures N(s.ioQueue, s.io.job) == N(s.queue, s.io.job) == 0
    ensures forall w :: 0 <= w < |s.work| && !s.work[w].WorkIdle? ==> s.work[w].job != s.io.job
  {
    hide N, HeldN, ParsedN;
    assert JobOk(s, s.io.job);
    if s.io.IoWritten? || s.io.IoClosed? { NSnoc(s.deleted, s.io.job, s.io.job); }
    forall w | 0 <= w < |s.work| && !s.work[w].WorkIdle? ensures s.work[w].job != s.io.job { HeldPositive(s.work, w); }
  }

  /** A deleted job is in no queue and in nobody's hands. */
  lemma DeletedIsGone(s: State, j: Job)
    requires Inv(s) && j in s.deleted
    ensures j !in s.ioQueue && j !in s.queue
    ensures s.io.IoIdle? || s.io.job != j
    ensures forall w :: 0 <= w < |s.work| && !s.work[w].WorkIdle? ==> s.work[w].job != j
  {
    hide N, HeldN, ParsedN;
    assert JobOk(s, j);
    NIn(s.deleted, j);
    NIn(s.ioQueue, j);
    NIn(s.queue, j);
    if s.io.IoWritten? || s.io.IoClosed? { NSnoc(s.deleted, s.io.job, j); } else { assert s.written == s.deleted; }
    forall w | 0 <= w < |s.work| && !s.work[w].WorkIdle? ensures s.work[w].job != j { HeldPositive(s.work, w); }
  }

  // ---------- every step keeps the invariant ----------

  lemma SubmitKeeps(s: State, x: Job)
    requires Inv(s) && Enabled(s, Submit(x))
    ensures Inv(Next(s, Submit(x)))
  {
    hide N, HeldN, ParsedN;
    var t := Next(s, Submit(x));
    forall j ensures JobOk(t, j) {
      assert JobOk(s, j);
      NSnoc(s.ioQueue, x, j);
      NSnoc(s.submitted, x, j);
    }
  }

  lemma IoGetKeeps(s: State)
    requires Inv(s) && Enabled(s, IoGet)
    ensures Inv(Next(s, IoGet))
  {
    hide N, HeldN, ParsedN;
    var x, t := s.ioQueue[0], Next(s, IoGet);
    assert s.ioQueue == [x] + t.ioQueue;
    NCons(x, t.ioQueue, x);
    assert JobOk(s, x);
    forall j ensures JobOk(t, j) {
      assert JobOk(s, j);
      NCons(x, t.ioQueue, j);
    }
  }

  lemma IoDispatchKeeps(s: State)
    requires Inv(s) && Enabled(s, IoDispatch)
    ensures Inv(Next(s, IoDispatch))
  {
    hide N, HeldN, ParsedN;
    var x, t := s.io.job, Next(s, IoDispatch);
    forall j ensures JobOk(t, j) {
      assert JobOk(s, j);
      NSnoc(s.read, x, j);
      NSnoc(s.written, x, j);
    }
  }

  lemma IoMarksKeeps(s: State, a: Action)
    requires Inv(s) && Enabled(s, a) && (a.IoMark? || a.IoFinish?)
    ensures Inv(Next(s, a))
  {
    hide N, HeldN, ParsedN;
    var t := Next(s, a);
    IoJobAlone(s);
    forall j ensures JobOk(t, j) { assert JobOk(s, j); }
    forall w | 0 <= w < |t.work| ensures InStep(t, t.work[w]) { assert InStep(s, s.work[w]); }
  }

  lemma IoLetsGoKeeps(s: State, a: Action)
    requires Inv(s) && Enabled(s, a) && (a.IoPut? || a.IoDelete?)
    ensures Inv(Next(s, a))
  {
    hide N, HeldN, ParsedN;
    var t := Next(s, a);
    forall j ensures JobOk(t, j) {
      assert JobOk(s, j);
      NSnoc(s.queue, s.io.job, j);
    }
    forall w | 0 <= w < |t.work| ensures InStep(t, t.work[w]) { assert InStep(s, s.work[w]); }
  }

  lemma WorkGetKeeps(s: State, w: nat)
    requires Inv(s) && Enabled(s, WorkGet(w))
    ensures Inv(Next(s, WorkGet(w)))
  {
    hide N, HeldN, ParsedN;
    var x, t := s.queue[0], Next(s, WorkGet(w));
    assert s.queue == [x] + t.queue;
    NCons(x, t.queue, x);
    assert JobOk(s, x);
    forall j ensures JobOk(t, j) {
      assert JobOk(s, j);
      NCons(x, t.queue, j);
      HeldUpdate(s.work, w, WorkGot(x), j);
    }
    forall v | 0 <= v < |t.work| ensures InStep(t, t.work[v]) { assert InStep(s, s.work[v]); }
  }

  lemma WorkDispatchKeeps(s: State, w: nat)
    requires Inv(s) && Enabled(s, WorkDispatch(w))
    ensures Inv(Next(s, WorkDispatch(w)))
  {
    hide N, HeldN, ParsedN;
    var x, t := s.work[w].job, Next(s, WorkDispatch(w));
    assert InStep(s, s.work[w]);
    forall j ensures JobOk(t, j) {
      assert JobOk(s, j);
      NSnoc(s.parsed, x, j);
      HeldUpdate(s.work, w, WorkParsed(x), j);
    }
    forall v | 0 <= v < |t.work| ensures InStep(t, t.work[v]) { assert InStep(s, s.work[v]); }
  }

  lemma WorkMarkKeeps(s: State, w: nat)
    requires Inv(s) && Enabled(s, WorkMark(w))
    ensures Inv(Next(s, WorkMark(w)))
  {
    hide N, HeldN, ParsedN;
    var x, t := s.work[w].job, Next(s, WorkMark(w));
    WorkJobAlone(s, w);
    assert InStep(s, s.work[w]);
    forall j ensures JobOk(t, j) {
      assert JobOk(s, j);
      HeldUpdate(s.work, w, WorkMarked(x), j);
    }
    forall v | 0 <= v < |t.work| ensures InStep(t, t.work[v]) { assert InStep(s, s.work[v]); }
  }

  lemma WorkPutKeeps(s: State, w: nat)
    requires Inv(s) && Enabled(s, WorkPut(w))
    ensures Inv(Next(s, WorkPut(w)))
  {
    hide N, HeldN, ParsedN;
    var x, t := s.work[w].job, Next(s, WorkPut(w));
    assert InStep(s, s.work[w]);
    forall j ensures JobOk(t, j) {
      assert JobOk(s, j);
      NSnoc(s.ioQueue, x, j);
      HeldUpdate(s.work, w, WorkIdle, j);
    }
    forall v | 0 <= v < |t.work| ensures InStep(t, t.work[v]) { assert InStep(s, s.work[v]); }
  }

  lemma StepKeeps(s: State, a: Action)
    requires Inv(s) && Enabled(s, a)
    ensures Inv(Next(s, a))
  {
    hide Inv, Next;
    match a
    case Submit(j) => SubmitKeeps(s, j);
    case IoGet => IoGetKeeps(s);
    case IoDispatch => IoDispatchKeeps(s);
    case IoMark => IoMarksKeeps(s, a);
    case IoPut => IoLetsGoKeeps(s, a);
    case IoFinish => IoMarksKeeps(s, a);
    case IoDelete => IoLetsGoKeeps(s, a);
    case WorkGet(w) => WorkGetKeeps(s, w);
    case WorkDispatch(w) => WorkDispatchKeeps(s, w);
    case WorkMark(w) => WorkMarkKeeps(s, w);
    case WorkPut(w) => WorkPutKeeps(s, w);
  }

  // ---------- whole runs ----------

  lemma {:induction false} RunKeeps(workers: nat, actions: seq<Action>)
    requires Play(workers, actions).Some?
    ensures Inv(Play(workers, actions).value) && |Play(workers, actions).value.work| == workers
    decreases |actions|
  {
    if actions == [] {
      StartIsFine(workers);
    } else {
      RunKeeps(workers, actions[..|actions| - 1]);
      StepKeeps(Play(workers, actions[..|actions| - 1]).value, actions[|actions| - 1]);
    }
  }

  lemma StartIsFine(workers: nat)
    ensures Inv(Start(workers))
  {
    forall j ensures JobOk(Start(workers), j) { NobodyHolds(Start(workers).work, j); }
  }

  lemma {:induction false} NobodyHolds(work: seq<WorkPc>, j: Job)
    requires forall w :: 0 <= w < |work| ==> work[w].WorkIdle?
    ensures HeldN(work, j) == ParsedN(work, j) == 0
    decreases |work|
  {
    if work != [] { NobodyHolds(work[..|work| - 1], j); }
  }

  lemma {:induction false} ParsedAreHeld(work: seq<WorkPc>, j: Job)
    ensures ParsedN(work, j) <= HeldN(work, j)
    decreases |work|
  {
    if work != [] { ParsedAreHeld(work[..|work| - 1], j); }
  }

  /** The logs nest: what is deleted was written, what is written was parsed, what is parsed was read. */
  lemma LogsNest(s: State, j: Job)
    requires Inv(s)
    ensures N(s.deleted, j) <= N(s.written, j) <= N(s.parsed, j) <= N(s.read, j) <= N(s.submitted, j) <= 1
  {
    hide N, HeldN, ParsedN;
    assert JobOk(s, j);
    ParsedAreHeld(s.work, j);
    if s.io.IoWritten? || s.io.IoClosed? { NSnoc(s.deleted, s.io.job, j); } else { assert s.written == s.deleted; }
  }

  /**
   Over every interleaving, with any number of parse workers: each job is read, parsed, written
   and deleted at most once, each only after the step before; no job is ever dropped; and a job
   that was deleted is in no queue and in no worker's hands.
   */
  lemma PipelineIsSafe(workers: nat, actions: seq<Action>)
    requires Play(workers, actions).Some?
    ensures var s := Play(workers, actions).value;
            && Distinct(s.submitted) && Distinct(s.read) && Distinct(s.parsed) && Distinct(s.written) && Distinct(s.deleted)
            && s.dropped == []
            && (forall j :: j in s.deleted ==> j in s.written)
            && (forall j :: j in s.written ==> j in s.parsed)
            && (forall j :: j in s.parsed ==> j in s.read)
            && (forall j :: j in s.read ==> j in s.submitted)
    ensures var s := Play(workers, actions).value;
            forall j :: j in s.deleted ==>
                          && j !in s.ioQueue && j !in s.queue && (s.io.IoIdle? || s.io.job != j)
                          && forall w :: 0 <= w < |s.work| && !s.work[w].WorkIdle? ==> s.work[w].job != j
  {
    hide N, Play, Inv;
    RunKeeps(workers, actions);
    var s := Play(workers, actions).value;
    forall j ensures N(s.deleted, j) <= N(s.written, j) <= N(s.parsed, j) <= N(s.read, j) <= N(s.submitted, j) <= 1 {
      LogsNest(s, j);
    }
    CountDistinct(s.submitted);
    CountDistinct(s.read);
    CountDistinct(s.parsed);
    CountDistinct(s.written);
    CountDistinct(s.deleted);
    forall j ensures (j in s.deleted ==> j in s.written) && (j in s.written ==> j in s.parsed)
                     && (j in s.parsed ==> j in s.read) && (j in s.read ==> j in s.submitted)
    {
      NIn(s.deleted, j);
      NIn(s.written, j);
      NIn(s.parsed, j);
      NIn(s.read, j);
      NIn(s.submitted, j);
    }
    forall j | j in s.deleted
      ensures j !in s.ioQueue && j !in s.queue && (s.io.IoIdle? || s.io.job != j)
      ensures forall w :: 0 <= w < |s.work| && !s.work[w].WorkIdle? ==> s.work[w].job != j
    {
      DeletedIsGone(s, j);
    }
    DroppedNone(s);
  }

  lemma DroppedNone(s: State)
    requires Inv(s)
    ensures s.dropped == []
  {
  }

  /** When queues and hands are empty, everything submitted has been written and deleted. */
  lemma DrainedMeansDone(workers: nat, actions: seq<Action>, j: Job)
    requires Play(workers, actions).Some?
    requires var s := Play(workers, actions).value;
             s.ioQueue == [] && s.queue == [] && s.io.IoIdle? && forall w :: 0 <= w < |s.work| ==> s.work[w].WorkIdle?
    ensures var s := Play(workers, actions).value;
            j in s.submitted ==> j in s.deleted
  {
    RunKeeps(workers, actions);
    var s := Play(workers, actions).value;
    assert JobOk(s, j) && s.written == s.deleted;
    NobodyHolds(s.work, j);
    NIn(s.submitted, j);
    NIn(s.deleted, j);
  }
}
