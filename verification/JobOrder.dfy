/**
 The order in which the pipeline of JobPipeline.dfy handles jobs.  Reading always follows the
 submissions.  Parsing and writing do so exactly when there is at most one parse worker; with
 the two that Architecture.cpp starts they need not.
 */
module JobOrder {
  import opened Collections
  import opened JobPipeline

  /** The jobs of q in the given stage, in order. */
  function Pick(q: seq<Job>, stage: map<Job, Stage>, g: Stage): seq<Job> {
    if q == [] then []
    else Pick(q[..|q| - 1], stage, g) +
         (if q[|q| - 1] in stage && stage[q[|q| - 1]] == g then [q[|q| - 1]] else [])
  }

  function Unread(s: State): seq<Job> {
    if s.io.IoGot? && s.io.job in s.stage && s.stage[s.io.job] == InitStage then [s.io.job] else []
  }

  function Late(s: State): seq<Job> {
    if s.io.IoGot? && s.io.job in s.stage && s.stage[s.io.job] == ModelEnd then [s.io.job] else []
  }

  function Early(s: State): seq<Job> { if s.io.IoRead? || s.io.IoMarked? then [s.io.job] else Unread(s) }

  /** What the only parse worker holds, and what it has parsed. */
  function Held(s: State): seq<Job> { if |s.work| != 1 || s.work[0].WorkIdle? then [] else [s.work[0].job] }

  function HeldParsed(s: State): seq<Job> {
    if |s.work| == 1 && (s.work[0].WorkParsed? || s.work[0].WorkMarked?) then [s.work[0].job] else []
  }

  /** Jobs that are parsed and out of the parse worker's hands, oldest first. */
  function Modelled(s: State): seq<Job> { s.written + Late(s) + Pick(s.ioQueue, s.stage, ModelEnd) }

  /** Jobs that the I/O worker has handed on, oldest first. */
  function Inside(s: State): seq<Job> { Modelled(s) + (Held(s) + s.queue) }

  /** What was read, what the I/O worker is about to read and what waits to be read are the submissions. */
  ghost predicate ReadInOrder(s: State) {
    s.submitted == s.read + (Unread(s) + Pick(s.ioQueue, s.stage, InitStage))
  }

  /** With one parse worker, all jobs stand in line. */
  ghost predicate InLine(s: State) {
    && |s.work| <= 1
    && s.submitted == Inside(s) + (Early(s) + Pick(s.ioQueue, s.stage, InitStage))
    && s.parsed == Modelled(s) + HeldParsed(s)
  }

  // ---------- facts about Pick ----------

  lemma {:induction false} PickConcat(a: seq<Job>, b: seq<Job>, stage: map<Job, Stage>, g: Stage)
    ensures Pick(a + b, stage, g) == Pick(a, stage, g) + Pick(b, stage, g)
    decreases |b|
  {
    if b == [] {
      assert a + b == a;
    } else {
      PickConcat(a, b[..|b| - 1], stage, g);
      assert (a + b)[..|a + b| - 1] == a + b[..|b| - 1];
    }
  }

  lemma PickSnoc(q: seq<Job>, j: Job, stage: map<Job, Stage>, g: Stage)
    ensures Pick(q + [j], stage, g) == Pick(q, stage, g) + if j in stage && stage[j] == g then [j] else []
  {
    assert (q + [j])[..|q|] == q;
  }

  lemma PickCons(j: Job, q: seq<Job>, stage: map<Job, Stage>, g: Stage)
    ensures Pick([j] + q, stage, g) == (if j in stage && stage[j] == g then [j] else []) + Pick(q, stage, g)
  {
    PickConcat([j], q, stage, g);
    assert [j][..0] == [];
  }

  lemma {:induction false} PickFrame(q: seq<Job>, stage: map<Job, Stage>, stage': map<Job, Stage>, g: Stage)
    requires forall i :: 0 <= i < |q| ==> (q[i] in stage <==> q[i] in stage') && (q[i] in stage ==> stage[q[i]] == stage'[q[i]])
    ensures Pick(q, stage, g) == Pick(q, stage', g)
    decreases |q|
  {
    if q != [] { PickFrame(q[..|q| - 1], stage, stage', g); }
  }

  /** Changing the stage of a job outside the I/O queue leaves its picks alone. */
  lemma PicksKept(s: State, j: Job, g: Stage)
    requires N(s.ioQueue, j) == 0
    ensures forall h :: Pick(s.ioQueue, s.stage[j := g], h) == Pick(s.ioQueue, s.stage, h)
  {
    NIn(s.ioQueue, j);
    forall h ensures Pick(s.ioQueue, s.stage[j := g], h) == Pick(s.ioQueue, s.stage, h) {
      PickFrame(s.ioQueue, s.stage, s.stage[j := g], h);
    }
  }

  /** How a step changes the picks. */
  lemma PicksNext(s: State, a: Action)
    requires Inv(s) && Enabled(s, a)
    ensures var t := Next(s, a);
            forall g :: Pick(t.ioQueue, t.stage, g) ==
                        match a
                        case Submit(j) => Pick(s.ioQueue, s.stage, g) + (if g == InitStage then [j] else [])
                        case WorkPut(w) => Pick(s.ioQueue, s.stage, g) + (if g == ModelEnd then [s.work[w].job] else [])
                        case IoGet => Pick(s.ioQueue[1..], s.stage, g)
                        case _ => Pick(s.ioQueue, s.stage, g)
  {
    hide Pick;
    var t := Next(s, a);
    match a
    case Submit(j) =>
      Unsubmitted(s, j);
      PicksKept(s, j, InitStage);
      forall g { PickSnoc(s.ioQueue, j, t.stage, g); }
    case WorkPut(w) =>
      assert InStep(s, s.work[w]);
      forall g { PickSnoc(s.ioQueue, s.work[w].job, s.stage, g); }
    case WorkMark(w) =>
      WorkJobAlone(s, w);
      PicksKept(s, s.work[w].job, ModelEnd);
    case IoMark =>
      IoJobAlone(s);
      PicksKept(s, s.io.job, ReadEnd);
    case IoFinish =>
      IoJobAlone(s);
      PicksKept(s, s.io.job, WriteEnd);
    case _ =>
  }

  lemma Unsubmitted(s: State, j: Job)
    requires Inv(s) && j !in s.stage
    ensures N(s.ioQueue, j) == 0 && (s.io.IoIdle? || s.io.job != j)
  {
    assert JobOk(s, j);
  }

  // ---------- every step keeps the order ----------

  lemma ReadKeeps(s: State, a: Action)
    requires Inv(s) && Enabled(s, a) && ReadInOrder(s)
    ensures ReadInOrder(Next(s, a))
  {
    hide Pick, N, HeldN, ParsedN;
    var t := Next(s, a);
    PicksNext(s, a);
    match a
    case Submit(j) => Unsubmitted(s, j);
    case IoGet =>
      assert s.ioQueue == [s.ioQueue[0]] + t.ioQueue;
      PickCons(s.ioQueue[0], t.ioQueue, s.stage, InitStage);
    case IoDispatch =>
    case WorkMark(w) => WorkJobAlone(s, w);
    case _ =>
  }

  /** What a step does to the only parse worker's jobs, and to the line before and behind them. */
  lemma LineKeeps(s: State, a: Action)
    requires Inv(s) && Enabled(s, a) && InLine(s)
    ensures InLine(Next(s, a))
  {
    hide InLine;
    match a
    case Submit(_) => SubmitLines(s, a);
    case IoGet => IoGetLines(s);
    case WorkGet(_) => WorkTakesLines(s, a);
    case WorkDispatch(_) => WorkTakesLines(s, a);
    case WorkMark(_) => WorkGivesLines(s, a);
    case WorkPut(_) => WorkGivesLines(s, a);
    case IoPut => IoPutLines(s);
    case _ => IoLines(s, a);
  }

  lemma SubmitLines(s: State, a: Action)
    requires Inv(s) && Enabled(s, a) && InLine(s) && a.Submit?
    ensures InLine(Next(s, a))
  {
    hide Pick, N, HeldN, ParsedN;
    var t := Next(s, a);
    PicksNext(s, a);
    Unsubmitted(s, a.job);
    assert Modelled(t) == Modelled(s) && Early(t) == Early(s);
  }

  lemma IoGetLines(s: State)
    requires Inv(s) && Enabled(s, IoGet) && InLine(s)
    ensures InLine(Next(s, IoGet))
  {
    hide Pick, N, HeldN, ParsedN;
    var x, t := s.ioQueue[0], Next(s, IoGet);
    assert s.ioQueue == [x] + t.ioQueue;
    PickCons(x, t.ioQueue, s.stage, InitStage);
    PickCons(x, t.ioQueue, s.stage, ModelEnd);
    FirstInIo(s);
    assert Modelled(t) == Modelled(s);
    assert Early(t) + Pick(t.ioQueue, t.stage, InitStage) == Early(s) + Pick(s.ioQueue, s.stage, InitStage);
  }

  lemma FirstInIo(s: State)
    requires Inv(s) && s.ioQueue != []
    ensures InStage(s, s.ioQueue[0], InitStage) || InStage(s, s.ioQueue[0], ModelEnd)
  {
    assert JobOk(s, s.ioQueue[0]);
    NIn(s.ioQueue, s.ioQueue[0]);
  }

  lemma IoPutLines(s: State)
    requires Inv(s) && Enabled(s, IoPut) && InLine(s)
    ensures InLine(Next(s, IoPut))
  {
    hide Pick, N, HeldN, ParsedN;
    var t := Next(s, IoPut);
    PicksNext(s, IoPut);
    assert Inside(t) == Inside(s) + Early(s) && Early(t) == [] && Modelled(t) == Modelled(s);
  }

  lemma IoLines(s: State, a: Action)
    requires Inv(s) && Enabled(s, a) && InLine(s)
    requires a.IoDispatch? || a.IoMark? || a.IoFinish? || a.IoDelete?
    ensures InLine(Next(s, a))
  {
    hide Pick, N, HeldN, ParsedN;
    var t := Next(s, a);
    PicksNext(s, a);
    assert Modelled(t) == Modelled(s) && Inside(t) == Inside(s) && Early(t) == Early(s);
  }

  lemma WorkTakesLines(s: State, a: Action)
    requires Inv(s) && Enabled(s, a) && InLine(s) && (a.WorkGet? || a.WorkDispatch?)
    ensures InLine(Next(s, a))
  {
    hide Pick, N, HeldN, ParsedN;
    var t := Next(s, a);
    PicksNext(s, a);
    assert a.w == 0 && |s.work| == 1 && InStep(s, s.work[0]);
    assert Modelled(t) == Modelled(s);
    if a.WorkGet? { assert s.queue == [s.queue[0]] + t.queue; }
    assert Held(t) + t.queue == Held(s) + s.queue;
  }

  lemma WorkGivesLines(s: State, a: Action)
    requires Inv(s) && Enabled(s, a) && InLine(s) && (a.WorkMark? || a.WorkPut?)
    ensures InLine(Next(s, a))
  {
    hide Pick, N, HeldN, ParsedN;
    var t := Next(s, a);
    PicksNext(s, a);
    WorkJobAlone(s, a.w);
    assert a.w == 0 && |s.work| == 1;
    assert Early(t) == Early(s);
    if a.WorkMark? {
      assert Modelled(t) == Modelled(s);
    } else {
      assert Modelled(t) == Modelled(s) + Held(s) && Held(t) == [];
      assert Inside(t) == Inside(s);
    }
  }

  // ---------- whole runs ----------

  /** Over every interleaving, with any number of parse workers, jobs are read in submission order. */
  lemma {:induction false} ReadsFollowSubmissions(workers: nat, actions: seq<Action>)
    requires Play(workers, actions).Some?
    ensures ReadInOrder(Play(workers, actions).value)
    ensures Play(workers, actions).value.read <= Play(workers, actions).value.submitted
    decreases |actions|
  {
    if actions != [] {
      var before := actions[..|actions| - 1];
      ReadsFollowSubmissions(workers, before);
      RunKeeps(workers, before);
      ReadKeeps(Play(workers, before).value, actions[|actions| - 1]);
    }
  }

  lemma {:induction false} LineForms(workers: nat, actions: seq<Action>)
    requires Play(workers, actions).Some? && workers <= 1
    ensures InLine(Play(workers, actions).value)
    decreases |actions|
  {
    if actions != [] {
      var before := actions[..|actions| - 1];
      LineForms(workers, before);
      RunKeeps(workers, before);
      LineKeeps(Play(workers, before).value, actions[|actions| - 1]);
    }
  }

  ghost predicate Orderly(s: State) { s.deleted <= s.written <= s.parsed <= s.read <= s.submitted }

  /** With at most one parse worker every log is a prefix of the one before it. */
  lemma OneWorkerIsOrderly(workers: nat, actions: seq<Action>)
    requires Play(workers, actions).Some? && workers <= 1
    ensures Orderly(Play(workers, actions).value)
  {
    hide Play, Pick;
    var s := Play(workers, actions).value;
    RunKeeps(workers, actions);
    ReadsFollowSubmissions(workers, actions);
    LineForms(workers, actions);
    DeletedFirst(s);
    assert s.parsed <= Inside(s) <= s.submitted;
    assert |s.parsed| <= |s.read|;
  }

  lemma DeletedFirst(s: State)
    requires Inv(s)
    ensures s.deleted <= s.written
  {
  }

  /** Extends a run by one step. */
  lemma Go(workers: nat, actions: seq<Action>, s: State, a: Action) returns (actions': seq<Action>, t: State)
    requires Play(workers, actions) == Some(s) && Enabled(s, a)
    ensures t == Next(s, a) && actions' == actions + [a] && Play(workers, actions') == Some(t)
  {
    actions', t := actions + [a], Next(s, a);
    assert actions'[..|actions|] == actions;
  }

  /** Two jobs, read in order. */
  lemma TwoJobsRead(workers: nat) returns (acts: seq<Action>, s: State)
    ensures Play(workers, acts) == Some(s)
    ensures s == Start(workers).(stage := map[0 := ReadEnd, 1 := ReadEnd], queue := [0, 1], submitted := [0, 1], read := [0, 1])
  {
    acts, s := [], Start(workers);
    acts, s := Go(workers, acts, s, Submit(0));
    acts, s := Go(workers, acts, s, Submit(1));
    acts, s := Go(workers, acts, s, IoGet);
    acts, s := Go(workers, acts, s, IoDispatch);
    acts, s := Go(workers, acts, s, IoMark);
    acts, s := Go(workers, acts, s, IoPut);
    acts, s := Go(workers, acts, s, IoGet);
    acts, s := Go(workers, acts, s, IoDispatch);
    acts, s := Go(workers, acts, s, IoMark);
    acts, s := Go(workers, acts, s, IoPut);
  }

  /** With two parse workers the second job can overtake the first. */
  lemma Overtaking(workers: nat) returns (acts: seq<Action>, s: State)
    requires workers >= 2
    ensures Play(workers, acts) == Some(s) && s.submitted == [0, 1] && s.written == [1] && !Orderly(s)
  {
    acts, s := TwoJobsRead(workers);
    acts, s := Go(workers, acts, s, WorkGet(0));
    acts, s := Go(workers, acts, s, WorkGet(1));
    acts, s := Go(workers, acts, s, WorkDispatch(1));
    acts, s := Go(workers, acts, s, WorkMark(1));
    acts, s := Go(workers, acts, s, WorkPut(1));
    acts, s := Go(workers, acts, s, IoGet);
    acts, s := Go(workers, acts, s, IoDispatch);
  }

  /** Jobs are handled in submission order on every interleaving exactly when at most one worker parses. */
  lemma OrderlyIffOneWorker(workers: nat)
    ensures (forall actions :: Play(workers, actions).Some? ==> Orderly(Play(workers, actions).value)) <==> workers <= 1
  {
    if workers <= 1 {
      forall actions | Play(workers, actions).Some? ensures Orderly(Play(workers, actions).value) {
        OneWorkerIsOrderly(workers, actions);
      }
    } else {
      var acts, s := Overtaking(workers);
      assert !Orderly(Play(workers, acts).value);
    }
  }
}
