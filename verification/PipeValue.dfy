/**
 What the operations of a body pipe (BodyPipe.cc, BodyPipe.h) do to its bytes and to the
 notifications it schedules, said of a value, and what holds of it over every run.
 */
module PipeValue {
  import opened Collections

  const MAX_CAPACITY: nat := 64 * 1024

  /** A job that consumes, or one of the sinks that the pipe creates itself. */
  datatype Consumer = Client(id: nat) | Sink(serial: nat)

  /** Scheduled notifications; consumer ones carry the number of the attachment they are for. */
  datatype Note =
    | MoreData(att: nat)
    | ProductionEnded(att: nat)
    | ProducerAborted(att: nat)
    | MoreSpace
    | ConsumerAborted

  predicate IsEnd(n: Note) { n.ProductionEnded? || n.ProducerAborted? }

  predicate ForConsumer(n: Note) { n.MoreData? || IsEnd(n) }

  /** After an end notification an attachment hears nothing more: neither data nor another end. */
  ghost predicate EndsAreFinal(notes: seq<Note>) {
    forall i, j :: 0 <= i < j < |notes| && IsEnd(notes[i]) && ForConsumer(notes[j]) ==> notes[i].att != notes[j].att
  }

  ghost predicate AbortsOnce(notes: seq<Note>, aborted: bool) {
    && (aborted <==> ConsumerAborted in notes)
    && forall i, j :: 0 <= i < j < |notes| && notes[i] == ConsumerAborted ==> notes[j] != ConsumerAborted
  }

  ghost predicate Heard(notes: seq<Note>, att: nat) {
    exists i :: 0 <= i < |notes| && IsEnd(notes[i]) && notes[i].att == att
  }

  /** Every end notification tells the same story. */
  ghost predicate EndsAgree(notes: seq<Note>, complete: bool) {
    forall i :: 0 <= i < |notes| && IsEnd(notes[i]) ==> (notes[i].ProductionEnded? <==> complete)
  }

  lemma NoEnds(notes: seq<Note>, att: nat, complete: bool)
    requires forall i :: 0 <= i < |notes| ==> !IsEnd(notes[i])
    ensures EndsAgree(notes, complete) && !Heard(notes, att)
  {
  }

  lemma HeardSnoc(notes: seq<Note>, n: Note)
    ensures forall a: nat :: Heard(notes + [n], a) <==> Heard(notes, a) || (IsEnd(n) && n.att == a)
  {
    var m := notes + [n];
    forall a: nat ensures Heard(m, a) <==> Heard(notes, a) || (IsEnd(n) && n.att == a) {
      if Heard(notes, a) {
        var i :| 0 <= i < |notes| && IsEnd(notes[i]) && notes[i].att == a;
        assert IsEnd(m[i]) && m[i].att == a;
      }
      if IsEnd(n) && n.att == a { assert IsEnd(m[|notes|]) && m[|notes|].att == a; }
    }
  }

  lemma PushNote(notes: seq<Note>, n: Note, aborted: bool, complete: bool)
    requires EndsAreFinal(notes) && AbortsOnce(notes, aborted) && EndsAgree(notes, complete)
    requires ForConsumer(n) ==> !Heard(notes, n.att)
    requires n == ConsumerAborted ==> !aborted
    requires IsEnd(n) ==> (n.ProductionEnded? <==> complete)
    ensures EndsAreFinal(notes + [n]) && AbortsOnce(notes + [n], aborted || n == ConsumerAborted)
    ensures EndsAgree(notes + [n], complete)
    ensures forall a: nat :: Heard(notes + [n], a) <==> Heard(notes, a) || (IsEnd(n) && n.att == a)
  {
    var m := notes + [n];
    assert forall i :: 0 <= i < |notes| ==> m[i] == notes[i];
    assert m[|notes|] == n;
    assert ConsumerAborted in m <==> ConsumerAborted in notes || n == ConsumerAborted;
    HeardSnoc(notes, n);
  }

  /** Indices below n in ascending order. */
  ghost predicate Ascending(s: seq<nat>, n: nat) {
    && (forall i, j :: 0 <= i < j < |s| ==> s[i] < s[j])
    && forall i :: 0 <= i < |s| ==> s[i] < n
  }

  // ---------- the pipe as a value ----------

  /** How many attachments there were when production stopped, and whether the last one was live. */
  datatype Stop = Stop(atts: nat, live: bool)

  /** Everything that can be told of a pipe; each function below says what one of its operations does. */
  datatype View = View(
    bodySize: int,               // -1 while unknown
    producer: bool,
    consumer: bool,              // a consumer is registered; its job may be gone
    gone: set<Consumer>,         // the jobs that exist no more
    buf: string,
    auto: bool,                  // auto-consumption is enabled
    aborted: bool,
    lent: Option<string>,        // the buffer at check-out, while checked out
    notes: seq<Note>,            // everything scheduled so far
    consumers: seq<Consumer>,    // everyone ever attached, the latest last
    alive: seq<bool>,            // whether they existed when they were attached
    stop: Option<Stop>,          // how production stopped
    next: nat,                   // the notifications before this one have been made
    dialed: seq<nat>,            // those of them that reached their job
    produced: string,            // all bytes ever put
    consumed: string)            // all bytes ever taken
  {
    /** A consumer is registered, and its job exists; the code reads anything else as no consumer. */
    predicate Live() { consumer && consumers != [] && consumers[|consumers| - 1] !in gone }

    predicate SizeKnown() { bodySize >= 0 }
    predicate MayNeedMore() { !SizeKnown() || bodySize - |produced| > 0 }
    predicate Complete() { SizeKnown() && bodySize == |produced| }
    predicate Exhausted() { |produced| <= |consumed| && !(producer && MayNeedMore()) }

    function Space(): nat { if |buf| + 1 < MAX_CAPACITY then MAX_CAPACITY - (|buf| + 1) else 0 }

    /** How many of so many bytes can be put. */
    function PutSize(size: nat): int { Min(if SizeKnown() then Min(size, bodySize - |produced|) else size, Space()) }

    function DataTold(): View {
      if Live() then this.(notes := notes + [MoreData(|consumers|)]) else this
    }

    function EndTold(): View {
      if !Live() then this
      else this.(notes := notes + [if Complete() then ProductionEnded(|consumers|) else ProducerAborted(|consumers|)])
    }

    /** What a live consumer is told of data, and of the end of production. */
    function DataNote(): seq<Note> { if Live() then [MoreData(|consumers|)] else [] }

    function EndNote(): seq<Note> {
      if !Live() then []
      else if bodySize >= 0 && bodySize == |produced| then [ProductionEnded(|consumers|)]
      else [ProducerAborted(|consumers|)]
    }

    function SpaceTold(): View { if MayNeedMore() then this.(notes := notes + [MoreSpace]) else this }

    function Joined(c: Consumer): View {
      this.(consumer := true, consumers := consumers + [c], alive := alive + [c !in gone])
    }

    function SinkStarted(): View { Joined(Sink(|consumers|)).DataTold() }

    function Stopped(atEof: bool): View {
      if !producer then this
      else
        this.(producer := false, bodySize := if atEof && !SizeKnown() then |produced| else bodySize,
        stop := Some(Stop(|consumers|, Live()))).EndTold()
    }

    /** After size bytes were appended. */
    function Announced(size: nat): View {
      var v := (if auto && !Live() && size > 0 then SinkStarted() else this).DataTold();
      if v.MayNeedMore() then v else v.Stopped(true)
    }

    function Grown(data: string): View {
      if data == "" then this else this.(buf := buf + data, produced := produced + data).Announced(|data|)
    }

    function Taken(n: nat): View
      requires n <= |buf|
    {
      this.(consumed := consumed + buf[..n], buf := buf[n..]).SpaceTold()
    }

    function Attached(who: nat): View {
      if consumed != "" || aborted then this
      else
        var v := Joined(Client(who));
        var w := if buf != "" then v.DataTold() else v;
        if producer then w else w.EndTold()
    }

    function Aborted(): View {
      if aborted || Exhausted() || Live() then this
      else
        var v := this.(notes := notes + [ConsumerAborted], aborted := true);
        if auto then v.SinkStarted() else v
    }

    function Detached(): View {
      if !consumer then this
      else if consumed == "" then this.(consumer := false)
      else this.(consumer := false).Aborted()
    }

    function AutoEnabled(): View {
      var v := this.(auto := true);
      if !Live() && buf != "" then v.SinkStarted() else v
    }

    /** What the holder of the buffer may have done to it: take from the front, or append. */
    ghost predicate Returnable() {
      && lent.Some? && |buf| < MAX_CAPACITY
      && (|buf| <= |lent.value| ==> buf == lent.value[|lent.value| - |buf|..])
      && (|buf| > |lent.value| ==>
            && lent.value <= buf && producer
            && (SizeKnown() ==> |buf| - |lent.value| <= bodySize - |produced|))
    }

    /** A shrunk buffer was consumed from the front, a grown one was put at the end. */
    function Returned(): View
      requires lent.Some?
    {
      var was, v := lent.value, this.(lent := None);
      if |buf| < |was| then v.(consumed := consumed + was[..|was| - |buf|]).SpaceTold()
      else if |buf| > |was| then v.(produced := produced + buf[|was|..]).Announced(|buf| - |was|)
      else v
    }

    /** The dialers' test: the job that n is for exists, and still produces for or consumes from this pipe. */
    predicate CanDial(n: Note) {
      if ForConsumer(n) then
        Live() && 1 <= n.att <= |consumers| && consumers[n.att - 1] == consumers[|consumers| - 1]
      else producer
    }

    function Made(busy: bool): View
      requires next < |notes|
    {
      this.(next := next + 1, dialed := if !busy && CanDial(notes[next]) then dialed + [next] else dialed)
    }

    /** The next notification will reach a sink. */
    predicate ReachesSink(busy: bool)
      requires next < |notes|
    {
      !busy && ForConsumer(notes[next]) && CanDial(notes[next]) && consumers[|consumers| - 1].Sink?
    }

    /** A sink that is reached drops what is buffered, or stops at the end. */
    function Dialed(busy: bool): View
      requires next < |notes|
    {
      if !ReachesSink(busy) then Made(busy)
      else if notes[next].MoreData? then Made(busy).Taken(|buf|)
      else Made(busy).Detached()
    }

    // ---------- what always holds ----------

    /** Bytes taken, then bytes buffered, are the bytes put; sizes and capacity are respected. */
    ghost predicate Conserving() {
      && consumed + (if lent.Some? then lent.value else buf) == produced
      && (SizeKnown() ==> |produced| <= bodySize)
      && |buf| < MAX_CAPACITY
    }

    /** Notifications go to known consumers, every sink is a new one, and calls are made in order. */
    ghost predicate Addressed() {
      && (forall i :: 0 <= i < |notes| && ForConsumer(notes[i]) ==> 1 <= notes[i].att <= |consumers|)
      && (consumer ==> |consumers| > 0)
      && (forall k :: 0 <= k < |consumers| && consumers[k].Sink? ==> consumers[k].serial == k)
      && (forall c :: c in gone && c.Sink? ==> c.serial < |consumers|)
      && |alive| == |consumers|
      && next <= |notes| && Ascending(dialed, next)
    }

    ghost predicate Told() {
      && EndsAreFinal(notes)
      && AbortsOnce(notes, aborted)
      && (producer ==> NoEndIn(notes))
      && EndsAgree(notes, Complete())
      && Addressed()
    }

    ghost predicate Inv() { Conserving() && Told() }

    /** Attachment a should hear of the end: it was live when production stopped, or is a job's and was live when made later. */
    predicate Due(a: nat)
      requires stop.Some? && 1 <= a <= |consumers| == |alive|
    {
      if a <= stop.value.atts then a == stop.value.atts && stop.value.live
      else consumers[a - 1].Client? && alive[a - 1]
    }

    /** Production stops once, and an end is scheduled for exactly the attachments that should hear of it. */
    ghost predicate Punctual() {
      && |alive| == |consumers| && (producer <==> stop.None?)
      && (stop.Some? ==>
            && stop.value.atts <= |consumers|
            && forall a: nat :: 1 <= a <= |consumers| ==> (Heard(notes, a) <==> Due(a)))
    }

    /** The consumer, if any, has not been told of the end. */
    ghost predicate Unended() { consumer ==> !Heard(notes, |consumers|) }
  }

  const FRESH := View(-1, true, false, {}, "", false, false, None, [], [], [], None, 0, [], "", "")

  ghost predicate NoEndIn(notes: seq<Note>) { forall i :: 0 <= i < |notes| ==> !IsEnd(notes[i]) }

  // ---------- what each operation schedules, and for whom ----------

  /**
   From v to w size bytes more were put: production has ended if the body is complete; a sink was
   attached if nobody else consumes them; and the consumer was told of the data, and of the end.
   */
  ghost predicate HasAppended(v: View, w: View, size: nat) {
    && w.bodySize == v.bodySize
    && (w.producer <==> v.producer && !(w.bodySize >= 0 && w.bodySize <= |w.produced|))
    && var due := v.auto && !v.Live() && size > 0;
       && w.consumers == v.consumers + (if due then [Sink(|v.consumers|)] else []) && (w.consumer <==> v.consumer || due)
       && w.notes == v.notes + (if due then w.DataNote() else []) + w.DataNote() +
                     (if v.producer && !w.producer then w.EndNote() else [])
  }

  lemma DataToldMeans(v: View)
    ensures v.DataTold() == v.(notes := v.notes + v.DataNote()) && v.DataTold().DataNote() == v.DataNote()
  {
    assert v.notes + [] == v.notes;
  }

  lemma SinkStartedMeans(v: View)
    ensures var w := v.SinkStarted();
            && w.consumer && w.consumers == v.consumers + [Sink(|v.consumers|)] && w.notes == v.notes + w.DataNote()
            && w == v.(consumer := w.consumer, consumers := w.consumers, alive := w.alive, notes := w.notes)
  {
    var w := v.SinkStarted();
    assert v.notes + [] == v.notes;
  }

  lemma StoppedMeans(v: View, atEof: bool)
    ensures var w := v.Stopped(atEof);
            && !w.producer && w.bodySize == (if v.producer && atEof && v.bodySize < 0 then |v.produced| else v.bodySize)
            && w.notes == v.notes + (if v.producer then w.EndNote() else []) && w.DataNote() == v.DataNote()
            && w == v.(producer := w.producer, bodySize := w.bodySize, stop := w.stop, notes := w.notes)
  {
    assert v.notes + [] == v.notes;
  }

  lemma AnnouncedMeans(v: View, size: nat)
    ensures HasAppended(v, v.Announced(size), size)
  {
    hide View.DataTold, View.SinkStarted, View.Stopped, View.Live, View.EndNote, View.DataNote;
    var due := v.auto && !v.Live() && size > 0;
    var u := if due then v.SinkStarted() else v;
    SinkStartedMeans(v);
    DataToldMeans(u);
    var t := u.DataTold();
    StoppedMeans(t, true);
    assert v.consumers + [] == v.consumers && v.notes + [] == v.notes && t.notes + [] == t.notes;
  }

  /** A grown buffer counts as so many bytes put; a shrunk one makes space; else nothing is told. */
  lemma ReturnedMeans(v: View)
    requires v.lent.Some?
    ensures var was, w := v.lent.value, v.Returned();
            && (|v.buf| > |was| ==> HasAppended(v, w, |v.buf| - |was|))
            && (|v.buf| <= |was| ==>
                  && w.consumer == v.consumer && w.consumers == v.consumers && w.producer == v.producer && w.bodySize == v.bodySize
                  && w.notes == v.notes + if |v.buf| < |was| && (v.bodySize < 0 || v.bodySize > |v.produced|) then [MoreSpace] else [])
  {
    hide View.Announced, View.Live;
    var was := v.lent.value;
    assert v.notes + [] == v.notes;
    if |v.buf| > |was| {
      var u := v.(lent := None, produced := v.produced + v.buf[|was|..]);
      AnnouncedMeans(u, |v.buf| - |was|);
      AppendedFrom(v, u, v.Returned(), |v.buf| - |was|);
    }
  }

  /** It does not matter to what bytes mean when they are counted. */
  lemma AppendedFrom(v: View, u: View, w: View, size: nat)
    requires HasAppended(u, w, size) && u == v.(lent := u.lent, produced := u.produced, buf := u.buf)
    ensures HasAppended(v, w, size)
  {
    assert v.Live() == u.Live();
  }

  lemma GrownMeans(v: View, data: string)
    ensures if data != "" then HasAppended(v, v.Grown(data), |data|) && v.Grown(data).produced == v.produced + data
            else v.Grown(data) == v
  {
    hide View.Announced, View.Live;
    if data != "" {
      var u := v.(buf := v.buf + data, produced := v.produced + data);
      AnnouncedMeans(u, |data|);
      AnnouncedBytes(u, |data|);
      AppendedFrom(v, u, v.Grown(data), |data|);
    }
  }

  lemma AttachedMeans(v: View, who: nat)
    ensures var w := v.Attached(who);
            if v.consumed != "" || v.aborted then w == v
            else
              && w.consumer && w.consumers == v.consumers + [Client(who)]
              && w.notes == v.notes + (if v.buf != "" then w.DataNote() else []) + (if !v.producer then w.EndNote() else [])
  {
    hide View.Live;
    if v.consumed == "" && !v.aborted {
      var u := v.Joined(Client(who));
      DataToldMeans(u);
      EndToldMeans(if v.buf != "" then u.DataTold() else u);
      assert v.notes + [] == v.notes && v.Attached(who).notes + [] == v.Attached(who).notes;
      assert u.Live() == v.Attached(who).Live() by { SameLive(u, v.Attached(who)); }
    }
  }

  lemma SameLive(v: View, w: View)
    requires w.consumer == v.consumer && w.consumers == v.consumers && w.gone == v.gone
    ensures w.Live() == v.Live()
  {
  }

  lemma EndToldMeans(v: View)
    ensures v.EndTold() == v.(notes := v.notes + v.EndNote()) && v.EndTold().EndNote() == v.EndNote()
  {
    assert v.notes + [] == v.notes;
  }

  /** Production ends with the last byte of a known size, and who consumes is told so last. */
  lemma AppendedEnds(v: View, w: View, size: nat)
    requires HasAppended(v, w, size) && (w.bodySize >= 0 ==> |w.produced| <= w.bodySize)
    ensures w.producer <==> v.producer && !(w.bodySize >= 0 && w.bodySize == |w.produced|)
    ensures v.producer && !w.producer && w.Live() ==> w.notes != [] && w.notes[|w.notes| - 1] == ProductionEnded(|w.consumers|)
  {
  }

  // ---------- every operation keeps it ----------

  lemma Told1(v: View, n: Note)
    requires v.Told() && (ForConsumer(n) ==> 1 <= n.att <= |v.consumers| && !Heard(v.notes, n.att))
    requires n == ConsumerAborted ==> !v.aborted
    requires IsEnd(n) ==> !v.producer && (n.ProductionEnded? <==> v.Complete())
    ensures v.(notes := v.notes + [n], aborted := v.aborted || n == ConsumerAborted).Told()
    ensures !IsEnd(n) && v.Unended() ==> v.(notes := v.notes + [n], aborted := v.aborted || n == ConsumerAborted).Unended()
  {
    hide EndsAreFinal, AbortsOnce, EndsAgree, Heard;
    PushNote(v.notes, n, v.aborted, v.Complete());
  }

  lemma DataToldKeeps(v: View)
    requires v.Told() && v.Unended()
    ensures v.DataTold().Told() && v.DataTold().Unended()
  {
    hide Heard;
    if v.Live() { Told1(v, MoreData(|v.consumers|)); }
  }

  lemma EndToldKeeps(v: View)
    requires v.Told() && v.Unended() && !v.producer
    ensures v.EndTold().Told()
  {
    hide Heard;
    if v.Live() {
      Told1(v, if v.Complete() then ProductionEnded(|v.consumers|) else ProducerAborted(|v.consumers|));
    }
  }

  lemma SpaceToldKeeps(v: View)
    requires v.Told()
    ensures v.SpaceTold().Told()
  {
    hide Heard;
    if v.MayNeedMore() { Told1(v, MoreSpace); }
  }

  lemma JoinedKeeps(v: View, c: Consumer)
    requires v.Told() && (c.Sink? ==> c.serial == |v.consumers|)
    ensures v.Joined(c).Told() && v.Joined(c).Unended()
  {
    hide EndsAreFinal, AbortsOnce, EndsAgree;
  }

  lemma SinkStartedKeeps(v: View)
    requires v.Told()
    ensures v.SinkStarted().Told() && v.SinkStarted().Unended()
  {
    hide View.Told, View.Unended;
    JoinedKeeps(v, Sink(|v.consumers|));
    DataToldKeeps(v.Joined(Sink(|v.consumers|)));
  }

  /** While the producer is there nobody was told of the end, so the body size may still be settled. */
  lemma NoEndsYet(v: View, w: View)
    requires v.Told() && v.producer && w == v.(bodySize := w.bodySize, producer := w.producer, stop := w.stop)
    ensures w.Told() && v.Unended() && w.Unended()
  {
    NoEnds(v.notes, |v.consumers|, w.Complete());
  }

  lemma StoppedKeeps(v: View, atEof: bool)
    requires v.Told()
    ensures v.Stopped(atEof).Told()
  {
    hide View.Told, View.Unended;
    if v.producer {
      var size := if atEof && !v.SizeKnown() then |v.produced| else v.bodySize;
      var w := v.(bodySize := size, producer := false, stop := Some(Stop(|v.consumers|, v.Live())));
      NoEndsYet(v, w);
      EndToldKeeps(w);
    }
  }

  predicate SameBytes(v: View, w: View) {
    w.buf == v.buf && w.lent == v.lent && w.produced == v.produced && w.consumed == v.consumed && w.bodySize == v.bodySize
  }

  lemma DataToldBytes(v: View)
    ensures SameBytes(v, v.DataTold()) && SameBytes(v, v.SinkStarted())
  {
  }

  lemma StoppedBytes(v: View)
    requires v.SizeKnown()
    ensures SameBytes(v, v.Stopped(true))
  {
  }

  /** Announcing moves no bytes and settles no size. */
  lemma AnnouncedBytes(v: View, size: nat)
    ensures SameBytes(v, v.Announced(size))
  {
    hide View.DataTold, View.SinkStarted, View.Stopped, View.Live;
    var w := if v.auto && !v.Live() && size > 0 then v.SinkStarted() else v;
    DataToldBytes(v);
    DataToldBytes(w);
    if !w.DataTold().MayNeedMore() { StoppedBytes(w.DataTold()); }
  }

  lemma AnnouncedKeeps(v: View, size: nat)
    requires v.Told() && v.producer
    ensures v.Announced(size).Told()
  {
    hide View.Told, View.Unended;
    NoEndsYet(v, v);
    if v.auto && !v.Live() && size > 0 { SinkStartedKeeps(v); }
    var w := if v.auto && !v.Live() && size > 0 then v.SinkStarted() else v;
    DataToldKeeps(w);
    StoppedKeeps(w.DataTold(), true);
  }

  /** More bytes do not matter to what was told while the producer is there. */
  lemma MoreBytes(v: View, w: View)
    requires v.Told() && v.producer
    requires w == v.(buf := w.buf, produced := w.produced, lent := w.lent)
    ensures w.Told()
  {
    NoEnds(v.notes, 0, w.Complete());
  }

  /** What is buffered, lent or taken does not matter to what was told. */
  lemma OtherBytes(v: View, w: View)
    requires v.Told() && w == v.(buf := w.buf, lent := w.lent, consumed := w.consumed)
    ensures w.Told()
  {
    hide EndsAreFinal, AbortsOnce, EndsAgree;
  }

  lemma GrownKeeps(v: View, data: string)
    requires v.Inv() && v.producer && v.lent.None? && |v.buf| + |data| < MAX_CAPACITY
    requires v.SizeKnown() ==> |v.produced| + |data| <= v.bodySize
    ensures v.Grown(data).Inv()
  {
    hide View.Told, View.Announced;
    if data != "" {
      var w := v.(buf := v.buf + data, produced := v.produced + data);
      AnnouncedBytes(w, |data|);
      assert v.consumed + (v.buf + data) == v.produced + data;
      MoreBytes(v, w);
      AnnouncedKeeps(w, |data|);
    }
  }

  lemma SizeFits(v: View)
    requires v.Inv()
    ensures (v.SizeKnown() ==> |v.produced| <= v.bodySize) && |v.buf| < MAX_CAPACITY
  {
    hide View.Told;
  }

  lemma GrownEnds(v: View, data: string)
    requires v.Inv() && v.producer && v.lent.None? && |v.buf| + |data| < MAX_CAPACITY && data != ""
    requires v.SizeKnown() ==> |v.produced| + |data| <= v.bodySize
    ensures var w := v.Grown(data);
            && w.Inv() && HasAppended(v, w, |data|) && w.bodySize == v.bodySize
            && (w.producer <==> !(w.bodySize >= 0 && w.bodySize == |w.produced|))
            && (!w.producer && w.Live() ==> w.notes != [] && w.notes[|w.notes| - 1] == ProductionEnded(|w.consumers|))
  {
    hide View.Told, View.Announced, HasAppended, View.Live;
    GrownKeeps(v, data);
    GrownMeans(v, data);
    AppendedEnds(v, v.Grown(data), |data|);
    AnnouncedBytes(v.(buf := v.buf + data, produced := v.produced + data), |data|);
  }

  lemma TakenKeeps(v: View, n: nat)
    requires v.Inv() && v.lent.None? && n <= |v.buf|
    ensures v.Taken(n).Inv()
  {
    hide View.Told;
    var w := v.(consumed := v.consumed + v.buf[..n], buf := v.buf[n..]);
    Regroup(v.consumed, v.buf[..n], v.buf[n..]);
    assert v.buf[..n] + v.buf[n..] == v.buf;
    OtherBytes(v, w);
    SpaceToldKeeps(w);
  }

  lemma AttachedKeeps(v: View, who: nat)
    requires v.Inv() && !v.Live()
    ensures v.Attached(who).Inv()
  {
    hide View.Told, View.Unended;
    if v.consumed == "" && !v.aborted {
      var w := v.Joined(Client(who));
      JoinedKeeps(v, Client(who));
      DataToldKeeps(w);
      if !v.producer { EndToldKeeps(if v.buf != "" then w.DataTold() else w); }
    }
  }

  lemma AbortedKeeps(v: View)
    requires v.Inv()
    ensures v.Aborted().Inv()
  {
    hide Heard;
    if !v.aborted && !v.Exhausted() && !v.Live() {
      Told1(v, ConsumerAborted);
      SinkStartedKeeps(v.(notes := v.notes + [ConsumerAborted], aborted := true));
    }
  }

  lemma DetachedKeeps(v: View)
    requires v.Inv()
    ensures v.Detached().Inv()
  {
    hide EndsAreFinal, AbortsOnce, EndsAgree, Heard;
    assert v.(consumer := false).Inv();
    AbortedKeeps(v.(consumer := false));
  }

  lemma AutoEnabledKeeps(v: View)
    requires v.Inv()
    ensures v.AutoEnabled().Inv()
  {
    hide EndsAreFinal, AbortsOnce, EndsAgree, Heard;
    assert v.(auto := true).Inv();
    SinkStartedKeeps(v.(auto := true));
  }

  lemma ReturnedGrown(v: View)
    requires v.Inv() && v.Returnable() && |v.buf| > |v.lent.value|
    ensures v.Returned().Inv()
  {
    hide View.Told, View.Announced, Min;
    var was := v.lent.value;
    var w := v.(lent := None, produced := v.produced + v.buf[|was|..]);
    assert v.buf == was + v.buf[|was|..];
    Regroup(v.consumed, was, v.buf[|was|..]);
    AnnouncedBytes(w, |v.buf| - |was|);
    MoreBytes(v, w);
    AnnouncedKeeps(w, |v.buf| - |was|);
  }

  lemma ReturnedShrunk(v: View)
    requires v.Inv() && v.Returnable() && |v.buf| <= |v.lent.value|
    ensures v.Returned().Inv()
  {
    hide View.Told, View.Announced;
    var was := v.lent.value;
    var k := |was| - |v.buf|;
    Regroup(v.consumed, was[..k], was[k..]);
    assert was[..k] + was[k..] == was;
    var w := v.(lent := None, consumed := v.consumed + was[..k]);
    OtherBytes(v, w);
    SpaceToldKeeps(w);
    if k == 0 {
      assert was[..0] == "" && v.consumed + "" == v.consumed;
    }
  }

  lemma ReturnedCases(v: View)
    requires v.lent.Some?
    ensures var was, w := v.lent.value, v.(lent := None);
            && (|v.buf| < |was| ==> v.Returned() == w.(consumed := v.consumed + was[..|was| - |v.buf|]).SpaceTold())
            && (|v.buf| > |was| ==> v.Returned() == w.(produced := v.produced + v.buf[|was|..]).Announced(|v.buf| - |was|))
            && (|v.buf| == |was| ==> v.Returned() == w)
  {
  }

  lemma ReturnedBytes(v: View)
    requires v.lent.Some?
    ensures var was, w := v.lent.value, v.Returned();
            && (|v.buf| <= |was| ==> w.produced == v.produced && w.consumed == v.consumed + was[..|was| - |v.buf|])
            && (|v.buf| > |was| ==> w.consumed == v.consumed && w.produced == v.produced + v.buf[|was|..])
            && w.lent == None && w.buf == v.buf
  {
    hide View.Announced;
    var was := v.lent.value;
    if |v.buf| == |was| { assert was[..0] == "" && v.consumed + "" == v.consumed; }
    if |v.buf| > |was| { AnnouncedBytes(v.(lent := None, produced := v.produced + v.buf[|was|..]), |v.buf| - |was|); }
  }

  lemma ReturnedKeeps(v: View)
    requires v.Inv() && v.Returnable()
    ensures v.Returned().Inv()
  {
    hide View.Inv, View.Returned;
    if |v.buf| > |v.lent.value| { ReturnedGrown(v); } else { ReturnedShrunk(v); }
  }

  /** A notification for a consumer names one that was attached. */
  lemma NextIsKnown(v: View)
    requires v.Inv() && v.next < |v.notes|
    ensures ForConsumer(v.notes[v.next]) ==> 1 <= v.notes[v.next].att <= |v.consumers|
  {
    hide EndsAreFinal, AbortsOnce, EndsAgree;
  }

  lemma MadeKeeps(v: View, busy: bool)
    requires v.Inv() && v.next < |v.notes|
    ensures v.Made(busy).Inv()
  {
    hide EndsAreFinal, AbortsOnce, EndsAgree;
  }

  lemma DialedKeeps(v: View, busy: bool)
    requires v.Inv() && v.next < |v.notes|
    requires v.lent.Some? ==> !(v.ReachesSink(busy) && v.notes[v.next].MoreData?)
    ensures v.Dialed(busy).Inv()
  {
    hide View.Told;
    MadeKeeps(v, busy);
    if v.ReachesSink(busy) {
      if v.notes[v.next].MoreData? { TakenKeeps(v.Made(busy), |v.buf|); } else { DetachedKeeps(v.Made(busy)); }
    }
  }

  // ---------- whole runs ----------

  /** What producers, consumers, borrowers of the buffer and the call queue may do with a pipe. */
  datatype Op =
    | Put(data: string) | SetSize(size: nat) | ExpectEnd(extra: nat) | StopProducing(atEof: bool)
    | Attach(who: nat) | Get(room: nat) | Consume(n: nat) | Detach | NoConsumption | AutoConsume | Die(job: Consumer)
    | Lend | Edit(buf: string) | Return
    | Dial(busy: bool)

  /** The calls that the source allows; its assertions on the check-out bar taking and appending meanwhile. */
  ghost predicate Allowed(v: View, op: Op) {
    match op
    case Put(data) => v.producer && (v.lent.Some? ==> v.PutSize(|data|) <= 0)
    case SetSize(size) => v.producer && !v.Live() && !v.SizeKnown() && |v.produced| <= size
    case ExpectEnd(_) => v.producer
    case StopProducing(atEof) => v.producer && !atEof ==> !v.Complete()
    case Attach(_) => !v.Live() && (v.consumed != "" ==> v.auto)
    case Get(_) => v.lent.Some? ==> v.buf == ""
    case Consume(n) => v.lent.None? && n <= |v.buf|
    case Die(job) => job.Sink? ==> job.serial < |v.consumers|
    case Lend => v.lent.None?
    case Edit(buf) => v.lent.Some? && |buf| < MAX_CAPACITY
    case Return => v.Returnable()
    case Dial(busy) => v.next < |v.notes| && (v.lent.Some? ==> !(v.ReachesSink(busy) && v.notes[v.next].MoreData?))
    case _ => true
  }

  ghost function Apply(v: View, op: Op): View
    requires v.Inv() && Allowed(v, op)
  {
    match op
    case Put(data) => v.Grown(data[..v.PutSize(|data|)])
    case SetSize(size) => v.(bodySize := size)
    case ExpectEnd(extra) => if v.SizeKnown() then v else v.(bodySize := |v.produced| + extra)
    case StopProducing(atEof) => v.Stopped(atEof)
    case Attach(who) => v.Attached(who)
    case Get(room) => if v.buf == "" then v else v.Taken(Min(|v.buf|, room))
    case Consume(n) => v.Taken(n)
    case Detach => v.Detached()
    case NoConsumption => v.Aborted()
    case AutoConsume => v.AutoEnabled()
    case Die(job) => v.(gone := v.gone + {job})
    case Lend => v.(lent := Some(v.buf))
    case Edit(buf) => v.(buf := buf)
    case Return => v.Returned()
    case Dial(busy) => v.Dialed(busy)
  }

  /** The operations that settle the size or change nothing but a flag. */
  lemma FlagsKeep(v: View, op: Op)
    requires v.Inv() && Allowed(v, op)
    requires op.SetSize? || op.ExpectEnd? || op.Die? || op.Lend? || op.Edit?
    ensures Apply(v, op).Inv()
  {
    hide EndsAreFinal, AbortsOnce, EndsAgree, Heard;
    if op.SetSize? || op.ExpectEnd? { NoEndsYet(v, Apply(v, op)); }
  }

  /** A stop settles the size at what was put, or leaves it. */
  lemma StopKeeps(v: View, atEof: bool)
    requires v.Inv()
    ensures v.Stopped(atEof).Inv()
  {
    hide View.Told;
    StoppedKeeps(v, atEof);
  }

  lemma ApplyKeeps(v: View, op: Op)
    requires v.Inv() && Allowed(v, op)
    ensures Apply(v, op).Inv()
  {
    hide View.Told;
    match op
    case Put(data) => if v.PutSize(|data|) > 0 { GrownKeeps(v, data[..v.PutSize(|data|)]); }
    case StopProducing(atEof) => StopKeeps(v, atEof);
    case Attach(who) => AttachedKeeps(v, who);
    case Get(room) => if v.buf != "" { TakenKeeps(v, Min(|v.buf|, room)); }
    case Consume(n) => TakenKeeps(v, n);
    case Detach => DetachedKeeps(v);
    case NoConsumption => AbortedKeeps(v);
    case AutoConsume => AutoEnabledKeeps(v);
    case Return => ReturnedKeeps(v);
    case Dial(busy) => DialedKeeps(v, busy);
    case _ => FlagsKeep(v, op);
  }

  // ---------- who hears of the end ----------

  /** Notifications other than ends change nothing about that. */
  lemma OtherNote(v: View, w: View, n: Note)
    requires v.Punctual() && !IsEnd(n) && w.notes == v.notes + [n]
    requires w.consumers == v.consumers && w.alive == v.alive && w.stop == v.stop && w.producer == v.producer
    ensures w.Punctual()
  {
    hide Heard;
    HeardSnoc(v.notes, n);
  }

  lemma DataToldOnTime(v: View)
    requires v.Punctual()
    ensures v.DataTold().Punctual()
  {
    hide View.Punctual;
    if v.Live() { OtherNote(v, v.DataTold(), MoreData(|v.consumers|)); }
  }

  lemma SpaceToldOnTime(v: View)
    requires v.Punctual()
    ensures v.SpaceTold().Punctual()
  {
    hide View.Punctual;
    if v.MayNeedMore() { OtherNote(v, v.SpaceTold(), MoreSpace); }
  }

  lemma SinkStartedOnTime(v: View)
    requires v.Told() && v.Punctual()
    ensures v.SinkStarted().Punctual()
  {
    hide EndsAreFinal, AbortsOnce, EndsAgree;
    var w := v.Joined(Sink(|v.consumers|));
    assert w.Punctual();
    DataToldOnTime(w);
  }

  lemma StoppedOnTime(v: View, atEof: bool)
    requires v.Told() && v.Punctual()
    ensures v.Stopped(atEof).Punctual()
  {
    hide EndsAreFinal, AbortsOnce, EndsAgree;
    if v.producer {
      var w := v.Stopped(atEof);
      forall a: nat ensures !Heard(v.notes, a) { }
      if v.Live() { HeardSnoc(v.notes, w.notes[|v.notes|]); }
    }
  }

  lemma AnnouncedOnTime(v: View, size: nat)
    requires v.Told() && v.producer && v.Punctual()
    ensures v.Announced(size).Punctual()
  {
    hide View.Told, View.Unended, View.Punctual;
    NoEndsYet(v, v);
    var sink := v.auto && !v.Live() && size > 0;
    if sink {
      SinkStartedKeeps(v);
      SinkStartedOnTime(v);
    }
    var w := if sink then v.SinkStarted() else v;
    DataToldKeeps(w);
    DataToldOnTime(w);
    StoppedOnTime(w.DataTold(), true);
  }

  lemma AttachedOnTime(v: View, who: nat)
    requires v.Told() && v.Punctual()
    ensures v.Attached(who).Punctual()
  {
    hide EndsAreFinal, AbortsOnce, EndsAgree;
    if v.consumed == "" && !v.aborted {
      var c := v.Joined(Client(who));
      var w := if v.buf != "" then c.DataTold() else c;
      assert !Heard(v.notes, |v.consumers| + 1);
      if v.buf != "" && c.Live() { HeardSnoc(c.notes, MoreData(|c.consumers|)); }
      if !v.producer && w.Live() { HeardSnoc(w.notes, w.EndTold().notes[|w.notes|]); }
    }
  }

  lemma AbortedOnTime(v: View)
    requires v.Inv() && v.Punctual()
    ensures v.Aborted().Punctual()
  {
    hide View.Punctual, Heard;
    if !v.aborted && !v.Exhausted() && !v.Live() {
      var w := v.(notes := v.notes + [ConsumerAborted], aborted := true);
      OtherNote(v, w, ConsumerAborted);
      Told1(v, ConsumerAborted);
      SinkStartedOnTime(w);
    }
  }

  lemma DetachedOnTime(v: View)
    requires v.Inv() && v.Punctual()
    ensures v.Detached().Punctual()
  {
    hide EndsAreFinal, AbortsOnce, EndsAgree, Heard;
    var w := v.(consumer := false);
    assert w.Inv() && w.Punctual();
    AbortedOnTime(w);
  }

  lemma BytesOnTime(v: View, w: View)
    requires v.Punctual() && w == v.(buf := w.buf, produced := w.produced, consumed := w.consumed, lent := w.lent)
    ensures w.Punctual()
  {
    hide Heard;
  }

  lemma PutOnTime(v: View, data: string)
    requires v.Told() && v.producer && v.Punctual()
    ensures v.Grown(data).Punctual()
  {
    hide View.Told, View.Punctual;
    if data != "" {
      var w := v.(buf := v.buf + data, produced := v.produced + data);
      MoreBytes(v, w);
      BytesOnTime(v, w);
      AnnouncedOnTime(w, |data|);
    }
  }

  lemma TakenOnTime(v: View, n: nat)
    requires v.Punctual() && n <= |v.buf|
    ensures v.Taken(n).Punctual()
  {
    hide View.Punctual;
    var w := v.(consumed := v.consumed + v.buf[..n], buf := v.buf[n..]);
    BytesOnTime(v, w);
    SpaceToldOnTime(w);
  }

  lemma ReturnedOnTime(v: View)
    requires v.Inv() && v.Returnable() && v.Punctual()
    ensures v.Returned().Punctual()
  {
    hide View.Told, View.Punctual;
    var was := v.lent.value;
    if |v.buf| < |was| {
      var w := v.(lent := None, consumed := v.consumed + was[..|was| - |v.buf|]);
      BytesOnTime(v, w);
      SpaceToldOnTime(w);
    } else if |v.buf| > |was| {
      var w := v.(lent := None, produced := v.produced + v.buf[|was|..]);
      MoreBytes(v, w);
      BytesOnTime(v, w);
      AnnouncedOnTime(w, |v.buf| - |was|);
    } else {
      BytesOnTime(v, v.(lent := None));
    }
  }

  lemma DialedOnTime(v: View, busy: bool)
    requires v.Inv() && v.next < |v.notes| && v.Punctual()
    ensures v.Dialed(busy).Punctual()
  {
    hide EndsAreFinal, AbortsOnce, EndsAgree, Heard;
    MadeKeeps(v, busy);
    var w := v.Made(busy);
    assert w.Punctual();
    if v.ReachesSink(busy) {
      if v.notes[v.next].MoreData? { TakenOnTime(w, |w.buf|); } else { DetachedOnTime(w); }
    }
  }

  lemma AutoOnTime(v: View)
    requires v.Inv() && v.Punctual()
    ensures v.AutoEnabled().Punctual()
  {
    hide EndsAreFinal, AbortsOnce, EndsAgree, Heard;
    var w := v.(auto := true);
    assert w.Inv() && w.Punctual();
    SinkStartedOnTime(w);
  }

  lemma FlagsOnTime(v: View, w: View)
    requires v.Punctual() && w == v.(bodySize := w.bodySize, gone := w.gone, lent := w.lent, buf := w.buf)
    ensures w.Punctual()
  {
    hide Heard;
  }

  lemma ApplyOnTime(v: View, op: Op)
    requires v.Inv() && Allowed(v, op) && v.Punctual()
    ensures Apply(v, op).Punctual()
  {
    hide View.Told, View.Punctual;
    match op
    case Put(data) => PutOnTime(v, data[..v.PutSize(|data|)]);
    case StopProducing(atEof) => StoppedOnTime(v, atEof);
    case Attach(who) => AttachedOnTime(v, who);
    case Get(room) => if v.buf != "" { TakenOnTime(v, Min(|v.buf|, room)); }
    case Consume(n) => TakenOnTime(v, n);
    case Detach => DetachedOnTime(v);
    case NoConsumption => AbortedOnTime(v);
    case AutoConsume => AutoOnTime(v);
    case Return => ReturnedOnTime(v);
    case Dial(busy) => DialedOnTime(v, busy);
    case _ => FlagsOnTime(v, Apply(v, op));
  }

  /** The pipe after a run of operations, if the source allows all of them. */
  ghost function Play(ops: seq<Op>): (r: Option<View>)
    ensures r.Some? ==> r.value.Inv()
  {
    if ops == [] then FreshIsFine(); Some(FRESH)
    else match Play(ops[..|ops| - 1])
         case None => None
         case Some(v) =>
           var op := ops[|ops| - 1];
           if Allowed(v, op) then ApplyKeeps(v, op); Some(Apply(v, op)) else None
  }

  lemma FreshIsFine()
    ensures FRESH.Inv()
  {
  }

  lemma PlaySnoc(ops: seq<Op>, v: View, op: Op)
    requires Play(ops) == Some(v) && Allowed(v, op)
    ensures Play(ops + [op]) == Some(Apply(v, op))
  {
    assert (ops + [op])[..|ops|] == ops;
  }

  lemma {:induction false} PlayPrefix(ops: seq<Op>, n: nat)
    requires Play(ops).Some? && n <= |ops|
    ensures Play(ops[..n]).Some?
    decreases |ops|
  {
    if n < |ops| {
      PlayPrefix(ops[..|ops| - 1], n);
      assert ops[..|ops| - 1][..n] == ops[..n];
    } else {
      assert ops[..n] == ops;
    }
  }

  lemma {:induction false} PlayIsOnTime(ops: seq<Op>)
    requires Play(ops).Some?
    ensures Play(ops).value.Punctual()
    decreases |ops|
  {
    hide View.Told, Apply, Allowed;
    if ops != [] {
      var before := ops[..|ops| - 1];
      PlayIsOnTime(before);
      ApplyOnTime(Play(before).value, ops[|ops| - 1]);
    }
  }

  /**
   Who is told of the end, in every run: nobody while the producer is there; then exactly the
   attachment that was live when production stopped, and the jobs that were live when they attached
   themselves later, once each.  A sink that starts later is never told.
   */
  lemma EndToldIffDue(ops: seq<Op>, a: nat)
    requires Play(ops).Some? && 1 <= a <= |Play(ops).value.consumers|
    ensures var v := Play(ops).value;
            if v.producer then !Heard(v.notes, a)
            else v.stop.Some? && |v.alive| == |v.consumers| && (Heard(v.notes, a) <==> v.Due(a))
    ensures var notes := Play(ops).value.notes;
            forall i, j :: 0 <= i < j < |notes| && IsEnd(notes[i]) && IsEnd(notes[j]) && notes[i].att == a ==> notes[j].att != a
  {
    hide Play;
    PlayIsOnTime(ops);
  }

  /** How many bytes this operation adds to the body. */
  ghost function Added(v: View, op: Op): int {
    if op.Put? then v.PutSize(|op.data|)
    else if op.Return? && v.lent.Some? then |v.buf| - |v.lent.value|
    else 0
  }

  lemma LastByteStep(v: View, op: Op)
    requires v.Inv() && Allowed(v, op) && Added(v, op) > 0
    ensures var w := Apply(v, op);
            && HasAppended(v, w, Added(v, op)) && |w.produced| == |v.produced| + Added(v, op)
            && (w.bodySize >= 0 ==> |w.produced| <= w.bodySize)
  {
    hide View.Told, View.Grown, View.Returned, HasAppended;
    ApplyKeeps(v, op);
    if op.Put? {
      GrownMeans(v, op.data[..v.PutSize(|op.data|)]);
    } else {
      ReturnedMeans(v);
      ReturnedBytes(v);
    }
  }

  /**
   In every run: once a put, or the return of a grown buffer, has completed a body of known size,
   production has ended, and not before; a live consumer was told so last.
   */
  lemma LastByteEndsProduction(ops: seq<Op>, op: Op, v: View, w: View)
    requires Play(ops) == Some(v) && Play(ops + [op]) == Some(w) && Added(v, op) > 0
    ensures |w.produced| == |v.produced| + Added(v, op) && HasAppended(v, w, Added(v, op))
    ensures w.producer <==> v.producer && !(w.bodySize >= 0 && |w.produced| == w.bodySize)
    ensures v.producer && !w.producer && w.Live() ==> w.notes != [] && w.notes[|w.notes| - 1] == ProductionEnded(|w.consumers|)
  {
    hide View.Inv, Allowed, Apply, Added, HasAppended, View.Live, Play;
    PlayLast(ops, op, v, w);
    LastByteStep(v, op);
    AppendedEnds(v, w, Added(v, op));
  }

  lemma PlayLast(ops: seq<Op>, op: Op, v: View, w: View)
    requires Play(ops) == Some(v) && Play(ops + [op]) == Some(w)
    ensures v.Inv() && Allowed(v, op) && w == Apply(v, op)
  {
    hide View.Inv, Allowed, Apply;
    assert (ops + [op])[..|ops|] == ops;
  }

  /** A sink that started after the producer left and is attached. */
  ghost predicate LateSink(v: View) {
    v.Live() && v.stop.Some? && v.stop.value.atts < |v.consumers| && v.consumers[|v.consumers| - 1].Sink?
  }

  /** It is not reached by an end, because none is scheduled for it. */
  lemma LateSinkHearsNoEnd(v: View, busy: bool)
    requires v.Inv() && v.Punctual() && LateSink(v) && v.next < |v.notes| && IsEnd(v.notes[v.next])
    ensures !v.ReachesSink(busy)
  {
    hide EndsAreFinal, AbortsOnce, EndsAgree;
    var n, last := v.notes[v.next], |v.consumers|;
    assert !v.Due(last);
    assert !Heard(v.notes, last);
    assert n.att != last;
  }

  lemma LateSinkStep(v: View, op: Op)
    requires v.Inv() && v.Punctual() && Allowed(v, op) && LateSink(v)
    requires op != Detach && op != Die(v.consumers[|v.consumers| - 1])
    ensures LateSink(Apply(v, op)) && Apply(v, op).consumers == v.consumers
  {
    hide View.Told;
    match op
    case Dial(busy) => if IsEnd(v.notes[v.next]) { LateSinkHearsNoEnd(v, busy); }
    case _ =>
  }

  /**
   A sink that started after the producer left never lets go by itself, however the run goes on:
   unless it is detached or dies, it stays the consumer, and no end is ever scheduled for it.
   */
  lemma {:induction false} LateSinkStays(ops: seq<Op>, more: seq<Op>)
    requires Play(ops).Some? && LateSink(Play(ops).value) && Play(ops + more).Some?
    requires var c := Play(ops).value.consumers; forall i :: 0 <= i < |more| ==> more[i] != Detach && more[i] != Die(c[|c| - 1])
    ensures var v, w := Play(ops).value, Play(ops + more).value;
            LateSink(w) && w.consumers == v.consumers && !Heard(w.notes, |w.consumers|)
    decreases |more|
  {
    hide View.Told, Apply, Allowed;
    PlayIsOnTime(ops + more);
    if more == [] {
      assert ops + more == ops;
    } else {
      var n := |more| - 1;
      assert (ops + more)[..|ops + more| - 1] == ops + more[..n];
      LateSinkStays(ops, more[..n]);
      PlayIsOnTime(ops + more[..n]);
      LateSinkStep(Play(ops + more[..n]).value, more[n]);
    }
    var w := Play(ops + more).value;
    assert !w.Due(|w.consumers|);
  }

  /** Such a sink: a byte is put, the producer leaves, and only then auto-consumption is enabled. */
  lemma LateSinkExample() returns (ops: seq<Op>, v: View)
    ensures ops == [Put("x"), StopProducing(true), AutoConsume] && Play(ops) == Some(v) && LateSink(v)
    ensures v.consumers == [Sink(0)] && v.notes == [MoreData(1)]
  {
    hide Play, View.Inv;
    FreshIsPlayed();
    ops, v := [], FRESH;
    assert FRESH.PutSize(1) == 1 && "x"[..1] == "x";
    ops, v := Go(ops, v, Put("x"));
    ops, v := Go(ops, v, StopProducing(true));
    ops, v := Go(ops, v, AutoConsume);
  }

  /** The i-th notification that reached its job told consumer c something. */
  ghost predicate Hears(v: View, i: nat, c: Consumer) {
    && i < |v.dialed| && v.dialed[i] < |v.notes| && ForConsumer(v.notes[v.dialed[i]])
    && 1 <= v.notes[v.dialed[i]].att <= |v.consumers| && v.consumers[v.notes[v.dialed[i]].att - 1] == c
  }

  ghost predicate HearsEnd(v: View, i: nat, c: Consumer) { Hears(v, i, c) && IsEnd(v.notes[v.dialed[i]]) }

  /** Consumer c was told twice that the body has ended. */
  ghost predicate HearsEndTwice(v: View, c: Consumer) { exists i, j :: i < j && HearsEnd(v, i, c) && HearsEnd(v, j, c) }

  /** No job attached itself more than k times. */
  ghost predicate AttachedAtMost(v: View, k: nat) { forall id: nat :: multiset(v.consumers)[Client(id)] <= k }

  lemma TwoPlaces<T>(s: seq<T>, a: nat, b: nat)
    requires a < b < |s| && s[a] == s[b]
    ensures multiset(s)[s[b]] >= 2
  {
    assert s == s[..b] + [s[b]] + s[b + 1..];
    assert s[..b][a] in s[..b];
  }

  /** After the end a consumer hears nothing more, unless it is a job, not a sink, that attached itself again. */
  lemma EndIsLastHeard(v: View, i: nat, j: nat, c: Consumer)
    requires v.Inv() && i < j && HearsEnd(v, i, c) && Hears(v, j, c)
    ensures c.Client? && multiset(v.consumers)[c] >= 2
  {
    var a, b := v.notes[v.dialed[i]].att - 1, v.notes[v.dialed[j]].att - 1;
    assert v.dialed[i] < v.dialed[j];
    assert a != b;
    if a < b { TwoPlaces(v.consumers, a, b); } else { TwoPlaces(v.consumers, b, a); }
  }

  /** Extends a run by one operation. */
  lemma Go(ops: seq<Op>, v: View, op: Op) returns (ops': seq<Op>, w: View)
    requires Play(ops) == Some(v) && v.Inv() && Allowed(v, op)
    ensures ops' == ops + [op] && w == Apply(v, op) && Play(ops') == Some(w) && w.Inv()
  {
    PlaySnoc(ops, v, op);
    ops', w := ops + [op], Apply(v, op);
    assert Play(ops').value.Inv();
  }

  /** A pipe whose body is empty, whose producer is done, and whose consumers, so many, were job 0. */
  function EmptyBody(notes: seq<Note>, atts: nat, consumer: bool, next: nat, dialed: seq<nat>): View {
    View(0, false, consumer, {}, "", false, false, None, notes, seq(atts, _ => Client(0)), seq(atts, _ => true),
         Some(Stop(1, true)), next, dialed, "", "")
  }

  lemma EndScheduled() returns (ops: seq<Op>, v: View)
    ensures ops == [Attach(0), StopProducing(true)] && Play(ops) == Some(v) && v.Inv()
    ensures v == EmptyBody([ProductionEnded(1)], 1, true, 0, [])
  {
    hide Play, View.Inv;
    ops, v := [], FRESH;
    FreshIsPlayed();
    ops, v := Go(ops, v, Attach(0));
    ops, v := Go(ops, v, StopProducing(true));
  }

  /** Leaving without having taken a byte and attaching again: the end is scheduled once more. */
  lemma AttachAgain(ops: seq<Op>, v: View) returns (ops': seq<Op>, w: View)
    requires Play(ops) == Some(v) && v.Inv()
    requires v == EmptyBody([ProductionEnded(1)], 1, true, v.next, v.dialed)
    ensures ops' == ops + [Detach, Attach(0)] && Play(ops') == Some(w) && w.Inv()
    ensures w == EmptyBody([ProductionEnded(1), ProductionEnded(2)], 2, true, v.next, v.dialed)
  {
    hide Play, View.Inv;
    ops', w := Go(ops, v, Detach);
    assert w == EmptyBody(v.notes, 1, false, v.next, v.dialed);
    ops', w := Go(ops', w, Attach(0));
  }

  /** A notification of the end reaches job 0. */
  lemma EndReaches(ops: seq<Op>, v: View) returns (ops': seq<Op>, w: View)
    requires Play(ops) == Some(v) && v.Inv() && v.next < |v.notes|
    requires v == EmptyBody(v.notes, |v.consumers|, true, v.next, v.dialed) && v.notes[v.next].ProductionEnded?
    ensures ops' == ops + [Dial(false)] && Play(ops') == Some(w) && w.Inv()
    ensures w == EmptyBody(v.notes, |v.consumers|, true, v.next + 1, v.dialed + [v.next])
  {
    hide Play;
    ops', w := Go(ops, v, Dial(false));
  }

  /**
   A job that attaches itself again is told of the end again, whether it left before or after it
   heard of the end: the dialer cannot tell its attachments apart.
   */
  lemma HearsTwice(early: bool) returns (ops: seq<Op>, v: View)
    ensures Play(ops) == Some(v) && v.consumers == [Client(0), Client(0)] && HearsEndTwice(v, Client(0))
    ensures ops == [Attach(0), StopProducing(true)] +
                   (if early then [Detach, Attach(0), Dial(false)] else [Dial(false), Detach, Attach(0)]) +
                   [Dial(false)]
  {
    hide Play, View.Inv;
    ops, v := EndScheduled();
    if early {
      ops, v := AttachAgain(ops, v);
      ops, v := EndReaches(ops, v);
    } else {
      ops, v := EndReaches(ops, v);
      ops, v := AttachAgain(ops, v);
    }
    ops, v := EndReaches(ops, v);
    assert v.dialed == [0, 1];
    assert HearsEnd(v, 0, Client(0)) && HearsEnd(v, 1, Client(0));
  }

  lemma FreshIsPlayed()
    ensures Play([]) == Some(FRESH) && FRESH.Inv()
  {
  }

  /**
   A consumer hears of the end at most once, in all runs in which each job attaches itself at most
   k times, exactly when k is at most one.
   */
  lemma OneEndIffAttachedOnce(k: nat)
    ensures (forall ops, c :: Play(ops).Some? && AttachedAtMost(Play(ops).value, k) ==> !HearsEndTwice(Play(ops).value, c))
            <==> k <= 1
  {
    hide Play;
    if k <= 1 {
      forall ops, c | Play(ops).Some? && AttachedAtMost(Play(ops).value, k) ensures !HearsEndTwice(Play(ops).value, c) {
        var v := Play(ops).value;
        if HearsEndTwice(v, c) {
          var i, j :| i < j && HearsEnd(v, i, c) && HearsEnd(v, j, c);
          if c.Client? { assert multiset(v.consumers)[Client(c.id)] <= k; }
          EndIsLastHeard(v, i, j, c);
          assert false;
        }
      }
    } else {
      var ops, v := HearsTwice(true);
      assert AttachedAtMost(v, k);
      assert HearsEndTwice(Play(ops).value, Client(0));
    }
  }
}
