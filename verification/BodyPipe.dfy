/**
 The producer/consumer body pipe (BodyPipe.cc, BodyPipe.h): an object with counters, a bounded
 buffer that can be checked out, auto-consumption, and notifications to either side.  Each method
 does to the object what PipeValue.dfy says of its value.
 */
module BodyPipe {
  import opened Collections
  import opened PipeValue

  class Pipe {
    var theBodySize: int           // -1 while unknown
    var theProducer: bool          // whether a producer is registered
    var theConsumer: bool          // whether a consumer is registered, theConsumer.set()
    var gone: set<Consumer>        // the jobs that exist no more
    var thePutSize: nat
    var theGetSize: nat
    var theBuf: string
    var mustAutoConsume: bool
    var abortedConsumption: bool
    var isCheckedOut: bool
    var notes: seq<Note>
    var consumers: seq<Consumer>
    var next: nat
    var dialed: seq<nat>

    ghost var produced: string
    ghost var consumed: string
    ghost var lent: string         // the buffer at check-out
    ghost var alive: seq<bool>     // whether the consumers existed when they were attached
    ghost var stop: Option<Stop>   // how production stopped

    ghost function Value(): View
      reads this
    {
      View(theBodySize, theProducer, theConsumer, gone, theBuf, mustAutoConsume, abortedConsumption,
           if isCheckedOut then Some(lent) else None, notes, consumers, alive, stop, next, dialed, produced, consumed)
    }

    /** theConsumer.valid(): a consumer is registered and its job exists; !theConsumer is the contrary of this. */
    predicate ConsumerValid()
      reads this
      ensures ConsumerValid() == Value().Live()
    {
      theConsumer && consumers != [] && consumers[|consumers| - 1] !in gone
    }

    /** The two counters are those of the bytes put and taken. */
    ghost predicate Counted()
      reads this
    {
      thePutSize == |produced| && theGetSize == |consumed|
    }

    ghost predicate Valid()
      reads this
    {
      Value().Inv() && Counted()
    }

    predicate BodySizeKnown() reads this { theBodySize >= 0 }

    function UnproducedSize(): int
      requires BodySizeKnown()
      reads this
    {
      theBodySize - thePutSize
    }

    predicate MayNeedMoreData() reads this { !BodySizeKnown() || UnproducedSize() > 0 }

    predicate ExpectMoreAfter(offset: nat)
      requires theGetSize <= offset
      reads this
    {
      offset < thePutSize || (theProducer && MayNeedMoreData())
    }

    predicate Exhausted() reads this { !ExpectMoreAfter(theGetSize) }

    function PotentialSpaceSize(): nat
      reads this
    {
      if |theBuf| + 1 < MAX_CAPACITY then MAX_CAPACITY - (|theBuf| + 1) else 0
    }

    constructor ()
      ensures Valid() && Value() == FRESH
      ensures theBodySize == -1 && theProducer && !theConsumer && thePutSize == theGetSize == 0 && theBuf == "" && notes == []
      ensures !mustAutoConsume && !abortedConsumption && !isCheckedOut && consumers == [] && gone == {} && next == 0
    {
      theBodySize, theProducer, theConsumer, gone := -1, true, false, {};
      thePutSize, theGetSize, theBuf := 0, 0, "";
      mustAutoConsume, abortedConsumption, isCheckedOut := false, false, false;
      notes, consumers, next, dialed := [], [], 0, [];
      produced, consumed, lent, alive, stop := "", "", "", [], None;
    }

    method SetBodySize(aBodySize: nat)
      requires Valid() && theProducer && !BodySizeKnown() && thePutSize <= aBodySize && !ConsumerValid()
      modifies `theBodySize
      ensures Valid() && Value() == old(Value()).(bodySize := aBodySize)
    {
      hide View.Inv;
      FlagsKeep(Value(), SetSize(aBodySize));
      theBodySize := aBodySize;
    }

    /** Sets the body size, or checks it; the check may throw. */
    method ExpectProductionEndAfter(size: nat) returns (thrown: bool)
      requires Valid() && theProducer
      modifies `theBodySize
      ensures Valid() && thrown == (old(BodySizeKnown()) && old(theBodySize) != thePutSize + size)
      ensures Value() == old(Value()).(bodySize := if old(BodySizeKnown()) then old(theBodySize) else thePutSize + size)
    {
      hide View.Inv;
      FlagsKeep(Value(), ExpectEnd(size));
      var expectedSize := thePutSize + size;
      if BodySizeKnown() {
        return theBodySize != expectedSize;
      }
      theBodySize := expectedSize;
      thrown := false;
    }

    /** Consumers are as they were but for one sink more, which is told of data. */
    twostate predicate SinkAdded()
      reads this
    {
      theConsumer && consumers == old(consumers) + [Sink(|old(consumers)|)] && notes == old(notes) + Value().DataNote()
    }

    twostate predicate SameConsumers()
      reads this
    {
      theConsumer == old(theConsumer) && consumers == old(consumers)
    }

    method ScheduleBodyDataNotification()
      modifies `notes
      ensures Value() == old(Value()).DataTold()
      ensures theConsumer && consumers != [] && consumers[|consumers| - 1] !in gone ==>
                notes == old(notes) + [MoreData(|consumers|)]
      ensures !ConsumerValid() ==> notes == old(notes)
      ensures notes == old(notes) + Value().DataNote()
    {
      if ConsumerValid() {
        notes := notes + [MoreData(|consumers|)];
      }
    }

    method ScheduleBodyEndNotification()
      requires thePutSize == |produced|
      modifies `notes
      ensures Value() == old(Value()).EndTold()
      ensures ConsumerValid() && theBodySize >= 0 && theBodySize == thePutSize ==>
                notes == old(notes) + [ProductionEnded(|consumers|)]
      ensures ConsumerValid() && !(theBodySize >= 0 && theBodySize == thePutSize) ==>
                notes == old(notes) + [ProducerAborted(|consumers|)]
      ensures !ConsumerValid() ==> notes == old(notes)
      ensures notes == old(notes) + Value().EndNote()
    {
      if ConsumerValid() {
        if BodySizeKnown() && theBodySize == thePutSize {
          notes := notes + [ProductionEnded(|consumers|)];
        } else {
          notes := notes + [ProducerAborted(|consumers|)];
        }
      }
    }

    /** The producer stops, at the end of the body or before it. */
    method ClearProducer(atEof: bool)
      requires thePutSize == |produced| && (theProducer && !atEof ==> !BodySizeKnown() || theBodySize != thePutSize)
      modifies `theProducer, `theBodySize, `notes, `stop
      ensures Value() == old(Value()).Stopped(atEof) && !theProducer
      ensures theBodySize == if old(theProducer) && atEof && old(theBodySize) < 0 then thePutSize else old(theBodySize)
      ensures notes == old(notes) + if old(theProducer) then Value().EndNote() else []
      ensures old(Valid()) ==> Valid()
    {
      hide View.Inv, View.EndTold, View.Live, View.EndNote;
      StoppedMeans(Value(), atEof);
      if Valid() { StopKeeps(Value(), atEof); }
      if theProducer {
        stop, theProducer := Some(Stop(|consumers|, ConsumerValid())), false;
        if atEof {
          if !BodySizeKnown() {
            theBodySize := thePutSize;
          }
        } else {
          assert !BodySizeKnown() || theBodySize != thePutSize;
        }
        ScheduleBodyEndNotification();
      }
    }

    method StartAutoConsumption()
      requires mustAutoConsume && !ConsumerValid()
      modifies `theConsumer, `consumers, `alive, `notes
      ensures Value() == old(Value()).SinkStarted()
      ensures SinkAdded()
    {
      alive := alive + [Sink(|consumers|) !in gone];
      theConsumer, consumers := true, consumers + [Sink(|consumers|)];
      ScheduleBodyDataNotification();
    }

    method PostAppend(size: nat)
      requires !isCheckedOut && thePutSize + size == |produced|
      modifies `thePutSize, `theConsumer, `consumers, `alive, `notes, `theProducer, `theBodySize, `stop
      ensures Value() == old(Value()).Announced(size) && thePutSize == old(thePutSize) + size
      ensures HasAppended(old(Value()), Value(), size)
    {
      hide View.DataTold, View.SinkStarted, View.Stopped, View.DataNote, View.EndNote, HasAppended;
      AnnouncedMeans(Value(), size);
      thePutSize := thePutSize + size;
      if mustAutoConsume && !ConsumerValid() && size > 0 {
        StartAutoConsumption();
      }
      ScheduleBodyDataNotification();
      if !MayNeedMoreData() {
        ClearProducer(true);
      }
    }

    /** Puts as much of data as the body size and the buffer allow. */
    method PutMoreData(data: string) returns (n: nat)
      requires Valid() && theProducer && (isCheckedOut ==> Value().PutSize(|data|) <= 0)
      modifies `thePutSize, `theConsumer, `consumers, `alive, `notes, `theProducer, `theBodySize, `stop, `theBuf, `produced
      ensures n == Min(if old(BodySizeKnown()) then Min(|data|, old(UnproducedSize())) else |data|, old(PotentialSpaceSize())) <= |data|
      ensures Valid() && Value() == old(Value()).Grown(data[..n])
      ensures produced == old(produced) + data[..n] && theBuf == old(theBuf) + data[..n]
      ensures n < |data| ==> (theBodySize >= 0 && theBodySize == thePutSize) || |theBuf| + 1 == MAX_CAPACITY
      ensures n > 0 ==> HasAppended(old(Value()), Value(), n) && (theProducer <==> !(theBodySize >= 0 && theBodySize == thePutSize))
      ensures n > 0 && !theProducer && ConsumerValid() ==> notes != [] && notes[|notes| - 1] == ProductionEnded(|consumers|)
      ensures n == 0 ==> SameConsumers() && theProducer && theBodySize == old(theBodySize) && notes == old(notes)
    {
      hide View.Inv, View.Grown, HasAppended;
      SizeFits(Value());
      var size := if BodySizeKnown() then Min(|data|, UnproducedSize()) else |data|;
      size := Min(size, PotentialSpaceSize());
      if size != 0 {
        AppendBytes(data[..size]);
        return size;
      }
      assert data[..0] == "" && produced + "" == produced && theBuf + "" == theBuf;
      GrownMeans(Value(), "");
      n := 0;
    }

    /** Some bytes that fit are put. */
    method AppendBytes(data: string)
      requires Valid() && theProducer && !isCheckedOut && data != "" && |theBuf| + |data| < MAX_CAPACITY
      requires BodySizeKnown() ==> |data| <= UnproducedSize()
      modifies `thePutSize, `theConsumer, `consumers, `alive, `notes, `theProducer, `theBodySize, `stop, `theBuf, `produced
      ensures Valid() && Value() == old(Value()).Grown(data) && HasAppended(old(Value()), Value(), |data|)
      ensures theBodySize == old(theBodySize) && thePutSize == old(thePutSize) + |data|
      ensures produced == old(produced) + data && theBuf == old(theBuf) + data
      ensures theProducer <==> !(theBodySize >= 0 && theBodySize == thePutSize)
      ensures !theProducer && ConsumerValid() ==> notes != [] && notes[|notes| - 1] == ProductionEnded(|consumers|)
    {
      hide View.Inv, View.Announced, View.DataNote, View.EndNote, HasAppended;
      GrownEnds(Value(), data);
      theBuf := theBuf + data;
      produced := produced + data;
      PostAppend(|data|);
    }

    method PostConsume(size: nat)
      requires !isCheckedOut && thePutSize == |produced| && theGetSize + size == |consumed|
      modifies `theGetSize, `notes
      ensures Value() == old(Value()).SpaceTold() && theGetSize == old(theGetSize) + size
      ensures notes == old(notes) + if theBodySize < 0 || theBodySize > thePutSize then [MoreSpace] else []
    {
      theGetSize := theGetSize + size;
      if MayNeedMoreData() {
        notes := notes + [MoreSpace];
      }
    }

    method Consume(size: nat)
      requires Valid() && !isCheckedOut && size <= |theBuf|
      modifies `theGetSize, `notes, `theBuf, `consumed
      ensures Valid() && Value() == old(Value()).Taken(size)
      ensures consumed == old(consumed) + old(theBuf)[..size] && theBuf == old(theBuf)[size..]
      ensures notes == old(notes) + if theBodySize < 0 || theBodySize > thePutSize then [MoreSpace] else []
    {
      hide View.Inv, View.SpaceTold;
      TakenKeeps(Value(), size);
      consumed := consumed + theBuf[..size];
      theBuf := theBuf[size..];
      PostConsume(size);
    }

    /** Moves as much buffered data as fits into a buffer with so much room. */
    method GetMoreData(room: nat) returns (data: string)
      requires Valid() && (isCheckedOut ==> theBuf == "")
      modifies `theGetSize, `notes, `theBuf, `consumed
      ensures |data| == Min(|old(theBuf)|, room) && old(theBuf) == data + theBuf && consumed == old(consumed) + data
      ensures Valid() && Value() == if old(theBuf) == "" then old(Value()) else old(Value()).Taken(|data|)
      ensures notes == old(notes) + if old(theBuf) != "" && (theBodySize < 0 || theBodySize > thePutSize) then [MoreSpace] else []
    {
      hide View.Inv;
      if |theBuf| == 0 {
        assert consumed + "" == consumed;
        return "";
      }
      var size := Min(|theBuf|, room);
      data := theBuf[..size];
      Consume(size);
    }

    /** Attaches a consumer unless consumption has begun; false when it is too late. */
    method SetConsumerIfNotLate(who: nat) returns (attached: bool, thrown: bool)
      requires Valid() && !ConsumerValid()
      requires theGetSize > 0 ==> mustAutoConsume
      modifies `theConsumer, `consumers, `alive, `notes
      ensures attached <==> theGetSize == 0 && !abortedConsumption
      ensures thrown <==> theGetSize == 0 && abortedConsumption
      ensures Valid() && Value() == old(Value()).Attached(who)
      ensures attached ==>
                && theConsumer && consumers == old(consumers) + [Client(who)]
                && notes == old(notes) + (if theBuf != "" then Value().DataNote() else []) + (if !theProducer then Value().EndNote() else [])
      ensures !attached ==> SameConsumers() && notes == old(notes)
    {
      hide View.Inv, View.DataTold, View.EndTold, View.Live, View.DataNote, View.EndNote;
      AttachedKeeps(Value(), who);
      AttachedMeans(Value(), who);
      if theGetSize > 0 {
        assert mustAutoConsume;
        return false, false;
      }
      if abortedConsumption {
        return false, true;
      }
      alive := alive + [Client(who) !in gone];
      theConsumer, consumers := true, consumers + [Client(who)];
      assert Value() == old(Value()).Joined(Client(who));
      if |theBuf| > 0 {
        ScheduleBodyDataNotification();
      }
      if !theProducer {
        ScheduleBodyEndNotification();
      }
      return true, false;
    }

    /** Announces that nobody will consume any more; throws when somebody still is consuming. */
    method ExpectNoConsumption() returns (thrown: bool)
      requires Counted()
      modifies `abortedConsumption, `theConsumer, `consumers, `alive, `notes
      ensures thrown <==> !old(abortedConsumption) && !Exhausted() && old(ConsumerValid())
      ensures abortedConsumption <==> old(abortedConsumption) || (!Exhausted() && !old(ConsumerValid()))
      ensures Exhausted() <==> theGetSize >= thePutSize && !(theProducer && (theBodySize < 0 || theBodySize > thePutSize))
      ensures Value() == old(Value()).Aborted()
      ensures var now := abortedConsumption && !old(abortedConsumption);
              && (if now && mustAutoConsume then theConsumer && consumers == old(consumers) + [Sink(|old(consumers)|)]
                  else SameConsumers())
              && notes == old(notes) + if !now then [] else [ConsumerAborted] + if mustAutoConsume then Value().DataNote() else []
      ensures old(Valid()) ==> Valid()
    {
      hide View.Inv, View.SinkStarted, View.Live;
      if Valid() { AbortedKeeps(Value()); }
      if !abortedConsumption && !Exhausted() {
        if ConsumerValid() {
          return true;
        }
        notes := notes + [ConsumerAborted];
        abortedConsumption := true;
        if mustAutoConsume {
          StartAutoConsumption();
        }
      }
      thrown := false;
    }

    method ClearConsumer()
      requires Valid()
      modifies `abortedConsumption, `theConsumer, `consumers, `alive, `notes
      ensures Valid() && Value() == old(Value()).Detached()
      ensures abortedConsumption <==> old(abortedConsumption) || (old(theConsumer) && theGetSize > 0 && !Exhausted())
      ensures Exhausted() <==> theGetSize >= thePutSize && !(theProducer && (theBodySize < 0 || theBodySize > thePutSize))
      ensures var now := abortedConsumption && !old(abortedConsumption);
              && (if now && mustAutoConsume then theConsumer && consumers == old(consumers) + [Sink(|old(consumers)|)]
                  else !theConsumer && consumers == old(consumers))
              && notes == old(notes) + if !now then [] else [ConsumerAborted] + if mustAutoConsume then Value().DataNote() else []
    {
      hide View.Inv, View.Aborted;
      DetachedKeeps(Value());
      if theConsumer {
        theConsumer := false;
        if theGetSize != 0 {
          var thrown := ExpectNoConsumption();
          assert !thrown;
        }
      }
    }

    method EnableAutoConsumption()
      requires Valid()
      modifies `mustAutoConsume, `theConsumer, `consumers, `alive, `notes
      ensures Valid() && Value() == old(Value()).AutoEnabled()
      ensures ConsumerValid() <==> old(ConsumerValid()) || (theBuf != "" && Sink(|old(consumers)|) !in gone)
      ensures mustAutoConsume
      ensures if !old(ConsumerValid()) && theBuf != "" then SinkAdded() else SameConsumers() && notes == old(notes)
    {
      hide View.Inv;
      AutoEnabledKeeps(Value());
      mustAutoConsume := true;
      if !ConsumerValid() && |theBuf| > 0 {
        StartAutoConsumption();
      }
    }

    /** A job ceases to exist, perhaps that of the registered consumer. */
    method JobEnds(job: Consumer)
      requires Valid() && (job.Sink? ==> job.serial < |consumers|)
      modifies `gone
      ensures Valid() && Value() == old(Value()).(gone := old(gone) + {job})
    {
      hide View.Inv;
      FlagsKeep(Value(), Die(job));
      gone := gone + {job};
    }

    // ---------- direct access to the buffer ----------

    method CheckOut() returns (checkedOutSize: nat)
      requires Valid() && !isCheckedOut
      modifies `isCheckedOut, `lent
      ensures Valid() && Value() == old(Value()).(lent := Some(theBuf)) && checkedOutSize == |theBuf|
    {
      hide View.Inv;
      FlagsKeep(Value(), Lend);
      isCheckedOut := true;
      lent := theBuf;
      checkedOutSize := |theBuf|;
    }

    /** The borrower changes the buffer. */
    method EditBuffer(buf: string)
      requires Valid() && isCheckedOut && |buf| < MAX_CAPACITY
      modifies `theBuf
      ensures Valid() && Value() == old(Value()).(buf := buf)
    {
      hide View.Inv;
      FlagsKeep(Value(), Edit(buf));
      theBuf := buf;
    }

    /** postConsume for bytes that the borrower took. */
    method CountTaken(size: nat, ghost data: string)
      requires !isCheckedOut && Counted() && |data| == size
      modifies `theGetSize, `notes, `consumed
      ensures Value() == old(Value()).(consumed := old(consumed) + data).SpaceTold() && Counted()
    {
      hide View.SpaceTold;
      consumed := consumed + data;
      PostConsume(size);
    }

    /** postAppend for bytes that the borrower added. */
    method CountAdded(size: nat, ghost data: string)
      requires !isCheckedOut && Counted() && |data| == size
      modifies `thePutSize, `theConsumer, `consumers, `alive, `notes, `theProducer, `theBodySize, `stop, `produced
      ensures Value() == old(Value()).(produced := old(produced) + data).Announced(size) && Counted()
    {
      hide View.Announced;
      produced := produced + data;
      PostAppend(size);
    }

    method CheckIn(checkedOutSize: nat)
      requires Valid() && isCheckedOut && Value().Returnable() && checkedOutSize == |lent|
      modifies `isCheckedOut, `thePutSize, `theGetSize, `theConsumer, `consumers, `alive, `notes, `theProducer,
        `theBodySize, `stop, `produced, `consumed
      ensures Valid() && Value() == old(Value()).Returned()
      ensures !isCheckedOut
      ensures |theBuf| <= |old(lent)| ==> produced == old(produced) &&
                                          consumed == old(consumed) + old(lent)[..|old(lent)| - |theBuf|]
      ensures |theBuf| > |old(lent)| ==> consumed == old(consumed) && produced == old(produced) + theBuf[|old(lent)|..]
      ensures |theBuf| > |old(lent)| ==> HasAppended(old(Value()), Value(), |theBuf| - |old(lent)|)
      ensures |theBuf| <= |old(lent)| ==>
                && SameConsumers() && theProducer == old(theProducer) && theBodySize == old(theBodySize)
                && notes == old(notes) +
                            if |theBuf| < |old(lent)| && (theBodySize < 0 || theBodySize > |produced|) then [MoreSpace] else []
    {
      hide View.Inv, View.SpaceTold, View.Announced, View.Returnable, View.Returned, HasAppended;
      ReturnedMeans(Value());
      ReturnedKeeps(Value());
      ReturnedCases(Value());
      ReturnedBytes(Value());
      isCheckedOut := false;
      var currentSize := |theBuf|;
      if checkedOutSize > currentSize {
        CountTaken(checkedOutSize - currentSize, lent[..checkedOutSize - currentSize]);
      } else if checkedOutSize < currentSize {
        CountAdded(currentSize - checkedOutSize, theBuf[checkedOutSize..]);
      }
    }

    // ---------- delivery ----------

    /** The next scheduled notification is made; it reaches its job unless that is gone, replaced or busy. */
    method DialNext(busy: bool) returns (reached: bool)
      requires Valid() && next < |notes|
      modifies `next, `dialed
      ensures Valid() && Value() == old(Value()).Made(busy)
      ensures reached <==> !busy && old(Value()).CanDial(notes[old(next)])
      ensures var n := notes[old(next)];
              reached <==> !busy && if ForConsumer(n) then ConsumerValid() && consumers[n.att - 1] == consumers[|consumers| - 1]
                                    else theProducer
    {
      hide View.Inv;
      NextIsKnown(Value());
      MadeKeeps(Value(), busy);
      var n := notes[next];
      reached := !busy && if ForConsumer(n) then ConsumerValid() && consumers[n.att - 1] == consumers[|consumers| - 1]
                          else theProducer;
      if reached {
        dialed := dialed + [next];
      }
      next := next + 1;
    }
  }

  /** A sink drops all that is buffered, or lets go at the end. */
  method SinkHears(p: Pipe, n: Note) returns (got: string)
    requires p.Valid() && (n.MoreData? ==> !p.isCheckedOut)
    modifies p
    ensures p.Valid() && p.Value() == if n.MoreData? then old(p.Value()).Taken(|old(p.theBuf)|) else old(p.Value()).Detached()
    ensures p.produced == old(p.produced) && p.consumed == old(p.consumed) + got
    ensures p.isCheckedOut == old(p.isCheckedOut) && p.lent == old(p.lent)
    ensures got == if n.MoreData? then old(p.theBuf) else ""
  {
    hide View.Inv, View.Taken, View.Detached;
    if n.MoreData? {
      got := p.theBuf;
      assert p.theBuf[..|p.theBuf|] == p.theBuf;
      p.Consume(|p.theBuf|);
    } else {
      got := "";
      p.ClearConsumer();
      assert p.consumed + "" == p.consumed;
    }
  }

  /** The next notification is made, perhaps to a sink. */
  method DialOne(p: Pipe, busy: bool) returns (got: string)
    requires p.Valid() && Allowed(p.Value(), Dial(busy))
    modifies p
    ensures p.Valid() && p.Value() == old(p.Value()).Dialed(busy)
    ensures p.produced == old(p.produced) && p.consumed == old(p.consumed) + got
    ensures p.isCheckedOut == old(p.isCheckedOut) && p.lent == old(p.lent)
    ensures got == if old(p.Value()).ReachesSink(busy) && old(p.notes[p.next]).MoreData? then old(p.theBuf) else ""
  {
    hide View.Inv, View.Taken, View.Detached, View.Live, View.CanDial, View.Returnable;
    NextIsKnown(p.Value());
    got := "";
    assert p.consumed + "" == p.consumed;
    var n := p.notes[p.next];
    var reached := p.DialNext(busy);
    if reached && ForConsumer(n) && p.consumers[n.att - 1].Sink? {
      got := SinkHears(p, n);
    }
  }

  /** A check-out ends: what was removed from the front was handed out, what was added at the end was put. */
  method GiveBack(p: Pipe, checkout: nat) returns (ghost put: string, ghost got: string)
    requires p.Valid() && p.isCheckedOut && p.Value().Returnable() && checkout == |p.lent|
    modifies p
    ensures p.Valid() && p.Value() == old(p.Value()).Returned() && !p.isCheckedOut
    ensures p.produced == old(p.produced) + put && p.consumed == old(p.consumed) + got
    ensures old(p.lent) + put == got + p.theBuf
  {
    hide View.Inv, View.Returned;
    put := if |p.theBuf| > checkout then p.theBuf[checkout..] else "";
    got := if |p.theBuf| <= checkout then p.lent[..checkout - |p.theBuf|] else "";
    assert p.produced + "" == p.produced && p.consumed + "" == p.consumed;
    assert p.lent + put == got + p.theBuf;
    p.CheckIn(checkout);
  }

  /** What the producer does, with the bytes it puts. */
  method PerformPut(p: Pipe, op: Op) returns (ghost put: string)
    requires p.Valid() && Allowed(p.Value(), op) && (op.Put? || op.SetSize? || op.ExpectEnd? || op.StopProducing?)
    modifies p
    ensures p.Valid() && p.Value() == Apply(old(p.Value()), op) && p.isCheckedOut == old(p.isCheckedOut) && p.lent == old(p.lent)
    ensures p.produced == old(p.produced) + put && p.consumed == old(p.consumed) && (if op.Put? then put <= op.data else put == "")
  {
    hide View.Inv, View.Grown, View.Stopped;
    put := "";
    assert p.produced + "" == p.produced;
    match op {
      case Put(data) => var n := p.PutMoreData(data); put := data[..n];
      case SetSize(size) => p.SetBodySize(size);
      case ExpectEnd(extra) => var thrown := p.ExpectProductionEndAfter(extra);
      case StopProducing(atEof) => p.ClearProducer(atEof);
    }
  }

  /** What consumers do, with the bytes they get. */
  method PerformGet(p: Pipe, op: Op) returns (ghost got: string)
    requires p.Valid() && Allowed(p.Value(), op)
    requires op.Attach? || op.Get? || op.Consume? || op.Detach? || op.NoConsumption? || op.AutoConsume? || op.Die?
    modifies p
    ensures p.Valid() && p.Value() == Apply(old(p.Value()), op) && p.isCheckedOut == old(p.isCheckedOut) && p.lent == old(p.lent)
    ensures p.produced == old(p.produced) && p.consumed == old(p.consumed) + got
  {
    hide View.Inv, View.Taken, View.Attached, View.Aborted, View.Detached, View.AutoEnabled;
    got := "";
    assert p.consumed + "" == p.consumed;
    match op {
      case Attach(who) => var attached, thrown := p.SetConsumerIfNotLate(who);
      case Get(room) => got := p.GetMoreData(room);
      case Consume(n) => got := p.theBuf[..n]; p.Consume(n);
      case Detach => p.ClearConsumer();
      case NoConsumption => var thrown := p.ExpectNoConsumption();
      case AutoConsume => p.EnableAutoConsumption();
      case Die(job) => p.JobEnds(job);
    }
  }

  /**
   One operation, with the bytes it put and the bytes it handed out; checkout is the size that the
   borrower's checkout object remembers.
   */
  method Perform(p: Pipe, op: Op, checkout: nat) returns (ghost put: string, ghost got: string, checkout': nat)
    requires p.Valid() && Allowed(p.Value(), op) && (p.isCheckedOut ==> checkout == |p.lent|)
    modifies p
    ensures p.Valid() && p.Value() == Apply(old(p.Value()), op) && (p.isCheckedOut ==> checkout' == |p.lent|)
    ensures p.produced == old(p.produced) + put && p.consumed == old(p.consumed) + got
    ensures op.Put? ==> put <= op.data
  {
    hide View.Inv, View.Returned, View.Dialed;
    put, got, checkout' := "", "", checkout;
    assert p.produced + "" == p.produced && p.consumed + "" == p.consumed;
    if op.Put? || op.SetSize? || op.ExpectEnd? || op.StopProducing? {
      put := PerformPut(p, op);
    } else if op.Lend? {
      checkout' := p.CheckOut();
    } else if op.Edit? {
      p.EditBuffer(op.buf);
    } else if op.Return? {
      put, got := GiveBack(p, checkout);
    } else if op.Dial? {
      got := DialOne(p, op.busy);
    } else {
      got := PerformGet(p, op);
    }
  }

  /**
   Any run that the source allows: what was handed out, followed by what is buffered or lent, is
   what was put, in order, and all promises about notifications hold.
   */
  method Session(ops: seq<Op>) returns (p: Pipe, ghost put: string, ghost got: string)
    requires Play(ops).Some?
    ensures fresh(p) && p.Valid() && p.Value() == Play(ops).value
    ensures got + (if p.isCheckedOut then p.lent else p.theBuf) == put
    ensures |put| == p.thePutSize && |got| == p.theGetSize && (p.BodySizeKnown() ==> |put| <= p.theBodySize)
    ensures EndsAreFinal(p.notes) && AbortsOnce(p.notes, p.abortedConsumption) && EndsAgree(p.notes, p.Value().Complete())
    ensures p.Value().Punctual()
  {
    hide EndsAreFinal, AbortsOnce, EndsAgree, View.Punctual, View.Addressed, Allowed, Apply;
    p := new Pipe();
    put, got := "", "";
    var checkout := 0;
    assert ops[..|ops|] == ops;
    for i := 0 to |ops|
      invariant fresh(p) && p.Valid() && put == p.produced && got == p.consumed
      invariant Play(ops[..i]) == Some(p.Value()) && (p.isCheckedOut ==> checkout == |p.lent|)
    {
      PlayPrefix(ops, i + 1);
      assert ops[..i + 1][..i] == ops[..i];
      ghost var more, taken;
      more, taken, checkout := Perform(p, ops[i], checkout);
      put, got := put + more, got + taken;
    }
    PlayIsOnTime(ops);
  }
}
