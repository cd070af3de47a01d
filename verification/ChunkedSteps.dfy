/**
 What each step of the incremental chunked-coding parser (ChunkedCodingParser.cc) does to its fields
 and input, said of a value, and that on tidy input it preserves what the reference decoder makes
 of the bytes still to come.
 */
module ChunkedSteps {
  import opened Collections
  import opened ChunkedNumbers
  import opened ChunkedReference

  datatype Step =
    | PsChunkSize | PsUnusedChunkExtension | PsLastChunkExtension
    | PsChunkBody | PsChunkEnd | PsTrailer | PsMessageEnd

  /** The parser's fields together with the unparsed input. */
  datatype Snapshot = Snapshot(step: Step, chunkSize: nat, left: nat, quote: Quote, origin: int, input: string) {

    ghost predicate Valid() {
      && (step == PsUnusedChunkExtension || quote == Outside)
      && (step == PsTrailer || step == PsMessageEnd || origin == -1)
      && match step
         case PsChunkSize | PsLastChunkExtension | PsTrailer | PsMessageEnd => chunkSize == left == 0
         case PsUnusedChunkExtension => 0 < left == chunkSize
         case PsChunkBody => 0 < left <= chunkSize
         case PsChunkEnd => left == 0 < chunkSize
    }

    /** The reference decoder that stands where this parser stands, with nothing emitted. */
    function Base(): Decoder {
      Decoder(
        match step
        case PsChunkSize => Size("", 0)
        case PsUnusedChunkExtension => Skip(chunkSize, quote)
        case PsLastChunkExtension => Line(LastExtension, "", Outside)
        case PsChunkBody => Body(chunkSize, left)
        case PsChunkEnd => Line(ChunkEnd(chunkSize), "", Outside)
        case PsTrailer => Line(TrailerField, "", Outside)
        case PsMessageEnd => Done(""),
        "", origin)
    }

    /** What the reference decoder makes of the unparsed input. */
    function Future(): Decoder { Decode(Base(), input) }

    /** Nothing more can be made of the input until bytes arrive. */
    ghost predicate Quiescent() {
      match step
      case PsChunkSize => AllHex(input)
      case PsUnusedChunkExtension | PsChunkBody => input == ""
      case PsLastChunkExtension | PsChunkEnd | PsTrailer => Open(Outside, input)
      case PsMessageEnd => true
    }
  }

  /** Emitting e and moving from pre to post loses and invents nothing. */
  ghost predicate Conserves(pre: Snapshot, post: Snapshot, e: string) {
    pre.Future() == post.Future().(out := e + post.Future().out)
  }

  ghost predicate Fails(pre: Snapshot, e: string) {
    pre.Future().mode == Bad && pre.Future().out == e
  }

  lemma ConservesTrans(a: Snapshot, b: Snapshot, c: Snapshot, e: string, f: string)
    requires Conserves(a, b, e)
    ensures Conserves(b, c, f) ==> Conserves(a, c, e + f)
    ensures Fails(b, f) ==> Fails(a, e + f)
  {
    assert e + (f + c.Future().out) == e + f + c.Future().out;
  }

  lemma ConservesRefl(a: Snapshot)
    ensures Conserves(a, a, "")
  {
    assert "" + a.Future().out == a.Future().out;
  }

  /** Equal futures are conserved with nothing emitted. */
  lemma ConservesSilent(a: Snapshot, b: Snapshot)
    requires a.Future() == b.Future()
    ensures Conserves(a, b, "")
  {
    assert "" + b.Future().out == b.Future().out;
  }

  lemma EmptyIsQuiescent(p: Snapshot)
    requires p.input == ""
    ensures p.Quiescent()
  {
  }

  /** The parser after moving n body bytes to the output. */
  function AfterBytes(p: Snapshot, n: nat): Snapshot
    requires p.step == PsChunkBody && n <= p.left && n <= |p.input|
  {
    p.(step := if n == p.left then PsChunkEnd else PsChunkBody, left := p.left - n, input := p.input[n..])
  }

  lemma BodyConserves(p: Snapshot, n: nat)
    requires p.Valid() && p.step == PsChunkBody && n <= p.left && n <= |p.input|
    ensures Conserves(p, AfterBytes(p, n), p.input[..n])
  {
    hide Feed, Decode;
    var e, rest, post := p.input[..n], p.input[n..], AfterBytes(p, n);
    assert p.input == e + rest;
    DecodeConcat(p.Base(), e, rest);
    DecodeBody(p.Base(), e);
    DecodePrepend(post.Base(), e, rest);
    assert "" + e == e && e + "" == e;
  }

  /** The parser after the line that ends at offset e, with its terminator consumed. */
  function AfterLine(p: Snapshot, e: nat): Snapshot
    requires p.step in {PsChunkEnd, PsLastChunkExtension, PsTrailer} && e < |p.input|
  {
    var blank, q := Chomp(p.input[..e]) == "", p.(input := p.input[e + 1..]);
    match p.step
    case PsChunkEnd => q.(step := PsChunkSize, chunkSize := 0)
    case PsLastChunkExtension => q.(step := PsTrailer, origin := OriginOf(Chomp(p.input[..e]), p.origin))
    case PsTrailer => if blank then q.(step := PsMessageEnd) else q
  }

  lemma LineConserves(p: Snapshot, e: nat)
    requires p.Valid() && p.step in {PsChunkEnd, PsLastChunkExtension, PsTrailer}
    requires e < |p.input| && p.input[e] == '\n' && OneLine(p.input[..e])
    ensures p.step == PsChunkEnd && Chomp(p.input[..e]) != "" ==> Fails(p, "")
    ensures p.step != PsChunkEnd || Chomp(p.input[..e]) == "" ==> Conserves(p, AfterLine(p, e), "")
  {
    hide Decode, OriginOf;
    DecodeWholeLine(p.Base(), p.input, e);
    if p.step == PsChunkEnd && Chomp(p.input[..e]) != "" {
      DecodeMonotone(Decoder(Bad, "", p.origin), p.input[e + 1..]);
    } else {
      ConservesSilent(p, AfterLine(p, e));
    }
  }

  lemma NoSizeFails(p: Snapshot)
    requires p.Valid() && p.step == PsChunkSize && p.input != "" && !IsHex(p.input[0])
    ensures Fails(p, "")
  {
    DecodeNoSize(p.Base(), p.input);
  }

  lemma SkipConserves(p: Snapshot, e: nat)
    requires p.Valid() && p.step == PsUnusedChunkExtension
    requires e < |p.input| && p.input[e] == '\n' && Open(p.quote, p.input[..e]) && QuoteScan(p.quote, p.input[..e]) == Outside
    ensures Conserves(p, p.(step := PsChunkBody, quote := Outside, input := p.input[e + 1..]), "")
  {
    DecodeWholeSkip(p.Base(), p.input, e);
    ConservesSilent(p, p.(step := PsChunkBody, quote := Outside, input := p.input[e + 1..]));
  }

  lemma SkipAllConserves(p: Snapshot)
    requires p.Valid() && p.step == PsUnusedChunkExtension && Open(p.quote, p.input)
    ensures Conserves(p, p.(quote := QuoteScan(p.quote, p.input), input := ""), "")
  {
    DecodeOpenSkip(p.Base(), p.input);
    ConservesSilent(p, p.(quote := QuoteScan(p.quote, p.input), input := ""));
  }

  /** What a quiescent parser has made of its input: nothing emitted, the input remembered. */
  lemma QuiescentFuture(p: Snapshot)
    requires p.Valid() && p.Quiescent()
    ensures p.Future().out == "" && p.Future().origin == p.origin
    ensures p.Future().mode ==
            match p.step
            case PsChunkSize => Size(p.input, HexValue(p.input))
            case PsUnusedChunkExtension => Skip(p.chunkSize, p.quote)
            case PsLastChunkExtension => Line(LastExtension, p.input, QuoteScan(Outside, p.input))
            case PsChunkBody => Body(p.chunkSize, p.left)
            case PsChunkEnd => Line(ChunkEnd(p.chunkSize), p.input, QuoteScan(Outside, p.input))
            case PsTrailer => Line(TrailerField, p.input, QuoteScan(Outside, p.input))
            case PsMessageEnd => Done(p.input)
  {
    assert "" + p.input == p.input;
    match p.step
    case PsChunkSize => DecodeDigits(p.Base(), p.input);
    case PsUnusedChunkExtension | PsChunkBody =>
    case PsLastChunkExtension | PsChunkEnd | PsTrailer => DecodeOpenLine(p.Base(), p.input);
    case PsMessageEnd => DecodeDone(p.Base(), p.input);
  }


  // ---------- the steps ----------

  /** What a step or a call did: the state after it, what it emitted, and whether it threw or needs more data. */
  datatype Outcome = Outcome(post: Snapshot, emitted: string, thrown: bool, starved: bool)

  function Starves(p: Snapshot): Outcome { Outcome(p, "", false, true) }

  function Throws(p: Snapshot): Outcome { Outcome(p, "", true, false) }

  function Goes(p: Snapshot): Outcome { Outcome(p, "", false, false) }

  function SizeStep(p: Snapshot): Outcome {
    if HexEnd(p.input) == |p.input| then Starves(p)
    else
      match ReadHex(p.input)
      case None => Throws(p)
      case Some(n) =>
        if n.value < 0 then Throws(p)
        else if n.value > 0 then Goes(p.(step := PsUnusedChunkExtension, chunkSize := n.value, left := n.value))
        else Goes(p.(step := PsLastChunkExtension, chunkSize := 0, left := 0, input := p.input[n.used..]))
  }

  function SkipStep(p: Snapshot): Outcome {
    var e := LineEnd(p.quote, p.input);
    if e == |p.input| then Starves(p.(quote := QuoteScan(p.quote, p.input), input := ""))
    else Goes(p.(step := if p.chunkSize != 0 then PsChunkBody else PsTrailer, quote := Outside, input := p.input[e + 1..]))
  }

  function LastStep(p: Snapshot): Outcome {
    var e := LineEnd(Outside, p.input);
    if e == |p.input| then Starves(p)
    else
      Goes(p.(step := if p.chunkSize != 0 then PsChunkBody else PsTrailer,
              origin := OriginBody(p.input, |Chomp(p.input[..e])|, p.origin), input := p.input[e + 1..]))
  }

  function BodyStep(p: Snapshot, space: nat): Outcome
    requires p.step == PsChunkBody
  {
    var n := Min(Min(p.left, |p.input|), space);
    Outcome(AfterBytes(p, n), p.input[..n], false, |p.input| < p.left)
  }

  function EndStep(p: Snapshot): Outcome
    requires p.step == PsChunkEnd
  {
    var e := LineEnd(Outside, p.input);
    if e == |p.input| then Starves(p)
    else if Chomp(p.input[..e]) != "" then Throws(p)
    else Goes(AfterLine(p, e))
  }

  function TrailerStep(p: Snapshot): Outcome
    requires p.step == PsTrailer
  {
    var e := LineEnd(Outside, p.input);
    if e == |p.input| then Starves(p) else Goes(AfterLine(p, e))
  }

  function StepOf(p: Snapshot, space: nat): Outcome {
    match p.step
    case PsChunkSize => SizeStep(p)
    case PsUnusedChunkExtension => SkipStep(p)
    case PsLastChunkExtension => LastStep(p)
    case PsChunkBody => BodyStep(p, space)
    case PsChunkEnd => EndStep(p)
    case PsTrailer => TrailerStep(p)
    case PsMessageEnd => Goes(p)
  }

  predicate Stops(p: Snapshot, space: nat, starved: bool) {
    starved || (p.step == PsChunkBody && space == 0) || p.step == PsMessageEnd
  }

  /** A step keeps the fields in order, stays within the space and makes progress. */
  lemma StepIsSound(p: Snapshot, space: nat)
    requires p.Valid() && !Stops(p, space, false)
    ensures var o := StepOf(p, space);
            && |o.emitted| <= space && |o.post.input| + |o.emitted| <= |p.input|
            && (!o.thrown ==>
                  && o.post.Valid()
                  && (o.starved || |o.post.input| < |p.input|
                      || (o.post.input == p.input && p.step == PsChunkSize && o.post.step != PsChunkSize)))
  {
    hide QuoteScan, OriginBody, Chomp, LineEnd, ReadHex, HexEnd;
    match p.step
    case PsChunkSize => if HexEnd(p.input) < |p.input| { ZeroIsUsed(p.input); }
    case _ =>
  }

  lemma ZeroIsUsed(s: string)
    ensures ReadHex(s).Some? ==> ReadHex(s).value.used > 0
  {
  }

  /** The steps from p on, until one stops or throws. */
  function ParseFrom(p: Snapshot, space: nat, starved: bool): Outcome
    requires p.Valid()
    decreases |p.input|, !starved, p.step == PsChunkSize
  {
    if Stops(p, space, starved) then Outcome(p, "", false, starved)
    else
      StepIsSound(p, space);
      var o := StepOf(p, space);
      if o.thrown then o
      else
        var r := ParseFrom(o.post, space - |o.emitted|, o.starved);
        r.(emitted := o.emitted + r.emitted)
  }

  /** One call of parse(). */
  function ParseCall(p: Snapshot, space: nat): Outcome
    requires p.Valid()
  {
    ParseFrom(p, space, p.input == "")
  }


  lemma StepThenRest(p: Snapshot, space: nat)
    requires p.Valid() && !Stops(p, space, false)
    ensures var o := StepOf(p, space); o.thrown || (o.post.Valid() && |o.emitted| <= space)
    ensures var o, all := StepOf(p, space), ParseFrom(p, space, false);
            if o.thrown then all == o
            else
              var r := ParseFrom(o.post, space - |o.emitted|, o.starved);
              all == r.(emitted := o.emitted + r.emitted)
  {
    hide StepOf;
    StepIsSound(p, space);
  }

  lemma StopsThere(p: Snapshot, space: nat, starved: bool)
    requires p.Valid() && Stops(p, space, starved)
    ensures ParseFrom(p, space, starved) == Outcome(p, "", false, starved)
  {
  }

  // ---------- on tidy input every step conserves the decoding ----------

  /** The input, with more to come, is tidy for the decoder that stands where the parser stands. */
  ghost predicate TidyFrom(p: Snapshot, more: string) { Tidy(p.Base(), p.input + more) }

  /** What p and more bytes promise of a step or a call that began at p. */
  ghost predicate Kept(p: Snapshot, o: Outcome, more: string) {
    if o.thrown then Fails(p, o.emitted) else Conserves(p, o.post, o.emitted) && TidyFrom(o.post, more)
  }

  lemma TidyNow(p: Snapshot, more: string)
    requires TidyFrom(p, more)
    ensures Fixed(p.Base(), p.input)
  {
    TidyPrefix(p.Base(), p.input, more);
    TidyStart(p.Base(), p.input);
  }

  /** The bytes left over are tidy for the decoder after those that were consumed. */
  lemma TidyLeft(p: Snapshot, n: nat, more: string)
    requires n <= |p.input| && TidyFrom(p, more)
    ensures Tidy(Decode(p.Base(), p.input[..n]), p.input[n..] + more)
  {
    hide Decode, Fixed;
    assert p.input + more == p.input[..n] + (p.input[n..] + more);
    TidyRest(p.Base(), p.input[..n], p.input[n..] + more);
  }

  lemma SizeKeeps(p: Snapshot, more: string)
    requires p.Valid() && p.step == PsChunkSize && TidyFrom(p, more)
    ensures Kept(p, SizeStep(p), more)
  {
    hide Decode, Tidy, HexValue, FixedOrigin, ReadHex;
    var s, n, d := p.input, HexEnd(p.input), p.Base();
    var post := SizeStep(p).post;
    if n == |s| {
      ConservesRefl(p);
    } else {
      TidyNow(p, more);
      if n == 0 {
        if ReadHex(s).Some? && ReadHex(s).value.value >= 0 { SizeIsStray(s); }
        NoSizeFails(p);
      } else {
        ReadHexPlain(s);
        RunEndStays(s, IsHex, more);
        assert (s + more)[..n] == s[..n] && (s + more)[n] == s[n] && (s + more)[n..] == s[n..] + more;
        if HexValue(s[..n]) > 0 {
          DecodeSizeAsExtension(d, s, n);
          TidySizeAsExtension(d, s + more, n);
        } else {
          DecodeLastSize(d, s, n);
          TidyLastSize(d, s + more, n);
        }
        ConservesSilent(p, post);
      }
    }
  }

  lemma SkipKeeps(p: Snapshot, more: string)
    requires p.Valid() && p.step == PsUnusedChunkExtension && TidyFrom(p, more)
    ensures Kept(p, SkipStep(p), more)
  {
    hide Tidy, Open, QuoteScan, LineEnd;
    var e := LineEnd(p.quote, p.input);
    LineEndIs(p.quote, p.input);
    if e == |p.input| {
      assert p.input[..e] == p.input && p.input[e..] == "";
      SkipAllConserves(p);
      TidyLeft(p, e, more);
      DecodeOpenSkip(p.Base(), p.input);
    } else {
      SkipConserves(p, e);
      TidyLeft(p, e + 1, more);
      var t := p.input[..e + 1];
      assert t[..e] == p.input[..e] && t[e + 1..] == "";
      DecodeWholeSkip(p.Base(), t, e);
    }
  }

  /** A whole line that is acted upon as the decoder does. */
  lemma LineKeeps(p: Snapshot, more: string)
    requires p.Valid() && p.step in {PsChunkEnd, PsLastChunkExtension, PsTrailer} && TidyFrom(p, more)
    requires LineEnd(Outside, p.input) < |p.input|
    ensures var e := LineEnd(Outside, p.input);
            if p.step == PsChunkEnd && Chomp(p.input[..e]) != "" then Fails(p, "")
            else Conserves(p, AfterLine(p, e), "") && TidyFrom(AfterLine(p, e), more)
  {
    hide Tidy, Open, QuoteScan, LineEnd, Chomp, OriginOf, Fails, Conserves;
    var e := LineEnd(Outside, p.input);
    LineEndIs(Outside, p.input);
    LineConserves(p, e);
    TidyLeft(p, e + 1, more);
    var t := p.input[..e + 1];
    assert t[..e] == p.input[..e] && t[e + 1..] == "";
    DecodeWholeLine(p.Base(), t, e);
  }

  lemma EndKeeps(p: Snapshot, more: string)
    requires p.Valid() && p.step == PsChunkEnd && TidyFrom(p, more)
    ensures Kept(p, EndStep(p), more)
  {
    hide Tidy, Chomp, Fails, Conserves, LineEnd;
    if LineEnd(Outside, p.input) == |p.input| { ConservesRefl(p); } else { LineKeeps(p, more); }
  }

  lemma TrailerKeeps(p: Snapshot, more: string)
    requires p.Valid() && p.step == PsTrailer && TidyFrom(p, more)
    ensures Kept(p, TrailerStep(p), more)
  {
    hide Tidy, Chomp, Fails, Conserves, LineEnd;
    if LineEnd(Outside, p.input) == |p.input| { ConservesRefl(p); } else { LineKeeps(p, more); }
  }

  lemma LastKeeps(p: Snapshot, more: string)
    requires p.Valid() && p.step == PsLastChunkExtension && TidyFrom(p, more)
    ensures Kept(p, LastStep(p), more)
  {
    hide Tidy, Chomp, Fails, Conserves, LineEnd, FixedOrigin, OriginOf, OriginBody;
    var e := LineEnd(Outside, p.input);
    if e == |p.input| {
      ConservesRefl(p);
    } else {
      TidyNow(p, more);
      OriginStays(p.input, e);
      LineKeeps(p, more);
    }
  }

  lemma BodyKeeps(p: Snapshot, space: nat, more: string)
    requires p.Valid() && p.step == PsChunkBody && TidyFrom(p, more)
    ensures Kept(p, BodyStep(p, space), more)
  {
    hide Tidy, Decode, Feed;
    var n := Min(Min(p.left, |p.input|), space);
    var post := AfterBytes(p, n);
    BodyConserves(p, n);
    TidyLeft(p, n, more);
    DecodeBody(p.Base(), p.input[..n]);
    assert "" + p.input[..n] == p.input[..n] + post.Base().out;
    TidyOut(post.Base(), p.input[..n], p.input[n..] + more);
  }

  lemma StepKeeps(p: Snapshot, space: nat, more: string)
    requires p.Valid() && !Stops(p, space, false) && TidyFrom(p, more)
    ensures Kept(p, StepOf(p, space), more)
  {
    hide Kept, TidyFrom;
    match p.step
    case PsChunkSize => SizeKeeps(p, more);
    case PsUnusedChunkExtension => SkipKeeps(p, more);
    case PsLastChunkExtension => LastKeeps(p, more);
    case PsChunkBody => BodyKeeps(p, space, more);
    case PsChunkEnd => EndKeeps(p, more);
    case PsTrailer => TrailerKeeps(p, more);
  }

  /** A call conserves the decoding, or throws where the decoder rejects the input. */
  lemma {:induction false} ParseKeeps(p: Snapshot, space: nat, starved: bool, more: string)
    requires p.Valid() && TidyFrom(p, more)
    ensures Kept(p, ParseFrom(p, space, starved), more)
    decreases |p.input|, !starved, p.step == PsChunkSize
  {
    hide TidyFrom, Fails, Conserves, StepOf;
    if Stops(p, space, starved) {
      ConservesRefl(p);
    } else {
      StepIsSound(p, space);
      StepKeeps(p, space, more);
      var o := StepOf(p, space);
      if !o.thrown {
        var r := ParseFrom(o.post, space - |o.emitted|, o.starved);
        ParseKeeps(o.post, space - |o.emitted|, o.starved, more);
        ConservesTrans(p, o.post, r.post, o.emitted, r.emitted);
      }
    }
  }

  // ---------- why a call stops ----------

  /** A step that needs more data leaves input of which nothing can be made yet. */
  lemma StarvedIsQuiescent(p: Snapshot, space: nat)
    requires p.Valid() && !Stops(p, space, false)
    ensures var o := StepOf(p, space);
            o.starved ==> o.post.Quiescent() || (o.post.step == PsChunkBody && |o.emitted| == space)
  {
    hide QuoteScan, OriginBody, Chomp, ReadHex, LineEnd;
    LineEndIs(p.quote, p.input);
    assert p.input[..|p.input|] == p.input;
  }

  /** A call stays within its space and stops for want of data, for want of space, or at the end. */
  lemma {:induction false} ParseRests(p: Snapshot, space: nat, starved: bool)
    requires p.Valid() && (starved ==> p.Quiescent() || (p.step == PsChunkBody && space == 0))
    ensures var r := ParseFrom(p, space, starved);
            && |r.emitted| <= space && |r.post.input| + |r.emitted| <= |p.input|
            && (!r.thrown ==> r.post.Valid() && (r.post.Quiescent() || (r.post.step == PsChunkBody && |r.emitted| == space)))
    decreases |p.input|, !starved, p.step == PsChunkSize
  {
    hide StepOf;
    if !Stops(p, space, starved) {
      StepIsSound(p, space);
      StarvedIsQuiescent(p, space);
      var o := StepOf(p, space);
      if !o.thrown { ParseRests(o.post, space - |o.emitted|, o.starved); }
    }
  }
}
