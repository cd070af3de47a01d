/**
 The incremental chunked-coding parser (ChunkedCodingParser.cc): a resumable step machine over a
 caller-supplied input buffer and a bounded output buffer.  Each method does to the object what
 ChunkedSteps.dfy says of its value.
 */
module ChunkedParser {
  import opened Collections
  import opened ChunkedNumbers
  import opened ChunkedReference
  import opened ChunkedSteps

  // ---------- buffers ----------

  class MemBuf {
    var content: string
    const maxCapacity: nat

    constructor (max: nat)
      ensures content == "" && maxCapacity == max
    {
      content, maxCapacity := "", max;
    }

    function PotentialSpaceSize(): nat
      reads this
    {
      if |content| + 1 < maxCapacity then maxCapacity - (|content| + 1) else 0
    }

    method Consume(n: nat)
      requires n <= |content|
      modifies this
      ensures content == old(content)[n..]
    {
      content := content[n..];
    }

    method Append(s: string)
      requires |s| <= PotentialSpaceSize()
      modifies this
      ensures content == old(content) + s
    {
      content := content + s;
    }
  }

  // ---------- scanning for the end of a line ----------

  function ToQuote(quoted: bool, slashed: bool): Quote {
    if slashed then Escaped else if quoted then Inside else Outside
  }

  lemma ScanNothing(q: Quote, s: string)
    ensures QuoteScan(q, s[..0]) == q && Open(q, s[..0]) && TrailingCrs(s[..0]) == 0
  {
  }

  /**
   Finds the first line feed outside quotes.  The CRs right before it belong to the
   terminator.  When there is none, the quoting state at the end of buf is returned, so
   that a scan of the bytes that follow can resume.
   */
  method FindCrlf(buf: string, quoted0: bool, slashed0: bool)
    returns (found: bool, crlfBeg: nat, crlfEnd: nat, quoted: bool, slashed: bool)
    requires slashed0 ==> quoted0
    ensures var e := LineEnd(ToQuote(quoted0, slashed0), buf);
            if found then e < |buf| && crlfBeg == |Chomp(buf[..e])| && crlfEnd == e + 1
            else e == |buf| && (slashed ==> quoted) && ToQuote(quoted, slashed) == QuoteScan(ToQuote(quoted0, slashed0), buf)
  {
    hide QuoteScan, Open, TrailingCrs;
    ghost var q0 := ToQuote(quoted0, slashed0);
    quoted, slashed := quoted0, slashed0;
    crlfBeg, crlfEnd := 0, 0;
    var crOff: int := -1;
    var i: nat := 0;
    ScanNothing(q0, buf);
    while i < |buf|
      invariant i <= |buf|
      invariant slashed ==> quoted
      invariant ToQuote(quoted, slashed) == QuoteScan(q0, buf[..i])
      invariant Open(q0, buf[..i])
      invariant -1 <= crOff < i && (quoted ==> crOff < 0)
      invariant !quoted ==> TrailingCrs(buf[..i]) == if crOff < 0 then 0 else i - crOff
    {
      ScanStep(q0, buf, i);
      var c := buf[i];
      if slashed {
        slashed := false;
      } else if quoted {
        if c == '\\' {
          slashed := true;
        } else if c == '"' {
          quoted := false;
        }
      } else if c == '"' {
        quoted := true;
        crOff := -1;
      } else if crOff < 0 {
        if c == '\n' {
          FirstEnd(q0, buf, i);
          return true, i, i + 1, quoted, slashed;
        }
        if c == '\r' { crOff := i; }
      } else {
        if c == '\n' {
          FirstEnd(q0, buf, i);
          return true, crOff, i + 1, quoted, slashed;
        }
        if c != '\r' { crOff := -1; }
      }
      i := i + 1;
    }
    assert buf[..i] == buf;
    FirstEnd(q0, buf, i);
    found := false;
  }

  // ---------- the parser ----------

  class ChunkedCodingParser {
    var theStep: Step
    var theChunkSize: nat
    var theLeftBodySize: nat
    var doNeedMoreData: bool
    var inQuoted: bool
    var inSlashed: bool
    var useOriginBody: int

    constructor ()
      ensures State("") == Snapshot(PsChunkSize, 0, 0, Outside, -1, "") && !inSlashed && !inQuoted
    {
      theStep, theChunkSize, theLeftBodySize := PsChunkSize, 0, 0;
      doNeedMoreData, inQuoted, inSlashed, useOriginBody := false, false, false, -1;
    }

    function State(input: string): Snapshot
      reads this
    {
      Snapshot(theStep, theChunkSize, theLeftBodySize, ToQuote(inQuoted, inSlashed), useOriginBody, input)
    }

    ghost predicate Valid()
      reads this
    {
      State("").Valid() && (inSlashed ==> inQuoted)
    }

    function NeedsMoreSpace(theOut: MemBuf): bool
      reads this, theOut
    {
      theStep == PsChunkBody && theOut.PotentialSpaceSize() == 0
    }

    function MayContinue(theOut: MemBuf): bool
      reads this, theOut
    {
      !doNeedMoreData && !NeedsMoreSpace(theOut) && theStep != PsMessageEnd
    }

    /** What a step that emits nothing did. */
    ghost predicate Did(theIn: MemBuf, thrown: bool, o: Outcome)
      reads this, theIn
    {
      && thrown == o.thrown && o.emitted == ""
      && (!thrown ==> State(theIn.content) == o.post && doNeedMoreData == o.starved && (inSlashed ==> inQuoted))
    }

    method ParseChunkSize(theIn: MemBuf) returns (thrown: bool)
      requires Valid() && theStep == PsChunkSize && !doNeedMoreData
      modifies this, theIn
      ensures Did(theIn, thrown, SizeStep(old(State(theIn.content))))
    {
      hide ReadHex;
      assert theChunkSize <= 0;
      var s := theIn.content;
      var p: nat := 0;
      while p < |s| && IsHex(s[p])
        invariant p <= |s| && forall i :: 0 <= i < p ==> IsHex(s[i])
      {
        p := p + 1;
      }
      RunEndIs(s, IsHex, p);
      if p >= |s| {
        doNeedMoreData := true;
        return false;
      }
      var number := ReadHex(s);
      if number.None? || number.value.value < 0 {
        return true;
      }
      theChunkSize, theLeftBodySize := number.value.value, number.value.value;
      if theChunkSize != 0 {
        theStep := PsUnusedChunkExtension;
      } else {
        theIn.Consume(number.value.used);
        theStep := PsLastChunkExtension;
      }
      thrown := false;
    }

    method ParseUnusedChunkExtension(theIn: MemBuf)
      requires Valid() && theStep == PsUnusedChunkExtension && !doNeedMoreData
      modifies this, theIn
      ensures Did(theIn, false, SkipStep(old(State(theIn.content))))
    {
      hide LineEnd, QuoteScan, Open;
      var found, crlfBeg, crlfEnd, quoted, slashed := FindCrlf(theIn.content, inQuoted, inSlashed);
      if found {
        inQuoted, inSlashed := false, false;
        theIn.Consume(crlfEnd);
        theStep := if theChunkSize != 0 then PsChunkBody else PsTrailer;
      } else {
        inQuoted, inSlashed := quoted, slashed;
        theIn.Consume(|theIn.content|);
        doNeedMoreData := true;
      }
    }

    method ParseChunkBody(theIn: MemBuf, theOut: MemBuf)
      requires Valid() && theStep == PsChunkBody && MayContinue(theOut) && theIn != theOut
      modifies this, theIn, theOut
      ensures var o := BodyStep(old(State(theIn.content)), old(theOut.PotentialSpaceSize()));
              && !o.thrown && State(theIn.content) == o.post && doNeedMoreData == o.starved && (inSlashed ==> inQuoted)
              && theOut.content == old(theOut.content) + o.emitted
              && theOut.PotentialSpaceSize() + |o.emitted| == old(theOut.PotentialSpaceSize())
    {
      assert theLeftBodySize > 0;
      var availSize := Min(theLeftBodySize, |theIn.content|);
      var safeSize := Min(availSize, theOut.PotentialSpaceSize());
      doNeedMoreData := availSize < theLeftBodySize;
      theOut.Append(theIn.content[..safeSize]);
      theIn.Consume(safeSize);
      theLeftBodySize := theLeftBodySize - safeSize;
      if theLeftBodySize == 0 {
        theStep := PsChunkEnd;
      } else {
        assert doNeedMoreData || NeedsMoreSpace(theOut);
      }
    }

    method ParseChunkEnd(theIn: MemBuf) returns (thrown: bool)
      requires Valid() && theStep == PsChunkEnd && !doNeedMoreData
      modifies this, theIn
      ensures Did(theIn, thrown, EndStep(old(State(theIn.content))))
    {
      hide LineEnd, QuoteScan, Open;
      assert theLeftBodySize == 0;
      var found, crlfBeg, crlfEnd, quoted, slashed := FindCrlf(theIn.content, false, false);
      if found {
        if crlfBeg != 0 {
          return true;
        }
        theIn.Consume(crlfEnd);
        theChunkSize := 0;
        theStep := PsChunkSize;
        return false;
      }
      doNeedMoreData := true;
      thrown := false;
    }

    method ParseTrailerHeader(theIn: MemBuf)
      requires Valid() && theStep == PsTrailer && !doNeedMoreData
      modifies this, theIn
      ensures Did(theIn, false, TrailerStep(old(State(theIn.content))))
    {
      hide LineEnd, QuoteScan, Open;
      var found, crlfBeg, crlfEnd, quoted, slashed := FindCrlf(theIn.content, false, false);
      if found {
        theIn.Consume(crlfEnd);
        if crlfBeg == 0 { theStep := PsMessageEnd; }
      } else {
        doNeedMoreData := true;
      }
    }

    method ParseTrailer(theIn: MemBuf, theOut: MemBuf)
      requires Valid() && theStep == PsTrailer && !doNeedMoreData && theIn != theOut
      modifies this, theIn
      ensures Valid() && Leads(old(State(theIn.content)), theOut.PotentialSpaceSize(), theIn, theOut, "")
      ensures Progressed(old(State(theIn.content)), theIn)
    {
      hide ParseFrom, LineEnd, Chomp, OriginOf;
      assert theChunkSize == 0;
      ghost var pre, space := State(theIn.content), theOut.PotentialSpaceSize();
      while MayContinue(theOut)
        invariant Valid() && (theStep == PsTrailer || theStep == PsMessageEnd)
        invariant Leads(pre, space, theIn, theOut, "")
        invariant Progressed(pre, theIn) || (State(theIn.content) == pre && !doNeedMoreData)
        decreases |theIn.content|, !doNeedMoreData
      {
        ghost var mid := State(theIn.content);
        StepIsSound(mid, space);
        ParseTrailerHeader(theIn);
        StepThenRest(mid, space);
      }
    }

    /** Parsing from pre is to emit e and go on from here. */
    ghost predicate Leads(pre: Snapshot, space: nat, theIn: MemBuf, theOut: MemBuf, e: string)
      requires Valid() && pre.Valid()
      reads this, theIn, theOut
    {
      var r := ParseFrom(State(theIn.content), theOut.PotentialSpaceSize(), doNeedMoreData);
      ParseFrom(pre, space, false) == r.(emitted := e + r.emitted)
    }

    method PassBlanks(ext: string, start: nat) returns (p: nat)
      requires start <= |ext|
      ensures p == SkipBlanks(ext, start)
    {
      p := start;
      while p < |ext| && IsBlank(ext[p])
        invariant start <= p <= |ext| && SkipBlanks(ext, p) == SkipBlanks(ext, start)
      {
        p := p + 1;
      }
    }

    method PassToSemicolon(ext: string, start: nat) returns (p: nat)
      requires start <= |ext|
      ensures p == SkipToSemicolon(ext, start)
    {
      p := start;
      while p < |ext| && ext[p] != ';'
        invariant start <= p <= |ext| && SkipToSemicolon(ext, p) == SkipToSemicolon(ext, start)
      {
        p := p + 1;
      }
    }

    /** Reads the extensions of the last chunk for use-original-body. */
    method ReadExtensions(content: string, end: nat, unset: int) returns (origin: int)
      requires end <= |content|
      ensures origin == OriginBody(content, end, unset)
    {
      hide ReadDec, OriginBody, ValueAt, SkipBlanks, SkipToSemicolon;
      var ext := content[..end];
      OriginCases(content, end, unset);
      origin := unset;
      var p: nat := 0;
      while p < |ext|
        invariant p <= |ext| && origin == unset && ValueAt(ext, p) == ValueAt(ext, 0)
      {
        ValueCases(ext, p);
        p := PassBlanks(ext, p);
        if p == |ext| || ext[p] != ';' { return; }
        p := PassBlanks(ext, p + 1);
        if p >= |ext| { return; }
        if |ext| - p > 18 && ext[p..p + 18] == ORIGIN_KEY {
          var number := ReadDec(content[p + 18..]);
          if number.Some? { origin := number.value.value; }
          return;
        }
        p := PassToSemicolon(ext, p);
      }
      ValueCases(ext, p);
    }

    method ParseLastChunkExtension(theIn: MemBuf)
      requires Valid() && theStep == PsLastChunkExtension && !doNeedMoreData
      modifies this, theIn
      ensures Did(theIn, false, LastStep(old(State(theIn.content))))
    {
      hide LineEnd, QuoteScan, Open, OriginBody;
      var found, crlfBeg, crlfEnd, quoted, slashed := FindCrlf(theIn.content, false, false);
      if !found {
        doNeedMoreData := true;
        return;
      }
      useOriginBody := ReadExtensions(theIn.content, crlfBeg, useOriginBody);
      theIn.Consume(crlfEnd);
      theStep := if theChunkSize != 0 then PsChunkBody else PsTrailer;
    }

    /** One dispatch through theStep. */
    method RunStep(theIn: MemBuf, theOut: MemBuf) returns (thrown: bool)
      requires Valid() && MayContinue(theOut) && theIn != theOut
      modifies this, theIn, theOut
      ensures old(theOut.content) <= theOut.content
      ensures var e, pre := theOut.content[|old(theOut.content)|..], old(State(theIn.content));
              && theOut.PotentialSpaceSize() + |e| == old(theOut.PotentialSpaceSize())
              && if thrown then
                   var r := ParseFrom(pre, old(theOut.PotentialSpaceSize()), false);
                   r.thrown && r.emitted == e
                 else Valid() && Leads(pre, old(theOut.PotentialSpaceSize()), theIn, theOut, e)
      ensures !thrown ==> Progressed(old(State(theIn.content)), theIn)
    {
      hide ParseFrom, SizeStep, SkipStep, LastStep, EndStep, TrailerStep, BodyStep;
      ghost var pre, space := State(theIn.content), theOut.PotentialSpaceSize();
      StepIsSound(pre, space);
      StepThenRest(pre, space);
      thrown := false;
      match theStep {
        case PsChunkSize => thrown := ParseChunkSize(theIn);
        case PsUnusedChunkExtension => ParseUnusedChunkExtension(theIn);
        case PsLastChunkExtension => ParseLastChunkExtension(theIn);
        case PsChunkBody => ParseChunkBody(theIn, theOut);
        case PsChunkEnd => thrown := ParseChunkEnd(theIn);
        case PsTrailer => ParseTrailer(theIn, theOut);
        case PsMessageEnd => assert false;
      }
      assert theOut.content[|old(theOut.content)|..] == if pre.step == PsChunkBody then StepOf(pre, space).emitted else "";
    }

    ghost predicate Progressed(pre: Snapshot, theIn: MemBuf)
      reads this, theIn
    {
      || |theIn.content| < |pre.input|
      || (|theIn.content| == |pre.input| && doNeedMoreData)
      || (|theIn.content| == |pre.input| && pre.step == PsChunkSize && theStep != PsChunkSize)
    }

    /** Parses as much as the input and the output space allow. */
    method Parse(rawData: MemBuf, parsedContent: MemBuf) returns (thrown: bool, complete: bool)
      requires Valid() && rawData != parsedContent
      modifies this, rawData, parsedContent
      ensures old(parsedContent.content) <= parsedContent.content
      ensures var e := parsedContent.content[|old(parsedContent.content)|..];
              var r := ParseCall(old(State(rawData.content)), old(parsedContent.PotentialSpaceSize()));
              && e == r.emitted && thrown == r.thrown && (!thrown ==> Valid() && State(rawData.content) == r.post)
              && (!thrown ==> parsedContent.PotentialSpaceSize() == old(parsedContent.PotentialSpaceSize()) - |e|)
      ensures !thrown ==> (complete <==> theStep == PsMessageEnd)
      ensures !thrown ==> complete || doNeedMoreData || NeedsMoreSpace(parsedContent)
    {
      hide ParseFrom;
      ghost var pre, out0, space0 := State(rawData.content), parsedContent.content, parsedContent.PotentialSpaceSize();
      ghost var e := "";
      doNeedMoreData := |rawData.content| == 0;
      ghost var starved := doNeedMoreData;
      while MayContinue(parsedContent)
        invariant Valid()
        invariant parsedContent.content == out0 + e && parsedContent.PotentialSpaceSize() + |e| == space0
        invariant var r := ParseFrom(State(rawData.content), parsedContent.PotentialSpaceSize(), doNeedMoreData);
                  ParseFrom(pre, space0, starved) == r.(emitted := e + r.emitted)
        decreases |rawData.content|, !doNeedMoreData, theStep == PsChunkSize
      {
        ghost var mid, out := State(rawData.content), parsedContent.content;
        thrown := RunStep(rawData, parsedContent);
        ghost var f := parsedContent.content[|out|..];
        assert parsedContent.content == out0 + (e + f) && e + f == parsedContent.content[|out0|..];
        if !thrown {
          Regroup(e, f, ParseFrom(State(rawData.content), parsedContent.PotentialSpaceSize(), doNeedMoreData).emitted);
        }
        e := e + f;
        if thrown { return thrown, false; }
      }
      StopsThere(State(rawData.content), parsedContent.PotentialSpaceSize(), doNeedMoreData);
      assert parsedContent.content[|out0|..] == e && e + "" == e;
      return false, theStep == PsMessageEnd;
    }
  }
}
