/**
 The chunked wire format of section 4.1 of RFC 7230, written from the sender's side, and
 the proof that the parser undoes it.
 */
module ChunkedRoundTrip {
  import opened Collections
  import opened ChunkedNumbers
  import opened ChunkedReference
  import opened ChunkedSteps
  import opened ChunkedRuns

  const CRLF := "\r\n"

  /** Chunk extensions start with a semicolon, optionally after blanks. */
  ghost predicate Extension(s: string) {
    OneLine(s) && (s == "" || s[0] == ';' || IsBlank(s[0]))
  }

  /** One chunk as sent; the size may have leading zeros and digits of either case. */
  datatype Chunk = Chunk(digits: string, ext: string, data: string) {
    ghost predicate WellFormed() {
      AllHex(digits) && digits != "" && HexValue(digits) == |data| && 0 < |data| <= INT64_MAX && Extension(ext)
    }

    function Wire(): string { digits + ext + CRLF + data + CRLF }
  }

  /** The end of a message: a zero-size chunk, its extensions and the trailer fields. */
  datatype Ending = Ending(zeros: string, ext: string, trailers: seq<string>) {
    ghost predicate WellFormed() {
      && AllHex(zeros) && zeros != "" && HexValue(zeros) == 0 && Extension(ext)
      && forall i :: 0 <= i < |trailers| ==> OneLine(trailers[i]) && Chomp(trailers[i]) != ""
    }

    function Wire(): string { zeros + ext + CRLF + Fields(trailers) + CRLF }
  }

  function Fields(trailers: seq<string>): string {
    if trailers == [] then "" else trailers[0] + CRLF + Fields(trailers[1..])
  }

  function Chunks(cs: seq<Chunk>): string {
    if cs == [] then "" else cs[0].Wire() + Chunks(cs[1..])
  }

  function Data(cs: seq<Chunk>): string {
    if cs == [] then "" else cs[0].data + Data(cs[1..])
  }

  ghost predicate WellFormed(cs: seq<Chunk>) { forall i :: 0 <= i < |cs| ==> cs[i].WellFormed() }

  // ---------- lines ----------

  lemma OneLineConcat(a: string, b: string)
    requires OneLine(a) && OneLine(b)
    ensures OneLine(a + b)
  {
    QuoteScanConcat(Outside, a, b);
    forall i | 0 <= i < |a + b| ensures !((a + b)[i] == '\n' && QuoteScan(Outside, (a + b)[..i]) == Outside) {
      if i < |a| {
        assert (a + b)[..i] == a[..i];
      } else {
        assert (a + b)[..i] == a + b[..i - |a|];
        QuoteScanConcat(Outside, a, b[..i - |a|]);
      }
    }
  }

  lemma OneLineCr(s: string)
    requires OneLine(s)
    ensures OneLine(s + "\r") && Chomp(s + "\r") == Chomp(s)
  {
    assert QuoteScan(Outside, "\r"[..0]) == Outside;
    OneLineConcat(s, "\r");
    assert (s + "\r")[..|s|] == s;
  }

  /** A text line followed by CRLF is one line to the decoder. */
  lemma DecodeTextLine(d: Decoder, text: string, rest: string)
    requires d.mode.Line? && d.mode.text == "" && d.mode.q == Outside && OneLine(text)
    ensures Decode(d, text + CRLF + rest) == Decode(EndLine(d, d.mode.kind, text + "\r"), rest)
  {
    hide Decode, EndLine;
    var s := text + CRLF + rest;
    var e := |text| + 1;
    OneLineCr(text);
    assert s[..e] == text + "\r" && s[e + 1..] == rest && s[e] == '\n';
    DecodeWholeLine(d, s, e);
  }

  // ---------- chunks ----------

  lemma DecodeChunk(d: Decoder, c: Chunk, rest: string)
    requires d.mode == Size("", 0) && c.WellFormed()
    ensures Decode(d, c.Wire() + rest) == Decode(d.(out := d.out + c.data), rest)
  {
    hide Decode, HexValue, QuoteScan;
    var s, n := c.Wire() + rest, |c.digits|;
    assert s[..n] == c.digits;
    assert s[n] == if c.ext == "" then '\r' else c.ext[0];
    DecodeSizeAsExtension(d, s, n);
    var head := c.digits + c.ext;
    DigitsAreOpen(c.digits);
    OneLineConcat(c.digits, c.ext);
    OneLineCr(head);
    var k, e := d.(mode := Skip(|c.data|, Outside)), |head| + 1;
    var body := c.data + CRLF + rest;
    assert s == head + "\r" + "\n" + body;
    assert s[..e] == head + "\r" && s[e] == '\n' && s[e + 1..] == body;
    DecodeWholeSkip(k, s, e);
    DecodeChunkBody(k.(mode := Body(|c.data|, |c.data|)), c.data, rest);
  }

  lemma DecodeChunkBody(d: Decoder, data: string, rest: string)
    requires d.mode == Body(|data|, |data|) && 0 < |data|
    ensures Decode(d, data + CRLF + rest) == Decode(Decoder(Size("", 0), d.out + data, d.origin), rest)
  {
    hide Decode;
    assert data + CRLF + rest == data + ("" + CRLF + rest);
    DecodeConcat(d, data, "" + CRLF + rest);
    DecodeBody(d, data);
    assert OneLine("");
    DecodeTextLine(Decode(d, data), "", rest);
    assert Chomp("" + "\r") == "";
  }

  lemma {:induction false} DecodeChunks(d: Decoder, cs: seq<Chunk>, rest: string)
    requires d.mode == Size("", 0) && WellFormed(cs)
    ensures Decode(d, Chunks(cs) + rest) == Decode(d.(out := d.out + Data(cs)), rest)
    decreases |cs|
  {
    hide Decode;
    if cs == [] {
      assert Chunks(cs) + rest == rest && d.out + Data(cs) == d.out;
    } else {
      var more := Chunks(cs[1..]) + rest;
      assert Chunks(cs) + rest == cs[0].Wire() + more;
      DecodeChunk(d, cs[0], more);
      DecodeChunks(d.(out := d.out + cs[0].data), cs[1..], rest);
      assert d.out + cs[0].data + Data(cs[1..]) == d.out + Data(cs);
    }
  }

  lemma {:induction false} DecodeTrailers(d: Decoder, trailers: seq<string>, rest: string)
    requires d.mode == Line(TrailerField, "", Outside)
    requires forall i :: 0 <= i < |trailers| ==> OneLine(trailers[i]) && Chomp(trailers[i]) != ""
    ensures Decode(d, Fields(trailers) + CRLF + rest) == d.(mode := Done(rest))
    decreases |trailers|
  {
    hide Decode;
    if trailers == [] {
      assert Fields(trailers) + CRLF + rest == "" + CRLF + rest;
      assert OneLine("");
      DecodeTextLine(d, "", rest);
      assert Chomp("" + "\r") == "";
      DecodeDone(d.(mode := Done("")), rest);
      assert "" + rest == rest;
    } else {
      var more := Fields(trailers[1..]) + CRLF + rest;
      assert Fields(trailers) + CRLF + rest == trailers[0] + CRLF + more;
      OneLineCr(trailers[0]);
      DecodeTextLine(d, trailers[0], more);
      DecodeTrailers(d, trailers[1..], rest);
    }
  }

  lemma DecodeEnding(d: Decoder, end: Ending, rest: string)
    requires d.mode == Size("", 0) && end.WellFormed()
    ensures Decode(d, end.Wire() + rest) ==
            Decoder(Done(rest), d.out, OriginOf(Chomp(end.ext), d.origin))
  {
    hide Decode, HexValue, OriginOf;
    var s, n := end.Wire() + rest, |end.zeros|;
    assert s[..n] == end.zeros;
    assert s[n] == if end.ext == "" then '\r' else end.ext[0];
    DecodeLastSize(d, s, n);
    var more := Fields(end.trailers) + CRLF + rest;
    assert s[n..] == end.ext + CRLF + more;
    OneLineCr(end.ext);
    DecodeTextLine(NewLine(d, LastExtension), end.ext, more);
    DecodeTrailers(NewLine(d.(origin := OriginOf(Chomp(end.ext), d.origin)), TrailerField), end.trailers, rest);
  }

  // ---------- what is well formed is read alike however it is cut ----------

  /** The value of use-original-body, if the extensions have one, is not just white space. */
  ghost predicate Stated(ext: string) {
    var v := ValueAt(Chomp(ext), 0);
    v.Some? ==> !AllSpace(Chomp(ext)[v.value..])
  }

  lemma TextLineEnd(text: string, rest: string)
    requires OneLine(text)
    ensures LineEnd(Outside, text + CRLF + rest) == |text| + 1 && (text + CRLF + rest)[..|text| + 1] == text + "\r"
  {
    OneLineCr(text);
    var s := text + CRLF + rest;
    assert s[..|text| + 1] == text + "\r";
    FirstEnd(Outside, s, |text| + 1);
  }

  lemma StatedIsFixed(ext: string, rest: string)
    requires OneLine(ext) && Stated(ext)
    ensures FixedOrigin(ext + CRLF + rest)
  {
    TextLineEnd(ext, rest);
    OneLineCr(ext);
  }

  /** Where a size of the wire format starts. */
  lemma SizeIsFixed(d: Decoder, digits: string, s: string)
    requires AllHex(digits) && digits != "" && digits < s && !IsHex(s[|digits|])
    requires s[|digits|] != 'x' && s[|digits|] != 'X'
    requires if HexValue(digits) == 0 then FixedOrigin(s[|digits|..]) else true
    requires d.mode == Size("", 0)
    ensures Fixed(d, s) && HexEnd(s) == |digits| && s[..|digits|] == digits
  {
    hide HexValue, FixedOrigin;
    assert forall i :: 0 <= i < |digits| ==> s[i] == digits[i];
    RunEndIs(s, IsHex, |digits|);
    assert s[..|digits|] == digits;
    assert |digits| > 1 ==> IsHex(s[1]);
    assert !Prefixed(s) && HexEnd(s) == |digits|;
  }

  lemma TidyChunk(d: Decoder, c: Chunk, rest: string)
    requires d.mode == Size("", 0) && c.WellFormed() && Tidy(d.(out := d.out + c.data), rest)
    ensures Tidy(d, c.Wire() + rest)
  {
    hide Decode, HexValue, QuoteScan, Tidy, Fixed;
    var s, n := c.Wire() + rest, |c.digits|;
    assert s[n] == if c.ext == "" then '\r' else c.ext[0];
    SizeIsFixed(d, c.digits, s);
    var head, body := c.digits + c.ext, c.data + CRLF + rest;
    var k, e := d.(mode := Skip(|c.data|, Outside)), |c.digits + c.ext| + 1;
    DigitsAreOpen(c.digits);
    OneLineConcat(c.digits, c.ext);
    OneLineCr(head);
    assert head + CRLF == head + "\r" + "\n" && s == head + CRLF + body;
    TidyBody(d, c.data, rest);
    TidySkip(k, head + "\r", body);
    assert head + "\r" + "\n" + body == s;
    TidyFromExtension(d, s, n);
  }

  lemma TidySkip(k: Decoder, line: string, rest: string)
    requires k.mode.Skip? && k.mode.quote == Outside && OneLine(line)
    requires Tidy(k.(mode := Body(k.mode.size, k.mode.size)), rest)
    ensures Tidy(k, line + "\n" + rest)
  {
    hide Decode, QuoteScan, Tidy, Fixed;
    var a := line + "\n";
    assert a[..|line|] == line && a[|line| + 1..] == "";
    DecodeWholeSkip(k, a, |line|);
    DecodeNothing(k.(mode := Body(k.mode.size, k.mode.size)));
    forall n | 0 <= n < |a| ensures Free(Decode(k, a[..n]).mode) {
      assert a[..n] == line[..n];
      OpenPrefix(Outside, line, n);
      DecodeOpenSkip(k, line[..n]);
    }
    TidyThrough(k, a, rest);
  }

  lemma TidyBody(d: Decoder, data: string, rest: string)
    requires d.mode == Size("", 0) && data != "" && Tidy(d.(out := d.out + data), rest)
    ensures Tidy(d.(mode := Body(|data|, |data|)), data + CRLF + rest)
  {
    hide Decode, Tidy, Fixed;
    var b := d.(mode := Body(|data|, |data|));
    var a := data + CRLF;
    assert a + "" == a;
    DecodeChunkBody(b, data, "");
    DecodeNothing(Decoder(Size("", 0), b.out + data, b.origin));
    forall n | 0 <= n < |a| ensures Free(Decode(b, a[..n]).mode) {
      if n <= |data| {
        assert a[..n] == data[..n];
        DecodeBody(b, data[..n]);
      } else {
        assert a[..n] == data + "\r";
        DecodeConcat(b, data, "\r");
        DecodeBody(b, data);
        CrIsOpen(Decode(b, data));
      }
    }
    TidyThrough(b, a, rest);
  }

  lemma CrIsOpen(d: Decoder)
    requires d.mode.Line? && d.mode.text == "" && d.mode.q == Outside
    ensures Decode(d, "\r").mode == Line(d.mode.kind, "\r", Outside)
  {
    DecodeNothing(d);
    assert "\r"[..0] == "";
  }

  lemma {:induction false} TidyChunks(d: Decoder, cs: seq<Chunk>, rest: string)
    requires d.mode == Size("", 0) && WellFormed(cs) && Tidy(d.(out := d.out + Data(cs)), rest)
    ensures Tidy(d, Chunks(cs) + rest)
    decreases |cs|
  {
    hide Tidy;
    if cs == [] {
      assert Chunks(cs) + rest == rest && d.out + Data(cs) == d.out;
    } else {
      assert Chunks(cs) + rest == cs[0].Wire() + (Chunks(cs[1..]) + rest);
      assert d.out + cs[0].data + Data(cs[1..]) == d.out + Data(cs);
      TidyChunks(d.(out := d.out + cs[0].data), cs[1..], rest);
      TidyChunk(d, cs[0], Chunks(cs[1..]) + rest);
    }
  }

  lemma TidyEnding(d: Decoder, end: Ending, rest: string)
    requires d.mode == Size("", 0) && end.WellFormed()
    requires FixedOrigin(end.ext + CRLF + (Fields(end.trailers) + CRLF + rest))
    ensures Tidy(d, end.Wire() + rest)
  {
    hide Decode, HexValue, QuoteScan, Tidy, Fixed, FixedOrigin, OriginOf;
    var s, n := end.Wire() + rest, |end.zeros|;
    var more := Fields(end.trailers) + CRLF + rest;
    assert s[n] == if end.ext == "" then '\r' else end.ext[0];
    assert s[n..] == end.ext + CRLF + more;
    SizeIsFixed(d, end.zeros, s);
    TidyLastLine(NewLine(d, LastExtension), end.ext, more);
    TidyFromExtension(d, s, n);
  }

  lemma TidyLastLine(k: Decoder, ext: string, more: string)
    requires k.mode == Line(LastExtension, "", Outside) && OneLine(ext) && FixedOrigin(ext + CRLF + more)
    ensures Tidy(k, ext + CRLF + more)
  {
    hide Decode, QuoteScan, Tidy, FixedSize, FixedOrigin, OriginOf, Chomp;
    var line := ext + "\r";
    var a := line + "\n";
    assert a == ext + CRLF && ext + CRLF + "" == a;
    OneLineCr(ext);
    DecodeTextLine(k, ext, "");
    DecodeNothing(EndLine(k, LastExtension, line));
    forall n | 0 <= n < |a| ensures Free(Decode(k, a[..n]).mode) || (n == 0 && Fixed(k, a + more)) {
      if n > 0 {
        assert a[..n] == line[..n];
        OpenPrefix(Outside, line, n);
        DecodeOpenLine(k, line[..n]);
        assert "" + line[..n] == line[..n];
      }
    }
    TrailerIsTidy(EndLine(k, LastExtension, line), more);
    TidyThrough(k, a, more);
  }

  /** A well-formed message is read alike however it is cut, whatever follows it. */
  lemma WireIsTidy(cs: seq<Chunk>, end: Ending, after: string)
    requires WellFormed(cs) && end.WellFormed()
    requires FixedOrigin(end.ext + CRLF + (Fields(end.trailers) + CRLF + after))
    ensures TidyStream(Chunks(cs) + end.Wire() + after)
  {
    hide Tidy, FixedOrigin;
    assert Chunks(cs) + end.Wire() + after == Chunks(cs) + (end.Wire() + after);
    TidyEnding(START.(out := START.out + Data(cs)), end, after);
    TidyChunks(START, cs, end.Wire() + after);
  }

  /**
   Round trip: however a well-formed message and the bytes after it are cut into parse()
   calls and the output drained, the parser delivers exactly the chunk data, reaches the
   message end, and leaves every byte after the message in the input.
   */
  lemma RoundTrip(cs: seq<Chunk>, end: Ending, after: string, run: seq<Event>)
    requires WellFormed(cs) && end.WellFormed()
    requires Stated(end.ext) || FixedOrigin(end.ext + CRLF + (Fields(end.trailers) + CRLF + after))
    requires IsRun(run) && Settled(run) && Stream(run) == Chunks(cs) + end.Wire() + after
    ensures !Thrown(run) && Output(run) == Data(cs)
    ensures Last(run).step == PsMessageEnd && Last(run).input == after
    ensures Last(run).origin == OriginOf(Chomp(end.ext), -1)
  {
    hide Decode, OriginOf, Tidy, FixedOrigin, Stated, IsRun, Stream, Output;
    if Stated(end.ext) { StatedIsFixed(end.ext, Fields(end.trailers) + CRLF + after); }
    WireIsTidy(cs, end, after);
    assert Chunks(cs) + end.Wire() + after == Chunks(cs) + (end.Wire() + after);
    DecodeChunks(START, cs, end.Wire() + after);
    assert "" + Data(cs) == Data(cs);
    DecodeEnding(START.(out := Data(cs)), end, after);
    RunRefinesAll(run);
    if !Thrown(run) {
      QuiescentFuture(Last(run));
      assert Output(run) + "" == Output(run);
    }
  }

  // ---------- a canonical sender ----------

  /** A digit in lower case, or in upper case. */
  function HexDigit(d: nat, capital: bool): (c: char)
    requires d < 16
    ensures IsHex(c) && Digit(c) == d
  {
    PlaceIsItsDigit(d);
    if capital then UPPER[d] else LOWER[d]
  }

  /** n in hex, with any digits in upper case; capitals begins with the last digit. */
  function HexDigits(n: nat, capitals: seq<bool>): (s: string)
    ensures s != "" && forall i :: 0 <= i < |s| ==> IsHex(s[i])
  {
    var last := HexDigit(n % 16, capitals != [] && capitals[0]);
    if n < 16 then [last] else HexDigits(n / 16, if capitals == [] then [] else capitals[1..]) + [last]
  }

  /** Writing a size in hex and reading it back. */
  lemma {:induction false} HexRoundTrip(n: nat, capitals: seq<bool>)
    ensures HexValue(HexDigits(n, capitals)) == n
    decreases n
  {
    var last := HexDigit(n % 16, capitals != [] && capitals[0]);
    if n < 16 {
      OneDigit(last);
    } else {
      var more := if capitals == [] then [] else capitals[1..];
      HexRoundTrip(n / 16, more);
      var s := HexDigits(n / 16, more);
      assert (s + [last])[..|s|] == s;
    }
  }

  /** Hex digits without a leading zero are what is written for their value, in the right case. */
  lemma {:induction false} HexSpelling(s: string) returns (capitals: seq<bool>)
    requires s != "" && AllHex(s) && (s[0] != '0' || |s| == 1)
    ensures HexDigits(HexValue(s), capitals) == s
    decreases |s|
  {
    hide HexDigits, HexValue, Digit;
    var front, c := s[..|s| - 1], s[|s| - 1];
    assert front + [c] == s && IsHex(c) && AllHex(front);
    var capital := SpelledDigit(c);
    if |s| == 1 {
      OneDigit(c);
      assert s == [c];
      capitals := [capital];
      HexDigitsStep(0, c, capital, []);
      assert capitals + [] == capitals && "" + [c] == s;
    } else {
      assert front[0] == s[0];
      DigitIsItsPlace(s[0]);
      HexPositive(front);
      var more := HexSpelling(front);
      capitals := [capital] + more;
      HexSnoc(front, c);
      HexDigitsStep(HexValue(front), c, capital, more);
    }
  }

  lemma SpelledDigit(c: char) returns (capital: bool)
    requires IsHex(c)
    ensures HexDigit(Digit(c), capital) == c
  {
    DigitIsItsPlace(c);
    capital := LOWER[Digit(c)] != c;
  }

  lemma HexSnoc(front: string, c: char)
    requires AllHex(front) && IsHex(c)
    ensures AllHex(front + [c]) && HexValue(front + [c]) == HexValue(front) * 16 + Digit(c)
  {
    assert (front + [c])[..|front|] == front;
  }

  lemma HexDigitsStep(n: nat, c: char, capital: bool, more: seq<bool>)
    requires IsHex(c) && HexDigit(Digit(c), capital) == c
    ensures HexDigits(16 * n + Digit(c), [capital] + more) == (if n == 0 then "" else HexDigits(n, more)) + [c]
  {
    hide Digit, HexDigit;
    var m, caps := 16 * n + Digit(c), [capital] + more;
    assert m / 16 == n && m % 16 == Digit(c) && caps[1..] == more;
  }

  /** Every sequence of non-empty pieces is sent by some well-formed chunks, in either case. */
  lemma CanonicalChunk(data: string, ext: string, capitals: seq<bool>)
    requires 0 < |data| <= INT64_MAX && Extension(ext)
    ensures Chunk(HexDigits(|data|, capitals), ext, data).WellFormed()
  {
    HexRoundTrip(|data|, capitals);
  }

  function DecDigit(d: nat): (c: char)
    requires d < 10
    ensures IsDec(c) && Digit(c) == d
  {
    "0123456789"[d]
  }

  function DecDigits(n: nat): (s: string)
    ensures s != "" && forall i :: 0 <= i < |s| ==> IsDec(s[i])
  {
    if n < 10 then [DecDigit(n)] else DecDigits(n / 10) + [DecDigit(n % 10)]
  }

  lemma {:induction false} DecRoundTrip(n: nat)
    ensures DecValue(DecDigits(n)) == n
  {
    if n < 10 {
      assert [DecDigit(n)][..0] == "";
    } else {
      DecRoundTrip(n / 10);
      var s, c := DecDigits(n / 10), DecDigit(n % 10);
      assert (s + [c])[..|s|] == s;
    }
  }

  lemma ReadDigits(n: nat)
    requires n <= INT64_MAX
    ensures ReadDec(DecDigits(n)) == Some(Number(n, |DecDigits(n)|))
  {
    var digits := DecDigits(n);
    RunEndIs(digits, IsSpace, 0);
    RunEndIs(digits, IsDec, |digits|);
    assert digits[0..] == digits && digits[..|digits|] == digits;
    DecRoundTrip(n);
  }

  /** The last chunk's use-original-body extension is read back as sent, after any others and with any blanks. */
  lemma OriginRoundTrip(items: seq<Item>, before: string, after: string, n: nat)
    requires n <= INT64_MAX && Blanks(before) && Blanks(after) && forall i :: 0 <= i < |items| ==> items[i].Other()
    ensures var ext := Items(items) + before + ";" + after + ORIGIN_KEY + DecDigits(n);
            OriginOf(ext, -1) == n && ValueAt(ext, 0) == Some(|ext| - |DecDigits(n)|)
  {
    hide ReadDec, DecDigits, ValueAt, Items;
    var digits := DecDigits(n);
    var last := Item(before, after, ORIGIN_KEY + digits);
    var ext := Items(items) + before + ";" + after + ORIGIN_KEY + digits;
    assert "" + (Items(items) + last.Wire()) == ext && ext[..|ext|] == ext;
    assert |ORIGIN_KEY| == 18;
    ValueAfterOthers("", 0, items, last);
    assert ext[|ext| - |digits|..] == digits;
    ReadDigits(n);
  }
}
