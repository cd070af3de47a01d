/**
 What the chunked parser rejects: text between the data of a chunk and its line end, and anything but
 a chunk size where one is due.  Whatever came before is delivered.
 */
module ChunkedErrors {
  import opened Collections
  import opened ChunkedNumbers
  import opened ChunkedReference
  import opened ChunkedSteps
  import opened ChunkedRuns
  import opened ChunkedRoundTrip

  lemma BadIsTidy(d: Decoder, s: string)
    requires d.mode.Bad?
    ensures Tidy(d, s)
  {
    hide Decode, FixedSize, FixedOrigin;
    forall n | 0 <= n <= |s| ensures Fixed(Decode(d, s[..n]), s[n..]) { DecodeMonotone(d, s[..n]); }
  }

  /** A run over what the decoder rejects has thrown, and has emitted what the decoder did. */
  lemma RejectedIsThrown(s: string, out: string, run: seq<Event>)
    requires TidyStream(s) && Decode(START, s).mode == Bad && Decode(START, s).out == out
    requires IsRun(run) && Settled(run) && Stream(run) == s
    ensures Thrown(run) && Output(run) == out
  {
    hide Decode, Tidy, IsRun, Stream, Output;
    RunRefinesAll(run);
    if !Thrown(run) { QuiescentFuture(Last(run)); }
  }

  // ---------- no size where one is due ----------

  /**
   After any well-formed chunks, bytes of which strtoll would read no size make every parse throw that
   gets to see the first of them; the chunks' data were delivered.
   */
  lemma NoSizeIsRejected(cs: seq<Chunk>, rest: string, run: seq<Event>)
    requires WellFormed(cs) && rest != "" && !IsHex(rest[0]) && !StraySize(rest)
    requires IsRun(run) && Settled(run) && Stream(run) == Chunks(cs) + rest
    ensures Thrown(run) && Output(run) == Data(cs)
  {
    hide Decode, Tidy, IsRun, Stream, Output;
    var d := START.(out := "" + Data(cs));
    assert START.out + Data(cs) == "" + Data(cs) == Data(cs);
    DecodeChunks(START, cs, rest);
    DecodeNoSize(d, rest);
    NoSizeIsTidy(d, rest);
    TidyChunks(START, cs, rest);
    RejectedIsThrown(Chunks(cs) + rest, Data(cs), run);
  }

  lemma NoSizeIsTidy(d: Decoder, rest: string)
    requires d.mode == Size("", 0) && rest != "" && !IsHex(rest[0]) && !StraySize(rest)
    ensures Tidy(d, rest)
  {
    hide Decode, Tidy, FixedOrigin, StraySize;
    RunEndIs(rest, IsHex, 0);
    var a, b := rest[..1], rest[1..];
    assert a + b == rest && a[..0] == "";
    DecodeNoSize(d, a);
    BadIsTidy(Decode(d, a), b);
    TidyThrough(d, a, b);
  }

  // ---------- text after the data of a chunk ----------

  /** A chunk with its data, but not the line end after them. */
  function Cut(c: Chunk): string { c.digits + c.ext + CRLF + c.data }

  /** Any text before the line end after a chunk's data makes every parse throw; the data were delivered. */
  lemma JunkIsRejected(cs: seq<Chunk>, c: Chunk, junk: string, after: string, run: seq<Event>)
    requires WellFormed(cs) && c.WellFormed() && OneLine(junk) && Chomp(junk) != ""
    requires IsRun(run) && Settled(run) && Stream(run) == Chunks(cs) + Cut(c) + junk + "\n" + after
    ensures Thrown(run) && Output(run) == Data(cs) + c.data
  {
    hide Decode, Tidy, IsRun, Stream, Output, Chomp, Open, QuoteScan;
    var d := START.(out := Data(cs));
    var line := junk + "\n" + after;
    assert START.out + Data(cs) == Data(cs);
    assert Chunks(cs) + Cut(c) + junk + "\n" + after == Chunks(cs) + (Cut(c) + line);
    DecodeChunks(START, cs, Cut(c) + line);
    DecodeCut(d, c, line);
    var k := Decoder(Line(ChunkEnd(|c.data|), "", Outside), Data(cs) + c.data, -1);
    DecodeJunk(k, junk, after);
    TidyCut(d, c, line);
    TidyChunks(START, cs, Cut(c) + line);
    RejectedIsThrown(Chunks(cs) + (Cut(c) + line), Data(cs) + c.data, run);
  }

  lemma DecodeJunk(k: Decoder, junk: string, after: string)
    requires k.mode.Line? && k.mode.kind.ChunkEnd? && k.mode.text == "" && k.mode.q == Outside
    requires OneLine(junk) && Chomp(junk) != ""
    ensures Decode(k, junk + "\n" + after) == k.(mode := Bad) && Tidy(k, junk + "\n" + after)
  {
    hide Decode, Tidy, Chomp, Open, QuoteScan, Fixed;
    var a := junk + "\n";
    assert (a + after)[..|junk|] == junk && (a + after)[|junk| + 1..] == after;
    DecodeWholeLine(k, a + after, |junk|);
    DecodeMonotone(k.(mode := Bad), after);
    assert a[..|junk|] == junk && a[|junk| + 1..] == "";
    DecodeWholeLine(k, a, |junk|);
    DecodeNothing(k.(mode := Bad));
    forall n | 0 <= n < |a| ensures Free(Decode(k, a[..n]).mode) {
      assert a[..n] == junk[..n];
      OpenPrefix(Outside, junk, n);
      DecodeOpenLine(k, junk[..n]);
    }
    BadIsTidy(k.(mode := Bad), after);
    TidyThrough(k, a, after);
  }

  /** The decoder after a chunk that is cut off after its data. */
  lemma DecodeCut(d: Decoder, c: Chunk, rest: string)
    requires d.mode == Size("", 0) && c.WellFormed()
    ensures Decode(d, Cut(c) + rest) == Decode(Decoder(Line(ChunkEnd(|c.data|), "", Outside), d.out + c.data, d.origin), rest)
  {
    hide Decode, HexValue, QuoteScan, Open;
    var s, n := Cut(c) + rest, |c.digits|;
    var head, body := c.digits + c.ext, c.data + rest;
    CutShape(c, rest);
    DecodeSizeAsExtension(d, s, n);
    DigitsAreOpen(c.digits);
    OneLineConcat(c.digits, c.ext);
    OneLineCr(head);
    var k, e := d.(mode := Skip(|c.data|, Outside)), |head| + 1;
    DecodeWholeSkip(k, s, e);
    var b := d.(mode := Body(|c.data|, |c.data|));
    DecodeConcat(b, c.data, rest);
    DecodeBody(b, c.data);
  }

  lemma CutShape(c: Chunk, rest: string)
    ensures var s, head, n := Cut(c) + rest, c.digits + c.ext, |c.digits|;
            && s == head + "\r" + "\n" + (c.data + rest) && s[..n] == c.digits && n < |s|
            && s[n] == (if c.ext == "" then '\r' else c.ext[0])
            && s[..|head| + 1] == head + "\r" && s[|head| + 1] == '\n' && s[|head| + 2..] == c.data + rest
  {
    assert Cut(c) + rest == c.digits + c.ext + "\r" + "\n" + (c.data + rest);
  }

  lemma TidyCut(d: Decoder, c: Chunk, rest: string)
    requires d.mode == Size("", 0) && c.WellFormed()
    requires Tidy(Decoder(Line(ChunkEnd(|c.data|), "", Outside), d.out + c.data, d.origin), rest)
    ensures Tidy(d, Cut(c) + rest)
  {
    hide Decode, HexValue, QuoteScan, Open, Tidy, Fixed;
    var s, n := Cut(c) + rest, |c.digits|;
    var head := c.digits + c.ext;
    CutShape(c, rest);
    SizeIsFixed(d, c.digits, s);
    DigitsAreOpen(c.digits);
    OneLineConcat(c.digits, c.ext);
    OneLineCr(head);
    var b := d.(mode := Body(|c.data|, |c.data|));
    forall k | 0 <= k < |c.data| ensures Free(Decode(b, c.data[..k]).mode) { DecodeBody(b, c.data[..k]); }
    DecodeBody(b, c.data);
    TidyThrough(b, c.data, rest);
    TidySkip(d.(mode := Skip(|c.data|, Outside)), head + "\r", c.data + rest);
    TidyFromExtension(d, s, n);
  }
}
