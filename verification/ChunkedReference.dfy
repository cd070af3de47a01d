/**
 A byte-at-a-time reference decoder for the chunked transfer coding, and the wire
 format it decodes.  It has no buffers, no look-ahead and no notion of "needs more
 data": it is the simple machine that the buffered parser of ChunkedParser.dfy is
 proved to refine.
 */
module ChunkedReference {
  import opened Collections
  import opened ChunkedNumbers

  // ---------- quoted strings ----------

  /** Where a scan stands with respect to quoted strings. */
  datatype Quote = Outside | Inside | Escaped

  function QuoteNext(q: Quote, c: char): Quote {
    match q
    case Escaped => Inside
    case Inside => if c == '\\' then Escaped else if c == '"' then Outside else Inside
    case Outside => if c == '"' then Inside else Outside
  }

  function QuoteScan(q: Quote, s: string): Quote {
    if s == "" then q else QuoteNext(QuoteScan(q, s[..|s| - 1]), s[|s| - 1])
  }

  /** s holds no line feed outside quotes, when the scan enters s in state q. */
  ghost predicate Open(q: Quote, s: string) {
    forall i :: 0 <= i < |s| ==> !(s[i] == '\n' && QuoteScan(q, s[..i]) == Outside)
  }

  /** Text that may stand on a line: it ends outside quotes and breaks no line outside quotes. */
  ghost predicate OneLine(s: string) { Open(Outside, s) && QuoteScan(Outside, s) == Outside }

  /** The offset of the first line feed outside quotes, or the length when there is none. */
  function LineEnd(q: Quote, s: string): (e: nat)
    ensures e <= |s|
  {
    if s == "" then 0
    else
      var n := |s| - 1;
      var e := LineEnd(q, s[..n]);
      if e < n then e else if s[n] == '\n' && QuoteScan(q, s[..n]) == Outside then n else |s|
  }

  lemma {:induction false} LineEndIs(q: Quote, s: string)
    ensures Open(q, s[..LineEnd(q, s)])
    ensures LineEnd(q, s) < |s| ==> s[LineEnd(q, s)] == '\n' && QuoteScan(q, s[..LineEnd(q, s)]) == Outside
    decreases |s|
  {
    if s != "" {
      var n := |s| - 1;
      LineEndIs(q, s[..n]);
      var e := LineEnd(q, s[..n]);
      if e < n {
        assert s[..n][..e] == s[..e];
      } else {
        assert s[..n][..n] == s[..n] && s[..|s|] == s;
        forall i | 0 <= i < n ensures s[..n][..i] == s[..i] { }
      }
    }
  }

  lemma {:induction false} FirstEnd(q: Quote, s: string, e: nat)
    requires e <= |s| && Open(q, s[..e])
    requires e < |s| ==> s[e] == '\n' && QuoteScan(q, s[..e]) == Outside
    ensures LineEnd(q, s) == e
    decreases |s|
  {
    if s != "" {
      var n := |s| - 1;
      var k := Min(e, n);
      assert s[..n][..k] == s[..k];
      OpenPrefix(q, s[..e], k);
      assert s[..e][..k] == s[..k];
      FirstEnd(q, s[..n], k);
      if e == |s| { assert s[..e] == s; }
    }
  }

  /** What follows the first line does not matter to where it ends. */
  lemma LineEndStays(q: Quote, s: string, more: string)
    requires LineEnd(q, s) < |s|
    ensures LineEnd(q, s + more) == LineEnd(q, s)
  {
    var e := LineEnd(q, s);
    LineEndIs(q, s);
    assert (s + more)[..e] == s[..e];
    FirstEnd(q, s + more, e);
  }

  /** The number of CRs that s ends with. */
  function TrailingCrs(s: string): (n: nat)
    ensures n <= |s|
  {
    if s == "" || s[|s| - 1] != '\r' then 0 else 1 + TrailingCrs(s[..|s| - 1])
  }

  /** A line without its terminator: the CRs before the line feed belong to the terminator. */
  function Chomp(s: string): string { s[..|s| - TrailingCrs(s)] }

  // ---------- the use-original-body extension ----------

  const ORIGIN_KEY := "use-original-body="

  predicate IsBlank(c: char) { c == ' ' || c == '\t' }

  function SkipBlanks(s: string, p: nat): (r: nat)
    requires p <= |s|
    ensures p <= r <= |s|
    decreases |s| - p
  {
    if p < |s| && IsBlank(s[p]) then SkipBlanks(s, p + 1) else p
  }

  function SkipToSemicolon(s: string, p: nat): (r: nat)
    requires p <= |s|
    ensures p <= r <= |s|
    decreases |s| - p
  {
    if p < |s| && s[p] != ';' then SkipToSemicolon(s, p + 1) else p
  }

  /** Where in the extensions ext, from offset p on, the value of use-original-body starts, if there is one. */
  function ValueAt(ext: string, p: nat): (v: Option<nat>)
    requires p <= |ext|
    ensures v.Some? ==> v.value < |ext|
    decreases |ext| - p
  {
    var semi := SkipBlanks(ext, p);
    if semi == |ext| || ext[semi] != ';' then None else
    var name := SkipBlanks(ext, semi + 1);
    if name == |ext| then None
    else if |ext| - name > 18 && ext[name..name + 18] == ORIGIN_KEY then Some(name + 18)
    else ValueAt(ext, SkipToSemicolon(ext, name))
  }

  lemma ValueCases(ext: string, p: nat)
    requires p <= |ext|
    ensures var semi := SkipBlanks(ext, p);
            if semi == |ext| || ext[semi] != ';' then ValueAt(ext, p) == None else
            var name := SkipBlanks(ext, semi + 1);
            if name == |ext| then ValueAt(ext, p) == None
            else if |ext| - name > 18 && ext[name..name + 18] == ORIGIN_KEY then ValueAt(ext, p) == Some(name + 18)
            else ValueAt(ext, p) == ValueAt(ext, SkipToSemicolon(ext, name))
  {
  }

  /** The value starts right after its key. */
  lemma ValueAfterKey(value: string)
    requires value != ""
    ensures var ext := ";" + ORIGIN_KEY + value; ValueAt(ext, 0) == Some(19) && ext[19..] == value
  {
    hide ValueAt;
    var ext := ";" + ORIGIN_KEY + value;
    assert |ORIGIN_KEY| == 18 && ORIGIN_KEY[0] == 'u';
    assert ext[0] == ';' && ext[1] == 'u' && ext[1..19] == ORIGIN_KEY;
    ValueCases(ext, 0);
  }

  /** Spaces and tabs. */
  ghost predicate Blanks(s: string) { forall i :: 0 <= i < |s| ==> s[i] == ' ' || s[i] == '\t' }

  /** One extension on the wire, with blanks before and after its semicolon. */
  datatype Item = Item(before: string, after: string, text: string) {
    function Wire(): string { before + ";" + after + text }

    /** Some extension other than use-original-body. */
    ghost predicate Other() {
      && Blanks(before) && Blanks(after) && text != "" && text[0] != ' ' && text[0] != '\t'
      && (forall i :: 0 <= i < |text| ==> text[i] != ';') && !(ORIGIN_KEY <= text)
    }
  }

  function Items(items: seq<Item>): string { if items == [] then "" else items[0].Wire() + Items(items[1..]) }

  lemma {:induction false} SkipBlanksTo(s: string, p: nat, e: nat)
    requires p <= e <= |s| && (forall i :: p <= i < e ==> s[i] == ' ' || s[i] == '\t')
    requires e < |s| ==> s[e] != ' ' && s[e] != '\t'
    ensures SkipBlanks(s, p) == e
    decreases e - p
  {
    if p < e { SkipBlanksTo(s, p + 1, e); }
  }

  lemma {:induction false} SkipToSemicolonAt(s: string, p: nat, e: nat)
    requires p <= e <= |s| && (forall i :: p <= i < e ==> s[i] != ';') && (e < |s| ==> s[e] == ';')
    ensures SkipToSemicolon(s, p) == e
    decreases e - p
  {
    if p < e { SkipToSemicolonAt(s, p + 1, e); }
  }

  /** Where a scan of ext at p finds the text of an extension that starts with blanks there. */
  lemma ItemAt(ext: string, p: nat, semi: nat, name: nat)
    requires p <= semi < name <= |ext| && ext[semi] == ';' && (forall i :: p <= i < semi ==> ext[i] == ' ' || ext[i] == '\t')
    requires forall i :: semi < i < name ==> ext[i] == ' ' || ext[i] == '\t'
    requires name < |ext| ==> ext[name] != ' ' && ext[name] != '\t'
    ensures SkipBlanks(ext, p) == semi && SkipBlanks(ext, semi + 1) == name
  {
    SkipBlanksTo(ext, p, semi);
    SkipBlanksTo(ext, semi + 1, name);
  }

  /** Another extension is passed over, up to the semicolon of the next one. */
  lemma OtherIsPassed(ext: string, p: nat, semi: nat, name: nat, end: nat, next: nat)
    requires p <= semi < name < end <= next <= |ext| && ext[semi] == ';' && ext[name] != ' ' && ext[name] != '\t'
    requires forall i :: p <= i < semi || semi < i < name || end <= i < next ==> ext[i] == ' ' || ext[i] == '\t'
    requires (forall i :: name <= i < end ==> ext[i] != ';') && !(ORIGIN_KEY <= ext[name..end]) && (next < |ext| ==> ext[next] == ';')
    ensures ValueAt(ext, p) == ValueAt(ext, next)
  {
    hide ValueAt;
    ItemAt(ext, p, semi, name);
    SkipToSemicolonAt(ext, name, next);
    ValueCases(ext, p);
    if |ext| - name > 18 && ext[name..name + 18] == ORIGIN_KEY {
      KeyIsText(ext, name, end, next);
    }
  }

  /** The key holds neither blanks nor semicolons, so it does not reach beyond the text. */
  lemma KeyIsText(ext: string, name: nat, end: nat, next: nat)
    requires name < end <= next <= |ext| && (forall i :: end <= i < next ==> ext[i] == ' ' || ext[i] == '\t')
    requires next < |ext| ==> ext[next] == ';'
    requires |ext| - name > 18 && ext[name..name + 18] == ORIGIN_KEY
    ensures ORIGIN_KEY <= ext[name..end]
  {
    assert |ORIGIN_KEY| == 18 && forall i :: 0 <= i < 18 ==> ORIGIN_KEY[i] != ' ' && ORIGIN_KEY[i] != '\t' && ORIGIN_KEY[i] != ';';
    assert forall i :: name <= i < name + 18 ==> ext[i] == ORIGIN_KEY[i - name];
    assert forall i :: name <= i < name + 18 ==> ext[i] != ' ' && ext[i] != '\t' && ext[i] != ';';
    assert end < |ext| ==> ext[end] == ' ' || ext[end] == '\t' || ext[end] == ';';
    assert end >= name + 18;
    assert ext[name..end][..18] == ext[name..name + 18];
  }

  /** The offsets of an extension on the wire. */
  lemma ItemShape(front: string, item: Item, tail: string)
    requires Blanks(item.before) && Blanks(item.after)
    ensures var ext := front + item.Wire() + tail;
            var semi := |front| + |item.before|;
            var name := semi + 1 + |item.after|;
            var end := name + |item.text|;
            && end == |front + item.Wire()| <= |ext| && ext[semi] == ';' && ext[name..end] == item.text && ext[end..] == tail
            && (forall i :: |front| <= i < semi || semi < i < name ==> ext[i] == ' ' || ext[i] == '\t')
            && (item.text != "" ==> ext[name] == item.text[0])
  {
    var ext := front + item.before + ";" + item.after + item.text + tail;
    assert front + item.Wire() + tail == ext;
    var semi := |front| + |item.before|;
    assert forall i :: |front| <= i < semi ==> ext[i] == item.before[i - |front|];
    assert forall i :: semi < i <= semi + |item.after| ==> ext[i] == item.after[i - semi - 1];
  }

  lemma OtherStep(front: string, p: nat, item: Item, tail: string, b: nat)
    requires item.Other() && |front| <= p <= |front| + |item.before|
    requires b < |tail| && Blanks(tail[..b]) && tail[b] == ';'
    ensures var ext := front + item.Wire() + tail; ValueAt(ext, p) == ValueAt(ext, |front + item.Wire()| + b)
  {
    hide ValueAt;
    ItemShape(front, item, tail);
    var ext := front + item.Wire() + tail;
    var semi := |front| + |item.before|;
    var name := semi + 1 + |item.after|;
    var end := name + |item.text|;
    assert forall i :: end <= i < end + b ==> ext[i] == ext[end..][..b][i - end];
    assert ext[end + b] == ext[end..][b];
    assert forall i :: name <= i < end ==> ext[i] == ext[name..end][i - name];
    OtherIsPassed(ext, p, semi, name, end, end + b);
  }

  lemma KeyFound(front: string, p: nat, last: Item)
    requires Blanks(last.before) && Blanks(last.after) && ORIGIN_KEY < last.text && |front| <= p <= |front| + |last.before|
    ensures var ext := front + last.Wire(); ValueAt(ext, p) == Some(|ext| - |last.text| + 18)
  {
    hide ValueAt;
    ItemShape(front, last, "");
    var ext := front + last.Wire();
    assert ext + "" == ext;
    var semi := |front| + |last.before|;
    var name := semi + 1 + |last.after|;
    assert ORIGIN_KEY[0] == 'u' && last.text[0] == ORIGIN_KEY[0] && |ORIGIN_KEY| == 18;
    ItemAt(ext, p, semi, name);
    assert ext[name..name + 18] == ext[name..][..18] == last.text[..18] == ORIGIN_KEY;
    ValueCases(ext, p);
  }

  /** Other extensions are passed over, and blanks around the semicolons do not matter. */
  lemma {:induction false} ValueAfterOthers(front: string, p: nat, items: seq<Item>, last: Item)
    requires |front| <= p && forall i :: 0 <= i < |items| ==> items[i].Other()
    requires Blanks(last.before) && Blanks(last.after) && ORIGIN_KEY < last.text
    requires p <= |front| + |(if items == [] then last else items[0]).before|
    ensures var ext := front + (Items(items) + last.Wire());
            ValueAt(ext, p) == Some(|ext| - |last.text| + 18)
    decreases |items|
  {
    hide ValueAt;
    if items == [] {
      assert Items(items) + last.Wire() == last.Wire();
      KeyFound(front, p, last);
    } else {
      var item, rest := items[0], items[1..];
      var next := if rest == [] then last else rest[0];
      var tail := Items(rest) + last.Wire();
      TailStarts(rest, last);
      OtherStep(front, p, item, tail, |next.before|);
      ValueAfterOthers(front + item.Wire(), |front + item.Wire()| + |next.before|, rest, last);
      Regroup(item.Wire(), Items(rest), last.Wire());
      Regroup(front, item.Wire(), tail);
    }
  }

  lemma TailStarts(items: seq<Item>, last: Item)
    ensures var next, tail := if items == [] then last else items[0], Items(items) + last.Wire();
            |tail| > |next.before| && tail[..|next.before|] == next.before && tail[|next.before|] == ';'
  {
  }

  /** The use-original-body value when s[..end] holds the extensions; the number is read from all that s holds. */
  function OriginBody(s: string, end: nat, unset: int): int
    requires end <= |s|
  {
    match ValueAt(s[..end], 0)
    case None => unset
    case Some(v) =>
      match ReadDec(s[v..])
      case None => unset
      case Some(n) => n.value
  }

  lemma OriginCases(s: string, end: nat, unset: int)
    requires end <= |s|
    ensures var v := ValueAt(s[..end], 0);
            OriginBody(s, end, unset) ==
            if v.None? || ReadDec(s[v.value..]).None? then unset else ReadDec(s[v.value..]).value.value
  {
  }

  function OriginOf(ext: string, unset: int): int { OriginBody(ext, |ext|, unset) }

  // ---------- the decoder ----------

  datatype LineKind = ChunkEnd(size: nat) | LastExtension | TrailerField

  datatype Mode =
    | Size(digits: string, value: nat)
    | Skip(size: nat, quote: Quote)
    | Body(size: nat, left: nat)
    | Line(kind: LineKind, text: string, q: Quote)
    | Done(after: string)
    | Bad

  datatype Decoder = Decoder(mode: Mode, out: string, origin: int)

  const START := Decoder(Size("", 0), "", -1)

  function NewLine(d: Decoder, kind: LineKind): Decoder { d.(mode := Line(kind, "", Outside)) }

  /** Acts on a complete line. */
  function EndLine(d: Decoder, kind: LineKind, text: string): Decoder {
    match kind
    case ChunkEnd(_) => d.(mode := if Chomp(text) == "" then Size("", 0) else Bad)
    case LastExtension => NewLine(d.(origin := OriginOf(Chomp(text), d.origin)), TrailerField)
    case TrailerField => if Chomp(text) == "" then d.(mode := Done("")) else NewLine(d, TrailerField)
  }

  function FeedLine(d: Decoder, kind: LineKind, text: string, q: Quote, c: char): Decoder {
    if q == Outside && c == '\n' then EndLine(d, kind, text)
    else d.(mode := Line(kind, text + [c], QuoteNext(q, c)))
  }

  function FeedSkip(d: Decoder, size: nat, q: Quote, c: char): Decoder {
    if q == Outside && c == '\n' then d.(mode := Body(size, size))
    else d.(mode := Skip(size, QuoteNext(q, c)))
  }

  /** Acts on a complete chunk size; c is the byte after it. */
  function EndSize(d: Decoder, digits: string, value: nat, c: char): Decoder {
    if digits == "" then d.(mode := Bad)
    else if value > 0 then FeedSkip(d, Clamp(value), Outside, c)
    else FeedLine(d, LastExtension, "", Outside, c)
  }

  function Feed(d: Decoder, c: char): Decoder {
    match d.mode
    case Size(digits, value) =>
      if IsHex(c) then d.(mode := Size(digits + [c], value * 16 + Digit(c)))
      else EndSize(d, digits, value, c)
    case Skip(size, q) => FeedSkip(d, size, q, c)
    case Body(size, left) =>
      if left <= 1 then Decoder(Line(ChunkEnd(size), "", Outside), d.out + [c], d.origin)
      else Decoder(Body(size, left - 1), d.out + [c], d.origin)
    case Line(kind, text, q) => FeedLine(d, kind, text, q, c)
    case Done(after) => d.(mode := Done(after + [c]))
    case Bad => d
  }

  function Decode(d: Decoder, s: string): Decoder {
    if s == "" then d else Feed(Decode(d, s[..|s| - 1]), s[|s| - 1])
  }

  // ---------- laws of the decoder ----------

  lemma {:induction false} DecodeConcat(d: Decoder, a: string, b: string)
    ensures Decode(d, a + b) == Decode(Decode(d, a), b)
    decreases |b|
  {
    if b == "" {
      assert a + b == a;
    } else {
      DecodeConcat(d, a, b[..|b| - 1]);
      assert (a + b)[..|a + b| - 1] == a + b[..|b| - 1];
    }
  }

  /** Output already produced does not influence the rest of the decoding. */
  lemma {:induction false} DecodePrepend(d: Decoder, x: string, s: string)
    ensures Decode(d.(out := x + d.out), s) == Decode(d, s).(out := x + Decode(d, s).out)
    decreases |s|
  {
    if s != "" {
      DecodePrepend(d, x, s[..|s| - 1]);
      var e := Decode(d, s[..|s| - 1]);
      var c := s[|s| - 1];
      assert x + (e.out + [c]) == x + e.out + [c];
    }
  }

  /** Decoding never takes back output, and never leaves Bad. */
  lemma {:induction false} DecodeMonotone(d: Decoder, s: string)
    ensures d.out <= Decode(d, s).out
    ensures d.mode.Bad? ==> Decode(d, s) == d
    decreases |s|
  {
    if s != "" { DecodeMonotone(d, s[..|s| - 1]); }
  }

  lemma {:induction false} DecodeDone(d: Decoder, s: string)
    requires d.mode.Done?
    ensures Decode(d, s) == d.(mode := Done(d.mode.after + s))
    decreases |s|
  {
    if s == "" {
      assert d.mode.after + s == d.mode.after;
    } else {
      DecodeDone(d, s[..|s| - 1]);
      assert d.mode.after + s[..|s| - 1] + [s[|s| - 1]] == d.mode.after + s;
    }
  }

  /** One more byte of a scan. */
  lemma ScanStep(q: Quote, s: string, n: nat)
    requires n < |s|
    ensures QuoteScan(q, s[..n + 1]) == QuoteNext(QuoteScan(q, s[..n]), s[n])
    ensures Open(q, s[..n]) && !(s[n] == '\n' && QuoteScan(q, s[..n]) == Outside) ==> Open(q, s[..n + 1])
    ensures s[n] == '\n' && QuoteScan(q, s[..n]) == Outside ==> !Open(q, s)
    ensures TrailingCrs(s[..n + 1]) == if s[n] == '\r' then TrailingCrs(s[..n]) + 1 else 0
  {
    assert s[..n + 1][..n] == s[..n];
    assert forall i :: 0 <= i < n ==> s[..n + 1][..i] == s[..n][..i];
  }

  lemma OpenPrefix(q: Quote, s: string, n: nat)
    requires Open(q, s) && n <= |s|
    ensures Open(q, s[..n])
  {
    forall i | 0 <= i < n ensures !(s[..n][i] == '\n' && QuoteScan(q, s[..n][..i]) == Outside) {
      assert s[..n][..i] == s[..i];
    }
  }

  lemma {:induction false} QuoteScanConcat(q: Quote, a: string, b: string)
    ensures QuoteScan(q, a + b) == QuoteScan(QuoteScan(q, a), b)
    decreases |b|
  {
    if b == "" {
      assert a + b == a;
    } else {
      QuoteScanConcat(q, a, b[..|b| - 1]);
      assert (a + b)[..|a + b| - 1] == a + b[..|b| - 1];
    }
  }

  lemma {:induction false} DecodeOpenSkip(d: Decoder, s: string)
    requires d.mode.Skip? && Open(d.mode.quote, s)
    ensures Decode(d, s) == d.(mode := Skip(d.mode.size, QuoteScan(d.mode.quote, s)))
    decreases |s|
  {
    if s != "" {
      OpenPrefix(d.mode.quote, s, |s| - 1);
      DecodeOpenSkip(d, s[..|s| - 1]);
    }
  }

  lemma {:induction false} DecodeOpenLine(d: Decoder, s: string)
    requires d.mode.Line? && Open(d.mode.q, s)
    ensures Decode(d, s) == d.(mode := Line(d.mode.kind, d.mode.text + s, QuoteScan(d.mode.q, s)))
    decreases |s|
  {
    if s == "" {
      assert d.mode.text + s == d.mode.text;
    } else {
      OpenPrefix(d.mode.q, s, |s| - 1);
      DecodeOpenLine(d, s[..|s| - 1]);
      assert d.mode.text + s[..|s| - 1] + [s[|s| - 1]] == d.mode.text + s;
    }
  }

  /** One more byte, after a prefix whose decoding is known. */
  lemma DecodeStep(d: Decoder, s: string, n: nat)
    requires n < |s|
    ensures Decode(d, s[..n + 1]) == Feed(Decode(d, s[..n]), s[n])
    ensures Decode(d, s) == Decode(Feed(Decode(d, s[..n]), s[n]), s[n + 1..])
  {
    assert s[..n + 1][..n] == s[..n] && s == s[..n + 1] + s[n + 1..];
    DecodeConcat(d, s[..n + 1], s[n + 1..]);
  }

  /** A complete line is acted upon as a whole. */
  lemma DecodeWholeLine(d: Decoder, s: string, e: nat)
    requires d.mode.Line? && d.mode.text == "" && d.mode.q == Outside
    requires e < |s| && s[e] == '\n' && Open(Outside, s[..e]) && QuoteScan(Outside, s[..e]) == Outside
    ensures Decode(d, s) == Decode(EndLine(d, d.mode.kind, s[..e]), s[e + 1..])
  {
    hide OriginOf, Chomp, QuoteScan, Open;
    DecodeOpenLine(d, s[..e]);
    assert "" + s[..e] == s[..e];
    DecodeStep(d, s, e);
  }

  lemma DecodeWholeSkip(d: Decoder, s: string, e: nat)
    requires d.mode.Skip?
    requires e < |s| && s[e] == '\n' && Open(d.mode.quote, s[..e]) && QuoteScan(d.mode.quote, s[..e]) == Outside
    ensures Decode(d, s) == Decode(d.(mode := Body(d.mode.size, d.mode.size)), s[e + 1..])
  {
    DecodeOpenSkip(d, s[..e]);
    DecodeStep(d, s, e);
  }

  lemma FeedDigit(d: Decoder, t: string, c: char)
    requires AllHex(t) && IsHex(c)
    ensures Feed(d.(mode := Size(t, HexValue(t))), c) == d.(mode := Size(t + [c], HexValue(t + [c])))
  {
    assert (t + [c])[..|t|] == t;
  }

  lemma {:induction false} DecodeDigits(d: Decoder, s: string)
    requires d.mode == Size("", 0) && AllHex(s)
    ensures Decode(d, s) == d.(mode := Size(s, HexValue(s)))
    decreases |s|
  {
    if s != "" {
      var t, c := s[..|s| - 1], s[|s| - 1];
      assert AllHex(t) && IsHex(c) && t + [c] == s;
      calc {
        Decode(d, s);
        Feed(Decode(d, t), c);
        { DecodeDigits(d, t); }
        Feed(d.(mode := Size(t, HexValue(t))), c);
        { FeedDigit(d, t, c); }
        d.(mode := Size(s, HexValue(s)));
      }
    }
  }

  /** The decoder after exactly n body bytes. */
  function AfterBody(size: nat, left: nat, n: nat): Mode
    requires n <= left
  {
    if n == left then Line(ChunkEnd(size), "", Outside) else Body(size, left - n)
  }

  lemma {:induction false} DecodeBody(d: Decoder, s: string)
    requires d.mode.Body? && d.mode.left > 0 && |s| <= d.mode.left
    ensures Decode(d, s) == Decoder(AfterBody(d.mode.size, d.mode.left, |s|), d.out + s, d.origin)
    decreases |s|
  {
    if s == "" {
      assert d.out + s == d.out;
    } else {
      DecodeBody(d, s[..|s| - 1]);
      assert d.out + s[..|s| - 1] + [s[|s| - 1]] == d.out + s;
    }
  }

  /** Hex digits are neither quotes nor line feeds. */
  lemma {:induction false} DigitsAreOpen(s: string)
    requires AllHex(s)
    ensures QuoteScan(Outside, s) == Outside && Open(Outside, s)
    decreases |s|
  {
    if s != "" { DigitsAreOpen(s[..|s| - 1]); }
  }

  /**
   A non-zero chunk size may be left in the input and skipped again as if it were part
   of the extension: the decoder ends up in the same state.
   */
  lemma DecodeSizeAsExtension(d: Decoder, s: string, n: nat)
    requires d.mode == Size("", 0) && 0 < n < |s| && AllHex(s[..n]) && !IsHex(s[n]) && HexValue(s[..n]) > 0
    ensures Decode(d, s) == Decode(d.(mode := Skip(Clamp(HexValue(s[..n])), Outside)), s)
  {
    var k := d.(mode := Skip(Clamp(HexValue(s[..n])), Outside));
    DecodeDigits(d, s[..n]);
    DigitsAreOpen(s[..n]);
    DecodeOpenSkip(k, s[..n]);
    DecodeStep(d, s, n);
    DecodeStep(k, s, n);
  }

  /** The byte after a zero size is the first of the extensions of the last chunk. */
  lemma FeedAfterZero(d: Decoder, digits: string, c: char)
    requires digits != "" && !IsHex(c)
    ensures Feed(d.(mode := Size(digits, 0)), c) == Feed(NewLine(d, LastExtension), c)
  {
  }

  lemma DecodeFirst(d: Decoder, s: string)
    requires s != ""
    ensures Decode(d, s) == Decode(Feed(d, s[0]), s[1..])
  {
    assert s[..0] == "";
    DecodeStep(d, s, 0);
  }

  lemma DecodeLastSize(d: Decoder, s: string, n: nat)
    requires d.mode == Size("", 0) && 0 < n < |s| && AllHex(s[..n]) && !IsHex(s[n]) && HexValue(s[..n]) == 0
    ensures Decode(d, s) == Decode(NewLine(d, LastExtension), s[n..])
  {
    hide Decode, Feed, HexValue;
    var k, c, rest := NewLine(d, LastExtension), s[n], s[n + 1..];
    DecodeDigits(d, s[..n]);
    DecodeStep(d, s, n);
    FeedAfterZero(d, s[..n], c);
    assert s[n..][0] == c && s[n..][1..] == rest;
    DecodeFirst(k, s[n..]);
  }

  lemma DecodeNoSize(d: Decoder, s: string)
    requires d.mode == Size("", 0) && 0 < |s| && !IsHex(s[0])
    ensures Decode(d, s) == d.(mode := Bad)
  {
    DecodeStep(d, s, 0);
    DecodeMonotone(d.(mode := Bad), s[1..]);
  }

  // ---------- streams that decode alike however much of them is there ----------

  /** A size that starts here is read alike from every cut, and so is a use-original-body value after it. */
  ghost predicate FixedSize(t: string) {
    var n := HexEnd(t);
    if n == 0 then !StraySize(t)
    else !Prefixed(t) && (n < |t| && HexValue(t[..n]) == 0 ==> FixedOrigin(t[n..]))
  }

  /** A use-original-body value of nothing but white space is not followed, past the line end, by a number. */
  ghost predicate FixedOrigin(t: string) {
    var e := LineEnd(Outside, t);
    e < |t| ==>
      match ValueAt(Chomp(t[..e]), 0)
      case None => true
      case Some(v) => AllSpace(Chomp(t[..e])[v..]) ==> !StrayOrigin(t[v..])
  }

  ghost predicate Fixed(d: Decoder, t: string) {
    && (d.mode == Size("", 0) ==> FixedSize(t))
    && (d.mode == Line(LastExtension, "", Outside) ==> FixedOrigin(t))
  }

  /** Nothing in s is read differently when less of s is there. */
  ghost predicate Tidy(d: Decoder, s: string) {
    forall n :: 0 <= n <= |s| ==> Fixed(Decode(d, s[..n]), s[n..])
  }

  lemma FixedOriginPrefix(t: string, more: string)
    requires FixedOrigin(t + more)
    ensures FixedOrigin(t)
  {
    hide LineEnd, ValueAt, Chomp, StrayOrigin;
    var e := LineEnd(Outside, t);
    if e < |t| {
      LineEndStays(Outside, t, more);
      assert (t + more)[..e] == t[..e];
      ChompIsFront(t, e);
      match ValueAt(Chomp(t[..e]), 0)
      case None =>
      case Some(v) =>
        assert (t + more)[v..] == t[v..] + more;
        StrayOriginStays(t[v..], more);
    }
  }

  lemma NoStrayInNothing()
    ensures !StraySize("")
  {
  }

  lemma FixedSizePrefix(t: string, more: string)
    requires FixedSize(t + more)
    ensures FixedSize(t)
  {
    hide HexValue, FixedOrigin, StraySize;
    var n := HexEnd(t);
    if t == "" {
      assert !StraySize("") by { NoStrayInNothing(); }
    } else if n < |t| {
      RunEndStays(t, IsHex, more);
      if n == 0 {
        StraySizeStays(t, more);
      } else {
        assert (t + more)[..n] == t[..n] && (t + more)[n..] == t[n..] + more;
        if HexValue(t[..n]) == 0 { FixedOriginPrefix(t[n..], more); }
      }
    }
  }

  lemma FixedPrefix(d: Decoder, t: string, more: string)
    requires Fixed(d, t + more)
    ensures Fixed(d, t)
  {
    hide FixedSize, FixedOrigin;
    if d.mode == Size("", 0) { FixedSizePrefix(t, more); }
    if d.mode == Line(LastExtension, "", Outside) { FixedOriginPrefix(t, more); }
  }

  lemma NothingIsFixed(d: Decoder)
    ensures Fixed(d, "")
  {
  }

  lemma TidyPrefix(d: Decoder, s: string, more: string)
    requires Tidy(d, s + more)
    ensures Tidy(d, s)
  {
    hide Decode, Fixed;
    forall n | 0 <= n <= |s| ensures Fixed(Decode(d, s[..n]), s[n..]) {
      assert (s + more)[..n] == s[..n] && (s + more)[n..] == s[n..] + more;
      FixedPrefix(Decode(d, s[..n]), s[n..], more);
    }
  }

  /** What is tidy stays so after its first part was decoded. */
  lemma TidyRest(d: Decoder, a: string, b: string)
    requires Tidy(d, a + b)
    ensures Tidy(Decode(d, a), b)
  {
    hide Decode, Fixed;
    forall n | 0 <= n <= |b| ensures Fixed(Decode(Decode(d, a), b[..n]), b[n..]) {
      DecodeConcat(d, a, b[..n]);
      assert (a + b)[..|a| + n] == a + b[..n] && (a + b)[|a| + n..] == b[n..];
    }
  }

  /** Output already produced does not matter to tidiness. */
  lemma TidyOut(d: Decoder, x: string, s: string)
    ensures Tidy(d.(out := x + d.out), s) <==> Tidy(d, s)
  {
    hide Decode, FixedSize, FixedOrigin;
    forall n | 0 <= n <= |s| ensures Fixed(Decode(d.(out := x + d.out), s[..n]), s[n..]) <==> Fixed(Decode(d, s[..n]), s[n..]) {
      DecodePrepend(d, x, s[..n]);
    }
  }

  /** Nothing is read at once where neither a size nor the last chunk's extensions start. */
  predicate Free(m: Mode) { m != Size("", 0) && m != Line(LastExtension, "", Outside) }

  lemma TidyThrough(d: Decoder, a: string, b: string)
    requires forall n :: 0 <= n < |a| ==> Free(Decode(d, a[..n]).mode) || (n == 0 && Fixed(d, a + b))
    requires Tidy(Decode(d, a), b)
    ensures Tidy(d, a + b)
  {
    hide Decode, FixedSize, FixedOrigin;
    forall n | 0 <= n <= |a + b| ensures Fixed(Decode(d, (a + b)[..n]), (a + b)[n..]) {
      if n < |a| {
        assert (a + b)[..n] == a[..n];
        if n == 0 {
          DecodeNothing(d);
          assert (a + b)[..0] == "" && (a + b)[0..] == a + b;
        }
      } else {
        var k := n - |a|;
        DecodeConcat(d, a, b[..k]);
        assert (a + b)[..n] == a + b[..k] && (a + b)[n..] == b[k..];
      }
    }
  }

  /** A size that is skipped again as part of the extension does not matter either. */
  lemma TidySizeAsExtension(d: Decoder, s: string, n: nat)
    requires d.mode == Size("", 0) && 0 < n < |s| && AllHex(s[..n]) && !IsHex(s[n]) && HexValue(s[..n]) > 0
    requires Tidy(d, s)
    ensures Tidy(d.(mode := Skip(Clamp(HexValue(s[..n])), Outside)), s)
  {
    hide Decode, FixedSize, FixedOrigin, HexValue;
    var k := d.(mode := Skip(Clamp(HexValue(s[..n])), Outside));
    forall m | 0 <= m <= |s| ensures Fixed(Decode(k, s[..m]), s[m..]) {
      if m <= n {
        assert AllHex(s[..m]) by { assert forall i :: 0 <= i < m ==> s[..m][i] == s[..n][i]; }
        DigitsAreOpen(s[..m]);
        DecodeOpenSkip(k, s[..m]);
      } else {
        assert s[..m][..n] == s[..n];
        DecodeSizeAsExtension(d, s[..m], n);
      }
    }
  }

  lemma TidyLastSize(d: Decoder, s: string, n: nat)
    requires d.mode == Size("", 0) && 0 < n < |s| && n == HexEnd(s) && AllHex(s[..n]) && HexValue(s[..n]) == 0
    requires Tidy(d, s)
    ensures Tidy(NewLine(d, LastExtension), s[n..])
  {
    hide Decode, HexValue, Fixed;
    var k := NewLine(d, LastExtension);
    forall m | 0 <= m <= |s[n..]| ensures Fixed(Decode(k, s[n..][..m]), s[n..][m..]) {
      if m == 0 {
        TidyStart(d, s);
        LastIsFixed(d, s, n);
        DecodeNothing(k);
        assert s[n..][..0] == "" && s[n..][0..] == s[n..];
      } else {
        var t := s[..n + m];
        assert t[..n] == s[..n] && t[n..] == s[n..][..m] && s[n..][m..] == s[n + m..];
        DecodeLastSize(d, t, n);
      }
    }
  }

  /** The other way round, from the extension to the size. */
  lemma TidyFromExtension(d: Decoder, s: string, n: nat)
    requires d.mode == Size("", 0) && 0 < n < |s| && AllHex(s[..n]) && !IsHex(s[n]) && Fixed(d, s)
    requires var v := HexValue(s[..n]);
             if v > 0 then Tidy(d.(mode := Skip(Clamp(v), Outside)), s) else Tidy(NewLine(d, LastExtension), s[n..])
    ensures Tidy(d, s)
  {
    hide Decode, FixedSize, FixedOrigin, HexValue;
    forall m | 0 <= m <= |s| ensures Fixed(Decode(d, s[..m]), s[m..]) {
      var t := s[..m];
      if m == 0 {
        DecodeNothing(d);
        assert t == "" && s[m..] == s;
      } else if m <= n {
        assert AllHex(t) by { assert forall i :: 0 <= i < m ==> t[i] == s[..n][i]; }
        DecodeDigits(d, t);
      } else {
        assert t[..n] == s[..n];
        if HexValue(s[..n]) > 0 {
          DecodeSizeAsExtension(d, t, n);
        } else {
          DecodeLastSize(d, t, n);
          assert t[n..] == s[n..][..m - n] && s[m..] == s[n..][m - n..];
        }
      }
    }
  }

  /** Past the last chunk nothing is read at once. */
  lemma {:induction false} TrailerIsFree(d: Decoder, s: string)
    requires d.mode.Done? || (d.mode.Line? && d.mode.kind == TrailerField)
    ensures var m := Decode(d, s).mode; m.Done? || (m.Line? && m.kind == TrailerField)
    decreases |s|
  {
    hide Chomp;
    if s != "" { TrailerIsFree(d, s[..|s| - 1]); }
  }

  lemma TrailerIsTidy(d: Decoder, s: string)
    requires d.mode.Done? || (d.mode.Line? && d.mode.kind == TrailerField)
    ensures Tidy(d, s)
  {
    hide Decode, FixedSize, FixedOrigin;
    forall n | 0 <= n <= |s| ensures Fixed(Decode(d, s[..n]), s[n..]) { TrailerIsFree(d, s[..n]); }
  }

  lemma LastIsFixed(d: Decoder, s: string, n: nat)
    requires d.mode == Size("", 0) && 0 < n < |s| && n == HexEnd(s) && AllHex(s[..n]) && HexValue(s[..n]) == 0
    requires Fixed(d, s)
    ensures Fixed(NewLine(d, LastExtension), s[n..])
  {
    hide FixedOrigin, HexValue;
  }

  lemma TidyStart(d: Decoder, s: string)
    requires Tidy(d, s)
    ensures Fixed(d, s)
  {
    hide Decode, Fixed;
    DecodeNothing(d);
    assert s[..0] == "" && s[0..] == s;
  }

  lemma DecodeNothing(d: Decoder)
    ensures Decode(d, "") == d
  {
  }

  /** The use-original-body value is read alike with or without what follows the line. */
  lemma OriginStays(t: string, e: nat)
    requires e == LineEnd(Outside, t) < |t| && FixedOrigin(t)
    ensures OriginBody(t, |Chomp(t[..e])|, -1) == OriginOf(Chomp(t[..e]), -1)
  {
    hide LineEnd, ValueAt, Chomp, StrayOrigin, ReadDec;
    var ext := Chomp(t[..e]);
    LineEndIs(Outside, t);
    ChompIsFront(t, e);
    assert t[..|ext|] == ext && ext[..|ext|] == ext;
    match ValueAt(ext, 0)
    case None =>
    case Some(v) =>
      var more := t[|ext|..];
      assert t[v..] == ext[v..] + more;
      assert !IsDec(more[0]) by { ChompStops(t, e); }
      if AllSpace(ext[v..]) {
        ReadDecBlank(ext[v..]);
        assert t[v..][..|t[v..]|] == t[v..];
        NotStrayIsUnset(t[v..], |t[v..]|);
      } else {
        assert SpaceEnd(ext[v..]) < |ext[v..]|;
        ReadDecStays(ext[v..], more);
      }
  }

  lemma ChompIsFront(t: string, e: nat)
    requires e <= |t|
    ensures Chomp(t[..e]) <= t
  {
  }

  /** A line ends where its CRs or its line feed begins. */
  lemma ChompStops(t: string, e: nat)
    requires e < |t| && t[e] == '\n'
    ensures |Chomp(t[..e])| <= e && (t[|Chomp(t[..e])|] == '\n' || t[|Chomp(t[..e])|] == '\r')
    ensures forall i :: |Chomp(t[..e])| <= i <= e ==> IsSpace(t[i])
  {
    CrsAreCrs(t[..e]);
  }

  lemma {:induction false} CrsAreCrs(s: string)
    ensures forall i :: |s| - TrailingCrs(s) <= i < |s| ==> s[i] == '\r'
    decreases |s|
  {
    if s != "" && s[|s| - 1] == '\r' { CrsAreCrs(s[..|s| - 1]); }
  }
}
