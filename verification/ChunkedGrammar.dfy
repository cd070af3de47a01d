/**
 What a line is, in the terms of section 3.2.6 of RFC 7230: plain characters and quoted strings, in
 which a backslash quotes the next character, line feeds included.
 */
module ChunkedGrammar {
  import opened ChunkedReference

  /** A character outside quotes, or a quoted string: its characters, and which have a backslash before them. */
  datatype Piece = Plain(c: char) | Quoted(v: string, marks: seq<bool>) {
    ghost predicate Ok() {
      match this
      case Plain(c) => c != '"' && c != '\n'
      case Quoted(v, marks) => Marked(v, marks)
    }

    function Text(): string
      requires Quoted? ==> |marks| == |v|
    {
      match this
      case Plain(c) => [c]
      case Quoted(v, marks) => ['"'] + Inner(v, marks) + ['"']
    }
  }

  /** Quotes and backslashes in a quoted string have a backslash before them. */
  ghost predicate Marked(v: string, marks: seq<bool>) {
    |marks| == |v| && forall i :: 0 <= i < |v| && (v[i] == '"' || v[i] == '\\') ==> marks[i]
  }

  function Inner(v: string, marks: seq<bool>): string
    requires |marks| == |v|
  {
    if v == "" then ""
    else
      var n := |v| - 1;
      Inner(v[..n], marks[..n]) + if marks[n] then ['\\', v[n]] else [v[n]]
  }

  ghost predicate AllOk(pieces: seq<Piece>) { forall i :: 0 <= i < |pieces| ==> pieces[i].Ok() }

  function Line(pieces: seq<Piece>): string
    requires forall i :: 0 <= i < |pieces| && pieces[i].Quoted? ==> |pieces[i].marks| == |pieces[i].v|
  {
    if pieces == [] then "" else Line(pieces[..|pieces| - 1]) + pieces[|pieces| - 1].Text()
  }

  /** One more character of a scan without a line feed outside quotes. */
  lemma ScanSnoc(q: Quote, s: string, c: char)
    ensures QuoteScan(q, s + [c]) == QuoteNext(QuoteScan(q, s), c)
    ensures Open(q, s + [c]) <==> Open(q, s) && !(c == '\n' && QuoteScan(q, s) == Outside)
  {
    hide QuoteScan;
    var t := s + [c];
    assert t[..|s|] == s;
    QuoteScanLast(q, t);
    forall i | 0 <= i < |s| ensures t[..i] == s[..i] { }
    if Open(q, t) {
      assert t[|s|] == c;
      forall i | 0 <= i < |s| ensures !(s[i] == '\n' && QuoteScan(q, s[..i]) == Outside) { assert t[i] == s[i]; }
    }
  }

  lemma QuoteScanLast(q: Quote, t: string)
    requires t != ""
    ensures QuoteScan(q, t) == QuoteNext(QuoteScan(q, t[..|t| - 1]), t[|t| - 1])
  {
  }

  lemma {:induction false} InnerScan(front: string, v: string, marks: seq<bool>)
    requires QuoteScan(Outside, front) == Inside && Open(Outside, front) && Marked(v, marks)
    ensures QuoteScan(Outside, front + Inner(v, marks)) == Inside && Open(Outside, front + Inner(v, marks))
    decreases |v|
  {
    hide QuoteScan, Open;
    if v == "" {
      assert front + Inner(v, marks) == front;
    } else {
      var n := |v| - 1;
      InnerScan(front, v[..n], marks[..n]);
      var s := front + Inner(v[..n], marks[..n]);
      if marks[n] {
        ScanSnoc(Outside, s, '\\');
        ScanSnoc(Outside, s + ['\\'], v[n]);
        assert front + Inner(v, marks) == s + ['\\'] + [v[n]];
      } else {
        ScanSnoc(Outside, s, v[n]);
        assert front + Inner(v, marks) == s + [v[n]];
      }
    }
  }

  lemma PieceScan(s: string, p: Piece)
    requires OneLine(s) && p.Ok()
    ensures OneLine(s + p.Text())
  {
    hide QuoteScan, Open;
    match p
    case Plain(c) => ScanSnoc(Outside, s, c);
    case Quoted(v, marks) =>
      ScanSnoc(Outside, s, '"');
      InnerScan(s + ['"'], v, marks);
      ScanSnoc(Outside, s + ['"'] + Inner(v, marks), '"');
      assert s + p.Text() == s + ['"'] + Inner(v, marks) + ['"'];
  }

  lemma {:induction false} PiecesAreOneLine(pieces: seq<Piece>)
    requires AllOk(pieces)
    ensures OneLine(Line(pieces))
    decreases |pieces|
  {
    if pieces != [] {
      var front := pieces[..|pieces| - 1];
      PiecesAreOneLine(front);
      PieceScan(Line(front), pieces[|pieces| - 1]);
    }
  }

  /** A scan that has come to a state: finished pieces, and the quoted string that is still open. */
  ghost predicate ScannedAs(s: string, q: Quote, pieces: seq<Piece>, v: string, marks: seq<bool>) {
    && AllOk(pieces) && Marked(v, marks)
    && s == match q
            case Outside => Line(pieces)
            case Inside => Line(pieces) + ['"'] + Inner(v, marks)
            case Escaped => Line(pieces) + ['"'] + Inner(v, marks) + ['\\']
  }

  lemma OneMorePiece(pieces: seq<Piece>, p: Piece)
    requires AllOk(pieces) && p.Ok()
    ensures AllOk(pieces + [p]) && Line(pieces + [p]) == Line(pieces) + p.Text()
  {
    assert (pieces + [p])[..|pieces|] == pieces;
  }

  lemma OneMoreInner(v: string, marks: seq<bool>, c: char, mark: bool)
    requires Marked(v, marks) && (c == '"' || c == '\\' ==> mark)
    ensures Marked(v + [c], marks + [mark])
    ensures Inner(v + [c], marks + [mark]) == Inner(v, marks) + if mark then ['\\', c] else [c]
  {
    assert (v + [c])[..|v|] == v && (marks + [mark])[..|v|] == marks;
  }

  lemma ScanOne(s: string, q: Quote, pieces: seq<Piece>, v: string, marks: seq<bool>, c: char)
    returns (pieces': seq<Piece>, v': string, marks': seq<bool>)
    requires ScannedAs(s, q, pieces, v, marks) && !(q == Outside && c == '\n')
    ensures ScannedAs(s + [c], QuoteNext(q, c), pieces', v', marks')
  {
    hide Line, Inner;
    pieces', v', marks' := pieces, v, marks;
    match q
    case Outside =>
      if c == '"' {
        v', marks' := "", [];
        assert Inner("", []) == "" by { NothingInside(); }
        assert s + [c] == Line(pieces) + ['"'] + "";
      } else {
        OneMorePiece(pieces, Plain(c));
        pieces' := pieces + [Plain(c)];
      }
    case Inside =>
      if c == '"' {
        OneMorePiece(pieces, Quoted(v, marks));
        pieces' := pieces + [Quoted(v, marks)];
        assert s + [c] == Line(pieces) + Quoted(v, marks).Text();
      } else if c != '\\' {
        OneMoreInner(v, marks, c, false);
        v', marks' := v + [c], marks + [false];
        assert s + [c] == Line(pieces) + ['"'] + (Inner(v, marks) + [c]);
      }
    case Escaped =>
      OneMoreInner(v, marks, c, true);
      v', marks' := v + [c], marks + [true];
      assert s + [c] == Line(pieces) + ['"'] + (Inner(v, marks) + ['\\', c]);
  }

  lemma NothingInside()
    ensures Inner("", []) == "" && Line([]) == ""
  {
  }

  lemma {:induction false} Scanned(s: string) returns (pieces: seq<Piece>, v: string, marks: seq<bool>)
    requires Open(Outside, s)
    ensures ScannedAs(s, QuoteScan(Outside, s), pieces, v, marks)
    decreases |s|
  {
    hide Line, Inner, Open;
    if s == "" {
      NothingInside();
      pieces, v, marks := [], "", [];
    } else {
      var front, c := s[..|s| - 1], s[|s| - 1];
      assert front + [c] == s;
      ScanSnoc(Outside, front, c);
      pieces, v, marks := Scanned(front);
      pieces, v, marks := ScanOne(front, QuoteScan(Outside, front), pieces, v, marks, c);
    }
  }

  /** What the scan takes for one line is exactly what consists of plain characters and quoted strings. */
  lemma OneLineIffPieces(s: string)
    ensures OneLine(s) <==> exists pieces :: AllOk(pieces) && s == Line(pieces)
  {
    hide Line, QuoteScan, Open;
    if OneLine(s) {
      var pieces, v, marks := Scanned(s);
      assert AllOk(pieces) && s == Line(pieces);
    }
    forall pieces | AllOk(pieces) && s == Line(pieces) ensures OneLine(s) { PiecesAreOneLine(pieces); }
  }

  /** All the CRs right before a line feed belong to the line end, and nothing else does. */
  lemma {:induction false} ChompForm(text: string, crs: nat)
    requires text == "" || text[|text| - 1] != '\r'
    ensures Chomp(text + seq(crs, _ => '\r')) == text
    decreases crs
  {
    var s := text + seq(crs, _ => '\r');
    if crs == 0 {
      assert s == text && TrailingCrs(text) == 0;
    } else {
      assert s[..|s| - 1] == text + seq(crs - 1, _ => '\r') && s[|s| - 1] == '\r';
      ChompForm(text, crs - 1);
    }
  }
}
