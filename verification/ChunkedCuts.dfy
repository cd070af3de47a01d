/**
 How a stream is cut into calls of parse() does not matter exactly when the stream is tidy.  For any
 other stream there are two runs that disagree.
 */
module ChunkedCuts {
  import opened Collections
  import opened ChunkedNumbers
  import opened ChunkedReference
  import opened ChunkedSteps
  import opened ChunkedRuns

  /** An error found in one run is found in the other, and runs over the same bytes agree on everything. */
  ghost predicate Agree(r1: seq<Event>, r2: seq<Event>) {
    && (Thrown(r1) ==> Thrown(r2) && Output(r1) == Output(r2))
    && (Stream(r1) == Stream(r2) ==>
          && Output(r1) == Output(r2) && (Thrown(r1) <==> Thrown(r2)) && (!Thrown(r1) ==> Last(r1) == Last(r2)))
  }

  /** All runs over the stream and its beginnings that do not wait for space agree. */
  ghost predicate CutsDoNotMatter(s: string) {
    forall r1, r2 :: IsRun(r1) && IsRun(r2) && Settled(r1) && Settled(r2) && Stream(r1) <= Stream(r2) <= s ==> Agree(r1, r2)
  }

  lemma TidyRunsAgree(s: string, r1: seq<Event>, r2: seq<Event>)
    requires TidyStream(s)
    requires IsRun(r1) && IsRun(r2) && Settled(r1) && Settled(r2) && Stream(r1) <= Stream(r2) <= s
    ensures Agree(r1, r2)
  {
    hide Tidy, IsRun, Settled;
    assert Stream(r2) + s[|Stream(r2)|..] == s;
    TidyPrefix(START, Stream(r2), s[|Stream(r2)|..]);
    if Thrown(r1) { ErrorsAreFinal(r1, r2); }
    if Stream(r1) == Stream(r2) { SplitInvariance(r1, r2); }
  }

  // ---------- making runs ----------

  /** What a parser in state p does with these bytes and all the space it can use. */
  function Result(p: Snapshot, bytes: string): Outcome
    requires p.Valid()
  {
    ParseCall(p.(input := p.input + bytes), |p.input + bytes| + 1)
  }

  /** One more call, with all the space it can use. */
  function Call(run: seq<Event>, bytes: string): seq<Event>
    requires Last(run).Valid()
  {
    var o := Result(Last(run), bytes);
    run + [Event(bytes, |Last(run).input + bytes| + 1, o.emitted, o.post, o.thrown)]
  }

  lemma CallIsRun(run: seq<Event>, bytes: string)
    requires IsRun(run) && !Thrown(run) && Last(run).Valid()
    ensures var r, o := Call(run, bytes), Result(Last(run), bytes);
            && IsRun(r) && Settled(r) && Stream(r) == Stream(run) + bytes && Output(r) == Output(run) + o.emitted
            && Thrown(r) == o.thrown && Last(r) == o.post && (!o.thrown ==> Last(r).Valid())
  {
    hide ParseCall, IsRun, Stream, Output;
    var r := Call(run, bytes);
    OneMore(run, r[|r| - 1]);
    CallRests(Last(run).(input := Last(run).input + bytes), |Last(run).input + bytes| + 1);
    AmpleSpaceSettles(r);
  }

  /** Where a tidy beginning of a stream has come to a chunk size, a parser that was given just that is like new. */
  lemma FreshRun(a: string) returns (r: seq<Event>)
    requires TidyStream(a) && Decode(START, a).mode == Size("", 0)
    ensures IsRun(r) && Stream(r) == a && !Thrown(r) && Last(r) == FRESH
  {
    hide Decode, Tidy, ParseCall;
    r := Call([], a);
    CallIsRun([], a);
    assert Stream([]) + a == a;
    RunRefinesAll(r);
    QuiescentFuture(Last(r));
  }

  // ---------- a size after white space or a sign ----------

  lemma NoNumber(c: char)
    requires !IsHex(c)
    ensures ReadHex([c]) == None && HexEnd([c]) == 0
  {
    assert [c][1..] == "" && [c][0..] == [c];
  }

  lemma BodyEmits(p: Snapshot, space: nat)
    requires p.Valid() && p.step == PsChunkBody && space > |p.input|
    ensures var r := ParseFrom(p, space, false); r.thrown ==> r.emitted != ""
  {
    hide ParseFrom;
    StepThenRest(p, space);
    var o := StepOf(p, space);
    if p.input == "" { StopsThere(o.post, space, true); }
  }

  /** Past a chunk size nothing is wrong before some bytes were emitted. */
  lemma SkipEmits(p: Snapshot, space: nat)
    requires p.Valid() && p.step == PsUnusedChunkExtension && space > |p.input|
    ensures var r := ParseFrom(p, space, false); r.thrown ==> r.emitted != ""
  {
    hide ParseFrom, LineEnd, QuoteScan;
    StepThenRest(p, space);
    var o := StepOf(p, space);
    if o.starved { StopsThere(o.post, space, true); } else { BodyEmits(o.post, space); }
  }

  lemma NonDigitThrows(c: char)
    requires !IsHex(c)
    ensures Result(FRESH, [c]).thrown && Result(FRESH, [c]).emitted == ""
  {
    hide ParseFrom, ReadHex;
    NoNumber(c);
    assert "" + [c] == [c];
    StepThenRest(FRESH.(input := [c]), 2);
  }

  /** A parser that sees a stray size up to its first digit takes it. */
  lemma StrayIsTaken(t: string)
    requires HexEnd(t) == 0 && StraySize(t)
    ensures var o := Result(FRESH, t[..NumberStart(t) + 1]); o.thrown ==> o.emitted != ""
  {
    hide ParseFrom, ReadHex, StraySize, LineEnd, QuoteScan, NumberStart;
    StrayStart(t);
    StrayIsSize(t);
    var g := NumberStart(t);
    var w := t[..g + 1];
    var p := FRESH.(input := w);
    assert "" + w == w;
    RunEndIs(w, IsHex, 0);
    StepThenRest(p, g + 2);
    var q := SizeStep(p).post;
    if Digit(t[g]) > 0 {
      SkipEmits(q, g + 2);
    } else {
      assert q.input == "";
      EndlessStarves(q, g + 2);
    }
  }

  lemma StrayStart(t: string)
    requires HexEnd(t) == 0 && StraySize(t)
    ensures t != "" && !IsHex(t[0]) && 0 < NumberStart(t) < |t| && IsHex(t[NumberStart(t)])
  {
  }

  /** No line feed, no end of the last chunk's extensions. */
  lemma EndlessStarves(p: Snapshot, space: nat)
    requires p.Valid() && p.step == PsLastChunkExtension && LineEnd(Outside, p.input) == |p.input|
    ensures ParseFrom(p, space, false) == Outcome(p, "", false, true)
  {
    hide ParseFrom, LineEnd;
    StepThenRest(p, space);
    StopsThere(p, space, true);
  }

  lemma StrayDisagrees(r: seq<Event>, t: string) returns (r1: seq<Event>, r2: seq<Event>)
    requires IsRun(r) && !Thrown(r) && Last(r) == FRESH
    requires HexEnd(t) == 0 && StraySize(t)
    ensures IsRun(r1) && IsRun(r2) && Settled(r1) && Settled(r2) && Stream(r1) <= Stream(r2) <= Stream(r) + t
    ensures !Agree(r1, r2)
  {
    hide Result, Call, StraySize, HexEnd, NumberStart, Stream, Output, Settled, IsRun;
    StrayStart(t);
    StrayIsTaken(t);
    NonDigitThrows(t[0]);
    var w := t[..NumberStart(t) + 1];
    assert t[..1] == [t[0]];
    r1, r2 := Call(r, t[..1]), Call(r, w);
    CallIsRun(r, t[..1]);
    CallIsRun(r, w);
    assert w[..1] == t[..1];
  }

  // ---------- a size after 0x ----------

  /** A zero and what cannot be a digit after it: the last chunk. */
  lemma ZeroIsLast(t: string, space: nat)
    requires 0 < HexEnd(t) < |t| && !Prefixed(t) && HexValue(t[..HexEnd(t)]) == 0
    ensures ParseFrom(FRESH.(input := t), space, false) ==
            ParseFrom(FRESH.(step := PsLastChunkExtension, input := t[HexEnd(t)..]), space, false)
  {
    hide ParseFrom, ReadHex, HexEnd, HexValue;
    ReadHexPlain(t);
    var p := FRESH.(input := t);
    StepThenRest(p, space);
    var q := p.(step := PsLastChunkExtension, input := t[HexEnd(t)..]);
    assert SizeStep(p) == Goes(q);
    EmitNothing(ParseFrom(q, space, false));
  }

  lemma EmitNothing(o: Outcome)
    ensures o.(emitted := "" + o.emitted) == o
  {
  }

  /** Cut after the x, the size is zero; the digit that follows is taken for extension text. */
  lemma CutPrefix(t: string)
    requires Prefixed(t)
    ensures Result(FRESH, t[..2]) == Starves(FRESH.(step := PsLastChunkExtension, input := t[1..2]))
    ensures Result(FRESH.(step := PsLastChunkExtension, input := t[1..2]), t[2..3]) ==
            Starves(FRESH.(step := PsLastChunkExtension, input := t[1..3]))
  {
    hide ParseFrom, HexValue;
    var w, q := t[..2], FRESH.(step := PsLastChunkExtension, input := t[1..2]);
    assert "" + w == w && w[1..] == t[1..2] && w[..1] == "0" && t[1..2] + t[2..3] == t[1..3];
    OneDigit('0');
    RunEndIs(w, IsHex, 1);
    ZeroIsLast(w, 3);
    NoLineFeed(t[1..2]);
    EndlessStarves(q, 3);
    NoLineFeed(t[1..3]);
    EndlessStarves(q.(input := t[1..3]), 3);
  }

  lemma NoLineFeed(s: string)
    requires forall i :: 0 <= i < |s| ==> s[i] != '\n'
    ensures forall q :: LineEnd(q, s) == |s|
  {
    assert s[..|s|] == s;
    forall q ensures LineEnd(q, s) == |s| { FirstEnd(q, s, |s|); }
  }

  lemma SkipStarves(p: Snapshot, space: nat)
    requires p.Valid() && p.step == PsUnusedChunkExtension && LineEnd(p.quote, p.input) == |p.input|
    ensures var o := ParseFrom(p, space, false); !o.thrown && o.post.step == PsUnusedChunkExtension
  {
    hide ParseFrom, LineEnd, QuoteScan;
    StepThenRest(p, space);
    StopsThere(SkipStep(p).post, space, true);
  }

  /** Seen whole, it is a size. */
  lemma WholePrefix(t: string)
    requires Prefixed(t)
    ensures var o := Result(FRESH, t[..3]); !o.thrown && (o.post.step == PsLastChunkExtension ==> o.post.input == "")
  {
    hide ParseFrom, LineEnd, ReadHex, HexEnd;
    var w := t[..3];
    var p := FRESH.(input := w);
    assert "" + w == w;
    PrefixedSize(w);
    EndOfOne(w);
    StepThenRest(p, 4);
    var q := SizeStep(p).post;
    NoLineFeed(w);
    if Digit(w[2]) > 0 {
      SkipStarves(q, 4);
    } else {
      assert q.input == "";
      EndlessStarves(q, 4);
    }
  }

  lemma EndOfOne(w: string)
    requires |w| > 1 && IsHex(w[0]) && !IsHex(w[1])
    ensures HexEnd(w) == 1
  {
    RunEndIs(w, IsHex, 1);
  }

  lemma PrefixedSize(w: string)
    requires Prefixed(w) && |w| == 3
    ensures ReadHex(w) == Some(Number(Digit(w[2]), 3))
  {
    assert w[0..] == w && w[2..] == [w[2]] && [w[2]][..1] == [w[2]];
    OneDigit(w[2]);
    RunEndIs(w, IsSpace, 0);
    RunEndIs([w[2]], IsHex, 1);
  }

  lemma PrefixIsLong(t: string)
    requires Prefixed(t)
    ensures |t| > 2
  {
  }

  lemma PrefixDisagrees(r: seq<Event>, t: string) returns (r1: seq<Event>, r2: seq<Event>)
    requires IsRun(r) && !Thrown(r) && Last(r) == FRESH && Prefixed(t)
    ensures IsRun(r1) && IsRun(r2) && Settled(r1) && Settled(r2) && Stream(r1) <= Stream(r2) <= Stream(r) + t
    ensures !Agree(r1, r2)
  {
    hide Result, Call, Prefixed, Stream, Output, Settled, IsRun;
    PrefixIsLong(t);
    CutPrefix(t);
    WholePrefix(t);
    var r0 := Call(r, t[..2]);
    CallIsRun(r, t[..2]);
    r1, r2 := Call(r0, t[2..3]), Call(r, t[..3]);
    CallIsRun(r0, t[2..3]);
    CallIsRun(r, t[..3]);
    assert Stream(r) + t[..2] + t[2..3] == Stream(r) + t[..3];
  }

  // ---------- a number past the line of a blank use-original-body ----------

  /** Trailer lines are neither wrong nor do they change use-original-body. */
  lemma {:induction false} TrailerRests(p: Snapshot, space: nat, starved: bool)
    requires p.Valid() && (p.step == PsTrailer || p.step == PsMessageEnd)
    ensures var o := ParseFrom(p, space, starved);
            !o.thrown && o.emitted == "" && o.post.origin == p.origin && (o.post.step == PsTrailer || o.post.step == PsMessageEnd)
    decreases |p.input|, !starved
  {
    hide LineEnd, Chomp;
    if !Stops(p, space, starved) {
      StepIsSound(p, space);
      var o := StepOf(p, space);
      TrailerRests(o.post, space, o.starved);
    }
  }

  /** The line of the last chunk's extensions, with whatever follows it so far. */
  lemma LastLine(u: string, space: nat)
    requires LineEnd(Outside, u) < |u|
    ensures var e := LineEnd(Outside, u);
            var o := ParseFrom(FRESH.(step := PsLastChunkExtension, input := u), space, false);
            && !o.thrown && o.emitted == "" && (o.post.step == PsTrailer || o.post.step == PsMessageEnd) && o.post.Valid()
            && o.post.origin == OriginBody(u, |Chomp(u[..e])|, -1)
  {
    hide ParseFrom, LineEnd, Chomp, OriginBody;
    var p := FRESH.(step := PsLastChunkExtension, input := u);
    StepThenRest(p, space);
    var q := LastStep(p).post;
    TrailerRests(q, space, false);
    ParseRests(q, space, false);
  }

  /** Bytes after the one that ends the size do not matter to it. */
  lemma ShorterSize(t: string, m: nat)
    requires HexEnd(t) < m <= |t|
    ensures HexEnd(t[..m]) == HexEnd(t) && (Prefixed(t[..m]) ==> Prefixed(t))
  {
    RunEndIs(t[..m], IsHex, HexEnd(t));
  }

  lemma ShorterLine(u: string, k: nat)
    requires LineEnd(Outside, u) < k <= |u|
    ensures LineEnd(Outside, u[..k]) == LineEnd(Outside, u) && u[..k][..LineEnd(Outside, u)] == u[..LineEnd(Outside, u)]
  {
    hide Open, QuoteScan, LineEnd;
    var e := LineEnd(Outside, u);
    LineEndIs(Outside, u);
    assert u[..k][..e] == u[..e];
    FirstEnd(Outside, u[..k], e);
  }

  /** A zero size, a blank value and a stray number, cut at m after the line end. */
  lemma BlankResult(t: string, m: nat)
    requires 0 < HexEnd(t) < |t| && !Prefixed(t) && HexValue(t[..HexEnd(t)]) == 0
    requires var e := LineEnd(Outside, t[HexEnd(t)..]); HexEnd(t) + e < m <= |t|
    ensures var h := HexEnd(t);
            var e, o := LineEnd(Outside, t[h..]), Result(FRESH, t[..m]);
            && !o.thrown && o.emitted == "" && (o.post.step == PsTrailer || o.post.step == PsMessageEnd) && o.post.Valid()
            && o.post.origin == OriginBody(t[h..m], |Chomp(t[h..][..e])|, -1)
  {
    hide Result, ParseFrom, LineEnd, Chomp, OriginBody, HexEnd, HexValue, Prefixed;
    var h, w := HexEnd(t), t[..m];
    assert w[..h] == t[..h] && w[h..] == t[h..m] == t[h..][..m - h];
    ShorterSize(t, m);
    FreshResult(w);
    ZeroIsLast(w, |w| + 1);
    ShorterLine(t[h..], m - h);
    LastLine(w[h..], |w| + 1);
  }

  lemma FreshResult(w: string)
    requires w != ""
    ensures Result(FRESH, w) == ParseFrom(FRESH.(input := w), |w| + 1, false)
  {
    hide ParseFrom;
    assert "" + w == w;
  }

  /** The value is unset at the line end, and a number once the stray digits are there. */
  lemma BlankOrigins(u: string, v: nat)
    requires LineEnd(Outside, u) < |u|
    requires var ext := Chomp(u[..LineEnd(Outside, u)]); ValueAt(ext, 0) == Some(v) && v < |ext| <= |u| && AllSpace(ext[v..])
    requires StrayOrigin(u[v..])
    ensures var e := LineEnd(Outside, u);
            var n, m := |Chomp(u[..e])|, v + StrayCut(u[v..]);
            && n <= e && e + 1 < m <= |u|
            && OriginBody(u[..e + 1], n, -1) == -1 && OriginBody(u[..m], n, -1) != -1
  {
    hide LineEnd, ValueAt, ReadDec, StrayOrigin, StrayCut, Chomp;
    var e := LineEnd(Outside, u);
    var ext, x := Chomp(u[..e]), u[v..];
    LineEndIs(Outside, u);
    ChompStops(u, e);
    ChompIsFront(u, e);
    forall i | v <= i <= e ensures IsSpace(u[i]) {
      if i < |ext| { assert ext[v..][i - v] == u[i]; }
    }
    assert AllSpace(u[..e + 1][v..]);
    ReadDecBlank(u[..e + 1][v..]);
    assert u[..e + 1][..|ext|] == ext;
    StrayIsRead(x);
    StrayIsLate(x, e + 1 - v);
    var m := v + StrayCut(x);
    assert u[..m][..|ext|] == ext && u[..m][v..] == x[..StrayCut(x)];
  }

  lemma StrayIsLate(x: string, k: nat)
    requires StrayOrigin(x) && k <= |x| && AllSpace(x[..k])
    ensures k < StrayCut(x)
  {
    assert forall i :: 0 <= i < k ==> IsSpace(x[..k][i]);
  }

  lemma BlankDisagrees(r: seq<Event>, t: string) returns (r1: seq<Event>, r2: seq<Event>)
    requires IsRun(r) && !Thrown(r) && Last(r) == FRESH
    requires 0 < HexEnd(t) < |t| && !Prefixed(t) && HexValue(t[..HexEnd(t)]) == 0 && !FixedOrigin(t[HexEnd(t)..])
    ensures IsRun(r1) && IsRun(r2) && Settled(r1) && Settled(r2) && Stream(r1) <= Stream(r2) <= Stream(r) + t
    ensures !Agree(r1, r2)
  {
    hide Result, Call, Stream, Output, Prefixed, Settled, IsRun, HexValue, LineEnd, Chomp, OriginBody, ValueAt, StrayCut, StrayOrigin, HexEnd;
    var h := HexEnd(t);
    var u := t[h..];
    var e := LineEnd(Outside, u);
    var v := ValueAt(Chomp(u[..e]), 0).value;
    ChompIsFront(u, e);
    BlankOrigins(u, v);
    var m := v + StrayCut(u[v..]);
    var a, b := t[..h + e + 1], t[h + e + 1..h + m];
    BlankResult(t, h + e + 1);
    BlankResult(t, h + m);
    assert t[h..h + e + 1] == u[..e + 1] && t[h..h + m] == u[..m] && t[..h + m] == a + b;
    var r0 := Call(r, a);
    CallIsRun(r, a);
    r1, r2 := Call(r0, b), Call(r, t[..h + m]);
    CallIsRun(r0, b);
    CallIsRun(r, t[..h + m]);
    AfterLastLine(Last(r0), b);
    assert Stream(r) + a + b == Stream(r) + t[..h + m];
  }

  lemma AfterLastLine(p: Snapshot, bytes: string)
    requires p.Valid() && (p.step == PsTrailer || p.step == PsMessageEnd)
    ensures Result(p, bytes).post.origin == p.origin && !Result(p, bytes).thrown
  {
    var q := p.(input := p.input + bytes);
    TrailerRests(q, |q.input| + 1, q.input == "");
  }

  // ---------- the theorem ----------

  /** From the start, the last chunk's extensions begin with a byte that was already fed. */
  lemma {:induction false} NeverBeforeExtensions(s: string)
    ensures Decode(START, s).mode != Line(LastExtension, "", Outside)
    decreases |s|
  {
    hide Chomp, OriginOf;
    if s != "" { NeverBeforeExtensions(s[..|s| - 1]); }
  }

  /** The first place where something is read differently when less of s is there. */
  lemma FirstLoose(s: string) returns (n: nat)
    requires !TidyStream(s)
    ensures n <= |s| && !Fixed(Decode(START, s[..n]), s[n..]) && TidyStream(s[..n])
  {
    hide Decode, FixedSize, FixedOrigin;
    n := 0;
    while n < |s| && Fixed(Decode(START, s[..n]), s[n..])
      invariant n <= |s| && forall k :: 0 <= k < n ==> Fixed(Decode(START, s[..k]), s[k..])
    {
      n := n + 1;
    }
    forall k | 0 <= k <= n ensures Fixed(Decode(START, s[..n][..k]), s[..n][k..]) {
      assert s[..n][..k] == s[..k];
      if k < n {
        assert s[..n][k..] + s[n..] == s[k..];
        FixedPrefix(Decode(START, s[..k]), s[..n][k..], s[n..]);
      } else {
        assert s[..n][k..] == "";
        NothingIsFixed(Decode(START, s[..k]));
      }
    }
  }

  /** A stream that is not tidy can be cut so that two runs disagree. */
  lemma LooseDisagrees(s: string) returns (r1: seq<Event>, r2: seq<Event>)
    requires !TidyStream(s)
    ensures IsRun(r1) && IsRun(r2) && Settled(r1) && Settled(r2) && Stream(r1) <= Stream(r2) <= s && !Agree(r1, r2)
  {
    hide Decode, Tidy, FixedOrigin, IsRun, Settled, Agree, StraySize, Prefixed, HexEnd;
    var n := FirstLoose(s);
    var t := s[n..];
    NeverBeforeExtensions(s[..n]);
    var r := FreshRun(s[..n]);
    assert s[..n] + t == s;
    if HexEnd(t) == 0 {
      r1, r2 := StrayDisagrees(r, t);
    } else if Prefixed(t) {
      r1, r2 := PrefixDisagrees(r, t);
    } else {
      r1, r2 := BlankDisagrees(r, t);
    }
  }

  /**
   Cuts do not matter to a stream, for what is emitted, what is thrown and where the parser stands,
   exactly when no size in it starts with white space, a sign or 0x where a size would be read all
   the same, and no blank use-original-body value is followed by a number.
   */
  lemma CutsDoNotMatterIffTidy(s: string)
    ensures CutsDoNotMatter(s) <==> TidyStream(s)
  {
    hide Tidy, IsRun, Settled, Agree;
    if TidyStream(s) {
      forall r1, r2 | IsRun(r1) && IsRun(r2) && Settled(r1) && Settled(r2) && Stream(r1) <= Stream(r2) <= s ensures Agree(r1, r2) {
        TidyRunsAgree(s, r1, r2);
      }
    } else {
      var r1, r2 := LooseDisagrees(s);
    }
  }

  /** Neither for a size after 0x, nor for one after white space, nor for a number past a blank value. */
  lemma CutsMatterHere()
    ensures !CutsDoNotMatter("0x5") && !CutsDoNotMatter(" 5") && !CutsDoNotMatter("0;use-original-body= \n5")
  {
    hide CutsDoNotMatter, Decode, FixedOrigin, HexValue;
    PrefixIsLoose();
    SpaceIsLoose();
    BlankIsLoose();
    CutsDoNotMatterIffTidy("0x5");
    CutsDoNotMatterIffTidy(" 5");
    CutsDoNotMatterIffTidy("0;use-original-body= \n5");
  }

  lemma PrefixIsLoose()
    ensures !TidyStream("0x5")
  {
    hide Tidy;
    EndOfOne("0x5");
    if TidyStream("0x5") { TidyStart(START, "0x5"); }
  }

  lemma SpaceIsLoose()
    ensures !TidyStream(" 5")
  {
    hide Tidy;
    RunEndIs(" 5", IsSpace, 1);
    RunEndIs(" 5", IsHex, 0);
    if TidyStream(" 5") { TidyStart(START, " 5"); }
  }

  lemma BlankIsLoose()
    ensures !TidyStream("0;use-original-body= \n5")
  {
    hide Tidy, FixedOrigin;
    var s := "0;use-original-body= \n5";
    EndOfOne(s);
    assert s[..1] == "0" && s[1..] == ";use-original-body= \n5";
    OneDigit('0');
    BlankIsFollowed();
    if TidyStream(s) { TidyStart(START, s); }
  }

  lemma BlankIsFollowed()
    ensures !FixedOrigin(";use-original-body= \n5")
  {
    hide QuoteScan, LineEnd, Chomp, ValueAt, StrayOrigin;
    var u := ";use-original-body= \n5";
    var ext := ";use-original-body= ";
    assert u[..20] == ext && u[20] == '\n';
    NoQuotes(ext);
    FirstEnd(Outside, u, 20);
    BlankValue();
    assert u[19..] == " \n5";
    StrayAfterBlank();
  }

  lemma BlankValue()
    ensures var ext := ";use-original-body= "; Chomp(ext) == ext && ValueAt(ext, 0) == Some(19) && ext[19..] == " "
  {
    hide ValueAt;
    ValueAfterKey(" ");
    assert ";" + ORIGIN_KEY + " " == ";use-original-body= ";
  }

  lemma StrayAfterBlank()
    ensures StrayOrigin(" \n5")
  {
    RunEndIs(" \n5", IsSpace, 2);
  }

  lemma {:induction false} NoQuotes(s: string)
    requires forall i :: 0 <= i < |s| ==> s[i] != '"' && s[i] != '\n'
    ensures OneLine(s)
    decreases |s|
  {
    if s != "" {
      NoQuotes(s[..|s| - 1]);
      forall i | 0 <= i < |s| ensures !(s[i] == '\n' && QuoteScan(Outside, s[..i]) == Outside) { }
    }
  }
}
