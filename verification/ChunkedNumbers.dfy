/**
 Numbers as StringToInt64 (Parsing.cc) reads them with strtoll from a buffer that is zero-terminated:
 white space, a sign, 0x in front of hex digits, then digits, clamped to 64 bits.
 */
module ChunkedNumbers {
  import opened Collections

  const INT64_MAX: nat := 0x7FFF_FFFF_FFFF_FFFF

  predicate IsHex(c: char) {
    '0' <= c <= '9' || 'a' <= c <= 'f' || 'A' <= c <= 'F'
  }

  predicate IsDec(c: char)
    ensures IsDec(c) ==> IsHex(c)
  {
    '0' <= c <= '9'
  }

  predicate IsSpace(c: char) { c == ' ' || '\t' <= c <= '\r' }

  predicate IsSign(c: char) { c == '+' || c == '-' }

  function Digit(c: char): (d: nat)
    requires IsHex(c)
    ensures d < 16 && (IsDec(c) ==> d < 10)
  {
    if c <= '9' then c as int - '0' as int
    else if c <= 'F' then c as int - 'A' as int + 10
    else c as int - 'a' as int + 10
  }

  ghost predicate AllHex(s: string) { forall i :: 0 <= i < |s| ==> IsHex(s[i]) }

  ghost predicate AllSpace(s: string) { forall i :: 0 <= i < |s| ==> IsSpace(s[i]) }

  function HexValue(s: string): nat
    requires forall i :: 0 <= i < |s| ==> IsHex(s[i])
  {
    if s == "" then 0 else HexValue(s[..|s| - 1]) * 16 + Digit(s[|s| - 1])
  }

  function DecValue(s: string): nat
    requires forall i :: 0 <= i < |s| ==> IsDec(s[i])
  {
    if s == "" then 0 else assert IsDec(s[|s| - 1]); DecValue(s[..|s| - 1]) * 10 + Digit(s[|s| - 1])
  }

  /** A value that fits, or the bound it exceeds. */
  function Clamp(n: nat): (r: nat)
    ensures r <= n && r <= INT64_MAX && (r == n || r == INT64_MAX)
  {
    if n <= INT64_MAX then n else INT64_MAX
  }

  function Signed(negative: bool, n: nat): (r: int)
    ensures n == 0 ==> r == 0
    ensures n > 0 ==> if negative then r < 0 else r > 0
  {
    if !negative then Clamp(n) else -Min(n, INT64_MAX + 1)
  }

  /** Where the bytes of one kind at the front of s end. */
  function RunEnd(s: string, kind: char -> bool): (e: nat)
    ensures e <= |s| && (forall i :: 0 <= i < e ==> kind(s[i])) && (e < |s| ==> !kind(s[e]))
    decreases |s|
  {
    if s != "" && kind(s[0]) then
      var e := RunEnd(s[1..], kind);
      assert forall i :: 1 <= i < e + 1 ==> s[i] == s[1..][i - 1];
      e + 1
    else 0
  }

  function SpaceEnd(s: string): nat { RunEnd(s, IsSpace) }

  function HexEnd(s: string): nat { RunEnd(s, IsHex) }

  function DecEnd(s: string): nat { RunEnd(s, IsDec) }

  /** Where the digits start, after white space and a sign. */
  function NumberStart(s: string): (g: nat)
    ensures g <= |s|
  {
    var b := SpaceEnd(s);
    if b < |s| && IsSign(s[b]) then b + 1 else b
  }

  predicate Negative(s: string) {
    var b := SpaceEnd(s);
    b < |s| && s[b] == '-'
  }

  /** The digits at the front of s come after 0x. */
  predicate Prefixed(s: string) { |s| > 2 && s[0] == '0' && (s[1] == 'x' || s[1] == 'X') && IsHex(s[2]) }

  /** A number and how many bytes were read for it. */
  datatype Number = Number(value: int, used: nat)

  function ReadHex(s: string): (r: Option<Number>)
    ensures r.Some? ==> r.value.used <= |s|
  {
    var g := NumberStart(s);
    var x := if Prefixed(s[g..]) then g + 2 else g;
    var n := HexEnd(s[x..]);
    if n == 0 then None else Some(Number(Signed(Negative(s), HexValue(s[x..][..n])), x + n))
  }

  function ReadDec(s: string): (r: Option<Number>)
    ensures r.Some? ==> r.value.used <= |s|
  {
    var g := NumberStart(s);
    var n := DecEnd(s[g..]);
    if n == 0 then None else Some(Number(Signed(Negative(s), DecValue(s[g..][..n])), g + n))
  }

  // ---------- what the characters and the whole number mean ----------

  const LOWER := "0123456789abcdef"
  const UPPER := "0123456789ABCDEF"

  /** The place of a hex digit among all of them is what it is worth; nothing else is a hex digit. */
  lemma DigitIsItsPlace(c: char)
    ensures IsHex(c) ==> LOWER[Digit(c)] == c || UPPER[Digit(c)] == c
    ensures IsDec(c) ==> LOWER[Digit(c)] == UPPER[Digit(c)] == c && Digit(c) < 10
  {
  }

  lemma PlaceIsItsDigit(d: nat)
    requires d < 16
    ensures IsHex(LOWER[d]) && Digit(LOWER[d]) == d && IsHex(UPPER[d]) && Digit(UPPER[d]) == d
    ensures IsDec(LOWER[d]) <==> d < 10
  {
  }

  /** The bounds of int64_t. */
  lemma Int64Bounds()
    ensures Clamp(INT64_MAX + 1) == INT64_MAX && INT64_MAX + 1 == 0x1_0000_0000 * 0x8000_0000
  {
  }

  /** isspace() in the C locale. */
  lemma SpaceCharacters(c: char)
    ensures IsSpace(c) <==> c == ' ' || c == '\t' || c == '\n' || c == '\U{0B}' || c == '\U{0C}' || c == '\r'
  {
  }

  /** White space, a sign or none, 0x or 0X or none, and hex digits up to something else, read as their number. */
  lemma ReadHexForm(space: string, sign: string, prefix: string, digits: string, rest: string)
    requires (forall i :: 0 <= i < |space| ==> IsSpace(space[i])) && (sign == "" || sign == "+" || sign == "-")
    requires prefix == "" || prefix == "0x" || prefix == "0X"
    requires digits != "" && AllHex(digits) && (rest == "" || !IsHex(rest[0]))
    requires prefix == "" && digits == "0" && rest != "" && (rest[0] == 'x' || rest[0] == 'X') ==> |rest| < 2 || !IsHex(rest[1])
    ensures ReadHex(space + sign + prefix + digits + rest) ==
            Some(Number(if sign == "-" then -Min(HexValue(digits), INT64_MAX + 1) else Min(HexValue(digits), INT64_MAX),
                        |space + sign + prefix + digits|))
  {
    hide HexValue, NumberStart, Negative, Prefixed, ReadHex, HexEnd;
    var s, number, t := space + sign + prefix + digits + rest, prefix + digits + rest, digits + rest;
    NumberShape(space + sign, prefix, digits, rest);
    StartForm(space, sign, number);
    PrefixForm(prefix, digits, rest);
    DigitsEnd(digits, rest);
    ReadHexAt(s, |space + sign| + |prefix|, t);
  }

  lemma NumberShape(front: string, prefix: string, digits: string, rest: string)
    requires digits != "" && AllHex(digits) && (prefix == "" || prefix[0] == '0')
    ensures var s, number := front + prefix + digits + rest, prefix + digits + rest;
            && s == front + number && s[|front|..] == number && s[|front| + |prefix|..] == digits + rest
            && number != "" && IsHex(number[0])
  {
  }

  lemma DigitsEnd(digits: string, rest: string)
    requires AllHex(digits) && (rest == "" || !IsHex(rest[0]))
    ensures HexEnd(digits + rest) == |digits| && (digits + rest)[..|digits|] == digits
  {
    RunEndIs(digits + rest, IsHex, |digits|);
  }

  lemma ReadHexAt(s: string, x: nat, t: string)
    requires x == NumberStart(s) + (if Prefixed(s[NumberStart(s)..]) then 2 else 0) && x <= |s| && t == s[x..] && HexEnd(t) > 0
    ensures ReadHex(s) == Some(Number(Signed(Negative(s), HexValue(t[..HexEnd(t)])), x + HexEnd(t)))
  {
    hide HexValue, NumberStart, Negative, Prefixed, Signed;
  }

  lemma PrefixForm(prefix: string, digits: string, rest: string)
    requires prefix == "" || prefix == "0x" || prefix == "0X"
    requires digits != "" && AllHex(digits) && (rest == "" || !IsHex(rest[0]))
    requires prefix == "" && digits == "0" && rest != "" && (rest[0] == 'x' || rest[0] == 'X') ==> |rest| < 2 || !IsHex(rest[1])
    ensures Prefixed(prefix + digits + rest) <==> prefix != ""
  {
    var s := prefix + digits + rest;
    if prefix == "" {
      assert s == digits + rest;
      assert |digits| > 1 ==> s[1] == digits[1];
      assert |digits| == 1 && rest != "" ==> s[1] == rest[0] && (|rest| > 1 ==> s[2] == rest[1]);
    } else {
      assert s[0] == prefix[0] && s[1] == prefix[1] && s[2] == digits[0];
    }
  }

  /** The same in decimal, without 0x. */
  lemma ReadDecForm(space: string, sign: string, digits: string, rest: string)
    requires (forall i :: 0 <= i < |space| ==> IsSpace(space[i])) && (sign == "" || sign == "+" || sign == "-")
    requires digits != "" && (forall i :: 0 <= i < |digits| ==> IsDec(digits[i])) && (rest == "" || !IsDec(rest[0]))
    ensures ReadDec(space + sign + digits + rest) ==
            Some(Number(if sign == "-" then -Min(DecValue(digits), INT64_MAX + 1) else Min(DecValue(digits), INT64_MAX),
                        |space + sign + digits|))
  {
    hide DecValue, NumberStart, Negative, RunEnd;
    var s, number := space + sign + digits + rest, digits + rest;
    StartForm(space, sign, number);
    assert s == space + sign + number;
    var g := |space + sign|;
    assert s[g..] == number;
    RunEndIs(number, IsDec, |digits|);
    assert number[..|digits|] == digits;
  }

  lemma StartForm(space: string, sign: string, number: string)
    requires (forall i :: 0 <= i < |space| ==> IsSpace(space[i])) && (sign == "" || sign == "+" || sign == "-")
    requires number != "" && IsHex(number[0])
    ensures NumberStart(space + sign + number) == |space + sign|
    ensures Negative(space + sign + number) <==> sign == "-"
  {
    var s := space + sign + number;
    assert s[|space|] == if sign == "" then number[0] else sign[0];
    RunEndIs(s, IsSpace, |space|);
  }

  /** Without a digit after white space and a sign nothing is read. */
  lemma ReadNothing(space: string, sign: string, rest: string)
    requires (forall i :: 0 <= i < |space| ==> IsSpace(space[i])) && (sign == "" || sign == "+" || sign == "-")
    requires rest == "" || (!IsHex(rest[0]) && (sign == "" ==> !IsSpace(rest[0]) && !IsSign(rest[0])))
    ensures ReadHex(space + sign + rest) == None && ReadDec(space + sign + rest) == None
  {
    var s := space + sign + rest;
    RunEndIs(s, IsSpace, |space|);
    assert s[|space + sign|..] == rest;
  }

  // ---------- where the reading stops ----------

  lemma RunEndIs(s: string, kind: char -> bool, e: nat)
    requires e <= |s| && (forall i :: 0 <= i < e ==> kind(s[i])) && (e < |s| ==> !kind(s[e]))
    ensures RunEnd(s, kind) == e
  {
  }

  /** What follows the byte that ends a run does not matter. */
  lemma RunEndStays(s: string, kind: char -> bool, more: string)
    requires RunEnd(s, kind) < |s| || more == "" || !kind(more[0])
    ensures RunEnd(s + more, kind) == RunEnd(s, kind)
  {
    RunEndIs(s + more, kind, RunEnd(s, kind));
  }

  /** What follows the first byte that is no white space does not matter. */
  lemma StartStays(s: string, more: string)
    requires SpaceEnd(s) < |s|
    ensures SpaceEnd(s + more) == SpaceEnd(s) && NumberStart(s + more) == NumberStart(s) && Negative(s + more) == Negative(s)
  {
    RunEndStays(s, IsSpace, more);
  }

  /** A number is read alike whatever follows a byte that ends it, or that rules it out. */
  lemma ReadDecStays(s: string, more: string)
    requires SpaceEnd(s) < |s| && (more != "" ==> !IsDec(more[0]))
    ensures ReadDec(s + more) == ReadDec(s)
  {
    hide DecValue, NumberStart, Negative, SpaceEnd;
    StartStays(s, more);
    var g := NumberStart(s);
    assert (s + more)[g..] == s[g..] + more;
    RunEndStays(s[g..], IsDec, more);
    assert (s[g..] + more)[..DecEnd(s[g..])] == s[g..][..DecEnd(s[g..])];
  }

  lemma ReadDecBlank(s: string)
    requires AllSpace(s)
    ensures ReadDec(s) == None
  {
    RunEndIs(s, IsSpace, |s|);
    assert s[|s|..] == "";
  }

  /** A number that starts with a digit and no 0x. */
  lemma ReadHexPlain(s: string)
    requires HexEnd(s) > 0 && !Prefixed(s)
    ensures ReadHex(s) == Some(Number(Clamp(HexValue(s[..HexEnd(s)])), HexEnd(s)))
  {
    RunEndIs(s, IsSpace, 0);
    assert s[0..] == s;
  }

  lemma {:induction false} HexPositive(s: string)
    requires AllHex(s) && s != "" && Digit(s[0]) > 0
    ensures HexValue(s) > 0
    decreases |s|
  {
    if |s| > 1 { HexPositive(s[..|s| - 1]); } else { assert s[..|s| - 1] == ""; }
  }

  // ---------- numbers after white space or a sign ----------

  /** Some bytes at the front of s, which does not start with a digit, read as a size. */
  predicate StraySize(s: string) {
    var g := NumberStart(s);
    g < |s| && IsHex(s[g]) && !(Negative(s) && Digit(s[g]) > 0)
  }

  /** Some bytes at the front of s read as a number other than -1. */
  predicate StrayOrigin(s: string) {
    var g := NumberStart(s);
    g < |s| && IsDec(s[g]) && !(Negative(s) && s[g] == '1' && !(g + 1 < |s| && IsDec(s[g + 1])))
  }

  lemma StraySizeStays(s: string, more: string)
    ensures StraySize(s) ==> StraySize(s + more)
  {
    if StraySize(s) { StartStays(s, more); }
  }

  lemma StrayOriginStays(s: string, more: string)
    ensures StrayOrigin(s) ==> StrayOrigin(s + more)
  {
    if StrayOrigin(s) { StartStays(s, more); }
  }

  /** Nothing but a stray number is read as a size there. */
  lemma SizeIsStray(s: string)
    requires ReadHex(s).Some? && ReadHex(s).value.value >= 0
    ensures StraySize(s)
  {
    var g := NumberStart(s);
    if Prefixed(s[g..]) {
      assert s[g] == '0';
    } else {
      var d := s[g..][..HexEnd(s[g..])];
      assert d[0] == s[g] && IsHex(d[0]);
      if Negative(s) && Digit(s[g]) > 0 { HexPositive(d); }
    }
  }

  lemma OneDigit(c: char)
    requires IsHex(c)
    ensures HexValue([c]) == Digit(c) && (IsDec(c) ==> DecValue([c]) == Digit(c))
  {
    assert [c][..0] == "";
  }

  lemma TwoDigits(c: char, d: char)
    requires IsDec(c) && IsDec(d)
    ensures DecValue([c, d]) == Digit(c) * 10 + Digit(d)
  {
    OneDigit(c);
    assert [c, d][..1] == [c];
  }

  /** The bytes up to its first digit read as a size. */
  lemma StrayIsSize(s: string)
    requires StraySize(s)
    ensures var g := NumberStart(s); ReadHex(s[..g + 1]) == Some(Number(Digit(s[g]), g + 1))
  {
    var g := NumberStart(s);
    var t := s[..g + 1];
    FirstDigit(s, g);
    OneDigit(s[g]);
    assert t[g..] == [s[g]] && [s[g]][..1] == [s[g]];
    RunEndIs([s[g]], IsHex, 1);
  }

  /** Cutting right after the first digit does not change where the digits start. */
  lemma FirstDigit(s: string, g: nat)
    requires g == NumberStart(s) < |s| && IsHex(s[g])
    ensures NumberStart(s[..g + 1]) == g && Negative(s[..g + 1]) == Negative(s) && SpaceEnd(s[..g + 1]) == SpaceEnd(s)
  {
    var b := SpaceEnd(s);
    RunEndIs(s[..g + 1], IsSpace, b);
  }

  /** Unless it is stray, a number in any prefix is -1. */
  lemma NotStrayIsUnset(s: string, m: nat)
    requires m <= |s| && !StrayOrigin(s)
    ensures ReadDec(s[..m]) == None || ReadDec(s[..m]).value.value == -1
  {
    var t := s[..m];
    if ReadDec(t).Some? {
      var g := NumberStart(t);
      var n := DecEnd(t[g..]);
      assert IsDec(t[g..][0]) && t + s[m..] == s;
      StartStays(t, s[m..]);
      assert s[g] == t[g] == '1';
      assert g + 1 < |t| ==> t[g..][1] == s[g + 1];
      OneDigit('1');
      assert n == 1 && t[g..][..1] == "1";
    }
  }

  /** How much of a stray number has to be there to be read as something else than -1. */
  function StrayCut(s: string): nat
    requires StrayOrigin(s)
  {
    var g := NumberStart(s);
    if Negative(s) && s[g] == '1' then g + 2 else g + 1
  }

  lemma StrayIsRead(s: string)
    requires StrayOrigin(s)
    ensures StrayCut(s) <= |s|
    ensures ReadDec(s[..StrayCut(s)]).Some? && ReadDec(s[..StrayCut(s)]).value.value != -1
  {
    var g := NumberStart(s);
    FirstDigit(s, g);
    var k := StrayCut(s);
    var t := s[..k];
    assert t == s[..g + 1] + t[g + 1..];
    assert SpaceEnd(s[..g + 1]) <= g;
    StartStays(s[..g + 1], t[g + 1..]);
    var d := t[g..];
    RunEndIs(d, IsDec, |d|);
    assert d[..|d|] == d;
    if k == g + 1 {
      OneDigit(s[g]);
      assert d == [s[g]];
    } else {
      TwoDigits('1', s[g + 1]);
      assert d == ['1', s[g + 1]];
    }
  }
}
