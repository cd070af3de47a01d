/**
 Quoting and unquoting of configuration values (QuoteString and ParseQuotedString in
 ConfigParser.cc), including the in-place removal of escapes.
 */
module ConfigQuoting {
  import opened Collections

  // ---------- quoting ----------

  predicate IsAlnum(c: char) { '0' <= c <= '9' || 'A' <= c <= 'Z' || 'a' <= c <= 'z' }

  predicate NeedsEscape(c: char) { c == '"' || c == '\\' }

  function EscapeChar(c: char): string { if NeedsEscape(c) then ['\\', c] else [c] }

  function Escape(s: string): string {
    if s == "" then "" else Escape(s[..|s| - 1]) + EscapeChar(s[|s| - 1])
  }

  function Quoted(s: string): string {
    if forall i :: 0 <= i < |s| ==> IsAlnum(s[i]) then s else "\"" + Escape(s) + "\""
  }

  method QuoteString(s: string) returns (r: string)
    ensures r == Quoted(s)
  {
    var needQuote := false;
    var l := 0;
    while !needQuote && l < |s|
      invariant 0 <= l <= |s|
      invariant needQuote ==> l > 0 && !IsAlnum(s[l - 1])
      invariant !needQuote ==> forall i :: 0 <= i < l ==> IsAlnum(s[i])
      decreases |s| - l
    {
      needQuote := !IsAlnum(s[l]);
      l := l + 1;
    }
    if !needQuote {
      return s;
    }
    r := "\"";
    for i := 0 to |s|
      invariant r == "\"" + Escape(s[..i])
    {
      assert s[..i + 1][..i] == s[..i];
      if s[i] == '"' || s[i] == '\\' {
        r := r + "\\";
      }
      r := r + [s[i]];
    }
    assert s[..|s|] == s;
    r := r + "\"";
  }

  // ---------- unquoting ----------

  /** What is stored, or that the parser gives up. */
  datatype Parsed = Stored(value: string, wasQuoted: bool) | NothingStored | SelfDestruct

  datatype Unescaped = Text(value: string) | Unterminated

  function Prepend(c: char, u: Unescaped): Unescaped {
    match u
    case Text(v) => Text([c] + v)
    case Unterminated => Unterminated
  }

  /** The text up to the first quote that is not escaped; a backslash stands for what follows it. */
  function Unescape(s: string): Unescaped {
    if s == "" then Unterminated
    else if s[0] == '"' then Text("")
    else if s[0] == '\\' && |s| > 1 then Prepend(s[1], Unescape(s[2..]))
    else Prepend(s[0], Unescape(s[1..]))
  }

  /** Before any closing quote, s ends in a backslash that has only the terminator to escape. */
  predicate Dangling(s: string) {
    s != "" && s[0] != '"' &&
    if s[0] == '\\' then |s| == 1 || Dangling(s[2..]) else Dangling(s[1..])
  }

  predicate IsSpace(c: char) { c == ' ' || c == '\t' || c == '\n' || c == '\r' }

  function SkipSpaces(s: string): string { if s != "" && IsSpace(s[0]) then SkipSpaces(s[1..]) else s }

  function FirstWord(s: string): string { if s == "" || IsSpace(s[0]) then "" else [s[0]] + FirstWord(s[1..]) }

  function Parse(s: string): Parsed {
    if s == "" then SelfDestruct
    else if s[0] != '"' then
      var word := FirstWord(SkipSpaces(s));
      if word == "" then NothingStored else Stored(word, false)
    else match Unescape(s[1..])
         case Text(v) => Stored(v, true)
         case Unterminated => SelfDestruct
  }

  /** A C string: the bytes before the terminator. */
  ghost predicate IsCString(buf: array<char>, n: nat)
    reads buf
  {
    n < buf.Length && buf[n] == '\0' && forall i :: 0 <= i < n ==> buf[i] != '\0'
  }

  method StrLen(buf: array<char>, from: nat, ghost n: nat) returns (len: nat)
    requires IsCString(buf, n) && from <= n
    ensures from + len == n
  {
    len := 0;
    while buf[from + len] != '\0'
      invariant from + len <= n
      decreases n - len
    {
      len := len + 1;
    }
  }

  /** Ends the string at offset q, and takes what is now stored at p. */
  method Terminate(buf: array<char>, p: nat, q: nat, ghost n: nat) returns (stored: string)
    requires IsCString(buf, n) && p <= q <= n
    modifies buf
    ensures stored == old(buf[p..q]) && buf[q] == '\0'
    ensures forall i :: 0 <= i < buf.Length && i != q ==> buf[i] == old(buf[i])
  {
    ghost var text := buf[p..q];
    buf[q] := '\0';
    var len := StrLen(buf, p, q);
    assert buf[p..p + len] == text;
    stored := buf[p..p + len];
  }

  /** Moves everything after offset s, terminator included, one place to the left. */
  method DropChar(buf: array<char>, s: nat, ghost n: nat)
    requires IsCString(buf, n) && s < n
    modifies buf
    ensures IsCString(buf, n - 1)
    ensures forall i :: n <= i < buf.Length ==> buf[i] == old(buf[i])
    ensures buf[..s] == old(buf[..s]) && buf[s..n - 1] == old(buf[s + 1..n])
  {
    var count := StrLen(buf, s + 1, n);
    forall i | s <= i <= s + count {
      buf[i] := buf[i + 1];
    }
  }

  /** A dangling backslash leaves the text without a closing quote. */
  lemma {:induction false} DanglingIsUnterminated(s: string)
    requires Dangling(s)
    ensures Unescape(s) == Unterminated
    decreases |s|
  {
    if s[0] == '\\' && |s| > 1 {
      DanglingIsUnterminated(s[2..]);
    } else if s[0] != '\\' {
      DanglingIsUnterminated(s[1..]);
    } else {
      assert s[1..] == "";
    }
  }

  lemma WholeText(text: string)
    requires text != ""
    ensures Append(text[1..1], Unescape(text[1..])) == Unescape(text[1..])
  {
    assert text[1..1] == "";
    if Unescape(text[1..]).Text? { assert "" + Unescape(text[1..]).value == Unescape(text[1..]).value; }
  }

  /** Passing one character of the text. */
  lemma Passed(text: string, s: nat)
    requires 1 <= s < |text|
    ensures text[s..] != "" && text[s..][0] == text[s] && text[s..][1..] == text[s + 1..]
    ensures text[1..s + 1] == text[1..s] + [text[s]]
  {
  }

  /** Dropping one character, and passing the one after it. */
  lemma Dropped(text: string, s: nat)
    requires 1 <= s < |text|
    ensures var left := text[..s] + text[s + 1..];
            s + 1 < |text| ==> left[s] == text[s..][1] && left[s + 1..] == text[s..][2..] && left[1..s + 1] == text[1..s] + [left[s]]
    ensures s + 1 == |text| ==> text[s..] == [text[s]]
  {
  }

  /** One round of the scan over the rest of the text. */
  lemma UnescapeStep(rest: string)
    ensures rest == "" ==> Unescape(rest) == Unterminated && !Dangling(rest)
    ensures rest != "" && rest[0] == '"' ==> Unescape(rest) == Text("") && !Dangling(rest)
    ensures rest != "" && rest[0] != '"' && rest[0] != '\\' ==>
              Unescape(rest) == Prepend(rest[0], Unescape(rest[1..])) && (Dangling(rest) <==> Dangling(rest[1..]))
    ensures |rest| > 1 && rest[0] == '\\' ==>
              Unescape(rest) == Prepend(rest[1], Unescape(rest[2..])) && (Dangling(rest) <==> Dangling(rest[2..]))
    ensures rest == "\\" ==> Unescape(rest) == Unterminated && Dangling(rest)
  {
    if rest == "\\" { DanglingIsUnterminated(rest); }
  }

  /**
   Removes escapes in place; the closing quote, if any, is overwritten by the terminator.  When the
   last character is a backslash that escapes nothing, the scan steps over the moved terminator, and
   stops where that was before the move: it never leaves the string it was given.
   */
  method UnquoteInPlace(buf: array<char>, ghost n0: nat) returns (r: Parsed, ghost over: bool)
    requires IsCString(buf, n0) && n0 > 0 && buf[0] == '"'
    modifies buf
    ensures r == match Unescape(old(buf[1..n0])) case Text(v) => Stored(v, true) case Unterminated => SelfDestruct
    ensures over <==> Dangling(old(buf[1..n0]))
    ensures forall i :: n0 <= i < buf.Length ==> buf[i] == old(buf[i])
  {
    hide Unescape, Dangling;
    ghost var n := n0;
    ghost var input := buf[1..n0];
    var s := 1;
    WholeText(buf[..n]);
    while buf[s] != '\0' && buf[s] != '"'
      invariant IsCString(buf, n) && n <= n0 && 1 <= s <= n + 1 <= buf.Length
      invariant s == n + 1 ==> s <= n0 && buf[s] == '\0' && Unescape(input) == Unterminated && Dangling(input)
      invariant s <= n ==> (Dangling(input) <==> Dangling(buf[..n][s..]))
      invariant s <= n ==> Unescape(input) == Append(buf[..n][1..s], Unescape(buf[..n][s..]))
      invariant forall i :: n0 <= i < buf.Length ==> buf[i] == old(buf[i])
      decreases n + 1 - s
    {
      assert s < n;
      ghost var text := buf[..n];
      UnescapeStep(text[s..]);
      if buf[s] == '\\' {
        DropChar(buf, s, n);
        n := n - 1;
        assert buf[..n] == text[..s] + text[s + 1..];
        Dropped(text, s);
        if s < n { AppendOne(text[1..s], buf[s], Unescape(text[s..][2..])); }
      } else {
        Passed(text, s);
        AppendOne(text[1..s], buf[s], Unescape(text[s..][1..]));
      }
      s := s + 1;
    }
    over := s > n;
    if s <= n { UnescapeStep(buf[..n][s..]); }
    if buf[s] != '"' {
      return SelfDestruct, over;
    }
    assert s <= n;
    ghost var text, value := buf[..n], buf[1..s];
    assert text[1..s] == value && value + "" == value;
    var stored := Terminate(buf, 1, s, n);
    r := Stored(stored, true);
  }

  function Append(v: string, u: Unescaped): Unescaped {
    match u
    case Text(w) => Text(v + w)
    case Unterminated => Unterminated
  }

  lemma AppendOne(v: string, c: char, u: Unescaped)
    ensures Append(v, Prepend(c, u)) == Append(v + [c], u)
  {
    if u.Text? { assert v + ([c] + u.value) == v + [c] + u.value; }
  }

  method ParseQuotedString(buf: array<char>, ghost n: nat) returns (r: Parsed)
    requires IsCString(buf, n)
    modifies buf
    ensures r == Parse(old(buf[..n]))
    ensures forall i :: n <= i < buf.Length ==> buf[i] == old(buf[i])
  {
    if buf[0] == '\0' {
      assert n == 0;
      return SelfDestruct;
    }
    assert n > 0 && buf[..n][1..] == buf[1..n];
    if buf[0] != '"' {
      r := Tokenize(buf, n);
    } else {
      ghost var over;
      r, over := UnquoteInPlace(buf, n);
    }
  }

  method PassSpaces(buf: array<char>, ghost n: nat) returns (p: nat)
    requires IsCString(buf, n)
    ensures p <= n && buf[p..n] == SkipSpaces(buf[..n])
  {
    ghost var input := buf[..n];
    p := 0;
    assert input[0..] == input;
    while buf[p] != '\0' && IsSpace(buf[p])
      invariant p <= n && SkipSpaces(input[p..]) == SkipSpaces(input)
      decreases n - p
    {
      p := p + 1;
    }
    assert input[p..] == buf[p..n];
  }

  method PassWord(buf: array<char>, p: nat, ghost n: nat) returns (q: nat)
    requires IsCString(buf, n) && p <= n
    ensures p <= q <= n && buf[p..q] == FirstWord(buf[p..n])
  {
    ghost var rest := buf[p..n];
    q := p;
    assert rest[0..] == rest;
    while buf[q] != '\0' && !IsSpace(buf[q])
      invariant p <= q <= n && FirstWord(rest) == rest[..q - p] + FirstWord(rest[q - p..])
      decreases n - q
    {
      assert rest[..q - p + 1] == rest[..q - p] + [rest[q - p]];
      q := q + 1;
    }
    assert rest[..q - p] == buf[p..q];
  }

  /** strtok with white space as the delimiters; it terminates the word in place. */
  method Tokenize(buf: array<char>, ghost n: nat) returns (r: Parsed)
    requires IsCString(buf, n)
    modifies buf
    ensures forall i :: n <= i < buf.Length ==> buf[i] == old(buf[i])
    ensures r == var word := FirstWord(SkipSpaces(old(buf[..n]))); if word == "" then NothingStored else Stored(word, false)
  {
    var p := PassSpaces(buf, n);
    var q := PassWord(buf, p, n);
    if p == q {
      return NothingStored;
    }
    var stored := Terminate(buf, p, q, n);
    r := Stored(stored, false);
  }

  // ---------- the round trip ----------

  lemma {:induction false} EscapeCons(c: char, s: string)
    ensures Escape([c] + s) == EscapeChar(c) + Escape(s)
    decreases |s|
  {
    if s == "" {
      assert [c] + s == [c] && [c][..0] == "";
    } else {
      var front, x := s[..|s| - 1], s[|s| - 1];
      EscapeCons(c, front);
      assert ([c] + s)[..|s|] == [c] + front;
      assert EscapeChar(c) + Escape(front) + EscapeChar(x) == EscapeChar(c) + (Escape(front) + EscapeChar(x));
    }
  }

  lemma UnescapeChar(c: char, u: string)
    ensures Unescape(EscapeChar(c) + u) == Prepend(c, Unescape(u))
    ensures Dangling(EscapeChar(c) + u) <==> Dangling(u)
  {
    assert (EscapeChar(c) + u)[|EscapeChar(c)|..] == u;
  }

  /** Unescaping undoes escaping, whatever follows the closing quote. */
  lemma {:induction false} UnescapeEscape(s: string, rest: string)
    ensures Unescape(Escape(s) + ("\"" + rest)) == Text(s)
    ensures !Dangling(Escape(s) + ("\"" + rest))
    decreases |s|
  {
    var tail := "\"" + rest;
    if s == "" {
      assert Escape(s) + tail == tail;
    } else {
      hide Unescape, Dangling, Escape, EscapeChar;
      var c, t := s[0], s[1..];
      assert s == [c] + t;
      EscapeCons(c, t);
      UnescapeEscape(t, rest);
      Regroup(EscapeChar(c), Escape(t), tail);
      UnescapeChar(c, Escape(t) + tail);
    }
  }

  lemma {:induction false} WordOfAlnum(s: string)
    requires forall i :: 0 <= i < |s| ==> IsAlnum(s[i])
    ensures FirstWord(s) == s
    decreases |s|
  {
    if s != "" {
      WordOfAlnum(s[1..]);
      assert s == [s[0]] + s[1..];
    }
  }

  lemma {:induction false} EscapeHasNoNul(s: string)
    requires '\0' !in s
    ensures '\0' !in Escape(s)
    decreases |s|
  {
    if s != "" { EscapeHasNoNul(s[..|s| - 1]); }
  }

  /**
   For every non-empty string, parsing the quoted form stores exactly that string; it is marked
   as quoted exactly when it had to be, and the quoted form meets what the parser relies on.
   */
  lemma QuoteRoundTrip(s: string)
    requires s != "" && '\0' !in s
    ensures Parse(Quoted(s)) == Stored(s, exists i :: 0 <= i < |s| && !IsAlnum(s[i]))
    ensures '\0' !in Quoted(s) && (Quoted(s)[0] == '"' ==> !Dangling(Quoted(s)[1..]))
  {
    if forall i :: 0 <= i < |s| ==> IsAlnum(s[i]) {
      WordOfAlnum(s);
      assert IsAlnum(s[0]);
    } else {
      UnescapeEscape(s, "");
      EscapeHasNoNul(s);
      assert Quoted(s)[1..] == Escape(s) + ("\"" + "");
    }
  }

  /** A word after an opening quote that ends in a dangling backslash, such as abc\, makes the parser give up. */
  lemma DanglingGivesUp(s: string)
    requires Dangling(s)
    ensures Parse("\"" + s) == SelfDestruct
  {
    DanglingIsUnterminated(s);
    assert ("\"" + s)[1..] == s;
  }

  /** Different values are never quoted alike. */
  lemma QuotedIsInjective(s: string, t: string)
    requires s != "" && t != "" && '\0' !in s && '\0' !in t && Quoted(s) == Quoted(t)
    ensures s == t
  {
    QuoteRoundTrip(s);
    QuoteRoundTrip(t);
  }

  // ---------- which lines store what ----------

  /** The characters of isalnum() in the C locale, and those of w_space. */
  lemma CharacterClasses(c: char)
    ensures IsAlnum(c) <==> c in DIGITS || c in CAPITALS || c in SMALL_LETTERS
    ensures IsSpace(c) <==> c == ' ' || c == '\t' || c == '\n' || c == '\r'
  {
  }

  const DIGITS: set<char> := {'0', '1', '2', '3', '4', '5', '6', '7', '8', '9'}
  const CAPITALS: set<char> :=
    {'A', 'B', 'C', 'D', 'E', 'F', 'G', 'H', 'I', 'J', 'K', 'L', 'M', 'N', 'O', 'P', 'Q', 'R', 'S', 'T', 'U', 'V', 'W', 'X', 'Y', 'Z'}
  const SMALL_LETTERS: set<char> :=
    {'a', 'b', 'c', 'd', 'e', 'f', 'g', 'h', 'i', 'j', 'k', 'l', 'm', 'n', 'o', 'p', 'q', 'r', 's', 't', 'u', 'v', 'w', 'x', 'y', 'z'}

  /** v with a backslash before the characters that are marked. */
  function Written(v: string, marks: seq<bool>): string
    requires |marks| == |v|
  {
    if v == "" then "" else (if marks[0] then ['\\', v[0]] else [v[0]]) + Written(v[1..], marks[1..])
  }

  /** Quotes and backslashes are marked, and perhaps others. */
  ghost predicate Marked(v: string, marks: seq<bool>) {
    |marks| == |v| && forall i :: 0 <= i < |v| && (v[i] == '"' || v[i] == '\\') ==> marks[i]
  }

  /** Whatever else has a backslash before it, what is stored is the text without them. */
  lemma {:induction false} UnescapeWritten(v: string, marks: seq<bool>, rest: string)
    requires Marked(v, marks)
    ensures Unescape(Written(v, marks) + ("\"" + rest)) == Text(v)
    decreases |v|
  {
    var tail := "\"" + rest;
    if v == "" {
      assert Written(v, marks) + tail == tail;
    } else {
      UnescapeWritten(v[1..], marks[1..], rest);
      var more := Written(v[1..], marks[1..]) + tail;
      var front := if marks[0] then ['\\', v[0]] else [v[0]];
      Regroup(front, Written(v[1..], marks[1..]), tail);
      assert (front + more)[|front|..] == more && [v[0]] + v[1..] == v;
    }
  }

  /** And nothing is stored from any other text: it has no closing quote. */
  lemma {:induction false} TextIsWritten(s: string) returns (marks: seq<bool>, rest: string)
    requires Unescape(s).Text?
    ensures var v := Unescape(s).value; Marked(v, marks) && s == Written(v, marks) + ("\"" + rest)
    decreases |s|
  {
    if s[0] == '"' {
      marks, rest := [], s[1..];
      assert "" + ("\"" + rest) == s;
    } else {
      hide Unescape, Written, Marked, Dangling;
      UnescapeStep(s);
      var k := if s[0] == '\\' then 2 else 1;
      var more;
      more, rest := TextIsWritten(s[k..]);
      var u := Unescape(s[k..]).value;
      marks := WrittenCons(s, k, u, more, "\"" + rest);
    }
  }

  lemma WrittenCons(s: string, k: nat, u: string, more: seq<bool>, tail: string) returns (marks: seq<bool>)
    requires Marked(u, more) && 1 <= k <= 2 && k <= |s| && s[k..] == Written(u, more) + tail
    requires if k == 2 then s[0] == '\\' else s[0] != '"' && s[0] != '\\'
    ensures Marked([s[k - 1]] + u, marks) && s == Written([s[k - 1]] + u, marks) + tail
  {
    marks := [k == 2] + more;
    var v := [s[k - 1]] + u;
    assert v[1..] == u && marks[1..] == more;
    assert Written(v, marks) == s[..k] + Written(u, more);
    Regroup(s[..k], Written(u, more), tail);
    assert s[..k] + s[k..] == s;
  }

  /** QuoteString puts a backslash before quotes and backslashes, and before nothing else. */
  lemma {:induction false} EscapeIsWritten(s: string)
    ensures Escape(s) == Written(s, seq(|s|, i requires 0 <= i < |s| => s[i] == '"' || s[i] == '\\'))
    decreases |s|
  {
    var marks := seq(|s|, i requires 0 <= i < |s| => s[i] == '"' || s[i] == '\\');
    if s != "" {
      EscapeCons(s[0], s[1..]);
      assert [s[0]] + s[1..] == s;
      EscapeIsWritten(s[1..]);
      assert marks[1..] == seq(|s| - 1, i requires 0 <= i < |s| - 1 => s[1..][i] == '"' || s[1..][i] == '\\');
    }
  }

  /** An unquoted value is the first run of characters that are none of w_space. */
  lemma ParseWord(lead: string, word: string, rest: string)
    requires (forall i :: 0 <= i < |lead| ==> IsSpace(lead[i])) && forall i :: 0 <= i < |word| ==> !IsSpace(word[i])
    requires rest == "" || IsSpace(rest[0])
    requires lead == "" ==> word != "" && word[0] != '"'
    requires word == "" ==> rest == ""
    ensures word != "" ==> Parse(lead + word + rest) == Stored(word, false)
    ensures word == "" ==> Parse(lead + word + rest) == NothingStored
  {
    hide SkipSpaces, FirstWord, Unescape;
    var s := lead + word + rest;
    SkipLead(lead, word + rest);
    assert lead + (word + rest) == s;
    WordStops(word, rest);
    if word == "" { assert word + rest == ""; }
  }

  lemma {:induction false} SkipLead(lead: string, more: string)
    requires forall i :: 0 <= i < |lead| ==> IsSpace(lead[i])
    requires more == "" || !IsSpace(more[0])
    ensures SkipSpaces(lead + more) == more
    decreases |lead|
  {
    if lead != "" {
      assert (lead + more)[1..] == lead[1..] + more;
      SkipLead(lead[1..], more);
    } else {
      assert lead + more == more;
    }
  }

  lemma {:induction false} WordStops(word: string, rest: string)
    requires forall i :: 0 <= i < |word| ==> !IsSpace(word[i])
    requires rest == "" || IsSpace(rest[0])
    ensures FirstWord(word + rest) == word
    decreases |word|
  {
    if word != "" {
      assert (word + rest)[1..] == word[1..] + rest;
      WordStops(word[1..], rest);
    } else {
      assert word + rest == rest;
    }
  }
}
