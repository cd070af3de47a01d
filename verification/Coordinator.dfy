/**
 The coordinator's registry of strands and of the searches that wait for them
 (findStrand, registerStrand and handleSearchRequest in Coordinator.cc).
 */
module Coordinator {

  datatype Strand = Strand(kidId: int, pid: int, tag: string)

  datatype Search = Search(requestorId: int, tag: string)

  /** A response sent to a searcher. */
  datatype Answer = Answer(search: Search, strand: Strand)

  /** The searches for a tag, in order. */
  function ByTag(s: seq<Search>, tag: string): seq<Search> {
    if s == [] then []
    else ByTag(s[..|s| - 1], tag) + if s[|s| - 1].tag == tag then [s[|s| - 1]] else []
  }

  /** The searches for other tags, in order. */
  function Without(s: seq<Search>, tag: string): seq<Search> {
    if s == [] then []
    else Without(s[..|s| - 1], tag) + if s[|s| - 1].tag == tag then [] else [s[|s| - 1]]
  }

  function Answered(sent: seq<Answer>): seq<Search> {
    if sent == [] then [] else Answered(sent[..|sent| - 1]) + [sent[|sent| - 1].search]
  }

  function Replies(s: seq<Search>, strand: Strand): seq<Answer> {
    if s == [] then [] else Replies(s[..|s| - 1], strand) + [Answer(s[|s| - 1], strand)]
  }

  lemma {:induction false} ByTagConcat(a: seq<Search>, b: seq<Search>, tag: string)
    ensures ByTag(a + b, tag) == ByTag(a, tag) + ByTag(b, tag)
    decreases |b|
  {
    if b == [] {
      assert a + b == a;
    } else {
      ByTagConcat(a, b[..|b| - 1], tag);
      assert (a + b)[..|a + b| - 1] == a + b[..|b| - 1];
    }
  }

  lemma {:induction false} AnsweredConcat(a: seq<Answer>, b: seq<Answer>)
    ensures Answered(a + b) == Answered(a) + Answered(b)
    decreases |b|
  {
    if b == [] {
      assert a + b == a;
    } else {
      AnsweredConcat(a, b[..|b| - 1]);
      assert (a + b)[..|a + b| - 1] == a + b[..|b| - 1];
    }
  }

  lemma {:induction false} AnsweredReplies(s: seq<Search>, strand: Strand)
    ensures Answered(Replies(s, strand)) == s
    decreases |s|
  {
    if s != [] {
      AnsweredReplies(s[..|s| - 1], strand);
      var r := Replies(s[..|s| - 1], strand);
      assert (r + [Answer(s[|s| - 1], strand)])[..|r|] == r;
    }
  }

  lemma ByTagSnoc(s: seq<Search>, x: Search, tag: string)
    ensures ByTag(s + [x], tag) == ByTag(s, tag) + if x.tag == tag then [x] else []
  {
    assert (s + [x])[..|s|] == s;
  }

  /** Removing the searches for one tag leaves the order of the others alone. */
  lemma {:induction false} WithoutByTag(s: seq<Search>, gone: string, tag: string)
    ensures ByTag(Without(s, gone), tag) == if tag == gone then [] else ByTag(s, tag)
    decreases |s|
  {
    if s != [] {
      var front, x := s[..|s| - 1], s[|s| - 1];
      WithoutByTag(front, gone, tag);
      ByTagSnoc(Without(front, gone), x, tag);
      assert Without(s, gone) == if x.tag == gone then Without(front, gone) else Without(front, gone) + [x];
    }
  }

  lemma {:induction false} ByTagTwice(s: seq<Search>, mine: string, tag: string)
    ensures ByTag(ByTag(s, mine), tag) == if tag == mine then ByTag(s, tag) else []
    decreases |s|
  {
    if s != [] {
      var front, x := s[..|s| - 1], s[|s| - 1];
      ByTagTwice(front, mine, tag);
      ByTagSnoc(ByTag(front, mine), x, tag);
      assert ByTag(s, mine) == if x.tag == mine then ByTag(front, mine) + [x] else ByTag(front, mine);
    }
  }

  lemma {:induction false} NoneByTag(s: seq<Search>, tag: string)
    requires forall i :: 0 <= i < |s| ==> s[i].tag != tag
    ensures ByTag(s, tag) == []
    decreases |s|
  {
    if s != [] { NoneByTag(s[..|s| - 1], tag); }
  }

  lemma {:induction false} ByTagHasTag(s: seq<Search>, tag: string)
    ensures forall i :: 0 <= i < |ByTag(s, tag)| ==> ByTag(s, tag)[i].tag == tag
    decreases |s|
  {
    if s != [] { ByTagHasTag(s[..|s| - 1], tag); }
  }

  /** The element after a prefix, erased or passed over. */
  lemma EraseAt(s: seq<Search>, done: seq<Search>, rest: seq<Search>)
    requires s == done + rest && rest != []
    ensures s[|done|] == rest[0]
    ensures s[..|done|] + s[|done| + 1..] == (done + []) + rest[1..]
    ensures s == (done + [rest[0]]) + rest[1..]
  {
  }

  lemma ScanStart(all: seq<Search>, strand: Strand)
    ensures Without(all[..0], strand.tag) == [] && Replies(ByTag(all[..0], strand.tag), strand) == []
  {
  }

  lemma ScanStep(all: seq<Search>, n: nat, strand: Strand)
    requires n < |all|
    ensures Without(all[..n + 1], strand.tag) ==
            Without(all[..n], strand.tag) + if all[n].tag == strand.tag then [] else [all[n]]
    ensures Replies(ByTag(all[..n + 1], strand.tag), strand) ==
            Replies(ByTag(all[..n], strand.tag), strand) + if all[n].tag == strand.tag then [Answer(all[n], strand)] else []
  {
    assert all[..n + 1][..n] == all[..n];
    var mine := ByTag(all[..n], strand.tag);
    assert (mine + [all[n]])[..|mine|] == mine && mine + [] == mine;
  }

  lemma {:induction false} WithoutHasNone(s: seq<Search>, tag: string)
    ensures forall i :: 0 <= i < |Without(s, tag)| ==> Without(s, tag)[i].tag != tag && Without(s, tag)[i] in s
    decreases |s|
  {
    if s != [] { WithoutHasNone(s[..|s| - 1], tag); }
  }

  class Registry {
    var strands: seq<Strand>
    var searchers: seq<Search>
    var sent: seq<Answer>              // all responses, in order
    ghost var arrived: seq<Search>     // all search requests, in order

    constructor ()
      ensures Valid() && strands == [] && searchers == [] && sent == [] && arrived == []
    {
      strands, searchers, sent, arrived := [], [], [], [];
    }

    ghost predicate UniqueKids()
      reads this
    {
      forall i, j :: 0 <= i < j < |strands| ==> strands[i].kidId != strands[j].kidId
    }

    /** Nobody waits for a strand that is registered. */
    ghost predicate NobodyWaitsInVain()
      reads this
    {
      forall i, k :: 0 <= i < |strands| && 0 <= k < |searchers| ==> strands[i].tag != searchers[k].tag
    }

    /** Tag by tag, requests are answered once each and in order of arrival; the rest still wait. */
    ghost predicate InOrder()
      reads this
    {
      Ordered(sent, searchers, arrived)
    }

    ghost predicate Valid()
      reads this
    {
      && UniqueKids() && NobodyWaitsInVain() && InOrder()
      && (forall i :: 0 <= i < |sent| ==> sent[i].strand.tag == sent[i].search.tag)
    }

    method FindStrand(kidId: int) returns (pos: int)
      ensures -1 <= pos < |strands|
      ensures pos >= 0 ==> strands[pos].kidId == kidId
      ensures pos < 0 ==> forall i :: 0 <= i < |strands| ==> strands[i].kidId != kidId
    {
      for i := 0 to |strands|
        invariant forall k :: 0 <= k < i ==> strands[k].kidId != kidId
      {
        if strands[i].kidId == kidId {
          return i;
        }
      }
      return -1;
    }

    /** Answers and drops all searches for the strand's tag, erasing while iterating. */
    method NotifySearchers(strand: Strand)
      modifies `searchers, `sent
      ensures searchers == Without(old(searchers), strand.tag)
      ensures sent == old(sent) + Replies(ByTag(old(searchers), strand.tag), strand)
    {
      hide ByTag, Without, Replies;
      var i := 0;
      ghost var all, done: nat := searchers, 0;
      ScanStart(all, strand);
      assert sent + [] == sent && [] + all == all;
      while i < |searchers|
        invariant done <= |all| && i == |Without(all[..done], strand.tag)|
        invariant searchers == Without(all[..done], strand.tag) + all[done..]
        invariant sent == old(sent) + Replies(ByTag(all[..done], strand.tag), strand)
        decreases |all| - done
      {
        ScanStep(all, done, strand);
        EraseAt(searchers, Without(all[..done], strand.tag), all[done..]);
        if searchers[i].tag == strand.tag {
          sent := sent + [Answer(searchers[i], strand)];
          searchers := searchers[..i] + searchers[i + 1..];
        } else {
          i := i + 1;
        }
        done := done + 1;
      }
      assert all[..done] == all;
    }

    /** Enters a strand, or replaces what is known of its kid, keeping an old tag over none. */
    method EnterStrand(strand: Strand)
      requires UniqueKids()
      modifies `strands
      ensures UniqueKids()
      ensures Entered(old(strands), strand, strands)
      ensures forall k :: 0 <= k < |old(strands)| && old(strands)[k].kidId == strand.kidId ==>
                            && |strands| == |old(strands)| && strands[k].kidId == strand.kidId && strands[k].pid == strand.pid
                            && strands[k].tag == (if strand.tag != "" then strand.tag else old(strands)[k].tag)
                            && forall i :: 0 <= i < |strands| && i != k ==> strands[i] == old(strands)[i]
      ensures (forall k :: 0 <= k < |old(strands)| ==> old(strands)[k].kidId != strand.kidId) ==> strands == old(strands) + [strand]
      ensures forall i :: 0 <= i < |strands| ==>
                            strands[i].tag == strand.tag || exists k :: 0 <= k < |old(strands)| && old(strands)[k].tag == strands[i].tag
    {
      var found := FindStrand(strand.kidId);
      if found >= 0 {
        var oldTag := strands[found].tag;
        strands := strands[found := strand];
        if |oldTag| > 0 && |strand.tag| == 0 {
          strands := strands[found := strand.(tag := oldTag)];
        }
        assert strand.tag == "" && oldTag == "" ==> strand.(tag := oldTag) == strand;
      } else {
        strands := strands + [strand];
        assert strands[|strands| - 1] == strand;
      }
    }

    method RegisterStrand(strand: Strand)
      requires Valid()
      modifies `strands, `searchers, `sent
      ensures Valid()
      ensures Entered(old(strands), strand, strands)
      ensures searchers == Without(old(searchers), strand.tag)
      ensures sent == old(sent) + Replies(ByTag(old(searchers), strand.tag), strand)
    {
      hide ByTag, Without, Replies, Ordered;
      EnterStrand(strand);
      NotifySearchers(strand);
      SettleTag(old(sent), old(searchers), arrived, strand);
      WithoutHasNone(old(searchers), strand.tag);
      ByTagHasTag(old(searchers), strand.tag);
      SoundReplies(ByTag(old(searchers), strand.tag), strand);
    }

    /** Answers from the registry, or lets the searcher wait. */
    method HandleSearchRequest(request: Search)
      requires Valid()
      modifies `searchers, `sent, `arrived
      ensures Valid() && arrived == old(arrived) + [request]
      ensures (exists i :: 0 <= i < |strands| && strands[i].tag == request.tag) ==>
                searchers == old(searchers)
      ensures forall i :: 0 <= i < |strands| && strands[i].tag == request.tag &&
                          (forall k :: 0 <= k < i ==> strands[k].tag != request.tag) ==>
                            sent == old(sent) + [Answer(request, strands[i])]
      ensures !(exists i :: 0 <= i < |strands| && strands[i].tag == request.tag) ==>
                searchers == old(searchers) + [request] && sent == old(sent)
    {
      arrived := arrived + [request];
      for i := 0 to |strands|
        invariant forall k :: 0 <= k < i ==> strands[k].tag != request.tag
        invariant searchers == old(searchers) && sent == old(sent) && arrived == old(arrived) + [request]
      {
        if strands[i].tag == request.tag {
          sent := sent + [Answer(request, strands[i])];
          AnswerAtOnce(old(sent), searchers, old(arrived), request, strands[i]);
          return;
        }
      }
      searchers := searchers + [request];
      LetWait(sent, old(searchers), old(arrived), request);
    }
  }

  /** A known kid's entry is replaced in place, with its old tag if none is given; a new one is added last. */
  ghost predicate Entered(before: seq<Strand>, strand: Strand, after: seq<Strand>) {
    && (forall k :: 0 <= k < |before| && before[k].kidId == strand.kidId ==>
                      after == before[k := strand.(tag := if strand.tag == "" then before[k].tag else strand.tag)])
    && ((forall k :: 0 <= k < |before| ==> before[k].kidId != strand.kidId) ==> after == before + [strand])
  }

  // ---------- order is kept ----------

  ghost predicate Ordered(sent: seq<Answer>, searchers: seq<Search>, arrived: seq<Search>) {
    forall tag: string :: ByTag(Answered(sent), tag) + ByTag(searchers, tag) == ByTag(arrived, tag)
  }

  lemma SettleTag(sent: seq<Answer>, searchers: seq<Search>, arrived: seq<Search>, strand: Strand)
    requires Ordered(sent, searchers, arrived)
    ensures Ordered(sent + Replies(ByTag(searchers, strand.tag), strand), Without(searchers, strand.tag), arrived)
  {
    hide ByTag, Without, Replies, Answered;
    var mine := ByTag(searchers, strand.tag);
    AnsweredConcat(sent, Replies(mine, strand));
    AnsweredReplies(mine, strand);
    forall tag: string
      ensures ByTag(Answered(sent + Replies(mine, strand)), tag) + ByTag(Without(searchers, strand.tag), tag) == ByTag(arrived, tag)
    {
      ByTagConcat(Answered(sent), mine, tag);
      WithoutByTag(searchers, strand.tag, tag);
      ByTagTwice(searchers, strand.tag, tag);
    }
  }

  lemma {:induction false} SoundReplies(s: seq<Search>, strand: Strand)
    requires forall i :: 0 <= i < |s| ==> s[i].tag == strand.tag
    ensures forall i :: 0 <= i < |Replies(s, strand)| ==>
                          Replies(s, strand)[i].strand.tag == Replies(s, strand)[i].search.tag
    decreases |s|
  {
    if s != [] { SoundReplies(s[..|s| - 1], strand); }
  }

  lemma AnswerAtOnce(sent: seq<Answer>, searchers: seq<Search>, arrived: seq<Search>, request: Search, strand: Strand)
    requires Ordered(sent, searchers, arrived)
    requires forall i :: 0 <= i < |searchers| ==> searchers[i].tag != request.tag
    ensures Ordered(sent + [Answer(request, strand)], searchers, arrived + [request])
  {
    assert (sent + [Answer(request, strand)])[..|sent|] == sent;
    forall tag: string
      ensures ByTag(Answered(sent + [Answer(request, strand)]), tag) + ByTag(searchers, tag) == ByTag(arrived + [request], tag)
    {
      ByTagConcat(Answered(sent), [request], tag);
      ByTagConcat(arrived, [request], tag);
      NoneByTag(searchers, request.tag);
      assert [request][..0] == [];
    }
  }

  lemma LetWait(sent: seq<Answer>, searchers: seq<Search>, arrived: seq<Search>, request: Search)
    requires Ordered(sent, searchers, arrived)
    ensures Ordered(sent, searchers + [request], arrived + [request])
  {
    forall tag: string
      ensures ByTag(Answered(sent), tag) + ByTag(searchers + [request], tag) == ByTag(arrived + [request], tag)
    {
      ByTagConcat(searchers, [request], tag);
      ByTagConcat(arrived, [request], tag);
    }
  }
}
