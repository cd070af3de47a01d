/**
 The asynchronous call queue (AsyncCallQueue.cc): calls linked through their own theNext
 fields, fired in order while the calls being made schedule further ones.
 */
module AsyncCalls {
  import opened Collections

  class AsyncCall {
    var theNext: AsyncCall?

    constructor ()
      ensures theNext == null
    {
      theNext := null;
    }
  }

  ghost function Calls(s: seq<AsyncCall>): set<AsyncCall> { set c | c in s }

  /** What every made call schedules while it runs, in the order the calls are made. */
  function Flat(script: seq<seq<AsyncCall>>): seq<AsyncCall> {
    if script == [] then [] else script[0] + Flat(script[1..])
  }

  class AsyncCallQueue {
    var theHead: AsyncCall?
    var theTail: AsyncCall?
    ghost var pending: seq<AsyncCall>
    ghost var made: seq<AsyncCall>    // the calls made so far

    constructor ()
      ensures Valid() && pending == [] && made == []
    {
      theHead, theTail, pending, made := null, null, [], [];
    }

    ghost predicate Valid()
      reads this, pending
    {
      && Distinct(pending)
      && (theHead == null <==> pending == []) && (pending == [] ==> theTail == null)
      && (pending != [] ==> theHead == pending[0] && theTail == pending[|pending| - 1])
      && (forall i :: 0 <= i < |pending| - 1 ==> pending[i].theNext == pending[i + 1])
      && (pending != [] ==> pending[|pending| - 1].theNext == null)
    }

    /** The last call of the queue was scheduled a second time and is linked to itself. */
    ghost predicate Looped()
      reads this, pending
    {
      && Distinct(pending) && pending != []
      && theHead == pending[0] && theTail == pending[|pending| - 1]
      && (forall i :: 0 <= i < |pending| - 1 ==> pending[i].theNext == pending[i + 1])
      && pending[|pending| - 1].theNext == pending[|pending| - 1]
    }

    lemma UnlinkedIsLast(call: AsyncCall)
      requires Valid() && call in pending && call.theNext == null
      ensures call == pending[|pending| - 1]
    {
      forall i | 0 <= i < |pending| - 1 ensures pending[i] != call {
        assert pending[i].theNext == pending[i + 1];
      }
    }

    /**
     Only the last call of the queue has no link, like one that is not queued; the assertions let
     both pass.  The call is appended exactly when it is not queued already.
     */
    method Schedule(call: AsyncCall)
      requires Valid() && call.theNext == null
      modifies `theHead, `theTail, `pending, Calls(pending)`theNext
      ensures Valid() && pending == old(pending) + [call] <==> call !in old(pending)
      ensures call in old(pending) ==> call == old(theTail) && pending == old(pending) && Looped()
      ensures forall c :: c in old(pending) && c != old(theTail) ==> c.theNext == old(c.theNext)
    {
      ghost var queued := call in pending;
      if queued { UnlinkedIsLast(call); }
      if theHead != null {
        assert theTail.theNext == null;
        theTail.theNext := call;
        theTail := call;
      } else {
        theHead, theTail := call, call;
      }
      if !queued {
        pending := pending + [call];
      } else {
        assert pending[|pending| - 1].theNext != null;
      }
    }

    /**
     From a looped queue calls are taken in order, but the last one stays at the head and will be
     made again, while theTail is gone, which the next call to Schedule would follow.
     */
    method DequeueLooped() returns (call: AsyncCall)
      requires Looped()
      modifies `theHead, `theTail, `pending, Calls(pending)`theNext
      ensures old(pending) == [call] + pending && call.theNext == null
      ensures pending != [] ==> Looped()
      ensures pending == [] ==> theHead == call && theTail == null
    {
      call := theHead;
      assert |pending| > 1 ==> pending[0] != pending[|pending| - 1] && pending[0].theNext == pending[0 + 1];
      theHead := call.theNext;
      call.theNext := null;
      if theTail == call {
        theTail := null;
      }
      pending := pending[1..];
    }

    /** Takes the first call off the queue; it can be scheduled again at once. */
    method Dequeue() returns (call: AsyncCall)
      requires Valid() && pending != []
      modifies `theHead, `theTail, `pending, Calls(pending)`theNext
      ensures Valid() && old(pending) == [call] + pending && call !in pending && call.theNext == null
    {
      call := theHead;
      assert |pending| > 1 ==> pending[0] != pending[|pending| - 1] && pending[0].theNext == pending[0 + 1];
      theHead := call.theNext;
      call.theNext := null;
      if theTail == call {
        theTail := null;
      }
      pending := pending[1..];
    }

    /** These calls are scheduled, one after the other. */
    method ScheduleAll(further: seq<AsyncCall>)
      requires Valid() && Distinct(pending + further)
      requires forall i :: 0 <= i < |further| ==> further[i].theNext == null
      modifies `theHead, `theTail, `pending, Calls(pending)`theNext, Calls(further)`theNext
      ensures Valid() && pending == old(pending) + further
    {
      hide Distinct;
      assert pending + further[..0] == pending;
      for i := 0 to |further|
        invariant Valid() && pending == old(pending) + further[..i]
        invariant forall k :: i <= k < |further| ==> further[k].theNext == null
      {
        NotYetQueued(old(pending), further, i);
        Schedule(further[i]);
        assert further[..i + 1] == further[..i] + [further[i]];
      }
      assert further[..|further|] == further;
    }

    /** Makes the first call, which schedules further ones; it may be among them itself. */
    method FireNext(further: seq<AsyncCall>)
      requires Valid() && pending != [] && Distinct(pending[1..] + further)
      requires forall i :: 0 <= i < |further| ==> further[i] == pending[0] || further[i].theNext == null
      modifies `theHead, `theTail, `pending, `made, Calls(pending)`theNext, Calls(further)`theNext
      ensures Valid() && pending == old(pending)[1..] + further && made == old(made) + [old(pending)[0]]
      ensures old(pending)[0] !in further ==> old(pending)[0].theNext == null
    {
      ghost var p0 := pending;
      var call := Dequeue();
      assert p0[1..] == pending && p0[0] == call;
      forall i | 0 <= i < |further| ensures further[i].theNext == null {
        if further[i] != call { QueuedNoMore(p0, further, i); }
      }
      made := made + [call];
      ScheduleAll(further);
    }

    /** Those of the calls that are not queued have no link. */
    ghost predicate Unlinked(calls: seq<AsyncCall>)
      reads this, calls
    {
      forall i :: 0 <= i < |calls| && calls[i] !in pending ==> calls[i].theNext == null
    }

    /** The next round of the firing loop: the call made schedules the next entry of the script, if any is left. */
    method FireScripted(script: seq<seq<AsyncCall>>, played: nat) returns (played': nat)
      requires Valid() && pending != [] && played <= |script| && Playable(pending, script[played..]) && Unlinked(Flat(script))
      modifies this, Calls(pending)`theNext, Calls(Flat(script))`theNext
      ensures var f := if played < |script| then script[played] else [];
              Valid() && pending == old(pending)[1..] + f && made == old(made) + [old(pending)[0]]
      ensures played' == (if played < |script| then played + 1 else played)
      ensures Playable(pending, script[played'..]) && Unlinked(Flat(script))
      ensures Calls(pending) <= Calls(old(pending)) + Calls(Flat(script))
    {
      hide Flat, Distinct, Playable;
      ghost var p0 := pending;
      var f := if played < |script| then script[played] else [];
      if played < |script| {
        PlayOne(p0, script, played);
        played' := played + 1;
      } else {
        PlayNothing(p0, script);
        played' := played;
      }
      forall m | 0 <= m < |f| ensures f[m] in Flat(script) && (f[m] == p0[0] || f[m] !in p0) {
        InScript(script, played, m);
        if f[m] != p0[0] { QueuedNoMore(p0, f, m); }
      }
      ghost var all := Flat(script);
      assert Unlinked(all);
      FireNext(f);
      forall i | 0 <= i < |all| && all[i] !in pending ensures all[i].theNext == null {
        if all[i] in p0 {
          StillQueued(p0, f, all[i]);
        } else {
          assert all[i] !in p0[1..] + f;
        }
      }
    }

    /**
     Fires until the queue is empty.  The k-th call made schedules script[k]; a call may be scheduled
     again and again, as long as it is not queued at that moment.  Every call, queued before or
     scheduled on the way, is made exactly once for each time, in the order of scheduling.
     */
    method Fire(script: seq<seq<AsyncCall>>) returns (any: bool, played: nat)
      requires Valid() && Playable(pending, script) && Unlinked(Flat(script))
      modifies this, Calls(pending)`theNext, Calls(Flat(script))`theNext
      ensures Valid() && pending == [] && any == (old(pending) != [])
      ensures played <= |script| && made == old(made) + old(pending) + Flat(script[..played])
      ensures played == |script| || |made| == |old(made)| + played
    {
      hide Flat, Distinct, Playable, Calls;
      any := theHead != null;
      played := 0;
      ghost var was := old(pending);
      FlatEnds(script);
      while theHead != null
        invariant Valid() && played <= |script|
        invariant made + pending == old(made) + was + Flat(script[..played])
        invariant Playable(pending, script[played..]) && Unlinked(Flat(script))
        invariant Calls(pending) <= Calls(was) + Calls(Flat(script))
        invariant played == |script| || |made| == |old(made)| + played
        decreases |script| - played, |pending|
      {
        ghost var f := if played < |script| then script[played] else [];
        MadeStep(made, pending, f);
        if played < |script| {
          FlatSnoc(script, played);
        }
        played := FireScripted(script, played);
      }
      assert made + pending == made;
    }
  }

  /** Calls yet to be scheduled are not among those before them. */
  lemma NotYetQueued(p: seq<AsyncCall>, further: seq<AsyncCall>, i: nat)
    requires i < |further| && Distinct(p + further)
    ensures forall k :: i <= k < |further| ==> further[k] !in p + further[..i]
  {
    var all, queued := p + further, p + further[..i];
    forall j, k | 0 <= j < |queued| && i <= k < |further| ensures queued[j] != further[k] {
      assert queued[j] == all[j] && all[|p| + k] == further[k];
    }
  }

  lemma QueuedNoMore(p: seq<AsyncCall>, further: seq<AsyncCall>, i: nat)
    requires p != [] && i < |further| && Distinct(p[1..] + further) && further[i] != p[0]
    ensures further[i] !in p
  {
    NotYetQueued(p[1..], further, i);
    assert further[i] !in p[1..] + further[..i];
    assert p == [p[0]] + p[1..];
  }

  /** Only the first call left the queue, unless it was scheduled again. */
  lemma StillQueued(p: seq<AsyncCall>, further: seq<AsyncCall>, c: AsyncCall)
    requires p != [] && c in p && c !in p[1..] + further
    ensures c == p[0] && c !in further
  {
    assert p == [p[0]] + p[1..];
  }

  /** Each entry of the script is scheduled when none of its calls is queued. */
  ghost predicate Playable(pending: seq<AsyncCall>, script: seq<seq<AsyncCall>>)
    decreases |script|
  {
    pending == [] || script == [] ||
    (Distinct(pending[1..] + script[0]) && Playable(pending[1..] + script[0], script[1..]))
  }

  lemma PlayOne(p: seq<AsyncCall>, script: seq<seq<AsyncCall>>, k: nat)
    requires p != [] && k < |script| && Playable(p, script[k..])
    ensures Distinct(p[1..] + script[k]) && Playable(p[1..] + script[k], script[k + 1..])
  {
    assert script[k..][0] == script[k] && script[k..][1..] == script[k + 1..];
  }

  lemma PlayNothing(p: seq<AsyncCall>, script: seq<seq<AsyncCall>>)
    requires p != [] && Distinct(p)
    ensures Distinct(p[1..] + []) && Playable(p[1..] + [], script[|script|..])
  {
    assert script[|script|..] == [];
  }

  lemma MadeStep(m: seq<AsyncCall>, p: seq<AsyncCall>, f: seq<AsyncCall>)
    requires p != []
    ensures m + p + f == (m + [p[0]]) + (p[1..] + f)
    ensures p[1..] + [] == p[1..] && p + [] == p
  {
  }

  lemma FlatEnds(script: seq<seq<AsyncCall>>)
    ensures script[..0] == [] && script[0..] == script && Flat(script[..0]) == []
    ensures Flat(script[|script|..]) == []
  {
  }

  lemma {:induction false} InFlat(script: seq<seq<AsyncCall>>, j: nat, k: nat, m: nat)
    requires j <= k < |script| && m < |script[k]|
    ensures script[k][m] in Flat(script[j..])
    decreases k - j
  {
    assert script[j..][1..] == script[j + 1..];
    if j < k { InFlat(script, j + 1, k, m); }
  }

  lemma InScript(script: seq<seq<AsyncCall>>, k: nat, m: nat)
    requires k < |script| && m < |script[k]|
    ensures script[k][m] in Flat(script)
  {
    InFlat(script, 0, k, m);
    assert script[0..] == script;
  }

  lemma {:induction false} FlatSnoc(script: seq<seq<AsyncCall>>, k: nat)
    requires k < |script|
    ensures Flat(script[..k + 1]) == Flat(script[..k]) + script[k]
    decreases k
  {
    if k == 0 {
      assert script[..1] == [script[0]] && script[..1][1..] == script[..0];
    } else {
      FlatSnoc(script[1..], k - 1);
      assert script[..k + 1][1..] == script[1..][..k] && script[..k][1..] == script[1..][..k - 1];
    }
  }
}
