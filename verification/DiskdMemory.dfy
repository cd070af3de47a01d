/**
 The diskd shared-memory buffers and message window (DiskdIOStrategy.cc, DiskdFile.cc): a
 bitmap allocator, and the flow control that is meant to keep it from running dry although
 completion handlers re-enter the sender.
 */
module DiskdMemory {
  import opened Collections

  const SHMBUF_BLKSZ: nat := 4096

  // ---------- the allocator ----------

  /** The indices of the set bits. */
  ghost function Bits(map_: seq<bool>): set<nat> { set i: nat | i < |map_| && map_[i] }

  lemma {:induction false} BitsSize(map_: seq<bool>)
    ensures |Bits(map_)| <= |map_|
    ensures |Bits(map_)| == |map_| <==> forall i :: 0 <= i < |map_| ==> map_[i]
    decreases |map_|
  {
    if map_ == [] {
      assert Bits(map_) == {};
    } else {
      var n := |map_| - 1;
      var front := map_[..n];
      BitsSize(front);
      if map_[n] {
        assert Bits(map_) == Bits(front) + {n};
      } else {
        assert Bits(map_) == Bits(front);
      }
    }
  }

  lemma SomeFree(map_: seq<bool>) returns (free: nat)
    requires |Bits(map_)| < |map_|
    ensures free < |map_| && !map_[free]
  {
    BitsSize(map_);
    free :| free < |map_| && !map_[free];
  }

  class SharedMemory {
    const nbufs: nat
    const inuseMap: array<bool>

    /** All buffers start free. */
    constructor (magic2: nat)
      ensures fresh(inuseMap) && Valid() && nbufs == magic2 * 13 / 10 && Bits(inuseMap[..]) == {}
    {
      nbufs := magic2 * 13 / 10;
      inuseMap := new bool[magic2 * 13 / 10](_ => false);
    }

    ghost predicate Valid() { inuseMap.Length == nbufs }

    /** Takes the first free buffer; there has to be one. */
    method Get() returns (shmOffset: nat)
      requires Valid() && |Bits(inuseMap[..])| < nbufs
      modifies inuseMap
      ensures shmOffset % SHMBUF_BLKSZ == 0 && shmOffset < nbufs * SHMBUF_BLKSZ
      ensures var i := shmOffset / SHMBUF_BLKSZ;
              && i !in Bits(old(inuseMap[..]))
              && Bits(inuseMap[..]) == Bits(old(inuseMap[..])) + {i}
              && forall k: nat :: k < i ==> k in Bits(old(inuseMap[..]))
    {
      ghost var free := SomeFree(inuseMap[..]);
      var i := 0;
      while inuseMap[i]
        invariant 0 <= i <= free < nbufs && !inuseMap[free]
        invariant forall k :: 0 <= k < i ==> inuseMap[k]
        decreases nbufs - i
      {
        i := i + 1;
      }
      inuseMap[i] := true;
      shmOffset := i * SHMBUF_BLKSZ;
      assert shmOffset / SHMBUF_BLKSZ == i;
      assert forall k :: 0 <= k < nbufs && k != i ==> inuseMap[k] == old(inuseMap[k]);
    }

    /** Gives a buffer back. */
    method Put(offset: nat)
      requires Valid() && offset < nbufs * SHMBUF_BLKSZ && offset / SHMBUF_BLKSZ in Bits(inuseMap[..])
      modifies inuseMap
      ensures Bits(inuseMap[..]) == Bits(old(inuseMap[..])) - {offset / SHMBUF_BLKSZ}
    {
      var i := offset / SHMBUF_BLKSZ;
      assert i < nbufs && inuseMap[i];
      inuseMap[i] := false;
      assert forall k :: 0 <= k < nbufs && k != i ==> inuseMap[k] == old(inuseMap[k]);
    }
  }

  // ---------- the message window ----------

  /** Activations of the strategy's code, the innermost last. */
  datatype Frame =
    | Drain                     // SEND, waiting for the window to shrink
    | Callback                  // callback(), called from outside SEND
    | Handler(buf: Option<nat>) // handle(), with the buffer of the message being handled
    | Foreign                   // a handler of another store directory, or of another I/O strategy

  datatype State = State(
    nbufs: nat,
    limit: nat,                 // magic2 when the buffers were allocated
    magic2: int,
    inuse: set<nat>,
    away: seq<Option<nat>>,     // the buffers of the messages sent and not yet received back
    stack: seq<Frame>,
    hand: Option<nat>)          // a buffer taken and not yet sent

  function Top(s: State): Option<Frame> { if s.stack == [] then None else Some(s.stack[|s.stack| - 1]) }

  predicate IsHandler(f: Frame) { f.Handler? || f.Foreign? }

  /** Code of disk files and their users is running, not the drain or receive loops. */
  predicate UserRuns(s: State) { Top(s).None? || IsHandler(Top(s).value) }

  predicate IsFree(s: State, i: nat) { i < s.nbufs && i !in s.inuse }

  ghost predicate HasFree(s: State) { exists i: nat :: IsFree(s, i) }

  function Release(inuse: set<nat>, b: Option<nat>): set<nat> { if b.Some? then inuse - {b.value} else inuse }

  function Pop(s: State): State
    requires s.stack != []
  {
    s.(stack := s.stack[..|s.stack| - 1])
  }

  /** SEND goes into its drain loop when the window is exceeded. */
  function Sent(s: State): State { if |s.away| > s.magic2 then s.(stack := s.stack + [Drain]) else s }

  datatype Action =
    | GetBuffer(i: nat)
    | SendOk | SendFails
    | EnterCallback | LeaveCallback | LeaveDrain
    | Receive(k: nat)
    | HandlerReturns
    | EnterForeign | LeaveForeign
    | ReconfigureQ2(value: int)

  ghost predicate Init(s: State) {
    s.magic2 == s.limit && s.nbufs == s.limit * 13 / 10 && s.inuse == {} && s.away == [] && s.stack == [] && s.hand == None
  }

  ghost predicate Step(s: State, a: Action, t: State) {
    match a
    case GetBuffer(i) => UserRuns(s) && s.hand == None && IsFree(s, i) && t == s.(inuse := s.inuse + {i}, hand := Some(i))
    case SendOk => UserRuns(s) && t == Sent(s.(away := s.away + [s.hand], hand := None))
    case SendFails => UserRuns(s) && t == Sent(s.(inuse := Release(s.inuse, s.hand), hand := None))
    case EnterCallback => UserRuns(s) && s.hand == None && t == s.(stack := s.stack + [Callback])
    case LeaveCallback => Top(s) == Some(Callback) && t == Pop(s)
    case LeaveDrain => Top(s) == Some(Drain) && |s.away| <= s.magic2 && t == Pop(s)
    case Receive(k) =>
      (Top(s) == Some(Drain) || Top(s) == Some(Callback)) && k < |s.away| &&
      t == s.(away := s.away[..k] + s.away[k + 1..], stack := s.stack + [Handler(s.away[k])])
    case HandlerReturns =>
      Top(s).Some? && Top(s).value.Handler? && s.hand == None &&
      t == Pop(s).(inuse := Release(s.inuse, Top(s).value.buf))
    // the drain loop serves all store directories, and so may any code that runs in between
    case EnterForeign => (UserRuns(s) || Top(s) == Some(Drain)) && s.hand == None && t == s.(stack := s.stack + [Foreign])
    case LeaveForeign => Top(s) == Some(Foreign) && s.hand == None && t == Pop(s)
    case ReconfigureQ2(v) => UserRuns(s) && t == if s.magic2 < v then s else s.(magic2 := v)
  }

  // ---------- accounting ----------

  function One(b: Option<nat>): multiset<nat> { if b.Some? then multiset{b.value} else multiset{} }

  function AwayBufs(away: seq<Option<nat>>): multiset<nat> {
    if away == [] then multiset{} else AwayBufs(away[..|away| - 1]) + One(away[|away| - 1])
  }

  function FrameBuf(f: Frame): multiset<nat> { if f.Handler? then One(f.buf) else multiset{} }

  function StackBufs(stack: seq<Frame>): multiset<nat> {
    if stack == [] then multiset{} else StackBufs(stack[..|stack| - 1]) + FrameBuf(stack[|stack| - 1])
  }

  /** How many handlers are nested, whoever's they are. */
  function Depth(stack: seq<Frame>): nat {
    if stack == [] then 0 else Depth(stack[..|stack| - 1]) + if IsHandler(stack[|stack| - 1]) then 1 else 0
  }

  /** How many of them are this strategy's. */
  function OwnDepth(stack: seq<Frame>): nat {
    if stack == [] then 0 else OwnDepth(stack[..|stack| - 1]) + if stack[|stack| - 1].Handler? then 1 else 0
  }

  /** How many foreign handlers a drain loop of this strategy has called: each may exceed the window once more. */
  function Guests(stack: seq<Frame>): nat {
    if stack == [] then 0
    else Guests(stack[..|stack| - 1]) +
         if stack[|stack| - 1].Foreign? && |stack| > 1 && stack[|stack| - 2].Drain? then 1 else 0
  }

  /** Every buffer in use has exactly one owner: a message away, a handler, or the hand. */
  ghost predicate Accounted(s: State) {
    multiset(s.inuse) == AwayBufs(s.away) + StackBufs(s.stack) + One(s.hand)
  }

  /** Messages away exceed the window by one in a drain loop, and by one for each foreign handler called there. */
  ghost predicate Windowed(s: State) {
    && s.magic2 <= s.limit
    && |s.away| <= s.limit + Guests(s.stack) + (if Top(s) == Some(Drain) then 1 else 0)
    && (s.hand.Some? ==> UserRuns(s))
  }

  ghost predicate Inv(s: State) {
    Accounted(s) && Windowed(s) && forall i :: i in s.inuse ==> i < s.nbufs
  }

  lemma {:induction false} AwayConcat(a: seq<Option<nat>>, b: seq<Option<nat>>)
    ensures AwayBufs(a + b) == AwayBufs(a) + AwayBufs(b)
    decreases |b|
  {
    hide One;
    if b == [] {
      assert a + b == a;
    } else {
      AwayConcat(a, b[..|b| - 1]);
      assert (a + b)[..|a + b| - 1] == a + b[..|b| - 1];
    }
  }

  lemma AwayOne(b: Option<nat>)
    ensures AwayBufs([b]) == One(b)
  {
    assert [b][..0] == [];
  }

  lemma AwayRemove(a: seq<Option<nat>>, k: nat)
    requires k < |a|
    ensures AwayBufs(a) == AwayBufs(a[..k] + a[k + 1..]) + One(a[k])
  {
    hide AwayBufs;
    assert a == a[..k] + ([a[k]] + a[k + 1..]);
    AwayConcat(a[..k], [a[k]] + a[k + 1..]);
    AwayConcat([a[k]], a[k + 1..]);
    AwayConcat(a[..k], a[k + 1..]);
    AwayOne(a[k]);
  }

  lemma {:induction false} AwaySize(a: seq<Option<nat>>)
    ensures |AwayBufs(a)| <= |a|
    decreases |a|
  {
    if a != [] { AwaySize(a[..|a| - 1]); }
  }

  lemma {:induction false} StackSize(st: seq<Frame>)
    ensures |StackBufs(st)| <= OwnDepth(st) && OwnDepth(st) + Guests(st) <= Depth(st)
    decreases |st|
  {
    if st != [] { StackSize(st[..|st| - 1]); }
  }

  lemma PushFrame(st: seq<Frame>, f: Frame)
    ensures StackBufs(st + [f]) == StackBufs(st) + FrameBuf(f)
    ensures Guests(st + [f]) == Guests(st) + if f.Foreign? && st != [] && st[|st| - 1].Drain? then 1 else 0
    ensures Depth(st + [f]) == Depth(st) + (if IsHandler(f) then 1 else 0)
    ensures OwnDepth(st + [f]) == OwnDepth(st) + if f.Handler? then 1 else 0
  {
    assert (st + [f])[..|st|] == st;
  }

  /** Removing one owner frees exactly that owner's buffer. */
  lemma ReleaseOwner(inuse: set<nat>, owners: multiset<nat>, b: Option<nat>)
    requires multiset(inuse) == owners + One(b)
    ensures multiset(Release(inuse, b)) == owners
  {
    if b.Some? {
      assert b.value in multiset(inuse);
      assert multiset(inuse - {b.value}) == multiset(inuse) - multiset{b.value};
    }
  }

  /** How the innermost activation counts. */
  lemma PopFrame(st: seq<Frame>)
    requires st != []
    ensures var rest, f := st[..|st| - 1], st[|st| - 1];
            && StackBufs(st) == StackBufs(rest) + FrameBuf(f)
            && Guests(st) == Guests(rest) + if f.Foreign? && rest != [] && rest[|rest| - 1].Drain? then 1 else 0
  {
  }

  /** The last but one activation is the innermost after a return. */
  lemma WindowAfterReturn(s: State, a: Action, t: State)
    requires Windowed(s) && Step(s, a, t) && (a.LeaveCallback? || a.LeaveDrain? || a.HandlerReturns? || a.LeaveForeign?)
    ensures Windowed(t)
  {
    hide Guests, AwayBufs, StackBufs;
    PopFrame(s.stack);
    assert t.stack == s.stack[..|s.stack| - 1] && t.away == s.away;
  }

  lemma WindowAfterCall(s: State, a: Action, t: State)
    requires Windowed(s) && Step(s, a, t) && (a.EnterCallback? || a.EnterForeign? || a.Receive?)
    ensures Windowed(t)
  {
    hide Guests, AwayBufs, StackBufs;
    var f := if a.Receive? then Handler(s.away[a.k]) else if a.EnterForeign? then Foreign else Callback;
    PushFrame(s.stack, f);
    assert t.stack == s.stack + [f] && Top(t) == Some(f);
    assert |t.away| == |s.away| - if a.Receive? then 1 else 0;
  }

  lemma WindowWhenSent(u: State)
    requires UserRuns(u) && u.magic2 <= u.limit && u.hand == None && |u.away| <= u.limit + Guests(u.stack) + 1
    ensures Windowed(Sent(u))
  {
    hide Guests;
    PushFrame(u.stack, Drain);
  }

  lemma WindowAfterSend(s: State, a: Action, t: State)
    requires Windowed(s) && Step(s, a, t) && (a.SendOk? || a.SendFails?)
    ensures Windowed(t)
  {
    hide Guests, Sent, Release;
    var u := if a.SendOk? then s.(away := s.away + [s.hand], hand := None) else s.(inuse := Release(s.inuse, s.hand), hand := None);
    assert UserRuns(u) && t == Sent(u);
    WindowWhenSent(u);
  }

  lemma WindowKeeps(s: State, a: Action, t: State)
    requires Windowed(s) && Step(s, a, t)
    ensures Windowed(t) && t.nbufs == s.nbufs && t.limit == s.limit
  {
    if a.SendOk? || a.SendFails? { WindowAfterSend(s, a, t); }
    if a.EnterCallback? || a.EnterForeign? || a.Receive? { WindowAfterCall(s, a, t); }
    if a.LeaveCallback? || a.LeaveDrain? || a.HandlerReturns? || a.LeaveForeign? { WindowAfterReturn(s, a, t); }
  }

  lemma SendKeeps(s: State, a: Action, t: State)
    requires Accounted(s) && Step(s, a, t) && (a.SendOk? || a.SendFails?)
    ensures Accounted(t)
  {
    hide AwayBufs, StackBufs, Accounted;
    if a.SendOk? {
      HandSent(s);
      PushKeeps(s.(away := s.away + [s.hand], hand := None), Drain);
    } else {
      HandReleased(s);
      PushKeeps(s.(inuse := Release(s.inuse, s.hand), hand := None), Drain);
    }
  }

  lemma HandSent(s: State)
    requires Accounted(s)
    ensures Accounted(s.(away := s.away + [s.hand], hand := None))
  {
    hide AwayBufs, StackBufs;
    AwayConcat(s.away, [s.hand]);
    AwayOne(s.hand);
  }

  lemma HandReleased(s: State)
    requires Accounted(s)
    ensures Accounted(s.(inuse := Release(s.inuse, s.hand), hand := None))
  {
    hide AwayBufs, StackBufs;
    ReleaseOwner(s.inuse, AwayBufs(s.away) + StackBufs(s.stack), s.hand);
  }

  lemma CallKeeps(s: State, a: Action, t: State)
    requires Accounted(s) && Step(s, a, t) && (a.EnterCallback? || a.EnterForeign? || a.Receive?)
    ensures Accounted(t)
  {
    hide AwayBufs, StackBufs, Accounted;
    match a
    case EnterCallback => PushKeeps(s, Callback);
    case EnterForeign => PushKeeps(s, Foreign);
    case Receive(k) => ReceiveKeeps(s, k);
  }

  lemma PushKeeps(s: State, f: Frame)
    requires Accounted(s) && !f.Handler?
    ensures Accounted(s.(stack := s.stack + [f]))
  {
    hide AwayBufs, StackBufs;
    PushFrame(s.stack, f);
  }

  lemma ReceiveKeeps(s: State, k: nat)
    requires Accounted(s) && k < |s.away|
    ensures Accounted(s.(away := s.away[..k] + s.away[k + 1..], stack := s.stack + [Handler(s.away[k])]))
  {
    hide AwayBufs, StackBufs;
    AwayRemove(s.away, k);
    PushFrame(s.stack, Handler(s.away[k]));
  }

  lemma ReturnKeeps(s: State, a: Action, t: State)
    requires Accounted(s) && Step(s, a, t) && (a.LeaveCallback? || a.LeaveDrain? || a.HandlerReturns? || a.LeaveForeign?)
    ensures Accounted(t)
  {
    hide AwayBufs, StackBufs;
    PopFrame(s.stack);
    if a.HandlerReturns? {
      ReleaseOwner(s.inuse, AwayBufs(s.away) + StackBufs(t.stack), Top(s).value.buf);
    }
  }

  lemma AccountsKeep(s: State, a: Action, t: State)
    requires Accounted(s) && Step(s, a, t)
    ensures Accounted(t)
  {
    hide AwayBufs, StackBufs;
    if a.GetBuffer? { assert multiset(s.inuse + {a.i}) == multiset(s.inuse) + multiset{a.i}; }
    if a.SendOk? || a.SendFails? { SendKeeps(s, a, t); }
    if a.EnterCallback? || a.EnterForeign? || a.Receive? { CallKeeps(s, a, t); }
    if a.LeaveCallback? || a.LeaveDrain? || a.HandlerReturns? || a.LeaveForeign? { ReturnKeeps(s, a, t); }
  }

  /** A lower Q2 lowers the window at once; a higher one is refused; nothing else changes. */
  lemma ReconfigureLowers(s: State, v: int, t: State)
    requires Step(s, ReconfigureQ2(v), t)
    ensures v <= s.magic2 ==> t.magic2 == v
    ensures v > s.magic2 ==> t.magic2 == s.magic2
    ensures t.away == s.away && t.stack == s.stack && t.inuse == s.inuse && t.hand == s.hand && t.limit == s.limit && t.nbufs == s.nbufs
  {
  }

  lemma StepKeeps(s: State, a: Action, t: State)
    requires Inv(s) && Step(s, a, t)
    ensures Inv(t) && t.nbufs == s.nbufs && t.limit == s.limit
  {
    hide Accounted, Windowed;
    WindowKeeps(s, a, t);
    AccountsKeep(s, a, t);
  }

  // ---------- whole runs ----------

  ghost predicate IsRun(states: seq<State>, actions: seq<Action>) {
    && |states| == |actions| + 1
    && Init(states[0])
    && forall i :: 0 <= i < |actions| ==> Step(states[i], actions[i], states[i + 1])
  }

  lemma InitHolds(s: State)
    requires Init(s)
    ensures Inv(s)
  {
    assert multiset(s.inuse) == multiset{};
  }

  lemma {:induction false} RunKeeps(states: seq<State>, actions: seq<Action>, n: nat)
    requires IsRun(states, actions) && n < |states|
    ensures Inv(states[n]) && states[n].nbufs == states[n].limit * 13 / 10 && states[n].limit == states[0].limit
    decreases n
  {
    hide Step, Inv;
    if n == 0 {
      InitHolds(states[0]);
    } else {
      RunKeeps(states, actions, n - 1);
      assert Step(states[n - 1], actions[n - 1], states[n]);
      StepKeeps(states[n - 1], actions[n - 1], states[n]);
    }
  }

  /** The start-up window and every Q2 value configured since, in order. */
  function Configured(limit: int, actions: seq<Action>): seq<int> {
    if actions == [] then [limit]
    else
      var a := actions[|actions| - 1];
      Configured(limit, actions[..|actions| - 1]) + if a.ReconfigureQ2? then [a.value] else []
  }

  lemma WindowStep(s: State, a: Action, t: State)
    requires Step(s, a, t)
    ensures t.magic2 == if a.ReconfigureQ2? && a.value <= s.magic2 then a.value else s.magic2
  {
    if a.ReconfigureQ2? { ReconfigureLowers(s, a.value, t); }
  }

  /** In every run the window is the lowest of the start-up value and the Q2 values configured since. */
  lemma {:induction false} WindowIsLowest(states: seq<State>, actions: seq<Action>, n: nat)
    requires IsRun(states, actions) && n < |states|
    ensures var qs := Configured(states[0].limit, actions[..n]);
            states[n].magic2 in qs && forall i :: 0 <= i < |qs| ==> states[n].magic2 <= qs[i]
    decreases n
  {
    hide Step;
    if n > 0 {
      WindowIsLowest(states, actions, n - 1);
      assert Step(states[n - 1], actions[n - 1], states[n]);
      WindowStep(states[n - 1], actions[n - 1], states[n]);
      assert actions[..n][..n - 1] == actions[..n - 1];
    }
  }

  lemma FreeIffRoom(s: State)
    requires forall i :: i in s.inuse ==> i < s.nbufs
    ensures |s.inuse| <= s.nbufs
    ensures HasFree(s) <==> |s.inuse| < s.nbufs
  {
    var rest := Below(s.nbufs) - s.inuse;
    assert s.inuse <= Below(s.nbufs);
    assert |rest| == s.nbufs - |s.inuse|;
    if |s.inuse| < s.nbufs {
      var i :| i in rest;
      assert IsFree(s, i);
    } else {
      assert rest == {};
      assert forall i: nat :: IsFree(s, i) ==> i in rest;
    }
  }

  /**
   In every run, whenever file code asks for a buffer: one is free exactly when the messages
   away and the handlers under way do not hold them all, and that is so at nesting depth d
   whenever magic2 (as it was at start-up) + d < nbufs.
   */
  lemma BufferAvailability(states: seq<State>, actions: seq<Action>, n: nat)
    requires IsRun(states, actions) && n < |states|
    requires UserRuns(states[n]) && states[n].hand == None
    ensures var s := states[n];
            HasFree(s) <==> |AwayBufs(s.away)| + |StackBufs(s.stack)| < s.nbufs
    ensures var s := states[n];
            s.limit + Depth(s.stack) < s.nbufs ==> HasFree(s)
  {
    RunKeeps(states, actions, n);
    var s := states[n];
    AwaySize(s.away);
    StackSize(s.stack);
    assert |s.away| + |StackBufs(s.stack)| <= s.limit + Depth(s.stack);
    FreeIffRoom(s);
    assert |multiset(s.inuse)| == |s.inuse|;
  }

  /** State k is inside the SEND that was called at state i: its drain loop is on the stack. */
  ghost predicate InsideSend(states: seq<State>, i: nat, k: nat)
    requires i < |states| && k < |states|
  {
    states[i].stack + [Drain] <= states[k].stack
  }

  lemma {:induction false} StaysInside(states: seq<State>, actions: seq<Action>, i: nat, k: nat)
    requires IsRun(states, actions) && i < k < |states| && (actions[i].SendOk? || actions[i].SendFails?)
    requires forall j :: i < j <= k ==> |states[j].stack| != |states[i].stack|
    ensures InsideSend(states, i, k)
    decreases k
  {
    assert Step(states[k - 1], actions[k - 1], states[k]);
    if k > i + 1 { StaysInside(states, actions, i, k - 1); }
  }

  /**
   At most magic2 messages are away when SEND returns, whatever happened while it drained: state n
   is the first one after the call at state i in which the stack is as high as at the call.
   */
  lemma SendRespectsWindow(states: seq<State>, actions: seq<Action>, i: nat, n: nat)
    requires IsRun(states, actions) && i < n < |states| && (actions[i].SendOk? || actions[i].SendFails?)
    requires |states[n].stack| == |states[i].stack| && forall j :: i < j < n ==> |states[j].stack| != |states[i].stack|
    ensures |states[n].away| <= states[n].magic2 && states[n].stack == states[i].stack
  {
    assert Step(states[n - 1], actions[n - 1], states[n]);
    if n > i + 1 {
      StaysInside(states, actions, i, n - 1);
      assert states[n - 1].stack == states[i].stack + [Drain];
      assert actions[n - 1] == LeaveDrain;
    }
  }

  // ---------- the bound is exact ----------

  /** File code runs, every message away and every handler holds a buffer, and Q2 was never lowered. */
  ghost predicate Packed(s: State) {
    && Inv(s) && UserRuns(s) && s.hand == None && s.magic2 == s.limit
    && (forall i :: 0 <= i < |s.away| ==> s.away[i].Some?)
    && (forall i :: 0 <= i < |s.stack| && s.stack[i].Handler? ==> s.stack[i].buf.Some?)
  }

  lemma {:induction false} AwayAllHold(a: seq<Option<nat>>)
    requires forall i :: 0 <= i < |a| ==> a[i].Some?
    ensures |AwayBufs(a)| == |a|
    decreases |a|
  {
    if a != [] { AwayAllHold(a[..|a| - 1]); }
  }

  lemma {:induction false} StackAllHold(st: seq<Frame>)
    requires forall i :: 0 <= i < |st| && st[i].Handler? ==> st[i].buf.Some?
    ensures |StackBufs(st)| == OwnDepth(st)
    decreases |st|
  {
    if st != [] { StackAllHold(st[..|st| - 1]); }
  }

  lemma PackedInUse(s: State)
    requires Packed(s)
    ensures |s.inuse| == |s.away| + OwnDepth(s.stack) <= s.nbufs
    ensures HasFree(s) <==> |s.away| + OwnDepth(s.stack) < s.nbufs
  {
    AwayAllHold(s.away);
    StackAllHold(s.stack);
    assert |multiset(s.inuse)| == |s.inuse|;
    FreeIffRoom(s);
  }

  /** A state that a run which started with the given magic2 can be in. */
  ghost predicate Reached(limit: nat, s: State) {
    exists states, actions :: LeadsTo(states, actions, limit, s)
  }

  ghost predicate LeadsTo(states: seq<State>, actions: seq<Action>, limit: nat, s: State) {
    IsRun(states, actions) && states[0].limit == limit && states[|actions|] == s
  }

  lemma ReachedStep(limit: nat, s: State, a: Action, t: State)
    requires Reached(limit, s) && Step(s, a, t)
    ensures Reached(limit, t)
  {
    hide Step;
    var states, actions :| LeadsTo(states, actions, limit, s);
    var states', actions' := states + [t], actions + [a];
    forall i | 0 <= i < |actions'| ensures Step(states'[i], actions'[i], states'[i + 1]) {
      if i < |actions| { assert Step(states[i], actions[i], states[i + 1]); }
    }
    assert LeadsTo(states', actions', limit, t);
  }

  lemma ReachedKeeps(limit: nat, s: State)
    requires Reached(limit, s)
    ensures Inv(s) && s.limit == limit && s.nbufs == limit * 13 / 10
  {
    var states, actions :| LeadsTo(states, actions, limit, s);
    RunKeeps(states, actions, |actions|);
  }

  /** While a buffer is free, one more message with a buffer can be sent. */
  lemma SendOne(limit: nat, s: State) returns (t: State)
    requires Reached(limit, s) && Packed(s) && HasFree(s)
    ensures Reached(limit, t) && t == Sent(s.(inuse := t.inuse, away := t.away)) && |t.away| == |s.away| + 1
    ensures forall i :: 0 <= i < |t.away| ==> t.away[i].Some?
  {
    var i: nat :| IsFree(s, i);
    var u := s.(inuse := s.inuse + {i}, hand := Some(i));
    ReachedStep(limit, s, GetBuffer(i), u);
    t := Sent(u.(away := u.away + [u.hand], hand := None));
    ReachedStep(limit, u, SendOk, t);
  }

  /** The window can be filled with messages that hold buffers. */
  lemma {:induction false} FillWindow(limit: nat, k: nat) returns (s: State)
    requires k <= limit
    ensures Reached(limit, s) && Packed(s) && |s.away| == k && s.stack == []
    decreases k
  {
    if k == 0 {
      s := State(limit * 13 / 10, limit, limit, {}, [], [], None);
      InitHolds(s);
      assert LeadsTo([s], [], limit, s);
    } else {
      var r := FillWindow(limit, k - 1);
      PackedInUse(r);
      ReachedKeeps(limit, r);
      s := SendOne(limit, r);
      ReachedKeeps(limit, s);
    }
  }

  /**
   Sending beyond a full window drains it, and a handler that is called for that, of this strategy
   or of another one, runs one level deeper.
   */
  lemma NestOnce(limit: nat, s: State, foreign: bool) returns (t: State)
    requires Reached(limit, s) && Packed(s) && |s.away| >= limit && HasFree(s)
    ensures Reached(limit, t) && Packed(t) && Depth(t.stack) == Depth(s.stack) + 1
    ensures |t.away| == |s.away| + (if foreign then 1 else 0)
    ensures OwnDepth(t.stack) == OwnDepth(s.stack) + if foreign then 0 else 1
  {
    hide Depth, OwnDepth, Guests, AwayBufs, StackBufs;
    var u := SendOne(limit, s);
    ReachedKeeps(limit, s);
    assert u.stack == s.stack + [Drain];
    PushFrame(s.stack, Drain);
    if foreign {
      t := u.(stack := u.stack + [Foreign]);
      assert Step(u, EnterForeign, t);
      ReachedStep(limit, u, EnterForeign, t);
      PushFrame(u.stack, Foreign);
    } else {
      t := u.(away := u.away[..0] + u.away[1..], stack := u.stack + [Handler(u.away[0])]);
      assert Step(u, Receive(0), t);
      ReachedStep(limit, u, Receive(0), t);
      PushFrame(u.stack, Handler(u.away[0]));
    }
    ReachedKeeps(limit, t);
  }

  lemma {:induction false} NestDeep(limit: nat, d: nat, foreign: bool) returns (s: State)
    requires limit + d <= limit * 13 / 10
    ensures Reached(limit, s) && Packed(s) && Depth(s.stack) == d && |s.inuse| == limit + d
    ensures |s.away| >= limit && (foreign ==> OwnDepth(s.stack) == 0)
    decreases d
  {
    if d == 0 {
      s := FillWindow(limit, limit);
      PackedInUse(s);
    } else {
      var r := NestDeep(limit, d - 1, foreign);
      ReachedKeeps(limit, r);
      PackedInUse(r);
      s := NestOnce(limit, r, foreign);
      PackedInUse(s);
    }
  }

  /** Code in handlers nested at most d deep always finds a free buffer when it asks for one. */
  ghost predicate AlwaysFree(limit: nat, d: nat) {
    forall s :: Reached(limit, s) && UserRuns(s) && s.hand == None && Depth(s.stack) <= d ==> HasFree(s)
  }

  /**
   The bound is exact: the allocator's assertion holds up to nesting depth d in every run exactly
   when magic2 + d < nbufs.  Otherwise handlers that each send one more message use up all buffers.
   */
  lemma BufferBoundIsExact(limit: nat, d: nat)
    ensures AlwaysFree(limit, d) <==> limit + d < limit * 13 / 10
  {
    if limit + d < limit * 13 / 10 {
      forall s | Reached(limit, s) && UserRuns(s) && s.hand == None && Depth(s.stack) <= d ensures HasFree(s) {
        var states, actions :| LeadsTo(states, actions, limit, s);
        RunKeeps(states, actions, |actions|);
        BufferAvailability(states, actions, |actions|);
      }
    } else {
      var s := NestDeep(limit, limit * 13 / 10 - limit, false);
      ReachedKeeps(limit, s);
      PackedInUse(s);
    }
  }

  /** It is the depth of all handlers that counts: those of other directories alone can use up the buffers. */
  lemma OwnDepthIsNoBound(limit: nat)
    ensures exists s :: Reached(limit, s) && UserRuns(s) && s.hand == None && OwnDepth(s.stack) == 0 && !HasFree(s)
  {
    var s := NestDeep(limit, limit * 13 / 10 - limit, true);
    ReachedKeeps(limit, s);
    PackedInUse(s);
  }
}
