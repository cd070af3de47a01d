/**
 Delay pools (DelayBucket.cc, DelayVector.cc): token buckets, shared by the identifiers that
 select them, and composite identifiers that ask all their members.
 */
module DelayPools {
  import opened Collections

  /** The restore rate (-1: never restored) and size of a bucket. */
  datatype DelaySpec = DelaySpec(restoreBps: int, maxBytes: int)

  /** What a client draws on: one bucket, or everything a vector of pools selected for it. */
  datatype Id = Leaf(bucket: nat) | Vector(ids: seq<Id>)

  function Max(a: int, b: int): int { if a <= b then b else a }

  /** How often the identifier contains bucket b. */
  function Uses(id: Id, b: nat): nat
    decreases id
  {
    match id
    case Leaf(k) => if k == b then 1 else 0
    case Vector(ids) => UsesAll(ids, b)
  }

  function UsesAll(ids: seq<Id>, b: nat): nat
    decreases ids
  {
    if ids == [] then 0 else Uses(ids[0], b) + UsesAll(ids[1..], b)
  }

  /** The buckets an identifier names, each as often as it is named. */
  function Buckets(id: Id): seq<nat>
    decreases id
  {
    match id
    case Leaf(k) => [k]
    case Vector(ids) => BucketsOf(ids)
  }

  function BucketsOf(ids: seq<Id>): seq<nat>
    decreases ids
  {
    if ids == [] then [] else Buckets(ids[0]) + BucketsOf(ids[1..])
  }

  lemma {:induction false} UsesCounts(id: Id, b: nat)
    ensures Uses(id, b) == multiset(Buckets(id))[b]
    decreases id
  {
    match id
    case Leaf(k) =>
    case Vector(ids) => UsesAllCounts(ids, b);
  }

  lemma {:induction false} UsesAllCounts(ids: seq<Id>, b: nat)
    ensures UsesAll(ids, b) == multiset(BucketsOf(ids))[b]
    decreases ids
  {
    if ids != [] {
      UsesCounts(ids[0], b);
      UsesAllCounts(ids[1..], b);
    }
  }

  /** All buckets the identifier draws on exist. */
  predicate Fits(id: Id, n: nat)
    decreases id
  {
    match id
    case Leaf(k) => k < n
    case Vector(ids) => forall i :: 0 <= i < |ids| ==> Fits(ids[i], n)
  }

  // ---------- how much may be read ----------

  /** x is the least of bound and the levels of the buckets used: no order of members matters. */
  ghost predicate IsLeast(x: int, levels: seq<int>, uses: nat -> nat, bound: int) {
    && x <= bound
    && (forall b: nat :: b < |levels| && uses(b) > 0 ==> x <= levels[b])
    && (x == bound || exists b: nat :: b < |levels| && uses(b) > 0 && x == levels[b])
  }

  /** The smallest of bound and the levels behind an identifier. */
  function Least(levels: seq<int>, id: Id, bound: int): int
    requires Fits(id, |levels|)
    decreases id
  {
    match id
    case Leaf(k) => Min(bound, levels[k])
    case Vector(ids) => LeastAll(levels, ids, bound)
  }

  function LeastAll(levels: seq<int>, ids: seq<Id>, bound: int): int
    requires forall i :: 0 <= i < |ids| ==> Fits(ids[i], |levels|)
    decreases ids
  {
    if ids == [] then bound else LeastAll(levels, ids[1..], Least(levels, ids[0], bound))
  }

  lemma {:induction false} LeastMeaning(levels: seq<int>, id: Id, bound: int)
    requires Fits(id, |levels|)
    ensures IsLeast(Least(levels, id, bound), levels, b => Uses(id, b), bound)
    decreases id
  {
    match id
    case Leaf(k) =>
      assert Uses(id, k) > 0;
      assert forall b: nat :: Uses(id, b) > 0 ==> b == k;
    case Vector(ids) => LeastAllMeaning(levels, ids, bound);
  }

  lemma {:induction false} LeastAllMeaning(levels: seq<int>, ids: seq<Id>, bound: int)
    requires forall i :: 0 <= i < |ids| ==> Fits(ids[i], |levels|)
    ensures IsLeast(LeastAll(levels, ids, bound), levels, b => UsesAll(ids, b), bound)
    decreases ids
  {
    if ids != [] {
      var first := Least(levels, ids[0], bound);
      LeastMeaning(levels, ids[0], bound);
      LeastAllMeaning(levels, ids[1..], first);
      var x := LeastAll(levels, ids[1..], first);
      forall b: nat | b < |levels| && UsesAll(ids, b) > 0 ensures x <= levels[b] {
        assert Uses(ids[0], b) > 0 || UsesAll(ids[1..], b) > 0;
      }
      if x != bound {
        if b: nat :| b < |levels| && UsesAll(ids[1..], b) > 0 && x == levels[b] {
          assert UsesAll(ids, b) > 0;
        } else {
          var b: nat :| b < |levels| && Uses(ids[0], b) > 0 && first == levels[b];
          assert UsesAll(ids, b) > 0;
        }
      }
    }
  }

  /** Identifiers that draw on the same buckets, in whatever order and nesting, are granted the same. */
  lemma LeastIgnoresOrder(levels: seq<int>, x: Id, y: Id, bound: int)
    requires Fits(x, |levels|) && Fits(y, |levels|)
    requires forall b: nat :: b < |levels| ==> (Uses(x, b) > 0 <==> Uses(y, b) > 0)
    ensures Least(levels, x, bound) == Least(levels, y, bound)
  {
    hide Least, Uses;
    LeastMeaning(levels, x, bound);
    LeastMeaning(levels, y, bound);
  }

  /** bytesWanted of buckets and, by asking every member in turn, of vectors. */
  method BytesWanted(levels: array<int>, id: Id, minimum: int, maximum: int) returns (nbytes: int)
    requires Fits(id, levels.Length)
    ensures nbytes == Max(minimum, Least(levels[..], id, maximum))
    decreases id
  {
    match id
    case Leaf(k) =>
      nbytes := Max(minimum, Min(maximum, levels[k]));
    case Vector(ids) =>
      nbytes := maximum;
      ghost var ls := levels[..];
      assert ids[0..] == ids;
      for i := 0 to |ids|
        invariant Max(minimum, LeastAll(ls, ids[i..], nbytes)) == Max(minimum, LeastAll(ls, ids, maximum))
      {
        var wanted := BytesWanted(levels, ids[i], minimum, nbytes);
        assert ids[i..][1..] == ids[i + 1..];
        LeastBelow(ls, ids[i + 1..], Least(ls, ids[i], nbytes), Min(nbytes, wanted), minimum);
        LeastMeaning(ls, ids[i], nbytes);
        nbytes := Min(nbytes, wanted);
      }
      nbytes := Max(minimum, nbytes);
  }

  /** Bounds that differ only below the minimum lead to the same clamped result. */
  lemma {:induction false} LeastBelow(levels: seq<int>, ids: seq<Id>, x: int, y: int, minimum: int)
    requires forall i :: 0 <= i < |ids| ==> Fits(ids[i], |levels|)
    ensures Max(minimum, x) == Max(minimum, y) ==>
              Max(minimum, LeastAll(levels, ids, x)) == Max(minimum, LeastAll(levels, ids, y))
    decreases ids
  {
    if ids != [] {
      LeastOneBelow(levels, ids[0], x, y, minimum);
      LeastBelow(levels, ids[1..], Least(levels, ids[0], x), Least(levels, ids[0], y), minimum);
    }
  }

  lemma {:induction false} LeastOneBelow(levels: seq<int>, id: Id, x: int, y: int, minimum: int)
    requires Fits(id, |levels|)
    ensures Max(minimum, x) == Max(minimum, y) ==>
              Max(minimum, Least(levels, id, x)) == Max(minimum, Least(levels, id, y))
    decreases id
  {
    match id
    case Leaf(_) =>
    case Vector(ids) => LeastBelow(levels, ids, x, y, minimum);
  }

  // ---------- charging and restoring ----------

  /** Every bucket is charged once for each time the identifier contains it. */
  method BytesIn(levels: array<int>, id: Id, qty: int)
    requires Fits(id, levels.Length)
    modifies levels
    ensures forall b: nat :: b < levels.Length ==> levels[b] == old(levels[b]) - qty * Uses(id, b)
    ensures forall b: nat :: b < levels.Length && b !in Buckets(id) ==> levels[b] == old(levels[b])
    ensures id.Leaf? ==> levels[id.bucket] == old(levels[id.bucket]) - qty
    decreases id
  {
    forall b: nat ensures Uses(id, b) == multiset(Buckets(id))[b] { UsesCounts(id, b); }
    match id
    case Leaf(k) =>
      levels[k] := levels[k] - qty;
    case Vector(ids) =>
      assert ids[0..] == ids;
      for i := 0 to |ids|
        invariant forall b: nat :: b < levels.Length ==>
                                     levels[b] - qty * UsesAll(ids[i..], b) == old(levels[b]) - qty * UsesAll(ids, b)
      {
        ghost var before := levels[..];
        assert ids[i..][1..] == ids[i + 1..];
        BytesIn(levels, ids[i], qty);
        forall b: nat | b < levels.Length
          ensures levels[b] - qty * UsesAll(ids[i + 1..], b) == old(levels[b]) - qty * UsesAll(ids, b)
        {
          assert UsesAll(ids[i..], b) == Uses(ids[i], b) + UsesAll(ids[i + 1..], b);
          Distribute(qty, Uses(ids[i], b), UsesAll(ids[i + 1..], b));
        }
      }
  }

  lemma Distribute(q: int, m: int, n: int)
    ensures q * (m + n) == q * m + q * n
  {
  }

  function Updated(level: int, rate: DelaySpec, incr: nat): int {
    if rate.restoreBps == -1 then level else Min(level + rate.restoreBps * incr, rate.maxBytes)
  }

  /** DelayBucket::update for every bucket. */
  method Update(levels: array<int>, rates: seq<DelaySpec>, incr: nat)
    requires |rates| == levels.Length
    modifies levels
    ensures forall b :: 0 <= b < levels.Length ==> levels[b] == Updated(old(levels[b]), rates[b], incr)
    ensures forall b :: 0 <= b < levels.Length ==>
              var full := old(levels[b]) + rates[b].restoreBps * incr;
              if rates[b].restoreBps == -1 then levels[b] == old(levels[b])
              else if full <= rates[b].maxBytes then levels[b] == full
              else levels[b] == rates[b].maxBytes
  {
    for i := 0 to levels.Length
      invariant forall b :: 0 <= b < i ==> levels[b] == Updated(old(levels[b]), rates[b], incr)
      invariant forall b :: i <= b < levels.Length ==> levels[b] == old(levels[b])
    {
      if rates[i].restoreBps != -1 {
        levels[i] := levels[i] + rates[i].restoreBps * incr;
        if levels[i] > rates[i].maxBytes {
          levels[i] := rates[i].maxBytes;
        }
      }
    }
  }

  /** A level is restored alike however the time is divided into ticks. */
  lemma TicksAdd(level: int, rate: DelaySpec, i: nat, j: nat)
    requires level <= rate.maxBytes && rate.restoreBps >= -1
    ensures Updated(Updated(level, rate, i), rate, j) == Updated(level, rate, i + j)
    ensures Updated(level, rate, 0) == level
  {
    Distribute(rate.restoreBps, i, j);
    if rate.restoreBps >= 0 {
      NonNegativeProduct(rate.restoreBps, j);
    }
  }

  /** Left alone, a bucket grows by its rate each second until it is full, and then stays full. */
  lemma Refills(level: int, rate: DelaySpec, incr: nat)
    requires level <= rate.maxBytes && rate.restoreBps != -1
    ensures level + rate.restoreBps * incr <= rate.maxBytes ==> Updated(level, rate, incr) - level == rate.restoreBps * incr
    ensures level + rate.restoreBps * incr >= rate.maxBytes ==> Updated(level, rate, incr) == rate.maxBytes
    ensures rate.restoreBps > 0 && incr >= rate.maxBytes - level ==> Updated(level, rate, incr) == rate.maxBytes
  {
    if rate.restoreBps > 0 && incr >= rate.maxBytes - level {
      Distribute(incr, 1, rate.restoreBps - 1);
      NonNegativeProduct(rate.restoreBps - 1, incr);
    }
  }

  // ---------- the rate bound ----------

  /** Either somebody reads qty bytes under an identifier, or incr seconds pass. */
  datatype Event = Read(id: Id, maximum: int, qty: nat) | Tick(incr: nat)

  /** A read stays within what bytesWanted(0, maximum) allows. */
  ghost predicate Allowed(levels: seq<int>, e: Event) {
    e.Read? ==>
      && Fits(e.id, |levels|)
      && e.qty <= Max(0, Least(levels, e.id, e.maximum))
  }

  function After(levels: seq<int>, rates: seq<DelaySpec>, e: Event): (r: seq<int>)
    requires |rates| == |levels|
    ensures |r| == |levels|
  {
    match e
    case Read(id, _, qty) => seq(|levels|, b requires 0 <= b < |levels| => levels[b] - qty * Uses(id, b))
    case Tick(incr) => seq(|levels|, b requires 0 <= b < |levels| => Updated(levels[b], rates[b], incr))
  }

  ghost predicate IsRun(levels: seq<int>, rates: seq<DelaySpec>, events: seq<Event>)
    requires |rates| == |levels|
    decreases |events|
  {
    events == [] || (Allowed(levels, events[0]) && IsRun(After(levels, rates, events[0]), rates, events[1..]))
  }

  /** The bytes read through bucket b. */
  function Drawn(events: seq<Event>, b: nat): nat {
    if events == [] then 0
    else (if events[0].Read? && Uses(events[0].id, b) > 0 then events[0].qty else 0) + Drawn(events[1..], b)
  }

  function Elapsed(events: seq<Event>): nat {
    if events == [] then 0 else (if events[0].Tick? then events[0].incr else 0) + Elapsed(events[1..])
  }

  function RestoreRate(rate: DelaySpec): int { if rate.restoreBps == -1 then 0 else rate.restoreBps }

  /** A read is no larger than the level of any bucket it draws on, unless that is negative. */
  lemma ReadWithinLevel(levels: seq<int>, e: Event, b: nat)
    requires e.Read? && Allowed(levels, e) && b < |levels| && Uses(e.id, b) > 0
    ensures e.qty <= Max(0, levels[b])
  {
    LeastMeaning(levels, e.id, e.maximum);
  }

  lemma StepBound(levels: seq<int>, rates: seq<DelaySpec>, e: Event, b: nat)
    requires |rates| == |levels| && b < |levels| && Allowed(levels, e)
    requires RestoreRate(rates[b]) >= 0 && levels[b] <= rates[b].maxBytes
    ensures var l := After(levels, rates, e)[b];
            && l <= rates[b].maxBytes
            && (if e.Read? && Uses(e.id, b) > 0 then e.qty else 0) + Max(0, l)
               <= Max(0, levels[b]) + RestoreRate(rates[b]) * (if e.Tick? then e.incr else 0)
  {
    match e
    case Read(id, _, qty) =>
      if Uses(id, b) > 0 {
        ReadWithinLevel(levels, e, b);
        Distribute(qty, 1, Uses(id, b) - 1);
        NonNegativeProduct(qty, Uses(id, b) - 1);
      }
    case Tick(incr) =>
      NonNegativeProduct(RestoreRate(rates[b]), incr);
  }

  lemma NonNegativeProduct(r: int, n: nat)
    requires r >= 0
    ensures r * n >= 0
  {
  }

  lemma {:induction false} WindowBound(levels: seq<int>, rates: seq<DelaySpec>, events: seq<Event>, b: nat)
    requires |rates| == |levels| && b < |levels| && IsRun(levels, rates, events)
    requires RestoreRate(rates[b]) >= 0 && levels[b] <= rates[b].maxBytes
    ensures Drawn(events, b) <= Max(0, levels[b]) + RestoreRate(rates[b]) * Elapsed(events)
    decreases |events|
  {
    var rate := RestoreRate(rates[b]);
    if events == [] {
      assert rate * Elapsed(events) == 0;
    } else {
      var e, next := events[0], After(levels, rates, events[0]);
      StepBound(levels, rates, e, b);
      WindowBound(next, rates, events[1..], b);
      Distribute(rate, if e.Tick? then e.incr else 0, Elapsed(events[1..]));
    }
  }

  /**
   The rate bound: in any window of any run of reads within their allowance and of ticks, the
   bytes read through a bucket are at most its size plus its rate times the time elapsed.
   */
  lemma RateBound(levels: seq<int>, rates: seq<DelaySpec>, events: seq<Event>, b: nat)
    requires |rates| == |levels| && b < |levels| && IsRun(levels, rates, events)
    requires RestoreRate(rates[b]) >= 0 && 0 <= rates[b].maxBytes && levels[b] <= rates[b].maxBytes
    ensures Drawn(events, b) <= rates[b].maxBytes + RestoreRate(rates[b]) * Elapsed(events)
  {
    WindowBound(levels, rates, events, b);
  }
}
