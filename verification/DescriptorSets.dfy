/**
 The descriptor set (DescriptorSet.cc, DescriptorSet.h): descriptors kept densely in one
 array, their positions in another, with constant-time operations.
 */
module DescriptorSets {
  import opened Collections

  ghost function Elements(s: seq<int>): set<int> { set i | 0 <= i < |s| :: s[i] }

  lemma {:induction false} DistinctSize(s: seq<int>)
    requires Distinct(s)
    ensures |Elements(s)| == |s|
    decreases |s|
  {
    if s != [] {
      var n := |s| - 1;
      DistinctSize(s[..n]);
      assert Elements(s) == Elements(s[..n]) + {s[n]};
      assert s[n] !in Elements(s[..n]);
    }
  }

  /** Pigeonhole: different numbers below n that leave one out are fewer than n. */
  lemma RoomForOneMore(s: seq<int>, n: nat, fd: int)
    requires Distinct(s) && (forall i :: 0 <= i < |s| ==> 0 <= s[i] < n) && 0 <= fd < n && fd !in Elements(s)
    ensures |s| < n
  {
    DistinctSize(s);
    var all := Elements(s) + {fd};
    assert |all| == |s| + 1;
    forall i | i in all ensures i in Below(n) { }
    NoLarger(all, Below(n));
  }

  class DescriptorSet {
    const capacity: nat
    const descriptors: array<int>
    const index: array<int>
    var size: nat

    constructor (squidMaxFd: nat)
      ensures Valid() && capacity == squidMaxFd && Members() == {}
      ensures fresh(descriptors) && fresh(index)
    {
      capacity := squidMaxFd;
      size := 0;
      descriptors := new int[squidMaxFd];
      index := new int[squidMaxFd];
      new;
      for i := 0 to capacity
        invariant size == 0 && forall k :: 0 <= k < i ==> index[k] == descriptors[k] == -1
      {
        index[i], descriptors[i] := -1, -1;
      }
    }

    /** The two arrays are each other's inverse on the live prefix, and -1 elsewhere. */
    ghost predicate Valid()
      reads this, descriptors, index
    {
      && descriptors.Length == index.Length == capacity && descriptors != index && size <= capacity
      && (forall i :: 0 <= i < size ==> 0 <= descriptors[i] < capacity && index[descriptors[i]] == i)
      && (forall i :: size <= i < capacity ==> descriptors[i] == -1)
      && (forall fd :: 0 <= fd < capacity ==>
                         index[fd] == -1 || (0 <= index[fd] < size && descriptors[index[fd]] == fd))
    }

    ghost function Members(): set<int>
      requires Valid()
      reads this, descriptors, index
    {
      set fd | 0 <= fd < capacity && index[fd] >= 0
    }

    predicate Has(fd: int)
      requires Valid()
      reads this, descriptors, index
      ensures Has(fd) <==> fd in Members()
    {
      0 <= fd < capacity && index[fd] >= 0
    }

    /** The live prefix lists the members without repetition. */
    lemma LivePrefix()
      requires Valid()
      ensures Distinct(descriptors[..size]) && Elements(descriptors[..size]) == Members() && |Members()| == size
    {
      var live := descriptors[..size];
      forall i, j | 0 <= i < j < size ensures live[i] != live[j] {
        assert index[descriptors[i]] == i && index[descriptors[j]] == j;
      }
      forall fd ensures fd in Elements(live) <==> fd in Members() {
        if fd in Members() { assert live[index[fd]] == fd; }
        if fd in Elements(live) {
          var i :| 0 <= i < size && live[i] == fd;
          assert index[descriptors[i]] == i;
        }
      }
      DistinctSize(live);
    }

    method Add(fd: int) returns (added: bool)
      requires Valid() && 0 <= fd < capacity
      modifies this, descriptors, index
      ensures Valid() && Members() == old(Members()) + {fd} && added == (fd !in old(Members()))
    {
      if Has(fd) {
        return false;
      }
      LivePrefix();
      RoomForOneMore(descriptors[..size], capacity, fd);
      assert size < capacity;
      var pos := size;
      size := size + 1;
      index[fd] := pos;
      descriptors[pos] := fd;
      return true;
    }

    method Del(fd: int) returns (deleted: bool)
      requires Valid() && 0 <= fd < capacity
      modifies this, descriptors, index
      ensures Valid() && Members() == old(Members()) - {fd} && deleted == (fd in old(Members()))
    {
      if !Has(fd) {
        return false;
      }
      var delPos := index[fd];
      assert size > 0 && 0 <= delPos < capacity;
      var lastPos := size - 1;
      var lastFd := descriptors[lastPos];
      assert delPos <= lastPos;
      descriptors[delPos] := lastFd;
      index[lastFd] := delPos;
      descriptors[lastPos] := -1;
      index[fd] := -1;
      size := size - 1;
      return true;
    }

    method Pop() returns (lastFd: int)
      requires Valid() && Members() != {}
      modifies this, descriptors, index
      ensures Valid() && lastFd in old(Members()) && Members() == old(Members()) - {lastFd}
      ensures old(size) > 0 && lastFd == old(descriptors[size - 1])
    {
      assert size > 0 by {
        var fd :| fd in Members();
        assert index[fd] >= 0;
      }
      var lastPos := size - 1;
      size := lastPos;
      lastFd := descriptors[lastPos];
      assert 0 <= lastFd < capacity;
      descriptors[lastPos] := -1;
      index[lastFd] := -1;
    }
  }
}
