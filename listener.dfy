/**
 * ListenerList: a registry of listener references whose order TryRemoveSwap
 * does not preserve. Listeners are compared by identity, so a registry holds
 * each one at most once as long as every insertion goes through TryAdd.
 */
module Listeners {
  import Seqs

  /** The registry after TryAdd(x): `x` is appended unless already present. */
  function Added<T(==)>(s: seq<T>, x: T): (r: seq<T>)
    ensures x in r
    ensures x in s ==> r == s
    ensures x !in s ==> |r| == |s| + 1 && r[..|s|] == s && multiset(r) == multiset(s) + multiset{x}
    ensures Seqs.NoDuplicates(s) ==> Seqs.NoDuplicates(r)
  {
    if x in s then s else s + [x]
  }

  /**
   * The registry after TryRemove_Swap(x): the last entry overwrites the
   * first occurrence of `x` and the vector shrinks by one.
   */
  function SwapRemoved<T(==)>(s: seq<T>, x: T): (r: seq<T>)
    ensures x !in s ==> r == s
    ensures x in s ==> |r| == |s| - 1 && multiset(r) + multiset{x} == multiset(s)
  {
    var i := Seqs.IndexOf(s, x);
    if i == |s| then s
    else
      var last := |s| - 1;
      SwapRemoveMultiset(s, i);
      s[i := s[last]][..last]
  }

  /** The registry after TryRemove_Shift(x): the first occurrence of `x` is erased. */
  function ShiftRemoved<T(==)>(s: seq<T>, x: T): (r: seq<T>)
    ensures x !in s ==> r == s
    ensures x in s ==> |r| == |s| - 1 && multiset(r) + multiset{x} == multiset(s)
  {
    var i := Seqs.IndexOf(s, x);
    if i == |s| then s
    else
      assert s == s[..i] + [s[i]] + s[i + 1..];
      s[..i] + s[i + 1..]
  }

  /** Overwriting position `i` with the last entry and dropping the last entry loses exactly `s[i]`. */
  lemma SwapRemoveMultiset<T>(s: seq<T>, i: nat)
    requires i < |s|
    ensures multiset(s[i := s[|s| - 1]][..|s| - 1]) + multiset{s[i]} == multiset(s)
  {
    var last := |s| - 1;
    var a := s[..i];
    if i == last {
      assert s == a + [s[i]];
      assert s[i := s[last]][..last] == a;
    } else {
      var b := s[i + 1..last];
      assert s == a + [s[i]] + b + [s[last]];
      assert s[i := s[last]][..last] == a + [s[last]] + b;
    }
  }

  /** A member of a duplicate-free sequence occurs exactly once. */
  lemma MemberCountOne<T>(s: seq<T>, x: T)
    requires Seqs.NoDuplicates(s) && x in s
    ensures multiset(s)[x] == 1
  {
    var i := Seqs.IndexOf(s, x);
    var t := s[i + 1..];
    assert s == s[..i] + [x] + t;
    assert x !in t by {
      forall k | 0 <= k < |t| ensures t[k] != x {
        assert t[k] == s[i + 1 + k];
      }
    }
  }

  /** Both removals take every copy of `x` out of a duplicate-free registry and keep it duplicate-free. */
  lemma RemovalsKeepNoDuplicates<T>(s: seq<T>, x: T)
    requires Seqs.NoDuplicates(s)
    ensures Seqs.NoDuplicates(SwapRemoved(s, x)) && x !in SwapRemoved(s, x)
    ensures Seqs.NoDuplicates(ShiftRemoved(s, x)) && x !in ShiftRemoved(s, x)
  {
    var i := Seqs.IndexOf(s, x);
    if i < |s| {
      MemberCountOne(s, x);
      SwapRemovedNoDuplicates(s, x);
      Seqs.NoDuplicatesCut(s, i, i + 1);
      assert multiset(SwapRemoved(s, x))[x] == 0;
      assert multiset(ShiftRemoved(s, x))[x] == 0;
    }
  }

  lemma SwapRemovedNoDuplicates<T>(s: seq<T>, x: T)
    requires Seqs.NoDuplicates(s)
    ensures Seqs.NoDuplicates(SwapRemoved(s, x))
  {
    var i := Seqs.IndexOf(s, x);
    if i < |s| {
      var last := |s| - 1;
      var r := SwapRemoved(s, x);
      forall a, b | 0 <= a < b < |r| ensures r[a] != r[b] {
        var a' := if a == i then last else a;
        var b' := if b == i then last else b;
        assert r[a] == s[a'] && r[b] == s[b'] && a' != b';
      }
    }
  }

  /**
   * Swap removal moves only one entry: every other position keeps its
   * listener and the former last listener lands in the vacated slot.
   */
  lemma SwapRemovedPositions<T>(s: seq<T>, x: T)
    requires x in s
    ensures var i := Seqs.IndexOf(s, x); var r := SwapRemoved(s, x);
      (forall k :: 0 <= k < |r| && k != i ==> r[k] == s[k]) &&
      (i < |r| ==> r[i] == s[|s| - 1])
  {
  }

  /** Reference definition: the registry with every copy of `x` filtered out, order kept. */
  function Without<T(==)>(s: seq<T>, x: T): (r: seq<T>)
    ensures x !in r
    ensures |r| <= |s|
  {
    if s == [] then []
    else if s[0] == x then Without(s[1..], x)
    else [s[0]] + Without(s[1..], x)
  }

  /** Shift removal from a duplicate-free registry is exactly the order-preserving filter. */
  lemma {:induction false} ShiftRemovedIsWithout<T>(s: seq<T>, x: T)
    requires Seqs.NoDuplicates(s)
    ensures ShiftRemoved(s, x) == Without(s, x)
    decreases |s|
  {
    if s != [] {
      var t := s[1..];
      assert Seqs.NoDuplicates(t) by { Seqs.NoDuplicatesSlice(s, 1, |s|); }
      if s[0] == x {
        assert x !in t by {
          forall k | 0 <= k < |t| ensures t[k] != x { assert t[k] == s[k + 1]; }
        }
        WithoutAbsent(t, x);
        assert s == [s[0]] + t;
      } else {
        ShiftRemovedIsWithout(t, x);
        ShiftRemovedCons(s, x);
      }
    }
  }

  /** Shift removal passes over a head that is not `x`. */
  lemma ShiftRemovedCons<T>(s: seq<T>, x: T)
    requires s != [] && s[0] != x
    ensures ShiftRemoved(s, x) == [s[0]] + ShiftRemoved(s[1..], x)
  {
    var t := s[1..];
    var i := Seqs.IndexOf(s, x);
    assert i == 1 + Seqs.IndexOf(t, x);
    if i < |s| {
      assert s[..i] == [s[0]] + t[..i - 1];
      assert s[i + 1..] == t[i..];
    }
  }

  /** Filtering out an absent value changes nothing. */
  lemma {:induction false} WithoutAbsent<T>(s: seq<T>, x: T)
    requires x !in s
    ensures Without(s, x) == s
    decreases |s|
  {
    if s != [] {
      assert x !in s[1..];
      WithoutAbsent(s[1..], x);
      assert s == [s[0]] + s[1..];
    }
  }

  /** ListenerList<T>: the listener vector, changed only through the three operations below. */
  class ListenerList<T(==)> {
    var listeners: seq<T>

    ghost predicate Valid()
      reads this
    {
      Seqs.NoDuplicates(listeners)
    }

    constructor ()
      ensures listeners == [] && Valid()
    {
      listeners := [];
    }

    /** eastl::find over the vector: the first position holding `x`, or the end. */
    method Find(x: T) returns (i: nat)
      ensures i <= |listeners|
      ensures i == Seqs.IndexOf(listeners, x)
    {
      i := 0;
      while i < |listeners| && listeners[i] != x
        invariant i <= |listeners|
        invariant forall k :: 0 <= k < i ==> listeners[k] != x
      {
        i := i + 1;
      }
    }

    method TryAdd(x: T)
      modifies this
      ensures listeners == Added(old(listeners), x)
      ensures old(Valid()) ==> Valid()
    {
      var i := Find(x);
      if i == |listeners| {
        listeners := listeners + [x];
      }
    }

    method TryRemoveSwap(x: T)
      modifies this
      ensures listeners == SwapRemoved(old(listeners), x)
      ensures old(Valid()) ==> Valid() && x !in listeners
    {
      ghost var s := listeners;
      var i := Find(x);
      if i < |listeners| {
        var last := |listeners| - 1;
        listeners := listeners[i := listeners[last]][..last];
      }
      if Seqs.NoDuplicates(s) {
        RemovalsKeepNoDuplicates(s, x);
      }
    }

    method TryRemoveShift(x: T)
      modifies this
      ensures listeners == ShiftRemoved(old(listeners), x)
      ensures old(Valid()) ==> Valid() && x !in listeners
    {
      ghost var s := listeners;
      var i := Find(x);
      if i < |listeners| {
        listeners := listeners[..i] + listeners[i + 1..];
      }
      if Seqs.NoDuplicates(s) {
        RemovalsKeepNoDuplicates(s, x);
      }
    }
  }
}
