/** Small facts about sequences used by the pools and the listener list. */
module Seqs {

  /** No value appears at two positions. */
  ghost predicate NoDuplicates<T>(s: seq<T>) {
    forall i, j :: 0 <= i < j < |s| ==> s[i] != s[j]
  }

  /**
   * eastl::find over a whole vector: the first position holding `x`, or
   * `|s|` (the end iterator) when `x` does not occur.
   */
  function IndexOf<T(==)>(s: seq<T>, x: T): (i: nat)
    ensures i <= |s|
    ensures i < |s| ==> s[i] == x
    ensures forall k :: 0 <= k < i ==> s[k] != x
  {
    if |s| == 0 then 0
    else if s[0] == x then 0
    else 1 + IndexOf(s[1..], x)
  }

  /** In a duplicate-free sequence the position of a member is the only one holding it. */
  lemma IndexOfUnique<T>(s: seq<T>, k: nat)
    requires NoDuplicates(s) && k < |s|
    ensures IndexOf(s, s[k]) == k
  {
  }

  /** Cutting a slice out of a duplicate-free sequence keeps it duplicate-free. */
  lemma NoDuplicatesCut<T>(s: seq<T>, i: nat, e: nat)
    requires NoDuplicates(s) && i <= e <= |s|
    ensures NoDuplicates(s[..i] + s[e..])
  {
    var r := s[..i] + s[e..];
    forall a, b | 0 <= a < b < |r| ensures r[a] != r[b] {
      var a' := if a < i then a else a + (e - i);
      var b' := if b < i then b else b + (e - i);
      assert r[a] == s[a'] && r[b] == s[b'] && a' < b';
    }
  }

  /** Every slice of a duplicate-free sequence is duplicate-free. */
  lemma NoDuplicatesSlice<T>(s: seq<T>, i: nat, e: nat)
    requires NoDuplicates(s) && i <= e <= |s|
    ensures NoDuplicates(s[i..e])
  {
    var r := s[i..e];
    forall a, b | 0 <= a < b < |r| ensures r[a] != r[b] {
      assert r[a] == s[i + a] && r[b] == s[i + b];
    }
  }

  /**
   * Splitting a duplicate-free sequence around the slice `s[i..e]`: a value is
   * in `s` iff it is in the slice or in the rest, and never in both.
   */
  lemma CutMembership<T>(s: seq<T>, i: nat, e: nat)
    requires NoDuplicates(s) && i <= e <= |s|
    ensures forall y :: y in s <==> y in s[i..e] || y in s[..i] + s[e..]
    ensures forall y :: y in s[i..e] ==> y !in s[..i] + s[e..]
  {
    assert s == s[..i] + s[i..e] + s[e..];
    var r := s[..i] + s[e..];
    forall y | y in s[i..e] ensures y !in r {
      var a :| 0 <= a < |s[i..e]| && s[i..e][a] == y;
      assert s[i + a] == y;
      forall b | 0 <= b < |r| ensures r[b] != y {
        if b < i { assert r[b] == s[b]; } else { assert r[b] == s[b + (e - i)]; }
      }
    }
  }

  /** Inserting a value that is absent keeps a sequence duplicate-free and adds just that value. */
  lemma InsertFresh<T>(s: seq<T>, e: nat, x: T)
    requires NoDuplicates(s) && x !in s && e <= |s|
    ensures NoDuplicates(s[..e] + [x] + s[e..])
    ensures forall y :: y in s[..e] + [x] + s[e..] <==> y in s || y == x
  {
    var r := s[..e] + [x] + s[e..];
    assert s == s[..e] + s[e..];
    forall a, b | 0 <= a < b < |r| ensures r[a] != r[b] {
      var a' := if a < e then a else a - 1;
      var b' := if b < e then b else b - 1;
      if a != e && b != e {
        assert r[a] == s[a'] && r[b] == s[b'];
      } else if a == e {
        assert r[b] == s[b'];
      } else {
        assert r[a] == s[a'];
      }
    }
  }
}
