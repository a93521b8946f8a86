/**
 * ObjectPool<T>: the columnar component store every subsystem keys by
 * ObjectID. The real pool is not part of this model; it is modelled by its
 * documented contract: a handle column and one parallel value column, dense,
 * appended at the end, removed by moving the last row into the hole.
 */
module ObjectPool {
  import opened Handles
  import opened Wrappers
  import Seqs

  datatype Pool<T> = Pool(handles: seq<ObjectID>, values: seq<T>) {

    /** Columns have equal length and no handle has two rows. */
    ghost predicate Valid() {
      |handles| == |values| && Seqs.NoDuplicates(handles)
    }

    predicate Contains(id: ObjectID) {
      id in handles
    }

    function Count(): nat {
      |handles|
    }

    /** TryGetComponent: the value in `id`'s row, or None (a null result). */
    function TryGet(id: ObjectID): (r: Option<T>)
      requires Valid()
      ensures r.Some? <==> Contains(id)
      ensures forall k :: 0 <= k < |handles| && handles[k] == id ==> r == Some(values[k])
    {
      var i := Seqs.IndexOf(handles, id);
      if i < |handles| then Some(values[i]) else None
    }

    /** TryAppendObject: fails, changing nothing, when `id` already has a row. */
    function TryAppend(id: ObjectID, v: T): (r: (bool, Pool<T>))
      requires Valid()
      ensures r.1.Valid()
      ensures r.0 <==> !Contains(id)
      ensures !r.0 ==> r.1 == this
      ensures r.0 ==> r.1.Count() == Count() + 1 && r.1.TryGet(id) == Some(v)
      ensures forall y :: r.1.Contains(y) <==> Contains(y) || y == id
    {
      if Contains(id) then (false, this)
      else
        var q := Pool(handles + [id], values + [v]);
        assert q.handles[|handles|] == id;
        (true, q)
    }

    /**
     * TryReleaseObject_Swap: overwrite `id`'s row with the last row and
     * shrink by one; returns false and changes nothing when `id` is absent.
     */
    function TryReleaseSwap(id: ObjectID): (r: (bool, Pool<T>))
      requires Valid()
      ensures r.1.Valid()
      ensures r.0 <==> Contains(id)
      ensures !r.0 ==> r.1 == this
      ensures r.0 ==> r.1.Count() == Count() - 1
      ensures !r.1.Contains(id)
      ensures forall y :: y != id ==> (r.1.Contains(y) <==> Contains(y))
    {
      var i := Seqs.IndexOf(handles, id);
      if i == |handles| then (false, this)
      else
        var last := |handles| - 1;
        var hs := handles[i := handles[last]][..last];
        var q := Pool(hs, values[i := values[last]][..last]);
        assert forall k :: 0 <= k < last ==> hs[k] == if k == i then handles[last] else handles[k];
        assert forall y :: y != id && y in handles ==> y in hs by {
          forall y | y != id && y in handles ensures y in hs {
            var k := Seqs.IndexOf(handles, y);
            assert k != i;
            if k == last { assert hs[i] == y; } else { assert hs[k] == y; }
          }
        }
        (true, q)
    }

    /** Overwrite the value in `id`'s row; no change when `id` is absent. */
    function TrySet(id: ObjectID, v: T): (r: Pool<T>)
      requires Valid()
      ensures r.Valid() && r.handles == handles
      ensures Contains(id) ==> r.TryGet(id) == Some(v)
      ensures !Contains(id) ==> r == this
    {
      var i := Seqs.IndexOf(handles, id);
      if i < |handles| then Pool(handles, values[i := v]) else this
    }
  }

  /** A pool with no rows. */
  function Empty<T>(): (p: Pool<T>)
    ensures p.Valid() && p.Count() == 0
  {
    Pool([], [])
  }

  /** Appending leaves every other handle's value where it was. */
  lemma AppendKeepsOthers<T>(p: Pool<T>, x: ObjectID, v: T, y: ObjectID)
    requires p.Valid() && y != x
    ensures p.TryAppend(x, v).1.TryGet(y) == p.TryGet(y)
  {
    var q := p.TryAppend(x, v).1;
    if p.Contains(y) {
      var k := Seqs.IndexOf(p.handles, y);
      assert q.handles[k] == y;
    }
  }

  /**
   * Swap-removal: every other present handle keeps its value, whichever row
   * it ends up in.
   */
  lemma ReleaseSwapKeepsOthers<T>(p: Pool<T>, x: ObjectID, y: ObjectID)
    requires p.Valid() && y != x
    ensures p.TryReleaseSwap(x).1.TryGet(y) == p.TryGet(y)
  {
    var q := p.TryReleaseSwap(x).1;
    if p.Contains(x) && p.Contains(y) {
      var i := Seqs.IndexOf(p.handles, x);
      var k := Seqs.IndexOf(p.handles, y);
      var last := |p.handles| - 1;
      if k == last {
        assert q.handles[i] == y && q.values[i] == p.values[last];
      } else {
        assert q.handles[k] == y && q.values[k] == p.values[k];
      }
    }
  }

  /** Overwriting one row leaves every other handle's value where it was. */
  lemma SetKeepsOthers<T>(p: Pool<T>, x: ObjectID, v: T, y: ObjectID)
    requires p.Valid() && y != x
    ensures p.TrySet(x, v).TryGet(y) == p.TryGet(y)
  {
    if p.Contains(y) {
      var k := Seqs.IndexOf(p.handles, y);
      assert p.TrySet(x, v).handles[k] == y;
    }
  }
}
