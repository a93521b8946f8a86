/**
 * Hierarchy: one sublevel's objects as a depth-first pre-order array. The
 * real hierarchy is not part of this model; it is modelled by the operations
 * the scene relies on: membership, the descendant enumeration, subtree
 * removal, insertion under a parent, and listener registration. Poses are not
 * part of this model.
 */
module Hierarchies {
  import opened Handles
  import opened Wrappers
  import Seqs

  /**
   * `ids[k]` sits at depth `depths[k]`; a node's subtree is the run of deeper
   * nodes that follows it. `id` is the sublevel's own ObjectID and
   * `listeners` the registered IHierarchyListener objects.
   */
  datatype Hierarchy = Hierarchy(id: ObjectID, ids: seq<ObjectID>, depths: seq<nat>, listeners: seq<object>) {

    ghost predicate Valid() {
      |ids| == |depths| && Seqs.NoDuplicates(ids)
    }

    predicate Contains(x: ObjectID) {
      x in ids
    }
  }

  /** A fresh hierarchy for sublevel `id`: no nodes, no listeners. */
  function NewHierarchy(id: ObjectID): (h: Hierarchy)
    ensures h.Valid() && h.id == id && h.listeners == []
    ensures forall x :: !h.Contains(x)
  {
    Hierarchy(id, [], [], [])
  }

  /** The first position at or after `k` whose depth is at most `d`. */
  function ScanEnd(depths: seq<nat>, d: nat, k: nat): (e: nat)
    requires k <= |depths|
    ensures k <= e <= |depths|
    ensures forall j :: k <= j < e ==> depths[j] > d
    ensures e < |depths| ==> depths[e] <= d
    decreases |depths| - k
  {
    if k == |depths| || depths[k] <= d then k else ScanEnd(depths, d, k + 1)
  }

  /** GetDescendentRangeByIndex: one past the last node of node `i`'s subtree. */
  function DescendantEnd(h: Hierarchy, i: nat): (e: nat)
    requires h.Valid() && i < |h.ids|
    ensures i < e <= |h.ids|
    ensures forall j :: i < j < e ==> h.depths[j] > h.depths[i]
    ensures e < |h.ids| ==> h.depths[e] <= h.depths[i]
  {
    ScanEnd(h.depths, h.depths[i], i + 1)
  }

  /**
   * HierarchyDescendentIterator(h, x): x's descendants in storage order,
   * none when `x` is not in the hierarchy.
   */
  function Descendants(h: Hierarchy, x: ObjectID): (r: seq<ObjectID>)
    requires h.Valid()
    ensures x !in r
    ensures forall y :: y in r ==> h.Contains(y)
  {
    var i := Seqs.IndexOf(h.ids, x);
    if i == |h.ids| then []
    else
      var r := h.ids[i + 1 .. DescendantEnd(h, i)];
      assert forall k :: 0 <= k < |r| ==> r[k] == h.ids[i + 1 + k];
      r
  }

  /**
   * TryRelease: remove `x` and its whole subtree; the removed ids come back
   * in storage order for the WillRemoveObject callbacks. No change when `x`
   * is absent.
   */
  function TryRelease(h: Hierarchy, x: ObjectID): (r: (seq<ObjectID>, Hierarchy))
    requires h.Valid()
    ensures r.1.Valid() && r.1.id == h.id && r.1.listeners == h.listeners
    ensures Seqs.NoDuplicates(r.0)
    ensures h.Contains(x) ==> r.0 == [x] + Descendants(h, x)
    ensures !h.Contains(x) ==> r.0 == [] && r.1 == h
    ensures forall y :: y in r.0 ==> h.Contains(y)
    ensures forall y :: r.1.Contains(y) <==> h.Contains(y) && y !in r.0
  {
    var i := Seqs.IndexOf(h.ids, x);
    if i == |h.ids| then ([], h)
    else
      var e := DescendantEnd(h, i);
      var removed := h.ids[i..e];
      var h' := Hierarchy(h.id, h.ids[..i] + h.ids[e..], h.depths[..i] + h.depths[e..], h.listeners);
      Seqs.NoDuplicatesCut(h.ids, i, e);
      Seqs.NoDuplicatesSlice(h.ids, i, e);
      Seqs.CutMembership(h.ids, i, e);
      assert removed == [x] + Descendants(h, x);
      (removed, h')
  }

  /**
   * Add: a new node goes at the end of its parent's subtree one level
   * deeper, or at the end at depth 0 when there is no parent. Fails when `x`
   * is already present or the parent is not.
   */
  function TryAdd(h: Hierarchy, x: ObjectID, parent: Option<ObjectID>): (r: (bool, Hierarchy))
    requires h.Valid()
    ensures r.1.Valid() && r.1.id == h.id && r.1.listeners == h.listeners
    ensures r.0 <==> !h.Contains(x) && (parent.Some? ==> h.Contains(parent.value))
    ensures !r.0 ==> r.1 == h
    ensures forall y :: r.1.Contains(y) <==> h.Contains(y) || (r.0 && y == x)
  {
    if h.Contains(x) then (false, h)
    else if parent.None? then
      var h' := Hierarchy(h.id, h.ids + [x], h.depths + [0], h.listeners);
      assert h'.ids[|h.ids|] == x;
      (true, h')
    else
      var p := Seqs.IndexOf(h.ids, parent.value);
      if p == |h.ids| then (false, h)
      else
        var e := DescendantEnd(h, p);
        var ids' := h.ids[..e] + [x] + h.ids[e..];
        var h' := Hierarchy(h.id, ids', h.depths[..e] + [h.depths[p] + 1] + h.depths[e..], h.listeners);
        Seqs.InsertFresh(h.ids, e, x);
        (true, h')
  }

  /** AddListener: register `l` unless it is already registered. */
  function AddListener(h: Hierarchy, l: object): (r: Hierarchy)
    ensures r.id == h.id && r.ids == h.ids && r.depths == h.depths
    ensures l in r.listeners
    ensures l in h.listeners ==> r == h
    ensures l !in h.listeners ==> r.listeners == h.listeners + [l]
  {
    if l in h.listeners then h else h.(listeners := h.listeners + [l])
  }
}
