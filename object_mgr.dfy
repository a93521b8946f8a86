/**
 * ObjectMgr<Name>: the generational identity allocator with its name column.
 * The real allocator is not part of this model; it is modelled by its
 * documented contract: a slot table whose generations only grow, and a pool
 * holding exactly the live handles and their names.
 */
module ObjectMgr {
  import opened Handles
  import opened Wrappers
  import opened ObjectPool

  datatype Slot = Slot(generation: nat, live: bool)

  datatype Mgr = Mgr(slots: seq<Slot>, pool: Pool<Name>) {

    /** The handle names its slot's current generation and the slot is in use. */
    predicate IsLive(id: ObjectID) {
      id.slot < |slots| && slots[id.slot].live && slots[id.slot].generation == id.generation
    }

    /** The handle's slot has since moved on to a later generation. */
    predicate IsStale(id: ObjectID) {
      id.slot < |slots| && id.generation < slots[id.slot].generation
    }

    /** The pool (which answers `IsValid`) holds exactly the live handles. */
    ghost predicate Valid() {
      && pool.Valid()
      && (forall s :: 0 <= s < |slots| ==> slots[s].generation >= 1)
      && (forall id :: pool.Contains(id) <==> IsLive(id))
    }
  }

  /** A manager that has issued nothing. */
  function EmptyMgr(): (m: Mgr)
    ensures m.Valid() && m.pool.Count() == 0
  {
    Mgr([], Empty())
  }

  /** The lowest slot not in use, or the first slot past the table. */
  function FirstFree(slots: seq<Slot>): (s: nat)
    ensures s <= |slots|
    ensures s < |slots| ==> !slots[s].live
    ensures forall k :: 0 <= k < s ==> slots[k].live
  {
    if |slots| == 0 then 0
    else if !slots[0].live then 0
    else 1 + FirstFree(slots[1..])
  }

  /**
   * CreateObject: issue a handle for the lowest free slot at that slot's
   * current generation (1 for a new slot) and record its name.
   */
  function Create(m: Mgr, name: Name): (r: (Mgr, ObjectID))
    requires m.Valid()
    ensures r.0.Valid()
    ensures !m.pool.Contains(r.1) && r.0.pool.Contains(r.1) && !r.1.IsNil()
    ensures r.0.pool.TryGet(r.1) == Some(name)
    ensures forall id :: id != r.1 ==> (r.0.pool.Contains(id) <==> m.pool.Contains(id))
  {
    var s := FirstFree(m.slots);
    var gen := if s < |m.slots| then m.slots[s].generation else 1;
    var id := ObjectID(s, gen);
    var slots := if s < |m.slots| then m.slots[s := Slot(gen, true)] else m.slots + [Slot(1, true)];
    var m' := Mgr(slots, m.pool.TryAppend(id, name).1);
    assert forall x :: x != id ==> (m'.IsLive(x) <==> m.IsLive(x));
    (m', id)
  }

  /**
   * ReleaseObject: retire a live handle by bumping its slot's generation and
   * dropping its row. A stale or NIL handle is ignored.
   */
  function Release(m: Mgr, id: ObjectID): (r: Mgr)
    requires m.Valid()
    ensures r.Valid()
    ensures !r.pool.Contains(id)
    ensures !m.pool.Contains(id) ==> r == m
    ensures m.pool.Contains(id) ==> r.IsStale(id)
    ensures forall x :: x != id ==> (r.pool.Contains(x) <==> m.pool.Contains(x))
  {
    if !m.pool.Contains(id) then m
    else
      var m' := Mgr(m.slots[id.slot := Slot(id.generation + 1, false)], m.pool.TryReleaseSwap(id).1);
      assert forall x :: x != id ==> (m'.IsLive(x) <==> m.IsLive(x));
      m'
  }

  /** TryGetComponent<C_NAME>: the name of a live handle. */
  function TryGetName(m: Mgr, id: ObjectID): (r: Option<Name>)
    requires m.Valid()
    ensures r.Some? <==> m.pool.Contains(id)
  {
    m.pool.TryGet(id)
  }

  /** Overwrite a live handle's name; nothing changes for any other handle. */
  function Rename(m: Mgr, id: ObjectID, name: Name): (r: Mgr)
    requires m.Valid()
    ensures r.Valid() && r.slots == m.slots && r.pool.handles == m.pool.handles
    ensures m.pool.Contains(id) ==> TryGetName(r, id) == Some(name)
    ensures !m.pool.Contains(id) ==> r == m
  {
    var r := Mgr(m.slots, m.pool.TrySet(id, name));
    assert forall x :: r.pool.Contains(x) <==> m.pool.Contains(x);
    r
  }

  /** A stale handle is never valid again: creation and release both keep it stale. */
  lemma StaleStaysStale(m: Mgr, a: ObjectID, b: ObjectID, name: Name)
    requires m.Valid() && m.IsStale(a)
    ensures !m.pool.Contains(a)
    ensures Create(m, name).0.IsStale(a)
    ensures Release(m, b).IsStale(a)
  {
  }

  /**
   * Generation safety: once a handle is released, no later handle equals it,
   * even one issued for the same slot, and it no longer tests valid.
   */
  lemma GenerationSafety(m: Mgr, a: ObjectID, name: Name)
    requires m.Valid() && m.pool.Contains(a)
    ensures var m2 := Release(m, a);
            var (m3, b) := Create(m2, name);
            b != a && !m3.pool.Contains(a) && m3.IsStale(a)
  {
    var m2 := Release(m, a);
    StaleStaysStale(m2, a, a, name);
  }

  /** Releasing twice is releasing once: the second call sees a stale handle. */
  lemma ReleaseIdempotent(m: Mgr, id: ObjectID)
    requires m.Valid()
    ensures Release(Release(m, id), id) == Release(m, id)
  {
  }
}
