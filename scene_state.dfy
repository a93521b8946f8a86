/**
 * The scene's bookkeeping as values: the object manager, the sublevel pool
 * (sublevel id to its hierarchy) and the reverse index `sceneObjects`
 * (object id to the sublevel whose hierarchy holds it, standing for the
 * Hierarchy* the source stores). The lookups and the two release
 * specifications live here; the Scene class drives them.
 */
module SceneState {
  import opened Handles
  import opened Wrappers
  import Seqs
  import opened ObjectPool
  import opened ObjectMgr
  import opened Hierarchies

  /** An ISceneListener*, compared by identity. */
  datatype SceneListener = SceneListener(tag: nat)

  /** One Scene_WillReleaseObject(scene, id) call made on `listener`. */
  datatype Notification = WillReleaseObject(listener: SceneListener, id: ObjectID)

  /**
   * Which exit TryReleaseObject takes. NullHierarchy is the path on which
   * the source goes on to use a null Hierarchy reference; the model stops there.
   */
  datatype ReleaseOutcome = NotValid | SublevelRoot | Unparented | NullHierarchy | Released

  datatype SceneData = SceneData(mgr: Mgr, sublevels: Pool<Hierarchy>, sceneObjects: Pool<ObjectID>)

  /** What a release did: its exit, the destroy set it built, and the state it left. */
  datatype ReleaseResult = ReleaseResult(outcome: ReleaseOutcome, destroySet: seq<ObjectID>, state: SceneData)

  /** Listeners are told about the destroy set only on these two exits. */
  predicate Notifies(o: ReleaseOutcome) {
    o == Unparented || o == Released
  }

  ghost predicate PoolsValid(st: SceneData) {
    st.mgr.Valid() && st.sublevels.Valid() && st.sceneObjects.Valid()
  }

  /** A sublevel is live, its hierarchy is well formed, and each of its nodes is indexed back to it. */
  ghost predicate SublevelOk(st: SceneData, s: ObjectID)
    requires PoolsValid(st) && st.sublevels.Contains(s)
  {
    var h := st.sublevels.TryGet(s).value;
    && st.mgr.pool.Contains(s)
    && h.Valid() && h.id == s
    && (forall x :: h.Contains(x) ==> st.sceneObjects.TryGet(x) == Some(s))
  }

  /** An indexed object is live and sits in the hierarchy of the sublevel it is indexed to. */
  ghost predicate ObjectOk(st: SceneData, x: ObjectID)
    requires PoolsValid(st) && st.sceneObjects.Contains(x)
  {
    var o := st.sceneObjects.TryGet(x).value;
    && st.mgr.pool.Contains(x)
    && st.sublevels.Contains(o)
    && st.sublevels.TryGet(o).value.Contains(x)
  }

  /** `sceneObjects` agrees with the hierarchies, and everything indexed is live. */
  ghost predicate Consistent(st: SceneData) {
    && PoolsValid(st)
    && (forall s :: st.sublevels.Contains(s) ==> SublevelOk(st, s))
    && (forall x :: st.sceneObjects.Contains(x) ==> ObjectOk(st, x))
  }

  /** The scene `me` is a listener of every sublevel hierarchy. */
  ghost predicate Registered(st: SceneData, me: object)
    requires st.sublevels.Valid()
  {
    forall s :: st.sublevels.Contains(s) ==> me in st.sublevels.TryGet(s).value.listeners
  }

  /** IsValid: the manager's pool holds `id`. */
  predicate IsValid(st: SceneData, id: ObjectID) {
    st.mgr.pool.Contains(id)
  }

  predicate IsSublevel(st: SceneData, id: ObjectID) {
    st.sublevels.Contains(id)
  }

  predicate IsSceneObject(st: SceneData, id: ObjectID) {
    st.sceneObjects.Contains(id)
  }

  /** GetName: the object's name, or the default Name for an id that is not valid. */
  function GetName(st: SceneData, id: ObjectID): (r: Name)
    requires st.mgr.Valid()
    ensures IsValid(st, id) ==> TryGetName(st.mgr, id) == Some(r)
    ensures !IsValid(st, id) ==> r == DEFAULT_NAME
  {
    TryGetName(st.mgr, id).GetOr(DEFAULT_NAME)
  }

  /** GetHierarchy: the sublevel's hierarchy; None (null) for an id that is not a sublevel. */
  function GetHierarchy(st: SceneData, id: ObjectID): (r: Option<Hierarchy>)
    requires st.sublevels.Valid()
    ensures r.Some? <==> IsSublevel(st, id)
  {
    st.sublevels.TryGet(id)
  }

  /** GetSublevel: the sublevel whose hierarchy holds `id`; NIL when `id` is not indexed. */
  function GetSublevel(st: SceneData, id: ObjectID): (r: ObjectID)
    requires st.sceneObjects.Valid()
    ensures !IsSceneObject(st, id) ==> r == NIL
  {
    match st.sceneObjects.TryGet(id)
    case Some(o) => o
    case None => NIL
  }

  /**
   * GetSublevelHierarchyFor: the hierarchy that holds `id` as a node; None
   * (null) when `id` is not indexed.
   */
  function GetSublevelHierarchyFor(st: SceneData, id: ObjectID): (r: Option<Hierarchy>)
    requires st.sublevels.Valid() && st.sceneObjects.Valid()
    ensures !IsSceneObject(st, id) ==> r.None?
  {
    match st.sceneObjects.TryGet(id)
    case Some(o) => st.sublevels.TryGet(o)
    case None => None
  }

  /** A live handle is never NIL: live generations start at 1. */
  lemma LiveIsNotNil(m: Mgr, id: ObjectID)
    requires m.Valid() && m.pool.Contains(id)
    ensures !id.IsNil()
  {
    assert m.IsLive(id);
  }

  /**
   * In a consistent scene the lookups agree: an indexed object's sublevel is
   * a real sublevel whose hierarchy holds it, and GetSublevelHierarchyFor
   * answers with that hierarchy; an unindexed id has the NIL sublevel.
   */
  lemma LookupsAgree(st: SceneData, id: ObjectID)
    requires Consistent(st)
    ensures GetSublevel(st, id).IsNil() <==> !IsSceneObject(st, id)
    ensures IsSceneObject(st, id) ==>
      var s := GetSublevel(st, id);
      && IsSublevel(st, s)
      && GetHierarchy(st, s).value.id == s
      && GetHierarchy(st, s).value.Contains(id)
      && GetSublevelHierarchyFor(st, id) == GetHierarchy(st, s)
  {
    if IsSceneObject(st, id) {
      var s := GetSublevel(st, id);
      assert ObjectOk(st, id);
      assert SublevelOk(st, s);
      LiveIsNotNil(st.mgr, s);
    }
  }

  /**
   * The Hierarchy_WillRemoveObject callbacks for `xs`, in order: each one
   * swap-removes its id from the index.
   */
  function DropAll(objs: Pool<ObjectID>, xs: seq<ObjectID>): (r: Pool<ObjectID>)
    requires objs.Valid()
    ensures r.Valid()
    ensures forall y :: r.Contains(y) <==> objs.Contains(y) && y !in xs
    ensures forall y :: y !in xs ==> r.TryGet(y) == objs.TryGet(y)
    decreases |xs|
  {
    if xs == [] then objs
    else
      var n := |xs| - 1;
      var p := DropAll(objs, xs[..n]);
      assert forall y :: y in xs <==> y in xs[..n] || y == xs[n] by {
        assert xs == xs[..n] + [xs[n]];
      }
      forall y | y !in xs ensures p.TryReleaseSwap(xs[n]).1.TryGet(y) == p.TryGet(y) {
        ReleaseSwapKeepsOthers(p, xs[n], y);
      }
      p.TryReleaseSwap(xs[n]).1
  }

  /**
   * The release loop of Scene.cpp as written: one ReleaseObject(id) per
   * destroy-set element, always of `id` itself.
   */
  function ReleaseEachAsWritten(m: Mgr, destroySet: seq<ObjectID>, id: ObjectID): (r: Mgr)
    requires m.Valid()
    ensures r.Valid()
    ensures destroySet == [] ==> r == m
    ensures destroySet != [] ==> r == Release(m, id)
    decreases |destroySet|
  {
    if destroySet == [] then m
    else
      var n := |destroySet| - 1;
      var p := ReleaseEachAsWritten(m, destroySet[..n], id);
      ReleaseIdempotent(m, id);
      Release(p, id)
  }

  /** The intended release loop: one ReleaseObject per destroy-set element, of that element. */
  function ReleaseAll(m: Mgr, destroySet: seq<ObjectID>): (r: Mgr)
    requires m.Valid()
    ensures r.Valid()
    ensures forall y :: r.pool.Contains(y) <==> m.pool.Contains(y) && y !in destroySet
    decreases |destroySet|
  {
    if destroySet == [] then m
    else
      var n := |destroySet| - 1;
      assert forall y :: y in destroySet <==> y in destroySet[..n] || y == destroySet[n] by {
        assert destroySet == destroySet[..n] + [destroySet[n]];
      }
      Release(ReleaseAll(m, destroySet[..n]), destroySet[n])
  }

  /**
   * As written, only `id` is released however long the destroy set is: every
   * descendant that was valid before stays valid.
   */
  lemma ReleaseEachAsWrittenKeepsRest(m: Mgr, destroySet: seq<ObjectID>, id: ObjectID, k: nat)
    requires m.Valid() && 0 < k < |destroySet|
    requires destroySet[0] == id && destroySet[k] != id && m.pool.Contains(destroySet[k])
    ensures ReleaseEachAsWritten(m, destroySet, id).pool.Contains(destroySet[k])
  {
  }

  /** The intended loop leaves no destroy-set element valid and every other id as it was. */
  lemma ReleaseAllInvalidatesAll(m: Mgr, destroySet: seq<ObjectID>)
    requires m.Valid()
    ensures forall k :: 0 <= k < |destroySet| ==> !ReleaseAll(m, destroySet).pool.Contains(destroySet[k])
    ensures forall y :: y !in destroySet ==> (ReleaseAll(m, destroySet).pool.Contains(y) <==> m.pool.Contains(y))
  {
  }

  /** One inner pass of the notification loop: every listener, in list order, told about `x`. */
  function Round(listeners: seq<SceneListener>, x: ObjectID): (r: seq<Notification>)
    ensures |r| == |listeners|
    ensures forall j :: 0 <= j < |listeners| ==> r[j] == WillReleaseObject(listeners[j], x)
    decreases |listeners|
  {
    if listeners == [] then []
    else Round(listeners[..|listeners| - 1], x) + [WillReleaseObject(listeners[|listeners| - 1], x)]
  }

  /** The nested notification loop: for each destroy-set element in order, a full round of listeners. */
  function Notifications(destroySet: seq<ObjectID>, listeners: seq<SceneListener>): (r: seq<Notification>)
    ensures |r| == |destroySet| * |listeners|
    decreases |destroySet|
  {
    if destroySet == [] then []
    else
      var n := |destroySet| - 1;
      var r := Notifications(destroySet[..n], listeners) + Round(listeners, destroySet[n]);
      assert |r| == n * |listeners| + |listeners| == (n + 1) * |listeners|;
      r
  }

  /**
   * Every listener is called exactly once per destroy-set element: call
   * number `k * |listeners| + j` tells listener `j` about element `k`.
   */
  lemma {:induction false} NotificationAt(destroySet: seq<ObjectID>, listeners: seq<SceneListener>, k: nat, j: nat)
    requires k < |destroySet| && j < |listeners|
    ensures k * |listeners| + j < |Notifications(destroySet, listeners)|
    ensures Notifications(destroySet, listeners)[k * |listeners| + j] == WillReleaseObject(listeners[j], destroySet[k])
    decreases |destroySet|
  {
    var n := |destroySet| - 1;
    var prefix := Notifications(destroySet[..n], listeners);
    assert |prefix| == n * |listeners|;
    if k < n {
      NotificationAt(destroySet[..n], listeners, k, j);
      assert destroySet[..n][k] == destroySet[k];
    } else {
      assert k * |listeners| + j == |prefix| + j;
    }
  }

  /** Nobody is told anything when the destroy set is empty or no listener is registered. */
  lemma NoNotifications(destroySet: seq<ObjectID>, listeners: seq<SceneListener>)
    requires destroySet == [] || listeners == []
    ensures Notifications(destroySet, listeners) == []
  {
    assert |Notifications(destroySet, listeners)| == 0;
  }

  /** Releasing an id that nothing indexes or parents keeps the scene consistent. */
  lemma UnparentedReleaseConsistent(st: SceneData, id: ObjectID)
    requires Consistent(st) && !IsSublevel(st, id) && !IsSceneObject(st, id)
    ensures Consistent(st.(mgr := Release(st.mgr, id)))
  {
    var st' := st.(mgr := Release(st.mgr, id));
    forall s | st'.sublevels.Contains(s) ensures SublevelOk(st', s) {
      assert SublevelOk(st, s);
    }
    forall x | st'.sceneObjects.Contains(x) ensures ObjectOk(st', x) {
      assert ObjectOk(st, x);
    }
  }

  /**
   * Scene.cpp:49-53 on hierarchy `h`: `id` leaves the index, `h` loses the
   * subtree of `id`, and the WillRemoveObject callbacks drop every removed
   * node from the index.
   */
  function PruneFrom(st: SceneData, h: Hierarchy, id: ObjectID): (r: SceneData)
    requires PoolsValid(st) && h.Valid() && IsSublevel(st, h.id)
    ensures PoolsValid(r) && r.mgr == st.mgr
    ensures r.sublevels.handles == st.sublevels.handles
    ensures GetHierarchy(r, h.id) == Some(TryRelease(h, id).1)
    ensures forall s :: s != h.id ==> GetHierarchy(r, s) == GetHierarchy(st, s)
    ensures forall y :: IsSceneObject(r, y) <==> IsSceneObject(st, y) && y != id && y !in TryRelease(h, id).0
    ensures forall y :: y != id && y !in TryRelease(h, id).0 ==> GetSublevel(r, y) == GetSublevel(st, y)
  {
    var (removed, h') := TryRelease(h, id);
    var r := st.(sublevels := st.sublevels.TrySet(h.id, h'),
                 sceneObjects := DropAll(st.sceneObjects.TryReleaseSwap(id).1, removed));
    assert forall s :: s != h.id ==> r.sublevels.TryGet(s) == st.sublevels.TryGet(s) by {
      forall s | s != h.id ensures r.sublevels.TryGet(s) == st.sublevels.TryGet(s) {
        SetKeepsOthers(st.sublevels, h.id, h', s);
      }
    }
    assert forall y :: y != id && y !in removed ==> r.sceneObjects.TryGet(y) == st.sceneObjects.TryGet(y) by {
      forall y | y != id && y !in removed ensures r.sceneObjects.TryGet(y) == st.sceneObjects.TryGet(y) {
        PrunedIndexKeepsOthers(st.sceneObjects, id, removed, y);
      }
    }
    r
  }

  /**
   * TryReleaseObject exactly as written (Scene.cpp): the destroy set is
   * collected and the hierarchy pruned before any listener is told, the
   * hierarchy is looked up with GetSublevelHierarchyFor(ownerID), and the
   * release loop releases `id` once per destroy-set element.
   */
  function TryReleaseAsWritten(st: SceneData, id: ObjectID): (r: ReleaseResult)
    requires Consistent(st)
    ensures PoolsValid(r.state)
    ensures r.outcome == NotValid <==> !IsValid(st, id)
    ensures r.outcome == SublevelRoot <==> IsValid(st, id) && IsSublevel(st, id)
    ensures r.outcome == Unparented <==> IsValid(st, id) && !IsSublevel(st, id) && !IsSceneObject(st, id)
    ensures r.outcome == NotValid ==> r.state == st && r.destroySet == []
    ensures r.outcome == SublevelRoot ==> r.state == st && r.destroySet == [id]
    ensures r.outcome == Unparented ==> r.destroySet == [id] && Consistent(r.state)
    ensures Notifies(r.outcome) ==> |r.destroySet| >= 1 && r.destroySet[0] == id
    ensures Notifies(r.outcome) ==> r.state.mgr == Release(st.mgr, id)
    ensures Notifies(r.outcome) ==> !IsValid(r.state, id) && !IsSceneObject(r.state, id)
    ensures r.outcome == Released ==>
      var found := GetSublevelHierarchyFor(st, GetSublevel(st, id));
      found.Some? && found.value.Valid() && r.destroySet == [id] + Descendants(found.value, id)
    ensures r.outcome == NullHierarchy ==>
      GetSublevelHierarchyFor(st, GetSublevel(st, id)).None? && !IsSceneObject(r.state, id) && r.state.mgr == st.mgr
  {
    if !st.mgr.pool.Contains(id) then ReleaseResult(NotValid, [], st)
    else if st.sublevels.Contains(id) then ReleaseResult(SublevelRoot, [id], st)
    else
      LookupsAgree(st, id);
      var ownerID := GetSublevel(st, id);
      if ownerID.IsNil() then
        UnparentedReleaseConsistent(st, id);
        ReleaseResult(Unparented, [id], st.(mgr := ReleaseEachAsWritten(st.mgr, [id], id)))
      else
        var st1 := st.(sceneObjects := st.sceneObjects.TryReleaseSwap(id).1);
        var found := GetSublevelHierarchyFor(st1, ownerID);
        assert found == GetSublevelHierarchyFor(st, ownerID) by {
          ReleaseSwapKeepsOthers(st.sceneObjects, id, ownerID);
        }
        match found
        case None => ReleaseResult(NullHierarchy, [id], st1)
        case Some(h) =>
          assert SublevelOk(st, st.sceneObjects.TryGet(ownerID).value);
          var destroySet := [id] + Descendants(h, id);
          var st2 := PruneFrom(st, h, id);
          ReleaseResult(Released, destroySet, st2.(mgr := ReleaseEachAsWritten(st2.mgr, destroySet, id)))
  }

  /**
   * The Released exit as written, in full: the subtree of `id` is pruned
   * from the hierarchy GetSublevelHierarchyFor found, `id` and every removed
   * node leave the index, and every other sublevel's hierarchy and every
   * other index entry is kept. When that hierarchy holds `id`, the removed
   * nodes are exactly the destroy set.
   */
  lemma AsWrittenReleasedEffect(st: SceneData, id: ObjectID)
    requires Consistent(st) && TryReleaseAsWritten(st, id).outcome == Released
    ensures var r := TryReleaseAsWritten(st, id);
      var h := GetSublevelHierarchyFor(st, GetSublevel(st, id)).value;
      var (removed, pruned) := TryRelease(h, id);
      && IsSublevel(st, h.id)
      && (h.Contains(id) ==> removed == r.destroySet)
      && GetHierarchy(r.state, h.id) == Some(pruned)
      && (forall s :: s != h.id ==> GetHierarchy(r.state, s) == GetHierarchy(st, s))
      && (forall y :: IsSceneObject(r.state, y) <==> IsSceneObject(st, y) && y != id && y !in removed)
      && (forall y :: y != id && y !in removed ==> GetSublevel(r.state, y) == GetSublevel(st, y))
  {
    LookupsAgree(st, id);
    var ownerID := GetSublevel(st, id);
    ReleaseSwapKeepsOthers(st.sceneObjects, id, ownerID);
    assert SublevelOk(st, st.sceneObjects.TryGet(ownerID).value);
    var h := GetSublevelHierarchyFor(st, ownerID).value;
    var pruned := PruneFrom(st, h, id);
    var r := TryReleaseAsWritten(st, id);
    assert r.state.sublevels == pruned.sublevels && r.state.sceneObjects == pruned.sceneObjects;
  }

  /**
   * Whenever the owning sublevel is not itself a node of some hierarchy,
   * GetSublevelHierarchyFor(ownerID) finds nothing, so the as-written release
   * of an object placed in a hierarchy always takes the null-hierarchy path,
   * leaving the object in its hierarchy but gone from the index.
   */
  lemma AsWrittenMissesHierarchy(st: SceneData, id: ObjectID)
    requires Consistent(st) && IsValid(st, id) && !IsSublevel(st, id) && IsSceneObject(st, id)
    requires !IsSceneObject(st, GetSublevel(st, id))
    ensures TryReleaseAsWritten(st, id).outcome == NullHierarchy
    ensures !Consistent(TryReleaseAsWritten(st, id).state)
  {
    LookupsAgree(st, id);
    var s := GetSublevel(st, id);
    var st' := TryReleaseAsWritten(st, id).state;
    assert st'.sublevels == st.sublevels;
    assert GetHierarchy(st', s).value.Contains(id);
    assert !st'.sceneObjects.Contains(id);
    assert !SublevelOk(st', s);
  }

  /** After the prune, an object outside the destroy set keeps its index entry. */
  lemma PrunedIndexKeepsOthers(objs: Pool<ObjectID>, id: ObjectID, destroySet: seq<ObjectID>, x: ObjectID)
    requires objs.Valid() && x != id && x !in destroySet
    ensures DropAll(objs.TryReleaseSwap(id).1, destroySet).TryGet(x) == objs.TryGet(x)
  {
    ReleaseSwapKeepsOthers(objs, id, x);
  }

  /** The scene after the intended prune of `id`'s subtree from sublevel `owner`. */
  function Pruned(st: SceneData, owner: ObjectID, id: ObjectID): (r: SceneData)
    requires Consistent(st) && IsSublevel(st, owner)
    ensures PoolsValid(r)
    ensures r.sublevels.handles == st.sublevels.handles
  {
    assert SublevelOk(st, owner);
    var h := GetHierarchy(st, owner).value;
    var (removed, h') := TryRelease(h, id);
    SceneData(ReleaseAll(st.mgr, removed), st.sublevels.TrySet(owner, h'),
              DropAll(st.sceneObjects.TryReleaseSwap(id).1, removed))
  }

  /** Every sublevel stays well formed and indexed after the prune, provided no sublevel was released. */
  lemma PrunedSublevelsOk(st: SceneData, owner: ObjectID, id: ObjectID, s: ObjectID)
    requires Consistent(st) && IsSublevel(st, owner) && IsSceneObject(st, id)
    requires GetSublevel(st, id) == owner
    requires forall y :: y in TryRelease(GetHierarchy(st, owner).value, id).0 ==> !IsSublevel(st, y)
    requires IsSublevel(st, s)
    ensures SublevelOk(Pruned(st, owner, id), s)
  {
    assert SublevelOk(st, owner) && SublevelOk(st, s);
    assert ObjectOk(st, id);
    var h := GetHierarchy(st, owner).value;
    var (removed, h') := TryRelease(h, id);
    var st' := Pruned(st, owner, id);
    var hs := GetHierarchy(st, s).value;
    var hs' := GetHierarchy(st', s).value;
    if s == owner {
      assert hs' == h';
    } else {
      SetKeepsOthers(st.sublevels, owner, h', s);
      assert hs' == hs;
    }
    assert hs'.Valid() && hs'.id == s;
    forall x | hs'.Contains(x) ensures st'.sceneObjects.TryGet(x) == Some(s) {
      assert hs.Contains(x);
      assert st.sceneObjects.TryGet(x) == Some(s);
      assert x !in removed by {
        if s != owner {
          assert forall y :: y in removed ==> st.sceneObjects.TryGet(y) == Some(owner);
        }
      }
      PrunedIndexKeepsOthers(st.sceneObjects, id, removed, x);
    }
  }

  /** Every object still indexed after the prune sits in its sublevel's pruned hierarchy. */
  lemma PrunedObjectsOk(st: SceneData, owner: ObjectID, id: ObjectID, x: ObjectID)
    requires Consistent(st) && IsSublevel(st, owner) && IsSceneObject(st, id)
    requires GetSublevel(st, id) == owner
    requires IsSceneObject(Pruned(st, owner, id), x)
    ensures ObjectOk(Pruned(st, owner, id), x)
  {
    assert SublevelOk(st, owner);
    var h := GetHierarchy(st, owner).value;
    var (removed, h') := TryRelease(h, id);
    var st' := Pruned(st, owner, id);
    assert x in st.sceneObjects.handles && x !in removed;
    assert ObjectOk(st, x);
    PrunedIndexKeepsOthers(st.sceneObjects, id, removed, x);
    var o := st.sceneObjects.TryGet(x).value;
    if o == owner {
      assert GetHierarchy(st', o).value == h';
    } else {
      SetKeepsOthers(st.sublevels, owner, h', o);
    }
  }

  /** The prune keeps the scene consistent unless it releases a sublevel's own id. */
  lemma PrunedConsistent(st: SceneData, owner: ObjectID, id: ObjectID)
    requires Consistent(st) && IsSublevel(st, owner) && IsSceneObject(st, id)
    requires GetSublevel(st, id) == owner
    ensures (forall y :: y in TryRelease(GetHierarchy(st, owner).value, id).0 ==> !IsSublevel(st, y)) ==>
      Consistent(Pruned(st, owner, id))
  {
    var st' := Pruned(st, owner, id);
    if forall y :: y in TryRelease(GetHierarchy(st, owner).value, id).0 ==> !IsSublevel(st, y) {
      forall s | st'.sublevels.Contains(s) ensures SublevelOk(st', s) {
        PrunedSublevelsOk(st, owner, id, s);
      }
      forall x | st'.sceneObjects.Contains(x) ensures ObjectOk(st', x) {
        PrunedObjectsOk(st, owner, id, x);
      }
    }
  }

  /**
   * TryReleaseObject as evidently intended: the hierarchy is the owner's own
   * (GetHierarchy(ownerID)) and every destroy-set element is released.
   */
  function TryReleaseIntended(st: SceneData, id: ObjectID): (r: ReleaseResult)
    requires Consistent(st)
    ensures PoolsValid(r.state)
    ensures r.outcome != NullHierarchy
    ensures r.outcome == NotValid <==> !IsValid(st, id)
    ensures r.outcome == SublevelRoot <==> IsValid(st, id) && IsSublevel(st, id)
    ensures r.outcome == Released <==> IsValid(st, id) && !IsSublevel(st, id) && IsSceneObject(st, id)
    ensures !Notifies(r.outcome) ==> r.state == st
    ensures r.outcome == Unparented ==> r.destroySet == [id]
    ensures r.outcome == Released ==>
      var h := GetHierarchy(st, GetSublevel(st, id)).value;
      h.Valid() && r.destroySet == [id] + Descendants(h, id)
    ensures Notifies(r.outcome) ==> |r.destroySet| >= 1 && r.destroySet[0] == id
    ensures Notifies(r.outcome) ==> forall k :: 0 <= k < |r.destroySet| ==>
      !IsValid(r.state, r.destroySet[k]) && !IsSceneObject(r.state, r.destroySet[k])
    ensures Notifies(r.outcome) ==> forall y :: y !in r.destroySet ==>
      (IsValid(r.state, y) <==> IsValid(st, y)) && (IsSceneObject(r.state, y) <==> IsSceneObject(st, y))
    ensures (forall k :: 0 <= k < |r.destroySet| ==> !IsSublevel(st, r.destroySet[k])) ==> Consistent(r.state)
  {
    if !st.mgr.pool.Contains(id) then ReleaseResult(NotValid, [], st)
    else if st.sublevels.Contains(id) then ReleaseResult(SublevelRoot, [id], st)
    else
      LookupsAgree(st, id);
      var ownerID := GetSublevel(st, id);
      if ownerID.IsNil() then
        UnparentedReleaseConsistent(st, id);
        ReleaseResult(Unparented, [id], st.(mgr := ReleaseAll(st.mgr, [id])))
      else
        assert SublevelOk(st, ownerID);
        var h := GetHierarchy(st, ownerID).value;
        var destroySet := [id] + Descendants(h, id);
        var st' := Pruned(st, ownerID, id);
        assert destroySet == TryRelease(h, id).0;
        PrunedConsistent(st, ownerID, id);
        ReleaseResult(Released, destroySet, st')
  }

  /** The prune leaves the scene registered with every sublevel hierarchy. */
  lemma PrunedRegistered(st: SceneData, owner: ObjectID, id: ObjectID, me: object)
    requires Consistent(st) && IsSublevel(st, owner) && Registered(st, me)
    ensures Registered(Pruned(st, owner, id), me)
  {
    assert SublevelOk(st, owner);
    var h := GetHierarchy(st, owner).value;
    var h' := TryRelease(h, id).1;
    var st' := Pruned(st, owner, id);
    forall s | st'.sublevels.Contains(s) ensures me in st'.sublevels.TryGet(s).value.listeners {
      if s != owner {
        SetKeepsOthers(st.sublevels, owner, h', s);
      }
    }
  }

  /**
   * Changing only the manager keeps the scene consistent as long as every
   * handle that was valid stays valid.
   */
  lemma ManagerGrowsConsistent(st: SceneData, m: Mgr)
    requires Consistent(st) && m.Valid()
    requires forall y :: st.mgr.pool.Contains(y) ==> m.pool.Contains(y)
    ensures Consistent(st.(mgr := m))
  {
    var st' := st.(mgr := m);
    forall s | st'.sublevels.Contains(s) ensures SublevelOk(st', s) {
      assert SublevelOk(st, s);
    }
    forall x | st'.sceneObjects.Contains(x) ensures ObjectOk(st', x) {
      assert ObjectOk(st, x);
    }
  }

  /** The scene after CreateSublevel: a new handle with an empty hierarchy that lists `me`. */
  function WithNewSublevel(st: SceneData, name: Name, me: object): (r: (SceneData, ObjectID))
    requires Consistent(st)
    ensures Consistent(r.0)
    ensures Registered(st, me) ==> Registered(r.0, me)
    ensures !IsValid(st, r.1) && IsValid(r.0, r.1) && GetName(r.0, r.1) == name
    ensures r.0.sublevels.handles == st.sublevels.handles + [r.1]
    ensures GetHierarchy(r.0, r.1) == Some(Hierarchy(r.1, [], [], [me]))
    ensures r.0.sceneObjects == st.sceneObjects
  {
    var (m, id) := Create(st.mgr, name);
    var h := AddListener(NewHierarchy(id), me);
    assert h == Hierarchy(id, [], [], [me]);
    var subs := st.sublevels.TryAppend(id, h).1;
    var st' := SceneData(m, subs, st.sceneObjects);
    assert forall s :: st.sublevels.Contains(s) ==> st.mgr.pool.Contains(s) by {
      forall s | st.sublevels.Contains(s) ensures st.mgr.pool.Contains(s) { assert SublevelOk(st, s); }
    }
    forall s | subs.Contains(s) && s != id
      ensures subs.TryGet(s) == st.sublevels.TryGet(s)
    {
      AppendKeepsOthers(st.sublevels, id, h, s);
    }
    forall s | st'.sublevels.Contains(s) ensures SublevelOk(st', s) {
      if s != id { assert SublevelOk(st, s); }
    }
    forall x | st'.sceneObjects.Contains(x) ensures ObjectOk(st', x) {
      assert ObjectOk(st, x);
    }
    (st', id)
  }

  /**
   * The scene after the hierarchy of sublevel `s` adds `id` (under `parent`)
   * and reports it through Hierarchy_DidAddObject.
   */
  function WithPlacedObject(st: SceneData, s: ObjectID, id: ObjectID, parent: Option<ObjectID>, me: object): (r: (bool, SceneData))
    requires Consistent(st) && IsSublevel(st, s) && IsValid(st, id) && !IsSceneObject(st, id)
    ensures Consistent(r.1)
    ensures Registered(st, me) ==> Registered(r.1, me)
    ensures r.0 <==> parent.Some? ==> GetHierarchy(st, s).value.Contains(parent.value)
    ensures !r.0 ==> r.1 == st
    ensures r.0 ==> GetSublevel(r.1, id) == s && GetHierarchy(r.1, s).value.Contains(id)
    ensures r.1.mgr == st.mgr
  {
    assert SublevelOk(st, s);
    var h := GetHierarchy(st, s).value;
    assert !h.Contains(id);
    var (added, h') := TryAdd(h, id, parent);
    if !added then (false, st)
    else
      var subs := st.sublevels.TrySet(s, h');
      var objs := st.sceneObjects.TryAppend(id, s).1;
      var st' := SceneData(st.mgr, subs, objs);
      forall t | subs.Contains(t) && t != s ensures subs.TryGet(t) == st.sublevels.TryGet(t) {
        SetKeepsOthers(st.sublevels, s, h', t);
      }
      forall x | objs.Contains(x) && x != id ensures objs.TryGet(x) == st.sceneObjects.TryGet(x) {
        AppendKeepsOthers(st.sceneObjects, id, s, x);
      }
      forall t | st'.sublevels.Contains(t) ensures SublevelOk(st', t) {
        assert SublevelOk(st, t);
      }
      forall x | st'.sceneObjects.Contains(x) ensures ObjectOk(st', x) {
        if x != id { assert ObjectOk(st, x); }
      }
      (true, st')
  }
}
