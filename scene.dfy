/**
 * Scene: the composition root. It owns the object manager, the sublevels
 * (each with its hierarchy) and the reverse index `sceneObjects`, and it
 * keeps that index in step through the hierarchy callbacks.
 */
module Scenes {
  import opened Handles
  import opened Wrappers
  import Seqs
  import opened ObjectPool
  import opened ObjectMgr
  import opened Hierarchies
  import opened Listeners
  import opened SceneState

  const DEFAULT_LEVEL: Name := "Default Level"

  class Scene {
    var mgr: Mgr
    var sublevels: Pool<Hierarchy>
    var sceneObjects: Pool<ObjectID>
    const listeners: ListenerList<SceneListener>

    function State(): SceneData
      reads this
    {
      SceneData(mgr, sublevels, sceneObjects)
    }

    ghost predicate Valid()
      reads this, listeners
    {
      Consistent(State()) && Registered(State(), this) && listeners.Valid()
    }

    /** Scene(): an empty scene holding one sublevel, "Default Level". */
    constructor ()
      ensures Valid() && fresh(listeners) && listeners.listeners == []
      ensures |sublevels.handles| == 1
      ensures GetName(State(), sublevels.handles[0]) == DEFAULT_LEVEL
      ensures GetHierarchy(State(), sublevels.handles[0]) == Some(Hierarchy(sublevels.handles[0], [], [], [this]))
      ensures sceneObjects.Count() == 0
    {
      mgr := EmptyMgr();
      sublevels := Empty();
      sceneObjects := Empty();
      listeners := new ListenerList();
      new;
      var _ := CreateSublevel(DEFAULT_LEVEL);
    }

    method AddListener(l: SceneListener)
      requires Valid()
      modifies listeners
      ensures Valid()
      ensures listeners.listeners == Added(old(listeners.listeners), l)
    {
      listeners.TryAdd(l);
    }

    method RemoveListener(l: SceneListener)
      requires Valid()
      modifies listeners
      ensures Valid()
      ensures listeners.listeners == SwapRemoved(old(listeners.listeners), l)
    {
      listeners.TryRemoveSwap(l);
    }

    /** CreateObject: a fresh valid handle carrying `name`; nothing else changes. */
    method CreateObject(name: Name) returns (id: ObjectID)
      requires Valid()
      modifies this
      ensures Valid()
      ensures (mgr, id) == Create(old(mgr), name)
      ensures sublevels == old(sublevels) && sceneObjects == old(sceneObjects)
    {
      var r := Create(mgr, name);
      ManagerGrowsConsistent(State(), r.0);
      mgr, id := r.0, r.1;
    }

    /**
     * CreateSublevel: a fresh handle that becomes a sublevel with an empty
     * hierarchy, with this scene registered as that hierarchy's listener.
     */
    method CreateSublevel(name: Name) returns (id: ObjectID)
      requires Valid()
      modifies this
      ensures Valid()
      ensures (State(), id) == WithNewSublevel(old(State()), name, this)
    {
      ghost var st := State();
      ghost var r := WithNewSublevel(st, name, this);
      id := CreateObject(name);
      var h := Hierarchies.AddListener(NewHierarchy(id), this);
      sublevels := sublevels.TryAppend(id, h).1;
      assert State() == r.0;
    }

    /** TryRename: overwrite a valid object's name; nothing changes for an invalid id. */
    method TryRename(id: ObjectID, name: Name)
      requires Valid()
      modifies this
      ensures Valid()
      ensures mgr == Rename(old(mgr), id, name)
      ensures sublevels == old(sublevels) && sceneObjects == old(sceneObjects)
    {
      var m := Rename(mgr, id, name);
      ManagerGrowsConsistent(State(), m);
      mgr := m;
    }

    /**
     * FindObject: the handle of the first row, in storage order, whose name
     * is `name`; NIL when no valid object has that name.
     */
    method FindObject(name: Name) returns (id: ObjectID)
      requires Valid()
      ensures id == NIL <==> name !in mgr.pool.values
      ensures id != NIL ==> IsValid(State(), id) && GetName(State(), id) == name
      ensures id != NIL ==> id == mgr.pool.handles[Seqs.IndexOf(mgr.pool.values, name)]
    {
      var n := |mgr.pool.handles|;
      var it := 0;
      while it < n
        invariant 0 <= it <= n
        invariant forall k :: 0 <= k < it ==> mgr.pool.values[k] != name
      {
        if name == mgr.pool.values[it] {
          id := mgr.pool.handles[it];
          LiveIsNotNil(mgr, id);
          assert Seqs.IndexOf(mgr.pool.values, name) == it;
          return;
        }
        it := it + 1;
      }
      id := NIL;
    }

    /** Hierarchy_DidAddObject: index `id` under the reporting sublevel. */
    method HierarchyDidAddObject(hierarchy: ObjectID, id: ObjectID)
      requires sceneObjects.Valid()
      modifies this
      ensures sceneObjects == old(sceneObjects).TryAppend(id, hierarchy).1
      ensures mgr == old(mgr) && sublevels == old(sublevels)
    {
      sceneObjects := sceneObjects.TryAppend(id, hierarchy).1;
    }

    /** Hierarchy_WillRemoveObject: drop `id` from the index, whichever hierarchy reports it. */
    method HierarchyWillRemoveObject(hierarchy: ObjectID, id: ObjectID)
      requires sceneObjects.Valid()
      modifies this
      ensures sceneObjects == old(sceneObjects).TryReleaseSwap(id).1
      ensures mgr == old(mgr) && sublevels == old(sublevels)
    {
      sceneObjects := sceneObjects.TryReleaseSwap(id).1;
    }

    /**
     * A hierarchy adding a node: sublevel `s`'s hierarchy takes `id` under
     * `parent` and reports it through HierarchyDidAddObject.
     */
    method PlaceInSublevel(s: ObjectID, id: ObjectID, parent: Option<ObjectID>) returns (ok: bool)
      requires Valid()
      modifies this
      ensures Valid()
      ensures !old(IsValid(State(), id) && IsSublevel(State(), s) && !IsSceneObject(State(), id)) ==>
        !ok && State() == old(State())
      ensures old(IsValid(State(), id) && IsSublevel(State(), s) && !IsSceneObject(State(), id)) ==>
        (ok, State()) == WithPlacedObject(old(State()), s, id, parent, this)
    {
      if !IsValid(State(), id) || !IsSublevel(State(), s) || IsSceneObject(State(), id) {
        return false;
      }
      ghost var st := State();
      ghost var r := WithPlacedObject(st, s, id, parent, this);
      assert SublevelOk(st, s);
      var h := GetHierarchy(State(), s).value;
      var (added, h') := TryAdd(h, id, parent);
      if !added {
        return false;
      }
      sublevels := sublevels.TrySet(s, h');
      HierarchyDidAddObject(s, id);
      ok := true;
    }

    /** One pass of the inner notification loop: every listener, in list order, told about `x`. */
    method NotifyRound(x: ObjectID) returns (calls: seq<Notification>)
      ensures calls == Round(listeners.listeners, x)
    {
      var ls := listeners.listeners;
      calls := [];
      var j := 0;
      while j < |ls|
        invariant 0 <= j <= |ls|
        invariant calls == Round(ls[..j], x)
      {
        assert ls[..j + 1][..j] == ls[..j];
        calls := calls + [WillReleaseObject(ls[j], x)];
        j := j + 1;
      }
      assert ls[..|ls|] == ls;
    }

    /**
     * The notification loop of TryReleaseObject as written: a round of
     * listener calls per destroy-set element, each followed by
     * ReleaseObject(id).
     */
    method NotifyAndReleaseAsWritten(id: ObjectID, destroySet: seq<ObjectID>) returns (calls: seq<Notification>)
      requires mgr.Valid()
      modifies this
      ensures calls == Notifications(destroySet, listeners.listeners)
      ensures mgr == ReleaseEachAsWritten(old(mgr), destroySet, id)
      ensures sublevels == old(sublevels) && sceneObjects == old(sceneObjects)
    {
      calls := [];
      var k := 0;
      while k < |destroySet|
        invariant 0 <= k <= |destroySet|
        invariant calls == Notifications(destroySet[..k], listeners.listeners)
        invariant mgr == ReleaseEachAsWritten(old(mgr), destroySet[..k], id)
        invariant sublevels == old(sublevels) && sceneObjects == old(sceneObjects)
      {
        assert destroySet[..k + 1][..k] == destroySet[..k];
        var round := NotifyRound(destroySet[k]);
        calls := calls + round;
        mgr := Release(mgr, id);
        k := k + 1;
      }
      assert destroySet[..|destroySet|] == destroySet;
    }

    /** The intended notification loop: each destroy-set element is released after its round. */
    method NotifyAndReleaseAll(destroySet: seq<ObjectID>) returns (calls: seq<Notification>)
      requires mgr.Valid()
      modifies this
      ensures calls == Notifications(destroySet, listeners.listeners)
      ensures mgr == ReleaseAll(old(mgr), destroySet)
      ensures sublevels == old(sublevels) && sceneObjects == old(sceneObjects)
    {
      calls := [];
      var k := 0;
      while k < |destroySet|
        invariant 0 <= k <= |destroySet|
        invariant calls == Notifications(destroySet[..k], listeners.listeners)
        invariant mgr == ReleaseAll(old(mgr), destroySet[..k])
        invariant sublevels == old(sublevels) && sceneObjects == old(sceneObjects)
      {
        assert destroySet[..k + 1][..k] == destroySet[..k];
        var round := NotifyRound(destroySet[k]);
        calls := calls + round;
        mgr := Release(mgr, destroySet[k]);
        k := k + 1;
      }
      assert destroySet[..|destroySet|] == destroySet;
    }

    /** The hierarchy's removal callbacks, one per removed node, in order. */
    method ReportRemoved(hierarchy: ObjectID, removed: seq<ObjectID>)
      requires sceneObjects.Valid()
      modifies this
      ensures sceneObjects == DropAll(old(sceneObjects), removed)
      ensures mgr == old(mgr) && sublevels == old(sublevels)
    {
      var k := 0;
      while k < |removed|
        invariant 0 <= k <= |removed|
        invariant sceneObjects == DropAll(old(sceneObjects), removed[..k])
        invariant mgr == old(mgr) && sublevels == old(sublevels)
      {
        assert removed[..k + 1][..k] == removed[..k];
        HierarchyWillRemoveObject(hierarchy, removed[k]);
        k := k + 1;
      }
      assert removed[..|removed|] == removed;
    }

    /**
     * TryReleaseObject as written. The listener calls come back as `calls`;
     * the scene stays valid on every exit that does not touch a hierarchy.
     */
    method TryReleaseObject(id: ObjectID) returns (outcome: ReleaseOutcome, destroySet: seq<ObjectID>, calls: seq<Notification>)
      requires Valid()
      modifies this
      ensures ReleaseResult(outcome, destroySet, State()) == TryReleaseAsWritten(old(State()), id)
      ensures calls == if Notifies(outcome) then Notifications(destroySet, listeners.listeners) else []
      ensures outcome != Released && outcome != NullHierarchy ==> Valid()
    {
      ghost var st := State();
      if !mgr.pool.Contains(id) {
        return NotValid, [], [];
      }
      destroySet := [id];
      if sublevels.Contains(id) {
        return SublevelRoot, destroySet, [];
      }
      LookupsAgree(State(), id);
      var ownerID := GetSublevel(State(), id);
      outcome := Unparented;
      if !ownerID.IsNil() {
        sceneObjects := sceneObjects.TryReleaseSwap(id).1;
        var pHierarchy := GetSublevelHierarchyFor(State(), ownerID);
        ReleaseSwapKeepsOthers(st.sceneObjects, id, ownerID);
        if pHierarchy.None? {
          return NullHierarchy, destroySet, [];
        }
        var h := pHierarchy.value;
        assert SublevelOk(st, st.sceneObjects.TryGet(ownerID).value);
        destroySet := destroySet + Descendants(h, id);
        var (removed, h') := TryRelease(h, id);
        sublevels := sublevels.TrySet(h.id, h');
        ReportRemoved(h.id, removed);
        outcome := Released;
      }
      calls := NotifyAndReleaseAsWritten(id, destroySet);
    }

    /**
     * TryReleaseObject as evidently intended: the owner's own hierarchy is
     * pruned and every destroy-set element is released.
     */
    method TryReleaseObjectIntended(id: ObjectID) returns (outcome: ReleaseOutcome, destroySet: seq<ObjectID>, calls: seq<Notification>)
      requires Valid()
      modifies this
      ensures ReleaseResult(outcome, destroySet, State()) == TryReleaseIntended(old(State()), id)
      ensures calls == if Notifies(outcome) then Notifications(destroySet, listeners.listeners) else []
      ensures (forall k :: 0 <= k < |destroySet| ==> !old(IsSublevel(State(), destroySet[k]))) ==> Valid()
    {
      ghost var st := State();
      if !mgr.pool.Contains(id) {
        return NotValid, [], [];
      }
      destroySet := [id];
      if sublevels.Contains(id) {
        return SublevelRoot, destroySet, [];
      }
      LookupsAgree(State(), id);
      var ownerID := GetSublevel(State(), id);
      outcome := Unparented;
      if !ownerID.IsNil() {
        sceneObjects := sceneObjects.TryReleaseSwap(id).1;
        assert SublevelOk(st, ownerID);
        var h := GetHierarchy(State(), ownerID).value;
        destroySet := destroySet + Descendants(h, id);
        var (removed, h') := TryRelease(h, id);
        sublevels := sublevels.TrySet(ownerID, h');
        ReportRemoved(ownerID, removed);
        outcome := Released;
        PrunedRegistered(st, ownerID, id, this);
      }
      calls := NotifyAndReleaseAll(destroySet);
    }
  }
}
