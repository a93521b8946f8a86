/**
 * PhysicsRuntime: the rigid-body pool and the fixed-timestep scheduler that
 * drives the physics world once per frame. PhysX is not part of this model:
 * the scene's actors are recorded as a list, a `simulate`/`fetchResults`
 * pair is one counted step, and the pose PhysX reports for actor `a` once
 * the scene has taken `s` steps is `px(a, s)`, an uninterpreted function. The
 * hierarchy's SetSceneRigidPose calls are recorded, in order, as PoseWrite
 * values; the blend they perform (RPose::NLerp) is not part of this model.
 */
module Physics {
  import opened Handles
  import opened Wrappers
  import opened ObjectPool
  import opened Pose
  import Seqs
  import SceneState

  /** A box shape attached to a body: its half extent and density. */
  datatype BoxShape = BoxShape(extent: real, density: real)

  /**
   * A row of the rigid-body pool: the PhysX actor it drives, the pose saved
   * before the last step of a tick, and the boxes attached to it.
   */
  datatype RigidBody = RigidBody(actor: nat, prevPose: RPose, boxes: seq<BoxShape>)

  /** An actor added to the PhysX scene. */
  datatype Actor = GroundPlane | Dynamic(id: ObjectID, pose: RPose)

  /** One SetSceneRigidPose call: object `id` gets the blend from `from` to `to` at `t`. */
  datatype PoseWrite = PoseWrite(id: ObjectID, from: RPose, to: RPose, t: real)

  // ---------------------------------------------------------------------------
  // Draining the accumulator
  // ---------------------------------------------------------------------------

  /** Taking one step off an accumulator above the step lowers its count of whole steps by one. */
  lemma FloorStep(acc: real, fdt: real)
    requires fdt > 0.0 && acc > fdt
    ensures (acc / fdt).Floor >= 1
    ensures ((acc - fdt) / fdt).Floor == (acc / fdt).Floor - 1
  {
    var q := acc / fdt;
    var q' := (acc - fdt) / fdt;
    assert q * fdt == acc && q' * fdt == acc - fdt;
    var x := q' - q + 1.0;
    assert x * fdt == 0.0 by {
      assert x * fdt == q' * fdt - q * fdt + fdt;
    }
    assert q' == q - 1.0;
    assert q > 1.0;
  }

  /** The number of fixed steps the drain loop counts for accumulator `acc`. */
  function FixedTicks(acc: real, fdt: real): nat
    requires fdt > 0.0
    decreases (acc / fdt).Floor
  {
    if acc > fdt then
      FloorStep(acc, fdt);
      1 + FixedTicks(acc - fdt, fdt)
    else 0
  }

  /** What the drain loop leaves in the accumulator. */
  function Remainder(acc: real, fdt: real): real
    requires fdt > 0.0
    decreases (acc / fdt).Floor
  {
    if acc > fdt then
      FloorStep(acc, fdt);
      Remainder(acc - fdt, fdt)
    else acc
  }

  /**
   * The drain takes off whole steps until at most one step is left: the
   * remainder is the accumulator less `k` steps, it is at most one step,
   * it is positive whenever a step was counted, and no step is counted
   * exactly when the accumulator is at most one step.
   */
  lemma {:induction false} DrainSpec(acc: real, fdt: real)
    requires fdt > 0.0
    ensures Remainder(acc, fdt) == acc - FixedTicks(acc, fdt) as real * fdt
    ensures Remainder(acc, fdt) <= fdt
    ensures FixedTicks(acc, fdt) == 0 <==> acc <= fdt
    ensures FixedTicks(acc, fdt) > 0 ==> Remainder(acc, fdt) > 0.0
    decreases (acc / fdt).Floor
  {
    if acc > fdt {
      FloorStep(acc, fdt);
      DrainSpec(acc - fdt, fdt);
      var k := FixedTicks(acc - fdt, fdt);
      assert (k + 1) as real * fdt == k as real * fdt + fdt;
      assert FixedTicks(acc, fdt) == k + 1;
    } else {
      assert FixedTicks(acc, fdt) == 0;
    }
  }

  /** The step count is the only one that fits: any `k` with the drain's three properties is FixedTicks. */
  lemma {:induction false} DrainUnique(acc: real, fdt: real, k: nat)
    requires fdt > 0.0
    requires acc - k as real * fdt <= fdt
    requires k > 0 ==> acc - k as real * fdt > 0.0
    ensures k == FixedTicks(acc, fdt)
    decreases k
  {
    if k == 0 {
      assert acc <= fdt;
    } else {
      assert acc - k as real * fdt > 0.0;
      assert (k - 1) as real * fdt == k as real * fdt - fdt;
      assert acc > fdt by {
        assert k as real * fdt >= fdt;
      }
      DrainUnique(acc - fdt, fdt, k - 1);
    }
  }

  // ---------------------------------------------------------------------------
  // What a tick writes
  // ---------------------------------------------------------------------------

  /** The snapshot before the last step: every row's previous pose becomes its actor's pose after `s` steps. */
  function Snapshot(rows: seq<RigidBody>, px: (nat, nat) -> RPose, s: nat): (r: seq<RigidBody>)
    ensures |r| == |rows|
  {
    seq(|rows|, i requires 0 <= i < |rows| => rows[i].(prevPose := px(rows[i].actor, s)))
  }

  /** The poses sampled after the steps, one per row in row order, all at progress `t`. */
  function Samples(handles: seq<ObjectID>, rows: seq<RigidBody>, px: (nat, nat) -> RPose, s: nat, t: real): (r: seq<PoseWrite>)
    requires |handles| == |rows|
    ensures |r| == |rows|
  {
    seq(|rows|, i requires 0 <= i < |rows| => PoseWrite(handles[i], rows[i].prevPose, px(rows[i].actor, s), t))
  }

  /**
   * Every body's pose is written exactly once: the written ids are the
   * pool's ids, no id twice, each blending from the row's saved pose to its
   * actor's current pose at progress `t`.
   */
  lemma SamplesEachBodyOnce(handles: seq<ObjectID>, rows: seq<RigidBody>, px: (nat, nat) -> RPose, s: nat, t: real)
    requires |handles| == |rows| && Seqs.NoDuplicates(handles)
    ensures var w := Samples(handles, rows, px, s, t);
      (forall id :: (exists i | 0 <= i < |w| :: w[i].id == id) <==> id in handles) &&
      (forall i, j | 0 <= i < j < |w| :: w[i].id != w[j].id) &&
      (forall i | 0 <= i < |w| :: w[i].t == t && w[i].from == rows[i].prevPose && w[i].to == px(rows[i].actor, s))
  {
    var w := Samples(handles, rows, px, s, t);
    forall id | id in handles ensures exists i | 0 <= i < |w| :: w[i].id == id {
      var i :| 0 <= i < |handles| && handles[i] == id;
      assert w[i].id == id;
    }
  }

  // ---------------------------------------------------------------------------
  // The runtime
  // ---------------------------------------------------------------------------

  class PhysicsRuntime {
    const fixedDeltaTime: real
    var timeAccum: real
    /** `simulate`/`fetchResults` pairs run so far. */
    var steps: nat
    /** The actors added to the PhysX scene, in order. */
    var actors: seq<Actor>
    var hasGroundPlane: bool
    var rigidBodies: Pool<RigidBody>
    /** SetSceneRigidPose calls made so far, in order. */
    var poseWrites: seq<PoseWrite>

    ghost predicate Valid()
      reads this
    {
      fixedDeltaTime > 0.0 && rigidBodies.Valid() &&
      forall i | 0 <= i < |rigidBodies.values| :: rigidBodies.values[i].actor < |actors|
    }

    /** A runtime with an empty scene and pool; the fixed step is positive. */
    constructor (fdt: real)
      requires fdt > 0.0
      ensures Valid() && fixedDeltaTime == fdt && timeAccum == 0.0 && steps == 0
      ensures actors == [] && !hasGroundPlane && rigidBodies.Count() == 0 && poseWrites == []
    {
      fixedDeltaTime := fdt;
      timeAccum, steps := 0.0, 0;
      actors, hasGroundPlane := [], false;
      rigidBodies := Empty();
      poseWrites := [];
    }

    /** TryAddGroundPlane: the first call adds a plane actor; later calls change nothing. */
    method TryAddGroundPlane()
      requires Valid()
      modifies this
      ensures Valid() && hasGroundPlane
      ensures old(hasGroundPlane) ==> unchanged(this)
      ensures !old(hasGroundPlane) ==> actors == old(actors) + [GroundPlane]
      ensures rigidBodies == old(rigidBodies) && steps == old(steps) && timeAccum == old(timeAccum)
      ensures poseWrites == old(poseWrites)
    {
      if !hasGroundPlane {
        actors := actors + [GroundPlane];
        hasGroundPlane := true;
      }
    }

    /**
     * TryAttachRigidbodyTo: `id` must be valid in scene `st`. Fails,
     * changing nothing, when `id` already has a body; otherwise a dynamic
     * actor is made at the object's world pose `worldPose` and a row with
     * that pose as its previous pose is appended.
     */
    method TryAttachRigidbodyTo(st: SceneState.SceneData, id: ObjectID, worldPose: RPose) returns (ok: bool)
      requires Valid() && SceneState.IsValid(st, id)
      modifies this
      ensures Valid()
      ensures ok <==> !old(rigidBodies).Contains(id)
      ensures !ok ==> unchanged(this)
      ensures ok ==> actors == old(actors) + [Dynamic(id, worldPose)]
      ensures ok ==> rigidBodies == old(rigidBodies).TryAppend(id, RigidBody(|old(actors)|, worldPose, [])).1
      ensures steps == old(steps) && timeAccum == old(timeAccum) && poseWrites == old(poseWrites)
    {
      if rigidBodies.Contains(id) {
        return false;
      }
      var body := RigidBody(|actors|, worldPose, []);
      actors := actors + [Dynamic(id, worldPose)];
      rigidBodies := rigidBodies.TryAppend(id, body).1;
      return true;
    }

    /** TryAttachBoxTo: fails, changing nothing, when `id` has no body; otherwise one box is attached. */
    method TryAttachBoxTo(id: ObjectID, extent: real, density: real) returns (ok: bool)
      requires Valid()
      modifies this
      ensures Valid()
      ensures ok <==> old(rigidBodies).Contains(id)
      ensures !ok ==> unchanged(this)
      ensures ok ==> var b := old(rigidBodies).TryGet(id).value;
        rigidBodies == old(rigidBodies).TrySet(id, b.(boxes := b.boxes + [BoxShape(extent, density)]))
      ensures actors == old(actors) && steps == old(steps) && timeAccum == old(timeAccum)
    {
      var b := rigidBodies.TryGet(id);
      if b.None? {
        return false;
      }
      var body := b.value;
      rigidBodies := rigidBodies.TrySet(id, body.(boxes := body.boxes + [BoxShape(extent, density)]));
      forall i | 0 <= i < |rigidBodies.values| ensures rigidBodies.values[i].actor < |actors| {
        if rigidBodies.handles[i] != id {
          SetKeepsOthers(old(rigidBodies), id, body.(boxes := body.boxes + [BoxShape(extent, density)]), rigidBodies.handles[i]);
          assert old(rigidBodies).TryGet(rigidBodies.handles[i]) == Some(old(rigidBodies).values[i]);
        }
      }
      return true;
    }

    /**
     * Tick: add `dt` to the accumulator and drain it into `k` fixed steps.
     * With no bodies nothing else happens. Otherwise the scene takes `k`
     * steps, the rows' previous poses are saved just before the last one
     * (only when `k >= 1`), and then every body's pose is written once, in
     * row order, at progress timeAccum / fixedDeltaTime.
     */
    method Tick(dt: real, px: (nat, nat) -> RPose)
      requires Valid()
      modifies this
      ensures Valid()
      ensures timeAccum == Remainder(old(timeAccum) + dt, fixedDeltaTime)
      ensures actors == old(actors) && hasGroundPlane == old(hasGroundPlane)
      ensures rigidBodies.handles == old(rigidBodies.handles)
      ensures old(rigidBodies.Count()) == 0 ==>
        steps == old(steps) && rigidBodies == old(rigidBodies) && poseWrites == old(poseWrites)
      ensures old(rigidBodies.Count()) > 0 ==>
        steps == old(steps) + FixedTicks(old(timeAccum) + dt, fixedDeltaTime)
      ensures old(rigidBodies.Count()) > 0 && steps == old(steps) ==> rigidBodies == old(rigidBodies)
      ensures old(rigidBodies.Count()) > 0 && steps > old(steps) ==>
        rigidBodies.values == Snapshot(old(rigidBodies.values), px, steps - 1)
      ensures old(rigidBodies.Count()) > 0 ==>
        poseWrites == old(poseWrites) +
          Samples(rigidBodies.handles, rigidBodies.values, px, steps, timeAccum / fixedDeltaTime)
    {
      ghost var acc := timeAccum + dt;
      timeAccum := timeAccum + dt;
      var numFixedTicks: nat := 0;
      while timeAccum > fixedDeltaTime
        invariant numFixedTicks + FixedTicks(timeAccum, fixedDeltaTime) == FixedTicks(acc, fixedDeltaTime)
        invariant Remainder(timeAccum, fixedDeltaTime) == Remainder(acc, fixedDeltaTime)
        invariant Valid() && steps == old(steps) && actors == old(actors) && hasGroundPlane == old(hasGroundPlane)
        invariant rigidBodies == old(rigidBodies) && poseWrites == old(poseWrites)
        decreases (timeAccum / fixedDeltaTime).Floor
      {
        FloorStep(timeAccum, fixedDeltaTime);
        timeAccum := timeAccum - fixedDeltaTime;
        numFixedTicks := numFixedTicks + 1;
      }
      DrainSpec(timeAccum, fixedDeltaTime);
      assert numFixedTicks == FixedTicks(acc, fixedDeltaTime);

      var n := rigidBodies.Count();
      if n == 0 {
        return;
      }
      while numFixedTicks > 1
        invariant steps + numFixedTicks == old(steps) + FixedTicks(acc, fixedDeltaTime)
        invariant numFixedTicks == 0 <==> steps == old(steps) + FixedTicks(acc, fixedDeltaTime) && FixedTicks(acc, fixedDeltaTime) == 0
        invariant rigidBodies == old(rigidBodies) && poseWrites == old(poseWrites)
        invariant Valid() && timeAccum == Remainder(acc, fixedDeltaTime)
        invariant actors == old(actors) && hasGroundPlane == old(hasGroundPlane)
      {
        steps := steps + 1;
        numFixedTicks := numFixedTicks - 1;
      }
      if numFixedTicks == 1 {
        SavePrevPoses(px);
        steps := steps + 1;
      }
      SamplePoses(px);
    }

    /** The loop before the last step: each row's previous pose becomes its actor's current pose. */
    method SavePrevPoses(px: (nat, nat) -> RPose)
      requires Valid()
      modifies this
      ensures Valid()
      ensures rigidBodies.handles == old(rigidBodies.handles)
      ensures rigidBodies.values == Snapshot(old(rigidBodies.values), px, steps)
      ensures timeAccum == old(timeAccum) && steps == old(steps) && actors == old(actors)
      ensures hasGroundPlane == old(hasGroundPlane) && poseWrites == old(poseWrites)
    {
      ghost var rows := rigidBodies.values;
      var n := |rigidBodies.values|;
      var it := 0;
      while it < n
        invariant 0 <= it <= n && Valid() && |rigidBodies.values| == n
        invariant rigidBodies.handles == old(rigidBodies.handles)
        invariant forall i | 0 <= i < it :: rigidBodies.values[i] == rows[i].(prevPose := px(rows[i].actor, steps))
        invariant forall i | it <= i < n :: rigidBodies.values[i] == rows[i]
        invariant timeAccum == old(timeAccum) && steps == old(steps) && actors == old(actors)
        invariant hasGroundPlane == old(hasGroundPlane) && poseWrites == old(poseWrites)
      {
        var row := rigidBodies.values[it];
        rigidBodies := rigidBodies.(values := rigidBodies.values[it := row.(prevPose := px(row.actor, steps))]);
        it := it + 1;
      }
      assert rigidBodies.values == Snapshot(rows, px, steps);
    }

    /** The loop after the steps: every row's pose is written, in row order. */
    method SamplePoses(px: (nat, nat) -> RPose)
      requires Valid()
      modifies this
      ensures Valid() && rigidBodies == old(rigidBodies)
      ensures poseWrites == old(poseWrites) +
        Samples(rigidBodies.handles, rigidBodies.values, px, steps, timeAccum / fixedDeltaTime)
      ensures timeAccum == old(timeAccum) && steps == old(steps) && actors == old(actors)
      ensures hasGroundPlane == old(hasGroundPlane) && rigidBodies == old(rigidBodies)
    {
      var n := |rigidBodies.values|;
      var tickProgress := timeAccum / fixedDeltaTime;
      ghost var all := Samples(rigidBodies.handles, rigidBodies.values, px, steps, tickProgress);
      var it := 0;
      while it < n
        invariant 0 <= it <= n
        invariant poseWrites == old(poseWrites) + all[..it]
        invariant timeAccum == old(timeAccum) && steps == old(steps) && actors == old(actors)
        invariant hasGroundPlane == old(hasGroundPlane) && rigidBodies == old(rigidBodies)
      {
        var row := rigidBodies.values[it];
        poseWrites := poseWrites + [PoseWrite(rigidBodies.handles[it], row.prevPose, px(row.actor, steps), tickProgress)];
        assert all[..it + 1] == all[..it] + [all[it]];
        it := it + 1;
      }
      assert all[..n] == all;
    }
  }
}
