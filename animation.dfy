/**
 * AnimationRuntime: the pools of character rigs (one per skeleton asset)
 * and animators (one per skeleton), and the two release callbacks the
 * skeleton registry makes. The registry itself is not part of this model
 * beyond its listener list; rigs and animators are modelled by the ids
 * they are keyed by and the ids they refer to.
 */
module Animation {
  import opened Handles
  import opened Wrappers
  import opened ObjectPool
  import opened Listeners

  /** A skeleton asset: an asset id. */
  datatype SkelAsset = SkelAsset(id: ObjectID)

  /** A skeleton in the scene: its object id and the asset it was made from. */
  datatype Skeleton = Skeleton(id: ObjectID, asset: SkelAsset)

  /** CharacterRig: the component made for a skeleton asset; it is keyed by that asset's id. */
  datatype CharacterRig = CharacterRig(id: ObjectID, asset: SkelAsset)

  /** Animator: the component joining a rig to a skeleton; it is keyed by the skeleton's id. */
  datatype Animator = Animator(id: ObjectID, rig: CharacterRig, skeleton: Skeleton)

  class AnimationRuntime {
    /** The skeleton registry's listener list, which this runtime joins while it exists. */
    const skelListeners: ListenerList<object>
    var rigs: Pool<CharacterRig>
    var animators: Pool<Animator>

    ghost predicate Valid()
      reads this
    {
      rigs.Valid() && animators.Valid()
    }

    /** AnimationRuntime(world): empty pools, registered with the skeleton registry. */
    constructor (registry: ListenerList<object>)
      modifies registry
      ensures Valid() && skelListeners == registry
      ensures rigs.Count() == 0 && animators.Count() == 0
      ensures registry.listeners == Added(old(registry.listeners), this)
      ensures old(registry.Valid()) ==> registry.Valid()
    {
      skelListeners := registry;
      rigs := Empty();
      animators := Empty();
      new;
      registry.TryAdd(this);
    }

    /** ~AnimationRuntime: leave the skeleton registry's listener list. */
    method Dispose()
      modifies skelListeners
      ensures skelListeners.listeners == SwapRemoved(old(skelListeners.listeners), this)
      ensures old(skelListeners.Valid()) ==> skelListeners.Valid() && this !in skelListeners.listeners
    {
      skelListeners.TryRemoveSwap(this);
    }

    /**
     * CreateCharacterRig: null, with the pools unchanged, when the asset
     * already has a rig; otherwise a new rig keyed by the asset's id is
     * appended.
     */
    method CreateCharacterRig(skel: SkelAsset) returns (r: Option<CharacterRig>)
      requires Valid()
      modifies this
      ensures Valid()
      ensures r.None? <==> old(rigs).Contains(skel.id)
      ensures r.None? ==> rigs == old(rigs)
      ensures r.Some? ==> r.value == CharacterRig(skel.id, skel) && rigs == old(rigs).TryAppend(skel.id, r.value).1
      ensures animators == old(animators)
    {
      if rigs.Contains(skel.id) {
        return None;
      }
      var result := CharacterRig(skel.id, skel);
      rigs := rigs.TryAppend(result.id, result).1;
      return Some(result);
    }

    /**
     * AttachAnimatorTo: null, with the pools unchanged, when the skeleton
     * already has an animator or the rig was made for another asset;
     * otherwise a new animator keyed by the skeleton's id is appended.
     */
    method AttachAnimatorTo(rig: CharacterRig, skeleton: Skeleton) returns (r: Option<Animator>)
      requires Valid()
      modifies this
      ensures Valid()
      ensures r.None? <==> old(animators).Contains(skeleton.id) || rig.asset != skeleton.asset
      ensures r.None? ==> animators == old(animators)
      ensures r.Some? ==> r.value == Animator(skeleton.id, rig, skeleton)
      ensures r.Some? ==> animators == old(animators).TryAppend(skeleton.id, r.value).1
      ensures rigs == old(rigs)
    {
      var earlyOut := animators.Contains(skeleton.id) || rig.asset != skeleton.asset;
      if earlyOut {
        return None;
      }
      var result := Animator(skeleton.id, rig, skeleton);
      animators := animators.TryAppend(result.id, result).1;
      return Some(result);
    }

    /** Skeleton_WillReleaseSkeleton: the skeleton's animator leaves the pool, if it has one. */
    method WillReleaseSkeleton(id: ObjectID)
      requires Valid()
      modifies this
      ensures Valid()
      ensures animators == old(animators).TryReleaseSwap(id).1
      ensures rigs == old(rigs)
    {
      animators := animators.TryReleaseSwap(id).1;
    }

    /** Skeleton_WillReleaseSkelAsset: the asset's rig leaves the pool, if it has one. */
    method WillReleaseSkelAsset(id: ObjectID)
      requires Valid()
      modifies this
      ensures Valid()
      ensures rigs == old(rigs).TryReleaseSwap(id).1
      ensures animators == old(animators)
    {
      rigs := rigs.TryReleaseSwap(id).1;
    }
  }
}
