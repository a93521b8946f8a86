# Trinket engine core in Dafny

A model of the object bookkeeping of the Trinket game engine and of the small
buffer and scheduling routines around it. Each part is proved against a
specification of what the C++ promises.

- **Listener lists** (`Listeners`). `ListenerList<T>` is a class whose
  `listeners` sequence is changed by `TryAdd`, `TryRemove_Swap` and
  `TryRemove_Shift`. Each operation is specified by a function on the
  sequence. Lemmas prove:
  - the list stays duplicate-free;
  - add is idempotent;
  - swap removal moves only the last entry;
  - shift removal is the order-preserving filter.
- **Scene** (`SceneState`, `Scenes`). The scene's three stores are:
  - the identity allocator `ObjectMgr<Name>`;
  - the sublevel pool, which maps a sublevel id to its hierarchy;
  - the reverse index `sceneObjects`, which maps an object id to the sublevel whose hierarchy holds it.

  The class `Scenes.Scene` keeps these as fields. The lookups and both forms of
  `TryReleaseObject` are functions on a `SceneData` value, and each `Scene`
  method is proved to move the fields exactly as that function does. A
  consistency invariant ties the reverse index to the hierarchies.
  - `IsValid(id)` is `mgr.pool.Contains(id)`.
  - Listener calls are returned as a sequence of `Notification` records, in call order.
- **Collaborators** (`ObjectPool`, `ObjectMgr`, `Hierarchies`). These are the
  component pool, the generational allocator and the flattened hierarchy.
  Their source is not part of this model. Each is given the contract the
  scene relies on and a small value implementation that meets it:
  - the pool fails to append a present id and swap-removes;
  - the allocator ignores the release of a stale id;
  - the hierarchy enumerates descendants in depth-first pre-order and removes whole subtrees.
- **Pose algebra** (`Pose`). `RPose`, `HPose` and `PoseMask` over the reals, with:
  - the Hamilton product written out;
  - `quat * vec3` written out as the expanded rotation formula.

  Only identities that are exact in real arithmetic are stated.
- **Mesh buffers** (`MeshData`, `MeshPlotting`, `Meshes`, `Ini`):
  - the in-place edits of an imported mesh blob;
  - the procedural capsule, cube and plane;
  - the export to a one-submesh blob;
  - the `[Mesh]` INI handler;
  - the `SubMesh`/`Mesh` load guards;
  - `MeshRegistry::AddMesh`.
- **Fixed-timestep scheduler** (`Physics`). `PhysicsRuntime::Tick` drains the
  accumulator into whole steps, steps the world, snapshots previous poses
  before the last step and writes every body's pose once. The attach guards
  are included.
- **Animation and materials** (`Animation`, `Materials`):
  - the rig and animator pools and the release callbacks;
  - the material INI handler;
  - the blob size and layout, with a read-back round trip;
  - `MaterialPass::TryLoad`/`Bind`;
  - `LoadMaterial`'s guard-and-rollback.

Foreign code becomes a parameter, so that every proof holds for any behaviour of it:

| foreign call | parameter |
|---|---|
| `strtof` | `toFloat: string -> real` |
| `StrByteCount` | `sbc: string -> nat` |
| the texture lookup | `find: string -> Option<TextureRef>` |
| PhysX's body poses | `px(actor, steps)` |
| the INI parser | the sequence of `IniEntry` lines it reports, plus a `parseFailed` flag |
| the asset database | an `ObjectMgr.Mgr` value |
| `Material::TryLoad`'s outcome | `loads` |
| the capsule's trigonometry | `normalAt` |

Three behaviours of the code that a reader might expect otherwise, and which the model follows:
- `TryReleaseObject` removes the subtree from the hierarchy (Scene.cpp:53) before any listener is told (Scene.cpp:56-58).
- The drain loop `while (timeAccum > fixedDeltaTime)` leaves a remainder that may *equal* one step, not one strictly below it.
- Releasing a parent invalidates only the parent (see Findings).

## Model

| member | source | states |
|---|---|---|
| Listeners.Added | Source/Listener.h:20-24 | adding a present listener leaves the list unchanged; a new one is appended at the end, the old entries keep their positions, the multiset gains exactly that listener, and a duplicate-free list stays duplicate-free |
| Listeners.SwapRemoved | Source/Listener.h:26-32 | removing a non-member changes nothing; removing a member shortens the list by one and loses exactly that listener from the multiset |
| Listeners.SwapRemovedPositions | Source/Listener.h:29-30 | swap removal keeps every other position's listener and puts the former last listener in the vacated slot |
| Listeners.SwapRemoveMultiset | Source/Listener.h:29-30 | overwriting slot i with the last entry and popping the back loses exactly the entry at i |
| Listeners.ShiftRemoved | Source/Listener.h:34-38 | erase of a non-member changes nothing; of a member, shortens by one and loses exactly that listener |
| Listeners.ShiftRemovedIsWithout | Source/Listener.h:34-38 | on a duplicate-free list, shift removal equals the order-preserving filter, so the remaining listeners keep their relative order |
| Listeners.MemberCountOne | Source/Listener.h:20-24 | a listener in a duplicate-free list occurs exactly once |
| Listeners.RemovalsKeepNoDuplicates | Source/Listener.h:26-38 | both removals keep the list duplicate-free and leave the removed listener absent |
| Listeners.SwapRemovedNoDuplicates | Source/Listener.h:26-32 | swap removal keeps the list duplicate-free |
| Listeners.ListenerList.constructor | Source/Listener.h:18 | a new list is empty and valid |
| Listeners.ListenerList.Find | Source/Listener.h:21 | eastl::find returns the first position holding the listener, or the end |
| Listeners.ListenerList.TryAdd | Source/Listener.h:20-24 | the new list is Added(old, x) and stays duplicate-free |
| Listeners.ListenerList.TryRemoveSwap | Source/Listener.h:26-32 | the new list is SwapRemoved(old, x), duplicate-free and without x |
| Listeners.ListenerList.TryRemoveShift | Source/Listener.h:34-38 | the new list is ShiftRemoved(old, x), duplicate-free and without x |
| Seqs.IndexOf | Source/Listener.h:21 | the result is at most the length, holds the value when below it, and no earlier position holds the value |
| Seqs.IndexOfUnique | Source/Listener.h:21 | in a duplicate-free list the position found for an entry is its own position |
| ObjectPool.Pool.TryGet | Source/Scene.h:65 | TryGetComponent gives a value exactly when the id has a row, and that row's value |
| ObjectPool.Pool.TryAppend | Source/Scene.cpp:84 | TryAppendObject succeeds exactly when the id is absent; on failure nothing changes; on success the count grows by one, the id maps to the new value and only it joins |
| ObjectPool.Pool.TryReleaseSwap | Source/Scene.cpp:88 | TryReleaseObject_Swap succeeds exactly when the id is present; on failure nothing changes; afterwards the id is absent, the count dropped by one on success, and no other id's membership changes |
| ObjectPool.Pool.TrySet | Source/Scene.cpp:53 | the in-place update of a component: the id's row holds the new value, the ids are unchanged, and an absent id changes nothing |
| ObjectPool.AppendKeepsOthers | Source/Scene.cpp:84 | appending leaves every other id's value unchanged |
| ObjectPool.ReleaseSwapKeepsOthers | Source/Scene.cpp:88 | swap-removal leaves every other id's value unchanged, whatever row it moves to |
| ObjectMgr.FirstFree | Source/Scene.cpp:17-19 | the slot CreateObject reuses: every slot before it is live, and it is a free slot or the first slot past the table |
| ObjectMgr.Create | Source/Scene.cpp:17-19 | CreateObject issues a non-NIL id that was not valid before, is valid after and carries the name; no other id's validity changes |
| ObjectMgr.Release | Source/Scene.cpp:59 | ReleaseObject makes the id invalid and stale; releasing an invalid id changes nothing; no other id's validity changes |
| ObjectMgr.TryGetName | Source/Scene.cpp:69 | the name component exists exactly for valid ids |
| ObjectMgr.Rename | Source/Scene.cpp:63-66 | a valid id gets the new name; an invalid id leaves the manager unchanged |
| ObjectMgr.StaleStaysStale | Source/Scene.h:56 | a stale id is not valid, and stays stale across later creations and releases |
| ObjectMgr.GenerationSafety | Source/Scene.h:56 | after a release the released id is invalid and differs from the next id created, even in the same slot |
| ObjectMgr.ReleaseIdempotent | Source/Scene.cpp:59 | releasing twice is the same as releasing once |
| Hierarchies.NewHierarchy | Source/Scene.cpp:23 | a new hierarchy for the sublevel has no nodes and no listeners |
| Hierarchies.AddListener | Source/Scene.cpp:24 | the listener becomes registered; it is appended only if absent, and the nodes are unchanged |
| Hierarchies.DescendantEnd | Source/Scene.cpp:51 | a node's subtree is the run of strictly deeper nodes that follows it |
| Hierarchies.Descendants | Source/Scene.cpp:51-52 | the descendant enumeration lists only nodes of the hierarchy and never the node itself |
| Hierarchies.TryRelease | Source/Scene.cpp:53 | removing a present node removes exactly it and its descendants, reported in order and without duplicates; an absent node changes nothing |
| Hierarchies.TryAdd | Source/Scene.cpp:83-85 | a hierarchy add succeeds exactly when the node is new and the parent, if any, is present; only the new node joins |
| SceneState.GetName | Source/Scene.cpp:68-71 | a valid id yields its name; any other id yields the default Name |
| SceneState.GetHierarchy | Source/Scene.h:65 | a hierarchy is returned exactly for sublevel ids |
| SceneState.GetSublevel | Source/Scene.h:68 | an id not in the scene-object index yields NIL |
| SceneState.GetSublevelHierarchyFor | Source/Scene.h:69 | an id not in the scene-object index yields null |
| SceneState.LiveIsNotNil | Source/Scene.cpp:47-48 | a valid id is never NIL |
| SceneState.LookupsAgree | Source/Scene.h:68-69 | in a consistent scene, GetSublevel is NIL exactly for unindexed ids; an indexed id's sublevel is a sublevel whose hierarchy holds it |
| SceneState.DropAll | Source/Scene.cpp:87-89 | the WillRemoveObject callbacks drop exactly the reported ids from the index and keep every other entry's value |
| SceneState.ReleaseEachAsWritten | Source/Scene.cpp:56-60 | as written, the loop's effect on the manager is one release of `id` (none for an empty destroy set) |
| SceneState.ReleaseAll | Source/Scene.cpp:56-60 | the corrected loop invalidates exactly the destroy set and nothing else |
| SceneState.ReleaseEachAsWrittenKeepsRest | Source/Scene.cpp:59 | as written, every valid descendant in the destroy set is still valid afterwards |
| SceneState.ReleaseAllInvalidatesAll | Source/Scene.cpp:56-60 | with the corrected loop no destroy-set element stays valid and every other id keeps its validity |
| SceneState.Round | Source/Scene.cpp:57-58 | the inner loop tells every listener, in list order, about the element |
| SceneState.Notifications | Source/Scene.cpp:56-58 | the nested loop makes one call per (element, listener) pair |
| SceneState.NotificationAt | Source/Scene.cpp:56-58 | call number k·L + j tells listener j about element k: each listener hears each element exactly once, outer order by destroy set and inner order by listener list |
| SceneState.NoNotifications | Source/Scene.cpp:56-58 | with no destroy set or no listeners, nobody is called |
| SceneState.UnparentedReleaseConsistent | Source/Scene.cpp:47-60 | releasing an id outside every hierarchy keeps the scene consistent |
| SceneState.TryReleaseAsWritten | Source/Scene.cpp:29-61 | invalid id: nothing changes and nobody is called; sublevel: nothing changes and nobody is called; unindexed object: destroy set [id], consistent result; on the notifying exits the destroy set starts with id |
| SceneState.PruneFrom | Source/Scene.cpp:49-53 | the owner's hierarchy becomes the pruned hierarchy and every other sublevel's is kept; id and the removed descendants are unindexed; every other object keeps its sublevel; the asset database is untouched |
| SceneState.AsWrittenReleasedEffect | Source/Scene.cpp:44-60 | on the Released exit: the owner's hierarchy is the pruned one and the others are kept; exactly id and the removed descendants leave the index, and every other object keeps its sublevel; the destroy set is what the hierarchy removed |
| SceneState.AsWrittenMissesHierarchy | Source/Scene.cpp:47-53 | when the owning sublevel is not itself indexed, releasing a placed object takes the null-hierarchy path and leaves the scene inconsistent |
| SceneState.PrunedIndexKeepsOthers | Source/Scene.cpp:49-53 | the prune keeps the index entry of every object outside the destroy set |
| SceneState.Pruned | Source/Scene.cpp:49-53 | the prune keeps the pools valid and the set of sublevels unchanged |
| SceneState.PrunedSublevelsOk | Source/Scene.cpp:49-53 | after the prune every sublevel is still well formed and indexed, provided no sublevel id was in the subtree |
| SceneState.PrunedObjectsOk | Source/Scene.cpp:49-53 | after the prune every indexed object sits in its sublevel's hierarchy |
| SceneState.PrunedConsistent | Source/Scene.cpp:49-53 | the prune keeps the scene consistent unless it removes a sublevel id |
| SceneState.PrunedRegistered | Source/Scene.cpp:49-53 | the scene stays a listener of every sublevel hierarchy after the prune |
| SceneState.TryReleaseIntended | Source/Scene.cpp:29-61 | the three guards as in the source, and the null-hierarchy path never happens; a placed object's destroy set is id then its descendants, each of which is invalidated and unindexed, with the rest kept |
| SceneState.ManagerGrowsConsistent | Source/Scene.cpp:17-19 | creating objects keeps the scene consistent |
| SceneState.WithNewSublevel | Source/Scene.cpp:21-27 | CreateSublevel returns an id that was invalid and is now valid with its name; the id is appended as a sublevel with an empty hierarchy that lists the scene; consistency and registration are kept and the index is unchanged |
| SceneState.WithPlacedObject | Source/Scene.cpp:83-85 | placing a valid, unplaced object succeeds exactly when its parent, if any, is in the sublevel's hierarchy; on success DidAddObject indexes it under that sublevel, whose hierarchy now holds it; a failed add changes nothing; consistency, registration and the manager are kept |
| Scenes.Scene.constructor | Source/Scene.cpp:7-12 | a new scene has exactly one sublevel, named "Default Level", with an empty hierarchy that lists the scene, and no indexed objects |
| Scenes.Scene.AddListener | Source/Scene.h:44 | the listener list becomes Added(old, l), so adding is idempotent |
| Scenes.Scene.RemoveListener | Source/Scene.h:45 | the listener list becomes SwapRemoved(old, l), a no-op for an unregistered listener |
| Scenes.Scene.CreateObject | Source/Scene.cpp:17-19 | the manager and the id are Create(old manager, name); sublevels and index unchanged |
| Scenes.Scene.CreateSublevel | Source/Scene.cpp:21-27 | the new state and id are WithNewSublevel(old state, name, this) |
| Scenes.Scene.TryRename | Source/Scene.cpp:63-66 | the manager becomes Rename(old, id, name), a no-op for an invalid id |
| Scenes.Scene.FindObject | Source/Scene.cpp:73-81 | NIL exactly when no valid object has the name; otherwise the handle at the first storage row with that name, which is valid and has that name |
| Scenes.Scene.HierarchyDidAddObject | Source/Scene.cpp:83-85 | the index becomes TryAppend(id, reporting sublevel) of the old index |
| Scenes.Scene.HierarchyWillRemoveObject | Source/Scene.cpp:87-89 | the index becomes TryReleaseSwap(id) of the old index |
| Scenes.Scene.PlaceInSublevel | Source/Scene.cpp:83-85 | a hierarchy add and its callback move the scene exactly as WithPlacedObject |
| Scenes.Scene.NotifyRound | Source/Scene.cpp:57-58 | the calls made are Round(listeners, x) |
| Scenes.Scene.NotifyAndReleaseAsWritten | Source/Scene.cpp:56-60 | the calls are Notifications(destroy set, listeners) and the manager becomes ReleaseEachAsWritten |
| Scenes.Scene.NotifyAndReleaseAll | Source/Scene.cpp:56-60 | the calls are Notifications(destroy set, listeners) and the manager becomes ReleaseAll |
| Scenes.Scene.ReportRemoved | Source/Scene.cpp:87-89 | the removal callbacks for a subtree drop it from the index as DropAll does |
| Scenes.Scene.TryReleaseObject | Source/Scene.cpp:29-61 | the outcome, destroy set and new state are TryReleaseAsWritten(old state, id); listeners are called per Notifications on the notifying exits and not at all otherwise |
| Scenes.Scene.TryReleaseObjectIntended | Source/Scene.cpp:29-61 | the outcome, destroy set and new state are TryReleaseIntended(old state, id), with the same calls; the scene stays valid when no sublevel is destroyed |
| Pose.QMul | Source/Math.h:60 | the Hamilton product glm computes for quat * quat, which composes two rotations; the identity quaternion is its unit on both sides (QuatUnits) |
| Pose.Rotate | Source/Math.h:60 | glm's quat * vec3, the rotation q v q* written out in components; the identity leaves every vector alone and the zero vector stays zero (RotateByIdentity, RotateZero) |
| Pose.RPoseIdentity | Source/Math.h:42 | RPose(ForceInit): identity rotation (1, 0, 0, 0) at the origin |
| Pose.RPoseFromPosition | Source/Math.h:43 | RPose(vec3): identity rotation at the given position |
| Pose.RPoseFromRotation | Source/Math.h:44 | RPose(quat): the given rotation at the origin |
| Pose.HPoseIdentity | Source/Math.h:106 | HPose(ForceInit): identity rotation, origin, unit scale |
| Pose.HPoseFromPosition | Source/Math.h:107 | HPose(vec3): identity rotation and unit scale at the given position |
| Pose.HPoseFromRotation | Source/Math.h:108 | HPose(quat): the given rotation at the origin with unit scale |
| Pose.HPoseFromRotationPosition | Source/Math.h:109 | HPose(quat, vec3): the given rotation and position with unit scale |
| Pose.HPoseFromRPose | Source/Math.h:110 | HPose(RPose): the rigid pose's rotation and position with unit scale |
| Pose.MaskNone | Source/Math.h:170 | PoseMask(ForceInit): no ignore bit set |
| Pose.RMul | Source/Math.h:60 | RPose composition: rotations multiply and the right pose's position is rotated by the left rotation and offset by the left position |
| Pose.HMul | Source/Math.h:127-133 | HPose composition: the right position is scaled component-wise by the left scale, rotated and offset; rotations multiply and scales multiply component-wise |
| Pose.HInverse | Source/Math.h:135-139 | inverse rotation, reciprocal scale, and position −p/s rotated by the inverse rotation |
| Pose.BlendRotation | Source/Math.h:178 | quat(r, 0, 0, 0) + (1 − r) q, the rotation channel's mask blend |
| Pose.BlendPosition | Source/Math.h:179 | (1 − p) v, the position channel's mask blend |
| Pose.BlendScale | Source/Math.h:195 | vec3(s, s, s) + (1 − s) v, the scale channel's mask blend |
| Pose.RApply | Source/Math.h:174-181 | the RPose with its rotation and position blended by the mask's ignore bits |
| Pose.HApply | Source/Math.h:183-197 | the HPose with its rotation, position and scale blended by the mask's ignore bits |
| Pose.Concat | Source/Math.h:199-201 | the masked parent composed with the child |
| Pose.Rebase | Source/Math.h:203-207 | the desired pose when all three bits are set, otherwise the inverse of the masked parent composed with the desired pose |
| Pose.RPoseIdentityNeutral | Source/Math.h:42-60 | the identity RPose is a left and right identity of RPose composition |
| Pose.HPoseIdentityNeutral | Source/Math.h:106-133 | the identity HPose is a left and right identity of HPose composition |
| Pose.ConstructorsFromIdentity | Source/Math.h:42-111 | the position-only and rotation-only constructors are the identity with that field replaced; HPose(q, p) is HPose(RPose(q, p)) |
| Pose.HPoseFromRPoseComposes | Source/Math.h:110 | HPose(RPose) keeps rotation and position with unit scale, and composing such poses is RPose composition |
| Pose.MaskFromBools | Source/Math.h:153-172 | the three-bool constructor sets exactly the three ignore bits, and allIgnoreBits is 7 exactly when all are set |
| Pose.BlendEnds | Source/Math.h:174-197 | each blend expression gives the channel's identity when the bit is set and the pose's own channel when clear |
| Pose.ApplyAgreesOnRPose | Source/Math.h:174-197 | masking HPose(RPose) equals HPose of the masked RPose |
| Pose.ApplyChannels | Source/Math.h:183-197 | Apply sets an ignored position to zero, an ignored rotation to the identity and an ignored scale to (1,1,1), and keeps every other channel |
| Pose.ApplyNoMask | Source/Math.h:170-197 | a mask with no ignore bits leaves every RPose and HPose unchanged |
| Pose.ConcatNoMask | Source/Math.h:199-201 | with no ignore bits, Concat is plain composition |
| Pose.ConcatAllIgnored | Source/Math.h:199-201 | with all three bits set, Concat returns the child pose |
| Pose.RebaseAllIgnored | Source/Math.h:203-207 | with all three bits set, Rebase returns the desired pose unchanged |
| Pose.InverseUnrotated | Source/Math.h:135-139 | the inverse of an unrotated pose has identity rotation, reciprocal scale and position −p/s |
| Pose.HMulUnrotated | Source/Math.h:127-133 | composing with an unrotated parent combines positions and scales component-wise |
| Pose.UnrotatedInverseCancels | Source/Math.h:127-139 | an unrotated pose composed with its inverse's composition with d gives d |
| Pose.RebaseThenConcat | Source/Math.h:199-207 | Concat undoes Rebase whenever the masked parent has identity rotation and no zero scale component |
| Pose.HMulNotAssociative | Source/Math.h:127-133 | HPose composition is not associative: an x-stretch, a half turn and an offset compose differently by grouping |
| MeshData.ComputeMeshAABB | Source/Mesh.cpp:30-36 | the loop returns Bounds of the first count vertices |
| MeshData.BoundsHold | Source/Mesh.cpp:30-36 | the computed box holds every vertex position |
| MeshData.BoundsAttained | Source/Mesh.cpp:30-36 | every face of the computed box touches some vertex, so it is the smallest such box |
| MeshData.SwapTriplesInvolutive | Source/Mesh.cpp:324-325 | swapping the 2nd and 3rd entries of each triple of a run twice restores it |
| MeshData.SwapAllPointwise | Source/Mesh.cpp:319-332 | with disjoint runs, each position of a run follows that run's swap rule and positions outside every run are unchanged |
| MeshData.SwapAllInvolutive | Source/Mesh.cpp:319-332 | reversing the winding order twice restores the data |
| MeshData.MapAllPointwise | Source/Mesh.cpp:334-341 | with disjoint runs, each covered element is edited exactly once and the rest unchanged |
| MeshData.Flipped | Source/Mesh.cpp:339 | the normal is negated; position, uv and colour are kept |
| MeshData.FlipAllInvolutive | Source/Mesh.cpp:334-341 | flipping normals twice restores the data |
| MeshData.Painted | Source/Mesh.cpp:343-350 | the intended edit sets the colour and keeps position, normal and uv |
| MeshData.MeshAssetData.ReverseWindingOrder | Source/Mesh.cpp:319-332 | indices become SwapAll over the submeshes with indices, and vertices SwapAll over those without |
| MeshData.MeshAssetData.ReverseOneSubmesh | Source/Mesh.cpp:321-330 | one outer pass extends both swaps by submesh `sub` |
| MeshData.MeshAssetData.ReverseRun | Source/Mesh.cpp:322-329 | one submesh's run is swapped after the earlier ones |
| MeshData.MeshAssetData.FlipNormals | Source/Mesh.cpp:334-341 | vertices become MapAll(Flipped) over every submesh's vertex run |
| MeshData.MeshAssetData.SetColor | Source/Mesh.cpp:343-350 | as written, no vertex changes |
| MeshData.MeshAssetData.SetColorIntended | Source/Mesh.cpp:343-350 | corrected, every submesh vertex takes the colour and nothing else changes |
| MeshData.MeshAssetData.MapVertices | Source/Mesh.cpp:335-340 | the shared per-vertex loop applies its edit to every submesh vertex |
| MeshData.SwapTriplesInPlace | Source/Mesh.cpp:324-325 | the inner loop leaves SwapTriples of the old array |
| MeshData.MapInPlace | Source/Mesh.cpp:338-339 | the inner loop leaves MapSpan of the old array |
| MeshPlotting.Resized | Source/Mesh.cpp:472 | resize keeps the first old elements and fills new slots with the blank value |
| MeshPlotting.ClampSamples | Source/Mesh.cpp:465 | at least 3, and unchanged when already at least 3 |
| MeshPlotting.ClampRings | Source/Mesh.cpp:466 | at least 1, and unchanged when already at least 1 |
| MeshPlotting.CapVertex | Source/Mesh.cpp:486-497 | each cap vertex is white with u = j/samples |
| MeshPlotting.CapRing | Source/Mesh.cpp:486-497 | a ring holds samples + 1 vertices |
| MeshPlotting.CapRingsLength | Source/Mesh.cpp:481-498 | m rings take m·(samples + 1) slots |
| MeshPlotting.CapRingsAt | Source/Mesh.cpp:481-498 | sample j of ring i sits at slot i·(samples + 1) + j |
| MeshPlotting.CapsuleVertices | Source/Mesh.cpp:468-472 | the buffer holds 2·(rings + 1)·(samples + 1) vertices |
| MeshPlotting.StripRow | Source/Mesh.cpp:535-543 | a strip of m quads holds 6m indices |
| MeshPlotting.StripRowAt | Source/Mesh.cpp:535-543 | entry 6j + t of a strip is entry t of quad j |
| MeshPlotting.StripRowBound | Source/Mesh.cpp:535-543 | no strip entry exceeds next + m |
| MeshPlotting.StripsLength | Source/Mesh.cpp:524-528 | the index buffer holds 6·samples·(strip count) entries |
| MeshPlotting.StripsAt | Source/Mesh.cpp:532-545 | quad j of strip i sits at entry 6(samples·i + j) and joins ring starts i·stride and (i + 1)·stride |
| MeshPlotting.StripsBound | Source/Mesh.cpp:532-545 | no index exceeds the last ring start plus samples |
| MeshPlotting.CapRingsWhite | Source/Mesh.cpp:495 | every plotted cap vertex is white |
| MeshPlotting.CapsuleIntendedComplete | Source/Mesh.cpp:500-519 | with rings + 1 bottom rings the two caps fill the whole buffer and every vertex is white |
| MeshPlotting.CapsuleAsWrittenApexUnwritten | Source/Mesh.cpp:502 | as written, the last ring's slots keep the resized buffer's old or zero vertices, which are not white |
| MeshPlotting.CapsuleGrid | Source/Mesh.cpp:468-519 | with both caps full, sample j of ring i is vertex i·(samples + 1) + j |
| MeshPlotting.StripsJoinGrid | Source/Mesh.cpp:533-545 | with stride samples + 1, quad j of strip i is the grid cell between rings i, i + 1 and samples j, j + 1 |
| MeshPlotting.StripsIntendedInRange | Source/Mesh.cpp:524-545 | every corrected index is below the vertex count |
| MeshPlotting.StripsAsWrittenSkewed | Source/Mesh.cpp:534 | as written, the first triangle's third corner is sample 0 of ring 1 instead of sample 1 |
| MeshPlotting.StripsAsWrittenInRange | Source/Mesh.cpp:524-545 | at the as-written stride every index the strips emit is below the vertex count, so the skew never reads past the buffer |
| MeshPlotting.MeshPlotter.PlotCapsule | Source/Mesh.cpp:464-547 | vertices are the clamped capsule's buffer with rings bottom rings; with plotIndex the indices are strips at stride samples, otherwise they are untouched |
| MeshPlotting.MeshPlotter.PlotCapsuleIntended | Source/Mesh.cpp:464-547 | the same with rings + 1 bottom rings and stride samples + 1 |
| MeshPlotting.MeshPlotter.Plot | Source/Mesh.cpp:464-547 | the shared body leaves CapsuleVertices and the strips, or the old indices |
| MeshPlotting.MeshPlotter.PlotCaps | Source/Mesh.cpp:468-519 | sizing and both cap loops leave CapsuleVertices and keep the indices |
| MeshPlotting.MeshPlotter.PlotRings | Source/Mesh.cpp:481-498 | the cursor writes m rings at start and nothing else |
| MeshPlotting.MeshPlotter.PlotRing | Source/Mesh.cpp:486-497 | the cursor writes one ring at start and nothing else |
| MeshPlotting.MeshPlotter.PlotStrips | Source/Mesh.cpp:528-545 | the index buffer becomes the strips |
| MeshPlotting.MeshPlotter.PlotStrip | Source/Mesh.cpp:535-543 | the cursor writes one strip at start and nothing else |
| MeshPlotting.MeshPlotter.PlotCube | Source/Mesh.cpp:549-628 | 24 white vertices, each the table corner times extent with its uv and normal, and the 36-entry index table |
| MeshPlotting.MeshPlotter.PlotPlane | Source/Mesh.cpp:630-647 | the four plane vertices and six indices |
| MeshPlotting.MeshPlotter.SetVertexColor | Source/Mesh.cpp:672-675 | every vertex takes the colour, the count and other fields are kept, and the indices are unchanged |
| MeshPlotting.MeshPlotter.CreateAssetData | Source/Mesh.cpp:650-670 | one submesh whose counts are the buffer sizes, holding copies of both buffers and the box of all vertices, and valid; the blob it writes is as large as MeshBlobSize and fully written |
| MeshPlotting.MeshBlobSize | Source/Mesh.cpp:651-656 | the size the blob is allocated with: both headers, the vertex area and the index area |
| MeshPlotting.WriteMeshBlob | Source/Mesh.cpp:657-668 | the writer's cursor, advanced header by header and area by area, ends exactly at MeshBlobSize; vertices start after both headers and indices right after the vertices |
| MeshPlotting.CubeTablesAgree | Source/Mesh.cpp:574-613 | each face's two triangles use only its four corners, the corners share the face normal, and each lies on its face plane |
| MeshPlotting.CubeOnFaces | Source/Mesh.cpp:618-621 | each scaled cube vertex lies at distance extent along its normal |
| MeshPlotting.PlaneTablesAgree | Source/Mesh.cpp:631-641 | four vertices in z = 0, all six indices below 4, both triangles sharing the diagonal 0-2 |
| Meshes.MeshKey | Source/Mesh.cpp:56-81 | one handler call: a [Mesh] line with a known key overwrites that field (floats through strtof, includeSkin true unless "false"); anything else changes nothing |
| Meshes.MeshKeys | Source/Mesh.cpp:56-85 | the config after every line has been fed to the handler in file order, from the defaults |
| Meshes.MeshKeysLastWins | Source/Mesh.cpp:56-85 | after every line is fed to the handler, each field holds the last [Mesh] value for its key, or its default |
| Meshes.MeshKeyFields | Source/Mesh.cpp:60-81 | one line sets exactly the field named by its [Mesh] key (includeSkin is false only for "false") and leaves the rest |
| Meshes.MeshKeysOnlySection | Source/Mesh.cpp:60-61 | lines outside [Mesh] do not change the config |
| Meshes.ImportMeshConfig | Source/Mesh.cpp:87-92 | null exactly when the parse fails; otherwise the settings with "Assets/" prefixed to the path |
| Meshes.SubMesh.TryLoad | Source/Mesh.cpp:364-403 | false and unchanged when loaded; otherwise the counts and usage are recorded, and an index buffer is made exactly when there are indices |
| Meshes.SubMesh.TryLoadFromAsset | Source/Mesh.cpp:353-362 | the same guard, loading the counts of submesh idx |
| Meshes.Mesh.TryLoadFromAsset | Source/Mesh.cpp:431-436 | fails, with nothing changed, when submesh 0 is loaded; otherwise loads it and takes the asset's box |
| Meshes.Mesh.TryLoad | Source/Mesh.cpp:438-443 | fails, with nothing changed, when loaded; otherwise loads the counts and takes the given box |
| Meshes.MeshRegistry.AddMesh | Source/Mesh.cpp:445-455 | null with the pool unchanged exactly when the id is invalid or already has a mesh; otherwise a fresh unloaded mesh is appended under the id |
| Physics.FloorStep | Source/Physics.cpp:105-107 | taking one step off an accumulator above the step lowers its whole-step count by one |
| Physics.FixedTicks | Source/Physics.cpp:104-108 | the number of fixed steps the drain loop counts: none when the accumulator is at most one step, otherwise one more than for the accumulator less one step |
| Physics.Remainder | Source/Physics.cpp:104-108 | what the drain loop leaves in the accumulator: itself when at most one step, otherwise the remainder of the accumulator less one step |
| Physics.DrainSpec | Source/Physics.cpp:102-108 | the remainder is acc − k·fdt, at most fdt, positive when k > 0, and k = 0 exactly when acc ≤ fdt |
| Physics.DrainUnique | Source/Physics.cpp:104-108 | the step count k is the only count with those properties |
| Physics.Snapshot | Source/Physics.cpp:126-127 | the snapshot keeps the number of rows |
| Physics.Samples | Source/Physics.cpp:135-144 | one pose write per row |
| Physics.SamplesEachBodyOnce | Source/Physics.cpp:136-144 | every body's id is written exactly once, blending from its saved pose to its current pose at the tick progress |
| Physics.PhysicsRuntime.constructor | Source/Physics.cpp:16-41 | a new runtime has no actors, no ground plane, no bodies, no steps and an empty accumulator |
| Physics.PhysicsRuntime.TryAddGroundPlane | Source/Physics.cpp:60-65 | the first call adds the plane actor; later calls change nothing |
| Physics.PhysicsRuntime.TryAttachRigidbodyTo | Source/Physics.cpp:67-82 | requires a valid id; false and unchanged when a body exists; otherwise one dynamic actor and one row whose saved pose is the world pose |
| Physics.PhysicsRuntime.TryAttachBoxTo | Source/Physics.cpp:84-97 | false and unchanged when there is no body; otherwise one box is attached to that body only |
| Physics.PhysicsRuntime.Tick | Source/Physics.cpp:99-146 | timeAccum becomes the remainder; with no bodies nothing else changes; otherwise k steps are taken, poses are snapshotted after k − 1 steps iff k ≥ 1, and every body is written once at timeAccum / fixedDeltaTime |
| Physics.PhysicsRuntime.SavePrevPoses | Source/Physics.cpp:126-127 | every row's saved pose becomes its actor's current pose |
| Physics.PhysicsRuntime.SamplePoses | Source/Physics.cpp:134-144 | the pose writes appended are Samples at the current step count and progress |
| Animation.AnimationRuntime.constructor | Source/Animation.cpp:7-11 | the runtime starts with empty pools and is added to the skeleton registry's listeners |
| Animation.AnimationRuntime.Dispose | Source/Animation.cpp:13-15 | the runtime is swap-removed from the registry's listeners |
| Animation.AnimationRuntime.CreateCharacterRig | Source/Animation.cpp:17-24 | null with nothing changed exactly when the asset has a rig; otherwise exactly one rig keyed by the asset id is appended |
| Animation.AnimationRuntime.AttachAnimatorTo | Source/Animation.cpp:26-34 | null with nothing changed exactly when the skeleton has an animator or the assets differ; otherwise one animator keyed by the skeleton id is appended |
| Animation.AnimationRuntime.WillReleaseSkeleton | Source/Animation.cpp:36-38 | the animators pool becomes TryReleaseSwap(id), a no-op when absent; rigs unchanged |
| Animation.AnimationRuntime.WillReleaseSkelAsset | Source/Animation.cpp:40-42 | the rigs pool becomes TryReleaseSwap(id), a no-op when absent; animators unchanged |
| Materials.MaterialKey | Source/Material.cpp:27-42 | one handler call: a [Material] line marks the section seen and sets vsh or psh by name; a [Textures] line appends a variable; other sections change nothing |
| Materials.MaterialKeys | Source/Material.cpp:27-45 | the config after every line has been fed to the handler in file order, from the empty config |
| Materials.MaterialKeysSpec | Source/Material.cpp:27-45 | the section counts as seen iff some line is in [Material]; vsh and psh are their last values; the variables are the [Textures] lines in file order |
| Materials.ImportMaterialConfig | Source/Material.cpp:47-54 | null exactly when the parse fails or no [Material] line exists; otherwise the config's texture variables are the [Textures] lines in file order |
| Materials.PairStrings | Source/Material.cpp:80-83 | two strings per texture variable |
| Materials.PairStringsBytes | Source/Material.cpp:64-67 | the written pair strings take exactly the bytes the size loop adds |
| Materials.ReadPairs | Source/Material.cpp:101-104 | the reader yields one variable per count |
| Materials.ReadPairsWritten | Source/Material.cpp:101-104 | reading the written pairs back gives the variables in order |
| Materials.ComputeBlobSize | Source/Material.cpp:59-67 | the size loop yields the header + 4·count + every string's bytes |
| Materials.WriteMaterialBlob | Source/Material.cpp:58-85 | the offsets follow the vsh and psh strings; the count is the variable count; strings are vsh, psh, then name/path pairs in order; the written bytes plus 4·count equal the size |
| Materials.BlobTextures | Source/Material.cpp:101-104 | a blob yields as many variables as its count |
| Materials.BlobRoundTrip | Source/Material.cpp:72-83 | a written blob is well formed and reads back the config's variables |
| Materials.Bindings | Source/Material.cpp:102-111 | one binding per variable when every path is found |
| Materials.MaterialPass.TryLoad | Source/Material.cpp:90-208 | true at once when loaded; otherwise true iff every path is found and both shaders and the pipeline are created; on failure nothing changes; on success the bindings are ExposedBindings of the found textures |
| Materials.ExposedBindings | Source/Material.cpp:204-206 | the bindings kept are exactly those whose variable the shader exposes, never more than were given |
| Materials.SetExposed | Source/Material.cpp:204-206 | the loop over the textures Sets exactly ExposedBindings of them, in order |
| Materials.MaterialPass.Bind | Source/Material.cpp:216-223 | returns whether the pass is loaded |
| Materials.Material.constructor | Source/Material.cpp:88 | a material carries its id |
| Materials.MaterialRegistry.constructor | Source/Material.cpp:226-227 | a new registry holds no materials |
| Materials.MaterialRegistry.LoadMaterial | Source/Material.cpp:232-250 | null with the pool unchanged exactly when the id is invalid, already loaded, or the load fails; otherwise the new material is appended under the id |

## Left out

- Assimp import, node-transform traversal and the float vertex transforms of the mesh import are foreign library calls and float matrix maths.
  - The config part is modelled; the rest of ImportMeshAssetDataFromSource is not.
- GPU work is foreign renderer code and is not modelled:
  - buffer creation, draw calls, pipeline, shader and sampler setup;
  - `SubMesh::TryLoad`'s buffers are recorded only as `loaded` and `hasIndexBuffer`;
  - `MaterialPass` records only `loaded` and its bindings;
  - `LoadMaterial`'s final `AddRenderPasses(result)` call (Material.cpp:248), which hands the new material to the renderer.
- PhysX creation, teardown, `simulate` and `fetchResults`: a step is a counted event, and the pose of actor `a` after `s` steps is the parameter `px(a, s)`.
- Physics.PhysicsRuntime.Tick: records the `SetSceneRigidPose` calls as `PoseWrite` values and does not compute the `RPose::NLerp` blend, which is float normalisation.
- Physics.PhysicsRuntime.constructor: the PhysX foundation, scene and material set-up is not modelled; the fixed step is a positive parameter and the accumulator starts at 0, because their initialisers are in Physics.h, which is not part of this model.
- Physics.PhysicsRuntime.TryAttachRigidbodyTo: the object's world pose, which the source reads from its hierarchy, is a parameter.
- Physics.PhysicsRuntime.TryAttachRigidbodyTo: does not model the null hierarchy. The source takes the hierarchy from `GetSublevelHierarchyFor(id)` and dereferences it unchecked (Physics.cpp:73-74). That lookup is null for a valid object that was never placed in a sublevel, since `CreateObject` only asks the asset database for an id (Scene.cpp:17-18). The model attaches such an object like any other and reports success.
- Physics.PhysicsRuntime.Tick: does not model the null hierarchy either. The sampling loop looks up each body's hierarchy and dereferences it unchecked (Physics.cpp:138-139). That lookup is null for a body whose object was never placed, or was released after it was attached: nothing in the runtime removes a body from `rigidBodies`, and the runtime does not listen to the scene. The model records a `PoseWrite` for every body, so it does not capture that crash, and it does not capture the stale bodies that attach, release and then Tick leave behind.
- The source's `CHECK_ASSERT`s are preconditions, as the callers must meet them:
  - MeshData.ComputeMeshAABB requires `count > 0` (Mesh.cpp:31);
  - Meshes.SubMesh.TryLoad requires a multiple of 3 indices (Mesh.cpp:368);
  - Materials.MaterialPass.TryLoad requires fewer than 16 textures (Material.cpp:94);
  - Physics.PhysicsRuntime.TryAttachRigidbodyTo requires a valid id (Physics.cpp:69).
- Constructors declared in headers that are not part of this model (`SubMesh`, `Mesh`, `MeshRegistry`, `MeshPlotter`, `MaterialPass`) are modelled as starting empty and unloaded.
- Float arithmetic is modelled with reals:
  - time, poses and extents;
  - no rounding, NaN or infinity.
- Integer widths are unbounded. The 32-bit casts of sizes, counts and offsets in `CreateAssetData` and the material blob, and their wrap-around, are not modelled.
- Pose: `RPose::Inverse`, `NLerp`, `ToMatrix`, `ToPhysX`, the PhysX conversions, `ContainsNaN` and `IsNormalized` are not modelled. They are float- or library-specific.
- Pose.Rebase: requires the masked parent to be invertible, which means both a non-zero rotation norm and no zero scale component. The source's quaternion inverse divides by the squared norm, and its scale inverse divides by each component. On a zero either way it gets infinities or NaN, which reals cannot express.
- Pose: `PoseMask(uint8)` and the raw `ignoreFlags` are modelled by a `bv8` with the three ignore bits as bits 0-2.
- Capsule trigonometry: the sine/cosine positions and normals are the parameter `normalAt`. The counts, cursor arithmetic, uv, colour and index pattern are modelled.
- MeshData: a blob's vertex area and index area are two typed arrays, not one byte buffer.
  - Submesh offsets are element positions in them.
  - CreateAssetData's byte positions are computed by WriteMeshBlob.
- `MeshPlotter::TryLoad`, `MeshRegistry::FindMesh` and `MaterialRegistry::FindMaterial` are not modelled; they forward to `Mesh::TryLoad` and to the asset database's `FindAsset`, and the asset database is not part of this model.
- Materials.MaterialPass.TryLoad: shader and pipeline creation are the flags `vsOk`, `psOk` and `psoOk`, and the shader's variable lookup is the parameter `exposed`. The `g_ShadowMap` variable, its comparison sampler and the render-constants binding are not modelled; they are fixed device state that the loop over textures does not touch.
- MeshData.MeshAssetData.ReverseWindingOrder: requires `TriangleLists()`, so every index run, and every vertex run of a submesh without indices, holds whole triples. The source does not check this: for an unindexed run whose vertex count is not a multiple of 3 (a capsule plotted without indices has 2 * (rings + 1) * (samples + 1) vertices, 16 for samples 3 and rings 1, so the last pass, at `it` = 15, touches slots 16 and 17), the loop at Mesh.cpp:328-329 swaps slots `it + 1` and `it + 2` past the end of the run, into the next run or past the blob. The model does not give that memory a meaning.
- Materials.MaterialRegistry.LoadMaterial: the outcome of `Material::TryLoad` is the parameter `loads`; its per-pass loading is `MaterialPass.TryLoad`.
- Materials: `StrByteCount` and the string encoding are the parameter `sbc`; `AssetDataWriter` is modelled by the strings it writes, in order, and the offset it reaches.
- The scene's sublevel release path (an unimplemented TODO in the source) is modelled as its early return.
- The real `ObjectPool`, `ObjectMgr`, `Hierarchy` and `Name` are not part of this model. They are given the contracts the scene relies on, and names are strings.
- Hierarchy poses, reparenting and `SanityCheck` are not modelled. The scene neither calls them nor depends on them.
- Animation: the skeleton registry is modelled by its listener list.
  - Its `AddListener` and `RemoveListener` are taken to be `TryAdd` and `TryRemove_Swap`, as the scene's are.
  - A rig is keyed by its skeleton asset's id and an animator by its skeleton's id, as `NewObjectComponent` gives them.
- The `static` destroy-set vector is a local sequence. Its sharing matters only for reentrancy, and nothing here runs concurrently or reentrantly.
- Listener callbacks are recorded, not run: a listener that changes the list or the scene while being notified is not modelled.

## Findings

| source | as written | input that shows it | evidently intended | confidence | as-written member | corrected member |
|---|---|---|---|---|---|---|
| Source/Scene.cpp:59 | every pass of the release loop releases `id`, so descendants in the destroy set stay valid | an object A with child B: releasing A notifies for A and B but B is still valid afterwards | `mgr.ReleaseObject(it)`: every destroy-set element is released | high, not executed | SceneState.ReleaseEachAsWrittenKeepsRest | SceneState.ReleaseAllInvalidatesAll |
| Source/Scene.cpp:50 | the hierarchy is looked up with `GetSublevelHierarchyFor(ownerID)`, which asks the scene-object index about the sublevel id; sublevels are not indexed, so the result is null and line 51 uses it | the "Default Level" sublevel holding one object X: releasing X finds no hierarchy for the sublevel | `GetHierarchy(ownerID)`: prune the owner's own hierarchy | medium, not executed (Hierarchy.h is not part of this model) | SceneState.AsWrittenMissesHierarchy | SceneState.PrunedConsistent |
| Source/Mesh.cpp:502 | the bottom cap loop writes capRingCount rings into a buffer sized for capRingCount + 1, so the bottom apex ring is never written | radiusSampleCount 3, capRingCount 1: 16 vertices, the last 4 left as the resize made them | `i < vertRingCount`, as the top cap loop | high, not executed | MeshPlotting.CapsuleAsWrittenApexUnwritten | MeshPlotting.CapsuleIntendedComplete |
| Source/Mesh.cpp:534 | consecutive rings are taken radiusSampleCount apart, but each ring holds radiusSampleCount + 1 vertices | radiusSampleCount 3: the first triangle is (0, 1, 4), and vertex 4 is sample 0 of ring 1 where sample 1 (vertex 5) belongs | `nextRingStart = currRingStart + vertsPerRing` | high, not executed | MeshPlotting.StripsAsWrittenSkewed | MeshPlotting.StripsJoinGrid |
| Source/Mesh.cpp:348 | the loop body only reads each vertex's colour, so SetColor changes nothing | any mesh and any colour c: the colours after the call are the old ones | `pVertices[it].color = c` | high, not executed | MeshData.MeshAssetData.SetColor | MeshData.MeshAssetData.SetColorIntended |
