/**
 * The mesh side of the renderer apart from GPU work: the `[Mesh]` section of
 * a mesh import file, the load guards of SubMesh and Mesh, and the
 * MeshRegistry's component pool. Buffer creation on the render device and
 * the Assimp import that follows the config are not part of this model.
 */
module Meshes {
  import opened Handles
  import opened Wrappers
  import opened ObjectPool
  import opened Ini
  import opened MeshData
  import ObjectMgr

  // ---------------------------------------------------------------------------
  // The [Mesh] section
  // ---------------------------------------------------------------------------

  /** MeshConfig: the import settings, all floats modelled as reals. */
  datatype MeshConfig = MeshConfig(
    path: string,
    x: real, y: real, z: real,
    pitch: real, yaw: real, roll: real,
    scale: real, clipDistance: real,
    includeSkinnedMeshes: bool)

  /** The settings before the first key: empty path, no offset or turn, unit scale, skins included. */
  const DEFAULT_MESH_CONFIG: MeshConfig := MeshConfig("", 0.0, 0.0, 0.0, 0.0, 0.0, 0.0, 1.0, 0.0, true)

  /**
   * The key handler: a key outside `[Mesh]` or with an unknown name is
   * ignored; `path` is copied; the float keys go through `toFloat` (strtof,
   * a library call); `includeSkin` is true unless the value is exactly
   * "false". Each key overwrites one field.
   */
  function MeshKey(cfg: MeshConfig, e: IniEntry, toFloat: string -> real): MeshConfig {
    if e.section != "Mesh" then cfg
    else if e.name == "path" then cfg.(path := e.value)
    else if e.name == "x" then cfg.(x := toFloat(e.value))
    else if e.name == "y" then cfg.(y := toFloat(e.value))
    else if e.name == "z" then cfg.(z := toFloat(e.value))
    else if e.name == "pitch" then cfg.(pitch := toFloat(e.value))
    else if e.name == "yaw" then cfg.(yaw := toFloat(e.value))
    else if e.name == "roll" then cfg.(roll := toFloat(e.value))
    else if e.name == "scale" then cfg.(scale := toFloat(e.value))
    else if e.name == "clipDistance" then cfg.(clipDistance := toFloat(e.value))
    else if e.name == "includeSkin" then cfg.(includeSkinnedMeshes := e.value != "false")
    else cfg
  }

  /** The config after the parser has fed the handler every line, in file order. */
  function MeshKeys(es: seq<IniEntry>, toFloat: string -> real): MeshConfig
    decreases |es|
  {
    if es == [] then DEFAULT_MESH_CONFIG
    else MeshKey(MeshKeys(es[..|es| - 1], toFloat), es[|es| - 1], toFloat)
  }

  /** A float setting: the last value given for it, through strtof, or its default. */
  function FloatSetting(es: seq<IniEntry>, name: string, default: real, toFloat: string -> real): real {
    match LastValue(es, "Mesh", name)
    case None => default
    case Some(v) => toFloat(v)
  }

  /**
   * Reference definition of the settings: field by field, the last value
   * the `[Mesh]` section gives for that key, or the default when no line
   * gives one.
   */
  function MeshSettings(es: seq<IniEntry>, toFloat: string -> real): MeshConfig {
    MeshConfig(
      LastValue(es, "Mesh", "path").GetOr(""),
      FloatSetting(es, "x", 0.0, toFloat), FloatSetting(es, "y", 0.0, toFloat), FloatSetting(es, "z", 0.0, toFloat),
      FloatSetting(es, "pitch", 0.0, toFloat), FloatSetting(es, "yaw", 0.0, toFloat), FloatSetting(es, "roll", 0.0, toFloat),
      FloatSetting(es, "scale", 1.0, toFloat), FloatSetting(es, "clipDistance", 0.0, toFloat),
      LastValue(es, "Mesh", "includeSkin") != Some("false"))
  }

  /** Feeding the handler line by line leaves, in each field, the last value given for its key. */
  lemma {:induction false} MeshKeysLastWins(es: seq<IniEntry>, toFloat: string -> real)
    ensures MeshKeys(es, toFloat) == MeshSettings(es, toFloat)
    decreases |es|
  {
    if es != [] {
      var init := es[..|es| - 1];
      MeshKeysLastWins(init, toFloat);
      MeshKeyFields(MeshKeys(init, toFloat), es[|es| - 1], toFloat);
    }
  }

  /** The handler sets a field exactly when the line is its `[Mesh]` key, and leaves it otherwise. */
  lemma MeshKeyFields(cfg: MeshConfig, e: IniEntry, toFloat: string -> real)
    ensures var r := MeshKey(cfg, e, toFloat); var m := e.section == "Mesh";
      r.path == (if m && e.name == "path" then e.value else cfg.path) &&
      r.x == (if m && e.name == "x" then toFloat(e.value) else cfg.x) &&
      r.y == (if m && e.name == "y" then toFloat(e.value) else cfg.y) &&
      r.z == (if m && e.name == "z" then toFloat(e.value) else cfg.z) &&
      r.pitch == (if m && e.name == "pitch" then toFloat(e.value) else cfg.pitch) &&
      r.yaw == (if m && e.name == "yaw" then toFloat(e.value) else cfg.yaw) &&
      r.roll == (if m && e.name == "roll" then toFloat(e.value) else cfg.roll) &&
      r.scale == (if m && e.name == "scale" then toFloat(e.value) else cfg.scale) &&
      r.clipDistance == (if m && e.name == "clipDistance" then toFloat(e.value) else cfg.clipDistance) &&
      r.includeSkinnedMeshes == (if m && e.name == "includeSkin" then e.value != "false" else cfg.includeSkinnedMeshes)
  {
  }

  /** Lines outside `[Mesh]` do not change the settings. */
  lemma {:induction false} MeshKeysOnlySection(es: seq<IniEntry>, toFloat: string -> real)
    ensures MeshKeys(es, toFloat) == MeshKeys(InSection(es, "Mesh"), toFloat)
    decreases |es|
  {
    if es != [] {
      var init := es[..|es| - 1];
      var e := es[|es| - 1];
      MeshKeysOnlySection(init, toFloat);
      if e.section == "Mesh" {
        assert InSection(es, "Mesh")[..|InSection(es, "Mesh")| - 1] == InSection(init, "Mesh");
      } else {
        assert InSection(es, "Mesh") == InSection(init, "Mesh");
      }
    }
  }

  /**
   * The config part of ImportMeshAssetDataFromSource: nothing when the
   * parser reports an error; otherwise the settings with "Assets/" put in
   * front of the path.
   */
  function ImportMeshConfig(es: seq<IniEntry>, parseFailed: bool, toFloat: string -> real): (r: Option<MeshConfig>)
    ensures r.None? <==> parseFailed
    ensures r.Some? ==> r.value == MeshSettings(es, toFloat).(path := "Assets/" + LastValue(es, "Mesh", "path").GetOr(""))
  {
    if parseFailed then None
    else
      var cfg := MeshKeys(es, toFloat);
      MeshKeysLastWins(es, toFloat);
      Some(cfg.(path := "Assets/" + cfg.path))
  }

  // ---------------------------------------------------------------------------
  // Loading
  // ---------------------------------------------------------------------------

  /**
   * SubMesh: one GPU-side piece of a mesh. The device buffers are not part
   * of this model; `loaded` is whether they exist, and `hasIndexBuffer`
   * whether an index buffer was made.
   */
  class SubMesh {
    var loaded: bool
    var gpuVertexCount: nat
    var gpuIndexCount: nat
    var dynamic: bool
    var hasIndexBuffer: bool

    constructor ()
      ensures !loaded && !hasIndexBuffer && gpuVertexCount == 0 && gpuIndexCount == 0 && !dynamic
    {
      loaded, hasIndexBuffer := false, false;
      gpuVertexCount, gpuIndexCount, dynamic := 0, 0, false;
    }

    /**
     * TryLoad from counts: fails, changing nothing, when already loaded;
     * otherwise the index count must be a multiple of three, the counts and
     * usage are recorded and an index buffer is made only for indices.
     */
    method TryLoad(aDynamic: bool, nverts: nat, nidx: nat) returns (ok: bool)
      requires !loaded ==> nidx % 3 == 0
      modifies this
      ensures ok <==> !old(loaded)
      ensures !ok ==> unchanged(this)
      ensures ok ==> loaded && gpuVertexCount == nverts && gpuIndexCount == nidx && dynamic == aDynamic
      ensures ok ==> hasIndexBuffer == (nidx > 0)
    {
      if loaded {
        return false;
      }
      gpuVertexCount, gpuIndexCount, dynamic := nverts, nidx, aDynamic;
      hasIndexBuffer := nidx > 0;
      loaded := true;
      return true;
    }

    /** TryLoad from submesh `idx` of an asset: the same, with that submesh's counts. */
    method TryLoadFromAsset(aDynamic: bool, asset: MeshAssetData, idx: nat) returns (ok: bool)
      requires idx < |asset.submeshes|
      requires !loaded ==> asset.submeshes[idx].indexCount % 3 == 0
      modifies this
      ensures ok <==> !old(loaded)
      ensures !ok ==> unchanged(this)
      ensures ok ==> loaded && dynamic == aDynamic
      ensures ok ==> gpuVertexCount == asset.submeshes[idx].vertexCount && gpuIndexCount == asset.submeshes[idx].indexCount
    {
      if loaded {
        return false;
      }
      var h := asset.submeshes[idx];
      ok := TryLoad(aDynamic, h.vertexCount, h.indexCount);
    }
  }

  /** Mesh: the component a registry keeps per mesh asset: one submesh and a bounding box. */
  class Mesh {
    const id: ObjectID
    const defaultSubmesh: SubMesh
    var boundingBox: AABB

    constructor (aID: ObjectID)
      ensures id == aID && fresh(defaultSubmesh) && !defaultSubmesh.loaded
    {
      id := aID;
      defaultSubmesh := new SubMesh();
      boundingBox := AABB(Pose.ZERO, Pose.ZERO);
    }

    /** TryLoad from an asset: submesh 0 must load; only then is the asset's box taken. */
    method TryLoadFromAsset(aDynamic: bool, asset: MeshAssetData) returns (ok: bool)
      requires |asset.submeshes| > 0
      requires !defaultSubmesh.loaded ==> asset.submeshes[0].indexCount % 3 == 0
      modifies this, defaultSubmesh
      ensures ok <==> !old(defaultSubmesh.loaded)
      ensures !ok ==> unchanged(this) && unchanged(defaultSubmesh)
      ensures ok ==> boundingBox == asset.boundingBox && defaultSubmesh.loaded
      ensures ok ==> defaultSubmesh.gpuVertexCount == asset.submeshes[0].vertexCount
      ensures ok ==> defaultSubmesh.gpuIndexCount == asset.submeshes[0].indexCount
    {
      ok := defaultSubmesh.TryLoadFromAsset(aDynamic, asset, 0);
      if !ok {
        return;
      }
      boundingBox := asset.boundingBox;
    }

    /** TryLoad from counts and a given box, with the same guard. */
    method TryLoad(aDynamic: bool, nverts: nat, nidx: nat, bbox: AABB) returns (ok: bool)
      requires !defaultSubmesh.loaded ==> nidx % 3 == 0
      modifies this, defaultSubmesh
      ensures ok <==> !old(defaultSubmesh.loaded)
      ensures !ok ==> unchanged(this) && unchanged(defaultSubmesh)
      ensures ok ==> boundingBox == bbox && defaultSubmesh.loaded
      ensures ok ==> defaultSubmesh.gpuVertexCount == nverts && defaultSubmesh.gpuIndexCount == nidx
    {
      ok := defaultSubmesh.TryLoad(aDynamic, nverts, nidx);
      if !ok {
        return;
      }
      boundingBox := bbox;
    }
  }

  // ---------------------------------------------------------------------------
  // The registry
  // ---------------------------------------------------------------------------

  /** MeshRegistry: the pool of Mesh components, keyed by asset id. */
  class MeshRegistry {
    var meshes: Pool<Mesh>

    ghost predicate Valid()
      reads this
    {
      meshes.Valid()
    }

    constructor ()
      ensures Valid() && meshes.Count() == 0
    {
      meshes := Empty();
    }

    /**
     * AddMesh: null, with the pool unchanged, unless `id` is valid in the
     * asset database `db` and has no mesh yet; otherwise a fresh unloaded
     * mesh for `id` is appended.
     */
    method AddMesh(db: ObjectMgr.Mgr, id: ObjectID) returns (m: Mesh?)
      requires Valid()
      modifies this
      ensures Valid()
      ensures m == null <==> !db.pool.Contains(id) || old(meshes).Contains(id)
      ensures m == null ==> meshes == old(meshes)
      ensures m != null ==> fresh(m) && m.id == id && !m.defaultSubmesh.loaded
      ensures m != null ==> meshes == old(meshes).TryAppend(id, m as Mesh).1 && meshes.TryGet(id) == Some(m as Mesh)
    {
      var idOkay := db.pool.Contains(id) && !meshes.Contains(id);
      if !idOkay {
        return null;
      }
      m := new Mesh(id);
      meshes := meshes.TryAppend(id, m).1;
    }
  }
}
