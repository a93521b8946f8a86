/**
 * Materials: the `[Material]`/`[Textures]` import config, the blob it is
 * packed into, MaterialPass's load and bind guards, and the registry's
 * load-with-rollback. Pipeline, shader and sampler creation are not part of
 * this model, nor is the string encoding: `sbc` is the byte count the asset
 * writer spends on a string (StrByteCount), and `find` is the texture
 * registry's lookup by path.
 */
module Materials {
  import opened Handles
  import opened Wrappers
  import opened ObjectPool
  import opened Ini
  import ObjectMgr

  /** One `[Textures]` line: a shader variable and the texture path bound to it. */
  datatype TextureVar = TextureVar(variableName: string, texturePath: string)

  datatype MaterialConfig = MaterialConfig(
    hasMaterialSection: bool,
    vertexShaderPath: string,
    pixelShaderPath: string,
    textureVariables: seq<TextureVar>)

  const EMPTY_MATERIAL_CONFIG: MaterialConfig := MaterialConfig(false, "", "", [])

  // ---------------------------------------------------------------------------
  // The INI handler
  // ---------------------------------------------------------------------------

  /**
   * The key handler: any `[Material]` line marks the section seen, and `vsh`
   * and `psh` set the shader paths; every `[Textures]` line appends a
   * variable; lines of other sections are ignored.
   */
  function MaterialKey(cfg: MaterialConfig, e: IniEntry): MaterialConfig {
    if e.section == "Material" then
      var seen := cfg.(hasMaterialSection := true);
      if e.name == "vsh" then seen.(vertexShaderPath := e.value)
      else if e.name == "psh" then seen.(pixelShaderPath := e.value)
      else seen
    else if e.section == "Textures" then
      cfg.(textureVariables := cfg.textureVariables + [TextureVar(e.name, e.value)])
    else cfg
  }

  /** The config after the parser has fed the handler every line, in file order. */
  function MaterialKeys(es: seq<IniEntry>): MaterialConfig
    decreases |es|
  {
    if es == [] then EMPTY_MATERIAL_CONFIG
    else MaterialKey(MaterialKeys(es[..|es| - 1]), es[|es| - 1])
  }

  /** The `[Textures]` lines as variables, in file order. */
  function TextureLines(es: seq<IniEntry>): (r: seq<TextureVar>)
    ensures |r| == |es|
  {
    seq(|es|, k requires 0 <= k < |es| => TextureVar(es[k].name, es[k].value))
  }

  /**
   * What the handler builds, stated per field: the section counts as seen
   * iff some line sits in it, each shader path is the last value given for
   * it, and the variables are the `[Textures]` lines in file order.
   */
  lemma {:induction false} MaterialKeysSpec(es: seq<IniEntry>)
    ensures MaterialKeys(es).hasMaterialSection <==> exists k | 0 <= k < |es| :: es[k].section == "Material"
    ensures MaterialKeys(es).vertexShaderPath == LastValue(es, "Material", "vsh").GetOr("")
    ensures MaterialKeys(es).pixelShaderPath == LastValue(es, "Material", "psh").GetOr("")
    ensures MaterialKeys(es).textureVariables == TextureLines(InSection(es, "Textures"))
    decreases |es|
  {
    if es != [] {
      var init := es[..|es| - 1];
      var e := es[|es| - 1];
      MaterialKeysSpec(init);
      assert forall k | 0 <= k < |init| :: init[k] == es[k];
      if e.section == "Textures" {
        assert TextureLines(InSection(es, "Textures")) == TextureLines(InSection(init, "Textures")) + [TextureVar(e.name, e.value)];
      }
    }
  }

  /**
   * The config part of ImportMaterialAssetDataFromSource: nothing when the
   * parser reports an error or no `[Material]` line was seen.
   */
  function ImportMaterialConfig(es: seq<IniEntry>, parseFailed: bool): (r: Option<MaterialConfig>)
    ensures r.None? <==> parseFailed || forall k | 0 <= k < |es| :: es[k].section != "Material"
    ensures r.Some? ==> r.value.hasMaterialSection && r.value.textureVariables == TextureLines(InSection(es, "Textures"))
  {
    if parseFailed then None
    else
      var config := MaterialKeys(es);
      MaterialKeysSpec(es);
      if !config.hasMaterialSection then None else Some(config)
  }

  // ---------------------------------------------------------------------------
  // The blob
  // ---------------------------------------------------------------------------

  /** Bytes per entry of the texture count part of the size (sizeof(uint32)). */
  const UINT32_BYTES: nat := 4

  /**
   * A material blob: its allocated size, the three offsets the header
   * records, the texture count, the strings in the order they were written,
   * and the offset the writer reached.
   */
  datatype MaterialBlob = MaterialBlob(
    size: nat,
    vertexShaderNameOffset: nat,
    pixelShaderNameOffset: nat,
    textureVariablesOffset: nat,
    textureCount: nat,
    strings: seq<string>,
    written: nat)

  /** The bytes of the variable names and paths, pair by pair. */
  function PairBytes(tv: seq<TextureVar>, sbc: string -> nat): nat
    decreases |tv|
  {
    if tv == [] then 0
    else PairBytes(tv[..|tv| - 1], sbc) + sbc(tv[|tv| - 1].variableName) + sbc(tv[|tv| - 1].texturePath)
  }

  /** The strings of the variables, name then path, pair by pair. */
  function PairStrings(tv: seq<TextureVar>): (r: seq<string>)
    ensures |r| == 2 * |tv|
    decreases |tv|
  {
    if tv == [] then []
    else PairStrings(tv[..|tv| - 1]) + [tv[|tv| - 1].variableName, tv[|tv| - 1].texturePath]
  }

  /** The size the import allocates: header, one uint32 per texture, and every string. */
  function BlobSize(cfg: MaterialConfig, headerBytes: nat, sbc: string -> nat): nat {
    headerBytes + UINT32_BYTES * |cfg.textureVariables| + sbc(cfg.vertexShaderPath) + sbc(cfg.pixelShaderPath) +
    PairBytes(cfg.textureVariables, sbc)
  }

  /** The byte count of every string in `ss`. */
  function StringBytes(ss: seq<string>, sbc: string -> nat): nat
    decreases |ss|
  {
    if ss == [] then 0 else StringBytes(ss[..|ss| - 1], sbc) + sbc(ss[|ss| - 1])
  }

  lemma {:induction false} StringBytesAppend(a: seq<string>, b: seq<string>, sbc: string -> nat)
    ensures StringBytes(a + b, sbc) == StringBytes(a, sbc) + StringBytes(b, sbc)
    decreases |b|
  {
    if b != [] {
      StringBytesAppend(a, b[..|b| - 1], sbc);
      assert (a + b)[..|a + b| - 1] == a + b[..|b| - 1];
    } else {
      assert a + b == a;
    }
  }

  /** Two strings take the bytes of each. */
  lemma StringBytesPair(x: string, y: string, sbc: string -> nat)
    ensures StringBytes([x, y], sbc) == sbc(x) + sbc(y)
  {
    assert [x, y][..1] == [x];
    assert [x][..0] == [];
    assert StringBytes([x], sbc) == sbc(x);
    assert StringBytes([x, y], sbc) == StringBytes([x], sbc) + sbc(y);
  }

  /** The pair strings take exactly the pair bytes. */
  lemma {:induction false} PairStringsBytes(tv: seq<TextureVar>, sbc: string -> nat)
    ensures StringBytes(PairStrings(tv), sbc) == PairBytes(tv, sbc)
    decreases |tv|
  {
    if tv != [] {
      var last := tv[|tv| - 1];
      PairStringsBytes(tv[..|tv| - 1], sbc);
      StringBytesAppend(PairStrings(tv[..|tv| - 1]), [last.variableName, last.texturePath], sbc);
      StringBytesPair(last.variableName, last.texturePath, sbc);
    }
  }

  /**
   * Reading the strings back two at a time, as MaterialPass::TryLoad's
   * reader does: pair `i` is strings 2i and 2i + 1.
   */
  function ReadPairs(ss: seq<string>, count: nat): (r: seq<TextureVar>)
    requires 2 * count <= |ss|
    ensures |r| == count
  {
    seq(count, i requires 0 <= i < count => TextureVar(ss[2 * i], ss[2 * i + 1]))
  }

  /** The reader gets back every variable the writer wrote, in order. */
  lemma {:induction false} ReadPairsWritten(tv: seq<TextureVar>)
    ensures ReadPairs(PairStrings(tv), |tv|) == tv
    decreases |tv|
  {
    if tv != [] {
      var init := tv[..|tv| - 1];
      ReadPairsWritten(init);
      var r := ReadPairs(PairStrings(tv), |tv|);
      forall i | 0 <= i < |tv| ensures r[i] == tv[i] {
        if i < |init| {
          assert ReadPairs(PairStrings(init), |init|)[i] == init[i];
        }
      }
    }
  }

  /**
   * The size loop: header, texture words and both shader paths, then each
   * pair's name and path.
   */
  method ComputeBlobSize(cfg: MaterialConfig, headerBytes: nat, sbc: string -> nat) returns (sz: nat)
    ensures sz == BlobSize(cfg, headerBytes, sbc)
  {
    var tv := cfg.textureVariables;
    sz := headerBytes + |tv| * UINT32_BYTES + sbc(cfg.vertexShaderPath) + sbc(cfg.pixelShaderPath);
    var it := 0;
    while it < |tv|
      invariant 0 <= it <= |tv|
      invariant sz == headerBytes + UINT32_BYTES * |tv| + sbc(cfg.vertexShaderPath) + sbc(cfg.pixelShaderPath) + PairBytes(tv[..it], sbc)
    {
      assert tv[..it + 1][..it] == tv[..it];
      sz := sz + sbc(tv[it].variableName) + sbc(tv[it].texturePath);
      it := it + 1;
    }
    assert tv[..it] == tv;
  }

  /**
   * The blob part of ImportMaterialAssetDataFromSource: the size, then the
   * writer from just past the header: vertex shader path, pixel shader
   * path, then each pair's name and path, with the header recording where
   * each part begins and how many pairs there are.
   */
  method WriteMaterialBlob(cfg: MaterialConfig, headerBytes: nat, sbc: string -> nat) returns (b: MaterialBlob)
    ensures b.size == BlobSize(cfg, headerBytes, sbc)
    ensures b.vertexShaderNameOffset == headerBytes
    ensures b.pixelShaderNameOffset == b.vertexShaderNameOffset + sbc(cfg.vertexShaderPath)
    ensures b.textureVariablesOffset == b.pixelShaderNameOffset + sbc(cfg.pixelShaderPath)
    ensures b.textureCount == |cfg.textureVariables|
    ensures b.strings == [cfg.vertexShaderPath, cfg.pixelShaderPath] + PairStrings(cfg.textureVariables)
    ensures b.written == headerBytes + StringBytes(b.strings, sbc)
    ensures b.written + UINT32_BYTES * b.textureCount == b.size
  {
    var sz := ComputeBlobSize(cfg, headerBytes, sbc);
    var tv := cfg.textureVariables;
    var offset := headerBytes;
    var strings: seq<string> := [];

    var vshOffset := offset;
    strings, offset := strings + [cfg.vertexShaderPath], offset + sbc(cfg.vertexShaderPath);
    var pshOffset := offset;
    strings, offset := strings + [cfg.pixelShaderPath], offset + sbc(cfg.pixelShaderPath);
    var tvOffset := offset;

    var it := 0;
    while it < |tv|
      invariant 0 <= it <= |tv|
      invariant strings == [cfg.vertexShaderPath, cfg.pixelShaderPath] + PairStrings(tv[..it])
      invariant offset == tvOffset + PairBytes(tv[..it], sbc)
    {
      assert tv[..it + 1][..it] == tv[..it];
      strings := strings + [tv[it].variableName, tv[it].texturePath];
      offset := offset + sbc(tv[it].variableName) + sbc(tv[it].texturePath);
      it := it + 1;
    }
    assert tv[..it] == tv;
    PairStringsBytes(tv, sbc);
    StringBytesAppend([cfg.vertexShaderPath, cfg.pixelShaderPath], PairStrings(tv), sbc);
    StringBytesPair(cfg.vertexShaderPath, cfg.pixelShaderPath, sbc);
    b := MaterialBlob(sz, vshOffset, pshOffset, tvOffset, |tv|, strings, offset);
  }

  /** A blob as WriteMaterialBlob leaves it: two shader paths, then the name and path of each pair. */
  predicate WellFormed(b: MaterialBlob) {
    |b.strings| == 2 + 2 * b.textureCount
  }

  /** The variables a blob holds, read back pair by pair. */
  function BlobTextures(b: MaterialBlob): (r: seq<TextureVar>)
    requires WellFormed(b)
    ensures |r| == b.textureCount
  {
    ReadPairs(b.strings[2..], b.textureCount)
  }

  /** Writing a config and reading the blob back gives the config's variables. */
  lemma BlobRoundTrip(cfg: MaterialConfig, b: MaterialBlob)
    requires b.strings == [cfg.vertexShaderPath, cfg.pixelShaderPath] + PairStrings(cfg.textureVariables)
    requires b.textureCount == |cfg.textureVariables|
    ensures WellFormed(b) && BlobTextures(b) == cfg.textureVariables
  {
    assert b.strings[2..] == PairStrings(cfg.textureVariables);
    ReadPairsWritten(cfg.textureVariables);
  }

  // ---------------------------------------------------------------------------
  // Passes, materials and the registry
  // ---------------------------------------------------------------------------

  /** A texture the texture registry found: its asset id. */
  datatype TextureRef = TextureRef(id: ObjectID)

  /** A shader variable and the texture bound to it. */
  datatype Binding = Binding(variableName: string, texture: TextureRef)

  /** The bindings a blob yields when every path is found. */
  function Bindings(tv: seq<TextureVar>, find: string -> Option<TextureRef>): (r: seq<Binding>)
    requires forall i | 0 <= i < |tv| :: find(tv[i].texturePath).Some?
    ensures |r| == |tv|
  {
    seq(|tv|, i requires 0 <= i < |tv| && find(tv[i].texturePath).Some? => Binding(tv[i].variableName, find(tv[i].texturePath).value))
  }

  /**
   * The bindings actually Set on the resource binding: those whose variable
   * the pipeline exposes (GetVariableByName finds it), in order.
   */
  function ExposedBindings(bs: seq<Binding>, exposed: string -> bool): (r: seq<Binding>)
    ensures |r| <= |bs|
    ensures forall x :: x in r <==> x in bs && exposed(x.variableName)
  {
    if bs == [] then []
    else
      var init := ExposedBindings(bs[..|bs| - 1], exposed);
      assert bs == bs[..|bs| - 1] + [bs[|bs| - 1]];
      init + (if exposed(bs[|bs| - 1].variableName) then [bs[|bs| - 1]] else [])
  }

  /**
   * The loop that Sets each texture on the resource binding: a variable
   * the pipeline does not expose is skipped.
   */
  method SetExposed(tv: seq<Binding>, exposed: string -> bool) returns (bound: seq<Binding>)
    ensures bound == ExposedBindings(tv, exposed)
  {
    bound := [];
    var k := 0;
    while k < |tv|
      invariant 0 <= k <= |tv|
      invariant bound == ExposedBindings(tv[..k], exposed)
    {
      assert tv[..k + 1][..k] == tv[..k];
      if exposed(tv[k].variableName) {
        bound := bound + [tv[k]];
      }
      k := k + 1;
    }
    assert tv[..k] == tv;
  }

  /**
   * MaterialPass: one render pass of a material. The pipeline state and
   * resource binding are not part of this model; `loaded` is whether they
   * exist and `bindings` what the shader variables were set to.
   */
  class MaterialPass {
    var loaded: bool
    var bindings: seq<Binding>

    constructor ()
      ensures !loaded && bindings == []
    {
      loaded, bindings := false, [];
    }

    /**
     * TryLoad: true at once when already loaded. Otherwise the blob must
     * hold fewer than 16 textures; false, with nothing changed, when some
     * path is not found or when the vertex shader, the pixel shader or the
     * pipeline state cannot be created (`vsOk`, `psOk` and `psoOk` are the
     * device's outcomes); else every variable the pipeline exposes is bound
     * to its texture.
     */
    method TryLoad(b: MaterialBlob, find: string -> Option<TextureRef>, vsOk: bool, psOk: bool, psoOk: bool,
                   exposed: string -> bool) returns (ok: bool)
      requires WellFormed(b)
      requires !loaded ==> b.textureCount < 16
      modifies this
      ensures ok <==> (old(loaded) ||
                       ((forall i | 0 <= i < b.textureCount :: find(BlobTextures(b)[i].texturePath).Some?) && vsOk && psOk && psoOk))
      ensures old(loaded) || !ok ==> unchanged(this)
      ensures !old(loaded) && ok ==> loaded && bindings == ExposedBindings(Bindings(BlobTextures(b), find), exposed)
    {
      if loaded {
        return true;
      }
      var tvs := BlobTextures(b);
      var tv: seq<Binding> := [];
      var it := 0;
      while it < b.textureCount
        invariant 0 <= it <= b.textureCount
        invariant forall i | 0 <= i < it :: find(tvs[i].texturePath).Some?
        invariant tv == Bindings(tvs[..it], find)
      {
        var name := b.strings[2 + 2 * it];
        var path := b.strings[2 + 2 * it + 1];
        assert name == tvs[it].variableName && path == tvs[it].texturePath;
        var texture := find(path);
        if texture.None? {
          return false;
        }
        tv := tv + [Binding(name, texture.value)];
        it := it + 1;
      }
      assert tvs[..it] == tvs;
      if !vsOk || !psOk || !psoOk {
        return false;
      }
      bindings := SetExposed(tv, exposed);
      loaded := true;
      return true;
    }

    /** Bind: false when not loaded; otherwise the pipeline is set (not modelled) and true is returned. */
    method Bind() returns (ok: bool)
      ensures ok == loaded
    {
      if !loaded {
        return false;
      }
      return true;
    }
  }

  /** Material: the component a registry keeps per material asset. */
  class Material {
    const id: ObjectID

    constructor (aID: ObjectID)
      ensures id == aID
    {
      id := aID;
    }
  }

  /** MaterialRegistry: the pool of Material components, keyed by asset id. */
  class MaterialRegistry {
    var materials: Pool<Material>

    ghost predicate Valid()
      reads this
    {
      materials.Valid()
    }

    constructor ()
      ensures Valid() && materials.Count() == 0
    {
      materials := Empty();
    }

    /**
     * LoadMaterial: null, with the pool unchanged, unless `id` is valid in
     * the asset database `db` and has no material yet. A new material is
     * made; when its load fails (`loads` is Material::TryLoad's outcome) it
     * is freed and null returned with the pool unchanged; otherwise it is
     * appended.
     */
    method LoadMaterial(db: ObjectMgr.Mgr, id: ObjectID, loads: bool) returns (m: Material?)
      requires Valid()
      modifies this
      ensures Valid()
      ensures m == null <==> !db.pool.Contains(id) || old(materials).Contains(id) || !loads
      ensures m == null ==> materials == old(materials)
      ensures m != null ==> fresh(m) && m.id == id
      ensures m != null ==> materials == old(materials).TryAppend(id, m as Material).1
    {
      var idOkay := db.pool.Contains(id) && !materials.Contains(id);
      if !idOkay {
        return null;
      }
      var result := new Material(id);
      if !loads {
        return null;
      }
      var bAdded := materials.TryAppend(id, result);
      assert bAdded.0;
      materials := bAdded.1;
      return result;
    }
  }
}
