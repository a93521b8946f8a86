/**
 * MeshPlotter (Mesh.cpp): procedural meshes built in two growable buffers.
 * Plotting resizes the buffers and walks a write cursor through them; the
 * asset-data export copies them into a one-submesh blob.
 *
 * The capsule's sine/cosine samples are not modelled: a capsule carries a
 * `normalAt` function standing for the unit normal the trigonometry yields
 * for (top cap?, u, v). Everything else (counts, cursor arithmetic, ring
 * layout, uv, colour, index pattern) is.
 */
module MeshPlotting {
  import opened Pose
  import opened MeshData

  /** Bytes of one MeshVertex: 3 + 3 + 2 floats and 4 colour bytes (the vertex layout elements). */
  const VERTEX_BYTES: nat := 36

  /** Bytes of one 32-bit index. */
  const INDEX_BYTES: nat := 4

  /** The vertex a resize fills new slots with: a value-initialised MeshVertex, all zero. */
  const BLANK: MeshVertex := MeshVertex(Vec3(0.0, 0.0, 0.0), Vec3(0.0, 0.0, 0.0), UV(0.0, 0.0), 0)

  /** vector::resize: the first `n` old elements are kept, new slots hold `blank`. */
  function Resized<T>(s: seq<T>, n: nat, blank: T): (r: seq<T>)
    ensures |r| == n
    ensures forall k | 0 <= k < n && k < |s| :: r[k] == s[k]
    ensures forall k | |s| <= k < n :: r[k] == blank
  {
    if n <= |s| then s[..n] else s + seq(n - |s|, _ => blank)
  }

  /**
   * A cursor write that keeps what lies before the cursor, puts `piece` at
   * it and keeps what lies after extends the written run by `piece`.
   */
  lemma SpliceStep<T>(orig: seq<T>, before: seq<T>, after: seq<T>, start: nat, p: nat, done: seq<T>, piece: seq<T>)
    requires start <= p && p + |piece| <= |before| && |before| == |orig| && |after| == |orig|
    requires before[..start] == orig[..start] && before[start..p] == done && before[p..] == orig[p..]
    requires after[..p] == before[..p] && after[p..p + |piece|] == piece && after[p + |piece|..] == before[p + |piece|..]
    ensures after[..start] == orig[..start] && after[start..p + |piece|] == done + piece
    ensures after[p + |piece|..] == orig[p + |piece|..]
  {
    assert after[..start] == after[..p][..start];
    assert before[..start] == before[..p][..start];
    assert after[start..p + |piece|] == after[start..p] + after[p..p + |piece|];
    assert after[start..p] == after[..p][start..];
    assert before[start..p] == before[..p][start..];
    assert before[p + |piece|..] == before[p..][|piece|..];
    assert orig[p + |piece|..] == orig[p..][|piece|..];
  }

  // ---------------------------------------------------------------------------
  // Capsule vertices

  /** glm::max(3u, radiusSampleCount). */
  function ClampSamples(radiusSampleCount: nat): (r: nat)
    ensures r >= 3 && (radiusSampleCount >= 3 ==> r == radiusSampleCount)
  {
    if radiusSampleCount < 3 then 3 else radiusSampleCount
  }

  /** glm::max(1u, capRingCount). */
  function ClampRings(capRingCount: nat): (r: nat)
    ensures r >= 1 && (capRingCount >= 1 ==> r == capRingCount)
  {
    if capRingCount < 1 then 1 else capRingCount
  }

  /**
   * A capsule after clamping: `samples` segments per ring (so samples + 1
   * vertices, the last overlapping the first) and `rings` rings per cap
   * below the apex.
   */
  datatype Capsule = Capsule(halfHeight: real, radius: real, samples: nat, rings: nat,
                             normalAt: (bool, real, real) -> Vec3)
  {
    predicate Clamped() {
      samples >= 3 && rings >= 1
    }

    /** Vertices per ring. */
    function Width(): nat {
      samples + 1
    }
  }

  /**
   * The vertex PlotCapsule writes for ring `i`, sample `j` of the top or
   * bottom cap: u = i / rings, v = j / samples, uv = (v, u / 2), white.
   */
  function CapVertex(top: bool, c: Capsule, i: nat, j: nat): (r: MeshVertex)
    requires c.Clamped()
    ensures r.color == WHITE && r.uv.u == (j as real) * (1.0 / (c.samples as real))
  {
    var u := (i as real) * (1.0 / (c.rings as real));
    var v := (j as real) * (1.0 / (c.samples as real));
    var normal := c.normalAt(top, u, v);
    var center := Vec3(0.0, if top then c.halfHeight else -c.halfHeight, 0.0);
    MeshVertex(Add(center, Scale(c.radius, normal)), normal, UV(v, 0.5 * u), WHITE)
  }

  /** Ring `i` of a cap, samples 0 to `samples` in order. */
  function CapRing(top: bool, c: Capsule, i: nat): (r: seq<MeshVertex>)
    requires c.Clamped()
    ensures |r| == c.Width()
  {
    seq(c.Width(), j requires 0 <= j < c.Width() => CapVertex(top, c, i, j))
  }

  /** Rings 0 to m - 1 of a cap, one after another. */
  function CapRings(top: bool, c: Capsule, m: nat): (r: seq<MeshVertex>)
    requires c.Clamped()
    decreases m
  {
    if m == 0 then [] else CapRings(top, c, m - 1) + CapRing(top, c, m - 1)
  }

  /** A cap of `m` rings takes m * (samples + 1) slots. */
  lemma {:induction false} CapRingsLength(top: bool, c: Capsule, m: nat)
    requires c.Clamped()
    ensures |CapRings(top, c, m)| == m * c.Width()
    decreases m
  {
    if m > 0 {
      CapRingsLength(top, c, m - 1);
      assert m * c.Width() == (m - 1) * c.Width() + c.Width();
    }
  }

  /** Fewer rings take fewer slots. */
  lemma {:induction false} CapRingsMono(top: bool, c: Capsule, i: nat, m: nat)
    requires c.Clamped() && i <= m
    ensures |CapRings(top, c, i)| <= |CapRings(top, c, m)|
    decreases m
  {
    if i < m {
      CapRingsMono(top, c, i, m - 1);
    }
  }

  /** Sample `j` of ring `i` sits at slot i * (samples + 1) + j. */
  lemma {:induction false} CapRingsAt(top: bool, c: Capsule, m: nat, i: nat, j: nat)
    requires c.Clamped() && i < m && j < c.Width()
    ensures i * c.Width() + j < |CapRings(top, c, m)|
    ensures CapRings(top, c, m)[i * c.Width() + j] == CapVertex(top, c, i, j)
    decreases m
  {
    CapRingsLength(top, c, m - 1);
    CapRingsLength(top, c, m);
    if i < m - 1 {
      CapRingsAt(top, c, m - 1, i, j);
    } else {
      assert i * c.Width() + j == |CapRings(top, c, m - 1)| + j;
    }
  }

  /**
   * The vertex buffer PlotCapsule fills when the bottom cap gets
   * `bottomRings` rings: the top cap's rings + 1 rings, the bottom cap's
   * rings, then whatever the resized buffer held in the slots left over.
   */
  function CapsuleVertices(old_: seq<MeshVertex>, c: Capsule, bottomRings: nat): (r: seq<MeshVertex>)
    requires c.Clamped() && bottomRings <= c.rings + 1
    ensures |r| == 2 * ((c.rings + 1) * c.Width())
  {
    var top := CapRings(true, c, c.rings + 1);
    var bottom := CapRings(false, c, bottomRings);
    CapRingsLength(true, c, c.rings + 1);
    CapRingsLength(false, c, c.rings + 1);
    CapRingsMono(false, c, bottomRings, c.rings + 1);
    top + bottom + Resized(old_, |top| + |top|, BLANK)[|top| + |bottom|..]
  }

  // ---------------------------------------------------------------------------
  // Capsule indices

  /** Two triangles joining ring positions cur, cur + 1 to next + 1, next. */
  function Quad(cur: nat, next: nat): seq<nat> {
    [cur, cur + 1, next + 1, cur, next + 1, next]
  }

  /** `m` quads of a strip, the first joining positions cur, cur + 1 to next + 1, next. */
  function StripRow(cur: nat, next: nat, m: nat): (r: seq<nat>)
    ensures |r| == 6 * m
    decreases m
  {
    if m == 0 then [] else Quad(cur, next) + StripRow(cur + 1, next + 1, m - 1)
  }

  /** One more quad extends a strip at its end. */
  lemma {:induction false} StripRowSnoc(cur: nat, next: nat, m: nat)
    ensures StripRow(cur, next, m + 1) == StripRow(cur, next, m) + Quad(cur + m, next + m)
    decreases m
  {
    if m > 0 {
      StripRowSnoc(cur + 1, next + 1, m - 1);
    }
  }

  /**
   * `m` strips of `samples` quads, the first joining the ring starting at
   * `cur` to the one starting at cur + stride, each next one a ring further.
   */
  function Strips(samples: nat, stride: nat, cur: nat, m: nat): (r: seq<nat>)
    decreases m
  {
    if m == 0 then [] else StripRow(cur, cur + stride, samples) + Strips(samples, stride, cur + stride, m - 1)
  }

  /** Entry 6 j + t of a strip is entry t of its quad `j`. */
  lemma {:induction false} StripRowAt(cur: nat, next: nat, m: nat, j: nat, t: nat)
    requires j < m && t < 6
    ensures StripRow(cur, next, m)[6 * j + t] == Quad(cur + j, next + j)[t]
    decreases m
  {
    if j > 0 {
      StripRowAt(cur + 1, next + 1, m - 1, j - 1, t);
    }
  }

  /** No entry of a strip exceeds next + m. */
  lemma {:induction false} StripRowBound(cur: nat, next: nat, m: nat)
    requires cur <= next
    ensures forall k | 0 <= k < |StripRow(cur, next, m)| :: StripRow(cur, next, m)[k] <= next + m
    decreases m
  {
    if m > 0 {
      StripRowBound(cur + 1, next + 1, m - 1);
    }
  }

  /** `m` strips of `samples` quads hold 6 samples m entries. */
  lemma {:induction false} StripsLength(samples: nat, stride: nat, cur: nat, m: nat)
    ensures |Strips(samples, stride, cur, m)| == 6 * samples * m
    decreases m
  {
    if m > 0 {
      StripsLength(samples, stride, cur + stride, m - 1);
      assert 6 * samples * m == 6 * samples + 6 * samples * (m - 1);
    }
  }

  /** A cap of rings + 1 rings takes (samples + 1) (rings + 1) slots, top or bottom. */
  lemma CapSize(c: Capsule)
    requires c.Clamped()
    ensures |CapRings(true, c, c.rings + 1)| == (c.samples + 1) * (c.rings + 1)
    ensures |CapRings(false, c, c.rings + 1)| == (c.samples + 1) * (c.rings + 1)
  {
    CapRingsLength(true, c, c.rings + 1);
    CapRingsLength(false, c, c.rings + 1);
  }

  lemma MulStep(a: nat, i: nat)
    requires i > 0
    ensures a * i == a + a * (i - 1) && i * a == a + (i - 1) * a
    ensures a * (i - 1) >= 0 && (i - 1) * a >= 0
  {
  }

  lemma MulAdd(a: nat, b: nat, w: nat)
    ensures (a + b) * w == a * w + b * w && a * w >= 0 && b * w >= 0
  {
  }

  /** Quad `j` of the first strip sits at entry 6 j. */
  lemma StripsAtFirst(samples: nat, stride: nat, cur: nat, m: nat, j: nat, t: nat)
    requires 0 < m && j < samples && t < 6
    ensures 6 * j + t < |Strips(samples, stride, cur, m)|
    ensures Strips(samples, stride, cur, m)[6 * j + t] == Quad(cur + j, cur + stride + j)[t]
  {
    var row := StripRow(cur, cur + stride, samples);
    var rest := Strips(samples, stride, cur + stride, m - 1);
    assert Strips(samples, stride, cur, m) == row + rest;
    StripRowAt(cur, cur + stride, samples, j, t);
    assert 6 * j + t < |row|;
    assert (row + rest)[6 * j + t] == row[6 * j + t];
  }

  /** Quad `j` of strip `i` sits at entry 6 (samples i + j) and joins rings i and i + 1. */
  lemma {:induction false} StripsAt(samples: nat, stride: nat, cur: nat, m: nat, i: nat, j: nat, t: nat)
    requires i < m && j < samples && t < 6
    ensures 6 * samples * i + 6 * j + t < |Strips(samples, stride, cur, m)|
    ensures Strips(samples, stride, cur, m)[6 * samples * i + 6 * j + t] ==
            Quad(cur + i * stride + j, cur + i * stride + stride + j)[t]
    decreases m
  {
    if i == 0 {
      StripsAtFirst(samples, stride, cur, m, j, t);
    } else {
      var row := StripRow(cur, cur + stride, samples);
      var rest := Strips(samples, stride, cur + stride, m - 1);
      assert Strips(samples, stride, cur, m) == row + rest;
      StripsAt(samples, stride, cur + stride, m - 1, i - 1, j, t);
      MulStep(6 * samples, i);
      MulStep(stride, i);
      var q' := 6 * samples * (i - 1) + 6 * j + t;
      assert 6 * samples * i + 6 * j + t == |row| + q';
      assert (row + rest)[|row| + q'] == rest[q'];
    }
  }

  /** No entry of `m` strips from `cur` exceeds cur + m stride + samples. */
  lemma {:induction false} StripsBound(samples: nat, stride: nat, cur: nat, m: nat)
    ensures forall k | 0 <= k < |Strips(samples, stride, cur, m)| ::
      Strips(samples, stride, cur, m)[k] <= cur + m * stride + samples
    decreases m
  {
    if m > 0 {
      StripsBound(samples, stride, cur + stride, m - 1);
      StripRowBound(cur, cur + stride, samples);
      assert cur + stride + (m - 1) * stride == cur + m * stride;
    }
  }

  // ---------------------------------------------------------------------------
  // What a plotted capsule looks like

  predicate AllWhite(vs: seq<MeshVertex>) {
    forall k | 0 <= k < |vs| :: vs[k].color == WHITE
  }

  predicate AllBelow(s: seq<nat>, n: nat) {
    forall k | 0 <= k < |s| :: s[k] < n
  }

  /** Every vertex of a cap is white. */
  lemma {:induction false} CapRingsWhite(top: bool, c: Capsule, m: nat)
    requires c.Clamped()
    ensures forall k | 0 <= k < |CapRings(top, c, m)| :: CapRings(top, c, m)[k].color == WHITE
    decreases m
  {
    if m > 0 {
      CapRingsWhite(top, c, m - 1);
    }
  }

  /**
   * With rings + 1 bottom rings the two caps fill the whole buffer: nothing
   * of the old contents survives and every vertex is white.
   */
  lemma CapsuleIntendedComplete(old_: seq<MeshVertex>, c: Capsule)
    requires c.Clamped()
    ensures CapsuleVertices(old_, c, c.rings + 1) == CapRings(true, c, c.rings + 1) + CapRings(false, c, c.rings + 1)
    ensures AllWhite(CapsuleVertices(old_, c, c.rings + 1))
  {
    var top := CapRings(true, c, c.rings + 1);
    var bottom := CapRings(false, c, c.rings + 1);
    CapRingsLength(true, c, c.rings + 1);
    CapRingsLength(false, c, c.rings + 1);
    var n := 2 * ((c.rings + 1) * c.Width());
    assert Resized(old_, n, BLANK)[|top| + |bottom|..] == [];
    CapRingsWhite(true, c, c.rings + 1);
    CapRingsWhite(false, c, c.rings + 1);
  }

  /**
   * With only `rings` bottom rings, the last ring's slots (the bottom apex)
   * keep what the resize left there: the old vertex, or a zero vertex that
   * is not even white.
   */
  lemma CapsuleAsWrittenApexUnwritten(old_: seq<MeshVertex>, c: Capsule, k: nat)
    requires c.Clamped()
    requires |CapsuleVertices(old_, c, c.rings)| - c.Width() <= k < |CapsuleVertices(old_, c, c.rings)|
    ensures CapsuleVertices(old_, c, c.rings)[k] == if k < |old_| then old_[k] else BLANK
    ensures BLANK.color != WHITE
  {
    var top := CapRings(true, c, c.rings + 1);
    var bottom := CapRings(false, c, c.rings);
    CapRingsLength(true, c, c.rings + 1);
    CapRingsLength(false, c, c.rings);
    MulStep(c.Width(), c.rings + 1);
    var n := 2 * ((c.rings + 1) * c.Width());
    var r := Resized(old_, n, BLANK);
    assert |top| + |bottom| == n - c.Width();
    assert CapsuleVertices(old_, c, c.rings)[k] == r[k];
  }

  /**
   * Where the vertices of ring `i` (counting the top cap's rings + 1 rings,
   * then the bottom cap's) sit once both caps are full: sample `j` of ring
   * `i` is vertex i (samples + 1) + j.
   */
  lemma CapsuleGrid(old_: seq<MeshVertex>, c: Capsule, i: nat, j: nat)
    requires c.Clamped() && i < 2 * (c.rings + 1) && j < c.Width()
    ensures i * c.Width() + j < |CapsuleVertices(old_, c, c.rings + 1)|
    ensures CapsuleVertices(old_, c, c.rings + 1)[i * c.Width() + j] ==
      if i <= c.rings then CapVertex(true, c, i, j) else CapVertex(false, c, i - (c.rings + 1), j)
  {
    CapsuleIntendedComplete(old_, c);
    var top := CapRings(true, c, c.rings + 1);
    var bottom := CapRings(false, c, c.rings + 1);
    CapRingsLength(true, c, c.rings + 1);
    if i <= c.rings {
      CapRingsAt(true, c, c.rings + 1, i, j);
      assert (top + bottom)[i * c.Width() + j] == top[i * c.Width() + j];
    } else {
      var b := i - (c.rings + 1);
      CapRingsAt(false, c, c.rings + 1, b, j);
      MulAdd(c.rings + 1, b, c.Width());
      assert (top + bottom)[|top| + (b * c.Width() + j)] == bottom[b * c.Width() + j];
    }
  }

  /** Vertex index of sample `j` of ring `i` in a buffer of rings of samples + 1 vertices. */
  function Grid(c: Capsule, i: nat, j: nat): nat {
    i * c.Width() + j
  }

  /**
   * With a stride of samples + 1, quad `j` of strip `i` is the grid cell
   * between rings i and i + 1 and samples j and j + 1: triangles
   * (i, j) (i, j + 1) (i + 1, j + 1) and (i, j) (i + 1, j + 1) (i + 1, j).
   * Every index names a vertex of the buffer.
   */
  lemma StripsJoinGrid(c: Capsule, i: nat, j: nat, t: nat)
    requires c.Clamped() && i < 2 * c.rings + 1 && j < c.samples && t < 6
    ensures 6 * c.samples * i + 6 * j + t < |Strips(c.samples, c.Width(), 0, 2 * c.rings + 1)|
    ensures Strips(c.samples, c.Width(), 0, 2 * c.rings + 1)[6 * c.samples * i + 6 * j + t] ==
      [Grid(c, i, j), Grid(c, i, j + 1), Grid(c, i + 1, j + 1), Grid(c, i, j), Grid(c, i + 1, j + 1), Grid(c, i + 1, j)][t]
  {
    StripsAt(c.samples, c.Width(), 0, 2 * c.rings + 1, i, j, t);
    MulStep(c.Width(), i + 1);
  }

  /** Every index of the corrected strips names one of the 2 (rings + 1) (samples + 1) vertices. */
  lemma StripsIntendedInRange(c: Capsule)
    requires c.Clamped()
    ensures AllBelow(Strips(c.samples, c.Width(), 0, 2 * c.rings + 1), 2 * ((c.rings + 1) * c.Width()))
  {
    StripsBound(c.samples, c.Width(), 0, 2 * c.rings + 1);
    assert (2 * c.rings + 1) * c.Width() + c.samples < 2 * ((c.rings + 1) * c.Width());
  }

  /**
   * The strips as written also stay inside the buffer: with stride samples
   * the largest index is 2 rings samples + samples, still below the
   * 2 (rings + 1) (samples + 1) vertices, so the skew reads wrong vertices
   * but never past the end.
   */
  lemma StripsAsWrittenInRange(c: Capsule)
    requires c.Clamped()
    ensures AllBelow(Strips(c.samples, c.samples, 0, 2 * c.rings + 1), 2 * ((c.rings + 1) * c.Width()))
  {
    StripsBound(c.samples, c.samples, 0, 2 * c.rings + 1);
    assert (2 * c.rings + 1) * c.samples + c.samples < 2 * ((c.rings + 1) * c.Width());
  }

  /**
   * With the stride as written (samples), the first triangle's third
   * corner is vertex samples + 1: sample 0 of ring 1, where the quad needs
   * sample 1 of ring 1, a vertex with a different v coordinate.
   */
  lemma StripsAsWrittenSkewed(c: Capsule)
    requires c.Clamped()
    ensures Strips(c.samples, c.samples, 0, 2 * c.rings + 1)[2] == Grid(c, 1, 0)
    ensures CapsuleVertices([], c, c.rings)[Grid(c, 1, 0)] == CapVertex(true, c, 1, 0)
    ensures CapVertex(true, c, 1, 0).uv.u != CapVertex(true, c, 1, 1).uv.u
  {
    StripsAt(c.samples, c.samples, 0, 2 * c.rings + 1, 0, 0, 2);
    var top := CapRings(true, c, c.rings + 1);
    CapRingsLength(true, c, c.rings + 1);
    CapRingsAt(true, c, c.rings + 1, 1, 0);
    CapRingsLength(false, c, c.rings);
    CapRingsMono(false, c, c.rings, c.rings + 1);
    CapRingsLength(false, c, c.rings + 1);
    assert CapsuleVertices([], c, c.rings)[Grid(c, 1, 0)] == top[Grid(c, 1, 0)];
  }

  // ---------------------------------------------------------------------------
  // The plotter

  class MeshPlotter {
    var vertices: seq<MeshVertex>
    var indices: seq<nat>

    constructor ()
      ensures vertices == [] && indices == []
    {
      vertices := [];
      indices := [];
    }

    /**
     * PlotCapsule as written: (samples + 1) * (rings + 1) top-cap vertices
     * and (samples + 1) * rings bottom-cap vertices, in a buffer sized for
     * two full caps; with `plotIndex`, 2 rings + 1 strips whose rings are
     * taken `samples` apart. Without it the indices are left alone.
     */
    method PlotCapsule(halfHeight: real, radius: real, radiusSampleCount: nat, capRingCount: nat,
                       plotIndex: bool, normalAt: (bool, real, real) -> Vec3)
      modifies this
      ensures var c := Capsule(halfHeight, radius, ClampSamples(radiusSampleCount), ClampRings(capRingCount), normalAt);
        vertices == CapsuleVertices(old(vertices), c, c.rings) &&
        indices == if plotIndex then Strips(c.samples, c.samples, 0, 2 * c.rings + 1) else old(indices)
    {
      var c := Capsule(halfHeight, radius, ClampSamples(radiusSampleCount), ClampRings(capRingCount), normalAt);
      Plot(c, c.rings, c.samples, plotIndex);
    }

    /**
     * PlotCapsule as evidently intended: both caps get all rings + 1 rings
     * (apex included), and strips step over whole rings of samples + 1
     * vertices.
     */
    method PlotCapsuleIntended(halfHeight: real, radius: real, radiusSampleCount: nat, capRingCount: nat,
                               plotIndex: bool, normalAt: (bool, real, real) -> Vec3)
      modifies this
      ensures var c := Capsule(halfHeight, radius, ClampSamples(radiusSampleCount), ClampRings(capRingCount), normalAt);
        vertices == CapsuleVertices(old(vertices), c, c.rings + 1) &&
        indices == if plotIndex then Strips(c.samples, c.Width(), 0, 2 * c.rings + 1) else old(indices)
    {
      var c := Capsule(halfHeight, radius, ClampSamples(radiusSampleCount), ClampRings(capRingCount), normalAt);
      Plot(c, c.rings + 1, c.Width(), plotIndex);
    }

    /** The body PlotCapsule and its corrected form share, for a bottom-ring count and a ring stride. */
    method Plot(c: Capsule, bottomRings: nat, stride: nat, plotIndex: bool)
      requires c.Clamped() && bottomRings <= c.rings + 1
      modifies this
      ensures vertices == CapsuleVertices(old(vertices), c, bottomRings)
      ensures indices == if plotIndex then Strips(c.samples, stride, 0, 2 * c.rings + 1) else old(indices)
    {
      PlotCaps(c, bottomRings);
      if !plotIndex {
        return;
      }
      var trianglesPerStrip := 2 * c.samples;
      var trianglesPerCap := c.rings * trianglesPerStrip;
      var numTriangles := 2 * trianglesPerCap + trianglesPerStrip;
      var numIndices := 3 * numTriangles;
      StripsLength(c.samples, stride, 0, c.rings + 1 + c.rings);
      assert numIndices == 6 * c.samples * (2 * c.rings + 1);
      indices := Resized(indices, numIndices, 0);
      PlotStrips(c.samples, stride, c.rings + 1 + c.rings);
    }

    /** Size the vertex buffer for two caps of rings + 1 rings and write the top cap and `bottomRings` bottom rings. */
    method PlotCaps(c: Capsule, bottomRings: nat)
      requires c.Clamped() && bottomRings <= c.rings + 1
      modifies this
      ensures vertices == CapsuleVertices(old(vertices), c, bottomRings) && indices == old(indices)
    {
      var vertsPerRing := c.samples + 1;
      var vertRingCount := c.rings + 1;
      var vertsPerCap := vertsPerRing * vertRingCount;
      var numVerts := vertsPerCap + vertsPerCap;
      ghost var top := CapRings(true, c, vertRingCount);
      ghost var bottom := CapRings(false, c, bottomRings);
      CapSize(c);
      CapRingsMono(false, c, bottomRings, vertRingCount);
      ghost var target := CapsuleVertices(old(vertices), c, bottomRings);
      vertices := Resized(vertices, numVerts, BLANK);
      ghost var resized := vertices;
      assert target == top + bottom + resized[|top| + |bottom|..];
      assert resized[..0] == vertices[..0];
      PlotRings(true, c, 0, vertRingCount);
      ghost var afterTop := vertices;
      PlotRings(false, c, vertsPerCap, bottomRings);
      SpliceStep(resized, afterTop, vertices, 0, |top|, top, bottom);
      assert vertices == vertices[0..|top| + |bottom|] + vertices[|top| + |bottom|..];
    }

    /** Write `m` rings of a cap through a cursor starting at `start`. */
    method PlotRings(top: bool, c: Capsule, start: nat, m: nat)
      requires c.Clamped() && start + |CapRings(top, c, m)| <= |vertices|
      modifies this
      ensures indices == old(indices) && |vertices| == |old(vertices)|
      ensures vertices[..start] == old(vertices)[..start]
      ensures vertices[start..start + |CapRings(top, c, m)|] == CapRings(top, c, m)
      ensures vertices[start + |CapRings(top, c, m)|..] == old(vertices)[start + |CapRings(top, c, m)|..]
    {
      var p := start;
      var i := 0;
      CapRingsMono(top, c, 0, m);
      while i < m
        invariant 0 <= i <= m && p == start + |CapRings(top, c, i)| <= start + |CapRings(top, c, m)|
        invariant |vertices| == |old(vertices)| && indices == old(indices)
        invariant vertices[..start] == old(vertices)[..start]
        invariant vertices[start..p] == CapRings(top, c, i)
        invariant vertices[p..] == old(vertices)[p..]
      {
        CapRingsMono(top, c, i + 1, m);
        ghost var before := vertices;
        PlotRing(top, c, i, p);
        SpliceStep(old(vertices), before, vertices, start, p, CapRings(top, c, i), CapRing(top, c, i));
        p := p + c.Width();
        i := i + 1;
      }
    }

    /** Write ring `i` of a cap, samples 0 to `samples`, from cursor `start` on. */
    method PlotRing(top: bool, c: Capsule, i: nat, start: nat)
      requires c.Clamped() && start + c.Width() <= |vertices|
      modifies this
      ensures indices == old(indices) && |vertices| == |old(vertices)|
      ensures vertices[..start] == old(vertices)[..start]
      ensures vertices[start..start + c.Width()] == CapRing(top, c, i)
      ensures vertices[start + c.Width()..] == old(vertices)[start + c.Width()..]
    {
      var p := start;
      var j := 0;
      while j < c.Width()
        invariant 0 <= j <= c.Width() && p == start + j
        invariant |vertices| == |old(vertices)| && indices == old(indices)
        invariant vertices[..start] == old(vertices)[..start]
        invariant vertices[start..p] == CapRing(top, c, i)[..j]
        invariant vertices[p..] == old(vertices)[p..]
      {
        ghost var before := vertices;
        vertices := vertices[p := CapVertex(top, c, i, j)];
        assert vertices[..p] == before[..p] && vertices[p..p + 1] == [CapVertex(top, c, i, j)];
        assert vertices[p + 1..] == before[p + 1..];
        SpliceStep(old(vertices), before, vertices, start, p, CapRing(top, c, i)[..j], [CapVertex(top, c, i, j)]);
        assert CapRing(top, c, i)[..j + 1] == CapRing(top, c, i)[..j] + [CapVertex(top, c, i, j)];
        p := p + 1;
        j := j + 1;
      }
    }


    /** Write `m` strips of `samples` quads through a cursor starting at 0. */
    method PlotStrips(samples: nat, stride: nat, m: nat)
      requires |indices| == |Strips(samples, stride, 0, m)|
      modifies this
      ensures vertices == old(vertices)
      ensures indices == Strips(samples, stride, 0, m)
    {
      ghost var target := Strips(samples, stride, 0, m);
      var p: nat := 0;
      var currRingStart: nat := 0;
      var i := 0;
      while i < m
        invariant 0 <= i <= m && vertices == old(vertices)
        invariant p <= |indices| == |target|
        invariant target == indices[..p] + Strips(samples, stride, currRingStart, m - i)
      {
        var nextRingStart: nat := currRingStart + stride;
        ghost var before := indices[..p];
        ghost var row := StripRow(currRingStart, nextRingStart, samples);
        ghost var rest := Strips(samples, stride, nextRingStart, m - i - 1);
        assert Strips(samples, stride, currRingStart, m - i) == row + rest;
        assert target == before + row + rest;
        PlotStrip(p, currRingStart, nextRingStart, samples);
        assert indices[..p + 6 * samples] == before + row;
        p := p + 6 * samples;
        currRingStart := nextRingStart;
        i := i + 1;
      }
      assert indices[..p] == indices;
    }

    /** Write one strip of `samples` quads joining the rings at `cur` and `next`, from cursor `start` on. */
    method PlotStrip(start: nat, cur: nat, next: nat, samples: nat)
      requires start + 6 * samples <= |indices|
      modifies this
      ensures vertices == old(vertices) && |indices| == |old(indices)|
      ensures indices[..start] == old(indices)[..start]
      ensures indices[start..start + 6 * samples] == StripRow(cur, next, samples)
      ensures indices[start + 6 * samples..] == old(indices)[start + 6 * samples..]
    {
      var p := start;
      var j := 0;
      while j < samples
        invariant 0 <= j <= samples && p == start + 6 * j && vertices == old(vertices)
        invariant |indices| == |old(indices)|
        invariant indices[..start] == old(indices)[..start]
        invariant indices[start..p] == StripRow(cur, next, j)
        invariant indices[p..] == old(indices)[p..]
      {
        var quad := Quad(cur + j, next + j);
        StripRowSnoc(cur, next, j);
        ghost var last := indices;
        indices := indices[..p] + quad + indices[p + 6..];
        assert indices[..start] == last[..start];
        assert indices[start..p + 6] == last[start..p] + quad;
        assert indices[p + 6..] == last[p + 6..];
        p := p + 6;
        j := j + 1;
      }
    }

    /**
     * PlotCube: 24 vertices, four per face, each the unit-cube corner times
     * `extent` with the face's uv and normal, white; then the 36-entry index
     * table.
     */
    method PlotCube(extent: real)
      modifies this
      ensures |vertices| == 24
      ensures forall k | 0 <= k < 24 ::
        vertices[k] == MeshVertex(Scale(extent, CUBE[k].pos), CUBE[k].normal, CUBE[k].uv, WHITE)
      ensures indices == CUBE_INDICES
    {
      vertices := Resized(vertices, |CUBE|, BLANK);
      var it := 0;
      while it < 24
        invariant 0 <= it <= 24 && |vertices| == 24
        invariant forall k | 0 <= k < it ::
          vertices[k] == MeshVertex(Scale(extent, CUBE[k].pos), CUBE[k].normal, CUBE[k].uv, WHITE)
      {
        vertices := vertices[it := MeshVertex(Scale(extent, CUBE[it].pos), CUBE[it].normal, CUBE[it].uv, WHITE)];
        it := it + 1;
      }
      indices := Resized(indices, |CUBE_INDICES|, 0);
      indices := CUBE_INDICES;
    }

    /** PlotPlane: a square of half-size `extent` in the z = 0 plane, facing +z, as two triangles. */
    method PlotPlane(extent: real)
      modifies this
      ensures vertices == PlaneVertices(extent) && indices == PLANE_INDICES
    {
      vertices := Resized(vertices, 4, BLANK);
      indices := Resized(indices, 6, 0);
      vertices := PlaneVertices(extent);
      indices := PLANE_INDICES;
    }

    /** SetVertexColor: every vertex takes colour `color`; nothing else changes. */
    method SetVertexColor(color: Color)
      modifies this
      ensures indices == old(indices)
      ensures vertices == MapSpan(old(vertices), Span(0, |old(vertices)|), Painted(color))
    {
      ghost var s := vertices;
      var it := 0;
      while it < |vertices|
        invariant 0 <= it <= |vertices| && |vertices| == |s| && indices == old(indices)
        invariant vertices == MapSpan(s, Span(0, it), Painted(color))
      {
        vertices := vertices[it := vertices[it].(color := color)];
        it := it + 1;
      }
    }

    /**
     * CreateAssetData: a one-submesh blob holding both buffers, with the
     * box of all vertices, laid out in bytes by WriteMeshBlob (the header
     * sizes are parameters).
     */
    method CreateAssetData(assetHeaderBytes: nat, submeshHeaderBytes: nat) returns (result: MeshAssetData, layout: BlobLayout)
      requires |vertices| > 0
      ensures layout.size == MeshBlobSize(assetHeaderBytes, submeshHeaderBytes, |vertices|, |indices|)
      ensures layout.written == layout.size
      ensures layout.vertexOffset == assetHeaderBytes + submeshHeaderBytes
      ensures layout.indexOffset == layout.vertexOffset + VERTEX_BYTES * |vertices|
      ensures fresh(result) && fresh(result.vertexData) && fresh(result.indexData)
      ensures result.submeshes == [SubmeshHeader(|indices|, |vertices|, 0, 0)]
      ensures result.vertexData[..] == vertices && result.indexData[..] == indices
      ensures result.boundingBox == Bounds(vertices)
      ensures result.Valid()
    {
      var vs := new MeshVertex[|vertices|](k requires 0 <= k < |vertices| reads this => vertices[k]);
      var ixs := new nat[|indices|](k requires 0 <= k < |indices| reads this => indices[k]);
      var box := ComputeMeshAABB(vs, |vertices|);
      assert vs[..|vertices|] == vertices;
      result := new MeshAssetData([SubmeshHeader(|indices|, |vertices|, 0, 0)], vs, ixs, box);
      layout := WriteMeshBlob(assetHeaderBytes, submeshHeaderBytes, |vertices|, |indices|);
    }
  }

  /** Byte positions of a one-submesh mesh blob, and where its writer stopped. */
  datatype BlobLayout = BlobLayout(size: nat, vertexOffset: nat, indexOffset: nat, written: nat)

  /** The size CreateAssetData allocates: asset header, one submesh header, the vertices, the indices. */
  function MeshBlobSize(assetHeaderBytes: nat, submeshHeaderBytes: nat, vertexCount: nat, indexCount: nat): nat {
    assetHeaderBytes + submeshHeaderBytes + VERTEX_BYTES * vertexCount + INDEX_BYTES * indexCount
  }

  /**
   * CreateAssetData's blob: the size is computed up front, then the writer's
   * cursor starts just past the asset header, skips the submesh header,
   * records the vertex offset, writes the vertices, records the index
   * offset and writes the indices. The two computations agree: the offsets
   * fall inside the blob and the writer stops exactly at its end.
   */
  method WriteMeshBlob(assetHeaderBytes: nat, submeshHeaderBytes: nat, vertexCount: nat, indexCount: nat)
    returns (r: BlobLayout)
    ensures r.size == MeshBlobSize(assetHeaderBytes, submeshHeaderBytes, vertexCount, indexCount)
    ensures r.written == r.size
    ensures r.vertexOffset == assetHeaderBytes + submeshHeaderBytes
    ensures r.indexOffset == r.vertexOffset + VERTEX_BYTES * vertexCount
    ensures r.indexOffset + INDEX_BYTES * indexCount == r.size
  {
    var sz := MeshBlobSize(assetHeaderBytes, submeshHeaderBytes, vertexCount, indexCount);
    var offset := assetHeaderBytes;
    offset := offset + submeshHeaderBytes;
    var vertexOffset := offset;
    offset := offset + VERTEX_BYTES * vertexCount;
    var indexOffset := offset;
    offset := offset + INDEX_BYTES * indexCount;
    r := BlobLayout(sz, vertexOffset, indexOffset, offset);
  }

  // ---------------------------------------------------------------------------
  // Cube and plane tables

  datatype CubeVertex = CubeVertex(pos: Vec3, uv: UV, normal: Vec3)

  function CV(px: real, py: real, pz: real, u: real, v: real, nx: real, ny: real, nz: real): CubeVertex {
    CubeVertex(Vec3(px, py, pz), UV(u, v), Vec3(nx, ny, nz))
  }

  /** The unit cube's 24 face corners: four per face, with the face's uv and outward normal. */
  const CUBE: seq<CubeVertex> := [
    CV(-1.0, -1.0, -1.0, 0.0, 1.0, 0.0, 0.0, -1.0), CV(-1.0, 1.0, -1.0, 0.0, 0.0, 0.0, 0.0, -1.0),
    CV(1.0, 1.0, -1.0, 1.0, 0.0, 0.0, 0.0, -1.0), CV(1.0, -1.0, -1.0, 1.0, 1.0, 0.0, 0.0, -1.0),

    CV(-1.0, -1.0, -1.0, 0.0, 1.0, 0.0, -1.0, 0.0), CV(-1.0, -1.0, 1.0, 0.0, 0.0, 0.0, -1.0, 0.0),
    CV(1.0, -1.0, 1.0, 1.0, 0.0, 0.0, -1.0, 0.0), CV(1.0, -1.0, -1.0, 1.0, 1.0, 0.0, -1.0, 0.0),

    CV(1.0, -1.0, -1.0, 0.0, 1.0, 1.0, 0.0, 0.0), CV(1.0, -1.0, 1.0, 1.0, 1.0, 1.0, 0.0, 0.0),
    CV(1.0, 1.0, 1.0, 1.0, 0.0, 1.0, 0.0, 0.0), CV(1.0, 1.0, -1.0, 0.0, 0.0, 1.0, 0.0, 0.0),

    CV(1.0, 1.0, -1.0, 0.0, 1.0, 0.0, 1.0, 0.0), CV(1.0, 1.0, 1.0, 0.0, 0.0, 0.0, 1.0, 0.0),
    CV(-1.0, 1.0, 1.0, 1.0, 0.0, 0.0, 1.0, 0.0), CV(-1.0, 1.0, -1.0, 1.0, 1.0, 0.0, 1.0, 0.0),

    CV(-1.0, 1.0, -1.0, 1.0, 0.0, -1.0, 0.0, 0.0), CV(-1.0, 1.0, 1.0, 0.0, 0.0, -1.0, 0.0, 0.0),
    CV(-1.0, -1.0, 1.0, 0.0, 1.0, -1.0, 0.0, 0.0), CV(-1.0, -1.0, -1.0, 1.0, 1.0, -1.0, 0.0, 0.0),

    CV(-1.0, -1.0, 1.0, 1.0, 1.0, 0.0, 0.0, 1.0), CV(1.0, -1.0, 1.0, 0.0, 1.0, 0.0, 0.0, 1.0),
    CV(1.0, 1.0, 1.0, 0.0, 0.0, 0.0, 0.0, 1.0), CV(-1.0, 1.0, 1.0, 1.0, 0.0, 0.0, 0.0, 1.0)
  ]

  /** Two triangles per face. */
  const CUBE_INDICES: seq<nat> := [
    2, 0, 1, 2, 3, 0,
    4, 6, 5, 4, 7, 6,
    8, 10, 9, 8, 11, 10,
    12, 14, 13, 12, 15, 14,
    16, 18, 17, 16, 19, 18,
    20, 21, 22, 20, 22, 23
  ]

  function PlaneVertices(extent: real): seq<MeshVertex> {
    [ MeshVertex(Vec3(-extent, -extent, 0.0), Vec3(0.0, 0.0, 1.0), UV(0.0, 0.0), WHITE),
      MeshVertex(Vec3(extent, -extent, 0.0), Vec3(0.0, 0.0, 1.0), UV(1.0, 0.0), WHITE),
      MeshVertex(Vec3(extent, extent, 0.0), Vec3(0.0, 0.0, 1.0), UV(1.0, 1.0), WHITE),
      MeshVertex(Vec3(-extent, extent, 0.0), Vec3(0.0, 0.0, 1.0), UV(0.0, 1.0), WHITE) ]
  }

  const PLANE_INDICES: seq<nat> := [0, 1, 2, 3, 0, 2]

  function Dot3(a: Vec3, b: Vec3): real {
    a.x * b.x + a.y * b.y + a.z * b.z
  }

  /**
   * The cube tables agree: both triangles of face f use only that face's
   * four corners, and every corner lies on the plane of its face's normal
   * (position . normal == 1, so == extent once scaled).
   */
  lemma CubeTablesAgree()
    ensures |CUBE| == 24 && |CUBE_INDICES| == 36
    ensures forall k | 0 <= k < 36 :: 4 * (k / 6) <= CUBE_INDICES[k] < 4 * (k / 6) + 4
    ensures forall k | 0 <= k < 24 :: CUBE[k].normal == CUBE[4 * (k / 4)].normal
    ensures forall k | 0 <= k < 24 :: Dot3(CUBE[k].pos, CUBE[k].normal) == 1.0
  {
  }

  /** The cube's vertices lie on their faces at distance `extent` from the centre. */
  lemma CubeOnFaces(extent: real, k: nat)
    requires k < 24
    ensures Dot3(Scale(extent, CUBE[k].pos), CUBE[k].normal) == extent
  {
    CubeTablesAgree();
    var p := CUBE[k].pos;
    var n := CUBE[k].normal;
    assert Dot3(Scale(extent, p), n) == extent * Dot3(p, n);
  }

  /** The plane's two triangles index its four corners and share the diagonal 0-2. */
  lemma PlaneTablesAgree(extent: real)
    ensures |PlaneVertices(extent)| == 4
    ensures forall t | 0 <= t < 6 :: PLANE_INDICES[t] < 4
    ensures PLANE_INDICES[0] == PLANE_INDICES[4] && PLANE_INDICES[2] == PLANE_INDICES[5]
    ensures forall k | 0 <= k < 4 :: PlaneVertices(extent)[k].position.z == 0.0
  {
  }
}
