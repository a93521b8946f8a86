/**
 * MeshAssetData (Mesh.cpp): an imported mesh blob. One header per submesh
 * locates that submesh's run of vertices and run of indices; the in-place
 * edits ReverseWindingOrder, FlipNormals and SetColor walk those runs.
 *
 * The blob's vertex area and index area are modelled as two typed arrays,
 * and a header's offsets count elements of those arrays.
 */
module MeshData {
  import opened Pose
  import opened Wrappers

  /** A vertex colour packed into 32 bits (RGBA8). */
  type Color = bv32

  const WHITE: Color := 0xffff_ffff

  datatype UV = UV(u: real, v: real)

  /** MeshVertex: position, normal, texture coordinate and packed colour. */
  datatype MeshVertex = MeshVertex(position: Vec3, normal: Vec3, uv: UV, color: Color)

  /** A run of `count` consecutive elements starting at `offset`. */
  datatype Span = Span(offset: nat, count: nat) {
    predicate Has(k: int) {
      offset <= k < offset + count
    }

    predicate Within(n: nat) {
      offset + count <= n
    }
  }

  /** Two runs share no element. */
  predicate Apart(a: Span, b: Span) {
    a.offset + a.count <= b.offset || b.offset + b.count <= a.offset
  }

  ghost predicate PairwiseApart(spans: seq<Span>) {
    forall a, b | 0 <= a < b < |spans| :: Apart(spans[a], spans[b])
  }

  /** SubmeshHeader: the counts and the first element of each run. */
  datatype SubmeshHeader = SubmeshHeader(indexCount: nat, vertexCount: nat, vertexOffset: nat, indexOffset: nat) {
    function Vertices(): Span {
      Span(vertexOffset, vertexCount)
    }

    function Indices(): Span {
      Span(indexOffset, indexCount)
    }
  }

  /** Which run of each submesh an edit walks. */
  datatype Selector =
    | AllVertices        // every submesh's vertices (FlipNormals, SetColor)
    | UnindexedVertices  // the vertices of submeshes without indices (ReverseWindingOrder)
    | NonEmptyIndices    // the indices of submeshes that have some (ReverseWindingOrder)

  function Select(h: SubmeshHeader, sel: Selector): Option<Span> {
    match sel
    case AllVertices => Some(h.Vertices())
    case UnindexedVertices => if h.indexCount == 0 then Some(h.Vertices()) else None
    case NonEmptyIndices => if h.indexCount > 0 then Some(h.Indices()) else None
  }

  /** The runs an edit walks, in submesh order. */
  function SpansOf(subs: seq<SubmeshHeader>, sel: Selector): (r: seq<Span>)
    ensures |r| <= |subs|
    decreases |subs|
  {
    if |subs| == 0 then []
    else
      var rest := SpansOf(subs[..|subs| - 1], sel);
      match Select(subs[|subs| - 1], sel)
      case Some(sp) => rest + [sp]
      case None => rest
  }

  /** Every run an edit walks is the run `sel` picks from some submesh. */
  lemma {:induction false} SpansOfPicked(subs: seq<SubmeshHeader>, sel: Selector, i: nat)
    requires i < |SpansOf(subs, sel)|
    ensures exists k | 0 <= k < |subs| :: Select(subs[k], sel) == Some(SpansOf(subs, sel)[i])
    decreases |subs|
  {
    var init := subs[..|subs| - 1];
    var rest := SpansOf(init, sel);
    if i < |rest| {
      SpansOfPicked(init, sel, i);
      var k :| 0 <= k < |init| && Select(init[k], sel) == Some(rest[i]);
      assert subs[k] == init[k];
      assert SpansOf(subs, sel)[i] == rest[i];
    } else {
      assert Select(subs[|subs| - 1], sel) == Some(SpansOf(subs, sel)[i]);
    }
  }

  /** Adding a submesh adds its picked run, if any, at the end. */
  lemma SpansOfSnoc(subs: seq<SubmeshHeader>, h: SubmeshHeader, sel: Selector)
    ensures SpansOf(subs + [h], sel) == SpansOf(subs, sel) + (if Select(h, sel).Some? then [Select(h, sel).value] else [])
  {
    assert (subs + [h])[..|subs|] == subs;
  }

  /**
   * Runs picked from submeshes whose runs are pairwise apart are pairwise
   * apart.
   */
  lemma {:induction false} SpansOfApart(subs: seq<SubmeshHeader>, sel: Selector)
    requires forall a, b | 0 <= a < b < |subs| :: Apart(subs[a].Vertices(), subs[b].Vertices())
    requires forall a, b | 0 <= a < b < |subs| :: Apart(subs[a].Indices(), subs[b].Indices())
    ensures PairwiseApart(SpansOf(subs, sel))
    decreases |subs|
  {
    if |subs| > 0 {
      var init := subs[..|subs| - 1];
      var h := subs[|subs| - 1];
      SpansOfApart(init, sel);
      var rest := SpansOf(init, sel);
      match Select(h, sel)
      case None =>
      case Some(sp) =>
        var r := rest + [sp];
        forall a, b | 0 <= a < b < |r| ensures Apart(r[a], r[b]) {
          if b == |rest| {
            SpansOfPicked(init, sel, a);
            var k :| 0 <= k < |init| && Select(init[k], sel) == Some(rest[a]);
            assert init[k] == subs[k];
            assert Apart(subs[k].Vertices(), h.Vertices()) && Apart(subs[k].Indices(), h.Indices());
          } else {
            assert r[a] == rest[a] && r[b] == rest[b];
          }
        }
    }
  }

  // ---------------------------------------------------------------------------
  // Swapping the 2nd and 3rd entry of every triple

  /** Position `k` of run `sp` is the `t`-th entry (0, 1 or 2) of its triple. */
  predicate TripleSlot(sp: Span, k: int, t: int) {
    sp.Has(k) && (k - sp.offset) % 3 == t
  }

  /**
   * One submesh's pass of ReverseWindingOrder: inside run `sp` every triple
   * (a, b, c) becomes (a, c, b); everything else stays.
   */
  function SwapTriples<T>(s: seq<T>, sp: Span): (r: seq<T>)
    requires sp.Within(|s|) && sp.count % 3 == 0
    ensures |r| == |s|
  {
    seq(|s|, k requires 0 <= k < |s| =>
      if TripleSlot(sp, k, 1) then s[k + 1]
      else if TripleSlot(sp, k, 2) then s[k - 1]
      else s[k])
  }

  /** Swapping twice restores the run. */
  lemma SwapTriplesInvolutive<T>(s: seq<T>, sp: Span)
    requires sp.Within(|s|) && sp.count % 3 == 0
    ensures SwapTriples(SwapTriples(s, sp), sp) == s
  {
    var t := SwapTriples(s, sp);
    forall k | 0 <= k < |s| ensures SwapTriples(t, sp)[k] == s[k] {
      if sp.Has(k) {
        SlotNeighbours(sp, k);
      }
    }
  }

  /** Extending the processed part of a run by one triple swaps that triple's last two entries. */
  lemma SwapTriplesStep<T>(s: seq<T>, off: nat, n: nat)
    requires n % 3 == 0 && off + n + 3 <= |s|
    ensures SwapTriples(s, Span(off, n + 3))
         == SwapTriples(s, Span(off, n))[off + n + 1 := s[off + n + 2]][off + n + 2 := s[off + n + 1]]
  {
    var a := SwapTriples(s, Span(off, n + 3));
    var b := SwapTriples(s, Span(off, n))[off + n + 1 := s[off + n + 2]][off + n + 2 := s[off + n + 1]];
    forall k | 0 <= k < |s| ensures a[k] == b[k] {
      if k == off + n + 1 {
        assert TripleSlot(Span(off, n + 3), k, 1);
      } else if k == off + n + 2 {
        assert TripleSlot(Span(off, n + 3), k, 2);
      } else if k == off + n {
        assert TripleSlot(Span(off, n + 3), k, 0);
      }
    }
  }

  /** ReverseWindingOrder over a list of runs, one run after another. */
  function SwapAll<T>(spans: seq<Span>, s: seq<T>): (r: seq<T>)
    requires forall i | 0 <= i < |spans| :: spans[i].Within(|s|) && spans[i].count % 3 == 0
    ensures |r| == |s|
    decreases |spans|
  {
    if |spans| == 0 then s
    else
      var last := spans[|spans| - 1];
      SwapTriples(SwapAll(spans[..|spans| - 1], s), last)
  }

  /** Walking one more run swaps its triples after all the earlier ones. */
  lemma SwapAllSnoc<T>(spans: seq<Span>, x: Span, s: seq<T>)
    requires forall i | 0 <= i < |spans| :: spans[i].Within(|s|) && spans[i].count % 3 == 0
    requires x.Within(|s|) && x.count % 3 == 0
    ensures SwapAll(spans + [x], s) == SwapTriples(SwapAll(spans, s), x)
  {
    assert (spans + [x])[..|spans|] == spans;
  }

  /** `k` lies in one of the runs. */
  ghost predicate Covered(spans: seq<Span>, k: int) {
    exists i | 0 <= i < |spans| :: spans[i].Has(k)
  }

  /**
   * With runs that are pairwise apart, every position of a run follows that
   * run's triple rule and every position outside all runs is unchanged.
   */
  lemma {:induction false} SwapAllPointwise<T>(spans: seq<Span>, s: seq<T>)
    requires forall i | 0 <= i < |spans| :: spans[i].Within(|s|) && spans[i].count % 3 == 0
    requires PairwiseApart(spans)
    ensures forall k | 0 <= k < |s| && !Covered(spans, k) :: SwapAll(spans, s)[k] == s[k]
    ensures forall i, k | 0 <= i < |spans| && spans[i].Has(k) :: SwapAll(spans, s)[k] == SwapTriples(s, spans[i])[k]
    decreases |spans|
  {
    if |spans| > 0 {
      var init := spans[..|spans| - 1];
      var last := spans[|spans| - 1];
      var t := SwapAll(init, s);
      SwapAllPointwise(init, s);
      forall k | 0 <= k < |s| && !Covered(spans, k) ensures SwapAll(spans, s)[k] == s[k] {
        assert !last.Has(k);
        assert !Covered(init, k) by {
          forall i | 0 <= i < |init| ensures !init[i].Has(k) {
            assert init[i] == spans[i];
          }
        }
      }
      forall i, k | 0 <= i < |spans| && spans[i].Has(k) ensures SwapAll(spans, s)[k] == SwapTriples(s, spans[i])[k] {
        if i == |spans| - 1 {
          // the neighbours k - 1 and k + 1 used by the rule lie in `last`, outside every earlier run
          forall j, m | 0 <= j < |init| && last.Has(m) ensures !init[j].Has(m) {
            assert Apart(spans[j], spans[i]);
          }
          if TripleSlot(last, k, 1) {
            assert last.Has(k + 1) && !Covered(init, k + 1);
          } else if TripleSlot(last, k, 2) {
            assert last.Has(k - 1) && !Covered(init, k - 1);
          } else {
            assert !Covered(init, k);
          }
        } else {
          assert init[i] == spans[i];
          assert Apart(spans[i], last);
        }
      }
    }
  }

  /** With runs that are pairwise apart, reversing the winding order twice restores the data. */
  lemma SwapAllInvolutive<T>(spans: seq<Span>, s: seq<T>)
    requires forall i | 0 <= i < |spans| :: spans[i].Within(|s|) && spans[i].count % 3 == 0
    requires PairwiseApart(spans)
    ensures SwapAll(spans, SwapAll(spans, s)) == s
  {
    forall k | 0 <= k < |s| ensures SwapAll(spans, SwapAll(spans, s))[k] == s[k] {
      SwapAllTwiceAt(spans, s, k);
    }
  }

  /** SwapAllInvolutive at one position. */
  lemma SwapAllTwiceAt<T>(spans: seq<Span>, s: seq<T>, k: nat)
    requires forall i | 0 <= i < |spans| :: spans[i].Within(|s|) && spans[i].count % 3 == 0
    requires PairwiseApart(spans) && k < |s|
    ensures SwapAll(spans, SwapAll(spans, s))[k] == s[k]
  {
    var t := SwapAll(spans, s);
    var w := SwapAll(spans, t);
    SwapAllPointwise(spans, s);
    SwapAllPointwise(spans, t);
    if Covered(spans, k) {
      var i :| 0 <= i < |spans| && spans[i].Has(k);
      SwapTriplesTwiceAt(s, t, w, spans[i], k);
    }
  }

  /**
   * If `t` agrees with SwapTriples(s, sp) on run `sp`, and `w` with
   * SwapTriples(t, sp), then `w` agrees with `s` there.
   */
  lemma SwapTriplesTwiceAt<T>(s: seq<T>, t: seq<T>, w: seq<T>, sp: Span, k: nat)
    requires |t| == |s| && |w| == |s| && sp.Within(|s|) && sp.count % 3 == 0 && sp.Has(k)
    requires forall m | sp.Has(m) :: t[m] == SwapTriples(s, sp)[m]
    requires forall m | sp.Has(m) :: w[m] == SwapTriples(t, sp)[m]
    ensures w[k] == s[k]
  {
    SlotNeighbours(sp, k);
    if TripleSlot(sp, k, 1) {
      assert t[k + 1] == SwapTriples(s, sp)[k + 1];
    } else if TripleSlot(sp, k, 2) {
      assert t[k - 1] == SwapTriples(s, sp)[k - 1];
    } else {
      assert t[k] == SwapTriples(s, sp)[k];
    }
  }

  /** The 2nd entry of a triple is followed by the 3rd, and the 3rd preceded by the 2nd. */
  lemma SlotNeighbours(sp: Span, k: nat)
    requires sp.count % 3 == 0 && sp.Has(k)
    ensures TripleSlot(sp, k, 1) ==> TripleSlot(sp, k + 1, 2)
    ensures TripleSlot(sp, k, 2) ==> TripleSlot(sp, k - 1, 1)
  {
    var d := k - sp.offset;
    var q := d / 3;
    var c := sp.count / 3;
    assert d == 3 * q + d % 3 && sp.count == 3 * c;
    assert q < c;
  }

  // ---------------------------------------------------------------------------
  // Element-wise edits of runs

  /** Apply `f` to every element of run `sp`. */
  function MapSpan<T>(s: seq<T>, sp: Span, f: T -> T): (r: seq<T>)
    requires sp.Within(|s|)
    ensures |r| == |s|
  {
    seq(|s|, k requires 0 <= k < |s| => if sp.Has(k) then f(s[k]) else s[k])
  }

  /** Apply `f` run after run. */
  function MapAll<T>(spans: seq<Span>, s: seq<T>, f: T -> T): (r: seq<T>)
    requires forall i | 0 <= i < |spans| :: spans[i].Within(|s|)
    ensures |r| == |s|
    decreases |spans|
  {
    if |spans| == 0 then s
    else MapSpan(MapAll(spans[..|spans| - 1], s, f), spans[|spans| - 1], f)
  }

  /** Walking one more run maps it after all the earlier ones. */
  lemma MapAllSnoc<T>(spans: seq<Span>, x: Span, s: seq<T>, f: T -> T)
    requires forall i | 0 <= i < |spans| :: spans[i].Within(|s|)
    requires x.Within(|s|)
    ensures MapAll(spans + [x], s, f) == MapSpan(MapAll(spans, s, f), x, f)
  {
    assert (spans + [x])[..|spans|] == spans;
  }

  /** With runs that are pairwise apart, each covered element is mapped exactly once. */
  lemma {:induction false} MapAllPointwise<T>(spans: seq<Span>, s: seq<T>, f: T -> T)
    requires forall i | 0 <= i < |spans| :: spans[i].Within(|s|)
    requires PairwiseApart(spans)
    ensures forall k | 0 <= k < |s| :: MapAll(spans, s, f)[k] == if Covered(spans, k) then f(s[k]) else s[k]
    decreases |spans|
  {
    if |spans| > 0 {
      var init := spans[..|spans| - 1];
      var last := spans[|spans| - 1];
      MapAllPointwise(init, s, f);
      forall k | 0 <= k < |s| ensures MapAll(spans, s, f)[k] == if Covered(spans, k) then f(s[k]) else s[k] {
        if last.Has(k) {
          forall j | 0 <= j < |init| ensures !init[j].Has(k) {
            assert Apart(spans[j], last);
          }
        } else if Covered(spans, k) {
          var i :| 0 <= i < |spans| && spans[i].Has(k);
          assert init[i] == spans[i];
        } else {
          forall j | 0 <= j < |init| ensures !init[j].Has(k) {
            assert init[j] == spans[j];
          }
        }
      }
    }
  }

  /** FlipNormals' edit of one vertex. */
  function Flipped(v: MeshVertex): (r: MeshVertex)
    ensures r.position == v.position && r.uv == v.uv && r.color == v.color
    ensures Add(r.normal, v.normal) == Vec3(0.0, 0.0, 0.0)
  {
    v.(normal := Neg(v.normal))
  }

  /** Flipping a vertex twice restores it. */
  lemma FlippedTwice(v: MeshVertex)
    ensures Flipped(Flipped(v)) == v
  {
  }

  /** With runs that are pairwise apart, flipping normals twice restores the data. */
  lemma FlipAllInvolutive(spans: seq<Span>, s: seq<MeshVertex>)
    requires forall i | 0 <= i < |spans| :: spans[i].Within(|s|)
    requires PairwiseApart(spans)
    ensures MapAll(spans, MapAll(spans, s, Flipped), Flipped) == s
  {
    var t := MapAll(spans, s, Flipped);
    MapAllPointwise(spans, s, Flipped);
    MapAllPointwise(spans, t, Flipped);
    forall k | 0 <= k < |s| ensures MapAll(spans, t, Flipped)[k] == s[k] {
      FlippedTwice(s[k]);
    }
  }

  // ---------------------------------------------------------------------------
  // Bounding box

  /** AABB: the component-wise least and greatest corner. */
  datatype AABB = AABB(min: Vec3, max: Vec3) {
    predicate Holds(p: Vec3) {
      min.x <= p.x <= max.x && min.y <= p.y <= max.y && min.z <= p.z <= max.z
    }

    /** AABB::ExpandTo: the smallest box holding this one and `p`. */
    function ExpandTo(p: Vec3): (r: AABB)
      ensures r.Holds(p)
    {
      AABB(Vec3(Min(min.x, p.x), Min(min.y, p.y), Min(min.z, p.z)),
           Vec3(Max(max.x, p.x), Max(max.y, p.y), Max(max.z, p.z)))
    }
  }

  function Min(a: real, b: real): real {
    if a <= b then a else b
  }

  function Max(a: real, b: real): real {
    if a <= b then b else a
  }

  /** The box ComputeMeshAABB folds over the first vertices' positions. */
  function Bounds(vs: seq<MeshVertex>): (r: AABB)
    requires |vs| > 0
    decreases |vs|
  {
    if |vs| == 1 then AABB(vs[0].position, vs[0].position)
    else Bounds(vs[..|vs| - 1]).ExpandTo(vs[|vs| - 1].position)
  }

  datatype Axis = X | Y | Z

  function Coord(p: Vec3, axis: Axis): real {
    match axis
    case X => p.x
    case Y => p.y
    case Z => p.z
  }

  /** The folded box holds every position. */
  lemma {:induction false} BoundsHold(vs: seq<MeshVertex>)
    requires |vs| > 0
    ensures forall k | 0 <= k < |vs| :: Bounds(vs).Holds(vs[k].position)
    decreases |vs|
  {
    if |vs| > 1 {
      var init := vs[..|vs| - 1];
      BoundsHold(init);
      forall k | 0 <= k < |vs| ensures Bounds(vs).Holds(vs[k].position) {
        if k < |init| {
          assert vs[k] == init[k];
        }
      }
    }
  }

  /**
   * Each face of the folded box touches some vertex, so no smaller box
   * holds them all.
   */
  lemma {:induction false} BoundsAttained(vs: seq<MeshVertex>, axis: Axis)
    requires |vs| > 0
    ensures exists k | 0 <= k < |vs| :: Coord(Bounds(vs).min, axis) == Coord(vs[k].position, axis)
    ensures exists k | 0 <= k < |vs| :: Coord(Bounds(vs).max, axis) == Coord(vs[k].position, axis)
    decreases |vs|
  {
    if |vs| == 1 {
      assert Bounds(vs) == AABB(vs[0].position, vs[0].position);
    } else {
      var n := |vs| - 1;
      var init := vs[..n];
      BoundsAttained(init, axis);
      var b := Bounds(init);
      var p := vs[n].position;
      assert Coord(Bounds(vs).min, axis) == Min(Coord(b.min, axis), Coord(p, axis));
      assert Coord(Bounds(vs).max, axis) == Max(Coord(b.max, axis), Coord(p, axis));
      var i :| 0 <= i < n && Coord(b.min, axis) == Coord(init[i].position, axis);
      var j :| 0 <= j < n && Coord(b.max, axis) == Coord(init[j].position, axis);
      assert init[i] == vs[i] && init[j] == vs[j];
    }
  }

  /**
   * ComputeMeshAABB: the box of the first `count` vertices, started at the
   * first position and expanded by each later one in turn.
   */
  method ComputeMeshAABB(vertices: array<MeshVertex>, count: nat) returns (result: AABB)
    requires 0 < count <= vertices.Length
    ensures result == Bounds(vertices[..count])
  {
    result := AABB(vertices[0].position, vertices[0].position);
    var it := 1;
    while it < count
      invariant 1 <= it <= count
      invariant result == Bounds(vertices[..it])
    {
      assert vertices[..it + 1][..it] == vertices[..it];
      result := result.ExpandTo(vertices[it].position);
      it := it + 1;
    }
  }

  // ---------------------------------------------------------------------------
  // The blob

  class MeshAssetData {
    const submeshes: seq<SubmeshHeader>
    const vertexData: array<MeshVertex>
    const indexData: array<nat>
    var boundingBox: AABB

    /** Every run lies inside its area, and no two submeshes share an element. */
    ghost predicate Valid()
      reads this
    {
      (forall k | 0 <= k < |submeshes| ::
         submeshes[k].Vertices().Within(vertexData.Length) && submeshes[k].Indices().Within(indexData.Length)) &&
      (forall a, b | 0 <= a < b < |submeshes| :: Apart(submeshes[a].Vertices(), submeshes[b].Vertices())) &&
      (forall a, b | 0 <= a < b < |submeshes| :: Apart(submeshes[a].Indices(), submeshes[b].Indices()))
    }

    /**
     * Every submesh is a triangle list: its indices come in triples
     * (SubMesh::TryLoad asserts it), and a submesh drawn without indices has
     * its vertices in triples.
     */
    ghost predicate TriangleLists()
      reads this
    {
      forall k | 0 <= k < |submeshes| ::
        submeshes[k].indexCount % 3 == 0 && (submeshes[k].indexCount == 0 ==> submeshes[k].vertexCount % 3 == 0)
    }

    constructor (subs: seq<SubmeshHeader>, vs: array<MeshVertex>, ixs: array<nat>, box: AABB)
      ensures submeshes == subs && vertexData == vs && indexData == ixs && boundingBox == box
    {
      submeshes := subs;
      vertexData := vs;
      indexData := ixs;
      boundingBox := box;
    }

    /** The length of the area the runs picked by `sel` lie in. */
    function AreaLength(sel: Selector): nat
      reads this
    {
      if sel == NonEmptyIndices then indexData.Length else vertexData.Length
    }

    /**
     * The runs `sel` picks from the first `n` submeshes lie inside their
     * area, and those ReverseWindingOrder walks hold whole triples.
     */
    ghost predicate Walkable(n: nat, sel: Selector)
      reads this
      requires n <= |submeshes|
    {
      forall i | 0 <= i < |SpansOf(submeshes[..n], sel)| ::
        SpansOf(submeshes[..n], sel)[i].Within(AreaLength(sel)) &&
        (sel != AllVertices ==> SpansOf(submeshes[..n], sel)[i].count % 3 == 0)
    }

    lemma WalkableAll(n: nat, sel: Selector)
      requires Valid() && n <= |submeshes|
      requires sel != AllVertices ==> TriangleLists()
      ensures Walkable(n, sel)
    {
      var spans := SpansOf(submeshes[..n], sel);
      forall i | 0 <= i < |spans|
        ensures spans[i].Within(AreaLength(sel)) && (sel != AllVertices ==> spans[i].count % 3 == 0)
      {
        SpansOfPicked(submeshes[..n], sel, i);
        var k :| 0 <= k < n && Select(submeshes[..n][k], sel) == Some(spans[i]);
        assert submeshes[..n][k] == submeshes[k];
      }
    }

    /**
     * The runs `sel` picks from all submeshes. They lie inside their area,
     * and the runs ReverseWindingOrder walks hold whole triples.
     */
    ghost function Runs(sel: Selector): (r: seq<Span>)
      reads this
      requires Valid() && (sel != AllVertices ==> TriangleLists())
      ensures r == SpansOf(submeshes, sel)
      ensures forall i | 0 <= i < |r| :: r[i].Within(AreaLength(sel)) && (sel != AllVertices ==> r[i].count % 3 == 0)
    {
      WalkableAll(|submeshes|, sel);
      assert submeshes[..|submeshes|] == submeshes;
      SpansOf(submeshes, sel)
    }

    /** The runs picked from the first `n + 1` submeshes: those of the first `n`, then submesh `n`'s. */
    lemma WalkOneMore(n: nat, sel: Selector)
      requires n < |submeshes|
      ensures SpansOf(submeshes[..n + 1], sel)
           == SpansOf(submeshes[..n], sel) + (if Select(submeshes[n], sel).Some? then [Select(submeshes[n], sel).value] else [])
    {
      assert submeshes[..n + 1] == submeshes[..n] + [submeshes[n]];
      SpansOfSnoc(submeshes[..n], submeshes[n], sel);
    }

    /** A submesh `sel` picks nothing from adds no run. */
    lemma SkipOne(n: nat, sel: Selector)
      requires n < |submeshes| && Select(submeshes[n], sel).None?
      ensures SpansOf(submeshes[..n + 1], sel) == SpansOf(submeshes[..n], sel)
    {
      WalkOneMore(n, sel);
      assert SpansOf(submeshes[..n], sel) + [] == SpansOf(submeshes[..n], sel);
    }

    /** The runs of all submeshes are pairwise apart. */
    lemma SpansApart(sel: Selector)
      requires Valid()
      ensures PairwiseApart(SpansOf(submeshes, sel))
    {
      SpansOfApart(submeshes, sel);
    }

    /**
     * ReverseWindingOrder: in every submesh with indices, each index triple
     * (a, b, c) becomes (a, c, b); in every submesh without, each vertex
     * triple does.
     */
    method ReverseWindingOrder()
      requires Valid() && TriangleLists()
      modifies indexData, vertexData
      ensures indexData[..] == SwapAll(Runs(NonEmptyIndices), old(indexData[..]))
      ensures vertexData[..] == SwapAll(Runs(UnindexedVertices), old(vertexData[..]))
    {
      WalkableAll(0, NonEmptyIndices);
      WalkableAll(0, UnindexedVertices);
      ghost var s0, v0 := indexData[..], vertexData[..];
      var sub := 0;
      while sub < |submeshes|
        invariant 0 <= sub <= |submeshes|
        invariant Walkable(sub, NonEmptyIndices) && Walkable(sub, UnindexedVertices)
        invariant indexData[..] == SwapAll(SpansOf(submeshes[..sub], NonEmptyIndices), s0)
        invariant vertexData[..] == SwapAll(SpansOf(submeshes[..sub], UnindexedVertices), v0)
      {
        ReverseOneSubmesh(sub, s0, v0);
        sub := sub + 1;
      }
      assert submeshes[..sub] == submeshes;
    }

    /** One pass of ReverseWindingOrder's outer loop, over submesh `sub`. */
    method ReverseOneSubmesh(sub: nat, ghost s0: seq<nat>, ghost v0: seq<MeshVertex>)
      requires Valid() && TriangleLists() && sub < |submeshes|
      requires |s0| == indexData.Length && |v0| == vertexData.Length
      requires Walkable(sub, NonEmptyIndices) && Walkable(sub, UnindexedVertices)
      requires indexData[..] == SwapAll(SpansOf(submeshes[..sub], NonEmptyIndices), s0)
      requires vertexData[..] == SwapAll(SpansOf(submeshes[..sub], UnindexedVertices), v0)
      modifies indexData, vertexData
      ensures Walkable(sub + 1, NonEmptyIndices) && Walkable(sub + 1, UnindexedVertices)
      ensures indexData[..] == SwapAll(SpansOf(submeshes[..sub + 1], NonEmptyIndices), s0)
      ensures vertexData[..] == SwapAll(SpansOf(submeshes[..sub + 1], UnindexedVertices), v0)
    {
      WalkableAll(sub + 1, NonEmptyIndices);
      WalkableAll(sub + 1, UnindexedVertices);
      if submeshes[sub].indexCount > 0 {
        ReverseRun(sub, NonEmptyIndices, indexData, s0);
        SkipOne(sub, UnindexedVertices);
      } else {
        ReverseRun(sub, UnindexedVertices, vertexData, v0);
        SkipOne(sub, NonEmptyIndices);
      }
    }

    /** Swap the triples of the run `sel` picks from submesh `sub`, in area `a`. */
    method ReverseRun<T>(sub: nat, sel: Selector, a: array<T>, ghost s0: seq<T>)
      requires Valid() && TriangleLists() && sub < |submeshes| && sel != AllVertices
      requires Select(submeshes[sub], sel).Some? && a.Length == AreaLength(sel) && |s0| == a.Length
      requires Walkable(sub, sel) && Walkable(sub + 1, sel)
      requires a[..] == SwapAll(SpansOf(submeshes[..sub], sel), s0)
      modifies a
      ensures a[..] == SwapAll(SpansOf(submeshes[..sub + 1], sel), s0)
    {
      var sp := Select(submeshes[sub], sel).value;
      WalkOneMore(sub, sel);
      assert sp in SpansOf(submeshes[..sub + 1], sel);
      SwapAllSnoc(SpansOf(submeshes[..sub], sel), sp, s0);
      SwapTriplesInPlace(a, sp);
    }

    /** FlipNormals: every vertex of every submesh has its normal negated. */
    method FlipNormals()
      requires Valid()
      modifies vertexData
      ensures vertexData[..] == MapAll(Runs(AllVertices), old(vertexData[..]), Flipped)
    {
      MapVertices(Flipped);
    }

    /**
     * SetColor as written: the loop evaluates each vertex's colour and
     * discards it, so no vertex changes, whatever `c` is.
     */
    method SetColor(c: Color)
      requires Valid()
      modifies vertexData
      ensures vertexData[..] == old(vertexData[..])
    {
      var sub := 0;
      while sub < |submeshes|
        invariant 0 <= sub <= |submeshes|
        invariant vertexData[..] == old(vertexData[..])
      {
        var h := submeshes[sub];
        var it := 0;
        while it < h.vertexCount
          invariant 0 <= it <= h.vertexCount
        {
          var _ := vertexData[h.vertexOffset + it].color;
          it := it + 1;
        }
        sub := sub + 1;
      }
    }

    /** SetColor as evidently intended: every vertex of every submesh takes colour `c`. */
    method SetColorIntended(c: Color)
      requires Valid()
      modifies vertexData
      ensures vertexData[..] == MapAll(Runs(AllVertices), old(vertexData[..]), Painted(c))
    {
      MapVertices(Painted(c));
    }

    /** The loop FlipNormals and the intended SetColor share: `f` applied to every vertex of every submesh. */
    method MapVertices(f: MeshVertex -> MeshVertex)
      requires Valid()
      modifies vertexData
      ensures vertexData[..] == MapAll(Runs(AllVertices), old(vertexData[..]), f)
    {
      WalkableAll(|submeshes|, AllVertices);
      var sub := 0;
      while sub < |submeshes|
        invariant 0 <= sub <= |submeshes|
        invariant Walkable(sub, AllVertices)
        invariant vertexData[..] == MapAll(SpansOf(submeshes[..sub], AllVertices), old(vertexData[..]), f)
      {
        var h := submeshes[sub];
        WalkableAll(sub + 1, AllVertices);
        WalkOneMore(sub, AllVertices);
        MapAllSnoc(SpansOf(submeshes[..sub], AllVertices), h.Vertices(), old(vertexData[..]), f);
        MapInPlace(vertexData, h.Vertices(), f);
        sub := sub + 1;
      }
      assert submeshes[..sub] == submeshes;
    }
  }

  /** The intended SetColor's edit of one vertex. */
  function Painted(c: Color): (f: MeshVertex -> MeshVertex)
    ensures forall v :: f(v).color == c && f(v).position == v.position && f(v).normal == v.normal && f(v).uv == v.uv
  {
    (v: MeshVertex) => v.(color := c)
  }

  /** The inner loop of ReverseWindingOrder over one run. */
  method SwapTriplesInPlace<T>(a: array<T>, sp: Span)
    requires sp.Within(a.Length) && sp.count % 3 == 0
    modifies a
    ensures a[..] == SwapTriples(old(a[..]), sp)
  {
    ghost var s := a[..];
    var it := 0;
    while it < sp.count
      invariant 0 <= it <= sp.count && it % 3 == 0
      invariant a[..] == SwapTriples(s, Span(sp.offset, it))
    {
      SwapTriplesStep(s, sp.offset, it);
      a[sp.offset + it + 1], a[sp.offset + it + 2] := a[sp.offset + it + 2], a[sp.offset + it + 1];
      it := it + 3;
    }
  }

  /** The inner loop of FlipNormals (and of the intended SetColor) over one run. */
  method MapInPlace<T>(a: array<T>, sp: Span, f: T -> T)
    requires sp.Within(a.Length)
    modifies a
    ensures a[..] == MapSpan(old(a[..]), sp, f)
  {
    ghost var s := a[..];
    var it := 0;
    while it < sp.count
      invariant 0 <= it <= sp.count
      invariant a[..] == MapSpan(s, Span(sp.offset, it), f)
    {
      a[sp.offset + it] := f(a[sp.offset + it]);
      it := it + 1;
    }
  }
}
