/**
 * The triangle meshes the vines demo renders: vertex positions, texture
 * coordinates and normals side by side, and a list of vertex indices, three
 * per triangle. A vine is a strip of quads along a curve; a billboard is one
 * quad; a whole vine tree is the vines of its branches appended back to
 * front.
 */
module VinesMesh {
  import opened Wrappers

  datatype Vec2 = Vec2(x: real, y: real)
  datatype Vec3 = Vec3(x: real, y: real, z: real)

  /** A mesh's contents as a value. */
  datatype MeshValue = MeshValue(vertices: seq<Vec3>, uvs: seq<Vec2>, normals: seq<Vec3>, indices: seq<int>)

  const EmptyMesh := MeshValue([], [], [], [])

  /** Every index names one of the vertices. */
  predicate IndicesValid(m: MeshValue) {
    forall i :: 0 <= i < |m.indices| ==> 0 <= m.indices[i] < |m.vertices|
  }

  /** Indices shifted by n, for vertices that now come after n others. */
  function Offset(idx: seq<int>, n: int): (r: seq<int>)
    ensures |r| == |idx| && forall i :: 0 <= i < |idx| ==> r[i] == idx[i] + n
  {
    seq(|idx|, i requires 0 <= i < |idx| => idx[i] + n)
  }

  /** `append` on values: b's attributes follow a's, and b's indices skip a's vertices. */
  function Join(a: MeshValue, b: MeshValue): MeshValue {
    MeshValue(a.vertices + b.vertices, a.uvs + b.uvs, a.normals + b.normals,
      a.indices + Offset(b.indices, |a.vertices|))
  }

  /** Appending keeps every index pointing at a vertex, and at the same vertex as before. */
  lemma {:induction false} JoinValid(a: MeshValue, b: MeshValue)
    requires IndicesValid(a) && IndicesValid(b)
    ensures IndicesValid(Join(a, b))
    ensures forall i :: 0 <= i < |b.indices| ==>
      Join(a, b).vertices[Join(a, b).indices[|a.indices| + i]] == b.vertices[b.indices[i]]
  {
    var j := Join(a, b);
    forall i | 0 <= i < |j.indices| ensures 0 <= j.indices[i] < |j.vertices| {
      if i >= |a.indices| {
        assert j.indices[i] == b.indices[i - |a.indices|] + |a.vertices|;
      }
    }
    forall i | 0 <= i < |b.indices|
      ensures j.vertices[j.indices[|a.indices| + i]] == b.vertices[b.indices[i]]
    {
      assert j.indices[|a.indices| + i] == b.indices[i] + |a.vertices|;
    }
  }

  lemma {:induction false} OffsetOffset(idx: seq<int>, m: int, n: int)
    ensures Offset(Offset(idx, m), n) == Offset(idx, m + n)
  {
  }

  /** Appending is associative, so a tree's vines can be appended one at a time. */
  lemma {:induction false} JoinAssociative(a: MeshValue, b: MeshValue, c: MeshValue)
    ensures Join(Join(a, b), c) == Join(a, Join(b, c))
  {
    OffsetOffset(c.indices, |b.vertices|, |a.vertices|);
    assert Offset(b.indices + Offset(c.indices, |b.vertices|), |a.vertices|) ==
      Offset(b.indices, |a.vertices|) + Offset(Offset(c.indices, |b.vertices|), |a.vertices|);
  }

  /** The empty mesh is a unit of appending. */
  lemma {:induction false} JoinEmpty(a: MeshValue)
    ensures Join(EmptyMesh, a) == a && Join(a, EmptyMesh) == a
  {
    assert Offset(a.indices, 0) == a.indices;
  }

  /** The meshes of ms appended in order onto the empty mesh. */
  function AppendAll(ms: seq<MeshValue>): MeshValue {
    if ms == [] then EmptyMesh else Join(AppendAll(ms[..|ms| - 1]), ms[|ms| - 1])
  }

  lemma {:induction false} AppendAllValid(ms: seq<MeshValue>)
    requires forall i :: 0 <= i < |ms| ==> IndicesValid(ms[i])
    ensures IndicesValid(AppendAll(ms))
  {
    if ms != [] {
      AppendAllValid(ms[..|ms| - 1]);
      JoinValid(AppendAll(ms[..|ms| - 1]), ms[|ms| - 1]);
    }
  }

  /** `copyvecs`: each vector of src cloned onto the end of dst. */
  method CopyVecs<V>(dst: seq<V>, src: seq<V>) returns (r: seq<V>)
    ensures r == dst + src
  {
    r := dst;
    var n := |src|;
    var i := 0;
    while i < n
      invariant 0 <= i <= n && r == dst + src[..i]
    {
      r := r + [src[i]];
      i := i + 1;
      assert src[..i] == src[..i - 1] + [src[i - 1]];
    }
    assert src[..n] == src;
  }

  /** The indices of `other` pushed one by one, shifted by n. */
  method PushOffset(dst: seq<int>, src: seq<int>, n: int) returns (r: seq<int>)
    ensures r == dst + Offset(src, n)
  {
    r := dst;
    var m := |src|;
    var i := 0;
    while i < m
      invariant 0 <= i <= m && r == dst + Offset(src[..i], n)
    {
      r := r + [src[i] + n];
      i := i + 1;
      assert Offset(src[..i], n) == Offset(src[..i - 1], n) + [src[i - 1] + n];
    }
    assert src[..m] == src;
  }

  class Mesh {
    var vertices: seq<Vec3>
    var uvs: seq<Vec2>
    var normals: seq<Vec3>
    var indices: seq<int>

    function Value(): MeshValue
      reads this
    {
      MeshValue(vertices, uvs, normals, indices)
    }

    /** `new Mesh()`: four empty arrays (the GL buffers are not part of this model). */
    constructor()
      ensures Value() == EmptyMesh
    {
      vertices, uvs, normals, indices := [], [], [], [];
    }

    /** `copy(other)`: the indices are replaced by a copy of other's, while other's vectors are cloned onto the end of this mesh's own. */
    method Copy(other: Mesh)
      modifies this
      ensures Value() == MeshValue(old(vertices) + old(other.vertices), old(uvs) + old(other.uvs),
        old(normals) + old(other.normals), old(other.indices))
    {
      var ov, ou, on := other.vertices, other.uvs, other.normals;
      indices := other.indices;
      vertices := CopyVecs(vertices, ov);
      uvs := CopyVecs(uvs, ou);
      normals := CopyVecs(normals, on);
    }

    /** `clone()`: a new mesh with the same contents. */
    method Clone() returns (m: Mesh)
      ensures fresh(m) && m.Value() == Value()
    {
      m := new Mesh();
      m.Copy(this);
    }

    /** `append(other)`: other's attributes concatenated, its indices pushed shifted by the old vertex count. */
    method Append(other: Mesh)
      modifies this
      ensures Value() == Join(old(Value()), old(other.Value()))
    {
      var n := |vertices|;
      var oi := other.indices;
      vertices := vertices + other.vertices;
      uvs := uvs + other.uvs;
      normals := normals + other.normals;
      indices := PushOffset(indices, oi, n);
    }
  }

  // ---------------------------------------------------------------------
  // vine

  /** A point of the sampled curve and its unit tangent there. */
  datatype CurvePoint = CurvePoint(point: Vec2, tangent: Vec2)

  function Sub(a: Vec2, b: Vec2): Vec2 { Vec2(a.x - b.x, a.y - b.y) }
  function Add(a: Vec2, b: Vec2): Vec2 { Vec2(a.x + b.x, a.y + b.y) }
  function Scale(a: Vec2, s: real): Vec2 { Vec2(a.x * s, a.y * s) }

  /** `accumlengths[i]`: the length of the polyline up to point i, with `len` measuring a segment. */
  function AccLength(points: seq<CurvePoint>, len: Vec2 -> real, i: nat): real
    requires i < |points|
  {
    if i == 0 then 0.0
    else AccLength(points, len, i - 1) + len(Sub(points[i].point, points[i - 1].point))
  }

  /** The curve parameter of point i: the fraction of the total length before it. */
  function Param(points: seq<CurvePoint>, len: Vec2 -> real, i: nat): real
    requires i < |points|
  {
    var total := AccLength(points, len, |points| - 1);
    if total == 0.0 then 0.0 else AccLength(points, len, i) / total
  }

  /** The half-width offset at point i: the tangent turned a quarter, scaled by half the interpolated width. */
  function HalfNormal(points: seq<CurvePoint>, len: Vec2 -> real, width0: real, width1: real, i: nat): Vec2
    requires i < |points|
  {
    var t := Param(points, len, i);
    var width := (1.0 - t) * width0 + t * width1;
    Scale(Vec2(-points[i].tangent.y, points[i].tangent.x), 0.5 * width)
  }

  /** The pattern of one quad: triangles (0, 1, 2) and (1, 3, 2) over two consecutive vertex pairs. */
  function QuadCorner(c: nat): nat
    requires c < 6
  {
    if c == 0 then 0 else if c == 1 then 1 else if c == 2 then 2
    else if c == 3 then 1 else if c == 4 then 3 else 2
  }

  /** The vine's index list for n curve points: one quad between each consecutive pair. */
  function VineIndices(n: nat): (r: seq<int>)
    ensures |r| == if n == 0 then 0 else 6 * (n - 1)
  {
    var q := if n == 0 then 0 else n - 1;
    seq(6 * q, k requires 0 <= k < 6 * q => 2 * (k / 6) + QuadCorner(k % 6))
  }

  /** Vertex k of a vine: the right (even k) or left (odd k) edge of the strip at point k / 2, at the vine's depth. */
  function VineVertex(points: seq<CurvePoint>, len: Vec2 -> real, width0: real, width1: real,
                      depth: real, k: nat): Vec3
    requires k < 2 * |points|
  {
    var c := points[k / 2].point;
    var nm := HalfNormal(points, len, width0, width1, k / 2);
    var p := if k % 2 == 0 then Sub(c, nm) else Add(c, nm);
    Vec3(p.x, p.y, depth)
  }

  /** Texture coordinate k: u is 0 on one edge and 1 on the other, v runs from v0 to v1 with the curve parameter. */
  function VineUv(points: seq<CurvePoint>, len: Vec2 -> real, v0: real, v1: real, k: nat): Vec2
    requires k < 2 * |points|
  {
    var t := Param(points, len, k / 2);
    Vec2((k % 2) as real, (1.0 - t) * v0 + t * v1)
  }

  /** Normal k: the half-width offset pointing out of the strip's edge. */
  function VineNormal(points: seq<CurvePoint>, len: Vec2 -> real, width0: real, width1: real, k: nat): Vec3
    requires k < 2 * |points|
  {
    var nm := HalfNormal(points, len, width0, width1, k / 2);
    if k % 2 == 0 then Vec3(-nm.x, -nm.y, 0.0) else Vec3(nm.x, nm.y, 0.0)
  }

  /** The mesh `vine` builds from the sampled curve. */
  function VineValue(points: seq<CurvePoint>, len: Vec2 -> real, width0: real, width1: real,
                     v0: real, v1: real, depth: real): MeshValue
  {
    var n := |points|;
    MeshValue(
      seq(2 * n, k requires 0 <= k < 2 * n => VineVertex(points, len, width0, width1, depth, k)),
      seq(2 * n, k requires 0 <= k < 2 * n => VineUv(points, len, v0, v1, k)),
      seq(2 * n, k requires 0 <= k < 2 * n => VineNormal(points, len, width0, width1, k)),
      VineIndices(n))
  }

  /** For n points a vine has 2n vertices, uvs and normals and 6(n-1) indices, each naming one of its vertices. */
  lemma {:induction false} VineShape(points: seq<CurvePoint>, len: Vec2 -> real, width0: real, width1: real,
                  v0: real, v1: real, depth: real)
    ensures var m := VineValue(points, len, width0, width1, v0, v1, depth);
      |m.vertices| == 2 * |points| && |m.uvs| == 2 * |points| && |m.normals| == 2 * |points| &&
      (|points| > 0 ==> |m.indices| == 6 * (|points| - 1)) && IndicesValid(m)
  {
    var n := |points|;
    var m := VineValue(points, len, width0, width1, v0, v1, depth);
    forall k | 0 <= k < |m.indices| ensures 0 <= m.indices[k] < 2 * n {
      assert k / 6 <= n - 2;
    }
  }

  /** The first loop of `vine`: the accumulated length at every point. */
  method AccLengths(points: seq<CurvePoint>, len: Vec2 -> real) returns (acc: seq<real>)
    ensures |acc| == if |points| == 0 then 1 else |points|
    ensures forall j :: 0 <= j < |points| ==> acc[j] == AccLength(points, len, j)
  {
    var n := |points|;
    acc := [0.0];
    if n == 0 {
      return;
    }
    var i := 1;
    while i < n
      invariant 1 <= i <= n && |acc| == i
      invariant forall j :: 0 <= j < i ==> acc[j] == AccLength(points, len, j)
    {
      var l := len(Sub(points[i].point, points[i - 1].point));
      assert l + acc[i - 1] == AccLength(points, len, i);
      acc := acc + [l + acc[i - 1]];
      i := i + 1;
    }
  }

  /** The second loop of `vine`: the parameter of every point and the texture coordinates of both edges. */
  method Params(points: seq<CurvePoint>, len: Vec2 -> real, acc: seq<real>, v0: real, v1: real)
    returns (ts: seq<real>, uvs: seq<Vec2>)
    requires |acc| >= |points| && forall j :: 0 <= j < |points| ==> acc[j] == AccLength(points, len, j)
    ensures |ts| == |points| && forall j :: 0 <= j < |points| ==> ts[j] == Param(points, len, j)
    ensures uvs == seq(2 * |points|, k requires 0 <= k < 2 * |points| => VineUv(points, len, v0, v1, k))
  {
    var n := |points|;
    ts, uvs := [], [];
    var i := 0;
    while i < n
      invariant 0 <= i <= n && |ts| == i && |uvs| == 2 * i
      invariant forall j :: 0 <= j < i ==> ts[j] == Param(points, len, j)
      invariant forall k :: 0 <= k < 2 * i ==> uvs[k] == VineUv(points, len, v0, v1, k)
    {
      var total := acc[n - 1];
      var t := if total == 0.0 then 0.0 else acc[i] / total;
      ts := ts + [t];
      var v := (1.0 - t) * v0 + t * v1;
      uvs := uvs + [Vec2(0.0, v), Vec2(1.0, v)];
      assert (2 * i) / 2 == i && (2 * i + 1) / 2 == i;
      i := i + 1;
    }
  }

  /** The third loop of `vine`: both edges of the strip at every point, and their outward normals. */
  method Strip(points: seq<CurvePoint>, len: Vec2 -> real, ts: seq<real>, width0: real, width1: real, depth: real)
    returns (vertices: seq<Vec3>, normals: seq<Vec3>)
    requires |ts| == |points| && forall j :: 0 <= j < |points| ==> ts[j] == Param(points, len, j)
    ensures vertices == seq(2 * |points|, k requires 0 <= k < 2 * |points| => VineVertex(points, len, width0, width1, depth, k))
    ensures normals == seq(2 * |points|, k requires 0 <= k < 2 * |points| => VineNormal(points, len, width0, width1, k))
  {
    var n := |points|;
    vertices, normals := [], [];
    var i := 0;
    while i < n
      invariant 0 <= i <= n && |vertices| == 2 * i && |normals| == 2 * i
      invariant forall k :: 0 <= k < 2 * i ==> vertices[k] == VineVertex(points, len, width0, width1, depth, k)
      invariant forall k :: 0 <= k < 2 * i ==> normals[k] == VineNormal(points, len, width0, width1, k)
    {
      var b := points[i];
      var center := b.point;
      var tangent := b.tangent;
      var t := ts[i];
      var width := (1.0 - t) * width0 + t * width1;
      var w2 := 0.5 * width;
      var normal := Scale(Vec2(-tangent.y, tangent.x), w2);
      assert normal == HalfNormal(points, len, width0, width1, i);
      var p0 := Sub(center, normal);
      var p1 := Add(center, normal);
      vertices := vertices + [Vec3(p0.x, p0.y, depth), Vec3(p1.x, p1.y, depth)];
      normals := normals + [Vec3(-normal.x, -normal.y, 0.0), Vec3(normal.x, normal.y, 0.0)];
      assert (2 * i) / 2 == i && (2 * i + 1) / 2 == i;
      i := i + 1;
    }
  }

  /** The last loop of `vine`: six indices per quad, the vertex pair advancing by two. */
  method QuadIndices(n: nat) returns (indices: seq<int>)
    ensures indices == VineIndices(n)
  {
    indices := [];
    var idx := 0;
    var i := 0;
    while i < n - 1
      invariant 0 <= i <= if n == 0 then 0 else n - 1
      invariant idx == 2 * i && |indices| == 6 * i
      invariant forall k :: 0 <= k < 6 * i ==> indices[k] == 2 * (k / 6) + QuadCorner(k % 6)
    {
      indices := indices + [idx, idx + 1, idx + 2, idx + 1, idx + 3, idx + 2];
      idx := idx + 2;
      i := i + 1;
    }
  }

  /** `vine`: its four loops, filling the mesh's arrays in order. */
  method Vine(points: seq<CurvePoint>, len: Vec2 -> real, width0: real, width1: real,
              v0: real, v1: real, depth: real) returns (mesh: Mesh)
    ensures fresh(mesh)
    ensures mesh.Value() == VineValue(points, len, width0, width1, v0, v1, depth)
  {
    mesh := new Mesh();
    var acc := AccLengths(points, len);
    var ts, uvs := Params(points, len, acc, v0, v1);
    var vertices, normals := Strip(points, len, ts, width0, width1, depth);
    var indices := QuadIndices(|points|);
    mesh.vertices, mesh.uvs, mesh.normals, mesh.indices := vertices, uvs, normals, indices;
  }

  // ---------------------------------------------------------------------
  // billboard

  const BillboardIndices: seq<int> := [0, 1, 2, 2, 3, 0]

  /** `billboard`: a unit quad centred at the origin, two triangles over its four corners. */
  method Billboard() returns (mesh: Mesh)
    ensures fresh(mesh)
    ensures mesh.vertices == [Vec3(-0.5, -0.5, 0.0), Vec3(0.5, -0.5, 0.0), Vec3(0.5, 0.5, 0.0), Vec3(-0.5, 0.5, 0.0)]
    ensures mesh.uvs == [Vec2(0.0, 0.0), Vec2(1.0, 0.0), Vec2(1.0, 1.0), Vec2(0.0, 1.0)]
    ensures mesh.normals == [] && mesh.indices == BillboardIndices
  {
    mesh := new Mesh();
    mesh.vertices := [Vec3(-0.5, -0.5, 0.0), Vec3(0.5, -0.5, 0.0), Vec3(0.5, 0.5, 0.0), Vec3(-0.5, 0.5, 0.0)];
    mesh.uvs := [Vec2(0.0, 0.0), Vec2(1.0, 0.0), Vec2(1.0, 1.0), Vec2(0.0, 1.0)];
    mesh.indices := BillboardIndices;
  }

  /** A billboard's six indices all name one of its four corners. */
  lemma {:induction false} BillboardValid(vs: seq<Vec3>, us: seq<Vec2>)
    requires |vs| == 4
    ensures IndicesValid(MeshValue(vs, us, [], BillboardIndices))
    ensures |BillboardIndices| == 6
  {
  }

  // ---------------------------------------------------------------------
  // vineTreeMesh

  /** A point of the vine tree: where a branch ends, its width, its depth, and the branches growing from it. */
  datatype TreeNode = TreeNode(point: Vec2, width: real, depth: real, children: seq<TreeNode>)

  /** The arguments `buildVineTreeMesh` passes on for one branch: its ends, the neighbours that shape its tangents, the widths, the texture offset and the depth. */
  datatype Segment = Segment(p0: Vec2, p1: Vec2, prev: Option<Vec2>, next: Option<Vec2>,
                             w0: real, w1: real, v: nat, depth: real)


  /** The point that shapes the tangent at a branch's far end: the only child's, or the second of two children's. */
  function NextPoint(t: TreeNode): Option<Vec2> {
    if |t.children| == 1 then Some(t.children[0].point)
    else if |t.children| == 2 then Some(t.children[1].point)
    else None
  }

  /** The segment drawn for node t, given the last two nodes above it. */
  function SegmentOf(t: TreeNode, v: nat, prevs: seq<TreeNode>): Segment
    requires 0 < |prevs| <= 2
  {
    var last := prevs[|prevs| - 1];
    Segment(last.point, t.point, if |prevs| == 2 then Some(prevs[0].point) else None,
      NextPoint(t), last.width, t.width, v, t.depth)
  }

  /** The window of ancestors after visiting t: t pushed, the oldest dropped beyond two. */
  function Push(prevs: seq<TreeNode>, t: TreeNode): (r: seq<TreeNode>)
    requires |prevs| <= 2
    ensures 0 < |r| <= 2 && r[|r| - 1] == t
  {
    var p := prevs + [t];
    if |p| > 2 then p[1..] else p
  }

  /** `buildVineTreeMesh`: a segment for every node below the root, in depth-first pre-order. */
  function Segments(t: TreeNode, v: nat, prevs: seq<TreeNode>): seq<Segment>
    requires |prevs| <= 2
    decreases t, 1
  {
    (if |prevs| > 0 then [SegmentOf(t, v, prevs)] else []) + SegmentsOfChildren(t, v, Push(prevs, t), 0)
  }

  function SegmentsOfChildren(t: TreeNode, v: nat, prevs: seq<TreeNode>, i: nat): seq<Segment>
    requires |prevs| <= 2 && i <= |t.children|
    decreases t, 0, |t.children| - i
  {
    if i == |t.children| then []
    else Segments(t.children[i], v + 1, prevs) + SegmentsOfChildren(t, v, prevs, i + 1)
  }

  /** The number of nodes strictly below t. */
  function Descendants(t: TreeNode): nat
    decreases t, 1
  {
    DescendantsFrom(t, 0)
  }

  function DescendantsFrom(t: TreeNode, i: nat): nat
    requires i <= |t.children|
    decreases t, 0, |t.children| - i
  {
    if i == |t.children| then 0 else 1 + Descendants(t.children[i]) + DescendantsFrom(t, i + 1)
  }

  /** Starting from the root with no ancestors, every node below the root gives exactly one segment. */
  lemma {:induction false} SegmentCount(t: TreeNode, v: nat, prevs: seq<TreeNode>)
    requires |prevs| <= 2
    ensures |Segments(t, v, prevs)| == Descendants(t) + (if |prevs| > 0 then 1 else 0)
    decreases t, 1
  {
    SegmentCountFrom(t, v, Push(prevs, t), 0);
  }

  lemma {:induction false} SegmentCountFrom(t: TreeNode, v: nat, prevs: seq<TreeNode>, i: nat)
    requires 0 < |prevs| <= 2 && i <= |t.children|
    ensures |SegmentsOfChildren(t, v, prevs, i)| == DescendantsFrom(t, i)
    decreases t, 0, |t.children| - i
  {
    if i < |t.children| {
      SegmentCount(t.children[i], v + 1, prevs);
      SegmentCountFrom(t, v, prevs, i + 1);
    }
  }

  /** A vine mesh and the depth it is drawn at. */
  datatype Piece = Piece(mesh: Mesh, depth: real)

  predicate SortedByDepth(ps: seq<Piece>) {
    forall i, j :: 0 <= i < j < |ps| ==> ps[i].depth <= ps[j].depth
  }

  /** p placed before the first piece that is deeper. */
  function Insert(p: Piece, s: seq<Piece>): (r: seq<Piece>)
    requires SortedByDepth(s)
    ensures SortedByDepth(r) && multiset(r) == multiset(s) + multiset{p}
  {
    if s == [] || p.depth <= s[0].depth then
      [p] + s
    else
      var rest := Insert(p, s[1..]);
      InsertBehind(p, s, rest);
      [s[0]] + rest
  }

  /** The head of s stays in front of p inserted into the rest, and the result is sorted and a permutation. */
  lemma {:induction false} InsertBehind(p: Piece, s: seq<Piece>, rest: seq<Piece>)
    requires SortedByDepth(s) && s != [] && s[0].depth < p.depth
    requires SortedByDepth(rest) && multiset(rest) == multiset(s[1..]) + multiset{p}
    ensures SortedByDepth([s[0]] + rest) && multiset([s[0]] + rest) == multiset(s) + multiset{p}
  {
    assert s == [s[0]] + s[1..];
    InsertAbove(p, s[1..], rest, s[0].depth);
  }

  /** Every piece of a permutation of s with p added is at least as deep as d when p and s's pieces are. */
  lemma {:induction false} InsertAbove(p: Piece, s: seq<Piece>, r: seq<Piece>, d: real)
    requires multiset(r) == multiset(s) + multiset{p}
    requires d <= p.depth && forall q :: q in s ==> d <= q.depth
    ensures forall k :: 0 <= k < |r| ==> d <= r[k].depth
  {
    forall k | 0 <= k < |r| ensures d <= r[k].depth {
      assert r[k] in multiset(r);
      assert r[k] in multiset(s) || r[k] == p;
    }
  }

  /** `meshes.sort` by depth: a sorted permutation, in which pieces of equal depth keep their order (each piece goes before the later ones it ties with). */
  function SortByDepth(ps: seq<Piece>): (r: seq<Piece>)
    ensures SortedByDepth(r) && multiset(r) == multiset(ps)
  {
    if ps == [] then []
    else
      assert ps == [ps[0]] + ps[1..];
      Insert(ps[0], SortByDepth(ps[1..]))
  }

  function MeshValues(ps: seq<Piece>): seq<MeshValue>
    reads set p | p in ps :: p.mesh
  {
    seq(|ps|, i requires 0 <= i < |ps| reads set p | p in ps :: p.mesh => ps[i].mesh.Value())
  }

  /**
   * The end of `vineTreeMesh`: the collected vines sorted by depth, then
   * appended one by one into a new mesh, so the mesh draws back to front.
   */
  method AppendSorted(meshes: seq<Piece>) returns (mesh: Mesh, order: seq<Piece>)
    ensures fresh(mesh)
    ensures order == SortByDepth(meshes)
    ensures mesh.Value() == AppendAll(MeshValues(order))
  {
    order := SortByDepth(meshes);
    mesh := new Mesh();
    JoinEmpty(EmptyMesh);
    forall p | p in order
      ensures p.mesh != mesh
    {
      assert p in multiset(order);
      assert p in meshes;
    }
    ghost var values := MeshValues(order);
    assert values[..0] == [];
    var i := 0;
    while i < |order|
      invariant 0 <= i <= |order|
      invariant forall p :: p in order ==> p.mesh != mesh
      invariant mesh.Value() == AppendAll(values[..i])
      invariant MeshValues(order) == values
    {
      assert order[i] in order;
      assert order[i].mesh.Value() == values[i];
      mesh.Append(order[i].mesh);
      AppendAllStep(values, i);
      i := i + 1;
    }
    assert values[..i] == values;
  }

  lemma {:induction false} AppendAllStep(ms: seq<MeshValue>, i: nat)
    requires i < |ms|
    ensures AppendAll(ms[..i + 1]) == Join(AppendAll(ms[..i]), ms[i])
  {
    assert ms[..i + 1][..i] == ms[..i];
  }
}
