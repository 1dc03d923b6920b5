/**
 * `geo2objdata` of the vines demo: the linked list of geometry the vine
 * grammar produced (branches, leaves, flowers, each pointing at its parent)
 * becomes a top-down tree of branch end points and a list of billboards.
 *
 * The list is a sequence in `next` order and a parent pointer is an index
 * into it. The tree nodes `geo2objdata` links by object references are kept in
 * an arena: a node's children are the ordinals of the branches under it.
 */
module VinesGeo {
  import opened Wrappers
  import opened JsNum
  import opened VinesMesh

  datatype GeoKind =
    | Branch(start: Vec2, end: Vec2, width: real)
    | Leaf(center: Vec2, length: real, angle: real)
    | Flower(center: Vec2, radius: real, angle: real)
    | Unknown(typ: string)

  datatype Geo = Geo(kind: GeoKind, parent: Option<nat>)

  /** A tree node: a branch's end point and width, the depth it is drawn at (none for the root), and its children by branch ordinal. */
  datatype TreeRec = TreeRec(point: Vec2, width: real, depth: Option<real>, children: seq<nat>)

  datatype BoardKind = LeafBoard | FlowerBoard

  datatype Billboard = Billboard(kind: BoardKind, center: Vec2, scale: real, angle: real, depth: Num)

  datatype ObjData = ObjData(vineTree: Option<TreeRec>, nodes: seq<TreeRec>, billboards: Option<seq<Billboard>>)

  const TypeError := "TypeError"

  // ---------------------------------------------------------------------
  // Branch ordinals (`depthLayer`)

  /** The number of branches among the first p geos. */
  function Ordinal(geos: seq<Geo>, p: nat): (r: nat)
    requires p <= |geos|
    ensures r <= p
  {
    if p == 0 then 0 else Ordinal(geos, p - 1) + (if geos[p - 1].kind.Branch? then 1 else 0)
  }

  /** The positions of the branches among the first p geos: `branchListNodes`. */
  function Positions(geos: seq<Geo>, p: nat): (r: seq<nat>)
    requires p <= |geos|
    ensures |r| == Ordinal(geos, p)
  {
    if p == 0 then []
    else Positions(geos, p - 1) + (if geos[p - 1].kind.Branch? then [p - 1] else [])
  }

  /** The k-th listed position is a branch, comes before p, and has ordinal k; the positions increase. */
  lemma {:induction false} PositionsAreBranches(geos: seq<Geo>, p: nat)
    requires p <= |geos|
    ensures forall k :: 0 <= k < |Positions(geos, p)| ==>
      Positions(geos, p)[k] < p && geos[Positions(geos, p)[k]].kind.Branch? &&
      Ordinal(geos, Positions(geos, p)[k]) == k
    ensures forall k, k' :: 0 <= k < k' < |Positions(geos, p)| ==> Positions(geos, p)[k] < Positions(geos, p)[k']
  {
    if p > 0 {
      PositionsAreBranches(geos, p - 1);
    }
  }

  /** Every branch before p is listed, at its ordinal. */
  lemma {:induction false} BranchesListed(geos: seq<Geo>, p: nat, q: nat)
    requires q < p <= |geos| && geos[q].kind.Branch?
    ensures Ordinal(geos, q) < |Positions(geos, p)| && Positions(geos, p)[Ordinal(geos, q)] == q
  {
    if q < p - 1 {
      BranchesListed(geos, p - 1, q);
    } else {
      assert Ordinal(geos, q) == |Positions(geos, p - 1)|;
    }
  }

  /** `Array.prototype.indexOf`: the first index holding x, or -1. */
  function IndexOf(s: seq<nat>, x: nat): (r: int)
    ensures -1 <= r < |s|
    ensures r == -1 <==> x !in s
    ensures r >= 0 ==> s[r] == x && forall j :: 0 <= j < r ==> s[j] != x
  {
    if |s| == 0 then -1
    else if s[0] == x then 0
    else
      var r := IndexOf(s[1..], x);
      assert x in s[1..] ==> x in s;
      assert x in s && s[0] != x ==> x in s[1..];
      if r == -1 then -1 else r + 1
  }

  /** Looking a geo up in the branch list finds its ordinal when it is a branch, and nothing otherwise. */
  lemma {:induction false} ListedIndex(geos: seq<Geo>, q: nat)
    ensures var list := Positions(geos, |geos|);
      IndexOf(list, q) == if q < |geos| && geos[q].kind.Branch? then Ordinal(geos, q) else -1
  {
    var list := Positions(geos, |geos|);
    PositionsAreBranches(geos, |geos|);
    if q < |geos| && geos[q].kind.Branch? {
      BranchesListed(geos, |geos|, q);
    }
  }

  // ---------------------------------------------------------------------
  // Depths

  /** `mapdepth` for a known layer: the padded range [-2, nb + 2] mapped onto [-1, 1]. */
  function MapDepth(d: real, nb: nat): real {
    2.0 * ((d + 2.0) / (nb as real + 4.0)) - 1.0
  }

  /** Branches are drawn nearer the later they come, strictly inside (-1, 1). */
  lemma {:induction false} DepthsIncrease(k: nat, k': nat, nb: nat)
    requires k < k' < nb
    ensures -1.0 < MapDepth(k as real, nb) < MapDepth(k' as real, nb) < 1.0
  {
    MapDepthMonotone(-2.0, k as real, nb);
    MapDepthMonotone(k as real, k' as real, nb);
    MapDepthMonotone(k' as real, nb as real + 2.0, nb);
  }

  lemma {:induction false} MapDepthMonotone(a: real, b: real, nb: nat)
    requires a < b
    ensures MapDepth(a, nb) < MapDepth(b, nb)
    ensures a == -2.0 ==> MapDepth(a, nb) == -1.0
    ensures b == nb as real + 2.0 ==> MapDepth(b, nb) == 1.0
  {
    var den := nb as real + 4.0;
    assert (a + 2.0) / den < (b + 2.0) / den;
  }

  /** The layer of the geo a leaf or flower hangs from: its ordinal if it is a listed branch, NaN (an undefined `depthLayer`) otherwise. */
  function ParentLayer(geos: seq<Geo>, q: nat): Num {
    if q < |geos| && geos[q].kind.Branch? then Finite(Ordinal(geos, q) as real) else NaN
  }

  /** `mapdepth` on a JavaScript number, shifted by delta first. */
  function MapNum(layer: Num, delta: real, nb: nat): Num {
    if layer.Finite? then Finite(MapDepth(layer.r + delta, nb)) else NaN
  }

  /** The billboard a leaf or flower with parent q becomes: leaves one and a half layers behind their branch, flowers two in front. */
  function BoardOf(geos: seq<Geo>, g: Geo, q: nat, nb: nat): Billboard
    requires g.kind.Leaf? || g.kind.Flower?
  {
    if g.kind.Leaf? then
      Billboard(LeafBoard, g.kind.center, g.kind.length, g.kind.angle, MapNum(ParentLayer(geos, q), -1.5, nb))
    else
      Billboard(FlowerBoard, g.kind.center, g.kind.radius * 2.0, g.kind.angle, MapNum(ParentLayer(geos, q), 2.0, nb))
  }

  /** A leaf is drawn behind the branch it hangs from, a flower in front of it. */
  lemma {:induction false} BoardsAroundParent(geos: seq<Geo>, g: Geo, q: nat, nb: nat)
    requires g.kind.Leaf? || g.kind.Flower?
    requires q < |geos| && geos[q].kind.Branch?
    ensures var b := BoardOf(geos, g, q, nb);
      b.depth.Finite? &&
      (g.kind.Leaf? ==> b.depth.r < MapDepth(Ordinal(geos, q) as real, nb)) &&
      (g.kind.Flower? ==> b.depth.r > MapDepth(Ordinal(geos, q) as real, nb))
  {
    var l := Ordinal(geos, q) as real;
    MapDepthMonotone(l - 1.5, l, nb);
    MapDepthMonotone(l, l + 2.0, nb);
  }

  // ---------------------------------------------------------------------
  // The second sweep

  /** The error the sweep over the first p geos raises: an unrecognised type, or a leaf or flower without a parent. */
  function SweepError(geos: seq<Geo>, p: nat): Option<string>
    requires p <= |geos|
  {
    if p == 0 then None
    else if SweepError(geos, p - 1).Some? then SweepError(geos, p - 1)
    else
      var g := geos[p - 1];
      if g.kind.Unknown? then Some("Unrecognized geo type " + g.kind.typ)
      else if (g.kind.Leaf? || g.kind.Flower?) && g.parent.None? then Some(TypeError)
      else None
  }

  /** The sweep over the first p geos fails exactly when one of them has an unknown type or is a leaf or flower without a parent. */
  lemma {:induction false} SweepErrorIffBad(geos: seq<Geo>, p: nat)
    requires p <= |geos|
    ensures SweepError(geos, p).None? <==> forall j :: 0 <= j < p ==>
      !geos[j].kind.Unknown? && (geos[j].kind.Leaf? || geos[j].kind.Flower? ==> geos[j].parent.Some?)
  {
    if p > 0 {
      SweepErrorIffBad(geos, p - 1);
    }
  }

  /** The billboards of the first p geos, in order. */
  function Boards(geos: seq<Geo>, p: nat, nb: nat): seq<Billboard>
    requires p <= |geos|
  {
    if p == 0 then []
    else
      var g := geos[p - 1];
      Boards(geos, p - 1, nb) +
        (if (g.kind.Leaf? || g.kind.Flower?) && g.parent.Some? then [BoardOf(geos, g, g.parent.value, nb)] else [])
  }

  /** The root node: the start of the last parentless branch among the first p geos. */
  function LastRoot(geos: seq<Geo>, p: nat): (r: Option<TreeRec>)
    requires p <= |geos|
    ensures r.Some? <==> exists q :: 0 <= q < p && geos[q].kind.Branch? && geos[q].parent.None?
    ensures r.Some? ==> r.value.depth.None? && r.value.children == []
  {
    if p == 0 then None
    else
      var g := geos[p - 1];
      if g.kind.Branch? && g.parent.None? then Some(TreeRec(g.kind.start, g.kind.width, None, []))
      else LastRoot(geos, p - 1)
  }

  /** `branchTreeNodes` after the second sweep over the first p geos: a node per branch, at its end point, not yet linked. */
  function Nodes(geos: seq<Geo>, p: nat, nb: nat): (r: seq<TreeRec>)
    requires p <= |geos|
    ensures |r| == Ordinal(geos, p)
  {
    if p == 0 then []
    else
      var g := geos[p - 1];
      Nodes(geos, p - 1, nb) +
        (if g.kind.Branch? then [TreeRec(g.kind.end, g.kind.width, Some(MapDepth(Ordinal(geos, p - 1) as real, nb)), [])] else [])
  }

  /** Node k stands for the k-th branch: its end point and width, drawn at layer k. */
  lemma {:induction false} NodesAt(geos: seq<Geo>, p: nat, nb: nat)
    requires p <= |geos|
    ensures forall k :: 0 <= k < |Nodes(geos, p, nb)| ==>
      var q := Positions(geos, p)[k];
      q < |geos| && geos[q].kind.Branch? &&
      Nodes(geos, p, nb)[k] == TreeRec(geos[q].kind.end, geos[q].kind.width, Some(MapDepth(k as real, nb)), [])
  {
    PositionsAreBranches(geos, p);
    if p > 0 {
      NodesAt(geos, p - 1, nb);
    }
  }

  // ---------------------------------------------------------------------
  // The third sweep

  /** Where the branch of ordinal k is linked: under the root, under a listed branch, or nowhere (`geo2objdata` then fails). */
  datatype Slot = Root | Under(k: nat) | Missing

  function SlotOf(geos: seq<Geo>, k: nat): Slot
    requires k < Ordinal(geos, |geos|)
  {
    PositionsAreBranches(geos, |geos|);
    var p := Positions(geos, |geos|)[k];
    match geos[p].parent
    case None => Root
    case Some(q) => if q < |geos| && geos[q].kind.Branch? then Under(Ordinal(geos, q)) else Missing
  }

  /** The ordinals below i linked under slot s, in order. */
  function ChildrenUpTo(geos: seq<Geo>, s: Slot, i: nat): (r: seq<nat>)
    requires i <= Ordinal(geos, |geos|)
    ensures forall j :: 0 <= j < |r| ==> r[j] < i
  {
    if i == 0 then []
    else ChildrenUpTo(geos, s, i - 1) + (if SlotOf(geos, i - 1) == s then [i - 1] else [])
  }

  /** Every branch is a child exactly where its slot says, once, and children are listed in increasing order. */
  lemma {:induction false} ChildrenExactlyOnce(geos: seq<Geo>, s: Slot, i: nat)
    requires i <= Ordinal(geos, |geos|)
    ensures forall k: nat :: k in ChildrenUpTo(geos, s, i) <==> k < i && SlotOf(geos, k) == s
    ensures forall j, j' :: 0 <= j < j' < |ChildrenUpTo(geos, s, i)| ==>
      ChildrenUpTo(geos, s, i)[j] < ChildrenUpTo(geos, s, i)[j']
  {
    if i > 0 {
      ChildrenExactlyOnce(geos, s, i - 1);
      ChildrenStep(geos, s, i, ChildrenUpTo(geos, s, i - 1));
    }
  }

  /** The step of `ChildrenExactlyOnce`: appending i-1 or nothing keeps both properties. */
  lemma {:induction false} ChildrenStep(geos: seq<Geo>, s: Slot, i: nat, prev: seq<nat>)
    requires 0 < i <= Ordinal(geos, |geos|) && prev == ChildrenUpTo(geos, s, i - 1)
    requires forall k: nat :: k in prev <==> k < i - 1 && SlotOf(geos, k) == s
    requires forall j, j' :: 0 <= j < j' < |prev| ==> prev[j] < prev[j']
    ensures forall k: nat :: k in ChildrenUpTo(geos, s, i) <==> k < i && SlotOf(geos, k) == s
    ensures forall j, j' :: 0 <= j < j' < |ChildrenUpTo(geos, s, i)| ==>
      ChildrenUpTo(geos, s, i)[j] < ChildrenUpTo(geos, s, i)[j']
  {
    var r := ChildrenUpTo(geos, s, i);
    if SlotOf(geos, i - 1) == s {
      assert r == prev + [i - 1];
      forall j, j' | 0 <= j < j' < |r|
        ensures r[j] < r[j']
      {
        if j' == |prev| {
          assert r[j] == prev[j];
          assert prev[j] < i - 1;
        }
      }
    } else {
      assert r == prev;
    }
  }

  /** The result of a conversion that does not fail: the root and every node with their children linked, and the billboards if there are any. */
  function Assemble(geos: seq<Geo>): ObjData {
    var nb := Ordinal(geos, |geos|);
    var nodes := Nodes(geos, |geos|, nb);
    var root := LastRoot(geos, |geos|);
    var boards := Boards(geos, |geos|, nb);
    ObjData(
      if root.Some? then Some(root.value.(children := ChildrenUpTo(geos, Root, nb))) else None,
      LinkedUpTo(geos, nodes, nb),
      if |boards| > 0 then Some(boards) else None)
  }

  /** `geo2objdata` as a value: the first error of the second sweep, else the first of the third, else the assembled data. */
  function ObjDataOf(geos: seq<Geo>): Result<ObjData> {
    var nb := Ordinal(geos, |geos|);
    if SweepError(geos, |geos|).Some? then Err(SweepError(geos, |geos|).value)
    else if exists k :: 0 <= k < nb && SlotOf(geos, k) == Missing then Err(TypeError)
    else Ok(Assemble(geos))
  }

  /** The conversion fails exactly on an unrecognised type, a leaf or flower without a parent, or a branch whose parent is not a listed branch. */
  lemma {:induction false} ObjDataFails(geos: seq<Geo>)
    ensures ObjDataOf(geos).Err? <==>
      (exists j :: 0 <= j < |geos| && (geos[j].kind.Unknown? || ((geos[j].kind.Leaf? || geos[j].kind.Flower?) && geos[j].parent.None?))) ||
      (exists j :: 0 <= j < |geos| && geos[j].kind.Branch? && geos[j].parent.Some? &&
        var q := geos[j].parent.value; !(q < |geos| && geos[q].kind.Branch?))
  {
    var nb := Ordinal(geos, |geos|);
    var list := Positions(geos, |geos|);
    SweepErrorIffBad(geos, |geos|);
    PositionsAreBranches(geos, |geos|);
    if exists j :: 0 <= j < |geos| && geos[j].kind.Branch? && geos[j].parent.Some? &&
        var q := geos[j].parent.value; !(q < |geos| && geos[q].kind.Branch?) {
      var j :| 0 <= j < |geos| && geos[j].kind.Branch? && geos[j].parent.Some? &&
        var q := geos[j].parent.value; !(q < |geos| && geos[q].kind.Branch?);
      BranchesListed(geos, |geos|, j);
      assert SlotOf(geos, Ordinal(geos, j)) == Missing;
    }
  }

  /** In a successful conversion there is one node per branch, each at its layer's depth, and each branch is the child of exactly its parent. */
  lemma {:induction false} ObjDataShape(geos: seq<Geo>)
    requires ObjDataOf(geos).Ok?
    ensures |ObjDataOf(geos).value.nodes| == Ordinal(geos, |geos|)
    ensures forall k :: 0 <= k < |ObjDataOf(geos).value.nodes| ==>
      ObjDataOf(geos).value.nodes[k].depth == Some(MapDepth(k as real, Ordinal(geos, |geos|)))
    ensures forall k, c :: 0 <= k < |ObjDataOf(geos).value.nodes| && 0 <= c < |ObjDataOf(geos).value.nodes| ==>
      (c in ObjDataOf(geos).value.nodes[k].children <==> SlotOf(geos, c) == Under(k))
    ensures ObjDataOf(geos).value.vineTree.Some? ==> forall c :: 0 <= c < |ObjDataOf(geos).value.nodes| ==>
      (c in ObjDataOf(geos).value.vineTree.value.children <==> SlotOf(geos, c) == Root)
  {
    var nb := Ordinal(geos, |geos|);
    var nodes := Nodes(geos, |geos|, nb);
    var d := Assemble(geos);
    assert ObjDataOf(geos).value == d;
    NodesAt(geos, |geos|, nb);
    ChildrenExactlyOnce(geos, Root, nb);
    forall k | 0 <= k < nb
      ensures d.nodes[k].depth == Some(MapDepth(k as real, nb))
      ensures forall c: nat :: c in d.nodes[k].children <==> c < nb && SlotOf(geos, c) == Under(k)
    {
      LinkedChildren(geos, nodes, nb, k);
      ChildrenExactlyOnce(geos, Under(k), nb);
    }
  }

  /** Once the sweep over a prefix has failed, it fails with the same error over any longer prefix. */
  lemma {:induction false} SweepErrorPersists(geos: seq<Geo>, p: nat, p': nat)
    requires p <= p' <= |geos| && SweepError(geos, p).Some?
    ensures SweepError(geos, p') == SweepError(geos, p)
  {
    if p < p' {
      SweepErrorPersists(geos, p, p' - 1);
    }
  }

  /** A sweep that fails on a prefix fails the same way on the whole list. */
  lemma {:induction false} FailedSweep(geos: seq<Geo>, p: nat, r: Result<SweepState>)
    requires p <= |geos| && r.Err? && SweepError(geos, p) == Some(r.msg)
    ensures SweepError(geos, |geos|).Some? && r.msg == SweepError(geos, |geos|).value
  {
    SweepErrorPersists(geos, p, |geos|);
  }

  // ---------------------------------------------------------------------
  // The method

  /** The first sweep: each branch's layer is the number of branches before it. */
  method Layers(geos: seq<Geo>) returns (layers: seq<Option<nat>>, nb: nat)
    ensures nb == Ordinal(geos, |geos|) && |layers| == |geos|
    ensures forall p :: 0 <= p < |geos| ==> layers[p] == if geos[p].kind.Branch? then Some(Ordinal(geos, p)) else None
  {
    layers, nb := [], 0;
    var p := 0;
    while p < |geos|
      invariant 0 <= p <= |geos| && |layers| == p && nb == Ordinal(geos, p)
      invariant forall j :: 0 <= j < p ==> layers[j] == if geos[j].kind.Branch? then Some(Ordinal(geos, j)) else None
    {
      if geos[p].kind.Branch? {
        layers := layers + [Some(nb)];
        nb := nb + 1;
      } else {
        layers := layers + [None];
      }
      p := p + 1;
    }
  }

  /** The layers of the first sweep: a branch's number of earlier branches, nothing for other geos. */
  predicate LayerNumbers(geos: seq<Geo>, layers: seq<Option<nat>>) {
    |layers| == |geos| &&
    forall j :: 0 <= j < |geos| ==> layers[j] == if geos[j].kind.Branch? then Some(Ordinal(geos, j)) else None
  }

  /** What the second sweep has built: `branchListNodes`, `branchTreeNodes`, its `root` and `billboards`. */
  datatype SweepState = SweepState(list: seq<nat>, nodes: seq<TreeRec>, root: Option<TreeRec>, boards: seq<Billboard>)

  /** The state after the second sweep has visited the first p geos. */
  function StateAt(geos: seq<Geo>, p: nat, nb: nat): SweepState
    requires p <= |geos|
  {
    SweepState(Positions(geos, p), Nodes(geos, p, nb), LastRoot(geos, p), Boards(geos, p, nb))
  }

  /** One iteration of the second sweep, on the geo at position p. */
  method SweepStep(geos: seq<Geo>, layers: seq<Option<nat>>, nb: nat, p: nat, st: SweepState)
    returns (r: Result<SweepState>)
    requires p < |geos| && LayerNumbers(geos, layers) && SweepError(geos, p).None? && st == StateAt(geos, p, nb)
    ensures r.Err? <==> SweepError(geos, p + 1).Some?
    ensures r.Err? ==> SweepError(geos, p + 1) == Some(r.msg)
    ensures r.Ok? ==> r.value == StateAt(geos, p + 1, nb)
  {
    var g := geos[p];
    match g.kind {
      case Branch(start, end, width) =>
        var root := if g.parent.None? then Some(TreeRec(start, width, None, [])) else st.root;
        var node := TreeRec(end, width, Some(MapDepth(layers[p].value as real, nb)), []);
        r := Ok(st.(list := st.list + [p], nodes := st.nodes + [node], root := root));
      case Leaf(center, length, angle) =>
        if g.parent.None? {
          return Err(TypeError);
        }
        var q := g.parent.value;
        var layer := if q < |layers| && layers[q].Some? then Finite(layers[q].value as real) else NaN;
        assert layer == ParentLayer(geos, q);
        r := Ok(st.(boards := st.boards + [Billboard(LeafBoard, center, length, angle, MapNum(layer, -1.5, nb))]));
      case Flower(center, radius, angle) =>
        if g.parent.None? {
          return Err(TypeError);
        }
        var q := g.parent.value;
        var layer := if q < |layers| && layers[q].Some? then Finite(layers[q].value as real) else NaN;
        assert layer == ParentLayer(geos, q);
        r := Ok(st.(boards := st.boards + [Billboard(FlowerBoard, center, radius * 2.0, angle, MapNum(layer, 2.0, nb))]));
      case Unknown(typ) =>
        r := Err("Unrecognized geo type " + typ);
    }
  }

  /** The second sweep: tree nodes, the root and the billboards, failing on the first bad geo. */
  method Sweep(geos: seq<Geo>, layers: seq<Option<nat>>, nb: nat) returns (r: Result<SweepState>)
    requires nb == Ordinal(geos, |geos|) && LayerNumbers(geos, layers)
    ensures SweepError(geos, |geos|).Some? <==> r.Err?
    ensures r.Err? ==> r.msg == SweepError(geos, |geos|).value
    ensures r.Ok? ==> r.value == StateAt(geos, |geos|, nb)
  {
    var st := SweepState([], [], None, []);
    var p := 0;
    while p < |geos|
      invariant 0 <= p <= |geos| && SweepError(geos, p).None? && st == StateAt(geos, p, nb)
    {
      var next := SweepStep(geos, layers, nb, p, st);
      if next.Err? {
        FailedSweep(geos, p + 1, next);
        return next;
      }
      st := next.value;
      p := p + 1;
    }
    r := Ok(st);
  }

  /** The nodes after the third sweep has linked the branches of ordinal below i: each one pushed onto its parent node's children. */
  function LinkedUpTo(geos: seq<Geo>, nodes: seq<TreeRec>, i: nat): (r: seq<TreeRec>)
    requires |nodes| == Ordinal(geos, |geos|) && i <= |nodes|
    ensures |r| == |nodes|
  {
    if i == 0 then nodes
    else
      var prev := LinkedUpTo(geos, nodes, i - 1);
      match SlotOf(geos, i - 1)
      case Under(j) => if j < |prev| then prev[j := prev[j].(children := prev[j].children + [i - 1])] else prev
      case _ => prev
  }

  /** Linking branch i: pushed onto the node of its slot, when that is a listed branch; otherwise the nodes stay. */
  lemma {:induction false} LinkedStep(geos: seq<Geo>, nodes: seq<TreeRec>, i: nat)
    requires |nodes| == Ordinal(geos, |geos|) && i < |nodes|
    ensures var prev := LinkedUpTo(geos, nodes, i);
      match SlotOf(geos, i)
      case Under(j) => j < |prev| && LinkedUpTo(geos, nodes, i + 1) == prev[j := prev[j].(children := prev[j].children + [i])]
      case _ => LinkedUpTo(geos, nodes, i + 1) == prev
  {
    SlotBelow(geos, i);
  }

  /** After linking, node k keeps everything but its children, and has gained exactly the branches whose slot is under it, in order. */
  lemma {:induction false} LinkedChildren(geos: seq<Geo>, nodes: seq<TreeRec>, i: nat, k: nat)
    requires |nodes| == Ordinal(geos, |geos|) && i <= |nodes| && k < |nodes|
    ensures LinkedUpTo(geos, nodes, i)[k] == nodes[k].(children := nodes[k].children + ChildrenUpTo(geos, Under(k), i))
  {
    if i > 0 {
      LinkedChildren(geos, nodes, i - 1, k);
      if SlotOf(geos, i - 1).Under? {
        assert SlotOf(geos, i - 1).k < |nodes| by { SlotBelow(geos, i - 1); }
      }
    }
  }

  /** A branch is only ever linked under a listed branch. */
  lemma {:induction false} SlotBelow(geos: seq<Geo>, k: nat)
    requires k < Ordinal(geos, |geos|)
    ensures SlotOf(geos, k).Under? ==> SlotOf(geos, k).k < Ordinal(geos, |geos|)
  {
    PositionsAreBranches(geos, |geos|);
    if SlotOf(geos, k).Under? {
      var q := geos[Positions(geos, |geos|)[k]].parent.value;
      BranchesListed(geos, |geos|, q);
    }
  }

  /** `indexOf` on the branch list decides where branch i is linked. */
  lemma {:induction false} ParentIndex(geos: seq<Geo>, i: nat)
    requires i < Ordinal(geos, |geos|)
    ensures var list := Positions(geos, |geos|);
      list[i] < |geos| && geos[list[i]].kind.Branch? &&
      match geos[list[i]].parent
      case None => SlotOf(geos, i) == Root
      case Some(q) => var idx := IndexOf(list, q);
        (idx == -1 ==> SlotOf(geos, i) == Missing) && (idx != -1 ==> SlotOf(geos, i) == Under(idx))
  {
    PositionsAreBranches(geos, |geos|);
    var list := Positions(geos, |geos|);
    if geos[list[i]].parent.Some? {
      ListedIndex(geos, geos[list[i]].parent.value);
    }
  }

  /** The third sweep: each branch's node pushed onto the children of its parent's node, or of the root. */
  method Link(geos: seq<Geo>, list: seq<nat>, nodes: seq<TreeRec>, root: Option<TreeRec>)
    returns (r: Result<(seq<TreeRec>, Option<TreeRec>)>)
    requires list == Positions(geos, |geos|) && |nodes| == |list|
    requires root == LastRoot(geos, |geos|)
    ensures r.Err? <==> exists k :: 0 <= k < |list| && SlotOf(geos, k) == Missing
    ensures r.Err? ==> r.msg == TypeError
    ensures r.Ok? ==> r.value.0 == LinkedUpTo(geos, nodes, |list|)
    ensures r.Ok? ==> r.value.1 == if root.Some? then Some(root.value.(children := ChildrenUpTo(geos, Root, |list|))) else None
  {
    var out := nodes;
    var top := root;
    var i := 0;
    while i < |list|
      invariant 0 <= i <= |list|
      invariant forall k :: 0 <= k < i ==> SlotOf(geos, k) != Missing
      invariant out == LinkedUpTo(geos, nodes, i)
      invariant top == if root.Some? then Some(root.value.(children := ChildrenUpTo(geos, Root, i))) else None
    {
      ParentIndex(geos, i);
      var parent := geos[list[i]].parent;
      var parentIdx: int;
      if parent.None? {
        parentIdx := -2;
      } else {
        parentIdx := IndexOf(list, parent.value);
      }
      LinkedStep(geos, nodes, i);
      if parentIdx == -1 {
        return Err(TypeError);
      } else if parentIdx == -2 {
        // `branchTreeNodes.root` exists whenever some branch has no parent.
        assert top.Some? && ChildrenUpTo(geos, Root, i + 1) == ChildrenUpTo(geos, Root, i) + [i];
        top := Some(top.value.(children := top.value.children + [i]));
      } else {
        assert ChildrenUpTo(geos, Root, i + 1) == ChildrenUpTo(geos, Root, i);
        out := out[parentIdx := out[parentIdx].(children := out[parentIdx].children + [i])];
      }
      i := i + 1;
    }
    r := Ok((out, top));
  }

  /** `geo2objdata`: its three sweeps. */
  method Geo2ObjData(geos: seq<Geo>) returns (r: Result<ObjData>)
    ensures r == ObjDataOf(geos)
  {
    var layers, nb := Layers(geos);
    var swept := Sweep(geos, layers, nb);
    if swept.Err? {
      return Err(swept.msg);
    }
    var st := swept.value;
    var linked := Link(geos, st.list, st.nodes, st.root);
    if linked.Err? {
      return Err(linked.msg);
    }
    var (out, top) := linked.value;
    r := Ok(ObjData(top, out, if |st.boards| > 0 then Some(st.boards) else None));
  }
}
