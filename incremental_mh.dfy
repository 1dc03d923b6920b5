/**
 * The bookkeeping of incrementalised (caching) MH: copy-on-write snapshots of
 * cache-node properties, shallow store and parameter comparison, the two
 * master lists of random-choice nodes with their undo on rejection, the cache
 * hit statistics that switch caching off for a call site, and navigation of
 * the cache tree (marking later siblings unreachable, finding a cached child,
 * rebuilding the node stack).
 */
module IncrementalMH {
  import opened Wrappers
  import opened JsString

  /** The JavaScript values a node property or a store entry can hold. */
  datatype Val = Undefined | Null | Bool(b: bool) | Num(n: real) | Str(s: string) | Nodes(ns: seq<Node>)

  /** JavaScript truthiness (NaN is not modelled). */
  predicate Truthy(v: Val) {
    match v
    case Undefined => false
    case Null => false
    case Bool(b) => b
    case Num(n) => n != 0.0
    case Str(s) => s != ""
    case Nodes(_) => true
  }

  /** Reading a property: `undefined` when it is absent. */
  function Get(m: map<string, Val>, p: string): Val {
    if p in m then m[p] else Undefined
  }

  /** Two property maps that no read can tell apart. */
  ghost predicate SameView(m1: map<string, Val>, m2: map<string, Val>) {
    forall p :: Get(m1, p) == Get(m2, p)
  }

  /** The IncrementalMH coroutine, as far as nodes talk to it. */
  class Coroutine {
    var touchedNodes: seq<Node>
    var nodeStack: seq<Node>

    constructor ()
      ensures touchedNodes == [] && nodeStack == []
    {
      touchedNodes := [];
      nodeStack := [];
    }

    /**
     * `restoreStackUpTo(node)`: the chain of parents from `node` up to the
     * root, in root-first order. `path` is that chain, child first.
     */
    method RestoreStackUpTo(node: Node?, ghost path: seq<Node>)
      requires IsParentChain(node, path)
      modifies this
      ensures nodeStack == Reverse(path)
      ensures touchedNodes == old(touchedNodes)
    {
      var stack: seq<Node> := [];
      var n := node;
      while n != null
        invariant |stack| <= |path|
        invariant stack == path[..|stack|]
        invariant n == null <==> |stack| == |path|
        invariant n != null ==> n == path[|stack|]
        decreases |path| - |stack|
      {
        ghost var k := |stack|;
        assert k < |path| - 1 ==> path[k].parent == path[k + 1];
        stack := stack + [n];
        n := n.parent;
      }
      assert stack == path;
      nodeStack := Reverse(stack);
    }
  }

  function Reverse<T>(s: seq<T>): (r: seq<T>)
    ensures |r| == |s| && forall i :: 0 <= i < |s| ==> r[i] == s[|s| - 1 - i]
  {
    if s == [] then [] else Reverse(s[1..]) + [s[0]]
  }

  /** `path` is `node`, its parent, its grandparent, ..., up to a node whose parent is null. */
  ghost predicate IsParentChain(node: Node?, path: seq<Node>)
    reads set i | 0 <= i < |path| :: path[i]
  {
    (node == null <==> path == []) &&
    (node != null ==> path[0] == node) &&
    (forall i :: 0 <= i < |path| - 1 ==> path[i].parent == path[i + 1]) &&
    (path != [] ==> path[|path| - 1].parent == null)
  }

  /** A cache node. Properties that the snapshot system can restore live in `props`. */
  class Node {
    const coroutine: Coroutine
    const address: string
    var props: map<string, Val>
    /** `__snapshot`: the saved values of the properties changed since the last proposal. */
    var snapshot: Option<map<string, Val>>
    var parent: Node?
    var index: nat
    var nextChildIdx: nat

    constructor (coroutine: Coroutine, address: string, parent: Node?, index: nat, props: map<string, Val>)
      ensures this.coroutine == coroutine && this.address == address && this.parent == parent
      ensures this.index == index && this.props == props && snapshot.None? && nextChildIdx == 0
    {
      this.coroutine := coroutine;
      this.address := address;
      this.parent := parent;
      this.index := index;
      this.props := props;
      snapshot := None;
      nextChildIdx := 0;
    }

    /** What `restoreSnapshot` would set the properties to. */
    ghost function RestoreTarget(): map<string, Val>
      reads this
    {
      match snapshot
      case None => props
      case Some(s) => props + s
    }

    /** The node's `children` list (empty for nodes that have none). */
    function Children(): seq<Node>
      reads this
    {
      if "children" in props && props["children"].Nodes? then props["children"].ns else []
    }
  }

  /** The snapshot a node gets when it is first touched. */
  const FirstSnapshot: map<string, Val> := map["reachable" := Bool(true)]

  /** `touch`: register the node with the coroutine and start its snapshot, once per snapshot. */
  method Touch(node: Node)
    modifies node, node.coroutine
    ensures old(node.snapshot).None? ==> node.snapshot == Some(FirstSnapshot)
    ensures old(node.snapshot).None? ==> node.coroutine.touchedNodes == old(node.coroutine.touchedNodes) + [node]
    ensures old(node.snapshot).Some? ==> node.snapshot == old(node.snapshot)
    ensures old(node.snapshot).Some? ==> node.coroutine.touchedNodes == old(node.coroutine.touchedNodes)
    ensures node.props == old(node.props) && node.parent == old(node.parent) && node.index == old(node.index)
    ensures node.nextChildIdx == old(node.nextChildIdx) && node.coroutine.nodeStack == old(node.coroutine.nodeStack)
  {
    if node.snapshot.None? {
      node.coroutine.touchedNodes := node.coroutine.touchedNodes + [node];
      node.snapshot := Some(FirstSnapshot);
    }
  }

  /**
   * `updateProperty` as written: the old value is saved unless the snapshot
   * already holds a truthy value for the property. A falsy saved value (0,
   * false, '', null, undefined) is overwritten by the second update.
   */
  method UpdatePropertyAsWritten(node: Node, prop: string, val: Val)
    modifies node, node.coroutine
    ensures node.props == old(node.props)[prop := val]
    ensures var s0 := if old(node.snapshot).None? then FirstSnapshot else old(node.snapshot.value);
      node.snapshot == if Truthy(Get(s0, prop)) then Some(s0) else Some(s0[prop := Get(old(node.props), prop)])
    ensures node.parent == old(node.parent) && node.index == old(node.index) && node.nextChildIdx == old(node.nextChildIdx)
  {
    Touch(node);
    var snap := node.snapshot.value;
    if !Truthy(Get(snap, prop)) {
      node.snapshot := Some(snap[prop := Get(node.props, prop)]);
    }
    node.props := node.props[prop := val];
  }

  /**
   * Restoring after two updates of a property whose original value is 0 gives
   * back the intermediate value, not the original.
   */
  method FalsyOriginalLost() returns (restored: Val)
    ensures restored == Num(5.0)
  {
    var co := new Coroutine();
    var node := new Node(co, "_1", null, 0, map["score" := Num(0.0)]);
    UpdatePropertyAsWritten(node, "score", Num(5.0));
    UpdatePropertyAsWritten(node, "score", Num(7.0));
    RestoreSnapshot(node);
    restored := Get(node.props, "score");
  }

  /**
   * `updateProperty`, saving the old value only when the snapshot has no entry
   * for the property yet, so that it keeps the value from before the first update.
   */
  method UpdateProperty(node: Node, prop: string, val: Val)
    modifies node, node.coroutine
    ensures node.props == old(node.props)[prop := val] && node.snapshot.Some?
    ensures old(node.snapshot).Some? ==> SameView(node.RestoreTarget(), old(node.RestoreTarget()))
    ensures old(node.snapshot).None? ==> SameView(node.RestoreTarget(), old(node.props)["reachable" := Bool(true)])
    ensures old(node.snapshot).Some? && prop in old(node.snapshot.value) ==> node.snapshot == old(node.snapshot)
    ensures node.parent == old(node.parent) && node.index == old(node.index) && node.nextChildIdx == old(node.nextChildIdx)
    ensures node.coroutine.nodeStack == old(node.coroutine.nodeStack)
    ensures old(node.snapshot).None? ==> node.coroutine.touchedNodes == old(node.coroutine.touchedNodes) + [node]
    ensures old(node.snapshot).Some? ==> node.coroutine.touchedNodes == old(node.coroutine.touchedNodes)
  {
    ghost var props0 := node.props;
    ghost var snap0 := if node.snapshot.None? then FirstSnapshot else node.snapshot.value;
    Touch(node);
    assert node.snapshot == Some(snap0);
    var snap := node.snapshot.value;
    if prop !in snap {
      node.snapshot := Some(snap[prop := Get(node.props, prop)]);
    }
    node.props := node.props[prop := val];
    SaveThenSet(props0, snap0, prop, val);
    assert node.RestoreTarget() == props0[prop := val] + (if prop in snap0 then snap0 else snap0[prop := Get(props0, prop)]);
    if old(node.snapshot).None? {
      assert props0 + FirstSnapshot == props0["reachable" := Bool(true)];
    } else {
      assert old(node.RestoreTarget()) == props0 + snap0;
    }
  }

  /** Saving a property's value before its first update, then updating it, leaves what a restore gives unchanged. */
  lemma {:induction false} SaveThenSet(props: map<string, Val>, snap: map<string, Val>, prop: string, val: Val)
    ensures SameView(props[prop := val] + (if prop in snap then snap else snap[prop := Get(props, prop)]), props + snap)
  {
    var after := props[prop := val] + (if prop in snap then snap else snap[prop := Get(props, prop)]);
    forall p
      ensures Get(after, p) == Get(props + snap, p)
    {
      if p == prop {
        assert p in after;
      }
    }
  }

  /** With the corrected update the original 0 comes back. */
  method FalsyOriginalKept() returns (restored: Val)
    ensures restored == Num(0.0)
  {
    var co := new Coroutine();
    var node := new Node(co, "_1", null, 0, map["score" := Num(0.0)]);
    UpdateProperty(node, "score", Num(5.0));
    UpdateProperty(node, "score", Num(7.0));
    RestoreSnapshot(node);
    restored := Get(node.props, "score");
  }

  /** `hasSnapshotForProperty`: a snapshot exists and holds a defined value for `prop`. */
  function HasSnapshotForProperty(node: Node, prop: string): (r: bool)
    reads node
    ensures r ==> node.snapshot.Some? && prop in node.snapshot.value
  {
    node.snapshot.Some? && Get(node.snapshot.value, prop) != Undefined
  }

  /** `restoreSnapshot`: write every saved property back, then drop the snapshot. */
  method RestoreSnapshot(node: Node)
    modifies node
    ensures node.snapshot.None?
    ensures node.props == old(node.RestoreTarget())
    ensures node.parent == old(node.parent) && node.index == old(node.index) && node.nextChildIdx == old(node.nextChildIdx)
  {
    if node.snapshot.Some? {
      WriteBack(node, node.snapshot.value);
    }
    node.snapshot := None;
  }

  /** The loop of `restoreSnapshot`: each saved property, in turn, written back to the node. */
  method WriteBack(node: Node, snap: map<string, Val>)
    modifies node
    ensures node.props == old(node.props) + snap
    ensures node.snapshot == old(node.snapshot) && node.parent == old(node.parent)
    ensures node.index == old(node.index) && node.nextChildIdx == old(node.nextChildIdx)
  {
    var keys := snap.Keys;
    while keys != {}
      invariant keys <= snap.Keys
      invariant node.props == old(node.props) + Restrict(snap, snap.Keys - keys)
      invariant node.snapshot == old(node.snapshot) && node.parent == old(node.parent)
      invariant node.index == old(node.index) && node.nextChildIdx == old(node.nextChildIdx)
      decreases |keys|
    {
      var p :| p in keys;
      RestrictOneMore(old(node.props), snap, keys, p);
      node.props := node.props[p := snap[p]];
      keys := keys - {p};
    }
    assert snap.Keys - keys == snap.Keys;
    RestrictAll(snap);
  }

  /** The entries of m whose keys are in ks. */
  function Restrict(m: map<string, Val>, ks: set<string>): (r: map<string, Val>)
    requires ks <= m.Keys
    ensures r.Keys == ks && forall p :: p in ks ==> r[p] == m[p]
  {
    map p | p in ks :: m[p]
  }

  /** Writing back one more saved entry. */
  lemma {:induction false} RestrictOneMore(m0: map<string, Val>, snap: map<string, Val>, keys: set<string>, p: string)
    requires keys <= snap.Keys && p in keys
    ensures (m0 + Restrict(snap, snap.Keys - keys))[p := snap[p]] == m0 + Restrict(snap, snap.Keys - (keys - {p}))
  {
    assert snap.Keys - (keys - {p}) == (snap.Keys - keys) + {p};
  }

  lemma {:induction false} RestrictAll(m: map<string, Val>)
    ensures Restrict(m, m.Keys) == m
  {
  }

  /** `discardSnapshot`: keep the current properties and drop the snapshot. */
  method DiscardSnapshot(node: Node)
    modifies node
    ensures node.snapshot.None? && node.props == old(node.props)
    ensures node.parent == old(node.parent) && node.index == old(node.index) && node.nextChildIdx == old(node.nextChildIdx)
  {
    node.snapshot := None;
  }

  /** `storesEqual`: shallow, key-wise strict equality, checking the keys of both stores. */
  method StoresEqual(s1: map<string, Val>, s2: map<string, Val>) returns (r: bool)
    ensures r <==> SameView(s1, s2)
  {
    var keys := s1.Keys;
    while keys != {}
      invariant keys <= s1.Keys
      invariant forall p :: p in s1.Keys - keys ==> Get(s1, p) == Get(s2, p)
      decreases |keys|
    {
      var p :| p in keys;
      if Get(s1, p) != Get(s2, p) {
        return false;
      }
      keys := keys - {p};
    }
    keys := s2.Keys;
    while keys != {}
      invariant keys <= s2.Keys
      invariant forall p :: p in s1.Keys ==> Get(s1, p) == Get(s2, p)
      invariant forall p :: p in s2.Keys - keys ==> Get(s1, p) == Get(s2, p)
      decreases |keys|
    {
      var p :| p in keys;
      if Get(s1, p) != Get(s2, p) {
        return false;
      }
      keys := keys - {p};
    }
    return true;
  }

  lemma {:induction false} SameViewSymmetric(s1: map<string, Val>, s2: map<string, Val>)
    ensures SameView(s1, s2) <==> SameView(s2, s1)
  {
  }

  /** Distribution parameters: numbers, arrays (compared deeply) and other objects. */
  datatype Param = PNum(x: real) | PArray(items: seq<Param>) | PObject(id: nat)

  function GetParam(m: map<string, Param>, k: string): Option<Param> {
    if k in m then Some(m[k]) else None
  }

  /** The test `distParamsEqual` applies to the entry of p1 at key k. */
  predicate ParamAgrees(p1: map<string, Param>, p2: map<string, Param>, k: string)
    requires k in p1
  {
    match p1[k]
    case PNum(_) => GetParam(p2, k) == Some(p1[k])
    case PArray(_) => GetParam(p2, k) == Some(p1[k])
    case PObject(_) => false
  }

  /**
   * `distParamsEqual`: identical parameter objects are equal; otherwise every
   * key of p1 must hold a number or array equal to p2's. Keys only in p2 are
   * not looked at.
   */
  method DistParamsEqual(p1: map<string, Param>, p2: map<string, Param>, same: bool) returns (r: bool)
    requires same ==> p1 == p2
    ensures r <==> same || forall k :: k in p1 ==> ParamAgrees(p1, p2, k)
  {
    if same {
      return true;
    }
    var keys := p1.Keys;
    while keys != {}
      invariant keys <= p1.Keys
      invariant forall k :: k in p1.Keys - keys ==> ParamAgrees(p1, p2, k)
      decreases |keys|
    {
      var k :| k in keys;
      if !ParamAgrees(p1, p2, k) {
        return false;
      }
      keys := keys - {k};
    }
    return true;
  }

  /** The parameter test is one-sided: extra keys of the second object go unnoticed. */
  lemma {:induction false} DistParamsEqualOneSided()
    ensures forall k :: k in map["a" := PNum(1.0)] ==> ParamAgrees(map["a" := PNum(1.0)], map["a" := PNum(1.0), "b" := PNum(2.0)], k)
    ensures exists k :: k in map["a" := PNum(1.0), "b" := PNum(2.0)] && !ParamAgrees(map["a" := PNum(1.0), "b" := PNum(2.0)], map["a" := PNum(1.0)], k)
  {
    var big := map["a" := PNum(1.0), "b" := PNum(2.0)];
    assert "b" in big && !ParamAgrees(big, map["a" := PNum(1.0)], "b");
  }

  /** The nodes at positions lo up to hi of `cs`, both cut down to its length. */
  function Range(cs: seq<Node>, lo: nat, hi: nat): (r: seq<Node>)
    ensures forall k :: lo <= k < hi && k < |cs| ==> cs[k] in r
  {
    var l := if lo < |cs| then lo else |cs|;
    var h := if hi < |cs| then (if hi < l then l else hi) else |cs|;
    assert forall k :: l <= k < h ==> cs[l..h][k - l] == cs[k];
    cs[l..h]
  }

  lemma {:induction false} RangeExtend(cs: seq<Node>, lo: nat, i: nat)
    requires lo <= i < |cs|
    ensures Range(cs, lo, i + 1) == Range(cs, lo, i) + [cs[i]]
  {
  }

  lemma {:induction false} RangeToEnd(cs: seq<Node>, lo: nat, hi: nat)
    requires hi >= |cs|
    ensures Range(cs, lo, hi) == Range(cs, lo, |cs|)
  {
  }

  /**
   * `notifyChildChanged(child)`: every child after `child` in execution order
   * is touched and marked unreachable; the other children are left alone.
   */
  method NotifyChildChanged(parent: Node, child: Node)
    requires parent !in parent.Children()
    modifies parent.Children()
    modifies set n | n in parent.Children() :: n.coroutine
    ensures parent.Children() == old(parent.Children())
    ensures forall j :: child.index < j < |parent.Children()| ==>
      Get(parent.Children()[j].props, "reachable") == Bool(false) && parent.Children()[j].snapshot.Some?
    ensures forall n :: n in parent.Children() && n !in Range(parent.Children(), child.index + 1, |parent.Children()|) ==>
      n.props == old(n.props) && n.snapshot == old(n.snapshot)
  {
    var cs := parent.Children();
    MarkFrom(cs, child.index + 1);
    assert parent.Children() == cs;
  }

  /** The loop of `notifyChildChanged`: the nodes of `cs` from position `start` on are marked unreachable. */
  method MarkFrom(cs: seq<Node>, start: nat)
    modifies cs, set n | n in cs :: n.coroutine
    ensures forall j :: start <= j < |cs| ==> Get(cs[j].props, "reachable") == Bool(false) && cs[j].snapshot.Some?
    ensures forall n :: n in cs && n !in Range(cs, start, |cs|) ==> n.props == old(n.props) && n.snapshot == old(n.snapshot)
    ensures forall n :: n in cs ==> n.index == old(n.index)
  {
    var i := start;
    while i < |cs|
      invariant start <= i && (i > |cs| ==> i == start)
      invariant forall j :: start <= j < i && j < |cs| ==> Get(cs[j].props, "reachable") == Bool(false) && cs[j].snapshot.Some?
      invariant forall n :: n in cs && n !in Range(cs, start, i) ==> n.props == old(n.props) && n.snapshot == old(n.snapshot)
      invariant forall n :: n in cs ==> n.index == old(n.index)
    {
      RangeExtend(cs, start, i);
      MarkUnreachable(cs[i]);
      i := i + 1;
    }
    RangeToEnd(cs, start, i);
  }

  /** `touch(node)`, then `node.reachable = false`. */
  method MarkUnreachable(node: Node)
    modifies node, node.coroutine
    ensures node.props == old(node.props)["reachable" := Bool(false)] && node.snapshot.Some?
    ensures node.parent == old(node.parent) && node.index == old(node.index) && node.nextChildIdx == old(node.nextChildIdx)
  {
    Touch(node);
    node.props := node.props["reachable" := Bool(false)];
  }

  /** The first index from `from` on whose node has address `a`. */
  predicate IsFirstMatch(cs: seq<Node>, from: nat, a: string, i: nat)
    reads set j | 0 <= j < |cs| :: cs[j]
  {
    from <= i < |cs| && cs[i].address == a && forall j :: from <= j < i ==> cs[j].address != a
  }

  function Swap<T>(s: seq<T>, i: nat, j: nat): seq<T>
    requires i < |s| && j < |s|
  {
    s[i := s[j]][j := s[i]]
  }

  /**
   * `findNode(parentNode, address)`: nothing before initialisation; otherwise
   * the first child at or after `nextChildIdx` with that address, which is
   * swapped into position `nextChildIdx` (snapshotting `children` first).
   */
  method FindNode(parentNode: Node, a: string, initialized: bool) returns (r: Option<Node>)
    requires "children" in parentNode.props && parentNode.props["children"].Nodes?
    modifies parentNode, parentNode.coroutine
    ensures !initialized ==> r.None?
    ensures r.Some? <==> initialized && exists i :: old(parentNode.nextChildIdx) <= i < |old(parentNode.Children())| &&
                                                     old(parentNode.Children())[i].address == a
    ensures r.Some? ==> exists i: nat :: (IsFirstMatch(old(parentNode.Children()), parentNode.nextChildIdx, a, i) &&
                                          parentNode.Children() == Swap(old(parentNode.Children()), i, parentNode.nextChildIdx) &&
                                          r.value == old(parentNode.Children())[i])
    ensures r.None? ==> parentNode.Children() == old(parentNode.Children())
    ensures parentNode.nextChildIdx == old(parentNode.nextChildIdx) && parentNode.parent == old(parentNode.parent)
  {
    if !initialized {
      return None;
    }
    var nodes := parentNode.Children();
    var nexti := parentNode.nextChildIdx;
    var i := nexti;
    while i < |nodes|
      invariant nexti <= i || |nodes| <= nexti
      invariant forall j :: nexti <= j < i && j < |nodes| ==> nodes[j].address != a
    {
      if nodes[i].address == a {
        if i != nexti {
          var swapped := Swap(nodes, i, nexti);
          if !HasSnapshotForProperty(parentNode, "children") {
            UpdateProperty(parentNode, "children", Nodes(swapped));
          } else {
            parentNode.props := parentNode.props["children" := Nodes(swapped)];
          }
          assert IsFirstMatch(nodes, nexti, a, i);
          return Some(swapped[nexti]);
        }
        assert IsFirstMatch(nodes, nexti, a, i);
        assert Swap(nodes, i, nexti) == nodes;
        return Some(nodes[nexti]);
      }
      i := i + 1;
    }
    return None;
  }

  /** Setting a key to the value it already has leaves the map as it is. */
  lemma {:induction false} UpdateWithSame(m: map<string, string>, k: string)
    requires k in m
    ensures m[k := m[k]] == m
  {
  }

  /** Hit statistics of one call site. */
  datatype Stats = Stats(shouldCache: bool, hits: nat, total: nat)

  /** Setting a key twice keeps the second value. */
  lemma {:induction false} OverwriteStats(m: map<string, Stats>, k: string, a: Stats, b: Stats)
    ensures m[k := a][k := b] == m[k := b]
  {
  }

  const NewStats := Stats(true, 0, 0)

  /**
   * When a node's statistics make its call site a candidate for removal from
   * the cache: not the root, enough iterations run, enough lookups seen, and a
   * hit rate below the minimum.
   */
  predicate ShouldMark(isRoot: bool, iterationsRun: int, iterFuseLength: int, s: Stats, fuseLength: int, minHitRate: real) {
    !isRoot && iterationsRun > iterFuseLength && s.total >= fuseLength && s.total > 0 &&
    (s.hits as real) / (s.total as real) < minHitRate
  }

  class CacheAdapter {
    const minHitRate: real
    const fuseLength: int
    const iterFuseLength: int
    var addrToId: map<string, string>
    var stats: map<string, Stats>
    var idsToRemove: set<string>
    var hasIdsToRemove: bool

    ghost predicate Valid()
      reads this
    {
      (forall a :: a in addrToId ==> addrToId[a] == LastSegment(a, '_')) &&
      (forall id :: id in stats ==> stats[id].hits <= stats[id].total) &&
      idsToRemove <= stats.Keys &&
      (hasIdsToRemove <==> idsToRemove != {})
    }

    constructor (minHitRate: real, fuseLength: int, iterFuseLength: int)
      ensures Valid() && this.minHitRate == minHitRate && this.fuseLength == fuseLength
      ensures this.iterFuseLength == iterFuseLength
      ensures addrToId == map[] && stats == map[] && idsToRemove == {} && !hasIdsToRemove
    {
      this.minHitRate := minHitRate;
      this.fuseLength := fuseLength;
      this.iterFuseLength := iterFuseLength;
      addrToId := map[];
      stats := map[];
      idsToRemove := {};
      hasIdsToRemove := false;
    }

    /** `id(addr)`: the last `_`-separated segment of the address, memoised. */
    method Id(addr: string) returns (id: string)
      requires Valid()
      modifies this
      ensures Valid() && id == LastSegment(addr, '_') && addr in addrToId
      ensures addrToId == old(addrToId)[addr := id]
      ensures stats == old(stats) && idsToRemove == old(idsToRemove) && hasIdsToRemove == old(hasIdsToRemove)
    {
      if addr in addrToId {
        id := addrToId[addr];
        UpdateWithSame(addrToId, addr);
      } else {
        var parts := Split(addr, '_');
        id := parts[|parts| - 1];
        assert id == LastSegment(addr, '_');
        addrToId := addrToId[addr := id];
      }
    }

    /** `getStats(addr)`: the statistics of the address's id, created fresh on first use. */
    method GetStats(addr: string) returns (s: Stats)
      requires Valid()
      modifies this
      ensures Valid() && LastSegment(addr, '_') in stats && s == stats[LastSegment(addr, '_')]
      ensures LastSegment(addr, '_') in old(stats) ==> stats == old(stats)
      ensures LastSegment(addr, '_') !in old(stats) ==> stats == old(stats)[LastSegment(addr, '_') := NewStats]
      ensures idsToRemove == old(idsToRemove) && hasIdsToRemove == old(hasIdsToRemove)
    {
      var id := Id(addr);
      if id in stats {
        s := stats[id];
      } else {
        s := NewStats;
        stats := stats[id := s];
      }
    }

    method ShouldCache(addr: string) returns (b: bool)
      requires Valid()
      modifies this
      ensures Valid()
      ensures LastSegment(addr, '_') !in old(stats) ==> b
      ensures LastSegment(addr, '_') in old(stats) ==> b == old(stats)[LastSegment(addr, '_')].shouldCache
    {
      var s := GetStats(addr);
      b := s.shouldCache;
    }

    /**
     * `registerHit` (`hit` true) and `registerMiss` (`hit` false): count the
     * lookup, and mark the id for removal when `ShouldMark` holds afterwards.
     * `isRoot` is `node.parent === null` and `iterationsRun` is
     * `totalIterations - iterations` of the node's coroutine.
     */
    method Register(addr: string, hit: bool, isRoot: bool, iterationsRun: int)
      requires Valid()
      modifies this
      ensures Valid()
      ensures var id := LastSegment(addr, '_');
        var before := if id in old(stats) then old(stats)[id] else NewStats;
        var after := before.(hits := before.hits + (if hit then 1 else 0), total := before.total + 1);
        stats == old(stats)[id := after] &&
        (ShouldMark(isRoot, iterationsRun, iterFuseLength, after, fuseLength, minHitRate) ==>
          idsToRemove == old(idsToRemove) + {id} && hasIdsToRemove) &&
        (!ShouldMark(isRoot, iterationsRun, iterFuseLength, after, fuseLength, minHitRate) ==>
          idsToRemove == old(idsToRemove) && hasIdsToRemove == old(hasIdsToRemove))
    {
      var s := GetStats(addr);
      var id := Id(addr);
      assert s == if id in old(stats) then old(stats)[id] else NewStats;
      s := s.(hits := s.hits + (if hit then 1 else 0), total := s.total + 1);
      if id !in old(stats) {
        OverwriteStats(old(stats), id, NewStats, s);
      }
      stats := stats[id := s];
      if ShouldMark(isRoot, iterationsRun, iterFuseLength, s, fuseLength, minHitRate) {
        idsToRemove := idsToRemove + {id};
        hasIdsToRemove := true;
      }
    }

    /**
     * `adapt`: switch caching off for every marked id and clear the marks.
     * Removing the marked nodes from the cache tree is not part of this model.
     */
    method Adapt()
      requires Valid()
      modifies this
      ensures Valid() && idsToRemove == {} && !hasIdsToRemove
      ensures stats.Keys == old(stats).Keys
      ensures forall id :: id in stats ==>
        stats[id] == if id in old(idsToRemove) then old(stats)[id].(shouldCache := false) else old(stats)[id]
    {
      if hasIdsToRemove {
        var ids := idsToRemove;
        while ids != {}
          invariant ids <= idsToRemove <= stats.Keys && stats.Keys == old(stats).Keys
          invariant idsToRemove == old(idsToRemove) && Valid()
          invariant forall id :: id in stats ==>
            stats[id] == if id in old(idsToRemove) - ids then old(stats)[id].(shouldCache := false) else old(stats)[id]
          decreases |ids|
        {
          var id :| id in ids;
          stats := stats[id := stats[id].(shouldCache := false)];
          ids := ids - {id};
        }
        idsToRemove := {};
        hasIdsToRemove := false;
      }
    }
  }

  /** `ArrayDistMasterList`: the random-choice nodes in a list, pruned after each proposal. */
  class ArrayDistMasterList {
    var distNodes: seq<Node>
    var oldDistNodes: Option<seq<Node>>

    constructor ()
      ensures distNodes == [] && oldDistNodes.None?
    {
      distNodes := [];
      oldDistNodes := None;
    }

    function Size(): nat
      reads this
    {
      |distNodes|
    }

    function OldSize(): (r: Option<nat>)
      reads this
      ensures r.Some? <==> oldDistNodes.Some?
      ensures r.Some? ==> r.value == |oldDistNodes.value|
    {
      if oldDistNodes.None? then None else Some(|oldDistNodes.value|)
    }

    method AddDist(node: Node)
      modifies this
      ensures distNodes == old(distNodes) + [node] && oldDistNodes == old(oldDistNodes)
    {
      distNodes := distNodes + [node];
    }

    /** `removeDist`: mark the node unreachable; it leaves the list at `postProposal`. */
    method RemoveDist(node: Node)
      modifies node, node.coroutine
      ensures Get(node.props, "reachable") == Bool(false) && node.snapshot.Some?
      ensures node.props == old(node.props)["reachable" := Bool(false)]
    {
      MarkUnreachable(node);
    }

    method PreProposal()
      modifies this
      ensures oldDistNodes == Some(distNodes) && distNodes == old(distNodes)
    {
      oldDistNodes := Some(distNodes);
    }

    /** `postProposal`: keep exactly the reachable nodes, in order. */
    method PostProposal()
      modifies this
      ensures distNodes == KeepReachable(old(distNodes)) && oldDistNodes == old(oldDistNodes)
    {
      distNodes := KeepReachable(distNodes);
    }

    /** `getRandom` for a uniform draw u in [0, 1) supplied by the caller. */
    function GetRandom(u: real): (r: Option<Node>)
      requires 0.0 <= u < 1.0
      reads this
      ensures r.Some? <==> |distNodes| > 0
      ensures r.Some? ==> r.value in distNodes
    {
      var idx := (u * |distNodes| as real).Floor;
      assert 0 <= idx <= |distNodes| by {
        assert 0.0 <= u * |distNodes| as real;
        assert u * |distNodes| as real <= |distNodes| as real;
      }
      if idx < |distNodes| then Some(distNodes[idx]) else None
    }

    /** `restoreOnReject`: go back to the list saved by `preProposal`. */
    method RestoreOnReject()
      requires oldDistNodes.Some?
      modifies this
      ensures distNodes == old(oldDistNodes.value) && oldDistNodes == old(oldDistNodes)
    {
      distNodes := oldDistNodes.value;
    }
  }

  /** The reachable nodes of `ns`, in order. */
  function KeepReachable(ns: seq<Node>): (r: seq<Node>)
    reads set i | 0 <= i < |ns| :: ns[i]
    ensures forall n :: n in r ==> n in ns && Truthy(Get(n.props, "reachable"))
    ensures forall n :: n in ns && Truthy(Get(n.props, "reachable")) ==> n in r
    ensures |r| <= |ns|
  {
    if ns == [] then []
    else
      var rest := KeepReachable(ns[1..]);
      if Truthy(Get(ns[0].props, "reachable")) then [ns[0]] + rest else rest
  }

  /** The addresses of a list of nodes. */
  function AddressSet(ns: seq<Node>): set<string> {
    set i | 0 <= i < |ns| :: ns[i].address
  }

  /** The addresses of a non-empty list: the first one and those of the rest. */
  lemma {:induction false} AddressSetCons(ns: seq<Node>)
    requires ns != []
    ensures AddressSet(ns) == AddressSet(ns[1..]) + {ns[0].address}
  {
    assert ns == [ns[0]] + ns[1..];
    forall a | a in AddressSet(ns) ensures a in AddressSet(ns[1..]) + {ns[0].address} {
      var i :| 0 <= i < |ns| && ns[i].address == a;
      if i > 0 {
        assert ns[1..][i - 1] == ns[i];
      }
    }
    forall a | a in AddressSet(ns[1..]) ensures a in AddressSet(ns) {
      var i :| 0 <= i < |ns[1..]| && ns[1..][i].address == a;
      assert ns[i + 1] == ns[1..][i];
    }
  }

  /** The table that putting the nodes of `ns` in order builds (a later node wins). */
  ghost function PutAll(ns: seq<Node>): map<string, Node> {
    if ns == [] then map[] else PutAll(ns[..|ns| - 1])[ns[|ns| - 1].address := ns[|ns| - 1]]
  }

  /** The table that putting the nodes of `ns` newest first builds (an earlier node wins). */
  ghost function PutAllReversed(ns: seq<Node>): map<string, Node> {
    if ns == [] then map[] else PutAllReversed(ns[1..])[ns[0].address := ns[0]]
  }

  lemma {:induction false} PutAllKeys(ns: seq<Node>)
    ensures PutAll(ns).Keys == AddressSet(ns)
  {
    if ns != [] {
      var init := ns[..|ns| - 1];
      PutAllKeys(init);
      assert ns == init + [ns[|ns| - 1]];
      assert AddressSet(ns) == AddressSet(init) + {ns[|ns| - 1].address} by {
        forall a | a in AddressSet(ns) ensures a in AddressSet(init) + {ns[|ns| - 1].address} {
          var i :| 0 <= i < |ns| && ns[i].address == a;
          if i < |ns| - 1 {
            assert init[i] == ns[i];
          }
        }
        forall a | a in AddressSet(init) ensures a in AddressSet(ns) {
          var i :| 0 <= i < |init| && init[i].address == a;
          assert ns[i] == init[i];
        }
      }
    }
  }

  /** Putting back nodes that all come from `base` gives a part of `base`. */
  lemma {:induction false} PutAllReversedFromBase(ns: seq<Node>, base: map<string, Node>)
    requires forall i :: 0 <= i < |ns| ==> ns[i].address in base && base[ns[i].address] == ns[i]
    ensures PutAllReversed(ns).Keys == AddressSet(ns)
    ensures forall a :: a in PutAllReversed(ns) ==> a in base && PutAllReversed(ns)[a] == base[a]
  {
    if ns != [] {
      var tail := ns[1..];
      assert forall i :: 0 <= i < |tail| ==> tail[i] == ns[i + 1];
      PutAllReversedFromBase(tail, base);
      assert AddressSet(ns) == AddressSet(tail) + {ns[0].address} by {
        forall a | a in AddressSet(ns) ensures a in AddressSet(tail) + {ns[0].address} {
          var i :| 0 <= i < |ns| && ns[i].address == a;
          if i > 0 {
            assert tail[i - 1] == ns[i];
          }
        }
        forall a | a in AddressSet(tail) ensures a in AddressSet(ns) {
          var i :| 0 <= i < |tail| && tail[i].address == a;
          assert ns[i + 1] == tail[i];
        }
      }
    }
  }

  /**
   * A log explains a table: the removed nodes are entries of `base`, the
   * added ones are not in what is left of `base`, and the table is `base`
   * without the removed addresses, with the added nodes put in.
   */
  ghost predicate Explains(base: map<string, Node>, removed: seq<Node>, added: seq<Node>, table: map<string, Node>) {
    (forall i :: 0 <= i < |removed| ==> removed[i].address in base && base[removed[i].address] == removed[i]) &&
    (forall i :: 0 <= i < |added| ==> added[i].address !in base.Keys - AddressSet(removed)) &&
    table == (base - AddressSet(removed)) + PutAll(added)
  }

  /** Adding a node whose address is not in the table keeps the log explaining it. */
  lemma {:induction false} AddExplained(base: map<string, Node>, removed: seq<Node>, added: seq<Node>, table: map<string, Node>, node: Node)
    requires Explains(base, removed, added, table) && node.address !in table
    ensures Explains(base, removed, added + [node], table[node.address := node])
  {
    var added' := added + [node];
    assert added'[..|added'| - 1] == added && added'[|added'| - 1] == node;
    assert PutAll(added') == PutAll(added)[node.address := node];
    assert forall i :: 0 <= i < |added| ==> added'[i] == added[i];
  }

  /** Removing a node the table held from before the proposal keeps the log explaining it. */
  lemma {:induction false} RemoveExplained(base: map<string, Node>, removed: seq<Node>, added: seq<Node>, table: map<string, Node>, node: Node)
    requires Explains(base, removed, added, table)
    requires node.address in table && table[node.address] == node && node.address !in AddressSet(added)
    ensures Explains(base, removed + [node], added, table - {node.address})
  {
    var removed' := removed + [node];
    PutAllKeys(added);
    assert AddressSet(removed') == AddressSet(removed) + {node.address} by {
      assert forall i :: 0 <= i < |removed| ==> removed'[i] == removed[i];
      assert removed'[|removed|] == node;
    }
    assert forall i :: 0 <= i < |removed| ==> removed'[i] == removed[i];
    assert node.address in base && base[node.address] == node;
    assert table - {node.address} == (base - AddressSet(removed')) + PutAll(added);
  }

  /** Taking out the added addresses and putting back the removed nodes gives `base` again. */
  lemma {:induction false} UndoLog(base: map<string, Node>, added: seq<Node>, removed: seq<Node>, table: map<string, Node>)
    requires Explains(base, removed, added, table)
    ensures (table - AddressSet(added)) + PutAllReversed(removed) == base
  {
    PutAllKeys(added);
    var left := base - AddressSet(removed);
    UndoAdds(left, PutAll(added), AddressSet(added));
    PutAllReversedFromBase(removed, base);
    UndoRemoves(base, AddressSet(removed), PutAllReversed(removed));
  }

  lemma {:induction false} UndoAdds(left: map<string, Node>, put: map<string, Node>, addrs: set<string>)
    requires put.Keys == addrs && addrs !! left.Keys
    ensures (left + put) - addrs == left
  {
  }

  lemma {:induction false} UndoRemoves(base: map<string, Node>, addrs: set<string>, back: map<string, Node>)
    requires back.Keys == addrs
    requires forall a :: a in back ==> a in base && back[a] == base[a]
    ensures (base - addrs) + back == base
  {
  }

  /**
   * `HashtableDistMasterList`: the random-choice nodes in a table keyed by
   * address, with a log of what a proposal added and removed so that a
   * rejection can undo it. `base` (ghost) is the table at `preProposal`.
   */
  class HashtableDistMasterList {
    var distNodeMap: map<string, Node>
    var distsAdded: seq<Node>
    var distsRemoved: seq<Node>
    var numDists: int
    var oldNumDists: int
    ghost var base: map<string, Node>

    constructor ()
      ensures distNodeMap == map[] && distsAdded == [] && distsRemoved == [] && numDists == 0
      ensures Logged()
    {
      distNodeMap := map[];
      distsAdded := [];
      distsRemoved := [];
      numDists := 0;
      oldNumDists := 0;
      base := map[];
    }

    /**
     * The log explains the table: the removed nodes are entries of `base`, the
     * added ones are not in what is left of `base`, and the table is `base`
     * without the removed addresses, with the added nodes put in.
     */
    ghost predicate Logged()
      reads this
    {
      Explains(base, distsRemoved, distsAdded, distNodeMap) &&
      numDists == oldNumDists + |distsAdded| - |distsRemoved|
    }

    function Size(): int
      reads this
    {
      numDists
    }

    function OldSize(): int
      reads this
    {
      oldNumDists
    }

    /** `addDist`; a node whose address is new keeps the log explaining the table. */
    method AddDist(node: Node)
      modifies this
      ensures distNodeMap == old(distNodeMap)[node.address := node]
      ensures distsAdded == old(distsAdded) + [node] && distsRemoved == old(distsRemoved)
      ensures numDists == old(numDists) + 1 && base == old(base) && oldNumDists == old(oldNumDists)
      ensures old(Logged()) && node.address !in old(distNodeMap) ==> Logged()
    {
      if Logged() && node.address !in distNodeMap {
        AddExplained(base, distsRemoved, distsAdded, distNodeMap, node);
      }
      distNodeMap := distNodeMap[node.address := node];
      distsAdded := distsAdded + [node];
      numDists := numDists + 1;
    }

    /**
     * `removeDist`; removing a node the table held before the proposal keeps
     * the log explaining the table.
     */
    method RemoveDist(node: Node)
      modifies this
      ensures distNodeMap == old(distNodeMap) - {node.address}
      ensures distsRemoved == old(distsRemoved) + [node] && distsAdded == old(distsAdded)
      ensures numDists == old(numDists) - 1 && base == old(base) && oldNumDists == old(oldNumDists)
      ensures (old(Logged()) && node.address in old(distNodeMap) && old(distNodeMap)[node.address] == node &&
               node.address !in AddressSet(distsAdded)) ==> Logged()
    {
      if Logged() && node.address in distNodeMap && distNodeMap[node.address] == node && node.address !in AddressSet(distsAdded) {
        RemoveExplained(base, distsRemoved, distsAdded, distNodeMap, node);
      }
      distNodeMap := distNodeMap - {node.address};
      distsRemoved := distsRemoved + [node];
      numDists := numDists - 1;
    }

    /** `preProposal`: remember the count and start an empty log. */
    method PreProposal()
      modifies this
      ensures oldNumDists == old(numDists) && distsAdded == [] && distsRemoved == []
      ensures distNodeMap == old(distNodeMap) && numDists == old(numDists)
      ensures Logged() && base == distNodeMap
    {
      oldNumDists := numDists;
      distsAdded := [];
      distsRemoved := [];
      base := distNodeMap;
    }

    /**
     * `restoreOnReject`: restore the count, then undo the adds and the removes,
     * both newest first. When the log explains the table, what comes back is
     * exactly the table at `preProposal`.
     */
    method RestoreOnReject()
      modifies this
      ensures numDists == old(oldNumDists) && distsAdded == old(distsAdded) && distsRemoved == old(distsRemoved)
      ensures oldNumDists == old(oldNumDists) && base == old(base)
      ensures old(Logged()) ==> distNodeMap == old(base)
    {
      numDists := oldNumDists;
      ClearAdded();
      PutBackRemoved();
      if old(Logged()) {
        UndoLog(base, distsAdded, distsRemoved, old(distNodeMap));
      }
    }

    /** The first loop of `restoreOnReject`: delete the added addresses, newest first. */
    method ClearAdded()
      modifies this
      ensures distNodeMap == old(distNodeMap) - AddressSet(distsAdded)
      ensures numDists == old(numDists) && distsAdded == old(distsAdded) && distsRemoved == old(distsRemoved)
      ensures oldNumDists == old(oldNumDists) && base == old(base)
    {
      var n := |distsAdded|;
      while n > 0
        invariant 0 <= n <= |distsAdded|
        invariant distNodeMap == old(distNodeMap) - AddressSet(distsAdded[n..])
        invariant numDists == old(numDists) && distsAdded == old(distsAdded) && distsRemoved == old(distsRemoved)
        invariant oldNumDists == old(oldNumDists) && base == old(base)
      {
        n := n - 1;
        AddressSetCons(distsAdded[n..]);
        assert distsAdded[n..][1..] == distsAdded[n + 1..];
        distNodeMap := distNodeMap - {distsAdded[n].address};
      }
      assert distsAdded[0..] == distsAdded;
    }

    /** The second loop of `restoreOnReject`: put the removed nodes back, newest first. */
    method PutBackRemoved()
      modifies this
      ensures distNodeMap == old(distNodeMap) + PutAllReversed(distsRemoved)
      ensures numDists == old(numDists) && distsAdded == old(distsAdded) && distsRemoved == old(distsRemoved)
      ensures oldNumDists == old(oldNumDists) && base == old(base)
    {
      var n := |distsRemoved|;
      while n > 0
        invariant 0 <= n <= |distsRemoved|
        invariant distNodeMap == old(distNodeMap) + PutAllReversed(distsRemoved[n..])
        invariant numDists == old(numDists) && distsAdded == old(distsAdded) && distsRemoved == old(distsRemoved)
        invariant oldNumDists == old(oldNumDists) && base == old(base)
      {
        n := n - 1;
        assert distsRemoved[n..][1..] == distsRemoved[n + 1..];
        distNodeMap := distNodeMap[distsRemoved[n].address := distsRemoved[n]];
      }
      assert distsRemoved[0..] == distsRemoved;
    }
  }
}
