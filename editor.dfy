// The literate editor of the browser front end (src/index.js): files of
// blocks kept in a map from integer ids, shown in `orderingKey` order.

module Editor {
  import opened Wrappers
  import JsString

  /** A block of a file: its `type`, its text and the key it is ordered by. */
  datatype Block = Block(kind: string, content: string, orderingKey: int)

  /** A file of the editor: its name and its blocks by id. */
  datatype File = File(name: string, blocks: map<nat, Block>)

  /** A copy of a block tagged with its `id`, as `getOrderedBlockList` returns it. */
  datatype Tagged = Tagged(id: nat, block: Block)

  // ---------------------------------------------------------------------------
  // Largest and smallest keys.

  lemma {:induction false} HasMax(s: set<int>)
    requires s != {}
    ensures exists m :: m in s && forall y :: y in s ==> y <= m
    decreases |s|
  {
    assert (forall y :: y !in s) ==> s == {};
    var x :| x in s;
    var s' := s - {x};
    if s' == {} {
      assert forall y :: y in s ==> y == x by {
        assert forall y :: y in s && y != x ==> y in s';
      }
      assert forall y :: y in s ==> y <= x;
    } else {
      HasMax(s');
      var m :| m in s' && forall y :: y in s' ==> y <= m;
      var top := if x > m then x else m;
      assert forall y :: y in s ==> y == x || y in s';
      assert top in s && forall y :: y in s ==> y <= top;
    }
  }

  /** `_.max` of a non-empty collection. */
  function Max(s: set<int>): (m: int)
    requires s != {}
    ensures m in s && forall y :: y in s ==> y <= m
  {
    HasMax(s);
    var m :| m in s && forall y :: y in s ==> y <= m;
    m
  }

  /**
   * `nextIntegerKey`: the least number above every key, which is one more
   * than the largest key, or 0 when there is none.
   */
  function NextIntegerKey<T>(m: map<nat, T>): (k: nat)
    ensures k !in m && forall j :: j in m ==> j < k
    ensures k == 0 || k - 1 in m
  {
    if |m| == 0 then 0
    else
      assert (forall j :: j !in m) ==> m == map[];
      var top := Max(m.Keys);
      top + 1
  }

  // ---------------------------------------------------------------------------
  // The ordered block list.

  /** The stable `_.sortBy` on `orderingKey` places x after every block whose key is not greater. */
  function InsertByKey(s: seq<Tagged>, x: Tagged): (r: seq<Tagged>)
    ensures |r| == |s| + 1
  {
    if s == [] then [x]
    else if x.block.orderingKey < s[0].block.orderingKey then [x] + s
    else [s[0]] + InsertByKey(s[1..], x)
  }

  /** Inserting adds x and keeps every other element. */
  lemma {:induction false} InsertByKeyHas(s: seq<Tagged>, x: Tagged)
    ensures forall y :: y in InsertByKey(s, x) <==> y in s || y == x
    decreases |s|
  {
    if s != [] && x.block.orderingKey >= s[0].block.orderingKey {
      InsertByKeyHas(s[1..], x);
      assert s == [s[0]] + s[1..];
    }
  }

  /**
   * `getOrderedBlockList`: the blocks tagged with their ids, in the order
   * the stable `_.sortBy` on `orderingKey` leaves them when `_.values`
   * lists them by increasing id: each block in turn, from the smallest id
   * up, goes after every block whose key is not greater.
   */
  function OrderedBlockList(blocks: map<nat, Block>): (r: seq<Tagged>)
    ensures |r| == |blocks|
    decreases |blocks|
  {
    if |blocks| == 0 then []
    else
      assert (forall j :: j !in blocks) ==> blocks == map[];
      var top: nat := Max(blocks.Keys);
      InsertByKey(OrderedBlockList(blocks - {top}), Tagged(top, blocks[top]))
  }

  /** Display order: by ordering key, blocks with equal keys by id. */
  predicate InOrder(x: Tagged, y: Tagged) {
    x.block.orderingKey < y.block.orderingKey || (x.block.orderingKey == y.block.orderingKey && x.id < y.id)
  }

  predicate Ordered(s: seq<Tagged>) {
    forall a, b :: 0 <= a < b < |s| ==> InOrder(s[a], s[b])
  }

  lemma {:induction false} InsertOrdered(s: seq<Tagged>, x: Tagged)
    requires Ordered(s)
    requires forall a :: 0 <= a < |s| ==> s[a].id < x.id
    ensures Ordered(InsertByKey(s, x))
    decreases |s|
  {
    if s == [] {
    } else if x.block.orderingKey < s[0].block.orderingKey {
      var r := [x] + s;
      forall a, b | 0 <= a < b < |r|
        ensures InOrder(r[a], r[b])
      {
        if a == 0 {
          assert r[b] == s[b - 1];
          assert InOrder(s[0], s[b - 1]) || b - 1 == 0;
        } else {
          assert r[a] == s[a - 1] && r[b] == s[b - 1];
        }
      }
    } else {
      var t := s[1..];
      assert Ordered(t) by {
        forall a, b | 0 <= a < b < |t|
          ensures InOrder(t[a], t[b])
        {
          assert t[a] == s[a + 1] && t[b] == s[b + 1];
        }
      }
      InsertOrdered(t, x);
      InsertByKeyHas(t, x);
      var r := [s[0]] + InsertByKey(t, x);
      forall a, b | 0 <= a < b < |r|
        ensures InOrder(r[a], r[b])
      {
        if a == 0 {
          var y := r[b];
          assert y in InsertByKey(t, x);
          if y == x {
            assert s[0].id < x.id;
          } else {
            assert y in t;
            var c :| 0 <= c < |t| && t[c] == y;
            assert InOrder(s[0], s[c + 1]);
          }
        } else {
          assert r[a] == InsertByKey(t, x)[a - 1] && r[b] == InsertByKey(t, x)[b - 1];
        }
      }
    }
  }

  /**
   * `getOrderedBlockList` lists every block of the map exactly once, tagged
   * with its id, in display order.
   */
  lemma {:induction false} OrderedSpec(blocks: map<nat, Block>)
    ensures Ordered(OrderedBlockList(blocks))
    ensures forall x :: x in OrderedBlockList(blocks) ==> x.id in blocks && blocks[x.id] == x.block
    ensures forall id :: id in blocks ==> Tagged(id, blocks[id]) in OrderedBlockList(blocks)
    decreases |blocks|
  {
    if |blocks| != 0 {
      assert (forall j :: j !in blocks) ==> blocks == map[];
      var top: nat := Max(blocks.Keys);
      var rest := blocks - {top};
      var last := Tagged(top, blocks[top]);
      OrderedSpec(rest);
      var prev := OrderedBlockList(rest);
      assert OrderedBlockList(blocks) == InsertByKey(prev, last);
      BelowTop(rest, prev, top);
      InsertOrdered(prev, last);
      InsertByKeyHas(prev, last);
      InsertedHas(blocks, rest, top, prev, InsertByKey(prev, last));
    }
  }

  lemma {:induction false} InsertedHas(blocks: map<nat, Block>, rest: map<nat, Block>, top: nat, prev: seq<Tagged>, r: seq<Tagged>)
    requires top in blocks && rest == blocks - {top}
    requires forall x :: x in prev ==> x.id in rest && rest[x.id] == x.block
    requires forall id :: id in rest ==> Tagged(id, rest[id]) in prev
    requires forall y :: y in r <==> y in prev || y == Tagged(top, blocks[top])
    ensures forall x :: x in r ==> x.id in blocks && blocks[x.id] == x.block
    ensures forall id :: id in blocks ==> Tagged(id, blocks[id]) in r
  {
    forall id | id in blocks
      ensures Tagged(id, blocks[id]) in r
    {
      if id != top {
        assert id in rest;
      }
    }
  }

  lemma {:induction false} BelowTop(rest: map<nat, Block>, prev: seq<Tagged>, top: nat)
    requires forall k :: k in rest ==> k < top
    requires forall x :: x in prev ==> x.id in rest
    ensures forall a :: 0 <= a < |prev| ==> prev[a].id < top
  {
    forall a | 0 <= a < |prev|
      ensures prev[a].id < top
    {
      assert prev[a] in prev;
    }
  }

  /** Two lists in display order with the same elements are the same list. */
  lemma {:induction false} OrderedUnique(s: seq<Tagged>, u: seq<Tagged>)
    requires Ordered(s) && Ordered(u)
    requires forall x :: x in s <==> x in u
    ensures s == u
    decreases |s|
  {
    if s == [] {
      Head(u);
    } else {
      Head(u);
      assert s[0] in s;
      SameHead(s, u);
      Rest(s);
      Rest(u);
      OrderedUnique(s[1..], u[1..]);
      assert s == [s[0]] + s[1..] && u == [u[0]] + u[1..];
    }
  }

  lemma {:induction false} Head(u: seq<Tagged>)
    ensures u == [] || u[0] in u
  {
  }

  /** The head of a list in display order comes before every other element. */
  lemma {:induction false} First(s: seq<Tagged>, x: Tagged)
    requires Ordered(s) && x in s
    ensures s[0] == x || InOrder(s[0], x)
  {
    var c :| 0 <= c < |s| && s[c] == x;
    if c > 0 {
      assert InOrder(s[0], s[c]);
    }
  }

  lemma {:induction false} SameHead(s: seq<Tagged>, u: seq<Tagged>)
    requires Ordered(s) && Ordered(u) && s != [] && u != []
    requires s[0] in u && u[0] in s
    ensures s[0] == u[0]
  {
    First(s, u[0]);
    First(u, s[0]);
  }

  /** Past the head of a list in display order come its other elements, in display order. */
  lemma {:induction false} Rest(s: seq<Tagged>)
    requires Ordered(s) && s != []
    ensures Ordered(s[1..])
    ensures forall x :: x in s[1..] <==> x in s && x != s[0]
  {
    Tail(s);
    forall x
      ensures x in s[1..] <==> x in s && x != s[0]
    {
      if x in s[1..] {
        var c :| 0 <= c < |s| - 1 && s[1..][c] == x;
        assert s[c + 1] == x && InOrder(s[0], s[c + 1]);
      }
      if x in s && x != s[0] {
        var c :| 0 <= c < |s| && s[c] == x;
        assert s[1..][c - 1] == x;
      }
    }
  }

  lemma {:induction false} Tail(s: seq<Tagged>)
    requires Ordered(s) && s != []
    ensures Ordered(s[1..])
  {
    forall a, b | 0 <= a < b < |s| - 1
      ensures InOrder(s[1..][a], s[1..][b])
    {
      assert s[1..][a] == s[a + 1] && s[1..][b] == s[b + 1];
    }
  }

  /** A list in display order of exactly the blocks of the map is its ordered block list. */
  lemma {:induction false} OrderedListOf(blocks: map<nat, Block>, s: seq<Tagged>)
    requires Ordered(s)
    requires forall x :: x in s ==> x.id in blocks && blocks[x.id] == x.block
    requires forall id :: id in blocks ==> Tagged(id, blocks[id]) in s
    ensures OrderedBlockList(blocks) == s
  {
    var r := OrderedBlockList(blocks);
    OrderedSpec(blocks);
    SameElements(blocks, r, s);
    OrderedUnique(r, s);
  }

  /** Two lists of exactly the blocks of a map have the same elements. */
  lemma {:induction false} SameElements(blocks: map<nat, Block>, r: seq<Tagged>, s: seq<Tagged>)
    requires forall x :: x in r ==> x.id in blocks && blocks[x.id] == x.block
    requires forall id :: id in blocks ==> Tagged(id, blocks[id]) in r
    requires forall x :: x in s ==> x.id in blocks && blocks[x.id] == x.block
    requires forall id :: id in blocks ==> Tagged(id, blocks[id]) in s
    ensures forall x :: x in r <==> x in s
  {
    forall x
      ensures x in r <==> x in s
    {
      if x in r || x in s {
        assert x == Tagged(x.id, blocks[x.id]);
      }
    }
  }

  // ---------------------------------------------------------------------------
  // Back from the list to the map.

  /** `newBlocks[id] = block` for each tagged block of the list, in order. */
  function MapOf(s: seq<Tagged>): map<nat, Block> {
    if s == [] then map[] else MapOf(s[..|s| - 1])[s[|s| - 1].id := s[|s| - 1].block]
  }

  /** When no id is listed twice, the rebuilt map holds exactly the listed blocks. */
  lemma {:induction false} MapOfHas(s: seq<Tagged>)
    requires forall a, b :: 0 <= a < b < |s| ==> s[a].id != s[b].id
    ensures forall id :: id in MapOf(s) <==> exists t :: 0 <= t < |s| && s[t].id == id
    ensures forall t :: 0 <= t < |s| ==> MapOf(s)[s[t].id] == s[t].block
    decreases |s|
  {
    if s != [] {
      var init := s[..|s| - 1];
      MapOfHas(init);
      forall id | id in MapOf(s)
        ensures exists t :: 0 <= t < |s| && s[t].id == id
      {
        if id != s[|s| - 1].id {
          var t :| 0 <= t < |init| && init[t].id == id;
          assert s[t] == init[t];
        }
      }
      forall id | exists t :: 0 <= t < |s| && s[t].id == id
        ensures id in MapOf(s)
      {
        var t :| 0 <= t < |s| && s[t].id == id;
        if t < |init| {
          assert init[t] == s[t];
        }
      }
      forall t | 0 <= t < |s|
        ensures MapOf(s)[s[t].id] == s[t].block
      {
        if t < |init| {
          assert init[t] == s[t];
        }
      }
    }
  }

  /** Ids in a display-ordered list of blocks of one map are different. */
  lemma {:induction false} OrderedIds(blocks: map<nat, Block>, s: seq<Tagged>)
    requires forall x :: x in s ==> x.id in blocks && blocks[x.id] == x.block
    requires Ordered(s)
    ensures forall a, b :: 0 <= a < b < |s| ==> s[a].id != s[b].id
  {
    forall a, b | 0 <= a < b < |s|
      ensures s[a].id != s[b].id
    {
      assert InOrder(s[a], s[b]);
      assert s[a] in s && s[b] in s;
    }
  }

  /** A display-ordered list of exactly the blocks of a map rebuilds that map. */
  lemma {:induction false} MapOfList(blocks: map<nat, Block>, s: seq<Tagged>)
    requires Ordered(s)
    requires forall x :: x in s ==> x.id in blocks && blocks[x.id] == x.block
    requires forall id :: id in blocks ==> Tagged(id, blocks[id]) in s
    ensures MapOf(s) == blocks
  {
    OrderedIds(blocks, s);
    MapOfHas(s);
    forall id | id in blocks
      ensures id in MapOf(s) && MapOf(s)[id] == blocks[id]
    {
      var t :| 0 <= t < |s| && s[t] == Tagged(id, blocks[id]);
    }
    forall id | id in MapOf(s)
      ensures id in blocks
    {
      var t :| 0 <= t < |s| && s[t].id == id;
      assert s[t] in s;
    }
    assert MapOf(s).Keys == blocks.Keys;
  }

  /** Rebuilding the map from the ordered list gives the map back. */
  lemma {:induction false} MapOfOrdered(blocks: map<nat, Block>)
    ensures MapOf(OrderedBlockList(blocks)) == blocks
  {
    OrderedSpec(blocks);
    MapOfList(blocks, OrderedBlockList(blocks));
  }

  // ---------------------------------------------------------------------------
  // Ordering keys and moves.

  /** No two blocks share an ordering key. */
  predicate DistinctKeys(blocks: map<nat, Block>) {
    forall a, b :: a in blocks && b in blocks && a != b ==> blocks[a].orderingKey != blocks[b].orderingKey
  }

  /**
   * `nextOrderingKey`: one more than the largest ordering key, or 0 when
   * there is no block.
   */
  function NextOrderingKey(blocks: map<nat, Block>): (k: int)
    ensures forall id :: id in blocks ==> blocks[id].orderingKey < k
    ensures blocks == map[] ==> k == 0
    ensures blocks != map[] ==> exists id :: id in blocks && blocks[id].orderingKey == k - 1
  {
    if |blocks| == 0 then 0
    else
      assert (forall j :: j !in blocks) ==> blocks == map[];
      var j :| j in blocks;
      var keys := set id | id in blocks :: blocks[id].orderingKey;
      assert blocks[j].orderingKey in keys;
      var top := Max(keys);
      assert forall id :: id in blocks ==> blocks[id].orderingKey in keys;
      top + 1
  }

  /** The ids of a list, in order. */
  function Ids(s: seq<Tagged>): (r: seq<nat>)
    ensures |r| == |s| && forall t :: 0 <= t < |s| ==> r[t] == s[t].id
  {
    if s == [] then [] else Ids(s[..|s| - 1]) + [s[|s| - 1].id]
  }

  /** `_.findIndex(list, function(block) { return block.id == blockId; })`: the first place of the id, or -1. */
  function FindId(s: seq<Tagged>, id: nat): (i: int)
    ensures -1 <= i < |s|
    ensures i >= 0 ==> s[i].id == id && forall j :: 0 <= j < i ==> s[j].id != id
    ensures i == -1 ==> forall j :: 0 <= j < |s| ==> s[j].id != id
  {
    if s == [] then -1
    else if s[0].id == id then 0
    else
      var r := FindId(s[1..], id);
      assert forall j :: 1 <= j < |s| ==> s[j] == s[1..][j - 1];
      if r == -1 then -1 else r + 1
  }

  /** The two blocks x and y with their ordering keys exchanged (both are always blocks of the map). */
  function Rekey(blocks: map<nat, Block>, x: nat, y: nat): map<nat, Block> {
    if x in blocks && y in blocks then
      blocks[x := blocks[x].(orderingKey := blocks[y].orderingKey)][y := blocks[y].(orderingKey := blocks[x].orderingKey)]
    else blocks
  }

  /** The `direction` argument of `moveBlock`: "up", "down", or any other string. */
  datatype Direction = Up | Down | Unknown

  function DirectionOf(direction: string): (d: Direction)
  {
    if direction == "up" then Up else if direction == "down" then Down else Unknown
  }

  /** What reading `orderedBlockList[-1].orderingKey` throws. */
  const MoveError := "TypeError: Cannot read property 'orderingKey' of undefined"

  /**
   * The blocks after `moveBlock`: the block exchanges ordering keys with
   * the one before it ("up") or after it ("down") in display order; an
   * unknown id moved "down" past a non-empty list reads before the start.
   */
  function Move(blocks: map<nat, Block>, blockId: nat, direction: Direction): Result<map<nat, Block>> {
    MoveIn(blocks, OrderedBlockList(blocks), blockId, direction)
  }

  /** `moveBlock` on the blocks listed in display order as `list`. */
  function MoveIn(blocks: map<nat, Block>, list: seq<Tagged>, blockId: nat, direction: Direction): Result<map<nat, Block>> {
    var i := FindId(list, blockId);
    if direction == Up && i > 0 then Ok(Rekey(blocks, list[i - 1].id, list[i].id))
    else if direction == Down && i < |list| - 1 then
      if i == -1 then Err(MoveError) else Ok(Rekey(blocks, list[i].id, list[i + 1].id))
    else Ok(blocks)
  }

  /** Exchanging two keys keeps the ids, the kinds and contents, and distinct keys. */
  lemma {:induction false} RekeyKeeps(blocks: map<nat, Block>, x: nat, y: nat)
    ensures Rekey(blocks, x, y).Keys == blocks.Keys
    ensures forall id :: id in blocks ==>
      Rekey(blocks, x, y)[id].kind == blocks[id].kind && Rekey(blocks, x, y)[id].content == blocks[id].content
    ensures forall id :: id in blocks && id != x && id != y ==> Rekey(blocks, x, y)[id] == blocks[id]
    ensures DistinctKeys(blocks) ==> DistinctKeys(Rekey(blocks, x, y))
  {
    var r := Rekey(blocks, x, y);
    if DistinctKeys(blocks) && x in blocks && y in blocks {
      forall a, b | a in r && b in r && a != b
        ensures r[a].orderingKey != r[b].orderingKey
      {
        var a' := if a == x then y else if a == y then x else a;
        var b' := if b == x then y else if b == y then x else b;
        assert r[a].orderingKey == blocks[a'].orderingKey;
        assert r[b].orderingKey == blocks[b'].orderingKey;
      }
    }
  }

  /** `moveBlock` fails exactly for an unknown id moved "down" when there are blocks. */
  lemma {:induction false} MoveFails(blocks: map<nat, Block>, blockId: nat, direction: Direction)
    ensures Move(blocks, blockId, direction).Err? <==> direction == Down && blockId !in blocks && |blocks| > 0
  {
    OrderedSpec(blocks);
    MoveInFails(blocks, OrderedBlockList(blocks), blockId, direction);
  }

  lemma {:induction false} MoveInFails(blocks: map<nat, Block>, list: seq<Tagged>, blockId: nat, direction: Direction)
    requires |list| == |blocks|
    requires forall x :: x in list ==> x.id in blocks && blocks[x.id] == x.block
    requires forall id :: id in blocks ==> Tagged(id, blocks[id]) in list
    ensures MoveIn(blocks, list, blockId, direction).Err? <==> direction == Down && blockId !in blocks && |blocks| > 0
  {
    var i := FindId(list, blockId);
    if blockId in blocks {
      assert Tagged(blockId, blocks[blockId]) in list;
      assert i != -1;
    } else {
      assert forall j :: 0 <= j < |list| ==> list[j] in list;
      assert i == -1;
    }
  }

  /** `moveBlock` keeps the blocks but for their ordering keys, and keeps the keys distinct. */
  lemma {:induction false} MoveKeeps(blocks: map<nat, Block>, blockId: nat, direction: Direction)
    requires Move(blocks, blockId, direction).Ok?
    ensures Move(blocks, blockId, direction).value.Keys == blocks.Keys
    ensures forall id :: id in blocks ==>
      Move(blocks, blockId, direction).value[id].kind == blocks[id].kind &&
      Move(blocks, blockId, direction).value[id].content == blocks[id].content
    ensures DistinctKeys(blocks) ==> DistinctKeys(Move(blocks, blockId, direction).value)
  {
    var list := OrderedBlockList(blocks);
    var i := FindId(list, blockId);
    if direction == Up && i > 0 {
      RekeyKeeps(blocks, list[i - 1].id, list[i].id);
    } else if direction == Down && 0 <= i < |list| - 1 {
      RekeyKeeps(blocks, list[i].id, list[i + 1].id);
    }
  }

  /** At the top moving up, at the bottom moving down, and in any other direction, nothing moves. */
  lemma {:induction false} MoveAtEdge(blocks: map<nat, Block>, blockId: nat, direction: Direction)
    requires blockId in blocks
    requires (direction == Up && FindId(OrderedBlockList(blocks), blockId) == 0) ||
             (direction == Down && FindId(OrderedBlockList(blocks), blockId) == |blocks| - 1) ||
             (direction == Unknown)
    ensures Move(blocks, blockId, direction) == Ok(blocks)
  {
  }

  /** With distinct keys, keys strictly increase along the display order. */
  lemma {:induction false} StrictKeys(blocks: map<nat, Block>, s: seq<Tagged>)
    requires DistinctKeys(blocks) && Ordered(s)
    requires forall x :: x in s ==> x.id in blocks && blocks[x.id] == x.block
    ensures forall a, b :: 0 <= a < b < |s| ==> s[a].block.orderingKey < s[b].block.orderingKey
  {
    OrderedIds(blocks, s);
    forall a, b | 0 <= a < b < |s|
      ensures s[a].block.orderingKey < s[b].block.orderingKey
    {
      assert s[a] in s && s[b] in s;
      assert InOrder(s[a], s[b]);
    }
  }

  /** The display-ordered list with the ids at places j and j + 1 exchanged, each block as in r. */
  function Exchanged(s: seq<Tagged>, r: map<nat, Block>, j: nat): (u: seq<Tagged>)
    requires j + 1 < |s| && s[j].id in r && s[j + 1].id in r
    ensures |u| == |s|
  {
    s[j := Tagged(s[j + 1].id, r[s[j + 1].id])][j + 1 := Tagged(s[j].id, r[s[j].id])]
  }

  /** With strictly increasing keys, the exchanged list is still in display order. */
  lemma {:induction false} ExchangedSorted(blocks: map<nat, Block>, s: seq<Tagged>, j: nat)
    requires j + 1 < |s| && s[j].id in blocks && s[j + 1].id in blocks
    requires s[j].id != s[j + 1].id
    requires blocks[s[j].id] == s[j].block && blocks[s[j + 1].id] == s[j + 1].block
    requires forall a, b :: 0 <= a < b < |s| ==> s[a].block.orderingKey < s[b].block.orderingKey
    ensures Ordered(Exchanged(s, Rekey(blocks, s[j].id, s[j + 1].id), j))
  {
    var r := Rekey(blocks, s[j].id, s[j + 1].id);
    var u := Exchanged(s, r, j);
    assert forall t :: 0 <= t < |u| ==> u[t].block.orderingKey == s[t].block.orderingKey;
    forall p, q | 0 <= p < q < |u|
      ensures InOrder(u[p], u[q])
    {
      assert s[p].block.orderingKey < s[q].block.orderingKey;
    }
  }

  /** The exchanged list holds exactly the blocks of the rekeyed map. */
  lemma {:induction false} ExchangedHas(blocks: map<nat, Block>, s: seq<Tagged>, j: nat)
    requires j + 1 < |s| && s[j].id in blocks && s[j + 1].id in blocks
    requires forall a, b :: 0 <= a < b < |s| ==> s[a].id != s[b].id
    requires forall t :: 0 <= t < |s| ==> s[t].id in blocks && blocks[s[t].id] == s[t].block
    requires forall id :: id in blocks ==> exists t :: 0 <= t < |s| && s[t] == Tagged(id, blocks[id])
    ensures var r := Rekey(blocks, s[j].id, s[j + 1].id);
            var u := Exchanged(s, r, j);
            (forall x :: x in u ==> x.id in r && r[x.id] == x.block) &&
            (forall id :: id in r ==> Tagged(id, r[id]) in u)
  {
    var a := s[j].id;
    var b := s[j + 1].id;
    var r := Rekey(blocks, a, b);
    RekeyKeeps(blocks, a, b);
    var u := Exchanged(s, r, j);
    forall x | x in u
      ensures x.id in r && r[x.id] == x.block
    {
      var t :| 0 <= t < |u| && u[t] == x;
      if t != j && t != j + 1 {
        assert u[t] == s[t];
      }
    }
    forall id | id in r
      ensures Tagged(id, r[id]) in u
    {
      if id == a {
        assert u[j + 1] == Tagged(id, r[id]);
      } else if id == b {
        assert u[j] == Tagged(id, r[id]);
      } else {
        var t :| 0 <= t < |s| && s[t] == Tagged(id, blocks[id]);
        assert t != j && t != j + 1;
        assert u[t] == Tagged(id, r[id]);
      }
    }
  }

  /** Exchanging the keys of neighbours keeps the list with their places exchanged in display order. */
  lemma {:induction false} ExchangedOrdered(blocks: map<nat, Block>, s: seq<Tagged>, j: nat)
    requires DistinctKeys(blocks) && Ordered(s) && j + 1 < |s|
    requires forall x :: x in s ==> x.id in blocks && blocks[x.id] == x.block
    requires forall id :: id in blocks ==> Tagged(id, blocks[id]) in s
    ensures s[j].id in blocks && s[j + 1].id in blocks
    ensures var r := Rekey(blocks, s[j].id, s[j + 1].id);
            var u := Exchanged(s, r, j);
            Ordered(u) &&
            (forall x :: x in u ==> x.id in r && r[x.id] == x.block) &&
            (forall id :: id in r ==> Tagged(id, r[id]) in u)
  {
    assert forall t :: 0 <= t < |s| ==> s[t] in s;
    OrderedIds(blocks, s);
    StrictKeys(blocks, s);
    ExchangedSorted(blocks, s, j);
    ExchangedHas(blocks, s, j);
  }

  /**
   * With distinct keys, exchanging the keys of the neighbours at places j
   * and j + 1 of the display order exchanges their places, and nothing
   * else moves.
   */
  lemma {:induction false} SwapPlacesIn(blocks: map<nat, Block>, s: seq<Tagged>, j: nat)
    requires DistinctKeys(blocks) && Ordered(s) && j + 1 < |s|
    requires forall x :: x in s ==> x.id in blocks && blocks[x.id] == x.block
    requires forall id :: id in blocks ==> Tagged(id, blocks[id]) in s
    ensures Ids(OrderedBlockList(Rekey(blocks, s[j].id, s[j + 1].id))) == Ids(s)[j := s[j + 1].id][j + 1 := s[j].id]
  {
    ExchangedOrdered(blocks, s, j);
    var r := Rekey(blocks, s[j].id, s[j + 1].id);
    var u := Exchanged(s, r, j);
    OrderedListOf(r, u);
    IdsExchange(s, u, j);
  }

  /** The ids of a list whose places j and j + 1 hold the other's ids. */
  lemma {:induction false} IdsExchange(s: seq<Tagged>, u: seq<Tagged>, j: nat)
    requires |u| == |s| && j + 1 < |s|
    requires u[j].id == s[j + 1].id && u[j + 1].id == s[j].id
    requires forall t :: 0 <= t < |s| && t != j && t != j + 1 ==> u[t] == s[t]
    ensures Ids(u) == Ids(s)[j := s[j + 1].id][j + 1 := s[j].id]
  {
    var e := Ids(s)[j := s[j + 1].id][j + 1 := s[j].id];
    forall t | 0 <= t < |u|
      ensures Ids(u)[t] == e[t]
    {
    }
  }

  lemma {:induction false} MoveInUpIs(blocks: map<nat, Block>, list: seq<Tagged>, blockId: nat)
    requires FindId(list, blockId) > 0
    ensures var i := FindId(list, blockId);
            MoveIn(blocks, list, blockId, Up) == Ok(Rekey(blocks, list[i - 1].id, list[i].id))
  {
  }

  lemma {:induction false} MoveInDownIs(blocks: map<nat, Block>, list: seq<Tagged>, blockId: nat)
    requires 0 <= FindId(list, blockId) < |list| - 1
    ensures var i := FindId(list, blockId);
            MoveIn(blocks, list, blockId, Down) == Ok(Rekey(blocks, list[i].id, list[i + 1].id))
  {
  }

  /** Moving the block at place i > 0 up exchanges its place with the block before it. */
  lemma {:induction false} MoveInUp(blocks: map<nat, Block>, list: seq<Tagged>, blockId: nat)
    requires DistinctKeys(blocks) && Ordered(list)
    requires forall x :: x in list ==> x.id in blocks && blocks[x.id] == x.block
    requires forall id :: id in blocks ==> Tagged(id, blocks[id]) in list
    requires FindId(list, blockId) > 0
    ensures MoveIn(blocks, list, blockId, Up).Ok?
    ensures var i := FindId(list, blockId);
            Ids(OrderedBlockList(MoveIn(blocks, list, blockId, Up).value)) == Ids(list)[i - 1 := blockId][i := list[i - 1].id]
  {
    MoveInUpIs(blocks, list, blockId);
    SwapPlacesIn(blocks, list, FindId(list, blockId) - 1);
  }

  /** Moving the block at place i < |list| - 1 down exchanges its place with the block after it. */
  lemma {:induction false} MoveInDown(blocks: map<nat, Block>, list: seq<Tagged>, blockId: nat)
    requires DistinctKeys(blocks) && Ordered(list)
    requires forall x :: x in list ==> x.id in blocks && blocks[x.id] == x.block
    requires forall id :: id in blocks ==> Tagged(id, blocks[id]) in list
    requires 0 <= FindId(list, blockId) < |list| - 1
    ensures MoveIn(blocks, list, blockId, Down).Ok?
    ensures var i := FindId(list, blockId);
            Ids(OrderedBlockList(MoveIn(blocks, list, blockId, Down).value)) == Ids(list)[i := list[i + 1].id][i + 1 := blockId]
  {
    MoveInDownIs(blocks, list, blockId);
    SwapPlacesIn(blocks, list, FindId(list, blockId));
  }

  /** Moving a block up, with distinct keys, exchanges it with the block before it in display order. */
  lemma {:induction false} MoveUpPlaces(blocks: map<nat, Block>, blockId: nat)
    requires DistinctKeys(blocks)
    requires FindId(OrderedBlockList(blocks), blockId) > 0
    ensures Move(blocks, blockId, Up).Ok?
    ensures var list := OrderedBlockList(blocks);
            var i := FindId(list, blockId);
            Ids(OrderedBlockList(Move(blocks, blockId, Up).value)) == Ids(list)[i - 1 := blockId][i := list[i - 1].id]
  {
    var list := OrderedBlockList(blocks);
    OrderedSpec(blocks);
    assert Move(blocks, blockId, Up) == MoveIn(blocks, list, blockId, Up);
    MoveInUp(blocks, list, blockId);
  }

  /** Moving a block down, with distinct keys, exchanges it with the block after it in display order. */
  lemma {:induction false} MoveDownPlaces(blocks: map<nat, Block>, blockId: nat)
    requires DistinctKeys(blocks)
    requires 0 <= FindId(OrderedBlockList(blocks), blockId) < |blocks| - 1
    ensures Move(blocks, blockId, Down).Ok?
    ensures var list := OrderedBlockList(blocks);
            var i := FindId(list, blockId);
            Ids(OrderedBlockList(Move(blocks, blockId, Down).value)) == Ids(list)[i := list[i + 1].id][i + 1 := blockId]
  {
    var list := OrderedBlockList(blocks);
    OrderedSpec(blocks);
    assert Move(blocks, blockId, Down) == MoveIn(blocks, list, blockId, Down);
    MoveInDown(blocks, list, blockId);
  }

  // ---------------------------------------------------------------------------
  // Adding and removing blocks.

  /** A block with a new id and a key above all others, appended to the display order, keeps it. */
  lemma {:induction false} AppendOrdered(blocks: map<nat, Block>, list: seq<Tagged>, id: nat, b: Block)
    requires Ordered(list)
    requires forall t :: 0 <= t < |list| ==> list[t].id in blocks && blocks[list[t].id] == list[t].block
    requires forall k :: k in blocks ==> blocks[k].orderingKey < b.orderingKey
    ensures Ordered(list + [Tagged(id, b)])
  {
    var u := list + [Tagged(id, b)];
    forall p, q | 0 <= p < q < |u|
      ensures InOrder(u[p], u[q])
    {
      if q == |list| {
        assert u[p] == list[p];
      } else {
        assert u[p] == list[p] && u[q] == list[q];
      }
    }
  }

  /** A new key above all others keeps the keys distinct. */
  lemma {:induction false} AddDistinct(blocks: map<nat, Block>, id: nat, b: Block)
    requires id !in blocks && DistinctKeys(blocks)
    requires forall k :: k in blocks ==> blocks[k].orderingKey < b.orderingKey
    ensures DistinctKeys(blocks[id := b])
  {
  }

  /**
   * `addBlock` with id `nextIntegerKey(blocks)` and ordering key
   * `nextOrderingKey()`: the new block is shown last, after the others in
   * their order, and the keys stay distinct.
   */
  lemma {:induction false} AddShownLast(blocks: map<nat, Block>, kind: string, content: string)
    ensures var id := NextIntegerKey(blocks);
            var b := Block(kind, content, NextOrderingKey(blocks));
            OrderedBlockList(blocks[id := b]) == OrderedBlockList(blocks) + [Tagged(id, b)]
    ensures DistinctKeys(blocks) ==>
            DistinctKeys(blocks[NextIntegerKey(blocks) := Block(kind, content, NextOrderingKey(blocks))])
  {
    var id := NextIntegerKey(blocks);
    var b := Block(kind, content, NextOrderingKey(blocks));
    var list := OrderedBlockList(blocks);
    OrderedSpec(blocks);
    AddShownLastIn(blocks, list, id, b);
    if DistinctKeys(blocks) {
      AddDistinct(blocks, id, b);
    }
  }

  lemma {:induction false} AddShownLastIn(blocks: map<nat, Block>, list: seq<Tagged>, id: nat, b: Block)
    requires id !in blocks
    requires forall k :: k in blocks ==> blocks[k].orderingKey < b.orderingKey
    requires Ordered(list)
    requires forall x :: x in list ==> x.id in blocks && blocks[x.id] == x.block
    requires forall k :: k in blocks ==> Tagged(k, blocks[k]) in list
    ensures OrderedBlockList(blocks[id := b]) == list + [Tagged(id, b)]
  {
    var n := blocks[id := b];
    var u := list + [Tagged(id, b)];
    assert forall t :: 0 <= t < |list| ==> list[t] in list;
    AppendOrdered(blocks, list, id, b);
    forall x | x in u
      ensures x.id in n && n[x.id] == x.block
    {
      if x != Tagged(id, b) {
        assert x in list;
      }
    }
    forall k | k in n
      ensures Tagged(k, n[k]) in u
    {
      if k != id {
        assert Tagged(k, blocks[k]) in list;
      }
    }
    OrderedListOf(n, u);
  }

  /** The list without the block of the given id. */
  function Without(s: seq<Tagged>, id: nat): seq<Tagged> {
    if s == [] then []
    else if s[|s| - 1].id == id then Without(s[..|s| - 1], id)
    else Without(s[..|s| - 1], id) + [s[|s| - 1]]
  }

  /** Dropping a block keeps the others in their order. */
  lemma {:induction false} WithoutSpec(s: seq<Tagged>, id: nat)
    ensures forall y :: y in Without(s, id) <==> y in s && y.id != id
    ensures Ordered(s) ==> Ordered(Without(s, id))
    decreases |s|
  {
    if s != [] {
      var init := s[..|s| - 1];
      var x := s[|s| - 1];
      WithoutSpec(init, id);
      assert s == init + [x];
      if Ordered(s) {
        assert Ordered(init) by {
          forall a, b | 0 <= a < b < |init|
            ensures InOrder(init[a], init[b])
          {
            assert init[a] == s[a] && init[b] == s[b];
          }
        }
        if x.id != id {
          var w := Without(init, id);
          forall a, b | 0 <= a < b < |w| + 1
            ensures InOrder((w + [x])[a], (w + [x])[b])
          {
            assert (w + [x])[a] == w[a];
            assert w[a] in init;
            var c :| 0 <= c < |init| && init[c] == w[a];
            if b == |w| {
              assert (w + [x])[b] == x == s[|s| - 1];
              assert InOrder(s[c], s[|s| - 1]);
            } else {
              assert (w + [x])[b] == w[b];
            }
          }
        }
      }
    }
  }

  /** `removeBlock`: the remaining blocks are shown in their old order. */
  lemma {:induction false} RemoveShown(blocks: map<nat, Block>, id: nat)
    ensures OrderedBlockList(blocks - {id}) == Without(OrderedBlockList(blocks), id)
  {
    var list := OrderedBlockList(blocks);
    var n := blocks - {id};
    OrderedSpec(blocks);
    WithoutSpec(list, id);
    var u := Without(list, id);
    forall k | k in n
      ensures Tagged(k, n[k]) in u
    {
      assert Tagged(k, blocks[k]) in list;
    }
    OrderedListOf(n, u);
  }

  // ---------------------------------------------------------------------------
  // Rebuilding the blocks after a move.

  /** The display list after `moveBlock` exchanged the ordering keys at places j and j + 1. */
  function SwapKeys(s: seq<Tagged>, j: nat): (u: seq<Tagged>)
    requires j + 1 < |s|
    ensures |u| == |s| && Ids(u) == Ids(s)
  {
    s[j := Tagged(s[j].id, s[j].block.(orderingKey := s[j + 1].block.orderingKey))]
     [j + 1 := Tagged(s[j + 1].id, s[j + 1].block.(orderingKey := s[j].block.orderingKey))]
  }

  /** Changing the block at one place of a list with distinct ids changes that id's block in the rebuilt map. */
  lemma {:induction false} MapOfUpdate(s: seq<Tagged>, t: nat, b: Block)
    requires t < |s|
    requires forall a :: 0 <= a < |s| && a != t ==> s[a].id != s[t].id
    ensures MapOf(s[t := Tagged(s[t].id, b)]) == MapOf(s)[s[t].id := b]
    decreases |s|
  {
    var u := s[t := Tagged(s[t].id, b)];
    var init := s[..|s| - 1];
    assert u[..|u| - 1] == if t == |s| - 1 then init else init[t := Tagged(s[t].id, b)];
    if t < |s| - 1 {
      MapOfUpdate(init, t, b);
      assert s[|s| - 1].id != s[t].id;
    }
  }

  lemma {:induction false} MapOfAt(blocks: map<nat, Block>, s: seq<Tagged>, j: nat)
    requires j + 1 < |s|
    requires forall a, b :: 0 <= a < b < |s| ==> s[a].id != s[b].id
    requires MapOf(s) == blocks
    ensures s[j].id in blocks && s[j + 1].id in blocks
    ensures blocks[s[j].id] == s[j].block && blocks[s[j + 1].id] == s[j + 1].block
  {
    MapOfHas(s);
  }

  lemma {:induction false} UpdateTwice(s: seq<Tagged>, j: nat, bX: Block, bY: Block)
    requires j + 1 < |s|
    requires forall a, b :: 0 <= a < b < |s| ==> s[a].id != s[b].id
    ensures MapOf(s[j := Tagged(s[j].id, bX)][j + 1 := Tagged(s[j + 1].id, bY)]) ==
            MapOf(s)[s[j].id := bX][s[j + 1].id := bY]
  {
    var s1 := s[j := Tagged(s[j].id, bX)];
    MapOfUpdate(s, j, bX);
    assert forall a :: 0 <= a < |s1| && a != j + 1 ==> s1[a].id != s1[j + 1].id by {
      assert forall a :: 0 <= a < |s1| ==> s1[a].id == s[a].id;
    }
    MapOfUpdate(s1, j + 1, bY);
  }

  lemma {:induction false} SwapRebuildsIn(blocks: map<nat, Block>, s: seq<Tagged>, j: nat)
    requires j + 1 < |s|
    requires forall a, b :: 0 <= a < b < |s| ==> s[a].id != s[b].id
    requires MapOf(s) == blocks
    ensures MapOf(SwapKeys(s, j)) == Rekey(blocks, s[j].id, s[j + 1].id)
  {
    var bX := s[j].block.(orderingKey := s[j + 1].block.orderingKey);
    var bY := s[j + 1].block.(orderingKey := s[j].block.orderingKey);
    MapOfAt(blocks, s, j);
    UpdateTwice(s, j, bX, bY);
  }

  /**
   * Rebuilding the map from the display list whose keys at places j and
   * j + 1 were exchanged exchanges those two blocks' keys in the map.
   */
  lemma {:induction false} SwapRebuilds(blocks: map<nat, Block>, j: nat)
    requires j + 1 < |OrderedBlockList(blocks)|
    ensures MapOf(SwapKeys(OrderedBlockList(blocks), j)) ==
            Rekey(blocks, OrderedBlockList(blocks)[j].id, OrderedBlockList(blocks)[j + 1].id)
  {
    var s := OrderedBlockList(blocks);
    OrderedSpec(blocks);
    OrderedIds(blocks, s);
    MapOfOrdered(blocks);
    SwapRebuildsIn(blocks, s, j);
  }

  /** The loop of `moveBlock` that puts every listed block back under its id. */
  method Rebuild(list: seq<Tagged>) returns (newBlocks: map<nat, Block>)
    ensures newBlocks == MapOf(list)
  {
    newBlocks := map[];
    var t := 0;
    while t < |list|
      invariant 0 <= t <= |list|
      invariant newBlocks == MapOf(list[..t])
    {
      assert list[..t + 1][..t] == list[..t];
      newBlocks := newBlocks[list[t].id := list[t].block];
      t := t + 1;
    }
    assert list[..t] == list;
  }

  /**
   * The body of `moveBlock`: the display list has the ordering keys of the
   * block and its neighbour above ("up") or below ("down") exchanged, and
   * the listed blocks are put back under their ids. Moving "down" an id
   * that is not there reads a key of `undefined` and throws.
   */
  method MovedBlocks(blocks: map<nat, Block>, blockId: nat, d: Direction) returns (r: Result<map<nat, Block>>)
    ensures r == Move(blocks, blockId, d)
  {
    var list := OrderedBlockList(blocks);
    var i := FindId(list, blockId);
    if d == Up && i > 0 {
      r := MovedUpIn(blocks, blockId, list, i);
    } else if d == Down && i < |list| - 1 {
      r := MovedDownIn(blocks, blockId, list, i);
    } else {
      var newBlocks := Rebuild(list);
      MovedNot(blocks, blockId, d, list, i);
      r := Ok(newBlocks);
    }
  }

  /** Moving up the block at place i > 0 of the display list. */
  method MovedUpIn(blocks: map<nat, Block>, blockId: nat, list: seq<Tagged>, i: int) returns (r: Result<map<nat, Block>>)
    requires list == OrderedBlockList(blocks) && i == FindId(list, blockId) && i > 0
    ensures r == Move(blocks, blockId, Up)
  {
    var swapped := SwapAt(list, i - 1);
    var newBlocks := Rebuild(swapped);
    MovedUp(blocks, blockId, list, i);
    r := Ok(newBlocks);
  }

  /** Moving down the block at place i < |list| - 1 of the display list, or the missing block. */
  method MovedDownIn(blocks: map<nat, Block>, blockId: nat, list: seq<Tagged>, i: int) returns (r: Result<map<nat, Block>>)
    requires list == OrderedBlockList(blocks) && i == FindId(list, blockId) && i < |list| - 1
    ensures r == Move(blocks, blockId, Down)
  {
    if i == -1 {
      MovedNowhere(blocks, blockId, list);
      return Err(MoveError);
    }
    var swapped := SwapAt(list, i);
    var newBlocks := Rebuild(swapped);
    MovedDown(blocks, blockId, list, i);
    r := Ok(newBlocks);
  }

  /** The exchange of the ordering keys of `orderedBlockList[j]` and `orderedBlockList[j + 1]` through `tmp`. */
  method SwapAt(list: seq<Tagged>, j: nat) returns (r: seq<Tagged>)
    requires j + 1 < |list|
    ensures r == SwapKeys(list, j)
  {
    r := list;
    var tmp := r[j + 1].block.orderingKey;
    r := r[j + 1 := Tagged(r[j + 1].id, r[j + 1].block.(orderingKey := r[j].block.orderingKey))];
    r := r[j := Tagged(r[j].id, r[j].block.(orderingKey := tmp))];
  }

  lemma {:induction false} MovedUp(blocks: map<nat, Block>, blockId: nat, list: seq<Tagged>, i: int)
    requires list == OrderedBlockList(blocks) && i == FindId(list, blockId) && i > 0
    ensures Move(blocks, blockId, Up) == Ok(MapOf(SwapKeys(list, i - 1)))
  {
    SwapRebuilds(blocks, i - 1);
    MoveInUpIs(blocks, list, blockId);
  }

  lemma {:induction false} MovedDown(blocks: map<nat, Block>, blockId: nat, list: seq<Tagged>, i: int)
    requires list == OrderedBlockList(blocks) && i == FindId(list, blockId) && 0 <= i < |list| - 1
    ensures Move(blocks, blockId, Down) == Ok(MapOf(SwapKeys(list, i)))
  {
    SwapRebuilds(blocks, i);
    MoveInDownIs(blocks, list, blockId);
  }

  lemma {:induction false} MovedNowhere(blocks: map<nat, Block>, blockId: nat, list: seq<Tagged>)
    requires list == OrderedBlockList(blocks)
    requires FindId(list, blockId) == -1 && |list| > 0
    ensures Move(blocks, blockId, Down) == Err(MoveError)
  {
  }

  lemma {:induction false} MovedNot(blocks: map<nat, Block>, blockId: nat, d: Direction, list: seq<Tagged>, i: int)
    requires list == OrderedBlockList(blocks) && i == FindId(list, blockId)
    requires d == Up ==> i <= 0
    requires d == Down ==> i >= |list| - 1
    ensures Move(blocks, blockId, d) == Ok(MapOf(list))
  {
    MapOfOrdered(blocks);
  }

  // ---------------------------------------------------------------------------
  // File names.

  /** The characters `String.prototype.trim` removes: white space and line terminators. */
  predicate IsJsSpace(c: char) {
    c == '\t' || c == '\n' || c == '\U{000B}' || c == '\U{000C}' || c == '\r' || c == ' ' ||
    c == '\U{00A0}' || c == '\U{1680}' || ('\U{2000}' <= c <= '\U{200A}') || c == '\U{2028}' || c == '\U{2029}' ||
    c == '\U{202F}' || c == '\U{205F}' || c == '\U{3000}' || c == '\U{FEFF}'
  }

  /** `name.trim() === ''`. */
  predicate Blank(name: string) {
    forall i :: 0 <= i < |name| ==> IsJsSpace(name[i])
  }

  /** Some file already carries the name. */
  predicate NameTaken(files: map<nat, File>, name: string) {
    exists k :: k in files && files[k].name == name
  }

  /**
   * `name in _.keys(files)` with `count` files: `in` on an array asks for a
   * property, so it holds for the index strings "0".."count-1", for "length"
   * and for the names `inherited` lists (the members of `Array.prototype`
   * and `Object.prototype`), whatever the files are called.
   */
  predicate DuplicateAsWritten(count: nat, name: string, inherited: set<string>) {
    (exists k :: 0 <= k < count && name == JsString.NatToString(k)) || name == "length" || name in inherited
  }

  /** Any name with a character other than a digit passes the check as written, unless it is "length" or inherited. */
  lemma {:induction false} NamesPassAsWritten(count: nat, name: string, inherited: set<string>, i: nat)
    requires i < |name| && !JsString.IsDigit(name[i])
    requires name != "length" && name !in inherited
    ensures !DuplicateAsWritten(count, name, inherited)
  {
    forall k | 0 <= k < count
      ensures name != JsString.NatToString(k)
    {
      var d := JsString.NatToString(k);
      if |d| == |name| {
        assert JsString.IsDigit(d[i]);
      }
    }
  }

  /** The file the editor starts with, id 0. */
  function DefaultFile(): File {
    File("Default", map[1 := Block("text", "*Click here* to edit me!", 1), 2 := Block("code", "print(\"hello world!\")", 2)])
  }

  /** With only the default file, the check as written refuses the name "0", which no file has. */
  lemma {:induction false} IndexNameRejected(inherited: set<string>)
    ensures DuplicateAsWritten(|map[0 := DefaultFile()]|, "0", inherited)
    ensures !NameTaken(map[0 := DefaultFile()], "0")
  {
    assert JsString.NatToString(0) == "0";
  }

  /** With only the default file, the check as written lets a second file be named "Default". */
  lemma {:induction false} SameNameAccepted(inherited: set<string>)
    requires "Default" !in inherited
    ensures !DuplicateAsWritten(|map[0 := DefaultFile()]|, "Default", inherited)
    ensures NameTaken(map[0 := DefaultFile()], "Default")
  {
    assert !JsString.IsDigit("Default"[0]);
    NamesPassAsWritten(1, "Default", inherited, 0);
  }

  const RenameDefaultAlert := "Cannot rename default file!"
  const DeleteDefaultAlert := "Cannot delete default file!"
  const EmptyNameAlert := "Filename empty!"
  const SetContentError := "TypeError: Cannot set property 'content' of undefined"

  /** The alert of `createFile` for a name already in use. */
  function ExistsAlert(name: string): string {
    "File " + name + " already exists!"
  }

  // ---------------------------------------------------------------------------
  // The editor's state.

  /**
   * The state of the `LiterateEditor` component: its files by id, the
   * selected file and whether the markdown output is open. Each `setState`
   * call is taken to happen at once.
   */
  class LiterateEditor {
    var files: map<nat, File>
    var selectedFile: nat
    var markdownOutputOpen: bool

    /** The default file is there, the selected file is there, and no file has two blocks with one key. */
    ghost predicate Valid()
      reads this
    {
      0 in files && selectedFile in files &&
      forall f :: f in files ==> DistinctKeys(files[f].blocks)
    }

    /** `getInitialState` when nothing was saved: the default file, selected, markdown output closed. */
    constructor ()
      ensures files == map[0 := DefaultFile()] && selectedFile == 0 && !markdownOutputOpen
      ensures Valid()
    {
      files := map[0 := DefaultFile()];
      selectedFile := 0;
      markdownOutputOpen := false;
    }

    /** `currentBlocks`. */
    function CurrentBlocks(): map<nat, Block>
      reads this
      requires selectedFile in files
    {
      files[selectedFile].blocks
    }

    /** `loadFile`: an existing file becomes the selected one; any other id changes nothing. */
    method LoadFile(file: nat)
      requires Valid()
      modifies this
      ensures Valid()
      ensures files == old(files) && markdownOutputOpen == old(markdownOutputOpen)
      ensures selectedFile == if file in old(files) then file else old(selectedFile)
    {
      if file in files {
        selectedFile := file;
      }
    }

    /**
     * `renameFile`, with the answer of the prompt (None when it was
     * cancelled): the default file is refused, an empty answer is ignored,
     * and otherwise only the selected file's name changes.
     */
    method RenameFile(newName: Option<string>) returns (alert: Option<string>)
      requires Valid()
      modifies this
      ensures Valid()
      ensures selectedFile == old(selectedFile) && markdownOutputOpen == old(markdownOutputOpen)
      ensures old(selectedFile) == 0 ==> alert == Some(RenameDefaultAlert) && files == old(files)
      ensures old(selectedFile) != 0 ==> alert == None
      ensures old(selectedFile) != 0 && newName.Some? && newName.value != "" ==>
              files == old(files)[old(selectedFile) := old(files)[old(selectedFile)].(name := newName.value)]
      ensures old(selectedFile) != 0 && (newName.None? || newName.value == "") ==> files == old(files)
    {
      if selectedFile == 0 {
        alert := Some(RenameDefaultAlert);
      } else {
        alert := None;
        if newName.Some? && newName.value != "" {
          files := files[selectedFile := files[selectedFile].(name := newName.value)];
        }
      }
    }

    /** `deleteFile`: the default file is refused; any other selected file is removed and the default file selected. */
    method DeleteFile() returns (alert: Option<string>)
      requires Valid()
      modifies this
      ensures Valid()
      ensures markdownOutputOpen == old(markdownOutputOpen)
      ensures old(selectedFile) == 0 ==> alert == Some(DeleteDefaultAlert) && files == old(files) && selectedFile == 0
      ensures old(selectedFile) != 0 ==> alert == None && files == old(files) - {old(selectedFile)} && selectedFile == 0
    {
      if selectedFile == 0 {
        alert := Some(DeleteDefaultAlert);
      } else {
        alert := None;
        files := files - {selectedFile};
        selectedFile := 0;
      }
    }

    /**
     * `createFile` with the answer of the prompt, its duplicate check
     * testing the names of the files: a missing or blank name and a name in
     * use are refused; otherwise an empty file of that name gets id
     * `nextIntegerKey(files)` and is selected.
     */
    method CreateFile(newFileName: Option<string>) returns (alert: Option<string>)
      requires Valid()
      modifies this
      ensures Valid()
      ensures markdownOutputOpen == old(markdownOutputOpen)
      ensures newFileName.None? || Blank(newFileName.value) ==>
              alert == Some(EmptyNameAlert) && files == old(files) && selectedFile == old(selectedFile)
      ensures newFileName.Some? && !Blank(newFileName.value) && NameTaken(old(files), newFileName.value) ==>
              alert == Some(ExistsAlert(newFileName.value)) && files == old(files) && selectedFile == old(selectedFile)
      ensures newFileName.Some? && !Blank(newFileName.value) && !NameTaken(old(files), newFileName.value) ==>
              alert == None && selectedFile == NextIntegerKey(old(files)) &&
              files == old(files)[NextIntegerKey(old(files)) := File(newFileName.value, map[])]
      ensures alert == None ==> forall k :: k in old(files) ==> old(files)[k].name != files[selectedFile].name
    {
      var newFileId := NextIntegerKey(files);
      if newFileName.None? || Blank(newFileName.value) {
        alert := Some(EmptyNameAlert);
        return;
      }
      if NameTaken(files, newFileName.value) {
        alert := Some(ExistsAlert(newFileName.value));
        return;
      }
      alert := None;
      files := files[newFileId := File(newFileName.value, map[])];
      selectedFile := newFileId;
    }

    /**
     * `createFile` as written: the duplicate check is
     * `newFileName in _.keys(files)`, so it depends on how many files there
     * are and not on their names.
     */
    method CreateFileAsWritten(newFileName: Option<string>, inherited: set<string>) returns (alert: Option<string>)
      requires Valid()
      modifies this
      ensures Valid()
      ensures markdownOutputOpen == old(markdownOutputOpen)
      ensures newFileName.None? || Blank(newFileName.value) ==>
              alert == Some(EmptyNameAlert) && files == old(files) && selectedFile == old(selectedFile)
      ensures newFileName.Some? && !Blank(newFileName.value) && DuplicateAsWritten(|old(files)|, newFileName.value, inherited) ==>
              alert == Some(ExistsAlert(newFileName.value)) && files == old(files) && selectedFile == old(selectedFile)
      ensures newFileName.Some? && !Blank(newFileName.value) && !DuplicateAsWritten(|old(files)|, newFileName.value, inherited) ==>
              alert == None && selectedFile == NextIntegerKey(old(files)) &&
              files == old(files)[NextIntegerKey(old(files)) := File(newFileName.value, map[])]
    {
      var newFileId := NextIntegerKey(files);
      if newFileName.None? || Blank(newFileName.value) {
        alert := Some(EmptyNameAlert);
        return;
      }
      if DuplicateAsWritten(|files|, newFileName.value, inherited) {
        alert := Some(ExistsAlert(newFileName.value));
        return;
      }
      alert := None;
      files := files[newFileId := File(newFileName.value, map[])];
      selectedFile := newFileId;
    }

    /** `updateBlocks`: the selected file's blocks are replaced and nothing else changes. */
    method UpdateBlocks(blocks: map<nat, Block>)
      requires selectedFile in files
      modifies this
      ensures files == old(files)[old(selectedFile) := old(files)[old(selectedFile)].(blocks := blocks)]
      ensures selectedFile == old(selectedFile) && markdownOutputOpen == old(markdownOutputOpen)
      ensures old(Valid()) && DistinctKeys(blocks) ==> Valid()
    {
      files := files[selectedFile := files[selectedFile].(blocks := blocks)];
    }

    /**
     * `addBlock`: a block of the given type and content, with id
     * `nextBlockId()` and ordering key `nextOrderingKey()`, is added to the
     * selected file, where it is shown last.
     */
    method AddBlock(kind: string, content: string)
      requires Valid()
      modifies this
      ensures Valid()
      ensures selectedFile == old(selectedFile) && markdownOutputOpen == old(markdownOutputOpen)
      ensures CurrentBlocks() ==
              old(CurrentBlocks())[NextIntegerKey(old(CurrentBlocks())) :=
                                   Block(kind, content, NextOrderingKey(old(CurrentBlocks())))]
      ensures files == old(files)[selectedFile := old(files)[selectedFile].(blocks := CurrentBlocks())]
      ensures OrderedBlockList(CurrentBlocks()) ==
              OrderedBlockList(old(CurrentBlocks())) +
              [Tagged(NextIntegerKey(old(CurrentBlocks())), Block(kind, content, NextOrderingKey(old(CurrentBlocks()))))]
    {
      var newBlocks := CurrentBlocks();
      var newBlock := Block(kind, content, NextOrderingKey(CurrentBlocks()));
      newBlocks := newBlocks[NextIntegerKey(CurrentBlocks()) := newBlock];
      AddShownLast(CurrentBlocks(), kind, content);
      UpdateBlocks(newBlocks);
    }

    /** `addCodeBlock`: an empty code block. */
    method AddCodeBlock()
      requires Valid()
      modifies this
      ensures Valid()
      ensures selectedFile == old(selectedFile) && markdownOutputOpen == old(markdownOutputOpen)
      ensures CurrentBlocks() ==
              old(CurrentBlocks())[NextIntegerKey(old(CurrentBlocks())) :=
                                   Block("code", "", NextOrderingKey(old(CurrentBlocks())))]
      ensures files == old(files)[selectedFile := old(files)[selectedFile].(blocks := CurrentBlocks())]
    {
      AddBlock("code", "");
    }

    /** `addTextBlock`: a text block with the placeholder text. */
    method AddTextBlock()
      requires Valid()
      modifies this
      ensures Valid()
      ensures selectedFile == old(selectedFile) && markdownOutputOpen == old(markdownOutputOpen)
      ensures CurrentBlocks() ==
              old(CurrentBlocks())[NextIntegerKey(old(CurrentBlocks())) :=
                                   Block("text", "*Click here* to edit me!", NextOrderingKey(old(CurrentBlocks())))]
      ensures files == old(files)[selectedFile := old(files)[selectedFile].(blocks := CurrentBlocks())]
    {
      AddBlock("text", "*Click here* to edit me!");
    }

    /**
     * `updateBlockContent`: the block's content is replaced; for an id that
     * is not a block, setting `content` on `undefined` throws and nothing
     * changes.
     */
    method UpdateBlockContent(blockId: nat, content: string) returns (error: Option<string>)
      requires Valid()
      modifies this
      ensures Valid()
      ensures selectedFile == old(selectedFile) && markdownOutputOpen == old(markdownOutputOpen)
      ensures blockId !in old(CurrentBlocks()) ==> error == Some(SetContentError) && files == old(files)
      ensures blockId in old(CurrentBlocks()) ==>
              error == None &&
              files == old(files)[selectedFile := old(files)[selectedFile].(blocks :=
                         old(CurrentBlocks())[blockId := old(CurrentBlocks())[blockId].(content := content)])]
    {
      var newBlocks := CurrentBlocks();
      if blockId !in CurrentBlocks() {
        error := Some(SetContentError);
        return;
      }
      var updatedBlock := CurrentBlocks()[blockId].(content := content);
      newBlocks := newBlocks[blockId := updatedBlock];
      assert DistinctKeys(newBlocks) by {
        assert forall id :: id in newBlocks ==> newBlocks[id].orderingKey == CurrentBlocks()[id].orderingKey;
      }
      UpdateBlocks(newBlocks);
      error := None;
    }

    /** `removeBlock`: only the given id leaves the selected file, and the rest keep their order. */
    method RemoveBlock(blockId: nat)
      requires Valid()
      modifies this
      ensures Valid()
      ensures selectedFile == old(selectedFile) && markdownOutputOpen == old(markdownOutputOpen)
      ensures files == old(files)[selectedFile := old(files)[selectedFile].(blocks := old(CurrentBlocks()) - {blockId})]
      ensures OrderedBlockList(CurrentBlocks()) == Without(OrderedBlockList(old(CurrentBlocks())), blockId)
    {
      var newBlocks := CurrentBlocks() - {blockId};
      RemoveShown(CurrentBlocks(), blockId);
      UpdateBlocks(newBlocks);
    }

    /**
     * `moveBlock`: the selected file's blocks become `Move` of them; when
     * it throws, nothing changes.
     */
    method MoveBlock(blockId: nat, direction: string) returns (error: Option<string>)
      requires Valid()
      modifies this
      ensures Valid()
      ensures selectedFile == old(selectedFile) && markdownOutputOpen == old(markdownOutputOpen)
      ensures Move(old(CurrentBlocks()), blockId, DirectionOf(direction)).Err? ==>
              error == Some(MoveError) && files == old(files)
      ensures Move(old(CurrentBlocks()), blockId, DirectionOf(direction)).Ok? ==>
              error == None &&
              files == old(files)[selectedFile := old(files)[selectedFile].(blocks :=
                         Move(old(CurrentBlocks()), blockId, DirectionOf(direction)).value)]
    {
      var moved := MovedBlocks(CurrentBlocks(), blockId, DirectionOf(direction));
      if moved.Err? {
        error := Some(moved.msg);
        return;
      }
      MoveKeeps(CurrentBlocks(), blockId, DirectionOf(direction));
      UpdateBlocks(moved.value);
      error := None;
    }

    /** `toggleMarkdownOutput`: the markdown output opens or closes. */
    method ToggleMarkdownOutput()
      requires Valid()
      modifies this
      ensures Valid()
      ensures files == old(files) && selectedFile == old(selectedFile)
      ensures markdownOutputOpen == !old(markdownOutputOpen)
    {
      markdownOutputOpen := !markdownOutputOpen;
    }
  }
}
