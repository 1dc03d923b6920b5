/**
 * A JavaScript object used as a dictionary from string keys to values. Keys
 * keep their insertion order, which is the order `_.each` and `Object.keys`
 * visit them in, and no key appears twice.
 */
module Dict {
  datatype Entry<V> = Entry(key: string, val: V)

  type Dict<V> = seq<Entry<V>>

  predicate KeysDistinct<V>(d: Dict<V>) {
    forall i, j :: 0 <= i < j < |d| ==> d[i].key != d[j].key
  }

  /** `Object.keys(d)`. */
  function Keys<V>(d: Dict<V>): (ks: seq<string>)
    ensures |ks| == |d| && forall i :: 0 <= i < |d| ==> ks[i] == d[i].key
  {
    seq(|d|, i requires 0 <= i < |d| => d[i].key)
  }

  /** `_.has(d, k)`. */
  predicate Has<V>(d: Dict<V>, k: string) {
    k in Keys(d)
  }

  /** The position of key `k`, or -1 when it is absent. */
  function Find<V>(d: Dict<V>, k: string): (i: int)
    ensures -1 <= i < |d|
    ensures i == -1 <==> !Has(d, k)
    ensures i >= 0 ==> d[i].key == k && forall j :: 0 <= j < i ==> d[j].key != k
  {
    if d == [] then -1
    else if d[0].key == k then 0
    else
      var j := Find(d[1..], k);
      assert Keys(d[1..]) == Keys(d)[1..];
      if j == -1 then -1 else j + 1
  }

  /** `d[k]` for a present key. */
  function Get<V>(d: Dict<V>, k: string): V
    requires Has(d, k)
  {
    d[Find(d, k)].val
  }

  /** `d[k] = v`: an existing key keeps its place, a new one is appended. */
  function Put<V>(d: Dict<V>, k: string, v: V): (r: Dict<V>)
    requires KeysDistinct(d)
    ensures KeysDistinct(r)
    ensures Has(r, k) && Get(r, k) == v
    ensures Has(d, k) ==> Keys(r) == Keys(d)
    ensures !Has(d, k) ==> Keys(r) == Keys(d) + [k]
    ensures forall a :: a != k ==> (Has(r, a) <==> Has(d, a))
    ensures forall a :: a != k && Has(d, a) ==> Get(r, a) == Get(d, a)
  {
    var i := Find(d, k);
    if i >= 0 then PutExisting(d, i, k, v); d[i := Entry(k, v)]
    else PutNew(d, k, v); d + [Entry(k, v)]
  }

  lemma {:induction false} PutExisting<V>(d: Dict<V>, i: nat, k: string, v: V)
    requires KeysDistinct(d) && i < |d| && d[i].key == k
    ensures var r := d[i := Entry(k, v)];
      && KeysDistinct(r) && Keys(r) == Keys(d) && Find(r, k) == i
      && forall a :: a != k && Has(d, a) ==> Find(r, a) == Find(d, a)
  {
    var r := d[i := Entry(k, v)];
    assert Keys(r) == Keys(d);
    forall a | a != k && Has(d, a)
      ensures Find(r, a) == Find(d, a)
    {
      var j := Find(d, a);
      assert r[j].key == a;
      assert forall l :: 0 <= l < j ==> r[l].key == d[l].key;
    }
  }

  lemma {:induction false} PutNew<V>(d: Dict<V>, k: string, v: V)
    requires KeysDistinct(d) && !Has(d, k)
    ensures var r := d + [Entry(k, v)];
      && KeysDistinct(r) && Keys(r) == Keys(d) + [k] && Find(r, k) == |d|
      && forall a :: a != k && Has(d, a) ==> Find(r, a) == Find(d, a)
  {
    var r := d + [Entry(k, v)];
    assert Keys(r) == Keys(d) + [k];
    forall j | 0 <= j < |d|
      ensures d[j].key != k
    {
      assert Keys(d)[j] == d[j].key;
    }
    forall a | a != k && Has(d, a)
      ensures Find(r, a) == Find(d, a)
    {
      var j := Find(d, a);
      assert r[j].key == a;
      assert forall l :: 0 <= l < j ==> r[l].key == d[l].key;
    }
  }

  /** The entry at a position is the one `Get` finds, when keys are distinct. */
  lemma {:induction false} GetAt<V>(d: Dict<V>, i: nat)
    requires KeysDistinct(d) && i < |d|
    ensures Has(d, d[i].key) && Get(d, d[i].key) == d[i].val
  {
    assert Keys(d)[i] == d[i].key;
  }

  /** The last entry of a dictionary is the only one with its key. */
  lemma {:induction false} LastKey<V>(h: Dict<V>)
    requires KeysDistinct(h) && |h| > 0
    ensures Has(h, h[|h| - 1].key) && Get(h, h[|h| - 1].key) == h[|h| - 1].val
    ensures !Has(h[..|h| - 1], h[|h| - 1].key)
    ensures forall a :: a != h[|h| - 1].key ==> (Has(h, a) <==> Has(h[..|h| - 1], a))
  {
    GetAt(h, |h| - 1);
    var h0 := h[..|h| - 1];
    var k := h[|h| - 1].key;
    assert Keys(h) == Keys(h0) + [k];
    forall j | 0 <= j < |h0|
      ensures Keys(h0)[j] != k
    {
      assert h0[j].key == h[j].key;
    }
  }

  /** Dropping the last entry keeps every other key and its value. */
  lemma {:induction false} DropLast<V>(h: Dict<V>, a: string)
    requires KeysDistinct(h) && |h| > 0 && a != h[|h| - 1].key && Has(h, a)
    ensures Has(h[..|h| - 1], a) && Get(h[..|h| - 1], a) == Get(h, a)
  {
    LastKey(h);
    var h0 := h[..|h| - 1];
    var j := Find(h0, a);
    assert Find(h, a) == j;
  }

  /**
   * `_.assign(d, src)`: every key of `src`, in its order, written into `d`;
   * a key `src` has takes its value from `src`, any other keeps `d`'s.
   */
  function Assign<V>(d: Dict<V>, src: Dict<V>): (r: Dict<V>)
    requires KeysDistinct(d) && KeysDistinct(src)
    ensures KeysDistinct(r)
    ensures forall a :: Has(r, a) <==> Has(d, a) || Has(src, a)
    ensures forall a :: Has(src, a) ==> Get(r, a) == Get(src, a)
    ensures forall a :: Has(d, a) && !Has(src, a) ==> Get(r, a) == Get(d, a)
    decreases |src|
  {
    if src == [] then d
    else
      var r0 := Assign(d, src[..|src| - 1]);
      AssignStep(d, src, r0);
      Put(r0, src[|src| - 1].key, src[|src| - 1].val)
  }

  lemma {:induction false} AssignStep<V>(d: Dict<V>, src: Dict<V>, r0: Dict<V>)
    requires KeysDistinct(d) && KeysDistinct(src) && |src| > 0
    requires var s0 := src[..|src| - 1];
      && KeysDistinct(r0)
      && (forall a :: Has(r0, a) <==> Has(d, a) || Has(s0, a))
      && (forall a :: Has(s0, a) ==> Get(r0, a) == Get(s0, a))
      && (forall a :: Has(d, a) && !Has(s0, a) ==> Get(r0, a) == Get(d, a))
    ensures var r := Put(r0, src[|src| - 1].key, src[|src| - 1].val);
      && (forall a :: Has(r, a) <==> Has(d, a) || Has(src, a))
      && (forall a :: Has(src, a) ==> Get(r, a) == Get(src, a))
      && (forall a :: Has(d, a) && !Has(src, a) ==> Get(r, a) == Get(d, a))
  {
    var e := src[|src| - 1];
    var s0 := src[..|src| - 1];
    var r := Put(r0, e.key, e.val);
    LastKey(src);
    forall a
      ensures Has(r, a) <==> Has(d, a) || Has(src, a)
    {
      if a != e.key {
        assert Has(r, a) <==> Has(r0, a);
        assert Has(src, a) <==> Has(s0, a);
      }
    }
    forall a | Has(src, a)
      ensures Get(r, a) == Get(src, a)
    {
      if a != e.key {
        DropLast(src, a);
        assert Get(r, a) == Get(r0, a);
      }
    }
    forall a | Has(d, a) && !Has(src, a)
      ensures Get(r, a) == Get(d, a)
    {
      assert a != e.key && !Has(s0, a);
      assert Get(r, a) == Get(r0, a);
    }
  }
}
