/**
 * The vines demo's 2D image: an RGBA byte buffer of width × height pixels,
 * four bytes per pixel. The demo compares a rendered image with a target
 * through binary tests on the red channel (255 is "empty"), and stores
 * target images packed one bit per pixel.
 */
module VinesImage {
  import opened JsNum
  import opened Wrappers

  type Bytes = seq<bv8>

  const White: bv8 := 255
  const Half: bv8 := 128

  /** `ceil(n / 8)`: the number of bytes n packed pixels take. */
  function NumBytes(n: nat): (r: nat)
    ensures 8 * r >= n && (r > 0 ==> 8 * (r - 1) < n)
  {
    (n + 7) / 8
  }

  // ---------------------------------------------------------------------
  // Counting pixels on the red channel

  /** Pixel p of a is empty: its red channel is 255. */
  predicate Empty(a: Bytes, p: nat)
    requires 4 * p < |a|
  {
    a[4 * p] == White
  }

  /** The number of the first n pixels on which a and b agree about being empty. */
  function SameCount(a: Bytes, b: Bytes, n: nat): nat
    requires 4 * n <= |a| && 4 * n <= |b|
  {
    if n == 0 then 0
    else SameCount(a, b, n - 1) + (if Empty(a, n - 1) == Empty(b, n - 1) then 1 else 0)
  }

  /** The number of the first n pixels that are filled: red channel not 255. */
  function FilledCount(a: Bytes, n: nat): nat
    requires 4 * n <= |a|
  {
    if n == 0 then 0
    else FilledCount(a, n - 1) + (if Empty(a, n - 1) then 0 else 1)
  }

  lemma {:induction false} SameCountBound(a: Bytes, b: Bytes, n: nat)
    requires 4 * n <= |a| && 4 * n <= |b|
    ensures SameCount(a, b, n) <= n
  {
    if n > 0 {
      SameCountBound(a, b, n - 1);
    }
  }

  /** An image agrees with itself on every pixel. */
  lemma {:induction false} SameCountSelf(a: Bytes, n: nat)
    requires 4 * n <= |a|
    ensures SameCount(a, a, n) == n
  {
    if n > 0 {
      SameCountSelf(a, n - 1);
    }
  }

  /** Agreement with an all-white image counts exactly the pixels that are not filled. */
  lemma {:induction false} SameAsWhiteIsUnfilled(a: Bytes, w: Bytes, n: nat)
    requires 4 * n <= |a| && 4 * n <= |w|
    requires forall k :: 0 <= k < |w| ==> w[k] == White
    ensures SameCount(a, w, n) + FilledCount(a, n) == n
  {
    if n > 0 {
      SameAsWhiteIsUnfilled(a, w, n - 1);
    }
  }

  // ---------------------------------------------------------------------
  // Mirror symmetry

  /** Pixels (x, y) and (w-1-x, y) disagree about being empty. */
  predicate MirrorDiffers(d: Bytes, w: nat, y: nat, x: nat)
    requires x < w / 2 && 4 * (y * w + w) <= |d|
  {
    Empty(d, y * w + x) != Empty(d, y * w + (w - 1 - x))
  }

  /** Pixel x of row y and its mirror image, at offset `base` = y·w: both inside d, and whether they differ is the next step of `RowDist`. */
  lemma {:induction false} MirrorPixels(d: Bytes, w: nat, y: nat, x: nat, base: nat)
    requires x < w / 2 && 4 * (y * w + w) <= |d| && base == y * w
    ensures 4 * (base + x) < |d| && 4 * (base + (w - 1 - x)) < |d|
    ensures RowDist(d, w, y, x + 1) == RowDist(d, w, y, x) +
      if (d[4 * (base + x)] == White) != (d[4 * (base + (w - 1 - x))] == White) then 1 else 0
  {
    assert MirrorDiffers(d, w, y, x) <==> ((d[4 * (base + x)] == White) != (d[4 * (base + (w - 1 - x))] == White));
  }

  /** The number of x below k at which row y differs from its mirror image. */
  function RowDist(d: Bytes, w: nat, y: nat, k: nat): nat
    requires k <= w / 2 && 4 * (y * w + w) <= |d|
  {
    if k == 0 then 0
    else RowDist(d, w, y, k - 1) + (if MirrorDiffers(d, w, y, k - 1) then 1 else 0)
  }

  /** Row bounds: row y of a w-wide image held in d lies inside d. */
  lemma {:induction false} RowInside(d: Bytes, w: nat, h: nat, y: nat)
    requires |d| == 4 * (w * h) && y < h
    ensures 4 * (y * w + w) <= |d|
  {
    assert y * w + w == (y + 1) * w;
    assert (y + 1) * w <= h * w;
  }

  /** The mismatches of the first `rows` rows. */
  function MirrorDist(d: Bytes, w: nat, h: nat, rows: nat): nat
    requires |d| == 4 * (w * h) && rows <= h
  {
    if rows == 0 then 0
    else
      RowInside(d, w, h, rows - 1);
      MirrorDist(d, w, h, rows - 1) + RowDist(d, w, rows - 1, w / 2)
  }

  /** Every pixel of the left half matches its mirror image across the vertical axis. */
  predicate MirrorSymmetric(d: Bytes, w: nat, h: nat)
    requires |d| == 4 * (w * h)
  {
    forall y, x :: 0 <= y < h && 0 <= x < w / 2 && 4 * (y * w + w) <= |d| ==> !MirrorDiffers(d, w, y, x)
  }

  /** `binaryBilateralSymmetryScore` as a value: one minus the fraction of mismatched mirror pairs, NaN when there are no pairs. */
  function SymmetryScore(d: Bytes, w: nat, h: nat): Num
    requires |d| == 4 * (w * h)
  {
    var pairs := (w / 2) * h;
    if pairs == 0 then NaN
    else Finite(1.0 - MirrorDist(d, w, h, h) as real / pairs as real)
  }

  lemma {:induction false} RowDistBound(d: Bytes, w: nat, y: nat, k: nat)
    requires k <= w / 2 && 4 * (y * w + w) <= |d|
    ensures RowDist(d, w, y, k) <= k
  {
    if k > 0 {
      RowDistBound(d, w, y, k - 1);
    }
  }

  lemma {:induction false} MirrorDistBound(d: Bytes, w: nat, h: nat, rows: nat)
    requires |d| == 4 * (w * h) && rows <= h
    ensures MirrorDist(d, w, h, rows) <= rows * (w / 2)
  {
    if rows > 0 {
      RowInside(d, w, h, rows - 1);
      MirrorDistBound(d, w, h, rows - 1);
      RowDistBound(d, w, rows - 1, w / 2);
      assert rows * (w / 2) == (rows - 1) * (w / 2) + w / 2;
    }
  }

  lemma {:induction false} RowDistZero(d: Bytes, w: nat, h: nat, y: nat, k: nat)
    requires |d| == 4 * (w * h) && y < h && k <= w / 2 && 4 * (y * w + w) <= |d|
    requires MirrorSymmetric(d, w, h)
    ensures RowDist(d, w, y, k) == 0
  {
    if k > 0 {
      RowDistZero(d, w, h, y, k - 1);
      assert !MirrorDiffers(d, w, y, k - 1);
    }
  }

  lemma {:induction false} MirrorDistZero(d: Bytes, w: nat, h: nat, rows: nat)
    requires |d| == 4 * (w * h) && rows <= h
    requires MirrorSymmetric(d, w, h)
    ensures MirrorDist(d, w, h, rows) == 0
  {
    if rows > 0 {
      MirrorDistZero(d, w, h, rows - 1);
      RowInside(d, w, h, rows - 1);
      RowDistZero(d, w, h, rows - 1, w / 2);
    }
  }

  lemma {:induction false} Fraction(a: nat, b: nat)
    requires 0 < b && a <= b
    ensures 0.0 <= a as real / b as real <= 1.0
  {
  }

  /** The score is NaN or lies in [0, 1], and it is 1 for a mirror-symmetric image. */
  lemma {:induction false} SymmetryScoreRange(d: Bytes, w: nat, h: nat)
    requires |d| == 4 * (w * h)
    ensures SymmetryScore(d, w, h).NaN? <==> (w / 2) * h == 0
    ensures SymmetryScore(d, w, h).Finite? ==> 0.0 <= SymmetryScore(d, w, h).r <= 1.0
    ensures (w / 2) * h > 0 && MirrorSymmetric(d, w, h) ==> SymmetryScore(d, w, h) == Finite(1.0)
  {
    var pairs := (w / 2) * h;
    var dist := MirrorDist(d, w, h, h);
    assert SymmetryScore(d, w, h) == if pairs == 0 then NaN else Finite(1.0 - dist as real / pairs as real);
    if pairs > 0 {
      MirrorDistBound(d, w, h, h);
      assert h * (w / 2) == pairs;
      ScoreInUnit(dist, pairs);
      if MirrorSymmetric(d, w, h) {
        MirrorDistZero(d, w, h, h);
      }
    }
  }

  /** One minus a fraction of at most one lies in [0, 1]. */
  lemma {:induction false} ScoreInUnit(a: nat, b: nat)
    requires 0 < b && a <= b
    ensures 0.0 <= 1.0 - a as real / b as real <= 1.0
  {
    Fraction(a, b);
  }

  // ---------------------------------------------------------------------
  // Packing one bit per pixel

  /** Pixel p is dark: red, green and blue all below 128. */
  predicate Dark(d: Bytes, p: nat)
    requires 4 * p + 3 < |d|
  {
    d[4 * p] < Half && d[4 * p + 1] < Half && d[4 * p + 2] < Half
  }

  /** The bit `toBinaryByteArray` stores for pixel p. */
  function DarkBit(d: Bytes, p: nat): (b: bv8)
    requires 4 * p + 3 < |d|
  {
    if Dark(d, p) then 1 else 0
  }

  /** Bit r of byte b is set. */
  predicate BitOf(b: bv8, r: nat)
    requires r < 8
  {
    b & Mask(r) != 0
  }

  /** Byte j holding the first k of its eight pixels, bit r for pixel 8j + r. */
  function PackFrom(d: Bytes, j: nat, k: nat): bv8
    requires k <= 8 && 4 * (8 * j + k) <= |d|
  {
    if k == 0 then 0
    else PackFrom(d, j, k - 1) | (if Dark(d, 8 * j + k - 1) then Mask(k - 1) else 0)
  }

  /** How many of byte j's pixels lie below pixel i. */
  function Covered(i: int, j: nat): (k: nat)
    ensures k <= 8
    ensures i >= 8 * j ==> 8 * j + k <= i
    ensures i <= 8 * j ==> k == 0
  {
    if i - 8 * j <= 0 then 0 else if i - 8 * j >= 8 then 8 else i - 8 * j
  }

  /** The packed form of the first n pixels: bit r of byte j is set iff pixel 8j + r is dark. */
  function Encode(d: Bytes, n: nat): (r: Bytes)
    requires 4 * n <= |d|
    ensures |r| == NumBytes(n)
  {
    Partial(d, n, n)
  }

  /** The bytes for n pixels once the first i of them are packed. */
  function Partial(d: Bytes, n: nat, i: nat): (r: Bytes)
    requires 4 * n <= |d| && i <= n
    ensures |r| == NumBytes(n)
  {
    seq(NumBytes(n), j requires 0 <= j < NumBytes(n) => PackFrom(d, j, Covered(i, j)))
  }

  /** Before any pixel is packed every byte is zero. */
  lemma {:induction false} PartialZero(d: Bytes, n: nat)
    requires 4 * n <= |d|
    ensures Partial(d, n, 0) == seq(NumBytes(n), j => 0)
  {
    forall j | 0 <= j < NumBytes(n) ensures Partial(d, n, 0)[j] == 0 {
      assert Covered(0, j) == 0;
    }
  }

  /** The byte with only bit r set. */
  function Mask(r: nat): bv8
    requires r < 8
  {
    if r == 0 then 1 else if r == 1 then 2 else if r == 2 then 4 else if r == 3 then 8
    else if r == 4 then 16 else if r == 5 then 32 else if r == 6 then 64 else 128
  }

  /** `(b >> r) & 1` reads bit r. */
  lemma {:induction false} ShiftReadsBit(b: bv8, r: nat)
    requires r < 8
    ensures (b >> r) & 1 == (if BitOf(b, r) then 1 else 0)
  {
    if r == 0 {} else if r == 1 {} else if r == 2 {} else if r == 3 {}
    else if r == 4 {} else if r == 5 {} else if r == 6 {} else {}
  }

  /** `bit << s` for a bit is the mask of s or nothing. */
  lemma {:induction false} ShiftedBit(b: bv8, s: nat)
    requires s < 8 && (b == 0 || b == 1)
    ensures b << s == if b == 1 then Mask(s) else 0
  {
    if s == 0 {} else if s == 1 {} else if s == 2 {} else if s == 3 {}
    else if s == 4 {} else if s == 5 {} else if s == 6 {} else {}
  }

  /** Setting bit s with `|` leaves every other bit as it was. */
  lemma {:induction false} BitOfOrMask(x: bv8, s: nat, r: nat)
    requires s < 8 && r < 8
    ensures BitOf(x | Mask(s), r) <==> BitOf(x, r) || r == s
  {
  }

  lemma {:induction false} BitOfZero(r: nat)
    requires r < 8
    ensures !BitOf(0, r)
  {
  }

  /** Bit r of a byte holding k pixels is the darkness of pixel 8j + r, and unset beyond k. */
  lemma {:induction false} PackFromBit(d: Bytes, j: nat, k: nat, r: nat)
    requires k <= 8 && 4 * (8 * j + k) <= |d| && r < 8
    ensures BitOf(PackFrom(d, j, k), r) <==> r < k && Dark(d, 8 * j + r)
  {
    if k == 0 {
      BitOfZero(r);
    } else {
      PackFromBit(d, j, k - 1, r);
      if Dark(d, 8 * j + k - 1) {
        BitOfOrMask(PackFrom(d, j, k - 1), k - 1, r);
      } else {
        assert PackFrom(d, j, k - 1) | 0 == PackFrom(d, j, k - 1);
      }
    }
  }

  /** Bit i of the packed form, read the way `fromBinaryByteArray` does, is the darkness of pixel i. */
  lemma {:induction false} EncodeBit(d: Bytes, n: nat, i: nat)
    requires 4 * n <= |d| && i < n
    ensures i / 8 < |Encode(d, n)|
    ensures BitOf(Encode(d, n)[i / 8], i % 8) <==> Dark(d, i)
  {
    var j := i / 8;
    assert 8 * j + i % 8 == i;
    PackFromBit(d, j, Covered(n, j), i % 8);
  }

  /** A byte of the array, with a missing byte read as 0 (`undefined >> r` is 0). */
  function ByteAt(arr: Bytes, k: nat): bv8 {
    if k < |arr| then arr[k] else 0
  }

  /** `fromBinaryByteArray`'s pixels: black where the bit is set, white elsewhere, always opaque. */
  function Decode(arr: Bytes, n: nat): (r: Bytes)
    ensures |r| == 4 * n
  {
    seq(4 * n, k requires 0 <= k < 4 * n => DecodedByte(arr, k))
  }

  /** Byte k of the decoded buffer, channel k % 4 of pixel k / 4. */
  function DecodedByte(arr: Bytes, k: nat): bv8 {
    if k % 4 == 3 then White
    else if BitOf(ByteAt(arr, k / 4 / 8), k / 4 % 8) then 0 else White
  }

  lemma {:induction false} DecodedByteAt(arr: Bytes, i: nat, c: nat)
    requires c < 4
    ensures DecodedByte(arr, 4 * i + c) ==
      if c == 3 then White else if BitOf(ByteAt(arr, i / 8), i % 8) then 0 else White
  {
    assert (4 * i + c) / 4 == i && (4 * i + c) % 4 == c;
  }

  /** What a round trip can keep of an image: each pixel black if dark, white if not, and opaque. */
  function Binarised(d: Bytes, n: nat): (r: Bytes)
    requires 4 * n <= |d|
    ensures |r| == 4 * n
  {
    seq(4 * n, k requires 0 <= k < 4 * n =>
      if k % 4 == 3 then White else if Dark(d, k / 4) then 0 else White)
  }

  /** Decoding an encoded image gives the image binarised. */
  lemma {:induction false} RoundTrip(d: Bytes, n: nat)
    requires 4 * n <= |d|
    ensures Decode(Encode(d, n), n) == Binarised(d, n)
  {
    forall k | 0 <= k < 4 * n ensures Decode(Encode(d, n), n)[k] == Binarised(d, n)[k] {
      EncodeBit(d, n, k / 4);
    }
  }

  /** Every pixel is opaque black or opaque white. */
  predicate IsBinary(d: Bytes, n: nat)
    requires 4 * n <= |d|
  {
    forall p :: 0 <= p < n ==>
      d[4 * p + 3] == White &&
      ((d[4 * p] == 0 && d[4 * p + 1] == 0 && d[4 * p + 2] == 0) ||
       (d[4 * p] == White && d[4 * p + 1] == White && d[4 * p + 2] == White))
  }

  /** On a binary image the round trip is the identity. */
  lemma {:induction false} RoundTripBinary(d: Bytes, n: nat)
    requires |d| == 4 * n && IsBinary(d, n)
    ensures Decode(Encode(d, n), n) == d
  {
    RoundTrip(d, n);
    forall k | 0 <= k < 4 * n ensures Binarised(d, n)[k] == d[k] {
      var p := k / 4;
      assert k == 4 * p + k % 4;
    }
  }

  /** One pass of the packing loop: pixel i's bit goes into byte i / 8 at position i % 8, and no other byte changes. */
  lemma {:induction false} PackStep(d: Bytes, n: nat, i: nat, arr: Bytes, arr': Bytes)
    requires 4 * n <= |d| && i < n && arr == Partial(d, n, i)
    requires i / 8 < |arr| && arr' == arr[i / 8 := arr[i / 8] | (if Dark(d, i) then Mask(i % 8) else 0)]
    ensures arr' == Partial(d, n, i + 1)
  {
    var bi := i / 8;
    assert 8 * bi + i % 8 == i;
    assert Covered(i, bi) == i % 8 && Covered(i + 1, bi) == i % 8 + 1;
    forall j | 0 <= j < |arr| && j != bi ensures Covered(i + 1, j) == Covered(i, j) {
      if j < bi {
        assert 8 * j + 8 <= i;
      } else {
        assert 8 * j >= i + 1;
      }
    }
  }

  // ---------------------------------------------------------------------
  // The image object

  class ImageData2D {
    var width: nat
    var height: nat
    var data: array<bv8>

    ghost predicate Valid()
      reads this
    {
      data.Length == 4 * (width * height)
    }

    /** `new ImageData2D()`: no pixels yet. */
    constructor()
      ensures Valid() && width == 0 && height == 0
    {
      width, height := 0, 0;
      data := new bv8[0];
    }

    /** `fillWhite`: a new buffer only when the dimensions change, then every byte 255. */
    method FillWhite(w: nat, h: nat)
      requires Valid()
      modifies this, data
      ensures Valid() && width == w && height == h
      ensures forall k :: 0 <= k < data.Length ==> data[k] == White
      ensures old(width) == w && old(height) == h ==> data == old(data)
      ensures old(width) != w || old(height) != h ==> fresh(data)
    {
      if width != w || height != h {
        width := w;
        height := h;
        data := new bv8[4 * (w * h)];
      }
      var k := 0;
      while k < data.Length
        invariant 0 <= k <= data.Length
        invariant forall m :: 0 <= m < k ==> data[m] == White
        invariant width == w && height == h && Valid()
        invariant old(width) == w && old(height) == h ==> data == old(data)
        invariant old(width) != w || old(height) != h ==> fresh(data)
        modifies data
      {
        data[k] := White;
        k := k + 1;
      }
    }

    /** `numSameBinary`: the number of pixels on which both images agree about being empty; an error when the dimensions differ. */
    method NumSameBinary(other: ImageData2D) returns (r: Result<nat>)
      requires Valid() && other.Valid()
      ensures (width != other.width || height != other.height) <==> r.Err?
      ensures r.Ok? ==> r.value == SameCount(data[..], other.data[..], width * height)
    {
      if width != other.width || height != other.height {
        return Err("numSameBinary: image dimensions do not match");
      }
      var sim := 0;
      var p := 0;
      var n := width * height;
      while p < n
        invariant 0 <= p <= n
        invariant sim == SameCount(data[..], other.data[..], p)
      {
        var eq := (data[4 * p] == White) == (other.data[4 * p] == White);
        if eq {
          sim := sim + 1;
        }
        p := p + 1;
      }
      return Ok(sim);
    }

    /** `numFilled`: the number of pixels whose red channel is not 255. */
    method NumFilled() returns (count: nat)
      requires Valid()
      ensures count == FilledCount(data[..], width * height)
    {
      count := 0;
      var p := 0;
      var n := width * height;
      while p < n
        invariant 0 <= p <= n
        invariant count == FilledCount(data[..], p)
      {
        if data[4 * p] != White {
          count := count + 1;
        }
        p := p + 1;
      }
    }

    /** `binaryBilateralSymmetryScore`: row by row, each left-half pixel against its mirror image. */
    method BinaryBilateralSymmetryScore() returns (score: Num)
      requires Valid()
      ensures score == SymmetryScore(data[..], width, height)
    {
      var w := width;
      var h := height;
      var whalf := w / 2;
      var dist := 0;
      var y := 0;
      while y < h
        invariant 0 <= y <= h
        invariant dist == MirrorDist(data[..], w, h, y)
      {
        RowInside(data[..], w, h, y);
        var rowDist := RowMismatches(y);
        dist := dist + rowDist;
        y := y + 1;
      }
      if whalf * h == 0 {
        score := NaN;
      } else {
        score := Finite(1.0 - dist as real / (whalf * h) as real);
      }
    }

    /** The inner loop of `binaryBilateralSymmetryScore`: the mismatches of row y against its mirror image. */
    method RowMismatches(y: nat) returns (rowDist: nat)
      requires Valid() && 4 * (y * width + width) <= data.Length
      ensures rowDist == RowDist(data[..], width, y, width / 2)
    {
      var w := width;
      var whalf := w / 2;
      var base := y * w;
      ghost var d := data[..];
      var x := 0;
      rowDist := 0;
      while x < whalf
        invariant 0 <= x <= whalf
        invariant rowDist == RowDist(d, w, y, x)
      {
        var xmirr := w - 1 - x;
        var i := base + x;
        var imirr := base + xmirr;
        MirrorPixels(d, w, y, x, base);
        assert data[4 * i] == d[4 * i] && data[4 * imirr] == d[4 * imirr];
        if (data[4 * i] == White) != (data[4 * imirr] == White) {
          rowDist := rowDist + 1;
        }
        x := x + 1;
      }
    }

    /** `toBinaryByteArray`: ceil(w·h/8) zero bytes, then each dark pixel's bit set, little-endian within its byte. */
    method ToBinaryByteArray() returns (arr: Bytes)
      requires Valid()
      ensures arr == Encode(data[..], width * height)
    {
      var numPixels := width * height;
      var numBytes := NumBytes(numPixels);
      arr := [];
      var i := 0;
      while i < numBytes
        invariant 0 <= i <= numBytes && arr == seq(i, j => 0)
      {
        arr := arr + [0];
        i := i + 1;
      }
      ghost var d := data[..];
      PartialZero(d, numPixels);
      i := 0;
      while i < numPixels
        invariant 0 <= i <= numPixels && arr == Partial(d, numPixels, i)
      {
        var r := data[4 * i];
        var g := data[4 * i + 1];
        var b := data[4 * i + 2];
        var bit: bv8 := if r < Half && g < Half && b < Half then 1 else 0;
        var byteIndex := i / 8;
        var byteRem := i % 8;
        ShiftedBit(bit, byteRem);
        ghost var before := arr;
        arr := arr[byteIndex := arr[byteIndex] | (bit << byteRem)];
        PackStep(d, numPixels, i, before, arr);
        i := i + 1;
      }
    }

    /** `fromBinaryByteArray`: resize and whiten, then write every pixel from its bit. */
    method FromBinaryByteArray(arr: Bytes, w: nat, h: nat)
      requires Valid()
      modifies this, data
      ensures Valid() && width == w && height == h
      ensures data[..] == Decode(arr, w * h)
    {
      FillWhite(w, h);
      WritePixels(arr, w * h);
    }

    /** The loop of `fromBinaryByteArray`: all four bytes of every pixel are written, so the whitening before it leaves no trace. */
    method WritePixels(arr: Bytes, numPixels: nat)
      requires data.Length == 4 * numPixels
      modifies data
      ensures data[..] == Decode(arr, numPixels)
    {
      var i := 0;
      while i < numPixels
        invariant 0 <= i <= numPixels
        invariant forall k :: 0 <= k < 4 * i ==> data[k] == DecodedByte(arr, k)
      {
        WritePixel(arr, i);
        i := i + 1;
      }
      assert forall k :: 0 <= k < 4 * numPixels ==> data[k] == Decode(arr, numPixels)[k];
    }

    /** One pass of that loop: the four bytes of pixel i from its bit, every other byte kept. */
    method WritePixel(arr: Bytes, i: nat)
      requires 4 * i + 3 < data.Length
      modifies data
      ensures forall k :: 0 <= k < data.Length && (k < 4 * i || 4 * i + 4 <= k) ==> data[k] == old(data[k])
      ensures forall k :: 4 * i <= k < 4 * i + 4 ==> data[k] == DecodedByte(arr, k)
    {
      var byteIndex := i / 8;
      var byteRem := i % 8;
      var bit := (ByteAt(arr, byteIndex) >> byteRem) & 1;
      ShiftReadsBit(ByteAt(arr, byteIndex), byteRem);
      var pixel: bv8 := if bit == 1 then 0 else White;
      data[4 * i] := pixel;
      data[4 * i + 1] := pixel;
      data[4 * i + 2] := pixel;
      data[4 * i + 3] := White;
      forall k | 4 * i <= k < 4 * i + 4
        ensures data[k] == DecodedByte(arr, k)
      {
        DecodedByteAt(arr, i, k - 4 * i);
      }
    }
  }
}
