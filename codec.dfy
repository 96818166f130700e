/** The interval codec: `encode` bisects the longitude and latitude ranges,
    one bit at a time (even bit indices refine longitude, odd ones latitude),
    and packs every five bits into one symbol; `decode_bbox` replays the same
    bisection from the symbols' bits; `decode` returns the box's centre and
    half-extents. */
module Codec {
  import opened Alphabet
  import opened Bits

  /** A point: `x` is the longitude, `y` the latitude. */
  datatype Coord = Coord(x: real, y: real)

  /** A bounding box given by its minimum and maximum corners. */
  datatype BBox = BBox(min: Coord, max: Coord)

  /** The single failure: the character at `index` is not in the alphabet
      (where the source's lookup panics). */
  datatype Error = InvalidSymbol(index: nat)

  datatype Result<+T> = Ok(value: T) | Err(error: Error)

  /** What `decode` returns: the centre, then half the latitude extent, then
      half the longitude extent (in this order). */
  datatype Decoded = Decoded(center: Coord, latErr: real, lonErr: real)

  const World: BBox := BBox(Coord(-180.0, -90.0), Coord(180.0, 90.0))

  predicate InWorld(c: Coord) {
    -180.0 <= c.x <= 180.0 && -90.0 <= c.y <= 90.0
  }

  /** `c` lies in the closed box `b`. */
  predicate Contains(b: BBox, c: Coord) {
    b.min.x <= c.x <= b.max.x && b.min.y <= c.y <= b.max.y
  }

  /** `c` lies in `b` open at its minimum edges and closed at its maximum
      ones: the points that the strict `>` of the bisection sends into `b`. */
  predicate InCell(b: BBox, c: Coord) {
    b.min.x < c.x <= b.max.x && b.min.y < c.y <= b.max.y
  }

  predicate Within(inner: BBox, outer: BBox) {
    outer.min.x <= inner.min.x && inner.max.x <= outer.max.x &&
    outer.min.y <= inner.min.y && inner.max.y <= outer.max.y
  }

  function Center(b: BBox): Coord {
    Coord((b.max.x + b.min.x) / 2.0, (b.max.y + b.min.y) / 2.0)
  }

  predicate IsGeohash(h: string) {
    forall i :: 0 <= i < |h| ==> IsSymbol(h[i])
  }

  // ---------------------------------------------------------------------
  // The bisection, one bit at a time

  /** Halving the longitude range when `lon` and the latitude range
      otherwise: a 1 keeps the upper half (the midpoint becomes the minimum),
      a 0 the lower half (it becomes the maximum). */
  function NarrowAxis(b: BBox, lon: bool, bit: bool): BBox {
    if lon then
      var mid := (b.max.x + b.min.x) / 2.0;
      if bit then BBox(Coord(mid, b.min.y), b.max) else BBox(b.min, Coord(mid, b.max.y))
    else
      var mid := (b.max.y + b.min.y) / 2.0;
      if bit then BBox(Coord(b.min.x, mid), b.max) else BBox(b.min, Coord(b.max.x, mid))
  }

  /** Bit number `k` refines the longitude when `k` is even and the latitude
      when `k` is odd. */
  function Narrow(b: BBox, k: nat, bit: bool): BBox {
    NarrowAxis(b, k % 2 == 0, bit)
  }

  /** The box that a bit string denotes: the world, narrowed by each bit in
      turn. */
  function BoxOf(bits: seq<bool>): BBox {
    if bits == [] then World
    else
      var k := |bits| - 1;
      Narrow(BoxOf(bits[..k]), k, bits[k])
  }

  /** The bit that the encoder emits at index `k` for `c` when the current
      box is `b`: 1 exactly when `c` is strictly above the midpoint of the
      axis that `k` refines. */
  function BitFor(c: Coord, b: BBox, k: nat): bool {
    if k % 2 == 0 then c.x > (b.max.x + b.min.x) / 2.0
    else c.y > (b.max.y + b.min.y) / 2.0
  }

  /** The encoder's progress: the bits emitted so far and the box they have
      narrowed the world to. */
  datatype Bisection = Bisection(bits: seq<bool>, box: BBox)

  /** One pass of the encoder's loop: emit the bit `BitFor` picks and narrow
      the box accordingly. */
  function Advance(c: Coord, s: Bisection): Bisection {
    var k := |s.bits|;
    var bit := BitFor(c, s.box, k);
    Bisection(s.bits + [bit], Narrow(s.box, k, bit))
  }

  /** The encoder's state after `n` passes. */
  function EncodeRun(c: Coord, n: nat): (r: Bisection)
    ensures |r.bits| == n
  {
    if n == 0 then Bisection([], World) else Advance(c, EncodeRun(c, n - 1))
  }

  /** The first `n` bits the encoder emits for `c`. */
  function EncodeBits(c: Coord, n: nat): (r: seq<bool>)
    ensures |r| == n
  {
    EncodeRun(c, n).bits
  }

  // ---------------------------------------------------------------------
  // Symbols and bits

  /** The bits of a geohash, five per symbol, most significant first. */
  function HashBits(h: string): (r: seq<bool>)
    requires IsGeohash(h)
    ensures |r| == 5 * |h|
  {
    if h == [] then []
    else
      var n := |h| - 1;
      HashBits(h[..n]) + ToBits(Position(h[n]).value, 5)
  }

  /** The bit the encoder emits at index `n` for `c`. */
  function EncodeBit(c: Coord, n: nat): bool {
    BitFor(c, EncodeRun(c, n).box, n)
  }

  /** The symbols of `m` groups of five bits, each read most significant
      bit first. */
  function Pack(bits: seq<bool>, m: nat): (r: string)
    requires |bits| == 5 * m
    ensures |r| == m && IsGeohash(r)
  {
    if m == 0 then []
    else Pack(bits[..5 * (m - 1)], m - 1) + [SymbolFor(FromBits(bits[5 * (m - 1)..]))]
  }

  /** The geohash of `c` with `len` symbols: the encoder's first `5 * len`
      bits, packed five at a time. */
  function Encoded(c: Coord, len: nat): (r: string)
    ensures |r| == len && IsGeohash(r)
  {
    Pack(EncodeBits(c, 5 * len), len)
  }

  /** The bits emitted for a shorter length are a prefix of those for a
      longer one. */
  lemma {:induction false} EncodeBitsPrefix(c: Coord, m: nat, n: nat)
    requires m <= n
    ensures EncodeBits(c, n)[..m] == EncodeBits(c, m)
  {
    if m < n {
      EncodeBitsPrefix(c, m, n - 1);
      var p := EncodeBits(c, n - 1);
      assert EncodeBits(c, n)[..n - 1] == p;
    }
  }

  /** The index of the first character of `h` outside the alphabet. */
  function FirstInvalid(h: string): (r: nat)
    requires !IsGeohash(h)
    ensures r < |h| && !IsSymbol(h[r]) && IsGeohash(h[..r])
  {
    if !IsSymbol(h[0]) then 0
    else
      var r := 1 + FirstInvalid(h[1..]);
      assert h[..r] == [h[0]] + h[1..][..r - 1];
      r
  }

  /** The bounding box of a geohash, or the position of its first invalid
      character. */
  function BBoxOf(h: string): (r: Result<BBox>)
    ensures r.Ok? <==> IsGeohash(h)
  {
    if IsGeohash(h) then Ok(BoxOf(HashBits(h))) else Err(InvalidSymbol(FirstInvalid(h)))
  }

  /** The centre of the box of `h` and its half-extents. */
  function Decode(h: string): (r: Result<Decoded>)
    ensures r.Ok? <==> IsGeohash(h)
    ensures r.Err? ==> r.error == BBoxOf(h).error
    ensures r.Ok? ==>
      var b, d := BBoxOf(h).value, r.value;
      0.0 < d.latErr && 0.0 < d.lonErr &&
      b.min.x == d.center.x - d.lonErr && b.max.x == d.center.x + d.lonErr &&
      b.min.y == d.center.y - d.latErr && b.max.y == d.center.y + d.latErr
  {
    match BBoxOf(h)
    case Err(e) => Err(e)
    case Ok(b) =>
      BoxOfShape(HashBits(h));
      Ok(Decoded(Center(b), (b.max.y - b.min.y) / 2.0, (b.max.x - b.min.x) / 2.0))
  }

  /** `w` halved `n` times. */
  function Halved(w: real, n: nat): real {
    if n == 0 then w else Halved(w, n - 1) / 2.0
  }

  /** Halving `n` times is dividing by `2^n`. */
  lemma {:induction false} HalvedPow2(w: real, n: nat)
    ensures Halved(w, n) * (Pow2(n) as real) == w
  {
    if n > 0 {
      HalvedPow2(w, n - 1);
      var h, p := Halved(w, n - 1), Pow2(n - 1) as real;
      assert h / 2.0 * (2.0 * p) == h * p;
    }
  }

  /** Halving `a + b` times is halving `a` times and then `b` times. */
  lemma {:induction false} HalvedSplit(w: real, a: nat, b: nat)
    ensures Halved(w, a + b) == Halved(Halved(w, a), b)
  {
    if b > 0 {
      HalvedSplit(w, a, b - 1);
    }
  }

  /** `b` is a proper box inside the world whose longitude range is the
      world's halved `lonHalvings` times and whose latitude range is the
      world's halved `latHalvings` times. */
  predicate Shaped(b: BBox, lonHalvings: nat, latHalvings: nat) {
    Within(b, World) && 0.0 < b.max.x - b.min.x && 0.0 < b.max.y - b.min.y &&
    b.max.x - b.min.x == Halved(360.0, lonHalvings) &&
    b.max.y - b.min.y == Halved(180.0, latHalvings)
  }

  /** The box of `n` bits: `n` bits halve the longitude range `(n + 1) / 2`
      times (the even-numbered bits) and the latitude range `n / 2` times
      (the odd-numbered ones). */
  lemma {:induction false} BoxOfShape(bits: seq<bool>)
    ensures Shaped(BoxOf(bits), (|bits| + 1) / 2, |bits| / 2)
  {
    if bits != [] {
      var k := |bits| - 1;
      BoxOfShape(bits[..k]);
      NarrowShaped(BoxOf(bits[..k]), (k + 1) / 2, k / 2, k % 2 == 0, bits[k], (|bits| + 1) / 2, |bits| / 2);
    }
  }

  /** One halving of a shaped box adds one halving to the axis it refines. */
  lemma {:induction false} NarrowShaped(p: BBox, lonN: nat, latN: nat, lon: bool, bit: bool, lonN': nat, latN': nat)
    requires Shaped(p, lonN, latN)
    requires lonN' == (if lon then lonN + 1 else lonN) && latN' == (if lon then latN else latN + 1)
    ensures Shaped(NarrowAxis(p, lon, bit), lonN', latN')
  {
    if lon {
      assert Halved(360.0, lonN') == Halved(360.0, lonN) / 2.0;
    } else {
      assert Halved(180.0, latN') == Halved(180.0, latN) / 2.0;
    }
  }

  // ---------------------------------------------------------------------
  // The two loops

  /** `encode`: bisect, emitting one bit per step, and push a symbol after
      every fifth bit. */
  method Encode(c: Coord, len: nat) returns (out: string)
    ensures out == Encoded(c, len)
  {
    out := [];
    var bits: nat := 0;
    var bitsTotal: nat := 0;
    var hashValue: nat := 0;
    var maxLat, minLat, maxLon, minLon := 90.0, -90.0, 180.0, -180.0;
    while |out| < len
      invariant |out| <= len && bits < 5 && bitsTotal == 5 * |out| + bits
      invariant |out| == len ==> bits == 0
      invariant EncodeRun(c, bitsTotal).box == BBox(Coord(minLon, minLat), Coord(maxLon, maxLat))
      invariant out == Encoded(c, |out|)
      invariant hashValue == FromBits(EncodeBits(c, bitsTotal)[5 * |out|..])
      decreases 5 * len - bitsTotal
    {
      EncodeStep(c, |out|, bits, bitsTotal);
      hashValue, minLon, maxLon, minLat, maxLat := Refine(c, bitsTotal, hashValue, minLon, maxLon, minLat, maxLat);
      bits := bits + 1;
      bitsTotal := bitsTotal + 1;
      if bits == 5 {
        var code: char := SymbolFor(hashValue);
        out := out + [code];
        bits := 0;
        hashValue := 0;
      }
    }
  }

  /** The bisection step of `encode`'s loop: halve the longitude range
      when `bitsTotal` is even and the latitude range when it is odd, keep
      the half that holds `c` (the upper one when `c` lies strictly above
      the midpoint), and shift the corresponding bit into the accumulator. */
  method Refine(c: Coord, bitsTotal: nat, hashValue0: nat, minLon0: real, maxLon0: real, minLat0: real, maxLat0: real)
    returns (hashValue: nat, minLon: real, maxLon: real, minLat: real, maxLat: real)
    requires BBox(Coord(minLon0, minLat0), Coord(maxLon0, maxLat0)) == EncodeRun(c, bitsTotal).box
    ensures BBox(Coord(minLon, minLat), Coord(maxLon, maxLat)) == EncodeRun(c, bitsTotal + 1).box
    ensures hashValue == 2 * hashValue0 + (if EncodeBit(c, bitsTotal) then 1 else 0)
  {
    hashValue, minLon, maxLon, minLat, maxLat := hashValue0, minLon0, maxLon0, minLat0, maxLat0;
    var mid: real;
    if bitsTotal % 2 == 0 {
      mid := (maxLon + minLon) / 2.0;
      if c.x > mid {
        hashValue := hashValue * 2 + 1;
        minLon := mid;
      } else {
        hashValue := hashValue * 2;
        maxLon := mid;
      }
    } else {
      mid := (maxLat + minLat) / 2.0;
      if c.y > mid {
        hashValue := hashValue * 2 + 1;
        minLat := mid;
      } else {
        hashValue := hashValue * 2;
        maxLat := mid;
      }
    }
    BoxSnoc(c, bitsTotal);
  }

  /** The box after one more pass is the current one narrowed by the bit
      that pass emits. */
  lemma BoxSnoc(c: Coord, n: nat)
    ensures EncodeRun(c, n + 1).box == Narrow(EncodeRun(c, n).box, n, EncodeBit(c, n))
  {
    assert |EncodeRun(c, n).bits| == n;
  }

  /** What one pass of the encoder's loop needs about its accumulator: it
      shifts in the bit the pass emits, and after a fifth bit it holds the
      value of the next symbol. */
  lemma {:induction false} EncodeStep(c: Coord, m: nat, j: nat, n: nat)
    requires j < 5 && n == 5 * m + j
    ensures FromBits(EncodeBits(c, n + 1)[5 * m..]) == 2 * FromBits(EncodeBits(c, n)[5 * m..]) + (if EncodeBit(c, n) then 1 else 0)
    ensures j == 4 ==> var v := FromBits(EncodeBits(c, n + 1)[5 * m..]);
      v < 32 && Encoded(c, m + 1) == Encoded(c, m) + [SymbolFor(v)]
  {
    var prev := EncodeBits(c, n);
    assert EncodeBits(c, n + 1) == prev + [EncodeBit(c, n)];
    SliceSnocValue(prev, EncodeBit(c, n), 5 * m);
    if j == 4 {
      EncodedSnoc(c, m, n + 1);
    }
  }

  /** The geohash one symbol longer appends the symbol of the next five
      bits. */
  lemma EncodedSnoc(c: Coord, m: nat, n: nat)
    requires n == 5 * m + 5
    ensures var v := FromBits(EncodeBits(c, n)[5 * m..]);
      v < 32 && Encoded(c, m + 1) == Encoded(c, m) + [SymbolFor(v)]
  {
    var bits := EncodeBits(c, n);
    var v := FromBits(bits[5 * m..]);
    assert v < 32 by {
      Pow2Five();
    }
    assert Encoded(c, m + 1) == Pack(bits[..5 * m], m) + [SymbolFor(v)];
    EncodeBitsPrefix(c, 5 * m, n);
  }

  /** `decode_bbox`: replay the bisection from each symbol's five bits, most
      significant first, toggling the axis after every bit. */
  method DecodeBBox(h: string) returns (r: Result<BBox>)
    ensures r == BBoxOf(h)
  {
    var isLon := true;
    var maxLat, minLat, maxLon, minLon := 90.0, -90.0, 180.0, -180.0;
    DecodeFromStart(h);
    for i := 0 to |h|
      invariant DecodeFrom(h, i, BBox(Coord(minLon, minLat), Coord(maxLon, maxLat)), isLon) == BBoxOf(h)
    {
      var position := Position(h[i]);
      if position.None? {
        return Err(InvalidSymbol(i));
      }
      var hashValue := position.value;
      isLon, minLon, maxLon, minLat, maxLat := DecodeSymbol(hashValue, isLon, minLon, maxLon, minLat, maxLat);
    }
    r := Ok(BBox(Coord(minLon, minLat), Coord(maxLon, maxLat)));
  }

  /** The inner loop of `decode_bbox`: narrow the box by the five bits of
      one symbol's value, most significant first, toggling the axis after
      every bit. */
  method DecodeSymbol(hashValue: nat, isLon0: bool, minLon0: real, maxLon0: real, minLat0: real, maxLat0: real)
    returns (isLon: bool, minLon: real, maxLon: real, minLat: real, maxLat: real)
    ensures isLon == !isLon0
    ensures BBox(Coord(minLon, minLat), Coord(maxLon, maxLat)) ==
      NarrowSymbol(BBox(Coord(minLon0, minLat0), Coord(maxLon0, maxLat0)), isLon0, hashValue, 0)
  {
    isLon, minLon, maxLon, minLat, maxLat := isLon0, minLon0, maxLon0, minLat0, maxLat0;
    for bs := 0 to 5
      invariant isLon == Toggled(isLon0, bs)
      invariant NarrowSymbol(BBox(Coord(minLon, minLat), Coord(maxLon, maxLat)), isLon, hashValue, bs) ==
        NarrowSymbol(BBox(Coord(minLon0, minLat0), Coord(maxLon0, maxLat0)), isLon0, hashValue, 0)
    {
      var bit := Shr(hashValue, 4 - bs) % 2;
      ghost var next := NarrowAxis(BBox(Coord(minLon, minLat), Coord(maxLon, maxLat)), isLon, bit == 1);
      if isLon {
        minLon, maxLon := Halve(bit == 1, minLon, maxLon);
      } else {
        minLat, maxLat := Halve(bit == 1, minLat, maxLat);
      }
      assert BBox(Coord(minLon, minLat), Coord(maxLon, maxLat)) == next;
      isLon := !isLon;
    }
    ToggledFive(isLon0);
  }

  /** One halving of the range `lo..hi` around its midpoint: a 1 keeps the
      upper half, a 0 the lower one. */
  method Halve(upper: bool, lo: real, hi: real) returns (lo': real, hi': real)
    ensures upper ==> lo' == (hi + lo) / 2.0 && hi' == hi
    ensures !upper ==> lo' == lo && hi' == (hi + lo) / 2.0
  {
    var mid := (hi + lo) / 2.0;
    if upper {
      lo', hi' := mid, hi;
    } else {
      lo', hi' := lo, mid;
    }
  }

  /** The box `b` narrowed by bits `bs` to 4 of the five bits of `v`, most
      significant first, the first of them on the longitude axis when
      `lon`. */
  function NarrowSymbol(b: BBox, lon: bool, v: nat, bs: nat): BBox
    requires bs <= 5
    decreases 5 - bs
  {
    if bs == 5 then b
    else NarrowSymbol(NarrowAxis(b, lon, Shr(v, 4 - bs) % 2 == 1), !lon, v, bs + 1)
  }

  /** `lon` after `n` toggles. */
  function Toggled(lon: bool, n: nat): bool {
    if n == 0 then lon else !Toggled(lon, n - 1)
  }

  /** Five toggles change the axis. */
  lemma ToggledFive(lon: bool)
    ensures Toggled(lon, 5) == !lon
  {
    assert Toggled(lon, 1) == !lon;
    assert Toggled(lon, 2) == lon;
    assert Toggled(lon, 3) == !lon;
    assert Toggled(lon, 4) == lon;
  }

  /** The decoder's loop from symbol `i` on, with the box `b` so far and the
      axis `lon` of the next bit. */
  function DecodeFrom(h: string, i: nat, b: BBox, lon: bool): Result<BBox>
    requires i <= |h|
    decreases |h| - i
  {
    if i == |h| then Ok(b)
    else
      match Position(h[i])
      case None => Err(InvalidSymbol(i))
      case Some(v) => DecodeFrom(h, i + 1, NarrowSymbol(b, lon, v, 0), !lon)
  }

  /** A character outside the alphabet, after a valid prefix, is the first
      invalid one. */
  lemma {:induction false} FirstInvalidAt(h: string, i: nat)
    requires i < |h| && IsGeohash(h[..i]) && !IsSymbol(h[i])
    ensures !IsGeohash(h) && FirstInvalid(h) == i
  {
    var f := FirstInvalid(h);
    forall k | 0 <= k < i
      ensures IsSymbol(h[k])
    {
      assert h[..i][k] == h[k];
    }
    forall k | 0 <= k < f
      ensures IsSymbol(h[k])
    {
      assert h[..f][k] == h[k];
    }
  }

  /** Narrowing by one more bit. */
  lemma {:induction false} BoxOfSnoc(bits: seq<bool>, b: bool, k: nat)
    requires k == |bits|
    ensures BoxOf(bits + [b]) == Narrow(BoxOf(bits), k, b)
  {
    assert (bits + [b])[..|bits|] == bits;
  }

  /** Narrowing by the remaining bits of a symbol's value, one axis after the
      other, is narrowing by the whole symbol appended to the bit string. */
  lemma {:induction false} NarrowSymbolBits(bits: seq<bool>, v: nat, bs: nat)
    requires bs <= 5
    ensures NarrowSymbol(BoxOf(bits + ToBits(v, 5)[..bs]), (|bits| + bs) % 2 == 0, v, bs) ==
      BoxOf(bits + ToBits(v, 5))
    decreases 5 - bs
  {
    if bs == 5 {
      assert ToBits(v, 5)[..5] == ToBits(v, 5);
    } else {
      assert ((|bits| + bs + 1) % 2 == 0) == !((|bits| + bs) % 2 == 0);
      SymbolBitStep(bits, v, bs);
      NarrowSymbolBits(bits, v, bs + 1);
    }
  }

  /** One more element of `sym` after `bits`. */
  lemma {:induction false} SnocPrefix<T>(bits: seq<T>, sym: seq<T>, j: nat)
    requires j < |sym|
    ensures bits + sym[..j + 1] == (bits + sym[..j]) + [sym[j]]
  {
    assert sym[..j + 1] == sym[..j] + [sym[j]];
  }

  /** One more bit of `sym` after `bits` narrows the box once more. */
  lemma {:induction false} PrefixStep(bits: seq<bool>, sym: seq<bool>, j: nat)
    requires j < |sym|
    ensures BoxOf(bits + sym[..j + 1]) == Narrow(BoxOf(bits + sym[..j]), |bits| + j, sym[j])
  {
    SnocPrefix(bits, sym, j);
    var p := bits + sym[..j];
    assert |p| == |bits| + j;
    BoxOfSnoc(p, sym[j], |bits| + j);
    assert bits + sym[..j + 1] == p + [sym[j]];
  }

  /** Bit `bs` of a symbol's value, appended after its first `bs` bits. */
  lemma {:induction false} SymbolBitStep(bits: seq<bool>, v: nat, bs: nat)
    requires bs < 5
    ensures BoxOf(bits + ToBits(v, 5)[..bs + 1]) ==
      NarrowAxis(BoxOf(bits + ToBits(v, 5)[..bs]), (|bits| + bs) % 2 == 0, Shr(v, 4 - bs) % 2 == 1)
  {
    PrefixStep(bits, ToBits(v, 5), bs);
    ToBitsShr(v, 5, bs);
  }

  /** The bits of one more symbol follow those of the prefix. */
  lemma {:induction false} HashBitsSnoc(h: string, i: nat)
    requires i < |h| && IsGeohash(h[..i + 1])
    ensures IsGeohash(h[..i]) && IsSymbol(h[i])
    ensures HashBits(h[..i + 1]) == HashBits(h[..i]) + ToBits(Position(h[i]).value, 5)
  {
    var p := h[..i + 1];
    assert p[..i] == h[..i];
    assert p[i] == h[i];
  }

  /** `5 * i` and `i` have the same parity. */
  lemma {:induction false} FiveTimesParity(i: nat)
    ensures (5 * i % 2 == 0) == (i % 2 == 0)
  {
    var q, r := i / 2, i % 2;
    assert 5 * i == 2 * (5 * q + 2 * r) + r;
  }

  /** One more valid symbol: its five bits narrow the box of the prefix,
      starting on the axis of bit `5 * i`. */
  lemma {:induction false} DecodeSymbolStep(h: string, i: nat)
    requires i < |h| && IsGeohash(h[..i]) && IsSymbol(h[i])
    ensures IsGeohash(h[..i + 1])
    ensures NarrowSymbol(BoxOf(HashBits(h[..i])), i % 2 == 0, Position(h[i]).value, 0) ==
      BoxOf(HashBits(h[..i + 1]))
  {
    assert IsGeohash(h[..i + 1]) by {
      assert forall k :: 0 <= k < i ==> h[..i + 1][k] == h[..i][k];
    }
    HashBitsSnoc(h, i);
    var bits, v := HashBits(h[..i]), Position(h[i]).value;
    FiveTimesParity(i);
    NarrowSymbolBits(bits, v, 0);
    assert bits + ToBits(v, 5)[..0] == bits;
  }

  /** The decoder's loop, started on a valid prefix with that prefix's box,
      yields the box of the whole hash or its first invalid character. */
  lemma {:induction false} DecodeFromBBoxOf(h: string, i: nat)
    requires i <= |h| && IsGeohash(h[..i])
    ensures DecodeFrom(h, i, BoxOf(HashBits(h[..i])), i % 2 == 0) == BBoxOf(h)
    decreases |h| - i
  {
    if i == |h| {
      assert h[..i] == h;
    } else if !IsSymbol(h[i]) {
      FirstInvalidAt(h, i);
    } else {
      assert ((i + 1) % 2 == 0) == !(i % 2 == 0);
      DecodeSymbolStep(h, i);
      DecodeFromBBoxOf(h, i + 1);
    }
  }

  lemma {:induction false} DecodeFromStart(h: string)
    ensures DecodeFrom(h, 0, World, true) == BBoxOf(h)
  {
    assert h[..0] == [];
    DecodeFromBBoxOf(h, 0);
  }
}
