/** What the codec promises, proved about its specification functions: the
    encoder's bits locate the point, symbols and bits convert both ways, and
    decoding then re-encoding a geohash gives it back. */
module CodecFacts {
  import opened Alphabet
  import opened Bits
  import opened Codec

  // ---------------------------------------------------------------------
  // The bisection locates the point

  /** One more pass of the encoder appends the bit it emits. */
  lemma EncodeBitsSnoc(c: Coord, n: nat)
    ensures EncodeBits(c, n + 1) == EncodeBits(c, n) + [EncodeBit(c, n)]
  {
  }

  /** The encoder's box is the box its bits denote. */
  lemma {:induction false} EncodeRunBox(c: Coord, n: nat)
    ensures EncodeRun(c, n).box == BoxOf(EncodeBits(c, n))
  {
    if n > 0 {
      EncodeRunBox(c, n - 1);
      var s := EncodeRun(c, n - 1);
      BoxOfSnoc(s.bits, BitFor(c, s.box, n - 1), n - 1);
    }
  }

  /** A point in the world stays in the encoder's box; a point off the
      world's minimum edges stays in it strictly above its minimum edges. */
  lemma {:induction false} EncodeRunContains(c: Coord, n: nat)
    requires InWorld(c)
    ensures Contains(EncodeRun(c, n).box, c)
    ensures -180.0 < c.x && -90.0 < c.y ==> InCell(EncodeRun(c, n).box, c)
  {
    if n > 0 {
      EncodeRunContains(c, n - 1);
    }
  }

  /** The bits the encoder emits for a point denote a box that holds it. */
  lemma EncodeContains(c: Coord, n: nat)
    requires InWorld(c)
    ensures Contains(BoxOf(EncodeBits(c, n)), c)
    ensures -180.0 < c.x && -90.0 < c.y ==> InCell(BoxOf(EncodeBits(c, n)), c)
  {
    EncodeRunContains(c, n);
    EncodeRunBox(c, n);
  }

  /** Every point of a cell encodes to that cell's bits. */
  lemma {:induction false} EncodeBitsOfCell(bits: seq<bool>, c: Coord)
    requires InCell(BoxOf(bits), c)
    ensures EncodeBits(c, |bits|) == bits
  {
    if bits != [] {
      var k := |bits| - 1;
      var parent := BoxOf(bits[..k]);
      assert InCell(parent, c);
      EncodeBitsOfCell(bits[..k], c);
      EncodeRunBox(c, k);
      EncodeBitsSnoc(c, k);
      assert bits == bits[..k] + [bits[k]];
    }
  }

  /** Off the world's minimum edges, a point encodes to a bit string exactly
      when it lies in that bit string's cell. */
  lemma EncodeBitsIff(bits: seq<bool>, c: Coord)
    requires -180.0 < c.x <= 180.0 && -90.0 < c.y <= 90.0
    ensures EncodeBits(c, |bits|) == bits <==> InCell(BoxOf(bits), c)
  {
    EncodeContains(c, |bits|);
    if InCell(BoxOf(bits), c) {
      EncodeBitsOfCell(bits, c);
    }
  }

  /** The centre of a cell lies in it. */
  lemma CenterInCell(bits: seq<bool>)
    ensures InCell(BoxOf(bits), Center(BoxOf(bits)))
  {
    BoxOfShape(bits);
  }

  // ---------------------------------------------------------------------
  // Every further bit narrows the box

  /** Halving a proper box keeps the half inside it. */
  lemma NarrowWithin(b: BBox, k: nat, bit: bool)
    requires b.min.x <= b.max.x && b.min.y <= b.max.y
    ensures Within(Narrow(b, k, bit), b)
  {
  }

  /** The box of a bit string lies within the box of each of its
      prefixes. */
  lemma {:induction false} BoxOfNested(bits: seq<bool>, more: seq<bool>)
    ensures Within(BoxOf(bits + more), BoxOf(bits))
    decreases |more|
  {
    if more == [] {
      assert bits + more == bits;
    } else {
      var all := bits + more;
      var k := |all| - 1;
      var front := more[..|more| - 1];
      assert all[..k] == bits + front;
      BoxOfNested(bits, front);
      BoxOfShape(all[..k]);
      NarrowWithin(BoxOf(all[..k]), k, all[k]);
    }
  }

  /** Two points at the same latitude whose longitudes both lie in the
      column of the cell of `bits` (open at its western edge, closed at its
      eastern one) go through the same first `n` steps of the bisection,
      for `n` up to the length of `bits`; the longitude range of those
      steps is that of the prefix of `bits`. */
  lemma {:induction false} SameColumnRun(bits: seq<bool>, p: Coord, q: Coord, n: nat)
    requires n <= |bits| && p.y == q.y
    requires var b := BoxOf(bits); b.min.x < p.x <= b.max.x && b.min.x < q.x <= b.max.x
    ensures EncodeRun(p, n) == EncodeRun(q, n)
    ensures var r, a := EncodeRun(p, n).box, BoxOf(bits[..n]); r.min.x == a.min.x && r.max.x == a.max.x
  {
    if n == 0 {
      assert bits[..0] == [];
    } else {
      var k := n - 1;
      SameColumnRun(bits, p, q, k);
      assert bits[..n][..k] == bits[..k];
      BoxOfNested(bits[..n], bits[n..]);
      assert bits[..n] + bits[n..] == bits;
      ColumnStep(p, q, EncodeRun(p, k), BoxOf(bits[..k]), bits[k], BoxOf(bits));
    }
  }

  /** Two points at the same latitude in the column of a geohash's cell
      encode alike at its length. */
  lemma SameColumnEncoded(h: string, p: Coord, q: Coord)
    requires IsGeohash(h) && p.y == q.y
    requires var b := BBoxOf(h).value; b.min.x < p.x <= b.max.x && b.min.x < q.x <= b.max.x
    ensures Encoded(p, |h|) == Encoded(q, |h|)
  {
    SameColumnRun(HashBits(h), p, q, 5 * |h|);
  }

  /** One step of `SameColumnRun`: when the cell lies in the half of `a`
      that `bit` picks, both points pick that half too. */
  lemma ColumnStep(p: Coord, q: Coord, s: Bisection, a: BBox, bit: bool, cell: BBox)
    requires p.y == q.y
    requires s.box.min.x == a.min.x && s.box.max.x == a.max.x
    requires Within(cell, Narrow(a, |s.bits|, bit))
    requires cell.min.x < p.x <= cell.max.x && cell.min.x < q.x <= cell.max.x
    ensures Advance(p, s) == Advance(q, s)
    ensures var r, c := Advance(p, s).box, Narrow(a, |s.bits|, bit); r.min.x == c.min.x && r.max.x == c.max.x
  {
  }

  /** The bits of two geohashes one after the other are the bits of the
      first followed by those of the second. */
  lemma {:induction false} HashBitsConcat(g: string, s: string)
    requires IsGeohash(g) && IsGeohash(s)
    ensures IsGeohash(g + s)
    ensures HashBits(g + s) == HashBits(g) + HashBits(s)
    decreases |s|
  {
    if s == [] {
      assert g + s == g;
    } else {
      var n := |s| - 1;
      var front := s[..n];
      GeohashPrefix(s, n);
      HashBitsConcat(g, front);
      HashBitsAppend(g + front, s[n]);
      SnocSplit(g, s);
      var tail := ToBits(Position(s[n]).value, 5);
      AppendAssoc(HashBits(g), HashBits(front), tail);
    }
  }

  /** The last element split off, with and without a prefix. */
  lemma SnocSplit<T>(g: seq<T>, s: seq<T>)
    requires s != []
    ensures var n := |s| - 1; g + s == (g + s[..n]) + [s[n]]
  {
    var n := |s| - 1;
    assert s == s[..n] + [s[n]];
  }

  /** Appending is associative; stated on its own so that a proof with
      many facts in scope need not rederive it element by element. */
  lemma AppendAssoc<T>(a: seq<T>, b: seq<T>, c: seq<T>)
    ensures a + (b + c) == (a + b) + c
  {
  }

  /** Both parts of a geohash are geohashes. */
  lemma GeohashParts(g: string, s: string)
    requires IsGeohash(g + s)
    ensures IsGeohash(g) && IsGeohash(s)
  {
    assert forall i :: 0 <= i < |g| ==> g[i] == (g + s)[i];
    assert forall i :: 0 <= i < |s| ==> s[i] == (g + s)[|g| + i];
  }

  /** A geohash followed by more symbols denotes a cell within the cell of
      the geohash alone. */
  lemma GeohashNested(g: string, s: string)
    requires IsGeohash(g + s)
    ensures IsGeohash(g) && Within(BBoxOf(g + s).value, BBoxOf(g).value)
  {
    GeohashParts(g, s);
    HashBitsConcat(g, s);
    BoxOfNested(HashBits(g), HashBits(s));
  }

  // ---------------------------------------------------------------------
  // Symbols and bits

  /** Unpacking packed bits gives them back. */
  lemma {:induction false} HashBitsOfPack(bits: seq<bool>, m: nat)
    requires |bits| == 5 * m
    ensures HashBits(Pack(bits, m)) == bits
  {
    if m > 0 {
      var k := m - 1;
      var front, tail := bits[..5 * k], bits[5 * k..];
      HashBitsOfPack(front, k);
      UnpackLast(front, tail, k);
      assert bits == front + tail;
    }
  }

  /** Packing five more bits appends the symbol whose bits they are. */
  lemma UnpackLast(front: seq<bool>, tail: seq<bool>, k: nat)
    requires |front| == 5 * k && |tail| == 5
    requires HashBits(Pack(front, k)) == front
    ensures HashBits(Pack(front + tail, k + 1)) == front + tail
  {
    var bits := front + tail;
    AppendSlices(front, tail);
    var v := FromBits(tail);
    var packed, s := Pack(front, k), SymbolFor(v);
    assert Pack(bits, k + 1) == packed + [s];
    assert HashBits(packed + [s]) == front + ToBits(v, 5) by {
      HashBitsAppend(packed, s);
      PositionOfSymbol(v);
    }
    assert ToBits(v, 5) == tail by {
      ToFromBits(tail);
    }
  }

  /** Packing the bits of a geohash gives it back. */
  lemma {:induction false} PackOfHashBits(h: string)
    requires IsGeohash(h)
    ensures Pack(HashBits(h), |h|) == h
  {
    if h != [] {
      var n := |h| - 1;
      var front, v := h[..n], Position(h[n]).value;
      GeohashPrefix(h, n);
      PackOfHashBits(front);
      var bits := HashBits(h);
      AppendSlices(HashBits(front), ToBits(v, 5));
      Pow2Five();
      FromToBits(v, 5);
      assert h == front + [h[n]];
    }
  }

  /** One more symbol appends its five bits. */
  lemma HashBitsAppend(g: string, s: char)
    requires IsGeohash(g) && IsSymbol(s)
    ensures IsGeohash(g + [s])
    ensures HashBits(g + [s]) == HashBits(g) + ToBits(Position(s).value, 5)
  {
    assert (g + [s])[..|g|] == g;
  }

  /** A prefix of a geohash is one. */
  lemma GeohashPrefix(h: string, k: nat)
    requires IsGeohash(h) && k <= |h|
    ensures IsGeohash(h[..k])
  {
    assert forall i :: 0 <= i < k ==> h[..k][i] == h[i];
  }

  lemma AppendSlices<T>(a: seq<T>, b: seq<T>)
    ensures (a + b)[..|a|] == a && (a + b)[|a|..] == b
  {
  }

  /** The bits of an encoded geohash are the encoder's bits. */
  lemma HashBitsOfEncoded(c: Coord, len: nat)
    ensures HashBits(Encoded(c, len)) == EncodeBits(c, 5 * len)
  {
    HashBitsOfPack(EncodeBits(c, 5 * len), len);
  }

  /** A geohash is determined by its bits. */
  lemma HashBitsInjective(g: string, h: string)
    requires IsGeohash(g) && IsGeohash(h) && HashBits(g) == HashBits(h)
    ensures g == h
  {
    PackOfHashBits(g);
    PackOfHashBits(h);
  }

  // ---------------------------------------------------------------------
  // Encoding and decoding

  /** Encoding at a shorter length gives a prefix. */
  lemma {:induction false} EncodedPrefix(c: Coord, k: nat, len: nat)
    requires k <= len
    ensures Encoded(c, len)[..k] == Encoded(c, k)
  {
    if k < len {
      EncodedPrefix(c, k, len - 1);
      EncodeBitsPrefix(c, 5 * (len - 1), 5 * len);
      assert Encoded(c, len)[..len - 1] == Encoded(c, len - 1);
    } else {
      assert Encoded(c, len)[..k] == Encoded(c, len);
    }
  }

  /** The box decoded from an encoded point is the encoder's final box, and
      it holds the point. */
  lemma DecodeEncoded(c: Coord, len: nat)
    requires InWorld(c)
    ensures BBoxOf(Encoded(c, len)) == Ok(EncodeRun(c, 5 * len).box)
    ensures Contains(BBoxOf(Encoded(c, len)).value, c)
  {
    HashBitsOfEncoded(c, len);
    EncodeRunBox(c, 5 * len);
    EncodeContains(c, 5 * len);
  }

  /** `decode` of an encoded point is within its error bounds of the point. */
  lemma DecodeErrorBound(c: Coord, len: nat)
    requires InWorld(c)
    ensures Decode(Encoded(c, len)).Ok?
    ensures var d := Decode(Encoded(c, len)).value;
      d.center.x - d.lonErr <= c.x <= d.center.x + d.lonErr &&
      d.center.y - d.latErr <= c.y <= d.center.y + d.latErr
  {
    DecodeEncoded(c, len);
  }

  /** Re-encoding the centre of a geohash's box at its length gives the
      geohash back. */
  lemma EncodeDecoded(h: string)
    requires IsGeohash(h)
    ensures Decode(h).Ok? && Encoded(Decode(h).value.center, |h|) == h
  {
    var bits := HashBits(h);
    var ctr := Center(BoxOf(bits));
    CenterInCell(bits);
    EncodeBitsOfCell(bits, ctr);
    PackOfHashBits(h);
  }

  /** The half-extents `decode` reports: the longitude range halved once
      per even-numbered bit and the latitude range once per odd-numbered
      bit, then halved again. */
  lemma DecodeErrors(h: string)
    requires IsGeohash(h)
    ensures Decode(h).Ok?
    ensures Decode(h).value.latErr == Halved(180.0, 5 * |h| / 2) / 2.0
    ensures Decode(h).value.lonErr == Halved(360.0, (5 * |h| + 1) / 2) / 2.0
  {
    var bits := HashBits(h);
    BoxOfShape(bits);
    var lon, lat := (|bits| + 1) / 2, |bits| / 2;
    assert lon == (5 * |h| + 1) / 2 && lat == 5 * |h| / 2;
    assert Halved(360.0, lon) == Halved(360.0, (5 * |h| + 1) / 2);
    assert Halved(180.0, lat) == Halved(180.0, 5 * |h| / 2);
  }

  /** The same half-extents in closed form: `180 / 2^(lat + 1)` and
      `360 / 2^(lon + 1)` degrees, where `lat = floor(5 * |h| / 2)` and
      `lon = ceil(5 * |h| / 2)` count the bits on each axis. */
  lemma DecodeErrorsPow2(h: string)
    requires IsGeohash(h)
    ensures Decode(h).Ok?
    ensures Decode(h).value.latErr == 180.0 / (Pow2(5 * |h| / 2 + 1) as real)
    ensures Decode(h).value.lonErr == 360.0 / (Pow2((5 * |h| + 1) / 2 + 1) as real)
  {
    DecodeErrors(h);
    HalfOfHalved(180.0, 5 * |h| / 2);
    HalfOfHalved(360.0, (5 * |h| + 1) / 2);
  }

  /** Half of `w` halved `k` times is `w / 2^(k + 1)`. */
  lemma HalfOfHalved(w: real, k: nat)
    ensures Halved(w, k) / 2.0 == w / (Pow2(k + 1) as real)
  {
    assert Halved(w, k + 1) == Halved(w, k) / 2.0;
    HalvedPow2(w, k + 1);
  }

  // ---------------------------------------------------------------------
  // Cells lie on a grid

  /** The column of a bit string's cell, counted from the world's western
      edge: the longitude bits (the even-numbered ones) read as a number. */
  function LonIndex(bits: seq<bool>): nat {
    if bits == [] then 0
    else
      var k := |bits| - 1;
      if k % 2 == 0 then 2 * LonIndex(bits[..k]) + (if bits[k] then 1 else 0)
      else LonIndex(bits[..k])
  }

  /** The row of a bit string's cell, counted from the world's southern
      edge: the latitude bits (the odd-numbered ones) read as a number. */
  function LatIndex(bits: seq<bool>): nat {
    if bits == [] then 0
    else
      var k := |bits| - 1;
      if k % 2 == 1 then 2 * LatIndex(bits[..k]) + (if bits[k] then 1 else 0)
      else LatIndex(bits[..k])
  }

  /** The offset of slot `i` on a grid of extent `w`. */
  function Slot(i: int, w: real): real {
    (i as real) * w
  }

  /** `b` sits in column `i` and row `j` of the grid whose cells are the
      world halved `lonHalvings` times across and `latHalvings` times
      down. */
  predicate OnGrid(b: BBox, i: nat, j: nat, lonHalvings: nat, latHalvings: nat) {
    b.min.x == -180.0 + Slot(i, Halved(360.0, lonHalvings)) &&
    b.min.y == -90.0 + Slot(j, Halved(180.0, latHalvings))
  }

  /** The cell of a bit string sits a whole number of cell extents from the
      world's south-western corner: in column `LonIndex` and row
      `LatIndex`. */
  lemma {:induction false} BoxOfGrid(bits: seq<bool>)
    ensures OnGrid(BoxOf(bits), LonIndex(bits), LatIndex(bits), (|bits| + 1) / 2, |bits| / 2)
  {
    if bits != [] {
      var k := |bits| - 1;
      var front := bits[..k];
      BoxOfGrid(front);
      BoxOfShape(front);
      NarrowGrid(BoxOf(front), (k + 1) / 2, k / 2, k % 2 == 0, bits[k], LonIndex(front), LatIndex(front),
        (|bits| + 1) / 2, |bits| / 2, LonIndex(bits), LatIndex(bits));
    }
  }

  /** The cell of a bit string as a slot of the grid of its extents `w` by
      `ht`. */
  lemma GridCell(bits: seq<bool>, w: real, ht: real)
    requires w == Halved(360.0, (|bits| + 1) / 2) && ht == Halved(180.0, |bits| / 2)
    ensures var b := BoxOf(bits);
      0.0 < w && 0.0 < ht &&
      b.min.x == -180.0 + Slot(LonIndex(bits), w) && b.max.x - b.min.x == w &&
      b.min.y == -90.0 + Slot(LatIndex(bits), ht) && b.max.y - b.min.y == ht
  {
    BoxOfShape(bits);
    BoxOfGrid(bits);
  }

  /** One halving of a cell on the grid: the half lies in column `2 * i` or
      `2 * i + 1` of the grid of half the width, or in row `2 * j` or
      `2 * j + 1` of the grid of half the height. */
  lemma NarrowGrid(p: BBox, lonN: nat, latN: nat, lon: bool, bit: bool, i: nat, j: nat,
                   lonN': nat, latN': nat, i': nat, j': nat)
    requires Shaped(p, lonN, latN) && OnGrid(p, i, j, lonN, latN)
    requires lonN' == (if lon then lonN + 1 else lonN) && latN' == (if lon then latN else latN + 1)
    requires i' == (if lon then 2 * i + (if bit then 1 else 0) else i)
    requires j' == (if lon then j else 2 * j + (if bit then 1 else 0))
    ensures OnGrid(NarrowAxis(p, lon, bit), i', j', lonN', latN')
  {
    if lon {
      assert Halved(360.0, lonN') == Halved(360.0, lonN) / 2.0;
      DoubledIndex(i, bit, Halved(360.0, lonN));
    } else {
      assert Halved(180.0, latN') == Halved(180.0, latN) / 2.0;
      DoubledIndex(j, bit, Halved(180.0, latN));
    }
  }

  /** Index `i` at extent `w` is index `2 * i` (or `2 * i + 1` for the upper
      half) at extent `w / 2`. */
  lemma DoubledIndex(i: nat, bit: bool, w: real)
    ensures var i' := 2 * i + (if bit then 1 else 0);
      Slot(i', w / 2.0) == Slot(i, w) + (if bit then w / 2.0 else 0.0)
  {
  }

  /** An integer `m` with `m * w < i * w + w / 2 <= m * w + w` is `i`. */
  lemma SameSlot(m: int, i: int, w: real)
    requires 0.0 < w
    requires Slot(m, w) < Slot(i, w) + w / 2.0 <= Slot(m, w) + w
    ensures m == i
  {
    var d := m - i;
    assert Slot(m, w) - Slot(i, w) == (d as real) * w;
  }

  /** A point of the world at the centre of a grid cell of `n` bits (column
      `i`, row `j`) is the centre of the box the encoder narrows it to. */
  lemma GridCentre(n: nat, q: Coord, i: int, j: int, w: real, h: real)
    requires w == Halved(360.0, (n + 1) / 2) && h == Halved(180.0, n / 2)
    requires InWorld(q)
    requires q.x == -180.0 + Slot(i, w) + w / 2.0 && q.y == -90.0 + Slot(j, h) + h / 2.0
    ensures Center(EncodeRun(q, n).box) == q
  {
    var bits := EncodeBits(q, n);
    assert |bits| == n;
    HalvedPositive(360.0, (n + 1) / 2);
    HalvedPositive(180.0, n / 2);
    SlotCentreOffEdge(q, i, j, w, h);
    EncodeContains(q, n);
    EncodeRunBox(q, n);
    CellCentre(bits, q, i, j, w, h);
  }

  /** A positive extent halved any number of times stays positive. */
  lemma {:induction false} HalvedPositive(w: real, k: nat)
    requires 0.0 < w
    ensures 0.0 < Halved(w, k)
  {
    if k > 0 {
      HalvedPositive(w, k - 1);
    }
  }

  /** The centre of a grid slot in the world is off the world's minimum
      edges. */
  lemma SlotCentreOffEdge(q: Coord, i: int, j: int, w: real, h: real)
    requires 0.0 < w && 0.0 < h && InWorld(q)
    requires q.x == -180.0 + Slot(i, w) + w / 2.0 && q.y == -90.0 + Slot(j, h) + h / 2.0
    ensures -180.0 < q.x && -90.0 < q.y
  {
    OffEdge(i, w);
    OffEdge(j, h);
  }

  /** A point at the centre of grid slot (`i`, `j`) that lies in the cell of
      a bit string is that cell's centre. */
  lemma CellCentre(bits: seq<bool>, q: Coord, i: int, j: int, w: real, h: real)
    requires w == Halved(360.0, (|bits| + 1) / 2) && h == Halved(180.0, |bits| / 2)
    requires InCell(BoxOf(bits), q)
    requires q.x == -180.0 + Slot(i, w) + w / 2.0 && q.y == -90.0 + Slot(j, h) + h / 2.0
    ensures Center(BoxOf(bits)) == q
  {
    BoxOfShape(bits);
    BoxOfGrid(bits);
    CentredSlot(BoxOf(bits), q, i, j, LonIndex(bits), LatIndex(bits), w, h);
  }

  /** A point at the centre of slot (`i`, `j`) that lies in the cell of slot
      (`m`, `l`), open at its minimum edges, is that cell's centre. */
  lemma CentredSlot(b: BBox, q: Coord, i: int, j: int, m: nat, l: nat, w: real, h: real)
    requires 0.0 < w && 0.0 < h
    requires b.min.x == -180.0 + Slot(m, w) && b.max.x == b.min.x + w
    requires b.min.y == -90.0 + Slot(l, h) && b.max.y == b.min.y + h
    requires q.x == -180.0 + Slot(i, w) + w / 2.0 && q.y == -90.0 + Slot(j, h) + h / 2.0
    requires InCell(b, q)
    ensures Center(b) == q
  {
    SameSlot(m, i, w);
    SameSlot(l, j, h);
  }

  /** The centre of a grid slot is never on a grid line: `i * w + w / 2`
      is not zero. */
  lemma OffEdge(i: int, w: real)
    requires 0.0 < w
    ensures Slot(i, w) + w / 2.0 != 0.0
  {
    assert Slot(i, w) + w / 2.0 == (i as real + 0.5) * w;
    assert i as real + 0.5 != 0.0;
  }
}
