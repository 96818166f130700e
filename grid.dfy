/** Moving from a geohash to the cells around it: the eight compass
    directions, `neighbor` (decode, step from the centre, re-encode at the
    same length) and `neighbors` (all eight at once). */
module Grid {
  import opened Alphabet
  import opened Codec
  import opened CodecFacts

  datatype Direction = N | Ne | E | Se | S | Sw | W | Nw

  /** The step of a direction as (northward, eastward), each -1, 0 or 1. */
  function ToTuple(d: Direction): (r: (int, int))
    ensures -1 <= r.0 <= 1 && -1 <= r.1 <= 1 && r != (0, 0)
    ensures r.0 == 1 <==> d in {N, Ne, Nw}
    ensures r.0 == -1 <==> d in {S, Se, Sw}
    ensures r.1 == 1 <==> d in {Ne, E, Se}
    ensures r.1 == -1 <==> d in {Nw, W, Sw}
  {
    match d
    case Sw => (-1, -1)
    case S => (-1, 0)
    case Se => (-1, 1)
    case W => (0, -1)
    case E => (0, 1)
    case Nw => (1, -1)
    case N => (1, 0)
    case Ne => (1, 1)
  }

  /** Different directions step differently. */
  lemma ToTupleInjective(d: Direction, d': Direction)
    ensures ToTuple(d) == ToTuple(d') ==> d == d'
  {
  }

  /** Every step of at most one cell on each axis, other than standing
      still, is a direction. */
  lemma ToTupleOnto(dlat: int, dlng: int)
    requires -1 <= dlat <= 1 && -1 <= dlng <= 1 && (dlat, dlng) != (0, 0)
    ensures exists d :: ToTuple(d) == (dlat, dlng)
  {
    var d :=
      if dlat == 1 then (if dlng == 1 then Ne else if dlng == 0 then N else Nw)
      else if dlat == 0 then (if dlng == 1 then E else W)
      else (if dlng == 1 then Se else if dlng == 0 then S else Sw);
    assert ToTuple(d) == (dlat, dlng);
  }

  function Abs(x: real): real {
    if x < 0.0 then -x else x
  }

  /** `w` times a step `k` of -1, 0 or 1. */
  function Times(k: int, w: real): (r: real)
    requires -1 <= k <= 1
    ensures r == (k as real) * w
  {
    if k == 1 then
      assert (k as real) * w == 1.0 * w;
      w
    else if k == -1 then
      assert (k as real) * w == -1.0 * w;
      -w
    else
      assert (k as real) * w == 0.0 * w;
      0.0
  }

  /** The point `neighbor` re-encodes: the centre moved east by twice the
      second component of `decode` (the latitude half-extent) per eastward
      step, and north by twice the third (the longitude half-extent) per
      northward step. */
  function Target(d: Decoded, dir: Direction): Coord {
    var (dlat, dlng) := ToTuple(dir);
    Coord(d.center.x + Times(dlng, 2.0 * Abs(d.latErr)),
          d.center.y + Times(dlat, 2.0 * Abs(d.lonErr)))
  }

  /** `neighbor`: the geohash of the same length at the stepped point, or
      the error of decoding `h`. */
  function Neighbor(h: string, dir: Direction): (r: Result<string>)
    ensures r.Ok? <==> IsGeohash(h)
    ensures r.Err? ==> r.error == BBoxOf(h).error
    ensures r.Ok? ==> |r.value| == |h| && IsGeohash(r.value)
  {
    match Decode(h)
    case Err(e) => Err(e)
    case Ok(d) => Ok(Encoded(Target(d, dir), |h|))
  }

  /** The eight neighbours of a geohash, one per direction. */
  datatype Neighbors = Neighbors(sw: string, s: string, se: string, w: string,
                                 e: string, nw: string, n: string, ne: string)

  /** The neighbour in each direction. */
  function Field(ns: Neighbors, dir: Direction): string {
    match dir
    case Sw => ns.sw
    case S => ns.s
    case Se => ns.se
    case W => ns.w
    case E => ns.e
    case Nw => ns.nw
    case N => ns.n
    case Ne => ns.ne
  }

  /** `neighbors`: every direction's neighbour, or the error of decoding
      `h`. */
  function NeighborsOf(h: string): (r: Result<Neighbors>)
    ensures r.Ok? <==> IsGeohash(h)
    ensures r.Err? ==> r.error == BBoxOf(h).error
    ensures r.Ok? ==> forall dir :: Neighbor(h, dir) == Ok(Field(r.value, dir))
  {
    if !IsGeohash(h) then Err(BBoxOf(h).error)
    else
      Ok(Neighbors(Neighbor(h, Sw).value, Neighbor(h, S).value, Neighbor(h, Se).value,
                   Neighbor(h, W).value, Neighbor(h, E).value, Neighbor(h, Nw).value,
                   Neighbor(h, N).value, Neighbor(h, Ne).value))
  }

  // ---------------------------------------------------------------------
  // Where the step lands

  function LonExtent(b: BBox): real {
    b.max.x - b.min.x
  }

  function LatExtent(b: BBox): real {
    b.max.y - b.min.y
  }

  /** The centre of `b` moved `east` degrees per eastward step of `dir` and
      `north` degrees per northward step. */
  function Step(b: BBox, dir: Direction, east: real, north: real): Coord {
    Coord(Center(b).x + Times(ToTuple(dir).1, east), Center(b).y + Times(ToTuple(dir).0, north))
  }

  /** The world is twice as wide as it is high, so the longitude range
      halved once more equals the latitude range. */
  lemma {:induction false} HalvedWorld(k: nat)
    ensures Halved(360.0, k) == 2.0 * Halved(180.0, k)
    ensures Halved(360.0, k + 1) == Halved(180.0, k)
  {
    if k > 0 {
      HalvedWorld(k - 1);
    }
  }

  /** A cell of odd length is as wide (in degrees) as it is high; a cell of
      even length is twice as wide as it is high. */
  lemma CellExtents(h: string)
    requires IsGeohash(h)
    ensures var b := BBoxOf(h).value;
      0.0 < LatExtent(b) &&
      (|h| % 2 == 1 ==> LonExtent(b) == LatExtent(b)) &&
      (|h| % 2 == 0 ==> LonExtent(b) == 2.0 * LatExtent(b))
  {
    var bits := HashBits(h);
    BoxOfShape(bits);
    FiveTimesParity(|h|);
    var lon, lat := (|bits| + 1) / 2, |bits| / 2;
    HalvedWorld(lat);
    if |h| % 2 == 1 {
      assert lon == lat + 1;
    } else {
      assert lon == lat;
    }
  }

  /** Geohashes of the same length denote cells of the same extents. */
  lemma SameExtents(g: string, h: string)
    requires IsGeohash(g) && IsGeohash(h) && |g| == |h|
    ensures LonExtent(BBoxOf(g).value) == LonExtent(BBoxOf(h).value)
    ensures LatExtent(BBoxOf(g).value) == LatExtent(BBoxOf(h).value)
  {
    BoxOfShape(HashBits(g));
    BoxOfShape(HashBits(h));
  }

  /** `neighbor` steps east by the cell's latitude extent and north by its
      longitude extent: the half-extents `decode` returns are used
      crosswise. */
  lemma NeighborStep(h: string, dir: Direction)
    requires IsGeohash(h)
    ensures var b := BBoxOf(h).value;
      Neighbor(h, dir) == Ok(Encoded(Step(b, dir, LatExtent(b), LonExtent(b)), |h|))
  {
    var b := BBoxOf(h).value;
    BoxOfShape(HashBits(h));
    var d := Decoded(Center(b), LatExtent(b) / 2.0, LonExtent(b) / 2.0);
    assert Decode(h) == Ok(d);
    TargetOf(d, b, dir);
  }

  /** The stepped point of a decoded cell, in terms of the cell. */
  lemma TargetOf(d: Decoded, b: BBox, dir: Direction)
    requires 0.0 < LonExtent(b) && 0.0 < LatExtent(b)
    requires d == Decoded(Center(b), LatExtent(b) / 2.0, LonExtent(b) / 2.0)
    ensures Target(d, dir) == Step(b, dir, LatExtent(b), LonExtent(b))
  {
    match dir {
      case N =>
      case Ne =>
      case E =>
      case Se =>
      case S =>
      case Sw =>
      case W =>
      case Nw =>
    }
  }

  /** The neighbour `neighbor` evidently intends: the centre moved by one
      full cell width per eastward step and one full cell height per
      northward step, re-encoded at the same length. */
  function IntendedNeighbor(h: string, dir: Direction): (r: Result<string>)
    ensures r.Ok? <==> IsGeohash(h)
    ensures r.Err? ==> r.error == BBoxOf(h).error
    ensures r.Ok? ==> |r.value| == |h| && IsGeohash(r.value)
  {
    match BBoxOf(h)
    case Err(e) => Err(e)
    case Ok(b) => Ok(Encoded(Step(b, dir, LonExtent(b), LatExtent(b)), |h|))
  }

  /** The intended neighbour is a cell of the same extents, and it holds the
      centre of the adjacent cell whenever that centre lies in the world. */
  lemma IntendedNeighborAdjacent(h: string, dir: Direction)
    requires IsGeohash(h)
    ensures var b, nb := BBoxOf(h).value, BBoxOf(IntendedNeighbor(h, dir).value).value;
      var t := Step(b, dir, LonExtent(b), LatExtent(b));
      LonExtent(nb) == LonExtent(b) && LatExtent(nb) == LatExtent(b) &&
      (InWorld(t) ==> Contains(nb, t))
  {
    var b := BBoxOf(h).value;
    var t := Step(b, dir, LonExtent(b), LatExtent(b));
    SameExtents(h, Encoded(t, |h|));
    if InWorld(t) {
      DecodeEncoded(t, |h|);
    }
  }

  /** Unless it would leave the world, the intended east neighbour is a
      different cell. */
  lemma IntendedEastMoves(h: string)
    requires IsGeohash(h)
    requires var b := BBoxOf(h).value; InWorld(Step(b, E, LonExtent(b), LatExtent(b)))
    ensures IntendedNeighbor(h, E) != Ok(h)
  {
    var b := BBoxOf(h).value;
    var t := Step(b, E, LonExtent(b), LatExtent(b));
    IntendedNeighborAdjacent(h, E);
    BoxOfShape(HashBits(h));
    assert !Contains(b, t);
    assert Contains(BBoxOf(IntendedNeighbor(h, E).value).value, t);
  }

  /** At odd lengths the cell is as wide as it is high, so the crosswise
      use of the half-extents is harmless: `neighbor` gives the intended
      neighbour. */
  lemma OddNeighbor(h: string, dir: Direction)
    requires IsGeohash(h) && |h| % 2 == 1
    ensures Neighbor(h, dir) == IntendedNeighbor(h, dir)
  {
    var b := BBoxOf(h).value;
    NeighborStep(h, dir);
    CellExtents(h);
    assert Step(b, dir, LatExtent(b), LonExtent(b)) == Step(b, dir, LonExtent(b), LatExtent(b));
  }

  /** At even lengths the eastward step of half a cell lands on the cell's
      own eastern edge, which lies in the same column as its centre: the
      north-east neighbour is the north one and the south-east neighbour the
      south one. */
  lemma EvenNorthEastIsNorth(h: string)
    requires IsGeohash(h) && |h| % 2 == 0
    ensures Neighbor(h, Ne) == Neighbor(h, N)
    ensures Neighbor(h, Se) == Neighbor(h, S)
  {
    var b := BBoxOf(h).value;
    NeighborStep(h, N);
    NeighborStep(h, Ne);
    NeighborStep(h, S);
    NeighborStep(h, Se);
    CellExtents(h);
    var east, north := LatExtent(b), LonExtent(b);
    assert Step(b, Ne, east, north).x == b.max.x;
    assert Step(b, Se, east, north).x == b.max.x;
    SameColumnEncoded(h, Step(b, Ne, east, north), Step(b, N, east, north));
    SameColumnEncoded(h, Step(b, Se, east, north), Step(b, S, east, north));
  }

  /** Half a cell east of the centre is the cell's own eastern edge, which
      belongs to the cell: the east neighbour of an even-length geohash is
      the geohash itself. */
  lemma EvenEastIsSelf(h: string)
    requires IsGeohash(h) && |h| % 2 == 0
    ensures Neighbor(h, E) == Ok(h)
  {
    var bits := HashBits(h);
    var b := BoxOf(bits);
    NeighborStep(h, E);
    CellExtents(h);
    BoxOfShape(bits);
    var t := Step(b, E, LatExtent(b), LonExtent(b));
    assert t.x == b.max.x && t.y == Center(b).y;
    assert InCell(b, t);
    EncodeBitsOfCell(bits, t);
    PackOfHashBits(h);
  }

  // ---------------------------------------------------------------------
  // Stepping north and back

  /** The northward step `neighbor` takes is a whole number of rows (one at
      odd lengths, two at even lengths), so inside the world the north and
      south neighbours are cells centred on the stepped point. */
  lemma VerticalNeighbor(h: string, dir: Direction)
    requires IsGeohash(h) && (dir == N || dir == S)
    requires var b := BBoxOf(h).value; InWorld(Step(b, dir, LatExtent(b), LonExtent(b)))
    ensures Neighbor(h, dir).Ok?
    ensures var b := BBoxOf(h).value;
      Center(BBoxOf(Neighbor(h, dir).value).value) == Step(b, dir, LatExtent(b), LonExtent(b))
  {
    var bits := HashBits(h);
    var b := BoxOf(bits);
    var w, ht := Halved(360.0, (|bits| + 1) / 2), Halved(180.0, |bits| / 2);
    NeighborStep(h, dir);
    GridCell(bits, w, ht);
    CellExtents(h);
    var rows := if |h| % 2 == 1 then 1 else 2;
    var dj := if dir == N then rows else -rows;
    var p := Step(b, dir, LatExtent(b), LonExtent(b));
    NorthStepRows(LonExtent(b), ht, |h| % 2 == 1, dir);
    SlotStep(b, p, LonIndex(bits), LatIndex(bits), w, ht, Times(ToTuple(dir).0, LonExtent(b)), dj);
    GridCentre(|bits|, p, LonIndex(bits), LatIndex(bits) + dj, w, ht);
    DecodeEncoded(p, |h|);
  }

  /** The northward component of a north or south step of `lonExt`
      degrees, in rows of height `ht`: one row when the two are equal (odd
      lengths), two when the cell is twice as wide as high (even lengths). */
  lemma NorthStepRows(lonExt: real, ht: real, odd: bool, dir: Direction)
    requires dir == N || dir == S
    requires odd ==> lonExt == ht
    requires !odd ==> lonExt == 2.0 * ht
    ensures var rows := if odd then 1 else 2;
      var dj := if dir == N then rows else -rows;
      Times(ToTuple(dir).0, lonExt) == Slot(dj, ht)
  {
  }

  /** The centre of the cell in column `i` and row `j` moved north by `dj`
      rows is the centre of slot (`i`, `j + dj`). */
  lemma SlotStep(b: BBox, p: Coord, i: int, j: int, w: real, ht: real, e: real, dj: int)
    requires b.min.x == -180.0 + Slot(i, w) && b.max.x - b.min.x == w
    requires b.min.y == -90.0 + Slot(j, ht) && b.max.y - b.min.y == ht
    requires e == Slot(dj, ht)
    requires p == Coord(Center(b).x + 0.0, Center(b).y + e)
    ensures p.x == -180.0 + Slot(i, w) + w / 2.0
    ensures p.y == -90.0 + Slot(j + dj, ht) + ht / 2.0
  {
    ShiftedSlot(j, dj, ht);
  }

  /** Row `j` moved by `d` rows of height `ht`. */
  lemma ShiftedSlot(j: int, d: int, ht: real)
    ensures Slot(j + d, ht) == Slot(j, ht) + Slot(d, ht)
  {
  }

  /** Away from the poles, the south neighbour of the north neighbour of a
      geohash is the geohash itself. */
  lemma NorthThenSouth(h: string)
    requires IsGeohash(h)
    requires var b := BBoxOf(h).value; InWorld(Step(b, N, LatExtent(b), LonExtent(b)))
    ensures Neighbor(h, N).Ok? && Neighbor(Neighbor(h, N).value, S) == Ok(h)
  {
    VerticalNeighbor(h, N);
    StepBack(h, Neighbor(h, N).value, N, S);
  }

  /** Away from the poles, the north neighbour of the south neighbour of a
      geohash is the geohash itself. */
  lemma SouthThenNorth(h: string)
    requires IsGeohash(h)
    requires var b := BBoxOf(h).value; InWorld(Step(b, S, LatExtent(b), LonExtent(b)))
    ensures Neighbor(h, S).Ok? && Neighbor(Neighbor(h, S).value, N) == Ok(h)
  {
    VerticalNeighbor(h, S);
    StepBack(h, Neighbor(h, S).value, S, N);
  }

  /** A cell of the same length as `h`, centred where `h`'s step in `dir`
      lands, steps back onto `h` in the opposite direction `back`. */
  lemma StepBack(h: string, g: string, dir: Direction, back: Direction)
    requires IsGeohash(h) && IsGeohash(g) && |g| == |h|
    requires (dir, back) == (N, S) || (dir, back) == (S, N)
    requires var b := BBoxOf(h).value;
      Center(BBoxOf(g).value) == Step(b, dir, LatExtent(b), LonExtent(b))
    ensures Neighbor(g, back) == Ok(h)
  {
    var b := BBoxOf(h).value;
    SameExtents(h, g);
    NeighborStep(g, back);
    EncodeDecoded(h);
    assert Decode(h).value.center == Center(b);
  }
}
