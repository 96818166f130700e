/** The crate's documented examples and unit tests of `encode`, `decode`
    and `neighbors`, stated over the model. Each follows from the cell
    lemmas: the point of an example lies in the cell of the expected
    geohash. */
module TestVectors {
  import opened Codec
  import opened CodecFacts
  import opened Grid
  import opened Cells

  /** `encode` of (117, 32) at length 3 is "wte". */
  lemma EncodeWte()
    ensures Encoded(Coord(117.0, 32.0), 3) == "wte"
  {
    CellWte(Coord(117.0, 32.0));
  }

  /** `encode` of (112.5584, 37.8324) at length 9 is "ww8p1r4t8", and the
      encoder's box after those 45 passes is written out exactly. */
  lemma EncodeWw8p1r4t8()
    ensures var c := Coord(112.5584, 37.8324);
      EncodeRun(c, 45).box == BBox(Coord(112.5583648681640625, 37.8323650360107421875), Coord(112.55840778350830078125, 37.83240795135498046875)) &&
      Encoded(c, 9) == "ww8p1r4t8"
  {
    CellWw8p1r4t8(Coord(112.5584, 37.8324));
  }

  /** `Float::abs_sub`, the positive difference: `a - b` when `a` exceeds
      `b`, and 0 otherwise. */
  function AbsSub(a: real, b: real): real {
    if a <= b then 0.0 else a - b
  }

  /** `decode` of "ww8p1r4t8" is the centre (112.558386325836181640625,
      37.832386493682861328125), which lies within 1e-4 of (112.5584,
      37.8324) on both axes, so both positive differences the test takes are
      below 1e-4. */
  lemma DecodeWw8p1r4t8()
    ensures Decode("ww8p1r4t8").Ok?
    ensures Decode("ww8p1r4t8").value.center ==
      Coord(112.558386325836181640625, 37.832386493682861328125)
    ensures var c := Decode("ww8p1r4t8").value.center;
      -0.0001 < c.x - 112.5584 < 0.0001 && -0.0001 < c.y - 37.8324 < 0.0001 &&
      AbsSub(c.y, 37.8324) < 0.0001 && AbsSub(c.x, 112.5584) < 0.0001
  {
    EncodeWw8p1r4t8();
    DecodeEncoded(Coord(112.5584, 37.8324), 9);
  }

  /** `encode` of (-120.6623, 35.3003) at length 5 is "9q60y", and the
      encoder's box after those 25 passes is written out exactly. */
  lemma Encode9q60y()
    ensures var c := Coord(-120.6623, 35.3003);
      EncodeRun(c, 25).box == BBox(Coord(-120.673828125, 35.2880859375), Coord(-120.6298828125, 35.33203125)) &&
      Encoded(c, 5) == "9q60y"
  {
    Cell9q60y(Coord(-120.6623, 35.3003));
  }

  /** `decode` of "9q60y" is the centre (-120.65185546875, 35.31005859375)
      with both errors 0.02197265625: the centre of the box the encoder
      narrows (-120.6623, 35.3003) to in 25 passes. */
  lemma Decode9q60y()
    ensures Decode("9q60y").Ok?
    ensures Decode("9q60y").value.center == Coord(-120.65185546875, 35.31005859375)
    ensures Decode("9q60y").value.latErr == 0.02197265625 && Decode("9q60y").value.lonErr == 0.02197265625
  {
    Encode9q60y();
    DecodeEncoded(Coord(-120.6623, 35.3003), 5);
  }

  /** `encode` of (-120.6623, 35.3003) at length 10 is "9q60y60rhs", and
      the encoder's box after those 50 passes is written out exactly. */
  lemma Encode9q60y60rhs()
    ensures var c := Coord(-120.6623, 35.3003);
      EncodeRun(c, 50).box == BBox(Coord(-120.662305355072021484375, 35.300295352935791015625), Coord(-120.6622946262359619140625, 35.30030071735382080078125)) &&
      Encoded(c, 10) == "9q60y60rhs"
  {
    Cell9q60y60rhs(Coord(-120.6623, 35.3003));
  }

  /** `decode` of "9q60y60rhs" is the centre (-120.66229999065399169921875,
      35.300298035144805908203125), whose shortest `f64` printouts are the
      documented -120.66229999065399 and 35.300298035144806, with latitude
      error 0.000002682209014892578125 and longitude error
      0.00000536441802978515625. */
  lemma Decode9q60y60rhs()
    ensures Decode("9q60y60rhs").Ok?
    ensures Decode("9q60y60rhs").value.center ==
      Coord(-120.66229999065399169921875, 35.300298035144805908203125)
    ensures Decode("9q60y60rhs").value.latErr == 0.000002682209014892578125
    ensures Decode("9q60y60rhs").value.lonErr == 0.00000536441802978515625
  {
    Encode9q60y60rhs();
    DecodeEncoded(Coord(-120.6623, 35.3003), 10);
  }

  /** The box of "9q60y60rhs". */
  lemma Box9q60y60rhs()
    ensures BBoxOf("9q60y60rhs") == Ok(BBox(Coord(-120.662305355072021484375, 35.300295352935791015625), Coord(-120.6622946262359619140625, 35.30030071735382080078125)))
  {
    Encode9q60y60rhs();
    DecodeEncoded(Coord(-120.6623, 35.3003), 10);
  }

  /** The box of "ww8p1r4t8". */
  lemma BoxWw8p1r4t8()
    ensures BBoxOf("ww8p1r4t8") == Ok(BBox(Coord(112.5583648681640625, 37.8323650360107421875), Coord(112.55840778350830078125, 37.83240795135498046875)))
  {
    EncodeWw8p1r4t8();
    DecodeEncoded(Coord(112.5584, 37.8324), 9);
  }

  /** The neighbour of `h` in direction `dir` is the geohash of the point
      the step from the centre of its box lands on. */
  lemma NeighborAt(h: string, dir: Direction, b: BBox, p: Coord, target: string)
    requires BBoxOf(h) == Ok(b)
    requires Step(b, dir, LatExtent(b), LonExtent(b)) == p
    requires Encoded(p, |h|) == target
    ensures Neighbor(h, dir) == Ok(target)
  {
    NeighborStep(h, dir);
  }

  /** The south-west neighbour of "9q60y60rhs": the step lands on (-120.662305355072021484375, 35.300287306308746337890625), in the cell of "9q60y60rh6". */
  lemma Neighbor9q60y60rhsSw()
    ensures Neighbor("9q60y60rhs", Sw) == Ok("9q60y60rh6")
  {
    Box9q60y60rhs();
    Cell9q60y60rh6(Coord(-120.662305355072021484375, 35.300287306308746337890625));
    NeighborAt("9q60y60rhs", Sw, BBox(Coord(-120.662305355072021484375, 35.300295352935791015625), Coord(-120.6622946262359619140625, 35.30030071735382080078125)), Coord(-120.662305355072021484375, 35.300287306308746337890625), "9q60y60rh6");
  }

  /** The south neighbour of "9q60y60rhs": the step lands on (-120.66229999065399169921875, 35.300287306308746337890625), in the cell of "9q60y60rhd". */
  lemma Neighbor9q60y60rhsS()
    ensures Neighbor("9q60y60rhs", S) == Ok("9q60y60rhd")
  {
    Box9q60y60rhs();
    Cell9q60y60rhd(Coord(-120.66229999065399169921875, 35.300287306308746337890625));
    NeighborAt("9q60y60rhs", S, BBox(Coord(-120.662305355072021484375, 35.300295352935791015625), Coord(-120.6622946262359619140625, 35.30030071735382080078125)), Coord(-120.66229999065399169921875, 35.300287306308746337890625), "9q60y60rhd");
  }

  /** The south-east neighbour of "9q60y60rhs": the step lands on (-120.6622946262359619140625, 35.300287306308746337890625), in the cell of "9q60y60rhd". */
  lemma Neighbor9q60y60rhsSe()
    ensures Neighbor("9q60y60rhs", Se) == Ok("9q60y60rhd")
  {
    Box9q60y60rhs();
    Cell9q60y60rhd(Coord(-120.6622946262359619140625, 35.300287306308746337890625));
    NeighborAt("9q60y60rhs", Se, BBox(Coord(-120.662305355072021484375, 35.300295352935791015625), Coord(-120.6622946262359619140625, 35.30030071735382080078125)), Coord(-120.6622946262359619140625, 35.300287306308746337890625), "9q60y60rhd");
  }

  /** The west neighbour of "9q60y60rhs": the step lands on (-120.662305355072021484375, 35.300298035144805908203125), in the cell of "9q60y60rhk". */
  lemma Neighbor9q60y60rhsW()
    ensures Neighbor("9q60y60rhs", W) == Ok("9q60y60rhk")
  {
    Box9q60y60rhs();
    Cell9q60y60rhk(Coord(-120.662305355072021484375, 35.300298035144805908203125));
    NeighborAt("9q60y60rhs", W, BBox(Coord(-120.662305355072021484375, 35.300295352935791015625), Coord(-120.6622946262359619140625, 35.30030071735382080078125)), Coord(-120.662305355072021484375, 35.300298035144805908203125), "9q60y60rhk");
  }

  /** The east neighbour of "9q60y60rhs": the step lands on (-120.6622946262359619140625, 35.300298035144805908203125), in the cell of "9q60y60rhs". */
  lemma Neighbor9q60y60rhsE()
    ensures Neighbor("9q60y60rhs", E) == Ok("9q60y60rhs")
  {
    Box9q60y60rhs();
    Cell9q60y60rhs(Coord(-120.6622946262359619140625, 35.300298035144805908203125));
    NeighborAt("9q60y60rhs", E, BBox(Coord(-120.662305355072021484375, 35.300295352935791015625), Coord(-120.6622946262359619140625, 35.30030071735382080078125)), Coord(-120.6622946262359619140625, 35.300298035144805908203125), "9q60y60rhs");
  }

  /** The north-west neighbour of "9q60y60rhs": the step lands on (-120.662305355072021484375, 35.300308763980865478515625), in the cell of "9q60y60rhq". */
  lemma Neighbor9q60y60rhsNw()
    ensures Neighbor("9q60y60rhs", Nw) == Ok("9q60y60rhq")
  {
    Box9q60y60rhs();
    Cell9q60y60rhq(Coord(-120.662305355072021484375, 35.300308763980865478515625));
    NeighborAt("9q60y60rhs", Nw, BBox(Coord(-120.662305355072021484375, 35.300295352935791015625), Coord(-120.6622946262359619140625, 35.30030071735382080078125)), Coord(-120.662305355072021484375, 35.300308763980865478515625), "9q60y60rhq");
  }

  /** The north neighbour of "9q60y60rhs": the step lands on (-120.66229999065399169921875, 35.300308763980865478515625), in the cell of "9q60y60rhw". */
  lemma Neighbor9q60y60rhsN()
    ensures Neighbor("9q60y60rhs", N) == Ok("9q60y60rhw")
  {
    Box9q60y60rhs();
    Cell9q60y60rhw(Coord(-120.66229999065399169921875, 35.300308763980865478515625));
    NeighborAt("9q60y60rhs", N, BBox(Coord(-120.662305355072021484375, 35.300295352935791015625), Coord(-120.6622946262359619140625, 35.30030071735382080078125)), Coord(-120.66229999065399169921875, 35.300308763980865478515625), "9q60y60rhw");
  }

  /** The north-east neighbour of "9q60y60rhs": the step lands on (-120.6622946262359619140625, 35.300308763980865478515625), in the cell of "9q60y60rhw". */
  lemma Neighbor9q60y60rhsNe()
    ensures Neighbor("9q60y60rhs", Ne) == Ok("9q60y60rhw")
  {
    Box9q60y60rhs();
    Cell9q60y60rhw(Coord(-120.6622946262359619140625, 35.300308763980865478515625));
    NeighborAt("9q60y60rhs", Ne, BBox(Coord(-120.662305355072021484375, 35.300295352935791015625), Coord(-120.6622946262359619140625, 35.30030071735382080078125)), Coord(-120.6622946262359619140625, 35.300308763980865478515625), "9q60y60rhw");
  }

  /** `neighbors` of "9q60y60rhs" as the crate documents it. The step north
      or south is the cell's longitude extent, twice its latitude extent at
      this even length, so N, NE, S, SE, SW and NW land two rows away, and
      the step east or west is the latitude extent, half the longitude
      extent, so E lands on the cell's own eastern edge and stays in
      "9q60y60rhs". */
  lemma Neighbors9q60y60rhs()
    ensures NeighborsOf("9q60y60rhs") == Ok(Neighbors(
      "9q60y60rh6", "9q60y60rhd", "9q60y60rhd", "9q60y60rhk",
      "9q60y60rhs", "9q60y60rhq", "9q60y60rhw", "9q60y60rhw"))
  {
    Neighbor9q60y60rhsSw();
    Neighbor9q60y60rhsS();
    Neighbor9q60y60rhsSe();
    Neighbor9q60y60rhsW();
    Neighbor9q60y60rhsE();
    Neighbor9q60y60rhsNw();
    Neighbor9q60y60rhsN();
    Neighbor9q60y60rhsNe();
  }

  /** The south-west neighbour of "ww8p1r4t8": the step lands on (112.558343410491943359375, 37.832343578338623046875), in the cell of "ww8p1r4mr". */
  lemma NeighborWw8p1r4t8Sw()
    ensures Neighbor("ww8p1r4t8", Sw) == Ok("ww8p1r4mr")
  {
    BoxWw8p1r4t8();
    CellWw8p1r4mr(Coord(112.558343410491943359375, 37.832343578338623046875));
    NeighborAt("ww8p1r4t8", Sw, BBox(Coord(112.5583648681640625, 37.8323650360107421875), Coord(112.55840778350830078125, 37.83240795135498046875)), Coord(112.558343410491943359375, 37.832343578338623046875), "ww8p1r4mr");
  }

  /** The south neighbour of "ww8p1r4t8": the step lands on (112.558386325836181640625, 37.832343578338623046875), in the cell of "ww8p1r4t2". */
  lemma NeighborWw8p1r4t8S()
    ensures Neighbor("ww8p1r4t8", S) == Ok("ww8p1r4t2")
  {
    BoxWw8p1r4t8();
    CellWw8p1r4t2(Coord(112.558386325836181640625, 37.832343578338623046875));
    NeighborAt("ww8p1r4t8", S, BBox(Coord(112.5583648681640625, 37.8323650360107421875), Coord(112.55840778350830078125, 37.83240795135498046875)), Coord(112.558386325836181640625, 37.832343578338623046875), "ww8p1r4t2");
  }

  /** The south-east neighbour of "ww8p1r4t8": the step lands on (112.558429241180419921875, 37.832343578338623046875), in the cell of "ww8p1r4t3". */
  lemma NeighborWw8p1r4t8Se()
    ensures Neighbor("ww8p1r4t8", Se) == Ok("ww8p1r4t3")
  {
    BoxWw8p1r4t8();
    CellWw8p1r4t3(Coord(112.558429241180419921875, 37.832343578338623046875));
    NeighborAt("ww8p1r4t8", Se, BBox(Coord(112.5583648681640625, 37.8323650360107421875), Coord(112.55840778350830078125, 37.83240795135498046875)), Coord(112.558429241180419921875, 37.832343578338623046875), "ww8p1r4t3");
  }

  /** The west neighbour of "ww8p1r4t8": the step lands on (112.558343410491943359375, 37.832386493682861328125), in the cell of "ww8p1r4mx". */
  lemma NeighborWw8p1r4t8W()
    ensures Neighbor("ww8p1r4t8", W) == Ok("ww8p1r4mx")
  {
    BoxWw8p1r4t8();
    CellWw8p1r4mx(Coord(112.558343410491943359375, 37.832386493682861328125));
    NeighborAt("ww8p1r4t8", W, BBox(Coord(112.5583648681640625, 37.8323650360107421875), Coord(112.55840778350830078125, 37.83240795135498046875)), Coord(112.558343410491943359375, 37.832386493682861328125), "ww8p1r4mx");
  }

  /** The east neighbour of "ww8p1r4t8": the step lands on (112.558429241180419921875, 37.832386493682861328125), in the cell of "ww8p1r4t9". */
  lemma NeighborWw8p1r4t8E()
    ensures Neighbor("ww8p1r4t8", E) == Ok("ww8p1r4t9")
  {
    BoxWw8p1r4t8();
    CellWw8p1r4t9(Coord(112.558429241180419921875, 37.832386493682861328125));
    NeighborAt("ww8p1r4t8", E, BBox(Coord(112.5583648681640625, 37.8323650360107421875), Coord(112.55840778350830078125, 37.83240795135498046875)), Coord(112.558429241180419921875, 37.832386493682861328125), "ww8p1r4t9");
  }

  /** The north-west neighbour of "ww8p1r4t8": the step lands on (112.558343410491943359375, 37.832429409027099609375), in the cell of "ww8p1r4mz". */
  lemma NeighborWw8p1r4t8Nw()
    ensures Neighbor("ww8p1r4t8", Nw) == Ok("ww8p1r4mz")
  {
    BoxWw8p1r4t8();
    CellWw8p1r4mz(Coord(112.558343410491943359375, 37.832429409027099609375));
    NeighborAt("ww8p1r4t8", Nw, BBox(Coord(112.5583648681640625, 37.8323650360107421875), Coord(112.55840778350830078125, 37.83240795135498046875)), Coord(112.558343410491943359375, 37.832429409027099609375), "ww8p1r4mz");
  }

  /** The north neighbour of "ww8p1r4t8": the step lands on (112.558386325836181640625, 37.832429409027099609375), in the cell of "ww8p1r4tb". */
  lemma NeighborWw8p1r4t8N()
    ensures Neighbor("ww8p1r4t8", N) == Ok("ww8p1r4tb")
  {
    BoxWw8p1r4t8();
    CellWw8p1r4tb(Coord(112.558386325836181640625, 37.832429409027099609375));
    NeighborAt("ww8p1r4t8", N, BBox(Coord(112.5583648681640625, 37.8323650360107421875), Coord(112.55840778350830078125, 37.83240795135498046875)), Coord(112.558386325836181640625, 37.832429409027099609375), "ww8p1r4tb");
  }

  /** The north-east neighbour of "ww8p1r4t8": the step lands on (112.558429241180419921875, 37.832429409027099609375), in the cell of "ww8p1r4tc". */
  lemma NeighborWw8p1r4t8Ne()
    ensures Neighbor("ww8p1r4t8", Ne) == Ok("ww8p1r4tc")
  {
    BoxWw8p1r4t8();
    CellWw8p1r4tc(Coord(112.558429241180419921875, 37.832429409027099609375));
    NeighborAt("ww8p1r4t8", Ne, BBox(Coord(112.5583648681640625, 37.8323650360107421875), Coord(112.55840778350830078125, 37.83240795135498046875)), Coord(112.558429241180419921875, 37.832429409027099609375), "ww8p1r4tc");
  }

  /** `neighbors` of "ww8p1r4t8" as the crate's test expects: at this odd
      length the cell is square, so the as-written steps reach the eight
      adjacent cells. */
  lemma NeighborsWw8p1r4t8()
    ensures NeighborsOf("ww8p1r4t8") == Ok(Neighbors(
      "ww8p1r4mr", "ww8p1r4t2", "ww8p1r4t3", "ww8p1r4mx",
      "ww8p1r4t9", "ww8p1r4mz", "ww8p1r4tb", "ww8p1r4tc"))
  {
    NeighborWw8p1r4t8Sw();
    NeighborWw8p1r4t8S();
    NeighborWw8p1r4t8Se();
    NeighborWw8p1r4t8W();
    NeighborWw8p1r4t8E();
    NeighborWw8p1r4t8Nw();
    NeighborWw8p1r4t8N();
    NeighborWw8p1r4t8Ne();
  }
}
