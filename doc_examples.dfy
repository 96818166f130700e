/** The half-extents that the documentation of `decode` shows for its two
    examples, "9q60y" (five symbols) and "9q60y60rhs" (ten symbols): they
    depend only on the length, so they hold for every geohash of that
    length. The documented values are the binary64 renderings of these
    exact dyadic numbers. */
module DocExamples {
  import opened Codec
  import opened CodecFacts

  /** Five symbols: 13 longitude and 12 latitude halvings make a cell
      0.0439453125 degrees on each side. */
  lemma ErrorsFive(h: string)
    requires IsGeohash(h) && |h| == 5
    ensures Decode(h).Ok?
    ensures Decode(h).value.latErr == 0.02197265625
    ensures Decode(h).value.lonErr == 0.02197265625
  {
    DecodeErrors(h);
    assert 5 * |h| / 2 == 12 && (5 * |h| + 1) / 2 == 13;
    assert Halved(180.0, 12) == 0.0439453125;
    assert Halved(360.0, 13) == 0.0439453125;
  }

  /** Ten symbols: 25 halvings of each axis make a cell twice as wide as it
      is high. */
  lemma ErrorsTen(h: string)
    requires IsGeohash(h) && |h| == 10
    ensures Decode(h).Ok?
    ensures Decode(h).value.latErr == 0.000002682209014892578125
    ensures Decode(h).value.lonErr == 0.00000536441802978515625
  {
    DecodeErrors(h);
    assert 5 * |h| / 2 == 25 && (5 * |h| + 1) / 2 == 25;
    HalvedSplit(180.0, 12, 13);
    HalvedSplit(360.0, 12, 13);
    assert Halved(180.0, 12) == 0.0439453125;
    assert Halved(360.0, 12) == 0.087890625;
    assert Halved(0.0439453125, 13) == 0.000005364418029785156250;
    assert Halved(0.087890625, 13) == 0.0000107288360595703125;
  }
}
