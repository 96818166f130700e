/** The encoder's bisection followed five passes (one symbol) at a time
    through boxes written out exactly, and the cells of the geohashes the
    crate's examples and tests mention: every point of a cell, open at its
    minimum edges, encodes to that cell's geohash, since the encoder compares
    a point only with the midpoints of the boxes it passes through. */
module Cells {
  import opened Alphabet
  import opened Bits
  import opened Codec
  import opened CodecFacts

  /** One pass of the encoder from a known box: the bit it emits and the
      box it narrows to. */
  lemma Pass(c: Coord, n: nat, box: BBox, bit: bool, box': BBox)
    requires EncodeRun(c, n).box == box
    requires BitFor(c, box, n) == bit && Narrow(box, n, bit) == box'
    ensures EncodeBit(c, n) == bit && EncodeRun(c, n + 1).box == box'
  {
    BoxSnoc(c, n);
  }

  /** A bit as a number. */
  function BitValue(b: bool): nat {
    if b then 1 else 0
  }

  /** The value of five bits, most significant first. */
  lemma FromBitsFive(b0: bool, b1: bool, b2: bool, b3: bool, b4: bool)
    ensures FromBits([b0, b1, b2, b3, b4]) ==
      16 * BitValue(b0) + 8 * BitValue(b1) + 4 * BitValue(b2) + 2 * BitValue(b3) + BitValue(b4)
  {
    var s0: seq<bool> := [];
    FromBitsSnoc(s0, b0);
    var s1 := s0 + [b0];
    FromBitsSnoc(s1, b1);
    var s2 := s1 + [b1];
    FromBitsSnoc(s2, b2);
    var s3 := s2 + [b2];
    FromBitsSnoc(s3, b3);
    var s4 := s3 + [b3];
    FromBitsSnoc(s4, b4);
    assert s4 + [b4] == [b0, b1, b2, b3, b4];
  }

  /** Five known bits from index `n = 5 * m` on append the symbol of their
      value. */
  lemma NextSymbol(c: Coord, m: nat, n: nat, b0: bool, b1: bool, b2: bool, b3: bool, b4: bool, s: char)
    requires n == 5 * m
    requires EncodeBit(c, n) == b0 && EncodeBit(c, n + 1) == b1 && EncodeBit(c, n + 2) == b2
    requires EncodeBit(c, n + 3) == b3 && EncodeBit(c, n + 4) == b4
    requires s == SymbolFor(16 * BitValue(b0) + 8 * BitValue(b1) + 4 * BitValue(b2) + 2 * BitValue(b3) + BitValue(b4))
    ensures Encoded(c, m + 1) == Encoded(c, m) + [s]
  {
    FiveBits(c, n, b0, b1, b2, b3, b4);
    FromBitsFive(b0, b1, b2, b3, b4);
    EncodedSnoc(c, m, n + 5);
  }

  /** Five known bits from index `n` on follow the bits before them. */
  lemma FiveBits(c: Coord, n: nat, b0: bool, b1: bool, b2: bool, b3: bool, b4: bool)
    requires EncodeBit(c, n) == b0 && EncodeBit(c, n + 1) == b1 && EncodeBit(c, n + 2) == b2
    requires EncodeBit(c, n + 3) == b3 && EncodeBit(c, n + 4) == b4
    ensures EncodeBits(c, n + 5)[n..] == [b0, b1, b2, b3, b4]
  {
    var pre := EncodeBits(c, n);
    assert EncodeBits(c, n + 1) == pre + [b0];
    assert EncodeBits(c, n + 2) == pre + [b0, b1];
    assert EncodeBits(c, n + 3) == pre + [b0, b1, b2];
    assert EncodeBits(c, n + 4) == pre + [b0, b1, b2, b3];
    assert EncodeBits(c, n + 5) == pre + [b0, b1, b2, b3, b4];
  }

  /** Two passes from known boxes, `box0` to `box2`: the bits they emit. */
  lemma PassTwo(c: Coord, n: nat, b0: bool, b1: bool, box0: BBox, box1: BBox, box2: BBox)
    requires EncodeRun(c, n).box == box0
    requires BitFor(c, box0, n) == b0 && Narrow(box0, n, b0) == box1
    requires BitFor(c, box1, n + 1) == b1 && Narrow(box1, n + 1, b1) == box2
    ensures EncodeRun(c, n + 2).box == box2
    ensures EncodeBit(c, n) == b0 && EncodeBit(c, n + 1) == b1
  {
    Pass(c, n, box0, b0, box1);
    Pass(c, n + 1, box1, b1, box2);
  }

  /** Three passes from known boxes, `box0` to `box3`: the bits they emit. */
  lemma PassThree(c: Coord, n: nat, b0: bool, b1: bool, b2: bool, box0: BBox, box1: BBox, box2: BBox, box3: BBox)
    requires EncodeRun(c, n).box == box0
    requires BitFor(c, box0, n) == b0 && Narrow(box0, n, b0) == box1
    requires BitFor(c, box1, n + 1) == b1 && Narrow(box1, n + 1, b1) == box2
    requires BitFor(c, box2, n + 2) == b2 && Narrow(box2, n + 2, b2) == box3
    ensures EncodeRun(c, n + 3).box == box3
    ensures EncodeBit(c, n) == b0 && EncodeBit(c, n + 1) == b1 && EncodeBit(c, n + 2) == b2
  {
    Pass(c, n, box0, b0, box1);
    PassTwo(c, n + 1, b1, b2, box1, box2, box3);
  }

  /** Five passes from known boxes, `box0` to `box5`: the bits they emit. */
  lemma PassFive(c: Coord, n: nat, b0: bool, b1: bool, b2: bool, b3: bool, b4: bool,
                 box0: BBox, box1: BBox, box2: BBox, box3: BBox, box4: BBox, box5: BBox)
    requires EncodeRun(c, n).box == box0
    requires BitFor(c, box0, n) == b0 && Narrow(box0, n, b0) == box1
    requires BitFor(c, box1, n + 1) == b1 && Narrow(box1, n + 1, b1) == box2
    requires BitFor(c, box2, n + 2) == b2 && Narrow(box2, n + 2, b2) == box3
    requires BitFor(c, box3, n + 3) == b3 && Narrow(box3, n + 3, b3) == box4
    requires BitFor(c, box4, n + 4) == b4 && Narrow(box4, n + 4, b4) == box5
    ensures EncodeRun(c, n + 5).box == box5
    ensures EncodeBit(c, n) == b0 && EncodeBit(c, n + 1) == b1 && EncodeBit(c, n + 2) == b2
    ensures EncodeBit(c, n + 3) == b3 && EncodeBit(c, n + 4) == b4
  {
    PassTwo(c, n, b0, b1, box0, box1, box2);
    PassThree(c, n + 2, b2, b3, b4, box2, box3, box4, box5);
  }

  // ---------------------------------------------------------------------
  // The cells, one symbol at a time

  /** Every point of the cell of "9" encodes to it: passes 0 to 4 emit 01001, the value 9 of '9'. */
  lemma Cell9(c: Coord)
    requires InCell(BBox(Coord(-135.0, 0.0), Coord(-90.0, 45.0)), c)
    ensures EncodeRun(c, 5).box == BBox(Coord(-135.0, 0.0), Coord(-90.0, 45.0))
    ensures Encoded(c, 1) == "9"
  {
    PassFive(c, 0, false, true, false, false, true,
      World,
      BBox(Coord(-180.0, -90.0), Coord(0.0, 90.0)),
      BBox(Coord(-180.0, 0.0), Coord(0.0, 90.0)),
      BBox(Coord(-180.0, 0.0), Coord(-90.0, 90.0)),
      BBox(Coord(-180.0, 0.0), Coord(-90.0, 45.0)),
      BBox(Coord(-135.0, 0.0), Coord(-90.0, 45.0)));
    NextSymbol(c, 0, 0, false, true, false, false, true, '9');
  }

  /** Every point of the cell of "9q" encodes to it: passes 5 to 9 emit 10110, the value 22 of 'q'. */
  lemma Cell9q(c: Coord)
    requires InCell(BBox(Coord(-123.75, 33.75), Coord(-112.5, 39.375)), c)
    ensures EncodeRun(c, 10).box == BBox(Coord(-123.75, 33.75), Coord(-112.5, 39.375))
    ensures Encoded(c, 2) == "9q"
  {
    Cell9(c);
    PassFive(c, 5, true, false, true, true, false,
      BBox(Coord(-135.0, 0.0), Coord(-90.0, 45.0)),
      BBox(Coord(-135.0, 22.5), Coord(-90.0, 45.0)),
      BBox(Coord(-135.0, 22.5), Coord(-112.5, 45.0)),
      BBox(Coord(-135.0, 33.75), Coord(-112.5, 45.0)),
      BBox(Coord(-123.75, 33.75), Coord(-112.5, 45.0)),
      BBox(Coord(-123.75, 33.75), Coord(-112.5, 39.375)));
    NextSymbol(c, 1, 5, true, false, true, true, false, 'q');
  }

  /** Every point of the cell of "9q6" encodes to it: passes 10 to 14 emit 00110, the value 6 of '6'. */
  lemma Cell9q6(c: Coord)
    requires InCell(BBox(Coord(-120.9375, 35.15625), Coord(-119.53125, 36.5625)), c)
    ensures EncodeRun(c, 15).box == BBox(Coord(-120.9375, 35.15625), Coord(-119.53125, 36.5625))
    ensures Encoded(c, 3) == "9q6"
  {
    Cell9q(c);
    PassFive(c, 10, false, false, true, true, false,
      BBox(Coord(-123.75, 33.75), Coord(-112.5, 39.375)),
      BBox(Coord(-123.75, 33.75), Coord(-118.125, 39.375)),
      BBox(Coord(-123.75, 33.75), Coord(-118.125, 36.5625)),
      BBox(Coord(-120.9375, 33.75), Coord(-118.125, 36.5625)),
      BBox(Coord(-120.9375, 35.15625), Coord(-118.125, 36.5625)),
      BBox(Coord(-120.9375, 35.15625), Coord(-119.53125, 36.5625)));
    NextSymbol(c, 2, 10, false, false, true, true, false, '6');
  }

  /** Every point of the cell of "9q60" encodes to it: passes 15 to 19 emit 00000, the value 0 of '0'. */
  lemma Cell9q60(c: Coord)
    requires InCell(BBox(Coord(-120.9375, 35.15625), Coord(-120.5859375, 35.33203125)), c)
    ensures EncodeRun(c, 20).box == BBox(Coord(-120.9375, 35.15625), Coord(-120.5859375, 35.33203125))
    ensures Encoded(c, 4) == "9q60"
  {
    Cell9q6(c);
    PassFive(c, 15, false, false, false, false, false,
      BBox(Coord(-120.9375, 35.15625), Coord(-119.53125, 36.5625)),
      BBox(Coord(-120.9375, 35.15625), Coord(-119.53125, 35.859375)),
      BBox(Coord(-120.9375, 35.15625), Coord(-120.234375, 35.859375)),
      BBox(Coord(-120.9375, 35.15625), Coord(-120.234375, 35.5078125)),
      BBox(Coord(-120.9375, 35.15625), Coord(-120.5859375, 35.5078125)),
      BBox(Coord(-120.9375, 35.15625), Coord(-120.5859375, 35.33203125)));
    NextSymbol(c, 3, 15, false, false, false, false, false, '0');
  }

  /** Every point of the cell of "9q60y" encodes to it: passes 20 to 24 emit 11110, the value 30 of 'y'. */
  lemma Cell9q60y(c: Coord)
    requires InCell(BBox(Coord(-120.673828125, 35.2880859375), Coord(-120.6298828125, 35.33203125)), c)
    ensures EncodeRun(c, 25).box == BBox(Coord(-120.673828125, 35.2880859375), Coord(-120.6298828125, 35.33203125))
    ensures Encoded(c, 5) == "9q60y"
  {
    Cell9q60(c);
    PassFive(c, 20, true, true, true, true, false,
      BBox(Coord(-120.9375, 35.15625), Coord(-120.5859375, 35.33203125)),
      BBox(Coord(-120.76171875, 35.15625), Coord(-120.5859375, 35.33203125)),
      BBox(Coord(-120.76171875, 35.244140625), Coord(-120.5859375, 35.33203125)),
      BBox(Coord(-120.673828125, 35.244140625), Coord(-120.5859375, 35.33203125)),
      BBox(Coord(-120.673828125, 35.2880859375), Coord(-120.5859375, 35.33203125)),
      BBox(Coord(-120.673828125, 35.2880859375), Coord(-120.6298828125, 35.33203125)));
    NextSymbol(c, 4, 20, true, true, true, true, false, 'y');
  }

  /** Every point of the cell of "9q60y6" encodes to it: passes 25 to 29 emit 00110, the value 6 of '6'. */
  lemma Cell9q60y6(c: Coord)
    requires InCell(BBox(Coord(-120.662841796875, 35.299072265625), Coord(-120.65185546875, 35.3045654296875)), c)
    ensures EncodeRun(c, 30).box == BBox(Coord(-120.662841796875, 35.299072265625), Coord(-120.65185546875, 35.3045654296875))
    ensures Encoded(c, 6) == "9q60y6"
  {
    Cell9q60y(c);
    PassFive(c, 25, false, false, true, true, false,
      BBox(Coord(-120.673828125, 35.2880859375), Coord(-120.6298828125, 35.33203125)),
      BBox(Coord(-120.673828125, 35.2880859375), Coord(-120.6298828125, 35.31005859375)),
      BBox(Coord(-120.673828125, 35.2880859375), Coord(-120.65185546875, 35.31005859375)),
      BBox(Coord(-120.673828125, 35.299072265625), Coord(-120.65185546875, 35.31005859375)),
      BBox(Coord(-120.662841796875, 35.299072265625), Coord(-120.65185546875, 35.31005859375)),
      BBox(Coord(-120.662841796875, 35.299072265625), Coord(-120.65185546875, 35.3045654296875)));
    NextSymbol(c, 5, 25, false, false, true, true, false, '6');
  }

  /** Every point of the cell of "9q60y60" encodes to it: passes 30 to 34 emit 00000, the value 0 of '0'. */
  lemma Cell9q60y60(c: Coord)
    requires InCell(BBox(Coord(-120.662841796875, 35.299072265625), Coord(-120.661468505859375, 35.300445556640625)), c)
    ensures EncodeRun(c, 35).box == BBox(Coord(-120.662841796875, 35.299072265625), Coord(-120.661468505859375, 35.300445556640625))
    ensures Encoded(c, 7) == "9q60y60"
  {
    Cell9q60y6(c);
    PassFive(c, 30, false, false, false, false, false,
      BBox(Coord(-120.662841796875, 35.299072265625), Coord(-120.65185546875, 35.3045654296875)),
      BBox(Coord(-120.662841796875, 35.299072265625), Coord(-120.6573486328125, 35.3045654296875)),
      BBox(Coord(-120.662841796875, 35.299072265625), Coord(-120.6573486328125, 35.30181884765625)),
      BBox(Coord(-120.662841796875, 35.299072265625), Coord(-120.66009521484375, 35.30181884765625)),
      BBox(Coord(-120.662841796875, 35.299072265625), Coord(-120.66009521484375, 35.300445556640625)),
      BBox(Coord(-120.662841796875, 35.299072265625), Coord(-120.661468505859375, 35.300445556640625)));
    NextSymbol(c, 6, 30, false, false, false, false, false, '0');
  }

  /** Every point of the cell of "9q60y60r" encodes to it: passes 35 to 39 emit 10111, the value 23 of 'r'. */
  lemma Cell9q60y60r(c: Coord)
    requires InCell(BBox(Coord(-120.66249847412109375, 35.300273895263671875), Coord(-120.6621551513671875, 35.300445556640625)), c)
    ensures EncodeRun(c, 40).box == BBox(Coord(-120.66249847412109375, 35.300273895263671875), Coord(-120.6621551513671875, 35.300445556640625))
    ensures Encoded(c, 8) == "9q60y60r"
  {
    Cell9q60y60(c);
    PassFive(c, 35, true, false, true, true, true,
      BBox(Coord(-120.662841796875, 35.299072265625), Coord(-120.661468505859375, 35.300445556640625)),
      BBox(Coord(-120.662841796875, 35.2997589111328125), Coord(-120.661468505859375, 35.300445556640625)),
      BBox(Coord(-120.662841796875, 35.2997589111328125), Coord(-120.6621551513671875, 35.300445556640625)),
      BBox(Coord(-120.662841796875, 35.30010223388671875), Coord(-120.6621551513671875, 35.300445556640625)),
      BBox(Coord(-120.66249847412109375, 35.30010223388671875), Coord(-120.6621551513671875, 35.300445556640625)),
      BBox(Coord(-120.66249847412109375, 35.300273895263671875), Coord(-120.6621551513671875, 35.300445556640625)));
    NextSymbol(c, 7, 35, true, false, true, true, true, 'r');
  }

  /** Every point of the cell of "9q60y60rh" encodes to it: passes 40 to 44 emit 10000, the value 16 of 'h'. */
  lemma Cell9q60y60rh(c: Coord)
    requires InCell(BBox(Coord(-120.662326812744140625, 35.300273895263671875), Coord(-120.66228389739990234375, 35.30031681060791015625)), c)
    ensures EncodeRun(c, 45).box == BBox(Coord(-120.662326812744140625, 35.300273895263671875), Coord(-120.66228389739990234375, 35.30031681060791015625))
    ensures Encoded(c, 9) == "9q60y60rh"
  {
    Cell9q60y60r(c);
    PassFive(c, 40, true, false, false, false, false,
      BBox(Coord(-120.66249847412109375, 35.300273895263671875), Coord(-120.6621551513671875, 35.300445556640625)),
      BBox(Coord(-120.662326812744140625, 35.300273895263671875), Coord(-120.6621551513671875, 35.300445556640625)),
      BBox(Coord(-120.662326812744140625, 35.300273895263671875), Coord(-120.6621551513671875, 35.3003597259521484375)),
      BBox(Coord(-120.662326812744140625, 35.300273895263671875), Coord(-120.6622409820556640625, 35.3003597259521484375)),
      BBox(Coord(-120.662326812744140625, 35.300273895263671875), Coord(-120.6622409820556640625, 35.30031681060791015625)),
      BBox(Coord(-120.662326812744140625, 35.300273895263671875), Coord(-120.66228389739990234375, 35.30031681060791015625)));
    NextSymbol(c, 8, 40, true, false, false, false, false, 'h');
  }

  /** Every point of the cell of "9q60y60rhs" encodes to it: passes 45 to 49 emit 11000, the value 24 of 's'. */
  lemma Cell9q60y60rhs(c: Coord)
    requires InCell(BBox(Coord(-120.662305355072021484375, 35.300295352935791015625), Coord(-120.6622946262359619140625, 35.30030071735382080078125)), c)
    ensures EncodeRun(c, 50).box == BBox(Coord(-120.662305355072021484375, 35.300295352935791015625), Coord(-120.6622946262359619140625, 35.30030071735382080078125))
    ensures Encoded(c, 10) == "9q60y60rhs"
  {
    Cell9q60y60rh(c);
    PassFive(c, 45, true, true, false, false, false,
      BBox(Coord(-120.662326812744140625, 35.300273895263671875), Coord(-120.66228389739990234375, 35.30031681060791015625)),
      BBox(Coord(-120.662326812744140625, 35.300295352935791015625), Coord(-120.66228389739990234375, 35.30031681060791015625)),
      BBox(Coord(-120.662305355072021484375, 35.300295352935791015625), Coord(-120.66228389739990234375, 35.30031681060791015625)),
      BBox(Coord(-120.662305355072021484375, 35.300295352935791015625), Coord(-120.66228389739990234375, 35.3003060817718505859375)),
      BBox(Coord(-120.662305355072021484375, 35.300295352935791015625), Coord(-120.6622946262359619140625, 35.3003060817718505859375)),
      BBox(Coord(-120.662305355072021484375, 35.300295352935791015625), Coord(-120.6622946262359619140625, 35.30030071735382080078125)));
    NextSymbol(c, 9, 45, true, true, false, false, false, 's');
  }

  /** Every point of the cell of "9q60y60rhw" encodes to it: passes 45 to 49 emit 11100, the value 28 of 'w'. */
  lemma Cell9q60y60rhw(c: Coord)
    requires InCell(BBox(Coord(-120.662305355072021484375, 35.3003060817718505859375), Coord(-120.6622946262359619140625, 35.30031144618988037109375)), c)
    ensures EncodeRun(c, 50).box == BBox(Coord(-120.662305355072021484375, 35.3003060817718505859375), Coord(-120.6622946262359619140625, 35.30031144618988037109375))
    ensures Encoded(c, 10) == "9q60y60rhw"
  {
    Cell9q60y60rh(c);
    PassFive(c, 45, true, true, true, false, false,
      BBox(Coord(-120.662326812744140625, 35.300273895263671875), Coord(-120.66228389739990234375, 35.30031681060791015625)),
      BBox(Coord(-120.662326812744140625, 35.300295352935791015625), Coord(-120.66228389739990234375, 35.30031681060791015625)),
      BBox(Coord(-120.662305355072021484375, 35.300295352935791015625), Coord(-120.66228389739990234375, 35.30031681060791015625)),
      BBox(Coord(-120.662305355072021484375, 35.3003060817718505859375), Coord(-120.66228389739990234375, 35.30031681060791015625)),
      BBox(Coord(-120.662305355072021484375, 35.3003060817718505859375), Coord(-120.6622946262359619140625, 35.30031681060791015625)),
      BBox(Coord(-120.662305355072021484375, 35.3003060817718505859375), Coord(-120.6622946262359619140625, 35.30031144618988037109375)));
    NextSymbol(c, 9, 45, true, true, true, false, false, 'w');
  }

  /** Every point of the cell of "9q60y60rhd" encodes to it: passes 45 to 49 emit 01100, the value 12 of 'd'. */
  lemma Cell9q60y60rhd(c: Coord)
    requires InCell(BBox(Coord(-120.662305355072021484375, 35.3002846240997314453125), Coord(-120.6622946262359619140625, 35.30028998851776123046875)), c)
    ensures EncodeRun(c, 50).box == BBox(Coord(-120.662305355072021484375, 35.3002846240997314453125), Coord(-120.6622946262359619140625, 35.30028998851776123046875))
    ensures Encoded(c, 10) == "9q60y60rhd"
  {
    Cell9q60y60rh(c);
    PassFive(c, 45, false, true, true, false, false,
      BBox(Coord(-120.662326812744140625, 35.300273895263671875), Coord(-120.66228389739990234375, 35.30031681060791015625)),
      BBox(Coord(-120.662326812744140625, 35.300273895263671875), Coord(-120.66228389739990234375, 35.300295352935791015625)),
      BBox(Coord(-120.662305355072021484375, 35.300273895263671875), Coord(-120.66228389739990234375, 35.300295352935791015625)),
      BBox(Coord(-120.662305355072021484375, 35.3002846240997314453125), Coord(-120.66228389739990234375, 35.300295352935791015625)),
      BBox(Coord(-120.662305355072021484375, 35.3002846240997314453125), Coord(-120.6622946262359619140625, 35.300295352935791015625)),
      BBox(Coord(-120.662305355072021484375, 35.3002846240997314453125), Coord(-120.6622946262359619140625, 35.30028998851776123046875)));
    NextSymbol(c, 9, 45, false, true, true, false, false, 'd');
  }

  /** Every point of the cell of "9q60y60rh6" encodes to it: passes 45 to 49 emit 00110, the value 6 of '6'. */
  lemma Cell9q60y60rh6(c: Coord)
    requires InCell(BBox(Coord(-120.6623160839080810546875, 35.3002846240997314453125), Coord(-120.662305355072021484375, 35.30028998851776123046875)), c)
    ensures EncodeRun(c, 50).box == BBox(Coord(-120.6623160839080810546875, 35.3002846240997314453125), Coord(-120.662305355072021484375, 35.30028998851776123046875))
    ensures Encoded(c, 10) == "9q60y60rh6"
  {
    Cell9q60y60rh(c);
    PassFive(c, 45, false, false, true, true, false,
      BBox(Coord(-120.662326812744140625, 35.300273895263671875), Coord(-120.66228389739990234375, 35.30031681060791015625)),
      BBox(Coord(-120.662326812744140625, 35.300273895263671875), Coord(-120.66228389739990234375, 35.300295352935791015625)),
      BBox(Coord(-120.662326812744140625, 35.300273895263671875), Coord(-120.662305355072021484375, 35.300295352935791015625)),
      BBox(Coord(-120.662326812744140625, 35.3002846240997314453125), Coord(-120.662305355072021484375, 35.300295352935791015625)),
      BBox(Coord(-120.6623160839080810546875, 35.3002846240997314453125), Coord(-120.662305355072021484375, 35.300295352935791015625)),
      BBox(Coord(-120.6623160839080810546875, 35.3002846240997314453125), Coord(-120.662305355072021484375, 35.30028998851776123046875)));
    NextSymbol(c, 9, 45, false, false, true, true, false, '6');
  }

  /** Every point of the cell of "9q60y60rhk" encodes to it: passes 45 to 49 emit 10010, the value 18 of 'k'. */
  lemma Cell9q60y60rhk(c: Coord)
    requires InCell(BBox(Coord(-120.6623160839080810546875, 35.300295352935791015625), Coord(-120.662305355072021484375, 35.30030071735382080078125)), c)
    ensures EncodeRun(c, 50).box == BBox(Coord(-120.6623160839080810546875, 35.300295352935791015625), Coord(-120.662305355072021484375, 35.30030071735382080078125))
    ensures Encoded(c, 10) == "9q60y60rhk"
  {
    Cell9q60y60rh(c);
    PassFive(c, 45, true, false, false, true, false,
      BBox(Coord(-120.662326812744140625, 35.300273895263671875), Coord(-120.66228389739990234375, 35.30031681060791015625)),
      BBox(Coord(-120.662326812744140625, 35.300295352935791015625), Coord(-120.66228389739990234375, 35.30031681060791015625)),
      BBox(Coord(-120.662326812744140625, 35.300295352935791015625), Coord(-120.662305355072021484375, 35.30031681060791015625)),
      BBox(Coord(-120.662326812744140625, 35.300295352935791015625), Coord(-120.662305355072021484375, 35.3003060817718505859375)),
      BBox(Coord(-120.6623160839080810546875, 35.300295352935791015625), Coord(-120.662305355072021484375, 35.3003060817718505859375)),
      BBox(Coord(-120.6623160839080810546875, 35.300295352935791015625), Coord(-120.662305355072021484375, 35.30030071735382080078125)));
    NextSymbol(c, 9, 45, true, false, false, true, false, 'k');
  }

  /** Every point of the cell of "9q60y60rhq" encodes to it: passes 45 to 49 emit 10110, the value 22 of 'q'. */
  lemma Cell9q60y60rhq(c: Coord)
    requires InCell(BBox(Coord(-120.6623160839080810546875, 35.3003060817718505859375), Coord(-120.662305355072021484375, 35.30031144618988037109375)), c)
    ensures EncodeRun(c, 50).box == BBox(Coord(-120.6623160839080810546875, 35.3003060817718505859375), Coord(-120.662305355072021484375, 35.30031144618988037109375))
    ensures Encoded(c, 10) == "9q60y60rhq"
  {
    Cell9q60y60rh(c);
    PassFive(c, 45, true, false, true, true, false,
      BBox(Coord(-120.662326812744140625, 35.300273895263671875), Coord(-120.66228389739990234375, 35.30031681060791015625)),
      BBox(Coord(-120.662326812744140625, 35.300295352935791015625), Coord(-120.66228389739990234375, 35.30031681060791015625)),
      BBox(Coord(-120.662326812744140625, 35.300295352935791015625), Coord(-120.662305355072021484375, 35.30031681060791015625)),
      BBox(Coord(-120.662326812744140625, 35.3003060817718505859375), Coord(-120.662305355072021484375, 35.30031681060791015625)),
      BBox(Coord(-120.6623160839080810546875, 35.3003060817718505859375), Coord(-120.662305355072021484375, 35.30031681060791015625)),
      BBox(Coord(-120.6623160839080810546875, 35.3003060817718505859375), Coord(-120.662305355072021484375, 35.30031144618988037109375)));
    NextSymbol(c, 9, 45, true, false, true, true, false, 'q');
  }

  /** Every point of the cell of "w" encodes to it: passes 0 to 4 emit 11100, the value 28 of 'w'. */
  lemma CellW(c: Coord)
    requires InCell(BBox(Coord(90.0, 0.0), Coord(135.0, 45.0)), c)
    ensures EncodeRun(c, 5).box == BBox(Coord(90.0, 0.0), Coord(135.0, 45.0))
    ensures Encoded(c, 1) == "w"
  {
    PassFive(c, 0, true, true, true, false, false,
      World,
      BBox(Coord(0.0, -90.0), Coord(180.0, 90.0)),
      BBox(Coord(0.0, 0.0), Coord(180.0, 90.0)),
      BBox(Coord(90.0, 0.0), Coord(180.0, 90.0)),
      BBox(Coord(90.0, 0.0), Coord(180.0, 45.0)),
      BBox(Coord(90.0, 0.0), Coord(135.0, 45.0)));
    NextSymbol(c, 0, 0, true, true, true, false, false, 'w');
  }

  /** Every point of the cell of "wt" encodes to it: passes 5 to 9 emit 11001, the value 25 of 't'. */
  lemma CellWt(c: Coord)
    requires InCell(BBox(Coord(112.5, 28.125), Coord(123.75, 33.75)), c)
    ensures EncodeRun(c, 10).box == BBox(Coord(112.5, 28.125), Coord(123.75, 33.75))
    ensures Encoded(c, 2) == "wt"
  {
    CellW(c);
    PassFive(c, 5, true, true, false, false, true,
      BBox(Coord(90.0, 0.0), Coord(135.0, 45.0)),
      BBox(Coord(90.0, 22.5), Coord(135.0, 45.0)),
      BBox(Coord(112.5, 22.5), Coord(135.0, 45.0)),
      BBox(Coord(112.5, 22.5), Coord(135.0, 33.75)),
      BBox(Coord(112.5, 22.5), Coord(123.75, 33.75)),
      BBox(Coord(112.5, 28.125), Coord(123.75, 33.75)));
    NextSymbol(c, 1, 5, true, true, false, false, true, 't');
  }

  /** Every point of the cell of "wte" encodes to it: passes 10 to 14 emit 01101, the value 13 of 'e'. */
  lemma CellWte(c: Coord)
    requires InCell(BBox(Coord(116.71875, 30.9375), Coord(118.125, 32.34375)), c)
    ensures EncodeRun(c, 15).box == BBox(Coord(116.71875, 30.9375), Coord(118.125, 32.34375))
    ensures Encoded(c, 3) == "wte"
  {
    CellWt(c);
    PassFive(c, 10, false, true, true, false, true,
      BBox(Coord(112.5, 28.125), Coord(123.75, 33.75)),
      BBox(Coord(112.5, 28.125), Coord(118.125, 33.75)),
      BBox(Coord(112.5, 30.9375), Coord(118.125, 33.75)),
      BBox(Coord(115.3125, 30.9375), Coord(118.125, 33.75)),
      BBox(Coord(115.3125, 30.9375), Coord(118.125, 32.34375)),
      BBox(Coord(116.71875, 30.9375), Coord(118.125, 32.34375)));
    NextSymbol(c, 2, 10, false, true, true, false, true, 'e');
  }

  /** Every point of the cell of "ww" encodes to it: passes 5 to 9 emit 11100, the value 28 of 'w'. */
  lemma CellWw(c: Coord)
    requires InCell(BBox(Coord(112.5, 33.75), Coord(123.75, 39.375)), c)
    ensures EncodeRun(c, 10).box == BBox(Coord(112.5, 33.75), Coord(123.75, 39.375))
    ensures Encoded(c, 2) == "ww"
  {
    CellW(c);
    PassFive(c, 5, true, true, true, false, false,
      BBox(Coord(90.0, 0.0), Coord(135.0, 45.0)),
      BBox(Coord(90.0, 22.5), Coord(135.0, 45.0)),
      BBox(Coord(112.5, 22.5), Coord(135.0, 45.0)),
      BBox(Coord(112.5, 33.75), Coord(135.0, 45.0)),
      BBox(Coord(112.5, 33.75), Coord(123.75, 45.0)),
      BBox(Coord(112.5, 33.75), Coord(123.75, 39.375)));
    NextSymbol(c, 1, 5, true, true, true, false, false, 'w');
  }

  /** Every point of the cell of "ww8" encodes to it: passes 10 to 14 emit 01000, the value 8 of '8'. */
  lemma CellWw8(c: Coord)
    requires InCell(BBox(Coord(112.5, 36.5625), Coord(113.90625, 37.96875)), c)
    ensures EncodeRun(c, 15).box == BBox(Coord(112.5, 36.5625), Coord(113.90625, 37.96875))
    ensures Encoded(c, 3) == "ww8"
  {
    CellWw(c);
    PassFive(c, 10, false, true, false, false, false,
      BBox(Coord(112.5, 33.75), Coord(123.75, 39.375)),
      BBox(Coord(112.5, 33.75), Coord(118.125, 39.375)),
      BBox(Coord(112.5, 36.5625), Coord(118.125, 39.375)),
      BBox(Coord(112.5, 36.5625), Coord(115.3125, 39.375)),
      BBox(Coord(112.5, 36.5625), Coord(115.3125, 37.96875)),
      BBox(Coord(112.5, 36.5625), Coord(113.90625, 37.96875)));
    NextSymbol(c, 2, 10, false, true, false, false, false, '8');
  }

  /** Every point of the cell of "ww8p" encodes to it: passes 15 to 19 emit 10101, the value 21 of 'p'. */
  lemma CellWw8p(c: Coord)
    requires InCell(BBox(Coord(112.5, 37.79296875), Coord(112.8515625, 37.96875)), c)
    ensures EncodeRun(c, 20).box == BBox(Coord(112.5, 37.79296875), Coord(112.8515625, 37.96875))
    ensures Encoded(c, 4) == "ww8p"
  {
    CellWw8(c);
    PassFive(c, 15, true, false, true, false, true,
      BBox(Coord(112.5, 36.5625), Coord(113.90625, 37.96875)),
      BBox(Coord(112.5, 37.265625), Coord(113.90625, 37.96875)),
      BBox(Coord(112.5, 37.265625), Coord(113.203125, 37.96875)),
      BBox(Coord(112.5, 37.6171875), Coord(113.203125, 37.96875)),
      BBox(Coord(112.5, 37.6171875), Coord(112.8515625, 37.96875)),
      BBox(Coord(112.5, 37.79296875), Coord(112.8515625, 37.96875)));
    NextSymbol(c, 3, 15, true, false, true, false, true, 'p');
  }

  /** Every point of the cell of "ww8p1" encodes to it: passes 20 to 24 emit 00001, the value 1 of '1'. */
  lemma CellWw8p1(c: Coord)
    requires InCell(BBox(Coord(112.5439453125, 37.79296875), Coord(112.587890625, 37.8369140625)), c)
    ensures EncodeRun(c, 25).box == BBox(Coord(112.5439453125, 37.79296875), Coord(112.587890625, 37.8369140625))
    ensures Encoded(c, 5) == "ww8p1"
  {
    CellWw8p(c);
    PassFive(c, 20, false, false, false, false, true,
      BBox(Coord(112.5, 37.79296875), Coord(112.8515625, 37.96875)),
      BBox(Coord(112.5, 37.79296875), Coord(112.67578125, 37.96875)),
      BBox(Coord(112.5, 37.79296875), Coord(112.67578125, 37.880859375)),
      BBox(Coord(112.5, 37.79296875), Coord(112.587890625, 37.880859375)),
      BBox(Coord(112.5, 37.79296875), Coord(112.587890625, 37.8369140625)),
      BBox(Coord(112.5439453125, 37.79296875), Coord(112.587890625, 37.8369140625)));
    NextSymbol(c, 4, 20, false, false, false, false, true, '1');
  }

  /** Every point of the cell of "ww8p1r" encodes to it: passes 25 to 29 emit 10111, the value 23 of 'r'. */
  lemma CellWw8p1r(c: Coord)
    requires InCell(BBox(Coord(112.554931640625, 37.8314208984375), Coord(112.56591796875, 37.8369140625)), c)
    ensures EncodeRun(c, 30).box == BBox(Coord(112.554931640625, 37.8314208984375), Coord(112.56591796875, 37.8369140625))
    ensures Encoded(c, 6) == "ww8p1r"
  {
    CellWw8p1(c);
    PassFive(c, 25, true, false, true, true, true,
      BBox(Coord(112.5439453125, 37.79296875), Coord(112.587890625, 37.8369140625)),
      BBox(Coord(112.5439453125, 37.81494140625), Coord(112.587890625, 37.8369140625)),
      BBox(Coord(112.5439453125, 37.81494140625), Coord(112.56591796875, 37.8369140625)),
      BBox(Coord(112.5439453125, 37.825927734375), Coord(112.56591796875, 37.8369140625)),
      BBox(Coord(112.554931640625, 37.825927734375), Coord(112.56591796875, 37.8369140625)),
      BBox(Coord(112.554931640625, 37.8314208984375), Coord(112.56591796875, 37.8369140625)));
    NextSymbol(c, 5, 25, true, false, true, true, true, 'r');
  }

  /** Every point of the cell of "ww8p1r4" encodes to it: passes 30 to 34 emit 00100, the value 4 of '4'. */
  lemma CellWw8p1r4(c: Coord)
    requires InCell(BBox(Coord(112.55767822265625, 37.8314208984375), Coord(112.559051513671875, 37.832794189453125)), c)
    ensures EncodeRun(c, 35).box == BBox(Coord(112.55767822265625, 37.8314208984375), Coord(112.559051513671875, 37.832794189453125))
    ensures Encoded(c, 7) == "ww8p1r4"
  {
    CellWw8p1r(c);
    PassFive(c, 30, false, false, true, false, false,
      BBox(Coord(112.554931640625, 37.8314208984375), Coord(112.56591796875, 37.8369140625)),
      BBox(Coord(112.554931640625, 37.8314208984375), Coord(112.5604248046875, 37.8369140625)),
      BBox(Coord(112.554931640625, 37.8314208984375), Coord(112.5604248046875, 37.83416748046875)),
      BBox(Coord(112.55767822265625, 37.8314208984375), Coord(112.5604248046875, 37.83416748046875)),
      BBox(Coord(112.55767822265625, 37.8314208984375), Coord(112.5604248046875, 37.832794189453125)),
      BBox(Coord(112.55767822265625, 37.8314208984375), Coord(112.559051513671875, 37.832794189453125)));
    NextSymbol(c, 6, 30, false, false, true, false, false, '4');
  }

  /** Every point of the cell of "ww8p1r4t" encodes to it: passes 35 to 39 emit 11001, the value 25 of 't'. */
  lemma CellWw8p1r4t(c: Coord)
    requires InCell(BBox(Coord(112.5583648681640625, 37.832279205322265625), Coord(112.55870819091796875, 37.83245086669921875)), c)
    ensures EncodeRun(c, 40).box == BBox(Coord(112.5583648681640625, 37.832279205322265625), Coord(112.55870819091796875, 37.83245086669921875))
    ensures Encoded(c, 8) == "ww8p1r4t"
  {
    CellWw8p1r4(c);
    PassFive(c, 35, true, true, false, false, true,
      BBox(Coord(112.55767822265625, 37.8314208984375), Coord(112.559051513671875, 37.832794189453125)),
      BBox(Coord(112.55767822265625, 37.8321075439453125), Coord(112.559051513671875, 37.832794189453125)),
      BBox(Coord(112.5583648681640625, 37.8321075439453125), Coord(112.559051513671875, 37.832794189453125)),
      BBox(Coord(112.5583648681640625, 37.8321075439453125), Coord(112.559051513671875, 37.83245086669921875)),
      BBox(Coord(112.5583648681640625, 37.8321075439453125), Coord(112.55870819091796875, 37.83245086669921875)),
      BBox(Coord(112.5583648681640625, 37.832279205322265625), Coord(112.55870819091796875, 37.83245086669921875)));
    NextSymbol(c, 7, 35, true, true, false, false, true, 't');
  }

  /** Every point of the cell of "ww8p1r4t8" encodes to it: passes 40 to 44 emit 01000, the value 8 of '8'. */
  lemma CellWw8p1r4t8(c: Coord)
    requires InCell(BBox(Coord(112.5583648681640625, 37.8323650360107421875), Coord(112.55840778350830078125, 37.83240795135498046875)), c)
    ensures EncodeRun(c, 45).box == BBox(Coord(112.5583648681640625, 37.8323650360107421875), Coord(112.55840778350830078125, 37.83240795135498046875))
    ensures Encoded(c, 9) == "ww8p1r4t8"
  {
    CellWw8p1r4t(c);
    PassFive(c, 40, false, true, false, false, false,
      BBox(Coord(112.5583648681640625, 37.832279205322265625), Coord(112.55870819091796875, 37.83245086669921875)),
      BBox(Coord(112.5583648681640625, 37.832279205322265625), Coord(112.558536529541015625, 37.83245086669921875)),
      BBox(Coord(112.5583648681640625, 37.8323650360107421875), Coord(112.558536529541015625, 37.83245086669921875)),
      BBox(Coord(112.5583648681640625, 37.8323650360107421875), Coord(112.5584506988525390625, 37.83245086669921875)),
      BBox(Coord(112.5583648681640625, 37.8323650360107421875), Coord(112.5584506988525390625, 37.83240795135498046875)),
      BBox(Coord(112.5583648681640625, 37.8323650360107421875), Coord(112.55840778350830078125, 37.83240795135498046875)));
    NextSymbol(c, 8, 40, false, true, false, false, false, '8');
  }

  /** Every point of the cell of "ww8p1r4m" encodes to it: passes 35 to 39 emit 10011, the value 19 of 'm'. */
  lemma CellWw8p1r4m(c: Coord)
    requires InCell(BBox(Coord(112.55802154541015625, 37.832279205322265625), Coord(112.5583648681640625, 37.83245086669921875)), c)
    ensures EncodeRun(c, 40).box == BBox(Coord(112.55802154541015625, 37.832279205322265625), Coord(112.5583648681640625, 37.83245086669921875))
    ensures Encoded(c, 8) == "ww8p1r4m"
  {
    CellWw8p1r4(c);
    PassFive(c, 35, true, false, false, true, true,
      BBox(Coord(112.55767822265625, 37.8314208984375), Coord(112.559051513671875, 37.832794189453125)),
      BBox(Coord(112.55767822265625, 37.8321075439453125), Coord(112.559051513671875, 37.832794189453125)),
      BBox(Coord(112.55767822265625, 37.8321075439453125), Coord(112.5583648681640625, 37.832794189453125)),
      BBox(Coord(112.55767822265625, 37.8321075439453125), Coord(112.5583648681640625, 37.83245086669921875)),
      BBox(Coord(112.55802154541015625, 37.8321075439453125), Coord(112.5583648681640625, 37.83245086669921875)),
      BBox(Coord(112.55802154541015625, 37.832279205322265625), Coord(112.5583648681640625, 37.83245086669921875)));
    NextSymbol(c, 7, 35, true, false, false, true, true, 'm');
  }

  /** Every point of the cell of "ww8p1r4mr" encodes to it: passes 40 to 44 emit 10111, the value 23 of 'r'. */
  lemma CellWw8p1r4mr(c: Coord)
    requires InCell(BBox(Coord(112.55832195281982421875, 37.83232212066650390625), Coord(112.5583648681640625, 37.8323650360107421875)), c)
    ensures EncodeRun(c, 45).box == BBox(Coord(112.55832195281982421875, 37.83232212066650390625), Coord(112.5583648681640625, 37.8323650360107421875))
    ensures Encoded(c, 9) == "ww8p1r4mr"
  {
    CellWw8p1r4m(c);
    PassFive(c, 40, true, false, true, true, true,
      BBox(Coord(112.55802154541015625, 37.832279205322265625), Coord(112.5583648681640625, 37.83245086669921875)),
      BBox(Coord(112.558193206787109375, 37.832279205322265625), Coord(112.5583648681640625, 37.83245086669921875)),
      BBox(Coord(112.558193206787109375, 37.832279205322265625), Coord(112.5583648681640625, 37.8323650360107421875)),
      BBox(Coord(112.5582790374755859375, 37.832279205322265625), Coord(112.5583648681640625, 37.8323650360107421875)),
      BBox(Coord(112.5582790374755859375, 37.83232212066650390625), Coord(112.5583648681640625, 37.8323650360107421875)),
      BBox(Coord(112.55832195281982421875, 37.83232212066650390625), Coord(112.5583648681640625, 37.8323650360107421875)));
    NextSymbol(c, 8, 40, true, false, true, true, true, 'r');
  }

  /** Every point of the cell of "ww8p1r4t2" encodes to it: passes 40 to 44 emit 00010, the value 2 of '2'. */
  lemma CellWw8p1r4t2(c: Coord)
    requires InCell(BBox(Coord(112.5583648681640625, 37.83232212066650390625), Coord(112.55840778350830078125, 37.8323650360107421875)), c)
    ensures EncodeRun(c, 45).box == BBox(Coord(112.5583648681640625, 37.83232212066650390625), Coord(112.55840778350830078125, 37.8323650360107421875))
    ensures Encoded(c, 9) == "ww8p1r4t2"
  {
    CellWw8p1r4t(c);
    PassFive(c, 40, false, false, false, true, false,
      BBox(Coord(112.5583648681640625, 37.832279205322265625), Coord(112.55870819091796875, 37.83245086669921875)),
      BBox(Coord(112.5583648681640625, 37.832279205322265625), Coord(112.558536529541015625, 37.83245086669921875)),
      BBox(Coord(112.5583648681640625, 37.832279205322265625), Coord(112.558536529541015625, 37.8323650360107421875)),
      BBox(Coord(112.5583648681640625, 37.832279205322265625), Coord(112.5584506988525390625, 37.8323650360107421875)),
      BBox(Coord(112.5583648681640625, 37.83232212066650390625), Coord(112.5584506988525390625, 37.8323650360107421875)),
      BBox(Coord(112.5583648681640625, 37.83232212066650390625), Coord(112.55840778350830078125, 37.8323650360107421875)));
    NextSymbol(c, 8, 40, false, false, false, true, false, '2');
  }

  /** Every point of the cell of "ww8p1r4t3" encodes to it: passes 40 to 44 emit 00011, the value 3 of '3'. */
  lemma CellWw8p1r4t3(c: Coord)
    requires InCell(BBox(Coord(112.55840778350830078125, 37.83232212066650390625), Coord(112.5584506988525390625, 37.8323650360107421875)), c)
    ensures EncodeRun(c, 45).box == BBox(Coord(112.55840778350830078125, 37.83232212066650390625), Coord(112.5584506988525390625, 37.8323650360107421875))
    ensures Encoded(c, 9) == "ww8p1r4t3"
  {
    CellWw8p1r4t(c);
    PassFive(c, 40, false, false, false, true, true,
      BBox(Coord(112.5583648681640625, 37.832279205322265625), Coord(112.55870819091796875, 37.83245086669921875)),
      BBox(Coord(112.5583648681640625, 37.832279205322265625), Coord(112.558536529541015625, 37.83245086669921875)),
      BBox(Coord(112.5583648681640625, 37.832279205322265625), Coord(112.558536529541015625, 37.8323650360107421875)),
      BBox(Coord(112.5583648681640625, 37.832279205322265625), Coord(112.5584506988525390625, 37.8323650360107421875)),
      BBox(Coord(112.5583648681640625, 37.83232212066650390625), Coord(112.5584506988525390625, 37.8323650360107421875)),
      BBox(Coord(112.55840778350830078125, 37.83232212066650390625), Coord(112.5584506988525390625, 37.8323650360107421875)));
    NextSymbol(c, 8, 40, false, false, false, true, true, '3');
  }

  /** Every point of the cell of "ww8p1r4mx" encodes to it: passes 40 to 44 emit 11101, the value 29 of 'x'. */
  lemma CellWw8p1r4mx(c: Coord)
    requires InCell(BBox(Coord(112.55832195281982421875, 37.8323650360107421875), Coord(112.5583648681640625, 37.83240795135498046875)), c)
    ensures EncodeRun(c, 45).box == BBox(Coord(112.55832195281982421875, 37.8323650360107421875), Coord(112.5583648681640625, 37.83240795135498046875))
    ensures Encoded(c, 9) == "ww8p1r4mx"
  {
    CellWw8p1r4m(c);
    PassFive(c, 40, true, true, true, false, true,
      BBox(Coord(112.55802154541015625, 37.832279205322265625), Coord(112.5583648681640625, 37.83245086669921875)),
      BBox(Coord(112.558193206787109375, 37.832279205322265625), Coord(112.5583648681640625, 37.83245086669921875)),
      BBox(Coord(112.558193206787109375, 37.8323650360107421875), Coord(112.5583648681640625, 37.83245086669921875)),
      BBox(Coord(112.5582790374755859375, 37.8323650360107421875), Coord(112.5583648681640625, 37.83245086669921875)),
      BBox(Coord(112.5582790374755859375, 37.8323650360107421875), Coord(112.5583648681640625, 37.83240795135498046875)),
      BBox(Coord(112.55832195281982421875, 37.8323650360107421875), Coord(112.5583648681640625, 37.83240795135498046875)));
    NextSymbol(c, 8, 40, true, true, true, false, true, 'x');
  }

  /** Every point of the cell of "ww8p1r4t9" encodes to it: passes 40 to 44 emit 01001, the value 9 of '9'. */
  lemma CellWw8p1r4t9(c: Coord)
    requires InCell(BBox(Coord(112.55840778350830078125, 37.8323650360107421875), Coord(112.5584506988525390625, 37.83240795135498046875)), c)
    ensures EncodeRun(c, 45).box == BBox(Coord(112.55840778350830078125, 37.8323650360107421875), Coord(112.5584506988525390625, 37.83240795135498046875))
    ensures Encoded(c, 9) == "ww8p1r4t9"
  {
    CellWw8p1r4t(c);
    PassFive(c, 40, false, true, false, false, true,
      BBox(Coord(112.5583648681640625, 37.832279205322265625), Coord(112.55870819091796875, 37.83245086669921875)),
      BBox(Coord(112.5583648681640625, 37.832279205322265625), Coord(112.558536529541015625, 37.83245086669921875)),
      BBox(Coord(112.5583648681640625, 37.8323650360107421875), Coord(112.558536529541015625, 37.83245086669921875)),
      BBox(Coord(112.5583648681640625, 37.8323650360107421875), Coord(112.5584506988525390625, 37.83245086669921875)),
      BBox(Coord(112.5583648681640625, 37.8323650360107421875), Coord(112.5584506988525390625, 37.83240795135498046875)),
      BBox(Coord(112.55840778350830078125, 37.8323650360107421875), Coord(112.5584506988525390625, 37.83240795135498046875)));
    NextSymbol(c, 8, 40, false, true, false, false, true, '9');
  }

  /** Every point of the cell of "ww8p1r4mz" encodes to it: passes 40 to 44 emit 11111, the value 31 of 'z'. */
  lemma CellWw8p1r4mz(c: Coord)
    requires InCell(BBox(Coord(112.55832195281982421875, 37.83240795135498046875), Coord(112.5583648681640625, 37.83245086669921875)), c)
    ensures EncodeRun(c, 45).box == BBox(Coord(112.55832195281982421875, 37.83240795135498046875), Coord(112.5583648681640625, 37.83245086669921875))
    ensures Encoded(c, 9) == "ww8p1r4mz"
  {
    CellWw8p1r4m(c);
    PassFive(c, 40, true, true, true, true, true,
      BBox(Coord(112.55802154541015625, 37.832279205322265625), Coord(112.5583648681640625, 37.83245086669921875)),
      BBox(Coord(112.558193206787109375, 37.832279205322265625), Coord(112.5583648681640625, 37.83245086669921875)),
      BBox(Coord(112.558193206787109375, 37.8323650360107421875), Coord(112.5583648681640625, 37.83245086669921875)),
      BBox(Coord(112.5582790374755859375, 37.8323650360107421875), Coord(112.5583648681640625, 37.83245086669921875)),
      BBox(Coord(112.5582790374755859375, 37.83240795135498046875), Coord(112.5583648681640625, 37.83245086669921875)),
      BBox(Coord(112.55832195281982421875, 37.83240795135498046875), Coord(112.5583648681640625, 37.83245086669921875)));
    NextSymbol(c, 8, 40, true, true, true, true, true, 'z');
  }

  /** Every point of the cell of "ww8p1r4tb" encodes to it: passes 40 to 44 emit 01010, the value 10 of 'b'. */
  lemma CellWw8p1r4tb(c: Coord)
    requires InCell(BBox(Coord(112.5583648681640625, 37.83240795135498046875), Coord(112.55840778350830078125, 37.83245086669921875)), c)
    ensures EncodeRun(c, 45).box == BBox(Coord(112.5583648681640625, 37.83240795135498046875), Coord(112.55840778350830078125, 37.83245086669921875))
    ensures Encoded(c, 9) == "ww8p1r4tb"
  {
    CellWw8p1r4t(c);
    PassFive(c, 40, false, true, false, true, false,
      BBox(Coord(112.5583648681640625, 37.832279205322265625), Coord(112.55870819091796875, 37.83245086669921875)),
      BBox(Coord(112.5583648681640625, 37.832279205322265625), Coord(112.558536529541015625, 37.83245086669921875)),
      BBox(Coord(112.5583648681640625, 37.8323650360107421875), Coord(112.558536529541015625, 37.83245086669921875)),
      BBox(Coord(112.5583648681640625, 37.8323650360107421875), Coord(112.5584506988525390625, 37.83245086669921875)),
      BBox(Coord(112.5583648681640625, 37.83240795135498046875), Coord(112.5584506988525390625, 37.83245086669921875)),
      BBox(Coord(112.5583648681640625, 37.83240795135498046875), Coord(112.55840778350830078125, 37.83245086669921875)));
    NextSymbol(c, 8, 40, false, true, false, true, false, 'b');
  }

  /** Every point of the cell of "ww8p1r4tc" encodes to it: passes 40 to 44 emit 01011, the value 11 of 'c'. */
  lemma CellWw8p1r4tc(c: Coord)
    requires InCell(BBox(Coord(112.55840778350830078125, 37.83240795135498046875), Coord(112.5584506988525390625, 37.83245086669921875)), c)
    ensures EncodeRun(c, 45).box == BBox(Coord(112.55840778350830078125, 37.83240795135498046875), Coord(112.5584506988525390625, 37.83245086669921875))
    ensures Encoded(c, 9) == "ww8p1r4tc"
  {
    CellWw8p1r4t(c);
    PassFive(c, 40, false, true, false, true, true,
      BBox(Coord(112.5583648681640625, 37.832279205322265625), Coord(112.55870819091796875, 37.83245086669921875)),
      BBox(Coord(112.5583648681640625, 37.832279205322265625), Coord(112.558536529541015625, 37.83245086669921875)),
      BBox(Coord(112.5583648681640625, 37.8323650360107421875), Coord(112.558536529541015625, 37.83245086669921875)),
      BBox(Coord(112.5583648681640625, 37.8323650360107421875), Coord(112.5584506988525390625, 37.83245086669921875)),
      BBox(Coord(112.5583648681640625, 37.83240795135498046875), Coord(112.5584506988525390625, 37.83245086669921875)),
      BBox(Coord(112.55840778350830078125, 37.83240795135498046875), Coord(112.5584506988525390625, 37.83245086669921875)));
    NextSymbol(c, 8, 40, false, true, false, true, true, 'c');
  }
}
