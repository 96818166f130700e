/** Natural numbers as fixed-width bit strings, most significant bit first.
    `FromBits` is the accumulator `v = (v << 1) + bit`; `Shr` is `>>`. */
module Bits {

  function Pow2(k: nat): (r: nat)
    ensures r >= 1
  {
    if k == 0 then 1 else 2 * Pow2(k - 1)
  }

  /** Right shift by `k` places. */
  function Shr(v: nat, k: nat): nat {
    if k == 0 then v else Shr(v / 2, k - 1)
  }

  /** The low `w` bits of `v`, most significant first. */
  function ToBits(v: nat, w: nat): (r: seq<bool>)
    ensures |r| == w
  {
    if w == 0 then [] else ToBits(v / 2, w - 1) + [v % 2 == 1]
  }

  /** The value of a bit string read most significant first, as built by
      shifting left and adding each bit in turn. */
  function FromBits(bs: seq<bool>): (r: nat)
    ensures r < Pow2(|bs|)
  {
    if bs == [] then 0
    else 2 * FromBits(bs[..|bs| - 1]) + (if bs[|bs| - 1] then 1 else 0)
  }

  /** Appending a bit shifts the value left and adds the bit. */
  lemma FromBitsSnoc(bs: seq<bool>, b: bool)
    ensures FromBits(bs + [b]) == 2 * FromBits(bs) + (if b then 1 else 0)
  {
    assert (bs + [b])[..|bs|] == bs;
  }

  /** The value of a suffix that gains one bit at its end. */
  lemma SliceSnocValue(bs: seq<bool>, b: bool, i: nat)
    requires i <= |bs|
    ensures FromBits((bs + [b])[i..]) == 2 * FromBits(bs[i..]) + (if b then 1 else 0)
  {
    assert (bs + [b])[i..] == bs[i..] + [b];
    FromBitsSnoc(bs[i..], b);
  }

  lemma Pow2Five()
    ensures Pow2(5) == 32
  {
  }

  lemma {:induction false} FromToBits(v: nat, w: nat)
    requires v < Pow2(w)
    ensures FromBits(ToBits(v, w)) == v
  {
    if w > 0 {
      FromToBits(v / 2, w - 1);
      var r := ToBits(v, w);
      assert r[..w - 1] == ToBits(v / 2, w - 1);
    }
  }

  lemma {:induction false} ToFromBits(bs: seq<bool>)
    ensures ToBits(FromBits(bs), |bs|) == bs
  {
    if bs != [] {
      var n := |bs| - 1;
      ToFromBits(bs[..n]);
      var v := FromBits(bs);
      assert v / 2 == FromBits(bs[..n]);
      assert bs == bs[..n] + [bs[n]];
    }
  }

  /** Bit `j` of `ToBits(v, w)` is `(v >> (w - 1 - j)) & 1`. */
  lemma {:induction false} ToBitsShr(v: nat, w: nat, j: nat)
    requires j < w
    ensures ToBits(v, w)[j] == (Shr(v, w - 1 - j) % 2 == 1)
  {
    if j < w - 1 {
      ToBitsShr(v / 2, w - 1, j);
    }
  }
}
