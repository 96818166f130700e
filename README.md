# Geohash codec and neighbours, modelled in Dafny

This project models the core of the Rust `geohash` crate (`src/lib.rs`):

- **`encode`** turns a coordinate into a geohash of a given length. It bisects the longitude range [-180, 180] and the latitude range [-90, 90] one bit at a time, alternating axes and starting with longitude. A bit is 1 when the coordinate lies strictly above the midpoint. Every five bits are packed into one symbol of the base-32 alphabet `BASE32_CODES`.
- **`decode_bbox`** replays the same bisection from each symbol's five bits, most significant first, and returns the cell's bounding box.
- **`decode`** returns the box's centre and its half-extents.
- **`neighbor`** and **`neighbors`** step from the centre of a cell in one of the eight compass `Direction`s and re-encode the point at the same length.

The modules are:

- `Alphabet` (`alphabet.dfy`): the symbol table and its lookup.
- `Bits` (`bits.dfy`): fixed-width bit strings, shifts and the accumulator.
- `Codec` (`codec.dfy`): the bisection specification, then `encode` and `decode_bbox` as methods with the source's loops, proved equal to that specification, and `decode` as a function.
- `CodecFacts` (`codec_facts.dfy`): the round trips and location properties of the codec.
- `Grid` (`grid.dfy`): directions, `neighbor` and `neighbors`.
- `DocExamples` (`doc_examples.dfy`): the half-extents shown in `decode`'s documentation.
- `Cells` (`cells.dfy`): the encoder followed one symbol (five passes) at a time through exactly written boxes, for the cells of the geohashes the examples and tests name.
- `TestVectors` (`test_vectors.dfy`): the documented examples of `encode`, `decode` and `neighbors`, and the unit tests `test_encode`, `test_decode` and `test_neighbor`.

Coordinates are exact `real`s. Every midpoint the bisection computes is a dyadic rational. It is exactly representable in `f64` only for the first 48 halvings of each axis. So the reals agree with the source's `f64` arithmetic for geohashes of up to 19 symbols (95 bits), and `decode`'s centre, one halving finer, for up to 18. From the 20th symbol on (bit 96 for longitude, bit 97 for latitude) the `f64` midpoint `mid` at src/lib.rs:94, 103, 152 and 160 can be rounded, and the model no longer describes the source exactly. A character outside the alphabet makes the source's lookup `unwrap` panic. The model turns that panic into `Err(InvalidSymbol(i))`, where `i` is the index of the first such character. `decode`, `neighbor` and `neighbors` propagate that error.

The specification of the encoder is the run of the bisection:

- `EncodeRun(c, n)` is the encoder's state after `n` passes.
- `EncodeBits(c, n)` is the list of bits emitted in those passes.
- `Encoded(c, len)` is those bits packed five at a time.

The specification of the decoder is `BBoxOf(h)`: the box that `HashBits(h)`, the symbols' bits, narrow the world to.

## Model

| member | source | states |
|---|---|---|
| Alphabet.IsSymbolInCodes | src/lib.rs:7-9 | A character satisfies the range test `IsSymbol` exactly when it occurs in `BASE32_CODES`. |
| Alphabet.SymbolIsTableEntry | src/lib.rs:7-9 | For every value below 32, `SymbolFor` gives the table entry `BASE32_CODES[v]` that `encode` pushes. |
| Alphabet.CodesIncreasing | src/lib.rs:7-9 | The table is strictly increasing. |
| Alphabet.CodesDistinct | src/lib.rs:7-9 | No symbol occurs twice in the table, so the lookup is unambiguous. |
| Alphabet.PositionFrom | src/lib.rs:147 | The `.iter().position` search returns the first index at or after `i` whose entry is `c`, with no earlier match. It returns None exactly when no later entry is `c`. |
| Alphabet.Position | src/lib.rs:147 | The lookup yields a value exactly for alphabet symbols. That value is below 32 and its table entry is the character. |
| Alphabet.PositionIsSearch | src/lib.rs:147 | `Position` equals the table search from index 0 for every character. |
| Alphabet.PositionOfSymbol | src/lib.rs:7-9 | Looking up the symbol of a value below 32 gives the value back. |
| Bits.FromBitsSnoc | src/lib.rs:96-108 | Appending a bit to the accumulator's bits is `(v << 1) + bit`. |
| Bits.ToBitsShr | src/lib.rs:150 | Bit `j` of the five-bit string of `v` is `(v >> (4 - j)) & 1`, the bit `decode_bbox` extracts. |
| Bits.FromToBits | src/lib.rs:150 | Reading back the `w` bits of a value below `2^w` gives the value. |
| Bits.ToFromBits | src/lib.rs:96-117 | The `w` bits of the value of a `w`-bit string are that string. |
| Codec.Encode | src/lib.rs:80-124 | The `while` loop returns exactly `Encoded(c, len)`: the first `5 * len` bits of the bisection, packed five at a time. |
| Codec.Refine | src/lib.rs:93-111 | One bisection step moves the box from `EncodeRun(c, n)` to `EncodeRun(c, n + 1)`. It shifts the emitted bit `EncodeBit(c, n)` into `hash_value`. |
| Codec.EncodeStep | src/lib.rs:113-121 | The accumulator holds the value of the current group's bits. After the fifth bit that value is below 32, and pushing its symbol extends `Encoded(c, m)` to `Encoded(c, m + 1)`. |
| Codec.EncodedSnoc | src/lib.rs:116-121 | The geohash one symbol longer is the shorter one plus the symbol of the next five bits. |
| Codec.EncodeBitsPrefix | src/lib.rs:92-122 | The bits emitted for fewer passes are a prefix of those emitted for more. |
| Codec.Pack | src/lib.rs:116-121 | Packing `m` groups of five bits gives `m` alphabet symbols. |
| Codec.DecodeBBox | src/lib.rs:137-180 | The nested loops return exactly `BBoxOf(h)`. That is the box of the symbols' bits, or the index of the first character outside the alphabet (the panicking `unwrap`). |
| Codec.DecodeSymbol | src/lib.rs:149-169 | The inner `for bs in 0..5` loop narrows the box by the symbol's five bits, most significant first, toggling the axis after each bit. Overall it flips `is_lon`. |
| Codec.Halve | src/lib.rs:151-167 | A 1 bit moves the minimum up to the midpoint and a 0 bit moves the maximum down to it. |
| Codec.BBoxOf | src/lib.rs:137-180 | `decode_bbox` succeeds exactly when every character is a symbol. |
| Codec.FirstInvalid | src/lib.rs:146-147 | The failing index is that of the first character outside the alphabet: everything before it is valid. |
| Codec.FirstInvalidAt | src/lib.rs:146-147 | A non-symbol after a valid prefix is where the lookup fails. |
| Codec.DecodeFromStart | src/lib.rs:146-170 | Running the outer loop over every symbol from the world box, longitude first, gives `BBoxOf(h)`. |
| Codec.DecodeFromBBoxOf | src/lib.rs:146-170 | Resuming the outer loop at a valid prefix, with that prefix's box and axis, gives `BBoxOf(h)`. |
| Codec.DecodeSymbolStep | src/lib.rs:149-169 | The five bits of one more symbol narrow the prefix's box to the box of the longer prefix. The first of those bits is on the axis given by the parity of `5 * i`. |
| Codec.NarrowSymbolBits | src/lib.rs:149-169 | Narrowing by the remaining bits of a symbol equals narrowing by the appended bit string. |
| Codec.HashBitsSnoc | src/lib.rs:146-150 | A symbol appended to a valid prefix appends its five bits. |
| Codec.BoxOfShape | src/lib.rs:137-180 | After `n` bits the box lies inside the world. Its longitude range is 360 halved `ceil(n/2)` times and its latitude range is 180 halved `floor(n/2)` times, so both are positive. |
| Codec.NarrowShaped | src/lib.rs:151-167 | One halving step adds one halving to the axis it refines. |
| Codec.Decode | src/lib.rs:226-234 | `decode` succeeds exactly for valid geohashes and otherwise propagates the error. Both half-extents are positive, latitude first. The box is exactly the centre minus and plus the half-extents. |
| CodecFacts.EncodeRunBox | src/lib.rs:92-111 | The encoder's box after `n` passes is the box that `decode_bbox`'s bisection gives for the same bits. |
| CodecFacts.EncodeRunContains | src/lib.rs:92-111 | A point in the world stays in the encoder's box. Off the world's minimum edges, it also stays strictly above the box's minimum edges. |
| CodecFacts.EncodeContains | src/lib.rs:80-124 | The cell of the emitted bits holds the point. |
| CodecFacts.EncodeBitsOfCell | src/lib.rs:80-124 | Every point of a cell (open at its minimum edges) encodes to that cell's bits. |
| CodecFacts.EncodeBitsIff | src/lib.rs:80-124 | Off the world's minimum edges, a point encodes to a bit string if and only if it lies in that bit string's cell. |
| CodecFacts.CenterInCell | src/lib.rs:226-234 | The centre `decode` returns lies in its cell. |
| CodecFacts.HashBitsOfPack | src/lib.rs:116-117 | Unpacking symbols packed from bits gives the bits back. |
| CodecFacts.UnpackLast | src/lib.rs:116-117 | Packing five more bits appends the symbol whose bits they are. |
| CodecFacts.PackOfHashBits | src/lib.rs:146-150 | Packing a geohash's bits gives the geohash back. |
| CodecFacts.HashBitsAppend | src/lib.rs:146-150 | Appending a symbol appends its five bits. |
| CodecFacts.GeohashPrefix | src/lib.rs:146-147 | A prefix of a valid geohash is valid. |
| CodecFacts.HashBitsOfEncoded | src/lib.rs:80-124 | The bits of an encoded geohash are the encoder's `5 * len` bits. |
| CodecFacts.HashBitsInjective | src/lib.rs:137-180 | Two valid geohashes with the same bits are equal. |
| CodecFacts.EncodedPrefix | src/lib.rs:80-124 | Encoding at a shorter length gives a prefix of the longer geohash. |
| CodecFacts.DecodeEncoded | src/lib.rs:137-180 | `decode_bbox(encode(c, len))` is the encoder's final box, which holds `c`. |
| CodecFacts.DecodeErrorBound | src/lib.rs:226-234 | For a point in the world, `decode(encode(c, len))` lies within its reported half-extents of `c` on each axis. |
| CodecFacts.EncodeDecoded | src/lib.rs:226-234 | Encoding the decoded centre at the geohash's length gives the geohash back. |
| CodecFacts.DecodeErrors | src/lib.rs:226-234 | The half-extents depend only on the length. The latitude one is 180 halved `floor(5n/2)` times, then halved again. The longitude one is 360 halved `ceil(5n/2)` times, then halved again. |
| CodecFacts.DecodeErrorsPow2 | src/lib.rs:226-234 | The same half-extents in closed form: latitude `180 / 2^(floor(5n/2) + 1)` and longitude `360 / 2^(ceil(5n/2) + 1)`. |
| CodecFacts.BoxOfNested | src/lib.rs:146-170 | Every further bit can only shrink the box: the box of a longer bit string lies within the box of its prefix. |
| CodecFacts.HashBitsConcat | src/lib.rs:146-150 | The bits of two concatenated geohashes are the bits of the first followed by the bits of the second. |
| CodecFacts.GeohashNested | src/lib.rs:137-180 | Every prefix of a valid geohash is valid, and the longer geohash's cell lies within the prefix's cell. |
| CodecFacts.SameColumnRun | src/lib.rs:92-111 | Two points at the same latitude whose longitudes lie in the same column of a cell make identical encoder runs over that cell's bits. |
| CodecFacts.SameColumnEncoded | src/lib.rs:80-124 | Two points at the same latitude whose longitudes lie in the same column of a geohash's cell encode to the same geohash at that length. |
| DocExamples.ErrorsFive | src/lib.rs:186-204 | Every geohash of length 5 decodes with half-extents 0.02197265625 and 0.02197265625, the documented values. |
| DocExamples.ErrorsTen | src/lib.rs:206-224 | Every geohash of length 10 decodes with latitude half-extent 0.000002682209014892578125 and longitude half-extent 0.00000536441802978515625. The documentation shows these values, in this order. |
| Grid.ToTuple | src/lib.rs:42-55 | Each direction is a (northward, eastward) step of -1, 0 or 1, never (0, 0). The north, south, east and west components are exactly those of the directions named for them. |
| Grid.ToTupleInjective | src/lib.rs:42-55 | Different directions have different steps. |
| Grid.ToTupleOnto | src/lib.rs:42-55 | Every non-zero step of at most one on each axis is some direction's step. |
| Grid.Times | src/lib.rs:242-243 | Multiplying by the direction's component (`dlng as f64`, `dlat as f64`) is the real product. |
| Grid.Neighbor | src/lib.rs:236-248 | `neighbor` succeeds exactly for valid geohashes and propagates the error. Its result has the same length and is valid. |
| Grid.NeighborStep | src/lib.rs:236-248 | `neighbor` re-encodes the centre moved east by the cell's latitude extent and north by its longitude extent. The two half-extents of `decode` are used crosswise. |
| Grid.NeighborsOf | src/lib.rs:273-284 | `neighbors` succeeds exactly for valid geohashes. Each field is `neighbor` in its own direction. |
| Grid.CellExtents | src/lib.rs:226-234 | A cell of odd length is as wide as it is high. A cell of even length is twice as wide. |
| Grid.SameExtents | src/lib.rs:226-234 | Cells of the same length have the same extents. |
| Grid.OddNeighbor | src/lib.rs:236-248 | At odd lengths `neighbor` agrees with the intended neighbour in every direction. |
| Grid.EvenNorthEastIsNorth | src/lib.rs:236-248 | At even lengths the north-east neighbour equals the north neighbour and the south-east neighbour equals the south one. The example at lines 255-271 records these equalities. |
| Grid.EvenEastIsSelf | src/lib.rs:236-248 | At even lengths the east neighbour of every geohash is the geohash itself. |
| Grid.IntendedNeighbor | src/lib.rs:236-248 | The corrected `neighbor` moves by one full cell width and height. It succeeds exactly for valid geohashes, propagates the error, and keeps the length. |
| Grid.IntendedNeighborAdjacent | src/lib.rs:236-248 | The intended neighbour has the extents of the original cell. It holds the centre of the adjacent cell whenever that centre is in the world. |
| Grid.IntendedEastMoves | src/lib.rs:236-248 | Unless the step leaves the world, the intended east neighbour is a different cell. |
| CodecFacts.BoxOfGrid | src/lib.rs:146-170 | The cell of any bit string lies on the grid of its length: its south-western corner is a whole number of cell widths and heights from (-180, -90). |
| CodecFacts.GridCentre | src/lib.rs:92-111 | A point of the world at the centre of a grid cell is the centre of the box the encoder narrows it to at that depth. |
| Grid.VerticalNeighbor | src/lib.rs:236-248 | Inside the world, the north or south step lands exactly on the centre of the neighbour's cell: it is a whole number of rows, one at odd lengths and two at even lengths. |
| Grid.StepBack | src/lib.rs:236-248 | A cell of the same length centred where the north (south) step lands steps back onto the original geohash going south (north). |
| Grid.NorthThenSouth | src/lib.rs:236-248 | Away from the poles, the south neighbour of the north neighbour is the geohash itself. |
| Grid.SouthThenNorth | src/lib.rs:236-248 | Away from the poles, the north neighbour of the south neighbour is the geohash itself. |
| Cells.PassFive | src/lib.rs:92-111 | From a known box, five passes whose comparisons and halvings are given emit those five bits and end in the last box. |
| Cells.NextSymbol | src/lib.rs:113-121 | Five known bits from a symbol boundary append the symbol of their value to the geohash. |
| Cells.Cell9q60y60rhs | src/lib.rs:80-124 | Every point of the cell of `"9q60y60rhs"` (open at its minimum edges) encodes to it, and the encoder's box after 50 passes is that cell. Each `Cell…` lemma of the module states the same for its own geohash, one symbol longer than the one it builds on. |
| TestVectors.EncodeWte | src/lib.rs:299-303 | `encode` of (117, 32) at length 3 is `"wte"`. |
| TestVectors.EncodeWw8p1r4t8 | src/lib.rs:292-298 | `encode` of (112.5584, 37.8324) at length 9 is `"ww8p1r4t8"`. |
| TestVectors.DecodeWw8p1r4t8 | src/lib.rs:306-311 | `decode` of `"ww8p1r4t8"` has centre (112.558386325836181640625, 37.832386493682861328125), within 1e-4 of (112.5584, 37.8324) on each axis, so both `abs_sub` tests hold. |
| TestVectors.Encode9q60y | src/lib.rs:62-68 | `encode` of (-120.6623, 35.3003) at length 5 is `"9q60y"`. |
| TestVectors.Decode9q60y | src/lib.rs:189-204 | `decode` of `"9q60y"` is the centre (-120.65185546875, 35.31005859375) with both errors 0.02197265625. |
| TestVectors.Encode9q60y60rhs | src/lib.rs:70-78 | `encode` of (-120.6623, 35.3003) at length 10 is `"9q60y60rhs"`. |
| TestVectors.Decode9q60y60rhs | src/lib.rs:206-224 | `decode` of `"9q60y60rhs"` is the exact centre whose shortest `f64` printouts are the documented (-120.66229999065399, 35.300298035144806), with the documented errors. |
| TestVectors.NeighborAt | src/lib.rs:236-248 | The neighbour is the geohash of the point the step from the cell's centre lands on. |
| TestVectors.Neighbors9q60y60rhs | src/lib.rs:255-271 | `neighbors` of `"9q60y60rhs"` is exactly the documented set: `sw` `rh6`, `s` and `se` `rhd`, `w` `rhk`, `e` the input, `nw` `rhq`, `n` and `ne` `rhw`. Each direction has its own lemma, `Neighbor9q60y60rhs<Dir>`. |
| TestVectors.NeighborsWw8p1r4t8 | src/lib.rs:314-325 | `neighbors` of `"ww8p1r4t8"` is exactly the set the unit test expects. Each direction has its own lemma, `NeighborWw8p1r4t8<Dir>`. |

## Findings

| source | as written | input that shows it | evidently intended | confidence | as-written member | corrected member |
|---|---|---|---|---|---|---|
| src/lib.rs:236-248 | `neighbor` moves `x` by `2 * b.1` and `y` by `2 * b.2`. But `decode` (src/lib.rs:226-234) returns the latitude half-extent as `b.1` and the longitude one as `b.2`, although its doc comment at lines 182-183 says longitude first. | Any geohash of even length in direction `E`, e.g. `"9q60y60rhs"`. The cell is twice as wide as high, so the step reaches only the cell's own eastern edge. The result is the input, as the example at lines 259-271 records (`e: "9q60y60rhs"`). | Move `x` by the longitude extent and `y` by the latitude extent (`b.2` and `b.1` swapped) | high; not executed | Grid.EvenEastIsSelf | Grid.IntendedEastMoves |

`Grid.NeighborsOf` models `neighbors` over the as-written `Grid.Neighbor`, since that is what the source computes. `Grid.OddNeighbor` shows the two definitions agree at odd lengths. The unit test `test_neighbor` (src/lib.rs:314-325) uses length 9, so it does not expose the swap. The example for `neighbors` (src/lib.rs:255-271) uses length 10 and records its effects: `e` equals the input (`Grid.EvenEastIsSelf`), `ne` equals `n` and `se` equals `s` (`Grid.EvenNorthEastIsNorth`). The north and south steps are the longitude extent, twice the latitude extent at even length, so the N, NE, NW, S, SE and SW neighbours lie two rows away: the example's `n: "9q60y60rhw"` is two rows above the input, where the adjacent cell to the north is `"9q60y60rht"` (`Grid.VerticalNeighbor`, `TestVectors.Neighbors9q60y60rhs`).

## Left out

- Floating point: coordinates are exact reals and rounding in `f64` is not modelled. The two agree on every midpoint only for geohashes of up to 19 symbols (48 halvings per axis). From the 20th symbol on, the `f64` midpoints at src/lib.rs:94, 103, 152 and 160 can be rounded, and `decode`'s centre already can at 19 symbols. There the model describes exact bisection, not the source's rounded one. The doc examples' `f64` printouts are the binary64 roundings of the exact values in `DocExamples`.
- Codec.Encode: does not model the `i8` counters `bits` and `bits_total`. `bits_total` overflows once more than 127 bits are emitted (`len >= 26`): a debug build panics there, and a release build wraps, which keeps the parity. Here the counters are unbounded naturals.
- `hash_value` as `usize`: it never exceeds 31, so its width does not matter.
- Codec.DecodeBBox: the source's panic on a character outside the alphabet is modelled as the error result `InvalidSymbol(i)`, not as an abort.
- `str::len` counts bytes, while the model counts characters. For any geohash that decodes, the two agree.
- `Alphabet.SymbolFor` and `Alphabet.Position` compute the table lookups by character ranges. `SymbolIsTableEntry` and `PositionIsSearch` prove them equal to indexing `BASE32_CODES` and to its linear search.
- Codec.Refine, Codec.DecodeSymbol and Codec.Halve are the loop bodies of `encode` and `decode_bbox`, factored into methods with the same branches.
- The `geo_types::Coordinate` type and `num_traits` (used only by the tests) are not part of this model. `Coord` stands in for the coordinate.
- Points outside [-180, 180] x [-90, 90]: `encode` accepts them and the model computes the same bits. The location properties are stated for points in the world only.
- No wrap-around at the antimeridian or the poles: a neighbour step leaving the world is re-encoded as the source does, and nothing is claimed about where it lands.
- Decode: follows the code, not the doc comment. The half-extents come in the order latitude, then longitude.
