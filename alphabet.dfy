/** The geohash base-32 alphabet: the table that maps a 5-bit value to its
    symbol, and the reverse lookup from a symbol to its value. */
module Alphabet {

  datatype Option<+T> = None | Some(value: T)

  /** The 32 symbols in value order: the ten digits, then the lower-case
      letters without 'a', 'i', 'l' and 'o'. */
  const Base32Codes: seq<char> :=
    ['0', '1', '2', '3', '4', '5', '6', '7', '8', '9', 'b',
     'c', 'd', 'e', 'f', 'g', 'h', 'j', 'k', 'm', 'n', 'p',
     'q', 'r', 's', 't', 'u', 'v', 'w', 'x', 'y', 'z']

  /** Membership in the table, stated by character ranges: the digits, and
      'b' to 'z' without 'i', 'l' and 'o'. */
  predicate IsSymbol(c: char) {
    ('0' <= c <= '9') || ('b' <= c <= 'z' && c != 'i' && c != 'l' && c != 'o')
  }

  lemma IsSymbolInCodes(c: char)
    ensures IsSymbol(c) <==> c in Base32Codes
  {
  }

  /** The table entry at `v`, computed from the runs of consecutive
      characters the table is made of (`SymbolIsTableEntry`). */
  function SymbolFor(v: nat): (c: char)
    requires v < 32
    ensures IsSymbol(c)
  {
    if v < 10 then (v + '0' as int) as char
    else if v < 17 then (v - 10 + 'b' as int) as char
    else if v < 19 then (v - 17 + 'j' as int) as char
    else if v < 21 then (v - 19 + 'm' as int) as char
    else (v - 21 + 'p' as int) as char
  }

  lemma SymbolIsTableEntry(v: nat)
    requires v < 32
    ensures Base32Codes[v] == SymbolFor(v)
  {
  }

  /** The reverse lookup: the value of a symbol, or None for a character
      outside the alphabet, computed from the same runs. */
  function Position(c: char): (r: Option<nat>)
    ensures r.Some? <==> IsSymbol(c)
    ensures r.Some? ==> r.value < 32 && SymbolFor(r.value) == c
  {
    if '0' <= c <= '9' then Some(c as int - '0' as int)
    else if 'b' <= c <= 'h' then Some(c as int - 'b' as int + 10)
    else if 'j' <= c <= 'k' then Some(c as int - 'j' as int + 17)
    else if 'm' <= c <= 'n' then Some(c as int - 'm' as int + 19)
    else if 'p' <= c <= 'z' then Some(c as int - 'p' as int + 21)
    else None
  }

  /** Value to symbol and back is the identity. */
  lemma PositionOfSymbol(v: nat)
    requires v < 32
    ensures Position(SymbolFor(v)) == Some(v)
  {
  }

  /** The first index at or after `i` whose table entry is `c`, if any: the
      search the table lookup performs. */
  function PositionFrom(c: char, i: nat): (r: Option<nat>)
    requires i <= |Base32Codes|
    ensures r.Some? ==> i <= r.value < |Base32Codes| && Base32Codes[r.value] == c
    ensures r.Some? ==> forall k :: i <= k < r.value ==> Base32Codes[k] != c
    ensures r.None? ==> forall k :: i <= k < |Base32Codes| ==> Base32Codes[k] != c
    decreases |Base32Codes| - i
  {
    if i == |Base32Codes| then None
    else if Base32Codes[i] == c then Some(i)
    else PositionFrom(c, i + 1)
  }

  /** The table is strictly increasing, so no symbol occurs twice. */
  lemma {:induction false} CodesIncreasing(j: nat, k: nat)
    requires j < k < 32
    ensures Base32Codes[j] < Base32Codes[k]
  {
    if j + 1 < k {
      CodesIncreasing(j, k - 1);
    }
  }

  /** No symbol occurs twice in the table. */
  lemma CodesDistinct(j: nat, k: nat)
    requires j < 32 && k < 32
    ensures Base32Codes[j] == Base32Codes[k] ==> j == k
  {
    if j < k {
      CodesIncreasing(j, k);
    } else if k < j {
      CodesIncreasing(k, j);
    }
  }

  /** The lookup by runs agrees with searching the table from its start. */
  lemma PositionIsSearch(c: char)
    ensures PositionFrom(c, 0) == Position(c)
  {
    var r := PositionFrom(c, 0);
    match Position(c)
    case None =>
      IsSymbolInCodes(c);
      assert forall k :: 0 <= k < |Base32Codes| ==> Base32Codes[k] != c;
    case Some(v) =>
      SymbolIsTableEntry(v);
      if r.Some? {
        CodesDistinct(r.value, v);
      }
  }
}
