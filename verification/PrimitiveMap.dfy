/** Maps of one primitive type to another: a header with the sizes and the count,
    then the pairs. The data file uses it for the type code of every property id. */
module PrimitiveMap {
  import opened Bytes
  import opened Listings
  import opened Paths

  type Codes = map<nat, nat>

  const HEADER_SIZE := 32

  // ---------- the layout ----------

  ghost function PairNums(m: Codes, keys: seq<nat>): (ns: seq<nat>)
    requires forall k :: k in keys ==> k in m
  {
    if keys == [] then [] else [keys[0], m[keys[0]]] + PairNums(m, keys[1..])
  }

  lemma {:induction false} PairNumsGrow(m: Codes, done: seq<nat>, a: nat)
    requires a in m && forall k :: k in done ==> k in m
    ensures PairNums(m, done + [a]) == PairNums(m, done) + [a, m[a]]
  {
    if done == [] {
      assert [a][1..] == [];
    } else {
      assert (done + [a])[1..] == done[1..] + [a];
      PairNumsGrow(m, done[1..], a);
    }
  }

  lemma {:induction false} PairNumsAt(m: Codes, keys: seq<nat>, i: nat)
    requires i < |keys| && forall k :: k in keys ==> k in m
    ensures |PairNums(m, keys)| == 2 * |keys|
    ensures PairNums(m, keys)[2 * i] == keys[i] && PairNums(m, keys)[2 * i + 1] == m[keys[i]]
  {
    if i > 0 {
      PairNumsAt(m, keys[1..], i - 1);
    } else if |keys| > 1 {
      PairNumsAt(m, keys[1..], 0);
    }
  }

  function Header(count: nat): seq<nat> { [HEADER_SIZE + 8 * count, 4, 4, count] }

  ghost function EncodeMap(m: Codes): seq<Byte> {
    AscendingLists(m.Keys);
    Words(Header(|m|)) + Nums(PairNums(m, Ascending(m.Keys)), 4)
  }

  /** Both types are 32 bits wide. */
  ghost predicate CodesFit(m: Codes) {
    forall k :: k in m ==> k < 0x1_0000_0000 && m[k] < 0x1_0000_0000
  }

  /** The size the serialiser asserts and returns is the number of bytes it wrote. */
  lemma SizeIsExact(m: Codes)
    ensures |EncodeMap(m)| == Header(|m|)[0]
  {
    AscendingLists(m.Keys);
    var keys := Ascending(m.Keys);
    NumsSize(PairNums(m, keys), 4);
    if keys != [] { PairNumsAt(m, keys, 0); }
  }

  // ---------- reading it back ----------

  /** PrimitiveMapSerialiser::unserialise: the stride comes from the header, and
      neither the recorded size nor leftover bytes are looked at. */
  function DecodeMap(bs: seq<Byte>, length: nat): Result<Codes> {
    var _ :- Need(HEADER_SIZE <= length);
    var sizeA :- Num(bs, 8, 8);
    var sizeB :- Num(bs, 16, 8);
    var count :- Num(bs, 24, 8);
    DecodePairs(bs, length, sizeA, sizeB, count, 0, map[])
  }

  function DecodePairs(bs: seq<Byte>, length: nat, sizeA: nat, sizeB: nat, count: nat, i: nat, m: Codes): Result<Codes>
    decreases count - i
  {
    if i >= count then Ok(m)
    else
      var stride := Plus(sizeA, sizeB);
      var at := Plus(HEADER_SIZE, i * stride);
      var _ :- Need(at < length && Plus(at, stride) <= length);
      // Copying any other size into the two variables is not guarded.
      var _ :- Assert(sizeA == 4 && sizeB == 4);
      var a :- Num(bs, at, 4);
      var b :- Num(bs, at + 4, 4);
      DecodePairs(bs, length, sizeA, sizeB, count, i + 1, Inserted(m, a, b))
  }

  // ---------- the round trip ----------

  /** One pair of the listing. */
  lemma PairReadsBack(m: Codes, keys: seq<nat>, after: seq<Byte>, i: nat)
    requires CodesFit(m) && i < |keys| && forall k :: k in keys ==> k in m
    ensures var bs := Words(Header(|m|)) + (Nums(PairNums(m, keys), 4) + after);
      Num(bs, HEADER_SIZE + 8 * i, 4) == Ok(keys[i]) && Num(bs, HEADER_SIZE + 8 * i + 4, 4) == Ok(m[keys[i]])
  {
    Widths();
    hide Num, Words, Nums, Pow256, PairNums;
    var ns := PairNums(m, keys);
    PairNumsAt(m, keys, i);
    var rest := Nums(ns, 4) + after;
    assert keys[i] in m;
    assert ns[2 * i] == keys[i] && ns[2 * i + 1] == m[keys[i]];
    NumsReadBack(ns, 4, after, 2 * i);
    NumsReadBack(ns, 4, after, 2 * i + 1);
    NumAfter(Words(Header(|m|)), rest, 8 * i, 4);
    NumAfter(Words(Header(|m|)), rest, 8 * i + 4, 4);
    assert 4 * (2 * i) == 8 * i && 4 * (2 * i + 1) == 8 * i + 4;
  }

  /** Pair j of the listing stands in its place. */
  ghost predicate PairStands(bs: seq<Byte>, m: Codes, keys: seq<nat>, j: nat)
    requires j < |keys| && keys[j] in m
  {
    Num(bs, HEADER_SIZE + 8 * j, 4) == Ok(keys[j]) && Num(bs, HEADER_SIZE + 8 * j + 4, 4) == Ok(m[keys[j]])
  }

  /** One turn of the decoding loop. */
  lemma PairJoins(bs: seq<Byte>, length: nat, count: nat, m: Codes, keys: seq<nat>, i: nat)
    requires Distinct(keys) && i < |keys| == count && keys[i] in m && PairStands(bs, m, keys, i)
    requires HEADER_SIZE + 8 * count < WORD_LIMIT
    ensures DecodePairs(bs, length, 4, 4, count, i, Restricted(m, keys[..i]))
         == if HEADER_SIZE + 8 * (i + 1) <= length
            then DecodePairs(bs, length, 4, 4, count, i + 1, Restricted(m, keys[..i + 1])) else Err(Rejected)
  {
    assert Plus(4, 4) == 8 && Plus(HEADER_SIZE, i * 8) == HEADER_SIZE + 8 * i;
    assert Plus(HEADER_SIZE + 8 * i, 8) == HEADER_SIZE + 8 * (i + 1);
    hide Num, Plus, Restricted, Inserted, Distinct;
    RestrictedGrows(m, keys, i);
  }

  lemma {:induction false} PairsReadBack(bs: seq<Byte>, length: nat, m: Codes, keys: seq<nat>, i: nat)
    requires Distinct(keys) && i <= |keys| && (forall k :: k in keys <==> k in m)
    requires HEADER_SIZE + 8 * |keys| < WORD_LIMIT && HEADER_SIZE + 8 * i <= length
    requires forall j :: 0 <= j < |keys| ==> keys[j] in m && PairStands(bs, m, keys, j)
    ensures DecodePairs(bs, length, 4, 4, |keys|, i, Restricted(m, keys[..i]))
         == if HEADER_SIZE + 8 * |keys| <= length then Ok(m) else Err(Rejected)
    decreases |keys| - i
  {
    if i == |keys| {
      RestrictedEnds(m, keys);
      return;
    }
    hide DecodePairs, PairStands, Restricted, Distinct;
    PairJoins(bs, length, |keys|, m, keys, i);
    if HEADER_SIZE + 8 * (i + 1) <= length { PairsReadBack(bs, length, m, keys, i + 1); }
  }

  /** Every map comes back whole when at least its own bytes are offered, and is
      rejected when one is missing. */
  lemma MapReadsBack(m: Codes, after: seq<Byte>, length: nat)
    requires CodesFit(m) && |EncodeMap(m)| < WORD_LIMIT && length < WORD_LIMIT
    ensures DecodeMap(EncodeMap(m) + after, length)
         == if |EncodeMap(m)| <= length then Ok(m) else Err(Rejected)
  {
    AscendingLists(m.Keys);
    SizeIsExact(m);
    var keys := Ascending(m.Keys);
    hide Num, Words, Nums, Ascending, Distinct, PairNums, DecodePairs, Restricted;
    var head, rest := Words(Header(|m|)), Nums(PairNums(m, keys), 4) + after;
    var bs := EncodeMap(m) + after;
    assert bs == head + rest;
    WordsReadBack(Header(|m|), rest);
    assert Num(bs, 8 * 1, 8) == Ok(4) && Num(bs, 8 * 2, 8) == Ok(4) && Num(bs, 8 * 3, 8) == Ok(|m|);
    forall j | 0 <= j < |keys|
      ensures keys[j] in m && PairStands(bs, m, keys, j)
    {
      PairReadsBack(m, keys, after, j);
      assert keys[j] in m;
    }
    RestrictedEnds(m, keys);
    if HEADER_SIZE <= length { PairsReadBack(bs, length, m, keys, 0); }
  }

  // ---------- the loops ----------

  /** The bytes of the pairs listed so far. */
  ghost function PairBytes(m: Codes, done: seq<nat>): seq<Byte>
    requires forall k :: k in done ==> k in m
  {
    Nums(PairNums(m, done), 4)
  }

  lemma MapBytes(m: Codes)
    ensures forall k :: k in Ascending(m.Keys) ==> k in m
    ensures EncodeMap(m) == Words(Header(|m|)) + PairBytes(m, Ascending(m.Keys)) && PairBytes(m, []) == []
  {
    AscendingLists(m.Keys);
  }

  method Serialise(m: Codes, s: Serialiser) returns (size: nat)
    modifies s
    ensures s.data == old(s.data) + EncodeMap(m) && size == |EncodeMap(m)|
  {
    hide Ascending, Words, Nums, PairBytes, EncodeMap, PairNums;
    AscendingEnds();
    SizeIsExact(m);
    MapBytes(m);
    ghost var done: seq<nat> := [];
    var header := Header(|m|);
    var _ := s.Append(Words(header));
    ghost var before := s.data;
    var rest := m.Keys;
    while rest != {}
      invariant rest <= m.Keys && Ascending(m.Keys) == done + Ascending(rest)
      invariant forall k :: k in done ==> k in m
      invariant s.data == before + PairBytes(m, done)
    {
      var a := LeastOf(rest);
      AscendingStarts(a, rest);
      var b := m[a];
      var _ := s.Append(Nums([a], 4));
      var _ := s.Append(Nums([b], 4));
      PairBytesGrow(before, m, done, a);
      done := done + [a];
      rest := rest - {a};
    }
    assert done == Ascending(m.Keys);
    size := header[0];
  }

  lemma PairBytesGrow(before: seq<Byte>, m: Codes, done: seq<nat>, a: nat)
    requires a in m && forall k :: k in done ==> k in m
    ensures before + PairBytes(m, done) + Nums([a], 4) + Nums([m[a]], 4) == before + PairBytes(m, done + [a])
  {
    hide Nums;
    PairNumsGrow(m, done, a);
    assert [a, m[a]] == [a] + [m[a]];
    NumsConcat(PairNums(m, done), [a] + [m[a]], 4);
    NumsConcat([a], [m[a]], 4);
  }

  method Unserialise(bs: seq<Byte>, length: nat) returns (r: Result<Codes>)
    ensures r == DecodeMap(bs, length)
  {
    hide Num, Plus, Inserted;
    var table: Codes := map[];
    if HEADER_SIZE > length { return Err(Rejected); }
    var sizeA :- Num(bs, 8, 8);
    var sizeB :- Num(bs, 16, 8);
    var count :- Num(bs, 24, 8);
    var stride := Plus(sizeA, sizeB);
    for i := 0 to count
      invariant DecodeMap(bs, length) == DecodePairs(bs, length, sizeA, sizeB, count, i, table)
    {
      var d := Plus(HEADER_SIZE, i * stride);
      if d >= length || Plus(d, stride) > length { return Err(Rejected); }
      if sizeA != 4 || sizeB != 4 { return Err(Fatal); }
      var a :- Num(bs, d, 4);
      var b :- Num(bs, d + 4, 4);
      table := Inserted(table, a, b);
    }
    r := Ok(table);
  }
}
