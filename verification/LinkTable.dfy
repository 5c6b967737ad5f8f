/** The link table section of the data file: a count, then for every handle its
    number of neighbours and the neighbours, all as eight-byte words. */
module LinkTable {
  import opened Bytes
  import opened Listings
  import opened Paths

  type Links = map<nat, set<nat>>

  // ---------- the layout ----------

  ghost function EntryWords(key: nat, values: set<nat>): seq<nat> {
    [key, |values|] + Ascending(values)
  }

  ghost function EntriesWords(m: Links, keys: seq<nat>): seq<nat>
    requires forall k :: k in keys ==> k in m
  {
    if keys == [] then [] else EntryWords(keys[0], m[keys[0]]) + EntriesWords(m, keys[1..])
  }

  ghost function LinkWords(m: Links): seq<nat> {
    KeysListed(m);
    [|m|] + EntriesWords(m, Ascending(m.Keys))
  }

  lemma KeysListed(m: Links)
    ensures forall k :: k in Ascending(m.Keys) <==> k in m
    ensures |Ascending(m.Keys)| == |m| && Distinct(Ascending(m.Keys))
  {
    AscendingLists(m.Keys);
    hide *;
  }

  ghost function EncodeLinks(m: Links): seq<Byte> { Words(LinkWords(m)) }

  /** Handles are 64-bit words. */
  ghost predicate HandlesFit(m: Links) {
    forall k :: k in m ==> k < WORD_LIMIT && forall v :: v in m[k] ==> v < WORD_LIMIT
  }

  // ---------- reading it back ----------

  /** GraphSerialiser::unserialise of the link table; bs is the memory from the
      start of the section on. */
  function DecodeLinks(bs: seq<Byte>, length: nat): Result<Links> {
    var _ :- Need(8 <= length);
    var count :- Num(bs, 0, 8);
    DecodeEntries(bs, length, count, 0, 8, map[])
  }

  function DecodeEntries(bs: seq<Byte>, length: nat, count: nat, i: nat, at: nat, m: Links): Result<Links>
    decreases count - i
  {
    if i >= count then
      var _ :- Need(at == length);
      Ok(m)
    else
      var _ :- Need(at + 8 < length);
      var key :- Num(bs, at, 8);
      var _ :- Need(at + 16 <= length);
      var n :- Num(bs, at + 8, 8);
      var values :- DecodeSet(bs, length, n, 0, at + 16, {});
      DecodeEntries(bs, length, count, i + 1, at + 16 + 8 * n, Inserted(m, key, values))
  }

  function DecodeSet(bs: seq<Byte>, length: nat, n: nat, j: nat, at: nat, values: set<nat>): Result<set<nat>>
    decreases n - j
  {
    if j >= n then Ok(values)
    else
      var _ :- Need(at + 8 <= length);
      var v :- Num(bs, at, 8);
      DecodeSet(bs, length, n, j + 1, at + 8, values + {v})
  }

  // ---------- the round trip ----------

  /** bs starts with the given words. */
  ghost predicate Spells(bs: seq<Byte>, ws: seq<nat>) {
    forall i :: 0 <= i < |ws| ==> Num(bs, 8 * i, 8) == Ok(ws[i])
  }

  ghost function Elements(vs: seq<nat>): set<nat> { set v | v in vs }

  lemma {:induction false} SetReadsBack(bs: seq<Byte>, ws: seq<nat>, length: nat, start: nat, n: nat, j: nat)
    requires Spells(bs, ws) && j <= n && start + n <= |ws|
    ensures var vs := ws[start..start + n];
      DecodeSet(bs, length, n, j, 8 * (start + j), Elements(vs[..j]))
        == if j == n || 8 * (start + n) <= length then Ok(Elements(vs)) else Err(Rejected)
    decreases n - j
  {
    var vs := ws[start..start + n];
    hide Num;
    if j == n {
      assert vs[..n] == vs;
    } else if 8 * (start + j) + 8 <= length {
      assert vs[j] == ws[start + j];
      assert vs[..j + 1] == vs[..j] + [vs[j]];
      assert Elements(vs[..j + 1]) == Elements(vs[..j]) + {vs[j]};
      SetReadsBack(bs, ws, length, start, n, j + 1);
    }
  }

  /** The values of an entry, standing at word p. */
  lemma ValuesReadBack(bs: seq<Byte>, ws: seq<nat>, length: nat, p: nat, values: set<nat>)
    requires Spells(bs, ws) && p <= |ws| && Ascending(values) <= ws[p..]
    ensures DecodeSet(bs, length, |values|, 0, 8 * p, {})
         == if values == {} || 8 * (p + |values|) <= length then Ok(values) else Err(Rejected)
  {
    AscendingLists(values);
    var vs := ws[p..p + |values|];
    assert vs == Ascending(values);
    assert Elements(vs[..0]) == {} && Elements(vs) == values;
    hide Num, DecodeSet, Ascending, Spells, Distinct;
    SetReadsBack(bs, ws, length, p, |values|, 0);
  }

  /** One turn of the decoding loop. */
  lemma EntryReadsBack(bs: seq<Byte>, ws: seq<nat>, length: nat, count: nat, i: nat, p: nat, m: Links, key: nat, values: set<nat>)
    requires Spells(bs, ws) && p <= |ws| && EntryWords(key, values) <= ws[p..] && i < count
    ensures |EntryWords(key, values)| == 2 + |values|
    ensures var next := p + 2 + |values|;
      DecodeEntries(bs, length, count, i, 8 * p, m)
        == if 8 * next <= length then DecodeEntries(bs, length, count, i + 1, 8 * next, Inserted(m, key, values))
           else Err(Rejected)
  {
    AscendingLists(values);
    hide Num, DecodeSet, Ascending, Inserted, Distinct;
    var e := EntryWords(key, values);
    assert e[0] == ws[p] && e[1] == ws[p + 1];
    assert 8 * (p + 1) == 8 * p + 8;
    assert e[2..] == Ascending(values) && e[2..] <= ws[p + 2..];
    ValuesReadBack(bs, ws, length, p + 2, values);
  }

  lemma DropFront(ws: seq<nat>, p: nat, e: seq<nat>, rest: seq<nat>)
    requires p <= |ws| && ws[p..] == e + rest
    ensures e <= ws[p..] && p + |e| <= |ws| && ws[p + |e|..] == rest
  {
    assert ws[p + |e|..] == ws[p..][|e|..];
  }

  /** Before turn i the first i entries are in the table. */
  lemma EntryJoins(bs: seq<Byte>, ws: seq<nat>, length: nat, m: Links, keys: seq<nat>, i: nat, p: nat) returns (next: nat)
    requires Spells(bs, ws) && Distinct(keys) && i < |keys| && (forall k :: k in keys <==> k in m)
    requires p <= |ws| && ws[p..] == EntriesWords(m, keys[i..])
    ensures p <= next <= |ws| && ws[next..] == EntriesWords(m, keys[i + 1..])
    ensures DecodeEntries(bs, length, |keys|, i, 8 * p, Restricted(m, keys[..i]))
         == if 8 * next <= length then DecodeEntries(bs, length, |keys|, i + 1, 8 * next, Restricted(m, keys[..i + 1]))
            else Err(Rejected)
  {
    hide DecodeEntries, EntryWords, Spells, Restricted, Inserted;
    var key := keys[i];
    var e := EntryWords(key, m[key]);
    next := p + 2 + |m[key]|;
    assert keys[i..][0] == key && keys[i..][1..] == keys[i + 1..];
    assert ws[p..] == e + EntriesWords(m, keys[i + 1..]);
    hide EntriesWords;
    DropFront(ws, p, e, EntriesWords(m, keys[i + 1..]));
    EntryReadsBack(bs, ws, length, |keys|, i, p, Restricted(m, keys[..i]), key, m[key]);
    RestrictedGrows(m, keys, i);
  }

  lemma {:induction false} EntriesReadBack(bs: seq<Byte>, ws: seq<nat>, length: nat, m: Links, keys: seq<nat>, i: nat, p: nat)
    requires Spells(bs, ws) && Distinct(keys) && i <= |keys| && (forall k :: k in keys <==> k in m)
    requires p <= |ws| && ws[p..] == EntriesWords(m, keys[i..])
    ensures DecodeEntries(bs, length, |keys|, i, 8 * p, Restricted(m, keys[..i]))
         == if length == 8 * |ws| then Ok(m) else Err(Rejected)
    decreases |keys| - i
  {
    if i == |keys| {
      RestrictedEnds(m, keys);
      return;
    }
    hide EntriesWords, DecodeEntries, Spells, Restricted, Distinct;
    var next := EntryJoins(bs, ws, length, m, keys, i, p);
    EntriesReadBack(bs, ws, length, m, keys, i + 1, next);
  }

  lemma {:induction false} EntriesFit(m: Links, keys: seq<nat>)
    requires HandlesFit(m) && forall k :: k in keys ==> k in m
    requires 8 * |EntriesWords(m, keys)| < WORD_LIMIT
    ensures forall i :: 0 <= i < |EntriesWords(m, keys)| ==> EntriesWords(m, keys)[i] < WORD_LIMIT
  {
    if keys != [] {
      AscendingLists(m[keys[0]]);
      EntriesFit(m, keys[1..]);
      var vs := Ascending(m[keys[0]]);
      forall i | 0 <= i < |vs| ensures vs[i] < WORD_LIMIT { assert vs[i] in m[keys[0]]; }
    }
  }

  lemma LinkWordsFit(m: Links)
    requires HandlesFit(m) && |EncodeLinks(m)| < WORD_LIMIT
    ensures forall i :: 0 <= i < |LinkWords(m)| ==> LinkWords(m)[i] < WORD_LIMIT
    ensures forall k :: k in Ascending(m.Keys) ==> k in m
    ensures LinkWords(m)[1..] == EntriesWords(m, Ascending(m.Keys)) && LinkWords(m)[0] == |m|
  {
    KeysListed(m);
    EntriesFit(m, Ascending(m.Keys));
    EntriesLong(m, Ascending(m.Keys));
  }

  lemma {:induction false} EntriesLong(m: Links, keys: seq<nat>)
    requires forall k :: k in keys ==> k in m
    ensures |EntriesWords(m, keys)| >= |keys|
  {
    if keys != [] { EntriesLong(m, keys[1..]); }
  }

  /** For every map of handles, whatever follows the section: the encoded bytes
      decode to the map at exactly their own length, and are rejected at any
      other. */
  lemma LinksReadBack(m: Links, after: seq<Byte>, length: nat)
    requires HandlesFit(m) && |EncodeLinks(m)| < WORD_LIMIT
    ensures DecodeLinks(EncodeLinks(m) + after, length)
         == if length == |EncodeLinks(m)| then Ok(m) else Err(Rejected)
  {
    KeysListed(m);
    LinkWordsFit(m);
    var keys, ws, bs := Ascending(m.Keys), LinkWords(m), EncodeLinks(m) + after;
    WordsReadBack(ws, after);
    RestrictedEnds(m, keys);
    hide Num, Ascending, Words, LinkWords, EntriesWords, DecodeEntries, Distinct, Restricted;
    assert keys[0..] == keys;
    EntriesReadBack(bs, ws, length, m, keys, 0, 1);
    assert Num(bs, 8 * 0, 8) == Ok(|m|);
  }

  // ---------- the loops ----------

  lemma WordsGrow(before: seq<Byte>, done: seq<nat>, more: seq<nat>)
    ensures before + Words(done) + Words(more) == before + Words(done + more)
  {
    NumsConcat(done, more, 8);
  }

  method Serialise(m: Links, s: Serialiser) returns (size: nat)
    modifies s
    ensures s.data == old(s.data) + EncodeLinks(m) && size == |EncodeLinks(m)|
  {
    hide Ascending, EntryWords, Words;
    ghost var before := s.data;
    var origSize := |s.data|;
    AscendingEnds();
    KeysListed(m);
    ghost var done: seq<nat> := [|m|];
    var _ := s.Append(Words([|m|]));
    var rest := m.Keys;
    while rest != {}
      invariant rest <= m.Keys
      invariant forall k :: k in Ascending(rest) ==> k in m
      invariant s.data == before + Words(done)
      invariant LinkWords(m) == done + EntriesWords(m, Ascending(rest))
    {
      var key := LeastOf(rest);
      AscendingStarts(key, rest);
      assert Ascending(rest)[1..] == Ascending(rest - {key});
      SerialiseEntry(s, key, m[key]);
      WordsGrow(before, done, EntryWords(key, m[key]));
      done := done + EntryWords(key, m[key]);
      rest := rest - {key};
    }
    assert done == LinkWords(m);
    size := |s.data| - origSize;
  }

  method SerialiseEntry(s: Serialiser, key: nat, values: set<nat>)
    modifies s
    ensures s.data == old(s.data) + Words(EntryWords(key, values))
  {
    hide Ascending, Words;
    ghost var before := s.data;
    AscendingEnds();
    var _ := s.Append(Words([key]));
    var _ := s.Append(Words([|values|]));
    WordsGrow(before, [key], [|values|]);
    ghost var done: seq<nat> := [key] + [|values|];
    var rest := values;
    while rest != {}
      invariant s.data == before + Words(done)
      invariant EntryWords(key, values) == done + Ascending(rest)
    {
      var v := LeastOf(rest);
      AscendingStarts(v, rest);
      var _ := s.Append(Words([v]));
      WordsGrow(before, done, [v]);
      done := done + [v];
      rest := rest - {v};
    }
    assert done == EntryWords(key, values);
  }

  /** The pointer walks the section; the table fills as it goes. */
  method Unserialise(bs: seq<Byte>, length: nat) returns (r: Result<Links>)
    ensures r == DecodeLinks(bs, length)
  {
    if 8 > length { return Err(Rejected); }
    var count :- Num(bs, 0, 8);
    var data, table: Links := 8, map[];
    for i := 0 to count
      invariant DecodeLinks(bs, length) == DecodeEntries(bs, length, count, i, data, table)
    {
      if data + 8 >= length { return Err(Rejected); }
      var key :- Num(bs, data, 8);
      if data + 16 > length { return Err(Rejected); }
      var numValues :- Num(bs, data + 8, 8);
      ghost var start := data;
      data := data + 16;
      var values := {};
      for j := 0 to numValues
        invariant data == start + 16 + 8 * j
        invariant DecodeSet(bs, length, numValues, 0, start + 16, {}) == DecodeSet(bs, length, numValues, j, data, values)
      {
        if data + 8 > length { return Err(Rejected); }
        var v :- Num(bs, data, 8);
        values := values + {v};
        data := data + 8;
      }
      table := Inserted(table, key, values);
    }
    if data != length { return Err(Rejected); }
    r := Ok(table);
  }
}
