/** The name table sections of the data file: property names and entity type
    names with their ids, and the ids that were released. */
module NameTable {
  import opened Bytes
  import opened Directory
  import opened Listings

  /** A NameManager: the next id, the released ids, and both directions of the
      assignment. */
  datatype Names = Names(next: nat, pool: seq<nat>, byId: map<nat, Text>, byName: map<Text, nat>)

  // ---------- what a name manager keeps ----------

  ghost predicate Consistent(t: Names) {
    && (forall n :: n in t.byName ==> t.byName[n] in t.byId && t.byId[t.byName[n]] == n)
    && (forall i :: i in t.byId ==> t.byId[i] in t.byName && t.byName[t.byId[i]] == i)
  }

  lemma {:induction false} SameSize(t: Names)
    requires Consistent(t)
    ensures |t.byId| == |t.byName|
    decreases |t.byId|
  {
    if t.byId.Keys != {} {
      var i :| i in t.byId;
      var n := t.byId[i];
      var u := t.(byId := t.byId - {i}, byName := t.byName - {n});
      assert |u.byId| == |t.byId| - 1 && |u.byName| == |t.byName| - 1;
      SameSize(u);
    } else {
      assert forall n :: n in t.byName ==> t.byName[n] in t.byId.Keys;
      assert t.byName.Keys == {};
    }
  }

  // ---------- the layout ----------

  function EntryBody(id: nat, name: Text): seq<Byte> { LE(id, 4) + (name + [0]) }

  function EntryHeader(offset: nat, name: Text): seq<Byte> { Words([offset, |name| + 1]) }

  ghost function Bodies(t: Names, names: seq<Text>): (bodies: seq<seq<Byte>>)
    requires forall n :: n in names ==> n in t.byName
    ensures |bodies| == |names| && forall i :: 0 <= i < |names| ==> bodies[i] == EntryBody(t.byName[names[i]], names[i])
  {
    seq(|names|, i requires 0 <= i < |names| => assert names[i] in names; EntryBody(t.byName[names[i]], names[i]))
  }

  function BodiesAt(count: nat): nat { 40 + 16 * count }

  ghost function Headers(bodies: seq<seq<Byte>>, names: seq<Text>): (headers: seq<seq<Byte>>)
    requires |bodies| == |names|
    ensures |headers| == |names| && Uniform(headers, 16)
    ensures forall i :: 0 <= i < |names| ==> headers[i] == EntryHeader(BodiesAt(|names|) + Start(bodies, i), names[i])
  {
    seq(|names|, i requires 0 <= i < |names| => EntryHeader(BodiesAt(|names|) + Start(bodies, i), names[i]))
  }

  function HeaderWords(size: nat, count: nat, next: nat, poolOffset: nat): seq<nat> { [size, count, next, 0, poolOffset] }

  ghost function Listed(t: Names): (names: seq<Text>)
    ensures |names| == |t.byName| && Distinct(names) && forall n :: n in names <==> n in t.byName
  {
    OrdersAreTotal();
    ListingLists(t.byName.Keys, ByText());
    Alphabetical(t.byName.Keys)
  }

  /** The table without its header: the entries, then the released ids. */
  ghost function Entries(t: Names): seq<Byte> {
    var names := Listed(t);
    var bodies := Bodies(t, names);
    Laid(Headers(bodies, names), [], bodies)
  }

  ghost function TableSize(t: Names): nat { 40 + |Entries(t)| + 4 * |t.pool| }

  ghost function TableHeader(t: Names): seq<Byte> {
    Words(HeaderWords(TableSize(t), |t.byName|, t.next, 40 + |Entries(t)|))
  }

  ghost function EncodeNames(t: Names): seq<Byte> { TableHeader(t) + Entries(t) + Nums(t.pool, 4) }

  /** The recorded size is the number of bytes. */
  lemma SizeIsExact(t: Names)
    ensures |EncodeNames(t)| == TableSize(t)
  {
    hide Entries, Words;
    NumsSize(t.pool, 4);
  }

  ghost predicate NamesFit(t: Names) {
    t.next < 0x1_0000_0000 && forall n :: n in t.byName ==> NulFree(n) && t.byName[n] < 0x1_0000_0000
  }

  // ---------- reading it back ----------

  /** StringMapSerialiser::unserialise into a cleared table: the recorded pool is
      never read. */
  function DecodeNames(bs: seq<Byte>, length: nat): Result<Names> {
    var size :- Num(bs, 0, 8);
    var _ :- Need(size == length);
    var next :- Num(bs, 16, 4);
    var count :- Num(bs, 8, 8);
    DecodeNameEntries(bs, length, count, 0, Names(next, [], map[], map[]))
  }

  function DecodeNameEntries(bs: seq<Byte>, length: nat, count: nat, i: nat, t: Names): Result<Names>
    decreases count - i
  {
    if i >= count then Ok(t)
    else
      var (id, name) :- DecodeName(bs, length, 40 + 16 * i);
      DecodeNameEntries(bs, length, count, i + 1,
                        t.(byId := Inserted(t.byId, id, name), byName := Inserted(t.byName, name, id)))
  }

  /** The entry whose header stands at the given place. The terminator is looked
      for behind the id, although the id is not part of the recorded size. */
  function DecodeName(bs: seq<Byte>, length: nat, at: nat): Result<(nat, Text)> {
    var _ :- Need(at < length);
    var offset :- Num(bs, at, 8);
    var _ :- Need(offset < length);
    var size :- Num(bs, at + 8, 8);
    var _ :- Need(Plus(offset, size) <= length);
    var last :- if size > 0 then Num(bs, offset + 4 + size - 1, 1) else Ok(0);
    var _ :- Need(last == 0);
    var id :- Num(bs, offset, 4);
    var text :- From(bs, offset + 4);
    var name :- CString(text);
    Ok((id, name))
  }

  // ---------- the round trip ----------

  lemma BodyReadsBack(id: nat, name: Text, more: seq<Byte>)
    requires id < 0x1_0000_0000 && NulFree(name)
    ensures var r := EntryBody(id, name) + more;
      && Num(r, 0, 4) == Ok(id)
      && Num(r, 4 + |name|, 1) == Ok(0)
      && From(r, 4).Ok? && CString(From(r, 4).value) == Ok(name)
  {
    Widths();
    var r := EntryBody(id, name) + more;
    var text := name + ([0] + more);
    assert r == LE(id, 4) + text;
    assert LE(0, 1) == [0];
    hide Pow256, LE, FromLE, CString;
    NumHere(id, 4, text);
    FromAfter(LE(id, 4), text);
    CStringReadsBack(name, more);
    NumAfter(LE(id, 4), text, |name|, 1);
    NumAfter(name, [0] + more, 0, 1);
    NumHere(0, 1, more);
  }

  lemma EntryHeaderReads(bs: seq<Byte>, at: nat, offset: nat, name: Text, more: seq<Byte>)
    requires From(bs, at) == Ok(EntryHeader(offset, name) + more) && offset < WORD_LIMIT && |name| + 1 < WORD_LIMIT
    ensures Num(bs, at, 8) == Ok(offset) && Num(bs, at + 8, 8) == Ok(|name| + 1)
  {
    var header := EntryHeader(offset, name) + more;
    WordsReadBack([offset, |name| + 1], more);
    hide Num, From, Words;
    assert Num(header, 8 * 0, 8) == Ok(offset) && Num(header, 8 * 1, 8) == Ok(|name| + 1);
    NumFrom(bs, at, header, 0, 8);
    NumFrom(bs, at, header, 8, 8);
  }

  lemma EntryBodyReads(bs: seq<Byte>, offset: nat, id: nat, name: Text, more: seq<Byte>)
    requires From(bs, offset) == Ok(EntryBody(id, name) + more) && id < 0x1_0000_0000 && NulFree(name)
    ensures Num(bs, offset, 4) == Ok(id) && Num(bs, offset + 4 + |name|, 1) == Ok(0)
    ensures From(bs, offset + 4).Ok? && CString(From(bs, offset + 4).value) == Ok(name)
  {
    var body := EntryBody(id, name) + more;
    BodyReadsBack(id, name, more);
    hide Num, From, CString, EntryBody;
    NumFrom(bs, offset, body, 0, 4);
    NumFrom(bs, offset, body, 4 + |name|, 1);
    FromFrom(bs, offset, body, 4);
  }

  /** A header and the body it points at read back, wherever they stand. */
  lemma NameReadsBack(bs: seq<Byte>, length: nat, at: nat, offset: nat, id: nat, name: Text, more: seq<Byte>, more': seq<Byte>)
    requires From(bs, at) == Ok(EntryHeader(offset, name) + more)
    requires From(bs, offset) == Ok(EntryBody(id, name) + more')
    requires id < 0x1_0000_0000 && NulFree(name)
    requires at < length && offset + |EntryBody(id, name)| <= length < WORD_LIMIT
    ensures DecodeName(bs, length, at) == Ok((id, name))
  {
    assert |EntryBody(id, name)| == 5 + |name|;
    hide Num, From, CString, EntryHeader, EntryBody, NulFree;
    EntryHeaderReads(bs, at, offset, name, more);
    EntryBodyReads(bs, offset, id, name, more');
    assert offset + 4 + (|name| + 1) - 1 == offset + 4 + |name|;
  }

  /** Entry i of the encoded table. */
  ghost predicate EntryStands(bs: seq<Byte>, length: nat, t: Names, names: seq<Text>, i: nat)
    requires i < |names| && names[i] in t.byName
  {
    DecodeName(bs, length, 40 + 16 * i) == Ok((t.byName[names[i]], names[i]))
  }

  lemma EntryStandsAt(head: seq<Byte>, t: Names, names: seq<Text>, after: seq<Byte>, i: nat, length: nat)
    requires NamesFit(t) && (forall n :: n in names ==> n in t.byName) && i < |names| && |head| == 40
    requires var bodies := Bodies(t, names);
      |head| + |Laid(Headers(bodies, names), [], bodies)| <= length < WORD_LIMIT
    ensures names[i] in t.byName
    ensures var bodies := Bodies(t, names);
      EntryStands(head + Laid(Headers(bodies, names), [], bodies) + after, length, t, names, i)
  {
    hide From, Num, EntryBody, EntryHeader, Start, Headers, Bodies, Uniform, Laid, DecodeName;
    assert names[i] in names;
    var bodies := Bodies(t, names);
    var headers := Headers(bodies, names);
    var bs := head + Laid(headers, [], bodies) + after;
    var id, offset := t.byName[names[i]], BodiesAt(|names|) + Start(bodies, i);
    assert headers[i] == EntryHeader(offset, names[i]) && bodies[i] == EntryBody(id, names[i]);
    LaidSize(headers, 16, [], bodies);
    var more := HeaderStands(head, headers, 16, [], bodies, after, i);
    var more' := BodyStands(head, headers, 16, [], bodies, after, i);
    NameReadsBack(bs, length, 40 + 16 * i, offset, id, names[i], more, more');
  }

  /** The ids in the order of the names. */
  ghost function Ids(t: Names, names: seq<Text>): (ids: seq<nat>)
    requires forall n :: n in names ==> n in t.byName
    ensures |ids| == |names| && forall i :: 0 <= i < |names| ==> names[i] in t.byName && ids[i] == t.byName[names[i]]
  {
    seq(|names|, i requires 0 <= i < |names| => assert names[i] in names; t.byName[names[i]])
  }

  lemma IdsListed(t: Names, names: seq<Text>)
    requires Consistent(t) && Distinct(names) && forall n :: n in names <==> n in t.byName
    ensures Distinct(Ids(t, names))
    ensures forall i :: 0 <= i < |names| ==> names[i] in t.byName && Ids(t, names)[i] in t.byId && t.byId[Ids(t, names)[i]] == names[i]
    ensures forall id :: id in t.byId ==> id in Ids(t, names)
  {
    var ids := Ids(t, names);
    forall i, j | 0 <= i < j < |ids| ensures ids[i] != ids[j] {
      assert t.byId[ids[i]] == names[i] && t.byId[ids[j]] == names[j];
    }
    forall id | id in t.byId ensures id in ids {
      var i :| 0 <= i < |names| && names[i] == t.byId[id];
      assert ids[i] == id;
    }
  }

  /** What has been filled in after i entries. */
  ghost function Filled(t: Names, names: seq<Text>, i: nat): Names
    requires (forall n :: n in names ==> n in t.byName) && i <= |names|
  {
    Names(t.next, [], Restricted(t.byId, Ids(t, names)[..i]), Restricted(t.byName, names[..i]))
  }

  lemma FilledGrows(t: Names, names: seq<Text>, i: nat)
    requires Consistent(t) && Distinct(names) && (forall n :: n in names <==> n in t.byName) && i < |names|
    ensures names[i] in t.byName
    ensures var u, id := Filled(t, names, i), t.byName[names[i]];
      u.(byId := Inserted(u.byId, id, names[i]), byName := Inserted(u.byName, names[i], id)) == Filled(t, names, i + 1)
  {
    hide Restricted, Inserted, Distinct, Ids, Consistent;
    IdsListed(t, names);
    var ids := Ids(t, names);
    assert ids[i] in t.byId;
    RestrictedGrows(t.byId, ids, i);
    RestrictedGrows(t.byName, names, i);
  }

  lemma {:induction false} EntriesReadBack(bs: seq<Byte>, length: nat, t: Names, names: seq<Text>, i: nat)
    requires Consistent(t) && Distinct(names) && (forall n :: n in names <==> n in t.byName) && i <= |names|
    requires forall j :: 0 <= j < |names| ==> names[j] in t.byName && EntryStands(bs, length, t, names, j)
    ensures DecodeNameEntries(bs, length, |names|, i, Filled(t, names, i)) == Ok(t.(pool := []))
    decreases |names| - i
  {
    if i == |names| {
      IdsListed(t, names);
      RestrictedEnds(t.byId, Ids(t, names));
      RestrictedEnds(t.byName, names);
      return;
    }
    hide DecodeName, Filled, Consistent, Distinct;
    assert EntryStands(bs, length, t, names, i);
    FilledGrows(t, names, i);
    EntriesReadBack(bs, length, t, names, i + 1);
  }

  lemma HeaderReadsBack(size: nat, count: nat, next: nat, poolOffset: nat, rest: seq<Byte>)
    requires size < WORD_LIMIT && count < WORD_LIMIT && next < 0x1_0000_0000 && poolOffset < WORD_LIMIT
    ensures var bs := Words(HeaderWords(size, count, next, poolOffset)) + rest;
      Num(bs, 0, 8) == Ok(size) && Num(bs, 8, 8) == Ok(count) && Num(bs, 16, 4) == Ok(next)
  {
    var ws := HeaderWords(size, count, next, poolOffset);
    WordsReadBack(ws, rest);
    Widths();
    NumsConcat([size, count], [next, 0, poolOffset], 8);
    assert ws == [size, count] + [next, 0, poolOffset];
    var bs := Words(ws) + rest;
    hide Num, Nums, Pow256;
    assert bs == Words([size, count]) + (Words([next, 0, poolOffset]) + rest);
    WordsNarrow([next, 0, poolOffset], 4, rest);
    NumAfter(Words([size, count]), Words([next, 0, poolOffset]) + rest, 0, 4);
    assert Num(bs, 8 * 0, 8) == Ok(size) && Num(bs, 8 * 1, 8) == Ok(count);
  }

  /** The entries decode behind any header and before anything. */
  lemma EntriesDecode(head: seq<Byte>, t: Names, after: seq<Byte>, length: nat)
    requires Consistent(t) && NamesFit(t) && |head| == 40 && |head| + |Entries(t)| <= length < WORD_LIMIT
    ensures DecodeNameEntries(head + Entries(t) + after, length, |t.byName|, 0, Names(t.next, [], map[], map[]))
         == Ok(t.(pool := []))
  {
    var names := Listed(t);
    var bodies := Bodies(t, names);
    var laid := Laid(Headers(bodies, names), [], bodies);
    assert Filled(t, names, 0) == Names(t.next, [], map[], map[]);
    assert Entries(t) == laid;
    hide NamesFit, Distinct, Consistent, DecodeNameEntries, Entries, Bodies, Headers, Laid, EntryStands, Filled, Listed;
    forall j | 0 <= j < |names| ensures names[j] in t.byName && EntryStands(head + laid + after, length, t, names, j) {
      EntryStandsAt(head, t, names, after, j, length);
    }
    EntriesReadBack(head + laid + after, length, t, names, 0);
  }

  /** Every consistent table comes back except for its released ids, at exactly
      its own length. */
  lemma NamesReadBack(t: Names, after: seq<Byte>, length: nat)
    requires Consistent(t) && NamesFit(t) && |EncodeNames(t)| < WORD_LIMIT
    ensures DecodeNames(EncodeNames(t) + after, length)
         == if length == |EncodeNames(t)| then Ok(t.(pool := [])) else Err(Rejected)
  {
    var bs := EncodeNames(t) + after;
    TableHeaderReads(t, after);
    hide Words, Nums, Num, Entries, DecodeNameEntries, Consistent, NamesFit, TableHeader;
    SizeIsExact(t);
    FourParts(TableHeader(t), Entries(t), Nums(t.pool, 4), after);
    EntriesDecode(TableHeader(t), t, Nums(t.pool, 4) + after, TableSize(t));
  }

  lemma TableHeaderReads(t: Names, after: seq<Byte>)
    requires NamesFit(t) && |EncodeNames(t)| < WORD_LIMIT
    ensures |TableHeader(t)| == 40
    ensures var bs := EncodeNames(t) + after;
      Num(bs, 0, 8) == Ok(TableSize(t)) && Num(bs, 8, 8) == Ok(|t.byName|) && Num(bs, 16, 4) == Ok(t.next)
  {
    var size, poolOffset, rest := TableSize(t), 40 + |Entries(t)|, Entries(t) + (Nums(t.pool, 4) + after);
    assert EncodeNames(t) + after == TableHeader(t) + rest by {
      hide Words, Nums, Entries, TableHeader;
      FourParts(TableHeader(t), Entries(t), Nums(t.pool, 4), after);
    }
    assert TableHeader(t) == Words(HeaderWords(size, |t.byName|, t.next, poolOffset));
    assert t.next < 0x1_0000_0000 && |t.byName| <= size < WORD_LIMIT && poolOffset <= size by {
      EntriesMany(t);
      SizeIsExact(t);
    }
    hide *;
    HeaderReadsBack(size, |t.byName|, t.next, poolOffset, rest);
  }

  lemma EntriesMany(t: Names)
    ensures |t.byName| <= |Entries(t)|
  {
    var names := Listed(t);
    var bodies := Bodies(t, names);
    LaidSize(Headers(bodies, names), 16, [], bodies);
  }

  // ---------- the loops ----------

  lemma ListedParts(t: Names)
    ensures Listed(t) == Alphabetical(t.byName.Keys) && Entries(t) == Laid(ListedHeaders(t), [], ListedBodies(t))
    ensures |ListedHeaders(t)| == |ListedBodies(t)| == |t.byName| && Uniform(ListedHeaders(t), 16)
  {
  }

  ghost function ListedBodies(t: Names): seq<seq<Byte>> { Bodies(t, Listed(t)) }

  ghost function ListedHeaders(t: Names): seq<seq<Byte>> { Headers(ListedBodies(t), Listed(t)) }

  lemma ListedAt(t: Names, i: nat)
    requires i < |t.byName|
    ensures |Listed(t)| == |t.byName| && Listed(t)[i] in t.byName
    ensures ListedBodies(t)[i] == EntryBody(t.byName[Listed(t)[i]], Listed(t)[i])
    ensures ListedHeaders(t)[i] == EntryHeader(BodiesAt(|t.byName|) + Start(ListedBodies(t), i), Listed(t)[i])
  {
    hide Bodies, Headers, EntryBody, EntryHeader, Start, Alphabetical, Distinct, Uniform;
    assert Listed(t)[i] in Listed(t);
  }

  /** The table when i entries have been written. */
  ghost function Written(t: Names, i: nat): seq<Byte>
    requires i <= |t.byName|
  {
    Partial(ListedHeaders(t), 16, [], ListedBodies(t), i)
  }

  lemma WrittenSize(t: Names, i: nat)
    requires i <= |t.byName|
    ensures |ListedHeaders(t)| == |ListedBodies(t)| == |t.byName|
    ensures 40 + |Written(t, i)| == BodiesAt(|t.byName|) + Start(ListedBodies(t), i)
  {
    hide Start, Partial;
    PartialSize(ListedHeaders(t), 16, [], ListedBodies(t), i);
  }

  /** Appending body i and filling header i in takes the table one entry further. */
  lemma WrittenSteps(front: seq<Byte>, t: Names, i: nat, name: Text)
    requires i < |t.byName| && |Listed(t)| == |t.byName| && Listed(t)[i] == name
    ensures name in t.byName && |Written(t, i)| >= 16 * (i + 1)
    ensures var data, header := front + Written(t, i) + EntryBody(t.byName[name], name), EntryHeader(40 + |Written(t, i)|, name);
      |front| + i * 16 + |header| <= |data|
      && Patched(data, |front| + i * 16, header) == front + Written(t, i + 1)
  {
    hide Partial, Start, Patched, EntryBody, EntryHeader, Laid, Entries, Uniform, ListedHeaders, ListedBodies, Listed;
    ListedAt(t, i);
    WrittenSize(t, i);
    ListedParts(t);
    var headers, bodies := ListedHeaders(t), ListedBodies(t);
    HeaderFillsIn(front, headers, 16, [], bodies, i);
    assert |Written(t, i)| >= 16 * (i + 1);
    assert headers[i] == EntryHeader(40 + |Written(t, i)|, name);
  }

  lemma WrittenWhole(t: Names)
    ensures Written(t, 0) == Blank(16, |t.byName|) && Written(t, |t.byName|) == Entries(t)
    ensures Listed(t)[0..] == Alphabetical(t.byName.Keys)
  {
    var headers, bodies := ListedHeaders(t), ListedBodies(t);
    assert |headers| == |bodies| == |t.byName|;
    PartialStarts(headers, 16, [], bodies);
    PartialEnds(headers, 16, [], bodies);
  }

  lemma NextName(t: Names, rest: set<Text>, name: Text, i: nat)
    requires First(name, rest, ByText()) && i <= |Listed(t)| && Listed(t)[i..] == Alphabetical(rest)
    ensures i < |t.byName| && Listed(t)[i] == name && Listed(t)[i + 1..] == Alphabetical(rest - {name})
  {
    OrdersAreTotal();
    ListingStarts(name, rest, ByText());
    assert Listed(t)[i..][0] == name && Listed(t)[i..][1..] == Listed(t)[i + 1..];
  }

  lemma NamesRunOut(t: Names, i: nat)
    requires i <= |Listed(t)| && Listed(t)[i..] == Alphabetical({})
    ensures i == |t.byName|
  {
  }

  /** Writes every entry behind the blank headers and fills its header in. */
  method SerialiseEntries(t: Names, s: Serialiser, origSize: nat, ghost front: seq<Byte>)
    requires |front| == origSize + 40 && s.data == front + Blank(16, |t.byName|)
    modifies s
    ensures s.data == front + Entries(t)
  {
    hide Blank, Written, EntryBody, EntryHeader, Patched, Listed, Entries, TotalOrder, Alphabetical;
    OrdersAreTotal();
    WrittenWhole(t);
    var rest, i := t.byName.Keys, 0;
    while rest != {}
      invariant 0 <= i <= |t.byName| && rest <= t.byName.Keys && Listed(t)[i..] == Alphabetical(rest)
      invariant s.data == front + Written(t, i)
    {
      var name := FirstOf(rest, ByText());
      NextName(t, rest, name, i);
      WrittenSteps(front, t, i, name);
      SerialiseEntry(s, t.byName[name], name, origSize, i);
      rest, i := rest - {name}, i + 1;
    }
    NamesRunOut(t, i);
  }

  /** The id, the name and its terminator, then the header of the entry. */
  method SerialiseEntry(s: Serialiser, id: nat, name: Text, origSize: nat, i: nat)
    requires origSize + 40 + 16 * (i + 1) <= |s.data|
    modifies s
    ensures s.data == Patched(old(s.data) + EntryBody(id, name), origSize + 40 + i * 16,
      EntryHeader(|old(s.data)| - origSize, name))
  {
    var ourOffset := |s.data| - origSize;
    var _ := s.Append(LE(id, 4));
    var _ := s.Append(name + [0]);
    assert s.data == old(s.data) + EntryBody(id, name);
    s.Overwrite(origSize + 40, EntryHeader(ourOffset, name), i);
  }

  method Serialise(t: Names, s: Serialiser) returns (size: nat)
    requires Consistent(t)
    modifies s
    ensures s.data == old(s.data) + EncodeNames(t) && size == |EncodeNames(t)|
  {
    hide Blank, Words, Entries, LE, Nums, Consistent, Patched;
    SameSize(t);
    SizeIsExact(t);
    var origSize, count := |s.data|, |t.byId|;
    ghost var before, header := s.data, Words(HeaderWords(0, count, t.next, 0));
    var _ := s.Append(Words(HeaderWords(0, count, t.next, 0)));
    AppendBlank(s, 16, count);
    SerialiseEntries(t, s, origSize, before + header);
    size := |s.data| - origSize;
    var poolOffset := size;
    SerialisePool(t.pool, s);
    size := size + 4 * |t.pool|;
    HeaderFinished(before, header, t);
    s.Overwrite(origSize, Words(HeaderWords(size, count, t.next, poolOffset)), 0);
  }

  lemma HeaderFinished(before: seq<Byte>, header: seq<Byte>, t: Names)
    requires |header| == 40 == |TableHeader(t)|
    ensures var data := before + header + Entries(t) + Nums(t.pool, 4);
      |before| + 40 <= |data| && Patched(data, |before|, TableHeader(t)) == before + EncodeNames(t)
  {
    hide Entries, Nums, TableHeader, Patched;
    PatchMiddle(before, header, Entries(t) + Nums(t.pool, 4), TableHeader(t));
    FourParts(before, header, Entries(t), Nums(t.pool, 4));
    FourParts(before, TableHeader(t), Entries(t), Nums(t.pool, 4));
  }

  method SerialisePool(pool: seq<nat>, s: Serialiser)
    modifies s
    ensures s.data == old(s.data) + Nums(pool, 4)
  {
    hide LE;
    for j := 0 to |pool|
      invariant s.data == old(s.data) + Nums(pool[..j], 4)
    {
      var _ := s.Append(LE(pool[j], 4));
      assert pool[..j + 1] == pool[..j] + [pool[j]];
      NumsConcat(pool[..j], [pool[j]], 4);
      NumsOne(pool[j], 4);
    }
    assert pool[..|pool|] == pool;
  }

  method Unserialise(bs: seq<Byte>, length: nat) returns (r: Result<Names>)
    ensures r == DecodeNames(bs, length)
  {
    hide Num, From, CString, Plus, Inserted;
    var size :- Num(bs, 0, 8);
    if size != length { return Err(Rejected); }
    var next :- Num(bs, 16, 4);
    var count :- Num(bs, 8, 8);
    var byId: map<nat, Text>, byName: map<Text, nat> := map[], map[];
    for i := 0 to count
      invariant DecodeNames(bs, length) == DecodeNameEntries(bs, length, count, i, Names(next, [], byId, byName))
    {
      var e := 40 + 16 * i;
      if e >= length { return Err(Rejected); }
      var offset :- Num(bs, e, 8);
      if offset >= length { return Err(Rejected); }
      var stringSize :- Num(bs, e + 8, 8);
      if Plus(offset, stringSize) > length { return Err(Rejected); }
      if stringSize > 0 {
        var last :- Num(bs, offset + 4 + stringSize - 1, 1);
        if last != 0 { return Err(Rejected); }
      }
      var id :- Num(bs, offset, 4);
      var data :- From(bs, offset + 4);
      var name :- CString(data);
      byId, byName := Inserted(byId, id, name), Inserted(byName, name, id);
    }
    r := Ok(Names(next, [], byId, byName));
  }
}
