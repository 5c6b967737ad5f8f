/** The whole graph as bytes: a header that locates five sections, and behind it
    the type names, the property names, the property types, the link table and the
    entities. */
module GraphFile {
  import opened Bytes
  import opened Directory
  import opened Entities
  import opened Listings
  import LinkTable
  import NameTable
  import PrimitiveMap
  import opened Paths
  import opened Properties
  import opened Records
  import opened RecordStreams

  type Handle = nat

  datatype Graph = Graph(entities: map<Handle, Entity>, links: LinkTable.Links, typeNames: NameTable.Names,
                         propertyNames: NameTable.Names, propertyTypes: PrimitiveMap.Codes)

  ghost predicate SoundEntities(g: Graph) {
    forall h :: h in g.entities ==> SoundEntity(g.entities[h]) && g.entities[h].handle == h != 0
  }

  ghost predicate SoundTables(g: Graph) {
    && LinkTable.HandlesFit(g.links) && PrimitiveMap.CodesFit(g.propertyTypes)
    && NameTable.Consistent(g.typeNames) && NameTable.NamesFit(g.typeNames)
    && NameTable.Consistent(g.propertyNames) && NameTable.NamesFit(g.propertyNames)
  }

  /** What the classes guarantee of a graph in memory. */
  ghost predicate SoundGraph(g: Graph) { SoundEntities(g) && SoundTables(g) }

  // ---------- the layout ----------

  ghost function Handles(g: Graph): (hs: seq<nat>)
    ensures |hs| == |g.entities| && Distinct(hs) && forall h :: h in hs <==> h in g.entities
  {
    OrdersAreTotal();
    ListingLists(g.entities.Keys, AtMost());
    Ascending(g.entities.Keys)
  }

  ghost function EntityAt(g: Graph, i: nat): (e: Entity)
    requires SoundEntities(g) && i < |g.entities|
    ensures SoundEntity(e) && e.handle == Handles(g)[i] != 0 && e.handle in g.entities && e == g.entities[e.handle]
  {
    assert Handles(g)[i] in Handles(g);
    g.entities[Handles(g)[i]]
  }

  ghost function Bodies(g: Graph): (bodies: seq<seq<Byte>>)
    requires SoundEntities(g)
    ensures |bodies| == |g.entities|
  {
    seq(|g.entities|, i requires 0 <= i < |g.entities| => EncodeEntity(EntityAt(g, i)))
  }

  /** Entity headers hold offsets from the start of the section. A serialiser that
      already held base bytes shifts them by as many. */
  ghost function Headers(bodies: seq<seq<Byte>>, base: nat): (headers: seq<seq<Byte>>)
    ensures |headers| == |bodies| && Uniform(headers, 16)
  {
    seq(|bodies|, i requires 0 <= i < |bodies| => Words([base + (8 + 16 * |bodies|) + Start(bodies, i), |bodies[i]|]))
  }

  /** The number of entities, their headers, and the entities. */
  ghost function Section(bodies: seq<seq<Byte>>, base: nat): seq<Byte> {
    Words([|bodies|]) + Laid(Headers(bodies, base), [], bodies)
  }

  ghost function EntityData(g: Graph, base: nat): seq<Byte>
    requires SoundEntities(g)
  {
    Section(Bodies(g), base)
  }

  ghost function Sections(g: Graph, base: nat): (parts: seq<seq<Byte>>)
    requires SoundEntities(g)
    ensures |parts| == 5
  {
    [NameTable.EncodeNames(g.typeNames), NameTable.EncodeNames(g.propertyNames), PrimitiveMap.EncodeMap(g.propertyTypes),
     LinkTable.EncodeLinks(g.links), EntityData(g, base)]
  }

  /** Version, total size, then offset and length of every section. */
  function FileHeader(size: nat, o: seq<nat>, l: seq<nat>): (bs: seq<Byte>)
    requires |o| == |l| == 5
    ensures |bs| == 96
  {
    Words([2, size, o[0], l[0], o[1], l[1], o[2], l[2], o[3], l[3], o[4], l[4]])
  }

  ghost function Offsets(parts: seq<seq<Byte>>): (o: seq<nat>)
    ensures |o| == |parts|
  {
    seq(|parts|, i requires 0 <= i < |parts| => 96 + Start(parts, i))
  }

  ghost function Lengths(parts: seq<seq<Byte>>): (l: seq<nat>)
    ensures |l| == |parts|
  {
    seq(|parts|, i requires 0 <= i < |parts| => |parts[i]|)
  }

  /** The length of the last section is counted from the front of the serialiser. */
  ghost function EncodeGraph(g: Graph, base: nat): seq<Byte>
    requires SoundEntities(g)
  {
    var parts := Sections(g, base);
    var l := Lengths(parts);
    FileHeader(96 + |Concat(parts)|, Offsets(parts), l[4 := l[4] + base]) + Concat(parts)
  }

  // ---------- reading it back ----------

  /** The entity whose header is number i of the section at start. */
  function DecodeEntityAt(bs: seq<Byte>, length: nat, start: nat, i: nat, record: Value): Result<Entity> {
    var h := start + 8 + 16 * i;
    var _ :- Need(h < length);
    var offset :- Num(bs, h, 8);
    var at := Plus(start, offset);
    var _ :- Need(at < length);
    var size :- Num(bs, h + 8, 8);
    var _ :- Need(Plus(offset, size) <= length);
    var data :- From(bs, at);
    DecodeEntity(data, size, record)
  }

  function DecodeEntities(bs: seq<Byte>, length: nat, start: nat, count: nat, i: nat, got: map<Handle, Entity>, record: Value): Result<map<Handle, Entity>>
    decreases count - i
  {
    if i >= count then Ok(got)
    else
      var e :- DecodeEntityAt(bs, length, start, i, record);
      // EntityManager::insertEntity
      var _ :- Assert(e.handle != 0 && e.handle !in got);
      DecodeEntities(bs, length, start, count, i + 1, got[e.handle := e], record)
  }

  /** GraphSerialiser::unserialise up to its handler; version and total size are
      not looked at. */
  function DecodeGraph(bs: seq<Byte>, length: nat, record: Value): Result<Graph> {
    var o0 :- Num(bs, 16, 8);
    var l0 :- Num(bs, 24, 8);
    var s0 :- From(bs, o0);
    var typeNames :- NameTable.DecodeNames(s0, l0);
    var o1 :- Num(bs, 32, 8);
    var l1 :- Num(bs, 40, 8);
    var s1 :- From(bs, o1);
    var propertyNames :- NameTable.DecodeNames(s1, l1);
    var o2 :- Num(bs, 48, 8);
    var l2 :- Num(bs, 56, 8);
    var s2 :- From(bs, o2);
    var propertyTypes :- PrimitiveMap.DecodeMap(s2, l2);
    var o3 :- Num(bs, 64, 8);
    var l3 :- Num(bs, 72, 8);
    var s3 :- From(bs, o3);
    var links :- LinkTable.DecodeLinks(s3, l3);
    var o4 :- Num(bs, 80, 8);
    var count :- Num(bs, o4, 8);
    var entities :- DecodeEntities(bs, length, o4, count, 0, map[], record);
    Ok(Graph(entities, links, typeNames, propertyNames, propertyTypes))
  }

  // ---------- what comes back ----------

  ghost function ReloadedEntities(g: Graph): map<Handle, Entity>
    requires SoundEntities(g)
  {
    map h | h in g.entities :: ReloadedEntity(g.entities[h])
  }

  ghost function ReloadedGraph(g: Graph): Graph
    requires SoundEntities(g)
  {
    Graph(ReloadedEntities(g), g.links, g.typeNames.(pool := []), g.propertyNames.(pool := []), g.propertyTypes)
  }

  ghost predicate LoadableGraph(g: Graph) {
    forall h :: h in g.entities ==> LoadableEntity(g.entities[h])
  }

  // ---------- the entity section ----------

  ghost predicate EntityStands(bs: seq<Byte>, length: nat, start: nat, g: Graph, i: nat, record: Value)
    requires SoundEntities(g) && i < |g.entities|
  {
    DecodeEntityAt(bs, length, start, i, record)
      == if LoadableEntity(EntityAt(g, i)) then Ok(ReloadedEntity(EntityAt(g, i))) else Err(Rejected)
  }

  lemma EntityHeaderReadsBack(bs: seq<Byte>, h: nat, offset: nat, size: nat, more: seq<Byte>)
    requires From(bs, h) == Ok(Words([offset, size]) + more) && offset < WORD_LIMIT && size < WORD_LIMIT
    ensures Num(bs, h, 8) == Ok(offset) && Num(bs, h + 8, 8) == Ok(size)
  {
    hide Num, From, Nums, Pow256;
    var header := Words([offset, size]) + more;
    WordsReadBack([offset, size], more);
    assert Num(header, 8 * 0, 8) == Ok(offset) && Num(header, 8 * 1, 8) == Ok(size);
    NumFrom(bs, h, header, 0, 8);
    NumFrom(bs, h, header, 8, 8);
  }

  /** Where the pieces of a written section stand, in a file where it starts at start. */
  lemma PiecesStand(bs: seq<Byte>, start: nat, bodies: seq<seq<Byte>>, i: nat) returns (more: seq<Byte>, more': seq<Byte>)
    requires i < |bodies| && From(bs, start) == Ok(Section(bodies, 0))
    ensures From(bs, start + (8 + 16 * i)) == Ok(Headers(bodies, 0)[i] + more)
    ensures From(bs, start + (8 + 16 * |bodies| + Start(bodies, i))) == Ok(bodies[i] + more')
    ensures 8 + 16 * |bodies| + Start(bodies, i) + |bodies[i]| <= |Section(bodies, 0)|
  {
    hide From, Nums, Laid, Start, Concat, Headers;
    var head, headers, data := Words([|bodies|]), Headers(bodies, 0), Section(bodies, 0);
    assert head + Laid(headers, [], bodies) + [] == data;
    LaidSize(headers, 16, [], bodies);
    more := HeaderStands(head, headers, 16, [], bodies, [], i);
    more' := BodyStands(head, headers, 16, [], bodies, [], i);
    FromFrom(bs, start, data, 8 + 16 * i);
    FromFrom(bs, start, data, 8 + 16 * |bodies| + Start(bodies, i));
  }

  lemma EntityStandsAt(bs: seq<Byte>, length: nat, start: nat, g: Graph, i: nat, record: Value)
    requires SoundEntities(g) && i < |g.entities| && From(bs, start) == Ok(EntityData(g, 0))
    requires start + |EntityData(g, 0)| == length < WORD_LIMIT
    ensures EntityStands(bs, length, start, g, i, record)
  {
    hide From, Num, Nums, Laid, Start, Concat, EncodeEntity, DecodeEntity, Section, Bodies, Headers, SoundEntities, LoadableEntity, ReloadedEntity;
    var e, bodies := EntityAt(g, i), Bodies(g);
    var more, more' := PiecesStand(bs, start, bodies, i);
    BodyIs(g, i);
    HeaderAt(bodies, 0, i);
    var offset, size := 8 + 16 * |bodies| + Start(bodies, i), |bodies[i]|;
    EntityNotEmpty(e);
    EntityHeaderReadsBack(bs, start + (8 + 16 * i), offset, size, more);
    EntityReadsBack(e, more', record);
    assert start + 8 + 16 * i == start + (8 + 16 * i);
    assert Plus(start, offset) == start + offset && Plus(offset, size) == offset + size;
  }

  lemma EntityNotEmpty(e: Entity)
    requires SoundEntity(e)
    ensures |EncodeEntity(e)| >= 60
  {
    hide EncodeOwner, SoundOwner;
    EntityPlaces(e, []);
  }

  lemma EntityJoins(bs: seq<Byte>, length: nat, start: nat, count: nat, i: nat, got: map<Handle, Entity>, record: Value, e: Entity)
    requires i < count && DecodeEntityAt(bs, length, start, i, record) == Ok(e) && e.handle != 0 && e.handle !in got
    ensures DecodeEntities(bs, length, start, count, i, got, record)
         == DecodeEntities(bs, length, start, count, i + 1, got[e.handle := e], record)
  {
    hide DecodeEntityAt;
  }

  lemma EntityStops(bs: seq<Byte>, length: nat, start: nat, count: nat, i: nat, got: map<Handle, Entity>, record: Value)
    requires i < count && DecodeEntityAt(bs, length, start, i, record) == Err(Rejected)
    ensures DecodeEntities(bs, length, start, count, i, got, record) == Err(Rejected)
  {
    hide DecodeEntityAt;
  }

  lemma EntitiesEnd(bs: seq<Byte>, length: nat, start: nat, count: nat, got: map<Handle, Entity>, record: Value)
    ensures DecodeEntities(bs, length, start, count, count, got, record) == Ok(got)
  {
  }

  ghost function Read(g: Graph, i: nat): map<Handle, Entity>
    requires SoundEntities(g) && i <= |g.entities|
  {
    Restricted(ReloadedEntities(g), Handles(g)[..i])
  }

  lemma ReadGrows(g: Graph, i: nat, e: Entity)
    requires SoundEntities(g) && i < |g.entities| && e == ReloadedEntity(EntityAt(g, i))
    ensures e.handle == EntityAt(g, i).handle && e.handle !in Read(g, i) && Read(g, i)[e.handle := e] == Read(g, i + 1)
  {
    hide *;
    ReloadedMembers(EntityAt(g, i));
    HandleAt(g, i);
    NotYet(ReloadedEntities(g), Handles(g), i);
    RestrictedGrows(ReloadedEntities(g), Handles(g), i);
    ReadIs(g, i);
    ReadIs(g, i + 1);
  }

  lemma ReadIs(g: Graph, i: nat)
    requires SoundEntities(g) && i <= |g.entities|
    ensures Read(g, i) == Restricted(ReloadedEntities(g), Handles(g)[..i])
  {
    hide ReloadedEntities, Restricted, SoundEntities;
  }

  lemma HandleAt(g: Graph, i: nat)
    requires SoundEntities(g) && i < |g.entities|
    ensures Handles(g)[i] == EntityAt(g, i).handle && Handles(g)[i] in ReloadedEntities(g)
    ensures ReloadedEntities(g)[Handles(g)[i]] == ReloadedEntity(EntityAt(g, i))
  {
    hide ReloadedEntity, SoundEntity;
  }

  lemma NotYet(m: map<Handle, Entity>, ks: seq<nat>, i: nat)
    requires i < |ks| && Distinct(ks) && ks[i] in m
    ensures ks[i] !in Restricted(m, ks[..i])
    ensures Inserted(Restricted(m, ks[..i]), ks[i], m[ks[i]]) == Restricted(m, ks[..i])[ks[i] := m[ks[i]]]
  {
  }

  lemma ReadEnds(g: Graph)
    requires SoundEntities(g)
    ensures Read(g, 0) == map[] && Read(g, |g.entities|) == ReloadedEntities(g)
  {
    hide ReloadedEntity, SoundEntity, Restricted, Distinct;
    assert Handles(g)[..0] == [] && Handles(g)[..|g.entities|] == Handles(g);
    RestrictedEnds(ReloadedEntities(g), Handles(g));
  }

  ghost predicate LoadableFrom(g: Graph, i: nat)
    requires SoundEntities(g)
  {
    forall j :: i <= j < |g.entities| ==> LoadableEntity(EntityAt(g, j))
  }

  lemma LoadableFromStart(g: Graph)
    requires SoundEntities(g)
    ensures LoadableFrom(g, 0) <==> LoadableGraph(g)
  {
    hide LoadableEntity, SoundEntity;
    if LoadableFrom(g, 0) {
      forall h | h in g.entities ensures LoadableEntity(g.entities[h]) {
        var i :| 0 <= i < |g.entities| && Handles(g)[i] == h;
        assert LoadableEntity(EntityAt(g, i));
      }
    }
  }

  lemma {:induction false} EntitiesReadBack(bs: seq<Byte>, length: nat, start: nat, g: Graph, i: nat, record: Value)
    requires SoundEntities(g) && i <= |g.entities| && From(bs, start) == Ok(EntityData(g, 0))
    requires start + |EntityData(g, 0)| == length < WORD_LIMIT
    ensures DecodeEntities(bs, length, start, |g.entities|, i, Read(g, i), record)
         == if LoadableFrom(g, i) then Ok(ReloadedEntities(g)) else Err(Rejected)
    decreases |g.entities| - i
  {
    hide From, DecodeEntities, DecodeEntityAt, EntityData, SoundEntities, SoundEntity, LoadableEntity, Read, ReloadedEntity, ReloadedEntities, EntityAt;
    var n := |g.entities|;
    if i == n {
      EntitiesEnd(bs, length, start, n, Read(g, n), record);
      ReadEnds(g);
      return;
    }
    EntityStandsAt(bs, length, start, g, i, record);
    if LoadableEntity(EntityAt(g, i)) {
      ReadGrows(g, i, ReloadedEntity(EntityAt(g, i)));
      EntityJoins(bs, length, start, n, i, Read(g, i), record, ReloadedEntity(EntityAt(g, i)));
      EntitiesReadBack(bs, length, start, g, i + 1, record);
    } else {
      EntityStops(bs, length, start, n, i, Read(g, i), record);
    }
  }

  // ---------- the file as a whole ----------

  lemma FileHeaderReads(size: nat, o: seq<nat>, l: seq<nat>, rest: seq<Byte>)
    requires |o| == |l| == 5 && size < WORD_LIMIT
    requires forall i :: 0 <= i < 5 ==> o[i] < WORD_LIMIT && l[i] < WORD_LIMIT
    ensures var bs := FileHeader(size, o, l) + rest;
      forall i :: 0 <= i < 5 ==> Num(bs, HeaderField(i), 8) == Ok(o[i]) && Num(bs, HeaderField(i) + 8, 8) == Ok(l[i])
  {
    hide Num, Nums;
    var ws := [2, size, o[0], l[0], o[1], l[1], o[2], l[2], o[3], l[3], o[4], l[4]];
    WordsReadBack(ws, rest);
    var bs := Words(ws) + rest;
    forall i | 0 <= i < 5
      ensures Num(bs, HeaderField(i), 8) == Ok(o[i]) && Num(bs, HeaderField(i) + 8, 8) == Ok(l[i])
    {
      assert ws[2 + 2 * i] == o[i] && ws[3 + 2 * i] == l[i];
      assert Num(bs, 8 * (2 + 2 * i), 8) == Ok(ws[2 + 2 * i]) && Num(bs, 8 * (3 + 2 * i), 8) == Ok(ws[3 + 2 * i]);
      assert 8 * (2 + 2 * i) == HeaderField(i) && 8 * (3 + 2 * i) == HeaderField(i) + 8;
    }
  }

  /** Where the offset of section i is kept. */
  function HeaderField(i: nat): nat { 16 + 16 * i }

  /** Section i of a written file: its place, its length, and what is behind it. */
  ghost predicate SectionStands(bs: seq<Byte>, g: Graph, i: nat)
    requires SoundEntities(g) && i < 5
  {
    var parts := Sections(g, 0);
    var o, l := 96 + Start(parts, i), |parts[i]|;
    && Num(bs, HeaderField(i), 8) == Ok(o) && Num(bs, HeaderField(i) + 8, 8) == Ok(l)
    && From(bs, o) == Ok(parts[i] + Concat(parts[i + 1..])) && o + l <= |bs|
  }

  /** The sections of a file written by a fresh serialiser lie end to end, and
      every header field says where. */
  lemma SectionsStand(g: Graph)
    requires SoundEntities(g) && |EncodeGraph(g, 0)| < WORD_LIMIT
    ensures forall i :: 0 <= i < 5 ==> SectionStands(EncodeGraph(g, 0), g, i)
    ensures |EncodeGraph(g, 0)| == 96 + Start(Sections(g, 0), 4) + |EntityData(g, 0)|
  {
    hide Num, Concat, Start, Sections, SoundEntities, FileHeader;
    var parts, bs := Sections(g, 0), EncodeGraph(g, 0);
    var o, l, size := Offsets(parts), Lengths(parts), 96 + |Concat(parts)|;
    assert l[4 := l[4] + 0] == l;
    forall i | 0 <= i < 5
      ensures From(bs, 96 + Start(parts, i)) == Ok(parts[i] + Concat(parts[i + 1..])) && o[i] + l[i] <= |bs|
    {
      PartAt(FileHeader(size, o, l), parts, [], i);
      assert FileHeader(size, o, l) + Concat(parts) + [] == bs;
      assert Concat(parts[i + 1..]) + [] == Concat(parts[i + 1..]);
    }
    FileHeaderReads(size, o, l, Concat(parts));
    LastSection(g, parts);
  }

  lemma LastSection(g: Graph, parts: seq<seq<Byte>>)
    requires SoundEntities(g) && parts == Sections(g, 0)
    ensures |Concat(parts)| == Start(parts, 4) + |EntityData(g, 0)|
  {
    hide Concat, EntityData, SoundEntities, NameTable.EncodeNames, PrimitiveMap.EncodeMap, LinkTable.EncodeLinks;
    ConcatGrows(parts, 4);
    assert parts[..5] == parts;
  }

  lemma SectionList(g: Graph)
    requires SoundEntities(g)
    ensures var parts := Sections(g, 0);
      && parts[0] == NameTable.EncodeNames(g.typeNames) && parts[1] == NameTable.EncodeNames(g.propertyNames)
      && parts[2] == PrimitiveMap.EncodeMap(g.propertyTypes) && parts[3] == LinkTable.EncodeLinks(g.links)
      && parts[4] == EntityData(g, 0) && Concat(parts[5..]) == []
  {
    hide EntityData, SoundEntities, NameTable.EncodeNames, PrimitiveMap.EncodeMap, LinkTable.EncodeLinks;
    assert Sections(g, 0)[5..] == [];
  }

  /** The first four sections of a written file decode to what they were written from. */
  lemma TablesReadBack(bs: seq<Byte>, g: Graph, i: nat)
    requires SoundEntities(g) && SoundTables(g) && i < 4 && SectionStands(bs, g, i) && |bs| < WORD_LIMIT
    ensures var parts := Sections(g, 0); var d := From(bs, 96 + Start(parts, i));
      d.Ok? && match i
        case 0 => NameTable.DecodeNames(d.value, |parts[0]|) == Ok(g.typeNames.(pool := []))
        case 1 => NameTable.DecodeNames(d.value, |parts[1]|) == Ok(g.propertyNames.(pool := []))
        case 2 => PrimitiveMap.DecodeMap(d.value, |parts[2]|) == Ok(g.propertyTypes)
        case _ => LinkTable.DecodeLinks(d.value, |parts[3]|) == Ok(g.links)
  {
    hide Num, From, Concat, Start, Sections, SoundEntities, NameTable.EncodeNames, PrimitiveMap.EncodeMap, LinkTable.EncodeLinks,
      NameTable.DecodeNames, PrimitiveMap.DecodeMap, LinkTable.DecodeLinks, NameTable.Consistent, NameTable.NamesFit,
      PrimitiveMap.CodesFit, LinkTable.HandlesFit;
    SectionList(g);
    var after := Concat(Sections(g, 0)[i + 1..]);
    if i == 0 { NameTable.NamesReadBack(g.typeNames, after, |Sections(g, 0)[0]|); }
    if i == 1 { NameTable.NamesReadBack(g.propertyNames, after, |Sections(g, 0)[1]|); }
    if i == 2 { PrimitiveMap.MapReadsBack(g.propertyTypes, after, |Sections(g, 0)[2]|); }
    if i == 3 { LinkTable.LinksReadBack(g.links, after, |Sections(g, 0)[3]|); }
  }

  lemma EntitiesDecode(bs: seq<Byte>, g: Graph, record: Value)
    requires SoundEntities(g) && SectionStands(bs, g, 4) && |bs| == 96 + Start(Sections(g, 0), 4) + |EntityData(g, 0)| < WORD_LIMIT
    ensures var start := 96 + Start(Sections(g, 0), 4);
      && Num(bs, start, 8) == Ok(|g.entities|)
      && DecodeEntities(bs, |bs|, start, |g.entities|, 0, map[], record)
           == if LoadableGraph(g) then Ok(ReloadedEntities(g)) else Err(Rejected)
  {
    hide Num, From, Start, Sections, SectionStands, SoundEntities, EntityData, DecodeEntities, LoadableGraph, LoadableFrom, ReloadedEntities, Read;
    var start := 96 + Start(Sections(g, 0), 4);
    EntityDataStands(bs, g);
    CountStands(bs, start, g);
    ReadEnds(g);
    LoadableFromStart(g);
    EntitiesReadBack(bs, |bs|, start, g, 0, record);
  }

  lemma EntityDataStands(bs: seq<Byte>, g: Graph)
    requires SoundEntities(g) && SectionStands(bs, g, 4)
    ensures From(bs, 96 + Start(Sections(g, 0), 4)) == Ok(EntityData(g, 0))
  {
    hide *;
    SectionList(g);
    SectionField(bs, g, 4);
    NothingMore(EntityData(g, 0));
  }

  lemma NothingMore(a: seq<Byte>)
    ensures a + [] == a
  {
  }

  lemma SectionField(bs: seq<Byte>, g: Graph, i: nat)
    requires SoundEntities(g) && i < 5 && SectionStands(bs, g, i)
    ensures var parts := Sections(g, 0);
      && Num(bs, 16 + 16 * i, 8) == Ok(96 + Start(parts, i)) && Num(bs, 24 + 16 * i, 8) == Ok(|parts[i]|)
      && From(bs, 96 + Start(parts, i)) == Ok(parts[i] + Concat(parts[i + 1..]))
  {
    hide Num, From, Concat, Start, Sections, SoundEntities;
    assert HeaderField(i) + 8 == 24 + 16 * i;
  }

  lemma CountStands(bs: seq<Byte>, start: nat, g: Graph)
    requires SoundEntities(g) && From(bs, start) == Ok(EntityData(g, 0)) && |bs| < WORD_LIMIT
    ensures Num(bs, start, 8) == Ok(|g.entities|)
  {
    hide Num, From, Nums, Laid, SoundEntities;
    LaidSize(Headers(Bodies(g), 0), 16, [], Bodies(g));
    FromShorter(bs, start, EntityData(g, 0));
    WordsReadBack([|g.entities|], Laid(Headers(Bodies(g), 0), [], Bodies(g)));
    assert Num(EntityData(g, 0), 8 * 0, 8) == Ok(|g.entities|);
    NumFrom(bs, start, EntityData(g, 0), 0, 8);
  }

  lemma FromShorter(bs: seq<Byte>, start: nat, d: seq<Byte>)
    requires From(bs, start) == Ok(d)
    ensures |d| <= |bs|
  {
  }

  /** For every sound graph: the bytes a fresh serialiser writes are read back as
      the reloaded graph if every entity can be loaded, and are rejected if not. */
  lemma GraphReadsBack(g: Graph, record: Value)
    requires SoundEntities(g) && SoundTables(g) && |EncodeGraph(g, 0)| < WORD_LIMIT
    ensures DecodeGraph(EncodeGraph(g, 0), |EncodeGraph(g, 0)|, record)
         == if LoadableGraph(g) then Ok(ReloadedGraph(g)) else Err(Rejected)
  {
    hide Num, From, Concat, Start, Sections, SoundEntities, EntityData, EncodeGraph, DecodeEntities, LoadableGraph, ReloadedEntities,
      NameTable.DecodeNames, PrimitiveMap.DecodeMap, LinkTable.DecodeLinks, NameTable.Consistent, NameTable.NamesFit,
      PrimitiveMap.CodesFit, LinkTable.HandlesFit, SoundTables, SectionStands;
    var bs := EncodeGraph(g, 0);
    SectionsStand(g);
    SectionField(bs, g, 0);
    SectionField(bs, g, 1);
    SectionField(bs, g, 2);
    SectionField(bs, g, 3);
    SectionField(bs, g, 4);
    TablesReadBack(bs, g, 0);
    TablesReadBack(bs, g, 1);
    TablesReadBack(bs, g, 2);
    TablesReadBack(bs, g, 3);
    EntitiesDecode(bs, g, record);
  }

  // ---------- member by member ----------

  /** NameManager's equality: the entries of a, in order, against as many of b, the
      next id, and the number of released ids. */
  ghost predicate NamesEqual(a: NameTable.Names, b: NameTable.Names) {
    && Ascending(a.byId.Keys) <= Ascending(b.byId.Keys)
    && (forall id :: id in a.byId && id in b.byId ==> a.byId[id] == b.byId[id])
    && a.next == b.next && |a.pool| == |b.pool|
  }

  /** EntityManager::memberwiseEqual. */
  ghost predicate GraphEqual(a: Graph, b: Graph) {
    && |a.entities| == |b.entities|
    && (forall h :: h in a.entities ==> h in b.entities && EntityEqual(a.entities[h], b.entities[h]))
    && a.links == b.links && NamesEqual(a.typeNames, b.typeNames) && NamesEqual(a.propertyNames, b.propertyNames)
    && a.propertyTypes == b.propertyTypes
  }

  lemma GraphEqualsItself(g: Graph)
    ensures GraphEqual(g, g)
  {
  }

  /** What a save and a load keep: no id of a name has been released, and every
      entity is unchanging. */
  ghost predicate Keeps(g: Graph) {
    && g.typeNames.pool == [] && g.propertyNames.pool == []
    && forall h :: h in g.entities ==> Unchanging(g.entities[h])
  }

  ghost predicate OrderedGraph(g: Graph) {
    forall h :: h in g.entities ==> Ordered(g.entities[h].owner)
  }

  /** A graph that was saved and loaded equals the original, member by member,
      exactly when no name id was released, every entity is unchanging, and every
      list is in order. */
  lemma GraphRoundTripIff(g: Graph)
    requires SoundEntities(g)
    ensures GraphEqual(g, ReloadedGraph(g)) <==> Keeps(g) && OrderedGraph(g)
  {
    hide ReloadedEntity, EntityEqual, Unchanging, SoundEntity, Ordered, Ascending;
    var r := ReloadedEntities(g);
    assert r.Keys == g.entities.Keys;
    assert |r| == |r.Keys| && |g.entities| == |g.entities.Keys|;
    forall h | h in g.entities ensures EntityEqual(g.entities[h], r[h]) <==> Unchanging(g.entities[h]) && Ordered(g.entities[h].owner) {
      EntityRoundTripIff(g.entities[h]);
    }
    if GraphEqual(g, ReloadedGraph(g)) {
      forall h | h in g.entities ensures Unchanging(g.entities[h]) && Ordered(g.entities[h].owner) { assert EntityEqual(g.entities[h], r[h]); }
    }
  }

  // ---------- the calls ----------

  /** EntityManager::entityList: by ascending handle. */
  method EntityList(g: Graph) returns (list: seq<Entity>)
    requires SoundEntities(g)
    ensures |list| == |g.entities| && forall i :: 0 <= i < |list| ==> list[i] == EntityAt(g, i)
  {
    hide Ascending, SoundEntity;
    list := [];
    HandlesAre(g);
    var rest := g.entities.Keys;
    while rest != {}
      invariant rest <= g.entities.Keys && |list| <= |g.entities| && Handles(g)[|list|..] == Ascending(rest)
      invariant forall i :: 0 <= i < |list| ==> list[i] == EntityAt(g, i)
    {
      var h := LeastOf(rest);
      AscendingStarts(h, rest);
      assert Handles(g)[|list|..][0] == h && Handles(g)[|list|..][1..] == Handles(g)[|list| + 1..];
      list, rest := list + [g.entities[h]], rest - {h};
    }
    AscendingEnds();
  }

  lemma HandlesAre(g: Graph)
    ensures Handles(g)[0..] == Ascending(g.entities.Keys)
  {
    assert Handles(g)[0..] == Handles(g);
  }

  /** The section when i entities have been written. */
  ghost function Written(g: Graph, base: nat, i: nat): seq<Byte>
    requires SoundEntities(g) && i <= |g.entities|
  {
    Partial(Headers(Bodies(g), base), 16, [], Bodies(g), i)
  }

  lemma WrittenEnds(g: Graph, base: nat)
    requires SoundEntities(g)
    ensures Written(g, base, 0) == Blank(16, |g.entities|)
    ensures Words([|g.entities|]) + Written(g, base, |g.entities|) == EntityData(g, base)
    ensures Start(Bodies(g), 0) == 0
  {
    hide SoundEntities, Headers, Bodies, Blank, Laid, Partial, Nums;
    var headers, bodies := Headers(Bodies(g), base), Bodies(g);
    PartialStarts(headers, 16, [], bodies);
    PartialEnds(headers, 16, [], bodies);
    assert bodies[..0] == [] && Blank(16, |g.entities|) + [] == Blank(16, |g.entities|);
  }

  lemma BodyIs(g: Graph, i: nat)
    requires SoundEntities(g) && i < |g.entities|
    ensures Bodies(g)[i] == EncodeEntity(EntityAt(g, i))
  {
    hide EncodeEntity, SoundEntities;
  }

  lemma HeaderAt(bodies: seq<seq<Byte>>, base: nat, i: nat)
    requires i < |bodies|
    ensures Headers(bodies, base)[i] == Words([base + (8 + 16 * |bodies|) + Start(bodies, i), |bodies[i]|])
  {
    hide Nums, Concat, Start;
  }

  /** Writing entity i and filling its header in. */
  lemma WrittenSteps(front: seq<Byte>, g: Graph, base: nat, i: nat, bodies: seq<seq<Byte>>, header: seq<Byte>)
    requires SoundEntities(g) && i < |g.entities| && bodies == Bodies(g) && header == Headers(bodies, base)[i]
    ensures |header| == 16 && |front| + i * 16 + 16 <= |front + Written(g, base, i) + bodies[i]|
    ensures Patched(front + Written(g, base, i) + bodies[i], |front| + i * 16, header) == front + Written(g, base, i + 1)
    ensures Start(bodies, i + 1) == Start(bodies, i) + |bodies[i]|
  {
    hide *;
    HeaderFillsIn(front, Headers(bodies, base), 16, [], bodies, i);
    ConcatGrows(bodies, i);
    WrittenIs(g, base, i);
    WrittenIs(g, base, i + 1);
  }

  lemma WrittenIs(g: Graph, base: nat, i: nat)
    requires SoundEntities(g) && i <= |g.entities|
    ensures Written(g, base, i) == Partial(Headers(Bodies(g), base), 16, [], Bodies(g), i)
  {
    hide Headers, Bodies, Partial, SoundEntities;
  }

  method SerialiseEntities(g: Graph, s: Serialiser, indexBase: nat, entityDataOffset: nat, ghost front: seq<Byte>)
    requires SoundEntities(g) && |front| == |s.data| == indexBase + entityDataOffset && s.data == front
    modifies s
    ensures s.data == front + EntityData(g, indexBase)
  {
    hide Written, Bodies, EncodeEntity, SoundEntity, Blank, Nums, Patched, Start, EntityData, Headers;
    WrittenEnds(g, indexBase);
    ghost var bodies := Bodies(g);
    var entList := EntityList(g);
    var n := |entList|;
    var _ := s.Append(Words([n]));
    ghost var head := front + Words([n]);
    var indexEntityHeaders := |s.data|;
    AppendBlank(s, 16, n);
    BlankSize(16, n);
    var indexEntityRawData := |s.data|;
    var rawEntByteCount := 0;
    for i := 0 to n
      invariant s.data == head + Written(g, indexBase, i) && rawEntByteCount == Start(Bodies(g), i)
    {
      BodyIs(g, i);
      HeaderAt(bodies, indexBase, i);
      WrittenSteps(head, g, indexBase, i, bodies, Headers(bodies, indexBase)[i]);
      SoundlyOwned(entList[i]);
      var bytes := Entities.Serialise(entList[i], s);
      s.Overwrite(indexEntityHeaders, Words([indexEntityRawData - entityDataOffset + rawEntByteCount, bytes]), i);
      rawEntByteCount := rawEntByteCount + bytes;
    }
    assert s.data == front + (Words([n]) + Written(g, indexBase, n));
  }

  lemma SoundlyOwned(e: Entity)
    requires SoundEntity(e)
    ensures SoundOwner(e.owner)
  {
    hide SoundOwner;
  }

  /** The sections one after the other. */
  ghost function FirstSections(g: Graph, base: nat, i: nat): seq<Byte>
    requires SoundEntities(g) && i <= 5
  {
    Concat(Sections(g, base)[..i])
  }

  lemma SectionAdds(front: seq<Byte>, g: Graph, base: nat, i: nat)
    requires SoundEntities(g) && i < 5
    ensures front + FirstSections(g, base, i) + Sections(g, base)[i] == front + FirstSections(g, base, i + 1)
    ensures |FirstSections(g, base, i)| == Start(Sections(g, base), i)
  {
    hide Sections, Concat, SoundEntities;
    ConcatGrows(Sections(g, base), i);
  }

  lemma AllSections(g: Graph, base: nat)
    requires SoundEntities(g)
    ensures FirstSections(g, base, 0) == [] && FirstSections(g, base, 5) == Concat(Sections(g, base))
  {
    hide Sections, SoundEntities;
    assert Sections(g, base)[..5] == Sections(g, base) && Sections(g, base)[..0] == [];
  }

  lemma SectionItems(g: Graph, base: nat)
    requires SoundEntities(g)
    ensures var parts := Sections(g, base);
      && parts[0] == NameTable.EncodeNames(g.typeNames) && parts[1] == NameTable.EncodeNames(g.propertyNames)
      && parts[2] == PrimitiveMap.EncodeMap(g.propertyTypes) && parts[3] == LinkTable.EncodeLinks(g.links)
      && parts[4] == EntityData(g, base)
  {
    hide EntityData, SoundEntities, NameTable.EncodeNames, PrimitiveMap.EncodeMap, LinkTable.EncodeLinks;
  }

  method Serialise(g: Graph, s: Serialiser) returns (size: nat)
    requires SoundEntities(g) && NameTable.Consistent(g.typeNames) && NameTable.Consistent(g.propertyNames)
    modifies s
    ensures s.data == old(s.data) + EncodeGraph(g, |old(s.data)|) && size == |EncodeGraph(g, |old(s.data)|)|
  {
    hide EncodeGraph, Sections, SoundEntities, EntityData, Nums, Patched, Concat, FirstSections, Start, NameTable.EncodeNames, PrimitiveMap.EncodeMap,
      LinkTable.EncodeLinks, NameTable.Consistent;
    var indexBase := |s.data|;
    ghost var before, blank := s.data, Words([2, 0, 0, 0, 0, 0, 0, 0, 0, 0, 0, 0]);
    ghost var front := before + blank;
    SectionItems(g, indexBase);
    AllSections(g, indexBase);
    var _ := s.Append(Words([2, 0, 0, 0, 0, 0, 0, 0, 0, 0, 0, 0]));
    var o0 := |s.data| - indexBase;
    var l0 := NameTable.Serialise(g.typeNames, s);
    SectionAdds(front, g, indexBase, 0);
    assert s.data == front + FirstSections(g, indexBase, 1);
    var o1 := |s.data| - indexBase;
    var l1 := NameTable.Serialise(g.propertyNames, s);
    SectionAdds(front, g, indexBase, 1);
    assert s.data == front + FirstSections(g, indexBase, 2);
    var o2 := |s.data| - indexBase;
    var l2 := PrimitiveMap.Serialise(g.propertyTypes, s);
    SectionAdds(front, g, indexBase, 2);
    assert s.data == front + FirstSections(g, indexBase, 3);
    var o3 := |s.data| - indexBase;
    var l3 := LinkTable.Serialise(g.links, s);
    SectionAdds(front, g, indexBase, 3);
    assert s.data == front + FirstSections(g, indexBase, 4);
    var o4 := |s.data| - indexBase;
    SerialiseEntities(g, s, indexBase, o4, s.data);
    SectionAdds(front, g, indexBase, 4);
    assert s.data == front + FirstSections(g, indexBase, 5);
    var l4 := |s.data| - o4;
    size := |s.data| - indexBase;
    var header := Words([2, size, o0, l0, o1, l1, o2, l2, o3, l3, o4, l4]);
    HeaderPatched(before, blank, FirstSections(g, indexBase, 5), header);
    HeaderIs(g, indexBase, [o0, o1, o2, o3, o4], [l0, l1, l2, l3, l4], size);
    s.Overwrite(indexBase, header, 0);
  }

  /** The finished header and the sections are the file. */
  lemma HeaderIs(g: Graph, base: nat, o: seq<nat>, l: seq<nat>, size: nat)
    requires SoundEntities(g) && |o| == |l| == 5 && size == 96 + |Concat(Sections(g, base))|
    requires forall i :: 0 <= i < 5 ==> o[i] == 96 + Start(Sections(g, base), i)
    requires forall i :: 0 <= i < 4 ==> l[i] == |Sections(g, base)[i]|
    requires l[4] == |Sections(g, base)[4]| + base
    ensures EncodeGraph(g, base) == Words([2, size, o[0], l[0], o[1], l[1], o[2], l[2], o[3], l[3], o[4], l[4]]) + Concat(Sections(g, base))
    ensures |EncodeGraph(g, base)| == size
  {
    hide Sections, SoundEntities, Concat, Start, Nums;
    var parts := Sections(g, base);
    assert Offsets(parts) == o;
    assert Lengths(parts)[4 := Lengths(parts)[4] + base] == l;
  }

  method Unserialise(bs: seq<Byte>, length: nat, record: Value) returns (r: Result<Graph>)
    ensures r == DecodeGraph(bs, length, record)
  {
    hide Num, From, Plus, DecodeEntity, NameTable.DecodeNames, PrimitiveMap.DecodeMap, LinkTable.DecodeLinks;
    var o0 :- Num(bs, 16, 8);
    var l0 :- Num(bs, 24, 8);
    var s0 :- From(bs, o0);
    var typeNames: NameTable.Names :- NameTable.Unserialise(s0, l0);
    var o1 :- Num(bs, 32, 8);
    var l1 :- Num(bs, 40, 8);
    var s1 :- From(bs, o1);
    var propertyNames: NameTable.Names :- NameTable.Unserialise(s1, l1);
    var o2 :- Num(bs, 48, 8);
    var l2 :- Num(bs, 56, 8);
    var s2 :- From(bs, o2);
    var propertyTypes: PrimitiveMap.Codes :- PrimitiveMap.Unserialise(s2, l2);
    var o3 :- Num(bs, 64, 8);
    var l3 :- Num(bs, 72, 8);
    var s3 :- From(bs, o3);
    var links: LinkTable.Links :- LinkTable.Unserialise(s3, l3);
    var o4 :- Num(bs, 80, 8);
    var count :- Num(bs, o4, 8);
    var entities: map<Handle, Entity> := map[];
    for i := 0 to count
      invariant DecodeEntities(bs, length, o4, count, 0, map[], record)
             == DecodeEntities(bs, length, o4, count, i, entities, record)
    {
      var h := o4 + 8 + 16 * i;
      if h >= length { return Err(Rejected); }
      var offset :- Num(bs, h, 8);
      var at := Plus(o4, offset);
      if at >= length { return Err(Rejected); }
      var size :- Num(bs, h + 8, 8);
      if Plus(offset, size) > length { return Err(Rejected); }
      var data :- From(bs, at);
      var e: Entity :- Entities.Unserialise(data, size, record);
      if e.handle == 0 || e.handle in entities { return Err(Fatal); }
      entities := entities[e.handle := e];
    }
    r := Ok(Graph(entities, links, typeNames, propertyNames, propertyTypes));
  }
}
