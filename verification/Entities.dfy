/** Entities as bytes, and when an entity that was written and read back equals
    the original member by member. */
module Entities {
  import opened Bytes
  import opened LinkGraph
  import opened MemberCodec
  import opened Properties
  import opened Records
  import opened RecordStreams
  import opened Reload
  import opened Sorting

  datatype Entity = Entity(handle: Handle, status: LinkStatus, owner: Owner)

  const TYPE := 2

  const MEMBERS := Shape([8, 4], 0)

  function StatusCode(st: LinkStatus): nat {
    match st
    case NotLinked => 0
    case Master => 1
    case Slave => 2
  }

  /** As the constructor leaves an entity, and every insert: it has a type. */
  ghost predicate SoundEntity(e: Entity) {
    && e.handle < WORD_LIMIT && SoundOwner(e.owner)
    && TYPE in e.owner.properties && e.owner.properties[TYPE].subtype == TypeID && e.owner.properties[TYPE].values != []
  }

  /** The reader takes every type in its tables, and no table ends in an empty
      property; relations are entity references. */
  ghost predicate LoadableEntity(e: Entity) { LoadableInto(e.owner, true) }

  // ---------- the layout ----------

  function EntityHeader(length: nat): (bs: seq<Byte>)
    ensures |bs| == 48
  {
    Words([1, 60 + length, 48, 12, 60, length])
  }

  function MembersOf(e: Entity): Members { Members([e.handle, StatusCode(e.status)], []) }

  ghost function EncodeEntity(e: Entity): seq<Byte>
    requires SoundOwner(e.owner)
  {
    EntityHeader(|EncodeOwner(e.owner)|) + (EncodeMembers(MEMBERS.widths, MembersOf(e)) + EncodeOwner(e.owner))
  }

  lemma MembersTake12(e: Entity)
    ensures |EncodeMembers(MEMBERS.widths, MembersOf(e))| == 12
  {
    var m, w := MembersOf(e).numbers, MEMBERS.widths;
    hide LE;
    assert w[..2] == w && m[..2] == m && w[..1] == [8] && m[..1] == [e.handle] && w[..0] == [] && m[..0] == [];
    PrimitivesGrow(w, m, 0);
    PrimitivesGrow(w, m, 1);
    assert Primitives([], []) == [] && Dynamics([]) == [];
  }

  // ---------- reading it back ----------

  /** The null entity that is filled while reading: it has a type record already. */
  function Null(record: Value): Owner {
    Owner(false, map[TYPE := Property(ConcreteSingle, TYPE, TypeID, [record])])
  }

  function StatusOf(code: nat): Result<LinkStatus> {
    if code == 0 then Ok(NotLinked) else if code == 1 then Ok(Master) else if code == 2 then Ok(Slave) else Err(Fatal)
  }

  /** EntitySerialiser::unserialise; record is the type record of a null entity. */
  function DecodeEntity(bs: seq<Byte>, length: nat, record: Value): Result<Entity> {
    var version :- Num(bs, 0, 2);
    var _ :- Need(version == 1);
    var size :- Num(bs, 8, 8);
    var _ :- Need(size == length);
    var memberOffset :- Num(bs, 16, 8);
    var _ :- Need(memberOffset < length);
    var memberLength :- Num(bs, 24, 8);
    var _ :- Need(Plus(memberOffset, memberLength) <= length);
    var propertyOffset :- Num(bs, 32, 8);
    var propertyLength :- Num(bs, 40, 8);
    var _ :- Need(Plus(propertyOffset, propertyLength) <= length);
    var _ :- Need(propertyOffset >= Plus(memberOffset, memberLength));
    var memberData :- From(bs, memberOffset);
    var read :- DecodeMembers(memberData, memberLength, MEMBERS);
    var status :- StatusOf(read.members.numbers[1]);
    var propertyData :- From(bs, propertyOffset);
    var owner :- DecodeOwner(propertyData, propertyLength, Null(record), true);
    Ok(Entity(read.members.numbers[0], status, owner))
  }

  // ---------- what comes back ----------

  /** As a reloaded owner, except that the type stays single-valued. */
  function ReloadedEntity(e: Entity): Entity
    requires SoundEntity(e)
  {
    var o := ReloadedOwner(e.owner);
    var types := ReloadedProperty(e.owner.properties[TYPE]).values;
    SortedSize(ReloadedValues(e.owner.properties[TYPE]));
    Entity(e.handle, e.status, o.(properties := o.properties[TYPE :=
      Property(ConcreteSingle, TYPE, TypeID, [types[|types| - 1].(orderingId := 0)])]))
  }

  lemma {:induction false} LastTypeWins(p: Property, vs: seq<Value>)
    requires p.kind == ConcreteSingle && p.subtype == TypeID
    requires forall i :: 0 <= i < |vs| ==> vs[i].subtype == TypeID
    ensures AppendEach(p, vs) == Done(if vs == [] then p else p.(values := [vs[|vs| - 1].(orderingId := 0)]))
  {
    if vs != [] { LastTypeWins(p, vs[..|vs| - 1]); }
  }

  lemma SortedTypes(vs: seq<Value>, t: SubType)
    requires forall i :: 0 <= i < |vs| ==> vs[i].subtype == t
    ensures |Sorted(vs)| == |vs| && forall i :: 0 <= i < |vs| ==> Sorted(vs)[i].subtype == t
  {
    hide Sorted;
    SortedIsValid(vs);
  }

  lemma NullAccepts(e: Entity, record: Value)
    requires SoundEntity(e)
    ensures Accepts(Null(record), e.owner)
    ensures Refilled(Null(record), e.owner) == ReloadedEntity(e).owner
  {
    hide Sorted, ReloadedValues, AppendEach, SoundProperty;
    var p, shell := e.owner.properties[TYPE], Null(record);
    TypesReload(p);
    var q := ReloadedProperty(p);
    assert SoundProperty(p, TYPE);
    KeyOfSound(p, TYPE);
    LastTypeWins(shell.properties[TYPE], q.values);
    forall k | k in e.owner.properties
      ensures Landed(shell, ReloadedProperty(e.owner.properties[k])).Done?
      ensures k != TYPE ==> Landed(shell, ReloadedProperty(e.owner.properties[k])) == Done(ReloadedProperty(e.owner.properties[k]))
    {
      KeyOfSound(e.owner.properties[k], k);
    }
    assert Refilled(shell, e.owner).properties == ReloadedEntity(e).owner.properties;
  }

  lemma TypesReload(p: Property)
    requires SoundProperty(p, TYPE) && p.subtype == TypeID && p.values != []
    ensures ReloadedProperty(p).values != []
    ensures forall i :: 0 <= i < |ReloadedProperty(p).values| ==> ReloadedProperty(p).values[i].subtype == TypeID
  {
    hide Sorted, SoundValue, ReloadedValue, SoundProperty;
    forall i | 0 <= i < |p.values| ensures ReloadedValues(p)[i].subtype == TypeID { SameTypes(p, TYPE, i); }
    SortedTypes(ReloadedValues(p), TypeID);
  }

  // ---------- the round trip ----------

  lemma EntityHeaderReads(length: nat, rest: seq<Byte>)
    requires 60 + length < WORD_LIMIT
    ensures var bs := EntityHeader(length) + rest;
      && Num(bs, 0, 2) == Ok(1) && Num(bs, 8, 8) == Ok(60 + length) && Num(bs, 16, 8) == Ok(48)
      && Num(bs, 24, 8) == Ok(12) && Num(bs, 32, 8) == Ok(60) && Num(bs, 40, 8) == Ok(length)
  {
    hide Num, Nums, Pow256;
    Widths();
    var ws := [1, 60 + length, 48, 12, 60, length];
    WordsReadBack(ws, rest);
    WordsNarrow(ws, 2, rest);
    var bs := Words(ws) + rest;
    assert Num(bs, 8 * 1, 8) == Ok(ws[1]) && Num(bs, 8 * 2, 8) == Ok(ws[2]) && Num(bs, 8 * 3, 8) == Ok(ws[3]);
    assert Num(bs, 8 * 4, 8) == Ok(ws[4]) && Num(bs, 8 * 5, 8) == Ok(ws[5]);
  }

  lemma EntityMembersRead(e: Entity, rest: seq<Byte>)
    requires e.handle < WORD_LIMIT
    ensures DecodeMembers(EncodeMembers(MEMBERS.widths, MembersOf(e)) + rest, 12, MEMBERS) == Ok(Read(MembersOf(e), 12))
  {
    hide DecodeMembers, EncodeMembers;
    Widths();
    MembersTake12(e);
    assert Fits(MEMBERS, MembersOf(e)) by { hide Pow256; }
    MembersReadBack(MEMBERS, MembersOf(e), rest, 12);
  }

  lemma EntityPlaces(e: Entity, after: seq<Byte>)
    requires SoundOwner(e.owner)
    ensures var bs, members, owner := EncodeEntity(e) + after, EncodeMembers(MEMBERS.widths, MembersOf(e)), EncodeOwner(e.owner);
      && bs == EntityHeader(|owner|) + (members + (owner + after))
      && From(bs, 48) == Ok(members + (owner + after)) && From(bs, 60) == Ok(owner + after)
      && |EncodeEntity(e)| == 60 + |owner|
  {
    hide EncodeOwner, SoundOwner, From, EncodeMembers, EntityHeader;
    MembersTake12(e);
    var bs, members, owner := EncodeEntity(e) + after, EncodeMembers(MEMBERS.widths, MembersOf(e)), EncodeOwner(e.owner);
    assert bs == EntityHeader(|owner|) + (members + (owner + after));
    FromAfter(EntityHeader(|owner|), members + (owner + after));
    assert bs == (EntityHeader(|owner|) + members) + (owner + after);
    FromAfter(EntityHeader(|owner|) + members, owner + after);
  }

  /** Every sound entity is read back as its reloaded self when its tables can be
      loaded and is rejected otherwise; the header it is written with passes every
      check. */
  lemma EntityReadsBack(e: Entity, after: seq<Byte>, record: Value)
    requires SoundEntity(e) && |EncodeEntity(e)| < WORD_LIMIT
    ensures DecodeEntity(EncodeEntity(e) + after, |EncodeEntity(e)|, record)
         == if LoadableEntity(e) then Ok(ReloadedEntity(e)) else Err(Rejected)
  {
    hide EncodeOwner, DecodeOwner, EncodeEntity, SoundOwner, From, Num, EncodeMembers, DecodeMembers, EntityHeader, LoadableInto,
      Refilled, Accepts, ReloadedOwner, ReloadedEntity, Null;
    var members, owner := EncodeMembers(MEMBERS.widths, MembersOf(e)), EncodeOwner(e.owner);
    EntityPlaces(e, after);
    EntityHeaderReads(|owner|, members + (owner + after));
    EntityMembersRead(e, owner + after);
    NullAccepts(e, record);
    OwnerReadsBack(e.owner, after, Null(record), true);
    ReloadedMembers(e);
  }

  lemma ReloadedMembers(e: Entity)
    requires SoundEntity(e)
    ensures ReloadedEntity(e).handle == e.handle && ReloadedEntity(e).status == e.status
  {
    hide ReloadedOwner, SoundOwner, Sorted, ReloadedValues;
  }

  // ---------- member by member ----------

  /** Base::memberwiseEqual and its overrides: type, ordering id, certainty and the
      members of the type; the metadata is not compared otherwise. */
  predicate ValueEqual(a: Value, b: Value) {
    a.subtype == b.subtype && a.orderingId == b.orderingId && Certainty(a) == Certainty(b) && a.members == b.members
  }

  /** EntityProperty::memberwiseEqual: the kind of the property is not compared. */
  predicate PropertyEqual(p: Property, q: Property) {
    && p.key == q.key && |p.values| == |q.values| && p.subtype == q.subtype
    && forall i :: 0 <= i < |p.values| ==> ValueEqual(p.values[i], q.values[i])
  }

  predicate EntityEqual(a: Entity, b: Entity) {
    && a.owner.locked == b.owner.locked && a.handle == b.handle && a.status == b.status
    && |a.owner.properties| == |b.owner.properties|
    && forall k :: k in a.owner.properties ==> k in b.owner.properties && PropertyEqual(a.owner.properties[k], b.owner.properties[k])
  }

  /** The certainty of a value survives. */
  lemma CertaintyKept(v: Value)
    requires SoundValue(v)
    ensures Certainty(ReloadedValue(v)) == Certainty(v)
  {
    hide Sorted, StoredMembers;
    if !AlwaysCertain(v.subtype) {
      var p := v.meta.properties[CONFIDENCE];
      assert SoundProperty(p, CONFIDENCE);
      assert ReloadedValue(v).meta == ReloadedOwner(v.meta);
      assert ReloadedOwner(v.meta).properties[CONFIDENCE] == ReloadedProperty(p);
      RecordsReload(p);
    }
  }

  lemma RecordsReload(p: Property)
    requires SoundProperty(p, CONFIDENCE) && p.subtype == SubType.Confidence && p.values != []
    ensures p.values[0].members.numbers != []
    ensures ReloadedProperty(p).values != [] && ReloadedProperty(p).values[0].members == p.values[0].members
  {
    hide SoundValue, StableSort, ReloadedValue, Certainty;
    var vs := ReloadedValues(p);
    forall i | 0 <= i < |vs| ensures Certainty(vs[i]) == 100 {
      SameTypes(p, CONFIDENCE, i);
      RecordIsCertain(vs[i]);
    }
    StableSortFixesSorted(vs, ByCertainty());
    assert SoundValue(p.values[0]);
    RecordHasNumber(p.values[0]);
  }

  lemma RecordIsCertain(v: Value)
    requires v.subtype == SubType.Confidence
    ensures Certainty(v) == 100
  {
  }

  lemma RecordHasNumber(v: Value)
    requires SoundValue(v) && v.subtype == SubType.Confidence
    ensures v.members.numbers != [] && ReloadedValue(v).members == v.members
  {
    hide SoundOwner, Ranked, ReloadedOwner;
  }

  /** A list in order of confidence comes back in the same order, numbered anew. */
  lemma OrderKept(p: Property, key: nat)
    requires SoundProperty(p, key) && Descending(p.values, ByCertainty())
    ensures ReloadedProperty(p).values == Renumbered(ReloadedValues(p))
    ensures forall i :: 0 <= i < |p.values| ==> Certainty(ReloadedValues(p)[i]) == Certainty(p.values[i])
  {
    hide SoundValue, Certainty, ReloadedValue, Renumbered;
    var vs := ReloadedValues(p);
    forall i | 0 <= i < |vs| ensures Certainty(vs[i]) == Certainty(p.values[i]) { CertaintyKept(p.values[i]); }
    forall i, j | 0 <= i < j < |vs| ensures ByCertainty()(vs[i]) >= ByCertainty()(vs[j]) {
      assert ByCertainty()(p.values[i]) >= ByCertainty()(p.values[j]);
    }
    StableSortFixesSorted(vs, ByCertainty());
  }

  /** Nothing is lost in the stored members; time stamps lose theirs. */
  ghost predicate Timeless(values: seq<Value>) {
    forall i :: 0 <= i < |values| ==> StoredMembers(values[i]) == values[i].members
  }

  lemma RecertainNumbered(v: Value, i: nat)
    ensures Certainty(v.(orderingId := i)) == Certainty(v)
  {
  }

  /** A list in order equals its reloaded form exactly when it is numbered from zero
      without gaps and holds no time stamps. */
  lemma OrderedRoundTripIff(p: Property, key: nat)
    requires SoundProperty(p, key) && Descending(p.values, ByCertainty())
    ensures PropertyEqual(p, ReloadedProperty(p)) <==> Canonical(p.values) && Timeless(p.values)
  {
    hide Certainty, StoredMembers, Sorted, SoundValue;
    KeyOfSound(p, key);
    OrderKept(p, key);
    var r := ReloadedProperty(p).values;
    forall i | 0 <= i < |p.values|
      ensures ValueEqual(p.values[i], r[i]) <==> p.values[i].orderingId == i && StoredMembers(p.values[i]) == p.values[i].members
    {
      var v := ReloadedValues(p)[i];
      assert v == ReloadedValue(p.values[i]) && r[i] == v.(orderingId := i);
      RecertainNumbered(v, i);
    }
  }

  /** A list equal to a sorted one is in order. */
  lemma EqualIsOrdered(p: Property, values: seq<Value>)
    requires PropertyEqual(p, p.(values := Sorted(values)))
    ensures Descending(p.values, ByCertainty())
  {
    hide Certainty, StableSort;
    StableSortIsStableSort(values, ByCertainty());
    var r, sorted := Sorted(values), StableSort(values, ByCertainty());
    hide Descending;
    forall i | 0 <= i < |p.values| ensures Certainty(p.values[i]) == Certainty(sorted[i]) {
      assert ValueEqual(p.values[i], r[i]);
      RecertainNumbered(sorted[i], i);
    }
    DescendingAlike(p.values, sorted);
  }

  lemma DescendingAlike(vs: seq<Value>, ws: seq<Value>)
    requires |vs| == |ws| && Descending(ws, ByCertainty()) && forall i :: 0 <= i < |vs| ==> Certainty(vs[i]) == Certainty(ws[i])
    ensures Descending(vs, ByCertainty())
  {
    hide Certainty;
    forall i, j | 0 <= i < j < |vs| ensures ByCertainty()(vs[i]) >= ByCertainty()(vs[j]) {
      assert ByCertainty()(ws[i]) >= ByCertainty()(ws[j]);
    }
  }

  /** A reloaded list equals the original exactly when the original is in order of
      confidence, numbered from zero without gaps, and free of time stamps. */
  lemma PropertyRoundTripIff(p: Property, key: nat)
    requires SoundProperty(p, key)
    ensures PropertyEqual(p, ReloadedProperty(p)) <==> Descending(p.values, ByCertainty()) && Canonical(p.values) && Timeless(p.values)
  {
    if Descending(p.values, ByCertainty()) {
      OrderedRoundTripIff(p, key);
    } else if PropertyEqual(p, ReloadedProperty(p)) {
      hide Descending, Sorted, SoundProperty, ReloadedValues;
      EqualIsOrdered(p, ReloadedValues(p));
    }
  }

  // ---------- the exact condition for an entity ----------

  /** Every list is ordered by confidence, as all list operations leave it. */
  ghost predicate Ordered(o: Owner) {
    forall k :: k in o.properties ==> Descending(o.properties[k].values, ByCertainty())
  }

  ghost predicate Unchanging(e: Entity) {
    && (forall k :: k in e.owner.properties ==> Canonical(e.owner.properties[k].values) && Timeless(e.owner.properties[k].values))
    && (TYPE in e.owner.properties ==> |e.owner.properties[TYPE].values| == 1)
  }

  lemma SingleType(e: Entity)
    requires SoundEntity(e)
    ensures var r := ReloadedEntity(e).owner.properties; var p := e.owner.properties[TYPE];
      && r.Keys == e.owner.properties.Keys
      && (forall k :: k in r && k != TYPE ==> r[k] == ReloadedProperty(e.owner.properties[k]))
      && |r[TYPE].values| == 1
      && (|p.values| == 1 ==> r[TYPE] == ReloadedProperty(p).(kind := ConcreteSingle))
  {
    hide ReloadedValues, StableSort, SoundProperty;
    var p := e.owner.properties[TYPE];
    assert SoundProperty(p, TYPE);
    KeyOfSound(p, TYPE);
    OneSorted(ReloadedValues(p));
  }

  lemma OneSorted(vs: seq<Value>)
    ensures |Sorted(vs)| == |vs| && (|vs| == 1 ==> Sorted(vs)[0].(orderingId := 0) == Sorted(vs)[0])
  {
    hide StableSort;
    SortedSize(vs);
  }

  lemma KindIgnored(p: Property, q: Property, kind: Kind)
    ensures PropertyEqual(p, q.(kind := kind)) <==> PropertyEqual(p, q)
  {
    hide ValueEqual;
  }

  /** What comes back of a list unchanged. */
  ghost predicate ListStays(p: Property) { Descending(p.values, ByCertainty()) && Canonical(p.values) && Timeless(p.values) }

  /** An entity is read back equal, member by member, exactly when it has one type
      and its lists are in order, numbered from zero and free of time stamps. */
  lemma EntityRoundTripIff(e: Entity)
    requires SoundEntity(e)
    ensures EntityEqual(e, ReloadedEntity(e)) <==> Unchanging(e) && Ordered(e.owner)
  {
    hide ReloadedEntity, ReloadedProperty, PropertyEqual, SoundProperty, Canonical, Timeless, Descending;
    SingleType(e);
    KindIgnored(e.owner.properties[TYPE], ReloadedProperty(e.owner.properties[TYPE]), ConcreteSingle);
    ReloadedMembers(e);
    ReloadedLock(e);
    var r := ReloadedEntity(e).owner.properties;
    assert |r.Keys| == |e.owner.properties.Keys|;
    forall k | k in e.owner.properties
      ensures PropertyEqual(e.owner.properties[k], ReloadedProperty(e.owner.properties[k])) <==> ListStays(e.owner.properties[k])
    {
      PropertyRoundTripIff(e.owner.properties[k], k);
    }
    if EntityEqual(e, ReloadedEntity(e)) {
      assert PropertyEqual(e.owner.properties[TYPE], r[TYPE]);
      SameCount(e.owner.properties[TYPE], r[TYPE]);
      forall k | k in e.owner.properties ensures ListStays(e.owner.properties[k]) {
        assert PropertyEqual(e.owner.properties[k], r[k]);
      }
    }
  }

  lemma SameCount(p: Property, q: Property)
    requires PropertyEqual(p, q)
    ensures |p.values| == |q.values|
  {
  }

  lemma ReloadedLock(e: Entity)
    requires SoundEntity(e)
    ensures ReloadedEntity(e).owner.locked == e.owner.locked
  {
    hide ReloadedProperty, SoundOwner, Sorted, ReloadedValues;
  }

  /** Inserting a certain parent leaves at most one exactly when the list is
      single-valued or holds none. */
  lemma OneParentIff(o: Owner, v: Value)
    requires SUBSET_OF in o.properties && v.subtype == EntityRef == o.properties[SUBSET_OF].subtype && !o.locked && Certainty(v) == 100
    requires o.properties[SUBSET_OF].kind != Locked
    ensures InsertValue(o, SUBSET_OF, v, ConcreteSingle).Done?
    ensures |InsertValue(o, SUBSET_OF, v, ConcreteSingle).value.properties[SUBSET_OF].values| <= 1
       <==> o.properties[SUBSET_OF].kind == ConcreteSingle || o.properties[SUBSET_OF].values == []
  {
    hide StableSort, Sorted, Certainty;
    SortedSize(o.properties[SUBSET_OF].values + [v]);
  }

  /** The kind that keeps a list to one parent is not stored: a reloaded entity
      keeps every parent it had and takes another one. */
  lemma ReloadedParentsPileUp(o: Owner, v: Value)
    requires SUBSET_OF in o.properties && v.subtype == EntityRef == o.properties[SUBSET_OF].subtype && !o.locked && Certainty(v) == 100
    ensures InsertValue(ReloadedOwner(o), SUBSET_OF, v, ConcreteSingle).Done?
    ensures |InsertValue(ReloadedOwner(o), SUBSET_OF, v, ConcreteSingle).value.properties[SUBSET_OF].values|
         == |o.properties[SUBSET_OF].values| + 1
  {
    hide StableSort, ReloadedValues, Sorted, Certainty;
    var p := o.properties[SUBSET_OF];
    SortedSize(ReloadedValues(p));
    SortedSize(Sorted(ReloadedValues(p)) + [v]);
    assert ReloadedOwner(o).properties[SUBSET_OF] == ReloadedProperty(p);
  }

  // ---------- the calls ----------

  method Serialise(e: Entity, s: Serialiser) returns (size: nat)
    requires SoundOwner(e.owner)
    modifies s
    ensures s.data == old(s.data) + EncodeEntity(e) && size == |EncodeEntity(e)|
  {
    hide EncodeOwner, EncodeMembers, SoundOwner, Nums, Patched;
    MembersTake12(e);
    var initialSize := |s.data|;
    ghost var before, blank := s.data, Words([1, 0, 0, 0, 0, 0]);
    var bytes := s.Append(Words([1, 0, 0, 0, 0, 0]));
    var members := SerialiseAll(MEMBERS, MembersOf(e), s);
    bytes := bytes + members;
    var memberLength := bytes - 48;
    var propertyOffset := 48 + memberLength;
    var properties := SerialiseOwner(e.owner, s);
    size := bytes + properties;
    var header := Words([1, size, 48, memberLength, propertyOffset, size - propertyOffset]);
    ghost var rest := EncodeMembers(MEMBERS.widths, MembersOf(e)) + EncodeOwner(e.owner);
    assert s.data == before + blank + rest;
    HeaderPatched(before, blank, rest, header);
    assert header == EntityHeader(|EncodeOwner(e.owner)|);
    s.Overwrite(initialSize, header, 0);
  }

  /** bs starts with what is written of e. */
  ghost predicate EntityWritten(e: Entity, after: seq<Byte>, bs: seq<Byte>, length: nat) {
    SoundEntity(e) && |EncodeEntity(e)| < WORD_LIMIT && length == |EncodeEntity(e)| && bs == EncodeEntity(e) + after
  }

  /** On any bytes the specified reading; on the bytes of an entity that entity. */
  method Unserialise(bs: seq<Byte>, length: nat, record: Value) returns (r: Result<Entity>)
    ensures r == DecodeEntity(bs, length, record)
    ensures forall e, after :: EntityWritten(e, after, bs, length) ==>
      r == if LoadableEntity(e) then Ok(ReloadedEntity(e)) else Err(Rejected)
  {
    forall e, after | EntityWritten(e, after, bs, length)
      ensures DecodeEntity(bs, length, record) == if LoadableEntity(e) then Ok(ReloadedEntity(e)) else Err(Rejected)
    {
      EntityReadsBack(e, after, record);
    }
    hide Num, From, DecodeMembers, DecodeOwner, Plus;
    var version :- Num(bs, 0, 2);
    if version != 1 { return Err(Rejected); }
    var size :- Num(bs, 8, 8);
    if size != length { return Err(Rejected); }
    var memberOffset :- Num(bs, 16, 8);
    if memberOffset >= length { return Err(Rejected); }
    var memberLength :- Num(bs, 24, 8);
    if Plus(memberOffset, memberLength) > length { return Err(Rejected); }
    var propertyOffset :- Num(bs, 32, 8);
    var propertyLength :- Num(bs, 40, 8);
    if Plus(propertyOffset, propertyLength) > length { return Err(Rejected); }
    if propertyOffset < Plus(memberOffset, memberLength) { return Err(Rejected); }
    var memberData :- From(bs, memberOffset);
    var read: Read :- UnserialiseAll(memberData, memberLength, MEMBERS);
    var status :- StatusOf(read.members.numbers[1]);
    var propertyData :- From(bs, propertyOffset);
    var owner: Owner :- UnserialiseOwner(propertyData, propertyLength, Null(record), true);
    r := Ok(Entity(read.members.numbers[0], status, owner));
  }
}
