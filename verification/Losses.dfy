/** Inserts that complete and are saved, and what becomes of them: of a reference to a
    property and of a source reference the whole database is lost on the next load,
    of a time stamp its moment, and of a lowered confidence the order of its list. */
module Losses {
  import opened Bytes
  import opened Edits
  import opened Entities
  import opened GraphFile
  import opened Hierarchy
  import LinkTable
  import Merging
  import NameTable
  import Persistence
  import PrimitiveMap
  import opened Properties
  import Records
  import opened Reload
  import Sorting
  import opened Startup

  const KEY := 9

  /** A value without records, and one with a record of full confidence. */
  function Plain(t: SubType, n: nat): Value { Value(t, 0, Members([n], []), Owner(false, map[])) }

  function Sure(t: SubType, n: nat): Value { Value(t, 0, Members([n], []), MakeRef(1, 100).meta) }

  function Single(kind: Kind, key: nat, v: Value): Property { Property(kind, key, v.subtype, [v]) }

  lemma PlainIsMade(t: SubType, n: nat)
    requires AlwaysCertain(t) && n < 0x1_0000_0000
    ensures WellMade(Plain(t, n)) && Certainty(Plain(t, n)) == 100
  {
    Widths();
    hide Pow256;
    assert Records.SoundOwner(Plain(t, n).meta) && Loadable(Plain(t, n).meta);
  }

  lemma SureIsMade(t: SubType, n: nat)
    requires t == PropertyReference && n < 0x1_0000_0000
    ensures WellMade(Sure(t, n)) && Certainty(Sure(t, n)) == 100
  {
    Widths();
    hide Pow256, Records.SoundOwner, Loadable;
    RefIsMade(1, 100);
    MakeRefIsCertain(1, 100);
    assert Records.SoundOwner(Sure(t, n).meta) && Loadable(Sure(t, n).meta) by { LooseMeta(MakeRef(1, 100)); }
  }

  lemma LooseMeta(v: Value)
    requires WellMade(v)
    ensures Records.SoundOwner(v.meta) && Loadable(v.meta)
  {
    hide Records.SoundOwner, Loadable;
  }

  lemma AppendsFirst(kind: Kind, key: nat, v: Value)
    requires kind != Locked && Certainty(v) == 100 && v.orderingId == 0
    ensures Appended(Property(kind, key, v.subtype, []), v) == Done(Single(kind, key, v))
  {
    hide Certainty, Sorting.StableSort;
    assert [] + [v] == [v];
    Sorting.StableSortFixesSorted([v], ByCertainty());
    assert Renumbered([v]) == [v];
  }

  /** The first value under a key. */
  lemma FirstOfItsKey(o: Owner, key: nat, v: Value, kind: Kind)
    requires !o.locked && key !in o.properties && kind != Locked && Certainty(v) == 100 && v.orderingId == 0
    ensures InsertValue(o, key, v, kind) == Done(o.(properties := o.properties[key := Single(kind, key, v)]))
  {
    hide Certainty, Appended, InsertValue;
    AppendsFirst(kind, key, v);
    Startup.ValueJoins(o, key, v, kind, Property(kind, key, v.subtype, []), Single(kind, key, v));
  }

  // ---------- the pair with one property more ----------

  function With(g: Graph, h: Handle, p: Property): Graph
    requires h in g.entities
  {
    var e := g.entities[h];
    g.(entities := g.entities[h := e.(owner := e.owner.(properties := e.owner.properties[p.key := p]))])
  }

  lemma PairIs(h: Handle)
    requires h == 1 || h == 2
    ensures Pair().entities.Keys == {1, 2} && CreatedOwner(Pair().entities[h].owner) && Pair().entities[h].handle == h
  {
    CreatedAre();
    hide Created, TypeRecord;
  }

  lemma ValueIsPut(v: Value)
    requires Certainty(v) == 100 && v.orderingId == 0
    ensures Edited(Pair(), Put(1, KEY, v)) == (With(Pair(), 1, Single(Fuzzy, KEY, v)), false)
  {
    PairIs(1);
    var g := Pair();
    hide Pair, InsertValue, TypeRecord, Certainty;
    FirstOfItsKey(g.entities[1].owner, KEY, v, Fuzzy);
    PutIs(g, 1, KEY, v, g.entities[1].owner.(properties := g.entities[1].owner.properties[KEY := Single(Fuzzy, KEY, v)]));
  }

  lemma OneMoreIsShort(o: Owner, p: Property)
    requires CreatedOwner(o) && |p.values| == 1 && ShortMeta(p.values[0])
    ensures ShortLists(o.(properties := o.properties[p.key := p]))
  {
    CreatedIsShort(o);
    hide ShortMeta, TypeRecord;
  }

  lemma WithIsBounded(v: Value)
    requires ShortMeta(v)
    ensures Bounded(With(Pair(), 1, Single(Fuzzy, KEY, v)))
  {
    PairIs(1);
    PairIs(2);
    var g := Pair();
    assert g.typeNames.next == 2 && g.propertyNames.next == 1;
    hide Pair, TypeRecord, ShortLists, CreatedOwner;
    CreatedIsShort(g.entities[2].owner);
    OneMoreIsShort(g.entities[1].owner, Single(Fuzzy, KEY, v));
  }

  lemma MetasAreShort(n: nat)
    ensures ShortMeta(Plain(SourceRef, n)) && ShortMeta(Plain(TimeStamp, n)) && ShortMeta(Sure(PropertyReference, n)) && ShortMeta(MakeRef(1, 100))
  {
  }

  // ---------- the size of the file ----------

  lemma EntityTakes(e: Entity, p: Property)
    requires SoundEntity(e) && e.owner.properties.Keys == {TYPE, p.key} && p.key != TYPE && e.owner.properties[p.key] == p
    requires e.owner.properties[TYPE].values == [TypeRecord(1, BY)] && |p.values| == 1
    requires Records.SoundValue(p.values[0]) && |Records.EncodeValue(p.values[0])| <= 400
    ensures |EncodeEntity(e)| <= 1000
  {
    hide Records.EncodeValue, Records.EncodeOwner, Records.SoundValue, TypeRecord, EncodeEntity;
    var o := e.owner;
    RecordTakes(TypeRecord(1, BY));
    assert |o.properties| == 2 by { assert |o.properties.Keys| == |o.properties|; }
    assert Records.SoundProperty(o.properties[TYPE], TYPE) && Records.SoundProperty(p, p.key);
    assert ShortList(o.properties[TYPE], TYPE, 400) && ShortList(p, p.key, 400);
    hide Records.SoundOwner, ShortList, Records.SoundProperty;
    OwnerTakes(o, 400);
    EntityPlaces(e, []);
  }

  lemma PlainTakes(v: Value)
    requires Records.SoundValue(v) && v.meta == Owner(false, map[]) && (v.subtype == TimeStamp || v.members.texts == [])
    requires |v.members.numbers| == 1
    ensures |Records.EncodeValue(v)| <= 400
  {
    BareTakes(v);
  }

  lemma SureTakes(v: Value)
    requires Records.SoundValue(v) && v.members.texts == [] && |v.members.numbers| == 1 && v.meta == MakeRef(1, 100).meta
    ensures |Records.EncodeValue(v)| <= 400
  {
    RecordsTake(v.meta);
    hide Records.EncodeOwner, Records.EncodeValue, Records.SoundOwner;
    ValueTakes(v, 363);
  }

  lemma RecordsTake(o: Owner)
    requires Records.SoundOwner(o) && o == MakeRef(1, 100).meta
    ensures |Records.EncodeOwner(o)| <= 363
  {
    var r := ConfidenceRecord(100);
    assert o.properties == map[CONFIDENCE := Single(ConcreteSingle, CONFIDENCE, r)];
    hide Records.SoundValue, Records.EncodeValue, Records.EncodeOwner, Records.SoundProperty, ShortList, MakeRef;
    assert Records.SoundProperty(o.properties[CONFIDENCE], CONFIDENCE);
    hide Records.SoundOwner;
    RecordIsShort(r);
    OwnerTakes(o, 121);
  }

  lemma RecordIsShort(r: Value)
    requires r == ConfidenceRecord(100) && Records.SoundProperty(Single(ConcreteSingle, CONFIDENCE, r), CONFIDENCE)
    ensures ShortList(Single(ConcreteSingle, CONFIDENCE, r), CONFIDENCE, 121)
  {
    assert Records.SoundValue(r) by { assert Single(ConcreteSingle, CONFIDENCE, r).values[0] == r; hide Records.SoundValue; }
    hide Records.SoundValue, Records.EncodeValue, Records.SoundProperty;
    BareTakes(r);
  }

  /** The pair's own entities aside. */
  ghost predicate LikePair(g: Graph) {
    var pair := Pair();
    g.typeNames == pair.typeNames && g.propertyNames == pair.propertyNames && g.propertyTypes == pair.propertyTypes && g.links == pair.links
  }

  lemma TablesStay(g: Graph)
    requires LikePair(g)
    ensures |NameTable.EncodeNames(g.typeNames)| <= 100 && |NameTable.EncodeNames(g.propertyNames)| <= 100
    ensures |PrimitiveMap.EncodeMap(g.propertyTypes)| == 32 && |LinkTable.EncodeLinks(g.links)| == 56
  {
    hide NameTable.EncodeNames, PrimitiveMap.EncodeMap, LinkTable.EncodeLinks, Created;
    TablesTake(Pair());
    LinksTake56(g.links);
  }

  lemma TwoFit(g: Graph)
    requires SoundEntities(g) && LikePair(g) && g.entities.Keys == {1, 2}
    requires |EncodeEntity(g.entities[1])| <= 1000 && |EncodeEntity(g.entities[2])| <= 1000
    ensures Persistence.Fits(g)
  {
    hide EncodeEntity, SoundEntity, SoundEntities, NameTable.EncodeNames, PrimitiveMap.EncodeMap, LinkTable.EncodeLinks, EntityData, LikePair, Persistence.Fits;
    TablesStay(g);
    assert |g.entities| == 2 by { assert |g.entities.Keys| == |g.entities|; }
    PairEntitiesTake(g);
    GraphTakes(g);
  }

  lemma EachIsSound(g: Graph, h: Handle)
    requires SoundEntities(g) && h in g.entities
    ensures SoundEntity(g.entities[h])
  {
    hide SoundEntity;
  }

  /** What With leaves of the pair. */
  lemma WithIs(p: Property)
    requires p.key != TYPE
    ensures var g := With(Pair(), 1, p);
      && LikePair(g) && g.entities.Keys == {1, 2} && g.entities[2] == Pair().entities[2]
      && g.entities[1].owner.properties.Keys == {TYPE, p.key} && g.entities[1].owner.properties[p.key] == p
      && g.entities[1].owner.properties[TYPE].values == [TypeRecord(1, BY)]
  {
    PairIs(1);
    PairIs(2);
    hide Pair, TypeRecord;
  }

  lemma WithFits(g: Graph, v: Value)
    requires g == With(Pair(), 1, Single(Fuzzy, KEY, v)) && SoundEntities(g)
    requires Records.SoundValue(v) && |Records.EncodeValue(v)| <= 400
    ensures Persistence.Fits(g)
  {
    hide With, Pair, Records.EncodeValue, Records.SoundValue, TypeRecord, SoundEntity, SoundEntities, EncodeEntity, CreatedOwner, LikePair, Persistence.Fits;
    WithIs(Single(Fuzzy, KEY, v));
    PairIs(2);
    EachIsSound(g, 1);
    EachIsSound(g, 2);
    EntityTakes(g.entities[1], Single(Fuzzy, KEY, v));
    BareEntityTakes(g.entities[2]);
    TwoFit(g);
  }

  lemma BareEntityTakes(e: Entity)
    requires SoundEntity(e) && CreatedOwner(e.owner)
    ensures |EncodeEntity(e)| <= 1000
  {
    var h, s := e.handle, e.status;
    assert e == Created(h, 1, BY).(status := s);
    hide TypeRecord, Created, CreatedOwner;
    CreatedTakes(h, s);
  }

  // ---------- what is lost ----------

  /** Once g has been saved, the next call that fails loses it, whatever it was. */
  ghost predicate Lost(g: Graph) {
    forall partial, record, pristine ::
      Persistence.Recovered(Persistence.Database(partial, Persistence.FileOf(g)), record, pristine)
        == (Persistence.Database(pristine, Persistence.FileOf(pristine)), Persistence.Reset)
  }

  /** The edit completes on the pair, and what it leaves is lost. */
  ghost predicate Loses(e: Edit) {
    Ready(Pair()) && GoodEdit(e) && !Edited(Pair(), e).1 && Lost(Edited(Pair(), e).0)
  }

  lemma UnreadableLoses(e: Edit, g: Graph)
    requires GoodEdit(e) && Edited(Pair(), e) == (g, false) && Bounded(g) && !LoadsAfter(e)
    requires SoundEntities(g) ==> Persistence.Fits(g)
    ensures Loses(e)
  {
    PairIsReady(Pair());
    hide *;
    forall partial, record, pristine
      ensures Persistence.Recovered(Persistence.Database(partial, Persistence.FileOf(g)), record, pristine)
           == (Persistence.Database(pristine, Persistence.FileOf(pristine)), Persistence.Reset)
    {
      RecoveryAfterEdit(Pair(), e, partial, record, pristine);
    }
    LosesIs(e, g);
  }

  lemma LosesIs(e: Edit, g: Graph)
    requires Ready(Pair()) && GoodEdit(e) && Edited(Pair(), e) == (g, false)
    requires forall partial, record, pristine ::
      Persistence.Recovered(Persistence.Database(partial, Persistence.FileOf(g)), record, pristine)
        == (Persistence.Database(pristine, Persistence.FileOf(pristine)), Persistence.Reset)
    ensures Loses(e)
  {
    hide Ready, Pair, GoodEdit, Edited, Persistence.Recovered, Persistence.FileOf;
  }

  /** A value of full confidence of a type that the reader does not take. */
  lemma UnreadableIsLost(v: Value)
    requires WellMade(v) && Certainty(v) == 100 && v.orderingId == 0 && ShortMeta(v) && !Readable(KEY, v)
    requires |Records.EncodeValue(v)| <= 400
    ensures Loses(Put(1, KEY, v))
  {
    hide Ready, Pair, Bounded, Edited, Persistence.Fits, SoundEntities, Records.EncodeValue, Records.SoundValue, Loadable, Loses, With, Certainty, ShortMeta, Readable;
    PairIs(1);
    ValueIsPut(v);
    WithIsBounded(v);
    var g := With(Pair(), 1, Single(Fuzzy, KEY, v));
    if SoundEntities(g) { WithFits(g, v); }
    UnreadableLoses(Put(1, KEY, v), g);
  }

  /** A variable in the place of a predicate holds a reference to a property. Put
      into an entity it is saved, and the next call that fails resets the database. */
  lemma PropertyReferenceLoses()
    ensures Loses(Put(1, KEY, Sure(PropertyReference, 3)))
  {
    var v := Sure(PropertyReference, 3);
    SureIsMade(PropertyReference, 3);
    MetasAreShort(3);
    hide Certainty, ShortMeta, Records.EncodeValue, Loses, Records.SoundOwner, Loadable;
    SureTakes(v);
    UnreadableIsLost(v);
  }

  // ---------- a source reference as the parent ----------

  /** The pair when 1 has been put under 2 by the value v. */
  function Below(v: Value): Graph {
    With(With(Pair(), 2, Single(ConcreteMulti, SUPERSET_OF, MakeRef(1, 100))), 1, Single(ConcreteSingle, SUBSET_OF, v))
  }

  lemma RelationIsPut(s: Store, v: Value, o: Owner, o': Owner)
    requires 1 in s && 2 in s && IsRef(v.subtype) && RefOf(v) == 2 && Certainty(v) == 100
    requires InsertValue(s[2], SUPERSET_OF, MakeRef(1, 100), ConcreteMulti) == Done(o)
    requires InsertValue(s[1], SUBSET_OF, v, ConcreteSingle) == Done(o')
    ensures PutInto(s, 1, SUBSET_OF, v) == InsertResult(s[2 := o][1 := o'], false)
  {
    hide InsertValue, Certainty, MakeRef, RefOf;
    assert s[2 := o][1] == s[1];
  }

  lemma OwnersAre(g: Graph)
    requires {1, 2} <= g.entities.Keys
    ensures var s := Merging.OwnersOf(g); s.Keys == g.entities.Keys && s[1] == g.entities[1].owner && s[2] == g.entities[2].owner
  {
  }

  function Added(o: Owner, p: Property): Owner { o.(properties := o.properties[p.key := p]) }

  lemma WithTwo(g: Graph, p: Property, q: Property)
    requires {1, 2} <= g.entities.Keys
    ensures var s := Merging.OwnersOf(g);
      Merging.WithOwners(g, s[2 := Added(s[2], p)][1 := Added(s[1], q)]) == With(With(g, 2, p), 1, q)
  {
    var s := Merging.OwnersOf(g);
    var r := s[2 := Added(s[2], p)][1 := Added(s[1], q)];
    hide Added;
    assert Merging.WithOwners(g, r).entities == With(With(g, 2, p), 1, q).entities by {
      assert Added(s[2], p) == g.entities[2].owner.(properties := g.entities[2].owner.properties[p.key := p]) by { AddedIs(s[2], p); }
      assert Added(s[1], q) == g.entities[1].owner.(properties := g.entities[1].owner.properties[q.key := q]) by { AddedIs(s[1], q); }
    }
  }

  lemma AddedIs(o: Owner, p: Property)
    ensures Added(o, p) == o.(properties := o.properties[p.key := p])
  {
  }

  lemma OwnersOfPair()
    ensures var s := Merging.OwnersOf(Pair()); s.Keys == {1, 2} && CreatedOwner(s[1]) && CreatedOwner(s[2])
  {
    PairIs(1);
    PairIs(2);
    hide Pair, CreatedOwner;
    OwnersAre(Pair());
  }

  lemma SourceIsPut(v: Value)
    requires IsRef(v.subtype) && RefOf(v) == 2 && Certainty(v) == 100 && v.orderingId == 0
    ensures Edited(Pair(), Put(1, SUBSET_OF, v)) == (Below(v), false)
  {
    var r := MakeRef(1, 100);
    MakeRefIsCertain(1, 100);
    OwnersOfPair();
    PairIs(1);
    var s := Merging.OwnersOf(Pair());
    var p, q := Single(ConcreteMulti, SUPERSET_OF, r), Single(ConcreteSingle, SUBSET_OF, v);
    assert r.orderingId == 0;
    hide MakeRef, Pair, InsertValue, Certainty, TypeRecord, PutInto, RefOf, Merging.OwnersOf, Merging.WithOwners, With;
    FirstOfItsKey(s[2], SUPERSET_OF, r, ConcreteMulti);
    FirstOfItsKey(s[1], SUBSET_OF, v, ConcreteSingle);
    RelationIsPut(s, v, Added(s[2], p), Added(s[1], q));
    WithTwo(Pair(), p, q);
  }

  lemma BelowIs(v: Value)
    requires v.subtype == SourceRef
    ensures var g := Below(v);
      && LikePair(g) && g.entities.Keys == {1, 2}
      && g.entities[1].owner == Added(Pair().entities[1].owner, Single(ConcreteSingle, SUBSET_OF, v))
      && g.entities[2].owner == Added(Pair().entities[2].owner, Single(ConcreteMulti, SUPERSET_OF, MakeRef(1, 100)))
  {
    PairIs(1);
    PairIs(2);
    hide Pair, TypeRecord, CreatedOwner, MakeRef;
  }

  lemma BelowIsBounded(v: Value)
    requires v.subtype == SourceRef && ShortMeta(v)
    ensures Bounded(Below(v))
  {
    BelowIs(v);
    PairIs(1);
    PairIs(2);
    var g := Below(v);
    assert Pair().typeNames.next == 2 && Pair().propertyNames.next == 1;
    MetasAreShort(1);
    hide Pair, TypeRecord, ShortLists, CreatedOwner, MakeRef, With, Below, ShortMeta;
    OneMoreIsShort(Pair().entities[1].owner, Single(ConcreteSingle, SUBSET_OF, v));
    OneMoreIsShort(Pair().entities[2].owner, Single(ConcreteMulti, SUPERSET_OF, MakeRef(1, 100)));
  }

  lemma AddedTakes(e: Entity, o: Owner, p: Property)
    requires SoundEntity(e) && CreatedOwner(o) && e.owner == Added(o, p) && p.key != TYPE
    requires |p.values| == 1 && Records.SoundValue(p.values[0]) && |Records.EncodeValue(p.values[0])| <= 400
    ensures |EncodeEntity(e)| <= 1000
  {
    hide Records.EncodeValue, Records.SoundValue, TypeRecord, EncodeEntity, SoundEntity;
    EntityTakes(e, p);
  }

  lemma BelowFits(v: Value)
    requires v.subtype == SourceRef && SoundEntities(Below(v))
    requires Records.SoundValue(v) && |Records.EncodeValue(v)| <= 400
    ensures Persistence.Fits(Below(v))
  {
    var g := Below(v);
    BelowIs(v);
    RefTakes();
    hide With, Pair, Records.EncodeValue, Records.SoundValue, TypeRecord, SoundEntity, SoundEntities, EncodeEntity, CreatedOwner, LikePair, Persistence.Fits, MakeRef, Below, Added;
    PairIs(1);
    PairIs(2);
    EachIsSound(g, 1);
    EachIsSound(g, 2);
    AddedTakes(g.entities[1], Pair().entities[1].owner, Single(ConcreteSingle, SUBSET_OF, v));
    AddedTakes(g.entities[2], Pair().entities[2].owner, Single(ConcreteMulti, SUPERSET_OF, MakeRef(1, 100)));
    TwoFit(g);
  }

  lemma RefTakes()
    ensures Records.SoundValue(MakeRef(1, 100)) && |Records.EncodeValue(MakeRef(1, 100))| <= 400
  {
    var r := MakeRef(1, 100);
    assert r.members == Members([1], []);
    RefIsMade(1, 100);
    hide MakeRef, Records.EncodeValue, Records.SoundValue;
    SureTakes(r);
  }

  lemma SourceIsLost(v: Value)
    requires v.subtype == SourceRef && RefOf(v) == 2 && Certainty(v) == 100 && v.orderingId == 0
    requires WellMade(v) && ShortMeta(v) && |Records.EncodeValue(v)| <= 400
    ensures Loses(Put(1, SUBSET_OF, v))
  {
    hide Ready, Pair, Bounded, Edited, Persistence.Fits, SoundEntities, Records.EncodeValue, Records.SoundValue, Loadable, Loses, Below, Certainty, ShortMeta, RefOf;
    SourceIsPut(v);
    BelowIsBounded(v);
    if SoundEntities(Below(v)) { BelowFits(v); }
    UnreadableLoses(Put(1, SUBSET_OF, v), Below(v));
  }

  /** A source reference is mirrored like any reference to an entity, and saved under
      its own type, which the reader refuses in a relation. */
  lemma SourceReferenceLoses()
    ensures Loses(Put(1, SUBSET_OF, Plain(SourceRef, 2)))
  {
    var v := Plain(SourceRef, 2);
    PlainIsMade(SourceRef, 2);
    MetasAreShort(2);
    assert RefOf(v) == 2;
    hide Certainty, ShortMeta, Records.EncodeValue, Loses, Records.SoundOwner, Loadable, MakeRef, RefOf;
    PlainTakes(v);
    SourceIsLost(v);
  }

  // ---------- what the file does not give back ----------

  /** The edit completes on g, and what it leaves is saved and loaded, but not equal
      to the graph in memory. */
  ghost predicate Differs(g: Graph, e: Edit) {
    && Ready(g) && GoodEdit(e) && !Edited(g, e).1
    && var g' := Edited(g, e).0; SoundEntities(g') && LoadableGraph(g') && !GraphEqual(g', ReloadedGraph(g'))
  }

  lemma DiffersIf(g: Graph, e: Edit)
    requires Ready(g) && GoodEdit(e) && !Edited(g, e).1 && Bounded(Edited(g, e).0) && LoadsAfter(e) && !Survives(g, e)
    ensures Differs(g, e)
  {
    hide Ready, GoodEdit, Edited, Bounded, LoadsAfter, Survives, SoundEntities, LoadableGraph, GraphEqual, ReloadedGraph;
    EditLoadsIff(g, e);
    EditIsKeptIff(g, e);
  }

  lemma MomentDiffers(v: Value)
    requires WellMade(v) && Certainty(v) == 100 && v.orderingId == 0 && ShortMeta(v) && Readable(KEY, v) && !Timeless([v])
    ensures Differs(Pair(), Put(1, KEY, v))
  {
    PairIsReady(Pair());
    hide Ready, Pair, Bounded, Edited, Records.SoundValue, Loadable, Differs, With, Certainty, ShortMeta, Readable, Timeless, Persistence.Healthy;
    PairIs(1);
    ValueIsPut(v);
    WithIsBounded(v);
    DiffersIf(Pair(), Put(1, KEY, v));
  }

  /** The moment of a time stamp. */
  lemma TimeStampDiffers()
    ensures Differs(Pair(), Put(1, KEY, Plain(TimeStamp, 7)))
  {
    var v := Plain(TimeStamp, 7);
    PlainIsMade(TimeStamp, 7);
    MetasAreShort(7);
    assert !Timeless([v]) by { assert Records.StoredMembers([v][0]) != [v][0].members; }
    hide Certainty, ShortMeta, Records.SoundOwner, Loadable, Differs, Timeless;
    MomentDiffers(v);
  }

  // ---------- a lowered confidence ----------

  function Doubt(): Value { ConfidenceRecord(10) }

  /** The numbers when the first is doubted. */
  function Doubted(): Property {
    var p := Numbers(2);
    var u := p.values[0];
    p.(values := p.values[0 := u.(meta := u.meta.(properties := u.meta.properties[CONFIDENCE := Single(ConcreteSingle, CONFIDENCE, Doubt())]))])
  }

  lemma DoubtJoins(u: Value)
    requires u == Numbers(2).values[0]
    ensures InsertValue(u.meta, CONFIDENCE, Doubt(), Fuzzy)
         == Done(u.meta.(properties := u.meta.properties[CONFIDENCE := Single(ConcreteSingle, CONFIDENCE, Doubt())]))
  {
    var m := u.meta;
    assert u == Number().(orderingId := 0);
    assert m.properties == map[CONFIDENCE := Property(ConcreteSingle, CONFIDENCE, SubType.Confidence, [ConfidenceRecord(100)])] && !m.locked;
    var p := m.properties[CONFIDENCE];
    assert Certainty(Doubt()) == 100;
    hide Certainty, Sorting.StableSort;
    assert Appended(p, Doubt()) == Done(Single(ConcreteSingle, CONFIDENCE, Doubt()));
    hide Appended;
    Startup.ValueJoins(m, CONFIDENCE, Doubt(), Fuzzy, p, Single(ConcreteSingle, CONFIDENCE, Doubt()));
  }

  lemma NumbersAre(o: Owner)
    requires o == WithNumbers(2).entities[1].owner
    ensures 1 in WithNumbers(2).entities && KEY in o.properties && o.properties[KEY] == Numbers(2) && !o.locked
  {
  }

  lemma DoubtIsAnnotated(o: Owner)
    requires KEY in o.properties && o.properties[KEY] == Numbers(2)
    ensures Annotated(o, KEY, 0, CONFIDENCE, Doubt()) == Done(o.(properties := o.properties[KEY := Doubted()]))
  {
    var p := Numbers(2);
    var u := p.values[0];
    DoubtJoins(u);
    assert Dereferenced(p, 0) == Done(u);
    hide InsertValue, Doubt;
  }

  lemma DoubtIsMade()
    ensures WellMade(Doubt())
  {
    Merging.RecordIsLoose(10);
    Merging.LooseIsSound(Doubt());
    hide Merging.LooseValue;
  }

  lemma DoubtIs10(u: Value)
    requires u == Number().(orderingId := 0)
    ensures NewCertainty(u, CONFIDENCE, Doubt()) == 10
  {
  }

  /** The doubted number is the less certain one, and still the first. */
  lemma DoubtUnsorts(o: Owner)
    requires KEY in o.properties && o.properties[KEY] == Numbers(2)
    ensures !StaysSorted(o, KEY, 0, CONFIDENCE, Doubt())
  {
    hide Certainty, Number, WellMade, NewCertainty, Doubt;
    var p := Numbers(2);
    NumberIsInsertable();
    assert p.values[0] == Number().(orderingId := 0) && p.values[1] == Number().(orderingId := 1);
    RecertainNumbered(Number(), 1);
    DoubtIs10(p.values[0]);
  }

  lemma DoubtedIsShort(o: Owner)
    requires ShortLists(o)
    ensures ShortLists(o.(properties := o.properties[KEY := Doubted()]))
  {
    hide ShortMeta;
    NumberIsShort(0);
    NumberIsShort(1);
    forall i | 0 <= i < 2 ensures ShortMeta(Doubted().values[i]) {
      if i == 0 { DoubtIsShort(); }
    }
  }

  lemma DoubtIsShort()
    ensures ShortMeta(Doubted().values[0])
  {
    var u := Numbers(2).values[0];
    assert u == Number().(orderingId := 0);
    assert Doubted().values[0].meta.properties == u.meta.properties[CONFIDENCE := Single(ConcreteSingle, CONFIDENCE, Doubt())];
    NumberIsShort(0);
    hide Number, Doubted;
  }

  lemma DoubtedIsBounded(g: Graph, g': Graph)
    requires g == WithNumbers(2) && Bounded(g) && 1 in g.entities && g' == WithDoubt(g)
    ensures Bounded(g')
  {
    hide ShortLists, WithNumbers, Doubted;
    DoubtedIsShort(g.entities[1].owner);
  }

  function WithDoubt(g: Graph): Graph
    requires 1 in g.entities
  {
    var e := g.entities[1];
    g.(entities := g.entities[1 := e.(owner := e.owner.(properties := e.owner.properties[KEY := Doubted()]))])
  }

  const LOWERED := Annotate(1, KEY, 0, CONFIDENCE, Doubt())

  lemma LoweredIsGood()
    ensures GoodEdit(LOWERED) && LoadsAfter(LOWERED)
  {
    DoubtIsMade();
    assert Records.Stored(Doubt().subtype);
    hide Doubt, WellMade;
  }

  lemma LoweredIs(g: Graph)
    requires g == WithNumbers(2)
    ensures 1 in g.entities && Edited(g, LOWERED) == (WithDoubt(g), false) && !Survives(g, LOWERED)
  {
    var o := g.entities[1].owner;
    NumbersAre(o);
    hide WithNumbers, Numbers, Doubt, Doubted, Annotated, StaysSorted;
    DoubtIsAnnotated(o);
    DoubtUnsorts(o);
  }

  /** A confidence annotated to a value that is not the least certain: the list is
      no longer in order, as the reader puts it. */
  lemma ConfidenceDiffers()
    ensures Differs(WithNumbers(2), LOWERED)
  {
    var g := WithNumbers(2);
    LoweredIs(g);
    LoweredIsGood();
    hide WithNumbers, Numbers, Ready, Bounded, Differs, WithDoubt, LoadsAfter, GoodEdit, Survives, Edited;
    NumbersAreReady(2);
    NumbersAreShort(g, 2);
    DoubtedIsBounded(g, WithDoubt(g));
    DiffersIf(g, LOWERED);
  }
}
