/** A database to start from: what the other theorems ask of a graph and its file is
    met, by two entities that were created, linked and saved. From there, a MERGE and
    a removal each lead to a graph that breaks a promise. */
module Startup {
  import opened Bytes
  import opened Directory
  import opened Edits
  import opened Entities
  import opened GraphFile
  import opened LinkGraph
  import opened Listings
  import LinkTable
  import MemberCodec
  import Hierarchy
  import Merging
  import MirroredRuns
  import NameTable
  import opened Paths
  import opened Persistence
  import PrimitiveMap
  import opened Properties
  import Records
  import Registry
  import Removals
  import Sorting
  import opened Stability

  const NO_NAMES := NameTable.Names(1, [], map[], map[])

  const EMPTY := Graph(map[], map[], NO_NAMES, NO_NAMES, map[])

  /** The type both entities have. */
  const KIND: Text := [107]

  const BY := Stamp(0, Members([7], []))

  function One(): Entity { Created(1, 1, BY) }

  function Two(): Entity { Created(2, 1, BY) }

  /** Two entities of one type, linked to each other. */
  function Pair(): Graph {
    Graph(map[1 := One().(status := Master), 2 := Two().(status := Slave)], map[1 := {2}, 2 := {1}],
          NameTable.Names(2, [], map[1 := KIND], map[KIND := 1]), NO_NAMES, map[])
  }

  function Unlinked(): Graph {
    Pair().(links := map[], entities := map[1 := One(), 2 := Two()])
  }

  // ---------- how the pair comes about ----------

  lemma TwoAreCreated()
    ensures Body(EMPTY, [Create(1, KIND, BY), Create(2, KIND, BY)]) == (Unlinked(), false)
    ensures Registry.Newborn(Unlinked().entities[1], 1, 1, BY) && Registry.Newborn(Unlinked().entities[2], 2, 1, BY)
    ensures Unlinked().typeNames.byName == map[KIND := 1] && Unlinked().typeNames.byId == map[1 := KIND]
  {
    Registry.CreatedIsNewborn(1, 1, BY);
    Registry.CreatedIsNewborn(2, 1, BY);
    hide Registry.Newborn;
    hide Created;
    var edits := [Create(1, KIND, BY), Create(2, KIND, BY)];
    assert edits[..1] == [edits[0]] && edits[..1][..0] == [];
    assert Body(EMPTY, edits[..1]) == Edited(EMPTY, edits[0]);
  }

  lemma CreatedAre()
    ensures One().handle == 1 && Two().handle == 2 && One().status == NotLinked && Two().status == NotLinked
    ensures CreatedOwner(One().owner) && CreatedOwner(Two().owner)
  {
  }

  predicate CreatedOwner(o: Owner) {
    o == Owner(false, map[TYPE := Property(ConcreteSingle, TYPE, TypeID, [TypeRecord(1, BY)])])
  }

  lemma ThenTheyAreLinked()
    ensures LinkedGraph(Unlinked(), 1, 2) == Pair()
  {
    LinkedLikeThePair();
    hide LinkStateOf, Linked, Pair, Unlinked, WithLinks;
    PairIsRelabelled();
  }

  lemma LinkedLikeThePair()
    ensures Linked(LinkStateOf(Unlinked()), 1, 2) == LinkStateOf(Pair())
  {
    CreatedAre();
    PairIsValid();
    hide Created, One, Two, Reaches, CreatedOwner, Linked, Valid;
    var s, t := LinkStateOf(Unlinked()), LinkStateOf(Pair());
    assert s == LinkState(map[], map[1 := NotLinked, 2 := NotLinked]);
    LinkTwo(s, t);
  }

  lemma LinkTwo(s: LinkState, t: LinkState)
    requires s == LinkState(map[], map[1 := NotLinked, 2 := NotLinked])
    requires t.links == map[1 := {2}, 2 := {1}] && t.status.Keys == {1, 2} && Valid(t)
    ensures Linked(s, 1, 2) == t
  {
    hide Component, Relabel, AddEdge, Reaches;
    assert Valid(s);
    hide Valid;
    LinkKeepsValid(s, 1, 2);
    LinkKeepsEntities(s, 1, 2);
    AddOne(s.links);
    StatusFollowsLinks(Linked(s, 1, 2), t);
  }

  lemma AddOne(links: Adjacency)
    requires links == map[]
    ensures AddEdge(links, 1, 2) == map[1 := {2}, 2 := {1}]
  {
    var both: Adjacency := map[1 := {}, 2 := {}];
    assert LinkGraph.WithKey(LinkGraph.WithKey(links, 1), 2) == both;
    assert both[1] + {2} == {2} && both[2] + {1} == {1};
  }

  lemma PairIsRelabelled()
    ensures WithLinks(Unlinked(), LinkStateOf(Pair())) == Pair()
  {
    hide Created;
    assert LinkStateOf(Pair()).status == map[1 := Master, 2 := Slave];
    assert WithLinks(Unlinked(), LinkStateOf(Pair())).entities == Pair().entities;
  }

  /** Every status agrees with the link table. */
  lemma PairIsValid()
    ensures Valid(LinkStateOf(Pair()))
  {
    hide One, Two;
    assert LinkStateOf(Pair()) == LinkState(Pair().links, map[1 := Master, 2 := Slave]);
    TwoAreValid(LinkStateOf(Pair()));
  }

  lemma TwoAreValid(s: LinkState)
    requires s.links == map[1 := {2}, 2 := {1}] && s.status == map[1 := Master, 2 := Slave]
    ensures Valid(s)
  {
    hide Reaches;
    var g := s.links;
    assert ClosedUnder(g, {1, 2}) && Symmetric(g);
    ReachesNeighbour(g, 2, 1);
    ReachesSelf(g, 1);
    forall h, x | h in {1, 2} && x in Component(g, h) ensures x in {1, 2} { ClosedKeepsReached(g, {1, 2}, h, x); }
    assert IsLeast(1, Component(g, 1)) && !IsLeast(2, Component(g, 2));
  }

  lemma StatusIsFree(e: Entity, status: LinkStatus)
    requires Fine(e) && Unchanging(e)
    ensures Fine(e.(status := status)) && Unchanging(e.(status := status))
  {
    StatusIgnored(e.(status := status), e);
  }

  lemma PairIsFine(g: Graph)
    requires g == Pair()
    ensures FineGraph(g) && SoundEntities(g) && Keeps(g)
  {
    CreatedAre();
    CreatedIsFine(1, 1, BY);
    CreatedIsFine(2, 1, BY);
    TablesAreFine(g);
    hide Fine, Unchanging, SoundEntity, Created, FineTables;
    StatusIsFree(One(), Master);
    StatusIsFree(Two(), Slave);
    hide One, Two, CreatedOwner;
    FineParts(g);
  }

  lemma TablesAreFine(g: Graph)
    requires g == Pair()
    ensures FineTables(g)
  {
    hide One, Two;
  }

  lemma PairIsReady(g: Graph)
    requires g == Pair()
    ensures Ready(g) && Healthy(g)
  {
    PairIsFine(g);
    PairIsValid();
    PairIsTyped(g);
    hide FineGraph, Keeps, Valid, Pair, Merging.SinglyTyped, Merging.NoneEmpty;
  }

  lemma PairIsTyped(g: Graph)
    requires g == Pair()
    ensures Merging.SinglyTyped(g) && Merging.NoneEmpty(g)
  {
    CreatedAre();
    hide One, Two, TypeRecord;
  }

  // ---------- the size of the file ----------

  lemma {:induction false} ConcatBound(parts: seq<seq<Byte>>, n: nat)
    requires forall i :: 0 <= i < |parts| ==> |parts[i]| <= n
    ensures |Concat(parts)| <= n * |parts|
  {
    if parts != [] {
      var init := parts[..|parts| - 1];
      ConcatGrows(parts, |init|);
      assert parts[..|parts|] == parts;
      ConcatBound(init, n);
      assert n * |parts| == n * |init| + n;
    }
  }

  ghost predicate ShortList(p: Property, key: nat, n: nat)
    requires Records.SoundProperty(p, key)
  {
    |p.values| == 1 && |Records.EncodeValue(p.values[0])| <= n
  }

  lemma OwnerTakes(o: Owner, n: nat)
    requires Records.SoundOwner(o) && forall k :: k in o.properties ==> ShortList(o.properties[k], k, n)
    requires |o.properties| <= 2
    ensures |Records.EncodeOwner(o)| <= 121 + 2 * n
  {
    forall i | 0 <= i < |Records.Bodies(o)| ensures |Records.Bodies(o)[i]| <= n { BodyTakes(o, n, i); }
    hide Records.SoundOwner, ShortList, Records.Bodies, Records.EncodeOwner, Concat;
    ConcatBound(Records.Bodies(o), n);
    Twice(n, |o.properties|);
    OwnerIs(o);
  }

  lemma Twice(n: nat, k: nat)
    requires k <= 2
    ensures n * k <= 2 * n
  {
    assert k == 0 || k == 1 || k == 2;
  }

  lemma OwnerIs(o: Owner)
    requires Records.SoundOwner(o)
    ensures |Records.EncodeOwner(o)| == 57 + 32 * |o.properties| + |Concat(Records.Bodies(o))|
  {
    var bodies := Records.Bodies(o);
    hide Records.SoundOwner, Records.Bodies, Concat;
    LaidSize(Records.Headers(o, bodies), 32, Records.LockByte(o.locked), bodies);
  }

  lemma BodyTakes(o: Owner, n: nat, i: nat)
    requires Records.SoundOwner(o) && i < |o.properties| && forall k :: k in o.properties ==> ShortList(o.properties[k], k, n)
    ensures |Records.Bodies(o)[i]| <= n
  {
    hide Records.EncodeValue, Records.SoundValue;
    var k := Records.KeysOf(o)[i];
    assert k in Records.KeysOf(o);
    var p := o.properties[k];
    assert Records.SoundProperty(p, k) && ShortList(p, k, n);
    ListTakes(p, k, n);
    hide Records.SoundProperty, ShortList, Records.ValueParts, Concat;
    assert Records.Bodies(o)[i] == Concat(Records.ValueParts(p, k));
  }

  lemma ListTakes(p: Property, key: nat, n: nat)
    requires Records.SoundProperty(p, key) && ShortList(p, key, n)
    ensures |Concat(Records.ValueParts(p, key))| <= n
  {
    hide Records.EncodeValue, Records.SoundValue;
    assert Records.ValueParts(p, key) == [Records.EncodeValue(p.values[0])];
    ConcatOne(Records.EncodeValue(p.values[0]));
  }

  lemma ValueTakes(v: Value, n: nat)
    requires Records.SoundValue(v) && |Records.EncodeOwner(v.meta)| <= n
    requires v.subtype == TimeStamp || (v.members.texts == [] && |v.members.numbers| == 1)
    ensures |Records.EncodeValue(v)| <= 36 + n
  {
    hide Records.EncodeOwner, Records.SoundOwner;
    NumberTakes(4, v.orderingId);
    if v.subtype == TimeStamp || v.subtype == ValueReference {
      assert MemberCodec.EncodeMembers([], Members([], [])) == [];
    } else {
      assert Records.StoredMembers(v) == Members([v.members.numbers[0]], []);
      NumberTakes(4, v.members.numbers[0]);
      NumberTakes(8, v.members.numbers[0]);
    }
    hide MemberCodec.EncodeMembers;
  }

  lemma NumberTakes(w: nat, n: nat)
    ensures |MemberCodec.EncodeMembers([w], Members([n], []))| == w
  {
    assert [w][..0] == [] && [n][..0] == [] && MemberCodec.Primitives([], []) == [];
    assert MemberCodec.Primitives([w], [n]) == MemberCodec.Primitives([], []) + LE([n][0], w);
    assert MemberCodec.Dynamics([]) == [];
  }

  lemma CreatedTakes(h: Handle, status: LinkStatus)
    requires SoundEntity(Created(h, 1, BY).(status := status))
    ensures |EncodeEntity(Created(h, 1, BY).(status := status))| <= 1000
  {
    var e := Created(h, 1, BY).(status := status);
    var v := TypeRecord(1, BY);
    assert e.owner.properties == map[TYPE := Property(ConcreteSingle, TYPE, TypeID, [v])];
    RecordTakes(v);
    assert Records.SoundOwner(e.owner) && Records.SoundProperty(e.owner.properties[TYPE], TYPE);
    assert ShortList(e.owner.properties[TYPE], TYPE, 400);
    hide Records.SoundOwner, Records.SoundValue, Records.EncodeValue, Records.SoundProperty, TypeRecord, ShortList;
    OwnerTakes(e.owner, 400);
    hide Records.EncodeOwner, EncodeEntity;
    EntityPlaces(e, []);
  }

  lemma RecordTakes(v: Value)
    requires v == TypeRecord(1, BY)
    ensures Records.SoundValue(v) && |Records.EncodeValue(v)| <= 400
  {
    TypeRecordIsSound(1, BY);
    MetaTakes(v.meta);
    hide Records.EncodeOwner, Records.EncodeValue, Records.SoundValue, Records.SoundOwner;
    ValueTakes(v, 363);
  }

  lemma MetaTakes(o: Owner)
    requires o == TypeRecord(1, BY).meta && Records.SoundOwner(o)
    ensures |Records.EncodeOwner(o)| <= 363
  {
    var author, moment := Bare(AuthorID, Members([BY.author], [])), Bare(TimeStamp, BY.moment);
    BareIsSound(author);
    BareIsSound(moment);
    BareTakes(author);
    BareTakes(moment);
    assert o.properties == map[AUTHOR := Locker(AUTHOR, author), CREATED := Locker(CREATED, moment)];
    hide Records.SoundValue, Records.EncodeValue, Records.EncodeOwner, Records.SoundOwner, Bare, TypeRecord, Locker;
    LockersTake(o, author, moment);
  }

  lemma LockersTake(o: Owner, author: Value, moment: Value)
    requires Records.SoundOwner(o) && o.properties == map[AUTHOR := Locker(AUTHOR, author), CREATED := Locker(CREATED, moment)]
    requires Records.SoundValue(author) && |Records.EncodeValue(author)| <= 121
    requires Records.SoundValue(moment) && |Records.EncodeValue(moment)| <= 121
    ensures |Records.EncodeOwner(o)| <= 363
  {
    hide Records.SoundValue, Records.EncodeValue, Records.EncodeOwner, Locker, ShortList, Records.SoundProperty;
    assert Records.SoundProperty(o.properties[AUTHOR], AUTHOR) && Records.SoundProperty(o.properties[CREATED], CREATED);
    LockerIsShort(AUTHOR, author, 121);
    LockerIsShort(CREATED, moment, 121);
    forall k | k in o.properties ensures ShortList(o.properties[k], k, 121) { assert k == AUTHOR || k == CREATED; }
    hide Records.SoundOwner;
    OwnerTakes(o, 121);
  }

  lemma LockerIsShort(key: nat, v: Value, n: nat)
    requires Records.SoundValue(v) && |Records.EncodeValue(v)| <= n && Records.SoundProperty(Locker(key, v), key)
    ensures ShortList(Locker(key, v), key, n)
  {
    hide Records.EncodeValue, Records.SoundValue;
  }

  lemma BareTakes(v: Value)
    requires Records.SoundValue(v) && v.meta == Owner(false, map[])
    requires v.subtype == TimeStamp || (v.members.texts == [] && |v.members.numbers| == 1)
    ensures |Records.EncodeValue(v)| <= 121
  {
    OwnerIs(v.meta);
    ValueTakes(v, 57);
  }

  lemma LinksTake56(m: LinkTable.Links)
    requires m == map[1 := {2}, 2 := {1}]
    ensures |LinkTable.EncodeLinks(m)| == 56
  {
    LinkTable.KeysListed(m);
    assert |m| == 2;
    var keys := Ascending(m.Keys);
    hide Ascending;
    EntriesTake(m, keys);
    hide LinkTable.EntriesWords;
  }

  lemma {:induction false} EntriesTake(m: LinkTable.Links, keys: seq<nat>)
    requires m == map[1 := {2}, 2 := {1}] && forall k :: k in keys ==> k in m
    ensures |LinkTable.EntriesWords(m, keys)| == 3 * |keys|
  {
    hide LinkTable.EntryWords;
    if keys != [] {
      EntryTakes(m, keys[0]);
      EntriesTake(m, keys[1..]);
    }
  }

  lemma EntryTakes(m: LinkTable.Links, key: nat)
    requires m == map[1 := {2}, 2 := {1}] && key in m
    ensures |LinkTable.EntryWords(key, m[key])| == 3
  {
    AscendingLists(m[key]);
    hide Ascending;
  }

  lemma NamesTake(t: NameTable.Names)
    requires t.pool == [] && |t.byName| <= 1 && forall n :: n in t.byName ==> |n| <= 1
    ensures |NameTable.EncodeNames(t)| <= 100
  {
    NameTable.SizeIsExact(t);
    var names := NameTable.Listed(t);
    var bodies := NameTable.Bodies(t, names);
    forall i | 0 <= i < |bodies| ensures |bodies[i]| <= 6 { assert names[i] in names; }
    ConcatBound(bodies, 6);
    LaidSize(NameTable.Headers(bodies, names), 16, [], bodies);
  }

  lemma PairEntitiesTake(g: Graph)
    requires SoundEntities(g) && |g.entities| == 2 && forall h :: h in g.entities ==> |EncodeEntity(g.entities[h])| <= 1000
    ensures |EntityData(g, 0)| <= 3000
  {
    hide SoundEntities, EncodeEntity, Handles;
    var bodies := GraphFile.Bodies(g);
    forall i | 0 <= i < |bodies| ensures |bodies[i]| <= 1000 { BodyIs(g, i); }
    hide GraphFile.Bodies, EntityAt;
    ConcatBound(bodies, 1000);
    hide Concat;
    LaidSize(GraphFile.Headers(bodies, 0), 16, [], bodies);
  }

  lemma FiveParts(parts: seq<seq<Byte>>)
    requires |parts| == 5
    ensures |Concat(parts)| == |parts[0]| + |parts[1]| + |parts[2]| + |parts[3]| + |parts[4]|
  {
    ConcatGrows(parts, 0);
    ConcatGrows(parts, 1);
    ConcatGrows(parts, 2);
    ConcatGrows(parts, 3);
    ConcatGrows(parts, 4);
    assert parts[..5] == parts && Concat(parts[..0]) == [];
    hide Concat;
  }

  lemma EntitiesTake(g: Graph)
    requires g == Pair() && SoundEntities(g)
    ensures |g.entities| == 2 && forall h :: h in g.entities ==> |EncodeEntity(g.entities[h])| <= 1000
  {
    hide EncodeEntity;
    assert SoundEntity(g.entities[1]) && SoundEntity(g.entities[2]);
    hide SoundEntity;
    CreatedTakes(1, Master);
    CreatedTakes(2, Slave);
  }

  lemma PairFits(g: Graph)
    requires g == Pair() && SoundEntities(g)
    ensures Persistence.Fits(g)
  {
    TablesTake(g);
    LinksTake56(g.links);
    EntitiesTake(g);
    PairEntitiesTake(g);
    hide Pair, SoundEntities, EncodeEntity;
    GraphTakes(g);
  }

  lemma TablesTake(g: Graph)
    requires g == Pair()
    ensures |NameTable.EncodeNames(g.typeNames)| <= 100 && |NameTable.EncodeNames(g.propertyNames)| <= 100
    ensures |PrimitiveMap.EncodeMap(g.propertyTypes)| == 32
  {
    NamesTake(g.typeNames);
    NamesTake(g.propertyNames);
    PrimitiveMap.SizeIsExact(g.propertyTypes);
  }

  lemma GraphTakes(g: Graph)
    requires SoundEntities(g)
    requires |NameTable.EncodeNames(g.typeNames)| <= 100 && |NameTable.EncodeNames(g.propertyNames)| <= 100
    requires |PrimitiveMap.EncodeMap(g.propertyTypes)| == 32 && |LinkTable.EncodeLinks(g.links)| == 56 && |EntityData(g, 0)| <= 3000
    ensures Persistence.Fits(g)
  {
    var parts := Sections(g, 0);
    SectionItems(g, 0);
    FiveParts(parts);
    hide Sections, Concat, NameTable.EncodeNames, PrimitiveMap.EncodeMap, LinkTable.EncodeLinks, EntityData, SoundEntities, Words;
  }

  lemma SavedIsInStep(g: Graph, record: Value)
    requires FineGraph(g) && SoundEntities(g) && Persistence.Fits(g) && Keeps(g)
    ensures InStep(Database(g, FileOf(g)))
  {
    hide *;
    SavedInStepIff(g, record);
  }

  lemma PairIsKeyed()
    ensures Registry.Keyed(EMPTY) && Registry.Keyed(Pair())
  {
    hide One, Two;
  }

  lemma PairIsWhole()
    ensures MirroredRuns.Whole(Merging.OwnersOf(Pair()))
  {
    CreatedAre();
    var s := Merging.OwnersOf(Pair());
    assert s.Keys == {1, 2} && s[1] == One().owner && s[2] == Two().owner;
    hide One, Two, TypeRecord, Pair, Merging.OwnersOf;
    assert forall h :: Hierarchy.ParentValues(s, h) == [] && Hierarchy.ChildValues(s, h) == [];
  }

  /** Saved, the pair is a database that every run of calls can start from. */
  lemma SavedPairIsInStep()
    ensures Ready(Pair()) && InStep(Database(Pair(), FileOf(Pair()))) && MirroredRuns.Whole(Merging.OwnersOf(Pair()))
    ensures Registry.Keyed(Pair())
  {
    PairIsWhole();
    PairIsKeyed();
    hide Registry.Keyed, MirroredRuns.Whole, Merging.OwnersOf, Ready, Healthy, FineGraph, Persistence.Fits, Keeps, SoundEntities, InStep, FileOf, Pair, TypeRecord;
    var g := Pair();
    PairIsFine(g);
    PairIsReady(g);
    PairFits(g);
    SavedIsInStep(g, TypeRecord(1, BY));
  }

  // ---------- what breaks from there ----------

  /** Merging the two leaves the link table pointing at the one that is gone. */
  lemma MergedPairBreaksLinks()
    ensures Merging.MayMerge(Pair(), 1, 2) && !Merging.MergeCall(Pair(), 1, 2).threw
    ensures !Valid(LinkStateOf(Merging.MergeCall(Pair(), 1, 2).after))
  {
    PairIsValid();
    PairMerges();
    hide Valid, Merging.Absorbed;
    Merging.MergeKeepsLinksIff(Pair(), 1, 2);
  }

  lemma PairMerges()
    ensures Merging.MayMerge(Pair(), 1, 2) && Merging.Absorbed(Pair(), 1, 2).Merged?
  {
    CreatedAre();
    var s, o := Merging.OwnersOf(Pair()), Two().owner;
    assert s[1] == One().owner && s[2] == o && Pair().entities[2].owner == o;
    hide One, Two, Created, TypeRecord;
    OnlyListed(o, TYPE);
    var p := o.properties[TYPE];
    assert Merging.Listed(o)[..0] == [];
    assert Merging.AbsorbAll(s, 1, []) == Merging.Merged(s);
    TypeAppends(s[1], p);
    hide InsertProperty;
    assert Merging.AbsorbAll(s, 1, [p]) == Merging.Absorb(s, 1, p) by { assert [p][..0] == []; }
  }

  lemma OnlyListed(o: Owner, key: nat)
    requires o.properties.Keys == {key}
    ensures Merging.Listed(o) == [o.properties[key]]
  {
    assert |o.properties| == |o.properties.Keys| == 1;
    assert Records.KeysOf(o)[0] in Records.KeysOf(o);
  }

  lemma TypeAppends(o: Owner, p: Property)
    requires CreatedOwner(o) && p == o.properties[TYPE]
    ensures InsertProperty(o, p).Done?
  {
    assert p.values[..0] == [];
    assert AppendEach(p, []) == Done(p);
    assert |p.values| == 1 && p.values[0].subtype == TypeID && Certainty(p.values[0]) == 100;
  }

  /** Two numbers in a row, less the first: the graph can be saved, but what is loaded
      again is not equal to it. */
  function Number(): Value {
    Value(Int32, 0, Members([5], []), Hierarchy.MakeRef(1, 100).meta)
  }

  function Numbers(count: nat): Property {
    Property(Fuzzy, 9, Int32, seq(count, i requires 0 <= i < count => Number().(orderingId := i)))
  }

  lemma NumberIsInsertable()
    ensures WellMade(Number()) && Timeless([Number()]) && Certainty(Number()) == 100 && Number().subtype == Int32
  {
    Widths();
    Merging.RefIsLoose(1, 100);
    Hierarchy.MakeRefIsCertain(1, 100);
    hide Pow256;
  }

  lemma NumberAppends(count: nat)
    ensures Appended(Numbers(count), Number()) == Done(Numbers(count + 1))
  {
    NumberIsInsertable();
    hide Number, Certainty, Sorting.StableSort;
    var all := Numbers(count).values + [Number()];
    NumbersAreSorted(count, all);
    assert Renumbered(all) == Numbers(count + 1).values;
  }

  lemma NumbersAreSorted(count: nat, all: seq<Value>)
    requires all == Numbers(count).values + [Number()]
    ensures Sorting.StableSort(all, ByCertainty()) == all
  {
    NumberIsInsertable();
    hide Number, Certainty, Sorting.StableSort, WellMade;
    forall i | 0 <= i < |all| ensures Certainty(all[i]) == 100 {
      if i < count { RecertainNumbered(Number(), i); }
    }
    hide Numbers;
    forall i, j | 0 <= i < j < |all| ensures ByCertainty()(all[i]) >= ByCertainty()(all[j]) { }
    Sorting.StableSortFixesSorted(all, ByCertainty());
  }

  function WithNumbers(count: nat): Graph {
    var e := Pair().entities[1];
    Pair().(entities := Pair().entities[1 := e.(owner := Holding(e.owner, count))])
  }

  lemma NumberIsPut(count: nat)
    ensures Edited(WithNumbers(count), Put(1, 9, Number())) == (WithNumbers(count + 1), false)
  {
    NumberIsInserted(count);
    hide InsertValue, Number;
    var g, g' := WithNumbers(count), WithNumbers(count + 1);
    PutIs(g, 1, 9, Number(), g'.entities[1].owner);
    PairHas();
    hide Pair, Numbers;
    assert g'.entities == g.entities[1 := g.entities[1].(owner := g'.entities[1].owner)];
  }

  lemma PairHas()
    ensures Pair().entities.Keys == {1, 2} && 9 !in Pair().entities[1].owner.properties && !Pair().entities[1].owner.locked
  {
  }

  lemma NumberIsInserted(count: nat)
    ensures InsertValue(WithNumbers(count).entities[1].owner, 9, Number(), Fuzzy) == Done(WithNumbers(count + 1).entities[1].owner)
  {
    PairHas();
    hide Pair, InsertValue, Numbers, Number;
    NumberJoins(Pair().entities[1].owner, count);
  }

  function Holding(o: Owner, count: nat): Owner {
    if count == 0 then o else o.(properties := o.properties[9 := Numbers(count)])
  }

  lemma NumberJoins(o: Owner, count: nat)
    requires 9 !in o.properties && !o.locked
    ensures InsertValue(Holding(o, count), 9, Number(), Fuzzy) == Done(Holding(o, count + 1))
  {
    hide InsertValue, Appended, Number;
    NumberAppends(count);
    NumberIsInsertable();
    assert Numbers(0) == Property(Fuzzy, 9, Int32, []);
    ValueJoins(Holding(o, count), 9, Number(), Fuzzy, Numbers(count), Numbers(count + 1));
    hide Numbers;
    assert Holding(o, count).properties[9 := Numbers(count + 1)] == o.properties[9 := Numbers(count + 1)];
  }

  lemma ValueJoins(o: Owner, key: nat, v: Value, kind: Kind, p: Property, q: Property)
    requires !o.locked && kind != Locked && p == ListFor(o, key, v, kind) && Appended(p, v) == Done(q)
    ensures InsertValue(o, key, v, kind) == Done(o.(properties := o.properties[key := q]))
  {
    hide Appended;
  }

  lemma NumbersAreShort(g: Graph, count: nat)
    requires g == WithNumbers(count) && 1 <= count <= 2
    ensures Bounded(g)
  {
    CreatedAre();
    CreatedIsShort(One().owner);
    CreatedIsShort(Two().owner);
    HoldingIsShort(One().owner, count);
    hide ShortLists, One, Two, Numbers, Holding;
  }

  lemma CreatedIsShort(o: Owner)
    requires CreatedOwner(o)
    ensures ShortLists(o)
  {
    assert ShortMeta(TypeRecord(1, BY));
  }

  lemma HoldingIsShort(o: Owner, count: nat)
    requires ShortLists(o) && count <= 2
    ensures ShortLists(Holding(o, count))
  {
    hide ShortMeta;
    forall i | 0 <= i < count ensures ShortMeta(Numbers(count).values[i]) { NumberIsShort(i); }
    hide Number;
  }

  lemma NumberIsShort(i: nat)
    ensures ShortMeta(Number().(orderingId := i))
  {
  }

  lemma NumbersAreReady(count: nat)
    requires count <= 2
    ensures Ready(WithNumbers(count))
  {
    hide Ready, WellMade, Timeless, Number, WithNumbers, Numbers, Bounded, Edited;
    if count == 0 {
      PairIsReady(Pair());
      NoNumbers();
    } else {
      NumbersAreReady(count - 1);
      NumberIsPut(count - 1);
      NumbersAreShort(WithNumbers(count), count);
      NumberIsInsertable();
      EditKeepsReadyIff(WithNumbers(count - 1), Put(1, 9, Number()));
    }
  }

  lemma NoNumbers()
    ensures WithNumbers(0) == Pair()
  {
    PairHas();
    hide Pair;
  }

  /** After two inserts and the removal of the first, memory and file differ. */
  lemma RemovalIsNotKept()
    ensures Removals.Deletable(WithNumbers(2), 1, 9, 0)
    ensures var g := Removals.Deleted(WithNumbers(2), 1, 9, 0);
      FineGraph(g) && SoundEntities(g) && !GraphEqual(g, ReloadedGraph(g))
  {
    NumbersAreReady(2);
    NumbersAreShort(WithNumbers(2), 2);
    BoundedIsCounted(WithNumbers(2));
    PairHas();
    hide Ready, Pair, Number, GraphEqual, ReloadedGraph, FineGraph, SoundEntities, Bounded, Merging.Counted;
    Removals.DeletionSurvivesIff(WithNumbers(2), 1, 9, 0);
  }
}
