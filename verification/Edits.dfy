/** INSERT: a list of edits to the graph, one for every name, entity and value that
    the statement adds, any of which may throw. */
module Edits {
  import opened Bytes
  import opened Entities
  import opened GraphFile
  import opened Hierarchy
  import LinkGraph
  import LinkTable
  import opened Listings
  import opened MemberCodec
  import opened Merging
  import NameTable
  import Persistence
  import PrimitiveMap
  import opened Properties
  import opened Records
  import opened Reload
  import opened Sorting
  import opened Stability

  const AUTHOR := 5
  const CREATED := 7

  // ---------- what is added ----------

  /** The author and the moment of a record, from session and clock. */
  datatype Stamp = Stamp(author: nat, moment: Members)

  function Bare(t: SubType, members: Members): Value { Value(t, 0, members, Owner(false, map[])) }

  function Locker(key: nat, v: Value): Property { Property(Locked, key, v.subtype, [v]) }

  /** A type record as Init leaves it. */
  function TypeRecord(typeId: nat, stamp: Stamp): Value {
    Value(TypeID, 0, Members([typeId], []), Owner(false,
      map[AUTHOR := Locker(AUTHOR, Bare(AuthorID, Members([stamp.author], []))), CREATED := Locker(CREATED, Bare(TimeStamp, stamp.moment))]))
  }

  /** The constructor of Entity. */
  function Created(h: Handle, typeId: nat, stamp: Stamp): Entity {
    Entity(h, LinkGraph.NotLinked, Owner(false, map[TYPE := Property(ConcreteSingle, TYPE, TypeID, [TypeRecord(typeId, stamp)])]))
  }

  /** The id of a name: NameManager::get, or else add, which prefers released ids. */
  function IdFor(t: NameTable.Names, name: Text): nat {
    if name in t.byName then t.byName[name] else if t.pool != [] then t.pool[0] else t.next
  }

  function Registered(t: NameTable.Names, name: Text): NameTable.Names {
    if name in t.byName then t
    else
      var id := IdFor(t, name);
      NameTable.Names(if t.pool != [] then t.next else t.next + 1, if t.pool != [] then t.pool[1..] else [],
                      Inserted(t.byId, id, name), Inserted(t.byName, name, id))
  }

  // ---------- the edits ----------

  /** NEW creates an entity of a named type; a predicate declares its property; a
      triple puts a value into an entity; a triple about a META variable annotates a
      value. */
  datatype Edit =
    | Create(h: Handle, typeName: Text, stamp: Stamp)
    | Declare(name: Text, code: nat)
    | Put(h: Handle, key: nat, v: Value)
    | Annotate(h: Handle, key: nat, position: nat, metaKey: nat, v: Value)

  /** The graph after an edit, and whether it threw. */
  function Edited(g: Graph, e: Edit): (Graph, bool) {
    match e
    case Create(h, typeName, stamp) =>
      (g.(typeNames := Registered(g.typeNames, typeName),
          entities := Inserted(g.entities, h, Created(h, IdFor(g.typeNames, typeName), stamp))), false)
    case Declare(name, code) =>
      (if name in g.propertyNames.byName then g
       else g.(propertyNames := Registered(g.propertyNames, name),
               propertyTypes := Inserted(g.propertyTypes, IdFor(g.propertyNames, name), code)), false)
    case Put(h, key, v) =>
      if h !in g.entities then (g, true)
      else
        var r := PutInto(OwnersOf(g), h, key, v);
        (WithOwners(g, r.store), r.threw)
    case Annotate(h, key, position, metaKey, v) =>
      if h !in g.entities then (g, true)
      else match Annotated(g.entities[h].owner, key, position, metaKey, v)
        case Threw => (g, true)
        case Done(o) => (g.(entities := g.entities[h := g.entities[h].(owner := o)]), false)
  }

  function PutInto(s: Store, h: Handle, key: nat, v: Value): InsertResult
    requires h in s
  {
    if key == SUBSET_OF || key == SUPERSET_OF then InsertRelation(s, h, key, v) else InsertLocal(s, h, key, v, Fuzzy)
  }

  /** Inserting into the metadata of the value at a position. */
  function Annotated(o: Owner, key: nat, position: nat, metaKey: nat, v: Value): Outcome<Owner> {
    if key !in o.properties then Threw
    else
      var p := o.properties[key];
      match Dereferenced(p, position)
      case Threw => Threw
      case Done(u) =>
        match InsertValue(u.meta, metaKey, v, Fuzzy)
        case Threw => Threw
        case Done(meta) => Done(o.(properties := o.properties[key := p.(values := p.values[position := u.(meta := meta)])]))
  }

  /** The body of an INSERT up to its end or its first exception. */
  function Body(g: Graph, edits: seq<Edit>): (Graph, bool) {
    if edits == [] then (g, false)
    else
      var (before, threw) := Body(g, edits[..|edits| - 1]);
      if threw then (before, true) else Edited(before, edits[|edits| - 1])
  }

  /** Putting a value into a property that is no relation changes one table. */
  lemma PutIs(g: Graph, h: Handle, key: nat, v: Value, o: Owner)
    requires h in g.entities && !Relation(key) && InsertValue(g.entities[h].owner, key, v, Fuzzy) == Done(o)
    ensures Edited(g, Put(h, key, v)) == (g.(entities := g.entities[h := g.entities[h].(owner := o)]), false)
  {
    hide InsertValue;
    var s := OwnersOf(g);
    assert s[h] == g.entities[h].owner;
    assert WithOwners(g, s[h := o]).entities == g.entities[h := g.entities[h].(owner := o)];
  }

  // ---------- what an edit may bring ----------

  /** A value as the statement builds it, or as a variable holds it: of any type, a
      reference to a property or a value included, with records that load. */
  ghost predicate WellMade(v: Value) { SoundValue(v) && Loadable(v.meta) }

  ghost predicate GoodEdit(e: Edit) {
    match e
    case Create(h, typeName, stamp) => 0 < h < WORD_LIMIT && NulFree(typeName) && stamp.author < 0x1_0000_0000
    case Declare(name, code) => NulFree(name) && code < 0x1_0000_0000
    case Put(h, key, v) => WellMade(v) && key < 0x1_0000_0000
    case Annotate(h, key, position, metaKey, v) => WellMade(v) && metaKey < 0x1_0000_0000
  }

  // ---------- what an edit may not bring ----------

  /** The type under which a value is put there: one that the reader knows, and for
      a relation an entity reference proper. */
  predicate Readable(key: nat, v: Value) { Stored(v.subtype) && (Relation(key) ==> v.subtype == EntityRef) }

  predicate LoadsAfter(e: Edit) {
    match e
    case Put(h, key, v) => Readable(key, v)
    case Annotate(h, key, position, metaKey, v) => Stored(v.subtype)
    case _ => true
  }

  /** The certainty of a value when v has joined its metadata: a fresh confidence
      record is replaced, a reloaded one stays on top. */
  function NewCertainty(u: Value, metaKey: nat, v: Value): nat {
    if metaKey == CONFIDENCE && !AlwaysCertain(u.subtype) && v.members.numbers != []
      && CONFIDENCE in u.meta.properties && u.meta.properties[CONFIDENCE].kind == ConcreteSingle
    then v.members.numbers[0] % 256 else Certainty(u)
  }

  /** A certainty that keeps a sorted list sorted at the position. */
  predicate FitsBetween(p: Property, position: nat, c: nat) {
    && (0 < position <= |p.values| ==> Certainty(p.values[position - 1]) >= c)
    && (position + 1 < |p.values| ==> c >= Certainty(p.values[position + 1]))
  }

  predicate StaysSorted(o: Owner, key: nat, position: nat, metaKey: nat, v: Value) {
    key in o.properties && position < |o.properties[key].values| ==>
      FitsBetween(o.properties[key], position, NewCertainty(o.properties[key].values[position], metaKey, v))
  }

  /** What the edit adds survives the file: its type is known to the reader, no
      moment of a time stamp is lost, and no list is left unsorted. */
  ghost predicate Survives(g: Graph, e: Edit) {
    match e
    case Put(h, key, v) => Readable(key, v) && Timeless([v])
    case Annotate(h, key, position, metaKey, v) =>
      Stored(v.subtype) && (h in g.entities ==> StaysSorted(g.entities[h].owner, key, position, metaKey, v))
    case _ => true
  }

  ghost predicate ShortMeta(v: Value) {
    forall m :: m in v.meta.properties ==> |v.meta.properties[m].values| <= 0x1_0000_0000
  }

  ghost predicate ShortLists(o: Owner) {
    forall k :: k in o.properties ==>
      && |o.properties[k].values| <= 0x1_0000_0000
      && forall i :: 0 <= i < |o.properties[k].values| ==> ShortMeta(o.properties[k].values[i])
  }

  /** Ids and counts stay within their 32 bits. */
  ghost predicate Bounded(g: Graph) {
    && g.typeNames.next < 0x1_0000_0000 && g.propertyNames.next < 0x1_0000_0000
    && forall h :: h in g.entities ==> ShortLists(g.entities[h].owner)
  }

  lemma BoundedIsCounted(g: Graph)
    requires Bounded(g)
    ensures Counted(g)
  {
    hide ShortMeta;
    forall h, k | h in g.entities && k in g.entities[h].owner.properties
      ensures |g.entities[h].owner.properties[k].values| <= 0x1_0000_0000
    {
      assert ShortLists(g.entities[h].owner);
    }
  }

  // ---------- what every edit keeps ----------

  /** A graph that can be saved, merged and edited, and that survives the file. */
  ghost predicate Ready(g: Graph) {
    Mergeable(g) && Keeps(g) && SinglyTyped(g) && LinkGraph.Valid(Persistence.LinkStateOf(g))
  }

  /** The tables as saving needs them. */
  ghost predicate ReadyTables(g: Graph) { FineTables(g) && g.typeNames.pool == [] && g.propertyNames.pool == [] }

  lemma ReadyIs(g: Graph)
    requires Ready(g)
    ensures LooseStore(OwnersOf(g)) && StoreKept(OwnersOf(g)) && ReadyTables(g)
    ensures forall h :: h in g.entities ==> g.entities[h].handle == h != 0
  {
    hide LooseOwner, OwnerKept, Unchanging, LinkGraph.Valid, SoundTables, Fine, NameTable.Consistent, NameTable.NamesFit, Numbered;
    OwnersLoose(g);
    forall h | h in g.entities ensures OwnerKept(g.entities[h].owner) { KeptIffUnchanging(g.entities[h]); }
  }

  lemma ReadyFrom(g: Graph, s: Store)
    requires LooseStore(s) && StoreKept(s) && ReadyTables(g) && Counted(g) && LinkGraph.Valid(Persistence.LinkStateOf(g))
    requires forall h :: h in g.entities ==> h in s && g.entities[h].owner == s[h] && g.entities[h].handle == h != 0
    ensures Ready(g)
  {
    hide LooseStore, OwnerKept, Unchanging, LinkGraph.Valid, FineTables, Counted, Mergeable;
    LooseIsMergeable(g, s);
    forall h | h in g.entities
      ensures Unchanging(g.entities[h])
      ensures TYPE in g.entities[h].owner.properties && g.entities[h].owner.properties[TYPE].kind == ConcreteSingle
    {
      KeptIffUnchanging(g.entities[h]);
    }
  }

  // ---------- names ----------

  lemma RegisteredIsFine(t: NameTable.Names, name: Text)
    requires NameTable.Consistent(t) && NameTable.NamesFit(t) && Numbered(t) && t.pool == []
    requires NulFree(name) && Registered(t, name).next < 0x1_0000_0000
    ensures var r := Registered(t, name); NameTable.Consistent(r) && NameTable.NamesFit(r) && Numbered(r) && r.pool == []
    ensures name in Registered(t, name).byName && IdFor(t, name) == Registered(t, name).byName[name] < 0x1_0000_0000
  {
  }

  lemma CreateKeepsTables(g: Graph, e: Edit)
    requires ReadyTables(g) && e.Create? && GoodEdit(e) && Edited(g, e).0.typeNames.next < 0x1_0000_0000
    ensures ReadyTables(Edited(g, e).0) && IdFor(g.typeNames, e.typeName) < 0x1_0000_0000
  {
    hide NameTable.Consistent, NameTable.NamesFit, Numbered, Registered, IdFor, LinkTable.HandlesFit, PrimitiveMap.CodesFit, Created;
    RegisteredIsFine(g.typeNames, e.typeName);
  }

  lemma DeclareKeepsTables(g: Graph, e: Edit)
    requires ReadyTables(g) && e.Declare? && GoodEdit(e) && Edited(g, e).0.propertyNames.next < 0x1_0000_0000
    ensures ReadyTables(Edited(g, e).0)
  {
    hide NameTable.Consistent, NameTable.NamesFit, Numbered, Registered, IdFor, LinkTable.HandlesFit;
    if e.name !in g.propertyNames.byName { RegisteredIsFine(g.propertyNames, e.name); }
  }

  // ---------- values ----------

  lemma CreatedIsFine(h: Handle, typeId: nat, stamp: Stamp)
    requires 0 < h < WORD_LIMIT && typeId < 0x1_0000_0000 && stamp.author < 0x1_0000_0000
    ensures var e := Created(h, typeId, stamp); Fine(e) && Unchanging(e) && LooseOwner(e.owner) && OwnerKept(e.owner)
  {
    var e, v := Created(h, typeId, stamp), TypeRecord(typeId, stamp);
    TypeRecordIsSound(typeId, stamp);
    hide TypeRecord, LooseValue;
    var p := Property(ConcreteSingle, TYPE, TypeID, [v]);
    assert SoundProperty(p, TYPE) && LoadableProperty(p) by { hide SoundValue, LoadableValue; }
    assert Canonical(p.values) && Timeless(p.values);
    hide SoundProperty, LoadableProperty;
    FineIsLoose(e);
    KeptIffUnchanging(e);
  }

  lemma TypeRecordIsSound(typeId: nat, stamp: Stamp)
    requires typeId < 0x1_0000_0000 && stamp.author < 0x1_0000_0000
    ensures var v := TypeRecord(typeId, stamp);
      SoundValue(v) && LoadableValue(v) && v.subtype == TypeID && v.orderingId == 0 && StoredMembers(v) == v.members
  {
    var author, moment := Bare(AuthorID, Members([stamp.author], [])), Bare(TimeStamp, stamp.moment);
    BareIsSound(author);
    BareIsSound(moment);
    LockerIsSound(AUTHOR, author);
    LockerIsSound(CREATED, moment);
    Widths();
    hide Pow256, Locker, SoundProperty, LoadableProperty;
    var meta := TypeRecord(typeId, stamp).meta;
    assert SoundOwner(meta) && Loadable(meta) by {
      assert Locker(CREATED, moment).values != [] && Locker(AUTHOR, author).values != [] by { LockerHolds(AUTHOR, author); LockerHolds(CREATED, moment); }
    }
    hide SoundOwner, Loadable;
  }

  lemma LockerHolds(key: nat, v: Value)
    ensures Locker(key, v).values == [v]
  {
  }

  lemma BareIsSound(v: Value)
    requires v.subtype == AuthorID || v.subtype == TimeStamp
    requires v.orderingId == 0 && v.meta == Owner(false, map[])
    requires v.subtype == AuthorID ==> v.members.texts == [] && |v.members.numbers| == 1 && v.members.numbers[0] < 0x1_0000_0000
    ensures SoundValue(v) && LoadableValue(v)
  {
    Widths();
    hide Pow256;
    assert SoundOwner(v.meta) && Loadable(v.meta);
  }

  lemma LockerIsSound(key: nat, v: Value)
    requires SoundValue(v) && LoadableValue(v) && key < 0x1_0000_0000
    ensures SoundProperty(Locker(key, v), key) && LoadableProperty(Locker(key, v))
  {
    hide Loadable;
  }

  // ---------- what joins a list ----------

  /** A list after an append: sound as its values are, and loadable exactly if the
      reader knows the type. */
  lemma AppendedLoads(p: Property, key: nat, v: Value, q: Property)
    requires SoundProperty(p, key) && (p.values != [] ==> LoadableProperty(p)) && WellMade(v)
    requires Appended(p, v) == Done(q) && |q.values| <= 0x1_0000_0000
    ensures SoundProperty(q, key) && q.values != [] && q.subtype == v.subtype && (LoadableProperty(q) <==> Stored(v.subtype))
  {
    hide SoundOwner, Loadable, Sorted, Certainty, Ranked, Fits;
    var vs := p.values + [v];
    SortedSize(vs);
    forall i | 0 <= i < |q.values|
      ensures SoundValue(q.values[i]) && q.values[i].subtype == p.subtype && (Stored(v.subtype) ==> LoadableValue(q.values[i]))
    {
      if p.kind != ConcreteSingle {
        var j := SortedComesFrom(vs, i);
        RenumberedIsSound(vs[j], i);
        NumberIgnored(vs[j], i);
      } else {
        RenumberedIsSound(v, 0);
        NumberIgnored(v, 0);
      }
    }
  }

  function ListFor(o: Owner, key: nat, v: Value, kind: Kind): Property {
    if key in o.properties then o.properties[key] else Property(if kind == Locked then ConcreteSingle else kind, key, v.subtype, [])
  }

  /** A table after an insert. */
  lemma InsertedLoads(o: Owner, key: nat, v: Value, kind: Kind, o': Owner)
    requires SoundOwner(o) && Loadable(o) && WellMade(v) && key < 0x1_0000_0000 && kind != Locked
    requires InsertValue(o, key, v, kind) == Done(o') && |o'.properties[key].values| <= 0x1_0000_0000
    ensures SoundOwner(o') && (Loadable(o') <==> Stored(v.subtype))
    ensures o'.properties == o.properties[key := o'.properties[key]] && o'.locked == o.locked
    ensures Appended(ListFor(o, key, v, kind), v) == Done(o'.properties[key]) && o'.properties[key].subtype == v.subtype
  {
    hide WellMade, Appended;
    var p, q := ListFor(o, key, v, kind), o'.properties[key];
    assert Appended(p, v) == Done(q);
    assert SoundProperty(p, key) && (p.values != [] ==> LoadableProperty(p)) by { hide InsertValue; FreshIsSound(o, key, v, kind); }
    hide InsertValue, Loadable, SoundOwner, SoundProperty;
    AppendedLoads(p, key, v, q);
    OwnerGrowsIff(o, key, q);
  }

  lemma FreshIsSound(o: Owner, key: nat, v: Value, kind: Kind)
    requires SoundOwner(o) && Loadable(o) && WellMade(v) && key < 0x1_0000_0000
    ensures SoundProperty(ListFor(o, key, v, kind), key)
    ensures ListFor(o, key, v, kind).values != [] ==> LoadableProperty(ListFor(o, key, v, kind))
  {
    hide SoundProperty, LoadableProperty, Ranked, Fits;
    if key !in o.properties { NewListIsSound(key, v, if kind == Locked then ConcreteSingle else kind); }
  }

  lemma NewListIsSound(key: nat, v: Value, kind: Kind)
    requires WellMade(v) && key < 0x1_0000_0000
    ensures SoundProperty(Property(kind, key, v.subtype, []), key)
  {
    hide SoundOwner, Loadable;
  }

  lemma OwnerGrowsIff(o: Owner, key: nat, q: Property)
    requires SoundOwner(o) && Loadable(o) && SoundProperty(q, key) && q.values != []
    ensures var o' := o.(properties := o.properties[key := q]); SoundOwner(o') && (Loadable(o') <==> LoadableProperty(q))
  {
    hide SoundProperty, LoadableProperty;
    var o' := o.(properties := o.properties[key := q]);
    forall k | k in o'.properties && (forall j :: j in o'.properties ==> j <= k) ensures o'.properties[k].values != [] {
      if k != key {
        assert k in o.properties && forall j :: j in o.properties ==> j in o'.properties;
      }
    }
    assert o'.properties[key] == q;
  }

  // ---------- putting a value ----------

  /** One insert into a table that survives the file: the new table does exactly if
      the value is readable and keeps its members. */
  lemma LocalSurvivesIff(o: Owner, key: nat, v: Value, kind: Kind, o': Owner)
    requires LooseOwner(o) && OwnerKept(o) && WellMade(v) && key < 0x1_0000_0000 && InsertValue(o, key, v, kind) == Done(o')
    ensures LooseOwner(o') && OwnerKept(o') <==> Readable(key, v) && Timeless([v])
  {
    hide LooseOwner, OwnerKept, LooseValue, InsertValue, Timeless, SoundOwner, Loadable, Ranked, Fits;
    if Readable(key, v) && Timeless([v]) {
      SoundIsLoose(v);
      InsertValueLoose(o, key, v, kind);
      InsertValueKept(o, key, v, kind);
    }
    if LooseOwner(o') && OwnerKept(o') { LocalMustSurvive(o, key, v, kind, o'); }
  }

  lemma LocalMustSurvive(o: Owner, key: nat, v: Value, kind: Kind, o': Owner)
    requires InsertValue(o, key, v, kind) == Done(o') && LooseOwner(o') && OwnerKept(o')
    ensures Readable(key, v) && Timeless([v])
  {
    hide LooseValue, Descending, Canonical, StoredMembers, Certainty, Sorted;
    var p := ListFor(o, key, v, kind);
    var q := o'.properties[key];
    assert LooseAt(q, key) && ListKept(q);
    assert q.subtype == v.subtype && q.values == Appended(p, v).value.values;
    var i := Joins(p, v);
    assert StoredMembers(q.values[i]) == q.values[i].members;
    NumberNotStored(v, i);
  }

  /** The value that was appended is in the list, under its new number. */
  lemma Joins(p: Property, v: Value) returns (i: nat)
    requires Appended(p, v).Done?
    ensures var q := Appended(p, v).value; i < |q.values| && q.values[i] == v.(orderingId := i)
  {
    if p.kind == ConcreteSingle { return 0; }
    hide Certainty;
    var vs := p.values + [v];
    Sorting.StableSortIsStableSort(vs, ByCertainty());
    var r := Sorting.StableSort(vs, ByCertainty());
    assert vs[|p.values|] in multiset(r);
    i :| 0 <= i < |r| && r[i] == v;
  }

  lemma RefIsMade(h: Handle, c: nat)
    requires h < WORD_LIMIT
    ensures WellMade(MakeRef(h, c)) && Timeless([MakeRef(h, c)]) && MakeRef(h, c).subtype == EntityRef
  {
    RefIsLoose(h, c);
    LooseIsSound(MakeRef(h, c));
    hide SoundOwner, Loadable, Ranked, Fits, LooseValue;
  }

  /** A store whose tables all survive the file. */
  ghost predicate Surviving(s: Store) { LooseStore(s) && StoreKept(s) }

  lemma LocalKeeps(s: Store, h: Handle, key: nat, v: Value, kind: Kind)
    requires Surviving(s) && h in s && WellMade(v) && key < 0x1_0000_0000 && !InsertLocal(s, h, key, v, kind).threw
    ensures var r := InsertLocal(s, h, key, v, kind).store; r.Keys == s.Keys && (Surviving(r) <==> Readable(key, v) && Timeless([v]))
  {
    hide LooseOwner, OwnerKept, WellMade, InsertValue, Timeless;
    var o' := InsertValue(s[h], key, v, kind).value;
    LocalSurvivesIff(s[h], key, v, kind, o');
    var r := InsertLocal(s, h, key, v, kind).store;
    assert r[h] == o';
  }

  lemma PutSurvivesIff(s: Store, h: Handle, key: nat, v: Value)
    requires Surviving(s) && h in s && WellMade(v) && key < 0x1_0000_0000 && !PutInto(s, h, key, v).threw
    ensures PutInto(s, h, key, v).store.Keys == s.Keys
    ensures Surviving(PutInto(s, h, key, v).store) <==> Readable(key, v) && Timeless([v])
  {
    hide Surviving, WellMade, InsertLocal, MakeRef, Certainty, Timeless;
    if key == SUBSET_OF || key == SUPERSET_OF {
      var other, record := RefOf(v), MakeRef(h, Certainty(v));
      HandleIsWord(s, h);
      RefIsMade(h, Certainty(v));
      LocalKeeps(s, other, OtherKey(key), record, KindOf(OtherKey(key)));
      LocalKeeps(InsertLocal(s, other, OtherKey(key), record, KindOf(OtherKey(key))).store, h, key, v, KindOf(key));
    } else {
      LocalKeeps(s, h, key, v, Fuzzy);
    }
  }

  lemma HandleIsWord(s: Store, h: Handle)
    requires Surviving(s) && h in s
    ensures h < WORD_LIMIT
  {
    hide LooseOwner, OwnerKept;
  }

  // ---------- annotating a value ----------

  /** The annotated value: what is written of it, its certainty, and whether it loads. */
  lemma AnnotatedValue(u: Value, metaKey: nat, v: Value, meta: Owner)
    requires LooseValue(u) && WellMade(v) && metaKey < 0x1_0000_0000 && InsertValue(u.meta, metaKey, v, Fuzzy) == Done(meta)
    requires |meta.properties[metaKey].values| <= 0x1_0000_0000
    ensures var u' := u.(meta := meta);
      && StoredMembers(u') == StoredMembers(u) && Certainty(u') == NewCertainty(u, metaKey, v)
      && Ranked(u') && SoundOwner(meta) && (LooseValue(u') <==> Stored(v.subtype))
  {
    InsertedLoads(u.meta, metaKey, v, Fuzzy, meta);
    hide SoundOwner, Loadable, Fits, Stored, InsertValue;
    if metaKey == CONFIDENCE && !AlwaysCertain(u.subtype) {
      RecordJoins(u.meta, v, meta.properties[CONFIDENCE]);
    }
  }

  /** Where a confidence record joins those of a value. */
  lemma RecordJoins(o: Owner, v: Value, q: Property)
    requires SoundOwner(o) && WellMade(v) && CONFIDENCE in o.properties && Appended(o.properties[CONFIDENCE], v) == Done(q)
    requires o.properties[CONFIDENCE].subtype == SubType.Confidence && o.properties[CONFIDENCE].values != []
    ensures var p := o.properties[CONFIDENCE];
      && q.subtype == p.subtype && q.values != [] && v.members.numbers != [] && p.values[0].members.numbers != []
      && q.values[0].members == if p.kind == ConcreteSingle then v.members else p.values[0].members
  {
    var p := o.properties[CONFIDENCE];
    assert SoundProperty(p, CONFIDENCE) && SoundValue(p.values[0]);
    hide SoundOwner, Loadable, Appended;
    RecordsAre(p);
    var r := RecordAppended(p, v);
    NumberThere(p.values[0]);
    NumberThere(v);
  }

  lemma RecordsAre(p: Property)
    requires SoundProperty(p, CONFIDENCE) && p.subtype == SubType.Confidence
    ensures forall i :: 0 <= i < |p.values| ==> p.values[i].subtype == SubType.Confidence
  {
    hide SoundValue;
  }

  lemma NumberThere(v: Value)
    requires SoundValue(v) && v.subtype == SubType.Confidence
    ensures v.members.numbers != []
  {
    hide SoundOwner;
  }

  lemma ValueIsLoose(p: Property, key: nat, position: nat)
    requires LooseAt(p, key) && position < |p.values|
    ensures LooseValue(p.values[position])
  {
    hide LooseValue, Descending;
  }

  /** A list with one value annotated is as it was but for the order. */
  lemma ListAnnotated(p: Property, key: nat, position: nat, u: Value)
    requires LooseAt(p, key) && ListKept(p) && position < |p.values|
    requires u.(meta := p.values[position].meta) == p.values[position] && StoredMembers(u) == StoredMembers(p.values[position])
    ensures var q := p.(values := p.values[position := u]);
      ListKept(q) && (LooseAt(q, key) <==> LooseValue(u) && FitsBetween(p, position, Certainty(u)))
  {
    hide LooseValue, Certainty, StoredMembers;
    var q := p.(values := p.values[position := u]);
    assert q.values[position] == u;
    OrderedIff(p, position, u);
    hide Descending;
  }

  lemma OrderedIff(p: Property, position: nat, u: Value)
    requires Descending(p.values, ByCertainty()) && position < |p.values|
    ensures Descending(p.values[position := u], ByCertainty()) <==> FitsBetween(p, position, Certainty(u))
  {
    hide Certainty;
    var vs, r := p.values, p.values[position := u];
    assert forall i, j :: 0 <= i < j < |vs| ==> ByCertainty()(vs[i]) >= ByCertainty()(vs[j]);
    if Descending(r, ByCertainty()) {
      assert position > 0 ==> ByCertainty()(r[position - 1]) >= ByCertainty()(r[position]);
      assert position + 1 < |r| ==> ByCertainty()(r[position]) >= ByCertainty()(r[position + 1]);
    }
    if FitsBetween(p, position, Certainty(u)) {
      forall i, j | 0 <= i < j < |r| ensures ByCertainty()(r[i]) >= ByCertainty()(r[j]) {
        if i == position && j > position + 1 { assert ByCertainty()(vs[position + 1]) >= ByCertainty()(vs[j]); }
        if j == position && i < position - 1 { assert ByCertainty()(vs[i]) >= ByCertainty()(vs[position - 1]); }
      }
    }
  }

  /** Of a table that survives the file: the annotated one does exactly if the reader
      knows the type of the record and the list stays sorted. */
  lemma AnnotateSurvivesIff(o: Owner, key: nat, position: nat, metaKey: nat, v: Value, o': Owner)
    requires LooseOwner(o) && OwnerKept(o) && Annotated(o, key, position, metaKey, v) == Done(o') && ShortLists(o')
    requires WellMade(v) && metaKey < 0x1_0000_0000
    ensures LooseOwner(o') && OwnerKept(o') <==> Stored(v.subtype) && StaysSorted(o, key, position, metaKey, v)
  {
    hide InsertValue, WellMade, LooseValue, Descending, Timeless, Canonical, LooseProperty, SmallIds, Certainty, FitsBetween, Stored, StoredMembers;
    var p, u, q := o.properties[key], o.properties[key].values[position], o'.properties[key];
    var meta := InsertValue(u.meta, metaKey, v, Fuzzy).value;
    assert LooseAt(p, key) && ListKept(p);
    MetaThere(o, key, position, metaKey, v, o');
    assert ShortMeta(q.values[position]) && q.values[position].meta == meta;
    ValueIsLoose(p, key, position);
    AnnotatedValue(u, metaKey, v, meta);
    hide Annotated, ShortLists;
    ListAnnotated(p, key, position, u.(meta := meta));
  }

  // ---------- every edit, and every body ----------

  lemma SameStatuses(g: Graph, g': Graph)
    requires g'.links == g.links && g'.entities.Keys == g.entities.Keys
    requires forall h :: h in g.entities ==> g'.entities[h].status == g.entities[h].status
    ensures Persistence.LinkStateOf(g') == Persistence.LinkStateOf(g)
  {
  }

  lemma TablesStand(g: Graph, g': Graph)
    requires ReadyTables(g) && g'.(entities := g.entities) == g
    ensures ReadyTables(g')
  {
    hide NameTable.Consistent, NameTable.NamesFit, Numbered;
  }

  lemma OwnersBack(g: Graph, s: Store)
    requires s.Keys == g.entities.Keys
    ensures OwnersOf(WithOwners(g, s)) == s && WithOwners(g, s).entities.Keys == g.entities.Keys
    ensures forall h :: h in g.entities ==> WithOwners(g, s).entities[h] == g.entities[h].(owner := s[h])
  {
    assert OwnersOf(WithOwners(g, s)) == s;
  }

  /** Other tables in the same entities: the graph is ready exactly if they survive. */
  lemma ReadyIffSurviving(g: Graph, g': Graph, s: Store)
    requires Ready(g) && g' == WithOwners(g, s) && s.Keys == g.entities.Keys && Counted(g')
    ensures Ready(g') <==> Surviving(s)
  {
    hide Ready, LooseStore, StoreKept, ReadyTables, LinkGraph.Valid, Counted, WithOwners;
    ReadyIs(g);
    ReadyLinks(g);
    OwnersBack(g, s);
    OnlyOwners(g, s);
    SameStatuses(g, g');
    TablesStand(g, g');
    if Surviving(s) { ReadyFrom(g', s); }
    if Ready(g') { ReadyIs(g'); }
  }

  lemma OnlyOwners(g: Graph, s: Store)
    ensures WithOwners(g, s).(entities := g.entities) == g
  {
  }

  /** Putting a value keeps a graph ready exactly if the reader takes its type under
      the property and no moment of a time stamp is lost. */
  lemma PutKeepsReadyIff(g: Graph, e: Edit)
    requires Ready(g) && e.Put? && GoodEdit(e) && !Edited(g, e).1 && Bounded(Edited(g, e).0)
    ensures Ready(Edited(g, e).0) <==> Survives(g, e)
  {
    hide Ready, LooseStore, StoreKept, LinkGraph.Valid, PutInto, WellMade, Counted, WithOwners, OwnersOf, Bounded, Readable, Timeless;
    var s := OwnersOf(g);
    BoundedIsCounted(Edited(g, e).0);
    ReadyIs(g);
    OwnersKeys(g);
    PutSurvivesIff(s, e.h, e.key, e.v);
    ReadyIffSurviving(g, Edited(g, e).0, PutInto(s, e.h, e.key, e.v).store);
  }

  lemma OwnersKeys(g: Graph)
    ensures OwnersOf(g).Keys == g.entities.Keys && forall h :: h in g.entities ==> OwnersOf(g)[h] == g.entities[h].owner
  {
  }

  lemma ReadyLinks(g: Graph)
    requires Ready(g)
    ensures LinkGraph.Valid(Persistence.LinkStateOf(g))
  {
    hide Mergeable, Keeps, SinglyTyped, LinkGraph.Valid;
  }

  /** Annotating a value keeps a graph ready exactly if the reader knows the type of
      the annotation and the value, as certain as it then is, keeps its place. */
  lemma AnnotateKeepsReadyIff(g: Graph, e: Edit)
    requires Ready(g) && e.Annotate? && GoodEdit(e) && !Edited(g, e).1 && Bounded(Edited(g, e).0)
    ensures Ready(Edited(g, e).0) <==> Survives(g, e)
  {
    hide Ready, LinkGraph.Valid, Counted, WellMade, LooseOwner, OwnerKept, Annotated, ShortLists, WithOwners, StaysSorted, Stored;
    var s, g' := OwnersOf(g), Edited(g, e).0;
    BoundedIsCounted(g');
    ReadyIs(g);
    var o' := Annotated(g.entities[e.h].owner, e.key, e.position, e.metaKey, e.v).value;
    assert g'.entities[e.h].owner == o' && ShortLists(o');
    assert s[e.h] == g.entities[e.h].owner;
    AnnotateSurvivesIff(s[e.h], e.key, e.position, e.metaKey, e.v, o');
    OneSurvives(s, e.h, o');
    OneOwner(g, e.h, o');
    ReadyIffSurviving(g, g', s[e.h := o']);
  }

  lemma OneSurvives(s: Store, h: Handle, o: Owner)
    requires Surviving(s) && h in s
    ensures Surviving(s[h := o]) <==> LooseOwner(o) && OwnerKept(o)
  {
    hide LooseOwner, OwnerKept;
    assert s[h := o][h] == o;
  }

  lemma OneOwner(g: Graph, h: Handle, o: Owner)
    requires h in g.entities
    ensures g.(entities := g.entities[h := g.entities[h].(owner := o)]) == WithOwners(g, OwnersOf(g)[h := o])
  {
    assert WithOwners(g, OwnersOf(g)[h := o]).entities == g.entities[h := g.entities[h].(owner := o)];
  }

  lemma MetaThere(o: Owner, key: nat, position: nat, metaKey: nat, v: Value, o': Owner)
    requires Annotated(o, key, position, metaKey, v) == Done(o')
    ensures key in o'.properties && position < |o'.properties[key].values|
    ensures metaKey in o'.properties[key].values[position].meta.properties
  {
    hide Appended;
  }

  lemma CreateKeepsReady(g: Graph, e: Edit)
    requires Ready(g) && e.Create? && GoodEdit(e) && Bounded(Edited(g, e).0)
    ensures Ready(Edited(g, e).0)
  {
    hide Ready, ReadyTables, LinkGraph.Valid, Counted, LooseOwner, OwnerKept, Registered, IdFor, NulFree, Created;
    BoundedIsCounted(Edited(g, e).0);
    ReadyIs(g);
    ReadyLinks(g);
    CreateKeepsTables(g, e);
    var id := IdFor(g.typeNames, e.typeName);
    var c := Created(e.h, id, e.stamp);
    CreatedIsFine(e.h, id, e.stamp);
    CreatedShows(e.h, id, e.stamp);
    var g' := Edited(g, e).0;
    StrangerIsUnlinked(g, g', e.h, c);
    OwnersWith(g, g', e.h, c);
    ReadyFrom(g', OwnersOf(g'));
  }

  lemma OwnersWith(g: Graph, g': Graph, h: Handle, c: Entity)
    requires LooseStore(OwnersOf(g)) && StoreKept(OwnersOf(g)) && g'.entities == Inserted(g.entities, h, c)
    requires h < WORD_LIMIT && LooseOwner(c.owner) && OwnerKept(c.owner)
    ensures LooseStore(OwnersOf(g')) && StoreKept(OwnersOf(g'))
  {
    hide LooseOwner, OwnerKept;
    var s, s' := OwnersOf(g), OwnersOf(g');
    forall x | x in s' ensures x < WORD_LIMIT && LooseOwner(s'[x]) && OwnerKept(s'[x]) {
      if x in s { assert s'[x] == s[x]; }
    }
  }

  lemma CreatedShows(h: Handle, typeId: nat, stamp: Stamp)
    ensures Created(h, typeId, stamp).handle == h && Created(h, typeId, stamp).status == LinkGraph.NotLinked
  {
  }

  /** A new entity is in no link. */
  lemma StrangerIsUnlinked(g: Graph, g': Graph, h: Handle, c: Entity)
    requires LinkGraph.Valid(Persistence.LinkStateOf(g)) && g'.links == g.links && g'.entities == Inserted(g.entities, h, c)
    requires c.status == LinkGraph.NotLinked
    ensures LinkGraph.Valid(Persistence.LinkStateOf(g'))
  {
    var s, s' := Persistence.LinkStateOf(g), Persistence.LinkStateOf(g');
    forall x | x in s'.status ensures s'.status[x] == LinkGraph.ProperStatus(s'.links, x) {
      if x !in s.status { assert LinkGraph.ProperStatus(s'.links, x) == LinkGraph.NotLinked; }
    }
  }

  lemma DeclareKeepsReady(g: Graph, e: Edit)
    requires Ready(g) && e.Declare? && GoodEdit(e) && Bounded(Edited(g, e).0)
    ensures Ready(Edited(g, e).0)
  {
    hide Ready, ReadyTables, LinkGraph.Valid, Counted, LooseOwner, OwnerKept, Registered, IdFor, NulFree;
    BoundedIsCounted(Edited(g, e).0);
    ReadyIs(g);
    ReadyLinks(g);
    DeclareKeepsTables(g, e);
    var g' := Edited(g, e).0;
    SameStatuses(g, g');
    assert OwnersOf(g') == OwnersOf(g);
    ReadyFrom(g', OwnersOf(g'));
  }

  /** Every edit that completes keeps a ready graph ready exactly if it survives. */
  lemma EditKeepsReadyIff(g: Graph, e: Edit)
    requires Ready(g) && GoodEdit(e) && !Edited(g, e).1 && Bounded(Edited(g, e).0)
    ensures Ready(Edited(g, e).0) <==> Survives(g, e)
  {
    hide *;
    match e
    case Create(_, _, _) =>
      CreateKeepsReady(g, e);
      AlwaysSurvives(g, e);
    case Declare(_, _) =>
      DeclareKeepsReady(g, e);
      AlwaysSurvives(g, e);
    case Put(_, _, _) => PutKeepsReadyIff(g, e);
    case Annotate(_, _, _, _, _) => AnnotateKeepsReadyIff(g, e);
  }

  lemma AlwaysSurvives(g: Graph, e: Edit)
    requires e.Create? || e.Declare?
    ensures Survives(g, e) && LoadsAfter(e)
  {
  }

  // ---------- what the reader makes of the rest ----------

  lemma ReadyLoads(g: Graph)
    requires Ready(g)
    ensures SoundEntities(g) && SoundTables(g) && LoadableGraph(g)
  {
    hide FineGraph, NoneEmpty, Keeps, SinglyTyped, LinkGraph.Valid, SoundTables, SoundEntities, LoadableGraph;
    FineParts(g);
  }

  /** A store that can be written, and one that can be read as well. */
  ghost predicate Writes(o: Owner) {
    SoundOwner(o) && TYPE in o.properties && o.properties[TYPE].subtype == TypeID && o.properties[TYPE].values != []
  }

  ghost predicate Loads(o: Owner) { Writes(o) && LoadableInto(o, true) }

  /** One insert into a table that loads. */
  lemma LocalLoadsIff(o: Owner, key: nat, v: Value, kind: Kind, o': Owner)
    requires Loads(o) && WellMade(v) && key < 0x1_0000_0000 && kind != Locked && InsertValue(o, key, v, kind) == Done(o')
    requires |o'.properties[key].values| <= 0x1_0000_0000
    ensures Writes(o') && (Loads(o') <==> Readable(key, v))
  {
    InsertedLoads(o, key, v, kind, o');
    InsertKeepsType(o, key, v, kind, o');
    hide InsertValue, WellMade, SoundOwner, Loadable;
    var q := o'.properties[key];
    assert q.key == key && forall k :: k in o.properties ==> o.properties[k].key == k by { hide ListFor; KeysAre(o); KeysAre(o'); }
    assert TypeTaken(q, true) <==> (Relation(key) ==> v.subtype == EntityRef);
  }

  lemma KeysAre(o: Owner)
    requires SoundOwner(o)
    ensures forall k :: k in o.properties ==> o.properties[k].key == k
  {
    hide SoundProperty;
    forall k | k in o.properties ensures o.properties[k].key == k { KeyOfSound(o.properties[k], k); }
  }

  lemma InsertKeepsType(o: Owner, key: nat, v: Value, kind: Kind, o': Owner)
    requires Writes(o) && InsertValue(o, key, v, kind) == Done(o')
    ensures TYPE in o'.properties && o'.properties[TYPE].subtype == TypeID && o'.properties[TYPE].values != []
  {
    hide SoundOwner, Certainty, Sorted;
    if key == TYPE { SortedSize(o.properties[TYPE].values + [v]); }
  }

  ghost predicate AllLoad(s: Store) { forall h :: h in s ==> Loads(s[h]) }

  ghost predicate AllWrite(s: Store) { forall h :: h in s ==> Writes(s[h]) }

  /** The lists of a store have no more values than there are ordering ids. */
  ghost predicate CountedStore(s: Store) {
    forall h, k :: h in s && k in s[h].properties ==> |s[h].properties[k].values| <= 0x1_0000_0000
  }

  lemma LocalStoreLoadsIff(s: Store, h: Handle, key: nat, v: Value, kind: Kind)
    requires AllLoad(s) && h in s && WellMade(v) && key < 0x1_0000_0000 && kind != Locked && !InsertLocal(s, h, key, v, kind).threw
    requires CountedStore(InsertLocal(s, h, key, v, kind).store)
    ensures var r := InsertLocal(s, h, key, v, kind).store; AllWrite(r) && r.Keys == s.Keys && (AllLoad(r) <==> Readable(key, v))
  {
    hide Writes, LoadableInto, WellMade, Readable;
    var r := InsertLocal(s, h, key, v, kind).store;
    var o' := InsertValue(s[h], key, v, kind).value;
    assert r[h] == o' && key in o'.properties by { hide Appended; }
    hide InsertValue;
    assert |r[h].properties[key].values| <= 0x1_0000_0000;
    assert Loads(s[h]);
    LocalLoadsIff(s[h], key, v, kind, o');
    forall x | x in r ensures Writes(r[x]) && (x != h ==> Loads(r[x])) {
      if x != h { assert Loads(s[x]) && r[x] == s[x]; }
    }
    hide Loads;
    if AllLoad(r) { assert Loads(r[h]); }
  }

  /** Nothing but the list of this key at h is different. */
  ghost predicate OnlyList(s: Store, r: Store, h: Handle, key: nat) {
    && r.Keys == s.Keys
    && forall x, k :: x in s && (x != h || k != key) ==>
      && (k in r[x].properties <==> k in s[x].properties)
      && (k in s[x].properties ==> r[x].properties[k] == s[x].properties[k])
  }

  lemma LocalKeys(s: Store, h: Handle, key: nat, v: Value, kind: Kind)
    requires h in s
    ensures InsertLocal(s, h, key, v, kind).store.Keys == s.Keys
  {
    hide InsertValue;
  }

  lemma LocalOnlyList(s: Store, h: Handle, key: nat, v: Value, kind: Kind)
    requires h in s
    ensures OnlyList(s, InsertLocal(s, h, key, v, kind).store, h, key)
  {
    hide Appended;
  }

  /** Between two inserts into different lists every list is one of before or after. */
  lemma HalfIsCounted(s: Store, m: Store, r: Store, other: Handle, key': nat, h: Handle, key: nat)
    requires OnlyList(s, m, other, key') && OnlyList(m, r, h, key) && key' != key && CountedStore(s) && CountedStore(r)
    ensures CountedStore(m)
  {
  }

  lemma LoadsAreCounted(s: Store)
    requires AllLoad(s)
    ensures CountedStore(s)
  {
    hide LoadableInto, SoundValue;
    forall h, k | h in s && k in s[h].properties ensures |s[h].properties[k].values| <= 0x1_0000_0000 {
      assert Loads(s[h]) && SoundProperty(s[h].properties[k], k);
    }
  }

  lemma PutLoadsIff(s: Store, h: Handle, key: nat, v: Value)
    requires AllLoad(s) && h in s && h < WORD_LIMIT && WellMade(v) && key < 0x1_0000_0000 && !PutInto(s, h, key, v).threw
    requires CountedStore(PutInto(s, h, key, v).store)
    ensures var r := PutInto(s, h, key, v).store; r.Keys == s.Keys && AllWrite(r) && (AllLoad(r) <==> Readable(key, v))
  {
    hide AllLoad, AllWrite, WellMade, InsertLocal, MakeRef, Certainty, CountedStore, OnlyList;
    if key == SUBSET_OF || key == SUPERSET_OF {
      var other, record := RefOf(v), MakeRef(h, Certainty(v));
      RefIsMade(h, Certainty(v));
      var m := InsertLocal(s, other, OtherKey(key), record, KindOf(OtherKey(key))).store;
      LocalKeys(s, other, OtherKey(key), record, KindOf(OtherKey(key)));
      LocalOnlyList(s, other, OtherKey(key), record, KindOf(OtherKey(key)));
      LocalOnlyList(m, h, key, v, KindOf(key));
      LoadsAreCounted(s);
      HalfIsCounted(s, m, PutInto(s, h, key, v).store, other, OtherKey(key), h, key);
      LocalStoreLoadsIff(s, other, OtherKey(key), record, KindOf(OtherKey(key)));
      LocalStoreLoadsIff(m, h, key, v, KindOf(key));
    } else {
      LocalStoreLoadsIff(s, h, key, v, Fuzzy);
    }
  }

  /** Annotating a value of a table that loads. */
  lemma AnnotateLoadsIff(o: Owner, key: nat, position: nat, metaKey: nat, v: Value, o': Owner)
    requires Loads(o) && Annotated(o, key, position, metaKey, v) == Done(o') && ShortLists(o')
    requires WellMade(v) && metaKey < 0x1_0000_0000
    ensures Writes(o') && (Loads(o') <==> Stored(v.subtype))
  {
    hide InsertValue, WellMade, SoundValue, LoadableValue, Stored, Certainty, TypeTaken;
    var p, u, q := o.properties[key], o.properties[key].values[position], o'.properties[key];
    var meta := InsertValue(u.meta, metaKey, v, Fuzzy).value;
    MetaThere(o, key, position, metaKey, v, o');
    assert ShortMeta(q.values[position]) && q.values[position].meta == meta;
    assert SoundProperty(p, key) && LoadableProperty(p);
    SoundIsLoose(u);
    AnnotatedValue(u, metaKey, v, meta);
    hide Annotated, ShortLists;
    ValueReplaced(p, key, position, u.(meta := meta));
    OwnerGrowsIff(o, key, q);
    hide SoundOwner, Loadable, SoundProperty, LoadableProperty;
    assert forall k :: k in o.properties ==> o'.properties[k].key == o.properties[k].key && o'.properties[k].subtype == o.properties[k].subtype;
    SameTypesTaken(o, o');
  }

  lemma SameTypesTaken(o: Owner, o': Owner)
    requires o'.properties.Keys == o.properties.Keys
    requires forall k :: k in o.properties ==> o'.properties[k].key == o.properties[k].key && o'.properties[k].subtype == o.properties[k].subtype
    ensures (forall k :: k in o'.properties ==> TypeTaken(o'.properties[k], true)) <==> (forall k :: k in o.properties ==> TypeTaken(o.properties[k], true))
  {
  }

  /** One value of a list replaced by one of the same members. */
  lemma ValueReplaced(p: Property, key: nat, position: nat, u: Value)
    requires SoundProperty(p, key) && LoadableProperty(p) && position < |p.values|
    requires u.(meta := p.values[position].meta) == p.values[position] && StoredMembers(u) == StoredMembers(p.values[position])
    requires Ranked(u) && SoundOwner(u.meta)
    ensures var q := p.(values := p.values[position := u]); SoundProperty(q, key) && (LoadableProperty(q) <==> LoadableValue(u))
  {
    assert SoundValue(u) by { assert SoundValue(p.values[position]); hide SoundOwner; }
    hide SoundValue, LoadableValue;
    var q := p.(values := p.values[position := u]);
    assert q.values[position] == u;
  }

  // ---------- an edit that the reader rejects ----------

  /** The graph of a store whose tables can be written. */
  lemma WritesAreSound(g: Graph, s: Store)
    requires OwnersOf(g) == s && AllWrite(s) && SoundTables(g) && forall h :: h in g.entities ==> g.entities[h].handle == h && 0 < h < WORD_LIMIT
    ensures SoundEntities(g) && (LoadableGraph(g) <==> AllLoad(s))
  {
    hide SoundOwner, LoadableInto;
    forall h | h in g.entities ensures SoundEntity(g.entities[h]) && (LoadableEntity(g.entities[h]) <==> Loads(s[h])) {
      assert s[h] == g.entities[h].owner && Writes(s[h]);
    }
    if AllLoad(s) { forall h | h in g.entities ensures LoadableEntity(g.entities[h]) { assert Loads(s[h]); } }
    if LoadableGraph(g) { forall h | h in s ensures Loads(s[h]) { assert LoadableEntity(g.entities[h]); } }
  }

  lemma ReadyStoreLoads(g: Graph)
    requires Ready(g)
    ensures AllLoad(OwnersOf(g)) && forall h :: h in g.entities ==> g.entities[h].handle == h && 0 < h < WORD_LIMIT
  {
    ReadyLoads(g);
    hide Ready, SoundOwner, LoadableInto;
    forall h | h in g.entities ensures Loads(OwnersOf(g)[h]) && g.entities[h].handle == h && 0 < h < WORD_LIMIT {
      assert SoundEntity(g.entities[h]) && LoadableEntity(g.entities[h]);
    }
  }

  lemma TablesAfter(g: Graph, s: Store)
    requires Ready(g) && s.Keys == g.entities.Keys
    ensures SoundTables(WithOwners(g, s))
  {
    ReadyLoads(g);
    hide Ready, NameTable.Consistent, NameTable.NamesFit, PrimitiveMap.CodesFit, LinkTable.HandlesFit;
  }

  lemma CountedIsCounted(g: Graph)
    requires Counted(g)
    ensures CountedStore(OwnersOf(g))
  {
  }

  /** After any edit that completes the graph can be written, and the reader takes
      what is written exactly if it knows the type of the value added and, under a
      relation, finds an entity reference. */
  lemma EditLoadsIff(g: Graph, e: Edit)
    requires Ready(g) && GoodEdit(e) && !Edited(g, e).1 && Bounded(Edited(g, e).0)
    ensures var g' := Edited(g, e).0; SoundEntities(g') && SoundTables(g') && (LoadableGraph(g') <==> LoadsAfter(e))
  {
    hide Ready, Bounded, AllLoad, AllWrite, PutInto, Annotated, WellMade, SoundTables, SoundEntities, LoadableGraph, CountedStore, WithOwners, OwnersOf, Readable;
    if e.Create? || e.Declare? {
      EditKeepsReadyIff(g, e);
      AlwaysSurvives(g, e);
      ReadyLoads(Edited(g, e).0);
      return;
    }
    var s, g' := OwnersOf(g), Edited(g, e).0;
    BoundedIsCounted(g');
    CountedIsCounted(g');
    ReadyStoreLoads(g);
    OwnersKeys(g);
    var r := StoreAfter(g, e);
    OwnersBack(g, r);
    TablesAfter(g, r);
    WritesAreSound(g', r);
  }

  lemma StoreAfter(g: Graph, e: Edit) returns (r: Store)
    requires Ready(g) && (e.Put? || e.Annotate?) && GoodEdit(e) && !Edited(g, e).1 && Bounded(Edited(g, e).0)
    ensures r.Keys == g.entities.Keys && Edited(g, e).0 == WithOwners(g, r) && AllWrite(r) && (AllLoad(r) <==> LoadsAfter(e))
  {
    hide Ready, Loads, Writes, WellMade, CountedStore, WithOwners, OwnersOf, Readable, ShortLists, PutInto, Annotated, Stored;
    var s, g' := OwnersOf(g), Edited(g, e).0;
    BoundedIsCounted(g');
    ReadyStoreLoads(g);
    OwnersKeys(g);
    if e.Put? {
      r := PutInto(s, e.h, e.key, e.v).store;
      PutKeys(s, e.h, e.key, e.v);
      OwnersBack(g, r);
      CountedIsCounted(g');
      PutLoadsIff(s, e.h, e.key, e.v);
    } else {
      var o' := Annotated(s[e.h], e.key, e.position, e.metaKey, e.v).value;
      r := s[e.h := o'];
      assert g'.entities[e.h].owner == o' && ShortLists(o');
      assert Loads(s[e.h]);
      AnnotateLoadsIff(s[e.h], e.key, e.position, e.metaKey, e.v, o');
      OneOwner(g, e.h, o');
      LoadsWrite(s);
      assert r[e.h] == o';
    }
  }

  lemma PutKeys(s: Store, h: Handle, key: nat, v: Value)
    requires h in s
    ensures PutInto(s, h, key, v).store.Keys == s.Keys
  {
    hide InsertValue;
  }

  lemma LoadsWrite(s: Store)
    requires AllLoad(s)
    ensures AllWrite(s)
  {
    hide LoadableInto;
    forall h | h in s ensures Writes(s[h]) { assert Loads(s[h]); }
  }

  // ---------- an edit that the file does not give back ----------

  lemma KeptPutIsTimeless(g: Graph, h: Handle, key: nat, v: Value)
    requires h in g.entities && !Edited(g, Put(h, key, v)).1 && Readable(key, v) && Keeps(Edited(g, Put(h, key, v)).0)
    ensures Timeless([v])
  {
    if v.subtype == TimeStamp {
      hide InsertValue, Canonical, Certainty, Sorted;
      var o, o' := g.entities[h].owner, InsertValue(g.entities[h].owner, key, v, Fuzzy).value;
      PutIs(g, h, key, v, o');
      var g' := Edited(g, Put(h, key, v)).0;
      assert Unchanging(g'.entities[h]) && g'.entities[h].owner == o';
      hide Edited, Keeps;
      JoinsTable(o, key, v, o');
    }
  }

  lemma JoinsTable(o: Owner, key: nat, v: Value, o': Owner)
    requires InsertValue(o, key, v, Fuzzy) == Done(o') && forall k :: k in o'.properties ==> Timeless(o'.properties[k].values)
    ensures StoredMembers(v) == v.members
  {
    hide StoredMembers;
    var p := ListFor(o, key, v, Fuzzy);
    assert Appended(p, v) == Done(o'.properties[key]) by { hide Appended; }
    hide InsertValue, Appended;
    var i := Joins(p, v);
    NumberNotStored(v, i);
  }

  lemma OrderedAnnotationStays(o: Owner, key: nat, position: nat, metaKey: nat, v: Value, o': Owner)
    requires LooseOwner(o) && Annotated(o, key, position, metaKey, v) == Done(o') && ShortLists(o') && Ordered(o')
    requires WellMade(v) && metaKey < 0x1_0000_0000
    ensures StaysSorted(o, key, position, metaKey, v)
  {
    hide InsertValue, WellMade, LooseValue, Descending, SmallIds, Certainty, FitsBetween, Stored, StoredMembers;
    var p, u, q := o.properties[key], o.properties[key].values[position], o'.properties[key];
    var meta := InsertValue(u.meta, metaKey, v, Fuzzy).value;
    assert LooseAt(p, key) && Descending(q.values, ByCertainty());
    MetaThere(o, key, position, metaKey, v, o');
    assert ShortMeta(q.values[position]) && q.values[position].meta == meta;
    ValueIsLoose(p, key, position);
    AnnotatedValue(u, metaKey, v, meta);
    assert q.values == p.values[position := u.(meta := meta)];
    hide Annotated, ShortLists;
    OrderedIff(p, position, u.(meta := meta));
  }

  lemma KeptEditSurvives(g: Graph, e: Edit)
    requires Ready(g) && (e.Put? || e.Annotate?) && GoodEdit(e) && !Edited(g, e).1 && Bounded(Edited(g, e).0) && LoadsAfter(e)
    requires Keeps(Edited(g, e).0) && OrderedGraph(Edited(g, e).0)
    ensures Survives(g, e)
  {
    hide Ready, LooseOwner, Annotated, PutInto, WellMade, Keeps, Ordered, ShortLists, Readable, Timeless, StaysSorted, Stored;
    if e.Put? {
      KeptPutIsTimeless(g, e.h, e.key, e.v);
    } else {
      ReadyIs(g);
      var o, o' := g.entities[e.h].owner, Edited(g, e).0.entities[e.h].owner;
      assert o == OwnersOf(g)[e.h] && ShortLists(o') && Ordered(o');
      OrderedAnnotationStays(o, e.key, e.position, e.metaKey, e.v, o');
    }
  }

  /** After any edit that completes, the file written then loads, and gives back a
      graph equal to the one in memory, exactly if what was added survives. */
  lemma EditIsKeptIff(g: Graph, e: Edit)
    requires Ready(g) && GoodEdit(e) && !Edited(g, e).1 && Bounded(Edited(g, e).0)
    ensures var g' := Edited(g, e).0;
      SoundEntities(g') && (LoadableGraph(g') && GraphEqual(g', ReloadedGraph(g')) <==> Survives(g, e))
  {
    hide *;
    var g' := Edited(g, e).0;
    EditLoadsIff(g, e);
    EditKeepsReadyIff(g, e);
    GraphRoundTripIff(g');
    if Survives(g, e) {
      ReadyIsKept(g');
    } else if LoadableGraph(g') && GraphEqual(g', ReloadedGraph(g')) {
      if e.Create? || e.Declare? { AlwaysSurvives(g, e); } else { KeptEditSurvives(g, e); }
    }
  }

  lemma ReadyIsKept(g: Graph)
    requires Ready(g)
    ensures LoadableGraph(g) && Keeps(g) && OrderedGraph(g)
  {
    hide FineGraph, NoneEmpty, Keeps, SinglyTyped, LinkGraph.Valid, SoundTables, SoundEntities, LoadableGraph, OrderedGraph;
    FineParts(g);
  }

  /** So an INSERT of a value that the reader does not take is saved, and the next
      call that has to recover loses the database. After any other edit that call
      restores what was saved, and equal to it exactly if what was added survives. */
  lemma RecoveryAfterEdit(g: Graph, e: Edit, partial: Graph, record: Value, pristine: Graph)
    requires Ready(g) && GoodEdit(e) && !Edited(g, e).1 && Bounded(Edited(g, e).0)
    requires SoundEntities(Edited(g, e).0) ==> Persistence.Fits(Edited(g, e).0)
    ensures var g' := Edited(g, e).0; var (d', end) := Persistence.Recovered(Persistence.Database(partial, Persistence.FileOf(g')), record, pristine);
      if LoadsAfter(e) then end == Persistence.Restored && d'.file == Persistence.FileOf(g') && (GraphEqual(g', d'.graph) <==> Survives(g, e))
      else end == Persistence.Reset && d' == Persistence.Database(pristine, Persistence.FileOf(pristine))
  {
    hide Ready, GoodEdit, Edited, Bounded, LoadsAfter, Persistence.Fits, SoundEntities, SoundTables, LoadableGraph, Persistence.FileOf, Persistence.Recovered, Survives, GraphEqual, ReloadedGraph;
    EditLoadsIff(g, e);
    EditIsKeptIff(g, e);
    var g' := Edited(g, e).0;
    Persistence.UnloadableResets(Persistence.Database(partial, Persistence.FileOf(g')), g', record, pristine);
  }

  // ---------- every body ----------

  /** Every edit is well made, survives where it is made, and stays in bounds. */
  ghost predicate GoodBody(g: Graph, edits: seq<Edit>) {
    edits == [] ||
    (var init, last := edits[..|edits| - 1], edits[|edits| - 1];
     GoodBody(g, init)
     && (!Body(g, init).1 ==> GoodEdit(last) && Survives(Body(g, init).0, last) && (!Body(g, edits).1 ==> Bounded(Body(g, edits).0))))
  }

  /** An INSERT that completes with such edits leaves a graph that can be saved,
      merged and edited, and that survives the file. */
  lemma {:induction false} BodyKeepsReady(g: Graph, edits: seq<Edit>)
    requires Ready(g) && GoodBody(g, edits) && !Body(g, edits).1
    ensures Ready(Body(g, edits).0)
  {
    hide Ready, Bounded, GoodEdit, Edited, Survives;
    if edits != [] {
      var init := edits[..|edits| - 1];
      BodyKeepsReady(g, init);
      EditKeepsReadyIff(Body(g, init).0, edits[|edits| - 1]);
    }
  }
}
