/** What the names that an INSERT uses come to stand for: the id under which a type or
    a property is registered, the code of a property, and the type of an entity. */
module Registry {
  import opened Bytes
  import opened Edits
  import opened Entities
  import FirstSave
  import opened GraphFile
  import opened Hierarchy
  import LinkGraph
  import opened Listings
  import opened Merging
  import MergedLists
  import NameTable
  import Persistence
  import opened Properties
  import Runs
  import Stability

  // ---------- names and ids ----------

  /** A table as registering and releasing names leave it. */
  ghost predicate Proper(t: NameTable.Names) {
    && NameTable.Consistent(t) && Stability.Numbered(t)
    && (forall i :: i in t.pool ==> i !in t.byId && i < t.next)
    && forall i, j :: 0 <= i < j < |t.pool| ==> t.pool[i] != t.pool[j]
  }

  /** The name joins, under an id that was not in use: the one released last,
      or else the next. Nothing else is different. */
  ghost predicate Joins(t: NameTable.Names, t': NameTable.Names, name: Text) {
    && name in t'.byName
    && var id := t'.byName[name];
       && id !in t.byId && id == (if t.pool == [] then t.next else t.pool[0])
       && t'.byId == t.byId[id := name] && t'.byName == t.byName[name := id]
       && t'.pool == (if t.pool == [] then [] else t.pool[1..])
       && t'.next == (if t.pool == [] then t.next + 1 else t.next)
  }

  lemma RegisteredJoins(t: NameTable.Names, name: Text)
    requires Proper(t)
    ensures if name in t.byName then Registered(t, name) == t else Joins(t, Registered(t, name), name)
    ensures Proper(Registered(t, name)) && name in Registered(t, name).byName
  {
    var r := Registered(t, name);
    if name !in t.byName {
      if t.pool != [] { assert t.pool[0] in t.pool; }
      JoinedIsProper(t, r, name);
    }
  }

  lemma JoinedIsProper(t: NameTable.Names, r: NameTable.Names, name: Text)
    requires Proper(t) && name !in t.byName && Joins(t, r, name)
    ensures Proper(r)
  {
    var id := r.byName[name];
    assert NameTable.Consistent(r);
    forall i | i in r.pool ensures i !in r.byId && i < r.next {
      var j :| 0 <= j < |r.pool| && r.pool[j] == i;
      assert t.pool[j + 1] == i && i in t.pool;
    }
  }

  // ---------- the code of a property ----------

  /** Only registered properties have a code. */
  ghost predicate Keyed(g: Graph) {
    Proper(g.typeNames) && Proper(g.propertyNames) && g.propertyTypes.Keys <= g.propertyNames.byId.Keys
  }

  /** A name that is used for the first time gets an id that was not in use, and the
      code of this use; every other name, id and code stays, and so does the rest. A
      name that exists changes nothing. */
  lemma DeclareRecords(g: Graph, name: Text, code: nat)
    requires Keyed(g)
    ensures var g' := Edited(g, Declare(name, code)).0;
      && !Edited(g, Declare(name, code)).1 && Keyed(g')
      && (name in g.propertyNames.byName ==> g' == g)
      && (name !in g.propertyNames.byName ==>
            && Joins(g.propertyNames, g'.propertyNames, name)
            && var id := g'.propertyNames.byName[name];
               g'.propertyNames.byId[id] == name && id !in g.propertyTypes && g'.propertyTypes == g.propertyTypes[id := code]
               && g' == g.(propertyNames := g'.propertyNames, propertyTypes := g'.propertyTypes))
  {
    hide Proper;
    RegisteredJoins(g.propertyNames, name);
    hide Registered, IdFor;
    IdIs(g.propertyNames, name);
  }

  lemma IdIs(t: NameTable.Names, name: Text)
    ensures name in Registered(t, name).byName && Registered(t, name).byName[name] == IdFor(t, name)
  {
  }

  /** What is on record about a property of this name. */
  function CodeOf(g: Graph, name: Text): Option<nat> {
    if name in g.propertyNames.byName && g.propertyNames.byName[name] in g.propertyTypes
    then Some(g.propertyTypes[g.propertyNames.byName[name]]) else None
  }

  /** The code with which a name is first used. */
  function FirstUse(edits: seq<Edit>, name: Text): Option<nat> {
    if edits == [] then None
    else
      var before, last := FirstUse(edits[..|edits| - 1], name), edits[|edits| - 1];
      if before.Some? then before else if last.Declare? && last.name == name then Some(last.code) else None
  }

  datatype Option<T> = None | Some(value: T)

  ghost predicate SameNames(g: Graph, g': Graph) {
    g'.propertyNames == g.propertyNames && g'.propertyTypes == g.propertyTypes && g'.typeNames == g.typeNames
  }

  lemma OthersKeepNames(g: Graph, e: Edit)
    requires e.Put? || e.Annotate?
    ensures SameNames(g, Edited(g, e).0)
  {
    hide PutInto, Annotated;
  }

  lemma CreateRegisters(g: Graph, e: Edit)
    requires Keyed(g) && e.Create?
    ensures var g' := Edited(g, e).0;
      && Keyed(g') && g'.propertyNames == g.propertyNames && g'.propertyTypes == g.propertyTypes
      && e.typeName in g'.typeNames.byName
      && (if e.typeName in g.typeNames.byName then g'.typeNames == g.typeNames else Joins(g.typeNames, g'.typeNames, e.typeName))
  {
    hide Proper, Created;
    RegisteredJoins(g.typeNames, e.typeName);
  }

  /** Over every body that completes, a property keeps its id and the code of its
      first use, whoever uses it later and with what. */
  lemma {:induction false} BodyKeepsCodes(g: Graph, edits: seq<Edit>, name: Text)
    requires Keyed(g) && !Body(g, edits).1
    ensures var g' := Body(g, edits).0;
      && Keyed(g') && CodeOf(g', name) == (if name in g.propertyNames.byName then CodeOf(g, name) else FirstUse(edits, name))
      && (name in g.propertyNames.byName ==> name in g'.propertyNames.byName && g'.propertyNames.byName[name] == g.propertyNames.byName[name])
      && (name in g'.propertyNames.byName <==> name in g.propertyNames.byName || FirstUse(edits, name).Some?)
  {
    hide Edited, Keyed;
    if edits != [] {
      var init, last := edits[..|edits| - 1], edits[|edits| - 1];
      BodyKeepsCodes(g, init, name);
      CodeAfter(Body(g, init).0, last, name);
    }
  }

  /** Every property has its id and the code of its first use. */
  ghost predicate CodesAfter(g: Graph, g': Graph, edits: seq<Edit>) {
    forall name :: CodeOf(g', name) == if name in g.propertyNames.byName then CodeOf(g, name) else FirstUse(edits, name)
  }

  lemma BodyLeavesCodes(g: Graph, edits: seq<Edit>)
    requires Keyed(g) && !Body(g, edits).1
    ensures CodesAfter(g, Body(g, edits).0, edits)
  {
    hide Keyed, Body, CodeOf, FirstUse;
    forall name ensures CodeOf(Body(g, edits).0, name) == if name in g.propertyNames.byName then CodeOf(g, name) else FirstUse(edits, name) {
      BodyKeepsCodes(g, edits, name);
    }
  }

  lemma CodeAfter(g: Graph, e: Edit, name: Text)
    requires Keyed(g)
    ensures var g' := Edited(g, e).0;
      && Keyed(g')
      && CodeOf(g', name) == (if name in g.propertyNames.byName then CodeOf(g, name)
                              else if e.Declare? && e.name == name then Some(e.code) else None)
      && (name in g.propertyNames.byName ==> name in g'.propertyNames.byName && g'.propertyNames.byName[name] == g.propertyNames.byName[name])
      && (name in g'.propertyNames.byName <==> name in g.propertyNames.byName || (e.Declare? && e.name == name))
  {
    match e
    case Declare(n, code) =>
      DeclareRecords(g, n, code);
      hide Edited;
    case Create(_, _, _) =>
      CreateRegisters(g, e);
      hide Edited;
    case _ =>
      OthersKeepNames(g, e);
      hide Edited;
  }

  /** The same up to the exception of a body that throws. */
  lemma ThrownBodyKeepsCodes(g: Graph, edits: seq<Edit>, name: Text) returns (n: nat)
    requires Keyed(g) && Body(g, edits).1
    ensures n < |edits| && !Body(g, edits[..n]).1 && Edited(Body(g, edits[..n]).0, edits[n]).1
    ensures CodeOf(Body(g, edits).0, name) == if name in g.propertyNames.byName then CodeOf(g, name) else FirstUse(edits[..n], name)
  {
    n := FirstSave.BodyMade(g, edits);
    BodyKeepsCodes(g, edits[..n], name);
    ThrownIsOther(Body(g, edits[..n]).0, edits[n]);
    OthersKeepNames(Body(g, edits[..n]).0, edits[n]);
  }

  lemma ThrownIsOther(g: Graph, e: Edit)
    requires Edited(g, e).1
    ensures e.Put? || e.Annotate?
  {
  }

  // ---------- over every run ----------

  /** The name stands for what it stood for. */
  ghost predicate SameCode(g: Graph, g': Graph, name: Text) {
    && name in g.propertyNames.byName && name in g'.propertyNames.byName
    && g'.propertyNames.byName[name] == g.propertyNames.byName[name] && CodeOf(g', name) == CodeOf(g, name)
  }

  lemma ReadyIsProper(g: Graph)
    requires Ready(g)
    ensures Proper(g.typeNames) && Proper(g.propertyNames)
  {
    hide LooseStore, StoreKept, Ready;
    ReadyIs(g);
  }

  /** Tables that are equal member by member, as the handler compares them. */
  lemma EqualNames(t: NameTable.Names, t': NameTable.Names, name: Text)
    requires NamesEqual(t, t') && NameTable.Consistent(t) && NameTable.Consistent(t')
    ensures t.byId.Keys <= t'.byId.Keys && (name in t.byName ==> name in t'.byName && t'.byName[name] == t.byName[name])
  {
    AscendingLists(t.byId.Keys);
    AscendingLists(t'.byId.Keys);
    hide Ascending;
    forall i | i in t.byId ensures i in t'.byId {
      assert i in Ascending(t.byId.Keys);
      assert i in Ascending(t'.byId.Keys);
    }
  }

  lemma EqualKeepsCode(g: Graph, g': Graph, name: Text)
    requires GraphEqual(g, g') && Keyed(g) && Ready(g') && name in g.propertyNames.byName
    ensures Keyed(g') && SameCode(g, g', name)
  {
    hide Ready, EntityEqual, NamesEqual, NameTable.Consistent, Stability.Numbered;
    ReadyIsProper(g');
    EqualNames(g.propertyNames, g'.propertyNames, name);
  }

  lemma CompletedKeepsCode(g: Graph, r: Runs.Request, name: Text)
    requires Ready(g) && Keyed(g) && !Persistence.Throws(g, Runs.CallOf(g, r)) && name in g.propertyNames.byName
    ensures var g' := Persistence.Completed(g, Runs.CallOf(g, r)); Keyed(g') && SameCode(g, g', name)
  {
    hide Ready, Body, MergeCall, Persistence.LinkedGraph, Persistence.UnlinkedGraph, Keyed;
    Runs.ChangeCompletes(g, Runs.CallOf(g, r));
    match r
    case InsertRequest(edits, _) => BodyKeepsCodes(g, edits, name);
    case MergeRequest(a, b) =>
      MergeCallIs(g, a, b);
      MergedLists.MergeLeavesRest(g, a, b);
      SameTables(g, MergeCall(g, a, b).after);
    case _ =>
      LinksLeaveTables(g, Runs.CallOf(g, r));
      SameTables(g, Persistence.Completed(g, Runs.CallOf(g, r)));
  }

  lemma LinksLeaveTables(g: Graph, c: Persistence.Call)
    requires c.Link? || c.Unlink?
    ensures Persistence.Completed(g, c).propertyNames == g.propertyNames && Persistence.Completed(g, c).propertyTypes == g.propertyTypes
    ensures Persistence.Completed(g, c).typeNames == g.typeNames
  {
    hide LinkGraph.Linked, LinkGraph.Unlinked;
  }

  lemma SameTables(g: Graph, g': Graph)
    requires g'.propertyNames == g.propertyNames && g'.propertyTypes == g.propertyTypes && g'.typeNames == g.typeNames
    ensures Keyed(g) ==> Keyed(g')
    ensures forall name :: name in g.propertyNames.byName ==> SameCode(g, g', name)
  {
    hide Proper;
  }

  /** No call, completed or aborted, gives a known property another id or code. */
  lemma RequestKeepsCode(d: Persistence.Database, r: Runs.Request, record: Value, pristine: Graph, name: Text)
    requires Persistence.InStep(d) && Ready(d.graph) && Runs.Reasonable(d.graph, r) && Keyed(d.graph) && name in d.graph.propertyNames.byName
    ensures var g' := Persistence.Step(d, Runs.CallOf(d.graph, r), record, pristine).0.graph; Keyed(g') && SameCode(d.graph, g', name)
  {
    hide Ready, Keyed, SameCode, Persistence.InStep, Runs.Reasonable, Runs.CallOf, GraphEqual, Persistence.Step, Persistence.Completed, Persistence.Throws;
    Runs.RequestKeepsReady(d, r, record, pristine);
    if Persistence.Throws(d.graph, Runs.CallOf(d.graph, r)) {
      EqualKeepsCode(d.graph, Persistence.Step(d, Runs.CallOf(d.graph, r), record, pristine).0.graph, name);
    } else {
      StepLeaves(d, Runs.CallOf(d.graph, r), record, pristine);
      CompletedKeepsCode(d.graph, r, name);
      SameTables(d.graph, d.graph);
    }
  }

  lemma StepLeaves(d: Persistence.Database, c: Persistence.Call, record: Value, pristine: Graph)
    requires !Persistence.Throws(d.graph, c)
    ensures Persistence.Step(d, c, record, pristine).0.graph in {d.graph, Persistence.Completed(d.graph, c)}
  {
    hide Persistence.FileOf, Persistence.Completed, Persistence.Throws, Persistence.DoesNothing, Persistence.Recovered;
  }

  /** Over every run, a property known at some point keeps its id and code. */
  lemma {:induction false} RunKeepsCodes(d: Persistence.Database, requests: seq<Runs.Request>, record: Value, pristine: Graph,
                                         trace: seq<Persistence.Database>, i: nat, j: nat, name: Text)
    requires Runs.Run(d, requests, record, pristine, trace) && i <= j <= |requests|
    requires Persistence.InStep(trace[i]) && Ready(trace[i].graph) && Keyed(trace[i].graph) && name in trace[i].graph.propertyNames.byName
    ensures Persistence.InStep(trace[j]) && Ready(trace[j].graph) && Keyed(trace[j].graph) && SameCode(trace[i].graph, trace[j].graph, name)
    decreases j
  {
    hide Ready, Keyed, Persistence.InStep, Runs.Reasonable, Runs.CallOf, Persistence.Step, CodeOf;
    if i < j {
      RunKeepsCodes(d, requests, record, pristine, trace, i, j - 1, name);
      assert Runs.Makes(trace[j - 1], requests[j - 1], record, pristine, trace[j - 1 + 1]);
      Runs.RequestKeepsReady(trace[j - 1], requests[j - 1], record, pristine);
      RequestKeepsCode(trace[j - 1], requests[j - 1], record, pristine, name);
    }
  }

  // ---------- the type of an entity ----------

  /** A list that holds one value of this type and is closed. */
  predicate Sealed(o: Owner, key: nat, t: SubType, members: Members) {
    key in o.properties
    && var p := o.properties[key];
       p.kind == Locked && p.key == key && p.subtype == t && |p.values| == 1
       && p.values[0] == Value(t, 0, members, Owner(false, map[]))
  }

  /** An entity as it is made: unlinked, unlocked, and with nothing but its type, which
      has been recorded by an author at a moment. */
  predicate Newborn(e: Entity, h: Handle, typeId: nat, stamp: Stamp) {
    && e.handle == h && e.status == LinkGraph.NotLinked && !e.owner.locked && e.owner.properties.Keys == {2}
    && var p := e.owner.properties[2];
       && p.kind == ConcreteSingle && p.key == 2 && p.subtype == TypeID && |p.values| == 1
       && var v := p.values[0];
          && v.subtype == TypeID && v.orderingId == 0 && v.members.numbers == [typeId] && v.members.texts == []
          && !v.meta.locked && v.meta.properties.Keys == {5, 7}
          && Sealed(v.meta, 5, AuthorID, Members([stamp.author], [])) && Sealed(v.meta, 7, TimeStamp, stamp.moment)
  }

  lemma CreatedIsNewborn(h: Handle, typeId: nat, stamp: Stamp)
    ensures Newborn(Created(h, typeId, stamp), h, typeId, stamp)
  {
  }

  /** NEW with a handle that is not in use: the entity is there, of the type that the
      name stands for afterwards; the name is registered if it was not; and nothing
      else has changed. */
  lemma CreateLeaves(g: Graph, h: Handle, typeName: Text, stamp: Stamp)
    requires Keyed(g) && h !in g.entities
    ensures var g' := Edited(g, Create(h, typeName, stamp)).0;
      && !Edited(g, Create(h, typeName, stamp)).1 && Keyed(g')
      && g'.entities.Keys == g.entities.Keys + {h} && (forall x :: x in g.entities ==> g'.entities[x] == g.entities[x])
      && g'.links == g.links && g'.propertyNames == g.propertyNames && g'.propertyTypes == g.propertyTypes
      && typeName in g'.typeNames.byName && Newborn(g'.entities[h], h, g'.typeNames.byName[typeName], stamp)
      && (if typeName in g.typeNames.byName then g'.typeNames == g.typeNames else Joins(g.typeNames, g'.typeNames, typeName))
  {
    hide Proper;
    RegisteredJoins(g.typeNames, typeName);
    IdIs(g.typeNames, typeName);
    hide Registered, IdFor, Joins;
  }

  /** The entity has the type that the name stands for. */
  predicate Bears(g: Graph, h: Handle, typeName: Text) {
    && h in g.entities && Typed(g.entities[h]) && typeName in g.typeNames.byName
    && TypeOf(g.entities[h]) == [g.typeNames.byName[typeName]]
  }

  predicate PutsType(e: Edit, h: Handle) { e.Put? && e.h == h && e.key == 2 }

  /** No edit but a new type record changes what type an entity has. */
  lemma EditKeepsType(g: Graph, e: Edit, h: Handle, typeName: Text)
    requires Keyed(g) && Bears(g, h, typeName) && !PutsType(e, h)
    ensures Bears(Edited(g, e).0, h, typeName)
  {
    match e
    case Create(_, _, _) => CreateKeepsType(g, e, h, typeName);
    case Declare(n, code) =>
      DeclareRecords(g, n, code);
      DeclareKeepsEntities(g, e);
      hide Edited;
    case Put(_, _, _) => PutKeepsType(g, e, h, typeName);
    case Annotate(_, _, _, _, _) => AnnotateKeepsType(g, e, h, typeName);
  }

  lemma DeclareKeepsEntities(g: Graph, e: Edit)
    requires e.Declare?
    ensures Edited(g, e).0.entities == g.entities && Edited(g, e).0.typeNames == g.typeNames
  {
  }

  lemma CreateKeepsType(g: Graph, e: Edit, h: Handle, typeName: Text)
    requires Keyed(g) && e.Create? && Bears(g, h, typeName)
    ensures Bears(Edited(g, e).0, h, typeName)
  {
    CreateRegisters(g, e);
    hide Created, Keyed, Registered;
    assert Edited(g, e).0.entities[h] == g.entities[h];
  }

  lemma AnnotateKeepsType(g: Graph, e: Edit, h: Handle, typeName: Text)
    requires e.Annotate? && Bears(g, h, typeName)
    ensures Bears(Edited(g, e).0, h, typeName)
  {
    hide InsertValue;
  }

  /** Putting a value touches one list, and for a relation its mirror. */
  lemma PutKeepsType(g: Graph, e: Edit, h: Handle, typeName: Text)
    requires e.Put? && Bears(g, h, typeName) && !PutsType(e, h)
    ensures Bears(Edited(g, e).0, h, typeName)
  {
    OthersKeepNames(g, e);
    if e.h in g.entities {
      var s := OwnersOf(g);
      OwnersKeys(g);
      var r := PutInto(s, e.h, e.key, e.v).store;
      PutKeys(s, e.h, e.key, e.v);
      OwnersBack(g, r);
      PutKeepsTypeList(s, e.h, e.key, e.v, h);
      hide PutInto, OwnersOf, WithOwners;
    }
  }

  lemma PutKeepsTypeList(s: Store, h: Handle, key: nat, v: Value, x: Handle)
    requires h in s && x in s && !(x == h && key == 2)
    ensures x in PutInto(s, h, key, v).store && SameAt(s[x], PutInto(s, h, key, v).store[x], 2)
  {
    hide InsertLocal, MakeRef, Certainty, RefOf;
    if Relation(key) {
      if IsRef(v.subtype) && RefOf(v) in s {
        var other, record := RefOf(v), MakeRef(h, Certainty(v));
        var half := InsertLocal(s, other, OtherKey(key), record, KindOf(OtherKey(key))).store;
        LocalKeys(s, other, OtherKey(key), record, KindOf(OtherKey(key)));
        LocalOnlyList(s, other, OtherKey(key), record, KindOf(OtherKey(key)));
        LocalOnlyList(half, h, key, v, KindOf(key));
      }
    } else {
      LocalOnlyList(s, h, key, v, Fuzzy);
    }
  }

  /** The body makes h, with this type, and nothing else in it makes h or gives it
      another type. */
  predicate Makes(edits: seq<Edit>, i: nat, h: Handle, typeName: Text) {
    && i < |edits| && edits[i].Create? && edits[i].h == h && edits[i].typeName == typeName
    && forall j :: 0 <= j < |edits| ==> !PutsType(edits[j], h) && (edits[j].Create? && edits[j].h == h ==> j == i)
  }

  lemma {:induction false} NobodyMakes(g: Graph, edits: seq<Edit>, h: Handle)
    requires Keyed(g) && h !in g.entities && !Body(g, edits).1 && forall j :: 0 <= j < |edits| && edits[j].Create? ==> edits[j].h != h
    ensures h !in Body(g, edits).0.entities && Keyed(Body(g, edits).0)
  {
    hide Keyed, Edited;
    if edits != [] {
      var init := edits[..|edits| - 1];
      NobodyMakes(g, init, h);
      CodeAfter(Body(g, init).0, edits[|edits| - 1], []);
      NoNewHandle(Body(g, init).0, edits[|edits| - 1], h);
    }
  }

  lemma NoNewHandle(g: Graph, e: Edit, h: Handle)
    requires h !in g.entities && (e.Create? ==> e.h != h)
    ensures h !in Edited(g, e).0.entities
  {
    hide Created, Registered, PutInto, Annotated;
  }

  /** What a body makes has the type its name stands for in the end. */
  lemma {:induction false} BodyMakesType(g: Graph, edits: seq<Edit>, i: nat, h: Handle, typeName: Text)
    requires Keyed(g) && h !in g.entities && Makes(edits, i, h, typeName) && !Body(g, edits).1
    ensures Keyed(Body(g, edits).0) && Bears(Body(g, edits).0, h, typeName)
  {
    hide Keyed, Edited, Bears;
    var init, last := edits[..|edits| - 1], edits[|edits| - 1];
    var before := Body(g, init).0;
    if i < |edits| - 1 {
      BodyMakesType(g, init, i, h, typeName);
      EditKeepsType(before, last, h, typeName);
    } else {
      NobodyMakes(g, init, h);
      CreateLeaves(before, h, typeName, last.stamp);
      NewbornBears(Edited(before, last).0, h, typeName, last.stamp);
    }
    CodeAfter(before, last, []);
  }

  lemma NewbornBears(g: Graph, h: Handle, typeName: Text, stamp: Stamp)
    requires h in g.entities && typeName in g.typeNames.byName && Newborn(g.entities[h], h, g.typeNames.byName[typeName], stamp)
    ensures Bears(g, h, typeName)
  {
    hide Sealed;
  }

  /** Two entities that one body makes are of equal types exactly if their type names
      are equal; and it is then that they may be merged. */
  lemma TypesAgreeIff(g: Graph, edits: seq<Edit>, i: nat, a: Handle, typeName: Text, j: nat, b: Handle, typeName': Text)
    requires Keyed(g) && a !in g.entities && b !in g.entities && !Body(g, edits).1
    requires Makes(edits, i, a, typeName) && Makes(edits, j, b, typeName')
    ensures var g' := Body(g, edits).0;
      && a in g'.entities && b in g'.entities && Typed(g'.entities[a]) && Typed(g'.entities[b])
      && (TypeOf(g'.entities[a]) == TypeOf(g'.entities[b]) <==> typeName == typeName')
      && (MayMerge(g', a, b) <==> typeName == typeName')
  {
    hide Body, Makes, Stability.Numbered;
    BodyMakesType(g, edits, i, a, typeName);
    BodyMakesType(g, edits, j, b, typeName');
  }
}
