/** The entity manager: the graph and its file as an object whose calls change
    entities, links and statuses step by step, then save, or load when they fail. */
module EntityManagers {
  import opened Bytes
  import DataFile
  import opened Edits
  import opened Entities
  import FirstSave
  import opened GraphFile
  import Hierarchy
  import opened LinkGraph
  import LinkTable
  import opened Listings
  import MergedLists
  import opened Merging
  import NameTable
  import opened Paths
  import opened Persistence
  import PrimitiveMap
  import opened Properties
  import Records
  import RecordStreams
  import Registry
  import opened Stability

  class EntityManager {
    var entities: map<Handle, Entity>
    var links: LinkTable.Links
    var typeNames: NameTable.Names
    var propertyNames: NameTable.Names
    var propertyTypes: PrimitiveMap.Codes
    var dataFile: seq<Byte>

    // The type record of a null entity, and the graph that clearAll builds; both
    // carry the time and the author of the moment.
    const record: Value
    const pristine: Graph

    function View(): Graph
      reads this
    {
      Graph(entities, links, typeNames, propertyNames, propertyTypes)
    }

    function State(): Database
      reads this
    {
      Database(View(), dataFile)
    }

    constructor (g: Graph, file: seq<Byte>, record: Value, pristine: Graph)
      ensures State() == Database(g, file) && this.record == record && this.pristine == pristine
    {
      entities, links, typeNames, propertyNames, propertyTypes := g.entities, g.links, g.typeNames, g.propertyNames, g.propertyTypes;
      dataFile := file;
      this.record, this.pristine := record, pristine;
    }

    method Replace(g: Graph)
      modifies this
      ensures View() == g && dataFile == old(dataFile)
    {
      entities, links, typeNames, propertyNames, propertyTypes := g.entities, g.links, g.typeNames, g.propertyNames, g.propertyTypes;
    }

    // ---------- the file ----------

    method SaveToFile()
      requires FineGraph(View())
      modifies this`dataFile
      ensures dataFile == FileOf(View())
    {
      hide FineGraph, EncodeGraph, SoundEntities, DataFile.FileBytes;
      FineParts(View());
      NamesConsistent(View());
      var serialiser := new Serialiser();
      var _ := GraphFile.Serialise(View(), serialiser);
      assert serialiser.data == [] + EncodeGraph(View(), 0);
      assert [] + EncodeGraph(View(), 0) == EncodeGraph(View(), 0);
      dataFile := DataFile.WriteFile(serialiser.data);
    }

    /** Saved and Unchanged never come from here. A rejected file makes the reader
        reset the graph and save it before the exception goes on. */
    method LoadFromFile() returns (end: Ending)
      requires FineGraph(pristine)
      modifies this
      ensures (State(), end) == Recovered(old(State()), record, pristine) && end in {Restored, NotRestored, Reset, Stopped}
      ensures end == NotRestored <==> !FirstSave.Usable(old(dataFile))
      ensures end == NotRestored ==> State() == old(State())
    {
      FirstSave.LoadsIffUsable(dataFile, record);
      hide FirstSave.Usable, FineGraph, DecodeGraph, DataFile.ReadFile, DataFile.DataLength, FileOf;
      var size := DataFile.DataLength(dataFile);
      if size < 1 { return NotRestored; }
      var buffer := DataFile.ReadFile(dataFile, size);
      if buffer.Err? { return NotRestored; }
      var r := GraphFile.Unserialise(buffer.value, size, record);
      match r
      case Ok(g) =>
        Replace(g);
        end := Restored;
      case Err(Rejected) =>
        Replace(pristine);
        SaveToFile();
        end := Reset;
      case Err(Fatal) =>
        end := Stopped;
    }

    // ---------- links ----------

    /** Everyone becomes a slave; the lowest is made the master when its turn comes. */
    method SetStatuses(group: set<Handle>)
      requires group != {} && group <= entities.Keys
      modifies this`entities
      ensures entities.Keys == old(entities.Keys)
      ensures forall h :: h in entities ==> entities[h] == old(entities)[h].(status :=
        if h !in group then old(entities)[h].status else if IsLeast(h, group) then Master else Slave)
    {
      var lowestId := LeastOf(group);
      var rest := group;
      while rest != {}
        invariant rest <= group && entities.Keys == old(entities.Keys)
        invariant forall h :: h in entities ==> entities[h] == old(entities)[h].(status :=
          if h !in group - rest then old(entities)[h].status else if h == lowestId then Master else Slave)
      {
        var id := LeastOf(rest);
        entities := entities[id := entities[id].(status := Slave)];
        if id == lowestId { entities := entities[id := entities[id].(status := Master)]; }
        rest := rest - {id};
      }
    }

    method AddLink(a: Handle, b: Handle)
      modifies this`links
      ensures links == AddEdge(old(links), a, b)
    {
      if a !in links { links := links[a := {}]; }
      if b !in links { links := links[b := {}]; }
      links := links[a := links[a] + {b}];
      links := links[b := links[b] + {a}];
    }

    method LinkEntities(entityId: Handle, entityId2: Handle) returns (end: Ending)
      requires Healthy(View()) && FineGraph(pristine)
      modifies this
      ensures (State(), end) == Persistence.Step(old(State()), Call.Link(entityId, entityId2), record, pristine)
    {
      hide FineGraph, Valid, SoundEntities, Recovered, FileOf, AddEdge, Linked, WithLinks, Component, Reaches, Fine;
      ghost var g := View();
      if entityId !in entities || entityId2 !in entities {
        end := LoadFromFile();
        return;
      }
      CompletedIsHealthy(g, Call.Link(entityId, entityId2));
      AddLink(entityId, entityId2);
      LinkedGroupIsLive(g, entityId, entityId2);
      var ok, allLinked := GetLinkGraph(links, entityId, {});
      assert ok;
      SetStatuses(allLinked);
      LinkedGraphIs(g, View(), entityId, entityId2);
      SaveToFile();
      end := Saved;
    }

    /** What is left to do about one end of a removed link. */
    method SettleEnd(id: Handle, group: set<Handle>)
      requires id in entities && id in group && group <= entities.Keys
      modifies this`entities, this`links
      ensures View() == WithLinks(old(View()), Settled(LinkStateOf(old(View())), id, group)) && entities.Keys == old(entities.Keys)
    {
      hide SoundEntities;
      ghost var g := View();
      if |group| == 1 {
        links := links - {id};
        entities := entities[id := entities[id].(status := NotLinked)];
      } else {
        SetStatuses(group);
      }
      SettledGraphIs(g, View(), id, group);
    }

    method UnlinkEntities(entityId: Handle, entityId2: Handle) returns (end: Ending)
      requires Healthy(View()) && FineGraph(pristine)
      modifies this
      ensures (State(), end) == Persistence.Step(old(State()), Call.Unlink(entityId, entityId2), record, pristine)
    {
      hide FineGraph, Valid, SoundEntities, Recovered, FileOf, Settled, WithLinks;
      ghost var g := View();
      if entityId !in entities || entityId2 !in entities {
        end := LoadFromFile();
        return;
      }
      if entityId !in links || entityId2 !in links || entityId2 !in links[entityId] || entityId !in links[entityId2] {
        return Unchanged;
      }
      CompletedIsHealthy(g, Call.Unlink(entityId, entityId2));
      links := links[entityId := links[entityId] - {entityId2}];
      links := links[entityId2 := links[entityId2] - {entityId}];
      ghost var cut := LinkState(RemoveEdge(g.links, entityId, entityId2), LinkStateOf(g).status);
      assert links == cut.links;
      CutGroupsAreLive(g, entityId, entityId2);
      var ok, allLinked := GetLinkGraph(links, entityId, {});
      var ok2, allLinked2 := GetLinkGraph(links, entityId2, {});
      assert ok && ok2;
      CutGraphIs(g, View(), cut);
      SettleEnd(entityId, allLinked);
      ghost var half := Settled(cut, entityId, allLinked);
      SettledTwice(g, cut, entityId, allLinked);
      SettleEnd(entityId2, allLinked2);
      SettledTwice(g, half, entityId2, allLinked2);
      UnlinkedIs(g, entityId, entityId2);
      SaveToFile();
      end := Saved;
    }

    // ---------- other changes ----------

    /** EntityManager::insertEntity: the checks on the handle are assertions, which
        stop the process. */
    method InsertEntity(e: Entity) returns (stopped: bool)
      modifies this`entities
      ensures stopped <==> e.handle == 0 || e.handle in old(entities)
      ensures entities == if stopped then old(entities) else old(entities)[e.handle := e]
    {
      if e.handle == 0 || e.handle in entities { return true; }
      entities := entities[e.handle := e];
      stopped := false;
    }

    /** INSERT and every other change: after is what the body has made of the graph
        when it completes or throws. */
    method Apply(after: Graph, threw: bool) returns (end: Ending)
      requires FineGraph(pristine) && (!threw ==> FineGraph(after))
      modifies this
      ensures (State(), end) == Persistence.Step(old(State()), Change(after, threw), record, pristine)
    {
      hide FineGraph, Recovered, FileOf;
      Replace(after);
      if threw {
        end := LoadFromFile();
      } else {
        SaveToFile();
        end := Saved;
      }
    }

    /** EntityManager::createEntity, with a handle that is not in use. */
    method CreateEntity(h: Handle, typeName: Text, stamp: Stamp)
      modifies this`entities, this`typeNames
      ensures View() == Edited(old(View()), Create(h, typeName, stamp)).0
      ensures h !in old(entities) ==>
        h in entities && typeName in typeNames.byName && Registry.Newborn(entities[h], h, typeNames.byName[typeName], stamp)
    {
      Registry.IdIs(typeNames, typeName);
      Registry.CreatedIsNewborn(h, IdFor(typeNames, typeName), stamp);
      hide Created, Registry.Newborn;
      var typeId := IdFor(typeNames, typeName);
      if typeName !in typeNames.byName { typeNames := Registered(typeNames, typeName); }
      var e := Created(h, typeId, stamp);
      if h !in entities { entities := entities[h := e]; }
    }

    /** A predicate that no statement has used before names a new property. */
    method DeclareProperty(name: Text, code: nat)
      modifies this`propertyNames, this`propertyTypes
      ensures View() == Edited(old(View()), Declare(name, code)).0
      ensures old(Registry.Keyed(View())) && name !in old(propertyNames.byName) ==>
        Registry.CodeOf(View(), name) == Registry.Some(code) && Registry.Joins(old(propertyNames), propertyNames, name)
      ensures name in old(propertyNames.byName) ==> View() == old(View())
    {
      ghost var g := View();
      if Registry.Keyed(g) { Registry.DeclareRecords(g, name, code); }
      hide Registry.Keyed, Registry.Joins;
      if name !in propertyNames.byName {
        var id := IdFor(propertyNames, name);
        propertyNames := Registered(propertyNames, name);
        if id !in propertyTypes { propertyTypes := propertyTypes[id := code]; }
      }
    }

    /** Entity::insertProperty of one value: of a relation, the mirrored record
        first, so that it stays when the insert itself throws. */
    method PutValue(h: Handle, key: nat, v: Value) returns (threw: bool)
      modifies this`entities
      ensures (View(), threw) == Edited(old(View()), Put(h, key, v))
    {
      hide InsertValue, Hierarchy.MakeRef, Certainty, WithOwners, OwnersOf;
      ghost var g := View();
      OwnersAre(g);
      if h !in entities { return true; }
      var kind := Fuzzy;
      if key == SUBSET_OF || key == SUPERSET_OF {
        kind := Hierarchy.KindOf(key);
        var other := Hierarchy.RefOf(v);
        if (v.subtype != EntityRef && v.subtype != SourceRef) || other !in entities { return true; }
        var mirrored := InsertValue(entities[other].owner, Hierarchy.OtherKey(key), Hierarchy.MakeRef(h, Certainty(v)),
                                    Hierarchy.KindOf(Hierarchy.OtherKey(key)));
        if mirrored.Threw? { return true; }
        OwnerSet(g, other, mirrored.value);
        entities := entities[other := entities[other].(owner := mirrored.value)];
      }
      ghost var g' := View();
      var inserted := InsertValue(entities[h].owner, key, v, kind);
      if inserted.Threw? { return true; }
      OwnerSet(g', h, inserted.value);
      entities := entities[h := entities[h].(owner := inserted.value)];
      OwnersTwice(g, OwnersOf(g'), OwnersOf(View()));
      threw := false;
    }

    /** A triple about a META variable: EntityManager::dereference, then an insert
        into the metadata of the value found. */
    method AnnotateValue(h: Handle, key: nat, position: nat, metaKey: nat, v: Value) returns (threw: bool)
      modifies this`entities
      ensures (View(), threw) == Edited(old(View()), Annotate(h, key, position, metaKey, v))
    {
      hide InsertValue;
      if h !in entities || key !in entities[h].owner.properties { return true; }
      var p := entities[h].owner.properties[key];
      if |p.values| <= position { return true; }
      var record := p.values[position];
      var meta := InsertValue(record.meta, metaKey, v, Fuzzy);
      if meta.Threw? { return true; }
      var o := entities[h].owner;
      entities := entities[h := entities[h].(owner :=
        o.(properties := o.properties[key := p.(values := p.values[position := record.(meta := meta.value)])]))];
      threw := false;
    }

    /** EntityManager::Insert: one edit after the other, and the handler. */
    method Insert(edits: seq<Edit>, interrupted: bool) returns (end: Ending)
      requires FineGraph(pristine) && (!Body(View(), edits).1 ==> FineGraph(Body(View(), edits).0))
      modifies this
      ensures (State(), end)
           == Persistence.Step(old(State()), old(Change(Body(View(), edits).0, Body(View(), edits).1 || interrupted)), record, pristine)
      ensures end == Saved && old(Registry.Keyed(View())) ==> Registry.CodesAfter(old(View()), View(), edits)
    {
      hide Edited, FineGraph, Recovered, FileOf, Registry.Keyed, Registry.CodesAfter;
      ghost var g := View();
      if !Body(g, edits).1 && Registry.Keyed(g) { Registry.BodyLeavesCodes(g, edits); }
      for i := 0 to |edits|
        invariant Body(g, edits[..i]) == (View(), false) && dataFile == old(dataFile)
      {
        assert edits[..i + 1][..i] == edits[..i];
        var threw := Perform(edits[i]);
        if threw {
          BodyStops(g, edits, i + 1);
          end := LoadFromFile();
          return;
        }
      }
      assert edits[..|edits|] == edits;
      if interrupted {
        end := LoadFromFile();
      } else {
        SaveToFile();
        end := Saved;
      }
    }

    method Perform(e: Edit) returns (threw: bool)
      modifies this`entities, this`typeNames, this`propertyNames, this`propertyTypes
      ensures (View(), threw) == Edited(old(View()), e)
    {
      hide Registered, IdFor, Created, PutInto, Annotated;
      match e {
        case Create(h, typeName, stamp) =>
          CreateEntity(h, typeName, stamp);
          threw := false;
        case Declare(name, code) =>
          DeclareProperty(name, code);
          threw := false;
        case Put(h, key, v) =>
          threw := PutValue(h, key, v);
        case Annotate(h, key, position, metaKey, v) =>
          threw := AnnotateValue(h, key, position, metaKey, v);
      }
    }

    /** Entity::insertProperty of a whole property into a live entity: the mirrored
        record first, so that it stays when the insert itself throws. */
    method InsertWhole(h: Handle, p: Property) returns (threw: bool)
      requires h in entities && !Absorb(OwnersOf(View()), h, p).TopOfNothing?
      modifies this`entities
      ensures var r := Absorb(OwnersOf(old(View())), h, p);
        View() == WithOwners(old(View()), r.s) && (threw <==> r.Aborted?)
      ensures entities.Keys == old(entities.Keys)
    {
      hide InsertProperty, InsertValue, Hierarchy.MakeRef, Certainty, WithOwners, OwnersOf;
      ghost var g := View();
      OwnersAre(g);
      if p.key == SUBSET_OF || p.key == SUPERSET_OF {
        if p.subtype != EntityRef { return true; }
        var top := p.values[0];
        var other := Hierarchy.RefOf(top);
        if other !in entities { return true; }
        var mirrored := InsertValue(entities[other].owner, Hierarchy.OtherKey(p.key), Hierarchy.MakeRef(h, Certainty(top)),
                                    Hierarchy.KindOf(Hierarchy.OtherKey(p.key)));
        if mirrored.Threw? { return true; }
        OwnerSet(g, other, mirrored.value);
        entities := entities[other := entities[other].(owner := mirrored.value)];
      }
      ghost var g' := View();
      var inserted := InsertProperty(entities[h].owner, p);
      if inserted.Threw? { return true; }
      OwnerSet(g', h, inserted.value);
      entities := entities[h := entities[h].(owner := inserted.value)];
      OwnersTwice(g, OwnersOf(g'), OwnersOf(View()));
      threw := false;
    }

    /** The loop over the properties that the loser has when the loop begins. */
    method InsertAll(keep: Handle, lose: Handle) returns (threw: bool)
      requires keep in entities && lose in entities
      requires !AbsorbAll(OwnersOf(View()), keep, Listed(entities[lose].owner)).TopOfNothing?
      modifies this`entities
      ensures var r := AbsorbAll(OwnersOf(old(View())), keep, Listed(old(entities)[lose].owner));
        View() == WithOwners(old(View()), r.s) && (threw <==> r.Aborted?)
      ensures entities.Keys == old(entities.Keys)
    {
      hide Absorb, WithOwners, OwnersOf, Ascending, AbsorbAll, Listed;
      ghost var g := View();
      var o := entities[lose].owner;
      ghost var ps := Listed(o);
      OwnersAre(g);
      LoopStarts(OwnersOf(g), keep, o);
      var rest := o.properties.Keys;
      ghost var i := 0;
      while rest != {}
        invariant 0 <= i <= |ps| && rest <= o.properties.Keys && Records.KeysOf(o)[i..] == Ascending(rest)
        invariant AbsorbAll(OwnersOf(g), keep, ps[..i]).Merged?
        invariant View() == WithOwners(g, AbsorbAll(OwnersOf(g), keep, ps[..i]).s)
        invariant entities.Keys == old(entities.Keys)
      {
        ghost var r := AbsorbAll(OwnersOf(g), keep, ps[..i]);
        var key := LeastOf(rest);
        NextListed(o, rest, key, i);
        LoopSteps(OwnersOf(g), keep, ps, i);
        OwnersTwice(g, r.s, r.s);
        var p := o.properties[key];
        if p.kind != Locked {
          threw := InsertWhole(keep, p);
          ghost var r' := Absorb(r.s, keep, p);
          OwnersTwice(g, r.s, r'.s);
          if threw { return; }
        }
        rest, i := rest - {key}, i + 1;
      }
      LoopEnds(o, ps, i);
      threw := false;
    }

    method MergeEntities(entityId: Handle, entityId2: Handle) returns (end: Ending)
      requires Mergeable(View()) && FineGraph(pristine)
      requires !MergeCall(View(), entityId, entityId2).threw ==> Counted(MergeCall(View(), entityId, entityId2).after)
      modifies this
      ensures (State(), end) == Persistence.Step(old(State()), old(MergeCall(View(), entityId, entityId2)), record, pristine)
      ensures end == Saved ==> entities.Keys == old(entities.Keys) - {Higher(entityId, entityId2)} && links == old(links)
      ensures end == Saved && entityId != entityId2 ==> MergedLists.ListsMerged(old(View()), View(), entityId, entityId2)
      ensures end == Saved ==> typeNames == old(typeNames) && propertyNames == old(propertyNames) && propertyTypes == old(propertyTypes)
    {
      hide Mergeable, FineGraph, Recovered, FileOf, Absorb, Counted, WithOwners, MergedLists.ListsMerged, SoundEntities, AbsorbAll, OwnersOf;
      ghost var g := View();
      if entityId !in entities || entityId2 !in entities {
        end := LoadFromFile();
        return;
      }
      var keep, lose := Lower(entityId, entityId2), Higher(entityId, entityId2);
      if !Typed(entities[keep]) || !Typed(entities[lose]) || TypeOf(entities[keep]) != TypeOf(entities[lose]) {
        end := LoadFromFile();
        return;
      }
      MergeKeepsMergeable(g, entityId, entityId2);
      var threw := InsertAll(keep, lose);
      if threw {
        end := LoadFromFile();
        return;
      }
      entities := entities - {lose};
      assert View() == MergeCall(g, entityId, entityId2).after;
      MergeableIsSound(g);
      if entityId != entityId2 { MergedLists.MergeMergesLists(g, entityId, entityId2); }
      MergeableIsFine(View());
      SaveToFile();
      end := Saved;
    }
  }

  // ---------- what the loops build ----------

  lemma MergeableIsSound(g: Graph)
    requires Mergeable(g)
    ensures SoundEntities(g)
  {
    hide FineGraph, SoundEntities;
    MergeableIsFine(g);
    FineParts(g);
  }

  lemma {:induction false} BodyStops(g: Graph, edits: seq<Edit>, i: nat)
    requires i <= |edits| && Body(g, edits[..i]).1
    ensures Body(g, edits) == Body(g, edits[..i])
  {
    hide Edited;
    if i < |edits| {
      var init := edits[..|edits| - 1];
      assert init[..i] == edits[..i];
      BodyStops(g, init, i);
    } else {
      assert edits[..i] == edits;
    }
  }

  lemma NamesConsistent(g: Graph)
    requires FineGraph(g)
    ensures NameTable.Consistent(g.typeNames) && NameTable.Consistent(g.propertyNames)
  {
    hide NameTable.Consistent, NameTable.NamesFit, Fine;
  }

  /** Everyone a new link connects is in the table and alive. */
  lemma LinkedGroupIsLive(g: Graph, a: Handle, b: Handle)
    requires Healthy(g) && Live(g, a, b)
    ensures var l := AddEdge(g.links, a, b); var group := Component(l, a);
      group <= g.entities.Keys && a in group && forall n :: Reaches(l, a, n) ==> n in l
  {
    hide FineGraph, AddEdge, Reaches, ProperStatus;
    var l := AddEdge(g.links, a, b);
    assert Symmetric(g.links) && g.links.Keys <= g.entities.Keys by { HealthyLinks(g); }
    AddKeepsSymmetric(g.links, a, b);
    AddEdgeNeighbours(g.links, a, b, a);
    MembersAreKeys(l, a);
    ComponentIsClosed(l, a);
    forall h | h in l ensures h in g.entities { AddEdgeNeighbours(g.links, a, b, h); }
  }

  lemma HealthyLinks(g: Graph)
    requires Healthy(g)
    ensures Symmetric(g.links) && g.links.Keys <= g.entities.Keys
  {
    hide FineGraph, ProperStatus;
    assert LinkStateOf(g).status.Keys == g.entities.Keys;
  }

  lemma LinkedGraphIs(g: Graph, g': Graph, a: Handle, b: Handle)
    requires Live(g, a, b) && g' == g.(links := AddEdge(g.links, a, b), entities := g'.entities)
    requires g'.entities.Keys == g.entities.Keys
    requires var group := Component(AddEdge(g.links, a, b), a);
      forall h :: h in g'.entities ==> g'.entities[h] == g.entities[h].(status :=
        if h !in group then g.entities[h].status else if IsLeast(h, group) then Master else Slave)
    ensures g' == LinkedGraph(g, a, b)
  {
    hide AddEdge, Component, IsLeast;
    assert g'.entities == LinkedGraph(g, a, b).entities;
  }

  lemma CutGroupsAreLive(g: Graph, a: Handle, b: Handle)
    requires Healthy(g) && Live(g, a, b) && HasEdge(g.links, a, b)
    ensures var l := RemoveEdge(g.links, a, b);
      && Component(l, a) <= g.entities.Keys && Component(l, b) <= g.entities.Keys
      && a in Component(l, a) && b in Component(l, b)
      && (forall n :: Reaches(l, a, n) ==> n in l) && forall n :: Reaches(l, b, n) ==> n in l
  {
    hide FineGraph, RemoveEdge, Reaches, ProperStatus;
    var l := RemoveEdge(g.links, a, b);
    HealthyLinks(g);
    CutKeepsSymmetric(g.links, a, b);
    RemoveEdgeNeighbours(g.links, a, b, a);
    MembersAreKeys(l, a);
    MembersAreKeys(l, b);
    ComponentIsClosed(l, a);
    ComponentIsClosed(l, b);
  }

  lemma CutGraphIs(g: Graph, g': Graph, cut: LinkState)
    requires g' == g.(links := cut.links) && cut.status == LinkStateOf(g).status
    ensures g' == WithLinks(g, cut)
  {
    assert g'.entities == WithLinks(g, cut).entities;
  }

  lemma SettledGraphIs(g: Graph, g': Graph, a: Handle, group: set<Handle>)
    requires a in g.entities && g' == g.(links := g'.links, entities := g'.entities) && g'.entities.Keys == g.entities.Keys
    requires |group| == 1 ==> g'.links == g.links - {a} && g'.entities == g.entities[a := g.entities[a].(status := NotLinked)]
    requires |group| != 1 ==> g'.links == g.links
    requires |group| != 1 ==> forall h :: h in g'.entities ==> g'.entities[h] == g.entities[h].(status :=
      if h !in group then g.entities[h].status else if IsLeast(h, group) then Master else Slave)
    ensures g' == WithLinks(g, Settled(LinkStateOf(g), a, group))
  {
    hide IsLeast;
    assert g'.entities == WithLinks(g, Settled(LinkStateOf(g), a, group)).entities;
  }

  /** Settling one end of a graph that already carries a link state. */
  lemma SettledTwice(g: Graph, s: LinkState, a: Handle, group: set<Handle>)
    requires s.status.Keys == g.entities.Keys && a in g.entities
    ensures LinkStateOf(WithLinks(g, s)) == s && Settled(s, a, group).status.Keys == g.entities.Keys
    ensures WithLinks(WithLinks(g, s), Settled(LinkStateOf(WithLinks(g, s)), a, group)) == WithLinks(g, Settled(s, a, group))
  {
    WithLinksIsSame(g, s);
    var t := Settled(s, a, group);
    assert t.status.Keys == g.entities.Keys;
    hide Settled;
    assert WithLinks(WithLinks(g, s), t).entities == WithLinks(g, t).entities;
  }

  lemma UnlinkedIs(g: Graph, a: Handle, b: Handle)
    requires HasEdge(g.links, a, b)
    ensures var cut := LinkState(RemoveEdge(g.links, a, b), LinkStateOf(g).status);
      UnlinkedGraph(g, a, b) == WithLinks(g, Settled(Settled(cut, a, Component(cut.links, a)), b, Component(cut.links, b)))
  {
    hide Settled, WithLinks, Component;
  }

  lemma OwnersAre(g: Graph)
    ensures WithOwners(g, OwnersOf(g)) == g && OwnersOf(g).Keys == g.entities.Keys
    ensures forall h :: h in g.entities ==> OwnersOf(g)[h] == g.entities[h].owner
  {
    assert WithOwners(g, OwnersOf(g)).entities == g.entities;
  }

  lemma OwnerSet(g: Graph, h: Handle, o: Owner)
    requires h in g.entities
    ensures var g' := g.(entities := g.entities[h := g.entities[h].(owner := o)]);
      OwnersOf(g') == OwnersOf(g)[h := o] && g' == WithOwners(g, OwnersOf(g)[h := o])
  {
    var g' := g.(entities := g.entities[h := g.entities[h].(owner := o)]);
    assert OwnersOf(g') == OwnersOf(g)[h := o];
    assert g'.entities == WithOwners(g, OwnersOf(g)[h := o]).entities;
  }

  lemma OwnersTwice(g: Graph, s: Hierarchy.Store, t: Hierarchy.Store)
    requires s.Keys == g.entities.Keys == t.Keys
    ensures OwnersOf(WithOwners(g, s)) == s && WithOwners(WithOwners(g, s), t) == WithOwners(g, t)
  {
    assert OwnersOf(WithOwners(g, s)) == s;
    assert WithOwners(WithOwners(g, s), t).entities == WithOwners(g, t).entities;
  }

  lemma LoopStarts(s: Hierarchy.Store, h: Handle, o: Owner)
    requires h in s
    ensures AbsorbAll(s, h, Listed(o)[..0]) == Merged(s) && Records.KeysOf(o)[0..] == Ascending(o.properties.Keys)
  {
    assert Records.KeysOf(o)[0..] == Records.KeysOf(o);
  }

  lemma NextListed(o: Owner, rest: set<nat>, key: nat, i: nat)
    requires IsLeast(key, rest) && i <= |o.properties| && Records.KeysOf(o)[i..] == Ascending(rest)
    ensures i < |o.properties| && Records.KeysOf(o)[i] == key && key in o.properties && Listed(o)[i] == o.properties[key]
    ensures Records.KeysOf(o)[i + 1..] == Ascending(rest - {key})
  {
    hide Ascending;
    RecordStreams.NextKey(o, rest, key, i);
  }

  lemma LoopSteps(s: Hierarchy.Store, h: Handle, ps: seq<Property>, i: nat)
    requires h in s && i < |ps| && AbsorbAll(s, h, ps[..i]).Merged? && !AbsorbAll(s, h, ps).TopOfNothing?
    ensures var r := AbsorbAll(s, h, ps[..i]);
      && AbsorbAll(s, h, ps[..i + 1]) == (if ps[i].kind == Locked then r else Absorb(r.s, h, ps[i]))
      && !AbsorbAll(s, h, ps[..i + 1]).TopOfNothing?
      && (AbsorbAll(s, h, ps[..i + 1]).Aborted? ==> AbsorbAll(s, h, ps) == AbsorbAll(s, h, ps[..i + 1]))
  {
    hide Absorb;
    assert ps[..i + 1][..i] == ps[..i];
    FailureStays(s, h, ps, i + 1);
  }

  lemma {:induction false} FailureStays(s: Hierarchy.Store, h: Handle, ps: seq<Property>, i: nat)
    requires h in s && i <= |ps|
    ensures !AbsorbAll(s, h, ps[..i]).Merged? ==> AbsorbAll(s, h, ps) == AbsorbAll(s, h, ps[..i])
  {
    hide Absorb;
    if i == |ps| {
      assert ps[..i] == ps;
    } else {
      assert ps[..|ps| - 1][..i] == ps[..i];
      FailureStays(s, h, ps[..|ps| - 1], i);
    }
  }

  lemma LoopEnds(o: Owner, ps: seq<Property>, i: nat)
    requires i <= |ps| == |o.properties| && Records.KeysOf(o)[i..] == Ascending({})
    ensures i == |ps| && ps[..i] == ps
  {
    AscendingEnds();
  }
}
