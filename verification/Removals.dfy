/** DELETE of one value: the list keeps its gap in memory, but not through the file. */
module Removals {
  import opened Edits
  import opened Entities
  import opened GraphFile
  import LinkGraph
  import opened Merging
  import opened Properties
  import opened Records
  import opened Sorting
  import opened Stability

  /** The branch of EntityManager::DeleteFromVariableSetValue for numbers, strings
      and dates: a list that is left empty goes as well. */
  function Emptied(o: Owner, key: nat, id: nat): Owner
    requires key in o.properties
  {
    var p := Removed(o.properties[key], id);
    if p.values == [] then o.(properties := o.properties - {key}) else o.(properties := o.properties[key := p])
  }

  /** There is such a value. */
  predicate Deletable(g: Graph, h: Handle, key: nat, id: nat) {
    h in g.entities && key in g.entities[h].owner.properties && key != TYPE && id < |g.entities[h].owner.properties[key].values|
  }

  function Deleted(g: Graph, h: Handle, key: nat, id: nat): Graph
    requires Deletable(g, h, key, id)
  {
    g.(entities := g.entities[h := g.entities[h].(owner := Emptied(g.entities[h].owner, key, id))])
  }

  /** A list numbered from zero stays so exactly when its last value goes. */
  lemma RemovalKeepsNumbersIff(p: Property, id: nat)
    requires Canonical(p.values) && id < |p.values|
    ensures Removed(p, id).values == p.values[..id] + p.values[id + 1..]
    ensures Canonical(Removed(p, id).values) <==> id == |p.values| - 1
  {
    var k := WithoutFirstCuts(p.values, id);
    assert p.values[id].orderingId == id;
    var r := Removed(p, id).values;
    if id < |p.values| - 1 { assert r[id] == p.values[id + 1]; }
  }

  lemma CutIsLoose(p: Property, key: nat, id: nat)
    requires LooseAt(p, key) && ListKept(p) && id < |p.values|
    ensures var q := Removed(p, id); LooseProperty(q, key) && Descending(q.values, ByCertainty()) && Timeless(q.values)
    ensures |p.values| <= 0x1_0000_0000 ==> SmallIds(Removed(p, id).values)
  {
    hide LooseValue, Certainty, StoredMembers;
    RemovalKeepsNumbersIff(p, id);
    CutKeepsDescending(p.values, ByCertainty(), id);
    var r := Removed(p, id).values;
    forall i | 0 <= i < |r| ensures r[i].subtype == p.subtype && LooseValue(r[i]) && StoredMembers(r[i]) == r[i].members {
      assert r[i] == p.values[if i < id then i else i + 1];
    }
  }

  lemma OwnerAfter(o: Owner, key: nat, id: nat)
    requires LooseOwner(o) && OwnerKept(o) && key in o.properties && key != TYPE && id < |o.properties[key].values| <= 0x1_0000_0000
    ensures LooseOwner(Emptied(o, key, id))
    ensures OwnerKept(Emptied(o, key, id)) <==> id == |o.properties[key].values| - 1
    ensures TYPE in Emptied(o, key, id).properties && Emptied(o, key, id).properties[TYPE].kind == ConcreteSingle
  {
    var p, q := o.properties[key], Removed(o.properties[key], id);
    assert LooseAt(p, key) && ListKept(p);
    RemovalKeepsNumbersIff(p, id);
    CutIsLoose(p, key, id);
    hide LooseValue, Descending, Canonical, Timeless, Removed, LooseProperty, SmallIds;
    if q.values != [] { assert Emptied(o, key, id).properties[key] == q; }
  }

  /** A graph that survives the file, less one value: it can be saved, and it comes
      back equal exactly when the value was the last of its list. */
  lemma DeletionSurvivesIff(g: Graph, h: Handle, key: nat, id: nat)
    requires Ready(g) && Counted(g) && Deletable(g, h, key, id)
    ensures var g' := Deleted(g, h, key, id);
      && FineGraph(g') && SoundEntities(g')
      && (GraphEqual(g', ReloadedGraph(g')) <==> id == |g.entities[h].owner.properties[key].values| - 1)
  {
    hide LooseOwner, OwnerKept, Ready, LinkGraph.Valid, FineTables, GraphEqual, Removed;
    var o := g.entities[h].owner;
    var g' := Deleted(g, h, key, id);
    var o' := Emptied(o, key, id);
    ReadyIs(g);
    assert OwnersOf(g)[h] == o;
    OwnerAfter(o, key, id);
    DeletedIsCounted(g, h, key, id);
    TablesStand(g, g');
    hide Emptied;
    LooseIsMergeable(g', OwnersOf(g)[h := o']);
    MergeableIsFine(g');
    FineParts(g');
    KeepsIff(g, g', h, o');
    GraphRoundTripIff(g');
  }

  lemma DeletedIsCounted(g: Graph, h: Handle, key: nat, id: nat)
    requires Counted(g) && Deletable(g, h, key, id)
    ensures Counted(Deleted(g, h, key, id))
  {
    var k := WithoutFirstCuts(g.entities[h].owner.properties[key].values, id);
  }

  lemma KeepsIff(g: Graph, g': Graph, h: Handle, o': Owner)
    requires StoreKept(OwnersOf(g)) && ReadyTables(g') && h in g.entities
    requires g'.entities == g.entities[h := g.entities[h].(owner := o')]
    requires TYPE in o'.properties && o'.properties[TYPE].kind == ConcreteSingle
    ensures Keeps(g') <==> OwnerKept(o')
  {
    hide OwnerKept, Unchanging, FineTables;
    forall x | x in g'.entities && x != h ensures Unchanging(g'.entities[x]) {
      assert OwnerKept(OwnersOf(g)[x]);
      KeptIffUnchanging(g.entities[x]);
    }
    KeptIffUnchanging(g'.entities[h]);
  }
}
