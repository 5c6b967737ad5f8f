/** A graph that has been saved and loaded once keeps everything it needs to be
    saved and loaded again, and the second time nothing changes. */
module Stability {
  import opened Entities
  import opened GraphFile
  import opened Listings
  import LinkTable
  import opened MemberCodec
  import NameTable
  import Paths
  import PrimitiveMap
  import opened Properties
  import opened Records
  import opened Reload
  import opened Sorting

  // ---------- sound again ----------

  lemma RenumberedIsSound(v: Value, i: nat)
    requires SoundValue(v) && i < 0x1_0000_0000
    ensures SoundValue(v.(orderingId := i))
  {
    hide SoundOwner;
  }

  lemma {:induction false} ValueSoundAgain(v: Value)
    requires SoundValue(v)
    ensures SoundValue(ReloadedValue(v))
    decreases v
  {
    hide SoundOwner, ReloadedOwner, Fits, Ranked;
    OwnerSoundAgain(v.meta);
    RankedAgain(v);
    StoredTwice(v);
  }

  lemma StoredTwice(v: Value)
    ensures StoredMembers(ReloadedValue(v)) == StoredMembers(v)
    ensures StoredMembers(ReloadedValue(v)) == ReloadedValue(v).members
  {
    hide ReloadedOwner;
  }

  /** Whatever holds of every value read back, whatever its number, holds of every
      value of the sorted list. */
  lemma SortedComesFrom(vs: seq<Value>, i: nat) returns (j: nat)
    requires i < |vs|
    ensures |Sorted(vs)| == |vs| && j < |vs| && Sorted(vs)[i] == vs[j].(orderingId := i)
  {
    hide Sorted;
    SortedIsValid(vs);
    j :| 0 <= j < |vs| && Sorted(vs)[i] == vs[j].(orderingId := i);
  }

  lemma {:induction false} PropertySoundAgain(p: Property, key: nat)
    requires SoundProperty(p, key)
    ensures SoundProperty(ReloadedProperty(p), key)
    decreases p
  {
    hide SoundValue, ReloadedValue, Sorted;
    var vs, q := ReloadedValues(p), ReloadedProperty(p);
    SortedSize(vs);
    forall i | 0 <= i < |q.values| ensures q.values[i].subtype == q.subtype && SoundValue(q.values[i]) {
      var j := SortedComesFrom(vs, i);
      SameTypes(p, key, j);
      ValueSoundAgain(p.values[j]);
      RenumberedIsSound(vs[j], i);
    }
  }

  lemma {:induction false} OwnerSoundAgain(o: Owner)
    requires SoundOwner(o)
    ensures SoundOwner(ReloadedOwner(o))
    decreases o
  {
    hide SoundProperty, ReloadedProperty;
    forall k | k in o.properties ensures SoundProperty(ReloadedProperty(o.properties[k]), k) {
      PropertySoundAgain(o.properties[k], k);
    }
  }

  // ---------- loadable again ----------

  lemma {:induction false} PropertyLoadableAgain(p: Property)
    requires LoadableProperty(p)
    ensures LoadableProperty(ReloadedProperty(p))
    decreases p
  {
    hide LoadableValue, ReloadedValue, Sorted;
    var vs, q := ReloadedValues(p), ReloadedProperty(p);
    SortedSize(vs);
    forall i | 0 <= i < |q.values| ensures LoadableValue(q.values[i]) {
      var j := SortedComesFrom(vs, i);
      ValueLoadableAgain(p.values[j]);
      NumberIgnored(vs[j], i);
    }
  }

  lemma NumberIgnored(v: Value, i: nat)
    ensures LoadableValue(v.(orderingId := i)) <==> LoadableValue(v)
  {
    hide Loadable;
  }

  lemma {:induction false} ValueLoadableAgain(v: Value)
    requires LoadableValue(v)
    ensures LoadableValue(ReloadedValue(v))
    decreases v
  {
    hide Loadable, ReloadedOwner;
    OwnerLoadableAgain(v.meta);
  }

  lemma SizeKept(p: Property)
    ensures |ReloadedProperty(p).values| == |p.values| && ReloadedProperty(p).subtype == p.subtype
  {
    hide Sorted, ReloadedValue;
    SortedSize(ReloadedValues(p));
  }

  lemma {:induction false} OwnerLoadableAgain(o: Owner)
    requires Loadable(o)
    ensures Loadable(ReloadedOwner(o))
    decreases o
  {
    hide LoadableProperty, ReloadedProperty, EndsFilled;
    EndsFilledAgain(o);
    forall k | k in o.properties ensures LoadableProperty(ReloadedProperty(o.properties[k])) {
      PropertyLoadableAgain(o.properties[k]);
    }
    var r := ReloadedOwner(o);
    assert forall k :: k in r.properties ==> LoadableProperty(r.properties[k]);
  }

  lemma EndsFilledAgain(o: Owner)
    requires EndsFilled(o)
    ensures EndsFilled(ReloadedOwner(o))
  {
    hide ReloadedProperty;
    var r := ReloadedOwner(o);
    forall k | k in r.properties && (forall j :: j in r.properties ==> j <= k) ensures r.properties[k].values != [] {
      assert forall j :: j in o.properties ==> j in r.properties;
      SizeKept(o.properties[k]);
    }
  }

  // ---------- numbered, ordered and timeless ----------

  lemma ListSettled(p: Property, key: nat)
    requires SoundProperty(p, key)
    ensures var vs := ReloadedProperty(p).values;
      Descending(vs, ByCertainty()) && Canonical(vs) && Timeless(vs)
  {
    hide SoundValue, ReloadedValue, Sorted, StoredMembers, Certainty;
    var vs := ReloadedValues(p);
    SortedIsValid(vs);
    forall i | 0 <= i < |vs| ensures StoredMembers(Sorted(vs)[i]) == Sorted(vs)[i].members {
      var j := SortedComesFrom(vs, i);
      assert vs[j] == ReloadedValue(p.values[j]);
      StoredTwice(p.values[j]);
      MembersIgnoreNumber(vs[j], i);
    }
  }

  lemma MembersIgnoreNumber(v: Value, i: nat)
    ensures StoredMembers(v.(orderingId := i)) == StoredMembers(v)
  {
  }

  // ---------- entities ----------

  /** What a graph in memory has to offer for its entities to be saved and loaded. */
  ghost predicate Fine(e: Entity) { SoundEntity(e) && LoadableEntity(e) && Ordered(e.owner) }

  lemma TypeFine(e: Entity)
    requires SoundEntity(e) && Loadable(e.owner)
    ensures var q := ReloadedEntity(e).owner.properties[TYPE];
      && SoundProperty(q, TYPE) && LoadableProperty(q) && Descending(q.values, ByCertainty()) && Canonical(q.values) && Timeless(q.values)
      && q.subtype == TypeID && |q.values| == 1
  {
    hide SoundProperty, LoadableProperty, SoundValue, LoadableValue, ReloadedProperty, StoredMembers, Certainty;
    var p := e.owner.properties[TYPE];
    var r := ReloadedProperty(p);
    assert SoundProperty(p, TYPE) && LoadableProperty(p);
    PropertySoundAgain(p, TYPE);
    PropertyLoadableAgain(p);
    SizeKept(p);
    ListSettled(p, TYPE);
    LastOf(r, TYPE);
  }

  lemma LastOf(r: Property, key: nat)
    requires SoundProperty(r, key) && LoadableProperty(r) && Timeless(r.values) && r.values != []
    ensures var v := r.values[|r.values| - 1].(orderingId := 0); var q := Property(ConcreteSingle, key, r.subtype, [v]);
      SoundProperty(q, key) && LoadableProperty(q) && Timeless(q.values)
  {
    hide SoundValue, LoadableValue, StoredMembers;
    var v := r.values[|r.values| - 1];
    RenumberedIsSound(v, 0);
    NumberIgnored(v, 0);
    MembersIgnoreNumber(v, 0);
  }

  lemma RestFine(e: Entity, k: nat)
    requires SoundEntity(e) && Loadable(e.owner) && k in e.owner.properties
    ensures var q := ReloadedProperty(e.owner.properties[k]);
      && SoundProperty(q, k) && LoadableProperty(q) && Descending(q.values, ByCertainty()) && Canonical(q.values) && Timeless(q.values)
      && q.subtype == e.owner.properties[k].subtype && |q.values| == |e.owner.properties[k].values|
  {
    hide SoundValue, LoadableValue, Sorted, Timeless, Canonical, Descending, SoundProperty;
    assert SoundProperty(e.owner.properties[k], k) && LoadableProperty(e.owner.properties[k]);
    PropertySoundAgain(e.owner.properties[k], k);
    PropertyLoadableAgain(e.owner.properties[k]);
    SizeKept(e.owner.properties[k]);
    ListSettled(e.owner.properties[k], k);
  }

  /** A reloaded entity can be saved and loaded again, and will not change then. */
  lemma EntityFineAgain(e: Entity)
    requires Fine(e)
    ensures Fine(ReloadedEntity(e)) && Unchanging(ReloadedEntity(e))
  {
    hide ReloadedEntity, ReloadedProperty, SoundProperty, LoadableProperty, Descending, Canonical, Timeless;
    SingleType(e);
    ReloadedMembers(e);
    TypeFine(e);
    var r := ReloadedEntity(e).owner.properties;
    forall k | k in r
      ensures SoundProperty(r[k], k) && LoadableProperty(r[k]) && Descending(r[k].values, ByCertainty()) && Canonical(r[k].values) && Timeless(r[k].values)
      ensures k != TYPE ==> r[k].subtype == e.owner.properties[k].subtype && |r[k].values| == |e.owner.properties[k].values|
    {
      RestFine(e, k);
    }
    forall k | k in r ensures TypeTaken(r[k], true) {
      KeyOfSound(r[k], k);
      if k != TYPE { TypeStays(e.owner.properties[k], true); }
    }
  }

  // ---------- graphs ----------

  /** Ids are given out in turn, so the next one is not in use. */
  ghost predicate Numbered(t: NameTable.Names) { forall i :: i in t.byId ==> i < t.next }

  ghost predicate FineTables(g: Graph) { SoundTables(g) && Numbered(g.typeNames) && Numbered(g.propertyNames) }

  ghost predicate FineGraph(g: Graph) {
    && FineTables(g)
    && forall h :: h in g.entities ==> Fine(g.entities[h]) && g.entities[h].handle == h != 0
  }

  lemma FineParts(g: Graph)
    requires FineGraph(g)
    ensures SoundEntities(g) && SoundTables(g) && LoadableGraph(g) && OrderedGraph(g)
  {
    hide SoundEntity, Loadable, Ordered, SoundTables;
  }

  lemma ReleasedIdsIgnored(t: NameTable.Names)
    requires NameTable.Consistent(t) && NameTable.NamesFit(t)
    ensures NameTable.Consistent(t.(pool := [])) && NameTable.NamesFit(t.(pool := []))
  {
  }

  lemma TablesFineAgain(g: Graph)
    requires SoundEntities(g) && FineTables(g)
    ensures FineTables(ReloadedGraph(g))
  {
    hide NameTable.Consistent, NameTable.NamesFit, SoundEntities, ReloadedEntities, PrimitiveMap.CodesFit, LinkTable.HandlesFit;
    ReleasedIdsIgnored(g.typeNames);
    ReleasedIdsIgnored(g.propertyNames);
  }

  /** A reloaded graph is fine, and keeps everything through further reloads. */
  lemma ReloadSettles(g: Graph)
    requires FineGraph(g)
    ensures SoundEntities(g) && FineGraph(ReloadedGraph(g)) && Keeps(ReloadedGraph(g))
    ensures SoundEntities(ReloadedGraph(g))
    ensures GraphEqual(ReloadedGraph(g), ReloadedGraph(ReloadedGraph(g)))
  {
    hide Fine, Unchanging, ReloadedEntity, FineTables, GraphEqual, SoundEntity;
    FineParts(g);
    assert FineTables(g);
    TablesFineAgain(g);
    forall h | h in g.entities
      ensures Fine(ReloadedEntity(g.entities[h])) && Unchanging(ReloadedEntity(g.entities[h])) && ReloadedEntity(g.entities[h]).handle == h
    {
      FineEntity(g, h);
      EntityFineAgain(g.entities[h]);
      ReloadedMembers(g.entities[h]);
    }
    FineParts(ReloadedGraph(g));
    GraphRoundTripIff(ReloadedGraph(g));
  }

  lemma FineEntity(g: Graph, h: nat)
    requires FineGraph(g) && h in g.entities
    ensures Fine(g.entities[h]) && SoundEntity(g.entities[h]) && g.entities[h].handle == h
  {
    hide SoundEntity, Loadable, Ordered, SoundTables;
  }

  // ---------- agreement carries over ----------

  lemma EqualListsSettle(p: Property, q: Property)
    requires PropertyEqual(p, q) && Canonical(q.values) && Timeless(q.values)
    ensures Canonical(p.values) && Timeless(p.values)
  {
    hide Certainty;
    forall i | 0 <= i < |p.values| ensures p.values[i].orderingId == i && StoredMembers(p.values[i]) == p.values[i].members {
      assert ValueEqual(p.values[i], q.values[i]);
    }
  }

  lemma EqualEntitySettles(a: Entity, b: Entity)
    requires EntityEqual(a, b) && Unchanging(b)
    ensures Unchanging(a)
  {
    hide PropertyEqual, Canonical, Timeless;
    SameKeys(a.owner.properties.Keys, b.owner.properties.Keys);
    forall k | k in a.owner.properties ensures Canonical(a.owner.properties[k].values) && Timeless(a.owner.properties[k].values) {
      EqualListsSettle(a.owner.properties[k], b.owner.properties[k]);
    }
    if TYPE in a.owner.properties { SameCount(a.owner.properties[TYPE], b.owner.properties[TYPE]); }
  }

  lemma SameKeys(s: set<nat>, t: set<nat>)
    requires s <= t && |s| == |t|
    ensures s == t
  {
    if x :| x in t && x !in s { Paths.SmallerSet(s, t, x); }
  }

  /** Whatever equals a graph that keeps everything keeps everything itself. */
  lemma EqualGraphKeeps(a: Graph, b: Graph)
    requires GraphEqual(a, b) && Keeps(b)
    ensures Keeps(a) && a.entities.Keys == b.entities.Keys && a.links == b.links
    ensures forall h :: h in a.entities ==> a.entities[h].status == b.entities[h].status
  {
    hide EntityEqual, Unchanging, Ascending;
    SameKeys(a.entities.Keys, b.entities.Keys);
    forall h | h in a.entities ensures Unchanging(a.entities[h]) && a.entities[h].status == b.entities[h].status {
      EqualEntitySettles(a.entities[h], b.entities[h]);
      SameStatus(a.entities[h], b.entities[h]);
    }
  }

  lemma SameStatus(a: Entity, b: Entity)
    requires EntityEqual(a, b)
    ensures a.status == b.status
  {
  }
}
