/** What the file keeps of a hierarchy: parents, children, locks, and the shape that
    further inserts start from. */
module ReloadedTree {
  import opened Entities
  import opened GraphFile
  import opened Hierarchy
  import opened Merging
  import opened Properties
  import opened Records
  import opened Reload
  import opened Sorting
  import opened Stability

  lemma RefReloads(v: Value)
    requires SoundValue(v) && IsRef(v.subtype)
    ensures RefOf(ReloadedValue(v)) == RefOf(v) && ReloadedValue(v).subtype == v.subtype
  {
    hide SoundOwner, ReloadedOwner;
  }

  /** A list of references comes back in order, with everything it refers to. */
  lemma RefListReloads(p: Property, key: nat, kind: Kind)
    requires SoundProperty(p, key) && RefList(p, kind)
    ensures var q := ReloadedProperty(p); RefList(q, kind) && q.kind == Fuzzy && SameRefsInOrder(p, q)
  {
    ValuesReload(p, key);
    hide SoundValue, Certainty, ReloadedValues, StableSort;
    var q := ReloadedProperty(p);
    SortedIsValid(ReloadedValues(p));
    assert Canonical(q.values) && Descending(q.values, ByCertainty());
  }

  ghost predicate SameRefsInOrder(p: Property, q: Property) {
    && |q.values| == |p.values|
    && forall i :: 0 <= i < |p.values| ==> RefOf(q.values[i]) == RefOf(p.values[i]) && Certainty(q.values[i]) == Certainty(p.values[i])
  }

  lemma ValuesReload(p: Property, key: nat)
    requires SoundProperty(p, key) && IsRef(p.subtype) && Descending(p.values, ByCertainty())
    ensures SameRefsInOrder(p, ReloadedProperty(p))
    ensures forall i :: 0 <= i < |p.values| ==> ReloadedProperty(p).values[i].subtype == p.subtype
  {
    OrderKept(p, key);
    hide SoundValue, ReloadedValue, Certainty, StableSort, Descending;
    var q, vs := ReloadedProperty(p), ReloadedValues(p);
    forall i | 0 <= i < |p.values|
      ensures q.values[i].subtype == p.subtype && RefOf(q.values[i]) == RefOf(p.values[i]) && Certainty(q.values[i]) == Certainty(p.values[i])
    {
      RefReloads(p.values[i]);
      assert q.values[i] == vs[i].(orderingId := i);
      RecertainNumbered(vs[i], i);
    }
  }

  /** The two lists of an entity, before and after. */
  lemma OwnerReloads(e: Entity)
    requires Fine(e) && OwnerShaped(e.owner)
    ensures var o, r := e.owner, ReloadedEntity(e).owner;
      && OwnerShaped(r) && r.locked == o.locked && r.properties.Keys == o.properties.Keys
      && (SUBSET_OF in o.properties ==> RefOf(r.properties[SUBSET_OF].values[0]) == RefOf(o.properties[SUBSET_OF].values[0]))
      && (SUPERSET_OF in o.properties ==> Refs(r.properties[SUPERSET_OF].values) == Refs(o.properties[SUPERSET_OF].values))
  {
    hide ReloadedEntity, ReloadedProperty, RefList, Certainty, SoundProperty, Loadable, Ordered;
    SingleType(e);
    ReloadedLock(e);
    var o, r := e.owner, ReloadedEntity(e).owner;
    if SUBSET_OF in o.properties { RefListReloads(o.properties[SUBSET_OF], SUBSET_OF, ConcreteSingle); }
    if SUPERSET_OF in o.properties {
      RefListReloads(o.properties[SUPERSET_OF], SUPERSET_OF, ConcreteMulti);
      SameRefs(r.properties[SUPERSET_OF].values, o.properties[SUPERSET_OF].values);
    }
  }

  ghost predicate SameTree(s: Store, r: Store) {
    && r.Keys == s.Keys
    && forall h :: h in s ==> OwnerShaped(r[h]) && Children(r, h) == Children(s, h) && Parents(r, h) == Parents(s, h) && r[h].locked == s[h].locked
  }

  lemma SameTreeIsMirrored(s: Store, r: Store)
    requires SameTree(s, r) && Mirrored(s)
    ensures Mirrored(r) && Shaped(r)
  {
    hide Children, Parents, OwnerShaped;
  }

  /** Saving and loading keeps the hierarchy and everything that the theorems about
      inserts ask of it. */
  lemma ReloadKeepsTree(g: Graph)
    requires FineGraph(g) && Shaped(OwnersOf(g)) && Mirrored(OwnersOf(g))
    ensures SoundEntities(g) && SameTree(OwnersOf(g), OwnersOf(ReloadedGraph(g)))
    ensures Shaped(OwnersOf(ReloadedGraph(g))) && Mirrored(OwnersOf(ReloadedGraph(g)))
  {
    hide Fine, OwnerShaped, ReloadedEntity, Children, Parents, FineTables, SoundEntities, Mirrored;
    FineParts(g);
    var s, r := OwnersOf(g), OwnersOf(ReloadedGraph(g));
    forall h | h in s
      ensures OwnerShaped(r[h]) && Children(r, h) == Children(s, h) && Parents(r, h) == Parents(s, h) && r[h].locked == s[h].locked
    {
      FineEntity(g, h);
      assert s[h] == g.entities[h].owner && r[h] == ReloadedEntity(g.entities[h]).owner;
      EntityReloads(g.entities[h], s, r, h);
    }
    SameTreeIsMirrored(s, r);
  }

  lemma EntityReloads(e: Entity, s: Store, r: Store, h: Handle)
    requires Fine(e) && OwnerShaped(e.owner) && h in s && h in r && s[h] == e.owner && r[h] == ReloadedEntity(e).owner
    ensures OwnerShaped(r[h]) && Children(r, h) == Children(s, h) && Parents(r, h) == Parents(s, h) && r[h].locked == s[h].locked
  {
    OwnerReloads(e);
    hide ReloadedEntity, SoundEntity, Loadable, Ordered, Refs, Certainty, ValidProperty;
  }
}
