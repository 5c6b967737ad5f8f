/** What a save and a load keep of values, to any depth of their metadata. */
module DeepReload {
  import opened Entities
  import opened Properties
  import opened Records
  import opened Reload
  import opened Sorting

  /** The same value: its type, its members unless it is a time stamp, its certainty,
      and its metadata. */
  ghost predicate AlikeValue(v: Value, w: Value)
    decreases v
  {
    && w.subtype == v.subtype && (v.subtype != TimeStamp ==> w.members == v.members) && Certainty(w) == Certainty(v)
    && AlikeOwner(v.meta, w.meta)
  }

  ghost predicate AlikeProperty(p: Property, q: Property)
    decreases p
  {
    && q.key == p.key && q.subtype == p.subtype && |q.values| == |p.values|
    && forall i :: 0 <= i < |p.values| ==> AlikeValue(p.values[i], q.values[i])
  }

  /** The same lock and the same lists of the same values in the same order. */
  ghost predicate AlikeOwner(o: Owner, r: Owner)
    decreases o
  {
    && r.locked == o.locked && r.properties.Keys == o.properties.Keys
    && forall k :: k in o.properties ==> AlikeProperty(o.properties[k], r.properties[k])
  }

  /** Every list is sorted by certainty, within metadata too. */
  ghost predicate DeeplyOrdered(o: Owner)
    decreases o
  {
    forall k :: k in o.properties ==> DeeplyOrderedList(o.properties[k])
  }

  ghost predicate DeeplyOrderedList(p: Property)
    decreases p
  {
    Descending(p.values, ByCertainty()) && forall i :: 0 <= i < |p.values| ==> DeeplyOrdered(p.values[i].meta)
  }

  lemma {:induction false} ValueKept(v: Value)
    requires SoundValue(v) && Stored(v.subtype) && Loadable(v.meta) && DeeplyOrdered(v.meta)
    ensures AlikeValue(v, ReloadedValue(v))
    decreases v
  {
    CertaintyKept(v);
    hide Ranked, Certainty;
    OwnerKept(v.meta);
  }

  lemma {:induction false} ListKept(p: Property, key: nat)
    requires SoundProperty(p, key) && LoadableProperty(p) && DeeplyOrderedList(p)
    ensures AlikeProperty(p, ReloadedProperty(p))
    decreases p
  {
    OrderKept(p, key);
    KeyOfSound(p, key);
    hide SoundValue, Descending, Certainty, ReloadedValue, AlikeValue;
    var r, vs := ReloadedProperty(p).values, ReloadedValues(p);
    forall i | 0 <= i < |p.values| ensures AlikeValue(p.values[i], r[i]) {
      ElementIsLoadable(p, i);
      ValueKept(p.values[i]);
      assert vs[i] == ReloadedValue(p.values[i]) && r[i] == vs[i].(orderingId := i);
      NumberIsNotCompared(p.values[i], vs[i], i);
    }
  }

  lemma ElementIsLoadable(p: Property, i: nat)
    requires LoadableProperty(p) && i < |p.values|
    ensures Stored(p.values[i].subtype) && Loadable(p.values[i].meta)
  {
    assert LoadableValue(p.values[i]);
  }

  lemma NumberIsNotCompared(v: Value, w: Value, i: nat)
    requires AlikeValue(v, w)
    ensures AlikeValue(v, w.(orderingId := i))
  {
    RecertainNumbered(w, i);
  }

  /** A table that the reader takes comes back with everything in it but the moments
      of time stamps: locks, types, members, certainties and order, at every depth. */
  lemma {:induction false} OwnerKept(o: Owner)
    requires SoundOwner(o) && Loadable(o) && DeeplyOrdered(o)
    ensures AlikeOwner(o, ReloadedOwner(o))
    decreases o
  {
    hide SoundProperty, LoadableProperty, DeeplyOrderedList, AlikeProperty, ReloadedProperty;
    forall k | k in o.properties ensures AlikeProperty(o.properties[k], ReloadedOwner(o).properties[k]) {
      ListKept(o.properties[k], k);
    }
  }

  /** So does an entity with one type. */
  lemma EntityKept(e: Entity)
    requires SoundEntity(e) && LoadableEntity(e) && DeeplyOrdered(e.owner) && |e.owner.properties[TYPE].values| == 1
    ensures var r := ReloadedEntity(e); AlikeOwner(e.owner, r.owner) && r.handle == e.handle && r.status == e.status
  {
    SingleType(e);
    ReloadedLock(e);
    var o, r := e.owner, ReloadedEntity(e).owner;
    hide SoundProperty, LoadableProperty, DeeplyOrderedList, AlikeProperty, ReloadedProperty;
    forall k | k in o.properties ensures AlikeProperty(o.properties[k], r.properties[k]) {
      ListKept(o.properties[k], k);
      KindNotCompared(o.properties[k], ReloadedProperty(o.properties[k]), ConcreteSingle);
    }
  }

  lemma KindNotCompared(p: Property, q: Property, kind: Kind)
    requires AlikeProperty(p, q)
    ensures AlikeProperty(p, q.(kind := kind))
  {
    hide AlikeValue;
  }
}
