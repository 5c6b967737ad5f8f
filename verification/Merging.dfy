/** MERGE: the properties of the entity with the higher handle are inserted into the
    one with the lower handle, and the former is erased. */
module Merging {
  import Bytes
  import opened Entities
  import opened GraphFile
  import opened Hierarchy
  import MemberCodec
  import opened Properties
  import opened Records
  import opened Reload
  import opened Sorting
  import Stability
  import LinkGraph
  import Persistence

  function OwnersOf(g: Graph): Store { map h | h in g.entities :: g.entities[h].owner }

  function WithOwners(g: Graph, s: Store): Graph {
    g.(entities := map h | h in g.entities :: if h in s then g.entities[h].(owner := s[h]) else g.entities[h])
  }

  /** TopOfNothing: the top of an empty list is asked for. */
  datatype Absorption = Merged(s: Store) | Aborted(s: Store) | TopOfNothing

  function AbsorbLocal(s: Store, h: Handle, p: Property): (r: Absorption)
    requires h in s
    ensures !r.TopOfNothing? && r.s.Keys == s.Keys
  {
    match InsertProperty(s[h], p)
    case Threw => Aborted(s)
    case Done(o) => Merged(s[h := o])
  }

  /** Entity::insertProperty of a whole property: only its top value is mirrored. */
  function Absorb(s: Store, h: Handle, p: Property): (r: Absorption)
    requires h in s
    ensures (r.TopOfNothing? ==> p.values == []) && (!r.TopOfNothing? ==> r.s.Keys == s.Keys)
  {
    if p.key != SUBSET_OF && p.key != SUPERSET_OF then AbsorbLocal(s, h, p)
    else if p.subtype != EntityRef then Aborted(s)
    else if p.values == [] then TopOfNothing
    else if RefOf(p.values[0]) !in s then Aborted(s)
    else
      var top := p.values[0];
      var mirrored := InsertLocal(s, RefOf(top), OtherKey(p.key), MakeRef(h, Certainty(top)), KindOf(OtherKey(p.key)));
      if mirrored.threw then Aborted(mirrored.store) else AbsorbLocal(mirrored.store, h, p)
  }

  /** The loop over the loser's properties; locked ones are skipped. */
  function AbsorbAll(s: Store, h: Handle, ps: seq<Property>): (r: Absorption)
    requires h in s
    ensures !r.TopOfNothing? ==> r.s.Keys == s.Keys
  {
    if ps == [] then Merged(s)
    else match AbsorbAll(s, h, ps[..|ps| - 1])
      case Merged(s') =>
        if ps[|ps| - 1].kind == Locked then Merged(s') else Absorb(s', h, ps[|ps| - 1])
      case other => other
  }

  /** The properties of an owner by ascending key. */
  ghost function Listed(o: Owner): (ps: seq<Property>)
    ensures |ps| == |o.properties|
    ensures forall i :: 0 <= i < |ps| ==> KeysOf(o)[i] in o.properties && ps[i] == o.properties[KeysOf(o)[i]]
  {
    seq(|o.properties|, i requires 0 <= i < |o.properties| => assert KeysOf(o)[i] in KeysOf(o); o.properties[KeysOf(o)[i]])
  }

  function Lower(a: Handle, b: Handle): Handle { if a <= b then a else b }

  function Higher(a: Handle, b: Handle): Handle { if a <= b then b else a }

  function TypeOf(e: Entity): seq<nat>
    requires TYPE in e.owner.properties && e.owner.properties[TYPE].values != []
  {
    e.owner.properties[TYPE].values[0].members.numbers
  }

  predicate Typed(e: Entity) { TYPE in e.owner.properties && e.owner.properties[TYPE].values != [] }

  predicate MayMerge(g: Graph, a: Handle, b: Handle) {
    Persistence.Live(g, a, b) && Typed(g.entities[a]) && Typed(g.entities[b]) && TypeOf(g.entities[a]) == TypeOf(g.entities[b])
  }

  ghost function Absorbed(g: Graph, a: Handle, b: Handle): Absorption
    requires Persistence.Live(g, a, b)
  {
    AbsorbAll(OwnersOf(g), Lower(a, b), Listed(g.entities[Higher(a, b)].owner))
  }

  /** The merge as a change of the graph. */
  ghost function MergeCall(g: Graph, a: Handle, b: Handle): Persistence.Call {
    if !MayMerge(g, a, b) then Persistence.Change(g, true)
    else match Absorbed(g, a, b)
      case Aborted(s) => Persistence.Change(WithOwners(g, s), true)
      case Merged(s) => Persistence.Change(Without(WithOwners(g, s), Higher(a, b)), false)
      // Only where a relation without values has been left behind.
      case TopOfNothing => Persistence.Change(g, true)
  }

  function Without(g: Graph, h: Handle): Graph { g.(entities := g.entities - {h}) }

  // ---------- what a merge leaves ----------

  /** Exactly the loser is gone; merging an entity with itself deletes it. */
  lemma MergeErasesLoser(g: Graph, a: Handle, b: Handle)
    requires MayMerge(g, a, b) && Absorbed(g, a, b).Merged?
    ensures MergeCall(g, a, b).after.entities.Keys == g.entities.Keys - {Higher(a, b)}
    ensures a == b ==> a !in MergeCall(g, a, b).after.entities
    ensures MergeCall(g, a, b).after.links == g.links
  {
    hide AbsorbAll, Listed;
  }

  /** The link table is not touched, so it stays in agreement with the entities
      exactly when the loser was not linked. */
  lemma MergeKeepsLinksIff(g: Graph, a: Handle, b: Handle)
    requires MayMerge(g, a, b) && Absorbed(g, a, b).Merged? && LinkGraph.Valid(Persistence.LinkStateOf(g))
    ensures LinkGraph.Valid(Persistence.LinkStateOf(MergeCall(g, a, b).after)) <==> Higher(a, b) !in g.links
  {
    hide AbsorbAll, Listed, LinkGraph.ProperStatus;
    var s, s' := Persistence.LinkStateOf(g), Persistence.LinkStateOf(MergeCall(g, a, b).after);
    MergeErasesLoser(g, a, b);
    assert s'.links == s.links;
    forall h | h in s'.status ensures h in s.status && s'.status[h] == s.status[h] { }
    if Higher(a, b) !in g.links {
      assert s'.links.Keys <= s'.status.Keys;
    }
  }

  // ---------- what a merge combines ----------

  predicate Relation(k: nat) { k == SUBSET_OF || k == SUPERSET_OF }

  /** The property of key k is as it was. */
  predicate SameAt(o: Owner, o': Owner, k: nat) {
    (k in o.properties <==> k in o'.properties) && (k in o.properties ==> o'.properties[k] == o.properties[k])
  }

  /** A property of the loser as the keeper holds it afterwards. */
  function Joined(o: Owner, p: Property): Property {
    if p.key !in o.properties then p
    else match AppendEach(o.properties[p.key], p.values)
      case Done(q) => q
      case Threw => p
  }

  lemma AbsorbTouches(s: Store, h: Handle, p: Property, x: Handle, k: nat)
    requires h in s && x in s && !Relation(k) && Absorb(s, h, p).Merged?
    ensures x != h || k != p.key ==> SameAt(s[x], Absorb(s, h, p).s[x], k)
    ensures x == h && k == p.key ==> k in Absorb(s, h, p).s[h].properties && Absorb(s, h, p).s[h].properties[k] == Joined(s[h], p)
  {
    hide AppendEach, Appended, Certainty, MakeRef;
  }

  /** Over the whole loop: no entity but the keeper changes outside its relations,
      and the keeper only where the loser has an unlocked property. */
  lemma {:induction false} LoopTouches(s: Store, h: Handle, ps: seq<Property>, x: Handle, k: nat)
    requires h in s && x in s && !Relation(k) && AbsorbAll(s, h, ps).Merged?
    requires x != h || forall i :: 0 <= i < |ps| ==> ps[i].key != k || ps[i].kind == Locked
    ensures SameAt(s[x], AbsorbAll(s, h, ps).s[x], k)
  {
    hide Absorb;
    if ps != [] {
      LoopTouches(s, h, ps[..|ps| - 1], x, k);
      if ps[|ps| - 1].kind != Locked { AbsorbTouches(AbsorbAll(s, h, ps[..|ps| - 1]).s, h, ps[|ps| - 1], x, k); }
    }
  }

  lemma {:induction false} LoopJoins(s: Store, h: Handle, ps: seq<Property>, i: nat)
    requires h in s && i < |ps| && !Relation(ps[i].key) && ps[i].kind != Locked && AbsorbAll(s, h, ps).Merged?
    requires forall j :: 0 <= j < |ps| && j != i ==> ps[j].key != ps[i].key
    ensures ps[i].key in AbsorbAll(s, h, ps).s[h].properties
    ensures AbsorbAll(s, h, ps).s[h].properties[ps[i].key] == Joined(s[h], ps[i])
  {
    hide Absorb, AppendEach;
    var n := |ps| - 1;
    if i < n { LoopJoins(s, h, ps[..n], i); } else { LoopTouches(s, h, ps[..n], h, ps[i].key); }
    if ps[n].kind != Locked { AbsorbTouches(AbsorbAll(s, h, ps[..n]).s, h, ps[n], h, ps[i].key); }
  }

  /** Outside the hierarchy a merge does one thing: every unlocked property of the
      loser is appended, value by value, to the keeper's property of its key, or
      taken over; all other properties of all other entities stay. */
  lemma MergeCombines(g: Graph, a: Handle, b: Handle, x: Handle, k: nat)
    requires SoundEntities(g) && a != b && MayMerge(g, a, b) && Absorbed(g, a, b).Merged? && !Relation(k)
    requires x in g.entities && x != Higher(a, b)
    ensures x in MergeCall(g, a, b).after.entities
    ensures var keeper, loser := g.entities[x].owner, g.entities[Higher(a, b)].owner; var o := MergeCall(g, a, b).after.entities[x].owner;
      if x == Lower(a, b) && k in loser.properties && loser.properties[k].kind != Locked
      then k in o.properties && o.properties[k] == Joined(keeper, loser.properties[k])
      else SameAt(keeper, o, k)
  {
    hide AbsorbAll, Absorbed, MergeCall, Joined, SoundEntities, Listed, MayMerge, SameAt;
    MergedOwner(g, a, b, x);
    ListedKeys(g, Higher(a, b));
    LoopCombines(OwnersOf(g), Lower(a, b), g.entities[Higher(a, b)].owner, x, k);
  }

  lemma MergedOwner(g: Graph, a: Handle, b: Handle, x: Handle)
    requires MayMerge(g, a, b) && Absorbed(g, a, b).Merged? && x in g.entities && x != Higher(a, b)
    ensures Lower(a, b) in g.entities && Higher(a, b) in g.entities && x in MergeCall(g, a, b).after.entities
    ensures Absorbed(g, a, b) == AbsorbAll(OwnersOf(g), Lower(a, b), Listed(g.entities[Higher(a, b)].owner))
    ensures MergeCall(g, a, b).after.entities[x].owner == Absorbed(g, a, b).s[x] && OwnersOf(g)[x] == g.entities[x].owner
  {
    hide AbsorbAll, Listed, Typed, TypeOf;
  }

  lemma LoopCombines(s: Store, h: Handle, loser: Owner, x: Handle, k: nat)
    requires h in s && x in s && !Relation(k) && AbsorbAll(s, h, Listed(loser)).Merged? && KeysMatch(loser)
    ensures var o := AbsorbAll(s, h, Listed(loser)).s[x];
      if x == h && k in loser.properties && loser.properties[k].kind != Locked
      then k in o.properties && o.properties[k] == Joined(s[x], loser.properties[k])
      else SameAt(s[x], o, k)
  {
    hide AbsorbAll, Joined, SameAt;
    var ps := Listed(loser);
    if x == h && k in loser.properties && loser.properties[k].kind != Locked {
      var i :| 0 <= i < |ps| && KeysOf(loser)[i] == k;
      LoopJoins(s, x, ps, i);
    } else {
      LoopTouches(s, h, ps, x, k);
    }
  }

  /** Every property carries the key it is filed under. */
  ghost predicate KeysMatch(o: Owner) { forall k :: k in o.properties ==> o.properties[k].key == k }

  lemma ListedKeys(g: Graph, h: Handle)
    requires SoundEntities(g) && h in g.entities
    ensures KeysMatch(g.entities[h].owner)
  {
    hide SoundProperty;
    var o := g.entities[h].owner;
    assert SoundEntity(g.entities[h]);
    forall k | k in o.properties ensures o.properties[k].key == k { KeyOfSound(o.properties[k], k); }
  }

  // ---------- the keeper's properties ----------

  /** A value list survives a save and a load: numbered, and free of time stamps. */
  ghost predicate ListKept(p: Property) { Canonical(p.values) && Timeless(p.values) }

  ghost predicate OwnerKept(o: Owner) {
    && (forall k :: k in o.properties ==> ListKept(o.properties[k]))
    && TYPE in o.properties && o.properties[TYPE].kind == ConcreteSingle && |o.properties[TYPE].values| == 1
  }

  lemma SortedTimeless(vs: seq<Value>)
    requires Timeless(vs)
    ensures Timeless(Sorted(vs)) && Canonical(Sorted(vs))
  {
    hide Sorted, StoredMembers;
    SortedIsValid(vs);
    forall i | 0 <= i < |vs| ensures StoredMembers(Sorted(vs)[i]) == Sorted(vs)[i].members {
      var j :| 0 <= j < |vs| && Sorted(vs)[i] == vs[j].(orderingId := i);
      NumberNotStored(vs[j], i);
    }
  }

  lemma NumberNotStored(v: Value, i: nat)
    ensures StoredMembers(v.(orderingId := i)) == StoredMembers(v)
  {
  }

  lemma AppendedKept(p: Property, v: Value)
    requires ListKept(p) && Timeless([v]) && Appended(p, v).Done?
    ensures var q := Appended(p, v).value;
      ListKept(q) && q.kind == p.kind && (p.kind == ConcreteSingle ==> |q.values| == 1)
  {
    hide Sorted, StoredMembers, Certainty;
    assert [v][0] == v && StoredMembers(v) == v.members;
    SortedTimeless(p.values + [v]);
    NumberNotStored(v, 0);
  }

  lemma {:induction false} AppendEachKept(p: Property, vs: seq<Value>)
    requires ListKept(p) && Timeless(vs) && AppendEach(p, vs).Done?
    ensures var q := AppendEach(p, vs).value;
      ListKept(q) && q.kind == p.kind && (p.kind == ConcreteSingle && |p.values| == 1 ==> |q.values| == 1)
  {
    hide Appended, StoredMembers, ListKept;
    if vs != [] {
      AppendEachKept(p, vs[..|vs| - 1]);
      AppendedKept(AppendEach(p, vs[..|vs| - 1]).value, vs[|vs| - 1]);
    }
  }

  lemma InsertPropertyKept(o: Owner, p: Property)
    requires OwnerKept(o) && ListKept(p) && InsertProperty(o, p).Done?
    ensures OwnerKept(InsertProperty(o, p).value)
  {
    hide AppendEach, Canonical, StoredMembers;
    if p.key in o.properties { AppendEachKept(o.properties[p.key], p.values); }
  }

  lemma InsertValueKept(o: Owner, key: nat, v: Value, kind: Kind)
    requires OwnerKept(o) && Timeless([v]) && InsertValue(o, key, v, kind).Done?
    ensures OwnerKept(InsertValue(o, key, v, kind).value)
  {
    hide Appended, StoredMembers;
    var p := if key in o.properties then o.properties[key]
             else Property(if kind == Locked then ConcreteSingle else kind, key, v.subtype, []);
    AppendedKept(p, v);
  }

  ghost predicate StoreKept(s: Store) { forall h :: h in s ==> OwnerKept(s[h]) }

  lemma AbsorbKept(s: Store, h: Handle, p: Property)
    requires StoreKept(s) && h in s && ListKept(p) && Absorb(s, h, p).Merged?
    ensures StoreKept(Absorb(s, h, p).s)
  {
    hide InsertProperty, InsertValue, OwnerKept, ListKept, Certainty;
    if p.key == SUBSET_OF || p.key == SUPERSET_OF {
      var top := p.values[0];
      var v := MakeRef(h, Certainty(top));
      var mirrored := InsertLocal(s, RefOf(top), OtherKey(p.key), v, KindOf(OtherKey(p.key)));
      InsertValueKept(s[RefOf(top)], OtherKey(p.key), v, KindOf(OtherKey(p.key)));
      assert StoreKept(mirrored.store);
      InsertPropertyKept(mirrored.store[h], p);
    } else {
      InsertPropertyKept(s[h], p);
    }
  }

  lemma {:induction false} AbsorbAllKept(s: Store, h: Handle, ps: seq<Property>)
    requires StoreKept(s) && h in s && (forall i :: 0 <= i < |ps| ==> ListKept(ps[i])) && AbsorbAll(s, h, ps).Merged?
    ensures StoreKept(AbsorbAll(s, h, ps).s)
  {
    hide Absorb, ListKept, StoreKept;
    if ps != [] {
      AbsorbAllKept(s, h, ps[..|ps| - 1]);
      if ps[|ps| - 1].kind != Locked { AbsorbKept(AbsorbAll(s, h, ps[..|ps| - 1]).s, h, ps[|ps| - 1]); }
    }
  }

  /** Every entity's type list is single-valued, as the constructor and the reader
      leave it. */
  ghost predicate SinglyTyped(g: Graph) {
    forall h :: h in g.entities ==> TYPE in g.entities[h].owner.properties && g.entities[h].owner.properties[TYPE].kind == ConcreteSingle
  }

  lemma KeptIffUnchanging(e: Entity)
    ensures OwnerKept(e.owner) <==>
      Unchanging(e) && TYPE in e.owner.properties && e.owner.properties[TYPE].kind == ConcreteSingle
  {
    hide Canonical, Timeless;
  }

  /** A merge keeps everything that the two entities kept: with SavedInStepIff, the
      file it is saved to agrees with memory. */
  lemma MergeKeeps(g: Graph, a: Handle, b: Handle)
    requires MayMerge(g, a, b) && Absorbed(g, a, b).Merged? && Keeps(g) && SinglyTyped(g)
    ensures Keeps(MergeCall(g, a, b).after) && SinglyTyped(MergeCall(g, a, b).after)
  {
    hide AbsorbAll, OwnerKept, Unchanging;
    var s, ps := OwnersOf(g), Listed(g.entities[Higher(a, b)].owner);
    forall h | h in s ensures OwnerKept(s[h]) { KeptIffUnchanging(g.entities[h]); }
    KeptIffUnchanging(g.entities[Higher(a, b)]);
    forall i | 0 <= i < |ps| ensures ListKept(ps[i]) { KeptList(g.entities[Higher(a, b)].owner, KeysOf(g.entities[Higher(a, b)].owner)[i]); }
    AbsorbAllKept(s, Lower(a, b), ps);
    var after := MergeCall(g, a, b).after;
    forall h | h in after.entities
      ensures Unchanging(after.entities[h])
      ensures TYPE in after.entities[h].owner.properties && after.entities[h].owner.properties[TYPE].kind == ConcreteSingle
    {
      KeptIffUnchanging(after.entities[h]);
    }
  }

  lemma KeptList(o: Owner, k: nat)
    requires OwnerKept(o) && k in o.properties
    ensures ListKept(o.properties[k])
  {
    hide ListKept;
  }

  // ---------- a merge leaves a graph that can be saved ----------

  /** A sound value, whatever its number. */
  ghost predicate LooseValue(v: Value) {
    Stored(v.subtype) && Ranked(v) && MemberCodec.Fits(ShapeOf(v.subtype), StoredMembers(v)) && SoundOwner(v.meta) && LoadableValue(v)
  }

  ghost predicate LooseProperty(p: Property, key: nat) {
    && p.key == key < 0x1_0000_0000 && Stored(p.subtype)
    && forall i :: 0 <= i < |p.values| ==> p.values[i].subtype == p.subtype && LooseValue(p.values[i])
  }

  /** Every number fits its field if the list is not too long. */
  ghost predicate SmallIds(values: seq<Value>) {
    Canonical(values) || forall i :: 0 <= i < |values| ==> values[i].orderingId < 0x1_0000_0000
  }

  ghost predicate LooseAt(p: Property, key: nat) {
    && LooseProperty(p, key) && p.values != [] && Descending(p.values, ByCertainty()) && SmallIds(p.values)
    && (key == TYPE ==> p.subtype == TypeID) && (Relation(key) ==> p.subtype == EntityRef)
  }

  ghost predicate LooseOwner(o: Owner) {
    TYPE in o.properties && forall k :: k in o.properties ==> LooseAt(o.properties[k], k)
  }

  lemma LooseNumbered(v: Value, i: nat)
    ensures LooseValue(v.(orderingId := i)) <==> LooseValue(v)
  {
    hide SoundOwner, Loadable;
  }

  lemma AppendedLoose(p: Property, key: nat, v: Value)
    requires LooseProperty(p, key) && LooseValue(v) && Appended(p, v).Done?
    ensures var q := Appended(p, v).value;
      LooseProperty(q, key) && q.values != [] && Descending(q.values, ByCertainty()) && Canonical(q.values) && q.subtype == p.subtype
  {
    hide Sorted, LooseValue, Certainty;
    var vs := p.values + [v];
    SortedIsValid(vs);
    LooseNumbered(v, 0);
    forall i | 0 <= i < |vs| ensures Sorted(vs)[i].subtype == p.subtype && LooseValue(Sorted(vs)[i]) {
      var j := Stability.SortedComesFrom(vs, i);
      LooseNumbered(vs[j], i);
    }
  }

  lemma {:induction false} AppendEachLoose(p: Property, key: nat, vs: seq<Value>)
    requires LooseAt(p, key) && (forall i :: 0 <= i < |vs| ==> LooseValue(vs[i])) && AppendEach(p, vs).Done?
    ensures LooseAt(AppendEach(p, vs).value, key)
  {
    hide Appended, LooseValue, Descending;
    if vs != [] {
      AppendEachLoose(p, key, vs[..|vs| - 1]);
      AppendedLoose(AppendEach(p, vs[..|vs| - 1]).value, key, vs[|vs| - 1]);
    }
  }

  lemma InsertPropertyLoose(o: Owner, p: Property)
    requires LooseOwner(o) && LooseAt(p, p.key) && InsertProperty(o, p).Done?
    ensures LooseOwner(InsertProperty(o, p).value)
  {
    hide AppendEach, LooseValue, Descending;
    if p.key in o.properties { AppendEachLoose(o.properties[p.key], p.key, p.values); }
  }

  lemma InsertValueLoose(o: Owner, key: nat, v: Value, kind: Kind)
    requires LooseOwner(o) && key < 0x1_0000_0000 && (Relation(key) ==> v.subtype == EntityRef) && LooseValue(v)
    requires InsertValue(o, key, v, kind).Done?
    ensures LooseOwner(InsertValue(o, key, v, kind).value)
  {
    LooseIsStored(v);
    hide Appended, LooseValue, Descending;
    var p := if key in o.properties then o.properties[key]
             else Property(if kind == Locked then ConcreteSingle else kind, key, v.subtype, []);
    AppendedLoose(p, key, v);
  }

  lemma LooseIsStored(v: Value)
    requires LooseValue(v)
    ensures Stored(v.subtype)
  {
    hide SoundOwner, Loadable;
  }

  lemma RecordIsLoose(c: nat)
    requires c <= 100
    ensures SoundValue(ConfidenceRecord(c)) && LoadableValue(ConfidenceRecord(c))
  {
    Bytes.Widths();
    hide Bytes.Pow256;
    assert SoundOwner(Owner(false, map[])) && Loadable(Owner(false, map[]));
  }

  lemma RecordTableIsLoose(record: Value)
    requires SoundValue(record) && LoadableValue(record) && record.subtype == SubType.Confidence
    ensures var meta := Owner(false, map[CONFIDENCE := Property(ConcreteSingle, CONFIDENCE, SubType.Confidence, [record])]);
      SoundOwner(meta) && Loadable(meta)
  {
    hide SoundValue, LoadableValue;
    var p := Property(ConcreteSingle, CONFIDENCE, SubType.Confidence, [record]);
    assert SoundProperty(p, CONFIDENCE) && LoadableProperty(p);
  }

  lemma RefIsLoose(h: Handle, c: nat)
    requires h < Bytes.WORD_LIMIT
    ensures LooseValue(MakeRef(h, c))
  {
    hide SoundOwner, Loadable, ConfidenceRecord, Bytes.Pow256, SoundValue, LoadableValue;
    Bytes.Widths();
    var record := ConfidenceRecord(if c > 100 then 100 else c);
    RecordIsLoose(if c > 100 then 100 else c);
    RecordKind(if c > 100 then 100 else c);
    RecordTableIsLoose(record);
    assert LoadableValue(MakeRef(h, c)) by { MetaLoads(MakeRef(h, c)); }
  }

  lemma RecordKind(c: nat)
    ensures ConfidenceRecord(c).subtype == SubType.Confidence
  {
  }

  lemma MetaLoads(v: Value)
    requires Stored(v.subtype) && Loadable(v.meta)
    ensures LoadableValue(v)
  {
    hide Loadable;
  }

  ghost predicate LooseStore(s: Store) { forall h :: h in s ==> h < Bytes.WORD_LIMIT && LooseOwner(s[h]) }

  lemma AbsorbLoose(s: Store, h: Handle, p: Property)
    requires LooseStore(s) && h in s && LooseAt(p, p.key) && Absorb(s, h, p).Merged?
    ensures LooseStore(Absorb(s, h, p).s)
  {
    hide InsertProperty, InsertValue, LooseOwner, LooseProperty, LooseValue, Certainty, Descending, MakeRef;
    if p.key == SUBSET_OF || p.key == SUPERSET_OF {
      var top := p.values[0];
      var v := MakeRef(h, Certainty(top));
      var mirrored := InsertLocal(s, RefOf(top), OtherKey(p.key), v, KindOf(OtherKey(p.key)));
      RefIsLoose(h, Certainty(top));
      RefIsRef(h, Certainty(top));
      InsertValueLoose(s[RefOf(top)], OtherKey(p.key), v, KindOf(OtherKey(p.key)));
      assert LooseStore(mirrored.store);
      InsertPropertyLoose(mirrored.store[h], p);
    } else {
      InsertPropertyLoose(s[h], p);
    }
  }

  lemma RefIsRef(h: Handle, c: nat)
    ensures MakeRef(h, c).subtype == EntityRef
  {
  }

  lemma {:induction false} AbsorbAllLoose(s: Store, h: Handle, ps: seq<Property>)
    requires LooseStore(s) && h in s && (forall i :: 0 <= i < |ps| ==> LooseAt(ps[i], ps[i].key))
    ensures !AbsorbAll(s, h, ps).TopOfNothing?
    ensures AbsorbAll(s, h, ps).Merged? ==> LooseStore(AbsorbAll(s, h, ps).s)
  {
    hide AbsorbLocal, InsertLocal, LooseOwner, LooseStore, LooseProperty, Descending;
    if ps != [] {
      AbsorbAllLoose(s, h, ps[..|ps| - 1]);
      var r := AbsorbAll(s, h, ps[..|ps| - 1]);
      if r.Merged? && ps[|ps| - 1].kind != Locked && Absorb(r.s, h, ps[|ps| - 1]).Merged? { AbsorbLoose(r.s, h, ps[|ps| - 1]); }
    }
  }

  /** No property is left without values, as every call leaves it. */
  ghost predicate NoneEmpty(g: Graph) {
    forall h, k :: h in g.entities && k in g.entities[h].owner.properties ==> g.entities[h].owner.properties[k].values != []
  }

  /** No property has more values than there are ordering ids. */
  ghost predicate Counted(g: Graph) {
    forall h, k :: h in g.entities && k in g.entities[h].owner.properties ==> |g.entities[h].owner.properties[k].values| <= 0x1_0000_0000
  }

  lemma FineIsLoose(e: Entity)
    requires Stability.Fine(e) && forall k :: k in e.owner.properties ==> e.owner.properties[k].values != []
    ensures LooseOwner(e.owner)
  {
    hide LooseValue, SoundValue, Descending, LoadableValue;
    forall k | k in e.owner.properties ensures LooseAt(e.owner.properties[k], k) {
      var p := e.owner.properties[k];
      assert SoundProperty(p, k) && LoadableProperty(p) && Descending(p.values, ByCertainty());
      forall i | 0 <= i < |p.values| ensures LooseValue(p.values[i]) && p.values[i].orderingId < 0x1_0000_0000 {
        SoundIsLoose(p.values[i]);
      }
    }
  }

  lemma SoundIsLoose(v: Value)
    requires SoundValue(v) && LoadableValue(v)
    ensures LooseValue(v) && v.orderingId < 0x1_0000_0000
  {
    hide SoundOwner, Loadable;
  }

  lemma LooseIsSound(v: Value)
    requires LooseValue(v) && v.orderingId < 0x1_0000_0000
    ensures SoundValue(v) && LoadableValue(v)
  {
    hide SoundOwner, Loadable;
  }

  /** A list that is not too long is sound again. */
  lemma LooseIsFine(e: Entity)
    requires LooseOwner(e.owner) && 0 != e.handle < Bytes.WORD_LIMIT
    requires forall k :: k in e.owner.properties ==> |e.owner.properties[k].values| <= 0x1_0000_0000
    ensures Stability.Fine(e)
  {
    hide LooseValue, SoundValue, Descending, LoadableValue;
    forall k | k in e.owner.properties
      ensures SoundProperty(e.owner.properties[k], k) && LoadableProperty(e.owner.properties[k])
      ensures Descending(e.owner.properties[k].values, ByCertainty()) && LooseAt(e.owner.properties[k], k)
    {
      var p := e.owner.properties[k];
      assert LooseAt(p, k);
      forall i | 0 <= i < |p.values| ensures SoundValue(p.values[i]) && LoadableValue(p.values[i]) { LooseIsSound(p.values[i]); }
    }
    assert SoundOwner(e.owner) && Loadable(e.owner) && Ordered(e.owner);
  }

  /** What merging asks of a graph, and leaves. */
  ghost predicate Mergeable(g: Graph) { Stability.FineGraph(g) && NoneEmpty(g) }

  lemma OwnersLoose(g: Graph)
    requires Mergeable(g)
    ensures LooseStore(OwnersOf(g))
    ensures forall h :: h in g.entities ==> g.entities[h].handle == h != 0
  {
    hide LooseOwner, Stability.FineTables, SoundOwner, Loadable, Ordered;
    forall h | h in g.entities ensures h < Bytes.WORD_LIMIT && LooseOwner(g.entities[h].owner) {
      assert Stability.Fine(g.entities[h]);
      FineIsLoose(g.entities[h]);
    }
  }

  lemma LoserLoose(g: Graph, h: Handle)
    requires Mergeable(g) && h in g.entities
    ensures forall i :: 0 <= i < |Listed(g.entities[h].owner)| ==> LooseAt(Listed(g.entities[h].owner)[i], Listed(g.entities[h].owner)[i].key)
  {
    hide LooseStore, LooseValue, Descending;
    OwnersLoose(g);
    var o := g.entities[h].owner;
    OwnerParts(OwnersOf(g), h);
    forall i | 0 <= i < |Listed(o)| ensures LooseAt(Listed(o)[i], Listed(o)[i].key) {
      assert LooseAt(o.properties[KeysOf(o)[i]], KeysOf(o)[i]);
    }
  }

  lemma OwnerParts(s: Store, h: Handle)
    requires LooseStore(s) && h in s
    ensures LooseOwner(s[h]) && h < Bytes.WORD_LIMIT
  {
    hide LooseOwner;
  }

  /** A merge never asks for the top of an empty list, and what it leaves can be
      saved and merged again. */
  lemma MergeKeepsMergeable(g: Graph, a: Handle, b: Handle)
    requires Mergeable(g) && MayMerge(g, a, b)
    ensures !Absorbed(g, a, b).TopOfNothing?
    ensures Absorbed(g, a, b).Merged? && Counted(MergeCall(g, a, b).after) ==> Mergeable(MergeCall(g, a, b).after)
  {
    hide AbsorbAll, LooseOwner, LooseStore, LooseAt, Listed, Stability.Fine, Stability.FineTables;
    var s, ps := OwnersOf(g), Listed(g.entities[Higher(a, b)].owner);
    OwnersLoose(g);
    LoserLoose(g, Higher(a, b));
    AbsorbAllLoose(s, Lower(a, b), ps);
    if Absorbed(g, a, b).Merged? && Counted(MergeCall(g, a, b).after) {
      var after := MergeCall(g, a, b).after;
      assert Stability.FineTables(after) by { TablesUntouched(g, after); }
      LooseIsMergeable(after, Absorbed(g, a, b).s);
    }
  }

  /** Entities with loose tables that are not too long. */
  lemma LooseIsMergeable(g: Graph, s: Store)
    requires LooseStore(s) && Stability.FineTables(g) && Counted(g)
    requires forall h :: h in g.entities ==> h in s && g.entities[h].owner == s[h] && g.entities[h].handle == h != 0
    ensures Mergeable(g)
  {
    hide LooseOwner, LooseStore, Stability.FineTables, SoundEntity, Loadable, Ordered;
    forall h | h in g.entities
      ensures Stability.Fine(g.entities[h])
      ensures forall k :: k in g.entities[h].owner.properties ==> g.entities[h].owner.properties[k].values != []
    {
      OwnerParts(s, h);
      LooseIsFine(g.entities[h]);
      LooseIsFilled(g.entities[h].owner);
    }
  }

  lemma TablesUntouched(g: Graph, g': Graph)
    requires Stability.FineTables(g) && g'.(entities := g.entities) == g
    ensures Stability.FineTables(g')
  {
  }

  lemma LooseIsFilled(o: Owner)
    requires LooseOwner(o)
    ensures forall k :: k in o.properties ==> o.properties[k].values != []
  {
    hide LooseProperty, Descending;
  }

  lemma MergeableIsFine(g: Graph)
    requires Mergeable(g)
    ensures Stability.FineGraph(g)
  {
    hide Stability.FineGraph;
  }

  lemma MergeCallIs(g: Graph, a: Handle, b: Handle)
    ensures MergeCall(g, a, b).Change?
    ensures !MergeCall(g, a, b).threw ==> MayMerge(g, a, b) && Absorbed(g, a, b).Merged?
  {
    hide AbsorbAll, MayMerge, Without, WithOwners;
  }

  /** The graph a completed merge leaves can be addressed, in memory and on file. */
  ghost predicate MergeFits(c: Persistence.Call) {
    c.Change? && (!c.threw ==> Counted(c.after) && (SoundEntities(c.after) ==> Persistence.Fits(c.after)))
  }

  ghost function AfterMerge(d: Persistence.Database, a: Handle, b: Handle, record: Value, pristine: Graph): Persistence.Database {
    Persistence.Step(d, MergeCall(d.graph, a, b), record, pristine).0
  }

  /** A merge that completes leaves memory and file in agreement, one that throws
      leaves what was there before, and the links stay in order exactly when it
      threw or the loser was not linked. */
  lemma MergeKeepsInStep(d: Persistence.Database, a: Handle, b: Handle, record: Value, pristine: Graph)
    requires Persistence.InStep(d) && Persistence.Healthy(d.graph) && Mergeable(d.graph) && SinglyTyped(d.graph)
    requires MergeFits(MergeCall(d.graph, a, b))
    ensures Persistence.InStep(AfterMerge(d, a, b, record, pristine))
    ensures MergeCall(d.graph, a, b).threw ==>
      GraphEqual(d.graph, AfterMerge(d, a, b, record, pristine).graph) && AfterMerge(d, a, b, record, pristine).file == d.file
    ensures Persistence.Healthy(AfterMerge(d, a, b, record, pristine).graph)
      <==> MergeCall(d.graph, a, b).threw || Higher(a, b) !in d.graph.links
  {
    hide AbsorbAll, Absorbed, MergeCall, MayMerge, Stability.FineGraph, Keeps, SinglyTyped, Persistence.InStep, Persistence.FileOf, Persistence.Recovered,
      Mergeable, LinkGraph.Valid, GraphEqual, Counted, Persistence.Fits, SoundEntities;
    var c := MergeCall(d.graph, a, b);
    MergeCallIs(d.graph, a, b);
    if c.threw {
      Persistence.RecoveryRestores(d, c.after, record, pristine);
    } else {
      Persistence.InStepKeeps(d);
      MergeKeeps(d.graph, a, b);
      MergeKeepsMergeable(d.graph, a, b);
      MergeableIsFine(c.after);
      Stability.FineParts(c.after);
      Persistence.SavedInStepIff(c.after, record);
      MergeKeepsLinksIff(d.graph, a, b);
    }
  }
}
