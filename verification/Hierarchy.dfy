/** Hierarchies: subsetOf (key 3) and supersetOf (key 4) are mirrored on insert,
    and matching an entity-valued property walks up and down the tree. */
module Hierarchy {
  import opened Paths
  import opened Properties
  import opened Sorting

  type Handle = nat

  /** The property tables of all live entities. */
  type Store = map<Handle, Owner>

  function RefOf(v: Value): Handle {
    if v.members.numbers == [] then 0 else v.members.numbers[0]
  }

  predicate HasKey(s: Store, h: Handle, key: nat) { h in s && key in s[h].properties }

  function ChildValues(s: Store, h: Handle): seq<Value> {
    if HasKey(s, h, SUPERSET_OF) then s[h].properties[SUPERSET_OF].values else []
  }

  function ParentValues(s: Store, h: Handle): seq<Value> {
    if HasKey(s, h, SUBSET_OF) then s[h].properties[SUBSET_OF].values else []
  }

  function Refs(values: seq<Value>): set<Handle> { set i | 0 <= i < |values| :: RefOf(values[i]) }

  /** The entities h lists below itself. */
  function Children(s: Store, h: Handle): set<Handle> { Refs(ChildValues(s, h)) }

  /** The one entity above h, the top value of its subsetOf property. */
  function Parents(s: Store, h: Handle): set<Handle> {
    if ParentValues(s, h) == [] then {} else {RefOf(ParentValues(s, h)[0])}
  }

  function Down(s: Store): Adjacency { map h | h in s :: Children(s, h) }

  function Up(s: Store): Adjacency { map h | h in s :: Parents(s, h) }

  /** Every parent is live and lists its child; listings of children that moved
      elsewhere are allowed to remain. */
  ghost predicate Mirrored(s: Store) {
    forall c, p :: c in s && p in Parents(s, c) ==> p in s && c in Children(s, p)
  }

  // ---------- the shape insertion keeps ----------

  /** A list of references as inserts build it, or as loading a file leaves it. */
  ghost predicate RefList(p: Property, kind: Kind) {
    && (p.kind == kind || p.kind == Fuzzy) && IsRef(p.subtype) && p.values != [] && ValidProperty(p)
  }

  /** A source reference is an entity reference of its own type. */
  predicate IsRef(t: SubType) { t == EntityRef || t == SourceRef }

  /** The top parent is certain; a reloaded list may hold others behind it. */
  ghost predicate OwnerShaped(o: Owner) {
    && (SUBSET_OF in o.properties ==> RefList(o.properties[SUBSET_OF], ConcreteSingle) && Certainty(o.properties[SUBSET_OF].values[0]) >= 100)
    && (SUPERSET_OF in o.properties ==> RefList(o.properties[SUPERSET_OF], ConcreteMulti))
  }

  ghost predicate Shaped(s: Store) {
    forall h :: h in s ==> OwnerShaped(s[h])
  }

  /** The list of this key came back from a file, which does not record its kind. */
  predicate IsFuzzy(o: Owner, key: nat) { key in o.properties && o.properties[key].kind == Fuzzy }

  function ListType(o: Owner, key: nat): SubType { if key in o.properties then o.properties[key].subtype else Undefined }

  // ---------- insertion ----------

  datatype InsertResult = InsertResult(store: Store, threw: bool)

  /** A record of one confidence value, as setupDefaultMetaData attaches it. */
  function ConfidenceRecord(c: nat): Value {
    Value(Confidence, 0, Members([c], []), Owner(false, map[]))
  }

  /** A fresh EntityRef initialised with a confidence (at most 100). The author,
      source and time records Init also adds play no part here. */
  function MakeRef(h: Handle, c: nat): Value {
    Value(EntityRef, 0, Members([h], []),
          Owner(false, map[CONFIDENCE := Property(ConcreteSingle, CONFIDENCE, Confidence,
                                                  [ConfidenceRecord(if c > 100 then 100 else c)])]))
  }

  /** AfterInsert into one entity's own table. */
  function InsertLocal(s: Store, h: Handle, key: nat, v: Value, kind: Kind): InsertResult
    requires h in s
  {
    match InsertValue(s[h], key, v, kind)
    case Threw => InsertResult(s, true)
    case Done(o) => InsertResult(s[h := o], false)
  }

  function OtherKey(key: nat): nat { if key == SUBSET_OF then SUPERSET_OF else SUBSET_OF }

  function KindOf(key: nat): Kind { if key == SUBSET_OF then ConcreteSingle else ConcreteMulti }

  /** Entity::insertProperty for keys 3 and 4 on a user's insert: the mirrored
      record goes in first, so a later throw leaves it behind. */
  function InsertRelation(s: Store, h: Handle, key: nat, v: Value): InsertResult
    requires h in s && (key == SUBSET_OF || key == SUPERSET_OF)
  {
    if !IsRef(v.subtype) then InsertResult(s, true)
    else if RefOf(v) !in s then InsertResult(s, true)
    else
      var mirrored := InsertLocal(s, RefOf(v), OtherKey(key), MakeRef(h, Certainty(v)), KindOf(OtherKey(key)));
      if mirrored.threw then mirrored
      else InsertLocal(mirrored.store, h, key, v, KindOf(key))
  }

  lemma MakeRefIsCertain(h: Handle, c: nat)
    ensures Certainty(MakeRef(h, c)) == if c > 100 then 100 else c
    ensures RefOf(MakeRef(h, c)) == h && MakeRef(h, c).subtype == EntityRef
  {
  }

  lemma SameRefs(a: seq<Value>, b: seq<Value>)
    requires |a| == |b| && forall i :: 0 <= i < |a| ==> RefOf(a[i]) == RefOf(b[i])
    ensures Refs(a) == Refs(b)
  {
  }

  lemma RefsPermuted(a: seq<Value>, b: seq<Value>)
    requires multiset(a) == multiset(b)
    ensures Refs(a) <= Refs(b)
  {
    forall x | x in Refs(a) ensures x in Refs(b) {
      var i :| 0 <= i < |a| && RefOf(a[i]) == x;
      assert a[i] in multiset(b);
    }
  }

  /** Sorting and numbering keep what a list refers to. */
  lemma RefsSorted(values: seq<Value>)
    ensures Refs(Sorted(values)) == Refs(values)
  {
    StableSortIsStableSort(values, ByCertainty());
    var r := StableSort(values, ByCertainty());
    RefsPermuted(r, values);
    RefsPermuted(values, r);
    SameRefs(Renumbered(r), r);
  }

  lemma RefsGrow(values: seq<Value>, v: Value)
    ensures Refs(values + [v]) == Refs(values) + {RefOf(v)}
  {
    forall x | x in Refs(values) + {RefOf(v)} ensures x in Refs(values + [v]) {
      if x == RefOf(v) {
        assert (values + [v])[|values|] == v;
      } else {
        var i :| 0 <= i < |values| && RefOf(values[i]) == x;
        assert (values + [v])[i] == values[i];
      }
    }
  }

  /** The top of a sorted list changes only to a value that is strictly more certain. */
  lemma {:induction false} InsertTop(values: seq<Value>, v: Value)
    requires values != [] && Descending(values, ByCertainty())
    ensures var r := InsertStable(values, ByCertainty(), v);
      r != [] && r[0] == if Certainty(v) > Certainty(values[0]) then v else values[0]
  {
    if Certainty(values[|values| - 1]) < Certainty(v) && |values| > 1 {
      InsertTop(values[..|values| - 1], v);
    }
  }

  /** The same entities, locks and kinds of lists, and the same shape. */
  ghost predicate Alike(s: Store, r: Store) {
    && Shaped(r) && r.Keys == s.Keys
    && forall x :: x in s ==> r[x].locked == s[x].locked && SameKinds(s[x], r[x])
  }

  ghost predicate SameKinds(o: Owner, o': Owner) {
    IsFuzzy(o', SUBSET_OF) == IsFuzzy(o, SUBSET_OF) && IsFuzzy(o', SUPERSET_OF) == IsFuzzy(o, SUPERSET_OF)
  }

  /** Appending v to the list of this key goes through. */
  predicate Accepts(o: Owner, key: nat, v: Value) {
    !o.locked && ListType(o, key) in {Undefined, v.subtype} && (IsFuzzy(o, key) || Certainty(v) == 100)
  }

  /** No list changes its type; a new list of this key at h has type t. */
  ghost predicate TypesAfter(s: Store, r: Store, h: Handle, key: nat, t: SubType) {
    forall x, k :: x in s && x in r && (k == SUBSET_OF || k == SUPERSET_OF) ==>
      ListType(r[x], k) == if x == h && k == key && ListType(s[x], k) == Undefined then t else ListType(s[x], k)
  }

  /** Appending v makes its entity the parent: always in a list with one place,
      in a reloaded one if v is more certain than the top. */
  predicate TakesOver(o: Owner, v: Value) {
    IsFuzzy(o, SUBSET_OF) && o.properties[SUBSET_OF].values != [] ==> Certainty(v) > Certainty(o.properties[SUBSET_OF].values[0])
  }

  /** r is s with p as the parent of h, unless h keeps its own. */
  ghost predicate ParentSet(s: Store, r: Store, h: Handle, p: Handle, taken: bool, t: SubType) {
    && Alike(s, r) && TypesAfter(s, r, h, SUBSET_OF, t) && Parents(r, h) == (if taken then {p} else Parents(s, h))
    && (forall x :: Children(r, x) == Children(s, x))
    && (forall x :: x != h ==> Parents(r, x) == Parents(s, x))
  }

  /** r is s with c listed below h. */
  ghost predicate ChildListed(s: Store, r: Store, h: Handle, c: Handle, t: SubType) {
    && Alike(s, r) && TypesAfter(s, r, h, SUPERSET_OF, t) && Children(r, h) == Children(s, h) + {c}
    && (forall x :: Parents(r, x) == Parents(s, x))
    && (forall x :: x != h ==> Children(r, x) == Children(s, x))
  }

  lemma InsertParentValue(o: Owner, v: Value) returns (p: Property)
    requires OwnerShaped(o) && IsRef(v.subtype) && Accepts(o, SUBSET_OF, v)
    ensures InsertValue(o, SUBSET_OF, v, ConcreteSingle) == Done(o.(properties := o.properties[SUBSET_OF := p]))
    ensures RefList(p, ConcreteSingle) && Certainty(p.values[0]) >= 100 && (p.kind == Fuzzy <==> IsFuzzy(o, SUBSET_OF))
    ensures p.subtype == v.subtype
    ensures RefOf(p.values[0]) == if TakesOver(o, v) then RefOf(v) else RefOf(o.properties[SUBSET_OF].values[0])
  {
    if IsFuzzy(o, SUBSET_OF) {
      var was := o.properties[SUBSET_OF];
      FuzzyAppendInserts(was, v);
      AppendKeepsValid(was, v);
      InsertTop(was.values, v);
      p := Appended(was, v).value;
      hide Appended, InsertStable, StableSort, ValidProperty;
    } else {
      p := Property(ConcreteSingle, if SUBSET_OF in o.properties then o.properties[SUBSET_OF].key else SUBSET_OF, v.subtype, [v.(orderingId := 0)]);
    }
  }

  lemma InsertParent(s: Store, h: Handle, v: Value) returns (r: Store)
    requires Shaped(s) && h in s && IsRef(v.subtype) && Accepts(s[h], SUBSET_OF, v)
    ensures InsertLocal(s, h, SUBSET_OF, v, ConcreteSingle) == InsertResult(r, false)
    ensures ParentSet(s, r, h, RefOf(v), TakesOver(s[h], v), v.subtype)
  {
    var p := InsertParentValue(s[h], v);
    r := WithProperty(s, h, SUBSET_OF, p);
    assert InsertLocal(s, h, SUBSET_OF, v, ConcreteSingle) == InsertResult(r, false) by { hide InsertValue; }
    assert p.values != [];
    assert !TakesOver(s[h], v) ==> Parents(s, h) == {RefOf(s[h].properties[SUBSET_OF].values[0])};
    hide InsertValue, InsertLocal, Refs, RefList, Certainty, WithProperty, Alike, Shaped, TakesOver, TypesAfter;
    WithPropertyAlike(s, h, SUBSET_OF, p);
    forall x ensures Children(r, x) == Children(s, x) && (x != h ==> Parents(r, x) == Parents(s, x)) {
      WithPropertyShows(s, h, SUBSET_OF, p, x);
    }
    WithPropertyShows(s, h, SUBSET_OF, p, h);
  }

  lemma InsertChildValue(o: Owner, v: Value) returns (p: Property)
    requires OwnerShaped(o) && IsRef(v.subtype) && Accepts(o, SUPERSET_OF, v)
    ensures InsertValue(o, SUPERSET_OF, v, ConcreteMulti) == Done(o.(properties := o.properties[SUPERSET_OF := p]))
    ensures RefList(p, ConcreteMulti) && (p.kind == Fuzzy <==> IsFuzzy(o, SUPERSET_OF)) && p.subtype == v.subtype
    ensures Refs(p.values) == (if SUPERSET_OF in o.properties then Refs(o.properties[SUPERSET_OF].values) else {}) + {RefOf(v)}
  {
    var was := if SUPERSET_OF in o.properties then o.properties[SUPERSET_OF]
               else Property(ConcreteMulti, SUPERSET_OF, v.subtype, []);
    p := was.(values := Sorted(was.values + [v]));
    assert Appended(was, v) == Done(p);
    AppendKeepsValid(was, v);
    RefsGrow(was.values, v);
    RefsSorted(was.values + [v]);
    SortedIsValid(was.values + [v]);
    NoRefs();
    hide Appended, Sorted, Renumbered, Refs, Certainty, ValidProperty;
  }

  /** Replacing the property of one key in one table. */
  function WithProperty(s: Store, h: Handle, key: nat, p: Property): Store
    requires h in s
  {
    s[h := s[h].(properties := s[h].properties[key := p])]
  }

  lemma WithPropertyShows(s: Store, h: Handle, key: nat, p: Property, x: Handle)
    requires h in s && (key == SUBSET_OF || key == SUPERSET_OF)
    ensures var r := WithProperty(s, h, key, p);
      && (x == h && key == SUPERSET_OF ==> ChildValues(r, x) == p.values)
      && (x != h || key == SUBSET_OF ==> ChildValues(r, x) == ChildValues(s, x))
      && (x == h && key == SUBSET_OF ==> ParentValues(r, x) == p.values)
      && (x != h || key == SUPERSET_OF ==> ParentValues(r, x) == ParentValues(s, x))
  {
  }

  lemma WithPropertyAlike(s: Store, h: Handle, key: nat, p: Property)
    requires Shaped(s) && h in s
    requires (key == SUBSET_OF && RefList(p, ConcreteSingle) && Certainty(p.values[0]) >= 100) || (key == SUPERSET_OF && RefList(p, ConcreteMulti))
    requires p.kind == Fuzzy <==> IsFuzzy(s[h], key)
    requires ListType(s[h], key) in {Undefined, p.subtype}
    ensures Alike(s, WithProperty(s, h, key, p)) && TypesAfter(s, WithProperty(s, h, key, p), h, key, p.subtype)
  {
    hide Certainty, ValidProperty;
  }

  lemma InsertChild(s: Store, h: Handle, v: Value) returns (r: Store)
    requires Shaped(s) && h in s && IsRef(v.subtype) && Accepts(s[h], SUPERSET_OF, v)
    ensures InsertLocal(s, h, SUPERSET_OF, v, ConcreteMulti) == InsertResult(r, false)
    ensures ChildListed(s, r, h, RefOf(v), v.subtype)
  {
    var p := InsertChildValue(s[h], v);
    r := WithProperty(s, h, SUPERSET_OF, p);
    assert InsertLocal(s, h, SUPERSET_OF, v, ConcreteMulti) == InsertResult(r, false) by { hide InsertValue; }
    hide InsertValue, InsertLocal, Refs, RefList, Certainty, WithProperty, Alike, Shaped, TypesAfter;
    NoRefs();
    WithPropertyAlike(s, h, SUPERSET_OF, p);
    forall x ensures Parents(r, x) == Parents(s, x) && (x != h ==> Children(r, x) == Children(s, x)) {
      WithPropertyShows(s, h, SUPERSET_OF, p, x);
    }
    WithPropertyShows(s, h, SUPERSET_OF, p, h);
  }

  lemma NoRefs()
    ensures Refs([]) == {}
  {
  }

  lemma InsertThrows(s: Store, h: Handle, key: nat, v: Value)
    requires Shaped(s) && h in s && (key == SUBSET_OF || key == SUPERSET_OF) && IsRef(v.subtype)
    requires !Accepts(s[h], key, v)
    ensures InsertLocal(s, h, key, v, KindOf(key)) == InsertResult(s, true)
  {
  }

  /** The condition under which a supersetOf insert throws after it has already
      set the child's parent: the child takes the mirrored record and has no
      reloaded parent, the holder does not take the child, and does not list it. */
  predicate Orphans(s: Store, h: Handle, key: nat, v: Value) {
    && key == SUPERSET_OF && h in s && IsRef(v.subtype) && RefOf(v) in s
    && Accepts(s[RefOf(v)], SUBSET_OF, MakeRef(h, Certainty(v))) && !IsFuzzy(s[RefOf(v)], SUBSET_OF)
    && !Accepts(s[h], SUPERSET_OF, v) && RefOf(v) !in Children(s, h)
  }

  lemma ListingKeepsMirror(s: Store, r: Store, h: Handle, c: Handle, t: SubType)
    requires Mirrored(s) && ChildListed(s, r, h, c, t)
    ensures Mirrored(r)
  {
    hide Shaped, Children, Parents;
    forall x, p | x in r && p in Parents(r, x) ensures p in r && x in Children(r, p) {
      assert p in Parents(s, x);
    }
  }

  /** Setting a parent keeps the mirror exactly when the parent lists the child. */
  lemma ParentKeepsMirrorIff(s: Store, r: Store, h: Handle, p: Handle, taken: bool, t: SubType)
    requires Mirrored(s) && ParentSet(s, r, h, p, taken, t) && h in s && p in s
    ensures Mirrored(r) <==> !taken || h in Children(s, p)
  {
    hide Shaped, Children, Parents;
    assert taken ==> p in Parents(r, h);
    if !taken || h in Children(s, p) {
      forall x, q | x in r && q in Parents(r, x) ensures q in r && x in Children(r, q) {
        if x != h || !taken { assert q in Parents(s, x); }
      }
    }
  }

  /** Setting a parent and listing the child, in either order, keeps the mirror. */
  lemma BothKeepMirror(s: Store, r: Store, h: Handle, c: Handle)
    requires Mirrored(s) && r.Keys == s.Keys && h in s && c in s
    requires Parents(r, c) in {{h}, Parents(s, c)} && forall x :: x != c ==> Parents(r, x) == Parents(s, x)
    requires c in Children(r, h) && forall x :: Children(s, x) <= Children(r, x)
    ensures Mirrored(r)
  {
    hide Children, Parents;
    forall x, q | x in r && q in Parents(r, x) ensures q in r && x in Children(r, q) {
      if x != c || Parents(r, c) == Parents(s, c) { assert q in Parents(s, x); }
    }
  }

  lemma SubsetInsert(s: Store, h: Handle, v: Value)
    requires Shaped(s) && Mirrored(s) && h in s && IsRef(v.subtype) && RefOf(v) in s
    ensures var r := InsertRelation(s, h, SUBSET_OF, v).store; Alike(s, r) && Mirrored(r) && EntityListsStay(s, r)
  {
    var other, record := RefOf(v), MakeRef(h, Certainty(v));
    MakeRefIsCertain(h, Certainty(v));
    hide MakeRef, RefOf, Certainty, InsertLocal, Children, Parents, Accepts, TakesOver, RefList, IsFuzzy, ListType;
    if !Accepts(s[other], SUPERSET_OF, record) {
      InsertThrows(s, other, SUPERSET_OF, record);
    } else {
      var m := InsertChild(s, other, record);
      ListingKeepsMirror(s, m, other, h, EntityRef);
      if !Accepts(m[h], SUBSET_OF, v) {
        InsertThrows(m, h, SUBSET_OF, v);
      } else {
        var r := InsertParent(m, h, v);
        ParentKeepsMirrorIff(m, r, h, other, TakesOver(m[h], v), v.subtype);
      }
    }
  }

  /** If all children are listed by entity references, they still are. */
  ghost predicate EntityListsStay(s: Store, r: Store) {
    forall x :: x in s && x in r && ListType(s[x], SUPERSET_OF) in {Undefined, EntityRef} ==> ListType(r[x], SUPERSET_OF) in {Undefined, EntityRef}
  }

  lemma SupersetInsert(s: Store, h: Handle, v: Value)
    requires Shaped(s) && Mirrored(s) && h in s && IsRef(v.subtype) && RefOf(v) in s
    ensures var r := InsertRelation(s, h, SUPERSET_OF, v).store;
      && Alike(s, r) && (Mirrored(r) <==> !Orphans(s, h, SUPERSET_OF, v))
      && (v.subtype == EntityRef ==> EntityListsStay(s, r))
  {
    var other, record := RefOf(v), MakeRef(h, Certainty(v));
    MakeRefIsCertain(h, Certainty(v));
    hide MakeRef, RefOf, Certainty, InsertLocal, Children, Parents, Accepts, TakesOver, OwnerShaped, IsFuzzy, ParentSet, Mirrored, ListType;
    if !Accepts(s[other], SUBSET_OF, record) {
      InsertThrows(s, other, SUBSET_OF, record);
      AlikeItself(s);
    } else {
      var m := InsertParent(s, other, record);
      TakesOverIff(s[other], record);
      SecondHalf(s, m, h, other, v, !IsFuzzy(s[other], SUBSET_OF));
    }
  }

  lemma AlikeItself(s: Store)
    requires Shaped(s)
    ensures Alike(s, s)
  {
  }

  /** The holder's own list, after the parent of the child has been set. */
  lemma SecondHalf(s: Store, m: Store, h: Handle, other: Handle, v: Value, taken: bool)
    requires Mirrored(s) && ParentSet(s, m, other, h, taken, EntityRef) && h in s && other in s && IsRef(v.subtype) && RefOf(v) == other
    ensures var r := InsertLocal(m, h, SUPERSET_OF, v, ConcreteMulti).store;
      && Alike(s, r) && (Mirrored(r) <==> Accepts(s[h], SUPERSET_OF, v) || !taken || other in Children(s, h))
      && (v.subtype == EntityRef ==> EntityListsStay(s, r))
  {
    assert ListType(m[h], SUPERSET_OF) == ListType(s[h], SUPERSET_OF);
    AcceptsAlike(s[h], m[h], v);
    hide RefOf, Certainty, InsertLocal, Children, Parents, Accepts, OwnerShaped, SameKinds, ListType, TypesAfter, EntityListsStay;
    if !Accepts(m[h], SUPERSET_OF, v) {
      InsertThrows(m, h, SUPERSET_OF, v);
      ParentKeepsMirrorIff(s, m, other, h, taken, EntityRef);
      TypesKeepLists(s, m, m, other, h, EntityRef, EntityRef);
    } else {
      var r := InsertChild(m, h, v);
      BothKeepMirror(s, r, h, other);
      TypesKeepLists(s, m, r, other, h, EntityRef, v.subtype);
    }
  }

  lemma TypesKeepLists(s: Store, m: Store, r: Store, other: Handle, h: Handle, t: SubType, u: SubType)
    requires s.Keys == m.Keys == r.Keys && TypesAfter(s, m, other, SUBSET_OF, t) && (m == r || TypesAfter(m, r, h, SUPERSET_OF, u))
    ensures u == EntityRef ==> EntityListsStay(s, r)
  {
    hide ListType;
  }

  lemma AcceptsAlike(o: Owner, o': Owner, v: Value)
    requires o'.locked == o.locked && SameKinds(o, o') && ListType(o', SUPERSET_OF) == ListType(o, SUPERSET_OF)
    ensures Accepts(o', SUPERSET_OF, v) <==> Accepts(o, SUPERSET_OF, v)
  {
  }

  /** The mirrored record is at most certain, so it never replaces a reloaded parent. */
  lemma TakesOverIff(o: Owner, v: Value)
    requires OwnerShaped(o) && Certainty(v) <= 100
    ensures TakesOver(o, v) <==> !IsFuzzy(o, SUBSET_OF)
  {
  }

  /** One insert, completed or thrown half-way, keeps the mirror exactly unless it
      is a supersetOf that throws after the parent is set. */
  lemma InsertKeepsMirrorIff(s: Store, h: Handle, key: nat, v: Value)
    requires Shaped(s) && Mirrored(s) && h in s && (key == SUBSET_OF || key == SUPERSET_OF)
    ensures var r := InsertRelation(s, h, key, v).store;
      && Alike(s, r) && (Mirrored(r) <==> !Orphans(s, h, key, v))
      && ((key == SUPERSET_OF ==> v.subtype != SourceRef) ==> EntityListsStay(s, r))
  {
    if IsRef(v.subtype) && RefOf(v) in s {
      if key == SUBSET_OF { SubsetInsert(s, h, v); } else { SupersetInsert(s, h, v); }
    }
  }

  /** A locked holder: the insert throws and leaves a parent that does not list
      its child. */
  lemma LockedHolderOrphans(s: Store)
    requires s == map[1 := Owner(true, map[]), 2 := Owner(false, map[])]
    ensures Shaped(s) && Mirrored(s)
    ensures var r := InsertRelation(s, 1, SUPERSET_OF, MakeRef(2, 100)); r.threw && !Mirrored(r.store)
  {
    var v := MakeRef(2, 100);
    MakeRefIsCertain(2, 100);
    assert forall h :: h in s ==> ParentValues(s, h) == [] && ChildValues(s, h) == [];
    assert Orphans(s, 1, SUPERSET_OF, v);
    InsertKeepsMirrorIff(s, 1, SUPERSET_OF, v);
    MakeRefIsCertain(1, 100);
    var m' := InsertParent(s, 2, MakeRef(1, 100));
    InsertThrows(m', 1, SUPERSET_OF, v);
  }

  /** 1 lists 3 by an entity reference; nobody is locked. */
  function OneListsThree(): Store {
    map[1 := Owner(false, map[SUPERSET_OF := Property(ConcreteMulti, SUPERSET_OF, EntityRef, [MakeRef(3, 100)])]),
        2 := Owner(false, map[]), 3 := Owner(false, map[])]
  }

  lemma OneListsThreeIs(s: Store)
    requires s == OneListsThree()
    ensures Shaped(s) && Mirrored(s) && Children(s, 1) == {3} && ListType(s[1], SUPERSET_OF) == EntityRef && s.Keys == {1, 2, 3}
    ensures s[2] == Owner(false, map[])
  {
    MakeRefIsCertain(3, 100);
    hide MakeRef, Certainty;
    assert forall h :: h in s ==> ParentValues(s, h) == [];
    RefsGrow([], MakeRef(3, 100));
    assert [] + [MakeRef(3, 100)] == [MakeRef(3, 100)];
    assert ChildValues(s, 1) == [MakeRef(3, 100)] && Children(s, 1) == {3} by { NoRefs(); }
  }

  /** An unlocked holder that lists its children by entity references: a source
      reference throws there, and leaves a parent that does not list its child. */
  lemma SourceReferenceOrphans(s: Store, v: Value)
    requires s == OneListsThree() && v == Value(SourceRef, 0, Members([2], []), Owner(false, map[]))
    ensures Shaped(s) && Mirrored(s)
    ensures var r := InsertRelation(s, 1, SUPERSET_OF, v); r.threw && !Mirrored(r.store)
  {
    OneListsThreeIs(s);
    MakeRefIsCertain(1, 100);
    assert Certainty(v) == 100 && RefOf(v) == 2;
    hide MakeRef, Children, InsertLocal, Certainty, Mirrored, OwnerShaped, OneListsThree;
    assert Orphans(s, 1, SUPERSET_OF, v);
    InsertKeepsMirrorIff(s, 1, SUPERSET_OF, v);
    var m := InsertParent(s, 2, MakeRef(1, 100));
    InsertThrows(m, 1, SUPERSET_OF, v);
  }

  // ---------- over every run ----------

  datatype Insertion = Insertion(h: Handle, key: nat, v: Value)

  function AfterInsert(s: Store, i: Insertion): Store {
    if i.h in s && (i.key == SUBSET_OF || i.key == SUPERSET_OF) then InsertRelation(s, i.h, i.key, i.v).store else s
  }

  function Run(s: Store, steps: seq<Insertion>): Store {
    if steps == [] then s else AfterInsert(Run(s, steps[..|steps| - 1]), steps[|steps| - 1])
  }

  /** The step finds a store in which it orphans a child. */
  predicate OrphansAt(s: Store, i: Insertion) { Orphans(s, i.h, i.key, i.v) }

  lemma StepKeepsMirrorIff(s: Store, i: Insertion)
    requires Shaped(s) && Mirrored(s)
    ensures Alike(s, AfterInsert(s, i)) && (Mirrored(AfterInsert(s, i)) <==> !OrphansAt(s, i))
    ensures (i.key == SUPERSET_OF ==> i.v.subtype != SourceRef) ==> EntityListsStay(s, AfterInsert(s, i))
  {
    hide Shaped, Mirrored, Certainty, InsertRelation, Accepts, ListType;
    AlikeItself(s);
    if i.h in s && (i.key == SUBSET_OF || i.key == SUPERSET_OF) { InsertKeepsMirrorIff(s, i.h, i.key, i.v); }
  }

  lemma AlikeChain(s: Store, m: Store, r: Store)
    requires Alike(s, m) && Alike(m, r)
    ensures Alike(s, r)
  {
    hide Shaped, IsFuzzy;
  }

  /** An entity without a reloaded list has at most one parent. */
  ghost predicate OneParentEach(s: Store, r: Store) {
    forall h :: h in s && !IsFuzzy(s[h], SUBSET_OF) ==> |ParentValues(r, h)| <= 1
  }

  lemma OneParent(s: Store, r: Store)
    requires Alike(s, r)
    ensures OneParentEach(s, r)
  {
    hide Certainty, IsRef;
    forall h | h in s && !IsFuzzy(s[h], SUBSET_OF) ensures |ParentValues(r, h)| <= 1 {
      assert OwnerShaped(r[h]) && SameKinds(s[h], r[h]);
    }
  }

  /** The mirror holds before, between and after the steps. */
  ghost predicate StaysMirrored(s: Store, steps: seq<Insertion>) {
    Mirrored(Run(s, steps)) && (steps == [] || StaysMirrored(s, steps[..|steps| - 1]))
  }

  /** No step orphans a child in the store it finds. */
  ghost predicate NoneOrphans(s: Store, steps: seq<Insertion>) {
    steps == [] || (NoneOrphans(s, steps[..|steps| - 1]) && !OrphansAt(Run(s, steps[..|steps| - 1]), steps[|steps| - 1]))
  }

  /** Over every run of inserts in either direction the mirror holds throughout
      exactly if no step orphans a child in the store it finds; then no lock and no
      kind of list changes, and without reloaded lists no entity has two parents. */
  lemma {:induction false} RunKeepsMirrorIff(s: Store, steps: seq<Insertion>)
    requires Shaped(s) && Mirrored(s)
    ensures StaysMirrored(s, steps) <==> NoneOrphans(s, steps)
    ensures NoneOrphans(s, steps) ==> Alike(s, Run(s, steps)) && OneParentEach(s, Run(s, steps))
  {
    hide Shaped, AfterInsert, Mirrored, OrphansAt, Alike, EntityListsStay, OneParentEach;
    AlikeItself(s);
    if steps != [] {
      var init, last := steps[..|steps| - 1], steps[|steps| - 1];
      RunKeepsMirrorIff(s, init);
      if NoneOrphans(s, init) {
        assert StaysMirrored(s, init);
        AlikeIsShaped(s, Run(s, init));
        StepKeepsMirrorIff(Run(s, init), last);
        AlikeChain(s, Run(s, init), Run(s, steps));
      }
    }
    if NoneOrphans(s, steps) { OneParent(s, Run(s, steps)); }
  }

  lemma AlikeIsShaped(s: Store, r: Store)
    requires Alike(s, r)
    ensures Shaped(r)
  {
    hide Shaped, SameKinds;
  }

  /** Every list of children is of entity references, as inserts of those leave it. */
  ghost predicate EntityLists(s: Store) { forall h :: h in s ==> ListType(s[h], SUPERSET_OF) in {Undefined, EntityRef} }

  /** A supersetOf of an entity reference with a confidence that the parser lets
      through, asked of an unlocked holder. */
  predicate Plain(s: Store, i: Insertion) {
    i.key == SUPERSET_OF ==> i.v.subtype != SourceRef && Certainty(i.v) <= 100 && (i.h in s ==> !s[i.h].locked)
  }

  lemma PlainIsNoOrphan(s: Store, i: Insertion)
    requires Shaped(s) && EntityLists(s) && Plain(s, i)
    ensures !OrphansAt(s, i)
  {
    MakeRefIsCertain(i.h, Certainty(i.v));
    hide MakeRef, Certainty, Children, OwnerShaped;
  }

  /** Over every such run, with subsetOf inserts of any kind in between, every parent
      is live and lists its child. */
  lemma {:induction false} RunKeepsMirror(s: Store, steps: seq<Insertion>)
    requires Shaped(s) && Mirrored(s) && EntityLists(s) && forall i :: 0 <= i < |steps| ==> Plain(s, steps[i])
    ensures Mirrored(Run(s, steps)) && Alike(s, Run(s, steps)) && EntityLists(Run(s, steps))
    ensures OneParentEach(s, Run(s, steps))
  {
    hide Shaped, SameKinds, AfterInsert, Mirrored, OneParentEach, Certainty, OrphansAt, ListType;
    AlikeItself(s);
    if steps != [] {
      var before, i := Run(s, steps[..|steps| - 1]), steps[|steps| - 1];
      RunKeepsMirror(s, steps[..|steps| - 1]);
      PlainIsNoOrphan(before, i);
      StepKeepsMirrorIff(before, i);
      AlikeChain(s, before, Run(s, steps));
    }
    OneParent(s, Run(s, steps));
  }
}
