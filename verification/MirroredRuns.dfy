/** What every run of calls keeps of the hierarchies: a call that throws between the
    two halves of a relation is undone, so that whoever is a parent lists its child,
    and does so after every call, completed or aborted. */
module MirroredRuns {
  import opened Edits
  import opened Entities
  import opened GraphFile
  import opened Hierarchy
  import opened Merging
  import opened Persistence
  import opened Properties
  import opened Runs
  import opened Sorting
  import Stability

  /** No list of children is one that holds a single value. */
  ghost predicate Listing(s: Store) { forall h :: HasKey(s, h, SUPERSET_OF) ==> s[h].properties[SUPERSET_OF].kind != ConcreteSingle }

  ghost predicate Whole(s: Store) { Mirrored(s) && Listing(s) }

  /** Every list of parents is in order of confidence. */
  ghost predicate TopsSorted(s: Store) { forall h :: h in s ==> Descending(ParentValues(s, h), ByCertainty()) }

  // ---------- the two halves of a relation that goes through ----------

  lemma InsertIs(o: Owner, key: nat, v: Value, kind: Kind)
    requires InsertValue(o, key, v, kind).Done? && kind != Locked
    ensures var o' := InsertValue(o, key, v, kind).value;
      key in o'.properties && Appended(ListFor(o, key, v, kind), v) == Done(o'.properties[key])
  {
    hide Appended;
  }

  /** Who is on top after an append: the value, or whoever was. */
  lemma AppendedTop(p: Property, v: Value)
    requires Appended(p, v).Done? && Descending(p.values, ByCertainty())
    ensures var q := Appended(p, v).value;
      q.values != [] && (RefOf(q.values[0]) == RefOf(v) || (p.values != [] && RefOf(q.values[0]) == RefOf(p.values[0])))
  {
    if p.kind != ConcreteSingle {
      hide Certainty, Descending, InsertStable, StableSort;
      SortAppended(p.values, ByCertainty(), v);
      if p.values != [] {
        InsertTop(p.values, v);
      } else {
        OneInserted(v);
      }
    }
  }

  lemma OneInserted(v: Value)
    ensures InsertStable([], ByCertainty(), v) == [v]
  {
  }

  lemma AppendedRefs(p: Property, v: Value)
    requires Appended(p, v).Done? && p.kind != ConcreteSingle
    ensures var q := Appended(p, v).value; q.kind == p.kind && Refs(q.values) == Refs(p.values) + {RefOf(v)}
  {
    hide Certainty, Sorted, Refs;
    RefsGrow(p.values, v);
    RefsSorted(p.values + [v]);
  }

  lemma ParentPut(s: Store, h: Handle, v: Value, p: Handle)
    requires h in s && !InsertLocal(s, h, SUBSET_OF, v, ConcreteSingle).threw && TopsSorted(s) && p == RefOf(v)
    ensures var r := InsertLocal(s, h, SUBSET_OF, v, ConcreteSingle).store;
      && r.Keys == s.Keys && Parents(r, h) in {{p}, Parents(s, h)} && (Listing(s) ==> Listing(r))
      && (forall x :: Children(r, x) == Children(s, x)) && (forall x :: x != h ==> Parents(r, x) == Parents(s, x))
  {
    hide Certainty, Appended, InsertValue, Refs;
    var o, r := s[h], InsertLocal(s, h, SUBSET_OF, v, ConcreteSingle).store;
    InsertIs(o, SUBSET_OF, v, ConcreteSingle);
    LocalOnlyList(s, h, SUBSET_OF, v, ConcreteSingle);
    assert r[h] == InsertValue(o, SUBSET_OF, v, ConcreteSingle).value;
    assert ParentValues(s, h) == ListFor(o, SUBSET_OF, v, ConcreteSingle).values;
    AppendedTop(ListFor(o, SUBSET_OF, v, ConcreteSingle), v);
  }

  lemma ChildPut(s: Store, h: Handle, v: Value, c: Handle)
    requires h in s && !InsertLocal(s, h, SUPERSET_OF, v, ConcreteMulti).threw && Listing(s) && c == RefOf(v)
    ensures var r := InsertLocal(s, h, SUPERSET_OF, v, ConcreteMulti).store;
      && r.Keys == s.Keys && Children(r, h) == Children(s, h) + {c} && Listing(r)
      && (forall x :: Parents(r, x) == Parents(s, x)) && (forall x :: x != h ==> Children(r, x) == Children(s, x))
  {
    hide Certainty, Appended, InsertValue, Refs;
    var o, r := s[h], InsertLocal(s, h, SUPERSET_OF, v, ConcreteMulti).store;
    InsertIs(o, SUPERSET_OF, v, ConcreteMulti);
    LocalOnlyList(s, h, SUPERSET_OF, v, ConcreteMulti);
    assert r[h] == InsertValue(o, SUPERSET_OF, v, ConcreteMulti).value;
    assert ChildValues(s, h) == ListFor(o, SUPERSET_OF, v, ConcreteMulti).values;
    AppendedRefs(ListFor(o, SUPERSET_OF, v, ConcreteMulti), v);
    NoRefs();
  }

  /** A relation of which both halves have gone through keeps the mirror. */
  lemma RelationKeepsMirror(s: Store, h: Handle, key: nat, v: Value)
    requires Whole(s) && TopsSorted(s) && h in s && (key == SUBSET_OF || key == SUPERSET_OF) && !InsertRelation(s, h, key, v).threw
    ensures Whole(InsertRelation(s, h, key, v).store)
  {
    var other, record := RefOf(v), MakeRef(h, Certainty(v));
    MakeRefIsCertain(h, Certainty(v));
    hide MakeRef, RefOf, Certainty, InsertLocal, Parents, Children, Mirrored, Listing, TopsSorted;
    var r := InsertRelation(s, h, key, v).store;
    if key == SUBSET_OF {
      var m := InsertLocal(s, other, SUPERSET_OF, record, ConcreteMulti).store;
      ChildPut(s, other, record, h);
      TopsStay(s, other, SUPERSET_OF, record, ConcreteMulti);
      ParentPut(m, h, v, other);
      BothKeepMirror(s, r, other, h);
    } else {
      var m := InsertLocal(s, other, SUBSET_OF, record, ConcreteSingle).store;
      ParentPut(s, other, record, h);
      ChildPut(m, h, v, other);
      BothKeepMirror(s, r, h, other);
    }
  }

  lemma TopsStay(s: Store, h: Handle, key: nat, v: Value, kind: Kind)
    requires h in s && key != SUBSET_OF && TopsSorted(s)
    ensures TopsSorted(InsertLocal(s, h, key, v, kind).store)
  {
    LocalOnlyList(s, h, key, v, kind);
    hide Descending, InsertLocal;
    var r := InsertLocal(s, h, key, v, kind).store;
    forall x | x in r ensures Descending(ParentValues(r, x), ByCertainty()) { assert ParentValues(r, x) == ParentValues(s, x); }
  }

  // ---------- every edit ----------

  /** Nobody is gone, and everyone has the parent and the children they had. */
  ghost predicate Extends(s: Store, r: Store) {
    && s.Keys <= r.Keys && (Listing(s) ==> Listing(r))
    && forall x :: Parents(r, x) == Parents(s, x) && Children(r, x) == Children(s, x)
  }

  lemma ExtendedIsWhole(s: Store, r: Store)
    requires Whole(s) && Extends(s, r)
    ensures Whole(r)
  {
    hide Children, Listing;
    forall c, p | c in r && p in Parents(r, c) ensures p in r && c in Children(r, p) {
      assert p in Parents(s, c);
      assert c in s by { if c !in s { NoParents(s, c); } }
    }
  }

  lemma NoParents(s: Store, c: Handle)
    requires c !in s
    ensures Parents(s, c) == {}
  {
  }

  /** One table changed, but in neither relation. */
  ghost predicate SameRelations(o: Owner, o': Owner) {
    forall k :: k == SUBSET_OF || k == SUPERSET_OF ==>
      && (k in o'.properties <==> k in o.properties)
      && (k in o.properties ==> SameList(o.properties[k], o'.properties[k]))
  }

  ghost predicate SameList(p: Property, q: Property) {
    && q.kind == p.kind && |q.values| == |p.values|
    && forall i :: 0 <= i < |p.values| ==> RefOf(q.values[i]) == RefOf(p.values[i])
  }

  lemma SameRelationsExtend(s: Store, h: Handle, o: Owner)
    requires h in s && SameRelations(s[h], o)
    ensures Extends(s, s[h := o])
  {
    hide RefOf;
    var r := s[h := o];
    forall x ensures Parents(r, x) == Parents(s, x) && Children(r, x) == Children(s, x) {
      if x == h {
        SameRefs(ChildValues(r, h), ChildValues(s, h));
      }
    }
  }

  lemma PutKeepsWhole(g: Graph, e: Edit)
    requires Ready(g) && Whole(OwnersOf(g)) && e.Put? && !Edited(g, e).1
    ensures Whole(OwnersOf(Edited(g, e).0))
  {
    hide Ready, Whole, InsertRelation, InsertLocal, SameRelations, OwnersOf, WithOwners;
    var s := OwnersOf(g);
    OwnersKeys(g);
    var r := PutInto(s, e.h, e.key, e.v).store;
    PutKeys(s, e.h, e.key, e.v);
    OwnersBack(g, r);
    if e.key == SUBSET_OF || e.key == SUPERSET_OF {
      ReadyTops(g);
      RelationKeepsMirror(s, e.h, e.key, e.v);
    } else {
      LocalOnlyList(s, e.h, e.key, e.v, Fuzzy);
      OtherListExtends(s, r, e.h, e.key);
      ExtendedIsWhole(s, r);
    }
  }

  lemma OtherListExtends(s: Store, r: Store, h: Handle, key: nat)
    requires OnlyList(s, r, h, key) && key != SUBSET_OF && key != SUPERSET_OF
    ensures Extends(s, r)
  {
    hide Refs, RefOf;
    forall x ensures ParentValues(r, x) == ParentValues(s, x) && ChildValues(r, x) == ChildValues(s, x) { }
  }

  lemma ReadyTops(g: Graph)
    requires Ready(g)
    ensures TopsSorted(OwnersOf(g))
  {
    ReadyIsKept(g);
    hide Ready, Descending;
    NoneDescends();
    forall h | h in g.entities ensures Descending(ParentValues(OwnersOf(g), h), ByCertainty()) { assert Ordered(g.entities[h].owner); }
  }

  lemma NoneDescends()
    ensures Descending([], ByCertainty())
  {
  }

  lemma AnnotatedIsSame(o: Owner, key: nat, position: nat, metaKey: nat, v: Value, o': Owner)
    requires Annotated(o, key, position, metaKey, v) == Done(o')
    ensures SameRelations(o, o')
  {
    hide InsertValue;
  }

  lemma AnnotateKeepsWhole(g: Graph, e: Edit)
    requires Whole(OwnersOf(g)) && e.Annotate? && !Edited(g, e).1
    ensures Whole(OwnersOf(Edited(g, e).0))
  {
    hide Whole, Annotated, SameRelations, OwnersOf, WithOwners;
    var s := OwnersOf(g);
    OwnersKeys(g);
    var o' := Annotated(g.entities[e.h].owner, e.key, e.position, e.metaKey, e.v).value;
    AnnotatedIsSame(s[e.h], e.key, e.position, e.metaKey, e.v, o');
    SameRelationsExtend(s, e.h, o');
    OneOwner(g, e.h, o');
    OwnersBack(g, s[e.h := o']);
    ExtendedIsWhole(s, s[e.h := o']);
  }

  lemma CreateKeepsWhole(g: Graph, e: Edit)
    requires Whole(OwnersOf(g)) && e.Create? && !Edited(g, e).1
    ensures Whole(OwnersOf(Edited(g, e).0))
  {
    var s, r := OwnersOf(g), OwnersOf(Edited(g, e).0);
    forall x | x in r ensures if x in s then r[x] == s[x] else r[x].properties.Keys == {TYPE} { }
    hide Whole, TypeRecord, Registered, IdFor, OwnersOf, Created;
    NewcomersExtend(s, r);
    ExtendedIsWhole(s, r);
  }

  lemma NewcomersExtend(s: Store, r: Store)
    requires s.Keys <= r.Keys && forall x :: x in r ==> if x in s then r[x] == s[x] else r[x].properties.Keys == {TYPE}
    ensures Extends(s, r)
  {
    hide Refs, RefOf;
    forall x ensures ParentValues(r, x) == ParentValues(s, x) && ChildValues(r, x) == ChildValues(s, x) { }
  }

  /** An edit that completes keeps the mirror. */
  lemma EditKeepsMirror(g: Graph, e: Edit)
    requires Ready(g) && Whole(OwnersOf(g)) && !Edited(g, e).1
    ensures Whole(OwnersOf(Edited(g, e).0))
  {
    hide Ready, Whole, Created, Registered, IdFor, PutInto, Annotated, WithOwners;
    match e
    case Create(_, _, _) => CreateKeepsWhole(g, e);
    case Declare(_, _) => assert OwnersOf(Edited(g, e).0) == OwnersOf(g);
    case Put(_, _, _) => PutKeepsWhole(g, e);
    case Annotate(_, _, _, _, _) => AnnotateKeepsWhole(g, e);
  }

  lemma {:induction false} BodyKeepsMirror(g: Graph, edits: seq<Edit>)
    requires Ready(g) && Whole(OwnersOf(g)) && GoodBody(g, edits) && !Body(g, edits).1
    ensures Whole(OwnersOf(Body(g, edits).0))
  {
    hide Ready, Whole, GoodEdit, Edited, Survives, Bounded, OwnersOf;
    if edits != [] {
      var init := edits[..|edits| - 1];
      BodyKeepsMirror(g, init);
      BodyKeepsReady(g, init);
      EditKeepsMirror(Body(g, init).0, edits[|edits| - 1]);
    }
  }

  // ---------- what undoing keeps ----------

  lemma EqualLists(p: Property, q: Property)
    requires PropertyEqual(p, q)
    ensures |p.values| == |q.values| && forall i :: 0 <= i < |p.values| ==> RefOf(q.values[i]) == RefOf(p.values[i])
  {
    hide Certainty;
    forall i | 0 <= i < |p.values| ensures RefOf(q.values[i]) == RefOf(p.values[i]) { assert ValueEqual(p.values[i], q.values[i]); }
  }

  lemma EqualTables(a: Owner, b: Owner, key: nat)
    requires |a.properties| == |b.properties|
    requires forall k :: k in a.properties ==> k in b.properties && PropertyEqual(a.properties[k], b.properties[k])
    ensures key in a.properties <==> key in b.properties
    ensures key in a.properties ==> |a.properties[key].values| == |b.properties[key].values|
    ensures key in a.properties ==>
      forall i :: 0 <= i < |a.properties[key].values| ==> RefOf(b.properties[key].values[i]) == RefOf(a.properties[key].values[i])
  {
    hide PropertyEqual, RefOf;
    assert a.properties.Keys <= b.properties.Keys && |a.properties.Keys| == |b.properties.Keys|;
    Stability.SameKeys(a.properties.Keys, b.properties.Keys);
    if key in a.properties { EqualLists(a.properties[key], b.properties[key]); }
  }

  lemma EqualTree(g: Graph, g': Graph, x: Handle)
    requires GraphEqual(g, g') && g'.entities.Keys == g.entities.Keys
    ensures Parents(OwnersOf(g'), x) == Parents(OwnersOf(g), x) && Children(OwnersOf(g'), x) == Children(OwnersOf(g), x)
  {
    OwnersKeys(g);
    OwnersKeys(g');
    if x in g.entities {
      assert EntityEqual(g.entities[x], g'.entities[x]);
      hide OwnersOf, GraphEqual, PropertyEqual;
      EqualLevels(OwnersOf(g), OwnersOf(g'), x);
    }
  }

  lemma EqualLevels(s: Store, r: Store, x: Handle)
    requires x in s && x in r && |s[x].properties| == |r[x].properties|
    requires forall k :: k in s[x].properties ==> k in r[x].properties && PropertyEqual(s[x].properties[k], r[x].properties[k])
    ensures Parents(r, x) == Parents(s, x) && Children(r, x) == Children(s, x)
  {
    hide PropertyEqual, RefOf;
    EqualTables(s[x], r[x], SUBSET_OF);
    EqualTables(s[x], r[x], SUPERSET_OF);
    SameRefs(ChildValues(r, x), ChildValues(s, x));
  }

  lemma ReloadedLists(g: Graph)
    requires SoundEntities(g)
    ensures Listing(OwnersOf(ReloadedGraph(g)))
  {
    hide SoundEntity, ReloadedEntity;
    var r := OwnersOf(ReloadedGraph(g));
    forall h | HasKey(r, h, SUPERSET_OF) ensures r[h].properties[SUPERSET_OF].kind != ConcreteSingle {
      SingleType(g.entities[h]);
    }
  }

  lemma RecoveryKeepsMirror(d: Database, partial: Graph, record: Value, pristine: Graph)
    requires InStep(d) && Healthy(d.graph) && Whole(OwnersOf(d.graph))
    ensures Whole(OwnersOf(Recovered(Database(partial, d.file), record, pristine).0.graph))
  {
    hide InStep, Healthy, GraphEqual, Stability.FineGraph, SoundEntities, Load, Holds, ReloadedGraph, Parents, Children, Listing, OwnersOf;
    var g := HeldGraph(d);
    HeldLoads(d.file, g, record);
    var g' := Recovered(Database(partial, d.file), record, pristine).0.graph;
    assert g' == ReloadedGraph(g);
    RecoveryRestores(d, partial, record, pristine);
    ReloadedLists(g);
    SameEntities(d.graph, g');
    forall x ensures Parents(OwnersOf(g'), x) == Parents(OwnersOf(d.graph), x) && Children(OwnersOf(g'), x) == Children(OwnersOf(d.graph), x) {
      EqualTree(d.graph, g', x);
    }
    OwnersKeys(d.graph);
    OwnersKeys(g');
    ExtendedIsWhole(OwnersOf(d.graph), OwnersOf(g'));
  }

  lemma SameEntities(g: Graph, g': Graph)
    requires GraphEqual(g, g')
    ensures g'.entities.Keys == g.entities.Keys
  {
    hide EntityEqual;
    assert g.entities.Keys <= g'.entities.Keys && |g.entities.Keys| == |g'.entities.Keys|;
    Stability.SameKeys(g.entities.Keys, g'.entities.Keys);
  }

  // ---------- over every run ----------

  /** A MERGE that completes removes an entity others may have as their parent. */
  ghost predicate MergesNothing(g: Graph, r: Request) { r.MergeRequest? ==> Throws(g, CallOf(g, r)) }

  lemma CompletedKeepsMirror(g: Graph, r: Request)
    requires Ready(g) && Reasonable(g, r) && MergesNothing(g, r) && !Throws(g, CallOf(g, r)) && Whole(OwnersOf(g))
    ensures Whole(OwnersOf(Completed(g, CallOf(g, r))))
  {
    hide Ready, Body, GoodBody, Whole, OwnersOf, SameButLinks, Healthy, SoundEntities, Fits, LinkedGraph, UnlinkedGraph, Counted, MergeCall;
    ChangeCompletes(g, CallOf(g, r));
    if r.InsertRequest? {
      BodyKeepsMirror(g, r.edits);
    } else {
      ReadyIsHealthy(g);
      CompletedIsHealthy(g, CallOf(g, r));
      SameButLinksIsSame(g, Completed(g, CallOf(g, r)));
    }
  }

  lemma SameButLinksIsSame(g: Graph, g': Graph)
    requires SameButLinks(g, g')
    ensures OwnersOf(g') == OwnersOf(g)
  {
    forall h | h in g.entities ensures g'.entities[h].owner == g.entities[h].owner {
      assert g'.entities[h].(status := g.entities[h].status) == g.entities[h];
    }
  }

  lemma RequestKeepsMirror(d: Database, r: Request, record: Value, pristine: Graph)
    requires InStep(d) && Ready(d.graph) && Reasonable(d.graph, r) && MergesNothing(d.graph, r) && Whole(OwnersOf(d.graph))
    ensures Whole(OwnersOf(Persistence.Step(d, CallOf(d.graph, r), record, pristine).0.graph))
  {
    hide Ready, Reasonable, CallOf, InStep, Healthy, Whole, OwnersOf, Completed, Recovered, Partial, FileOf, MergesNothing;
    ReadyIsHealthy(d.graph);
    if Throws(d.graph, CallOf(d.graph, r)) {
      RecoveryKeepsMirror(d, Partial(d.graph, CallOf(d.graph, r)), record, pristine);
    } else {
      CompletedKeepsMirror(d.graph, r);
    }
  }

  /** After every prefix of a run of LINK, UNLINK and INSERT, and of MERGE as long as
      it throws, every parent is live and lists its child, whoever is locked and
      wherever a call was aborted: the half of a relation that an insert leaves when
      it throws is undone with the call. */
  lemma {:induction false} RunStaysMirrored(d: Database, requests: seq<Request>, record: Value, pristine: Graph, trace: seq<Database>, i: nat)
    requires Runs.Run(d, requests, record, pristine, trace) && i <= |requests|
    requires InStep(d) && Ready(d.graph) && Whole(OwnersOf(d.graph))
    requires forall j :: 0 <= j < |requests| ==> MergesNothing(trace[j].graph, requests[j])
    ensures Mirrored(OwnersOf(trace[i].graph)) && Whole(OwnersOf(trace[i].graph))
  {
    hide InStep, Ready, Persistence.Step, Reasonable, CallOf, OwnersOf, Mirrored, Listing;
    if i > 0 {
      RunStaysMirrored(d, requests, record, pristine, trace, i - 1);
      RunStaysInStep(d, requests, record, pristine, trace, i - 1);
      assert Runs.Makes(trace[i - 1], requests[i - 1], record, pristine, trace[i - 1 + 1]);
      RequestKeepsMirror(trace[i - 1], requests[i - 1], record, pristine);
    }
  }
}
