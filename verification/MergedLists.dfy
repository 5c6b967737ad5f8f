/** What a MERGE leaves in every list: all values of both, in the hierarchy the
    references of the other side too; and when a MERGE completes. */
module MergedLists {
  import opened GraphFile
  import opened Hierarchy
  import opened Merging
  import opened Properties
  import opened Records
  import opened Sorting

  // ---------- one list joined with the values of another ----------

  /** A value but for its number in the list. */
  function Unnumbered(v: Value): Value { v.(orderingId := 0) }

  function AllUnnumbered(vs: seq<Value>): (r: seq<Value>)
    ensures |r| == |vs| && forall i :: 0 <= i < |r| ==> r[i] == Unnumbered(vs[i])
  {
    seq(|vs|, i requires 0 <= i < |vs| => Unnumbered(vs[i]))
  }

  /** The list with these values behind its own, sorted and numbered; a list with one
      place keeps the last. */
  function Gathered(p: Property, vs: seq<Value>): Property {
    if vs == [] then p
    else if p.kind == ConcreteSingle then p.(values := [vs[|vs| - 1].(orderingId := 0)])
    else p.(values := Sorted(p.values + vs))
  }

  /** The list takes these values. */
  predicate Takes(p: Property, vs: seq<Value>) {
    vs == [] || (p.kind != Locked && forall i :: 0 <= i < |vs| ==> vs[i].subtype == p.subtype && (p.kind != Fuzzy ==> Certainty(vs[i]) == 100))
  }

  /** Two lists that differ in numbers only. */
  ghost predicate SameButNumbers(a: seq<Value>, b: seq<Value>) {
    |a| == |b| && forall i :: 0 <= i < |a| ==> Unnumbered(a[i]) == Unnumbered(b[i])
  }

  lemma CertaintyUnnumbered(v: Value, i: nat)
    ensures Certainty(v.(orderingId := i)) == Certainty(v)
  {
  }

  lemma SameCertainty(v: Value, w: Value)
    requires Unnumbered(v) == Unnumbered(w)
    ensures Certainty(v) == Certainty(w)
  {
    CertaintyUnnumbered(v, 0);
    CertaintyUnnumbered(w, 0);
  }

  lemma {:induction false} InsertUnnumbered(a: seq<Value>, b: seq<Value>, v: Value)
    requires SameButNumbers(a, b)
    ensures SameButNumbers(InsertStable(a, ByCertainty(), v), InsertStable(b, ByCertainty(), v))
  {
    hide Certainty;
    if a != [] {
      SameCertainty(a[|a| - 1], b[|b| - 1]);
      InsertUnnumbered(a[..|a| - 1], b[..|b| - 1], v);
    }
  }

  lemma RenumberedAlike(a: seq<Value>, b: seq<Value>)
    requires SameButNumbers(a, b)
    ensures Renumbered(a) == Renumbered(b)
  {
    forall i | 0 <= i < |a| ensures Renumbered(a)[i] == Renumbered(b)[i] {
      assert a[i].(orderingId := i) == Unnumbered(a[i]).(orderingId := i);
      assert b[i].(orderingId := i) == Unnumbered(b[i]).(orderingId := i);
    }
  }

  /** Sorting what has been sorted and numbered, and one more. */
  lemma SortedAgain(vs: seq<Value>, v: Value)
    ensures Sorted(Sorted(vs) + [v]) == Sorted(vs + [v])
  {
    hide Certainty;
    var s := StableSort(vs, ByCertainty());
    SortedIsValid(vs);
    StableSortIsStableSort(vs, ByCertainty());
    SortAppended(Sorted(vs), ByCertainty(), v);
    assert (vs + [v])[..|vs|] == vs;
    hide StableSort, Descending;
    assert SameButNumbers(Sorted(vs), s);
    InsertUnnumbered(Sorted(vs), s, v);
    RenumberedAlike(InsertStable(Sorted(vs), ByCertainty(), v), InsertStable(s, ByCertainty(), v));
  }

  lemma TakesOneMore(p: Property, vs: seq<Value>, v: Value)
    ensures Takes(p, vs + [v]) <==> Takes(p, vs) && Takes(p, [v])
  {
    hide Certainty;
    var all := vs + [v];
    assert all[|vs|] == v && forall i :: 0 <= i < |vs| ==> all[i] == vs[i];
    if Takes(p, vs) && Takes(p, [v]) { assert [v][0] == v; }
  }

  /** One value behind those gathered. */
  lemma GatheredOneMore(p: Property, vs: seq<Value>, v: Value)
    ensures Appended(Gathered(p, vs), v).Done? <==> Takes(p, [v])
    ensures Takes(p, [v]) ==> Appended(Gathered(p, vs), v).value == Gathered(p, vs + [v])
  {
    hide Certainty, Sorted;
    assert [v][0] == v;
    if vs == [] {
      assert vs + [v] == [v];
    } else {
      SortedAgain(p.values + vs, v);
      assert p.values + vs + [v] == p.values + (vs + [v]);
    }
  }

  /** Appending value by value leaves the list with all of them, and goes through
      exactly if the list takes every one. */
  lemma {:induction false} AppendEachGathers(p: Property, vs: seq<Value>)
    ensures AppendEach(p, vs).Done? <==> Takes(p, vs)
    ensures AppendEach(p, vs).Done? ==> AppendEach(p, vs).value == Gathered(p, vs)
  {
    if vs != [] {
      var init, v := vs[..|vs| - 1], vs[|vs| - 1];
      assert vs == init + [v];
      hide Takes, Gathered, Appended;
      AppendEachGathers(p, init);
      TakesOneMore(p, init, v);
      GatheredOneMore(p, init, v);
    }
  }

  /** Appending a list to a fuzzy one at once is appending its values one by one. */
  lemma AppendAllIsEach(p: Property, vs: seq<Value>)
    requires p.kind == Fuzzy && vs != []
    ensures AppendedAll(p, vs) == AppendEach(p, vs)
  {
    hide Certainty, Sorted;
    AppendEachGathers(p, vs);
  }

  /** What gathering keeps: every value of both lists, as often as it is in them, by
      descending certainty, those of equal certainty in the order they had, the list's
      own first, and numbered from zero. */
  lemma GatheredHoldsAll(p: Property, vs: seq<Value>)
    requires vs != [] && p.kind != ConcreteSingle
    ensures var r := Gathered(p, vs);
      && r.(values := p.values) == p && Canonical(r.values) && Descending(r.values, ByCertainty())
      && multiset(AllUnnumbered(r.values)) == multiset(AllUnnumbered(p.values + vs))
      && forall c :: AllUnnumbered(WithKey(r.values, ByCertainty(), c)) == AllUnnumbered(WithKey(p.values + vs, ByCertainty(), c))
  {
    hide Certainty, StableSort;
    var all := p.values + vs;
    var s := StableSort(all, ByCertainty());
    StableSortIsStableSort(all, ByCertainty());
    SortedIsValid(all);
    assert AllUnnumbered(Sorted(all)) == AllUnnumbered(s);
    UnnumberedPermute(s, all);
    forall c ensures AllUnnumbered(WithKey(Sorted(all), ByCertainty(), c)) == AllUnnumbered(WithKey(all, ByCertainty(), c)) {
      WithKeyUnnumbered(Sorted(all), s, c);
    }
  }

  lemma {:induction false} WithKeyUnnumbered(a: seq<Value>, b: seq<Value>, c: int)
    requires SameButNumbers(a, b)
    ensures AllUnnumbered(WithKey(a, ByCertainty(), c)) == AllUnnumbered(WithKey(b, ByCertainty(), c))
  {
    hide Certainty;
    if a != [] {
      SameCertainty(a[|a| - 1], b[|b| - 1]);
      WithKeyUnnumbered(a[..|a| - 1], b[..|b| - 1], c);
    }
  }

  lemma OneLess(b: seq<Value>, i: nat)
    requires i < |b|
    ensures var rest := b[..i] + b[i + 1..];
      && multiset(b) == multiset(rest) + multiset{b[i]}
      && multiset(AllUnnumbered(b)) == multiset(AllUnnumbered(rest)) + multiset{Unnumbered(b[i])}
  {
    assert b == b[..i] + ([b[i]] + b[i + 1..]);
    assert AllUnnumbered(b) == AllUnnumbered(b[..i]) + ([Unnumbered(b[i])] + AllUnnumbered(b[i + 1..]));
    assert AllUnnumbered(b[..i] + b[i + 1..]) == AllUnnumbered(b[..i]) + AllUnnumbered(b[i + 1..]);
  }

  /** Both lists less the same value. */
  lemma SameLess(a: seq<Value>, b: seq<Value>, i: nat) returns (restA: seq<Value>, restB: seq<Value>)
    requires multiset(a) == multiset(b) && a != [] && i < |b| && b[i] == a[0]
    ensures multiset(restA) == multiset(restB) && |restA| == |a| - 1
    ensures multiset(AllUnnumbered(restA)) == multiset(AllUnnumbered(restB)) ==>
      multiset(AllUnnumbered(a)) == multiset(AllUnnumbered(b))
  {
    hide Unnumbered, AllUnnumbered;
    restA, restB := a[..0] + a[0 + 1..], b[..i] + b[i + 1..];
    OneLess(a, 0);
    OneLess(b, i);
    Cancel(multiset(restA), multiset(restB), a[0]);
  }

  lemma Cancel(x: multiset<Value>, y: multiset<Value>, u: Value)
    requires x + multiset{u} == y + multiset{u}
    ensures x == y
  {
    forall v ensures x[v] == y[v] { assert (x + multiset{u})[v] == (y + multiset{u})[v]; }
  }

  lemma {:induction false} UnnumberedPermute(a: seq<Value>, b: seq<Value>)
    requires multiset(a) == multiset(b)
    ensures multiset(AllUnnumbered(a)) == multiset(AllUnnumbered(b))
    decreases |a|
  {
    hide Unnumbered, AllUnnumbered;
    if a == [] {
      assert |multiset(b)| == 0;
      assert b == [];
    } else {
      assert a[0] in multiset(b);
      var i :| 0 <= i < |b| && b[i] == a[0];
      var restA, restB := SameLess(a, b, i);
      UnnumberedPermute(restA, restB);
    }
  }

  // ---------- the lists of a merge outside the hierarchy ----------

  /** Of every unlocked property that is no relation the survivor holds all values of
      both, or, in a list with one place, the loser's last; what it had not, it takes
      over; and no other list of any other entity is different. */
  lemma MergeGathers(g: Graph, a: Handle, b: Handle, x: Handle, k: nat)
    requires SoundEntities(g) && a != b && !MergeCall(g, a, b).threw && !Relation(k)
    requires x in g.entities && x != Higher(a, b)
    ensures Higher(a, b) in g.entities && x in MergeCall(g, a, b).after.entities
    ensures var own, added := g.entities[x].owner.properties, g.entities[Higher(a, b)].owner.properties;
      var r := MergeCall(g, a, b).after.entities[x].owner.properties;
      if x == Lower(a, b) && k in added && added[k].kind != Locked
      then k in r && r[k] == (if k in own then Gathered(own[k], added[k].values) else added[k])
      else (k in r <==> k in own) && (k in own ==> r[k] == own[k])
  {
    MergeCallIs(g, a, b);
    hide AbsorbAll, Absorbed, MergeCall, SoundEntities, Listed, Typed, TypeOf, Gathered;
    MergeCombines(g, a, b, x, k);
    MergedOwner(g, a, b, x);
    ListedKeys(g, Higher(a, b));
    var own, loser := g.entities[x].owner, g.entities[Higher(a, b)].owner;
    if x == Lower(a, b) && k in loser.properties && loser.properties[k].kind != Locked && k in own.properties {
      AppendEachGathers(own.properties[k], loser.properties[k].values);
      LoopTakes(OwnersOf(g), x, loser, k);
    }
  }

  /** A loop that goes through has appended the property. */
  lemma LoopTakes(s: Store, h: Handle, loser: Owner, k: nat)
    requires h in s && !Relation(k) && AbsorbAll(s, h, Listed(loser)).Merged? && KeysMatch(loser)
    requires k in loser.properties && loser.properties[k].kind != Locked && k in s[h].properties
    ensures AppendEach(s[h].properties[k], loser.properties[k].values).Done?
  {
    hide AbsorbAll, AppendEach;
    var ps := Listed(loser);
    var i :| 0 <= i < |ps| && KeysOf(loser)[i] == k;
    StepMerges(s, h, ps, i);
    LoopTouches(s, h, ps[..i], h, k);
    StepAppends(AbsorbAll(s, h, ps[..i]).s, h, ps[i]);
  }

  lemma StepAppends(s: Store, h: Handle, p: Property)
    requires h in s && !Relation(p.key) && Absorb(s, h, p).Merged? && p.key in s[h].properties
    ensures AppendEach(s[h].properties[p.key], p.values).Done? && !s[h].locked
  {
    hide AppendEach;
  }

  /** A loop that goes through has gone through every step. */
  lemma {:induction false} StepMerges(s: Store, h: Handle, ps: seq<Property>, i: nat)
    requires h in s && i < |ps| && AbsorbAll(s, h, ps).Merged?
    ensures AbsorbAll(s, h, ps[..i]).Merged?
    ensures ps[i].kind != Locked ==> Absorb(AbsorbAll(s, h, ps[..i]).s, h, ps[i]).Merged?
    ensures AbsorbAll(s, h, ps[..i + 1]).Merged?
  {
    hide Absorb;
    var n := |ps| - 1;
    if i < n {
      StepMerges(s, h, ps[..n], i);
      assert ps[..n][..i] == ps[..i] && ps[..n][..i + 1] == ps[..i + 1];
    } else {
      assert ps[..i + 1] == ps;
    }
  }

  lemma {:induction false} LoopKeepsKeys(s: Store, h: Handle, ps: seq<Property>)
    requires h in s && AbsorbAll(s, h, ps).Merged?
    ensures AbsorbAll(s, h, ps).s.Keys == s.Keys
  {
  }

  /** The lower handle is kept, whichever is named first. */
  lemma KeeperIsLower(a: Handle, b: Handle)
    ensures if a <= b then Lower(a, b) == a && Higher(a, b) == b else Lower(a, b) == b && Higher(a, b) == a
  {
  }

  /** Apart from the loser, the higher of the two, and from lists of values everything
      is as it was. */
  lemma MergeLeavesRest(g: Graph, a: Handle, b: Handle)
    requires !MergeCall(g, a, b).threw
    ensures Higher(a, b) == if a <= b then b else a
    ensures var g' := MergeCall(g, a, b).after;
      && g' == g.(entities := g'.entities) && g'.entities.Keys == g.entities.Keys - {Higher(a, b)}
      && forall x :: x in g'.entities ==>
           && g'.entities[x] == g.entities[x].(owner := g'.entities[x].owner)
           && g'.entities[x].owner.locked == g.entities[x].owner.locked
  {
    MergeCallIs(g, a, b);
    hide AbsorbAll, Listed, Typed, TypeOf;
    LoopKeepsLocks(OwnersOf(g), Lower(a, b), Listed(g.entities[Higher(a, b)].owner));
    LoopKeepsKeys(OwnersOf(g), Lower(a, b), Listed(g.entities[Higher(a, b)].owner));
  }

  // ---------- the lists of the hierarchy ----------

  datatype MaybeList = NoList | AList(p: Property)

  function ListAt(o: Owner, k: nat): MaybeList { if k in o.properties then AList(o.properties[k]) else NoList }

  /** One reference more. */
  function WithRef(l: MaybeList, k: nat, v: Value): MaybeList {
    AList(Gathered(if l.AList? then l.p else Property(KindOf(k), k, v.subtype, []), [v]))
  }

  /** The values of a whole list more. */
  function WithList(l: MaybeList, p: Property): MaybeList {
    if l.NoList? then AList(p) else AList(Gathered(l.p, p.values))
  }

  /** What a property of the loser adds to the list of x under the relation k: its
      values to the list of the keeper h, and a reference to h to the list opposite of
      the entity that its top names. */
  function Added(l: MaybeList, h: Handle, p: Property, x: Handle, k: nat): MaybeList {
    if !Relation(p.key) || p.kind == Locked then l
    else if p.key == k then (if x == h then WithList(l, p) else l)
    else if p.values != [] && x == RefOf(p.values[0]) then WithRef(l, k, MakeRef(h, Certainty(p.values[0])))
    else l
  }

  lemma AppendedIsGathered(p: Property, v: Value)
    ensures Appended(p, v).Done? <==> Takes(p, [v])
    ensures Appended(p, v).Done? ==> Appended(p, v).value == Gathered(p, [v])
  {
    AppendEachGathers(p, [v]);
    assert [v][..0] == [];
    hide Appended, Takes, Gathered;
  }

  lemma LocalAdds(s: Store, h: Handle, key: nat, v: Value, x: Handle, k: nat)
    requires h in s && x in s && Relation(key) && !InsertLocal(s, h, key, v, KindOf(key)).threw
    ensures var r := InsertLocal(s, h, key, v, KindOf(key)).store;
      r.Keys == s.Keys && ListAt(r[x], k) == (if x == h && k == key then WithRef(ListAt(s[x], k), k, v) else ListAt(s[x], k))
  {
    hide Appended, Gathered;
    AppendedIsGathered(if key in s[h].properties then s[h].properties[key] else Property(KindOf(key), key, v.subtype, []), v);
  }

  lemma WholeAdds(s: Store, h: Handle, p: Property, x: Handle, k: nat)
    requires h in s && x in s && AbsorbLocal(s, h, p).Merged?
    ensures var r := AbsorbLocal(s, h, p).s;
      r.Keys == s.Keys && ListAt(r[x], k) == (if x == h && k == p.key then WithList(ListAt(s[x], k), p) else ListAt(s[x], k))
  {
    hide AppendEach, Gathered;
    if p.key in s[h].properties { AppendEachGathers(s[h].properties[p.key], p.values); }
  }

  lemma StepAdds(s: Store, h: Handle, p: Property, x: Handle, k: nat)
    requires h in s && x in s && Relation(k) && p.kind != Locked && Absorb(s, h, p).Merged?
    ensures ListAt(Absorb(s, h, p).s[x], k) == Added(ListAt(s[x], k), h, p, x, k)
  {
    hide AbsorbLocal, InsertLocal, MakeRef, Certainty, RefOf, WithRef, WithList;
    if Relation(p.key) {
      var top := p.values[0];
      var m := InsertLocal(s, RefOf(top), OtherKey(p.key), MakeRef(h, Certainty(top)), KindOf(OtherKey(p.key))).store;
      LocalAdds(s, RefOf(top), OtherKey(p.key), MakeRef(h, Certainty(top)), x, k);
      WholeAdds(m, h, p, x, k);
    } else {
      WholeAdds(s, h, p, x, k);
    }
  }

  function AllAdded(l: MaybeList, h: Handle, ps: seq<Property>, x: Handle, k: nat): MaybeList {
    if ps == [] then l else Added(AllAdded(l, h, ps[..|ps| - 1], x, k), h, ps[|ps| - 1], x, k)
  }

  lemma {:induction false} LoopAdds(s: Store, h: Handle, ps: seq<Property>, x: Handle, k: nat)
    requires h in s && x in s && Relation(k) && AbsorbAll(s, h, ps).Merged?
    ensures ListAt(AbsorbAll(s, h, ps).s[x], k) == AllAdded(ListAt(s[x], k), h, ps, x, k)
  {
    hide Absorb, Added, ListAt;
    if ps != [] {
      var init, p := ps[..|ps| - 1], ps[|ps| - 1];
      LoopAdds(s, h, init, x, k);
      if p.kind == Locked { LockedAddsNothing(ListAt(AbsorbAll(s, h, init).s[x], k), h, p, x, k); }
      else { StepAdds(AbsorbAll(s, h, init).s, h, p, x, k); }
    }
  }

  lemma LockedAddsNothing(l: MaybeList, h: Handle, p: Property, x: Handle, k: nat)
    requires p.kind == Locked
    ensures Added(l, h, p, x, k) == l
  {
  }

  /** The loser's property of this key has been dealt with among the first n. */
  ghost predicate Dealt(loser: Owner, key: nat, n: nat)
    requires n <= |KeysOf(loser)|
  {
    key in loser.properties && key in KeysOf(loser)[..n]
  }

  /** First what the loser is below, then what is below it. */
  ghost function Both(l: MaybeList, h: Handle, loser: Owner, x: Handle, k: nat, n: nat): MaybeList
    requires n <= |KeysOf(loser)|
  {
    var l' := if Dealt(loser, SUBSET_OF, n) then Added(l, h, loser.properties[SUBSET_OF], x, k) else l;
    if Dealt(loser, SUPERSET_OF, n) then Added(l', h, loser.properties[SUPERSET_OF], x, k) else l'
  }

  lemma DealtNext(loser: Owner, key: nat, n: nat)
    requires 0 < n <= |KeysOf(loser)|
    ensures Dealt(loser, key, n) <==> Dealt(loser, key, n - 1) || KeysOf(loser)[n - 1] == key
    ensures KeysOf(loser)[n - 1] <= key ==> !Dealt(loser, key, n - 1)
  {
    var keys := KeysOf(loser);
    assert keys[..n] == keys[..n - 1] + [keys[n - 1]];
    assert keys[n - 1] in keys;
  }

  lemma BothNext(l: MaybeList, h: Handle, loser: Owner, x: Handle, k: nat, n: nat)
    requires KeysMatch(loser) && 0 < n <= |KeysOf(loser)|
    ensures Both(l, h, loser, x, k, n) == Added(Both(l, h, loser, x, k, n - 1), h, Listed(loser)[n - 1], x, k)
  {
    var p := Listed(loser)[n - 1];
    assert p == loser.properties[KeysOf(loser)[n - 1]] && p.key == KeysOf(loser)[n - 1];
    DealtNext(loser, SUBSET_OF, n);
    DealtNext(loser, SUPERSET_OF, n);
    hide Added, Dealt, Listed;
    if !Relation(p.key) { OtherAddsNothing(Both(l, h, loser, x, k, n - 1), h, p, x, k); }
  }

  /** What the first n properties of the loser have added. */
  ghost function AddedByFirst(l: MaybeList, h: Handle, loser: Owner, x: Handle, k: nat, n: nat): MaybeList
    requires n <= |Listed(loser)|
  {
    AllAdded(l, h, Listed(loser)[..n], x, k)
  }

  lemma AddedByNext(l: MaybeList, h: Handle, loser: Owner, x: Handle, k: nat, n: nat)
    requires 0 < n <= |Listed(loser)|
    ensures AddedByFirst(l, h, loser, x, k, n) == Added(AddedByFirst(l, h, loser, x, k, n - 1), h, Listed(loser)[n - 1], x, k)
  {
    var ps := Listed(loser);
    hide Added, Listed;
    assert ps[..n][..n - 1] == ps[..n - 1];
  }

  lemma {:induction false} BothAreAdded(l: MaybeList, h: Handle, loser: Owner, x: Handle, k: nat, n: nat)
    requires KeysMatch(loser) && n <= |KeysOf(loser)| && Relation(k)
    ensures AddedByFirst(l, h, loser, x, k, n) == Both(l, h, loser, x, k, n)
  {
    if n == 0 {
      NoneDealt(l, h, loser, x, k);
    } else {
      hide Added, Both, KeysMatch, AddedByFirst;
      BothAreAdded(l, h, loser, x, k, n - 1);
      BothNext(l, h, loser, x, k, n);
      AddedByNext(l, h, loser, x, k, n);
    }
  }

  lemma NoneDealt(l: MaybeList, h: Handle, loser: Owner, x: Handle, k: nat)
    ensures Both(l, h, loser, x, k, 0) == l
  {
  }

  lemma OtherAddsNothing(l: MaybeList, h: Handle, p: Property, x: Handle, k: nat)
    requires !Relation(p.key)
    ensures Added(l, h, p, x, k) == l
  {
  }

  /** What the loser is below, or what is below it, unless that list is locked. */
  function AddedAt(l: MaybeList, h: Handle, loser: Owner, key: nat, x: Handle, k: nat): MaybeList {
    if key in loser.properties && loser.properties[key].kind != Locked then Added(l, h, loser.properties[key], x, k) else l
  }

  /** Under the two relations: the survivor's list has the loser's values joined to its
      own, and the list opposite of the entity that the loser's top names has one
      reference more, to the survivor; first for the parents, then for the children. */
  lemma MergeGathersRelations(g: Graph, a: Handle, b: Handle, x: Handle, k: nat)
    requires SoundEntities(g) && a != b && !MergeCall(g, a, b).threw && Relation(k)
    requires x in g.entities && x != Higher(a, b)
    ensures Higher(a, b) in g.entities && x in MergeCall(g, a, b).after.entities
    ensures var h, own, loser := Lower(a, b), g.entities[x].owner, g.entities[Higher(a, b)].owner;
      ListAt(MergeCall(g, a, b).after.entities[x].owner, k)
        == AddedAt(AddedAt(ListAt(own, k), h, loser, SUBSET_OF, x, k), h, loser, SUPERSET_OF, x, k)
  {
    MergeCallIs(g, a, b);
    hide AbsorbAll, Absorbed, MergeCall, SoundEntities, Listed, Typed, TypeOf, ListAt, Added, AllAdded;
    MergedOwner(g, a, b, x);
    ListedKeys(g, Higher(a, b));
    var loser := g.entities[Higher(a, b)].owner;
    var l, ps := ListAt(g.entities[x].owner, k), Listed(loser);
    LoopAdds(OwnersOf(g), Lower(a, b), ps, x, k);
    BothAreAdded(l, Lower(a, b), loser, x, k, |ps|);
    assert ps[..|ps|] == ps && KeysOf(loser)[..|ps|] == KeysOf(loser);
    BothIs(l, Lower(a, b), loser, x, k);
  }

  lemma BothIs(l: MaybeList, h: Handle, loser: Owner, x: Handle, k: nat)
    ensures Both(l, h, loser, x, k, |KeysOf(loser)|) == AddedAt(AddedAt(l, h, loser, SUBSET_OF, x, k), h, loser, SUPERSET_OF, x, k)
  {
    assert KeysOf(loser)[..|KeysOf(loser)|] == KeysOf(loser);
  }

  /** Every list of the graph after a merge, as the graph before tells. */
  ghost predicate ListsMerged(g: Graph, g': Graph, a: Handle, b: Handle) {
    && Higher(a, b) in g.entities
    && forall x :: x in g.entities && x != Higher(a, b) ==>
         x in g'.entities && OwnerMerged(g.entities[x].owner, g'.entities[x].owner, Lower(a, b), g.entities[Higher(a, b)].owner, x)
  }

  ghost predicate OwnerMerged(own: Owner, r: Owner, h: Handle, loser: Owner, x: Handle) {
    forall k :: ListAt(r, k) ==
      if Relation(k) then AddedAt(AddedAt(ListAt(own, k), h, loser, SUBSET_OF, x, k), h, loser, SUPERSET_OF, x, k)
      else if x == h && k in loser.properties && loser.properties[k].kind != Locked then WithList(ListAt(own, k), loser.properties[k])
      else ListAt(own, k)
  }

  /** A merge that completes leaves in every list what is said above. */
  lemma MergeMergesLists(g: Graph, a: Handle, b: Handle)
    requires SoundEntities(g) && a != b && !MergeCall(g, a, b).threw
    ensures ListsMerged(g, MergeCall(g, a, b).after, a, b)
  {
    MergeCallIs(g, a, b);
    hide SoundEntities, MergeCall, Absorbed, Typed, TypeOf, AddedAt, Gathered, WithList;
    forall x | x in g.entities && x != Higher(a, b)
      ensures x in MergeCall(g, a, b).after.entities
      ensures OwnerMerged(g.entities[x].owner, MergeCall(g, a, b).after.entities[x].owner, Lower(a, b), g.entities[Higher(a, b)].owner, x)
    {
      MergeGathers(g, a, b, x, 0);
      var own, r, loser := g.entities[x].owner, MergeCall(g, a, b).after.entities[x].owner, g.entities[Higher(a, b)].owner;
      forall k ensures ListAt(r, k) ==
        if Relation(k) then AddedAt(AddedAt(ListAt(own, k), Lower(a, b), loser, SUBSET_OF, x, k), Lower(a, b), loser, SUPERSET_OF, x, k)
        else if x == Lower(a, b) && k in loser.properties && loser.properties[k].kind != Locked then WithList(ListAt(own, k), loser.properties[k])
        else ListAt(own, k)
      {
        if Relation(k) { MergeGathersRelations(g, a, b, x, k); } else { PlainListMerged(g, a, b, x, k); }
      }
    }
  }

  lemma PlainListMerged(g: Graph, a: Handle, b: Handle, x: Handle, k: nat)
    requires SoundEntities(g) && a != b && !MergeCall(g, a, b).threw && !Relation(k) && x in g.entities && x != Higher(a, b)
    ensures Higher(a, b) in g.entities && x in MergeCall(g, a, b).after.entities
    ensures var own, r, loser := g.entities[x].owner, MergeCall(g, a, b).after.entities[x].owner, g.entities[Higher(a, b)].owner;
      ListAt(r, k) == if x == Lower(a, b) && k in loser.properties && loser.properties[k].kind != Locked
                      then WithList(ListAt(own, k), loser.properties[k]) else ListAt(own, k)
  {
    hide SoundEntities, MergeCall, Gathered;
    MergeGathers(g, a, b, x, k);
  }

  function RefsOf(l: MaybeList): set<Handle> { if l.NoList? then {} else Refs(l.p.values) }

  predicate OnePlace(l: MaybeList) { l.AList? && l.p.kind == ConcreteSingle }

  /** A reference that joins a list is in it, and the only one if there is one place. */
  lemma RefJoins(l: MaybeList, k: nat, v: Value)
    ensures RefOf(v) in RefsOf(WithRef(l, k, v))
    ensures OnePlace(l) || (l.NoList? && k == SUBSET_OF) ==> RefsOf(WithRef(l, k, v)) == {RefOf(v)}
    ensures l.AList? ==> WithRef(l, k, v).p.kind == l.p.kind
    ensures l.NoList? ==> WithRef(l, k, v).p.kind == KindOf(k)
  {
    var p := if l.AList? then l.p else Property(KindOf(k), k, v.subtype, []);
    assert [v][0] == v;
    RefsGrow(p.values, v);
    RefsSorted(p.values + [v]);
    OneRef(v);
    hide Sorted, Refs, RefOf;
  }

  lemma OneRef(v: Value)
    ensures Refs([v.(orderingId := 0)]) == {RefOf(v)}
  {
    assert [v.(orderingId := 0)][0] == v.(orderingId := 0);
  }

  /** Values that join a list push nothing out of it unless it has one place. */
  lemma ListJoins(l: MaybeList, p: Property)
    requires !OnePlace(l)
    ensures RefsOf(l) <= RefsOf(WithList(l, p))
  {
    if l.AList? && p.values != [] {
      RefsSorted(l.p.values + p.values);
      forall i | 0 <= i < |l.p.values| ensures RefOf(l.p.values[i]) in Refs(l.p.values + p.values) {
        assert (l.p.values + p.values)[i] == l.p.values[i];
      }
      hide Sorted, RefOf;
    }
  }

  lemma NamedInList(l: MaybeList, h: Handle, loser: Owner, key: nat, t: Handle)
    requires KeysMatch(loser) && Relation(key) && key in loser.properties && loser.properties[key].kind != Locked
    requires loser.properties[key].values != [] && t == RefOf(loser.properties[key].values[0])
    requires key == SUBSET_OF ==> !OnePlace(l)
    ensures var k := OtherKey(key); var r := AddedAt(AddedAt(l, h, loser, SUBSET_OF, t, k), h, loser, SUPERSET_OF, t, k);
      h in RefsOf(r) && (key == SUPERSET_OF && OnePlace(r) ==> RefsOf(r) == {h})
  {
    var k, ref := OtherKey(key), MakeRef(h, Certainty(loser.properties[key].values[0]));
    MakeRefIsCertain(h, Certainty(loser.properties[key].values[0]));
    hide WithRef, WithList, RefsOf, RefOf, Certainty, MakeRef, OnePlace;
    var l' := AddedAt(l, h, loser, SUBSET_OF, t, k);
    if key == SUBSET_OF {
      RefJoins(l, k, ref);
      RefKeepsPlaces(l, k, ref);
      if SUPERSET_OF in loser.properties { ListJoins(l', loser.properties[SUPERSET_OF]); }
    } else {
      RefJoins(l', k, ref);
      RefKeepsPlaces(l', k, ref);
    }
  }

  /** The entity that the loser's top names, if it is still there, lists the survivor:
      as its parent, and the only one where it has one place for a parent; or among its
      children, which have more than one place. */
  lemma MergeNamesSurvivor(g: Graph, a: Handle, b: Handle, key: nat, t: Handle)
    requires SoundEntities(g) && a != b && !MergeCall(g, a, b).threw && Relation(key)
    requires var loser := g.entities[Higher(a, b)].owner.properties;
      key in loser && loser[key].kind != Locked && loser[key].values != [] && t == RefOf(loser[key].values[0])
    requires t in g.entities && t != Higher(a, b)
    requires key == SUBSET_OF ==> !OnePlace(ListAt(g.entities[t].owner, SUPERSET_OF))
    ensures t in MergeCall(g, a, b).after.entities
    ensures var l := ListAt(MergeCall(g, a, b).after.entities[t].owner, OtherKey(key));
      && Lower(a, b) in RefsOf(l)
      && (key == SUPERSET_OF && OnePlace(l) ==> RefsOf(l) == {Lower(a, b)})
  {
    MergeCallIs(g, a, b);
    hide SoundEntities, MergeCall, Absorbed, ListAt, AddedAt, RefsOf, RefOf, OnePlace, Typed, TypeOf, KeysMatch;
    ListedKeys(g, Higher(a, b));
    MergeGathersRelations(g, a, b, t, OtherKey(key));
    NamedInList(ListAt(g.entities[t].owner, OtherKey(key)), Lower(a, b), g.entities[Higher(a, b)].owner, key, t);
  }

  lemma RefKeepsPlaces(l: MaybeList, k: nat, v: Value)
    ensures OnePlace(WithRef(l, k, v)) <==> OnePlace(l) || (l.NoList? && KindOf(k) == ConcreteSingle)
  {
    hide Sorted;
  }

  // ---------- when a merge completes ----------

  predicate TakesRef(o: Owner, l: MaybeList, k: nat, v: Value) {
    !o.locked && Takes(if l.AList? then l.p else Property(KindOf(k), k, v.subtype, []), [v])
  }

  predicate TakesList(o: Owner, l: MaybeList, p: Property) { !o.locked && (l.AList? ==> Takes(l.p, p.values)) }

  /** The keeper takes the property, and of a relation its top names a live entity
      that takes the reference back. */
  predicate Goes(s: Store, h: Handle, p: Property)
    requires h in s
  {
    && TakesList(s[h], ListAt(s[h], p.key), p)
    && (Relation(p.key) ==>
          && p.subtype == EntityRef && p.values != [] && RefOf(p.values[0]) in s
          && var other, k := s[RefOf(p.values[0])], OtherKey(p.key);
             TakesRef(other, ListAt(other, k), k, MakeRef(h, Certainty(p.values[0]))))
  }

  lemma LocalGoesIff(s: Store, h: Handle, key: nat, v: Value)
    requires h in s && Relation(key)
    ensures !InsertLocal(s, h, key, v, KindOf(key)).threw <==> TakesRef(s[h], ListAt(s[h], key), key, v)
    ensures InsertLocal(s, h, key, v, KindOf(key)).store.Keys == s.Keys
    ensures forall x :: x in s ==> InsertLocal(s, h, key, v, KindOf(key)).store[x].locked == s[x].locked
  {
    hide Appended, Takes;
    AppendedIsGathered(if key in s[h].properties then s[h].properties[key] else Property(KindOf(key), key, v.subtype, []), v);
  }

  lemma WholeGoesIff(s: Store, h: Handle, p: Property)
    requires h in s
    ensures AbsorbLocal(s, h, p).Merged? <==> TakesList(s[h], ListAt(s[h], p.key), p)
    ensures forall x :: x in s ==> AbsorbLocal(s, h, p).s[x].locked == s[x].locked
  {
    hide AppendEach, Takes;
    if p.key in s[h].properties { AppendEachGathers(s[h].properties[p.key], p.values); }
  }

  lemma StepGoesIff(s: Store, h: Handle, p: Property)
    requires h in s
    ensures Absorb(s, h, p).Merged? <==> Goes(s, h, p)
    ensures Absorb(s, h, p).Merged? ==> forall x :: x in s ==> Absorb(s, h, p).s[x].locked == s[x].locked
  {
    hide InsertLocal, AbsorbLocal, MakeRef, Certainty, RefOf, TakesRef, TakesList, ListAt;
    if !Relation(p.key) {
      WholeGoesIff(s, h, p);
    } else if p.subtype == EntityRef && p.values != [] && RefOf(p.values[0]) in s {
      var other, key, ref := RefOf(p.values[0]), OtherKey(p.key), MakeRef(h, Certainty(p.values[0]));
      LocalGoesIff(s, other, key, ref);
      var m := InsertLocal(s, other, key, ref, KindOf(key));
      if !m.threw {
        LocalAdds(s, other, key, ref, h, p.key);
        WholeGoesIff(m.store, h, p);
        SameTakes(s[h], m.store[h], p);
      }
    }
  }

  lemma SameTakes(o: Owner, o': Owner, p: Property)
    requires o.locked == o'.locked && ListAt(o, p.key) == ListAt(o', p.key)
    ensures TakesList(o, ListAt(o, p.key), p) <==> TakesList(o', ListAt(o', p.key), p)
  {
  }

  lemma {:induction false} LoopKeepsLocks(s: Store, h: Handle, ps: seq<Property>)
    requires h in s && AbsorbAll(s, h, ps).Merged?
    ensures forall x :: x in s ==> AbsorbAll(s, h, ps).s[x].locked == s[x].locked
  {
    hide Absorb, Goes;
    if ps != [] {
      LoopKeepsLocks(s, h, ps[..|ps| - 1]);
      StepGoesIff(AbsorbAll(s, h, ps[..|ps| - 1]).s, h, ps[|ps| - 1]);
    }
  }

  /** The same in terms of the store before the merge: what the loser is below has
      been dealt with when it comes to what is below it. */
  predicate GoesAt(s: Store, h: Handle, loser: Owner, k: nat)
    requires h in s && k in loser.properties
  {
    var p, keeper := loser.properties[k], s[h];
    if !Relation(k) then TakesList(keeper, ListAt(keeper, k), p)
    else
      && p.subtype == EntityRef && p.values != [] && RefOf(p.values[0]) in s
      && var t := RefOf(p.values[0]);
         var ref := MakeRef(h, Certainty(p.values[0]));
         if k == SUBSET_OF
         then TakesList(keeper, ListAt(keeper, k), p) && TakesRef(s[t], ListAt(s[t], SUPERSET_OF), SUPERSET_OF, ref)
         else TakesList(keeper, AddedAt(ListAt(keeper, k), h, loser, SUBSET_OF, h, k), p)
              && TakesRef(s[t], AddedAt(ListAt(s[t], SUBSET_OF), h, loser, SUBSET_OF, t, SUBSET_OF), SUBSET_OF, ref)
  }

  /** The lists of the hierarchy when the loop comes to the nth property. */
  lemma ListsBefore(s: Store, h: Handle, loser: Owner, n: nat, x: Handle, k: nat)
    requires h in s && x in s && KeysMatch(loser) && n < |KeysOf(loser)| && Relation(k) && Relation(KeysOf(loser)[n])
    requires AbsorbAll(s, h, Listed(loser)[..n]).Merged?
    ensures ListAt(AbsorbAll(s, h, Listed(loser)[..n]).s[x], k)
      == if KeysOf(loser)[n] == SUBSET_OF then ListAt(s[x], k) else AddedAt(ListAt(s[x], k), h, loser, SUBSET_OF, x, k)
  {
    LoopAdds(s, h, Listed(loser)[..n], x, k);
    BothAreAdded(ListAt(s[x], k), h, loser, x, k, n);
    hide AbsorbAll, AllAdded, Listed, ListAt;
    DealtBefore(loser, n);
    hide Dealt;
    if SUBSET_OF in loser.properties && loser.properties[SUBSET_OF].kind == Locked {
      LockedAddsNothing(ListAt(s[x], k), h, loser.properties[SUBSET_OF], x, k);
    }
  }

  lemma DealtBefore(loser: Owner, n: nat)
    requires n < |KeysOf(loser)| && Relation(KeysOf(loser)[n])
    ensures !Dealt(loser, SUPERSET_OF, n)
    ensures Dealt(loser, SUBSET_OF, n) <==> SUBSET_OF in loser.properties && KeysOf(loser)[n] != SUBSET_OF
  {
    var keys := KeysOf(loser);
    DealtNext(loser, SUBSET_OF, n + 1);
    DealtNext(loser, SUPERSET_OF, n + 1);
    if SUBSET_OF in loser.properties && keys[n] != SUBSET_OF {
      var i :| 0 <= i < |keys| && keys[i] == SUBSET_OF;
      assert i < n;
      assert keys[..n][i] == SUBSET_OF;
    }
  }

  lemma PlainListBefore(s: Store, h: Handle, loser: Owner, n: nat)
    requires h in s && KeysMatch(loser) && n < |KeysOf(loser)| && !Relation(KeysOf(loser)[n])
    requires AbsorbAll(s, h, Listed(loser)[..n]).Merged?
    ensures ListAt(AbsorbAll(s, h, Listed(loser)[..n]).s[h], KeysOf(loser)[n]) == ListAt(s[h], KeysOf(loser)[n])
  {
    var ps, keys := Listed(loser), KeysOf(loser);
    forall i | 0 <= i < n ensures ps[..n][i].key != keys[n] { assert ps[i].key == keys[i] && keys[i] != keys[n]; }
    hide AbsorbAll, Listed;
    LoopTouches(s, h, ps[..n], h, keys[n]);
  }

  /** A step of the loop goes through exactly if the store before the merge says so. */
  lemma StepInLoopIff(s: Store, h: Handle, loser: Owner, n: nat)
    requires h in s && KeysMatch(loser) && n < |KeysOf(loser)| && AbsorbAll(s, h, Listed(loser)[..n]).Merged?
    ensures KeysOf(loser)[n] in loser.properties
    ensures Goes(AbsorbAll(s, h, Listed(loser)[..n]).s, h, loser.properties[KeysOf(loser)[n]]) <==> GoesAt(s, h, loser, KeysOf(loser)[n])
  {
    assert KeysOf(loser)[n] in KeysOf(loser);
    var k := KeysOf(loser)[n];
    var p, m := loser.properties[k], AbsorbAll(s, h, Listed(loser)[..n]).s;
    LoopKeepsLocks(s, h, Listed(loser)[..n]);
    hide AbsorbAll, Listed, TakesList, TakesRef, RefOf, MakeRef, Certainty, ListAt, AddedAt;
    if !Relation(k) {
      PlainListBefore(s, h, loser, n);
      AlikeTakes(s[h], m[h], ListAt(s[h], k), p);
    } else {
      ListsBefore(s, h, loser, n, h, k);
      AlikeTakes(s[h], m[h], ListAt(m[h], k), p);
      if p.values != [] && RefOf(p.values[0]) in s {
        var t, ref := RefOf(p.values[0]), MakeRef(h, Certainty(p.values[0]));
        ListsBefore(s, h, loser, n, t, OtherKey(k));
        AlikeTakesRef(s[t], m[t], ListAt(m[t], OtherKey(k)), OtherKey(k), ref);
      }
    }
  }

  lemma AlikeTakes(o: Owner, o': Owner, l: MaybeList, p: Property)
    requires o.locked == o'.locked
    ensures TakesList(o, l, p) <==> TakesList(o', l, p)
  {
  }

  lemma AlikeTakesRef(o: Owner, o': Owner, l: MaybeList, k: nat, v: Value)
    requires o.locked == o'.locked
    ensures TakesRef(o, l, k, v) <==> TakesRef(o', l, k, v)
  {
  }

  /** The nth property of the loser is locked, or goes in. */
  ghost predicate GoesNth(s: Store, h: Handle, loser: Owner, i: nat)
    requires h in s && i < |KeysOf(loser)|
  {
    var k := KeysOf(loser)[i];
    assert k in KeysOf(loser);
    loser.properties[k].kind == Locked || GoesAt(s, h, loser, k)
  }

  /** The store when the loop has dealt with the first n properties of the loser. */
  ghost function First(s: Store, h: Handle, loser: Owner, n: nat): Absorption
    requires h in s && n <= |Listed(loser)|
  {
    AbsorbAll(s, h, Listed(loser)[..n])
  }

  lemma NothingFirst(s: Store, h: Handle, loser: Owner)
    requires h in s
    ensures First(s, h, loser, 0).Merged?
  {
  }

  lemma FirstNext(s: Store, h: Handle, loser: Owner, n: nat)
    requires h in s && n < |Listed(loser)|
    ensures First(s, h, loser, n).Merged? ==> h in First(s, h, loser, n).s
    ensures First(s, h, loser, n + 1).Merged? <==>
      First(s, h, loser, n).Merged? && (Listed(loser)[n].kind == Locked || Absorb(First(s, h, loser, n).s, h, Listed(loser)[n]).Merged?)
  {
    var ps := Listed(loser);
    hide Absorb, Listed;
    assert ps[..n + 1][..n] == ps[..n] && ps[..n + 1][n] == ps[n];
  }

  lemma NextGoesIff(s: Store, h: Handle, loser: Owner, n: nat)
    requires h in s && KeysMatch(loser) && n < |KeysOf(loser)| && First(s, h, loser, n).Merged?
    ensures First(s, h, loser, n + 1).Merged? <==> GoesNth(s, h, loser, n)
  {
    hide Goes, GoesAt, Absorb, KeysMatch, AbsorbAll;
    FirstNext(s, h, loser, n);
    StepInLoopIff(s, h, loser, n);
    StepGoesIff(First(s, h, loser, n).s, h, Listed(loser)[n]);
  }

  lemma {:induction false} LoopGoesIff(s: Store, h: Handle, loser: Owner, n: nat)
    requires h in s && KeysMatch(loser) && n <= |KeysOf(loser)|
    ensures First(s, h, loser, n).Merged? <==> forall i :: 0 <= i < n ==> GoesNth(s, h, loser, i)
  {
    hide GoesNth, KeysMatch, First, KeysOf, Listed, AbsorbAll;
    if n == 0 {
      NothingFirst(s, h, loser);
    } else {
      LoopGoesIff(s, h, loser, n - 1);
      FirstNext(s, h, loser, n - 1);
      if First(s, h, loser, n - 1).Merged? { NextGoesIff(s, h, loser, n - 1); }
    }
  }

  /** A merge of two entities of one type completes exactly if every unlocked property
      of the loser goes into the keeper, as far as the graph before the merge tells. */
  lemma MergeCompletesIff(g: Graph, a: Handle, b: Handle)
    requires SoundEntities(g) && MayMerge(g, a, b)
    ensures !MergeCall(g, a, b).threw <==>
      var loser := g.entities[Higher(a, b)].owner;
      forall k :: k in loser.properties && loser.properties[k].kind != Locked ==> GoesAt(OwnersOf(g), Lower(a, b), loser, k)
  {
    hide AbsorbAll, SoundEntities, Listed, KeysOf, Typed, TypeOf, GoesAt;
    ListedKeys(g, Higher(a, b));
    var loser := g.entities[Higher(a, b)].owner;
    var ps, keys := Listed(loser), KeysOf(loser);
    assert ps[..|ps|] == ps;
    LoopGoesIff(OwnersOf(g), Lower(a, b), loser, |ps|);
    assert forall k :: k in loser.properties <==> k in keys;
    forall k | k in loser.properties ensures exists i :: 0 <= i < |keys| && keys[i] == k { }
    if forall i :: 0 <= i < |keys| ==> GoesNth(OwnersOf(g), Lower(a, b), loser, i) {
      forall k | k in loser.properties && loser.properties[k].kind != Locked ensures GoesAt(OwnersOf(g), Lower(a, b), loser, k) {
        var i :| 0 <= i < |keys| && keys[i] == k;
        assert GoesNth(OwnersOf(g), Lower(a, b), loser, i);
      }
    }
  }

  lemma {:induction false} AbortedAt(s: Store, h: Handle, loser: Owner, n: nat) returns (i: nat)
    requires h in s && n <= |Listed(loser)| && First(s, h, loser, n).Aborted?
    ensures i < n && First(s, h, loser, i).Merged? && h in First(s, h, loser, i).s && Listed(loser)[i].kind != Locked
    ensures Absorb(First(s, h, loser, i).s, h, Listed(loser)[i]).Aborted?
    ensures First(s, h, loser, n) == Absorb(First(s, h, loser, i).s, h, Listed(loser)[i])
  {
    hide Absorb, KeysOf;
    var ps := Listed(loser);
    assert n > 0 ==> ps[..n][..n - 1] == ps[..n - 1] && ps[..n][n - 1] == ps[n - 1];
    hide Listed;
    if First(s, h, loser, n - 1).Aborted? { i := AbortedAt(s, h, loser, n - 1); } else { i := n - 1; }
  }

  /** A merge that throws half-way has dealt with the properties before one that does
      not go in, and of that one at most with the reference opposite. */
  lemma MergeAborts(g: Graph, a: Handle, b: Handle) returns (n: nat)
    requires SoundEntities(g) && MayMerge(g, a, b) && Absorbed(g, a, b).Aborted?
    ensures var s, h, loser := OwnersOf(g), Lower(a, b), g.entities[Higher(a, b)].owner;
      && h in s && n < |KeysOf(loser)| && First(s, h, loser, n).Merged? && h in First(s, h, loser, n).s
      && !Goes(First(s, h, loser, n).s, h, Listed(loser)[n])
      && (MergeCall(g, a, b).after == WithOwners(g, First(s, h, loser, n).s)
          || (Relation(Listed(loser)[n].key) && Listed(loser)[n].values != []
              && var top := Listed(loser)[n].values[0];
                 RefOf(top) in First(s, h, loser, n).s
                 && MergeCall(g, a, b).after == WithOwners(g,
                      InsertLocal(First(s, h, loser, n).s, RefOf(top), OtherKey(Listed(loser)[n].key),
                                  MakeRef(h, Certainty(top)), KindOf(OtherKey(Listed(loser)[n].key))).store)))
  {
    hide AbsorbAll, Listed, KeysOf, Typed, TypeOf, WithOwners, Goes, InsertLocal, AbsorbLocal, MakeRef, Certainty, RefOf;
    var s, h, loser := OwnersOf(g), Lower(a, b), g.entities[Higher(a, b)].owner;
    assert Listed(loser)[..|Listed(loser)|] == Listed(loser);
    n := AbortedAt(s, h, loser, |Listed(loser)|);
    StepGoesIff(First(s, h, loser, n).s, h, Listed(loser)[n]);
    HalfStep(First(s, h, loser, n).s, h, Listed(loser)[n]);
  }

  lemma HalfStep(s: Store, h: Handle, p: Property)
    requires h in s && Absorb(s, h, p).Aborted?
    ensures Absorb(s, h, p).s == s || (Relation(p.key) && p.values != [] && RefOf(p.values[0]) in s
      && Absorb(s, h, p).s == InsertLocal(s, RefOf(p.values[0]), OtherKey(p.key), MakeRef(h, Certainty(p.values[0])), KindOf(OtherKey(p.key))).store)
  {
    hide InsertLocal, InsertProperty, MakeRef, Certainty, RefOf;
  }
}
