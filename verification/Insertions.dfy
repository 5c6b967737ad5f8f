/** What an edit of an INSERT puts into which list, and when it goes through. */
module Insertions {
  import opened Edits
  import opened GraphFile
  import opened Hierarchy
  import opened MergedLists
  import opened Merging
  import opened Properties

  // ---------- a value ----------

  /** The list of this kind with one value more. */
  function WithValue(l: MaybeList, k: nat, v: Value, kind: Kind): MaybeList {
    AList(Gathered(if l.AList? then l.p else Property(kind, k, v.subtype, []), [v]))
  }

  predicate TakesValue(o: Owner, l: MaybeList, k: nat, v: Value, kind: Kind) {
    !o.locked && Takes(if l.AList? then l.p else Property(kind, k, v.subtype, []), [v])
  }

  /** One insert into a table: exactly this list takes the value, or the call throws. */
  lemma InsertsOne(o: Owner, key: nat, v: Value, kind: Kind, k: nat)
    requires kind != Locked
    ensures InsertValue(o, key, v, kind).Done? <==> TakesValue(o, ListAt(o, key), key, v, kind)
    ensures InsertValue(o, key, v, kind).Done? ==>
      var o' := InsertValue(o, key, v, kind).value;
      o'.locked == o.locked && ListAt(o', k) == if k == key then WithValue(ListAt(o, k), k, v, kind) else ListAt(o, k)
  {
    hide Appended, Takes, Gathered;
    AppendedIsGathered(if key in o.properties then o.properties[key] else Property(kind, key, v.subtype, []), v);
  }

  /** A value under a property that is no relation: it goes in exactly if the entity is
      live and unlocked and the list, fuzzy if it is new, takes it; and nothing else in
      the graph is different. */
  lemma PutAdds(g: Graph, h: Handle, key: nat, v: Value)
    requires !Relation(key)
    ensures !Edited(g, Put(h, key, v)).1 <==>
      h in g.entities && TakesValue(g.entities[h].owner, ListAt(g.entities[h].owner, key), key, v, Fuzzy)
    ensures !Edited(g, Put(h, key, v)).1 ==>
      var g' := Edited(g, Put(h, key, v)).0;
      && g' == g.(entities := g.entities[h := g.entities[h].(owner := g'.entities[h].owner)])
      && g'.entities[h].owner.locked == g.entities[h].owner.locked
      && forall k :: ListAt(g'.entities[h].owner, k)
           == if k == key then WithValue(ListAt(g.entities[h].owner, k), k, v, Fuzzy) else ListAt(g.entities[h].owner, k)
  {
    hide InsertValue, WithValue, TakesValue, WithOwners, OwnersOf, ListAt;
    if h in g.entities {
      var o := g.entities[h].owner;
      OwnersKeys(g);
      InsertsOne(o, key, v, Fuzzy, key);
      if InsertValue(o, key, v, Fuzzy).Done? {
        var o' := InsertValue(o, key, v, Fuzzy).value;
        PutIs(g, h, key, v, o');
        forall k ensures ListAt(o', k) == if k == key then WithValue(ListAt(o, k), k, v, Fuzzy) else ListAt(o, k) {
          InsertsOne(o, key, v, Fuzzy, k);
        }
      } else {
        NothingPut(OwnersOf(g), h, key, v);
      }
    }
  }

  lemma NothingPut(s: Store, h: Handle, key: nat, v: Value)
    requires h in s && !Relation(key) && InsertValue(s[h], key, v, Fuzzy).Threw?
    ensures PutInto(s, h, key, v).threw
  {
    hide InsertValue;
  }

  // ---------- a relation ----------

  /** A value under one of the two relations goes in exactly if it is a reference to a
      live entity, both entities are unlocked, and their lists take the references. */
  predicate RelationTaken(s: Store, h: Handle, key: nat, v: Value)
    requires h in s
  {
    && IsRef(v.subtype) && RefOf(v) in s
    && var own, other, k := s[h], s[RefOf(v)], OtherKey(key);
       TakesValue(other, ListAt(other, k), k, MakeRef(h, Certainty(v)), KindOf(k)) && TakesValue(own, ListAt(own, key), key, v, KindOf(key))
  }

  /** What it puts where: the value into the list of the entity, and a reference to the
      entity, as certain as the value, into the opposite list of the one it names. */
  function RelationAdds(o: Owner, h: Handle, key: nat, v: Value, x: Handle, k: nat): MaybeList {
    if x == h && k == key then WithValue(ListAt(o, k), k, v, KindOf(k))
    else if x == RefOf(v) && k == OtherKey(key) then WithValue(ListAt(o, k), k, MakeRef(h, Certainty(v)), KindOf(k))
    else ListAt(o, k)
  }

  lemma LocalInserts(s: Store, h: Handle, key: nat, v: Value, kind: Kind, x: Handle, k: nat)
    requires h in s && x in s && kind != Locked
    ensures var r := InsertLocal(s, h, key, v, kind);
      && r.store.Keys == s.Keys && r.store[x].locked == s[x].locked
      && (!r.threw <==> TakesValue(s[h], ListAt(s[h], key), key, v, kind))
      && (r.threw ==> r.store == s)
      && (!r.threw ==> ListAt(r.store[x], k) == if x == h && k == key then WithValue(ListAt(s[h], k), k, v, kind) else ListAt(s[x], k))
  {
    hide InsertValue, WithValue, TakesValue, ListAt;
    InsertsOne(s[h], key, v, kind, k);
  }

  lemma RelationInserts(s: Store, h: Handle, key: nat, v: Value, x: Handle, k: nat)
    requires h in s && x in s && Relation(key)
    ensures var r := InsertRelation(s, h, key, v);
      && r.store.Keys == s.Keys && r.store[x].locked == s[x].locked
      && (!r.threw <==> RelationTaken(s, h, key, v))
      && (!r.threw ==> ListAt(r.store[x], k) == RelationAdds(s[x], h, key, v, x, k))
  {
    hide InsertLocal, WithValue, TakesValue, ListAt, MakeRef, Certainty, RefOf;
    if IsRef(v.subtype) && RefOf(v) in s {
      var other, ref, k' := RefOf(v), MakeRef(h, Certainty(v)), OtherKey(key);
      LocalInserts(s, other, k', ref, KindOf(k'), x, k);
      LocalInserts(s, other, k', ref, KindOf(k'), h, key);
      LocalInserts(s, other, k', ref, KindOf(k'), h, k);
      var m := InsertLocal(s, other, k', ref, KindOf(k'));
      if !m.threw {
        LocalInserts(m.store, h, key, v, KindOf(key), x, k);
        SameTakesValue(s[h], m.store[h], ListAt(s[h], key), key, v, KindOf(key));
      }
    }
  }

  lemma SameTakesValue(o: Owner, o': Owner, l: MaybeList, k: nat, v: Value, kind: Kind)
    requires o.locked == o'.locked
    ensures TakesValue(o, l, k, v, kind) <==> TakesValue(o', l, k, v, kind)
  {
  }

  /** The lists of x after the insert. */
  ghost predicate Related(o: Owner, o': Owner, h: Handle, key: nat, v: Value, x: Handle) {
    o'.locked == o.locked && forall k :: ListAt(o', k) == RelationAdds(o, h, key, v, x, k)
  }

  lemma PutRelates(g: Graph, h: Handle, key: nat, v: Value)
    requires Relation(key)
    ensures !Edited(g, Put(h, key, v)).1 <==> h in g.entities && RelationTaken(OwnersOf(g), h, key, v)
    ensures !Edited(g, Put(h, key, v)).1 ==>
      var g' := Edited(g, Put(h, key, v)).0;
      && g' == g.(entities := g'.entities) && g'.entities.Keys == g.entities.Keys
      && forall x :: x in g.entities ==>
           && g'.entities[x] == g.entities[x].(owner := g'.entities[x].owner)
           && Related(g.entities[x].owner, g'.entities[x].owner, h, key, v, x)
  {
    hide InsertRelation, WithOwners, OwnersOf, ListAt, RelationAdds, RelationTaken, RefOf, MakeRef, Certainty;
    OwnersKeys(g);
    if h in g.entities {
      var s := OwnersOf(g);
      var r := InsertRelation(s, h, key, v);
      RelationInserts(s, h, key, v, h, key);
      OwnersBack(g, r.store);
      OnlyOwners(g, r.store);
      if !r.threw {
        forall x | x in g.entities ensures Related(s[x], r.store[x], h, key, v, x) {
          RelationInserts(s, h, key, v, x, key);
          forall k ensures ListAt(r.store[x], k) == RelationAdds(s[x], h, key, v, x, k) { RelationInserts(s, h, key, v, x, k); }
        }
      }
    }
  }

  // ---------- an annotation ----------

  /** A triple about a META variable goes in exactly if the value is there and its
      metadata takes the record; nothing but the one list of this value's metadata is
      different, and the value keeps its number and its place. */
  lemma AnnotateAdds(g: Graph, e: Edit)
    requires e.Annotate?
    ensures !Edited(g, e).1 <==>
      && e.h in g.entities && e.key in g.entities[e.h].owner.properties && e.position < |g.entities[e.h].owner.properties[e.key].values|
      && var meta := g.entities[e.h].owner.properties[e.key].values[e.position].meta;
         TakesValue(meta, ListAt(meta, e.metaKey), e.metaKey, e.v, Fuzzy)
    ensures !Edited(g, e).1 ==>
      var o, g' := g.entities[e.h].owner, Edited(g, e).0;
      var p := o.properties[e.key];
      var u, meta := p.values[e.position], g'.entities[e.h].owner.properties[e.key].values[e.position].meta;
      && g' == g.(entities := g.entities[e.h := g.entities[e.h].(owner :=
           o.(properties := o.properties[e.key := p.(values := p.values[e.position := u.(meta := meta)])]))])
      && meta.locked == u.meta.locked
      && forall k :: ListAt(meta, k) == if k == e.metaKey then WithValue(ListAt(u.meta, k), k, e.v, Fuzzy) else ListAt(u.meta, k)
  {
    hide InsertValue, WithValue, TakesValue, ListAt;
    if e.h in g.entities && e.key in g.entities[e.h].owner.properties && e.position < |g.entities[e.h].owner.properties[e.key].values| {
      var meta := g.entities[e.h].owner.properties[e.key].values[e.position].meta;
      InsertsOne(meta, e.metaKey, e.v, Fuzzy, e.metaKey);
      if InsertValue(meta, e.metaKey, e.v, Fuzzy).Done? {
        var meta' := InsertValue(meta, e.metaKey, e.v, Fuzzy).value;
        forall k ensures ListAt(meta', k) == if k == e.metaKey then WithValue(ListAt(meta, k), k, e.v, Fuzzy) else ListAt(meta, k) {
          InsertsOne(meta, e.metaKey, e.v, Fuzzy, k);
        }
      }
    }
  }
}
