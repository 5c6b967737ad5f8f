/** PropertyOwner::meetsCondition on an entity that is not linked: does one of
    its values name the queried entity, an entity above it or one below it? */
module Matching {
  import opened Paths
  import opened Properties
  import opened Hierarchy

  datatype MatchState = Any | UpTree | DownTree

  /** Matched is a normal return. OutOfRange is the exception of a checked
      lookup; Overrun is a write past the end of the result buffer. */
  datatype MatchResult = Matched(found: seq<Value>) | OutOfRange | Overrun | DivideByZero

  /** The relations can be walked to an end. The code does not check this. */
  ghost predicate Walkable(s: Store) {
    Acyclic(Down(s)) && Acyclic(Up(s))
  }

  /** Everything a live entity lists above or below itself is live. */
  ghost predicate Closed(s: Store) {
    forall h :: h in s ==> Children(s, h) <= s.Keys && Parents(s, h) <= s.Keys
  }

  predicate Hits(v: Value, q: Handle) { v.subtype == EntityRef && RefOf(v) == q }

  function Push(found: seq<Value>, v: Value, slots: nat): MatchResult {
    if |found| == slots then Overrun else Matched(found + [v])
  }

  // ---------- the confidence of an inherited match ----------

  /** A clone of v with its confidence record set to c. */
  function Recertified(v: Value, c: nat): Outcome<Value> {
    if CONFIDENCE !in v.meta.properties || v.meta.properties[CONFIDENCE].values == [] then Threw
    else
      var top := v.meta.properties[CONFIDENCE].values[0];
      match InsertValue(v.meta, CONFIDENCE, top.(members := Members([c], top.members.texts)), ConcreteSingle)
      case Threw => Threw
      case Done(meta) => Done(v.(meta := meta))
  }

  /** The match above came back as r: write a clone of v whose confidence is
      shared out among the children the matched entity lists. */
  function Inherit(s: Store, r: Value, v: Value, found: seq<Value>, slots: nat): MatchResult {
    if !HasKey(s, RefOf(r), SUPERSET_OF) then OutOfRange
    else if ChildValues(s, RefOf(r)) == [] then DivideByZero
    else if |found| == slots then Overrun
    else match Recertified(v, Certainty(r) / |ChildValues(s, RefOf(r))|)
      case Threw => OutOfRange
      case Done(w) => Push(found, w, slots)
  }

  // ---------- the walk ----------

  ghost function Phase(state: MatchState): nat { if state == Any then 1 else 0 }

  ghost function Room(s: Store, q: Handle, state: MatchState): nat {
    if state == DownTree then Extent(Down(s), q) else if state == UpTree then Extent(Up(s), q) else 0
  }

  lemma ChildHasLessRoom(s: Store, q: Handle, j: nat)
    requires Walkable(s) && q in s && j < |ChildValues(s, q)|
    ensures Room(s, RefOf(ChildValues(s, q)[j]), DownTree) < Room(s, q, DownTree)
    ensures RefOf(ChildValues(s, q)[j]) in Children(s, q)
  {
    assert RefOf(ChildValues(s, q)[j]) in Neighbours(Down(s), q);
    ExtentShrinks(Down(s), q, RefOf(ChildValues(s, q)[j]));
  }

  lemma ParentHasLessRoom(s: Store, q: Handle)
    requires Walkable(s) && q in s && ParentValues(s, q) != []
    ensures Room(s, RefOf(ParentValues(s, q)[0]), UpTree) < Room(s, q, UpTree)
  {
    ExtentShrinks(Up(s), q, RefOf(ParentValues(s, q)[0]));
  }

  function Exact(v: Value, q: Handle, found: seq<Value>, slots: nat): MatchResult {
    if Hits(v, q) then Push(found, v, slots) else Matched(found)
  }

  /** One iteration: an exact match, a match below and a match above each write
      a slot, in this order; the first failure ends the search. */
  function Combine(s: Store, v: Value, q: Handle, found: seq<Value>, slots: nat, below: MatchResult, above: MatchResult): MatchResult {
    var exact := Exact(v, q, found, slots);
    if !exact.Matched? then exact
    else if !below.Matched? then below
    else
      var down := if below.found == [] then exact else Push(exact.found, v, slots);
      if !down.Matched? then down
      else if !above.Matched? then above
      else if above.found == [] then down
      else Inherit(s, above.found[0], v, down.found, slots)
  }

  /** The loop over the values from index i on, with the matches written so far. */
  function MeetsFrom(s: Store, values: seq<Value>, q: Handle, state: MatchState, i: nat, found: seq<Value>): MatchResult
    requires Walkable(s) && i <= |values|
    decreases Phase(state), Room(s, q, state), 1, |values| - i
  {
    if i == |values| then Matched(found)
    else if q !in s then
      (var exact := Exact(values[i], q, found, |values|); if exact.Matched? then OutOfRange else exact)
    else
      var below := if state == UpTree then Matched([]) else AnyBelow(s, values, q, state, 0);
      var above := if state == DownTree then Matched([]) else Above(s, values, q, state);
      var step := Combine(s, values[i], q, found, |values|, below, above);
      if step.Matched? then MeetsFrom(s, values, q, state, i + 1, step.found) else step
  }

  /** The first non-empty answer among the children from index j on. */
  function AnyBelow(s: Store, values: seq<Value>, q: Handle, state: MatchState, j: nat): MatchResult
    requires Walkable(s) && q in s && j <= |ChildValues(s, q)| && state != UpTree
    decreases Phase(state), Room(s, q, state), 0, |ChildValues(s, q)| - j
  {
    if j == |ChildValues(s, q)| then Matched([])
    else
      ChildHasLessRoom(s, q, j);
      var r := MeetsFrom(s, values, RefOf(ChildValues(s, q)[j]), DownTree, 0, []);
      if r.Matched? && r.found == [] then AnyBelow(s, values, q, state, j + 1) else r
  }

  /** The answer for the parent, if there is one. */
  function Above(s: Store, values: seq<Value>, q: Handle, state: MatchState): MatchResult
    requires Walkable(s) && q in s && state != DownTree
    decreases Phase(state), Room(s, q, state), 0, 0
  {
    if ParentValues(s, q) == [] then Matched([])
    else
      ParentHasLessRoom(s, q);
      MeetsFrom(s, values, RefOf(ParentValues(s, q)[0]), UpTree, 0, [])
  }

  function Meets(s: Store, values: seq<Value>, q: Handle, state: MatchState): MatchResult
    requires Walkable(s)
  {
    MeetsFrom(s, values, q, state, 0, [])
  }

  // ---------- the verdict, for any number of values ----------

  /** q is v's entity, or lies above it. */
  ghost predicate OverValue(s: Store, v: Value, q: Handle) {
    v.subtype == EntityRef && Reaches(Down(s), q, RefOf(v))
  }

  /** q is v's entity, or lies below it. */
  ghost predicate UnderValue(s: Store, v: Value, q: Handle) {
    v.subtype == EntityRef && Reaches(Up(s), q, RefOf(v))
  }

  ghost predicate Related(s: Store, v: Value, q: Handle, state: MatchState) {
    (state != UpTree && OverValue(s, v, q)) || (state != DownTree && UnderValue(s, v, q))
  }

  ghost predicate SomeRelated(s: Store, values: seq<Value>, q: Handle, state: MatchState) {
    exists k :: 0 <= k < |values| && Related(s, values[k], q, state)
  }

  ghost predicate SomeHit(values: seq<Value>, q: Handle, i: nat)
    requires i <= |values|
  {
    exists k :: i <= k < |values| && Hits(values[k], q)
  }

  ghost function BelowAt(s: Store, values: seq<Value>, q: Handle, state: MatchState): MatchResult
    requires Walkable(s) && q in s
  {
    if state == UpTree then Matched([]) else AnyBelow(s, values, q, state, 0)
  }

  ghost function AboveAt(s: Store, values: seq<Value>, q: Handle, state: MatchState): MatchResult
    requires Walkable(s) && q in s
  {
    if state == DownTree then Matched([]) else Above(s, values, q, state)
  }

  /** What a normal iteration has written. */
  lemma CombineWrites(s: Store, v: Value, q: Handle, found: seq<Value>, slots: nat, below: MatchResult, above: MatchResult)
    requires Combine(s, v, q, found, slots, below, above).Matched?
    ensures below.Matched? && above.Matched?
    ensures |found| <= slots ==> |Combine(s, v, q, found, slots, below, above).found| <= slots
    ensures |Combine(s, v, q, found, slots, below, above).found| == |found|
      + (if Hits(v, q) then 1 else 0) + (if below.found != [] then 1 else 0) + (if above.found != [] then 1 else 0)
  {
  }

  lemma MeetsStep(s: Store, values: seq<Value>, q: Handle, state: MatchState, i: nat, found: seq<Value>)
    requires Walkable(s) && q in s && i < |values|
    ensures var step := Combine(s, values[i], q, found, |values|, BelowAt(s, values, q, state), AboveAt(s, values, q, state));
      MeetsFrom(s, values, q, state, i, found) == if step.Matched? then MeetsFrom(s, values, q, state, i + 1, step.found) else step
  {
  }

  lemma MeetsDone(s: Store, values: seq<Value>, q: Handle, state: MatchState, found: seq<Value>)
    requires Walkable(s)
    ensures MeetsFrom(s, values, q, state, |values|, found) == Matched(found)
  {
  }

  lemma MeetsExact(s: Store, values: seq<Value>, q: Handle, state: MatchState, i: nat, found: seq<Value>)
    requires Walkable(s) && i < |values|
    ensures var exact := Exact(values[i], q, found, |values|);
      && (!exact.Matched? ==> MeetsFrom(s, values, q, state, i, found) == exact)
      && (exact.Matched? && q !in s ==> MeetsFrom(s, values, q, state, i, found) == OutOfRange)
  {
  }

  /** One pass over the values, given the answers from below and above. */
  lemma {:induction false} PassVerdict(s: Store, values: seq<Value>, q: Handle, state: MatchState, i: nat, found: seq<Value>)
    requires Walkable(s) && q in s && i <= |values| && MeetsFrom(s, values, q, state, i, found).Matched?
    ensures |MeetsFrom(s, values, q, state, i, found).found| >= |found|
    ensures i < |values| ==> BelowAt(s, values, q, state).Matched? && AboveAt(s, values, q, state).Matched?
    ensures MeetsFrom(s, values, q, state, i, found).found != [] <==>
      || found != [] || SomeHit(values, q, i)
      || (i < |values| && BelowAt(s, values, q, state).found != [])
      || (i < |values| && AboveAt(s, values, q, state).found != [])
    decreases |values| - i
  {
    hide Combine, AnyBelow, Above;
    if i < |values| {
      var below, above := BelowAt(s, values, q, state), AboveAt(s, values, q, state);
      MeetsStep(s, values, q, state, i, found);
      var step := Combine(s, values[i], q, found, |values|, below, above);
      CombineWrites(s, values[i], q, found, |values|, below, above);
      PassVerdict(s, values, q, state, i + 1, step.found);
      assert SomeHit(values, q, i) <==> Hits(values[i], q) || SomeHit(values, q, i + 1);
    }
  }

  ghost predicate SomeChildRelated(s: Store, values: seq<Value>, children: seq<Value>, j: nat) {
    exists k :: j <= k < |children| && SomeRelated(s, values, RefOf(children[k]), DownTree)
  }

  lemma SomeChildStep(s: Store, values: seq<Value>, children: seq<Value>, j: nat)
    requires j < |children|
    ensures SomeChildRelated(s, values, children, j) <==>
      SomeRelated(s, values, RefOf(children[j]), DownTree) || SomeChildRelated(s, values, children, j + 1)
  {
  }

  /** AnyBelow from index j, given the verdict for the child at j. */
  lemma AnyBelowStep(s: Store, values: seq<Value>, q: Handle, state: MatchState, j: nat)
    requires Walkable(s) && q in s && j < |ChildValues(s, q)| && state != UpTree
    ensures var r := Meets(s, values, RefOf(ChildValues(s, q)[j]), DownTree);
      AnyBelow(s, values, q, state, j) == if r.Matched? && r.found == [] then AnyBelow(s, values, q, state, j + 1) else r
  {
  }

  lemma {:induction false} BelowVerdict(s: Store, values: seq<Value>, q: Handle, state: MatchState, j: nat)
    requires Walkable(s) && Closed(s) && q in s && j <= |ChildValues(s, q)| && state != UpTree
    requires AnyBelow(s, values, q, state, j).Matched?
    ensures AnyBelow(s, values, q, state, j).found != [] <==> SomeChildRelated(s, values, ChildValues(s, q), j)
    decreases Phase(state), Room(s, q, state), 0, |ChildValues(s, q)| - j
  {
    if j < |ChildValues(s, q)| {
      var c := RefOf(ChildValues(s, q)[j]);
      ChildHasLessRoom(s, q, j);
      AnyBelowStep(s, values, q, state, j);
      SomeChildStep(s, values, ChildValues(s, q), j);
      assert c in s by { assert c in Children(s, q); }
      MeetsVerdict(s, values, c, DownTree);
      if Meets(s, values, c, DownTree).found == [] { BelowVerdict(s, values, q, state, j + 1); }
    }
  }

  lemma AllRelated(s: Store, values: seq<Value>, q: Handle, state: MatchState)
    requires q in s
    ensures SomeRelated(s, values, q, state) <==>
      || SomeHit(values, q, 0)
      || (state != UpTree && SomeChildRelated(s, values, ChildValues(s, q), 0))
      || (state != DownTree && ParentValues(s, q) != [] && SomeRelated(s, values, RefOf(ParentValues(s, q)[0]), UpTree))
  {
    hide OverValue, UnderValue, Children, Parents;
    if SomeRelated(s, values, q, state) { RelatedComesFrom(s, values, q, state); }
    if SomeHit(values, q, 0) {
      var k :| 0 <= k < |values| && Hits(values[k], q);
      RelatedBelow(s, values[k], q);
      RelatedAbove(s, values[k], q);
      assert Related(s, values[k], q, state);
    }
    if state != UpTree && SomeChildRelated(s, values, ChildValues(s, q), 0) {
      var j :| 0 <= j < |ChildValues(s, q)| && SomeRelated(s, values, RefOf(ChildValues(s, q)[j]), DownTree);
      var k :| 0 <= k < |values| && Related(s, values[k], RefOf(ChildValues(s, q)[j]), DownTree);
      RelatedBelow(s, values[k], q);
      assert Related(s, values[k], q, state);
    }
    if state != DownTree && ParentValues(s, q) != [] && SomeRelated(s, values, RefOf(ParentValues(s, q)[0]), UpTree) {
      var k :| 0 <= k < |values| && Related(s, values[k], RefOf(ParentValues(s, q)[0]), UpTree);
      RelatedAbove(s, values[k], q);
      assert Related(s, values[k], q, state);
    }
  }

  lemma RelatedComesFrom(s: Store, values: seq<Value>, q: Handle, state: MatchState)
    requires q in s && SomeRelated(s, values, q, state)
    ensures
      || SomeHit(values, q, 0)
      || (state != UpTree && SomeChildRelated(s, values, ChildValues(s, q), 0))
      || (state != DownTree && ParentValues(s, q) != [] && SomeRelated(s, values, RefOf(ParentValues(s, q)[0]), UpTree))
  {
    hide Reaches, Children, Parents;
    var k :| 0 <= k < |values| && Related(s, values[k], q, state);
    RelatedBelow(s, values[k], q);
    RelatedAbove(s, values[k], q);
    if !Hits(values[k], q) {
      if state != UpTree && OverValue(s, values[k], q) {
        var j :| 0 <= j < |ChildValues(s, q)| && OverValue(s, values[k], RefOf(ChildValues(s, q)[j]));
        assert Related(s, values[k], RefOf(ChildValues(s, q)[j]), DownTree);
        assert SomeRelated(s, values, RefOf(ChildValues(s, q)[j]), DownTree);
      } else {
        assert Related(s, values[k], RefOf(ParentValues(s, q)[0]), UpTree);
      }
    }
  }

  lemma RelatedBelow(s: Store, v: Value, q: Handle)
    requires q in s
    ensures OverValue(s, v, q) <==> Hits(v, q) || (exists k :: 0 <= k < |ChildValues(s, q)| && OverValue(s, v, RefOf(ChildValues(s, q)[k])))
  {
    ReachesByFirstStep(Down(s), q, RefOf(v));
    if OverValue(s, v, q) && !Hits(v, q) {
      var c :| c in Neighbours(Down(s), q) && Reaches(Down(s), c, RefOf(v));
      var k :| 0 <= k < |ChildValues(s, q)| && RefOf(ChildValues(s, q)[k]) == c;
      assert OverValue(s, v, RefOf(ChildValues(s, q)[k]));
    }
    forall k | 0 <= k < |ChildValues(s, q)| && OverValue(s, v, RefOf(ChildValues(s, q)[k])) ensures OverValue(s, v, q) {
      assert RefOf(ChildValues(s, q)[k]) in Neighbours(Down(s), q);
    }
  }

  lemma RelatedAbove(s: Store, v: Value, q: Handle)
    requires q in s
    ensures UnderValue(s, v, q) <==> Hits(v, q) || (ParentValues(s, q) != [] && UnderValue(s, v, RefOf(ParentValues(s, q)[0])))
  {
    ReachesByFirstStep(Up(s), q, RefOf(v));
  }

  /** Whenever the walk returns, with however many values, its answer is
      non-empty exactly when some value is the queried entity, an ancestor or a
      descendant of it; down the tree only the queried entity and its
      descendants count, up the tree only it and its ancestors. */
  lemma {:induction false} MeetsVerdict(s: Store, values: seq<Value>, q: Handle, state: MatchState)
    requires Walkable(s) && Closed(s) && q in s
    requires Meets(s, values, q, state).Matched?
    ensures Meets(s, values, q, state).found != [] <==> SomeRelated(s, values, q, state)
    decreases Phase(state), Room(s, q, state), 1
  {
    PassVerdict(s, values, q, state, 0, []);
    AllRelated(s, values, q, state);
    if values != [] {
      if state != UpTree { BelowVerdict(s, values, q, state, 0); }
      if state != DownTree && ParentValues(s, q) != [] {
        var p := RefOf(ParentValues(s, q)[0]);
        assert p in Parents(s, q);
        ParentHasLessRoom(s, q);
        MeetsVerdict(s, values, p, UpTree);
      }
    }
  }

  // ---------- the tree ----------

  lemma {:induction false} UpIsReversedDown(s: Store, p: seq<nat>, a: Handle, b: Handle)
    requires Mirrored(s) && PathFromTo(Up(s), p, a, b)
    ensures Reaches(Down(s), b, a)
    decreases |p|
  {
    if |p| == 1 {
      ReachesSelf(Down(s), a);
    } else {
      var c := p[|p| - 2];
      assert p[|p| - 2 + 1] in Neighbours(Up(s), p[|p| - 2]);
      assert PathFromTo(Up(s), p[..|p| - 1], a, c);
      UpIsReversedDown(s, p[..|p| - 1], a, c);
      assert b in Parents(s, c);
      ReachesNeighbour(Down(s), b, c);
      ReachesTransitive(Down(s), b, c, a);
    }
  }

  lemma AboveReachesDown(s: Store, a: Handle, b: Handle)
    requires Mirrored(s) && Reaches(Up(s), a, b)
    ensures Reaches(Down(s), b, a)
  {
    var p :| PathFromTo(Up(s), p, a, b);
    UpIsReversedDown(s, p, a, b);
  }

  /** With mirrored lists, an acyclic child relation is all the walk needs. */
  lemma MirroredIsWalkable(s: Store)
    requires Mirrored(s) && Acyclic(Down(s))
    ensures Walkable(s)
  {
    forall c, p | p in Neighbours(Up(s), c) ensures !Reaches(Up(s), p, c) {
      assert p in Parents(s, c);
      assert c in Neighbours(Down(s), p);
      if Reaches(Up(s), p, c) { AboveReachesDown(s, p, c); }
    }
  }

  /** The three reasons for a match exclude one another. */
  lemma ReasonsExclude(s: Store, v: Value, q: Handle)
    requires Walkable(s) && Mirrored(s) && q in s && v.subtype == EntityRef
    ensures Hits(v, q) ==> !(exists j :: 0 <= j < |ChildValues(s, q)| && OverValue(s, v, RefOf(ChildValues(s, q)[j])))
    ensures Hits(v, q) && ParentValues(s, q) != [] ==> !UnderValue(s, v, RefOf(ParentValues(s, q)[0]))
    ensures ParentValues(s, q) != [] && UnderValue(s, v, RefOf(ParentValues(s, q)[0])) ==>
      !(exists j :: 0 <= j < |ChildValues(s, q)| && OverValue(s, v, RefOf(ChildValues(s, q)[j])))
  {
    forall j | 0 <= j < |ChildValues(s, q)| && OverValue(s, v, RefOf(ChildValues(s, q)[j]))
      ensures !Hits(v, q)
      ensures ParentValues(s, q) != [] ==> !UnderValue(s, v, RefOf(ParentValues(s, q)[0]))
    {
      var c := RefOf(ChildValues(s, q)[j]);
      assert c in Neighbours(Down(s), q);
      if ParentValues(s, q) != [] && UnderValue(s, v, RefOf(ParentValues(s, q)[0])) {
        var p := RefOf(ParentValues(s, q)[0]);
        assert p in Parents(s, q);
        AboveReachesDown(s, p, RefOf(v));
        ReachesNeighbour(Down(s), p, q);
        ReachesTransitive(Down(s), RefOf(v), p, q);
        ReachesTransitive(Down(s), c, RefOf(v), q);
      }
    }
    if ParentValues(s, q) != [] { assert RefOf(ParentValues(s, q)[0]) in Neighbours(Up(s), q); }
  }

  /** A proper ancestor lists at least one child. */
  lemma AncestorListsChildren(s: Store, q: Handle, x: Handle)
    requires Mirrored(s) && Reaches(Up(s), q, x) && q != x
    ensures HasKey(s, x, SUPERSET_OF) && ChildValues(s, x) != []
  {
    var c := ReachesByLastStep(Up(s), q, x);
    assert x in Parents(s, c);
    assert c in Children(s, x);
  }

  // ---------- one value ----------

  /** An entity reference with the confidence record Init gives it, fresh
      (ConcreteSingle) or reloaded from a file (Fuzzy). */
  ghost predicate Tagged(v: Value) {
    && v.subtype == EntityRef && !v.meta.locked && CONFIDENCE in v.meta.properties
    && var p := v.meta.properties[CONFIDENCE];
      && (p.kind == ConcreteSingle || p.kind == Fuzzy) && p.subtype == Confidence && p.values != []
      && p.values[0].members.numbers != [] && forall i :: 0 <= i < |p.values| ==> p.values[i].subtype == Confidence
  }

  ghost predicate FreshRecord(v: Value)
    requires Tagged(v)
  {
    v.meta.properties[CONFIDENCE].kind == ConcreteSingle
  }

  /** Recertifying works on a fresh record only: on a reloaded one the new
      record goes in behind the old. */
  lemma RecertifiedIs(v: Value, c: nat) returns (w: Value)
    requires Tagged(v) && c < 256
    ensures Recertified(v, c) == Done(w) && Tagged(w) && w.members == v.members
    ensures FreshRecord(w) <==> FreshRecord(v)
    ensures Certainty(w) == if FreshRecord(v) then c else Certainty(v)
  {
    var p := v.meta.properties[CONFIDENCE];
    var record := p.values[0].(members := Members([c], p.values[0].members.texts));
    var q := RecordAppended(p, record);
    w := v.(meta := v.meta.(properties := v.meta.properties[CONFIDENCE := q]));
    hide Appended;
    assert Recertified(v, c) == Done(w);
  }

  ghost predicate AtMostOne(r: MatchResult, v: Value) {
    && r.Matched? && |r.found| <= 1
    && (r.found != [] ==> Tagged(r.found[0]) && RefOf(r.found[0]) == RefOf(v))
  }

  lemma {:induction false} OneBelow(s: Store, v: Value, q: Handle, state: MatchState, j: nat)
    requires Walkable(s) && Mirrored(s) && Closed(s) && Tagged(v) && q in s && j <= |ChildValues(s, q)| && state != UpTree
    ensures AtMostOne(AnyBelow(s, [v], q, state, j), v)
    decreases Phase(state), Room(s, q, state), 0, |ChildValues(s, q)| - j
  {
    if j < |ChildValues(s, q)| {
      var c := RefOf(ChildValues(s, q)[j]);
      ChildHasLessRoom(s, q, j);
      AnyBelowStep(s, [v], q, state, j);
      assert c in s by { assert c in Children(s, q); }
      OneValue(s, v, c, DownTree);
      OneBelow(s, v, q, state, j + 1);
    }
  }

  /** The single iteration over one value, spelled out. */
  lemma OnePass(s: Store, v: Value, q: Handle, state: MatchState)
    requires Walkable(s) && q in s
    ensures Meets(s, [v], q, state) == Combine(s, v, q, [], 1, BelowAt(s, [v], q, state), AboveAt(s, [v], q, state))
  {
    MeetsStep(s, [v], q, state, 0, []);
  }

  /** At most one of the three reasons holds in one iteration. */
  lemma OneReason(s: Store, v: Value, q: Handle, state: MatchState, below: MatchResult, above: MatchResult)
    requires Walkable(s) && Mirrored(s) && q in s && Tagged(v) && below.Matched? && above.Matched?
    requires below.found != [] ==> state != UpTree && SomeChildRelated(s, [v], ChildValues(s, q), 0)
    requires above.found != [] ==> state != DownTree && ParentValues(s, q) != [] && SomeRelated(s, [v], RefOf(ParentValues(s, q)[0]), UpTree)
    ensures Hits(v, q) ==> below.found == [] && above.found == []
    ensures below.found == [] || above.found == []
    ensures above.found != [] ==> UnderValue(s, v, q) && q != RefOf(v)
  {
    ReasonsExclude(s, v, q);
    if below.found != [] {
      var j :| 0 <= j < |ChildValues(s, q)| && SomeRelated(s, [v], RefOf(ChildValues(s, q)[j]), DownTree);
      assert OverValue(s, v, RefOf(ChildValues(s, q)[j]));
    }
    if above.found != [] {
      assert UnderValue(s, v, RefOf(ParentValues(s, q)[0]));
      RelatedAbove(s, v, q);
    }
  }

  lemma TimesGrows(n: nat, k: nat)
    requires n > 0
    ensures k <= n * k
  {
    assert n * k == k + (n - 1) * k;
  }

  lemma Shared(c: nat, n: nat) returns (share: nat)
    requires n > 0
    ensures share == c / n && share <= c
  {
    share := c / n;
    TimesGrows(n, share);
  }

  lemma InheritIs(s: Store, r: Value, v: Value, share: nat, w: Value)
    requires HasKey(s, RefOf(r), SUPERSET_OF) && ChildValues(s, RefOf(r)) != []
    requires share == Certainty(r) / |ChildValues(s, RefOf(r))| && Recertified(v, share) == Done(w)
    ensures Inherit(s, r, v, [], 1) == Matched([w])
  {
  }

  lemma ByteSized(v: Value)
    ensures Certainty(v) < 256
  {
  }

  /** An inherited match: the divisor is not zero and one slot is enough. */
  lemma InheritedOnce(s: Store, v: Value, q: Handle, r: Value) returns (share: nat, w: Value)
    requires Mirrored(s) && Tagged(v) && RefOf(r) == RefOf(v) && UnderValue(s, v, q) && q != RefOf(v)
    ensures ChildValues(s, RefOf(v)) != [] && share == Certainty(r) / |ChildValues(s, RefOf(v))|
    ensures Inherit(s, r, v, [], 1) == Matched([w]) && Tagged(w) && RefOf(w) == RefOf(v)
    ensures Certainty(w) == if FreshRecord(v) then share else Certainty(v)
    ensures FreshRecord(w) <==> FreshRecord(v)
  {
    AncestorListsChildren(s, q, RefOf(v));
    share := Shared(Certainty(r), |ChildValues(s, RefOf(v))|);
    ByteSized(r);
    w := RecertifiedIs(v, share);
    InheritIs(s, r, v, share, w);
  }

  /** One value: the walk always returns, with nothing or one match, and so
      stays inside its one result slot. */
  lemma {:induction false} OneValue(s: Store, v: Value, q: Handle, state: MatchState)
    requires Walkable(s) && Mirrored(s) && Closed(s) && Tagged(v) && q in s
    ensures AtMostOne(Meets(s, [v], q, state), v)
    decreases Phase(state), Room(s, q, state), 1, 0
  {
    hide MeetsFrom, AnyBelow, Inherit;
    var below := BelowAt(s, [v], q, state);
    var above := AboveAt(s, [v], q, state);
    if state != UpTree {
      OneBelow(s, v, q, state, 0);
      BelowVerdict(s, [v], q, state, 0);
    }
    if state != DownTree && ParentValues(s, q) != [] {
      var p := RefOf(ParentValues(s, q)[0]);
      assert p in Parents(s, q);
      ParentHasLessRoom(s, q);
      OneValue(s, v, p, UpTree);
      MeetsVerdict(s, [v], p, UpTree);
    }
    OneReason(s, v, q, state, below, above);
    OnePass(s, v, q, state);
    CombinedOnce(s, v, q, below, above);
  }

  /** What one iteration over one value makes of at most one answer. */
  lemma CombinedOnce(s: Store, v: Value, q: Handle, below: MatchResult, above: MatchResult)
    requires Mirrored(s) && Tagged(v) && AtMostOne(below, v) && AtMostOne(above, v)
    requires Hits(v, q) ==> below.found == [] && above.found == []
    requires below.found == [] || above.found == []
    requires above.found != [] ==> UnderValue(s, v, q) && q != RefOf(v)
    ensures AtMostOne(Combine(s, v, q, [], 1, below, above), v)
  {
    hide Mirrored, Inherit, UnderValue;
    if above.found != [] {
      var share, w := InheritedOnce(s, v, q, above.found[0]);
    }
  }

  lemma OnlyRelated(s: Store, v: Value, q: Handle, state: MatchState)
    ensures SomeRelated(s, [v], q, state) <==> Related(s, v, q, state)
  {
    assert [v][0] == v;
  }

  /** The search for one value answers exactly the hierarchy question, and for
      the queried entity and its descendants it answers with the value itself. */
  lemma OneValueMatch(s: Store, v: Value, q: Handle, state: MatchState)
    requires Walkable(s) && Mirrored(s) && Closed(s) && Tagged(v) && q in s
    ensures AtMostOne(Meets(s, [v], q, state), v)
    ensures Meets(s, [v], q, state).found != [] <==> Related(s, v, q, state)
    ensures q == RefOf(v) || (state != UpTree && OverValue(s, v, q)) ==> Meets(s, [v], q, state).found == [v]
  {
    OneValue(s, v, q, state);
    MeetsVerdict(s, [v], q, state);
    OnlyRelated(s, v, q, state);
    PassVerdict(s, [v], q, state, 0, []);
    if q == RefOf(v) || (state != UpTree && OverValue(s, v, q)) { DirectMatch(s, v, q, state); }
  }

  lemma DirectMatch(s: Store, v: Value, q: Handle, state: MatchState)
    requires Walkable(s) && Mirrored(s) && Closed(s) && Tagged(v) && q in s
    requires q == RefOf(v) || (state != UpTree && OverValue(s, v, q))
    ensures Meets(s, [v], q, state) == Matched([v])
  {
    hide MeetsFrom, Meets, AnyBelow, Above, Inherit;
    ReasonsAt(s, v, q, state);
    OnePass(s, v, q, state);
  }

  /** The two answers an iteration over one value starts from. */
  lemma ReasonsAt(s: Store, v: Value, q: Handle, state: MatchState)
    requires Walkable(s) && Mirrored(s) && Closed(s) && Tagged(v) && q in s
    ensures AtMostOne(BelowAt(s, [v], q, state), v) && AtMostOne(AboveAt(s, [v], q, state), v)
    ensures BelowAt(s, [v], q, state).found != [] <==> state != UpTree && !Hits(v, q) && OverValue(s, v, q)
    ensures AboveAt(s, [v], q, state).found != [] <==> state != DownTree && !Hits(v, q) && UnderValue(s, v, q)
    ensures BelowAt(s, [v], q, state).found == [] || AboveAt(s, [v], q, state).found == []
  {
    hide MeetsFrom, AnyBelow, Inherit, Tagged;
    if state != UpTree { ReasonBelow(s, v, q, state); }
    if state != DownTree { ReasonAbove(s, v, q, state); }
    OneReason(s, v, q, state, BelowAt(s, [v], q, state), AboveAt(s, [v], q, state));
  }

  lemma ReasonBelow(s: Store, v: Value, q: Handle, state: MatchState)
    requires Walkable(s) && Mirrored(s) && Closed(s) && Tagged(v) && q in s && state != UpTree
    ensures AtMostOne(AnyBelow(s, [v], q, state, 0), v)
    ensures AnyBelow(s, [v], q, state, 0).found != [] <==> SomeChildRelated(s, [v], ChildValues(s, q), 0)
    ensures SomeChildRelated(s, [v], ChildValues(s, q), 0) <==> !Hits(v, q) && OverValue(s, v, q)
  {
    hide MeetsFrom, AnyBelow;
    OneBelow(s, v, q, state, 0);
    BelowVerdict(s, [v], q, state, 0);
    RelatedBelow(s, v, q);
    ReasonsExclude(s, v, q);
    if exists j :: 0 <= j < |ChildValues(s, q)| && OverValue(s, v, RefOf(ChildValues(s, q)[j])) {
      var j :| 0 <= j < |ChildValues(s, q)| && OverValue(s, v, RefOf(ChildValues(s, q)[j]));
      OnlyRelated(s, v, RefOf(ChildValues(s, q)[j]), DownTree);
    }
    if SomeChildRelated(s, [v], ChildValues(s, q), 0) {
      var j :| 0 <= j < |ChildValues(s, q)| && SomeRelated(s, [v], RefOf(ChildValues(s, q)[j]), DownTree);
      OnlyRelated(s, v, RefOf(ChildValues(s, q)[j]), DownTree);
    }
  }

  lemma ReasonAbove(s: Store, v: Value, q: Handle, state: MatchState)
    requires Walkable(s) && Mirrored(s) && Closed(s) && Tagged(v) && q in s && state != DownTree
    ensures AtMostOne(Above(s, [v], q, state), v)
    ensures Above(s, [v], q, state).found != [] <==> ParentValues(s, q) != [] && SomeRelated(s, [v], RefOf(ParentValues(s, q)[0]), UpTree)
    ensures Above(s, [v], q, state).found != [] <==> !Hits(v, q) && UnderValue(s, v, q)
  {
    hide MeetsFrom, AnyBelow;
    RelatedAbove(s, v, q);
    ReasonsExclude(s, v, q);
    if ParentValues(s, q) != [] {
      var p := RefOf(ParentValues(s, q)[0]);
      assert p in Parents(s, q);
      OneValue(s, v, p, UpTree);
      MeetsVerdict(s, [v], p, UpTree);
      OnlyRelated(s, v, p, UpTree);
    }
  }

  // ---------- how much confidence an ancestor keeps ----------

  /** x is reached from q by going up k times. */
  ghost predicate AncestorAt(s: Store, q: Handle, x: Handle, k: nat)
    decreases k
  {
    if k == 0 then q == x
    else ParentValues(s, q) != [] && AncestorAt(s, RefOf(ParentValues(s, q)[0]), x, k - 1)
  }

  function Pow(n: nat, k: nat): nat { if k == 0 then 1 else n * Pow(n, k - 1) }

  lemma {:induction false} AncestorIsReached(s: Store, q: Handle, x: Handle, k: nat)
    requires AncestorAt(s, q, x, k)
    ensures Reaches(Up(s), q, x)
    decreases k
  {
    if k == 0 {
      ReachesSelf(Up(s), q);
    } else {
      var p := RefOf(ParentValues(s, q)[0]);
      AncestorIsReached(s, p, x, k - 1);
      assert p in Neighbours(Up(s), q);
      ReachesNeighbour(Up(s), q, p);
      ReachesTransitive(Up(s), q, p, x);
    }
  }

  lemma QuotientIs(c: nat, d: nat, y: nat, e: nat)
    requires d > 0 && c == d * y + e && e < d
    ensures c / d == y
  {
    var z := c / d;
    if z < y {
      assert d * y == d * z + d * (y - z);
      TimesGrows(y - z, d);
    } else if z > y {
      assert d * z == d * y + d * (z - y);
      TimesGrows(z - y, d);
    }
  }

  /** Dividing twice, rounding down each time, is dividing once by the product. */
  lemma DivideTwice(c: nat, a: nat, b: nat)
    requires a > 0 && b > 0
    ensures b * a > 0 && c / a / b == c / (b * a)
  {
    var x, r := c / a, c % a;
    var y, t := x / b, x % b;
    assert c == a * x + r && x == b * y + t;
    TimesGrows(b, a);
    Regroup(a, b, x, y, t, r);
    QuotientIs(c, b * a, y, a * t + r);
  }

  lemma Regroup(a: nat, b: nat, x: nat, y: nat, t: nat, r: nat)
    requires x == b * y + t && r < a && t < b
    ensures a * x + r == b * a * y + (a * t + r) && a * t + r < b * a
  {
    assert a * x == a * (b * y) + a * t;
    assert a * (b * y) == b * a * y;
    assert b * a == a * t + a * (b - t);
    TimesGrows(b - t, a);
  }

  lemma {:induction false} PowPositive(n: nat, k: nat)
    requires n > 0
    ensures Pow(n, k) > 0
  {
    if k > 0 {
      PowPositive(n, k - 1);
      TimesGrows(n, Pow(n, k - 1));
    }
  }

  lemma PowShare(c: nat, n: nat, k: nat)
    requires n > 0 && k > 0
    ensures Pow(n, k - 1) > 0 && Pow(n, k) > 0 && c / Pow(n, k - 1) / n == c / Pow(n, k)
  {
    PowPositive(n, k - 1);
    DivideTwice(c, Pow(n, k - 1), n);
  }

  /** w is v with its confidence shared out k times among the children the
      matched entity lists; a reloaded record is not reduced at all. */
  ghost predicate SharedOut(s: Store, v: Value, k: nat, w: Value)
    requires Tagged(v)
  {
    var n := |ChildValues(s, RefOf(v))|;
    && Tagged(w) && RefOf(w) == RefOf(v) && (FreshRecord(w) <==> FreshRecord(v))
    && (if k == 0 then w == v
        else n > 0 && Pow(n, k) > 0
             && Certainty(w) == if FreshRecord(v) then Certainty(v) / Pow(n, k) else Certainty(v))
  }

  lemma AncestorIsAbove(s: Store, v: Value, q: Handle, k: nat)
    requires Walkable(s) && Tagged(v) && q in s && k > 0 && AncestorAt(s, q, RefOf(v), k)
    ensures UnderValue(s, v, q) && q != RefOf(v)
  {
    hide Acyclic;
    AncestorIsReached(s, q, RefOf(v), k);
    var p := RefOf(ParentValues(s, q)[0]);
    assert p in Neighbours(Up(s), q);
    AncestorIsReached(s, p, RefOf(v), k - 1);
    NotBack(s, q, p);
  }

  lemma NotBack(s: Store, q: Handle, p: Handle)
    requires Walkable(s) && p in Neighbours(Up(s), q)
    ensures !Reaches(Up(s), p, q)
  {
    hide Reaches, Up, Down;
  }

  /** One level: from the match at the parent to the match at q. */
  lemma AncestorShare(s: Store, v: Value, q: Handle, w': Value, k: nat) returns (w: Value)
    requires Walkable(s) && Mirrored(s) && Tagged(v) && q in s && k > 0 && AncestorAt(s, q, RefOf(v), k)
    requires SharedOut(s, v, k - 1, w')
    ensures Inherit(s, w', v, [], 1) == Matched([w]) && SharedOut(s, v, k, w)
  {
    hide Inherit, Walkable, Mirrored, UnderValue, AncestorAt;
    AncestorIsAbove(s, v, q, k);
    var share;
    share, w := InheritedOnce(s, v, q, w');
    PowShare(Certainty(v), |ChildValues(s, RefOf(v))|, k);
  }

  lemma InheritStep(s: Store, v: Value, q: Handle, state: MatchState, w': Value, w: Value)
    requires Walkable(s) && Mirrored(s) && Closed(s) && Tagged(v) && q in s && state != DownTree
    requires ParentValues(s, q) != [] && Meets(s, [v], RefOf(ParentValues(s, q)[0]), UpTree) == Matched([w'])
    requires Inherit(s, w', v, [], 1) == Matched([w])
    ensures Meets(s, [v], q, state) == Matched([w])
  {
    hide MeetsFrom, AnyBelow, Inherit, Tagged;
    ReasonsAt(s, v, q, state);
    OnePass(s, v, q, state);
  }

  /** A match on an ancestor k levels up, listing n children, has the value's
      confidence divided by n once per level, rounded down. */
  lemma {:induction false} InheritedConfidence(s: Store, v: Value, q: Handle, state: MatchState, k: nat) returns (w: Value)
    requires Walkable(s) && Mirrored(s) && Closed(s) && Tagged(v) && q in s && state != DownTree
    requires AncestorAt(s, q, RefOf(v), k)
    ensures Meets(s, [v], q, state) == Matched([w]) && SharedOut(s, v, k, w)
    decreases k
  {
    hide MeetsFrom, Inherit, Certainty;
    if k == 0 {
      DirectMatch(s, v, q, state);
      w := v;
    } else {
      var p := RefOf(ParentValues(s, q)[0]);
      assert p in s by { assert p in Parents(s, q); }
      var w' := InheritedConfidence(s, v, p, UpTree, k - 1);
      w := AncestorShare(s, v, q, w', k);
      InheritStep(s, v, q, state, w', w);
    }
  }

  // ---------- the loops ----------

  /** The inner loop: stops at the first child with a match. */
  method MatchBelow(s: Store, owner: Owner, propertyId: nat, q: Handle, state: MatchState) returns (r: MatchResult)
    requires Walkable(s) && q in s && state != UpTree && propertyId in owner.properties
    ensures r == AnyBelow(s, owner.properties[propertyId].values, q, state, 0)
    decreases Phase(state), Room(s, q, state), 0
  {
    var values := owner.properties[propertyId].values;
    if SUPERSET_OF !in s[q].properties { return Matched([]); }
    var subSets := s[q].properties[SUPERSET_OF].values;
    var j := 0;
    while j < |subSets|
      invariant 0 <= j <= |subSets|
      invariant AnyBelow(s, values, q, state, j) == AnyBelow(s, values, q, state, 0)
    {
      ChildHasLessRoom(s, q, j);
      AnyBelowStep(s, values, q, state, j);
      var sub := MeetsCondition(s, owner, propertyId, RefOf(subSets[j]), DownTree);
      if !sub.Matched? || sub.found != [] { return sub; }
      j := j + 1;
    }
    r := Matched([]);
  }

  method MatchAbove(s: Store, owner: Owner, propertyId: nat, q: Handle, state: MatchState) returns (r: MatchResult)
    requires Walkable(s) && q in s && state != DownTree && propertyId in owner.properties
    ensures r == Above(s, owner.properties[propertyId].values, q, state)
    decreases Phase(state), Room(s, q, state), 0
  {
    if SUBSET_OF !in s[q].properties || s[q].properties[SUBSET_OF].values == [] { return Matched([]); }
    ParentHasLessRoom(s, q);
    r := MeetsCondition(s, owner, propertyId, RefOf(s[q].properties[SUBSET_OF].values[0]), UpTree);
  }

  /** Writes through the cursor unless it has left the buffer. */
  method Write(results: array<Value>, end: nat, v: Value) returns (ok: bool, end': nat)
    requires end <= results.Length
    modifies results
    ensures if ok then end' == end + 1 <= results.Length else end' == end
    ensures Push(old(results[..end]), v, results.Length) == if ok then Matched(results[..end']) else Overrun
  {
    if end == results.Length { return false, end; }
    results[end] := v;
    assert results[..end + 1] == old(results[..end]) + [v];
    return true, end + 1;
  }

  /** Writes the share of an ancestor's match. */
  method WriteInherited(s: Store, r: Value, v: Value, results: array<Value>, end: nat) returns (failure: MatchResult, end': nat)
    requires end <= results.Length
    modifies results
    ensures end' <= results.Length
    ensures Inherit(s, r, v, old(results[..end]), results.Length) ==
      if failure.Matched? then Matched(results[..end']) else failure
  {
    if !HasKey(s, RefOf(r), SUPERSET_OF) { return OutOfRange, end; }
    if ChildValues(s, RefOf(r)) == [] { return DivideByZero, end; }
    if end == results.Length { return Overrun, end; }
    var w := Recertified(v, Certainty(r) / |ChildValues(s, RefOf(r))|);
    if w.Threw? { return OutOfRange, end; }
    var ok;
    ok, end' := Write(results, end, w.value);
    failure := Matched([]);
  }

  /** PropertyOwner::meetsCondition: the results are written through a cursor
      into a buffer with one slot per value. */
  method MeetsCondition(s: Store, owner: Owner, propertyId: nat, q: Handle, state: MatchState) returns (r: MatchResult)
    requires Walkable(s)
    ensures r == if propertyId in owner.properties then Meets(s, owner.properties[propertyId].values, q, state) else Matched([])
    decreases Phase(state), Room(s, q, state), 1
  {
    hide MeetsFrom, AnyBelow, Above, Inherit, Recertified;
    if propertyId !in owner.properties { return Matched([]); }
    var values := owner.properties[propertyId].values;
    var results := new Value[|values|](_ => ConfidenceRecord(0));
    var end := 0;
    for iter := 0 to |values|
      invariant 0 <= end <= |values|
      invariant MeetsFrom(s, values, q, state, iter, results[..end]) == Meets(s, values, q, state)
    {
      ghost var found := results[..end];
      var ok := true;
      MeetsExact(s, values, q, state, iter, found);
      if Hits(values[iter], q) {
        ok, end := Write(results, end, values[iter]);
        if !ok { return Overrun; }
      }
      assert Exact(values[iter], q, found, |values|) == Matched(results[..end]);
      if q !in s { return OutOfRange; }
      MeetsStep(s, values, q, state, iter, found);
      ghost var exact := results[..end];
      var below, above := Matched([]), Matched([]);
      if state != UpTree {
        below := MatchBelow(s, owner, propertyId, q, state);
        if !below.Matched? { return below; }
        if below.found != [] {
          ok, end := Write(results, end, values[iter]);
          if !ok { return Overrun; }
        }
      }
      assert below == BelowAt(s, values, q, state);
      assert (if below.found == [] then Matched(exact) else Push(exact, values[iter], |values|)) == Matched(results[..end]);
      if state != DownTree {
        above := MatchAbove(s, owner, propertyId, q, state);
        if !above.Matched? { return above; }
        if above.found != [] {
          var failure;
          failure, end := WriteInherited(s, above.found[0], values[iter], results, end);
          if !failure.Matched? { return failure; }
        }
      }
      assert above == AboveAt(s, values, q, state);
      assert Combine(s, values[iter], q, found, |values|, below, above) == Matched(results[..end]);
    }
    MeetsDone(s, values, q, state, results[..end]);
    r := Matched(results[..end]);
  }

  // ---------- strings, numbers and dates ----------

  /** What is asked for: an entity, or anything else by the equality of its type. */
  datatype Query = EntityQuery(q: Handle) | ValueQuery(equals: Value -> bool)

  /** The values that equal what is asked for, in order. */
  function Equals(values: seq<Value>, equals: Value -> bool): (r: seq<Value>)
    ensures |r| <= |values|
  {
    if values == [] then []
    else
      var init, last := Equals(values[..|values| - 1], equals), values[|values| - 1];
      if equals(last) then init + [last] else init
  }

  lemma {:induction false} EqualsFiltered(values: seq<Value>, equals: Value -> bool, v: Value)
    ensures multiset(Equals(values, equals))[v] == if equals(v) then multiset(values)[v] else 0
  {
    if values != [] {
      EqualsFiltered(values[..|values| - 1], equals, v);
      assert values == values[..|values| - 1] + [values[|values| - 1]];
    }
  }

  /** PropertyOwner::meetsCondition for any object; copying into the buffer stays
      inside it, because it copies each value at most once. */
  method MeetsObject(s: Store, owner: Owner, propertyId: nat, query: Query, state: MatchState) returns (r: MatchResult)
    requires Walkable(s)
    ensures propertyId !in owner.properties ==> r == Matched([])
    ensures propertyId in owner.properties && query.EntityQuery? ==> r == Meets(s, owner.properties[propertyId].values, query.q, state)
    ensures propertyId in owner.properties && query.ValueQuery? ==>
      r.Matched? && forall v :: multiset(r.found)[v] == if query.equals(v) then multiset(owner.properties[propertyId].values)[v] else 0
  {
    if query.EntityQuery? {
      r := MeetsCondition(s, owner, propertyId, query.q, state);
      return;
    }
    if propertyId !in owner.properties { return Matched([]); }
    var values := owner.properties[propertyId].values;
    var results := new Value[|values|](_ => ConfidenceRecord(0));
    var end := 0;
    for iter := 0 to |values|
      invariant 0 <= end <= iter && results[..end] == Equals(values[..iter], query.equals)
    {
      assert values[..iter + 1][..iter] == values[..iter];
      if query.equals(values[iter]) {
        results[end] := values[iter];
        assert results[..end + 1] == results[..end] + [values[iter]];
        end := end + 1;
      }
    }
    assert values[..|values|] == values;
    forall v { EqualsFiltered(values, query.equals, v); }
    r := Matched(results[..end]);
  }
}
