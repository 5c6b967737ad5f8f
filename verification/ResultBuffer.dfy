/** The result buffer of PropertyOwner::meetsCondition has one slot per value: when
    does the walk stay inside it, and when does it return at all? */
module ResultBuffer {
  import opened Hierarchy
  import opened Matching
  import opened Paths
  import opened Properties

  /** No value names an entity above or below that of another. */
  ghost predicate Unrelated(s: Store, values: seq<Value>) {
    forall i, j |
      0 <= i < |values| && 0 <= j < |values| && values[i].subtype == EntityRef && values[j].subtype == EntityRef
      && RefOf(values[i]) != RefOf(values[j])
      :: !Reaches(Down(s), RefOf(values[i]), RefOf(values[j]))
  }

  /** Of unrelated values, at most one reason for a match holds at each entity. */
  lemma UnrelatedReasons(s: Store, values: seq<Value>, q: Handle)
    requires Walkable(s) && Mirrored(s) && Unrelated(s, values) && q in s
    ensures SomeHit(values, q, 0) ==> !SomeChildRelated(s, values, ChildValues(s, q), 0)
    ensures ParentValues(s, q) != [] && SomeRelated(s, values, RefOf(ParentValues(s, q)[0]), UpTree) ==>
      !SomeHit(values, q, 0) && !SomeChildRelated(s, values, ChildValues(s, q), 0)
  {
    if SomeChildRelated(s, values, ChildValues(s, q), 0) {
      var j :| 0 <= j < |ChildValues(s, q)| && SomeRelated(s, values, RefOf(ChildValues(s, q)[j]), DownTree);
      var c := RefOf(ChildValues(s, q)[j]);
      var b :| 0 <= b < |values| && Related(s, values[b], c, DownTree);
      BelowExcludes(s, values, q, c, b);
    }
    if ParentValues(s, q) != [] && SomeRelated(s, values, RefOf(ParentValues(s, q)[0]), UpTree) && SomeHit(values, q, 0) {
      AboveExcludesHits(s, values, q);
    }
  }

  lemma AboveIsAbove(s: Store, v: Value, q: Handle)
    requires Mirrored(s) && q in s && ParentValues(s, q) != [] && UnderValue(s, v, RefOf(ParentValues(s, q)[0]))
    ensures Reaches(Down(s), RefOf(v), q)
  {
    var p := RefOf(ParentValues(s, q)[0]);
    assert p in Parents(s, q);
    AboveReachesDown(s, p, RefOf(v));
    ReachesNeighbour(Down(s), p, q);
    ReachesTransitive(Down(s), RefOf(v), p, q);
  }

  lemma AboveExcludesHits(s: Store, values: seq<Value>, q: Handle)
    requires Walkable(s) && Mirrored(s) && Unrelated(s, values) && q in s
    requires ParentValues(s, q) != [] && SomeRelated(s, values, RefOf(ParentValues(s, q)[0]), UpTree)
    ensures !SomeHit(values, q, 0)
  {
    var a :| 0 <= a < |values| && Related(s, values[a], RefOf(ParentValues(s, q)[0]), UpTree);
    AboveIsAbove(s, values[a], q);
    ReasonsExclude(s, values[a], q);
    hide Reaches, Acyclic, Mirrored, Parents, Children, ParentValues, ChildValues;
  }

  lemma BelowExcludes(s: Store, values: seq<Value>, q: Handle, c: Handle, b: nat)
    requires Walkable(s) && Mirrored(s) && Unrelated(s, values) && q in s && c in Children(s, q)
    requires b < |values| && Related(s, values[b], c, DownTree)
    ensures !SomeHit(values, q, 0)
    ensures ParentValues(s, q) != [] ==> !SomeRelated(s, values, RefOf(ParentValues(s, q)[0]), UpTree)
  {
    var x := RefOf(values[b]);
    assert c in Neighbours(Down(s), q);
    ReachesNeighbour(Down(s), q, c);
    ReachesTransitive(Down(s), q, c, x);
    if ParentValues(s, q) != [] && SomeRelated(s, values, RefOf(ParentValues(s, q)[0]), UpTree) {
      var p := RefOf(ParentValues(s, q)[0]);
      assert p in Parents(s, q);
      var a :| 0 <= a < |values| && Related(s, values[a], p, UpTree);
      AboveReachesDown(s, p, RefOf(values[a]));
      ReachesNeighbour(Down(s), p, q);
      ReachesTransitive(Down(s), RefOf(values[a]), p, q);
      ReachesTransitive(Down(s), RefOf(values[a]), q, x);
      assert RefOf(values[a]) == x;
      ReachesTransitive(Down(s), c, x, q);
    }
  }

  lemma CombineStaysInside(s: Store, v: Value, q: Handle, found: seq<Value>, slots: nat, below: MatchResult, above: MatchResult)
    requires |found| < slots && below != Overrun && above != Overrun
    requires below.Matched? && below.found != [] ==> !Hits(v, q)
    requires above.Matched? && above.found != [] ==> !Hits(v, q) && (below.Matched? ==> below.found == [])
    ensures Combine(s, v, q, found, slots, below, above) != Overrun
    ensures Combine(s, v, q, found, slots, below, above).Matched? ==> |Combine(s, v, q, found, slots, below, above).found| <= |found| + 1
  {
  }

  /** If at most one reason holds, each iteration writes at most once. */
  lemma {:induction false} PassStaysInside(s: Store, values: seq<Value>, q: Handle, state: MatchState, i: nat, found: seq<Value>)
    requires Walkable(s) && q in s && i <= |values| && |found| <= i
    requires var below, above := BelowAt(s, values, q, state), AboveAt(s, values, q, state);
      && below != Overrun && above != Overrun
      && (below.Matched? && below.found != [] ==> !SomeHit(values, q, 0))
      && (above.Matched? && above.found != [] ==> !SomeHit(values, q, 0) && (below.Matched? ==> below.found == []))
    ensures MeetsFrom(s, values, q, state, i, found) != Overrun
    decreases |values| - i
  {
    if i < |values| {
      var below, above := BelowAt(s, values, q, state), AboveAt(s, values, q, state);
      MeetsStep(s, values, q, state, i, found);
      assert Hits(values[i], q) ==> SomeHit(values, q, 0);
      CombineStaysInside(s, values[i], q, found, |values|, below, above);
      var step := Combine(s, values[i], q, found, |values|, below, above);
      if step.Matched? { PassStaysInside(s, values, q, state, i + 1, step.found); }
    }
  }

  lemma {:induction false} BelowStaysInside(s: Store, values: seq<Value>, q: Handle, state: MatchState, j: nat)
    requires Walkable(s) && Mirrored(s) && Closed(s) && Unrelated(s, values) && q in s && j <= |ChildValues(s, q)| && state != UpTree
    ensures AnyBelow(s, values, q, state, j) != Overrun
    decreases Phase(state), Room(s, q, state), 0, |ChildValues(s, q)| - j
  {
    if j < |ChildValues(s, q)| {
      var c := RefOf(ChildValues(s, q)[j]);
      ChildHasLessRoom(s, q, j);
      AnyBelowStep(s, values, q, state, j);
      assert c in s by { assert c in Children(s, q); }
      UnrelatedStayInside(s, values, c, DownTree);
      BelowStaysInside(s, values, q, state, j + 1);
    }
  }

  /** Any number of unrelated values: no write ever leaves the buffer. */
  lemma {:induction false} UnrelatedStayInside(s: Store, values: seq<Value>, q: Handle, state: MatchState)
    requires Walkable(s) && Mirrored(s) && Closed(s) && Unrelated(s, values) && q in s
    ensures Meets(s, values, q, state) != Overrun
    decreases Phase(state), Room(s, q, state), 1, 0
  {
    hide MeetsFrom, AnyBelow;
    var below, above := BelowAt(s, values, q, state), AboveAt(s, values, q, state);
    UnrelatedReasons(s, values, q);
    if state != UpTree {
      BelowStaysInside(s, values, q, state, 0);
      if below.Matched? { BelowVerdict(s, values, q, state, 0); }
    }
    if state != DownTree && ParentValues(s, q) != [] {
      var p := RefOf(ParentValues(s, q)[0]);
      assert p in Parents(s, q);
      ParentHasLessRoom(s, q);
      UnrelatedStayInside(s, values, p, UpTree);
      if above.Matched? { MeetsVerdict(s, values, p, UpTree); }
    }
    PassStaysInside(s, values, q, state, 0, []);
  }

  /** A normal return has written at most one slot a value, and one for every
      value when there was a match below. */
  lemma {:induction false} PassCounts(s: Store, values: seq<Value>, q: Handle, state: MatchState, i: nat, found: seq<Value>)
    requires Walkable(s) && q in s && i <= |values| && |found| <= |values|
    requires MeetsFrom(s, values, q, state, i, found).Matched?
    ensures |MeetsFrom(s, values, q, state, i, found).found| <= |values|
    ensures i < |values| && BelowAt(s, values, q, state).Matched? && BelowAt(s, values, q, state).found != [] ==>
      |MeetsFrom(s, values, q, state, i, found).found| >= |found| + (|values| - i) + if SomeHit(values, q, i) then 1 else 0
    decreases |values| - i
  {
    hide Combine, AnyBelow, Above;
    if i < |values| {
      var below, above := BelowAt(s, values, q, state), AboveAt(s, values, q, state);
      MeetsStep(s, values, q, state, i, found);
      var step := Combine(s, values[i], q, found, |values|, below, above);
      CombineWrites(s, values[i], q, found, |values|, below, above);
      PassCounts(s, values, q, state, i + 1, step.found);
      assert SomeHit(values, q, i) <==> Hits(values[i], q) || SomeHit(values, q, i + 1);
    }
  }

  // ---------- related values overrun ----------

  ghost predicate Returns(r: MatchResult) { r.Matched? || r == Overrun }

  /** When nothing comes from above, an iteration can only run out of slots. */
  lemma {:induction false} PassOnlyOverruns(s: Store, values: seq<Value>, q: Handle, state: MatchState, i: nat, found: seq<Value>)
    requires Walkable(s) && q in s && i <= |values|
    requires Returns(BelowAt(s, values, q, state)) && AboveAt(s, values, q, state) == Matched([])
    ensures Returns(MeetsFrom(s, values, q, state, i, found))
    decreases |values| - i
  {
    hide AnyBelow, Above;
    if i < |values| {
      MeetsStep(s, values, q, state, i, found);
      var step := Combine(s, values[i], q, found, |values|, BelowAt(s, values, q, state), AboveAt(s, values, q, state));
      if step.Matched? { PassOnlyOverruns(s, values, q, state, i + 1, step.found); }
    }
  }

  /** Down the tree nothing but an overrun can go wrong. */
  lemma {:induction false} DownOnlyOverruns(s: Store, values: seq<Value>, q: Handle)
    requires Walkable(s) && Closed(s) && q in s
    ensures Returns(Meets(s, values, q, DownTree))
    decreases Phase(DownTree), Room(s, q, DownTree), 1, 0
  {
    hide MeetsFrom, AnyBelow;
    BelowOnlyOverruns(s, values, q, DownTree, 0);
    PassOnlyOverruns(s, values, q, DownTree, 0, []);
  }

  lemma {:induction false} BelowOnlyOverruns(s: Store, values: seq<Value>, q: Handle, state: MatchState, j: nat)
    requires Walkable(s) && Closed(s) && q in s && j <= |ChildValues(s, q)| && state != UpTree
    ensures Returns(AnyBelow(s, values, q, state, j))
    decreases Phase(state), Room(s, q, state), 0, |ChildValues(s, q)| - j
  {
    if j < |ChildValues(s, q)| {
      var c := RefOf(ChildValues(s, q)[j]);
      ChildHasLessRoom(s, q, j);
      AnyBelowStep(s, values, q, state, j);
      assert c in s by { assert c in Children(s, q); }
      DownOnlyOverruns(s, values, c);
      BelowOnlyOverruns(s, values, q, state, j + 1);
    }
  }

  lemma ParentIsLive(s: Store, q: Handle) returns (p: Handle)
    requires Closed(s) && q in s && ParentValues(s, q) != []
    ensures p == RefOf(ParentValues(s, q)[0]) && p in s && p in Parents(s, q)
  {
    p := RefOf(ParentValues(s, q)[0]);
    assert p in Parents(s, q);
  }

  lemma {:induction false} PassFindsNothing(s: Store, values: seq<Value>, q: Handle, state: MatchState, i: nat)
    requires Walkable(s) && q in s && i <= |values| && !SomeHit(values, q, 0)
    requires BelowAt(s, values, q, state) == Matched([]) && AboveAt(s, values, q, state) == Matched([])
    ensures MeetsFrom(s, values, q, state, i, []) == Matched([])
    decreases |values| - i
  {
    hide AnyBelow, Above;
    if i < |values| {
      assert !Hits(values[i], q);
      MeetsStep(s, values, q, state, i, []);
      PassFindsNothing(s, values, q, state, i + 1);
    }
  }

  /** Up the tree a search for what is not there returns empty-handed. */
  lemma {:induction false} NothingAbove(s: Store, values: seq<Value>, q: Handle)
    requires Walkable(s) && Closed(s) && q in s && !SomeRelated(s, values, q, UpTree)
    ensures Meets(s, values, q, UpTree) == Matched([])
    decreases Room(s, q, UpTree)
  {
    hide MeetsFrom;
    AllRelated(s, values, q, UpTree);
    if ParentValues(s, q) != [] {
      var p := ParentIsLive(s, q);
      ParentHasLessRoom(s, q);
      NothingAbove(s, values, p);
    }
    PassFindsNothing(s, values, q, UpTree, 0);
  }

  /** value i names an entity above that of value j. */
  ghost predicate LiesAbove(s: Store, values: seq<Value>, i: nat, j: nat) {
    && i < |values| && j < |values| && values[i].subtype == EntityRef && values[j].subtype == EntityRef
    && RefOf(values[i]) != RefOf(values[j]) && Reaches(Down(s), RefOf(values[i]), RefOf(values[j]))
  }

  /** Asking for the topmost entity that lies above another value's. */
  lemma {:induction false} TopmostOverruns(s: Store, values: seq<Value>, i: nat, j: nat) returns (q: Handle)
    requires Walkable(s) && Mirrored(s) && Closed(s) && LiesAbove(s, values, i, j)
    ensures q in s && Meets(s, values, q, Any) == Overrun
    decreases Room(s, RefOf(values[i]), UpTree)
  {
    q := RefOf(values[i]);
    assert q in s by { ReachesByFirstStep(Down(s), q, RefOf(values[j])); }
    if ParentValues(s, q) != [] && SomeRelated(s, values, RefOf(ParentValues(s, q)[0]), UpTree) {
      var p := ParentIsLive(s, q);
      var a :| 0 <= a < |values| && Related(s, values[a], p, UpTree);
      HigherStill(s, values, a, i, j, p);
      q := TopmostOverruns(s, values, a, j);
    } else {
      if ParentValues(s, q) != [] {
        var p := ParentIsLive(s, q);
        NothingAbove(s, values, p);
      }
      TopOverruns(s, values, i, j, q);
    }
  }

  lemma HigherStill(s: Store, values: seq<Value>, a: nat, i: nat, j: nat, p: Handle)
    requires Walkable(s) && Mirrored(s) && Closed(s) && LiesAbove(s, values, i, j)
    requires p in s && RefOf(values[i]) in s && p in Parents(s, RefOf(values[i])) && a < |values| && Related(s, values[a], p, UpTree)
    ensures LiesAbove(s, values, a, j)
    ensures Room(s, RefOf(values[a]), UpTree) < Room(s, RefOf(values[i]), UpTree)
  {
    var q, x := RefOf(values[i]), RefOf(values[a]);
    assert p in Neighbours(Up(s), q);
    AboveReachesDown(s, p, x);
    assert q in Neighbours(Down(s), p);
    ReachesNeighbour(Down(s), p, q);
    ReachesTransitive(Down(s), x, p, q);
    ReachesTransitive(Down(s), x, q, RefOf(values[j]));
    if x == RefOf(values[j]) {
      ReachesTransitive(Down(s), q, x, p);
    }
    ExtentShrinks(Up(s), q, p);
    ReachedExtent(Up(s), p, x);
  }

  lemma ReachedExtent(g: Adjacency, a: nat, b: nat)
    requires Reaches(g, a, b)
    ensures Extent(g, b) <= Extent(g, a)
  {
    forall n | n in Component(g, b) ensures n in Component(g, a) { ReachesTransitive(g, a, b, n); }
    SubsetSize(Component(g, b), Component(g, a));
  }

  lemma TopOverruns(s: Store, values: seq<Value>, i: nat, j: nat, q: Handle)
    requires Walkable(s) && Closed(s) && LiesAbove(s, values, i, j) && q == RefOf(values[i]) && q in s
    requires Above(s, values, q, Any) == Matched([])
    ensures Meets(s, values, q, Any) == Overrun
  {
    hide MeetsFrom, AnyBelow, Above;
    ReachesByFirstStep(Down(s), q, RefOf(values[j]));
    var c :| c in Neighbours(Down(s), q) && Reaches(Down(s), c, RefOf(values[j]));
    assert c in Children(s, q);
    var k :| 0 <= k < |ChildValues(s, q)| && RefOf(ChildValues(s, q)[k]) == c;
    assert Related(s, values[j], RefOf(ChildValues(s, q)[k]), DownTree);
    assert SomeRelated(s, values, RefOf(ChildValues(s, q)[k]), DownTree);
    BelowOnlyOverruns(s, values, q, Any, 0);
    PassOnlyOverruns(s, values, q, Any, 0, []);
    if Meets(s, values, q, Any).Matched? {
      PassVerdict(s, values, q, Any, 0, []);
      BelowVerdict(s, values, q, Any, 0);
      assert Hits(values[i], q);
      PassCounts(s, values, q, Any, 0, []);
    }
  }

  /** No query ever writes past the result buffer exactly when no value's entity
      lies above another's. */
  lemma StaysInsideIff(s: Store, values: seq<Value>)
    requires Walkable(s) && Mirrored(s) && Closed(s)
    ensures Unrelated(s, values) <==> forall q, state :: q in s ==> Meets(s, values, q, state) != Overrun
    ensures !Unrelated(s, values) ==> exists q :: q in s && Meets(s, values, q, Any) == Overrun
  {
    if Unrelated(s, values) {
      forall q, state | q in s ensures Meets(s, values, q, state) != Overrun { UnrelatedStayInside(s, values, q, state); }
    } else {
      var i, j :| 0 <= i < |values| && 0 <= j < |values| && values[i].subtype == EntityRef && values[j].subtype == EntityRef
        && RefOf(values[i]) != RefOf(values[j]) && Reaches(Down(s), RefOf(values[i]), RefOf(values[j]));
      var q := TopmostOverruns(s, values, i, j);
    }
  }

  // ---------- unrelated values may still throw ----------

  ghost predicate AllTagged(values: seq<Value>) { forall i :: 0 <= i < |values| ==> Tagged(values[i]) }

  /** q lies two levels or more below a value's entity. */
  ghost predicate FarBelow(s: Store, values: seq<Value>, q: Handle) {
    ParentValues(s, q) != [] && var p := RefOf(ParentValues(s, q)[0]);
    ParentValues(s, p) != [] && SomeRelated(s, values, RefOf(ParentValues(s, p)[0]), UpTree)
  }

  /** A match from far above is shared out by the number of children that the
      first value's entity lists, whichever value matched. */
  predicate DivisorThere(s: Store, values: seq<Value>) { values != [] && ChildValues(s, RefOf(values[0])) != [] }

  function NoDivisor(s: Store, r: Value): MatchResult {
    if HasKey(s, RefOf(r), SUPERSET_OF) then DivideByZero else OutOfRange
  }

  lemma InheritPushes(s: Store, r: Value, v: Value, found: seq<Value>, slots: nat) returns (w: Value)
    requires Tagged(v) && ChildValues(s, RefOf(r)) != [] && |found| < slots
    ensures Inherit(s, r, v, found, slots) == Matched(found + [w]) && RefOf(w) == RefOf(v)
  {
    var share := Shared(Certainty(r), |ChildValues(s, RefOf(r))|);
    ByteSized(r);
    w := RecertifiedIs(v, share);
    hide Recertified, Certainty, Tagged;
  }

  /** A match above with a divisor: a clone of every value, in order. */
  lemma {:induction false} PassShares(s: Store, values: seq<Value>, q: Handle, state: MatchState, i: nat, found: seq<Value>, r: Value)
    requires Walkable(s) && q in s && |found| == i <= |values| && AllTagged(values) && !SomeHit(values, q, 0)
    requires BelowAt(s, values, q, state) == Matched([]) && ChildValues(s, RefOf(r)) != []
    requires AboveAt(s, values, q, state).Matched? && AboveAt(s, values, q, state).found != [] && AboveAt(s, values, q, state).found[0] == r
    ensures var m := MeetsFrom(s, values, q, state, i, found);
      && m.Matched? && |m.found| == |values|
      && (forall k :: 0 <= k < i ==> m.found[k] == found[k]) && (forall k :: i <= k < |values| ==> RefOf(m.found[k]) == RefOf(values[k]))
    decreases |values| - i
  {
    hide AnyBelow, Above, Inherit, Tagged;
    if i < |values| {
      assert !Hits(values[i], q) && Tagged(values[i]);
      MeetsStep(s, values, q, state, i, found);
      var w := InheritPushes(s, r, values[i], found, |values|);
      PassShares(s, values, q, state, i + 1, found + [w], r);
    } else {
      MeetsDone(s, values, q, state, found);
    }
  }

  /** Without a divisor, or with a failure above, the first value already fails. */
  lemma FirstFails(s: Store, values: seq<Value>, q: Handle, state: MatchState, failure: MatchResult)
    requires Walkable(s) && q in s && values != [] && !SomeHit(values, q, 0)
    requires BelowAt(s, values, q, state) == Matched([]) && !failure.Matched?
    requires var above := AboveAt(s, values, q, state);
      above == failure || (above.Matched? && above.found != [] && ChildValues(s, RefOf(above.found[0])) == [] && failure == NoDivisor(s, above.found[0]))
    ensures Meets(s, values, q, state) == failure
  {
    hide AnyBelow, Above;
    assert !Hits(values[0], q);
    MeetsStep(s, values, q, state, 0, []);
  }

  lemma {:induction false} PassHits(s: Store, values: seq<Value>, q: Handle, state: MatchState, i: nat, found: seq<Value>)
    requires Walkable(s) && q in s && |found| <= i <= |values| && forall k :: 0 <= k < |found| ==> RefOf(found[k]) == q
    requires BelowAt(s, values, q, state) == Matched([]) && AboveAt(s, values, q, state) == Matched([])
    ensures var m := MeetsFrom(s, values, q, state, i, found);
      m.Matched? && forall k :: 0 <= k < |m.found| ==> RefOf(m.found[k]) == q
    decreases |values| - i
  {
    hide AnyBelow, Above;
    if i < |values| {
      MeetsStep(s, values, q, state, i, found);
      var step := Combine(s, values[i], q, found, |values|, BelowAt(s, values, q, state), AboveAt(s, values, q, state));
      PassHits(s, values, q, state, i + 1, step.found);
    } else {
      MeetsDone(s, values, q, state, found);
    }
  }

  ghost predicate Climbs(s: Store, values: seq<Value>) {
    Walkable(s) && Mirrored(s) && Closed(s) && Unrelated(s, values) && AllTagged(values)
  }

  /** What a walk up the tree brings back from p. */
  ghost predicate UpAnswer(s: Store, values: seq<Value>, p: Handle, r: MatchResult) {
    if !SomeRelated(s, values, p, UpTree) then r == Matched([])
    else if SomeHit(values, p, 0) then r.Matched? && r.found != [] && RefOf(r.found[0]) == p
    else Inherits(s, values, p, r)
  }

  /** The answer for an entity strictly below a value's. */
  ghost predicate Inherits(s: Store, values: seq<Value>, q: Handle, r: MatchResult) {
    && values != []
    && (FarBelow(s, values, q) && !DivisorThere(s, values) ==> r == NoDivisor(s, values[0]))
    && (!FarBelow(s, values, q) || DivisorThere(s, values) ==> r.Matched? && r.found != [] && RefOf(r.found[0]) == RefOf(values[0]))
  }

  lemma FarBelowIff(s: Store, values: seq<Value>, q: Handle, p: Handle)
    requires Climbs(s, values) && q in s && ParentValues(s, q) != [] && p == RefOf(ParentValues(s, q)[0]) && p in s
    requires SomeRelated(s, values, p, UpTree)
    ensures FarBelow(s, values, q) <==> !SomeHit(values, p, 0)
  {
    AllRelated(s, values, p, UpTree);
    UnrelatedReasons(s, values, p);
  }

  lemma ListsChild(s: Store, q: Handle, p: Handle)
    requires Mirrored(s) && q in s && ParentValues(s, q) != [] && p == RefOf(ParentValues(s, q)[0])
    ensures ChildValues(s, p) != []
  {
    assert p in Parents(s, q);
    assert q in Children(s, p);
  }

  /** One step up, with the answer for the parent known. */
  lemma StepUp(s: Store, values: seq<Value>, q: Handle, state: MatchState, p: Handle)
    requires Climbs(s, values) && q in s && state != DownTree && ParentValues(s, q) != [] && p == RefOf(ParentValues(s, q)[0]) && p in s
    requires SomeRelated(s, values, p, UpTree) && UpAnswer(s, values, p, Meets(s, values, p, UpTree))
    requires BelowAt(s, values, q, state) == Matched([]) && !SomeHit(values, q, 0)
    ensures Inherits(s, values, q, Meets(s, values, q, state))
  {
    hide MeetsFrom, AnyBelow, Walkable, Mirrored, Closed, Unrelated, Tagged, Children;
    var above := AboveAt(s, values, q, state);
    assert above == Meets(s, values, p, UpTree);
    FarBelowIff(s, values, q, p);
    if SomeHit(values, p, 0) {
      ListsChild(s, q, p);
      PassShares(s, values, q, state, 0, [], above.found[0]);
    } else if FarBelow(s, values, p) && !DivisorThere(s, values) {
      FirstFails(s, values, q, state, above);
    } else if DivisorThere(s, values) {
      PassShares(s, values, q, state, 0, [], above.found[0]);
    } else {
      FirstFails(s, values, q, state, NoDivisor(s, values[0]));
    }
  }

  /** Every walk up the tree, to its end. */
  lemma {:induction false} UpAnswers(s: Store, values: seq<Value>, q: Handle)
    requires Climbs(s, values) && q in s
    ensures UpAnswer(s, values, q, Meets(s, values, q, UpTree))
    decreases Room(s, q, UpTree)
  {
    hide MeetsFrom, AnyBelow, Above, Unrelated, Tagged, Mirrored;
    AllRelated(s, values, q, UpTree);
    UnrelatedReasons(s, values, q);
    if !SomeRelated(s, values, q, UpTree) {
      NothingAbove(s, values, q);
    } else if SomeHit(values, q, 0) {
      NoneAboveHit(s, values, q);
      PassHits(s, values, q, UpTree, 0, []);
      PassVerdict(s, values, q, UpTree, 0, []);
    } else {
      var p := ParentIsLive(s, q);
      ParentHasLessRoom(s, q);
      UpAnswers(s, values, p);
      StepUp(s, values, q, UpTree, p);
    }
  }

  lemma NoneAboveHit(s: Store, values: seq<Value>, q: Handle)
    requires Climbs(s, values) && q in s && SomeHit(values, q, 0)
    ensures Above(s, values, q, UpTree) == Matched([]) && Above(s, values, q, Any) == Matched([])
  {
    hide MeetsFrom, Tagged;
    UnrelatedReasons(s, values, q);
    if ParentValues(s, q) != [] {
      var p := ParentIsLive(s, q);
      NothingAbove(s, values, p);
    }
  }

  lemma NothingFromAbove(s: Store, values: seq<Value>, q: Handle)
    requires Climbs(s, values) && q in s && ParentValues(s, q) != [] ==> !SomeRelated(s, values, RefOf(ParentValues(s, q)[0]), UpTree)
    requires Climbs(s, values) && q in s
    ensures Above(s, values, q, Any) == Matched([])
  {
    hide MeetsFrom, Tagged, Unrelated;
    if ParentValues(s, q) != [] {
      var p := ParentIsLive(s, q);
      NothingAbove(s, values, p);
    }
  }

  /** Of unrelated values a search returns normally exactly when it does not walk
      up, or nothing matches from two levels or more, or the first value's entity
      lists a child. Otherwise a lookup or a division fails. */
  lemma ReturnsIff(s: Store, values: seq<Value>, q: Handle, state: MatchState)
    requires Climbs(s, values) && q in s
    ensures Meets(s, values, q, state).Matched? <==> state == DownTree || !FarBelow(s, values, q) || DivisorThere(s, values)
    ensures !Meets(s, values, q, state).Matched? ==> values != [] && Meets(s, values, q, state) == NoDivisor(s, values[0])
  {
    hide MeetsFrom, AnyBelow, Above, Unrelated, Tagged, Mirrored;
    UnrelatedStayInside(s, values, q, state);
    if state == DownTree {
      DownOnlyOverruns(s, values, q);
    } else if ParentValues(s, q) != [] && SomeRelated(s, values, RefOf(ParentValues(s, q)[0]), UpTree) {
      var p := ParentIsLive(s, q);
      NothingBelow(s, values, q, state);
      UpAnswers(s, values, p);
      UnrelatedReasons(s, values, q);
      StepUp(s, values, q, state, p);
    } else {
      NotFarBelow(s, values, q);
      if state == UpTree {
        UpAnswers(s, values, q);
        AllRelated(s, values, q, UpTree);
      } else {
        NothingFromAbove(s, values, q);
        BelowOnlyOverruns(s, values, q, Any, 0);
        PassOnlyOverruns(s, values, q, Any, 0, []);
      }
    }
  }

  lemma NotFarBelow(s: Store, values: seq<Value>, q: Handle)
    requires Closed(s) && q in s
    requires ParentValues(s, q) == [] || !SomeRelated(s, values, RefOf(ParentValues(s, q)[0]), UpTree)
    ensures !FarBelow(s, values, q)
  {
    if ParentValues(s, q) != [] {
      var p := ParentIsLive(s, q);
      AllRelated(s, values, p, UpTree);
    }
  }

  /** Nothing matches below an entity that has a match above. */
  lemma NothingBelow(s: Store, values: seq<Value>, q: Handle, state: MatchState)
    requires Climbs(s, values) && q in s && ParentValues(s, q) != [] && SomeRelated(s, values, RefOf(ParentValues(s, q)[0]), UpTree)
    ensures BelowAt(s, values, q, state) == Matched([])
  {
    hide MeetsFrom, AnyBelow, Tagged;
    UnrelatedReasons(s, values, q);
    if state != UpTree {
      BelowOnlyOverruns(s, values, q, state, 0);
      BelowStaysInside(s, values, q, state, 0);
      BelowVerdict(s, values, q, state, 0);
    }
  }

  /** Every search returns normally exactly when no value's entity lies above
      another's and, if anything lies two levels below one, the first value's
      entity lists a child. */
  lemma AlwaysReturnsIff(s: Store, values: seq<Value>)
    requires Walkable(s) && Mirrored(s) && Closed(s) && AllTagged(values)
    ensures (forall q, state :: q in s ==> Meets(s, values, q, state).Matched?)
       <==> Unrelated(s, values) && (DivisorThere(s, values) || forall q :: q in s ==> !FarBelow(s, values, q))
  {
    hide MeetsFrom, Meets, Unrelated, Tagged, Mirrored, FarBelow, DivisorThere, Closed, Walkable;
    StaysInsideIff(s, values);
    if Unrelated(s, values) {
      forall q, state | q in s
        ensures Meets(s, values, q, state).Matched? <==> state == DownTree || !FarBelow(s, values, q) || DivisorThere(s, values)
      {
        ReturnsIff(s, values, q, state);
      }
      if !DivisorThere(s, values) {
        forall q | q in s && FarBelow(s, values, q) ensures !Meets(s, values, q, UpTree).Matched? { }
      }
    } else {
      var q :| q in s && Meets(s, values, q, Any) == Overrun;
    }
  }

  // ---------- two inputs ----------

  function RefsTo(hs: seq<Handle>): seq<Value> { seq(|hs|, i requires 0 <= i < |hs| => MakeRef(hs[i], 100)) }

  /** An entity that lists the given children, and has the given parent if any. */
  function Node(lower: seq<Handle>, upper: seq<Handle>): Owner {
    Owner(false,
      (if lower == [] then map[] else map[SUPERSET_OF := Property(ConcreteMulti, SUPERSET_OF, EntityRef, RefsTo(lower))])
      + (if upper == [] then map[] else map[SUBSET_OF := Property(ConcreteSingle, SUBSET_OF, EntityRef, RefsTo(upper))]))
  }

  /** 1 above 2 above 3, and 4 apart. */
  function Chain(): Store { map[1 := Node([2], []), 2 := Node([3], [1]), 3 := Node([], [2]), 4 := Node([], [])] }

  lemma NodeShows(s: Store, h: Handle, lower: seq<Handle>, upper: seq<Handle>)
    requires h in s && s[h] == Node(lower, upper) && |upper| <= 1
    ensures Children(s, h) == (set x | x in lower) && Parents(s, h) == (set x | x in upper)
    ensures |ChildValues(s, h)| == |lower| && |ParentValues(s, h)| == |upper|
    ensures forall i :: 0 <= i < |lower| ==> RefOf(ChildValues(s, h)[i]) == lower[i]
    ensures upper != [] ==> RefOf(ParentValues(s, h)[0]) == upper[0]
  {
    assert ChildValues(s, h) == RefsTo(lower) && ParentValues(s, h) == RefsTo(upper);
    forall x | x in lower ensures x in Children(s, h) {
      var i :| 0 <= i < |lower| && lower[i] == x;
      assert RefOf(RefsTo(lower)[i]) == x;
    }
  }

  lemma ChainShows()
    ensures var s := Chain();
      && Down(s) == map[1 := {2}, 2 := {3}, 3 := {}, 4 := {}] && Up(s) == map[1 := {}, 2 := {1}, 3 := {2}, 4 := {}]
      && Mirrored(s) && Closed(s)
  {
    var s := Chain();
    hide Node, Children, Parents;
    NodeShows(s, 1, [2], []);
    NodeShows(s, 2, [3], [1]);
    NodeShows(s, 3, [], [2]);
    NodeShows(s, 4, [], []);
    forall h: Handle ensures (set x | x in [h]) == {h} && (set x: Handle | x in []) == {} { }
    assert s.Keys == {1, 2, 3, 4};
    assert Down(s).Keys == s.Keys && Up(s).Keys == s.Keys;
    assert Children(s, 1) == {2} && Children(s, 2) == {3} && Children(s, 3) == {} && Children(s, 4) == {};
    assert Parents(s, 1) == {} && Parents(s, 2) == {1} && Parents(s, 3) == {2} && Parents(s, 4) == {};
  }

  lemma ChainIsWalkable()
    ensures Walkable(Chain())
    ensures forall x :: !Reaches(Down(Chain()), 4, x) || x == 4
  {
    var s := Chain();
    ChainShows();
    hide Chain, Mirrored, Closed, Reaches, Down, Up;
    ChainDown(Down(s));
    hide ClosedUnder;
    MirroredIsWalkable(s);
  }

  lemma ChainDown(g: Adjacency)
    requires g == map[1 := {2}, 2 := {3}, 3 := {}, 4 := {}]
    ensures Acyclic(g) && forall x :: !Reaches(g, 4, x) || x == 4
  {
    hide Reaches;
    forall a, b | b in Neighbours(g, a) ensures !Reaches(g, b, a) {
      if Reaches(g, b, a) { ClosedKeepsReached(g, if b == 2 then {2, 3} else {3}, b, a); }
    }
    forall x | Reaches(g, 4, x) ensures x == 4 { ClosedKeepsReached(g, {4}, 4, x); }
  }

  lemma RefsShow(hs: seq<Handle>)
    ensures AllTagged(RefsTo(hs)) && |RefsTo(hs)| == |hs| && forall i :: 0 <= i < |hs| ==> RefOf(RefsTo(hs)[i]) == hs[i]
  {
  }

  /** Values that name 1 and 2 overrun the buffer. */
  lemma ChainOverruns()
    ensures exists q :: q in Chain() && Walkable(Chain()) && Meets(Chain(), RefsTo([1, 2]), q, Any) == Overrun
  {
    var s, vs := Chain(), RefsTo([1, 2]);
    RefsShow([1, 2]);
    ChainShows();
    ChainIsWalkable();
    hide Chain, Meets, RefsTo, Mirrored, Closed, Walkable;
    ReachesNeighbour(Down(s), 1, 2);
    assert RefOf(vs[0]) == 1 && RefOf(vs[1]) == 2;
    StaysInsideIff(s, vs);
  }

  lemma PairUnrelated(s: Store, vs: seq<Value>, a: Handle, b: Handle)
    requires |vs| == 2 && RefOf(vs[0]) == a && RefOf(vs[1]) == b && !Reaches(Down(s), a, b) && !Reaches(Down(s), b, a)
    ensures Unrelated(s, vs)
  {
    hide Reaches, Down, RefOf;
  }

  lemma FourAndOneAreUnrelated(s: Store, vs: seq<Value>)
    requires s == Chain() && vs == RefsTo([4, 1])
    ensures Climbs(s, vs)
  {
    RefsShow([4, 1]);
    ChainShows();
    ChainIsWalkable();
    hide Node, Chain, RefsTo, AllTagged, Mirrored, Closed, Walkable, Reaches, Unrelated, RefOf;
    assert RefOf(vs[0]) == [4, 1][0] && RefOf(vs[1]) == [4, 1][1];
    OneNotToFour(Down(s));
    hide Down;
    PairUnrelated(s, vs, 4, 1);
  }

  lemma OneNotToFour(g: Adjacency)
    requires g == map[1 := {2}, 2 := {3}, 3 := {}, 4 := {}]
    ensures !Reaches(g, 1, 4)
  {
    hide Reaches;
    if Reaches(g, 1, 4) { ClosedKeepsReached(g, {1, 2, 3}, 1, 4); }
  }

  lemma ThreeIsFarBelow(vs: seq<Value>)
    requires vs == RefsTo([4, 1])
    ensures FarBelow(Chain(), vs, 3) && !DivisorThere(Chain(), vs) && NoDivisor(Chain(), vs[0]) == OutOfRange
  {
    var s := Chain();
    NodeShows(s, 4, [], []);
    NodeShows(s, 3, [], [2]);
    NodeShows(s, 2, [3], [1]);
    assert RefOf(vs[0]) == 4 && RefOf(vs[1]) == 1;
    assert !HasKey(s, 4, SUPERSET_OF);
    hide Node, RefsTo, Reaches;
    ReachesSelf(Up(s), 1);
    assert vs[1].subtype == EntityRef by { RefsShow([4, 1]); assert Tagged(vs[1]); }
    assert Related(s, vs[1], 1, UpTree);
  }

  /** Values that name 4 and 1 are unrelated, and asking for 3 throws: the match on
      1 is to be shared out among the children of 4, which lists none. */
  lemma ChainThrows()
    ensures Climbs(Chain(), RefsTo([4, 1])) && 3 in Chain() && Meets(Chain(), RefsTo([4, 1]), 3, Any) == OutOfRange
  {
    var vs := RefsTo([4, 1]);
    FourAndOneAreUnrelated(Chain(), vs);
    ThreeIsFarBelow(vs);
    assert 3 in Chain();
    hide *;
    ReturnsIff(Chain(), vs, 3, Any);
  }
}
