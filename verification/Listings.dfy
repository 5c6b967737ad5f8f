/** Ordered containers: std::map and std::set are walked in the order of their
    keys, and std::map::insert keeps an entry that is already there. */
module Listings {
  import opened Bytes
  import opened Paths

  // ---------- orders ----------

  ghost predicate TotalOrder<K(!new)>(le: (K, K) -> bool) {
    && (forall a, b :: le(a, b) || le(b, a))
    && (forall a, b :: le(a, b) && le(b, a) ==> a == b)
    && (forall a, b, c :: le(a, b) && le(b, c) ==> le(a, c))
  }

  function AtMost(): (nat, nat) -> bool { (a: nat, b: nat) => a <= b }

  /** The order of std::string keys: bytes compared as unsigned, a prefix first. */
  predicate TextAtMost(a: Text, b: Text) {
    a == [] || (b != [] && (a[0] < b[0] || (a[0] == b[0] && TextAtMost(a[1..], b[1..]))))
  }

  function ByText(): (Text, Text) -> bool { (a: Text, b: Text) => TextAtMost(a, b) }

  lemma {:induction false} TextsCompare(a: Text, b: Text)
    ensures TextAtMost(a, b) || TextAtMost(b, a)
    ensures TextAtMost(a, b) && TextAtMost(b, a) ==> a == b
  {
    if a != [] && b != [] {
      TextsCompare(a[1..], b[1..]);
      assert a == [a[0]] + a[1..] && b == [b[0]] + b[1..];
    }
  }

  lemma {:induction false} TextsChain(a: Text, b: Text, c: Text)
    requires TextAtMost(a, b) && TextAtMost(b, c)
    ensures TextAtMost(a, c)
  {
    if a != [] && a[0] == b[0] && b[0] == c[0] { TextsChain(a[1..], b[1..], c[1..]); }
  }

  lemma OrdersAreTotal()
    ensures TotalOrder(AtMost()) && TotalOrder(ByText())
  {
    forall a: Text, b: Text
      ensures ByText()(a, b) || ByText()(b, a)
      ensures ByText()(a, b) && ByText()(b, a) ==> a == b
    {
      TextsCompare(a, b);
    }
    forall a: Text, b: Text, c: Text | ByText()(a, b) && ByText()(b, c) ensures ByText()(a, c) { TextsChain(a, b, c); }
  }

  // ---------- walking a set ----------

  ghost predicate First<K(!new)>(m: K, s: set<K>, le: (K, K) -> bool) {
    m in s && forall x :: x in s ==> le(m, x)
  }

  lemma {:induction false} FirstExists<K(!new)>(s: set<K>, le: (K, K) -> bool)
    requires TotalOrder(le) && s != {}
    ensures exists m :: First(m, s, le)
  {
    var x :| x in s;
    if s == {x} {
      assert First(x, s, le);
    } else {
      FirstExists(s - {x}, le);
      var m' :| First(m', s - {x}, le);
      var m := if le(m', x) then m' else x;
      forall y | y in s ensures le(m, y) { assert y == x || y in s - {x}; }
      assert First(m, s, le);
    }
  }

  /** Where an iterator stands after the elements before it are done. */
  method FirstOf<K(!new, ==)>(s: set<K>, le: (K, K) -> bool) returns (m: K)
    requires TotalOrder(le) && s != {}
    ensures First(m, s, le)
  {
    m :| m in s;
    var rest := s - {m};
    while rest != {}
      invariant rest <= s && m in s && m !in rest
      invariant forall x :: x in s && x !in rest ==> le(m, x)
    {
      var x :| x in rest;
      rest := rest - {x};
      if le(x, m) { m := x; }
    }
  }

  /** The elements of a set in iteration order. */
  ghost function Listing<K(!new)>(s: set<K>, le: (K, K) -> bool): seq<K>
    requires TotalOrder(le)
  {
    if s == {} then []
    else
      FirstExists(s, le);
      var m :| First(m, s, le);
      [m] + Listing(s - {m}, le)
  }

  lemma ListingStarts<K(!new)>(m: K, s: set<K>, le: (K, K) -> bool)
    requires TotalOrder(le) && First(m, s, le)
    ensures Listing(s, le) == [m] + Listing(s - {m}, le)
  {
    assert forall x :: First(x, s, le) ==> x == m;
  }

  ghost predicate Distinct<K>(ks: seq<K>) {
    forall i, j :: 0 <= i < j < |ks| ==> ks[i] != ks[j]
  }

  /** Every element once, in ascending order. */
  lemma {:induction false} ListingLists<K(!new)>(s: set<K>, le: (K, K) -> bool)
    requires TotalOrder(le)
    ensures forall x :: x in Listing(s, le) <==> x in s
    ensures |Listing(s, le)| == |s| && Distinct(Listing(s, le))
    ensures forall i, j :: 0 <= i < j < |s| ==> le(Listing(s, le)[i], Listing(s, le)[j])
  {
    if s != {} {
      FirstExists(s, le);
      var m :| First(m, s, le);
      ListingStarts(m, s, le);
      ListingLists(s - {m}, le);
      var rest := Listing(s - {m}, le);
      forall i | 0 <= i < |rest| ensures rest[i] in s && rest[i] != m { assert rest[i] in rest; }
      forall x | x in s ensures x in Listing(s, le) { assert x == m || x in rest; }
    }
  }

  /** The handles or ids of a set, ascending. */
  ghost function Ascending(s: set<nat>): seq<nat> {
    OrdersAreTotal();
    Listing(s, AtMost())
  }

  lemma AscendingLists(s: set<nat>)
    ensures forall x :: x in Ascending(s) <==> x in s
    ensures |Ascending(s)| == |s| && Distinct(Ascending(s))
  {
    OrdersAreTotal();
    ListingLists(s, AtMost());
  }

  lemma AscendingStarts(m: nat, s: set<nat>)
    requires IsLeast(m, s)
    ensures Ascending(s) == [m] + Ascending(s - {m})
  {
    OrdersAreTotal();
    ListingStarts(m, s, AtMost());
  }

  lemma AscendingEnds()
    ensures Ascending({}) == []
  {
  }

  /** The names of a set in string order. */
  ghost function Alphabetical(s: set<Text>): seq<Text> {
    OrdersAreTotal();
    Listing(s, ByText())
  }

  // ---------- filling a map ----------

  /** std::map::insert. */
  function Inserted<K, V>(m: map<K, V>, k: K, v: V): map<K, V> {
    if k in m then m else m[k := v]
  }

  ghost function Restricted<K, V>(m: map<K, V>, ks: seq<K>): map<K, V> {
    map k | k in m && k in ks :: m[k]
  }

  lemma RestrictedGrows<K, V>(m: map<K, V>, ks: seq<K>, i: nat)
    requires i < |ks| && Distinct(ks) && ks[i] in m
    ensures Inserted(Restricted(m, ks[..i]), ks[i], m[ks[i]]) == Restricted(m, ks[..i + 1])
  {
    assert ks[..i + 1] == ks[..i] + [ks[i]];
    assert ks[i] !in ks[..i];
  }

  /** Inserting the entries of a map one by one gives the map back. */
  lemma RestrictedEnds<K, V>(m: map<K, V>, ks: seq<K>)
    requires forall k :: k in m ==> k in ks
    ensures Restricted(m, ks) == m && Restricted(m, []) == map[] && Restricted(m, ks[..0]) == map[]
    ensures Restricted(m, ks[..|ks|]) == m
  {
    assert ks[..|ks|] == ks;
  }
}
