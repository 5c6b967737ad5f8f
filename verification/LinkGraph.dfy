/** Entity linking on values: the symmetric link table, the link status cached
    on every entity, and what LINK and UNLINK make of them. The class
    EntityManager runs these steps in place. */
module LinkGraph {
  import opened Paths

  datatype LinkStatus = NotLinked | Master | Slave

  type Handle = nat

  /** status has one entry for every live entity. */
  datatype LinkState = LinkState(links: Adjacency, status: map<Handle, LinkStatus>)

  // ---------- the traversal ----------

  /** EntityManager::getLinkGraph. The neighbours to follow are fixed on entry,
      so a handle may be entered again after a sibling has visited it; the
      visited set is shared by all calls. ok is false when the table's bounds
      check throws. */
  method GetLinkGraph(links: Adjacency, start: Handle, visited: set<Handle>) returns (ok: bool, visited': set<Handle>)
    ensures visited <= visited'
    ensures forall n :: n in visited' ==> n in visited || Reaches(links, start, n)
    ensures ok ==> start in visited' && visited' - visited <= links.Keys && start in links
    ensures ok ==> Neighbours(links, start) <= visited'
    ensures ok ==> forall n :: n in visited' - visited ==> Neighbours(links, n) <= visited'
    ensures !ok ==> exists n :: Reaches(links, start, n) && n !in links
    ensures visited == {} ==> (ok <==> forall n :: Reaches(links, start, n) ==> n in links)
    ensures visited == {} && ok ==> visited' == Component(links, start)
    decreases links.Keys - visited, if start in visited then 1 else 0
  {
    visited' := visited;
    ReachesSelf(links, start);
    if start !in links { return false, visited'; }
    var results := links[start] - visited;
    visited' := visited + {start};
    var rest := results;
    while rest != {}
      invariant rest <= results
      invariant visited + {start} <= visited'
      invariant visited' - visited <= links.Keys
      invariant forall n :: n in visited' ==> n in visited || Reaches(links, start, n)
      invariant links[start] <= visited' + rest
      invariant forall n :: n in visited' - visited && n != start ==> Neighbours(links, n) <= visited'
      invariant rest == results || exists n :: n in visited' - visited && (n != start || start !in visited)
    {
      var id := LeastOf(rest);
      ReachesNeighbour(links, start, id);
      ghost var before := visited';
      assert id in links.Keys && start in visited ==> links.Keys - visited' < links.Keys - visited || (visited' == visited && id !in visited) by {
        if visited' - visited != {} {
          var n :| n in visited' - visited;
          assert n in links.Keys - visited && n !in links.Keys - visited';
        } else {
          assert visited' == visited;
        }
      }
      if start !in visited { assert start in links.Keys - visited && start !in links.Keys - visited'; }
      ok, visited' := GetLinkGraph(links, id, visited');
      forall n | Reaches(links, id, n) ensures Reaches(links, start, n) { ReachesTransitive(links, start, id, n); }
      if !ok { return; }
      rest := rest - {id};
      assert id in visited' - visited;
    }
    ok := true;
    if visited == {} {
      assert ClosedUnder(links, visited');
      forall n | Reaches(links, start, n) ensures n in visited' { ClosedKeepsReached(links, visited', start, n); }
    }
  }

  // ---------- the steps ----------

  function WithKey(links: Adjacency, a: Handle): Adjacency {
    if a in links then links else links[a := {}]
  }

  function AddEdge(links: Adjacency, a: Handle, b: Handle): Adjacency {
    var l := WithKey(WithKey(links, a), b);
    var l' := l[a := l[a] + {b}];
    l'[b := l'[b] + {a}]
  }

  function RemoveEdge(links: Adjacency, a: Handle, b: Handle): Adjacency
    requires a in links && b in links
  {
    var l := links[a := links[a] - {b}];
    l[b := l[b] - {a}]
  }

  predicate HasEdge(links: Adjacency, a: Handle, b: Handle) {
    b in Neighbours(links, a) && a in Neighbours(links, b)
  }

  /** Everyone in the group becomes a slave, its lowest handle the master. */
  ghost function Relabel(status: map<Handle, LinkStatus>, group: set<Handle>): map<Handle, LinkStatus> {
    map h | h in status :: if h !in group then status[h] else if IsLeast(h, group) then Master else Slave
  }

  ghost function Linked(s: LinkState, a: Handle, b: Handle): LinkState {
    var links := AddEdge(s.links, a, b);
    LinkState(links, Relabel(s.status, Component(links, a)))
  }

  /** What unlinking does about one end of the removed edge, given its group. */
  ghost function Settled(s: LinkState, a: Handle, group: set<Handle>): LinkState {
    if |group| == 1 then LinkState(s.links - {a}, s.status[a := NotLinked])
    else LinkState(s.links, Relabel(s.status, group))
  }

  ghost function Unlinked(s: LinkState, a: Handle, b: Handle): LinkState {
    if !HasEdge(s.links, a, b) then s
    else
      var links := RemoveEdge(s.links, a, b);
      Settled(Settled(LinkState(links, s.status), a, Component(links, a)), b, Component(links, b))
  }

  // ---------- the invariant ----------

  ghost function ProperStatus(links: Adjacency, h: Handle): LinkStatus {
    if h !in links then NotLinked
    else if IsLeast(h, Component(links, h)) then Master
    else Slave
  }

  /** The table is symmetric, mentions live entities only and has no empty
      entry, and every cached status agrees with the connected components. */
  ghost predicate Valid(s: LinkState) {
    && Symmetric(s.links)
    && s.links.Keys <= s.status.Keys
    && (forall h :: h in s.links ==> s.links[h] != {})
    && (forall h :: h in s.status ==> s.status[h] == ProperStatus(s.links, h))
  }

  lemma AddEdgeNeighbours(links: Adjacency, a: Handle, b: Handle, n: Handle)
    ensures Neighbours(AddEdge(links, a, b), n)
         == Neighbours(links, n) + (if n == a then {b} else {}) + (if n == b then {a} else {})
    ensures n in AddEdge(links, a, b) <==> n in links || n == a || n == b
  {
  }

  lemma MembersAreKeys(links: Adjacency, a: Handle)
    requires Symmetric(links) && a in links
    ensures Component(links, a) <= links.Keys
  {
    forall h | h in Component(links, a) ensures h in links {
      assert ClosedUnder(links, links.Keys);
      ClosedKeepsReached(links, links.Keys, a, h);
    }
  }

  lemma AddKeepsSymmetric(links: Adjacency, a: Handle, b: Handle)
    requires Symmetric(links)
    ensures Symmetric(AddEdge(links, a, b))
  {
    hide AddEdge;
    var l := AddEdge(links, a, b);
    forall x, y | x in l && y in l[x] ensures y in l && x in l[y] {
      AddEdgeNeighbours(links, a, b, x);
      AddEdgeNeighbours(links, a, b, y);
    }
  }

  /** Outside the group of the new edge nothing changes. */
  lemma AddKeepsOutside(links: Adjacency, a: Handle, b: Handle, h: Handle)
    requires Symmetric(links) && h !in Component(AddEdge(links, a, b), a)
    ensures Component(AddEdge(links, a, b), h) == Component(links, h)
    ensures h in AddEdge(links, a, b) <==> h in links
  {
    hide AddEdge, Reaches;
    var l := AddEdge(links, a, b);
    var group := Component(l, a);
    AddKeepsSymmetric(links, a, b);
    ComponentIsClosed(l, a);
    AddEdgeNeighbours(links, a, b, a);
    forall n | n !in group ensures Neighbours(l, n) == Neighbours(links, n) { AddEdgeNeighbours(links, a, b, n); }
    ComponentOutside(l, links, group, h);
    AddEdgeNeighbours(links, a, b, h);
  }

  lemma LinkKeepsValid(s: LinkState, a: Handle, b: Handle)
    requires Valid(s) && a in s.status && b in s.status
    ensures Valid(Linked(s, a, b))
  {
    hide AddEdge, Reaches;
    var t := Linked(s, a, b);
    AddKeepsSymmetric(s.links, a, b);
    forall h ensures h in t.links <==> h in s.links || h == a || h == b
             ensures h in t.links ==> t.links[h] != {} {
      AddEdgeNeighbours(s.links, a, b, h);
    }
    MembersAreKeys(t.links, a);
    forall h | h in t.status ensures t.status[h] == ProperStatus(t.links, h) {
      if h in Component(t.links, a) {
        SameComponent(t.links, a, h);
      } else {
        AddKeepsOutside(s.links, a, b, h);
      }
    }
  }

  /** Linking joins exactly the two components. */
  lemma LinkJoinsComponents(s: LinkState, a: Handle, b: Handle)
    requires Valid(s) && a in s.status && b in s.status
    ensures Component(Linked(s, a, b).links, a) == Component(s.links, a) + Component(s.links, b)
  {
    var links' := AddEdge(s.links, a, b);
    var joined := Component(s.links, a) + Component(s.links, b);
    ComponentIsClosed(s.links, a);
    ComponentIsClosed(s.links, b);
    forall n, m | n in joined && m in Neighbours(links', n) ensures m in joined {
      AddEdgeNeighbours(s.links, a, b, n);
    }
    forall h | h in Component(links', a) ensures h in joined { ClosedKeepsReached(links', joined, a, h); }
    ComponentIsClosed(links', a);
    var whole := Component(links', a);
    assert b in whole by { ReachesNeighbour(links', a, b); }
    forall n, m | n in whole && m in Neighbours(s.links, n) ensures m in whole { AddEdgeNeighbours(s.links, a, b, n); }
    forall h | h in joined ensures h in whole {
      if Reaches(s.links, a, h) { ClosedKeepsReached(s.links, whole, a, h); }
      if Reaches(s.links, b, h) { ClosedKeepsReached(s.links, whole, b, h); }
    }
  }

  lemma RemoveEdgeNeighbours(links: Adjacency, a: Handle, b: Handle, n: Handle)
    requires a in links && b in links
    ensures Neighbours(RemoveEdge(links, a, b), n)
         == Neighbours(links, n) - (if n == a then {b} else {}) - (if n == b then {a} else {})
    ensures RemoveEdge(links, a, b).Keys == links.Keys
  {
  }

  lemma Singleton(c: set<Handle>, a: Handle)
    requires a in c
    ensures |c| == 1 <==> c == {a}
  {
    if |c| == 1 { assert |c - {a}| == 0; }
  }

  /** An end whose group is itself alone has no neighbour but itself. */
  lemma AloneMeansNoNeighbours(links: Adjacency, a: Handle)
    ensures Component(links, a) == {a} <==> Neighbours(links, a) <= {a}
  {
    ComponentIsClosed(links, a);
    if Neighbours(links, a) <= {a} {
      forall h | h in Component(links, a) ensures h == a { ClosedKeepsReached(links, {a}, a, h); }
    }
  }

  /** Dropping the entry of a handle that stands alone keeps the table
      symmetric and every other component. */
  lemma DropAlone(links: Adjacency, a: Handle)
    requires Symmetric(links) && Component(links, a) == {a}
    ensures Symmetric(links - {a})
    ensures forall h :: h != a ==> Component(links - {a}, h) == Component(links, h)
    ensures forall h :: h != a ==> Neighbours(links - {a}, h) == Neighbours(links, h)
  {
    AloneMeansNoNeighbours(links, a);
    ComponentIsClosed(links, a);
    forall x, y | x in links - {a} && y in (links - {a})[x] ensures y in links - {a} && x in (links - {a})[y] {
      assert y in links && x in links[y];
    }
    forall h | h != a ensures Component(links - {a}, h) == Component(links, h) {
      ComponentOutside(links, links - {a}, {a}, h);
    }
  }

  ghost predicate ProperAt(s: LinkState, h: Handle)
    requires h in s.status
  {
    s.status[h] == ProperStatus(s.links, h)
  }

  /** Settling one end mends its whole group and touches nobody else. */
  lemma SettleMends(s: LinkState, a: Handle)
    requires Symmetric(s.links) && s.links.Keys <= s.status.Keys && a in s.links
    ensures var t := Settled(s, a, Component(s.links, a));
      && Symmetric(t.links) && t.links.Keys <= t.status.Keys && t.status.Keys == s.status.Keys
      && (forall h :: h in s.status && (h in Component(s.links, a) || ProperAt(s, h)) ==> ProperAt(t, h))
      && (forall h :: h in t.links ==> h in s.links && t.links[h] == s.links[h])
      && (forall h :: h in s.links && h != a ==> h in t.links)
      && (a in t.links ==> t.links[a] != {})
      && (a in t.links <==> !(s.links[a] <= {a}))
      && (forall h :: h != a ==> Component(t.links, h) == Component(s.links, h))
      && (a in t.links ==> t.links == s.links)
  {
    var group := Component(s.links, a);
    var t := Settled(s, a, group);
    ComponentIsClosed(s.links, a);
    Singleton(group, a);
    AloneMeansNoNeighbours(s.links, a);
    MembersAreKeys(s.links, a);
    if |group| == 1 {
      DropAlone(s.links, a);
    } else {
      forall h | h in group ensures ProperAt(t, h) { SameComponent(s.links, a, h); }
    }
  }

  lemma CutKeepsSymmetric(links: Adjacency, a: Handle, b: Handle)
    requires Symmetric(links) && HasEdge(links, a, b)
    ensures Symmetric(RemoveEdge(links, a, b))
  {
    hide RemoveEdge;
    var l := RemoveEdge(links, a, b);
    forall x, y | x in l && y in l[x] ensures y in l && x in l[y] {
      RemoveEdgeNeighbours(links, a, b, x);
      RemoveEdgeNeighbours(links, a, b, y);
    }
  }

  /** Cutting one edge keeps every status outside the groups of its two ends right. */
  lemma CutKeepsOutside(s: LinkState, a: Handle, b: Handle, h: Handle)
    requires Valid(s) && HasEdge(s.links, a, b) && h in s.status
    requires h !in Component(RemoveEdge(s.links, a, b), a) + Component(RemoveEdge(s.links, a, b), b)
    ensures ProperAt(LinkState(RemoveEdge(s.links, a, b), s.status), h)
  {
    hide RemoveEdge, Reaches;
    var l := RemoveEdge(s.links, a, b);
    var inside := Component(l, a) + Component(l, b);
    CutKeepsSymmetric(s.links, a, b);
    ComponentIsClosed(l, a);
    ComponentIsClosed(l, b);
    forall n | n !in inside ensures Neighbours(l, n) == Neighbours(s.links, n) { RemoveEdgeNeighbours(s.links, a, b, n); }
    ComponentOutside(l, s.links, inside, h);
    RemoveEdgeNeighbours(s.links, a, b, h);
  }

  /** Settling the second end of a cut edge after the first. */
  lemma SettleBoth(cut: LinkState, a: Handle, b: Handle)
    requires Symmetric(cut.links) && cut.links.Keys <= cut.status.Keys && a in cut.links && b in cut.links
    requires forall h :: h in cut.links && h != a && h != b ==> cut.links[h] != {}
    requires forall h :: h in cut.status && h !in Component(cut.links, a) + Component(cut.links, b) ==> ProperAt(cut, h)
    ensures Valid(Settled(Settled(cut, a, Component(cut.links, a)), b, Component(cut.links, b)))
    ensures Settled(Settled(cut, a, Component(cut.links, a)), b, Component(cut.links, b)).status.Keys == cut.status.Keys
  {
    hide Component, Reaches, Symmetric, ProperStatus;
    var groupA, groupB := Component(cut.links, a), Component(cut.links, b);
    ComponentIsClosed(cut.links, a);
    SettleMends(cut, a);
    var half := Settled(cut, a, groupA);
    if a == b && a !in half.links {
      AloneMeansNoNeighbours(cut.links, a);
      Singleton(groupA, a);
      assert Settled(half, b, groupB) == half;
    } else {
      assert Component(half.links, b) == groupB;
      SettleMends(half, b);
    }
  }

  lemma UnlinkKeepsValid(s: LinkState, a: Handle, b: Handle)
    requires Valid(s) && a in s.status && b in s.status
    ensures Valid(Unlinked(s, a, b)) && Unlinked(s, a, b).status.Keys == s.status.Keys
  {
    if HasEdge(s.links, a, b) {
      hide Settled, ProperAt, Component;
      var cut := LinkState(RemoveEdge(s.links, a, b), s.status);
      CutKeepsSymmetric(s.links, a, b);
      forall h | h in s.status && h !in Component(cut.links, a) + Component(cut.links, b) ensures ProperAt(cut, h) {
        CutKeepsOutside(s, a, b, h);
      }
      SettleBoth(cut, a, b);
    }
  }

  // ---------- over every run ----------

  datatype LinkOp = Link(a: Handle, b: Handle) | Unlink(a: Handle, b: Handle)

  /** A call naming a missing entity throws, and the state saved before it is
      loaded back. */
  ghost function Step(s: LinkState, op: LinkOp): LinkState {
    if op.a !in s.status || op.b !in s.status then s
    else match op
      case Link(a, b) => Linked(s, a, b)
      case Unlink(a, b) => Unlinked(s, a, b)
  }

  ghost function Run(s: LinkState, ops: seq<LinkOp>): LinkState {
    if ops == [] then s else Step(Run(s, ops[..|ops| - 1]), ops[|ops| - 1])
  }

  /** No run of LINK and UNLINK breaks the invariant. */
  lemma {:induction false} RunKeepsValid(s: LinkState, ops: seq<LinkOp>)
    requires Valid(s)
    ensures Valid(Run(s, ops)) && Run(s, ops).status.Keys == s.status.Keys
  {
    if ops != [] {
      RunKeepsValid(s, ops[..|ops| - 1]);
      var before, op := Run(s, ops[..|ops| - 1]), ops[|ops| - 1];
      if op.a in before.status && op.b in before.status {
        LinkKeepsValid(before, op.a, op.b);
        UnlinkKeepsValid(before, op.a, op.b);
      }
    }
  }

  /** Whoever is linked has exactly one master, the lowest handle it reaches;
      everyone else it reaches is a live slave. */
  lemma OneMasterPerComponent(s: LinkState, h: Handle)
    requires Valid(s) && h in s.status
    ensures s.status[h] == NotLinked <==> h !in s.links
    ensures h in s.links ==>
      exists m :: IsLeast(m, Component(s.links, h)) && m in s.status && s.status[m] == Master
               && forall x :: x in Component(s.links, h) && x != m ==> x in s.status && s.status[x] == Slave
  {
    if h in s.links {
      ComponentIsClosed(s.links, h);
      MembersAreKeys(s.links, h);
      var m := LeastExists(Component(s.links, h));
      forall x | x in Component(s.links, h) ensures Component(s.links, x) == Component(s.links, h) {
        SameComponent(s.links, h, x);
      }
      forall x | x in Component(s.links, h) && x != m ensures x in s.status && s.status[x] == Slave {
        assert !IsLeast(x, Component(s.links, h));
      }
    }
  }

  /** Two valid states with the same entities and table have the same statuses. */
  lemma StatusFollowsLinks(s: LinkState, t: LinkState)
    requires Valid(s) && Valid(t) && s.links == t.links && s.status.Keys == t.status.Keys
    ensures s == t
  {
    forall h | h in s.status ensures s.status[h] == t.status[h] { }
    assert s.status == t.status;
  }

  /** The table an unlink leaves: an end keeps its entry unless it is left with
      no neighbour but itself. */
  lemma UnlinkedEntry(s: LinkState, a: Handle, b: Handle, h: Handle)
    requires HasEdge(s.links, a, b)
    ensures var cut := RemoveEdge(s.links, a, b); var t := Unlinked(s, a, b);
      && (h in t.links <==> h in cut && !((h == a || h == b) && cut[h] <= {h}))
      && (h in t.links ==> t.links[h] == cut[h])
  {
    var cut := RemoveEdge(s.links, a, b);
    ComponentIsClosed(cut, a);
    ComponentIsClosed(cut, b);
    AloneMeansNoNeighbours(cut, a);
    AloneMeansNoNeighbours(cut, b);
    Singleton(Component(cut, a), a);
    Singleton(Component(cut, b), b);
  }

  lemma CutOfAdded(links: Adjacency, a: Handle, b: Handle, n: Handle)
    requires !(b in Neighbours(links, a)) && !(a in Neighbours(links, b))
    ensures var cut := RemoveEdge(AddEdge(links, a, b), a, b);
      && (n in cut <==> n in links || n == a || n == b)
      && (n in cut ==> cut[n] == Neighbours(links, n))
  {
    AddEdgeNeighbours(links, a, b, n);
    RemoveEdgeNeighbours(AddEdge(links, a, b), a, b, n);
  }

  /** Does this end drop out of the table when the added edge is cut again? */
  predicate DropsOut(links: Adjacency, a: Handle, b: Handle, h: Handle) {
    (h == a || h == b) && Neighbours(links, h) <= {h}
  }

  lemma UndoneEntry(links: Adjacency, t: LinkState, u: Adjacency, a: Handle, b: Handle, h: Handle)
    requires b !in Neighbours(links, a) && a !in Neighbours(links, b)
    requires t.links == AddEdge(links, a, b) && u == Unlinked(t, a, b).links
    ensures h in u <==> (h in links || h == a || h == b) && !DropsOut(links, a, b, h)
    ensures h in u ==> u[h] == Neighbours(links, h)
  {
    AddEdgeNeighbours(links, a, b, a);
    AddEdgeNeighbours(links, a, b, b);
    UnlinkedEntry(t, a, b, h);
    CutOfAdded(links, a, b, h);
  }

  lemma SameTable(links: Adjacency, u: Adjacency, a: Handle, b: Handle)
    requires forall h :: h in links ==> links[h] != {}
    requires forall h :: h in u <==> (h in links || h == a || h == b) && !DropsOut(links, a, b, h)
    requires forall h :: h in u ==> u[h] == Neighbours(links, h)
    requires b !in Neighbours(links, a) && a !in Neighbours(links, b)
    ensures u == links <==> a == b || (Neighbours(links, a) != {a} && Neighbours(links, b) != {b})
  {
    forall h | h in links ensures h in u <==> links[h] != {h} || (h != a && h != b) {
      if links[h] <= {h} { var n :| n in links[h]; assert links[h] == {h}; }
    }
    forall h | h !in links ensures h !in u { }
    if forall h :: h in links ==> h in u {
      assert u.Keys == links.Keys;
      assert u == links;
    }
  }

  lemma UndoneTable(links: Adjacency, t: LinkState, a: Handle, b: Handle)
    requires b !in Neighbours(links, a) && a !in Neighbours(links, b) && forall h :: h in links ==> links[h] != {}
    requires t.links == AddEdge(links, a, b)
    ensures Unlinked(t, a, b).links == links <==>
      a == b || (Neighbours(links, a) != {a} && Neighbours(links, b) != {b})
  {
    hide Unlinked, AddEdge, DropsOut, Neighbours;
    var u := Unlinked(t, a, b).links;
    forall h
      ensures h in u <==> (h in links || h == a || h == b) && !DropsOut(links, a, b, h)
      ensures h in u ==> u[h] == Neighbours(links, h)
    {
      UndoneEntry(links, t, u, a, b, h);
    }
    SameTable(links, u, a, b);
  }

  /** LINK then UNLINK restores the table and every status exactly when the edge
      was not there before and neither of two distinct ends was linked to itself
      only; whether they were already connected another way does not matter. */
  lemma UnlinkUndoesLink(s: LinkState, a: Handle, b: Handle)
    requires Valid(s) && a in s.status && b in s.status
    ensures Unlinked(Linked(s, a, b), a, b) == s <==>
      && !HasEdge(s.links, a, b)
      && (a == b || (Neighbours(s.links, a) != {a} && Neighbours(s.links, b) != {b}))
  {
    hide Unlinked, ProperStatus;
    var t := Linked(s, a, b);
    AddEdgeNeighbours(s.links, a, b, a);
    AddEdgeNeighbours(s.links, a, b, b);
    var u := Unlinked(t, a, b);
    if HasEdge(s.links, a, b) {
      UnlinkedEntry(t, a, b, a);
      RemoveEdgeNeighbours(t.links, a, b, a);
      assert b !in Neighbours(u.links, a);
    } else {
      UndoneTable(s.links, t, a, b);
      LinkKeepsValid(s, a, b);
      UnlinkKeepsValid(t, a, b);
      if u.links == s.links { StatusFollowsLinks(u, s); }
    }
  }

  lemma LoneLoop() returns (s: LinkState)
    ensures Valid(s) && s.links == map[1 := {1}] && s.status == map[1 := Master, 2 := NotLinked]
  {
    s := LinkState(map[1 := {1}], map[1 := Master, 2 := NotLinked]);
    AloneMeansNoNeighbours(s.links, 1);
  }

  /** A handle linked to itself only loses its loop that way. */
  lemma LoneLoopIsLost()
    ensures exists s: LinkState, a, b ::
      Valid(s) && a in s.status && b in s.status && a != b && !HasEdge(s.links, a, b)
      && Unlinked(Linked(s, a, b), a, b) != s
  {
    hide Linked, Unlinked, Valid;
    var s := LoneLoop();
    UnlinkUndoesLink(s, 1, 2);
    assert Neighbours(s.links, 1) == {1};
  }
}
