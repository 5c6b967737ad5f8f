/** LINK and UNLINK as calls on the database: what the table and the statuses say
    afterwards of any two entities, and what else may be different. */
module LinkCalls {
  import opened GraphFile
  import opened LinkGraph
  import opened Paths
  import opened Persistence
  import opened Properties
  import Stability

  // ---------- the table ----------

  /** A component of one is one whose member has no neighbour but itself. */
  lemma AloneIff(links: Adjacency, n: Handle)
    ensures |Component(links, n)| == 1 <==> Neighbours(links, n) <= {n}
  {
    ComponentIsClosed(links, n);
    var c := Component(links, n);
    if Neighbours(links, n) <= {n} {
      hide Reaches;
      assert ClosedUnder(links, {n});
      forall x | x in c ensures x == n { ReachedFrom(links, n, x); ClosedKeepsReached(links, {n}, n, x); }
      assert c == {n};
    }
    if |c| == 1 {
      forall x | x in Neighbours(links, n) ensures x == n { OnlyOne(c, n, x); }
    }
  }

  lemma ReachedFrom(links: Adjacency, n: Handle, x: Handle)
    requires x in Component(links, n)
    ensures Reaches(links, n, x)
  {
  }

  lemma OnlyOne(c: set<Handle>, n: Handle, x: Handle)
    requires |c| == 1 && n in c && x in c
    ensures x == n
  {
    assert |c - {n}| == 0;
  }

  /** The neighbours of n when a and b have been linked. */
  ghost function AfterLink(links: Adjacency, a: Handle, b: Handle, n: Handle): set<Handle> {
    Neighbours(links, n) + (if n == a then {b} else {}) + (if n == b then {a} else {})
  }

  /** When they have been unlinked: what is left of those of an end, but for a link
      that it has to itself alone. */
  ghost function AfterUnlink(links: Adjacency, a: Handle, b: Handle, n: Handle): set<Handle> {
    if n != a && n != b then Neighbours(links, n)
    else
      var rest := Neighbours(links, n) - {if n == a then b else a};
      if rest <= {n} then {} else rest
  }

  lemma LinkedNeighbours(s: LinkState, a: Handle, b: Handle)
    ensures forall n :: Neighbours(Linked(s, a, b).links, n) == AfterLink(s.links, a, b, n)
    ensures Linked(s, a, b).links.Keys == s.links.Keys + {a, b}
  {
    forall n ensures Neighbours(Linked(s, a, b).links, n) == AfterLink(s.links, a, b, n) { AddEdgeNeighbours(s.links, a, b, n); }
  }

  lemma UnlinkedNeighbours(s: LinkState, a: Handle, b: Handle, n: Handle)
    requires HasEdge(s.links, a, b)
    ensures Neighbours(Unlinked(s, a, b).links, n) == AfterUnlink(s.links, a, b, n)
  {
    var cut := RemoveEdge(s.links, a, b);
    AloneIff(cut, a);
    AloneIff(cut, b);
    hide Component, Relabel;
  }

  // ---------- the calls ----------

  /** Nothing is different but the link table and statuses. */
  ghost predicate OnlyLinks(g: Graph, g': Graph) {
    && g' == g.(links := g'.links, entities := g'.entities) && g'.entities.Keys == g.entities.Keys
    && forall h :: h in g.entities ==> g'.entities[h] == g.entities[h].(status := g'.entities[h].status)
  }

  lemma SameIsOnlyLinks(g: Graph, g': Graph)
    requires SameButLinks(g, g')
    ensures OnlyLinks(g, g')
  {
    forall h | h in g.entities ensures g'.entities[h] == g.entities[h].(status := g'.entities[h].status) {
      assert g'.entities[h].(status := g.entities[h].status) == g.entities[h];
    }
  }

  /** LINK of two live entities is saved; the two are neighbours afterwards, all others
      are as they were, and every status is the one its component demands. */
  lemma LinkDoes(d: Database, a: Handle, b: Handle, record: Value, pristine: Graph)
    requires Healthy(d.graph) && Live(d.graph, a, b)
    ensures var (d', end) := Persistence.Step(d, Call.Link(a, b), record, pristine);
      && end == Saved && d'.file == FileOf(d'.graph) && OnlyLinks(d.graph, d'.graph) && Valid(LinkStateOf(d'.graph))
      && d'.graph.links.Keys == d.graph.links.Keys + {a, b}
      && forall n :: Neighbours(d'.graph.links, n) == AfterLink(d.graph.links, a, b, n)
  {
    hide Stability.FineGraph, Valid, FileOf, Linked, SameButLinks, WithLinks, AfterLink, Neighbours, OnlyLinks, Recovered;
    var s := LinkStateOf(d.graph);
    CompletedIsHealthy(d.graph, Call.Link(a, b));
    LinkKeepsEntities(s, a, b);
    WithLinksIsSame(d.graph, Linked(s, a, b));
    SameIsOnlyLinks(d.graph, LinkedGraph(d.graph, a, b));
    LinkedNeighbours(s, a, b);
  }

  /** UNLINK does nothing if they are no neighbours. Otherwise it is saved, the two are
      no neighbours afterwards, and all others are as they were, except that a link of
      an end to itself goes with the last of its other links. */
  lemma UnlinkDoes(d: Database, a: Handle, b: Handle, record: Value, pristine: Graph)
    requires Healthy(d.graph) && Live(d.graph, a, b)
    ensures var (d', end) := Persistence.Step(d, Call.Unlink(a, b), record, pristine);
      if b !in Neighbours(d.graph.links, a) then d' == d && end == Unchanged
      else
        && end == Saved && d'.file == FileOf(d'.graph) && OnlyLinks(d.graph, d'.graph) && Valid(LinkStateOf(d'.graph))
        && forall n :: Neighbours(d'.graph.links, n) == AfterUnlink(d.graph.links, a, b, n)
  {
    var s := LinkStateOf(d.graph);
    hide Stability.FineGraph, Valid, FileOf, Unlinked, SameButLinks, WithLinks, HasEdge, AfterUnlink, Neighbours, OnlyLinks, Persistence.Step;
    HealthyLinks(d.graph);
    EdgeIff(s, a, b);
    UnlinkSteps(d, a, b, record, pristine);
    if HasEdge(s.links, a, b) {
      CompletedIsHealthy(d.graph, Call.Unlink(a, b));
      UnlinkKeepsValid(s, a, b);
      WithLinksIsSame(d.graph, Unlinked(s, a, b));
      SameIsOnlyLinks(d.graph, UnlinkedGraph(d.graph, a, b));
      forall n ensures Neighbours(Unlinked(s, a, b).links, n) == AfterUnlink(s.links, a, b, n) { UnlinkedNeighbours(s, a, b, n); }
    }
  }

  lemma HealthyLinks(g: Graph)
    requires Healthy(g)
    ensures Valid(LinkStateOf(g)) && LinkStateOf(g).links == g.links && LinkStateOf(g).status.Keys == g.entities.Keys
  {
    hide Stability.FineGraph, Valid;
  }

  lemma UnlinkSteps(d: Database, a: Handle, b: Handle, record: Value, pristine: Graph)
    requires Live(d.graph, a, b)
    ensures Persistence.Step(d, Call.Unlink(a, b), record, pristine)
         == if HasEdge(d.graph.links, a, b) then (Database(UnlinkedGraph(d.graph, a, b), FileOf(UnlinkedGraph(d.graph, a, b))), Saved)
            else (d, Unchanged)
  {
    hide FileOf, Unlinked, WithLinks, HasEdge, Recovered;
  }

  lemma EdgeIff(s: LinkState, a: Handle, b: Handle)
    requires Valid(s)
    ensures HasEdge(s.links, a, b) <==> b in Neighbours(s.links, a)
  {
    hide ProperStatus;
  }
}
