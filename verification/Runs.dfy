/** Runs of LINK, UNLINK, MERGE and INSERT: after every call, completed or aborted
    at any point, memory is member by member what the data file decodes to. */
module Runs {
  import opened Edits
  import opened Entities
  import opened GraphFile
  import opened LinkGraph
  import opened Merging
  import opened Persistence
  import opened Properties
  import opened Records
  import opened Reload
  import opened Stability

  /** interrupted: the body is complete, and what follows it throws. */
  datatype Request =
    | LinkRequest(a: Handle, b: Handle)
    | UnlinkRequest(a: Handle, b: Handle)
    | MergeRequest(a: Handle, b: Handle)
    | InsertRequest(edits: seq<Edit>, interrupted: bool)

  ghost function CallOf(g: Graph, r: Request): Call {
    match r
    case LinkRequest(a, b) => Call.Link(a, b)
    case UnlinkRequest(a, b) => Call.Unlink(a, b)
    case MergeRequest(a, b) => MergeCall(g, a, b)
    case InsertRequest(edits, interrupted) => Change(Body(g, edits).0, Body(g, edits).1 || interrupted)
  }

  /** The caller's part in a call that completes: an INSERT of edits that survive,
      a MERGE whose loser is not linked, and counts and sizes that fit their fields.
      Nothing is asked of a call that throws. */
  ghost predicate Reasonable(g: Graph, r: Request) {
    var c := CallOf(g, r);
    !Throws(g, c) ==>
      && (r.InsertRequest? ==> GoodBody(g, r.edits))
      && (r.MergeRequest? ==> Counted(c.after) && Higher(r.a, r.b) !in g.links)
      && (SoundEntities(Completed(g, c)) ==> Persistence.Fits(Completed(g, c)))
  }

  // ---------- what every call keeps ----------

  lemma ReadyIsHealthy(g: Graph)
    requires Ready(g)
    ensures Healthy(g) && Mergeable(g) && Keeps(g) && SinglyTyped(g) && NoneEmpty(g)
  {
    hide FineGraph, Keeps, SinglyTyped, NoneEmpty, Valid;
  }

  lemma ReadyIff(g: Graph)
    ensures Ready(g) <==> Healthy(g) && Keeps(g) && SinglyTyped(g) && NoneEmpty(g)
  {
    hide FineGraph, Keeps, SinglyTyped, NoneEmpty, Valid;
  }

  /** LINK and UNLINK touch nothing but links and statuses. */
  lemma LinksKeepReady(g: Graph, g': Graph)
    requires Ready(g) && SameButLinks(g, g') && Healthy(g') && (Keeps(g') <==> Keeps(g))
    ensures Ready(g')
  {
    ReadyIsHealthy(g);
    hide Ready, Healthy, Keeps;
    forall h | h in g'.entities ensures g'.entities[h].owner == g.entities[h].owner {
      assert g'.entities[h].(status := g.entities[h].status) == g.entities[h];
    }
    assert SinglyTyped(g') && NoneEmpty(g');
    ReadyIff(g');
  }

  lemma MergeKeepsReady(g: Graph, a: Handle, b: Handle)
    requires Ready(g) && !MergeCall(g, a, b).threw && Counted(MergeCall(g, a, b).after) && Higher(a, b) !in g.links
    ensures Ready(MergeCall(g, a, b).after)
  {
    hide Ready, MayMerge, Absorbed, MergeCall, FineGraph, Keeps, SinglyTyped, NoneEmpty, Counted, Valid;
    ReadyIsHealthy(g);
    MergeCallIs(g, a, b);
    MergeKeeps(g, a, b);
    MergeKeepsMergeable(g, a, b);
    MergeKeepsLinksIff(g, a, b);
    ReadyIff(MergeCall(g, a, b).after);
  }

  lemma ReloadedIsSinglyTyped(g: Graph)
    requires SoundEntities(g)
    ensures SinglyTyped(ReloadedGraph(g))
  {
    hide SoundOwner, ReloadedProperty, ReloadedValues;
    forall h | h in g.entities
      ensures TYPE in ReloadedEntity(g.entities[h]).owner.properties && ReloadedEntity(g.entities[h]).owner.properties[TYPE].kind == ConcreteSingle
    {
    }
  }

  /** No list of b is empty if none of a is. */
  lemma EqualIsFilled(a: Graph, b: Graph)
    requires GraphEqual(a, b) && NoneEmpty(a) && a.entities.Keys == b.entities.Keys
    ensures NoneEmpty(b)
  {
    hide ValueEqual;
    forall h, k | h in b.entities && k in b.entities[h].owner.properties ensures b.entities[h].owner.properties[k].values != [] {
      var p, q := a.entities[h].owner.properties, b.entities[h].owner.properties;
      assert EntityEqual(a.entities[h], b.entities[h]);
      assert p.Keys <= q.Keys && |p.Keys| == |q.Keys|;
      SameKeys(p.Keys, q.Keys);
      assert k in p && PropertyEqual(p[k], q[k]);
    }
  }

  /** Undoing by loading leaves a graph as ready as the one before the call. */
  lemma RecoveryKeepsReady(d: Database, partial: Graph, record: Value, pristine: Graph)
    requires InStep(d) && Ready(d.graph)
    ensures Ready(Recovered(Database(partial, d.file), record, pristine).0.graph)
  {
    hide Ready, InStep, Healthy, Keeps, SinglyTyped, NoneEmpty, GraphEqual, FineGraph, SoundEntities, Load, Holds, ReloadedGraph;
    ReadyIsHealthy(d.graph);
    var g := HeldGraph(d);
    HeldLoads(d.file, g, record);
    RecoveryRestores(d, partial, record, pristine);
    var d' := Recovered(Database(partial, d.file), record, pristine).0;
    assert d'.graph == ReloadedGraph(g);
    ReloadedIsSinglyTyped(g);
    InStepKeeps(d');
    EqualGraphKeeps(d.graph, d'.graph);
    EqualIsFilled(d.graph, d'.graph);
    ReadyIff(d'.graph);
  }

  lemma CompletedIsReady(g: Graph, r: Request)
    requires Ready(g) && Reasonable(g, r) && !Throws(g, CallOf(g, r))
    ensures Ready(Completed(g, CallOf(g, r)))
  {
    hide Ready, Healthy, Keeps, MergeCall, Counted, Body, GoodBody, SameButLinks, Linked, Unlinked, SoundEntities, Persistence.Fits;
    ChangeCompletes(g, CallOf(g, r));
    match r
    case MergeRequest(a, b) =>
      MergeCallIs(g, a, b);
      MergeKeepsReady(g, a, b);
    case InsertRequest(edits, _) => BodyKeepsReady(g, edits);
    case _ =>
      ReadyIsHealthy(g);
      CompletedIsHealthy(g, CallOf(g, r));
      LinksKeepReady(g, Completed(g, CallOf(g, r)));
  }

  /** One call: it is saved, or finds nothing to do, or throws and is undone; memory
      and file agree afterwards, and the next call finds what this one found. */
  lemma RequestKeepsReady(d: Database, r: Request, record: Value, pristine: Graph)
    requires InStep(d) && Ready(d.graph) && Reasonable(d.graph, r)
    ensures var (d', end) := Persistence.Step(d, CallOf(d.graph, r), record, pristine);
      && InStep(d') && Ready(d'.graph) && end in {Saved, Unchanged, Restored}
      && (Throws(d.graph, CallOf(d.graph, r)) <==> end == Restored)
      && (end == Restored ==> GraphEqual(d.graph, d'.graph) && d'.file == d.file)
  {
    hide Ready, Healthy, InStep, Keeps, GraphEqual, CallOf, SoundEntities, Persistence.Fits, Recovered, FileOf, Completed, Counted, GoodBody, Partial;
    var c := CallOf(d.graph, r);
    ReadyIsHealthy(d.graph);
    if Throws(d.graph, c) {
      RecoveryKeepsReady(d, Partial(d.graph, c), record, pristine);
    } else {
      CompletedIsReady(d.graph, r);
      ReadyIsHealthy(Completed(d.graph, c));
      ChangeCompletes(d.graph, c);
    }
    StepKeepsInStep(d, c, record, pristine);
  }

  /** What is saved agrees with memory only if it loads as an equal graph. */
  lemma InStepMustKeep(g: Graph, record: Value)
    requires SoundEntities(g) && SoundTables(g) && Persistence.Fits(g) && InStep(Database(g, FileOf(g)))
    ensures LoadableGraph(g) && GraphEqual(g, ReloadedGraph(g))
  {
    hide SoundEntities, SoundTables, Persistence.Fits, InStep, FileOf, LoadableGraph, GraphEqual, ReloadedGraph, Load;
    SavedLoads(g, record);
    InStepLoads(Database(g, FileOf(g)), record);
  }

  /** The condition on the edits of an INSERT is exact: when all before the last
      survive, memory and file agree after the call exactly if the last one does. */
  lemma LastEditDecides(d: Database, edits: seq<Edit>, record: Value, pristine: Graph)
    requires InStep(d) && Ready(d.graph) && edits != [] && GoodBody(d.graph, edits[..|edits| - 1]) && !Body(d.graph, edits).1
    requires GoodEdit(edits[|edits| - 1]) && Bounded(Body(d.graph, edits).0)
    requires SoundEntities(Body(d.graph, edits).0) ==> Persistence.Fits(Body(d.graph, edits).0)
    ensures var d' := Persistence.Step(d, CallOf(d.graph, InsertRequest(edits, false)), record, pristine).0;
      InStep(d') <==> Survives(Body(d.graph, edits[..|edits| - 1]).0, edits[|edits| - 1])
  {
    hide Ready, GoodBody, GoodEdit, Edited, Bounded, Survives, InStep, SoundEntities, SoundTables, LoadableGraph, GraphEqual, ReloadedGraph,
      Persistence.Fits, FileOf, Recovered, FineGraph, Keeps, LoadsAfter, Healthy;
    var before, last, g := Body(d.graph, edits[..|edits| - 1]).0, edits[|edits| - 1], Body(d.graph, edits).0;
    BodyKeepsReady(d.graph, edits[..|edits| - 1]);
    EditLoadsIff(before, last);
    EditIsKeptIff(before, last);
    EditKeepsReadyIff(before, last);
    if Survives(before, last) {
      ReadyIsHealthy(g);
      HealthyIsFine(g);
      SavedInStepIff(g, record);
    }
    if InStep(Database(g, FileOf(g))) { InStepMustKeep(g, record); }
  }

  lemma HealthyIsFine(g: Graph)
    requires Healthy(g)
    ensures FineGraph(g)
  {
    hide FineGraph, Valid;
  }

  lemma ChangeCompletes(g: Graph, c: Call)
    ensures c.Change? ==> Completed(g, c) == c.after
  {
  }

  // ---------- over every run ----------

  ghost predicate Makes(d: Database, r: Request, record: Value, pristine: Graph, d': Database) {
    Reasonable(d.graph, r) && d' == Persistence.Step(d, CallOf(d.graph, r), record, pristine).0
  }

  /** Every request finds the database the ones before it left. */
  ghost predicate Run(d: Database, requests: seq<Request>, record: Value, pristine: Graph, trace: seq<Database>) {
    && |trace| == |requests| + 1 && trace[0] == d
    && forall i :: 0 <= i < |requests| ==> Makes(trace[i], requests[i], record, pristine, trace[i + 1])
  }

  /** After every prefix of the run, memory and file agree, loading the file gives a
      graph equal to the one in memory, and the links are in order. */
  lemma {:induction false} RunStaysInStep(d: Database, requests: seq<Request>, record: Value, pristine: Graph, trace: seq<Database>, i: nat)
    requires Run(d, requests, record, pristine, trace) && i <= |requests|
    requires InStep(d) && Ready(d.graph)
    ensures InStep(trace[i]) && Ready(trace[i].graph) && Valid(LinkStateOf(trace[i].graph))
    ensures Load(trace[i].file, record).Decoded? && Load(trace[i].file, record).r.Ok?
    ensures GraphEqual(trace[i].graph, Load(trace[i].file, record).r.value)
  {
    hide InStep, Ready, Persistence.Step, Reasonable, CallOf, Load, GraphEqual, Valid;
    if i > 0 {
      RunStaysInStep(d, requests, record, pristine, trace, i - 1);
      assert Makes(trace[i - 1], requests[i - 1], record, pristine, trace[i - 1 + 1]);
      RequestKeepsReady(trace[i - 1], requests[i - 1], record, pristine);
    }
    InStepLoads(trace[i], record);
    ReadyLinks(trace[i].graph);
  }
}
