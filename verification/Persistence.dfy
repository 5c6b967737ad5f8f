/** The graph in memory and the data file next to it: every change is saved when it
    is complete, and a change that fails half-way is undone by loading the file. */
module Persistence {
  import opened Bytes
  import DataFile
  import opened Entities
  import opened GraphFile
  import opened LinkGraph
  import LinkTable
  import NameTable
  import opened Paths
  import PrimitiveMap
  import opened Properties
  import opened Records
  import opened Reload
  import opened Stability

  // ---------- loading ----------

  /** loadFromFile returns false on a file it cannot read; what it can read is
      decoded. */
  datatype LoadResult = Unreadable | Decoded(r: Result<Graph>)

  function Load(file: seq<Byte>, record: Value): LoadResult {
    var size := DataFile.DataLength(file);
    if size < 1 then Unreadable
    else match DataFile.ReadFile(file, size)
      case Err(_) => Unreadable
      case Ok(data) => Decoded(DecodeGraph(data, size, record))
  }

  /** How a call ends: its change is saved, or an exception made it load the file.
      Reset: the file was rejected, the graph and the file were reset, and the
      exception goes on to the caller. Stopped: the process ends. */
  datatype Ending = Saved | Unchanged | Restored | NotRestored | Reset | Stopped

  datatype Database = Database(graph: Graph, file: seq<Byte>)

  /** What saving writes; only sound graphs are ever saved. */
  ghost function FileOf(g: Graph): seq<Byte> {
    if SoundEntities(g) then DataFile.FileBytes(EncodeGraph(g, 0)) else []
  }

  /** The handler of every changing call. */
  ghost function Recovered(d: Database, record: Value, pristine: Graph): (Database, Ending) {
    match Load(d.file, record)
    case Unreadable => (d, NotRestored)
    case Decoded(Ok(g)) => (Database(g, d.file), Restored)
    case Decoded(Err(Rejected)) => (Database(pristine, FileOf(pristine)), Reset)
    case Decoded(Err(Fatal)) => (d, Stopped)
  }

  // ---------- the calls ----------

  function LinkStateOf(g: Graph): LinkState {
    LinkState(g.links, map h | h in g.entities :: g.entities[h].status)
  }

  function WithLinks(g: Graph, s: LinkState): Graph {
    g.(links := s.links, entities := map h | h in g.entities :: if h in s.status then g.entities[h].(status := s.status[h]) else g.entities[h])
  }

  /** LINK and UNLINK by name, and every other change by what it makes of the graph
      before it completes or throws. */
  datatype Call = Link(a: Handle, b: Handle) | Unlink(a: Handle, b: Handle) | Change(after: Graph, threw: bool)

  predicate Live(g: Graph, a: Handle, b: Handle) { a in g.entities && b in g.entities }

  ghost function LinkedGraph(g: Graph, a: Handle, b: Handle): Graph { WithLinks(g, Linked(LinkStateOf(g), a, b)) }

  ghost function UnlinkedGraph(g: Graph, a: Handle, b: Handle): Graph { WithLinks(g, Unlinked(LinkStateOf(g), a, b)) }

  /** What a call that is not interrupted makes of the graph. */
  ghost function Completed(g: Graph, c: Call): Graph {
    match c
    case Link(a, b) => LinkedGraph(g, a, b)
    case Unlink(a, b) => UnlinkedGraph(g, a, b)
    case Change(after, _) => after
  }

  predicate Throws(g: Graph, c: Call) {
    match c
    case Link(a, b) => !Live(g, a, b)
    case Unlink(a, b) => !Live(g, a, b)
    case Change(_, threw) => threw
  }

  predicate DoesNothing(g: Graph, c: Call) { c.Unlink? && Live(g, c.a, c.b) && !HasEdge(g.links, c.a, c.b) }

  /** What the call has done to the graph when it throws. */
  function Partial(g: Graph, c: Call): Graph { if c.Change? then c.after else g }

  ghost function Step(d: Database, c: Call, record: Value, pristine: Graph): (Database, Ending) {
    if Throws(d.graph, c) then Recovered(Database(Partial(d.graph, c), d.file), record, pristine)
    else if DoesNothing(d.graph, c) then (d, Unchanged)
    else (Database(Completed(d.graph, c), FileOf(Completed(d.graph, c))), Saved)
  }

  // ---------- agreement ----------

  ghost predicate Fits(g: Graph)
    requires SoundEntities(g)
  {
    |EncodeGraph(g, 0)| < WORD_LIMIT
  }

  /** A graph in memory as every call expects it. */
  ghost predicate Healthy(g: Graph) { FineGraph(g) && Valid(LinkStateOf(g)) }

  ghost predicate Holds(file: seq<Byte>, g: Graph) {
    FineGraph(g) && SoundEntities(g) && Fits(g) && file == FileOf(g)
  }

  /** The graph in memory equals, member by member, what the file decodes to. */
  ghost predicate InStep(d: Database) {
    exists g :: Holds(d.file, g) && GraphEqual(d.graph, ReloadedGraph(g))
  }

  /** What loading makes of any file that saving wrote. */
  lemma SavedLoads(g: Graph, record: Value)
    requires SoundEntities(g) && SoundTables(g) && Fits(g)
    ensures Load(FileOf(g), record) == Decoded(if LoadableGraph(g) then Ok(ReloadedGraph(g)) else Err(Rejected))
  {
    hide EncodeGraph, DecodeGraph, DataFile.ReadFile, DataFile.DataLength, DataFile.FileBytes, ReloadedGraph, SoundEntities, SoundTables, LoadableGraph;
    DataFile.FileReadsBack(EncodeGraph(g, 0));
    NotEmpty(g);
    GraphReadsBack(g, record);
  }

  lemma HeldLoads(file: seq<Byte>, g: Graph, record: Value)
    requires Holds(file, g)
    ensures Load(file, record) == Decoded(Ok(ReloadedGraph(g)))
  {
    hide FineGraph, Load, FileOf, ReloadedGraph, SoundEntities, SoundTables, LoadableGraph, Fits;
    FineParts(g);
    SavedLoads(g, record);
  }

  lemma NotEmpty(g: Graph)
    requires SoundEntities(g)
    ensures EncodeGraph(g, 0) != []
  {
    hide Concat, Sections, FileHeader;
  }

  lemma HeldGraph(d: Database) returns (g: Graph)
    requires InStep(d)
    ensures FineGraph(g) && Holds(d.file, g) && SoundEntities(g) && GraphEqual(d.graph, ReloadedGraph(g))
  {
    hide GraphEqual, FineGraph, EncodeGraph, SoundEntities;
    g :| Holds(d.file, g) && GraphEqual(d.graph, ReloadedGraph(g));
  }

  /** What agreement means: loading the file, now, gives a graph equal to the one in
      memory. */
  lemma InStepLoads(d: Database, record: Value)
    requires InStep(d)
    ensures Load(d.file, record).Decoded? && Load(d.file, record).r.Ok? && GraphEqual(d.graph, Load(d.file, record).r.value)
  {
    hide GraphEqual, Holds, Load, SoundEntities, FineGraph;
    var g := HeldGraph(d);
    HeldLoads(d.file, g, record);
  }

  /** Agreement at any one time is enough to know that saving loses nothing. */
  lemma InStepKeeps(d: Database)
    requires InStep(d)
    ensures Keeps(d.graph)
  {
    hide GraphEqual, Keeps, FineGraph, SoundEntities, Holds;
    var g := HeldGraph(d);
    ReloadSettles(g);
    EqualGraphKeeps(d.graph, ReloadedGraph(g));
  }

  /** After a save, memory and file agree exactly when the graph keeps everything. */
  lemma SavedInStepIff(g: Graph, record: Value)
    requires FineGraph(g) && SoundEntities(g) && Fits(g)
    ensures InStep(Database(g, FileOf(g))) <==> Keeps(g)
  {
    hide GraphEqual, Keeps, FineGraph, Load, EncodeGraph, SoundEntities;
    FineParts(g);
    assert Holds(FileOf(g), g);
    GraphRoundTripIff(g);
    if InStep(Database(g, FileOf(g))) {
      InStepLoads(Database(g, FileOf(g)), record);
      HeldLoads(FileOf(g), g, record);
    }
  }

  // ---------- links and statuses only ----------

  /** The same entities but for their link status. */
  ghost predicate SameButLinks(g: Graph, g': Graph) {
    && g'.entities.Keys == g.entities.Keys && g'.(links := g.links, entities := g.entities) == g
    && forall h :: h in g.entities ==> g'.entities[h].(status := g.entities[h].status) == g.entities[h]
  }

  lemma WithLinksIsSame(g: Graph, s: LinkState)
    requires s.status.Keys == g.entities.Keys
    ensures SameButLinks(g, WithLinks(g, s)) && LinkStateOf(WithLinks(g, s)) == s
  {
    assert LinkStateOf(WithLinks(g, s)).status == s.status;
  }

  lemma StatusIgnored(e: Entity, e': Entity)
    requires e'.(status := e.status) == e
    ensures Fine(e') <==> Fine(e)
    ensures Unchanging(e') <==> Unchanging(e)
  {
    hide SoundOwner, Loadable, Ordered, Canonical, Timeless;
    assert e'.owner == e.owner && e'.handle == e.handle;
  }

  lemma LinksKeepFine(g: Graph, g': Graph)
    requires FineGraph(g) && SameButLinks(g, g') && Valid(LinkStateOf(g'))
    ensures FineGraph(g') && (Keeps(g') <==> Keeps(g)) && SoundEntities(g')
  {
    hide Fine, Unchanging, NameTable.Consistent, NameTable.NamesFit, PrimitiveMap.CodesFit, LinkTable.HandlesFit, Valid;
    forall h | h in g.entities
      ensures Fine(g'.entities[h]) && g'.entities[h].handle == h && (Unchanging(g'.entities[h]) <==> Unchanging(g.entities[h]))
    {
      StatusIgnored(g.entities[h], g'.entities[h]);
    }
    HandlesAreWords(g, g');
    FineIsSound(g');
  }

  lemma FineIsSound(g: Graph)
    requires forall h :: h in g.entities ==> Fine(g.entities[h]) && g.entities[h].handle == h != 0
    ensures SoundEntities(g)
  {
    hide SoundEntity, Loadable, Ordered;
  }

  lemma HandlesAreWords(g: Graph, g': Graph)
    requires FineGraph(g) && g'.entities.Keys == g.entities.Keys && Valid(LinkStateOf(g'))
    ensures LinkTable.HandlesFit(g'.links)
  {
    hide SoundOwner, Loadable, Ordered, ProperStatus, FineTables;
    var s := LinkStateOf(g');
    assert Symmetric(s.links) && s.links.Keys <= s.status.Keys;
    forall h | h in g.entities ensures h < WORD_LIMIT { assert Fine(g.entities[h]); }
    forall h | h in g'.links ensures h < WORD_LIMIT && forall v :: v in g'.links[h] ==> v < WORD_LIMIT {
      assert h in s.status;
      forall v | v in g'.links[h] ensures v < WORD_LIMIT { assert v in s.links && v in s.status; }
    }
  }

  // ---------- every step ----------

  /** The caller's part: a change that completes leaves a healthy graph, and the
      file it is saved to can be addressed. */
  ghost predicate Sensible(g: Graph, c: Call) {
    !Throws(g, c) ==>
      && (c.Change? ==> Healthy(c.after))
      && (SoundEntities(Completed(g, c)) ==> Fits(Completed(g, c)))
  }

  lemma CompletedIsHealthy(g: Graph, c: Call)
    requires Healthy(g) && !Throws(g, c) && (c.Change? ==> Healthy(c.after))
    ensures Healthy(Completed(g, c)) && SoundEntities(Completed(g, c))
    ensures !c.Change? ==> (Keeps(Completed(g, c)) <==> Keeps(g)) && SameButLinks(g, Completed(g, c))
  {
    hide FineGraph, Keeps, SoundEntities, Linked, Unlinked, Valid, SameButLinks, WithLinks;
    match c
    case Link(a, b) =>
      LinkKeepsValid(LinkStateOf(g), a, b);
      LinkKeepsEntities(LinkStateOf(g), a, b);
      WithLinksIsSame(g, Linked(LinkStateOf(g), a, b));
      LinksKeepFine(g, Completed(g, c));
    case Unlink(a, b) =>
      UnlinkKeepsValid(LinkStateOf(g), a, b);
      WithLinksIsSame(g, Unlinked(LinkStateOf(g), a, b));
      LinksKeepFine(g, Completed(g, c));
    case Change(after, _) =>
      FineParts(after);
  }

  lemma LinkKeepsEntities(s: LinkState, a: Handle, b: Handle)
    ensures Linked(s, a, b).status.Keys == s.status.Keys
  {
    hide AddEdge, Reaches;
  }

  /** Undoing by loading, whatever the call has left behind: the graph equals the one
      before the call, the file is untouched, and the graph is as healthy as before. */
  lemma RecoveryRestores(d: Database, partial: Graph, record: Value, pristine: Graph)
    requires InStep(d) && Healthy(d.graph)
    ensures var (d', end) := Recovered(Database(partial, d.file), record, pristine);
      && end == Restored && d'.file == d.file && GraphEqual(d.graph, d'.graph) && InStep(d') && Healthy(d'.graph)
  {
    hide GraphEqual, FineGraph, Load, Keeps, Valid, Holds, SoundEntities, ReloadedGraph, FileOf;
    var g := HeldGraph(d);
    HeldLoads(d.file, g, record);
    ReloadSettles(g);
    EqualGraphKeeps(d.graph, ReloadedGraph(g));
    GraphEqualsItself(ReloadedGraph(g));
    assert LinkStateOf(ReloadedGraph(g)).status == LinkStateOf(d.graph).status;
  }

  /** A file saved from a graph that is not loadable is rejected, and the handler
      resets graph and file. */
  lemma UnloadableResets(d: Database, g: Graph, record: Value, pristine: Graph)
    requires SoundEntities(g) && SoundTables(g) && Fits(g) && d.file == FileOf(g)
    ensures !LoadableGraph(g) ==> Recovered(d, record, pristine) == (Database(pristine, FileOf(pristine)), Reset)
    ensures LoadableGraph(g) ==> Recovered(d, record, pristine) == (Database(ReloadedGraph(g), d.file), Restored)
  {
    hide Load, FileOf, ReloadedGraph, SoundEntities, SoundTables, LoadableGraph, Fits;
    SavedLoads(g, record);
  }

  /** The exact effect of one call on agreement. A call that throws changes nothing
      that can be seen. One that completes leaves memory and file in agreement: LINK
      and UNLINK always, any other change exactly when its result keeps everything. */
  lemma StepKeepsInStep(d: Database, c: Call, record: Value, pristine: Graph)
    requires InStep(d) && Healthy(d.graph) && Sensible(d.graph, c)
    ensures var (d', end) := Step(d, c, record, pristine);
      && Healthy(d'.graph) && end in {Saved, Unchanged, Restored}
      && (Throws(d.graph, c) <==> end == Restored) && (end == Restored ==> GraphEqual(d.graph, d'.graph) && d'.file == d.file)
      && (InStep(d') <==> (end == Saved && c.Change? ==> Keeps(c.after)))
  {
    hide GraphEqual, Keeps, FineGraph, Load, SoundEntities, Fits, InStep, FileOf, Valid, Linked, Unlinked;
    if Throws(d.graph, c) {
      RecoveryRestores(d, Partial(d.graph, c), record, pristine);
    } else {
      CompletedIsHealthy(d.graph, c);
      InStepKeeps(d);
      SavedInStepIff(Completed(d.graph, c), record);
    }
  }

  // ---------- over every run ----------

  /** Every call of the run finds the graph the calls before it left, and is
      sensible there. */
  ghost predicate Runs(d: Database, calls: seq<Call>, record: Value, pristine: Graph, trace: seq<Database>) {
    && |trace| == |calls| + 1 && trace[0] == d
    && forall i :: 0 <= i < |calls| ==> Makes(trace[i], calls[i], record, pristine, trace[i + 1])
  }

  ghost predicate Makes(d: Database, c: Call, record: Value, pristine: Graph, d': Database) {
    && Sensible(d.graph, c)
    && (c.Change? && !c.threw ==> Keeps(c.after))
    && d' == Step(d, c, record, pristine).0
  }

  /** Over every run of calls, completed or aborted, whose changes keep everything:
      after each call memory and file agree, and loading the file gives a graph equal
      to the one in memory. */
  lemma {:induction false} RunKeepsInStep(d: Database, calls: seq<Call>, record: Value, pristine: Graph, trace: seq<Database>, i: nat)
    requires Runs(d, calls, record, pristine, trace) && i <= |calls|
    requires InStep(d) && Healthy(d.graph)
    ensures InStep(trace[i]) && Healthy(trace[i].graph)
    ensures Load(trace[i].file, record).Decoded? && Load(trace[i].file, record).r.Ok?
    ensures GraphEqual(trace[i].graph, Load(trace[i].file, record).r.value)
  {
    hide InStep, Healthy, Step, Sensible, Completed, Keeps, Load, GraphEqual, SoundEntities;
    if i > 0 {
      RunKeepsInStep(d, calls, record, pristine, trace, i - 1);
      assert Makes(trace[i - 1], calls[i - 1], record, pristine, trace[i - 1 + 1]);
      StepKeepsInStep(trace[i - 1], calls[i - 1], record, pristine);
    }
    InStepLoads(trace[i], record);
  }
}
