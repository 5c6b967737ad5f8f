/** Calls while the data file cannot be read, because there is none yet, or it is
    empty, cut short or of another format: what a call that throws leaves behind, and
    the runs from there to the first save. */
module FirstSave {
  import opened Bytes
  import DataFile
  import Directory
  import opened Edits
  import opened GraphFile
  import opened Hierarchy
  import opened Merging
  import opened Persistence
  import opened Properties
  import Records
  import opened Runs
  import opened Stability

  // ---------- which files can be read ----------

  /** More than a header of sixteen bytes, FZDB, version 1, and as many bytes as the
      header says. */
  predicate Usable(file: seq<Byte>) {
    && |file| > 16
    && file[0] == 0x46 && file[1] == 0x5A && file[2] == 0x44 && file[3] == 0x42
    && Short(file, 4) == 1
    && Word(file, 8) == |file| - 16
  }

  lemma SizeIs(file: seq<Byte>)
    requires |file| >= 16
    ensures FromLE(file[8..16]) == Word(file, 8) && DataFile.DataLength(file) == Word(file, 8)
    ensures FromLE(file[4..6]) == Short(file, 4)
  {
    EightBytes(file[8..16]);
    TwoBytes(file[4..6]);
    hide FromLE;
    assert (file + Directory.Zeros(16))[8..16] == file[8..16];
  }

  /** The file is read exactly if it is usable, and then everything behind its header
      is decoded. */
  lemma LoadsIffUsable(file: seq<Byte>, record: Value)
    ensures Load(file, record) == if Usable(file) then Decoded(DecodeGraph(file[16..], |file| - 16, record)) else Unreadable
  {
    hide DecodeGraph, FromLE, Word;
    if |file| > 16 {
      SizeIs(file);
      assert file[..4] == DataFile.MAGIC <==> file[0] == 0x46 && file[1] == 0x5A && file[2] == 0x44 && file[3] == 0x42;
    }
  }

  lemma NoFileIsUnusable()
    ensures !Usable([])
  {
  }

  // ---------- a call that throws ----------

  /** Without a usable file a call that throws leaves the file alone, and memory as
      the call has made it; with one it never does. */
  lemma ThrowWithoutFileIff(d: Database, c: Call, record: Value, pristine: Graph)
    requires Throws(d.graph, c)
    ensures var (d', end) := Persistence.Step(d, c, record, pristine);
      && (end == NotRestored <==> !Usable(d.file))
      && (end == NotRestored ==> d'.file == d.file && d'.graph == if c.Change? then c.after else d.graph)
  {
    hide DecodeGraph, Usable, FileOf, DataFile.ReadFile, DataFile.DataLength, Load;
    LoadsIffUsable(d.file, record);
  }

  /** With one, what is behind the header decides. */
  lemma ThrowWithFile(d: Database, c: Call, record: Value, pristine: Graph)
    requires Throws(d.graph, c) && Usable(d.file)
    ensures var (d', end) := Persistence.Step(d, c, record, pristine);
      match DecodeGraph(d.file[16..], |d.file| - 16, record)
      case Ok(g) => end == Restored && d' == Database(g, d.file)
      case Err(Rejected) => end == Reset && d' == Database(pristine, FileOf(pristine))
      case Err(Fatal) => end == Stopped && d'.file == d.file
  {
    hide DecodeGraph, Usable, FileOf, DataFile.ReadFile, DataFile.DataLength, Load;
    LoadsIffUsable(d.file, record);
  }

  /** The edits of a body up to the one that threw, or all. */
  lemma {:induction false} BodyMade(g: Graph, edits: seq<Edit>) returns (n: nat)
    requires Body(g, edits).1
    ensures n < |edits| && !Body(g, edits[..n]).1 && Edited(Body(g, edits[..n]).0, edits[n]).1
    ensures Body(g, edits).0 == Edited(Body(g, edits[..n]).0, edits[n]).0
  {
    hide Edited;
    n := |edits| - 1;
    var init := edits[..n];
    if Body(g, init).1 {
      n := BodyMade(g, init);
      assert init[..n] == edits[..n];
    }
  }

  /** An edit that throws has done nothing, or it has put the mirrored half of a
      relation: one reference to h, under the opposite key of the entity named. */
  lemma ThrownEditMade(g: Graph, e: Edit)
    requires Edited(g, e).1
    ensures Edited(g, e).0 == g ||
      (e.Put? && Relation(e.key) && e.h in g.entities && RefOf(e.v) in g.entities
       && var other := g.entities[RefOf(e.v)];
          var half := InsertValue(other.owner, OtherKey(e.key), MakeRef(e.h, Certainty(e.v)), KindOf(OtherKey(e.key)));
          half.Done? && Edited(g, e).0 == g.(entities := g.entities[RefOf(e.v) := other.(owner := half.value)]))
  {
    hide InsertValue, MakeRef, Certainty, RefOf, Annotated;
    if e.Put? && e.h in g.entities {
      var s := OwnersOf(g);
      OwnersKeys(g);
      SameOwners(g);
      if Relation(e.key) && RefOf(e.v) in s {
        var half := InsertValue(s[RefOf(e.v)], OtherKey(e.key), MakeRef(e.h, Certainty(e.v)), KindOf(OtherKey(e.key)));
        if half.Done? { OneOwner(g, RefOf(e.v), half.value); }
      }
    }
  }

  lemma SameOwners(g: Graph)
    ensures WithOwners(g, OwnersOf(g)) == g
  {
    assert WithOwners(g, OwnersOf(g)).entities == g.entities;
  }

  /** Without a usable file: LINK, UNLINK and a MERGE that is refused leave the graph
      as it was, an INSERT leaves the edits before the one that threw and what that
      one did. */
  lemma RequestWithoutFile(d: Database, r: Request, record: Value, pristine: Graph)
    requires !Usable(d.file) && Throws(d.graph, CallOf(d.graph, r))
    ensures var (d', end) := Persistence.Step(d, CallOf(d.graph, r), record, pristine);
      && end == NotRestored && d'.file == d.file
      && (r.LinkRequest? || r.UnlinkRequest? ==> d'.graph == d.graph)
      && (r.MergeRequest? && !MayMerge(d.graph, r.a, r.b) ==> d'.graph == d.graph)
      && (r.InsertRequest? ==> d'.graph == Body(d.graph, r.edits).0)
  {
    hide Usable, Body, MayMerge, AbsorbAll, Listed, Recovered, FileOf;
    ThrowWithoutFileIff(d, CallOf(d.graph, r), record, pristine);
  }

  // ---------- what an aborted call leaves can be saved ----------

  lemma ThrownPutSurvives(s: Store, h: Handle, key: nat, v: Value)
    requires Surviving(s) && h in s && PutInto(s, h, key, v).threw
    ensures PutInto(s, h, key, v).store.Keys == s.Keys && Surviving(PutInto(s, h, key, v).store)
  {
    hide Surviving, InsertLocal, MakeRef, Certainty, InsertValue;
    if Relation(key) && IsRef(v.subtype) && RefOf(v) in s {
      var other, record := RefOf(v), MakeRef(h, Certainty(v));
      HandleIsWord(s, h);
      RefIsMade(h, Certainty(v));
      var half := InsertLocal(s, other, OtherKey(key), record, KindOf(OtherKey(key)));
      if half.threw { ThrownLocal(s, other, OtherKey(key), record, KindOf(OtherKey(key))); }
      else {
        LocalKeeps(s, other, OtherKey(key), record, KindOf(OtherKey(key)));
        ThrownIsSame(half.store, h, key, v, KindOf(key));
      }
    } else if !Relation(key) {
      ThrownLocal(s, h, key, v, Fuzzy);
    }
  }

  lemma ThrownLocal(s: Store, h: Handle, key: nat, v: Value, kind: Kind)
    requires h in s && InsertLocal(s, h, key, v, kind).threw
    ensures InsertLocal(s, h, key, v, kind).store == s
  {
    hide InsertValue;
  }

  lemma ThrownIsSame(s: Store, h: Handle, key: nat, v: Value, kind: Kind)
    requires h in s
    ensures InsertLocal(s, h, key, v, kind).threw ==> InsertLocal(s, h, key, v, kind).store == s
  {
    hide InsertValue;
  }

  lemma ThrownKeepsReady(g: Graph, e: Edit)
    requires Ready(g) && Edited(g, e).1 && Bounded(Edited(g, e).0)
    ensures Ready(Edited(g, e).0)
  {
    hide Ready, LooseStore, StoreKept, PutInto, Counted, WithOwners, OwnersOf, Bounded, Annotated;
    if e.Put? && e.h in g.entities {
      var s := OwnersOf(g);
      BoundedIsCounted(Edited(g, e).0);
      ReadyIs(g);
      OwnersKeys(g);
      ThrownPutSurvives(s, e.h, e.key, e.v);
      ReadyIffSurviving(g, Edited(g, e).0, PutInto(s, e.h, e.key, e.v).store);
    }
  }

  lemma {:induction false} ThrownBodyKeepsReady(g: Graph, edits: seq<Edit>)
    requires Ready(g) && GoodBody(g, edits) && Bounded(Body(g, edits).0)
    ensures Ready(Body(g, edits).0)
  {
    hide Ready, Bounded, GoodEdit, Edited, Survives;
    if !Body(g, edits).1 {
      BodyKeepsReady(g, edits);
    } else {
      var init := edits[..|edits| - 1];
      if Body(g, init).1 {
        ThrownBodyKeepsReady(g, init);
      } else {
        BodyKeepsReady(g, init);
        ThrownKeepsReady(Body(g, init).0, edits[|edits| - 1]);
      }
    }
  }

  lemma {:induction false} AbortedSurvives(s: Store, h: Handle, ps: seq<Property>)
    requires Surviving(s) && h in s && AbsorbAll(s, h, ps).Aborted?
    requires forall i :: 0 <= i < |ps| ==> LooseAt(ps[i], ps[i].key) && ListKept(ps[i])
    ensures Surviving(AbsorbAll(s, h, ps).s) && AbsorbAll(s, h, ps).s.Keys == s.Keys
  {
    hide Surviving, Absorb, LooseAt, ListKept;
    if ps != [] {
      var init, p := ps[..|ps| - 1], ps[|ps| - 1];
      if AbsorbAll(s, h, init).Aborted? {
        AbortedSurvives(s, h, init);
      } else if AbsorbAll(s, h, init).Merged? {
        MergedSurvives(s, h, init);
        HalfAbsorbed(AbsorbAll(s, h, init).s, h, p);
      }
    }
  }

  lemma MergedSurvives(s: Store, h: Handle, ps: seq<Property>)
    requires Surviving(s) && h in s && AbsorbAll(s, h, ps).Merged?
    requires forall i :: 0 <= i < |ps| ==> LooseAt(ps[i], ps[i].key) && ListKept(ps[i])
    ensures Surviving(AbsorbAll(s, h, ps).s)
  {
    hide LooseStore, StoreKept, LooseAt, ListKept, AbsorbAll;
    AbsorbAllLoose(s, h, ps);
    AbsorbAllKept(s, h, ps);
  }

  lemma HalfAbsorbed(s: Store, h: Handle, p: Property)
    requires Surviving(s) && h in s && Absorb(s, h, p).Aborted?
    ensures Surviving(Absorb(s, h, p).s)
  {
    hide Surviving, InsertLocal, InsertProperty, MakeRef, Certainty, RefOf;
    if Relation(p.key) && p.subtype == EntityRef && p.values != [] && RefOf(p.values[0]) in s {
      var other, record := RefOf(p.values[0]), MakeRef(h, Certainty(p.values[0]));
      HandleIsWord(s, h);
      RefIsMade(h, Certainty(p.values[0]));
      ThrownIsSame(s, other, OtherKey(p.key), record, KindOf(OtherKey(p.key)));
      if !InsertLocal(s, other, OtherKey(p.key), record, KindOf(OtherKey(p.key))).threw {
        LocalKeeps(s, other, OtherKey(p.key), record, KindOf(OtherKey(p.key)));
      }
    }
  }

  lemma ThrownMergeKeepsReady(g: Graph, a: Handle, b: Handle)
    requires Ready(g) && MergeCall(g, a, b).threw && Counted(MergeCall(g, a, b).after)
    ensures Ready(MergeCall(g, a, b).after)
  {
    hide Ready, AbsorbAll, Listed, LooseAt, ListKept, LooseStore, StoreKept, Typed, TypeOf, Counted, WithOwners, OwnersOf;
    if MayMerge(g, a, b) && Absorbed(g, a, b).Aborted? {
      var s, ps := OwnersOf(g), Listed(g.entities[Higher(a, b)].owner);
      ReadyIs(g);
      ReadyIsHealthy(g);
      OwnersKeys(g);
      LoserLoose(g, Higher(a, b));
      LoserKept(g, Higher(a, b));
      AbortedSurvives(s, Lower(a, b), ps);
      ReadyIffSurviving(g, MergeCall(g, a, b).after, Absorbed(g, a, b).s);
    }
  }

  lemma LoserKept(g: Graph, h: Handle)
    requires StoreKept(OwnersOf(g)) && h in g.entities
    ensures forall i :: 0 <= i < |Listed(g.entities[h].owner)| ==> ListKept(Listed(g.entities[h].owner)[i])
  {
    hide ListKept;
    var o := g.entities[h].owner;
    assert OwnersOf(g)[h] == o && OwnerKept(o);
    forall i | 0 <= i < |Listed(o)| ensures ListKept(Listed(o)[i]) { KeptList(o, Records.KeysOf(o)[i]); }
  }

  // ---------- up to the first save ----------

  /** What an aborted call leaves where nothing undoes it stays in bounds, and of an
      INSERT what was put before the exception survives. */
  ghost predicate Harmless(g: Graph, r: Request) {
    Throws(g, CallOf(g, r)) ==>
      && (r.InsertRequest? ==> GoodBody(g, r.edits) && Bounded(Body(g, r.edits).0))
      && (r.MergeRequest? ==> Counted(MergeCall(g, r.a, r.b).after))
  }

  lemma AbortedIsReady(g: Graph, r: Request)
    requires Ready(g) && Harmless(g, r) && Throws(g, CallOf(g, r))
    ensures Ready(Partial(g, CallOf(g, r)))
  {
    hide Ready, Body, GoodBody, Bounded, Counted, MergeCall;
    MergeIsChange(g, r);
    match r
    case InsertRequest(edits, _) => ThrownBodyKeepsReady(g, edits);
    case MergeRequest(a, b) => ThrownMergeKeepsReady(g, a, b);
    case _ =>
  }

  lemma MergeIsChange(g: Graph, r: Request)
    ensures r.MergeRequest? ==> MergeCall(g, r.a, r.b).Change?
  {
    hide MayMerge, Absorbed, Without, WithOwners;
  }

  /** One request while there is no usable file: it ends unsaved, and the file stays
      as it is, or it ends saved, and from then on memory and file agree. */
  lemma RequestBeforeSave(d: Database, r: Request, record: Value, pristine: Graph)
    requires !Usable(d.file) && Ready(d.graph) && Reasonable(d.graph, r) && Harmless(d.graph, r)
    ensures var (d', end) := Persistence.Step(d, CallOf(d.graph, r), record, pristine);
      && Ready(d'.graph) && end in {Saved, Unchanged, NotRestored}
      && (if end == Saved then InStep(d') else d'.file == d.file)
      && (end == Unchanged ==> d' == d)
  {
    hide Ready, Usable, Healthy, InStep, Keeps, CallOf, SoundEntities, Persistence.Fits, Recovered, FileOf, Completed, Counted, GoodBody, Partial, Harmless;
    var c := CallOf(d.graph, r);
    if Throws(d.graph, c) {
      ThrowWithoutFileIff(d, c, record, pristine);
      AbortedIsReady(d.graph, r);
      PartialIs(d.graph, c);
    } else {
      CompletedIsReady(d.graph, r);
      SavedReadyIsInStep(Completed(d.graph, c), record);
    }
  }

  lemma PartialIs(g: Graph, c: Call)
    ensures Partial(g, c) == if c.Change? then c.after else g
  {
  }

  lemma SavedReadyIsInStep(g: Graph, record: Value)
    requires Ready(g) && (SoundEntities(g) ==> Persistence.Fits(g))
    ensures InStep(Database(g, FileOf(g)))
  {
    hide Ready, SoundEntities, Persistence.Fits, FileOf, FineGraph, Keeps, InStep;
    ReadyIsHealthy(g);
    HealthyIsFine(g);
    ReadyLoads(g);
    SavedInStepIff(g, record);
  }

  /** Every request finds the database the ones before it left. */
  ghost predicate EarlyRun(d: Database, requests: seq<Request>, record: Value, pristine: Graph, trace: seq<Database>) {
    && Runs.Run(d, requests, record, pristine, trace)
    && forall i :: 0 <= i < |requests| ==> Harmless(trace[i].graph, requests[i])
  }

  /** One of the first i requests has been saved. */
  ghost predicate SavedBefore(requests: seq<Request>, record: Value, pristine: Graph, trace: seq<Database>, i: nat)
    requires |trace| == |requests| + 1 && i <= |requests|
  {
    exists j :: 0 <= j < i && Persistence.Step(trace[j], CallOf(trace[j].graph, requests[j]), record, pristine).1 == Saved
  }

  /** From a graph without a usable file: until the first save every prefix of the run
      leaves the file as it was; from the first save on memory and file agree. */
  lemma {:induction false} RunFromNoFile(d: Database, requests: seq<Request>, record: Value, pristine: Graph, trace: seq<Database>, i: nat)
    requires EarlyRun(d, requests, record, pristine, trace) && i <= |requests| && !Usable(d.file) && Ready(d.graph)
    ensures Ready(trace[i].graph)
    ensures if SavedBefore(requests, record, pristine, trace, i) then InStep(trace[i]) else trace[i].file == d.file
  {
    hide Usable, InStep, Ready, Persistence.Step, Reasonable, CallOf, Harmless;
    if i > 0 {
      RunFromNoFile(d, requests, record, pristine, trace, i - 1);
      assert Runs.Makes(trace[i - 1], requests[i - 1], record, pristine, trace[i - 1 + 1]);
      if SavedBefore(requests, record, pristine, trace, i - 1) {
        RequestKeepsReady(trace[i - 1], requests[i - 1], record, pristine);
      } else {
        RequestBeforeSave(trace[i - 1], requests[i - 1], record, pristine);
      }
    }
  }
}
