/** Values, the confidence-ordered lists that hold them, and the property tables
    that both entities and values own. */
module Properties {
  import Bytes
  import opened Sorting

  datatype SubType =
    | Undefined | PropertyReference | ValueReference | EntityRef | SourceRef
    | Int32 | String | Date | UInt32 | TimeStamp | TypeID | AuthorID | Confidence

  datatype Kind = Fuzzy | Locked | ConcreteSingle | ConcreteMulti

  /** The data members of a value: fixed-width numbers, then byte strings. */
  datatype Members = Members(numbers: seq<nat>, texts: seq<Bytes.Text>)

  /** A value is itself a property owner: its metadata (author 5, source 6,
      creation time 7, confidence 8) are properties. */
  datatype Value = Value(subtype: SubType, orderingId: nat, members: Members, meta: Owner)

  datatype Property = Property(kind: Kind, key: nat, subtype: SubType, values: seq<Value>)

  datatype Owner = Owner(locked: bool, properties: map<nat, Property>)

  /** The result of a call that may throw. */
  datatype Outcome<T> = Done(value: T) | Threw

  const SUBSET_OF := 3
  const SUPERSET_OF := 4
  const CONFIDENCE := 8

  // ---------- confidence ----------

  /** Metadata types and value references always report full confidence. */
  predicate AlwaysCertain(t: SubType) {
    t == TypeID || t == AuthorID || t == SourceRef || t == ValueReference || t == TimeStamp || t == Confidence
  }

  /** A confidence record can be looked up, as it can on every value that Init
      has run on. */
  predicate Initialised(v: Value) {
    AlwaysCertain(v.subtype) ||
    (CONFIDENCE in v.meta.properties && var p := v.meta.properties[CONFIDENCE];
     p.values != [] && p.values[0].members.numbers != [])
  }

  /** The certainty of a value, returned as an unsigned char. */
  function Certainty(v: Value): nat {
    if AlwaysCertain(v.subtype) || !Initialised(v) then 100
    else v.meta.properties[CONFIDENCE].values[0].members.numbers[0] % 256
  }

  /** Records about values are certain whatever they hold; any other value is as certain
      as the top of its confidence record says, in one byte. */
  lemma CertaintyIs(v: Value)
    ensures v.subtype in {TypeID, AuthorID, SourceRef, ValueReference, TimeStamp, Confidence} ==> Certainty(v) == 100
    ensures v.subtype !in {TypeID, AuthorID, SourceRef, ValueReference, TimeStamp, Confidence}
      && 8 in v.meta.properties && v.meta.properties[8].values != [] && v.meta.properties[8].values[0].members.numbers != []
      ==> Certainty(v) == v.meta.properties[8].values[0].members.numbers[0] % 256
  {
  }

  function ByCertainty(): Value -> int { (v: Value) => Certainty(v) }

  // ---------- value lists ----------

  function Renumbered(values: seq<Value>): (r: seq<Value>)
    ensures |r| == |values|
    ensures forall i :: 0 <= i < |r| ==> r[i] == values[i].(orderingId := i)
  {
    seq(|values|, i requires 0 <= i < |values| => values[i].(orderingId := i))
  }

  function Sorted(values: seq<Value>): seq<Value> {
    Renumbered(StableSort(values, ByCertainty()))
  }

  /** EntityProperty::append of one value. */
  function Appended(p: Property, v: Value): Outcome<Property> {
    if v.subtype != p.subtype then Threw
    else match p.kind
      case ConcreteMulti =>
        if Certainty(v) != 100 then Threw else Done(p.(values := Sorted(p.values + [v])))
      case ConcreteSingle =>
        if Certainty(v) != 100 then Threw else Done(p.(values := [v.(orderingId := 0)]))
      case Fuzzy => Done(p.(values := Sorted(p.values + [v])))
      case Locked => Threw
  }

  /** EntityProperty::append of a list; a concrete property ignores it. */
  function AppendedAll(p: Property, vs: seq<Value>): Outcome<Property> {
    match p.kind
    case Fuzzy =>
      if exists i :: 0 <= i < |vs| && vs[i].subtype != p.subtype then Threw
      else Done(p.(values := Sorted(p.values + vs)))
    case Locked => Threw
    case _ => Done(p)
  }

  function WithoutFirst(values: seq<Value>, id: nat): seq<Value> {
    if values == [] then []
    else if values[0].orderingId == id then values[1..]
    else [values[0]] + WithoutFirst(values[1..], id)
  }

  /** EntityProperty::remove by ordering id, which does not look at the lock. */
  function Removed(p: Property, id: nat): Property {
    p.(values := WithoutFirst(p.values, id))
  }

  // ---------- what every list keeps ----------

  ghost predicate Increasing(values: seq<Value>) {
    forall i, j :: 0 <= i < j < |values| ==> values[i].orderingId < values[j].orderingId
  }

  ghost predicate Canonical(values: seq<Value>) {
    forall i :: 0 <= i < |values| ==> values[i].orderingId == i
  }

  ghost predicate ValidProperty(p: Property) {
    && (forall i :: 0 <= i < |p.values| ==> p.values[i].subtype == p.subtype)
    && Descending(p.values, ByCertainty())
    && Increasing(p.values)
    && (p.kind == ConcreteSingle ==> |p.values| <= 1)
    && (p.kind == ConcreteSingle || p.kind == ConcreteMulti ==>
          forall i :: 0 <= i < |p.values| ==> Certainty(p.values[i]) == 100)
  }

  lemma SortedIsValid(values: seq<Value>)
    ensures Descending(Sorted(values), ByCertainty()) && Canonical(Sorted(values)) && |Sorted(values)| == |values|
    ensures forall i :: 0 <= i < |values| ==>
      exists j :: 0 <= j < |values| && Sorted(values)[i] == values[j].(orderingId := i)
  {
    StableSortIsStableSort(values, ByCertainty());
    var s := StableSort(values, ByCertainty());
    forall i | 0 <= i < |values|
      ensures exists j :: 0 <= j < |values| && Sorted(values)[i] == values[j].(orderingId := i)
    {
      assert s[i] in multiset(s);
      assert s[i] in values;
      var j :| 0 <= j < |values| && values[j] == s[i];
    }
    forall i, j | 0 <= i < j < |s| ensures Certainty(Sorted(values)[i]) >= Certainty(Sorted(values)[j]) {
      assert ByCertainty()(s[i]) >= ByCertainty()(s[j]);
    }
  }

  lemma AppendKeepsValid(p: Property, v: Value)
    requires ValidProperty(p) && Appended(p, v).Done?
    ensures ValidProperty(Appended(p, v).value)
  {
    if p.kind != ConcreteSingle { SortedIsValid(p.values + [v]); }
  }

  lemma AppendAllKeepsValid(p: Property, vs: seq<Value>)
    requires ValidProperty(p) && AppendedAll(p, vs).Done?
    ensures ValidProperty(AppendedAll(p, vs).value)
  {
    if p.kind == Fuzzy { SortedIsValid(p.values + vs); }
  }

  /** The first value with the id, if any, is cut out. */
  lemma {:induction false} WithoutFirstCuts(values: seq<Value>, id: nat) returns (k: nat)
    ensures k <= |values| && forall i :: 0 <= i < k ==> values[i].orderingId != id
    ensures k < |values| ==> values[k].orderingId == id && WithoutFirst(values, id) == values[..k] + values[k + 1..]
    ensures k == |values| ==> WithoutFirst(values, id) == values
  {
    if values == [] || values[0].orderingId == id {
      k := 0;
    } else {
      var k' := WithoutFirstCuts(values[1..], id);
      k := k' + 1;
      assert values == [values[0]] + values[1..];
    }
  }

  lemma CutKeepsOrder(values: seq<Value>, k: nat)
    requires k < |values|
    ensures var r := values[..k] + values[k + 1..];
      && (Increasing(values) ==> Increasing(r))
      && (Descending(values, ByCertainty()) ==> Descending(r, ByCertainty()))
      && (forall v :: v in r ==> v in values)
      && (Increasing(values) ==> forall v :: v in r ==> v.orderingId != values[k].orderingId)
  {
    var r := values[..k] + values[k + 1..];
    if Descending(values, ByCertainty()) { CutKeepsDescending(values, ByCertainty(), k); }
  }

  lemma CutKeepsDescending(values: seq<Value>, key: Value -> int, k: nat)
    requires k < |values| && Descending(values, key)
    ensures Descending(values[..k] + values[k + 1..], key)
  {
    var r := values[..k] + values[k + 1..];
    forall i, j | 0 <= i < j < |r| ensures key(r[i]) >= key(r[j]) {
      var i', j' := if i < k then i else i + 1, if j < k then j else j + 1;
      assert r[i] == values[i'] && r[j] == values[j'];
    }
  }

  /** Ids being distinct, removing drops exactly the value with the id. */
  lemma RemoveDropsId(p: Property, id: nat)
    requires ValidProperty(p)
    ensures ValidProperty(Removed(p, id))
    ensures forall v :: v in Removed(p, id).values <==> v in p.values && v.orderingId != id
  {
    var k := WithoutFirstCuts(p.values, id);
    var r := Removed(p, id).values;
    if k < |p.values| {
      CutKeepsOrder(p.values, k);
      forall i | 0 <= i < |r| ensures r[i] in p.values { assert r[i] in r; }
      forall v | v in p.values && v.orderingId != id ensures v in r {
        assert v in p.values[..k] || v == p.values[k] || v in p.values[k + 1..];
      }
    }
  }

  datatype ListOp = Append(v: Value) | AppendAll(vs: seq<Value>) | Remove(id: nat) | Clear | Lock

  /** One call; a call that throws changes nothing. */
  function Step(p: Property, op: ListOp): Property {
    match op
    case Append(v) => (match Appended(p, v) case Done(q) => q case Threw => p)
    case AppendAll(vs) => (match AppendedAll(p, vs) case Done(q) => q case Threw => p)
    case Remove(id) => Removed(p, id)
    case Clear => p.(values := [])
    case Lock => p.(kind := Locked)
  }

  function Run(p: Property, ops: seq<ListOp>): Property {
    if ops == [] then p else Step(Run(p, ops[..|ops| - 1]), ops[|ops| - 1])
  }

  /** Over every run from an empty property, the values share its subtype, are
      ordered by confidence, carry increasing ids, and a single-valued property
      never holds two. */
  lemma {:induction false} RunKeepsValid(p: Property, ops: seq<ListOp>)
    requires ValidProperty(p)
    ensures ValidProperty(Run(p, ops))
  {
    if ops != [] {
      RunKeepsValid(p, ops[..|ops| - 1]);
      var before := Run(p, ops[..|ops| - 1]);
      match ops[|ops| - 1]
      case Append(v) => if Appended(before, v).Done? { AppendKeepsValid(before, v); }
      case AppendAll(vs) => if AppendedAll(before, vs).Done? { AppendAllKeepsValid(before, vs); }
      case Remove(id) => RemoveDropsId(before, id);
      case _ =>
    }
  }

  /** Appending to a sorted fuzzy list is one stable insertion and a renumbering. */
  lemma FuzzyAppendInserts(p: Property, v: Value)
    requires ValidProperty(p) && p.kind == Fuzzy && v.subtype == p.subtype
    ensures Appended(p, v) == Done(p.(values := Renumbered(InsertStable(p.values, ByCertainty(), v))))
    ensures Canonical(Appended(p, v).value.values)
  {
    SortAppended(p.values, ByCertainty(), v);
  }

  // ---------- dereferencing by position ----------

  /** EntityManager::dereference on a property: the position, not the id. */
  function Dereferenced(p: Property, position: nat): Outcome<Value> {
    if |p.values| <= position then Threw else Done(p.values[position])
  }

  /** Looking a value up by its ordering id finds it, for every value of the list. */
  ghost predicate FindsIds(p: Property) { forall v :: v in p.values ==> Dereferenced(p, v.orderingId) == Done(v) }

  /** It does so exactly when the last id is one less than the count. */
  lemma DereferenceFindsIds(p: Property)
    requires ValidProperty(p)
    ensures FindsIds(p) <==> p.values == [] || p.values[|p.values| - 1].orderingId == |p.values| - 1
  {
    ValidIncreases(p);
    hide ValidProperty, Increasing;
    if p.values != [] {
      var last := p.values[|p.values| - 1];
      if FindsIds(p) {
        assert last in p.values && Dereferenced(p, last.orderingId) == Done(last);
        LastIsFound(p.values);
      }
      hide FindsIds;
      if last.orderingId == |p.values| - 1 {
        NoGaps(p.values);
        CanonicalIsFound(p);
      }
    }
  }

  lemma ValidIncreases(p: Property)
    requires ValidProperty(p)
    ensures Increasing(p.values)
  {
    hide Certainty, Descending;
  }

  lemma CanonicalIsFound(p: Property)
    requires Canonical(p.values)
    ensures FindsIds(p)
  {
  }

  lemma LastIsFound(values: seq<Value>)
    requires Increasing(values) && values != [] && values[|values| - 1].orderingId < |values|
    ensures values[|values| - 1].orderingId == |values| - 1
  {
    IdsAtLeastPositions(values, |values| - 1);
  }

  lemma NoGaps(values: seq<Value>)
    requires Increasing(values) && values != [] && values[|values| - 1].orderingId == |values| - 1
    ensures Canonical(values)
  {
    forall i | 0 <= i < |values| ensures values[i].orderingId == i {
      IdsAtLeastPositions(values, i);
      IdsRoomAbove(values, i);
    }
  }

  lemma {:induction false} IdsAtLeastPositions(values: seq<Value>, i: nat)
    requires Increasing(values) && i < |values|
    ensures values[i].orderingId >= i
  {
    if i > 0 { IdsAtLeastPositions(values, i - 1); }
  }

  lemma {:induction false} IdsRoomAbove(values: seq<Value>, i: nat)
    requires Increasing(values) && i < |values|
    ensures values[i].orderingId + (|values| - 1 - i) <= values[|values| - 1].orderingId
    decreases |values| - i
  {
    if i < |values| - 1 { IdsRoomAbove(values, i + 1); }
  }

  // ---------- property tables ----------

  /** PropertyOwner::insertProperty of one value. */
  function InsertValue(o: Owner, key: nat, v: Value, kind: Kind): Outcome<Owner> {
    if o.locked then Threw
    else
      var p := if key in o.properties then o.properties[key]
               else Property(if kind == Locked then ConcreteSingle else kind, key, v.subtype, []);
      match Appended(p, v)
      case Threw => Threw
      case Done(q) =>
        var q' := if key !in o.properties && kind == Locked then q.(kind := Locked) else q;
        Done(o.(properties := o.properties[key := q']))
  }

  /** PropertyOwner::insertProperty of a whole property: its values are appended
      one by one to an existing property of the same key. */
  function InsertProperty(o: Owner, p: Property): Outcome<Owner> {
    if o.locked then Threw
    else if p.key !in o.properties then Done(o.(properties := o.properties[p.key := p]))
    else match AppendEach(o.properties[p.key], p.values)
      case Threw => Threw
      case Done(q) => Done(o.(properties := o.properties[p.key := q]))
  }

  function AppendEach(p: Property, vs: seq<Value>): Outcome<Property> {
    if vs == [] then Done(p)
    else match AppendEach(p, vs[..|vs| - 1])
      case Threw => Threw
      case Done(q) => Appended(q, vs[|vs| - 1])
  }

  // ---------- confidence records ----------

  /** A confidence record that joins others goes in behind them, unless the list has
      one place. */
  lemma RecordAppended(p: Property, record: Value) returns (q: Property)
    requires p.kind != Locked && p.subtype == Confidence && p.values != []
    requires forall i :: 0 <= i < |p.values| ==> p.values[i].subtype == Confidence
    requires record.subtype == Confidence
    ensures Appended(p, record) == Done(q) && q.kind == p.kind && q.subtype == p.subtype && q.values != []
    ensures forall i :: 0 <= i < |q.values| ==> q.values[i].subtype == Confidence
    ensures q.values[0].members == if p.kind == ConcreteSingle then record.members else p.values[0].members
  {
    q := Appended(p, record).value;
    if p.kind != ConcreteSingle {
      var all := p.values + [record];
      AllCertainSorted(all);
      assert q.values == Renumbered(all);
    }
  }

  lemma AllCertainSorted(all: seq<Value>)
    requires forall i :: 0 <= i < |all| ==> all[i].subtype == Confidence
    ensures Sorted(all) == Renumbered(all)
  {
    forall i, j | 0 <= i < j < |all| ensures ByCertainty()(all[i]) >= ByCertainty()(all[j]) { }
    StableSortFixesSorted(all, ByCertainty());
  }

  // ---------- the list as an object ----------

  class EntityProperty {
    var kind: Kind
    const key: nat
    const subtype: SubType
    var valuesList: seq<Value>

    function View(): Property
      reads this
    {
      Property(kind, key, subtype, valuesList)
    }

    constructor (kind: Kind, key: nat, subtype: SubType)
      ensures View() == Property(kind, key, subtype, []) && ValidProperty(View())
    {
      this.kind, this.key, this.subtype, this.valuesList := kind, key, subtype, [];
    }

    method AppendValue(v: Value) returns (threw: bool)
      requires ValidProperty(View())
      modifies this
      ensures ValidProperty(View())
      ensures threw <==> Appended(old(View()), v).Threw?
      ensures View() == if threw then old(View()) else Appended(old(View()), v).value
    {
      if v.subtype != subtype { return true; }
      ghost var before := View();
      match kind {
        case ConcreteMulti =>
          if Certainty(v) != 100 { return true; }
          SortIn([v]);
        case ConcreteSingle =>
          if Certainty(v) != 100 { return true; }
          valuesList := [v.(orderingId := 0)];
        case Fuzzy =>
          SortIn([v]);
        case Locked =>
          return true;
      }
      AppendKeepsValid(before, v);
      threw := false;
    }

    method AppendList(vs: seq<Value>) returns (threw: bool)
      requires ValidProperty(View())
      modifies this
      ensures ValidProperty(View())
      ensures threw <==> AppendedAll(old(View()), vs).Threw?
      ensures View() == if threw then old(View()) else AppendedAll(old(View()), vs).value
    {
      ghost var before := View();
      if kind == Fuzzy {
        for i := 0 to |vs|
          invariant View() == before
          invariant forall j :: 0 <= j < i ==> vs[j].subtype == subtype
        {
          if vs[i].subtype != subtype { return true; }
        }
        SortIn(vs);
      } else if kind == Locked {
        return true;
      }
      AppendAllKeepsValid(before, vs);
      threw := false;
    }

    /** Puts values at the end, sorts, and numbers the list from zero in a loop. */
    method SortIn(vs: seq<Value>)
      modifies this
      ensures kind == old(kind) && valuesList == Sorted(old(valuesList) + vs)
    {
      valuesList := StableSort(valuesList + vs, ByCertainty());
      ghost var sorted := valuesList;
      for count := 0 to |valuesList|
        invariant kind == old(kind) && |valuesList| == |sorted|
        invariant forall i :: 0 <= i < count ==> valuesList[i] == sorted[i].(orderingId := i)
        invariant forall i :: count <= i < |sorted| ==> valuesList[i] == sorted[i]
      {
        valuesList := valuesList[count := valuesList[count].(orderingId := count)];
      }
      assert valuesList == Renumbered(sorted);
    }

    method RemoveId(id: nat)
      requires ValidProperty(View())
      modifies this
      ensures ValidProperty(View()) && View() == Removed(old(View()), id)
    {
      RemoveDropsId(View(), id);
      ghost var k := WithoutFirstCuts(valuesList, id);
      var i := 0;
      while i < |valuesList|
        invariant 0 <= i <= k <= |valuesList|
        invariant View() == old(View())
      {
        if valuesList[i].orderingId == id {
          valuesList := valuesList[..i] + valuesList[i + 1..];
          return;
        }
        i := i + 1;
      }
    }

    method Clear()
      modifies this
      ensures View() == old(View()).(values := [])
    {
      valuesList := [];
    }

    method Lock()
      modifies this
      ensures View() == old(View()).(kind := Locked)
    {
      kind := Locked;
    }
  }
}
