/** The data members of one record: numbers of fixed widths, then strings that
    are each preceded by their length. */
module MemberCodec {
  import opened Bytes
  import opened Properties

  /** What a MemberSerialiser has been told about: the widths of the primitive
      members, and how many strings follow. */
  datatype Shape = Shape(widths: seq<nat>, texts: nat)

  ghost predicate Fits(shape: Shape, m: Members) {
    && |m.numbers| == |shape.widths| && |m.texts| == shape.texts
    && (forall i :: 0 <= i < |m.numbers| ==> m.numbers[i] < Pow256(shape.widths[i]))
    && (forall i :: 0 <= i < |m.texts| ==> NulFree(m.texts[i]))
  }

  // ---------- the layout ----------

  function Primitives(widths: seq<nat>, numbers: seq<nat>): seq<Byte>
    requires |numbers| == |widths|
  {
    if widths == [] then []
    else Primitives(widths[..|widths| - 1], numbers[..|widths| - 1]) + LE(numbers[|widths| - 1], widths[|widths| - 1])
  }

  function Dynamic(t: Text): seq<Byte> { Words([|t| + 1]) + (t + [0]) }

  function Dynamics(texts: seq<Text>): seq<Byte> {
    if texts == [] then [] else Dynamics(texts[..|texts| - 1]) + Dynamic(texts[|texts| - 1])
  }

  function EncodeMembers(widths: seq<nat>, m: Members): seq<Byte>
    requires |m.numbers| == |widths|
  {
    Primitives(widths, m.numbers) + Dynamics(m.texts)
  }

  // ---------- reading it back ----------

  /** The members, and how many bytes they took. */
  datatype Read = Read(members: Members, used: nat)

  function DecodePrimitives(bs: seq<Byte>, length: nat, widths: seq<nat>, i: nat, at: nat, got: seq<nat>): (r: Result<(seq<nat>, nat)>)
    requires |got| == i <= |widths|
    ensures r.Ok? ==> |r.value.0| == |widths|
    decreases |widths| - i
  {
    if i == |widths| then Ok((got, at))
    else
      var _ :- Need(at + widths[i] <= length);
      var n :- Num(bs, at, widths[i]);
      DecodePrimitives(bs, length, widths, i + 1, at + widths[i], got + [n])
  }

  /** start is where the strings begin. The length of a string is compared without
      the word that holds it. */
  function DecodeDynamics(bs: seq<Byte>, length: nat, texts: nat, start: nat, j: nat, at: nat, got: seq<Text>): Result<(seq<Text>, nat)>
    requires start <= at
    decreases texts - j
  {
    if j >= texts then Ok((got, at))
    else
      var l :- Num(bs, at, 8);
      var _ :- Need(Plus(at - start, l) <= length);
      var here :- From(bs, at + 8);
      var t :- CString(here);
      DecodeDynamics(bs, length, texts, start, j + 1, at + 8 + l, got + [t])
  }

  /** MemberSerialiser::unserialiseAll. */
  function DecodeMembers(bs: seq<Byte>, length: nat, shape: Shape): (r: Result<Read>)
    ensures r.Ok? ==> |r.value.members.numbers| == |shape.widths|
  {
    var (numbers, p) :- DecodePrimitives(bs, length, shape.widths, 0, 0, []);
    var (texts, d) :- DecodeDynamics(bs, Minus(length, p), shape.texts, p, 0, p, []);
    Ok(Read(Members(numbers, texts), d))
  }

  // ---------- the round trip ----------

  lemma PrimitivesGrow(widths: seq<nat>, numbers: seq<nat>, i: nat)
    requires |numbers| == |widths| && i < |widths|
    ensures Primitives(widths[..i + 1], numbers[..i + 1]) == Primitives(widths[..i], numbers[..i]) + LE(numbers[i], widths[i])
  {
    assert widths[..i + 1][..i] == widths[..i] && numbers[..i + 1][..i] == numbers[..i];
  }

  lemma DynamicsGrow(texts: seq<Text>, i: nat)
    requires i < |texts|
    ensures Dynamics(texts[..i + 1]) == Dynamics(texts[..i]) + Dynamic(texts[i])
  {
    assert texts[..i + 1][..i] == texts[..i];
  }

  /** Number i stands behind the numbers before it. */
  lemma {:induction false} PrimitiveAt(widths: seq<nat>, numbers: seq<nat>, i: nat) returns (more: seq<Byte>)
    requires |numbers| == |widths| && i < |widths|
    ensures Primitives(widths, numbers) == Primitives(widths[..i], numbers[..i]) + (LE(numbers[i], widths[i]) + more)
    decreases |widths| - i
  {
    hide LE;
    PrimitivesGrow(widths, numbers, i);
    if i + 1 == |widths| {
      more := [];
      assert widths[..i + 1] == widths && numbers[..i + 1] == numbers;
    } else {
      hide Primitives;
      var more' := PrimitiveAt(widths, numbers, i + 1);
      more := LE(numbers[i + 1], widths[i + 1]) + more';
    }
  }

  /** String j stands behind the strings before it. */
  lemma {:induction false} DynamicAt(texts: seq<Text>, j: nat) returns (more: seq<Byte>)
    requires j < |texts|
    ensures Dynamics(texts) == Dynamics(texts[..j]) + (Dynamic(texts[j]) + more)
    decreases |texts| - j
  {
    hide Dynamic;
    DynamicsGrow(texts, j);
    if j + 1 == |texts| {
      more := [];
      assert texts[..j + 1] == texts;
    } else {
      hide Dynamics;
      var more' := DynamicAt(texts, j + 1);
      more := Dynamic(texts[j + 1]) + more';
    }
  }

  lemma NumAt(front: seq<Byte>, n: nat, w: nat, more: seq<Byte>)
    requires n < Pow256(w)
    ensures Num(front + (LE(n, w) + more), |front|, w) == Ok(n)
  {
    hide Num, LE, Pow256;
    NumHere(n, w, more);
    NumAfter(front, LE(n, w) + more, 0, w);
  }

  lemma PrimitiveJoins(bs: seq<Byte>, length: nat, widths: seq<nat>, i: nat, at: nat, got: seq<nat>, n: nat)
    requires |got| == i < |widths| && at + widths[i] <= length && Num(bs, at, widths[i]) == Ok(n)
    ensures DecodePrimitives(bs, length, widths, i, at, got)
         == DecodePrimitives(bs, length, widths, i + 1, at + widths[i], got + [n])
  {
    hide Num;
  }

  lemma PrimitivesDone(bs: seq<Byte>, length: nat, widths: seq<nat>, at: nat, got: seq<nat>)
    requires |got| == |widths|
    ensures DecodePrimitives(bs, length, widths, |widths|, at, got) == Ok((got, at))
  {
  }

  lemma {:induction false} PrimitivesReadBack(bs: seq<Byte>, widths: seq<nat>, numbers: seq<nat>, after: seq<Byte>, length: nat, i: nat)
    requires |numbers| == |widths| && bs == Primitives(widths, numbers) + after
    requires i <= |widths| && |Primitives(widths, numbers)| <= length
    requires forall j :: 0 <= j < |widths| ==> numbers[j] < Pow256(widths[j])
    ensures DecodePrimitives(bs, length, widths, i, |Primitives(widths[..i], numbers[..i])|, numbers[..i])
         == Ok((numbers, |Primitives(widths, numbers)|))
    decreases |widths| - i
  {
    hide *;
    if i == |widths| {
      PrimitivesDone(bs, length, widths, |Primitives(widths[..i], numbers[..i])|, numbers[..i]);
      assert widths[..i] == widths && numbers[..i] == numbers;
      return;
    }
    var front := Primitives(widths[..i], numbers[..i]);
    var more := PrimitiveAt(widths, numbers, i);
    PrimitivesGrow(widths, numbers, i);
    assert bs == front + (LE(numbers[i], widths[i]) + (more + after));
    NumAt(front, numbers[i], widths[i], more + after);
    PrimitiveJoins(bs, length, widths, i, |front|, numbers[..i], numbers[i]);
    assert numbers[..i] + [numbers[i]] == numbers[..i + 1];
    PrimitivesReadBack(bs, widths, numbers, after, length, i + 1);
  }

  lemma DynamicReadsBack(front: seq<Byte>, t: Text, more: seq<Byte>)
    requires NulFree(t) && |t| + 1 < WORD_LIMIT
    ensures var bs := front + (Dynamic(t) + more);
      && Num(bs, |front|, 8) == Ok(|t| + 1)
      && From(bs, |front| + 8).Ok? && CString(From(bs, |front| + 8).value) == Ok(t)
  {
    var text := t + ([0] + more);
    WordsReadBack([|t| + 1], text);
    CStringReadsBack(t, more);
    hide Num, Words, CString, NulFree;
    var bs := front + (Dynamic(t) + more);
    assert Dynamic(t) + more == Words([|t| + 1]) + text;
    NumAfter(front, Words([|t| + 1]) + text, 0, 8);
    assert Num(Words([|t| + 1]) + text, 8 * 0, 8) == Ok(|t| + 1);
    FromAfter(front + Words([|t| + 1]), text);
    assert bs == front + Words([|t| + 1]) + text;
  }

  /** Reading one string takes the loop one turn further. */
  lemma DynamicJoins(bs: seq<Byte>, length: nat, texts: nat, start: nat, j: nat, at: nat, got: seq<Text>, t: Text)
    requires j < texts && start <= at && at - start + |t| + 1 <= length < WORD_LIMIT
    requires Num(bs, at, 8) == Ok(|t| + 1) && From(bs, at + 8).Ok? && CString(From(bs, at + 8).value) == Ok(t)
    ensures DecodeDynamics(bs, length, texts, start, j, at, got)
         == DecodeDynamics(bs, length, texts, start, j + 1, at + 9 + |t|, got + [t])
  {
    hide Num, From, CString;
    assert at + 8 + (|t| + 1) == at + 9 + |t|;
  }

  lemma {:induction false} DynamicsReadBack(bs: seq<Byte>, head: seq<Byte>, texts: seq<Text>, after: seq<Byte>, length: nat, j: nat)
    requires bs == head + (Dynamics(texts) + after)
    requires j <= |texts| && |Dynamics(texts)| <= length < WORD_LIMIT
    requires forall i :: 0 <= i < |texts| ==> NulFree(texts[i])
    ensures DecodeDynamics(bs, length, |texts|, |head|, j, |head| + |Dynamics(texts[..j])|, texts[..j])
         == Ok((texts, |head| + |Dynamics(texts)|))
    decreases |texts| - j
  {
    hide *;
    if j == |texts| {
      DynamicsDone(bs, length, texts, |head|, |head| + |Dynamics(texts[..j])|, texts[..j]);
      assert texts[..j] == texts;
      return;
    }
    var front, t := Dynamics(texts[..j]), texts[j];
    var more := DynamicAt(texts, j);
    DynamicsGrow(texts, j);
    DynamicSize(t);
    Regroup(head, front, Dynamic(t), more, after);
    assert bs == (head + front) + (Dynamic(t) + (more + after));
    DynamicReadsBack(head + front, t, more + after);
    DynamicJoins(bs, length, |texts|, |head|, j, |head| + |front|, texts[..j], t);
    assert texts[..j] + [t] == texts[..j + 1];
    DynamicsReadBack(bs, head, texts, after, length, j + 1);
  }

  lemma DynamicSize(t: Text)
    ensures |Dynamic(t)| == 9 + |t|
  {
  }

  lemma DynamicsDone(bs: seq<Byte>, length: nat, texts: seq<Text>, start: nat, at: nat, got: seq<Text>)
    requires start <= at
    ensures DecodeDynamics(bs, length, |texts|, start, |texts|, at, got) == Ok((got, at))
  {
  }

  /** Any list of primitive members and NUL-free strings comes back, given at
      least the bytes it was written to. */
  lemma MembersReadBack(shape: Shape, m: Members, after: seq<Byte>, length: nat)
    requires Fits(shape, m) && |EncodeMembers(shape.widths, m)| <= length < WORD_LIMIT
    ensures DecodeMembers(EncodeMembers(shape.widths, m) + after, length, shape)
         == Ok(Read(m, |EncodeMembers(shape.widths, m)|))
  {
    hide Primitives, Dynamics, DecodePrimitives, DecodeDynamics;
    PartsReadBack(EncodeMembers(shape.widths, m) + after, shape, m, after, length);
  }

  lemma PartsReadBack(bs: seq<Byte>, shape: Shape, m: Members, after: seq<Byte>, length: nat)
    requires Fits(shape, m) && |EncodeMembers(shape.widths, m)| <= length < WORD_LIMIT
    requires bs == Primitives(shape.widths, m.numbers) + Dynamics(m.texts) + after
    ensures var p, d := |Primitives(shape.widths, m.numbers)|, |Dynamics(m.texts)|;
      && DecodePrimitives(bs, length, shape.widths, 0, 0, []) == Ok((m.numbers, p))
      && p <= length && DecodeDynamics(bs, length - p, shape.texts, p, 0, p, []) == Ok((m.texts, p + d))
  {
    hide Primitives, Dynamics, DecodePrimitives, DecodeDynamics, NulFree, Pow256;
    NothingRead();
    assert shape.widths[..0] == [] && m.numbers[..0] == [] && m.texts[..0] == [];
    var p, d := Primitives(shape.widths, m.numbers), Dynamics(m.texts);
    assert bs == p + (d + after);
    PrimitivesReadBack(bs, shape.widths, m.numbers, d + after, length, 0);
    DynamicsReadBack(bs, p, m.texts, after, length - |p|, 0);
  }

  lemma NothingRead()
    ensures Primitives([], []) == [] && Dynamics([]) == []
  {
  }

  // ---------- the loops ----------

  method SerialisePrimitives(widths: seq<nat>, numbers: seq<nat>, s: Serialiser) returns (count: nat)
    requires |numbers| == |widths|
    modifies s
    ensures s.data == old(s.data) + Primitives(widths, numbers) && count == |Primitives(widths, numbers)|
  {
    var propList: seq<Byte> := [];
    for i := 0 to |widths|
      invariant s.data == old(s.data) && propList == Primitives(widths[..i], numbers[..i])
    {
      PrimitivesGrow(widths, numbers, i);
      propList := propList + LE(numbers[i], widths[i]);
    }
    assert widths[..|widths|] == widths && numbers[..|widths|] == numbers;
    assert propList == Primitives(widths, numbers);
    hide Primitives;
    count := s.Append(propList);
  }

  method SerialiseDynamic(t: Text, s: Serialiser) returns (count: nat)
    modifies s
    ensures s.data == old(s.data) + Dynamic(t) && count == |Dynamic(t)|
  {
    hide Words;
    var length := s.Append(Words([|t| + 1]));
    var content := s.Append(t + [0]);
    count := length + content;
  }

  method SerialiseDynamicMembers(texts: seq<Text>, s: Serialiser) returns (count: nat)
    modifies s
    ensures s.data == old(s.data) + Dynamics(texts) && count == |Dynamics(texts)|
  {
    hide Dynamic, Dynamics;
    NothingRead();
    count := 0;
    for i := 0 to |texts|
      invariant s.data == old(s.data) + Dynamics(texts[..i]) && count == |Dynamics(texts[..i])|
    {
      DynamicsGrow(texts, i);
      var size := SerialiseDynamic(texts[i], s);
      count := count + size;
    }
    assert texts[..|texts|] == texts;
  }

  method SerialiseAll(shape: Shape, m: Members, s: Serialiser) returns (count: nat)
    requires |m.numbers| == |shape.widths|
    modifies s
    ensures s.data == old(s.data) + EncodeMembers(shape.widths, m) && count == |EncodeMembers(shape.widths, m)|
  {
    hide Primitives, Dynamics;
    var p := SerialisePrimitives(shape.widths, m.numbers, s);
    var d := SerialiseDynamicMembers(m.texts, s);
    count := p + d;
  }

  method UnserialiseAll(bs: seq<Byte>, length: nat, shape: Shape) returns (r: Result<Read>)
    ensures r == DecodeMembers(bs, length, shape)
  {
    hide Num, From, CString, Plus, Minus;
    var unserialised: nat := 0;
    var numbers: seq<nat> := [];
    for i := 0 to |shape.widths|
      invariant |numbers| == i
      invariant DecodePrimitives(bs, length, shape.widths, 0, 0, [])
             == DecodePrimitives(bs, length, shape.widths, i, unserialised, numbers)
    {
      if unserialised + shape.widths[i] > length { return Err(Rejected); }
      var n :- Num(bs, unserialised, shape.widths[i]);
      numbers, unserialised := numbers + [n], unserialised + shape.widths[i];
    }
    var start, l := unserialised, Minus(length, unserialised);
    var texts: seq<Text> := [];
    for j := 0 to shape.texts
      invariant start <= unserialised
      invariant DecodeDynamics(bs, l, shape.texts, start, 0, start, [])
             == DecodeDynamics(bs, l, shape.texts, start, j, unserialised, texts)
    {
      var size :- Num(bs, unserialised, 8);
      if Plus(unserialised - start, size) > l { return Err(Rejected); }
      var here :- From(bs, unserialised + 8);
      var t :- CString(here);
      texts, unserialised := texts + [t], unserialised + 8 + size;
    }
    r := Ok(Read(Members(numbers, texts), unserialised));
  }
}
