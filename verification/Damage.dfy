/** What the reader refuses, whatever else the bytes are: every header field that it
    checks, section by section. */
module Damage {
  import opened Bytes
  import opened Entities
  import opened GraphFile
  import LinkTable
  import MemberCodec
  import NameTable
  import PrimitiveMap
  import opened Properties
  import opened Records

  /** The fields of the bytes as the readers see them. */
  lemma WordRead(bs: seq<Byte>, at: nat)
    requires at + 8 <= |bs|
    ensures Num(bs, at, 8) == Ok(Word(bs, at))
  {
    EightBytes(bs[at..at + 8]);
    hide FromLE;
  }

  lemma LongRead(bs: seq<Byte>, at: nat)
    requires at + 4 <= |bs|
    ensures Num(bs, at, 4) == Ok(Long(bs, at))
  {
    FourBytes(bs[at..at + 4]);
    hide FromLE;
  }

  lemma ShortRead(bs: seq<Byte>, at: nat)
    requires at + 2 <= |bs|
    ensures Num(bs, at, 2) == Ok(Short(bs, at))
  {
    TwoBytes(bs[at..at + 2]);
    hide FromLE;
  }

  /** Sizes are added as the machine does. */
  function Sum(a: nat, b: nat): nat { (a + b) % 0x1_0000_0000_0000_0000 }

  // ---------- entities and property tables ----------

  /** An entity of another version or size, whose members do not begin inside, or whose
      members or properties do not end inside or overlap. */
  predicate BadEntity(bs: seq<Byte>, length: nat)
    requires |bs| >= 48
  {
    || Short(bs, 0) != 1 || Word(bs, 8) != length || Word(bs, 16) >= length
    || Sum(Word(bs, 16), Word(bs, 24)) > length || Sum(Word(bs, 32), Word(bs, 40)) > length
    || Word(bs, 32) < Sum(Word(bs, 16), Word(bs, 24))
  }

  lemma BadEntityIsRejected(bs: seq<Byte>, length: nat, record: Value)
    requires |bs| >= 48 && BadEntity(bs, length)
    ensures DecodeEntity(bs, length, record) == Err(Rejected)
  {
    hide Num, Short, Word, DecodeOwner, From;
    ShortRead(bs, 0);
    WordRead(bs, 8);
    WordRead(bs, 16);
    WordRead(bs, 24);
    WordRead(bs, 32);
    WordRead(bs, 40);
  }

  /** The same of a property table; and a table with properties has them begin inside. */
  predicate BadTable(bs: seq<Byte>, length: nat)
    requires |bs| >= 56
  {
    || Short(bs, 0) != 1 || Word(bs, 8) != length || Word(bs, 24) >= length
    || Sum(Word(bs, 24), Word(bs, 32)) > length || Word(bs, 40) > length || (Word(bs, 16) > 0 && Word(bs, 40) == length)
    || Sum(Word(bs, 40), Word(bs, 48)) > length || Word(bs, 40) < Sum(Word(bs, 24), Word(bs, 32))
  }

  lemma BadTableIsRejected(bs: seq<Byte>, length: nat, shell: Owner, ofEntity: bool)
    requires |bs| >= 56 && BadTable(bs, length)
    ensures DecodeOwner(bs, length, shell, ofEntity) == Err(Rejected)
  {
    hide Num, Short, Word, DecodeProperties, From;
    ShortRead(bs, 0);
    WordRead(bs, 8);
    WordRead(bs, 24);
    WordRead(bs, 32);
    WordRead(bs, 40);
    WordRead(bs, 16);
    WordRead(bs, 48);
  }

  /** The code of a type that the reader knows. */
  predicate KnownCode(code: nat) { code == 0xA2 || code == 0xA3 || 0x20 <= code <= 0x27 }

  /** A property that does not begin or end inside, or of an unknown type. */
  predicate BadProperty(bs: seq<Byte>, length: nat, start: nat, i: nat)
    requires |bs| >= 88 + 32 * i
  {
    var h := 56 + 32 * i;
    || Sum(start, Word(bs, h)) >= length || Sum(Sum(start, Word(bs, h)), Word(bs, h + 8)) > length || !KnownCode(Long(bs, h + 20))
  }

  lemma BadPropertyIsRejected(bs: seq<Byte>, length: nat, start: nat, i: nat)
    requires |bs| >= 88 + 32 * i && BadProperty(bs, length, start, i)
    ensures DecodePropertyAt(bs, length, start, i) == Err(Rejected)
  {
    hide Num, Long, Word, DecodeValues, Populated;
    var h := 56 + 32 * i;
    WordRead(bs, h);
    WordRead(bs, h + 8);
    LongRead(bs, h + 16);
    LongRead(bs, h + 20);
    WordRead(bs, h + 24);
  }

  /** A table is accepted only if each of its properties is good, and read up to there. */
  lemma {:induction false} AcceptedProperties(bs: seq<Byte>, length: nat, start: nat, count: nat, i: nat, o: Owner, ofEntity: bool)
    requires DecodeProperties(bs, length, start, count, i, o, ofEntity).Ok?
    ensures forall j :: i <= j < count && |bs| >= 88 + 32 * j ==> !BadProperty(bs, length, start, j)
    decreases count - i
  {
    hide BadProperty, DecodePropertyAt, Refill;
    if i < count {
      AcceptedProperties(bs, length, start, count, i + 1, Refill(o, DecodePropertyAt(bs, length, start, i).value, ofEntity).value, ofEntity);
      if |bs| >= 88 + 32 * i && BadProperty(bs, length, start, i) { BadPropertyIsRejected(bs, length, start, i); }
    }
  }

  /** Accepted values are of the type of their list; a value of a type that the reader
      does not know stops the process. */
  lemma {:induction false} AcceptedValues(bs: seq<Byte>, at: nat, count: nat, t: SubType, i: nat, got: seq<Value>)
    requires DecodeValues(bs, at, count, t, i, got).Ok? && forall v :: v in got ==> v.subtype == t
    ensures forall v :: v in DecodeValues(bs, at, count, t, i, got).value ==> v.subtype == t
    ensures |DecodeValues(bs, at, count, t, i, got).value| == |got| + (if i < count then count - i else 0)
    decreases count - i
  {
    hide DecodeValue;
    if i < count {
      var (v, size) := DecodeValue(From(bs, at).value).value;
      AcceptedValues(bs, at + size, count, t, i + 1, got + [v]);
    }
  }

  lemma UnknownValueStops(bs: seq<Byte>)
    requires |bs| >= 24 && !KnownCode(Long(bs, 16))
    ensures DecodeValue(bs) == Err(Fatal)
  {
    hide Num, Long, DecodeOwner, MemberCodec.DecodeMembers;
    WordRead(bs, 0);
    WordRead(bs, 8);
    LongRead(bs, 16);
  }

  lemma WordIsBounded(bs: seq<Byte>, at: nat)
    requires at + 8 <= |bs|
    ensures Word(bs, at) < 0x1_0000_0000_0000_0000
  {
    assert Short(bs, at) < 0x1_0000 && Short(bs, at + 2) < 0x1_0000 && Short(bs, at + 4) < 0x1_0000 && Short(bs, at + 6) < 0x1_0000;
    assert Long(bs, at) < 0x1_0000_0000 && Long(bs, at + 4) < 0x1_0000_0000;
  }

  lemma MinusIs(a: nat, b: nat)
    requires b <= a < 0x1_0000_0000_0000_0000
    ensures Minus(a, b) == a - b
  {
  }

  lemma CodeIs(code: nat)
    requires Stored(OfCode(code))
    ensures Code(OfCode(code)) == code
  {
  }

  /** The codes under which the types are stored: the position a value may take in a
      triple, and a number. */
  lemma TypeCodes()
    ensures Code(EntityRef) == 0xA2 && Code(SourceRef) == 0xA3 && Code(Int32) == 0x20 && Code(String) == 0x21
    ensures Code(Date) == 0x22 && Code(UInt32) == 0x23 && Code(TimeStamp) == 0x24 && Code(TypeID) == 0x25
    ensures Code(AuthorID) == 0x26 && Code(SubType.Confidence) == 0x27
    ensures Code(PropertyReference) == 0x40 && Code(ValueReference) == 0x11 && Code(Undefined) == 0
  {
  }

  lemma MembersAre(e: Entity)
    ensures MemberCodec.EncodeMembers(MEMBERS.widths, MembersOf(e)) == LE(e.handle, 8) + LE(StatusCode(e.status), 4)
  {
    var w, m := MEMBERS.widths, MembersOf(e).numbers;
    hide LE;
    assert w[..2] == w && m[..2] == m && w[..1] == [8] && m[..1] == [e.handle] && w[..0] == [] && m[..0] == [];
    MemberCodec.PrimitivesGrow(w, m, 0);
    MemberCodec.PrimitivesGrow(w, m, 1);
    assert MemberCodec.Primitives([], []) == [] && MemberCodec.Dynamics([]) == [];
  }

  /** Two numbers behind sixty bytes less their own. */
  lemma NumbersStand(before: seq<Byte>, h: nat, c: nat, after: seq<Byte>)
    requires |before| == 48 && h < 0x1_0000_0000_0000_0000 && c < 0x1_0000_0000
    ensures var bs := before + (LE(h, 8) + LE(c, 4) + after);
      |bs| >= 60 && Word(bs, 48) == h && Long(bs, 56) == c
  {
    Widths();
    hide Pow256, LE, FromLE, Word, Long, Num;
    var bs := before + (LE(h, 8) + LE(c, 4) + after);
    assert bs == before + (LE(h, 8) + (LE(c, 4) + after)) == (before + LE(h, 8)) + (LE(c, 4) + after);
    NumHere(h, 8, LE(c, 4) + after);
    NumAfter(before, LE(h, 8) + (LE(c, 4) + after), 0, 8);
    NumHere(c, 4, after);
    NumAfter(before + LE(h, 8), LE(c, 4) + after, 0, 4);
    WordRead(bs, 48);
    LongRead(bs, 56);
  }

  /** The handle and the status of an entity in its bytes. */
  lemma EntityStands(e: Entity)
    requires SoundEntity(e)
    ensures |EncodeEntity(e)| >= 60 && Word(EncodeEntity(e), 48) == e.handle
    ensures Long(EncodeEntity(e), 56) == match e.status case NotLinked => 0 case Master => 1 case Slave => 2
  {
    MembersAre(e);
    hide EncodeOwner, SoundOwner, Word, Long, LE, MemberCodec.EncodeMembers;
    var owner := EncodeOwner(e.owner);
    assert LE(e.handle, 8) + LE(StatusCode(e.status), 4) + owner == (LE(e.handle, 8) + LE(StatusCode(e.status), 4)) + owner;
    NumbersStand(EntityHeader(|owner|), e.handle, StatusCode(e.status), owner);
  }

  /** What is accepted as a value takes as many bytes as it says, and is of the type it
      says. */
  lemma ValueTakesItsSize(bs: seq<Byte>)
    requires DecodeValue(bs).Ok? && |bs| >= 24 && 24 <= Word(bs, 0)
    ensures DecodeValue(bs).value.1 == Word(bs, 0) && Code(DecodeValue(bs).value.0.subtype) == Long(bs, 16)
  {
    hide Num, Long, Word, DecodeOwner, MemberCodec.DecodeMembers, From, Minus, Code, OfCode, Stored, ShapeOf;
    WordIsBounded(bs, 0);
    WordRead(bs, 0);
    WordRead(bs, 8);
    LongRead(bs, 16);
    MinusIs(Word(bs, 0), 24);
    CodeIs(Long(bs, 16));
  }

  // ---------- the other sections ----------

  /** A name table of another size, or a name that does not begin or end inside or is
      not terminated. */
  lemma BadNamesAreRejected(bs: seq<Byte>, length: nat)
    requires |bs| >= 8 && Word(bs, 0) != length
    ensures NameTable.DecodeNames(bs, length) == Err(Rejected)
  {
    hide Num, Word;
    WordRead(bs, 0);
  }

  lemma BadNameIsRejected(bs: seq<Byte>, length: nat, at: nat)
    requires |bs| >= at + 16
    requires at >= length || Word(bs, at) >= length || Sum(Word(bs, at), Word(bs, at + 8)) > length
    ensures NameTable.DecodeName(bs, length, at) == Err(Rejected)
  {
    hide Num, Word, From;
    WordRead(bs, at);
    WordRead(bs, at + 8);
  }

  lemma ShortSectionsAreRejected(bs: seq<Byte>, length: nat)
    ensures length < 8 ==> LinkTable.DecodeLinks(bs, length) == Err(Rejected)
    ensures length < 32 ==> PrimitiveMap.DecodeMap(bs, length) == Err(Rejected)
  {
    hide Num;
  }

  /** The header of an entity in its section, and where it points. */
  lemma BadEntityHeaderIsRejected(bs: seq<Byte>, length: nat, start: nat, i: nat, record: Value)
    requires |bs| >= start + 24 + 16 * i
    requires var h := start + 8 + 16 * i; h >= length || Sum(start, Word(bs, h)) >= length || Sum(Word(bs, h), Word(bs, h + 8)) > length
    ensures DecodeEntityAt(bs, length, start, i, record) == Err(Rejected)
  {
    hide Num, Word, From, DecodeEntity;
    WordRead(bs, start + 8 + 16 * i);
    WordRead(bs, start + 8 + 16 * i + 8);
  }

  /** Accepted entities have handles of their own, none of them null. */
  lemma {:induction false} AcceptedHandles(bs: seq<Byte>, length: nat, start: nat, count: nat, i: nat, got: map<Handle, Entity>, record: Value)
    requires DecodeEntities(bs, length, start, count, i, got, record).Ok? && forall h :: h in got ==> got[h].handle == h != 0
    ensures var es := DecodeEntities(bs, length, start, count, i, got, record).value;
      (forall h :: h in es ==> es[h].handle == h != 0) && |es| == |got| + (if i < count then count - i else 0)
    decreases count - i
  {
    hide DecodeEntityAt;
    if i < count {
      var e := DecodeEntityAt(bs, length, start, i, record).value;
      AcceptedHandles(bs, length, start, count, i + 1, got[e.handle := e], record);
      assert |got[e.handle := e]| == |got| + 1;
    }
  }
}
