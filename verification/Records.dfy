/** Values and property tables as bytes: a value is a header, its own members and
    the property table of its metadata; a property table is a header, a row of
    property headers, its lock and the values of every property. */
module Records {
  import opened Bytes
  import opened Directory
  import opened Listings
  import opened MemberCodec
  import opened Properties

  // ---------- what is stored of a value ----------

  function Code(t: SubType): nat {
    match t
    case Undefined => 0x00
    case PropertyReference => 0x40
    case ValueReference => 0x11
    case EntityRef => 0xA2
    case SourceRef => 0xA3
    case Int32 => 0x20
    case String => 0x21
    case Date => 0x22
    case UInt32 => 0x23
    case TimeStamp => 0x24
    case TypeID => 0x25
    case AuthorID => 0x26
    case Confidence => 0x27
  }

  /** Codes that no stored type has are all alike to the decoder. */
  function OfCode(code: nat): SubType {
    if code == 0xA2 then EntityRef
    else if code == 0xA3 then SourceRef
    else if code == 0x20 then Int32
    else if code == 0x21 then String
    else if code == 0x22 then Date
    else if code == 0x23 then UInt32
    else if code == 0x24 then TimeStamp
    else if code == 0x25 then TypeID
    else if code == 0x26 then AuthorID
    else if code == 0x27 then SubType.Confidence
    else Undefined
  }

  /** The types that the reader knows. The writer knows property and value
      references as well. */
  predicate Stored(t: SubType) { t != Undefined && t != PropertyReference && t != ValueReference }

  lemma CodesReadBack(t: SubType)
    ensures OfCode(Code(t)) == (if Stored(t) then t else Undefined) && Code(t) < 256
  {
  }

  const BASE := Shape([4], 0)

  function ShapeOf(t: SubType): Shape {
    match t
    case EntityRef => Shape([8], 0)
    case SourceRef => Shape([8], 0)
    case String => Shape([], 1)
    case Date => Shape([8, 4], 0)
    case TimeStamp => Shape([], 0)
    case ValueReference => Shape([], 0)
    case _ => Shape([4], 0)
  }

  /** The moment of a time stamp is not among its serialised members, and a value
      reference has none. */
  function StoredMembers(v: Value): Members {
    if v.subtype == TimeStamp || v.subtype == ValueReference then Members([], []) else v.members
  }

  /** A sort can ask for the certainty of the value. */
  predicate Ranked(v: Value) {
    AlwaysCertain(v.subtype) ||
    (CONFIDENCE in v.meta.properties && var p := v.meta.properties[CONFIDENCE];
     p.subtype == SubType.Confidence && p.values != [])
  }

  /** Everything below is as the classes build it: members of the declared widths,
      strings without NUL, one type per property, a certainty where one is due. */
  ghost predicate SoundValue(v: Value)
    decreases v
  {
    && v.subtype != Undefined && v.orderingId < 0x1_0000_0000 && Ranked(v)
    && Fits(ShapeOf(v.subtype), StoredMembers(v)) && SoundOwner(v.meta)
  }

  ghost predicate SoundProperty(p: Property, key: nat)
    decreases p
  {
    && p.key == key < 0x1_0000_0000 && p.subtype != Undefined && |p.values| <= 0x1_0000_0000
    && forall i :: 0 <= i < |p.values| ==> p.values[i].subtype == p.subtype && SoundValue(p.values[i])
  }

  ghost predicate SoundOwner(o: Owner)
    decreases o
  {
    forall k :: k in o.properties ==> SoundProperty(o.properties[k], k)
  }

  // ---------- the layout ----------

  function ValueHeader(size: nat, memberSize: nat, t: SubType): seq<Byte> { Words([size, memberSize, Code(t)]) }

  ghost function MemberBytes(v: Value): seq<Byte>
    requires SoundValue(v)
  {
    EncodeMembers(BASE.widths, Members([v.orderingId], [])) + EncodeMembers(ShapeOf(v.subtype).widths, StoredMembers(v))
  }

  ghost function EncodeValue(v: Value): seq<Byte>
    requires SoundValue(v)
    decreases v
  {
    var members, meta := MemberBytes(v), EncodeOwner(v.meta);
    ValueHeader(24 + |members| + |meta|, |members|, v.subtype) + (members + meta)
  }

  ghost function ValueParts(p: Property, key: nat): (parts: seq<seq<Byte>>)
    requires SoundProperty(p, key)
    ensures |parts| == |p.values|
    decreases p
  {
    seq(|p.values|, i requires 0 <= i < |p.values| => EncodeValue(p.values[i]))
  }

  function PropertyHeader(offset: nat, size: nat, key: nat, t: SubType, count: nat): (bs: seq<Byte>)
    ensures |bs| == 32
  {
    Words([offset, size]) + ((LE(key, 4) + LE(Code(t), 4)) + Words([count]))
  }

  ghost function KeysOf(o: Owner): (keys: seq<nat>)
    ensures |keys| == |o.properties| && Distinct(keys) && forall k :: k in keys <==> k in o.properties
    ensures forall i, j :: 0 <= i < j < |keys| ==> keys[i] <= keys[j]
  {
    OrdersAreTotal();
    ListingLists(o.properties.Keys, AtMost());
    Ascending(o.properties.Keys)
  }

  ghost function Bodies(o: Owner): (bodies: seq<seq<Byte>>)
    requires SoundOwner(o)
    ensures |bodies| == |o.properties|
    decreases o, 0
  {
    var keys := KeysOf(o);
    seq(|keys|, i requires 0 <= i < |keys| => assert keys[i] in keys; Concat(ValueParts(o.properties[keys[i]], keys[i])))
  }

  ghost function HeaderOf(o: Owner, bodies: seq<seq<Byte>>, i: nat): (bs: seq<Byte>)
    requires i < |bodies| == |o.properties|
    ensures |bs| == 32
  {
    var key := KeysOf(o)[i];
    assert key in KeysOf(o);
    var p := o.properties[key];
    PropertyHeader(Start(bodies, i), |bodies[i]|, p.key, p.subtype, |p.values|)
  }

  ghost function Headers(o: Owner, bodies: seq<seq<Byte>>): (headers: seq<seq<Byte>>)
    requires |bodies| == |o.properties|
    ensures |headers| == |bodies| && Uniform(headers, 32)
  {
    seq(|bodies|, i requires 0 <= i < |bodies| => HeaderOf(o, bodies, i))
  }

  function LockByte(locked: bool): seq<Byte> { [if locked then 1 else 0] }

  function OwnerHeader(count: nat, length: nat): (bs: seq<Byte>)
    ensures |bs| == 56
  {
    Words([1, 57 + 32 * count + length, count, 56 + 32 * count, 1, 57 + 32 * count, length])
  }

  ghost function EncodeOwner(o: Owner): seq<Byte>
    requires SoundOwner(o)
    decreases o, 1
  {
    var bodies := Bodies(o);
    OwnerHeader(|o.properties|, |Concat(bodies)|) + Laid(Headers(o, bodies), LockByte(o.locked), bodies)
  }

  // ---------- reading it back ----------

  /** PropertyOwner::insertProperty as unserialising calls it; an entity also
      checks the type of its relations. */
  function Refill(o: Owner, p: Property, ofEntity: bool): Result<Owner> {
    var _ :- Need(ofEntity && (p.key == SUBSET_OF || p.key == SUPERSET_OF) ==> p.subtype == EntityRef);
    match InsertProperty(o, p)
    case Threw => Err(Rejected)
    case Done(o') => Ok(o')
  }

  /** TypeSerialiser::unserialise, with the number of bytes it takes. */
  function DecodeValue(bs: seq<Byte>): Result<(Value, nat)>
    decreases |bs|, 0, 0
  {
    var total :- Num(bs, 0, 8);
    var memberSize :- Num(bs, 8, 8);
    var code :- Num(bs, 16, 4);
    var dataSize, t := Minus(total, 24), OfCode(code);
    var _ :- Assert(Stored(t));
    var limit := if t == Int32 then memberSize else dataSize;
    var d0 :- From(bs, 24);
    var base :- DecodeMembers(d0, limit, BASE);
    var d1 :- From(d0, base.used);
    var own :- DecodeMembers(d1, limit, ShapeOf(t));
    var d2 :- From(d1, own.used);
    var metaSize := Minus(dataSize, memberSize);
    var meta :- DecodeOwner(d2, metaSize, Owner(false, map[]), false);
    var _ :- Need(base.used + own.used + metaSize == dataSize);
    Ok((Value(t, base.members.numbers[0], own.members, meta), 24 + dataSize))
  }

  /** PropertyOwnerSerialiser::unserialise into an owner that may already hold
      properties. */
  function DecodeOwner(bs: seq<Byte>, length: nat, shell: Owner, ofEntity: bool): Result<Owner>
    decreases |bs|, 3, 0
  {
    var version :- Num(bs, 0, 2);
    var _ :- Need(version == 1);
    var size :- Num(bs, 8, 8);
    var _ :- Need(size == length);
    var memberOffset :- Num(bs, 24, 8);
    var _ :- Need(memberOffset < length);
    var memberLength :- Num(bs, 32, 8);
    var _ :- Need(Plus(memberOffset, memberLength) <= length);
    var propertyOffset :- Num(bs, 40, 8);
    var count :- Num(bs, 16, 8);
    var _ :- Need(propertyOffset <= length && !(count > 0 && propertyOffset == length));
    var propertyLength :- Num(bs, 48, 8);
    var _ :- Need(Plus(propertyOffset, propertyLength) <= length);
    var _ :- Need(propertyOffset >= Plus(memberOffset, memberLength));
    var members :- From(bs, memberOffset);
    var lock :- DecodeMembers(members, memberLength, Shape([1], 0));
    var _ :- Assert(lock.members.numbers[0] < 2);
    var o :- DecodeProperties(bs, length, propertyOffset, count, 0, shell.(locked := false), ofEntity);
    Ok(o.(locked := lock.members.numbers[0] == 1))
  }

  function DecodeProperties(bs: seq<Byte>, length: nat, start: nat, count: nat, i: nat, o: Owner, ofEntity: bool): Result<Owner>
    decreases |bs|, 2, count - i
  {
    if i >= count then Ok(o)
    else
      var p :- DecodePropertyAt(bs, length, start, i);
      var o' :- Refill(o, p, ofEntity);
      DecodeProperties(bs, length, start, count, i + 1, o', ofEntity)
  }

  /** The property whose header is number i. */
  function DecodePropertyAt(bs: seq<Byte>, length: nat, start: nat, i: nat): Result<Property>
    decreases |bs|, 1, 0
  {
    var h := 56 + 32 * i;
    var offset :- Num(bs, h, 8);
    var at := Plus(start, offset);
    var _ :- Need(at < length);
    var size :- Num(bs, h + 8, 8);
    var _ :- Need(Plus(at, size) <= length);
    var key :- Num(bs, h + 16, 4);
    var code :- Num(bs, h + 20, 4);
    var count :- Num(bs, h + 24, 8);
    var _ :- Need(Stored(OfCode(code)));
    var values :- DecodeValues(bs, at, count, OfCode(code), 0, []);
    Populated(key, OfCode(code), values)
  }

  function DecodeValues(bs: seq<Byte>, at: nat, count: nat, t: SubType, i: nat, got: seq<Value>): Result<seq<Value>>
    decreases |bs|, 0, 1 + if i < count then count - i else 0
  {
    if i >= count then Ok(got)
    else
      var data :- From(bs, at);
      var (v, size) :- DecodeValue(data);
      var _ :- Need(v.subtype == t);
      DecodeValues(bs, at + size, count, t, i + 1, got + [v])
  }

  /** A fuzzy property of the values: two or more are sorted, which asks each for
      its certainty. */
  function Populated(key: nat, t: SubType, values: seq<Value>): Result<Property> {
    var _ :- Need(|values| < 2 || forall v :: v in values ==> AlwaysCertain(v.subtype) || CONFIDENCE in v.meta.properties);
    var _ :- Assert(|values| < 2 || forall v :: v in values ==> Ranked(v));
    match AppendedAll(Property(Fuzzy, key, t, []), values)
    case Threw => Err(Rejected)
    case Done(p) => Ok(p)
  }
}
