/** The serialiser and the unserialiser of values and property tables, as they run
    over the growing buffer and the data pointer. */
module RecordStreams {
  import opened Bytes
  import opened Directory
  import opened Listings
  import opened MemberCodec
  import opened Paths
  import opened Properties
  import opened Records
  import opened Reload

  // ---------- writing ----------

  lemma ValuePieces(v: Value)
    requires SoundValue(v)
    ensures |StoredMembers(v).numbers| == |ShapeOf(v.subtype).widths|
    ensures var base, own, meta := EncodeMembers(BASE.widths, Members([v.orderingId], [])), EncodeMembers(ShapeOf(v.subtype).widths, StoredMembers(v)), EncodeOwner(v.meta);
      var header := ValueHeader(24 + |base| + |own| + |meta|, |base| + |own|, v.subtype);
      |header| == 24 && EncodeValue(v) == header + (base + own + meta)
  {
    hide EncodeOwner, EncodeMembers, Nums, SoundOwner, StoredMembers, ShapeOf;
    assert SoundOwner(v.meta);
    var base, own, meta := EncodeMembers(BASE.widths, Members([v.orderingId], [])), EncodeMembers(ShapeOf(v.subtype).widths, StoredMembers(v)), EncodeOwner(v.meta);
    assert (base + own) + meta == base + own + meta;
  }

  lemma HeaderPatched(before: seq<Byte>, blank: seq<Byte>, rest: seq<Byte>, header: seq<Byte>)
    requires |blank| == |header|
    ensures |before| + |header| <= |before + blank + rest|
    ensures Patched(before + blank + rest, |before|, header) == before + (header + rest)
  {
    assert before + blank + rest == before + (blank + rest);
    PatchMiddle(before, blank, rest, header);
  }

  method SerialiseValue(v: Value, s: Serialiser) returns (size: nat)
    requires SoundValue(v)
    modifies s
    ensures s.data == old(s.data) + EncodeValue(v) && size == |EncodeValue(v)|
    decreases v
  {
    hide EncodeOwner, EncodeMembers, Nums, StoredMembers, ShapeOf, ValueHeader, EncodeValue, Patched;
    ValuePieces(v);
    ghost var before, blank := s.data, ValueHeader(0, 0, v.subtype);
    var initialSize := |s.data|;
    var bytes := s.Append(ValueHeader(0, 0, v.subtype));
    assert bytes == 24 by { BlankHeader(v.subtype); }
    var base := SerialiseAll(BASE, Members([v.orderingId], []), s);
    var own := SerialiseAll(ShapeOf(v.subtype), StoredMembers(v), s);
    var meta := SerialiseOwner(v.meta, s);
    size := bytes + base + own + meta;
    ghost var rest := EncodeMembers(BASE.widths, Members([v.orderingId], [])) + EncodeMembers(ShapeOf(v.subtype).widths, StoredMembers(v)) + EncodeOwner(v.meta);
    assert s.data == before + blank + rest;
    var header := ValueHeader(size, base + own, v.subtype);
    HeaderPatched(before, blank, rest, header);
    s.Overwrite(initialSize, header, 0);
  }

  lemma BlankHeader(t: SubType)
    ensures |ValueHeader(0, 0, t)| == 24
  {
  }

  /** The values of one property, one after the other. */
  method SerialiseValues(p: Property, ghost key: nat, s: Serialiser) returns (size: nat)
    requires SoundProperty(p, key)
    modifies s
    ensures s.data == old(s.data) + Concat(ValueParts(p, key)) && size == |Concat(ValueParts(p, key))|
    decreases p
  {
    hide EncodeValue, Concat, SoundValue;
    ghost var parts := ValueParts(p, key);
    assert parts[..0] == [] && Concat([]) == [] by { NoParts(); }
    size := 0;
    for i := 0 to |p.values|
      invariant s.data == old(s.data) + Concat(parts[..i]) && size == |Concat(parts[..i])|
    {
      ConcatGrows(parts, i);
      var bytes := SerialiseValue(p.values[i], s);
      size := size + bytes;
    }
    assert parts[..|p.values|] == parts;
  }

  lemma NoParts()
    ensures Concat([]) == []
  {
  }

  /** The table when i properties have been written. */
  ghost function Written(o: Owner, i: nat): seq<Byte>
    requires SoundOwner(o) && i <= |o.properties|
  {
    Partial(Headers(o, Bodies(o)), 32, LockByte(o.locked), Bodies(o), i)
  }

  lemma WrittenEnds(o: Owner)
    requires SoundOwner(o)
    ensures Written(o, 0) == Blank(32, |o.properties|) + LockByte(o.locked)
    ensures Written(o, |o.properties|) == Laid(Headers(o, Bodies(o)), LockByte(o.locked), Bodies(o))
    ensures Start(Bodies(o), 0) == 0 && Start(Bodies(o), |o.properties|) == |Concat(Bodies(o))|
  {
    hide SoundProperty, Headers, Bodies, Blank, Laid, Partial;
    var headers, bodies := Headers(o, Bodies(o)), Bodies(o);
    PartialStarts(headers, 32, LockByte(o.locked), bodies);
    PartialEnds(headers, 32, LockByte(o.locked), bodies);
    assert bodies[..0] == [] && bodies[..|o.properties|] == bodies;
  }

  /** Writing the values of property i and filling its header in. */
  lemma WrittenSteps(front: seq<Byte>, o: Owner, i: nat, key: nat)
    requires SoundOwner(o) && i < |o.properties| && KeysOf(o)[i] == key
    ensures key in o.properties && SoundProperty(o.properties[key], key)
    ensures var p := o.properties[key]; var body := Concat(ValueParts(p, key));
      var header := PropertyHeader(Start(Bodies(o), i), |body|, p.key, p.subtype, |p.values|);
      var data := front + Written(o, i) + body;
      && |front| + i * 32 + 32 <= |data|
      && Patched(data, |front| + i * 32, header) == front + Written(o, i + 1)
      && Start(Bodies(o), i + 1) == Start(Bodies(o), i) + |body|
  {
    hide *;
    KeyIs(o, i, key);
    HeaderIs(o, i);
    HeadersAt(o, i);
    HeaderFillsIn(front, Headers(o, Bodies(o)), 32, LockByte(o.locked), Bodies(o), i);
    ConcatGrows(Bodies(o), i);
    WrittenIs(o, i);
    WrittenIs(o, i + 1);
  }

  lemma KeyIs(o: Owner, i: nat, key: nat)
    requires i < |o.properties| && KeysOf(o)[i] == key
    ensures KeyAt(o, i) == key && key in o.properties && PropertyAt(o, i) == o.properties[key]
  {
  }

  lemma HeadersAt(o: Owner, i: nat)
    requires SoundOwner(o) && i < |o.properties|
    ensures Headers(o, Bodies(o))[i] == HeaderOf(o, Bodies(o), i) && Uniform(Headers(o, Bodies(o)), 32)
  {
    hide Bodies, HeaderOf, SoundProperty;
  }

  lemma WrittenIs(o: Owner, i: nat)
    requires SoundOwner(o) && i <= |o.properties|
    ensures Written(o, i) == Partial(Headers(o, Bodies(o)), 32, LockByte(o.locked), Bodies(o), i)
  {
    hide Headers, Bodies, Partial, SoundProperty;
  }

  lemma NextKey(o: Owner, rest: set<nat>, key: nat, i: nat)
    requires IsLeast(key, rest) && i <= |o.properties| && KeysOf(o)[i..] == Ascending(rest)
    ensures i < |o.properties| && KeysOf(o)[i] == key && KeysOf(o)[i + 1..] == Ascending(rest - {key})
  {
    hide Ascending;
    AscendingStarts(key, rest);
    assert KeysOf(o)[i..][0] == key && KeysOf(o)[i..][1..] == KeysOf(o)[i + 1..];
  }

  lemma KeysStart(o: Owner)
    ensures KeysOf(o)[0..] == Ascending(o.properties.Keys)
  {
    assert KeysOf(o)[0..] == KeysOf(o);
  }

  lemma KeysEnd(o: Owner, i: nat)
    requires i <= |o.properties| && KeysOf(o)[i..] == Ascending({})
    ensures i == |o.properties|
  {
    AscendingEnds();
  }

  method SerialiseProperties(o: Owner, s: Serialiser, headersAt: nat, ghost front: seq<Byte>) returns (length: nat)
    requires SoundOwner(o) && headersAt == |front| && s.data == front + Written(o, 0)
    modifies s
    ensures s.data == front + Written(o, |o.properties|) && length == |Concat(Bodies(o))|
    decreases o, 0
  {
    hide Written, Bodies, SoundProperty, Start, Concat, ValueParts, PropertyHeader, Ascending, Patched;
    WrittenEnds(o);
    KeysStart(o);
    var rest, number := o.properties.Keys, 0;
    length := 0;
    while rest != {}
      invariant 0 <= number <= |o.properties| && rest <= o.properties.Keys && KeysOf(o)[number..] == Ascending(rest)
      invariant s.data == front + Written(o, number) && length == Start(Bodies(o), number)
    {
      var key := LeastOf(rest);
      NextKey(o, rest, key, number);
      WrittenSteps(front, o, number, key);
      var p := o.properties[key];
      var size := SerialiseValues(p, key, s);
      s.Overwrite(headersAt, PropertyHeader(length, size, p.key, p.subtype, |p.values|), number);
      length, number, rest := length + size, number + 1, rest - {key};
    }
    KeysEnd(o, number);
  }

  method SerialiseOwner(o: Owner, s: Serialiser) returns (size: nat)
    requires SoundOwner(o)
    modifies s
    ensures s.data == old(s.data) + EncodeOwner(o) && size == |EncodeOwner(o)|
    decreases o, 1
  {
    hide Written, Bodies, Headers, SoundProperty, Concat, Blank, Laid, Nums, Patched, EncodeMembers;
    WrittenEnds(o);
    var indexBegin, count := |s.data|, |o.properties|;
    ghost var before, blank := s.data, Words([1, 0, count, 0, 0, 0, 0]);
    var _ := s.Append(Words([1, 0, count, 0, 0, 0, 0]));
    AppendBlank(s, 32, count);
    var indexDataBegin := |s.data|;
    LockMember(o.locked);
    var memberLength := SerialiseAll(Shape([1], 0), Members([if o.locked then 1 else 0], []), s);
    BlankSize(32, count);
    var partly := Words([1, 0, count, indexDataBegin - indexBegin, memberLength, 0, 0]);
    HeaderPatched(before, blank, Written(o, 0), partly);
    assert s.data == before + blank + Written(o, 0);
    s.Overwrite(indexBegin, partly, 0);
    var propertiesOffset := |s.data|;
    var length := SerialiseProperties(o, s, indexBegin + 56, before + partly);
    size := |s.data| - indexBegin;
    ghost var laid := Laid(Headers(o, Bodies(o)), LockByte(o.locked), Bodies(o));
    LaidSize(Headers(o, Bodies(o)), 32, LockByte(o.locked), Bodies(o));
    var header := Words([1, size, count, indexDataBegin - indexBegin, memberLength, propertiesOffset - indexBegin, length]);
    assert header == OwnerHeader(count, length);
    HeaderPatched(before, partly, laid, header);
    s.Overwrite(indexBegin, header, 0);
  }

  lemma LockMember(locked: bool)
    ensures EncodeMembers([1], Members([if locked then 1 else 0], [])) == LockByte(locked)
  {
    var m := Members([if locked then 1 else 0], []);
    assert LE(m.numbers[0], 1) == LockByte(locked);
    assert [1][..0] == [] && m.numbers[..0] == [] && Primitives([], []) == [];
    assert Primitives([1], m.numbers) == Primitives([], []) + LE(m.numbers[0], 1);
  }

  // ---------- reading ----------

  /** bs starts with what is written of v. */
  ghost predicate ValueWritten(v: Value, after: seq<Byte>, bs: seq<Byte>) {
    SoundValue(v) && |EncodeValue(v)| < WORD_LIMIT && bs == EncodeValue(v) + after
  }

  /** What reading makes of the bytes of a value: the reader stops the process at a
      type it does not know. */
  ghost function AsRead(v: Value): Result<(Value, nat)>
    requires SoundValue(v)
  {
    if !Stored(v.subtype) then Err(Fatal)
    else if LoadableValue(v) then Ok((ReloadedValue(v), |EncodeValue(v)|)) else Err(Rejected)
  }

  lemma WrittenReadsBack(bs: seq<Byte>)
    ensures forall v, after :: ValueWritten(v, after, bs) ==> DecodeValue(bs) == AsRead(v)
  {
    hide DecodeValue, SoundValue, EncodeValue, LoadableValue, ReloadedValue;
    forall v, after | ValueWritten(v, after, bs) ensures DecodeValue(bs) == AsRead(v) { ValueReadsBack(v, after); }
  }

  /** On any bytes the specified reading; on the bytes of a value that value. */
  method UnserialiseValue(bs: seq<Byte>) returns (r: Result<(Value, nat)>)
    ensures r == DecodeValue(bs)
    ensures forall v, after :: ValueWritten(v, after, bs) ==> r == AsRead(v)
    decreases |bs|, 0, 0
  {
    WrittenReadsBack(bs);
    hide AsRead, ValueWritten, Num, From, DecodeMembers, DecodeOwner, OfCode, ShapeOf, Plus, Minus;
    var total :- Num(bs, 0, 8);
    var memberSize :- Num(bs, 8, 8);
    var code :- Num(bs, 16, 4);
    var t, dataSize := OfCode(code), Minus(total, 24);
    if !Stored(t) { return Err(Fatal); }
    var limit := if t == Int32 then memberSize else dataSize;
    var d :- From(bs, 24);
    var base: Read :- UnserialiseAll(d, limit, BASE);
    d :- From(d, base.used);
    var own: Read :- UnserialiseAll(d, limit, ShapeOf(t));
    d :- From(d, own.used);
    var metaSize := Minus(dataSize, memberSize);
    var meta: Owner :- UnserialiseOwner(d, metaSize, Owner(false, map[]), false);
    if base.used + own.used + metaSize != dataSize { return Err(Rejected); }
    r := Ok((Value(t, base.members.numbers[0], own.members, meta), 24 + dataSize));
  }

  method UnserialiseOwner(bs: seq<Byte>, length: nat, shell: Owner, ofEntity: bool) returns (r: Result<Owner>)
    ensures r == DecodeOwner(bs, length, shell, ofEntity)
    decreases |bs|, 3, 0
  {
    hide Num, From, DecodeMembers, DecodePropertyAt, Refill, Plus;
    var version :- Num(bs, 0, 2);
    if version != 1 { return Err(Rejected); }
    var size :- Num(bs, 8, 8);
    if size != length { return Err(Rejected); }
    var memberOffset :- Num(bs, 24, 8);
    if memberOffset >= length { return Err(Rejected); }
    var memberLength :- Num(bs, 32, 8);
    if Plus(memberOffset, memberLength) > length { return Err(Rejected); }
    var propertyOffset :- Num(bs, 40, 8);
    var count :- Num(bs, 16, 8);
    if propertyOffset > length || (count > 0 && propertyOffset == length) { return Err(Rejected); }
    var propertyLength :- Num(bs, 48, 8);
    if Plus(propertyOffset, propertyLength) > length { return Err(Rejected); }
    if propertyOffset < Plus(memberOffset, memberLength) { return Err(Rejected); }
    var memberData :- From(bs, memberOffset);
    var lock: Read :- UnserialiseAll(memberData, memberLength, Shape([1], 0));
    if lock.members.numbers[0] >= 2 { return Err(Fatal); }
    var wasLocked, o := lock.members.numbers[0] == 1, shell.(locked := false);
    for i := 0 to count
      invariant DecodeProperties(bs, length, propertyOffset, count, 0, shell.(locked := false), ofEntity)
             == DecodeProperties(bs, length, propertyOffset, count, i, o, ofEntity)
    {
      var p: Property :- Populate(bs, length, propertyOffset, i);
      o :- Refill(o, p, ofEntity);
    }
    r := Ok(o.(locked := wasLocked));
  }

  method Populate(bs: seq<Byte>, length: nat, start: nat, i: nat) returns (r: Result<Property>)
    ensures r == DecodePropertyAt(bs, length, start, i)
    decreases |bs|, 1, 0
  {
    hide Num, From, DecodeValue, OfCode, Plus, Populated;
    var h := 56 + 32 * i;
    var offset :- Num(bs, h, 8);
    var at := Plus(start, offset);
    if at >= length { return Err(Rejected); }
    var size :- Num(bs, h + 8, 8);
    if Plus(at, size) > length { return Err(Rejected); }
    var key :- Num(bs, h + 16, 4);
    var code :- Num(bs, h + 20, 4);
    var count :- Num(bs, h + 24, 8);
    var t := OfCode(code);
    if !Stored(t) { return Err(Rejected); }
    var values, data: nat := [], at;
    for j := 0 to count
      invariant DecodeValues(bs, at, count, t, 0, []) == DecodeValues(bs, data, count, t, j, values)
    {
      var here :- From(bs, data);
      var read: (Value, nat) :- UnserialiseValue(here);
      if read.0.subtype != t { return Err(Rejected); }
      values, data := values + [read.0], data + read.1;
    }
    r := Populated(key, t, values);
  }
}
