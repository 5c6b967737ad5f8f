/** What writing values and property tables and reading them back makes of them,
    and exactly when the reader accepts what the writer wrote. */
module Reload {
  import opened Bytes
  import opened Directory
  import opened Listings
  import opened MemberCodec
  import opened Properties
  import opened Records

  // ---------- what comes back ----------

  /** Time stamps lose their moment, property lists are sorted and numbered anew,
      and every property comes back as a fuzzy one. */
  function ReloadedValue(v: Value): Value
    decreases v
  {
    Value(v.subtype, v.orderingId, StoredMembers(v), ReloadedOwner(v.meta))
  }

  function ReloadedValues(p: Property): (vs: seq<Value>)
    ensures |vs| == |p.values|
    decreases p, 0
  {
    seq(|p.values|, i requires 0 <= i < |p.values| => ReloadedValue(p.values[i]))
  }

  function ReloadedProperty(p: Property): Property
    decreases p, 1
  {
    Property(Fuzzy, p.key, p.subtype, Sorted(ReloadedValues(p)))
  }

  function ReloadedOwner(o: Owner): Owner
    decreases o
  {
    Owner(o.locked, map k | k in o.properties :: ReloadedProperty(o.properties[k]))
  }

  // ---------- what the reader accepts ----------

  /** Whether the reader of an entity takes the type of the property: the relations
      are entity references. */
  predicate TypeTaken(p: Property, ofEntity: bool) {
    ofEntity && (p.key == SUBSET_OF || p.key == SUPERSET_OF) ==> p.subtype == EntityRef
  }

  /** The last property holds a value; without one its offset is the end of the
      data, which a bounds check rejects. */
  ghost predicate EndsFilled(o: Owner) {
    forall k :: k in o.properties && (forall j :: j in o.properties ==> j <= k) ==> o.properties[k].values != []
  }

  ghost predicate Loadable(o: Owner)
    decreases o
  {
    EndsFilled(o) && forall k :: k in o.properties ==> LoadableProperty(o.properties[k])
  }

  ghost predicate LoadableProperty(p: Property)
    decreases p
  {
    Stored(p.subtype) && forall i :: 0 <= i < |p.values| ==> LoadableValue(p.values[i])
  }

  ghost predicate LoadableValue(v: Value)
    decreases v
  {
    Stored(v.subtype) && Loadable(v.meta)
  }

  /** The table is loadable into an entity or a value. */
  ghost predicate LoadableInto(o: Owner, ofEntity: bool) {
    Loadable(o) && forall k :: k in o.properties ==> TypeTaken(o.properties[k], ofEntity)
  }

  // ---------- members of a value ----------

  lemma ValueHeaderReads(size: nat, memberSize: nat, t: SubType, rest: seq<Byte>)
    requires size < WORD_LIMIT && memberSize < WORD_LIMIT
    ensures |ValueHeader(size, memberSize, t)| == 24
    ensures var bs := ValueHeader(size, memberSize, t) + rest;
      Num(bs, 0, 8) == Ok(size) && Num(bs, 8, 8) == Ok(memberSize) && Num(bs, 16, 4) == Ok(Code(t))
  {
    hide Num, Nums, Pow256, FromLE, LE;
    CodesReadBack(t);
    Widths();
    hide Code, OfCode;
    var ws := [size, memberSize, Code(t)];
    WordsReadBack(ws, rest);
    NumsConcat([size, memberSize], [Code(t)], 8);
    assert ws == [size, memberSize] + [Code(t)];
    var bs := Words(ws) + rest;
    assert bs == Words([size, memberSize]) + (Words([Code(t)]) + rest);
    WordsNarrow([Code(t)], 4, rest);
    NumAfter(Words([size, memberSize]), Words([Code(t)]) + rest, 0, 4);
    assert Num(bs, 8 * 0, 8) == Ok(size) && Num(bs, 8 * 1, 8) == Ok(memberSize);
  }

  /** The ordering id, then the members of the type. */
  ghost function BaseBytes(v: Value): seq<Byte> { EncodeMembers(BASE.widths, Members([v.orderingId], [])) }

  ghost function OwnBytes(v: Value): seq<Byte>
    requires SoundValue(v)
  {
    EncodeMembers(ShapeOf(v.subtype).widths, StoredMembers(v))
  }

  lemma BaseReads(v: Value, rest: seq<Byte>, limit: nat)
    requires SoundValue(v) && |BaseBytes(v)| <= limit < WORD_LIMIT
    ensures DecodeMembers(BaseBytes(v) + rest, limit, BASE) == Ok(Read(Members([v.orderingId], []), |BaseBytes(v)|))
    ensures From(BaseBytes(v) + rest, |BaseBytes(v)|) == Ok(rest)
  {
    hide DecodeMembers, EncodeMembers, SoundOwner, From;
    Widths();
    assert Fits(BASE, Members([v.orderingId], [])) by { hide Pow256; }
    MembersReadBack(BASE, Members([v.orderingId], []), rest, limit);
    FromAfter(BaseBytes(v), rest);
  }

  lemma OwnReads(v: Value, rest: seq<Byte>, limit: nat)
    requires SoundValue(v) && |OwnBytes(v)| <= limit < WORD_LIMIT
    ensures DecodeMembers(OwnBytes(v) + rest, limit, ShapeOf(v.subtype)) == Ok(Read(StoredMembers(v), |OwnBytes(v)|))
    ensures From(OwnBytes(v) + rest, |OwnBytes(v)|) == Ok(rest)
  {
    hide DecodeMembers, EncodeMembers, SoundOwner, From, Fits, ShapeOf, StoredMembers;
    MembersReadBack(ShapeOf(v.subtype), StoredMembers(v), rest, limit);
    FromAfter(OwnBytes(v), rest);
  }

  lemma ValueBytes(v: Value, after: seq<Byte>)
    requires SoundValue(v)
    ensures var members := |BaseBytes(v)| + |OwnBytes(v)|; var meta := EncodeOwner(v.meta);
      && |EncodeValue(v)| == 24 + members + |meta|
      && EncodeValue(v) + after
           == ValueHeader(24 + members + |meta|, members, v.subtype) + (BaseBytes(v) + (OwnBytes(v) + (meta + after)))
  {
    hide EncodeOwner, EncodeMembers, SoundOwner, Nums, StoredMembers, ShapeOf;
    var size := 24 + |BaseBytes(v)| + |OwnBytes(v)| + |EncodeOwner(v.meta)|;
    assert |ValueHeader(size, |BaseBytes(v)| + |OwnBytes(v)|, v.subtype)| == 24;
  }

  /** A value reads back if its metadata does. */
  lemma ValueReadsBackGiven(v: Value, after: seq<Byte>, meta: Result<Owner>)
    requires SoundValue(v) && Stored(v.subtype) && |EncodeValue(v)| < WORD_LIMIT
    requires DecodeOwner(EncodeOwner(v.meta) + after, |EncodeOwner(v.meta)|, Owner(false, map[]), false) == meta
    ensures DecodeValue(EncodeValue(v) + after)
         == if meta.Err? then Err(meta.fault)
            else Ok((Value(v.subtype, v.orderingId, StoredMembers(v), meta.value), |EncodeValue(v)|))
  {
    hide DecodeMembers, DecodeOwner, EncodeOwner, EncodeMembers, SoundOwner, Num, From, EncodeValue, Fits, ShapeOf,
      StoredMembers, Words, ValueHeader, BaseBytes, OwnBytes, Ranked;
    ValueBytes(v, after);
    var members, metaSize := |BaseBytes(v)| + |OwnBytes(v)|, |EncodeOwner(v.meta)|;
    var d2 := EncodeOwner(v.meta) + after;
    var d1 := OwnBytes(v) + d2;
    var d0 := BaseBytes(v) + d1;
    var size := 24 + members + metaSize;
    var bs := ValueHeader(size, members, v.subtype) + d0;
    ValueHeaderReads(size, members, v.subtype, d0);
    FromAfter(ValueHeader(size, members, v.subtype), d0);
    CodesReadBack(v.subtype);
    var limit := if v.subtype == Int32 then members else members + metaSize;
    BaseReads(v, d1, limit);
    OwnReads(v, d2, limit);
    assert Minus(size, 24) == members + metaSize;
  }

  // ---------- lists of values ----------

  /** Value i of the list stands at its part and reads back as it should. */
  ghost predicate ValueStands(bs: seq<Byte>, at: nat, p: Property, key: nat, i: nat)
    requires SoundProperty(p, key) && i < |p.values|
  {
    var d := From(bs, at + Start(ValueParts(p, key), i));
    d.Ok? && DecodeValue(d.value) ==
      if LoadableValue(p.values[i]) then Ok((ReloadedValue(p.values[i]), |ValueParts(p, key)[i]|)) else Err(Rejected)
  }

  lemma ValueJoins(bs: seq<Byte>, at: nat, count: nat, t: SubType, i: nat, got: seq<Value>, d: seq<Byte>, v: Value, size: nat)
    requires i < count && From(bs, at) == Ok(d) && DecodeValue(d) == Ok((v, size)) && v.subtype == t
    ensures DecodeValues(bs, at, count, t, i, got) == DecodeValues(bs, at + size, count, t, i + 1, got + [v])
  {
    hide From, DecodeValue;
  }

  lemma ValueStops(bs: seq<Byte>, at: nat, count: nat, t: SubType, i: nat, got: seq<Value>, d: seq<Byte>)
    requires i < count && From(bs, at) == Ok(d) && DecodeValue(d) == Err(Rejected)
    ensures DecodeValues(bs, at, count, t, i, got) == Err(Rejected)
  {
    hide From, DecodeValue;
  }

  lemma ValuesEnd(bs: seq<Byte>, at: nat, count: nat, t: SubType, got: seq<Value>)
    ensures DecodeValues(bs, at, count, t, count, got) == Ok(got)
  {
  }

  ghost predicate LoadableFrom(p: Property, i: nat) {
    forall j :: i <= j < |p.values| ==> LoadableValue(p.values[j])
  }

  lemma {:induction false} ValuesReadBack(bs: seq<Byte>, at: nat, p: Property, key: nat, i: nat)
    requires SoundProperty(p, key) && i <= |p.values|
    requires forall j :: 0 <= j < |p.values| ==> ValueStands(bs, at, p, key, j)
    ensures DecodeValues(bs, at + Start(ValueParts(p, key), i), |p.values|, p.subtype, i, ReloadedValues(p)[..i])
         == if LoadableFrom(p, i) then Ok(ReloadedValues(p)) else Err(Rejected)
    decreases |p.values| - i
  {
    hide DecodeValues, DecodeValue, ValueParts, Start, From, SoundProperty, ReloadedValue, LoadableValue;
    var parts, vs := ValueParts(p, key), ReloadedValues(p);
    var place := at + Start(parts, i);
    if i == |p.values| {
      ValuesEnd(bs, place, i, p.subtype, vs[..i]);
      assert vs[..i] == vs;
      return;
    }
    assert ValueStands(bs, at, p, key, i);
    var d := From(bs, place).value;
    if LoadableValue(p.values[i]) {
      SameTypes(p, key, i);
      ValueJoins(bs, place, |p.values|, p.subtype, i, vs[..i], d, vs[i], |parts[i]|);
      ConcatGrows(parts, i);
      assert vs[..i] + [vs[i]] == vs[..i + 1];
      ValuesReadBack(bs, at, p, key, i + 1);
    } else {
      ValueStops(bs, place, |p.values|, p.subtype, i, vs[..i], d);
    }
  }

  lemma SameTypes(p: Property, key: nat, i: nat)
    requires SoundProperty(p, key) && i < |p.values|
    ensures ReloadedValues(p)[i] == ReloadedValue(p.values[i]) && ReloadedValue(p.values[i]).subtype == p.subtype
  {
    hide SoundValue, StoredMembers, ReloadedOwner;
  }

  // ---------- sorting what was read ----------

  /** Reading back keeps what a sort asks about. */
  lemma RankedAgain(v: Value)
    requires Ranked(v)
    ensures Ranked(ReloadedValue(v))
    ensures AlwaysCertain(v.subtype) || CONFIDENCE in ReloadedValue(v).meta.properties
  {
    hide Sorted, StoredMembers;
    if !AlwaysCertain(v.subtype) {
      var p := v.meta.properties[CONFIDENCE];
      SortedSize(ReloadedValues(p));
      assert ReloadedValue(v).meta == ReloadedOwner(v.meta);
      assert ReloadedOwner(v.meta).properties[CONFIDENCE] == ReloadedProperty(p);
    }
  }

  lemma SortedSize(vs: seq<Value>)
    ensures |Sorted(vs)| == |vs|
  {
    SortedIsValid(vs);
  }

  lemma ReloadedRanked(p: Property, key: nat)
    requires SoundProperty(p, key)
    ensures forall v :: v in ReloadedValues(p) ==>
      v.subtype == p.subtype && Ranked(v) && (AlwaysCertain(v.subtype) || CONFIDENCE in v.meta.properties)
  {
    hide SoundValue, Ranked, ReloadedValue;
    forall i | 0 <= i < |p.values|
      ensures var v := ReloadedValues(p)[i];
        v.subtype == p.subtype && Ranked(v) && (AlwaysCertain(v.subtype) || CONFIDENCE in v.meta.properties)
    {
      SameTypes(p, key, i);
      SoundIsRanked(p.values[i]);
      RankedAgain(p.values[i]);
    }
  }

  lemma SoundIsRanked(v: Value)
    requires SoundValue(v)
    ensures Ranked(v)
  {
    hide SoundOwner;
  }

  lemma PopulatedSorts(key: nat, t: SubType, vs: seq<Value>)
    requires forall v :: v in vs ==>
      v.subtype == t && Ranked(v) && (AlwaysCertain(v.subtype) || CONFIDENCE in v.meta.properties)
    ensures Populated(key, t, vs) == Ok(Property(Fuzzy, key, t, Sorted(vs)))
  {
    hide Sorted, Ranked;
    assert [] + vs == vs;
  }

  lemma PopulatedReloads(p: Property, key: nat)
    requires SoundProperty(p, key)
    ensures Populated(key, p.subtype, ReloadedValues(p)) == Ok(ReloadedProperty(p))
  {
    hide Sorted, Ranked, ReloadedValues, Populated, SoundValue;
    ReloadedRanked(p, key);
    PopulatedSorts(key, p.subtype, ReloadedValues(p));
  }

  // ---------- property tables ----------

  ghost function KeyAt(o: Owner, i: nat): (key: nat)
    requires i < |o.properties|
    ensures key in o.properties
  {
    assert KeysOf(o)[i] in KeysOf(o);
    KeysOf(o)[i]
  }

  ghost function PropertyAt(o: Owner, i: nat): Property
    requires i < |o.properties|
  {
    o.properties[KeyAt(o, i)]
  }

  /** What reading header i and the values it points at has to give. */
  ghost predicate PropertyStands(bs: seq<Byte>, length: nat, start: nat, o: Owner, i: nat)
    requires SoundOwner(o) && i < |o.properties|
  {
    DecodePropertyAt(bs, length, start, i)
      == if Start(Bodies(o), i) < |Concat(Bodies(o))| && LoadableProperty(PropertyAt(o, i)) then Ok(ReloadedProperty(PropertyAt(o, i)))
         else Err(Rejected)
  }

  ghost predicate AllStand(bs: seq<Byte>, length: nat, start: nat, o: Owner)
    requires SoundOwner(o)
  {
    forall i :: 0 <= i < |o.properties| ==> PropertyStands(bs, length, start, o, i)
  }

  lemma PropertyHeaderReads(bs: seq<Byte>, h: nat, offset: nat, size: nat, key: nat, t: SubType, count: nat, more: seq<Byte>)
    requires From(bs, h) == Ok(PropertyHeader(offset, size, key, t, count) + more)
    requires offset < WORD_LIMIT && size < WORD_LIMIT && key < 0x1_0000_0000 && count < WORD_LIMIT
    ensures Num(bs, h, 8) == Ok(offset) && Num(bs, h + 8, 8) == Ok(size) && Num(bs, h + 16, 4) == Ok(key)
    ensures Num(bs, h + 20, 4) == Ok(Code(t)) && Num(bs, h + 24, 8) == Ok(count)
  {
    hide Num, From, LE, Nums, Pow256, OfCode, Code;
    Widths();
    CodesReadBack(t);
    var header := PropertyHeader(offset, size, key, t, count) + more;
    HeaderFieldsRead(offset, size, key, Code(t), count, more);
    assert header == Words([offset, size]) + ((LE(key, 4) + LE(Code(t), 4)) + Words([count])) + more;
    NumFrom(bs, h, header, 0, 8);
    NumFrom(bs, h, header, 8, 8);
    NumFrom(bs, h, header, 16, 4);
    NumFrom(bs, h, header, 20, 4);
    NumFrom(bs, h, header, 24, 8);
  }

  lemma HeaderFieldsRead(offset: nat, size: nat, key: nat, code: nat, count: nat, more: seq<Byte>)
    requires offset < WORD_LIMIT && size < WORD_LIMIT && key < 0x1_0000_0000 && count < WORD_LIMIT && code < 0x1_0000_0000
    ensures var header := Words([offset, size]) + ((LE(key, 4) + LE(code, 4)) + Words([count])) + more;
      && Num(header, 0, 8) == Ok(offset) && Num(header, 8, 8) == Ok(size) && Num(header, 16, 4) == Ok(key)
      && Num(header, 20, 4) == Ok(code) && Num(header, 24, 8) == Ok(count)
  {
    hide Num, LE, Nums, Pow256;
    Widths();
    var last := Words([count]) + more;
    var middle := LE(key, 4) + (LE(code, 4) + last);
    var header := Words([offset, size]) + ((LE(key, 4) + LE(code, 4)) + Words([count])) + more;
    assert header == Words([offset, size]) + middle;
    WordsReadBack([offset, size], middle);
    assert Num(header, 8 * 0, 8) == Ok(offset) && Num(header, 8 * 1, 8) == Ok(size);
    WordsReadBack([count], more);
    assert Num(last, 8 * 0, 8) == Ok(count);
    NumHere(key, 4, LE(code, 4) + last);
    NumHere(code, 4, last);
    NumAfter(Words([offset, size]), middle, 0, 4);
    NumAfter(Words([offset, size]), middle, 4, 4);
    NumAfter(Words([offset, size]), middle, 8, 8);
    NumAfter(LE(key, 4), LE(code, 4) + last, 0, 4);
    NumAfter(LE(key, 4), LE(code, 4) + last, 4, 8);
    NumAfter(LE(code, 4), last, 0, 8);
  }

  /** Where the pieces of a written table stand. */
  lemma PropertyPlaces(o: Owner, after: seq<Byte>, i: nat) returns (more: seq<Byte>, more': seq<Byte>)
    requires SoundOwner(o) && i < |o.properties|
    ensures var bs := EncodeOwner(o) + after; var bodies := Bodies(o);
      && From(bs, 56 + 32 * i) == Ok(HeaderOf(o, bodies, i) + more)
      && From(bs, 57 + 32 * |o.properties| + Start(bodies, i)) == Ok(bodies[i] + more')
      && Start(bodies, i) + |bodies[i]| <= |Concat(bodies)|
      && |EncodeOwner(o)| == 57 + 32 * |o.properties| + |Concat(bodies)|
  {
    hide From, Bodies, HeaderOf, OwnerHeader, Laid, Start, Concat, SoundOwner;
    var bodies := Bodies(o);
    var headers, head := Headers(o, bodies), OwnerHeader(|o.properties|, |Concat(bodies)|);
    LaidSize(headers, 32, LockByte(o.locked), bodies);
    more := HeaderStands(head, headers, 32, LockByte(o.locked), bodies, after, i);
    more' := BodyStands(head, headers, 32, LockByte(o.locked), bodies, after, i);
  }

  /** Following a header to the values it points at. */
  lemma HeaderFollowed(bs: seq<Byte>, length: nat, start: nat, i: nat, p: Property, key: nat, offset: nat, size: nat, more: seq<Byte>)
    requires SoundProperty(p, key) && |p.values| < WORD_LIMIT
    requires From(bs, 56 + 32 * i) == Ok(PropertyHeader(offset, size, p.key, p.subtype, |p.values|) + more)
    requires start + offset + size <= length < WORD_LIMIT
    requires Stored(p.subtype) ==>
      DecodeValues(bs, start + offset, |p.values|, p.subtype, 0, []) == if LoadableProperty(p) then Ok(ReloadedValues(p)) else Err(Rejected)
    ensures DecodePropertyAt(bs, length, start, i)
          == if start + offset < length && LoadableProperty(p) then Ok(ReloadedProperty(p)) else Err(Rejected)
  {
    hide From, Num, PropertyHeader, SoundValue, DecodeValues, DecodeValue, ReloadedValues, ReloadedProperty, LoadableProperty,
      Populated, OfCode, Code;
    CodesReadBack(p.subtype);
    LoadableIsStored(p);
    PropertyHeaderReads(bs, 56 + 32 * i, offset, size, p.key, p.subtype, |p.values|, more);
    PopulatedReloads(p, key);
  }

  lemma LoadableIsStored(p: Property)
    ensures LoadableProperty(p) ==> Stored(p.subtype)
  {
    hide LoadableValue;
  }

  lemma HeaderIs(o: Owner, i: nat)
    requires SoundOwner(o) && i < |o.properties|
    ensures SoundProperty(PropertyAt(o, i), KeyAt(o, i))
    ensures var p := PropertyAt(o, i);
      HeaderOf(o, Bodies(o), i) == PropertyHeader(Start(Bodies(o), i), |Bodies(o)[i]|, p.key, p.subtype, |p.values|)
    ensures Bodies(o)[i] == Concat(ValueParts(PropertyAt(o, i), KeyAt(o, i)))
  {
    hide SoundProperty, PropertyHeader, Start, Concat, ValueParts;
  }

  // ---------- filling an owner ----------

  /** Where a property read back ends up: with an existing one of its key, or as it is. */
  function Landed(shell: Owner, p: Property): Outcome<Property> {
    if p.key in shell.properties then AppendEach(shell.properties[p.key], p.values) else Done(p)
  }

  /** The owner being filled takes every property. */
  ghost predicate Accepts(shell: Owner, o: Owner) {
    forall k :: k in o.properties ==>
      Landed(shell, ReloadedProperty(o.properties[k])).Done?
  }

  ghost function Elements(ks: seq<nat>): set<nat> { set k | k in ks }

  /** The owner when the properties of the given keys have been read. */
  ghost function Partly(shell: Owner, o: Owner, ks: set<nat>): Owner
    requires Accepts(shell, o) && ks <= o.properties.Keys
  {
    Owner(false, map k | k in shell.properties.Keys + ks ::
      if k in ks then Landed(shell, ReloadedProperty(o.properties[k])).value else shell.properties[k])
  }

  ghost function Filled(shell: Owner, o: Owner, i: nat): Owner
    requires Accepts(shell, o) && i <= |o.properties|
  {
    assert forall k :: k in KeysOf(o)[..i] ==> k in KeysOf(o);
    Partly(shell, o, Elements(KeysOf(o)[..i]))
  }

  lemma PartlyGrows(shell: Owner, o: Owner, ofEntity: bool, ks: set<nat>, key: nat)
    requires Accepts(shell, o) && ks <= o.properties.Keys && key in o.properties && key !in ks
    requires SoundProperty(o.properties[key], key) && TypeTaken(o.properties[key], ofEntity)
    ensures Refill(Partly(shell, o, ks), ReloadedProperty(o.properties[key]), ofEntity)
         == Ok(Partly(shell, o, ks + {key}))
  {
    hide Sorted, ReloadedValues, AppendEach, SoundProperty;
    var q := ReloadedProperty(o.properties[key]);
    KeyOfSound(o.properties[key], key);
    var before, now := Partly(shell, o, ks), Partly(shell, o, ks + {key});
    assert now.properties == before.properties[key := Landed(shell, q).value];
  }

  lemma FilledGrows(shell: Owner, o: Owner, ofEntity: bool, i: nat)
    requires SoundOwner(o) && Accepts(shell, o) && i < |o.properties| && TypeTaken(PropertyAt(o, i), ofEntity)
    ensures Refill(Filled(shell, o, i), ReloadedProperty(PropertyAt(o, i)), ofEntity)
         == Ok(Filled(shell, o, i + 1))
  {
    hide Accepts, Partly, Refill, ReloadedProperty, SoundProperty;
    KeysGrow(o, i);
    PartlyGrows(shell, o, ofEntity, Elements(KeysOf(o)[..i]), KeyAt(o, i));
  }

  lemma KeysGrow(o: Owner, i: nat)
    requires i < |o.properties|
    ensures Elements(KeysOf(o)[..i]) <= o.properties.Keys && KeyAt(o, i) !in Elements(KeysOf(o)[..i])
    ensures Elements(KeysOf(o)[..i + 1]) == Elements(KeysOf(o)[..i]) + {KeyAt(o, i)}
  {
    hide KeysOf;
    assert KeysOf(o)[..i + 1] == KeysOf(o)[..i] + [KeyAt(o, i)];
    assert forall k :: k in KeysOf(o)[..i] ==> k in KeysOf(o);
  }

  lemma KeyOfSound(p: Property, key: nat)
    requires SoundProperty(p, key)
    ensures p.key == key
  {
    hide SoundValue;
  }

  lemma FilledEnds(shell: Owner, o: Owner)
    requires Accepts(shell, o)
    ensures Filled(shell, o, 0) == shell.(locked := false)
    ensures Filled(shell, o, |o.properties|) == Partly(shell, o, o.properties.Keys)
  {
    hide Accepts, Partly, Distinct;
    PartlyNone(shell, o);
    assert KeysOf(o)[..|o.properties|] == KeysOf(o) && KeysOf(o)[..0] == [];
    assert Elements(KeysOf(o)) == o.properties.Keys && Elements([]) == {};
  }

  lemma PartlyNone(shell: Owner, o: Owner)
    requires Accepts(shell, o)
    ensures Partly(shell, o, {}) == shell.(locked := false)
  {
    hide Accepts, Landed;
    assert Partly(shell, o, {}).properties == shell.properties;
  }

  /** The owner after all properties have been read. */
  ghost function Refilled(shell: Owner, o: Owner): Owner
    requires Accepts(shell, o)
  {
    Partly(shell, o, o.properties.Keys).(locked := o.locked)
  }

  /** An empty owner takes everything as it is read. */
  lemma EmptyAccepts(o: Owner)
    requires SoundOwner(o)
    ensures Accepts(Owner(false, map[]), o) && Refilled(Owner(false, map[]), o) == ReloadedOwner(o)
  {
    hide Sorted, ReloadedValues, SoundProperty;
  }

  /** Property i passes the bounds check, all its values load and the owner takes
      its type. */
  ghost predicate Good(o: Owner, ofEntity: bool, i: nat)
    requires SoundOwner(o) && i < |o.properties|
  {
    Start(Bodies(o), i) < |Concat(Bodies(o))| && LoadableProperty(PropertyAt(o, i)) && TypeTaken(PropertyAt(o, i), ofEntity)
  }

  ghost predicate AllGood(o: Owner, ofEntity: bool, i: nat)
    requires SoundOwner(o)
  {
    forall j :: i <= j < |o.properties| ==> Good(o, ofEntity, j)
  }

  lemma PropertyJoins(bs: seq<Byte>, length: nat, start: nat, count: nat, i: nat, o: Owner, ofEntity: bool, p: Property, o': Owner)
    requires i < count && DecodePropertyAt(bs, length, start, i) == Ok(p) && Refill(o, p, ofEntity) == Ok(o')
    ensures DecodeProperties(bs, length, start, count, i, o, ofEntity)
         == DecodeProperties(bs, length, start, count, i + 1, o', ofEntity)
  {
    hide DecodePropertyAt, Refill;
  }

  lemma PropertyStops(bs: seq<Byte>, length: nat, start: nat, count: nat, i: nat, o: Owner, ofEntity: bool)
    requires i < count && DecodePropertyAt(bs, length, start, i) == Err(Rejected)
    ensures DecodeProperties(bs, length, start, count, i, o, ofEntity) == Err(Rejected)
  {
    hide DecodePropertyAt, Refill;
  }

  /** A property that reads well may still be of a type the owner refuses. */
  lemma PropertyRefused(bs: seq<Byte>, length: nat, start: nat, count: nat, i: nat, o: Owner, ofEntity: bool, p: Property)
    requires i < count && DecodePropertyAt(bs, length, start, i) == Ok(p) && !TypeTaken(p, ofEntity)
    ensures DecodeProperties(bs, length, start, count, i, o, ofEntity) == Err(Rejected)
  {
    hide DecodePropertyAt;
  }

  lemma PropertiesEnd(bs: seq<Byte>, length: nat, start: nat, count: nat, o: Owner, ofEntity: bool)
    ensures DecodeProperties(bs, length, start, count, count, o, ofEntity) == Ok(o)
  {
  }

  lemma TypeStays(p: Property, ofEntity: bool)
    ensures TypeTaken(ReloadedProperty(p), ofEntity) <==> TypeTaken(p, ofEntity)
  {
    hide Sorted, ReloadedValues;
  }

  lemma {:induction false} PropertiesReadBack(bs: seq<Byte>, length: nat, start: nat, o: Owner, shell: Owner, ofEntity: bool, i: nat)
    requires SoundOwner(o) && Accepts(shell, o) && i <= |o.properties|
    requires AllStand(bs, length, start, o)
    ensures DecodeProperties(bs, length, start, |o.properties|, i, Filled(shell, o, i), ofEntity)
         == if AllGood(o, ofEntity, i) then Ok(Partly(shell, o, o.properties.Keys)) else Err(Rejected)
    decreases |o.properties| - i
  {
    hide DecodeProperties, DecodePropertyAt, Refill, Filled, Partly, Bodies, Start, Concat, ReloadedProperty, LoadableProperty,
      Accepts, SoundOwner, PropertyAt, TypeTaken;
    var now := Filled(shell, o, i);
    if i == |o.properties| {
      PropertiesEnd(bs, length, start, i, now, ofEntity);
      FilledEnds(shell, o);
      return;
    }
    assert PropertyStands(bs, length, start, o, i);
    if Good(o, ofEntity, i) {
      FilledGrows(shell, o, ofEntity, i);
      PropertyJoins(bs, length, start, |o.properties|, i, now, ofEntity, ReloadedProperty(PropertyAt(o, i)), Filled(shell, o, i + 1));
      PropertiesReadBack(bs, length, start, o, shell, ofEntity, i + 1);
    } else if DecodePropertyAt(bs, length, start, i).Ok? {
      TypeStays(PropertyAt(o, i), ofEntity);
      PropertyRefused(bs, length, start, |o.properties|, i, now, ofEntity, ReloadedProperty(PropertyAt(o, i)));
    } else {
      PropertyStops(bs, length, start, |o.properties|, i, now, ofEntity);
    }
  }

  // ---------- the table as a whole ----------

  lemma BodyEmptyIff(o: Owner, i: nat)
    requires SoundOwner(o) && i < |o.properties|
    ensures Bodies(o)[i] == [] <==> PropertyAt(o, i).values == []
  {
    hide Bodies, SoundProperty, EncodeValue, Words;
    HeaderIs(o, i);
    var p, key := PropertyAt(o, i), KeyAt(o, i);
    var parts := ValueParts(p, key);
    if p.values != [] {
      FirstPartIsLong(p, key);
      assert Concat(parts) == parts[0] + Concat(parts[1..]);
    }
  }

  lemma FirstPartIsLong(p: Property, key: nat)
    requires SoundProperty(p, key) && p.values != []
    ensures |ValueParts(p, key)[0]| >= 24
  {
    hide MemberBytes, EncodeOwner, Ranked, Fits;
    assert |EncodeValue(p.values[0])| >= 24;
  }

  lemma LastKey(o: Owner, i: nat)
    requires i < |o.properties|
    ensures (forall j :: j in o.properties ==> j <= KeyAt(o, i)) <==> i == |o.properties| - 1
  {
    var n := |o.properties|;
    if i == n - 1 {
      forall j | j in o.properties ensures j <= KeyAt(o, i) { assert j in KeysOf(o); }
    } else {
      assert KeyAt(o, n - 1) in o.properties;
    }
  }

  /** Everything passes the bounds checks exactly when the last property holds a
      value. */
  lemma AllGoodIffLoadable(o: Owner, ofEntity: bool)
    requires SoundOwner(o)
    ensures AllGood(o, ofEntity, 0) <==> LoadableInto(o, ofEntity)
  {
    hide Bodies, SoundProperty, Concat, Start, LoadableProperty, EndsFilled, PropertyAt, TypeTaken;
    var n, bodies := |o.properties|, Bodies(o);
    EndsFilledIff(o);
    LoadableIsAll(o, ofEntity);
    if n > 0 {
      StartsBefore(bodies, n - 1);
      BodyEmptyIff(o, n - 1);
      if AllGood(o, ofEntity, 0) {
        assert Good(o, ofEntity, n - 1);
        forall i | 0 <= i < n ensures LoadableProperty(PropertyAt(o, i)) && TypeTaken(PropertyAt(o, i), ofEntity) { assert Good(o, ofEntity, i); }
      }
      if LoadableInto(o, ofEntity) {
        forall i | 0 <= i < n ensures Good(o, ofEntity, i) { StartsBefore(bodies, i); }
      }
    }
  }

  lemma EndsFilledIff(o: Owner)
    ensures EndsFilled(o) <==> (o.properties == map[] || PropertyAt(o, |o.properties| - 1).values != [])
  {
    var n := |o.properties|;
    if n > 0 {
      LastKey(o, n - 1);
      forall k | k in o.properties && (forall j :: j in o.properties ==> j <= k) ensures k == KeyAt(o, n - 1) { }
    }
  }

  lemma LoadableIsAll(o: Owner, ofEntity: bool)
    ensures (forall k :: k in o.properties ==> LoadableProperty(o.properties[k]) && TypeTaken(o.properties[k], ofEntity))
       <==> (forall i :: 0 <= i < |o.properties| ==> LoadableProperty(PropertyAt(o, i)) && TypeTaken(PropertyAt(o, i), ofEntity))
  {
    hide LoadableProperty, TypeTaken;
    if forall i :: 0 <= i < |o.properties| ==> LoadableProperty(PropertyAt(o, i)) && TypeTaken(PropertyAt(o, i), ofEntity) {
      forall k | k in o.properties ensures LoadableProperty(o.properties[k]) && TypeTaken(o.properties[k], ofEntity) {
        var i :| 0 <= i < |o.properties| && KeysOf(o)[i] == k;
        assert LoadableProperty(PropertyAt(o, i)) && TypeTaken(PropertyAt(o, i), ofEntity);
      }
    }
  }

  /** A part starts before the end unless it and everything behind it is empty. */
  lemma {:induction false} StartsBefore(bodies: seq<seq<Byte>>, i: nat)
    requires i < |bodies|
    ensures Start(bodies, i) < |Concat(bodies)| <== bodies[|bodies| - 1] != []
    ensures i == |bodies| - 1 ==> (Start(bodies, i) < |Concat(bodies)| <==> bodies[i] != [])
  {
    var n := |bodies| - 1;
    hide Concat;
    ConcatGrows(bodies, n);
    assert bodies[..n + 1] == bodies;
    ConcatSplits(bodies[..n], i);
    assert bodies[..n][..i] == bodies[..i];
  }

  /** The fields of a written owner header. */
  lemma OwnerHeaderReads(count: nat, length: nat, rest: seq<Byte>)
    requires 57 + 32 * count + length < WORD_LIMIT
    ensures var bs := OwnerHeader(count, length) + rest;
      && Num(bs, 0, 2) == Ok(1) && Num(bs, 8, 8) == Ok(57 + 32 * count + length) && Num(bs, 16, 8) == Ok(count)
      && Num(bs, 24, 8) == Ok(56 + 32 * count) && Num(bs, 32, 8) == Ok(1)
      && Num(bs, 40, 8) == Ok(57 + 32 * count) && Num(bs, 48, 8) == Ok(length)
  {
    hide Num, Nums, Pow256;
    Widths();
    var ws := [1, 57 + 32 * count + length, count, 56 + 32 * count, 1, 57 + 32 * count, length];
    WordsReadBack(ws, rest);
    WordsNarrow(ws, 2, rest);
    var bs := Words(ws) + rest;
    assert Num(bs, 8 * 1, 8) == Ok(ws[1]) && Num(bs, 8 * 2, 8) == Ok(ws[2]) && Num(bs, 8 * 3, 8) == Ok(ws[3]);
    assert Num(bs, 8 * 4, 8) == Ok(ws[4]) && Num(bs, 8 * 5, 8) == Ok(ws[5]) && Num(bs, 8 * 6, 8) == Ok(ws[6]);
  }

  /** The lock stands between the property headers and the values. */
  lemma LockReads(o: Owner, after: seq<Byte>)
    requires SoundOwner(o)
    ensures var d := From(EncodeOwner(o) + after, 56 + 32 * |o.properties|);
      d.Ok? && DecodeMembers(d.value, 1, Shape([1], 0)) == Ok(Read(Members([if o.locked then 1 else 0], []), 1))
    ensures |EncodeOwner(o)| == 57 + 32 * |o.properties| + |Concat(Bodies(o))|
  {
    hide From, Bodies, OwnerHeader, Concat, SoundProperty, Headers, DecodeMembers, Num, LE;
    var bodies := Bodies(o);
    var head, headers, lock := OwnerHeader(|o.properties|, |Concat(bodies)|), Headers(o, bodies), LockByte(o.locked);
    LaidSize(headers, 32, lock, bodies);
    UniformSize(headers, 32);
    var bs, rest := EncodeOwner(o) + after, Concat(bodies) + after;
    assert bs == (head + Concat(headers)) + (lock + rest);
    FromAfter(head + Concat(headers), lock + rest);
    LockDecodes(o.locked, rest);
  }

  lemma LockDecodes(locked: bool, rest: seq<Byte>)
    ensures DecodeMembers(LockByte(locked) + rest, 1, Shape([1], 0)) == Ok(Read(Members([if locked then 1 else 0], []), 1))
  {
    var m := Members([if locked then 1 else 0], []);
    assert LE(m.numbers[0], 1) == LockByte(locked);
    assert EncodeMembers([1], m) == LockByte(locked) by {
      assert [1][..0] == [] && m.numbers[..0] == [] && Primitives([], []) == [];
      assert Primitives([1], m.numbers) == Primitives([], []) + LE(m.numbers[0], 1);
    }
    Widths();
    assert Fits(Shape([1], 0), m);
    MembersReadBack(Shape([1], 0), m, rest, 1);
  }

  /** A table reads back if every one of its properties does. */
  lemma OwnerReadsBackGiven(o: Owner, after: seq<Byte>, shell: Owner, ofEntity: bool)
    requires SoundOwner(o) && Accepts(shell, o) && |EncodeOwner(o)| < WORD_LIMIT
    requires AllStand(EncodeOwner(o) + after, |EncodeOwner(o)|, 57 + 32 * |o.properties|, o)
    ensures DecodeOwner(EncodeOwner(o) + after, |EncodeOwner(o)|, shell, ofEntity)
         == if LoadableInto(o, ofEntity) then Ok(Refilled(shell, o)) else Err(Rejected)
  {
    hide From, Num, Bodies, Concat, SoundOwner, DecodeMembers, DecodeProperties, EncodeOwner, OwnerHeader, Laid, Filled, Partly,
      Accepts, AllGood, LoadableInto, PropertyStands;
    var bs, length, count := EncodeOwner(o) + after, |EncodeOwner(o)|, |o.properties|;
    LockReads(o, after);
    TableHeaderReads(o, after);
    FilledEnds(shell, o);
    AllGoodIffLoadable(o, ofEntity);
    if count > 0 && Concat(Bodies(o)) == [] { NoBodiesNotLoadable(o, ofEntity); }
    PropertiesReadBack(bs, length, 57 + 32 * count, o, shell, ofEntity, 0);
  }

  lemma NoBodiesNotLoadable(o: Owner, ofEntity: bool)
    requires SoundOwner(o) && |o.properties| > 0 && Concat(Bodies(o)) == []
    ensures !AllGood(o, ofEntity, 0)
  {
    hide Bodies, SoundProperty, Concat;
    assert !Good(o, ofEntity, 0);
  }

  lemma TableHeaderReads(o: Owner, after: seq<Byte>)
    requires SoundOwner(o) && |EncodeOwner(o)| < WORD_LIMIT && |EncodeOwner(o)| == 57 + 32 * |o.properties| + |Concat(Bodies(o))|
    ensures var bs, count, length := EncodeOwner(o) + after, |o.properties|, |Concat(Bodies(o))|;
      && Num(bs, 0, 2) == Ok(1) && Num(bs, 8, 8) == Ok(57 + 32 * count + length) && Num(bs, 16, 8) == Ok(count)
      && Num(bs, 24, 8) == Ok(56 + 32 * count) && Num(bs, 32, 8) == Ok(1)
      && Num(bs, 40, 8) == Ok(57 + 32 * count) && Num(bs, 48, 8) == Ok(length)
  {
    hide Num, Bodies, Concat, SoundProperty, OwnerHeader, Laid, Headers;
    var bodies := Bodies(o);
    var rest := Laid(Headers(o, bodies), LockByte(o.locked), bodies) + after;
    OwnerHeaderReads(|o.properties|, |Concat(bodies)|, rest);
    assert EncodeOwner(o) + after == OwnerHeader(|o.properties|, |Concat(bodies)|) + rest;
  }

  // ---------- the round trip ----------

  lemma PartsStand(bs: seq<Byte>, at: nat, parts: seq<seq<Byte>>, more: seq<Byte>, i: nat)
    requires i < |parts| && From(bs, at) == Ok(Concat(parts) + more)
    ensures From(bs, at + Start(parts, i)) == Ok(parts[i] + (Concat(parts[i + 1..]) + more))
    ensures |parts[i]| <= |Concat(parts)|
  {
    hide Concat;
    PartAt([], parts, more, i);
    assert [] + Concat(parts) + more == Concat(parts) + more;
    FromFrom(bs, at, Concat(parts) + more, Start(parts, i));
  }

  lemma {:induction false} ManyValues(p: Property, key: nat)
    requires SoundProperty(p, key)
    ensures |p.values| <= |Concat(ValueParts(p, key))|
  {
    hide SoundValue, MemberBytes, EncodeOwner;
    var parts := ValueParts(p, key);
    forall i | 0 <= i < |parts| ensures parts[i] != [] { assert |EncodeValue(p.values[i])| >= 24; }
    PartsCount(parts);
  }

  lemma {:induction false} PartsCount(parts: seq<seq<Byte>>)
    requires forall i :: 0 <= i < |parts| ==> parts[i] != []
    ensures |parts| <= |Concat(parts)|
  {
    if parts != [] { PartsCount(parts[1..]); }
  }

  /** For every sound table: what was written is read back as the reloaded table
      if the table can be loaded into its owner, and is rejected if not, whatever
      follows it. */
  lemma {:induction false} OwnerReadsBack(o: Owner, after: seq<Byte>, shell: Owner, ofEntity: bool)
    requires SoundOwner(o) && Accepts(shell, o) && |EncodeOwner(o)| < WORD_LIMIT
    ensures DecodeOwner(EncodeOwner(o) + after, |EncodeOwner(o)|, shell, ofEntity)
         == if LoadableInto(o, ofEntity) then Ok(Refilled(shell, o)) else Err(Rejected)
    decreases o, 1
  {
    hide DecodeOwner, EncodeOwner, PropertyStands, LoadableInto, Refilled, Accepts, SoundOwner;
    var bs, length, start := EncodeOwner(o) + after, |EncodeOwner(o)|, 57 + 32 * |o.properties|;
    forall i | 0 <= i < |o.properties| ensures PropertyStands(bs, length, start, o, i) {
      PropertyReadsBack(o, after, i);
    }
    OwnerReadsBackGiven(o, after, shell, ofEntity);
  }

  lemma {:induction false} PropertyReadsBack(o: Owner, after: seq<Byte>, i: nat)
    requires SoundOwner(o) && |EncodeOwner(o)| < WORD_LIMIT && i < |o.properties|
    ensures PropertyStands(EncodeOwner(o) + after, |EncodeOwner(o)|, 57 + 32 * |o.properties|, o, i)
    decreases o, 0
  {
    hide DecodeOwner, EncodeOwner, EncodeValue, From, Concat, Bodies, HeaderOf, DecodePropertyAt, DecodeValues, ReloadedProperty,
      ReloadedValue, LoadableValue, LoadableProperty, SoundProperty, PropertyHeader;
    var p, key := PropertyAt(o, i), KeyAt(o, i);
    HeaderIs(o, i);
    ManyValues(p, key);
    var more, more' := PropertyPlaces(o, after, i);
    var bs, at := EncodeOwner(o) + after, 57 + 32 * |o.properties| + Start(Bodies(o), i);
    if Stored(p.subtype) { ListStands(bs, at, p, key, more'); }
    HeaderFollowed(bs, |EncodeOwner(o)|, 57 + 32 * |o.properties|, i, p, key, Start(Bodies(o), i), |Bodies(o)[i]|, more);
  }

  lemma {:induction false} ListStands(bs: seq<Byte>, at: nat, p: Property, key: nat, more: seq<Byte>)
    requires SoundProperty(p, key) && Stored(p.subtype) && From(bs, at) == Ok(Concat(ValueParts(p, key)) + more)
    requires |Concat(ValueParts(p, key))| < WORD_LIMIT
    ensures DecodeValues(bs, at, |p.values|, p.subtype, 0, [])
         == if LoadableProperty(p) then Ok(ReloadedValues(p)) else Err(Rejected)
    decreases p
  {
    hide From, Concat, Start, EncodeValue, DecodeValue, DecodeValues, ReloadedValue, LoadableValue, LoadableProperty, SoundProperty, ValueParts;
    forall j | 0 <= j < |p.values| ensures ValueStands(bs, at, p, key, j) {
      PartsStand(bs, at, ValueParts(p, key), more, j);
      PartSound(p, key, j);
      ValueReadsBack(p.values[j], Concat(ValueParts(p, key)[j + 1..]) + more);
    }
    ListReadsBack(bs, at, p, key);
  }

  lemma PartSound(p: Property, key: nat, j: nat)
    requires SoundProperty(p, key) && j < |p.values|
    ensures SoundValue(p.values[j]) && p.values[j].subtype == p.subtype && ValueParts(p, key)[j] == EncodeValue(p.values[j])
  {
    hide SoundValue, EncodeValue;
  }

  lemma ListReadsBack(bs: seq<Byte>, at: nat, p: Property, key: nat)
    requires SoundProperty(p, key) && Stored(p.subtype)
    requires forall j :: 0 <= j < |p.values| ==> ValueStands(bs, at, p, key, j)
    ensures DecodeValues(bs, at, |p.values|, p.subtype, 0, [])
         == if LoadableProperty(p) then Ok(ReloadedValues(p)) else Err(Rejected)
  {
    hide DecodeValues, ValueStands, SoundProperty, LoadableValue, ReloadedValue;
    ValuesReadBack(bs, at, p, key, 0);
    assert ValueParts(p, key)[..0] == [] && ReloadedValues(p)[..0] == [];
    assert Start(ValueParts(p, key), 0) == 0;
    assert LoadableFrom(p, 0) <==> LoadableProperty(p);
  }

  /** The reader asserts that it knows the type of a value. */
  lemma UnknownIsFatal(v: Value, after: seq<Byte>)
    requires SoundValue(v) && !Stored(v.subtype) && |EncodeValue(v)| < WORD_LIMIT
    ensures DecodeValue(EncodeValue(v) + after) == Err(Fatal)
  {
    hide EncodeOwner, EncodeMembers, SoundOwner, Num, From, EncodeValue, Fits, StoredMembers, Words, ValueHeader, BaseBytes, OwnBytes;
    ValueBytes(v, after);
    var members, meta := |BaseBytes(v)| + |OwnBytes(v)|, EncodeOwner(v.meta);
    ValueHeaderReads(24 + members + |meta|, members, v.subtype, BaseBytes(v) + (OwnBytes(v) + (meta + after)));
    CodesReadBack(v.subtype);
  }

  lemma {:induction false} ValueReadsBack(v: Value, after: seq<Byte>)
    requires SoundValue(v) && |EncodeValue(v)| < WORD_LIMIT
    ensures DecodeValue(EncodeValue(v) + after)
         == if !Stored(v.subtype) then Err(Fatal)
            else if LoadableValue(v) then Ok((ReloadedValue(v), |EncodeValue(v)|)) else Err(Rejected)
    decreases v
  {
    if !Stored(v.subtype) {
      UnknownIsFatal(v, after);
      return;
    }
    hide DecodeValue, EncodeValue, EncodeOwner, DecodeOwner, Loadable, ReloadedOwner, Refilled, Accepts, SoundOwner, StoredMembers, Ranked, Fits;
    ValueBytes(v, after);
    EmptyAccepts(v.meta);
    OwnerReadsBack(v.meta, after, Owner(false, map[]), false);
    assert LoadableInto(v.meta, false) <==> Loadable(v.meta) by { hide Loadable; }
    ValueReadsBackGiven(v, after, if Loadable(v.meta) then Ok(ReloadedOwner(v.meta)) else Err(Rejected));
  }
}
