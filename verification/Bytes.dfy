/** Little-endian numbers, byte sections and the growing buffer that records are
    serialised into. */
module Bytes {

  type Byte = x: int | 0 <= x < 256

  type Text = seq<Byte>

  /** Rejected: a validation check throws an exception that callers handle.
      Fatal: an assertion stops the process, memory is read that the code does
      not check for, or a value is read that its type does not have. */
  datatype Fault = Rejected | Fatal

  datatype Result<+T> = Ok(value: T) | Err(fault: Fault) {
    predicate IsFailure() { Err? }

    function PropagateFailure<U>(): Result<U>
      requires Err?
    {
      Err(fault)
    }

    function Extract(): T
      requires Ok?
    {
      value
    }
  }

  function Need(condition: bool): Result<()> { if condition then Ok(()) else Err(Rejected) }

  function Assert(condition: bool): Result<()> { if condition then Ok(()) else Err(Fatal) }

  const WORD_LIMIT := 0x1_0000_0000_0000_0000

  /** Addition and subtraction of size_t values. */
  function Plus(a: nat, b: nat): nat { (a + b) % WORD_LIMIT }

  function Minus(a: nat, b: nat): nat { (a - b) % WORD_LIMIT }

  // ---------- numbers ----------

  function Pow256(k: nat): nat { if k == 0 then 1 else 256 * Pow256(k - 1) }

  /** The low k bytes of n, least significant first. */
  function LE(n: nat, k: nat): (bs: seq<Byte>)
    ensures |bs| == k
  {
    if k == 0 then [] else [n % 256] + LE(n / 256, k - 1)
  }

  function FromLE(bs: seq<Byte>): nat {
    if bs == [] then 0 else bs[0] + 256 * FromLE(bs[1..])
  }

  // ---------- what a number of bytes is worth ----------

  function Half(low: nat, high: nat, unit: nat): nat { low + unit * high }

  /** Two, four and eight bytes from an offset as a number, the lowest first. */
  function Short(bs: seq<Byte>, at: nat): nat
    requires at + 2 <= |bs|
  {
    Half(bs[at], bs[at + 1], 0x100)
  }

  function Long(bs: seq<Byte>, at: nat): nat
    requires at + 4 <= |bs|
  {
    Half(Short(bs, at), Short(bs, at + 2), 0x1_0000)
  }

  function Word(bs: seq<Byte>, at: nat): nat
    requires at + 8 <= |bs|
  {
    Half(Long(bs, at), Long(bs, at + 4), 0x1_0000_0000)
  }

  lemma TwoBytes(bs: seq<Byte>)
    requires |bs| == 2
    ensures FromLE(bs) == Short(bs, 0)
  {
    assert FromLE(bs[1..]) == bs[1];
  }

  lemma FourBytes(bs: seq<Byte>)
    requires |bs| == 4
    ensures FromLE(bs) == Long(bs, 0)
  {
    TwoBytes(bs[2..]);
    assert bs[1..][1..] == bs[2..];
    assert FromLE(bs[1..]) == bs[1] + 256 * FromLE(bs[2..]);
  }

  lemma EightBytes(bs: seq<Byte>)
    requires |bs| == 8
    ensures FromLE(bs) == Word(bs, 0)
  {
    FourBytes(bs[4..]);
    assert bs[1..][1..] == bs[2..] && bs[2..][1..] == bs[3..] && bs[3..][1..] == bs[4..];
    assert FromLE(bs[3..]) == bs[3] + 256 * FromLE(bs[4..]);
    assert FromLE(bs[2..]) == bs[2] + 256 * FromLE(bs[3..]);
    assert FromLE(bs[1..]) == bs[1] + 256 * FromLE(bs[2..]);
  }

  lemma {:induction false} NumberReadsBack(n: nat, k: nat)
    requires n < Pow256(k)
    ensures FromLE(LE(n, k)) == n
  {
    if k > 0 {
      assert LE(n, k)[1..] == LE(n / 256, k - 1);
      NumberReadsBack(n / 256, k - 1);
    }
  }

  lemma Widths()
    ensures Pow256(1) == 256 && Pow256(2) == 0x1_0000 && Pow256(4) == 0x1_0000_0000 && Pow256(8) == WORD_LIMIT
  {
    assert Pow256(3) == 0x100_0000;
    assert Pow256(4) == 0x1_0000_0000;
    assert Pow256(5) == 0x100_0000_0000;
    assert Pow256(6) == 0x1_0000_0000_0000;
    assert Pow256(7) == 0x100_0000_0000_0000;
  }

  lemma {:induction false} LowBytes(n: nat, k: nat, j: nat)
    requires j <= k
    ensures LE(n, k)[..j] == LE(n, j)
  {
    if j > 0 {
      LowBytes(n / 256, k - 1, j - 1);
      assert LE(n, k)[..j] == [n % 256] + LE(n / 256, k - 1)[..j - 1];
    }
  }

  // ---------- reading ----------

  /** The number of width w at an offset. */
  function Num(bs: seq<Byte>, offset: nat, w: nat): Result<nat> {
    if offset + w <= |bs| then Ok(FromLE(bs[offset..offset + w])) else Err(Fatal)
  }

  /** What a pointer moved by an offset points at. */
  function From(bs: seq<Byte>, offset: nat): (r: Result<seq<Byte>>)
    ensures r.Ok? ==> |r.value| + offset == |bs|
  {
    if offset <= |bs| then Ok(bs[offset..]) else Err(Fatal)
  }

  lemma FromAfter(before: seq<Byte>, rest: seq<Byte>)
    ensures From(before + rest, |before|) == Ok(rest)
  {
    assert (before + rest)[|before|..] == rest;
  }

  lemma NumHere(n: nat, w: nat, after: seq<Byte>)
    requires n < Pow256(w)
    ensures Num(LE(n, w) + after, 0, w) == Ok(n)
  {
    hide LE, FromLE;
    assert (LE(n, w) + after)[0..w] == LE(n, w);
    NumberReadsBack(n, w);
  }

  lemma NumAfter(before: seq<Byte>, rest: seq<Byte>, offset: nat, w: nat)
    ensures Num(before + rest, |before| + offset, w) == Num(rest, offset, w)
  {
    hide FromLE;
    if offset + w <= |rest| {
      assert (before + rest)[|before| + offset..|before| + offset + w] == rest[offset..offset + w];
    }
  }

  lemma NumFrom(bs: seq<Byte>, offset: nat, rest: seq<Byte>, more: nat, w: nat)
    requires From(bs, offset) == Ok(rest)
    ensures Num(bs, offset + more, w) == Num(rest, more, w)
  {
    assert bs == bs[..offset] + rest;
    NumAfter(bs[..offset], rest, more, w);
  }

  lemma FromFrom(bs: seq<Byte>, offset: nat, rest: seq<Byte>, more: nat)
    requires From(bs, offset) == Ok(rest)
    ensures From(bs, offset + more) == From(rest, more)
  {
    if more <= |rest| { assert bs[offset + more..] == bs[offset..][more..]; }
  }

  // ---------- strings ----------

  predicate NulFree(t: Text) { forall i :: 0 <= i < |t| ==> t[i] != 0 }

  /** A C string: everything up to the first NUL, wherever that is. */
  function CString(bs: seq<Byte>): Result<Text> {
    if bs == [] then Err(Fatal)
    else if bs[0] == 0 then Ok([])
    else
      var rest :- CString(bs[1..]);
      Ok([bs[0]] + rest)
  }

  lemma {:induction false} CStringReadsBack(t: Text, after: seq<Byte>)
    requires NulFree(t)
    ensures CString(t + ([0] + after)) == Ok(t)
  {
    if t != [] {
      assert (t + ([0] + after))[1..] == t[1..] + ([0] + after);
      CStringReadsBack(t[1..], after);
      assert t == [t[0]] + t[1..];
    }
  }

  /** A narrower number in the low bytes of a wider field, the rest of which is
      padding. */
  lemma NumNarrow(n: nat, w: nat, j: nat, after: seq<Byte>)
    requires j <= w && n < Pow256(j)
    ensures Num(LE(n, w) + after, 0, j) == Ok(n)
  {
    LowBytes(n, w, j);
    hide LE, FromLE;
    assert (LE(n, w) + after)[0..j] == LE(n, w)[..j];
    NumberReadsBack(n, j);
  }

  /** Numbers of one width in a row. */
  function Nums(ns: seq<nat>, w: nat): (bs: seq<Byte>) {
    if ns == [] then [] else LE(ns[0], w) + Nums(ns[1..], w)
  }

  lemma {:induction false} NumsSize(ns: seq<nat>, w: nat)
    ensures |Nums(ns, w)| == w * |ns|
  {
    if ns != [] {
      NumsSize(ns[1..], w);
      assert w * |ns| == w + w * (|ns| - 1);
    }
  }

  lemma {:induction false} NumsConcat(a: seq<nat>, b: seq<nat>, w: nat)
    ensures Nums(a + b, w) == Nums(a, w) + Nums(b, w)
  {
    hide LE;
    if a == [] {
      assert a + b == b;
    } else {
      assert (a + b)[1..] == a[1..] + b;
      NumsConcat(a[1..], b, w);
    }
  }

  lemma NumsOne(n: nat, w: nat)
    ensures Nums([n], w) == LE(n, w)
  {
    hide LE;
    assert [n][1..] == [];
    assert Nums([n], w) == LE(n, w) + [];
  }

  /** Reading back any of a row of numbers. */
  lemma {:induction false} NumsReadBack(ns: seq<nat>, w: nat, after: seq<Byte>, i: nat)
    requires i < |ns| && ns[i] < Pow256(w)
    ensures Num(Nums(ns, w) + after, w * i, w) == Ok(ns[i])
  {
    hide LE, Num, Pow256;
    var rest := Nums(ns[1..], w);
    assert Nums(ns, w) + after == LE(ns[0], w) + (rest + after);
    if i == 0 {
      NumHere(ns[0], w, rest + after);
    } else {
      NumAfter(LE(ns[0], w), rest + after, w * (i - 1), w);
      assert w + w * (i - 1) == w * i;
      NumsReadBack(ns[1..], w, after, i - 1);
    }
  }

  /** A record of eight-byte words. */
  function Words(ns: seq<nat>): (bs: seq<Byte>)
    ensures |bs| == 8 * |ns|
  {
    NumsSize(ns, 8);
    Nums(ns, 8)
  }

  lemma WordsReadBack(ns: seq<nat>, after: seq<Byte>)
    requires forall i :: 0 <= i < |ns| ==> ns[i] < WORD_LIMIT
    ensures forall i :: 0 <= i < |ns| ==> Num(Words(ns) + after, 8 * i, 8) == Ok(ns[i])
  {
    Widths();
    hide Num, Pow256, Nums;
    forall i | 0 <= i < |ns| ensures Num(Words(ns) + after, 8 * i, 8) == Ok(ns[i]) {
      NumsReadBack(ns, 8, after, i);
    }
  }

  /** The first word may hold a narrower number. */
  lemma WordsNarrow(ns: seq<nat>, j: nat, after: seq<Byte>)
    requires ns != [] && j <= 8 && ns[0] < Pow256(j)
    ensures Num(Words(ns) + after, 0, j) == Ok(ns[0])
  {
    hide LE, Num, Pow256;
    assert Words(ns) + after == LE(ns[0], 8) + (Nums(ns[1..], 8) + after);
    NumNarrow(ns[0], 8, j, Nums(ns[1..], 8) + after);
  }

  // ---------- parts laid end to end ----------

  function Concat(parts: seq<seq<Byte>>): seq<Byte> {
    if parts == [] then [] else parts[0] + Concat(parts[1..])
  }

  /** Where part i starts. */
  function Start(parts: seq<seq<Byte>>, i: nat): nat
    requires i <= |parts|
  {
    |Concat(parts[..i])|
  }

  lemma {:induction false} ConcatSplits(parts: seq<seq<Byte>>, i: nat)
    requires i <= |parts|
    ensures Concat(parts) == Concat(parts[..i]) + Concat(parts[i..])
  {
    if i == 0 {
      assert parts[..0] == [] && parts[0..] == parts;
    } else {
      ConcatSplits(parts[1..], i - 1);
      assert parts[..i][1..] == parts[1..][..i - 1] && parts[1..][i - 1..] == parts[i..];
    }
  }

  lemma ConcatOne(part: seq<Byte>)
    ensures Concat([part]) == part
  {
    assert [part][1..] == [];
    assert Concat([part]) == part + [];
  }

  lemma ConcatGrows(parts: seq<seq<Byte>>, i: nat)
    requires i < |parts|
    ensures Concat(parts[..i + 1]) == Concat(parts[..i]) + parts[i]
    ensures Start(parts, i + 1) == Start(parts, i) + |parts[i]|
  {
    ConcatSplits(parts[..i + 1], i);
    assert parts[..i + 1][..i] == parts[..i] && parts[..i + 1][i..] == [parts[i]];
    ConcatOne(parts[i]);
  }

  /** Part i stands at its start. */
  lemma PartAt(before: seq<Byte>, parts: seq<seq<Byte>>, after: seq<Byte>, i: nat)
    requires i < |parts|
    ensures From(before + Concat(parts) + after, |before| + Start(parts, i))
         == Ok(parts[i] + (Concat(parts[i + 1..]) + after))
    ensures Start(parts, i) + |parts[i]| <= |Concat(parts)|
  {
    ConcatSplits(parts, i);
    assert parts[i..][1..] == parts[i + 1..];
    var front, back := Concat(parts[..i]), Concat(parts[i + 1..]);
    assert Concat(parts) == front + (parts[i] + back);
    hide *;
    Regroup(before, front, parts[i], back, after);
    FromAfter(before + front, parts[i] + (back + after));
  }

  lemma Regroup(a: seq<Byte>, b: seq<Byte>, c: seq<Byte>, d: seq<Byte>, e: seq<Byte>)
    ensures a + (b + (c + d)) + e == (a + b) + (c + (d + e))
  {
  }

  lemma FourParts(a: seq<Byte>, b: seq<Byte>, c: seq<Byte>, d: seq<Byte>)
    ensures a + b + c + d == a + b + (c + d)
    ensures a + b + (c + d) == a + (b + (c + d))
  {
  }

  lemma {:induction false} UniformSize(parts: seq<seq<Byte>>, w: nat)
    requires forall i :: 0 <= i < |parts| ==> |parts[i]| == w
    ensures |Concat(parts)| == w * |parts|
  {
    if parts != [] {
      UniformSize(parts[1..], w);
      assert w * |parts| == w + w * (|parts| - 1);
    }
  }

  /** With parts of one size, part i stands at i times the size. */
  lemma UniformPartAt(before: seq<Byte>, parts: seq<seq<Byte>>, w: nat, after: seq<Byte>, i: nat)
    requires i < |parts| && forall j :: 0 <= j < |parts| ==> |parts[j]| == w
    ensures From(before + Concat(parts) + after, |before| + w * i)
         == Ok(parts[i] + (Concat(parts[i + 1..]) + after))
  {
    hide Concat;
    PartAt(before, parts, after, i);
    UniformSize(parts[..i], w);
  }

  // ---------- the buffer ----------

  function Patched(data: seq<Byte>, at: nat, item: seq<Byte>): (r: seq<Byte>)
    requires at + |item| <= |data|
    ensures |r| == |data|
  {
    data[..at] + item + data[at + |item|..]
  }

  lemma PatchMiddle(front: seq<Byte>, slot: seq<Byte>, back: seq<Byte>, item: seq<Byte>)
    requires |slot| == |item|
    ensures Patched(front + (slot + back), |front|, item) == front + (item + back)
  {
  }

  class Serialiser {
    var data: seq<Byte>

    constructor ()
      ensures data == []
    {
      data := [];
    }

    method Append(bytes: seq<Byte>) returns (count: nat)
      modifies this
      ensures data == old(data) + bytes && count == |bytes|
    {
      data := data + bytes;
      count := |bytes|;
    }

    /** Overwrites the record at index plus offset times its size, one byte after
        the other. */
    method Overwrite(index: nat, item: seq<Byte>, offset: nat)
      requires index + offset * |item| + |item| <= |data|
      modifies this
      ensures data == Patched(old(data), index + offset * |item|, item)
    {
      var at := index + offset * |item|;
      for i := 0 to |item|
        invariant |data| == |old(data)|
        invariant data == old(data)[..at] + item[..i] + old(data)[at + i..]
      {
        data := data[at + i := item[i]];
      }
    }
  }
}
