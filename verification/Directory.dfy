/** Records that begin with a row of headers of one size, each filled in after
    the body it describes has been written further down. */
module Directory {
  import opened Bytes

  function Zeros(n: nat): (z: seq<Byte>)
    ensures |z| == n
  {
    seq(n, _ => 0)
  }

  /** A row of headers still to be filled in. */
  function Blank(w: nat, count: nat): seq<Byte> {
    if count == 0 then [] else Zeros(w) + Blank(w, count - 1)
  }

  lemma {:induction false} BlankGrows(w: nat, count: nat)
    ensures Blank(w, count) + Zeros(w) == Blank(w, count + 1)
  {
    hide Zeros;
    if count > 0 { BlankGrows(w, count - 1); }
  }

  lemma {:induction false} BlankSize(w: nat, count: nat)
    ensures |Blank(w, count)| == count * w
  {
    if count > 0 {
      BlankSize(w, count - 1);
      assert count * w == w + (count - 1) * w;
    }
  }

  ghost predicate Uniform(headers: seq<seq<Byte>>, w: nat) {
    forall i :: 0 <= i < |headers| ==> |headers[i]| == w
  }

  /** The finished headers, what stands between, and the bodies. */
  ghost function Laid(headers: seq<seq<Byte>>, middle: seq<Byte>, bodies: seq<seq<Byte>>): seq<Byte> {
    Concat(headers) + middle + Concat(bodies)
  }

  /** The record when i bodies have been written and their headers filled in. */
  ghost function Partial(headers: seq<seq<Byte>>, w: nat, middle: seq<Byte>, bodies: seq<seq<Byte>>, i: nat): seq<Byte>
    requires i <= |headers| == |bodies|
  {
    Concat(headers[..i]) + Blank(w, |headers| - i) + middle + Concat(bodies[..i])
  }

  lemma PartialStarts(headers: seq<seq<Byte>>, w: nat, middle: seq<Byte>, bodies: seq<seq<Byte>>)
    requires |headers| == |bodies|
    ensures Partial(headers, w, middle, bodies, 0) == Blank(w, |headers|) + middle
  {
    assert headers[..0] == [] && bodies[..0] == [];
  }

  lemma PartialEnds(headers: seq<seq<Byte>>, w: nat, middle: seq<Byte>, bodies: seq<seq<Byte>>)
    requires |headers| == |bodies|
    ensures Partial(headers, w, middle, bodies, |headers|) == Laid(headers, middle, bodies)
  {
    assert headers[..|headers|] == headers && bodies[..|headers|] == bodies;
    assert Concat(headers) + Blank(w, 0) == Concat(headers);
  }

  lemma FilledSize(headers: seq<seq<Byte>>, w: nat, i: nat)
    requires i <= |headers| && Uniform(headers, w)
    ensures |Concat(headers[..i])| == i * w
  {
    UniformSize(headers[..i], w);
  }

  lemma PartialSize(headers: seq<seq<Byte>>, w: nat, middle: seq<Byte>, bodies: seq<seq<Byte>>, i: nat)
    requires i <= |headers| == |bodies| && Uniform(headers, w)
    ensures |Partial(headers, w, middle, bodies, i)| == |headers| * w + |middle| + Start(bodies, i)
  {
    hide Concat, Blank;
    FilledSize(headers, w, i);
    BlankSize(w, |headers| - i);
    assert i * w + (|headers| - i) * w == |headers| * w;
  }

  /** Filling in header i after body i has been appended disturbs nothing else. */
  lemma HeaderFillsIn(before: seq<Byte>, headers: seq<seq<Byte>>, w: nat, middle: seq<Byte>, bodies: seq<seq<Byte>>, i: nat)
    requires i < |headers| == |bodies| && Uniform(headers, w)
    ensures var data := before + Partial(headers, w, middle, bodies, i) + bodies[i];
      && |before| + i * w + w <= |data| && |headers[i]| == w
      && Patched(data, |before| + i * w, headers[i]) == before + Partial(headers, w, middle, bodies, i + 1)
  {
    assert |headers[i]| == w;
    FilledSize(headers, w, i);
    var filled, written := Concat(headers[..i]), Concat(bodies[..i]);
    var empty, rest := Zeros(w), Blank(w, |headers| - i - 1);
    assert Blank(w, |headers| - i) == empty + rest;
    hide Concat, Zeros, Blank, Patched, Uniform;
    ConcatGrows(headers, i);
    ConcatGrows(bodies, i);
    assert |before + filled| == |before| + i * w;
    Spread(before, filled, empty, rest, middle, written, bodies[i]);
    Spread(before, filled, headers[i], rest, middle, written, bodies[i]);
    PatchMiddle(before + filled, empty, rest + middle + written + bodies[i], headers[i]);
  }

  lemma Spread(a: seq<Byte>, b: seq<Byte>, c: seq<Byte>, d: seq<Byte>, e: seq<Byte>, f: seq<Byte>, g: seq<Byte>)
    ensures a + (b + (c + d) + e + f) + g == (a + b) + (c + (d + e + f + g))
    ensures a + ((b + c) + d + e + (f + g)) == (a + b) + (c + (d + e + f + g))
  {
  }

  lemma LaidSize(headers: seq<seq<Byte>>, w: nat, middle: seq<Byte>, bodies: seq<seq<Byte>>)
    requires Uniform(headers, w)
    ensures |Laid(headers, middle, bodies)| == w * |headers| + |middle| + |Concat(bodies)|
  {
    UniformSize(headers, w);
  }

  /** Each header stands at its multiple of the header size. */
  lemma HeaderStands(head: seq<Byte>, headers: seq<seq<Byte>>, w: nat, middle: seq<Byte>, bodies: seq<seq<Byte>>, after: seq<Byte>, i: nat)
    returns (more: seq<Byte>)
    requires i < |headers| && Uniform(headers, w)
    ensures From(head + Laid(headers, middle, bodies) + after, |head| + w * i) == Ok(headers[i] + more)
  {
    var tail := middle + Concat(bodies) + after;
    more := Concat(headers[i + 1..]) + tail;
    UniformPartAt(head, headers, w, tail, i);
    hide Concat, From, Uniform;
    assert head + Laid(headers, middle, bodies) + after == head + Concat(headers) + tail;
  }

  /** Each body stands behind the headers at its start. */
  lemma BodyStands(head: seq<Byte>, headers: seq<seq<Byte>>, w: nat, middle: seq<Byte>, bodies: seq<seq<Byte>>, after: seq<Byte>, i: nat)
    returns (more: seq<Byte>)
    requires i < |bodies| && Uniform(headers, w)
    ensures From(head + Laid(headers, middle, bodies) + after, |head| + w * |headers| + |middle| + Start(bodies, i)) == Ok(bodies[i] + more)
    ensures Start(bodies, i) + |bodies[i]| <= |Concat(bodies)|
  {
    var front := head + Concat(headers) + middle;
    more := Concat(bodies[i + 1..]) + after;
    UniformSize(headers, w);
    PartAt(front, bodies, after, i);
    hide Concat, From, Uniform, Start;
    assert head + Laid(headers, middle, bodies) + after == front + Concat(bodies) + after;
  }

  /** Appends the headers before anything is known about them. */
  method AppendBlank(s: Serialiser, w: nat, count: nat)
    modifies s
    ensures s.data == old(s.data) + Blank(w, count)
  {
    ghost var before := s.data;
    hide Blank;
    assert Blank(w, 0) == [] by { BlankNone(w); }
    for i := 0 to count
      invariant s.data == before + Blank(w, i)
    {
      var _ := s.Append(Zeros(w));
      BlankGrows(w, i);
    }
  }

  lemma BlankNone(w: nat)
    ensures Blank(w, 0) == []
  {
  }
}
