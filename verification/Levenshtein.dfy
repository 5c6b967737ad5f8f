/** The edit-distance filter: a one-column dynamic programme over machine words,
    proved against the recursive distance, which in turn is proved to be the
    least cost of an edit script and a metric. */
module Levenshtein {

  newtype Word = x: int | 0 <= x < 0x1_0000_0000

  // ---------- the distance ----------

  function Min(a: nat, b: nat): nat { if a <= b then a else b }

  function Max(a: nat, b: nat): nat { if a <= b then b else a }

  /** Edit distance by comparing last characters. */
  ghost function Distance(s: string, t: string): nat
    decreases |s| + |t|
  {
    if s == "" then |t|
    else if t == "" then |s|
    else
      var s', t' := s[..|s| - 1], t[..|t| - 1];
      var substituted := Distance(s', t') + if s[|s| - 1] == t[|t| - 1] then 0 else 1;
      Min(substituted, Min(Distance(s', t), Distance(s, t')) + 1)
  }

  // ---------- its meaning: least cost of an edit script ----------

  datatype Edit = Keep | Substitute(c: char) | Insert(c: char) | Delete

  datatype Option<T> = None | Some(value: T)

  /** The string an edit script makes of s, read from the front; None when the
      script does not fit. */
  ghost function Apply(script: seq<Edit>, s: string): Option<string> {
    if script == [] then (if s == "" then Some("") else None)
    else
      var rest, e := script[..|script| - 1], script[|script| - 1];
      if e.Insert? then Extend(Apply(rest, s), [e.c])
      else if s == "" then None
      else
        var kept := match e case Substitute(c) => [c] case Delete => "" case _ => [s[|s| - 1]];
        Extend(Apply(rest, s[..|s| - 1]), kept)
  }

  ghost function Extend(front: Option<string>, tail: string): Option<string> {
    if front.None? then None else Some(front.value + tail)
  }

  ghost function Cost(script: seq<Edit>): nat {
    if script == [] then 0
    else Cost(script[..|script| - 1]) + if script[|script| - 1].Keep? then 0 else 1
  }

  lemma {:induction false} DistanceBounds(s: string, t: string)
    ensures Distance(s, t) <= Max(|s|, |t|)
    ensures Distance(s, t) >= |s| - |t| && Distance(s, t) >= |t| - |s|
    decreases |s| + |t|
  {
    if s != "" && t != "" {
      var s', t' := s[..|s| - 1], t[..|t| - 1];
      DistanceBounds(s', t');
      DistanceBounds(s, t');
      DistanceBounds(s', t);
    }
  }

  /** One character more on either side moves the distance by at most one. */
  lemma DistanceStep(s: string, t: string)
    ensures s != "" ==> Distance(s, t) <= Distance(s[..|s| - 1], t) + 1
    ensures t != "" ==> Distance(s, t) <= Distance(s, t[..|t| - 1]) + 1
  {
    DistanceBounds(s, t);
    if s != "" && t == "" { assert Distance(s[..|s| - 1], t) == |s| - 1; }
  }

  lemma ScriptStep(rest: seq<Edit>, e: Edit)
    ensures (rest + [e])[..|rest|] == rest
    ensures Cost(rest + [e]) == Cost(rest) + if e.Keep? then 0 else 1
  {
    assert (rest + [e])[..|rest|] == rest;
  }

  lemma {:induction false} SomeScriptCosts(s: string, t: string) returns (script: seq<Edit>)
    ensures Apply(script, s) == Some(t) && Cost(script) == Distance(s, t)
    decreases |s| + |t|
  {
    if s == "" && t == "" {
      script := [];
    } else if s == "" || (t != "" && Distance(s, t) == Distance(s, t[..|t| - 1]) + 1) {
      var t' := t[..|t| - 1];
      var rest := SomeScriptCosts(s, t');
      script := rest + [Insert(t[|t| - 1])];
      ScriptStep(rest, Insert(t[|t| - 1]));
      assert t == t' + [t[|t| - 1]];
    } else if t == "" || Distance(s, t) == Distance(s[..|s| - 1], t) + 1 {
      var rest := SomeScriptCosts(s[..|s| - 1], t);
      script := rest + [Delete];
      ScriptStep(rest, Delete);
      assert t + "" == t;
    } else {
      var s', t' := s[..|s| - 1], t[..|t| - 1];
      var rest := SomeScriptCosts(s', t');
      var e := if s[|s| - 1] == t[|t| - 1] then Keep else Substitute(t[|t| - 1]);
      script := rest + [e];
      ScriptStep(rest, e);
      assert t == t' + [t[|t| - 1]];
    }
  }

  lemma {:induction false} NoScriptIsCheaper(s: string, t: string, script: seq<Edit>)
    requires Apply(script, s) == Some(t)
    ensures Distance(s, t) <= Cost(script)
    decreases |script|
  {
    if script != [] {
      var rest, e := script[..|script| - 1], script[|script| - 1];
      DistanceStep(s, t);
      if e.Insert? {
        var front := Apply(rest, s).value;
        assert t[..|t| - 1] == front;
        NoScriptIsCheaper(s, front, rest);
      } else {
        var s' := s[..|s| - 1];
        var front := Apply(rest, s').value;
        NoScriptIsCheaper(s', front, rest);
        if e.Delete? {
          assert front == t;
        } else {
          assert t[..|t| - 1] == front;
        }
      }
    }
  }

  /** The distance is the cost of a cheapest script of keeps, substitutions,
      insertions and deletions turning s into t. */
  lemma DistanceIsLeastCost(s: string, t: string)
    ensures exists script :: Apply(script, s) == Some(t) && Cost(script) == Distance(s, t)
    ensures forall script :: Apply(script, s) == Some(t) ==> Distance(s, t) <= Cost(script)
  {
    var script := SomeScriptCosts(s, t);
    forall other | Apply(other, s) == Some(t) ensures Distance(s, t) <= Cost(other) {
      NoScriptIsCheaper(s, t, other);
    }
  }

  // ---------- it is a metric ----------

  lemma {:induction false} ZeroOnlyWhenEqual(s: string, t: string)
    ensures Distance(s, t) == 0 <==> s == t
    decreases |s| + |t|
  {
    if s != "" && t != "" {
      var s', t' := s[..|s| - 1], t[..|t| - 1];
      ZeroOnlyWhenEqual(s', t');
      assert s == s' + [s[|s| - 1]] && t == t' + [t[|t| - 1]];
    }
  }

  lemma {:induction false} Symmetric(s: string, t: string)
    ensures Distance(s, t) == Distance(t, s)
    decreases |s| + |t|
  {
    if s != "" && t != "" {
      var s', t' := s[..|s| - 1], t[..|t| - 1];
      Symmetric(s', t');
      Symmetric(s', t);
      Symmetric(s, t');
    }
  }

  lemma {:induction false} Triangle(a: string, b: string, c: string)
    ensures Distance(a, c) <= Distance(a, b) + Distance(b, c)
    decreases |a| + |b| + |c|
  {
    DistanceBounds(a, b);
    DistanceBounds(b, c);
    DistanceBounds(a, c);
    if a != "" && b != "" && c != "" {
      var a', b', c' := a[..|a| - 1], b[..|b| - 1], c[..|c| - 1];
      DistanceStep(a, c);
      Triangle(a', b, c);
      Triangle(a, b, c');
      Triangle(a, b', c);
      Triangle(a', b', c);
      Triangle(a, b', c');
      Triangle(a', b', c');
    }
  }

  // ---------- the one-column loop ----------

  /** Column y of the table after x rows of t. */
  ghost function Cell(s: string, t: string, y: nat, x: nat): nat
    requires y <= |s| && x <= |t|
  {
    Distance(s[..y], t[..x])
  }

  lemma CellStep(s: string, t: string, y: nat, x: nat)
    requires 0 < y <= |s| && 0 < x <= |t|
    ensures Cell(s, t, y, x) ==
      Min(Cell(s, t, y, x - 1) + 1,
          Min(Cell(s, t, y - 1, x) + 1, Cell(s, t, y - 1, x - 1) + if s[y - 1] == t[x - 1] then 0 else 1))
    ensures Cell(s, t, y, x) <= Max(x, y) && Cell(s, t, y, x - 1) <= Max(x - 1, y)
    ensures Cell(s, t, y - 1, x) <= Max(x, y - 1) && Cell(s, t, y - 1, x - 1) <= Max(x - 1, y - 1)
  {
    assert s[..y][..y - 1] == s[..y - 1];
    assert t[..x][..x - 1] == t[..x - 1];
    DistanceBounds(s[..y], t[..x]);
    DistanceBounds(s[..y], t[..x - 1]);
    DistanceBounds(s[..y - 1], t[..x]);
    DistanceBounds(s[..y - 1], t[..x - 1]);
  }

  /** The least of the three possibilities for a cell. */
  method LeastPossibility(above: Word, left: Word, diagonal: Word, same: bool) returns (least: Word)
    requires above < 0xFFFF_FFFF && left < 0xFFFF_FFFF && diagonal < 0xFFFF_FFFF
    ensures least as nat == Min(above as nat + 1, Min(left as nat + 1, diagonal as nat + if same then 0 else 1))
  {
    least := above + 1;
    if left + 1 < least { least := left + 1; }
    var changed := diagonal + if same then 0 else 1;
    if changed < least { least := changed; }
  }

  lemma FirstCell(s1: string, s2: string, x: nat)
    requires x <= |s2|
    ensures Cell(s1, s2, 0, x) == x
  {
    assert s1[..0] == "";
  }

  /** The inner loop: rewrites the column from row x - 1 to row x in place. */
  method NextRow(s1: string, s2: string, column: array<Word>, x: Word)
    requires |s1| < 0xFFFF_FFFF && |s2| < 0xFFFF_FFFF && column.Length == |s1| + 1 && 1 <= x as int <= |s2|
    requires forall k :: 1 <= k <= |s1| ==> column[k] as nat == Cell(s1, s2, k, x as int - 1)
    modifies column
    ensures forall k :: 0 <= k <= |s1| ==> column[k] as nat == Cell(s1, s2, k, x as int)
  {
    hide Cell, Distance;
    column[0] := x;
    var lastDiagonal := x - 1;
    FirstCell(s1, s2, x as int);
    FirstCell(s1, s2, x as int - 1);
    for y := 1 to |s1| + 1
      invariant forall k :: 0 <= k < y ==> column[k] as nat == Cell(s1, s2, k, x as int)
      invariant forall k :: y <= k <= |s1| ==> column[k] as nat == Cell(s1, s2, k, x as int - 1)
      invariant lastDiagonal as nat == Cell(s1, s2, y - 1, x as int - 1)
    {
      var oldDiagonal := column[y];
      CellStep(s1, s2, y, x as int);
      column[y] := LeastPossibility(column[y], column[y - 1], lastDiagonal, s1[y - 1] == s2[x - 1]);
      lastDiagonal := oldDiagonal;
    }
  }

  /** levenshtein_distance. Nothing is promised for two empty strings: no loop
      runs and the one cell that is returned was never written. No word
      overflows for lengths below the largest word. */
  method LevenshteinDistance(s1: string, s2: string) returns (result: Word)
    requires |s1| < 0xFFFF_FFFF && |s2| < 0xFFFF_FFFF
    ensures s1 != "" || s2 != "" ==> result as nat == Distance(s1, s2)
  {
    var s2len := |s2| as Word;
    var column := new Word[|s1| + 1];
    for y := 1 to |s1| + 1
      invariant forall k :: 1 <= k < y ==> column[k] as nat == k
    {
      column[y] := y as Word;
    }
    assert s2[..0] == "";
    var x: Word := 1;
    while x <= s2len
      invariant 1 <= x <= s2len + 1
      invariant forall k :: (if x == 1 then 1 else 0) <= k <= |s1| ==> column[k] as nat == Cell(s1, s2, k, x as int - 1)
    {
      NextRow(s1, s2, column, x);
      x := x + 1;
    }
    assert s1[..|s1|] == s1 && s2[..|s2|] == s2;
    result := column[|s1|];
  }

  /** The answer of the filter; it has none for two empty strings. */
  ghost predicate Passes(value: string, target: string, limit: nat)
    requires value != "" || target != ""
  {
    Distance(value, target) <= limit
  }

  /** LevFilter::Test on the text bound to the filter's variable. */
  method Test(value: string, target: string, maxDistance: Word) returns (passes: bool)
    requires |value| < 0xFFFF_FFFF && |target| < 0xFFFF_FFFF
    ensures value != "" || target != "" ==> (passes <==> Passes(value, target, maxDistance as nat))
  {
    var d := LevenshteinDistance(value, target);
    passes := d <= maxDistance;
  }

  /** Filters compose: if value passes the filter for a at d1, and a the filter for b
      at d2, then value passes the filter for b at d1 + d2, and the other way round. */
  lemma FiltersCompose(value: string, a: string, b: string, d1: nat, d2: nat)
    requires (value != "" || a != "") && (a != "" || b != "") && (value != "" || b != "")
    requires Passes(value, a, d1) && Passes(a, b, d2)
    ensures Passes(value, b, d1 + d2) && Passes(b, value, d1 + d2)
  {
    Triangle(value, a, b);
    Symmetric(value, b);
  }
}
