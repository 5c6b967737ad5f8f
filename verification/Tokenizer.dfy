/** The flag-driven tokenizer of the query front end, up to the pieces it hands
    to identifyToken. */
module Tokenizer {

  datatype Flags = Flags(quoted: bool, square: bool, triangle: bool, filter: bool)

  /** position is what identifyToken is told, an unsigned 32-bit number. */
  datatype Piece = Piece(text: string, position: nat)

  datatype State = State(buffer: string, flags: Flags, pieces: seq<Piece>, charNo: nat)

  const NO_FLAGS := Flags(false, false, false, false)

  const START := State("", NO_FLAGS, [], 0)

  predicate IsSpace(c: char) { c == '\n' || c == ' ' || c == '\t' }

  predicate IsStructural(c: char) { c == '{' || c == '}' || c == ';' || c == ',' || c == '.' }

  predicate Protected(f: Flags) { f.quoted || f.square || f.triangle || f.filter }

  function Wrapped(i: int): nat { i % 0x1_0000_0000 }

  // ---------- one character ----------

  /** The flags after the last character of a non-empty buffer. */
  function Update(f: Flags, buffer: string): Flags
    requires buffer != ""
  {
    var c := buffer[|buffer| - 1];
    var filter := f.filter || buffer == "FILTER" || buffer == "NEW";
    Flags(if c == '"' then !f.quoted else f.quoted,
          c == '[' || (f.square && c != ']'),
          c == '<' || (f.triangle && c != '>'),
          filter && c != ')')
  }

  function Flushed(st: State): seq<Piece> {
    if st.buffer == "" then st.pieces
    else st.pieces + [Piece(st.buffer, Wrapped(st.charNo - |st.buffer|))]
  }

  function Step(st: State, c: char): State {
    if IsSpace(c) && !Protected(st.flags) then
      State("", st.flags, Flushed(st), st.charNo + 1)
    else if IsStructural(c) && !Protected(st.flags) then
      State("", st.flags, Flushed(st) + [Piece([c], Wrapped(st.charNo - 1))], st.charNo + 1)
    else
      State(st.buffer + [c], Update(st.flags, st.buffer + [c]), st.pieces, st.charNo + 1)
  }

  function Scan(st: State, str: string): State {
    if str == "" then st else Step(Scan(st, str[..|str| - 1]), str[|str| - 1])
  }

  function Pieces(str: string): seq<Piece> { Flushed(Scan(START, str)) }

  // ---------- what the pieces are ----------

  function Concat(pieces: seq<Piece>): string {
    if pieces == [] then "" else Concat(pieces[..|pieces| - 1]) + pieces[|pieces| - 1].text
  }

  /** The input without the whitespace that no flag protects. */
  function Kept(str: string): string {
    if str == "" then ""
    else
      var init, c := str[..|str| - 1], str[|str| - 1];
      if IsSpace(c) && !Protected(Scan(START, init).flags) then Kept(init) else Kept(init) + [c]
  }

  function NonSpace(str: string): string {
    if str == "" then ""
    else NonSpace(str[..|str| - 1]) + if IsSpace(str[|str| - 1]) then "" else [str[|str| - 1]]
  }

  predicate StructuralText(t: string) { |t| == 1 && IsStructural(t[0]) }

  /** The piece is a stretch of the input. A word is told where it starts; a
      structural character is told one place too early. */
  ghost predicate FoundAt(str: string, p: Piece) {
    exists start: nat :: StandsAt(str, p, start)
  }

  ghost predicate StandsAt(str: string, p: Piece, start: nat) {
    && start + |p.text| <= |str| && str[start..start + |p.text|] == p.text
    && p.position == Wrapped(if StructuralText(p.text) then start - 1 else start)
  }

  lemma ConcatFlushed(st: State)
    ensures Concat(Flushed(st)) == Concat(st.pieces) + st.buffer
  {
    if st.buffer != "" { assert Flushed(st)[..|st.pieces|] == st.pieces; }
  }

  ghost predicate ScanKeeps(str: string, st: State) {
    && st.charNo == |str|
    && (st.buffer == "" ==> !Protected(st.flags))
    && (st.buffer != "" ==> !IsStructural(st.buffer[0]))
    && |st.buffer| <= |str| && str[|str| - |st.buffer|..] == st.buffer
    && Concat(st.pieces) + st.buffer == Kept(str)
    && forall i :: 0 <= i < |st.pieces| ==> st.pieces[i].text != "" && FoundAt(str, st.pieces[i])
  }

  lemma FoundInLonger(str: string, p: Piece, c: char)
    requires FoundAt(str, p)
    ensures FoundAt(str + [c], p)
  {
    var start: nat :| StandsAt(str, p, start);
    assert (str + [c])[start..start + |p.text|] == p.text;
    assert StandsAt(str + [c], p, start);
  }

  lemma FlushFinds(str: string, st: State)
    requires ScanKeeps(str, st)
    ensures forall i :: 0 <= i < |Flushed(st)| ==> Flushed(st)[i].text != "" && FoundAt(str, Flushed(st)[i])
  {
    hide Kept, Concat, Protected, Wrapped;
    if st.buffer != "" {
      var start := |str| - |st.buffer|;
      assert str[start..start + |st.buffer|] == st.buffer;
      assert StandsAt(str, Piece(st.buffer, Wrapped(st.charNo - |st.buffer|)), start);
    }
  }

  lemma FlushKeeps(init: string, st: State, c: char)
    requires ScanKeeps(init, st)
    ensures Concat(Flushed(st)) == Kept(init)
    ensures forall i :: 0 <= i < |Flushed(st)| ==> Flushed(st)[i].text != "" && FoundAt(init + [c], Flushed(st)[i])
  {
    ConcatFlushed(st);
    FlushFinds(init, st);
    forall i | 0 <= i < |Flushed(st)| ensures FoundAt(init + [c], Flushed(st)[i]) { FoundInLonger(init, Flushed(st)[i], c); }
  }

  lemma ConcatAppend(pieces: seq<Piece>, piece: Piece)
    ensures Concat(pieces + [piece]) == Concat(pieces) + piece.text
  {
    assert (pieces + [piece])[..|pieces|] == pieces;
  }

  lemma KeptAppend(init: string, c: char)
    ensures Kept(init + [c]) ==
      if IsSpace(c) && !Protected(Scan(START, init).flags) then Kept(init) else Kept(init) + [c]
  {
    assert (init + [c])[..|init|] == init;
  }

  lemma SpaceKeeps(init: string, st: State, c: char)
    requires st == Scan(START, init) && ScanKeeps(init, st) && IsSpace(c) && !Protected(st.flags)
    ensures ScanKeeps(init + [c], Step(st, c))
  {
    hide Kept, Concat, Scan, Protected, IsSpace, IsStructural, Update, Flushed;
    FlushKeeps(init, st, c);
    KeptAppend(init, c);
  }

  lemma StructuralKeeps(init: string, st: State, c: char)
    requires st == Scan(START, init) && ScanKeeps(init, st) && IsStructural(c) && !Protected(st.flags)
    ensures ScanKeeps(init + [c], Step(st, c))
  {
    hide Kept, Concat, Scan, Protected, IsSpace, IsStructural, Update, Flushed;
    FlushKeeps(init, st, c);
    KeptAppend(init, c);
    var piece := Piece([c], Wrapped(st.charNo - 1));
    ConcatAppend(Flushed(st), piece);
    assert (init + [c])[|init|..|init| + 1] == [c];
    assert StandsAt(init + [c], piece, |init|);
  }

  lemma GrowKeeps(init: string, st: State, c: char)
    requires st == Scan(START, init) && ScanKeeps(init, st)
    requires Protected(st.flags) || !(IsSpace(c) || IsStructural(c))
    ensures ScanKeeps(init + [c], Step(st, c))
  {
    hide FoundAt, Concat, Kept, Update;
    KeptAppend(init, c);
    forall i | 0 <= i < |st.pieces| ensures FoundAt(init + [c], st.pieces[i]) { FoundInLonger(init, st.pieces[i], c); }
  }

  lemma {:induction false} ScanInvariant(str: string)
    ensures ScanKeeps(str, Scan(START, str))
  {
    if str != "" {
      var init, c := str[..|str| - 1], str[|str| - 1];
      assert str == init + [c];
      ScanInvariant(init);
      var st := Scan(START, init);
      if IsSpace(c) && !Protected(st.flags) {
        SpaceKeeps(init, st, c);
      } else if IsStructural(c) && !Protected(st.flags) {
        StructuralKeeps(init, st, c);
      } else {
        GrowKeeps(init, st, c);
      }
    }
  }

  /** The pieces are non-empty stretches of the input and concatenate to the
      input minus its unprotected whitespace. */
  lemma PiecesCoverTheInput(str: string)
    ensures Concat(Pieces(str)) == Kept(str)
    ensures forall i :: 0 <= i < |Pieces(str)| ==> Pieces(str)[i].text != "" && FoundAt(str, Pieces(str)[i])
  {
    ScanInvariant(str);
    FlushFinds(str, Scan(START, str));
    ConcatFlushed(Scan(START, str));
  }

  lemma {:induction false} KeptKeepsNonSpace(str: string)
    ensures NonSpace(Kept(str)) == NonSpace(str)
  {
    if str != "" {
      KeptKeepsNonSpace(str[..|str| - 1]);
      assert (Kept(str[..|str| - 1]) + [str[|str| - 1]])[..|Kept(str[..|str| - 1])|] == Kept(str[..|str| - 1]);
    }
  }

  /** No character other than whitespace is ever lost, added or moved. */
  lemma TokenizingKeepsNonSpace(str: string)
    ensures NonSpace(Concat(Pieces(str))) == NonSpace(str)
  {
    PiecesCoverTheInput(str);
    KeptKeepsNonSpace(str);
  }

  // ---------- which lists of pieces survive printing ----------

  function FlagsAfter(p: string): Flags {
    if p == "" then NO_FLAGS else Update(FlagsAfter(p[..|p| - 1]), p)
  }

  /** No character of p would end a piece that starts with p's beginning. */
  predicate Unbroken(p: string) {
    p != "" && forall k :: 0 <= k < |p| ==> Protected(FlagsAfter(p[..k])) || !(IsSpace(p[k]) || IsStructural(p[k]))
  }

  /** p is a piece of its own, whatever follows it after a space. */
  predicate WellFormed(p: string) {
    StructuralText(p) || (Unbroken(p) && !Protected(FlagsAfter(p)))
  }

  predicate AllWellFormed(ps: seq<string>) {
    forall i :: 0 <= i < |ps| ==> WellFormed(ps[i])
  }

  /** Only the last piece may leave a quote or bracket open. */
  predicate WellFormedList(ps: seq<string>) {
    ps == [] || (AllWellFormed(ps[..|ps| - 1]) && MayEnd(ps[|ps| - 1]))
  }

  predicate MayEnd(p: string) { StructuralText(p) || Unbroken(p) }

  function Texts(pieces: seq<Piece>): (t: seq<string>)
    ensures |t| == |pieces| && forall i :: 0 <= i < |t| ==> t[i] == pieces[i].text
  {
    if pieces == [] then [] else Texts(pieces[..|pieces| - 1]) + [pieces[|pieces| - 1].text]
  }

  function Joined(ps: seq<string>): string {
    if ps == [] then ""
    else if |ps| == 1 then ps[0]
    else Joined(ps[..|ps| - 1]) + " " + ps[|ps| - 1]
  }

  lemma {:induction false} ScanConcat(st: State, a: string, b: string)
    ensures Scan(st, a + b) == Scan(Scan(st, a), b)
  {
    if b == "" {
      assert a + b == a;
    } else {
      assert (a + b)[..|a + b| - 1] == a + b[..|b| - 1];
      ScanConcat(st, a, b[..|b| - 1]);
    }
  }

  lemma UnbrokenStart(p: string)
    requires Unbroken(p)
    ensures var init, c := p[..|p| - 1], p[|p| - 1];
      (init == "" || Unbroken(init)) && (Protected(FlagsAfter(init)) || !(IsSpace(c) || IsStructural(c)))
  {
    hide FlagsAfter, Protected, IsSpace, IsStructural;
    var init := p[..|p| - 1];
    forall k | 0 <= k < |init|
      ensures Protected(FlagsAfter(init[..k])) || !(IsSpace(init[k]) || IsStructural(init[k]))
    {
      assert init[..k] == p[..k];
    }
  }

  lemma ScanAndFlags(st: State, p: string)
    requires p != ""
    ensures Scan(st, p) == Step(Scan(st, p[..|p| - 1]), p[|p| - 1]) && FlagsAfter(p) == Update(FlagsAfter(p[..|p| - 1]), p)
  {
    hide Step, Update;
  }

  lemma NothingScanned(st: State)
    ensures Scan(st, "") == st && FlagsAfter("") == NO_FLAGS
  {
  }

  lemma {:induction false} ScanUnbroken(st: State, p: string)
    requires st.buffer == "" && st.flags == NO_FLAGS
    requires p == "" || Unbroken(p)
    ensures Scan(st, p) == State(p, FlagsAfter(p), st.pieces, st.charNo + |p|)
  {
    hide Unbroken, Update, Protected, IsSpace, IsStructural, Scan, FlagsAfter;
    if p == "" {
      NothingScanned(st);
    } else {
      UnbrokenStart(p);
      ScanUnbroken(st, p[..|p| - 1]);
      ScanAndFlags(st, p);
      assert p[..|p| - 1] + [p[|p| - 1]] == p;
    }
  }

  lemma OneStep(st: State, w: string, c: char)
    ensures Scan(st, w + [c]) == Step(Scan(st, w), c)
  {
    assert (w + [c])[..|w|] == w;
  }

  lemma ScanPiece(st: State, p: string)
    requires st.buffer == "" && st.flags == NO_FLAGS && (StructuralText(p) || Unbroken(p))
    ensures Texts(Flushed(Scan(st, p))) == Texts(st.pieces) + [p]
    ensures WellFormed(p) ==> !Protected(Scan(st, p).flags)
  {
    if StructuralText(p) {
      assert p[..0] == "" && p == [p[0]];
      assert Scan(st, p) == Step(Scan(st, ""), p[0]);
    } else {
      ScanUnbroken(st, p);
    }
  }

  lemma ScanSpace(st: State)
    requires !Protected(st.flags)
    ensures Scan(st, " ") == State("", NO_FLAGS, Flushed(st), st.charNo + 1)
  {
    assert " "[..0] == "";
    assert Scan(st, " ") == Step(Scan(st, ""), ' ');
  }

  ghost predicate PrintsBack(printed: string, ps: seq<string>) {
    Texts(Flushed(Scan(START, printed))) == ps
  }

  ghost predicate EndsClosed(printed: string) { !Protected(Scan(START, printed).flags) }

  lemma PrintOneMore(printed: string, init: seq<string>, last: string)
    requires PrintsBack(printed, init) && EndsClosed(printed) && MayEnd(last)
    ensures PrintsBack(printed + " " + last, init + [last])
    ensures WellFormed(last) ==> EndsClosed(printed + " " + last)
  {
    ScanConcat(START, printed, " ");
    ScanSpace(Scan(START, printed));
    ScanConcat(START, printed + " ", last);
    ScanPiece(Scan(START, printed + " "), last);
  }

  lemma PrintOne(p: string)
    requires MayEnd(p)
    ensures PrintsBack(p, [p])
    ensures WellFormed(p) ==> EndsClosed(p)
  {
    ScanPiece(START, p);
  }

  lemma {:induction false} ClosedPiecesPrintBack(ps: seq<string>)
    requires ps != [] && AllWellFormed(ps)
    ensures PrintsBack(Joined(ps), ps) && EndsClosed(Joined(ps))
  {
    var init, last := ps[..|ps| - 1], ps[|ps| - 1];
    assert ps == init + [last] && WellFormed(last) && MayEnd(last);
    if init == [] {
      PrintOne(last);
    } else {
      ClosedPiecesPrintBack(init);
      PrintOneMore(Joined(init), init, last);
    }
  }

  lemma PiecesPrintBack(ps: seq<string>)
    requires WellFormedList(ps)
    ensures PrintsBack(Joined(ps), ps)
  {
    if ps != [] {
      var init, last := ps[..|ps| - 1], ps[|ps| - 1];
      assert ps == init + [last];
      if init == [] {
        PrintOne(last);
      } else {
        ClosedPiecesPrintBack(init);
        PrintOneMore(Joined(init), init, last);
      }
    }
  }

  // the converse: what the tokenizer emits is well formed

  ghost predicate ScanWellFormed(st: State) {
    && (forall i :: 0 <= i < |st.pieces| ==> WellFormed(st.pieces[i].text))
    && st.flags == FlagsAfter(st.buffer)
    && (st.buffer != "" ==> Unbroken(st.buffer))
  }

  lemma UnbrokenGrows(buffer: string, c: char)
    requires buffer == "" || Unbroken(buffer)
    requires Protected(FlagsAfter(buffer)) || !(IsSpace(c) || IsStructural(c))
    ensures Unbroken(buffer + [c]) && FlagsAfter(buffer + [c]) == Update(FlagsAfter(buffer), buffer + [c])
  {
    var p := buffer + [c];
    assert p[..|buffer|] == buffer;
    forall k | 0 <= k < |p| ensures Protected(FlagsAfter(p[..k])) || !(IsSpace(p[k]) || IsStructural(p[k])) {
      if k < |buffer| { assert p[..k] == buffer[..k]; }
    }
  }

  lemma {:induction false} EmittedAreWellFormed(str: string)
    ensures ScanWellFormed(Scan(START, str))
  {
    if str != "" {
      EmittedAreWellFormed(str[..|str| - 1]);
      var st, c := Scan(START, str[..|str| - 1]), str[|str| - 1];
      if (IsSpace(c) || IsStructural(c)) && !Protected(st.flags) {
        assert st.flags == NO_FLAGS;
      } else {
        UnbrokenGrows(st.buffer, c);
      }
    }
  }

  /** Printing a list of pieces with single spaces and tokenizing the print gives
      the list back exactly when every piece is well formed, except that the last
      may be left open. */
  lemma PrintThenTokenizeIff(ps: seq<string>)
    ensures Texts(Pieces(Joined(ps))) == ps <==> WellFormedList(ps)
  {
    if WellFormedList(ps) { PiecesPrintBack(ps); }
    EmittedAreWellFormed(Joined(ps));
    if Texts(Pieces(Joined(ps))) == ps { EmittedList(Joined(ps)); }
  }

  lemma EmittedList(str: string)
    ensures WellFormedList(Texts(Pieces(str)))
  {
    EmittedAreWellFormed(str);
    var st, ps := Scan(START, str), Texts(Pieces(str));
    if ps != [] {
      forall i | 0 <= i < |ps| - 1 ensures WellFormed(ps[i]) { assert ps[i] == st.pieces[i].text; }
    }
  }

  /** For every input, tokenizing the print of its pieces finds the same pieces. */
  lemma TokenizingIsStable(str: string)
    ensures Texts(Pieces(Joined(Texts(Pieces(str))))) == Texts(Pieces(str))
  {
    EmittedList(str);
    PrintThenTokenizeIff(Texts(Pieces(str)));
  }

  // ---------- the kinds of piece the grammar uses ----------

  predicate StartsWith(p: string, prefix: string) {
    |prefix| <= |p| && forall i :: 0 <= i < |prefix| ==> p[i] == prefix[i]
  }

  predicate Has(s: string, c: char) { c in s }

  /** The last of two bracket characters in s is the opening one. */
  function LeftOpen(s: string, open: char, close: char): bool {
    if s == "" then false
    else if s[|s| - 1] == open then true
    else if s[|s| - 1] == close then false
    else LeftOpen(s[..|s| - 1], open, close)
  }

  function OddQuotes(s: string): bool {
    if s == "" then false else OddQuotes(s[..|s| - 1]) != (s[|s| - 1] == '"')
  }

  /** Quotes and brackets are tracked independently of everything else. */
  lemma {:induction false} FlagsAre(p: string)
    ensures FlagsAfter(p).quoted == OddQuotes(p)
    ensures FlagsAfter(p).square == LeftOpen(p, '[', ']')
    ensures FlagsAfter(p).triangle == LeftOpen(p, '<', '>')
  {
    if p != "" { FlagsAre(p[..|p| - 1]); }
  }

  predicate Keyword(p: string) { StartsWith(p, "NEW") || StartsWith(p, "FILTER") }

  /** A piece that begins like a keyword waits for a closing parenthesis. */
  lemma {:induction false} FilterIs(p: string)
    ensures FlagsAfter(p).filter <==> Keyword(p) && !Has(p, ')')
  {
    if p != "" {
      var init := p[..|p| - 1];
      FilterIs(init);
      assert Has(p, ')') <==> Has(init, ')') || p[|p| - 1] == ')';
      if |p| == 3 && StartsWith(p, "NEW") { assert p == "NEW"; }
      if |p| == 6 && StartsWith(p, "FILTER") { assert p == "FILTER"; }
    }
  }

  lemma {:induction false} NothingOpen(p: string)
    requires !Has(p, '"') && !Has(p, '[') && !Has(p, '<')
    ensures !OddQuotes(p) && !LeftOpen(p, '[', ']') && !LeftOpen(p, '<', '>')
  {
    if p != "" { NothingOpen(p[..|p| - 1]); }
  }

  /** Keywords, variables, numbers, dates and entity references: a word without
      quotes, opening brackets, whitespace and structural characters survives
      exactly unless it begins like NEW or FILTER and is never closed. */
  lemma WordIsWellFormedIff(p: string)
    requires p != "" && forall i :: 0 <= i < |p| ==> !IsSpace(p[i]) && !IsStructural(p[i])
    requires !Has(p, '"') && !Has(p, '[') && !Has(p, '<')
    ensures WellFormed(p) <==> !Keyword(p) || Has(p, ')')
  {
    FlagsAre(p);
    FilterIs(p);
    NothingOpen(p);
  }

  /** What begins like NEW or FILTER and is never closed swallows whatever follows. */
  lemma KeywordSwallows(p: string, q: string)
    requires Keyword(p) && !Has(p, ')')
    ensures Texts(Pieces(Joined([p, q]))) != [p, q]
  {
    FilterIs(p);
    assert !WellFormed(p);
    assert [p, q][..1] == [p] && [p][0] == p;
    PrintThenTokenizeIff([p, q]);
  }

  /** A string literal survives exactly when its text leaves no bracket open. */
  lemma QuotedIsWellFormedIff(body: string)
    requires !Has(body, '"')
    ensures WellFormed("\"" + body + "\"") <==> !LeftOpen(body, '[', ']') && !LeftOpen(body, '<', '>')
  {
    var p := "\"" + body + "\"";
    assert p[..|p| - 1] == "\"" + body;
    QuotedInside(body);
    FlagsAre(p);
    FlagsAre("\"" + body);
    FilterIs(p);
    forall k | 0 <= k < |p| ensures Protected(FlagsAfter(p[..k])) || !(IsSpace(p[k]) || IsStructural(p[k])) {
      if 0 < k <= |body| {
        assert p[..k] == "\"" + body[..k - 1];
        QuotedInside(body[..k - 1]);
        FlagsAre(p[..k]);
      }
    }
  }

  lemma {:induction false} QuotedInside(body: string)
    requires !Has(body, '"')
    ensures OddQuotes("\"" + body)
    ensures LeftOpen("\"" + body, '[', ']') == LeftOpen(body, '[', ']')
    ensures LeftOpen("\"" + body, '<', '>') == LeftOpen(body, '<', '>')
  {
    var p := "\"" + body;
    if body == "" {
      assert p == "\"" && p[..0] == "";
    } else {
      assert p[..|p| - 1] == "\"" + body[..|body| - 1];
      QuotedInside(body[..|body| - 1]);
    }
  }

  lemma {:induction false} BracketedInside(open: char, close: char, body: string)
    requires (open == '[' && close == ']') || (open == '<' && close == '>')
    requires !Has(body, close)
    ensures LeftOpen([open] + body, open, close)
  {
    var p := [open] + body;
    if body != "" {
      assert p[..|p| - 1] == [open] + body[..|body| - 1];
      BracketedInside(open, close, body[..|body| - 1]);
    }
  }

  /** Property names in angle brackets and confidences in square ones survive
      exactly when their text closes its quotes and the other kind of bracket. */
  lemma BracketedIsWellFormedIff(open: char, close: char, body: string)
    requires (open == '[' && close == ']') || (open == '<' && close == '>')
    requires !Has(body, close)
    ensures WellFormed([open] + body + [close])
       <==> !OddQuotes(body) && !LeftOpen(body, if open == '[' then '<' else '[', if open == '[' then '>' else ']')
  {
    var p := [open] + body + [close];
    assert p[..|p| - 1] == [open] + body;
    FlagsAre(p);
    FilterIs(p);
    assert p[0] == open;
    OthersInside(open, if open == '[' then '<' else '[', if open == '[' then '>' else ']', body);
    forall k | 0 <= k < |p| ensures Protected(FlagsAfter(p[..k])) || !(IsSpace(p[k]) || IsStructural(p[k])) {
      if 0 < k <= |body| {
        assert p[..k] == [open] + body[..k - 1];
        BracketedInside(open, close, body[..k - 1]);
        FlagsAre(p[..k]);
      }
    }
  }

  /** A bracket in front does not matter to quotes and to other brackets. */
  lemma {:induction false} OthersInside(first: char, open: char, close: char, body: string)
    requires first != '"' && first != open && first != close
    ensures OddQuotes([first] + body) == OddQuotes(body)
    ensures LeftOpen([first] + body, open, close) == LeftOpen(body, open, close)
  {
    var p := [first] + body;
    if body == "" {
      assert p[..|p| - 1] == "";
    } else {
      assert p[..|p| - 1] == [first] + body[..|body| - 1];
      OthersInside(first, open, close, body[..|body| - 1]);
    }
  }

  // ---------- the loop ----------

  lemma ScanNothing(str: string)
    ensures Scan(START, str[..0]) == START
  {
  }

  lemma ScanLonger(str: string, i: nat)
    requires i < |str|
    ensures Scan(START, str[..i + 1]) == Step(Scan(START, str[..i]), str[i])
  {
    assert str[..i + 1][..i] == str[..i];
  }

  method Tokenize(str: string) returns (results: seq<Piece>)
    ensures results == Pieces(str)
  {
    results := [];
    var buffer := "";
    var speechMarks, squareBrackets, triangleBrackets, filter := false, false, false, false;
    var charNo := 0;
    hide Scan;
    ScanNothing(str);
    for i := 0 to |str|
      invariant charNo == i
      invariant State(buffer, Flags(speechMarks, squareBrackets, triangleBrackets, filter), results, charNo)
             == Scan(START, str[..i])
    {
      ScanLonger(str, i);
      var c := str[i];
      var isProtected := speechMarks || squareBrackets || triangleBrackets || filter;
      if IsSpace(c) && !isProtected {
        if |buffer| > 0 {
          results := results + [Piece(buffer, Wrapped(charNo - |buffer|))];
          buffer := "";
        }
      } else if IsStructural(c) && !isProtected {
        if |buffer| > 0 {
          results := results + [Piece(buffer, Wrapped(charNo - |buffer|))];
        }
        buffer := [c];
        results := results + [Piece(buffer, Wrapped(charNo - |buffer|))];
        buffer := "";
      } else {
        buffer := buffer + [c];
        if buffer == "FILTER" || buffer == "NEW" { filter := true; }
        if filter && c == ')' { filter := false; }
        if c == '"' { speechMarks := !speechMarks; }
        if c == '[' && !squareBrackets { squareBrackets := true; }
        if c == ']' && squareBrackets { squareBrackets := false; }
        if c == '<' && !triangleBrackets { triangleBrackets := true; }
        if c == '>' && triangleBrackets { triangleBrackets := false; }
      }
      charNo := charNo + 1;
    }
    assert str[..|str|] == str;
    if |buffer| > 0 {
      results := results + [Piece(buffer, Wrapped(charNo - |buffer|))];
    }
  }

  // ---------- which characters separate ----------

  predicate LowerCase(w: string) { w != "" && forall i :: 0 <= i < |w| ==> 'a' <= w[i] <= 'z' }

  /** Starts with a letter that no keyword has, and opens nothing. */
  predicate OpensNothing(p: string) {
    p != "" && 'a' <= p[0] <= 'z' && forall i :: 0 <= i < |p| ==> p[i] != '"' && p[i] != '[' && p[i] != '<'
  }

  lemma {:induction false} NoFlagsAfter(p: string)
    requires p == "" || OpensNothing(p)
    ensures FlagsAfter(p) == NO_FLAGS
  {
    if p != "" {
      NoFlagsAfter(p[..|p| - 1]);
      assert "FILTER"[0] == 'F' && "NEW"[0] == 'N';
    }
  }

  lemma PlainIsUnbroken(p: string)
    requires OpensNothing(p) && forall i :: 0 <= i < |p| ==> !(p[i] == '\n' || p[i] == ' ' || p[i] == '\t')
    requires forall i :: 0 <= i < |p| ==> !(p[i] == '{' || p[i] == '}' || p[i] == ';' || p[i] == ',' || p[i] == '.')
    ensures Unbroken(p)
  {
    hide FlagsAfter;
  }

  /** Between two words five characters are pieces of their own, three only separate,
      and any other that opens nothing joins them to one. */
  lemma SeparatorsAre(w: string, c: char, w': string)
    requires LowerCase(w) && LowerCase(w') && c != '"' && c != '[' && c != '<'
    ensures Texts(Pieces(w + [c] + w')) ==
      if c == '{' || c == '}' || c == ';' || c == ',' || c == '.' then [w, [c], w']
      else if c == ' ' || c == '\n' || c == '\t' then [w, w']
      else [w + [c] + w']
  {
    if c == '{' || c == '}' || c == ';' || c == ',' || c == '.' || c == ' ' || c == '\n' || c == '\t' {
      WordsApart(w, c, w');
    } else {
      WordsTogether(w + [c] + w');
    }
  }

  lemma WordsTogether(whole: string)
    requires OpensNothing(whole) && forall i :: 0 <= i < |whole| ==> !(whole[i] == '\n' || whole[i] == ' ' || whole[i] == '\t')
    requires forall i :: 0 <= i < |whole| ==> !(whole[i] == '{' || whole[i] == '}' || whole[i] == ';' || whole[i] == ',' || whole[i] == '.')
    ensures Texts(Pieces(whole)) == [whole]
  {
    hide Unbroken, Scan, FlagsAfter;
    PlainIsUnbroken(whole);
    NoFlagsAfter(whole);
    ScanUnbroken(START, whole);
    TextsAre(Pieces(whole), [whole]);
  }

  predicate Apart(c: char) {
    c == '{' || c == '}' || c == ';' || c == ',' || c == '.' || c == ' ' || c == '\n' || c == '\t'
  }

  function Between(c: char): seq<string> { if c == ' ' || c == '\n' || c == '\t' then [] else [[c]] }

  lemma EndsWord(w: string, c: char)
    requires w != "" && Apart(c)
    ensures var st := Step(State(w, NO_FLAGS, [], |w|), c);
      st.buffer == "" && st.flags == NO_FLAGS && |st.pieces| == 1 + |Between(c)| && st.pieces[0].text == w
      && (Between(c) != [] ==> st.pieces[1].text == Between(c)[0])
  {
  }

  lemma WordIsPlain(w: string)
    requires LowerCase(w)
    ensures w != "" && Unbroken(w) && FlagsAfter(w) == NO_FLAGS
  {
    NoFlagsAfter(w);
    PlainIsUnbroken(w);
    hide Unbroken, FlagsAfter;
  }

  lemma ThenWord(st: State, w: string)
    requires st.buffer == "" && st.flags == NO_FLAGS && LowerCase(w)
    ensures var r := Flushed(Scan(st, w)); |r| == |st.pieces| + 1 && r[..|st.pieces|] == st.pieces && r[|st.pieces|].text == w
  {
    hide Unbroken, Scan, FlagsAfter, LowerCase;
    WordIsPlain(w);
    ScanUnbroken(st, w);
  }

  lemma FirstWord(w: string, c: char)
    requires LowerCase(w)
    ensures w != "" && Scan(START, w + [c]) == Step(State(w, NO_FLAGS, [], |w|), c)
  {
    hide Unbroken, LowerCase, Scan, FlagsAfter, Step;
    WordIsPlain(w);
    ScanUnbroken(START, w);
    OneStep(START, w, c);
  }

  lemma WordsApart(w: string, c: char, w': string)
    requires LowerCase(w) && LowerCase(w') && Apart(c)
    ensures Texts(Pieces(w + [c] + w')) == [w] + Between(c) + [w']
  {
    hide LowerCase, Scan, Step, Flushed, Apart;
    var st, start := Step(State(w, NO_FLAGS, [], |w|), c), w + [c];
    FirstWord(w, c);
    EndsWord(w, c);
    ScanConcat(START, start, w');
    ThenWord(st, w');
    TextsInOrder(Pieces(start + w'), st.pieces, w, Between(c), w');
  }

  lemma TextsInOrder(pieces: seq<Piece>, before: seq<Piece>, w: string, between: seq<string>, w': string)
    requires |pieces| == |before| + 1 && pieces[..|before|] == before && pieces[|before|].text == w'
    requires |before| == 1 + |between| && before[0].text == w && |between| <= 1 && (between != [] ==> before[1].text == between[0])
    ensures Texts(pieces) == [w] + between + [w']
  {
    TextsAre(pieces, [w] + between + [w']);
  }

  lemma TextsAre(pieces: seq<Piece>, ws: seq<string>)
    requires |pieces| == |ws| && forall i :: 0 <= i < |ws| ==> pieces[i].text == ws[i]
    ensures Texts(pieces) == ws
  {
    assert forall i :: 0 <= i < |ws| ==> Texts(pieces)[i] == ws[i];
  }
}
