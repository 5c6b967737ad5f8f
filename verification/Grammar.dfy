/** Which token lists are a block of triples: every token has a place in which its
    kind may stand, and the places follow one another as the grammar has them. */
module Grammar {
  import opened TripleParser

  // ---------- places ----------

  datatype Place =
    | SubjectPlace | PredicatePlace | RatingPlace | ObjectPlace | FilterPlace | NewPlace
    | MetaPlace | MetaNamePlace | MetaBracePlace | ClosePlace | SeparatorPlace | BehindPlace

  /** The tokens that may stand in a place. Behind a complete triple any may, but for
      braces that close, separators, and the keywords taken for separators. */
  predicate Belongs(t: Token, p: Place, valid: (string, string) -> bool) {
    match p
    case SubjectPlace => t.kind == EntityRef || t.kind == Variable
    case PredicatePlace => t.kind == PropertyName || t.kind == Variable
    case RatingPlace => t.kind == ConfidenceRating && RatingFits(t.text)
    case ObjectPlace => ObjectToken(t)
    case FilterPlace => t.kind == Filter && valid(t.data0, t.text)
    case NewPlace => t.kind == NewEntity
    case MetaPlace => t.kind == Keyword(0x26)
    case MetaNamePlace => t.kind == Variable
    case MetaBracePlace => t.kind == OpenCurlBrace
    case ClosePlace => t.kind == CloseCurlBrace
    case SeparatorPlace => IsSeparator(t)
    case BehindPlace =>
      t.kind != CloseCurlBrace && !IsSeparator(t) && (t.kind.Keyword? ==> (t.kind.code / 16) % 2 == 0)
  }

  predicate ObjectToken(t: Token) { t.kind == StringLiteral || t.kind == Variable || t.kind == Int || t.kind == EntityRef || t.kind == Date }

  predicate RatingFits(rating: string) { rating == "" || (DigitsValue(rating).Some? && DigitsValue(rating).value <= 100) }

  predicate IsSeparator(t: Token) { t.kind == Splitter1 || t.kind == Splitter2 || t.kind == Splitter3 }

  /** A rating has a value exactly if it is made of digits. */
  lemma {:induction false} DigitsAreNumbers(s: string)
    ensures DigitsValue(s).Some? <==> forall i :: 0 <= i < |s| ==> '0' <= s[i] <= '9'
  {
    if s != "" { DigitsAreNumbers(s[..|s| - 1]); }
  }

  /** What is expected between two tokens. */
  datatype Expected = NextClause | NextPredicate | NextObject | NextRated | NextMetaName | NextMetaBrace | Complete

  function ExpectedAfter(t: Token, p: Place): Expected {
    match p
    case SubjectPlace => NextPredicate
    case PredicatePlace => NextObject
    case RatingPlace => NextRated
    case MetaPlace => NextMetaName
    case MetaNamePlace => NextMetaBrace
    case MetaBracePlace => NextClause
    case SeparatorPlace => if t.kind == Splitter1 then NextClause else if t.kind == Splitter2 then NextPredicate else NextObject
    case _ => Complete
  }

  predicate MayStand(p: Place, e: Expected) {
    match p
    case SubjectPlace => e == NextClause
    case FilterPlace => e == NextClause
    case NewPlace => e == NextClause
    case MetaPlace => e == NextClause
    case PredicatePlace => e == NextPredicate
    case RatingPlace => e == NextObject
    case ObjectPlace => e == NextObject || e == NextRated
    case MetaNamePlace => e == NextMetaName
    case MetaBracePlace => e == NextMetaBrace
    case ClosePlace => e == Complete
    case BehindPlace => e == Complete
    case SeparatorPlace => Whole(e)
  }

  /** Nothing that was begun is missing its rest. */
  predicate Whole(e: Expected) { e != NextRated && e != NextMetaName && e != NextMetaBrace }

  function ExpectedAt(ts: seq<Token>, places: seq<Place>): Expected
    requires |places| <= |ts|
  {
    if places == [] then NextClause else ExpectedAfter(ts[|places| - 1], places[|places| - 1])
  }

  /** A META scope has been opened and not closed. */
  predicate InMeta(places: seq<Place>) {
    places != [] && (places[|places| - 1] == MetaBracePlace || (places[|places| - 1] != ClosePlace && InMeta(places[..|places| - 1])))
  }

  /** The place fits the ones before: scopes do not nest, only a scope is closed, and
      an object has a subject and a predicate somewhere before it. */
  predicate Fits(places: seq<Place>, p: Place) {
    match p
    case MetaPlace => !InMeta(places)
    case ClosePlace => InMeta(places)
    case ObjectPlace => SubjectPlace in places && PredicatePlace in places
    case _ => true
  }

  predicate Placed(ts: seq<Token>, places: seq<Place>, valid: (string, string) -> bool, i: nat)
    requires i < |places| <= |ts|
  {
    Belongs(ts[i], places[i], valid) && MayStand(places[i], ExpectedAt(ts, places[..i])) && Fits(places[..i], places[i])
  }

  /** The first tokens of the list stand in these places. */
  predicate WellPlaced(ts: seq<Token>, places: seq<Place>, valid: (string, string) -> bool) {
    |places| <= |ts| && forall i :: 0 <= i < |places| ==> Placed(ts, places, valid, i)
  }

  /** The places reach to the end of the list, or to a brace that closes the block. */
  predicate Reach(ts: seq<Token>, places: seq<Place>)
    requires |places| <= |ts|
  {
    if |places| == |ts| then Whole(ExpectedAt(ts, places))
    else ts[|places|].kind == CloseCurlBrace && ExpectedAt(ts, places) == Complete && !InMeta(places)
  }

  ghost predicate IsBlock(ts: seq<Token>, places: seq<Place>, valid: (string, string) -> bool) {
    WellPlaced(ts, places, valid) && Reach(ts, places)
  }

  // ---------- what the tokens say ----------

  function Last(places: seq<Place>, ps: set<Place>): (r: Option<nat>)
    ensures r.Some? ==> r.value < |places| && places[r.value] in ps
    ensures r.None? ==> forall p :: p in ps ==> p !in places
  {
    if places == [] then None
    else if places[|places| - 1] in ps then Some(|places| - 1)
    else Last(places[..|places| - 1], ps)
  }

  /** The text of the last token in one of these places. */
  function TextOf(ts: seq<Token>, places: seq<Place>, ps: set<Place>): string
    requires |places| <= |ts|
  {
    match Last(places, ps)
    case None => ""
    case Some(i) => ts[i].text
  }

  const SUBJECTS := {SubjectPlace}

  /** The clauses that overwrite the text of the subject, and the subject itself. */
  const SUBJECT_TEXTS := {SubjectPlace, FilterPlace, NewPlace, MetaPlace}

  const PREDICATES := {PredicatePlace}

  const META_NAMES := {MetaNamePlace}

  function SubjectRead(ts: seq<Token>, places: seq<Place>): Option<SubjectType>
    requires |places| <= |ts|
  {
    match Last(places, SUBJECTS)
    case None => None
    case Some(i) => Some(if ts[i].kind == EntityRef then EntitySubject else VariableSubject)
  }

  function PredicateRead(ts: seq<Token>, places: seq<Place>): Option<PredicateType>
    requires |places| <= |ts|
  {
    match Last(places, PREDICATES)
    case None => None
    case Some(i) => Some(if ts[i].kind == PropertyName then PropertyPredicate else VariablePredicate)
  }

  /** The rating in front of an object. */
  function RatingRead(ts: seq<Token>, places: seq<Place>): Option<nat>
    requires |places| <= |ts|
  {
    if places != [] && places[|places| - 1] == RatingPlace && ts[|places| - 1].text != "" then DigitsValue(ts[|places| - 1].text) else None
  }

  function KindRead(t: Token): ObjectType {
    if t.kind == StringLiteral then StringObject
    else if t.kind == Variable then VariableObject
    else if t.kind == Int then IntObject
    else if t.kind == EntityRef then EntityObject
    else DateObject
  }

  /** The triple of an object that stands behind these places. */
  function TripleRead(ts: seq<Token>, places: seq<Place>): Triple
    requires |places| < |ts| && Fits(places, ObjectPlace)
  {
    var t := ts[|places|];
    Triple(SubjectRead(ts, places).value, TextOf(ts, places, SUBJECT_TEXTS),
           PredicateRead(ts, places).value, TextOf(ts, places, PREDICATES),
           Object(KindRead(t), t.text, RatingRead(ts, places)),
           if InMeta(places) then TextOf(ts, places, META_NAMES) else "")
  }

  /** The block that the tokens in these places say. */
  function BlockRead(ts: seq<Token>, places: seq<Place>): Block
    requires |places| <= |ts|
  {
    if places == [] then Block([], [], {}, {}, {})
    else
      var init := places[..|places| - 1];
      var b, t := BlockRead(ts, init), ts[|init|];
      match places[|init|]
      case SubjectPlace => if t.kind == Variable then b.(variables := b.variables + {t.text}) else b
      case PredicatePlace => if t.kind == Variable then b.(variables := b.variables + {t.text}) else b
      case ObjectPlace =>
        b.(triples := if Fits(init, ObjectPlace) then b.triples + [TripleRead(ts, init)] else b.triples,
           variables := if t.kind == Variable then b.variables + {t.text} else b.variables)
      case FilterPlace => b.(filters := b.filters + [(t.data0, t.text)])
      case NewPlace => b.(newEntities := b.newEntities + {(t.text, t.data0)})
      case MetaNamePlace => b.(variables := b.variables + {t.text}, metaVariables := b.metaVariables + {t.text})
      case _ => b
  }

  // ---------- the parser keeps to the places ----------

  ghost function PosOf(e: Expected): nat {
    match e
    case NextClause => 0
    case NextMetaName => 0
    case NextMetaBrace => 0
    case NextPredicate => 1
    case NextObject => 2
    case NextRated => 2
    case Complete => 3
  }

  /** Where the parser stands behind these places. */
  ghost function StateAt(ts: seq<Token>, places: seq<Place>): State
    requires |places| <= |ts|
  {
    State(BlockRead(ts, places), PosOf(ExpectedAt(ts, places)), SubjectRead(ts, places), TextOf(ts, places, SUBJECT_TEXTS),
          PredicateRead(ts, places), TextOf(ts, places, PREDICATES), InMeta(places), TextOf(ts, places, META_NAMES))
  }

  lemma LastGrows(places: seq<Place>, p: Place, ps: set<Place>)
    ensures Last(places + [p], ps) == if p in ps then Some(|places|) else Last(places, ps)
  {
    assert (places + [p])[..|places|] == places;
  }

  /** One place more. */
  ghost function Grown(st: State, t: Token, p: Place, rating: Option<nat>): State
    requires p == ObjectPlace ==> st.subType.Some? && st.predType.Some?
  {
    var pos := PosOf(ExpectedAfter(t, p));
    match p
    case SubjectPlace =>
      st.(pos := pos, subType := Some(if t.kind == EntityRef then EntitySubject else VariableSubject), sub := t.text,
          block := AddVariables(st.block, Names(t.kind == Variable, t.text)))
    case PredicatePlace =>
      st.(pos := pos, predType := Some(if t.kind == PropertyName then PropertyPredicate else VariablePredicate), pred := t.text,
          block := AddVariables(st.block, Names(t.kind == Variable, t.text)))
    case ObjectPlace => WithObject(st, Object(KindRead(t), t.text, rating))
    case FilterPlace => st.(pos := pos, sub := t.text, block := st.block.(filters := st.block.filters + [(t.data0, t.text)]))
    case NewPlace => st.(pos := pos, sub := t.text, block := st.block.(newEntities := st.block.newEntities + {(t.text, t.data0)}))
    case MetaPlace => st.(pos := pos, sub := t.text)
    case MetaNamePlace =>
      st.(pos := pos, currentMetaVar := t.text,
          block := AddVariables(st.block, {t.text}).(metaVariables := st.block.metaVariables + {t.text}))
    case MetaBracePlace => st.(pos := pos, inMetaBlock := true)
    case ClosePlace => st.(pos := pos, inMetaBlock := false)
    case _ => st.(pos := pos)
  }

  lemma BlockGrows(ts: seq<Token>, places: seq<Place>, p: Place)
    requires |places| < |ts| && Fits(places, p)
    ensures BlockRead(ts, places + [p]) == Grown(StateAt(ts, places), ts[|places|], p, RatingRead(ts, places)).block
  {
    assert (places + [p])[..|places|] == places;
    assert AddVariables(BlockRead(ts, places), {}) == BlockRead(ts, places);
    hide Last, TextOf, SubjectRead, PredicateRead, RatingRead, KindRead, ExpectedAt, ExpectedAfter, InMeta;
  }

  lemma ReadsGrow(ts: seq<Token>, places: seq<Place>, p: Place)
    requires |places| < |ts|
    ensures var t, all := ts[|places|], places + [p];
      && SubjectRead(ts, all) == (if p == SubjectPlace then Some(if t.kind == EntityRef then EntitySubject else VariableSubject) else SubjectRead(ts, places))
      && PredicateRead(ts, all) == (if p == PredicatePlace then Some(if t.kind == PropertyName then PropertyPredicate else VariablePredicate) else PredicateRead(ts, places))
      && InMeta(all) == (p == MetaBracePlace || (p != ClosePlace && InMeta(places)))
      && ExpectedAt(ts, all) == ExpectedAfter(t, p)
  {
    assert (places + [p])[..|places|] == places;
    LastGrows(places, p, SUBJECTS);
    LastGrows(places, p, PREDICATES);
    hide Last, ExpectedAfter;
  }

  lemma TextGrows(ts: seq<Token>, places: seq<Place>, p: Place, ps: set<Place>)
    requires |places| < |ts|
    ensures TextOf(ts, places + [p], ps) == if p in ps then ts[|places|].text else TextOf(ts, places, ps)
  {
    LastGrows(places, p, ps);
    hide Last;
  }

  lemma StateGrows(ts: seq<Token>, places: seq<Place>, p: Place)
    requires |places| < |ts| && Fits(places, p)
    ensures StateAt(ts, places + [p]) == Grown(StateAt(ts, places), ts[|places|], p, RatingRead(ts, places))
  {
    BlockGrows(ts, places, p);
    ReadsGrow(ts, places, p);
    TextGrows(ts, places, p, SUBJECT_TEXTS);
    TextGrows(ts, places, p, PREDICATES);
    TextGrows(ts, places, p, META_NAMES);
    FitsIsReady(ts, places, p);
    hide BlockRead, KindRead, TextOf, SubjectRead, PredicateRead, InMeta, ExpectedAt, ExpectedAfter, Fits;
  }

  // ---------- one turn of the loop ----------

  /** The places that one turn deals with: an object with its rating and the head of
      a META scope are dealt with at once. */
  ghost predicate Turn(ts: seq<Token>, places: seq<Place>, more: seq<Place>, valid: (string, string) -> bool) {
    && more != [] && WellPlaced(ts, places + more, valid)
    && (|more| == 1 || (|more| == 2 && more[0] == RatingPlace) || (|more| == 3 && more[0] == MetaPlace))
    && Whole(ExpectedAt(ts, places)) && Whole(ExpectedAt(ts, places + more))
  }

  /** What the parser makes of tokens in a place where one turn needs only one. */
  lemma OneMove(ts: seq<Token>, at: nat, st: State, p: Place, e: Expected, valid: (string, string) -> bool)
    requires at < |ts| && Belongs(ts[at], p, valid) && MayStand(p, e) && st.pos == PosOf(e) && Whole(e)
    requires p != RatingPlace && p != MetaPlace && p != MetaNamePlace && p != MetaBracePlace
    requires p == ObjectPlace ==> st.subType.Some? && st.predType.Some?
    requires p == ClosePlace ==> st.inMetaBlock
    ensures Next(ts[at..], st, valid) == Go(1, Grown(st, ts[at], p, None))
  {
    assert ts[at..][0] == ts[at];
    assert AddVariables(st.block, {}) == st.block;
    hide DigitsValue;
  }

  lemma RatedMove(ts: seq<Token>, at: nat, st: State, valid: (string, string) -> bool)
    requires at + 1 < |ts| && Belongs(ts[at], RatingPlace, valid) && Belongs(ts[at + 1], ObjectPlace, valid) && st.pos == 2
    requires st.subType.Some? && st.predType.Some?
    ensures Next(ts[at..], st, valid)
         == Go(2, Grown(st, ts[at + 1], ObjectPlace, if ts[at].text == "" then None else DigitsValue(ts[at].text)))
  {
    assert ts[at..][0] == ts[at] && ts[at..][1] == ts[at + 1];
    hide DigitsValue;
  }

  lemma MetaMoves(ts: seq<Token>, at: nat, st: State, valid: (string, string) -> bool)
    requires at + 2 < |ts| && Belongs(ts[at], MetaPlace, valid) && Belongs(ts[at + 1], MetaNamePlace, valid)
    requires Belongs(ts[at + 2], MetaBracePlace, valid) && st.pos == 0 && !st.inMetaBlock
    ensures var named := Grown(Grown(st, ts[at], MetaPlace, None), ts[at + 1], MetaNamePlace, None);
      Next(ts[at..], st, valid) == Go(3, Grown(named, ts[at + 2], MetaBracePlace, None))
  {
    assert ts[at..][0] == ts[at] && ts[at..][1] == ts[at + 1] && ts[at..][2] == ts[at + 2];
    hide DigitsValue;
  }

  lemma WholeIsUnrated(ts: seq<Token>, places: seq<Place>)
    requires |places| <= |ts| && Whole(ExpectedAt(ts, places))
    ensures RatingRead(ts, places) == None
  {
  }

  /** A place that fits finds the parser in the state for it. */
  lemma FitsIsReady(ts: seq<Token>, places: seq<Place>, p: Place)
    requires |places| <= |ts| && Fits(places, p)
    ensures p == ObjectPlace ==> StateAt(ts, places).subType.Some? && StateAt(ts, places).predType.Some?
    ensures p == ClosePlace ==> StateAt(ts, places).inMetaBlock
    ensures p == MetaPlace ==> !StateAt(ts, places).inMetaBlock
  {
    hide InMeta, BlockRead, TextOf;
  }

  lemma PlacedNext(ts: seq<Token>, places: seq<Place>, more: seq<Place>, valid: (string, string) -> bool, i: nat)
    requires WellPlaced(ts, places + more, valid) && i < |more|
    ensures |places| + i < |ts| && Belongs(ts[|places| + i], more[i], valid)
    ensures MayStand(more[i], ExpectedAt(ts, places + more[..i])) && Fits(places + more[..i], more[i])
  {
    hide Belongs, MayStand, Fits, ExpectedAt;
    assert Placed(ts, places + more, valid, |places| + i);
    assert (places + more)[..|places| + i] == places + more[..i];
  }

  lemma StateStands(ts: seq<Token>, places: seq<Place>)
    requires |places| <= |ts|
    ensures StateAt(ts, places).pos == PosOf(ExpectedAt(ts, places))
  {
  }

  lemma OneTurn(ts: seq<Token>, places: seq<Place>, more: seq<Place>, valid: (string, string) -> bool)
    requires Turn(ts, places, more, valid) && |more| == 1
    ensures Next(ts[|places|..], StateAt(ts, places), valid) == Go(1, StateAt(ts, places + more))
  {
    PlacedNext(ts, places, more, valid, 0);
    assert more[..0] == [] && places + [] == places && more == [more[0]];
    WholeIsUnrated(ts, places);
    FitsIsReady(ts, places, more[0]);
    StateGrows(ts, places, more[0]);
    assert ExpectedAt(ts, places + more) == ExpectedAfter(ts[|places|], more[0]);
    StateStands(ts, places);
    hide Belongs, Fits, StateAt, Next, Grown, RatingRead;
    OneMove(ts, |places|, StateAt(ts, places), more[0], ExpectedAt(ts, places), valid);
  }

  /** The state behind an object with its rating. */
  lemma RatedGrows(ts: seq<Token>, places: seq<Place>)
    requires |places| + 1 < |ts| && Fits(places, ObjectPlace) && Fits(places + [RatingPlace], ObjectPlace)
    ensures var st := StateAt(ts, places); st.subType.Some? && st.predType.Some?
    ensures StateAt(ts, places + [RatingPlace, ObjectPlace])
         == Grown(StateAt(ts, places), ts[|places| + 1], ObjectPlace, if ts[|places|].text == "" then None else DigitsValue(ts[|places|].text))
  {
    var rated := places + [RatingPlace];
    assert places + [RatingPlace, ObjectPlace] == rated + [ObjectPlace];
    StateGrows(ts, places, RatingPlace);
    StateGrows(ts, rated, ObjectPlace);
    FitsIsReady(ts, places, ObjectPlace);
    FitsIsReady(ts, rated, ObjectPlace);
    hide StateAt, DigitsValue, KindRead;
  }

  lemma RatedTurn(ts: seq<Token>, places: seq<Place>, more: seq<Place>, valid: (string, string) -> bool)
    requires Turn(ts, places, more, valid) && |more| == 2
    ensures Next(ts[|places|..], StateAt(ts, places), valid) == Go(2, StateAt(ts, places + more))
  {
    hide Belongs, BlockRead, Next, InMeta, TextOf, SubjectRead, PredicateRead, DigitsValue, Grown, RatingRead, WellPlaced;
    PlacedNext(ts, places, more, valid, 0);
    PlacedNext(ts, places, more, valid, 1);
    assert more[..0] == [] && places + [] == places && more[..1] == [RatingPlace];
    PlaceAdded(ts, places, RatingPlace);
    assert more == [RatingPlace, ObjectPlace];
    assert Fits(places, ObjectPlace) by { assert forall p :: p in places + [RatingPlace] && p != RatingPlace ==> p in places; }
    RatedGrows(ts, places);
    RatedMove(ts, |places|, StateAt(ts, places), valid);
  }

  /** The state behind the head of a META scope. */
  lemma MetaGrows(ts: seq<Token>, places: seq<Place>)
    requires |places| + 2 < |ts| && Fits(places, MetaPlace)
    ensures var st := StateAt(ts, places);
      var named := Grown(Grown(st, ts[|places|], MetaPlace, None), ts[|places| + 1], MetaNamePlace, None);
      StateAt(ts, places + [MetaPlace, MetaNamePlace, MetaBracePlace]) == Grown(named, ts[|places| + 2], MetaBracePlace, None)
  {
    var head := places + [MetaPlace];
    var named := head + [MetaNamePlace];
    assert places + [MetaPlace, MetaNamePlace, MetaBracePlace] == named + [MetaBracePlace];
    StateGrows(ts, places, MetaPlace);
    StateGrows(ts, head, MetaNamePlace);
    StateGrows(ts, named, MetaBracePlace);
    hide Grown, RatingRead, StateAt;
    GrownIgnoresRating(StateAt(ts, places), ts[|places|], MetaPlace, RatingRead(ts, places));
    GrownIgnoresRating(StateAt(ts, head), ts[|head|], MetaNamePlace, RatingRead(ts, head));
    GrownIgnoresRating(StateAt(ts, named), ts[|named|], MetaBracePlace, RatingRead(ts, named));
  }

  lemma MetaTurn(ts: seq<Token>, places: seq<Place>, more: seq<Place>, valid: (string, string) -> bool)
    requires Turn(ts, places, more, valid) && |more| == 3
    ensures Next(ts[|places|..], StateAt(ts, places), valid) == Go(3, StateAt(ts, places + more))
  {
    hide Belongs, Fits, BlockRead, Next, InMeta, TextOf, SubjectRead, PredicateRead, Grown, RatingRead, WellPlaced;
    PlacedNext(ts, places, more, valid, 0);
    PlacedNext(ts, places, more, valid, 1);
    PlacedNext(ts, places, more, valid, 2);
    assert more[..0] == [] && places + [] == places && more[..1] == [MetaPlace] && more[..2] == [MetaPlace, more[1]];
    PlaceAdded(ts, places, MetaPlace);
    assert more[1] == MetaNamePlace;
    PlaceAdded(ts, places + [MetaPlace], MetaNamePlace);
    assert places + [MetaPlace] + [MetaNamePlace] == places + more[..2];
    assert more == [MetaPlace, MetaNamePlace, MetaBracePlace];
    FitsIsReady(ts, places, MetaPlace);
    MetaGrows(ts, places);
    MetaMoves(ts, |places|, StateAt(ts, places), valid);
  }

  lemma PlaceAdded(ts: seq<Token>, places: seq<Place>, p: Place)
    requires |places| < |ts|
    ensures ExpectedAt(ts, places + [p]) == ExpectedAfter(ts[|places|], p)
  {
  }

  lemma GrownIgnoresRating(st: State, t: Token, p: Place, rating: Option<nat>)
    requires p != ObjectPlace
    ensures Grown(st, t, p, rating) == Grown(st, t, p, None)
  {
  }

  lemma TurnMoves(ts: seq<Token>, places: seq<Place>, more: seq<Place>, valid: (string, string) -> bool)
    requires Turn(ts, places, more, valid)
    ensures Next(ts[|places|..], StateAt(ts, places), valid) == Go(|more|, StateAt(ts, places + more))
  {
    hide Next, StateAt, WellPlaced, Whole, ExpectedAt;
    if |more| == 1 { OneTurn(ts, places, more, valid); }
    else if |more| == 2 { RatedTurn(ts, places, more, valid); }
    else { MetaTurn(ts, places, more, valid); }
  }

  // ---------- every block parses ----------

  /** The places of the next turn. */
  lemma NextTurn(ts: seq<Token>, places: seq<Place>, valid: (string, string) -> bool, i: nat) returns (n: nat)
    requires WellPlaced(ts, places, valid) && i < |places| && Whole(ExpectedAt(ts, places[..i])) && Whole(ExpectedAt(ts, places))
    ensures i < n <= |places| <= |ts| && Turn(ts, places[..i], places[i..n], valid) && places[..i] + places[i..n] == places[..n]
  {
    assert places[..|places|] == places;
    assert Placed(ts, places, valid, i);
    n := if places[i] == RatingPlace then i + 2 else if places[i] == MetaPlace then i + 3 else i + 1;
    if i + 1 < |places| { assert Placed(ts, places, valid, i + 1); }
    if i + 2 < |places| { assert Placed(ts, places, valid, i + 2); }
    hide Fits, Belongs;
    assert places[..i] + places[i..n] == places[..n];
    StartIsPlaced(ts, places, valid, n);
    assert places[..n][n - 1] == places[n - 1];
  }

  lemma StartIsPlaced(ts: seq<Token>, places: seq<Place>, valid: (string, string) -> bool, n: nat)
    requires WellPlaced(ts, places, valid) && n <= |places|
    ensures WellPlaced(ts, places[..n], valid)
  {
    hide Belongs, MayStand, Fits, ExpectedAt;
    forall i | 0 <= i < n ensures Placed(ts, places[..n], valid, i) {
      assert Placed(ts, places, valid, i);
      assert places[..n][..i] == places[..i];
    }
  }

  lemma {:induction false} PlacesParse(ts: seq<Token>, places: seq<Place>, valid: (string, string) -> bool, i: nat)
    requires WellPlaced(ts, places, valid) && i <= |places| && Whole(ExpectedAt(ts, places[..i])) && Whole(ExpectedAt(ts, places))
    ensures Parse(ts[i..], StateAt(ts, places[..i]), valid) == Parse(ts[|places|..], StateAt(ts, places), valid)
    decreases |places| - i
  {
    hide Parse, StateAt, WellPlaced, Whole, ExpectedAt, Next;
    if i == |places| {
      assert places[..i] == places;
    } else {
      var n := NextTurn(ts, places, valid, i);
      TurnMoves(ts, places[..i], places[i..n], valid);
      WholeIsLater(ts, places, valid, i, n);
      ParseMoves(ts[i..], StateAt(ts, places[..i]), valid);
      assert ts[i..][n - i..] == ts[n..];
      PlacesParse(ts, places, valid, n);
    }
  }

  lemma WholeIsLater(ts: seq<Token>, places: seq<Place>, valid: (string, string) -> bool, i: nat, n: nat)
    requires i < n <= |places| <= |ts| && Turn(ts, places[..i], places[i..n], valid) && places[..i] + places[i..n] == places[..n]
    ensures Whole(ExpectedAt(ts, places[..n]))
  {
    hide WellPlaced, ExpectedAt, Whole;
  }

  lemma StopsWhereTheyEnd(ts: seq<Token>, places: seq<Place>, valid: (string, string) -> bool)
    requires |places| <= |ts| && Reach(ts, places)
    ensures Parse(ts[|places|..], StateAt(ts, places), valid) == Parsed(BlockRead(ts, places), ts[|places|..])
  {
    hide BlockRead, SubjectRead, PredicateRead, TextOf, InMeta, ExpectedAt;
    if |places| < |ts| { assert ts[|places|..][0] == ts[|places|]; }
  }

  /** A block is parsed to what its tokens say, up to where their places reach. */
  lemma BlockParses(ts: seq<Token>, places: seq<Place>, valid: (string, string) -> bool)
    requires IsBlock(ts, places, valid)
    ensures ParseTriples(ts, valid) == Parsed(BlockRead(ts, places), ts[|places|..])
  {
    hide Parse, BlockRead, Placed, ExpectedAt;
    assert ts[0..] == ts && places[..0] == [];
    ReachIsWhole(ts, places);
    StartIsWhole(ts);
    PlacesParse(ts, places, valid, 0);
    StartsThere(ts);
    StopsWhereTheyEnd(ts, places, valid);
  }

  lemma ReachIsWhole(ts: seq<Token>, places: seq<Place>)
    requires |places| <= |ts| && Reach(ts, places)
    ensures Whole(ExpectedAt(ts, places))
  {
  }

  lemma StartIsWhole(ts: seq<Token>)
    ensures Whole(ExpectedAt(ts, []))
  {
  }

  lemma StartsThere(ts: seq<Token>)
    ensures StateAt(ts, []) == START
  {
  }

  // ---------- nothing else does ----------

  /** A token that the parser takes by itself has a place. */
  lemma TokenHasPlace(ts: seq<Token>, at: nat, st: State, e: Expected, valid: (string, string) -> bool) returns (p: Place)
    requires at < |ts| && Whole(e) && st.pos == PosOf(e) && Next(ts[at..], st, valid).Go?
    requires ts[at].kind == CloseCurlBrace || HasSplitterBit(ts[at].kind)
      || (e == NextClause && !ts[at].kind.Keyword?) || e == NextPredicate || (e == NextObject && ts[at].kind != ConfidenceRating) || e == Complete
    ensures Belongs(ts[at], p, valid) && MayStand(p, e) && Whole(ExpectedAfter(ts[at], p)) && p != MetaBracePlace
    ensures p == ClosePlace ==> st.inMetaBlock
    ensures p == ObjectPlace ==> st.subType.Some? && st.predType.Some?
  {
    var t := ts[at];
    assert ts[at..][0] == t;
    hide DigitsValue;
    p :=
      if t.kind == CloseCurlBrace then ClosePlace
      else if IsSeparator(t) then SeparatorPlace
      else if e == NextClause then
        (match t.kind
         case Filter => FilterPlace
         case NewEntity => NewPlace
         case _ => SubjectPlace)
      else if e == NextPredicate then PredicatePlace
      else if e == NextObject then ObjectPlace
      else BehindPlace;
  }

  lemma RatedHasPlaces(ts: seq<Token>, at: nat, st: State, valid: (string, string) -> bool)
    requires at < |ts| && st.pos == 2 && Next(ts[at..], st, valid).Go? && ts[at].kind == ConfidenceRating
    ensures at + 1 < |ts| && Belongs(ts[at], RatingPlace, valid) && Belongs(ts[at + 1], ObjectPlace, valid)
    ensures st.subType.Some? && st.predType.Some?
  {
    assert ts[at..][0] == ts[at] && (at + 1 < |ts| ==> ts[at..][1] == ts[at + 1]);
    hide DigitsValue;
  }

  lemma MetaHasPlaces(ts: seq<Token>, at: nat, st: State, valid: (string, string) -> bool)
    requires at < |ts| && st.pos == 0 && Next(ts[at..], st, valid).Go? && ts[at].kind.Keyword? && !HasSplitterBit(ts[at].kind)
    ensures at + 2 < |ts| && Belongs(ts[at], MetaPlace, valid) && Belongs(ts[at + 1], MetaNamePlace, valid)
    ensures Belongs(ts[at + 2], MetaBracePlace, valid) && !st.inMetaBlock
  {
    assert ts[at..][0] == ts[at] && (at + 1 < |ts| ==> ts[at..][1] == ts[at + 1]) && (at + 2 < |ts| ==> ts[at..][2] == ts[at + 2]);
    hide DigitsValue;
  }

  /** What the state says of the places before. */
  lemma ReadyFits(ts: seq<Token>, places: seq<Place>)
    requires |places| <= |ts|
    ensures var st := StateAt(ts, places);
      && (st.subType.Some? && st.predType.Some? ==> Fits(places, ObjectPlace))
      && (st.inMetaBlock <==> Fits(places, ClosePlace)) && (!st.inMetaBlock <==> Fits(places, MetaPlace))
  {
    hide InMeta, BlockRead, TextOf;
  }

  /** Tokens that the parser takes in one turn have places. */
  lemma MoveHasPlaces(ts: seq<Token>, places: seq<Place>, valid: (string, string) -> bool) returns (more: seq<Place>)
    requires WellPlaced(ts, places, valid) && |places| < |ts| && Whole(ExpectedAt(ts, places))
    requires Next(ts[|places|..], StateAt(ts, places), valid).Go?
    ensures Turn(ts, places, more, valid)
  {
    var at, st, e := |places|, StateAt(ts, places), ExpectedAt(ts, places);
    ReadyFits(ts, places);
    hide Next, Placed, InMeta, BlockRead, TextOf, SubjectRead, PredicateRead, HasSplitterBit, Belongs;
    if e == NextClause && ts[at].kind.Keyword? && !HasSplitterBit(ts[at].kind) {
      MetaHasPlaces(ts, at, st, valid);
      more := [MetaPlace, MetaNamePlace, MetaBracePlace];
      PlaceMeta(ts, places, valid);
    } else if e == NextObject && ts[at].kind == ConfidenceRating {
      RatedHasPlaces(ts, at, st, valid);
      more := [RatingPlace, ObjectPlace];
      PlaceRated(ts, places, valid);
    } else {
      var p := TokenHasPlace(ts, at, st, e, valid);
      more := [p];
      PlaceOne(ts, places, p, valid);
      PlaceAdded(ts, places, p);
    }
  }

  lemma PlaceOne(ts: seq<Token>, places: seq<Place>, p: Place, valid: (string, string) -> bool)
    requires WellPlaced(ts, places, valid) && |places| < |ts|
    requires Belongs(ts[|places|], p, valid) && MayStand(p, ExpectedAt(ts, places)) && Fits(places, p)
    ensures WellPlaced(ts, places + [p], valid)
  {
    hide Belongs, MayStand, Fits, ExpectedAt;
    var all := places + [p];
    forall i | 0 <= i < |all| ensures Placed(ts, all, valid, i) {
      assert all[..i] == places[..i];
      if i < |places| { assert Placed(ts, places, valid, i); } else { assert places[..i] == places; }
    }
  }

  lemma PlaceRated(ts: seq<Token>, places: seq<Place>, valid: (string, string) -> bool)
    requires WellPlaced(ts, places, valid) && |places| + 1 < |ts| && ExpectedAt(ts, places) == NextObject && Fits(places, ObjectPlace)
    requires Belongs(ts[|places|], RatingPlace, valid) && Belongs(ts[|places| + 1], ObjectPlace, valid)
    ensures WellPlaced(ts, places + [RatingPlace, ObjectPlace], valid) && ExpectedAt(ts, places + [RatingPlace, ObjectPlace]) == Complete
  {
    var rated := places + [RatingPlace];
    PlaceAdded(ts, places, RatingPlace);
    PlaceAdded(ts, rated, ObjectPlace);
    assert rated + [ObjectPlace] == places + [RatingPlace, ObjectPlace];
    hide Belongs, ExpectedAt, WellPlaced;
    PlaceOne(ts, places, RatingPlace, valid);
    PlaceOne(ts, rated, ObjectPlace, valid);
  }

  lemma PlaceMeta(ts: seq<Token>, places: seq<Place>, valid: (string, string) -> bool)
    requires WellPlaced(ts, places, valid) && |places| + 2 < |ts| && ExpectedAt(ts, places) == NextClause && Fits(places, MetaPlace)
    requires Belongs(ts[|places|], MetaPlace, valid) && Belongs(ts[|places| + 1], MetaNamePlace, valid)
    requires Belongs(ts[|places| + 2], MetaBracePlace, valid)
    ensures var all := places + [MetaPlace, MetaNamePlace, MetaBracePlace]; WellPlaced(ts, all, valid) && ExpectedAt(ts, all) == NextClause
  {
    var head := places + [MetaPlace];
    var named := head + [MetaNamePlace];
    PlaceAdded(ts, places, MetaPlace);
    PlaceAdded(ts, head, MetaNamePlace);
    PlaceAdded(ts, named, MetaBracePlace);
    assert named + [MetaBracePlace] == places + [MetaPlace, MetaNamePlace, MetaBracePlace];
    hide Belongs, ExpectedAt, WellPlaced;
    PlaceOne(ts, places, MetaPlace, valid);
    PlaceOne(ts, head, MetaNamePlace, valid);
    PlaceOne(ts, named, MetaBracePlace, valid);
  }

  lemma StopIsReach(ts: seq<Token>, places: seq<Place>, valid: (string, string) -> bool)
    requires |places| < |ts| && Whole(ExpectedAt(ts, places))
    requires Next(ts[|places|..], StateAt(ts, places), valid).Stop? && Next(ts[|places|..], StateAt(ts, places), valid).result.Parsed?
    ensures Reach(ts, places)
  {
    assert ts[|places|..][0] == ts[|places|];
    hide BlockRead, TextOf, SubjectRead, PredicateRead, InMeta, DigitsValue;
  }

  /** From any places on, what the parser accepts has places to where it stops. */
  lemma {:induction false} ParsedHasPlaces(ts: seq<Token>, places: seq<Place>, valid: (string, string) -> bool) returns (all: seq<Place>)
    requires WellPlaced(ts, places, valid) && Whole(ExpectedAt(ts, places)) && Parse(ts[|places|..], StateAt(ts, places), valid).Parsed?
    ensures IsBlock(ts, all, valid)
    decreases |ts| - |places|
  {
    hide Placed, ExpectedAt, Whole, Next, StateAt, Parse;
    all := places;
    if |places| < |ts| {
      var rest := ts[|places|..];
      ParseTurn(rest, StateAt(ts, places), valid);
      if Next(rest, StateAt(ts, places), valid).Go? {
        var more := MoveHasPlaces(ts, places, valid);
        TurnMoves(ts, places, more, valid);
        assert rest[|more|..] == ts[|places + more|..];
        all := ParsedHasPlaces(ts, places + more, valid);
      } else {
        StopIsReach(ts, places, valid);
      }
    } else {
      EndIsReach(ts, places);
    }
  }

  lemma EndIsReach(ts: seq<Token>, places: seq<Place>)
    requires |places| == |ts| && Whole(ExpectedAt(ts, places))
    ensures Reach(ts, places)
  {
  }

  /** The parse of a list succeeds exactly if its tokens have places, and then it is
      what they say: there is no other block, and nothing that is none is let in. */
  lemma ParsesIffBlock(ts: seq<Token>, valid: (string, string) -> bool)
    ensures ParseTriples(ts, valid).Parsed? <==> exists places :: IsBlock(ts, places, valid)
    ensures forall places :: IsBlock(ts, places, valid) ==> ParseTriples(ts, valid) == Parsed(BlockRead(ts, places), ts[|places|..])
  {
    hide Parse, StateAt, Placed, BlockRead, ExpectedAt;
    forall places | IsBlock(ts, places, valid) ensures ParseTriples(ts, valid) == Parsed(BlockRead(ts, places), ts[|places|..]) {
      BlockParses(ts, places, valid);
    }
    if ParseTriples(ts, valid).Parsed? {
      StartsThere(ts);
      StartIsWhole(ts);
      assert ts[0..] == ts;
      var places := ParsedHasPlaces(ts, [], valid);
    }
  }

  /** A result that is right about a list: it is a success exactly if the tokens have
      places, and then says what they do. */
  ghost predicate ReadsAs(ts: seq<Token>, valid: (string, string) -> bool, r: ParseResult) {
    && (r.Parsed? <==> exists places :: IsBlock(ts, places, valid))
    && forall places :: IsBlock(ts, places, valid) ==> r == Parsed(BlockRead(ts, places), ts[|places|..])
  }

  lemma ParseReads(ts: seq<Token>, valid: (string, string) -> bool)
    ensures ReadsAs(ts, valid, Parse(ts, START, valid))
  {
    hide Parse, Placed, BlockRead, Reach, WellPlaced;
    ParsesIffBlock(ts, valid);
  }

  /** An opening brace, a block, and the brace that closes it. */
  ghost predicate IsInsert(ts: seq<Token>, places: seq<Place>, valid: (string, string) -> bool) {
    ts != [] && ts[0].kind == OpenCurlBrace && IsBlock(ts[1..], places, valid) && |places| < |ts| - 1
  }

  lemma InsertParses(ts: seq<Token>, places: seq<Place>, valid: (string, string) -> bool)
    requires IsInsert(ts, places, valid)
    ensures ts[|places| + 1].kind == CloseCurlBrace && ParseInsert(ts, valid) == Parsed(BlockRead(ts[1..], places), ts[|places| + 2..])
  {
    hide ParseTriples, Placed, BlockRead, ExpectedAt, InMeta;
    BlockParses(ts[1..], places, valid);
    assert ts[1..][|places|] == ts[|places| + 1] && ts[1..][|places|..] == ts[|places| + 1..] && ts[|places| + 1..][1..] == ts[|places| + 2..];
  }

  lemma InsertHasPlaces(ts: seq<Token>, valid: (string, string) -> bool) returns (places: seq<Place>)
    requires ParseInsert(ts, valid).Parsed?
    ensures IsInsert(ts, places, valid)
  {
    hide ParseTriples, Placed, BlockRead, ExpectedAt, InMeta;
    ParsesIffBlock(ts[1..], valid);
    places :| IsBlock(ts[1..], places, valid);
    BlockParses(ts[1..], places, valid);
    assert |ts[1..][|places|..]| > 0;
  }

  /** So it is with an INSERT. */
  lemma InsertParsesIff(ts: seq<Token>, valid: (string, string) -> bool)
    ensures ParseInsert(ts, valid).Parsed? <==> exists places :: IsInsert(ts, places, valid)
    ensures forall places :: IsInsert(ts, places, valid) ==>
      ts[|places| + 1].kind == CloseCurlBrace && ParseInsert(ts, valid) == Parsed(BlockRead(ts[1..], places), ts[|places| + 2..])
  {
    hide ParseInsert, IsBlock, BlockRead;
    if ParseInsert(ts, valid).Parsed? { var places := InsertHasPlaces(ts, valid); }
    forall places | IsInsert(ts, places, valid)
      ensures ts[|places| + 1].kind == CloseCurlBrace && ParseInsert(ts, valid) == Parsed(BlockRead(ts[1..], places), ts[|places| + 2..])
    {
      InsertParses(ts, places, valid);
    }
  }

  // ---------- how the others fail ----------

  predicate Readable(rating: string) {
    rating == "" || (DigitsValue(rating).Some? && DigitsValue(rating).value < 0x1_0000_0000_0000_0000)
  }

  /** An object behind a rating that is no number, or too large for one. */
  predicate Unread(ts: seq<Token>, places: seq<Place>)
    requires |places| <= |ts|
  {
    var at := |places|;
    && at + 1 < |ts| && ExpectedAt(ts, places) == NextObject
    && ts[at].kind == ConfidenceRating && !Readable(ts[at].text) && ObjectToken(ts[at + 1])
  }

  /** The tokens end behind a rating or within the head of a META scope, or an object
      lacks a subject or a predicate. */
  predicate Unfinished(ts: seq<Token>, places: seq<Place>)
    requires |places| <= |ts|
  {
    var at, e := |places|, ExpectedAt(ts, places);
    at < |ts| &&
    ((e == NextObject && ts[at].kind == ConfidenceRating && at + 1 == |ts|)
     || (e == NextObject && !Fits(places, ObjectPlace) && ObjectToken(ts[at]))
     || (e == NextObject && !Fits(places, ObjectPlace) && at + 1 < |ts| && ts[at].kind == ConfidenceRating && ObjectToken(ts[at + 1])
         && RatingFits(ts[at].text))
     || (e == NextClause && ts[at].kind == Keyword(0x26) && !InMeta(places)
         && (at + 1 == |ts| || (ts[at + 1].kind == Variable && at + 2 == |ts|))))
  }

  lemma ObjectMoveFails(rest: seq<Token>, st: State)
    requires rest != []
    ensures ObjectMove(rest, st) == Stop(Undefined) <==>
      if rest[0].kind == ConfidenceRating
      then |rest| == 1 || (ObjectToken(rest[1]) && RatingFits(rest[0].text) && (st.subType.None? || st.predType.None?))
      else ObjectToken(rest[0]) && (st.subType.None? || st.predType.None?)
    ensures ObjectMove(rest, st) == Stop(NumberException) <==>
      |rest| > 1 && rest[0].kind == ConfidenceRating && !Readable(rest[0].text) && ObjectToken(rest[1])
  {
    hide DigitsValue, WithObject;
  }

  /** At an object the parser looks for braces and separators first. */
  lemma NextAtObject(rest: seq<Token>, st: State, valid: (string, string) -> bool)
    requires rest != [] && st.pos == 2
    ensures if rest[0].kind == CloseCurlBrace || HasSplitterBit(rest[0].kind)
      then Next(rest, st, valid) != Stop(Undefined) && Next(rest, st, valid) != Stop(NumberException)
      else Next(rest, st, valid) == ObjectMove(rest, st)
  {
    hide ObjectMove;
  }

  lemma AtObjectFails(ts: seq<Token>, places: seq<Place>, valid: (string, string) -> bool)
    requires |places| < |ts| && ExpectedAt(ts, places) == NextObject
    ensures Next(ts[|places|..], StateAt(ts, places), valid) == Stop(Undefined) <==> Unfinished(ts, places)
    ensures Next(ts[|places|..], StateAt(ts, places), valid) == Stop(NumberException) <==> Unread(ts, places)
  {
    var rest := ts[|places|..];
    assert rest[0] == ts[|places|] && (|rest| > 1 ==> rest[1] == ts[|places| + 1]);
    ReadyFits(ts, places);
    if Fits(places, ObjectPlace) { FitsIsReady(ts, places, ObjectPlace); }
    StateStands(ts, places);
    hide Next, StateAt, Fits, ObjectMove, ExpectedAt, RatingFits, Readable;
    NextAtObject(rest, StateAt(ts, places), valid);
    ObjectMoveFails(rest, StateAt(ts, places));
  }

  lemma UnreadStops(ts: seq<Token>, places: seq<Place>, valid: (string, string) -> bool)
    requires |places| < |ts| && Whole(ExpectedAt(ts, places))
    ensures Next(ts[|places|..], StateAt(ts, places), valid) == Stop(NumberException) <==> Unread(ts, places)
  {
    if ExpectedAt(ts, places) == NextObject {
      hide *;
      AtObjectFails(ts, places, valid);
    } else {
      StateStands(ts, places);
      hide StateAt, ExpectedAt, AddVariables;
    }
  }

  lemma ClauseUnfinished(ts: seq<Token>, places: seq<Place>, valid: (string, string) -> bool)
    requires |places| < |ts| && ExpectedAt(ts, places) == NextClause
    ensures Next(ts[|places|..], StateAt(ts, places), valid) == Stop(Undefined) <==> Unfinished(ts, places)
  {
    var rest := ts[|places|..];
    assert rest[0] == ts[|places|] && (|rest| > 1 ==> rest[1] == ts[|places| + 1]) && (|rest| > 2 ==> rest[2] == ts[|places| + 2]);
    hide BlockRead, TextOf, SubjectRead, PredicateRead, InMeta, ExpectedAt, AddVariables;
  }

  lemma UnfinishedStops(ts: seq<Token>, places: seq<Place>, valid: (string, string) -> bool)
    requires |places| < |ts| && Whole(ExpectedAt(ts, places))
    ensures Next(ts[|places|..], StateAt(ts, places), valid) == Stop(Undefined) <==> Unfinished(ts, places)
  {
    var e := ExpectedAt(ts, places);
    if e == NextObject {
      hide *;
      AtObjectFails(ts, places, valid);
    } else if e == NextClause {
      hide *;
      ClauseUnfinished(ts, places, valid);
    } else {
      assert ts[|places|..][0] == ts[|places|];
      hide BlockRead, TextOf, SubjectRead, PredicateRead, InMeta, ExpectedAt, AddVariables, Fits;
    }
  }

  /** A parse that does not succeed stops somewhere behind places that fit. */
  lemma {:induction false} FailedStops(ts: seq<Token>, places: seq<Place>, valid: (string, string) -> bool) returns (all: seq<Place>)
    requires WellPlaced(ts, places, valid) && Whole(ExpectedAt(ts, places)) && !Parse(ts[|places|..], StateAt(ts, places), valid).Parsed?
    ensures WellPlaced(ts, all, valid) && |all| < |ts| && Whole(ExpectedAt(ts, all))
    ensures Next(ts[|all|..], StateAt(ts, all), valid) == Stop(Parse(ts[|places|..], StateAt(ts, places), valid))
    decreases |ts| - |places|
  {
    hide Placed, ExpectedAt, Whole, Next, StateAt, Parse;
    var rest := ts[|places|..];
    if rest == [] { ParseEnd(StateAt(ts, places), valid); }
    ParseTurn(rest, StateAt(ts, places), valid);
    all := places;
    if Next(rest, StateAt(ts, places), valid).Go? {
      var more := MoveHasPlaces(ts, places, valid);
      TurnMoves(ts, places, more, valid);
      assert rest[|more|..] == ts[|places + more|..];
      all := FailedStops(ts, places + more, valid);
    }
  }

  lemma StoppedFails(ts: seq<Token>, places: seq<Place>, valid: (string, string) -> bool)
    requires WellPlaced(ts, places, valid) && |places| < |ts| && Whole(ExpectedAt(ts, places))
    requires Next(ts[|places|..], StateAt(ts, places), valid).Stop?
    ensures Next(ts[|places|..], StateAt(ts, places), valid) == Stop(ParseTriples(ts, valid))
  {
    hide Parse, StateAt, Placed, ExpectedAt, Whole, Next;
    assert ts[0..] == ts && places[..0] == [];
    StartsThere(ts);
    StartIsWhole(ts);
    PlacesParse(ts, places, valid, 0);
    ParseTurn(ts[|places|..], StateAt(ts, places), valid);
  }

  /** Behind places that fit, and with nothing begun left unfinished. */
  ghost predicate Reached(ts: seq<Token>, places: seq<Place>, valid: (string, string) -> bool) {
    WellPlaced(ts, places, valid) && |places| < |ts| && Whole(ExpectedAt(ts, places))
  }

  /** The exception for numbers is thrown exactly for ratings that cannot be read, and
      the behaviour is undefined exactly where something begun has no rest; whatever
      else is no block is rejected. */
  lemma FailsIff(ts: seq<Token>, valid: (string, string) -> bool)
    ensures ParseTriples(ts, valid) == NumberException <==> exists places :: Reached(ts, places, valid) && Unread(ts, places)
    ensures ParseTriples(ts, valid) == Undefined <==> exists places :: Reached(ts, places, valid) && Unfinished(ts, places)
  {
    hide Parse, StateAt, WellPlaced, ExpectedAt, Whole, Next, Unread, Unfinished;
    if !ParseTriples(ts, valid).Parsed? {
      var places := FailureAt(ts, valid);
      UnreadStops(ts, places, valid);
      UnfinishedStops(ts, places, valid);
    }
    forall places | Reached(ts, places, valid) && Unread(ts, places) ensures ParseTriples(ts, valid) == NumberException {
      UnreadStops(ts, places, valid);
      StoppedFails(ts, places, valid);
    }
    forall places | Reached(ts, places, valid) && Unfinished(ts, places) ensures ParseTriples(ts, valid) == Undefined {
      UnfinishedStops(ts, places, valid);
      StoppedFails(ts, places, valid);
    }
  }

  lemma FailureAt(ts: seq<Token>, valid: (string, string) -> bool) returns (places: seq<Place>)
    requires !ParseTriples(ts, valid).Parsed?
    ensures Reached(ts, places, valid) && Next(ts[|places|..], StateAt(ts, places), valid) == Stop(ParseTriples(ts, valid))
  {
    hide Parse, StateAt, Placed, ExpectedAt, Whole, Next;
    StartsThere(ts);
    StartIsWhole(ts);
    assert ts[0..] == ts;
    places := FailedStops(ts, [], valid);
  }
}
