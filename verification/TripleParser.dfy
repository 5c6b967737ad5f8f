/** Parsing a block of triples: a four-position state machine with the
    abbreviations ; and , and with META scopes. */
module TripleParser {

  datatype Option<T> = None | Some(value: T)

  /** Keyword codes are the enumeration's numbers, 0x20 to 0x38. */
  datatype TokenType =
    | Variable | StringLiteral | Int | NotImplemented | PropertyName | EntityRef | ConfidenceRating | Date
    | OpenCurlBrace | CloseCurlBrace | Filter | NewEntity
    | Keyword(code: nat) | Splitter1 | Splitter2 | Splitter3

  datatype Token = Token(kind: TokenType, text: string, data0: string)

  const META := Keyword(0x26)

  datatype SubjectType = EntitySubject | VariableSubject
  datatype PredicateType = PropertyPredicate | VariablePredicate
  datatype ObjectType = StringObject | VariableObject | IntObject | EntityObject | DateObject

  datatype Object = Object(kind: ObjectType, text: string, certainty: Option<nat>)

  datatype Triple = Triple(subjectType: SubjectType, subject: string, propertyType: PredicateType, property: string,
                           obj: Object, metaVariable: string)

  datatype Block = Block(triples: seq<Triple>, filters: seq<(string, string)>, newEntities: set<(string, string)>,
                         variables: set<string>, metaVariables: set<string>)

  /** Undefined: the iterator is read past the end, or a subject or predicate
      type that was never set is used. NumberException: std::stoul throws. */
  datatype ParseResult = Parsed(block: Block, rest: seq<Token>) | ParseException | NumberException | Undefined

  /** The local variables of ParseTriples. */
  datatype State = State(block: Block, pos: nat, subType: Option<SubjectType>, sub: string,
                         predType: Option<PredicateType>, pred: string, inMetaBlock: bool, currentMetaVar: string)

  const EMPTY_BLOCK := Block([], [], {}, {}, {})

  const START := State(EMPTY_BLOCK, 0, None, "", None, "", false, "")

  /** The bit test that decides what counts as a splitter; the USER keywords and
      those after it have the bit set too. */
  predicate HasSplitterBit(t: TokenType) {
    match t
    case Splitter1 => true
    case Splitter2 => true
    case Splitter3 => true
    case Keyword(code) => (code / 16) % 2 == 1
    case _ => false
  }

  // ---------- numbers ----------

  predicate IsDigit(c: char) { '0' <= c <= '9' }

  function DigitsValue(s: string): Option<nat> {
    if s == "" then Some(0)
    else if !IsDigit(s[|s| - 1]) then None
    else match DigitsValue(s[..|s| - 1])
      case None => None
      case Some(n) => Some(10 * n + (s[|s| - 1] as int - '0' as int))
  }

  function Decimal(n: nat): string {
    if n < 10 then ['0' + n as char] else Decimal(n / 10) + ['0' + (n % 10) as char]
  }

  lemma {:induction false} DecimalReadsBack(n: nat)
    ensures Decimal(n) != "" && DigitsValue(Decimal(n)) == Some(n)
  {
    var s := Decimal(n);
    if n >= 10 {
      DecimalReadsBack(n / 10);
      assert s[..|s| - 1] == Decimal(n / 10);
    } else {
      assert s[..0] == "";
    }
  }

  // ---------- the parser ----------

  function Names(isVariable: bool, text: string): set<string> { if isVariable then {text} else {} }

  function AddVariables(b: Block, names: set<string>): Block { b.(variables := b.variables + names) }

  function ObjectTypeOf(t: TokenType): Option<ObjectType> {
    match t
    case StringLiteral => Some(StringObject)
    case Variable => Some(VariableObject)
    case Int => Some(IntObject)
    case EntityRef => Some(EntityObject)
    case Date => Some(DateObject)
    case _ => None
  }

  /** Adds the triple of the current subject and predicate with this object. */
  function WithObject(st: State, o: Object): State
    requires st.subType.Some? && st.predType.Some?
  {
    var triple := Triple(st.subType.value, st.sub, st.predType.value, st.pred, o, if st.inMetaBlock then st.currentMetaVar else "");
    st.(pos := 3, block := AddVariables(st.block, Names(o.kind == VariableObject, o.text)).(triples := st.block.triples + [triple]))
  }

  /** One turn of the loop: tokens consumed and the new variables, or the end. */
  datatype Move = Go(consumed: nat, st: State) | Stop(result: ParseResult)

  /** The head of a META block, or a keyword that is none. */
  function MetaMove(ts: seq<Token>, st: State): (m: Move)
    requires ts != []
    ensures m.Go? ==> 1 <= m.consumed <= |ts|
  {
    if ts[0].kind != META || st.inMetaBlock then Stop(ParseException)
    else if |ts| < 2 then Stop(Undefined)
    else if ts[1].kind != Variable then Stop(ParseException)
    else if |ts| < 3 then Stop(Undefined)
    else if ts[2].kind != OpenCurlBrace then Stop(ParseException)
    else
      var block := AddVariables(st.block, {ts[1].text}).(metaVariables := st.block.metaVariables + {ts[1].text});
      Go(3, st.(block := block, currentMetaVar := ts[1].text, inMetaBlock := true))
  }

  /** Position 0: a subject, a filter, a NEW or the head of a META block. */
  function SubjectMove(ts: seq<Token>, was: State, valid: (string, string) -> bool): (m: Move)
    requires ts != []
    ensures m.Go? ==> 1 <= m.consumed <= |ts|
  {
    var t := ts[0];
    var st := was.(sub := t.text);
    match t.kind
    case EntityRef => Go(1, st.(pos := 1, subType := Some(EntitySubject)))
    case Variable => Go(1, st.(pos := 1, subType := Some(VariableSubject), block := AddVariables(st.block, {t.text})))
    case Filter =>
      if !valid(t.data0, t.text) then Stop(ParseException)
      else Go(1, st.(pos := 3, block := st.block.(filters := st.block.filters + [(t.data0, t.text)])))
    case NewEntity =>
      Go(1, st.(pos := 3, block := st.block.(newEntities := st.block.newEntities + {(t.text, t.data0)})))
    case Keyword(_) => MetaMove(ts, st)
    case _ => Stop(ParseException)
  }

  /** Position 1: a property or a variable. */
  function PropertyMove(t: Token, was: State): (m: Move)
    ensures m.Go? ==> m.consumed == 1
  {
    var st := was.(pred := t.text, pos := 2);
    match t.kind
    case PropertyName => Go(1, st.(predType := Some(PropertyPredicate)))
    case Variable => Go(1, st.(predType := Some(VariablePredicate), block := AddVariables(st.block, {t.text})))
    case _ => Stop(ParseException)
  }

  /** std::stoul on a rating: none for the empty string. */
  predicate TooLarge(rating: string) {
    rating != "" && !(DigitsValue(rating).Some? && DigitsValue(rating).value < 0x1_0000_0000_0000_0000)
  }

  /** Position 2: an object, after an optional confidence rating. */
  function ObjectMove(ts: seq<Token>, st: State): (m: Move)
    requires ts != []
    ensures m.Go? ==> 1 <= m.consumed <= |ts|
  {
    var rated := ts[0].kind == ConfidenceRating;
    var rating := if rated then ts[0].text else "";
    var at := if rated then 1 else 0;
    if |ts| <= at then Stop(Undefined)
    else
      match ObjectTypeOf(ts[at].kind)
      case None => Stop(ParseException)
      case Some(kind) =>
        if TooLarge(rating) then Stop(NumberException)
        else if rating != "" && DigitsValue(rating).value > 100 then Stop(ParseException)
        else if st.subType.None? || st.predType.None? then Stop(Undefined)
        else Go(at + 1, WithObject(st, Object(kind, ts[at].text, if rating == "" then None else DigitsValue(rating))))
  }

  function Next(ts: seq<Token>, st: State, valid: (string, string) -> bool): (m: Move)
    requires ts != []
    ensures m.Go? ==> 1 <= m.consumed <= |ts|
  {
    var t := ts[0];
    if t.kind == CloseCurlBrace then
      if st.pos != 3 then Stop(ParseException)
      else if st.inMetaBlock then Go(1, st.(inMetaBlock := false))
      else Stop(Parsed(st.block, ts))
    else if HasSplitterBit(t.kind) then
      match t.kind
      case Splitter1 => Go(1, st.(pos := 0))
      case Splitter2 => Go(1, st.(pos := 1))
      case Splitter3 => Go(1, st.(pos := 2))
      case _ => Stop(ParseException)
    else if st.pos == 0 then SubjectMove(ts, st, valid)
    else if st.pos == 1 then PropertyMove(t, st)
    else if st.pos == 2 then ObjectMove(ts, st)
    else Go(1, st)
  }

  /** ParseTriples from a token list and the values of its variables.
      valid tells which filters parseFilter accepts. */
  function Parse(ts: seq<Token>, st: State, valid: (string, string) -> bool): ParseResult
    decreases |ts|
  {
    if ts == [] then Parsed(st.block, [])
    else match Next(ts, st, valid)
      case Stop(result) => result
      case Go(n, st') => Parse(ts[n..], st', valid)
  }

  function ParseTriples(ts: seq<Token>, valid: (string, string) -> bool): ParseResult {
    Parse(ts, START, valid)
  }

  /** ParseInsert: the block between braces. */
  function ParseInsert(ts: seq<Token>, valid: (string, string) -> bool): ParseResult {
    if ts == [] || ts[0].kind != OpenCurlBrace then ParseException
    else
      match ParseTriples(ts[1..], valid)
      case Parsed(block, rest) => if rest == [] || rest[0].kind != CloseCurlBrace then ParseException else Parsed(block, rest[1..])
      case failure => failure
  }

  // ---------- the grammar ----------

  datatype PredicateGroup = PredicateGroup(kind: PredicateType, text: string, objects: seq<Object>)

  datatype SubjectGroup = SubjectGroup(kind: SubjectType, text: string, groups: seq<PredicateGroup>)

  datatype Clause = Group(g: SubjectGroup) | FilterClause(name: string, description: string) | NewClause(variable: string, typeName: string)

  datatype Item = Plain(c: Clause) | MetaBlock(variable: string, body: seq<Clause>)

  predicate GoodObject(o: Object) { o.certainty.Some? ==> o.certainty.value <= 100 }

  predicate GoodPredicateGroup(p: PredicateGroup) {
    p.objects != [] && forall i :: 0 <= i < |p.objects| ==> GoodObject(p.objects[i])
  }

  predicate GoodSubjectGroup(g: SubjectGroup) {
    g.groups != [] && forall i :: 0 <= i < |g.groups| ==> GoodPredicateGroup(g.groups[i])
  }

  predicate GoodClause(c: Clause, valid: (string, string) -> bool) {
    match c
    case Group(g) => GoodSubjectGroup(g)
    case FilterClause(name, description) => valid(name, description)
    case NewClause(_, _) => true
  }

  predicate GoodClauses(cs: seq<Clause>, valid: (string, string) -> bool) {
    cs != [] && forall i :: 0 <= i < |cs| ==> GoodClause(cs[i], valid)
  }

  predicate GoodItem(it: Item, valid: (string, string) -> bool) {
    match it
    case Plain(c) => GoodClause(c, valid)
    case MetaBlock(_, body) => GoodClauses(body, valid)
  }

  predicate GoodItems(items: seq<Item>, valid: (string, string) -> bool) {
    items != [] && forall i :: 0 <= i < |items| ==> GoodItem(items[i], valid)
  }

  // ---------- its print ----------

  function Mark(kind: TokenType, text: string): Token { Token(kind, text, "") }

  function ObjectToken(kind: ObjectType): TokenType {
    match kind
    case StringObject => StringLiteral
    case VariableObject => Variable
    case IntObject => Int
    case EntityObject => EntityRef
    case DateObject => Date
  }

  function PrintObject(o: Object): seq<Token> {
    (if o.certainty.Some? then [Mark(ConfidenceRating, Decimal(o.certainty.value))] else []) + [Mark(ObjectToken(o.kind), o.text)]
  }

  function PrintObjects(os: seq<Object>): seq<Token>
    requires os != []
  {
    if |os| == 1 then PrintObject(os[0])
    else PrintObjects(os[..|os| - 1]) + [Mark(Splitter3, ",")] + PrintObject(os[|os| - 1])
  }

  function PrintPredicate(p: PredicateGroup): seq<Token>
    requires GoodPredicateGroup(p)
  {
    [Mark(if p.kind == PropertyPredicate then PropertyName else Variable, p.text)] + PrintObjects(p.objects)
  }

  function PrintPredicates(ps: seq<PredicateGroup>): seq<Token>
    requires ps != [] && forall i :: 0 <= i < |ps| ==> GoodPredicateGroup(ps[i])
  {
    if |ps| == 1 then PrintPredicate(ps[0])
    else PrintPredicates(ps[..|ps| - 1]) + [Mark(Splitter2, ";")] + PrintPredicate(ps[|ps| - 1])
  }

  function PrintClause(c: Clause, valid: (string, string) -> bool): seq<Token>
    requires GoodClause(c, valid)
  {
    match c
    case Group(g) => [Mark(if g.kind == EntitySubject then EntityRef else Variable, g.text)] + PrintPredicates(g.groups)
    case FilterClause(name, description) => [Token(Filter, description, name)]
    case NewClause(variable, typeName) => [Token(NewEntity, variable, typeName)]
  }

  function PrintClauses(cs: seq<Clause>, valid: (string, string) -> bool): seq<Token>
    requires GoodClauses(cs, valid)
  {
    if |cs| == 1 then PrintClause(cs[0], valid)
    else PrintClauses(cs[..|cs| - 1], valid) + [Mark(Splitter1, ".")] + PrintClause(cs[|cs| - 1], valid)
  }

  function PrintItem(it: Item, valid: (string, string) -> bool): seq<Token>
    requires GoodItem(it, valid)
  {
    match it
    case Plain(c) => PrintClause(c, valid)
    case MetaBlock(variable, body) =>
      [Mark(META, "META"), Mark(Variable, variable), Mark(OpenCurlBrace, "{")] + PrintClauses(body, valid) + [Mark(CloseCurlBrace, "}")]
  }

  function PrintItems(items: seq<Item>, valid: (string, string) -> bool): seq<Token>
    requires GoodItems(items, valid)
  {
    if |items| == 1 then PrintItem(items[0], valid)
    else PrintItems(items[..|items| - 1], valid) + [Mark(Splitter1, ".")] + PrintItem(items[|items| - 1], valid)
  }

  // ---------- its meaning ----------

  function Joined(a: Block, b: Block): Block {
    Block(a.triples + b.triples, a.filters + b.filters, a.newEntities + b.newEntities, a.variables + b.variables,
          a.metaVariables + b.metaVariables)
  }

  function ObjectsMean(os: seq<Object>, st: SubjectType, s: string, pt: PredicateType, p: string, meta: string): Block {
    if os == [] then EMPTY_BLOCK
    else
      var o := os[|os| - 1];
      Joined(ObjectsMean(os[..|os| - 1], st, s, pt, p, meta),
             Block([Triple(st, s, pt, p, o, meta)], [], {}, Names(o.kind == VariableObject, o.text), {}))
  }

  function PredicateMeans(p: PredicateGroup, st: SubjectType, s: string, meta: string): Block {
    AddVariables(ObjectsMean(p.objects, st, s, p.kind, p.text, meta), Names(p.kind == VariablePredicate, p.text))
  }

  function PredicatesMean(ps: seq<PredicateGroup>, st: SubjectType, s: string, meta: string): Block {
    if ps == [] then EMPTY_BLOCK
    else Joined(PredicatesMean(ps[..|ps| - 1], st, s, meta), PredicateMeans(ps[|ps| - 1], st, s, meta))
  }

  function ClauseMeans(c: Clause, meta: string): Block {
    match c
    case Group(g) => AddVariables(PredicatesMean(g.groups, g.kind, g.text, meta), Names(g.kind == VariableSubject, g.text))
    case FilterClause(name, description) => EMPTY_BLOCK.(filters := [(name, description)])
    case NewClause(variable, typeName) => EMPTY_BLOCK.(newEntities := {(variable, typeName)})
  }

  function ClausesMean(cs: seq<Clause>, meta: string): Block {
    if cs == [] then EMPTY_BLOCK else Joined(ClausesMean(cs[..|cs| - 1], meta), ClauseMeans(cs[|cs| - 1], meta))
  }

  function ItemMeans(it: Item): Block {
    match it
    case Plain(c) => ClauseMeans(c, "")
    case MetaBlock(variable, body) => Joined(EMPTY_BLOCK.(variables := {variable}, metaVariables := {variable}), ClausesMean(body, variable))
  }

  function ItemsMean(items: seq<Item>): Block {
    if items == [] then EMPTY_BLOCK else Joined(ItemsMean(items[..|items| - 1]), ItemMeans(items[|items| - 1]))
  }

  // ---------- the print parses to the meaning ----------

  /** Where the parser stands after a complete triple, filter or NEW. */
  ghost predicate Follows(st: State, st': State, added: Block) {
    && st'.pos == 3 && st'.inMetaBlock == st.inMetaBlock && st'.currentMetaVar == st.currentMetaVar
    && st'.block == Joined(st.block, added)
  }

  function MetaOf(st: State): string { if st.inMetaBlock then st.currentMetaVar else "" }

  lemma JoinedAssociative(a: Block, b: Block, c: Block)
    ensures Joined(Joined(a, b), c) == Joined(a, Joined(b, c))
  {
    assert a.triples + b.triples + c.triples == a.triples + (b.triples + c.triples);
    assert a.filters + b.filters + c.filters == a.filters + (b.filters + c.filters);
  }

  lemma JoinedEmpty(a: Block)
    ensures Joined(EMPTY_BLOCK, a) == a && Joined(a, EMPTY_BLOCK) == a
  {
    assert [] + a.triples == a.triples && [] + a.filters == a.filters;
  }

  /** After a splitter the parser goes on from the splitter's position. */
  lemma SplitterSteps(t: Token, rest: seq<Token>, st: State, valid: (string, string) -> bool)
    requires t.kind == Splitter1 || t.kind == Splitter2 || t.kind == Splitter3
    ensures Parse([t] + rest, st, valid)
         == Parse(rest, st.(pos := if t.kind == Splitter1 then 0 else if t.kind == Splitter2 then 1 else 2), valid)
  {
    assert ([t] + rest)[1..] == rest;
  }

  /** One turn of the loop. */
  lemma ParseMoves(ts: seq<Token>, st: State, valid: (string, string) -> bool)
    requires ts != [] && Next(ts, st, valid).Go?
    ensures var m := Next(ts, st, valid); Parse(ts, st, valid) == Parse(ts[m.consumed..], m.st, valid)
  {
  }

  lemma ObjectParses(o: Object, rest: seq<Token>, st: State, valid: (string, string) -> bool)
    requires GoodObject(o) && st.pos == 2 && st.subType.Some? && st.predType.Some?
    ensures Parse(PrintObject(o) + rest, st, valid) == Parse(rest, WithObject(st, o), valid)
  {
    hide Parse, Decimal, DigitsValue;
    var ts := PrintObject(o) + rest;
    ParseMoves(ts, st, valid) by { if o.certainty.Some? { DecimalReadsBack(o.certainty.value); } }
    if o.certainty.Some? {
      DecimalReadsBack(o.certainty.value);
      assert ts[2..] == rest;
    } else {
      assert ts[1..] == rest;
    }
  }

  lemma {:induction false} ObjectsParse(os: seq<Object>, rest: seq<Token>, st: State, valid: (string, string) -> bool) returns (st': State)
    requires os != [] && forall i :: 0 <= i < |os| ==> GoodObject(os[i])
    requires st.pos == 2 && st.subType.Some? && st.predType.Some?
    ensures Parse(PrintObjects(os) + rest, st, valid) == Parse(rest, st', valid)
    ensures Follows(st, st', ObjectsMean(os, st.subType.value, st.sub, st.predType.value, st.pred, MetaOf(st)))
    ensures st'.subType == st.subType && st'.sub == st.sub && st'.predType == st.predType && st'.pred == st.pred
    decreases |os|
  {
    hide Parse, PrintObject;
    var init, last := os[..|os| - 1], os[|os| - 1];
    var added := Block([Triple(st.subType.value, st.sub, st.predType.value, st.pred, last, MetaOf(st))], [], {},
                       Names(last.kind == VariableObject, last.text), {});
    if |os| == 1 {
      ObjectParses(last, rest, st, valid);
      st' := WithObject(st, last);
      JoinedEmpty(added);
      assert init == [];
    } else {
      var more := [Mark(Splitter3, ",")] + (PrintObject(last) + rest);
      var mid := ObjectsParse(init, more, st, valid);
      assert PrintObjects(os) + rest == PrintObjects(init) + more;
      SplitterSteps(Mark(Splitter3, ","), PrintObject(last) + rest, mid, valid);
      ObjectParses(last, rest, mid.(pos := 2), valid);
      st' := WithObject(mid.(pos := 2), last);
      JoinedAssociative(st.block, ObjectsMean(init, st.subType.value, st.sub, st.predType.value, st.pred, MetaOf(st)), added);
    }
  }

  lemma PredicateParses(p: PredicateGroup, rest: seq<Token>, st: State, valid: (string, string) -> bool) returns (st': State)
    requires GoodPredicateGroup(p) && st.pos == 1 && st.subType.Some?
    ensures Parse(PrintPredicate(p) + rest, st, valid) == Parse(rest, st', valid)
    ensures Follows(st, st', PredicateMeans(p, st.subType.value, st.sub, MetaOf(st)))
    ensures st'.subType == st.subType && st'.sub == st.sub
  {
    hide Parse;
    var ts := PrintPredicate(p) + rest;
    ParseMoves(ts, st, valid);
    assert ts[1..] == PrintObjects(p.objects) + rest;
    var mid := st.(pred := p.text, pos := 2, predType := Some(p.kind),
                   block := AddVariables(st.block, Names(p.kind == VariablePredicate, p.text)));
    assert AddVariables(st.block, {}) == st.block;
    st' := ObjectsParse(p.objects, rest, mid, valid);
  }

  lemma {:induction false} PredicatesParse(ps: seq<PredicateGroup>, rest: seq<Token>, st: State, valid: (string, string) -> bool) returns (st': State)
    requires ps != [] && forall i :: 0 <= i < |ps| ==> GoodPredicateGroup(ps[i])
    requires st.pos == 1 && st.subType.Some?
    ensures Parse(PrintPredicates(ps) + rest, st, valid) == Parse(rest, st', valid)
    ensures Follows(st, st', PredicatesMean(ps, st.subType.value, st.sub, MetaOf(st)))
    ensures st'.subType == st.subType && st'.sub == st.sub
    decreases |ps|
  {
    hide Parse, PredicateMeans, PrintPredicate;
    var init, last := ps[..|ps| - 1], ps[|ps| - 1];
    var added := PredicateMeans(last, st.subType.value, st.sub, MetaOf(st));
    if |ps| == 1 {
      st' := PredicateParses(last, rest, st, valid);
      JoinedEmpty(added);
      assert init == [];
    } else {
      var more := [Mark(Splitter2, ";")] + (PrintPredicate(last) + rest);
      var mid := PredicatesParse(init, more, st, valid);
      assert PrintPredicates(ps) + rest == PrintPredicates(init) + more;
      SplitterSteps(Mark(Splitter2, ";"), PrintPredicate(last) + rest, mid, valid);
      st' := PredicateParses(last, rest, mid.(pos := 1), valid);
      JoinedAssociative(st.block, PredicatesMean(init, st.subType.value, st.sub, MetaOf(st)), added);
    }
  }

  lemma GroupParses(g: SubjectGroup, rest: seq<Token>, st: State, valid: (string, string) -> bool) returns (st': State)
    requires GoodSubjectGroup(g) && st.pos == 0
    ensures Parse(PrintClause(Group(g), valid) + rest, st, valid) == Parse(rest, st', valid)
    ensures Follows(st, st', ClauseMeans(Group(g), MetaOf(st))) && st'.subType == Some(g.kind)
  {
    hide Parse, PredicatesMean, PrintPredicates;
    var head := Mark(if g.kind == EntitySubject then EntityRef else Variable, g.text);
    var ts := PrintClause(Group(g), valid) + rest;
    assert ts == [head] + (PrintPredicates(g.groups) + rest);
    ParseMoves(ts, st, valid);
    assert ts[1..] == PrintPredicates(g.groups) + rest;
    var mid := st.(sub := g.text, pos := 1, subType := Some(g.kind),
                   block := AddVariables(st.block, Names(g.kind == VariableSubject, g.text)));
    assert AddVariables(st.block, {}) == st.block;
    st' := PredicatesParse(g.groups, rest, mid, valid);
  }

  lemma ClauseParses(c: Clause, rest: seq<Token>, st: State, valid: (string, string) -> bool) returns (st': State)
    requires GoodClause(c, valid) && st.pos == 0
    ensures Parse(PrintClause(c, valid) + rest, st, valid) == Parse(rest, st', valid)
    ensures Follows(st, st', ClauseMeans(c, MetaOf(st)))
  {
    hide Parse;
    match c
    case Group(g) => st' := GroupParses(g, rest, st, valid);
    case FilterClause(name, description) =>
      ParseMoves(PrintClause(c, valid) + rest, st, valid);
      assert (PrintClause(c, valid) + rest)[1..] == rest;
      st' := st.(sub := description, pos := 3, block := st.block.(filters := st.block.filters + [(name, description)]));
    case NewClause(variable, typeName) =>
      ParseMoves(PrintClause(c, valid) + rest, st, valid);
      assert (PrintClause(c, valid) + rest)[1..] == rest;
      st' := st.(sub := variable, pos := 3, block := st.block.(newEntities := st.block.newEntities + {(variable, typeName)}));
  }

  lemma {:induction false} ClausesParse(cs: seq<Clause>, rest: seq<Token>, st: State, valid: (string, string) -> bool) returns (st': State)
    requires GoodClauses(cs, valid) && st.pos == 0
    ensures Parse(PrintClauses(cs, valid) + rest, st, valid) == Parse(rest, st', valid)
    ensures Follows(st, st', ClausesMean(cs, MetaOf(st)))
    decreases |cs|
  {
    hide Parse, ClauseMeans, PrintClause;
    var init, last := cs[..|cs| - 1], cs[|cs| - 1];
    if |cs| == 1 {
      st' := ClauseParses(last, rest, st, valid);
      JoinedEmpty(ClauseMeans(last, MetaOf(st)));
      assert init == [];
    } else {
      var more := [Mark(Splitter1, ".")] + (PrintClause(last, valid) + rest);
      var mid := ClausesParse(init, more, st, valid);
      assert PrintClauses(cs, valid) + rest == PrintClauses(init, valid) + more;
      SplitterSteps(Mark(Splitter1, "."), PrintClause(last, valid) + rest, mid, valid);
      st' := ClauseParses(last, rest, mid.(pos := 0), valid);
      JoinedAssociative(st.block, ClausesMean(init, MetaOf(st)), ClauseMeans(last, MetaOf(st)));
    }
  }

  lemma MetaHeadParses(variable: string, rest: seq<Token>, st: State, valid: (string, string) -> bool) returns (mid: State)
    requires st.pos == 0 && !st.inMetaBlock
    ensures Parse([Mark(META, "META"), Mark(Variable, variable), Mark(OpenCurlBrace, "{")] + rest, st, valid) == Parse(rest, mid, valid)
    ensures mid.pos == 0 && mid.inMetaBlock && mid.currentMetaVar == variable
    ensures mid.block == Joined(st.block, EMPTY_BLOCK.(variables := {variable}, metaVariables := {variable}))
  {
    hide Parse;
    var ts := [Mark(META, "META"), Mark(Variable, variable), Mark(OpenCurlBrace, "{")] + rest;
    ParseMoves(ts, st, valid);
    assert ts[3..] == rest;
    mid := Next(ts, st, valid).st;
  }

  lemma ItemParses(it: Item, rest: seq<Token>, st: State, valid: (string, string) -> bool) returns (st': State)
    requires GoodItem(it, valid) && st.pos == 0 && !st.inMetaBlock
    ensures Parse(PrintItem(it, valid) + rest, st, valid) == Parse(rest, st', valid)
    ensures st'.pos == 3 && !st'.inMetaBlock && st'.block == Joined(st.block, ItemMeans(it))
  {
    hide Parse, ClausesMean, PrintClauses, ClauseMeans, PrintClause;
    match it
    case Plain(c) => st' := ClauseParses(c, rest, st, valid);
    case MetaBlock(variable, body) =>
      var close := [Mark(CloseCurlBrace, "}")] + rest;
      var mid := MetaHeadParses(variable, PrintClauses(body, valid) + close, st, valid);
      assert PrintItem(it, valid) + rest ==
        [Mark(META, "META"), Mark(Variable, variable), Mark(OpenCurlBrace, "{")] + (PrintClauses(body, valid) + close);
      var inner := ClausesParse(body, close, mid, valid);
      ParseMoves(close, inner, valid);
      assert close[1..] == rest;
      st' := inner.(inMetaBlock := false);
      JoinedAssociative(st.block, EMPTY_BLOCK.(variables := {variable}, metaVariables := {variable}), ClausesMean(body, variable));
  }

  lemma {:induction false} ItemsParse(items: seq<Item>, rest: seq<Token>, st: State, valid: (string, string) -> bool) returns (st': State)
    requires GoodItems(items, valid) && st.pos == 0 && !st.inMetaBlock
    ensures Parse(PrintItems(items, valid) + rest, st, valid) == Parse(rest, st', valid)
    ensures st'.pos == 3 && !st'.inMetaBlock && st'.block == Joined(st.block, ItemsMean(items))
    decreases |items|
  {
    hide Parse, ItemMeans, PrintItem;
    var init, last := items[..|items| - 1], items[|items| - 1];
    if |items| == 1 {
      st' := ItemParses(last, rest, st, valid);
      JoinedEmpty(ItemMeans(last));
      assert init == [];
    } else {
      var more := [Mark(Splitter1, ".")] + (PrintItem(last, valid) + rest);
      var mid := ItemsParse(init, more, st, valid);
      assert PrintItems(items, valid) + rest == PrintItems(init, valid) + more;
      SplitterSteps(Mark(Splitter1, "."), PrintItem(last, valid) + rest, mid, valid);
      st' := ItemParses(last, rest, mid.(pos := 0), valid);
      JoinedAssociative(st.block, ItemsMean(init), ItemMeans(last));
    }
  }

  /** The print of every block parses to exactly its meaning, and the parser
      stops at the closing brace. */
  lemma PrintedBlockParses(items: seq<Item>, rest: seq<Token>, valid: (string, string) -> bool)
    requires GoodItems(items, valid)
    ensures var close := [Mark(CloseCurlBrace, "}")] + rest;
      ParseTriples(PrintItems(items, valid) + close, valid) == Parsed(ItemsMean(items), close)
    ensures ParseInsert([Mark(OpenCurlBrace, "{")] + PrintItems(items, valid) + [Mark(CloseCurlBrace, "}")] + rest, valid)
         == Parsed(ItemsMean(items), rest)
  {
    hide Parse, PrintItems, ItemsMean;
    var close := [Mark(CloseCurlBrace, "}")] + rest;
    var st := ItemsParse(items, close, START, valid);
    ParseTurn(close, st, valid);
    JoinedEmpty(ItemsMean(items));
    var whole := [Mark(OpenCurlBrace, "{")] + PrintItems(items, valid) + [Mark(CloseCurlBrace, "}")] + rest;
    assert whole[1..] == PrintItems(items, valid) + close;
    assert close[1..] == rest;
  }

  // ---------- for every token list ----------

  /** Property, object and META variables are all listed, and confidences are
      at most 100. */
  ghost predicate NamesRecorded(b: Block) {
    && b.metaVariables <= b.variables
    && forall i :: 0 <= i < |b.triples| ==>
      && (b.triples[i].propertyType == VariablePredicate ==> b.triples[i].property in b.variables)
      && (b.triples[i].obj.kind == VariableObject ==> b.triples[i].obj.text in b.variables)
      && (b.triples[i].metaVariable == "" || b.triples[i].metaVariable in b.metaVariables)
      && GoodObject(b.triples[i].obj)
  }

  ghost predicate Consistent(st: State) {
    && NamesRecorded(st.block)
    && (st.inMetaBlock ==> st.currentMetaVar in st.block.metaVariables)
    && (st.predType == Some(VariablePredicate) ==> st.pred in st.block.variables)
  }

  lemma SubjectKeepsConsistent(ts: seq<Token>, st: State, valid: (string, string) -> bool)
    requires ts != [] && Consistent(st) && SubjectMove(ts, st, valid).Go?
    ensures Consistent(SubjectMove(ts, st, valid).st)
  {
    hide GoodObject;
  }

  lemma ObjectKeepsConsistent(ts: seq<Token>, st: State)
    requires ts != [] && Consistent(st) && ObjectMove(ts, st).Go?
    ensures Consistent(ObjectMove(ts, st).st)
  {
    hide DigitsValue;
  }

  lemma NextKeepsConsistent(ts: seq<Token>, st: State, valid: (string, string) -> bool)
    requires ts != [] && Consistent(st) && Next(ts, st, valid).Go?
    ensures Consistent(Next(ts, st, valid).st)
  {
    hide SubjectMove, ObjectMove;
    if st.pos == 0 {
      if SubjectMove(ts, st, valid).Go? { SubjectKeepsConsistent(ts, st, valid); }
    } else if st.pos == 2 {
      if ObjectMove(ts, st).Go? { ObjectKeepsConsistent(ts, st); }
    }
  }

  /** rest is the end of ts, and empty or at a closing brace. */
  ghost predicate EndsAtBrace(ts: seq<Token>, rest: seq<Token>) {
    && |rest| <= |ts| && rest == ts[|ts| - |rest|..]
    && (rest != [] ==> rest[0].kind == CloseCurlBrace)
  }

  lemma EndsLater(ts: seq<Token>, n: nat, rest: seq<Token>)
    requires n <= |ts| && EndsAtBrace(ts[n..], rest)
    ensures EndsAtBrace(ts, rest)
  {
  }

  /** Whatever the tokens, a successful parse has listed the names it uses and
      stops at the end of the input or at a closing brace of it. */
  lemma {:induction false} ParsedIsConsistent(ts: seq<Token>, st: State, valid: (string, string) -> bool)
    requires Consistent(st) && Parse(ts, st, valid).Parsed?
    ensures NamesRecorded(Parse(ts, st, valid).block) && EndsAtBrace(ts, Parse(ts, st, valid).rest)
    decreases |ts|
  {
    hide Next, NamesRecorded, Parse, EndsAtBrace;
    if ts == [] {
      ParseEnd(st, valid);
      assert EndsAtBrace(ts, []) by { NothingLeft(); }
    } else {
      ParseTurn(ts, st, valid);
      var m := Next(ts, st, valid);
      if m.Go? {
        NextKeepsConsistent(ts, st, valid);
        ParsedIsConsistent(ts[m.consumed..], m.st, valid);
        EndsLater(ts, m.consumed, Parse(ts[m.consumed..], m.st, valid).rest);
      } else {
        StopsAtBrace(ts, st, valid);
      }
    }
  }

  lemma NothingLeft()
    ensures EndsAtBrace([], [])
  {
  }

  lemma StopsAtBrace(ts: seq<Token>, st: State, valid: (string, string) -> bool)
    requires ts != [] && Next(ts, st, valid).Stop? && Next(ts, st, valid).result.Parsed?
    ensures Next(ts, st, valid).result == Parsed(st.block, ts) && EndsAtBrace(ts, ts)
  {
  }

  // ---------- when the subjects are listed too ----------

  /** Every variable that is a subject is listed. */
  ghost predicate SubjectsRecorded(b: Block) {
    forall i :: 0 <= i < |b.triples| && b.triples[i].subjectType == VariableSubject ==> b.triples[i].subject in b.variables
  }

  /** What a scan of the tokens keeps: the position, whether the last subject was a
      variable, the text that has overwritten it since, and the META scope. */
  datatype Scan = Scan(pos: nat, ofVariable: bool, stale: Option<string>, inMeta: bool)

  const FIRST := Scan(0, false, None, false)

  /** Names listed and stale texts used as a variable subject. */
  datatype Found = Found(listed: set<string>, stale: set<string>)

  function And(a: Found, b: Found): Found { Found(a.listed + b.listed, a.stale + b.stale) }

  function VariableIn(t: Token): set<string> { Names(t.kind == Variable, t.text) }

  /** A clause where a subject could stand. */
  function ScanSubject(ts: seq<Token>, s: Scan): (nat, Scan, Found)
    requires ts != []
  {
    var t := ts[0];
    match t.kind
    case EntityRef => (1, s.(pos := 1, ofVariable := false, stale := None), Found({}, {}))
    case Variable => (1, s.(pos := 1, ofVariable := true, stale := None), Found({t.text}, {}))
    case Keyword(_) =>
      if |ts| < 3 then (1, s, Found({}, {}))
      else (3, s.(stale := Some(t.text), inMeta := true), Found({ts[1].text}, {}))
    case _ => (1, s.(pos := 3, stale := Some(t.text)), Found({}, {}))
  }

  /** An object, behind its rating if it has one: the subject is used. */
  function ScanObject(ts: seq<Token>, s: Scan): (nat, Scan, Found)
    requires ts != []
  {
    var at := if ts[0].kind == ConfidenceRating && |ts| > 1 then 1 else 0;
    (at + 1, s.(pos := 3), Found(VariableIn(ts[at]), if s.ofVariable && s.stale.Some? then {s.stale.value} else {}))
  }

  function ScanNext(ts: seq<Token>, s: Scan): (r: (nat, Scan, Found))
    requires ts != []
    ensures 1 <= r.0 <= |ts|
  {
    var t := ts[0];
    match t.kind
    case CloseCurlBrace => (if s.inMeta then 1 else |ts|, s.(inMeta := false), Found({}, {}))
    case Splitter1 => (1, s.(pos := 0), Found({}, {}))
    case Splitter2 => (1, s.(pos := 1), Found({}, {}))
    case Splitter3 => (1, s.(pos := 2), Found({}, {}))
    case _ =>
      if s.pos == 0 then ScanSubject(ts, s)
      else if s.pos == 1 then (1, s.(pos := 2), Found(VariableIn(t), {}))
      else if s.pos == 2 then ScanObject(ts, s)
      else (1, s, Found({}, {}))
  }

  /** Which names the block lists, and which texts it takes for variable subjects
      that are none: no filter, NEW clause or META head is one unless a predicate
      and an object follow it, behind a subject that is a variable. */
  function Scanned(ts: seq<Token>, s: Scan): Found
    decreases |ts|
  {
    if ts == [] then Found({}, {}) else var (n, s', found) := ScanNext(ts, s); And(found, Scanned(ts[n..], s'))
  }

  ghost predicate Tracks(st: State, s: Scan) {
    && s.pos == st.pos <= 3 && s.inMeta == st.inMetaBlock && (s.ofVariable <==> st.subType == Some(VariableSubject))
    && (if s.stale.Some? then st.sub == s.stale.value else s.ofVariable ==> st.sub in st.block.variables)
  }

  ghost predicate SubjectsIn(b: Block, names: set<string>) {
    forall i :: 0 <= i < |b.triples| && b.triples[i].subjectType == VariableSubject ==> b.triples[i].subject in names
  }

  /** What a stretch of tokens has added to a block. */
  ghost predicate Adds(b: Block, b': Block, found: Found) {
    && b'.variables == b.variables + found.listed
    && forall names: set<string> :: b'.variables <= names ==> (SubjectsIn(b', names) <==> SubjectsIn(b, names) && found.stale <= names)
  }

  lemma AddsNothing(b: Block, b': Block)
    requires b'.triples == b.triples && b'.variables == b.variables
    ensures Adds(b, b', Found({}, {}))
  {
  }

  lemma AddsBoth(a: Block, b: Block, c: Block, f: Found, g: Found)
    requires Adds(a, b, f) && Adds(b, c, g)
    ensures Adds(a, c, And(f, g))
  {
    hide SubjectsIn;
    forall names: set<string> | c.variables <= names ensures SubjectsIn(c, names) <==> SubjectsIn(a, names) && And(f, g).stale <= names {
      assert b.variables <= names;
      assert And(f, g).stale <= names <==> f.stale <= names && g.stale <= names;
    }
  }

  lemma SubjectIsScanned(ts: seq<Token>, st: State, s: Scan, valid: (string, string) -> bool)
    requires ts != [] && st.pos == 0 && Tracks(st, s) && SubjectMove(ts, st, valid).Go?
    ensures var m, (n, s', found) := SubjectMove(ts, st, valid), ScanSubject(ts, s);
      m.consumed == n && Tracks(m.st, s') && Adds(st.block, m.st.block, found)
  {
  }

  lemma AddsTriple(b: Block, b': Block, t: Triple, found: Found)
    requires b'.triples == b.triples + [t] && b'.variables == b.variables + found.listed
    requires found.stale == {} || (t.subjectType == VariableSubject && found.stale == {t.subject})
    requires found.stale == {} && t.subjectType == VariableSubject ==> t.subject in b.variables
    ensures Adds(b, b', found)
  {
    forall names: set<string> | b'.variables <= names ensures SubjectsIn(b', names) <==> SubjectsIn(b, names) && found.stale <= names {
      assert b'.triples[|b.triples|] == t && b.variables <= b'.variables;
      if SubjectsIn(b', names) {
        forall i | 0 <= i < |b.triples| && b.triples[i].subjectType == VariableSubject ensures b.triples[i].subject in names {
          assert b'.triples[i] == b.triples[i];
        }
      }
    }
  }

  lemma ObjectIsScanned(ts: seq<Token>, st: State, s: Scan)
    requires ts != [] && st.pos == 2 && Tracks(st, s) && ObjectMove(ts, st).Go?
    ensures var m, (n, s', found) := ObjectMove(ts, st), ScanObject(ts, s);
      m.consumed == n && Tracks(m.st, s') && Adds(st.block, m.st.block, found)
  {
    hide DigitsValue, TooLarge, Adds;
    var st' := ObjectMove(ts, st).st;
    AddsTriple(st.block, st'.block, st'.block.triples[|st.block.triples|], ScanObject(ts, s).2);
  }

  lemma NextIsScanned(ts: seq<Token>, st: State, s: Scan, valid: (string, string) -> bool)
    requires ts != [] && Tracks(st, s) && Next(ts, st, valid).Go?
    ensures var m, (n, s', found) := Next(ts, st, valid), ScanNext(ts, s);
      m.consumed == n && Tracks(m.st, s') && Adds(st.block, m.st.block, found)
  {
    hide SubjectMove, ObjectMove, ScanSubject, ScanObject, Adds;
    if ts[0].kind == CloseCurlBrace || HasSplitterBit(ts[0].kind) || st.pos == 3 {
      AddsNothing(st.block, st.block);
    } else if st.pos == 0 {
      SubjectIsScanned(ts, st, s, valid);
    } else if st.pos == 1 {
      AddsNames(st.block, VariableIn(ts[0]));
      assert AddVariables(st.block, {}) == st.block;
    } else {
      ObjectIsScanned(ts, st, s);
    }
  }

  lemma AddsNames(b: Block, names: set<string>)
    ensures Adds(b, AddVariables(b, names), Found(names, {}))
  {
  }

  lemma {:induction false} ParseIsScanned(ts: seq<Token>, st: State, s: Scan, valid: (string, string) -> bool)
    requires Tracks(st, s) && Parse(ts, st, valid).Parsed?
    ensures Adds(st.block, Parse(ts, st, valid).block, Scanned(ts, s))
    decreases |ts|
  {
    hide Next, Tracks, Adds, ScanNext;
    if ts == [] {
      ParseEnd(st, valid);
      AddsNothing(st.block, st.block);
    } else {
      ParseTurn(ts, st, valid);
      var m := Next(ts, st, valid);
      if m.Go? {
        var (n, s', found) := ScanNext(ts, s);
        NextIsScanned(ts, st, s, valid);
        ParseIsScanned(ts[m.consumed..], m.st, s', valid);
        AddsBoth(st.block, m.st.block, Parse(ts, st, valid).block, found, Scanned(ts[n..], s'));
      } else {
        StopsAtBrace(ts, st, valid);
        StopIsScanned(ts, st, s, valid);
        AddsNothing(st.block, st.block);
      }
    }
  }

  lemma StopIsScanned(ts: seq<Token>, st: State, s: Scan, valid: (string, string) -> bool)
    requires ts != [] && Tracks(st, s) && Next(ts, st, valid).Stop? && Next(ts, st, valid).result.Parsed?
    ensures Scanned(ts, s) == Found({}, {})
  {
    StopsAtBrace(ts, st, valid);
    hide SubjectMove, ObjectMove, PropertyMove;
    assert !st.inMetaBlock && ts[|ts|..] == [];
  }

  /** Whatever the tokens, a successful parse lists exactly the names that the scan
      finds, and every variable subject among them exactly if no stale text is used
      as one that is not also a name. */
  lemma SubjectsRecordedIff(ts: seq<Token>, valid: (string, string) -> bool)
    requires ParseTriples(ts, valid).Parsed?
    ensures var b, found := ParseTriples(ts, valid).block, Scanned(ts, FIRST);
      b.variables == found.listed && (SubjectsRecorded(b) <==> found.stale <= found.listed)
  {
    hide Parse, Scanned;
    ParseIsScanned(ts, START, FIRST, valid);
    var b, found := ParseTriples(ts, valid).block, Scanned(ts, FIRST);
    assert b.variables == {} + found.listed == found.listed;
    assert SubjectsIn(b, b.variables) <==> SubjectsRecorded(b);
  }

  /** The clauses that overwrite the subject's text but not its type. */
  datatype Head = FilterHead(name: string, description: string) | NewHead(variable: string, typeName: string) | MetaHead(variable: string)

  function HeadTokens(h: Head): seq<Token> {
    match h
    case FilterHead(name, description) => [Token(Filter, description, name)]
    case NewHead(variable, typeName) => [Token(NewEntity, variable, typeName)]
    case MetaHead(variable) => [Mark(META, "META"), Mark(Variable, variable), Mark(OpenCurlBrace, "{")]
  }

  function HeadText(h: Head): string {
    match h
    case FilterHead(_, description) => description
    case NewHead(variable, _) => variable
    case MetaHead(_) => "META"
  }

  function HeadBlock(b: Block, h: Head): Block {
    match h
    case FilterHead(name, description) => b.(filters := b.filters + [(name, description)])
    case NewHead(variable, typeName) => b.(newEntities := b.newEntities + {(variable, typeName)})
    case MetaHead(variable) => AddVariables(b, {variable}).(metaVariables := b.metaVariables + {variable})
  }

  lemma HeadParses(h: Head, rest: seq<Token>, st: State, valid: (string, string) -> bool) returns (st': State)
    requires (h.FilterHead? ==> valid(h.name, h.description)) && st.pos == 0 && !st.inMetaBlock
    ensures Parse(HeadTokens(h) + rest, st, valid) == Parse(rest, st', valid)
    ensures st'.sub == HeadText(h) && st'.subType == st.subType && st'.block == HeadBlock(st.block, h)
    ensures MetaOf(st') == if h.MetaHead? then h.variable else ""
  {
    var ts := HeadTokens(h) + rest;
    ParseMoves(ts, st, valid);
    st' := SubjectMove(ts, st, valid).st;
    assert ts[|HeadTokens(h)|..] == rest;
  }

  /** Continued by a semicolon, each of them becomes the subject of what follows. If
      every variable subject was listed before, it is exactly if the subject so far is
      an entity, or the text of the clause is listed after all. */
  lemma HeadLeavesAStaleSubject(h: Head, p: PredicateGroup, rest: seq<Token>, st: State, valid: (string, string) -> bool) returns (st': State)
    requires (h.FilterHead? ==> valid(h.name, h.description)) && GoodPredicateGroup(p)
    requires st.pos == 0 && st.subType.Some? && !st.inMetaBlock
    ensures Parse(HeadTokens(h) + ([Mark(Splitter2, ";")] + (PrintPredicate(p) + rest)), st, valid) == Parse(rest, st', valid)
    ensures st'.block == Joined(HeadBlock(st.block, h),
                                PredicateMeans(p, st.subType.value, HeadText(h), if h.MetaHead? then h.variable else ""))
    ensures SubjectsRecorded(st.block) ==>
      (SubjectsRecorded(st'.block) <==> st.subType == Some(EntitySubject) || HeadText(h) in st'.block.variables)
  {
    hide Parse, PrintPredicate, PredicateMeans, HeadTokens, SubjectsRecorded;
    var st1 := HeadParses(h, [Mark(Splitter2, ";")] + (PrintPredicate(p) + rest), st, valid);
    SplitterSteps(Mark(Splitter2, ";"), PrintPredicate(p) + rest, st1, valid);
    st' := PredicateParses(p, rest, st1.(pos := 1), valid);
    if SubjectsRecorded(st.block) { StaleIff(st.block, h, p, st.subType.value, if h.MetaHead? then h.variable else ""); }
  }

  lemma StaleIff(b: Block, h: Head, p: PredicateGroup, t: SubjectType, meta: string)
    requires SubjectsRecorded(b) && GoodPredicateGroup(p)
    ensures var b' := Joined(HeadBlock(b, h), PredicateMeans(p, t, HeadText(h), meta));
      SubjectsRecorded(b') <==> t == EntitySubject || HeadText(h) in b'.variables
  {
    hide PredicateMeans;
    var before, added := HeadBlock(b, h), PredicateMeans(p, t, HeadText(h), meta);
    var b' := Joined(before, added);
    OneSubject(p, t, HeadText(h), meta);
    assert b'.triples[|before.triples|] == added.triples[0];
    assert before.triples == b.triples && b.variables <= b'.variables;
  }

  /** The triples that follow a filter and a semicolon have its description as
      their subject, and are listed under it only if the text is used elsewhere. */
  lemma StaleSubjectIsMissed(g: SubjectGroup, name: string, description: string, p: PredicateGroup, valid: (string, string) -> bool)
    requires GoodSubjectGroup(g) && g.kind == VariableSubject && GoodPredicateGroup(p) && valid(name, description)
    ensures var h := FilterHead(name, description);
      var r := ParseTriples(PrintClause(Group(g), valid) + ([Mark(Splitter1, ".")] + (HeadTokens(h) + ([Mark(Splitter2, ";")] + (PrintPredicate(p) + [])))), valid);
      r.Parsed? && (SubjectsRecorded(r.block) <==> description in r.block.variables)
  {
    hide Parse, PrintPredicate, PrintClause, ClauseMeans, HeadTokens, SubjectsRecorded;
    var h := FilterHead(name, description);
    var last := HeadTokens(h) + ([Mark(Splitter2, ";")] + (PrintPredicate(p) + []));
    var st := GroupParses(g, [Mark(Splitter1, ".")] + last, START, valid);
    GroupIsRecorded(g);
    JoinedEmpty(ClauseMeans(Group(g), ""));
    SplitterSteps(Mark(Splitter1, "."), last, st, valid);
    var st' := HeadLeavesAStaleSubject(h, p, [], st.(pos := 0), valid);
    ParseEnd(st', valid);
  }

  /** What a group of a subject means: all its triples have that subject. */
  lemma GroupIsRecorded(g: SubjectGroup)
    requires GoodSubjectGroup(g)
    ensures SubjectsRecorded(ClauseMeans(Group(g), ""))
  {
    hide PredicatesMean;
    SubjectOfAll(g.groups, g.kind, g.text, "");
  }

  lemma {:induction false} SubjectOfAll(ps: seq<PredicateGroup>, st: SubjectType, s: string, meta: string)
    requires forall i :: 0 <= i < |ps| ==> GoodPredicateGroup(ps[i])
    ensures forall x :: x in PredicatesMean(ps, st, s, meta).triples ==> x.subjectType == st && x.subject == s
  {
    hide PredicateMeans;
    if ps != [] {
      SubjectOfAll(ps[..|ps| - 1], st, s, meta);
      OneSubject(ps[|ps| - 1], st, s, meta);
    }
  }

  lemma OneSubject(p: PredicateGroup, st: SubjectType, s: string, meta: string)
    requires GoodPredicateGroup(p)
    ensures var b := PredicateMeans(p, st, s, meta);
      b.triples != [] && forall x :: x in b.triples ==> x.subjectType == st && x.subject == s
  {
    ObjectsHaveSubject(p.objects, st, s, p.kind, p.text, meta);
  }

  lemma {:induction false} ObjectsHaveSubject(os: seq<Object>, st: SubjectType, s: string, pt: PredicateType, p: string, meta: string)
    ensures var b := ObjectsMean(os, st, s, pt, p, meta);
      |b.triples| == |os| && forall x :: x in b.triples ==> x.subjectType == st && x.subject == s
  {
    if os != [] { ObjectsHaveSubject(os[..|os| - 1], st, s, pt, p, meta); }
  }

  // ---------- tokens that make no difference ----------

  /** Once a triple is complete, anything but a splitter, a brace or a USER
      keyword is skipped without a word. */
  predicate Skipped(junk: seq<Token>) {
    forall i :: 0 <= i < |junk| ==> junk[i].kind != CloseCurlBrace && !HasSplitterBit(junk[i].kind)
  }

  lemma {:induction false} SkipsJunk(junk: seq<Token>, rest: seq<Token>, st: State, valid: (string, string) -> bool)
    requires st.pos == 3 && Skipped(junk)
    ensures Parse(junk + rest, st, valid) == Parse(rest, st, valid)
    decreases |junk|
  {
    if junk != [] {
      ParseTurn(junk + rest, st, valid);
      assert (junk + rest)[1..] == junk[1..] + rest;
      SkipsJunk(junk[1..], rest, st, valid);
    } else {
      assert junk + rest == rest;
    }
  }

  /** A block means the same with any such tokens behind it, however many. */
  lemma JunkBehindABlockIsSkipped(items: seq<Item>, junk: seq<Token>, rest: seq<Token>, valid: (string, string) -> bool)
    requires GoodItems(items, valid) && Skipped(junk)
    ensures var close := [Mark(CloseCurlBrace, "}")] + rest;
      ParseTriples(PrintItems(items, valid) + (junk + close), valid) == Parsed(ItemsMean(items), close)
  {
    hide Parse, PrintItems, ItemsMean;
    var close := [Mark(CloseCurlBrace, "}")] + rest;
    var st := ItemsParse(items, junk + close, START, valid);
    SkipsJunk(junk, close, st, valid);
    JoinedEmpty(ItemsMean(items));
    ParseTurn(close, st, valid);
  }

  // ---------- the loop ----------

  /** The tokens an iterator at position i still has before it. */
  ghost function From(tokens: seq<Token>, i: nat): seq<Token>
    requires i <= |tokens|
  {
    tokens[i..]
  }

  lemma FromAgain(tokens: seq<Token>, i: nat, n: nat)
    requires i + n <= |tokens|
    ensures From(tokens, i)[n..] == From(tokens, i + n)
    ensures n < |tokens| - i ==> From(tokens, i)[n] == tokens[i + n]
  {
  }

  /** The head of a META block, read from the token list itself. */
  lemma MetaMoveAt(tokens: seq<Token>, i: nat, st: State)
    requires i < |tokens|
    ensures MetaMove(From(tokens, i), st) ==
      if tokens[i].kind != META || st.inMetaBlock then Stop(ParseException)
      else if i + 1 >= |tokens| then Stop(Undefined)
      else if tokens[i + 1].kind != Variable then Stop(ParseException)
      else if i + 2 >= |tokens| then Stop(Undefined)
      else if tokens[i + 2].kind != OpenCurlBrace then Stop(ParseException)
      else
        var name := tokens[i + 1].text;
        Go(3, st.(block := AddVariables(st.block, {name}).(metaVariables := st.block.metaVariables + {name}),
                  currentMetaVar := name, inMetaBlock := true))
  {
    hide AddVariables;
  }

  lemma ParseTurn(ts: seq<Token>, st: State, valid: (string, string) -> bool)
    requires ts != []
    ensures Parse(ts, st, valid) ==
      match Next(ts, st, valid) { case Stop(result) => result case Go(n, st') => Parse(ts[n..], st', valid) }
  {
  }

  lemma ParseEnd(st: State, valid: (string, string) -> bool)
    ensures Parse([], st, valid) == Parsed(st.block, [])
  {
  }
}
