/** The loop of the triple parser over its token list, with its local variables. */
module BlockParsers {
  import Grammar
  import opened TripleParser

  /** The running ParseTriples: its local variables, and an index for the
      iterator, which the caller sees advanced. */
  class BlockParser {
    const tokens: seq<Token>
    const valid: (string, string) -> bool
    var i: nat
    var tripleBlock: Block
    var pos: nat
    var subType: Option<SubjectType>
    var sub: string
    var predType: Option<PredicateType>
    var pred: string
    var inMetaBlock: bool
    var currentMetaVar: string

    constructor (tokens: seq<Token>, start: nat, valid: (string, string) -> bool)
      ensures this.tokens == tokens && this.valid == valid && i == start && View() == START
    {
      this.tokens, this.valid, i := tokens, valid, start;
      tripleBlock, pos := EMPTY_BLOCK, 0;
      subType, sub, predType, pred := None, "", None, "";
      inMetaBlock, currentMetaVar := false, "";
    }

    function View(): State
      reads this
    {
      State(tripleBlock, pos, subType, sub, predType, pred, inMetaBlock, currentMetaVar)
    }

    ghost function Ahead(): seq<Token>
      reads this
      requires i <= |tokens|
    {
      From(tokens, i)
    }

    /** The new variables and position are those of a move from the old ones. */
    ghost predicate Moved(at: nat, m: Move, stop: Option<ParseResult>)
      reads this
    {
      match m
      case Go(n, st) => stop == None && i == at + n && View() == st
      case Stop(result) => stop == Some(result)
    }

    method TakeSubject() returns (stop: Option<ParseResult>)
      requires i < |tokens| && pos == 0
      modifies this
      ensures Moved(old(i), SubjectMove(old(Ahead()), old(View()), valid), stop)
    {
      var t := tokens[i];
      FromAgain(tokens, i, 0);
      if t.kind == Filter || t.kind == NewEntity {
        stop := TakeClause();
        return;
      }
      hide From, MetaMove;
      sub := t.text;
      if t.kind.Keyword? {
        stop := TakeMeta();
        return;
      }
      match t.kind {
        case EntityRef =>
          subType, pos := Some(EntitySubject), 1;
        case Variable =>
          subType, pos := Some(VariableSubject), 1;
          tripleBlock := AddVariables(tripleBlock, {t.text});
        case _ => return Some(ParseException);
      }
      i := i + 1;
      stop := None;
    }

    /** A filter or a NEW clause in place of a subject. */
    method TakeClause() returns (stop: Option<ParseResult>)
      requires i < |tokens| && pos == 0 && (tokens[i].kind == Filter || tokens[i].kind == NewEntity)
      modifies this
      ensures Moved(old(i), SubjectMove(old(Ahead()), old(View()), valid), stop)
    {
      var t := tokens[i];
      FromAgain(tokens, i, 0);
      hide From;
      sub := t.text;
      if t.kind == Filter {
        if !valid(t.data0, t.text) { return Some(ParseException); }
        tripleBlock := tripleBlock.(filters := tripleBlock.filters + [(t.data0, t.text)]);
      } else {
        tripleBlock := tripleBlock.(newEntities := tripleBlock.newEntities + {(t.text, t.data0)});
      }
      pos := 3;
      i := i + 1;
      stop := None;
    }

    /** A META block, or another keyword. */
    method TakeMeta() returns (stop: Option<ParseResult>)
      requires i < |tokens|
      modifies this
      ensures Moved(old(i), MetaMove(old(Ahead()), old(View())), stop)
    {
      MetaMoveAt(tokens, i, View());
      hide From, AddVariables, MetaMove;
      if tokens[i].kind != META || inMetaBlock { return Some(ParseException); }
      stop := TakeMetaHead();
      if stop.Some? { return; }
      i := i + 1;
    }

    /** From META to the opening brace, which is left to the caller. */
    method TakeMetaHead() returns (stop: Option<ParseResult>)
      requires i < |tokens|
      modifies this
      ensures stop == old(
        if i + 1 >= |tokens| then Some(Undefined)
        else if tokens[i + 1].kind != Variable then Some(ParseException)
        else if i + 2 >= |tokens| then Some(Undefined)
        else if tokens[i + 2].kind != OpenCurlBrace then Some(ParseException)
        else None)
      ensures stop == None ==>
        && i == old(i) + 2
        && var name := tokens[i - 1].text;
          View() == old(View()).(currentMetaVar := name, inMetaBlock := true,
            block := AddVariables(old(tripleBlock), {name}).(metaVariables := old(tripleBlock).metaVariables + {name}))
    {
      i := i + 1;
      if i >= |tokens| { return Some(Undefined); }
      if tokens[i].kind != Variable { return Some(ParseException); }
      currentMetaVar := tokens[i].text;
      tripleBlock := AddVariables(tripleBlock, {currentMetaVar}).(metaVariables := tripleBlock.metaVariables + {currentMetaVar});
      i := i + 1;
      if i >= |tokens| { return Some(Undefined); }
      if tokens[i].kind != OpenCurlBrace { return Some(ParseException); }
      inMetaBlock := true;
      stop := None;
    }

    method TakeProperty() returns (stop: Option<ParseResult>)
      requires i < |tokens| && pos == 1
      modifies this
      ensures Moved(old(i), PropertyMove(tokens[old(i)], old(View())), stop)
      ensures stop == None <==> tokens[old(i)].kind == PropertyName || tokens[old(i)].kind == Variable
    {
      var t := tokens[i];
      pred := t.text;
      match t.kind {
        case PropertyName =>
          predType := Some(PropertyPredicate);
        case Variable =>
          predType := Some(VariablePredicate);
          tripleBlock := AddVariables(tripleBlock, {t.text});
        case _ => return Some(ParseException);
      }
      pos := 2;
      i := i + 1;
      stop := None;
    }

    /** The rating in front of an object, or nothing. */
    method ParseConfidenceRating() returns (rating: string)
      requires i < |tokens|
      modifies this`i
      ensures rating == if tokens[old(i)].kind == ConfidenceRating then tokens[old(i)].text else ""
      ensures i == if tokens[old(i)].kind == ConfidenceRating then old(i) + 1 else old(i)
    {
      rating := "";
      if tokens[i].kind == ConfidenceRating {
        rating := tokens[i].text;
        i := i + 1;
      }
    }

    method TakeObject() returns (stop: Option<ParseResult>)
      requires i < |tokens| && pos == 2
      modifies this
      ensures Moved(old(i), ObjectMove(old(Ahead()), old(View())), stop)
    {
      hide DigitsValue, ObjectTypeOf, WithObject;
      FromAgain(tokens, i, 0);
      FromAgain(tokens, i, 1);
      hide From;
      var confidence := ParseConfidenceRating();
      if i >= |tokens| { return Some(Undefined); }
      var objType := ObjectTypeOf(tokens[i].kind);
      if objType.None? { return Some(ParseException); }
      if TooLarge(confidence) { return Some(NumberException); }
      if confidence != "" && DigitsValue(confidence).value > 100 { return Some(ParseException); }
      if subType.None? || predType.None? { return Some(Undefined); }
      AddTriple(Object(objType.value, tokens[i].text, if confidence == "" then None else DigitsValue(confidence)));
      i := i + 1;
      stop := None;
    }

    method AddTriple(o: Object)
      requires subType.Some? && predType.Some?
      modifies this`tripleBlock, this`pos
      ensures View() == WithObject(old(View()), o)
    {
      if o.kind == VariableObject { tripleBlock := AddVariables(tripleBlock, {o.text}); }
      var triple := Triple(subType.value, sub, predType.value, pred, o, if inMetaBlock then currentMetaVar else "");
      tripleBlock := tripleBlock.(triples := tripleBlock.triples + [triple]);
      pos := 3;
    }

    method Turn() returns (stop: Option<ParseResult>)
      requires i < |tokens|
      modifies this
      ensures Moved(old(i), Next(old(Ahead()), old(View()), valid), stop)
    {
      hide SubjectMove, PropertyMove, ObjectMove;
      var t := tokens[i];
      FromAgain(tokens, i, 0);
      if t.kind == CloseCurlBrace {
        if pos != 3 { return Some(ParseException); }
        if !inMetaBlock { return Some(Parsed(tripleBlock, tokens[i..])); }
        inMetaBlock := false;
        i := i + 1;
      } else if HasSplitterBit(t.kind) {
        match t.kind {
          case Splitter1 => pos := 0;
          case Splitter2 => pos := 1;
          case Splitter3 => pos := 2;
          case _ => return Some(ParseException);
        }
        i := i + 1;
      } else if pos == 0 {
        stop := TakeSubject();
        return;
      } else if pos == 1 {
        stop := TakeProperty();
        return;
      } else if pos == 2 {
        stop := TakeObject();
        return;
      } else {
        i := i + 1;
      }
      stop := None;
    }

    /** The while loop of FSparqlParser::ParseTriples. From its start it succeeds exactly
        on the tokens of a block, with what they say and the tokens behind it. */
    method Run() returns (result: ParseResult)
      requires i <= |tokens|
      modifies this
      ensures result == Parse(old(Ahead()), old(View()), valid)
      ensures old(View()) == START ==> Grammar.ReadsAs(old(Ahead()), valid, result)
    {
      hide Next, Parse, Grammar.ReadsAs;
      Grammar.ParseReads(Ahead(), valid);
      while i < |tokens|
        invariant i <= |tokens|
        invariant Parse(Ahead(), View(), valid) == Parse(old(Ahead()), old(View()), valid)
        decreases |tokens| - i
      {
        ghost var at, m := i, Next(Ahead(), View(), valid);
        ParseTurn(Ahead(), View(), valid);
        var stop := Turn();
        if stop.Some? { return stop.value; }
        FromAgain(tokens, at, m.consumed);
      }
      assert Ahead() == [];
      ParseEnd(View(), valid);
      result := Parsed(tripleBlock, []);
    }
  }
}
