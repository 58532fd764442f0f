/** `BoolSearch`: the searcher holds the loaded inverted index and the universe of
    pages, and answers a query by tokenising it, converting it to postfix and
    evaluating the postfix program. */
module Search {
  import opened Outcomes
  import opened PyStr
  import opened Sorting
  import opened QueryLexer
  import opened ShuntingYard
  import opened PostfixEval

  /** The searcher's two attributes; neither changes after `__init__`. */
  datatype BoolSearch = BoolSearch(invertedIndex: Index, pages: set<int>)
  {
    /** `pages` is the union of the posting lists of the index. */
    predicate Valid() {
      pages == Pages(invertedIndex)
    }

    /** `search(query)`: the three stages one after the other. */
    method Search(query: string) returns (r: Result<seq<int>, QueryError>)
      ensures r == Answer(this, query)
    {
      var words := SplitRequest(query);
      var postfix := ToPostfix(words);
      if postfix.Err? {
        return Err(postfix.error);
      }
      r := GetResultSearching(pages, invertedIndex, postfix.value);
    }
  }

  /** `BoolSearch.__init__` once `get_data` has loaded `index`. */
  function Load(index: Index): (s: BoolSearch)
    ensures s.Valid() && s.invertedIndex == index
  {
    BoolSearch(index, Pages(index))
  }

  /** Conversion and evaluation of a token list, under either reading of line 100. */
  function AnswerTokens(d: Dispatch, s: BoolSearch, tokens: seq<string>): Result<seq<int>, QueryError>
  {
    match Postfix(tokens)
    case Err(e) => Err(e)
    case Ok(program) => Evaluate(d, s.pages, s.invertedIndex, program)
  }

  /** The specification of `search(query)`. */
  function Answer(s: BoolSearch, query: string): Result<seq<int>, QueryError>
  {
    AnswerTokens(AsWritten, s, SplitRequest(query))
  }

  // ---------------------------------------------------------------- what an answer is

  /** An answer lists pages of the index, each once, in ascending order. */
  lemma AnswerWithinPages(s: BoolSearch, query: string)
    requires s.Valid()
    ensures Answer(s, query).Ok? ==> IntsAscending(Answer(s, query).value)
    ensures Answer(s, query).Ok? ==> forall x :: x in Answer(s, query).value ==> x in s.pages
  {
    match Postfix(SplitRequest(query))
    case Err(_) =>
    case Ok(program) =>
      EvaluateWithinPages(AsWritten, s.invertedIndex, program);
      match PostfixEval.Run(AsWritten, s.pages, s.invertedIndex, [], program)
      case Err(_) =>
      case Ok(stack) =>
  }

  /** A query fails with an unmatched `)` exactly when one of its prefixes closes
      more parentheses than it opens; otherwise it fails, with a stack underflow,
      exactly when its postfix program runs out of operands. */
  lemma AnswerFails(s: BoolSearch, query: string)
    ensures var tokens := SplitRequest(query);
      (Answer(s, query) == Err(UnmatchedClose) <==>
         exists j :: 0 <= j <= |tokens| && Depth(tokens[..j]) < 0)
    ensures Postfix(SplitRequest(query)).Ok? ==>
      (Answer(s, query) == Err(StackUnderflow) <==>
         Height(AsWritten, 0, Postfix(SplitRequest(query)).value).None?)
  {
    var tokens := SplitRequest(query);
    PostfixFails(tokens);
    match Postfix(tokens)
    case Err(_) =>
    case Ok(program) =>
      RunHeight(AsWritten, s.pages, s.invertedIndex, [], program);
  }

  // ---------------------------------------------------------------- fully parenthesised queries

  /** Every word of the query is read as a term by the conversion. */
  predicate TermWords(q: Query) {
    match q
    case Word(w) => IsTerm(w)
    case Not(a) => TermWords(a)
    case And(a, b) => TermWords(a) && TermWords(b)
    case Or(a, b) => TermWords(a) && TermWords(b)
  }

  /** The query with its words lower-cased, as the conversion writes them. */
  function Lowered(q: Query): Query
  {
    match q
    case Word(w) => Word(LowerStr(w))
    case Not(a) => Not(Lowered(a))
    case And(a, b) => And(Lowered(a), Lowered(b))
    case Or(a, b) => Or(Lowered(a), Lowered(b))
  }

  /** The query `a op b` for a binary operator. */
  function Binary(op: string, a: Query, b: Query): Query
  {
    if op == "AND" then And(a, b) else Or(a, b)
  }

  /** The tokens of a query with every operation in its own parentheses. */
  function Infix(q: Query): seq<string>
  {
    match q
    case Word(w) => [w]
    case Not(a) => ["(", "NOT"] + Infix(a) + [")"]
    case And(a, b) => ["("] + Infix(a) + ["AND"] + Infix(b) + [")"]
    case Or(a, b) => ["("] + Infix(a) + ["OR"] + Infix(b) + [")"]
  }

  /** Lower-casing keeps every word a term, hence never an operator name. */
  lemma {:induction false} LoweredTerms(q: Query)
    requires TermWords(q)
    ensures TermWords(Lowered(q)) && WellFormed(Lowered(q))
  {
    match q
    case Word(w) => LowerTerm(w);
    case Not(a) => LoweredTerms(a);
    case And(a, b) => LoweredTerms(a); LoweredTerms(b);
    case Or(a, b) => LoweredTerms(a); LoweredTerms(b);
  }

  lemma {:induction false} LoweredNotFree(q: Query)
    requires NotFree(q)
    ensures NotFree(Lowered(q))
  {
    match q
    case Word(w) =>
    case Not(a) =>
    case And(a, b) => LoweredNotFree(a); LoweredNotFree(b);
    case Or(a, b) => LoweredNotFree(a); LoweredNotFree(b);
  }

  /** Converting a fully parenthesised query writes its postfix program and leaves the
      operator stack as it found it. */
  lemma {:induction false} RunInfix(w: seq<string>, ops: seq<string>, q: Query, rest: seq<string>)
    requires OpsOk(ops) && TermWords(q)
    ensures ShuntingYard.Run(Yard(w, ops), Infix(q) + rest)
      == ShuntingYard.Run(Yard(w + Emit(Lowered(q)), ops), rest)
    decreases Size(q), 2
  {
    match q
    case Word(t) =>
      RunTerm(Yard(w, ops), t, rest);
    case Not(a) =>
      RunInfixNot(w, ops, a, rest);
    case And(a, b) =>
      RunInfixBinary(w, ops, a, b, "AND", rest);
    case Or(a, b) =>
      RunInfixBinary(w, ops, a, b, "OR", rest);
  }

  lemma {:induction false} RunInfixNot(w: seq<string>, ops: seq<string>, a: Query, rest: seq<string>)
    requires OpsOk(ops) && TermWords(a)
    ensures ShuntingYard.Run(Yard(w, ops), Infix(Not(a)) + rest)
      == ShuntingYard.Run(Yard(w + Emit(Lowered(Not(a))), ops), rest)
    decreases Size(a) + 1, 1
  {
    var r2 := [")"] + rest;
    var r1 := Infix(a) + r2;
    var ea := Emit(Lowered(a));
    assert Infix(Not(a)) + rest == ["("] + (["NOT"] + r1);
    assert ShuntingYard.Run(Yard(w, ops), ["("] + (["NOT"] + r1))
        == ShuntingYard.Run(Yard(w, ops + ["(", "NOT"]), r1) by {
      RunOpen(Yard(w, ops), ["NOT"] + r1);
      RunOperatorAfterOpen(w, ops, "NOT", r1);
    }
    assert ShuntingYard.Run(Yard(w, ops + ["(", "NOT"]), r1)
        == ShuntingYard.Run(Yard(w + ea + ["NOT"], ops), rest) by {
      RunInfix(w, ops + ["(", "NOT"], a, r2);
      RunCloseOver(w + ea, ops, "NOT", rest);
    }
    assert w + ea + ["NOT"] == w + Emit(Lowered(Not(a)));
  }

  lemma {:induction false} RunInfixBinary(w: seq<string>, ops: seq<string>, a: Query, b: Query,
                                          op: string, rest: seq<string>)
    requires OpsOk(ops) && TermWords(a) && TermWords(b) && (op == "AND" || op == "OR")
    ensures ShuntingYard.Run(Yard(w, ops), Infix(Binary(op, a, b)) + rest)
      == ShuntingYard.Run(Yard(w + Emit(Lowered(Binary(op, a, b))), ops), rest)
    decreases Size(a) + Size(b) + 1, 1
  {
    var r1 := [op] + (Infix(b) + ([")"] + rest));
    var ea, eb := Emit(Lowered(a)), Emit(Lowered(b));
    assert Infix(Binary(op, a, b)) + rest == ["("] + (Infix(a) + r1) by {
      assert Infix(Binary(op, a, b)) == ["("] + Infix(a) + [op] + Infix(b) + [")"];
      Regroup("(", Infix(a), op, Infix(b), ")", rest);
    }
    RunInfixLeft(w, ops, a, r1);
    RunInfixRight(w + ea, ops, op, b, rest);
    assert Emit(Lowered(Binary(op, a, b))) == ea + eb + [op];
    assert w + ea + eb + [op] == w + (ea + eb + [op]);
  }

  /** `( a` followed by anything: the left operand is written above a pushed `(`. */
  lemma {:induction false} RunInfixLeft(w: seq<string>, ops: seq<string>, a: Query, r1: seq<string>)
    requires OpsOk(ops) && TermWords(a)
    ensures OpsOk(ops + ["("])
    ensures ShuntingYard.Run(Yard(w, ops), ["("] + (Infix(a) + r1))
      == ShuntingYard.Run(Yard(w + Emit(Lowered(a)), ops + ["("]), r1)
    decreases Size(a), 3
  {
    RunOpen(Yard(w, ops), Infix(a) + r1);
    assert forall k :: 0 <= k < |ops| ==> (ops + ["("])[k] == ops[k];
    RunInfix(w, ops + ["("], a, r1);
  }

  /** `op b )` read above a `(`: the right operand, then the operator, are written and
      the `(` is dropped. */
  lemma {:induction false} RunInfixRight(w: seq<string>, ops: seq<string>, op: string, b: Query,
                                         rest: seq<string>)
    requires OpsOk(ops) && TermWords(b) && IsOperator(op)
    ensures OpsOk(ops + ["("])
    ensures ShuntingYard.Run(Yard(w, ops + ["("]), [op] + (Infix(b) + ([")"] + rest)))
      == ShuntingYard.Run(Yard(w + Emit(Lowered(b)) + [op], ops), rest)
    decreases Size(b), 3
  {
    var r3 := [")"] + rest;
    var eb := Emit(Lowered(b));
    RunOperatorAfterOpen(w, ops, op, Infix(b) + r3);
    RunCloseOver(w, ops, op, r3);
    RunInfix(w, ops + ["(", op], b, r3);
    RunCloseOver(w + eb, ops, op, rest);
  }

  lemma Regroup<T>(p: T, x: seq<T>, o: T, y: seq<T>, c: T, rest: seq<T>)
    ensures [p] + x + [o] + y + [c] + rest == [p] + (x + ([o] + (y + ([c] + rest))))
  {
  }

  /** A fully parenthesised query converts to the postfix program of the query. */
  lemma InfixToPostfix(q: Query)
    requires TermWords(q)
    ensures Postfix(Infix(q)) == Ok(Emit(Lowered(q)))
  {
    var none: seq<string> := [];
    RunInfix(none, none, q, none);
    assert Infix(q) + none == Infix(q);
    assert none + Emit(Lowered(q)) == Emit(Lowered(q));
    assert ShuntingYard.Run(Yard(Emit(Lowered(q)), none), none) == Ok(Yard(Emit(Lowered(q)), none));
    assert Reversed(none) == [] && Emit(Lowered(q)) + none == Emit(Lowered(q));
  }

  /** Read with `elif`, a fully parenthesised query returns the pages it denotes. */
  lemma ParenthesisedQueryMeans(s: BoolSearch, q: Query)
    requires TermWords(q)
    ensures AnswerTokens(Corrected, s, Infix(q))
      == Ok(SortedInts(Denote(s.pages, s.invertedIndex, Lowered(q))))
  {
    InfixToPostfix(q);
    LoweredTerms(q);
    EvaluateEmit(s.pages, s.invertedIndex, Lowered(q));
  }

  /** As written, the same holds of every query without NOT. */
  lemma ParenthesisedQueryAsWritten(s: BoolSearch, q: Query)
    requires TermWords(q) && NotFree(q)
    ensures AnswerTokens(AsWritten, s, Infix(q))
      == Ok(SortedInts(Denote(s.pages, s.invertedIndex, Lowered(q))))
  {
    InfixToPostfix(q);
    LoweredTerms(q);
    LoweredNotFree(q);
    EvaluateEmitNotFree(s.pages, s.invertedIndex, Lowered(q));
  }

  /** As written, `( NOT a )` returns the pages of the word "NOT" instead of the
      complement of `a`, which the `elif` reading returns. */
  lemma NegationAsWritten(s: BoolSearch, a: Query)
    requires TermWords(a) && NotFree(a)
    ensures AnswerTokens(AsWritten, s, Infix(Not(a)))
      == Ok(SortedInts(Lookup(s.invertedIndex, "NOT")))
    ensures AnswerTokens(Corrected, s, Infix(Not(a)))
      == Ok(SortedInts(s.pages - Denote(s.pages, s.invertedIndex, Lowered(a))))
  {
    InfixToPostfix(Not(a));
    LoweredTerms(a);
    LoweredNotFree(a);
    NegationEvaluated(s.pages, s.invertedIndex, Lowered(a));
  }
}
