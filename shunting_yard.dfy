/** `BoolSearch._to_postfix`: Shunting-Yard conversion of a token list to postfix.
    The output list `words` and the operator stack `operators` are Python lists whose
    last element is the top; the same orientation is kept here. */
module ShuntingYard {
  import opened Outcomes
  import opened PyStr

  /** The operator list of the source; an operator's priority is its index in it. */
  const PriorityOperators: seq<string> := ["OR", "AND", "NOT"]

  predicate IsOperator(t: string) {
    t in PriorityOperators
  }

  function Priority(op: string): (p: nat)
    requires IsOperator(op)
    ensures p < |PriorityOperators| && PriorityOperators[p] == op
  {
    if op == "OR" then 0 else if op == "AND" then 1 else 2
  }

  /** Everything that is neither a parenthesis nor an operator is a search term. */
  predicate IsTerm(t: string) {
    t != "(" && t != ")" && !IsOperator(t)
  }

  /** The operator stack only ever holds `(` and operators. */
  predicate OpsOk(ops: seq<string>) {
    forall i :: 0 <= i < |ops| ==> ops[i] == "(" || IsOperator(ops[i])
  }

  /** The state of the conversion: the output so far and the operator stack. */
  datatype Yard = Yard(words: seq<string>, operators: seq<string>)

  /** The order in which a stack's elements come off it. */
  function Reversed<T>(s: seq<T>): seq<T>
  {
    if s == [] then [] else [s[|s| - 1]] + Reversed(s[..|s| - 1])
  }

  lemma ReversedSnoc<T>(s: seq<T>, x: T)
    ensures Reversed(s + [x]) == [x] + Reversed(s)
  {
    assert (s + [x])[..|s|] == s;
  }

  /** Closing parenthesis: pop operators to the output down to the nearest `(`,
      which is dropped; reading the top of an empty stack is an error. */
  function CloseParen(y: Yard): (r: Result<Yard, QueryError>)
    ensures r.Err? <==> forall k :: 0 <= k < |y.operators| ==> y.operators[k] != "("
    ensures r.Err? ==> r.error == UnmatchedClose
    ensures r.Ok? ==>
      var n := |r.value.operators|;
      n < |y.operators| && y.operators[n] == "(" && r.value.operators == y.operators[..n]
      && forall k :: n < k < |y.operators| ==> y.operators[k] != "("
    decreases |y.operators|
  {
    if y.operators == [] then Err(UnmatchedClose)
    else
      var n := |y.operators| - 1;
      var top := y.operators[n];
      if top == "(" then Ok(Yard(y.words, y.operators[..n]))
      else CloseParen(Yard(y.words + [top], y.operators[..n]))
  }

  /** What a successful close writes: the operators above the nearest `(`, top first. */
  lemma {:induction false} CloseParenOutput(y: Yard, r: Yard)
    requires CloseParen(y) == Ok(r)
    ensures r.words == y.words + Reversed(y.operators[|r.operators| + 1..])
    decreases |y.operators|
  {
    var n := |y.operators| - 1;
    var top := y.operators[n];
    if top == "(" {
      assert y.operators[n + 1..] == [];
    } else {
      var y' := Yard(y.words + [top], y.operators[..n]);
      CloseParenOutput(y', r);
      PoppedTopFirst(y.words, y.operators, |r.operators| + 1, r.words);
    }
  }

  /** Before an operator is pushed, every operator on top of the stack whose priority
      is at least its own moves to the output; a `(` stops the popping. */
  function PopWhileHigher(y: Yard, op: string): (r: Yard)
    requires IsOperator(op) && OpsOk(y.operators)
    ensures |r.operators| <= |y.operators| && r.operators == y.operators[..|r.operators|]
    decreases |y.operators|
  {
    if y.operators == [] then y
    else
      var n := |y.operators| - 1;
      var top := y.operators[n];
      if top == "(" || Priority(top) < Priority(op) then y
      else PopWhileHigher(Yard(y.words + [top], y.operators[..n]), op)
  }

  lemma OpsOkPrefix(ops: seq<string>, n: nat)
    requires OpsOk(ops) && n <= |ops|
    ensures OpsOk(ops[..n])
  {
    assert forall k :: 0 <= k < n ==> ops[..n][k] == ops[k];
  }

  /** Which operators are popped: all those above the first `(` or lower-priority
      operator, counting from the top. */
  lemma {:induction false} PopWhileHigherStops(y: Yard, op: string, r: Yard)
    requires IsOperator(op) && OpsOk(y.operators) && r == PopWhileHigher(y, op)
    ensures forall k :: |r.operators| <= k < |y.operators| ==>
      y.operators[k] != "(" && Priority(y.operators[k]) >= Priority(op)
    ensures |r.operators| == 0 || y.operators[|r.operators| - 1] == "("
      || Priority(y.operators[|r.operators| - 1]) < Priority(op)
    decreases |y.operators|
  {
    if y.operators != [] {
      var n := |y.operators| - 1;
      var top := y.operators[n];
      if !(top == "(" || Priority(top) < Priority(op)) {
        OpsOkPrefix(y.operators, n);
        var y' := Yard(y.words + [top], y.operators[..n]);
        PopWhileHigherStops(y', op, r);
      }
    }
  }

  /** What the popping writes: the popped operators, top first. */
  lemma {:induction false} PopWhileHigherOutput(y: Yard, op: string, r: Yard)
    requires IsOperator(op) && OpsOk(y.operators) && r == PopWhileHigher(y, op)
    ensures r.words == y.words + Reversed(y.operators[|r.operators|..])
    decreases |y.operators|
  {
    if y.operators != [] {
      var n := |y.operators| - 1;
      var top := y.operators[n];
      if top == "(" || Priority(top) < Priority(op) {
        assert y.operators[n + 1..] == [];
      } else {
        OpsOkPrefix(y.operators, n);
        var y' := Yard(y.words + [top], y.operators[..n]);
        PopWhileHigherOutput(y', op, r);
        PoppedTopFirst(y.words, y.operators, |r.operators|, r.words);
      }
    }
  }

  /** Writing the top operator and then the rest of the popped ones, top first, is
      writing all of them top first. */
  lemma PoppedTopFirst(words: seq<string>, ops: seq<string>, m: nat, out: seq<string>)
    requires m < |ops|
    requires out == (words + [ops[|ops| - 1]]) + Reversed(ops[..|ops| - 1][m..])
    ensures out == words + Reversed(ops[m..])
  {
    var n := |ops| - 1;
    var tail := ops[m..n];
    assert ops[..n][m..] == tail;
    assert ops[m..] == tail + [ops[n]];
    ReversedSnoc(tail, ops[n]);
  }

  /** One iteration of the `for elem in elements` loop. */
  function Step(y: Yard, elem: string): (r: Result<Yard, QueryError>)
    requires OpsOk(y.operators)
    ensures r.Err? <==> elem == ")" && "(" !in y.operators
    ensures r.Ok? ==> OpsOk(r.value.operators)
  {
    if elem == "(" then Ok(Yard(y.words, y.operators + [elem]))
    else if elem == ")" then CloseParen(y)
    else if IsOperator(elem) then
      var p := PopWhileHigher(y, elem);
      Ok(Yard(p.words, p.operators + [elem]))
    else Ok(Yard(y.words + [LowerStr(elem)], y.operators))
  }

  /** The loop over the elements, stopping at the first error. */
  function Run(y: Yard, elems: seq<string>): (r: Result<Yard, QueryError>)
    requires OpsOk(y.operators)
    ensures r.Ok? ==> OpsOk(r.value.operators)
    decreases |elems|
  {
    if elems == [] then Ok(y)
    else
      match Step(y, elems[0])
      case Err(e) => Err(e)
      case Ok(next) => Run(next, elems[1..])
  }

  /** The closing loop: the operators left on the stack go to the output, top first. */
  function Flush(y: Yard): seq<string>
  {
    y.words + Reversed(y.operators)
  }

  /** The specification of `_to_postfix(elements)`. */
  function Postfix(elems: seq<string>): Result<seq<string>, QueryError>
  {
    match Run(Yard([], []), elems)
    case Err(e) => Err(e)
    case Ok(y) => Ok(Flush(y))
  }

  /** The `while operators[-1] != '('` loop and the pop of the `(` after it. */
  method CloseParenInPlace(words0: seq<string>, operators0: seq<string>)
    returns (r: Result<Yard, QueryError>)
    ensures r == CloseParen(Yard(words0, operators0))
  {
    var words, operators := words0, operators0;
    while operators != [] && operators[|operators| - 1] != "("
      invariant CloseParen(Yard(words, operators)) == CloseParen(Yard(words0, operators0))
    {
      words := words + [operators[|operators| - 1]];
      operators := operators[..|operators| - 1];
    }
    if operators == [] {
      return Err(UnmatchedClose);
    }
    return Ok(Yard(words, operators[..|operators| - 1]));
  }

  /** The popping loop run before an operator is pushed. */
  method PopWhileHigherInPlace(words0: seq<string>, operators0: seq<string>, op: string)
    returns (words: seq<string>, operators: seq<string>)
    requires IsOperator(op) && OpsOk(operators0)
    ensures Yard(words, operators) == PopWhileHigher(Yard(words0, operators0), op)
  {
    words, operators := words0, operators0;
    while operators != [] && operators[|operators| - 1] != "("
          && Priority(operators[|operators| - 1]) >= Priority(op)
      invariant OpsOk(operators)
      invariant PopWhileHigher(Yard(words, operators), op) == PopWhileHigher(Yard(words0, operators0), op)
    {
      words := words + [operators[|operators| - 1]];
      operators := operators[..|operators| - 1];
    }
  }

  /** The final `while operators` loop. */
  method FlushInPlace(words0: seq<string>, operators0: seq<string>) returns (words: seq<string>)
    ensures words == Flush(Yard(words0, operators0))
  {
    words := words0;
    var operators := operators0;
    while operators != []
      invariant words + Reversed(operators) == Flush(Yard(words0, operators0))
    {
      var top := operators[|operators| - 1];
      assert Reversed(operators) == [top] + Reversed(operators[..|operators| - 1]);
      assert words + Reversed(operators) == (words + [top]) + Reversed(operators[..|operators| - 1]);
      words := words + [top];
      operators := operators[..|operators| - 1];
    }
    assert Reversed(operators) == [] && words + [] == words;
  }

  /** `_to_postfix(elements)`: the output list and the operator stack are updated
      element by element. */
  method ToPostfix(elements: seq<string>) returns (r: Result<seq<string>, QueryError>)
    ensures r == Postfix(elements)
  {
    var words: seq<string> := [];
    var operators: seq<string> := [];
    for i := 0 to |elements|
      invariant OpsOk(operators)
      invariant Run(Yard(words, operators), elements[i..]) == Run(Yard([], []), elements)
    {
      var elem := elements[i];
      assert elements[i..][1..] == elements[i + 1..];
      if elem == "(" {
        operators := operators + [elem];
      } else if elem == ")" {
        var closed := CloseParenInPlace(words, operators);
        if closed.Err? {
          return Err(closed.error);
        }
        words, operators := closed.value.words, closed.value.operators;
      } else if IsOperator(elem) {
        words, operators := PopWhileHigherInPlace(words, operators, elem);
        operators := operators + [elem];
      } else {
        words := words + [LowerStr(elem)];
      }
    }
    assert elements[|elements|..] == [];
    words := FlushInPlace(words, operators);
    return Ok(words);
  }

  // ---------------------------------------------------------------- what the conversion keeps

  /** The search terms of a token list, in order. */
  function TermsOf(s: seq<string>): seq<string>
  {
    if s == [] then [] else (if IsTerm(s[0]) then [s[0]] else []) + TermsOf(s[1..])
  }

  lemma {:induction false} TermsOfAppend(a: seq<string>, b: seq<string>)
    ensures TermsOf(a + b) == TermsOf(a) + TermsOf(b)
  {
    if a == [] {
      assert a + b == b;
    } else {
      TermsOfAppend(a[1..], b);
      assert (a + b)[0] == a[0] && (a + b)[1..] == a[1..] + b;
    }
  }

  lemma {:induction false} TermsOfNone(s: seq<string>)
    requires forall x :: x in multiset(s) ==> !IsTerm(x)
    ensures TermsOf(s) == []
  {
    if s != [] {
      assert s[0] in multiset(s);
      assert multiset(s[1..]) <= multiset(s) by {
        assert s == [s[0]] + s[1..];
      }
      TermsOfNone(s[1..]);
    }
  }

  /** `elem.lower()` applied to each term. */
  function LowerAll(ts: seq<string>): (r: seq<string>)
    ensures |r| == |ts| && forall i :: 0 <= i < |ts| ==> r[i] == LowerStr(ts[i])
  {
    seq(|ts|, i requires 0 <= i < |ts| => LowerStr(ts[i]))
  }

  /** Lower-casing never turns a term into a parenthesis or an operator. */
  lemma LowerTerm(t: string)
    requires IsTerm(t)
    ensures IsTerm(LowerStr(t))
  {
    var l := LowerStr(t);
    if |t| == 1 {
      assert l == [Lower(t[0])];
      assert t == [t[0]];
    }
    if |t| > 0 {
      assert !IsAsciiUpper(l[0]);
    }
  }

  lemma {:induction false} ReversedMultiset<T>(s: seq<T>)
    ensures multiset(Reversed(s)) == multiset(s)
  {
    if s != [] {
      ReversedMultiset(s[..|s| - 1]);
      assert s == s[..|s| - 1] + [s[|s| - 1]];
    }
  }

  /** The opening parentheses minus the closing ones. */
  function Depth(c: seq<string>): int
  {
    var opens: int := multiset(c)["("];
    opens - multiset(c)[")"]
  }

  /** No prefix closes more parentheses than it opens. */
  predicate NeverNegative(c: seq<string>) {
    forall j :: 0 <= j <= |c| ==> Depth(c[..j]) >= 0
  }

  lemma NeverNegativeSnoc(c: seq<string>, e: string)
    ensures NeverNegative(c + [e]) <==> NeverNegative(c) && Depth(c + [e]) >= 0
  {
    var d := c + [e];
    assert d[..|d|] == d;
    forall j | 0 <= j <= |c|
      ensures d[..j] == c[..j]
    {
    }
  }

  /** Each operator is on the stack or already written, as often as it was read. */
  predicate Tally(y: Yard, c: seq<string>, o: string) {
    multiset(y.words)[o] + multiset(y.operators)[o] == multiset(c)[o]
  }

  /** The parentheses read so far: every `(` not yet closed is on the stack, and no
      parenthesis has been written. */
  predicate Nesting(y: Yard, c: seq<string>) {
    OpsOk(y.operators)
    && NeverNegative(c)
    && multiset(y.operators)["("] == Depth(c)
    && multiset(y.words)["("] == 0 && multiset(y.words)[")"] == 0
  }

  /** The terms and operators read so far: the terms are written in order, and each
      operator is written or stacked. */
  predicate Counted(y: Yard, c: seq<string>) {
    TermsOf(y.words) == LowerAll(TermsOf(c))
    && Tally(y, c, "OR") && Tally(y, c, "AND") && Tally(y, c, "NOT")
  }

  /** What holds of the state after the elements `c` have been read without error. */
  predicate Consumed(y: Yard, c: seq<string>) {
    Nesting(y, c) && Counted(y, c)
  }

  /** Moving a run of operators from the top of the stack to the output loses and
      invents nothing and writes no term or parenthesis. */
  lemma MoveOperators(w: seq<string>, ops: seq<string>, n: nat)
    requires n <= |ops| && forall k :: n <= k < |ops| ==> IsOperator(ops[k])
    ensures multiset(w + Reversed(ops[n..])) == multiset(w) + multiset(ops[n..])
    ensures multiset(ops) == multiset(ops[..n]) + multiset(ops[n..])
    ensures TermsOf(w + Reversed(ops[n..])) == TermsOf(w)
    ensures multiset(ops[n..])["("] == 0 && multiset(ops[n..])[")"] == 0
  {
    var run := ops[n..];
    assert ops == ops[..n] + run;
    ReversedMultiset(run);
    assert "(" !in run && ")" !in run by {
      forall k | 0 <= k < |run|
        ensures run[k] != "(" && run[k] != ")"
      {
        assert IsOperator(ops[n + k]);
      }
    }
    OperatorsAreNoTerms(w, run);
  }

  lemma OperatorsAreNoTerms(w: seq<string>, run: seq<string>)
    requires forall k :: 0 <= k < |run| ==> IsOperator(run[k])
    ensures TermsOf(w + Reversed(run)) == TermsOf(w)
  {
    ReversedMultiset(run);
    TermsOfAppend(w, Reversed(run));
    forall x | x in multiset(Reversed(run))
      ensures !IsTerm(x)
    {
      assert x in run;
    }
    TermsOfNone(Reversed(run));
    assert w + [] == w;
  }

  lemma StepKeeps(y: Yard, c: seq<string>, e: string)
    requires Consumed(y, c)
    ensures Step(y, e).Err? <==> e == ")" && Depth(c) == 0
    ensures Step(y, e).Ok? ==> Consumed(Step(y, e).value, c + [e])
  {
    NeverNegativeSnoc(c, e);
    TermsOfAppend(c, [e]);
    assert "(" in y.operators <==> multiset(y.operators)["("] > 0;
    if e == "(" {
      assert TermsOf([e]) == [];
    } else if e == ")" {
      assert TermsOf([e]) == [];
      if Depth(c) > 0 {
        CloseKeeps(y, c);
      }
    } else if IsOperator(e) {
      assert TermsOf([e]) == [];
      PushKeeps(y, c, e);
    } else {
      TermKeeps(y, c, e);
    }
  }

  lemma CloseKeeps(y: Yard, c: seq<string>)
    requires Consumed(y, c) && Depth(c) > 0
    ensures CloseParen(y).Ok? && Consumed(CloseParen(y).value, c + [")"])
  {
    assert "(" in y.operators by {
      assert multiset(y.operators)["("] > 0;
    }
    var r, run := CloseMoves(y);
    ClosedKeeps(y, c, r, run);
  }

  /** A successful close moves the operators above the `(` to the output and drops
      the `(`. */
  lemma CloseMoves(y: Yard) returns (r: Yard, run: seq<string>)
    requires OpsOk(y.operators) && "(" in y.operators
    ensures CloseParen(y) == Ok(r)
    ensures OpsOk(r.operators)
    ensures multiset(r.words) == multiset(y.words) + multiset(run)
    ensures multiset(y.operators) == multiset(r.operators) + multiset{"("} + multiset(run)
    ensures TermsOf(r.words) == TermsOf(y.words)
    ensures multiset(run)["("] == 0 && multiset(run)[")"] == 0
  {
    r := CloseParen(y).value;
    var n := |r.operators|;
    run := y.operators[n + 1..];
    CloseParenOutput(y, r);
    MovedAbove(y.words, y.operators, n, r.operators, r.words);
  }

  /** The bookkeeping of a close, on the stack before it and the state after it. */
  lemma MovedAbove(w: seq<string>, ops: seq<string>, n: nat, rOps: seq<string>, rWords: seq<string>)
    requires OpsOk(ops) && n < |ops| && ops[n] == "(" && rOps == ops[..n]
    requires forall k :: n < k < |ops| ==> ops[k] != "("
    requires rWords == w + Reversed(ops[n + 1..])
    ensures OpsOk(rOps)
    ensures multiset(rWords) == multiset(w) + multiset(ops[n + 1..])
    ensures multiset(ops) == multiset(rOps) + multiset{"("} + multiset(ops[n + 1..])
    ensures TermsOf(rWords) == TermsOf(w)
    ensures multiset(ops[n + 1..])["("] == 0 && multiset(ops[n + 1..])[")"] == 0
  {
    assert multiset(ops) == multiset(rOps) + multiset{"("} + multiset(ops[n + 1..]) by {
      MultisetAround(ops, n);
    }
    OpsOkPrefix(ops, n);
    assert forall k :: n + 1 <= k < |ops| ==> IsOperator(ops[k]);
    MoveOperators(w, ops, n + 1);
  }

  lemma MultisetAround<T>(s: seq<T>, n: nat)
    requires n < |s|
    ensures multiset(s) == multiset(s[..n]) + multiset{s[n]} + multiset(s[n + 1..])
  {
    assert s == s[..n] + [s[n]] + s[n + 1..];
  }

  lemma ClosedKeeps(y: Yard, c: seq<string>, r: Yard, run: seq<string>)
    requires Consumed(y, c) && OpsOk(r.operators)
    requires multiset(r.words) == multiset(y.words) + multiset(run)
    requires multiset(y.operators) == multiset(r.operators) + multiset{"("} + multiset(run)
    requires TermsOf(r.words) == TermsOf(y.words)
    requires multiset(run)["("] == 0 && multiset(run)[")"] == 0
    ensures Consumed(r, c + [")"])
  {
    ClosedNesting(y, c, r, run);
    ClosedCounted(y, c, r, run);
  }

  lemma ClosedNesting(y: Yard, c: seq<string>, r: Yard, run: seq<string>)
    requires Nesting(y, c) && OpsOk(r.operators)
    requires multiset(r.words) == multiset(y.words) + multiset(run)
    requires multiset(y.operators) == multiset(r.operators) + multiset{"("} + multiset(run)
    requires multiset(run)["("] == 0 && multiset(run)[")"] == 0
    ensures Nesting(r, c + [")"])
  {
    NeverNegativeSnoc(c, ")");
  }

  lemma ClosedCounted(y: Yard, c: seq<string>, r: Yard, run: seq<string>)
    requires Counted(y, c)
    requires multiset(r.words) == multiset(y.words) + multiset(run)
    requires multiset(y.operators) == multiset(r.operators) + multiset{"("} + multiset(run)
    requires TermsOf(r.words) == TermsOf(y.words)
    ensures Counted(r, c + [")"])
  {
    assert TermsOf(c + [")"]) == TermsOf(c) by {
      TermsOfAppend(c, [")"]);
      assert TermsOf([")"]) == [];
    }
    TallyClosed(y, c, r, run, "OR");
    TallyClosed(y, c, r, run, "AND");
    TallyClosed(y, c, r, run, "NOT");
  }

  /** The count of an operator `o` is kept when a `)` is read and the operators above
      its `(` are written. */
  lemma TallyClosed(y: Yard, c: seq<string>, r: Yard, run: seq<string>, o: string)
    requires Tally(y, c, o) && o != "(" && o != ")"
    requires multiset(r.words) == multiset(y.words) + multiset(run)
    requires multiset(y.operators) == multiset(r.operators) + multiset{"("} + multiset(run)
    ensures Tally(r, c + [")"], o)
  {
    assert multiset(c + [")"]) == multiset(c) + multiset{")"};
    assert multiset(r.words)[o] == (multiset(y.words) + multiset(run))[o];
    assert multiset(y.operators)[o] == (multiset(r.operators) + multiset{"("} + multiset(run))[o];
  }

  lemma PushKeeps(y: Yard, c: seq<string>, e: string)
    requires Consumed(y, c) && IsOperator(e)
    ensures Step(y, e).Ok? && Consumed(Step(y, e).value, c + [e])
  {
    var p, run := PopMoves(y, e);
    assert Step(y, e) == Ok(Yard(p.words, p.operators + [e]));
    PushedKeeps(y, c, e, p, run);
  }

  /** The popping before a push moves a run of operators to the output. */
  lemma PopMoves(y: Yard, e: string) returns (p: Yard, run: seq<string>)
    requires OpsOk(y.operators) && IsOperator(e)
    ensures p == PopWhileHigher(y, e)
    ensures OpsOk(p.operators)
    ensures multiset(p.words) == multiset(y.words) + multiset(run)
    ensures multiset(y.operators) == multiset(p.operators) + multiset(run)
    ensures TermsOf(p.words) == TermsOf(y.words)
    ensures multiset(run)["("] == 0 && multiset(run)[")"] == 0
  {
    p := PopWhileHigher(y, e);
    run := y.operators[|p.operators|..];
    PopWhileHigherOutput(y, e, p);
    PopWhileHigherStops(y, e, p);
    MoveOperators(y.words, y.operators, |p.operators|);
  }

  lemma PushedKeeps(y: Yard, c: seq<string>, e: string, p: Yard, run: seq<string>)
    requires Consumed(y, c) && IsOperator(e) && OpsOk(p.operators)
    requires multiset(p.words) == multiset(y.words) + multiset(run)
    requires multiset(y.operators) == multiset(p.operators) + multiset(run)
    requires TermsOf(p.words) == TermsOf(y.words)
    requires multiset(run)["("] == 0 && multiset(run)[")"] == 0
    ensures Consumed(Yard(p.words, p.operators + [e]), c + [e])
  {
    PushedNesting(y, c, e, p, run);
    PushedCounted(y, c, e, p, run);
  }

  lemma PushedNesting(y: Yard, c: seq<string>, e: string, p: Yard, run: seq<string>)
    requires Nesting(y, c) && IsOperator(e) && OpsOk(p.operators)
    requires multiset(p.words) == multiset(y.words) + multiset(run)
    requires multiset(y.operators) == multiset(p.operators) + multiset(run)
    requires multiset(run)["("] == 0 && multiset(run)[")"] == 0
    ensures Nesting(Yard(p.words, p.operators + [e]), c + [e])
  {
    NeverNegativeSnoc(c, e);
    assert e != "(" && e != ")";
  }

  lemma PushedCounted(y: Yard, c: seq<string>, e: string, p: Yard, run: seq<string>)
    requires Counted(y, c) && IsOperator(e)
    requires multiset(p.words) == multiset(y.words) + multiset(run)
    requires multiset(y.operators) == multiset(p.operators) + multiset(run)
    requires TermsOf(p.words) == TermsOf(y.words)
    ensures Counted(Yard(p.words, p.operators + [e]), c + [e])
  {
    var r := Yard(p.words, p.operators + [e]);
    assert TermsOf(c + [e]) == TermsOf(c) by {
      TermsOfAppend(c, [e]);
      assert TermsOf([e]) == [];
    }
    TallyMoved(y, c, e, r, run, "OR");
    TallyMoved(y, c, e, r, run, "AND");
    TallyMoved(y, c, e, r, run, "NOT");
  }

  /** The count of `o` is kept when a run moves from the stack to the output and
      `e` is pushed. */
  lemma TallyMoved(y: Yard, c: seq<string>, e: string, r: Yard, run: seq<string>, o: string)
    requires Tally(y, c, o)
    requires multiset(r.words) == multiset(y.words) + multiset(run)
    requires multiset(y.operators) + multiset{e} == multiset(r.operators) + multiset(run)
    ensures Tally(r, c + [e], o)
  {
    assert multiset(c + [e]) == multiset(c) + multiset{e};
    assert multiset(r.words)[o] == (multiset(y.words) + multiset(run))[o];
    assert (multiset(y.operators) + multiset{e})[o] == (multiset(r.operators) + multiset(run))[o];
  }

  /** The count of an operator `o` is kept when a term other than `o` is read and
      written as another term other than `o`. */
  lemma TallyTerm(y: Yard, c: seq<string>, e: string, l: string, o: string)
    requires Tally(y, c, o) && o != e && o != l
    ensures Tally(Yard(y.words + [l], y.operators), c + [e], o)
  {
    assert multiset(c + [e]) == multiset(c) + multiset{e};
    assert multiset(y.words + [l]) == multiset(y.words) + multiset{l};
  }

  lemma TermKeeps(y: Yard, c: seq<string>, e: string)
    requires Consumed(y, c) && IsTerm(e)
    ensures Step(y, e).Ok? && Consumed(Step(y, e).value, c + [e])
  {
    var l := LowerStr(e);
    assert Step(y, e) == Ok(Yard(y.words + [l], y.operators));
    LowerTerm(e);
    TermNesting(y, c, e, l);
    TermCounted(y, c, e, l);
  }

  lemma TermNesting(y: Yard, c: seq<string>, e: string, l: string)
    requires Nesting(y, c) && IsTerm(e) && IsTerm(l)
    ensures Nesting(Yard(y.words + [l], y.operators), c + [e])
  {
    NeverNegativeSnoc(c, e);
    assert multiset(y.words + [l]) == multiset(y.words) + multiset{l};
  }

  lemma TermCounted(y: Yard, c: seq<string>, e: string, l: string)
    requires Counted(y, c) && IsTerm(e) && IsTerm(l) && l == LowerStr(e)
    ensures Counted(Yard(y.words + [l], y.operators), c + [e])
  {
    TermsOfSnoc(c, e);
    TermsOfSnoc(y.words, l);
    LowerAllSnoc(TermsOf(c), e);
    OperatorNames(e);
    OperatorNames(l);
    TallyTerm(y, c, e, l, "OR");
    TallyTerm(y, c, e, l, "AND");
    TallyTerm(y, c, e, l, "NOT");
  }

  lemma OperatorNames(t: string)
    ensures IsOperator(t) <==> t == "OR" || t == "AND" || t == "NOT"
  {
  }

  lemma TermsOfSnoc(s: seq<string>, e: string)
    ensures TermsOf(s + [e]) == TermsOf(s) + (if IsTerm(e) then [e] else [])
  {
    TermsOfAppend(s, [e]);
    assert [e][1..] == [];
  }

  lemma LowerAllSnoc(ts: seq<string>, e: string)
    ensures LowerAll(ts + [e]) == LowerAll(ts) + [LowerStr(e)]
  {
  }

  lemma {:induction false} RunKeeps(y: Yard, c: seq<string>, rest: seq<string>)
    requires Consumed(y, c)
    ensures Run(y, rest).Err? <==> !NeverNegative(c + rest)
    ensures Run(y, rest).Err? ==> Run(y, rest).error == UnmatchedClose
    ensures Run(y, rest).Ok? ==> Consumed(Run(y, rest).value, c + rest)
    decreases |rest|
  {
    if rest == [] {
      assert c + rest == c;
    } else {
      var e := rest[0];
      StepKeeps(y, c, e);
      assert c + rest == (c + [e]) + rest[1..];
      match Step(y, e)
      case Err(_) =>
        var d := c + rest;
        assert d[..|c| + 1] == c + [e];
        assert Depth(c + [e]) < 0;
      case Ok(next) =>
        RunKeeps(next, c + [e], rest[1..]);
    }
  }

  lemma FlushKeeps(y: Yard, c: seq<string>)
    requires Consumed(y, c)
    ensures multiset(Flush(y)) == multiset(y.words) + multiset(y.operators)
    ensures TermsOf(Flush(y)) == TermsOf(y.words)
  {
    ReversedMultiset(y.operators);
    TermsOfAppend(y.words, Reversed(y.operators));
    forall x | x in multiset(Reversed(y.operators))
      ensures !IsTerm(x)
    {
      assert x in y.operators;
    }
    TermsOfNone(Reversed(y.operators));
  }

  /** The invariant from the first element to the last. */
  lemma RunFromStart(elems: seq<string>)
    ensures Run(Yard([], []), elems).Err? <==> !NeverNegative(elems)
    ensures Run(Yard([], []), elems).Err? ==> Run(Yard([], []), elems).error == UnmatchedClose
    ensures Run(Yard([], []), elems).Ok? ==> Consumed(Run(Yard([], []), elems).value, elems)
  {
    var none: seq<string> := [];
    assert Consumed(Yard([], []), none) by {
      assert none[..0] == none;
    }
    RunKeeps(Yard([], []), none, elems);
    assert none + elems == elems;
  }

  /** The conversion fails exactly when some `)` has no `(` to close, and then
      with that error. */
  lemma PostfixFails(elems: seq<string>)
    ensures Postfix(elems).Err? <==> exists j :: 0 <= j <= |elems| && Depth(elems[..j]) < 0
    ensures Postfix(elems).Err? ==> Postfix(elems).error == UnmatchedClose
  {
    RunFromStart(elems);
  }

  /** Every term is written, lower-cased, in the order it was read. */
  lemma PostfixKeepsTerms(elems: seq<string>)
    ensures Postfix(elems).Ok? ==> TermsOf(Postfix(elems).value) == LowerAll(TermsOf(elems))
  {
    RunFromStart(elems);
    if Postfix(elems).Ok? {
      FlushKeeps(Run(Yard([], []), elems).value, elems);
    }
  }

  /** Every operator is written as often as it was read; no `)` is written; every
      `(` left open is written. */
  lemma PostfixKeepsOperators(elems: seq<string>)
    ensures Postfix(elems).Ok? ==>
      var out := Postfix(elems).value;
      multiset(out)[")"] == 0 && multiset(out)["("] == Depth(elems)
      && multiset(out)["OR"] == multiset(elems)["OR"]
      && multiset(out)["AND"] == multiset(elems)["AND"]
      && multiset(out)["NOT"] == multiset(elems)["NOT"]
  {
    RunFromStart(elems);
    if Postfix(elems).Ok? {
      var y := Run(Yard([], []), elems).value;
      FlushKeeps(y, elems);
      assert Tally(y, elems, "OR") && Tally(y, elems, "AND") && Tally(y, elems, "NOT");
    }
  }

  // ---------------------------------------------------------------- examples

  /** Reading a term writes it, lower-cased. */
  lemma RunTerm(y: Yard, t: string, rest: seq<string>)
    requires OpsOk(y.operators) && IsTerm(t)
    ensures Run(y, [t] + rest) == Run(Yard(y.words + [LowerStr(t)], y.operators), rest)
  {
    assert ([t] + rest)[0] == t && ([t] + rest)[1..] == rest;
  }

  /** Reading an operator pushes it once the popping is done. */
  lemma RunOperator(y: Yard, op: string, rest: seq<string>)
    requires OpsOk(y.operators) && IsOperator(op)
    ensures Run(y, [op] + rest)
      == Run(Yard(PopWhileHigher(y, op).words, PopWhileHigher(y, op).operators + [op]), rest)
  {
    assert ([op] + rest)[0] == op && ([op] + rest)[1..] == rest;
  }

  /** Reading `(` pushes it. */
  lemma RunOpen(y: Yard, rest: seq<string>)
    requires OpsOk(y.operators)
    ensures Run(y, ["("] + rest) == Run(Yard(y.words, y.operators + ["("]), rest)
  {
    assert (["("] + rest)[0] == "(" && (["("] + rest)[1..] == rest;
  }

  /** An operator read just after a `(` is pushed on top of it. */
  lemma RunOperatorAfterOpen(w: seq<string>, ops: seq<string>, op: string, rest: seq<string>)
    requires OpsOk(ops) && IsOperator(op)
    ensures OpsOk(ops + ["("])
    ensures Run(Yard(w, ops + ["("]), [op] + rest) == Run(Yard(w, ops + ["(", op]), rest)
  {
    var y := Yard(w, ops + ["("]);
    assert OpsOk(y.operators) by {
      assert forall k :: 0 <= k < |ops| ==> y.operators[k] == ops[k];
    }
    assert PopWhileHigher(y, op) == y;
    RunOperator(y, op, rest);
    assert ops + ["("] + [op] == ops + ["(", op];
  }

  /** A `)` read while an operator sits on its `(` writes the operator and drops the `(`. */
  lemma RunCloseOver(w: seq<string>, ops: seq<string>, op: string, rest: seq<string>)
    requires OpsOk(ops) && IsOperator(op)
    ensures OpsOk(ops + ["(", op])
    ensures Run(Yard(w, ops + ["(", op]), [")"] + rest) == Run(Yard(w + [op], ops), rest)
  {
    var y := Yard(w, ops + ["(", op]);
    assert OpsOk(y.operators) by {
      assert forall k :: 0 <= k < |ops| ==> y.operators[k] == ops[k];
    }
    var n := |ops| + 1;
    assert y.operators[..n] == ops + ["("] && (ops + ["("])[..|ops|] == ops;
    assert CloseParen(y) == CloseParen(Yard(w + [op], ops + ["("]));
    assert CloseParen(y) == Ok(Yard(w + [op], ops));
    assert ([")"] + rest)[0] == ")" && ([")"] + rest)[1..] == rest;
  }

  /** Two terms joined by an operator, read onto an empty operator stack. */
  lemma RunBinary(w: seq<string>, a: string, op: string, b: string, rest: seq<string>)
    requires IsTerm(a) && IsOperator(op) && IsTerm(b)
    ensures Run(Yard(w, []), [a, op, b] + rest)
      == Run(Yard(w + [LowerStr(a), LowerStr(b)], [op]), rest)
  {
    var la, lb := LowerStr(a), LowerStr(b);
    var none: seq<string> := [];
    var r2 := [b] + rest;
    var r1 := [op] + r2;
    assert [a, op, b] + rest == [a] + r1;
    assert Run(Yard(w, []), [a] + r1) == Run(Yard(w + [la], []), r1) by {
      RunTerm(Yard(w, []), a, r1);
    }
    assert Run(Yard(w + [la], []), r1) == Run(Yard(w + [la], [op]), r2) by {
      assert PopWhileHigher(Yard(w + [la], []), op) == Yard(w + [la], []);
      RunOperator(Yard(w + [la], []), op, r2);
      assert none + [op] == [op];
    }
    RunTerm(Yard(w + [la], [op]), b, rest);
    assert w + [la] + [lb] == w + [la, lb];
  }

  /** `a OR b AND c`: AND binds tighter, so OR waits on the stack below it. */
  lemma AndBindsTighter(a: string, b: string, c: string)
    requires IsTerm(a) && IsTerm(b) && IsTerm(c)
    ensures Postfix([a, "OR", b, "AND", c])
      == Ok([LowerStr(a), LowerStr(b), LowerStr(c), "AND", "OR"])
  {
    var la, lb, lc := LowerStr(a), LowerStr(b), LowerStr(c);
    var none: seq<string> := [];
    var r4 := [c] + none;
    var r3 := ["AND"] + r4;
    assert [a, "OR", b, "AND", c] == [a, "OR", b] + r3;
    RunBinary([], a, "OR", b, r3);
    var y3 := Yard(none + [la, lb], ["OR"]);
    var y4 := Yard(none + [la, lb], ["OR", "AND"]);
    assert Run(y3, r3) == Run(y4, r4) by {
      assert PopWhileHigher(y3, "AND") == y3;
      RunOperator(y3, "AND", r4);
      assert ["OR"] + ["AND"] == ["OR", "AND"];
    }
    var y5 := Yard([la, lb, lc], ["OR", "AND"]);
    assert Run(y4, r4) == Ok(y5) by {
      RunTerm(y4, c, none);
      assert none + [la, lb] + [lc] == [la, lb, lc];
    }
    assert Flush(y5) == [la, lb, lc, "AND", "OR"] by {
      ReversedSnoc(["OR"], "AND");
    }
  }

  /** `a AND b AND c`: an operator of equal priority is popped first, so the
      operators group to the left. */
  lemma AndGroupsLeft(a: string, b: string, c: string)
    requires IsTerm(a) && IsTerm(b) && IsTerm(c)
    ensures Postfix([a, "AND", b, "AND", c])
      == Ok([LowerStr(a), LowerStr(b), "AND", LowerStr(c), "AND"])
  {
    var la, lb, lc := LowerStr(a), LowerStr(b), LowerStr(c);
    var none: seq<string> := [];
    var r4 := [c] + none;
    var r3 := ["AND"] + r4;
    assert [a, "AND", b, "AND", c] == [a, "AND", b] + r3;
    RunBinary([], a, "AND", b, r3);
    var y3 := Yard(none + [la, lb], ["AND"]);
    var y4 := Yard([la, lb, "AND"], ["AND"]);
    assert Run(y3, r3) == Run(y4, r4) by {
      assert PopWhileHigher(Yard([la, lb, "AND"], none), "AND") == Yard([la, lb, "AND"], none);
      assert PopWhileHigher(y3, "AND") == Yard([la, lb, "AND"], none) by {
        assert ["AND"][..0] == none;
        assert none + [la, lb] + ["AND"] == [la, lb, "AND"];
      }
      RunOperator(y3, "AND", r4);
      assert none + ["AND"] == ["AND"];
    }
    var y5 := Yard([la, lb, "AND", lc], ["AND"]);
    assert Run(y4, r4) == Ok(y5) by {
      RunTerm(y4, c, none);
      assert [la, lb, "AND"] + [lc] == [la, lb, "AND", lc];
    }
    assert Flush(y5) == [la, lb, "AND", lc, "AND"] by {
      assert Reversed(["AND"]) == ["AND"];
    }
  }

  /** `NOT NOT a`: the second NOT pops the first, which is written before its
      operand. */
  lemma DoubleNot(a: string)
    requires IsTerm(a)
    ensures Postfix(["NOT", "NOT", a]) == Ok(["NOT", LowerStr(a), "NOT"])
  {
    var la := LowerStr(a);
    var none: seq<string> := [];
    var r2 := [a] + none;
    var r1 := ["NOT"] + r2;
    assert ["NOT", "NOT", a] == ["NOT"] + r1;
    var y1 := Yard(none, ["NOT"]);
    var y2 := Yard(["NOT"], ["NOT"]);
    assert Run(Yard(none, none), ["NOT"] + r1) == Run(y1, r1) by {
      assert PopWhileHigher(Yard(none, none), "NOT") == Yard(none, none);
      RunOperator(Yard(none, none), "NOT", r1);
      assert none + ["NOT"] == ["NOT"];
    }
    assert Run(y1, r1) == Run(y2, r2) by {
      assert PopWhileHigher(Yard(["NOT"], none), "NOT") == Yard(["NOT"], none);
      assert PopWhileHigher(y1, "NOT") == Yard(["NOT"], none) by {
        assert ["NOT"][..0] == none;
        assert none + ["NOT"] == ["NOT"];
      }
      RunOperator(y1, "NOT", r2);
      assert none + ["NOT"] == ["NOT"];
    }
    var y3 := Yard(["NOT", la], ["NOT"]);
    assert Run(y2, r2) == Ok(y3) by {
      RunTerm(y2, a, none);
      assert ["NOT"] + [la] == ["NOT", la];
    }
    assert Flush(y3) == ["NOT", la, "NOT"] by {
      assert Reversed(["NOT"]) == ["NOT"];
    }
  }

  /** `( a`: an unclosed `(` is no error; it is written at the end like an operator. */
  lemma UnclosedParenWritten(a: string)
    requires IsTerm(a)
    ensures Postfix(["(", a]) == Ok([LowerStr(a), "("])
  {
    var la := LowerStr(a);
    var none: seq<string> := [];
    var r1 := [a] + none;
    assert ["(", a] == ["("] + r1;
    assert Run(Yard(none, none), ["("] + r1) == Run(Yard(none, ["("]), r1) by {
      assert (["("] + r1)[0] == "(" && (["("] + r1)[1..] == r1;
      assert none + ["("] == ["("];
    }
    assert Run(Yard(none, ["("]), r1) == Ok(Yard([la], ["("])) by {
      RunTerm(Yard(none, ["("]), a, none);
      assert none + [la] == [la];
    }
    assert Flush(Yard([la], ["("])) == [la, "("] by {
      assert Reversed(["("]) == ["("];
    }
  }

  /** `a op b`: both terms, then the operator. */
  lemma PostfixBinary(a: string, op: string, b: string)
    requires IsTerm(a) && IsOperator(op) && IsTerm(b)
    ensures Postfix([a, op, b]) == Ok([LowerStr(a), LowerStr(b), op])
  {
    var none: seq<string> := [];
    var la, lb := LowerStr(a), LowerStr(b);
    assert Run(Yard(none, none), [a, op, b]) == Ok(Yard([la, lb], [op])) by {
      assert [a, op, b] == [a, op, b] + none;
      RunBinary(none, a, op, b, none);
      assert none + [la, lb] == [la, lb];
    }
    assert Flush(Yard([la, lb], [op])) == [la, lb, op] by {
      assert Reversed([op]) == [op];
    }
  }

  /** `op a`: an operator before its only term is written after it. */
  lemma PostfixPrefix(op: string, a: string)
    requires IsOperator(op) && IsTerm(a)
    ensures Postfix([op, a]) == Ok([LowerStr(a), op])
  {
    var la := LowerStr(a);
    var none: seq<string> := [];
    var r1 := [a] + none;
    assert [op, a] == [op] + r1;
    assert Run(Yard(none, none), [op] + r1) == Run(Yard(none, [op]), r1) by {
      assert PopWhileHigher(Yard(none, none), op) == Yard(none, none);
      RunOperator(Yard(none, none), op, r1);
      assert none + [op] == [op];
    }
    assert Run(Yard(none, [op]), r1) == Ok(Yard([la], [op])) by {
      RunTerm(Yard(none, [op]), a, none);
      assert none + [la] == [la];
    }
    assert Flush(Yard([la], [op])) == [la, op] by {
      assert Reversed([op]) == [op];
    }
  }

  /** `a AND NOT b`: NOT binds tighter than AND, so it is written first. */
  lemma PostfixAndNot(a: string, b: string)
    requires IsTerm(a) && IsTerm(b)
    ensures Postfix([a, "AND", "NOT", b]) == Ok([LowerStr(a), LowerStr(b), "NOT", "AND"])
  {
    var la, lb := LowerStr(a), LowerStr(b);
    var none: seq<string> := [];
    var r3 := [b] + none;
    var r2 := ["NOT"] + r3;
    var r1 := ["AND"] + r2;
    assert [a, "AND", "NOT", b] == [a] + r1;
    var y2 := Yard([la], ["AND"]);
    var y3 := Yard([la], ["AND", "NOT"]);
    assert Run(Yard(none, none), [a] + r1) == Run(y2, r2) by {
      RunTerm(Yard(none, none), a, r1);
      assert none + [la] == [la];
      assert PopWhileHigher(Yard([la], none), "AND") == Yard([la], none);
      RunOperator(Yard([la], none), "AND", r2);
      assert none + ["AND"] == ["AND"];
    }
    assert Run(y2, r2) == Run(y3, r3) by {
      assert PopWhileHigher(y2, "NOT") == y2;
      RunOperator(y2, "NOT", r3);
      assert ["AND"] + ["NOT"] == ["AND", "NOT"];
    }
    assert Run(y3, r3) == Ok(Yard([la, lb], ["AND", "NOT"])) by {
      RunTerm(y3, b, none);
      assert [la] + [lb] == [la, lb];
    }
    assert Flush(Yard([la, lb], ["AND", "NOT"])) == [la, lb, "NOT", "AND"] by {
      ReversedSnoc(["AND"], "NOT");
    }
  }
}
