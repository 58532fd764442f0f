/** `BoolSearch._get_result_searching`: evaluation of a postfix query on a stack of
    page-id sets. The stack is a Python list whose last element is the top; the same
    orientation is kept here. */
module PostfixEval {
  import opened Outcomes
  import opened Sorting

  /** The inverted index as the searcher loads it: each word maps to the page ids
      listed for it, in stored order and possibly repeated. */
  type Index = map<string, seq<int>>

  /** The evaluation stack; the top is the last element. */
  type Stack = seq<set<int>>

  /** `set(self.inverted_index.get(word, []))`: an unknown word has no pages. */
  function Lookup(index: Index, word: string): (r: set<int>)
    ensures word !in index ==> r == {}
    ensures word in index ==> forall x :: x in r <==> x in index[word]
  {
    if word in index then set x | x in index[word] else {}
  }

  /** `self.pages`: every page id listed for any word. */
  function Pages(index: Index): (r: set<int>)
    ensures forall w, x :: w in index && x in index[w] ==> x in r
    ensures forall x :: x in r ==> exists w :: w in index && x in index[w]
  {
    set w, x | w in index && x in index[w] :: x
  }

  /** Every word's pages lie within the universe. */
  lemma LookupWithinPages(index: Index, word: string)
    ensures Lookup(index, word) <= Pages(index)
  {
  }

  // ---------------------------------------------------------------- one element

  /** The two readings of the branch on line 100: as written it is a new `if`, so a
      `NOT` also falls through to the final `else`; the evidently intended reading is
      `elif`, where `NOT` only complements. */
  datatype Dispatch = AsWritten | Corrected

  predicate IsBinary(elem: string) {
    elem == "AND" || elem == "OR"
  }

  /** `operand = stack.pop(); stack.append(self.pages - operand)`. */
  function Complement(pages: set<int>, stack: Stack): (r: Result<Stack, QueryError>)
    ensures r.Err? <==> stack == []
    ensures r.Err? ==> r.error == StackUnderflow
    ensures r.Ok? ==> |r.value| == |stack| && r.value[..|stack| - 1] == stack[..|stack| - 1]
    ensures r.Ok? ==> forall x :: x in r.value[|stack| - 1] <==> x in pages && x !in stack[|stack| - 1]
  {
    if stack == [] then Err(StackUnderflow)
    else Ok(stack[..|stack| - 1] + [pages - stack[|stack| - 1]])
  }

  /** `right, left = stack.pop(), stack.pop()` and the push of their intersection
      (`AND`) or union (`OR`); the second pop of a one-element stack fails as the
      first pop of an empty one does. */
  function Combine(stack: Stack, op: string): (r: Result<Stack, QueryError>)
    requires IsBinary(op)
    ensures r.Err? <==> |stack| < 2
    ensures r.Err? ==> r.error == StackUnderflow
    ensures r.Ok? ==> |r.value| == |stack| - 1 && r.value[..|stack| - 2] == stack[..|stack| - 2]
  {
    if |stack| < 2 then Err(StackUnderflow)
    else
      var right, left := stack[|stack| - 1], stack[|stack| - 2];
      Ok(stack[..|stack| - 2] + [if op == "AND" then left * right else left + right])
  }

  /** The branch on lines 100-107, after any `NOT` handling. */
  function CombineOrLookup(index: Index, stack: Stack, elem: string): Result<Stack, QueryError>
  {
    if IsBinary(elem) then Combine(stack, elem) else Ok(stack + [Lookup(index, elem)])
  }

  /** One iteration of the `for elem in postfix` loop. */
  function Step(d: Dispatch, pages: set<int>, index: Index, stack: Stack, elem: string)
    : Result<Stack, QueryError>
  {
    if elem == "NOT" then
      match Complement(pages, stack)
      case Err(e) => Err(e)
      case Ok(s) => if d == AsWritten then CombineOrLookup(index, s, elem) else Ok(s)
    else CombineOrLookup(index, stack, elem)
  }

  /** The loop over the program, stopping at the first error. */
  function Run(d: Dispatch, pages: set<int>, index: Index, stack: Stack, program: seq<string>)
    : Result<Stack, QueryError>
    decreases |program|
  {
    if program == [] then Ok(stack)
    else
      match Step(d, pages, index, stack, program[0])
      case Err(e) => Err(e)
      case Ok(next) => Run(d, pages, index, next, program[1..])
  }

  /** `sorted(stack.pop()) if stack else []`: only the top of the final stack counts. */
  function Finish(stack: Stack): (r: seq<int>)
    ensures stack == [] ==> r == []
    ensures stack != [] ==> IntsAscending(r) && forall x :: x in r <==> x in stack[|stack| - 1]
  {
    if stack == [] then [] else SortedInts(stack[|stack| - 1])
  }

  /** The specification of `_get_result_searching(postfix)`. */
  function Evaluate(d: Dispatch, pages: set<int>, index: Index, program: seq<string>)
    : Result<seq<int>, QueryError>
  {
    match Run(d, pages, index, [], program)
    case Err(e) => Err(e)
    case Ok(stack) => Ok(Finish(stack))
  }

  /** `_get_result_searching(postfix)` as written: the stack is changed in place. */
  method GetResultSearching(pages: set<int>, index: Index, postfix: seq<string>)
    returns (r: Result<seq<int>, QueryError>)
    ensures r == Evaluate(AsWritten, pages, index, postfix)
  {
    var stack: Stack := [];
    for i := 0 to |postfix|
      invariant Run(AsWritten, pages, index, stack, postfix[i..])
        == Run(AsWritten, pages, index, [], postfix)
    {
      var elem := postfix[i];
      assert postfix[i..][1..] == postfix[i + 1..];
      ghost var before := stack;
      if elem == "NOT" {
        if stack == [] {
          return Err(StackUnderflow);
        }
        var operand := stack[|stack| - 1];
        stack := stack[..|stack| - 1];
        stack := stack + [pages - operand];
        assert Complement(pages, before) == Ok(stack);
      }
      ghost var mid := stack;
      if elem == "AND" || elem == "OR" {
        if stack == [] {
          return Err(StackUnderflow);
        }
        var right := stack[|stack| - 1];
        stack := stack[..|stack| - 1];
        if stack == [] {
          return Err(StackUnderflow);
        }
        var left := stack[|stack| - 1];
        stack := stack[..|stack| - 1];
        stack := stack + [if elem == "AND" then left * right else left + right];
        assert mid[..|mid| - 1][..|mid| - 2] == mid[..|mid| - 2];
        assert Combine(mid, elem) == Ok(stack);
      } else {
        stack := stack + [Lookup(index, elem)];
      }
      assert Step(AsWritten, pages, index, before, elem) == Ok(stack);
    }
    assert postfix[|postfix|..] == [];
    if stack != [] {
      return Ok(SortedInts(stack[|stack| - 1]));
    }
    return Ok([]);
  }

  // ---------------------------------------------------------------- run composition

  lemma RunCons(d: Dispatch, pages: set<int>, index: Index, stack: Stack, e: string, rest: seq<string>)
    ensures Step(d, pages, index, stack, e).Err? ==>
      Run(d, pages, index, stack, [e] + rest) == Err(Step(d, pages, index, stack, e).error)
    ensures Step(d, pages, index, stack, e).Ok? ==>
      Run(d, pages, index, stack, [e] + rest) == Run(d, pages, index, Step(d, pages, index, stack, e).value, rest)
  {
    assert ([e] + rest)[0] == e && ([e] + rest)[1..] == rest;
  }

  /** Running two programs one after the other is running their concatenation. */
  lemma {:induction false} RunAppend(d: Dispatch, pages: set<int>, index: Index, stack: Stack,
                                     a: seq<string>, b: seq<string>)
    ensures Run(d, pages, index, stack, a).Err? ==>
      Run(d, pages, index, stack, a + b) == Err(Run(d, pages, index, stack, a).error)
    ensures Run(d, pages, index, stack, a).Ok? ==>
      Run(d, pages, index, stack, a + b) == Run(d, pages, index, Run(d, pages, index, stack, a).value, b)
    decreases |a|
  {
    if a == [] {
      assert a + b == b;
    } else {
      assert a + b == [a[0]] + (a[1..] + b);
      RunCons(d, pages, index, stack, a[0], a[1..] + b);
      RunCons(d, pages, index, stack, a[0], a[1..]);
      assert a == [a[0]] + a[1..];
      match Step(d, pages, index, stack, a[0])
      case Err(_) =>
      case Ok(next) => RunAppend(d, pages, index, next, a[1..], b);
    }
  }

  // ---------------------------------------------------------------- the two readings

  /** The readings differ only on `NOT`: a program without it evaluates alike. */
  lemma {:induction false} ReadingsAgreeWithoutNot(pages: set<int>, index: Index, stack: Stack,
                                                   program: seq<string>)
    requires "NOT" !in program
    ensures Run(AsWritten, pages, index, stack, program) == Run(Corrected, pages, index, stack, program)
    decreases |program|
  {
    if program != [] {
      assert program[0] != "NOT";
      match Step(Corrected, pages, index, stack, program[0])
      case Err(_) =>
      case Ok(next) =>
        assert "NOT" !in program[1..] by {
          assert forall k :: 0 <= k < |program| - 1 ==> program[1..][k] == program[k + 1];
        }
        ReadingsAgreeWithoutNot(pages, index, next, program[1..]);
    }
  }

  /** As written, whatever the operand, a `NOT` leaves the pages of the word "NOT" on
      top of the stack, so a program ending in `NOT` can only return those. */
  lemma TrailingNotAsWritten(pages: set<int>, index: Index, program: seq<string>)
    requires program != [] && program[|program| - 1] == "NOT"
    ensures Evaluate(AsWritten, pages, index, program).Ok? ==>
      Evaluate(AsWritten, pages, index, program).value == SortedInts(Lookup(index, "NOT"))
  {
    var n := |program| - 1;
    assert program == program[..n] + ["NOT"];
    RunAppend(AsWritten, pages, index, [], program[..n], ["NOT"]);
    match Run(AsWritten, pages, index, [], program[..n])
    case Err(_) =>
    case Ok(mid) =>
      var none: seq<string> := [];
      RunCons(AsWritten, pages, index, mid, "NOT", none);
      assert ["NOT"] + none == ["NOT"];
  }

  // ---------------------------------------------------------------- underflow

  /** The stack height after a program, starting from height `n`, or `None` when some
      element finds too few sets: `NOT` needs one, `AND` and `OR` two. */
  function Height(d: Dispatch, n: nat, program: seq<string>): Option<nat>
    decreases |program|
  {
    if program == [] then Some(n)
    else
      var e := program[0];
      if e == "NOT" then
        if n == 0 then None else Height(d, if d == AsWritten then n + 1 else n, program[1..])
      else if IsBinary(e) then
        if n < 2 then None else Height(d, n - 1, program[1..])
      else Height(d, n + 1, program[1..])
  }

  /** Whether evaluation underflows depends on the operators' places alone, not on
      the index or the sets on the stack. */
  lemma {:induction false} RunHeight(d: Dispatch, pages: set<int>, index: Index, stack: Stack,
                                     program: seq<string>)
    ensures Run(d, pages, index, stack, program).Err? <==> Height(d, |stack|, program).None?
    ensures Run(d, pages, index, stack, program).Err? ==>
      Run(d, pages, index, stack, program).error == StackUnderflow
    ensures Run(d, pages, index, stack, program).Ok? ==>
      |Run(d, pages, index, stack, program).value| == Height(d, |stack|, program).value
    decreases |program|
  {
    if program != [] {
      var e := program[0];
      match Step(d, pages, index, stack, e)
      case Err(_) =>
      case Ok(next) =>
        RunHeight(d, pages, index, next, program[1..]);
    }
  }

  // ---------------------------------------------------------------- results lie within the pages

  predicate AllWithin(stack: Stack, pages: set<int>) {
    forall i :: 0 <= i < |stack| ==> stack[i] <= pages
  }

  lemma StepWithin(d: Dispatch, index: Index, stack: Stack, e: string)
    requires AllWithin(stack, Pages(index))
    ensures Step(d, Pages(index), index, stack, e).Ok? ==>
      AllWithin(Step(d, Pages(index), index, stack, e).value, Pages(index))
  {
    LookupWithinPages(index, e);
  }

  lemma {:induction false} RunWithin(d: Dispatch, index: Index, stack: Stack, program: seq<string>)
    requires AllWithin(stack, Pages(index))
    ensures Run(d, Pages(index), index, stack, program).Ok? ==>
      AllWithin(Run(d, Pages(index), index, stack, program).value, Pages(index))
    decreases |program|
  {
    if program != [] {
      StepWithin(d, index, stack, program[0]);
      match Step(d, Pages(index), index, stack, program[0])
      case Err(_) =>
      case Ok(next) => RunWithin(d, index, next, program[1..]);
    }
  }

  /** With the universe of the searcher, every page returned is listed in the index. */
  lemma EvaluateWithinPages(d: Dispatch, index: Index, program: seq<string>)
    ensures Evaluate(d, Pages(index), index, program).Ok? ==>
      forall x :: x in Evaluate(d, Pages(index), index, program).value ==> x in Pages(index)
  {
    RunWithin(d, index, [], program);
  }

  // ---------------------------------------------------------------- meaning of a query

  /** A boolean query over words. */
  datatype Query = Word(w: string) | Not(operand: Query) | And(left: Query, right: Query)
                 | Or(left: Query, right: Query)

  /** No word of the query is spelled like an operator. */
  predicate WellFormed(q: Query) {
    match q
    case Word(w) => w != "NOT" && !IsBinary(w)
    case Not(a) => WellFormed(a)
    case And(a, b) => WellFormed(a) && WellFormed(b)
    case Or(a, b) => WellFormed(a) && WellFormed(b)
  }

  predicate NotFree(q: Query) {
    match q
    case Word(_) => true
    case Not(_) => false
    case And(a, b) => NotFree(a) && NotFree(b)
    case Or(a, b) => NotFree(a) && NotFree(b)
  }

  /** The postfix program of a query: operands first, operator last. */
  function Emit(q: Query): seq<string>
  {
    match q
    case Word(w) => [w]
    case Not(a) => Emit(a) + ["NOT"]
    case And(a, b) => Emit(a) + Emit(b) + ["AND"]
    case Or(a, b) => Emit(a) + Emit(b) + ["OR"]
  }

  /** The pages a query stands for: AND is intersection, OR is union and NOT is the
      complement within the universe. */
  function Denote(pages: set<int>, index: Index, q: Query): set<int>
  {
    match q
    case Word(w) => Lookup(index, w)
    case Not(a) => pages - Denote(pages, index, a)
    case And(a, b) => Denote(pages, index, a) * Denote(pages, index, b)
    case Or(a, b) => Denote(pages, index, a) + Denote(pages, index, b)
  }

  lemma {:induction false} EmitNotFree(q: Query)
    requires WellFormed(q) && NotFree(q)
    ensures "NOT" !in Emit(q)
  {
    match q
    case Word(_) =>
    case Not(_) =>
    case And(a, b) => EmitNotFree(a); EmitNotFree(b);
    case Or(a, b) => EmitNotFree(a); EmitNotFree(b);
  }

  function Size(q: Query): nat
  {
    match q
    case Word(_) => 1
    case Not(a) => 1 + Size(a)
    case And(a, b) => 1 + Size(a) + Size(b)
    case Or(a, b) => 1 + Size(a) + Size(b)
  }

  /** Read with `elif`, a query's program pushes exactly the query's pages. */
  lemma {:induction false} RunEmit(pages: set<int>, index: Index, stack: Stack, q: Query)
    requires WellFormed(q)
    ensures Run(Corrected, pages, index, stack, Emit(q)) == Ok(stack + [Denote(pages, index, q)])
    decreases Size(q), 1
  {
    var none: seq<string> := [];
    match q
    case Word(w) =>
      RunCons(Corrected, pages, index, stack, w, none);
      assert [w] + none == [w];
    case Not(a) =>
      RunEmit(pages, index, stack, a);
      RunAppend(Corrected, pages, index, stack, Emit(a), ["NOT"]);
      RunCons(Corrected, pages, index, stack + [Denote(pages, index, a)], "NOT", none);
      assert ["NOT"] + none == ["NOT"];
      assert (stack + [Denote(pages, index, a)])[..|stack|] == stack;
    case And(a, b) =>
      RunBinaryEmit(pages, index, stack, a, b, "AND");
    case Or(a, b) =>
      RunBinaryEmit(pages, index, stack, a, b, "OR");
  }

  lemma {:induction false} RunBinaryEmit(pages: set<int>, index: Index, stack: Stack,
                                         a: Query, b: Query, op: string)
    requires WellFormed(a) && WellFormed(b) && IsBinary(op)
    ensures Run(Corrected, pages, index, stack, Emit(a) + Emit(b) + [op])
      == Ok(stack + [if op == "AND" then Denote(pages, index, a) * Denote(pages, index, b)
                     else Denote(pages, index, a) + Denote(pages, index, b)])
    decreases Size(a) + Size(b), 0
  {
    var none: seq<string> := [];
    var da, db := Denote(pages, index, a), Denote(pages, index, b);
    RunEmit(pages, index, stack, a);
    RunEmit(pages, index, stack + [da], b);
    RunAppend(Corrected, pages, index, stack, Emit(a), Emit(b));
    RunAppend(Corrected, pages, index, stack, Emit(a) + Emit(b), [op]);
    var two := stack + [da] + [db];
    RunCons(Corrected, pages, index, two, op, none);
    assert [op] + none == [op];
    assert two[..|two| - 2] == stack;
  }

  /** Read with `elif`, evaluation computes the set semantics of the query. */
  lemma EvaluateEmit(pages: set<int>, index: Index, q: Query)
    requires WellFormed(q)
    ensures Evaluate(Corrected, pages, index, Emit(q)) == Ok(SortedInts(Denote(pages, index, q)))
  {
    var none: Stack := [];
    RunEmit(pages, index, none, q);
    assert none + [Denote(pages, index, q)] == [Denote(pages, index, q)];
  }

  /** As written, a query without NOT still means what it says. */
  lemma EvaluateEmitNotFree(pages: set<int>, index: Index, q: Query)
    requires WellFormed(q) && NotFree(q)
    ensures Evaluate(AsWritten, pages, index, Emit(q)) == Ok(SortedInts(Denote(pages, index, q)))
  {
    EmitNotFree(q);
    ReadingsAgreeWithoutNot(pages, index, [], Emit(q));
    EvaluateEmit(pages, index, q);
  }

  /** Of two queries written one after the other, only the last one counts. */
  lemma LastQueryCounts(pages: set<int>, index: Index, q1: Query, q2: Query)
    requires WellFormed(q1) && WellFormed(q2)
    ensures Evaluate(Corrected, pages, index, Emit(q1) + Emit(q2))
      == Ok(SortedInts(Denote(pages, index, q2)))
  {
    var none: Stack := [];
    var d1 := Denote(pages, index, q1);
    RunEmit(pages, index, none, q1);
    RunEmit(pages, index, none + [d1], q2);
    RunAppend(Corrected, pages, index, none, Emit(q1), Emit(q2));
  }

  /** As written, negating a query without NOT returns the pages of the word "NOT",
      whatever the query; read with `elif`, it returns the complement. */
  lemma NegationEvaluated(pages: set<int>, index: Index, a: Query)
    requires WellFormed(a) && NotFree(a)
    ensures Evaluate(AsWritten, pages, index, Emit(Not(a))) == Ok(SortedInts(Lookup(index, "NOT")))
    ensures Evaluate(Corrected, pages, index, Emit(Not(a)))
      == Ok(SortedInts(pages - Denote(pages, index, a)))
  {
    var none: Stack := [];
    EvaluateEmit(pages, index, Not(a));
    EmitNotFree(a);
    ReadingsAgreeWithoutNot(pages, index, none, Emit(a));
    RunEmit(pages, index, none, a);
    RunAppend(AsWritten, pages, index, none, Emit(a), ["NOT"]);
    TrailingNotAsWritten(pages, index, Emit(a) + ["NOT"]);
    var top := [Denote(pages, index, a)];
    assert none + top == top;
    RunCons(AsWritten, pages, index, top, "NOT", []);
    assert ["NOT"] + [] == ["NOT"];
  }

  /** A word pushes its pages. */
  lemma RunWord(d: Dispatch, pages: set<int>, index: Index, stack: Stack, w: string, rest: seq<string>)
    requires w != "NOT" && !IsBinary(w)
    ensures Run(d, pages, index, stack, [w] + rest) == Run(d, pages, index, stack + [Lookup(index, w)], rest)
  {
    RunCons(d, pages, index, stack, w, rest);
  }

  /** As written, `NOT` replaces the top by its complement and then pushes the pages
      of the word "NOT". */
  lemma RunNotAsWritten(pages: set<int>, index: Index, below: Stack, top: set<int>, rest: seq<string>)
    ensures Run(AsWritten, pages, index, below + [top], ["NOT"] + rest)
      == Run(AsWritten, pages, index, below + [pages - top, Lookup(index, "NOT")], rest)
  {
    var stack := below + [top];
    RunCons(AsWritten, pages, index, stack, "NOT", rest);
    assert stack[..|stack| - 1] == below;
    assert below + [pages - top] + [Lookup(index, "NOT")] == below + [pages - top, Lookup(index, "NOT")];
  }

  /** `AND` and `OR` replace the two top sets by their intersection or union. */
  lemma RunCombine(d: Dispatch, pages: set<int>, index: Index, below: Stack, left: set<int>,
                   right: set<int>, op: string, rest: seq<string>)
    requires IsBinary(op)
    ensures Run(d, pages, index, below + [left, right], [op] + rest)
      == Run(d, pages, index, below + [if op == "AND" then left * right else left + right], rest)
  {
    var stack := below + [left, right];
    RunCons(d, pages, index, stack, op, rest);
    assert stack[..|stack| - 2] == below;
  }

  /** As written, `a AND NOT b` intersects the complement of `b` with the pages of the
      word "NOT" (the set pushed after the complement) and leaves the pages of `a`
      below the result. */
  lemma AndNotAsWritten(pages: set<int>, index: Index, a: string, b: string)
    requires a != "NOT" && !IsBinary(a) && b != "NOT" && !IsBinary(b)
    ensures Evaluate(AsWritten, pages, index, [a, b, "NOT", "AND"])
      == Ok(SortedInts((pages - Lookup(index, b)) * Lookup(index, "NOT")))
  {
    var none: seq<string> := [];
    var empty: Stack := [];
    var la, lb, ln := Lookup(index, a), Lookup(index, b), Lookup(index, "NOT");
    var r3 := ["AND"] + none;
    var r2 := ["NOT"] + r3;
    var r1 := [b] + r2;
    assert [a, b, "NOT", "AND"] == [a] + r1;
    RunWord(AsWritten, pages, index, empty, a, r1);
    RunWord(AsWritten, pages, index, empty + [la], b, r2);
    assert empty + [la] + [lb] == [la] + [lb];
    RunNotAsWritten(pages, index, [la], lb, r3);
    assert [la] + [pages - lb, ln] == [la] + [pages - lb, ln];
    RunCombine(AsWritten, pages, index, [la], pages - lb, ln, "AND", none);
    assert ([la] + [(pages - lb) * ln])[1] == (pages - lb) * ln;
  }

  /** Operators without enough operands underflow, under either reading: `a AND`,
      a lone `NOT`, and `NOT a NOT` (the program of `NOT NOT a`). */
  lemma UnderflowExamples(d: Dispatch, pages: set<int>, index: Index, a: string)
    requires a != "NOT" && !IsBinary(a)
    ensures Evaluate(d, pages, index, [a, "AND"]) == Err(StackUnderflow)
    ensures Evaluate(d, pages, index, ["NOT"]) == Err(StackUnderflow)
    ensures Evaluate(d, pages, index, ["NOT", a, "NOT"]) == Err(StackUnderflow)
  {
    var empty: Stack := [];
    RunHeight(d, pages, index, empty, [a, "AND"]);
    RunHeight(d, pages, index, empty, ["NOT"]);
    RunHeight(d, pages, index, empty, ["NOT", a, "NOT"]);
    assert [a, "AND"][1..] == ["AND"];
  }
}
