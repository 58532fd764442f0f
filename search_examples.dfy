module SearchExamples {
  import opened Outcomes
  import opened PyStr
  import opened Sorting
  import opened QueryLexer
  import opened ShuntingYard
  import opened PostfixEval
  import opened Search

  const Animals: Index := map["кот" := [1, 2], "собака" := [2, 3]]

  lemma AnimalsLookup()
    ensures Lookup(Animals, "кот") == {1, 2}
    ensures Lookup(Animals, "собака") == {2, 3}
    ensures Lookup(Animals, "NOT") == {}
  {
  }

  lemma AnimalsPages()
    ensures Pages(Animals) == {1, 2, 3}
  {
    assert 1 in Animals["кот"] && 2 in Animals["кот"] && 3 in Animals["собака"];
  }

  /** A word, a keyword and a word, separated by single spaces. */
  lemma FindAllPhrase(w1: string, k: string, w2: string)
    requires w1 != [] && w1[0] != 'N' && w1[0] != 'A' && w1[0] != 'O'
    requires forall i :: 0 <= i < |w1| ==> IsWordChar(w1[i])
    requires w2 != [] && w2[0] != 'N' && w2[0] != 'A' && w2[0] != 'O'
    requires forall i :: 0 <= i < |w2| ==> IsWordChar(w2[i])
    requires IsKeyword(k)
    ensures FindAll(w1 + [' '] + k + [' '] + w2) == [w1, k, w2]
  {
    var none: string := [];
    var r3 := [' '] + (w2 + none);
    var r2 := k + r3;
    var r1 := [' '] + r2;
    assert w1 + [' '] + k + [' '] + w2 == w1 + r1;
    FindAllWord(w2, none);
    assert w2 + none == w2;
    FindAllSkip(' ', w2 + none);
    FindAllKeyword(k, r3);
    FindAllSkip(' ', r2);
    FindAllWord(w1, r1);
  }

  lemma UpperCatAndDog()
    ensures UpperStr("кот AND собака") == "КОТ" + [' '] + "AND" + [' '] + "СОБАКА"
  {
  }

  lemma SplitCatAndDog()
    ensures SplitRequest("кот AND собака") == ["КОТ", "AND", "СОБАКА"]
  {
    UpperCatAndDog();
    FindAllPhrase("КОТ", "AND", "СОБАКА");
  }

  lemma LowerAnimals()
    ensures LowerStr("КОТ") == "кот" && LowerStr("СОБАКА") == "собака"
  {
  }

  lemma SortedSmall()
    ensures SortedInts({}) == [] && SortedInts({2}) == [2] && SortedInts({3}) == [3]
    ensures SortedInts({1, 2, 3}) == [1, 2, 3]
  {
    var r := SortedInts({1, 2, 3});
    assert r[0] in {1, 2, 3} && r[1] in {1, 2, 3} && r[2] in {1, 2, 3};
    assert r[0] < r[1] < r[2];
    assert SortedInts({2})[0] in {2} && SortedInts({3})[0] in {3};
  }

  /** A query read as `A op B` is answered from the pages of its two words. */
  lemma AnswerBinary(s: BoolSearch, query: string, a: string, op: string, b: string)
    requires SplitRequest(query) == [a, op, b]
    requires IsTerm(a) && IsTerm(b) && IsBinary(op)
    ensures Answer(s, query) == Ok(SortedInts(Denote(s.pages, s.invertedIndex,
      if op == "AND" then And(Word(LowerStr(a)), Word(LowerStr(b)))
      else Or(Word(LowerStr(a)), Word(LowerStr(b))))))
  {
    PostfixBinary(a, op, b);
    var q := if op == "AND" then And(Word(LowerStr(a)), Word(LowerStr(b)))
             else Or(Word(LowerStr(a)), Word(LowerStr(b)));
    LowerTerm(a);
    LowerTerm(b);
    assert Emit(q) == [LowerStr(a), LowerStr(b), op];
    EvaluateEmitNotFree(s.pages, s.invertedIndex, q);
  }

  /** Searching "кот AND собака" finds the page both words are listed on. */
  lemma SearchCatAndDog()
    ensures Answer(Load(Animals), "кот AND собака") == Ok([2])
  {
    var s := Load(Animals);
    var q := And(Word("кот"), Word("собака"));
    assert Denote(s.pages, Animals, q) == {2} by {
      AnimalsLookup();
    }
    SplitCatAndDog();
    LowerAnimals();
    AnswerBinary(s, "кот AND собака", "КОТ", "AND", "СОБАКА");
    SortedSmall();
  }

  lemma UpperCatOrDog()
    ensures UpperStr("кот OR собака") == "КОТ" + [' '] + "OR" + [' '] + "СОБАКА"
  {
  }

  lemma SplitCatOrDog()
    ensures SplitRequest("кот OR собака") == ["КОТ", "OR", "СОБАКА"]
  {
    UpperCatOrDog();
    FindAllPhrase("КОТ", "OR", "СОБАКА");
  }

  /** Searching "кот OR собака" finds every page either word is listed on. */
  lemma SearchCatOrDog()
    ensures Answer(Load(Animals), "кот OR собака") == Ok([1, 2, 3])
  {
    var s := Load(Animals);
    var q := Or(Word("кот"), Word("собака"));
    assert Denote(s.pages, Animals, q) == {1, 2, 3} by {
      AnimalsLookup();
    }
    SplitCatOrDog();
    LowerAnimals();
    AnswerBinary(s, "кот OR собака", "КОТ", "OR", "СОБАКА");
    SortedSmall();
  }

  /** A keyword and a word, separated by a space. */
  lemma FindAllKeywordWord(k: string, w: string)
    requires IsKeyword(k)
    requires w != [] && w[0] != 'N' && w[0] != 'A' && w[0] != 'O'
    requires forall i :: 0 <= i < |w| ==> IsWordChar(w[i])
    ensures FindAll(k + [' '] + w) == [k, w]
  {
    var none: string := [];
    assert k + [' '] + w == k + ([' '] + (w + none));
    FindAllWord(w, none);
    assert w + none == w;
    FindAllSkip(' ', w + none);
    FindAllKeyword(k, [' '] + (w + none));
  }

  lemma UpperNotCat()
    ensures UpperStr("NOT кот") == "NOT" + [' '] + "КОТ"
  {
  }

  lemma SplitNotCat()
    ensures SplitRequest("NOT кот") == ["NOT", "КОТ"]
  {
    UpperNotCat();
    FindAllKeywordWord("NOT", "КОТ");
  }

  /** A query read as `NOT A`: as written it is answered from the pages of the word
      "NOT", read with `elif` from the complement of the pages of `A`. */
  lemma AnswerNot(s: BoolSearch, query: string, a: string)
    requires SplitRequest(query) == ["NOT", a] && IsTerm(a)
    ensures Answer(s, query) == Ok(SortedInts(Lookup(s.invertedIndex, "NOT")))
    ensures AnswerTokens(Corrected, s, SplitRequest(query))
      == Ok(SortedInts(s.pages - Lookup(s.invertedIndex, LowerStr(a))))
  {
    PostfixPrefix("NOT", a);
    LowerTerm(a);
    var q := Word(LowerStr(a));
    assert Emit(Not(q)) == [LowerStr(a), "NOT"];
    NegationEvaluated(s.pages, s.invertedIndex, q);
  }

  /** Searching "NOT кот": as written the answer is empty, because the pages of the
      word "NOT" (none) are pushed over the complement; read with `elif` it is the one
      page "кот" is not listed on. */
  lemma SearchNotCat()
    ensures Answer(Load(Animals), "NOT кот") == Ok([])
    ensures AnswerTokens(Corrected, Load(Animals), SplitRequest("NOT кот")) == Ok([3])
  {
    var s := Load(Animals);
    assert s.pages - Lookup(Animals, "кот") == {3} by {
      AnimalsPages();
      AnimalsLookup();
    }
    assert Lookup(Animals, "NOT") == {} by {
      AnimalsLookup();
    }
    SplitNotCat();
    LowerAnimals();
    AnswerNot(s, "NOT кот", "КОТ");
    SortedSmall();
  }

  /** Searching the empty query returns no pages. */
  lemma SearchEmpty(s: BoolSearch)
    ensures Answer(s, "") == Ok([])
  {
    assert UpperStr("") == [];
  }

  // ---------------------------------------------------------------- token-level queries

  /** A `)` before any `(` is rejected, whatever follows and whatever the index. */
  lemma UnmatchedCloseFirst(d: Dispatch, s: BoolSearch, rest: seq<string>)
    ensures AnswerTokens(d, s, [")"] + rest) == Err(UnmatchedClose)
  {
    assert ([")"] + rest)[0] == ")" && ([")"] + rest)[1..] == rest;
  }

  /** A query that starts with a binary operator pops an empty stack. */
  lemma LeadingOperatorUnderflows(d: Dispatch, s: BoolSearch, a: string)
    requires IsTerm(a)
    ensures AnswerTokens(d, s, ["AND", a]) == Err(StackUnderflow)
  {
    PostfixPrefix("AND", a);
    LowerTerm(a);
    UnderflowExamples(d, s.pages, s.invertedIndex, LowerStr(a));
  }

  /** "NOT NOT a" negates an empty stack: the inner NOT is written out first. */
  lemma DoubleNotUnderflows(d: Dispatch, s: BoolSearch, a: string)
    requires IsTerm(a)
    ensures AnswerTokens(d, s, ["NOT", "NOT", a]) == Err(StackUnderflow)
  {
    DoubleNot(a);
    LowerTerm(a);
    UnderflowExamples(d, s.pages, s.invertedIndex, LowerStr(a));
  }

  /** Two words with no operator between them: only the last one counts. */
  lemma TwoWordsLastCounts(s: BoolSearch, a: string, b: string)
    requires IsTerm(a) && IsTerm(b)
    ensures AnswerTokens(AsWritten, s, [a, b])
      == Ok(SortedInts(Lookup(s.invertedIndex, LowerStr(b))))
  {
    var la, lb := LowerStr(a), LowerStr(b);
    LowerTerm(a);
    LowerTerm(b);
    var none: seq<string> := [];
    assert Postfix([a, b]) == Ok([la, lb]) by {
      RunTerm(Yard(none, none), a, [b]);
      RunTerm(Yard([la], none), b, none);
      assert [a, b] == [a] + [b] && [b] == [b] + none;
      assert none + [la] == [la] && [la] + [lb] == [la, lb];
      assert Flush(Yard([la, lb], none)) == [la, lb];
    }
    assert Emit(Word(la)) + Emit(Word(lb)) == [la, lb];
    LastQueryCounts(s.pages, s.invertedIndex, Word(la), Word(lb));
    ReadingsAgreeWithoutNot(s.pages, s.invertedIndex, [], [la, lb]);
  }

  /** "a AND NOT b": as written, the complement of `b` is intersected with the pages of
      the word "NOT". */
  lemma AndNotTokensAsWritten(s: BoolSearch, a: string, b: string)
    requires IsTerm(a) && IsTerm(b)
    ensures AnswerTokens(AsWritten, s, [a, "AND", "NOT", b]) == Ok(SortedInts(
      (s.pages - Lookup(s.invertedIndex, LowerStr(b))) * Lookup(s.invertedIndex, "NOT")))
  {
    LowerTerm(a);
    LowerTerm(b);
    PostfixAndNot(a, b);
    AndNotAsWritten(s.pages, s.invertedIndex, LowerStr(a), LowerStr(b));
  }

  /** "a AND NOT b" read with `elif`: the pages of `a` without those of `b`. */
  lemma AndNotTokensCorrected(s: BoolSearch, a: string, b: string)
    requires IsTerm(a) && IsTerm(b)
    ensures AnswerTokens(Corrected, s, [a, "AND", "NOT", b]) == Ok(SortedInts(
      Lookup(s.invertedIndex, LowerStr(a)) * (s.pages - Lookup(s.invertedIndex, LowerStr(b)))))
  {
    var la, lb := LowerStr(a), LowerStr(b);
    LowerTerm(a);
    LowerTerm(b);
    PostfixAndNot(a, b);
    var q := And(Word(la), Not(Word(lb)));
    assert Emit(q) == [la, lb, "NOT", "AND"] by {
      assert Emit(Not(Word(lb))) == [lb, "NOT"];
      assert Emit(q) == [la] + [lb, "NOT"] + ["AND"];
    }
    EvaluateEmit(s.pages, s.invertedIndex, q);
    assert Denote(s.pages, s.invertedIndex, q)
      == Lookup(s.invertedIndex, la) * (s.pages - Lookup(s.invertedIndex, lb)) by {
      assert Denote(s.pages, s.invertedIndex, Word(la)) == Lookup(s.invertedIndex, la);
      assert Denote(s.pages, s.invertedIndex, Not(Word(lb)))
        == s.pages - Lookup(s.invertedIndex, lb);
    }
    assert AnswerTokens(Corrected, s, [a, "AND", "NOT", b])
      == Evaluate(Corrected, s.pages, s.invertedIndex, Emit(q));
  }

  /** On the two-word index, "КОТ AND NOT СОБАКА" finds nothing as written. */
  lemma CatAndNotDogAsWritten()
    ensures AnswerTokens(AsWritten, Load(Animals), ["КОТ", "AND", "NOT", "СОБАКА"]) == Ok([])
  {
    var s := Load(Animals);
    LowerAnimals();
    AndNotTokensAsWritten(s, "КОТ", "СОБАКА");
    assert (s.pages - Lookup(Animals, "собака")) * Lookup(Animals, "NOT") == {} by {
      AnimalsLookup();
    }
    SortedSmall();
  }

  /** Read with `elif`, "КОТ AND NOT СОБАКА" finds page 1. */
  lemma CatAndNotDogCorrected()
    ensures AnswerTokens(Corrected, Load(Animals), ["КОТ", "AND", "NOT", "СОБАКА"]) == Ok([1])
  {
    var s := Load(Animals);
    LowerAnimals();
    AndNotTokensCorrected(s, "КОТ", "СОБАКА");
    var cat, dog := Lookup(Animals, "кот"), Lookup(Animals, "собака");
    assert cat * (s.pages - dog) == {1} by {
      AnimalsPages();
      AnimalsLookup();
      OnlyCat(cat, dog, s.pages);
    }
    SortedSingle(1);
  }

  lemma OnlyCat(cat: set<int>, dog: set<int>, pages: set<int>)
    requires cat == {1, 2} && dog == {2, 3} && pages == {1, 2, 3}
    ensures cat * (pages - dog) == {1}
  {
    assert pages - dog == {1};
  }

  lemma SortedSingle(x: int)
    ensures SortedInts({x}) == [x]
  {
    assert SortedInts({x})[0] in {x};
  }

  /** On the two-word index, "КОТ СОБАКА" answers with the pages of "собака". */
  lemma CatDogTokens()
    ensures AnswerTokens(AsWritten, Load(Animals), ["КОТ", "СОБАКА"]) == Ok([2, 3])
  {
    LowerAnimals();
    TwoWordsLastCounts(Load(Animals), "КОТ", "СОБАКА");
    AnimalsLookup();
    assert SortedInts({2, 3}) == [2, 3] by {
      var r := SortedInts({2, 3});
      assert r[0] in {2, 3} && r[1] in {2, 3} && r[0] < r[1];
    }
  }
}
