/** Query tokenisation of `BoolSearch._split_request`: the query is upper-cased and
    scanned for `(`, `)`, `NOT`, `AND`, `OR` and runs of word characters. */
module QueryLexer {
  import opened PyStr

  predicate StartsWith(s: string, p: string) {
    |p| <= |s| && s[..|p|] == p
  }

  predicate IsKeyword(t: string) {
    t == "NOT" || t == "AND" || t == "OR"
  }

  /** The shapes of text the pattern can match. */
  predicate IsQueryToken(t: string) {
    t == "(" || t == ")" || (t != [] && forall i :: 0 <= i < |t| ==> IsWordChar(t[i]))
  }

  /** The characters some alternative of the pattern can consume. */
  predicate Matchable(c: char) {
    c == '(' || c == ')' || IsWordChar(c)
  }

  predicate NoLowerCase(t: string) {
    forall i :: 0 <= i < |t| ==> !IsAsciiLower(t[i]) && !IsRuLower(t[i])
  }

  /** Length of the run of word characters at the front of `s` (what `\w+` consumes). */
  function WordRun(s: string): (n: nat)
    ensures n <= |s|
    ensures forall i :: 0 <= i < n ==> IsWordChar(s[i])
    ensures n == |s| || !IsWordChar(s[n])
  {
    if s != [] && IsWordChar(s[0]) then 1 + WordRun(s[1..]) else 0
  }

  /** One step of `re.findall` at the front of a non-empty text: the alternatives are
      tried in order and the first that matches wins; the result is the length consumed
      and whether it is a match (a position where nothing matches is skipped). */
  function MatchAt(s: string): (m: (nat, bool))
    requires s != []
    ensures 1 <= m.0 <= |s|
    ensures m.1 ==> IsQueryToken(s[..m.0]) && forall i :: 0 <= i < m.0 ==> Matchable(s[i])
    ensures !m.1 ==> m.0 == 1 && !Matchable(s[0])
  {
    if s[0] == '(' || s[0] == ')' then (1, true)
    else if StartsWith(s, "NOT") || StartsWith(s, "AND") then (3, true)
    else if StartsWith(s, "OR") then (2, true)
    else if IsWordChar(s[0]) then (WordRun(s), true)
    else (1, false)
  }

  /** `re.findall(pattern, s)`: the matches from left to right, each scan resuming
      where the previous match ended. */
  function FindAll(s: string): (tokens: seq<string>)
    ensures forall k :: 0 <= k < |tokens| ==> IsQueryToken(tokens[k])
    ensures NoLowerCase(s) ==> forall k :: 0 <= k < |tokens| ==> NoLowerCase(tokens[k])
    decreases |s|
  {
    if s == [] then []
    else
      var (n, hit) := MatchAt(s);
      (if hit then [s[..n]] else []) + FindAll(s[n..])
  }

  /** `_split_request(query)`. */
  function SplitRequest(query: string): seq<string>
  {
    FindAll(UpperStr(query))
  }

  // ---------------------------------------------------------------- properties

  function Concat(ts: seq<string>): string
  {
    if ts == [] then [] else ts[0] + Concat(ts[1..])
  }

  /** The characters of `s` that the pattern can consume, in order. */
  function Kept(s: string): string
  {
    if s == [] then [] else (if Matchable(s[0]) then [s[0]] else []) + Kept(s[1..])
  }

  lemma {:induction false} KeptAppend(a: string, b: string)
    ensures Kept(a + b) == Kept(a) + Kept(b)
  {
    if a != [] {
      var head := if Matchable(a[0]) then [a[0]] else [];
      KeptAppend(a[1..], b);
      assert (a + b)[0] == a[0] && (a + b)[1..] == a[1..] + b;
      assert Kept(a + b) == head + Kept(a[1..] + b);
      assert Kept(a) == head + Kept(a[1..]);
    } else {
      assert a + b == b;
    }
  }

  lemma {:induction false} KeptAll(a: string)
    requires forall i :: 0 <= i < |a| ==> Matchable(a[i])
    ensures Kept(a) == a
  {
    if a != [] {
      assert Matchable(a[0]);
      KeptAll(a[1..]);
      assert a == [a[0]] + a[1..];
    }
  }

  lemma KeptPrefix(s: string, n: nat)
    requires n <= |s| && forall i :: 0 <= i < n ==> Matchable(s[i])
    ensures Kept(s) == s[..n] + Kept(s[n..])
  {
    assert s == s[..n] + s[n..];
    KeptAppend(s[..n], s[n..]);
    KeptAll(s[..n]);
  }

  lemma ConcatCons(t: string, ts: seq<string>)
    ensures Concat([t] + ts) == t + Concat(ts)
  {
    assert ([t] + ts)[1..] == ts;
  }

  /** Nothing is lost and nothing is invented: the tokens, written one after the
      other, are exactly the parentheses and word characters of the text. */
  lemma {:induction false} FindAllKeepsText(s: string)
    ensures Concat(FindAll(s)) == Kept(s)
    decreases |s|
  {
    if s != [] {
      var (n, hit) := MatchAt(s);
      FindAllKeepsText(s[n..]);
      if hit {
        ConcatCons(s[..n], FindAll(s[n..]));
        KeptPrefix(s, n);
      } else {
        assert FindAll(s) == FindAll(s[1..]);
      }
    }
  }

  /** Keywords are recognised whatever their case, and every token is upper-case. */
  lemma SplitRequestCaseInsensitive(query: string)
    ensures SplitRequest(UpperStr(query)) == SplitRequest(query)
    ensures forall k :: 0 <= k < |SplitRequest(query)| ==> NoLowerCase(SplitRequest(query)[k])
  {
    UpperStrIdempotent(query);
  }

  // ---------------------------------------------------------------- scanning steps

  lemma FindAllSkip(c: char, rest: string)
    requires !Matchable(c)
    ensures FindAll([c] + rest) == FindAll(rest)
  {
    assert ([c] + rest)[1..] == rest;
  }

  lemma FindAllParen(c: char, rest: string)
    requires c == '(' || c == ')'
    ensures FindAll([c] + rest) == [[c]] + FindAll(rest)
  {
    assert ([c] + rest)[1..] == rest && ([c] + rest)[..1] == [c];
  }

  lemma FindAllKeyword(k: string, rest: string)
    requires IsKeyword(k)
    ensures FindAll(k + rest) == [k] + FindAll(rest)
  {
    var s := k + rest;
    assert s[..|k|] == k && s[|k|..] == rest;
    assert s[0] == k[0];
    if k == "OR" {
      assert !StartsWith(s, "NOT") && !StartsWith(s, "AND") by {
        if |s| >= 3 { assert s[..3][0] == 'O'; }
      }
    }
    assert MatchAt(s) == (|k|, true);
  }

  /** A run of word characters that starts no keyword, followed by a non-word
      character or the end of the text, is one token. */
  lemma FindAllWord(w: string, rest: string)
    requires w != [] && w[0] != 'N' && w[0] != 'A' && w[0] != 'O'
    requires forall i :: 0 <= i < |w| ==> IsWordChar(w[i])
    requires rest == [] || !IsWordChar(rest[0])
    ensures FindAll(w + rest) == [w] + FindAll(rest)
  {
    var s := w + rest;
    assert s[..|w|] == w && s[|w|..] == rest;
    assert s[0] == w[0];
    if |s| >= 2 { assert s[..2][0] == w[0]; }
    if |s| >= 3 { assert s[..3][0] == w[0]; }
    WordRunIs(s, |w|);
  }

  lemma {:induction false} WordRunIs(s: string, n: nat)
    requires n <= |s| && (n == |s| || !IsWordChar(s[n]))
    requires forall i :: 0 <= i < n ==> IsWordChar(s[i])
    ensures WordRun(s) == n
  {
    if n > 0 { WordRunIs(s[1..], n - 1); }
  }

  // ---------------------------------------------------------------- examples

  /** Keywords are tried before `\w+` and need no word boundary, so a word that
      starts with a keyword is cut after it. */
  lemma KeywordPrefixSplitsWord()
    ensures SplitRequest("order") == ["OR", "DER"]
  {
    assert UpperStr("order") == "OR" + "DER";
    FindAllWord("DER", []);
    assert "DER" + [] == "DER";
    FindAllKeyword("OR", "DER");
  }

  lemma NotKeywordPrefixSplitsWord()
    ensures SplitRequest("Notes") == ["NOT", "ES"]
  {
    assert UpperStr("Notes") == "NOT" + "ES";
    FindAllWord("ES", []);
    assert "ES" + [] == "ES";
    FindAllKeyword("NOT", "ES");
  }
}
