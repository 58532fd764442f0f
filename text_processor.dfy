/** `TextProcessor` of hw-2/main.py: the text of each crawled page is cut into Russian
    word tokens, the tokens are grouped by their dictionary form (lemma), and both are
    written to per-page text files that the index builder reads back. The morphological
    analyser and the stop-word list are parameters; the page text is given, as
    BeautifulSoup would extract it. */
module TextProcessing {
  import opened PyStr
  import opened Sorting

  // ---------------------------------------------------------------- tokens

  /** A character of the class `[а-яА-ЯёЁ]`. */
  predicate IsTokenChar(c: char) { IsRuLower(c) || IsRuUpper(c) }

  /** The end of the run of token characters that starts at `i`. */
  function RunEnd(t: string, i: nat): (j: nat)
    requires i <= |t|
    ensures i <= j <= |t|
    ensures forall k :: i <= k < j ==> IsTokenChar(t[k])
    ensures j == |t| || !IsTokenChar(t[j])
    decreases |t| - i
  {
    if i < |t| && IsTokenChar(t[i]) then RunEnd(t, i + 1) else i
  }

  /** `\b` before a token character at `i`: nothing, or a non-word character, precedes. */
  predicate OpensAt(t: string, i: nat)
    requires i <= |t|
  {
    i == 0 || !IsWordChar(t[i - 1])
  }

  /** `\b` after a token character ending at `j`: nothing, or a non-word character,
      follows. */
  predicate ClosesAt(t: string, j: nat)
    requires j <= |t|
  {
    j == |t| || !IsWordChar(t[j])
  }

  /** `\b[а-яА-ЯёЁ]+\b` matches at `i`. The `+` is greedy and backing off cannot help,
      because a shorter match would end between two letters, where there is no `\b`;
      so the only candidate is the whole run. */
  predicate MatchesAt(t: string, i: nat)
    requires i < |t|
  {
    IsTokenChar(t[i]) && OpensAt(t, i) && ClosesAt(t, RunEnd(t, i))
  }

  /** `re.findall(r'\b[а-яА-ЯёЁ]+\b', t[i:])` with the boundaries judged in the whole of
      `t`: after a match the search resumes at its end, otherwise one character on. */
  function FindTokens(t: string, i: nat): seq<string>
    requires i <= |t|
    decreases |t| - i
  {
    if i == |t| then []
    else if MatchesAt(t, i) then [t[i..RunEnd(t, i)]] + FindTokens(t, RunEnd(t, i))
    else FindTokens(t, i + 1)
  }

  /** `t[a..b]` is a token: a run of token characters with a non-word character or the
      end of the text on both sides. */
  ghost predicate IsToken(t: string, a: nat, b: nat) {
    a < b <= |t| && (forall k :: a <= k < b ==> IsTokenChar(t[k])) && OpensAt(t, a) && ClosesAt(t, b)
  }

  /** A token takes the whole run of letters it starts. */
  lemma TokenIsRun(t: string, a: nat, b: nat)
    requires IsToken(t, a, b)
    ensures b == RunEnd(t, a) && MatchesAt(t, a)
  {
  }

  /** Every match is a token at or after the starting position. */
  lemma {:induction false} FindTokensSound(t: string, i: nat, w: string) returns (a: nat, b: nat)
    requires i <= |t| && w in FindTokens(t, i)
    ensures i <= a && IsToken(t, a, b) && w == t[a..b]
    decreases |t| - i
  {
    if MatchesAt(t, i) {
      var j := RunEnd(t, i);
      if w == t[i..j] {
        a, b := i, j;
      } else {
        a, b := FindTokensSound(t, j, w);
      }
    } else {
      a, b := FindTokensSound(t, i + 1, w);
    }
  }

  /** Every token at or after the starting position is matched. */
  lemma {:induction false} FindTokensComplete(t: string, i: nat, a: nat, b: nat)
    requires i <= a && IsToken(t, a, b)
    ensures t[a..b] in FindTokens(t, i)
    decreases |t| - i
  {
    TokenIsRun(t, a, b);
    if i < a {
      if MatchesAt(t, i) {
        var j := RunEnd(t, i);
        FindTokensComplete(t, j, a, b);
      } else {
        FindTokensComplete(t, i + 1, a, b);
      }
    }
  }

  /** `set_tokens`: the tokens of the lower-cased text that are not stop words, each
      once. */
  function SetTokens(text: string, stopWords: set<string>): set<string>
  {
    set w | w in FindTokens(LowerStr(text), 0) && w !in stopWords
  }

  /** Every token comes from a maximal run of Cyrillic letters of the lower-cased text
      that stands between non-word characters, and is not a stop word. */
  lemma TokenSource(text: string, stopWords: set<string>, w: string) returns (a: nat, b: nat)
    requires w in SetTokens(text, stopWords)
    ensures IsToken(LowerStr(text), a, b) && LowerStr(text)[a..b] == w && w !in stopWords
  {
    a, b := FindTokensSound(LowerStr(text), 0, w);
  }

  /** Conversely, every such run that is not a stop word is a token. */
  lemma TokenFound(text: string, stopWords: set<string>, a: nat, b: nat)
    requires IsToken(LowerStr(text), a, b) && LowerStr(text)[a..b] !in stopWords
    ensures LowerStr(text)[a..b] in SetTokens(text, stopWords)
  {
    FindTokensComplete(LowerStr(text), 0, a, b);
  }

  /** Tokens are non-empty words of lower-case Russian letters. */
  lemma TokensLowerCase(text: string, stopWords: set<string>, w: string)
    requires w in SetTokens(text, stopWords)
    ensures w != [] && forall k :: 0 <= k < |w| ==> IsRuLower(w[k])
  {
    var a, b := TokenSource(text, stopWords, w);
    var t := LowerStr(text);
    forall k | 0 <= k < |w| ensures IsRuLower(w[k]) {
      assert w[k] == t[a + k];
    }
  }

  // ---------------------------------------------------------------- lemmas

  /** Every token is filed under its lemma, and nothing else is filed. */
  ghost predicate IsGrouping(groups: map<string, set<string>>, tokens: set<string>, lemmaOf: string -> string) {
    (forall l :: l in groups ==> groups[l] != {} && forall t :: t in groups[l] ==> t in tokens && lemmaOf(t) == l)
    && (forall t :: t in tokens ==> lemmaOf(t) in groups && t in groups[lemmaOf(t)])
  }

  /** The lemma dictionary `set_lemmas` builds: each lemma of a token, with the tokens
      that have it. */
  function GroupByLemma(tokens: set<string>, lemmaOf: string -> string): map<string, set<string>>
  {
    map l | l in LemmaSet(tokens, lemmaOf) :: FormsOf(tokens, lemmaOf, l)
  }

  /** The lemmas of the tokens. */
  function LemmaSet(tokens: set<string>, lemmaOf: string -> string): set<string>
  {
    set t | t in tokens :: lemmaOf(t)
  }

  /** The tokens whose lemma is `lem`. */
  function FormsOf(tokens: set<string>, lemmaOf: string -> string, lem: string): set<string>
  {
    set t | t in tokens && lemmaOf(t) == lem
  }

  /** `lemmas.setdefault(lem, set()).add(token)`. */
  function AddForm(groups: map<string, set<string>>, lem: string, token: string): map<string, set<string>>
  {
    groups[lem := (if lem in groups then groups[lem] else {}) + {token}]
  }

  /** Filing one more token under its lemma keeps the dictionary a grouping. */
  lemma AddFormGroups(groups: map<string, set<string>>, done: set<string>, lemmaOf: string -> string, token: string)
    requires IsGrouping(groups, done, lemmaOf) && token !in done
    ensures IsGrouping(AddForm(groups, lemmaOf(token), token), done + {token}, lemmaOf)
  {
  }

  /** The groups partition the tokens by lemma: every group is non-empty, every token is
      in the group of its own lemma, and no token is in any other group. */
  lemma GroupsPartition(tokens: set<string>, lemmaOf: string -> string)
    ensures IsGrouping(GroupByLemma(tokens, lemmaOf), tokens, lemmaOf)
    ensures forall l1, l2 :: l1 in GroupByLemma(tokens, lemmaOf) && l2 in GroupByLemma(tokens, lemmaOf) && l1 != l2 ==>
      GroupByLemma(tokens, lemmaOf)[l1] * GroupByLemma(tokens, lemmaOf)[l2] == {}
  {
    var g := GroupByLemma(tokens, lemmaOf);
    forall l | l in g ensures g[l] != {} {
      var t :| t in tokens && lemmaOf(t) == l;
      assert t in g[l];
    }
  }

  /** There is only one such grouping. */
  lemma GroupingUnique(groups: map<string, set<string>>, tokens: set<string>, lemmaOf: string -> string)
    requires IsGrouping(groups, tokens, lemmaOf)
    ensures groups == GroupByLemma(tokens, lemmaOf)
  {
    var g := GroupByLemma(tokens, lemmaOf);
    forall l | l in groups ensures l in g {
      var t :| t in groups[l];
    }
    forall l | l in g ensures l in groups && groups[l] == g[l] {
      var t :| t in tokens && lemmaOf(t) == l;
      assert t in groups[l];
    }
    assert groups.Keys == g.Keys;
  }

  /** The dictionary after one more token is the one before with that token filed under
      its lemma. */
  lemma GroupByLemmaAdd(done: set<string>, lemmaOf: string -> string, token: string)
    requires token !in done
    ensures GroupByLemma(done + {token}, lemmaOf) == AddForm(GroupByLemma(done, lemmaOf), lemmaOf(token), token)
  {
    GroupsPartition(done, lemmaOf);
    AddFormGroups(GroupByLemma(done, lemmaOf), done, lemmaOf, token);
    GroupingUnique(AddForm(GroupByLemma(done, lemmaOf), lemmaOf(token), token), done + {token}, lemmaOf);
  }

  /** `set_lemmas`, with the tokens visited in whatever order the set yields them. */
  method SetLemmas(tokens: set<string>, lemmaOf: string -> string) returns (lemmas: map<string, set<string>>)
    ensures lemmas == GroupByLemma(tokens, lemmaOf)
  {
    lemmas := map[];
    var todo := tokens;
    ghost var done: set<string> := {};
    GroupByLemmaEmpty(lemmaOf);
    while todo != {}
      invariant todo <= tokens && done == tokens - todo
      invariant lemmas == GroupByLemma(done, lemmaOf)
      decreases |todo|
    {
      var token :| token in todo;
      GroupByLemmaAdd(done, lemmaOf, token);
      lemmas := AddForm(lemmas, lemmaOf(token), token);
      todo := todo - {token};
      done := done + {token};
    }
    assert done == tokens;
  }

  /** No tokens, no lemmas. */
  lemma GroupByLemmaEmpty(lemmaOf: string -> string)
    ensures GroupByLemma({}, lemmaOf) == map[]
  {
    assert LemmaSet({}, lemmaOf) == {};
  }

  // ---------------------------------------------------------------- output files

  /** `f'{prefix}{os.path.splitext(file_name)[0]}.txt'`. */
  function OutputName(prefix: string, fileName: string): string
  {
    prefix + SplitExt(fileName).0 + ".txt"
  }

  function TokenFileName(fileName: string): string { OutputName("tokens_", fileName) }

  function LemmaFileName(fileName: string): string { OutputName("lemmas_", fileName) }

  /** The output names keep the page's name apart from its extension. */
  lemma OutputNameOf(prefix: string, stem: string, ext: string)
    requires stem != [] && stem[0] != '.' && '.' !in stem && '/' !in stem
    requires ext != [] && ext[0] == '.' && '.' !in ext[1..] && '/' !in ext
    ensures OutputName(prefix, stem + ext) == prefix + stem + ".txt"
  {
    SplitExtOf(stem, ext);
  }

  /** The token file: the tokens in ascending order, one per line, with no line break
      after the last. */
  function TokenContent(tokens: set<string>): string
  {
    Join(SortedStrings(tokens), "\n")
  }

  /** The token file splits at its line breaks into exactly the sorted tokens, and does
      not end with a line break; an empty token set gives an empty file. */
  lemma TokenContentLines(tokens: set<string>)
    requires forall t :: t in tokens ==> t != [] && '\n' !in t
    ensures tokens == {} ==> TokenContent(tokens) == []
    ensures tokens != {} ==> Split(TokenContent(tokens), '\n') == SortedStrings(tokens)
    ensures tokens != {} ==> TokenContent(tokens)[|TokenContent(tokens)| - 1] != '\n'
  {
    var ts := SortedStrings(tokens);
    if tokens != {} {
      assert forall k :: 0 <= k < |ts| ==> ts[k] in tokens;
      SplitJoin(ts, '\n');
      JoinLast(ts, "\n");
    }
  }

  /** A join ends with its last part. */
  lemma {:induction false} JoinLast(parts: seq<string>, sep: string)
    requires parts != [] && parts[|parts| - 1] != []
    ensures |Join(parts, sep)| >= |parts[|parts| - 1]|
    ensures Join(parts, sep)[|Join(parts, sep)| - 1] == parts[|parts| - 1][|parts[|parts| - 1]| - 1]
  {
    if |parts| > 1 {
      JoinLast(parts[1..], sep);
      assert parts[1..][|parts[1..]| - 1] == parts[|parts| - 1];
    }
  }

  /** One line of the lemma file: the lemma, `: `, and its forms in ascending order
      separated by single spaces. */
  function LemmaLine(lem: string, forms: set<string>): string
  {
    lem + ": " + Join(SortedStrings(forms), " ") + "\n"
  }

  /** The lines of the lemma file, in ascending lemma order. */
  function LemmaLines(lemmas: map<string, set<string>>): (lines: seq<string>)
    ensures |lines| == |lemmas|
  {
    var keys := SortedStrings(lemmas.Keys);
    assert |lemmas.Keys| == |lemmas|;
    seq(|keys|, i requires 0 <= i < |keys| => LemmaLine(keys[i], lemmas[keys[i]]))
  }

  /** The text of a sequence of lines written one after another. */
  function Concat(lines: seq<string>): string
  {
    if lines == [] then [] else Concat(lines[..|lines| - 1]) + lines[|lines| - 1]
  }

  lemma ConcatPrefix(lines: seq<string>, i: nat)
    requires i < |lines|
    ensures Concat(lines[..i + 1]) == Concat(lines[..i]) + lines[i]
  {
    var pre := lines[..i + 1];
    assert pre != [] && |pre| - 1 == i;
    assert pre[..i] == lines[..i] && pre[i] == lines[i];
    assert Concat(pre) == Concat(pre[..|pre| - 1]) + pre[|pre| - 1];
  }

  /** Writing lines one after another to a fresh file. */
  method WriteLines(lines: seq<string>) returns (content: string)
    ensures content == Concat(lines)
  {
    content := "";
    for i := 0 to |lines|
      invariant content == Concat(lines[..i])
    {
      ConcatPrefix(lines, i);
      content := content + lines[i];
    }
    assert lines[..|lines|] == lines;
  }

  // ---------------------------------------------------------------- reading lines back

  /** The length of the first line of `s`, its line break included. */
  function LineEnd(s: string): (e: nat)
    requires s != []
    ensures 0 < e <= |s| && (e < |s| ==> s[e - 1] == '\n') && '\n' !in s[..e - 1]
  {
    if s[0] == '\n' || |s| == 1 then 1
    else
      var e := LineEnd(s[1..]);
      assert s[1..][..e - 1] == s[1..e];
      1 + e
  }

  /** `for line in file`: the lines of a text, each with its line break, the last one
      without a line break if the text does not end with one. */
  function FileLines(s: string): seq<string>
    decreases |s|
  {
    if s == [] then [] else [s[..LineEnd(s)]] + FileLines(s[LineEnd(s)..])
  }

  /** A well-formed line: it ends with its only line break. */
  predicate IsLine(line: string) {
    line != [] && line[|line| - 1] == '\n' && '\n' !in line[..|line| - 1]
  }

  lemma LineEndOf(line: string, rest: string)
    requires IsLine(line)
    ensures LineEnd(line + rest) == |line|
  {
    var s := line + rest;
    var e := LineEnd(s);
    assert s[..|line| - 1] == line[..|line| - 1];
    assert s[|line| - 1] == '\n';
    assert forall k :: 0 <= k < |line| - 1 ==> s[k] != '\n';
    assert forall k :: 0 <= k < e - 1 ==> s[k] != '\n';
  }

  /** Reading back lines that were written one after another gives exactly those
      lines. */
  lemma {:induction false} FileLinesConcat(lines: seq<string>)
    requires forall k :: 0 <= k < |lines| ==> IsLine(lines[k])
    ensures FileLines(Concat(lines)) == lines
  {
    if lines != [] {
      FileLinesConcat(lines[1..]);
      ConcatFront(lines);
      LineEndOf(lines[0], Concat(lines[1..]));
      var s := lines[0] + Concat(lines[1..]);
      assert s[..|lines[0]|] == lines[0] && s[|lines[0]|..] == Concat(lines[1..]);
    }
  }

  lemma {:induction false} ConcatFront(lines: seq<string>)
    requires lines != []
    ensures Concat(lines) == lines[0] + Concat(lines[1..])
    decreases |lines|
  {
    if |lines| > 1 {
      var init := lines[..|lines| - 1];
      ConcatFront(init);
      assert init[1..] == lines[1..][..|lines[1..]| - 1];
      assert init[0] == lines[0];
    } else {
      assert lines[1..] == [];
      assert lines[..0] == [];
    }
  }

  /** The lemma file: its lines one after another. */
  function LemmaContent(lemmas: map<string, set<string>>): string
  {
    Concat(LemmaLines(lemmas))
  }

  /** Lemmas and forms never hold a line break, so each written entry is read back as
      one line. */
  predicate LineFree(lemmas: map<string, set<string>>) {
    forall l :: l in lemmas ==> '\n' !in l && forall f :: f in lemmas[l] ==> '\n' !in f
  }

  lemma JoinLineFree(parts: seq<string>, sep: string)
    requires '\n' !in sep && forall k :: 0 <= k < |parts| ==> '\n' !in parts[k]
    ensures '\n' !in Join(parts, sep)
  {
    if |parts| > 1 {
      JoinLineFree(parts[1..], sep);
    }
  }

  lemma LemmaLineIsLine(lem: string, forms: set<string>)
    requires '\n' !in lem && forall f :: f in forms ==> '\n' !in f
    ensures IsLine(LemmaLine(lem, forms))
  {
    var fs := SortedStrings(forms);
    assert forall k :: 0 <= k < |fs| ==> fs[k] in forms;
    JoinLineFree(fs, " ");
    var body := lem + ": " + Join(fs, " ");
    assert LemmaLine(lem, forms)[..|body|] == body;
  }

  /** Reading the lemma file line by line gives its entries, one per lemma, in
      ascending lemma order. */
  lemma LemmaFileLines(lemmas: map<string, set<string>>)
    requires LineFree(lemmas)
    ensures FileLines(LemmaContent(lemmas)) == LemmaLines(lemmas)
  {
    var lines := LemmaLines(lemmas);
    var keys := SortedStrings(lemmas.Keys);
    forall k | 0 <= k < |lines| ensures IsLine(lines[k]) {
      assert keys[k] in lemmas;
      LemmaLineIsLine(keys[k], lemmas[keys[k]]);
    }
    FileLinesConcat(lines);
  }

  // ---------------------------------------------------------------- the processor

  /** A page of the crawl: its file name and the text extracted from its HTML. */
  datatype Page = Page(name: string, text: string)

  /** The token directory after pages were processed in order: a later page with the
      same output name overwrites an earlier one. */
  function TokenDir(dir: map<string, string>, pages: seq<Page>, stopWords: set<string>): map<string, string>
  {
    if pages == [] then dir
    else
      var last := pages[|pages| - 1];
      TokenDir(dir, pages[..|pages| - 1], stopWords)[TokenFileName(last.name) := TokenContent(SetTokens(last.text, stopWords))]
  }

  /** The lemma directory after pages were processed in order. */
  function LemmaDir(dir: map<string, string>, pages: seq<Page>, stopWords: set<string>, lemmaOf: string -> string): map<string, string>
  {
    if pages == [] then dir
    else
      var last := pages[|pages| - 1];
      LemmaDir(dir, pages[..|pages| - 1], stopWords, lemmaOf)[LemmaFileName(last.name) := LemmaContent(GroupByLemma(SetTokens(last.text, stopWords), lemmaOf))]
  }

  /** The output of each page survives unless a later page writes to the same name;
      files of neither kind are left as they were. */
  lemma {:induction false} TokenDirHolds(dir: map<string, string>, pages: seq<Page>, stopWords: set<string>, i: nat)
    requires i < |pages|
    requires forall j :: i < j < |pages| ==> TokenFileName(pages[j].name) != TokenFileName(pages[i].name)
    ensures TokenFileName(pages[i].name) in TokenDir(dir, pages, stopWords)
    ensures TokenDir(dir, pages, stopWords)[TokenFileName(pages[i].name)] == TokenContent(SetTokens(pages[i].text, stopWords))
  {
    if i < |pages| - 1 {
      var init := pages[..|pages| - 1];
      assert init[i] == pages[i];
      forall j | i < j < |init| ensures TokenFileName(init[j].name) != TokenFileName(init[i].name) {
        assert init[j] == pages[j];
      }
      TokenDirHolds(dir, init, stopWords, i);
    }
  }

  lemma {:induction false} LemmaDirHolds(dir: map<string, string>, pages: seq<Page>, stopWords: set<string>, lemmaOf: string -> string, i: nat)
    requires i < |pages|
    requires forall j :: i < j < |pages| ==> LemmaFileName(pages[j].name) != LemmaFileName(pages[i].name)
    ensures LemmaFileName(pages[i].name) in LemmaDir(dir, pages, stopWords, lemmaOf)
    ensures LemmaDir(dir, pages, stopWords, lemmaOf)[LemmaFileName(pages[i].name)]
      == LemmaContent(GroupByLemma(SetTokens(pages[i].text, stopWords), lemmaOf))
  {
    if i < |pages| - 1 {
      var init := pages[..|pages| - 1];
      assert init[i] == pages[i];
      forall j | i < j < |init| ensures LemmaFileName(init[j].name) != LemmaFileName(init[i].name) {
        assert init[j] == pages[j];
      }
      LemmaDirHolds(dir, init, stopWords, lemmaOf, i);
    }
  }

  /** A file that no page writes keeps its content. */
  lemma {:induction false} TokenDirKeeps(dir: map<string, string>, pages: seq<Page>, stopWords: set<string>, name: string)
    requires forall j :: 0 <= j < |pages| ==> TokenFileName(pages[j].name) != name
    ensures name in TokenDir(dir, pages, stopWords) <==> name in dir
    ensures name in dir ==> TokenDir(dir, pages, stopWords)[name] == dir[name]
  {
    if pages != [] {
      TokenDirKeeps(dir, pages[..|pages| - 1], stopWords, name);
    }
  }

  /** `TextProcessor`: the stop words and the lemmatiser it was set up with, and the
      contents of its two output directories. */
  class TextProcessor {
    const stopWords: set<string>
    const lemmaOf: string -> string
    var tokenFiles: map<string, string>
    var lemmaFiles: map<string, string>

    /** The output directories are created if missing and otherwise kept as they are. */
    constructor (stopWords: set<string>, lemmaOf: string -> string, tokenFiles: map<string, string>, lemmaFiles: map<string, string>)
      ensures this.stopWords == stopWords && this.lemmaOf == lemmaOf
      ensures this.tokenFiles == tokenFiles && this.lemmaFiles == lemmaFiles
    {
      this.stopWords := stopWords;
      this.lemmaOf := lemmaOf;
      this.tokenFiles := tokenFiles;
      this.lemmaFiles := lemmaFiles;
    }

    /** `save_tokens`. */
    method SaveTokens(fileName: string, tokens: set<string>)
      modifies this
      ensures tokenFiles == old(tokenFiles)[TokenFileName(fileName) := TokenContent(tokens)]
      ensures lemmaFiles == old(lemmaFiles)
    {
      tokenFiles := tokenFiles[TokenFileName(fileName) := TokenContent(tokens)];
    }

    /** `save_lemmas`: the entries are written one line at a time, in ascending lemma
        order. */
    method SaveLemmas(fileName: string, lemmas: map<string, set<string>>)
      modifies this
      ensures lemmaFiles == old(lemmaFiles)[LemmaFileName(fileName) := LemmaContent(lemmas)]
      ensures tokenFiles == old(tokenFiles)
    {
      var content := WriteLines(LemmaLines(lemmas));
      lemmaFiles := lemmaFiles[LemmaFileName(fileName) := content];
    }

    /** `process_file`, given the text extracted from the page. */
    method ProcessFile(page: Page)
      modifies this
      ensures tokenFiles == old(tokenFiles)[TokenFileName(page.name) := TokenContent(SetTokens(page.text, stopWords))]
      ensures lemmaFiles == old(lemmaFiles)[LemmaFileName(page.name) := LemmaContent(GroupByLemma(SetTokens(page.text, stopWords), lemmaOf))]
    {
      var tokens := SetTokens(page.text, stopWords);
      var lemmas := SetLemmas(tokens, lemmaOf);
      SaveTokens(page.name, tokens);
      SaveLemmas(page.name, lemmas);
    }

    /** `process_all_files`, over the pages of the directory listing in its order. */
    method ProcessAllFiles(pages: seq<Page>)
      modifies this
      ensures tokenFiles == TokenDir(old(tokenFiles), pages, stopWords)
      ensures lemmaFiles == LemmaDir(old(lemmaFiles), pages, stopWords, lemmaOf)
    {
      for i := 0 to |pages|
        invariant tokenFiles == TokenDir(old(tokenFiles), pages[..i], stopWords)
        invariant lemmaFiles == LemmaDir(old(lemmaFiles), pages[..i], stopWords, lemmaOf)
      {
        assert pages[..i + 1][..i] == pages[..i];
        ProcessFile(pages[i]);
      }
      assert pages[..|pages|] == pages;
    }
  }
}
