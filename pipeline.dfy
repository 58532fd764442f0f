/** How the stages fit together: the lemma files written by the text processor
    (hw-2/main.py) are the input the index builder (hw-3/main.py) reads, and the names
    the crawler gives its pages (`N_page.html`) carry the page id through to the
    builder's name parser. */
module Pipeline {
  import opened Outcomes
  import opened PyStr
  import opened Sorting
  import opened IndexBuilder
  import opened TextProcessing

  /** A lemma the builder can read back: non-empty, no `:`, no line break and no white
      space at either end. The morphological analyser's normal forms are words, so this
      is what it is expected to return. */
  predicate CleanLemma(l: string) {
    l != [] && ':' !in l && '\n' !in l && !IsSpace(l[0]) && !IsSpace(l[|l| - 1])
  }

  /** The builder takes exactly the lemma back out of a lemma-file line. */
  lemma LemmaLineRead(lem: string, forms: set<string>)
    requires CleanLemma(lem)
    ensures ExtractWord(LemmaLine(lem, forms)) == lem
  {
    var rest := " " + Join(SortedStrings(forms), " ") + "\n";
    assert LemmaLine(lem, forms) == lem + ":" + rest;
    ExtractWordOf(lem, rest);
  }

  /** Reading a lemma file line by line, the builder sees each lemma once, in ascending
      order. */
  lemma LemmaFileRead(lemmas: map<string, set<string>>)
    requires LineFree(lemmas)
    requires forall l :: l in lemmas ==> CleanLemma(l)
    ensures LemmasOf(FileLines(LemmaContent(lemmas))) == SortedStrings(lemmas.Keys)
  {
    LemmaFileLines(lemmas);
    var keys := SortedStrings(lemmas.Keys);
    var lines := LemmaLines(lemmas);
    forall k | 0 <= k < |keys| ensures LemmasOf(lines)[k] == keys[k] {
      assert keys[k] in lemmas;
      LemmaLineRead(keys[k], lemmas[keys[k]]);
    }
  }

  /** An output name built from a page named by its id, a suffix that starts a new
      `_` field and an extension yields that id to the builder. */
  lemma OutputNameId(prefix: string, n: nat, suffix: string, ext: string)
    requires '.' !in prefix && '_' !in prefix
    requires '.' !in suffix && '/' !in suffix && (suffix == [] || suffix[0] == '_')
    requires ext != [] && ext[0] == '.' && '.' !in ext[1..] && '/' !in ext
    ensures ParsePageId(OutputName(prefix + "_", NatToString(n) + suffix + ext)) == Some(n)
  {
    var digits, txt := NatToString(n), ".txt";
    var stem := digits + suffix;
    assert '.' !in stem && '/' !in stem by {
      forall i | 0 <= i < |stem| ensures stem[i] != '.' && stem[i] != '/' {
        if i < |digits| { assert IsDigit(stem[i]); } else { assert stem[i] == suffix[i - |digits|]; }
      }
    }
    assert stem[0] == digits[0] && IsDigit(digits[0]);
    OutputNameOf(prefix + "_", stem, ext);
    var tail := suffix + txt;
    assert tail[0] == '_' || tail[0] == '.' by {
      if suffix == [] { assert tail == txt; } else { assert tail[0] == suffix[0]; }
    }
    assert prefix + "_" + stem + txt == prefix + "_" + IntToString(n) + tail;
    ParsePageIdOf(prefix, n, tail);
  }

  /** The name the crawler gives the page it saves as number `counter`. */
  function PageName(counter: nat): string
  {
    NatToString(counter) + "_page" + ".html"
  }

  /** The lemma file of the crawler's page `N_page.html` is named `lemmas_N_page.txt`,
      and the builder reads the page id N back from that name. */
  lemma PageLemmaFileId(n: nat)
    ensures ParsePageId(LemmaFileName(PageName(n))) == Some(n)
  {
    var prefix, suffix, ext := "lemmas", "_page", ".html";
    assert suffix[0] == '_' && '.' !in suffix && '/' !in suffix;
    assert ext[0] == '.' && '.' !in ext[1..] && '/' !in ext;
    assert '.' !in prefix && '_' !in prefix;
    OutputNameId(prefix, n, suffix, ext);
    assert prefix + "_" == "lemmas_";
  }

  /** Strings in ascending order are distinct, so each occurs at most once. */
  lemma {:induction false} OccurrencesAscending(words: seq<string>, w: string)
    requires StringsAscending(words)
    ensures Occurrences(words, w) == if w in words then 1 else 0
    decreases |words|
  {
    if words != [] {
      var init := words[..|words| - 1];
      var last := words[|words| - 1];
      assert StringsAscending(init);
      OccurrencesAscending(init, w);
      assert last !in init by {
        forall k | 0 <= k < |init| ensures init[k] != last {
          assert LexLess(words[k], words[|words| - 1]);
          LexIrreflexive(last);
        }
      }
      assert words == init + [last];
    }
  }

  /** Adding the lemmas of a file in ascending order appends the page id once to each
      lemma's list. */
  lemma SortedLemmasPostings(ix: OrderedIndex, keys: set<string>, n: int, w: string)
    requires w != ""
    ensures Postings(AddWords(ix, SortedStrings(keys), n), w) == Postings(ix, w) + (if w in keys then [n] else [])
  {
    var words := SortedStrings(keys);
    AddWordsPostings(ix, words, n, w);
    OccurrencesAscending(words, w);
    assert Repeat(n, 1) == [n];
    assert Repeat(n, 0) == [];
  }

  /** Feeding the builder the lemma file written for page N appends N once to the list
      of every lemma of that page and changes no other list. */
  lemma LemmaFileIndexed(ix: OrderedIndex, n: nat, lemmas: map<string, set<string>>, w: string)
    requires LineFree(lemmas)
    requires forall l :: l in lemmas ==> CleanLemma(l)
    requires w != ""
    ensures Postings(IndexFile(ix, TokenFile(LemmaFileName(PageName(n)), FileLines(LemmaContent(lemmas)))), w)
      == Postings(ix, w) + (if w in lemmas then [n] else [])
  {
    var f := TokenFile(LemmaFileName(PageName(n)), FileLines(LemmaContent(lemmas)));
    PageLemmaFileId(n);
    LemmaFileRead(lemmas);
    assert IndexFile(ix, f) == AddWords(ix, SortedStrings(lemmas.Keys), n);
    SortedLemmasPostings(ix, lemmas.Keys, n, w);
  }
}
