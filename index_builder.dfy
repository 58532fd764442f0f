/** `InvertedIndexBuilder` of hw-3/main.py: the lemma files written by the text
    processor are read one by one, the page id is parsed from each file name, and
    every lemma line appends that id to the lemma's posting list. */
module IndexBuilder {
  import opened Outcomes
  import opened PyStr

  // ---------------------------------------------------------------- file names and lines

  /** `int(name.split(".")[0].split("_")[1])`, with the IndexError of a missing second
      field and the ValueError of a non-integer field both as `None`. */
  function ParsePageId(name: string): Option<int>
  {
    var fields := Split(Split(name, '.')[0], '_');
    if |fields| < 2 then None else ParseInt(fields[1])
  }

  /** `line.strip().split(":")[0]`: the lemma of a lemma-file line. */
  function ExtractWord(line: string): (w: string)
    ensures ':' !in w
  {
    Split(Strip(line), ':')[0]
  }

  /** In a name made of a stem, `_`, a field and a tail that starts a new `_` or `.`
      field, the page id is `int()` of that field. */
  lemma ParsePageIdField(stem: string, field: string, tail: string)
    requires '.' !in stem && '_' !in stem && '.' !in field && '_' !in field
    requires tail == [] || tail[0] == '_' || tail[0] == '.'
    ensures ParsePageId(stem + "_" + field + tail) == ParseInt(field)
  {
    var head := stem + "_" + field;
    assert '.' !in head;
    assert stem + "_" + field + tail == head + tail;
    SplitHeadAppend(head, tail, '.');
    var rest := Split(tail, '.')[0];
    SplitHeadPrefix(tail, '.');
    assert rest == [] || rest[0] == '_' by {
      if rest != [] { assert rest[0] == tail[0]; }
    }
    assert Split(head + tail, '.')[0] == stem + ['_'] + (field + rest);
    SplitFirstField(stem, '_', field + rest);
    SplitHeadAppend(field, rest, '_');
    assert Split(rest, '_')[0] == [];
    assert field + [] == field;
  }

  /** The page id written into a name as a decimal field is read back from it. */
  lemma ParsePageIdOf(stem: string, n: int, tail: string)
    requires '.' !in stem && '_' !in stem
    requires tail == [] || tail[0] == '_' || tail[0] == '.'
    ensures ParsePageId(stem + "_" + IntToString(n) + tail) == Some(n)
  {
    var digits := IntToString(n);
    assert '.' !in digits && '_' !in digits by {
      forall i | 0 <= i < |digits| ensures digits[i] != '.' && digits[i] != '_' {
        assert IsDigit(digits[i]) || digits[i] == '-';
      }
    }
    ParsePageIdField(stem, digits, tail);
    ParseIntToString(n);
  }

  /** A name whose part before the first `.` has no `_` has no id field (IndexError). */
  lemma ParsePageIdNeedsField(name: string)
    requires '_' !in Split(name, '.')[0]
    ensures ParsePageId(name) == None
  {
    SplitNone(Split(name, '.')[0], '_');
  }

  /** `lemmas_1_page.txt` is page 1. */
  lemma LemmaFilePageId()
    ensures ParsePageId("lemmas_1_page.txt") == Some(1)
  {
    assert IntToString(1) == "1";
    assert "lemmas_1_page.txt" == "lemmas" + "_" + IntToString(1) + "_page.txt";
    ParsePageIdOf("lemmas", 1, "_page.txt");
  }

  /** `index.html` has no id field and is skipped (IndexError). */
  lemma NoFieldSkipped()
    ensures ParsePageId("index.html") == None
  {
    var stem, ext := "index", "html";
    assert "index.html" == stem + ['.'] + ext;
    SplitFirstField(stem, '.', ext);
    assert '_' !in stem;
    ParsePageIdNeedsField(stem + ['.'] + ext);
  }

  /** `lemmas_x_page.txt` has a field that is not an integer and is skipped
      (ValueError). */
  lemma NonNumericFieldSkipped()
    ensures ParsePageId("lemmas_x_page.txt") == None
  {
    var stem, field, tail := "lemmas", "x", "_page.txt";
    assert "lemmas_x_page.txt" == stem + "_" + field + tail;
    ParsePageIdField(stem, field, tail);
    ParseIntSingle(field);
  }

  /** A lemma with no `:` and no surrounding white space is read back from its line. */
  lemma ExtractWordOf(lem: string, rest: string)
    requires lem != [] && ':' !in lem
    requires !IsSpace(lem[0]) && !IsSpace(lem[|lem| - 1])
    ensures ExtractWord(lem + ":" + rest) == lem
  {
    var head := lem + ":";
    StripKeepsHead(head, rest);
    var t := Strip(head + rest);
    assert t == lem + [':'] + t[|head|..] by {
      assert t == t[..|head|] + t[|head|..];
    }
    SplitFirstField(lem, ':', t[|head|..]);
  }

  // ---------------------------------------------------------------- the ordered index

  /** A `defaultdict(list)` as it grows: its keys in first-insertion order and the list
      of each key. */
  datatype OrderedIndex = OrderedIndex(keys: seq<string>, lists: map<string, seq<int>>)
  {
    /** Keys are listed once each, exactly the keys of the map; no key is empty and
        no list is empty (a key is only created by an append). */
    ghost predicate Valid() {
      (forall i, j :: 0 <= i < j < |keys| ==> keys[i] != keys[j])
      && (forall w :: w in lists <==> w in keys)
      && "" !in lists
      && (forall w :: w in lists ==> lists[w] != [])
    }
  }

  const Empty := OrderedIndex([], map[])

  /** The list stored for `w`, the empty list when there is none. */
  function Postings(ix: OrderedIndex, w: string): seq<int>
  {
    if w in ix.lists then ix.lists[w] else []
  }

  /** `inverted_index[word].append(page_id)`. */
  function Append(ix: OrderedIndex, w: string, id: int): (r: OrderedIndex)
    ensures Postings(r, w) == Postings(ix, w) + [id]
    ensures forall v :: v != w ==> Postings(r, v) == Postings(ix, v)
    ensures ix.keys <= r.keys
    ensures ix.Valid() && w != "" ==> r.Valid()
  {
    if w in ix.lists then OrderedIndex(ix.keys, ix.lists[w := ix.lists[w] + [id]])
    else OrderedIndex(ix.keys + [w], ix.lists[w := [id]])
  }

  /** The lemma of every line of a file, in order. */
  function LemmasOf(lines: seq<string>): (words: seq<string>)
    ensures |words| == |lines|
  {
    seq(|lines|, i requires 0 <= i < |lines| => ExtractWord(lines[i]))
  }

  /** One line of `_process_file`, by its lemma: an empty lemma adds nothing. */
  function AddWord(ix: OrderedIndex, w: string, id: int): OrderedIndex
  {
    if w == [] then ix else Append(ix, w, id)
  }

  /** `_process_file` over the lemmas of the lines of one file, in order. */
  function AddWords(ix: OrderedIndex, words: seq<string>, id: int): (r: OrderedIndex)
    ensures ix.keys <= r.keys
    ensures ix.Valid() ==> r.Valid()
    decreases |words|
  {
    if words == [] then ix
    else AddWord(AddWords(ix, words[..|words| - 1], id), words[|words| - 1], id)
  }

  lemma LemmasSnoc(lines: seq<string>, i: nat)
    requires i < |lines|
    ensures LemmasOf(lines[..i + 1]) == LemmasOf(lines[..i]) + [ExtractWord(lines[i])]
  {
    assert lines[..i + 1][i] == lines[i];
  }

  lemma AddWordsSnoc(ix: OrderedIndex, words: seq<string>, w: string, id: int)
    ensures AddWords(ix, words + [w], id) == AddWord(AddWords(ix, words, id), w, id)
  {
    assert (words + [w])[..|words|] == words;
  }

  /** How many times `w` occurs among the lemmas. */
  function Occurrences(words: seq<string>, w: string): nat
    decreases |words|
  {
    if words == [] then 0
    else Occurrences(words[..|words| - 1], w) + (if words[|words| - 1] == w then 1 else 0)
  }

  function Repeat(id: int, n: nat): (r: seq<int>)
    ensures |r| == n && forall k :: 0 <= k < n ==> r[k] == id
  {
    seq(n, _ => id)
  }

  /** Processing a file appends its id once per line carrying the lemma, and nowhere
      else. */
  lemma {:induction false} AddWordsPostings(ix: OrderedIndex, words: seq<string>, id: int, w: string)
    requires w != ""
    ensures Postings(AddWords(ix, words, id), w) == Postings(ix, w) + Repeat(id, Occurrences(words, w))
    decreases |words|
  {
    if words != [] {
      var init := words[..|words| - 1];
      AddWordsPostings(ix, init, id, w);
      var n := Occurrences(init, w);
      if words[|words| - 1] == w {
        assert Repeat(id, n + 1) == Repeat(id, n) + [id];
      }
    }
  }

  // ---------------------------------------------------------------- the directory

  datatype TokenFile = TokenFile(name: string, lines: seq<string>)

  /** What `os.path.exists` and `os.listdir` report: no directory, or its files in
      listing order. */
  datatype Directory = Missing | Listing(files: seq<TokenFile>)

  /** The loop of `build` over the listed files: a name without an id is skipped. */
  function IndexFiles(ix: OrderedIndex, files: seq<TokenFile>): (r: OrderedIndex)
    ensures ix.keys <= r.keys
    ensures ix.Valid() ==> r.Valid()
    decreases |files|
  {
    if files == [] then ix
    else IndexFile(IndexFiles(ix, files[..|files| - 1]), files[|files| - 1])
  }

  /** The body of the `try` block for one listed file. */
  function IndexFile(ix: OrderedIndex, f: TokenFile): (r: OrderedIndex)
    ensures ix.keys <= r.keys
    ensures ix.Valid() ==> r.Valid()
  {
    match ParsePageId(f.name)
    case None => ix
    case Some(id) => AddWords(ix, LemmasOf(f.lines), id)
  }

  /** The name of a listed file when it gives no id, as the `except` branch reports it. */
  function SkipReport(f: TokenFile): seq<string>
  {
    if ParsePageId(f.name).None? then [f.name] else []
  }

  /** The names `build` reports as incorrect, in listing order. */
  function SkippedNames(files: seq<TokenFile>): seq<string>
    decreases |files|
  {
    if files == [] then []
    else
      SkippedNames(files[..|files| - 1]) + SkipReport(files[|files| - 1])
  }

  /** One more file of the listing. */
  lemma FileStep(ix: OrderedIndex, files: seq<TokenFile>, i: nat)
    requires i < |files|
    ensures IndexFiles(ix, files[..i + 1]) == IndexFile(IndexFiles(ix, files[..i]), files[i])
    ensures SkippedNames(files[..i + 1]) == SkippedNames(files[..i])
      + SkipReport(files[i])
  {
    assert files[..i + 1][..i] == files[..i];
  }

  /** Every reported name is the name of a listed file that gives no id. */
  lemma {:induction false} SkippedNameSource(files: seq<TokenFile>, k: nat) returns (i: nat)
    requires k < |SkippedNames(files)|
    ensures i < |files| && files[i].name == SkippedNames(files)[k] && ParsePageId(files[i].name).None?
    decreases |files|
  {
    var init := files[..|files| - 1];
    if k < |SkippedNames(init)| {
      i := SkippedNameSource(init, k);
      assert files[i] == init[i];
    } else {
      i := |files| - 1;
    }
  }

  /** What the accepted files contribute to the list of `w`: each file's id, once per
      line carrying the lemma, file after file. */
  function Contribution(files: seq<TokenFile>, w: string): seq<int>
    decreases |files|
  {
    if files == [] then []
    else Contribution(files[..|files| - 1], w) + FileContribution(files[|files| - 1], w)
  }

  /** What one listed file adds to the list of `w`. */
  function FileContribution(f: TokenFile, w: string): seq<int>
  {
    match ParsePageId(f.name)
    case None => []
    case Some(id) => Repeat(id, Occurrences(LemmasOf(f.lines), w))
  }

  /** The number of lines carrying `w` in the files whose names give an id. */
  function AcceptedOccurrences(files: seq<TokenFile>, w: string): nat
    decreases |files|
  {
    if files == [] then 0
    else
      var f := files[|files| - 1];
      AcceptedOccurrences(files[..|files| - 1], w) +
        (if ParsePageId(f.name).Some? then Occurrences(LemmasOf(f.lines), w) else 0)
  }

  lemma {:induction false} IndexFilesPostings(ix: OrderedIndex, files: seq<TokenFile>, w: string)
    requires w != ""
    ensures Postings(IndexFiles(ix, files), w) == Postings(ix, w) + Contribution(files, w)
    decreases |files|
  {
    if files != [] {
      var init := files[..|files| - 1];
      var f := files[|files| - 1];
      IndexFilesPostings(ix, init, w);
      IndexFilePostings(IndexFiles(ix, init), f, w);
      AppendAssoc(Postings(ix, w), Contribution(init, w), FileContribution(f, w));
    }
  }

  lemma AppendAssoc<T>(a: seq<T>, b: seq<T>, c: seq<T>)
    ensures a + b + c == a + (b + c)
  {
  }

  lemma IndexFilePostings(ix: OrderedIndex, f: TokenFile, w: string)
    requires w != ""
    ensures Postings(IndexFile(ix, f), w) == Postings(ix, w) + FileContribution(f, w)
  {
    match ParsePageId(f.name)
    case None =>
      assert Postings(ix, w) + [] == Postings(ix, w);
    case Some(id) =>
      AddWordsPostings(ix, LemmasOf(f.lines), id, w);
  }

  /** The list of a lemma is as long as the number of its lines in accepted files. */
  lemma {:induction false} ContributionLength(files: seq<TokenFile>, w: string)
    ensures |Contribution(files, w)| == AcceptedOccurrences(files, w)
    decreases |files|
  {
    if files != [] {
      ContributionLength(files[..|files| - 1], w);
    }
  }

  /** The file's name gives the id `x` and one of its lines carries the lemma `w`. */
  predicate Supplies(f: TokenFile, w: string, x: int) {
    ParsePageId(f.name) == Some(x) && Occurrences(LemmasOf(f.lines), w) > 0
  }

  /** Every stored id was parsed from the name of a file that has a line with the
      lemma. */
  lemma {:induction false} ContributionFromNames(files: seq<TokenFile>, w: string, x: int)
    returns (i: nat)
    requires x in Contribution(files, w)
    ensures i < |files| && Supplies(files[i], w, x)
    decreases |files|
  {
    var init := files[..|files| - 1];
    if x in Contribution(init, w) {
      i := ContributionFromNames(init, w, x);
      assert files[i] == init[i];
    } else {
      i := |files| - 1;
      FileContributionSupplies(files[i], w, x);
    }
  }

  lemma FileContributionSupplies(f: TokenFile, w: string, x: int)
    requires x in FileContribution(f, w)
    ensures Supplies(f, w, x)
  {
  }

  /** After a build from scratch, the words of the index are exactly the non-empty
      lemmas of lines in accepted files, and each list is exactly their contribution. */
  lemma BuiltIndex(files: seq<TokenFile>, w: string)
    ensures w in IndexFiles(Empty, files).lists <==> w != "" && AcceptedOccurrences(files, w) > 0
    ensures w != "" ==> Postings(IndexFiles(Empty, files), w) == Contribution(files, w)
  {
    var r := IndexFiles(Empty, files);
    assert Empty.Valid();
    if w != "" {
      IndexFilesPostings(Empty, files, w);
      ContributionLength(files, w);
      assert Postings(r, w) == Contribution(files, w);
    }
  }

  // ---------------------------------------------------------------- the builder

  class InvertedIndexBuilder {
    var invertedIndex: OrderedIndex
    /** The names reported as incorrect (the message itself is not modelled). */
    var skipped: seq<string>

    constructor ()
      ensures invertedIndex == Empty && skipped == []
    {
      invertedIndex := Empty;
      skipped := [];
    }

    /** `_process_file(file_path, page_id)` on the lines of the file. */
    method ProcessFile(lines: seq<string>, pageId: int)
      modifies this
      ensures invertedIndex == AddWords(old(invertedIndex), LemmasOf(lines), pageId)
      ensures skipped == old(skipped)
    {
      for i := 0 to |lines|
        invariant invertedIndex == AddWords(old(invertedIndex), LemmasOf(lines[..i]), pageId)
        invariant skipped == old(skipped)
      {
        ghost var before := invertedIndex;
        var word := ExtractWord(lines[i]);
        if word != [] {
          if word in invertedIndex.lists {
            var list := invertedIndex.lists[word];
            invertedIndex := invertedIndex.(lists := invertedIndex.lists[word := list + [pageId]]);
          } else {
            invertedIndex := OrderedIndex(invertedIndex.keys + [word], invertedIndex.lists[word := [pageId]]);
          }
        }
        assert invertedIndex == AddWord(before, word, pageId);
        LemmasSnoc(lines, i);
        AddWordsSnoc(old(invertedIndex), LemmasOf(lines[..i]), word, pageId);
      }
      assert lines[..|lines|] == lines;
    }

    /** One listed file: its lines are processed when its name gives an id, and the
        name is reported otherwise. */
    method AddFile(f: TokenFile)
      modifies this
      ensures invertedIndex == IndexFile(old(invertedIndex), f)
      ensures skipped == old(skipped) + SkipReport(f)
    {
      var pageId := ParsePageId(f.name);
      if pageId.Some? {
        ProcessFile(f.lines, pageId.value);
      } else {
        skipped := skipped + [f.name];
      }
    }

    /** `build()`: a missing directory raises before anything is added; otherwise every
        listed file is processed or, when its name gives no id, reported. */
    method Build(dir: Directory) returns (r: Result<OrderedIndex, BuildError>)
      modifies this
      ensures dir.Missing? ==>
        r == Err(DirectoryNotFound) && invertedIndex == old(invertedIndex) && skipped == old(skipped)
      ensures dir.Listing? ==>
        r == Ok(invertedIndex) && invertedIndex == IndexFiles(old(invertedIndex), dir.files)
        && skipped == old(skipped) + SkippedNames(dir.files)
    {
      if dir.Missing? {
        return Err(DirectoryNotFound);
      }
      var files := dir.files;
      for i := 0 to |files|
        invariant invertedIndex == IndexFiles(old(invertedIndex), files[..i])
        invariant skipped == old(skipped) + SkippedNames(files[..i])
      {
        FileStep(old(invertedIndex), files, i);
        AppendAssoc(old(skipped), SkippedNames(files[..i]), SkipReport(files[i]));
        AddFile(files[i]);
      }
      assert files[..|files|] == files;
      return Ok(invertedIndex);
    }
  }
}
