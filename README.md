# A boolean search engine over lemmatised Russian pages, in Dafny

The system is a small search-engine pipeline in four stages:

- A crawler saves each page it fetches as `N_page.html`, counting from 1.
- A text processor (hw-2) extracts the words of each page:
  - tokens are runs of Russian letters, lower-cased, with stop words dropped;
  - the tokens are grouped by lemma, using a morphological analyser.
- It writes two files per page:
  - `tokens_<stem>.txt`: the sorted tokens, one per line;
  - `lemmas_<stem>.txt`: one line `lemma: form form …` per lemma, in ascending order.
- An index builder (hw-3) reads every lemma file:
  - it parses the page id from the file's name (`lemmas_7_page.txt` is page 7);
  - it appends that id to the posting list of every lemma in the file.
- A saver writes the index as JSON, with a line break after every `],`.
- A boolean searcher answers queries over the index:
  - it splits the upper-cased query into parentheses, `AND`/`OR`/`NOT` and words;
  - it converts the tokens to postfix with the shunting-yard algorithm;
  - it evaluates the postfix program over sets of page ids;
  - it returns the result sorted.

The modules:

| module | what it holds |
|---|---|
| `Outcomes` | `Option`, `Result`, and the error kinds of a query and of a build |
| `PyStr` | the Python string built-ins the code relies on (see below) |
| `Sorting` | `sorted` of a set of ints and of a set of strings (by code point) |
| `QueryLexer` | `_split_request` |
| `ShuntingYard` | `_to_postfix`, as functions and as the in-place loops of the source |
| `PostfixEval` | `_get_result_searching`, as a function and as the loop of the source |
| `Search` | the `BoolSearch` object, `search`, and end-to-end theorems |
| `SearchExamples` | worked queries on a two-word index |
| `IndexBuilder` | the `InvertedIndexBuilder` class |
| `IndexSaver` | `InvertedIndexSaver.save` |
| `TextProcessing` | the `TextProcessor` class |
| `Pipeline` | lemmas that chain the stages |

`PyStr` models these Python built-ins:

- `upper` and `lower`;
- `\w`;
- `split`, `strip` and `join`;
- `os.path.splitext`;
- `int()` and `str()` on integers;
- `str.replace`.

Where the description of the system and its code disagree, the model follows the code:

- **Posting lists are lists, not sets.** The builder appends the page id once per line, so duplicates are kept. The saver writes each list in stored order; it does not sort it.
- **An unclosed `(` is not an error.** `_to_postfix` flushes it to the output like any other stacked operator. Evaluation then treats the `(` as a word to look up.
- **`NOT` is also looked up as a word.** Line 100 of the searcher is an `if`, not an `elif`. So every `NOT` first replaces the top of the stack by its complement, then also pushes the pages of the word "NOT". See "## Findings".

## Model

| member | source | states |
|---|---|---|
| QueryLexer.FindAll | hw-3/searcher.py:49 | every token found is a parenthesis, a keyword or a run of word characters; an upper-cased query yields no lower-case token |
| QueryLexer.FindAllKeepsText | hw-3/searcher.py:49 | the tokens, concatenated, are exactly the query's parenthesis and word characters in order: the split drops only the other characters |
| QueryLexer.SplitRequestCaseInsensitive | hw-3/searcher.py:49 | a query and its upper-cased form split alike, and no token holds a lower-case letter |
| QueryLexer.FindAllParen | hw-3/searcher.py:49 | a parenthesis is a token of its own |
| QueryLexer.FindAllKeyword | hw-3/searcher.py:49 | a leading `NOT`/`AND`/`OR` is a token of its own, even when glued to more letters |
| QueryLexer.FindAllWord | hw-3/searcher.py:49 | a maximal run of word characters that starts no keyword is one token |
| QueryLexer.FindAllSkip | hw-3/searcher.py:49 | a character that is neither a parenthesis nor a word character produces no token |
| QueryLexer.KeywordPrefixSplitsWord | hw-3/searcher.py:49 | the alternation tries `OR` before `\w+`, so "order" splits into `OR` and `DER` |
| QueryLexer.NotKeywordPrefixSplitsWord | hw-3/searcher.py:49 | "Notes" splits into `NOT` and `ES` |
| ShuntingYard.Priority | hw-3/searcher.py:60 | the priority of an operator is its place in the list `OR`, `AND`, `NOT` |
| ShuntingYard.CloseParen | hw-3/searcher.py:65-69 | a `)` fails, as `operators[-1]` on an empty list, exactly when no `(` is stacked; otherwise it drops the nearest `(` and keeps the operators below it |
| ShuntingYard.CloseParenOutput | hw-3/searcher.py:67-68 | a `)` writes the operators above the nearest `(`, top first |
| ShuntingYard.CloseParenInPlace | hw-3/searcher.py:65-69 | the pop loop of the source computes the closing step |
| ShuntingYard.PopWhileHigher | hw-3/searcher.py:72-76 | pushing an operator pops only a top segment of the stack |
| ShuntingYard.PopWhileHigherStops | hw-3/searcher.py:72-76 | every popped operator has priority at least that of the incoming one; popping stops at the bottom, at a `(` or at a lower priority |
| ShuntingYard.PopWhileHigherOutput | hw-3/searcher.py:75-76 | the popped operators are written top first |
| ShuntingYard.PopWhileHigherInPlace | hw-3/searcher.py:70-77 | the pop loop of the source computes the operator step |
| ShuntingYard.FlushInPlace | hw-3/searcher.py:82-83 | the final loop writes the whole remaining stack, top first |
| ShuntingYard.Step | hw-3/searcher.py:62-79 | one element fails exactly when it is a `)` with no `(` stacked; the stack keeps holding only operators and `(` |
| ShuntingYard.ToPostfix | hw-3/searcher.py:51-85 | the loop of the source computes the conversion function `Postfix` |
| ShuntingYard.RunKeeps | hw-3/searcher.py:62-79 | the conversion invariant: the output and stack account for every element consumed, terms lower-cased in order; failure means a prefix closes more than it opens |
| ShuntingYard.RunFromStart | hw-3/searcher.py:59-79 | the same, from the empty output and stack |
| ShuntingYard.FlushKeeps | hw-3/searcher.py:82-83 | the flush keeps every element and the order of the terms |
| ShuntingYard.PostfixFails | hw-3/searcher.py:51-85 | the conversion fails, always with an unmatched `)`, exactly when some prefix of the tokens has more `)` than `(` |
| ShuntingYard.PostfixKeepsTerms | hw-3/searcher.py:78-79 | the output's terms are the input's terms lower-cased, in the same order |
| ShuntingYard.PostfixKeepsOperators | hw-3/searcher.py:51-85 | the output holds each operator as often as the input, no `)`, and one `(` per unclosed `(` |
| ShuntingYard.AndBindsTighter | hw-3/searcher.py:70-77 | `a OR b AND c` converts to `a b c AND OR` |
| ShuntingYard.AndGroupsLeft | hw-3/searcher.py:72-74 | the `>=` test makes `a AND b AND c` group to the left: `a b AND c AND` |
| ShuntingYard.DoubleNot | hw-3/searcher.py:72-74 | the `>=` test pops a stacked `NOT` under a new `NOT`: `NOT NOT a` converts to `NOT a NOT` |
| ShuntingYard.UnclosedParenWritten | hw-3/searcher.py:82-83 | an unclosed `(` is written to the output: `( a` converts to `a (` |
| ShuntingYard.PostfixBinary | hw-3/searcher.py:70-79 | `a op b` converts to `a b op` |
| ShuntingYard.PostfixPrefix | hw-3/searcher.py:70-83 | `op a` converts to `a op` |
| ShuntingYard.PostfixAndNot | hw-3/searcher.py:70-83 | `a AND NOT b` converts to `a b NOT AND` |
| PostfixEval.Lookup | hw-3/searcher.py:107 | a word's set is the pages of its posting list, and empty for a missing word |
| PostfixEval.Pages | hw-3/searcher.py:19 | the universe of pages is exactly the union of all posting lists |
| PostfixEval.LookupWithinPages | hw-3/searcher.py:19 | every looked-up set lies within the universe |
| PostfixEval.Complement | hw-3/searcher.py:97-99 | `NOT` fails with a stack underflow exactly on an empty stack; otherwise it replaces the top by its complement in the universe |
| PostfixEval.Combine | hw-3/searcher.py:100-105 | `AND`/`OR` fail exactly with fewer than two sets; otherwise the two tops become their intersection or union |
| PostfixEval.Finish | hw-3/searcher.py:109 | the answer is the top set in ascending order, or empty for an empty stack |
| PostfixEval.GetResultSearching | hw-3/searcher.py:87-109 | the loop of the source computes the as-written evaluation |
| PostfixEval.RunAppend | hw-3/searcher.py:96-107 | evaluating two programs in turn is evaluating their concatenation |
| PostfixEval.ReadingsAgreeWithoutNot | hw-3/searcher.py:97-107 | on a program without `NOT`, the `if` and the `elif` readings of line 100 agree |
| PostfixEval.TrailingNotAsWritten | hw-3/searcher.py:97-107 | as written, a program ending in `NOT` can only return the pages of the word "NOT" |
| PostfixEval.RunHeight | hw-3/searcher.py:96-107 | evaluation underflows exactly when the operators' places alone require it; the stack height is determined likewise |
| PostfixEval.RunWithin | hw-3/searcher.py:96-107 | every set on the stack stays within the universe of pages |
| PostfixEval.EvaluateWithinPages | hw-3/searcher.py:87-109 | every answer lists pages of the index, in ascending order |
| PostfixEval.EmitNotFree | hw-3/searcher.py:97-107 | the postfix program of a query without `NOT` has no `NOT` |
| PostfixEval.RunEmit | hw-3/searcher.py:96-107 | read with `elif`, the postfix program of a query pushes exactly the set the query denotes |
| PostfixEval.RunBinaryEmit | hw-3/searcher.py:100-105 | read with `elif`, `a b op` pushes the intersection or union of what `a` and `b` denote |
| PostfixEval.EvaluateEmit | hw-3/searcher.py:87-109 | read with `elif`, a query's postfix program returns the sorted pages it denotes |
| PostfixEval.EvaluateEmitNotFree | hw-3/searcher.py:87-109 | as written, the same holds of every query without `NOT` |
| PostfixEval.LastQueryCounts | hw-3/searcher.py:109 | when several results are left on the stack, only the last is returned |
| PostfixEval.NegationEvaluated | hw-3/searcher.py:97-107 | as written, `NOT a` returns the pages of the word "NOT"; read with `elif`, it returns the complement of `a` |
| PostfixEval.RunWord | hw-3/searcher.py:106-107 | a word pushes its looked-up set |
| PostfixEval.RunNotAsWritten | hw-3/searcher.py:97-107 | as written, `NOT` replaces the top by its complement, then pushes the pages of the word "NOT" |
| PostfixEval.RunCombine | hw-3/searcher.py:100-105 | a binary operator replaces the two tops by their intersection or union |
| PostfixEval.AndNotAsWritten | hw-3/searcher.py:97-105 | as written, `a b NOT AND` intersects the complement of `b` with the pages of "NOT" |
| PostfixEval.UnderflowExamples | hw-3/searcher.py:98-104 | `a AND`, `NOT` alone and `NOT a NOT` all underflow |
| Search.BoolSearch.Search | hw-3/searcher.py:31-40 | `search` composes splitting, conversion and evaluation, stopping at the first error |
| Search.Load | hw-3/searcher.py:12-19 | the loaded searcher holds the index and, as its universe, the union of the postings |
| Search.AnswerWithinPages | hw-3/searcher.py:31-40 | every answer is strictly ascending and lists only pages of the index |
| Search.AnswerFails | hw-3/searcher.py:31-40 | a query fails with an unmatched `)` exactly when some prefix closes more than it opens; otherwise it underflows exactly when its postfix program runs out of operands |
| Search.LoweredTerms | hw-3/searcher.py:78-79 | lower-casing keeps every word of a query a term |
| Search.RunInfix | hw-3/searcher.py:62-79 | a fully parenthesised query is converted onto the output as its postfix program, leaving the stack as it was |
| Search.RunInfixNot | hw-3/searcher.py:62-79 | the same for `( NOT a )` |
| Search.RunInfixBinary | hw-3/searcher.py:62-79 | the same for `( a op b )` |
| Search.InfixToPostfix | hw-3/searcher.py:51-85 | a fully parenthesised query converts to the postfix program of the query, its words lower-cased |
| Search.ParenthesisedQueryMeans | hw-3/searcher.py:31-40 | read with `elif`, a fully parenthesised query returns the sorted set of pages it denotes |
| Search.ParenthesisedQueryAsWritten | hw-3/searcher.py:31-40 | as written, the same holds of every such query without `NOT` |
| Search.NegationAsWritten | hw-3/searcher.py:97-107 | as written, `( NOT a )` returns the pages of the word "NOT"; read with `elif`, the complement of `a` |
| SearchExamples.SearchCatAndDog | hw-3/searcher.py:31-40 | on the index кот → [1, 2], собака → [2, 3], "кот AND собака" finds [2] |
| SearchExamples.SearchCatOrDog | hw-3/searcher.py:31-40 | "кот OR собака" finds [1, 2, 3] |
| SearchExamples.SearchNotCat | hw-3/searcher.py:97-107 | "NOT кот" finds [] as written, and [3] read with `elif` |
| SearchExamples.SearchEmpty | hw-3/searcher.py:109 | the empty query returns the empty list |
| SearchExamples.UnmatchedCloseFirst | hw-3/searcher.py:65-67 | a query starting with `)` fails with an unmatched `)` |
| SearchExamples.LeadingOperatorUnderflows | hw-3/searcher.py:100-101 | `AND a` underflows |
| SearchExamples.DoubleNotUnderflows | hw-3/searcher.py:72-74 | `NOT NOT a` underflows, since the conversion writes the first `NOT` before its operand |
| SearchExamples.TwoWordsLastCounts | hw-3/searcher.py:109 | two words with no operator return the pages of the second |
| SearchExamples.CatAndNotDogAsWritten | hw-3/searcher.py:97-107 | as written, `КОТ AND NOT СОБАКА` finds [] |
| SearchExamples.CatAndNotDogCorrected | hw-3/searcher.py:97-107 | read with `elif`, it finds [1] |
| SearchExamples.CatDogTokens | hw-3/searcher.py:109 | `КОТ СОБАКА` returns the pages of собака, [2, 3] |
| IndexBuilder.ParsePageIdField | hw-3/main.py:45 | the page id is read from the second `_` field of the name before its first `.` |
| IndexBuilder.ParsePageIdOf | hw-3/main.py:45 | an id written into a name as that field is read back |
| IndexBuilder.ParsePageIdNeedsField | hw-3/main.py:45-47 | a name with no second field gives no id (the IndexError) |
| IndexBuilder.LemmaFilePageId | hw-3/main.py:44-45 | `lemmas_1_page.txt` is page 1 |
| IndexBuilder.NoFieldSkipped | hw-3/main.py:45-48 | `index.html` gives no id |
| IndexBuilder.NonNumericFieldSkipped | hw-3/main.py:45-48 | `lemmas_x_page.txt` gives no id (the ValueError) |
| IndexBuilder.ExtractWord | hw-3/main.py:28 | the word taken from a line holds no `:` |
| IndexBuilder.ExtractWordOf | hw-3/main.py:28 | from `lemma: …` the lemma is taken back exactly |
| IndexBuilder.Append | hw-3/main.py:30 | appending adds the id at the end of the word's list and changes no other list |
| IndexBuilder.AddWordsPostings | hw-3/main.py:26-30 | a file appends its id to a word's list once per line carrying the word, and nowhere else |
| IndexBuilder.IndexFilePostings | hw-3/main.py:43-48 | one listed file adds its contribution to a word's list |
| IndexBuilder.IndexFilesPostings | hw-3/main.py:42-48 | over the listing, each list grows by the contributions of the accepted files, in listing order |
| IndexBuilder.ContributionLength | hw-3/main.py:42-48 | a word's list is as long as the number of its lines in files whose names give an id |
| IndexBuilder.ContributionFromNames | hw-3/main.py:42-48 | every stored id was parsed from the name of a file with a line carrying the word |
| IndexBuilder.SkippedNameSource | hw-3/main.py:47-48 | every reported name is that of a listed file whose name gives no id |
| IndexBuilder.BuiltIndex | hw-3/main.py:39-50 | a built index has exactly the non-empty lemmas of accepted files as words, each with exactly its contribution as list |
| IndexBuilder.InvertedIndexBuilder.constructor | hw-3/main.py:16-17 | a new builder has an empty index and has reported nothing |
| IndexBuilder.InvertedIndexBuilder.ProcessFile | hw-3/main.py:26-30 | the loop over a file's lines computes `AddWords` on its lemmas |
| IndexBuilder.InvertedIndexBuilder.AddFile | hw-3/main.py:43-48 | a file is processed when its name gives an id and reported otherwise |
| IndexBuilder.InvertedIndexBuilder.Build | hw-3/main.py:39-50 | a missing directory fails and changes nothing; otherwise the result is the index of all listed files, and exactly the bad names are reported |
| IndexSaver.UnbreakLines | hw-3/main.py:71 | replacing `],\n` back by `],` restores the compact text, whatever it is: the line breaks lose nothing |
| IndexSaver.BreakLinesHead | hw-3/main.py:71 | the first character is kept |
| IndexSaver.BreakLinesPlain | hw-3/main.py:71 | text without `]` is copied unchanged |
| IndexSaver.BreakLinesClose | hw-3/main.py:71 | `],` gets a line break |
| IndexSaver.BreakLinesOther | hw-3/main.py:71 | a `]` not followed by `,` is left as it is |
| IndexSaver.BreakJoined | hw-3/main.py:71 | the entries joined by `,` come out joined by `,\n` |
| IndexSaver.EntryClosed | hw-3/main.py:65 | the only `]` of a rendered entry is its last character |
| IndexSaver.SaveLayout | hw-3/main.py:64-71 | the saved file holds one entry per word in key order, entries separated by `,` and a line break |
| IndexSaver.IdStringsPlain | hw-3/main.py:65 | a rendered id has no `]` and no `,` |
| IndexSaver.ReadIdStrings | hw-3/main.py:65 | the rendered ids read back as the ids |
| IndexSaver.ArrayRoundTrip | hw-3/main.py:65 | a saved list reads back as exactly the stored list, order and duplicates included |
| TextProcessing.FindTokensSound | hw-2/main.py:30 | every token found is a maximal run of Russian letters between word boundaries |
| TextProcessing.FindTokensComplete | hw-2/main.py:30 | every such run is found |
| TextProcessing.TokenIsRun | hw-2/main.py:30 | a token ends where its run of letters ends |
| TextProcessing.TokenSource | hw-2/main.py:30-31 | every kept token is a run in the lower-cased text and is no stop word |
| TextProcessing.TokenFound | hw-2/main.py:30-31 | every run in the lower-cased text that is no stop word is kept |
| TextProcessing.TokensLowerCase | hw-2/main.py:30-31 | every kept token is non-empty and all lower-case Russian letters |
| TextProcessing.GroupsPartition | hw-2/main.py:35-39 | the lemma groups partition the tokens: each group is non-empty, each token is in its lemma's group, groups are disjoint |
| TextProcessing.GroupingUnique | hw-2/main.py:35-39 | any dictionary with those properties is the grouping |
| TextProcessing.AddFormGroups | hw-2/main.py:38 | filing one more token keeps the dictionary a grouping |
| TextProcessing.GroupByLemmaAdd | hw-2/main.py:36-38 | filing a new token into the grouping of the others gives the grouping of all |
| TextProcessing.GroupByLemmaEmpty | hw-2/main.py:35 | no tokens, no lemmas |
| TextProcessing.SetLemmas | hw-2/main.py:33-39 | the loop, in whatever order the set yields the tokens, computes the grouping by lemma |
| TextProcessing.OutputNameOf | hw-2/main.py:43 | the file `stem.ext` gets the output name `prefix` + `stem` + `.txt` |
| TextProcessing.TokenContentLines | hw-2/main.py:45 | the token file splits by line breaks into the sorted tokens, with no final line break, and is empty with no tokens |
| TextProcessing.WriteLines | hw-2/main.py:51-52 | writing the lines one after the other leaves their concatenation |
| TextProcessing.FileLinesConcat | hw-2/main.py:51-52 | reading the written file line by line gives back the lines written |
| TextProcessing.LemmaFileLines | hw-2/main.py:51-52 | reading a lemma file line by line gives one line per lemma, in ascending order |
| TextProcessing.TokenDirHolds | hw-2/main.py:64-68 | after the listing is processed, each page's token file holds that page's tokens, unless a later page has the same output name |
| TextProcessing.LemmaDirHolds | hw-2/main.py:64-68 | the same for the lemma files |
| TextProcessing.TokenDirKeeps | hw-2/main.py:64-68 | files that no page writes are left as they were |
| TextProcessing.TextProcessor.constructor | hw-2/main.py:10-17 | a processor holds its stop words, its lemmatiser and the two output directories |
| TextProcessing.TextProcessor.SaveTokens | hw-2/main.py:41-45 | the token file of the page is set to the sorted tokens, and nothing else changes |
| TextProcessing.TextProcessor.SaveLemmas | hw-2/main.py:47-52 | the lemma file of the page is set to its lemma lines, and nothing else changes |
| TextProcessing.TextProcessor.ProcessFile | hw-2/main.py:54-62 | a page's two files are set to its tokens and to their grouping by lemma |
| TextProcessing.TextProcessor.ProcessAllFiles | hw-2/main.py:64-68 | processing the listing leaves the directories as `TokenDir` and `LemmaDir` describe |
| Pipeline.LemmaLineRead | hw-2/main.py:52 | the builder takes the lemma back out of a lemma-file line |
| Pipeline.LemmaFileRead | hw-3/main.py:26-28 | reading a lemma file, the builder sees each lemma once, in ascending order |
| Pipeline.OutputNameId | hw-2/main.py:49 | an output name made from a page named by its id yields that id to the builder's name parser |
| Pipeline.PageLemmaFileId | hw-1/main.py:21 | the lemma file of the crawler's page `N_page.html` gives the builder page id N |
| Pipeline.OccurrencesAscending | hw-2/main.py:51 | in a sorted lemma file each lemma occurs at most once |
| Pipeline.SortedLemmasPostings | hw-3/main.py:26-30 | adding the lemmas of a file in ascending order appends the page id once per lemma |
| Pipeline.LemmaFileIndexed | hw-3/main.py:42-48 | feeding the builder the lemma file of page N appends N once to the list of every lemma of the page and changes no other list |
| PyStr.UpperStrIdempotent | hw-3/searcher.py:49 | upper-casing twice is upper-casing once |
| PyStr.JoinSplit | hw-3/main.py:45 | joining the fields of a split by the separator gives the string back |
| PyStr.SplitJoin | hw-3/main.py:45 | splitting a join of separator-free fields gives the fields back |
| PyStr.StripClean | hw-3/main.py:28 | `strip` leaves a string without surrounding white space unchanged |
| PyStr.SplitExtOf | hw-2/main.py:43 | `splitext` splits `stem.ext` into the stem and the extension |
| PyStr.ParseIntToString | hw-3/main.py:45 | `int` reads back what `str` writes |
| Sorting.SortedInts | hw-3/searcher.py:109 | `sorted` of a set of ints lists each element once, in ascending order |
| Sorting.SortedStrings | hw-2/main.py:45 | `sorted` of a set of strings lists each once, in ascending code-point order |

## Left out

- File and directory I/O:
  - reading, listing and existence checks become parameters: a `Directory` is missing or a listing of files with their lines; a page is its name and extracted text;
  - written files are maps from file name to content;
  - `os.path.join`, the directory prefixes and the encoding are not modelled.
- `get_data`'s `json.load` is not modelled: the searcher is given the loaded dictionary.
- JSON string escaping is not modelled. `SaveLayout` is stated for keys without `"`, `\` or `]`; the lemmas of Russian words contain none of these.
- The alphabet is restricted:
  - only ASCII and the Russian letters `А`–`я`, `Ё`, `ё` have case mappings and count as word characters;
  - other Unicode letters and digits are not.
- `int()` is modelled with surrounding white space, a sign and ASCII digits. Underscores within digits and non-ASCII digits are not modelled.
- The crawler (hw-1) is network I/O and is not modelled. Only the name it gives its pages is used.
- External libraries are not modelled:
  - BeautifulSoup's `get_text` is replaced by the page's text, given;
  - pymorphy3's lemmatiser is a function parameter `lemmaOf`, assumed to return clean words (`Pipeline.CleanLemma`) where the pipeline lemmas need it;
  - nltk's stop-word list is a set parameter.
- Printed messages are not modelled. The builder records the names it reports in `skipped`; the message text is left out.
- Line endings other than `\n` (universal newlines, `\r`) are not modelled.
- Python's set iteration order is left open:
  - `SetLemmas` chooses the next token arbitrarily, and its result is proved independent of that order;
  - `TokenDir` and `LemmaDir` take the listing in a given order.
- The builder's dictionary is a `defaultdict(list)`. It is modelled as the ordered keys and their lists, in insertion order, as `json.dump` writes them.
- The searcher's index is a map from word to list, as `json.load` returns it. The searcher never changes its attributes, so it is a datatype rather than a class.
- `if __name__ == "__main__"` blocks and the interactive `input` are not modelled.

## Findings

| source | as written | input that shows it | evidently intended | confidence | as-written member | corrected member |
|---|---|---|---|---|---|---|
| hw-3/searcher.py:100 | the `AND` test is an `if`, so after `NOT` pushes the complement, control falls into the final `else` and also pushes the pages of the word "NOT" | index `{"кот": [1, 2], "собака": [2, 3]}`, query `NOT кот`: returns `[]`, the pages of "NOT", instead of `[3]` | `elif`, so that `NOT` only replaces its operand by the complement | high, proved on the model; not executed | SearchExamples.SearchNotCat | PostfixEval.EvaluateEmit |

The as-written evaluator is `PostfixEval.Evaluate(AsWritten, …)`. `Search.BoolSearch.Search` uses it, and it is what the source does.

The corrected evaluator is `PostfixEval.Evaluate(Corrected, …)`. For it, `PostfixEval.EvaluateEmit` and `Search.ParenthesisedQueryMeans` prove that every fully parenthesised query returns exactly the sorted pages it denotes.

`PostfixEval.NegationEvaluated` and `Search.NegationAsWritten` show what the as-written evaluator does instead: every `NOT` query returns the pages of the word "NOT". `PostfixEval.ReadingsAgreeWithoutNot` shows that the two readings agree on queries without `NOT`.
