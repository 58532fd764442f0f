/** `InvertedIndexSaver.save` of hw-3/main.py: the index is rendered as compact JSON
    with the separators `,` and `: `, and then every `],` is followed by a line break,
    so that each word's entry ends its own line. */
module IndexSaver {
  import opened Outcomes
  import opened PyStr
  import opened IndexBuilder

  // ---------------------------------------------------------------- rendering

  /** `str` of every id, in stored order. */
  function IdStrings(ids: seq<int>): (r: seq<string>)
    ensures |r| == |ids|
  {
    seq(|ids|, k requires 0 <= k < |ids| => IntToString(ids[k]))
  }

  /** A JSON array of integers with the item separator `,`. */
  function RenderArray(ids: seq<int>): string
  {
    "[" + Join(IdStrings(ids), ",") + "]"
  }

  /** One `"word": [ids]` member. Keys are written between quotes as they are, so only
      keys that need no JSON escaping are rendered faithfully. */
  function RenderEntry(word: string, ids: seq<int>): string
  {
    "\"" + word + "\": " + RenderArray(ids)
  }

  /** The members in the dictionary's key order. */
  function Entries(ix: OrderedIndex, keys: seq<string>): (r: seq<string>)
    ensures |r| == |keys|
  {
    seq(|keys|, k requires 0 <= k < |keys| => RenderEntry(keys[k], Postings(ix, keys[k])))
  }

  /** `json.dump(index, separators=(',', ': '))`. */
  function Compact(ix: OrderedIndex): string
  {
    "{" + Join(Entries(ix, ix.keys), ",") + "}"
  }

  /** `content.replace("],", "],\n")`. */
  function BreakLines(s: string): string
  {
    Replace(s, "],", "],\n")
  }

  /** The text `save` leaves in the output file. */
  function Save(ix: OrderedIndex): string
  {
    BreakLines(Compact(ix))
  }

  // ---------------------------------------------------------------- the line breaks

  /** The inserted line breaks hide nothing: the first character is kept. */
  lemma BreakLinesHead(s: string)
    requires s != []
    ensures BreakLines(s) != [] && BreakLines(s)[0] == s[0]
  {
    if 2 <= |s| && s[..2] == "]," {
      assert s[0] == s[..2][0];
    }
  }

  /** Deleting the inserted line breaks, that is replacing every `],\n` by `],`, gives
      the compact text back, whatever that text is. */
  lemma {:induction false} UnbreakLines(s: string)
    ensures Replace(BreakLines(s), "],\n", "],") == s
    decreases |s|
  {
    if s != [] {
      if 2 <= |s| && s[..2] == "]," {
        var rest := BreakLines(s[2..]);
        UnbreakLines(s[2..]);
        var t := "],\n" + rest;
        assert BreakLines(s) == t;
        assert t[..3] == "],\n" && t[3..] == rest;
        assert s == "]," + s[2..];
      } else {
        var rest := BreakLines(s[1..]);
        UnbreakLines(s[1..]);
        var t := [s[0]] + rest;
        assert BreakLines(s) == t;
        assert !(3 <= |t| && t[..3] == "],\n") by {
          if 3 <= |t| && t[..3] == "],\n" {
            assert t[..3][0] == ']' && t[..3][1] == ',';
            assert t[0] == s[0] && t[1] == rest[0];
            BreakLinesHead(s[1..]);
            assert false;
          }
        }
        assert t[1..] == rest;
        assert s == [s[0]] + s[1..];
      }
    }
  }

  /** Text without `]` is copied unchanged. */
  lemma {:induction false} BreakLinesPlain(p: string, rest: string)
    requires ']' !in p
    ensures BreakLines(p + rest) == p + BreakLines(rest)
    decreases |p|
  {
    if p != [] {
      var s := p + rest;
      assert s[0] == p[0] && s[1..] == p[1..] + rest;
      assert !(2 <= |s| && s[..2] == "],") by {
        if 2 <= |s| { assert s[..2][0] == p[0]; }
      }
      BreakLinesPlain(p[1..], rest);
      assert p == [p[0]] + p[1..];
    } else {
      assert p + rest == rest;
    }
  }

  /** A `]` followed by a `,` gets the line break. */
  lemma BreakLinesClose(rest: string)
    ensures BreakLines("]," + rest) == "],\n" + BreakLines(rest)
  {
    var s := "]," + rest;
    assert s[..2] == "]," && s[2..] == rest;
  }

  /** A `]` not followed by a `,` stays as it is. */
  lemma BreakLinesOther(rest: string)
    requires rest == [] || rest[0] != ','
    ensures BreakLines("]" + rest) == "]" + BreakLines(rest)
  {
    var s := "]" + rest;
    assert !(2 <= |s| && s[..2] == "],") by {
      if 2 <= |s| { assert s[..2][1] == s[1] == rest[0]; }
    }
    assert s[0] == ']' && s[1..] == rest;
  }

  /** The closing brace of the object is copied unchanged. */
  lemma BreakLinesBrace(t: string)
    requires t == "}"
    ensures BreakLines(t) == t
  {
    BreakLinesPlain(t, []);
    assert t + [] == t;
  }

  // ---------------------------------------------------------------- the saved layout

  /** The ids and the key contain no `]`: the only `]` of an entry is its last
      character. */
  predicate PlainKey(word: string) {
    ']' !in word && '"' !in word && '\\' !in word
  }

  lemma IdStringsPlain(ids: seq<int>)
    ensures forall k :: 0 <= k < |IdStrings(ids)| ==>
      ']' !in IdStrings(ids)[k] && ',' !in IdStrings(ids)[k]
  {
    forall k | 0 <= k < |ids| ensures ']' !in IdStrings(ids)[k] && ',' !in IdStrings(ids)[k] {
      var d := IntToString(ids[k]);
      forall i | 0 <= i < |d| ensures d[i] != ']' && d[i] != ',' {
        assert IsDigit(d[i]) || d[i] == '-';
      }
    }
  }

  lemma {:induction false} JoinPlain(parts: seq<string>, sep: string)
    requires ']' !in sep && forall k :: 0 <= k < |parts| ==> ']' !in parts[k]
    ensures ']' !in Join(parts, sep)
  {
    if |parts| > 1 {
      JoinPlain(parts[1..], sep);
    }
  }

  /** A rendered entry: its only `]` is its last character. */
  predicate Closed(e: string) {
    e != [] && e[|e| - 1] == ']' && ']' !in e[..|e| - 1]
  }

  lemma EntryClosed(word: string, ids: seq<int>)
    requires PlainKey(word)
    ensures Closed(RenderEntry(word, ids))
  {
    IdStringsPlain(ids);
    JoinPlain(IdStrings(ids), ",");
    var p := "\"" + word + "\": [" + Join(IdStrings(ids), ",");
    assert RenderEntry(word, ids) == p + "]";
  }

  /** Joined entries get a line break after every separating comma. */
  lemma {:induction false} BreakJoined(es: seq<string>, rest: string)
    requires es != [] && forall k :: 0 <= k < |es| ==> Closed(es[k])
    requires rest == [] || rest[0] != ','
    ensures BreakLines(Join(es, ",") + rest) == Join(es, ",\n") + BreakLines(rest)
    decreases |es|
  {
    var e := es[0];
    var p := e[..|e| - 1];
    assert e == p + "]";
    if |es| == 1 {
      BreakLast(p, rest);
    } else {
      BreakJoined(es[1..], rest);
      BreakNext(p, Join(es[1..], ","), Join(es[1..], ",\n"), rest);
    }
  }

  lemma BreakLast(p: string, rest: string)
    requires ']' !in p && (rest == [] || rest[0] != ',')
    ensures BreakLines(p + "]" + rest) == p + "]" + BreakLines(rest)
  {
    var close := "]";
    BreakLinesPlain(p, close + rest);
    BreakLinesOther(rest);
    AppendAssoc(p, close, rest);
    AppendAssoc(p, close, BreakLines(rest));
  }

  lemma BreakNext(p: string, tail: string, tail': string, rest: string)
    requires ']' !in p
    requires BreakLines(tail + rest) == tail' + BreakLines(rest)
    ensures BreakLines(p + "]" + "," + tail + rest) == p + "]" + ",\n" + tail' + BreakLines(rest)
  {
    var x := tail + rest;
    var cc, ccn := "],", "],\n";
    calc {
      BreakLines(p + "]" + "," + tail + rest);
      { assert p + "]" + "," + tail + rest == p + (cc + x); }
      BreakLines(p + (cc + x));
      { BreakLinesPlain(p, cc + x); }
      p + BreakLines(cc + x);
      { BreakLinesClose(x); }
      p + (ccn + (tail' + BreakLines(rest)));
      { assert p + (ccn + (tail' + BreakLines(rest))) == p + "]" + ",\n" + tail' + BreakLines(rest); }
      p + "]" + ",\n" + tail' + BreakLines(rest);
    }
  }

  /** The saved file holds one entry per word, in the dictionary's key order, each but
      the last ending its line with `],`. */
  lemma SaveLayout(ix: OrderedIndex)
    requires forall k :: 0 <= k < |ix.keys| ==> PlainKey(ix.keys[k])
    ensures Save(ix) == "{" + Join(Entries(ix, ix.keys), ",\n") + "}"
  {
    var open, brace := "{", "}";
    var es := Entries(ix, ix.keys);
    var body := Join(es, ",");
    assert Compact(ix) == open + (body + brace);
    BreakLinesPlain(open, body + brace);
    BreakLinesBrace(brace);
    if es == [] {
      assert body + brace == brace && Join(es, ",\n") == [];
    } else {
      forall k | 0 <= k < |es| ensures Closed(es[k]) {
        EntryClosed(ix.keys[k], Postings(ix, ix.keys[k]));
      }
      BreakJoined(es, brace);
    }
  }

  // ---------------------------------------------------------------- reading an array back

  /** A reader of the array body: the empty body is the empty array, otherwise every
      comma-separated field must be an integer. */
  function ReadIds(body: string): Option<seq<int>>
  {
    if body == [] then Some([]) else ReadFields(Split(body, ','))
  }

  function ReadFields(fields: seq<string>): Option<seq<int>>
    decreases |fields|
  {
    if fields == [] then Some([])
    else
      var head, tail := ParseInt(fields[0]), ReadFields(fields[1..]);
      if head.None? || tail.None? then None else Some([head.value] + tail.value)
  }

  lemma ReadFieldsCons(fields: seq<string>, x: int, xs: seq<int>)
    requires fields != [] && ParseInt(fields[0]) == Some(x) && ReadFields(fields[1..]) == Some(xs)
    ensures ReadFields(fields) == Some([x] + xs)
  {
  }

  /** Fields that each read as an integer read as the list of those integers. */
  lemma {:induction false} ReadFieldsAll(fields: seq<string>, xs: seq<int>)
    requires |fields| == |xs| && forall k :: 0 <= k < |fields| ==> ParseInt(fields[k]) == Some(xs[k])
    ensures ReadFields(fields) == Some(xs)
    decreases |fields|
  {
    if fields != [] {
      ReadFieldsAll(fields[1..], xs[1..]);
      ReadFieldsCons(fields, xs[0], xs[1..]);
      assert [xs[0]] + xs[1..] == xs;
    }
  }

  lemma ReadIdStrings(ids: seq<int>)
    ensures ReadFields(IdStrings(ids)) == Some(ids)
  {
    forall k | 0 <= k < |ids| ensures ParseInt(IdStrings(ids)[k]) == Some(ids[k]) {
      ParseIntToString(ids[k]);
    }
    ReadFieldsAll(IdStrings(ids), ids);
  }

  /** Posting lists are written in stored order, duplicates included: reading the
      array back gives exactly the stored list. */
  lemma ArrayRoundTrip(ids: seq<int>)
    ensures ReadIds(Join(IdStrings(ids), ",")) == Some(ids)
  {
    IdStringsPlain(ids);
    ReadIdStrings(ids);
    if ids != [] {
      SplitJoin(IdStrings(ids), ',');
      assert Join(IdStrings(ids), ",") != [] by {
        JoinNonEmpty(IdStrings(ids), ",");
      }
    }
  }

  lemma {:induction false} JoinNonEmpty(parts: seq<string>, sep: string)
    requires parts != [] && parts[0] != []
    ensures Join(parts, sep) != []
  {
  }
}
