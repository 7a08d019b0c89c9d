/**
 * The text clean-up of the training script (`preprocess`): strip the string, then replace every
 * run of whitespace by one blank. Python's `\s` in a `str` pattern and `str.strip()` both use the
 * `isspace` set, modelled once as `Text.IsSpace`.
 */
module Preprocess {
  import opened Text

  /** `re.sub(r"\s+", " ", s)`: each maximal whitespace run becomes one blank. */
  function Collapse(s: string): (r: string)
    ensures |r| <= |s| && (r == [] <==> s == [])
    decreases |s|
  {
    if s == [] then []
    else if IsSpace(s[0]) then [' '] + Collapse(TrimLeft(s[1..]))
    else [s[0]] + Collapse(s[1..])
  }

  /** `preprocess(text)` for a text that is already a string. */
  function Preprocess(t: string): (r: string)
    ensures |r| <= |t|
    ensures Collapsed(t) && NoEdgeSpace(t) ==> r == t
  {
    var r := Collapse(Strip(t));
    assert Collapsed(t) && NoEdgeSpace(t) ==> r == t by {
      if Collapsed(t) && NoEdgeSpace(t) {
        assert TrimLeft(t) == t;
        CollapseFixed(t);
      }
    }
    r
  }

  /** Every whitespace character is a blank, and no two whitespace characters are adjacent. */
  predicate Collapsed(r: string)
  {
    forall i :: 0 <= i < |r| && IsSpace(r[i]) ==> r[i] == ' ' && (i + 1 < |r| ==> !IsSpace(r[i + 1]))
  }

  predicate NoEdgeSpace(r: string)
  {
    r == [] || (!IsSpace(r[0]) && !IsSpace(r[|r| - 1]))
  }

  /** The non-whitespace characters of `s`, in order. */
  function NonSpace(s: string): string
  {
    if s == [] then [] else (if IsSpace(s[0]) then [] else [s[0]]) + NonSpace(s[1..])
  }

  lemma {:induction false} NonSpaceAppend(a: string, b: string)
    ensures NonSpace(a + b) == NonSpace(a) + NonSpace(b)
    decreases |a|
  {
    if a == [] {
      assert a + b == b;
    } else {
      NonSpaceAppend(a[1..], b);
      var h := if IsSpace(a[0]) then [] else [a[0]];
      assert (a + b)[0] == a[0];
      assert (a + b)[1..] == a[1..] + b;
      assert NonSpace(a + b) == h + NonSpace(a[1..] + b);
      assert NonSpace(a) == h + NonSpace(a[1..]);
      assert h + (NonSpace(a[1..]) + NonSpace(b)) == (h + NonSpace(a[1..])) + NonSpace(b);
    }
  }

  lemma {:induction false} NonSpaceOfSpaces(a: string)
    requires AllSpace(a)
    ensures NonSpace(a) == []
    decreases |a|
  {
    if a != [] {
      NonSpaceOfSpaces(a[1..]);
    }
  }

  /** Dropping leading whitespace drops no other character. */
  lemma NonSpaceTrimLeft(s: string)
    ensures NonSpace(TrimLeft(s)) == NonSpace(s)
  {
    TrimLeftSpec(s);
    var k := |s| - |TrimLeft(s)|;
    assert s == s[..k] + TrimLeft(s);
    NonSpaceAppend(s[..k], TrimLeft(s));
    NonSpaceOfSpaces(s[..k]);
  }

  /** The first character of the result stands for the first of the input; an empty input alone gives an empty result. */
  lemma CollapseHead(s: string)
    ensures Collapse(s) == [] <==> s == []
    ensures s != [] ==> Collapse(s)[0] == if IsSpace(s[0]) then ' ' else s[0]
  {
  }

  /** An input ending in a non-space character yields an output ending in that character. */
  lemma {:induction false} CollapseLast(s: string)
    requires s != [] && !IsSpace(s[|s| - 1])
    ensures Collapse(s) != [] && Collapse(s)[|Collapse(s)| - 1] == s[|s| - 1]
    decreases |s|
  {
    if IsSpace(s[0]) {
      var t := s[1..];
      var u := TrimLeft(t);
      assert t[|t| - 1] == s[|s| - 1];
      TrimLeftKeepsLast(t);
      CollapseLast(u);
    } else if |s| > 1 {
      CollapseLast(s[1..]);
    }
  }

  /** Leading whitespace in front of a non-space last character is dropped without reaching it. */
  lemma {:induction false} TrimLeftKeepsLast(t: string)
    requires t != [] && !IsSpace(t[|t| - 1])
    ensures TrimLeft(t) != [] && TrimLeft(t)[|TrimLeft(t)| - 1] == t[|t| - 1]
    decreases |t|
  {
    if IsSpace(t[0]) {
      TrimLeftKeepsLast(t[1..]);
    }
  }

  /** The result of `re.sub(r"\s+", " ", s)` has single blanks only. */
  lemma {:induction false} CollapseCollapsed(s: string)
    ensures Collapsed(Collapse(s))
    decreases |s|
  {
    if s != [] {
      var rest := if IsSpace(s[0]) then TrimLeft(s[1..]) else s[1..];
      CollapseCollapsed(rest);
      var c := Collapse(rest);
      var r := Collapse(s);
      assert r == [if IsSpace(s[0]) then ' ' else s[0]] + c;
      CollapseHead(rest);
      if IsSpace(s[0]) {
        TrimLeftSpec(s[1..]);
        assert c == [] || !IsSpace(c[0]);
      }
      forall i | 0 <= i < |r| && IsSpace(r[i])
        ensures r[i] == ' ' && (i + 1 < |r| ==> !IsSpace(r[i + 1]))
      {
        if i > 0 {
          assert r[i] == c[i - 1];
        }
        if i + 1 < |r| {
          assert r[i + 1] == c[i];
        }
      }
    }
  }

  /** `re.sub(r"\s+", " ", s)` keeps every non-whitespace character, in order. */
  lemma {:induction false} CollapseKeepsText(s: string)
    ensures NonSpace(Collapse(s)) == NonSpace(s)
    decreases |s|
  {
    if s != [] {
      if IsSpace(s[0]) {
        CollapseKeepsText(TrimLeft(s[1..]));
        NonSpaceTrimLeft(s[1..]);
        assert NonSpace([' '] + Collapse(TrimLeft(s[1..])))
            == NonSpace(Collapse(TrimLeft(s[1..])));
      } else {
        CollapseKeepsText(s[1..]);
        assert NonSpace([s[0]] + Collapse(s[1..])) == [s[0]] + NonSpace(Collapse(s[1..]));
      }
    }
  }

  /** Dropping trailing whitespace drops no other character. */
  lemma NonSpaceTrimRight(s: string)
    ensures NonSpace(TrimRight(s)) == NonSpace(s)
  {
    TrimRightSpec(s);
    var k := |TrimRight(s)|;
    assert s == TrimRight(s) + s[k..];
    NonSpaceAppend(TrimRight(s), s[k..]);
    NonSpaceOfSpaces(s[k..]);
  }

  /** `strip` drops whitespace only. */
  lemma NonSpaceStrip(s: string)
    ensures NonSpace(Strip(s)) == NonSpace(s)
  {
    NonSpaceTrimLeft(s);
    NonSpaceTrimRight(TrimLeft(s));
  }

  /**
   * `preprocess` leaves no whitespace at either end, only single blanks inside, and every
   * non-whitespace character of the input in its original order.
   */
  lemma PreprocessShape(t: string)
    ensures NoEdgeSpace(Preprocess(t))
    ensures Collapsed(Preprocess(t))
    ensures NonSpace(Preprocess(t)) == NonSpace(t)
  {
    var s := Strip(t);
    StripSpec(t);
    CollapseCollapsed(s);
    CollapseHead(s);
    if s != [] {
      CollapseLast(s);
    }
    CollapseKeepsText(s);
    NonSpaceStrip(t);
  }

  /** A string with single blanks only is left alone by the collapse. */
  lemma {:induction false} CollapseFixed(r: string)
    requires Collapsed(r)
    ensures Collapse(r) == r
    decreases |r|
  {
    if r != [] {
      assert Collapsed(r[1..]) by {
        forall i | 0 <= i < |r[1..]| && IsSpace(r[1..][i])
          ensures r[1..][i] == ' ' && (i + 1 < |r[1..]| ==> !IsSpace(r[1..][i + 1]))
        {
          assert r[1..][i] == r[i + 1];
        }
      }
      CollapseFixed(r[1..]);
      if IsSpace(r[0]) {
        assert r[1..] == [] || !IsSpace(r[1]);
        assert TrimLeft(r[1..]) == r[1..];
      }
    }
  }

  /** `preprocess` is idempotent. */
  lemma PreprocessIdempotent(t: string)
    ensures Preprocess(Preprocess(t)) == Preprocess(t)
  {
    var r := Preprocess(t);
    PreprocessShape(t);
    assert TrimLeft(r) == r;
    assert TrimRight(r) == r;
    CollapseFixed(r);
  }

  // ---------------------------------------------------------------- reference: " ".join(t.split())

  /** The longest prefix of `s` without whitespace. */
  function TakeWord(s: string): (w: string)
    ensures |w| <= |s| && w == s[..|w|]
    ensures s != [] && !IsSpace(s[0]) ==> w != []
  {
    if s == [] || IsSpace(s[0]) then [] else [s[0]] + TakeWord(s[1..])
  }

  /** `s.split()` with no separator: the maximal runs of non-whitespace characters. */
  function Words(s: string): seq<string>
    decreases |s|
  {
    if s == [] then []
    else if IsSpace(s[0]) then Words(s[1..])
    else var w := TakeWord(s); [w] + Words(s[|w|..])
  }

  /** `" ".join(ws)`. */
  function Join(ws: seq<string>): string
  {
    if ws == [] then [] else if |ws| == 1 then ws[0] else ws[0] + " " + Join(ws[1..])
  }

  /** The word stops at the first whitespace character, and holds none. */
  lemma {:induction false} TakeWordSpec(s: string)
    ensures |TakeWord(s)| < |s| ==> IsSpace(s[|TakeWord(s)|])
    ensures NoSpace(TakeWord(s))
    decreases |s|
  {
    if s != [] && !IsSpace(s[0]) {
      TakeWordSpec(s[1..]);
    }
  }

  lemma {:induction false} TakeWordAppend(a: string, b: string)
    requires b == [] || IsSpace(b[0])
    ensures TakeWord(a + b) == TakeWord(a)
    decreases |a|
  {
    if a == [] {
      assert a + b == b;
    } else {
      assert (a + b)[0] == a[0];
      if !IsSpace(a[0]) {
        assert (a + b)[1..] == a[1..] + b;
        TakeWordAppend(a[1..], b);
      }
    }
  }

  lemma {:induction false} WordsOfSpaces(b: string)
    requires AllSpace(b)
    ensures Words(b) == []
    decreases |b|
  {
    if b != [] {
      WordsOfSpaces(b[1..]);
    }
  }

  /** Trailing whitespace adds no word. */
  lemma {:induction false} WordsAppendSpaces(a: string, b: string)
    requires AllSpace(b)
    ensures Words(a + b) == Words(a)
    decreases |a|
  {
    if a == [] {
      assert a + b == b;
      WordsOfSpaces(b);
    } else {
      assert (a + b)[0] == a[0];
      if IsSpace(a[0]) {
        assert (a + b)[1..] == a[1..] + b;
        WordsAppendSpaces(a[1..], b);
      } else {
        TakeWordAppend(a, b);
        var k := |TakeWord(a)|;
        assert (a + b)[k..] == a[k..] + b;
        WordsAppendSpaces(a[k..], b);
      }
    }
  }

  /** Leading whitespace adds no word. */
  lemma {:induction false} WordsTrimLeft(s: string)
    ensures Words(TrimLeft(s)) == Words(s)
    decreases |s|
  {
    if s != [] && IsSpace(s[0]) {
      WordsTrimLeft(s[1..]);
    }
  }

  /** `strip` changes no word. */
  lemma WordsStrip(t: string)
    ensures Words(Strip(t)) == Words(t)
  {
    var l := TrimLeft(t);
    WordsTrimLeft(t);
    TrimRightSpec(l);
    var k := |TrimRight(l)|;
    assert l == TrimRight(l) + l[k..];
    WordsAppendSpaces(TrimRight(l), l[k..]);
  }

  /** The collapse copies a leading word unchanged. */
  lemma {:induction false} CollapseWord(s: string)
    ensures Collapse(s) == TakeWord(s) + Collapse(s[|TakeWord(s)|..])
    decreases |s|
  {
    if s != [] && !IsSpace(s[0]) {
      CollapseWord(s[1..]);
      var k := |TakeWord(s[1..])|;
      assert s[1..][k..] == s[k + 1..];
    }
  }

  /**
   * For a string not starting with whitespace, the collapse is the words joined by single blanks,
   * followed by one blank when the string ends in whitespace.
   */
  lemma {:induction false} CollapseIsJoin(s: string)
    requires s == [] || !IsSpace(s[0])
    ensures Collapse(s) == Join(Words(s)) + (if s != [] && IsSpace(s[|s| - 1]) then " " else "")
    decreases |s|, 1
  {
    if s != [] {
      var w := TakeWord(s);
      CollapseWord(s);
      TakeWordSpec(s);
      assert Words(s) == [w] + Words(s[|w|..]);
      if s[|w|..] == [] {
        CollapseRestEmpty(s, w);
      } else {
        CollapseIsJoinAfterWord(s, w);
      }
    }
  }

  /** The case of `CollapseIsJoin` where whitespace follows the first word. */
  lemma {:induction false} CollapseIsJoinAfterWord(s: string, w: string)
    requires s != [] && !IsSpace(s[0]) && w == TakeWord(s) && |w| < |s|
    requires Collapse(s) == w + Collapse(s[|w|..]) && Words(s) == [w] + Words(s[|w|..])
    ensures Collapse(s) == Join(Words(s)) + (if IsSpace(s[|s| - 1]) then " " else "")
    decreases |s|, 0
  {
    var rest := s[|w|..];
    var v := TrimLeft(rest[1..]);
    var tail := if IsSpace(s[|s| - 1]) then " " else "";
    assert IsSpace(rest[0]) by { TakeWordSpec(s); }
    assert Collapse(s) == w + (" " + Collapse(v)) by {
      assert Collapse(rest) == " " + Collapse(v);
    }
    assert Words(s) == [w] + Words(v) by {
      WordsTrimLeft(rest);
      assert TrimLeft(rest) == v;
    }
    assert v == [] || !IsSpace(v[0]) by { TrimLeftSpec(rest[1..]); }
    assert IsSpace(s[|s| - 1]) <==> v == [] || IsSpace(v[|v| - 1]) by {
      assert s[|s| - 1] == rest[|rest| - 1];
      TrailingSpaceOfRest(rest);
    }
    if v != [] {
      CollapseIsJoin(v);
      assert Words(v) != [] by { assert Words(v) == [TakeWord(v)] + Words(v[|TakeWord(v)|..]); }
      calc {
        Collapse(s);
        w + (" " + (Join(Words(v)) + tail));
        { ConcatAssoc(w, Join(Words(v)), tail); }
        (w + " " + Join(Words(v))) + tail;
        { JoinCons(w, Words(v)); }
        Join(Words(s)) + tail;
      }
    }
  }

  lemma SuffixLast(s: string, k: nat)
    requires k < |s|
    ensures s[k..][|s| - k - 1] == s[|s| - 1]
  {
  }

  lemma ConcatAssoc(w: string, j: string, m: string)
    ensures w + (" " + (j + m)) == (w + " " + j) + m
  {
  }

  lemma CollapseRestEmpty(s: string, w: string)
    requires s != [] && w == TakeWord(s) && s[|w|..] == []
    ensures Collapse(s) == w && Words(s) == [w] && !IsSpace(s[|s| - 1])
  {
    CollapseWord(s);
    TakeWordSpec(s);
    assert s == w;
  }

  /** After a leading blank, the string ends in whitespace iff the trimmed rest is empty or does. */
  lemma TrailingSpaceOfRest(rest: string)
    requires rest != [] && IsSpace(rest[0])
    ensures var v := TrimLeft(rest[1..]); IsSpace(rest[|rest| - 1]) <==> v == [] || IsSpace(v[|v| - 1])
  {
    var v := TrimLeft(rest[1..]);
    if v == [] {
      LastOfTrimmedAway(rest);
    } else {
      TrimLeftSpec(rest[1..]);
      SuffixLast(rest[1..], |rest[1..]| - |v|);
    }
  }

  /** When the whole tail after a leading blank is whitespace, the string ends in whitespace. */
  lemma LastOfTrimmedAway(rest: string)
    requires rest != [] && IsSpace(rest[0]) && TrimLeft(rest[1..]) == []
    ensures IsSpace(rest[|rest| - 1])
  {
    TrimLeftSpec(rest[1..]);
    if |rest| > 1 {
      assert rest[1..][..|rest| - 1] == rest[1..];
      assert rest[|rest| - 1] == rest[1..][|rest| - 2];
    }
  }

  lemma JoinCons(w: string, ws: seq<string>)
    requires ws != []
    ensures Join([w] + ws) == w + " " + Join(ws)
  {
    assert ([w] + ws)[1..] == ws;
  }

  /** `preprocess(t)` is `" ".join(t.split())`. */
  lemma PreprocessIsJoinOfWords(t: string)
    ensures Preprocess(t) == Join(Words(t))
  {
    StripSpec(t);
    CollapseIsJoin(Strip(t));
    WordsStrip(t);
  }
}
