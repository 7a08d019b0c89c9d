/**
 * The error page of app.py (`show_errors`): known misclassified rows from the training run and
 * user feedback marked "incorrect" are merged, duplicates dropped through one shared set of keys,
 * and the newest 20 shown, ordered by timestamp string, largest first.
 *
 * The CSV rows and the feedback file's lines are inputs (reading files and parsing JSON are not
 * modelled): a CSV row is a map from column name to cell text, a feedback line a `FeedbackLine`.
 */
module ErrorView {
  import opened Text
  import opened FeedbackLog

  /** One entry of `all_errors`; the constructor stands for its `source` field. */
  datatype ErrorEntry =
    | StaticError(text: string, trueLabel: string, predLabel: string)
    | FeedbackError(text: string, trueLabel: string, predLabel: string, model: string, timestamp: string)
  {
    /** The key under which `seen` records the entry. */
    function DedupKey(): string
    {
      match this
      case StaticError(text, trueLabel, predLabel) => text + "|" + trueLabel + "|" + predLabel
      case FeedbackError(text, _, _, model, _) => text + "|" + model
    }

    /** `x.get("timestamp", "")`: static rows have no timestamp. */
    function SortKey(): string
    {
      if StaticError? then "" else timestamp
    }
  }

  /** The most entries the page shows. */
  const PageSize: nat := 20

  /** The entry for one row of the misclassified-examples CSV. */
  function StaticEntry(row: map<string, string>): (e: ErrorEntry)
    ensures e.StaticError? && e.SortKey() == ""
    ensures "true_label" !in row ==> e.trueLabel == "?"
    ensures "pred_label" !in row ==> e.predLabel == "?"
  {
    StaticError(Strip(Get(row, "text", "")), Get(row, "true_label", "?"), Get(row, "pred_label", "?"))
  }

  /** The entry for one feedback record. */
  function FeedbackEntry(rec: map<string, string>): (e: ErrorEntry)
    ensures e.FeedbackError? && e.SortKey() == (if "timestamp" in rec then rec["timestamp"] else "")
    ensures "true_label" !in rec ==> e.trueLabel == "UNKNOWN"
    ensures "predicted_label" !in rec ==> e.predLabel == "?"
    ensures e.DedupKey() == e.text + "|" + (if "model" in rec then rec["model"] else "")
  {
    FeedbackError(Strip(Get(rec, "text", "")), Get(rec, "true_label", "UNKNOWN"),
                  Get(rec, "predicted_label", "?"), Get(rec, "model", ""), Get(rec, "timestamp", ""))
  }

  /** A parsed feedback record whose verdict is "incorrect". */
  predicate IsIncorrect(line: FeedbackLine)
  {
    line.Record? && Get(line.fields, "feedback", "") == "incorrect"
  }

  /** The entries the static rows offer, in file order. */
  function StaticCandidates(rows: seq<map<string, string>>): seq<ErrorEntry>
  {
    if rows == [] then [] else [StaticEntry(rows[0])] + StaticCandidates(rows[1..])
  }

  /** Every static row offers its entry. */
  lemma StaticCandidatesCover(rows: seq<map<string, string>>)
    ensures forall i :: 0 <= i < |rows| ==> StaticEntry(rows[i]) in StaticCandidates(rows)
    ensures forall e :: e in StaticCandidates(rows) ==> exists i :: 0 <= i < |rows| && e == StaticEntry(rows[i])
  {
    StaticCandidatesHave(rows);
    StaticCandidatesFrom(rows);
  }

  lemma {:induction false} StaticCandidatesHave(rows: seq<map<string, string>>)
    ensures forall i :: 0 <= i < |rows| ==> StaticEntry(rows[i]) in StaticCandidates(rows)
  {
    if rows != [] {
      var t := rows[1..];
      StaticCandidatesHave(t);
      forall i | 1 <= i < |rows|
        ensures StaticEntry(rows[i]) in StaticCandidates(rows)
      {
        assert t[i - 1] == rows[i];
      }
    }
  }

  /** `e` is the entry of some static row. */
  ghost predicate FromRows(e: ErrorEntry, rows: seq<map<string, string>>)
  {
    exists i :: 0 <= i < |rows| && e == StaticEntry(rows[i])
  }

  lemma {:induction false} StaticCandidatesFrom(rows: seq<map<string, string>>)
    ensures forall e :: e in StaticCandidates(rows) ==> FromRows(e, rows)
  {
    if rows != [] {
      var t := rows[1..];
      StaticCandidatesFrom(t);
      forall e | e in StaticCandidates(rows)
        ensures FromRows(e, rows)
      {
        if e == StaticEntry(rows[0]) {
          assert 0 < |rows| && e == StaticEntry(rows[0]);
        } else {
          assert FromRows(e, t);
          var i :| 0 <= i < |t| && e == StaticEntry(t[i]);
          assert rows[i + 1] == t[i];
        }
      }
    }
  }

  /** The entries the feedback lines offer, newest (last) line first; other lines offer none. */
  function FeedbackCandidates(lines: seq<FeedbackLine>): seq<ErrorEntry>
  {
    if lines == [] then []
    else
      var last := lines[|lines| - 1];
      (if IsIncorrect(last) then [FeedbackEntry(last.fields)] else []) + FeedbackCandidates(lines[..|lines| - 1])
  }

  /** `e` is the entry of some feedback record marked "incorrect". */
  ghost predicate FromFeedback(e: ErrorEntry, lines: seq<FeedbackLine>)
  {
    exists i :: 0 <= i < |lines| && IsIncorrect(lines[i]) && e == FeedbackEntry(lines[i].fields)
  }

  /** Every feedback candidate comes from a record marked "incorrect". */
  lemma {:induction false} FeedbackCandidatesFrom(lines: seq<FeedbackLine>)
    ensures forall e :: e in FeedbackCandidates(lines) ==> FromFeedback(e, lines)
  {
    if lines != [] {
      var n := |lines| - 1;
      var init := lines[..n];
      FeedbackCandidatesFrom(init);
      forall e | e in FeedbackCandidates(lines)
        ensures FromFeedback(e, lines)
      {
        if e in FeedbackCandidates(init) {
          assert FromFeedback(e, init);
          var i :| 0 <= i < |init| && IsIncorrect(init[i]) && e == FeedbackEntry(init[i].fields);
          assert lines[i] == init[i];
        } else {
          assert IsIncorrect(lines[n]) && e == FeedbackEntry(lines[n].fields);
        }
      }
    }
  }

  /** Every feedback record marked "incorrect" is a candidate. */
  lemma {:induction false} FeedbackCandidatesCover(lines: seq<FeedbackLine>)
    ensures forall i :: 0 <= i < |lines| && IsIncorrect(lines[i]) ==> FeedbackEntry(lines[i].fields) in FeedbackCandidates(lines)
  {
    if lines != [] {
      var init := lines[..|lines| - 1];
      FeedbackCandidatesCover(init);
      forall i | 0 <= i < |lines| - 1 && IsIncorrect(lines[i])
        ensures FeedbackEntry(lines[i].fields) in FeedbackCandidates(lines)
      {
        assert init[i] == lines[i];
      }
    }
  }

  /** Everything offered to the page, in the order the two loops of show_errors visit it. */
  function Candidates(rows: seq<map<string, string>>, lines: seq<FeedbackLine>): seq<ErrorEntry>
  {
    StaticCandidates(rows) + FeedbackCandidates(lines)
  }

  /** The candidates whose key has not been seen before, first occurrence kept. */
  function Dedup(cands: seq<ErrorEntry>, seen: set<string>): (r: seq<ErrorEntry>)
    ensures |r| <= |cands|
    ensures forall e :: e in r ==> e in cands && e.DedupKey() !in seen
  {
    if cands == [] then []
    else if cands[0].DedupKey() in seen then Dedup(cands[1..], seen)
    else [cands[0]] + Dedup(cands[1..], seen + {cands[0].DedupKey()})
  }

  /** One step of the loop over `seen`. */
  lemma DedupCons(x: ErrorEntry, rest: seq<ErrorEntry>, seen: set<string>)
    ensures Dedup([x] + rest, seen)
         == if x.DedupKey() in seen then Dedup(rest, seen) else [x] + Dedup(rest, seen + {x.DedupKey()})
  {
    assert ([x] + rest)[1..] == rest;
  }

  /** Some entry of `s` carries key `k`. */
  ghost predicate HasKey(s: seq<ErrorEntry>, k: string)
  {
    exists e :: e in s && e.DedupKey() == k
  }

  /** One step of the loop, with the entries kept so far in front. */
  lemma DedupStep(kept: seq<ErrorEntry>, x: ErrorEntry, rest: seq<ErrorEntry>, seen: set<string>)
    ensures kept + Dedup([x] + rest, seen)
         == if x.DedupKey() in seen then kept + Dedup(rest, seen)
            else (kept + [x]) + Dedup(rest, seen + {x.DedupKey()})
  {
    DedupCons(x, rest, seen);
  }

  predicate DistinctKeys(s: seq<ErrorEntry>)
  {
    forall i, j :: 0 <= i < j < |s| ==> s[i].DedupKey() != s[j].DedupKey()
  }

  /** No two kept entries share a key, and every candidate's key is either seen or kept. */
  lemma DedupProperties(cands: seq<ErrorEntry>, seen: set<string>)
    ensures DistinctKeys(Dedup(cands, seen))
    ensures forall c :: c in cands ==> c.DedupKey() in seen || HasKey(Dedup(cands, seen), c.DedupKey())
  {
    DedupDistinct(cands, seen);
    DedupCovers(cands, seen);
  }

  lemma {:induction false} DedupDistinct(cands: seq<ErrorEntry>, seen: set<string>)
    ensures DistinctKeys(Dedup(cands, seen))
    decreases |cands|
  {
    if cands != [] {
      var k := cands[0].DedupKey();
      if k in seen {
        DedupDistinct(cands[1..], seen);
      } else {
        var t := Dedup(cands[1..], seen + {k});
        DedupDistinct(cands[1..], seen + {k});
        ConsDistinct(cands[0], t);
      }
    }
  }

  lemma {:induction false} DedupCovers(cands: seq<ErrorEntry>, seen: set<string>)
    ensures forall c :: c in cands ==> c.DedupKey() in seen || HasKey(Dedup(cands, seen), c.DedupKey())
    decreases |cands|
  {
    if cands != [] {
      var k := cands[0].DedupKey();
      if k in seen {
        DedupCovers(cands[1..], seen);
      } else {
        DedupCovers(cands[1..], seen + {k});
        var r := Dedup(cands, seen);
        assert r == [cands[0]] + Dedup(cands[1..], seen + {k});
        assert cands[0] in r;
        forall c | c in cands ensures c.DedupKey() in seen || HasKey(r, c.DedupKey()) {
          if c != cands[0] {
            assert c in cands[1..];
            if c.DedupKey() !in seen + {k} {
              var e :| e in Dedup(cands[1..], seen + {k}) && e.DedupKey() == c.DedupKey();
              assert e in r;
            }
          }
        }
      }
    }
  }

  /**
   * The first candidate carrying a key not yet seen is the one kept: with the feedback walked
   * newest first, the newest record for a `text|model` key is the one shown.
   */
  lemma {:induction false} DedupKeepsFirst(cands: seq<ErrorEntry>, seen: set<string>, i: nat)
    requires i < |cands| && cands[i].DedupKey() !in seen
    requires forall j :: 0 <= j < i ==> cands[j].DedupKey() != cands[i].DedupKey()
    ensures cands[i] in Dedup(cands, seen)
    decreases i
  {
    var k := cands[0].DedupKey();
    var rest := cands[1..];
    DedupCons(cands[0], rest, seen);
    assert cands == [cands[0]] + rest;
    if i > 0 {
      var seen' := if k in seen then seen else seen + {k};
      assert cands[i].DedupKey() != k;
      forall j | 0 <= j < i - 1
        ensures rest[j].DedupKey() != rest[i - 1].DedupKey()
      {
        assert rest[j] == cands[j + 1];
      }
      DedupKeepsFirst(rest, seen', i - 1);
    }
  }

  /** `e` is the first entry of `cands` carrying its key. */
  ghost predicate FirstOfKey(cands: seq<ErrorEntry>, e: ErrorEntry)
  {
    exists i :: 0 <= i < |cands| && cands[i] == e && forall j :: 0 <= j < i ==> cands[j].DedupKey() != e.DedupKey()
  }

  /** Putting an entry with another key in front keeps a first occurrence first. */
  lemma FirstOfKeyCons(x: ErrorEntry, rest: seq<ErrorEntry>, e: ErrorEntry)
    requires FirstOfKey(rest, e) && x.DedupKey() != e.DedupKey()
    ensures FirstOfKey([x] + rest, e)
  {
    var xr := [x] + rest;
    var i :| 0 <= i < |rest| && rest[i] == e && forall j :: 0 <= j < i ==> rest[j].DedupKey() != e.DedupKey();
    forall j | 0 <= j < i + 1
      ensures xr[j].DedupKey() != e.DedupKey()
    {
      if j > 0 {
        assert xr[j] == rest[j - 1];
      }
    }
    assert xr[i + 1] == e;
  }

  /** Conversely, every kept entry is the first candidate carrying its key. */
  lemma {:induction false} DedupOnlyFirst(cands: seq<ErrorEntry>, seen: set<string>)
    ensures forall e :: e in Dedup(cands, seen) ==> FirstOfKey(cands, e)
    decreases |cands|
  {
    if cands != [] {
      var x := cands[0];
      var rest := cands[1..];
      var seen' := if x.DedupKey() in seen then seen else seen + {x.DedupKey()};
      DedupOnlyFirst(rest, seen');
      DedupCons(x, rest, seen);
      assert cands == [x] + rest;
      forall e | e in Dedup(cands, seen)
        ensures FirstOfKey(cands, e)
      {
        if e == x {
          assert cands[0] == e;
        } else {
          assert e in Dedup(rest, seen');
          FirstOfKeyCons(x, rest, e);
        }
      }
    }
  }

  // ---------------------------------------------------------------- ordering

  /** Non-increasing timestamp strings. */
  predicate Descending(s: seq<ErrorEntry>)
  {
    forall i, j :: 0 <= i < j < |s| ==> !StrLess(s[i].SortKey(), s[j].SortKey())
  }

  /** Insert `e` before the first entry whose timestamp is not larger than its own. */
  function Insert(e: ErrorEntry, s: seq<ErrorEntry>): seq<ErrorEntry>
  {
    if s == [] || !StrLess(e.SortKey(), s[0].SortKey()) then [e] + s
    else [s[0]] + Insert(e, s[1..])
  }

  /**
   * `list.sort(key=timestamp, reverse=True)`: a stable sort, largest key first, entries with equal
   * keys in their original order.
   */
  function SortByTimestampDesc(s: seq<ErrorEntry>): seq<ErrorEntry>
  {
    if s == [] then []
    else Insert(s[0], SortByTimestampDesc(s[1..]))
  }

  lemma {:induction false} InsertPermutes(e: ErrorEntry, s: seq<ErrorEntry>)
    ensures multiset(Insert(e, s)) == multiset(s) + multiset{e}
    decreases |s|
  {
    if s != [] && StrLess(e.SortKey(), s[0].SortKey()) {
      InsertPermutes(e, s[1..]);
      assert s == [s[0]] + s[1..];
    }
  }

  lemma {:induction false} SortPermutes(s: seq<ErrorEntry>)
    ensures multiset(SortByTimestampDesc(s)) == multiset(s)
  {
    if s != [] {
      SortPermutes(s[1..]);
      InsertPermutes(s[0], SortByTimestampDesc(s[1..]));
      assert s == [s[0]] + s[1..];
    }
  }

  /** Every entry of `Insert(e, s)` is `e` or an entry of `s`. */
  lemma InsertMembers(e: ErrorEntry, s: seq<ErrorEntry>)
    ensures forall x :: x in Insert(e, s) <==> x == e || x in s
  {
    InsertPermutes(e, s);
    assert forall x :: x in Insert(e, s) <==> x in multiset(Insert(e, s));
    assert forall x :: x in s <==> x in multiset(s);
  }

  /** Putting an entry whose key is not below any key of a descending list in front keeps it descending. */
  lemma ConsDescending(x: ErrorEntry, r: seq<ErrorEntry>)
    requires Descending(r)
    requires forall j :: 0 <= j < |r| ==> !StrLess(x.SortKey(), r[j].SortKey())
    ensures Descending([x] + r)
  {
    var xr := [x] + r;
    forall i, j | 0 <= i < j < |xr|
      ensures !StrLess(xr[i].SortKey(), xr[j].SortKey())
    {
      assert xr[j] == r[j - 1];
      if i > 0 {
        assert xr[i] == r[i - 1];
      }
    }
  }

  lemma {:induction false} InsertDescending(e: ErrorEntry, s: seq<ErrorEntry>)
    requires Descending(s)
    ensures Descending(Insert(e, s))
    decreases |s|
  {
    if s == [] {
      ConsDescending(e, s);
    } else if StrLess(e.SortKey(), s[0].SortKey()) {
      var tail := s[1..];
      assert Descending(tail) by {
        forall i, j | 0 <= i < j < |tail|
          ensures !StrLess(tail[i].SortKey(), tail[j].SortKey())
        {
          assert tail[i] == s[i + 1] && tail[j] == s[j + 1];
        }
      }
      InsertDescending(e, tail);
      var r := Insert(e, tail);
      InsertMembers(e, tail);
      StrLessIrreflexive(s[0].SortKey());
      StrLessTransitive(s[0].SortKey(), e.SortKey(), s[0].SortKey());
      forall j | 0 <= j < |r|
        ensures !StrLess(s[0].SortKey(), r[j].SortKey())
      {
        assert r[j] in r;
        if r[j] != e {
          var m :| 0 <= m < |tail| && tail[m] == r[j];
          assert s[m + 1] == r[j];
        }
      }
      ConsDescending(s[0], r);
    } else {
      forall j | 0 <= j < |s|
        ensures !StrLess(e.SortKey(), s[j].SortKey())
      {
        if j > 0 {
          NotStrLessTransitive(e.SortKey(), s[0].SortKey(), s[j].SortKey());
        }
      }
      ConsDescending(e, s);
    }
  }

  /** The sort orders its input, and permutes it. */
  lemma {:induction false} SortDescending(s: seq<ErrorEntry>)
    ensures Descending(SortByTimestampDesc(s))
    ensures multiset(SortByTimestampDesc(s)) == multiset(s)
  {
    SortPermutes(s);
    if s != [] {
      SortDescending(s[1..]);
      InsertDescending(s[0], SortByTimestampDesc(s[1..]));
    }
  }

  /** The entries carrying timestamp `t`, in order. */
  function WithSortKey(s: seq<ErrorEntry>, t: string): seq<ErrorEntry>
  {
    if s == [] then []
    else (if s[0].SortKey() == t then [s[0]] else []) + WithSortKey(s[1..], t)
  }

  lemma WithSortKeyCons(x: ErrorEntry, r: seq<ErrorEntry>, t: string)
    ensures WithSortKey([x] + r, t) == (if x.SortKey() == t then [x] else []) + WithSortKey(r, t)
  {
    assert ([x] + r)[1..] == r;
  }

  lemma {:induction false} InsertStable(e: ErrorEntry, s: seq<ErrorEntry>, t: string)
    ensures WithSortKey(Insert(e, s), t) == (if e.SortKey() == t then [e] else []) + WithSortKey(s, t)
    decreases |s|
  {
    if s == [] || !StrLess(e.SortKey(), s[0].SortKey()) {
      WithSortKeyCons(e, s, t);
    } else {
      var r := Insert(e, s[1..]);
      InsertStable(e, s[1..], t);
      WithSortKeyCons(s[0], r, t);
      WithSortKeyCons(s[0], s[1..], t);
      assert s == [s[0]] + s[1..];
      StrLessIrreflexive(e.SortKey());
      assert e.SortKey() != t || s[0].SortKey() != t;
    }
  }

  /** Stability: for every timestamp, the entries carrying it keep their relative order. */
  lemma {:induction false} SortStable(s: seq<ErrorEntry>, t: string)
    ensures WithSortKey(SortByTimestampDesc(s), t) == WithSortKey(s, t)
  {
    if s != [] {
      SortStable(s[1..], t);
      InsertStable(s[0], SortByTimestampDesc(s[1..]), t);
    }
  }

  lemma ConsDistinct(x: ErrorEntry, r: seq<ErrorEntry>)
    requires DistinctKeys(r)
    requires forall y :: y in r ==> y.DedupKey() != x.DedupKey()
    ensures DistinctKeys([x] + r)
  {
    var xr := [x] + r;
    forall i, j | 0 <= i < j < |xr|
      ensures xr[i].DedupKey() != xr[j].DedupKey()
    {
      assert xr[j] == r[j - 1];
      if i > 0 {
        assert xr[i] == r[i - 1];
      }
    }
  }

  /** Inserting an entry whose key is new keeps keys distinct. */
  lemma {:induction false} InsertDistinct(e: ErrorEntry, s: seq<ErrorEntry>)
    requires DistinctKeys(s)
    requires forall x :: x in s ==> x.DedupKey() != e.DedupKey()
    ensures DistinctKeys(Insert(e, s))
    decreases |s|
  {
    if s == [] || !StrLess(e.SortKey(), s[0].SortKey()) {
      ConsDistinct(e, s);
    } else {
      var tail := s[1..];
      assert DistinctKeys(tail) by {
        forall i, j | 0 <= i < j < |tail|
          ensures tail[i].DedupKey() != tail[j].DedupKey()
        {
          assert tail[i] == s[i + 1] && tail[j] == s[j + 1];
        }
      }
      InsertDistinct(e, tail);
      var r := Insert(e, tail);
      InsertMembers(e, tail);
      forall y | y in r
        ensures y.DedupKey() != s[0].DedupKey()
      {
        if y != e {
          var m :| 0 <= m < |tail| && tail[m] == y;
          assert s[m + 1] == y;
        }
      }
      ConsDistinct(s[0], r);
    }
  }

  /** Sorting keeps keys distinct. */
  lemma {:induction false} SortDistinct(s: seq<ErrorEntry>)
    requires DistinctKeys(s)
    ensures DistinctKeys(SortByTimestampDesc(s))
  {
    if s != [] {
      var tail := s[1..];
      assert DistinctKeys(tail) by {
        forall i, j | 0 <= i < j < |tail|
          ensures tail[i].DedupKey() != tail[j].DedupKey()
        {
          assert tail[i] == s[i + 1] && tail[j] == s[j + 1];
        }
      }
      SortDistinct(tail);
      var r := SortByTimestampDesc(tail);
      SortPermutes(tail);
      forall y | y in r
        ensures y.DedupKey() != s[0].DedupKey()
      {
        assert y in multiset(r);
        var m :| 0 <= m < |tail| && tail[m] == y;
        assert s[m + 1] == y;
      }
      InsertDistinct(s[0], r);
    }
  }

  // ---------------------------------------------------------------- the page

  /** What show_errors displays. */
  function ErrorsPage(rows: seq<map<string, string>>, lines: seq<FeedbackLine>): (page: seq<ErrorEntry>)
    ensures |page| <= PageSize
  {
    var all := Dedup(Candidates(rows, lines), {});
    var sorted := SortByTimestampDesc(all);
    sorted[..if |sorted| < PageSize then |sorted| else PageSize]
  }

  /** Every entry on the page was kept by the de-duplication. */
  lemma PageFromKept(rows: seq<map<string, string>>, lines: seq<FeedbackLine>)
    ensures forall e :: e in ErrorsPage(rows, lines) ==> e in Dedup(Candidates(rows, lines), {})
  {
    var all := Dedup(Candidates(rows, lines), {});
    var sorted := SortByTimestampDesc(all);
    SortPermutes(all);
    forall e | e in ErrorsPage(rows, lines)
      ensures e in all
    {
      assert e in sorted;
      assert e in multiset(sorted);
    }
  }

  /** The page has at most 20 entries, no two with the same key, timestamps non-increasing. */
  lemma PageShape(rows: seq<map<string, string>>, lines: seq<FeedbackLine>)
    ensures |ErrorsPage(rows, lines)| <= PageSize
    ensures DistinctKeys(ErrorsPage(rows, lines))
    ensures Descending(ErrorsPage(rows, lines))
  {
    var all := Dedup(Candidates(rows, lines), {});
    var sorted := SortByTimestampDesc(all);
    DedupProperties(Candidates(rows, lines), {});
    SortDescending(all);
    SortDistinct(all);
    var page := ErrorsPage(rows, lines);
    assert page == sorted[..|page|];
  }

  /** An index below the cut of a prefix lands on the prefix. */
  lemma PrefixIndex(s: seq<ErrorEntry>, n: nat, k: nat)
    requires n <= |s| && k < |s|
    ensures k < n ==> s[k] in s[..n]
  {
    if k < n {
      assert s[..n][k] == s[k];
    }
  }

  /**
   * The page holds the newest entries: it is cut to 20 only when more are kept, and no kept entry
   * left off the page has a larger timestamp than an entry on it.
   */
  lemma PageIsNewest(rows: seq<map<string, string>>, lines: seq<FeedbackLine>)
    ensures var all := Dedup(Candidates(rows, lines), {});
      |ErrorsPage(rows, lines)| == if |all| < PageSize then |all| else PageSize
    ensures forall e, p ::
      e in Dedup(Candidates(rows, lines), {}) && e !in ErrorsPage(rows, lines) && p in ErrorsPage(rows, lines)
      ==> !StrLess(p.SortKey(), e.SortKey())
  {
    var all := Dedup(Candidates(rows, lines), {});
    var sorted := SortByTimestampDesc(all);
    var page := ErrorsPage(rows, lines);
    SortDescending(all);
    assert |sorted| == |all| by {
      assert |multiset(sorted)| == |multiset(all)|;
    }
    assert page == sorted[..|page|];
    forall e, p | e in all && e !in page && p in page
      ensures !StrLess(p.SortKey(), e.SortKey())
    {
      assert e in multiset(sorted) by {
        assert e in multiset(all);
      }
      var k :| 0 <= k < |sorted| && sorted[k] == e;
      var m :| 0 <= m < |page| && page[m] == p;
      PrefixIndex(sorted, |page|, k);
      assert sorted[m] == p;
    }
  }

  /** Each entry on the page is a static row or a feedback record marked "incorrect". */
  lemma PageOrigins(rows: seq<map<string, string>>, lines: seq<FeedbackLine>)
    ensures forall e :: e in ErrorsPage(rows, lines) && e.StaticError? ==>
      exists i :: 0 <= i < |rows| && e == StaticEntry(rows[i])
    ensures forall e :: e in ErrorsPage(rows, lines) && e.FeedbackError? ==> FromFeedback(e, lines)
  {
    PageFromKept(rows, lines);
    StaticCandidatesCover(rows);
    FeedbackCandidatesFrom(lines);
    forall e | e in ErrorsPage(rows, lines)
      ensures e in StaticCandidates(rows) || e in FeedbackCandidates(lines)
    {
      assert e in Candidates(rows, lines);
    }
  }

  /**
   * When at most 20 distinct keys are offered nothing is cut: every static row and every record
   * marked "incorrect" has its key on the page.
   */
  lemma PageComplete(rows: seq<map<string, string>>, lines: seq<FeedbackLine>)
    requires |Dedup(Candidates(rows, lines), {})| <= PageSize
    ensures forall i :: 0 <= i < |rows| ==> HasKey(ErrorsPage(rows, lines), StaticEntry(rows[i]).DedupKey())
    ensures forall i :: 0 <= i < |lines| && IsIncorrect(lines[i]) ==>
      HasKey(ErrorsPage(rows, lines), FeedbackEntry(lines[i].fields).DedupKey())
  {
    var cands := Candidates(rows, lines);
    var all := Dedup(cands, {});
    var sorted := SortByTimestampDesc(all);
    DedupProperties(cands, {});
    SortPermutes(all);
    FeedbackCandidatesCover(lines);
    assert ErrorsPage(rows, lines) == sorted;
    forall c | c in cands
      ensures HasKey(sorted, c.DedupKey())
    {
      assert HasKey(all, c.DedupKey());
      var e :| e in all && e.DedupKey() == c.DedupKey();
      assert e in multiset(sorted);
    }
    StaticCandidatesCover(rows);
  }

  lemma StaticCandidatesCons(rows: seq<map<string, string>>, i: nat, tail: seq<ErrorEntry>)
    requires i < |rows|
    ensures StaticCandidates(rows[i..]) + tail == [StaticEntry(rows[i])] + (StaticCandidates(rows[i + 1..]) + tail)
  {
    assert rows[i..][1..] == rows[i + 1..];
  }

  lemma FeedbackCandidatesSnoc(lines: seq<FeedbackLine>, j: nat)
    requires 0 < j <= |lines|
    ensures FeedbackCandidates(lines[..j])
         == (if IsIncorrect(lines[j - 1]) then [FeedbackEntry(lines[j - 1].fields)] else []) + FeedbackCandidates(lines[..j - 1])
  {
    assert lines[..j][..j - 1] == lines[..j - 1];
  }

  /**
   * The first loop of show_errors: each static row's entry is kept unless its key is already in
   * `seen`. `tail` stands for the candidates still to come.
   */
  method CollectStatic(rows: seq<map<string, string>>, ghost tail: seq<ErrorEntry>)
    returns (allErrors: seq<ErrorEntry>, seen: set<string>)
    ensures allErrors + Dedup(tail, seen) == Dedup(StaticCandidates(rows) + tail, {})
  {
    allErrors := [];
    seen := {};
    ghost var rest := StaticCandidates(rows) + tail;
    for i := 0 to |rows|
      invariant rest == StaticCandidates(rows[i..]) + tail
      invariant allErrors + Dedup(rest, seen) == Dedup(StaticCandidates(rows) + tail, {})
    {
      var entry := StaticEntry(rows[i]);
      StaticCandidatesCons(rows, i, tail);
      ghost var next := StaticCandidates(rows[i + 1..]) + tail;
      DedupStep(allErrors, entry, next, seen);
      rest := next;
      var key := entry.DedupKey();
      if key !in seen {
        seen := seen + {key};
        allErrors := allErrors + [entry];
      }
    }
    assert rest == tail by {
      assert rows[|rows|..] == [];
    }
  }

  /**
   * The second loop of show_errors: the feedback lines from last to first, each record marked
   * "incorrect" kept unless its key is already in `seen`.
   */
  method CollectFeedback(lines: seq<FeedbackLine>, allErrors0: seq<ErrorEntry>, seen0: set<string>)
    returns (allErrors: seq<ErrorEntry>, seen: set<string>)
    ensures allErrors == allErrors0 + Dedup(FeedbackCandidates(lines), seen0)
  {
    allErrors := allErrors0;
    seen := seen0;
    ghost var rest := FeedbackCandidates(lines);
    assert lines[..|lines|] == lines;
    var j := |lines|;
    while j > 0
      invariant 0 <= j <= |lines|
      invariant rest == FeedbackCandidates(lines[..j])
      invariant allErrors + Dedup(rest, seen) == allErrors0 + Dedup(FeedbackCandidates(lines), seen0)
    {
      var line := lines[j - 1];
      FeedbackCandidatesSnoc(lines, j);
      ghost var next := FeedbackCandidates(lines[..j - 1]);
      if IsIncorrect(line) {
        var entry := FeedbackEntry(line.fields);
        assert rest == [entry] + next;
        DedupStep(allErrors, entry, next, seen);
        var key := entry.DedupKey();
        if key !in seen {
          seen := seen + {key};
          allErrors := allErrors + [entry];
        }
      } else {
        assert rest == next;
      }
      rest := next;
      j := j - 1;
    }
    assert rest == [] by {
      assert lines[..0] == [];
    }
  }

  /**
   * show_errors: the static rows, then the feedback lines newest first, filling `all_errors`
   * through one shared `seen` set; then a stable sort by timestamp, largest first, cut to 20.
   */
  method ShowErrors(rows: seq<map<string, string>>, lines: seq<FeedbackLine>) returns (page: seq<ErrorEntry>)
    ensures page == ErrorsPage(rows, lines)
  {
    var allErrors, seen := CollectStatic(rows, FeedbackCandidates(lines));
    allErrors, seen := CollectFeedback(lines, allErrors, seen);
    var sorted := SortByTimestampDesc(allErrors);
    page := sorted[..if |sorted| < PageSize then |sorted| else PageSize];
  }
}
