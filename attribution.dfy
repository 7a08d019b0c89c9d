/**
 * The attribution engine (`get_important_words` in app.py): the top-K words of a text that
 * contribute most to a classifier's decision, each with its sentiment from the global table.
 *
 * The vectorised text, the classifier's learned weights and its probability or decision outputs
 * are inputs. numpy's `argsort` is an input too (`order`): any permutation of the feature indices
 * sorted by the ranking key, largest first, is accepted, since numpy does not fix the order of ties.
 */
module Attribution {
  import opened Wrappers
  import opened Text
  import opened WordSentiment

  /** What a classifier exposes, tested in this order by the source. */
  datatype Classifier =
    | Importances(importances: seq<real>)   // feature_importances_ (tree ensembles)
    | Coefficients(coef: seq<seq<real>>,     // coef_, one row per class or a single shared row
                   proba: Option<seq<real>>, // predict_proba(X)[0], when the model has it
                   decision: Option<seq<real>>) // decision_function(X), when it is needed
    | NoWeights

  /** The explanation returned to the caller: ranked words and their parallel sentiments. */
  datatype Attribution = Attribution(words: seq<string>, sentiments: seq<string>)

  /**
   * What a fitted scikit-learn model guarantees about the weights it exposes for `n` features: one
   * weight per feature, at least one coefficient row, a probability or decision value per class
   * row when there are several rows, and a decision function whenever the source needs one.
   */
  predicate WellFormed(clf: Classifier, n: nat)
  {
    match clf
    case Importances(imp) => |imp| == n
    case Coefficients(coef, proba, decision) =>
      && |coef| > 0 && IsMatrix(coef, n)
      && (proba.Some? ==> |proba.value| > 0 && (|coef| > 1 ==> |proba.value| == |coef|))
      && (proba.None? && |coef| > 1 ==> decision.Some? && |decision.value| == |coef|)
    case NoWeights => true
  }

  // ---------------------------------------------------------------- contributions

  /** `present * weights`, element by element. */
  function Contributions(x: seq<real>, w: seq<real>): (c: seq<real>)
    requires |x| == |w|
    ensures |c| == |x| && forall i :: 0 <= i < |x| ==> c[i] == x[i] * w[i]
  {
    seq(|x|, i requires 0 <= i < |x| => x[i] * w[i])
  }

  function Abs(v: real): (a: real)
    ensures a >= 0.0 && (a == v || a == -v)
  {
    if v < 0.0 then -v else v
  }

  /** `np.abs(contributions)`. */
  function Magnitudes(c: seq<real>): (m: seq<real>)
    ensures |m| == |c| && forall i :: 0 <= i < |c| ==> m[i] == Abs(c[i])
  {
    seq(|c|, i requires 0 <= i < |c| => Abs(c[i]))
  }

  /**
   * The class row whose coefficients explain the prediction: the only row of a single-row model;
   * otherwise the first maximum of the class probabilities when the model has `predict_proba`,
   * else the first maximum of its decision values.
   */
  function SelectedClass(clf: Classifier, n: nat): (k: nat)
    requires clf.Coefficients? && WellFormed(clf, n)
    ensures k < |clf.coef|
    ensures |clf.coef| == 1 ==> k == 0
    ensures |clf.coef| > 1 && clf.proba.Some? ==> IsFirstMax(clf.proba.value, k)
    ensures |clf.coef| > 1 && clf.proba.None? ==> IsFirstMax(clf.decision.value, k)
  {
    if clf.proba.Some? then
      var classIdx := ArgMax(clf.proba.value);
      if |clf.coef| > 1 then classIdx else 0
    else if |clf.coef| == 1 then 0
    else ArgMax(clf.decision.value)
  }

  /** The key `argsort` ranks features by: the contribution itself, or its magnitude. */
  function RankKey(x: seq<real>, clf: Classifier): (key: seq<real>)
    requires WellFormed(clf, |x|)
    ensures clf.NoWeights? ==> key == []
    ensures !clf.NoWeights? ==> |key| == |x|
  {
    match clf
    case Importances(imp) => Contributions(x, imp)
    case Coefficients(coef, _, _) => Magnitudes(Contributions(x, coef[SelectedClass(clf, |x|)]))
    case NoWeights => []
  }

  /** The contributions whose sign decides which words are kept. */
  function Scores(x: seq<real>, clf: Classifier): (c: seq<real>)
    requires WellFormed(clf, |x|) && !clf.NoWeights?
    ensures |c| == |x|
  {
    match clf
    case Importances(imp) => Contributions(x, imp)
    case Coefficients(coef, _, _) => Contributions(x, coef[SelectedClass(clf, |x|)])
  }

  // ---------------------------------------------------------------- ranking and selection

  /** The indices `idx` are in range and their keys do not increase. */
  predicate SortedBy(idx: seq<nat>, key: seq<real>)
  {
    && (forall p :: 0 <= p < |idx| ==> idx[p] < |key|)
    && (forall p, q :: 0 <= p < q < |idx| ==> key[idx[p]] >= key[idx[q]])
  }

  /** `np.argsort(key)[::-1]`: every index exactly once, largest key first. */
  predicate IsDescendingArgsort(order: seq<nat>, key: seq<real>)
  {
    && |order| == |key|
    && SortedBy(order, key)
    && (forall p, q :: 0 <= p < q < |order| ==> order[p] != order[q])
    && (forall j :: 0 <= j < |key| ==> j in order)
  }

  function Min(a: nat, b: nat): nat
  {
    if a < b then a else b
  }

  /** `order[:k]`. */
  function Top(order: seq<nat>, k: nat): (t: seq<nat>)
    ensures |t| == Min(k, |order|)
    ensures |t| <= k && t == order[..|t|]
  {
    order[..Min(k, |order|)]
  }

  /** The filter applied to a contribution: strictly positive, or merely non-zero. */
  predicate Survives(v: real, positiveOnly: bool)
  {
    if positiveOnly then v > 0.0 else v != 0.0
  }

  /** The indices of `top`, in order, whose contribution survives the filter. */
  function Survivors(top: seq<nat>, c: seq<real>, positiveOnly: bool): (r: seq<nat>)
    requires forall p :: 0 <= p < |top| ==> top[p] < |c|
    ensures |r| <= |top|
    ensures forall p :: 0 <= p < |r| ==> r[p] in top && Survives(c[r[p]], positiveOnly)
    ensures forall p :: 0 <= p < |top| && Survives(c[top[p]], positiveOnly) ==> top[p] in r
  {
    if top == [] then []
    else
      var last := top[|top| - 1];
      Survivors(top[..|top| - 1], c, positiveOnly) + (if Survives(c[last], positiveOnly) then [last] else [])
  }

  /** Appending an index ranked no higher than every index of a sorted list keeps it sorted. */
  lemma SortedSnoc(r: seq<nat>, x: nat, key: seq<real>)
    requires SortedBy(r, key) && x < |key|
    requires forall p :: 0 <= p < |r| ==> key[r[p]] >= key[x]
    ensures SortedBy(r + [x], key)
  {
    var rx := r + [x];
    forall p, q | 0 <= p < q < |rx|
      ensures key[rx[p]] >= key[rx[q]]
    {
      assert rx[p] == r[p];
    }
  }

  /** A bound every index of `top` meets is met by every survivor. */
  lemma SurvivorsAbove(top: seq<nat>, c: seq<real>, positiveOnly: bool, key: seq<real>, v: real)
    requires forall p :: 0 <= p < |top| ==> top[p] < |c| && top[p] < |key| && key[top[p]] >= v
    ensures forall p :: 0 <= p < |Survivors(top, c, positiveOnly)| ==>
      Survivors(top, c, positiveOnly)[p] < |key| && key[Survivors(top, c, positiveOnly)[p]] >= v
  {
    var r := Survivors(top, c, positiveOnly);
    forall p | 0 <= p < |r|
      ensures r[p] < |key| && key[r[p]] >= v
    {
      var p' :| 0 <= p' < |top| && top[p'] == r[p];
    }
  }

  /** Dropping the last index of a sorted list leaves it sorted, above the dropped index. */
  lemma SortedInit(top: seq<nat>, c: seq<real>, key: seq<real>)
    requires top != [] && SortedBy(top, key)
    requires forall p :: 0 <= p < |top| ==> top[p] < |c|
    ensures var init := top[..|top| - 1];
      && SortedBy(init, key)
      && (forall p :: 0 <= p < |init| ==> init[p] < |c| && init[p] < |key| && key[init[p]] >= key[top[|top| - 1]])
  {
    var init := top[..|top| - 1];
    forall p | 0 <= p < |init|
      ensures init[p] == top[p]
    {
    }
  }

  /** Filtering keeps the ranking: survivors of a sorted list are sorted by the same key. */
  lemma {:induction false} SurvivorsSorted(top: seq<nat>, c: seq<real>, positiveOnly: bool, key: seq<real>)
    requires forall p :: 0 <= p < |top| ==> top[p] < |c|
    requires SortedBy(top, key)
    ensures SortedBy(Survivors(top, c, positiveOnly), key)
  {
    if top != [] {
      var n := |top| - 1;
      var init := top[..n];
      var last := top[n];
      SortedInit(top, c, key);
      var r := Survivors(init, c, positiveOnly);
      SurvivorsSorted(init, c, positiveOnly, key);
      if Survives(c[last], positiveOnly) {
        SurvivorsAbove(init, c, positiveOnly, key, key[last]);
        SortedSnoc(r, last, key);
        assert Survivors(top, c, positiveOnly) == r + [last];
      } else {
        assert Survivors(top, c, positiveOnly) == r + [];
      }
    }
  }

  /**
   * The top-K selection is right: at most `k` indices, all surviving the filter, in ranking order,
   * and no index left out ranks above one that was kept, as long as the filter never drops an
   * index that outranks a survivor.
   */
  lemma SelectionIsTopK(order: seq<nat>, key: seq<real>, c: seq<real>, positiveOnly: bool, k: nat)
    requires IsDescendingArgsort(order, key) && |c| == |key|
    requires forall i, j :: (0 <= i < |c| && 0 <= j < |c| && Survives(c[i], positiveOnly) &&
                             !Survives(c[j], positiveOnly)) ==> key[j] <= key[i]
    ensures var idx := Survivors(Top(order, k), c, positiveOnly);
      && |idx| <= k
      && (forall p :: 0 <= p < |idx| ==> idx[p] < |c| && Survives(c[idx[p]], positiveOnly))
      && SortedBy(idx, key)
      && (forall p, j :: 0 <= p < |idx| && 0 <= j < |c| && j !in idx ==> key[j] <= key[idx[p]])
  {
    var top := Top(order, k);
    var idx := Survivors(top, c, positiveOnly);
    SurvivorsSorted(top, c, positiveOnly, key);
    forall p, j | 0 <= p < |idx| && 0 <= j < |c| && j !in idx
      ensures key[j] <= key[idx[p]]
    {
      var a :| 0 <= a < |top| && top[a] == idx[p];
      assert j in order;
      var b :| 0 <= b < |order| && order[b] == j;
      if b < |top| {
        assert top[b] == j;
        assert !Survives(c[j], positiveOnly);
      } else {
        assert order[a] == idx[p];
      }
    }
  }

  /** When every index of `top` passes the filter, the filter keeps all of them. */
  lemma {:induction false} SurvivorsAll(top: seq<nat>, c: seq<real>, positiveOnly: bool)
    requires forall p :: 0 <= p < |top| ==> top[p] < |c| && Survives(c[top[p]], positiveOnly)
    ensures Survivors(top, c, positiveOnly) == top
  {
    if top != [] {
      var init := top[..|top| - 1];
      SurvivorsAll(init, c, positiveOnly);
      assert top == init + [top[|top| - 1]];
    }
  }

  /** Position `b` of the ranking lies in its first `k` exactly when `b` is below the cut. */
  lemma TopIndex(order: seq<nat>, k: nat, b: nat)
    requires b < |order|
    ensures b < |Top(order, k)| ==> Top(order, k)[b] == order[b]
  {
  }

  /**
   * The other half of top-K: when every surviving index outranks every dropped one, a surviving
   * index is left out only because `k` indices are already kept.
   */
  lemma SelectionComplete(order: seq<nat>, key: seq<real>, c: seq<real>, positiveOnly: bool, k: nat)
    requires IsDescendingArgsort(order, key) && |c| == |key|
    requires forall i, j :: (0 <= i < |c| && 0 <= j < |c| && Survives(c[i], positiveOnly) &&
                             !Survives(c[j], positiveOnly)) ==> key[j] < key[i]
    ensures var idx := Survivors(Top(order, k), c, positiveOnly);
      forall j :: 0 <= j < |c| && Survives(c[j], positiveOnly) && j !in idx ==> |idx| == k
  {
    var top := Top(order, k);
    var idx := Survivors(top, c, positiveOnly);
    if exists j :: 0 <= j < |c| && Survives(c[j], positiveOnly) && j !in idx {
      var j :| 0 <= j < |c| && Survives(c[j], positiveOnly) && j !in idx;
      assert j in order;
      var b :| 0 <= b < |order| && order[b] == j;
      TopIndex(order, k, b);
      assert |top| <= b;
      forall p | 0 <= p < |top|
        ensures top[p] < |c| && Survives(c[top[p]], positiveOnly)
      {
        assert top[p] == order[p];
        assert key[top[p]] >= key[j];
      }
      SurvivorsAll(top, c, positiveOnly);
    }
  }

  /** The feature names at the selected indices. */
  function WordsAt(names: seq<string>, idx: seq<nat>): (words: seq<string>)
    requires forall p :: 0 <= p < |idx| ==> idx[p] < |names|
    ensures |words| == |idx| && forall p :: 0 <= p < |idx| ==> words[p] == names[idx[p]]
  {
    seq(|idx|, p requires 0 <= p < |idx| => names[idx[p]])
  }

  lemma WordsAtAppend(names: seq<string>, idx: seq<nat>, i: nat)
    requires forall p :: 0 <= p < |idx| ==> idx[p] < |names|
    requires i < |names|
    ensures WordsAt(names, idx + [i]) == WordsAt(names, idx) + [names[i]]
  {
  }

  /** Each word's entry in the global table, "neutral" for a word the table lacks. */
  function SentimentsOf(table: map<string, string>, words: seq<string>): (s: seq<string>)
    ensures |s| == |words|
    ensures forall p :: 0 <= p < |words| && words[p] !in table ==> s[p] == Neutral
    ensures forall p :: 0 <= p < |words| && words[p] in table ==> s[p] == table[words[p]]
  {
    seq(|words|, p requires 0 <= p < |words| => Get(table, words[p], Neutral))
  }

  lemma SentimentsOfAppend(table: map<string, string>, words: seq<string>, w: string)
    ensures SentimentsOf(table, words + [w]) == SentimentsOf(table, words) + [Get(table, w, Neutral)]
  {
  }

  /** When the table holds only sentiments, so does every attribution drawn from it. */
  lemma SentimentsAreSentiments(table: map<string, string>, words: seq<string>)
    requires forall w :: w in table ==> IsSentiment(table[w])
    ensures forall p :: 0 <= p < |words| ==> IsSentiment(SentimentsOf(table, words)[p])
  {
  }

  // ---------------------------------------------------------------- the two branches

  /** The indices kept by either branch: the top `k` of `order`, filtered. */
  function Selected(x: seq<real>, clf: Classifier, k: nat, order: seq<nat>): (idx: seq<nat>)
    requires WellFormed(clf, |x|) && !clf.NoWeights?
    requires IsDescendingArgsort(order, RankKey(x, clf))
    ensures forall p :: 0 <= p < |idx| ==> idx[p] < |x|
  {
    Survivors(Top(order, k), Scores(x, clf), clf.Importances?)
  }

  /**
   * Importance branch: words with strictly positive contribution, at most `k`, largest
   * contribution first, no word left out contributes more than one returned, and a positive word
   * is left out only when `k` words are returned.
   */
  lemma ImportanceSelection(x: seq<real>, clf: Classifier, k: nat, order: seq<nat>)
    requires clf.Importances? && WellFormed(clf, |x|)
    requires IsDescendingArgsort(order, RankKey(x, clf))
    ensures var idx := Selected(x, clf, k, order); var c := Contributions(x, clf.importances);
      && |idx| <= k
      && (forall p :: 0 <= p < |idx| ==> c[idx[p]] > 0.0)
      && (forall p, q :: 0 <= p < q < |idx| ==> c[idx[p]] >= c[idx[q]])
      && (forall p, j :: 0 <= p < |idx| && 0 <= j < |x| && j !in idx ==> c[j] <= c[idx[p]])
      && (forall j :: 0 <= j < |x| && c[j] > 0.0 && j !in idx ==> |idx| == k)
  {
    SelectionIsTopK(order, RankKey(x, clf), Scores(x, clf), true, k);
    SelectionComplete(order, RankKey(x, clf), Scores(x, clf), true, k);
  }

  /**
   * Coefficient branch: words with non-zero contribution, at most `k`, largest magnitude first,
   * no word left out has a larger magnitude than one returned, and a word with non-zero
   * contribution is left out only when `k` words are returned.
   */
  lemma CoefficientSelection(x: seq<real>, clf: Classifier, k: nat, order: seq<nat>)
    requires clf.Coefficients? && WellFormed(clf, |x|)
    requires IsDescendingArgsort(order, RankKey(x, clf))
    ensures var idx := Selected(x, clf, k, order);
      var c := Contributions(x, clf.coef[SelectedClass(clf, |x|)]);
      && |idx| <= k
      && (forall p :: 0 <= p < |idx| ==> c[idx[p]] != 0.0)
      && (forall p, q :: 0 <= p < q < |idx| ==> Abs(c[idx[p]]) >= Abs(c[idx[q]]))
      && (forall p, j :: 0 <= p < |idx| && 0 <= j < |x| && j !in idx ==> Abs(c[j]) <= Abs(c[idx[p]]))
      && (forall j :: 0 <= j < |x| && c[j] != 0.0 && j !in idx ==> |idx| == k)
  {
    var c := Scores(x, clf);
    var key := RankKey(x, clf);
    assert key == Magnitudes(c);
    SelectionIsTopK(order, key, c, false, k);
    SelectionComplete(order, key, c, false, k);
  }

  /** The importance branch, a comprehension and two slices in the source. */
  function ImportanceAttribution(x: seq<real>, clf: Classifier, names: seq<string>,
                                 table: map<string, string>, k: nat, order: seq<nat>): (a: Attribution)
    requires clf.Importances? && |x| == |names| && WellFormed(clf, |x|)
    requires IsDescendingArgsort(order, RankKey(x, clf))
    ensures a.words == WordsAt(names, Selected(x, clf, k, order))
    ensures a.sentiments == SentimentsOf(table, a.words)
    ensures |a.words| <= k
  {
    var words := WordsAt(names, Selected(x, clf, k, order));
    var sents := SentimentsOf(table, words);
    Attribution(words[..Min(k, |words|)], sents[..Min(k, |sents|)])
  }

  /**
   * The loop of the coefficient branch: walk the ranked indices, skip a zero contribution, and
   * append the word and its table sentiment otherwise.
   */
  method CollectNonZero(top: seq<nat>, contributions: seq<real>, names: seq<string>,
                        table: map<string, string>)
    returns (words: seq<string>, sentiments: seq<string>)
    requires |contributions| == |names|
    requires forall p :: 0 <= p < |top| ==> top[p] < |names|
    ensures words == WordsAt(names, Survivors(top, contributions, false))
    ensures sentiments == SentimentsOf(table, words)
  {
    words, sentiments := [], [];
    ghost var kept: seq<nat> := [];
    for p := 0 to |top|
      invariant kept == Survivors(top[..p], contributions, false)
      invariant forall q :: 0 <= q < |kept| ==> kept[q] < |names|
      invariant words == WordsAt(names, kept)
      invariant sentiments == SentimentsOf(table, words)
    {
      assert top[..p + 1][..p] == top[..p];
      var i := top[p];
      if contributions[i] == 0.0 {
        continue;
      }
      var word := names[i];
      WordsAtAppend(names, kept, i);
      SentimentsOfAppend(table, words, word);
      kept := kept + [i];
      words := words + [word];
      sentiments := sentiments + [Get(table, word, Neutral)];
    }
    assert top[..|top|] == top;
  }

  /** The coefficient branch: contributions against the selected class row, then the loop. */
  method CoefficientAttribution(x: seq<real>, clf: Classifier, names: seq<string>,
                                table: map<string, string>, k: nat, order: seq<nat>)
    returns (a: Attribution)
    requires clf.Coefficients? && |x| == |names| && WellFormed(clf, |x|)
    requires IsDescendingArgsort(order, RankKey(x, clf))
    ensures a.words == WordsAt(names, Selected(x, clf, k, order))
    ensures a.sentiments == SentimentsOf(table, a.words)
  {
    var contributions := Contributions(x, clf.coef[SelectedClass(clf, |x|)]);
    var words, sentiments := CollectNonZero(Top(order, k), contributions, names, table);
    a := Attribution(words, sentiments);
  }

  /**
   * get_important_words: dispatch on what the classifier exposes. Always two parallel lists of at
   * most `k` entries; a classifier with neither importances nor coefficients gives two empty lists.
   */
  method GetImportantWords(x: seq<real>, clf: Classifier, names: seq<string>,
                           table: map<string, string>, k: nat, order: seq<nat>)
    returns (a: Attribution)
    requires |x| == |names| && WellFormed(clf, |x|)
    requires clf.NoWeights? || IsDescendingArgsort(order, RankKey(x, clf))
    ensures |a.words| <= k && |a.sentiments| == |a.words|
    ensures clf.NoWeights? ==> a == Attribution([], [])
    ensures !clf.NoWeights? ==> a.words == WordsAt(names, Selected(x, clf, k, order))
    ensures a.sentiments == SentimentsOf(table, a.words)
  {
    match clf
    case Importances(_) =>
      a := ImportanceAttribution(x, clf, names, table, k, order);
    case Coefficients(_, _, _) =>
      a := CoefficientAttribution(x, clf, names, table, k, order);
      assert |Selected(x, clf, k, order)| <= k;
    case NoWeights =>
      a := Attribution([], []);
  }
}
