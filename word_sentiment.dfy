/**
 * The global word-sentiment table (`get_global_word_sentiment` in app.py), built once from the
 * primary logistic-regression model: each vocabulary column takes the sentiment of the class row
 * holding its largest coefficient.
 */
module WordSentiment {
  import opened Text
  import opened Labels

  const Positive: string := "positive"
  const Negative: string := "negative"
  const Neutral: string := "neutral"

  /** The three values a word's sentiment can take. */
  predicate IsSentiment(v: string)
  {
    v == Positive || v == Negative || v == Neutral
  }

  /** Lower-case class names read as positive or negative when the table is built. */
  const PositiveClassNames: seq<string> := ["positive", "pos", "ดี"]
  const NegativeClassNames: seq<string> := ["negative", "neg", "แย่", "ห่วย"]

  /** The sentiment of one class of the classifier, from its name; unrecognised names are neutral. */
  function ClassSentiment(cls: Label): (v: string)
    ensures IsSentiment(v)
    ensures v == Positive <==> Lower(LabelText(cls)) in PositiveClassNames
    ensures v == Negative <==> Lower(LabelText(cls)) in NegativeClassNames && Lower(LabelText(cls)) !in PositiveClassNames
  {
    var c := Lower(LabelText(cls));
    if c in PositiveClassNames then Positive
    else if c in NegativeClassNames then Negative
    else Neutral
  }

  /** `k` is the position numpy's `argmax` reports: a maximum, and the first one. */
  predicate IsFirstMax(xs: seq<real>, k: nat)
  {
    && k < |xs|
    && (forall j :: 0 <= j < |xs| ==> xs[j] <= xs[k])
    && (forall j :: 0 <= j < k ==> xs[j] < xs[k])
  }

  /** There is only one first maximum. */
  lemma FirstMaxUnique(xs: seq<real>, k1: nat, k2: nat)
    requires IsFirstMax(xs, k1) && IsFirstMax(xs, k2)
    ensures k1 == k2
  {
    assert xs[k1] == xs[k2];
  }

  /** numpy's `argmax` of a non-empty vector. */
  function ArgMax(xs: seq<real>): (k: nat)
    requires |xs| > 0
    ensures IsFirstMax(xs, k)
  {
    if |xs| == 1 then 0
    else
      var k := ArgMax(xs[..|xs| - 1]);
      if xs[|xs| - 1] > xs[k] then |xs| - 1 else k
  }

  /** Every row of `m` has `cols` entries. */
  predicate IsMatrix(m: seq<seq<real>>, cols: nat)
  {
    forall r :: 0 <= r < |m| ==> |m[r]| == cols
  }

  /** `m[:, i]`: column `i` of a matrix. */
  function Column(m: seq<seq<real>>, cols: nat, i: nat): (c: seq<real>)
    requires IsMatrix(m, cols) && i < cols
    ensures |c| == |m| && forall r :: 0 <= r < |m| ==> c[r] == m[r][i]
  {
    seq(|m|, r requires 0 <= r < |m| => m[r][i])
  }

  /** `int(np.argmax(coefs[:, i]))`: the class row that owns vocabulary column `i`. */
  function OwningClass(coefs: seq<seq<real>>, cols: nat, i: nat): (k: nat)
    requires |coefs| > 0 && IsMatrix(coefs, cols) && i < cols
    ensures k < |coefs| && IsFirstMax(Column(coefs, cols, i), k)
  {
    ArgMax(Column(coefs, cols, i))
  }

  /**
   * The sentiment recorded for vocabulary column `i`: that of the class whose coefficient is the
   * first maximum of the column, neutral when that row index has no class (only possible when
   * `coef_` has more rows than `classes_`).
   */
  function ColumnSentiment(classes: seq<Label>, coefs: seq<seq<real>>, cols: nat, i: nat): (v: string)
    requires |coefs| > 0 && IsMatrix(coefs, cols) && i < cols
    ensures IsSentiment(v)
    ensures |coefs| <= |classes| ==> v == ClassSentiment(classes[OwningClass(coefs, cols, i)])
  {
    var k := OwningClass(coefs, cols, i);
    if k < |classes| then ClassSentiment(classes[k]) else Neutral
  }

  /** The column sentiment is the sentiment of whichever class is the column's first maximum. */
  lemma ColumnSentimentOfFirstMax(classes: seq<Label>, coefs: seq<seq<real>>, cols: nat, i: nat, k: nat)
    requires |coefs| > 0 && IsMatrix(coefs, cols) && i < cols
    requires IsFirstMax(Column(coefs, cols, i), k)
    ensures k < |classes| ==> ColumnSentiment(classes, coefs, cols, i) == ClassSentiment(classes[k])
    ensures k >= |classes| ==> ColumnSentiment(classes, coefs, cols, i) == Neutral
    ensures IsSentiment(ColumnSentiment(classes, coefs, cols, i))
  {
    FirstMaxUnique(Column(coefs, cols, i), k, OwningClass(coefs, cols, i));
  }

  /**
   * A binary logistic regression has one coefficient row for its two classes, so every column's
   * arg-max is row 0 and every word gets the sentiment of the first class, whatever its sign.
   */
  lemma OneRowModelUsesFirstClass(classes: seq<Label>, coefs: seq<seq<real>>, cols: nat, i: nat)
    requires |coefs| == 1 && |classes| >= 1 && IsMatrix(coefs, cols) && i < cols
    ensures ColumnSentiment(classes, coefs, cols, i) == ClassSentiment(classes[0])
  {
    assert OwningClass(coefs, cols, i) == 0;
  }

  /** Reading the class-index table built by the first loop gives the column's sentiment. */
  lemma SentimentFromClassIndex(idxToSentiment: map<nat, string>, classes: seq<Label>,
                                coefs: seq<seq<real>>, cols: nat, i: nat)
    requires |coefs| > 0 && IsMatrix(coefs, cols) && i < cols
    requires forall j: nat :: j in idxToSentiment <==> j < |classes|
    requires forall j :: 0 <= j < |classes| ==> idxToSentiment[j] == ClassSentiment(classes[j])
    ensures var k := OwningClass(coefs, cols, i);
      (if k in idxToSentiment then idxToSentiment[k] else Neutral) == ColumnSentiment(classes, coefs, cols, i)
  {
  }

  /** No column after `i` and before `end` carries the same word as column `i`. */
  predicate IsLastBefore(names: seq<string>, i: nat, end: nat)
    requires i < end <= |names|
  {
    forall l :: i < l < end ==> names[l] != names[i]
  }

  /** Every word seen in the first `done` columns has the sentiment of its last column so far. */
  ghost predicate TableAgrees(table: map<string, string>, classes: seq<Label>, coefs: seq<seq<real>>,
                              names: seq<string>, done: nat)
    requires |coefs| > 0 && IsMatrix(coefs, |names|) && done <= |names|
  {
    forall j :: 0 <= j < done && IsLastBefore(names, j, done) ==>
      names[j] in table && table[names[j]] == ColumnSentiment(classes, coefs, |names|, j)
  }

  /** Recording column `done` keeps the agreement one column further on. */
  lemma TableAgreesStep(table: map<string, string>, classes: seq<Label>, coefs: seq<seq<real>>,
                        names: seq<string>, done: nat)
    requires |coefs| > 0 && IsMatrix(coefs, |names|) && done < |names|
    requires TableAgrees(table, classes, coefs, names, done)
    ensures TableAgrees(table[names[done] := ColumnSentiment(classes, coefs, |names|, done)],
                        classes, coefs, names, done + 1)
  {
    var t := table[names[done] := ColumnSentiment(classes, coefs, |names|, done)];
    forall j | 0 <= j < done + 1 && IsLastBefore(names, j, done + 1)
      ensures names[j] in t && t[names[j]] == ColumnSentiment(classes, coefs, |names|, j)
    {
      if j < done {
        assert names[j] != names[done];
        assert IsLastBefore(names, j, done);
      }
    }
  }

  /** The first loop of get_global_word_sentiment: the sentiment of each class index. */
  method ClassSentimentIndex(classes: seq<Label>) returns (idxToSentiment: map<nat, string>)
    ensures forall j: nat :: j in idxToSentiment <==> j < |classes|
    ensures forall j :: 0 <= j < |classes| ==> idxToSentiment[j] == ClassSentiment(classes[j])
  {
    idxToSentiment := map[];
    var i := 0;
    while i < |classes|
      invariant i <= |classes|
      invariant forall j: nat :: j in idxToSentiment <==> j < i
      invariant forall j :: 0 <= j < i ==> idxToSentiment[j] == ClassSentiment(classes[j])
    {
      idxToSentiment := idxToSentiment[i := ClassSentiment(classes[i])];
      i := i + 1;
    }
  }

  /**
   * get_global_word_sentiment: one entry per vocabulary word; a word's value comes from its
   * last column, and every value is one of the three sentiments.
   */
  method BuildWordSentiment(classes: seq<Label>, coefs: seq<seq<real>>, names: seq<string>)
    returns (table: map<string, string>)
    requires |coefs| > 0 && IsMatrix(coefs, |names|)
    ensures forall w :: w in table <==> w in names
    ensures TableAgrees(table, classes, coefs, names, |names|)
    ensures forall w :: w in table ==> IsSentiment(table[w])
  {
    var idxToSentiment := ClassSentimentIndex(classes);
    table := map[];
    var i := 0;
    while i < |names|
      invariant i <= |names|
      invariant forall j :: 0 <= j < i ==> names[j] in table
      invariant forall w :: w in table ==> w in names
      invariant TableAgrees(table, classes, coefs, names, i)
      invariant forall w :: w in table ==> IsSentiment(table[w])
    {
      var classIdx := OwningClass(coefs, |names|, i);
      var sentiment := if classIdx in idxToSentiment then idxToSentiment[classIdx] else Neutral;
      SentimentFromClassIndex(idxToSentiment, classes, coefs, |names|, i);
      TableAgreesStep(table, classes, coefs, names, i);
      table := table[names[i] := sentiment];
      i := i + 1;
    }
    forall w | w in names
      ensures w in table
    {
      var j :| 0 <= j < |names| && names[j] == w;
    }
  }
}
