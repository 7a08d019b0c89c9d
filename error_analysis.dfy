/**
 * The error analysis of the training script: the table of misclassified test rows, of which the
 * first 10 are written out, and `categorize_error`, a priority-ordered substring classifier.
 */
module ErrorAnalysis {
  import opened Text

  // ---------------------------------------------------------------- categorize_error

  /**
   * The word lists `categorize_error` searches for. In the source file they are Thai text that was
   * re-encoded by mistake; they are kept exactly as written (see `SourceLexicon`), and every
   * property below holds for any lists.
   */
  datatype Lexicon = Lexicon(
    negWords: seq<string>,
    posWords: seq<string>,
    emojis: seq<string>,
    slang: string,
    neutralPhrases: seq<string>)

  /** The word lists exactly as the training script spells them (Regress_train.py:135, 136, 145, 149). */
  const SourceLexicon: Lexicon := Lexicon(
    negWords := [
      "\U{2021}\U{3c0}\U{d1}\U{2021}\U{220f}\U{b0}\U{2021}\U{3c0}\U{e0}",
      "\U{2021}\U{3c0}\U{c5}\U{2021}\U{220f}\U{a2}\U{2021}\U{3c0}\U{e0}",
      "\U{2021}\U{220f}\U{fa}\U{2021}\U{220f}\U{a5}\U{2021}\U{220f}\U{ee}\U{2021}\U{220f}\U{b4}\U{2021}\U{220f}\U{df}\U{2021}\U{220f}\U{b1}\U{2021}\U{220f}\U{e1}",
      "\U{2021}\U{220f}\U{d1}\U{2021}\U{220f}\U{df}\U{2021}\U{220f}\U{a3}\U{2021}\U{220f}\U{f5}\U{2021}\U{220f}\U{a3}\U{2021}\U{220f}\U{b1}\U{2021}\U{220f}\U{f6}\U{2021}\U{220f}\U{f5}\U{2021}\U{220f}\U{a3}\U{2021}\U{220f}\U{220f}\U{2021}\U{220f}\U{e1}"
    ],
    posWords := [
      "\U{2021}\U{220f}\U{ee}\U{2021}\U{220f}\U{b5}\U{2021}\U{220f}\U{b0}\U{2021}\U{220f}\U{2264}\U{2021}\U{220f}\U{c5}",
      "\U{2021}\U{220f}\U{f5}\U{2021}\U{220f}\U{a3}\U{2021}\U{220f}\U{221e}\U{2021}\U{220f}\U{f3}\U{2021}\U{220f}\U{b1}\U{2021}\U{220f}\U{f6}\U{2021}\U{3c0}\U{c9}\U{2021}\U{220f}\U{e0}",
      "\U{2021}\U{3c0}\U{c7}\U{2021}\U{220f}\U{2260}\U{2021}\U{3c0}\U{c4}\U{2021}\U{220f}\U{d1}",
      "\U{2021}\U{220f}\U{e4}\U{2021}\U{220f}\U{2260}\U{2021}\U{220f}\U{f6}"
    ],
    emojis := [
      "\U{f8ff}\U{fc}\U{f2}\U{a7}",
      "\U{f8ff}\U{fc}\U{f4}\U{d1}",
      "\U{f8ff}\U{fc}\U{f2}\U{ed}",
      "\U{f8ff}\U{fc}\U{f4}\U{c7}",
      "\U{f8ff}\U{fc}\U{f2}\U{e4}"
    ],
    slang := "\U{2021}\U{3c0}\U{c5}\U{2021}\U{220f}\U{b0}\U{2021}\U{3c0}\U{e0}\U{2021}\U{220f}\U{e1}",
    neutralPhrases := [
      "\U{2021}\U{220f}\U{a2}\U{2021}\U{220f}\U{b1}\U{2021}\U{220f}\U{e1}\U{2021}\U{3c0}\U{d1}\U{2021}\U{220f}\U{b0}\U{2021}\U{3c0}\U{e0}\U{2021}\U{220f}\U{b0}\U{2021}\U{220f}\U{b5}\U{2021}\U{220f}\U{2260}\U{2021}\U{220f}\U{221e}\U{2021}\U{3c0}\U{d1}\U{2021}\U{220f}\U{a3}\U{2021}\U{3c0}\U{c7}\U{2021}\U{220f}\U{ee}\U{2021}\U{220f}\U{ee}\U{2021}\U{3c0}\U{c4}\U{2021}\U{220f}\U{ee}\U{2021}\U{3c0}\U{e0}\U{2021}\U{220f}\U{f4}",
      "\U{2021}\U{220f}\U{2260}\U{2021}\U{220f}\U{a2}\U{2021}\U{220f}\U{3c0}\U{2021}\U{3c0}\U{e0}\U{2021}\U{3c0}\U{c9}\U{2021}\U{220f}\U{f4}\U{2021}\U{220f}\U{a3}\U{2021}\U{220f}\U{221e}\U{2021}\U{220f}\U{ee}\U{2021}\U{220f}\U{b1}\U{2021}\U{220f}\U{f6}\U{2021}\U{220f}\U{f5}\U{2021}\U{220f}\U{c5}\U{2021}\U{220f}\U{ef}\U{2021}\U{220f}\U{a5}",
      "\U{2021}\U{3c0}\U{d1}\U{2021}\U{220f}\U{b0}\U{2021}\U{3c0}\U{e0}\U{2021}\U{3c0}\U{d1}\U{2021}\U{220f}\U{ee}\U{2021}\U{3c0}\U{e2}\U{2021}\U{3c0}\U{c5}\U{2021}\U{220f}\U{a2}\U{2021}\U{3c0}\U{e0} \U{2021}\U{3c0}\U{c5}\U{2021}\U{220f}\U{ef}\U{2021}\U{3c0}\U{e0}\U{2021}\U{220f}\U{c5}\U{2021}\U{3c0}\U{e1}\U{2021}\U{3c0}\U{d1}\U{2021}\U{220f}\U{b0}\U{2021}\U{3c0}\U{e0}\U{2021}\U{3c0}\U{d1}\U{2021}\U{220f}\U{ee}\U{2021}\U{3c0}\U{e2}\U{2021}\U{220f}\U{ee}\U{2021}\U{220f}\U{b5}"
    ]
  )

  const MixedSignal: string := "Mixed Signal / Ambiguity"
  const Sarcasm: string := "Sarcasm / Informal Expression"
  const AmbiguousNeutral: string := "Ambiguous Neutral Expression"
  const Other: string := "Other"

  /** `categorize_error` over a given lexicon; the two labels are accepted and ignored, as in the source. */
  function CategorizeWith(lex: Lexicon, text: string, trueLabel: string, predLabel: string): (r: string)
    ensures r in [MixedSignal, Sarcasm, AmbiguousNeutral, Other]
  {
    var hasNeg := ContainsAny(text, lex.negWords);
    var hasPos := ContainsAny(text, lex.posWords);
    if hasNeg && hasPos then MixedSignal
    else if ContainsAny(text, lex.emojis) || Contains(text, lex.slang) then Sarcasm
    else if ContainsAny(text, lex.neutralPhrases) then AmbiguousNeutral
    else Other
  }

  /** `categorize_error(text, true_label, pred_label)`: the labels play no part in the result. */
  function CategorizeError(text: string, trueLabel: string, predLabel: string): (r: string)
    ensures r in [MixedSignal, Sarcasm, AmbiguousNeutral, Other]
    ensures r == CategorizeWith(SourceLexicon, text, "", "")
  {
    CategorizeWith(SourceLexicon, text, trueLabel, predLabel)
  }

  /** Some word of `ws` occurs at some position of `text`. */
  ghost predicate Mentions(text: string, ws: seq<string>)
  {
    exists j: nat, i: nat :: j < |ws| && OccursAt(text, ws[j], i)
  }

  /** `any(w in text for w in ws)` agrees with the positional reading. */
  lemma ContainsAnyMentions(text: string, ws: seq<string>)
    ensures ContainsAny(text, ws) <==> Mentions(text, ws)
  {
    if ContainsAny(text, ws) {
      var j :| 0 <= j < |ws| && Contains(text, ws[j]);
      ContainsAt(text, ws[j]);
      var i: nat :| OccursAt(text, ws[j], i);
      assert j < |ws| && OccursAt(text, ws[j], i);
    }
    if Mentions(text, ws) {
      var j: nat, i: nat :| j < |ws| && OccursAt(text, ws[j], i);
      ContainsAt(text, ws[j]);
    }
  }

  /**
   * The four rules in their order: a text mentioning both a negative and a positive word is a
   * mixed signal whatever else it holds; otherwise an emoji or the slang token makes it sarcasm;
   * otherwise a neutral phrase makes it ambiguous; "Other" is returned exactly when no rule fires.
   */
  lemma CategorizeRules(lex: Lexicon, text: string, trueLabel: string, predLabel: string)
    ensures var r := CategorizeWith(lex, text, trueLabel, predLabel);
      var mixed := Mentions(text, lex.negWords) && Mentions(text, lex.posWords);
      var sarcastic := Mentions(text, lex.emojis) || Mentions(text, [lex.slang]);
      && (r == MixedSignal <==> mixed)
      && (r == Sarcasm <==> !mixed && sarcastic)
      && (r == AmbiguousNeutral <==> !mixed && !sarcastic && Mentions(text, lex.neutralPhrases))
      && (r == Other <==> !mixed && !sarcastic && !Mentions(text, lex.neutralPhrases))
  {
    ContainsAnyMentions(text, lex.negWords);
    ContainsAnyMentions(text, lex.posWords);
    ContainsAnyMentions(text, lex.emojis);
    ContainsAnyMentions(text, [lex.slang]);
    ContainsAnyMentions(text, lex.neutralPhrases);
    assert Contains(text, lex.slang) <==> ContainsAny(text, [lex.slang]) by {
      if Contains(text, lex.slang) {
        assert [lex.slang][0] == lex.slang;
      }
    }
  }

  /** A word longer than the text does not occur in it. */
  lemma NoLongerWord(text: string, ws: seq<string>)
    requires forall j :: 0 <= j < |ws| ==> |ws[j]| > |text|
    ensures !Mentions(text, ws)
  {
  }

  /** With the source's lists, a text made of one of the emojis alone is sarcasm. */
  lemma EmojiAloneIsSarcasm(k: nat, trueLabel: string, predLabel: string)
    requires k < |SourceLexicon.emojis|
    ensures CategorizeError(SourceLexicon.emojis[k], trueLabel, predLabel) == Sarcasm
  {
    var e := SourceLexicon.emojis[k];
    NoLongerWord(e, SourceLexicon.negWords);
    assert OccursAt(e, SourceLexicon.emojis[k], 0);
    CategorizeRules(SourceLexicon, e, trueLabel, predLabel);
  }

  /** The category depends on the text alone. */
  lemma LabelIndependence(lex: Lexicon, text: string, t1: string, p1: string, t2: string, p2: string)
    ensures CategorizeWith(lex, text, t1, p1) == CategorizeWith(lex, text, t2, p2)
  {
  }

  // ---------------------------------------------------------------- the misclassified table

  /** One row of `errors_df`. */
  datatype Row = Row(text: string, trueLabel: string, predLabel: string)

  /** The most rows written to the examples file (`head(10)`). */
  const ExamplesWritten: nat := 10

  /** The data frame built column-wise from the test texts, true labels and predictions. */
  function Rows(texts: seq<string>, trueLabels: seq<string>, predLabels: seq<string>): (rows: seq<Row>)
    requires |texts| == |trueLabels| == |predLabels|
    ensures |rows| == |texts|
    ensures forall i :: 0 <= i < |rows| ==> rows[i] == Row(texts[i], trueLabels[i], predLabels[i])
  {
    seq(|texts|, i requires 0 <= i < |texts| => Row(texts[i], trueLabels[i], predLabels[i]))
  }

  /** `errors_df[errors_df["true_label"] != errors_df["pred_label"]]`. */
  function Misclassified(rows: seq<Row>): (m: seq<Row>)
    ensures |m| <= |rows|
    ensures forall i :: 0 <= i < |m| ==> m[i].trueLabel != m[i].predLabel
  {
    if rows == [] then []
    else (if rows[0].trueLabel != rows[0].predLabel then [rows[0]] else []) + Misclassified(rows[1..])
  }

  /** The mask keeps exactly the rows whose labels differ. */
  lemma {:induction false} MisclassifiedMembers(rows: seq<Row>)
    ensures forall r :: r in Misclassified(rows) <==> r in rows && r.trueLabel != r.predLabel
  {
    if rows != [] {
      MisclassifiedMembers(rows[1..]);
      assert forall r :: r in rows <==> r == rows[0] || r in rows[1..];
    }
  }

  /** The mask works piecewise, so the kept rows stay in their original order. */
  lemma {:induction false} MisclassifiedAppend(a: seq<Row>, b: seq<Row>)
    ensures Misclassified(a + b) == Misclassified(a) + Misclassified(b)
  {
    if a == [] {
      assert a + b == b;
    } else {
      var t := a[1..];
      var h := if a[0].trueLabel != a[0].predLabel then [a[0]] else [];
      assert Misclassified(a + b) == h + Misclassified(t + b) by {
        assert a + b == [a[0]] + (t + b);
        MisclassifiedCons(a[0], t + b);
      }
      assert Misclassified(a) == h + Misclassified(t) by {
        assert a == [a[0]] + t;
        MisclassifiedCons(a[0], t);
      }
      MisclassifiedAppend(t, b);
    }
  }

  /** One row in front of the table. */
  lemma MisclassifiedCons(x: Row, rest: seq<Row>)
    ensures Misclassified([x] + rest) == (if x.trueLabel != x.predLabel then [x] else []) + Misclassified(rest)
  {
    assert ([x] + rest)[1..] == rest;
  }

  /** `errors_df.head(10)`: the rows written to the examples file. */
  function ErrorExamples(rows: seq<Row>): (r: seq<Row>)
    ensures |r| <= ExamplesWritten && r <= Misclassified(rows)
    ensures |Misclassified(rows)| >= ExamplesWritten ==> |r| == ExamplesWritten
  {
    var m := Misclassified(rows);
    m[..if |m| < ExamplesWritten then |m| else ExamplesWritten]
  }

  /**
   * Exactly the first 10 misclassified rows are written, or all of them when there are fewer, and
   * every row written is misclassified.
   */
  lemma ErrorExamplesSpec(rows: seq<Row>)
    ensures |Misclassified(rows)| <= ExamplesWritten ==> ErrorExamples(rows) == Misclassified(rows)
    ensures |Misclassified(rows)| > ExamplesWritten ==> ErrorExamples(rows) == Misclassified(rows)[..ExamplesWritten]
    ensures forall r :: r in ErrorExamples(rows) ==> r in rows && r.trueLabel != r.predLabel
  {
    MisclassifiedMembers(rows);
    var m := Misclassified(rows);
    forall r | r in ErrorExamples(rows)
      ensures r in m
    {
      var i :| 0 <= i < |ErrorExamples(rows)| && ErrorExamples(rows)[i] == r;
      assert m[i] == r;
    }
  }

  /**
   * Built from the three test columns, every row written is some test text with its true label
   * and its prediction, and the two labels differ.
   */
  lemma ErrorExamplesOfColumns(texts: seq<string>, trueLabels: seq<string>, predLabels: seq<string>)
    requires |texts| == |trueLabels| == |predLabels|
    ensures forall r :: r in ErrorExamples(Rows(texts, trueLabels, predLabels)) ==>
      r.trueLabel != r.predLabel && exists i :: 0 <= i < |texts| && r == Row(texts[i], trueLabels[i], predLabels[i])
  {
    var rows := Rows(texts, trueLabels, predLabels);
    ErrorExamplesSpec(rows);
    forall r | r in ErrorExamples(rows)
      ensures exists i :: 0 <= i < |texts| && r == Row(texts[i], trueLabels[i], predLabels[i])
    {
      var i :| 0 <= i < |rows| && rows[i] == r;
    }
  }
}
