/**
 * Label normalisation of the prediction service (`LABEL_MAP` and `normalize_label` in app.py):
 * whatever a classifier returns as its class label is mapped onto NEGATIVE, NEUTRAL or POSITIVE,
 * except that an unrecognised label passes through upper-cased.
 */
module Labels {
  import opened Text

  /** A raw class label as a classifier reports it: an integer class id or a class name. */
  datatype Label = IntLabel(i: int) | StrLabel(s: string)

  const NEGATIVE: string := "NEGATIVE"
  const NEUTRAL: string := "NEUTRAL"
  const POSITIVE: string := "POSITIVE"

  predicate IsCanonical(r: string)
  {
    r == NEGATIVE || r == NEUTRAL || r == POSITIVE
  }

  /** Lower-case spellings that mean each class (English, Thai, and the class id as a string). */
  const NegativeSynonyms: seq<string> := ["negative", "neg", "แย่", "ห่วย", "ลบ", "0"]
  const NeutralSynonyms: seq<string> := ["neutral", "neu", "กลาง", "เฉยๆ", "กลางๆ", "1"]
  const PositiveSynonyms: seq<string> := ["positive", "pos", "ดี", "บวก", "ชอบ", "2"]

  predicate IsSynonym(low: string)
  {
    low in NegativeSynonyms || low in NeutralSynonyms || low in PositiveSynonyms
  }

  /** The fixed table consulted after the synonym lists; keys of both kinds, as in the source. */
  const LabelMap: map<Label, string> := map[
    IntLabel(0) := NEGATIVE, IntLabel(1) := NEUTRAL, IntLabel(2) := POSITIVE,
    StrLabel("0") := NEGATIVE, StrLabel("1") := NEUTRAL, StrLabel("2") := POSITIVE
  ]

  /** The text of a label, as Python's `str(label)` gives it. */
  function LabelText(l: Label): (r: string)
    ensures l.StrLabel? ==> r == l.s
    ensures l.IntLabel? ==> r == IntToString(l.i)
  {
    match l
    case IntLabel(i) => IntToString(i)
    case StrLabel(s) => s
  }

  /**
   * normalize_label: synonym lists first (case-insensitively) for a string, then the fixed
   * table, otherwise the upper-cased text of the label. Never fails.
   */
  function NormalizeLabel(l: Label): (r: string)
    ensures IsCanonical(r) || r == Upper(LabelText(l))
  {
    match l
    case StrLabel(s) =>
      var low := Lower(s);
      if low in NegativeSynonyms then NEGATIVE
      else if low in NeutralSynonyms then NEUTRAL
      else if low in PositiveSynonyms then POSITIVE
      else if l in LabelMap then LabelMap[l]
      else Upper(s)
    case IntLabel(i) =>
      if l in LabelMap then LabelMap[l] else Upper(IntToString(i))
  }

  /**
   * For a string label, each canonical value is produced exactly when the lower-cased label is
   * one of that class's synonyms; every other string comes back upper-cased.
   */
  lemma NormalizeString(s: string)
    ensures NormalizeLabel(StrLabel(s)) == NEGATIVE <==> Lower(s) in NegativeSynonyms
    ensures NormalizeLabel(StrLabel(s)) == NEUTRAL <==> Lower(s) in NeutralSynonyms && Lower(s) !in NegativeSynonyms
    ensures NormalizeLabel(StrLabel(s)) == POSITIVE <==>
      Lower(s) in PositiveSynonyms && Lower(s) !in NegativeSynonyms && Lower(s) !in NeutralSynonyms
    ensures !IsSynonym(Lower(s)) ==> NormalizeLabel(StrLabel(s)) == Upper(s)
    ensures IsCanonical(NormalizeLabel(StrLabel(s))) <==> IsSynonym(Lower(s))
  {
    if !IsSynonym(Lower(s)) {
      // an upper-cased canonical value or a numeral key of the table would have matched a synonym
      LowerOfUpper(s);
      assert Lower(NEGATIVE) == "negative" && Lower(NEUTRAL) == "neutral" && Lower(POSITIVE) == "positive";
      assert Lower("0") == "0" && Lower("1") == "1" && Lower("2") == "2";
    }
  }

  /** The synonym lists never overlap, so the order in which they are tried does not matter. */
  lemma SynonymListsDisjoint(low: string)
    ensures !(low in NegativeSynonyms && low in NeutralSynonyms)
    ensures !(low in NegativeSynonyms && low in PositiveSynonyms)
    ensures !(low in NeutralSynonyms && low in PositiveSynonyms)
  {
  }

  /** Class ids 0, 1 and 2 are the three canonical values; any other integer becomes its numeral. */
  lemma NormalizeInt(i: int)
    ensures NormalizeLabel(IntLabel(i)) == if i == 0 then NEGATIVE else if i == 1 then NEUTRAL
                                           else if i == 2 then POSITIVE else IntToString(i)
    ensures IsCanonical(NormalizeLabel(IntLabel(i))) <==> 0 <= i <= 2
  {
    CaseOfIntToString(i);
    var r := IntToString(i);
    if !(0 <= i <= 2) {
      assert r[0] != 'N' && r[0] != 'P';
      assert r != NEGATIVE && r != NEUTRAL && r != POSITIVE;
    }
  }

  /** An integer class id and its decimal string normalise to the same value. */
  lemma IntAndNumeralAgree(i: int)
    ensures NormalizeLabel(IntLabel(i)) == NormalizeLabel(StrLabel(IntToString(i)))
  {
    var r := IntToString(i);
    CaseOfIntToString(i);
    NormalizeInt(i);
    if 0 <= i <= 2 {
      assert r == [DigitChar(i)];
    } else {
      NumeralIsNoSynonym(i);
    }
  }

  /** Outside 0..2 the decimal numeral of an integer is none of the synonyms. */
  lemma NumeralIsNoSynonym(i: int)
    requires !(0 <= i <= 2)
    ensures !IsSynonym(IntToString(i))
  {
    var r := IntToString(i);
    if |r| == 1 {
      assert r == [DigitChar(i)];
    }
    NumeralNotIn(r, NegativeSynonyms);
    NumeralNotIn(r, NeutralSynonyms);
    NumeralNotIn(r, PositiveSynonyms);
  }

  /** A numeral other than 0, 1 and 2 is not in a list whose other entries start with a letter. */
  lemma NumeralNotIn(r: string, ws: seq<string>)
    requires |r| > 0 && (IsDigit(r[0]) || r[0] == '-') && r != "0" && r != "1" && r != "2"
    requires forall j :: 0 <= j < |ws| ==>
      ws[j] == "0" || ws[j] == "1" || ws[j] == "2" || (|ws[j]| > 0 && !IsDigit(ws[j][0]) && ws[j][0] != '-')
    ensures r !in ws
  {
    forall j | 0 <= j < |ws|
      ensures ws[j] != r
    {
      if ws[j] != "0" && ws[j] != "1" && ws[j] != "2" {
        assert ws[j][0] != r[0];
      }
    }
  }
}
