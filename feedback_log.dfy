/**
 * The feedback log of app.py: `log_feedback` validates a submitted record, stamps it and appends
 * it as one line; `rotate_feedback_periodically` trims the file to its most recent lines. The
 * file is held as a sequence of lines in a class field; JSON encoding is not modelled, so a line
 * is either blank, unparsable, or a record of string fields.
 */
module FeedbackLog {

  /** One line of the JSON-lines feedback file. */
  datatype FeedbackLine = Blank | Malformed | Record(fields: map<string, string>)

  /** The fields a submission must carry. */
  const RequiredFields: seq<string> := ["text", "model", "predicted_label", "feedback"]

  predicate HasRequiredFields(data: map<string, string>)
  {
    forall f :: f in RequiredFields ==> f in data
  }

  /** A submission is complete exactly when it names the text, the model, the prediction and the verdict. */
  lemma RequiredFieldsNamed(data: map<string, string>)
    ensures HasRequiredFields(data) <==>
      "text" in data && "model" in data && "predicted_label" in data && "feedback" in data
    ensures !HasRequiredFields(data) ==> exists f :: f in RequiredFields && f !in data
  {
  }

  /** The record as written: a missing timestamp is added, everything else is kept as submitted. */
  function Stamp(data: map<string, string>, now: string): (r: map<string, string>)
    ensures r.Keys == data.Keys + {"timestamp"}
    ensures forall f :: f in data ==> r[f] == data[f]
    ensures "timestamp" !in data ==> r["timestamp"] == now
  {
    if "timestamp" in data then data else data["timestamp" := now]
  }

  /** The outcome of a feedback submission (the 500 of a failed write is not modelled). */
  datatype Response = Recorded | MissingFields
  {
    function Status(): int
    {
      if Recorded? then 200 else 400
    }
  }

  /** The default bound of the rotation task. */
  const DefaultMaxLines: nat := 100

  /** The last `m` lines when there are more than `m`, else all of them. */
  function KeepLast<T>(lines: seq<T>, m: nat): (r: seq<T>)
    ensures |r| == if |lines| > m then m else |lines|
    ensures r == lines[|lines| - |r|..]
  {
    if |lines| > m then lines[|lines| - m..] else lines
  }

  /** Rotation is idempotent: a second rotation with the same bound changes nothing. */
  lemma KeepLastIdempotent<T>(lines: seq<T>, m: nat)
    ensures KeepLast(KeepLast(lines, m), m) == KeepLast(lines, m)
  {
  }

  /** The newest line always survives a rotation with a positive bound, at the end. */
  lemma NewestSurvives<T>(lines: seq<T>, x: T, m: nat)
    requires m > 0
    ensures var r := KeepLast(lines + [x], m); |r| > 0 && r[|r| - 1] == x
  {
  }

  /** Rotation commutes with reading any suffix it keeps: line `i` from the end is unchanged. */
  lemma KeepLastFromEnd<T>(lines: seq<T>, m: nat, i: nat)
    requires i < |KeepLast(lines, m)|
    ensures KeepLast(lines, m)[|KeepLast(lines, m)| - 1 - i] == lines[|lines| - 1 - i]
  {
  }

  /** Python's `s[-m:]`: note that `-0` is `0`, so a zero bound selects the whole list. */
  function PyTail<T>(s: seq<T>, m: nat): (r: seq<T>)
    ensures |r| <= |s| && r == s[|s| - |r|..]
    ensures m == 0 ==> r == s
    ensures m > 0 ==> |r| == if m < |s| then m else |s|
  {
    if m == 0 then s else s[|s| - (if m < |s| then m else |s|)..]
  }

  /** One rotation step as the source writes it: `lines[-max_lines:]` when over the bound. */
  function RotateAsWritten<T>(lines: seq<T>, m: nat): (r: seq<T>)
    ensures |r| <= |lines| && r == lines[|lines| - |r|..]
    ensures |lines| <= m ==> r == lines
  {
    if |lines| > m then PyTail(lines, m) else lines
  }

  /** With a zero bound the source's rotation keeps every line of a non-empty log. */
  lemma RotateAsWrittenZeroBound<T>(lines: seq<T>)
    requires |lines| > 0
    ensures |RotateAsWritten(lines, 0)| == |lines| > 0
  {
  }

  /** For every positive bound, including the default 100, the source's rotation is `KeepLast`. */
  lemma RotateAsWrittenAgrees<T>(lines: seq<T>, m: nat)
    requires m > 0
    ensures RotateAsWritten(lines, m) == KeepLast(lines, m)
  {
  }

  /** The feedback file. */
  class FeedbackLog {
    var lines: seq<FeedbackLine>

    constructor (initial: seq<FeedbackLine>)
      ensures lines == initial
    {
      lines := initial;
    }

    /**
     * log_feedback: a submission missing a required field is refused with 400 and leaves the log
     * alone; otherwise exactly one stamped record is appended after all earlier lines.
     */
    method LogFeedback(data: map<string, string>, now: string) returns (resp: Response)
      modifies this
      ensures resp == MissingFields <==> !HasRequiredFields(data)
      ensures !HasRequiredFields(data) ==> lines == old(lines)
      ensures HasRequiredFields(data) ==> lines == old(lines) + [Record(Stamp(data, now))]
    {
      if !(forall f :: f in RequiredFields ==> f in data) {
        return MissingFields;
      }
      var record := data;
      if "timestamp" !in record {
        record := record["timestamp" := now];
      }
      lines := lines + [Record(record)];
      resp := Recorded;
    }

    /**
     * One rotation step with the intended meaning of the bound: keep only the newest `maxLines`
     * lines. Unlike the code as written (`RotateAsWritten`), a bound of 0 empties the log.
     */
    method Rotate(maxLines: nat)
      modifies this
      ensures lines == KeepLast(old(lines), maxLines)
      ensures |old(lines)| <= maxLines ==> lines == old(lines)
    {
      if |lines| > maxLines {
        lines := lines[|lines| - maxLines..];
      }
    }

    /**
     * One wake-up of rotate_feedback_periodically as the application starts it, with the default
     * bound: the log becomes exactly what the code as written leaves, and never exceeds the bound.
     */
    method PeriodicRotation()
      modifies this
      ensures lines == RotateAsWritten(old(lines), DefaultMaxLines)
      ensures |lines| <= DefaultMaxLines
    {
      ghost var before := lines;
      Rotate(DefaultMaxLines);
      RotateAsWrittenAgrees(before, DefaultMaxLines);
    }
  }
}
