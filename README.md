# Thai sentiment service: a verified model of its decision rules

The service classifies Thai text as NEGATIVE, NEUTRAL or POSITIVE with scikit-learn models behind
a FastAPI application (`app.py`). A training script (`Regress_train.py`) fits the primary logistic
regression model and writes out some of its misclassifications. Around the foreign calls (loading
artifacts, vectorising text, predicting) sit a few deterministic rules. This project models those
rules in Dafny and proves what they promise:

- **Label normalisation** (`labels.dfy`). `normalize_label` maps whatever label a classifier
  returns onto the three canonical labels, and passes an unrecognised label through upper-cased.
- **Global word-sentiment table** (`word_sentiment.dfy`). For every vocabulary column it records
  the sentiment of the first class row holding the column's largest coefficient. It is built by
  two loops, as in the source.
- **Attribution engine** (`attribution.dfy`). `get_important_words` returns the top-K words by
  contribution, with parallel sentiments. The importance branch is a pure comprehension. The
  coefficient branch is a loop with `continue`. numpy's `argsort` is an input accepted up to the
  order of ties.
- **Model registry and A/B dispatch** (`serving.dfy`). The start-up loop registers each optional
  model whose two files exist. `predict_ab` runs the primary model and the requested secondary
  model, or fails with status 400 and names the registered keys.
- **Error page** (`error_view.dfy`). `show_errors` merges the training misclassifications with
  user feedback marked "incorrect". It removes duplicates through one shared `seen` set, then sorts
  stably by timestamp string, largest first, and shows the first 20.
- **Feedback log** (`feedback_log.dfy`). A class holds the log's lines. `log_feedback` validates a
  submission and appends it. One rotation step keeps the newest `max_lines` lines.
- **Training-side text rules** (`preprocess.dfy`, `error_analysis.dfy`). `preprocess` strips a
  text and collapses whitespace runs. The misclassified-row filter keeps rows whose labels differ,
  and `head(10)` keeps the first ten. `categorize_error` is a priority-ordered substring classifier.

Shared pieces live in `text.dfy`: Python's `isspace` set, `strip`, substring search, code-point
string order, integer printing and `dict.get`. `wrappers.dfy` holds `Option` and `Result`.

Foreign results are parameters of the model:

- file existence is a predicate `fileExists`;
- the vectorised text, the classifier's weights, `predict_proba`/`decision_function` outputs and
  numpy's `argsort` are an `Inference` value;
- the rows of the misclassified CSV and the lines of the feedback file are sequences;
- the current time is a string `now`.

## Model

| member | source | states |
|---|---|---|
| Text.IsSpace | Regress_train.py:24 | Python's `str.isspace` class (no contract of its own; `AsciiSpaces` states its ASCII part, and `StripSpec` what `strip` removes with it) |
| Text.AsciiSpaces | Regress_train.py:24 | below code point 128 the whitespace characters are exactly the six ASCII blanks and the separators 0x1c-0x1f; the zero-width space is not whitespace |
| Text.TrimLeft | Regress_train.py:24 | `s.lstrip()`: never longer than `s` (what it removes is `TrimLeftSpec`) |
| Text.TrimRight | Regress_train.py:24 | `s.rstrip()`: never longer than `s` (what it removes is `TrimRightSpec`) |
| Text.TrimLeftSpec | Regress_train.py:24 | `lstrip` keeps a suffix of its input, removes only whitespace, and leaves no leading whitespace |
| Text.TrimRightSpec | Regress_train.py:24 | `rstrip` keeps a prefix of its input, removes only whitespace, and leaves no trailing whitespace |
| Text.StripSpec | app.py:254 | `strip()` returns a contiguous piece of its input, with whitespace at neither end, and drops only whitespace around it |
| Text.Strip | app.py:254 | `s.strip()`: never longer than `s`, and a text without whitespace comes back unchanged (what it removes is `StripSpec`) |
| Text.Lower | app.py:151 | `s.lower()` on ASCII letters: same length, each character lower-cased on its own |
| Text.Upper | app.py:161 | `s.upper()` on ASCII letters: same length, each character upper-cased on its own |
| Text.ContainsAt | Regress_train.py:138-139 | Python's `w in s` holds exactly when `w` occurs at some position of `s` |
| Text.Contains | Regress_train.py:138-139 | Python's `w in s`: only a word no longer than `s` can occur, and the empty word occurs in every string |
| Text.LowerOfUpper | app.py:151 | lower-casing after upper-casing is the same as lower-casing alone |
| Text.ContainsAny | Regress_train.py:138-139 | `any(w in text for w in ws)` (no contract of its own; `ErrorAnalysis.ContainsAnyMentions` states it) |
| Text.Get | app.py:130 | `d.get(k, default)`: the value stored under `k`, or the default when `k` is absent |
| Text.IntToString | app.py:161 | `str(i)`: a minus sign exactly when `i` is negative, followed by digits; one character exactly for 0..9 (the value is `IntToStringValue`) |
| Text.IntToStringValue | app.py:161 | the digits after the sign of `str(i)` spell the absolute value of `i` in decimal (`DigitsValue`) |
| Text.NatToString | app.py:161 | the decimal text of `n`: non-empty and all digits; one digit exactly below 10 (the value is `NatToStringValue`) |
| Text.NatToStringValue | app.py:161 | the decimal value (`DigitsValue`) of the text of `n` is `n`, and a text of more than one digit has no leading zero |
| Text.IntToStringInjective | app.py:161 | different integers have different decimal texts |
| Text.CaseOfIntToString | app.py:161 | upper- and lower-casing leave the text of an integer unchanged |
| Text.StrLess | app.py:298 | Python's `<` on strings (no contract of its own; `StrLessIrreflexive`, `StrLessTransitive` and `StrLessTotal` state that it is a strict total order) |
| Text.StrLessIrreflexive | app.py:298 | no timestamp string sorts before itself |
| Text.StrLessTransitive | app.py:298 | the code-point order of strings used by the sort is transitive |
| Text.StrLessTotal | app.py:298 | any two different strings are ordered one way or the other |
| Text.NotStrLessTransitive | app.py:298 | "not smaller" is transitive too, which the descending order relies on |
| Labels.NormalizeLabel | app.py:148-161 | the result is a canonical label or the upper-cased text of the input; it never fails |
| Labels.LabelText | app.py:161 | `str(label)`: the string itself for a string label, the decimal numeral for an integer label |
| Labels.NormalizeString | app.py:150-159 | a string maps to NEGATIVE, NEUTRAL or POSITIVE exactly when its lower-case form is in that list (earlier lists win); otherwise it comes back upper-cased; the result is canonical iff the lower-case form is a synonym |
| Labels.SynonymListsDisjoint | app.py:152-156 | no spelling is in two synonym lists, so the list order never matters |
| Labels.NormalizeInt | app.py:139-161 | integers 0, 1 and 2 map to NEGATIVE, NEUTRAL and POSITIVE; any other integer maps to its decimal text; the result is canonical iff the integer is 0..2 |
| Labels.IntAndNumeralAgree | app.py:139-161 | an integer label and its decimal string normalise to the same result |
| Labels.NumeralIsNoSynonym | app.py:152-156 | the text of an integer outside 0..2 is in no synonym list |
| WordSentiment.ClassSentiment | app.py:118-125 | a class is positive iff its lower-case name is a positive name; it is negative iff the name is a negative name and not a positive one; otherwise it is neutral |
| WordSentiment.FirstMaxUnique | app.py:129 | numpy's `argmax` (first index of the maximum) is determined by its input |
| WordSentiment.ArgMax | app.py:129 | the index returned holds the maximum, and no earlier index holds it |
| WordSentiment.OwningClass | app.py:129 | `int(np.argmax(coefs[:, i]))`: a row of `coef_` that is the first maximum of column `i` |
| WordSentiment.ColumnSentimentOfFirstMax | app.py:129-130 | a column's sentiment is that of its arg-max class, or "neutral" past the class list |
| WordSentiment.ColumnSentiment | app.py:127-130 | the sentiment recorded for column `i` is one of the three; when `coef_` has no more rows than `classes_` it is the sentiment of the class owning the column's first maximum |
| WordSentiment.OneRowModelUsesFirstClass | app.py:127-130 | a one-row (binary) coefficient matrix sends every column to row 0, so every word gets the first class's sentiment whatever the coefficient's sign |
| WordSentiment.SentimentFromClassIndex | app.py:117-130 | looking the arg-max up in the filled `idx_to_sentiment` gives the column's sentiment |
| WordSentiment.ClassSentimentIndex | app.py:117-125 | the first loop maps exactly the class positions, each to that class's sentiment |
| WordSentiment.BuildWordSentiment | app.py:112-132 | every vocabulary word has exactly one entry; its value is the sentiment of the column of its last occurrence; every value is positive, negative or neutral |
| Attribution.SelectedClass | app.py:182-195 | the coefficient row is row 0 when there is a single row; otherwise it is the first arg-max of `predict_proba`, or of `decision_function` when there are no probabilities |
| Attribution.Contributions | app.py:174 | `present * weights`: one product per feature, element by element |
| Attribution.Magnitudes | app.py:198 | `np.abs(contributions)`: one non-negative magnitude per feature, equal to the contribution or its negation |
| Attribution.Top | app.py:175 | `[:top_k]` of the argsort keeps at most `k` indices and is a prefix |
| Attribution.Survivors | app.py:176 | the filter keeps, from the top indices, exactly those passing the test |
| Attribution.WordsAt | app.py:176 | `feature_names[i]` for each selected index, in order |
| Attribution.Selected | app.py:175-202 | the indices either branch keeps (top `k` of the ranking, then the filter) are all vocabulary positions |
| Attribution.SurvivorsSorted | app.py:175-176 | filtering a ranked list keeps it ranked |
| Attribution.SelectionIsTopK | app.py:175-202 | the selection has at most `k` indices, all passing the filter, in ranking order, and none left out outranks one kept (`SelectionComplete` states the other half) |
| Attribution.SelectionComplete | app.py:175-202 | when every passing index outranks every failing one, a passing index is left out only when `k` indices are kept |
| Attribution.ImportanceSelection | app.py:171-178 | importance branch: at most `k` words, each with contribution `> 0`, in non-increasing contribution order; no omitted word contributes more, and a positive word is omitted only when `k` words are returned |
| Attribution.CoefficientSelection | app.py:181-206 | coefficient branch: at most `k` words, none with zero contribution, in non-increasing absolute contribution; no omitted word has a larger magnitude, and a word with non-zero contribution is omitted only when `k` words are returned |
| Attribution.SentimentsOf | app.py:177-205 | each word's sentiment is its table entry, or "neutral" when the table lacks it |
| Attribution.SentimentsAreSentiments | app.py:177-205 | drawn from the global table, every sentiment is positive, negative or neutral |
| Attribution.ImportanceAttribution | app.py:171-178 | the importance branch returns the selected words (at most `k`) and their parallel sentiments |
| Attribution.CollectNonZero | app.py:199-206 | the loop with `continue` appends exactly the non-zero indices' words, in order, with their sentiments |
| Attribution.CoefficientAttribution | app.py:181-206 | the coefficient branch returns the selected words and their parallel sentiments |
| Attribution.GetImportantWords | app.py:166-210 | at most `k` words, with sentiments parallel to them; `([], [])` for a classifier with neither attribute |
| Serving.ModelConfigsDistinct | app.py:64-95 | the five optional models are keyed linear, rf, nb, lgbm, et, with no key twice |
| Serving.Keys | app.py:387 | `list(loaded_models.keys())`: the registry's keys, in insertion order |
| Serving.LoadModelPair | app.py:54-61 | a pair loads exactly when both of its files exist |
| Serving.Registered | app.py:97-107 | the registry holds exactly the configurations whose two files exist |
| Serving.RegisteredDistinct | app.py:97-107 | the registry never holds a key twice |
| Serving.RegisteredKeys | app.py:97-107 | a key is registered iff some configuration with that key has both files on disk |
| Serving.LoadRegistry | app.py:97-107 | the start-up loop builds exactly that registry |
| Serving.Entry | app.py:358 | `loaded_models[key]` is the registered entry with that key |
| Serving.ExplainedWords | app.py:166 | a prediction explains at most `top_k = 5` words |
| Serving.Predict | app.py:309-327 | one model's record has a canonical or upper-cased label, at most 5 words and parallel sentiments |
| Serving.ItemsListEveryKey | app.py:387-390 | `repr` of the key list contains every key, quoted |
| Serving.Items | app.py:390 | the items of `repr` of the key list: empty exactly for no keys, starting with the first key quoted (`ItemsListEveryKey` states that every key is listed) |
| Serving.DetailListsAvailable | app.py:387-391 | the 400 message names every registered model |
| Serving.Unavailable.Detail | app.py:387-391 | the 400 message: the requested id followed by `repr` of the registered ids (no contract of its own; `DetailListsAvailable` states what it lists) |
| Serving.PredictAB | app.py:329-393 | for a registry with distinct keys (as `LoadRegistry` builds it): the call fails iff the requested key is not registered; the failure has status 400 and lists exactly the registered keys; on success model A is the primary record and model B is the record of the one entry `loaded_models[model_b_type]` (the key as given; `PredictABRequest` supplies the default) |
| Serving.DefaultModelBRegistered | app.py:332 | the default secondary model "linear" is available exactly when the linear SVM's two files exist |
| Serving.PredictABRequest | app.py:329-393 | the request as received: without `model_b_type` the model "linear" is requested; the call fails with 400 and the registered keys iff the requested key is not registered, and otherwise returns model A's record and the requested model's |
| FeedbackLog.HasRequiredFields | app.py:404-405 | `all(field in data for field in required_fields)` (no contract of its own; `RequiredFieldsNamed` spells it out) |
| FeedbackLog.RequiredFieldsNamed | app.py:404-405 | a submission is complete exactly when it has `text`, `model`, `predicted_label` and `feedback`; an incomplete one lacks one of them |
| FeedbackLog.Stamp | app.py:408-409 | a timestamp is added only when absent, and every submitted field is kept |
| FeedbackLog.FeedbackLog.LogFeedback | app.py:400-414 | missing a required field gives 400 and leaves the log unchanged; otherwise exactly one stamped record is appended after the earlier lines |
| FeedbackLog.KeepLast | app.py:429-430 | rotation keeps exactly the last `max_lines` lines, in order, when there are more; otherwise it keeps all of them |
| FeedbackLog.KeepLastIdempotent | app.py:429-432 | a second rotation with the same bound changes nothing |
| FeedbackLog.NewestSurvives | app.py:429-432 | with a positive bound, the newest line survives rotation as the last line |
| FeedbackLog.KeepLastFromEnd | app.py:430 | every kept line is the original line at the same distance from the end |
| FeedbackLog.FeedbackLog.Rotate | app.py:426-432 | one rotation step with the corrected meaning of the bound (`KeepLast`): the log becomes its newest `max_lines` lines, a short log is left unchanged, and a bound of 0 empties it (the code as written keeps everything there; see Findings) |
| FeedbackLog.FeedbackLog.PeriodicRotation | app.py:422-439 | the rotation the application actually runs, with the default bound 100: the new log is exactly what the code as written leaves, and holds at most 100 lines |
| FeedbackLog.RotateAsWritten | app.py:429-430 | one rotation step exactly as written (`lines[-max_lines:]` when over the bound): always a suffix of the log, and the whole log when it is within the bound |
| FeedbackLog.PyTail | app.py:430 | Python's `s[-m:]`: a suffix of `s`; the whole of `s` for `m == 0`, otherwise the last `m` elements or all when fewer |
| FeedbackLog.RotateAsWrittenZeroBound | app.py:429-430 | as written, a bound of 0 keeps every line of a non-empty log |
| FeedbackLog.RotateAsWrittenAgrees | app.py:429-430 | for every positive bound, the rotation as written equals `KeepLast` |
| ErrorView.StaticCandidates | app.py:253-265 | the entries the CSV rows offer, in file order (no contract of its own; `StaticCandidatesCover` states it) |
| ErrorView.FeedbackCandidates | app.py:274-291 | the entries the feedback lines offer, newest line first (no contract of its own; `FeedbackCandidatesFrom` and `FeedbackCandidatesCover` state it) |
| ErrorView.StaticCandidatesCover | app.py:253-265 | every static row offers its entry, and nothing else is offered |
| ErrorView.FeedbackCandidatesFrom | app.py:274-291 | every feedback entry comes from a parsed record whose `feedback` is "incorrect" |
| ErrorView.FeedbackCandidatesCover | app.py:274-291 | every record marked "incorrect" offers its entry |
| ErrorView.StaticEntry | app.py:254-257 | the entry of one CSV row: a static entry with no timestamp (it sorts last), labels defaulting to "?" |
| ErrorView.FeedbackEntry | app.py:279-290 | the entry of one feedback record: it sorts by the record's timestamp ("" when absent), the true label defaults to "UNKNOWN", the prediction to "?", and its key is the stripped text and the model |
| ErrorView.IsIncorrect | app.py:275-278 | a line counts when it is non-blank, parses, and its `feedback` is "incorrect" (no contract of its own; used by `FeedbackCandidatesFrom`/`FeedbackCandidatesCover`) |
| ErrorView.Dedup | app.py:257-283 | the `seen` filter keeps at most the candidates offered, each one offered and with a key not yet seen (`DedupKeepsFirst`, `DedupOnlyFirst` and `DedupProperties` state which) |
| ErrorView.DedupKeepsFirst | app.py:257-283 | the first candidate carrying a key not yet seen is kept; with the feedback walked newest first, the newest record for a text and model pair is the one shown |
| ErrorView.DedupOnlyFirst | app.py:257-283 | every kept entry is the first candidate carrying its key |
| ErrorView.DedupProperties | app.py:257-283 | the kept entries have distinct keys, and every offered key is either already seen or kept |
| ErrorView.Insert | app.py:298 | one insertion step of the sort (no contract of its own; `InsertPermutes`, `InsertDescending` and `InsertStable` state it) |
| ErrorView.InsertPermutes | app.py:298 | insertion adds exactly one entry |
| ErrorView.SortPermutes | app.py:298 | the sort is a permutation |
| ErrorView.InsertDescending | app.py:298 | insertion keeps the timestamps non-increasing |
| ErrorView.SortDescending | app.py:298 | the sort leaves the timestamps non-increasing, and permutes its input |
| ErrorView.InsertStable | app.py:298 | insertion places an entry in front of the entries with the same timestamp, leaving their order alone; since the sort inserts later entries first, an earlier entry of the input ends up ahead of later ones |
| ErrorView.SortStable | app.py:298 | entries with equal timestamps keep their relative order (Python's sort is stable) |
| ErrorView.SortDistinct | app.py:298 | sorting keeps the keys distinct |
| ErrorView.SortByTimestampDesc | app.py:298 | `all_errors.sort(key=timestamp, reverse=True)` by insertion (no contract of its own; `SortDescending`, `SortPermutes` and `SortStable` state that it is a stable descending permutation) |
| ErrorView.PageShape | app.py:298-299 | the page has at most 20 entries, no two share a dedup key, and timestamps are non-increasing |
| ErrorView.ErrorsPage | app.py:244-299 | the page `show_errors` renders: the de-duplicated candidates of both loops, sorted, cut to at most 20 (`PageIsNewest` states which 20) |
| ErrorView.PageIsNewest | app.py:298-299 | the page holds all kept entries, or 20 of them when there are more; no kept entry left off has a larger timestamp than one on the page |
| ErrorView.PageOrigins | app.py:253-291 | each entry on the page is a static row or a feedback record marked "incorrect" |
| ErrorView.PageComplete | app.py:246-299 | when at most 20 distinct keys are offered, every static row and incorrect record has its key on the page |
| ErrorView.CollectStatic | app.py:253-265 | the first loop keeps each static row whose key is new, and records the key |
| ErrorView.CollectFeedback | app.py:274-291 | the second loop walks the lines newest first and keeps each "incorrect" record whose key is new |
| ErrorView.ShowErrors | app.py:244-303 | the page is the deduplicated candidates, sorted by timestamp descending and cut to 20 |
| Preprocess.NonSpaceAppend | Regress_train.py:23-26 | the non-whitespace characters of a concatenation are those of its parts |
| Preprocess.Collapse | Regress_train.py:25 | `re.sub(r"\s+", " ", s)`: never longer than `s`, and empty exactly when `s` is |
| Preprocess.Preprocess | Regress_train.py:23-26 | `preprocess(text)`: never longer than its input, and a text already stripped and collapsed comes back unchanged |
| Preprocess.CollapseHead | Regress_train.py:25 | the collapse is empty only for an empty input, and its first character stands for the input's first |
| Preprocess.CollapseLast | Regress_train.py:25 | an input ending in a non-space character yields an output ending in it |
| Preprocess.CollapseCollapsed | Regress_train.py:25 | after `re.sub(r"\s+", " ", ...)` every whitespace character is a blank, and no two whitespace characters are adjacent |
| Preprocess.CollapseKeepsText | Regress_train.py:25 | the substitution keeps every non-whitespace character, in order |
| Preprocess.NonSpaceStrip | Regress_train.py:24 | `strip` drops whitespace only |
| Preprocess.PreprocessShape | Regress_train.py:23-26 | `preprocess` leaves no edge whitespace, only single blanks inside, and the input's non-whitespace characters in order |
| Preprocess.CollapseFixed | Regress_train.py:25 | a text with single blanks only is left unchanged by the substitution |
| Preprocess.PreprocessIdempotent | Regress_train.py:23-26 | `preprocess(preprocess(t)) == preprocess(t)` |
| Preprocess.TakeWordSpec | Regress_train.py:25 | a word stops at the first whitespace character and holds none |
| Preprocess.WordsAppendSpaces | Regress_train.py:24 | trailing whitespace adds no word to `split()` |
| Preprocess.WordsTrimLeft | Regress_train.py:24 | leading whitespace adds no word to `split()` |
| Preprocess.WordsStrip | Regress_train.py:24 | `strip` changes no word |
| Preprocess.CollapseIsJoin | Regress_train.py:25 | for a text not starting with whitespace, the substitution gives its words joined by blanks, plus one blank when the text ends in whitespace |
| Preprocess.PreprocessIsJoinOfWords | Regress_train.py:23-26 | `preprocess(t) == " ".join(t.split())` |
| ErrorAnalysis.ContainsAnyMentions | Regress_train.py:138-139 | `any(w in text for w in ws)` holds iff some word of `ws` occurs at some position of the text |
| ErrorAnalysis.CategorizeWith | Regress_train.py:133-153 | `categorize_error` over given word lists: the result is one of the four category names |
| ErrorAnalysis.CategorizeError | Regress_train.py:133-153 | `categorize_error` with the source's own word lists: one of the four names, and the same as for empty labels, since the labels are never read |
| ErrorAnalysis.CategorizeRules | Regress_train.py:133-153 | the result is "Mixed Signal / Ambiguity" iff a negative and a positive word both occur, overriding everything. Otherwise it is sarcasm iff an emoji or the slang token occurs. Otherwise it is ambiguous-neutral iff a neutral phrase occurs. "Other" means no rule fired |
| ErrorAnalysis.EmojiAloneIsSarcasm | Regress_train.py:135-146 | with the source's word lists, a text made of one listed emoji is sarcasm |
| ErrorAnalysis.LabelIndependence | Regress_train.py:133 | the category depends on the text only, not on the two labels |
| ErrorAnalysis.MisclassifiedMembers | Regress_train.py:121 | the mask keeps exactly the rows whose true and predicted labels differ |
| ErrorAnalysis.MisclassifiedAppend | Regress_train.py:121 | the mask works piecewise, so kept rows stay in their original order |
| ErrorAnalysis.Rows | Regress_train.py:117-119 | the data frame built from the three test columns: row `i` is text `i` with its true label and prediction |
| ErrorAnalysis.Misclassified | Regress_train.py:121 | the mask keeps at most the rows given, and every kept row has differing labels |
| ErrorAnalysis.ErrorExamples | Regress_train.py:127 | `head(10)`: a prefix of the misclassified rows, at most 10 long, and exactly 10 long when at least 10 rows are misclassified |
| ErrorAnalysis.ErrorExamplesSpec | Regress_train.py:117-127 | when at most 10 rows are misclassified all of them are written; when more are, exactly the first 10 are written, in order; every row written is a row of the table with differing labels |
| ErrorAnalysis.ErrorExamplesOfColumns | Regress_train.py:117-127 | built from the test columns, every row written is some test text with its own true label and prediction, and the two differ |

## Left out

- HTTP plumbing: routing, `HTTPException`/`JSONResponse` objects, templates and the static mount. Outcomes are `Result`/`Response` values with a status code.
- I/O: `joblib.load`, `Path.exists`, reading and writing the CSV and JSON-lines files. File existence is a parameter, and file contents are sequences. A feedback line is `Blank`, `Malformed` or a record of string fields. JSON encoding and decoding, and record values that are not strings, are not modelled.
- The 500 response when writing feedback fails (app.py:415-417), and the `try`/`except` around the two loops of `show_errors` that swallows I/O errors.
- Foreign scikit-learn and numpy calls (`transform`, `predict`, `predict_proba`, `decision_function`, `argsort`, fitting) are inputs. `argsort` may order ties in any way.
- Confidence and latency: the sigmoid, `round`, the 0.95 fallback and `time.time()` are floating point and wall-clock.
- The first-run check that model A's files exist (app.py:46-48), the `/health` and `/model/info` endpoints, and the start-up of the background task.
- Concurrency: the endless `asyncio.sleep(600)` loop and the unsynchronised append/rotation race. One rotation step is modelled.
- `datetime.utcnow().isoformat()`: the timestamp is the parameter `now`.
- Text.Lower / Text.Upper: only ASCII letters change case. Python's full Unicode case mapping is not modelled; the Thai words in the source have no case.
- ErrorView.StaticEntry: `str()` of a NaN CSV cell ("nan") is not modelled, since cells are strings.
- Preprocess.Preprocess: the `str(text)` conversion is not modelled; the input is already a string, so a non-string cell (a pandas NaN, which becomes "nan") is outside the model.
- Serving.Items: `repr` quoting is modelled for keys without quotes or backslashes, which covers every configured key.
- Serving.PredictAB: that model A is run before the dispatch is not observable in the result, so it is not stated.
- Attribution.GetImportantWords: a negative `top_k` (Python's negative slice) cannot be expressed, since `k` is a `nat`.
- ErrorAnalysis: the `error_type` column, the suggestion printout, metrics and plots are reporting, not rules.

## Findings

| source | as written | input that shows it | evidently intended | confidence | as-written member | corrected member |
|---|---|---|---|---|---|---|
| app.py:429-430 | `lines[-max_lines:]` when `len(lines) > max_lines` | `max_lines = 0` with a non-empty log: `lines[-0:]` is the whole list, so nothing is removed | keep the last `max_lines` lines, which is none for a bound of 0 | low (the default bound is 100; not executed) | FeedbackLog.RotateAsWritten, FeedbackLog.RotateAsWrittenZeroBound | FeedbackLog.KeepLast, FeedbackLog.FeedbackLog.Rotate, FeedbackLog.RotateAsWrittenAgrees |
