# Interview-assistant backend: JSON recovery and answer post-processing

This is a Dafny model of the decision logic in `app.py`. `app.py` is a Flask backend that asks a hosted
language model for interview questions (`/generate_questions`) and for evaluations of candidate answers (`/evaluate`).
The model covers:

- **JSON recovery.**
  - `extract_json_from_response` strips the markdown fence markers and the surrounding whitespace.
    It then finds the first `{` or `[` and scans forward, counting that bracket kind outside strings and escapes, until the depth returns to zero.
  - `fix_truncated_json` closes a cut-off array after its last complete top-level object.
  - Both are imperative loops. Each is proved equal to a specification function, and lemmas state what those functions return.
- **The retry ladder.** Both handlers try a list of `max_tokens` budgets in turn and stop at the first reply that yields a parsed value:
  - `[2500, 3000, 2000, 1800]` for questions;
  - `[600, 800, 400, 1000]` for evaluations.
- **Question-set acceptance.** The parsed value must be:
  - a truthy list;
  - of at least six elements;
  - with no list or dict `type` value;
  - with every element a dict that holds both `type` and `question`.
- **Evaluation post-processing.**
  - Inputs are stripped, and an over-long question or answer is truncated (1000 and 2000 characters plus `...`).
  - Fallback evaluations are substituted when needed.
  - Missing keys get defaults.
  - `int()` of the score is clamped to [0, 10], with 5 when `int()` rejects the value.
  - Feedback is capped at 100 words.
  - The outer `except` answers with the technical fallback.

The outside world enters as parameters:

- **The language model** is a function from a call (the request text and the budget) to a reply or a raised exception.
- **`json.loads`** is a `Decoder` (`string -> Option<Json>`).
- **Python's `int()` on strings** is a `string -> Option<int>` function.

Modules:

| Module | Contents |
|---|---|
| `Values` | JSON values, truthiness, `int()` |
| `Text` | `strip`, `replace`, `split`, `join` |
| `Scanner` | the depth/string/escape scan state |
| `Recovery` | the two recovery routines |
| `Ladder` | the budget loop |
| `Generation` | the question handler |
| `Evaluation` | the evaluation handler |

Where the code's behaviour is easy to misread, the model follows the code:

- **A rejected set is not retried.** The ladder stops at the first reply that parses, and the set is checked only after the loop. A parsed set that fails the checks ends the request with an error, even when later budgets would have produced a good set (`Generation.NoRetryOnRejectedSet`).
- **A falsy value still stops the ladder.** Since the extracted text starts with `{` or `[`, `json.loads` yields a list or a dict, so such a value is `[]` or `{}`. The abstract `Decoder` of the model also admits other falsy values such as `0` or `""`, which behave the same way. The generation handler then fails with "no valid questions", and the evaluation handler answers with the "unable" fallback.
- **An unhashable `type` raises.** A `type` value that is a list or dict makes the `found_types` set comprehension raise `TypeError`, so the handler answers 500.
- **An infinite score is not caught.** Such a score is `Infinity` or `-Infinity`, which `json.loads` accepts. It makes `int()` raise `OverflowError`, which the `(ValueError, TypeError)` handler does not catch. The request then ends in the outer `except` with the technical fallback (score 5). A `NaN` score raises `ValueError` and becomes 5.
- **Some branches are dead.** The `JSONDecodeError` branches of both ladders, with their call to `fix_truncated_json`, cannot be reached, because `extract_json_from_response` only returns text that parses. They are kept in `Ladder.RungValue`, and `Ladder.RepairNeverReached` shows that they never contribute.
- **A backslash is special everywhere.** It skips the next character outside strings too. Only the first bracket kind is counted.

## Model

| member | source | states |
|---|---|---|
| Values.ToInt | app.py:541-546 | `int(v)`: booleans and integers convert, a finite float truncates toward zero, a string converts exactly when the string rule gives a value, an infinite float overflows and nothing else does, and NaN (ValueError), null, lists and dicts (TypeError) are rejected |
| Values.Truthy | app.py:399 | Python's truth value of a parsed value, used by the `if not …` tests after both ladders (app.py:399, 524); no contract of its own |
| Values.TruncateTowardZero | app.py:543 | `int()` of a finite float truncates toward zero: the result is within one of the float, on the zero side |
| Text.IsSpace | app.py:93 | the characters Python counts as whitespace for `strip()` and `split()` (also app.py:486, 552); no contract of its own |
| Text.LStrip | app.py:93 | the result is the suffix left after dropping only whitespace, and it starts with a non-space |
| Text.RStrip | app.py:93 | the result is the prefix left after dropping only whitespace, and it ends with a non-space |
| Text.Strip | app.py:93 | the stripped text is empty exactly when the input is all whitespace, and otherwise has non-space ends |
| Text.StripUnchanged | app.py:93 | stripping a text with non-space ends changes nothing |
| Text.StripPadded | app.py:93 | whitespace on both sides of a text with non-space ends is removed exactly |
| Text.RemoveAll | app.py:93 | `replace(pat, '')` never lengthens the text |
| Text.RemoveAllKeepsPrefix | app.py:93 | a prefix in which no occurrence starts passes through `replace` untouched |
| Text.RemoveAllAbsent | app.py:93 | `replace` leaves a text without the pattern unchanged |
| Text.WordLength | app.py:552 | the leading word run is all non-space and is followed by a space or the end |
| Text.Words | app.py:552 | `split()` yields only non-empty runs without whitespace, no more of them than characters, and none exactly when the text is all whitespace |
| Text.WordsSkipSpace | app.py:552 | leading whitespace contributes no word; with `WordsAfterWord`, `split()` is the maximal non-space runs in order |
| Text.WordsAfterWord | app.py:552 | a word followed by whitespace or the end is the first element of `split()` |
| Text.Join | app.py:554 | `' '.join(words)`; no contract of its own, `WordsOfJoin` and `JoinAppend` state what it does |
| Text.WordsOfJoin | app.py:552-554 | `split()` of `' '.join(ws)` gives `ws` back when every element is a word |
| Text.JoinAppend | app.py:554 | appending `...` to a join extends its last word |
| Scanner.Step | app.py:115-131 | one iteration of the scan loop (also app.py:166-184); no contract of its own, the lemmas below state its effect |
| Scanner.RunFrom | app.py:112-131 | the scan state after a stretch of text, one `Step` per character (also app.py:165-184); no contract of its own, `RunFromAppend` and the lemmas below state its effect |
| Scanner.Run | app.py:106-131 | the scan state after a prefix, from the loop's initial values (depth 0, outside strings, no pending escape); no contract of its own |
| Scanner.RunFromAppend | app.py:112-131 | scanning a concatenation is scanning its parts in turn |
| Scanner.ClosingCharacter | app.py:127-132 | the depth drops from one to zero only on the closing character |
| Scanner.FirstClose | app.py:112-136 | the first index where the scan from the opener returns to depth zero; none before it |
| Scanner.LastClose | app.py:160-184 | the last index where the object depth returns to zero, or -1; none after it |
| Scanner.StringBodyIgnored | app.py:115-127 | inside an open string, a string body leaves the scan state unchanged |
| Scanner.QuotedStringIgnored | app.py:123-131 | a complete quoted string, whatever brackets it holds, leaves the scan state unchanged |
| Scanner.EscapedCharacterIgnored | app.py:115-121 | a backslash and the character after it leave the scan state unchanged, even outside strings |
| Recovery.IsOpener | app.py:98 | the characters that start the JSON value, `{` and `[`; no contract of its own |
| Recovery.CloserOf | app.py:108 | `}` for `{` and `]` otherwise; no contract of its own |
| Recovery.Clean | app.py:93 | fence removal then strip: no longer than the reply, and a non-empty result has non-space ends |
| Recovery.FirstOpener | app.py:96-103 | the index of the first `{` or `[`, with none before it; none at all gives None |
| Recovery.FixSpec | app.py:151-197 | a repair starts with `[` and parses |
| Recovery.FixShape | app.py:186-191 | a repair is a prefix of the stripped input ending in `}`, followed by `]` |
| Recovery.FixTruncatedJson | app.py:151-197 | the loop-based routine returns exactly what `FixSpec` specifies |
| Recovery.LastCompleteObject | app.py:160-184 | the scan loop's `last_complete` is the last top-level object close, or -1 |
| Recovery.FixTruncatedResult | app.py:155-195 | for an input starting with `[`, the repair is the prefix up to the last top-level `}` plus `]` if that parses, else None |
| Recovery.FixTruncatedNone | app.py:155-197 | a non-array input, or one where no object closes, gives None |
| Recovery.ExtractCleaned | app.py:95-145 | a result is non-empty, starts with `{` or `[`, and parses; cleaned text without a bracket gives None |
| Recovery.ExtractFrom | app.py:105-145 | from the first bracket, a result is non-empty, starts with a bracket, and parses |
| Recovery.ExtractSpec | app.py:85-149 | an empty reply, or one with no bracket after cleaning, gives None; a result starts with a bracket and parses |
| Recovery.ExtractJson | app.py:85-149 | the loop-based routine returns exactly what `ExtractSpec` specifies |
| Recovery.ScanFromOpener | app.py:105-145 | the bracket-counting loop returns exactly what `ExtractFrom` specifies |
| Recovery.FirstOpenerAt | app.py:96-100 | a bracket with none before it is where the scan starts |
| Recovery.ExtractBalanced | app.py:112-136 | in the balanced case the result is the text from the first bracket to the first return to depth zero if it parses, else None, with no further scan or repair |
| Recovery.ExtractUnclosed | app.py:138-145 | when the depth never returns to zero, the remainder is returned if it parses, else the repair's result |
| Recovery.BlankTextYieldsNothing | app.py:89-103 | a reply made only of whitespace yields None |
| Recovery.FencesRemoved | app.py:93 | both `replace` calls remove exactly the ```` ```json ```` and ```` ``` ```` fence lines around a text without fences |
| Recovery.CleanFenced | app.py:93 | cleaning a fenced reply gives back the text inside the fence |
| Recovery.FencedRoundTrip | app.py:85-149 | a balanced JSON text that parses is recovered exactly from a reply that wraps it in a ```` ```json ```` fence |
| Ladder.RungValue | app.py:357-397 | a raised call yields nothing, and a rung yields a value only when extraction succeeded |
| Ladder.Attempts | app.py:357-360 | one outcome per budget, each the rung at that budget in order |
| Ladder.FirstRung | app.py:357-377 | the first rung that yields a value, with every earlier rung yielding none; none when no rung yields one |
| Ladder.Attempt | app.py:357-377 | the value of the rung at one budget; no contract of its own, `RungValue` states it |
| Ladder.Climb | app.py:357-377 | the stopping rung is within the budgets and yields its value, every earlier rung yields none; none at all gives no rung |
| Ladder.LadderValue | app.py:355-377 | the value the loop leaves in `questions` / `evaluation` (also app.py:478-502): none when no rung stopped it; no contract of its own |
| Ladder.RunLadder | app.py:357-397 | the `for`/`continue`/`break` loop stops exactly where `FirstRung` says |
| Ladder.RepairNeverReached | app.py:374-393 | a rung's value is the parse of the extracted text, so the repair branch never contributes |
| Ladder.BlankCheckRedundant | app.py:485-488 | skipping blank replies changes no rung |
| Ladder.FirstRungPrefix | app.py:357-377 | outcomes that agree up to a rung that yields a value have the same first rung |
| Ladder.LaterRungsIgnored | app.py:374-377 | replies after the first rung that yields a value do not affect the outcome |
| Ladder.NoRungWithoutValue | app.py:355-397 | when no rung yields a value, the ladder ends with none |
| Ladder.AllRaisedGivesNothing | app.py:395-397 | when every call raises, the ladder ends with none |
| Generation.Status | app.py:333-335 | status 400 is answered exactly for a blank role, and 500 for every other failure |
| Generation.HasRequiredFields | app.py:418 | an element is a dict holding `question` and `type`; no contract of its own |
| Generation.TypeOf | app.py:411 | `q.get('type')` of a dict: the value, or null when the key is missing; no contract of its own |
| Generation.TypeHashable | app.py:411 | the `type` value of an element can be hashed into the set, i.e. it is not a list or dict; no contract of its own |
| Generation.CoversExpectedTypes | app.py:413 | `expected_types.issubset(found_types)`: every expected type is the `type` of some dict; no contract of its own, `TypeCoverageNotEnforced` shows it does not decide acceptance |
| Generation.FirstMissing | app.py:416-419 | the 1-based position of the first element lacking `type` or `question`, with all earlier ones complete |
| Generation.Acceptance | app.py:399-419 | a set is accepted exactly when it is a list of at least six dicts with `type` and `question` and hashable types; an accepted set is the parsed list; "no valid questions" exactly when nothing truthy was parsed |
| Generation.FoundTypes | app.py:411 | the set of `type` values of the dict elements, or None exactly when some `type` is a list or dict |
| Generation.CheckRequiredFields | app.py:416-419 | the first position lacking a required field, with all earlier ones complete; None exactly when all are complete |
| Generation.AcceptQuestions | app.py:399-422 | the checks as run return exactly what `Acceptance` specifies |
| Generation.GenerationSpec | app.py:333-422 | the handler fails with "role required" exactly when the role is blank |
| Generation.GenerateQuestions | app.py:333-422 | the handler returns what the ladder followed by `Acceptance` specifies |
| Generation.BlankRoleRefused | app.py:333-335 | a blank role gets 400 whatever the model would reply |
| Generation.NoRetryOnRejectedSet | app.py:374-419 | a first reply that parses to a rejected set ends the request, whatever the later budgets would give |
| Generation.AcceptedSetFromFirstRung | app.py:374-422 | an accepted set is the value of the first rung that yields one, with at least six elements |
| Generation.TypeCoverageNotEnforced | app.py:409-414 | six questions of a single type miss the expected types and are still accepted |
| Evaluation.Truncate | app.py:453-459 | a text within the limit is unchanged; a longer one becomes its first `limit` characters followed by `...` |
| Evaluation.TruncateIdempotent | app.py:453-459 | truncating twice is truncating once |
| Evaluation.TruncateDeterminedByPrefix | app.py:453-459 | equal truncations come from texts that agree on their first `limit` characters, are both empty or both not, and are equal when either is within the limit |
| Evaluation.Clamp | app.py:544 | the result is in [0, 10], equal to the input inside the range, and 0 or 10 outside it |
| Evaluation.CapFeedback | app.py:552-554 | the 100-word cap; no contract of its own, `CapFeedbackWords` states it |
| Evaluation.CapFeedbackWords | app.py:552-554 | capped feedback has at most 100 words; up to 100 words are unchanged; a longer text keeps its first 99 words and the 100th with `...` |
| Evaluation.CapFeedbackIdempotent | app.py:552-554 | capping twice is capping once |
| Evaluation.ShortTextIsShortFeedback | app.py:552-554 | a text of at most 100 characters is left unchanged by the cap |
| Evaluation.WithDefaults | app.py:523-539 | the evaluation always holds `feedback` and `score` before they are fixed |
| Evaluation.FixedScore | app.py:541-546 | the fixed score is in [0, 10], and there is none exactly when the raw score is an infinite float |
| Evaluation.FixedFeedback | app.py:548-554 | the fixed feedback has at most 100 words |
| Evaluation.Normalised | app.py:523-554 | post-processing yields a well-formed evaluation with the parsed dict's keys plus the defaults, and fails exactly on an infinite score |
| Evaluation.ApplyDefaults | app.py:523-539 | the in-place substitutions produce exactly `WithDefaults` |
| Evaluation.NormaliseEvaluation | app.py:523-554 | the in-place updates produce exactly `Normalised` |
| Evaluation.NormalisedEntries | app.py:541-554 | the final score and feedback are the fixed forms of the defaulted ones |
| Evaluation.DefaultsOfDict | app.py:535-539 | a missing score defaults to 5 and a missing feedback to the not-available message |
| Evaluation.ScoreRule | app.py:538-546 | a convertible score is clamped, a rejected one becomes 5, and an infinite one ends the post-processing |
| Evaluation.FeedbackRule | app.py:535-554 | string feedback is capped, non-string feedback becomes the format-error message, and missing feedback the not-available message |
| Evaluation.NonDictIsInvalidFormat | app.py:532-533 | a truthy parsed value that is not a dict becomes the "invalid format" evaluation with score 5, and post-processing keeps it as it is |
| Evaluation.OtherKeysKept | app.py:531-554 | every other key of the parsed dict is kept with its value |
| Evaluation.WellFormedIsFixedPoint | app.py:531-554 | a well-formed evaluation passes through unchanged |
| Evaluation.NormalisedIdempotent | app.py:531-554 | post-processing twice is post-processing once |
| Evaluation.HighScoreClamped | app.py:543-544 | a score of 37 becomes 10 |
| Evaluation.NegativeScoreClamped | app.py:543-544 | a score of -4 becomes 0 |
| Evaluation.WordScoreDefaulted | app.py:542-546 | a score string that `int()` rejects becomes 5 |
| Evaluation.FractionalScoreTruncated | app.py:543-544 | a score of 7.9 becomes 7 |
| Evaluation.TechnicalFallbackWellFormed | app.py:559-568 | the outer `except`'s fallback is a well-formed evaluation |
| Evaluation.Respond | app.py:477-568 | once the request is built, the answer is always a well-formed evaluation |
| Evaluation.RespondTo | app.py:477-568 | the ladder, post-processing and fallback as run return exactly what `Respond` specifies |
| Evaluation.EvaluationSpec | app.py:443-568 | every evaluation the handler answers with is well-formed |
| Evaluation.EvaluateAnswer | app.py:443-568 | the handler returns exactly what `EvaluationSpec` specifies |
| Evaluation.MissingInputIffBlank | app.py:443-447 | the request is refused exactly when the question or the answer is blank, whatever the model would reply |
| Evaluation.FallbackWhenNothingParses | app.py:523-529 | when no rung yields a value, the answer is the "unable" evaluation with score 5 |
| Evaluation.NothingParsedIsUnable | app.py:523-529 | nothing parsed, or a falsy value, gives the "unable" evaluation |
| Evaluation.TruncatedInputsDecide | app.py:443-483 | inputs that strip and truncate to the same texts get the same answer |

## Left out

- **Flask plumbing:** the routes and their JSON bodies, template rendering, `/health`, `/test_api`, and the 404/500 handlers.
- **Request checks before `role`, `question` and `answer` are read:** the "client unavailable" 500 and the "no data" 400.
- **Error bodies:** the text of the error messages. Only the error kinds and the status codes are modelled.
- **Environment and start-up:** client creation, loading the environment and `.env`, and the start-up output. These are configuration and I/O.
- **`call_gpt_model`:** it is an oracle from the call to a reply or a raised exception. Its network request, logging and empty-content-to-`""` mapping are inside the oracle.
- **Prompt text:** the prompt templates and the message lists. A call carries only the stripped role, or the truncated question and answer, and the budget.
- **Logging:** all of it, including the warning for missing question types.
- **`json.loads`:** it is a parameter. Its grammar is not modelled.
- **`int()` on strings:** Python's rules for integer strings are a parameter.
- **Non-string inputs:** a `None` argument to `extract_json_from_response` is not modelled, since both callers pass a string. The same goes for a non-string `role`, `question` or `answer`, which makes `.strip()` raise.
- **Unknown exceptions:** any exception inside `extract_json_from_response` other than a parse failure is not modelled. None can arise from the modelled string operations.
- Text.RemoveAll: its contract states only that the result is no longer than the input. What `replace` removes is stated by `RemoveAllKeepsPrefix`, `RemoveAllAbsent` and `FencesRemoved`.
