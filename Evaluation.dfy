/**
 * The `/evaluate` handler of app.py (app.py:432-568): the input truncation,
 * the retry ladder over four token budgets, and the normalisation that
 * turns whatever was parsed into an evaluation with an integer score in
 * [0, 10] and a feedback string of at most 100 words.
 */
module Evaluation {
  import opened Wrappers
  import opened Values
  import opened Text
  import opened Ladder

  /** The `max_tokens_options` of the evaluation ladder. */
  const EvaluateBudgets: seq<nat> := [600, 800, 400, 1000]

  const MaxQuestionLength: nat := 1000
  const MaxAnswerLength: nat := 2000
  const MaxFeedbackWords: nat := 100
  const DefaultScore: int := 5

  const UnableFeedback := "Unable to generate detailed feedback due to technical issues. Please review the response manually."
  const InvalidFormatFeedback := "Invalid evaluation format"
  const MissingFeedback := "Feedback not available due to technical issues."
  const FeedbackFormatError := "Feedback format error - please try again."
  const TechnicalFeedback := "Technical error occurred during evaluation. Please try again or review manually."

  /** The evaluation used when the ladder leaves nothing truthy. */
  const UnableFallback: map<string, Json> := map["feedback" := JStr(UnableFeedback), "score" := JInt(DefaultScore)]

  /** The evaluation substituted for a parsed value that is not a dict. */
  const InvalidFormatFallback: map<string, Json> := map["feedback" := JStr(InvalidFormatFeedback), "score" := JInt(DefaultScore)]

  /** The answer of the outer `except`: an exception escaped the handler. */
  const TechnicalFallback: map<string, Json> := map["feedback" := JStr(TechnicalFeedback), "score" := JInt(DefaultScore)]

  /** `s[:limit] + "..."` when `s` is longer than `limit`, else `s`. */
  function Truncate(s: string, limit: nat): (r: string)
    ensures |s| <= limit ==> r == s
    ensures |s| > limit ==> |r| == limit + 3 && r[..limit] == s[..limit] && r[limit..] == "..."
  {
    if |s| > limit then s[..limit] + "..." else s
  }

  /** Truncating twice is truncating once: the added `...` takes the result no further. */
  lemma TruncateIdempotent(s: string, limit: nat)
    ensures Truncate(Truncate(s, limit), limit) == Truncate(s, limit)
  {
    if |s| > limit {
      var r := Truncate(s, limit);
      assert r[..limit] + "..." == r;
    }
  }

  /** Truncation keeps a text empty or non-empty, and only the first `limit` characters matter. */
  lemma TruncateDeterminedByPrefix(s: string, t: string, limit: nat)
    requires Truncate(s, limit) == Truncate(t, limit)
    ensures s == [] <==> t == []
    ensures |s| <= limit || |t| <= limit ==> s == t
    ensures s[..if |s| < limit then |s| else limit] == t[..if |t| < limit then |t| else limit]
  {
  }

  /** `max(0, min(10, score))`. */
  function Clamp(n: int): (r: int)
    ensures 0 <= r <= 10
    ensures 0 <= n <= 10 ==> r == n
    ensures n < 0 ==> r == 0
    ensures n > 10 ==> r == 10
  {
    if n < 0 then 0 else if n > 10 then 10 else n
  }

  /** At most 100 whitespace-separated words; a longer text becomes its first 100 words and `...`. */
  function CapFeedback(s: string): string
  {
    var words := Words(s);
    if |words| > MaxFeedbackWords then Join(words[..MaxFeedbackWords]) + "..." else s
  }

  /**
   * Capping leaves a text of at most 100 words unchanged; a longer text keeps
   * its first 99 words and its 100th word with `...` attached.
   */
  lemma CapFeedbackWords(s: string)
    ensures |Words(CapFeedback(s))| <= MaxFeedbackWords
    ensures |Words(s)| <= MaxFeedbackWords ==> CapFeedback(s) == s
    ensures |Words(s)| > MaxFeedbackWords ==>
              Words(CapFeedback(s)) == Words(s)[..MaxFeedbackWords - 1] + [Words(s)[MaxFeedbackWords - 1] + "..."]
  {
    var ws := Words(s);
    if |ws| > MaxFeedbackWords {
      var kept := ws[..MaxFeedbackWords];
      var last := kept[MaxFeedbackWords - 1] + "...";
      var marked := kept[..MaxFeedbackWords - 1] + [last];
      JoinAppend(kept, "...");
      assert IsWord(kept[MaxFeedbackWords - 1]);
      assert IsWord(last);
      assert forall w <- marked :: IsWord(w);
      WordsOfJoin(marked);
    }
  }

  /** Capping twice is capping once. */
  lemma CapFeedbackIdempotent(s: string)
    ensures CapFeedback(CapFeedback(s)) == CapFeedback(s)
  {
    CapFeedbackWords(s);
  }

  /** What the handler promises about the evaluation it answers with. */
  predicate WellFormed(m: map<string, Json>)
  {
    && "score" in m && m["score"].JInt? && 0 <= m["score"].i <= 10
    && "feedback" in m && m["feedback"].JStr? && |Words(m["feedback"].s)| <= MaxFeedbackWords
  }

  /** A text no longer than 100 characters has at most 100 words. */
  lemma ShortTextIsShortFeedback(s: string)
    requires |s| <= MaxFeedbackWords
    ensures CapFeedback(s) == s && |Words(s)| <= MaxFeedbackWords
  {
  }

  /** The fallback substitutions and the default keys (app.py:523-539), before score and feedback are fixed. */
  function WithDefaults(parsed: Option<Json>): (m: map<string, Json>)
    ensures "feedback" in m && "score" in m
  {
    if parsed.None? || !Truthy(parsed.value) then UnableFallback
    else if !parsed.value.JObject? then InvalidFormatFallback
    else
      var f := parsed.value.fields;
      var f' := if "feedback" in f then f else f["feedback" := JStr(MissingFeedback)];
      if "score" in f' then f' else f'["score" := JInt(DefaultScore)]
  }

  /**
   * The score fix of app.py:541-546: `int()` of the raw score clamped to
   * [0, 10], or 5 where `int()` raises ValueError or TypeError. None where it
   * raises OverflowError (an infinite float), which that handler does not catch.
   */
  function FixedScore(raw: Json, strToInt: string -> Option<int>): (r: Option<int>)
    ensures r.None? <==> raw in {JFloat(PosInf), JFloat(NegInf)}
    ensures r.Some? ==> 0 <= r.value <= 10
  {
    match ToInt(raw, strToInt)
    case Converted(n) => Some(Clamp(n))
    case Rejected => Some(DefaultScore)
    case Overflowed => None
  }

  /** The feedback fix of app.py:549-554: a string is capped at 100 words, anything else replaced. */
  function FixedFeedback(raw: Json): (r: string)
    ensures |Words(r)| <= MaxFeedbackWords
  {
    if raw.JStr? then
      CapFeedbackWords(raw.s);
      CapFeedback(raw.s)
    else
      ShortTextIsShortFeedback(FeedbackFormatError);
      FeedbackFormatError
  }

  /**
   * The post-processing of app.py:523-554: None where `int()` raises
   * OverflowError and the handler falls through to its outer `except`;
   * otherwise a well-formed evaluation with the keys of the parsed dict.
   */
  function Normalised(parsed: Option<Json>, strToInt: string -> Option<int>): (r: Option<map<string, Json>>)
    ensures r.None? <==> WithDefaults(parsed)["score"] in {JFloat(PosInf), JFloat(NegInf)}
    ensures r.Some? ==> WellFormed(r.value)
    ensures r.Some? ==> r.value.Keys == WithDefaults(parsed).Keys
  {
    var m := WithDefaults(parsed);
    match FixedScore(m["score"], strToInt)
    case None => None
    case Some(score) => Some(m["score" := JInt(score)]["feedback" := JStr(FixedFeedback(m["feedback"]))])
  }

  /** The substitutions and default keys of app.py:523-539, as the handler applies them. */
  method ApplyDefaults(parsed: Option<Json>) returns (evaluation: map<string, Json>)
    ensures evaluation == WithDefaults(parsed)
  {
    var value: Json;
    if parsed.None? || !Truthy(parsed.value) {
      value := JObject(map["feedback" := JStr(UnableFeedback), "score" := JInt(DefaultScore)]);
    } else {
      value := parsed.value;
    }
    if !value.JObject? {
      value := JObject(map["feedback" := JStr(InvalidFormatFeedback), "score" := JInt(DefaultScore)]);
    }
    evaluation := value.fields;
    if "feedback" !in evaluation {
      evaluation := evaluation["feedback" := JStr(MissingFeedback)];
    }
    if "score" !in evaluation {
      evaluation := evaluation["score" := JInt(DefaultScore)];
    }
  }

  /** The evaluation dict updated in place, step by step, as the handler does. */
  method NormaliseEvaluation(parsed: Option<Json>, strToInt: string -> Option<int>) returns (r: Option<map<string, Json>>)
    ensures r == Normalised(parsed, strToInt)
  {
    var evaluation := ApplyDefaults(parsed);
    ghost var m := evaluation;
    match ToInt(evaluation["score"], strToInt) {
      case Converted(n) =>
        evaluation := evaluation["score" := JInt(Clamp(n))];
      case Rejected =>
        evaluation := evaluation["score" := JInt(DefaultScore)];
      case Overflowed =>
        return None;
    }
    ghost var scored := evaluation;
    assert scored == m["score" := JInt(FixedScore(m["score"], strToInt).value)];
    var feedback := evaluation["feedback"];
    assert feedback == m["feedback"];
    if !feedback.JStr? {
      evaluation := evaluation["feedback" := JStr(FeedbackFormatError)];
    } else {
      var words := Words(feedback.s);
      if |words| > MaxFeedbackWords {
        evaluation := evaluation["feedback" := JStr(Join(words[..MaxFeedbackWords]) + "...")];
      } else {
        evaluation := evaluation["feedback" := feedback];
      }
    }
    assert evaluation == scored["feedback" := JStr(FixedFeedback(m["feedback"]))];
    return Some(evaluation);
  }

  /** Where the normalised score and feedback come from. */
  lemma NormalisedEntries(parsed: Option<Json>, strToInt: string -> Option<int>)
    requires Normalised(parsed, strToInt).Some?
    ensures Normalised(parsed, strToInt).value["score"] == JInt(FixedScore(WithDefaults(parsed)["score"], strToInt).value)
    ensures Normalised(parsed, strToInt).value["feedback"] == JStr(FixedFeedback(WithDefaults(parsed)["feedback"]))
  {
  }

  /** The defaults a non-empty parsed dict receives for its missing keys. */
  lemma DefaultsOfDict(fields: map<string, Json>)
    requires fields != map[]
    ensures WithDefaults(Some(JObject(fields)))["score"] == if "score" in fields then fields["score"] else JInt(DefaultScore)
    ensures WithDefaults(Some(JObject(fields)))["feedback"] == if "feedback" in fields then fields["feedback"] else JStr(MissingFeedback)
  {
  }

  /**
   * The score rule: the raw score (5 when missing) is converted with `int()`;
   * a converted value is clamped to [0, 10], one `int()` rejects becomes 5,
   * and an infinite one ends the request in the technical fallback.
   */
  lemma ScoreRule(fields: map<string, Json>, strToInt: string -> Option<int>)
    requires fields != map[]
    ensures
      var raw := if "score" in fields then fields["score"] else JInt(DefaultScore);
      var r := Normalised(Some(JObject(fields)), strToInt);
      && (ToInt(raw, strToInt).Converted? ==> r.Some? && r.value["score"] == JInt(Clamp(ToInt(raw, strToInt).n)))
      && (ToInt(raw, strToInt).Rejected? ==> r.Some? && r.value["score"] == JInt(DefaultScore))
      && (ToInt(raw, strToInt).Overflowed? ==> r.None?)
  {
    DefaultsOfDict(fields);
    if Normalised(Some(JObject(fields)), strToInt).Some? {
      NormalisedEntries(Some(JObject(fields)), strToInt);
    }
  }

  /**
   * The feedback rule: a string is capped at 100 words, any other value is
   * replaced by the format-error message, and a missing one by the
   * not-available message.
   */
  lemma FeedbackRule(fields: map<string, Json>, strToInt: string -> Option<int>)
    requires fields != map[]
    requires Normalised(Some(JObject(fields)), strToInt).Some?
    ensures
      var fb := Normalised(Some(JObject(fields)), strToInt).value["feedback"];
      && ("feedback" !in fields ==> fb == JStr(MissingFeedback))
      && ("feedback" in fields && fields["feedback"].JStr? ==> fb == JStr(CapFeedback(fields["feedback"].s)))
      && ("feedback" in fields && !fields["feedback"].JStr? ==> fb == JStr(FeedbackFormatError))
  {
    DefaultsOfDict(fields);
    NormalisedEntries(Some(JObject(fields)), strToInt);
    ShortTextIsShortFeedback(MissingFeedback);
  }

  /** Every key of a parsed dict other than `score` and `feedback` is kept as it was. */
  lemma OtherKeysKept(fields: map<string, Json>, strToInt: string -> Option<int>, key: string)
    requires fields != map[]
    requires key in fields && key != "score" && key != "feedback"
    requires Normalised(Some(JObject(fields)), strToInt).Some?
    ensures key in Normalised(Some(JObject(fields)), strToInt).value
    ensures Normalised(Some(JObject(fields)), strToInt).value[key] == fields[key]
  {
    DefaultsKeepKey(fields, key);
  }

  lemma DefaultsKeepKey(fields: map<string, Json>, key: string)
    requires fields != map[]
    requires key in fields && key != "score" && key != "feedback"
    ensures key in WithDefaults(Some(JObject(fields))) && WithDefaults(Some(JObject(fields)))[key] == fields[key]
  {
  }

  /** A well-formed evaluation passes through the post-processing unchanged. */
  lemma WellFormedIsFixedPoint(m: map<string, Json>, strToInt: string -> Option<int>)
    requires WellFormed(m)
    ensures Normalised(Some(JObject(m)), strToInt) == Some(m)
  {
    assert "score" in m;
    assert WithDefaults(Some(JObject(m))) == m;
    CapFeedbackWords(m["feedback"].s);
    assert m["score" := m["score"]]["feedback" := m["feedback"]] == m;
  }

  /** Post-processing twice is post-processing once. */
  lemma NormalisedIdempotent(parsed: Option<Json>, strToInt: string -> Option<int>)
    requires Normalised(parsed, strToInt).Some?
    ensures Normalised(Some(JObject(Normalised(parsed, strToInt).value)), strToInt) == Normalised(parsed, strToInt)
  {
    WellFormedIsFixedPoint(Normalised(parsed, strToInt).value, strToInt);
  }

  /** A score above the range is clamped to 10. */
  lemma HighScoreClamped(strToInt: string -> Option<int>)
    ensures Normalised(Some(JObject(map["score" := JInt(37)])), strToInt).value["score"] == JInt(10)
  {
    var fields := map["score" := JInt(37)];
    assert "score" in fields;
    ScoreRule(fields, strToInt);
  }

  /** A negative score is clamped to 0. */
  lemma NegativeScoreClamped(strToInt: string -> Option<int>)
    ensures Normalised(Some(JObject(map["score" := JInt(-4)])), strToInt).value["score"] == JInt(0)
  {
    var fields := map["score" := JInt(-4)];
    assert "score" in fields;
    ScoreRule(fields, strToInt);
  }

  /** A score string `int()` rejects becomes 5. */
  lemma WordScoreDefaulted(strToInt: string -> Option<int>)
    requires strToInt("seven") == None
    ensures Normalised(Some(JObject(map["score" := JStr("seven")])), strToInt).value["score"] == JInt(5)
  {
    var fields := map["score" := JStr("seven")];
    assert "score" in fields;
    ScoreRule(fields, strToInt);
  }

  /** A fractional score is truncated toward zero. */
  lemma FractionalScoreTruncated(strToInt: string -> Option<int>)
    ensures Normalised(Some(JObject(map["score" := JFloat(Finite(7.9))])), strToInt).value["score"] == JInt(7)
  {
    var fields := map["score" := JFloat(Finite(7.9))];
    assert "score" in fields;
    ScoreRule(fields, strToInt);
  }

  /** The technical fallback is itself a well-formed evaluation. */
  lemma TechnicalFallbackWellFormed()
    ensures WellFormed(TechnicalFallback)
  {
    ShortTextIsShortFeedback(TechnicalFeedback);
  }

  /** What `evaluate` answers. */
  datatype Response =
    | MissingInput                              // 400: question or answer blank
    | Evaluated(evaluation: map<string, Json>)  // 200, or the technical fallback

  /** The answer once the request is built: the ladder, then the post-processing or the technical fallback. */
  function Respond(request: Request, model: Model, decode: Decoder, strToInt: string -> Option<int>): (r: Response)
    ensures r.Evaluated? && WellFormed(r.evaluation)
  {
    match Normalised(LadderValue(Climb(request, EvaluateBudgets, model, decode, true)), strToInt)
    case None =>
      TechnicalFallbackWellFormed();
      Evaluated(TechnicalFallback)
    case Some(m) => Evaluated(m)
  }

  /** What the handler answers for a question and an answer, given the model's replies and the parser. */
  function EvaluationSpec(question: string, answer: string, model: Model, decode: Decoder, strToInt: string -> Option<int>): (r: Response)
    ensures r.Evaluated? ==> WellFormed(r.evaluation)
  {
    var q := Strip(question);
    var a := Strip(answer);
    if q == [] || a == [] then MissingInput
    else Respond(EvaluateRequest(Truncate(q, MaxQuestionLength), Truncate(a, MaxAnswerLength)), model, decode, strToInt)
  }

  /** `evaluate` from `question = data.get('question', '').strip()` on. */
  method EvaluateAnswer(question: string, answer: string, model: Model, decode: Decoder, strToInt: string -> Option<int>)
    returns (r: Response)
    ensures r == EvaluationSpec(question, answer, model, decode, strToInt)
  {
    var q := Strip(question);
    var a := Strip(answer);
    if q == [] || a == [] {
      return MissingInput;
    }
    r := RespondTo(EvaluateRequest(Truncate(q, MaxQuestionLength), Truncate(a, MaxAnswerLength)), model, decode, strToInt);
  }

  /** The rest of `evaluate` once the prompt is built: the ladder, the post-processing, the outer `except`. */
  method RespondTo(request: Request, model: Model, decode: Decoder, strToInt: string -> Option<int>) returns (r: Response)
    ensures r == Respond(request, model, decode, strToInt)
  {
    var rung := RunLadder(request, EvaluateBudgets, model, decode, true);
    var evaluation := LadderValue(rung);
    var normalised := NormaliseEvaluation(evaluation, strToInt);
    if normalised.None? {
      return Evaluated(TechnicalFallback);
    }
    return Evaluated(normalised.value);
  }

  /** The request is refused with 400 exactly when the question or the answer is blank, before any call to the model. */
  lemma MissingInputIffBlank(question: string, answer: string, m1: Model, m2: Model, decode: Decoder, strToInt: string -> Option<int>)
    ensures EvaluationSpec(question, answer, m1, decode, strToInt).MissingInput? <==> AllSpace(question) || AllSpace(answer)
    ensures AllSpace(question) || AllSpace(answer) ==>
              EvaluationSpec(question, answer, m1, decode, strToInt) == EvaluationSpec(question, answer, m2, decode, strToInt)
  {
  }

  /** When no rung yields a value, the answer is the fixed "unable" evaluation with score 5. */
  lemma FallbackWhenNothingParses(question: string, answer: string, model: Model, decode: Decoder, strToInt: string -> Option<int>)
    requires !AllSpace(question) && !AllSpace(answer)
    requires
      var request := EvaluateRequest(Truncate(Strip(question), MaxQuestionLength), Truncate(Strip(answer), MaxAnswerLength));
      forall k :: 0 <= k < |EvaluateBudgets| ==> Attempt(request, EvaluateBudgets[k], model, decode, true).None?
    ensures EvaluationSpec(question, answer, model, decode, strToInt) == Evaluated(UnableFallback)
  {
    var request := EvaluateRequest(Truncate(Strip(question), MaxQuestionLength), Truncate(Strip(answer), MaxAnswerLength));
    assert EvaluationSpec(question, answer, model, decode, strToInt) == Respond(request, model, decode, strToInt);
    NoRungWithoutValue(request, EvaluateBudgets, model, decode, true);
    NothingParsedIsUnable(None, strToInt);
  }

  /** A ladder that leaves nothing, or a falsy value such as `[]` or `{}`, gives the "unable" evaluation. */
  lemma NothingParsedIsUnable(parsed: Option<Json>, strToInt: string -> Option<int>)
    requires parsed.None? || !Truthy(parsed.value)
    ensures Normalised(parsed, strToInt) == Some(UnableFallback)
  {
    var m := WithDefaults(parsed);
    assert m == UnableFallback;
    ShortTextIsShortFeedback(UnableFeedback);
    assert FixedScore(m["score"], strToInt) == Some(DefaultScore);
    assert FixedFeedback(m["feedback"]) == UnableFeedback;
    UpdateUnchanged(m, "score");
    UpdateUnchanged(m, "feedback");
  }

  /**
   * A truthy parsed value that is not a dict, such as a non-empty list, is
   * replaced by the "invalid format" evaluation with score 5, which the
   * score and feedback fixes then leave as it is.
   */
  lemma NonDictIsInvalidFormat(v: Json, strToInt: string -> Option<int>)
    requires Truthy(v) && !v.JObject?
    ensures WithDefaults(Some(v)) == InvalidFormatFallback
    ensures Normalised(Some(v), strToInt) == Some(InvalidFormatFallback)
  {
    var m := WithDefaults(Some(v));
    ShortTextIsShortFeedback(InvalidFormatFeedback);
    assert FixedScore(m["score"], strToInt) == Some(DefaultScore);
    assert FixedFeedback(m["feedback"]) == InvalidFormatFeedback;
    UpdateUnchanged(m, "score");
    UpdateUnchanged(m, "feedback");
  }

  /** Writing back the value a key already has changes nothing. */
  lemma UpdateUnchanged(m: map<string, Json>, key: string)
    requires key in m
    ensures m[key := m[key]] == m
  {
  }

  /**
   * Only the truncated inputs reach the model: two questions (and two
   * answers) that strip and truncate to the same text get the same answer.
   */
  lemma TruncatedInputsDecide(q1: string, q2: string, a1: string, a2: string, model: Model, decode: Decoder, strToInt: string -> Option<int>)
    requires Truncate(Strip(q1), MaxQuestionLength) == Truncate(Strip(q2), MaxQuestionLength)
    requires Truncate(Strip(a1), MaxAnswerLength) == Truncate(Strip(a2), MaxAnswerLength)
    ensures EvaluationSpec(q1, a1, model, decode, strToInt) == EvaluationSpec(q2, a2, model, decode, strToInt)
  {
    TruncateDeterminedByPrefix(Strip(q1), Strip(q2), MaxQuestionLength);
    TruncateDeterminedByPrefix(Strip(a1), Strip(a2), MaxAnswerLength);
    if Strip(q1) != [] && Strip(a1) != [] {
      var request := EvaluateRequest(Truncate(Strip(q1), MaxQuestionLength), Truncate(Strip(a1), MaxAnswerLength));
      assert EvaluationSpec(q1, a1, model, decode, strToInt) == Respond(request, model, decode, strToInt);
      assert EvaluationSpec(q2, a2, model, decode, strToInt) == Respond(request, model, decode, strToInt);
    }
  }
}
