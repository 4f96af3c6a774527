/**
 * The token-budget retry ladder shared by `generate_questions` and
 * `evaluate` (app.py:354-397 and 477-521): each budget in turn is sent to
 * the model, and the loop stops at the first rung whose reply yields a
 * parsed JSON value. The model itself (`call_gpt_model`) is an oracle from
 * the call it receives to its reply.
 */
module Ladder {
  import opened Wrappers
  import opened Values
  import opened Text
  import opened Recovery

  /** What the handler put into the conversation: the stripped role, or the truncated question and answer. */
  datatype Request = GenerateRequest(role: string) | EvaluateRequest(question: string, answer: string)

  /** One call of `call_gpt_model`: the conversation and the `max_tokens` budget. */
  datatype ModelCall = ModelCall(request: Request, maxTokens: nat)

  /** What `call_gpt_model` gives back: the reply text, or an exception. */
  datatype Reply = Content(text: string) | Raised

  type Model = ModelCall -> Reply

  /** The rung that stopped the ladder: its position in the budget list and the value it parsed. */
  datatype Rung = Rung(index: nat, value: Json)

  /**
   * What one rung of the loop body assigns before `break`, or None when it
   * reaches `continue`. With `skipBlank` (the evaluation ladder) a blank reply
   * is skipped before extraction. The branch that repairs an extracted text
   * that does not parse is kept as the source has it; `RepairNeverReached`
   * shows it never contributes.
   */
  function RungValue(reply: Reply, decode: Decoder, skipBlank: bool): (r: Option<Json>)
    ensures reply.Raised? ==> r.None?
    ensures r.Some? ==> ExtractSpec(reply.text, decode).Some?
  {
    match reply
    case Raised => None
    case Content(text) =>
      if skipBlank && (text == [] || Strip(text) == []) then None
      else
        match ExtractSpec(text, decode)
        case None => None
        case Some(jsonText) =>
          match decode(jsonText)
          case Some(v) => Some(v)
          case None =>
            match FixSpec(jsonText, decode)
            case None => None
            case Some(alternative) => decode(alternative)
  }

  /** The rung at budget `budget`. */
  function Attempt(request: Request, budget: nat, model: Model, decode: Decoder, skipBlank: bool): Option<Json>
  {
    RungValue(model(ModelCall(request, budget)), decode, skipBlank)
  }

  /** What every rung of the ladder would yield, budget by budget. */
  function Attempts(request: Request, budgets: seq<nat>, model: Model, decode: Decoder, skipBlank: bool): (os: seq<Option<Json>>)
    ensures |os| == |budgets|
    ensures forall k :: 0 <= k < |budgets| ==> os[k] == Attempt(request, budgets[k], model, decode, skipBlank)
  {
    seq(|budgets|, k requires 0 <= k < |budgets| => Attempt(request, budgets[k], model, decode, skipBlank))
  }

  /** The first rung at or after `from` that yields a value. */
  function FirstRung(outcomes: seq<Option<Json>>, from: nat): (r: Option<Rung>)
    requires from <= |outcomes|
    ensures r.Some? ==> from <= r.value.index < |outcomes| && outcomes[r.value.index] == Some(r.value.value)
    ensures r.Some? ==> forall k :: from <= k < r.value.index ==> outcomes[k].None?
    ensures r.None? ==> forall k :: from <= k < |outcomes| ==> outcomes[k].None?
    decreases |outcomes| - from
  {
    if from == |outcomes| then None
    else
      match outcomes[from]
      case Some(v) => Some(Rung(from, v))
      case None => FirstRung(outcomes, from + 1)
  }

  /** The rung that stops the ladder, if any. */
  function Climb(request: Request, budgets: seq<nat>, model: Model, decode: Decoder, skipBlank: bool): (r: Option<Rung>)
    ensures r.Some? ==> r.value.index < |budgets| && Attempt(request, budgets[r.value.index], model, decode, skipBlank) == Some(r.value.value)
    ensures r.Some? ==> forall k :: 0 <= k < r.value.index ==> Attempt(request, budgets[k], model, decode, skipBlank).None?
    ensures r.None? ==> forall k :: 0 <= k < |budgets| ==> Attempt(request, budgets[k], model, decode, skipBlank).None?
  {
    FirstRung(Attempts(request, budgets, model, decode, skipBlank), 0)
  }

  /** The value the ladder leaves in `questions` / `evaluation`. */
  function LadderValue(rung: Option<Rung>): Option<Json>
  {
    match rung
    case None => None
    case Some(rg) => Some(rg.value)
  }

  /**
   * The `for max_tokens in max_tokens_options` loop, with its `continue` and
   * `break` exits. The repair after a `JSONDecodeError` (app.py:378-393,
   * 503-517) cannot be reached, since the extracted text always parses.
   */
  method RunLadder(request: Request, budgets: seq<nat>, model: Model, decode: Decoder, skipBlank: bool) returns (r: Option<Rung>)
    ensures r == Climb(request, budgets, model, decode, skipBlank)
  {
    ghost var outcomes := Attempts(request, budgets, model, decode, skipBlank);
    for k := 0 to |budgets|
      invariant FirstRung(outcomes, 0) == FirstRung(outcomes, k)
    {
      var reply := model(ModelCall(request, budgets[k]));
      if reply.Raised? {
        continue;
      }
      var responseText := reply.text;
      if skipBlank && (responseText == [] || Strip(responseText) == []) {
        continue;
      }
      var jsonText := ExtractJson(responseText, decode);
      if jsonText.None? {
        continue;
      }
      var parsed := decode(jsonText.value);
      if parsed.None? {
        assert false;
      }
      return Some(Rung(k, parsed.value));
    }
    return None;
  }

  /**
   * The ladder's value is the parse of the text extracted from the reply:
   * `extract_json_from_response` only returns text that parses, so the
   * `JSONDecodeError` branch and its repair are dead.
   */
  lemma RepairNeverReached(reply: Reply, decode: Decoder, skipBlank: bool)
    requires reply.Content?
    requires !(skipBlank && Strip(reply.text) == [])
    ensures ExtractSpec(reply.text, decode).Some? ==> RungValue(reply, decode, skipBlank) == decode(ExtractSpec(reply.text, decode).value)
    ensures ExtractSpec(reply.text, decode).None? ==> RungValue(reply, decode, skipBlank).None?
    ensures RungValue(reply, decode, skipBlank).Some? ==> RungValue(reply, decode, skipBlank) == decode(ExtractSpec(reply.text, decode).value)
  {
  }

  /** The blank-reply check of the evaluation ladder changes no rung: a blank reply extracts to nothing anyway. */
  lemma BlankCheckRedundant(reply: Reply, decode: Decoder)
    ensures RungValue(reply, decode, true) == RungValue(reply, decode, false)
  {
    if reply.Content? && Strip(reply.text) == [] {
      BlankTextYieldsNothing(reply.text, decode);
    }
  }

  /** Outcomes that agree up to and including a rung that yields a value have the same first rung. */
  lemma {:induction false} FirstRungPrefix(o1: seq<Option<Json>>, o2: seq<Option<Json>>, from: nat, stop: nat)
    requires from <= stop < |o1| == |o2|
    requires o1[stop].Some?
    requires forall k :: from <= k <= stop ==> o1[k] == o2[k]
    ensures FirstRung(o1, from) == FirstRung(o2, from)
    decreases stop - from
  {
    if from < stop {
      FirstRungPrefix(o1, o2, from + 1, stop);
    }
  }

  /**
   * The ladder stops at the first rung that yields a value: two models whose
   * replies agree on every rung up to that one give the same outcome,
   * whatever they reply to the later budgets.
   */
  lemma LaterRungsIgnored(request: Request, budgets: seq<nat>, m1: Model, m2: Model, decode: Decoder, skipBlank: bool, stop: nat)
    requires stop < |budgets|
    requires Attempt(request, budgets[stop], m1, decode, skipBlank).Some?
    requires forall k :: 0 <= k <= stop ==> m1(ModelCall(request, budgets[k])) == m2(ModelCall(request, budgets[k]))
    ensures Climb(request, budgets, m1, decode, skipBlank) == Climb(request, budgets, m2, decode, skipBlank)
  {
    var o1 := Attempts(request, budgets, m1, decode, skipBlank);
    var o2 := Attempts(request, budgets, m2, decode, skipBlank);
    forall k | 0 <= k <= stop
      ensures o1[k] == o2[k]
    {
      assert m1(ModelCall(request, budgets[k])) == m2(ModelCall(request, budgets[k]));
    }
    FirstRungPrefix(o1, o2, 0, stop);
  }

  /** When no rung yields a value, the ladder ends with none. */
  lemma NoRungWithoutValue(request: Request, budgets: seq<nat>, model: Model, decode: Decoder, skipBlank: bool)
    requires forall k :: 0 <= k < |budgets| ==> Attempt(request, budgets[k], model, decode, skipBlank).None?
    ensures Climb(request, budgets, model, decode, skipBlank).None?
  {
    var os := Attempts(request, budgets, model, decode, skipBlank);
    assert forall k :: 0 <= k < |os| ==> os[k].None?;
  }

  /** When every call raises, the ladder ends with no value. */
  lemma AllRaisedGivesNothing(request: Request, budgets: seq<nat>, model: Model, decode: Decoder, skipBlank: bool)
    requires forall k :: 0 <= k < |budgets| ==> model(ModelCall(request, budgets[k])).Raised?
    ensures Climb(request, budgets, model, decode, skipBlank).None?
  {
    var os := Attempts(request, budgets, model, decode, skipBlank);
    forall k | 0 <= k < |budgets|
      ensures os[k].None?
    {
      assert model(ModelCall(request, budgets[k])).Raised?;
    }
  }
}
