/**
 * The `/generate_questions` handler of app.py (app.py:323-430), from the
 * stripped role to the accepted question list or the error it answers with:
 * the retry ladder over four token budgets, then the acceptance checks on
 * the parsed value.
 */
module Generation {
  import opened Wrappers
  import opened Values
  import opened Text
  import opened Ladder

  /** The `max_tokens_options` of the generation ladder. */
  const GenerateBudgets: seq<nat> := [2500, 3000, 2000, 1800]

  /** The number of questions a set must have. */
  const RequiredQuestions := 6

  /** The question types a set should cover; a missing one is only logged. */
  const ExpectedTypes: set<string> := {"Aptitude", "CodeCompletion", "TrickyCoding", "TechCodeCompletion", "Technical", "HR"}

  /** Why the handler answered with an error. */
  datatype GenError =
    | RoleRequired                     // empty role after strip
    | NoValidQuestions                 // nothing (truthy) came out of the ladder
    | NotAnArray                       // the parsed value is not a list
    | TooFewQuestions(count: nat)      // fewer than six elements
    | UnhashableType                   // a `type` value is a list or dict: the set comprehension raises TypeError
    | MissingFields(position: nat)     // 1-based position of the first element without `type` and `question`

  datatype Outcome = Questions(items: seq<Json>) | Failed(error: GenError)

  /** The HTTP status of an error answer: 400 for a bad request, 500 for everything raised inside the handler. */
  function Status(e: GenError): (code: int)
    ensures code == 400 <==> e.RoleRequired?
    ensures code == 400 || code == 500
  {
    if e.RoleRequired? then 400 else 500
  }

  /** `isinstance(q, dict) and 'question' in q and 'type' in q`. */
  predicate HasRequiredFields(q: Json)
  {
    q.JObject? && "question" in q.fields && "type" in q.fields
  }

  /** `q.get('type')` can go into a set: lists and dicts cannot. Non-dict elements are skipped. */
  predicate TypeHashable(q: Json)
  {
    !(q.JObject? && "type" in q.fields && (q.fields["type"].JArray? || q.fields["type"].JObject?))
  }

  /** `q.get('type')`: the value, or None when the key is missing. */
  function TypeOf(q: Json): Json
    requires q.JObject?
  {
    if "type" in q.fields then q.fields["type"] else JNull
  }

  /** `expected_types.issubset(found_types)`: every expected type is the `type` of some dict in the set. */
  predicate CoversExpectedTypes(items: seq<Json>)
  {
    forall t <- ExpectedTypes :: exists q <- items :: q.JObject? && TypeOf(q) == JStr(t)
  }

  /** The 1-based position of the first element that lacks a required field. */
  function FirstMissing(items: seq<Json>, from: nat): (r: Option<nat>)
    requires from <= |items|
    ensures r.Some? ==> from < r.value <= |items| && !HasRequiredFields(items[r.value - 1])
    ensures r.Some? ==> forall k :: from <= k < r.value - 1 ==> HasRequiredFields(items[k])
    ensures r.None? ==> forall k :: from <= k < |items| ==> HasRequiredFields(items[k])
    decreases |items| - from
  {
    if from == |items| then None
    else if !HasRequiredFields(items[from]) then Some(from + 1)
    else FirstMissing(items, from + 1)
  }

  /**
   * The checks after the ladder (app.py:399-419), in their order. A set is
   * accepted exactly when it is a list of at least six dicts that all have
   * `type` and `question`, and no `type` value is a list or dict.
   */
  function Acceptance(questions: Option<Json>): (r: Outcome)
    ensures r.Questions? <==>
              && questions.Some? && questions.value.JArray?
              && |questions.value.items| >= RequiredQuestions
              && (forall q <- questions.value.items :: HasRequiredFields(q) && TypeHashable(q))
    ensures r.Questions? ==> r.items == questions.value.items
    ensures r == Failed(NoValidQuestions) <==> questions.None? || !Truthy(questions.value)
    ensures r.Failed? ==> !r.error.RoleRequired?
  {
    if questions.None? || !Truthy(questions.value) then Failed(NoValidQuestions)
    else if !questions.value.JArray? then Failed(NotAnArray)
    else
      var items := questions.value.items;
      if |items| < RequiredQuestions then Failed(TooFewQuestions(|items|))
      else if exists q <- items :: !TypeHashable(q) then Failed(UnhashableType)
      else
        match FirstMissing(items, 0)
        case Some(p) => Failed(MissingFields(p))
        case None => Questions(items)
  }

  /** The set comprehension `found_types` (app.py:411): None where hashing a `type` value raises. */
  method FoundTypes(items: seq<Json>) returns (r: Option<set<Json>>)
    ensures r.None? <==> exists q <- items :: !TypeHashable(q)
    ensures r.Some? ==> r.value == set q | q in items && q.JObject? :: TypeOf(q)
  {
    var found: set<Json> := {};
    for k := 0 to |items|
      invariant forall q <- items[..k] :: TypeHashable(q)
      invariant found == set q | q in items[..k] && q.JObject? :: TypeOf(q)
    {
      var q := items[k];
      if !TypeHashable(q) {
        return None;
      }
      assert items[..k + 1] == items[..k] + [q];
      if q.JObject? {
        found := found + {TypeOf(q)};
      }
    }
    assert items[..|items|] == items;
    return Some(found);
  }

  /** The required-fields loop (app.py:416-419): the 1-based position of the first element it raises on. */
  method CheckRequiredFields(items: seq<Json>) returns (bad: Option<nat>)
    ensures bad.Some? ==> 0 < bad.value <= |items| && !HasRequiredFields(items[bad.value - 1])
    ensures bad.Some? ==> forall k :: 0 <= k < bad.value - 1 ==> HasRequiredFields(items[k])
    ensures bad.None? <==> forall q <- items :: HasRequiredFields(q)
  {
    for i := 0 to |items|
      invariant forall k :: 0 <= k < i ==> HasRequiredFields(items[k])
    {
      var q := items[i];
      if !(q.JObject? && "question" in q.fields && "type" in q.fields) {
        return Some(i + 1);
      }
    }
    return None;
  }

  /** The acceptance checks as the handler runs them. */
  method AcceptQuestions(questions: Option<Json>) returns (r: Outcome)
    ensures r == Acceptance(questions)
  {
    if questions.None? || !Truthy(questions.value) {
      return Failed(NoValidQuestions);
    }
    if !questions.value.JArray? {
      return Failed(NotAnArray);
    }
    var items := questions.value.items;
    if |items| < RequiredQuestions {
      return Failed(TooFewQuestions(|items|));
    }
    var found := FoundTypes(items);
    if found.None? {
      return Failed(UnhashableType);
    }
    var bad := CheckRequiredFields(items);
    if bad.Some? {
      assert FirstMissing(items, 0) == bad;
      return Failed(MissingFields(bad.value));
    }
    return Questions(items);
  }

  /** What the handler answers for a role, given the model's replies and the parser. */
  function GenerationSpec(role: string, model: Model, decode: Decoder): (r: Outcome)
    ensures r == Failed(RoleRequired) <==> AllSpace(role)
  {
    var r := Strip(role);
    if r == [] then Failed(RoleRequired)
    else Acceptance(LadderValue(Climb(GenerateRequest(r), GenerateBudgets, model, decode, false)))
  }

  /** `generate_questions` from `role = data.get('role', '').strip()` on. */
  method GenerateQuestions(role: string, model: Model, decode: Decoder) returns (r: Outcome)
    ensures r == GenerationSpec(role, model, decode)
  {
    var stripped := Strip(role);
    if stripped == [] {
      return Failed(RoleRequired);
    }
    var rung := RunLadder(GenerateRequest(stripped), GenerateBudgets, model, decode, false);
    var questions := LadderValue(rung);
    r := AcceptQuestions(questions);
  }

  /** A blank role is refused with 400 before any call is made: the model's replies do not matter. */
  lemma BlankRoleRefused(role: string, m1: Model, m2: Model, decode: Decoder)
    requires AllSpace(role)
    ensures GenerationSpec(role, m1, decode) == Failed(RoleRequired)
    ensures GenerationSpec(role, m1, decode) == GenerationSpec(role, m2, decode)
    ensures Status(GenerationSpec(role, m1, decode).error) == 400
  {
  }

  /**
   * A set is checked once, after the ladder: if the first budget's reply
   * parses to a value that fails the checks, the handler fails, whatever
   * the later budgets would have produced. There is no retry on a bad set.
   */
  lemma NoRetryOnRejectedSet(role: string, model: Model, decode: Decoder, v: Json)
    requires Strip(role) != []
    requires Attempt(GenerateRequest(Strip(role)), GenerateBudgets[0], model, decode, false) == Some(v)
    requires !Acceptance(Some(v)).Questions?
    ensures GenerationSpec(role, model, decode) == Acceptance(Some(v))
    ensures GenerationSpec(role, model, decode).Failed?
  {
    var os := Attempts(GenerateRequest(Strip(role)), GenerateBudgets, model, decode, false);
    assert os[0] == Some(v);
  }

  /** An accepted set is the parsed value of the first rung that yields one. */
  lemma AcceptedSetFromFirstRung(role: string, model: Model, decode: Decoder)
    requires GenerationSpec(role, model, decode).Questions?
    ensures Climb(GenerateRequest(Strip(role)), GenerateBudgets, model, decode, false).Some?
    ensures Climb(GenerateRequest(Strip(role)), GenerateBudgets, model, decode, false).value.value
            == JArray(GenerationSpec(role, model, decode).items)
    ensures |GenerationSpec(role, model, decode).items| >= RequiredQuestions
  {
  }

  /** Six questions of one type are accepted: a set that misses expected types is only logged, not refused. */
  lemma TypeCoverageNotEnforced()
    ensures
      var q := JObject(map["type" := JStr("HR"), "question" := JStr("Why this role?")]);
      && !CoversExpectedTypes([q, q, q, q, q, q])
      && Acceptance(Some(JArray([q, q, q, q, q, q]))) == Questions([q, q, q, q, q, q])
  {
    var q := JObject(map["type" := JStr("HR"), "question" := JStr("Why this role?")]);
    assert HasRequiredFields(q) && TypeHashable(q);
    assert "Aptitude" in ExpectedTypes;
    assert TypeOf(q) == JStr("HR") != JStr("Aptitude");
  }
}
