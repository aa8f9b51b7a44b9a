/** The meal-plan endpoint: a configuration check, a required-field check, the
    generation call, and the classification of failures by keywords in their
    message. */
module MealPlanRoute {
  import opened Wrappers
  import opened Text
  import opened AiService
  import opened Http

  const NotConfigured: string := "Server not configured. " + "Please contact support."
  const MissingFields: string := "Missing required fields: dietaryPreference, " + "activityLevel, and goal are required"
  const AuthenticationFailed: string := "Authentication failed. " + "Please contact support."
  const HighDemand: string := "Service temporarily unavailable due to " + "high demand. Please try again later."
  const RequestTimeout: string := "Request timeout. Please try again."
  const PlanFailed: string := "Failed to generate meal plan. " + "Please try again."

  /** The reply to a failure: the first rule whose keyword occurs in an `Error`'s
      message decides (case-sensitive); anything else, including a thrown value that
      is not an `Error`, is a 500. */
  function ErrorResponse(e: Thrown): (r: Response)
    ensures r.status in {401, 429, 408, 500}
    ensures e.OtherValue? ==> r.status == 500
    ensures r.status == 500 ==> r.body == ErrorBody(PlanFailed)
  {
    if e.ErrorValue? then
      var message := e.message;
      if Contains(message, "API key") || Contains(message, "authentication") then
        Response(401, ErrorBody(AuthenticationFailed))
      else if Contains(message, "rate limit") || Contains(message, "quota") then
        Response(429, ErrorBody(HighDemand))
      else if Contains(message, "timeout") then
        Response(408, ErrorBody(RequestTimeout))
      else
        Response(500, ErrorBody(PlanFailed))
    else
      Response(500, ErrorBody(PlanFailed))
  }

  /** The classification as a table: keywords, the status they select and the reply's
      message, tried in order. */
  datatype Rule = Rule(keywords: seq<string>, status: nat, message: string)

  const Rules: seq<Rule> := [
    Rule(["API key", "authentication"], 401, AuthenticationFailed),
    Rule(["rate limit", "quota"], 429, HighDemand),
    Rule(["timeout"], 408, RequestTimeout)
  ]

  predicate MentionsAny(message: string, keywords: seq<string>) {
    exists k :: 0 <= k < |keywords| && Contains(message, keywords[k])
  }

  /** The first rule with a keyword occurring in the message. */
  function FirstRule(rules: seq<Rule>, message: string): (r: Option<Rule>)
    ensures r.Some? ==> r.value in rules && MentionsAny(message, r.value.keywords)
    ensures r.None? <==> forall k :: 0 <= k < |rules| ==> !MentionsAny(message, rules[k].keywords)
  {
    if rules == [] then None
    else if MentionsAny(message, rules[0].keywords) then Some(rules[0])
    else FirstRule(rules[1..], message)
  }

  /** The cascade of checks answers exactly as the first matching rule of the table. */
  lemma ErrorResponseFollowsRules(message: string)
    ensures var rule := FirstRule(Rules, message);
      ErrorResponse(ErrorValue(message)) ==
        if rule.Some? then Response(rule.value.status, ErrorBody(rule.value.message))
        else Response(500, ErrorBody(PlanFailed))
  {
    assert Rules[1..] == [Rules[1], Rules[2]] && Rules[2..] == [Rules[2]] && Rules[3..] == [];
    assert MentionsAny(message, Rules[0].keywords) <==>
      Contains(message, "API key") || Contains(message, "authentication")
    by {
      assert Rules[0].keywords[0] == "API key" && Rules[0].keywords[1] == "authentication";
    }
    assert MentionsAny(message, Rules[1].keywords) <==>
      Contains(message, "rate limit") || Contains(message, "quota")
    by {
      assert Rules[1].keywords[0] == "rate limit" && Rules[1].keywords[1] == "quota";
    }
    assert MentionsAny(message, Rules[2].keywords) <==> Contains(message, "timeout") by {
      assert Rules[2].keywords[0] == "timeout";
    }
  }

  /** The message every generation failure carries has no 'A', 'h' or 'u', so it
      contains none of the other keywords. */
  lemma GenerationFailedLacksA(m: string)
    requires m == GenerationFailed
    ensures !Contains(m, "API key")
  {
    assert 'A' !in m;
    NotContainsWithout(m, "API key", 0);
  }

  lemma GenerationFailedLacksH(m: string)
    requires m == GenerationFailed
    ensures !Contains(m, "authentication")
  {
    assert 'h' !in m;
    NotContainsWithout(m, "authentication", 3);
  }

  lemma GenerationFailedLacksU(m: string)
    requires m == GenerationFailed
    ensures !Contains(m, "quota") && !Contains(m, "timeout")
  {
    assert 'u' !in m;
    NotContainsWithout(m, "quota", 1);
    NotContainsWithout(m, "timeout", 5);
  }

  /** Every letter l of that message is followed by something other than i. */
  lemma GenerationFailedLacksRateLimit(m: string)
    requires m == GenerationFailed
    ensures !Contains(m, "rate limit")
  {
    forall k | 0 <= k < |m| - 1 && m[k] == 'l' ensures m[k + 1] != 'i' {
      assert k == 3 || k == 22 || k == 25 || k == 31;
    }
    NotContainsWithoutPair(m, "rate limit", 5);
  }

  /** Hence every generation failure is answered with 500. */
  lemma GenerationFailureIs500(m: string)
    requires m == GenerationFailed
    ensures ErrorResponse(ErrorValue(m)) == Response(500, ErrorBody(PlanFailed))
  {
    GenerationFailedLacksA(m);
    GenerationFailedLacksH(m);
    GenerationFailedLacksU(m);
    GenerationFailedLacksRateLimit(m);
  }

  /** The required-field check: a field the client left out reads as "". */
  predicate MissingRequired(request: MealPlanRequest) {
    request.dietaryPreference == "" || request.activityLevel == "" || request.goal == ""
  }

  /** POST: 503 without an API key, before the body is looked at; 400 without a
      required field; otherwise the generated plan with 200, or the classified
      failure. `apiKey` is the configured key and `reply` what the completion service
      answered. */
  method Post(apiKey: Option<string>, request: MealPlanRequest, reply: Result<Completion, Thrown>)
    returns (resp: Response)
    ensures apiKey.None? || apiKey.value == "" ==> resp == Response(503, ErrorBody(NotConfigured))
    ensures apiKey.Some? && apiKey.value != "" && MissingRequired(request) ==>
      resp == Response(400, ErrorBody(MissingFields))
    ensures apiKey.Some? && apiKey.value != "" && !MissingRequired(request) ==>
      (resp.status == 200 <==> request.restrictions.Some? && reply.Success?
                               && reply.value.content.Some? && reply.value.content.value != "")
    ensures apiKey.Some? && apiKey.value != "" && !MissingRequired(request) ==>
      resp.status in {200, 500}
    ensures resp.status == 200 ==>
      var c := reply.value.content.value;
      resp.body == PlanBody(MealPlanResponse(CleanedText(c), c, reply.value.model, Meals(c), reply.value.usage))
    ensures resp.status in {503, 400, 200, 500}
    ensures resp.status == 500 ==> resp.body == ErrorBody(PlanFailed)
  {
    if apiKey.None? || apiKey.value == "" {
      return Response(503, ErrorBody(NotConfigured));
    }
    if MissingRequired(request) {
      return Response(400, ErrorBody(MissingFields));
    }
    var mealPlan := GenerateMealPlan(request, reply);
    if mealPlan.Failure? {
      GenerationFailureIs500(GenerationFailed);
      return ErrorResponse(mealPlan.error);
    }
    resp := Response(200, PlanBody(mealPlan.value));
  }
}
