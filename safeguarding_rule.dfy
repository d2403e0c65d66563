/** The safeguarding rule: a remote model grades the comment for risk of harm
    ("No safeguarding", "Possibly Concerning", "Strongly Concerning") and gives
    its confidence; the grade becomes the rule's code. */
module Safeguarding {
  import opened Outcome
  import opened CommonFunctions
  import opened Services

  /** The rule's result: the code, the grade as a one-item list, and the
      model's confidence as the model wrote it. */
  datatype Assessment = Assessment(code: int, levels: seq<string>, probability: string)

  /** The code for a grade: "Possibly Concerning" fails, "Strongly
      Concerning" asks for a moderator, anything else passes. */
  function ConcernCode(grade: string): (code: int)
    ensures code == 1 <==> grade == "Possibly Concerning"
    ensures code == 2 <==> grade == "Strongly Concerning"
    ensures code == 0 <==> grade != "Possibly Concerning" && grade != "Strongly Concerning"
  {
    if grade == "Possibly Concerning" then 1
    else if grade == "Strongly Concerning" then 2
    else 0
  }

  /** `safeguarding_rule`: the reply is a mapping whose key "0" holds the
      grade and key "1" the confidence, read in that order. */
  function SafeguardingRule(text: string, env: Env, service: Request -> Reply<map<string, string>>): (r: Result<Assessment>)
    ensures r.Ok? ==> |r.value.levels| == 1 && r.value.code == ConcernCode(r.value.levels[0])
    ensures r.Err? ==> r.error in {AttributeError, ServiceError, KeyError("0"), KeyError("1")}
  {
    match Endpoint(env, "SafeguardingURL", "SafeguardingKey", false, Data(text))
    case Err(e) => Err(e)
    case Ok(req) =>
      match Call(service, req)
      case Err(e) => Err(e)
      case Ok(predicted) =>
        if "0" !in predicted then Err(KeyError("0"))
        else
          var grade := predicted["0"];
          if "1" !in predicted then Err(KeyError("1"))
          else Ok(Assessment(ConcernCode(grade), [grade], predicted["1"]))
  }

  /** A reply with both keys is reported as it came: the grade and the
      confidence are the model's, and an empty key is accepted. */
  lemma SafeguardingReportsReply(text: string, env: Env, service: Request -> Reply<map<string, string>>)
    requires "SafeguardingURL" in env && "SafeguardingKey" in env
    requires var req := Request(CorrectedUrl(env["SafeguardingURL"]), CleanedKey(env["SafeguardingKey"]), Data(text));
      service(req).Answer? && "0" in service(req).body && "1" in service(req).body
    ensures var req := Request(CorrectedUrl(env["SafeguardingURL"]), CleanedKey(env["SafeguardingKey"]), Data(text));
      var r := SafeguardingRule(text, env, service);
      && r.Ok?
      && r.value.levels == [service(req).body["0"]]
      && r.value.probability == service(req).body["1"]
  {
  }

  /** A reply without the grade fails before the confidence is read. */
  lemma SafeguardingGradeFirst(text: string, env: Env, service: Request -> Reply<map<string, string>>)
    requires "SafeguardingURL" in env && "SafeguardingKey" in env
    requires var req := Request(CorrectedUrl(env["SafeguardingURL"]), CleanedKey(env["SafeguardingKey"]), Data(text));
      service(req).Answer? && "0" !in service(req).body
    ensures SafeguardingRule(text, env, service) == Err(KeyError("0"))
  {
  }
}
