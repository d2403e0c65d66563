/** The not-an-experience rule: a comment body that does not describe an
    experience of a service is sent back. Titles (sixty characters or fewer)
    are never sent to the model and always count as an experience. */
module NotAnExperience {
  import opened Outcome
  import opened Config
  import opened Services

  /** The verdict for the model's answer: 1 is not an experience, any other
      number is one. */
  function ExperienceVerdict(answer: int): (v: Verdict)
    ensures v.code == 1 <==> answer == 1
    ensures v.code == 1 ==> v.values == ["Not_an_experience"]
    ensures v.code != 1 ==> v == Verdict(0, ["Experience"])
  {
    if answer == 1 then Verdict(1, ["Not_an_experience"]) else Verdict(0, ["Experience"])
  }

  /** `not_experience_rule`: `len` of a value that is not a string (such as a
      number) is a `TypeError`; short texts are experiences; otherwise the key
      must not be empty and `int(reply["0"])` is the answer. */
  function NotExperienceRule(arg: Arg, env: Env, service: Request -> Reply<map<string, Json>>): (r: Result<Verdict>)
    ensures arg.NotText? ==> r == Err(TypeError)
    ensures arg.Text? && |arg.s| <= MaxTitleChars ==> r == Ok(Verdict(0, ["Experience"]))
    ensures r.Ok? ==> |r.value.values| == 1 && (r.value.code == 0 || r.value.code == 1)
  {
    match arg
    case NotText => Err(TypeError)
    case Text(text) =>
      if |text| <= MaxTitleChars then Ok(Verdict(0, ["Experience"]))
      else
        match Endpoint(env, "NotAnExperienceURL", "NotAnExperienceKey", true, DataList([text]))
        case Err(e) => Err(e)
        case Ok(req) =>
          match Call(service, req)
          case Err(e) => Err(e)
          case Ok(reply) => ReadReply(reply)
  }

  /** The model's reply read as `int(reply["0"])`. */
  function ReadReply(reply: map<string, Json>): (r: Result<Verdict>)
    ensures "0" !in reply ==> r == Err(KeyError("0"))
    ensures r.Ok? ==> |r.value.values| == 1 && (r.value.code == 0 || r.value.code == 1)
  {
    if "0" !in reply then Err(KeyError("0"))
    else
      match PyInt(reply["0"])
      case Err(e) => Err(e)
      case Ok(answer) => Ok(ExperienceVerdict(answer))
  }

  /** An answer of 1, given as a number, a boolean or a numeric string, reads
      as not an experience. */
  lemma ReplyOne(reply: map<string, Json>)
    requires "0" in reply && reply["0"] in {JInt(1), JBool(true), JStr("1")}
    ensures ReadReply(reply) == Ok(Verdict(1, ["Not_an_experience"]))
  {
    if reply["0"].JStr? {
      ParseIntOneChar('1');
      assert DigitValue('1') == 1;
      assert reply["0"].s == ['1'];
    }
  }

  /** A title is judged without the environment or the model: whatever they
      are, the result is the same. */
  lemma TitlesSkipTheModel(text: string, env1: Env, env2: Env,
                           service1: Request -> Reply<map<string, Json>>, service2: Request -> Reply<map<string, Json>>)
    requires |text| <= MaxTitleChars
    ensures NotExperienceRule(Text(text), env1, service1) == NotExperienceRule(Text(text), env2, service2)
  {
  }

  /** For a comment body, a numeric answer of 1, given as a number, a
      boolean or a numeric string, marks it as not an experience. */
  lemma BodyAnswerOne(text: string, env: Env, service: Request -> Reply<map<string, Json>>)
    requires |text| > MaxTitleChars
    requires var req := Endpoint(env, "NotAnExperienceURL", "NotAnExperienceKey", true, DataList([text]));
      req.Ok? && service(req.value).Answer? && "0" in service(req.value).body
      && service(req.value).body["0"] in {JInt(1), JBool(true), JStr("1")}
    ensures NotExperienceRule(Text(text), env, service) == Ok(Verdict(1, ["Not_an_experience"]))
  {
    var req := Endpoint(env, "NotAnExperienceURL", "NotAnExperienceKey", true, DataList([text]));
    assert NotExperienceRule(Text(text), env, service) == ReadReply(service(req.value).body);
    ReplyOne(service(req.value).body);
  }
}
