/** The complaint rule: a remote model says whether the comment is a
    complaint. Its raw reply is text such as `[1]`; the character after the
    opening bracket is read as the answer. */
module Complaints {
  import opened Outcome
  import opened PyStr
  import opened Services

  /** The verdict for the model's answer: 1 is a complaint, any other number is not. */
  function ComplaintVerdict(answer: int): (v: Verdict)
    ensures v.code == 1 <==> answer == 1
    ensures v.code == 1 ==> v.values == ["Complaint"]
    ensures v.code != 1 ==> v == Verdict(0, ["No_Complaint"])
  {
    if answer == 1 then Verdict(1, ["Complaint"]) else Verdict(0, ["No_Complaint"])
  }

  /** `complaint_rule`: a non-string argument fails the assertion; the key
      must not be empty; `int(reply[1])` is the answer. */
  function ComplaintRule(arg: Arg, env: Env, service: Request -> Reply<string>): (r: Result<Verdict>)
    ensures arg.NotText? ==> r == Err(AssertionError)
    ensures r.Ok? ==> |r.value.values| == 1 && (r.value.code == 0 || r.value.code == 1)
  {
    match arg
    case NotText => Err(AssertionError)
    case Text(text) =>
      match Endpoint(env, "ComplaintsURL", "ComplaintsKey", true, DataList([text]))
      case Err(e) => Err(e)
      case Ok(req) =>
        match Call(service, req)
        case Err(e) => Err(e)
        case Ok(reply) => ReadReply(reply)
  }

  /** The model's raw reply read as `int(reply[1])`. */
  function ReadReply(reply: string): (r: Result<Verdict>)
    ensures r.Err? ==> r.error == IndexError || r.error.ValueError?
    ensures r.Ok? ==> |r.value.values| == 1 && (r.value.code == 0 || r.value.code == 1)
  {
    if |reply| < 2 then Err(IndexError)
    else
      match ParseInt([reply[1]])
      case Err(e) => Err(e)
      case Ok(answer) => Ok(ComplaintVerdict(answer))
  }

  /** The reply's second character decides: `1` is a complaint, another digit
      is not, anything else (or a reply too short to have one) is an error. */
  lemma ReplySecondChar(reply: string)
    ensures var r := ReadReply(reply);
      && (|reply| < 2 ==> r == Err(IndexError))
      && (|reply| >= 2 && IsAsciiDigit(reply[1]) ==> r.Ok? && (r.value.code == 1 <==> reply[1] == '1'))
      && (|reply| >= 2 && !IsAsciiDigit(reply[1]) ==> r.Err? && r.error.ValueError?)
  {
    if |reply| >= 2 {
      ParseIntOneChar(reply[1]);
    }
  }

  /** Once the request succeeds, the outcome depends on the reply's second
      character alone: `1` is a complaint, another digit is not, anything
      else (or a reply too short to have one) is an error. */
  lemma ComplaintReadsSecondChar(text: string, env: Env, service: Request -> Reply<string>, reply: string)
    requires var req := Endpoint(env, "ComplaintsURL", "ComplaintsKey", true, DataList([text]));
      req.Ok? && service(req.value) == Answer(reply)
    ensures var r := ComplaintRule(Text(text), env, service);
      && (|reply| < 2 ==> r == Err(IndexError))
      && (|reply| >= 2 && IsAsciiDigit(reply[1]) ==> r.Ok? && (r.value.code == 1 <==> reply[1] == '1'))
      && (|reply| >= 2 && !IsAsciiDigit(reply[1]) ==> r.Err? && r.error.ValueError?)
  {
    assert ComplaintRule(Text(text), env, service) == ReadReply(reply);
    ReplySecondChar(reply);
  }

  /** Errors come from the argument, the endpoint, the request, or the reply. */
  lemma ComplaintRuleErrors(arg: Arg, env: Env, service: Request -> Reply<string>)
    ensures var r := ComplaintRule(arg, env, service);
      r.Err? ==> r.error in {AssertionError, AttributeError, MissingApiKey, ServiceError, IndexError} || r.error.ValueError?
  {
  }
}
