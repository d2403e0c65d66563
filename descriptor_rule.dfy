/** The descriptor rule: a comment describing a person by an adjective and a
    noun from two fixed lists ("rude nurse") fails. A remote model proposes the
    adjective-noun pairs of the text; the rule keeps those whose adjective and
    noun are both listed. */
module Descriptions {
  import opened Outcome
  import opened Services

  /** The descriptor reported for a pair: `f"{pair[0]} {pair[1]}"`. */
  function Descriptor(pair: seq<string>): string
    requires |pair| >= 2
  {
    pair[0] + " " + pair[1]
  }

  /** A pair the loop can look at without an `IndexError`: it has a first
      item, and a second one whenever the first is a listed adjective. */
  predicate Readable(pair: seq<string>, adjectives: seq<string>) {
    |pair| >= 1 && (pair[0] in adjectives ==> |pair| >= 2)
  }

  /** A pair whose adjective and noun are both listed. */
  predicate Listed(pair: seq<string>, adjectives: seq<string>, nouns: seq<string>) {
    |pair| >= 2 && pair[0] in adjectives && pair[1] in nouns
  }

  /** The descriptors found among the model's pairs, in reply order. `pair[1]`
      is only read when `pair[0]` is a listed adjective; an empty pair, or a
      one-item pair whose item is a listed adjective, is an `IndexError`. */
  function Descriptors(pairs: seq<seq<string>>, adjectives: seq<string>, nouns: seq<string>): (r: Result<seq<string>>)
    ensures r.Ok? <==> forall k :: 0 <= k < |pairs| ==> Readable(pairs[k], adjectives)
    ensures r.Err? ==> r.error == IndexError
    ensures r.Ok? ==> |r.value| <= |pairs|
    ensures r.Ok? ==> forall d :: d in r.value <==>
      exists k :: 0 <= k < |pairs| && Listed(pairs[k], adjectives, nouns) && d == Descriptor(pairs[k])
  {
    if pairs == [] then Ok([])
    else
      var init := pairs[..|pairs| - 1];
      var pair := pairs[|pairs| - 1];
      assert forall k :: 0 <= k < |init| ==> init[k] == pairs[k];
      match Descriptors(init, adjectives, nouns)
      case Err(e) => Err(e)
      case Ok(found) =>
        if |pair| == 0 then Err(IndexError)
        else if pair[0] !in adjectives then Ok(found)
        else if |pair| < 2 then Err(IndexError)
        else if pair[1] in nouns then Ok(found + [Descriptor(pair)])
        else Ok(found)
  }

  /** The loop over `predicted_classes.values()`. */
  method CollectDescriptors(pairs: seq<seq<string>>, adjectives: seq<string>, nouns: seq<string>)
    returns (r: Result<seq<string>>)
    ensures r == Descriptors(pairs, adjectives, nouns)
  {
    var result: seq<string> := [];
    for k := 0 to |pairs|
      invariant Descriptors(pairs[..k], adjectives, nouns) == Ok(result)
    {
      var pair := pairs[k];
      assert pairs[..k + 1][..k] == pairs[..k];
      if |pair| == 0 {
        assert Descriptors(pairs[..k + 1], adjectives, nouns).Err?;
        DescriptorsErrStays(pairs, adjectives, nouns, k + 1);
        return Err(IndexError);
      }
      if pair[0] in adjectives {
        if |pair| < 2 {
          assert Descriptors(pairs[..k + 1], adjectives, nouns).Err?;
          DescriptorsErrStays(pairs, adjectives, nouns, k + 1);
          return Err(IndexError);
        }
        if pair[1] in nouns {
          result := result + [pair[0] + " " + pair[1]];
        }
      }
    }
    assert pairs[..|pairs|] == pairs;
    r := Ok(result);
  }

  /** Once a prefix of the pairs fails, the whole reply fails. */
  lemma DescriptorsErrStays(pairs: seq<seq<string>>, adjectives: seq<string>, nouns: seq<string>, n: nat)
    requires n <= |pairs| && Descriptors(pairs[..n], adjectives, nouns).Err?
    ensures Descriptors(pairs, adjectives, nouns) == Err(IndexError)
  {
    var k :| 0 <= k < n && !Readable(pairs[..n][k], adjectives);
    assert pairs[k] == pairs[..n][k];
  }

  /** What `descriptor_rule` returns: a non-string argument is a `ValueError`;
      the endpoint must have a non-empty key; the reply's pairs are scored. */
  function DescriptorRuleSpec(arg: Arg, env: Env, service: Request -> Reply<seq<seq<string>>>,
                              adjectives: seq<string>, nouns: seq<string>): (r: Result<Verdict>)
    ensures arg.NotText? ==> r == Err(ValueError("expected a string"))
    ensures r.Ok? ==> (r.value.code == 1 <==> r.value.values != []) && (r.value.code == 0 <==> r.value.values == [])
  {
    match arg
    case NotText => Err(ValueError("expected a string"))
    case Text(text) =>
      match Endpoint(env, "DescriptionsURL", "DescriptionsKey", true, Data(text))
      case Err(e) => Err(e)
      case Ok(req) =>
        match Call(service, req)
        case Err(e) => Err(e)
        case Ok(pairs) =>
          match Descriptors(pairs, adjectives, nouns)
          case Err(e) => Err(e)
          case Ok(found) => Ok(Scored(found))
  }

  /** `descriptor_rule`. */
  method DescriptorRule(arg: Arg, env: Env, service: Request -> Reply<seq<seq<string>>>,
                        adjectives: seq<string>, nouns: seq<string>) returns (r: Result<Verdict>)
    ensures r == DescriptorRuleSpec(arg, env, service, adjectives, nouns)
  {
    if arg.NotText? {
      return Err(ValueError("expected a string"));
    }
    var req := Endpoint(env, "DescriptionsURL", "DescriptionsKey", true, Data(arg.s));
    if req.Err? {
      return Err(req.error);
    }
    var reply := Call(service, req.value);
    if reply.Err? {
      return Err(reply.error);
    }
    var found := CollectDescriptors(reply.value, adjectives, nouns);
    if found.Err? {
      return Err(found.error);
    }
    r := Ok(Scored(found.value));
  }

  /** Errors come from the argument, the endpoint, the request, or a short pair. */
  lemma DescriptorRuleErrors(arg: Arg, env: Env, service: Request -> Reply<seq<seq<string>>>,
                             adjectives: seq<string>, nouns: seq<string>)
    ensures var r := DescriptorRuleSpec(arg, env, service, adjectives, nouns);
      r.Err? ==> r.error in {ValueError("expected a string"), AttributeError, MissingApiKey, ServiceError, IndexError}
  {
  }

  /** A listed pair is reported; a pair with an unlisted adjective is skipped
      even when it has no noun. */
  lemma DescriptorExample()
    ensures Descriptors([["rude", "nurse"], ["kind"]], ["rude"], ["nurse"]) == Ok(["rude nurse"])
  {
    var pairs: seq<seq<string>> := [["rude", "nurse"], ["kind"]];
    var first: seq<string> := ["rude", "nurse"];
    assert pairs[..1] == [first] && [first][..0] == [];
    assert first[0] in ["rude"] && first[1] in ["nurse"];
    assert Descriptors([], ["rude"], ["nurse"]) == Ok([]);
    assert [] + [Descriptor(first)] == [Descriptor(first)];
    assert Descriptors([first], ["rude"], ["nurse"]) == Ok([Descriptor(first)]);
    assert Descriptor(first) == "rude nurse";
    assert "kind" !in ["rude"];
  }
}
