/** The names rule: a comment that names a person is sent to a moderator.
    A remote model tags the person entities in the text; words that are never
    names are dropped, words that always are names are added, names resembling
    the organisation's are dropped, a sign-off with the author's name is allowed
    in a comment body, and the names are reported sorted. */
module Names {
  import opened Outcome
  import opened Seqs
  import opened PyStr
  import opened Sorting
  import opened Config
  import opened Services
  import opened NamesHelpers

  /** One decoded entity of the model's reply: its fields by name. */
  type Entity = map<string, string>

  /** `[x["word"].lower() for x in entities if x["entity_group"] == "PER"]`,
      failing with a `KeyError` at the first entity missing a field it reads. */
  function PersonWords(entities: seq<Entity>): (r: Result<seq<string>>)
    ensures r.Ok? <==> forall k :: 0 <= k < |entities| ==>
      "entity_group" in entities[k] && (entities[k]["entity_group"] == "PER" ==> "word" in entities[k])
    ensures r.Err? ==> r.error == KeyError("entity_group") || r.error == KeyError("word")
    ensures r.Ok? ==> forall w :: w in r.value <==>
      exists k :: 0 <= k < |entities| && entities[k]["entity_group"] == "PER" && w == Lower(entities[k]["word"])
  {
    if entities == [] then Ok([])
    else
      var x := entities[0];
      if "entity_group" !in x then Err(KeyError("entity_group"))
      else if x["entity_group"] == "PER" && "word" !in x then Err(KeyError("word"))
      else
        match PersonWords(entities[1..])
        case Err(e) => Err(e)
        case Ok(rest) =>
          assert forall k :: 1 <= k < |entities| ==> entities[k] == entities[1..][k - 1];
          Ok((if x["entity_group"] == "PER" then [Lower(x["word"])] else []) + rest)
  }

  /** The candidate names before the organisation and sign-off filters:
      `list(set(def_names_result + filtered_names))`, in set order. */
  function Candidates(text: string, persons: seq<string>, lex: Lexicons, listing: set<string> -> seq<string>): seq<string> {
    listing(Elems(DefiniteNames(text, lex.defNames) + RemoveNonNames(persons, lex.nonNames)))
  }

  /** The names left once the organisation and, for a comment body, the
      sign-off have been dealt with, before sorting. */
  function Remaining(text: string, orgName: string, persons: seq<string>, lex: Lexicons,
                     listing: set<string> -> seq<string>, partialRatio: (string, string) -> int): Result<seq<string>>
  {
    var kept := OrgFiltered(Candidates(text, persons, lex, listing), OrgKey(orgName), partialRatio);
    if |text| > MaxTitleChars then
      match EndWords(text)
      case Err(e) => Err(e)
      case Ok(ends) => Ok(RemoveEach(kept, ends))
    else Ok(kept)
  }

  /** What `names_rule` returns. */
  function NamesRuleSpec(text: string, orgName: string, env: Env, service: Request -> Reply<seq<Entity>>,
                         lex: Lexicons, listing: set<string> -> seq<string>, partialRatio: (string, string) -> int): (r: Result<Verdict>)
    ensures r.Ok? ==> Sorted(r.value.values)
    ensures r.Ok? ==> (r.value.code == 1 <==> r.value.values != []) && (r.value.code == 0 <==> r.value.values == [])
  {
    match Endpoint(env, "NamesURL", "NamesKey", false, Data(text))
    case Err(e) => Err(e)
    case Ok(req) =>
      match Call(service, req)
      case Err(e) => Err(e)
      case Ok(entities) =>
        match PersonWords(entities)
        case Err(e) => Err(e)
        case Ok(persons) =>
          match Remaining(text, orgName, persons, lex, listing, partialRatio)
          case Err(e) => Err(e)
          case Ok(names) => Ok(Scored(SortStrings(names)))
  }

  /** `names_rule`: the request, the reply's person words, the list filters,
      then the sign-off removal and the sort done in place on one list. */
  method NamesRule(text: string, orgName: string, env: Env, service: Request -> Reply<seq<Entity>>,
                   lex: Lexicons, listing: set<string> -> seq<string>, partialRatio: (string, string) -> int)
    returns (r: Result<Verdict>)
    ensures r == NamesRuleSpec(text, orgName, env, service, lex, listing, partialRatio)
  {
    var req := Endpoint(env, "NamesURL", "NamesKey", false, Data(text));
    if req.Err? {
      return Err(req.error);
    }
    var reply := Call(service, req.value);
    if reply.Err? {
      return Err(reply.error);
    }
    var persons := PersonWords(reply.value);
    if persons.Err? {
      return Err(persons.error);
    }
    var filteredNames := RemoveNonNames(persons.value, lex.nonNames);
    var defNamesResult := DefiniteNames(text, lex.defNames);
    var fullResult := listing(Elems(defNamesResult + filteredNames));
    var kept := AllowOrgName(orgName, fullResult, partialRatio);
    var names := new NameList(kept);
    if |text| > MaxTitleChars {
      var signedOff := AllowNameSignoff(text, names);
      if signedOff.Err? {
        return Err(signedOff.error);
      }
    }
    names.Sort();
    r := Ok(Scored(names.items));
  }

  /** Two lists without repeats holding the same items are permutations of
      each other. */
  lemma SameItemsPermutation(a: seq<string>, b: seq<string>)
    requires Distinct(a) && Distinct(b)
    requires forall x :: x in a <==> x in b
    ensures multiset(a) == multiset(b)
  {
    forall x
      ensures multiset(a)[x] == multiset(b)[x]
    {
      DistinctCount(a, x);
      DistinctCount(b, x);
      assert x in a <==> x in multiset(a);
      assert x in b <==> x in multiset(b);
    }
  }

  /** With an exact set listing, the names left are without repeats, and a
      name is left exactly when it is a definite name in the text or a tagged
      person that is not a non-name, it does not resemble the organisation,
      and, in a comment body, it is not one of the sign-off candidates. */
  lemma {:induction false} RemainingExact(text: string, orgName: string, persons: seq<string>, lex: Lexicons,
                                          listing: set<string> -> seq<string>, partialRatio: (string, string) -> int)
    requires ValidListing(listing)
    ensures var r := Remaining(text, orgName, persons, lex, listing, partialRatio);
      r.Ok? ==> Distinct(r.value) && forall x :: x in r.value <==>
        && (x in DefiniteNames(text, lex.defNames) || (x in persons && x !in lex.nonNames))
        && partialRatio(x, OrgKey(orgName)) < PartialRatioThreshold
        && (|text| > MaxTitleChars ==> x !in EndWords(text).value)
  {
    var cands := Candidates(text, persons, lex, listing);
    var all := DefiniteNames(text, lex.defNames) + RemoveNonNames(persons, lex.nonNames);
    assert IsListing(cands, Elems(all));
    var kept := OrgFiltered(cands, OrgKey(orgName), partialRatio);
    OrgFilteredDistinct(cands, OrgKey(orgName), partialRatio);
    if |text| > MaxTitleChars && EndWords(text).Ok? {
      RemoveEachDistinct(kept, EndWords(text).value);
    }
  }

  /** The reported names do not depend on the order in which the interpreter
      happens to list a set: any two exact listings give the same result. */
  lemma NamesRuleIgnoresSetOrder(text: string, orgName: string, env: Env, service: Request -> Reply<seq<Entity>>,
                                 lex: Lexicons, listing1: set<string> -> seq<string>, listing2: set<string> -> seq<string>,
                                 partialRatio: (string, string) -> int)
    requires ValidListing(listing1) && ValidListing(listing2)
    ensures NamesRuleSpec(text, orgName, env, service, lex, listing1, partialRatio)
         == NamesRuleSpec(text, orgName, env, service, lex, listing2, partialRatio)
  {
    var req := Endpoint(env, "NamesURL", "NamesKey", false, Data(text));
    if req.Ok? && Call(service, req.value).Ok? && PersonWords(Call(service, req.value).value).Ok? {
      var persons := PersonWords(Call(service, req.value).value).value;
      RemainingIgnoresSetOrder(text, orgName, persons, lex, listing1, listing2, partialRatio);
    }
  }

  /** The sorted names left do not depend on the set listing. */
  lemma RemainingIgnoresSetOrder(text: string, orgName: string, persons: seq<string>, lex: Lexicons,
                                 listing1: set<string> -> seq<string>, listing2: set<string> -> seq<string>,
                                 partialRatio: (string, string) -> int)
    requires ValidListing(listing1) && ValidListing(listing2)
    ensures var r1 := Remaining(text, orgName, persons, lex, listing1, partialRatio);
      var r2 := Remaining(text, orgName, persons, lex, listing2, partialRatio);
      && (r1.Ok? <==> r2.Ok?)
      && (r1.Err? ==> r1 == r2)
      && (r1.Ok? ==> SortStrings(r1.value) == SortStrings(r2.value))
  {
    var r1 := Remaining(text, orgName, persons, lex, listing1, partialRatio);
    var r2 := Remaining(text, orgName, persons, lex, listing2, partialRatio);
    RemainingExact(text, orgName, persons, lex, listing1, partialRatio);
    RemainingExact(text, orgName, persons, lex, listing2, partialRatio);
    if r1.Ok? {
      SameItemsPermutation(r1.value, r2.value);
      SortedUnique(SortStrings(r1.value), SortStrings(r2.value));
    }
  }

  /** With an exact set listing, the reported names are sorted, without
      repeats, and exactly the names described by `RemainingExact`. */
  lemma NamesRuleExact(text: string, orgName: string, env: Env, service: Request -> Reply<seq<Entity>>,
                       lex: Lexicons, listing: set<string> -> seq<string>, partialRatio: (string, string) -> int,
                       persons: seq<string>)
    requires ValidListing(listing)
    requires var req := Endpoint(env, "NamesURL", "NamesKey", false, Data(text));
      req.Ok? && Call(service, req.value).Ok? && PersonWords(Call(service, req.value).value) == Ok(persons)
    ensures var r := NamesRuleSpec(text, orgName, env, service, lex, listing, partialRatio);
      r.Ok? ==> Sorted(r.value.values) && Distinct(r.value.values) && forall x :: x in r.value.values <==>
        && (x in DefiniteNames(text, lex.defNames) || (x in persons && x !in lex.nonNames))
        && partialRatio(x, OrgKey(orgName)) < PartialRatioThreshold
        && (|text| > MaxTitleChars ==> x !in EndWords(text).value)
  {
    var rem := Remaining(text, orgName, persons, lex, listing, partialRatio);
    RemainingExact(text, orgName, persons, lex, listing, partialRatio);
    if rem.Ok? {
      SortDistinct(rem.value);
      var sorted := SortStrings(rem.value);
      forall x
        ensures x in sorted <==> x in rem.value
      {
        assert x in sorted <==> multiset(sorted)[x] > 0;
        assert x in rem.value <==> multiset(rem.value)[x] > 0;
      }
    }
  }

  /** Errors, in the order the source meets them: an unset variable, a failed
      request, an entity without its fields, then a comment body of more than
      sixty characters that has no word to sign off with. */
  lemma NamesRuleErrors(text: string, orgName: string, env: Env, service: Request -> Reply<seq<Entity>>,
                        lex: Lexicons, listing: set<string> -> seq<string>, partialRatio: (string, string) -> int)
    ensures var r := NamesRuleSpec(text, orgName, env, service, lex, listing, partialRatio);
      && ("NamesURL" !in env || "NamesKey" !in env ==> r == Err(AttributeError))
      && (r.Err? && r.error == IndexError ==>
            |text| > MaxTitleChars && forall c :: c in text ==> IsSpace(c) || c == ',' || c == '.')
      && (r.Err? ==> r.error in {AttributeError, ServiceError, KeyError("entity_group"), KeyError("word"), IndexError})
  {
    var r := NamesRuleSpec(text, orgName, env, service, lex, listing, partialRatio);
    var req := Endpoint(env, "NamesURL", "NamesKey", false, Data(text));
    if req.Err? {
      assert r == Err(req.error);
    } else if Call(service, req.value).Err? {
      assert r == Err(ServiceError);
    } else {
      var persons := PersonWords(Call(service, req.value).value);
      if persons.Err? {
        assert r == Err(persons.error);
      } else {
        var names := Remaining(text, orgName, persons.value, lex, listing, partialRatio);
        RemainingErrors(text, orgName, persons.value, lex, listing, partialRatio);
        assert r.Err? ==> r == Err(names.error);
      }
    }
  }

  /** The filters fail only on a comment body without a word. */
  lemma RemainingErrors(text: string, orgName: string, persons: seq<string>, lex: Lexicons,
                        listing: set<string> -> seq<string>, partialRatio: (string, string) -> int)
    ensures var r := Remaining(text, orgName, persons, lex, listing, partialRatio);
      r.Err? ==> r.error == IndexError && |text| > MaxTitleChars && forall c :: c in text ==> IsSpace(c) || c == ',' || c == '.'
  {
  }
}
