/** The URL rule: a comment holding a web address fails. The language
    pipeline's URL matcher is consulted first; only when it finds nothing worth
    reporting is the comment's text searched with the URL regular expression.
    The matcher and the regular expression are parameters: what they count as
    a URL is not modelled. */
module UrlRule {
  import opened Outcome
  import opened Nlp

  /** Matched spans that are never reported. */
  const UrlExceptions: seq<string> := ["...", "...?"]

  /** A matcher hit that is reported: a URL match whose text is not an exception. */
  predicate IsReported(m: Match) {
    m.name == "URL" && m.text !in UrlExceptions
  }

  /** The texts of the reported matcher hits, in matcher order, repeats kept. */
  function KeptUrls(matches: seq<Match>): (r: seq<string>)
    ensures |r| <= |matches|
    ensures forall t :: t in r <==> exists m :: m in matches && IsReported(m) && m.text == t
  {
    if matches == [] then []
    else
      var last := matches[|matches| - 1];
      assert matches == matches[..|matches| - 1] + [last];
      KeptUrls(matches[..|matches| - 1]) + (if IsReported(last) then [last.text] else [])
  }

  /** `verify_url_rule`: walk the matcher's hits, keeping the reported ones and
      setting the score on each. */
  method VerifyUrlRule(doc: Doc, matcher: Doc -> seq<Match>) returns (v: Verdict)
    ensures v == Scored(KeptUrls(matcher(doc)))
  {
    var score := 0;
    var matchedUrls: seq<string> := [];
    var matches := matcher(doc);
    if matches != [] {
      for k := 0 to |matches|
        invariant matchedUrls == KeptUrls(matches[..k])
        invariant score == (if matchedUrls != [] then 1 else 0)
      {
        var m := matches[k];
        if m.name == "URL" && m.text !in UrlExceptions {
          score := 1;
          matchedUrls := matchedUrls + [m.text];
        }
        assert matches[..k + 1][..k] == matches[..k];
      }
      assert matches[..|matches|] == matches;
    }
    v := Verdict(score, matchedUrls);
  }

  /** `find_match_for_url_rule`: the regex's findings for a string, scored;
      anything that is not a string scores 0 with no evidence. */
  function FindMatchForUrlRule(arg: Arg, urlRegex: string -> seq<string>): (v: Verdict)
    ensures arg.NotText? ==> v == Verdict(0, [])
    ensures arg.Text? ==> v.values == urlRegex(arg.s)
    ensures v.code == 1 <==> v.values != []
  {
    match arg
    case NotText => Verdict(0, [])
    case Text(text) => Scored(urlRegex(text))
  }

  /** `check_url_rule`: the matcher decides when it reports anything, and the
      regex is consulted only when it reports nothing; either way the score is
      1 exactly when some URL is reported. */
  function CheckUrlRule(doc: Doc, matcher: Doc -> seq<Match>, urlRegex: string -> seq<string>): (v: Verdict)
    ensures v.code == 1 <==> v.values != []
    ensures v.code == 0 <==> v.values == []
    ensures (exists m :: m in matcher(doc) && IsReported(m)) ==> v.values == KeptUrls(matcher(doc))
    ensures (forall m :: m in matcher(doc) ==> !IsReported(m)) ==> v.values == urlRegex(doc.text)
  {
    var kept := KeptUrls(matcher(doc));
    if kept == [] then
      FindMatchForUrlRule(Text(doc.text), urlRegex)
    else
      assert exists m :: m in matcher(doc) && IsReported(m) by {
        assert kept[0] in kept;
      }
      Scored(kept)
  }

  /** Without a reported hit, nothing is kept. */
  lemma {:induction false} NothingKept(matches: seq<Match>)
    requires forall m :: m in matches ==> !IsReported(m)
    ensures KeptUrls(matches) == []
  {
    if matches != [] {
      NothingKept(matches[..|matches| - 1]);
    }
  }

  /** Every reported text comes from a URL hit that is not an exception, or
      from the regex. */
  lemma CheckUrlRuleEvidence(doc: Doc, matcher: Doc -> seq<Match>, urlRegex: string -> seq<string>, t: string)
    requires t in CheckUrlRule(doc, matcher, urlRegex).values
    ensures (exists m :: m in matcher(doc) && IsReported(m) && m.text == t) || t in urlRegex(doc.text)
  {
  }

  /** The two exceptional spans alone never fail a comment through the matcher. */
  lemma ExceptionsAreNotReported()
    ensures KeptUrls([Match("URL", "..."), Match("URL", "...?"), Match("EMAIL", "a.com")]) == []
  {
    var ms := [Match("URL", "..."), Match("URL", "...?"), Match("EMAIL", "a.com")];
    assert ms[..2] == [Match("URL", "..."), Match("URL", "...?")];
    assert ms[..2][..1] == [Match("URL", "...")];
    assert ms[..2][..1][..0] == [];
  }
}
