/** The moderation pass over one comment: every rule is run on the processed
    comment and the rules that did not pass are reported, each with its code
    (1 failed, 2 human moderation required) and its evidence.

    The language pipeline, the URL matcher and regular expression, the fuzzy
    matcher, the interpreter's set order, the environment, the word lists and
    the five remote models are the `World` the object is created in. */
module Moderation {
  import opened Outcome
  import opened Seqs
  import opened PyStr
  import opened Config
  import opened CommonFunctions
  import opened Nlp
  import opened Services
  import opened AllCaps
  import opened UrlRule
  import opened Names
  import opened Descriptions
  import opened Safeguarding
  import opened Complaints
  import opened ProfanitySoft
  import opened EmailRule
  import opened NotAnExperience
  import opened Profanity

  /** Everything the rules consult that is not the comment. */
  datatype World = World(
    tokenize: string -> seq<string>,
    matcher: Doc -> seq<Match>,
    urlRegex: string -> seq<string>,
    partialRatio: (string, string) -> int,
    listing: set<string> -> seq<string>,
    env: Env,
    lex: Lexicons,
    namesModel: Request -> Reply<seq<Entity>>,
    descriptionsModel: Request -> Reply<seq<seq<string>>>,
    safeguardingModel: Request -> Reply<map<string, string>>,
    complaintsModel: Request -> Reply<string>,
    notAnExperienceModel: Request -> Reply<map<string, Json>>)

  /** The all-caps rule's triple: code, count and the shouting words. */
  datatype CapsResult = CapsResult(code: int, count: nat, words: seq<string>)

  /** The results of the nine rules run together, in dispatch order. */
  datatype Outputs = Outputs(
    allCaps: CapsResult, url: Verdict, names: Verdict, descriptor: Verdict,
    safeguarding: Assessment, complaint: Verdict, soft: Verdict, email: Verdict,
    notExperience: Verdict)

  /** The ten rules of the report, in report order. */
  datatype Rule =
    | AllCapsLine | EmailLine | UrlLine | ProfanityHardLine | ProfanitySoftLine
    | NamesLine | DescriptorLine | SafeguardingLine | ComplaintLine | NotAnExperienceLine

  /** The key under which the report names a rule. */
  function Key(rule: Rule): string {
    match rule
    case AllCapsLine => "allCaps"
    case EmailLine => "emailRule"
    case UrlLine => "urlRule"
    case ProfanityHardLine => "profanityDetectionHard"
    case ProfanitySoftLine => "profanityDetectionSoft"
    case NamesLine => "namesRule"
    case DescriptorLine => "descriptorRuleHard"
    case SafeguardingLine => "safeguardingRule"
    case ComplaintLine => "complaintRule"
    case NotAnExperienceLine => "notAnExperienceRule"
  }

  /** No two rules share a key, so a report line names its rule. */
  lemma KeysDistinct(a: Rule, b: Rule)
    requires Key(a) == Key(b)
    ensures a == b
  {
    assert Key(a)[..4] == Key(b)[..4];
    assert |Key(a)| == |Key(b)|;
  }

  /** A rule's place in report order. */
  function Position(rule: Rule): (k: nat)
    ensures k < 10
  {
    match rule
    case AllCapsLine => 0
    case EmailLine => 1
    case UrlLine => 2
    case ProfanityHardLine => 3
    case ProfanitySoftLine => 4
    case NamesLine => 5
    case DescriptorLine => 6
    case SafeguardingLine => 7
    case ComplaintLine => 8
    case NotAnExperienceLine => 9
  }

  /** One line of the report. Only the safeguarding rule carries a probability. */
  datatype Entry = Entry(rule: Rule, code: int, values: seq<string>, probability: Option<string>)

  datatype Report = Report(id: string, results: seq<Entry>)

  /** What `all_caps_rule` returns for a document. */
  function CapsOf(doc: Doc, acronyms: seq<string>): (c: CapsResult)
    ensures c.words == CapsWords(doc.tokens, acronyms) && c.count == |c.words| && c.code == CapsCode(c.count)
  {
    var words := CapsWords(doc.tokens, acronyms);
    CapsResult(CapsCode(|words|), |words|, words)
  }

  /** The nine rules run in dispatch order on the document and its text (the
      text lower-cased for five of them). The first rule to raise aborts the
      whole pass with its error. */
  function RunRules(w: World, doc: Doc, orgName: string): (r: Result<Outputs>)
    ensures r.Ok? ==> r.value.allCaps == CapsOf(doc, w.lex.acronyms)
    ensures r.Ok? ==> r.value.url == CheckUrlRule(doc, w.matcher, w.urlRegex)
    ensures r.Ok? ==> NamesRuleSpec(doc.text, orgName, w.env, w.namesModel, w.lex, w.listing, w.partialRatio) == Ok(r.value.names)
    ensures r.Ok? ==> SafeguardingRule(Lower(doc.text), w.env, w.safeguardingModel) == Ok(r.value.safeguarding)
    ensures r.Ok? ==> ComplaintRule(Text(Lower(doc.text)), w.env, w.complaintsModel) == Ok(r.value.complaint)
    ensures r.Ok? ==> r.value.email.values == FindAll(doc.text)
    ensures r.Ok? ==> NotExperienceRule(Text(Lower(doc.text)), w.env, w.notAnExperienceModel) == Ok(r.value.notExperience)
    ensures r.Ok? ==> DescriptorRuleSpec(Text(Lower(doc.text)), w.env, w.descriptionsModel, w.lex.descriptionsAdj, w.lex.descriptionsNouns)
                      == Ok(r.value.descriptor)
    ensures r.Ok? ==> ProfanityRuleSoftSpec(Text(Lower(doc.text)), w.lex.profanitySoft, w.listing) == Ok(r.value.soft)
    ensures r.Ok? ==> WellFormed(r.value)
  {
    var text := doc.text;
    var lower := Lower(text);
    match NamesRuleSpec(text, orgName, w.env, w.namesModel, w.lex, w.listing, w.partialRatio)
    case Err(e) => Err(e)
    case Ok(names) =>
      match DescriptorRuleSpec(Text(lower), w.env, w.descriptionsModel, w.lex.descriptionsAdj, w.lex.descriptionsNouns)
      case Err(e) => Err(e)
      case Ok(descriptor) =>
        match SafeguardingRule(lower, w.env, w.safeguardingModel)
        case Err(e) => Err(e)
        case Ok(safeguarding) =>
          match ComplaintRule(Text(lower), w.env, w.complaintsModel)
          case Err(e) => Err(e)
          case Ok(complaint) =>
            match ProfanityRuleSoftSpec(Text(lower), w.lex.profanitySoft, w.listing)
            case Err(e) => Err(e)
            case Ok(soft) =>
              match CheckEmailRule(Text(text))
              case Err(e) => Err(e)
              case Ok(email) =>
                match NotExperienceRule(Text(lower), w.env, w.notAnExperienceModel)
                case Err(e) => Err(e)
                case Ok(notExperience) =>
                  Ok(Outputs(CapsOf(doc, w.lex.acronyms), CheckUrlRule(doc, w.matcher, w.urlRegex), names, descriptor,
                             safeguarding, complaint, soft, email, notExperience))
  }

  /** The ten report lines in report order, before filtering. */
  function AllEntries(o: Outputs, profanity: Verdict): (es: seq<Entry>)
    ensures |es| == 10
    ensures forall k :: 0 <= k < 10 ==> Position(es[k].rule) == k
  {
    [ Entry(AllCapsLine, o.allCaps.code, o.allCaps.words, None),
      Entry(EmailLine, o.email.code, o.email.values, None),
      Entry(UrlLine, o.url.code, o.url.values, None),
      Entry(ProfanityHardLine, profanity.code, profanity.values, None),
      Entry(ProfanitySoftLine, o.soft.code, o.soft.values, None),
      Entry(NamesLine, o.names.code, o.names.values, None),
      Entry(DescriptorLine, o.descriptor.code, o.descriptor.values, None),
      Entry(SafeguardingLine, o.safeguarding.code, o.safeguarding.levels, Some(o.safeguarding.probability)),
      Entry(ComplaintLine, o.complaint.code, o.complaint.values, None),
      Entry(NotAnExperienceLine, o.notExperience.code, o.notExperience.values, None) ]
  }

  /** A line is kept when its rule did not pass. */
  predicate IsFlagged(e: Entry) {
    e.code >= 1
  }

  /** The report `apply` returns for a document, an organisation and the
      lower-cased tokens. */
  function ApplySpec(w: World, doc: Doc, orgName: string, words: seq<string>): Result<Report> {
    match RunRules(w, doc, orgName)
    case Err(e) => Err(e)
    case Ok(o) =>
      var profanity := ProfanityRule(words, w.lex.profanity, w.listing);
      Ok(Report("ids", Filter(AllEntries(o, profanity), IsFlagged)))
  }

  /** Whether the report has a line for the rule. */
  predicate Reports(rep: Report, rule: Rule) {
    exists e :: e in rep.results && e.rule == rule
  }

  /** The pass fails exactly when one of the five rules that can raise does,
      and a failure of the names rule, the first dispatched, is the one
      reported. The soft-profanity and e-mail rules never raise on a string. */
  lemma ApplyFails(w: World, doc: Doc, orgName: string, words: seq<string>)
    ensures var names := NamesRuleSpec(doc.text, orgName, w.env, w.namesModel, w.lex, w.listing, w.partialRatio);
      var lower := Lower(doc.text);
      && (ApplySpec(w, doc, orgName, words).Err? <==>
           || names.Err?
           || DescriptorRuleSpec(Text(lower), w.env, w.descriptionsModel, w.lex.descriptionsAdj, w.lex.descriptionsNouns).Err?
           || SafeguardingRule(lower, w.env, w.safeguardingModel).Err?
           || ComplaintRule(Text(lower), w.env, w.complaintsModel).Err?
           || NotExperienceRule(Text(lower), w.env, w.notAnExperienceModel).Err?)
      && (names.Err? ==> ApplySpec(w, doc, orgName, words) == Err(names.error))
  {
  }

  /** A verdict scored 1 exactly when it carries evidence. */
  predicate ScoredByEvidence(v: Verdict) {
    (v.code == 1 <==> v.values != []) && (v.code == 0 <==> v.values == [])
  }

  /** What the nine rules promise of their results. */
  predicate WellFormed(o: Outputs) {
    && o.allCaps.count == |o.allCaps.words| && o.allCaps.code == CapsCode(o.allCaps.count)
    && ScoredByEvidence(o.url) && ScoredByEvidence(o.names) && ScoredByEvidence(o.descriptor)
    && ScoredByEvidence(o.soft) && ScoredByEvidence(o.email)
    && |o.safeguarding.levels| == 1 && o.safeguarding.code == ConcernCode(o.safeguarding.levels[0])
    && |o.complaint.values| == 1 && (o.complaint.code == 0 || o.complaint.code == 1)
    && |o.notExperience.values| == 1 && (o.notExperience.code == 0 || o.notExperience.code == 1)
  }

  /** A flagged line has the code 1 or 2 (2 only for the all-caps and
      safeguarding rules) and evidence; only the safeguarding line has a
      probability. */
  predicate GoodLine(e: Entry) {
    && (IsFlagged(e) ==> e.code == 1 || e.code == 2)
    && (IsFlagged(e) ==> e.values != [])
    && (e.code == 2 ==> e.rule == AllCapsLine || e.rule == SafeguardingLine)
    && (e.probability.Some? <==> e.rule == SafeguardingLine)
  }

  /** Every one of the ten entries of well-formed results is a good line. */
  lemma EntryLines(o: Outputs, profanity: Verdict, k: nat)
    requires WellFormed(o) && ScoredByEvidence(profanity) && k < 10
    ensures GoodLine(AllEntries(o, profanity)[k])
  {
  }

  /** The flagged entries of well-formed results are good lines. */
  lemma FlaggedLines(o: Outputs, profanity: Verdict)
    requires WellFormed(o) && ScoredByEvidence(profanity)
    ensures forall e :: e in Filter(AllEntries(o, profanity), IsFlagged) ==>
      IsFlagged(e) && GoodLine(e) && ResultCodeMapper(e.code).Ok?
  {
    var es := AllEntries(o, profanity);
    forall e | e in Filter(es, IsFlagged)
      ensures IsFlagged(e) && GoodLine(e) && ResultCodeMapper(e.code).Ok?
    {
      var k :| 0 <= k < 10 && es[k] == e;
      EntryLines(o, profanity, k);
    }
  }

  /** A line of the report names one of the ten rules, carries the code 1
      (failed) or 2 (human moderation required, only possible for the all-caps
      and safeguarding rules), which the code mapper accepts, and its
      evidence; only the safeguarding line carries a probability. */
  lemma ReportLines(w: World, doc: Doc, orgName: string, words: seq<string>)
    requires ApplySpec(w, doc, orgName, words).Ok?
    ensures var rep := ApplySpec(w, doc, orgName, words).value;
      && rep.id == "ids"
      && |rep.results| <= 10
      && forall e :: e in rep.results ==>
           && (e.code == 1 || e.code == 2)
           && ResultCodeMapper(e.code).Ok?
           && (e.code == 2 ==> e.rule == AllCapsLine || e.rule == SafeguardingLine)
           && e.values != []
           && (e.probability.Some? <==> e.rule == SafeguardingLine)
  {
    var o := RunRules(w, doc, orgName).value;
    var profanity := ProfanityRule(words, w.lex.profanity, w.listing);
    assert ApplySpec(w, doc, orgName, words).value.results == Filter(AllEntries(o, profanity), IsFlagged);
    FlaggedLines(o, profanity);
  }

  /** The report has a line for a rule exactly when that rule's entry among
      the ten is flagged. */
  lemma FlaggedLine(o: Outputs, profanity: Verdict, k: nat)
    requires k < 10
    ensures var es := AllEntries(o, profanity);
      Reports(Report("ids", Filter(es, IsFlagged)), es[k].rule) <==> IsFlagged(es[k])
  {
    var es := AllEntries(o, profanity);
    if IsFlagged(es[k]) {
      assert es[k] in Filter(es, IsFlagged);
    }
  }

  /** For well-formed results, the lines of the all-caps, e-mail and URL
      rules are present exactly when the rule found something. */
  lemma ReportedFindings(o: Outputs, profanity: Verdict)
    requires WellFormed(o)
    ensures var rep := Report("ids", Filter(AllEntries(o, profanity), IsFlagged));
      && (Reports(rep, AllCapsLine) <==> o.allCaps.words != [])
      && (Reports(rep, EmailLine) <==> o.email.values != [])
      && (Reports(rep, UrlLine) <==> o.url.values != [])
  {
    FlaggedLine(o, profanity, 0);
    FlaggedLine(o, profanity, 1);
    FlaggedLine(o, profanity, 2);
  }

  /** For well-formed results, the lines of the rules that look words up in a
      list are present exactly when the rule found something. */
  lemma ReportedWords(o: Outputs, profanity: Verdict)
    requires WellFormed(o) && ScoredByEvidence(profanity)
    ensures var rep := Report("ids", Filter(AllEntries(o, profanity), IsFlagged));
      && (Reports(rep, ProfanityHardLine) <==> profanity.values != [])
      && (Reports(rep, ProfanitySoftLine) <==> o.soft.values != [])
      && (Reports(rep, NamesLine) <==> o.names.values != [])
      && (Reports(rep, DescriptorLine) <==> o.descriptor.values != [])
  {
    FlaggedLine(o, profanity, 3);
    FlaggedLine(o, profanity, 4);
    FlaggedLine(o, profanity, 5);
    FlaggedLine(o, profanity, 6);
  }

  /** For well-formed results, the line of each rule that asks a model is
      present exactly when the model's answer fails the comment. */
  lemma ReportedAnswers(o: Outputs, profanity: Verdict)
    requires WellFormed(o)
    ensures var rep := Report("ids", Filter(AllEntries(o, profanity), IsFlagged));
      && (Reports(rep, SafeguardingLine) <==>
            o.safeguarding.levels[0] == "Possibly Concerning" || o.safeguarding.levels[0] == "Strongly Concerning")
      && (Reports(rep, ComplaintLine) <==> o.complaint.code == 1)
      && (Reports(rep, NotAnExperienceLine) <==> o.notExperience.code == 1)
  {
    FlaggedLine(o, profanity, 7);
    FlaggedLine(o, profanity, 8);
    FlaggedLine(o, profanity, 9);
  }

  /** Each rule is reported exactly when it did not pass: the all-caps,
      e-mail, URL, profanity, names and descriptor rules when they found
      something, the safeguarding rule when the grade is concerning, the
      complaint and not-an-experience rules when the model answered 1; and a
      title is never reported as not describing an experience. */
  lemma ReportedRules(w: World, doc: Doc, orgName: string, words: seq<string>)
    requires ApplySpec(w, doc, orgName, words).Ok?
    ensures var rep := ApplySpec(w, doc, orgName, words).value;
      var o := RunRules(w, doc, orgName).value;
      && (Reports(rep, AllCapsLine) <==> CapsWords(doc.tokens, w.lex.acronyms) != [])
      && (Reports(rep, EmailLine) <==> FindAll(doc.text) != [])
      && (Reports(rep, UrlLine) <==> CheckUrlRule(doc, w.matcher, w.urlRegex).values != [])
      && (Reports(rep, ProfanityHardLine) <==> ProfanityRule(words, w.lex.profanity, w.listing).values != [])
      && (Reports(rep, ProfanitySoftLine) <==>
            ProfanityRuleSoftSpec(Text(Lower(doc.text)), w.lex.profanitySoft, w.listing) == Ok(o.soft) && o.soft.values != [])
      && (Reports(rep, NamesLine) <==> o.names.values != [])
      && (Reports(rep, DescriptorLine) <==>
            DescriptorRuleSpec(Text(Lower(doc.text)), w.env, w.descriptionsModel, w.lex.descriptionsAdj, w.lex.descriptionsNouns)
              == Ok(o.descriptor) && o.descriptor.values != [])
      && (Reports(rep, SafeguardingLine) <==>
            o.safeguarding.levels[0] == "Possibly Concerning" || o.safeguarding.levels[0] == "Strongly Concerning")
      && (Reports(rep, ComplaintLine) <==> o.complaint.code == 1)
      && (Reports(rep, NotAnExperienceLine) <==> o.notExperience.code == 1)
      && (|doc.text| <= MaxTitleChars ==> !Reports(rep, NotAnExperienceLine))
  {
    var o := RunRules(w, doc, orgName).value;
    var profanity := ProfanityRule(words, w.lex.profanity, w.listing);
    assert ApplySpec(w, doc, orgName, words).value.results == Filter(AllEntries(o, profanity), IsFlagged);
    ReportedFindings(o, profanity);
    ReportedWords(o, profanity);
    ReportedAnswers(o, profanity);
  }

  /** The report of a successful pass: the flagged lines among the ten. */
  lemma ApplyReport(w: World, doc: Doc, orgName: string, words: seq<string>)
    requires ApplySpec(w, doc, orgName, words).Ok?
    ensures RunRules(w, doc, orgName).Ok?
    ensures ApplySpec(w, doc, orgName, words).value ==
      Report("ids", Filter(AllEntries(RunRules(w, doc, orgName).value, ProfanityRule(words, w.lex.profanity, w.listing)), IsFlagged))
  {
  }

  /** The soft-profanity line of well-formed results whose soft verdict
      de-duplicates the given hits through an exact listing. */
  lemma SoftLineHits(o: Outputs, profanity: Verdict, hits: seq<string>, listing: set<string> -> seq<string>)
    requires WellFormed(o) && ScoredByEvidence(profanity)
    requires ValidListing(listing) && o.soft == DedupVerdict(hits, listing)
    ensures Reports(Report("ids", Filter(AllEntries(o, profanity), IsFlagged)), ProfanitySoftLine) <==> hits != []
  {
    ReportedWords(o, profanity);
    DedupVerdictExact(hits, listing);
    if hits != [] {
      assert hits[0] in o.soft.values;
    }
    if o.soft.values != [] {
      assert o.soft.values[0] in hits;
    }
  }

  /** With a listing that enumerates each set exactly, the soft-profanity
      line is present exactly when some soft-lexicon entry occurs as a whole
      word of the lower-cased comment. */
  lemma ReportedSoftHits(w: World, doc: Doc, orgName: string, words: seq<string>)
    requires ApplySpec(w, doc, orgName, words).Ok? && ValidListing(w.listing)
    ensures Reports(ApplySpec(w, doc, orgName, words).value, ProfanitySoftLine) <==>
              SoftHits(w.lex.profanitySoft, Lower(doc.text)) != []
  {
    ApplyReport(w, doc, orgName, words);
    var o := RunRules(w, doc, orgName).value;
    SoftLineHits(o, ProfanityRule(words, w.lex.profanity, w.listing), SoftHits(w.lex.profanitySoft, Lower(doc.text)), w.listing);
  }

  /** The descriptor line of well-formed results whose descriptor verdict
      scores what the pairs give. */
  lemma DescriptorLinePairs(o: Outputs, profanity: Verdict, pairs: seq<seq<string>>, adj: seq<string>, nouns: seq<string>)
    requires WellFormed(o) && ScoredByEvidence(profanity)
    requires Descriptors(pairs, adj, nouns).Ok? && o.descriptor == Scored(Descriptors(pairs, adj, nouns).value)
    ensures Reports(Report("ids", Filter(AllEntries(o, profanity), IsFlagged)), DescriptorLine) <==>
              exists k :: 0 <= k < |pairs| && Listed(pairs[k], adj, nouns)
  {
    ReportedWords(o, profanity);
    var found := Descriptors(pairs, adj, nouns).value;
    if exists k :: 0 <= k < |pairs| && Listed(pairs[k], adj, nouns) {
      var k :| 0 <= k < |pairs| && Listed(pairs[k], adj, nouns);
      assert Descriptor(pairs[k]) in found;
    }
    if found != [] {
      assert found[0] in found;
    }
  }

  /** When the descriptions model answers with some pairs, the descriptor
      line is present exactly when one of the pairs holds a listed adjective
      and a listed noun. */
  lemma ReportedDescriptions(w: World, doc: Doc, orgName: string, words: seq<string>, pairs: seq<seq<string>>)
    requires ApplySpec(w, doc, orgName, words).Ok?
    requires var req := Endpoint(w.env, "DescriptionsURL", "DescriptionsKey", true, Data(Lower(doc.text)));
      req.Ok? && w.descriptionsModel(req.value) == Answer(pairs)
    ensures Reports(ApplySpec(w, doc, orgName, words).value, DescriptorLine) <==>
              exists k :: 0 <= k < |pairs| && Listed(pairs[k], w.lex.descriptionsAdj, w.lex.descriptionsNouns)
  {
    ApplyReport(w, doc, orgName, words);
    var o := RunRules(w, doc, orgName).value;
    DescriptorLinePairs(o, ProfanityRule(words, w.lex.profanity, w.listing), pairs, w.lex.descriptionsAdj, w.lex.descriptionsNouns);
  }

  /** The report's lines follow report order, each rule at most once. */
  predicate InReportOrder(es: seq<Entry>) {
    forall i, j :: 0 <= i < j < |es| ==> Position(es[i].rule) < Position(es[j].rule)
  }

  lemma TailInReportOrder(es: seq<Entry>)
    requires es != [] && InReportOrder(es)
    ensures InReportOrder(es[1..])
  {
    var tail := es[1..];
    forall i, j | 0 <= i < j < |tail|
      ensures Position(tail[i].rule) < Position(tail[j].rule)
    {
      assert tail[i] == es[i + 1] && tail[j] == es[j + 1];
    }
  }

  lemma HeadComesFirst(es: seq<Entry>, e: Entry)
    requires es != [] && InReportOrder(es) && e in es[1..]
    ensures Position(es[0].rule) < Position(e.rule)
  {
    var k :| 0 <= k < |es[1..]| && es[1..][k] == e;
    assert es[k + 1] == e;
  }

  lemma ConsInReportOrder(e: Entry, rest: seq<Entry>)
    requires InReportOrder(rest)
    requires forall x :: x in rest ==> Position(e.rule) < Position(x.rule)
    ensures InReportOrder([e] + rest)
  {
    var r := [e] + rest;
    forall i, j | 0 <= i < j < |r|
      ensures Position(r[i].rule) < Position(r[j].rule)
    {
      assert r[j] == rest[j - 1] && r[j] in rest;
      if i > 0 {
        assert r[i] == rest[i - 1];
      }
    }
  }

  /** Keeping only the flagged lines keeps their order. */
  lemma {:induction false} FilterKeepsReportOrder(es: seq<Entry>)
    requires InReportOrder(es)
    ensures InReportOrder(Filter(es, IsFlagged))
    decreases |es|
  {
    if es != [] {
      TailInReportOrder(es);
      FilterKeepsReportOrder(es[1..]);
      var rest := Filter(es[1..], IsFlagged);
      if IsFlagged(es[0]) {
        forall x | x in rest
          ensures Position(es[0].rule) < Position(x.rule)
        {
          HeadComesFirst(es, x);
        }
        ConsInReportOrder(es[0], rest);
        assert Filter(es, IsFlagged) == [es[0]] + rest;
      } else {
        assert Filter(es, IsFlagged) == rest;
      }
    }
  }

  /** The lines of a report keep the fixed order of the ten rules
      (all-caps, e-mail, URL, hard and soft profanity, names, descriptors,
      safeguarding, complaint, not-an-experience) and name each rule at most
      once. */
  lemma ReportOrder(w: World, doc: Doc, orgName: string, words: seq<string>)
    requires ApplySpec(w, doc, orgName, words).Ok?
    ensures InReportOrder(ApplySpec(w, doc, orgName, words).value.results)
  {
    ApplyReport(w, doc, orgName, words);
    var es := AllEntries(RunRules(w, doc, orgName).value, ProfanityRule(words, w.lex.profanity, w.listing));
    AllEntriesInReportOrder(es);
    FilterKeepsReportOrder(es);
  }

  /** Ten lines whose k-th line is the k-th rule are in report order. */
  lemma AllEntriesInReportOrder(es: seq<Entry>)
    requires |es| == 10 && forall k :: 0 <= k < 10 ==> Position(es[k].rule) == k
    ensures InReportOrder(es)
  {
  }


  /** The moderation of one comment. */
  class HardRules {
    const world: World
    var body: Doc
    var orgName: string
    var words: seq<string>
    var allCapsResults: CapsResult
    var urlRuleResults: Verdict
    var namesRuleResults: Verdict
    var descriptorRuleResults: Verdict
    var safeguardingRuleResults: Assessment
    var complaintRuleResults: Verdict
    var profanityRuleSoftResults: Verdict
    var emailRuleResults: Verdict
    var notExperienceRuleResults: Verdict
    var profanityRuleResults: Verdict
    var results: Report

    /** The comment is processed by the language pipeline, whose document
        keeps the comment as its text, and its tokens are lower-cased. The
        result fields hold nothing until `Apply`. */
    constructor (body: string, orgName: string, world: World)
      ensures this.world == world && this.orgName == orgName
      ensures this.body.text == body && this.body.tokens == world.tokenize(body)
      ensures words == LowerAll(world.tokenize(body))
    {
      this.world := world;
      this.body := Doc(body, world.tokenize(body));
      this.orgName := orgName;
      var tokens := world.tokenize(body);
      var lowered: seq<string> := [];
      for k := 0 to |tokens|
        invariant lowered == LowerAll(tokens[..k])
      {
        lowered := lowered + [Lower(tokens[k])];
        assert tokens[..k + 1] == tokens[..k] + [tokens[k]];
        LowerAllAppend(tokens[..k], tokens[k]);
      }
      assert tokens[..|tokens|] == tokens;
      this.words := lowered;
      var none := Verdict(0, []);
      allCapsResults := CapsResult(0, 0, []);
      urlRuleResults, namesRuleResults, descriptorRuleResults := none, none, none;
      safeguardingRuleResults := Assessment(0, [], "");
      complaintRuleResults, profanityRuleSoftResults, emailRuleResults := none, none, none;
      notExperienceRuleResults, profanityRuleResults := none, none;
      results := Report("", []);
    }

    /** `apply`: the nine rules run in dispatch order, the hard-profanity rule on
        the tokens, the results stored, and the report of the rules that did
        not pass. A rule that raises aborts the pass and nothing is stored. */
    method Apply() returns (r: Result<Report>)
      modifies this
      ensures r == ApplySpec(world, old(body), old(orgName), old(words))
      ensures body == old(body) && orgName == old(orgName) && words == old(words)
      ensures r.Err? ==> unchanged(this)
      ensures r.Ok? ==> results == r.value
      ensures r.Ok? ==> var o := RunRules(world, body, orgName).value;
        && allCapsResults == o.allCaps && urlRuleResults == o.url && namesRuleResults == o.names
        && descriptorRuleResults == o.descriptor && safeguardingRuleResults == o.safeguarding
        && complaintRuleResults == o.complaint && profanityRuleSoftResults == o.soft
        && emailRuleResults == o.email && notExperienceRuleResults == o.notExperience
        && profanityRuleResults == ProfanityRule(words, world.lex.profanity, world.listing)
    {
      var run := RunAll(world, body, orgName);
      if run.Err? {
        return Err(run.error);
      }
      var o := run.value;
      var profanity := ProfanityRule(words, world.lex.profanity, world.listing);
      var report := Report("ids", Filter(AllEntries(o, profanity), IsFlagged));
      Store(o, profanity, report);
      r := Ok(report);
    }

    /** The rules' results and the report stored on the object. */
    method Store(o: Outputs, profanity: Verdict, report: Report)
      modifies this
      ensures allCapsResults == o.allCaps && urlRuleResults == o.url && namesRuleResults == o.names
      ensures descriptorRuleResults == o.descriptor && safeguardingRuleResults == o.safeguarding
      ensures complaintRuleResults == o.complaint && profanityRuleSoftResults == o.soft
      ensures emailRuleResults == o.email && notExperienceRuleResults == o.notExperience
      ensures body == old(body) && orgName == old(orgName) && words == old(words)
      ensures profanityRuleResults == profanity && results == report
    {
      StoreFindings(o, profanity);
      StoreAnswers(o, report);
    }

    /** The results of the rules that report what they found. */
    method StoreFindings(o: Outputs, profanity: Verdict)
      modifies this`allCapsResults, this`urlRuleResults, this`namesRuleResults, this`descriptorRuleResults
      modifies this`profanityRuleSoftResults, this`emailRuleResults, this`profanityRuleResults
      ensures allCapsResults == o.allCaps && urlRuleResults == o.url && namesRuleResults == o.names
      ensures descriptorRuleResults == o.descriptor && profanityRuleSoftResults == o.soft
      ensures emailRuleResults == o.email && profanityRuleResults == profanity
    {
      allCapsResults := o.allCaps;
      urlRuleResults := o.url;
      namesRuleResults := o.names;
      descriptorRuleResults := o.descriptor;
      profanityRuleSoftResults := o.soft;
      emailRuleResults := o.email;
      profanityRuleResults := profanity;
    }

    /** The results of the rules that ask a model a question, and the report. */
    method StoreAnswers(o: Outputs, report: Report)
      modifies this`safeguardingRuleResults, this`complaintRuleResults, this`notExperienceRuleResults, this`results
      ensures safeguardingRuleResults == o.safeguarding && complaintRuleResults == o.complaint
      ensures notExperienceRuleResults == o.notExperience && results == report
    {
      safeguardingRuleResults := o.safeguarding;
      complaintRuleResults := o.complaint;
      notExperienceRuleResults := o.notExperience;
      results := report;
    }
  }

  /** `exec_in_parallel` over the nine rules, run one after another in dispatch
      order; the first rule to raise ends the run with its error. */
  method RunAll(w: World, doc: Doc, orgName: string) returns (r: Result<Outputs>)
    ensures r == RunRules(w, doc, orgName)
  {
    var text := doc.text;
    var lower := Lower(text);
    var capsCode, capsCount, capsWords := AllCapsRule(doc, w.lex.acronyms);
    var url := CheckUrlRule(doc, w.matcher, w.urlRegex);
    var names := NamesRule(text, orgName, w.env, w.namesModel, w.lex, w.listing, w.partialRatio);
    if names.Err? {
      return Err(names.error);
    }
    var descriptor := DescriptorRule(Text(lower), w.env, w.descriptionsModel, w.lex.descriptionsAdj, w.lex.descriptionsNouns);
    if descriptor.Err? {
      return Err(descriptor.error);
    }
    var safeguarding := SafeguardingRule(lower, w.env, w.safeguardingModel);
    if safeguarding.Err? {
      return Err(safeguarding.error);
    }
    var complaint := ComplaintRule(Text(lower), w.env, w.complaintsModel);
    if complaint.Err? {
      return Err(complaint.error);
    }
    // The soft-profanity and e-mail rules only raise on a non-string argument.
    var soft := ProfanityRuleSoft(Text(lower), w.lex.profanitySoft, w.listing);
    var email := CheckEmailRule(Text(text));
    var notExperience := NotExperienceRule(Text(lower), w.env, w.notAnExperienceModel);
    if notExperience.Err? {
      return Err(notExperience.error);
    }
    r := Ok(Outputs(CapsResult(capsCode, capsCount, capsWords), url, names.value, descriptor.value,
                    safeguarding.value, complaint.value, soft.value, email.value, notExperience.value));
  }

  /** Lower-casing a list one more item at a time. */
  lemma LowerAllAppend(xs: seq<string>, x: string)
    ensures LowerAll(xs + [x]) == LowerAll(xs) + [Lower(x)]
  {
  }
}
