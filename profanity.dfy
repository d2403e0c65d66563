/** The hard-profanity rule: a lexicon entry, lower-cased, that occurs as one
    of the comment's lower-cased tokens fails the comment. The findings are
    collected through a set, so each word is reported once, in the set's
    iteration order. */
module Profanity {
  import opened Outcome
  import opened Seqs
  import opened PyStr

  /** `list(set(hits))` scored: 1 when anything was found, else 0. The order of
      the list is the interpreter's set order, given by `listing`. */
  function DedupVerdict(hits: seq<string>, listing: set<string> -> seq<string>): (v: Verdict)
    ensures v.code == 1 <==> v.values != []
    ensures v.code == 0 <==> v.values == []
  {
    var result := listing(Elems(hits));
    Verdict(if |result| > 0 then 1 else 0, result)
  }

  /** With a listing that enumerates each set exactly, the verdict lists every
      hit once and nothing else. */
  lemma DedupVerdictExact(hits: seq<string>, listing: set<string> -> seq<string>)
    requires ValidListing(listing)
    ensures Distinct(DedupVerdict(hits, listing).values)
    ensures forall w :: w in DedupVerdict(hits, listing).values <==> w in hits
  {
    assert IsListing(listing(Elems(hits)), Elems(hits));
  }

  /** `[p.lower() for p in lexicon if p.lower() in words]` */
  function LexiconHits(lexicon: seq<string>, words: seq<string>): (r: seq<string>)
    ensures forall w :: w in r ==> w in words && exists p :: p in lexicon && Lower(p) == w
    ensures forall p :: p in lexicon && Lower(p) in words ==> Lower(p) in r
  {
    if lexicon == [] then []
    else
      var rest := LexiconHits(lexicon[1..], words);
      assert forall p :: p in lexicon[1..] ==> p in lexicon;
      if Lower(lexicon[0]) in words then [Lower(lexicon[0])] + rest else rest
  }

  /** `profanity_rule` on the lower-cased tokens of the comment. */
  function ProfanityRule(words: seq<string>, lexicon: seq<string>, listing: set<string> -> seq<string>): (v: Verdict)
    ensures v.code == 1 <==> v.values != []
    ensures v.code == 0 <==> v.values == []
  {
    DedupVerdict(LexiconHits(lexicon, words), listing)
  }

  /** Every reported word is a lower-cased lexicon entry found among the tokens;
      every entry whose lower-cased form is a token is reported; nothing is
      reported twice. */
  lemma ProfanityRuleExact(words: seq<string>, lexicon: seq<string>, listing: set<string> -> seq<string>)
    requires ValidListing(listing)
    ensures var v := ProfanityRule(words, lexicon, listing);
      && Distinct(v.values)
      && (forall w :: w in v.values ==> w in words && exists p :: p in lexicon && Lower(p) == w)
      && (forall p :: p in lexicon && Lower(p) in words ==> Lower(p) in v.values)
  {
    DedupVerdictExact(LexiconHits(lexicon, words), listing);
  }

  /** A distinct listing of a one-element set is that element alone. */
  lemma ListingOfSingleton(xs: seq<string>, x: string)
    requires IsListing(xs, {x})
    ensures xs == [x]
  {
    ListingLength(xs, {x});
    assert x in Elems(xs);
  }

  /** The listing of the empty set is empty. */
  lemma ListingOfEmpty(xs: seq<string>)
    requires IsListing(xs, {})
    ensures xs == []
  {
    ListingLength(xs, {});
  }

  /** A clean comment passes; one containing a listed word reports that word alone. */
  lemma ProfanityExamples(listing: set<string> -> seq<string>)
    requires ValidListing(listing)
    ensures ProfanityRule(["a", "kind", "nurse"], ["Cameltoe"], listing) == Verdict(0, [])
    ensures ProfanityRule(["what", "a", "cameltoe"], ["Cameltoe"], listing) == Verdict(1, ["cameltoe"])
  {
    var clean := LexiconHits(["Cameltoe"], ["a", "kind", "nurse"]);
    assert Lower("Cameltoe") == "cameltoe";
    assert clean == [];
    assert Elems(clean) == {};
    ListingOfEmpty(listing({}));
    var hits := LexiconHits(["Cameltoe"], ["what", "a", "cameltoe"]);
    assert hits == ["cameltoe"];
    assert Elems(hits) == {"cameltoe"};
    ListingOfSingleton(listing({"cameltoe"}), "cameltoe");
  }
}
