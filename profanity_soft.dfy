/** The soft-profanity rule: a lexicon entry, lower-cased and stripped, that
    occurs in the (already lower-cased) comment as a whole word sends the
    comment to a moderator. A whole word is bounded on both sides by a regex
    word boundary `\b`, so "prick" matches in "a prick." but not in "prickly". */
module ProfanitySoft {
  import opened Outcome
  import opened Seqs
  import opened PyStr
  import opened Profanity

  /** `\b` at position `i`: a word character on exactly one side of it. */
  predicate IsBoundary(s: string, i: nat)
    requires i <= |s|
  {
    (i > 0 && IsWordChar(s[i - 1])) != (i < |s| && IsWordChar(s[i]))
  }

  /** `\b` + `w` + `\b` matches at position `i` of `s`. */
  predicate WholeWordAt(s: string, w: string, i: nat) {
    i + |w| <= |s| && s[i..i + |w|] == w && IsBoundary(s, i) && IsBoundary(s, i + |w|)
  }

  /** `re.search(r"\b" + w + r"\b", s)` from position `from` on, with `w` taken literally. */
  function SearchWholeWord(s: string, w: string, from: nat): (found: bool)
    requires from <= |s|
    ensures found <==> exists i :: from <= i <= |s| && WholeWordAt(s, w, i)
    decreases |s| - from
  {
    if WholeWordAt(s, w, from) then true
    else if from == |s| then false
    else
      var found := SearchWholeWord(s, w, from + 1);
      assert forall i :: from <= i <= |s| && WholeWordAt(s, w, i) ==> i == from || from + 1 <= i;
      found
  }

  predicate ContainsWholeWord(s: string, w: string) {
    SearchWholeWord(s, w, 0)
  }

  /** The pattern built from a lexicon entry: `p.lower().strip()`. */
  function Pattern(p: string): string {
    Strip(Lower(p))
  }

  /** The lower-cased entries, in lexicon order, whose pattern occurs in `text`
      as a whole word. */
  function SoftHits(lexicon: seq<string>, text: string): (r: seq<string>)
    ensures forall w :: w in r <==> exists p :: p in lexicon && Lower(p) == w && ContainsWholeWord(text, Pattern(p))
  {
    if lexicon == [] then []
    else
      var p := lexicon[|lexicon| - 1];
      assert lexicon == lexicon[..|lexicon| - 1] + [p];
      SoftHits(lexicon[..|lexicon| - 1], text) + (if ContainsWholeWord(text, Pattern(p)) then [Lower(p)] else [])
  }

  /** What `profanity_rule_soft` returns for an argument. */
  function ProfanityRuleSoftSpec(arg: Arg, lexicon: seq<string>, listing: set<string> -> seq<string>): (r: Result<Verdict>)
    ensures arg.NotText? <==> r == Err(AssertionError)
    ensures r.Ok? ==> (r.value.code == 1 <==> r.value.values != []) && (r.value.code == 0 <==> r.value.values == [])
  {
    match arg
    case NotText => Err(AssertionError)
    case Text(text) => Ok(DedupVerdict(SoftHits(lexicon, text), listing))
  }

  /** `profanity_rule_soft`: the string check, one search per lexicon entry
      appending its lower-cased form, then de-duplication through a set. */
  method ProfanityRuleSoft(arg: Arg, lexicon: seq<string>, listing: set<string> -> seq<string>) returns (r: Result<Verdict>)
    ensures r == ProfanityRuleSoftSpec(arg, lexicon, listing)
  {
    if arg.NotText? {
      return Err(AssertionError);
    }
    var text := arg.s;
    var result: seq<string> := [];
    for k := 0 to |lexicon|
      invariant result == SoftHits(lexicon[..k], text)
    {
      var pattern := Strip(Lower(lexicon[k]));
      if SearchWholeWord(text, pattern, 0) {
        result := result + [Lower(lexicon[k])];
      }
      assert lexicon[..k + 1][..k] == lexicon[..k];
    }
    assert lexicon[..|lexicon|] == lexicon;
    var deduped := listing(Elems(result));
    if |deduped| > 0 {
      r := Ok(Verdict(1, deduped));
    } else {
      r := Ok(Verdict(0, deduped));
    }
  }

  /** With an exact set listing, an entry is reported exactly when its pattern
      occurs as a whole word, it is reported lower-cased, and only once. */
  lemma ProfanityRuleSoftExact(text: string, lexicon: seq<string>, listing: set<string> -> seq<string>)
    requires ValidListing(listing)
    ensures var r := ProfanityRuleSoftSpec(Text(text), lexicon, listing);
      && r.Ok?
      && Distinct(r.value.values)
      && (forall w :: w in r.value.values <==> exists p :: p in lexicon && Lower(p) == w && ContainsWholeWord(text, Pattern(p)))
  {
    DedupVerdictExact(SoftHits(lexicon, text), listing);
  }

  /** A word is found on its own but not inside a longer word. */
  lemma WholeWordExamples()
    ensures ContainsWholeWord("the doctor is a prick", "prick")
    ensures !ContainsWholeWord("a prickly pear", "prick")
  {
    var s := "the doctor is a prick";
    assert s[16..21] == "prick";
    assert WholeWordAt(s, "prick", 16);
    var t := "a prickly pear";
    forall i | 0 <= i <= |t|
      ensures !WholeWordAt(t, "prick", i)
    {
      if i + 5 <= |t| && t[i..i + 5] == "prick" {
        var w := t[i..i + 5];
        assert w[0] == t[i] && w[1] == t[i + 1];
        assert t[i] == 'p' && t[i + 1] == 'r';
        assert i == 2;
        assert IsWordChar(t[7]);
      }
    }
  }
}
