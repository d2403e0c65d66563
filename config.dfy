/** The thresholds of the moderation rules and the word lists they read. */
module Config {
  import opened PyStr

  /** This many all-caps words or more fail the review outright. */
  const AllCapsThreshold := 3
  /** A fuzzy partial ratio (0..100) at or above this exempts a name as part of the organisation's name. */
  const PartialRatioThreshold := 89
  /** Texts of at most this many characters are titles, not review bodies. */
  const MaxTitleChars := 60

  /** The word lists read from the data files at start-up. */
  datatype Lexicons = Lexicons(
    acronyms: seq<string>,
    profanity: seq<string>,
    profanitySoft: seq<string>,
    descriptionsAdj: seq<string>,
    descriptionsNouns: seq<string>,
    nonNames: seq<string>,
    defNames: seq<string>)

  predicate AllLower(xs: seq<string>) {
    forall i :: 0 <= i < |xs| ==> Lower(xs[i]) == xs[i]
  }

  /** `[word.lower() for word in xs]` */
  function LowerAll(xs: seq<string>): (r: seq<string>)
    ensures |r| == |xs| && AllLower(r)
    ensures forall i :: 0 <= i < |xs| ==> r[i] == Lower(xs[i])
  {
    seq(|xs|, i requires 0 <= i < |xs| => Lower(xs[i]))
  }

  /** Builds the word lists from the rows of the data files: the non-name and
      definite-name lists are lower-cased, the others are kept as read. */
  function LoadLexicons(acronyms: seq<string>, profanity: seq<string>, profanitySoft: seq<string>,
                        descriptionsAdj: seq<string>, descriptionsNouns: seq<string>,
                        nonNames: seq<string>, defNames: seq<string>): (lex: Lexicons)
    ensures AllLower(lex.nonNames) && AllLower(lex.defNames)
    ensures |lex.nonNames| == |nonNames| && |lex.defNames| == |defNames|
    ensures forall i :: 0 <= i < |nonNames| ==> lex.nonNames[i] == Lower(nonNames[i])
    ensures forall i :: 0 <= i < |defNames| ==> lex.defNames[i] == Lower(defNames[i])
    ensures lex.acronyms == acronyms && lex.profanity == profanity && lex.profanitySoft == profanitySoft
    ensures lex.descriptionsAdj == descriptionsAdj && lex.descriptionsNouns == descriptionsNouns
  {
    Lexicons(acronyms, profanity, profanitySoft, descriptionsAdj, descriptionsNouns,
             LowerAll(nonNames), LowerAll(defNames))
  }
}
