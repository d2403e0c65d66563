/** The string helpers shared by the moderation rules: cleaning an API key,
    repairing an endpoint URL, naming a result code, tidying output text and
    the "is this English" character test. */
module CommonFunctions {
  import opened Outcome
  import opened Seqs
  import opened PyStr

  /** The three quote characters stripped from keys and URLs. */
  const Quotes: seq<char> := ['\'', '`', '"']

  // ---------------------------------------------------------------- clean_api_key

  /** What a cleaned key is: the key without surrounding whitespace, with every
      quote character deleted. */
  function CleanedKey(apiKey: string): (r: string)
    ensures forall i :: 0 <= i < |r| ==> r[i] !in Quotes
  {
    DeleteChars(Strip(apiKey), Quotes)
  }

  /** `clean_api_key`: strip, then delete `'`, `` ` `` and `"` one after another. */
  method CleanApiKey(apiKey: string) returns (key: string)
    ensures key == CleanedKey(apiKey)
  {
    key := Strip(apiKey);
    ghost var stripped := key;
    key := DeleteChars(key, ['\'']);
    key := DeleteChars(key, ['`']);
    key := DeleteChars(key, ['"']);
    DeleteQuotesOneByOne(stripped);
  }

  /** Deleting the three quote characters one after another deletes all of them. */
  lemma DeleteQuotesOneByOne(s: string)
    ensures DeleteChars(DeleteChars(DeleteChars(s, ['\'']), ['`']), ['"']) == DeleteChars(s, Quotes)
  {
    var both: seq<char> := ['\'', '`'];
    assert ['\''] + ['`'] == both;
    assert both + ['"'] == Quotes;
    DeleteCharsTwice(s, ['\''], ['`']);
    DeleteCharsTwice(s, both, ['"']);
  }

  /** Cleaning only deletes quotes: every other character of the stripped key
      survives, in order and as often as it occurred. */
  lemma CleanedKeyKeepsTheRest(apiKey: string)
    ensures IsSubseq(CleanedKey(apiKey), Strip(apiKey))
    ensures forall c :: c !in Quotes ==> multiset(CleanedKey(apiKey))[c] == multiset(Strip(apiKey))[c]
  {
    DeleteCharsInOrder(Strip(apiKey), Quotes);
    DeleteCharsCounts(Strip(apiKey), Quotes);
  }

  // ----------------------------------------------------------- correct_url_format

  predicate HasScheme(s: string) {
    StartsWith(s, "http://") || StartsWith(s, "https://")
  }

  predicate IsLeadingQuote(c: char) { c == '\'' || c == '"' }

  /** `url.strip().lstrip("'\"")` */
  function Trimmed(url: string): string {
    LStrip(Strip(url), IsLeadingQuote)
  }

  /** `re.search(r"http://|https://", s)` from position `from`: the leftmost
      position at which a scheme starts, if any. */
  function SchemeSearch(s: string, from: nat): (r: Option<nat>)
    requires from <= |s|
    ensures r.Some? ==> from <= r.value <= |s| && HasScheme(s[r.value..])
    ensures r.Some? ==> forall j :: from <= j < r.value ==> !HasScheme(s[j..])
    ensures r.None? ==> forall j :: from <= j <= |s| ==> !HasScheme(s[j..])
    decreases |s| - from
  {
    if HasScheme(s[from..]) then Some(from)
    else if from == |s| then None
    else SchemeSearch(s, from + 1)
  }

  /** The trimmed URL from its scheme on: unchanged when it starts with one,
      cut at the leftmost one inside it, or given `http://` when it has none. */
  function FromScheme(t: string): (u: string)
    ensures HasScheme(u)
  {
    if HasScheme(t) then t
    else match SchemeSearch(t, 0)
      case Some(i) => t[i..]
      case None =>
        assert ("http://" + t)[..7] == "http://";
        "http://" + t
  }

  /** What `correct_url_format` returns. */
  function CorrectedUrl(url: string): string {
    DeleteChars(FromScheme(Trimmed(url)), Quotes)
  }

  /** `correct_url_format`: the URL is rebound step by step as in the source. */
  method CorrectUrlFormat(url: string) returns (r: string)
    ensures r == CorrectedUrl(url)
  {
    r := Strip(url);
    r := LStrip(r, IsLeadingQuote);
    if !HasScheme(r) {
      var httpMatch := SchemeSearch(r, 0);
      if httpMatch.Some? {
        r := r[httpMatch.value..];
      } else {
        r := "http://" + r;
      }
    }
    ghost var sliced := r;
    r := DeleteChars(r, ['\'']);
    r := DeleteChars(r, ['`']);
    r := DeleteChars(r, ['"']);
    DeleteQuotesOneByOne(sliced);
  }

  lemma SchemeSurvivesQuoteDeletion(u: string)
    requires HasScheme(u)
    ensures HasScheme(DeleteChars(u, Quotes))
  {
    var scheme: string := if StartsWith(u, "http://") then "http://" else "https://";
    assert u == scheme + u[|scheme|..];
    DeleteCharsAppend(scheme, u[|scheme|..], Quotes);
    SchemeHasNoQuotes(scheme);
    assert (scheme + DeleteChars(u[|scheme|..], Quotes))[..|scheme|] == scheme;
  }

  /** Neither scheme contains a quote character. */
  lemma SchemeHasNoQuotes(scheme: string)
    requires scheme == "http://" || scheme == "https://"
    ensures DeleteChars(scheme, Quotes) == scheme
  {
    forall i | 0 <= i < |scheme|
      ensures scheme[i] !in Quotes
    {
      assert scheme[i] in "htps:/";
    }
    DeleteCharsAbsent(scheme, Quotes);
  }

  /** Whatever it is given, the corrected URL starts with `http://` or `https://`. */
  lemma CorrectedUrlHasScheme(url: string)
    ensures HasScheme(CorrectedUrl(url))
  {
    SchemeSurvivesQuoteDeletion(FromScheme(Trimmed(url)));
  }

  /** The corrected URL holds no quote characters. */
  lemma CorrectedUrlHasNoQuotes(url: string)
    ensures forall i :: 0 <= i < |CorrectedUrl(url)| ==> CorrectedUrl(url)[i] !in Quotes
  {
  }

  /** A trimmed URL that already carries a scheme only loses its quotes. */
  lemma CorrectedUrlKeepsScheme(url: string)
    requires HasScheme(Trimmed(url))
    ensures CorrectedUrl(url) == DeleteChars(Trimmed(url), Quotes)
  {
  }

  /** A URL with a scheme somewhere inside is cut at the leftmost one. */
  lemma CorrectedUrlCutsAtLeftmostScheme(url: string, i: nat)
    requires !HasScheme(Trimmed(url)) && i <= |Trimmed(url)| && HasScheme(Trimmed(url)[i..])
    requires forall j :: 0 <= j < i ==> !HasScheme(Trimmed(url)[j..])
    ensures CorrectedUrl(url) == DeleteChars(Trimmed(url)[i..], Quotes)
  {
    var t := Trimmed(url);
    var m := SchemeSearch(t, 0);
    assert m.Some? && m.value == i;
  }

  /** A URL with no scheme anywhere gets `http://` in front. */
  lemma CorrectedUrlDefaultsToHttp(url: string)
    requires forall j :: 0 <= j <= |Trimmed(url)| ==> !HasScheme(Trimmed(url)[j..])
    ensures CorrectedUrl(url) == DeleteChars("http://" + Trimmed(url), Quotes)
  {
    var t := Trimmed(url);
    assert t[0..] == t;
  }

  // ---------------------------------------------------------- result_code_mappers

  /** `result_code_mappers`: the explanation of a rule's code. */
  function ResultCodeMapper(code: int): (r: Result<string>)
    ensures r.Ok? <==> 0 <= code <= 2
    ensures r.Err? ==> r.error == IntKeyError(code)
    ensures code == 0 ==> r == Ok("passed")
    ensures code == 1 ==> r == Ok("failed")
    ensures code == 2 ==> r == Ok("human moderation required")
  {
    var m := map[0 := "passed", 1 := "failed", 2 := "human moderation required"];
    if code in m then Ok(m[code]) else Err(IntKeyError(code))
  }

  /** Different codes never share an explanation. */
  lemma ResultCodeMapperInjective(a: int, b: int)
    requires ResultCodeMapper(a).Ok? && ResultCodeMapper(b).Ok?
    requires ResultCodeMapper(a) == ResultCodeMapper(b)
    ensures a == b
  {
  }

  // ----------------------------------------------------------- format_output_text

  const Brackets: seq<char> := ['{', '}', '[', ']']

  /** What `format_output_text` returns: `},` becomes `<br>`, then brackets and braces go. */
  function FormattedText(s: string): (r: string)
    ensures forall i :: 0 <= i < |r| ==> r[i] !in Brackets
  {
    DeleteChars(ReplaceAll(s, "},", "<br>"), Brackets)
  }

  /** `format_output_text`: the replacement, then one deletion per bracket
      character that is still present. */
  method FormatOutputText(s: string) returns (r: string)
    ensures r == FormattedText(s)
  {
    r := ReplaceAll(s, "},", "<br>");
    ghost var replaced := r;
    assert Brackets[..0] == [];
    DeleteCharsAbsent(replaced, []);
    for k := 0 to |Brackets|
      invariant r == DeleteChars(replaced, Brackets[..k])
    {
      var ch := Brackets[k];
      if ch in r {
        r := DeleteChars(r, [ch]);
      } else {
        DeleteCharsAbsent(r, [ch]);
      }
      DeleteCharsTwice(replaced, Brackets[..k], [ch]);
      assert Brackets[..k + 1] == Brackets[..k] + [ch];
    }
    assert Brackets[..|Brackets|] == Brackets;
  }

  /** Formatting formatted text changes nothing. */
  lemma FormattedTextIdempotent(s: string)
    ensures FormattedText(FormattedText(s)) == FormattedText(s)
  {
    var r := FormattedText(s);
    assert '}' !in r;
    ReplaceAllAbsent(r, "},", "<br>");
    DeleteCharsAbsent(r, Brackets);
  }

  // -------------------------------------------------------------------- isEnglish

  /** The thirteen non-ASCII characters `isEnglish` tolerates. */
  const Tolerated: seq<char> := [
    '\U{FE0F}', '\U{BD}', '\U{E2}', '\U{BA}', '\U{E0}', '\U{E7}', '\U{15F}',
    '\U{E9}', '\U{E8}', '\U{13A}', '\U{155}', '\U{131}', '\U{F6}']

  /** `s.encode("ascii", "ignore").decode()` */
  function AsciiOnly(s: string): string {
    Filter(s, IsAscii)
  }

  /** `isEnglish`: after deleting the tolerated characters, the text is unchanged
      by dropping its non-ASCII characters. It holds exactly when every character
      is ASCII or tolerated. */
  function IsEnglish(s: string): (r: bool)
    ensures r <==> forall c :: c in s ==> IsAscii(c) || c in Tolerated
  {
    var t := DeleteChars(s, Tolerated);
    DeleteCharsMembers(s, Tolerated);
    FilterIdentity(t, IsAscii);
    assert (forall i :: 0 <= i < |t| ==> IsAscii(t[i])) <==> (forall c :: c in t ==> IsAscii(c));
    t == AsciiOnly(t)
  }
}
