/** The e-mail rule: any address in the comment fails it. The addresses are
    what `re.findall` returns for `[a-zA-Z0-9._%+-]+@[a-zA-Z0-9.-]+\.[a-zA-Z]{2,}`,
    scanned here by hand: leftmost match first, each part as long as possible
    (the domain part giving back characters until a dot followed by at least
    two letters is found), the next search starting where a match ended. */
module EmailRule {
  import opened Outcome
  import opened PyStr

  /** `[a-zA-Z0-9._%+-]` */
  predicate IsLocalChar(c: char) {
    IsAsciiLetter(c) || IsAsciiDigit(c) || c == '.' || c == '_' || c == '%' || c == '+' || c == '-'
  }

  /** `[a-zA-Z0-9.-]` */
  predicate IsDomainChar(c: char) {
    IsAsciiLetter(c) || IsAsciiDigit(c) || c == '.' || c == '-'
  }

  /** The three character classes of the pattern. */
  datatype CharClass = LocalChars | DomainChars | Letters

  predicate InClass(c: char, cls: CharClass) {
    match cls
    case LocalChars => IsLocalChar(c)
    case DomainChars => IsDomainChar(c)
    case Letters => IsAsciiLetter(c)
  }

  predicate AllIn(s: string, lo: nat, hi: nat, cls: CharClass)
    requires lo <= hi <= |s|
  {
    forall k :: lo <= k < hi ==> InClass(s[k], cls)
  }

  /** The end of the longest run of `p` characters starting at `i`. */
  function RunEnd(s: string, i: nat, cls: CharClass): (j: nat)
    requires i <= |s|
    ensures i <= j <= |s| && AllIn(s, i, j, cls)
    ensures j < |s| ==> !InClass(s[j], cls)
    decreases |s| - i
  {
    if i < |s| && InClass(s[i], cls) then RunEnd(s, i + 1, cls) else i
  }

  /** Where an address was found: the local part is `s[start..at]`, `@` is at
      `at`, the domain is `s[at + 1..dot]`, `.` is at `dot`, and the top-level
      part is `s[dot + 1..end]`. */
  datatype Span = Span(start: nat, at: nat, dot: nat, end: nat)

  /** `s[sp.start..sp.end]` is a match of the address pattern, with a top-level
      part that cannot be extended. */
  predicate IsAddressSpan(s: string, sp: Span) {
    && sp.start < sp.at && sp.at + 1 < sp.dot && sp.dot + 3 <= sp.end <= |s|
    && AllIn(s, sp.start, sp.at, LocalChars)
    && s[sp.at] == '@'
    && AllIn(s, sp.at + 1, sp.dot, DomainChars)
    && s[sp.dot] == '.'
    && AllIn(s, sp.dot + 1, sp.end, Letters)
    && (sp.end < |s| ==> !IsAsciiLetter(s[sp.end]))
  }

  /** `\.[a-zA-Z]{2,}` at position `k`: the end of the top-level part. */
  function TopLevelAt(s: string, k: nat): (r: Option<nat>)
    requires k < |s|
    ensures r.Some? ==> s[k] == '.' && k + 3 <= r.value <= |s| && AllIn(s, k + 1, r.value, Letters)
    ensures r.Some? ==> r.value < |s| ==> !IsAsciiLetter(s[r.value])
  {
    if s[k] != '.' then None
    else
      var t := RunEnd(s, k + 1, Letters);
      if t >= k + 3 then Some(t) else None
  }

  /** The domain part giving back characters: the last position from `k` down
      to `lo` where a dot and a top-level part follow. */
  function DotSearch(s: string, lo: nat, k: int): (r: Option<(nat, nat)>)
    requires k < |s|
    ensures r.Some? ==> lo <= r.value.0 <= k && s[r.value.0] == '.'
    ensures r.Some? ==> r.value.0 + 3 <= r.value.1 <= |s| && AllIn(s, r.value.0 + 1, r.value.1, Letters)
    ensures r.Some? ==> r.value.1 < |s| ==> !IsAsciiLetter(s[r.value.1])
    decreases k - lo
  {
    if k < lo then None
    else match TopLevelAt(s, k)
      case Some(t) => Some((k, t))
      case None => DotSearch(s, lo, k - 1)
  }

  /** The match of the pattern that starts at position `i`, if there is one. */
  function MatchAt(s: string, i: nat): (r: Option<Span>)
    requires i <= |s|
    ensures r.Some? ==> r.value.start == i && IsAddressSpan(s, r.value)
    ensures r.Some? ==> i < r.value.end <= |s|
  {
    var at := RunEnd(s, i, LocalChars);
    if at == i || at == |s| || s[at] != '@' then None
    else
      var e := RunEnd(s, at + 1, DomainChars);
      match DotSearch(s, at + 2, e - 1)
      case Some(found) => Some(Span(i, at, found.0, found.1))
      case None => None
  }

  /** The spans `re.findall` reports from position `i` on: left to right,
      each a match of the pattern, none overlapping the next. */
  function FindAllSpans(s: string, i: nat): (r: seq<Span>)
    requires i <= |s|
    ensures forall k :: 0 <= k < |r| ==> i <= r[k].start < r[k].end <= |s|
    decreases |s| - i
  {
    if i == |s| then []
    else match MatchAt(s, i)
      case Some(sp) =>
        var rest := FindAllSpans(s, sp.end);
        [sp] + rest
      case None => FindAllSpans(s, i + 1)
  }

  /** One step of the scan: a match at `i` is reported and the scan resumes at
      its end; otherwise the scan moves on by one character. */
  lemma FindAllSpansStep(s: string, i: nat)
    requires i < |s|
    ensures MatchAt(s, i).Some? ==> FindAllSpans(s, i) == [MatchAt(s, i).value] + FindAllSpans(s, MatchAt(s, i).value.end)
    ensures MatchAt(s, i).None? ==> FindAllSpans(s, i) == FindAllSpans(s, i + 1)
  {
  }

  /** Each span of `r` is the match of the pattern at its start. */
  predicate AllMatches(s: string, r: seq<Span>)
    decreases |r|
  {
    r == [] || (r[0].start <= |s| && MatchAt(s, r[0].start) == Some(r[0]) && AllMatches(s, r[1..]))
  }

  /** `AllMatches` read span by span. */
  lemma {:induction false} MatchOf(s: string, r: seq<Span>, k: nat)
    requires AllMatches(s, r) && k < |r|
    ensures r[k].start <= |s| && MatchAt(s, r[k].start) == Some(r[k])
    decreases k
  {
    if k > 0 {
      MatchOf(s, r[1..], k - 1);
      assert r[1..][k - 1] == r[k];
    }
  }

  /** A match followed by matches is a list of matches. */
  lemma MatchesCons(s: string, sp: Span, rest: seq<Span>)
    requires sp.start <= |s| && MatchAt(s, sp.start) == Some(sp) && AllMatches(s, rest)
    ensures AllMatches(s, [sp] + rest)
  {
    assert ([sp] + rest)[1..] == rest;
  }

  /** Each reported span is the match of the pattern at its start, and so an
      address span. */
  lemma {:induction false} FindAllSpansAreMatches(s: string, i: nat)
    requires i <= |s|
    ensures AllMatches(s, FindAllSpans(s, i))
    decreases |s| - i, 1
  {
    if i < |s| {
      if MatchAt(s, i).Some? {
        MatchedSpansAreMatches(s, i);
      } else {
        FindAllSpansStep(s, i);
        FindAllSpansAreMatches(s, i + 1);
      }
    }
  }

  /** The step of `FindAllSpansAreMatches` where the pattern matches at `i`. */
  lemma {:induction false} MatchedSpansAreMatches(s: string, i: nat)
    requires i < |s| && MatchAt(s, i).Some?
    ensures AllMatches(s, FindAllSpans(s, i))
    decreases |s| - i, 0
  {
    var sp := MatchAt(s, i).value;
    var rest := FindAllSpans(s, sp.end);
    FindAllSpansStep(s, i);
    FindAllSpansAreMatches(s, sp.end);
    MatchesCons(s, sp, rest);
  }

  /** Each span of `r` starts at or after the end of the one before. */
  predicate Ordered(r: seq<Span>) {
    forall k :: 0 <= k < |r| - 1 ==> r[k].end <= r[k + 1].start
  }

  lemma OrderedCons(sp: Span, rest: seq<Span>)
    requires Ordered(rest) && (rest != [] ==> sp.end <= rest[0].start)
    ensures Ordered([sp] + rest)
  {
    var r := [sp] + rest;
    forall k | 0 <= k < |r| - 1
      ensures r[k].end <= r[k + 1].start
    {
      if k > 0 {
        assert r[k] == rest[k - 1] && r[k + 1] == rest[k];
      }
    }
  }

  /** The reported spans do not overlap, and each starts after the previous
      one ended. */
  lemma {:induction false} FindAllSpansOrdered(s: string, i: nat)
    requires i <= |s|
    ensures Ordered(FindAllSpans(s, i))
    decreases |s| - i
  {
    if i < |s| {
      var m := MatchAt(s, i);
      FindAllSpansStep(s, i);
      if m.Some? {
        var rest := FindAllSpans(s, m.value.end);
        FindAllSpansOrdered(s, m.value.end);
        OrderedCons(m.value, rest);
        assert FindAllSpans(s, i) == [m.value] + rest;
      } else {
        FindAllSpansOrdered(s, i + 1);
        assert FindAllSpans(s, i) == FindAllSpans(s, i + 1);
      }
    } else {
      assert FindAllSpans(s, i) == [];
    }
  }

  /** No match starts at a position from `j0` up to `j1`. */
  predicate NoMatchBetween(s: string, j0: nat, j1: nat)
    decreases j1 - j0
  {
    j0 >= j1 || j0 >= |s| || (MatchAt(s, j0).None? && NoMatchBetween(s, j0 + 1, j1))
  }

  /** `NoMatchBetween` position by position. */
  lemma {:induction false} NoMatchAt(s: string, j0: nat, j1: nat, j: nat)
    requires NoMatchBetween(s, j0, j1) && j0 <= j < j1 && j < |s|
    ensures MatchAt(s, j).None?
    decreases j - j0
  {
    if j0 < j {
      NoMatchAt(s, j0 + 1, j1, j);
    }
  }

  /** Where the first reported span from `i` on starts: the end of the text
      when there is none. */
  function FirstStart(s: string, r: seq<Span>): nat {
    if r == [] then |s| else r[0].start
  }

  /** The scan is leftmost: no match starts at a position before the first
      reported span. */
  lemma {:induction false} FindAllSpansSkipsNoMatch(s: string, i: nat)
    requires i <= |s|
    ensures NoMatchBetween(s, i, FirstStart(s, FindAllSpans(s, i)))
    decreases |s| - i
  {
    if i < |s| {
      var m := MatchAt(s, i);
      FindAllSpansStep(s, i);
      if m.None? {
        FindAllSpansSkipsNoMatch(s, i + 1);
        assert FindAllSpans(s, i) == FindAllSpans(s, i + 1);
      } else {
        assert FindAllSpans(s, i)[0] == m.value;
      }
    }
  }

  /** No match starts in a gap between two consecutive spans of `r`. */
  predicate NoMatchInGaps(s: string, r: seq<Span>)
    decreases |r|
  {
    |r| < 2 || (NoMatchBetween(s, r[0].end, r[1].start) && NoMatchInGaps(s, r[1..]))
  }

  /** `NoMatchInGaps` gap by gap. */
  lemma {:induction false} NoMatchInGap(s: string, r: seq<Span>, k: nat, j: nat)
    requires NoMatchInGaps(s, r) && k < |r| - 1 && r[k].end <= j < r[k + 1].start && j < |s|
    ensures MatchAt(s, j).None?
    decreases k
  {
    if k == 0 {
      NoMatchAt(s, r[0].end, r[1].start, j);
    } else {
      assert r[k] == r[1..][k - 1] && r[k + 1] == r[1..][k];
      NoMatchInGap(s, r[1..], k - 1, j);
    }
  }

  /** Between one reported span's end and the next one's start no match starts:
      the search resumes where a match ended and takes the leftmost match. */
  lemma {:induction false} FindAllSpansSkipsNoMatchBetween(s: string, i: nat)
    requires i <= |s|
    ensures NoMatchInGaps(s, FindAllSpans(s, i))
    decreases |s| - i
  {
    if i < |s| {
      var m := MatchAt(s, i);
      FindAllSpansStep(s, i);
      if m.Some? {
        var rest := FindAllSpans(s, m.value.end);
        FindAllSpansSkipsNoMatchBetween(s, m.value.end);
        FindAllSpansSkipsNoMatch(s, m.value.end);
        assert ([m.value] + rest)[1..] == rest;
        assert FindAllSpans(s, i) == [m.value] + rest;
      } else {
        FindAllSpansSkipsNoMatchBetween(s, i + 1);
        assert FindAllSpans(s, i) == FindAllSpans(s, i + 1);
      }
    } else {
      assert FindAllSpans(s, i) == [];
    }
  }

  /** `re.findall(email_regex, s)`: the text of each span. */
  function FindAll(s: string): (r: seq<string>)
    ensures |r| == |FindAllSpans(s, 0)|
    ensures forall k :: 0 <= k < |r| ==>
      var sp := FindAllSpans(s, 0)[k]; sp.start <= sp.end <= |s| && r[k] == s[sp.start..sp.end]
  {
    var spans := FindAllSpans(s, 0);
    seq(|spans|, k requires 0 <= k < |spans| => s[spans[k].start..spans[k].end])
  }

  /** `check_email_rule`: a non-string argument fails the assertion; otherwise
      the score is 1 exactly when an address was found, and the evidence is
      every address found, in the order found, repeats kept. */
  function CheckEmailRule(arg: Arg): (r: Result<Verdict>)
    ensures arg.NotText? <==> r == Err(AssertionError)
    ensures arg.Text? ==> r.Ok? && r.value.values == FindAll(arg.s)
    ensures r.Ok? ==> (r.value.code == 1 <==> r.value.values != []) && (r.value.code == 0 <==> r.value.values == [])
  {
    match arg
    case NotText => Err(AssertionError)
    case Text(text) =>
      var found := FindAll(text);
      if |found| > 0 then Ok(Verdict(1, found)) else Ok(Verdict(0, []))
  }

  const Bracketed: string := "[jo@nhs.uk]."

  lemma BracketedMatch()
    ensures MatchAt(Bracketed, 1) == Some(Span(1, 3, 7, 10))
  {
    var s := Bracketed;
    assert s[1] == 'j' && s[2] == 'o' && s[3] == '@';
    assert RunEnd(s, 3, LocalChars) == 3;
    assert RunEnd(s, 2, LocalChars) == 3;
    assert RunEnd(s, 1, LocalChars) == 3;
    BracketedDomain();
    BracketedDot();
  }

  lemma BracketedDomain()
    ensures RunEnd(Bracketed, 4, DomainChars) == 10
  {
    var s := Bracketed;
    assert s[4] == 'n' && s[5] == 'h' && s[6] == 's' && s[7] == '.' && s[8] == 'u' && s[9] == 'k' && s[10] == ']';
    assert RunEnd(s, 10, DomainChars) == 10;
    assert RunEnd(s, 9, DomainChars) == 10;
    assert RunEnd(s, 8, DomainChars) == 10;
    assert RunEnd(s, 7, DomainChars) == 10;
    assert RunEnd(s, 6, DomainChars) == 10;
    assert RunEnd(s, 5, DomainChars) == 10;
  }

  lemma BracketedDot()
    ensures DotSearch(Bracketed, 5, 9) == Some((7, 10))
  {
    var s := Bracketed;
    assert s[7] == '.' && s[8] == 'u' && s[9] == 'k' && s[10] == ']';
    assert TopLevelAt(s, 9).None?;
    assert TopLevelAt(s, 8).None?;
    assert RunEnd(s, 10, Letters) == 10;
    assert RunEnd(s, 9, Letters) == 10;
    assert RunEnd(s, 8, Letters) == 10;
    assert TopLevelAt(s, 7) == Some(10);
    assert DotSearch(s, 5, 7) == Some((7, 10));
    assert DotSearch(s, 5, 8) == Some((7, 10));
  }

  lemma BracketedTail()
    ensures FindAllSpans(Bracketed, 10) == []
  {
    var s := Bracketed;
    assert s[10] == ']' && s[11] == '.';
    assert RunEnd(s, 10, LocalChars) == 10;
    assert MatchAt(s, 10).None?;
    assert RunEnd(s, 12, LocalChars) == 12;
    assert RunEnd(s, 11, LocalChars) == 12;
    assert MatchAt(s, 11).None?;
    assert FindAllSpans(s, 12) == [];
    assert FindAllSpans(s, 11) == [];
  }

  /** An address in brackets is reported without the brackets, and a trailing
      full stop is left out of its top-level part. */
  lemma EmailExample()
    ensures CheckEmailRule(Text(Bracketed)) == Ok(Verdict(1, ["jo@nhs.uk"]))
  {
    BracketedFound();
  }

  lemma BracketedSpans()
    ensures FindAllSpans(Bracketed, 0) == [Span(1, 3, 7, 10)]
  {
    var s := Bracketed;
    assert s[0] == '[' && RunEnd(s, 0, LocalChars) == 0;
    assert MatchAt(s, 0).None?;
    BracketedMatch();
    BracketedTail();
    FindAllSpansStep(s, 0);
    FindAllSpansStep(s, 1);
  }

  lemma BracketedFound()
    ensures FindAll(Bracketed) == ["jo@nhs.uk"]
  {
    var s := Bracketed;
    BracketedSpans();
    var found := FindAll(s);
    assert |found| == 1 && found[0] == s[1..10];
    BracketedAddress();
  }

  lemma BracketedAddress()
    ensures Bracketed[1..10] == "jo@nhs.uk"
  {
  }
}
