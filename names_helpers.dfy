/** The list handling around the names model: dropping words that are not
    names, adding words that always are, dropping names that resemble the
    organisation under review, and letting a comment sign off with its
    author's name. */
module NamesHelpers {
  import opened Outcome
  import opened Seqs
  import opened PyStr
  import opened Sorting
  import opened Config

  // ------------------------------------------------------------ remove_punctuation

  /** `[\w\s]`: what `remove_punctuation` keeps. */
  predicate IsWordOrSpace(c: char) {
    IsWordChar(c) || IsSpace(c)
  }

  /** `re.sub(r"[^\w\s]", "", s)` */
  function RemovePunctuation(s: string): (r: string)
    ensures |r| <= |s|
    ensures forall c :: c in r <==> c in s && IsWordOrSpace(c)
  {
    Filter(s, IsWordOrSpace)
  }

  /** Punctuation-free text is left as it is, so removing punctuation twice
      removes nothing more. */
  lemma RemovePunctuationIdempotent(s: string)
    ensures RemovePunctuation(RemovePunctuation(s)) == RemovePunctuation(s)
  {
    var r := RemovePunctuation(s);
    FilterIdentity(r, IsWordOrSpace);
  }

  // ------------------------------------------------ remove_non_names, definite_names

  /** `[x for x in xs if (x in ys) == inside]`: the items of `xs` that are (or,
      with `inside` false, are not) in `ys`, in order, repeats kept. */
  function Select(xs: seq<string>, ys: seq<string>, inside: bool): (r: seq<string>)
    ensures |r| <= |xs|
    ensures forall x :: x in r <==> x in xs && (x in ys) == inside
  {
    if xs == [] then []
    else
      assert forall x :: x in xs[1..] ==> x in xs;
      (if (xs[0] in ys) == inside then [xs[0]] else []) + Select(xs[1..], ys, inside)
  }

  /** Selecting keeps every kept item as often as it occurred. */
  lemma {:induction false} SelectMultiset(xs: seq<string>, ys: seq<string>, inside: bool, x: string)
    ensures multiset(Select(xs, ys, inside))[x] == if (x in ys) == inside then multiset(xs)[x] else 0
  {
    if xs != [] {
      SelectMultiset(xs[1..], ys, inside, x);
      assert xs == [xs[0]] + xs[1..];
    }
  }

  /** `remove_non_names`: the suspected names that are not on the non-names list. */
  function RemoveNonNames(result: seq<string>, nonNames: seq<string>): (r: seq<string>)
    ensures forall x :: x in r <==> x in result && x !in nonNames
  {
    Select(result, nonNames, false)
  }

  /** `definite_names`: the words of the punctuation-free, lower-cased text,
      split on single spaces, that are on the definite-names list. */
  function DefiniteNames(text: string, defNames: seq<string>): (r: seq<string>)
    ensures forall x :: x in r ==> x in defNames
  {
    Select(SplitOn(Lower(RemovePunctuation(text)), ' '), defNames, true)
  }

  /** A definite name is found exactly when it is one of the space-separated
      words of the cleaned, lower-cased text, as often as it occurs there. */
  lemma DefiniteNamesExact(text: string, defNames: seq<string>, x: string)
    ensures x in DefiniteNames(text, defNames) <==> x in defNames && x in SplitOn(Lower(RemovePunctuation(text)), ' ')
    ensures multiset(DefiniteNames(text, defNames))[x] ==
      if x in defNames then multiset(SplitOn(Lower(RemovePunctuation(text)), ' '))[x] else 0
  {
    SelectMultiset(SplitOn(Lower(RemovePunctuation(text)), ' '), defNames, true, x);
  }

  // ---------------------------------------------------------------- allow_org_name

  /** The organisation name as it is compared: punctuation removed, lower-cased. */
  function OrgKey(orgName: string): string {
    Lower(RemovePunctuation(orgName))
  }

  /** The names whose partial similarity to the organisation key is below the
      threshold, in order. `partialRatio` is `fuzz.partial_ratio`. */
  function OrgFiltered(names: seq<string>, key: string, partialRatio: (string, string) -> int): (r: seq<string>)
    ensures |r| <= |names|
    ensures forall x :: x in r <==> x in names && partialRatio(x, key) < PartialRatioThreshold
  {
    if names == [] then []
    else
      var last := names[|names| - 1];
      assert names == names[..|names| - 1] + [last];
      OrgFiltered(names[..|names| - 1], key, partialRatio)
        + (if partialRatio(last, key) < PartialRatioThreshold then [last] else [])
  }

  /** `allow_org_name`: one pass keeping the names that do not resemble the
      organisation. */
  method AllowOrgName(orgName: string, fullResult: seq<string>, partialRatio: (string, string) -> int)
    returns (newResult: seq<string>)
    ensures newResult == OrgFiltered(fullResult, OrgKey(orgName), partialRatio)
  {
    var key := Lower(RemovePunctuation(orgName));
    newResult := [];
    for k := 0 to |fullResult|
      invariant newResult == OrgFiltered(fullResult[..k], key, partialRatio)
    {
      var name := fullResult[k];
      var ratio := partialRatio(name, key);
      if ratio < PartialRatioThreshold {
        newResult := newResult + [name];
      }
      assert fullResult[..k + 1][..k] == fullResult[..k];
    }
    assert fullResult[..|fullResult|] == fullResult;
  }

  /** Filtering a list without repeats leaves a list without repeats. */
  lemma {:induction false} OrgFilteredDistinct(names: seq<string>, key: string, partialRatio: (string, string) -> int)
    requires Distinct(names)
    ensures Distinct(OrgFiltered(names, key, partialRatio))
  {
    if names != [] {
      var init := names[..|names| - 1];
      var last := names[|names| - 1];
      assert Distinct(init);
      OrgFilteredDistinct(init, key, partialRatio);
      assert last !in init;
    }
  }

  // ------------------------------------------------------------ allow_name_signoff

  /** A list the names rule updates in place. */
  class NameList {
    var items: seq<string>

    constructor (xs: seq<string>)
      ensures items == xs
    {
      items := xs;
    }

    /** `list.remove(x)`: the first occurrence of `x` is found and deleted. */
    method Remove(x: string)
      requires x in items
      modifies this
      ensures items == RemoveFirst(old(items), x)
      ensures multiset(items) == multiset(old(items)) - multiset{x}
    {
      var i := 0;
      while items[i] != x
        invariant 0 <= i < |items|
        invariant x !in items[..i]
        invariant x in items[i..]
        decreases |items| - i
      {
        assert items[i..] == [items[i]] + items[i + 1..];
        i := i + 1;
      }
      RemoveFirstAt(items, x, i);
      RemoveFirstMultiset(items, x);
      items := items[..i] + items[i + 1..];
    }

    /** `list.sort()`: code-point order, in place. */
    method Sort()
      modifies this
      ensures items == SortStrings(old(items))
      ensures Sorted(items) && multiset(items) == multiset(old(items))
    {
      items := SortStrings(items);
    }
  }

  /** The sign-off candidates: the last word, the last two and the last three
      words of the text with commas and full stops removed, lower-cased. A text
      with no words has no last word: an `IndexError`. */
  function EndWords(text: string): (r: Result<seq<string>>)
    ensures r.Err? <==> forall c :: c in text ==> IsSpace(c) || c == ',' || c == '.'
    ensures r.Err? ==> r.error == IndexError
    ensures r.Ok? ==> |r.value| == 3
  {
    var noPunc := DeleteChars(text, [',', '.']);
    var split := Words(noPunc);
    DeleteCharsMembers(text, [',', '.']);
    assert (forall i :: 0 <= i < |noPunc| ==> IsSpace(noPunc[i])) <==> (forall c :: c in noPunc ==> IsSpace(c));
    if split == [] then Err(IndexError)
    else
      Ok([Lower(split[|split| - 1]), Lower(JoinWith(Last(split, 2), ' ')), Lower(JoinWith(Last(split, 3), ' '))])
  }

  /** The list after removing, for each candidate in turn, its first
      occurrence if it is present. */
  function RemoveEach(xs: seq<string>, candidates: seq<string>): (r: seq<string>)
    ensures |xs| - |candidates| <= |r| <= |xs|
  {
    if candidates == [] then xs
    else
      var before := RemoveEach(xs, candidates[..|candidates| - 1]);
      var c := candidates[|candidates| - 1];
      if c in before then RemoveFirst(before, c) else before
  }

  /** Removing one more candidate. */
  lemma RemoveEachSnoc(xs: seq<string>, init: seq<string>, c: string)
    ensures var before := RemoveEach(xs, init);
      RemoveEach(xs, init + [c]) == if c in before then RemoveFirst(before, c) else before
  {
    assert (init + [c])[..|init|] == init;
  }

  /** Removal only deletes: what remains is a subsequence of the list. */
  lemma {:induction false} RemoveEachSubseq(xs: seq<string>, candidates: seq<string>)
    ensures IsSubseq(RemoveEach(xs, candidates), xs)
  {
    if candidates == [] {
      SubseqRefl(xs);
    } else {
      var init := candidates[..|candidates| - 1];
      var before := RemoveEach(xs, init);
      RemoveEachSubseq(xs, init);
      RemoveFirstSubseq(before, candidates[|candidates| - 1]);
      SubseqTrans(RemoveEach(xs, candidates), before, xs);
    }
  }

  /** On a list without repeats, removal deletes exactly the candidates that
      occur in it. */
  lemma {:induction false} RemoveEachDistinct(xs: seq<string>, candidates: seq<string>)
    requires Distinct(xs)
    ensures Distinct(RemoveEach(xs, candidates))
    ensures forall x :: x in RemoveEach(xs, candidates) <==> x in xs && x !in candidates
  {
    if candidates != [] {
      var init := candidates[..|candidates| - 1];
      var c := candidates[|candidates| - 1];
      var before := RemoveEach(xs, init);
      RemoveEachDistinct(xs, init);
      RemoveFirstDistinct(before, c);
      assert candidates == init + [c];
    }
  }

  /** `allow_name_signoff`: the candidates are computed, then each one present
      in the list is removed from it in place. The list is returned as well. */
  method AllowNameSignoff(submissionWords: string, fullResult: NameList) returns (r: Result<seq<string>>)
    modifies fullResult
    ensures EndWords(submissionWords).Err? ==> r == Err(IndexError) && fullResult.items == old(fullResult.items)
    ensures EndWords(submissionWords).Ok? ==>
      && fullResult.items == RemoveEach(old(fullResult.items), EndWords(submissionWords).value)
      && r == Ok(fullResult.items)
  {
    var endWords := EndWords(submissionWords);
    if endWords.Err? {
      return Err(endWords.error);
    }
    RemoveCandidates(endWords.value, fullResult);
    r := Ok(fullResult.items);
  }

  /** The loop of `allow_name_signoff`: each candidate present in the list is
      removed from it. */
  method RemoveCandidates(candidates: seq<string>, fullResult: NameList)
    modifies fullResult
    ensures fullResult.items == RemoveEach(old(fullResult.items), candidates)
  {
    ghost var before := fullResult.items;
    for k := 0 to |candidates|
      invariant fullResult.items == RemoveEach(before, candidates[..k])
    {
      var wordCombo := candidates[k];
      assert candidates[..k + 1] == candidates[..k] + [wordCombo];
      RemoveEachSnoc(before, candidates[..k], wordCombo);
      if wordCombo in fullResult.items {
        fullResult.Remove(wordCombo);
      }
    }
    assert candidates[..|candidates|] == candidates;
  }
}
