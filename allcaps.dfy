/** The all-caps rule: a comment must not shout. Words written entirely in
    capitals, longer than one character and not known acronyms, are counted;
    three or more fail the comment, one or two send it to a moderator. */
module AllCaps {
  import opened Seqs
  import opened PyStr
  import opened Config
  import opened Nlp

  /** A token that counts as shouting. */
  predicate IsCapsWord(word: string, acronyms: seq<string>) {
    IsUpper(word) && |word| > 1 && word !in acronyms
  }

  /** The shouting tokens, in token order, repeats kept. */
  function CapsWords(tokens: seq<string>, acronyms: seq<string>): (r: seq<string>)
    ensures |r| <= |tokens|
    ensures forall w :: w in r <==> w in tokens && IsCapsWord(w, acronyms)
  {
    if tokens == [] then []
    else
      var last := tokens[|tokens| - 1];
      assert tokens == tokens[..|tokens| - 1] + [last];
      CapsWords(tokens[..|tokens| - 1], acronyms) + (if IsCapsWord(last, acronyms) then [last] else [])
  }

  /** Shouting words of a concatenation are those of each part, in order. */
  lemma {:induction false} CapsWordsAppend(a: seq<string>, b: seq<string>, acronyms: seq<string>)
    ensures CapsWords(a + b, acronyms) == CapsWords(a, acronyms) + CapsWords(b, acronyms)
    decreases |b|
  {
    if b == [] {
      assert a + b == a;
    } else {
      var last := b[|b| - 1];
      assert (a + b)[..|a + b| - 1] == a + b[..|b| - 1];
      CapsWordsAppend(a, b[..|b| - 1], acronyms);
    }
  }

  /** Every shouting token is listed as often as it occurs; nothing else is listed. */
  lemma {:induction false} CapsWordsMultiplicity(tokens: seq<string>, acronyms: seq<string>, w: string)
    ensures multiset(CapsWords(tokens, acronyms))[w] == if IsCapsWord(w, acronyms) then multiset(tokens)[w] else 0
  {
    if tokens != [] {
      var init := tokens[..|tokens| - 1];
      CapsWordsMultiplicity(init, acronyms, w);
      assert tokens == init + [tokens[|tokens| - 1]];
    }
  }

  /** The rule's code for a number of shouting words. */
  function CapsCode(count: nat): (code: int)
    ensures code == 1 <==> count >= AllCapsThreshold
    ensures code == 2 <==> 0 < count < AllCapsThreshold
    ensures code == 0 <==> count == 0
  {
    if count >= AllCapsThreshold then 1 else if count > 0 then 2 else 0
  }

  /** `all_caps_rule`: one pass over the tokens collecting the shouting ones,
      then the count against the threshold. */
  method AllCapsRule(body: Doc, acronyms: seq<string>) returns (code: int, count: nat, words: seq<string>)
    ensures words == CapsWords(body.tokens, acronyms)
    ensures count == |words|
    ensures code == CapsCode(count)
  {
    var tokens := body.tokens;
    words := [];
    for i := 0 to |tokens|
      invariant words == CapsWords(tokens[..i], acronyms)
    {
      var word := tokens[i];
      if IsUpper(word) && |word| > 1 && word !in acronyms {
        words := words + [word];
      }
      assert tokens[..i + 1][..i] == tokens[..i];
    }
    assert tokens[..|tokens|] == tokens;
    count := |words|;
    if count >= AllCapsThreshold {
      code := 1;
    } else if count > 0 {
      code := 2;
    } else {
      code := 0;
    }
  }

  /** One shouting word among ordinary ones is listed and sent for review. */
  lemma {:induction false} AllCapsOneWord()
    ensures CapsWords(["so", "VERY", "rude"], ["NHS"]) == ["VERY"]
    ensures CapsCode(|CapsWords(["so", "VERY", "rude"], ["NHS"])|) == 2
  {
    var t: seq<string> := ["so", "VERY", "rude"];
    assert t[..2] == ["so", "VERY"] && t[..2][..1] == ["so"] && t[..2][..1][..0] == [];
    assert IsUpperChar("VERY"[0]) && IsCapsWord("VERY", ["NHS"]);
    assert !IsCapsWord("so", ["NHS"]) by { assert IsLowerChar("so"[0]); }
    assert !IsCapsWord("rude", ["NHS"]) by { assert IsLowerChar("rude"[0]); }
  }

  /** Acronyms are never counted, however they are written. */
  lemma {:induction false} AllCapsAcronymsPass()
    ensures CapsWords(["my", "GP"], ["GP"]) == []
    ensures CapsCode(|CapsWords(["my", "GP"], ["GP"])|) == 0
  {
    var t: seq<string> := ["my", "GP"];
    assert t[..1] == ["my"] && t[..1][..0] == [];
    assert !IsCapsWord("my", ["GP"]) by { assert IsLowerChar("my"[0]); }
  }
}
