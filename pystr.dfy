/** The Python `str` operations the moderation core relies on.

    Character classes follow Python for ASCII text: `\w` is `[A-Za-z0-9_]`,
    `isupper`/`lower` act on `A-Z`/`a-z`, and whitespace is exactly the set
    `str.isspace` accepts. Non-ASCII letters and digits are outside the model. */
module PyStr {
  import opened Seqs

  predicate IsUpperChar(c: char) { 'A' <= c <= 'Z' }
  predicate IsLowerChar(c: char) { 'a' <= c <= 'z' }
  predicate IsAsciiLetter(c: char) { IsUpperChar(c) || IsLowerChar(c) }
  predicate IsAsciiDigit(c: char) { '0' <= c <= '9' }
  predicate IsAscii(c: char) { c < '\U{80}' }

  /** A character matched by the regex class `\w`. */
  predicate IsWordChar(c: char) { IsAsciiLetter(c) || IsAsciiDigit(c) || c == '_' }

  /** A character for which `str.isspace()` holds (also the regex class `\s`). */
  predicate IsSpace(c: char) {
    || '\t' <= c <= '\r'
    || '\U{1C}' <= c <= ' '
    || c == '\U{85}' || c == '\U{A0}' || c == '\U{1680}'
    || '\U{2000}' <= c <= '\U{200A}'
    || c == '\U{2028}' || c == '\U{2029}' || c == '\U{202F}' || c == '\U{205F}' || c == '\U{3000}'
  }

  function LowerChar(c: char): (d: char)
    ensures !IsUpperChar(d)
    ensures IsUpperChar(c) ==> IsLowerChar(d)
    ensures !IsUpperChar(c) ==> d == c
  {
    if IsUpperChar(c) then (c as int + 32) as char else c
  }

  /** `s.lower()` */
  function Lower(s: string): (r: string)
    ensures |r| == |s|
    ensures forall i :: 0 <= i < |s| ==> r[i] == LowerChar(s[i])
  {
    seq(|s|, i requires 0 <= i < |s| => LowerChar(s[i]))
  }

  lemma LowerIdempotent(s: string)
    ensures Lower(Lower(s)) == Lower(s)
  {
  }

  lemma LowerAppend(a: string, b: string)
    ensures Lower(a + b) == Lower(a) + Lower(b)
  {
  }

  /** `s.isupper()`: at least one cased character and no lower-case one. */
  predicate IsUpper(s: string) {
    && (exists i :: 0 <= i < |s| && IsUpperChar(s[i]))
    && (forall i :: 0 <= i < |s| ==> !IsLowerChar(s[i]))
  }

  /** `s.lstrip(chars)` for the characters satisfying `p`. */
  function LStrip(s: string, p: char -> bool): (r: string)
    ensures |r| <= |s| && r == s[|s| - |r|..]
    ensures r != [] ==> !p(r[0])
    ensures forall i :: 0 <= i < |s| - |r| ==> p(s[i])
  {
    if s != [] && p(s[0]) then
      var r := LStrip(s[1..], p);
      assert s[1..][|s| - 1 - |r|..] == s[|s| - |r|..];
      assert forall i :: 1 <= i < |s| - |r| ==> s[i] == s[1..][i - 1];
      r
    else s
  }

  /** `s.rstrip(chars)` for the characters satisfying `p`. */
  function RStrip(s: string, p: char -> bool): (r: string)
    ensures |r| <= |s| && r == s[..|r|]
    ensures r != [] ==> !p(r[|r| - 1])
    ensures forall i :: |r| <= i < |s| ==> p(s[i])
  {
    if s != [] && p(s[|s| - 1]) then RStrip(s[..|s| - 1], p) else s
  }

  /** `s.strip()` */
  function Strip(s: string): (r: string)
    ensures r != [] ==> !IsSpace(r[0]) && !IsSpace(r[|r| - 1])
    ensures |r| <= |s|
  {
    RStrip(LStrip(s, IsSpace), IsSpace)
  }

  /** A text that neither starts nor ends with whitespace is its own strip. */
  lemma StripUnpadded(s: string)
    requires s != [] && !IsSpace(s[0]) && !IsSpace(s[|s| - 1])
    ensures Strip(s) == s
  {
    assert LStrip(s, IsSpace) == s;
  }

  predicate StartsWith(s: string, prefix: string) {
    |prefix| <= |s| && s[..|prefix|] == prefix
  }

  /** `s.replace(c, "")` for every character `c` of `cs`. */
  function DeleteChars(s: string, cs: seq<char>): (r: string)
    ensures |r| <= |s|
    ensures forall i :: 0 <= i < |r| ==> r[i] !in cs
  {
    if s == [] then [] else (if s[0] in cs then [] else [s[0]]) + DeleteChars(s[1..], cs)
  }

  /** A character survives the deletion exactly when it occurs and is not deleted. */
  lemma {:induction false} DeleteCharsMembers(s: string, cs: seq<char>)
    ensures forall c :: c in DeleteChars(s, cs) <==> c in s && c !in cs
  {
    if s != [] {
      DeleteCharsMembers(s[1..], cs);
      assert s == [s[0]] + s[1..];
    }
  }

  lemma {:induction false} DeleteCharsAppend(a: string, b: string, cs: seq<char>)
    ensures DeleteChars(a + b, cs) == DeleteChars(a, cs) + DeleteChars(b, cs)
  {
    if a == [] {
      assert a + b == b;
    } else {
      assert (a + b)[0] == a[0];
      assert (a + b)[1..] == a[1..] + b;
      DeleteCharsAppend(a[1..], b, cs);
    }
  }

  /** Deleting `cs` and then `ds` is deleting both at once. */
  lemma {:induction false} DeleteCharsTwice(s: string, cs: seq<char>, ds: seq<char>)
    ensures DeleteChars(DeleteChars(s, cs), ds) == DeleteChars(s, cs + ds)
  {
    if s != [] {
      DeleteCharsTwice(s[1..], cs, ds);
      var head := if s[0] in cs then [] else [s[0]];
      DeleteCharsAppend(head, DeleteChars(s[1..], cs), ds);
    }
  }

  /** Deleting characters that do not occur changes nothing, and conversely. */
  lemma {:induction false} DeleteCharsAbsent(s: string, cs: seq<char>)
    ensures DeleteChars(s, cs) == s <==> forall c :: c in s ==> c !in cs
  {
    if s != [] {
      DeleteCharsAbsent(s[1..], cs);
      if s[0] in cs {
        assert |DeleteChars(s, cs)| < |s|;
      }
    }
  }

  /** The characters that survive keep their order. */
  lemma {:induction false} DeleteCharsInOrder(s: string, cs: seq<char>)
    ensures IsSubseq(DeleteChars(s, cs), s)
  {
    if s != [] {
      DeleteCharsInOrder(s[1..], cs);
      var rest := DeleteChars(s[1..], cs);
      if s[0] !in cs {
        assert DeleteChars(s, cs) == [s[0]] + rest;
        assert ([s[0]] + rest)[1..] == rest;
      } else {
        assert DeleteChars(s, cs) == rest;
      }
    }
  }

  /** The characters that survive keep their multiplicity. */
  lemma {:induction false} DeleteCharsCounts(s: string, cs: seq<char>)
    ensures forall c :: c !in cs ==> multiset(DeleteChars(s, cs))[c] == multiset(s)[c]
  {
    if s != [] {
      DeleteCharsCounts(s[1..], cs);
      var head := if s[0] in cs then [] else [s[0]];
      assert DeleteChars(s, cs) == head + DeleteChars(s[1..], cs);
      assert multiset(DeleteChars(s, cs)) == multiset(head) + multiset(DeleteChars(s[1..], cs));
      assert s == [s[0]] + s[1..];
      assert multiset(s) == multiset([s[0]]) + multiset(s[1..]);
    }
  }

  /** `s.split(sep)` for a one-character separator: every occurrence splits,
      so adjacent separators yield empty pieces. */
  function SplitOn(s: string, sep: char): (pieces: seq<string>)
    ensures |pieces| >= 1
    ensures forall k :: 0 <= k < |pieces| ==> sep !in pieces[k]
  {
    if s == [] then [""]
    else
      var rest := SplitOn(s[1..], sep);
      if s[0] == sep then [""] + rest
      else [[s[0]] + rest[0]] + rest[1..]
  }

  /** `sep.join(pieces)` */
  function JoinWith(pieces: seq<string>, sep: char): string {
    if pieces == [] then ""
    else if |pieces| == 1 then pieces[0]
    else pieces[0] + [sep] + JoinWith(pieces[1..], sep)
  }

  /** Splitting on a character and joining with it again gives the text back. */
  lemma {:induction false} SplitJoin(s: string, sep: char)
    ensures JoinWith(SplitOn(s, sep), sep) == s
  {
    if s != [] {
      SplitJoin(s[1..], sep);
      var rest := SplitOn(s[1..], sep);
      if s[0] == sep {
        assert SplitOn(s, sep) == [""] + rest;
        assert ([""] + rest)[1..] == rest;
      } else {
        var ps := SplitOn(s, sep);
        assert ps == [[s[0]] + rest[0]] + rest[1..];
        if |rest| == 1 {
          assert JoinWith(ps, sep) == [s[0]] + rest[0];
        } else {
          assert ps[1..] == rest[1..];
          assert JoinWith(rest, sep) == rest[0] + [sep] + JoinWith(rest[1..], sep);
        }
      }
    }
  }

  /** `s.split()`: the maximal runs of non-whitespace characters. */
  function Words(s: string): (ws: seq<string>)
    ensures forall k :: 0 <= k < |ws| ==> ws[k] != [] && forall i :: 0 <= i < |ws[k]| ==> !IsSpace(ws[k][i])
    ensures s != [] && !IsSpace(s[0]) ==> ws != [] && ws[0][0] == s[0]
    ensures ws == [] <==> forall i :: 0 <= i < |s| ==> IsSpace(s[i])
  {
    if s == [] then []
    else
      var rest := Words(s[1..]);
      if IsSpace(s[0]) then rest
      else if |s| > 1 && !IsSpace(s[1]) then [[s[0]] + rest[0]] + rest[1..]
      else [[s[0]]] + rest
  }

  /** The last `n` items, `xs[-n:]`. */
  function Last<T>(xs: seq<T>, n: nat): (r: seq<T>)
    ensures |r| == if n <= |xs| then n else |xs|
  {
    if n <= |xs| then xs[|xs| - n..] else xs
  }

  /** `s.replace(pattern, replacement)`: left-to-right, non-overlapping. */
  function ReplaceAll(s: string, pattern: string, replacement: string): string
    requires pattern != []
  {
    if |s| < |pattern| then s
    else if s[..|pattern|] == pattern then replacement + ReplaceAll(s[|pattern|..], pattern, replacement)
    else [s[0]] + ReplaceAll(s[1..], pattern, replacement)
  }

  /** A text that never contains the pattern's first character is left unchanged. */
  lemma {:induction false} ReplaceAllAbsent(s: string, pattern: string, replacement: string)
    requires pattern != [] && pattern[0] !in s
    ensures ReplaceAll(s, pattern, replacement) == s
  {
    if |s| >= |pattern| {
      assert s[..|pattern|][0] == s[0];
      ReplaceAllAbsent(s[1..], pattern, replacement);
    }
  }
}
