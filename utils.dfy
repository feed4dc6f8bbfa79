/** The small helpers shared by both packers and the command lines: `stringNotEmpty`, `quote` and
    `removeDuplicateChars`. The packer's nested `Utils` class and the top-level `Utils` class hold the
    same three definitions, so they are modelled once. */
module Utils {
  import opened Wrappers
  import opened JavaText

  /** `stringNotEmpty(s)`: a non-null string with at least one character. */
  predicate StringNotEmpty(s: Option<string>)
    ensures StringNotEmpty(s) <==> s != None && s.value != ""
  {
    s.Some? && |s.value| > 0
  }

  /** `quote(xml, param, spaceAfter)` where `param` is the text `param.toString()` yields. In the text
      dialect the value comes back untouched, padding included; in the XML dialect it is trimmed and put
      between double quotes, followed by one space when `spaceAfter` is set. Leaving out `spaceAfter`
      is the two-argument overload. */
  function Quote(xml: bool, param: string, spaceAfter: bool := false): string
  {
    if xml then "\"" + Trim(param) + "\"" + (if spaceAfter then " " else "") else param
  }

  /** In the text dialect the value is written as it is, without quotes or a trailing space. */
  lemma QuoteText(param: string, spaceAfter: bool)
    ensures Quote(false, param, spaceAfter) == param
  {
  }

  /** In the XML dialect the quoted value is the trimmed text between two double quotes, then the
      optional space. */
  lemma QuoteXml(param: string, spaceAfter: bool)
    ensures var r := Quote(true, param, spaceAfter); var v := Trim(param);
      |r| == |v| + 2 + (if spaceAfter then 1 else 0) &&
      r[0] == '"' && r[1..|v| + 1] == v && r[|v| + 1] == '"' &&
      (spaceAfter ==> r[|r| - 1] == ' ')
  {
    var v := Trim(param);
    var r := Quote(true, param, spaceAfter);
    assert r == "\"" + v + "\"" + (if spaceAfter then " " else "");
  }

  /** In the XML dialect a number left-justified in a column of any width is quoted without its padding. */
  lemma QuotePaddedNumber(n: int, width: nat, spaceAfter: bool)
    ensures Quote(true, PadRight(IntToString(n), width), spaceAfter)
         == "\"" + IntToString(n) + "\"" + (if spaceAfter then " " else "")
  {
    var s := IntToString(n);
    TrimPaddedNumber(n, width);
    assert Trim(PadRight(s, width)) == s;
  }

  // ---------------------------------------------------------------- removeDuplicateChars

  /** No character occurs twice. */
  predicate NoDuplicates(s: string)
  {
    forall i, j :: 0 <= i < j < |s| ==> s[i] != s[j]
  }

  /** The position of the first occurrence of `c` in `s`. */
  function FirstIndex(s: string, c: char): (k: nat)
    requires c in s
    ensures k < |s| && s[k] == c && c !in s[..k]
  {
    if s[0] == c then 0 else 1 + FirstIndex(s[1..], c)
  }

  /** `r` is `s` with some characters left out. */
  predicate IsSubsequence(r: string, s: string)
  {
    if r == [] then true
    else if s == [] then false
    else if r[|r| - 1] == s[|s| - 1] then IsSubsequence(r[..|r| - 1], s[..|s| - 1])
    else IsSubsequence(r, s[..|s| - 1])
  }

  /** `removeDuplicateChars(s)`: the stream `distinct()` over the characters of `s`, which keeps the
      first occurrence of every character and drops the later ones. */
  function RemoveDuplicateChars(s: string): (r: string)
    ensures NoDuplicates(r)
    ensures forall c :: c in r <==> c in s
  {
    if s == [] then []
    else
      var kept := RemoveDuplicateChars(s[..|s| - 1]);
      assert s == s[..|s| - 1] + [s[|s| - 1]];
      if s[|s| - 1] in kept then kept else kept + [s[|s| - 1]]
  }

  /** The result leaves characters out of the input but never reorders or invents them. */
  lemma {:induction false} RemoveDuplicateCharsIsSubsequence(s: string)
    ensures IsSubsequence(RemoveDuplicateChars(s), s)
  {
    if s != [] {
      var init := s[..|s| - 1];
      RemoveDuplicateCharsIsSubsequence(init);
      var kept := RemoveDuplicateChars(init);
      if s[|s| - 1] !in kept {
        assert (kept + [s[|s| - 1]])[..|kept|] == kept;
      } else {
        SubsequenceExtend(kept, init, s[|s| - 1]);
        assert init + [s[|s| - 1]] == s;
      }
    }
  }

  /** A subsequence of `s` is also one of `s` with a character appended. */
  lemma {:induction false} SubsequenceExtend(r: string, s: string, c: char)
    requires IsSubsequence(r, s)
    ensures IsSubsequence(r, s + [c])
    decreases |s|, 1
  {
    var t := s + [c];
    assert t[..|t| - 1] == s;
    if r != [] && r[|r| - 1] == c {
      SubsequenceDropLast(r, s);
    }
  }

  /** Dropping the last character of a subsequence leaves a subsequence. */
  lemma {:induction false} SubsequenceDropLast(r: string, s: string)
    requires r != [] && IsSubsequence(r, s)
    ensures IsSubsequence(r[..|r| - 1], s)
    decreases |s|, 0
  {
    var init, prefix := r[..|r| - 1], s[..|s| - 1];
    if r[|r| - 1] != s[|s| - 1] {
      SubsequenceDropLast(r, prefix);
    }
    SubsequenceExtend(init, prefix, s[|s| - 1]);
    assert prefix + [s[|s| - 1]] == s;
  }

  /** A string without repeated characters is left as it is. */
  lemma {:induction false} RemoveDuplicateCharsFixpoint(s: string)
    requires NoDuplicates(s)
    ensures RemoveDuplicateChars(s) == s
  {
    if s != [] {
      var init := s[..|s| - 1];
      RemoveDuplicateCharsFixpoint(init);
      assert s[|s| - 1] !in init;
      assert init + [s[|s| - 1]] == s;
    }
  }

  /** Applying the function twice is the same as applying it once. */
  lemma RemoveDuplicateCharsIdempotent(s: string)
    ensures RemoveDuplicateChars(RemoveDuplicateChars(s)) == RemoveDuplicateChars(s)
  {
    RemoveDuplicateCharsFixpoint(RemoveDuplicateChars(s));
  }

  /** The first occurrence of a character of a prefix is the same in the whole string. */
  lemma {:induction false} FirstIndexExtend(s: string, c: char, x: char)
    requires x in s
    ensures FirstIndex(s + [c], x) == FirstIndex(s, x)
  {
    if s[0] != x {
      assert (s + [c])[1..] == s[1..] + [c];
      FirstIndexExtend(s[1..], c, x);
    }
  }

  /** The kept characters appear in the order of their first occurrences in the input. */
  lemma {:induction false} RemoveDuplicateCharsOrder(s: string, i: nat, j: nat)
    requires i < j < |RemoveDuplicateChars(s)|
    ensures FirstIndex(s, RemoveDuplicateChars(s)[i]) < FirstIndex(s, RemoveDuplicateChars(s)[j])
  {
    var init, c := s[..|s| - 1], s[|s| - 1];
    var kept, r := RemoveDuplicateChars(init), RemoveDuplicateChars(s);
    assert init + [c] == s;
    assert r[i] in kept;
    FirstIndexExtend(init, c, r[i]);
    if j < |kept| {
      RemoveDuplicateCharsOrder(init, i, j);
      FirstIndexExtend(init, c, r[j]);
    } else {
      assert r[j] == c && c !in init;
      assert FirstIndex(s, c) == |init| by {
        assert s[..|init|] == init;
      }
    }
  }
}
