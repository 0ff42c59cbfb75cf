/**
 * Text handling shared by the models and forms: Django's CharField strips
 * surrounding whitespace (Python's str.strip) before any validator sees the
 * value; file extensions, icontains and email domains fold case (ASCII only).
 */
module Text {
  /** The ASCII characters Python's str.isspace accepts. */
  predicate IsSpace(c: char)
  {
    c == ' ' || c == '\t' || c == '\n' || c == '\r' || c == '\U{0B}' || c == '\U{0C}'
    || c == '\U{1C}' || c == '\U{1D}' || c == '\U{1E}' || c == '\U{1F}'
  }

  /** The number of whitespace characters at the front of `s`. */
  function LeadingSpaces(s: string): (n: nat)
    ensures n <= |s|
    ensures forall k :: 0 <= k < n ==> IsSpace(s[k])
    ensures n < |s| ==> !IsSpace(s[n])
  {
    if s != [] && IsSpace(s[0]) then 1 + LeadingSpaces(s[1..]) else 0
  }

  /** The number of whitespace characters at the back of `s`. */
  function TrailingSpaces(s: string): (n: nat)
    ensures n <= |s|
    ensures forall k :: |s| - n <= k < |s| ==> IsSpace(s[k])
    ensures n < |s| ==> !IsSpace(s[|s| - 1 - n])
  {
    if s != [] && IsSpace(s[|s| - 1]) then 1 + TrailingSpaces(s[..|s| - 1]) else 0
  }

  /** Neither starts nor ends with whitespace. */
  predicate Unpadded(s: string)
  {
    s == [] || (!IsSpace(s[0]) && !IsSpace(s[|s| - 1]))
  }

  /**
   * str.strip(): the longest middle part of `s` that neither starts nor ends
   * with whitespace, everything cut off being whitespace.
   */
  function Strip(s: string): string
  {
    var lead := LeadingSpaces(s);
    if lead == |s| then
      assert s[|s|..|s|] == [];
      []
    else
      var trail := TrailingSpaces(s);
      assert lead < |s| - trail;
      s[lead..|s| - trail]
  }

  /** What str.strip() promises: a middle part of the input, unpadded, with only whitespace cut off. */
  lemma StripSpec(s: string)
    ensures Unpadded(Strip(s))
    ensures exists i, j ::
              && 0 <= i <= j <= |s| && Strip(s) == s[i..j]
              && (forall k :: 0 <= k < i ==> IsSpace(s[k]))
              && (forall k :: j <= k < |s| ==> IsSpace(s[k]))
  {
    var lead := LeadingSpaces(s);
    if lead == |s| {
      assert Strip(s) == s[|s|..|s|];
    } else {
      var trail := TrailingSpaces(s);
      assert Strip(s) == s[lead..|s| - trail];
    }
  }

  /** A value without surrounding whitespace is left as it is. */
  lemma StripKeepsUnpadded(s: string)
    requires Unpadded(s)
    ensures Strip(s) == s
  {
    assert s[0..|s|] == s;
  }

  /** Stripping twice is stripping once. */
  lemma StripIdempotent(s: string)
    ensures Strip(Strip(s)) == Strip(s)
  {
    StripSpec(s);
    StripKeepsUnpadded(Strip(s));
  }

  // ---------------------------------------------------------------------
  // Case folding and searching

  /** str.lower() on one ASCII character. */
  function LowerChar(c: char): char
  {
    if 'A' <= c <= 'Z' then (c as int + 32) as char else c
  }

  function Lower(s: string): (r: string)
    ensures |r| == |s|
    ensures forall i :: 0 <= i < |s| ==> r[i] == LowerChar(s[i])
  {
    seq(|s|, i requires 0 <= i < |s| => LowerChar(s[i]))
  }

  /** The position of the last `c` in `s`, or -1. */
  function LastIndexOf(s: string, c: char): (r: int)
    ensures -1 <= r < |s|
    ensures r >= 0 ==> s[r] == c
    ensures forall i :: r < i < |s| ==> s[i] != c
  {
    if s == [] then -1
    else if s[|s| - 1] == c then |s| - 1
    else LastIndexOf(s[..|s| - 1], c)
  }

  /** Folding twice is folding once. */
  lemma LowerIdempotent(s: string)
    ensures Lower(Lower(s)) == Lower(s)
  {
  }

  /** Folding a suffix keeps the length and the prefix, and folds each character of the suffix. */
  lemma FoldSuffix(s: string, i: nat)
    requires i <= |s|
    ensures var t := s[..i] + Lower(s[i..]);
      && |t| == |s|
      && t[..i] == s[..i]
      && t[i..] == Lower(s[i..])
      && forall k :: i <= k < |s| ==> t[k] == LowerChar(s[k])
  {
    var t := s[..i] + Lower(s[i..]);
    forall k | i <= k < |s|
      ensures t[k] == LowerChar(s[k])
    {
      assert t[k] == Lower(s[i..])[k - i];
    }
  }

  /** The last occurrence is the one with no occurrence after it. */
  lemma {:induction false} LastIndexOfAt(s: string, c: char, i: nat)
    requires i < |s| && s[i] == c
    requires forall k :: i < k < |s| ==> s[k] != c
    ensures LastIndexOf(s, c) == i
    decreases |s|
  {
    if i < |s| - 1 {
      LastIndexOfAt(s[..|s| - 1], c, i);
    }
  }
}
