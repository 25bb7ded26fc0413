/**
 * `toHashtag` of the news widgets: the first capitalised word of a headline
 * (the leftmost match of the regular expression \b[A-Z][a-zA-Z0-9]*\b)
 * as a hashtag, falling back to the headline's text before its first
 * space. The regular expression is given its own reference semantics
 * (`IsMatchAt`) and the scanning definition is proved to agree with it.
 */
module Hashtag {
  import opened Wrappers
  import Text

  /** The characters of `\w` without the Unicode flag. */
  predicate IsWordChar(c: char) {
    'A' <= c <= 'Z' || 'a' <= c <= 'z' || '0' <= c <= '9' || c == '_'
  }

  predicate IsAlnum(c: char) {
    'A' <= c <= 'Z' || 'a' <= c <= 'z' || '0' <= c <= '9'
  }

  predicate IsUpper(c: char) {
    'A' <= c <= 'Z'
  }

  /** `\b` at position `p`: exactly one of the characters on either side is a word character. */
  predicate Boundary(s: string, p: nat)
    requires p <= |s|
  {
    (p > 0 && IsWordChar(s[p - 1])) != (p < |s| && IsWordChar(s[p]))
  }

  /** The reference semantics of the regular expression: it matches exactly `s[i..e]`. */
  predicate IsMatchAt(s: string, i: nat, e: nat) {
    i < e <= |s| &&
    Boundary(s, i) && IsUpper(s[i]) &&
    (forall k :: i < k < e ==> IsAlnum(s[k])) &&
    Boundary(s, e)
  }

  /** The end of the longest run of letters and digits starting at `j`. */
  function RunEnd(s: string, j: nat): (e: nat)
    requires j <= |s|
    ensures j <= e <= |s|
    ensures forall k :: j <= k < e ==> IsAlnum(s[k])
    ensures e == |s| || !IsAlnum(s[e])
    decreases |s| - j
  {
    if j < |s| && IsAlnum(s[j]) then RunEnd(s, j + 1) else j
  }

  /** A position where a match starts: a capital at a word start whose run is not followed by `_`. */
  predicate CandidateAt(s: string, i: nat) {
    i < |s| && IsUpper(s[i]) && (i == 0 || !IsWordChar(s[i - 1])) &&
    (RunEnd(s, i) == |s| || s[RunEnd(s, i)] != '_')
  }

  /** The regular expression matches at `i` exactly at candidates, and then exactly up to the end of the run. */
  lemma MatchIffCandidate(s: string, i: nat, e: nat)
    ensures IsMatchAt(s, i, e) <==> CandidateAt(s, i) && e == RunEnd(s, i)
  {
  }

  /** The leftmost candidate at or after `from`. */
  function FirstCandidate(s: string, from: nat): (r: Option<nat>)
    ensures r.Some? ==> from <= r.value && CandidateAt(s, r.value) &&
                        forall k :: from <= k < r.value ==> !CandidateAt(s, k)
    ensures r.None? ==> forall k :: from <= k ==> !CandidateAt(s, k)
    decreases |s| - from
  {
    if from >= |s| then None
    else if CandidateAt(s, from) then Some(from)
    else FirstCandidate(s, from + 1)
  }

  /**
   * The hashtag: "" for an empty headline; otherwise '#' and the leftmost
   * match, or '#' and the text before the first space.
   */
  function ToHashtag(s: string): (r: string)
    ensures r == [] <==> s == []
    ensures s != [] ==> r[0] == '#' && exists i: nat, j: nat :: i <= j <= |s| && r[1..] == s[i..j]
  {
    if s == [] then ""
    else match FirstCandidate(s, 0)
      case Some(i) =>
        var t := "#" + s[i..RunEnd(s, i)];
        assert t[1..] == s[i..RunEnd(s, i)];
        t
      case None =>
        var t := "#" + Text.BeforeFirst(s, ' ');
        assert t[1..] == s[0..|t| - 1];
        t
  }

  /**
   * When the regular expression matches somewhere, the hashtag is '#' and
   * its leftmost match, which holds only letters and digits and starts with
   * a capital.
   */
  lemma HashtagIsLeftmostMatch(s: string, i0: nat, e0: nat)
    requires IsMatchAt(s, i0, e0)
    ensures exists i: nat, e: nat :: IsMatchAt(s, i, e) && i <= i0 &&
              (forall k: nat, f: nat :: k < i ==> !IsMatchAt(s, k, f)) &&
              ToHashtag(s) == "#" + s[i..e] &&
              IsUpper(s[i]) && forall k :: i <= k < e ==> IsAlnum(s[k])
  {
    MatchIffCandidate(s, i0, e0);
    var fc := FirstCandidate(s, 0);
    var i := fc.value;
    var e := RunEnd(s, i);
    MatchIffCandidate(s, i, e);
    NoMatchBefore(s, i);
    assert ToHashtag(s) == "#" + s[i..e];
    assert IsMatchAt(s, i, e) && i <= i0;
  }

  /** Before the first candidate there is no match of any length. */
  lemma NoMatchBefore(s: string, i: nat)
    requires forall k :: 0 <= k < i ==> !CandidateAt(s, k)
    ensures forall k: nat, f: nat :: k < i ==> !IsMatchAt(s, k, f)
  {
    forall k: nat, f: nat | k < i
      ensures !IsMatchAt(s, k, f)
    {
      MatchIffCandidate(s, k, f);
    }
  }

  /** With no match anywhere, the hashtag is '#' and the text before the first space (all of it when there is none). */
  lemma HashtagFallback(s: string)
    requires s != []
    requires forall i, e :: !IsMatchAt(s, i, e)
    ensures ToHashtag(s) == "#" + Text.BeforeFirst(s, ' ')
    ensures ' ' !in s ==> ToHashtag(s) == "#" + s
  {
    var fc := FirstCandidate(s, 0);
    if fc.Some? {
      MatchIffCandidate(s, fc.value, RunEnd(s, fc.value));
      assert false;
    }
  }
}
