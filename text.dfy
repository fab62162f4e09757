/**
  The searches of `std::string` that the URL handling relies on: `find` of a
  character or of a piece of text (first occurrence) and `rfind` of a character
  (last occurrence), each with `npos` as `None`.
*/
module Text {
  import opened Wrappers

  /** `pat` occurs in `s` starting at index `i`. */
  predicate OccursAt(s: string, pat: string, i: nat)
  {
    i + |pat| <= |s| && s[i..i + |pat|] == pat
  }

  /** `find(c)`: the first index holding `c`. */
  function FirstIndexOf(s: string, c: char): (r: Option<nat>)
    ensures r.Some? ==> r.value < |s| && s[r.value] == c && c !in s[..r.value]
    ensures r.None? <==> c !in s
  {
    if |s| == 0 then None
    else if s[0] == c then Some(0)
    else
      match FirstIndexOf(s[1..], c)
      case None => None
      case Some(i) =>
        assert s[..i + 1] == [s[0]] + s[1..][..i];
        Some(i + 1)
  }

  /** `rfind(c)`: the last index holding `c`. */
  function LastIndexOf(s: string, c: char): (r: Option<nat>)
    ensures r.Some? ==> r.value < |s| && s[r.value] == c && c !in s[r.value + 1..]
    ensures r.None? <==> c !in s
  {
    if |s| == 0 then None
    else if s[|s| - 1] == c then Some(|s| - 1)
    else
      var r := LastIndexOf(s[..|s| - 1], c);
      assert r.None? ==> s == s[..|s| - 1] + [s[|s| - 1]];
      assert r.Some? ==> s[r.value + 1..] == s[..|s| - 1][r.value + 1..] + [s[|s| - 1]];
      r
  }

  /** A `c` with no `c` before it is the first one. */
  lemma {:induction false} FirstIndexOfAt(s: string, c: char, i: nat)
    requires i < |s| && s[i] == c && c !in s[..i]
    ensures FirstIndexOf(s, c) == Some(i)
  {
    if i > 0 {
      assert s[0] == s[..i][0];
      assert s[1..][..i - 1] == s[1..i];
      assert c !in s[1..i] by { assert s[..i] == [s[0]] + s[1..i]; }
      FirstIndexOfAt(s[1..], c, i - 1);
    }
  }

  /** A `c` with no `c` after it is the last one. */
  lemma {:induction false} LastIndexOfAt(s: string, c: char, i: nat)
    requires i < |s| && s[i] == c && c !in s[i + 1..]
    ensures LastIndexOf(s, c) == Some(i)
  {
    if i < |s| - 1 {
      assert s[|s| - 1] == s[i + 1..][|s| - i - 2];
      var t := s[..|s| - 1];
      assert t[i + 1..] == s[i + 1..|s| - 1];
      assert c !in t[i + 1..] by { assert s[i + 1..] == t[i + 1..] + [s[|s| - 1]]; }
      LastIndexOfAt(t, c, i);
    }
  }

  /** `find(pat, from)`: the first occurrence of `pat` at or after `from`. */
  function FindFrom(s: string, pat: string, from: nat): (r: Option<nat>)
    requires from <= |s|
    ensures r.Some? ==> from <= r.value && OccursAt(s, pat, r.value)
    ensures r.Some? ==> forall j :: from <= j < r.value ==> !OccursAt(s, pat, j)
    ensures r.None? ==> forall j :: from <= j <= |s| ==> !OccursAt(s, pat, j)
    decreases |s| - from
  {
    if OccursAt(s, pat, from) then Some(from)
    else if from == |s| then None
    else FindFrom(s, pat, from + 1)
  }

  /** `find(pat)`: the first occurrence of `pat`. */
  function Find(s: string, pat: string): (r: Option<nat>)
    ensures r.Some? ==> OccursAt(s, pat, r.value)
    ensures r.Some? ==> forall j :: 0 <= j < r.value ==> !OccursAt(s, pat, j)
    ensures r.None? ==> forall j :: 0 <= j <= |s| ==> !OccursAt(s, pat, j)
  {
    FindFrom(s, pat, 0)
  }

  /** `find(pat) == 0` is the test for a prefix. */
  lemma FindAtStartIff(s: string, pat: string)
    ensures Find(s, pat) == Some(0) <==> pat <= s
  {
    if pat <= s {
      assert s[0..|pat|] == pat;
      assert OccursAt(s, pat, 0);
    }
  }

  /** The part of `s` before the first `c`, or all of `s`. */
  function Before(s: string, c: char): (r: string)
    ensures c !in r
    ensures r <= s
    ensures c !in s ==> r == s
    ensures |s| > 0 && s[0] != c ==> |r| > 0
    ensures |s| > 0 && s[0] == c ==> r == []
  {
    match FirstIndexOf(s, c)
    case None => s
    case Some(i) => s[..i]
  }

  /** The part of `s` from the first `c` on, or nothing. */
  function From(s: string, c: char): (r: string)
    ensures c !in s ==> r == []
    ensures c in s ==> |r| > 0 && r[0] == c
  {
    match FirstIndexOf(s, c)
    case None => []
    case Some(i) => s[i..]
  }

  /** Text without `c` in front does not change where the cut falls. */
  lemma BeforeAppend(x: string, t: string, c: char)
    requires c !in x
    ensures Before(x + t, c) == x + Before(t, c)
  {
    match FirstIndexOf(t, c)
    case None =>
      assert c !in x + t;
    case Some(i) =>
      assert (x + t)[..|x| + i] == x + t[..i];
      FirstIndexOfAt(x + t, c, |x| + i);
  }
}
