/** The part of JavaScript's string semantics the typewriter relies on:
    `String.prototype.substring` with its clamping of both indices. */
module JsString {

  /** `p` is a prefix of `s`. */
  predicate IsPrefix(p: string, s: string) {
    |p| <= |s| && p == s[..|p|]
  }

  /** An index argument of `substring` clamped into `[0, len]`. */
  function Clamp(k: int, len: nat): nat {
    if k < 0 then 0 else if k > len then len else k
  }

  /** `s.substring(start, end)`: both indices are clamped into `[0, |s|]`
      and swapped when the first exceeds the second. */
  function Substring(s: string, start: int, end: int): (r: string)
    ensures |r| <= |s|
    ensures start <= 0 || end <= 0 ==> IsPrefix(r, s)
    ensures (start <= 0 && end >= |s|) || (end <= 0 && start >= |s|) ==> r == s
  {
    var a := Clamp(start, |s|);
    var b := Clamp(end, |s|);
    if a <= b then s[a..b] else s[b..a]
  }

  /** `s.substring(0, k)` is the prefix of `s` whose length is `k` clamped
      into `[0, |s|]`: never an error, whatever `k` is. */
  lemma SubstringFromZero(s: string, k: int)
    ensures IsPrefix(Substring(s, 0, k), s)
    ensures |Substring(s, 0, k)| == if k < 0 then 0 else if k > |s| then |s| else k
  {
  }

  /** Taking one character more than a proper prefix `p` of `s` gives the
      prefix of `s` that is exactly one character longer. */
  lemma SubstringExtends(p: string, s: string)
    requires IsPrefix(p, s) && |p| < |s|
    ensures Substring(s, 0, |p| + 1) == s[..|p| + 1]
    ensures IsPrefix(Substring(s, 0, |p| + 1), s)
    ensures Substring(s, 0, |p| + 1)[..|p|] == p
  {
  }

  /** Taking one character fewer than a non-empty prefix `p` of `s` gives `p`
      without its last character; for `p == ""` the result stays `""`. */
  lemma SubstringTruncates(p: string, s: string)
    requires IsPrefix(p, s)
    ensures p != "" ==> Substring(s, 0, |p| - 1) == p[..|p| - 1]
    ensures p == "" ==> Substring(s, 0, |p| - 1) == ""
  {
  }
}
