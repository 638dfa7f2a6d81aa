/**
 The two string operations the table shaping relies on: Python's argument-less
 `str.strip()`, used on the joined fallback column labels, and the `[:n]` prefix
 slice, used on the summary date.
 */
module Text {

  /** The characters Python's `str.isspace()` accepts; `str.strip()` with no
      argument removes exactly these from both ends. */
  predicate IsSpace(c: char) {
    || ('\U{9}' <= c <= '\U{d}')
    || ('\U{1c}' <= c <= '\U{20}')
    || c == '\U{85}' || c == '\U{a0}' || c == '\U{1680}'
    || ('\U{2000}' <= c <= '\U{200a}')
    || c == '\U{2028}' || c == '\U{2029}' || c == '\U{202f}'
    || c == '\U{205f}' || c == '\U{3000}'
  }

  /** Neither end of `s` is whitespace: the shape of every stripped string. */
  predicate Edgeless(s: string) {
    s == [] || (!IsSpace(s[0]) && !IsSpace(s[|s| - 1]))
  }

  /** The first position at or after `i` that is not whitespace, or `|s|`. */
  function SkipSpace(s: string, i: nat): (r: nat)
    requires i <= |s|
    ensures i <= r <= |s|
    ensures forall k :: i <= k < r ==> IsSpace(s[k])
    ensures r < |s| ==> !IsSpace(s[r])
    decreases |s| - i
  {
    if i < |s| && IsSpace(s[i]) then SkipSpace(s, i + 1) else i
  }

  /** The end of `s[lo..j]` once its trailing whitespace is dropped. */
  function SkipSpaceBack(s: string, lo: nat, j: nat): (r: nat)
    requires lo <= j <= |s|
    ensures lo <= r <= j
    ensures forall k :: r <= k < j ==> IsSpace(s[k])
    ensures lo < r ==> !IsSpace(s[r - 1])
  {
    if lo < j && IsSpace(s[j - 1]) then SkipSpaceBack(s, lo, j - 1) else j
  }

  /** Where the stripped text begins. */
  function StripStart(s: string): nat {
    SkipSpace(s, 0)
  }

  /** Python's `str.strip()`: `s` with its leading and trailing whitespace
      removed and nothing else changed. */
  function Strip(s: string): (r: string)
    ensures Edgeless(r)
    ensures StripStart(s) + |r| <= |s|
    ensures r == s[StripStart(s)..StripStart(s) + |r|]
    ensures forall k :: 0 <= k < StripStart(s) ==> IsSpace(s[k])
    ensures forall k :: StripStart(s) + |r| <= k < |s| ==> IsSpace(s[k])
  {
    var a := StripStart(s);
    var b := SkipSpaceBack(s, a, |s|);
    s[a..b]
  }

  /** Stripping changes a string exactly when one of its ends is whitespace. */
  lemma StripIdentityIff(s: string)
    ensures Strip(s) == s <==> Edgeless(s)
  {
    if Edgeless(s) {
      assert StripStart(s) == 0;
      assert SkipSpaceBack(s, 0, |s|) == |s|;
    }
  }

  /** Stripping twice is stripping once. */
  lemma StripIdempotent(s: string)
    ensures Strip(Strip(s)) == Strip(s)
  {
    StripIdentityIff(Strip(s));
  }

  /** Every non-whitespace character of `s` survives stripping. */
  lemma StripKeepsNonSpace(s: string, k: nat)
    requires k < |s| && !IsSpace(s[k])
    ensures s[k] in Strip(s)
  {
    var a := StripStart(s);
    var r := Strip(s);
    assert a <= k < a + |r|;
    assert r[k - a] == s[k];
  }

  /** Python's `s[:n]`: the first `n` characters, or all of `s` when shorter. */
  function Prefix(s: string, n: nat): (r: string)
    ensures |r| == if |s| < n then |s| else n
    ensures r <= s
  {
    if |s| <= n then s else s[..n]
  }

  /** `s[:n]` is the only prefix of `s` of its length. */
  lemma PrefixUnique(s: string, n: nat, d: string)
    requires d <= s && |d| == if |s| < n then |s| else n
    ensures d == Prefix(s, n)
  {
  }
}
