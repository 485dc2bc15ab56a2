/**
 * String primitives shared by the parser, the sanitiser and the renderer model.
 * Strings are sequences of characters; the whitespace class is the one used by
 * JavaScript's `\s` and `String.prototype.trim` (they agree).
 */
module Text {
  import opened Wrappers

  /** JavaScript `\s`: WhiteSpace and LineTerminator code points. */
  predicate IsWs(c: char) {
    var n := c as int;
    n == 0x09 || n == 0x0A || n == 0x0B || n == 0x0C || n == 0x0D || n == 0x20 ||
    n == 0xA0 || n == 0x1680 || (0x2000 <= n <= 0x200A) || n == 0x2028 || n == 0x2029 ||
    n == 0x202F || n == 0x205F || n == 0x3000 || n == 0xFEFF
  }

  /** Characters a JavaScript regex `.` refuses to match (line terminators). */
  predicate IsLineTerminator(c: char) {
    c == '\n' || c == '\r' || c as int == 0x2028 || c as int == 0x2029
  }

  /** JavaScript `\w`. */
  predicate IsWordChar(c: char) {
    ('a' <= c <= 'z') || ('A' <= c <= 'Z') || ('0' <= c <= '9') || c == '_'
  }

  predicate AllWs(s: string) {
    forall i :: 0 <= i < |s| ==> IsWs(s[i])
  }

  /** No leading and no trailing whitespace. */
  predicate IsTrimmed(s: string) {
    s == [] || (!IsWs(s[0]) && !IsWs(s[|s| - 1]))
  }

  /** `pat` occurs in `s` starting at index `k`. */
  predicate StartsAt(s: string, k: int, pat: string) {
    0 <= k && k + |pat| <= |s| && s[k..k + |pat|] == pat
  }

  /** Lower-cases ASCII letters only; this is what a non-Unicode `i` regex flag amounts to for ASCII patterns. */
  function AsciiLower(c: char): char {
    if 'A' <= c <= 'Z' then (c as int + 32) as char else c
  }

  /** `t` starts with `pat` ignoring ASCII case (`pat` is given in lower case). */
  predicate StartsWithIgnoringCase(t: string, pat: string) {
    |pat| <= |t| && forall i :: 0 <= i < |pat| ==> AsciiLower(t[i]) == pat[i]
  }

  /** The first index at or after `k` where `pat` starts (leftmost occurrence). */
  function FindFrom(s: string, pat: string, k: nat): (r: Option<nat>)
    requires k <= |s|
    ensures r.Some? ==> k <= r.value && StartsAt(s, r.value, pat)
    ensures r.Some? ==> forall i :: k <= i < r.value ==> !StartsAt(s, i, pat)
    ensures r.None? ==> forall i :: k <= i <= |s| ==> !StartsAt(s, i, pat)
    decreases |s| - k
  {
    if StartsAt(s, k, pat) then Some(k)
    else if k == |s| then None
    else FindFrom(s, pat, k + 1)
  }

  /** The end of the run of whitespace that starts at `k` (what a greedy `\s*` consumes). */
  function SkipWs(s: string, k: nat): (r: nat)
    requires k <= |s|
    ensures k <= r <= |s|
    ensures forall i :: k <= i < r ==> IsWs(s[i])
    ensures r < |s| ==> !IsWs(s[r])
    decreases |s| - k
  {
    if k == |s| || !IsWs(s[k]) then k else SkipWs(s, k + 1)
  }

  /** The start of the run of whitespace that ends at `hi`, not going below `lo`. */
  function BackWs(s: string, lo: nat, hi: nat): (r: nat)
    requires lo <= hi <= |s|
    ensures lo <= r <= hi
    ensures forall i :: r <= i < hi ==> IsWs(s[i])
    ensures r > lo ==> !IsWs(s[r - 1])
    decreases hi - lo
  {
    if hi == lo || !IsWs(s[hi - 1]) then hi else BackWs(s, lo, hi - 1)
  }

  /** The last newline in s[lo..n], scanning down from n: where a greedy `\s*` followed by `\n` stops. */
  function NewlineBack(s: string, lo: nat, n: nat): (r: Option<nat>)
    requires lo <= n <= |s|
    ensures r.Some? ==> lo <= r.value <= n && r.value < |s| && s[r.value] == '\n'
    decreases n - lo
  {
    if n < |s| && s[n] == '\n' then Some(n)
    else if n == lo then None
    else NewlineBack(s, lo, n - 1)
  }

  /** `String.prototype.trim`. */
  function Trim(s: string): (r: string)
    ensures IsTrimmed(r)
    ensures |r| <= |s|
    ensures var lo := SkipWs(s, 0); var hi := BackWs(s, lo, |s|); r == s[lo..hi]
    ensures r == [] <==> AllWs(s)
  {
    var lo := SkipWs(s, 0);
    var hi := BackWs(s, lo, |s|);
    assert lo < hi ==> !IsWs(s[lo]);
    assert lo == hi ==> AllWs(s) by {
      if lo == hi {
        forall i | 0 <= i < |s| ensures IsWs(s[i]) { }
      }
    }
    s[lo..hi]
  }

  /** Trimming text that has no surrounding whitespace changes nothing. */
  lemma TrimTrimmed(s: string)
    requires IsTrimmed(s)
    ensures Trim(s) == s
  {
    if s != [] {
      assert SkipWs(s, 0) == 0;
      assert BackWs(s, 0, |s|) == |s|;
    }
  }
}
