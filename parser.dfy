/**
 * The worker's response parser: it pulls one code block and one explanation out
 * of free-form model text.
 *
 * Each regular expression of the source is modelled by a function that scans
 * start positions from left to right and, at each position, tries the
 * alternatives in the order a backtracking regex engine tries them; the first
 * success is the match (leftmost-match semantics).
 */
module ResponseParser {
  import opened Wrappers
  import opened Text

  /** The three fields the parser keeps. */
  datatype ParseResult = ParseResult(code: string, explanation: string, remainingText: string)

  const CodeOpen: string := "<code>"
  const CodeClose: string := "</code>"
  const ExplanationOpen: string := "<explanation>"
  const ExplanationClose: string := "</explanation>"
  const Fence: string := "```"
  const FenceTypescript: string := "```typescript\n"
  const FencePlain: string := "```\n"
  const ExplanationLabel: string := "Explanation:"
  /** Lower-case forms of the labels stripped, ignoring case, from the after-code text. */
  const PlainLabelLower: string := "explanation:"
  const BoldLabelLower: string := "**explanation:**"

  // ---------------------------------------------------------------------------
  // `/<open>\s*([\s\S]*?)\s*<close>/`
  //
  // At a position where `open` starts, the match succeeds exactly when `close`
  // occurs later. The lazy group stops at the first `close`, and the two `\s*`
  // around it take all whitespace next to the tags, so the captured text is the
  // text between the tags with its surrounding whitespace removed.
  // ---------------------------------------------------------------------------

  function TagMatchFrom(s: string, open: string, close: string, k: nat): Option<string>
    requires k <= |s|
    decreases |s| - k
  {
    if StartsAt(s, k, open) && FindFrom(s, close, k + |open|).Some? then
      Some(Trim(s[k + |open| .. FindFrom(s, close, k + |open|).value]))
    else if k == |s| then None
    else TagMatchFrom(s, open, close, k + 1)
  }

  function TagMatch(s: string, open: string, close: string): Option<string> {
    TagMatchFrom(s, open, close, 0)
  }

  /** No start position in [k, |s|] matches once `close` is absent after the first `open` at or after k. */
  lemma {:induction false} TagMatchAbsent(s: string, open: string, close: string, k: nat, i: nat)
    requires k <= |s| && k <= i
    requires FindFrom(s, open, k) == Some(i)
    requires FindFrom(s, close, i + |open|).None?
    ensures TagMatchFrom(s, open, close, k).None?
    decreases |s| - k
  {
    if StartsAt(s, k, open) {
      assert k == i;
    }
    if k < |s| {
      if k < i {
        TagMatchAbsent(s, open, close, k + 1, i);
      } else {
        // k == i; no later start can see a `close` either
        TagMatchAbsentAfter(s, open, close, k + 1, i);
      }
    }
  }

  lemma {:induction false} TagMatchAbsentAfter(s: string, open: string, close: string, k: nat, i: nat)
    requires k <= |s| && i < k && i + |open| <= |s|
    requires FindFrom(s, close, i + |open|).None?
    ensures TagMatchFrom(s, open, close, k).None?
    decreases |s| - k
  {
    if StartsAt(s, k, open) {
      var f := FindFrom(s, close, k + |open|);
      if f.Some? {
        assert !StartsAt(s, f.value, close);
      }
    }
    if k < |s| {
      TagMatchAbsentAfter(s, open, close, k + 1, i);
    }
  }

  /** Leftmost-match semantics of the tag regex: the first `open`, and the first `close` after it. */
  lemma {:induction false} TagMatchFirst(s: string, open: string, close: string, k: nat, i: nat, j: nat)
    requires k <= |s| && k <= i && FindFrom(s, open, k) == Some(i)
    requires FindFrom(s, close, i + |open|) == Some(j)
    ensures TagMatchFrom(s, open, close, k) == Some(Trim(s[i + |open| .. j]))
    decreases i - k
  {
    if k < i {
      assert !StartsAt(s, k, open);
      TagMatchFirst(s, open, close, k + 1, i, j);
    }
  }

  // ---------------------------------------------------------------------------
  // `/```(?:typescript)?\n([\s\S]*?)```/`
  //
  // The optional group is greedy, so at each position the `typescript` form is
  // tried first and the bare fence second; the lazy body ends at the first
  // fence after the newline.
  // ---------------------------------------------------------------------------

  /** The body of a fence opened by `open` at `k`, up to the next fence. */
  function OpenedFence(s: string, k: nat, open: string): Option<string>
    requires k <= |s|
  {
    if StartsAt(s, k, open) && FindFrom(s, Fence, k + |open|).Some? then
      Some(s[k + |open| .. FindFrom(s, Fence, k + |open|).value])
    else None
  }

  function FenceAt(s: string, k: nat): Option<string>
    requires k <= |s|
  {
    if OpenedFence(s, k, FenceTypescript).Some? then OpenedFence(s, k, FenceTypescript)
    else OpenedFence(s, k, FencePlain)
  }

  function FenceMatchFrom(s: string, k: nat): Option<string>
    requires k <= |s|
    decreases |s| - k
  {
    if FenceAt(s, k).Some? then FenceAt(s, k)
    else if k == |s| then None
    else FenceMatchFrom(s, k + 1)
  }

  // ---------------------------------------------------------------------------
  // `/Explanation:\s*\n([\s\S]*?)(?:\n\n|\Z)/`
  //
  // The regex has no `u` flag, so `\Z` is an identity escape: it matches the
  // letter `Z`, not the end of the input. The lazy body therefore ends at the
  // first blank line or the first capital Z. `\s*` is greedy and gives back one
  // character at a time until a newline follows it.
  // ---------------------------------------------------------------------------

  /** The first index at or after `b` where `\n\n` or `Z` starts. */
  function LabelEnd(s: string, b: nat): (r: Option<nat>)
    requires b <= |s|
    ensures r.Some? ==> b <= r.value < |s|
    ensures r.Some? ==> forall i :: b <= i < r.value ==> s[i] != 'Z' && !StartsAt(s, i, "\n\n")
    decreases |s| - b
  {
    if b == |s| then None
    else if StartsAt(s, b, "\n\n") || s[b] == 'Z' then Some(b)
    else LabelEnd(s, b + 1)
  }

  /** Tries the newline of `\s*\n` at n, n - 1, ..., lo. */
  function LabelBodyTry(s: string, lo: nat, n: nat): Option<string>
    requires lo <= n <= |s|
    decreases n - lo
  {
    if n < |s| && s[n] == '\n' && LabelEnd(s, n + 1).Some? then
      Some(s[n + 1 .. LabelEnd(s, n + 1).value])
    else if n == lo then None
    else LabelBodyTry(s, lo, n - 1)
  }

  function LabelAt(s: string, k: nat): Option<string>
    requires k <= |s|
  {
    if StartsAt(s, k, ExplanationLabel) then
      var lo := k + |ExplanationLabel|;
      LabelBodyTry(s, lo, SkipWs(s, lo))
    else None
  }

  function LabelMatchFrom(s: string, k: nat): Option<string>
    requires k <= |s|
    decreases |s| - k
  {
    if LabelAt(s, k).Some? then LabelAt(s, k)
    else if k == |s| then None
    else LabelMatchFrom(s, k + 1)
  }

  /** Text that holds neither a capital `Z` nor a blank line. */
  predicate NoZNorBlankLine(t: string) {
    forall i :: 0 <= i < |t| ==> t[i] != 'Z' && !StartsAt(t, i, "\n\n")
  }

  lemma StartsAtPair(s: string, k: nat)
    ensures StartsAt(s, k, "\n\n") <==> k + 2 <= |s| && s[k] == '\n' && s[k + 1] == '\n'
  {
    if k + 2 <= |s| {
      assert s[k .. k + 2] == [s[k], s[k + 1]];
    }
  }

  /** The body the label regex captures never holds a `Z` nor a blank line. */
  lemma {:induction false} LabelBodyTryStops(s: string, lo: nat, n: nat)
    requires lo <= n <= |s|
    ensures LabelBodyTry(s, lo, n).Some? ==> NoZNorBlankLine(LabelBodyTry(s, lo, n).value)
    decreases n - lo
  {
    if n < |s| && s[n] == '\n' && LabelEnd(s, n + 1).Some? {
      var c := LabelEnd(s, n + 1).value;
      var t := s[n + 1 .. c];
      assert LabelBodyTry(s, lo, n) == Some(t);
      forall i | 0 <= i < |t|
        ensures t[i] != 'Z' && !StartsAt(t, i, "\n\n")
      {
        assert t[i] == s[n + 1 + i];
        StartsAtPair(t, i);
        StartsAtPair(s, n + 1 + i);
        if i + 2 <= |t| {
          assert t[i + 1] == s[n + 1 + i + 1];
        }
      }
    } else if n > lo {
      LabelBodyTryStops(s, lo, n - 1);
      assert LabelBodyTry(s, lo, n) == LabelBodyTry(s, lo, n - 1);
    }
  }

  lemma {:induction false} LabelMatchStops(s: string, k: nat)
    requires k <= |s|
    ensures LabelMatchFrom(s, k).Some? ==> NoZNorBlankLine(LabelMatchFrom(s, k).value)
    decreases |s| - k
  {
    if LabelAt(s, k).Some? {
      LabelBodyTryStops(s, k + |ExplanationLabel|, SkipWs(s, k + |ExplanationLabel|));
    } else if k < |s| {
      LabelMatchStops(s, k + 1);
      assert LabelMatchFrom(s, k) == LabelMatchFrom(s, k + 1);
    }
  }

  /** `LabelEnd` stops at the first terminator after a stretch that holds none. */
  lemma {:induction false} LabelEndAt(s: string, b: nat, e: nat)
    requires b <= e < |s|
    requires LabelBodyClear(s, b, e)
    requires StartsAt(s, e, "\n\n") || s[e] == 'Z'
    ensures LabelEnd(s, b) == Some(e)
    decreases e - b
  {
    if b < e {
      LabelEndAt(s, b + 1, e);
    }
  }

  lemma {:induction false} LabelEndNone(s: string, b: nat)
    requires b <= |s|
    requires forall i :: b <= i < |s| ==> s[i] != 'Z' && !StartsAt(s, i, "\n\n")
    ensures LabelEnd(s, b).None?
    decreases |s| - b
  {
    if b < |s| {
      LabelEndNone(s, b + 1);
    }
  }

  lemma {:induction false} LabelBodyTryNone(s: string, lo: nat, n: nat)
    requires lo <= n <= |s|
    requires forall i :: lo < i < |s| ==> s[i] != 'Z' && !StartsAt(s, i, "\n\n")
    ensures LabelBodyTry(s, lo, n).None?
    decreases n - lo
  {
    if n < |s| {
      LabelEndNone(s, n + 1);
    }
    if n > lo {
      LabelBodyTryNone(s, lo, n - 1);
    }
  }

  /** The label scan passes over positions where no label match starts. */
  lemma {:induction false} LabelSkips(s: string, k: nat, m: nat)
    requires k <= m <= |s|
    requires NoLabelBefore(s, m)
    ensures LabelMatchFrom(s, k) == LabelMatchFrom(s, m)
    decreases m - k
  {
    if k < m {
      LabelSkips(s, k + 1, m);
    }
  }

  lemma {:induction false} LabelNoEndFrom(s: string, k: nat, i: nat)
    requires k <= |s| && i <= |s|
    requires forall j :: k <= j < i ==> !StartsAt(s, j, ExplanationLabel)
    requires forall m :: i <= m < |s| ==> s[m] != 'Z' && !StartsAt(s, m, "\n\n")
    ensures LabelMatchFrom(s, k).None?
    decreases |s| - k
  {
    if i <= k && StartsAt(s, k, ExplanationLabel) {
      LabelBodyTryNone(s, k + |ExplanationLabel|, SkipWs(s, k + |ExplanationLabel|));
    }
    if k < |s| {
      LabelNoEndFrom(s, k + 1, i);
    }
  }

  /**
   * When neither a blank line nor a capital `Z` occurs at or after the first
   * `Explanation:` (at `i`, or nowhere when `i == |s|`), the label regex does
   * not match at all, and the explanation falls through to the after-code branch.
   */
  lemma UnterminatedLabel(s: string, i: nat)
    requires i <= |s|
    requires forall j :: 0 <= j < i ==> !StartsAt(s, j, ExplanationLabel)
    requires forall m :: i <= m < |s| ==> s[m] != 'Z' && !StartsAt(s, m, "\n\n")
    ensures LabelMatchFrom(s, 0).None?
  {
    LabelNoEndFrom(s, 0, i);
  }

  /** No label match starts before `k`. */
  predicate NoLabelBefore(s: string, k: nat)
    requires k <= |s|
  {
    forall j :: 0 <= j < k ==> LabelAt(s, j).None?
  }

  /** Every character of s[lo..b] is whitespace. */
  predicate WsRun(s: string, lo: nat, b: nat)
    requires lo <= b <= |s|
  {
    forall i :: lo <= i < b ==> IsWs(s[i])
  }

  /** No capital `Z` and no blank line starts in s[b..e]. */
  predicate LabelBodyClear(s: string, b: nat, e: nat)
    requires b <= e <= |s|
  {
    forall i :: b <= i < e ==> s[i] != 'Z' && !StartsAt(s, i, "\n\n")
  }

  /**
   * The label regex at the first label: after `Explanation:`, a whitespace run
   * and its last newline, it captures the text up to the first blank line or
   * capital `Z`.
   */
  lemma LabelBodyCaptured(s: string, pre: string, ws: string, body: string, rest: string)
    requires s == pre + ExplanationLabel + ws + "\n" + body + rest
    requires AllWs(ws) && body != [] && !IsWs(body[0])
    requires NoLabelBefore(s, |pre|)
    requires StartsAt(rest, 0, "\n\n") || (rest != [] && rest[0] == 'Z')
    requires NoZNorBlankLine(body) && !(body[|body| - 1] == '\n' && rest[0] == '\n')
    ensures LabelMatchFrom(s, 0) == Some(body)
  {
    LabelSlices(s, pre, ws, body, rest);
    LabelMatchAt(s, |pre|, |s| - |rest| - |body|, |s| - |rest|);
  }

  /** The label scan, with the position of the first label match and its body given. */
  lemma LabelMatchAt(s: string, k: nat, b: nat, e: nat)
    requires StartsAt(s, k, ExplanationLabel)
    requires NoLabelBefore(s, k)
    requires k + |ExplanationLabel| < b <= e < |s|
    requires WsRun(s, k + |ExplanationLabel|, b)
    requires s[b - 1] == '\n' && !IsWs(s[b])
    requires LabelBodyClear(s, b, e)
    requires StartsAt(s, e, "\n\n") || s[e] == 'Z'
    ensures LabelMatchFrom(s, 0) == Some(s[b .. e])
  {
    LabelAtBody(s, k, b, e);
    LabelSkips(s, 0, k);
  }

  /** Index facts of a labelled text, read off its parts. */
  lemma LabelSlices(s: string, pre: string, ws: string, body: string, rest: string)
    requires s == pre + ExplanationLabel + ws + "\n" + body + rest
    requires AllWs(ws) && body != [] && !IsWs(body[0])
    requires StartsAt(rest, 0, "\n\n") || (rest != [] && rest[0] == 'Z')
    requires NoZNorBlankLine(body) && !(body[|body| - 1] == '\n' && rest[0] == '\n')
    ensures StartsAt(s, |pre|, ExplanationLabel)
    ensures |pre| + |ExplanationLabel| + |ws| + 1 == |s| - |rest| - |body| && |s| - |rest| < |s|
    ensures WsRun(s, |pre| + |ExplanationLabel|, |s| - |rest| - |body|)
    ensures s[|s| - |rest| - |body| - 1] == '\n' && !IsWs(s[|s| - |rest| - |body|])
    ensures s[|s| - |rest| - |body| .. |s| - |rest|] == body
    ensures StartsAt(s, |s| - |rest|, "\n\n") || s[|s| - |rest|] == 'Z'
    ensures LabelBodyClear(s, |s| - |rest| - |body|, |s| - |rest|)
  {
    var k := |pre|;
    var lo := k + |ExplanationLabel|;
    var b := lo + |ws| + 1;
    var e := b + |body|;
    assert s[k .. lo] == ExplanationLabel;
    forall i | lo <= i < b
      ensures IsWs(s[i])
    {
      if i < b - 1 {
        assert s[i] == ws[i - lo];
      }
    }
    assert s[b - 1] == '\n' && s[b] == body[0];
    assert s[b .. e] == body;
    assert s[e] == rest[0];
    StartsAtPair(rest, 0);
    StartsAtPair(s, e);
    if |rest| >= 2 {
      assert s[e + 1] == rest[1];
    }
    BodyClearInside(s, b, body, rest);
  }

  /** A body clear of terminators, placed in front of `rest`, stays clear within the whole text. */
  lemma BodyClearInside(s: string, b: nat, body: string, rest: string)
    requires b + |body| + |rest| == |s| && body != [] && rest != []
    requires s[b .. b + |body|] == body && s[b + |body|] == rest[0]
    requires NoZNorBlankLine(body) && !(body[|body| - 1] == '\n' && rest[0] == '\n')
    ensures LabelBodyClear(s, b, b + |body|)
  {
    forall i | b <= i < b + |body|
      ensures s[i] != 'Z' && !StartsAt(s, i, "\n\n")
    {
      assert s[i] == body[i - b];
      StartsAtPair(s, i);
      StartsAtPair(body, i - b);
      if i + 1 < b + |body| {
        assert s[i + 1] == body[i - b + 1];
      }
    }
  }

  /** The label regex at `k`, with the positions of its body given. */
  lemma LabelAtBody(s: string, k: nat, b: nat, e: nat)
    requires StartsAt(s, k, ExplanationLabel)
    requires k + |ExplanationLabel| < b <= e < |s|
    requires WsRun(s, k + |ExplanationLabel|, b)
    requires s[b - 1] == '\n' && !IsWs(s[b])
    requires LabelBodyClear(s, b, e)
    requires StartsAt(s, e, "\n\n") || s[e] == 'Z'
    ensures LabelAt(s, k) == Some(s[b .. e])
  {
    var lo := k + |ExplanationLabel|;
    SkipWsOver(s, lo, b);
    LabelEndAt(s, b, e);
    assert LabelBodyTry(s, lo, b) == LabelBodyTry(s, lo, b - 1);
  }

  /** With no tagged explanation, a label body captured as above is the explanation, trimmed. */
  lemma LabelledExplanation(s: string, pre: string, ws: string, body: string, rest: string)
    requires s == pre + ExplanationLabel + ws + "\n" + body + rest
    requires AllWs(ws) && body != [] && !IsWs(body[0])
    requires NoLabelBefore(s, |pre|)
    requires StartsAt(rest, 0, "\n\n") || (rest != [] && rest[0] == 'Z')
    requires NoZNorBlankLine(body) && !(body[|body| - 1] == '\n' && rest[0] == '\n')
    requires Captured(TagMatch(s, ExplanationOpen, ExplanationClose)) == []
    ensures Parse(s).explanation == Trim(body)
  {
    LabelBodyCaptured(s, pre, ws, body, rest);
    assert ExplanationOf(s) == Trim(body);
  }

  // ---------------------------------------------------------------------------
  // `/(?:```|<\/code>)\s*\n([\s\S]*)/`
  //
  // At each position the fence alternative is tried before the closing tag; the
  // greedy `\s*` backs off to the last newline of the whitespace run, and the
  // greedy body takes the rest of the text.
  // ---------------------------------------------------------------------------

  function AfterMarker(s: string, k: nat, marker: string): Option<string>
    requires k <= |s|
  {
    if StartsAt(s, k, marker) then
      var lo := k + |marker|;
      var nl := NewlineBack(s, lo, SkipWs(s, lo));
      if nl.Some? then Some(s[nl.value + 1 ..]) else None
    else None
  }

  function AfterCodeAt(s: string, k: nat): Option<string>
    requires k <= |s|
  {
    if AfterMarker(s, k, Fence).Some? then AfterMarker(s, k, Fence)
    else AfterMarker(s, k, CodeClose)
  }

  function AfterCodeMatchFrom(s: string, k: nat): Option<string>
    requires k <= |s|
    decreases |s| - k
  {
    if AfterCodeAt(s, k).Some? then AfterCodeAt(s, k)
    else if k == |s| then None
    else AfterCodeMatchFrom(s, k + 1)
  }

  /**
   * `.replace(/^<label>\s*\n?/i, '')`: a label at the very start, in any ASCII
   * case, is removed together with the whitespace run after it (the greedy
   * `\s*` takes the newline, so `\n?` matches nothing).
   */
  function StripLeadingLabel(t: string, labelLower: string): string {
    if StartsWithIgnoringCase(t, labelLower) then t[SkipWs(t, |labelLower|)..] else t
  }

  /** The explanation the after-code branch derives from its captured text. */
  function AfterCodeExplanation(t: string): string {
    Trim(StripLeadingLabel(StripLeadingLabel(t, PlainLabelLower), BoldLabelLower))
  }

  // ---------------------------------------------------------------------------
  // parse
  // ---------------------------------------------------------------------------

  /** A regex capture is used only when it is a non-empty string (JavaScript truthiness). */
  function Captured(m: Option<string>): string {
    if m.Some? && m.value != [] then Trim(m.value) else []
  }

  function CodeOf(s: string): string {
    var tagged := Captured(TagMatch(s, CodeOpen, CodeClose));
    if tagged != [] then tagged else Captured(FenceMatchFrom(s, 0))
  }

  function ExplanationOf(s: string): string {
    var tagged := Captured(TagMatch(s, ExplanationOpen, ExplanationClose));
    if tagged != [] then tagged
    else
      var labelled := LabelMatchFrom(s, 0);
      if labelled.Some? && labelled.value != [] then Trim(labelled.value)
      else
        var after := AfterCodeMatchFrom(s, 0);
        if after.Some? && after.value != [] then AfterCodeExplanation(after.value) else []
  }

  /**
   * One parse of the whole text. Every field starts from "", so the result
   * depends on the text alone.
   */
  function Parse(s: string): (r: ParseResult)
    ensures IsTrimmed(r.code) && IsTrimmed(r.explanation) && IsTrimmed(r.remainingText)
    ensures r.code != [] ==> r.remainingText == []
    ensures r.code == [] ==> r.remainingText == Trim(s)
  {
    var code := CodeOf(s);
    var explanation := ExplanationOf(s);
    var remainingText := if code == [] && Trim(s) != [] then Trim(s) else [];
    ParseResult(code, explanation, remainingText)
  }

  // ---------------------------------------------------------------------------
  // Properties of Parse
  // ---------------------------------------------------------------------------

  /** No prefix position before `i` starts `pat`, and `pat` starts at `i`. */
  predicate FirstAt(s: string, pat: string, from: nat, i: nat) {
    from <= i && StartsAt(s, i, pat) && forall k :: from <= k < i ==> !StartsAt(s, k, pat)
  }

  lemma {:induction false} FindFromFirst(s: string, pat: string, from: nat, i: nat)
    requires from <= |s| && FirstAt(s, pat, from, i)
    ensures FindFrom(s, pat, from) == Some(i)
    decreases i - from
  {
    if from < i {
      FindFromFirst(s, pat, from + 1, i);
    }
  }

  /** The tag branch of the code, read off the first tags. */
  lemma TaggedCodeOf(s: string, i: nat, j: nat)
    requires FirstAt(s, CodeOpen, 0, i)
    requires FirstAt(s, CodeClose, i + |CodeOpen|, j)
    requires Trim(s[i + |CodeOpen| .. j]) != []
    ensures CodeOf(s) == Trim(s[i + |CodeOpen| .. j])
  {
    FindFromFirst(s, CodeOpen, 0, i);
    FindFromFirst(s, CodeClose, i + |CodeOpen|, j);
    TagMatchFirst(s, CodeOpen, CodeClose, 0, i, j);
    TrimTrimmed(Trim(s[i + |CodeOpen| .. j]));
  }

  /**
   * A tagged code block wins: with the first `<code>` at i and the first
   * `</code>` after it at j, the code is the trimmed text between them,
   * whenever that is not empty.
   */
  lemma CodeFromFirstTags(s: string, i: nat, j: nat)
    requires FirstAt(s, CodeOpen, 0, i)
    requires FirstAt(s, CodeClose, i + |CodeOpen|, j)
    requires Trim(s[i + |CodeOpen| .. j]) != []
    ensures Parse(s).code == Trim(s[i + |CodeOpen| .. j])
  {
    TaggedCodeOf(s, i, j);
  }

  /** A non-empty tagged explanation wins over the label and after-code branches. */
  lemma ExplanationFromFirstTags(s: string, i: nat, j: nat)
    requires FirstAt(s, ExplanationOpen, 0, i)
    requires FirstAt(s, ExplanationClose, i + |ExplanationOpen|, j)
    requires Trim(s[i + |ExplanationOpen| .. j]) != []
    ensures Parse(s).explanation == Trim(s[i + |ExplanationOpen| .. j])
  {
    FindFromFirst(s, ExplanationOpen, 0, i);
    FindFromFirst(s, ExplanationClose, i + |ExplanationOpen|, j);
    TagMatchFirst(s, ExplanationOpen, ExplanationClose, 0, i, j);
    TrimTrimmed(Trim(s[i + |ExplanationOpen| .. j]));
  }

  /** Appending text after `s` keeps a first occurrence that lies wholly inside `s`. */
  lemma FirstAtExtend(s: string, d: string, pat: string, from: nat, i: nat)
    requires FirstAt(s, pat, from, i)
    ensures FirstAt(s + d, pat, from, i)
  {
    assert (s + d)[i .. i + |pat|] == s[i .. i + |pat|];
    forall k | from <= k < i ensures !StartsAt(s + d, k, pat) {
      assert !StartsAt(s, k, pat);
      assert (s + d)[k .. k + |pat|] == s[k .. k + |pat|];
    }
  }

  /**
   * Re-parsing the accumulated text after more text arrives keeps a tagged code
   * block that was already closed: the streamed code never loses it.
   */
  lemma CodeStableUnderExtension(s: string, d: string, i: nat, j: nat)
    requires FirstAt(s, CodeOpen, 0, i)
    requires FirstAt(s, CodeClose, i + |CodeOpen|, j)
    requires Trim(s[i + |CodeOpen| .. j]) != []
    ensures Parse(s + d).code == Parse(s).code == Trim(s[i + |CodeOpen| .. j])
  {
    TaggedCodeOf(s, i, j);
    FirstAtExtend(s, d, CodeOpen, 0, i);
    FirstAtExtend(s, d, CodeClose, i + |CodeOpen|, j);
    assert (s + d)[i + |CodeOpen| .. j] == s[i + |CodeOpen| .. j];
    TaggedCodeOf(s + d, i, j);
  }

  /**
   * The backtick fallback: when the tags give no code (no `<code>` pair, or an
   * empty one), the code is the trimmed body of the leftmost fence opening
   * line (bare or tagged `typescript`) that has a closing fence after it; the
   * body runs up to the first fence after the opening line, and may hold
   * single backticks.
   */
  lemma FencedCode(s: string, pre: string, typescript: bool, body: string, rest: string)
    requires s == pre + (if typescript then FenceTypescript else FencePlain) + body + Fence + rest
    requires Captured(TagMatch(s, CodeOpen, CodeClose)) == []
    requires forall j :: 0 <= j < |pre| ==>
      OpenedFence(s, j, FenceTypescript).None? && OpenedFence(s, j, FencePlain).None?
    requires FenceFreeBody(body)
    ensures Parse(s).code == Trim(body)
  {
    FirstFenceMatch(s, pre, typescript, body, rest);
    assert CodeOf(s) == Captured(Some(body));
  }

  /**
   * A first `<code>` pair holding only whitespace gives no tagged code, so the
   * code falls back to the fence.
   */
  lemma EmptyCodeTags(s: string, i: nat, j: nat)
    requires FindFrom(s, CodeOpen, 0) == Some(i)
    requires i + |CodeOpen| <= j && FindFrom(s, CodeClose, i + |CodeOpen|) == Some(j)
    requires AllWs(s[i + |CodeOpen| .. j])
    ensures Captured(TagMatch(s, CodeOpen, CodeClose)) == []
  {
    TagMatchFirst(s, CodeOpen, CodeClose, 0, i, j);
  }

  /** The fence regex matches at the first opening line that has a closing fence after it. */
  lemma FirstFenceMatch(s: string, pre: string, typescript: bool, body: string, rest: string)
    requires s == pre + (if typescript then FenceTypescript else FencePlain) + body + Fence + rest
    requires forall j :: 0 <= j < |pre| ==>
      OpenedFence(s, j, FenceTypescript).None? && OpenedFence(s, j, FencePlain).None?
    requires FenceFreeBody(body)
    ensures FenceMatchFrom(s, 0) == Some(body)
  {
    var open := if typescript then FenceTypescript else FencePlain;
    var k := |pre|;
    FencedSlices(s, pre, open, body, rest);
    FenceAtOpening(s, k, typescript, body);
    FenceMatchSkips(s, 0, k);
    assert FenceMatchFrom(s, k) == Some(body);
  }

  /** At an opening line followed by a fence-free body and a fence, the fence regex captures the body. */
  lemma FenceAtOpening(s: string, k: nat, typescript: bool, body: string)
    requires var open := if typescript then FenceTypescript else FencePlain;
      && k + |open| + |body| + |Fence| <= |s|
      && s[k .. k + |open|] == open
      && s[k + |open| .. k + |open| + |body|] == body
      && s[k + |open| + |body| .. k + |open| + |body| + |Fence|] == Fence
    requires FenceFreeBody(body)
    ensures FenceAt(s, k) == Some(body)
  {
    var open := if typescript then FenceTypescript else FencePlain;
    FencedAt(s, k, open, body);
    if !typescript {
      StartsAtIndex(s, k, open, 3);
      StartsAtIndex(s, k, FenceTypescript, 3);
      assert OpenedFence(s, k, FenceTypescript).None?;
    }
  }

  /**
   * A body that holds no fence and does not end with a backtick: the first
   * fence after it is the one that closes it.
   */
  predicate FenceFreeBody(body: string) {
    (forall i :: 0 <= i <= |body| ==> !StartsAt(body, i, Fence))
    && (body == [] || body[|body| - 1] != '`')
  }

  /** An opening line, then a fence-free body and a fence: the opening line captures the body. */
  lemma FencedAt(s: string, k: nat, open: string, body: string)
    requires k + |open| + |body| + |Fence| <= |s|
    requires s[k .. k + |open|] == open
    requires s[k + |open| .. k + |open| + |body|] == body
    requires s[k + |open| + |body| .. k + |open| + |body| + |Fence|] == Fence
    requires FenceFreeBody(body)
    ensures StartsAt(s, k, open)
    ensures OpenedFence(s, k, open) == Some(body)
  {
    var lo := k + |open|;
    ClosingFenceFirst(s, lo, body);
  }

  /** When `s` holds a fence-free body and a fence at `lo`, the first fence from `lo` on is that one. */
  lemma ClosingFenceFirst(s: string, lo: nat, body: string)
    requires lo + |body| + |Fence| <= |s|
    requires s[lo .. lo + |body|] == body
    requires s[lo + |body| .. lo + |body| + |Fence|] == Fence
    requires FenceFreeBody(body)
    ensures FindFrom(s, Fence, lo) == Some(lo + |body|)
  {
    var e := lo + |body|;
    forall j | lo <= j < e
      ensures !StartsAt(s, j, Fence)
    {
      if j + |Fence| <= e {
        assert !StartsAt(body, j - lo, Fence);
        StartsAtWithin(s, lo, body, j, Fence);
      } else {
        assert s[e - 1] == body[|body| - 1];
        StartsAtIndex(s, j, Fence, e - 1 - j);
      }
    }
    FindFromFirst(s, Fence, lo, e);
  }

  /** Inside a stretch of `s` that holds `t`, a pattern occurs in `s` exactly where it occurs in `t`. */
  lemma StartsAtWithin(s: string, lo: nat, t: string, j: nat, pat: string)
    requires lo + |t| <= |s| && s[lo .. lo + |t|] == t
    requires lo <= j && j + |pat| <= lo + |t|
    ensures StartsAt(s, j, pat) <==> StartsAt(t, j - lo, pat)
  {
    forall m | j <= m < j + |pat|
      ensures s[m] == t[m - lo]
    {
      assert s[lo .. lo + |t|][m - lo] == s[m];
    }
    assert s[j .. j + |pat|] == t[j - lo .. j - lo + |pat|];
  }

  /** Where the parts of a fenced text sit in it. */
  lemma FencedSlices(s: string, pre: string, open: string, body: string, rest: string)
    requires s == pre + open + body + Fence + rest
    ensures var lo := |pre| + |open|; var e := lo + |body|;
      && e + |Fence| <= |s|
      && s[|pre| .. lo] == open && s[lo .. e] == body && s[e .. e + |Fence|] == Fence
  {
  }

  /** The fence scan passes over positions where no fence opens. */
  lemma {:induction false} FenceMatchSkips(s: string, k: nat, m: nat)
    requires k <= m <= |s|
    requires forall j :: k <= j < m ==> FenceAt(s, j).None?
    ensures FenceMatchFrom(s, k) == FenceMatchFrom(s, m)
    decreases m - k
  {
    if k < m {
      FenceMatchSkips(s, k + 1, m);
    }
  }

  // ---------------------------------------------------------------------------
  // The after-code branch of the explanation
  // ---------------------------------------------------------------------------

  /** The after-code scan passes over positions where no marker line starts. */
  lemma {:induction false} AfterCodeSkips(s: string, k: nat, m: nat)
    requires k <= m <= |s|
    requires forall j :: k <= j < m ==> AfterCodeAt(s, j).None?
    ensures AfterCodeMatchFrom(s, k) == AfterCodeMatchFrom(s, m)
    decreases m - k
  {
    if k < m {
      AfterCodeSkips(s, k + 1, m);
    }
  }

  /** Scanning down from `n`, the last newline is at `nl` when none lies above it. */
  lemma {:induction false} NewlineBackAt(s: string, lo: nat, nl: nat, n: nat)
    requires lo <= nl <= n <= |s| && nl < |s| && s[nl] == '\n'
    requires forall i :: nl < i < |s| && i <= n ==> s[i] != '\n'
    ensures NewlineBack(s, lo, n) == Some(nl)
    decreases n - nl
  {
    if nl < n {
      NewlineBackAt(s, lo, nl, n - 1);
    }
  }

  /**
   * A marker followed by a whitespace run captures the text after the last
   * newline of that run: the whitespace left after it (`u`, holding no newline)
   * and the rest of the text.
   */
  lemma AfterMarkerAt(s: string, pre: string, marker: string, ws: string, u: string, t: string)
    requires s == pre + marker + ws + "\n" + u + t
    requires AllWs(ws) && AllWs(u) && (forall i :: 0 <= i < |u| ==> u[i] != '\n')
    requires t == [] || !IsWs(t[0])
    ensures AfterMarker(s, |pre|, marker) == Some(u + t)
  {
    var k := |pre|;
    var lo := k + |marker|;
    var nl := lo + |ws|;
    var n := nl + 1 + |u|;
    assert s[k .. lo] == marker;
    forall i | lo <= i < n
      ensures IsWs(s[i])
    {
      if i < nl {
        assert s[i] == ws[i - lo];
      } else if nl < i {
        assert s[i] == u[i - nl - 1];
      }
    }
    forall i | nl < i < |s| && i <= n
      ensures s[i] != '\n'
    {
      if i < n {
        assert s[i] == u[i - nl - 1];
      } else {
        assert s[i] == t[0];
      }
    }
    assert n < |s| ==> s[n] == t[0];
    SkipWsOver(s, lo, n);
    NewlineBackAt(s, lo, nl, n);
    assert s[nl + 1 ..] == u + t;
  }

  /**
   * When neither the `<explanation>` tags nor the label give an explanation,
   * it comes from the text after the first ```` ``` ```` or `</code>` that is
   * followed by whitespace holding a newline: the text after the last newline
   * of that whitespace, with its leading labels stripped and then trimmed
   * (empty when nothing is left).
   */
  lemma AfterCodeBranch(s: string, pre: string, marker: string, ws: string, u: string, t: string)
    requires marker == Fence || marker == CodeClose
    requires s == pre + marker + ws + "\n" + u + t
    requires AllWs(ws) && AllWs(u) && (forall i :: 0 <= i < |u| ==> u[i] != '\n')
    requires t == [] || !IsWs(t[0])
    requires forall j :: 0 <= j < |pre| ==> AfterCodeAt(s, j).None?
    requires Captured(TagMatch(s, ExplanationOpen, ExplanationClose)) == []
    requires LabelMatchFrom(s, 0).None? || LabelMatchFrom(s, 0).value == []
    ensures Parse(s).explanation == AfterCodeExplanation(u + t)
  {
    var k := |pre|;
    AfterMarkerAt(s, pre, marker, ws, u, t);
    if marker == CodeClose {
      assert s[k] == '<';
      StartsAtHead(s, k, Fence);
      assert AfterMarker(s, k, Fence).None?;
    }
    assert AfterCodeAt(s, k) == Some(u + t);
    AfterCodeSkips(s, 0, k);
    assert AfterCodeMatchFrom(s, 0) == Some(u + t);
    if u + t == [] {
      assert AfterCodeExplanation(u + t) == [];
    }
  }

  /**
   * Whitespace left after the marker line's last newline keeps a label from
   * being stripped, since both strips are anchored at the start: the label
   * stays in the explanation.
   */
  lemma IndentedLabelKept(u: string, t: string)
    requires u != [] && AllWs(u)
    ensures AfterCodeExplanation(u + t) == Trim(u + t)
  {
    var x := u + t;
    assert x[0] == u[0] && IsWs(x[0]);
    assert AsciiLower(x[0]) == x[0];
    assert !StartsWithIgnoringCase(x, PlainLabelLower) by {
      assert PlainLabelLower[0] == 'e';
    }
    assert !StartsWithIgnoringCase(x, BoldLabelLower) by {
      assert BoldLabelLower[0] == '*';
    }
  }

  /** Text after the marker that starts with no label is only trimmed. */
  lemma UnlabelledAfterCode(t: string)
    requires !StartsWithIgnoringCase(t, PlainLabelLower) && !StartsWithIgnoringCase(t, BoldLabelLower)
    ensures AfterCodeExplanation(t) == Trim(t)
  {
  }

  /**
   * A leading `Explanation:` in any letter case goes with the whitespace after
   * it; a bold label right after it is stripped as well.
   */
  lemma PlainLabelAfterCode(v: string, w: string, t: string)
    requires |v| == |PlainLabelLower| && StartsWithIgnoringCase(v, PlainLabelLower)
    requires AllWs(w)
    requires t == [] || !IsWs(t[0])
    ensures AfterCodeExplanation(v + w + t) == Trim(StripLeadingLabel(t, BoldLabelLower))
  {
    StripsLabelAnyCase(v, w, t);
  }

  /** A leading `**Explanation:**` in any letter case goes with the whitespace after it. */
  lemma BoldLabelAfterCode(v: string, w: string, t: string)
    requires |v| == |BoldLabelLower| && StartsWithIgnoringCase(v, BoldLabelLower)
    requires AllWs(w)
    requires t == [] || !IsWs(t[0])
    ensures AfterCodeExplanation(v + w + t) == Trim(t)
  {
    var x := v + w + t;
    assert x[0] == v[0];
    assert !StartsWithIgnoringCase(x, PlainLabelLower) by {
      assert AsciiLower(x[0]) == BoldLabelLower[0];
    }
    StripsLeadingLabel(v, w, t, BoldLabelLower);
  }

  lemma StartsAtIndex(s: string, k: nat, pat: string, j: nat)
    requires j < |pat|
    ensures StartsAt(s, k, pat) ==> s[k + j] == pat[j]
  {
    if k + |pat| <= |s| {
      assert s[k .. k + |pat|][j] == s[k + j];
    }
  }

  lemma StartsAtHead(s: string, k: nat, pat: string)
    requires |pat| > 0
    ensures StartsAt(s, k, pat) ==> s[k] == pat[0]
  {
    if k + |pat| <= |s| {
      assert s[k .. k + |pat|][0] == s[k];
    }
  }

  lemma {:induction false} TagMatchNone(s: string, open: string, close: string, k: nat)
    requires k <= |s|
    requires forall m :: k <= m <= |s| ==> !StartsAt(s, m, open)
    ensures TagMatchFrom(s, open, close, k).None?
    decreases |s| - k
  {
    if k < |s| {
      TagMatchNone(s, open, close, k + 1);
    }
  }

  /**
   * When neither `<explanation>` tags nor a non-empty label body supply it, the
   * label branch is the source of the explanation only when its body is
   * non-empty, and such an explanation never contains a capital `Z` nor a blank
   * line: the body stops at either.
   */
  lemma LabelExplanation(s: string)
    requires Captured(TagMatch(s, ExplanationOpen, ExplanationClose)) == []
    requires LabelMatchFrom(s, 0).Some? && LabelMatchFrom(s, 0).value != []
    ensures Parse(s).explanation == Trim(LabelMatchFrom(s, 0).value)
    ensures forall i :: 0 <= i < |Parse(s).explanation| ==> Parse(s).explanation[i] != 'Z'
  {
    LabelMatchStops(s, 0);
    TrimKeepsNoZ(LabelMatchFrom(s, 0).value);
    assert ExplanationOf(s) == Trim(LabelMatchFrom(s, 0).value);
  }

  /** Trimming removes characters only at the ends, so it adds no `Z`. */
  lemma TrimKeepsNoZ(b: string)
    requires NoZNorBlankLine(b)
    ensures forall i :: 0 <= i < |Trim(b)| ==> Trim(b)[i] != 'Z'
  {
    var t := Trim(b);
    var lo := SkipWs(b, 0);
    forall i | 0 <= i < |t| ensures t[i] != 'Z' {
      assert t[i] == b[lo + i];
    }
  }


  /**
   * The after-code branch removes a leading `Explanation:` label written in any
   * ASCII case, together with the whitespace after it.
   */
  lemma StripsLabelAnyCase(v: string, w: string, t: string)
    requires |v| == |PlainLabelLower| && StartsWithIgnoringCase(v, PlainLabelLower)
    requires AllWs(w)
    requires t == [] || !IsWs(t[0])
    ensures StripLeadingLabel(v + w + t, PlainLabelLower) == t
  {
    StripsLeadingLabel(v, w, t, PlainLabelLower);
  }

  lemma StripsLeadingLabel(v: string, w: string, t: string, labelLower: string)
    requires |v| == |labelLower| && StartsWithIgnoringCase(v, labelLower)
    requires AllWs(w)
    requires t == [] || !IsWs(t[0])
    ensures StripLeadingLabel(v + w + t, labelLower) == t
  {
    var x := v + w + t;
    assert StartsWithIgnoringCase(x, labelLower) by {
      forall i | 0 <= i < |labelLower| ensures AsciiLower(x[i]) == labelLower[i] {
        assert x[i] == v[i];
      }
    }
    assert SkipWs(x, |v|) == |v| + |w| by {
      SkipWsOver(x, |v|, |v| + |w|);
    }
    assert x[|v| + |w| ..] == t;
  }

  lemma {:induction false} SkipWsOver(s: string, k: nat, e: nat)
    requires k <= e <= |s|
    requires forall i :: k <= i < e ==> IsWs(s[i])
    requires e == |s| || !IsWs(s[e])
    ensures SkipWs(s, k) == e
    decreases e - k
  {
    if k < e {
      SkipWsOver(s, k + 1, e);
    }
  }

  // ---------------------------------------------------------------------------
  // The Parser class
  // ---------------------------------------------------------------------------

  /**
   * The stateful parser object. `source` is the text of the last parse; the
   * three fields always hold what Parse gives for it.
   */
  class Parser {
    var code: string
    var explanation: string
    var remainingText: string
    ghost var source: string

    ghost predicate Valid()
      reads this
    {
      ParseResult(code, explanation, remainingText) == Parse(source)
    }

    /** `new Parser(response?)`: parses only a present, non-empty response. */
    constructor (response: Option<string>)
      ensures Valid()
      ensures source == response.GetOr([])
      ensures response.None? || response.value == [] ==> code == [] && explanation == [] && remainingText == []
    {
      code, explanation, remainingText := [], [], [];
      source := [];
      new;
      assert Parse([]) == ParseResult([], [], []);
      if response.Some? && response.value != [] {
        ParseChunk(response.value);
      }
    }

    /** Re-parses from scratch: the new fields ignore whatever was parsed before. */
    method ParseChunk(chunk: string)
      modifies this
      ensures Valid() && source == chunk
      ensures ParseResult(code, explanation, remainingText) == Parse(chunk)
    {
      var r := Parse(chunk);
      code, explanation, remainingText := r.code, r.explanation, r.remainingText;
      source := chunk;
      assert ParseResult(code, explanation, remainingText) == r;
    }

    function GetCode(): (r: string)
      reads this
      requires Valid()
      ensures IsTrimmed(r) && r == Parse(source).code
    {
      code
    }

    function GetExplanation(): (r: string)
      reads this
      requires Valid()
      ensures IsTrimmed(r) && r == Parse(source).explanation
    {
      explanation
    }

    function GetRemainingText(): (r: string)
      reads this
      requires Valid()
      ensures r == (if code == [] then Trim(source) else [])
    {
      remainingText
    }

    /** The three fields joined by newlines; the last part is the whole trimmed text only when no code was found. */
    function GetText(): (r: string)
      reads this
      requires Valid()
      ensures r == code + "\n" + explanation + "\n" + (if code == [] then Trim(source) else [])
    {
      var rest := remainingText;
      assert rest == (if code == [] then Trim(source) else []) by {
        assert rest == Parse(source).remainingText;
      }
      code + "\n" + explanation + "\n" + rest
    }

    function GetFullResponse(): (r: ParseResult)
      reads this
      requires Valid()
      ensures r == Parse(source)
    {
      ParseResult(code, explanation, remainingText)
    }
  }
}
