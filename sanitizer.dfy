/**
 * The clean-up chains the worker applies to the parsed code and explanation
 * before it stores and sends them: a fixed sequence of global regex
 * replacements followed by a trim.
 */
module Sanitizer {
  import opened Wrappers
  import opened Text

  /** The regex shapes that occur in the two chains. */
  datatype Pattern =
    | Literal(text: string, optionalNewline: bool)   // /text\n?/g, or /text/g
    | BlankRun                                        // /\n\s*\n/g
    | LineSpan(head: string, tail: string)            // /head.*?tail\n?/g
    | NewlineRun                                      // /\n{3,}/g

  /** Every pattern of the chains matches at least one character. */
  predicate ValidPattern(p: Pattern) {
    match p
    case Literal(text, _) => text != []
    case LineSpan(head, _) => head != []
    case _ => true
  }

  /** The shortest text the pattern can match. */
  function MinMatch(p: Pattern): nat {
    match p
    case Literal(text, _) => |text|
    case BlankRun => 2
    case LineSpan(head, tail) => |head| + |tail|
    case NewlineRun => 3
  }

  /** `\n?` after position e: one more character when a newline follows. */
  function OptionalNewline(s: string, e: nat): nat {
    if e < |s| && s[e] == '\n' then 1 else 0
  }

  /** The first index at or after k that does not hold a newline. */
  function NewlineRunEnd(s: string, k: nat): (e: nat)
    requires k <= |s|
    ensures k <= e <= |s|
    ensures forall i :: k <= i < e ==> s[i] == '\n'
    ensures e < |s| ==> s[e] != '\n'
    decreases |s| - k
  {
    if k == |s| || s[k] != '\n' then k else NewlineRunEnd(s, k + 1)
  }

  /**
   * The lazy `.*?tail`: the first position from c on where `tail` starts, as
   * long as no line terminator comes first (`.` does not match one).
   */
  function SpanEnd(s: string, c: nat, tail: string): (r: Option<nat>)
    requires c <= |s|
    ensures r.Some? ==> c <= r.value && StartsAt(s, r.value, tail)
    decreases |s| - c
  {
    if StartsAt(s, c, tail) then Some(c)
    else if c == |s| || IsLineTerminator(s[c]) then None
    else SpanEnd(s, c + 1, tail)
  }

  /** The length of the match of `p` that starts at k, if any. */
  function MatchLength(s: string, k: nat, p: Pattern): (r: Option<nat>)
    requires k <= |s|
    ensures r.Some? ==> k + r.value <= |s| && r.value >= MinMatch(p)
    ensures r.Some? && ValidPattern(p) ==> r.value >= 1
  {
    match p
    case Literal(text, opt) =>
      if StartsAt(s, k, text) then
        Some(|text| + (if opt then OptionalNewline(s, k + |text|) else 0))
      else None
    case BlankRun =>
      if k < |s| && s[k] == '\n' then
        var nl := NewlineBack(s, k + 1, SkipWs(s, k + 1));
        if nl.Some? then Some(nl.value + 1 - k) else None
      else None
    case LineSpan(head, tail) =>
      if StartsAt(s, k, head) then
        var c := SpanEnd(s, k + |head|, tail);
        if c.Some? then
          Some(c.value + |tail| - k + OptionalNewline(s, c.value + |tail|))
        else None
      else None
    case NewlineRun =>
      var e := NewlineRunEnd(s, k);
      if e - k >= 3 then Some(e - k) else None
  }

  /**
   * `s.slice(k).replace(/p/g, rep)`: scan from the left; where the pattern
   * matches, emit `rep` and continue after the match, otherwise copy one
   * character.
   */
  function ReplaceFrom(s: string, p: Pattern, rep: string, k: nat): string
    requires ValidPattern(p)
    requires k <= |s|
    decreases |s| - k
  {
    if k == |s| then []
    else
      var m := MatchLength(s, k, p);
      if m.Some? then rep + ReplaceFrom(s, p, rep, k + m.value)
      else [s[k]] + ReplaceFrom(s, p, rep, k + 1)
  }

  function ReplaceAll(s: string, p: Pattern, rep: string): string
    requires ValidPattern(p)
  {
    ReplaceFrom(s, p, rep, 0)
  }

  // ---------------------------------------------------------------------------
  // The two chains
  // ---------------------------------------------------------------------------

  const EscapedNewline: string := "\\n"
  const CodePreamble: Pattern := LineSpan("Here's the code to create", "Motion Canvas.")
  const CodeEpilogue: Pattern := LineSpan("The code defines", "`x` position.")

  /** The code chain. The result is trimmed, never longer than the input, and holds no run of three newlines. */
  function SanitizeCode(code: string): (r: string)
    ensures IsTrimmed(r)
    ensures |r| <= |code|
    ensures NoTripleNewline(r)
  {
    var s1 := ReplaceAll(code, Literal(EscapedNewline, false), "\n");
    var s2 := ReplaceAll(s1, BlankRun, "\n");
    var s3 := ReplaceAll(s2, Literal("```typescript", true), []);
    var s4 := ReplaceAll(s3, Literal("```", true), []);
    var s5 := ReplaceAll(s4, Literal("<code>", true), []);
    var s6 := ReplaceAll(s5, Literal("</code>", true), []);
    var s7 := ReplaceAll(s6, CodePreamble, []);
    var s8 := ReplaceAll(s7, CodeEpilogue, []);
    var s9 := ReplaceAll(s8, NewlineRun, "\n\n");
    ReplaceNotLonger(code, Literal(EscapedNewline, false), "\n", 0);
    ReplaceNotLonger(s1, BlankRun, "\n", 0);
    ReplaceNotLonger(s2, Literal("```typescript", true), [], 0);
    ReplaceNotLonger(s3, Literal("```", true), [], 0);
    ReplaceNotLonger(s4, Literal("<code>", true), [], 0);
    ReplaceNotLonger(s5, Literal("</code>", true), [], 0);
    ReplaceNotLonger(s6, CodePreamble, [], 0);
    ReplaceNotLonger(s7, CodeEpilogue, [], 0);
    ReplaceNotLonger(s8, NewlineRun, "\n\n", 0);
    CollapseNoTriple(s8, 0);
    TrimNoTriple(s9);
    Trim(s9)
  }

  /** The explanation chain. The result is trimmed, never longer than the input, and holds no run of three newlines. */
  function SanitizeExplanation(explanation: string): (r: string)
    ensures IsTrimmed(r)
    ensures |r| <= |explanation|
    ensures NoTripleNewline(r)
  {
    var s1 := ReplaceAll(explanation, Literal(EscapedNewline, false), "\n");
    var s2 := ReplaceAll(s1, BlankRun, "\n");
    var s3 := ReplaceAll(s2, Literal("**Explanation:**", true), []);
    var s4 := ReplaceAll(s3, Literal("<explanation>", true), []);
    var s5 := ReplaceAll(s4, Literal("</explanation>", true), []);
    var s6 := ReplaceAll(s5, NewlineRun, "\n\n");
    ReplaceNotLonger(explanation, Literal(EscapedNewline, false), "\n", 0);
    ReplaceNotLonger(s1, BlankRun, "\n", 0);
    ReplaceNotLonger(s2, Literal("**Explanation:**", true), [], 0);
    ReplaceNotLonger(s3, Literal("<explanation>", true), [], 0);
    ReplaceNotLonger(s4, Literal("</explanation>", true), [], 0);
    ReplaceNotLonger(s5, NewlineRun, "\n\n", 0);
    CollapseNoTriple(s5, 0);
    TrimNoTriple(s6);
    Trim(s6)
  }

  // ---------------------------------------------------------------------------
  // Properties of the replacement scan
  // ---------------------------------------------------------------------------

  /** A replacement no longer than the shortest match never lengthens the text. */
  lemma {:induction false} ReplaceNotLonger(s: string, p: Pattern, rep: string, k: nat)
    requires ValidPattern(p) && k <= |s| && |rep| <= MinMatch(p)
    ensures |ReplaceFrom(s, p, rep, k)| <= |s| - k
    decreases |s| - k
  {
    if k < |s| {
      var m := MatchLength(s, k, p);
      if m.Some? {
        ReplaceNotLonger(s, p, rep, k + m.value);
        assert ReplaceFrom(s, p, rep, k) == rep + ReplaceFrom(s, p, rep, k + m.value);
      } else {
        ReplaceNotLonger(s, p, rep, k + 1);
        assert ReplaceFrom(s, p, rep, k) == [s[k]] + ReplaceFrom(s, p, rep, k + 1);
      }
    }
  }

  /** Where the pattern matches nowhere, the scan copies the text. */
  lemma {:induction false} ReplaceNoMatch(s: string, p: Pattern, rep: string, k: nat)
    requires ValidPattern(p) && k <= |s|
    requires forall i :: k <= i < |s| ==> MatchLength(s, i, p).None?
    ensures ReplaceFrom(s, p, rep, k) == s[k..]
    decreases |s| - k
  {
    if k < |s| {
      ReplaceNoMatch(s, p, rep, k + 1);
      assert s[k..] == [s[k]] + s[k + 1..];
    }
  }

  predicate NoTripleNewline(s: string) {
    forall i :: 0 <= i < |s| ==> !StartsAt(s, i, "\n\n\n")
  }

  lemma StartsAtTriple(s: string, i: nat)
    ensures StartsAt(s, i, "\n\n\n") <==> i + 3 <= |s| && s[i] == '\n' && s[i + 1] == '\n' && s[i + 2] == '\n'
  {
    if i + 3 <= |s| {
      assert s[i .. i + 3] == [s[i], s[i + 1], s[i + 2]];
    }
  }

  /** A text that starts with one or two newlines and then a non-newline keeps the property. */
  lemma PrefixNoTriple(nl: string, t: string)
    requires nl == "\n" || nl == "\n\n" || (|nl| == 1 && nl[0] != '\n')
    requires NoTripleNewline(t)
    requires t == [] || t[0] != '\n' || nl[0] != '\n'
    ensures NoTripleNewline(nl + t)
  {
    var u := nl + t;
    forall i | 0 <= i < |u| ensures !StartsAt(u, i, "\n\n\n") {
      StartsAtTriple(u, i);
      if i >= |nl| {
        StartsAtTriple(t, i - |nl|);
        if i + 3 <= |u| {
          assert u[i] == t[i - |nl|] && u[i + 1] == t[i - |nl| + 1] && u[i + 2] == t[i - |nl| + 2];
        }
      }
    }
  }

  /** Scanning from a non-newline copies that character first. */
  lemma CollapseHead(s: string, k: nat)
    requires k < |s| && s[k] != '\n'
    ensures ReplaceFrom(s, NewlineRun, "\n\n", k) == [s[k]] + ReplaceFrom(s, NewlineRun, "\n\n", k + 1)
  {
    assert NewlineRunEnd(s, k) == k;
  }

  /**
   * Collapsing runs of three or more newlines into two leaves no run of three:
   * runs of one or two are copied, longer runs become two, and every copied or
   * replaced run is followed by a non-newline.
   */
  lemma {:induction false} CollapseNoTriple(s: string, k: nat)
    requires k <= |s|
    requires k == 0 || k == |s| || s[k - 1] != '\n' || s[k] != '\n'
    ensures NoTripleNewline(ReplaceFrom(s, NewlineRun, "\n\n", k))
    decreases |s| - k
  {
    var out := ReplaceFrom(s, NewlineRun, "\n\n", k);
    if k == |s| {
      assert out == [];
    } else if s[k] != '\n' {
      CollapseHead(s, k);
      CollapseNoTriple(s, k + 1);
      PrefixNoTriple([s[k]], ReplaceFrom(s, NewlineRun, "\n\n", k + 1));
    } else {
      var e := NewlineRunEnd(s, k);
      var rest := ReplaceFrom(s, NewlineRun, "\n\n", e);
      CollapseNoTriple(s, e);
      if e < |s| {
        CollapseHead(s, e);
      }
      if e - k >= 3 {
        assert out == "\n\n" + rest;
        PrefixNoTriple("\n\n", rest);
      } else if e - k == 2 {
        assert NewlineRunEnd(s, k + 1) == e;
        assert out == "\n" + ("\n" + rest);
        assert out == "\n\n" + rest;
        PrefixNoTriple("\n\n", rest);
      } else {
        assert out == "\n" + rest;
        PrefixNoTriple("\n", rest);
      }
    }
  }

  lemma TrimNoTriple(s: string)
    requires NoTripleNewline(s)
    ensures NoTripleNewline(Trim(s))
  {
    var lo := SkipWs(s, 0);
    var t := Trim(s);
    forall i | 0 <= i < |t| ensures !StartsAt(t, i, "\n\n\n") {
      StartsAtTriple(t, i);
      StartsAtTriple(s, lo + i);
      if i + 3 <= |t| {
        assert t[i] == s[lo + i] && t[i + 1] == s[lo + i + 1] && t[i + 2] == s[lo + i + 2];
      }
    }
  }

  // ---------------------------------------------------------------------------
  // Text the chains leave alone
  // ---------------------------------------------------------------------------

  /** Text with no trigger of any pattern (no newline, backslash, backtick, `<`, `*` or boilerplate opening). */
  predicate Plain(x: string) {
    && (forall c :: c in x ==> c != '\n' && c != '\\' && c != '`' && c != '<' && c != '*')
    && (forall i :: 0 <= i < |x| ==> !StartsAt(x, i, CodePreamble.head) && !StartsAt(x, i, CodeEpilogue.head))
  }

  lemma PlainNoMatch(x: string, p: Pattern)
    requires Plain(x) && ValidPattern(p)
    requires p.Literal? ==> p.text[0] in "\\`<*"
    requires p.LineSpan? ==> p.head == CodePreamble.head || p.head == CodeEpilogue.head
    ensures forall i :: 0 <= i < |x| ==> MatchLength(x, i, p).None?
  {
    forall i | 0 <= i < |x| ensures MatchLength(x, i, p).None? {
      assert x[i] in x;
      if p.Literal? {
        if i + |p.text| <= |x| {
          assert x[i .. i + |p.text|][0] == x[i];
        }
      } else if p.NewlineRun? {
        assert NewlineRunEnd(x, i) == i;
      }
    }
  }

  lemma PlainUnchanged(x: string, p: Pattern, rep: string)
    requires Plain(x) && ValidPattern(p)
    requires p.Literal? ==> p.text[0] in "\\`<*"
    requires p.LineSpan? ==> p.head == CodePreamble.head || p.head == CodeEpilogue.head
    ensures ReplaceAll(x, p, rep) == x
  {
    PlainNoMatch(x, p);
    ReplaceNoMatch(x, p, rep, 0);
  }

  /** On text that no pattern matches, the code chain only trims. */
  lemma PlainCodeOnlyTrimmed(x: string)
    requires Plain(x)
    ensures SanitizeCode(x) == Trim(x)
  {
    PlainUnchanged(x, Literal(EscapedNewline, false), "\n");
    PlainUnchanged(x, BlankRun, "\n");
    PlainUnchanged(x, Literal("```typescript", true), []);
    PlainUnchanged(x, Literal("```", true), []);
    PlainUnchanged(x, Literal("<code>", true), []);
    PlainUnchanged(x, Literal("</code>", true), []);
    PlainUnchanged(x, CodePreamble, []);
    PlainUnchanged(x, CodeEpilogue, []);
    PlainUnchanged(x, NewlineRun, "\n\n");
  }

  /** On text that no pattern matches, the explanation chain only trims. */
  lemma PlainExplanationOnlyTrimmed(x: string)
    requires Plain(x)
    ensures SanitizeExplanation(x) == Trim(x)
  {
    PlainUnchanged(x, Literal(EscapedNewline, false), "\n");
    PlainUnchanged(x, BlankRun, "\n");
    PlainUnchanged(x, Literal("**Explanation:**", true), []);
    PlainUnchanged(x, Literal("<explanation>", true), []);
    PlainUnchanged(x, Literal("</explanation>", true), []);
    PlainUnchanged(x, NewlineRun, "\n\n");
  }
}
