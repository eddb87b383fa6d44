/**
 * The transition pattern `/^(.+?)\s*-->\s*(.+?)$/` of `parseStateDiagram.ts`,
 * with the regular-expression engine's search order written out: the lazy
 * source group grows one character at a time, each `\s*` is greedy and gives
 * characters back only when what follows fails.
 */
module Transitions {
  import opened Wrappers
  import opened Text

  /** The two captured groups: the source label and the target label. */
  datatype Transition = Transition(source: string, target: string)

  const Arrow: string := "-->"

  /**
   * `\s*(.+?)$` from index `s`: the greedy whitespace is tried longest first,
   * and the rest up to the end must be a non-empty run of characters `.`
   * matches. At the very end a whitespace character can be handed back to the
   * group; once a line terminator is in the rest, no shorter run helps.
   */
  function MatchTarget(t: string, s: nat): (r: Option<string>)
    requires s <= |t|
    ensures r.Some? ==> r.value != [] && NoLineTerminator(r.value) && |r.value| <= |t| - s
    ensures r.Some? ==> r.value == t[|t| - |r.value|..] && WhitespaceBetween(t, s, |t| - |r.value|)
  {
    var m := SkipWhitespace(t, s);
    if m < |t| && NoLineTerminator(t[m..]) then Some(t[m..])
    else if m == |t| && s < m && !IsLineTerminator(t[m - 1]) then Some(t[m - 1..])
    else None
  }

  /**
   * The pattern with the source group holding exactly `t[..i]`. Giving back
   * whitespace from the first `\s*` never helps, since `-->` cannot start
   * inside a whitespace run.
   */
  function MatchAt(t: string, i: nat): (r: Option<Transition>)
    requires 1 <= i <= |t|
    ensures r.Some? ==> r.value.source == t[..i]
    ensures r.Some? ==> |r.value.target| <= |t| - i
  {
    var j := SkipWhitespace(t, i);
    if j + 3 <= |t| && t[j..j + 3] == Arrow then
      match MatchTarget(t, j + 3)
      case Some(b) => Some(Transition(t[..i], b))
      case None => None
    else None
  }

  /**
   * `t` reads: a non-empty `a`, optional whitespace, `-->`, optional
   * whitespace, a non-empty `b`, where `a` and `b` hold no line terminator.
   */
  predicate Splits(t: string, a: string, b: string) {
    && a != [] && b != [] && NoLineTerminator(a) && NoLineTerminator(b)
    && |a| + |b| <= |t| && t[..|a|] == a && t[|t| - |b|..] == b
    && ArrowBetween(t, |a|, |t| - |b|)
  }

  /** `t[i..e]` is optional whitespace, `-->`, optional whitespace. */
  predicate ArrowBetween(t: string, i: nat, e: nat)
    requires i <= e <= |t|
  {
    exists j :: i <= j && j + 3 <= e && t[j..j + 3] == Arrow
                && WhitespaceBetween(t, i, j) && WhitespaceBetween(t, j + 3, e)
  }

  /** The lazy source group tried with `i`, `i + 1`, ... characters. */
  function MatchFrom(t: string, i: nat): (r: Option<Transition>)
    requires 1 <= i && (i - 1 <= |t|) && NoLineTerminator(t[..i - 1])
    ensures r.Some? ==> Splits(t, r.value.source, r.value.target) && i <= |r.value.source|
    decreases |t| + 1 - i
  {
    if i > |t| || IsLineTerminator(t[i - 1]) then None
    else
      assert NoLineTerminator(t[..i]) by {
        assert forall k :: 0 <= k < i - 1 ==> t[..i][k] == t[..i - 1][k];
      }
      match MatchAt(t, i)
      case Some(tr) =>
        MatchAtSplits(t, i);
        Some(tr)
      case None => MatchFrom(t, i + 1)
  }

  lemma MatchAtSplits(t: string, i: nat)
    requires 1 <= i <= |t| && NoLineTerminator(t[..i]) && MatchAt(t, i).Some?
    ensures Splits(t, MatchAt(t, i).value.source, MatchAt(t, i).value.target)
  {
    var j := SkipWhitespace(t, i);
    var b := MatchAt(t, i).value.target;
    assert WhitespaceBetween(t, j + 3, |t| - |b|);
    assert ArrowBetween(t, i, |t| - |b|);
  }

  /** `trimmedLine.match(/^(.+?)\s*-->\s*(.+?)$/)`, giving the two groups. */
  function MatchTransition(t: string): (r: Option<Transition>)
    ensures r.Some? ==> Splits(t, r.value.source, r.value.target)
  {
    MatchFrom(t, 1)
  }

  /**
   * Every string of the transition shape matches, and the match picks the
   * shortest source and, for that source, the shortest target: the split is
   * at the first `-->` after a non-empty source.
   */
  lemma MatchComplete(t: string, a: string, b: string)
    requires Splits(t, a, b)
    ensures MatchTransition(t).Some?
    ensures |MatchTransition(t).value.source| <= |a|
    ensures |MatchTransition(t).value.source| == |a| ==> |MatchTransition(t).value.target| <= |b|
  {
    MatchFromComplete(t, a, b, 1);
  }

  lemma {:induction false} MatchFromComplete(t: string, a: string, b: string, i: nat)
    requires Splits(t, a, b) && 1 <= i <= |a|
    requires NoLineTerminator(t[..i - 1])
    ensures MatchFrom(t, i).Some?
    ensures |MatchFrom(t, i).value.source| <= |a|
    ensures |MatchFrom(t, i).value.source| == |a| ==> |MatchFrom(t, i).value.target| <= |b|
    decreases |a| - i
  {
    assert t[i - 1] == a[i - 1];
    assert NoLineTerminator(t[..i]) by {
      assert forall k :: 0 <= k < i ==> t[..i][k] == a[k];
    }
    if MatchAt(t, i).None? {
      if i == |a| {
        MatchAtSplit(t, a, b);
      }
      MatchFromComplete(t, a, b, i + 1);
    }
  }

  /** At the split's own source length the pattern succeeds, with a target no longer than `b`. */
  lemma MatchAtSplit(t: string, a: string, b: string)
    requires Splits(t, a, b)
    ensures MatchAt(t, |a|).Some? && |MatchAt(t, |a|).value.target| <= |b|
  {
    var i, e := |a|, |t| - |b|;
    var j :| i <= j && j + 3 <= e && t[j..j + 3] == Arrow
             && WhitespaceBetween(t, i, j) && WhitespaceBetween(t, j + 3, e);
    assert t[j] == '-';
    SkipPast(t, i, j);
    SkipAtLeast(t, j + 3, e);
    var m := SkipWhitespace(t, j + 3);
    if m < |t| {
      assert NoLineTerminator(t[m..]) by {
        assert forall k :: 0 <= k < |t| - m ==> t[m..][k] == b[k + m - e];
      }
    } else {
      assert t[m - 1] == b[|b| - 1];
    }
  }

  /** The greedy whitespace run reaches at least as far as any whitespace run from the same start. */
  lemma {:induction false} SkipAtLeast(t: string, s: nat, e: nat)
    requires s <= e <= |t| && WhitespaceBetween(t, s, e)
    ensures SkipWhitespace(t, s) >= e
    decreases e - s
  {
    if s < e {
      SkipAtLeast(t, s + 1, e);
    }
  }
}
