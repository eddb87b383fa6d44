/**
 * The JavaScript string operations the diagram parser relies on: `trim`,
 * `split('\n')`, `startsWith`, `toLowerCase` and `replace(/\s+/g, '-')`.
 * Characters are Unicode scalar values; case mapping covers ASCII only.
 */
module Text {

  /** The characters `String.prototype.trim` removes and `\s` matches. */
  const WhitespaceChars: set<char> := {
    ' ', '\t', '\n', '\r', '\U{000B}', '\U{000C}', '\U{00A0}', '\U{1680}',
    '\U{2000}', '\U{2001}', '\U{2002}', '\U{2003}', '\U{2004}', '\U{2005}',
    '\U{2006}', '\U{2007}', '\U{2008}', '\U{2009}', '\U{200A}',
    '\U{2028}', '\U{2029}', '\U{202F}', '\U{205F}', '\U{3000}', '\U{FEFF}'
  }

  predicate IsWhitespace(c: char) {
    c in WhitespaceChars
  }

  /** The characters that `.` in a regular expression without the `s` flag does not match. */
  predicate IsLineTerminator(c: char) {
    c == '\n' || c == '\r' || c == '\U{2028}' || c == '\U{2029}'
  }

  predicate AllWhitespace(s: string) {
    forall k :: 0 <= k < |s| ==> IsWhitespace(s[k])
  }

  /** Every character of `s` from index `i` up to (not including) `j` is whitespace. */
  predicate WhitespaceBetween(s: string, i: nat, j: nat)
    requires i <= j <= |s|
  {
    forall k :: i <= k < j ==> IsWhitespace(s[k])
  }

  predicate NoWhitespace(s: string) {
    forall k :: 0 <= k < |s| ==> !IsWhitespace(s[k])
  }

  predicate NoLineTerminator(s: string) {
    forall k :: 0 <= k < |s| ==> !IsLineTerminator(s[k])
  }

  /** The end of the (greedy) whitespace run that starts at `i`. */
  function SkipWhitespace(s: string, i: nat): (r: nat)
    requires i <= |s|
    ensures i <= r <= |s| && WhitespaceBetween(s, i, r)
    ensures r < |s| ==> !IsWhitespace(s[r])
    decreases |s| - i
  {
    if i < |s| && IsWhitespace(s[i]) then SkipWhitespace(s, i + 1) else i
  }

  /** The start of the whitespace run that ends at `j`. */
  function BackWhitespace(s: string, j: nat): (r: nat)
    requires j <= |s|
    ensures r <= j && WhitespaceBetween(s, r, j)
    ensures r > 0 ==> !IsWhitespace(s[r - 1])
    decreases j
  {
    if j > 0 && IsWhitespace(s[j - 1]) then BackWhitespace(s, j - 1) else j
  }

  /** `s` with its leading whitespace removed. */
  function TrimStart(s: string): (r: string)
    ensures r == [] || !IsWhitespace(r[0])
  {
    s[SkipWhitespace(s, 0)..]
  }

  /** `String.prototype.trim`: the part of `s` between its leading and trailing whitespace. */
  function Trim(s: string): (r: string)
    ensures r == [] <==> AllWhitespace(s)
    ensures r == [] || (!IsWhitespace(r[0]) && !IsWhitespace(r[|r| - 1]))
  {
    var i := SkipWhitespace(s, 0);
    if i == |s| then
      assert WhitespaceBetween(s, 0, |s|);
      []
    else
      var j := BackWhitespace(s, |s|);
      assert i < j;
      assert !AllWhitespace(s) by { assert !IsWhitespace(s[i]); }
      s[i..j]
  }

  /** What `trim` removes is whitespace at the two ends only: the result is an infix of `s`. */
  lemma TrimInfix(s: string)
    ensures exists i :: 0 <= i <= |s| - |Trim(s)| && Trim(s) == s[i..i + |Trim(s)|]
                        && WhitespaceBetween(s, 0, i) && WhitespaceBetween(s, i + |Trim(s)|, |s|)
  {
    var i := SkipWhitespace(s, 0);
    if i == |s| {
      assert Trim(s) == s[0..0];
    } else {
      var j := BackWhitespace(s, |s|);
      assert Trim(s) == s[i..j];
    }
  }

  /** Trimming twice is trimming once. */
  lemma TrimIdempotent(s: string)
    ensures Trim(Trim(s)) == Trim(s)
  {
    var r := Trim(s);
    if r != [] {
      assert SkipWhitespace(r, 0) == 0;
      assert BackWhitespace(r, |r|) == |r|;
    }
  }

  /** `s.startsWith(prefix)`. */
  predicate StartsWith(s: string, prefix: string)
    ensures StartsWith(s, prefix) <==> |prefix| <= |s| && s == prefix + s[|prefix|..]
  {
    |prefix| <= |s| && s[..|prefix|] == prefix
  }

  predicate IsUpper(c: char) {
    'A' <= c <= 'Z'
  }

  /** `toLowerCase` on one character: ASCII capitals become small letters. */
  function LowerChar(c: char): (r: char)
    ensures !IsUpper(r)
    ensures IsUpper(c) ==> r as int == c as int + 32
    ensures !IsUpper(c) ==> r == c
  {
    if IsUpper(c) then (c as int + 32) as char else c
  }

  /** `String.prototype.toLowerCase`. */
  function ToLower(s: string): (r: string)
    ensures |r| == |s|
    ensures forall k :: 0 <= k < |r| ==> !IsUpper(r[k]) && LowerChar(s[k]) == r[k]
    ensures forall k :: 0 <= k < |r| ==> (IsWhitespace(r[k]) <==> IsWhitespace(s[k]))
  {
    if s == [] then [] else [LowerChar(s[0])] + ToLower(s[1..])
  }

  /** Lower-casing twice is lower-casing once. */
  lemma ToLowerIdempotent(s: string)
    ensures ToLower(ToLower(s)) == ToLower(s)
  {
  }

  /** `s.replace(/\s+/g, '-')`: every maximal run of whitespace becomes one hyphen. */
  function CollapseWhitespace(s: string): (r: string)
    ensures NoWhitespace(r)
    ensures |r| <= |s|
    ensures r == [] <==> s == []
    decreases |s|
  {
    if s == [] then []
    else if IsWhitespace(s[0]) then ['-'] + CollapseWhitespace(s[SkipWhitespace(s, 0)..])
    else [s[0]] + CollapseWhitespace(s[1..])
  }

  /** A string without whitespace is left as it is. */
  lemma {:induction false} CollapseNoWhitespace(s: string)
    requires NoWhitespace(s)
    ensures CollapseWhitespace(s) == s
  {
    if s != [] {
      CollapseNoWhitespace(s[1..]);
    }
  }

  /** Collapsing twice is collapsing once. */
  lemma CollapseIdempotent(s: string)
    ensures CollapseWhitespace(CollapseWhitespace(s)) == CollapseWhitespace(s)
  {
    CollapseNoWhitespace(CollapseWhitespace(s));
  }

  /**
   * Replacement works run by run: a whitespace run `w` between a part that does
   * not end in whitespace and a part that does not start with it becomes one
   * hyphen, whatever its length.
   */
  lemma {:induction false} CollapseRun(a: string, w: string, b: string)
    requires w != [] && AllWhitespace(w)
    requires a == [] || !IsWhitespace(a[|a| - 1])
    requires b == [] || !IsWhitespace(b[0])
    ensures CollapseWhitespace(a + w + b) == CollapseWhitespace(a) + "-" + CollapseWhitespace(b)
    decreases |a|
  {
    if a == [] {
      assert a + w + b == w + b;
      CollapseLeadingRun(w, b);
    } else if IsWhitespace(a[0]) {
      var i := SkipWhitespace(a, 0);
      assert i < |a| by { assert !IsWhitespace(a[|a| - 1]); }
      CollapseRun(a[i..], w, b);
      CollapseRunSkip(a, w, b, i);
    } else {
      CollapseRun(a[1..], w, b);
      CollapseRunKeep(a, w, b);
    }
  }

  /** The step of `CollapseRun` past a leading whitespace run of `a`, which ends at `i`. */
  lemma CollapseRunSkip(a: string, w: string, b: string, i: nat)
    requires 0 < i < |a| && i == SkipWhitespace(a, 0)
    requires CollapseWhitespace(a[i..] + w + b) == CollapseWhitespace(a[i..]) + "-" + CollapseWhitespace(b)
    ensures CollapseWhitespace(a + w + b) == CollapseWhitespace(a) + "-" + CollapseWhitespace(b)
  {
    var x := w + b;
    var cb := CollapseWhitespace(b);
    Assoc(a, w, b);
    DropFromConcat(a, x, i);
    Assoc(a[i..], w, b);
    CollapseSkipsRun(a, a + x, i);
    Assoc("-", CollapseWhitespace(a[i..]) + "-", cb);
    Assoc("-", CollapseWhitespace(a[i..]), "-");
  }

  /** The step of `CollapseRun` past a leading non-space of `a`. */
  lemma CollapseRunKeep(a: string, w: string, b: string)
    requires a != [] && !IsWhitespace(a[0])
    requires CollapseWhitespace(a[1..] + w + b) == CollapseWhitespace(a[1..]) + "-" + CollapseWhitespace(b)
    ensures CollapseWhitespace(a + w + b) == CollapseWhitespace(a) + "-" + CollapseWhitespace(b)
  {
    var x := w + b;
    var cb := CollapseWhitespace(b);
    Assoc(a, w, b);
    DropFromConcat(a, x, 1);
    Assoc(a[1..], w, b);
    CollapseKeeps(a, a + x);
    Assoc([a[0]], CollapseWhitespace(a[1..]) + "-", cb);
    Assoc([a[0]], CollapseWhitespace(a[1..]), "-");
  }

  lemma Assoc<T>(p: seq<T>, q: seq<T>, r: seq<T>)
    ensures p + (q + r) == p + q + r
  {
  }

  /** Dropping a prefix of `s` commutes with appending `x`. */
  lemma SliceSnoc<T>(s: seq<T>, x: T, i: nat)
    requires i <= |s|
    ensures (s + [x])[i..] == s[i..] + [x]
  {
  }

  lemma DropFromConcat(a: string, x: string, i: nat)
    requires i <= |a|
    ensures (a + x)[..|a|] == a && (a + x)[i..] == a[i..] + x
  {
  }

  /** A leading whitespace run that ends inside `a` is replaced in `a` and in any extension of it. */
  lemma CollapseSkipsRun(a: string, s: string, i: nat)
    requires i < |a| <= |s| && s[..|a|] == a
    requires i == SkipWhitespace(a, 0) && 0 < i
    ensures CollapseWhitespace(a) == "-" + CollapseWhitespace(a[i..])
    ensures CollapseWhitespace(s) == "-" + CollapseWhitespace(s[i..])
  {
    SkipPast(s, 0, i);
  }

  /** A leading non-space is copied, in `a` and in any extension of it. */
  lemma CollapseKeeps(a: string, s: string)
    requires 0 < |a| <= |s| && s[..|a|] == a && !IsWhitespace(a[0])
    ensures CollapseWhitespace(a) == [a[0]] + CollapseWhitespace(a[1..])
    ensures CollapseWhitespace(s) == [a[0]] + CollapseWhitespace(s[1..])
  {
    assert s[0] == a[0];
  }

  /** A leading whitespace run becomes one hyphen. */
  lemma CollapseLeadingRun(w: string, b: string)
    requires w != [] && AllWhitespace(w)
    requires b == [] || !IsWhitespace(b[0])
    ensures CollapseWhitespace(w + b) == "-" + CollapseWhitespace(b)
  {
    var s := w + b;
    SkipPast(s, 0, |w|);
    assert s[|w|..] == b;
  }

  /** The whitespace run from `i` ends at `e` when `e` is the first non-space after `i`. */
  lemma {:induction false} SkipPast(s: string, i: nat, e: nat)
    requires i <= e <= |s| && WhitespaceBetween(s, i, e)
    requires e < |s| ==> !IsWhitespace(s[e])
    ensures SkipWhitespace(s, i) == e
    decreases e - i
  {
    if i < e {
      SkipPast(s, i + 1, e);
    }
  }

  /** The position of the first `c` in `s`. */
  function IndexOf(s: string, c: char): (r: nat)
    requires c in s
    ensures r < |s| && s[r] == c && c !in s[..r]
  {
    if s[0] == c then 0 else 1 + IndexOf(s[1..], c)
  }

  /** The pieces joined back with `sep` between them: `Array.prototype.join`. */
  function Join(pieces: seq<string>, sep: char): string
    requires |pieces| >= 1
  {
    if |pieces| == 1 then pieces[0] else pieces[0] + [sep] + Join(pieces[1..], sep)
  }

  /** `s.split(sep)`: the pieces between the occurrences of `sep`, at least one of them. */
  function Split(s: string, sep: char): (r: seq<string>)
    ensures |r| >= 1
    ensures forall k :: 0 <= k < |r| ==> sep !in r[k]
    ensures Join(r, sep) == s
    decreases |s|
  {
    if sep !in s then [s]
    else
      var i := IndexOf(s, sep);
      var rest := Split(s[i + 1..], sep);
      assert s == s[..i] + [sep] + s[i + 1..];
      [s[..i]] + rest
  }

  /** Splitting undoes joining pieces that do not contain the separator. */
  lemma {:induction false} SplitJoin(pieces: seq<string>, sep: char)
    requires |pieces| >= 1
    requires forall k :: 0 <= k < |pieces| ==> sep !in pieces[k]
    ensures Split(Join(pieces, sep), sep) == pieces
    decreases |pieces|
  {
    if |pieces| > 1 {
      var s := Join(pieces, sep);
      var rest := Join(pieces[1..], sep);
      assert s == pieces[0] + [sep] + rest;
      assert s[|pieces[0]|] == sep;
      assert s[..|pieces[0]|] == pieces[0];
      assert IndexOf(s, sep) == |pieces[0]|;
      assert s[|pieces[0]| + 1..] == rest;
      SplitJoin(pieces[1..], sep);
    }
  }

  /** Every piece of a split is whitespace-only when the whole string is. */
  lemma {:induction false} SplitOfWhitespace(s: string, sep: char)
    requires AllWhitespace(s)
    ensures forall k :: 0 <= k < |Split(s, sep)| ==> AllWhitespace(Split(s, sep)[k])
    decreases |s|
  {
    if sep in s {
      var i := IndexOf(s, sep);
      assert AllWhitespace(s[..i]);
      SplitOfWhitespace(s[i + 1..], sep);
    }
  }
}
