/**
 * `PathNormalizer.normalize`: trims surrounding whitespace, removes one
 * leading `a/` or `b/` (diff prefixes), cuts everything from the first `#`,
 * then removes a trailing `:line` or `:line:column`.
 *
 * The regular expression `:[0-9]+(:[0-9]+)?$` is specified directly: the
 * search finds the leftmost position from which the rest of the string
 * matches, and `$` (ICU, no multiline option) matches at the end of the
 * input or just before one line terminator that ends it; ICU's line
 * terminators are the same characters as `Text.IsNewline`.
 */
module PathNormalizer {
  import opened Wrappers
  import Text

  predicate IsDigit(c: char) {
    '0' <= c <= '9'
  }

  /** The number of leading ASCII digits of `s`. */
  function DigitRun(s: string): (n: nat)
    ensures n <= |s|
    ensures forall i | 0 <= i < n :: IsDigit(s[i])
    ensures n < |s| ==> !IsDigit(s[n])
  {
    if s != [] && IsDigit(s[0]) then 1 + DigitRun(s[1..]) else 0
  }

  predicate AllDigits(s: string) {
    s != [] && DigitRun(s) == |s|
  }

  /** `n` is exactly `[0-9]+(:[0-9]+)?`. */
  predicate NumbersTail(n: string) {
    var d := DigitRun(n);
    && d > 0
    && (d == |n| || (n[d] == ':' && AllDigits(n[d + 1..])))
  }

  /** `u` is exactly `:[0-9]+(:[0-9]+)?`. */
  predicate LineColumn(u: string) {
    |u| >= 2 && u[0] == ':' && NumbersTail(u[1..])
  }

  /** The pattern matches starting at the beginning of `t` and reaching `$`. */
  predicate MatchesToEnd(t: string) {
    || LineColumn(t)
    || (|t| >= 1 && Text.IsNewline(t[|t| - 1]) && LineColumn(t[..|t| - 1]))
    || (|t| >= 2 && t[|t| - 2..] == "\r\n" && LineColumn(t[..|t| - 2]))
  }

  /** A match of the pattern starts at position `k` of `s`. */
  predicate MatchesAt(s: string, k: nat)
    requires k <= |s|
  {
    MatchesToEnd(s[k..])
  }

  /** The leftmost match position at or after `k`. */
  function MatchFrom(s: string, k: nat): (r: Option<nat>)
    requires k <= |s|
    ensures r.Some? ==> k <= r.value <= |s| && MatchesAt(s, r.value)
    ensures r.Some? ==> forall j | k <= j < r.value :: !MatchesAt(s, j)
    ensures r.None? ==> forall j | k <= j <= |s| :: !MatchesAt(s, j)
    decreases |s| - k
  {
    if MatchesAt(s, k) then Some(k)
    else if k == |s| then None
    else MatchFrom(s, k + 1)
  }

  /** Step 2: one leading `a/` or `b/` removed. */
  function StripDiffPrefix(s: string): (r: string)
    ensures ("a/" <= s || "b/" <= s) ==> r == s[2..]
    ensures !("a/" <= s || "b/" <= s) ==> r == s
  {
    if "a/" <= s || "b/" <= s then s[2..] else s
  }

  /** Step 4: everything from the leftmost match of the line-suffix pattern removed. */
  function CutLineSuffix(s: string): (r: string)
    ensures r <= s
    ensures r != s ==> MatchesAt(s, |r|)
    ensures forall j | 0 <= j < |r| :: !MatchesAt(s, j)
    ensures r == s <==> forall j | 0 <= j < |s| :: !MatchesAt(s, j)
  {
    match MatchFrom(s, 0)
    case None => s
    case Some(k) =>
      assert !MatchesAt(s, |s|) by { assert s[|s|..] == []; }
      s[..k]
  }

  /** `PathNormalizer.normalize`. */
  function Normalize(path: string): (r: string)
    ensures '#' !in r
    ensures |r| <= |path|
  {
    var trimmed := Text.Trim(path, Text.IsWhitespaceOrNewline);
    var cut := Text.Before(StripDiffPrefix(trimmed), '#');
    var r := CutLineSuffix(cut);
    Text.PrefixIsInfix(r, cut);
    Text.InfixExcludes(r, cut, '#');
    r
  }

  // ---------------------------------------------------------------------------
  // Properties

  /** The result is a contiguous block of the trimmed input and never longer than it. */
  lemma InfixOfTrimmed(path: string)
    ensures Text.IsInfix(Normalize(path), Text.Trim(path, Text.IsWhitespaceOrNewline))
    ensures |Normalize(path)| <= |Text.Trim(path, Text.IsWhitespaceOrNewline)|
  {
    var t := Text.Trim(path, Text.IsWhitespaceOrNewline);
    var u := StripDiffPrefix(t);
    var v := Text.Before(u, '#');
    var r := CutLineSuffix(v);
    assert Normalize(path) == r;
    Text.PrefixIsInfix(r, v);
    Text.PrefixIsInfix(v, u);
    Text.InfixTransitive(r, v, u);
    Text.SuffixIsInfix(u, t);
    Text.InfixTransitive(r, u, t);
  }

  /** A path with nothing to strip is returned unchanged. */
  lemma CleanPathUnchanged(path: string)
    requires path == [] || (!Text.IsWhitespaceOrNewline(path[0]) && !Text.IsWhitespaceOrNewline(path[|path| - 1]))
    requires !("a/" <= path) && !("b/" <= path)
    requires '#' !in path
    requires forall j | 0 <= j < |path| :: !MatchesAt(path, j)
    ensures Normalize(path) == path
  {
    assert Text.Trim(path, Text.IsWhitespaceOrNewline) == path;
    assert StripDiffPrefix(path) == path;
    assert Text.Before(path, '#') == path;
    assert CutLineSuffix(path) == path;
  }

  /** Every step can only shorten: the result is a prefix of the text left after the prefix and anchor cuts. */
  lemma StepsInOrder(path: string)
    ensures var t := Text.Trim(path, Text.IsWhitespaceOrNewline);
      var v := Text.Before(StripDiffPrefix(t), '#');
      Normalize(path) <= v &&
      (Normalize(path) != v ==> MatchesAt(v, |Normalize(path)|))
  {
  }

  /** No match starts at a character other than `:`. */
  lemma NoMatchWithoutColon(s: string, j: nat)
    requires j < |s| && s[j] != ':'
    ensures !MatchesAt(s, j)
  {
    var t := s[j..];
    assert t[0] == s[j] != ':';
    assert !LineColumn(t);
    assert !LineColumn(t[..|t| - 1]) by {
      assert |t[..|t| - 1]| < 2 || t[..|t| - 1][0] == t[0];
    }
    assert |t| >= 2 ==> !LineColumn(t[..|t| - 2]) by {
      assert |t| < 4 || t[..|t| - 2][0] == t[0];
    }
  }

  /** Strings without `:` carry no line suffix. */
  lemma NoLineSuffix(s: string)
    requires ':' !in s
    ensures CutLineSuffix(s) == s
  {
    forall j | 0 <= j < |s| ensures !MatchesAt(s, j) {
      NoMatchWithoutColon(s, j);
    }
  }

  /** A suffix matching the pattern, after a base without `:`, is cut exactly at the base. */
  lemma LineSuffixAt(base: string, suffix: string)
    requires ':' !in base && LineColumn(suffix)
    ensures CutLineSuffix(base + suffix) == base
  {
    var s := base + suffix;
    assert s[|base|..] == suffix;
    assert MatchesAt(s, |base|);
    forall j | 0 <= j < |base| ensures !MatchesAt(s, j) {
      assert s[j] == base[j];
      NoMatchWithoutColon(s, j);
    }
    var r := CutLineSuffix(s);
    assert |r| == |base|;
    assert r == s[..|base|] == base;
  }

  /** The stages of `normalize` on a path that needs no trimming and has no `#`. */
  lemma NormalizeClean(p: string)
    requires p != [] && !Text.IsWhitespaceOrNewline(p[0]) && !Text.IsWhitespaceOrNewline(p[|p| - 1])
    requires '#' !in p
    ensures Normalize(p) == CutLineSuffix(StripDiffPrefix(p))
  {
    assert Text.Trim(p, Text.IsWhitespaceOrNewline) == p;
    var u := StripDiffPrefix(p);
    assert '#' !in u;
    assert Text.Before(u, '#') == u;
  }

  /** A diff prefix in front of a clean path without `#` or `:` is removed and nothing else is. */
  lemma DiffPrefixRemoved(rest: string)
    requires rest != [] && !Text.IsWhitespaceOrNewline(rest[|rest| - 1])
    requires '#' !in rest && ':' !in rest
    ensures Normalize("a/" + rest) == rest
  {
    var p := "a/" + rest;
    assert p[0] == 'a' && p[|p| - 1] == rest[|rest| - 1];
    assert '#' !in p by { assert forall i | 2 <= i < |p| :: p[i] == rest[i - 2]; }
    NormalizeClean(p);
    assert "a/" <= p && p[2..] == rest;
    NoLineSuffix(rest);
  }

  /** Exactly one diff prefix is removed: `a/b/x` becomes `b/x`. */
  lemma OneDiffPrefix()
    ensures Normalize("a/b/x") == "b/x"
  {
    assert "a/b/x" == "a/" + "b/x";
    DiffPrefixRemoved("b/x");
  }

  /** `normalize` is not idempotent: `a/a/x` becomes `a/x`, which becomes `x`. */
  lemma NotIdempotent()
    ensures Normalize("a/a/x") == "a/x"
    ensures Normalize("a/x") == "x"
  {
    NormalizeClean("a/a/x");
    assert StripDiffPrefix("a/a/x") == "a/x";
    NoLineSuffix("a/x");
    NormalizeClean("a/x");
    assert StripDiffPrefix("a/x") == "x";
    NoLineSuffix("x");
  }

  /** A run of digits stops at the first non-digit. */
  lemma {:induction false} DigitRunConcat(a: string, b: string)
    requires forall i | 0 <= i < |a| :: IsDigit(a[i])
    requires b == [] || !IsDigit(b[0])
    ensures DigitRun(a + b) == |a|
  {
    if a == [] {
      assert a + b == b;
    } else {
      assert (a + b)[1..] == a[1..] + b;
      DigitRunConcat(a[1..], b);
    }
  }

  /** `:line` and `:line:column` match the pattern for any non-empty digit strings. */
  lemma LineColumnForms(line: string, column: string)
    requires AllDigits(line) && AllDigits(column)
    ensures LineColumn(":" + line)
    ensures LineColumn(":" + line + ":" + column)
  {
    assert (":" + line)[1..] == line;
    var u := ":" + line + ":" + column;
    assert u[1..] == line + (":" + column);
    DigitRunConcat(line, ":" + column);
    assert u[1..][|line| + 1..] == column;
  }

  /** Appending text that starts with `:` cannot create a diff prefix. */
  lemma NoDiffPrefixAfter(base: string, rest: string)
    requires base != [] && !("a/" <= base) && !("b/" <= base)
    requires rest != [] && rest[0] == ':'
    ensures StripDiffPrefix(base + rest) == base + rest
  {
    var p := base + rest;
    if |base| >= 2 {
      assert p[..2] == base[..2];
    } else {
      assert p[1] == ':';
    }
  }

  /** A clean base without `:` loses a suffix that matches the pattern. */
  lemma LineSuffixNormalized(base: string, suffix: string)
    requires base != [] && !Text.IsWhitespaceOrNewline(base[0])
    requires !("a/" <= base) && !("b/" <= base)
    requires ':' !in base && '#' !in base
    requires LineColumn(suffix) && '#' !in suffix
    ensures Normalize(base + suffix) == base
  {
    var p := base + suffix;
    assert p[0] == base[0] && p[|p| - 1] == suffix[|suffix| - 1];
    assert !Text.IsWhitespaceOrNewline(p[|p| - 1]) by {
      var n := suffix[1..];
      var d := DigitRun(n);
      if d == |n| {
        assert suffix[|suffix| - 1] == n[d - 1];
      } else {
        assert suffix[|suffix| - 1] == n[d + 1..][|n| - d - 2];
      }
    }
    NormalizeClean(p);
    NoDiffPrefixAfter(base, suffix);
    LineSuffixAt(base, suffix);
  }

  /** Whatever colons the base holds, a matching suffix after a clean base is always cut: the result is a prefix of the base. */
  lemma LineSuffixCutWithinBase(base: string, suffix: string)
    requires base != [] && !Text.IsWhitespaceOrNewline(base[0])
    requires !("a/" <= base) && !("b/" <= base)
    requires '#' !in base
    requires LineColumn(suffix) && '#' !in suffix
    ensures Normalize(base + suffix) <= base
  {
    var p := base + suffix;
    assert p[0] == base[0] && p[|p| - 1] == suffix[|suffix| - 1];
    assert !Text.IsWhitespaceOrNewline(p[|p| - 1]) by {
      var n := suffix[1..];
      var d := DigitRun(n);
      if d == |n| {
        assert suffix[|suffix| - 1] == n[d - 1];
      } else {
        assert suffix[|suffix| - 1] == n[d + 1..][|n| - d - 2];
      }
    }
    NormalizeClean(p);
    NoDiffPrefixAfter(base, suffix);
    assert p[|base|..] == suffix;
    CutBeforeMatch(p, |base|);
    assert p[..|base|] == base;
  }

  /** The line cut happens at or before any position where the pattern matches. */
  lemma CutBeforeMatch(s: string, k: nat)
    requires k <= |s| && MatchesAt(s, k)
    ensures CutLineSuffix(s) <= s[..k]
  {
    var r := CutLineSuffix(s);
    assert |r| <= k;
    assert r == s[..|r|] == s[..k][..|r|];
  }

  /** `path:line` normalizes to a prefix of `path` for every clean `path`, colons in it included. */
  lemma TrailingLineCut(base: string, line: string)
    requires base != [] && !Text.IsWhitespaceOrNewline(base[0])
    requires !("a/" <= base) && !("b/" <= base)
    requires '#' !in base
    requires AllDigits(line)
    ensures Normalize(base + ":" + line) <= base
  {
    LineColumnForms(line, line);
    var s1 := ":" + line;
    assert '#' !in s1 by { assert forall i | 0 < i < |s1| :: IsDigit(s1[i]); }
    assert base + ":" + line == base + s1;
    LineSuffixCutWithinBase(base, s1);
  }

  /** A path that needs no trimming and has neither diff prefix nor `#` and no `:` loses a `:line` or `:line:column` suffix. */
  lemma LineAndColumn(base: string, line: string, column: string)
    requires base != [] && !Text.IsWhitespaceOrNewline(base[0])
    requires !("a/" <= base) && !("b/" <= base)
    requires ':' !in base && '#' !in base
    requires AllDigits(line) && AllDigits(column)
    ensures Normalize(base + ":" + line) == base
    ensures Normalize(base + ":" + line + ":" + column) == base
  {
    LineColumnForms(line, column);
    var s1 := ":" + line;
    var s2 := ":" + line + ":" + column;
    assert '#' !in s1 by { assert forall i | 0 < i < |s1| :: IsDigit(s1[i]); }
    assert '#' !in s2 by {
      assert forall i | 0 <= i < |line| :: s2[i + 1] == line[i];
      assert forall i | 0 <= i < |column| :: s2[i + 2 + |line|] == column[i];
    }
    assert base + ":" + line == base + s1;
    assert base + ":" + line + ":" + column == base + s2;
    LineSuffixNormalized(base, s1);
    LineSuffixNormalized(base, s2);
  }

  /** `normalize` on a path that needs no trimming and has no diff prefix is the `#` cut followed by the line cut. */
  lemma NormalizeUntrimmed(p: string)
    requires p != [] && !Text.IsWhitespaceOrNewline(p[0]) && !Text.IsWhitespaceOrNewline(p[|p| - 1])
    requires !("a/" <= p) && !("b/" <= p)
    ensures Normalize(p) == CutLineSuffix(Text.Before(p, '#'))
  {
    assert Text.Trim(p, Text.IsWhitespaceOrNewline) == p;
    assert StripDiffPrefix(p) == p;
  }

  /** The `#` cut keeps exactly the text before the first `#`. */
  lemma BeforeAnchor(head: string, anchor: string)
    requires '#' !in head
    ensures Text.Before(head + "#" + anchor, '#') == head
  {
    var p := head + "#" + anchor;
    var b := Text.Before(p, '#');
    assert p[|head|] == '#' && p[..|head|] == head;
  }

  /** With a clean base, `path:line#anchor` goes through the `#` cut and the line cut only. */
  lemma AnchoredPathStages(base: string, line: string, anchor: string)
    requires base != [] && !Text.IsWhitespaceOrNewline(base[0])
    requires anchor == [] || !Text.IsWhitespaceOrNewline(anchor[|anchor| - 1])
    requires !("a/" <= base) && !("b/" <= base)
    ensures var p := base + ":" + line + "#" + anchor;
      Normalize(p) == CutLineSuffix(Text.Before(p, '#'))
  {
    var suffix := ":" + line;
    var p := base + suffix + "#" + anchor;
    assert base + ":" + line + "#" + anchor == p;
    assert p == base + (suffix + "#" + anchor);
    assert p[0] == base[0];
    assert p[|p| - 1] == if anchor == [] then '#' else anchor[|anchor| - 1];
    NoDiffPrefixAfter(base, suffix + "#" + anchor);
    NormalizeUntrimmed(p);
  }

  /** The `#` cut of `path:line#anchor` keeps `path:line`. */
  lemma AnchorCut(base: string, line: string, anchor: string)
    requires '#' !in base && AllDigits(line)
    ensures Text.Before(base + ":" + line + "#" + anchor, '#') == base + ":" + line
  {
    var head := base + (":" + line);
    assert base + ":" + line == head;
    assert '#' !in head by {
      assert forall i | 0 <= i < |line| :: head[|base| + 1 + i] == line[i];
    }
    BeforeAnchor(head, anchor);
  }

  /** A clean base without `:` followed by `:line` is cut back to the base. */
  lemma LineCut(base: string, line: string)
    requires ':' !in base && AllDigits(line)
    ensures CutLineSuffix(base + ":" + line) == base
  {
    LineColumnForms(line, line);
    assert base + ":" + line == base + (":" + line);
    LineSuffixAt(base, ":" + line);
  }

  /** The `#` cut comes first, so `path:line#anchor` loses both the anchor and the line number. */
  lemma AnchorThenLine(base: string, line: string, anchor: string)
    requires base != [] && !Text.IsWhitespaceOrNewline(base[0])
    requires anchor == [] || !Text.IsWhitespaceOrNewline(anchor[|anchor| - 1])
    requires !("a/" <= base) && !("b/" <= base)
    requires ':' !in base && '#' !in base
    requires AllDigits(line)
    ensures Normalize(base + ":" + line + "#" + anchor) == base
  {
    AnchoredPathStages(base, line, anchor);
    AnchorCut(base, line, anchor);
    LineCut(base, line);
  }
}
