/**
 * Character classes and string operations that the Swift code takes from
 * Foundation and the standard library: trimming by a character set,
 * `contains`, `firstIndex(of:)` and `joined(separator:)`.  Comparison is on
 * Unicode scalar values; grapheme clustering is not modelled.
 */
module Text {
  import opened Wrappers

  /** Foundation's `CharacterSet.newlines`: LF, VT, FF, CR, NEL, LINE and PARAGRAPH SEPARATOR. */
  predicate IsNewline(c: char) {
    ('\n' <= c <= '\r') || c == '\U{85}' || c == '\U{2028}' || c == '\U{2029}'
  }

  /** Foundation's `CharacterSet.whitespaces`: tab and the space separators (category Zs). */
  predicate IsWhitespace(c: char)
    ensures IsWhitespace(c) ==> !IsNewline(c)
  {
    || c == '\t' || c == ' ' || c == '\U{A0}' || c == '\U{1680}'
    || ('\U{2000}' <= c <= '\U{200A}')
    || c == '\U{202F}' || c == '\U{205F}' || c == '\U{3000}'
  }

  /**
   * Foundation's `CharacterSet.whitespacesAndNewlines`: the Unicode White_Space
   * scalars, which are exactly the union of the two sets above.
   */
  predicate IsWhitespaceOrNewline(c: char)
    ensures IsWhitespaceOrNewline(c) <==> IsWhitespace(c) || IsNewline(c)
  {
    || ('\U{9}' <= c <= '\U{D}')
    || c == ' ' || c == '\U{85}' || c == '\U{A0}' || c == '\U{1680}'
    || ('\U{2000}' <= c <= '\U{200A}')
    || c == '\U{2028}' || c == '\U{2029}' || c == '\U{202F}' || c == '\U{205F}' || c == '\U{3000}'
  }

  /** `r` occurs in `s` as a contiguous block. */
  ghost predicate IsInfix<T>(r: seq<T>, s: seq<T>) {
    exists lo :: 0 <= lo <= |s| && r <= s[lo..]
  }

  lemma InfixTransitive<T>(r: seq<T>, s: seq<T>, t: seq<T>)
    requires IsInfix(r, s) && IsInfix(s, t)
    ensures IsInfix(r, t)
  {
    var i :| 0 <= i <= |s| && r <= s[i..];
    var j :| 0 <= j <= |t| && s <= t[j..];
    assert r <= t[i + j..] by {
      forall k | 0 <= k < |r| ensures r[k] == t[i + j..][k] {
        assert r[k] == s[i + k] == t[j + i + k];
      }
    }
  }

  lemma PrefixIsInfix<T>(r: seq<T>, s: seq<T>)
    requires r <= s
    ensures IsInfix(r, s)
  {
    assert s[0..] == s;
  }

  lemma SuffixIsInfix<T>(r: seq<T>, s: seq<T>)
    requires |r| <= |s| && r == s[|s| - |r|..]
    ensures IsInfix(r, s)
  {
  }

  /** Whatever is absent from `s` is absent from every block of it. */
  lemma InfixExcludes<T>(r: seq<T>, s: seq<T>, x: T)
    requires IsInfix(r, s) && x !in s
    ensures x !in r
  {
    var lo :| 0 <= lo <= |s| && r <= s[lo..];
    forall k | 0 <= k < |r| ensures r[k] != x {
      assert r[k] == s[lo + k];
    }
  }

  /** Every element of `s` is in the set. */
  ghost predicate AllIn<T>(s: seq<T>, drop: T -> bool) {
    forall i | 0 <= i < |s| :: drop(s[i])
  }

  /** Removes the leading elements for which `drop` holds. */
  function TrimStart<T>(s: seq<T>, drop: T -> bool): (r: seq<T>)
    ensures |r| <= |s| && r == s[|s| - |r|..]
    ensures r == [] || !drop(r[0])
    ensures AllIn(s[..|s| - |r|], drop)
  {
    if s != [] && drop(s[0]) then
      var r := TrimStart(s[1..], drop);
      assert s[1..][|s| - 1 - |r|..] == s[|s| - |r|..];
      AllInFront(s, |s| - 1 - |r|, drop);
      r
    else s
  }

  lemma AllInFront<T>(s: seq<T>, k: nat, drop: T -> bool)
    requires k < |s| && drop(s[0]) && AllIn(s[1..][..k], drop)
    ensures AllIn(s[..k + 1], drop)
  {
    forall i | 0 < i <= k ensures drop(s[i]) {
      assert s[i] == s[1..][..k][i - 1];
    }
  }

  /** Removes the trailing elements for which `drop` holds. */
  function TrimEnd<T>(s: seq<T>, drop: T -> bool): (r: seq<T>)
    ensures r <= s
    ensures r == [] || !drop(r[|r| - 1])
    ensures AllIn(s[|r|..], drop)
  {
    if s != [] && drop(s[|s| - 1]) then
      var r := TrimEnd(s[..|s| - 1], drop);
      AllInBack(s, |r|, drop);
      r
    else s
  }

  lemma AllInBack<T>(s: seq<T>, k: nat, drop: T -> bool)
    requires k < |s| && drop(s[|s| - 1]) && AllIn(s[..|s| - 1][k..], drop)
    ensures AllIn(s[k..], drop)
  {
    forall i | k <= i < |s| - 1 ensures drop(s[i]) {
      assert s[i] == s[..|s| - 1][k..][i - k];
    }
  }

  /** `r` is the block of `s` at `lo`, and everything before and after it is in the set. */
  ghost predicate TrimmedAt<T>(s: seq<T>, drop: T -> bool, r: seq<T>, lo: nat) {
    && lo + |r| <= |s| && r == s[lo..lo + |r|]
    && AllIn(s[..lo], drop)
    && AllIn(s[lo + |r|..], drop)
  }

  /**
   * `trimmingCharacters(in:)`: the longest block of `s` that neither starts
   * nor ends with an element of the set; everything cut off is in the set.
   */
  function Trim<T>(s: seq<T>, drop: T -> bool): (r: seq<T>)
    ensures exists lo :: TrimmedAt(s, drop, r, lo)
    ensures r == [] || (!drop(r[0]) && !drop(r[|r| - 1]))
    ensures IsInfix(r, s) && |r| <= |s|
    ensures r == [] <==> AllIn(s, drop)
    ensures s == [] || (!drop(s[0]) && !drop(s[|s| - 1])) ==> r == s
  {
    var t := TrimStart(s, drop);
    var r := TrimEnd(t, drop);
    TrimSpec(s, drop, t, r);
    r
  }

  lemma TrimSpec<T>(s: seq<T>, drop: T -> bool, t: seq<T>, r: seq<T>)
    requires t == TrimStart(s, drop) && r == TrimEnd(t, drop)
    ensures exists lo :: TrimmedAt(s, drop, r, lo)
    ensures r == [] || (!drop(r[0]) && !drop(r[|r| - 1]))
    ensures IsInfix(r, s) && |r| <= |s|
    ensures r == [] <==> AllIn(s, drop)
    ensures s == [] || (!drop(s[0]) && !drop(s[|s| - 1])) ==> r == s
  {
    TrimBothEnds(s, drop, t, r);
    TrimmedProperties(s, drop, r, |s| - |t|);
  }

  lemma TrimBothEnds<T>(s: seq<T>, drop: T -> bool, t: seq<T>, r: seq<T>)
    requires |t| <= |s| && t == s[|s| - |t|..] && (t == [] || !drop(t[0])) && AllIn(s[..|s| - |t|], drop)
    requires r <= t && (r == [] || !drop(r[|r| - 1])) && AllIn(t[|r|..], drop)
    ensures TrimmedAt(s, drop, r, |s| - |t|)
    ensures r == [] || (!drop(r[0]) && !drop(r[|r| - 1]))
  {
    var lo := |s| - |t|;
    assert r == s[lo..lo + |r|];
    assert s[lo + |r|..] == t[|r|..];
    if r != [] { assert r[0] == t[0]; }
  }

  /** What follows from a block whose ends are outside the set and whose surroundings are inside it. */
  lemma TrimmedProperties<T>(s: seq<T>, drop: T -> bool, r: seq<T>, lo: nat)
    requires TrimmedAt(s, drop, r, lo)
    requires r == [] || (!drop(r[0]) && !drop(r[|r| - 1]))
    ensures IsInfix(r, s) && |r| <= |s|
    ensures r == [] <==> AllIn(s, drop)
    ensures s == [] || (!drop(s[0]) && !drop(s[|s| - 1])) ==> r == s
  {
    assert r <= s[lo..];
    var hi := lo + |r|;
    forall i | 0 <= i < lo ensures drop(s[i]) {
      assert s[i] == s[..lo][i];
    }
    forall i | hi <= i < |s| ensures drop(s[i]) {
      assert s[i] == s[hi..][i - hi];
    }
    if r != [] {
      assert s[lo] == r[0];
    }
    if s != [] && !drop(s[0]) && !drop(s[|s| - 1]) {
      assert lo == 0 && hi == |s|;
      assert r == s[0..|s|] == s;
    }
  }

  /** Swift's `String.contains(_:)` for a substring. */
  function Contains<T(==)>(s: seq<T>, t: seq<T>): (b: bool)
    ensures b <==> exists i :: 0 <= i <= |s| && t <= s[i..]
  {
    if t <= s then
      assert t <= s[0..];
      true
    else if s == [] then
      false
    else
      var b := Contains(s[1..], t);
      assert b ==> exists i :: 0 <= i <= |s| && t <= s[i..] by {
        if b {
          var i :| 0 <= i <= |s[1..]| && t <= s[1..][i..];
          assert s[1..][i..] == s[i + 1..];
        }
      }
      assert (exists i :: 0 <= i <= |s| && t <= s[i..]) ==> b by {
        if exists i :: 0 <= i <= |s| && t <= s[i..] {
          var i :| 0 <= i <= |s| && t <= s[i..];
          assert i != 0;
          assert s[1..][i - 1..] == s[i..];
        }
      }
      b
  }

  /** Swift's `firstIndex(of:)`. */
  function IndexOf<T(==)>(s: seq<T>, x: T): (r: Option<nat>)
    ensures r.None? <==> x !in s
    ensures r.Some? ==> r.value < |s| && s[r.value] == x && x !in s[..r.value]
  {
    if s == [] then None
    else if s[0] == x then Some(0)
    else
      match IndexOf(s[1..], x)
      case None => None
      case Some(i) =>
        assert s[..i + 1] == [s[0]] + s[1..][..i];
        Some(i + 1)
  }

  /** The part of `s` before the first `x`, or all of `s` when `x` does not occur. */
  function Before<T(==)>(s: seq<T>, x: T): (r: seq<T>)
    ensures r <= s && x !in r
    ensures x in s ==> |r| < |s| && s[|r|] == x
    ensures x !in s ==> r == s
  {
    match IndexOf(s, x)
    case None => s
    case Some(i) => s[..i]
  }

  /** `Before` stops at the first occurrence. */
  lemma BeforeFirst<T>(s: seq<T>, x: T, i: nat)
    requires i < |s| && s[i] == x && x !in s[..i]
    ensures Before(s, x) == s[..i]
  {
    var b := Before(s, x);
    assert |b| == i by {
      assert b == s[..|b|];
    }
  }

  /** Swift's `joined(separator:)`. */
  function Join<T>(parts: seq<seq<T>>, sep: seq<T>): (r: seq<T>)
    ensures |parts| == 1 ==> r == parts[0]
    ensures parts == [] ==> r == []
  {
    if parts == [] then []
    else if |parts| == 1 then parts[0]
    else parts[0] + sep + Join(parts[1..], sep)
  }
}
