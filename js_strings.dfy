/**
 * The JavaScript string and array primitives the size report relies on:
 * `indexOf`, `lastIndexOf`, `substring` (with its clamp-and-swap rule) and
 * `trimRight`. Strings are sequences of characters; indices are character
 * positions.
 */
module JsStrings {

  /** True when `pat` occurs in `s` starting at position `i`. */
  predicate OccursAt(s: string, pat: string, i: nat) {
    i + |pat| <= |s| && s[i..i + |pat|] == pat
  }

  /** True when `pat` occurs anywhere in `s` (`s.includes(pat)`). */
  predicate Contains(s: string, pat: string) {
    exists i: nat | i <= |s| :: OccursAt(s, pat, i)
  }

  /** The first occurrence of `pat` in `s` at or after `from`, or -1. */
  function IndexOfFrom(s: string, pat: string, from: nat): (r: int)
    requires from <= |s|
    ensures r == -1 || (from <= r <= |s| && OccursAt(s, pat, r))
    ensures forall i: nat :: from <= i && (r == -1 || i < r) ==> !OccursAt(s, pat, i)
    decreases |s| - from
  {
    if OccursAt(s, pat, from) then from
    else if from == |s| then -1
    else IndexOfFrom(s, pat, from + 1)
  }

  /** `s.indexOf(pat)`: the first position where `pat` occurs in `s`, or -1 when it does not occur. */
  function IndexOf(s: string, pat: string): (r: int)
    ensures r == -1 <==> !Contains(s, pat)
    ensures r != -1 ==> 0 <= r <= |s| && OccursAt(s, pat, r)
    ensures forall i: nat :: r == -1 || i < r ==> !OccursAt(s, pat, i)
  {
    var r := IndexOfFrom(s, pat, 0);
    assert r != -1 ==> OccursAt(s, pat, r as nat);
    r
  }

  /** `s.lastIndexOf(c)` for a one-character pattern: the last position holding `c`, or -1. */
  function LastIndexOf(s: string, c: char): (r: int)
    ensures -1 <= r < |s|
    ensures r >= 0 ==> s[r] == c
    ensures forall i :: r < i < |s| ==> s[i] != c
  {
    LastIndexOfBefore(s, c, |s|)
  }

  /** The last occurrence of `c` among the first `end` characters of `s`, or -1. */
  function LastIndexOfBefore(s: string, c: char, end: nat): (r: int)
    requires end <= |s|
    ensures -1 <= r < end
    ensures r >= 0 ==> s[r] == c
    ensures forall i :: r < i < end ==> s[i] != c
  {
    if end == 0 then -1
    else if s[end - 1] == c then end - 1
    else LastIndexOfBefore(s, c, end - 1)
  }

  /** The last occurrence is the one with no further occurrence after it. */
  lemma LastIndexOfAt(s: string, c: char, k: nat)
    requires k < |s| && s[k] == c
    requires forall i :: k < i < |s| ==> s[i] != c
    ensures LastIndexOf(s, c) == k
  {
  }

  /** An index argument of `substring` clamped to `[0, len]`. */
  function Clamp(i: int, len: nat): (r: nat)
    ensures r <= len
    ensures 0 <= i <= len ==> r == i
    ensures i < 0 ==> r == 0
    ensures i > len ==> r == len
  {
    if i < 0 then 0 else if i > len then len else i
  }

  /**
   * `s.substring(start, end)`: both arguments are clamped to `[0, |s|]` and
   * swapped when the first exceeds the second.
   */
  function Substring(s: string, start: int, end: int): (r: string)
    ensures 0 <= start <= end <= |s| ==> r == s[start..end]
    ensures 0 <= end <= start <= |s| ==> r == s[end..start]
    ensures end < 0 && 0 <= start <= |s| ==> r == s[..start]
    ensures start < 0 && 0 <= end <= |s| ==> r == s[..end]
    ensures end > |s| && 0 <= start <= |s| ==> r == s[start..]
    ensures start > |s| && 0 <= end <= |s| ==> r == s[end..]
    ensures (start < 0 && end > |s|) || (end < 0 && start > |s|) ==> r == s
    ensures (start < 0 && end < 0) || (start > |s| && end > |s|) ==> r == []
  {
    var a, b := Clamp(start, |s|), Clamp(end, |s|);
    if a <= b then s[a..b] else s[b..a]
  }

  /** `substring` does not care in which order its two bounds are given. */
  lemma SubstringSymmetric(s: string, start: int, end: int)
    ensures Substring(s, start, end) == Substring(s, end, start)
  {
  }

  /** `s.substring(start)`: everything from `start` (clamped) to the end. */
  function SubstringFrom(s: string, start: int): (r: string)
    ensures 0 <= start <= |s| ==> r == s[start..]
    ensures start > |s| ==> r == []
  {
    Substring(s, start, |s|)
  }

  /**
   * The characters `trimRight` removes: ECMAScript WhiteSpace (tab, vertical
   * tab, form feed, space, no-break space, zero-width no-break space and the
   * Unicode space separators) and LineTerminator (LF, CR, LS, PS).
   */
  predicate IsJsWhitespace(c: char) {
    var n := c as int;
    n == 0x09 || n == 0x0A || n == 0x0B || n == 0x0C || n == 0x0D || n == 0x20 ||
    n == 0xA0 || n == 0x1680 || (0x2000 <= n <= 0x200A) || n == 0x2028 || n == 0x2029 ||
    n == 0x202F || n == 0x205F || n == 0x3000 || n == 0xFEFF
  }

  /** `s.trimRight()`: `s` without its trailing whitespace. */
  function TrimEnd(s: string): (r: string)
    ensures |r| <= |s| && r == s[..|r|]
    ensures r == [] || !IsJsWhitespace(r[|r| - 1])
    ensures forall i :: |r| <= i < |s| ==> IsJsWhitespace(s[i])
  {
    if s != [] && IsJsWhitespace(s[|s| - 1]) then TrimEnd(s[..|s| - 1]) else s
  }

  /** `xs.indexOf(x)` on an array: the first position holding `x`, or -1. */
  function IndexOfElem<T(==)>(xs: seq<T>, x: T): (r: int)
    ensures r == -1 <==> x !in xs
    ensures r != -1 ==> 0 <= r < |xs| && xs[r] == x
    ensures forall i :: 0 <= i < |xs| && (r == -1 || i < r) ==> xs[i] != x
  {
    if xs == [] then -1
    else if xs[0] == x then 0
    else var r := IndexOfElem(xs[1..], x); if r == -1 then -1 else r + 1
  }

  /** `xs.splice(i, 1)`: `xs` without the element at position `i`. */
  function RemoveAt<T>(xs: seq<T>, i: nat): (r: seq<T>)
    requires i < |xs|
    ensures |r| == |xs| - 1
    ensures forall k :: 0 <= k < i ==> r[k] == xs[k]
    ensures forall k :: i <= k < |r| ==> r[k] == xs[k + 1]
  {
    xs[..i] + xs[i + 1..]
  }

  /** A pattern that cannot straddle a separator character it does not contain. */
  lemma {:induction false} IndexOfAfterSeparator(a: string, c: char, b: string, pat: string)
    requires c !in pat && !Contains(a, pat)
    ensures IndexOf(a + [c] + b, pat) == if IndexOf(b, pat) == -1 then -1 else |a| + 1 + IndexOf(b, pat)
  {
    var s := a + [c] + b;
    forall i: nat | i <= |a|
      ensures !OccursAt(s, pat, i)
    {
      NoOccurrenceUpToSeparator(a, c, b, pat, i);
    }
    var k := IndexOf(b, pat);
    if k == -1 {
      forall i: nat ensures !OccursAt(s, pat, i) {
        if i > |a| {
          OccursAfterSeparator(a, c, b, pat, i - |a| - 1);
        }
      }
    } else {
      OccursAfterSeparator(a, c, b, pat, k);
      var r := IndexOf(s, pat);
      assert r > |a|;
      OccursAfterSeparator(a, c, b, pat, r - |a| - 1);
    }
  }

  /** No occurrence starts in `a` or at the separator. */
  lemma NoOccurrenceUpToSeparator(a: string, c: char, b: string, pat: string, i: nat)
    requires c !in pat && !Contains(a, pat) && i <= |a|
    ensures !OccursAt(a + [c] + b, pat, i)
  {
    var s := a + [c] + b;
    if i + |pat| <= |a| {
      assert s[i..i + |pat|] == a[i..i + |pat|];
      assert !OccursAt(a, pat, i);
    } else if i + |pat| <= |s| {
      assert s[i..i + |pat|][|a| - i] == c;
    }
  }

  /** An occurrence after the separator is an occurrence in `b`, shifted. */
  lemma OccursAfterSeparator(a: string, c: char, b: string, pat: string, i: nat)
    ensures OccursAt(a + [c] + b, pat, |a| + 1 + i) <==> OccursAt(b, pat, i)
  {
    var s := a + [c] + b;
    if |a| + 1 + i + |pat| <= |s| {
      assert s[|a| + 1 + i..|a| + 1 + i + |pat|] == b[i..i + |pat|];
    }
  }
}
