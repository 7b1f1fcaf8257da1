/** Substring search and character splitting on `string` (= `seq<char>`).

    `FindFirst` / `FindLast` model the searches behind Rust's `str::split_once`
    and `str::rsplit_once` with a string pattern; `Split`, `Join` and `Cut`
    model splitting on a single separator character. */
module Strings {
  import opened Wrappers

  /** `m` occurs in `s` starting at index `i`. */
  ghost predicate OccursAt(s: string, m: string, i: int) {
    0 <= i && i + |m| <= |s| && s[i..i + |m|] == m
  }

  ghost predicate Occurs(s: string, m: string) {
    exists i :: OccursAt(s, m, i)
  }

  /** `i` is the leftmost occurrence of `m` in `s`. */
  ghost predicate FirstAt(s: string, m: string, i: int) {
    OccursAt(s, m, i) && forall j :: j < i ==> !OccursAt(s, m, j)
  }

  /** `i` is the rightmost occurrence of `m` in `s`. */
  ghost predicate LastAt(s: string, m: string, i: int) {
    OccursAt(s, m, i) && forall j :: i < j ==> !OccursAt(s, m, j)
  }

  /** `m` occurs in `s` at exactly one index. */
  ghost predicate OccursOnce(s: string, m: string) {
    exists i :: OccursAt(s, m, i) && forall j :: OccursAt(s, m, j) ==> j == i
  }

  /** Leftmost occurrence of `m` at an index of at least `k`. */
  function FindFirstFrom(s: string, m: string, k: nat): (r: Option<nat>)
    ensures r.Some? ==> k <= r.value && OccursAt(s, m, r.value)
    ensures r.Some? ==> forall j :: k <= j < r.value ==> !OccursAt(s, m, j)
    ensures r.None? ==> forall j :: k <= j ==> !OccursAt(s, m, j)
    decreases |s| - k
  {
    if |s| < k + |m| then None
    else if s[k..k + |m|] == m then Some(k)
    else FindFirstFrom(s, m, k + 1)
  }

  /** Index of the leftmost occurrence of `m` in `s`, if there is one. */
  function FindFirst(s: string, m: string): (r: Option<nat>)
    ensures r.None? <==> !Occurs(s, m)
    ensures r.Some? ==> FirstAt(s, m, r.value)
  {
    FindFirstFrom(s, m, 0)
  }

  /** Rightmost occurrence of `m` at an index below `k`. */
  function FindLastBelow(s: string, m: string, k: nat): (r: Option<nat>)
    ensures r.Some? ==> r.value < k && OccursAt(s, m, r.value)
    ensures r.Some? ==> forall j :: r.value < j < k ==> !OccursAt(s, m, j)
    ensures r.None? ==> forall j :: j < k ==> !OccursAt(s, m, j)
    decreases k
  {
    if k == 0 then None
    else if k - 1 + |m| <= |s| && s[k - 1..k - 1 + |m|] == m then Some(k - 1)
    else FindLastBelow(s, m, k - 1)
  }

  /** Index of the rightmost occurrence of `m` in `s`, if there is one. */
  function FindLast(s: string, m: string): (r: Option<nat>)
    ensures r.None? <==> !Occurs(s, m)
    ensures r.Some? ==> LastAt(s, m, r.value)
  {
    if |s| < |m| then None else FindLastBelow(s, m, |s| - |m| + 1)
  }

  /** There is at most one leftmost and one rightmost occurrence. */
  lemma FirstAtUnique(s: string, m: string, i: int, j: int)
    requires FirstAt(s, m, i) && FirstAt(s, m, j)
    ensures i == j
  {
  }

  lemma LastAtUnique(s: string, m: string, i: int, j: int)
    requires LastAt(s, m, i) && LastAt(s, m, j)
    ensures i == j
  {
  }

  /** The text before the leftmost occurrence holds no occurrence. */
  lemma FirstAtPrefixFree(s: string, m: string, i: int)
    requires |m| > 0 && FirstAt(s, m, i)
    ensures !Occurs(s[..i], m)
  {
    var t := s[..i];
    if j :| OccursAt(t, m, j) {
      assert t[j..j + |m|] == s[j..j + |m|];
      assert OccursAt(s, m, j);
      assert false;
    }
  }

  /** The text after the start of the rightmost occurrence holds no other one. */
  lemma LastAtSuffixFree(s: string, m: string, i: int)
    requires |m| > 0 && LastAt(s, m, i)
    ensures !Occurs(s[i + 1..], m)
  {
    var t := s[i + 1..];
    if j :| OccursAt(t, m, j) {
      assert t[j..j + |m|] == s[i + 1 + j..i + 1 + j + |m|];
      assert OccursAt(s, m, i + 1 + j);
      assert false;
    }
  }

  /** The leftmost and the rightmost occurrence coincide exactly when the
      pattern occurs once. */
  lemma FirstIsLastIffOnce(s: string, m: string, i: int, j: int)
    requires FirstAt(s, m, i) && LastAt(s, m, j)
    ensures i == j <==> OccursOnce(s, m)
  {
    if OccursOnce(s, m) {
      var k :| OccursAt(s, m, k) && forall l :: OccursAt(s, m, l) ==> l == k;
      assert i == k && j == k;
    }
    if i == j {
      assert forall l :: OccursAt(s, m, l) ==> l == i;
    }
  }

  // ---------------------------------------------------------------------
  // Splitting on one separator character

  /** `parts` joined back together with `c` between neighbours. */
  function Join(parts: seq<string>, c: char): (s: string)
    requires |parts| >= 1
    decreases |parts|
  {
    if |parts| == 1 then parts[0] else parts[0] + [c] + Join(parts[1..], c)
  }

  ghost predicate NoneContains(parts: seq<string>, c: char) {
    forall k :: 0 <= k < |parts| ==> c !in parts[k]
  }

  /** The pieces of `s` between occurrences of `c`, like Rust's `str::split`. */
  function Split(s: string, c: char): (parts: seq<string>)
    ensures |parts| >= 1
    ensures NoneContains(parts, c)
    ensures Join(parts, c) == s
    decreases |s|
  {
    if |s| == 0 then [""]
    else if s[0] == c then
      var rest := Split(s[1..], c);
      assert [s[0]] + s[1..] == s;
      [""] + rest
    else
      var rest := Split(s[1..], c);
      var parts := [[s[0]] + rest[0]] + rest[1..];
      JoinHead(s[0], rest, c);
      assert [s[0]] + s[1..] == s;
      parts
  }

  /** Prepending a character to the first part prepends it to the join. */
  lemma JoinHead(x: char, parts: seq<string>, c: char)
    requires |parts| >= 1
    ensures Join([[x] + parts[0]] + parts[1..], c) == [x] + Join(parts, c)
  {
    var ps := [[x] + parts[0]] + parts[1..];
    assert ps[1..] == parts[1..];
  }

  /** Splitting a piece free of `c`, then `c`, then the rest. */
  lemma {:induction false} SplitAfter(a: string, b: string, c: char)
    requires c !in a
    ensures Split(a + [c] + b, c) == [a] + Split(b, c)
    decreases |a|
  {
    var s := a + [c] + b;
    if |a| == 0 {
      assert s[1..] == b;
    } else {
      assert s[1..] == a[1..] + [c] + b;
      SplitAfter(a[1..], b, c);
      assert [a[0]] + a[1..] == a;
    }
  }

  /** A piece free of `c` splits into itself. */
  lemma {:induction false} SplitNone(a: string, c: char)
    requires c !in a
    ensures Split(a, c) == [a]
    decreases |a|
  {
    if |a| > 0 {
      SplitNone(a[1..], c);
      assert [a[0]] + a[1..] == a;
    }
  }

  /** `Split` inverts `Join` when no part holds the separator. */
  lemma {:induction false} SplitJoin(parts: seq<string>, c: char)
    requires |parts| >= 1 && NoneContains(parts, c)
    ensures Split(Join(parts, c), c) == parts
    decreases |parts|
  {
    if |parts| == 1 {
      SplitNone(parts[0], c);
    } else {
      SplitJoin(parts[1..], c);
      SplitAfter(parts[0], Join(parts[1..], c), c);
      assert [parts[0]] + parts[1..] == parts;
    }
  }

  /** Cut at the first `c`, like Rust's `str::split_once` with a char. */
  function Cut(s: string, c: char): (r: Option<(string, string)>)
    ensures r.None? <==> c !in s
    ensures r.Some? ==> c !in r.value.0 && s == r.value.0 + [c] + r.value.1
  {
    var parts := Split(s, c);
    if |parts| == 1 then None else Some((parts[0], Join(parts[1..], c)))
  }

  /** `Cut` recovers both sides when the left side is free of `c`. */
  lemma CutAfter(a: string, b: string, c: char)
    requires c !in a
    ensures Cut(a + [c] + b, c) == Some((a, b))
  {
    SplitAfter(a, b, c);
    var parts := Split(a + [c] + b, c);
    assert parts[1..] == Split(b, c);
  }
}
