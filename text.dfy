/**
 * String helpers shared by the fetcher and the analyzer: case-insensitive
 * substring search (pandas `str.contains(..., case=False)`), the
 * code-point lexicographic order that pandas uses to sort group keys, and
 * the "passer->recipient" key of the passing network.
 */
module Text {

  /** Folds the ASCII capitals A-Z to lower case and leaves every other character alone. */
  function LowerChar(c: char): (r: char)
    ensures 'A' <= c <= 'Z' ==> 'a' <= r <= 'z' && r as int == c as int + 32
    ensures !('A' <= c <= 'Z') ==> r == c
  {
    if 'A' <= c <= 'Z' then (c as int + 32) as char else c
  }

  function Lower(s: string): (r: string)
    ensures |r| == |s|
    ensures forall i :: 0 <= i < |s| ==> r[i] == LowerChar(s[i])
  {
    seq(|s|, i requires 0 <= i < |s| => LowerChar(s[i]))
  }

  /** `sub` occurs in `s` starting at index `i`. */
  predicate OccursAt(s: string, sub: string, i: nat) {
    i + |sub| <= |s| && s[i..i + |sub|] == sub
  }

  /** `sub` occurs in `s` at some position. */
  predicate Contains(s: string, sub: string) {
    exists i :: 0 <= i <= |s| && OccursAt(s, sub, i)
  }

  /** Case-insensitive substring test. */
  predicate ContainsIgnoringCase(s: string, sub: string) {
    Contains(Lower(s), Lower(sub))
  }

  /** Every string contains the empty pattern, whatever its case. */
  lemma EmptyPatternMatches(s: string)
    ensures ContainsIgnoringCase(s, "")
  {
    assert OccursAt(Lower(s), Lower(""), 0);
  }

  /** A string contains itself, under any capitalisation of either side. */
  lemma {:induction false} ContainsItselfIgnoringCase(s: string)
    ensures ContainsIgnoringCase(s, s)
  {
    assert OccursAt(Lower(s), Lower(s), 0);
  }

  /** Strict lexicographic order on code points; a proper prefix comes first. */
  predicate StrLess(a: string, b: string)
    decreases |a|
  {
    if a == [] then b != []
    else if b == [] then false
    else a[0] < b[0] || (a[0] == b[0] && StrLess(a[1..], b[1..]))
  }

  lemma {:induction false} StrLessIrreflexive(a: string)
    ensures !StrLess(a, a)
    decreases |a|
  {
    if a != [] {
      StrLessIrreflexive(a[1..]);
    }
  }

  lemma {:induction false} StrLessTransitive(a: string, b: string, c: string)
    requires StrLess(a, b) && StrLess(b, c)
    ensures StrLess(a, c)
    decreases |a|
  {
    if a != [] && b != [] && c != [] && a[0] == b[0] == c[0] {
      StrLessTransitive(a[1..], b[1..], c[1..]);
    }
  }

  lemma {:induction false} StrLessTotal(a: string, b: string)
    ensures a == b || StrLess(a, b) || StrLess(b, a)
    decreases |a|
  {
    if a != [] && b != [] && a[0] == b[0] {
      StrLessTotal(a[1..], b[1..]);
      if a[1..] == b[1..] {
        assert a == [a[0]] + a[1..] && b == [b[0]] + b[1..];
      }
    }
  }

  lemma StrLessAsymmetric(a: string, b: string)
    requires StrLess(a, b)
    ensures !StrLess(b, a)
  {
    if StrLess(b, a) {
      StrLessTransitive(a, b, a);
      StrLessIrreflexive(a);
    }
  }

  /** The passing network's key for a pass from `passer` to `recipient`. */
  function PairKey(passer: string, recipient: string): (k: string)
    ensures |k| == |passer| + 2 + |recipient|
    ensures k[..|passer|] == passer && k[|passer|..|passer| + 2] == "->"
    ensures k[|passer| + 2..] == recipient
  {
    passer + "->" + recipient
  }

  /** Index of the first `ch` in `s`, or |s| when there is none. */
  function IndexOf(s: string, ch: char): (i: nat)
    ensures i <= |s|
    ensures i < |s| ==> s[i] == ch
    ensures forall j :: 0 <= j < i ==> s[j] != ch
  {
    if s == [] then 0 else if s[0] == ch then 0 else 1 + IndexOf(s[1..], ch)
  }

  lemma {:induction false} IndexOfSkips(p: string, rest: string, ch: char)
    requires ch !in p
    ensures IndexOf(p + rest, ch) == |p| + IndexOf(rest, ch)
  {
    if p != [] {
      assert (p + rest)[0] == p[0] != ch;
      assert (p + rest)[1..] == p[1..] + rest;
      assert p == [p[0]] + p[1..];
      assert IndexOf(p + rest, ch) == 1 + IndexOf(p[1..] + rest, ch);
      IndexOfSkips(p[1..], rest, ch);
    } else {
      assert p + rest == rest;
    }
  }

  /**
   * Two pairs give the same key only if they are the same pair, provided the
   * passers' names hold no '>'; otherwise "a->b" and "c" collide with "a" and "b->c".
   */
  lemma PairKeyInjective(a: string, b: string, c: string, d: string)
    requires '>' !in a && '>' !in c
    requires PairKey(a, b) == PairKey(c, d)
    ensures a == c && b == d
  {
    var k := PairKey(a, b);
    assert k == a + ("->" + b) == c + ("->" + d);
    IndexOfSkips(a, "->" + b, '>');
    IndexOfSkips(c, "->" + d, '>');
    assert a == k[..|a|] == c;
    assert b == k[|a| + 2..] == d;
  }

  /** The collision the injectivity lemma rules out: a passer named "a->b" passing to "c". */
  lemma PairKeyCollision()
    ensures PairKey("a->b", "c") == PairKey("a", "b->c")
  {
  }
}
