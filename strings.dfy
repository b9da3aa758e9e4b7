/**
 * The two string operations the core relies on: `Array.prototype.join` and
 * `String.prototype.split` with a one-character separator, and how they undo
 * each other.
 */
module Strings {

  /** `parts.join(sep)`: the parts with `sep` between neighbours; `[].join(sep)` is "". */
  function Join(parts: seq<string>, sep: string): string
    decreases |parts|
  {
    if |parts| == 0 then ""
    else if |parts| == 1 then parts[0]
    else parts[0] + sep + Join(parts[1..], sep)
  }

  /**
   * `s.split(c)`: the maximal runs between occurrences of `c`, empty runs
   * included; always at least one part, and no part contains `c`.
   */
  function Split(s: string, c: char): (parts: seq<string>)
    ensures |parts| >= 1
    ensures forall i :: 0 <= i < |parts| ==> c !in parts[i]
    decreases |s|
  {
    if |s| == 0 then [""]
    else
      var rest := Split(s[1..], c);
      if s[0] == c then [""] + rest
      else [[s[0]] + rest[0]] + rest[1..]
  }

  /** No part contains the character `c`. */
  predicate Avoids(parts: seq<string>, c: char)
  {
    forall i :: 0 <= i < |parts| ==> c !in parts[i]
  }

  /** Number of occurrences of `c` in `s`. */
  function Count(s: string, c: char): nat
  {
    multiset(s)[c]
  }

  /** Prefixing the first part prefixes the joined text. */
  lemma JoinPrepend(x: string, parts: seq<string>, sep: string)
    requires |parts| >= 1
    ensures Join([x + parts[0]] + parts[1..], sep) == x + Join(parts, sep)
  {
    var q := [x + parts[0]] + parts[1..];
    if |parts| > 1 {
      assert q[1..] == parts[1..];
    }
  }

  /** Splitting undoes joining: `s.split(c).join(c) == s` for every `s`. */
  lemma {:induction false} JoinSplit(s: string, c: char)
    ensures Join(Split(s, c), [c]) == s
    decreases |s|
  {
    if |s| > 0 {
      var rest := Split(s[1..], c);
      JoinSplit(s[1..], c);
      if s[0] == c {
        assert ([""] + rest)[1..] == rest;
      } else {
        JoinPrepend([s[0]], rest, [c]);
      }
      assert s == [s[0]] + s[1..];
    }
  }

  /** A text free of `c` splits into itself alone. */
  lemma {:induction false} SplitFree(p: string, c: char)
    requires c !in p
    ensures Split(p, c) == [p]
    decreases |p|
  {
    if |p| > 0 {
      SplitFree(p[1..], c);
      assert [p[0]] + p[1..] == p;
    }
  }

  /** A `c`-free run followed by `c` is split off as one part. */
  lemma {:induction false} SplitAfter(p: string, c: char, t: string)
    requires c !in p
    ensures Split(p + [c] + t, c) == [p] + Split(t, c)
    decreases |p|
  {
    var s := p + [c] + t;
    if |p| == 0 {
      assert s[1..] == t;
    } else {
      assert s[1..] == p[1..] + [c] + t;
      SplitAfter(p[1..], c, t);
      assert [p[0]] + p[1..] == p;
    }
  }

  /** Joining undoes splitting: fragments free of `c`, joined by `c`, split back into themselves. */
  lemma {:induction false} SplitJoin(parts: seq<string>, c: char)
    requires |parts| >= 1
    requires Avoids(parts, c)
    ensures Split(Join(parts, [c]), c) == parts
    decreases |parts|
  {
    if |parts| == 1 {
      SplitFree(parts[0], c);
    } else {
      SplitJoin(parts[1..], c);
      SplitAfter(parts[0], c, Join(parts[1..], [c]));
      assert [parts[0]] + parts[1..] == parts;
    }
  }

  /** A text holds exactly one occurrence of `c` fewer than it has `c`-separated parts. */
  lemma {:induction false} SplitCount(s: string, c: char)
    ensures Count(s, c) == |Split(s, c)| - 1
    decreases |s|
  {
    if |s| > 0 {
      SplitCount(s[1..], c);
      assert s == [s[0]] + s[1..];
    }
  }

  /** The first part of `s.split(c)` is the prefix of `s` before its first `c`. */
  lemma SplitFirst(s: string, c: char)
    ensures Split(s, c)[0] <= s
    ensures c !in Split(s, c)[0]
    ensures |Split(s, c)[0]| == |s| || s[|Split(s, c)[0]|] == c
  {
    var parts := Split(s, c);
    JoinSplit(s, c);
    if |parts| > 1 {
      assert s == parts[0] + [c] + Join(parts[1..], [c]);
    }
  }

  /** Joining parts and a separator that all avoid `c` yields a text that avoids `c`. */
  lemma {:induction false} JoinAvoids(parts: seq<string>, sep: string, c: char)
    requires Avoids(parts, c)
    requires c !in sep
    ensures c !in Join(parts, sep)
    decreases |parts|
  {
    if |parts| > 1 {
      JoinAvoids(parts[1..], sep, c);
    }
  }

  /** Text free of `c` on either side adds no occurrence of `c`. */
  lemma CountWithin(a: string, b: string, d: string, c: char)
    requires c !in a && c !in d
    ensures Count(a + b + d, c) == Count(b, c)
  {
    assert multiset(a + b + d) == multiset(a) + multiset(b) + multiset(d);
  }
}
