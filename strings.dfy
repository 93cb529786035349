/** The few JavaScript string and array operations the server relies on:
    `String.prototype.split` and `Array.prototype.join` with a one-character
    separator, and `Array.prototype.sort` with its default comparator. */
module Strings {

  /** `parts.join(sep)`: the parts with one separator between neighbours. */
  function Join(parts: seq<string>, sep: char): string
  {
    if |parts| == 0 then ""
    else if |parts| == 1 then parts[0]
    else parts[0] + [sep] + Join(parts[1..], sep)
  }

  /** `s.split(sep)`: the maximal runs of `s` between separators. Like the
      JavaScript method, it never returns an empty list (`"".split("_")` is
      `[""]`) and a trailing separator yields a trailing empty part. */
  function Split(s: string, sep: char): (parts: seq<string>)
    ensures |parts| >= 1
    ensures forall i :: 0 <= i < |parts| ==> sep !in parts[i]
  {
    if s == [] then [""]
    else if s[0] == sep then [""] + Split(s[1..], sep)
    else
      var rest := Split(s[1..], sep);
      [[s[0]] + rest[0]] + rest[1..]
  }

  /** Joining the pieces of a split gives back the original string. */
  lemma {:induction false} JoinSplit(s: string, sep: char)
    ensures Join(Split(s, sep), sep) == s
  {
    if s == [] {
    } else if s[0] == sep {
      JoinSplit(s[1..], sep);
      var rest := Split(s[1..], sep);
      assert Split(s, sep) == [""] + rest;
      assert ([""] + rest)[1..] == rest;
    } else {
      JoinSplit(s[1..], sep);
      var rest := Split(s[1..], sep);
      var parts := [[s[0]] + rest[0]] + rest[1..];
      assert Split(s, sep) == parts;
      if |rest| == 1 {
        assert Join(parts, sep) == [s[0]] + rest[0];
      } else {
        assert parts[1..] == rest[1..];
        assert Join(rest, sep) == rest[0] + [sep] + Join(rest[1..], sep);
        assert Join(parts, sep) == [s[0]] + rest[0] + [sep] + Join(rest[1..], sep);
      }
    }
  }

  /** A string without the separator splits into itself alone. */
  lemma {:induction false} SplitWithoutSeparator(s: string, sep: char)
    requires sep !in s
    ensures Split(s, sep) == [s]
  {
    if s != [] {
      assert sep !in s[1..] by {
        forall i | 0 <= i < |s[1..]| ensures s[1..][i] != sep {
          assert s[1..][i] == s[i + 1];
        }
      }
      SplitWithoutSeparator(s[1..], sep);
      assert [s[0]] + s[1..] == s;
    }
  }

  /** The first separator of `a + [sep] + b` cuts off `a` as the first part. */
  lemma {:induction false} SplitAtFirstSeparator(a: string, b: string, sep: char)
    requires sep !in a
    ensures Split(a + [sep] + b, sep) == [a] + Split(b, sep)
  {
    var s := a + [sep] + b;
    if a == [] {
      assert s[0] == sep && s[1..] == b;
    } else {
      assert s[0] == a[0] && a[0] != sep;
      assert sep !in a[1..] by {
        forall i | 0 <= i < |a[1..]| ensures a[1..][i] != sep {
          assert a[1..][i] == a[i + 1];
        }
      }
      assert s[1..] == a[1..] + [sep] + b;
      SplitAtFirstSeparator(a[1..], b, sep);
      assert [a[0]] + a[1..] == a;
    }
  }

  /** Splitting a join of separator-free parts recovers the parts. */
  lemma {:induction false} SplitJoin(parts: seq<string>, sep: char)
    requires |parts| >= 1
    requires forall i :: 0 <= i < |parts| ==> sep !in parts[i]
    ensures Split(Join(parts, sep), sep) == parts
  {
    if |parts| == 1 {
      SplitWithoutSeparator(parts[0], sep);
    } else {
      SplitJoin(parts[1..], sep);
      SplitAtFirstSeparator(parts[0], Join(parts[1..], sep), sep);
      assert [parts[0]] + parts[1..] == parts;
    }
  }

  /** What `Join(parts, sep)` holds before part `i`. */
  function JoinedBefore(parts: seq<string>, i: nat, sep: char): string
    requires i <= |parts|
  {
    if i == 0 then "" else Join(parts[..i], sep) + [sep]
  }

  /** What `Join(parts, sep)` holds after part `i`. */
  function JoinedAfter(parts: seq<string>, i: nat, sep: char): string
    requires i < |parts|
  {
    if i == |parts| - 1 then "" else [sep] + Join(parts[i + 1..], sep)
  }

  /** The text before part `i > 0` is the first part, a separator, and the
      text before part `i - 1` of the rest. */
  lemma JoinedBeforeStep(parts: seq<string>, i: nat, sep: char)
    requires 0 < i <= |parts|
    ensures JoinedBefore(parts, i, sep) == parts[0] + [sep] + JoinedBefore(parts[1..], i - 1, sep)
  {
    var tail := parts[1..];
    if i == 1 {
      assert parts[..1] == [parts[0]];
    } else {
      assert parts[..i][1..] == tail[..i - 1];
      assert Join(parts[..i], sep) == parts[0] + [sep] + Join(tail[..i - 1], sep);
    }
  }

  /** The text after part `i > 0` is the text after part `i - 1` of the
      rest. */
  lemma JoinedAfterStep(parts: seq<string>, i: nat, sep: char)
    requires 0 < i < |parts|
    ensures JoinedAfter(parts, i, sep) == JoinedAfter(parts[1..], i - 1, sep)
  {
    assert parts[1..][i..] == parts[i + 1..];
  }

  /** A join is the parts before `i`, part `i`, and the parts after it. */
  lemma {:induction false} JoinAround(parts: seq<string>, i: nat, sep: char)
    requires i < |parts|
    ensures Join(parts, sep) == JoinedBefore(parts, i, sep) + parts[i] + JoinedAfter(parts, i, sep)
  {
    if i > 0 {
      var tail := parts[1..];
      var before, after := JoinedBefore(tail, i - 1, sep), JoinedAfter(tail, i - 1, sep);
      JoinAround(tail, i - 1, sep);
      JoinedBeforeStep(parts, i, sep);
      JoinedAfterStep(parts, i, sep);
      assert tail[i - 1] == parts[i];
      var first := parts[0] + [sep];
      assert Join(parts, sep) == first + Join(tail, sep);
      assert first + (before + parts[i] + after) == (first + before) + parts[i] + after;
    }
  }

  /** Equal text around two pieces forces the pieces to be equal. */
  lemma CancelAround(before: string, x: string, y: string, after: string)
    requires before + x + after == before + y + after
    ensures x == y
  {
    var s, t := before + x + after, before + y + after;
    assert |x| == |y|;
    assert s[|before|..|before| + |x|] == x;
    assert t[|before|..|before| + |y|] == y;
  }

  /** Two joins that agree on every part except `i`, where they differ,
      are different strings. */
  lemma JoinDiffersAt(p: seq<string>, q: seq<string>, i: nat, sep: char)
    requires |p| == |q| && i < |p|
    requires forall j :: 0 <= j < |p| && j != i ==> p[j] == q[j]
    requires p[i] != q[i]
    ensures Join(p, sep) != Join(q, sep)
  {
    assert p[..i] == q[..i];
    assert p[i + 1..] == q[i + 1..];
    JoinAround(p, i, sep);
    JoinAround(q, i, sep);
    assert JoinedBefore(p, i, sep) == JoinedBefore(q, i, sep);
    assert JoinedAfter(p, i, sep) == JoinedAfter(q, i, sep);
    if Join(p, sep) == Join(q, sep) {
      CancelAround(JoinedBefore(p, i, sep), p[i], q[i], JoinedAfter(p, i, sep));
    }
  }

  // The default comparator of Array.prototype.sort orders strings
  // lexicographically by their characters, a proper prefix first.

  /** `a` sorts strictly before `b`. */
  predicate Below(a: string, b: string)
  {
    if a == [] then b != []
    else if b == [] then false
    else if a[0] != b[0] then a[0] < b[0]
    else Below(a[1..], b[1..])
  }

  /** `a` sorts before `b` or is `b`. */
  predicate AtMost(a: string, b: string)
  {
    a == b || Below(a, b)
  }

  lemma {:induction false} BelowIrreflexive(a: string)
    ensures !Below(a, a)
  {
    if a != [] {
      BelowIrreflexive(a[1..]);
    }
  }

  lemma {:induction false} BelowAsymmetric(a: string, b: string)
    ensures Below(a, b) ==> !Below(b, a)
  {
    if a != [] && b != [] && a[0] == b[0] {
      BelowAsymmetric(a[1..], b[1..]);
    }
  }

  lemma {:induction false} BelowTotal(a: string, b: string)
    ensures a == b || Below(a, b) || Below(b, a)
  {
    if a != [] && b != [] && a[0] == b[0] {
      BelowTotal(a[1..], b[1..]);
      if a[1..] == b[1..] {
        assert a == [a[0]] + a[1..] && b == [b[0]] + b[1..];
      }
    }
  }

  lemma {:induction false} BelowTransitive(a: string, b: string, c: string)
    requires Below(a, b) && Below(b, c)
    ensures Below(a, c)
  {
    if a != [] && a[0] == b[0] && b[0] == c[0] {
      BelowTransitive(a[1..], b[1..], c[1..]);
    }
  }

  /** `AtMost` is a total order: total, antisymmetric and transitive. */
  lemma AtMostTotalOrder(a: string, b: string, c: string)
    ensures AtMost(a, b) || AtMost(b, a)
    ensures AtMost(a, b) && AtMost(b, a) ==> a == b
    ensures AtMost(a, b) && AtMost(b, c) ==> AtMost(a, c)
    ensures !Below(a, b) <==> AtMost(b, a)
  {
    BelowTotal(a, b);
    BelowAsymmetric(a, b);
    BelowIrreflexive(a);
    if Below(a, b) && Below(b, c) {
      BelowTransitive(a, b, c);
    }
  }

  /** Ascending order, each element at most every later one. */
  predicate Ascending(s: seq<string>)
  {
    forall i, j :: 0 <= i < j < |s| ==> AtMost(s[i], s[j])
  }

  /** Places `x` before the first element of `s` that does not sort below it. */
  function Insert(x: string, s: seq<string>): seq<string>
  {
    if s == [] then [x]
    else if Below(s[0], x) then [s[0]] + Insert(x, s[1..])
    else [x] + s
  }

  /** `keys.sort()`: the strings in ascending order. */
  function Sort(s: seq<string>): seq<string>
  {
    if s == [] then [] else Insert(s[0], Sort(s[1..]))
  }

  /** A string at most every element of an ascending sequence can go in
      front of it. */
  lemma ConsAscending(a: string, t: seq<string>)
    requires Ascending(t)
    requires forall y :: y in multiset(t) ==> AtMost(a, y)
    ensures Ascending([a] + t)
  {
    var r := [a] + t;
    forall i, j | 0 <= i < j < |r| ensures AtMost(r[i], r[j]) {
      assert r[j] == t[j - 1] && t[j - 1] in multiset(t);
      if i > 0 {
        assert r[i] == t[i - 1];
      }
    }
  }

  /** Insertion adds `x` and keeps every other element. */
  lemma {:induction false} InsertPermutes(x: string, s: seq<string>)
    ensures multiset(Insert(x, s)) == multiset(s) + multiset{x}
  {
    if s != [] && Below(s[0], x) {
      InsertPermutes(x, s[1..]);
      assert s == [s[0]] + s[1..];
    }
  }

  /** Insertion into an ascending sequence keeps it ascending. */
  lemma {:induction false} InsertAscending(x: string, s: seq<string>)
    requires Ascending(s)
    ensures Ascending(Insert(x, s))
  {
    if s == [] {
    } else if Below(s[0], x) {
      var t := Insert(x, s[1..]);
      AscendingTail(s);
      InsertAscending(x, s[1..]);
      InsertPermutes(x, s[1..]);
      forall y | y in multiset(t) ensures AtMost(s[0], y) {
        if y != x {
          assert y in multiset(s[1..]);
          assert s == [s[0]] + s[1..];
          HeadIsLeast(s, y);
        }
      }
      ConsAscending(s[0], t);
    } else {
      forall y | y in multiset(s) ensures AtMost(x, y) {
        HeadIsLeast(s, y);
        AtMostTotalOrder(x, s[0], y);
      }
      ConsAscending(x, s);
    }
  }

  lemma InsertSpec(x: string, s: seq<string>)
    requires Ascending(s)
    ensures multiset(Insert(x, s)) == multiset(s) + multiset{x}
    ensures Ascending(Insert(x, s))
  {
    InsertPermutes(x, s);
    InsertAscending(x, s);
  }

  /** The sort returns a permutation of its input in ascending order. */
  lemma {:induction false} SortSpec(s: seq<string>)
    ensures multiset(Sort(s)) == multiset(s)
    ensures Ascending(Sort(s))
  {
    if s != [] {
      SortSpec(s[1..]);
      InsertSpec(s[0], Sort(s[1..]));
      assert s == [s[0]] + s[1..];
    }
  }

  /** The head of an ascending sequence is at most each of its elements. */
  lemma HeadIsLeast(p: seq<string>, x: string)
    requires Ascending(p) && x in multiset(p)
    ensures AtMost(p[0], x)
  {
    var i :| 0 <= i < |p| && p[i] == x;
    if i > 0 {
      assert AtMost(p[0], p[i]);
    }
  }

  lemma AscendingTail(p: seq<string>)
    requires Ascending(p) && p != []
    ensures Ascending(p[1..])
  {
    forall i, j | 0 <= i < j < |p[1..]| ensures AtMost(p[1..][i], p[1..][j]) {
      assert p[1..][i] == p[i + 1] && p[1..][j] == p[j + 1];
    }
  }

  lemma SameTails(p: seq<string>, q: seq<string>)
    requires p != [] && q != [] && p[0] == q[0]
    requires multiset(p) == multiset(q)
    ensures multiset(p[1..]) == multiset(q[1..])
  {
    assert p == [p[0]] + p[1..] && q == [q[0]] + q[1..];
    assert multiset(p) == multiset([p[0]]) + multiset(p[1..]);
    assert multiset(q) == multiset([q[0]]) + multiset(q[1..]);
    forall x ensures multiset(p[1..])[x] == multiset(q[1..])[x] {
      assert multiset(p)[x] == multiset([p[0]])[x] + multiset(p[1..])[x];
      assert multiset(q)[x] == multiset([q[0]])[x] + multiset(q[1..])[x];
    }
  }

  /** There is only one ascending arrangement of a multiset of strings. */
  lemma {:induction false} AscendingUnique(p: seq<string>, q: seq<string>)
    requires Ascending(p) && Ascending(q)
    requires multiset(p) == multiset(q)
    ensures p == q
  {
    if p != [] {
      assert |q| == |p| by {
        assert |multiset(q)| == |multiset(p)|;
      }
      assert p[0] in multiset(p);
      HeadIsLeast(p, q[0]);
      HeadIsLeast(q, p[0]);
      AtMostTotalOrder(p[0], q[0], p[0]);
      SameTails(p, q);
      AscendingTail(p);
      AscendingTail(q);
      AscendingUnique(p[1..], q[1..]);
      assert p == [p[0]] + p[1..] && q == [q[0]] + q[1..];
    }
  }

  /** The sorted order depends only on which strings were supplied, not on
      the order they were supplied in. */
  lemma SortIgnoresInputOrder(s: seq<string>, t: seq<string>)
    requires multiset(s) == multiset(t)
    ensures Sort(s) == Sort(t)
  {
    SortSpec(s);
    SortSpec(t);
    AscendingUnique(Sort(s), Sort(t));
  }
}
