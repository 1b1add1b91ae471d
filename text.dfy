/**
 * The Python string operations the processing script relies on:
 * `str.startswith`, `str.endswith`, `str.lower`, `str.split(sep)`,
 * `str.replace(old, '')` and the code-point ordering that `sorted` uses.
 */
module Text {

  predicate StartsWith(s: string, prefix: string) {
    |prefix| <= |s| && s[..|prefix|] == prefix
  }

  predicate EndsWith(s: string, suffix: string) {
    |suffix| <= |s| && s[|s| - |suffix|..] == suffix
  }

  /** `pat` occurs somewhere in `s`. */
  predicate Occurs(s: string, pat: string) {
    exists i | 0 <= i <= |s| :: StartsWith(s[i..], pat)
  }

  // ---------------------------------------------------------------------------
  // Lower-casing

  function LowerChar(c: char): char {
    if 'A' <= c <= 'Z' then (c as int + 32) as char else c
  }

  /** `str.lower`, restricted to the ASCII letters. */
  function Lower(s: string): string {
    seq(|s|, i requires 0 <= i < |s| => LowerChar(s[i]))
  }

  /** Lower-casing neither adds nor removes a character that is not an ASCII letter. */
  lemma {:induction false} LowerCount(s: string, c: char)
    requires !('A' <= c <= 'Z') && !('a' <= c <= 'z')
    ensures Count(Lower(s), c) == Count(s, c)
  {
    if s != [] {
      LowerCount(s[1..], c);
      assert Lower(s)[1..] == Lower(s[1..]);
    }
  }

  /** Lower-casing works character by character, so it distributes over concatenation. */
  lemma LowerAppend(x: string, y: string)
    ensures Lower(x + y) == Lower(x) + Lower(y)
  {
    forall i | 0 <= i < |x + y|
      ensures Lower(x + y)[i] == (Lower(x) + Lower(y))[i]
    {
      if i < |x| {
        assert (x + y)[i] == x[i];
      } else {
        assert (x + y)[i] == y[i - |x|];
      }
    }
  }

  /** A character that is not an ASCII letter appears in `Lower(s)` only where it appears in `s`. */
  lemma LowerKeepsAbsent(s: string, c: char)
    requires !('A' <= c <= 'Z') && !('a' <= c <= 'z')
    requires c !in s
    ensures c !in Lower(s)
  {
    forall i | 0 <= i < |s|
      ensures Lower(s)[i] != c
    {
      assert s[i] != c;
    }
  }

  /** A suffix made only of characters `lower` does not change survives lower-casing. */
  lemma LowerEndsWith(s: string, suffix: string)
    requires EndsWith(s, suffix)
    requires Lower(suffix) == suffix
    ensures EndsWith(Lower(s), suffix)
  {
    var k := |s| - |suffix|;
    forall i | 0 <= i < |suffix|
      ensures Lower(s)[k + i] == suffix[i]
    {
      assert s[k + i] == suffix[i];
      assert Lower(suffix)[i] == LowerChar(suffix[i]);
    }
    assert Lower(s)[k..] == suffix;
  }

  // ---------------------------------------------------------------------------
  // Splitting on one separator character

  function Count(s: string, c: char): nat {
    if s == [] then 0 else (if s[0] == c then 1 else 0) + Count(s[1..], c)
  }

  /** A character is absent exactly when it is counted zero times. */
  lemma {:induction false} CountZero(s: string, c: char)
    ensures Count(s, c) == 0 <==> c !in s
  {
    if s != [] {
      CountZero(s[1..], c);
      assert s == [s[0]] + s[1..];
    }
  }

  /** Counting distributes over concatenation. */
  lemma {:induction false} CountAppend(a: string, b: string, c: char)
    ensures Count(a + b, c) == Count(a, c) + Count(b, c)
  {
    if a != [] {
      CountAppend(a[1..], b, c);
      assert (a + b)[1..] == a[1..] + b;
      assert (a + b)[0] == a[0];
    } else {
      assert a + b == b;
    }
  }

  /** `sep.join(parts)`, for a non-empty list of parts. */
  function JoinWith(parts: seq<string>, sep: char): string
    requires |parts| >= 1
  {
    if |parts| == 1 then parts[0] else parts[0] + [sep] + JoinWith(parts[1..], sep)
  }

  /**
   * `s.split(sep)`: the maximal runs of `s` between separators, in order.
   * There is always at least one field, and joining the fields back with
   * `sep` gives `s` again.
   */
  function Split(s: string, sep: char): (r: seq<string>)
    ensures |r| == Count(s, sep) + 1
    ensures forall i :: 0 <= i < |r| ==> sep !in r[i]
    ensures JoinWith(r, sep) == s
    decreases |s|
  {
    if s == [] then [""]
    else
      var rest := Split(s[1..], sep);
      if s[0] == sep then
        assert [sep] + s[1..] == s;
        [""] + rest
      else
        var r := [[s[0]] + rest[0]] + rest[1..];
        assert r[1..] == rest[1..];
        assert |rest| > 1 ==> JoinWith(r, sep) == [s[0]] + JoinWith(rest, sep);
        assert [s[0]] + s[1..] == s;
        r
  }

  /** Splitting never invents characters: every field is made of characters of `s`. */
  lemma {:induction false} SplitChars(s: string, sep: char, i: nat, c: char)
    requires i < |Split(s, sep)|
    requires c in Split(s, sep)[i]
    ensures c in s
    decreases |s|
  {
    if s != [] {
      var rest := Split(s[1..], sep);
      if s[0] == sep {
        if i > 0 { SplitChars(s[1..], sep, i - 1, c); }
      } else if i == 0 {
        if c != s[0] { SplitChars(s[1..], sep, 0, c); }
      } else {
        SplitChars(s[1..], sep, i, c);
      }
    }
  }

  /** A separator-free string is one field. */
  lemma {:induction false} SplitNoSep(a: string, sep: char)
    requires sep !in a
    ensures Split(a, sep) == [a]
  {
    if a != [] {
      SplitNoSep(a[1..], sep);
      assert [a[0]] + a[1..] == a;
    }
  }

  /** A separator-free head followed by a separator is split off as the first field. */
  lemma {:induction false} SplitCons(a: string, sep: char, t: string)
    requires sep !in a
    ensures Split(a + [sep] + t, sep) == [a] + Split(t, sep)
  {
    if a == [] {
      assert ([sep] + t)[1..] == t;
    } else {
      var s := a + [sep] + t;
      assert s[0] == a[0] != sep;
      assert s[1..] == a[1..] + [sep] + t;
      SplitCons(a[1..], sep, t);
      var rest := Split(s[1..], sep);
      assert rest == [a[1..]] + Split(t, sep);
      assert Split(s, sep) == [[a[0]] + rest[0]] + rest[1..];
      assert [a[0]] + a[1..] == a;
      assert rest[1..] == Split(t, sep);
    }
  }

  /** A separator-free head is glued to the first field of what follows; the later fields are unchanged. */
  lemma {:induction false} SplitHead(a: string, sep: char, t: string)
    requires sep !in a
    ensures Split(a + t, sep)[0] == a + Split(t, sep)[0]
    ensures Split(a + t, sep)[1..] == Split(t, sep)[1..]
    decreases |a|
  {
    if a == [] {
      assert a + t == t;
    } else {
      var s := a + t;
      assert s[0] == a[0] != sep;
      assert s[1..] == a[1..] + t;
      SplitHead(a[1..], sep, t);
      var rest := Split(s[1..], sep);
      assert Split(s, sep) == [[a[0]] + rest[0]] + rest[1..];
      assert [a[0]] + (a[1..] + Split(t, sep)[0]) == a + Split(t, sep)[0];
    }
  }

  /** Round trip: splitting the join of separator-free parts gives the parts back. */
  lemma {:induction false} SplitJoin(parts: seq<string>, sep: char)
    requires |parts| >= 1
    requires forall i :: 0 <= i < |parts| ==> sep !in parts[i]
    ensures Split(JoinWith(parts, sep), sep) == parts
    decreases |parts|
  {
    if |parts| == 1 {
      SplitNoSep(parts[0], sep);
    } else {
      SplitJoin(parts[1..], sep);
      SplitCons(parts[0], sep, JoinWith(parts[1..], sep));
      assert [parts[0]] + parts[1..] == parts;
    }
  }

  // ---------------------------------------------------------------------------
  // Removing every occurrence of a pattern

  /**
   * `s.replace(pat, '')`: scanning left to right, each occurrence of `pat`
   * is dropped and the scan resumes after it.
   */
  function RemoveAll(s: string, pat: string): (r: string)
    requires |pat| > 0
    ensures |r| <= |s|
    decreases |s|
  {
    if |s| < |pat| then s
    else if StartsWith(s, pat) then RemoveAll(s[|pat|..], pat)
    else [s[0]] + RemoveAll(s[1..], pat)
  }

  /** Where `pat` does not occur, nothing is removed. */
  lemma {:induction false} RemoveAllAbsent(s: string, pat: string)
    requires |pat| > 0
    requires !Occurs(s, pat)
    ensures RemoveAll(s, pat) == s
    decreases |s|
  {
    if |s| >= |pat| {
      assert s[0..] == s;
      assert !Occurs(s[1..], pat) by {
        forall i | 0 <= i <= |s[1..]| ensures !StartsWith(s[1..][i..], pat) {
          assert s[1..][i..] == s[i + 1..];
        }
      }
      RemoveAllAbsent(s[1..], pat);
      assert [s[0]] + s[1..] == s;
    }
  }

  /**
   * A character that is not part of `pat` is never inside a removed
   * occurrence, so removal works independently on the two sides of it.
   */
  lemma {:induction false} RemoveAllSplice(x: string, d: char, u: string, pat: string)
    requires |pat| > 0
    requires d !in pat
    ensures RemoveAll(x + [d] + u, pat) == RemoveAll(x, pat) + [d] + RemoveAll(u, pat)
    decreases |x|
  {
    var s := x + [d] + u;
    if x == [] {
      RemoveAllFront(d, u, pat);
      assert s == [d] + u;
    } else if StartsWith(s, pat) {
      PatternBeforeSplice(x, d, u, pat);
      RemoveAllSplice(x[|pat|..], d, u, pat);
      SpliceAfterMatch(x, d, u, pat);
    } else {
      RemoveAllSplice(x[1..], d, u, pat);
      SpliceAfterMiss(x, d, u, pat);
    }
  }

  /** The step of `RemoveAllSplice` where `pat` is removed at the front of `x`. */
  lemma SpliceAfterMatch(x: string, d: char, u: string, pat: string)
    requires |pat| > 0
    requires |x| >= |pat| && StartsWith(x, pat)
    requires RemoveAll(x[|pat|..] + [d] + u, pat) == RemoveAll(x[|pat|..], pat) + [d] + RemoveAll(u, pat)
    ensures RemoveAll(x + [d] + u, pat) == RemoveAll(x, pat) + [d] + RemoveAll(u, pat)
  {
    var s := x + [d] + u;
    assert s[..|pat|] == x[..|pat|];
    assert s[|pat|..] == x[|pat|..] + [d] + u;
  }

  /** The step of `RemoveAllSplice` where the first character of a non-empty `x` is kept. */
  lemma SpliceAfterMiss(x: string, d: char, u: string, pat: string)
    requires |pat| > 0 && d !in pat && x != []
    requires !StartsWith(x + [d] + u, pat)
    requires RemoveAll(x[1..] + [d] + u, pat) == RemoveAll(x[1..], pat) + [d] + RemoveAll(u, pat)
    ensures RemoveAll(x + [d] + u, pat) == RemoveAll(x, pat) + [d] + RemoveAll(u, pat)
  {
    if |x + [d] + u| < |pat| {
      ShortSplice(x, d, u, pat);
    } else {
      LongSplice(x, d, u, pat);
    }
  }

  lemma LongSplice(x: string, d: char, u: string, pat: string)
    requires |pat| > 0 && x != []
    requires |x + [d] + u| >= |pat| && !StartsWith(x + [d] + u, pat)
    requires RemoveAll(x[1..] + [d] + u, pat) == RemoveAll(x[1..], pat) + [d] + RemoveAll(u, pat)
    ensures RemoveAll(x + [d] + u, pat) == RemoveAll(x, pat) + [d] + RemoveAll(u, pat)
  {
    var s := x + [d] + u;
    var a, b := RemoveAll(x[1..], pat), RemoveAll(u, pat);
    SkipFirst(s, pat);
    SpliceTail(x, d, u);
    KeepFirst(x, d, u, pat);
    Regroup(x[0], a, d, b);
  }

  lemma SpliceTail(x: string, d: char, u: string)
    requires x != []
    ensures (x + [d] + u)[0] == x[0]
    ensures (x + [d] + u)[1..] == x[1..] + [d] + u
  {
  }

  lemma Regroup(c: char, a: string, d: char, b: string)
    ensures [c] + (a + [d] + b) == ([c] + a) + [d] + b
  {
  }

  /** A spliced string shorter than `pat` is left as it is, and so are its parts. */
  lemma ShortSplice(x: string, d: char, u: string, pat: string)
    requires |x + [d] + u| < |pat|
    ensures RemoveAll(x + [d] + u, pat) == RemoveAll(x, pat) + [d] + RemoveAll(u, pat)
  {
    assert RemoveAll(x, pat) == x && RemoveAll(u, pat) == u;
  }

  lemma SkipFirst(s: string, pat: string)
    requires |pat| > 0 && |s| >= |pat| && !StartsWith(s, pat)
    ensures RemoveAll(s, pat) == [s[0]] + RemoveAll(s[1..], pat)
  {
  }

  /** When the spliced string does not start with `pat`, neither does its non-empty front part. */
  lemma KeepFirst(x: string, d: char, u: string, pat: string)
    requires |pat| > 0 && x != []
    requires !StartsWith(x + [d] + u, pat)
    ensures RemoveAll(x, pat) == [x[0]] + RemoveAll(x[1..], pat)
  {
    if |x| >= |pat| {
      assert x[..|pat|] == (x + [d] + u)[..|pat|];
    } else {
      assert RemoveAll(x[1..], pat) == x[1..];
      assert x == [x[0]] + x[1..];
    }
  }

  /** Removal never starts at a character foreign to `pat`. */
  lemma RemoveAllFront(d: char, u: string, pat: string)
    requires |pat| > 0
    requires d !in pat
    ensures RemoveAll([d] + u, pat) == [d] + RemoveAll(u, pat)
  {
    var s := [d] + u;
    if |s| >= |pat| {
      assert s[0] == d;
      assert !StartsWith(s, pat);
      assert s[1..] == u;
    } else {
      RemoveAllAbsent(u, pat);
    }
  }

  /** An occurrence of `pat` at the start of `x + [d] + u` lies inside `x`. */
  lemma PatternBeforeSplice(x: string, d: char, u: string, pat: string)
    requires d !in pat
    requires StartsWith(x + [d] + u, pat)
    ensures |x| >= |pat| && StartsWith(x, pat)
  {
    var s := x + [d] + u;
    assert forall j :: 0 <= j < |pat| ==> s[j] == pat[j] && s[j] != d;
    assert s[|x|] == d;
    assert |x| >= |pat|;
    assert x[..|pat|] == s[..|pat|];
  }

  /** A suffix that starts with a character foreign to `pat`, and is shorter than `pat` after it, survives removal. */
  lemma RemoveAllKeepsSuffix(s: string, suffix: string, pat: string)
    requires |pat| > 0
    requires EndsWith(s, suffix)
    requires |suffix| >= 1 && suffix[0] !in pat && |suffix| - 1 < |pat|
    ensures EndsWith(RemoveAll(s, pat), suffix)
  {
    var n := |s| - |suffix|;
    var x, d, u := s[..n], suffix[0], suffix[1..];
    assert s == x + [d] + u by {
      assert s[n..] == suffix == [d] + u;
      assert s == s[..n] + s[n..];
    }
    RemoveAllSplice(x, d, u, pat);
    assert RemoveAll(u, pat) == u;
    var a := RemoveAll(x, pat);
    assert RemoveAll(s, pat) == a + suffix by {
      assert a + [d] + u == a + ([d] + u);
    }
  }

  // ---------------------------------------------------------------------------
  // Code-point ordering of strings and `sorted`

  /** Python's `a <= b` on strings: lexicographic on code points, a prefix first. */
  predicate LessEq(a: string, b: string)
    decreases |a|
  {
    a == [] || (b != [] && (a[0] < b[0] || (a[0] == b[0] && LessEq(a[1..], b[1..]))))
  }

  lemma {:induction false} LessEqTotal(a: string, b: string)
    ensures LessEq(a, b) || LessEq(b, a)
    decreases |a|
  {
    if a != [] && b != [] && a[0] == b[0] {
      LessEqTotal(a[1..], b[1..]);
    }
  }

  lemma {:induction false} LessEqReflexive(a: string)
    ensures LessEq(a, a)
    decreases |a|
  {
    if a != [] { LessEqReflexive(a[1..]); }
  }

  lemma {:induction false} LessEqAntisymmetric(a: string, b: string)
    requires LessEq(a, b) && LessEq(b, a)
    ensures a == b
    decreases |a|
  {
    if a != [] {
      LessEqAntisymmetric(a[1..], b[1..]);
      assert a == [a[0]] + a[1..] && b == [b[0]] + b[1..];
    }
  }

  lemma {:induction false} LessEqTransitive(a: string, b: string, c: string)
    requires LessEq(a, b) && LessEq(b, c)
    ensures LessEq(a, c)
    decreases |a|
  {
    if a != [] && a[0] == b[0] && b[0] == c[0] {
      LessEqTransitive(a[1..], b[1..], c[1..]);
    }
  }

  /** Ascending under `LessEq`, every pair in order. */
  predicate Sorted(s: seq<string>) {
    forall i, j :: 0 <= i < j < |s| ==> LessEq(s[i], s[j])
  }

  function Insert(x: string, s: seq<string>): seq<string> {
    if s == [] || LessEq(x, s[0]) then [x] + s else [s[0]] + Insert(x, s[1..])
  }

  /** Insertion sort; it agrees with Python's `sorted` (see `SortedUnique`). */
  function Sort(s: seq<string>): seq<string> {
    if s == [] then [] else Insert(s[0], Sort(s[1..]))
  }

  lemma {:induction false} InsertPermutes(x: string, s: seq<string>)
    ensures multiset(Insert(x, s)) == multiset(s) + multiset{x}
  {
    if s != [] && !LessEq(x, s[0]) {
      InsertPermutes(x, s[1..]);
      assert s == [s[0]] + s[1..];
    }
  }

  lemma {:induction false} InsertSorted(x: string, s: seq<string>)
    requires Sorted(s)
    ensures Sorted(Insert(x, s))
  {
    if s == [] {
    } else if LessEq(x, s[0]) {
      forall j | 0 <= j < |s| ensures LessEq(x, s[j]) {
        if j > 0 { LessEqTransitive(x, s[0], s[j]); }
      }
    } else {
      LessEqTotal(x, s[0]);
      var t := Insert(x, s[1..]);
      InsertSorted(x, s[1..]);
      InsertPermutes(x, s[1..]);
      forall j | 0 <= j < |t| ensures LessEq(s[0], t[j]) {
        assert t[j] in multiset(t);
        assert t[j] == x || t[j] in multiset(s[1..]);
        if t[j] != x {
          var k :| 0 <= k < |s[1..]| && s[1..][k] == t[j];
          assert s[k + 1] == t[j];
        }
      }
    }
  }

  lemma {:induction false} SortCorrect(s: seq<string>)
    ensures Sorted(Sort(s))
    ensures multiset(Sort(s)) == multiset(s)
  {
    if s != [] {
      SortCorrect(s[1..]);
      InsertSorted(s[0], Sort(s[1..]));
      InsertPermutes(s[0], Sort(s[1..]));
      assert s == [s[0]] + s[1..];
    }
  }

  /** The head of an ascending sequence is below each of its elements. */
  lemma SortedHeadLeast(a: seq<string>, y: string)
    requires Sorted(a)
    requires y in multiset(a)
    ensures LessEq(a[0], y)
  {
    var i :| 0 <= i < |a| && a[i] == y;
    if i == 0 { LessEqReflexive(y); }
  }

  /**
   * There is only one ascending arrangement of a multiset of strings, so
   * any correct sort (Python's stable `sorted` included) returns `Sort(s)`.
   */
  lemma {:induction false} SortedUnique(a: seq<string>, b: seq<string>)
    requires Sorted(a) && Sorted(b)
    requires multiset(a) == multiset(b)
    ensures a == b
    decreases |a|
  {
    if a != [] {
      assert |b| == |a| by {
        assert |multiset(a)| == |a| && |multiset(b)| == |b|;
      }
      assert b[0] in multiset(a) && a[0] in multiset(b) by {
        assert b[0] in multiset(b) && a[0] in multiset(a);
      }
      SortedHeadLeast(a, b[0]);
      SortedHeadLeast(b, a[0]);
      LessEqAntisymmetric(a[0], b[0]);
      TailMultiset(a);
      TailMultiset(b);
      assert Sorted(a[1..]) && Sorted(b[1..]);
      SortedUnique(a[1..], b[1..]);
      assert a == [a[0]] + a[1..] && b == [b[0]] + b[1..];
    }
  }

  lemma TailMultiset(a: seq<string>)
    requires a != []
    ensures multiset(a[1..]) == multiset(a) - multiset{a[0]}
  {
    assert a == [a[0]] + a[1..];
  }
}
