/**
 * POSIX path operations as `os.path` (that is, `posixpath`) defines them:
 * `join` of two components, `basename` and `dirname`.
 */
module Paths {
  import opened Text

  /** A component that `join` appends rather than restarting from. */
  predicate Relative(p: string) {
    p == [] || p[0] != '/'
  }

  /** `a` with a separator after it, unless it is empty or already ends in one. */
  function Dir(a: string): string {
    if a == [] || a[|a| - 1] == '/' then a else a + "/"
  }

  /**
   * `os.path.join(a, b)`: an absolute `b` replaces `a`; otherwise `b` is
   * appended to `a`, with exactly one separator added when `a` lacks one.
   */
  function Join(a: string, b: string): string {
    if Relative(b) then Dir(a) + b else b
  }

  /** `os.path.basename`: the part after the last separator. */
  function Basename(p: string): (r: string)
    ensures '/' !in r
    ensures EndsWith(p, r)
    ensures |r| < |p| ==> p[|p| - |r| - 1] == '/'
  {
    if p == [] || p[|p| - 1] == '/' then []
    else
      var q, c := p[..|p| - 1], p[|p| - 1];
      var b := Basename(q);
      assert p == q + [c];
      assert q[|q| - |b|..] == b;
      assert p[|p| - |b| - 1..] == q[|q| - |b|..] + [c];
      assert |b| < |q| ==> p[|p| - |b| - 2] == q[|q| - |b| - 1];
      b + [c]
  }

  /** What `basename` leaves: everything up to and including the last separator. */
  function Head(p: string): string {
    p[..|p| - |Basename(p)|]
  }

  predicate AllSlashes(s: string) {
    forall i :: 0 <= i < |s| ==> s[i] == '/'
  }

  function TrimSlashes(s: string): (r: string)
    ensures StartsWith(s, r)
  {
    if s != [] && s[|s| - 1] == '/' then TrimSlashes(s[..|s| - 1]) else s
  }

  /**
   * `os.path.dirname`: the head, with its trailing separators removed unless
   * the head consists of separators only.
   */
  function Dirname(p: string): string {
    var h := Head(p);
    if h != [] && !AllSlashes(h) then TrimSlashes(h) else h
  }

  /** `q` is `p` or lies inside the directory `p`. */
  predicate Under(p: string, q: string) {
    q == p || StartsWith(q, p + "/")
  }

  // ---------------------------------------------------------------------------

  /** A separator-free name placed after a separator is its own basename. */
  lemma {:induction false} BasenameAfterSeparator(x: string, y: string)
    requires '/' !in y
    requires x == [] || x[|x| - 1] == '/'
    ensures Basename(x + y) == y
    decreases |y|
  {
    var p := x + y;
    if y != [] {
      var y', c := y[..|y| - 1], y[|y| - 1];
      assert c in y;
      assert p[|p| - 1] == c && c != '/';
      assert p[..|p| - 1] == x + y';
      assert '/' !in y' by { assert forall i :: 0 <= i < |y'| ==> y'[i] == y[i]; }
      BasenameAfterSeparator(x, y');
      assert Basename(p) == Basename(x + y') + [c];
      assert y == y' + [c];
    } else {
      assert p == x;
    }
  }

  /** `basename(join(a, y)) == y` for a separator-free `y`. */
  lemma BasenameOfJoin(a: string, y: string)
    requires '/' !in y
    ensures Basename(Join(a, y)) == y
  {
    BasenameAfterSeparator(Dir(a), y);
  }

  /**
   * `dirname(join(a, y)) == a` for a separator-free `y` and a non-empty `a`
   * that does not end in a separator: the file lands directly inside `a`.
   */
  lemma DirnameOfJoin(a: string, y: string)
    requires '/' !in y
    requires a != [] && a[|a| - 1] != '/'
    ensures Dirname(Join(a, y)) == a
  {
    var p := Join(a, y);
    assert p == a + "/" + y;
    BasenameOfJoin(a, y);
    assert Head(p) == a + "/";
    assert !AllSlashes(a + "/") by { assert (a + "/")[|a| - 1] != '/'; }
    assert (a + "/")[..|a|] == a;
    assert TrimSlashes(a + "/") == TrimSlashes(a) == a;
  }

  /** Joining onto the same directory keeps relative names apart. */
  lemma JoinInjective(a: string, b1: string, b2: string)
    requires Relative(b1) && Relative(b2)
    requires Join(a, b1) == Join(a, b2)
    ensures b1 == b2
  {
    var d := Dir(a);
    assert b1 == (d + b1)[|d|..];
    assert b2 == (d + b2)[|d|..];
  }

  /** Stripping trailing separators never cuts into a prefix that does not end in one. */
  lemma {:induction false} TrimKeepsPrefix(c: string, h: string)
    requires c != [] && c[|c| - 1] != '/'
    requires StartsWith(h, c)
    ensures StartsWith(TrimSlashes(h), c)
    decreases |h|
  {
    if h != [] && h[|h| - 1] == '/' {
      assert |h| > |c| by {
        assert |h| == |c| ==> h == c;
      }
      var g := h[..|h| - 1];
      assert g[..|c|] == h[..|c|];
      TrimKeepsPrefix(c, g);
    }
  }

  /** The folder of anything strictly inside `c` is `c` or lies inside it. */
  lemma DirnameInside(c: string, p: string)
    requires c != [] && c[|c| - 1] != '/'
    requires StartsWith(p, c + "/")
    ensures StartsWith(Dirname(p), c)
  {
    var r := Basename(p);
    assert p[|c|] == '/';
    forall i | |p| - |r| <= i < |p|
      ensures p[i] != '/'
    {
      assert p[i] == r[i - (|p| - |r|)];
    }
    var h := Head(p);
    assert |h| > |c|;
    assert h[..|c|] == p[..|c|] == c;
    assert h[|c| - 1] != '/';
    TrimKeepsPrefix(c, h);
  }
}
