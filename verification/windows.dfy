/**
 * Windows of a token sequence: the tokens `a` occurring in `toks` from a
 * position on. The printers' round-trip proofs read a printed program back
 * through these facts, whatever the token alphabet.
 */
module Windows {

  /**
   * Element `i` of the window `a`. Naming the lookup keeps the window facts
   * below from firing on every index term of every printed sequence.
   */
  function At<T>(a: seq<T>, i: nat): T
    requires i < |a|
  {
    a[i]
  }

  /** The elements `a` occur in `toks` starting at `p`. */
  predicate Matches<T(==)>(toks: seq<T>, p: nat, a: seq<T>) {
    p + |a| <= |toks| && forall i :: 0 <= i < |a| ==> toks[p + i] == At(a, i)
  }

  /** A window of `a + b` is a window of `a` followed by one of `b`. */
  lemma Split<T>(toks: seq<T>, p: nat, a: seq<T>, b: seq<T>)
    requires Matches(toks, p, a + b)
    ensures Matches(toks, p, a) && Matches(toks, p + |a|, b)
  {
    forall i | 0 <= i < |a| ensures toks[p + i] == At(a, i) {
      assert At(a + b, i) == At(a, i);
    }
    forall j | 0 <= j < |b| ensures toks[p + |a| + j] == At(b, j) {
      assert At(a + b, |a| + j) == At(b, j);
    }
  }

  lemma Single<T>(toks: seq<T>, p: nat, t: T)
    requires Matches(toks, p, [t])
    ensures p < |toks| && toks[p] == t
  {
    assert At([t], 0) == t;
  }

  lemma Pair<T>(toks: seq<T>, p: nat, x: T, y: T)
    requires Matches(toks, p, [x, y])
    ensures p + 1 < |toks| && toks[p] == x && toks[p + 1] == y
  {
    assert At([x, y], 0) == x && At([x, y], 1) == y;
  }

  /** The first element of a window. */
  lemma Head<T>(toks: seq<T>, p: nat, a: seq<T>)
    requires Matches(toks, p, a) && |a| > 0
    ensures toks[p] == a[0]
  {
    assert toks[p + 0] == At(a, 0);
  }

  /** The window `[x] + a + [y]`. */
  lemma Wrapped<T>(toks: seq<T>, p: nat, x: T, a: seq<T>, y: T)
    requires Matches(toks, p, [x] + a + [y])
    ensures toks[p] == x && Matches(toks, p + 1, a)
    ensures p + 1 + |a| < |toks| && toks[p + 1 + |a|] == y
  {
    Split(toks, p, [x] + a, [y]);
    Split(toks, p, [x], a);
    Single(toks, p, x);
    Single(toks, p + 1 + |a|, y);
  }

  /** The window `a + [x] + b`. */
  lemma Around<T>(toks: seq<T>, p: nat, a: seq<T>, x: T, b: seq<T>)
    requires Matches(toks, p, a + [x] + b)
    ensures Matches(toks, p, a) && toks[p + |a|] == x && Matches(toks, p + |a| + 1, b)
  {
    Split(toks, p, a + [x], b);
    Split(toks, p, a, [x]);
    Single(toks, p + |a|, x);
  }

  /** The window `[x, y] + a + [z] + b + [w]` of a declaration. */
  lemma DeclarationLayout<T>(toks: seq<T>, p: nat, x: T, y: T, a: seq<T>, z: T, b: seq<T>, w: T)
    requires Matches(toks, p, [x, y] + a + [z] + b + [w])
    ensures p + 1 < |toks| && toks[p] == x && toks[p + 1] == y && Matches(toks, p + 2, a)
    ensures toks[p + 2 + |a|] == z && Matches(toks, p + 3 + |a|, b) && toks[p + 3 + |a| + |b|] == w
  {
    Split(toks, p, [x, y] + a + [z] + b, [w]);
    Split(toks, p, [x, y] + a + [z], b);
    Split(toks, p, [x, y] + a, [z]);
    Split(toks, p, [x, y], a);
    Pair(toks, p, x, y);
    Single(toks, p + 2 + |a|, z);
    Single(toks, p + 3 + |a| + |b|, w);
  }

  /** The window `[x, y] + a + [z, w]` of a print statement. */
  lemma PrintLayout<T>(toks: seq<T>, p: nat, x: T, y: T, a: seq<T>, z: T, w: T)
    requires Matches(toks, p, [x, y] + a + [z, w])
    ensures p + 1 < |toks| && toks[p] == x && toks[p + 1] == y && Matches(toks, p + 2, a)
    ensures p + 3 + |a| < |toks| && toks[p + 2 + |a|] == z && toks[p + 3 + |a|] == w
  {
    Split(toks, p, [x, y] + a, [z, w]);
    Split(toks, p, [x, y], a);
    Pair(toks, p, x, y);
    Pair(toks, p + 2 + |a|, z, w);
  }

  /** The window `[x] + a + b + c` of a `while` or an `if`: keyword, condition, body, rest. */
  lemma GuardedLayout<T>(toks: seq<T>, p: nat, x: T, a: seq<T>, b: seq<T>, c: seq<T>)
    requires Matches(toks, p, [x] + a + b + c)
    ensures toks[p] == x && Matches(toks, p + 1, a) && Matches(toks, p + 1 + |a|, b)
    ensures Matches(toks, p + 1 + |a| + |b|, c)
  {
    Split(toks, p, [x] + a + b, c);
    Split(toks, p, [x] + a, b);
    Split(toks, p, [x], a);
    Single(toks, p, x);
  }
}
