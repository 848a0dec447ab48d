/** Sequence operations behind the decoder buckets: appending copies of an agent and
    erasing the first occurrence of an agent, once or several times. */
module Buckets {

  /** `n` copies of `x`. */
  function Copies<T>(x: T, n: nat): (r: seq<T>)
    ensures |r| == n
    ensures forall i :: 0 <= i < |r| ==> r[i] == x
  {
    seq(n, _ => x)
  }

  /** Position of the first occurrence of `x` in `b`. */
  function FirstIndex<T(==)>(b: seq<T>, x: T): (i: nat)
    requires x in b
    ensures i < |b| && b[i] == x
    ensures x !in b[..i]
  {
    if b[0] == x then 0
    else
      assert x in b[1..] by { assert b == [b[0]] + b[1..]; }
      var j := FirstIndex(b[1..], x);
      assert b[..j + 1] == [b[0]] + b[1..][..j];
      j + 1
  }

  /** Erases the first occurrence of `x` from `b`, keeping the other elements in order;
      `b` is returned unchanged when `x` does not occur in it. */
  function RemoveFirst<T(==)>(b: seq<T>, x: T): (r: seq<T>)
    ensures multiset(r) == multiset(b) - multiset{x}
  {
    if b == [] then []
    else if b[0] == x then
      assert b == [b[0]] + b[1..];
      b[1..]
    else
      var t := RemoveFirst(b[1..], x);
      assert b == [b[0]] + b[1..];
      [b[0]] + t
  }

  /** Only the first occurrence of `x` goes, and the elements around it keep their order. */
  lemma {:induction false} RemoveFirstSplices<T>(b: seq<T>, x: T)
    ensures x !in b ==> RemoveFirst(b, x) == b
    ensures x in b ==> RemoveFirst(b, x) == b[..FirstIndex(b, x)] + b[FirstIndex(b, x) + 1..]
  {
    if b != [] && b[0] != x {
      assert b == [b[0]] + b[1..];
      RemoveFirstSplices(b[1..], x);
      if x in b {
        assert x in b[1..];
        var j := FirstIndex(b[1..], x);
        assert FirstIndex(b, x) == j + 1;
        assert b[..j + 1] == [b[0]] + b[1..][..j];
        assert b[j + 2..] == b[1..][j + 1..];
      }
    }
  }

  /** `n` successive `RemoveFirst` steps. */
  function RemoveN<T(==)>(b: seq<T>, x: T, n: nat): (r: seq<T>)
    ensures multiset(r) <= multiset(b)
    decreases n
  {
    if n == 0 then b else RemoveN(RemoveFirst(b, x), x, n - 1)
  }

  /** Nothing can be removed from an empty bucket. */
  lemma {:induction false} RemoveNEmpty<T>(x: T, n: nat)
    ensures RemoveN([], x, n) == []
  {
    if n > 0 {
      RemoveNEmpty(x, n - 1);
    }
  }

  /** Erasing `x` skips a prefix that does not contain it. */
  lemma {:induction false} RemoveFirstSkipsPrefix<T>(p: seq<T>, c: seq<T>, x: T)
    requires x !in p
    ensures RemoveFirst(p + c, x) == p + RemoveFirst(c, x)
  {
    if p != [] {
      assert p[0] != x;
      calc {
        RemoveFirst(p + c, x);
        { assert (p + c)[0] == p[0]; }
        [p[0]] + RemoveFirst((p + c)[1..], x);
        { assert (p + c)[1..] == p[1..] + c; }
        [p[0]] + RemoveFirst(p[1..] + c, x);
        { RemoveFirstSkipsPrefix(p[1..], c, x); }
        [p[0]] + (p[1..] + RemoveFirst(c, x));
        { assert p == [p[0]] + p[1..]; }
        p + RemoveFirst(c, x);
      }
    } else {
      assert p + c == c;
    }
  }

  /** Appending `n` copies of `x` to a bucket without `x` and then erasing `x` `n` times
      gives the bucket back. */
  lemma {:induction false} RemoveNUndoesCopies<T>(p: seq<T>, x: T, n: nat)
    requires x !in p
    ensures RemoveN(p + Copies(x, n), x, n) == p
  {
    if n > 0 {
      calc {
        RemoveN(p + Copies(x, n), x, n);
        RemoveN(RemoveFirst(p + Copies(x, n), x), x, n - 1);
        { RemoveFirstSkipsPrefix(p, Copies(x, n), x); }
        RemoveN(p + RemoveFirst(Copies(x, n), x), x, n - 1);
        { assert Copies(x, n)[0] == x; assert Copies(x, n)[1..] == Copies(x, n - 1); }
        RemoveN(p + Copies(x, n - 1), x, n - 1);
        { RemoveNUndoesCopies(p, x, n - 1); }
        p;
      }
    } else {
      assert p + [] == p;
    }
  }
}
