/** The ordering `std::map<std::string, …>` keeps its keys in: lexicographic comparison
    character by character, a proper prefix sorting first. */
module StringOrder {

  /** `a` sorts strictly before `b`: a proper prefix comes first, and no string sorts
      before itself. */
  predicate Below(a: string, b: string): (r: bool)
    ensures |a| < |b| && a == b[..|a|] ==> r
    ensures r ==> a != b
    decreases |a|
  {
    |b| > 0 && (|a| == 0 || a[0] < b[0] || (a[0] == b[0] && Below(a[1..], b[1..])))
  }

  lemma {:induction false} BelowIrreflexive(a: string)
    ensures !Below(a, a)
    decreases |a|
  {
    if |a| > 0 {
      BelowIrreflexive(a[1..]);
    }
  }

  lemma {:induction false} BelowTransitive(a: string, b: string, c: string)
    requires Below(a, b) && Below(b, c)
    ensures Below(a, c)
    decreases |a|
  {
    if |a| > 0 && a[0] == b[0] && b[0] == c[0] {
      BelowTransitive(a[1..], b[1..], c[1..]);
    }
  }

  /** Any two different strings are ordered one way or the other. */
  lemma {:induction false} BelowTotal(a: string, b: string)
    requires a != b
    ensures Below(a, b) || Below(b, a)
    decreases |a|
  {
    if |a| > 0 && |b| > 0 && a[0] == b[0] {
      assert a == [a[0]] + a[1..] && b == [b[0]] + b[1..];
      BelowTotal(a[1..], b[1..]);
    }
  }

  /** The least key of a non-empty key set: what `std::map::begin` points at. */
  method LeastKey(keys: set<string>) returns (m: string)
    requires keys != {}
    ensures m in keys
    ensures forall k :: k in keys && k != m ==> Below(m, k)
  {
    m :| m in keys;
    var rest := keys - {m};
    while rest != {}
      invariant rest <= keys && m in keys && m !in rest
      invariant forall k :: k in keys - rest && k != m ==> Below(m, k)
      decreases |rest|
    {
      var k :| k in rest;
      if Below(k, m) {
        forall j | j in keys - rest && j != m
          ensures Below(k, j)
        {
          BelowTransitive(k, m, j);
        }
        BelowIrreflexive(k);
        m := k;
      } else {
        BelowTotal(k, m);
      }
      rest := rest - {k};
    }
  }
}
