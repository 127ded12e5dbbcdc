/** Go's `<` on strings, and the least key of a finite set: what iterating sorted map keys finds first. */
module StringOrder {

  predicate Less(a: string, b: string) {
    b != "" && (a == "" || a[0] < b[0] || (a[0] == b[0] && Less(a[1..], b[1..])))
  }

  lemma {:induction false} Irreflexive(a: string)
    ensures !Less(a, a)
  {
    if a != "" {
      Irreflexive(a[1..]);
    }
  }

  lemma {:induction false} Transitive(a: string, b: string, c: string)
    requires Less(a, b) && Less(b, c)
    ensures Less(a, c)
  {
    if a != "" && a[0] == b[0] && b[0] == c[0] {
      Transitive(a[1..], b[1..], c[1..]);
    }
  }

  lemma {:induction false} Total(a: string, b: string)
    requires a != b
    ensures Less(a, b) || Less(b, a)
  {
    if a != "" && b != "" && a[0] == b[0] {
      assert a == [a[0]] + a[1..] && b == [b[0]] + b[1..];
      Total(a[1..], b[1..]);
    }
  }

  /** `a` comes before `b` at position `k`: they agree up to there, and `a` ends or has the smaller character. */
  predicate BeforeAt(a: string, b: string, k: nat) {
    k <= |a| && k < |b| && a[..k] == b[..k] && (k == |a| || a[k] < b[k])
  }

  /** The order is decided at the first difference; a proper prefix comes first. */
  lemma {:induction false} LessExactly(a: string, b: string)
    ensures Less(a, b) <==> exists k: nat :: BeforeAt(a, b, k)
  {
    if Less(a, b) {
      if a == "" || a[0] < b[0] {
        assert BeforeAt(a, b, 0);
      } else {
        LessExactly(a[1..], b[1..]);
        var k: nat :| BeforeAt(a[1..], b[1..], k);
        assert a[..k + 1] == [a[0]] + a[1..][..k] && b[..k + 1] == [b[0]] + b[1..][..k];
        assert BeforeAt(a, b, k + 1);
      }
    }
    if k: nat :| BeforeAt(a, b, k) {
      if k > 0 {
        assert a[0] == a[..k][0] == b[..k][0] == b[0];
        assert a[1..][..k - 1] == a[..k][1..] == b[..k][1..] == b[1..][..k - 1];
        assert BeforeAt(a[1..], b[1..], k - 1);
        LessExactly(a[1..], b[1..]);
      }
    }
  }

  predicate IsLeast(k: string, s: set<string>) {
    k in s && forall x :: x in s && x != k ==> Less(k, x)
  }

  lemma {:induction false} LeastExists(s: set<string>) returns (k: string)
    requires s != {}
    ensures IsLeast(k, s)
    decreases s
  {
    var x :| x in s;
    k := x;
    assert forall y :: y in s && y != x ==> y in s - {x};
    if s - {x} != {} {
      var m := LeastExists(s - {x});
      if x != m { Total(x, m); }
      if Less(m, x) {
        k := m;
      } else {
        forall y | y in s && y != x ensures Less(x, y) {
          if y != m { Transitive(x, m, y); }
        }
      }
    }
  }

  lemma {:induction false} GreatestExists(s: set<string>) returns (k: string)
    requires s != {}
    ensures k in s && forall x :: x in s && x != k ==> Less(x, k)
    decreases s
  {
    var x :| x in s;
    k := x;
    assert forall y :: y in s && y != x ==> y in s - {x};
    if s - {x} != {} {
      var m := GreatestExists(s - {x});
      if x != m { Total(x, m); }
      if Less(x, m) {
        k := m;
      } else {
        forall y | y in s && y != x ensures Less(y, x) {
          if y != m { Transitive(y, m, x); }
        }
      }
    }
  }

  lemma {:induction false} Asymmetric(a: string, b: string)
    requires Less(a, b)
    ensures !Less(b, a)
  {
    if Less(b, a) {
      Transitive(a, b, a);
      Irreflexive(a);
    }
  }

  lemma {:induction false} LeastUnique(s: set<string>, k: string, l: string)
    requires IsLeast(k, s) && IsLeast(l, s)
    ensures k == l
  {
    if k != l {
      Transitive(k, l, k);
      Irreflexive(k);
    }
  }

  lemma {:induction false} SomeLeast(s: set<string>)
    requires s != {}
    ensures exists k :: IsLeast(k, s)
  {
    var k := LeastExists(s);
  }

  lemma {:induction false} OneLeast(s: set<string>)
    ensures forall k, l :: IsLeast(k, s) && IsLeast(l, s) ==> k == l
  {
    forall k, l | IsLeast(k, s) && IsLeast(l, s) ensures k == l {
      LeastUnique(s, k, l);
    }
  }

  /** First of the sorted elements. */
  function Least(s: set<string>): (k: string)
    requires s != {}
    ensures IsLeast(k, s)
  {
    SomeLeast(s);
    OneLeast(s);
    var k :| k in s && IsLeast(k, s);
    k
  }
}
