/** The order Go's `<` puts on strings, which picks the successor of a departed room owner. */
module AddressOrder {
  predicate Less(a: string, b: string) {
    b != "" && (a == "" || a[0] < b[0] || (a[0] == b[0] && Less(a[1..], b[1..])))
  }

  /** The two agree up to `k`, and there the first one ends or has the smaller character. */
  predicate DifferAt(a: string, b: string, k: nat) {
    k <= |a| && k < |b| && a[..k] == b[..k] && (k == |a| || a[k] < b[k])
  }

  lemma {:induction false} LessIsEarlier(a: string, b: string)
    ensures Less(a, b) ==> exists k: nat :: DifferAt(a, b, k)
  {
    if a == "" || b == "" || a[0] != b[0] {
      assert Less(a, b) ==> DifferAt(a, b, 0);
    } else if Less(a, b) {
      LessIsEarlier(a[1..], b[1..]);
      var k: nat :| DifferAt(a[1..], b[1..], k);
      assert a[..k + 1] == [a[0]] + a[1..][..k] && b[..k + 1] == [b[0]] + b[1..][..k];
      assert DifferAt(a, b, k + 1);
    }
  }

  lemma {:induction false} EarlierIsLess(a: string, b: string, k: nat)
    requires DifferAt(a, b, k)
    ensures Less(a, b)
  {
    if k == 0 {
    } else {
      assert a[0] == a[..k][0] && b[0] == b[..k][0];
      assert a[1..][..k - 1] == a[..k][1..] && b[1..][..k - 1] == b[..k][1..];
      EarlierIsLess(a[1..], b[1..], k - 1);
    }
  }

  /** The order of strings: decided by the first place where they differ, the shorter of two that agree first. */
  lemma LessExactlyWhen(a: string, b: string)
    ensures Less(a, b) <==> exists k: nat :: DifferAt(a, b, k)
  {
    LessIsEarlier(a, b);
    if k: nat :| DifferAt(a, b, k) { EarlierIsLess(a, b, k); }
  }

  ghost predicate IsLeast(a: string, addrs: set<string>) {
    a in addrs && forall b :: b in addrs && b != a ==> Less(a, b)
  }

  lemma {:induction false} Irreflexive(a: string)
    ensures !Less(a, a)
  {
    if a == "" {
    } else {
      Irreflexive(a[1..]);
    }
  }

  lemma {:induction false} Transitive(a: string, b: string, c: string)
    requires Less(a, b) && Less(b, c)
    ensures Less(a, c)
  {
    if a == "" {
    } else if a[0] == b[0] && b[0] == c[0] {
      Transitive(a[1..], b[1..], c[1..]);
    }
  }

  lemma {:induction false} Total(a: string, b: string)
    ensures a == b || Less(a, b) || Less(b, a)
  {
    if a == "" || b == "" {
    } else if a[0] == b[0] {
      Total(a[1..], b[1..]);
      assert a == [a[0]] + a[1..] && b == [b[0]] + b[1..];
    }
  }

  lemma LeastUnique(a: string, b: string, addrs: set<string>)
    requires IsLeast(a, addrs) && IsLeast(b, addrs)
    ensures a == b
  {
    if a != b {
      Transitive(a, b, a);
      Irreflexive(a);
    }
  }

  /** The least of a set with one more address is the old least or the newcomer. */
  lemma LeastOfTwo(x: string, m: string, rest: set<string>)
    requires IsLeast(m, rest) && x !in rest
    ensures IsLeast(if Less(x, m) then x else m, rest + {x})
  {
    Total(x, m);
    if Less(x, m) {
      forall b | b in rest ensures Less(x, b) {
        if b != m { Transitive(x, m, b); }
      }
    }
  }

  lemma {:induction false} LeastExists(addrs: set<string>)
    requires addrs != {}
    ensures exists a :: IsLeast(a, addrs)
    decreases |addrs|
  {
    var x :| x in addrs;
    var rest := addrs - {x};
    if rest == {} {
      assert addrs == {x};
      assert IsLeast(x, addrs);
    } else {
      LeastExists(rest);
      var m :| IsLeast(m, rest);
      LeastOfTwo(x, m, rest);
      assert rest + {x} == addrs;
    }
  }

  ghost function Least(addrs: set<string>): (a: string)
    requires addrs != {}
    ensures IsLeast(a, addrs)
  {
    LeastExists(addrs);
    var a :| IsLeast(a, addrs);
    a
  }
}
