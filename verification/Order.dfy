/** The byte order of ids, and sorting by it. */
module Order {

  predicate Less(a: string, b: string) {
    b != "" && (a == "" || a[0] < b[0] || (a[0] == b[0] && Less(a[1..], b[1..])))
  }

  lemma {:induction false} LessTotal(a: string, b: string)
    ensures a == b || Less(a, b) || Less(b, a)
    ensures !(Less(a, b) && (a == b || Less(b, a)))
  {
    if a != "" && b != "" {
      LessTotal(a[1..], b[1..]);
      assert a == [a[0]] + a[1..] && b == [b[0]] + b[1..];
    }
  }

  lemma {:induction false} LessTransitive(a: string, b: string, c: string)
    requires Less(a, b) && Less(b, c)
    ensures Less(a, c)
  {
    if a != "" && a[0] == b[0] == c[0] {
      LessTransitive(a[1..], b[1..], c[1..]);
    }
  }

  /** It is the order of the first byte in which they differ, a prefix coming first. */
  lemma {:induction false} LessExactly(a: string, b: string)
    ensures Less(a, b) <==>
            exists k: nat :: k <= |a| && k < |b| && a[..k] == b[..k] && (k == |a| || a[k] < b[k])
  {
    if a == "" {
      assert b != "" ==> a[..0] == b[..0];
    } else if b != "" {
      var s, t := a[1..], b[1..];
      LessExactly(s, t);
      if a[0] < b[0] {
        assert a[..0] == b[..0];
      }
      if k: nat :| a[0] == b[0] && k <= |s| && k < |t| && s[..k] == t[..k] && (k == |s| || s[k] < t[k]) {
        assert a[..k + 1] == [a[0]] + s[..k] && b[..k + 1] == [b[0]] + t[..k];
      }
      if k: nat :| k <= |a| && k < |b| && a[..k] == b[..k] && (k == |a| || a[k] < b[k]) {
        if k > 0 {
          assert a[0] == a[..k][0] && b[0] == b[..k][0];
          assert s[..k - 1] == a[..k][1..] && t[..k - 1] == b[..k][1..];
        }
      }
    }
  }

  /** x is the least element of s. */
  ghost predicate IsLeast(s: set<string>, x: string) {
    x in s && forall y | y in s && y != x :: Less(x, y)
  }

  lemma LeastExists(s: set<string>)
    requires s != {}
    ensures exists x :: IsLeast(s, x)
  {
    var a :| a in s;
    if s == {a} {
      assert IsLeast(s, a);
    } else {
      LeastExists(s - {a});
      var b :| IsLeast(s - {a}, b);
      LessTotal(a, b);
      if Less(a, b) {
        forall y | y in s && y != a ensures Less(a, y) {
          if y != b {
            assert y in s - {a};
            LessTransitive(a, b, y);
          }
        }
        assert IsLeast(s, a);
      } else {
        assert IsLeast(s, b);
      }
    }
  }

  /** q lists s, in increasing order. */
  ghost predicate Sorts(q: seq<string>, s: set<string>) {
    && (forall i | 0 <= i < |q| :: q[i] in s)
    && (forall x | x in s :: x in q)
    && (forall i, j | 0 <= i < j < |q| :: Less(q[i], q[j]) && q[i] != q[j])
  }

  lemma SortExists(s: set<string>)
    ensures exists q :: Sorts(q, s)
  {
    if s == {} {
      assert Sorts([], s);
    } else {
      LeastExists(s);
      var x :| IsLeast(s, x);
      SortExists(s - {x});
      var q :| Sorts(q, s - {x});
      forall y | y in s ensures y in [x] + q {
        if y != x {
          assert y in s - {x};
        }
      }
      assert Sorts([x] + q, s);
    }
  }

  method Sorted(s: set<string>) returns (q: seq<string>)
    ensures Sorts(q, s)
  {
    q := [];
    var rest := s;
    while rest != {}
      invariant rest <= s
      invariant forall i | 0 <= i < |q| :: q[i] in s - rest
      invariant forall x | x in s - rest :: x in q
      invariant forall i, j | 0 <= i < j < |q| :: Less(q[i], q[j]) && q[i] != q[j]
      invariant forall i, x | 0 <= i < |q| && x in rest :: Less(q[i], x)
      decreases |rest|
    {
      LeastExists(rest);
      var x :| x in rest && forall y | y in rest && y != x :: Less(x, y);
      q := q + [x];
      rest := rest - {x};
    }
  }

  // ---------------------------------------------------- walking a sequence

  /** The first i elements of q. */
  function Upto(q: seq<string>, i: nat): set<string>
    requires i <= |q|
  {
    set k | 0 <= k < i :: q[k]
  }

  ghost predicate Distinct(q: seq<string>) {
    forall i, j | 0 <= i < j < |q| :: q[i] != q[j]
  }

  lemma UptoGrows(q: seq<string>, i: nat)
    requires Distinct(q) && i < |q|
    ensures q[i] !in Upto(q, i) && Upto(q, i + 1) == Upto(q, i) + {q[i]}
  {
  }

  lemma UptoAll(q: seq<string>, s: set<string>)
    requires Sorts(q, s)
    ensures Upto(q, |q|) == s
  {
  }

  lemma SortedNext(q: seq<string>, s: set<string>, i: nat)
    requires Sorts(q, s) && i < |q|
    ensures q[i] in s && q[i] !in Upto(q, i) && (forall x | x in Upto(q, i) :: Less(x, q[i]))
    ensures Upto(q, i + 1) == Upto(q, i) + {q[i]}
  {
  }

  lemma SortsSize(q: seq<string>, s: set<string>)
    requires Sorts(q, s)
    ensures |q| == |s|
  {
    UptoAll(q, s);
    UptoSize(q, s, |q|);
  }

  lemma {:induction false} UptoSize(q: seq<string>, s: set<string>, i: nat)
    requires Sorts(q, s) && i <= |q|
    ensures |Upto(q, i)| == i
  {
    if i == 0 {
      assert Upto(q, 0) == {};
    } else {
      UptoSize(q, s, i - 1);
      UptoGrows(q, i - 1);
    }
  }
}
