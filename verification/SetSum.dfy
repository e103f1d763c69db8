/** Sums of an integer-valued map over finite sets of its keys. */
module SetSum {

  ghost function Sum(f: map<int, int>, s: set<int>): int
    requires s <= f.Keys
  {
    if s == {} then 0
    else
      var x := Pick(s);
      f[x] + Sum(f, s - {x})
  }

  ghost function Pick(s: set<int>): (x: int)
    requires s != {}
    ensures x in s
  {
    Inhabited(s);
    var x :| x in s;
    x
  }

  lemma NoMembers(s: set<int>)
    requires forall x :: x !in s
    ensures s == {}
  {
    var none: set<int> := {};
    assert forall x :: x in s <==> x in none;
  }

  lemma Inhabited(s: set<int>)
    requires s != {}
    ensures exists x :: x in s
  {
    if forall x :: x !in s { NoMembers(s); assert false; }
  }

  /** The sum does not depend on the order of picking. */
  lemma {:induction false} SumRemove(f: map<int, int>, s: set<int>, y: int)
    requires s <= f.Keys && y in s
    ensures Sum(f, s) == f[y] + Sum(f, s - {y})
    decreases |s|
  {
    var x := Pick(s);
    if x != y {
      SumRemove(f, s - {x}, y);
      SumRemove(f, s - {y}, x);
      assert s - {x} - {y} == s - {y} - {x};
    }
  }

  lemma SumAdd(f: map<int, int>, s: set<int>, y: int)
    requires s <= f.Keys && y in f && y !in s
    ensures Sum(f, s + {y}) == Sum(f, s) + f[y]
  {
    SumRemove(f, s + {y}, y);
    assert s + {y} - {y} == s;
  }

  lemma {:induction false} SumUnion(f: map<int, int>, s: set<int>, t: set<int>)
    requires s <= f.Keys && t <= f.Keys && s !! t
    ensures Sum(f, s + t) == Sum(f, s) + Sum(f, t)
    decreases |t|
  {
    if t == {} {
      assert s + t == s;
    } else {
      var x := Pick(t);
      SumUnion(f, s, t - {x});
      assert s + t == s + (t - {x}) + {x};
      SumAdd(f, s + (t - {x}), x);
    }
  }

  lemma {:induction false} SumMonotone(f: map<int, int>, s: set<int>, t: set<int>)
    requires s <= t <= f.Keys && forall x :: x in f ==> 0 <= f[x]
    ensures 0 <= Sum(f, s) <= Sum(f, t)
    decreases |t|
  {
    if t != {} {
      var x := Pick(t);
      SumMonotone(f, s - {x}, t - {x});
      if x in s { SumRemove(f, s, x); } else { assert s - {x} == s; }
    }
  }

  /** A pointwise bound carries over to sums. */
  lemma {:induction false} SumBound(f: map<int, int>, g: map<int, int>, k: int, s: set<int>)
    requires s <= f.Keys && s <= g.Keys && forall x :: x in s ==> f[x] <= k * g[x]
    ensures Sum(f, s) <= k * Sum(g, s)
    decreases |s|
  {
    if s != {} {
      var x := Pick(s);
      SumBound(f, g, k, s - {x});
      calc {
        Sum(f, s);
      ==
        f[x] + Sum(f, s - {x});
      <=
        k * g[x] + k * Sum(g, s - {x});
      ==
        k * (g[x] + Sum(g, s - {x}));
      ==
        k * Sum(g, s);
      }
    }
  }

  /** Maps that agree on a set have the same sum over it. */
  lemma {:induction false} SumAgrees(f: map<int, int>, g: map<int, int>, s: set<int>)
    requires s <= f.Keys && s <= g.Keys && forall x :: x in s ==> f[x] == g[x]
    ensures Sum(f, s) == Sum(g, s)
    decreases |s|
  {
    if s != {} {
      var x := Pick(s);
      SumAgrees(f, g, s - {x});
    }
  }

  /** A positive sum has a positive term. */
  lemma {:induction false} SumPositive(f: map<int, int>, s: set<int>)
    requires s <= f.Keys && Sum(f, s) > 0
    ensures exists x :: x in s && f[x] > 0
    decreases |s|
  {
    var x := Pick(s);
    if f[x] <= 0 { SumPositive(f, s - {x}); }
  }
}
