/** Iteration order of a std::map with integer keys, and sums over its keys. */
module OrderedKeys {
  import opened Options

  lemma {:induction false} FindLeast(s: set<nat>) returns (m: nat)
    requires s != {}
    ensures m in s && forall x :: x in s ==> m <= x
    decreases |s|
  {
    var k :| k in s;
    var t := s - {k};
    m := k;
    if t != {} {
      var m' := FindLeast(t);
      if m' < m {
        m := m';
      }
      assert forall x :: x in s ==> x in t || x == k;
    }
  }

  lemma LeastExists(s: set<nat>)
    requires s != {}
    ensures exists m :: m in s && forall x :: x in s ==> m <= x
  {
    var m := FindLeast(s);
  }

  /** begin() of a nonempty map. */
  function Least(s: set<nat>): (m: nat)
    requires s != {}
    ensures m in s && forall x :: x in s ==> m <= x
  {
    LeastExists(s);
    var m :| m in s && forall x :: x in s ==> m <= x;
    m
  }

  lemma {:induction false} FindGreatest(s: set<nat>) returns (m: nat)
    requires s != {}
    ensures m in s && forall x :: x in s ==> x <= m
    decreases |s|
  {
    var k :| k in s;
    var t := s - {k};
    m := k;
    if t != {} {
      var m' := FindGreatest(t);
      if m' > m {
        m := m';
      }
      assert forall x :: x in s ==> x in t || x == k;
    }
  }

  lemma GreatestExists(s: set<nat>)
    requires s != {}
    ensures exists m :: m in s && forall x :: x in s ==> x <= m
  {
    var m := FindGreatest(s);
  }

  /** rbegin() of a nonempty map. */
  function Greatest(s: set<nat>): (m: nat)
    requires s != {}
    ensures m in s && forall x :: x in s ==> x <= m
  {
    GreatestExists(s);
    var m :| m in s && forall x :: x in s ==> x <= m;
    m
  }

  /** The first key at or after lo; None stands for end(). */
  function Ceil(s: set<nat>, lo: nat): (r: Option<nat>)
    ensures r.None? ==> forall x :: x in s ==> x < lo
    ensures r.Some? ==> r.value in s && r.value >= lo && forall x :: x in s && x >= lo ==> r.value <= x
  {
    var above := set x | x in s && x >= lo;
    assert forall x :: x in s && x >= lo ==> x in above;
    if above == {} then None else Some(Least(above))
  }

  /** The first key at or after lo, wrapping around to begin(). */
  function CyclicCeil(s: set<nat>, lo: nat): (r: Option<nat>)
    ensures r.None? <==> s == {}
    ensures r.Some? ==> r.value in s
  {
    if s == {} then None
    else if Ceil(s, lo).Some? then Ceil(s, lo)
    else Some(Least(s))
  }

  /** The sum of f over a set of keys. */
  ghost function Sum(s: set<nat>, f: nat -> int): int
    decreases |s|
  {
    if s == {} then 0 else var m := Least(s); f(m) + Sum(s - {m}, f)
  }

  lemma {:induction false} SumRemove(s: set<nat>, k: nat, f: nat -> int)
    requires k in s
    ensures Sum(s, f) == f(k) + Sum(s - {k}, f)
    decreases |s|
  {
    var m := Least(s);
    if m != k {
      SumRemove(s - {m}, k, f);
      assert s - {k} - {m} == s - {m} - {k};
      assert Least(s - {k}) == m;
    }
  }

  lemma {:induction false} SumSame(s: set<nat>, f: nat -> int, g: nat -> int)
    requires forall k :: k in s ==> f(k) == g(k)
    ensures Sum(s, f) == Sum(s, g)
    decreases |s|
  {
    if s != {} {
      SumSame(s - {Least(s)}, f, g);
    }
  }

  lemma {:induction false} SumMonotone(s: set<nat>, f: nat -> int, g: nat -> int)
    requires forall k :: k in s ==> f(k) <= g(k)
    ensures Sum(s, f) <= Sum(s, g)
    decreases |s|
  {
    if s != {} {
      SumMonotone(s - {Least(s)}, f, g);
    }
  }

  /** Changing one key, which may be new, changes the sum by the difference at that key. */
  lemma SumAdd(s: set<nat>, k: nat, f: nat -> int, g: nat -> int)
    requires forall x :: x in s && x != k ==> f(x) == g(x)
    ensures Sum(s + {k}, g) == Sum(s, f) - (if k in s then f(k) else 0) + g(k)
  {
    SumRemove(s + {k}, k, g);
    SumSame(s - {k}, f, g);
    assert s + {k} - {k} == s - {k};
    if k in s {
      SumRemove(s, k, f);
    } else {
      assert s - {k} == s;
    }
  }

  lemma {:induction false} SumLinear(s: set<nat>, f: nat -> int, g: nat -> int, h: nat -> int)
    requires forall k :: k in s ==> h(k) == f(k) + g(k)
    ensures Sum(s, h) == Sum(s, f) + Sum(s, g)
    decreases |s|
  {
    if s != {} {
      SumLinear(s - {Least(s)}, f, g, h);
    }
  }

  lemma {:induction false} SumConstant(s: set<nat>, f: nat -> int, c: int)
    requires forall k :: k in s ==> f(k) == c
    ensures Sum(s, f) == c * |s|
    decreases |s|
  {
    if s != {} {
      SumConstant(s - {Least(s)}, f, c);
    }
  }

  lemma {:induction false} SubsetSize(a: set<nat>, b: set<nat>)
    requires a <= b
    ensures |a| <= |b|
  {
    if a != {} {
      var x :| x in a;
      SubsetSize(a - {x}, b - {x});
    }
  }

  lemma {:induction false} SizeBelow(s: set<nat>, n: nat)
    requires forall x :: x in s ==> x < n
    ensures |s| <= n
  {
    if n > 0 {
      SizeBelow(s - {n - 1}, n - 1);
    } else {
      assert s == {};
    }
  }
}
