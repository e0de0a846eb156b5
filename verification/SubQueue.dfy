/** The sub-queue object: its fields are changed in place, and each method is proved against SubQueueSpec. */
module SubQueues {
  import opened Options
  import opened OrderedKeys
  import opened Spec = SubQueueSpec

  /** Erase the pairs whose item satisfies f, walking from the back to the front. */
  method FilterListPairs<T>(l0: seq<Pair<T>>, f: T -> bool) returns (l: seq<Pair<T>>, ret: nat)
    ensures l == Kept(l0, f)
    ensures ret == |l0| - |l|
  {
    hide Kept;
    l, ret := l0, 0;
    var i := |l|;
    ghost var kept: seq<Pair<T>> := [];
    KeptNothing(f);
    assert l0[|l0|..] == [];
    while i != 0
      invariant 0 <= i <= |l0|
      invariant kept == Kept(l0[i..], f)
      invariant l == l0[..i] + kept
      invariant ret == |l0| - |l|
    {
      var next := i - 1;
      assert l0[next..] == [l0[next]] + l0[i..];
      KeptCons(l0[next], l0[i..], f);
      assert l[next] == l0[next];
      if f(l[next].item) {
        ret := ret + 1;
        EraseAt(l0, kept, i);
        l := l[..next] + l[next + 1..];
      } else {
        kept := [l0[next]] + kept;
        assert l0[..i] == l0[..next] + [l0[next]];
      }
      i := next;
    }
    assert l0[0..] == l0;
  }

  lemma KeptNothing<T>(f: T -> bool)
    ensures Kept([], f) == []
  {
  }

  lemma KeptCons<T>(pair: Pair<T>, l: seq<Pair<T>>, f: T -> bool)
    ensures Kept([pair] + l, f) == if f(pair.item) then Kept(l, f) else [pair] + Kept(l, f)
  {
    assert ([pair] + l)[1..] == l;
  }

  lemma EraseAt<T>(l0: seq<T>, kept: seq<T>, i: nat)
    requires 0 < i <= |l0|
    ensures var l := l0[..i] + kept; l[..i - 1] + l[i..] == l0[..i - 1] + kept
  {
  }

  class SubQueue<T> {
    var q: Classes<T>
    var tokens: nat
    var maxTokens: nat
    var size: int
    var cur: Option<Key>

    function View(): Sub<T>
      reads this
    {
      Sub(q, tokens, maxTokens, size, cur)
    }

    ghost predicate Valid()
      reads this
    {
      SubValid(View())
    }

    constructor ()
      ensures View() == Sub(map[], 0, 0, 0, None) && Valid()
    {
      q, tokens, maxTokens, size, cur := map[], 0, 0, 0, None;
    }

    constructor Of(s: Sub<T>)
      ensures View() == s
    {
      q, tokens, maxTokens, size, cur := s.q, s.tokens, s.maxTokens, s.size, s.cur;
    }

    method SetMaxTokens(mt: nat)
      requires mt < TWO32
      modifies this
      ensures View() == old(View()).(maxTokens := mt)
    {
      maxTokens := mt;
    }

    method PutTokens(t: nat)
      requires Valid() && t < TWO32
      modifies this
      ensures View() == Spec.PutTokens(old(View()), t) && Valid()
      ensures tokens == (old(tokens) + t) % 0x1_0000_0000 <= maxTokens
              || tokens == maxTokens < (old(tokens) + t) % 0x1_0000_0000
      ensures View() == old(View()).(tokens := tokens)
    {
      tokens := (tokens + t) % TWO32;
      if tokens > maxTokens {
        tokens := maxTokens;
      }
    }

    method TakeTokens(t: nat)
      requires Valid()
      modifies this
      ensures View() == Spec.TakeTokens(old(View()), t) && Valid()
      ensures if old(tokens) >= t then tokens + t == old(tokens) else tokens == 0
      ensures View() == old(View()).(tokens := tokens)
    {
      if tokens > t {
        tokens := tokens - t;
      } else {
        tokens := 0;
      }
    }

    method Enqueue(cl: Key, cost: nat, item: T)
      requires Valid()
      modifies this
      ensures View() == Spec.Enqueue(old(View()), cl, Pair(cost, item), false) && Valid()
    {
      EnqueueValid(View(), cl, Pair(cost, item), false);
      q := q[cl := ListAt(q, cl) + [Pair(cost, item)]];
      if cur == None {
        cur := CyclicCeil(q.Keys, 0);
      }
      size := size + 1;
    }

    method EnqueueFront(cl: Key, cost: nat, item: T)
      requires Valid()
      modifies this
      ensures View() == Spec.Enqueue(old(View()), cl, Pair(cost, item), true) && Valid()
    {
      EnqueueValid(View(), cl, Pair(cost, item), true);
      q := q[cl := [Pair(cost, item)] + ListAt(q, cl)];
      if cur == None {
        cur := CyclicCeil(q.Keys, 0);
      }
      size := size + 1;
    }

    method FrontPair() returns (p: Pair<T>)
      requires Valid() && q != map[]
      ensures p == Front(View())
    {
      p := q[cur.value][0];
    }

    method PopFront()
      requires Valid() && q != map[]
      modifies this
      ensures View() == Spec.PopFront(old(View())) && Valid()
    {
      hide TotalOf, Ceil, Least;
      PopFrontValid(View());
      var c := cur.value;
      ghost var q0, l := q, q[c][1..];
      q := q[c := q[c][1..]];
      cur := Ceil(q.Keys, c + 1);
      if q[c] == [] {
        CeilWithout(q.Keys, c, c + 1);
        q := q - {c};
        assert q == q0 - {c};
      }
      Wrap(q, c + 1);
      if cur == None && q != map[] {
        cur := Some(Least(q.Keys));
      }
      size := size - 1;
    }

    method RemoveByFilter(f: T -> bool)
      requires Valid()
      modifies this
      ensures View() == Spec.RemoveByFilter(old(View()), f) && Valid()
    {
      hide Ceil, CyclicCeil, TotalOf, Above, Kept, KeptClasses, PartlyKept, SubValid, Least;
      RemoveByFilterValid(View(), f);
      ghost var q0, size0, c := q, size, cur;
      ghost var lo := 0;
      FilterStart(View(), f);
      var i := Ceil(q.Keys, 0);
      while i.Some?
        invariant i == Ceil(q.Keys, lo)
        invariant PartlyKept(q0, q, f, lo)
        invariant cur == if c.None? then None else Ceil(q.Keys, c.value)
        invariant size == size0 - (TotalOf(q0) - TotalOf(q))
        invariant tokens == old(tokens) && maxTokens == old(maxTokens)
        decreases |Above(q0.Keys, lo)|
      {
        var k := i.value;
        FilterStep(q0, q, f, lo, k, c);
        var l, n := FilterListPairs(q[k], f);
        size := size - n;
        q := q[k := l];
        i := Ceil(q.Keys, k + 1);
        if q[k] == [] {
          if cur == Some(k) {
            cur := Ceil(q.Keys, k + 1);
          }
          q := q - {k};
        }
        lo := k + 1;
      }
      FilterDone(q0, q, f, lo);
      Wrap(q, if c.None? then 0 else c.value);
      if cur == None && q != map[] {
        cur := Some(Least(q.Keys));
      }
    }

    method RemoveByClass(k: Key, out: Option<seq<T>>) returns (out': Option<seq<T>>)
      requires Valid()
      modifies this
      ensures View() == Spec.RemoveByClass(old(View()), k) && Valid()
      ensures out' == PushedFront(Items(ListAt(old(q), k)), out)
      ensures out.None? ==> out'.None?
      ensures out.Some? ==> out'.Some? && out'.value == Items(ListAt(old(q), k)) + out.value
      ensures q == old(q) - {k} && tokens == old(tokens) && maxTokens == old(maxTokens)
    {
      hide TotalOf, Items;
      RemoveByClassValid(View(), k);
      out' := out;
      if k !in q {
        ItemsOfNothing<T>();
        PushedNothing(out);
        return;
      }
      ghost var q0, c := q, cur;
      size := size - |q[k]|;
      if cur == Some(k) {
        cur := Ceil(q.Keys, k + 1);
      }
      if out.Some? {
        var pushed := PushAllFront(q[k], out.value);
        out' := Some(pushed);
      }
      CeilAfterErase(q.Keys, k, c.value);
      q := q - {k};
      Wrap(q, c.value);
      if cur == None && q != map[] {
        cur := Some(Least(q.Keys));
      }
    }
  }

  /** Push the items on the front of out, last item first. */
  method PushAllFront<T>(l: seq<Pair<T>>, out: seq<T>) returns (out': seq<T>)
    ensures out' == Items(l) + out
  {
    out' := out;
    var j := |l|;
    while j != 0
      invariant 0 <= j <= |l|
      invariant out' == Items(l[j..]) + out
    {
      j := j - 1;
      assert Items(l[j..]) == [l[j].item] + Items(l[j + 1..]);
      out' := [l[j].item] + out';
    }
    assert l[0..] == l;
  }

  /** Moving a cursor from end() to begin() completes the cyclic search. */
  lemma Wrap<T>(q: Classes<T>, lo: Key)
    ensures CyclicCeil(q.Keys, lo)
            == if Ceil(q.Keys, lo) == None && q != map[] then Some(Least(q.Keys)) else Ceil(q.Keys, lo)
  {
    EmptyMap(q);
  }

  lemma CeilWithout(s: set<Key>, c: Key, lo: Key)
    requires c < lo
    ensures Ceil(s - {c}, lo) == Ceil(s, lo)
  {
    CeilUnique(s - {c}, lo, Ceil(s, lo));
  }

  lemma CeilUnique(s: set<Key>, lo: Key, r: Option<Key>)
    requires r.None? ==> forall x :: x in s ==> x < lo
    requires r.Some? ==> r.value in s && r.value >= lo && forall x :: x in s && x >= lo ==> r.value <= x
    ensures r == Ceil(s, lo)
  {
  }

  /** Erasing the key a cursor rests on: the cursor must move to the next key, any other erasure leaves it. */
  lemma CeilAfterErase(s: set<Key>, k: Key, c: Key)
    requires k in s
    ensures Ceil(s - {k}, c) == if Ceil(s, c) == Some(k) then Ceil(s, k + 1) else Ceil(s, c)
  {
    CeilUnique(s - {k}, c, if Ceil(s, c) == Some(k) then Ceil(s, k + 1) else Ceil(s, c));
  }

  lemma FilterStart<T>(s: Sub<T>, f: T -> bool)
    requires SubValid(s)
    ensures PartlyKept(s.q, s.q, f, 0)
    ensures s.cur == if s.cur.None? then None else Ceil(s.q.Keys, s.cur.value)
    ensures s.cur.None? ==> s.q == map[]
  {
    if s.cur.Some? {
      CeilUnique(s.q.Keys, s.cur.value, s.cur);
    }
  }

  /** Treating the first class at or after lo, whether it is then erased or not. */
  lemma FilterStep<T>(q0: Classes<T>, q: Classes<T>, f: T -> bool, lo: Key, k: Key, c: Option<Key>)
    requires PartlyKept(q0, q, f, lo) && Ceil(q.Keys, lo) == Some(k)
    ensures k in q
    ensures var l := Kept(q[k], f);
            var q1 := q[k := l];
            var q' := if l == [] then q1 - {k} else q1;
            && PartlyKept(q0, q', f, k + 1)
            && TotalOf(q') == TotalOf(q) - |q[k]| + |l|
            && Ceil(q'.Keys, k + 1) == Ceil(q1.Keys, k + 1)
            && (c.Some? ==> Ceil(q'.Keys, c.value) == if l == [] && Ceil(q.Keys, c.value) == Some(k)
                                                      then Ceil(q1.Keys, k + 1) else Ceil(q.Keys, c.value))
    ensures |Above(q0.Keys, k + 1)| < |Above(q0.Keys, lo)|
  {
    hide Ceil, TotalOf, Above, Kept;
    var l := Kept(q[k], f);
    var q1 := q[k := l];
    assert q1.Keys == q.Keys;
    assert q1 - {k} == q - {k};
    assert (q - {k}).Keys == q.Keys - {k};
    TotalSet(q, k, l);
    TotalErase(q, k);
    CeilWithout(q.Keys, k, k + 1);
    if c.Some? {
      CeilAfterErase(q.Keys, k, c.value);
    }
    AboveShrinks(q0.Keys, lo, k);
  }

  lemma FilterDone<T>(q0: Classes<T>, q: Classes<T>, f: T -> bool, lo: Key)
    requires PartlyKept(q0, q, f, lo) && Ceil(q.Keys, lo) == None
    ensures q == KeptClasses(q0, f)
  {
  }

  ghost function Above(s: set<Key>, lo: Key): set<Key> {
    set x | x in s && x >= lo
  }

  lemma AboveShrinks(s: set<Key>, lo: Key, k: Key)
    requires k in s && k >= lo
    ensures |Above(s, k + 1)| < |Above(s, lo)|
  {
    SubsetSmaller(Above(s, k + 1), Above(s, lo), k);
  }

  lemma SubsetSmaller(a: set<Key>, b: set<Key>, k: Key)
    requires a <= b && k in b && k !in a
    ensures |a| < |b|
  {
    SubsetSize(a, b - {k});
  }

  /** The filter loop has treated the classes below lo and not touched the others. */
  ghost predicate PartlyKept<T>(q0: Classes<T>, q: Classes<T>, f: T -> bool, lo: Key) {
    && (forall k :: k in q <==> k in q0 && (k < lo ==> Kept(q0[k], f) != []))
    && (forall k :: k in q ==> q[k] == if k < lo then Kept(q0[k], f) else q0[k])
  }
}
