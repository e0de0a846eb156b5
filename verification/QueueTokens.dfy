/** Token accounting of the weighted tier: the sum of one distribution, and how long a sub-queue can be passed over. */
module QueueTokens {
  import opened Arithmetic
  import opened OrderedKeys
  import opened SubQueueSpec
  import opened PrioritizedQueueSpec

  // ---- one distribution ----

  ghost function Grants(keys: set<nat>, cost: nat, total: int): int
    requires total > 0
  {
    Sum(keys, (p: nat) => Grant(p, cost, total))
  }

  /** No 32-bit product of a priority with the cost wraps around. */
  ghost predicate NoWrap(keys: set<nat>, cost: nat) {
    forall p :: p in keys ==> p * cost < TWO32
  }

  /** A grant is positive, and total times the grant lies within one total above the share p * cost. */
  lemma GrantBounds(p: nat, cost: nat, total: int)
    requires total > 0 && p <= total
    requires p * cost < TWO32 && cost + 1 < TWO32
    ensures p * cost < total * Grant(p, cost, total) <= p * cost + total
    ensures 1 <= Grant(p, cost, total) <= cost + 1
  {
    Divided(p * cost, total);
    ShareAtMostCost(p, cost, total);
    GrantOf(p * cost, p, cost, total);
  }

  lemma GrantOf(x: nat, p: nat, cost: nat, total: int)
    requires total > 0 && x == p * cost
    ensures x < TWO32 && x / total + 1 < TWO32 ==> Grant(p, cost, total) == x / total + 1
    ensures 0 <= Grant(p, cost, total) <= (x % TWO32) / total + 1
  {
    QuotientNotNegative(x, total);
    QuotientNotNegative(x % TWO32, total);
    WrapAtMost((x % TWO32) / total + 1);
  }

  lemma WrapAtMost(y: nat)
    ensures 0 <= y % TWO32 <= y && (y < TWO32 ==> y % TWO32 == y)
  {
  }

  lemma QuotientAtMost(x: nat, d: int, b: int)
    requires d > 0 && x < d * (b + 1)
    ensures x / d <= b
  {
    var q := x / d;
    Divided(x, d);
    if q >= b + 1 {
      TimesLe(b + 1, q, d);
      assert false;
    }
  }

  lemma ShareAtMostCost(p: nat, cost: nat, total: int)
    requires 0 <= p <= total && total > 0
    ensures 0 <= (p * cost) / total <= cost
  {
    TimesLe(p, total, cost);
    QuotientAtMost(p * cost, total, cost);
  }

  /** The upper bound needs no assumption: wrapping only makes a grant smaller. */
  lemma GrantUpper(p: nat, cost: nat, total: int)
    requires total > 0
    ensures total * Grant(p, cost, total) <= p * cost + total
  {
    hide Grant;
    var w := (p * cost) % TWO32;
    GrantOf(p * cost, p, cost, total);
    Divided(w, total);
    TimesLe(Grant(p, cost, total), w / total + 1, total);
  }

  lemma {:induction false} GrantsAtMost(keys: set<nat>, cost: nat, total: int)
    requires total > 0
    ensures total * Grants(keys, cost, total) <= cost * Sum(keys, Identity()) + total * |keys|
    decreases |keys|
  {
    if keys != {} {
      var p := Least(keys);
      GrantUpper(p, cost, total);
      GrantsAtMost(keys - {p}, cost, total);
      Distribute3(cost, p, Sum(keys - {p}, Identity()), total, Grant(p, cost, total), Grants(keys - {p}, cost, total),
        |keys| - 1);
    }
  }

  /** Summing the lower bounds over a set of priorities. */
  lemma {:induction false} GrantsMoreThan(keys: set<nat>, cost: nat, total: int)
    requires total > 0 && cost + 1 < TWO32 && NoWrap(keys, cost) && forall p :: p in keys ==> p <= total
    ensures cost * Sum(keys, Identity()) <= total * Grants(keys, cost, total)
    ensures keys != {} ==> cost * Sum(keys, Identity()) < total * Grants(keys, cost, total)
    decreases |keys|
  {
    if keys != {} {
      var p := Least(keys);
      GrantBounds(p, cost, total);
      GrantsMoreThan(keys - {p}, cost, total);
      Distribute3(cost, p, Sum(keys - {p}, Identity()), total, Grant(p, cost, total), Grants(keys - {p}, cost, total),
        |keys| - 1);
    }
  }

  lemma Distribute3(cost: int, p: int, s: int, total: int, g: int, gs: int, n: int)
    ensures cost * (p + s) == p * cost + cost * s
    ensures total * (g + gs) == total * g + total * gs
    ensures total * (n + 1) == total * n + total
  {
  }

  lemma {:induction false} KeyAtMostSum(keys: set<nat>, p: nat)
    requires p in keys
    ensures p <= Sum(keys, Identity())
  {
    SumRemove(keys, p, Identity());
    SumIdentityNonNegative(keys - {p});
  }

  /** One distribution never offers more than the cost and one token per sub-queue, wrapping or not; it offers more
      than the cost if no product wraps. */
  lemma DistributionBound<T>(pq: PQ<T>, cost: nat)
    requires PQValid(pq) && pq.total > 0
    ensures Grants(pq.normal.Keys, cost, pq.total) <= cost + |pq.normal|
    ensures cost + 1 < TWO32 && NoWrap(pq.normal.Keys, cost) ==> cost < Grants(pq.normal.Keys, cost, pq.total)
  {
    hide Stored, Sum, Grants, NoWrap;
    var keys := pq.normal.Keys;
    GrantsAtMost(keys, cost, pq.total);
    CancelUpper(pq.total, cost, Grants(keys, cost, pq.total), |keys|);
    if cost + 1 < TWO32 && NoWrap(keys, cost) {
      forall p | p in keys
        ensures p <= pq.total
      {
        KeyAtMostSum(keys, p);
      }
      SumOfNothing();
      GrantsMoreThan(keys, cost, pq.total);
      CancelLower(pq.total, cost, Grants(keys, cost, pq.total));
    }
  }

  lemma SumOfNothing()
    ensures Sum({}, Identity()) == 0
  {
  }

  lemma CancelLower(total: int, cost: int, g: int)
    requires total > 0 && cost * total < total * g
    ensures cost < g
  {
  }

  lemma GrantWrapped(p: nat, cost: nat, total: int)
    requires total > 0 && p * cost >= TWO32
    ensures total * Grant(p, cost, total) <= p * cost - TWO32 + total
  {
    hide Grant;
    var w := (p * cost) % TWO32;
    GrantOf(p * cost, p, cost, total);
    Divided(w, total);
    TimesLe(Grant(p, cost, total), w / total + 1, total);
    ReducedOnce(p * cost);
  }

  lemma ReducedOnce(x: nat)
    requires x >= TWO32
    ensures x % TWO32 <= x - TWO32
  {
  }

  /** One product that wraps takes 2^32 off the sum of the shares. */
  lemma WrapCosts(keys: set<nat>, p: nat, cost: nat, total: int)
    requires total > 0 && p in keys && p * cost >= TWO32
    ensures total * Grants(keys, cost, total) <= cost * Sum(keys, Identity()) + total * |keys| - TWO32
  {
    hide Sum, Grant;
    var rest := keys - {p};
    GrantWrapped(p, cost, total);
    GrantsAtMost(rest, cost, total);
    SumRemove(keys, p, Identity());
    SumRemove(keys, p, (q: nat) => Grant(q, cost, total));
    Distribute3(cost, p, Sum(rest, Identity()), total, Grant(p, cost, total), Grants(rest, cost, total), |rest|);
  }

  /** With few enough priorities, as in the dispatch queue, one distribution offers more than the cost if and only if
      no product wraps. */
  lemma DistributionExactly<T>(pq: PQ<T>, cost: nat)
    requires PQValid(pq) && pq.total > 0 && cost + 1 < TWO32 && pq.total * |pq.normal| <= TWO32
    ensures cost < Grants(pq.normal.Keys, cost, pq.total) <==> NoWrap(pq.normal.Keys, cost)
  {
    hide Stored, Sum, Grants;
    if NoWrap(pq.normal.Keys, cost) {
      DistributionBound(pq, cost);
    } else {
      var p :| p in pq.normal.Keys && p * cost >= TWO32;
      WrapCosts(pq.normal.Keys, p, cost, pq.total);
      AtMost(pq.total, cost, Grants(pq.normal.Keys, cost, pq.total));
    }
  }

  lemma AtMost(total: int, cost: int, g: int)
    requires total > 0 && total * g <= cost * total
    ensures g <= cost
  {
  }

  /** An input that wraps: one sub-queue of priority 2^31, and cost 2. */
  lemma WrappedGrants()
    ensures Grants({0x8000_0000}, 2, 0x8000_0000) == 1
  {
    var f := (p: nat) => Grant(p, 2, 0x8000_0000);
    SumRemove({0x8000_0000}, 0x8000_0000, f);
    assert {0x8000_0000} - {0x8000_0000} == {};
    assert Grants({0x8000_0000}, 2, 0x8000_0000) == Sum({0x8000_0000}, f);
  }

  // ---- the tokens held ----

  ghost function TokensOf<T>(subs: Subs<T>): nat -> int {
    (p: nat) => if p in subs then subs[p].tokens else 0
  }

  ghost function HeldTokens<T>(subs: Subs<T>): int {
    Sum(subs.Keys, TokensOf(subs))
  }

  lemma PutAtMost<T>(s: Sub<T>, t: nat)
    ensures PutTokens(s, t).tokens <= s.tokens + t
  {
  }

  lemma DistributeGain<T>(pq: PQ<T>, cost: nat)
    requires PQValid(pq)
    ensures HeldTokens(Distribute(pq, cost).normal)
            <= HeldTokens(pq.normal) + if pq.total > 0 then Grants(pq.normal.Keys, cost, pq.total) else 0
  {
    hide Sum, PQValid, Grant, PutTokens;
    var after := Distribute(pq, cost).normal;
    if pq.total > 0 {
      var keys := pq.normal.Keys;
      assert after.Keys == keys;
      var grant := (p: nat) => Grant(p, cost, pq.total);
      var both := (p: nat) => TokensOf(pq.normal)(p) + Grant(p, cost, pq.total);
      SumLinear(keys, TokensOf(pq.normal), grant, both);
      forall p | p in keys
        ensures TokensOf(after)(p) <= both(p)
      {
        PutAtMost(pq.normal[p], Grant(p, cost, pq.total));
      }
      SumMonotone(keys, TokensOf(after), both);
    }
  }

  lemma HeldAfter<T>(subs: Subs<T>, p: nat, s: Sub<T>)
    requires p in subs
    ensures HeldTokens(subs[p := s]) == HeldTokens(subs) - subs[p].tokens + s.tokens
    ensures HeldTokens(subs - {p}) == HeldTokens(subs) - subs[p].tokens
  {
    hide Sum;
    assert subs[p := s].Keys == subs.Keys + {p} == subs.Keys;
    SumAdd(subs.Keys, p, TokensOf(subs), TokensOf(subs[p := s]));
    assert (subs - {p}).Keys == subs.Keys - {p};
    SumSame(subs.Keys - {p}, TokensOf(subs), TokensOf(subs - {p}));
    SumRemove(subs.Keys, p, TokensOf(subs));
  }

  /** A dequeue paid for with tokens debits exactly the cost, and raises the tokens held by all sub-queues by at most
      one per sub-queue. No assumption on the magnitudes is needed. */
  lemma PaidDequeueGain<T>(pq: PQ<T>)
    requires PQValid(pq) && !Empty(pq) && Choice(pq).paid
    ensures var s := Chosen(pq); PaidFor(s, Front(s).cost).tokens == s.tokens - Front(s).cost
    ensures HeldTokens(Dequeue(pq).normal) <= HeldTokens(pq.normal) + |pq.normal|
  {
    hide Sum, PQValid, SubValid, PopFront, Front, Grants, HeldTokens;
    var c, s := Choice(pq), Chosen(pq);
    var cost := Front(s).cost;
    var mid := TakeNormal(pq, c.priority, true);
    TakeNormalValid(pq, c.priority, true);
    HeldAfter(pq.normal, c.priority, PopFront(PaidFor(s, cost)));
    PopKeepsTokens(PaidFor(s, cost));
    DistributeGain(mid, cost);
    FewerKeys(pq.normal, c.priority, PopFront(PaidFor(s, cost)));
    if mid.total > 0 {
      GrantsAtMost(mid.normal.Keys, cost, mid.total);
      TotalIsSum(mid);
      CancelUpper(mid.total, cost, Grants(mid.normal.Keys, cost, mid.total), |mid.normal.Keys|);
    }
  }

  lemma CancelUpper(total: int, cost: int, g: int, n: int)
    requires total > 0 && total * g <= cost * total + total * n
    ensures g <= cost + n
  {
  }

  lemma PopKeepsTokens<T>(s: Sub<T>)
    requires SubValid(s) && s.q != map[]
    ensures PopFront(s).tokens == s.tokens && PopFront(s).maxTokens == s.maxTokens
  {
  }

  lemma FewerKeys<T>(subs: Subs<T>, p: nat, s: Sub<T>)
    requires p in subs
    ensures |subs[p := s].Keys| == |subs.Keys| == |subs| && |(subs - {p}).Keys| <= |subs|
  {
    assert subs[p := s].Keys == subs.Keys;
    assert (subs - {p}).Keys == subs.Keys - {p};
  }
}
