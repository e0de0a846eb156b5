/** The value of the two-tier prioritized queue (prioritizedqueue.h), what each operation does to it, and the invariant
    every operation keeps. Unsigned 32-bit products and sums wrap as in the source. */
module PrioritizedQueueSpec {
  import opened Options
  import opened OrderedKeys
  import opened SubQueueSpec

  type Subs<T> = map<nat, Sub<T>>

  datatype PQ<T> = PQ(high: Subs<T>, normal: Subs<T>, total: int, maxPer: nat, minCost: nat)

  function Clamp(cost: nat, minCost: nat, maxPer: nat): (r: nat)
    ensures (if minCost <= maxPer then minCost else maxPer) <= r <= maxPer
    ensures minCost <= cost <= maxPer ==> r == cost
    ensures cost <= minCost <= maxPer ==> r == minCost
    ensures cost >= maxPer || minCost > maxPer ==> r == maxPer
  {
    var c := if cost < minCost then minCost else cost;
    if c > maxPer then maxPer else c
  }

  /** The least cost that a queued item can have. */
  function LowestCost<T>(pq: PQ<T>): nat {
    if pq.minCost <= pq.maxPer then pq.minCost else pq.maxPer
  }

  ghost predicate CostsWithin<T>(q: Classes<T>, low: nat, high: nat) {
    forall k, i :: k in q && 0 <= i < |q[k]| ==> low <= q[k][i].cost <= high
  }

  /** A stored sub-queue: consistent, not empty, with the tier's token limit, and costs within it and not too low. */
  ghost predicate Stored<T>(s: Sub<T>, low: nat, maxTokens: nat) {
    SubValid(s) && s.q != map[] && s.maxTokens == maxTokens && CostsWithin(s.q, low, maxTokens)
  }

  ghost function Identity(): nat -> int {
    (p: nat) => p
  }

  /** The representation invariant. */
  ghost predicate PQValid<T>(pq: PQ<T>) {
    && pq.maxPer < TWO32 && pq.minCost < TWO32
    && (forall p :: p in pq.high ==> p < TWO32 && Stored(pq.high[p], 0, 0))
    && (forall p :: p in pq.normal ==> p < TWO32 && Stored(pq.normal[p], LowestCost(pq), pq.maxPer))
    && pq.total == Sum(pq.normal.Keys, Identity())
  }

  ghost predicate Empty<T>(pq: PQ<T>) {
    pq.high == map[] && pq.normal == map[]
  }

  function NewSub<T>(maxTokens: nat): Sub<T> {
    Sub(map[], 0, maxTokens, 0, None)
  }

  function SubAt<T>(subs: Subs<T>, p: nat, maxTokens: nat): Sub<T> {
    if p in subs then subs[p] else NewSub(maxTokens)
  }

  ghost function EnqueueStrict<T>(pq: PQ<T>, k: Key, p: nat, item: T, front: bool): PQ<T> {
    pq.(high := pq.high[p := Enqueue(SubAt(pq.high, p, 0), k, Pair(0, item), front)])
  }

  ghost function EnqueueNormal<T>(pq: PQ<T>, k: Key, p: nat, cost: nat, item: T, front: bool): PQ<T> {
    var pair := Pair(Clamp(cost, pq.minCost, pq.maxPer), item);
    pq.(normal := pq.normal[p := Enqueue(SubAt(pq.normal, p, pq.maxPer), k, pair, front)],
        total := if p in pq.normal then pq.total else pq.total + p)
  }

  /** Store a sub-queue back, or drop it when it has become empty. */
  ghost function PutBackHigh<T>(pq: PQ<T>, p: nat, s: Sub<T>): PQ<T> {
    if s.q == map[] then pq.(high := pq.high - {p}) else pq.(high := pq.high[p := s])
  }

  ghost function PutBackNormal<T>(pq: PQ<T>, p: nat, s: Sub<T>): PQ<T> {
    if s.q == map[] then pq.(normal := pq.normal - {p}, total := pq.total - p) else pq.(normal := pq.normal[p := s])
  }

  /** The tokens one distribution offers to the sub-queue of priority p. */
  function Grant(p: nat, cost: nat, total: int): nat
    requires total > 0
  {
    (((p * cost) % TWO32) / total + 1) % TWO32
  }

  ghost function Distribute<T>(pq: PQ<T>, cost: nat): PQ<T> {
    if pq.total <= 0 then pq
    else pq.(normal := map p | p in pq.normal :: PutTokens(pq.normal[p], Grant(p, cost, pq.total)))
  }

  /** The sub-queues whose head costs less than the tokens they hold. */
  ghost function Eligible<T>(subs: Subs<T>): set<nat>
    requires forall p :: p in subs ==> SubValid(subs[p]) && subs[p].q != map[]
  {
    set p | p in subs && Front(subs[p]).cost < subs[p].tokens
  }

  /** Where the next item comes from: (strict tier?, priority, paid for with tokens?). */
  datatype Source = Source(strict: bool, priority: nat, paid: bool)

  ghost function Choice<T>(pq: PQ<T>): (c: Source)
    requires PQValid(pq) && !Empty(pq)
    ensures c.priority in (if c.strict then pq.high else pq.normal)
    ensures c.paid ==> !c.strict && Front(pq.normal[c.priority]).cost < pq.normal[c.priority].tokens
  {
    if pq.high != map[] then
      assert pq.high.Keys != {};
      Source(true, Greatest(pq.high.Keys), false)
    else if Eligible(pq.normal) != {} then
      Source(false, Least(Eligible(pq.normal)), true)
    else
      assert pq.normal.Keys != {};
      Source(false, Greatest(pq.normal.Keys), false)
  }

  ghost function Chosen<T>(pq: PQ<T>): (s: Sub<T>)
    requires PQValid(pq) && !Empty(pq)
    ensures SubValid(s) && s.q != map[]
  {
    var c := Choice(pq);
    if c.strict then pq.high[c.priority] else pq.normal[c.priority]
  }

  ghost function Dequeued<T>(pq: PQ<T>): T
    requires PQValid(pq) && !Empty(pq)
  {
    Front(Chosen(pq)).item
  }

  ghost function Dequeue<T>(pq: PQ<T>): PQ<T>
    requires PQValid(pq) && !Empty(pq)
  {
    var c, s := Choice(pq), Chosen(pq);
    if c.strict then PutBackHigh(pq, c.priority, PopFront(s))
    else
      Distribute(TakeNormal(pq, c.priority, c.paid), Front(s).cost)
  }

  /** Take the head of a weighted sub-queue, paying its cost from the tokens or not. */
  ghost function TakeNormal<T>(pq: PQ<T>, p: nat, paid: bool): PQ<T>
    requires PQValid(pq) && p in pq.normal
  {
    var s := pq.normal[p];
    PutBackNormal(pq, p, PopFront(if paid then PaidFor(s, Front(s).cost) else s))
  }

  ghost function PaidFor<T>(s: Sub<T>, cost: nat): (r: Sub<T>)
    requires SubValid(s)
    ensures SubValid(r) && r.q == s.q
  {
    TokensValid(s, cost);
    TakeTokens(s, cost)
  }

  ghost function NonEmpty<T>(subs: Subs<T>): Subs<T> {
    map p | p in subs && subs[p].q != map[] :: subs[p]
  }

  /** Apply a removal to every sub-queue and drop those it empties. */
  ghost function Sift<T>(pq: PQ<T>, high: Subs<T>, normal: Subs<T>): PQ<T> {
    var h, n := NonEmpty(high), NonEmpty(normal);
    pq.(high := h, normal := n, total := Sum(n.Keys, Identity()))
  }

  ghost function Filtered<T>(subs: Subs<T>, f: T -> bool): Subs<T> {
    map p | p in subs :: SubQueueSpec.RemoveByFilter(subs[p], f)
  }

  ghost function WithoutClass<T>(subs: Subs<T>, k: Key): Subs<T> {
    map p | p in subs :: SubQueueSpec.RemoveByClass(subs[p], k)
  }

  ghost function RemoveByFilter<T>(pq: PQ<T>, f: T -> bool): PQ<T> {
    Sift(pq, Filtered(pq.high, f), Filtered(pq.normal, f))
  }

  ghost function RemoveByClass<T>(pq: PQ<T>, k: Key): PQ<T> {
    Sift(pq, WithoutClass(pq.high, k), WithoutClass(pq.normal, k))
  }

  /** The items of class k, highest priority first, each list in queue order. */
  ghost function ClassItems<T>(subs: Subs<T>, k: Key): seq<T>
    decreases |subs|
  {
    if subs.Keys == {} then []
    else
      var p := Greatest(subs.Keys);
      Items(ListAt(subs[p].q, k)) + ClassItems(subs - {p}, k)
  }

  // ---- every operation keeps the invariant ----

  lemma StoredEnqueue<T>(s: Sub<T>, low: nat, m: nat, k: Key, pair: Pair<T>, front: bool)
    requires SubValid(s) && s.maxTokens == m && CostsWithin(s.q, low, m) && low <= pair.cost <= m
    ensures Stored(Enqueue(s, k, pair, front), low, m)
  {
    EnqueueValid(s, k, pair, front);
  }

  lemma StoredPop<T>(s: Sub<T>, low: nat, m: nat)
    requires Stored(s, low, m)
    ensures SubValid(PopFront(s)) && (PopFront(s).q != map[] ==> Stored(PopFront(s), low, m))
  {
    PopFrontValid(s);
  }

  lemma StoredTokens<T>(s: Sub<T>, low: nat, m: nat, t: nat)
    requires Stored(s, low, m)
    ensures Stored(PutTokens(s, t), low, m) && Stored(TakeTokens(s, t), low, m)
  {
    TokensValid(s, t);
  }

  lemma {:induction false} KeptAmong<T>(l: seq<Pair<T>>, f: T -> bool, low: nat, high: nat)
    requires forall i :: 0 <= i < |l| ==> low <= l[i].cost <= high
    ensures forall i :: 0 <= i < |Kept(l, f)| ==> low <= Kept(l, f)[i].cost <= high
  {
    if l != [] {
      KeptAmong(l[1..], f, low, high);
    }
  }

  lemma StoredFilter<T>(s: Sub<T>, low: nat, m: nat, f: T -> bool)
    requires Stored(s, low, m)
    ensures SubValid(SubQueueSpec.RemoveByFilter(s, f))
    ensures SubQueueSpec.RemoveByFilter(s, f).q != map[] ==> Stored(SubQueueSpec.RemoveByFilter(s, f), low, m)
  {
    SubQueueSpec.RemoveByFilterValid(s, f);
    forall k | k in s.q
      ensures forall i :: 0 <= i < |Kept(s.q[k], f)| ==> low <= Kept(s.q[k], f)[i].cost <= m
    {
      KeptAmong(s.q[k], f, low, m);
    }
  }

  lemma StoredRemoveClass<T>(s: Sub<T>, low: nat, m: nat, k: Key)
    requires Stored(s, low, m)
    ensures SubValid(SubQueueSpec.RemoveByClass(s, k))
    ensures SubQueueSpec.RemoveByClass(s, k).q != map[] ==> Stored(SubQueueSpec.RemoveByClass(s, k), low, m)
  {
    SubQueueSpec.RemoveByClassValid(s, k);
  }

  lemma SumIdentityAdd(keys: set<nat>, p: nat)
    ensures Sum(keys + {p}, Identity()) == Sum(keys, Identity()) + (if p in keys then 0 else p)
    ensures Sum(keys - {p}, Identity()) == Sum(keys, Identity()) - (if p in keys then p else 0)
  {
    SumAdd(keys, p, Identity(), Identity());
    if p in keys {
      SumRemove(keys, p, Identity());
    } else {
      assert keys - {p} == keys;
    }
  }

  lemma StoredAfterEnqueue<T>(subs: Subs<T>, p: nat, low: nat, m: nat, k: Key, pair: Pair<T>, front: bool)
    requires m < TWO32 && low <= pair.cost <= m
    requires p in subs ==> Stored(subs[p], low, m)
    ensures Stored(Enqueue(SubAt(subs, p, m), k, pair, front), low, m)
  {
    hide Enqueue;
    StoredEnqueue(SubAt(subs, p, m), low, m, k, pair, front);
  }

  lemma {:induction false} SumIdentityNonNegative(keys: set<nat>)
    ensures Sum(keys, Identity()) >= 0
    decreases |keys|
  {
    if keys != {} {
      SumIdentityNonNegative(keys - {Least(keys)});
    }
  }

  lemma TotalIsSum<T>(pq: PQ<T>)
    requires PQValid(pq)
    ensures pq.total == Sum(pq.normal.Keys, Identity())
  {
  }

  lemma TotalNonNegative<T>(pq: PQ<T>)
    requires PQValid(pq)
    ensures pq.total >= 0
  {
    SumIdentityNonNegative(pq.normal.Keys);
  }

  lemma EnqueueStrictValid<T>(pq: PQ<T>, k: Key, p: nat, item: T, front: bool)
    requires PQValid(pq) && p < TWO32
    ensures PQValid(EnqueueStrict(pq, k, p, item, front))
  {
    hide Stored, Enqueue, Sum, SubAt;
    StoredAfterEnqueue(pq.high, p, 0, 0, k, Pair(0, item), front);
  }

  lemma EnqueueNormalValid<T>(pq: PQ<T>, k: Key, p: nat, cost: nat, item: T, front: bool)
    requires PQValid(pq) && p < TWO32
    ensures PQValid(EnqueueNormal(pq, k, p, cost, item, front))
  {
    hide Stored, Enqueue, Sum, SubAt;
    var pair := Pair(Clamp(cost, pq.minCost, pq.maxPer), item);
    StoredAfterEnqueue(pq.normal, p, LowestCost(pq), pq.maxPer, k, pair, front);
    SumIdentityAdd(pq.normal.Keys, p);
    assert EnqueueNormal(pq, k, p, cost, item, front).normal.Keys == pq.normal.Keys + {p};
  }

  lemma PutBackValid<T>(pq: PQ<T>, p: nat, s: Sub<T>)
    requires PQValid(pq)
    ensures p in pq.high && (s.q != map[] ==> Stored(s, 0, 0)) ==> PQValid(PutBackHigh(pq, p, s))
    ensures p in pq.normal && (s.q != map[] ==> Stored(s, LowestCost(pq), pq.maxPer)) ==>
              PQValid(PutBackNormal(pq, p, s))
  {
    hide Stored, Sum;
    if p in pq.normal {
      SumIdentityAdd(pq.normal.Keys, p);
      assert (pq.normal - {p}).Keys == pq.normal.Keys - {p};
      assert pq.normal[p := s].Keys == pq.normal.Keys;
    }
  }

  lemma DistributeValid<T>(pq: PQ<T>, cost: nat)
    requires PQValid(pq)
    ensures PQValid(Distribute(pq, cost))
  {
    hide Stored, PutTokens, Grant, Sum;
    if pq.total > 0 {
      forall p | p in pq.normal
        ensures Stored(PutTokens(pq.normal[p], Grant(p, cost, pq.total)), LowestCost(pq), pq.maxPer)
      {
        StoredTokens(pq.normal[p], LowestCost(pq), pq.maxPer, Grant(p, cost, pq.total));
      }
      assert Distribute(pq, cost).normal.Keys == pq.normal.Keys;
    }
  }

  lemma DequeueValid<T>(pq: PQ<T>)
    requires PQValid(pq) && !Empty(pq)
    ensures PQValid(Dequeue(pq))
  {
    var c, s := Choice(pq), Chosen(pq);
    if c.strict {
      StoredPop(s, 0, 0);
      PutBackValid(pq, c.priority, PopFront(s));
    } else {
      TakeNormalValid(pq, c.priority, c.paid);
      DistributeValid(TakeNormal(pq, c.priority, c.paid), Front(s).cost);
    }
  }

  lemma TakeNormalValid<T>(pq: PQ<T>, p: nat, paid: bool)
    requires PQValid(pq) && p in pq.normal
    ensures PQValid(TakeNormal(pq, p, paid)) && Front(pq.normal[p]).cost <= pq.maxPer
  {
    var s := pq.normal[p];
    var cost := Front(s).cost;
    StoredTokens(s, LowestCost(pq), pq.maxPer, cost);
    var taken := if paid then PaidFor(s, cost) else s;
    StoredPop(taken, LowestCost(pq), pq.maxPer);
    PutBackValid(pq, p, PopFront(taken));
  }

  lemma SiftValid<T>(pq: PQ<T>, high: Subs<T>, normal: Subs<T>)
    requires PQValid(pq)
    requires high.Keys == pq.high.Keys && normal.Keys == pq.normal.Keys
    requires forall p :: p in high && high[p].q != map[] ==> Stored(high[p], 0, 0)
    requires forall p :: p in normal && normal[p].q != map[] ==> Stored(normal[p], LowestCost(pq), pq.maxPer)
    ensures PQValid(Sift(pq, high, normal))
  {
    hide Stored, Sum;
    assert forall p :: p in high ==> p in pq.high;
    assert forall p :: p in normal ==> p in pq.normal;
  }

  lemma RemoveByFilterValid<T>(pq: PQ<T>, f: T -> bool)
    requires PQValid(pq)
    ensures PQValid(RemoveByFilter(pq, f))
  {
    hide Stored, Sift, SubQueueSpec.RemoveByFilter;
    var high, normal := Filtered(pq.high, f), Filtered(pq.normal, f);
    forall p | p in high && high[p].q != map[]
      ensures Stored(high[p], 0, 0)
    {
      StoredFilter(pq.high[p], 0, 0, f);
    }
    forall p | p in normal && normal[p].q != map[]
      ensures Stored(normal[p], LowestCost(pq), pq.maxPer)
    {
      StoredFilter(pq.normal[p], LowestCost(pq), pq.maxPer, f);
    }
    SiftValid(pq, high, normal);
  }

  lemma RemoveByClassValid<T>(pq: PQ<T>, k: Key)
    requires PQValid(pq)
    ensures PQValid(RemoveByClass(pq, k))
  {
    hide Stored, Sift, SubQueueSpec.RemoveByClass;
    var high, normal := WithoutClass(pq.high, k), WithoutClass(pq.normal, k);
    forall p | p in high && high[p].q != map[]
      ensures Stored(high[p], 0, 0)
    {
      StoredRemoveClass(pq.high[p], 0, 0, k);
    }
    forall p | p in normal && normal[p].q != map[]
      ensures Stored(normal[p], LowestCost(pq), pq.maxPer)
    {
      StoredRemoveClass(pq.normal[p], LowestCost(pq), pq.maxPer, k);
    }
    SiftValid(pq, high, normal);
  }

  /** The number of items in one tier. */
  ghost function Count<T>(subs: Subs<T>): int {
    Sum(subs.Keys, (p: nat) => if p in subs then TotalOf(subs[p].q) else 0)
  }
}
