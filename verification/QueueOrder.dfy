/** What the prioritized queue serves next, what a queued item is charged, and what a dequeue does to the tokens, in
    terms of the deques, the heads and the tokens alone. */
module QueueOrder {
  import opened OrderedKeys
  import opened SubQueueSpec
  import opened PrioritizedQueueSpec
  import opened QueueRuns

  // ---- the strict tier ----

  /** The dequeue takes an item off the deque. */
  ghost predicate Takes<T>(pq: PQ<T>, strict: bool, p: nat, k: Key)
    requires PQValid(pq) && !Empty(pq)
  {
    Deque(Dequeue(pq), strict, p, k) != Deque(pq, strict, p, k)
  }

  lemma AbsentIsEmpty<T>(pq: PQ<T>, strict: bool, p: nat, k: Key)
    requires p !in (if strict then pq.high else pq.normal)
    ensures Deque(pq, strict, p, k) == []
  {
  }

  /** No strict deque of a priority above the given one holds anything. */
  ghost predicate NothingAbove<T>(pq: PQ<T>, bound: int) {
    forall p: nat, j: Key :: p > bound ==> Deque(pq, true, p, j) == []
  }

  lemma OtherTier<T>(pq: PQ<T>)
    requires PQValid(pq) && !Empty(pq)
    ensures if Choice(pq).strict then Dequeue(pq).normal == pq.normal else Dequeue(pq).high == pq.high
  {
    hide PQValid, Choice, Front, PopFront;
  }

  /** A dequeue takes from a strict deque only if no strict deque of a higher priority holds anything, and from a
      weighted one only if no strict deque does; it changes nothing of the other tier, tokens and costs included. */
  lemma StrictFirst<T>(pq: PQ<T>, strict: bool, r: nat, k: Key)
    requires PQValid(pq) && !Empty(pq) && Takes(pq, strict, r, k)
    ensures NothingAbove(pq, if strict then r else -1)
    ensures if strict then Dequeue(pq).normal == pq.normal else Dequeue(pq).high == pq.high
  {
    hide PQValid, Deque, Chosen, Dequeued, Dequeue;
    DequeueDeque(pq, strict, r, k);
    OtherTier(pq);
    forall p: nat, j: Key | p > if strict then r else -1
      ensures Deque(pq, true, p, j) == []
    {
      AbsentIsEmpty(pq, true, p, j);
    }
  }

  // ---- the weighted tier ----

  /** The sub-queue of priority p can pay for its head. */
  ghost predicate Pays<T>(pq: PQ<T>, p: nat)
    requires PQValid(pq) && p in pq.normal
  {
    Front(pq.normal[p]).cost < pq.normal[p].tokens
  }

  /** Priority r is the lowest that can pay; or none can, and it is the highest. */
  ghost predicate FirstWeighted<T>(pq: PQ<T>, r: nat)
    requires PQValid(pq)
  {
    && r in pq.normal
    && if Pays(pq, r) then forall p :: p in pq.normal && p < r ==> !Pays(pq, p)
       else forall p :: p in pq.normal ==> p <= r && !Pays(pq, p)
  }

  lemma EligiblePays<T>(pq: PQ<T>)
    requires PQValid(pq)
    ensures forall p :: p in pq.normal ==> SubValid(pq.normal[p]) && pq.normal[p].q != map[]
    ensures Eligible(pq.normal) == set p | p in pq.normal && Pays(pq, p)
  {
    hide Sum;
  }

  lemma ChoiceOfWeighted<T>(pq: PQ<T>, r: nat)
    requires PQValid(pq) && !Empty(pq) && pq.high == map[]
    ensures !Choice(pq).strict
    ensures Choice(pq).priority == r <==> FirstWeighted(pq, r)
    ensures Choice(pq).priority == r ==> Choice(pq).paid == Pays(pq, r)
  {
    hide PQValid, SubValid, Pays, Eligible;
    EligiblePays(pq);
    var e, c := Eligible(pq.normal), Choice(pq);
    assert forall p :: p in e <==> p in pq.normal && Pays(pq, p);
    if e != {} {
      assert c == Source(false, Least(e), true);
      assert c.priority in e && forall p :: p in e ==> c.priority <= p;
    } else {
      assert pq.normal.Keys != {};
      assert c == Source(false, Greatest(pq.normal.Keys), false);
      assert forall p :: p in pq.normal ==> p in pq.normal.Keys && p <= c.priority;
      assert c.priority !in e;
    }
    if r in pq.normal {
      assert r in e <==> Pays(pq, r);
    }
  }

  /** A dequeue takes from a weighted deque exactly under this condition, with the strict tier empty, and from the class
      under the cursor. */
  lemma WeightedFirst<T>(pq: PQ<T>, r: nat, k: Key)
    requires PQValid(pq) && !Empty(pq)
    ensures Takes(pq, false, r, k)
            <==> pq.high == map[] && FirstWeighted(pq, r) && pq.normal[r].cur.Some? && pq.normal[r].cur.value == k
  {
    hide PQValid, Deque, Dequeued, Dequeue, SubValid, FirstWeighted;
    DequeueDeque(pq, false, r, k);
    if pq.high == map[] {
      ChoiceOfWeighted(pq, r);
      if FirstWeighted(pq, r) {
        FirstPresent(pq, r);
      }
    }
  }

  lemma FirstPresent<T>(pq: PQ<T>, r: nat)
    requires PQValid(pq) && FirstWeighted(pq, r)
    ensures r in pq.normal
  {
  }

  /** The tokens of a weighted sub-queue after a dequeue from that of priority r: less the cost of the head if it is the
      one served and could pay, and more by its share of the cost, in 32-bit arithmetic, up to the bucket size. */
  lemma TokensAfterDequeue<T>(pq: PQ<T>, r: nat, p: nat)
    requires PQValid(pq) && !Empty(pq) && pq.high == map[] && FirstWeighted(pq, r) && p in Dequeue(pq).normal
    ensures p in pq.normal && r in pq.normal
    ensures var cost := Front(pq.normal[r]).cost;
            var t := pq.normal[p].tokens - if p == r && Pays(pq, r) then cost else 0;
            var total := Sum(Dequeue(pq).normal.Keys, Identity());
            && t >= 0
            && (total == 0 ==> Dequeue(pq).normal[p].tokens == t)
            && (total > 0 ==>
                  var sum := (t + (p * cost) % TWO32 / total + 1) % TWO32;
                  Dequeue(pq).normal[p].tokens == if sum > pq.maxPer then pq.maxPer else sum)
  {
    hide Sum, Front, PopFront, PQValid, SubValid, Stored, Distribute, FirstWeighted, Choice, TakeNormal, Pays;
    ChoiceOfWeighted(pq, r);
    FirstPresent(pq, r);
    var paid, cost := Pays(pq, r), Front(pq.normal[r]).cost;
    TakeNormalValid(pq, r, paid);
    var mid := TakeNormal(pq, r, paid);
    assert Dequeue(pq) == Distribute(mid, cost);
    DistributedTokens(mid, cost, p);
    TakenTokens(pq, r, paid, p);
  }

  lemma DistributedTokens<T>(pq: PQ<T>, cost: nat, p: nat)
    requires PQValid(pq) && p in Distribute(pq, cost).normal
    ensures p in pq.normal && Distribute(pq, cost).normal.Keys == pq.normal.Keys
    ensures var t := pq.normal[p].tokens;
            var total := Sum(pq.normal.Keys, Identity());
            && (total == 0 ==> Distribute(pq, cost).normal[p].tokens == t)
            && (total > 0 ==>
                  var sum := (t + (p * cost) % TWO32 / total + 1) % TWO32;
                  Distribute(pq, cost).normal[p].tokens == if sum > pq.maxPer then pq.maxPer else sum)
    ensures Sum(pq.normal.Keys, Identity()) >= 0
  {
    hide Sum, PQValid, SubValid, Grant, PutTokens;
    TotalIsSum(pq);
    TotalNonNegative(pq);
    MaxTokensOf(pq, p);
    if pq.total > 0 {
      GrantSum(pq.normal[p].tokens, p, cost, pq.total);
      PutSum(pq.normal[p], Grant(p, cost, pq.total));
    }
  }

  lemma MaxTokensOf<T>(pq: PQ<T>, p: nat)
    requires PQValid(pq) && p in pq.normal
    ensures pq.normal[p].maxTokens == pq.maxPer
  {
    hide Sum;
  }

  lemma TakenTokens<T>(pq: PQ<T>, r: nat, paid: bool, p: nat)
    requires PQValid(pq) && r in pq.normal && p in TakeNormal(pq, r, paid).normal && paid == Pays(pq, r)
    ensures p in pq.normal
    ensures TakeNormal(pq, r, paid).normal[p].tokens
            == pq.normal[p].tokens - if p == r && paid then Front(pq.normal[r]).cost else 0
    ensures TakeNormal(pq, r, paid).maxPer == pq.maxPer && TakeNormal(pq, r, paid).normal[p].tokens >= 0
  {
    hide Sum, Front, TotalOf;
  }

  lemma GrantSum(t: nat, p: nat, cost: nat, total: int)
    requires total > 0
    ensures (t + Grant(p, cost, total)) % TWO32 == (t + (p * cost) % TWO32 / total + 1) % TWO32
  {
  }

  lemma PutSum<T>(s: Sub<T>, g: nat)
    ensures var sum := (s.tokens + g) % TWO32;
            PutTokens(s, g).tokens == if sum > s.maxTokens then s.maxTokens else sum
  {
  }

  /** Only a dequeue changes tokens: a sub-queue starts with none, and every other operation leaves those of the
      sub-queues that it leaves in place. */
  lemma TokensOtherwise<T>(pq: PQ<T>, op: Op<T>, p: nat)
    requires PQValid(pq) && Legal(pq, op) && !op.Take? && p in Next(pq, op).normal
    ensures Next(pq, op).normal[p].tokens == if p in pq.normal then pq.normal[p].tokens else 0
  {
    hide PQValid, Sum, Clamp, TotalOf;
  }

  // ---- what a queued item is charged ----

  function Gap(a: int, b: int): nat {
    if a <= b then b - a else a - b
  }

  /** Of the costs that a queued item can have, c is the nearest to the cost asked for. */
  ghost predicate Nearest<T>(pq: PQ<T>, cost: nat, c: nat) {
    && LowestCost(pq) <= c <= pq.maxPer
    && forall d: nat :: LowestCost(pq) <= d <= pq.maxPer ==> Gap(cost, c) <= Gap(cost, d)
  }

  /** A weighted enqueue puts the item at that end of its list, with the allowed cost nearest to the one given. */
  lemma NewPair<T>(pq: PQ<T>, k: Key, p: nat, cost: nat, item: T, front: bool)
    requires PQValid(pq) && p < TWO32
    ensures var next := EnqueueNormal(pq, k, p, cost, item, front);
            && p in next.normal && k in next.normal[p].q && next.normal[p].q[k] != []
            && var l := next.normal[p].q[k];
               var pair := if front then l[0] else l[|l| - 1];
               pair.item == item && Nearest(pq, cost, pair.cost)
  {
    hide Sum, Stored;
  }

  /** A pair is queued in class k of the weighted sub-queue of priority p. */
  ghost predicate Queued<T>(pq: PQ<T>, p: nat, k: Key, pair: Pair<T>) {
    p in pq.normal && pair in ListAt(pq.normal[p].q, k)
  }

  /** No operation but a weighted enqueue puts a pair into the weighted tier or changes the cost of one. */
  lemma StepPairs<T>(pq: PQ<T>, op: Op<T>, p: nat, k: Key, pair: Pair<T>)
    requires PQValid(pq) && Legal(pq, op) && Queued(Next(pq, op), p, k, pair)
    ensures Queued(pq, p, k, pair)
            || (op.Weighted? && op.p == p && op.k == k && pair == Pair(Clamp(op.cost, pq.minCost, pq.maxPer), op.item))
  {
    hide SubValid, Sum, Stored, PQValid, Front, Grant, PutTokens, Clamp, TotalOf;
    match op
    case Strict(_, _, _, _) =>
    case Weighted(_, _, _, _, _) =>
    case Take => TakePairs(pq, p, k, pair);
    case DropClass(j) =>
    case DropMatching(f) => KeptFrom(ListAt(pq.normal[p].q, k), f, pair);
  }

  lemma {:induction false} KeptFrom<T>(l: seq<Pair<T>>, f: T -> bool, pair: Pair<T>)
    requires pair in Kept(l, f)
    ensures pair in l
  {
    if l != [] && pair != l[0] {
      KeptFrom(l[1..], f, pair);
    }
  }

  lemma TakePairs<T>(pq: PQ<T>, p: nat, k: Key, pair: Pair<T>)
    requires PQValid(pq) && !Empty(pq) && Queued(Dequeue(pq), p, k, pair)
    ensures Queued(pq, p, k, pair)
  {
    hide Sum, Stored, Grant, PutTokens, TotalOf, Front, PopFront, Distribute, PQValid, SubValid;
    var c := Choice(pq);
    if !c.strict {
      var s := Chosen(pq);
      var taken := if c.paid then PaidFor(s, Front(s).cost) else s;
      TakeNormalValid(pq, c.priority, c.paid);
      DistributeKeepsLists(TakeNormal(pq, c.priority, c.paid), Front(s).cost);
      PopPairs(taken, k, pair);
    }
  }

  lemma PopPairs<T>(s: Sub<T>, k: Key, pair: Pair<T>)
    requires SubValid(s) && s.q != map[]
    ensures pair in ListAt(PopFront(s).q, k) ==> pair in ListAt(s.q, k)
  {
    hide TotalOf;
  }

  // ---- what a removal of a class gives out ----

  /** The sub-queues of the priorities beyond a bound. */
  ghost function Over<T>(subs: Subs<T>, bound: nat): Subs<T> {
    map p | p in subs && p > bound :: subs[p]
  }

  ghost function Under<T>(subs: Subs<T>, bound: nat): Subs<T> {
    map p | p in subs && p < bound :: subs[p]
  }

  /** The items of a class stand in the order of their priorities, from the highest: around those of any one priority
      are those of the higher ones and those of the lower ones. */
  lemma ClassItemsInOrder<T>(pq: PQ<T>, strict: bool, p: nat, k: Key)
    ensures var subs := if strict then pq.high else pq.normal;
            ClassItems(subs, k)
            == ClassItems(Over(subs, p), k) + Deque(pq, strict, p, k) + ClassItems(Under(subs, p), k)
  {
    ItemsAround(if strict then pq.high else pq.normal, p, k);
  }

  function ItemsOf<T>(subs: Subs<T>, p: nat, k: Key): seq<T> {
    if p in subs then Items(ListAt(subs[p].q, k)) else []
  }

  lemma ClassItemsNext<T>(subs: Subs<T>, k: Key)
    ensures subs.Keys == {} ==> ClassItems(subs, k) == []
    ensures subs.Keys != {} ==>
              var g := Greatest(subs.Keys); ClassItems(subs, k) == ItemsOf(subs, g, k) + ClassItems(subs - {g}, k)
  {
  }

  lemma {:induction false} ItemsAround<T>(subs: Subs<T>, p: nat, k: Key)
    ensures ClassItems(subs, k) == ClassItems(Over(subs, p), k) + ItemsOf(subs, p, k) + ClassItems(Under(subs, p), k)
    decreases |subs|
  {
    hide ItemsOf, ClassItems, Over, Under;
    ClassItemsNext(subs, k);
    if subs.Keys == {} {
      AroundNone(subs, p, k);
    } else {
      var g := Greatest(subs.Keys);
      if g > p {
        ItemsAround(subs - {g}, p, k);
        AroundHigher(subs, p, k);
        ClassItemsNext(Over(subs, p), k);
        var a, b := ItemsOf(subs, g, k), ClassItems(Over(subs - {g}, p), k);
        assert a + (b + ItemsOf(subs, p, k) + ClassItems(Under(subs, p), k))
            == a + b + ItemsOf(subs, p, k) + ClassItems(Under(subs, p), k);
      } else {
        AroundGreatest(subs, p, k);
      }
    }
  }

  lemma AroundNone<T>(subs: Subs<T>, p: nat, k: Key)
    requires subs.Keys == {}
    ensures ClassItems(Over(subs, p), k) == [] && ItemsOf(subs, p, k) == [] && ClassItems(Under(subs, p), k) == []
  {
    assert Over(subs, p).Keys == {} && Under(subs, p).Keys == {};
  }

  lemma AroundHigher<T>(subs: Subs<T>, p: nat, k: Key)
    requires subs.Keys != {} && Greatest(subs.Keys) > p
    ensures var g := Greatest(subs.Keys);
            && Over(subs, p).Keys != {} && Greatest(Over(subs, p).Keys) == g
            && Over(subs, p) - {g} == Over(subs - {g}, p) && Under(subs, p) == Under(subs - {g}, p)
            && ItemsOf(Over(subs, p), g, k) == ItemsOf(subs, g, k) && ItemsOf(subs - {g}, p, k) == ItemsOf(subs, p, k)
  {
    hide Items;
    GreatestOver(subs, p);
  }

  lemma AroundGreatest<T>(subs: Subs<T>, p: nat, k: Key)
    requires subs.Keys != {} && Greatest(subs.Keys) <= p
    ensures ClassItems(subs, k) == ClassItems(Over(subs, p), k) + ItemsOf(subs, p, k) + ClassItems(Under(subs, p), k)
  {
    hide ItemsOf;
    var g := Greatest(subs.Keys);
    ClassItemsNext(subs, k);
    assert forall r :: r in subs ==> r in subs.Keys && r <= g;
    assert Over(subs, p).Keys == {};
    if g == p {
      assert Under(subs, p) == subs - {g};
    } else {
      assert Under(subs, p) == subs;
      NoItems(subs, p, k);
    }
  }

  lemma NoItems<T>(subs: Subs<T>, p: nat, k: Key)
    requires p !in subs
    ensures ItemsOf(subs, p, k) == []
  {
  }

  lemma GreatestOver<T>(subs: Subs<T>, p: nat)
    requires subs.Keys != {} && Greatest(subs.Keys) > p
    ensures Over(subs, p).Keys != {} && Greatest(Over(subs, p).Keys) == Greatest(subs.Keys)
    ensures Over(subs, p)[Greatest(subs.Keys)] == subs[Greatest(subs.Keys)]
  {
    assert Greatest(subs.Keys) in Over(subs, p).Keys;
    assert forall r :: r in Over(subs, p).Keys ==> r in subs.Keys;
  }
}
