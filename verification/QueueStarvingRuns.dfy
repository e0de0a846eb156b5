/** Runs that pass the lowest-priority weighted sub-queue over again and again while its head keeps waiting. */
module QueueStarvingRuns {
  import opened Arithmetic
  import opened Options
  import opened OrderedKeys
  import opened SubQueueSpec
  import opened PrioritizedQueueSpec
  import opened QueueRuns
  import opened QueueStarvation

  // ---- runs that pass the lowest sub-queue over ----

  /** The run keeps the head of p0 and passes it over; it leads from pq to end, with that many dequeues from the
      weighted tier. */
  ghost predicate Leads<T>(pq: PQ<T>, ops: seq<Op<T>>, end: PQ<T>, p0: nat, head: Pair<T>, takes: nat) {
    && PQValid(pq) && LegalRun(pq, ops) && Bypassed(pq, ops, p0, head) && HeadStays(pq, ops, p0, head)
    && WeightedTakes(pq, ops) == takes
    && Run(pq, ops) == end && PQValid(end) && LowestWaits(end, p0, head)
    && end.maxPer == pq.maxPer && end.minCost == pq.minCost
  }

  lemma LeadsNowhere<T>(pq: PQ<T>, p0: nat, head: Pair<T>)
    requires PQValid(pq) && LowestWaits(pq, p0, head)
    ensures Leads(pq, [], pq, p0, head, 0)
  {
  }

  lemma LeadsByOne<T>(pq: PQ<T>, op: Op<T>, p0: nat, head: Pair<T>)
    requires PQValid(pq) && Legal(pq, op) && LowestWaits(pq, p0, head) && LowestWaits(Next(pq, op), p0, head)
    requires KeepsHead(pq, op, p0, head) && (TakesWeighted(pq, op) ==> Choice(pq).priority != p0)
    ensures Leads(pq, [op], Next(pq, op), p0, head, if TakesWeighted(pq, op) then 1 else 0)
  {
    hide PQValid, Next, LowestWaits, TakesWeighted, KeepsHead;
    var next := Next(pq, op);
    Present(pq, p0, head);
    Present(next, p0, head);
    assert [op][1..] == [];
    assert LegalRun(next, []) && Bypassed(next, [], p0, head) && HeadStays(next, [], p0, head);
    RunKeepsInvariant(pq, [op]);
    assert [op][0] == op && Run(next, []) == next && WeightedTakes(next, []) == 0;
    assert LegalRun(pq, [op]) && Run(pq, [op]) == next && Bypassed(pq, [op], p0, head) && HeadStays(pq, [op], p0, head);
  }

  lemma Present<T>(pq: PQ<T>, p0: nat, head: Pair<T>)
    requires PQValid(pq) && LowestWaits(pq, p0, head)
    ensures p0 in pq.normal && p0 < TWO32
  {
  }

  lemma {:induction false} LeadsOn<T>(pq: PQ<T>, a: seq<Op<T>>, mid: PQ<T>, b: seq<Op<T>>, end: PQ<T>,
                                      p0: nat, head: Pair<T>, m: nat, n: nat)
    requires Leads(pq, a, mid, p0, head, m) && Leads(mid, b, end, p0, head, n)
    ensures Leads(pq, a + b, end, p0, head, m + n)
    decreases |a|
  {
    hide PQValid, Next, LowestWaits, TakesWeighted, KeepsHead;
    if a == [] {
      assert a + b == b;
    } else {
      var next := Next(pq, a[0]);
      RunKeepsInvariant(pq, [a[0]]);
      LowestAtEnd(next, a[1..], p0, head);
      LeadsOn(next, a[1..], mid, b, end, p0, head, WeightedTakes(next, a[1..]), n);
      assert (a + b)[0] == a[0] && (a + b)[1..] == a[1..] + b;
    }
  }

  lemma {:induction false} LowestAtEnd<T>(pq: PQ<T>, ops: seq<Op<T>>, p0: nat, head: Pair<T>)
    requires PQValid(pq) && LegalRun(pq, ops) && Bypassed(pq, ops, p0, head)
    ensures PQValid(Run(pq, ops)) && LowestWaits(Run(pq, ops), p0, head)
    ensures Run(pq, ops).maxPer == pq.maxPer && Run(pq, ops).minCost == pq.minCost
    decreases |ops|
  {
    hide PQValid, Next, LowestWaits;
    RunKeepsInvariant(pq, ops);
    if ops != [] {
      LowestAtEnd(Next(pq, ops[0]), ops[1..], p0, head);
    }
  }

  // ---- p0 alone ----

  /** Nothing but p0 is queued, and it cannot pay for its head. */
  ghost predicate Lone<T>(pq: PQ<T>, p0: nat, head: Pair<T>) {
    && PQValid(pq) && pq.high == map[] && pq.normal.Keys == {p0}
    && LowestWaits(pq, p0, head) && pq.normal[p0].tokens <= head.cost
  }

  lemma LoneItem<T>(m: nat, k: Key, pair: Pair<T>)
    requires m < TWO32
    ensures var s := Enqueue(NewSub(m), k, pair, false);
            && SubValid(s) && s.q == map[k := [pair]] && s.q != map[] && s.tokens == 0
            && Front(s) == pair && PopFront(s).q == map[]
  {
    var n := NewSub<T>(m);
    EnqueueValid(n, k, pair, false);
    var s := Enqueue(n, k, pair, false);
    assert ListAt(n.q, k) + [pair] == [pair];
    assert s.q == map[k := [pair]];
    assert s.q.Keys == {k};
    assert s.q - {k} == map[];
  }

  lemma MaxPerSmall<T>(pq: PQ<T>)
    requires PQValid(pq)
    ensures pq.maxPer < TWO32
  {
  }

  /** An arrival of a higher priority is the next to be served. */
  lemma LoneArrival<T>(pq: PQ<T>, p0: nat, head: Pair<T>, k: Key, q: nat, cost: nat, item: T)
    requires Lone(pq, p0, head) && p0 < q < TWO32
    ensures var pq1 := EnqueueNormal(pq, k, q, cost, item, false);
            && PQValid(pq1) && !Empty(pq1) && LowestWaits(pq1, p0, head) && Choice(pq1) == Source(false, q, false)
            && pq1 == pq.(total := pq.total + q, normal := pq.normal[q := Enqueue(NewSub(pq.maxPer), k,
                            Pair(Clamp(cost, pq.minCost, pq.maxPer), item), false)])
  {
    hide SubValid, Sum, Front, PopFront, Stored, PQValid, Enqueue, Clamp;
    var pair := Pair(Clamp(cost, pq.minCost, pq.maxPer), item);
    var pq1 := EnqueueNormal(pq, k, q, cost, item, false);
    EnqueueNormalValid(pq, k, q, cost, item, false);
    StoredSub(pq, p0);
    MaxPerSmall(pq);
    LoneItem(pq.maxPer, k, pair);
    assert q !in pq.normal.Keys;
    assert pq1.normal.Keys == {p0, q};
    assert Eligible(pq1.normal) == {};
    assert Greatest(pq1.normal.Keys) == q;
  }

  /** One arrival of a higher priority and one dequeue amount to one distribution. */
  lemma LoneRound<T>(pq: PQ<T>, p0: nat, head: Pair<T>, k: Key, q: nat, cost: nat, item: T)
    requires Lone(pq, p0, head) && p0 < q < TWO32
    ensures Leads(pq, [Weighted(k, q, cost, item, false)] + [Take],
                  Distribute(pq, Clamp(cost, pq.minCost, pq.maxPer)), p0, head, 1)
  {
    hide SubValid, Sum, Front, PopFront, Stored, PQValid, Enqueue, Grant, PutTokens, Clamp, LowestWaits, Leads;
    var c := Clamp(cost, pq.minCost, pq.maxPer);
    var pair := Pair(c, item);
    var pq1 := EnqueueNormal(pq, k, q, cost, item, false);
    LoneArrival(pq, p0, head, k, q, cost, item);
    MaxPerSmall(pq);
    LoneItem(pq.maxPer, k, pair);
    LeadsByOne(pq, Weighted(k, q, cost, item, false), p0, head);
    assert q !in pq.normal.Keys;
    var mid := TakeNormal(pq1, q, false);
    assert mid.normal == pq.normal;
    assert mid == pq;
    DequeueValid(pq1);
    DistributeKeepsLowest(pq, p0, head, c);
    assert Dequeue(pq1) == Distribute(pq, c);
    assert TakesWeighted(pq1, Take);
    LeadsByOne(pq1, Take, p0, head);
    LeadsOn(pq, [Weighted(k, q, cost, item, false)], pq1, [Take], Distribute(pq, c), p0, head, 0, 1);
  }

  lemma DistributeKeepsLowest<T>(pq: PQ<T>, p0: nat, head: Pair<T>, cost: nat)
    requires PQValid(pq) && LowestWaits(pq, p0, head)
    ensures PQValid(Distribute(pq, cost)) && LowestWaits(Distribute(pq, cost), p0, head)
  {
    hide Sum, PopFront, Stored;
    DistributeValid(pq, cost);
    StoredSub(pq, p0);
    StoredSub(Distribute(pq, cost), p0);
  }

  lemma LoneTotal<T>(pq: PQ<T>, p0: nat, head: Pair<T>)
    requires Lone(pq, p0, head)
    ensures pq.total == p0
  {
    TotalIsSum(pq);
    SumRemove({p0}, p0, Identity());
    assert {p0} - {p0} == {};
  }

  /** The tokens after a distribution to p0 alone: unchanged for priority 0, else one grant more in 32 bits, and never
      more than the bucket holds. */
  lemma LoneTokens<T>(pq: PQ<T>, p0: nat, head: Pair<T>, c: nat)
    requires Lone(pq, p0, head) && PQValid(Distribute(pq, c))
    ensures var t, t' := pq.normal[p0].tokens, Distribute(pq, c).normal[p0].tokens;
            && t' <= pq.maxPer
            && (p0 == 0 ==> t' == t)
            && (p0 > 0 ==> t' <= (t + AloneShare(p0, c) + 1) % TWO32)
    ensures Distribute(pq, c).high == map[] && Distribute(pq, c).normal.Keys == {p0}
  {
    hide SubValid, Stored, PQValid, Sum, LowestWaits, Grant, PutTokens, AloneShare;
    LoneTotal(pq, p0, head);
    StoredSub(pq, p0);
    StoredSub(Distribute(pq, c), p0);
    if p0 > 0 {
      GrantAlone(p0, c);
      PutWraps(pq.normal[p0], Grant(p0, c, p0));
      WrapOnce(pq.normal[p0].tokens, AloneShare(p0, c) + 1);
    }
  }

  lemma GrantAlone(p0: nat, c: nat)
    requires p0 > 0
    ensures Grant(p0, c, p0) == (AloneShare(p0, c) + 1) % TWO32
  {
  }

  lemma PutWraps<T>(s: Sub<T>, g: nat)
    ensures PutTokens(s, g).tokens <= (s.tokens + g) % TWO32
  {
  }

  lemma WrapOnce(t: nat, g: nat)
    ensures (t + g % TWO32) % TWO32 == (t + g) % TWO32
  {
  }

  lemma AloneShareSmall(p0: nat, c: nat)
    requires p0 > 0
    ensures AloneShare(p0, c) < TWO32
  {
    var x := (p0 * c) % TWO32;
    Divided(x, p0);
    TimesLe(1, p0, x / p0);
  }

  // ---- the tokens of p0 raised by one ----

  /** The sub-queue of the greatest priority with two items of one class. */
  lemma TwoItems<T>(m: nat, k: Key, pair: Pair<T>)
    requires m < TWO32
    ensures var s := Enqueue(Enqueue(NewSub(m), k, pair, false), k, pair, false);
            && SubValid(s) && s.q != map[] && s.tokens == 0 && Front(s) == pair
            && SubValid(PopFront(s)) && PopFront(s).q == map[k := [pair]] && PopFront(s).q != map[]
  {
    hide TotalOf;
    var s1 := Enqueue(NewSub<T>(m), k, pair, false);
    LoneItem(m, k, pair);
    var s := Enqueue(s1, k, pair, false);
    EnqueueValid(s1, k, pair, false);
    assert ListAt(s1.q, k) + [pair] == [pair, pair];
    assert s.q == map[k := [pair, pair]];
    PopFrontValid(s);
    assert [pair, pair][1..] == [pair];
    assert k in PopFront(s).q;
  }

  ghost function TwoOf<T>(pq: PQ<T>, k: Key, item: T): Sub<T> {
    var pair := Pair(Clamp(0, pq.minCost, pq.maxPer), item);
    Enqueue(Enqueue(NewSub(pq.maxPer), k, pair, false), k, pair, false)
  }

  /** With another item of the greatest priority left, a distribution gives p0 exactly one token. */
  lemma GrantOfOne(p0: nat, c: nat)
    requires 0 < p0 < TWO32 - 1
    ensures Grant(p0, c, p0 + TWO32 - 1) == 1
  {
    var x, total := (p0 * c) % TWO32, p0 + TWO32 - 1;
    Divided(x, total);
    if x / total >= 1 {
      TimesLe(1, x / total, total);
    }
    QuotientNotNegative(x, total);
  }

  /** The state after two arrivals of the greatest priority and one dequeue. */
  lemma TwoArrivals<T>(pq: PQ<T>, p0: nat, head: Pair<T>, k: Key, item: T)
    returns (pq2: PQ<T>)
    requires Lone(pq, p0, head) && p0 < TWO32 - 1
    ensures Leads(pq, [Weighted(k, TWO32 - 1, 0, item, false)] + [Weighted(k, TWO32 - 1, 0, item, false)], pq2,
                  p0, head, 0)
    ensures !Empty(pq2) && Choice(pq2) == Source(false, TWO32 - 1, false) && pq2.high == map[]
    ensures pq2.total == pq.total + TWO32 - 1
    ensures pq2.normal == pq.normal[TWO32 - 1 := TwoOf(pq, k, item)]
  {
    hide SubValid, Sum, Front, PopFront, Stored, PQValid, Enqueue, Clamp, Leads;
    var q := TWO32 - 1;
    var c := Clamp(0, pq.minCost, pq.maxPer);
    var w := Weighted(k, q, 0, item, false);
    LoneArrival(pq, p0, head, k, q, 0, item);
    var pq1 := EnqueueNormal(pq, k, q, 0, item, false);
    LeadsByOne(pq, w, p0, head);
    pq2 := EnqueueNormal(pq1, k, q, 0, item, false);
    EnqueueNormalValid(pq1, k, q, 0, item, false);
    MaxPerSmall(pq);
    TwoItems(pq.maxPer, k, Pair(c, item));
    assert q !in pq.normal.Keys;
    assert pq2.normal.Keys == {p0, q};
    StoredSub(pq2, p0);
    assert Eligible(pq2.normal) == {};
    assert Greatest(pq2.normal.Keys) == q;
    LeadsByOne(pq1, w, p0, head);
    LeadsOn(pq, [w], pq1, [w], pq2, p0, head, 0, 0);
  }

  /** The removal of a class that p0 does not hold, with one other sub-queue of that class only. */
  lemma DropOther<T>(pq: PQ<T>, p0: nat, q: nat, k: Key, l: seq<Pair<T>>)
    requires PQValid(pq) && pq.high == map[] && pq.normal.Keys == {p0, q} && p0 != q
    requires k !in pq.normal[p0].q && pq.normal[q].q == map[k := l]
    ensures var r := Spec.RemoveByClass(pq, k);
            && PQValid(r) && r.high == map[] && r.normal == map[p0 := pq.normal[p0]]
            && r.maxPer == pq.maxPer && r.minCost == pq.minCost
  {
    hide SubValid, Sum;
    Spec.RemoveByClassValid(pq, k);
    StoredSub(pq, p0);
    var r := Spec.RemoveByClass(pq, k);
    assert pq.normal[q].q.Keys - {k} == {};
    assert SubQueueSpec.RemoveByClass(pq.normal[q], k).q == map[];
    assert r.high.Keys == {};
    assert r.normal.Keys == {p0};
  }

  /** Three steps with one weighted dequeue raise the tokens of p0 by one. */
  lemma RaiseWithOther<T>(pq: PQ<T>, p0: nat, head: Pair<T>, k: Key) returns (ops: seq<Op<T>>, end: PQ<T>)
    requires Lone(pq, p0, head) && 0 < p0 < TWO32 - 1
    requires pq.normal[p0].tokens < head.cost < pq.maxPer
    ensures Leads(pq, ops, end, p0, head, 1) && PQValid(end) && end.high == map[] && end.normal.Keys == {p0, TWO32 - 1}
    ensures end.normal[p0] == pq.normal[p0].(tokens := pq.normal[p0].tokens + 1)
    ensures end.normal[TWO32 - 1].q == map[k := [Pair(Clamp(0, pq.minCost, pq.maxPer), head.item)]]
  {
    hide SubValid, Sum, Front, PopFront, Stored, PQValid, Enqueue, Clamp, Leads, Grant, LowestWaits;
    var q, c, s := TWO32 - 1, Clamp(0, pq.minCost, pq.maxPer), pq.normal[p0];
    var pq2 := TwoArrivals(pq, p0, head, k, head.item);
    MaxPerSmall(pq);
    TwoItems(pq.maxPer, k, Pair(c, head.item));
    LoneTotal(pq, p0, head);
    var arrivals := [Weighted(k, q, 0, head.item, false)] + [Weighted(k, q, 0, head.item, false)];
    LeadsFrom(pq, arrivals, pq2, p0, head, 0);
    TakeNormalValid(pq2, q, false);
    var mid := TakeNormal(pq2, q, false);
    var left := PopFront(TwoOf(pq, k, head.item));
    assert left.q == map[k := [Pair(c, head.item)]] && left.q != map[];
    assert mid == pq2.(normal := pq2.normal[q := left]);
    assert q !in pq.normal.Keys;
    assert mid.normal.Keys == {p0, q};
    LowestUnchanged(pq, mid, p0, head);
    DistributeKeepsLowest(mid, p0, head, c);
    end := Distribute(mid, c);
    assert Dequeue(pq2) == end;
    GrantOfOne(p0, c);
    StoredSub(pq, p0);
    PutExact(s, 1, pq.maxPer);
    assert TakesWeighted(pq2, Take);
    LeadsByOne(pq2, Take, p0, head);
    LeadsOn(pq, arrivals, pq2, [Take], end, p0, head, 0, 1);
    ops := arrivals + [Take];
  }

  /** A fourth step leaves p0 alone again. */
  lemma RaiseByOne<T>(pq: PQ<T>, p0: nat, head: Pair<T>, k: Key) returns (ops: seq<Op<T>>, end: PQ<T>)
    requires Lone(pq, p0, head) && 0 < p0 < TWO32 - 1 && k !in pq.normal[p0].q
    requires pq.normal[p0].tokens < head.cost < pq.maxPer
    ensures Leads(pq, ops, end, p0, head, 1) && Lone(end, p0, head)
    ensures end.normal[p0] == pq.normal[p0].(tokens := pq.normal[p0].tokens + 1)
  {
    hide SubValid, Sum, Front, Stored, PQValid, Clamp, Leads, LowestWaits, Spec.RemoveByClass;
    var raise, mid := RaiseWithOther(pq, p0, head, k);
    LeadsFrom(pq, raise, mid, p0, head, 1);
    DropOther(mid, p0, TWO32 - 1, k, [Pair(Clamp(0, pq.minCost, pq.maxPer), head.item)]);
    end := Spec.RemoveByClass(mid, k);
    LowestUnchanged(mid, end, p0, head);
    OtherClass(mid, p0, k);
    LeadsByOne(mid, DropClass(k), p0, head);
    ops := raise + [DropClass(k)];
    LeadsOn(pq, raise, mid, [DropClass(k)], end, p0, head, 1, 0);
  }

  lemma OtherClass<T>(pq: PQ<T>, p0: nat, k: Key)
    requires PQValid(pq) && p0 in pq.normal && k !in pq.normal[p0].q
    ensures pq.normal[p0].cur != Some(k)
  {
    StoredSub(pq, p0);
  }

  lemma LeadsFrom<T>(pq: PQ<T>, ops: seq<Op<T>>, end: PQ<T>, p0: nat, head: Pair<T>, takes: nat)
    requires Leads(pq, ops, end, p0, head, takes)
    ensures PQValid(end) && LowestWaits(end, p0, head) && end.maxPer == pq.maxPer && end.minCost == pq.minCost
  {
  }

  /** The sub-queue of p0 has the same lists and cursor, and no lower one has come. */
  lemma LowestUnchanged<T>(pq: PQ<T>, next: PQ<T>, p0: nat, head: Pair<T>)
    requires PQValid(pq) && PQValid(next) && LowestWaits(pq, p0, head) && p0 in next.normal
    requires next.normal[p0].q == pq.normal[p0].q && next.normal[p0].cur == pq.normal[p0].cur
    requires forall p :: p in next.normal ==> p0 <= p
    ensures LowestWaits(next, p0, head)
  {
    hide Stored;
    StoredSub(pq, p0);
    StoredSub(next, p0);
  }

  // ---- rounds without end ----

  /** There is a way to keep p0 from ever paying when it is alone: it gets nothing, or its tokens can wrap around. */
  ghost predicate Starvable<T>(pq: PQ<T>, p0: nat, head: Pair<T>) {
    p0 == 0 || (head.cost < pq.maxPer && Overflows(pq, p0, head))
  }

  function FreshKey(keys: set<Key>): (k: Key)
    ensures k !in keys
  {
    if keys == {} then 0 else Greatest(keys) + 1
  }

  /** From p0 alone there is always a run with one more weighted dequeue that leaves p0 alone and unable to pay. */
  lemma LoneStep<T>(pq: PQ<T>, p0: nat, head: Pair<T>) returns (ops: seq<Op<T>>, end: PQ<T>)
    requires Lone(pq, p0, head) && Starvable(pq, p0, head) && p0 < TWO32 - 1
    ensures Leads(pq, ops, end, p0, head, 1) && Lone(end, p0, head)
  {
    hide SubValid, Sum, Front, Stored, PQValid, Clamp, Leads, Distribute, LowestWaits, AloneShare;
    StoredSub(pq, p0);
    if p0 > 0 && pq.normal[p0].tokens < head.cost {
      ops, end := RaiseByOne(pq, p0, head, FreshKey(pq.normal[p0].q.Keys));
    } else {
      var c := 0;
      if p0 > 0 {
        c :| LowestCost(pq) <= c <= pq.maxPer && head.cost + AloneShare(p0, c) + 1 >= TWO32;
        AloneShareSmall(p0, c);
      }
      var d := Clamp(c, pq.minCost, pq.maxPer);
      if LowestCost(pq) <= c <= pq.maxPer {
        ClampAllowed(pq, c);
      }
      LoneRound(pq, p0, head, 0, TWO32 - 1, c, head.item);
      ops, end := [Weighted(0, TWO32 - 1, c, head.item, false)] + [Take], Distribute(pq, d);
      LeadsFrom(pq, ops, end, p0, head, 1);
      LoneTokens(pq, p0, head, d);
      if p0 > 0 {
        WrapBack(pq.normal[p0].tokens, AloneShare(p0, c) + 1);
      }
    }
  }

  lemma ClampAllowed<T>(pq: PQ<T>, c: nat)
    requires LowestCost(pq) <= c <= pq.maxPer
    ensures Clamp(c, pq.minCost, pq.maxPer) == c
  {
  }

  lemma WrapBack(t: nat, g: nat)
    requires t + g >= TWO32 && g <= TWO32 && t < TWO32
    ensures (t + g) % TWO32 <= t
  {
  }

  lemma {:induction false} LoneForever<T>(pq: PQ<T>, p0: nat, head: Pair<T>, n: nat)
    returns (ops: seq<Op<T>>, end: PQ<T>)
    requires Lone(pq, p0, head) && Starvable(pq, p0, head) && p0 < TWO32 - 1
    ensures Leads(pq, ops, end, p0, head, n)
    decreases n
  {
    hide Lone, Leads, Overflows;
    if n == 0 {
      LoneLeads(pq, p0, head);
      return [], pq;
    }
    var first, mid := LoneStep(pq, p0, head);
    StarvableKept(pq, first, mid, p0, head, 1);
    var rest;
    rest, end := LoneForever(mid, p0, head, n - 1);
    LeadsOn(pq, first, mid, rest, end, p0, head, 1, n - 1);
    ops := first + rest;
  }

  lemma LoneLeads<T>(pq: PQ<T>, p0: nat, head: Pair<T>)
    requires Lone(pq, p0, head)
    ensures Leads(pq, [], pq, p0, head, 0)
  {
    LeadsNowhere(pq, p0, head);
  }

  lemma StarvableKept<T>(pq: PQ<T>, ops: seq<Op<T>>, end: PQ<T>, p0: nat, head: Pair<T>, takes: nat)
    requires Leads(pq, ops, end, p0, head, takes) && Starvable(pq, p0, head)
    ensures Starvable(end, p0, head)
  {
    hide AloneShare, PQValid, LowestWaits;
    if p0 > 0 && Overflows(pq, p0, head) {
      var c: nat :| LowestCost(pq) <= c <= pq.maxPer && head.cost + AloneShare(p0, c) + 1 >= TWO32;
      assert LowestCost(end) <= c <= end.maxPer;
    }
  }

  // ---- a head that costs a full bucket ----

  /** n times over, one item of a higher priority arrives and one item is dequeued. */
  function Rounds<T>(n: nat, k: Key, q: nat, cost: nat, item: T): seq<Op<T>> {
    if n == 0 then [] else ([Weighted(k, q, cost, item, false)] + [Take]) + Rounds(n - 1, k, q, cost, item)
  }

  /** An arrival of a higher priority does not let p0 through when its head costs a full bucket. */
  lemma FullHeadRound<T>(pq: PQ<T>, p0: nat, head: Pair<T>, k: Key, q: nat, cost: nat, item: T)
    returns (end: PQ<T>, takes: nat)
    requires PQValid(pq) && LowestWaits(pq, p0, head) && head.cost >= pq.maxPer && p0 < q < TWO32
    ensures Leads(pq, [Weighted(k, q, cost, item, false)] + [Take], end, p0, head, takes)
    ensures takes <= 1 && Count(end.high) == Count(pq.high) - 1 + takes
  {
    hide SubValid, Sum, PopFront, Stored, PQValid, Enqueue, Count, Front, Eligible, Leads, Clamp;
    var w := Weighted(k, q, cost, item, false);
    var pq1 := EnqueueNormal(pq, k, q, cost, item, false);
    EnqueueNormalValid(pq, k, q, cost, item, false);
    assert pq1.normal[p0] == pq.normal[p0] && q in pq1.normal;
    LowestUnchanged(pq, pq1, p0, head);
    LeadsByOne(pq, w, p0, head);
    FullHeadNotChosen(pq1, p0, head, q);
    TakeKeepsLists(pq1, p0);
    DequeueCounts(pq1);
    end := Dequeue(pq1);
    LowestUnchanged(pq1, end, p0, head);
    takes := if Choice(pq1).strict then 0 else 1;
    assert TakesWeighted(pq1, Take) <==> !Choice(pq1).strict;
    LeadsByOne(pq1, Take, p0, head);
    LeadsOn(pq, [w], pq1, [Take], end, p0, head, 0, takes);
  }

  lemma FullHeadNotChosen<T>(pq: PQ<T>, p0: nat, head: Pair<T>, q: nat)
    requires PQValid(pq) && !Empty(pq) && LowestWaits(pq, p0, head) && head.cost >= pq.maxPer
    requires p0 < q && q in pq.normal
    ensures !Choice(pq).strict ==> Choice(pq).priority != p0
  {
    hide SubValid, Sum, Front, Stored, Eligible;
    StoredSub(pq, p0);
    assert q in pq.normal.Keys;
  }

  lemma {:induction false} FullHeadForever<T>(pq: PQ<T>, n: nat, p0: nat, head: Pair<T>, k: Key, q: nat, cost: nat,
                                              item: T)
    returns (end: PQ<T>, takes: nat)
    requires PQValid(pq) && LowestWaits(pq, p0, head) && head.cost >= pq.maxPer && p0 < q < TWO32
    ensures Leads(pq, Rounds(n, k, q, cost, item), end, p0, head, takes) && takes >= n - Count(pq.high)
    decreases n
  {
    hide PQValid, LowestWaits, Leads, Count;
    if n == 0 {
      CountNotNegative(pq.high);
      LeadsNowhere(pq, p0, head);
      return pq, 0;
    }
    var round := [Weighted(k, q, cost, item, false)] + [Take];
    var mid, one := FullHeadRound(pq, p0, head, k, q, cost, item);
    LeadsFrom(pq, round, mid, p0, head, one);
    var more;
    end, more := FullHeadForever(mid, n - 1, p0, head, k, q, cost, item);
    LeadsOn(pq, round, mid, Rounds(n - 1, k, q, cost, item), end, p0, head, one, more);
    takes := one + more;
  }

  lemma CountNotNegative<T>(subs: Subs<T>)
    ensures Count(subs) >= 0
  {
    var f := (r: nat) => if r in subs then TotalOf(subs[r].q) else 0;
    forall r | r in subs
      ensures f(r) >= 0
    {
      TotalNotNegative(subs[r].q);
    }
    SumConstant(subs.Keys, (r: nat) => 0, 0);
    SumMonotone(subs.Keys, (r: nat) => 0, f);
  }

  lemma TotalNotNegative<T>(q: Classes<T>)
    ensures TotalOf(q) >= 0
  {
    SumConstant(q.Keys, (r: nat) => 0, 0);
    SumMonotone(q.Keys, (r: nat) => 0, (k: nat) => |ListAt(q, k)|);
  }
}
