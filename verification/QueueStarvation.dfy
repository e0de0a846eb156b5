/** How long the lowest-priority weighted sub-queue can be passed over, and exactly when there is a bound. */
module QueueStarvation {
  import opened Arithmetic
  import opened Options
  import opened OrderedKeys
  import opened SubQueueSpec
  import opened PrioritizedQueueSpec
  import opened QueueRuns
  import opened QueueTokens

  /** Priority p0 is the lowest of the weighted tier, and head is the next item of its sub-queue. */
  ghost predicate LowestWaits<T>(pq: PQ<T>, p0: nat, head: Pair<T>)
    requires PQValid(pq)
  {
    && p0 in pq.normal
    && (forall p :: p in pq.normal ==> p0 <= p)
    && Front(pq.normal[p0]) == head
  }

  ghost predicate TakesWeighted<T>(pq: PQ<T>, op: Op<T>)
    requires PQValid(pq) && Legal(pq, op)
  {
    op.Take? && !Choice(pq).strict
  }

  /** Throughout the run p0 stays the lowest with the same head, and no dequeue serves it. */
  ghost predicate Bypassed<T>(pq: PQ<T>, ops: seq<Op<T>>, p0: nat, head: Pair<T>)
    requires PQValid(pq) && LegalRun(pq, ops)
    decreases |ops|
  {
    && LowestWaits(pq, p0, head)
    && (ops != [] ==>
      && (TakesWeighted(pq, ops[0]) ==> Choice(pq).priority != p0)
      && Bypassed(Next(pq, ops[0]), ops[1..], p0, head))
  }

  /** The operation neither removes the item at the head of p0 nor puts another in front of it. */
  ghost predicate KeepsHead<T>(pq: PQ<T>, op: Op<T>, p0: nat, head: Pair<T>)
    requires p0 in pq.normal
  {
    match op
    case Strict(_, _, _, _) => true
    case Weighted(k, p, _, _, front) => !(front && p == p0 && pq.normal[p0].cur == Some(k))
    case Take => true
    case DropClass(k) => pq.normal[p0].cur != Some(k)
    case DropMatching(f) => !f(head.item)
  }

  /** Throughout the run the item at the head of p0 stays where it is, and no equal item takes its place. */
  ghost predicate HeadStays<T>(pq: PQ<T>, ops: seq<Op<T>>, p0: nat, head: Pair<T>)
    requires PQValid(pq) && LegalRun(pq, ops)
    decreases |ops|
  {
    && p0 in pq.normal
    && (ops != [] ==> KeepsHead(pq, ops[0], p0, head) && HeadStays(Next(pq, ops[0]), ops[1..], p0, head))
  }

  /** The number of dequeues from the weighted tier in a run. */
  ghost function WeightedTakes<T>(pq: PQ<T>, ops: seq<Op<T>>): nat
    requires PQValid(pq) && LegalRun(pq, ops)
    decreases |ops|
  {
    if ops == [] then 0
    else (if TakesWeighted(pq, ops[0]) then 1 else 0) + WeightedTakes(Next(pq, ops[0]), ops[1..])
  }

  /** What is missing for the sub-queue to be able to pay for its head. */
  ghost function Missing<T>(pq: PQ<T>, p0: nat, head: Pair<T>): nat
    requires p0 in pq.normal
  {
    var t := pq.normal[p0].tokens;
    if head.cost + 1 > t then head.cost + 1 - t else 0
  }

  /** What a distribution of the cost gives to p0 when it is alone, less one. */
  function AloneShare(p0: nat, cost: nat): nat
    requires p0 > 0
  {
    QuotientNotNegative((p0 * cost) % TWO32, p0);
    (p0 * cost) % TWO32 / p0
  }

  /** Some cost of a queued item can bring the tokens of p0, when they are at the cost of its head, beyond 32 bits. */
  ghost predicate Overflows<T>(pq: PQ<T>, p0: nat, head: Pair<T>)
    requires p0 > 0
  {
    exists c: nat :: LowestCost(pq) <= c <= pq.maxPer && head.cost + AloneShare(p0, c) + 1 >= TWO32
  }

  /** There is no overflow if a head and one grant have room in 32 bits. */
  lemma RoomEnough<T>(pq: PQ<T>, p0: nat, head: Pair<T>)
    requires p0 > 0 && (head.cost + pq.maxPer + 1 < TWO32 || head.cost + (TWO32 - 1) / p0 + 1 < TWO32)
    ensures !Overflows(pq, p0, head)
  {
    forall c: nat | c <= pq.maxPer
      ensures AloneShare(p0, c) <= c && AloneShare(p0, c) <= (TWO32 - 1) / p0
    {
      QuotientAtMost((p0 * c) % TWO32, p0, c) by { Remainder(p0 * c); TimesNext(p0, c); }
      DivMonotone((p0 * c) % TWO32, TWO32 - 1, p0);
    }
  }

  lemma Remainder(x: nat)
    ensures x % TWO32 <= x
  {
  }

  lemma TimesNext(p: nat, c: nat)
    requires p > 0
    ensures p * c < p * (c + 1)
  {
  }

  /** A grant to p0 is largest when p0 is alone. */
  lemma GrantPositive(p0: nat, cost: nat, total: int)
    requires 0 < p0 <= total && AloneShare(p0, cost) + 1 < TWO32
    ensures 1 <= Grant(p0, cost, total) <= AloneShare(p0, cost) + 1
  {
    var x := (p0 * cost) % TWO32;
    Divided(x, p0);
    Divided(x, total);
    QuotientNotNegative(x, total);
    TimesLe(p0, total, x / total);
    LessFactor(p0, x / total, x / p0 + 1);
  }

  lemma LessFactor(p: nat, a: int, b: int)
    requires p * a < p * b
    ensures a < b
  {
    if a >= b {
      TimesLe(b, a, p);
    }
  }

  lemma DivMonotone(a: nat, b: nat, d: int)
    requires a <= b && d > 0
    ensures 0 <= a / d <= b / d
  {
    Divided(b, d);
    QuotientAtMost(a, d, b / d);
  }

  /** The lowest sub-queue is served as soon as it can pay for its head and the strict tier is empty. */
  lemma PayingIsChosen<T>(pq: PQ<T>, p0: nat, head: Pair<T>)
    requires PQValid(pq) && !Empty(pq) && LowestWaits(pq, p0, head)
    requires pq.high == map[] && pq.normal[p0].tokens > head.cost
    ensures Choice(pq) == Source(false, p0, true)
  {
    hide SubValid, Sum, Front;
    StoredSub(pq, p0);
    assert p0 in Eligible(pq.normal);
  }

  lemma LowestIsChosen<T>(pq: PQ<T>, p0: nat, head: Pair<T>)
    requires PQValid(pq) && !Empty(pq) && LowestWaits(pq, p0, head) && !Choice(pq).strict && Choice(pq).priority != p0
    ensures pq.normal[p0].tokens <= head.cost
  {
    hide SubValid, Sum, Front, Eligible;
    if pq.normal[p0].tokens > head.cost {
      PayingIsChosen(pq, p0, head);
    }
  }

  lemma StoredSub<T>(pq: PQ<T>, p: nat)
    requires PQValid(pq) && p in pq.normal
    ensures SubValid(pq.normal[p]) && pq.normal[p].q != map[] && pq.normal[p].maxTokens == pq.maxPer
    ensures pq.normal[p].tokens <= pq.maxPer && LowestCost(pq) <= Front(pq.normal[p]).cost <= pq.maxPer
  {
    var s := pq.normal[p];
    assert LowestCost(pq) <= s.q[s.cur.value][0].cost <= pq.maxPer;
  }

  /** Each dequeue elsewhere brings the lowest sub-queue at least one token nearer to paying. */
  lemma TakeElsewhere<T>(pq: PQ<T>, p0: nat, head: Pair<T>)
    requires PQValid(pq) && !Empty(pq) && LowestWaits(pq, p0, head) && !Choice(pq).strict && Choice(pq).priority != p0
    requires p0 > 0 && head.cost < pq.maxPer && !Overflows(pq, p0, head)
    requires p0 in Dequeue(pq).normal
    ensures Missing(Dequeue(pq), p0, head) + 1 <= Missing(pq, p0, head)
  {
    hide SubValid, Sum, Front, PopFront, PQValid, Stored, Grant;
    LowestIsChosen(pq, p0, head);
    var c, cost := Choice(pq), Front(Chosen(pq)).cost;
    StoredSub(pq, p0);
    TakeNormalValid(pq, c.priority, c.paid);
    var mid := TakeNormal(pq, c.priority, c.paid);
    assert p0 in mid.normal && mid.normal[p0] == pq.normal[p0] && mid.maxPer == pq.maxPer;
    TotalIsSum(mid);
    KeyAtMostSum(mid.normal.Keys, p0);
    StoredSub(pq, c.priority);
    assert AloneShare(p0, cost) + head.cost + 1 < TWO32;
    GrantPositive(p0, cost, mid.total);
    var t, g := pq.normal[p0].tokens, Grant(p0, cost, mid.total);
    assert Dequeue(pq).normal[p0] == PutTokens(mid.normal[p0], g);
    PutExact(mid.normal[p0], g, pq.maxPer);
  }

  lemma PutExact<T>(s: Sub<T>, g: nat, m: nat)
    requires s.maxTokens == m && s.tokens + g < TWO32
    ensures PutTokens(s, g).tokens == if s.tokens + g > m then m else s.tokens + g
  {
  }

  /** The other operations leave the tokens of a sub-queue they do not remove alone. */
  lemma OthersKeepTokens<T>(pq: PQ<T>, op: Op<T>, p0: nat)
    requires PQValid(pq) && Legal(pq, op) && !TakesWeighted(pq, op)
    requires p0 in pq.normal && p0 in Next(pq, op).normal
    ensures Next(pq, op).normal[p0].tokens == pq.normal[p0].tokens
  {
    hide SubValid, Sum, PQValid, Stored, PopFront, Front;
  }

  lemma CeilOfMember(keys: set<Key>, c: Key)
    requires c in keys
    ensures CyclicCeil(keys, c) == Some(c)
  {
  }

  lemma EnqueueKeepsFront<T>(s: Sub<T>, k: Key, pair: Pair<T>, front: bool)
    requires SubValid(s) && s.q != map[] && !(front && s.cur == Some(k))
    ensures var r := Enqueue(s, k, pair, front); SubValid(r) && r.q != map[] && Front(r) == Front(s) && r.cur == s.cur
  {
    hide TotalOf;
    EnqueueValid(s, k, pair, front);
  }

  lemma FilterKeepsFront<T>(s: Sub<T>, f: T -> bool)
    requires SubValid(s) && s.q != map[] && !f(Front(s).item)
    ensures var r := SubQueueSpec.RemoveByFilter(s, f);
            SubValid(r) && r.q != map[] && Front(r) == Front(s) && r.cur == s.cur
  {
    hide TotalOf;
    SubQueueSpec.RemoveByFilterValid(s, f);
    var c, r := s.cur.value, SubQueueSpec.RemoveByFilter(s, f);
    assert Kept(s.q[c], f)[0] == s.q[c][0];
    assert c in r.q.Keys;
    CeilOfMember(r.q.Keys, c);
  }

  lemma DropKeepsFront<T>(s: Sub<T>, k: Key)
    requires SubValid(s) && s.q != map[] && s.cur != Some(k)
    ensures var r := SubQueueSpec.RemoveByClass(s, k);
            SubValid(r) && r.q != map[] && Front(r) == Front(s) && r.cur == s.cur && r.q.Keys == s.q.Keys - {k}
  {
    hide TotalOf;
    SubQueueSpec.RemoveByClassValid(s, k);
    var c := s.cur.value;
    assert c in s.q.Keys - {k};
    CeilOfMember(s.q.Keys - {k}, c);
  }

  /** The head of p0 is that item, in the class under that cursor. */
  ghost predicate HeadAt<T>(pq: PQ<T>, p0: nat, head: Pair<T>, cur: Option<Key>) {
    PQValid(pq) && p0 in pq.normal && pq.normal[p0].cur == cur && Front(pq.normal[p0]) == head
  }

  lemma HeadFacts<T>(pq: PQ<T>, p0: nat, head: Pair<T>, cur: Option<Key>)
    requires HeadAt(pq, p0, head, cur)
    ensures PQValid(pq) && p0 in pq.normal && pq.normal[p0].cur == cur && Front(pq.normal[p0]) == head
  {
  }

  lemma HeadInSub<T>(pq: PQ<T>, p0: nat, head: Pair<T>, cur: Option<Key>, s: Sub<T>)
    requires PQValid(pq) && p0 in pq.normal && pq.normal[p0] == s && SubValid(s) && s.q != map[]
    requires s.cur == cur && Front(s) == head
    ensures HeadAt(pq, p0, head, cur)
  {
  }

  lemma WeightedKeepsHead<T>(pq: PQ<T>, p0: nat, head: Pair<T>, k: Key, p: nat, cost: nat, item: T, front: bool)
    requires PQValid(pq) && LowestWaits(pq, p0, head) && p < TWO32
    requires !(front && p == p0 && pq.normal[p0].cur == Some(k))
    ensures HeadAt(EnqueueNormal(pq, k, p, cost, item, front), p0, head, pq.normal[p0].cur)
  {
    StoredSub(pq, p0);
    hide SubValid, Sum, PQValid, Stored, Front, Enqueue, Clamp;
    var s, pair := pq.normal[p0], Pair(Clamp(cost, pq.minCost, pq.maxPer), item);
    EnqueueNormalValid(pq, k, p, cost, item, front);
    if p == p0 {
      EnqueueKeepsFront(s, k, pair, front);
    }
    HeadInSub(EnqueueNormal(pq, k, p, cost, item, front), p0, head, s.cur,
      if p == p0 then Enqueue(s, k, pair, front) else s);
  }

  lemma DropKeepsHead<T>(pq: PQ<T>, p0: nat, head: Pair<T>, k: Key)
    requires PQValid(pq) && LowestWaits(pq, p0, head) && pq.normal[p0].cur != Some(k)
    ensures HeadAt(PrioritizedQueueSpec.RemoveByClass(pq, k), p0, head, pq.normal[p0].cur)
  {
    StoredSub(pq, p0);
    hide SubValid, Sum, PQValid, Stored, Front, SubQueueSpec.RemoveByClass;
    PrioritizedQueueSpec.RemoveByClassValid(pq, k);
    DropKeepsFront(pq.normal[p0], k);
    HeadInSub(PrioritizedQueueSpec.RemoveByClass(pq, k), p0, head, pq.normal[p0].cur,
      SubQueueSpec.RemoveByClass(pq.normal[p0], k));
  }

  lemma FilterKeepsHead<T>(pq: PQ<T>, p0: nat, head: Pair<T>, f: T -> bool)
    requires PQValid(pq) && LowestWaits(pq, p0, head) && !f(head.item)
    ensures HeadAt(PrioritizedQueueSpec.RemoveByFilter(pq, f), p0, head, pq.normal[p0].cur)
  {
    StoredSub(pq, p0);
    hide SubValid, Sum, PQValid, Stored, Front, SubQueueSpec.RemoveByFilter;
    PrioritizedQueueSpec.RemoveByFilterValid(pq, f);
    FilterKeepsFront(pq.normal[p0], f);
    HeadInSub(PrioritizedQueueSpec.RemoveByFilter(pq, f), p0, head, pq.normal[p0].cur,
      SubQueueSpec.RemoveByFilter(pq.normal[p0], f));
  }

  /** The sub-queue of p0 has the same lists and cursor as before. */
  lemma HeadUnchanged<T>(pq: PQ<T>, next: PQ<T>, p0: nat, head: Pair<T>)
    requires PQValid(pq) && PQValid(next) && LowestWaits(pq, p0, head) && p0 in next.normal
    requires next.normal[p0].q == pq.normal[p0].q && next.normal[p0].cur == pq.normal[p0].cur
    ensures HeadAt(next, p0, head, pq.normal[p0].cur)
  {
    hide Stored;
    StoredSub(pq, p0);
    StoredSub(next, p0);
  }

  /** A dequeue elsewhere leaves the lists of p0 alone. */
  lemma TakeKeepsLists<T>(pq: PQ<T>, p0: nat)
    requires PQValid(pq) && !Empty(pq) && p0 in pq.normal && (!Choice(pq).strict ==> Choice(pq).priority != p0)
    ensures PQValid(Dequeue(pq)) && p0 in Dequeue(pq).normal
    ensures Dequeue(pq).normal[p0].q == pq.normal[p0].q && Dequeue(pq).normal[p0].cur == pq.normal[p0].cur
    ensures forall p :: p in Dequeue(pq).normal ==> p in pq.normal
  {
    hide Sum, PopFront, Stored, Grant, PQValid, Front;
    DequeueValid(pq);
  }

  /** An operation that keeps the head leaves the cursor of p0 where it is and the same item under it. */
  lemma StepKeepsHead<T>(pq: PQ<T>, op: Op<T>, p0: nat, head: Pair<T>)
    requires PQValid(pq) && Legal(pq, op) && LowestWaits(pq, p0, head) && KeepsHead(pq, op, p0, head)
    requires TakesWeighted(pq, op) ==> Choice(pq).priority != p0
    ensures HeadAt(Next(pq, op), p0, head, pq.normal[p0].cur)
  {
    hide SubValid, Sum, PQValid, HeadAt, EnqueueNormal, Dequeue, Choice, Empty;
    hide PrioritizedQueueSpec.RemoveByClass, PrioritizedQueueSpec.RemoveByFilter;
    match op
    case Strict(k, p, item, front) =>
      EnqueueStrictValid(pq, k, p, item, front);
      HeadUnchanged(pq, EnqueueStrict(pq, k, p, item, front), p0, head);
    case Weighted(k, p, cost, item, front) => WeightedKeepsHead(pq, p0, head, k, p, cost, item, front);
    case Take =>
      TakeKeepsLists(pq, p0);
      HeadUnchanged(pq, Dequeue(pq), p0, head);
    case DropClass(k) => DropKeepsHead(pq, p0, head, k);
    case DropMatching(f) => FilterKeepsHead(pq, p0, head, f);
  }

  /** The starvation bound, over every run: at most max(0, cost + 1 - tokens) weighted dequeues go elsewhere. */
  lemma {:induction false} BypassBound<T>(pq: PQ<T>, ops: seq<Op<T>>, p0: nat, head: Pair<T>)
    requires PQValid(pq) && LegalRun(pq, ops) && Bypassed(pq, ops, p0, head)
    requires p0 > 0 && head.cost < pq.maxPer && !Overflows(pq, p0, head)
    ensures WeightedTakes(pq, ops) <= Missing(pq, p0, head)
    decreases |ops|
  {
    hide PQValid, Dequeue, Choice;
    if ops != [] {
      var next := Next(pq, ops[0]);
      RunKeepsInvariant(pq, [ops[0]]);
      BypassBound(next, ops[1..], p0, head);
      if TakesWeighted(pq, ops[0]) {
        TakeElsewhere(pq, p0, head);
      } else {
        OthersKeepTokens(pq, ops[0], p0);
      }
    }
  }
}
