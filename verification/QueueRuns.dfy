/** Runs of the prioritized queue: the invariant in every reachable state, and refinement to independent deques. */
module QueueRuns {
  import opened Options
  import opened OrderedKeys
  import opened SubQueueSpec
  import Spec = PrioritizedQueueSpec
  import opened PrioritizedQueueSpec

  datatype Op<!T> =
    | Strict(k: Key, p: nat, item: T, front: bool)
    | Weighted(k: Key, p: nat, cost: nat, item: T, front: bool)
    | Take
    | DropClass(k: Key)
    | DropMatching(f: T -> bool)

  /** What the source asks of its caller: 32-bit priorities, and no dequeue from an empty queue. */
  ghost predicate Legal<T>(pq: PQ<T>, op: Op<T>) {
    && (op.Strict? || op.Weighted? ==> op.p < TWO32)
    && (op.Take? ==> !Empty(pq))
  }

  ghost function Next<T>(pq: PQ<T>, op: Op<T>): (r: PQ<T>)
    requires PQValid(pq) && Legal(pq, op)
    ensures PQValid(r)
  {
    match op
    case Strict(k, p, item, front) => EnqueueStrictValid(pq, k, p, item, front); EnqueueStrict(pq, k, p, item, front)
    case Weighted(k, p, cost, item, front) =>
      EnqueueNormalValid(pq, k, p, cost, item, front); EnqueueNormal(pq, k, p, cost, item, front)
    case Take => DequeueValid(pq); Dequeue(pq)
    case DropClass(k) => Spec.RemoveByClassValid(pq, k); Spec.RemoveByClass(pq, k)
    case DropMatching(f) => Spec.RemoveByFilterValid(pq, f); Spec.RemoveByFilter(pq, f)
  }

  ghost predicate LegalRun<T>(pq: PQ<T>, ops: seq<Op<T>>)
    requires PQValid(pq)
    decreases |ops|
  {
    ops != [] ==> Legal(pq, ops[0]) && LegalRun(Next(pq, ops[0]), ops[1..])
  }

  ghost function Run<T>(pq: PQ<T>, ops: seq<Op<T>>): (r: PQ<T>)
    requires PQValid(pq) && LegalRun(pq, ops)
    ensures PQValid(r)
    decreases |ops|
  {
    if ops == [] then pq else Run(Next(pq, ops[0]), ops[1..])
  }

  ghost function Initial<T>(maxPer: nat, minCost: nat): (pq: PQ<T>)
    ensures maxPer < TWO32 && minCost < TWO32 ==> PQValid(pq)
  {
    PQ(map[], map[], 0, maxPer, minCost)
  }

  lemma {:induction false} RunKeepsInvariant<T>(pq: PQ<T>, ops: seq<Op<T>>)
    requires PQValid(pq) && LegalRun(pq, ops)
    ensures PQValid(Run(pq, ops)) && Run(pq, ops).maxPer == pq.maxPer && Run(pq, ops).minCost == pq.minCost
    decreases |ops|
  {
    hide PQValid;
    if ops != [] {
      RunKeepsInvariant(Next(pq, ops[0]), ops[1..]);
    }
  }

  /** The representation invariant, spelled out, in every state reachable from an empty queue. */
  lemma ReachableInvariant<T>(maxPer: nat, minCost: nat, ops: seq<Op<T>>)
    requires maxPer < TWO32 && minCost < TWO32
    requires LegalRun(Initial<T>(maxPer, minCost), ops)
    ensures var pq := Run(Initial<T>(maxPer, minCost), ops);
            && pq.total == Sum(pq.normal.Keys, Identity())
            && (forall p :: p in pq.normal ==>
                  InOrder(pq.normal[p]) && WithinLimits(pq.normal[p], LowestCost(pq), maxPer))
            && (forall p :: p in pq.high ==> InOrder(pq.high[p]))
  {
    hide Sum, TotalOf;
    RunKeepsInvariant(Initial<T>(maxPer, minCost), ops);
  }

  /** No empty sub-queue or class list, a size that is the number of queued items, a cursor on a queued class. */
  ghost predicate InOrder<T>(s: Sub<T>) {
    && s.q != map[] && (forall k :: k in s.q ==> s.q[k] != [])
    && s.size == TotalOf(s.q)
    && s.cur.Some? && s.cur.value in s.q
  }

  ghost predicate WithinLimits<T>(s: Sub<T>, low: nat, maxPer: nat) {
    s.tokens <= maxPer && CostsWithin(s.q, low, maxPer)
  }

  // ---- deques ----

  /** The items of one class in one sub-queue of one tier. */
  ghost function Deque<T>(pq: PQ<T>, strict: bool, p: nat, k: Key): seq<T> {
    var subs := if strict then pq.high else pq.normal;
    if p in subs then Items(ListAt(subs[p].q, k)) else []
  }

  lemma EnqueueItems<T>(s: Sub<T>, k: Key, pair: Pair<T>, front: bool, j: Key)
    ensures var d, d' := Items(ListAt(s.q, j)), Items(ListAt(Enqueue(s, k, pair, front).q, j));
            d' == if j == k then (if front then [pair.item] + d else d + [pair.item]) else d
  {
  }

  lemma EnqueueStrictDeque<T>(pq: PQ<T>, k: Key, p: nat, item: T, front: bool, strict: bool, r: nat, j: Key)
    ensures var d, d' := Deque(pq, strict, r, j), Deque(EnqueueStrict(pq, k, p, item, front), strict, r, j);
            d' == if strict && r == p && j == k then (if front then [item] + d else d + [item]) else d
  {
    hide Enqueue, Items;
    EnqueueItems(SubAt(pq.high, p, 0), k, Pair(0, item), front, j);
    ItemsOfNothing<T>();
  }

  lemma EnqueueNormalDeque<T>(pq: PQ<T>, k: Key, p: nat, cost: nat, item: T, front: bool, strict: bool, r: nat, j: Key)
    ensures var d, d' := Deque(pq, strict, r, j), Deque(EnqueueNormal(pq, k, p, cost, item, front), strict, r, j);
            d' == if !strict && r == p && j == k then (if front then [item] + d else d + [item]) else d
  {
    hide Enqueue, Items, Clamp;
    EnqueueItems(SubAt(pq.normal, p, pq.maxPer), k, Pair(Clamp(cost, pq.minCost, pq.maxPer), item), front, j);
    ItemsOfNothing<T>();
  }

  ghost predicate SameLists<T>(before: Subs<T>, after: Subs<T>) {
    before.Keys == after.Keys && forall p :: p in before ==> after[p].q == before[p].q
  }

  lemma DistributeKeepsLists<T>(pq: PQ<T>, cost: nat)
    ensures Distribute(pq, cost).high == pq.high && SameLists(pq.normal, Distribute(pq, cost).normal)
  {
  }

  lemma PopDeque<T>(s: Sub<T>, k: Key)
    requires SubValid(s) && s.q != map[]
    ensures s.cur.Some? && s.cur.value in s.q
    ensures var d, d' := Items(ListAt(s.q, k)), Items(ListAt(PopFront(s).q, k));
            if s.cur.value == k then d == [Front(s).item] + d' else d' == d
  {
    hide TotalOf, Items;
    var c := s.cur.value;
    assert s.q[c] == [s.q[c][0]] + s.q[c][1..];
    ItemsCons(s.q[c][0], s.q[c][1..]);
    ItemsOfNothing<T>();
    assert k in PopFront(s).q ==> k == c || k in s.q;
  }

  lemma ItemsCons<T>(pair: Pair<T>, l: seq<Pair<T>>)
    ensures Items([pair] + l) == [pair.item] + Items(l)
  {
  }

  /** A dequeue takes one item off the front of one deque and leaves all others alone. */
  lemma DequeueDeque<T>(pq: PQ<T>, strict: bool, r: nat, j: Key)
    requires PQValid(pq) && !Empty(pq)
    ensures Chosen(pq).cur.Some?
    ensures var c, d, d' := Choice(pq), Deque(pq, strict, r, j), Deque(Dequeue(pq), strict, r, j);
            if strict == c.strict && r == c.priority && j == Chosen(pq).cur.value
            then d == [Dequeued(pq)] + d' else d' == d
  {
    hide SubValid, PopFront, Front, Items, Sum, Stored, PQValid;
    var c, s := Choice(pq), Chosen(pq);
    PopDeque(s, j);
    if c.strict {
      PutBackDeque(pq, true, c.priority, PopFront(s), strict, r, j);
    } else {
      var taken := if c.paid then PaidFor(s, Front(s).cost) else s;
      PopDeque(taken, j);
      SameFront(s, taken);
      TakeNormalValid(pq, c.priority, c.paid);
      DistributeKeepsLists(TakeNormal(pq, c.priority, c.paid), Front(s).cost);
      PutBackDeque(pq, false, c.priority, PopFront(taken), strict, r, j);
    }
  }

  lemma SameFront<T>(s: Sub<T>, t: Sub<T>)
    requires SubValid(s) && SubValid(t) && s.q != map[] && t.q == s.q && t.cur == s.cur
    ensures Front(t) == Front(s)
  {
  }

  lemma PutBackDeque<T>(pq: PQ<T>, tier: bool, p: nat, s: Sub<T>, strict: bool, r: nat, j: Key)
    requires p in (if tier then pq.high else pq.normal)
    ensures var pq' := if tier then PutBackHigh(pq, p, s) else PutBackNormal(pq, p, s);
            Deque(pq', strict, r, j)
            == if strict == tier && r == p then Items(ListAt(s.q, j)) else Deque(pq, strict, r, j)
  {
  }

  // ---- removals ----

  /** The items that do not satisfy f, in order. */
  function Without<T>(l: seq<T>, f: T -> bool): seq<T> {
    if l == [] then [] else (if f(l[0]) then [] else [l[0]]) + Without(l[1..], f)
  }

  lemma {:induction false} KeptItems<T>(l: seq<Pair<T>>, f: T -> bool)
    ensures Items(Kept(l, f)) == Without(Items(l), f)
  {
    if l != [] {
      KeptItems(l[1..], f);
      assert Items(l)[1..] == Items(l[1..]);
      assert Items([l[0]] + Kept(l[1..], f)) == [l[0].item] + Items(Kept(l[1..], f));
    }
  }

  lemma FilterSub<T>(s: Sub<T>, f: T -> bool, j: Key)
    ensures Items(ListAt(SubQueueSpec.RemoveByFilter(s, f).q, j)) == Without(Items(ListAt(s.q, j)), f)
  {
    hide Items, Without, TotalOf;
    KeptItems(ListAt(s.q, j), f);
    ItemsOfNothing<T>();
  }

  lemma NonEmptyDeque<T>(subs: Subs<T>, r: nat, j: Key)
    ensures (if r in NonEmpty(subs) then Items(ListAt(NonEmpty(subs)[r].q, j)) else [])
            == (if r in subs then Items(ListAt(subs[r].q, j)) else [])
  {
  }

  /** Filtering removes exactly the items that satisfy f, from every deque, and keeps the order of the rest. */
  lemma RemoveByFilterDeque<T>(pq: PQ<T>, f: T -> bool, strict: bool, r: nat, j: Key)
    ensures Deque(Spec.RemoveByFilter(pq, f), strict, r, j) == Without(Deque(pq, strict, r, j), f)
  {
    hide SubQueueSpec.RemoveByFilter, Without, Items, NonEmpty, Sum;
    var subs := if strict then pq.high else pq.normal;
    NonEmptyDeque(Filtered(subs, f), r, j);
    if r in subs {
      FilterSub(subs[r], f, j);
    }
    WithoutNothing(f);
  }

  lemma WithoutNothing<T>(f: T -> bool)
    ensures Without([], f) == []
  {
  }

  /** Removing class k empties exactly the deques of that class. */
  lemma RemoveByClassDeque<T>(pq: PQ<T>, k: Key, strict: bool, r: nat, j: Key)
    ensures Deque(Spec.RemoveByClass(pq, k), strict, r, j) == if j == k then [] else Deque(pq, strict, r, j)
  {
    hide Items, NonEmpty, Sum;
    var subs := if strict then pq.high else pq.normal;
    NonEmptyDeque(WithoutClass(subs, k), r, j);
    ItemsOfNothing<T>();
  }

  // ---- the number of queued items ----

  ghost function Size<T>(pq: PQ<T>): int {
    Count(pq.normal) + Count(pq.high)
  }

  lemma CountSet<T>(subs: Subs<T>, p: nat, s: Sub<T>)
    ensures Count(subs[p := s]) == Count(subs) - (if p in subs then TotalOf(subs[p].q) else 0) + TotalOf(s.q)
    ensures Count(subs - {p}) == Count(subs) - (if p in subs then TotalOf(subs[p].q) else 0)
  {
    hide TotalOf, Sum;
    CountErase(subs, p);
    var f := (r: nat) => if r in subs then TotalOf(subs[r].q) else 0;
    var set1 := subs[p := s];
    SumAdd(subs.Keys, p, f, (r: nat) => if r in set1 then TotalOf(set1[r].q) else 0);
    assert set1.Keys == subs.Keys + {p};
  }

  lemma CountErase<T>(subs: Subs<T>, p: nat)
    ensures Count(subs - {p}) == Count(subs) - (if p in subs then TotalOf(subs[p].q) else 0)
  {
    hide TotalOf, Sum;
    var f := (r: nat) => if r in subs then TotalOf(subs[r].q) else 0;
    var del := subs - {p};
    assert del.Keys == subs.Keys - {p};
    SumSame(subs.Keys - {p}, f, (r: nat) => if r in del then TotalOf(del[r].q) else 0);
    if p in subs {
      SumRemove(subs.Keys, p, f);
    } else {
      assert subs.Keys - {p} == subs.Keys;
    }
  }

  lemma CountSame<T>(before: Subs<T>, after: Subs<T>)
    requires SameLists(before, after)
    ensures Count(after) == Count(before)
  {
    hide TotalOf;
    SumSame(before.Keys, (r: nat) => if r in before then TotalOf(before[r].q) else 0,
      (r: nat) => if r in after then TotalOf(after[r].q) else 0);
  }

  lemma TotalOfNothing<T>()
    ensures TotalOf<T>(map[]) == 0
  {
  }

  /** Every enqueue adds one item. */
  lemma EnqueueSize<T>(pq: PQ<T>, k: Key, p: nat, cost: nat, item: T, front: bool)
    requires PQValid(pq)
    ensures Size(EnqueueStrict(pq, k, p, item, front)) == Size(pq) + 1
    ensures Size(EnqueueNormal(pq, k, p, cost, item, front)) == Size(pq) + 1
  {
    hide Sum, TotalOf, Count;
    var pair := Pair(Clamp(cost, pq.minCost, pq.maxPer), item);
    var high, normal := SubAt(pq.high, p, 0), SubAt(pq.normal, p, pq.maxPer);
    TotalOfNothing<T>();
    EnqueueTotal(high, k, Pair(0, item), front);
    EnqueueTotal(normal, k, pair, front);
    CountSet(pq.high, p, Enqueue(high, k, Pair(0, item), front));
    CountSet(pq.normal, p, Enqueue(normal, k, pair, front));
  }

  lemma EnqueueTotal<T>(s: Sub<T>, k: Key, pair: Pair<T>, front: bool)
    ensures TotalOf(Enqueue(s, k, pair, front).q) == TotalOf(s.q) + 1
  {
    hide TotalOf;
    TotalSet(s.q, k, if front then [pair] + ListAt(s.q, k) else ListAt(s.q, k) + [pair]);
  }

  lemma PopTotal<T>(s: Sub<T>)
    requires SubValid(s) && s.q != map[]
    ensures TotalOf(PopFront(s).q) == TotalOf(s.q) - 1
  {
    hide TotalOf;
    PopFrontValid(s);
  }

  /** Every dequeue removes one item, from the tier it chooses. */
  lemma DequeueCounts<T>(pq: PQ<T>)
    requires PQValid(pq) && !Empty(pq)
    ensures Count(Dequeue(pq).high) == Count(pq.high) - if Choice(pq).strict then 1 else 0
    ensures Count(Dequeue(pq).normal) == Count(pq.normal) - if Choice(pq).strict then 0 else 1
  {
    hide Sum, TotalOf, Count, PopFront, Front, Stored, PQValid;
    TotalOfNothing<T>();
    var c, s := Choice(pq), Chosen(pq);
    if c.strict {
      PopTotal(s);
      CountSet(pq.high, c.priority, PopFront(s));
    } else {
      var taken := if c.paid then PaidFor(s, Front(s).cost) else s;
      PopTotal(taken);
      CountSet(pq.normal, c.priority, PopFront(taken));
      TakeNormalValid(pq, c.priority, c.paid);
      DistributeKeepsLists(TakeNormal(pq, c.priority, c.paid), Front(s).cost);
      CountSame(TakeNormal(pq, c.priority, c.paid).normal, Dequeue(pq).normal);
    }
  }

  lemma DequeueSize<T>(pq: PQ<T>)
    requires PQValid(pq) && !Empty(pq)
    ensures Size(Dequeue(pq)) == Size(pq) - 1
  {
    hide Count, PQValid;
    DequeueCounts(pq);
  }

  // ---- arrival order ----

  /** Appends, dequeues, and removals of other classes. */
  predicate QueueOp<T>(op: Op<T>, k: Key) {
    match op
    case Strict(_, _, _, front) => !front
    case Weighted(_, _, _, _, front) => !front
    case Take => true
    case DropClass(j) => j != k
    case DropMatching(_) => false
  }

  /** What one operation appends to one deque. */
  function Arrival<T>(op: Op<T>, strict: bool, p: nat, k: Key): seq<T> {
    match op
    case Strict(j, r, item, _) => if strict && r == p && j == k then [item] else []
    case Weighted(j, r, _, item, _) => if !strict && r == p && j == k then [item] else []
    case Take => []
    case DropClass(_) => []
    case DropMatching(_) => []
  }

  /** What one operation dequeues from one deque. */
  ghost function Departure<T>(pq: PQ<T>, op: Op<T>, strict: bool, p: nat, k: Key): seq<T>
    requires PQValid(pq) && Legal(pq, op)
  {
    if op.Take? && Choice(pq).strict == strict && Choice(pq).priority == p && Chosen(pq).cur == Some(k)
    then [Dequeued(pq)] else []
  }

  /** The items a run appends to one deque, in arrival order. */
  function Arrivals<T>(ops: seq<Op<T>>, strict: bool, p: nat, k: Key): seq<T> {
    if ops == [] then [] else Arrival(ops[0], strict, p, k) + Arrivals(ops[1..], strict, p, k)
  }

  /** The items a run dequeues from one deque, in the order they come out. */
  ghost function Departures<T>(pq: PQ<T>, ops: seq<Op<T>>, strict: bool, p: nat, k: Key): seq<T>
    requires PQValid(pq) && LegalRun(pq, ops)
    decreases |ops|
  {
    if ops == [] then []
    else Departure(pq, ops[0], strict, p, k) + Departures(Next(pq, ops[0]), ops[1..], strict, p, k)
  }

  lemma StepDeque<T>(pq: PQ<T>, op: Op<T>, strict: bool, p: nat, k: Key)
    requires PQValid(pq) && Legal(pq, op) && QueueOp(op, k)
    ensures Deque(pq, strict, p, k) + Arrival(op, strict, p, k)
            == Departure(pq, op, strict, p, k) + Deque(Next(pq, op), strict, p, k)
  {
    hide PQValid, Deque, Choice, Chosen, Dequeued, Empty;
    match op
    case Strict(j, r, item, front) => EnqueueStrictDeque(pq, j, r, item, front, strict, p, k);
    case Weighted(j, r, cost, item, front) => EnqueueNormalDeque(pq, j, r, cost, item, front, strict, p, k);
    case Take => DequeueDeque(pq, strict, p, k);
    case DropClass(j) => RemoveByClassDeque(pq, j, strict, p, k);
  }

  lemma Regroup<T>(d: seq<T>, a: seq<T>, rest: seq<T>, out: seq<T>, d': seq<T>, outs: seq<T>, end: seq<T>)
    requires d + a == out + d' && d' + rest == outs + end
    ensures d + (a + rest) == (out + outs) + end
  {
    assert d + (a + rest) == (d + a) + rest == out + (d' + rest);
  }

  /** Each deque is a queue: what a run appends comes out in arrival order, after what was there, whatever the costs. */
  lemma {:induction false} ArrivalOrder<T>(pq: PQ<T>, ops: seq<Op<T>>, strict: bool, p: nat, k: Key)
    requires PQValid(pq) && LegalRun(pq, ops)
    requires forall i :: 0 <= i < |ops| ==> QueueOp(ops[i], k)
    ensures Deque(pq, strict, p, k) + Arrivals(ops, strict, p, k)
            == Departures(pq, ops, strict, p, k) + Deque(Run(pq, ops), strict, p, k)
    decreases |ops|
  {
    hide PQValid, Deque, Legal, Arrival, Departure, QueueOp;
    if ops != [] {
      var rest, next := ops[1..], Next(pq, ops[0]);
      StepDeque(pq, ops[0], strict, p, k);
      ArrivalOrder(next, rest, strict, p, k);
      Regroup(Deque(pq, strict, p, k), Arrival(ops[0], strict, p, k), Arrivals(rest, strict, p, k),
        Departure(pq, ops[0], strict, p, k), Deque(next, strict, p, k), Departures(next, rest, strict, p, k),
        Deque(Run(pq, ops), strict, p, k));
    }
  }

  // ---- arrival order, with removals of any kind ----

  /** a is b with some items left out. */
  ghost predicate Subsequence<T>(a: seq<T>, b: seq<T>) {
    if b == [] then a == []
    else (a != [] && a[0] == b[0] && Subsequence(a[1..], b[1..])) || Subsequence(a, b[1..])
  }

  lemma {:induction false} SubsequenceSelf<T>(a: seq<T>)
    ensures Subsequence(a, a)
  {
    if a != [] {
      SubsequenceSelf(a[1..]);
    }
  }

  lemma {:induction false} SubsequenceAfter<T>(d: seq<T>, a: seq<T>, b: seq<T>)
    requires Subsequence(a, b)
    ensures Subsequence(a, d + b)
  {
    if d == [] {
      assert d + b == b;
    } else {
      assert (d + b)[1..] == d[1..] + b;
      SubsequenceAfter(d[1..], a, b);
    }
  }

  lemma {:induction false} SubsequencePrefixed<T>(d: seq<T>, a: seq<T>, b: seq<T>)
    requires Subsequence(a, b)
    ensures Subsequence(d + a, d + b)
  {
    if d == [] {
      assert d + a == a && d + b == b;
    } else {
      assert (d + a)[1..] == d[1..] + a && (d + b)[1..] == d[1..] + b;
      SubsequencePrefixed(d[1..], a, b);
    }
  }

  lemma {:induction false} SubsequenceTransitive<T>(a: seq<T>, b: seq<T>, c: seq<T>)
    requires Subsequence(a, b) && Subsequence(b, c)
    ensures Subsequence(a, c)
    decreases |c|
  {
    if c != [] && b != [] {
      if b[0] == c[0] && Subsequence(b[1..], c[1..]) {
        if a != [] && a[0] == b[0] && Subsequence(a[1..], b[1..]) {
          SubsequenceTransitive(a[1..], b[1..], c[1..]);
        } else {
          SubsequenceTransitive(a, b[1..], c[1..]);
        }
      } else {
        SubsequenceTransitive(a, b, c[1..]);
      }
    } else if c != [] {
      SubsequenceTransitive(a, b, c[1..]);
    }
  }

  lemma {:induction false} WithoutBefore<T>(l: seq<T>, f: T -> bool, rest: seq<T>)
    ensures Subsequence(Without(l, f) + rest, l + rest)
  {
    if l == [] {
      SubsequenceSelf(rest);
      assert l + rest == rest == Without(l, f) + rest;
    } else {
      WithoutBefore(l[1..], f, rest);
      var head := if f(l[0]) then [] else [l[0]];
      assert l + rest == [l[0]] + (l[1..] + rest);
      assert Without(l, f) + rest == head + (Without(l[1..], f) + rest);
      if f(l[0]) {
        SubsequenceAfter([l[0]], Without(l[1..], f) + rest, l[1..] + rest);
        assert head + (Without(l[1..], f) + rest) == Without(l[1..], f) + rest;
      } else {
        SubsequencePrefixed([l[0]], Without(l[1..], f) + rest, l[1..] + rest);
      }
    }
  }

  predicate Appends<T>(op: Op<T>) {
    op.Strict? || op.Weighted? ==> !op.front
  }

  /** One step puts nothing into a deque but at its end, and takes nothing out of the order. */
  lemma StepSubsequence<T>(pq: PQ<T>, op: Op<T>, strict: bool, p: nat, k: Key, out: seq<T>, rest: seq<T>)
    requires PQValid(pq) && Legal(pq, op) && Appends(op)
    requires Subsequence(out, Deque(Next(pq, op), strict, p, k) + rest)
    ensures Subsequence(Departure(pq, op, strict, p, k) + out,
                        Deque(pq, strict, p, k) + (Arrival(op, strict, p, k) + rest))
  {
    hide PQValid, Deque, Empty, Subsequence, Without, Arrival, Departure, QueueOp, Next;
    var d, d' := Deque(pq, strict, p, k), Deque(Next(pq, op), strict, p, k);
    var x, y := Departure(pq, op, strict, p, k), Arrival(op, strict, p, k);
    if QueueOp(op, k) {
      StepDeque(pq, op, strict, p, k);
      SubsequencePrefixed(x, out, d' + rest);
      assert d + (y + rest) == (d + y) + rest == (x + d') + rest == x + (d' + rest);
    } else {
      StepRemoves(pq, op, strict, p, k);
      WithoutBefore(d, if op.DropMatching? then op.f else (_ => true), rest);
      SubsequenceTransitive(out, d' + rest, d + rest);
      assert x + out == out && y + rest == rest;
    }
  }

  lemma StepRemoves<T>(pq: PQ<T>, op: Op<T>, strict: bool, p: nat, k: Key)
    requires PQValid(pq) && Legal(pq, op) && Appends(op) && !QueueOp(op, k)
    ensures Departure(pq, op, strict, p, k) == [] && Arrival(op, strict, p, k) == []
    ensures Deque(Next(pq, op), strict, p, k)
            == Without(Deque(pq, strict, p, k), if op.DropMatching? then op.f else (_ => true))
  {
    hide PQValid, Deque, Without;
    if op.DropMatching? {
      RemoveByFilterDeque(pq, op.f, strict, p, k);
    } else {
      RemoveByClassDeque(pq, k, strict, p, k);
      WithoutAny(Deque(pq, strict, p, k));
    }
  }

  lemma {:induction false} WithoutAny<T>(l: seq<T>)
    ensures Without(l, _ => true) == []
  {
    if l != [] {
      WithoutAny(l[1..]);
    }
  }

  /** In every run that appends only, what comes out of a deque and what is left in it are items that were there or were
      appended, each at most once and in arrival order, whatever is removed in between. */
  lemma {:induction false} ArrivalOrderKept<T>(pq: PQ<T>, ops: seq<Op<T>>, strict: bool, p: nat, k: Key)
    requires PQValid(pq) && LegalRun(pq, ops) && forall i :: 0 <= i < |ops| ==> Appends(ops[i])
    ensures Subsequence(Departures(pq, ops, strict, p, k) + Deque(Run(pq, ops), strict, p, k),
                        Deque(pq, strict, p, k) + Arrivals(ops, strict, p, k))
    decreases |ops|
  {
    hide PQValid, Deque, Legal, Arrival, Departure, Appends, Subsequence;
    var last := Deque(Run(pq, ops), strict, p, k);
    if ops == [] {
      SubsequenceSelf(last);
      assert [] + last == last == last + [];
    } else {
      var rest, next := ops[1..], Next(pq, ops[0]);
      ArrivalOrderKept(next, rest, strict, p, k);
      var x, outs := Departure(pq, ops[0], strict, p, k), Departures(next, rest, strict, p, k);
      StepSubsequence(pq, ops[0], strict, p, k, outs + last, Arrivals(rest, strict, p, k));
      assert (x + outs) + last == x + (outs + last);
    }
  }
}
