/** The dispatch queue as a client of the prioritized queue: which tier an item goes to, and the order in which the
    items of one sender and priority come out. */
module DispatchQueues {
  import opened Arithmetic
  import opened Options
  import opened OrderedKeys
  import opened SubQueueSpec
  import opened Spec = PrioritizedQueueSpec
  import opened QueueRuns
  import opened QueueOrder
  import opened PrioritizedQueues
  import QueueTokens

  const MSG_PRIO_LOW := 64
  const MSG_PRIO_HIGHEST := 255

  type Int = x: int | -0x8000_0000 <= x < 0x8000_0000

  /** What is queued: a message, or the code of a connection event; with the priority and the id it was queued under. */
  datatype Item<!M> = Item(priority: Int, id: Key, content: Content<M>)

  datatype Content<!M> = Message(m: M) | Code(code: Int, connection: Key)

  /** The conversion of an int to unsigned: a negative priority becomes higher than all others. */
  function Unsigned(priority: Int): (r: nat)
    ensures r < TWO32 && (priority < 0 <==> r >= 0x8000_0000)
  {
    if priority < 0 then priority + TWO32 else priority
  }

  predicate IsStrict(priority: Int) {
    priority >= MSG_PRIO_LOW
  }

  datatype Call<!M> =
    | Send(m: M, priority: Int, id: Key, cost: nat)
    | Notify(code: Int, connection: Key)
    | Deliver
    | Discard(id: Key)

  /** The operation of the prioritized queue that a call makes. */
  function QueueOpOf<M>(call: Call<M>): Op<Item<M>> {
    match call
    case Send(m, priority, id, cost) =>
      var item := Item(priority, id, Message(m));
      if IsStrict(priority) then Strict(id, Unsigned(priority), item, false)
      else Weighted(id, Unsigned(priority), cost, item, false)
    case Notify(code, connection) =>
      Strict(0, MSG_PRIO_HIGHEST, Item(MSG_PRIO_HIGHEST, 0, Code(code, connection)), false)
    case Deliver => Take
    case Discard(id) => DropClass(id)
  }

  function QueueOpsOf<M>(calls: seq<Call<M>>): (ops: seq<Op<Item<M>>>)
    ensures |ops| == |calls| && forall i :: 0 <= i < |calls| ==> ops[i] == QueueOpOf(calls[i])
  {
    seq(|calls|, i requires 0 <= i < |calls| => QueueOpOf(calls[i]))
  }

  /** The items of one priority and id. */
  function Of<M>(items: seq<Item<M>>, priority: Int, id: Key): seq<Item<M>> {
    if items == [] then []
    else (if items[0].priority == priority && items[0].id == id then [items[0]] else []) + Of(items[1..], priority, id)
  }

  /** All items that the calls queue, in the order of the calls. */
  function Sent<M>(calls: seq<Call<M>>): seq<Item<M>> {
    if calls == [] then []
    else
      (match QueueOpOf(calls[0])
       case Strict(_, _, item, _) => [item]
       case Weighted(_, _, _, item, _) => [item]
       case _ => []) + Sent(calls[1..])
  }

  /** All items that the queue gives out, in the order in which they come out. */
  ghost function Delivered<M>(pq: PQ<Item<M>>, ops: seq<Op<Item<M>>>): seq<Item<M>>
    requires PQValid(pq) && LegalRun(pq, ops)
    decreases |ops|
  {
    if ops == [] then []
    else (if ops[0].Take? then [Dequeued(pq)] else []) + Delivered(Next(pq, ops[0]), ops[1..])
  }

  /** Every item is in the deque that its priority and id name. */
  ghost predicate Filed<M>(pq: PQ<Item<M>>) {
    forall strict, p, k, i :: 0 <= i < |Deque(pq, strict, p, k)| ==> InDeque(Deque(pq, strict, p, k)[i], strict, p, k)
  }

  predicate InDeque<M>(item: Item<M>, strict: bool, p: nat, k: Key) {
    strict == IsStrict(item.priority) && p == Unsigned(item.priority) && k == item.id
  }

  predicate FiledOp<M>(op: Op<Item<M>>) {
    match op
    case Strict(k, p, item, front) => InDeque(item, true, p, k) && !front
    case Weighted(k, p, _, item, front) => InDeque(item, false, p, k) && !front
    case Take => true
    case DropClass(_) => true
    case DropMatching(_) => false
  }

  lemma CallsAreFiled<M>(call: Call<M>)
    ensures FiledOp(QueueOpOf(call)) && Appends(QueueOpOf(call))
  {
  }

  /** Different priorities have different deques, in spite of the conversion to unsigned. */
  lemma DequesDiffer<M>(a: Item<M>, priority: Int, id: Key)
    ensures InDeque(a, IsStrict(priority), Unsigned(priority), id) <==> a.priority == priority && a.id == id
  {
  }

  lemma StepFiled<M>(pq: PQ<Item<M>>, op: Op<Item<M>>)
    requires PQValid(pq) && Legal(pq, op) && Filed(pq) && FiledOp(op)
    ensures Filed(Next(pq, op))
  {
    hide PQValid, Deque, Choice, Chosen, Dequeued, Empty, InDeque;
    forall strict, p, k, i | 0 <= i < |Deque(Next(pq, op), strict, p, k)|
      ensures InDeque(Deque(Next(pq, op), strict, p, k)[i], strict, p, k)
    {
      StepDequeFiled(pq, op, strict, p, k, i);
    }
  }

  lemma StepDequeFiled<M>(pq: PQ<Item<M>>, op: Op<Item<M>>, strict: bool, p: nat, k: Key, i: nat)
    requires PQValid(pq) && Legal(pq, op) && Filed(pq) && FiledOp(op)
    requires i < |Deque(Next(pq, op), strict, p, k)|
    ensures InDeque(Deque(Next(pq, op), strict, p, k)[i], strict, p, k)
  {
    hide PQValid, Deque, Choice, Chosen, Dequeued, Empty, InDeque;
    match op
    case Strict(j, r, item, front) => EnqueueStrictDeque(pq, j, r, item, front, strict, p, k);
    case Weighted(j, r, cost, item, front) => EnqueueNormalDeque(pq, j, r, cost, item, front, strict, p, k);
    case Take =>
      DequeueDeque(pq, strict, p, k);
      var d, d' := Deque(pq, strict, p, k), Deque(Next(pq, op), strict, p, k);
      assert d != d' ==> d[i + 1] == d'[i];
    case DropClass(j) => RemoveByClassDeque(pq, j, strict, p, k);
  }

  /** The item that comes out is the departure of the deque that its priority and id name, and of no other. */
  lemma DequeuedDeparts<M>(pq: PQ<Item<M>>, priority: Int, id: Key)
    requires PQValid(pq) && !Empty(pq) && Filed(pq)
    ensures Departure(pq, Take, IsStrict(priority), Unsigned(priority), id) == Of([Dequeued(pq)], priority, id)
  {
    hide PQValid, Deque, Choice, Chosen, Dequeued, Empty, InDeque;
    var c := Choice(pq);
    DequeueDeque(pq, c.strict, c.priority, 0);
    var k := Chosen(pq).cur.value;
    DequeueDeque(pq, c.strict, c.priority, k);
    assert Deque(pq, c.strict, c.priority, k)[0] == Dequeued(pq);
    HomeIsUnique(Dequeued(pq), c.strict, c.priority, k, IsStrict(priority), Unsigned(priority), id);
    DequesDiffer(Dequeued(pq), priority, id);
    OfOne(Dequeued(pq), priority, id);
  }

  lemma HomeIsUnique<M>(item: Item<M>, strict: bool, p: nat, k: Key, strict': bool, p': nat, k': Key)
    requires InDeque(item, strict, p, k)
    ensures InDeque(item, strict', p', k') <==> (strict == strict' && p == p' && k == k')
  {
  }

  lemma OfOne<M>(item: Item<M>, priority: Int, id: Key)
    ensures Of([item], priority, id) == if item.priority == priority && item.id == id then [item] else []
  {
    assert [item][1..] == [];
  }

  lemma {:induction false} OfAppend<M>(a: seq<Item<M>>, b: seq<Item<M>>, priority: Int, id: Key)
    ensures Of(a + b, priority, id) == Of(a, priority, id) + Of(b, priority, id)
  {
    if a == [] {
      assert a + b == b;
    } else {
      assert (a + b)[1..] == a[1..] + b;
      OfAppend(a[1..], b, priority, id);
    }
  }

  lemma {:induction false} DeparturesAreDelivered<M>(pq: PQ<Item<M>>, ops: seq<Op<Item<M>>>, priority: Int, id: Key)
    requires PQValid(pq) && LegalRun(pq, ops) && Filed(pq)
    requires forall i :: 0 <= i < |ops| ==> FiledOp(ops[i])
    ensures Departures(pq, ops, IsStrict(priority), Unsigned(priority), id) == Of(Delivered(pq, ops), priority, id)
    ensures Filed(Run(pq, ops))
    decreases |ops|
  {
    hide PQValid, Filed, FiledOp, Dequeue, Dequeued, Empty, Choice, Chosen;
    if ops != [] {
      assert FiledOp(ops[0]);
      StepFiled(pq, ops[0]);
      DeparturesAreDelivered(Next(pq, ops[0]), ops[1..], priority, id);
      if ops[0].Take? {
        DequeuedDeparts(pq, priority, id);
        OfAppend([Dequeued(pq)], Delivered(Next(pq, ops[0]), ops[1..]), priority, id);
      } else {
        assert [] + Delivered(Next(pq, ops[0]), ops[1..]) == Delivered(Next(pq, ops[0]), ops[1..]);
      }
    }
  }

  lemma {:induction false} ArrivalsAreSent<M>(calls: seq<Call<M>>, priority: Int, id: Key)
    ensures Arrivals(QueueOpsOf(calls), IsStrict(priority), Unsigned(priority), id) == Of(Sent(calls), priority, id)
  {
    if calls != [] {
      var ops := QueueOpsOf(calls);
      assert ops[1..] == QueueOpsOf(calls[1..]);
      ArrivalsAreSent(calls[1..], priority, id);
      match ops[0] {
        case Strict(_, _, item, _) =>
          OfOne(item, priority, id);
          OfAppend([item], Sent(calls[1..]), priority, id);
        case Weighted(_, _, _, item, _) =>
          OfOne(item, priority, id);
          OfAppend([item], Sent(calls[1..]), priority, id);
        case _ =>
          assert [] + Sent(calls[1..]) == Sent(calls[1..]);
      }
    }
  }

  /** In every run from an empty queue, the items with one id and one priority that are delivered or still queued are
      items sent with them, each once and in the order in which they were sent, whatever their costs, whatever else is
      queued, and whatever is discarded in between. */
  lemma DeliveredInOrder<M>(pq: PQ<Item<M>>, calls: seq<Call<M>>, priority: Int, id: Key)
    requires PQValid(pq) && Empty(pq) && LegalRun(pq, QueueOpsOf(calls))
    ensures var queued := Deque(Run(pq, QueueOpsOf(calls)), IsStrict(priority), Unsigned(priority), id);
            Subsequence(Of(Delivered(pq, QueueOpsOf(calls)), priority, id) + queued, Of(Sent(calls), priority, id))
  {
    hide PQValid, FiledOp, Dequeue, Dequeued, Sent, Delivered, Of, Arrivals, Departures, LegalRun, Subsequence;
    var ops := QueueOpsOf(calls);
    forall i | 0 <= i < |ops|
      ensures FiledOp(ops[i]) && Appends(ops[i])
    {
      CallsAreFiled(calls[i]);
    }
    assert Filed(pq);
    DeparturesAreDelivered(pq, ops, priority, id);
    ArrivalsAreSent(calls, priority, id);
    ArrivalOrderKept(pq, ops, IsStrict(priority), Unsigned(priority), id);
    assert Deque(pq, IsStrict(priority), Unsigned(priority), id) == [];
    assert [] + Of(Sent(calls), priority, id) == Of(Sent(calls), priority, id);
  }

  /** Without a discard of the id none is lost: those not yet delivered are the last ones sent. */
  lemma SentInOrder<M>(pq: PQ<Item<M>>, calls: seq<Call<M>>, priority: Int, id: Key)
    requires PQValid(pq) && Empty(pq) && LegalRun(pq, QueueOpsOf(calls))
    requires forall i :: 0 <= i < |calls| ==> calls[i] != Discard(id)
    ensures var queued := Deque(Run(pq, QueueOpsOf(calls)), IsStrict(priority), Unsigned(priority), id);
            Of(Sent(calls), priority, id) == Of(Delivered(pq, QueueOpsOf(calls)), priority, id) + queued
  {
    hide PQValid, FiledOp, Dequeue, Dequeued, Sent, Delivered, Of, Arrivals, Departures, LegalRun;
    var ops := QueueOpsOf(calls);
    forall i | 0 <= i < |ops|
      ensures FiledOp(ops[i])
    {
      CallsAreFiled(calls[i]);
    }
    assert Filed(pq);
    DeparturesAreDelivered(pq, ops, priority, id);
    ArrivalsAreSent(calls, priority, id);
    ArrivalOrder(pq, ops, IsStrict(priority), Unsigned(priority), id);
    assert Deque(pq, IsStrict(priority), Unsigned(priority), id) == [];
  }

  // ---- who is delivered first ----

  lemma {:induction false} DeliveredThen<M>(pq: PQ<Item<M>>, ops: seq<Op<Item<M>>>)
    requires PQValid(pq) && LegalRun(pq, ops) && !Empty(Run(pq, ops))
    ensures LegalRun(pq, ops + [Take]) && Delivered(pq, ops + [Take]) == Delivered(pq, ops) + [Dequeued(Run(pq, ops))]
    decreases |ops|
  {
    hide PQValid, Next, Dequeued, Empty;
    var all := ops + [Take];
    if ops == [] {
      assert all == [Take] && all[1..] == [];
      LastDelivery(pq);
    } else {
      assert all[1..] == ops[1..] + [Take];
      DeliveredThen(Next(pq, ops[0]), ops[1..]);
    }
  }

  lemma LastDelivery<M>(pq: PQ<Item<M>>)
    requires PQValid(pq) && !Empty(pq)
    ensures LegalRun(pq, [Take]) && Delivered(pq, [Take]) == [Dequeued(pq)]
  {
    hide PQValid, Dequeue, Dequeued;
    var take: Op<Item<M>> := Take;
    assert [take][1..] == [];
    assert Delivered(Next(pq, Take), []) == [];
  }

  /** What comes out while a strict item is queued is strict, and of no lower priority. */
  lemma NoneHigher<M>(pq: PQ<Item<M>>, p: nat, k: Key, y: Item<M>)
    requires PQValid(pq) && !Empty(pq) && Filed(pq) && y in Deque(pq, true, p, k)
    ensures y.priority >= 64 && Dequeued(pq).priority >= y.priority
  {
    hide PQValid, Deque, Choice, Chosen, Dequeued, Empty, Dequeue;
    var c := Choice(pq);
    DequeueDeque(pq, c.strict, c.priority, 0);
    var j := Chosen(pq).cur.value;
    DequeueDeque(pq, c.strict, c.priority, j);
    assert Deque(pq, c.strict, c.priority, j)[0] == Dequeued(pq);
    StrictFirst(pq, c.strict, c.priority, j);
    assert Deque(pq, true, p, k) != [];
  }

  /** In every run of calls from an empty queue, no item is delivered while one of a higher strict priority is queued,
      and no weighted one while any strict one is. */
  lemma StrictDelivery<M>(pq: PQ<Item<M>>, calls: seq<Call<M>>, p: nat, k: Key, y: Item<M>)
    requires PQValid(pq) && Empty(pq) && LegalRun(pq, QueueOpsOf(calls))
    requires y in Deque(Run(pq, QueueOpsOf(calls)), true, p, k)
    ensures LegalRun(pq, QueueOpsOf(calls + [Deliver]))
    ensures var all := Delivered(pq, QueueOpsOf(calls + [Deliver]));
            all != [] && all[|all| - 1].priority >= y.priority >= 64
  {
    hide PQValid, FiledOp, Dequeue, Dequeued, Delivered, LegalRun, Filed, Deque;
    var ops := QueueOpsOf(calls);
    assert QueueOpsOf(calls + [Deliver]) == ops + [Take];
    forall i | 0 <= i < |ops|
      ensures FiledOp(ops[i])
    {
      CallsAreFiled(calls[i]);
    }
    NothingFiled(pq);
    DeparturesAreDelivered(pq, ops, 0, 0);
    HasItem(Run(pq, ops), p, k);
    DeliveredThen(pq, ops);
    NoneHigher(Run(pq, ops), p, k, y);
  }

  lemma NothingFiled<M>(pq: PQ<Item<M>>)
    requires Empty(pq)
    ensures Filed(pq)
  {
  }

  lemma HasItem<M>(pq: PQ<Item<M>>, p: nat, k: Key)
    requires Deque(pq, true, p, k) != []
    ensures !Empty(pq)
  {
  }

  // ---- what a message is charged ----

  /** The cost that is queued for the cost of a message. */
  function Charge(cost: nat): nat {
    if cost <= 65536 then 65536 else if cost >= 16777216 then 16777216 else cost
  }

  /** The pair is the last of class k in the sub-queue of priority p. */
  ghost predicate Last<M>(subs: Subs<Item<M>>, p: nat, k: Key, pair: Pair<Item<M>>) {
    p in subs && k in subs[p].q && subs[p].q[k] != [] && subs[p].q[k][|subs[p].q[k]| - 1] == pair
  }

  /** Wherever the item is queued in the weighted tier, it is charged c. */
  ghost predicate ChargedAs<M(!new)>(pq: PQ<Item<M>>, x: Item<M>, c: nat) {
    forall p: nat, k: Key, pair: Pair<Item<M>> :: Queued(pq, p, k, pair) && pair.item == x ==> pair.cost == c
  }

  lemma {:induction false} RunCharged<M(!new)>(pq: PQ<Item<M>>, ops: seq<Op<Item<M>>>, x: Item<M>, c: nat)
    requires PQValid(pq) && LegalRun(pq, ops) && ChargedAs(pq, x, c)
    requires forall i :: 0 <= i < |ops| && ops[i].Weighted? && ops[i].item == x ==>
                           Clamp(ops[i].cost, pq.minCost, pq.maxPer) == c
    ensures ChargedAs(Run(pq, ops), x, c)
    decreases |ops|
  {
    hide PQValid, Next, Queued, Clamp;
    if ops != [] {
      var next := Next(pq, ops[0]);
      RunKeepsInvariant(pq, [ops[0]]);
      forall p: nat, k: Key, pair: Pair<Item<M>> | Queued(next, p, k, pair) && pair.item == x
        ensures pair.cost == c
      {
        StepPairs(pq, ops[0], p, k, pair);
      }
      RunCharged(next, ops[1..], x, c);
    }
  }

  /** If the call sends this message under this priority and id, then with this cost. */
  ghost predicate CostsIfSent<M>(call: Call<M>, msg: M, priority: Int, id: Key, cost: nat) {
    call.Send? && call.m == msg && call.priority == priority && call.id == id ==> call.cost == cost
  }

  /** In every run of the dispatch queue, a weighted message that was always sent with one cost is charged this cost
      brought between 65536 and 16777216. */
  lemma MessageCharge<M(!new)>(calls: seq<Call<M>>, msg: M, priority: Int, id: Key, cost: nat)
    requires LegalRun(Initial<Item<M>>(16777216, 65536), QueueOpsOf(calls))
    requires forall i :: 0 <= i < |calls| ==> CostsIfSent(calls[i], msg, priority, id, cost)
    ensures ChargedAs(Run(Initial<Item<M>>(16777216, 65536), QueueOpsOf(calls)), Item(priority, id, Message(msg)),
                      Charge(cost))
  {
    hide PQValid, Queued;
    var pq0, ops, x := Initial<Item<M>>(16777216, 65536), QueueOpsOf(calls), Item(priority, id, Message(msg));
    forall i | 0 <= i < |ops| && ops[i].Weighted? && ops[i].item == x
      ensures Clamp(ops[i].cost, 65536, 16777216) == Charge(cost)
    {
      assert ops[i] == QueueOpOf(calls[i]);
    }
    NothingCharged(x, Charge(cost));
    RunCharged(pq0, ops, x, Charge(cost));
  }

  lemma NothingCharged<M(!new)>(x: Item<M>, c: nat)
    ensures ChargedAs(Initial<Item<M>>(16777216, 65536), x, c)
  {
  }

  // ---- the magnitudes of the weighted tier ----

  ghost predicate LowKeys<M>(pq: PQ<Item<M>>) {
    forall p :: p in pq.normal ==> p < MSG_PRIO_LOW
  }

  predicate LowOp<M>(op: Op<Item<M>>) {
    (op.Weighted? ==> op.p < MSG_PRIO_LOW) && !op.DropMatching?
  }

  lemma StepLowKeys<M>(pq: PQ<Item<M>>, op: Op<Item<M>>)
    requires PQValid(pq) && Legal(pq, op) && LowKeys(pq) && LowOp(op)
    ensures LowKeys(Next(pq, op))
  {
    hide PQValid, SubValid, Stored, PopFront, Front, PutTokens;
  }

  lemma {:induction false} RunLowKeys<M>(pq: PQ<Item<M>>, ops: seq<Op<Item<M>>>)
    requires PQValid(pq) && LegalRun(pq, ops) && LowKeys(pq)
    requires forall i :: 0 <= i < |ops| ==> LowOp(ops[i])
    ensures LowKeys(Run(pq, ops))
    decreases |ops|
  {
    hide PQValid, LowKeys, LowOp;
    if ops != [] {
      StepLowKeys(pq, ops[0]);
      RunLowKeys(Next(pq, ops[0]), ops[1..]);
    }
  }

  /** With the limits of the dispatch queue and no negative priority, no 32-bit sum or product of the token accounting
      wraps around, in any run. */
  lemma NothingWraps<M>(calls: seq<Call<M>>, cost: nat)
    requires LegalRun(Initial<Item<M>>(16777216, 65536), QueueOpsOf(calls))
    requires forall i :: 0 <= i < |calls| && calls[i].Send? ==> calls[i].priority >= 0
    requires cost <= 16777216
    ensures var pq := Run(Initial<Item<M>>(16777216, 65536), QueueOpsOf(calls));
            QueueTokens.NoWrap(pq.normal.Keys, cost) && 2 * pq.maxPer + 1 < TWO32 && pq.total * |pq.normal| <= TWO32
  {
    hide PQValid, QueueOpOf;
    var pq0, ops := Initial<Item<M>>(16777216, 65536), QueueOpsOf(calls);
    forall i | 0 <= i < |ops|
      ensures LowOp(ops[i])
    {
      CallsAreLow(calls[i]);
    }
    RunLowKeys(pq0, ops);
    RunKeepsInvariant(pq0, ops);
    forall p | p in Run(pq0, ops).normal.Keys
      ensures p * cost < TWO32
    {
      TimesLe(p, 64, cost);
    }
    FewLowKeys(Run(pq0, ops));
  }

  lemma FewLowKeys<M>(pq: PQ<Item<M>>)
    requires PQValid(pq) && LowKeys(pq)
    ensures pq.total * |pq.normal| <= TWO32
  {
    hide Sum, Stored;
    var keys, n := pq.normal.Keys, |pq.normal|;
    SizeBelow(keys, MSG_PRIO_LOW);
    SumMonotone(keys, Identity(), (p: nat) => MSG_PRIO_LOW);
    SumConstant(keys, (p: nat) => MSG_PRIO_LOW, MSG_PRIO_LOW);
    TimesLe(pq.total, MSG_PRIO_LOW * MSG_PRIO_LOW, n);
  }

  lemma CallsAreLow<M>(call: Call<M>)
    requires call.Send? ==> call.priority >= 0
    ensures LowOp(QueueOpOf(call))
  {
  }

  /** The queue object: enqueue, the queue_ functions for connection events, one delivery of entry, and
      discard_queue. */
  class DispatchQueue<M> {
    const mqueue: PrioritizedQueue<Item<M>>
    var stopped: bool

    ghost predicate Valid()
      reads this, mqueue
    {
      mqueue.Valid() && mqueue.maxTokensPerSubqueue == 16777216 && mqueue.minCost == 65536
    }

    ghost function View(): PQ<Item<M>>
      reads this, mqueue
    {
      mqueue.View()
    }

    constructor ()
      ensures Valid() && fresh(mqueue) && !stopped && View() == Initial(16777216, 65536)
    {
      mqueue := new PrioritizedQueue(16777216, 65536);
      stopped := false;
    }

    method Enqueue(m: M, priority: Int, id: Key, cost: nat)
      requires Valid()
      modifies mqueue
      ensures Valid() && View() == Next(old(View()), QueueOpOf(Send(m, priority, id, cost)))
      ensures priority < 64 ==>
                Last(View().normal, if priority < 0 then priority + 0x1_0000_0000 else priority, id,
                     Pair(Charge(cost), Item(priority, id, Message(m))))
      ensures priority >= 64 ==> Last(View().high, priority, id, Pair(0, Item(priority, id, Message(m))))
    {
      if priority >= MSG_PRIO_LOW {
        mqueue.EnqueueStrict(id, priority, Item(priority, id, Message(m)));
      } else {
        mqueue.Enqueue(id, Unsigned(priority), cost, Item(priority, id, Message(m)));
      }
    }

    /** queue_connect, queue_accept, queue_remote_reset, queue_reset and queue_refused, by their codes. */
    method QueueCode(code: Int, connection: Key)
      requires Valid()
      modifies mqueue
      ensures Valid()
      ensures View() == if stopped then old(View()) else Next(old(View()), QueueOpOf(Notify(code, connection)))
      ensures !stopped ==> Last(View().high, 255, 0, Pair(0, Item(255, 0, Code(code, connection))))
    {
      if stopped {
        return;
      }
      mqueue.EnqueueStrict(0, MSG_PRIO_HIGHEST, Item(MSG_PRIO_HIGHEST, 0, Code(code, connection)));
    }

    /** The inner loop body of entry up to the delivery itself. */
    method Entry() returns (item: Item<M>)
      requires Valid() && !Empty(View())
      modifies mqueue
      ensures item == Dequeued(old(View()))
      ensures Valid() && View() == Spec.Dequeue(old(View()))
    {
      hide PQValid, Spec.Dequeue, Dequeued;
      item := mqueue.Dequeue();
    }

    method DiscardQueue(id: Key) returns (removed: seq<Item<M>>)
      requires Valid()
      modifies mqueue
      ensures Valid() && View() == Next(old(View()), QueueOpOf(Discard(id)))
      ensures removed == ClassItems(old(View()).high, id) + ClassItems(old(View()).normal, id)
      ensures forall strict, p, k ::
                Deque(View(), strict, p, k) == if k == id then [] else Deque(old(View()), strict, p, k)
    {
      hide PQValid, Deque, ClassItems;
      var out := mqueue.RemoveByClass(id, Some([]));
      removed := out.value;
      forall strict, p, k
        ensures Deque(View(), strict, p, k) == if k == id then [] else Deque(old(View()), strict, p, k)
      {
        RemoveByClassDeque(old(View()), id, strict, p, k);
      }
    }
  }
}
