/** Exactly when the lowest-priority weighted messages of the dispatch queue can be passed over without bound, over runs
    of its own calls. */
module DispatchStarvation {
  import opened Options
  import opened OrderedKeys
  import opened SubQueueSpec
  import opened PrioritizedQueueSpec
  import opened QueueRuns
  import opened QueueOrder
  import opened QueueStarvation
  import opened QueueRivals
  import opened QueueStarvingRuns
  import opened QueueStarvationExact
  import opened DispatchQueues

  /** Negative priorities are sent only if they are allowed. */
  predicate Allowed<M>(calls: seq<Call<M>>, negative: bool) {
    forall i :: 0 <= i < |calls| && calls[i].Send? && !negative ==> calls[i].priority >= 0
  }

  /** The weighted priority that is served first: -1 if negative priorities are allowed, else the last one that is not
      strict. */
  function TopPriority(negative: bool): (p: Int)
    ensures !IsStrict(p) && (!negative ==> p >= 0)
  {
    if negative then -1 else MSG_PRIO_LOW - 1
  }

  function Top(negative: bool): nat {
    Unsigned(TopPriority(negative))
  }

  // ---- runs of calls ----

  ghost predicate IsCall<M>(op: Op<Item<M>>, negative: bool, m: M) {
    op.Take? || op.DropClass? || op == QueueOpOf(Send(m, TopPriority(negative), 0, 0))
  }

  lemma {:induction false} AsCalls<M>(ops: seq<Op<Item<M>>>, negative: bool, m: M) returns (calls: seq<Call<M>>)
    requires forall i :: 0 <= i < |ops| ==> IsCall(ops[i], negative, m)
    ensures QueueOpsOf(calls) == ops && Allowed(calls, negative)
  {
    if ops == [] {
      return [];
    }
    assert IsCall(ops[0], negative, m);
    var rest := AsCalls(ops[1..], negative, m);
    var call: Call<M> := if ops[0].Take? then Deliver else if ops[0].DropClass? then Discard(ops[0].k)
                         else Send(m, TopPriority(negative), 0, 0);
    calls := [call] + rest;
    assert QueueOpOf(call) == ops[0];
    assert QueueOpsOf(calls) == [ops[0]] + QueueOpsOf(rest);
  }

  /** The message that arrives in every round. */
  function TopItem<M>(negative: bool, m: M): Item<M> {
    Item(TopPriority(negative), 0, Message(m))
  }

  lemma {:induction false} RoundsAreCalls<M>(n: nat, negative: bool, m: M)
    ensures forall i :: 0 <= i < |Rounds(n, 0, Top(negative), 0, TopItem(negative, m))| ==>
              IsCall(Rounds(n, 0, Top(negative), 0, TopItem(negative, m))[i], negative, m)
  {
    if n > 0 {
      RoundsAreCalls(n - 1, negative, m);
    }
  }

  // ---- where there is a bound ----

  lemma CallsFacts<M>(calls: seq<Call<M>>, negative: bool)
    requires Allowed(calls, negative)
    ensures forall i :: 0 <= i < |calls| ==> !QueueOpsOf(calls)[i].DropMatching?
    ensures !negative ==> forall i :: 0 <= i < |calls| ==> LowOp(QueueOpsOf(calls)[i])
  {
    forall i | 0 <= i < |calls|
      ensures !QueueOpsOf(calls)[i].DropMatching? && (!negative ==> LowOp(QueueOpsOf(calls)[i]))
    {
      if !negative {
        CallsAreLow(calls[i]);
      }
    }
  }

  /** A sub-queue of the last weighted priority, with nothing above it, is never passed over. */
  lemma {:induction false} LastNeverBypassed<M>(pq: PQ<Item<M>>, ops: seq<Op<Item<M>>>, p0: nat, head: Pair<Item<M>>)
    requires PQValid(pq) && LegalRun(pq, ops) && Bypassed(pq, ops, p0, head) && LowKeys(pq) && p0 == MSG_PRIO_LOW - 1
    requires forall i :: 0 <= i < |ops| ==> LowOp(ops[i])
    ensures WeightedTakes(pq, ops) == 0
    decreases |ops|
  {
    hide PQValid, LowOp, Next, Choice, LowKeys;
    if ops != [] {
      StepLowKeys(pq, ops[0]);
      LastNeverBypassed(Next(pq, ops[0]), ops[1..], p0, head);
      if TakesWeighted(pq, ops[0]) {
        OnlyLast(pq, p0, head);
      }
    }
  }

  lemma OnlyLast<M>(pq: PQ<Item<M>>, p0: nat, head: Pair<Item<M>>)
    requires PQValid(pq) && !Empty(pq) && LowestWaits(pq, p0, head) && LowKeys(pq) && p0 == MSG_PRIO_LOW - 1
    requires !Choice(pq).strict
    ensures Choice(pq).priority == p0
  {
    hide Stored, Sum, Front;
    assert Choice(pq).priority in pq.normal;
  }

  /** All items of the id of the waiting head in the other weighted sub-queues: a discard does not reach them without
      the head. */
  ghost function Siblings<M>(pq: PQ<Item<M>>, p0: nat): int
    requires PQValid(pq) && p0 in pq.normal
  {
    Rivals(pq, p0, HeadClass(pq, p0), (x: Item<M>) => true)
  }

  lemma {:induction false} SiblingsSpared<M(!new)>(pq: PQ<Item<M>>, ops: seq<Op<Item<M>>>, p0: nat, head: Pair<Item<M>>,
                                                   b: Key, g: Item<M> -> bool)
    requires PQValid(pq) && LegalRun(pq, ops) && Bypassed(pq, ops, p0, head) && HeadStays(pq, ops, p0, head)
    requires pq.normal[p0].cur == Some(b) && forall i :: 0 <= i < |ops| ==> !ops[i].DropMatching?
    ensures forall i :: 0 <= i < |ops| ==> Spares(ops[i], b, g)
    decreases |ops|
  {
    hide PQValid, Dequeue, Choice, Empty, LowestWaits;
    if ops != [] {
      var next := Next(pq, ops[0]);
      StepKeepsHead(pq, ops[0], p0, head);
      HeadFacts(next, p0, head, Some(b));
      SiblingsSpared(next, ops[1..], p0, head, b, g);
      forall i | 0 <= i < |ops|
        ensures Spares(ops[i], b, g)
      {
        if i > 0 {
          assert ops[i] == ops[1..][i - 1];
        }
      }
    }
  }

  // ---- where there is none ----

  /** From priority 0 alone every round passes it over. */
  lemma {:induction false} ZeroForever<T>(pq: PQ<T>, n: nat, head: Pair<T>, k: Key, q: nat, item: T)
    returns (end: PQ<T>)
    requires Lone(pq, 0, head) && 0 < q < TWO32
    ensures Leads(pq, Rounds(n, k, q, 0, item), end, 0, head, n)
    decreases n
  {
    hide Leads, Distribute, Clamp, PQValid, LowestWaits;
    if n == 0 {
      LoneLeads(pq, 0, head);
      return pq;
    }
    var c := Clamp(0, pq.minCost, pq.maxPer);
    var round := [Weighted(k, q, 0, item, false)] + [Take];
    LoneRound(pq, 0, head, k, q, 0, item);
    var mid := Distribute(pq, c);
    LeadsFrom(pq, round, mid, 0, head, 1);
    LoneTokens(pq, 0, head, c);
    end := ZeroForever(mid, n - 1, head, k, q, item);
    LeadsOn(pq, round, mid, Rounds(n - 1, k, q, 0, item), end, 0, head, 1, n - 1);
  }

  /** Calls that pass p0 over any number of times while its message keeps waiting. */
  lemma CallsBeyond<M>(pq: PQ<Item<M>>, p0: nat, head: Pair<Item<M>>, n: nat, negative: bool, m: M)
    returns (calls: seq<Call<M>>)
    requires PQValid(pq) && LowestWaits(pq, p0, head) && p0 < Top(negative)
    requires head.cost >= pq.maxPer || (p0 == 0 && Outlasted(pq, 0, head, HeadClass(pq, 0), (x: Item<M>) => true))
    ensures var ops := QueueOpsOf(calls);
            && Allowed(calls, negative) && LegalRun(pq, ops)
            && Bypassed(pq, ops, p0, head) && HeadStays(pq, ops, p0, head)
            && WeightedTakes(pq, ops) >= n
  {
    hide PQValid, LowestWaits, Lone, Rivals, IsCall, TopPriority, TopItem;
    Present(pq, p0, head);
    var q, item := Top(negative), TopItem(negative, m);
    var ops, end, takes;
    if head.cost >= pq.maxPer {
      CountNotNegative(pq.high);
      ops := Rounds(n + Count(pq.high), 0, q, 0, item);
      end, takes := FullHeadForever(pq, n + Count(pq.high), p0, head, 0, q, 0, item);
      RoundsAreCalls(n + Count(pq.high), negative, m);
    } else {
      var drops, alone, before := ToLone(pq, 0, head, HeadClass(pq, 0), (x: Item<M>) => true);
      end := ZeroForever(alone, n, head, 0, q, item);
      LeadsOn(pq, drops, alone, Rounds(n, 0, q, 0, item), end, 0, head, before, n);
      ops := drops + Rounds(n, 0, q, 0, item);
      RoundsAreCalls(n, negative, m);
      DropsAreCalls(drops, negative, m);
    }
    calls := AsCalls(ops, negative, m);
  }

  lemma DropsAreCalls<M>(ops: seq<Op<Item<M>>>, negative: bool, m: M)
    requires forall i :: 0 <= i < |ops| ==> ops[i].Take? || ops[i].DropClass?
    ensures forall i :: 0 <= i < |ops| ==> IsCall(ops[i], negative, m)
  {
  }

  // ---- the bound exists exactly if ----

  /** The calls pass p0 over, and its message keeps waiting where it is. */
  ghost predicate PassOver<M>(pq: PQ<Item<M>>, calls: seq<Call<M>>, p0: nat, head: Pair<Item<M>>, negative: bool)
    requires PQValid(pq)
  {
    var ops := QueueOpsOf(calls);
    Allowed(calls, negative) && LegalRun(pq, ops) && Bypassed(pq, ops, p0, head) && HeadStays(pq, ops, p0, head)
  }

  /** Some number bounds the weighted deliveries that go elsewhere, over all runs of calls that keep the head. */
  ghost predicate CallsBounded<M(!new)>(pq: PQ<Item<M>>, p0: nat, head: Pair<Item<M>>, negative: bool)
    requires PQValid(pq)
  {
    exists n: nat :: CallsBoundedBy(pq, p0, head, negative, n)
  }

  ghost predicate CallsBoundedBy<M(!new)>(pq: PQ<Item<M>>, p0: nat, head: Pair<Item<M>>, negative: bool, n: nat)
    requires PQValid(pq)
  {
    forall calls: seq<Call<M>> :: PassOver(pq, calls, p0, head, negative) ==> WeightedTakes(pq, QueueOpsOf(calls)) <= n
  }

  /** The message is delivered sooner or later: its sub-queue can pay for it already, or no weighted priority is higher,
      or it costs less than the bucket of 16777216 and has a positive priority, or priority 0 and so many siblings that
      it can pay before they are gone. */
  ghost predicate Delivered<M>(pq: PQ<Item<M>>, p0: nat, head: Pair<Item<M>>, negative: bool)
    requires PQValid(pq) && p0 in pq.normal
  {
    || pq.normal[p0].tokens > head.cost || p0 == Top(negative)
    || (head.cost < pq.maxPer && (p0 > 0 || pq.normal[p0].tokens + Siblings(pq, p0) > head.cost + 1))
  }

  lemma DeliveredIsBounded<M(!new)>(pq: PQ<Item<M>>, p0: nat, head: Pair<Item<M>>, negative: bool)
    requires PQValid(pq) && LowestWaits(pq, p0, head) && pq.maxPer == 16777216 && (!negative ==> LowKeys(pq))
    requires Delivered(pq, p0, head, negative)
    ensures CallsBounded(pq, p0, head, negative)
  {
    hide PQValid, LowestWaits, Rivals, LowKeys, LowOp;
    InNormal(pq, p0, head);
    var b := HeadClass(pq, p0);
    forall calls: seq<Call<M>> | PassOver(pq, calls, p0, head, negative)
      ensures WeightedTakes(pq, QueueOpsOf(calls)) <= head.cost + 1
    {
      var ops := QueueOpsOf(calls);
      CallsFacts(calls, negative);
      if pq.normal[p0].tokens > head.cost || (negative && p0 == Top(negative)) {
        NeverBypassed(pq, ops, p0, head);
      } else if p0 == Top(negative) {
        LastNeverBypassed(pq, ops, p0, head);
      } else if p0 > 0 {
        RoomEnough(pq, p0, head);
        BypassBound(pq, ops, p0, head);
      } else {
        SiblingsSpared(pq, ops, 0, head, b, (x: Item<M>) => true);
        ZeroBypassBound(pq, ops, head, b, (x: Item<M>) => true);
      }
    }
    assert CallsBoundedBy(pq, p0, head, negative, head.cost + 1);
  }

  /** In every state of the dispatch queue and for every lowest priority, over the runs of its calls that keep the
      waiting message, with or without negative priorities: the message is passed over without bound exactly if it is
      not delivered sooner or later. */
  lemma StarvationOfMessages<M(!new)>(before: seq<Call<M>>, p0: nat, head: Pair<Item<M>>, negative: bool, m: M)
    requires Allowed(before, negative) && LegalRun(Initial<Item<M>>(16777216, 65536), QueueOpsOf(before))
    requires LowestWaits(Run(Initial<Item<M>>(16777216, 65536), QueueOpsOf(before)), p0, head)
    ensures var pq := Run(Initial<Item<M>>(16777216, 65536), QueueOpsOf(before));
            p0 in pq.normal && (CallsBounded(pq, p0, head, negative) <==> Delivered(pq, p0, head, negative))
  {
    hide PQValid, LowestWaits, Rivals, LowKeys, LowOp;
    var pq0, ops := Initial<Item<M>>(16777216, 65536), QueueOpsOf(before);
    var pq := Run(pq0, ops);
    RunKeepsInvariant(pq0, ops);
    CallsFacts(before, negative);
    Present(pq, p0, head);
    if !negative {
      assert LowKeys(pq0) by { NoKeys<M>(); }
      RunLowKeys(pq0, ops);
      LowestIsLow(pq, p0);
    }
    if Delivered(pq, p0, head, negative) {
      DeliveredIsBounded(pq, p0, head, negative);
    } else if CallsBounded(pq, p0, head, negative) {
      var n: nat :| CallsBoundedBy(pq, p0, head, negative, n);
      var calls := CallsBeyond(pq, p0, head, n + 1, negative, m);
    }
  }

  lemma NoKeys<M>()
    ensures LowKeys(Initial<Item<M>>(16777216, 65536))
  {
  }

  lemma LowestIsLow<M>(pq: PQ<Item<M>>, p0: nat)
    requires LowKeys(pq) && p0 in pq.normal
    ensures p0 <= Top(false)
  {
  }

  /** A positive lowest priority below the highest weighted one is starved exactly by a message that is charged the full
      bucket: with negative priorities allowed, by messages of priority -1, and otherwise, below 63, by messages of
      priority 63. */
  lemma LargeMessagesStarve<M(!new)>(before: seq<Call<M>>, p0: nat, head: Pair<Item<M>>, negative: bool, m: M)
    requires Allowed(before, negative) && LegalRun(Initial<Item<M>>(16777216, 65536), QueueOpsOf(before))
    requires LowestWaits(Run(Initial<Item<M>>(16777216, 65536), QueueOpsOf(before)), p0, head)
    requires 0 < p0
    ensures CallsBounded(Run(Initial<Item<M>>(16777216, 65536), QueueOpsOf(before)), p0, head, negative)
            <==> head.cost < 16777216 || p0 == Top(negative)
  {
    hide PQValid, LowestWaits, Rivals;
    var pq0, ops := Initial<Item<M>>(16777216, 65536), QueueOpsOf(before);
    RunKeepsInvariant(pq0, ops);
    StarvationOfMessages(before, p0, head, negative, m);
    StoredSub(Run(pq0, ops), p0);
  }

  /** In terms of the cost that the waiting message was sent with. */
  lemma LargeSendsStarve<M(!new)>(before: seq<Call<M>>, p0: nat, head: Pair<Item<M>>, negative: bool, msg: M,
                                  priority: Int, id: Key, cost: nat)
    requires Allowed(before, negative) && LegalRun(Initial<Item<M>>(16777216, 65536), QueueOpsOf(before))
    requires LowestWaits(Run(Initial<Item<M>>(16777216, 65536), QueueOpsOf(before)), p0, head)
    requires 0 < p0 && head.item == Item(priority, id, Message(msg))
    requires forall i :: 0 <= i < |before| ==> CostsIfSent(before[i], msg, priority, id, cost)
    ensures CallsBounded(Run(Initial<Item<M>>(16777216, 65536), QueueOpsOf(before)), p0, head, negative)
            <==> cost < 16777216 || p0 == Top(negative)
  {
    hide PQValid, LowestWaits, CallsBounded;
    var pq := Run(Initial<Item<M>>(16777216, 65536), QueueOpsOf(before));
    LargeMessagesStarve(before, p0, head, negative, msg);
    MessageCharge(before, msg, priority, id, cost);
    HeadIsQueued(pq, p0, head);
  }

  lemma HeadIsQueued<T>(pq: PQ<T>, p0: nat, head: Pair<T>)
    requires PQValid(pq) && LowestWaits(pq, p0, head)
    ensures p0 in pq.normal && pq.normal[p0].cur.Some? && Queued(pq, p0, pq.normal[p0].cur.value, head)
  {
    StoredSub(pq, p0);
  }
}
