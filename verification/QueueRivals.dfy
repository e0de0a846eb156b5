/** Items of the class of a waiting head in the other weighted sub-queues, which cannot be removed without the head, and
    the bound they bring when the priority of the head is 0. */
module QueueRivals {
  import opened OrderedKeys
  import opened SubQueueSpec
  import opened PrioritizedQueueSpec
  import opened QueueRuns
  import opened QueueTokens
  import opened QueueStarvation

  /** The number of items that satisfy g. */
  function Tally<T>(l: seq<T>, g: T -> bool): nat {
    if l == [] then 0 else (if g(l[0]) then 1 else 0) + Tally(l[1..], g)
  }

  lemma {:induction false} TallyAppend<T>(a: seq<T>, b: seq<T>, g: T -> bool)
    ensures Tally(a + b, g) == Tally(a, g) + Tally(b, g)
  {
    if a == [] {
      assert a + b == b;
    } else {
      assert (a + b)[1..] == a[1..] + b;
      TallyAppend(a[1..], b, g);
    }
  }

  lemma TallyOne<T>(x: T, g: T -> bool)
    ensures Tally([x], g) == if g(x) then 1 else 0
  {
    assert [x][1..] == [];
  }

  lemma {:induction false} TallyWithout<T>(l: seq<T>, f: T -> bool, g: T -> bool)
    requires forall x :: g(x) ==> !f(x)
    ensures Tally(Without(l, f), g) == Tally(l, g)
  {
    if l != [] {
      TallyWithout(l[1..], f, g);
      assert g(l[0]) ==> !f(l[0]);
      if f(l[0]) {
        assert [] + Without(l[1..], f) == Without(l[1..], f);
      } else {
        TallyOne(l[0], g);
        TallyAppend([l[0]], Without(l[1..], f), g);
      }
    }
  }

  /** The tallies of class k in the weighted sub-queues of the given priorities, but for p0. */
  ghost function RivalsAmong<T>(pq: PQ<T>, p0: nat, k: Key, g: T -> bool, keys: set<nat>): int {
    Sum(keys - {p0}, (p: nat) => Tally(Deque(pq, false, p, k), g))
  }

  /** The items of class k that satisfy g in the weighted sub-queues other than p0. */
  ghost function Rivals<T>(pq: PQ<T>, p0: nat, k: Key, g: T -> bool): int {
    RivalsAmong(pq, p0, k, g, pq.normal.Keys)
  }

  lemma {:induction false} SumWiden(a: set<nat>, b: set<nat>, f: nat -> int)
    requires a <= b && forall p :: p in b && p !in a ==> f(p) == 0
    ensures Sum(b, f) == Sum(a, f)
    decreases |b - a|
  {
    if a != b {
      var p :| p in b && p !in a;
      SumRemove(b, p, f);
      SumWiden(a, b - {p}, f);
    } else {
      assert a == b;
    }
  }

  lemma RivalsWiden<T>(pq: PQ<T>, p0: nat, k: Key, g: T -> bool, keys: set<nat>)
    requires pq.normal.Keys <= keys
    ensures RivalsAmong(pq, p0, k, g, keys) == Rivals(pq, p0, k, g)
  {
    hide Tally;
    TallyNothing(g);
    SumWiden(pq.normal.Keys - {p0}, keys - {p0}, (p: nat) => Tally(Deque(pq, false, p, k), g));
  }

  lemma TallyNothing<T>(g: T -> bool)
    ensures Tally([], g) == 0
  {
  }

  /** The operation does not remove class k, nor by filter an item that satisfies g. */
  ghost predicate Spares<T(!new)>(op: Op<T>, k: Key, g: T -> bool) {
    op != DropClass(k) && (op.DropMatching? ==> forall x :: g(x) ==> !op.f(x))
  }

  /** No deque of class k loses an item that satisfies g, but by a weighted dequeue one deque one. */
  lemma StepTally<T(!new)>(pq: PQ<T>, op: Op<T>, p: nat, k: Key, g: T -> bool)
    requires PQValid(pq) && Legal(pq, op) && Spares(op, k, g)
    ensures Tally(Deque(Next(pq, op), false, p, k), g)
            >= Tally(Deque(pq, false, p, k), g) - if TakesWeighted(pq, op) && Choice(pq).priority == p then 1 else 0
  {
    hide PQValid, Deque, Choice, Chosen, Dequeued, Empty, Without;
    var d := Deque(pq, false, p, k);
    match op
    case Strict(j, r, item, front) => EnqueueStrictDeque(pq, j, r, item, front, false, p, k);
    case Weighted(j, r, cost, item, front) =>
      EnqueueNormalDeque(pq, j, r, cost, item, front, false, p, k);
      TallyAppend([item], d, g);
      TallyAppend(d, [item], g);
    case Take =>
      DequeueDeque(pq, false, p, k);
      TallyOne(Dequeued(pq), g);
      TallyAppend([Dequeued(pq)], Deque(Next(pq, op), false, p, k), g);
    case DropClass(j) => RemoveByClassDeque(pq, j, false, p, k);
    case DropMatching(f) =>
      RemoveByFilterDeque(pq, f, false, p, k);
      TallyWithout(d, f, g);
  }

  lemma SumLessOne(keys: set<nat>, c: nat, f: nat -> int, f': nat -> int)
    requires forall p :: p in keys ==> f'(p) >= f(p) - if p == c then 1 else 0
    ensures Sum(keys, f') >= Sum(keys, f) - 1
    ensures c !in keys ==> Sum(keys, f') >= Sum(keys, f)
  {
    if c in keys {
      SumRemove(keys, c, f);
      SumRemove(keys, c, f');
      SumMonotone(keys - {c}, f, f');
    } else {
      SumMonotone(keys, f, f');
    }
  }

  lemma StepRivals<T(!new)>(pq: PQ<T>, op: Op<T>, p0: nat, k: Key, g: T -> bool)
    requires PQValid(pq) && Legal(pq, op) && Spares(op, k, g)
    ensures Rivals(Next(pq, op), p0, k, g) >= Rivals(pq, p0, k, g) - if TakesWeighted(pq, op) then 1 else 0
  {
    hide PQValid, Deque, Tally, Spares, Choice, Empty, Sum, Next;
    var next := Next(pq, op);
    var all := pq.normal.Keys + next.normal.Keys;
    RivalsWiden(pq, p0, k, g, all);
    RivalsWiden(next, p0, k, g, all);
    var f, f' := (p: nat) => Tally(Deque(pq, false, p, k), g), (p: nat) => Tally(Deque(next, false, p, k), g);
    forall p | p in all - {p0}
      ensures f'(p) >= f(p) - if TakesWeighted(pq, op) && Choice(pq).priority == p then 1 else 0
    {
      StepTally(pq, op, p, k, g);
    }
    if TakesWeighted(pq, op) {
      SumLessOne(all - {p0}, Choice(pq).priority, f, f');
    } else {
      SumMonotone(all - {p0}, f, f');
    }
  }

  // ---- priority 0 with rivals ----

  lemma RivalsAreQueued<T>(pq: PQ<T>, p0: nat, k: Key, g: T -> bool)
    requires Rivals(pq, p0, k, g) >= 1
    ensures exists p :: p in pq.normal && p != p0
  {
    if pq.normal.Keys - {p0} != {} {
      var p :| p in pq.normal.Keys - {p0};
    }
  }

  /** With another weighted sub-queue left, priority 0 gets exactly one token. */
  lemma ZeroGrant<T>(pq: PQ<T>, cost: nat, p: nat)
    requires PQValid(pq) && p in pq.normal && p != 0
    ensures pq.total > 0 && Grant(0, cost, pq.total) == 1
  {
    hide Sum, Stored;
    KeyAtMostSum(pq.normal.Keys, p);
  }

  /** Too many rivals for priority 0 to be starved: it can pay before they are gone. */
  ghost predicate Saved<T>(pq: PQ<T>, head: Pair<T>, k: Key, g: T -> bool)
    requires 0 in pq.normal
  {
    pq.normal[0].tokens > head.cost || pq.normal[0].tokens + Rivals(pq, 0, k, g) > head.cost + 1
  }

  /** The rest of the queue after a weighted dequeue still holds a rival, so that priority 0 gets a token. */
  lemma ZeroTake<T(!new)>(pq: PQ<T>, head: Pair<T>, k: Key, g: T -> bool)
    requires PQValid(pq) && !Empty(pq) && LowestWaits(pq, 0, head) && !Choice(pq).strict && Choice(pq).priority != 0
    requires Saved(pq, head, k, g) && head.cost < pq.maxPer
    ensures 0 in Dequeue(pq).normal && Dequeue(pq).normal[0].tokens == pq.normal[0].tokens + 1 <= head.cost + 1
  {
    hide SubValid, Sum, Front, PopFront, PQValid, Stored, Grant, PutTokens, Rivals;
    LowestIsChosen(pq, 0, head);
    StepRivals(pq, Take, 0, k, g) by { assert TakesWeighted(pq, Take); }
    RivalsAreQueued(Dequeue(pq), 0, k, g);
    var p :| p in Dequeue(pq).normal && p != 0;
    var c, cost := Choice(pq), Front(Chosen(pq)).cost;
    StoredSub(pq, 0);
    TakeNormalValid(pq, c.priority, c.paid);
    var mid := TakeNormal(pq, c.priority, c.paid);
    assert p in mid.normal && mid.normal[0] == pq.normal[0] && mid.maxPer == pq.maxPer;
    ZeroGrant(mid, cost, p);
    MaxPerBelow(pq);
    PutExact(mid.normal[0], 1, pq.maxPer);
  }

  lemma MaxPerBelow<T>(pq: PQ<T>)
    requires PQValid(pq)
    ensures pq.maxPer < TWO32
  {
  }

  /** Over every run that keeps the head and spares its rivals, priority 0 is passed over at most
      max(0, cost + 1 - tokens) times, if it has more rivals than it lacks tokens. */
  lemma {:induction false} ZeroBypassBound<T(!new)>(pq: PQ<T>, ops: seq<Op<T>>, head: Pair<T>, k: Key, g: T -> bool)
    requires PQValid(pq) && LegalRun(pq, ops) && Bypassed(pq, ops, 0, head) && HeadStays(pq, ops, 0, head)
    requires pq.normal[0].cur.Some? && pq.normal[0].cur.value == k && head.cost < pq.maxPer
    requires forall i :: 0 <= i < |ops| ==> Spares(ops[i], k, g)
    requires Saved(pq, head, k, g)
    ensures WeightedTakes(pq, ops) <= Missing(pq, 0, head)
    decreases |ops|
  {
    hide PQValid, Dequeue, Choice, Rivals, KeepsHead, Empty, Spares, LowestWaits;
    if ops != [] {
      var next := Next(pq, ops[0]);
      RunKeepsInvariant(pq, [ops[0]]);
      assert Spares(ops[0], k, g);
      StepKeepsHead(pq, ops[0], 0, head);
      HeadFacts(next, 0, head, pq.normal[0].cur);
      StepRivals(pq, ops[0], 0, k, g);
      if TakesWeighted(pq, ops[0]) {
        ZeroTake(pq, head, k, g);
      } else {
        OthersKeepTokens(pq, ops[0], 0);
      }
      ZeroBypassBound(next, ops[1..], head, k, g);
    }
  }
}
