/** Exactly when the lowest-priority weighted sub-queue can be passed over without bound. */
module QueueStarvationExact {
  import opened Options
  import opened OrderedKeys
  import opened SubQueueSpec
  import opened PrioritizedQueueSpec
  import opened QueueRuns
  import opened QueueStarvation
  import opened QueueRivals
  import opened QueueTokens
  import opened QueueStarvingRuns

  // ---- getting p0 alone ----

  /** All classes with queued items. */
  ghost function ClassesOf<T>(pq: PQ<T>): set<Key> {
    (set p, k | p in pq.high && k in pq.high[p].q :: k) + (set p, k | p in pq.normal && k in pq.normal[p].q :: k)
  }

  lemma DropLeavesClasses<T>(pq: PQ<T>, k: Key)
    ensures ClassesOf(PrioritizedQueueSpec.RemoveByClass(pq, k)) <= ClassesOf(pq) - {k}
  {
    hide Sum;
    var end := PrioritizedQueueSpec.RemoveByClass(pq, k);
    forall p, j | p in end.high && j in end.high[p].q
      ensures p in pq.high && j in pq.high[p].q && j != k
    {
    }
    forall p, j | p in end.normal && j in end.normal[p].q
      ensures p in pq.normal && j in pq.normal[p].q && j != k
    {
    }
  }

  /** The deques of class b are the same. */
  ghost predicate SameClass<T>(pq: PQ<T>, end: PQ<T>, b: Key) {
    forall strict, p :: Deque(end, strict, p, b) == Deque(pq, strict, p, b)
  }

  lemma SameClassSelf<T>(pq: PQ<T>, b: Key)
    ensures SameClass(pq, pq, b)
  {
  }

  lemma SameClassOn<T>(pq: PQ<T>, mid: PQ<T>, end: PQ<T>, b: Key)
    requires SameClass(pq, mid, b) && SameClass(mid, end, b)
    ensures SameClass(pq, end, b)
  {
    hide Deque;
  }

  /** Removals of classes lead from pq to end, and leave the waiting head, its class b and its tokens alone. */
  ghost predicate Dropped<T>(pq: PQ<T>, ops: seq<Op<T>>, end: PQ<T>, p0: nat, head: Pair<T>, b: Key) {
    && Leads(pq, ops, end, p0, head, 0) && SameClass(pq, end, b)
    && p0 in pq.normal && p0 in end.normal && end.normal[p0].tokens == pq.normal[p0].tokens
    && pq.normal[p0].cur == Some(b) == end.normal[p0].cur
    && forall i :: 0 <= i < |ops| ==> ops[i].DropClass?
  }

  lemma DroppedNothing<T>(pq: PQ<T>, p0: nat, head: Pair<T>, b: Key)
    requires PQValid(pq) && LowestWaits(pq, p0, head) && pq.normal[p0].cur == Some(b)
    ensures Dropped(pq, [], pq, p0, head, b)
  {
    hide Leads, PQValid;
    LeadsNowhere(pq, p0, head);
    SameClassSelf(pq, b);
  }

  lemma DroppedOn<T>(pq: PQ<T>, ops: seq<Op<T>>, mid: PQ<T>, rest: seq<Op<T>>, end: PQ<T>, p0: nat, head: Pair<T>,
                     b: Key)
    requires Dropped(pq, ops, mid, p0, head, b) && Dropped(mid, rest, end, p0, head, b)
    ensures Dropped(pq, ops + rest, end, p0, head, b)
  {
    hide Leads, SameClass;
    SameClassOn(pq, mid, end, b);
    LeadsOn(pq, ops, mid, rest, end, p0, head, 0, 0);
  }

  lemma DroppedFacts<T>(pq: PQ<T>, ops: seq<Op<T>>, end: PQ<T>, p0: nat, head: Pair<T>, b: Key)
    requires Dropped(pq, ops, end, p0, head, b)
    ensures PQValid(end) && LowestWaits(end, p0, head) && end.normal[p0].cur == Some(b)
  {
    hide PQValid, LowestWaits, SameClass;
    LeadsFrom(pq, ops, end, p0, head, 0);
  }

  /** The removal of a class that is not under the cursor of p0. */
  lemma DropStep<T>(pq: PQ<T>, p0: nat, head: Pair<T>, b: Key, k: Key) returns (end: PQ<T>)
    requires PQValid(pq) && LowestWaits(pq, p0, head) && pq.normal[p0].cur == Some(b) && k != b
    ensures Dropped(pq, [DropClass(k)], end, p0, head, b) && ClassesOf(end) <= ClassesOf(pq) - {k}
  {
    hide SubValid, Sum, Stored, PQValid, Leads, Front, ClassesOf, Deque;
    var op: Op<T> := DropClass(k);
    end := Next(pq, op);
    assert !TakesWeighted(pq, op);
    StepKeepsHead(pq, op, p0, head);
    HeadFacts(end, p0, head, Some(b));
    OthersKeepTokens(pq, op, p0);
    DropLeavesClasses(pq, k);
    forall strict, p
      ensures Deque(end, strict, p, b) == Deque(pq, strict, p, b)
    {
      RemoveByClassDeque(pq, k, strict, p, b);
    }
    assert forall p :: p in end.normal ==> p in pq.normal;
    LeadsByOne(pq, op, p0, head);
  }

  lemma FewerLeft(a: set<Key>, rest: set<Key>, ks: set<Key>, b: Key, k: Key)
    requires a <= ks + {b} && rest <= a - {k}
    ensures rest <= (ks - {k}) + {b}
  {
  }

  /** One after the other, all classes but that of the waiting head are removed. */
  lemma {:induction false} DropAll<T>(pq: PQ<T>, p0: nat, head: Pair<T>, b: Key, ks: set<Key>)
    returns (ops: seq<Op<T>>, end: PQ<T>)
    requires PQValid(pq) && LowestWaits(pq, p0, head) && pq.normal[p0].cur == Some(b)
    requires b !in ks && ClassesOf(pq) <= ks + {b}
    ensures Dropped(pq, ops, end, p0, head, b) && ClassesOf(end) <= {b}
    decreases ks
  {
    Present(pq, p0, head);
    hide Dropped, LowestWaits, ClassesOf, PQValid;
    if ks == {} {
      DroppedNothing(pq, p0, head, b);
      return [], pq;
    }
    var k :| k in ks;
    var mid := DropStep(pq, p0, head, b, k);
    DroppedFacts(pq, [DropClass(k)], mid, p0, head, b);
    FewerLeft(ClassesOf(pq), ClassesOf(mid), ks, b, k);
    var rest;
    rest, end := DropAll(mid, p0, head, b, ks - {k});
    DroppedOn(pq, [DropClass(k)], mid, rest, end, p0, head, b);
    ops := [DropClass(k)] + rest;
  }

  /** The number of items in the weighted sub-queues other than p0. */
  ghost function Others<T>(pq: PQ<T>, p0: nat): int
    requires p0 in pq.normal
  {
    Count(pq.normal) - TotalOf(pq.normal[p0].q)
  }

  lemma OthersIsSum<T>(pq: PQ<T>, p0: nat)
    requires p0 in pq.normal
    ensures Others(pq, p0)
            == Sum(pq.normal.Keys - {p0}, (p: nat) => if p in pq.normal then TotalOf(pq.normal[p].q) else 0)
  {
    hide TotalOf, Sum;
    SumRemove(pq.normal.Keys, p0, (p: nat) => if p in pq.normal then TotalOf(pq.normal[p].q) else 0);
  }

  lemma TotalPositive<T>(q: Classes<T>, k: Key)
    requires k in q && q[k] != []
    ensures TotalOf(q) >= 1
  {
    SumRemove(q.Keys, k, (j: nat) => |ListAt(q, j)|);
    SumConstant(q.Keys - {k}, (j: nat) => 0, 0);
    SumMonotone(q.Keys - {k}, (j: nat) => 0, (j: nat) => |ListAt(q, j)|);
  }

  /** There are other items exactly if there are other weighted sub-queues. */
  lemma OthersExist<T>(pq: PQ<T>, p0: nat)
    requires PQValid(pq) && p0 in pq.normal
    ensures Others(pq, p0) >= 0
    ensures Others(pq, p0) == 0 <==> pq.normal.Keys == {p0}
  {
    hide Sum, TotalOf;
    OthersIsSum(pq, p0);
    var rest := pq.normal.Keys - {p0};
    var f := (p: nat) => if p in pq.normal then TotalOf(pq.normal[p].q) else 0;
    forall p | p in rest
      ensures f(p) >= 1
    {
      StoredSub(pq, p);
      TotalPositive(pq.normal[p].q, pq.normal[p].cur.value);
    }
    SumConstant(rest, (p: nat) => 0, 0);
    SumMonotone(rest, (p: nat) => 0, f);
    if rest != {} {
      var p :| p in rest;
      SumRemove(rest, p, f);
      SumConstant(rest - {p}, (r: nat) => 0, 0);
      SumMonotone(rest - {p}, (r: nat) => 0, f);
    } else {
      assert Sum({}, f) == 0 by { SumConstant({}, f, 0); }
    }
  }

  /** p0 cannot pay, and will not be able to before the others are gone: only the last of them brings priority 0
      nothing. */
  ghost predicate Drainable<T>(pq: PQ<T>, p0: nat, head: Pair<T>)
    requires p0 in pq.normal
  {
    && pq.normal[p0].tokens <= head.cost
    && (Others(pq, p0) == 0 || (p0 == 0 && pq.normal[0].tokens + Others(pq, p0) <= head.cost + 1))
  }

  /** While others are left, p0 is not chosen as long as it cannot pay. */
  lemma DrainableNotChosen<T>(pq: PQ<T>, p0: nat, head: Pair<T>)
    requires PQValid(pq) && LowestWaits(pq, p0, head) && Drainable(pq, p0, head)
    requires !(pq.high == map[] && Others(pq, p0) == 0)
    ensures !Empty(pq) && (!Choice(pq).strict ==> Choice(pq).priority != p0 && Others(pq, p0) >= 1)
  {
    hide SubValid, Sum, Front, Stored, Eligible, TotalOf, Count;
    StoredSub(pq, p0);
    OthersExist(pq, p0);
    if pq.high == map[] {
      var p :| p in pq.normal.Keys && p != p0;
    }
  }

  /** A weighted dequeue gives priority 0 at most one token, and none if it leaves nothing else. */
  lemma ZeroTokens<T>(pq: PQ<T>, head: Pair<T>)
    requires PQValid(pq) && !Empty(pq) && LowestWaits(pq, 0, head) && !Choice(pq).strict && Choice(pq).priority != 0
    requires 0 in Dequeue(pq).normal
    ensures Dequeue(pq).normal[0].tokens <= pq.normal[0].tokens + 1
    ensures Dequeue(pq).normal.Keys == {0} ==> Dequeue(pq).normal[0].tokens == pq.normal[0].tokens
  {
    hide SubValid, Sum, Front, PopFront, PQValid, Stored, Grant, PutTokens;
    var c, cost := Choice(pq), Front(Chosen(pq)).cost;
    StoredSub(pq, 0);
    TakeNormalValid(pq, c.priority, c.paid);
    var mid := TakeNormal(pq, c.priority, c.paid);
    assert mid.normal[0] == pq.normal[0];
    TotalIsSum(mid);
    if mid.normal.Keys == {0} {
      SumRemove({0}, 0, Identity());
      assert {0} - {0} == {};
      SumOfNothing();
    }
    if mid.total > 0 {
      GrantOfZero(cost, mid.total);
      PutTokensAtMost(mid.normal[0]);
    }
  }

  lemma GrantOfZero(cost: nat, total: int)
    requires total > 0
    ensures Grant(0, cost, total) == 1
  {
  }

  lemma PutTokensAtMost<T>(s: Sub<T>)
    ensures PutTokens(s, 1).tokens <= s.tokens + 1
  {
  }

  lemma DrainStep<T>(pq: PQ<T>, p0: nat, head: Pair<T>) returns (end: PQ<T>, takes: nat)
    requires PQValid(pq) && LowestWaits(pq, p0, head) && Drainable(pq, p0, head)
    requires !(pq.high == map[] && Others(pq, p0) == 0)
    ensures Leads(pq, [Take], end, p0, head, takes) && p0 in end.normal && Drainable(end, p0, head)
    ensures Size(end) == Size(pq) - 1
  {
    hide SubValid, Sum, Front, PopFront, PQValid, Stored, Count, TotalOf, Leads, LowestWaits, Grant;
    DrainableNotChosen(pq, p0, head);
    Present(pq, p0, head);
    TakeKeepsLists(pq, p0);
    DequeueCounts(pq);
    end := Dequeue(pq);
    LowestAmong(pq, end, p0, head);
    takes := if Choice(pq).strict then 0 else 1;
    assert TakesWeighted(pq, Take) <==> !Choice(pq).strict;
    LeadsByOne(pq, Take, p0, head);
    OthersExist(end, p0);
    if Choice(pq).strict {
      OthersKeepTokens(pq, Take, p0);
    } else {
      ZeroTokens(pq, head);
    }
  }

  lemma LowestAmong<T>(pq: PQ<T>, next: PQ<T>, p0: nat, head: Pair<T>)
    requires PQValid(pq) && PQValid(next) && LowestWaits(pq, p0, head) && p0 in next.normal
    requires next.normal[p0].q == pq.normal[p0].q && next.normal[p0].cur == pq.normal[p0].cur
    requires forall p :: p in next.normal ==> p in pq.normal
    ensures LowestWaits(next, p0, head)
  {
    LowestUnchanged(pq, next, p0, head);
  }

  lemma {:induction false} Drain<T>(pq: PQ<T>, p0: nat, head: Pair<T>, n: nat)
    returns (ops: seq<Op<T>>, end: PQ<T>, takes: nat)
    requires PQValid(pq) && LowestWaits(pq, p0, head) && Drainable(pq, p0, head) && Size(pq) == n
    ensures Leads(pq, ops, end, p0, head, takes) && Lone(end, p0, head)
    ensures forall i :: 0 <= i < |ops| ==> ops[i].Take?
    decreases n
  {
    hide Leads, PQValid, LowestWaits, Count, TotalOf;
    Present(pq, p0, head);
    OthersExist(pq, p0);
    if pq.high == map[] && Others(pq, p0) == 0 {
      LeadsNowhere(pq, p0, head);
      return [], pq, 0;
    }
    var mid, one := DrainStep(pq, p0, head);
    LeadsFrom(pq, [Take], mid, p0, head, one);
    SizeNotNegative(mid);
    var rest, more;
    rest, end, more := Drain(mid, p0, head, n - 1);
    LeadsOn(pq, [Take], mid, rest, end, p0, head, one, more);
    ops, takes := [Take] + rest, one + more;
  }

  lemma SizeNotNegative<T>(pq: PQ<T>)
    ensures Size(pq) >= 0
  {
    CountNotNegative(pq.high);
    CountNotNegative(pq.normal);
  }

  /** All items of class k in the weighted tier satisfy g. */
  ghost predicate AllRivals<T>(pq: PQ<T>, k: Key, g: T -> bool) {
    forall p, i :: 0 <= i < |Deque(pq, false, p, k)| ==> g(Deque(pq, false, p, k)[i])
  }

  lemma {:induction false} TallyAll<T>(l: seq<T>, g: T -> bool)
    requires forall i :: 0 <= i < |l| ==> g(l[i])
    ensures Tally(l, g) == |l|
  {
    if l != [] {
      TallyAll(l[1..], g);
    }
  }

  /** Where only class b is queued and all its items count as rivals, the rivals are all others. */
  lemma RivalsAreOthers<T>(pq: PQ<T>, p0: nat, b: Key, g: T -> bool)
    requires PQValid(pq) && p0 in pq.normal && ClassesOf(pq) <= {b} && AllRivals(pq, b, g)
    ensures Others(pq, p0) == Rivals(pq, p0, b, g)
  {
    hide Sum;
    OthersIsSum(pq, p0);
    var rest := pq.normal.Keys - {p0};
    forall p | p in rest
      ensures TotalOf(pq.normal[p].q) == Tally(Deque(pq, false, p, b), g)
    {
      OnlyClass(pq, p, b);
      TallyAll(Deque(pq, false, p, b), g);
    }
    SumSame(rest, (p: nat) => if p in pq.normal then TotalOf(pq.normal[p].q) else 0,
      (p: nat) => Tally(Deque(pq, false, p, b), g));
  }

  lemma OnlyClass<T>(pq: PQ<T>, p: nat, b: Key)
    requires PQValid(pq) && p in pq.normal && ClassesOf(pq) <= {b}
    ensures TotalOf(pq.normal[p].q) == |Deque(pq, false, p, b)|
  {
    hide Sum, PQValid;
    StoredSub(pq, p);
    var q := pq.normal[p].q;
    forall k | k in q.Keys
      ensures k == b
    {
      assert k in ClassesOf(pq);
    }
    assert q.Keys == {b};
    TotalOfOne(q, b);
  }

  lemma TotalOfOne<T>(q: Classes<T>, b: Key)
    requires q.Keys == {b}
    ensures TotalOf(q) == |q[b]|
  {
    SumRemove({b}, b, (k: nat) => |ListAt(q, k)|);
    assert {b} - {b} == {};
  }

  lemma SameRivals<T>(pq: PQ<T>, end: PQ<T>, p0: nat, b: Key, g: T -> bool)
    requires forall p :: Tally(Deque(end, false, p, b), g) == Tally(Deque(pq, false, p, b), g)
    ensures Rivals(end, p0, b, g) == Rivals(pq, p0, b, g)
  {
    hide Sum, Deque, Tally;
    var all := pq.normal.Keys + end.normal.Keys;
    RivalsWiden(pq, p0, b, g, all);
    RivalsWiden(end, p0, b, g, all);
    SumSame(all - {p0}, (p: nat) => Tally(Deque(end, false, p, b), g), (p: nat) => Tally(Deque(pq, false, p, b), g));
  }

  /** p0 lacks enough tokens to be alone, or to be passed over until it is, before it can pay. */
  ghost predicate Outlasted<T>(pq: PQ<T>, p0: nat, head: Pair<T>, b: Key, g: T -> bool)
    requires p0 in pq.normal
  {
    var r := Rivals(pq, p0, b, g);
    pq.normal[p0].tokens <= head.cost && (r == 0 || (p0 == 0 && pq.normal[0].tokens + r <= head.cost + 1))
  }

  /** Removals of other classes and dequeues that leave p0 alone, with the same head, and unable to pay. */
  lemma ToLone<T>(pq: PQ<T>, p0: nat, head: Pair<T>, b: Key, g: T -> bool)
    returns (ops: seq<Op<T>>, end: PQ<T>, takes: nat)
    requires PQValid(pq) && LowestWaits(pq, p0, head) && pq.normal[p0].cur == Some(b)
    requires AllRivals(pq, b, g) && Outlasted(pq, p0, head, b, g)
    ensures Leads(pq, ops, end, p0, head, takes) && Lone(end, p0, head)
    ensures forall i :: 0 <= i < |ops| ==> ops[i].Take? || ops[i].DropClass?
  {
    hide Leads, PQValid, LowestWaits, Rivals, Others, ClassesOf, Deque, Tally;
    var drops, mid := DropAll(pq, p0, head, b, ClassesOf(pq) - {b});
    LeadsFrom(pq, drops, mid, p0, head, 0);
    SameRivals(pq, mid, p0, b, g);
    RivalsAreOthers(mid, p0, b, g);
    SizeNotNegative(mid);
    var takesOps;
    takesOps, end, takes := Drain(mid, p0, head, Size(mid));
    LeadsOn(pq, drops, mid, takesOps, end, p0, head, 0, takes);
    ops := drops + takesOps;
  }

  // ---- the bound exists exactly if ----

  /** A sub-queue that can pay is not passed over at all, nor is one of the greatest priority. */
  lemma {:induction false} NeverBypassed<T>(pq: PQ<T>, ops: seq<Op<T>>, p0: nat, head: Pair<T>)
    requires PQValid(pq) && LegalRun(pq, ops) && Bypassed(pq, ops, p0, head)
    requires pq.normal[p0].tokens > head.cost || p0 == TWO32 - 1
    ensures WeightedTakes(pq, ops) == 0
    decreases |ops|
  {
    hide PQValid, Dequeue, Choice;
    if ops != [] {
      if TakesWeighted(pq, ops[0]) {
        if p0 == TWO32 - 1 {
          OnlyGreatest(pq, p0, head);
        } else {
          LowestIsChosen(pq, p0, head);
        }
      } else {
        OthersKeepTokens(pq, ops[0], p0);
        RunKeepsInvariant(pq, [ops[0]]);
        NeverBypassed(Next(pq, ops[0]), ops[1..], p0, head);
      }
    }
  }

  lemma OnlyGreatest<T>(pq: PQ<T>, p0: nat, head: Pair<T>)
    requires PQValid(pq) && !Empty(pq) && LowestWaits(pq, p0, head) && p0 == TWO32 - 1 && !Choice(pq).strict
    ensures Choice(pq).priority == p0
  {
    hide Stored, Sum, Front;
    assert Choice(pq).priority in pq.normal;
  }

  /** The class of the waiting head. */
  ghost function HeadClass<T>(pq: PQ<T>, p0: nat): (b: Key)
    requires PQValid(pq) && p0 in pq.normal
    ensures pq.normal[p0].cur == Some(b)
  {
    StoredSub(pq, p0);
    pq.normal[p0].cur.value
  }

  /** The items of the class of the waiting head that are equal to it, in the other weighted sub-queues: no removal of a
      class or by a filter reaches them without the head. */
  ghost function Twins<T>(pq: PQ<T>, p0: nat, head: Pair<T>): int
    requires PQValid(pq) && p0 in pq.normal
  {
    Rivals(pq, p0, HeadClass(pq, p0), (x: T) => x == head.item)
  }

  /** A run that keeps the head spares its twins. */
  lemma {:induction false} TwinsSpared<T(!new)>(pq: PQ<T>, ops: seq<Op<T>>, p0: nat, head: Pair<T>, b: Key,
                                                g: T -> bool)
    requires PQValid(pq) && LegalRun(pq, ops) && Bypassed(pq, ops, p0, head) && HeadStays(pq, ops, p0, head)
    requires pq.normal[p0].cur == Some(b) && forall x :: g(x) <==> x == head.item
    ensures forall i :: 0 <= i < |ops| ==> Spares(ops[i], b, g)
    decreases |ops|
  {
    hide PQValid, Dequeue, Choice, Empty, LowestWaits;
    if ops != [] {
      var next := Next(pq, ops[0]);
      StepKeepsHead(pq, ops[0], p0, head);
      HeadFacts(next, p0, head, Some(b));
      TwinsSpared(next, ops[1..], p0, head, b, g);
      forall i | 0 <= i < |ops|
        ensures Spares(ops[i], b, g)
      {
        if i > 0 {
          assert ops[i] == ops[1..][i - 1];
        }
      }
    }
  }

  /** All other items are filtered out, which keeps the head and the number of its twins. */
  lemma KeepTwins<T(!new)>(pq: PQ<T>, p0: nat, head: Pair<T>, b: Key, f: T -> bool, g: T -> bool) returns (end: PQ<T>)
    requires PQValid(pq) && LowestWaits(pq, p0, head) && pq.normal[p0].cur == Some(b)
    requires forall x :: (g(x) <==> x == head.item) && (f(x) <==> !g(x))
    ensures Leads(pq, [DropMatching(f)], end, p0, head, 0) && AllRivals(end, b, g)
    ensures p0 in end.normal && end.normal[p0].cur == Some(b) && end.normal[p0].tokens == pq.normal[p0].tokens
    ensures Rivals(end, p0, b, g) == Rivals(pq, p0, b, g)
  {
    hide SubValid, Sum, Stored, PQValid, Leads, Front, Deque, Without, Tally, Rivals;
    var op: Op<T> := DropMatching(f);
    end := Next(pq, op);
    assert !TakesWeighted(pq, op);
    assert g(head.item);
    StepKeepsHead(pq, op, p0, head);
    HeadFacts(end, p0, head, Some(b));
    OthersKeepTokens(pq, op, p0);
    assert forall p :: p in end.normal ==> p in pq.normal;
    LeadsByOne(pq, op, p0, head);
    forall p
      ensures Tally(Deque(end, false, p, b), g) == Tally(Deque(pq, false, p, b), g)
      ensures forall i :: 0 <= i < |Deque(end, false, p, b)| ==> g(Deque(end, false, p, b)[i])
    {
      RemoveByFilterDeque(pq, f, false, p, b);
      TallyWithout(Deque(pq, false, p, b), f, g);
      WithoutLeaves(Deque(pq, false, p, b), f, g);
    }
    SameRivals(pq, end, p0, b, g);
  }

  lemma {:induction false} WithoutLeaves<T>(l: seq<T>, f: T -> bool, g: T -> bool)
    requires forall x :: f(x) <==> !g(x)
    ensures forall i :: 0 <= i < |Without(l, f)| ==> g(Without(l, f)[i])
  {
    if l != [] {
      WithoutLeaves(l[1..], f, g);
      assert f(l[0]) <==> !g(l[0]);
    }
  }

  /** Any number of weighted dequeues can pass p0 while its head stays where it is. */
  lemma StarvedBeyond<T(!new)>(pq: PQ<T>, p0: nat, head: Pair<T>, n: nat, f: T -> bool, g: T -> bool)
    returns (ops: seq<Op<T>>)
    requires PQValid(pq) && LowestWaits(pq, p0, head) && p0 < TWO32 - 1
    requires forall x :: (g(x) <==> x == head.item) && (f(x) <==> !g(x))
    requires head.cost >= pq.maxPer
             || (Starvable(pq, p0, head) && Outlasted(pq, p0, head, HeadClass(pq, p0), g))
    ensures LegalRun(pq, ops) && Bypassed(pq, ops, p0, head) && HeadStays(pq, ops, p0, head)
    ensures WeightedTakes(pq, ops) >= n
  {
    hide PQValid, LowestWaits, Lone, Starvable, Rivals, AllRivals;
    Present(pq, p0, head);
    if head.cost >= pq.maxPer {
      CountNotNegative(pq.high);
      ops := Rounds(n + Count(pq.high), 0, TWO32 - 1, 0, head.item);
      var end, takes := FullHeadForever(pq, n + Count(pq.high), p0, head, 0, TWO32 - 1, 0, head.item);
    } else {
      var b := HeadClass(pq, p0);
      var pq1 := KeepTwins(pq, p0, head, b, f, g);
      var filter := [DropMatching(f)];
      LeadsFrom(pq, filter, pq1, p0, head, 0);
      var drops, pq2, takes := ToLone(pq1, p0, head, b, g);
      LeadsOn(pq, filter, pq1, drops, pq2, p0, head, 0, takes);
      StarvableKept(pq, filter + drops, pq2, p0, head, takes);
      var rounds, end := LoneForever(pq2, p0, head, n);
      LeadsOn(pq, filter + drops, pq2, rounds, end, p0, head, takes, n);
      ops := (filter + drops) + rounds;
    }
  }

  /** Some number bounds the weighted dequeues that go elsewhere, over all runs that keep the head. */
  ghost predicate Bounded<T(!new)>(pq: PQ<T>, p0: nat, head: Pair<T>)
    requires PQValid(pq)
  {
    exists n: nat :: BoundedBy(pq, p0, head, n)
  }

  ghost predicate BoundedBy<T(!new)>(pq: PQ<T>, p0: nat, head: Pair<T>, n: nat)
    requires PQValid(pq)
  {
    forall ops :: LegalRun(pq, ops) && Bypassed(pq, ops, p0, head) && HeadStays(pq, ops, p0, head) ==>
      WeightedTakes(pq, ops) <= n
  }

  /** p0 is served sooner or later: it can pay for its head already, or has the greatest priority there is, or its head
      costs less than a full bucket and either its tokens cannot wrap around, or, for priority 0, it has so many twins
      that it can pay before they are gone. */
  ghost predicate Served<T>(pq: PQ<T>, p0: nat, head: Pair<T>)
    requires PQValid(pq) && p0 in pq.normal
  {
    || pq.normal[p0].tokens > head.cost || p0 == TWO32 - 1
    || (head.cost < pq.maxPer
        && if p0 > 0 then !Overflows(pq, p0, head)
           else pq.normal[p0].tokens + Twins(pq, p0, head) > head.cost + 1)
  }

  lemma ServedIsBounded<T(!new)>(pq: PQ<T>, p0: nat, head: Pair<T>)
    requires PQValid(pq) && LowestWaits(pq, p0, head) && Served(pq, p0, head)
    ensures Bounded(pq, p0, head)
  {
    hide PQValid, LowestWaits, Overflows, Rivals;
    InNormal(pq, p0, head);
    var b := HeadClass(pq, p0);
    forall ops | LegalRun(pq, ops) && Bypassed(pq, ops, p0, head) && HeadStays(pq, ops, p0, head)
      ensures WeightedTakes(pq, ops) <= head.cost + 1
    {
      if pq.normal[p0].tokens > head.cost || p0 == TWO32 - 1 {
        NeverBypassed(pq, ops, p0, head);
      } else if p0 > 0 {
        BypassBound(pq, ops, p0, head);
      } else {
        TwinsSpared(pq, ops, p0, head, b, (x: T) => x == head.item);
        ZeroBypassBound(pq, ops, head, b, (x: T) => x == head.item);
      }
    }
    assert BoundedBy(pq, p0, head, head.cost + 1);
  }

  /** Over all runs that keep the head where it is, the lowest sub-queue is passed over without bound exactly if it is
      not served sooner or later. A positive priority whose tokens can wrap around is taken to have no twins. */
  lemma StarvationExactly<T(!new)>(pq: PQ<T>, p0: nat, head: Pair<T>)
    requires PQValid(pq) && LowestWaits(pq, p0, head)
    requires p0 > 0 && head.cost < pq.maxPer && Overflows(pq, p0, head) ==> Twins(pq, p0, head) == 0
    ensures Bounded(pq, p0, head) <==> Served(pq, p0, head)
  {
    hide PQValid, LowestWaits, Overflows, Rivals;
    InNormal(pq, p0, head);
    if Served(pq, p0, head) {
      ServedIsBounded(pq, p0, head);
    } else if Bounded(pq, p0, head) {
      var n: nat :| BoundedBy(pq, p0, head, n);
      var ops := StarvedBeyond(pq, p0, head, n + 1, (x: T) => x != head.item, (x: T) => x == head.item);
    }
  }

  lemma InNormal<T>(pq: PQ<T>, p0: nat, head: Pair<T>)
    requires PQValid(pq) && LowestWaits(pq, p0, head)
    ensures p0 in pq.normal && p0 < TWO32 && Missing(pq, p0, head) <= head.cost + 1
  {
  }

  /** Priority 0 gets no tokens once it is on its own. Without twins it is starved without bound exactly when it cannot
      pay already, whatever else is queued. */
  lemma ZeroPriorityStarvation<T(!new)>(pq: PQ<T>, head: Pair<T>)
    requires PQValid(pq) && LowestWaits(pq, 0, head) && Twins(pq, 0, head) == 0
    ensures Bounded(pq, 0, head) <==> pq.normal[0].tokens > head.cost
  {
    hide PQValid, Rivals;
    StarvationExactly(pq, 0, head);
    StoredSub(pq, 0);
  }
}
