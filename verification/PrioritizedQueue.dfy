/** The two-tier queue object, each method proved against PrioritizedQueueSpec. The tables hold sub-queues by value, as
    the source's maps do: a method works on the stored sub-queue as an object and writes its value back. */
module PrioritizedQueues {
  import opened Options
  import opened OrderedKeys
  import opened SubQueueSpec
  import opened SubQueues
  import opened Spec = PrioritizedQueueSpec

  lemma SubsReady<T>(pq: PQ<T>, p: nat)
    requires PQValid(pq)
    ensures pq.maxPer < TWO32 && SubValid(SubAt(pq.high, p, 0)) && SubValid(SubAt(pq.normal, p, pq.maxPer))
  {
    NewSubValid<T>(0);
    NewSubValid<T>(pq.maxPer);
  }

  lemma NewSubValid<T>(m: nat)
    requires m < TWO32
    ensures SubValid<T>(NewSub(m))
  {
  }

  lemma Overwrite<T>(m: Subs<T>, p: nat, a: Sub<T>, b: Sub<T>)
    ensures m[p := a][p := b] == m[p := b]
  {
  }

  /** A distribution has served the priorities below lo. */
  ghost predicate Granted<T>(before: Subs<T>, now: Subs<T>, lo: nat, cost: nat, total: int)
    requires total > 0
  {
    && now.Keys == before.Keys
    && forall p :: p in before ==> now[p] == if p < lo then PutTokens(before[p], Grant(p, cost, total)) else before[p]
  }

  lemma GrantedNone<T>(before: Subs<T>, cost: nat, total: int)
    requires total > 0
    ensures Granted(before, before, 0, cost, total)
  {
  }

  lemma GrantedStep<T>(pq: PQ<T>, now: Subs<T>, lo: nat, p: nat, cost: nat)
    requires PQValid(pq) && pq.total > 0
    requires Granted(pq.normal, now, lo, cost, pq.total) && Ceil(pq.normal.Keys, lo) == Some(p)
    ensures p in now && SubValid(now[p])
    ensures Granted(pq.normal, now[p := PutTokens(now[p], Grant(p, cost, pq.total))], p + 1, cost, pq.total)
    ensures |Above(pq.normal.Keys, p + 1)| < |Above(pq.normal.Keys, lo)|
  {
    hide PutTokens, SubValid, Sum;
    AboveShrinks(pq.normal.Keys, lo, p);
    assert Stored(pq.normal[p], LowestCost(pq), pq.maxPer);
  }

  lemma GrantedAll<T>(pq: PQ<T>, now: Subs<T>, lo: nat, cost: nat)
    requires pq.total > 0
    requires Granted(pq.normal, now, lo, cost, pq.total) && Ceil(pq.normal.Keys, lo) == None
    ensures pq.(normal := now) == Distribute(pq, cost)
  {
    hide PutTokens;
  }

  /** The lengths of the sub-queues of one tier, added to an unsigned counter. */
  method AddLengths<T>(subs: Subs<T>, start: nat) returns (total: nat)
    requires start < TWO32
    requires forall p :: p in subs ==> SubValid(subs[p])
    ensures total == Wrap32(start + Count(subs))
  {
    hide Wrap32, Count, Lower, SubValid, TotalOf, Ceil, Above;
    total := start;
    ghost var lo: nat := 0;
    var i := Ceil(subs.Keys, 0);
    CountStart(subs);
    WrapSmall(start);
    while i.Some?
      invariant i == Ceil(subs.Keys, lo)
      invariant total == Wrap32(start + Count(Lower(subs, lo)))
      decreases |Above(subs.Keys, lo)|
    {
      var p := i.value;
      CountStep(subs, lo, p);
      ghost var n := start + Count(Lower(subs, lo));
      total := Wrap32(total + Wrap32(subs[p].size));
      AddModulo(n, subs[p].size);
      lo := p + 1;
      i := Ceil(subs.Keys, p + 1);
    }
    CountDone(subs, lo);
  }

  function Wrap32(x: int): (r: nat)
    ensures r < TWO32
  {
    x % TWO32
  }

  lemma WrapSmall(x: nat)
    ensures x < TWO32 ==> Wrap32(x) == x
  {
  }

  lemma AddModulo(a: int, b: int)
    ensures Wrap32(Wrap32(a) + Wrap32(b)) == Wrap32(a + b) == Wrap32(Wrap32(a) + b)
  {
  }

  lemma CountStart<T>(subs: Subs<T>)
    ensures Count(Lower(subs, 0)) == 0
  {
    NonEmptyKeys(Lower(subs, 0));
  }

  lemma CountStep<T>(subs: Subs<T>, lo: nat, p: nat)
    requires Ceil(subs.Keys, lo) == Some(p)
    requires forall p :: p in subs ==> SubValid(subs[p])
    ensures p in subs && Count(Lower(subs, p + 1)) == Count(Lower(subs, lo)) + subs[p].size
    ensures |Above(subs.Keys, p + 1)| < |Above(subs.Keys, lo)|
  {
    hide TotalOf;
    var a, b := Lower(subs, lo), Lower(subs, p + 1);
    assert b.Keys == a.Keys + {p};
    SumAdd(a.Keys, p, (r: nat) => if r in a then TotalOf(a[r].q) else 0,
      (r: nat) => if r in b then TotalOf(b[r].q) else 0);
    AboveShrinks(subs.Keys, lo, p);
  }

  lemma CountDone<T>(subs: Subs<T>, lo: nat)
    requires Ceil(subs.Keys, lo) == None
    ensures Lower(subs, lo) == subs
  {
    forall r | r in subs
      ensures r < lo
    {
      assert r in subs.Keys;
    }
  }

  class PrioritizedQueue<T> {
    var totalPriority: int
    const maxTokensPerSubqueue: nat
    const minCost: nat
    var highQueue: Subs<T>
    var queue: Subs<T>

    ghost function View(): PQ<T>
      reads this
    {
      PQ(highQueue, queue, totalPriority, maxTokensPerSubqueue, minCost)
    }

    ghost predicate Valid()
      reads this
    {
      PQValid(View())
    }

    constructor (maxPer: nat, minC: nat)
      requires maxPer < TWO32 && minC < TWO32
      ensures Valid() && View() == PQ(map[], map[], 0, maxPer, minC)
    {
      totalPriority, maxTokensPerSubqueue, minCost := 0, maxPer, minC;
      highQueue, queue := map[], map[];
    }

    /** The stored sub-queue of a priority, made and counted if there is none yet. */
    method CreateQueue(priority: nat) returns (sq: SubQueue<T>)
      requires maxTokensPerSubqueue < TWO32
      modifies this
      ensures fresh(sq) && sq.View() == SubAt(old(queue), priority, maxTokensPerSubqueue)
      ensures View() == old(View()).(normal := old(queue)[priority := sq.View()],
                total := if priority in old(queue) then old(totalPriority) else old(totalPriority) + priority)
    {
      if priority in queue {
        sq := new SubQueue.Of(queue[priority]);
        assert queue[priority := sq.View()] == queue;
        return;
      }
      totalPriority := totalPriority + priority;
      sq := new SubQueue();
      sq.SetMaxTokens(maxTokensPerSubqueue);
      queue := queue[priority := sq.View()];
    }

    method RemoveQueue(priority: nat)
      modifies this
      ensures View() == old(View()).(normal := old(queue) - {priority}, total := old(totalPriority) - priority)
    {
      queue := queue - {priority};
      totalPriority := totalPriority - priority;
    }

    /** Store a weighted sub-queue back after it has lost items, or remove it if it is empty. */
    method PutBack(p: nat, sq: SubQueue<T>)
      modifies this
      ensures View() == PutBackNormal(old(View()), p, sq.View())
    {
      if sq.q == map[] {
        RemoveQueue(p);
      } else {
        queue := queue[p := sq.View()];
      }
    }

    method DistributeTokens(cost: nat)
      requires Valid() && cost < TWO32
      modifies this
      ensures View() == Distribute(old(View()), cost) && Valid()
    {
      hide PQValid, Granted, Ceil, Above, SubQueueSpec.PutTokens;
      DistributeValid(View(), cost);
      TotalNonNegative(View());
      if totalPriority == 0 {
        return;
      }
      ghost var queue0 := queue;
      ghost var lo: nat := 0;
      var i := Ceil(queue.Keys, 0);
      GrantedNone(queue0, cost, totalPriority);
      while i.Some?
        invariant View() == old(View()).(normal := queue)
        invariant queue.Keys == queue0.Keys && i == Ceil(queue0.Keys, lo)
        invariant Granted(queue0, queue, lo, cost, totalPriority)
        decreases |Above(queue0.Keys, lo)|
      {
        var p := i.value;
        GrantedStep(old(View()), queue, lo, p, cost);
        var sq := new SubQueue.Of(queue[p]);
        sq.PutTokens(((p * cost) % TWO32 / totalPriority + 1) % TWO32);
        queue := queue[p := sq.View()];
        lo := p + 1;
        i := Ceil(queue.Keys, p + 1);
      }
      GrantedAll(old(View()), queue, lo, cost);
    }

    method Enqueue(cl: Key, priority: nat, cost: nat, item: T)
      requires Valid() && priority < TWO32
      modifies this
      ensures View() == EnqueueNormal(old(View()), cl, priority, cost, item, false) && Valid()
    {
      EnqueueEither(cl, priority, cost, item, false);
    }

    method EnqueueFront(cl: Key, priority: nat, cost: nat, item: T)
      requires Valid() && priority < TWO32
      modifies this
      ensures View() == EnqueueNormal(old(View()), cl, priority, cost, item, true) && Valid()
    {
      EnqueueEither(cl, priority, cost, item, true);
    }

    method EnqueueEither(cl: Key, priority: nat, cost: nat, item: T, front: bool)
      requires Valid() && priority < TWO32
      modifies this
      ensures View() == EnqueueNormal(old(View()), cl, priority, cost, item, front) && Valid()
    {
      hide PQValid, SubValid, SubQueueSpec.Enqueue;
      EnqueueNormalValid(View(), cl, priority, cost, item, front);
      SubsReady(View(), priority);
      var c := cost;
      if c < minCost {
        c := minCost;
      }
      if c > maxTokensPerSubqueue {
        c := maxTokensPerSubqueue;
      }
      var sq := CreateQueue(priority);
      if front {
        sq.EnqueueFront(cl, c, item);
      } else {
        sq.Enqueue(cl, c, item);
      }
      Overwrite(old(queue), priority, SubAt(old(queue), priority, maxTokensPerSubqueue), sq.View());
      queue := queue[priority := sq.View()];
    }

    method EnqueueStrict(cl: Key, priority: nat, item: T)
      requires Valid() && priority < TWO32
      modifies this
      ensures View() == Spec.EnqueueStrict(old(View()), cl, priority, item, false) && Valid()
    {
      EnqueueStrictEither(cl, priority, item, false);
    }

    method EnqueueStrictFront(cl: Key, priority: nat, item: T)
      requires Valid() && priority < TWO32
      modifies this
      ensures View() == Spec.EnqueueStrict(old(View()), cl, priority, item, true) && Valid()
    {
      EnqueueStrictEither(cl, priority, item, true);
    }

    method EnqueueStrictEither(cl: Key, priority: nat, item: T, front: bool)
      requires Valid() && priority < TWO32
      modifies this
      ensures View() == Spec.EnqueueStrict(old(View()), cl, priority, item, front) && Valid()
    {
      hide PQValid, SubValid, SubQueueSpec.Enqueue;
      EnqueueStrictValid(View(), cl, priority, item, front);
      SubsReady(View(), priority);
      var sq: SubQueue<T>;
      if priority in highQueue {
        sq := new SubQueue.Of(highQueue[priority]);
      } else {
        sq := new SubQueue();
      }
      if front {
        sq.EnqueueFront(cl, 0, item);
      } else {
        sq.Enqueue(cl, 0, item);
      }
      highQueue := highQueue[priority := sq.View()];
    }

    /** Pop the head of a stored sub-queue, after paying for it if paid, and store it back unless it is empty. */
    method PopStrict(p: nat) returns (ret: T)
      requires p in highQueue && SubValid(highQueue[p]) && highQueue[p].q != map[]
      modifies this
      ensures ret == Front(old(highQueue)[p]).item
      ensures View() == PutBackHigh(old(View()), p, PopFront(old(highQueue)[p]))
    {
      hide SubValid, PopFront, Front;
      var sq := new SubQueue.Of(highQueue[p]);
      var head := sq.FrontPair();
      ret := head.item;
      sq.PopFront();
      if sq.q == map[] {
        highQueue := highQueue - {p};
      } else {
        highQueue := highQueue[p := sq.View()];
      }
    }

    method PopNormal(p: nat, paid: bool) returns (ret: T)
      requires Valid() && p in queue
      modifies this
      ensures ret == Front(old(queue)[p]).item
      ensures View() == Distribute(TakeNormal(old(View()), p, paid), Front(old(queue)[p]).cost) && Valid()
    {
      hide PQValid, SubValid, PopFront, Front, SubQueueSpec.TakeTokens, Distribute;
      TakeNormalValid(View(), p, paid);
      StoredIsValid(View(), p);
      var sq := new SubQueue.Of(queue[p]);
      var head := sq.FrontPair();
      ret := head.item;
      if paid {
        sq.TakeTokens(head.cost);
      }
      sq.PopFront();
      PutBack(p, sq);
      DistributeTokens(head.cost);
    }

    method Dequeue() returns (ret: T)
      requires Valid() && !Empty(View())
      modifies this
      ensures ret == Dequeued(old(View()))
      ensures View() == Spec.Dequeue(old(View())) && Valid()
    {
      hide PQValid, SubValid, PopFront, TakeNormal, Distribute, Ceil, Above, Front;
      DequeueValid(View());
      if highQueue != map[] {
        NonEmptyKeys(highQueue);
        StoredStrict(View());
        ret := PopStrict(Greatest(highQueue.Keys));
        return;
      }
      ghost var pq, lo: nat := View(), 0;
      var i := Ceil(queue.Keys, 0);
      while i.Some?
        invariant View() == pq && i == Ceil(queue.Keys, lo)
        invariant NoneEligible(pq, lo)
        decreases |Above(queue.Keys, lo)|
      {
        var p := i.value;
        StoredIsValid(pq, p);
        EligibleStep(pq, lo, p);
        var sq := new SubQueue.Of(queue[p]);
        var head := sq.FrontPair();
        if head.cost < sq.tokens {
          ret := PopNormal(p, true);
          return;
        }
        lo := p + 1;
        i := Ceil(queue.Keys, p + 1);
      }
      NoneLeft(pq, lo);
      ret := PopNormal(Greatest(queue.Keys), false);
    }

    /** The filter loop over the weighted tier; emptied sub-queues are removed and no longer counted. */
    method FilterNormal(f: T -> bool)
      requires Valid()
      modifies this
      ensures View() == old(View()).(normal := NonEmpty(Filtered(old(queue), f)),
                total := Sum(NonEmpty(Filtered(old(queue), f)).Keys, Identity()))
    {
      hide PQValid, SubValid, SubQueueSpec.RemoveByFilter, Filtered, Sifted, Ceil, Above, Sum, NonEmpty, PutBackNormal;
      ghost var pq, after, lo: nat := View(), Filtered(queue, f), 0;
      SiftStart(pq.normal, after);
      TotalIsSum(pq);
      FilteredKeys(pq.normal, f);
      var i := Ceil(queue.Keys, 0);
      while i.Some?
        invariant i == Ceil(queue.Keys, lo) && Sifted(pq.normal, queue, after, lo)
        invariant View() == pq.(normal := queue, total := totalPriority)
        invariant totalPriority == Sum(queue.Keys, Identity())
        decreases |Above(pq.normal.Keys, lo)|
      {
        var p := i.value;
        StoredIsValid(pq, p);
        SiftOn(pq.normal, View(), after, lo, p);
        var sq := new SubQueue.Of(queue[p]);
        sq.RemoveByFilter(f);
        i := Ceil(queue.Keys, p + 1);
        PutBack(p, sq);
        lo := p + 1;
      }
      SiftDone(pq.normal, queue, after, lo);
    }

    method FilterHigh(f: T -> bool)
      requires forall p :: p in highQueue ==> SubValid(highQueue[p])
      modifies this
      ensures View() == old(View()).(high := NonEmpty(Filtered(old(highQueue), f)))
    {
      hide SubValid, SubQueueSpec.RemoveByFilter, Filtered, Sifted, Ceil, Above, NonEmpty;
      ghost var pq, after, lo: nat := View(), Filtered(highQueue, f), 0;
      SiftStart(pq.high, after);
      FilteredKeys(pq.high, f);
      var i := Ceil(highQueue.Keys, 0);
      while i.Some?
        invariant i == Ceil(highQueue.Keys, lo) && Sifted(pq.high, highQueue, after, lo)
        invariant View() == pq.(high := highQueue)
        decreases |Above(pq.high.Keys, lo)|
      {
        var p := i.value;
        SiftStep(pq.high, highQueue, after, lo, p);
        var sq := new SubQueue.Of(highQueue[p]);
        sq.RemoveByFilter(f);
        i := Ceil(highQueue.Keys, p + 1);
        if sq.q == map[] {
          highQueue := highQueue - {p};
        } else {
          highQueue := highQueue[p := sq.View()];
        }
        lo := p + 1;
      }
      SiftDone(pq.high, highQueue, after, lo);
    }

    /** The class removal loop over the weighted tier. */
    method RemoveClassNormal(k: Key, out: Option<seq<T>>) returns (out': Option<seq<T>>)
      requires Valid()
      modifies this
      ensures View() == old(View()).(normal := NonEmpty(WithoutClass(old(queue), k)),
                total := Sum(NonEmpty(WithoutClass(old(queue), k)).Keys, Identity()))
      ensures out' == PushedFront(ClassItems(old(queue), k), out)
    {
      hide PQValid, SubValid, SubQueueSpec.RemoveByClass, WithoutClass, PushedFront, PutBackNormal, NonEmpty;
      hide Sifted, Ceil, Above, Sum, ClassItems, Items, Lower;
      ghost var pq, after, lo: nat := View(), WithoutClass(queue, k), 0;
      WithoutClassKeys(pq.normal, k);
      SiftStart(pq.normal, after);
      TotalIsSum(pq);
      var i := Ceil(queue.Keys, 0);
      out' := out;
      OutStart(pq.normal, k, out);
      while i.Some?
        invariant i == Ceil(queue.Keys, lo) && Sifted(pq.normal, queue, after, lo)
        invariant View() == pq.(normal := queue, total := totalPriority)
        invariant totalPriority == Sum(queue.Keys, Identity())
        invariant out' == PushedFront(ClassItems(Lower(pq.normal, lo), k), out)
        decreases |Above(pq.normal.Keys, lo)|
      {
        var p := i.value;
        StoredIsValid(pq, p);
        SiftOn(pq.normal, View(), after, lo, p);
        OutStep(pq.normal, queue, after, lo, p, k);
        OutAssoc(Items(ListAt(queue[p].q, k)), ClassItems(Lower(pq.normal, lo), k), out);
        var sq := new SubQueue.Of(queue[p]);
        out' := sq.RemoveByClass(k, out');
        i := Ceil(queue.Keys, p + 1);
        PutBack(p, sq);
        lo := p + 1;
      }
      SiftDone(pq.normal, queue, after, lo);
      OutDone(pq.normal, queue, after, lo);
    }

    method RemoveClassHigh(k: Key, out: Option<seq<T>>) returns (out': Option<seq<T>>)
      requires forall p :: p in highQueue ==> SubValid(highQueue[p])
      modifies this
      ensures View() == old(View()).(high := NonEmpty(WithoutClass(old(highQueue), k)))
      ensures out' == PushedFront(ClassItems(old(highQueue), k), out)
    {
      hide SubValid, SubQueueSpec.RemoveByClass, WithoutClass, PushedFront, NonEmpty;
      hide Sifted, Ceil, Above, ClassItems, Items, Lower;
      ghost var pq, after, lo: nat := View(), WithoutClass(highQueue, k), 0;
      WithoutClassKeys(pq.high, k);
      SiftStart(pq.high, after);
      var i := Ceil(highQueue.Keys, 0);
      out' := out;
      OutStart(pq.high, k, out);
      while i.Some?
        invariant i == Ceil(highQueue.Keys, lo) && Sifted(pq.high, highQueue, after, lo)
        invariant View() == pq.(high := highQueue)
        invariant out' == PushedFront(ClassItems(Lower(pq.high, lo), k), out)
        decreases |Above(pq.high.Keys, lo)|
      {
        var p := i.value;
        SiftStep(pq.high, highQueue, after, lo, p);
        OutStep(pq.high, highQueue, after, lo, p, k);
        OutAssoc(Items(ListAt(highQueue[p].q, k)), ClassItems(Lower(pq.high, lo), k), out);
        var sq := new SubQueue.Of(highQueue[p]);
        out' := sq.RemoveByClass(k, out');
        i := Ceil(highQueue.Keys, p + 1);
        if sq.q == map[] {
          highQueue := highQueue - {p};
        } else {
          highQueue := highQueue[p := sq.View()];
        }
        lo := p + 1;
      }
      SiftDone(pq.high, highQueue, after, lo);
      OutDone(pq.high, highQueue, after, lo);
    }

    method RemoveByClass(k: Key, out: Option<seq<T>>) returns (out': Option<seq<T>>)
      requires Valid()
      modifies this
      ensures View() == Spec.RemoveByClass(old(View()), k) && Valid()
      ensures out.None? ==> out'.None?
      ensures out.Some? ==> out'.Some?
      ensures out.Some? ==>
                out'.value == ClassItems(old(View()).high, k) + ClassItems(old(View()).normal, k) + out.value
    {
      hide PQValid, SubValid, WithoutClass, NonEmpty, Sum, ClassItems;
      Spec.RemoveByClassValid(View(), k);
      StoredStrict(View());
      out' := RemoveClassNormal(k, out);
      out' := RemoveClassHigh(k, out');
      OutAssoc(ClassItems(old(highQueue), k), ClassItems(old(queue), k), out);
    }

    /** The number of queued items, as an unsigned 32-bit count. */
    method Length() returns (total: nat)
      requires Valid()
      ensures total == Wrap32(Count(View().normal) + Count(View().high))
    {
      hide PQValid, SubValid, Count, Wrap32;
      StoredStrict(View());
      total := AddLengths(queue, 0);
      ghost var normal, high := Count(queue), Count(highQueue);
      total := AddLengths(highQueue, total);
      AddModulo(normal, high);
    }

    method RemoveByFilter(f: T -> bool)
      requires Valid()
      modifies this
      ensures View() == Spec.RemoveByFilter(old(View()), f) && Valid()
    {
      hide PQValid, SubValid, Filtered, NonEmpty, Sum;
      Spec.RemoveByFilterValid(View(), f);
      StoredStrict(View());
      FilterNormal(f);
      FilterHigh(f);
    }
  }

  ghost predicate Sifted<T>(before: Subs<T>, now: Subs<T>, after: Subs<T>, lo: nat) {
    && before.Keys == after.Keys
    && (forall p :: p in now <==> p in before && (p < lo ==> after[p].q != map[]))
    && (forall p :: p in now ==> now[p] == if p < lo then after[p] else before[p])
  }

  lemma SiftStart<T>(before: Subs<T>, after: Subs<T>)
    ensures before.Keys == after.Keys ==> Sifted(before, before, after, 0)
  {
  }

  lemma SiftStep<T>(before: Subs<T>, now: Subs<T>, after: Subs<T>, lo: nat, p: nat)
    requires Sifted(before, now, after, lo) && Ceil(now.Keys, lo) == Some(p)
    ensures p in before && p in now && now[p] == before[p] && p in after
    ensures after[p].q == map[] ==> Sifted(before, now - {p}, after, p + 1)
    ensures after[p].q != map[] ==> Sifted(before, now[p := after[p]], after, p + 1)
    ensures Ceil((now - {p}).Keys, p + 1) == Ceil(now.Keys, p + 1) == Ceil(now[p := after[p]].Keys, p + 1)
    ensures |Above(before.Keys, p + 1)| < |Above(before.Keys, lo)|
  {
    hide Above;
    AboveShrinks(before.Keys, lo, p);
    CeilWithout(now.Keys, p, p + 1);
    assert (now - {p}).Keys == now.Keys - {p};
    assert now[p := after[p]].Keys == now.Keys;
  }

  lemma SiftDone<T>(before: Subs<T>, now: Subs<T>, after: Subs<T>, lo: nat)
    requires Sifted(before, now, after, lo) && Ceil(now.Keys, lo) == None
    ensures now == NonEmpty(after)
  {
  }

  lemma FilteredKeys<T>(subs: Subs<T>, f: T -> bool)
    ensures Filtered(subs, f).Keys == subs.Keys
    ensures forall p :: p in subs ==> Filtered(subs, f)[p] == SubQueueSpec.RemoveByFilter(subs[p], f)
  {
    hide SubQueueSpec.RemoveByFilter;
  }

  lemma WithoutClassKeys<T>(subs: Subs<T>, k: Key)
    ensures WithoutClass(subs, k).Keys == subs.Keys
    ensures forall p :: p in subs ==> WithoutClass(subs, k)[p] == SubQueueSpec.RemoveByClass(subs[p], k)
  {
    hide SubQueueSpec.RemoveByClass;
  }

  /** The sub-queues of the priorities below lo. */
  ghost function Lower<T>(subs: Subs<T>, lo: nat): Subs<T> {
    map p | p in subs && p < lo :: subs[p]
  }

  lemma OutStart<T>(subs: Subs<T>, k: Key, out: Option<seq<T>>)
    ensures out == PushedFront(ClassItems(Lower(subs, 0), k), out)
  {
    NonEmptyKeys(Lower(subs, 0));
    PushedNothing(out);
  }

  /** The next priority visited is the greatest of those visited so far: its items go to the front. */
  lemma OutStep<T>(before: Subs<T>, now: Subs<T>, after: Subs<T>, lo: nat, p: nat, k: Key)
    requires Sifted(before, now, after, lo) && Ceil(now.Keys, lo) == Some(p)
    ensures p in before
    ensures ClassItems(Lower(before, p + 1), k) == Items(ListAt(before[p].q, k)) + ClassItems(Lower(before, lo), k)
  {
    var visited := Lower(before, p + 1);
    assert p in visited.Keys;
    assert Greatest(visited.Keys) == p;
    forall r | r in before && lo <= r
      ensures p <= r
    {
      assert r in now.Keys;
    }
    assert visited - {p} == Lower(before, lo);
  }

  lemma OutAssoc<T>(a: seq<T>, b: seq<T>, out: Option<seq<T>>)
    ensures PushedFront(a, PushedFront(b, out)) == PushedFront(a + b, out)
  {
    if out.Some? {
      assert a + (b + out.value) == (a + b) + out.value;
    }
  }

  lemma OutDone<T>(before: Subs<T>, now: Subs<T>, after: Subs<T>, lo: nat)
    requires Sifted(before, now, after, lo) && Ceil(now.Keys, lo) == None
    ensures Lower(before, lo) == before
  {
    forall r | r in before
      ensures r < lo
    {
      assert r < lo || r in now.Keys;
    }
  }

  /** One sub-queue of the weighted tier is put back with what a removal leaves of it. */
  lemma SiftOn<T>(before: Subs<T>, now: PQ<T>, after: Subs<T>, lo: nat, p: nat)
    requires Sifted(before, now.normal, after, lo) && Ceil(now.normal.Keys, lo) == Some(p)
    requires now.total == Sum(now.normal.Keys, Identity())
    ensures p in before && p in now.normal && now.normal[p] == before[p] && p in after
    ensures var next := PutBackNormal(now, p, after[p]);
            && next == now.(normal := next.normal, total := next.total)
            && Sifted(before, next.normal, after, p + 1)
            && next.total == Sum(next.normal.Keys, Identity())
            && Ceil(next.normal.Keys, p + 1) == Ceil(now.normal.Keys, p + 1)
    ensures |Above(before.Keys, p + 1)| < |Above(before.Keys, lo)|
  {
    hide Sum, Sifted, Ceil, Above;
    SiftStep(before, now.normal, after, lo, p);
    SumAfter(now.normal, p, after[p]);
  }

  lemma SumAfter<T>(now: Subs<T>, p: nat, s: Sub<T>)
    requires p in now
    ensures Sum((now - {p}).Keys, Identity()) == Sum(now.Keys, Identity()) - p
    ensures Sum(now[p := s].Keys, Identity()) == Sum(now.Keys, Identity())
  {
    hide Sum;
    SumIdentityAdd(now.Keys, p);
    assert (now - {p}).Keys == now.Keys - {p};
    assert now[p := s].Keys == now.Keys;
  }

  lemma StoredIsValid<T>(pq: PQ<T>, p: nat)
    requires PQValid(pq)
    ensures p in pq.normal ==> SubValid(pq.normal[p]) && pq.normal[p].q != map[] && pq.maxPer < TWO32
  {
  }

  lemma StoredStrict<T>(pq: PQ<T>)
    requires PQValid(pq)
    ensures forall p :: p in pq.high ==> SubValid(pq.high[p]) && pq.high[p].q != map[]
    ensures forall p :: p in pq.normal ==> SubValid(pq.normal[p]) && pq.normal[p].q != map[]
  {
  }

  lemma NonEmptyKeys<T>(m: Subs<T>)
    ensures m == map[] <==> m.Keys == {}
  {
  }

  /** The scan for a sub-queue that can pay has found none below lo. */
  ghost predicate NoneEligible<T>(pq: PQ<T>, lo: nat)
    requires PQValid(pq)
  {
    forall p :: p in Eligible(pq.normal) ==> p >= lo
  }

  lemma EligibleStep<T>(pq: PQ<T>, lo: nat, p: nat)
    requires PQValid(pq) && NoneEligible(pq, lo) && Ceil(pq.normal.Keys, lo) == Some(p)
    ensures p in pq.normal && |Above(pq.normal.Keys, p + 1)| < |Above(pq.normal.Keys, lo)|
    ensures SubValid(pq.normal[p]) && pq.normal[p].q != map[]
    ensures if Front(pq.normal[p]).cost < pq.normal[p].tokens
            then pq.high == map[] ==> Choice(pq) == Source(false, p, true)
            else NoneEligible(pq, p + 1)
  {
    hide Sum, SubValid, Front;
    StoredIsValid(pq, p);
    AboveShrinks(pq.normal.Keys, lo, p);
    assert forall r :: r in Eligible(pq.normal) ==> r in pq.normal.Keys;
    if Front(pq.normal[p]).cost < pq.normal[p].tokens {
      assert p in Eligible(pq.normal);
      assert Least(Eligible(pq.normal)) == p;
    }
  }

  lemma NoneLeft<T>(pq: PQ<T>, lo: nat)
    requires PQValid(pq) && !Empty(pq) && pq.high == map[]
    requires NoneEligible(pq, lo) && Ceil(pq.normal.Keys, lo) == None
    ensures pq.normal.Keys != {} && Choice(pq) == Source(false, Greatest(pq.normal.Keys), false)
  {
    hide Sum, Front;
    NonEmptyKeys(pq.normal);
    assert forall p :: p in Eligible(pq.normal) ==> p in pq.normal.Keys;
    assert Eligible(pq.normal) == {};
  }
}
