/** Fairness of the round-robin cursor of a sub-queue. */
module RoundRobin {
  import opened Options
  import opened OrderedKeys
  import opened SubQueueSpec

  /** j lies on the cyclic way from c up to, but not including, k. */
  predicate OnTheWay(c: Key, k: Key, j: Key) {
    if c <= k then c <= j < k else j >= c || j < k
  }

  ghost function Between(keys: set<Key>, c: Key, k: Key): set<Key> {
    set j | j in keys && OnTheWay(c, k, j)
  }

  /** How many classes the cursor visits before class k. */
  ghost function Distance<T>(s: Sub<T>, k: Key): nat
    requires SubValid(s) && k in s.q
  {
    |Between(s.q.Keys, s.cur.value, k)|
  }

  lemma CursorStep(keys: set<Key>, keys': set<Key>, c: Key, k: Key)
    requires c in keys && k in keys && c != k && (keys' == keys || keys' == keys - {c})
    ensures k in keys'
    ensures var c' := CyclicCeil(keys', c + 1).value;
            Between(keys', c', k) == Between(keys, c, k) - {c} && c in Between(keys, c, k)
  {
    assert k in keys';
    var c' := CyclicCeil(keys', c + 1).value;
    if Ceil(keys', c + 1).None? {
      assert forall j :: j in keys' ==> j <= c;
      assert forall j :: j in keys' ==> c' <= j;
    } else {
      assert forall j :: j in keys' && j > c ==> c' <= j;
    }
    assert forall j :: j in keys && j != c ==> j in keys';
  }

  /** A pop that does not serve class k leaves its list alone and brings the cursor exactly one class nearer. */
  lemma PopApproaches<T>(s: Sub<T>, k: Key)
    requires SubValid(s) && k in s.q && s.cur != Some(k)
    ensures var s' := PopFront(s);
            SubValid(s') && k in s'.q && s'.q[k] == s.q[k] && Distance(s', k) == Distance(s, k) - 1
  {
    hide SubValid;
    CursorPresent(s);
    PopFrontValid(s);
    var s', c := PopFront(s), s.cur.value;
    assert s'.q.Keys == if s.q[c][1..] == [] then s.q.Keys - {c} else s.q.Keys;
    CursorStep(s.q.Keys, s'.q.Keys, c, k);
  }

  lemma CursorPresent<T>(s: Sub<T>)
    requires SubValid(s) && s.q != map[]
    ensures s.cur.Some? && s.cur.value in s.q && s.q[s.cur.value] != []
  {
  }

  ghost predicate CanPop<T>(s: Sub<T>, n: nat)
    requires SubValid(s)
    decreases n
  {
    n == 0 || (s.q != map[] && (PopFrontValid(s); CanPop(PopFront(s), n - 1)))
  }

  ghost function Pops<T>(s: Sub<T>, n: nat): (r: Sub<T>)
    requires SubValid(s) && CanPop(s, n)
    ensures SubValid(r)
    decreases n
  {
    if n == 0 then s
    else
      PopFrontValid(s);
      Pops(PopFront(s), n - 1)
  }

  /** With pops only, class k is served by exactly the pop number Distance + 1, and by none before it. */
  lemma {:induction false} ServedInTurn<T>(s: Sub<T>, k: Key, n: nat)
    requires SubValid(s) && k in s.q && n <= Distance(s, k)
    ensures CanPop(s, n)
    ensures var r := Pops(s, n);
            k in r.q && r.q[k] == s.q[k] && (r.cur == Some(k) <==> n == Distance(s, k))
    decreases n
  {
    CursorPresent(s);
    AtCursor(s, k);
    if n != 0 {
      PopFrontValid(s);
      PopApproaches(s, k);
      ServedInTurn(PopFront(s), k, n - 1);
    }
  }

  lemma AtCursor<T>(s: Sub<T>, k: Key)
    requires SubValid(s) && k in s.q
    ensures s.cur == Some(k) <==> Distance(s, k) == 0
  {
    var c := s.cur.value;
    if c == k {
      assert Between(s.q.Keys, c, k) == {};
    } else {
      assert c in Between(s.q.Keys, c, k);
    }
  }

  // ---- with arrivals and removals in between ----

  datatype Step<!T> = Pop | Add(k: Key, pair: Pair<T>, front: bool) | Drop(k: Key) | Sift(f: T -> bool)

  ghost function Apply<T>(s: Sub<T>, step: Step<T>): (r: Sub<T>)
    requires SubValid(s) && (step.Pop? ==> s.q != map[])
    ensures SubValid(r)
  {
    match step
    case Pop => PopFrontValid(s); PopFront(s)
    case Add(k, pair, front) => EnqueueValid(s, k, pair, front); Enqueue(s, k, pair, front)
    case Drop(k) => RemoveByClassValid(s, k); RemoveByClass(s, k)
    case Sift(f) => RemoveByFilterValid(s, f); RemoveByFilter(s, f)
  }

  /** Class k is queued throughout the run and no pop of the run serves it. */
  ghost predicate Waits<T>(s: Sub<T>, steps: seq<Step<T>>, k: Key)
    requires SubValid(s)
    decreases |steps|
  {
    && k in s.q
    && (steps != [] ==>
      && (steps[0].Pop? ==> s.cur != Some(k) && s.q != map[])
      && Waits(Apply(s, steps[0]), steps[1..], k))
  }

  function PopCount<T>(steps: seq<Step<T>>): nat {
    if steps == [] then 0 else (if steps[0].Pop? then 1 else 0) + PopCount(steps[1..])
  }

  /** An arrival that opens a class between the cursor and class k. */
  ghost predicate OpensAhead<T>(s: Sub<T>, step: Step<T>, k: Key)
    requires SubValid(s) && k in s.q
  {
    step.Add? && step.k !in s.q && OnTheWay(s.cur.value, k, step.k)
  }

  /** The number of arrivals that open a class ahead of class k. */
  ghost function NewAhead<T>(s: Sub<T>, steps: seq<Step<T>>, k: Key): nat
    requires SubValid(s) && Waits(s, steps, k)
    decreases |steps|
  {
    if steps == [] then 0
    else (if OpensAhead(s, steps[0], k) then 1 else 0) + NewAhead(Apply(s, steps[0]), steps[1..], k)
  }

  /** An arrival moves class k back by one place if it opens a class ahead of it, and otherwise not at all. */
  lemma AddDelays<T>(s: Sub<T>, k: Key, j: Key, pair: Pair<T>, front: bool)
    requires SubValid(s) && k in s.q
    ensures var s' := Enqueue(s, j, pair, front);
            && SubValid(s') && k in s'.q
            && Distance(s', k) == Distance(s, k) + (if OpensAhead(s, Add(j, pair, front), k) then 1 else 0)
  {
    hide SubValid;
    CursorPresent(s);
    EnqueueValid(s, j, pair, front);
    var s', c := Enqueue(s, j, pair, front), s.cur.value;
    assert s'.q.Keys == s.q.Keys + {j};
    if OpensAhead(s, Add(j, pair, front), k) {
      assert Between(s'.q.Keys, c, k) == Between(s.q.Keys, c, k) + {j};
    } else {
      assert Between(s'.q.Keys, c, k) == Between(s.q.Keys, c, k);
    }
  }

  lemma RecursorApproaches(keys: set<Key>, keys': set<Key>, c: Key, k: Key)
    requires keys' <= keys && c in keys && k in keys'
    ensures Between(keys', CyclicCeil(keys', c).value, k) <= Between(keys, c, k)
  {
    var c' := CyclicCeil(keys', c).value;
    if Ceil(keys', c).None? {
      assert forall j :: j in keys' ==> j < c;
      assert forall j :: j in keys' ==> c' <= j;
    } else {
      assert forall j :: j in keys' && j >= c ==> c' <= j;
    }
  }

  /** A removal that leaves class k queued never moves it back. */
  lemma RemovalHelps<T>(s: Sub<T>, s': Sub<T>, k: Key)
    requires SubValid(s) && SubValid(s') && k in s.q && k in s'.q && s'.q.Keys <= s.q.Keys
    requires s'.cur == Recursor(s'.q.Keys, s.cur)
    ensures Distance(s', k) <= Distance(s, k)
  {
    hide SubValid;
    CursorPresent(s);
    CursorPresent(s');
    RecursorApproaches(s.q.Keys, s'.q.Keys, s.cur.value, k);
    SubsetSize(Between(s'.q.Keys, s'.cur.value, k), Between(s.q.Keys, s.cur.value, k));
  }

  lemma StepDistance<T>(s: Sub<T>, step: Step<T>, k: Key)
    requires SubValid(s) && k in s.q && (step.Pop? ==> s.cur != Some(k) && s.q != map[])
    requires k in Apply(s, step).q
    ensures Distance(Apply(s, step), k) + (if step.Pop? then 1 else 0)
            <= Distance(s, k) + (if OpensAhead(s, step, k) then 1 else 0)
  {
    hide SubValid, PopFront, Enqueue;
    match step
    case Pop => PopApproaches(s, k);
    case Add(j, pair, front) => AddDelays(s, k, j, pair, front);
    case Drop(j) =>
      if j in s.q {
        RemovalHelps(s, RemoveByClass(s, j), k);
      }
    case Sift(f) => RemovalHelps(s, RemoveByFilter(s, f), k);
  }

  /** Fairness over every run: while class k waits, the pops that pass it by are at most its distance at the start plus
      the classes opened ahead of it meanwhile. */
  lemma {:induction false} Fairness<T>(s: Sub<T>, steps: seq<Step<T>>, k: Key)
    requires SubValid(s) && Waits(s, steps, k)
    ensures PopCount(steps) <= Distance(s, k) + NewAhead(s, steps, k)
    decreases |steps|
  {
    hide SubValid;
    if steps != [] {
      StepDistance(s, steps[0], k);
      Fairness(Apply(s, steps[0]), steps[1..], k);
    }
  }
}
