/** The value of one sub-queue of the prioritized queue (prioritizedqueue.h): per-class lists under a round-robin
    cursor, and a token bucket; what each operation does to it, and the invariant every operation keeps. */
module SubQueueSpec {
  import opened Options
  import opened OrderedKeys

  type Key = nat

  const TWO32 := 0x1_0000_0000

  datatype Pair<T> = Pair(cost: nat, item: T)

  type Classes<T> = map<Key, seq<Pair<T>>>

  /** The fields of a sub-queue. A cursor of None stands for end(). */
  datatype Sub<T> = Sub(q: Classes<T>, tokens: nat, maxTokens: nat, size: int, cur: Option<Key>)

  function ListAt<T>(q: Classes<T>, k: Key): seq<Pair<T>> {
    if k in q then q[k] else []
  }

  ghost function TotalOf<T>(q: Classes<T>): int {
    Sum(q.Keys, (k: nat) => |ListAt(q, k)|)
  }

  ghost predicate SubValid<T>(s: Sub<T>) {
    && (forall k :: k in s.q ==> s.q[k] != [])
    && s.size == TotalOf(s.q)
    && (s.cur.None? <==> s.q == map[])
    && (s.cur.Some? ==> s.cur.value in s.q)
    && s.tokens <= s.maxTokens < TWO32
  }

  // ---- sums of list lengths ----

  lemma TotalSet<T>(q: Classes<T>, k: Key, l: seq<Pair<T>>)
    ensures TotalOf(q[k := l]) == TotalOf(q) - |ListAt(q, k)| + |l|
  {
    var f, g := (x: nat) => |ListAt(q, x)|, (x: nat) => |ListAt(q[k := l], x)|;
    SumAdd(q.Keys, k, f, g);
    assert q[k := l].Keys == q.Keys + {k};
  }

  lemma TotalErase<T>(q: Classes<T>, k: Key)
    ensures TotalOf(q - {k}) == TotalOf(q) - |ListAt(q, k)|
  {
    var f, g := (x: nat) => |ListAt(q, x)|, (x: nat) => |ListAt(q - {k}, x)|;
    assert (q - {k}).Keys == q.Keys - {k};
    SumSame(q.Keys - {k}, f, g);
    if k in q {
      SumRemove(q.Keys, k, f);
    } else {
      assert q.Keys - {k} == q.Keys;
    }
  }

  // ---- what each operation does to the value ----

  ghost function PutTokens<T>(s: Sub<T>, t: nat): Sub<T> {
    var sum := (s.tokens + t) % TWO32;
    s.(tokens := if sum > s.maxTokens then s.maxTokens else sum)
  }

  ghost function TakeTokens<T>(s: Sub<T>, t: nat): Sub<T> {
    s.(tokens := if s.tokens > t then s.tokens - t else 0)
  }

  /** Add at the back, or at the front, of the list of class k. */
  ghost function Enqueue<T>(s: Sub<T>, k: Key, p: Pair<T>, front: bool): Sub<T> {
    var l := if front then [p] + ListAt(s.q, k) else ListAt(s.q, k) + [p];
    var q := s.q[k := l];
    s.(q := q, size := s.size + 1, cur := if s.cur.None? then CyclicCeil(q.Keys, 0) else s.cur)
  }

  ghost function Front<T>(s: Sub<T>): Pair<T>
    requires SubValid(s) && s.q != map[]
  {
    s.q[s.cur.value][0]
  }

  /** Drop the head of the cursor's class, and the class if that empties it; the cursor moves on cyclically. */
  ghost function PopFront<T>(s: Sub<T>): Sub<T>
    requires SubValid(s) && s.q != map[]
  {
    var c := s.cur.value;
    var l := s.q[c][1..];
    var q := if l == [] then s.q - {c} else s.q[c := l];
    s.(q := q, size := s.size - 1, cur := CyclicCeil(q.Keys, c + 1))
  }

  /** The pairs whose item does not satisfy f, in order. */
  function Kept<T>(l: seq<Pair<T>>, f: T -> bool): seq<Pair<T>> {
    if l == [] then []
    else if f(l[0].item) then Kept(l[1..], f)
    else [l[0]] + Kept(l[1..], f)
  }

  ghost function KeptClasses<T>(q: Classes<T>, f: T -> bool): Classes<T> {
    map k | k in q && Kept(q[k], f) != [] :: Kept(q[k], f)
  }

  ghost function Recursor(keys: set<Key>, cur: Option<Key>): Option<Key> {
    if cur.None? then None else CyclicCeil(keys, cur.value)
  }

  ghost function RemoveByFilter<T>(s: Sub<T>, f: T -> bool): Sub<T> {
    var q := KeptClasses(s.q, f);
    s.(q := q, size := s.size - (TotalOf(s.q) - TotalOf(q)), cur := Recursor(q.Keys, s.cur))
  }

  ghost function RemoveByClass<T>(s: Sub<T>, k: Key): Sub<T> {
    if k !in s.q then s
    else
      var q := s.q - {k};
      s.(q := q, size := s.size - |s.q[k]|, cur := Recursor(q.Keys, s.cur))
  }

  /** The items put in front of a list that the caller may not have given. */
  function PushedFront<T>(l: seq<T>, out: Option<seq<T>>): Option<seq<T>> {
    if out.None? then None else Some(l + out.value)
  }

  lemma PushedNothing<T>(out: Option<seq<T>>)
    ensures PushedFront([], out) == out
  {
    assert out.Some? ==> [] + out.value == out.value;
  }

  function Items<T>(l: seq<Pair<T>>): (r: seq<T>)
    ensures |r| == |l| && forall i :: 0 <= i < |l| ==> r[i] == l[i].item
  {
    seq(|l|, i requires 0 <= i < |l| => l[i].item)
  }

  lemma ItemsOfNothing<T>()
    ensures Items<T>([]) == []
  {
  }

  // ---- every operation keeps the invariant ----

  lemma TokensValid<T>(s: Sub<T>, t: nat)
    requires SubValid(s)
    ensures SubValid(PutTokens(s, t)) && SubValid(TakeTokens(s, t))
  {
  }

  lemma EnqueueValid<T>(s: Sub<T>, k: Key, p: Pair<T>, front: bool)
    requires SubValid(s)
    ensures SubValid(Enqueue(s, k, p, front))
    ensures Enqueue(s, k, p, front).q != map[]
  {
    var l := if front then [p] + ListAt(s.q, k) else ListAt(s.q, k) + [p];
    TotalSet(s.q, k, l);
    assert k in s.q[k := l].Keys;
  }

  lemma PopFrontValid<T>(s: Sub<T>)
    requires SubValid(s) && s.q != map[]
    ensures SubValid(PopFront(s))
  {
    var c := s.cur.value;
    TotalSet(s.q, c, s.q[c][1..]);
    TotalErase(s.q, c);
    EmptyMap(PopFront(s).q);
  }

  lemma EmptyMap<T>(q: Classes<T>)
    ensures q == map[] <==> q.Keys == {}
  {
  }

  lemma RemoveByFilterValid<T>(s: Sub<T>, f: T -> bool)
    requires SubValid(s)
    ensures SubValid(RemoveByFilter(s, f))
  {
    EmptyMap(KeptClasses(s.q, f));
  }

  lemma RemoveByClassValid<T>(s: Sub<T>, k: Key)
    requires SubValid(s)
    ensures SubValid(RemoveByClass(s, k))
  {
    TotalErase(s.q, k);
    EmptyMap(s.q - {k});
  }

  // ---- filtering one list ----

  /** Exactly the pairs whose item fails f are left. */
  lemma {:induction false} KeptExact<T>(l: seq<Pair<T>>, f: T -> bool, p: Pair<T>)
    ensures multiset(Kept(l, f))[p] == if f(p.item) then 0 else multiset(l)[p]
  {
    if l != [] {
      KeptExact(l[1..], f, p);
      assert l == [l[0]] + l[1..];
    }
  }
}
