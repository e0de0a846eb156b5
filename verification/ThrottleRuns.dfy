/** All interleavings of threads that use one throttle: no lost wakeup, strict order of arrival, conservation. */
module ThrottleRuns {
  import opened ThrottleSpec

  /** What a call that has returned did, as its caller sees it (wait adds nothing, a refused call has no entry); skipped
      if it returned without the lock. */
  datatype Entry = Added(c: Int64, skipped: bool) | Removed(c: Int64, skipped: bool) | Cleared

  /** The throttle, the calls that have read max and not yet got the lock, and three histories: the get and wait calls
      in the order in which they got the lock, those of them that have been granted, and the returned calls. */
  datatype State = State(th: Th, pending: map<nat, Call>, entered: seq<nat>, granted: seq<nat>, log: seq<Entry>)

  /** A thread reads max at the start of a call; a thread gets the lock for the first time in its call; the waiter at a
      position gets the lock again. */
  datatype Step = Start(thread: nat, call: Call) | Lock(thread: nat) | Wake(i: nat)

  predicate Enabled(s: State, step: Step) {
    match step
    case Start(t, _) => t !in s.pending && t !in Threads(s.th.conds)
    case Lock(t) => t in s.pending
    case Wake(i) => i < |s.th.conds|
  }

  function Threads(conds: seq<Waiter>): (r: seq<nat>)
    ensures |r| == |conds| && forall i :: 0 <= i < |conds| ==> r[i] == conds[i].thread
  {
    seq(|conds|, i requires 0 <= i < |conds| => conds[i].thread)
  }

  /** The entry of a call that has returned. */
  function Entries(call: Call, outcome: Outcome, skipped: bool): seq<Entry> {
    match call
    case Get(c, _) => if outcome.Blocked? then [] else [Added(c, skipped)]
    case Wait(_) => if outcome.Blocked? then [] else [Added(0, skipped)]
    case GetOrFail(c) => if outcome.Granted? then [Added(c, skipped)] else []
    case Take(c) => [Added(c, skipped)]
    case Put(c) => [Removed(c, skipped)]
    case Reset => [Cleared]
    case ResetMax(_) => []
  }

  predicate Queues(call: Call) {
    call.Get? || call.Wait?
  }

  function Next(s: State, step: Step): State
    requires Enabled(s, step)
  {
    match step
    case Start(t, call) =>
      if Skips(s.th.max, call) then s.(log := s.log + Entries(call, Granted, true))
      else s.(pending := s.pending[t := call])
    case Lock(t) =>
      var call := s.pending[t];
      var (th, outcome) := Locked(s.th, t, call);
      State(th, s.pending - {t},
        if Queues(call) then s.entered + [t] else s.entered,
        if Queues(call) && outcome.Granted? then s.granted + [t] else s.granted,
        s.log + Entries(call, outcome, false))
    case Wake(i) =>
      var w := s.th.conds[i];
      var (th, outcome) := Resume(s.th, i);
      if outcome.Granted? then s.(th := th, granted := s.granted + [w.thread], log := s.log + [Added(w.c, false)])
      else s.(th := th)
  }

  predicate LegalRun(s: State, steps: seq<Step>)
    decreases |steps|
  {
    steps != [] ==> Enabled(s, steps[0]) && LegalRun(Next(s, steps[0]), steps[1..])
  }

  function Run(s: State, steps: seq<Step>): State
    requires LegalRun(s, steps)
    decreases |steps|
  {
    if steps == [] then s else Run(Next(s, steps[0]), steps[1..])
  }

  function Initial(memory: int, max: Int64): State {
    State(Th(memory, max, []), map[], [], [], [])
  }

  // ---- no lost wakeup ----

  /** A front waiter that need not wait has been woken. */
  predicate NoLostWakeup(th: Th) {
    th.conds != [] && !ShouldWait(th.count, th.max, th.conds[0].c) ==> th.conds[0].woken
  }

  /** No pending or future call takes an amount whose low 32 bits read as a negative int. */
  predicate SafeCall(call: Call) {
    call.Take? ==> Int32(call.c) >= 0
  }

  predicate SafeStep(step: Step) {
    step.Start? ==> SafeCall(step.call)
  }

  predicate SafePending(s: State) {
    forall t :: t in s.pending ==> SafeCall(s.pending[t])
  }

  lemma LockedKeepsWakeup(th: Th, t: nat, call: Call)
    requires NoLostWakeup(th) && SafeCall(call)
    ensures NoLostWakeup(Locked(th, t, call).0)
  {
  }

  lemma ResumeKeepsWakeup(th: Th, i: nat)
    requires NoLostWakeup(th) && i < |th.conds|
    ensures NoLostWakeup(Resume(th, i).0)
  {
  }

  /** No wakeup is lost in any reachable state, although only the front waiter is ever signalled, and before the
      change that lets it go. */
  lemma {:induction false} WakeupsKept(s: State, steps: seq<Step>)
    requires NoLostWakeup(s.th) && SafePending(s)
    requires LegalRun(s, steps) && forall i :: 0 <= i < |steps| ==> SafeStep(steps[i])
    ensures NoLostWakeup(Run(s, steps).th)
    decreases |steps|
  {
    hide Locked, Resume, NoLostWakeup;
    if steps != [] {
      assert SafeStep(steps[0]);
      match steps[0] {
        case Start(_, _) =>
        case Lock(t) => LockedKeepsWakeup(s.th, t, s.pending[t]);
        case Wake(i) => ResumeKeepsWakeup(s.th, i);
      }
      WakeupsKept(Next(s, steps[0]), steps[1..]);
    }
  }

  /** From the start, whatever the counter held: when no waiter has a wakeup pending, the front one has to wait. */
  lemma QuiescentMeansFull(memory: int, max: Int64, steps: seq<Step>)
    requires LegalRun(Initial(memory, max), steps) && forall i :: 0 <= i < |steps| ==> SafeStep(steps[i])
    ensures var th := Run(Initial(memory, max), steps).th;
            th.conds != [] && (forall i :: 0 <= i < |th.conds| ==> !th.conds[i].woken)
            ==> ShouldWait(th.count, th.max, th.conds[0].c)
  {
    WakeupsKept(Initial(memory, max), steps);
  }

  ghost predicate Reachable(s: State) {
    exists memory, max, steps :: ReachedBy(s, memory, max, steps)
  }

  predicate ReachedBy(s: State, memory: int, max: Int64, steps: seq<Step>) {
    && LegalRun(Initial(memory, max), steps) && Run(Initial(memory, max), steps) == s
    && forall i :: 0 <= i < |steps| ==> SafeStep(steps[i])
  }

  /** A take of the amount c can never lose a wakeup. */
  ghost predicate NeverLoses(c: Int64) {
    forall s :: Reachable(s) ==> NoLostWakeup(Locked(s.th, 0, Take(c)).0)
  }

  /** take is safe for exactly the amounts whose low 32 bits read as a nonnegative int. */
  lemma TakeSafeExactly(c: Int64)
    ensures NeverLoses(c) <==> Int32(c) >= 0
  {
    if Int32(c) >= 0 {
      forall s | Reachable(s)
        ensures NoLostWakeup(Locked(s.th, 0, Take(c)).0)
      {
        var memory, max, steps :| ReachedBy(s, memory, max, steps);
        WakeupsKept(Initial(memory, max), steps);
        LockedKeepsWakeup(s.th, 0, Take(c));
      }
    } else {
      var s := OneBlocked();
      assert !NoLostWakeup(Locked(s.th, 0, Take(c)).0);
    }
  }

  lemma {:induction false} RunThen(s: State, steps: seq<Step>, step: Step)
    requires LegalRun(s, steps) && Enabled(Run(s, steps), step)
    ensures LegalRun(s, steps + [step]) && Run(s, steps + [step]) == Next(Run(s, steps), step)
    decreases |steps|
  {
    hide Next, Enabled;
    var all := steps + [step];
    if steps == [] {
      assert all == [step] && all[1..] == [];
    } else {
      assert all[1..] == steps[1..] + [step];
      RunThen(Next(s, steps[0]), steps[1..], step);
    }
  }

  lemma ReachableInitial(memory: int, max: Int64)
    ensures Reachable(Initial(memory, max))
  {
    assert ReachedBy(Initial(memory, max), memory, max, []);
  }

  lemma ReachableNext(s: State, step: Step)
    requires Reachable(s) && Enabled(s, step) && SafeStep(step)
    ensures Reachable(Next(s, step))
  {
    hide Next, LegalRun, Run, Enabled, SafeStep;
    var memory, max, steps :| ReachedBy(s, memory, max, steps);
    RunThen(Initial(memory, max), steps, step);
    assert ReachedBy(Next(s, step), memory, max, steps + [step]);
  }

  /** A full throttle of size 1 with one waiter for an amount of 1. */
  lemma OneBlocked() returns (s: State)
    ensures Reachable(s) && s == State(Th(1, 1, [Waiter(7, 1, false)]), map[], [7], [], [])
  {
    hide Reachable;
    ReachableInitial(1, 1);
    ReachableNext(Initial(1, 1), Start(7, Get(1, 0)));
    var s1 := Next(Initial(1, 1), Start(7, Get(1, 0)));
    ReachableNext(s1, Lock(7));
    s := Next(s1, Lock(7));
  }

  // ---- what the wakeups lead to ----

  /** Let the waiters go from the front while they need not wait. */
  function Settled(count: int, max: Int64, conds: seq<Waiter>): (int, seq<nat>)
    decreases |conds|
  {
    if conds == [] || ShouldWait(count, max, conds[0].c) then (count, Threads(conds))
    else Settled(count + Int32(conds[0].c), max, conds[1..])
  }

  lemma {:induction false} SettledSame(count: int, max: Int64, a: seq<Waiter>, b: seq<Waiter>)
    requires |a| == |b| && forall i :: 0 <= i < |a| ==> a[i].thread == b[i].thread && a[i].c == b[i].c
    ensures Settled(count, max, a) == Settled(count, max, b)
    decreases |a|
  {
    if a != [] && !ShouldWait(count, max, a[0].c) {
      SettledSame(count + Int32(a[0].c), max, a[1..], b[1..]);
    } else {
      assert Threads(a) == Threads(b);
    }
  }

  lemma ResumeSettles(th: Th, i: nat)
    requires i < |th.conds|
    ensures var th' := Resume(th, i).0;
            th'.max == th.max && Settled(th'.count, th.max, th'.conds) == Settled(th.count, th.max, th.conds)
  {
    var th' := Resume(th, i).0;
    if ShouldWait(th.count, th.max, th.conds[i].c) || i != 0 {
      SettledSame(th.count, th.max, th'.conds, th.conds);
    } else {
      SettledSame(th'.count, th.max, th'.conds, th.conds[1..]);
    }
  }

  /** Confluence: in whatever order the waiters run, and however many wakeups are spurious, once none is pending the
      throttle has let go exactly the longest run of waiters from the front that fits. */
  lemma {:induction false} WakeupsSettle(s: State, steps: seq<Step>)
    requires NoLostWakeup(s.th) && LegalRun(s, steps) && forall i :: 0 <= i < |steps| ==> steps[i].Wake?
    requires var last := Run(s, steps).th.conds; forall i :: 0 <= i < |last| ==> !last[i].woken
    ensures var last := Run(s, steps).th;
            (last.count, Threads(last.conds)) == Settled(s.th.count, s.th.max, s.th.conds)
    decreases |steps|
  {
    hide Resume;
    if steps != [] {
      assert steps[0].Wake?;
      ResumeKeepsWakeup(s.th, steps[0].i);
      ResumeSettles(s.th, steps[0].i);
      assert Run(s, steps) == Run(Next(s, steps[0]), steps[1..]);
      WakeupsSettle(Next(s, steps[0]), steps[1..]);
    }
  }

  function Woken(conds: seq<Waiter>): nat {
    if conds == [] then 0 else (if conds[0].woken then 1 else 0) + Woken(conds[1..])
  }

  lemma {:induction false} WokenSet(conds: seq<Waiter>, i: nat, w: Waiter)
    requires i < |conds|
    ensures Woken(conds[i := w]) + (if conds[i].woken then 1 else 0) == Woken(conds) + (if w.woken then 1 else 0)
  {
    if i > 0 {
      WokenSet(conds[1..], i - 1, w);
      assert conds[i := w][1..] == conds[1..][i - 1 := w];
    } else {
      assert conds[0 := w][1..] == conds[1..];
    }
  }

  /** A run in which only woken waiters go on. */
  predicate OnlyWoken(s: State, steps: seq<Step>)
    decreases |steps|
  {
    steps != [] ==>
      && Enabled(s, steps[0]) && steps[0].Wake? && s.th.conds[steps[0].i].woken
      && OnlyWoken(Next(s, steps[0]), steps[1..])
  }

  /** The waiters cannot wake each other forever. */
  lemma {:induction false} WakeupsEnd(s: State, steps: seq<Step>)
    requires OnlyWoken(s, steps)
    ensures |steps| <= 2 * |s.th.conds| + Woken(s.th.conds)
    decreases |steps|
  {
    hide ShouldWait;
    if steps != [] {
      var i, conds := steps[0].i, s.th.conds;
      WakeupsEnd(Next(s, steps[0]), steps[1..]);
      WokenSet(conds, i, conds[i].(woken := false));
      if |conds| > 1 {
        WokenSet(conds[1..], 0, conds[1].(woken := true));
      }
    }
  }

  // ---- order ----

  /** The calls granted so far and the waiters are, in this order, the calls as they came. */
  predicate InOrder(s: State) {
    s.entered == s.granted + Threads(s.th.conds)
  }

  lemma SignalKeepsThreads(conds: seq<Waiter>)
    ensures Threads(SignalFront(conds)) == Threads(conds)
  {
  }

  /** A call that blocks goes to the end of the queue; one that is granted found it empty; nobody else is moved. */
  lemma LockedThreads(th: Th, t: nat, call: Call)
    ensures var (th', outcome) := Locked(th, t, call);
            && Threads(th'.conds) == Threads(th.conds) + (if outcome.Blocked? then [t] else [])
            && (outcome.Blocked? ==> Queues(call))
            && (Queues(call) && !outcome.Blocked? ==> outcome.Granted?)
            && (outcome.Granted? ==> th.conds == [])
  {
    hide ShouldWait;
    SignalKeepsThreads(th.conds);
    if Queues(call) {
      var th1 := if call.m != 0 then NewMax(th, call.m) else th;
      assert Threads(th1.conds) == Threads(th.conds);
      var w := Waiter(t, if call.Get? then call.c else 0, false);
      assert Threads(th1.conds + [w]) == Threads(th1.conds) + [t];
    }
  }

  lemma ResumeThreads(th: Th, i: nat)
    requires i < |th.conds|
    ensures var (th', outcome) := Resume(th, i);
            Threads(th.conds) == (if outcome.Granted? then [th.conds[i].thread] else []) + Threads(th'.conds)
  {
    hide ShouldWait;
    SignalKeepsThreads(th.conds[1..]);
    assert Threads(th.conds) == [th.conds[0].thread] + Threads(th.conds[1..]);
    assert Threads(th.conds[i := th.conds[i].(woken := false)]) == Threads(th.conds);
  }

  lemma StepInOrder(s: State, step: Step)
    requires InOrder(s) && Enabled(s, step)
    ensures InOrder(Next(s, step))
  {
    hide Locked, Resume, Threads, Entries;
    match step
    case Start(_, _) =>
    case Lock(t) =>
      LockedThreads(s.th, t, s.pending[t]);
      assert s.th.conds == [] ==> Threads(s.th.conds) == [];
    case Wake(i) => ResumeThreads(s.th, i);
  }

  /** get and wait are granted in the order in which they got the lock, in every run. */
  lemma {:induction false} ArrivalOrder(s: State, steps: seq<Step>)
    requires InOrder(s) && LegalRun(s, steps)
    ensures InOrder(Run(s, steps))
    decreases |steps|
  {
    hide Next, InOrder;
    if steps != [] {
      StepInOrder(s, steps[0]);
      ArrivalOrder(Next(s, steps[0]), steps[1..]);
    }
  }

  predicate Asks(call: Call) {
    call.Get? || call.Wait? || call.GetOrFail?
  }

  function CallOf(s: State, step: Step): Call
    requires Enabled(s, step) && !step.Wake?
  {
    if step.Start? then step.call else s.pending[step.thread]
  }

  /** The step is one of a new get, wait or get_or_fail, and that call returns with what it asked for. */
  predicate GrantsNew(s: State, step: Step)
    requires Enabled(s, step)
  {
    !step.Wake? && Asks(CallOf(s, step)) && Next(s, step).log != s.log
  }

  /** The call reads a limit of 0 before it takes the lock, and brings no limit of its own. */
  predicate ReadsNoLimit(s: State, step: Step) {
    step.Start? && s.th.max == 0 && Asks(step.call) && (step.call.GetOrFail? || step.call.m == 0)
  }

  /** While a waiter is queued, a new request is granted if and only if it reads a limit of 0 without the lock. */
  lemma OvertakingExactly(s: State, step: Step)
    requires Enabled(s, step) && s.th.conds != []
    ensures GrantsNew(s, step) <==> ReadsNoLimit(s, step)
  {
    hide ShouldWait;
    if step.Lock? {
      LockedThreads(s.th, step.thread, s.pending[step.thread]);
    }
  }

  /** The limit is not 0, and no call is under way that makes it 0. */
  predicate Limited(s: State) {
    s.th.max != 0 && forall t :: t in s.pending ==> s.pending[t] != ResetMax(0)
  }

  predicate KeepsLimit(step: Step) {
    step.Start? ==> step.call != ResetMax(0)
  }

  lemma StepLimited(s: State, step: Step)
    requires Limited(s) && Enabled(s, step) && KeepsLimit(step)
    ensures Limited(Next(s, step))
  {
    hide ShouldWait, SignalFront, Entries, Int32;
  }

  lemma {:induction false} LimitedAlways(s: State, steps: seq<Step>)
    requires Limited(s) && LegalRun(s, steps) && forall i :: 0 <= i < |steps| ==> KeepsLimit(steps[i])
    ensures Limited(Run(s, steps))
    decreases |steps|
  {
    hide Next, Limited, KeepsLimit;
    if steps != [] {
      StepLimited(s, steps[0]);
      LimitedAlways(Next(s, steps[0]), steps[1..]);
    }
  }

  /** Nobody overtakes a queued waiter in any run with a limit from the start that is never set to 0. */
  lemma NoOvertaking(memory: int, max: Int64, steps: seq<Step>, step: Step)
    requires max != 0 && LegalRun(Initial(memory, max), steps) && forall i :: 0 <= i < |steps| ==> KeepsLimit(steps[i])
    requires var s := Run(Initial(memory, max), steps); Enabled(s, step) && s.th.conds != []
    ensures !GrantsNew(Run(Initial(memory, max), steps), step)
  {
    LimitedAlways(Initial(memory, max), steps);
    OvertakingExactly(Run(Initial(memory, max), steps), step);
  }

  /** With a limit set to 0 a queued waiter is overtaken: get 1 blocks on a full throttle of size 1, the limit is set
      to 0, and get_or_fail 1 is granted while the first call still waits. */
  lemma Overtaken() returns (s: State)
    ensures Reachable(s) && s.th.conds != []
    ensures Enabled(s, Start(2, GetOrFail(1))) && GrantsNew(s, Start(2, GetOrFail(1)))
  {
    hide Reachable, ShouldWait;
    var s0 := OneBlocked();
    s := SetLimit(s0, 0);
    OvertakingExactly(s, Start(2, GetOrFail(1)));
  }

  /** The limit is changed by a thread that has no other call. */
  lemma SetLimit(s: State, m: Int64) returns (r: State)
    requires Reachable(s) && s.pending == map[] && 1 !in Threads(s.th.conds) && m != s.th.max
    ensures Reachable(r) && r == s.(th := s.th.(max := m, conds := SignalFront(s.th.conds)))
  {
    hide Reachable, Threads, SignalFront;
    ReachableNext(s, Start(1, ResetMax(m)));
    var s1 := Next(s, Start(1, ResetMax(m)));
    ReachableNext(s1, Lock(1));
    r := Next(s1, Lock(1));
    assert s.log + [] == s.log;
  }

  // ---- when a request is granted ----

  /** The test of a request of c: it fits below the limit, or, for one larger than the limit, the counter is not beyond
      it; both for one that is equal to the limit. */
  predicate Room(count: int, max: int, c: int) {
    (c > max || count + c <= max) && (c < max || count <= max)
  }

  function Requested(call: Call): Int64 {
    if call.Get? || call.GetOrFail? then call.c else 0
  }

  /** The limit that counts for a call: its own if it brings one. */
  function LimitFor(s: State, call: Call): Int64 {
    if (call.Get? || call.Wait?) && call.m != 0 then call.m else s.th.max
  }

  /** With nobody queued, get, wait and get_or_fail are granted exactly if there is no limit or there is room; the limit
      that a get or a wait brings is the limit in any case. */
  lemma GrantExactly(s: State, t: nat)
    requires Enabled(s, Lock(t)) && Asks(s.pending[t]) && s.th.conds == []
    ensures var call, next := s.pending[t], Next(s, Lock(t));
            var max, c := LimitFor(s, call), Requested(call);
            && next.th.max == max
            && (next.log != s.log <==> max == 0 || Room(s.th.count, max, c))
            && (next.log != s.log ==> next.th.count == s.th.count + Int32(c) && next.th.conds == [])
            && (next.log == s.log ==>
                  next.th.count == s.th.count
                  && next.th.conds == (if call.GetOrFail? then [] else [Waiter(t, c, false)]))
  {
  }

  /** Behind others get and wait always wait, at the end of the queue, and get_or_fail fails; a changed limit wakes the
      front. */
  lemma QueuedBehind(s: State, t: nat)
    requires Enabled(s, Lock(t)) && Asks(s.pending[t]) && s.th.conds != []
    ensures var call, next := s.pending[t], Next(s, Lock(t));
            && next.th.max == LimitFor(s, call) && next.log == s.log && next.th.count == s.th.count
            && |next.th.conds| == |s.th.conds| + (if call.GetOrFail? then 0 else 1)
            && SignalledIf(next.th.max != s.th.max, s.th.conds, next.th.conds[..|s.th.conds|])
            && (!call.GetOrFail? ==> next.th.conds[|s.th.conds|] == Waiter(t, Requested(call), false))
  {
  }

  /** The waiters are the same, but the first is woken if there is a signal. */
  predicate SignalledIf(signal: bool, was: seq<Waiter>, now: seq<Waiter>) {
    && |was| == |now|
    && forall i :: 0 <= i < |was| ==> now[i] == was[i].(woken := was[i].woken || (signal && i == 0))
  }

  /** A waiter that has the lock again is released exactly if it is at the front and there is no limit or there is room;
      it leaves and wakes the next one, and otherwise it is no longer woken. */
  lemma ReleaseExactly(s: State, i: nat)
    requires Enabled(s, Wake(i))
    ensures var w, next := s.th.conds[i], Next(s, Wake(i));
            && next.th.max == s.th.max
            && (next.log != s.log <==> i == 0 && (s.th.max == 0 || Room(s.th.count, s.th.max, w.c)))
            && (next.log != s.log ==>
                  next.th.count == s.th.count + Int32(w.c) && SignalledIf(true, s.th.conds[1..], next.th.conds))
            && (next.log == s.log ==>
                  next.th.count == s.th.count && next.th.conds == s.th.conds[i := w.(woken := false)])
  {
  }

  /** The other calls: what they do to the counter, the limit and the front waiter. */
  lemma OtherCalls(s: State, t: nat)
    requires Enabled(s, Lock(t)) && !Asks(s.pending[t])
    ensures var call, next := s.pending[t], Next(s, Lock(t));
            && (call.Take? ==> next.th.count == s.th.count + Int32(call.c))
            && (call.Put? ==> next.th.count == s.th.count - Int32(call.c))
            && (call.Reset? ==> next.th.count == 0)
            && (call.ResetMax? ==> next.th.count == s.th.count)
            && next.th.max == (if call.ResetMax? then call.m else s.th.max)
            && SignalledIf(call.Reset? || (call.Put? && call.c != 0) || next.th.max != s.th.max, s.th.conds,
                           next.th.conds)
  {
    assert Int32(0) == 0;
  }

  /** A call returns without the lock exactly if it reads a limit of 0 and brings none, and is not a change of the limit
      or a reset. */
  lemma ReturnsAtOnce(s: State, t: nat, call: Call)
    requires Enabled(s, Start(t, call))
    ensures var next := Next(s, Start(t, call));
            && next.th == s.th
            && (t !in next.pending <==>
                  s.th.max == 0 && !call.Reset? && !call.ResetMax? && (call.Get? || call.Wait? ==> call.m == 0))
  {
  }

  /** The limit is max, and nothing under way changes it. */
  predicate FixedMax(s: State, max: Int64) {
    s.th.max == max && forall t :: t in s.pending ==> KeepsMax(s.pending[t], max)
  }

  predicate KeepsMax(call: Call, max: Int64) {
    match call
    case Get(_, m) => m == 0 || m == max
    case Wait(m) => m == 0 || m == max
    case ResetMax(m) => m == max
    case _ => true
  }

  lemma StepFixedMax(s: State, step: Step, max: Int64)
    requires FixedMax(s, max) && Enabled(s, step) && (step.Start? ==> KeepsMax(step.call, max))
    ensures FixedMax(Next(s, step), max)
  {
    hide ShouldWait, SignalFront, Entries, Int32;
  }

  lemma {:induction false} FixedMaxAlways(s: State, steps: seq<Step>, max: Int64)
    requires FixedMax(s, max) && LegalRun(s, steps)
    requires forall i :: 0 <= i < |steps| ==> (steps[i].Start? ==> KeepsMax(steps[i].call, max))
    ensures FixedMax(Run(s, steps), max)
    decreases |steps|
  {
    hide Next, FixedMax, KeepsMax;
    if steps != [] {
      StepFixedMax(s, steps[0], max);
      FixedMaxAlways(Next(s, steps[0]), steps[1..], max);
    }
  }

  /** The step grants c: to a new request that has the lock, or to a waiter. */
  predicate Grants(s: State, step: Step, c: Int64)
    requires Enabled(s, step)
  {
    && Next(s, step).log != s.log
    && match step
       case Start(_, _) => false
       case Lock(t) => Asks(s.pending[t]) && c == Requested(s.pending[t])
       case Wake(i) => c == s.th.conds[i].c
  }

  /** In every run with a fixed limit: after a grant of an amount up to the limit the counter is within the limit, and a
      larger amount is granted only from a counter within it. */
  lemma GrantsWithin(memory: int, max: Int64, steps: seq<Step>, step: Step, c: Int64)
    requires max != 0 && LegalRun(Initial(memory, max), steps) && -0x8000_0000 <= c < 0x8000_0000
    requires forall i :: 0 <= i < |steps| ==> (steps[i].Start? ==> KeepsMax(steps[i].call, max))
    requires var s := Run(Initial(memory, max), steps); Enabled(s, step) && Grants(s, step, c)
    ensures var s := Run(Initial(memory, max), steps);
            && (c <= max ==> Next(s, step).th.count <= max)
            && (c > max ==> s.th.count <= max)
  {
    hide Next, Int32;
    FixedMaxAlways(Initial(memory, max), steps, max);
    var s := Run(Initial(memory, max), steps);
    match step
    case Lock(t) =>
      if s.th.conds == [] {
        GrantExactly(s, t);
      } else {
        OvertakingExactly(s, step);
      }
    case Wake(i) => ReleaseExactly(s, i);
  }

  /** A call that can only lower the counter, or asks for an amount up to the limit, and keeps the limit. */
  predicate Modest(call: Call, max: Int64) {
    && KeepsMax(call, max)
    && match call
       case Get(c, _) => 0 <= c <= max && c < 0x8000_0000
       case GetOrFail(c) => 0 <= c <= max && c < 0x8000_0000
       case Put(c) => 0 <= c < 0x8000_0000
       case Take(_) => false
       case _ => true
  }

  predicate WithinLimit(s: State, max: Int64) {
    && s.th.max == max && s.th.count <= max
    && (forall t :: t in s.pending ==> Modest(s.pending[t], max))
    && (forall i :: 0 <= i < |s.th.conds| ==> 0 <= s.th.conds[i].c <= max && s.th.conds[i].c < 0x8000_0000)
  }

  lemma StepWithinLimit(s: State, step: Step, max: Int64)
    requires max > 0 && WithinLimit(s, max) && Enabled(s, step) && (step.Start? ==> Modest(step.call, max))
    ensures WithinLimit(Next(s, step), max)
  {
    hide Entries, Int32;
  }

  /** With a fixed positive limit, no take, and requests up to the limit, the counter is within the limit in every
      reachable state. */
  lemma {:induction false} CounterWithin(s: State, steps: seq<Step>, max: Int64)
    requires max > 0 && WithinLimit(s, max) && LegalRun(s, steps)
    requires forall i :: 0 <= i < |steps| ==> (steps[i].Start? ==> Modest(steps[i].call, max))
    ensures WithinLimit(Run(s, steps), max)
    decreases |steps|
  {
    hide Next, WithinLimit, Modest;
    if steps != [] {
      StepWithinLimit(s, steps[0], max);
      CounterWithin(Next(s, steps[0]), steps[1..], max);
    }
  }

  // ---- conservation ----

  /** The amounts granted and taken minus the amounts put since the last reset, as the callers know them. */
  function Balance(log: seq<Entry>, memory: int): int {
    if log == [] then memory
    else
      match log[|log| - 1]
      case Cleared => 0
      case Added(c, _) => Balance(log[..|log| - 1], memory) + c
      case Removed(c, _) => Balance(log[..|log| - 1], memory) - c
  }

  /** The part of the balance that the counter does not show: the amounts of the calls that returned without the lock,
      and what the conversion to an int takes off the others. */
  function Drift(log: seq<Entry>): int {
    if log == [] then 0
    else
      match log[|log| - 1]
      case Cleared => 0
      case Added(c, skipped) => Drift(log[..|log| - 1]) + c - if skipped then 0 else Int32(c)
      case Removed(c, skipped) => Drift(log[..|log| - 1]) - c + if skipped then 0 else Int32(c)
  }

  predicate Accounted(s: State, memory: int) {
    s.th.count == Balance(s.log, memory) - Drift(s.log)
  }

  /** What one entry adds to the counter, apart from a reset. */
  function Change(e: Entry): int {
    match e
    case Cleared => 0
    case Added(c, skipped) => if skipped then 0 else Int32(c)
    case Removed(c, skipped) => if skipped then 0 else -Int32(c)
  }

  lemma LogGrows(log: seq<Entry>, es: seq<Entry>, memory: int)
    requires |es| <= 1
    ensures var net := Balance(log + es, memory) - Drift(log + es);
            net == if es == [Cleared] then 0
                   else Balance(log, memory) - Drift(log) + if es == [] then 0 else Change(es[0])
  {
    if es == [] {
      assert log + es == log;
    } else {
      assert (log + es)[..|log + es| - 1] == log;
    }
  }

  lemma LockedCount(th: Th, t: nat, call: Call)
    ensures var (th', outcome) := Locked(th, t, call);
            var es := Entries(call, outcome, false);
            && |es| <= 1
            && th'.count == if es == [Cleared] then 0 else th.count + if es == [] then 0 else Change(es[0])
  {
    hide ShouldWait, SignalFront;
    assert Int32(0) == 0;
  }

  lemma ResumeCount(th: Th, i: nat)
    requires i < |th.conds|
    ensures var (th', outcome) := Resume(th, i);
            th'.count == th.count + if outcome.Granted? then Change(Added(th.conds[i].c, false)) else 0
  {
    hide ShouldWait, SignalFront, Int32;
  }

  lemma SkippedChange(max: Int64, call: Call)
    requires Skips(max, call)
    ensures var es := Entries(call, Granted, true); |es| <= 1 && es != [Cleared] && (es == [] || Change(es[0]) == 0)
  {
  }

  lemma StepAccounted(s: State, step: Step, memory: int)
    requires Accounted(s, memory) && Enabled(s, step)
    ensures Accounted(Next(s, step), memory)
  {
    hide Locked, Resume, Balance, Drift, Entries, Change, Skips;
    match step
    case Start(t, call) =>
      if Skips(s.th.max, call) {
        SkippedChange(s.th.max, call);
        LogGrows(s.log, Entries(call, Granted, true), memory);
      }
    case Lock(t) =>
      var call := s.pending[t];
      LockedCount(s.th, t, call);
      LogGrows(s.log, Entries(call, Locked(s.th, t, call).1, false), memory);
    case Wake(i) =>
      ResumeCount(s.th, i);
      LogGrows(s.log, [Added(s.th.conds[i].c, false)], memory);
  }

  /** The counter is the balance less the drift, in every run, with any amounts and any limits. */
  lemma {:induction false} AccountedAlways(s: State, steps: seq<Step>, memory: int)
    requires Accounted(s, memory) && LegalRun(s, steps)
    ensures Accounted(Run(s, steps), memory)
    decreases |steps|
  {
    hide Next, Accounted;
    if steps != [] {
      StepAccounted(s, steps[0], memory);
      AccountedAlways(Next(s, steps[0]), steps[1..], memory);
    }
  }

  predicate Fits(c: Int64) {
    -0x8000_0000 <= c < 0x8000_0000
  }

  function AmountOf(call: Call): Int64 {
    if call.Get? || call.GetOrFail? || call.Take? || call.Put? then call.c else 0
  }

  /** The step loses track of an amount: the call reads a limit of 0 and returns without the lock, or it returns with an
      amount outside the range of an int. */
  predicate Loses(s: State, step: Step)
    requires Enabled(s, step)
  {
    match step
    case Start(_, call) => Skips(s.th.max, call) && AmountOf(call) != 0
    case Lock(t) =>
      var call := s.pending[t];
      var outcome := Locked(s.th, t, call).1;
      (outcome.Granted? || outcome.Returned?) && !Fits(AmountOf(call))
    case Wake(i) => Resume(s.th, i).1.Granted? && !Fits(s.th.conds[i].c)
  }

  lemma CutExactly(c: Int64)
    ensures Int32(c) == c <==> Fits(c)
  {
  }

  /** The drift that one entry adds. */
  function DriftOf(e: Entry): int {
    match e
    case Cleared => 0
    case Added(c, skipped) => if skipped then c else c - Int32(c)
    case Removed(c, skipped) => if skipped then 0 - (c as int) else Int32(c) - c
  }

  lemma DriftGrows(log: seq<Entry>, es: seq<Entry>)
    requires |es| <= 1 && Drift(log) == 0
    ensures Drift(log + es) == if es == [] then 0 else DriftOf(es[0])
  {
    if es == [] {
      assert log + es == log;
    } else {
      assert (log + es)[..|log + es| - 1] == log;
    }
  }

  lemma SkippedDrift(max: Int64, call: Call)
    requires Skips(max, call)
    ensures var es := Entries(call, Granted, true);
            |es| <= 1 && ((if es == [] then 0 else DriftOf(es[0])) == 0 <==> AmountOf(call) == 0)
  {
  }

  lemma LockedDrift(th: Th, t: nat, call: Call)
    ensures var outcome := Locked(th, t, call).1;
            var es := Entries(call, outcome, false);
            && |es| <= 1
            && ((if es == [] then 0 else DriftOf(es[0])) == 0
                <==> !((outcome.Granted? || outcome.Returned?) && !Fits(AmountOf(call))))
  {
    hide ShouldWait, SignalFront, NewMax, Int32;
    CutExactly(AmountOf(call));
  }

  /** One step keeps the drift at 0 exactly if it loses nothing. */
  lemma StepDrift(s: State, step: Step)
    requires Enabled(s, step) && Drift(s.log) == 0
    ensures Drift(Next(s, step).log) == 0 <==> !Loses(s, step)
  {
    hide Locked, Resume, Drift, Entries, Skips, DriftOf, AmountOf, Fits;
    match step
    case Start(t, call) =>
      if Skips(s.th.max, call) {
        SkippedDrift(s.th.max, call);
        DriftGrows(s.log, Entries(call, Granted, true));
      }
    case Lock(t) =>
      var call := s.pending[t];
      LockedDrift(s.th, t, call);
      DriftGrows(s.log, Entries(call, Locked(s.th, t, call).1, false));
    case Wake(i) =>
      var c := s.th.conds[i].c;
      DriftGrows(s.log, [Added(c, false)]);
      AddedDrift(c);
  }

  lemma AddedDrift(c: Int64)
    ensures DriftOf(Added(c, false)) == 0 <==> Fits(c)
  {
    CutExactly(c);
  }

  /** In every reachable state in which the counter is the balance, it still is after a step if and only if the step
      loses no amount. */
  lemma ConservationExactly(memory: int, max: Int64, steps: seq<Step>, step: Step)
    requires LegalRun(Initial(memory, max), steps)
    requires var s := Run(Initial(memory, max), steps); s.th.count == Balance(s.log, memory) && Enabled(s, step)
    ensures var s := Run(Initial(memory, max), steps);
            var next := Next(s, step);
            next.th.count == Balance(next.log, memory) <==> !Loses(s, step)
  {
    hide Next, Loses;
    AccountedAlways(Initial(memory, max), steps, memory);
    var s := Run(Initial(memory, max), steps);
    StepAccounted(s, step, memory);
    StepDrift(s, step);
  }

  predicate LosesNothing(s: State, steps: seq<Step>)
    requires LegalRun(s, steps)
    decreases |steps|
  {
    steps != [] ==> !Loses(s, steps[0]) && LosesNothing(Next(s, steps[0]), steps[1..])
  }

  lemma {:induction false} NoDriftAlways(s: State, steps: seq<Step>)
    requires LegalRun(s, steps) && LosesNothing(s, steps) && Drift(s.log) == 0
    ensures Drift(Run(s, steps).log) == 0
    decreases |steps|
  {
    hide Next, Loses, Drift;
    if steps != [] {
      StepDrift(s, steps[0]);
      NoDriftAlways(Next(s, steps[0]), steps[1..]);
    }
  }

  /** In every run in which no step loses an amount, the counter is what was granted and taken minus what was put since
      the last reset. */
  lemma Conserved(memory: int, max: Int64, steps: seq<Step>)
    requires LegalRun(Initial(memory, max), steps) && LosesNothing(Initial(memory, max), steps)
    ensures var s := Run(Initial(memory, max), steps); s.th.count == Balance(s.log, memory)
  {
    AccountedAlways(Initial(memory, max), steps, memory);
    NoDriftAlways(Initial(memory, max), steps);
  }

  // ---- calls that lose nothing ----

  predicate SmallWaiters(conds: seq<Waiter>) {
    forall i :: 0 <= i < |conds| ==> Fits(conds[i].c)
  }

  /** No amount under way that an int cannot hold. */
  predicate Small(s: State) {
    (forall t :: t in s.pending ==> Fits(AmountOf(s.pending[t]))) && SmallWaiters(s.th.conds)
  }

  predicate SmallStep(step: Step) {
    step.Start? ==> Fits(AmountOf(step.call))
  }

  lemma LockedSmall(th: Th, t: nat, call: Call)
    requires SmallWaiters(th.conds) && Fits(AmountOf(call))
    ensures SmallWaiters(Locked(th, t, call).0.conds)
  {
    hide ShouldWait, Int32;
  }

  lemma ResumeSmall(th: Th, i: nat)
    requires SmallWaiters(th.conds) && i < |th.conds|
    ensures SmallWaiters(Resume(th, i).0.conds) && Fits(th.conds[i].c)
  {
    hide ShouldWait, Int32;
  }

  lemma StepSmall(s: State, step: Step)
    requires Small(s) && Limited(s) && Enabled(s, step) && SmallStep(step)
    ensures Small(Next(s, step)) && !Loses(s, step)
  {
    hide Locked, Resume, Entries, SmallWaiters, Fits, AmountOf;
    match step
    case Start(t, call) =>
    case Lock(t) => LockedSmall(s.th, t, s.pending[t]);
    case Wake(i) => ResumeSmall(s.th, i);
  }

  lemma {:induction false} SmallLosesNothing(s: State, steps: seq<Step>)
    requires Small(s) && Limited(s) && LegalRun(s, steps)
    requires forall i :: 0 <= i < |steps| ==> KeepsLimit(steps[i]) && SmallStep(steps[i])
    ensures LosesNothing(s, steps)
    decreases |steps|
  {
    hide Next, Small, Limited, KeepsLimit, SmallStep, Loses;
    if steps != [] {
      StepSmall(s, steps[0]);
      StepLimited(s, steps[0]);
      SmallLosesNothing(Next(s, steps[0]), steps[1..]);
    }
  }

  /** With a limit from the start that is never set to 0, and amounts in the range of an int, no step loses an
      amount. */
  lemma Conservation(memory: int, max: Int64, steps: seq<Step>)
    requires max != 0 && LegalRun(Initial(memory, max), steps)
    requires forall i :: 0 <= i < |steps| ==> KeepsLimit(steps[i]) && SmallStep(steps[i])
    ensures var s := Run(Initial(memory, max), steps); s.th.count == Balance(s.log, memory)
  {
    SmallLosesNothing(Initial(memory, max), steps);
    Conserved(memory, max, steps);
  }

  /** A limit that is set to 0 and back loses an amount: get 5 while it is 0, then put 5. */
  lemma ConservationFails() returns (s: State)
    ensures Reachable(s) && s.th.conds == [] && Balance(s.log, 0) == 0 && s.th.count == -5
  {
    hide Reachable, Balance, ShouldWait;
    ReachableInitial(0, 10);
    var s0 := SetLimit(Initial(0, 10), 0);
    ReachableNext(s0, Start(1, Get(5, 0)));
    var s1 := SetLimit(Next(s0, Start(1, Get(5, 0))), 10);
    ReachableNext(s1, Start(1, Put(5)));
    var s2 := Next(s1, Start(1, Put(5)));
    ReachableNext(s2, Lock(1));
    s := Next(s2, Lock(1));
    BalanceOf(s.log, 5);
  }

  lemma BalanceOf(log: seq<Entry>, c: Int64)
    requires log == [Added(c, true), Removed(c, false)]
    ensures Balance(log, 0) == 0
  {
    assert log[..1] == [Added(c, true)];
    assert [Added(c, true)][..0] == [];
    assert Balance([Added(c, true)], 0) == c;
  }
}
