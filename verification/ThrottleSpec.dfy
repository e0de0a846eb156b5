/** The value of a throttle (throttle.cpp) and what one locked section of each call does to it. The amounts are 64-bit,
    but the counter is changed through functions that take an int, so that they are cut to 32 bits. */
module ThrottleSpec {

  type Int64 = x: int | -0x8000_0000_0000_0000 <= x < 0x8000_0000_0000_0000

  /** The conversion of a 64-bit integer to an int. */
  function Int32(x: int): (r: int)
    ensures -0x8000_0000 <= r < 0x8000_0000
    ensures (x - r) % 0x1_0000_0000 == 0
    ensures -0x8000_0000 <= x < 0x8000_0000 ==> r == x
  {
    var low := x % 0x1_0000_0000;
    if low >= 0x8000_0000 then low - 0x1_0000_0000 else low
  }

  /** A thread blocked on its own condition variable, for an amount c; woken if a signal has reached it since it last
      found that it had to wait. */
  datatype Waiter = Waiter(thread: nat, c: Int64, woken: bool)

  datatype Th = Th(count: int, max: Int64, conds: seq<Waiter>)

  datatype Call =
    | Get(c: Int64, m: Int64)
    | Wait(m: Int64)
    | GetOrFail(c: Int64)
    | Take(c: Int64)
    | Put(c: Int64)
    | Reset
    | ResetMax(m: Int64)

  datatype Outcome = Blocked | Granted | Refused | Returned

  predicate ShouldWait(count: int, max: Int64, c: Int64) {
    max != 0 && ((c <= max && count + c > max) || (c >= max && count > max))
  }

  function SignalFront(conds: seq<Waiter>): seq<Waiter> {
    if conds == [] then [] else conds[0 := conds[0].(woken := true)]
  }

  function NewMax(th: Th, m: Int64): Th {
    if th.max == m then th else th.(max := m, conds := SignalFront(th.conds))
  }

  /** get and wait up to the point where they block or are granted; wait asks for nothing. */
  function Enter(th: Th, thread: nat, c: Int64): (r: (Th, Outcome)) {
    if ShouldWait(th.count, th.max, c) || th.conds != [] then
      (th.(conds := th.conds + [Waiter(thread, c, false)]), Blocked)
    else
      (th.(count := th.count + Int32(c)), Granted)
  }

  /** The waiter at position i has the lock again, because of a signal or for no reason: it is released if it is at the
      front and need not wait, and signals the next; otherwise it waits again. */
  function Resume(th: Th, i: nat): (Th, Outcome)
    requires i < |th.conds|
  {
    var w := th.conds[i];
    if ShouldWait(th.count, th.max, w.c) || i != 0 then
      (th.(conds := th.conds[i := w.(woken := false)]), Blocked)
    else
      (th.(count := th.count + Int32(w.c), conds := SignalFront(th.conds[1..])), Granted)
  }

  /** The reading of max without the lock lets a call return at once. */
  predicate Skips(max: Int64, call: Call) {
    match call
    case Get(_, m) => max == 0 && m == 0
    case Wait(m) => max == 0 && m == 0
    case GetOrFail(_) => max == 0
    case Take(_) => max == 0
    case Put(_) => max == 0
    case Reset => false
    case ResetMax(_) => false
  }

  /** The part of a call that holds the lock, up to the point where it returns or blocks. */
  function Locked(th: Th, thread: nat, call: Call): (Th, Outcome) {
    match call
    case Get(c, m) => Enter(if m != 0 then NewMax(th, m) else th, thread, c)
    case Wait(m) => Enter(if m != 0 then NewMax(th, m) else th, thread, 0)
    case GetOrFail(c) =>
      if ShouldWait(th.count, th.max, c) || th.conds != [] then (th, Refused)
      else (th.(count := th.count + Int32(c)), Granted)
    case Take(c) => (th.(count := th.count + Int32(c)), Returned)
    case Put(c) =>
      if c != 0 then (th.(count := th.count - Int32(c), conds := SignalFront(th.conds)), Returned)
      else (th, Returned)
    case Reset => (th.(count := 0, conds := SignalFront(th.conds)), Returned)
    case ResetMax(m) => (NewMax(th, m), Returned)
  }
}
