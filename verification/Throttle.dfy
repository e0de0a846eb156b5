/** The throttle object, each method proved against ThrottleSpec. A thread runs the methods one after the other, with
    the lock; a blocking call is cut at the point where it waits on its condition variable. */
module Throttles {
  import opened ThrottleSpec

  class Throttle {
    var count: int
    var max: Int64
    var conds: seq<Waiter>

    ghost function View(): Th
      reads this
    {
      Th(count, max, conds)
    }

    /** The source gives the counter no initial value: it is whatever the memory holds. */
    constructor (m: Int64, memory: Int64)
      ensures View() == Th(memory, m, [])
    {
      count, max, conds := memory, m, [];
    }

    predicate MustWait(c: Int64)
      reads this
    {
      ShouldWait(count, max, c)
    }

    method Signal()
      requires conds != []
      modifies this`conds
      ensures conds == SignalFront(old(conds))
    {
      conds := conds[0 := conds[0].(woken := true)];
    }

    method SetMax(m: Int64)
      modifies this
      ensures View() == NewMax(old(View()), m)
    {
      if max == m {
        return;
      }
      if conds != [] {
        Signal();
      }
      max := m;
    }

    /** _wait up to its wait on the new condition variable. */
    method WaitBegin(thread: nat, c: Int64) returns (blocked: bool)
      modifies this
      ensures blocked <==> ShouldWait(old(count), old(max), c) || old(conds) != []
      ensures View() == if blocked then old(View()).(conds := old(conds) + [Waiter(thread, c, false)]) else old(View())
    {
      blocked := MustWait(c) || conds != [];
      if blocked {
        conds := conds + [Waiter(thread, c, false)];
      }
    }

    /** The test of the loop of _wait after its wait has returned, and what follows the loop; get then adds its
        amount. */
    method WaitEnd(i: nat) returns (blocked: bool)
      requires i < |conds|
      modifies this
      ensures View() == Resume(old(View()), i).0 && blocked == Resume(old(View()), i).1.Blocked?
    {
      var w := conds[i];
      blocked := MustWait(w.c) || i != 0;
      if blocked {
        conds := conds[i := w.(woken := false)];
        return;
      }
      conds := conds[1..];
      if conds != [] {
        Signal();
      }
      count := count + Int32(w.c);
    }

    method WaitFor(thread: nat, m: Int64) returns (blocked: bool)
      modifies this
      ensures View() == if Skips(old(max), Wait(m)) then old(View()) else Locked(old(View()), thread, Wait(m)).0
      ensures blocked == (!Skips(old(max), Wait(m)) && Locked(old(View()), thread, Wait(m)).1.Blocked?)
    {
      if max == 0 && m == 0 {
        return false;
      }
      if m != 0 {
        SetMax(m);
      }
      blocked := WaitBegin(thread, 0);
    }

    method Take(c: Int64) returns (r: int)
      modifies this
      ensures View() == if Skips(old(max), ThrottleSpec.Take(c)) then old(View())
                        else Locked(old(View()), 0, ThrottleSpec.Take(c)).0
      ensures r == if old(max) == 0 then 0 else count
    {
      if max == 0 {
        return 0;
      }
      count := count + Int32(c);
      r := count;
    }

    method Get(thread: nat, c: Int64, m: Int64) returns (blocked: bool)
      modifies this
      ensures View() == if Skips(old(max), ThrottleSpec.Get(c, m)) then old(View())
                        else Locked(old(View()), thread, ThrottleSpec.Get(c, m)).0
      ensures blocked == (!Skips(old(max), ThrottleSpec.Get(c, m))
                          && Locked(old(View()), thread, ThrottleSpec.Get(c, m)).1.Blocked?)
    {
      if max == 0 && m == 0 {
        return false;
      }
      if m != 0 {
        SetMax(m);
      }
      blocked := WaitBegin(thread, c);
      if !blocked {
        count := count + Int32(c);
      }
    }

    method GetOrFail(c: Int64) returns (granted: bool)
      modifies this
      ensures View() == if Skips(old(max), ThrottleSpec.GetOrFail(c)) then old(View())
                        else Locked(old(View()), 0, ThrottleSpec.GetOrFail(c)).0
      ensures granted == (Skips(old(max), ThrottleSpec.GetOrFail(c))
                          || Locked(old(View()), 0, ThrottleSpec.GetOrFail(c)).1.Granted?)
    {
      if max == 0 {
        return true;
      }
      if MustWait(c) || conds != [] {
        return false;
      }
      count := count + Int32(c);
      return true;
    }

    method Put(c: Int64) returns (r: int)
      modifies this
      ensures View() == if Skips(old(max), ThrottleSpec.Put(c)) then old(View())
                        else Locked(old(View()), 0, ThrottleSpec.Put(c)).0
      ensures r == if old(max) == 0 then 0 else count
    {
      if max == 0 {
        return 0;
      }
      if c != 0 {
        if conds != [] {
          Signal();
        }
        count := count - Int32(c);
      }
      r := count;
    }

    method Reset()
      modifies this
      ensures View() == Locked(old(View()), 0, ThrottleSpec.Reset).0
    {
      if conds != [] {
        Signal();
      }
      count := 0;
    }

    method ResetMax(m: Int64)
      modifies this
      ensures View() == Locked(old(View()), 0, ThrottleSpec.ResetMax(m)).0
    {
      SetMax(m);
    }
  }
}
