/** The scheduler as the kernel keeps it: a thread table and a circular run queue, updated in place. */
module Scheduler {
  import opened KernelTypes
  import opened Scheduling

  /** The tokens in a circular buffer, oldest first. */
  function RingSeq(entries: seq<nat>, head: nat, count: nat): (q: seq<nat>)
    requires |entries| == MAX_THREADS && head < MAX_THREADS && count <= MAX_THREADS
    ensures |q| == count
  {
    seq(count, k requires 0 <= k < count => entries[(head + k) % MAX_THREADS])
  }

  lemma WrapSum(a: nat, k: nat)
    ensures (a % MAX_THREADS + k) % MAX_THREADS == (a + k) % MAX_THREADS
  {
    var q := a / MAX_THREADS;
    assert a == a % MAX_THREADS + MAX_THREADS * q;
    assert a + k == (a % MAX_THREADS + k) + MAX_THREADS * q;
  }

  lemma RingPush(entries: seq<nat>, head: nat, count: nat, cap: nat)
    requires |entries| == MAX_THREADS && head < MAX_THREADS && count < MAX_THREADS
    ensures RingSeq(entries[(head + count) % MAX_THREADS := cap], head, count + 1) ==
      RingSeq(entries, head, count) + [cap]
  {
    var e := entries[(head + count) % MAX_THREADS := cap];
    forall k | 0 <= k < count ensures RingSeq(e, head, count + 1)[k] == RingSeq(entries, head, count)[k] {
    }
  }

  lemma RingPop(entries: seq<nat>, head: nat, count: nat)
    requires |entries| == MAX_THREADS && head < MAX_THREADS && 0 < count <= MAX_THREADS
    ensures RingSeq(entries, head, count)[0] == entries[head]
    ensures RingSeq(entries, (head + 1) % MAX_THREADS, count - 1) == RingSeq(entries, head, count)[1..]
  {
    forall k | 0 <= k < count - 1
      ensures RingSeq(entries, (head + 1) % MAX_THREADS, count - 1)[k] == RingSeq(entries, head, count)[1..][k]
    {
      WrapSum(head + 1, k);
    }
  }

  class RunQueueScheduler {
    const threads: array<Thread>
    const entries: array<nat>
    var head: nat
    var tail: nat
    var count: nat
    var current: nat
    var driver: Option<nat>
    /** The tokens the capability table accepts. */
    var live: set<nat>
    ghost const boot: nat

    ghost predicate Valid()
      reads this
    {
      && threads.Length == MAX_THREADS && entries.Length == MAX_THREADS
      && head < MAX_THREADS && count <= MAX_THREADS && tail == (head + count) % MAX_THREADS
      && current < MAX_THREADS && (driver.Some? ==> driver.value < MAX_THREADS)
    }

    ghost function Value(): Sched
      requires Valid()
      reads this, threads, entries
    {
      Sched(threads[..], RingSeq(entries[..], head, count), current, driver, live, boot)
    }

    /** The boot thread is created in the first slot and marked running. */
    constructor (bootCap: nat)
      ensures Valid() && fresh(threads) && fresh(entries) && Inv(Value())
      ensures Value().queue == [] && current == boot && driver.None? && live == {bootCap}
    {
      var ts := new Thread[MAX_THREADS](_ => Thread(0, Vacant, false, false));
      ts[0] := Thread(bootCap, Running, false, false);
      threads := ts;
      entries := new nat[MAX_THREADS];
      head, tail, count, current := 0, 0, 0, 0;
      driver := None;
      live := {bootCap};
      boot := 0;
    }

    method EnqueueThread(i: nat) returns (s: Status)
      requires Valid() && i < MAX_THREADS
      modifies this`tail, this`count, threads, entries
      ensures Valid() && (Value(), s) == Enqueue(old(Value()), i)
    {
      if threads[i].queued || threads[i].state != Ready {
        return Busy;
      }
      if count >= MAX_THREADS {
        return Busy;
      }
      hide RingSeq;
      RingPush(entries[..], head, count, threads[i].cap);
      WrapSum(head + count, 1);
      ghost var before := entries[..];
      entries[tail] := threads[i].cap;
      assert entries[..] == before[tail := threads[i].cap];
      tail := (tail + 1) % MAX_THREADS;
      count := count + 1;
      threads[i] := threads[i].(queued := true);
      return Ok;
    }

    /** Advances the head of the circular queue past its first token. */
    method PopToken() returns (cap: nat)
      requires Valid() && count > 0
      modifies this`head, this`count
      ensures Valid() && count == old(count) - 1
      ensures old(Value()).queue != [] && cap == old(Value()).queue[0]
      ensures Value() == old(Value()).(queue := old(Value()).queue[1..])
    {
      RingPop(entries[..], head, count);
      WrapSum(head + 1, count - 1);
      hide RingSeq;
      cap := entries[head];
      head := (head + 1) % MAX_THREADS;
      count := count - 1;
    }

    method DequeueThread() returns (next: Option<nat>)
      requires Valid()
      modifies this`head, this`count, threads
      ensures Valid() && (Value(), next) == Dequeue(old(Value()))
    {
      hide SlotFor;
      while count > 0
        invariant Valid() && Dequeue(Value()) == Dequeue(old(Value()))
        decreases count
      {
        ghost var s := Value();
        var cap := PopToken();
        var slot := SlotFor(threads[..], live, cap);
        if slot.Some? {
          threads[slot.value] := threads[slot.value].(queued := false);
          assert Value() == SetThread(s.(queue := s.queue[1..]), slot.value, s.threads[slot.value].(queued := false));
          if threads[slot.value].state == Ready {
            return slot;
          }
        }
      }
      return None;
    }

    method SwitchToThread(next: nat)
      requires Valid() && next < MAX_THREADS
      modifies this`current, threads
      ensures Valid() && Value() == SwitchTo(old(Value()), next)
    {
      if next == current {
        return;
      }
      threads[next] := threads[next].(state := Running);
      current := next;
    }

    method SchedYield()
      requires Valid()
      modifies this, threads, entries
      ensures Valid() && Value() == Yield(old(Value()))
    {
      var me := current;
      var next := DequeueThread();
      if next.None? && driver.Some? && driver != Some(me) && threads[driver.value].state == Blocked {
        next := driver;
      }
      if next.None? {
        return;
      }
      if threads[me].state == Running {
        if driver == Some(me) {
          threads[me] := threads[me].(state := Blocked);
        } else {
          ghost var s1 := Value();
          threads[me] := threads[me].(state := Ready);
          var s := EnqueueThread(me);
          if s != Ok {
            threads[me] := threads[me].(state := Running);
            assert Value() == s1;
            return;
          }
        }
      }
      SwitchToThread(next.value);
    }

    method ThreadStart(cap: nat) returns (s: Status)
      requires Valid()
      modifies this`tail, this`count, threads, entries
      ensures Valid() && (Value(), s) == Start(old(Value()), cap)
    {
      var slot := SlotFor(threads[..], live, cap);
      if slot.None? {
        return NoEnt;
      }
      var i := slot.value;
      if !threads[i].startable {
        return Inval;
      }
      if threads[i].state != Fresh {
        return Busy;
      }
      ghost var before := Value();
      threads[i] := threads[i].(state := Ready);
      s := EnqueueThread(i);
      if s != Ok {
        threads[i] := threads[i].(state := Fresh);
        assert Value() == before;
      }
    }

    /** Takes the first vacant slot for a new thread with the given token. */
    method ThreadCreate(cap: nat, startable: bool) returns (s: Status)
      requires Valid()
      modifies this`live, threads
      ensures Valid() && (Value(), s) == Create(old(Value()), cap, startable)
    {
      for i := 0 to MAX_THREADS
        invariant Valid() && threads[..] == old(threads[..]) && live == old(live)
        invariant forall k :: 0 <= k < i ==> threads[k].state != Vacant
      {
        if threads[i].state == Vacant {
          FirstVacantIs(threads[..], 0, i);
          threads[i] := Thread(cap, Fresh, false, startable);
          live := live + {cap};
          return Ok;
        }
      }
      return NoMem;
    }

    /** The capability table stops accepting a token. */
    method RevokeToken(cap: nat)
      requires Valid()
      modifies this`live
      ensures Valid() && Value() == Revoke(old(Value()), cap)
    {
      live := live - {cap};
    }

    /** The current thread becomes the driver of a scheduler run. */
    method EnterRun()
      requires Valid()
      modifies this`driver
      ensures Valid() && Value() == RunBegin(old(Value()))
    {
      driver := Some(current);
    }

    /** The driver leaves the loop of its scheduler run. */
    method LeaveRun()
      requires Valid() && driver.Some?
      modifies this`driver, threads
      ensures Valid() && Value() == RunEnd(old(Value()))
    {
      if threads[driver.value].state == Blocked {
        threads[driver.value] := threads[driver.value].(state := Running);
      }
      driver := None;
    }

    /** The current thread's entry function has returned. */
    method ThreadExit()
      requires Valid()
      modifies this, threads, entries
      ensures Valid() && Value() == Exit(old(Value()))
    {
      threads[current] := threads[current].(state := Dead);
      SchedYield();
    }
  }
}
