/**
 * The cooperative scheduler as a state machine: a thread table, a run queue of thread tokens, the
 * current thread and the driver thread of a scheduler run. Each yield is one atomic step.
 */
module Scheduling {
  import opened KernelTypes

  const MAX_THREADS: nat := 128

  datatype ThreadState = Vacant | Fresh | Ready | Running | Blocked | Dead

  /** A slot of the thread table; startable says that it has an entry point and a kernel stack. */
  datatype Thread = Thread(cap: nat, state: ThreadState, queued: bool, startable: bool)

  /** The tokens in live are those the capability table accepts; boot is the slot of the boot thread. */
  datatype Sched = Sched(threads: seq<Thread>, queue: seq<nat>, current: nat, driver: Option<nat>, live: set<nat>,
                         boot: nat)

  // ----- the kernel's operations ------------------------------------------------------------------

  predicate Names(t: Thread, cap: nat) { t.state != Vacant && t.cap == cap }

  /** The slot a token denotes, if the token is accepted. */
  function SlotFor(ts: seq<Thread>, live: set<nat>, cap: nat): (r: Option<nat>)
    ensures r.Some? ==> r.value < |ts| && Names(ts[r.value], cap) && cap in live
  {
    if cap in live && (exists i :: 0 <= i < |ts| && Names(ts[i], cap)) then Some(FirstNamed(ts, cap, 0)) else None
  }

  function FirstNamed(ts: seq<Thread>, cap: nat, from: nat): (i: nat)
    requires from <= |ts| && exists i :: from <= i < |ts| && Names(ts[i], cap)
    ensures i < |ts| && Names(ts[i], cap)
    decreases |ts| - from
  {
    if Names(ts[from], cap) then from else FirstNamed(ts, cap, from + 1)
  }

  function SetThread(s: Sched, i: nat, t: Thread): Sched
    requires i < |s.threads|
  {
    s.(threads := s.threads[i := t])
  }

  function Enqueue(s: Sched, i: nat): (Sched, Status)
    requires i < |s.threads|
  {
    var t := s.threads[i];
    if t.queued || t.state != Ready || |s.queue| >= MAX_THREADS then (s, Busy)
    else (SetThread(s, i, t.(queued := true)).(queue := s.queue + [t.cap]), Ok)
  }

  /** Takes tokens off the queue until one denotes a ready thread. */
  function Dequeue(s: Sched): (r: (Sched, Option<nat>))
    ensures |r.0.threads| == |s.threads| && r.0.current == s.current && r.0.driver == s.driver
    ensures r.1.Some? ==> r.1.value < |s.threads|
    decreases |s.queue|
  {
    if s.queue == [] then (s, None)
    else
      var rest := s.(queue := s.queue[1..]);
      match SlotFor(s.threads, s.live, s.queue[0])
      case None => Dequeue(rest)
      case Some(i) =>
        var u := SetThread(rest, i, s.threads[i].(queued := false));
        if s.threads[i].state == Ready then (u, Some(i)) else Dequeue(u)
  }

  function SwitchTo(s: Sched, next: nat): Sched
    requires next < |s.threads|
  {
    if next == s.current then s
    else SetThread(s, next, s.threads[next].(state := Running)).(current := next)
  }

  /** The current thread makes way for the dequeued thread, or else for a blocked driver. */
  function Handover(s: Sched, dequeued: Option<nat>): Sched
    requires s.current < |s.threads| && (s.driver.Some? ==> s.driver.value < |s.threads|)
    requires dequeued.Some? ==> dequeued.value < |s.threads|
  {
    var me := s.current;
    var next :=
      if dequeued.None? && s.driver.Some? && s.driver != Some(me) && s.threads[s.driver.value].state == Blocked
      then s.driver else dequeued;
    if next.None? then s
    else if s.threads[me].state != Running then SwitchTo(s, next.value)
    else if s.driver == Some(me) then SwitchTo(SetThread(s, me, s.threads[me].(state := Blocked)), next.value)
    else
      var (s2, st) := Enqueue(SetThread(s, me, s.threads[me].(state := Ready)), me);
      if st != Ok then s else SwitchTo(s2, next.value)
  }

  function Yield(s: Sched): Sched
    requires s.current < |s.threads| && (s.driver.Some? ==> s.driver.value < |s.threads|)
  {
    var (s1, dequeued) := Dequeue(s);
    Handover(s1, dequeued)
  }

  /** Uses the first vacant slot for a new thread. */
  function Create(s: Sched, cap: nat, startable: bool): (Sched, Status) {
    if exists i :: 0 <= i < |s.threads| && s.threads[i].state == Vacant then
      var i := FirstVacant(s.threads, 0);
      (SetThread(s, i, Thread(cap, Fresh, false, startable)).(live := s.live + {cap}), Ok)
    else (s, NoMem)
  }

  function FirstVacant(ts: seq<Thread>, from: nat): (i: nat)
    requires from <= |ts| && exists i :: from <= i < |ts| && ts[i].state == Vacant
    ensures i < |ts| && ts[i].state == Vacant && forall k :: from <= k < i ==> ts[k].state != Vacant
    decreases |ts| - from
  {
    if ts[from].state == Vacant then from else FirstVacant(ts, from + 1)
  }

  lemma {:induction false} FirstVacantIs(ts: seq<Thread>, from: nat, i: nat)
    requires from <= i < |ts| && ts[i].state == Vacant && forall k :: from <= k < i ==> ts[k].state != Vacant
    ensures FirstVacant(ts, from) == i
    decreases i - from
  {
    if from < i {
      FirstVacantIs(ts, from + 1, i);
    }
  }

  function Start(s: Sched, cap: nat): (Sched, Status) {
    match SlotFor(s.threads, s.live, cap)
    case None => (s, NoEnt)
    case Some(i) =>
      var t := s.threads[i];
      if !t.startable then (s, Inval)
      else if t.state != Fresh then (s, Busy)
      else
        var (s1, st) := Enqueue(SetThread(s, i, t.(state := Ready)), i);
        if st == Ok then (s1, Ok) else (s, st)
  }

  function AsDead(s: Sched): Sched
    requires s.current < |s.threads|
  {
    SetThread(s, s.current, s.threads[s.current].(state := Dead))
  }

  /** The current thread's entry function returns: it dies and yields. */
  function Exit(s: Sched): Sched
    requires s.current < |s.threads| && (s.driver.Some? ==> s.driver.value < |s.threads|)
  {
    Yield(AsDead(s))
  }

  /** The current thread enters, and with an empty queue leaves, a scheduler run. */
  function RunBegin(s: Sched): Sched { s.(driver := Some(s.current)) }

  function RunEnd(s: Sched): Sched
    requires s.driver.Some? && s.driver.value < |s.threads|
  {
    var d := s.driver.value;
    (if s.threads[d].state == Blocked then SetThread(s, d, s.threads[d].(state := Running)) else s).(driver := None)
  }

  // ----- the invariant ------------------------------------------------------------------------------

  /** The tokens of created threads are accepted and name one slot each. */
  ghost predicate Named(s: Sched) {
    && |s.threads| == MAX_THREADS
    && (forall i :: 0 <= i < MAX_THREADS && s.threads[i].state != Vacant ==> s.threads[i].cap in s.live)
    && (forall i, j :: 0 <= i < j < MAX_THREADS && s.threads[i].state != Vacant && s.threads[j].state != Vacant ==>
          s.threads[i].cap != s.threads[j].cap)
  }

  /** A thread is ready exactly when its token is queued, and the queue holds no token twice. */
  ghost predicate Queued(s: Sched) {
    && NoDup(s.queue)
    && (forall i :: 0 <= i < |s.threads| && s.threads[i].state != Vacant ==>
          && (s.threads[i].state == Ready <==> s.threads[i].cap in s.queue)
          && (s.threads[i].queued <==> s.threads[i].cap in s.queue))
    && (forall c :: c in s.queue ==> exists i :: 0 <= i < |s.threads| && Names(s.threads[i], c))
  }

  /** One thread runs, it is current; only the driver blocks; the boot thread is alive. */
  ghost predicate Placed(s: Sched) {
    && s.current < |s.threads| && s.boot < |s.threads|
    && (forall i :: 0 <= i < |s.threads| ==> (s.threads[i].state == Running <==> i == s.current))
    && (forall i :: 0 <= i < |s.threads| && s.threads[i].state == Blocked ==> s.driver == Some(i))
    && (s.driver.Some? ==> s.driver.value < |s.threads|)
    && (s.driver.Some? && s.driver.value != s.current ==> s.threads[s.driver.value].state == Blocked)
    && s.threads[s.boot].state in {Running, Ready, Blocked}
  }

  ghost predicate Inv(s: Sched) { Named(s) && Queued(s) && Placed(s) }

  // ----- yielding -----------------------------------------------------------------------------------------

  /** The state in which a yield is entered: the current thread runs, or has just died. */
  ghost predicate AtYield(s: Sched) {
    && Named(s) && Queued(s)
    && s.current < |s.threads| && s.boot < |s.threads|
    && s.threads[s.current].state in {Running, Dead}
    && (forall i :: 0 <= i < |s.threads| && s.threads[i].state == Running ==> i == s.current)
    && (forall i :: 0 <= i < |s.threads| && s.threads[i].state == Blocked ==> s.driver == Some(i))
    && (s.driver.Some? ==> s.driver.value < |s.threads|)
    && (s.driver.Some? && s.driver.value != s.current ==> s.threads[s.driver.value].state == Blocked)
    && s.threads[s.boot].state in {Running, Ready, Blocked}
    && (s.driver == Some(s.current) ==> s.threads[s.current].state == Running)
  }

  lemma SlotOf(s: Sched, i: nat)
    requires Named(s) && i < |s.threads| && s.threads[i].state != Vacant
    ensures SlotFor(s.threads, s.live, s.threads[i].cap) == Some(i)
  {
    assert Names(s.threads[i], s.threads[i].cap);
  }

  /** Under the invariant the first queued token denotes a ready thread. */
  lemma DequeueFirst(s: Sched) returns (i: nat)
    requires Named(s) && Queued(s) && s.queue != []
    ensures i < |s.threads| && s.threads[i].state == Ready && s.threads[i].cap == s.queue[0]
    ensures Dequeue(s) == (SetThread(s.(queue := s.queue[1..]), i, s.threads[i].(queued := false)), Some(i))
  {
    assert s.queue[0] in s.queue;
    i :| 0 <= i < |s.threads| && Names(s.threads[i], s.queue[0]);
    SlotOf(s, i);
  }

  /** The state after thread i was taken off the queue and the current thread made way for it. */
  function Handed(s: Sched, i: nat): Sched
    requires s.current < |s.threads| && i < |s.threads| && i != s.current && s.queue != []
  {
    var me := s.threads[s.current];
    var ts := s.threads[i := s.threads[i].(state := Running, queued := false)];
    if me.state != Running then s.(threads := ts, queue := s.queue[1..], current := i)
    else if s.driver == Some(s.current) then
      s.(threads := ts[s.current := me.(state := Blocked)], queue := s.queue[1..], current := i)
    else
      s.(threads := ts[s.current := me.(state := Ready, queued := true)], queue := s.queue[1..] + [me.cap],
        current := i)
  }

  /** The state after the current thread, alone, made way for the blocked driver. */
  function HandedToDriver(s: Sched): Sched
    requires s.current < |s.threads| && s.driver.Some? && s.driver.value < |s.threads| && s.driver.value != s.current
  {
    var me, d := s.threads[s.current], s.driver.value;
    var ts := s.threads[d := s.threads[d].(state := Running)];
    if me.state != Running then s.(threads := ts, current := d)
    else s.(threads := ts[s.current := me.(state := Ready, queued := true)], queue := [me.cap], current := d)
  }

  /** The queue holds the tokens of ready threads, each once. */
  ghost predicate QueueOfReady(s: Sched) {
    && NoDup(s.queue)
    && forall c :: c in s.queue ==>
         exists i :: 0 <= i < |s.threads| && Names(s.threads[i], c) && s.threads[i].state == Ready
  }

  /** The counting that makes the re-enqueue in yield succeed: a queue of distinct ready threads has room. */
  lemma {:induction false} QueueFits(s: Sched)
    requires QueueOfReady(s)
    ensures |s.queue| <= |set i | 0 <= i < |s.threads| && s.threads[i].state == Ready|
  {
    var slots := set i | 0 <= i < |s.threads| && s.threads[i].state == Ready;
    var caps := set c | c in s.queue;
    NoDupCount(s.queue);
    forall c | c in caps ensures exists i :: i in slots && s.threads[i].cap == c {
      var i :| 0 <= i < |s.threads| && Names(s.threads[i], c) && s.threads[i].state == Ready;
      assert i in slots;
    }
    ImageSize(slots, caps, s.threads);
  }

  lemma {:induction false} ImageSize(slots: set<int>, caps: set<nat>, ts: seq<Thread>)
    requires forall i :: i in slots ==> 0 <= i < |ts|
    requires forall c :: c in caps ==> exists i :: i in slots && ts[i].cap == c
    ensures |caps| <= |slots|
    decreases slots
  {
    if i :| i in slots {
      var c := ts[i].cap;
      forall d | d in caps - {c} ensures exists j :: j in slots - {i} && ts[j].cap == d {
        var j :| j in slots && ts[j].cap == d;
        assert j in slots - {i};
      }
      ImageSize(slots - {i}, caps - {c}, ts);
    } else {
      assert forall c :: c !in caps;
      assert caps == {};
    }
  }

  lemma SlotsBelow(n: nat, slots: set<int>)
    requires forall i :: i in slots ==> 0 <= i < n
    ensures |slots| <= n
  {
    if n == 0 {
      assert forall i :: i !in slots;
      assert slots == {};
    } else {
      SlotsBelow(n - 1, slots - {n - 1});
    }
  }

  /** With a thread that is not ready, the queue is not full. */
  lemma QueueHasRoom(s: Sched, i: nat)
    requires Named(s) && Queued(s) && i < |s.threads| && s.threads[i].state != Ready
    ensures |s.queue| < MAX_THREADS
  {
    forall c | c in s.queue
      ensures exists k :: 0 <= k < |s.threads| && Names(s.threads[k], c) && s.threads[k].state == Ready
    {
      var k :| 0 <= k < |s.threads| && Names(s.threads[k], c);
      assert s.threads[k].state == Ready;
    }
    RoomBeside(s, i);
  }

  lemma RoomBeside(s: Sched, i: nat)
    requires |s.threads| == MAX_THREADS && QueueOfReady(s) && i < |s.threads| && s.threads[i].state != Ready
    ensures |s.queue| < MAX_THREADS
  {
    QueueFits(s);
    var slots := set k | 0 <= k < |s.threads| && s.threads[k].state == Ready;
    SlotsBelow(MAX_THREADS, slots + {i as int});
    assert |slots + {i as int}| == |slots| + 1;
  }

  lemma HandoverTo(s: Sched, i: nat)
    requires s.current < |s.threads| && (s.driver.Some? ==> s.driver.value < |s.threads|)
    requires i < |s.threads| && i != s.current
    requires s.queue != [] && |s.queue| <= MAX_THREADS
    requires (s.threads[s.current].state == Running ==> !s.threads[s.current].queued)
    ensures Handover(SetThread(s.(queue := s.queue[1..]), i, s.threads[i].(queued := false)), Some(i)) == Handed(s, i)
  {
  }

  lemma HandoverIdle(s: Sched)
    requires s.current < |s.threads| && (s.driver.Some? ==> s.driver.value < |s.threads|) && s.queue == []
    requires s.threads[s.current].state == Running ==> !s.threads[s.current].queued
    ensures Handover(s, None) ==
      if s.driver.Some? && s.driver.value != s.current && s.threads[s.driver.value].state == Blocked then
        HandedToDriver(s)
      else s
  {
  }

  /** What a yield does; in particular the path that would lose the dequeued thread is never taken. */
  lemma YieldResult(s: Sched) returns (i: nat)
    requires AtYield(s)
    ensures s.queue != [] ==>
      && i < |s.threads| && i != s.current && s.threads[i].state == Ready && s.threads[i].cap == s.queue[0]
      && Yield(s) == Handed(s, i)
    ensures s.queue == [] && s.driver.Some? && s.driver.value != s.current ==> Yield(s) == HandedToDriver(s)
    ensures s.queue == [] && (s.driver.None? || s.driver.value == s.current) ==> Yield(s) == s
  {
    i := 0;
    QueueHasRoom(s, s.current);
    hide Handover, Handed, HandedToDriver;
    if s.queue != [] {
      i := DequeueFirst(s);
      HandoverTo(s, i);
    } else {
      HandoverIdle(s);
    }
  }

  /** A dead thread always finds a successor. */
  lemma DeadFindsSuccessor(s: Sched)
    requires AtYield(s) && s.threads[s.current].state == Dead
    ensures Yield(s).current != s.current
  {
    var i := YieldResult(s);
    if s.queue == [] {
      assert s.threads[s.boot].state == Blocked;
    }
  }

  // ----- every step keeps the invariant ------------------------------------------------------------------------

  lemma HandedQueued(s: Sched, i: nat)
    requires AtYield(s) && s.queue != [] && i < |s.threads| && i != s.current
    requires s.threads[i].state == Ready && s.threads[i].cap == s.queue[0]
    ensures Named(Handed(s, i)) && Queued(Handed(s, i))
  {
    var t := Handed(s, i);
    var me := s.threads[s.current];
    assert me.cap !in s.queue && me.state != Vacant;
    assert s.queue == [s.queue[0]] + s.queue[1..];
    assert s.queue[0] !in s.queue[1..];
    forall c | c in t.queue ensures exists k :: 0 <= k < |t.threads| && Names(t.threads[k], c) {
      if c in s.queue {
        var k :| 0 <= k < |s.threads| && Names(s.threads[k], c);
        assert Names(t.threads[k], c);
      } else {
        assert Names(t.threads[s.current], c);
      }
    }
    forall k | 0 <= k < |t.threads| && t.threads[k].state != Vacant
      ensures t.threads[k].cap == s.threads[k].cap && s.threads[k].state != Vacant
    {
    }
    forall k | 0 <= k < |t.threads| && t.threads[k].state != Vacant
      ensures (t.threads[k].state == Ready <==> t.threads[k].cap in t.queue)
        && (t.threads[k].queued <==> t.threads[k].cap in t.queue)
    {
      assert k != i ==> s.threads[k].cap != s.queue[0];
      assert k != s.current ==> s.threads[k].cap != me.cap;
    }
  }

  lemma HandedPlaced(s: Sched, i: nat)
    requires AtYield(s) && s.queue != [] && i < |s.threads| && i != s.current && s.threads[i].state == Ready
    ensures Placed(Handed(s, i))
  {
  }

  lemma DriverHandedKeeps(s: Sched)
    requires AtYield(s) && s.queue == [] && s.driver.Some? && s.driver.value != s.current
    ensures Inv(HandedToDriver(s))
  {
    var t, me := HandedToDriver(s), s.threads[s.current];
    forall c | c in t.queue ensures exists k :: 0 <= k < |t.threads| && Names(t.threads[k], c) {
      assert Names(t.threads[s.current], c);
    }
    forall k | 0 <= k < |t.threads| && t.threads[k].state != Vacant
      ensures t.threads[k].cap == s.threads[k].cap && s.threads[k].state != Vacant
        && (k != s.current ==> t.threads[k].cap != me.cap)
    {
    }
  }

  lemma YieldKeeps(s: Sched)
    requires AtYield(s)
    ensures Inv(Yield(s))
  {
    hide Yield, Handed, HandedToDriver;
    var i := YieldResult(s);
    if s.queue != [] {
      HandedQueued(s, i);
      HandedPlaced(s, i);
    } else if s.driver.Some? && s.driver.value != s.current {
      DriverHandedKeeps(s);
    } else {
      assert s.threads[s.boot].state in {Running, Blocked};
    }
  }

  lemma EnqueueFresh(s: Sched, i: nat)
    requires Inv(s) && i < |s.threads| && s.threads[i].state == Fresh
    ensures var t := s.threads[i].(state := Ready, queued := true);
      Inv(SetThread(s, i, t).(queue := s.queue + [t.cap]))
  {
    var t := s.threads[i];
    var u := SetThread(s, i, t.(state := Ready, queued := true)).(queue := s.queue + [t.cap]);
    assert t.cap !in s.queue;
    forall c | c in u.queue ensures exists k :: 0 <= k < |u.threads| && Names(u.threads[k], c) {
      if c in s.queue {
        var k :| 0 <= k < |s.threads| && Names(s.threads[k], c);
        assert Names(u.threads[k], c);
      } else {
        assert Names(u.threads[i], c);
      }
    }
  }

  /** Starting succeeds exactly on an accepted token of a fresh, startable thread. */
  lemma StartKeeps(s: Sched, cap: nat)
    requires Inv(s)
    ensures Inv(Start(s, cap).0)
    ensures Start(s, cap).1 == Ok <==>
      var slot := SlotFor(s.threads, s.live, cap);
      slot.Some? && s.threads[slot.value].startable && s.threads[slot.value].state == Fresh
    ensures Start(s, cap).1 == Ok ==> Start(s, cap).0.queue == s.queue + [cap]
    ensures Start(s, cap).1 != Ok ==> Start(s, cap).0 == s
  {
    QueueHasRoom(s, s.current);
    match SlotFor(s.threads, s.live, cap) {
      case None =>
      case Some(i) =>
        var t := s.threads[i];
        if t.startable && t.state == Fresh {
          EnqueueFresh(s, i);
          assert !t.queued;
          var u := SetThread(s, i, t.(state := Ready));
          assert u.threads[i := t.(state := Ready, queued := true)] ==
            s.threads[i := t.(state := Ready, queued := true)];
        }
    }
  }

  lemma CreateKeeps(s: Sched, cap: nat, startable: bool)
    requires Inv(s) && cap !in s.live
    ensures Inv(Create(s, cap, startable).0)
  {
    var (t, st) := Create(s, cap, startable);
    if st == Ok {
      forall c | c in s.queue ensures c in s.live {
        var k :| 0 <= k < |s.threads| && Names(s.threads[k], c);
      }
      var i := FirstVacant(s.threads, 0);
      forall c | c in t.queue ensures exists k :: 0 <= k < |t.threads| && Names(t.threads[k], c) {
        var k :| 0 <= k < |s.threads| && Names(s.threads[k], c);
        assert k != i && Names(t.threads[k], c);
      }
    }
  }

  /**
   * Creation succeeds exactly if a slot is vacant. The new token then names one slot, vacant before, that holds a
   * fresh thread, not queued, startable as asked; nothing else changes. A failing call changes nothing.
   */
  lemma CreateExact(s: Sched, cap: nat, startable: bool) returns (i: nat)
    ensures var (t, st) := Create(s, cap, startable);
      && (st == Ok <==> exists k :: 0 <= k < |s.threads| && s.threads[k].state == Vacant)
      && (st == Ok ==>
            && i < |s.threads| && s.threads[i].state == Vacant && t.live == s.live + {cap}
            && (forall k :: 0 <= k < i ==> s.threads[k].state != Vacant)
            && |t.threads| == |s.threads| && t.threads[i].cap == cap && t.threads[i].state == Fresh
            && !t.threads[i].queued && t.threads[i].startable == startable
            && (forall k :: 0 <= k < |s.threads| && k != i ==> t.threads[k] == s.threads[k]))
      && (st != Ok ==> st == NoMem && t.threads == s.threads && t.live == s.live)
      && t.queue == s.queue && t.current == s.current && t.driver == s.driver && t.boot == s.boot
  {
    i := 0;
    if exists k :: 0 <= k < |s.threads| && s.threads[k].state == Vacant {
      i := FirstVacant(s.threads, 0);
    }
  }

  /**
   * Starting succeeds exactly on an accepted token of a fresh, startable thread; that thread becomes ready, is
   * queued last, and nothing else changes. A failing call changes nothing.
   */
  lemma StartExact(s: Sched, cap: nat, i: nat)
    requires Inv(s) && i < |s.threads| && Names(s.threads[i], cap)
    ensures var (t, st) := Start(s, cap);
      && (st == Ok <==> cap in s.live && s.threads[i].startable && s.threads[i].state == Fresh)
      && (st == Ok ==>
            && t.queue == s.queue + [cap] && t.current == s.current && t.driver == s.driver && t.live == s.live
            && |t.threads| == |s.threads| && t.boot == s.boot
            && t.threads[i] == Thread(cap, Ready, true, true)
            && (forall k :: 0 <= k < |s.threads| && k != i ==> t.threads[k] == s.threads[k]))
      && (st != Ok ==> t == s)
  {
    StartKeeps(s, cap);
    assert SlotFor(s.threads, s.live, cap).Some? ==> SlotFor(s.threads, s.live, cap).value == i;
  }

  /** A token that names no thread, or is not accepted, starts nothing. */
  lemma StartNothing(s: Sched, cap: nat)
    requires cap !in s.live || forall i :: 0 <= i < |s.threads| ==> !Names(s.threads[i], cap)
    ensures Start(s, cap) == (s, NoEnt)
  {
  }

  /** A thread created with an entry point can be started at once, and is queued last. */
  lemma CreatedStarts(s: Sched, cap: nat)
    requires Inv(s) && cap !in s.live && exists k :: 0 <= k < |s.threads| && s.threads[k].state == Vacant
    ensures var t := Create(s, cap, true).0; Start(t, cap).1 == Ok && Start(t, cap).0.queue == s.queue + [cap]
    ensures Start(Create(s, cap, false).0, cap).1 == Inval
  {
    hide Create, Start, Inv;
    var i := CreateExact(s, cap, true);
    CreateKeeps(s, cap, true);
    StartExact(Create(s, cap, true).0, cap, i);
    var j := CreateExact(s, cap, false);
    CreateKeeps(s, cap, false);
    StartRefused(Create(s, cap, false).0, cap, j);
  }

  /** A thread that is not fresh is not started again. */
  lemma StartOnce(s: Sched, cap: nat, i: nat)
    requires Inv(s) && i < |s.threads| && Names(s.threads[i], cap) && cap in s.live
    requires s.threads[i].startable && s.threads[i].state != Fresh
    ensures Start(s, cap) == (s, Busy)
  {
  }

  lemma StartRefused(s: Sched, cap: nat, i: nat)
    requires Inv(s) && i < |s.threads| && Names(s.threads[i], cap) && cap in s.live && !s.threads[i].startable
    ensures Start(s, cap).1 == Inval
  {
  }

  /** A token leaves the capability table. */
  function Revoke(s: Sched, cap: nat): Sched { s.(live := s.live - {cap}) }

  datatype Op =
    | DoCreate(cap: nat, startable: bool)
    | DoStart(cap: nat)
    | DoYield
    | DoExit
    | DoRunBegin
    | DoRunEnd
    | DoRevoke(cap: nat)

  /**
   * What the kernel's callers do: new tokens are new; the boot thread and the driver do not return
   * from an entry function; scheduler runs are not nested and end with an empty queue; no thread's token is
   * revoked.
   */
  predicate Allowed(s: Sched, op: Op) {
    match op
    case DoCreate(cap, _) => cap !in s.live
    case DoStart(_) => true
    case DoYield => true
    case DoExit => s.current != s.boot && s.driver != Some(s.current)
    case DoRunBegin => s.driver.None?
    case DoRunEnd => s.driver == Some(s.current) && s.queue == []
    case DoRevoke(cap) => forall i :: 0 <= i < |s.threads| ==> !Names(s.threads[i], cap)
  }

  function Step(s: Sched, op: Op): Sched
    requires s.current < |s.threads| && (s.driver.Some? ==> s.driver.value < |s.threads|)
    requires op.DoRunEnd? ==> s.driver.Some?
  {
    match op
    case DoCreate(cap, startable) => Create(s, cap, startable).0
    case DoStart(cap) => Start(s, cap).0
    case DoYield => Yield(s)
    case DoExit => Exit(s)
    case DoRunBegin => RunBegin(s)
    case DoRunEnd => RunEnd(s)
    case DoRevoke(cap) => Revoke(s, cap)
  }

  /** Marking the current thread dead leads to a state in which a yield may be entered. */
  lemma ExitIsYield(s: Sched)
    requires Inv(s) && Allowed(s, DoExit)
    ensures AtYield(AsDead(s))
  {
    var t := AsDead(s);
    forall c | c in t.queue ensures exists k :: 0 <= k < |t.threads| && Names(t.threads[k], c) {
      var k :| 0 <= k < |s.threads| && Names(s.threads[k], c);
      assert Names(t.threads[k], c);
    }
  }

  /** Scheduler safety, step by step. */
  lemma StepKeeps(s: Sched, op: Op)
    requires Inv(s) && Allowed(s, op)
    ensures Inv(Step(s, op))
  {
    match op {
      case DoCreate(cap, startable) => CreateKeeps(s, cap, startable);
      case DoStart(cap) => StartKeeps(s, cap);
      case DoYield => YieldKeeps(s);
      case DoExit =>
        ExitIsYield(s);
        YieldKeeps(AsDead(s));
      case DoRunBegin =>
      case DoRunEnd =>
      case DoRevoke(cap) =>
    }
  }

  // ----- every run ------------------------------------------------------------------------------------------------

  ghost predicate AllAllowed(s: Sched, ops: seq<Op>)
    requires Inv(s)
    decreases ops
  {
    ops == [] || (Allowed(s, ops[0]) && (StepKeeps(s, ops[0]); AllAllowed(Step(s, ops[0]), ops[1..])))
  }

  ghost function Run(s: Sched, ops: seq<Op>): (t: Sched)
    requires Inv(s) && AllAllowed(s, ops)
    ensures Inv(t)
    decreases ops
  {
    if ops == [] then s else (StepKeeps(s, ops[0]); Run(Step(s, ops[0]), ops[1..]))
  }

  /** Slots keep their tokens, and neither births nor deaths occur. */
  ghost predicate SameFates(ts: seq<Thread>, ts': seq<Thread>) {
    && |ts| == |ts'|
    && forall i :: 0 <= i < |ts| ==>
         && ts'[i].cap == ts[i].cap && (ts'[i].state == Vacant <==> ts[i].state == Vacant)
         && (ts'[i].state == Dead <==> ts[i].state == Dead)
  }

  lemma YieldFates(s: Sched)
    requires AtYield(s)
    ensures SameFates(s.threads, Yield(s).threads) && Yield(s).driver == s.driver && Yield(s).boot == s.boot
  {
    hide Yield;
    var i := YieldResult(s);
  }

  lemma StartFates(s: Sched, cap: nat)
    requires Inv(s)
    ensures SameFates(s.threads, Start(s, cap).0.threads)
    ensures Start(s, cap).0.driver == s.driver && Start(s, cap).0.boot == s.boot
  {
  }

  /** In every run a dead thread never runs again. */
  lemma {:induction false} DeadForever(s: Sched, ops: seq<Op>, i: nat)
    requires Inv(s) && AllAllowed(s, ops) && i < MAX_THREADS && s.threads[i].state == Dead
    ensures Run(s, ops).threads[i].state == Dead && Run(s, ops).current != i
    decreases ops
  {
    hide Yield, Start, Queued;
    if ops != [] {
      var op := ops[0];
      StepKeeps(s, op);
      match op {
        case DoYield => YieldFates(s);
        case DoExit =>
          ExitIsYield(s);
          YieldFates(AsDead(s));
        case DoStart(cap) => StartFates(s, cap);
        case _ =>
      }
      DeadForever(Step(s, ops[0]), ops[1..], i);
    }
  }

  predicate Switches(op: Op) { op.DoYield? || op.DoExit? }

  function Turns(ops: seq<Op>): nat {
    if ops == [] then 0 else (if Switches(ops[0]) then 1 else 0) + Turns(ops[1..])
  }

  /** Thread i waits at position k of the queue. */
  predicate WaitsAt(s: Sched, i: nat, k: nat) {
    i < |s.threads| && k < |s.queue| && s.threads[i].state == Ready && s.queue[k] == s.threads[i].cap
  }

  /** A yield or exit moves every waiting thread one place on and runs the first. */
  lemma TurnStep(s: Sched, op: Op, i: nat, k: nat)
    requires Inv(s) && Allowed(s, op) && Switches(op) && WaitsAt(s, i, k)
    ensures if k == 0 then Step(s, op).current == i else WaitsAt(Step(s, op), i, k - 1)
  {
    hide Yield;
    if op.DoExit? {
      ExitIsYield(s);
      TurnOnce(AsDead(s), i, k);
    } else {
      TurnOnce(s, i, k);
    }
  }

  lemma TurnOnce(s: Sched, i: nat, k: nat)
    requires AtYield(s) && WaitsAt(s, i, k)
    ensures if k == 0 then Yield(s).current == i else WaitsAt(Yield(s), i, k - 1)
  {
    hide Yield;
    var j := YieldResult(s);
    if k > 0 {
      assert s.queue[0] != s.queue[k];
      assert s.queue[1..][k - 1] == s.queue[k];
    }
  }

  lemma OtherStep(s: Sched, op: Op, i: nat, k: nat)
    requires Inv(s) && Allowed(s, op) && !Switches(op) && WaitsAt(s, i, k)
    ensures WaitsAt(Step(s, op), i, k)
  {
    if op.DoStart? {
      StartKeeps(s, op.cap);
    }
  }

  /** A thread at position k is still waiting, k - n places from the front, after n yields of any run. */
  lemma {:induction false} StillWaiting(s: Sched, ops: seq<Op>, i: nat, k: nat)
    requires Inv(s) && AllAllowed(s, ops) && WaitsAt(s, i, k) && Turns(ops) <= k
    ensures WaitsAt(Run(s, ops), i, k - Turns(ops))
    decreases ops
  {
    hide Named, Queued, Yield, Exit, Start, Create;
    if ops != [] {
      StepKeeps(s, ops[0]);
      if Switches(ops[0]) {
        TurnStep(s, ops[0], i, k);
        StillWaiting(Step(s, ops[0]), ops[1..], i, k - 1);
      } else {
        OtherStep(s, ops[0], i, k);
        StillWaiting(Step(s, ops[0]), ops[1..], i, k);
      }
    }
  }

  /** A thread at position k runs at exactly the (k + 1)-th later yield, whatever else happens in between. */
  lemma RunsInTurn(s: Sched, ops: seq<Op>, op: Op, i: nat, k: nat)
    requires Inv(s) && AllAllowed(s, ops) && WaitsAt(s, i, k) && Turns(ops) == k
    requires Switches(op) && Allowed(Run(s, ops), op)
    ensures Run(s, ops).current != i && Step(Run(s, ops), op).current == i
  {
    StillWaiting(s, ops, i, k);
    TurnStep(Run(s, ops), op, i, 0);
  }

  // ----- a scheduler run terminates --------------------------------------------------------------------------

  datatype Act = YieldAct | StartAct(cap: nat) | CreateAct(cap: nat, startable: bool)

  /**
   * The scheduler with what each thread still does before its entry function returns; for a vacant slot, what
   * the thread will do that comes to be created there.
   */
  datatype World = World(s: Sched, work: seq<seq<Act>>)

  ghost predicate InRun(w: World) {
    Inv(w.s) && |w.work| == MAX_THREADS && w.s.driver == Some(w.s.boot)
  }

  /** The driver is back and nothing is queued: the loop of the scheduler run is over. */
  predicate Finished(w: World) { w.s.driver == Some(w.s.current) && w.s.queue == [] }

  /** The operation an action stands for; a creation under a token already in use is refused. */
  function OpOf(s: Sched, a: Act): Option<Op> {
    match a
    case YieldAct => Some(DoYield)
    case StartAct(cap) => Some(DoStart(cap))
    case CreateAct(cap, startable) => if cap in s.live then None else Some(DoCreate(cap, startable))
  }

  /** The next thing that happens: the driver yields, or the current thread acts or returns. */
  function NextOp(w: World): Option<Op>
    requires w.s.current < |w.work|
  {
    if w.s.driver == Some(w.s.current) then Some(DoYield)
    else if w.work[w.s.current] == [] then Some(DoExit)
    else OpOf(w.s, w.work[w.s.current][0])
  }

  function Advance(w: World): World
    requires w.s.current < |w.s.threads| == |w.work| && w.s.driver.Some? && w.s.driver.value < |w.s.threads|
  {
    var me := w.s.current;
    var rest := if w.s.driver == Some(me) || w.work[me] == [] then w.work else w.work[me := w.work[me][1..]];
    match NextOp(w)
    case None => World(w.s, rest)
    case Some(op) => World(Step(w.s, op), rest)
  }

  /** The same threads are dead. */
  ghost predicate SameDeaths(ts: seq<Thread>, ts': seq<Thread>) {
    |ts| == |ts'| && forall i :: 0 <= i < |ts| ==> (ts'[i].state == Dead <==> ts[i].state == Dead)
  }

  lemma CreateFates(s: Sched, cap: nat, startable: bool)
    ensures var t := Create(s, cap, startable).0;
      SameDeaths(s.threads, t.threads) && t.driver == s.driver && t.boot == s.boot && t.current == s.current
  {
  }

  lemma AdvanceKeeps(w: World)
    requires InRun(w)
    ensures InRun(Advance(w))
    ensures SameDeaths(if NextOp(w) == Some(DoExit) then AsDead(w.s).threads else w.s.threads, Advance(w).s.threads)
  {
    hide Yield, Start, Create;
    if NextOp(w).Some? {
      StepKeeps(w.s, NextOp(w).value);
      match NextOp(w).value {
        case DoYield => YieldFates(w.s);
        case DoExit =>
          ExitIsYield(w.s);
          YieldFates(AsDead(w.s));
        case DoStart(cap) => StartFates(w.s, cap);
        case DoCreate(cap, startable) => CreateFates(w.s, cap, startable);
      }
    }
  }

  /** What is left to do: one unit per action, and one per thread that has not returned. */
  function Left(ts: seq<Thread>, work: seq<seq<Act>>): nat
    requires |ts| == |work|
    decreases |ts|
  {
    if ts == [] then 0
    else (if ts[0].state == Dead then 0 else 1 + |work[0]|) + Left(ts[1..], work[1..])
  }

  function Cost(t: Thread, w: seq<Act>): nat { if t.state == Dead then 0 else 1 + |w| }

  lemma {:induction false} LeftDrops(ts: seq<Thread>, work: seq<seq<Act>>, ts': seq<Thread>, work': seq<seq<Act>>)
    requires |ts| == |work| == |ts'| == |work'|
    requires forall i :: 0 <= i < |ts| ==> Cost(ts'[i], work'[i]) <= Cost(ts[i], work[i])
    ensures Left(ts', work') <= Left(ts, work)
    ensures (exists i :: 0 <= i < |ts| && Cost(ts'[i], work'[i]) < Cost(ts[i], work[i])) ==>
      Left(ts', work') < Left(ts, work)
    decreases |ts|
  {
    if ts != [] {
      forall i | 0 <= i < |ts[1..]| ensures Cost(ts'[1..][i], work'[1..][i]) <= Cost(ts[1..][i], work[1..][i]) {
        assert Cost(ts'[i + 1], work'[i + 1]) <= Cost(ts[i + 1], work[i + 1]);
      }
      LeftDrops(ts[1..], work[1..], ts'[1..], work'[1..]);
      if i :| 0 <= i < |ts| && Cost(ts'[i], work'[i]) < Cost(ts[i], work[i]) {
        if i > 0 {
          assert Cost(ts'[1..][i - 1], work'[1..][i - 1]) < Cost(ts[1..][i - 1], work[1..][i - 1]);
        }
      }
    }
  }

  /** Every step of a thread uses something up; a step of the driver hands over to a thread. */
  lemma AdvanceProgress(w: World)
    requires InRun(w) && !Finished(w)
    ensures InRun(Advance(w))
    ensures var w' := Advance(w);
      && Left(w'.s.threads, w'.work) <= Left(w.s.threads, w.work)
      && (w.s.driver == Some(w.s.current) ==> w'.s.driver != Some(w'.s.current))
      && (w.s.driver != Some(w.s.current) ==> Left(w'.s.threads, w'.work) < Left(w.s.threads, w.work))
  {
    hide Step, Queued, Left;
    var me, w' := w.s.current, Advance(w);
    AdvanceKeeps(w);
    forall i | 0 <= i < MAX_THREADS ensures Cost(w'.s.threads[i], w'.work[i]) <= Cost(w.s.threads[i], w.work[i]) {
    }
    if w.s.driver == Some(me) {
      DriverHandsOver(w.s);
    } else {
      assert Cost(w'.s.threads[me], w'.work[me]) < Cost(w.s.threads[me], w.work[me]);
    }
    LeftDrops(w.s.threads, w.work, w'.s.threads, w'.work);
  }

  lemma DriverHandsOver(s: Sched)
    requires Inv(s) && s.driver == Some(s.current) && s.queue != []
    ensures Step(s, DoYield).current != s.current && Step(s, DoYield).driver == s.driver
  {
    hide Yield;
    var i := YieldResult(s);
  }

  ghost function Iterate(w: World, n: nat): (r: World)
    requires InRun(w)
    ensures InRun(r)
    decreases n
  {
    if n == 0 then w else (AdvanceKeeps(w); Iterate(Advance(w), n - 1))
  }

  /**
   * If every thread, also one created on the way, acts finitely often, a scheduler run of the boot thread
   * ends after finitely many steps; then the driver runs and is current, the queue is empty, and every started
   * thread is dead.
   */
  lemma {:induction false} RunTerminates(w: World) returns (n: nat)
    requires InRun(w)
    ensures Finished(Iterate(w, n))
    ensures var s := Iterate(w, n).s;
      && s.current == s.boot && s.threads[s.boot].state == Running
      && (forall i :: 0 <= i < MAX_THREADS && i != s.boot ==> s.threads[i].state in {Vacant, Fresh, Dead})
      && Inv(RunEnd(s)) && RunEnd(s).driver.None?
    decreases Left(w.s.threads, w.work), w.s.driver == Some(w.s.current)
  {
    hide Advance, Queued, Left, RunEnd, Yield, Finished;
    assert Iterate(w, 0) == w;
    if Finished(w) {
      n := 0;
    } else {
      AdvanceProgress(w);
      var k := RunTerminates(Advance(w));
      n := k + 1;
    }
    FinishedIsQuiet(Iterate(w, n));
  }

  lemma FinishedIsQuiet(w: World)
    requires InRun(w) && Finished(w)
    ensures w.s.current == w.s.boot && w.s.threads[w.s.boot].state == Running
    ensures forall i :: 0 <= i < MAX_THREADS && i != w.s.boot ==> w.s.threads[i].state in {Vacant, Fresh, Dead}
    ensures Inv(RunEnd(w.s)) && RunEnd(w.s).driver.None?
  {
  }
}
