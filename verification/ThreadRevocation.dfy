/**
 * The scheduler when thread tokens may be revoked at any time: which part of its invariant survives, what
 * becomes of a thread whose token is revoked, and exactly when READY and queued come apart.
 */
module ThreadRevocation {
  import opened KernelTypes
  import opened Scheduling

  // ----- what survives every revocation ------------------------------------------------------------------

  ghost predicate OneName(ts: seq<Thread>) {
    forall i, j :: 0 <= i < j < |ts| && ts[i].state != Vacant && ts[j].state != Vacant ==> ts[i].cap != ts[j].cap
  }

  /** At most the current thread runs; only the driver blocks; only ready threads are marked as queued. */
  ghost predicate Settled(s: Sched) {
    && s.current < |s.threads| && (s.driver.Some? ==> s.driver.value < |s.threads|)
    && s.threads[s.current].state in {Running, Dead}
    && (forall i :: 0 <= i < |s.threads| && s.threads[i].state == Running ==> i == s.current)
    && (forall i :: 0 <= i < |s.threads| && s.threads[i].state == Blocked ==> s.driver == Some(i))
    && (forall i :: 0 <= i < |s.threads| && s.threads[i].state != Vacant && s.threads[i].queued ==>
          s.threads[i].state == Ready)
  }

  ghost predicate Loose(s: Sched) {
    |s.threads| == MAX_THREADS && OneName(s.threads) && QueueOfReady(s) && Settled(s)
  }

  lemma InvIsLoose(s: Sched)
    requires Inv(s)
    ensures Loose(s)
  {
    forall c | c in s.queue
      ensures exists i :: 0 <= i < |s.threads| && Names(s.threads[i], c) && s.threads[i].state == Ready
    {
      var i :| 0 <= i < |s.threads| && Names(s.threads[i], c);
      assert s.threads[i].state == Ready;
    }
  }

  lemma RevokedLoose(s: Sched, cap: nat)
    requires Inv(s)
    ensures Loose(Revoke(s, cap))
  {
    InvIsLoose(s);
    assert QueueOfReady(Revoke(s, cap));
  }

  /** The slot that a token in the queue names. */
  lemma QueuedSlot(s: Sched, c: nat) returns (i: nat)
    requires QueueOfReady(s) && c in s.queue
    ensures i < |s.threads| && Names(s.threads[i], c) && s.threads[i].state == Ready
  {
    i :| 0 <= i < |s.threads| && Names(s.threads[i], c) && s.threads[i].state == Ready;
  }

  lemma OnlySlot(s: Sched, i: nat, c: nat)
    requires OneName(s.threads) && i < |s.threads| && Names(s.threads[i], c)
    ensures SlotFor(s.threads, s.live, c) == if c in s.live then Some(i) else None
  {
  }

  // ----- yielding past revoked tokens ------------------------------------------------------------------------

  /** How many revoked tokens stand at the head of the queue. */
  function Skip(queue: seq<nat>, live: set<nat>): (n: nat)
    ensures n <= |queue| && (n < |queue| ==> queue[n] in live) && forall j :: 0 <= j < n ==> queue[j] !in live
  {
    if queue == [] || queue[0] in live then 0 else 1 + Skip(queue[1..], live)
  }

  /** Dequeuing drops the revoked tokens at the head without a trace and takes the first live one. */
  lemma {:induction false} DequeueSkips(s: Sched) returns (i: nat)
    requires OneName(s.threads) && QueueOfReady(s)
    ensures var n := Skip(s.queue, s.live);
      && (n == |s.queue| ==> Dequeue(s) == (s.(queue := []), None))
      && (n < |s.queue| ==>
            && i < |s.threads| && Names(s.threads[i], s.queue[n]) && s.threads[i].state == Ready
            && Dequeue(s) == (SetThread(s.(queue := s.queue[n + 1..]), i, s.threads[i].(queued := false)), Some(i)))
    decreases |s.queue|
  {
    i := 0;
    if s.queue != [] {
      var c := s.queue[0];
      i := QueuedSlot(s, c);
      OnlySlot(s, i, c);
      if c !in s.live {
        var rest := s.(queue := s.queue[1..]);
        assert QueueOfReady(rest) by {
          forall d | d in rest.queue
            ensures exists k :: 0 <= k < |s.threads| && Names(s.threads[k], d) && s.threads[k].state == Ready
          {
            var k := QueuedSlot(s, d);
          }
        }
        i := DequeueSkips(rest);
        var n := Skip(rest.queue, s.live);
        assert n < |rest.queue| ==> rest.queue[n + 1..] == s.queue[n + 2..];
      }
    }
  }

  /** The state with the revoked tokens at the head of the queue gone. */
  function Dropped(s: Sched): (t: Sched)
    ensures t.queue != [] ==> t.queue[0] in s.live
  {
    s.(queue := s.queue[Skip(s.queue, s.live)..])
  }

  lemma DroppedLoose(s: Sched)
    requires Loose(s)
    ensures Loose(Dropped(s))
  {
    var t := Dropped(s);
    forall c | c in t.queue
      ensures exists k :: 0 <= k < |t.threads| && Names(t.threads[k], c) && t.threads[k].state == Ready
    {
      var k := QueuedSlot(s, c);
    }
  }

  predicate DriverWaits(s: Sched) {
    && s.driver.Some? && s.driver.value < |s.threads| && s.driver.value != s.current
    && s.threads[s.driver.value].state == Blocked
  }

  /** A yield drops the revoked tokens it meets, and then is the yield of the scheduler without them. */
  lemma YieldDrops(s: Sched) returns (i: nat)
    requires Loose(s)
    ensures var t := Dropped(s);
      && (t.queue != [] ==>
            && i < |s.threads| && i != s.current && s.threads[i].state == Ready && s.threads[i].cap == t.queue[0]
            && Yield(s) == Handed(t, i))
      && (t.queue == [] && DriverWaits(s) ==> Yield(s) == HandedToDriver(t))
      && (t.queue == [] && !DriverWaits(s) ==> Yield(s) == t)
  {
    i := DequeueSkips(s);
    DroppedLoose(s);
    RoomBeside(Dropped(s), s.current);
    hide OneName, QueueOfReady, Dequeue, Handover, Handed, HandedToDriver;
    var t, n := Dropped(s), Skip(s.queue, s.live);
    if n < |s.queue| {
      assert t.queue[1..] == s.queue[n + 1..];
      HandoverTo(t, i);
    } else {
      HandoverIdle(t);
    }
  }

  // ----- every step ------------------------------------------------------------------------------------------------

  /**
   * As with unrevoked tokens, except that any token may be revoked; a dead thread that finds no successor halts the
   * kernel.
   */
  predicate AnyAllowed(s: Sched, op: Op) {
    && s.current < |s.threads| && s.threads[s.current].state == Running
    && match op
       case DoCreate(cap, _) => cap !in s.live && forall i :: 0 <= i < |s.threads| ==> !Names(s.threads[i], cap)
       case DoExit => s.current != s.boot && s.driver != Some(s.current)
       case DoRunBegin => s.driver.None?
       case DoRunEnd => s.driver == Some(s.current) && s.queue == []
       case _ => true
  }

  lemma HandedLoose(s: Sched, i: nat)
    requires Loose(s) && s.queue != [] && i < |s.threads| && i != s.current
    requires s.threads[i].state == Ready && s.threads[i].cap == s.queue[0]
    ensures Loose(Handed(s, i))
  {
    HandedReady(s, i);
    hide QueueOfReady;
  }

  lemma HandedReady(s: Sched, i: nat)
    requires Loose(s) && s.queue != [] && i < |s.threads| && i != s.current
    requires s.threads[i].state == Ready && s.threads[i].cap == s.queue[0]
    ensures QueueOfReady(Handed(s, i))
  {
    var t, me := Handed(s, i), s.threads[s.current];
    assert me.cap !in s.queue by {
      if me.cap in s.queue {
        var k := QueuedSlot(s, me.cap);
      }
    }
    assert s.queue == [s.queue[0]] + s.queue[1..];
    HandedQueue(s, i);
    forall c | c in t.queue
      ensures exists k :: 0 <= k < |t.threads| && Names(t.threads[k], c) && t.threads[k].state == Ready
    {
      if c in s.queue[1..] {
        var k := QueuedSlot(s, c);
        assert k != i && t.threads[k] == s.threads[k];
      } else {
        assert Names(t.threads[s.current], c);
      }
    }
  }

  lemma DriverLoose(s: Sched)
    requires Loose(s) && s.queue == [] && DriverWaits(s)
    ensures Loose(HandedToDriver(s))
  {
    var t := HandedToDriver(s);
    forall c | c in t.queue
      ensures exists k :: 0 <= k < |t.threads| && Names(t.threads[k], c) && t.threads[k].state == Ready
    {
      assert Names(t.threads[s.current], c);
    }
  }

  lemma YieldLoose(s: Sched)
    requires Loose(s)
    ensures Loose(Yield(s))
  {
    hide Yield, Handed, HandedToDriver, Loose;
    var i := YieldDrops(s);
    DroppedLoose(s);
    if Dropped(s).queue != [] {
      HandedLoose(Dropped(s), i);
    } else if DriverWaits(s) {
      DriverLoose(Dropped(s));
    }
  }

  lemma AsDeadLoose(s: Sched)
    requires Loose(s) && s.threads[s.current].state == Running
    ensures Loose(AsDead(s))
  {
    var t := AsDead(s);
    forall c | c in t.queue
      ensures exists k :: 0 <= k < |t.threads| && Names(t.threads[k], c) && t.threads[k].state == Ready
    {
      var k := QueuedSlot(s, c);
      assert k != s.current && t.threads[k] == s.threads[k];
    }
  }

  /** What starting does: nothing, or a fresh thread becomes ready at the end of the queue. */
  lemma StartLoose(s: Sched, cap: nat)
    requires Loose(s)
    ensures Loose(Start(s, cap).0)
    ensures var (t, st) := Start(s, cap);
      && (st != Ok ==> t == s)
      && (st == Ok ==> cap in s.live && t.queue == s.queue + [cap] && t.live == s.live && t.current == s.current
                       && exists i :: 0 <= i < |s.threads| && Names(s.threads[i], cap) && s.threads[i].state == Fresh
                                      && t.threads == s.threads[i := s.threads[i].(state := Ready, queued := true)])
  {
    match SlotFor(s.threads, s.live, cap) {
      case None =>
      case Some(i) =>
        var th := s.threads[i];
        if th.startable && th.state == Fresh {
          RoomBeside(s, i);
          var u := SetThread(s, i, th.(state := Ready));
          assert u.threads[i := th.(state := Ready, queued := true)] ==
            s.threads[i := th.(state := Ready, queued := true)];
          StartedLoose(s, i);
        }
    }
  }

  lemma StartedLoose(s: Sched, i: nat)
    requires Loose(s) && i < |s.threads| && s.threads[i].state == Fresh
    ensures var u := SetThread(s, i, s.threads[i].(state := Ready, queued := true));
      Loose(u.(queue := s.queue + [s.threads[i].cap]))
  {
    var th := s.threads[i];
    var t := SetThread(s, i, th.(state := Ready, queued := true)).(queue := s.queue + [th.cap]);
    assert th.cap !in s.queue by {
      if th.cap in s.queue {
        var k := QueuedSlot(s, th.cap);
      }
    }
    forall c | c in t.queue
      ensures exists k :: 0 <= k < |t.threads| && Names(t.threads[k], c) && t.threads[k].state == Ready
    {
      if c in s.queue {
        var k := QueuedSlot(s, c);
        assert k != i && t.threads[k] == s.threads[k];
      } else {
        assert Names(t.threads[i], c);
      }
    }
  }

  lemma CreateLoose(s: Sched, cap: nat, startable: bool)
    requires Loose(s) && AnyAllowed(s, DoCreate(cap, startable))
    ensures Loose(Create(s, cap, startable).0)
  {
    var (t, st) := Create(s, cap, startable);
    if st == Ok {
      var i := FirstVacant(s.threads, 0);
      forall c | c in t.queue
        ensures exists k :: 0 <= k < |t.threads| && Names(t.threads[k], c) && t.threads[k].state == Ready
      {
        var k := QueuedSlot(s, c);
        assert k != i && t.threads[k] == s.threads[k];
      }
    }
  }

  lemma RunEndLoose(s: Sched)
    requires Loose(s) && AnyAllowed(s, DoRunEnd)
    ensures Loose(RunEnd(s)) && RunEnd(s) == s.(driver := None)
  {
  }

  /** Whatever is revoked, every step keeps this much. */
  lemma StepLoose(s: Sched, op: Op)
    requires Loose(s) && AnyAllowed(s, op)
    ensures Loose(Step(s, op))
  {
    hide Yield, Start, Create, RunEnd;
    match op {
      case DoCreate(cap, startable) => CreateLoose(s, cap, startable);
      case DoStart(cap) => StartLoose(s, cap);
      case DoYield => YieldLoose(s);
      case DoExit =>
        AsDeadLoose(s);
        YieldLoose(AsDead(s));
      case DoRunBegin =>
      case DoRunEnd => RunEndLoose(s);
      case DoRevoke(cap) =>
    }
  }

  ghost predicate AllAnyAllowed(s: Sched, ops: seq<Op>)
    requires Loose(s)
    decreases ops
  {
    ops == [] || (AnyAllowed(s, ops[0]) && (StepLoose(s, ops[0]); AllAnyAllowed(Step(s, ops[0]), ops[1..])))
  }

  ghost function RunAny(s: Sched, ops: seq<Op>): (t: Sched)
    requires Loose(s) && AllAnyAllowed(s, ops)
    ensures Loose(t)
    decreases ops
  {
    if ops == [] then s else (StepLoose(s, ops[0]); RunAny(Step(s, ops[0]), ops[1..]))
  }

  // ----- a revoked thread is lost ---------------------------------------------------------------------------------

  /** A ready thread whose token is revoked. */
  predicate Outcast(s: Sched, i: nat, cap: nat) {
    i < |s.threads| && s.threads[i].state == Ready && s.threads[i].cap == cap && cap !in s.live
  }

  /** The token is not in the queue from position k on. */
  predicate Gone(queue: seq<nat>, cap: nat, k: nat) { forall j :: k <= j < |queue| ==> queue[j] != cap }

  function Less(k: nat, n: nat): nat { if n <= k then k - n else 0 }

  lemma YieldOutcast(s: Sched, i: nat, cap: nat, k: nat)
    requires Loose(s) && Outcast(s, i, cap) && Gone(s.queue, cap, k)
    ensures Outcast(Yield(s), i, cap) && Gone(Yield(s).queue, cap, Less(k, 1))
  {
    hide Yield, Skip;
    var j := YieldDrops(s);
    var t, n := Dropped(s), Skip(s.queue, s.live);
    hide QueueOfReady;
    assert i != s.current && !(s.driver == Some(i) && DriverWaits(s));
    assert Gone(t.queue, cap, Less(k, n));
    if t.queue != [] {
      assert cap != t.queue[0] && j != i;
      assert Gone(t.queue[1..], cap, Less(k, 1));
    }
  }

  lemma StepOutcast(s: Sched, op: Op, i: nat, cap: nat, k: nat)
    requires Loose(s) && AnyAllowed(s, op) && Outcast(s, i, cap) && Gone(s.queue, cap, k)
    ensures Outcast(Step(s, op), i, cap) && Gone(Step(s, op).queue, cap, if Switches(op) then Less(k, 1) else k)
  {
    hide Yield, Start, RunEnd;
    match op {
      case DoStart(c) => StartLoose(s, c);
      case DoYield => YieldOutcast(s, i, cap, k);
      case DoExit =>
        AsDeadLoose(s);
        YieldOutcast(AsDead(s), i, cap, k);
      case DoRunEnd => RunEndLoose(s);
      case _ =>
    }
  }

  lemma {:induction false} OutcastForever(s: Sched, ops: seq<Op>, i: nat, cap: nat, k: nat)
    requires Loose(s) && AllAnyAllowed(s, ops) && Outcast(s, i, cap) && Gone(s.queue, cap, k)
    ensures Outcast(RunAny(s, ops), i, cap) && Gone(RunAny(s, ops).queue, cap, Less(k, Turns(ops)))
    decreases ops
  {
    hide OneName, QueueOfReady, Outcast, Gone, Step;
    if ops != [] {
      StepLoose(s, ops[0]);
      StepOutcast(s, ops[0], i, cap, k);
      OutcastForever(Step(s, ops[0]), ops[1..], i, cap, if Switches(ops[0]) then Less(k, 1) else k);
    }
  }

  /**
   * A thread at position k of the queue whose token is revoked stays READY and never runs in any later run,
   * whatever else is revoked; its token leaves the queue within k + 1 yields and never comes back.
   */
  lemma RevokedThreadIsLost(s: Sched, i: nat, k: nat, ops: seq<Op>)
    requires Inv(s) && WaitsAt(s, i, k)
    requires (RevokedLoose(s, s.threads[i].cap); AllAnyAllowed(Revoke(s, s.threads[i].cap), ops))
    ensures Loose(Revoke(s, s.threads[i].cap))
    ensures var t := RunAny(Revoke(s, s.threads[i].cap), ops);
      && t.threads[i].state == Ready && t.current != i && t.threads[i].cap == s.threads[i].cap
      && (Turns(ops) > k ==> s.threads[i].cap !in t.queue)
  {
    var cap := s.threads[i].cap;
    RevokedLoose(s, cap);
    var r := Revoke(s, cap);
    assert Gone(r.queue, cap, k + 1);
    OutcastForever(r, ops, i, cap, k + 1);
    assert Settled(RunAny(r, ops));
  }

  // ----- exactly when READY and queued come apart -------------------------------------------------------------------

  /** No revoked token stands at the head of the queue, so that a yield passes over none. */
  predicate HeadLive(s: Sched) { s.queue == [] || s.queue[0] in s.live }

  lemma NothingDropped(s: Sched)
    requires HeadLive(s)
    ensures Dropped(s) == s
  {
    assert s.queue[0..] == s.queue;
  }

  lemma HandedKeepsQueued(s: Sched, i: nat)
    requires Loose(s) && Queued(s) && s.queue != [] && i < |s.threads| && i != s.current
    requires s.threads[i].state == Ready && s.threads[i].cap == s.queue[0]
    ensures Queued(Handed(s, i))
  {
    HandedLoose(s, i);
    var t, me := Handed(s, i), s.threads[s.current];
    assert me.cap !in s.queue && me.state != Vacant;
    assert s.queue == [s.queue[0]] + s.queue[1..];
    assert s.queue[0] !in s.queue[1..];
    forall c | c in t.queue ensures exists k :: 0 <= k < |t.threads| && Names(t.threads[k], c) {
      var k := QueuedSlot(t, c);
    }
    forall k | 0 <= k < |t.threads| && t.threads[k].state != Vacant
      ensures (t.threads[k].state == Ready <==> t.threads[k].cap in t.queue)
        && (t.threads[k].queued <==> t.threads[k].cap in t.queue)
    {
      assert k != i ==> s.threads[k].cap != s.queue[0];
      assert k != s.current ==> s.threads[k].cap != me.cap;
    }
  }

  lemma DriverKeepsQueued(s: Sched)
    requires Loose(s) && Queued(s) && s.queue == [] && DriverWaits(s)
    ensures Queued(HandedToDriver(s))
  {
    var t, me := HandedToDriver(s), s.threads[s.current];
    forall c | c in t.queue ensures exists k :: 0 <= k < |t.threads| && Names(t.threads[k], c) {
      assert Names(t.threads[s.current], c);
    }
    forall k | 0 <= k < |t.threads| && t.threads[k].state != Vacant && k != s.current
      ensures t.threads[k].cap != me.cap {
    }
  }

  /** A yield keeps READY and queued the same exactly when it dequeues no revoked token. */
  lemma YieldQueuedIff(s: Sched)
    requires Loose(s) && Queued(s)
    ensures Queued(Yield(s)) <==> HeadLive(s)
    ensures !HeadLive(s) ==> exists i :: Outcast(Yield(s), i, s.queue[0]) && Gone(Yield(s).queue, s.queue[0], 0)
  {
    hide Yield, Queued, Loose, Outcast, Gone;
    if HeadLive(s) {
      LiveHeadKeeps(s);
    } else {
      RevokedHeadLost(s);
    }
  }

  lemma LiveHeadKeeps(s: Sched)
    requires Loose(s) && Queued(s) && HeadLive(s)
    ensures Queued(Yield(s))
  {
    hide Yield, Handed, HandedToDriver, Queued, OneName, QueueOfReady, Skip, Dropped;
    NothingDropped(s);
    var i := YieldDrops(s);
    if s.queue != [] {
      HandedKeepsQueued(s, i);
    } else if DriverWaits(s) {
      DriverKeepsQueued(s);
    }
  }

  lemma RevokedHeadLost(s: Sched)
    requires Loose(s) && Queued(s) && !HeadLive(s)
    ensures !Queued(Yield(s))
    ensures exists i :: Outcast(Yield(s), i, s.queue[0]) && Gone(Yield(s).queue, s.queue[0], 0)
  {
    hide Yield, Handed, HandedToDriver;
    var c := s.queue[0];
    var i := QueuedSlot(s, c);
    assert Gone(s.queue, c, 1);
    YieldOutcast(s, i, c, 1);
    OutcastUnqueued(Yield(s), i, c);
  }

  predicate AllLive(queue: seq<nat>, live: set<nat>) { forall c :: c in queue ==> c in live }

  /** The current thread goes back into the queue at a yield. */
  predicate Requeues(s: Sched)
    requires s.current < |s.threads|
  {
    s.threads[s.current].state == Running && s.driver != Some(s.current) && (s.queue != [] || DriverWaits(s))
  }

  /**
   * A yield leaves READY and queued the same, under tokens that are all live, exactly when the tokens before
   * it were all live and so is the current thread's, if that thread goes back into the queue.
   */
  lemma YieldAllLiveIff(s: Sched)
    requires Loose(s) && Queued(s)
    ensures s.current < |s.threads|
    ensures Queued(Yield(s)) && AllLive(Yield(s).queue, s.live) <==>
      AllLive(s.queue, s.live) && (Requeues(s) ==> s.threads[s.current].cap in s.live)
  {
    hide Yield, Queued, OneName, QueueOfReady;
    YieldQueuedIff(s);
    if HeadLive(s) {
      YieldedQueue(s);
      if s.queue != [] {
        assert s.queue == [s.queue[0]] + s.queue[1..];
      }
    } else {
      assert s.queue[0] in s.queue;
    }
  }

  lemma YieldedQueue(s: Sched)
    requires Loose(s) && HeadLive(s)
    ensures s.current < |s.threads|
    ensures Yield(s).queue ==
      (if s.queue == [] then [] else s.queue[1..]) + (if Requeues(s) then [s.threads[s.current].cap] else [])
  {
    hide Yield, OneName, QueueOfReady, Skip, Handed, HandedToDriver, Dropped;
    NothingDropped(s);
    var i := YieldDrops(s);
    var me := s.threads[s.current];
    if s.queue != [] {
      HandedQueue(s, i);
    } else if DriverWaits(s) {
      DriverQueue(s);
    } else {
      assert Yield(s) == s;
    }
  }

  lemma HandedQueue(s: Sched, i: nat)
    requires s.current < |s.threads| && i < |s.threads| && i != s.current && s.queue != []
    ensures var me := s.threads[s.current];
      Handed(s, i).queue == s.queue[1..] + (if me.state == Running && s.driver != Some(s.current) then [me.cap] else [])
  {
  }

  lemma DriverQueue(s: Sched)
    requires s.current < |s.threads| && s.queue == []
    requires s.driver.Some? && s.driver.value < |s.threads| && s.driver.value != s.current
    ensures var me := s.threads[s.current]; HandedToDriver(s).queue == if me.state == Running then [me.cap] else []
  {
  }

  lemma OutcastUnqueued(s: Sched, i: nat, cap: nat)
    requires Outcast(s, i, cap) && Gone(s.queue, cap, 0)
    ensures !Queued(s)
  {
    assert s.threads[i].cap !in s.queue;
  }

  /** Every other step keeps READY and queued the same, revocation included. */
  lemma OtherQueued(s: Sched, op: Op)
    requires Loose(s) && AnyAllowed(s, op) && Queued(s) && !Switches(op)
    ensures Queued(Step(s, op))
  {
    match op {
      case DoCreate(cap, startable) => CreateQueued(s, cap, startable);
      case DoStart(cap) => StartQueued(s, cap);
      case DoRunEnd => RunEndLoose(s);
      case _ =>
    }
  }

  lemma CreateQueued(s: Sched, cap: nat, startable: bool)
    requires Loose(s) && AnyAllowed(s, DoCreate(cap, startable)) && Queued(s)
    ensures Queued(Create(s, cap, startable).0)
  {
    CreateLoose(s, cap, startable);
    var (t, st) := Create(s, cap, startable);
    if st == Ok {
      assert cap !in s.queue by {
        if cap in s.queue {
          var k := QueuedSlot(s, cap);
        }
      }
      forall c | c in t.queue ensures exists k :: 0 <= k < |t.threads| && Names(t.threads[k], c) {
        var k := QueuedSlot(t, c);
      }
    }
  }

  lemma StartQueued(s: Sched, cap: nat)
    requires Loose(s) && Queued(s)
    ensures Queued(Start(s, cap).0)
  {
    StartLoose(s, cap);
    hide Start;
    var (t, st) := Start(s, cap);
    if st == Ok {
      forall c | c in t.queue ensures exists k :: 0 <= k < |t.threads| && Names(t.threads[k], c) {
        var k := QueuedSlot(t, c);
      }
    }
  }

  lemma AsDeadQueued(s: Sched)
    requires Loose(s) && Queued(s) && s.threads[s.current].state == Running
    ensures Queued(AsDead(s))
  {
    AsDeadLoose(s);
    var t := AsDead(s);
    forall c | c in t.queue ensures exists k :: 0 <= k < |t.threads| && Names(t.threads[k], c) {
      var k := QueuedSlot(t, c);
    }
  }

  lemma SwitchQueuedIff(s: Sched, op: Op)
    requires Loose(s) && AnyAllowed(s, op) && Queued(s) && Switches(op)
    ensures Queued(Step(s, op)) <==> HeadLive(s)
    ensures !HeadLive(s) ==> s.queue != []
    ensures !HeadLive(s) ==> exists i :: Outcast(Step(s, op), i, s.queue[0]) && Gone(Step(s, op).queue, s.queue[0], 0)
  {
    hide Yield;
    if op.DoExit? {
      AsDeadLoose(s);
      AsDeadQueued(s);
      YieldQueuedIff(AsDead(s));
    } else {
      YieldQueuedIff(s);
    }
  }

  /** Every yield and exit of the run finds a live token at the head of the queue, or an empty queue. */
  ghost predicate HeadsLive(s: Sched, ops: seq<Op>)
    requires Loose(s) && AllAnyAllowed(s, ops)
    decreases ops
  {
    ops == []
    || ((Switches(ops[0]) ==> HeadLive(s)) && (StepLoose(s, ops[0]); HeadsLive(Step(s, ops[0]), ops[1..])))
  }

  /**
   * After any run with any revocations, a thread is READY exactly if it is queued, once, if and only if no
   * yield of the run met a revoked token at the head of the queue.
   */
  lemma {:induction false} RunQueuedIff(s: Sched, ops: seq<Op>)
    requires Loose(s) && AllAnyAllowed(s, ops) && Queued(s)
    ensures Queued(RunAny(s, ops)) <==> HeadsLive(s, ops)
    decreases ops
  {
    hide OneName, QueueOfReady, Queued, Outcast, Gone, Step, HeadLive;
    if ops != [] {
      var op := ops[0];
      StepLoose(s, op);
      if !Switches(op) {
        OtherQueued(s, op);
        RunQueuedIff(Step(s, op), ops[1..]);
      } else {
        SwitchQueuedIff(s, op);
        if HeadLive(s) {
          RunQueuedIff(Step(s, op), ops[1..]);
        } else {
          var c := s.queue[0];
          var i :| Outcast(Step(s, op), i, c) && Gone(Step(s, op).queue, c, 0);
          OutcastForever(Step(s, op), ops[1..], i, c, 0);
          OutcastUnqueued(RunAny(s, ops), i, c);
        }
      }
    }
  }

  /** A dying thread finds no successor exactly when no queued token is live and no driver waits. */
  lemma DeadStuckIff(s: Sched)
    requires Loose(s) && AnyAllowed(s, DoExit)
    ensures Step(s, DoExit).current == s.current <==> (forall c :: c in s.queue ==> c !in s.live) && !DriverWaits(s)
  {
    hide Yield;
    AsDeadLoose(s);
    var d := AsDead(s);
    var i := YieldDrops(d);
    hide OneName, QueueOfReady;
    var n := Skip(s.queue, s.live);
    if n < |s.queue| {
      assert s.queue[n] in s.queue && s.queue[n] in s.live;
    } else {
      assert forall c :: c in s.queue ==> c !in s.live;
    }
  }
}
