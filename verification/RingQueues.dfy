/**
 * The queue inside a ring: free-running 32-bit counters reduced modulo a caller-chosen size. It is a
 * bounded FIFO for as long as neighbouring positions keep distinct slots, which across the counter's
 * wrap-around depends on the size.
 */
module RingQueues {
  import opened KernelTypes

  const MAX_ENTRIES: nat := 64

  datatype Queue<T> = Queue(entries: nat, head: nat, tail: nat, store: seq<T>)

  predicate Shaped<T>(q: Queue<T>) {
    1 <= q.entries <= MAX_ENTRIES == |q.store| && q.head < TWO32 && q.tail < TWO32
  }

  /** The 32-bit difference of the counters. */
  function Count(head: nat, tail: nat): nat { (tail - head) % TWO32 }

  function Push<T>(q: Queue<T>, x: T): (Queue<T>, Status)
    requires Shaped(q)
  {
    if Count(q.head, q.tail) >= q.entries then (q, Busy)
    else (q.(store := q.store[q.tail % q.entries := x], tail := (q.tail + 1) % TWO32), Ok)
  }

  function Pop<T>(q: Queue<T>): (Queue<T>, Result<T>)
    requires Shaped(q)
  {
    if q.head == q.tail then (q, Bad(NoEnt))
    else (q.(head := (q.head + 1) % TWO32), Good(q.store[q.head % q.entries]))
  }

  // ----- slots ----------------------------------------------------------------------------------------

  /** The slot used by the k-th push of a run. */
  function Slot(entries: nat, k: nat): (r: nat)
    requires entries > 0
    ensures r < entries
  {
    k % TWO32 % entries
  }

  predicate Divides(entries: nat)
    requires entries > 0
  {
    TWO32 % entries == 0
  }

  lemma Multiples(e: nat, d: int)
    ensures d >= 1 ==> e * d >= e
    ensures d <= 0 ==> e * d <= 0
  {
  }

  /** Quotient and remainder are unique. */
  lemma OneQuotient(e: nat, p: int, a: nat, q: int, b: nat)
    requires a < e && b < e && e * p + a == e * q + b
    ensures p == q && a == b
  {
    assert e * (p - q) == e * p - e * q;
    assert e * (q - p) == e * q - e * p;
    Multiples(e, p - q);
    Multiples(e, q - p);
  }

  lemma ModDistance(e: nat, i: nat, j: nat)
    requires e > 0 && i < j < i + e
    ensures i % e != j % e
  {
    if i % e == j % e {
      var p, q := i / e, j / e;
      assert i == e * p + i % e && j == e * q + j % e;
      assert e * (q - p) == e * q - e * p;
      Multiples(e, q - p);
    }
  }

  lemma SlotOfDivisor(e: nat, k: nat)
    requires e > 0 && Divides(e)
    ensures Slot(e, k) == k % e
  {
    var f, c, r := TWO32 / e, k / TWO32, k % TWO32;
    assert TWO32 == e * f && k == TWO32 * c + r;
    assert r == e * (r / e) + r % e;
    assert k == e * (f * c + r / e) + r % e by {
      assert TWO32 * c == e * (f * c);
    }
    Remainder(e, f * c + r / e, r % e);
  }

  lemma Remainder(e: nat, q: nat, r: nat)
    requires e > 0 && r < e
    ensures (e * q + r) % e == r
  {
    var x := e * q + r;
    assert x == e * (x / e) + x % e;
    OneQuotient(e, x / e, x % e, q, r);
  }

  /** Positions closer than the size use different slots, before the first wrap or for a dividing size. */
  lemma SlotsApart(e: nat, i: nat, j: nat)
    requires e > 0 && i < j < i + e && (Divides(e) || j < TWO32)
    ensures Slot(e, i) != Slot(e, j)
  {
    ModDistance(e, i, j);
    if Divides(e) {
      SlotOfDivisor(e, i);
      SlotOfDivisor(e, j);
    }
  }

  /** For any other size the two sides of the wrap-around collide. */
  lemma WrapCollides(e: nat)
    requires 1 <= e <= MAX_ENTRIES && !Divides(e)
    ensures var r := TWO32 % e; 0 < r < e && Slot(e, TWO32 - r) == 0 == Slot(e, TWO32)
  {
    var r := TWO32 % e;
    var q := TWO32 / e;
    assert TWO32 - r == e * q;
    Remainder(e, q, 0);
    assert (TWO32 - r) % TWO32 == TWO32 - r;
  }

  /** Neighbouring positions keep distinct slots over unbounded runs exactly for the sizes that divide 2^32. */
  lemma ApartIffDivides(e: nat)
    requires 1 <= e <= MAX_ENTRIES
    ensures Divides(e) <==> forall i: nat, j: nat :: i < j < i + e ==> Slot(e, i) != Slot(e, j)
  {
    if Divides(e) {
      forall i: nat, j: nat | i < j < i + e ensures Slot(e, i) != Slot(e, j) {
        SlotsApart(e, i, j);
      }
    } else {
      WrapCollides(e);
      assert Slot(e, TWO32 - TWO32 % e) == Slot(e, TWO32);
    }
  }

  // ----- the queue and what went through it ----------------------------------------------------------------

  /** A queue, everything ever accepted into it, and everything ever taken out of it. */
  datatype Track<T> = Track(q: Queue<T>, pushed: seq<T>, taken: seq<T>)

  predicate Counted<T>(t: Track<T>) {
    && Shaped(t.q) && |t.taken| <= |t.pushed| <= |t.taken| + t.q.entries
    && t.q.head == |t.taken| % TWO32 && t.q.tail == |t.pushed| % TWO32
  }

  /** The size divides 2^32, or no more than 2^32 items were ever accepted. */
  predicate Bounded(entries: nat, pushes: nat)
    requires entries > 0
  {
    Divides(entries) || pushes <= TWO32
  }

  predicate Within<T>(t: Track<T>)
    requires Shaped(t.q)
  {
    Bounded(t.q.entries, |t.pushed|)
  }

  /** What was taken is what was accepted first, and every item waiting lies in its slot. */
  ghost predicate Faithful<T>(t: Track<T>)
    requires Counted(t)
  {
    && t.taken == t.pushed[..|t.taken|]
    && forall k :: |t.taken| <= k < |t.pushed| ==> t.q.store[Slot(t.q.entries, k)] == t.pushed[k]
  }

  /** Counters in order always; contents in order within the bound. */
  ghost predicate Fifo<T>(t: Track<T>) {
    Counted(t) && (Within(t) ==> Faithful(t))
  }

  function PushTrack<T>(t: Track<T>, x: T): (Track<T>, Status)
    requires Shaped(t.q)
  {
    var (q, s) := Push(t.q, x);
    (if s == Ok then Track(q, t.pushed + [x], t.taken) else t.(q := q), s)
  }

  function PopTrack<T>(t: Track<T>): (Track<T>, Result<T>)
    requires Shaped(t.q)
  {
    var (q, r) := Pop(t.q);
    (if r.Good? then Track(q, t.pushed, t.taken + [r.value]) else t.(q := q), r)
  }

  /** The counter difference is the number of waiting items, although both counters wrap. */
  lemma CountIsLength(taken: nat, pushed: nat)
    requires taken <= pushed <= taken + MAX_ENTRIES
    ensures Count(taken % TWO32, pushed % TWO32) == pushed - taken
    ensures taken % TWO32 == pushed % TWO32 <==> taken == pushed
  {
    var d, r := pushed - taken, taken % TWO32;
    assert pushed % TWO32 == if r + d < TWO32 then r + d else r + d - TWO32;
  }

  lemma NextCounter(n: nat)
    ensures (n % TWO32 + 1) % TWO32 == (n + 1) % TWO32
  {
  }

  /** A push is accepted exactly when there is room, and appends. */
  lemma PushRefines<T>(t: Track<T>, x: T)
    requires Fifo(t)
    ensures var (t', s) := PushTrack(t, x);
      && Fifo(t') && t'.taken == t.taken && t'.q.entries == t.q.entries
      && (s == Ok <==> |t.pushed| - |t.taken| < t.q.entries) && (s != Ok ==> s == Busy && t' == t)
      && t'.pushed == (if s == Ok then t.pushed + [x] else t.pushed)
  {
    CountIsLength(|t.taken|, |t.pushed|);
    NextCounter(|t.pushed|);
    var (t', s) := PushTrack(t, x);
    if s == Ok && Within(t') {
      PushKeepsContents(t, x);
    }
  }

  lemma PushKeepsContents<T>(t: Track<T>, x: T)
    requires Counted(t) && Within(t) && Faithful(t) && |t.pushed| - |t.taken| < t.q.entries
    requires PushTrack(t, x).1 == Ok && Counted(PushTrack(t, x).0) && Within(PushTrack(t, x).0)
    ensures Faithful(PushTrack(t, x).0)
  {
    var t', e, n := PushTrack(t, x).0, t.q.entries, |t.pushed|;
    assert t.q.tail % e == Slot(e, n);
    forall k | |t.taken| <= k < n + 1 ensures t'.q.store[Slot(e, k)] == t'.pushed[k] {
      if k < n {
        SlotsApart(e, k, n);
      }
    }
  }

  /** A pop succeeds exactly when something waits, and within the bound returns the oldest waiting item. */
  lemma PopRefines<T>(t: Track<T>)
    requires Fifo(t)
    ensures var (t', r) := PopTrack(t);
      && Fifo(t') && t'.pushed == t.pushed && t'.q.entries == t.q.entries
      && (r.Good? <==> |t.taken| < |t.pushed|) && (r.Bad? ==> r.error == NoEnt && t' == t)
      && t'.taken == (if r.Good? then t.taken + [r.value] else t.taken)
      && (r.Good? && Within(t) ==> r.value == t.pushed[|t.taken|])
  {
    CountIsLength(|t.taken|, |t.pushed|);
    NextCounter(|t.taken|);
    if |t.taken| < |t.pushed| && Within(t) {
      assert t.q.head % t.q.entries == Slot(t.q.entries, |t.taken|);
    }
  }

  // ----- every run -------------------------------------------------------------------------------------------

  datatype QueueOp<T> = PushOp(x: T) | PopOp

  function QueueStep<T>(t: Track<T>, op: QueueOp<T>): Track<T>
    requires Shaped(t.q)
  {
    match op
    case PushOp(x) => PushTrack(t, x).0
    case PopOp => PopTrack(t).0
  }

  lemma StepFifo<T>(t: Track<T>, op: QueueOp<T>)
    requires Fifo(t)
    ensures Fifo(QueueStep(t, op)) && QueueStep(t, op).q.entries == t.q.entries
    ensures |QueueStep(t, op).pushed| >= |t.pushed|
  {
    match op {
      case PushOp(x) => PushRefines(t, x);
      case PopOp => PopRefines(t);
    }
  }

  ghost function RunQueue<T>(t: Track<T>, ops: seq<QueueOp<T>>): (r: Track<T>)
    requires Fifo(t)
    ensures Fifo(r) && r.q.entries == t.q.entries
    decreases ops
  {
    if ops == [] then t else (StepFifo(t, ops[0]); RunQueue(QueueStep(t, ops[0]), ops[1..]))
  }

  /**
   * In every run of pushes and pops on a fresh queue, what was taken is a prefix of what was accepted and
   * no more than the size waits: for a size dividing 2^32 without bound, otherwise for 2^32 pushes.
   */
  lemma RunIsFifo<T>(store: seq<T>, entries: nat, ops: seq<QueueOp<T>>)
    requires |store| == MAX_ENTRIES && 1 <= entries <= MAX_ENTRIES
    ensures Fifo(Track(Queue(entries, 0, 0, store), [], []))
    ensures var t := RunQueue(Track(Queue(entries, 0, 0, store), [], []), ops);
      && |t.taken| <= |t.pushed| <= |t.taken| + entries
      && (Bounded(entries, |t.pushed|) ==> t.taken == t.pushed[..|t.taken|])
  {
    assert Fifo(Track(Queue(entries, 0, 0, store), [], []));
    var t := RunQueue(Track(Queue(entries, 0, 0, store), [], []), ops);
    assert Within(t) <==> Bounded(entries, |t.pushed|);
  }

  // ----- what happens past the bound -----------------------------------------------------------------------

  ghost function PushAll<T>(t: Track<T>, xs: seq<T>): (r: Track<T>)
    requires Fifo(t)
    ensures Fifo(r) && r.q.entries == t.q.entries && r.taken == t.taken
    ensures |t.pushed| - |t.taken| + |xs| <= t.q.entries ==> r.pushed == t.pushed + xs
    decreases xs
  {
    if xs == [] then t else (PushRefines(t, xs[0]); PushAll(PushTrack(t, xs[0]).0, xs[1..]))
  }

  lemma {:induction false} PushAllLast<T>(t: Track<T>, xs: seq<T>)
    requires Fifo(t) && xs != [] && |t.pushed| - |t.taken| + |xs| <= t.q.entries
    ensures PushAll(t, xs).q.store[Slot(t.q.entries, |t.pushed| + |xs| - 1)] == xs[|xs| - 1]
    decreases xs
  {
    PushRefines(t, xs[0]);
    CountIsLength(|t.taken|, |t.pushed|);
    var t1 := PushTrack(t, xs[0]).0;
    if |xs| == 1 {
      assert PushAll(t, xs) == PushAll(t1, xs[1..]) == t1;
    } else {
      PushAllLast(t1, xs[1..]);
    }
  }

  /** A pop reads the slot of the next item to take. */
  lemma HeadSlot<T>(t: Track<T>)
    requires Counted(t) && |t.taken| < |t.pushed|
    ensures PopTrack(t).1 == Good(t.q.store[Slot(t.q.entries, |t.taken|)])
  {
    CountIsLength(|t.taken|, |t.pushed|);
  }

  /**
   * For every size that does not divide 2^32: when the queue stands empty just before the wrap-around,
   * r + 1 pushes are all accepted, yet the next pop returns the last of them instead of the first.
   */
  lemma WrapLosesFirst<T>(t: Track<T>, xs: seq<T>)
    requires Fifo(t) && !Divides(t.q.entries)
    requires |t.pushed| == |t.taken| == TWO32 - TWO32 % t.q.entries && |xs| == TWO32 % t.q.entries + 1
    ensures PushAll(t, xs).pushed == t.pushed + xs
    ensures PopTrack(PushAll(t, xs)).1 == Good(xs[|xs| - 1])
  {
    hide PushAll, Divides, Bounded, Faithful;
    WrapCollides(t.q.entries);
    PushAllLast(t, xs);
    var t' := PushAll(t, xs);
    PopRefines(t');
    HeadSlot(t');
    assert |t.pushed| + |xs| - 1 == TWO32;
  }

  // ----- and that it does happen -----------------------------------------------------------------------------

  function FreshQueue<T>(store: seq<T>, entries: nat): Track<T> { Track(Queue(entries, 0, 0, store), [], []) }

  lemma {:induction false} RunAppend<T>(t: Track<T>, a: seq<QueueOp<T>>, b: seq<QueueOp<T>>)
    requires Fifo(t)
    ensures RunQueue(t, a + b) == RunQueue(RunQueue(t, a), b)
    decreases |a|
  {
    TrackEntries(t);
    hide Fifo, QueueStep, Shaped;
    if a == [] {
      assert a + b == b;
    } else {
      StepFifo(t, a[0]);
      assert (a + b)[0] == a[0] && (a + b)[1..] == a[1..] + b;
      RunAppend(QueueStep(t, a[0]), a[1..], b);
    }
  }

  /** Pushing and popping in turn carries an empty queue to every later position. */
  lemma {:induction false} Alternate<T>(t: Track<T>, x: T, n: nat) returns (ops: seq<QueueOp<T>>)
    requires Fifo(t) && |t.pushed| == |t.taken|
    ensures |RunQueue(t, ops).pushed| == |RunQueue(t, ops).taken| == |t.pushed| + n
    decreases n
  {
    hide Fifo, Shaped;
    if n == 0 {
      return [];
    }
    var t2 := PushPop(t, x);
    var rest := Alternate(t2, x, n - 1);
    ops := [PushOp(x), PopOp] + rest;
    PushPopRun(t, x, t2, rest);
  }

  lemma PushPop<T>(t: Track<T>, x: T) returns (t2: Track<T>)
    requires Fifo(t) && |t.pushed| == |t.taken|
    ensures Shaped(t.q) && Shaped(PushTrack(t, x).0.q) && t2 == PopTrack(PushTrack(t, x).0).0
    ensures Fifo(t2) && |t2.pushed| == |t2.taken| == |t.pushed| + 1
  {
    TrackEntries(t);
    hide Fifo, PopTrack, PushTrack, Shaped;
    PushRefines(t, x);
    var t1 := PushTrack(t, x).0;
    TrackEntries(t1);
    PopRefines(t1);
    t2 := PopTrack(t1).0;
  }

  lemma PushPopRun<T>(t: Track<T>, x: T, t2: Track<T>, rest: seq<QueueOp<T>>)
    requires Fifo(t) && Fifo(t2) && Shaped(t.q) && Shaped(PushTrack(t, x).0.q) && t2 == PopTrack(PushTrack(t, x).0).0
    ensures RunQueue(t, [PushOp(x), PopOp] + rest) == RunQueue(t2, rest)
  {
    hide Fifo, PopTrack, PushTrack, Shaped;
    PushRefines(t, x);
    var ops: seq<QueueOp<T>> := [PushOp(x), PopOp] + rest;
    var t1 := PushTrack(t, x).0;
    assert ops[0] == PushOp(x) && ops[1..][0] == PopOp && ops[1..][1..] == rest;
    assert RunQueue(t, ops) == RunQueue(t1, ops[1..]);
  }

  lemma TrackEntries<T>(t: Track<T>)
    requires Fifo(t)
    ensures t.q.entries >= 1 && Shaped(t.q)
  {
  }

  function Pushes<T>(xs: seq<T>): (ops: seq<QueueOp<T>>)
    ensures |ops| == |xs|
  {
    if xs == [] then [] else [PushOp(xs[0])] + Pushes(xs[1..])
  }

  lemma {:induction false} PushesIsPushAll<T>(t: Track<T>, xs: seq<T>)
    requires Fifo(t)
    ensures RunQueue(t, Pushes(xs)) == PushAll(t, xs)
    decreases xs
  {
    if xs != [] {
      PushRefines(t, xs[0]);
      TrackEntries(t);
      hide Fifo, PushTrack, Shaped;
      var ops := Pushes(xs);
      assert ops[0] == PushOp(xs[0]) && ops[1..] == Pushes(xs[1..]);
      PushesIsPushAll(PushTrack(t, xs[0]).0, xs[1..]);
    }
  }

  /** For a size that does not divide 2^32, a run from the fresh queue that takes out the wrong item. */
  lemma WrapReached<T>(store: seq<T>, entries: nat, x: T, y: T) returns (ops: seq<QueueOp<T>>)
    requires |store| == MAX_ENTRIES && 1 <= entries <= MAX_ENTRIES && !Divides(entries) && x != y
    requires Fifo(FreshQueue(store, entries))
    ensures !(RunQueue(FreshQueue(store, entries), ops).taken <= RunQueue(FreshQueue(store, entries), ops).pushed)
  {
    var start, r := FreshQueue(store, entries), TWO32 % entries;
    WrapCollides(entries);
    var before := Alternate(start, x, TWO32 - r);
    var t := RunQueue(start, before);
    var xs := seq(r, i => x) + [y];
    WrapLosesFirst(t, xs);
    PushesIsPushAll(t, xs);
    var t' := PushAll(t, xs);
    TrackEntries(t');
    PopRefines(t');
    hide Fifo, PopTrack, Shaped, Divides;
    ops := (before + Pushes(xs)) + [PopOp];
    RunAppend(start, before, Pushes(xs));
    RunAppend(start, before + Pushes(xs), [PopOp]);
    var end := PopTrack(t').0;
    var pop: seq<QueueOp<T>> := [PopOp];
    assert pop[1..] == [] && RunQueue(t', pop) == RunQueue(end, []) == end;
    assert end.taken == t.taken + [y] && end.pushed == t.pushed + xs;
    assert end.taken[|t.taken|] == y && end.pushed[|t.taken|] == xs[0] == x;
  }

  /**
   * The queue is a FIFO in every run from the fresh queue exactly when its size divides 2^32: what was taken
   * is then always a prefix of what was accepted, and for every other size some run takes an item out of turn.
   */
  lemma FifoIff<T>(store: seq<T>, entries: nat, x: T, y: T)
    requires |store| == MAX_ENTRIES && 1 <= entries <= MAX_ENTRIES && x != y
    ensures Fifo(FreshQueue(store, entries))
    ensures Divides(entries) <==>
      forall ops :: RunQueue(FreshQueue(store, entries), ops).taken <= RunQueue(FreshQueue(store, entries), ops).pushed
  {
    var start := FreshQueue(store, entries);
    assert Fifo(start);
    if Divides(entries) {
      forall ops ensures RunQueue(start, ops).taken <= RunQueue(start, ops).pushed {
        RunIsFifo(store, entries, ops);
      }
    } else {
      var ops := WrapReached(store, entries, x, y);
    }
  }
}
