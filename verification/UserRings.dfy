/** The rings that tasks own: batches submitted to and polled from them. */
module UserRings {
  import opened KernelTypes
  import opened Capabilities
  import C = CapabilityHistory
  import opened RingQueues
  import opened Ring
  import opened RingPipeline
  import opened CapTable
  import opened Paging
  import opened UserIpc

  const MAX_USER_RINGS: nat := 64

  // ----- batches ---------------------------------------------------------------------------------------

  /** Submits until the first failure; write is the outcome of looking the ring up for writing. */
  function SubmitAll(sub: Track<Desc>, write: Status, ds: seq<Desc>): (r: (Track<Desc>, Status))
    requires Shaped(sub.q)
    ensures Shaped(r.0.q)
    decreases |ds|
  {
    if ds == [] then (sub, Ok)
    else if write != Ok then (sub, write)
    else
      var (sub', s) := PushTrack(sub, ds[0]);
      if s != Ok then (sub', s) else SubmitAll(sub', write, ds[1..])
  }

  /** As many descriptors as there is room for are accepted, in order, and the rest makes the call fail. */
  lemma {:induction false} SubmitAllResult(sub: Track<Desc>, ds: seq<Desc>)
    requires Fifo(sub)
    ensures Shaped(sub.q) && |sub.taken| <= |sub.pushed| <= |sub.taken| + sub.q.entries
    ensures var (sub', s) := SubmitAll(sub, Ok, ds);
      var room := sub.q.entries + |sub.taken| - |sub.pushed|;
      && Fifo(sub') && sub'.taken == sub.taken && sub'.q.entries == sub.q.entries
      && sub'.pushed == sub.pushed + ds[..Smaller(|ds|, room)]
      && s == (if |ds| <= room then Ok else Busy)
    decreases |ds|
  {
    hide Fifo, PushTrack, Shaped;
    TrackLengths(sub);
    if ds == [] {
      assert ds[..0] == [] && sub.pushed + [] == sub.pushed;
    } else {
      PushRefines(sub, ds[0]);
      var (sub', s) := PushTrack(sub, ds[0]);
      if s == Ok {
        SubmitAllResult(sub', ds[1..]);
        var n := Smaller(|ds|, sub.q.entries + |sub.taken| - |sub.pushed|);
        assert ds[..n] == [ds[0]] + ds[1..][..n - 1];
        assert sub.pushed + [ds[0]] + ds[1..][..n - 1] == sub.pushed + ds[..n];
      } else {
        assert sub.pushed + [] == sub.pushed && ds[..0] == [];
      }
    }
  }

  /** Polls at most max completions, until none is left. */
  function PollAll(comp: Track<Completion>, max: nat): (r: (Track<Completion>, seq<Completion>))
    requires Shaped(comp.q)
    ensures Shaped(r.0.q)
    decreases max
  {
    if max == 0 then (comp, [])
    else
      var (comp', r) := PopTrack(comp);
      if r.Bad? then (comp', [])
      else
        var (comp'', rest) := PollAll(comp', max - 1);
        (comp'', [r.value] + rest)
  }

  /** A poll returns the oldest waiting completions, up to the number asked for. */
  lemma {:induction false} PollAllResult(comp: Track<Completion>, max: nat)
    requires Fifo(comp)
    ensures Shaped(comp.q) && |comp.taken| <= |comp.pushed|
    ensures var (comp', got) := PollAll(comp, max);
      && Fifo(comp') && comp'.pushed == comp.pushed && comp'.q.entries == comp.q.entries
      && comp'.taken == comp.taken + got
      && |got| == Smaller(max, |comp.pushed| - |comp.taken|)
      && (Bounded(comp.q.entries, |comp.pushed|) ==> got == comp.pushed[|comp.taken|..|comp.taken| + |got|])
    decreases max
  {
    hide Fifo, PopTrack, Shaped, Bounded, PollAll;
    TrackLengths(comp);
    PollNext(comp, max);
    if max > 0 {
      PopRefines(comp);
      var (comp', r) := PopTrack(comp);
      if r.Good? {
        PollAllResult(comp', max - 1);
        var rest, n := PollAll(comp', max - 1).1, |comp.taken|;
        Prepended(comp.taken, r.value, rest);
        SliceFrom(comp.pushed, n, n + 1 + |rest|);
      }
    }
  }

  lemma Prepended<T>(taken: seq<T>, x: T, rest: seq<T>)
    ensures taken + ([x] + rest) == taken + [x] + rest
  {
  }

  lemma SliceFrom<T>(s: seq<T>, i: nat, j: nat)
    requires i < j <= |s|
    ensures s[i..j] == [s[i]] + s[i + 1..j]
  {
  }

  // ----- a whole round trip ----------------------------------------------------------------------------------

  /**
   * On an idle ring, a batch that fits, finds room for its completions and whose writes all succeed is
   * submitted, consumed and answered completely and in order, and polling then returns the answers.
   */
  lemma BatchRoundTrip(p: Pipe, endpoint: nat, perform: Perform, ds: seq<Desc>)
    requires PipelineOk(p) && |p.sub.taken| == |p.sub.pushed| && |p.comp.taken| == |p.comp.pushed|
    requires |ds| <= p.sub.q.entries && AllSucceed(endpoint, perform, ds, |ds|)
    requires p.sub.q.entries > 0 && Bounded(p.sub.q.entries, |p.sub.pushed| + |ds|)
    ensures PipeShaped(p)
    ensures var p1 := p.(sub := SubmitAll(p.sub, Ok, ds).0);
      var (p2, s) := Batch(p1, Ok, endpoint, perform, 0, |ds|);
      && SubmitAll(p.sub, Ok, ds).1 == Ok && s == Ok
      && p1.sub.pushed == p.sub.pushed + ds && p2.sub.taken == p.sub.taken + ds
      && p2.comp.pushed == p.comp.pushed + Answers(endpoint, perform, ds)
      && PipeShaped(p2) && PollAll(p2.comp, |ds|).1 == Answers(endpoint, perform, ds)
  {
    hide PipelineOk, Bounded, SubmitAll, Batch, PollAll, Answers, AllSucceed, Fifo;
    Unfold(p);
    SubmitAllResult(p.sub, ds);
    assert ds[..|ds|] == ds;
    var p1 := p.(sub := SubmitAll(p.sub, Ok, ds).0);
    Resubmitted(p, p1.sub);
    ProcessPending(p1, endpoint, perform, ds);
    PollBack(Batch(p1, Ok, endpoint, perform, 0, |ds|).0, p.comp.pushed, Answers(endpoint, perform, ds));
  }

  lemma Unfold(p: Pipe)
    requires PipelineOk(p)
    ensures Fifo(p.sub) && Fifo(p.comp) && PipeShaped(p) && p.sub.q.entries == p.comp.q.entries
  {
  }

  lemma Resubmitted(p: Pipe, sub: Track<Desc>)
    requires PipelineOk(p) && Fifo(sub) && sub.taken == p.sub.taken && sub.q.entries == p.sub.q.entries
    ensures PipelineOk(p.(sub := sub))
  {
  }

  lemma ProcessPending(p: Pipe, endpoint: nat, perform: Perform, ds: seq<Desc>)
    requires PipelineOk(p) && |p.sub.taken| + |ds| == |p.sub.pushed| && |p.comp.taken| == |p.comp.pushed|
    requires p.sub.pushed[|p.sub.taken|..] == ds && |ds| <= p.sub.q.entries && AllSucceed(endpoint, perform, ds, |ds|)
    requires p.sub.q.entries > 0 && Bounded(p.sub.q.entries, |p.sub.pushed|)
    ensures PipeShaped(p)
    ensures var (p', s) := Batch(p, Ok, endpoint, perform, 0, |ds|);
      && s == Ok && PipelineOk(p') && p'.sub.pushed == p.sub.pushed && p'.sub.taken == p.sub.taken + ds
      && p'.sub.q.entries == p.sub.q.entries
      && p'.comp.pushed == p.comp.pushed + Answers(endpoint, perform, ds) && p'.comp.taken == p.comp.taken
  {
    Unfold(p);
    var took, done := BatchResult(p, Ok, endpoint, perform, |ds|);
    hide Fifo, Linked, Bounded, Outcome, Batch, Answers;
    assert Smooth(p, Ok, endpoint, perform, |ds|);
    hide AllSucceed, Smooth;
    var p' := Batch(p, Ok, endpoint, perform, 0, |ds|).0;
    TookIsBatch(p'.sub, p.sub.taken, ds, took);
    assert took[..done] == took;
  }

  /** Polling a queue whose waiting completions are cs returns cs. */
  lemma PollBack(p: Pipe, before: seq<Completion>, cs: seq<Completion>)
    requires PipelineOk(p) && p.comp.pushed == before + cs && |p.comp.taken| == |before|
    requires p.sub.q.entries > 0 && Bounded(p.sub.q.entries, |p.sub.pushed|)
    ensures PipeShaped(p) && PollAll(p.comp, |cs|).1 == cs
  {
    hide PipelineOk, Fifo, Bounded, PollAll;
    Unfold(p);
    FewerCompletions(p);
    PollAllResult(p.comp, |cs|);
    SliceBack(before, cs);
  }

  lemma SliceBack<T>(a: seq<T>, b: seq<T>)
    ensures (a + b)[|a|..|a| + |b|] == b
  {
  }

  /** Within the bound, when everything submitted was consumed, it was consumed as submitted. */
  lemma TookIsBatch(sub: Track<Desc>, before: seq<Desc>, ds: seq<Desc>, took: seq<Desc>)
    requires Fifo(sub) && |sub.pushed| == |before| + |ds| && |took| == |ds| && sub.pushed[|before|..] == ds
    requires sub.taken == before + took && Bounded(sub.q.entries, |sub.pushed|)
    ensures took == ds
  {
    assert Faithful(sub);
    assert sub.taken == sub.pushed;
    assert took == sub.taken[|before|..];
  }

  /** Completions never outnumber submissions, so their queue is within the bound too. */
  lemma FewerCompletions(p: Pipe)
    requires PipelineOk(p)
    ensures p.sub.q.entries > 0 && p.comp.q.entries > 0
    ensures Bounded(p.sub.q.entries, |p.sub.pushed|) ==> Bounded(p.comp.q.entries, |p.comp.pushed|)
  {
  }

  // ----- every run of the pipeline ------------------------------------------------------------------------------

  datatype PipeOp =
    | SubmitOp(write: Status, ds: seq<Desc>)
    | ProcessOp(post: Status, endpoint: nat, perform: Perform, count: nat)
    | PollOp(max: nat)

  ghost function PipeStep(p: Pipe, op: PipeOp): Pipe
    requires PipeShaped(p)
  {
    match op
    case SubmitOp(write, ds) => p.(sub := SubmitAll(p.sub, write, ds).0)
    case ProcessOp(post, endpoint, perform, count) => Batch(p, post, endpoint, perform, 0, count).0
    case PollOp(max) => p.(comp := PollAll(p.comp, max).0)
  }

  lemma PipeStepOk(p: Pipe, op: PipeOp)
    requires PipelineOk(p)
    ensures PipeShaped(p) && PipelineOk(PipeStep(p, op))
    ensures PipeStep(p, op).sub.q.entries == p.sub.q.entries
  {
    Unfold(p);
    match op {
      case SubmitOp(write, ds) =>
        if write == Ok {
          SubmitAllResult(p.sub, ds);
        }
        Resubmitted(p, SubmitAll(p.sub, write, ds).0);
      case ProcessOp(post, endpoint, perform, count) =>
        var took, done := BatchResult(p, post, endpoint, perform, count);
      case PollOp(max) =>
        PollAllResult(p.comp, max);
    }
  }

  ghost function RunPipe(p: Pipe, ops: seq<PipeOp>): (r: Pipe)
    requires PipelineOk(p)
    ensures PipelineOk(r) && r.sub.q.entries == p.sub.q.entries
    decreases ops
  {
    if ops == [] then p else (PipeStepOk(p, ops[0]); RunPipe(PipeStep(p, ops[0]), ops[1..]))
  }

  /**
   * In every run of submitted, processed and polled batches on a fresh ring, within the FIFO bound:
   * submitted is consumed followed by pending, and posted completions answer consumed descriptors in order.
   */
  lemma RunKeepsOrder(sq: seq<Desc>, cq: seq<Completion>, entries: nat, ops: seq<PipeOp>)
    requires |sq| == |cq| == MAX_ENTRIES && 1 <= entries <= MAX_ENTRIES
    ensures PipelineOk(FreshPipe(sq, cq, entries))
    ensures var p := RunPipe(FreshPipe(sq, cq, entries), ops);
      Bounded(entries, |p.sub.pushed|) ==>
        && |p.sub.taken| <= |p.sub.pushed| <= |p.sub.taken| + entries
        && p.sub.taken == p.sub.pushed[..|p.sub.taken|]
        && p.comp.taken <= p.comp.pushed
        && |p.answers| == |p.comp.pushed| <= |p.sub.taken|
        && (forall i, j :: 0 <= i < j < |p.answers| ==> p.answers[i].position < p.answers[j].position < |p.sub.taken|)
        && (forall i :: 0 <= i < |p.answers| ==>
              p.answers[i].position < |p.sub.taken| && ReportsOn(p.answers[i], p.comp.pushed[i], p.sub.pushed))
  {
    var f := FreshPipe(sq, cq, entries);
    assert Fifo(f.sub) && Fifo(f.comp);
    var p := RunPipe(f, ops);
    if Bounded(entries, |p.sub.pushed|) {
      PipelineMeaning(p);
    }
  }

  function FreshPipe(sq: seq<Desc>, cq: seq<Completion>, entries: nat): Pipe {
    Pipe(Track(Queue(entries, 0, 0, sq), [], []), Track(Queue(entries, 0, 0, cq), [], []), [])
  }

  // ----- descriptors and completions in user memory --------------------------------------------------------------

  const DESC_BYTES: nat := 48
  const COMPLETION_BYTES: nat := 32

  /** Little-endian. */
  function Word(bytes: seq<nat>): nat { if bytes == [] then 0 else bytes[0] + 256 * Word(bytes[1..]) }

  function DescOf(bytes: seq<nat>): Desc
    requires |bytes| == DESC_BYTES
  {
    Desc(Word(bytes[..8]), Word(bytes[8..16]), Word(bytes[16..24]), Word(bytes[24..32]), Word(bytes[32..40]),
      Word(bytes[40..]))
  }

  /** The descriptor that the active root shows at a user address. */
  function DescAt(m: Machine, ram: nat -> nat, a: nat): Desc {
    DescOf(BytesAt(m, ram, a, DESC_BYTES))
  }

  function DescsAt(m: Machine, ram: nat -> nat, a: nat, count: nat): (ds: seq<Desc>)
    ensures |ds| == count
  {
    seq(count, i requires 0 <= i => DescAt(m, ram, a + DESC_BYTES * i))
  }

  ghost predicate UserRange(m: Machine, a: nat, size: nat, writable: bool) {
    a + size <= TWO64 && UserBytes(m, a, a + size, writable)
  }

  /** Little-endian, n bytes. */
  function WordBytes(w: nat, n: nat): (bytes: seq<nat>)
    ensures |bytes| == n
  {
    if n == 0 then [] else [w % 256] + WordBytes(w / 256, n - 1)
  }

  function Power256(n: nat): nat { if n == 0 then 1 else 256 * Power256(n - 1) }

  lemma {:induction false} WordRoundTrip(w: nat, n: nat)
    requires w < Power256(n)
    ensures Word(WordBytes(w, n)) == w
  {
    if n > 0 {
      WordRoundTrip(w / 256, n - 1);
      assert WordBytes(w, n)[1..] == WordBytes(w / 256, n - 1);
    }
  }

  /** The status codes 0, -1, -2, ... as 64-bit words. */
  function StatusWord(s: Status): (w: nat)
    ensures w < TWO64
  {
    match s
    case Ok => 0
    case Inval => TWO64 - 1
    case NoMem => TWO64 - 2
    case NoEnt => TWO64 - 3
    case Perm => TWO64 - 4
    case Bounds => TWO64 - 5
    case Busy => TWO64 - 6
    case NotSup => TWO64 - 7
  }

  /** In two's complement: adding 1 to 7 to the words of the seven errors, in the order of their codes, gives zero. */
  lemma StatusWords()
    ensures StatusWord(Ok) == 0 && forall s: Status :: StatusWord(s) == 0 <==> s == Ok
    ensures (StatusWord(Inval) + 1) % TWO64 == (StatusWord(NoMem) + 2) % TWO64 == (StatusWord(NoEnt) + 3) % TWO64 == 0
    ensures (StatusWord(Perm) + 4) % TWO64 == (StatusWord(Bounds) + 5) % TWO64 == (StatusWord(Busy) + 6) % TWO64 == 0
    ensures (StatusWord(NotSup) + 7) % TWO64 == 0
  {
  }

  function CompletionBytes(c: Completion): (bytes: seq<nat>)
    ensures |bytes| == COMPLETION_BYTES
  {
    WordBytes(c.op, 8) + WordBytes(StatusWord(c.status), 8) + WordBytes(c.result0, 8) + WordBytes(c.result1, 8)
  }

  /** The bytes are a completion as the user program reads it. */
  predicate IsCompletion(bytes: seq<nat>, c: Completion) {
    && |bytes| == COMPLETION_BYTES
    && Word(bytes[..8]) == c.op && Word(bytes[8..16]) == StatusWord(c.status)
    && Word(bytes[16..24]) == c.result0 && Word(bytes[24..]) == c.result1
  }

  predicate Is64Bit(c: Completion) { c.op < TWO64 && c.result0 < TWO64 && c.result1 < TWO64 }

  lemma CompletionRoundTrip(c: Completion)
    requires Is64Bit(c)
    ensures IsCompletion(CompletionBytes(c), c)
  {
    var bytes := CompletionBytes(c);
    assert Power256(8) == TWO64;
    hide Power256, WordBytes, Word, StatusWord;
    assert bytes[..8] == WordBytes(c.op, 8) && bytes[8..16] == WordBytes(StatusWord(c.status), 8);
    assert bytes[16..24] == WordBytes(c.result0, 8) && bytes[24..] == WordBytes(c.result1, 8);
    WordRoundTrip(c.op, 8);
    WordRoundTrip(StatusWord(c.status), 8);
    WordRoundTrip(c.result0, 8);
    WordRoundTrip(c.result1, 8);
  }

  /** A descriptor as the user program lays it out: op, cap, grant, offset, length and flags, eight bytes each. */
  function DescBytes(d: Desc): (bytes: seq<nat>)
    ensures |bytes| == DESC_BYTES
  {
    WordBytes(d.op, 8) + WordBytes(d.cap, 8) + WordBytes(d.grant, 8)
    + (WordBytes(d.offset, 8) + WordBytes(d.length, 8) + WordBytes(d.flags, 8))
  }

  predicate IsDesc(d: Desc) {
    d.op < TWO64 && d.cap < TWO64 && d.grant < TWO64 && d.offset < TWO64 && d.length < TWO64 && d.flags < TWO64
  }

  lemma DescRoundTrip(d: Desc)
    requires IsDesc(d)
    ensures DescOf(DescBytes(d)) == d
  {
    var bytes := DescBytes(d);
    assert Power256(8) == TWO64;
    hide Power256, WordBytes, Word;
    assert bytes[..8] == WordBytes(d.op, 8) && bytes[8..16] == WordBytes(d.cap, 8);
    assert bytes[16..24] == WordBytes(d.grant, 8) && bytes[24..32] == WordBytes(d.offset, 8);
    assert bytes[32..40] == WordBytes(d.length, 8) && bytes[40..] == WordBytes(d.flags, 8);
    WordRoundTrip(d.op, 8);
    WordRoundTrip(d.cap, 8);
    WordRoundTrip(d.grant, 8);
    WordRoundTrip(d.offset, 8);
    WordRoundTrip(d.length, 8);
    WordRoundTrip(d.flags, 8);
  }

  /** The kernel reads the descriptor that the user stored, if no two of its bytes are the same physical byte. */
  lemma DescReadBack(m: Machine, ram: nat -> nat, a: nat, d: Desc)
    requires IsDesc(d) && UserBytes(m, a, a + DESC_BYTES, true) && NoAlias(m, a, DESC_BYTES)
    ensures DescAt(m, StoreAll(m, ram, a, DescBytes(d)), a) == d
  {
    hide StoreAll, DescBytes, ByteAt, NoAlias, UserBytes, PhysOf, DescOf;
    UserBytesMapped(m, a, a + DESC_BYTES, true);
    StoredReadsBack(m, ram, a, DescBytes(d));
    DescRoundTrip(d);
  }

  /** Completions one after the other. */
  function AllBytes(cs: seq<Completion>): (bytes: seq<nat>)
    ensures |bytes| == COMPLETION_BYTES * |cs|
  {
    if cs == [] then [] else AllBytes(cs[..|cs| - 1]) + CompletionBytes(cs[|cs| - 1])
  }

  lemma {:induction false} BytesOfOne(cs: seq<Completion>, i: nat)
    requires i < |cs|
    ensures AllBytes(cs)[COMPLETION_BYTES * i..COMPLETION_BYTES * (i + 1)] == CompletionBytes(cs[i])
    decreases |cs|
  {
    hide CompletionBytes;
    var front := cs[..|cs| - 1];
    if i < |front| {
      BytesOfOne(front, i);
    }
  }

  /**
   * After completions were stored, the user reads each of them at its place, if no two addresses of the range are
   * the same physical byte.
   */
  lemma PolledReadBack(m: Machine, ram: nat -> nat, a: nat, cs: seq<Completion>, i: nat)
    requires i < |cs| && Is64Bit(cs[i]) && UserBytes(m, a, a + COMPLETION_BYTES * |cs|, true)
    requires NoAlias(m, a, COMPLETION_BYTES * |cs|)
    ensures var ram' := StoreAll(m, ram, a, AllBytes(cs));
      IsCompletion(BytesAt(m, ram', a + COMPLETION_BYTES * i, COMPLETION_BYTES), cs[i])
  {
    hide StoreAll, AllBytes, CompletionBytes, IsCompletion, ByteAt, NoAlias, UserBytes, PhysOf;
    var ram', from, size := StoreAll(m, ram, a, AllBytes(cs)), COMPLETION_BYTES * i, COMPLETION_BYTES * |cs|;
    UserBytesMapped(m, a, a + size, true);
    StoredReadsBack(m, ram, a, AllBytes(cs));
    assert BytesAt(m, ram', a, size)[from..from + COMPLETION_BYTES] == BytesAt(m, ram', a + from, COMPLETION_BYTES);
    BytesOfOne(cs, i);
    CompletionRoundTrip(cs[i]);
  }

  /**
   * From the descriptor that was submitted to the bytes that the user reads: after a poll stored its completions, the
   * words at the i-th place are the op of a submitted descriptor, the status word, the length exactly on success, and
   * its flags; the status is Inval for a descriptor that is no proper write and otherwise the outcome of the write.
   */
  lemma PolledReport(p: Pipe, max: nat, m: Machine, ram: nat -> nat, a: nat, i: nat)
    requires PipelineOk(p) && Bounded(p.sub.q.entries, |p.sub.pushed|)
    ensures PipeShaped(p)
    ensures var got := PollAll(p.comp, max).1;
      i < |got| && Is64Bit(got[i]) && UserBytes(m, a, a + COMPLETION_BYTES * |got|, true)
      && NoAlias(m, a, COMPLETION_BYTES * |got|) ==>
        && |p.comp.taken| + i < |p.answers|
        && var o := p.answers[|p.comp.taken| + i];
           && o.position < |p.sub.pushed|
           && var d := p.sub.pushed[o.position];
              var proper := d.op == 1 && d.cap == o.endpoint && d.grant != 0 && 1 <= d.length <= 128;
              var st := if proper then o.wrote else Inval;
              var bytes := BytesAt(m, StoreAll(m, ram, a, AllBytes(got)), a + 32 * i, 32);
              && Word(bytes[..8]) == d.op && Word(bytes[8..16]) == StatusWord(st)
              && Word(bytes[16..24]) == (if st == Ok then d.length else 0) && Word(bytes[24..]) == d.flags
  {
    hide PollAll, StoreAll, AllBytes, UserBytes, NoAlias, Fifo, Bounded, BytesAt, StatusWord, Word, PipelineOk;
    Unfold(p);
    PollAllResult(p.comp, max);
    FewerCompletions(p);
    PipelineMeaning(p);
    AnswersCount(p);
    var got := PollAll(p.comp, max).1;
    if i < |got| && Is64Bit(got[i]) && UserBytes(m, a, a + COMPLETION_BYTES * |got|, true)
       && NoAlias(m, a, COMPLETION_BYTES * |got|) {
      PolledReadBack(m, ram, a, got, i);
      var n := |p.comp.taken|;
      assert got[i] == p.comp.pushed[n..n + |got|][i] == p.comp.pushed[n + i];
    }
  }

  lemma AnswersCount(p: Pipe)
    requires PipelineOk(p)
    ensures |p.answers| == |p.comp.pushed|
  {
  }

  // ----- the table of user rings ---------------------------------------------------------------------------------

  datatype UserRing = UserRing(inUse: bool, task: nat, ring: nat, target: nat)

  predicate Holds(u: UserRing, task: nat, ring: nat) { u.inUse && u.task == task && u.ring == ring }

  /** The first slot from i on that holds the task's ring. */
  function FirstSlot(us: seq<UserRing>, task: nat, ring: nat, i: nat): (r: Option<nat>)
    requires i <= |us|
    ensures r.Some? ==> i <= r.value < |us| && Holds(us[r.value], task, ring)
    ensures r.None? ==> forall j :: i <= j < |us| ==> !Holds(us[j], task, ring)
    decreases |us| - i
  {
    if i == |us| then None else if Holds(us[i], task, ring) then Some(i) else FirstSlot(us, task, ring, i + 1)
  }

  lemma {:induction false} FirstSlotKept(us: seq<UserRing>, vs: seq<UserRing>, task: nat, ring: nat, i: nat)
    requires |us| == |vs| && i <= |us|
    requires forall j :: 0 <= j < |us| ==> Holds(us[j], task, ring) == Holds(vs[j], task, ring)
    ensures FirstSlot(us, task, ring, i) == FirstSlot(vs, task, ring, i)
    decreases |us| - i
  {
    hide Holds;
    if i < |us| {
      FirstSlotKept(us, vs, task, ring, i + 1);
    }
  }

  const MAX_RINGS: nat := 64
  const RING_RIGHTS: Rights := READ | WRITE | BIND

  /** The first slot of the ring table from i on that holds no ring. */
  function FirstFreeRing(ids: seq<nat>, i: nat): (r: Option<nat>)
    requires i <= |ids|
    ensures r.Some? ==> i <= r.value < |ids| && ids[r.value] == 0
    ensures r.None? ==> forall j :: i <= j < |ids| ==> ids[j] != 0
    decreases |ids| - i
  {
    if i == |ids| then None else if ids[i] == 0 then Some(i) else FirstFreeRing(ids, i + 1)
  }

  /** A ring's object id and token. */
  datatype Made = Made(k: Tables, ids: seq<nat>, ring: Result<(nat, nat)>)

  /** Making an unbound ring: a slot of the ring table, an object and a token; a failing token gives the slot back. */
  function MakeRing(k: Tables, ids: seq<nat>): Made
    requires |k.objects| == |k.objectGens| && |k.caps| == |k.capGens|
  {
    match FirstFreeRing(ids, 0)
    case None => Made(k, ids, Bad(NoMem))
    case Some(j) =>
      var (k1, o) := ObjectCreate(k, OBJ_RING, j);
      match o
      case Bad(s) => Made(k1, ids, Bad(s))
      case Good(id) =>
        var (k2, c) := CapCreate(k1, id, RING_RIGHTS);
        match c
        case Bad(s) => Made(k2, ids, Bad(s))
        case Good(token) => Made(k2, ids[j := id], Good((id, token)))
  }

  /**
   * A ring is made exactly if slots for the ring, its object and its token are free. The token then gives read, write
   * and bind rights to a ring object whose payload is the one slot that changed; otherwise no slot changes.
   */
  lemma MakeRingExact(h: C.History, ids: seq<nat>) returns (j: nat)
    requires C.Recorded(h)
    ensures |h.k.objects| == |h.k.objectGens| && |h.k.caps| == |h.k.capGens|
    ensures var made := MakeRing(h.k, ids);
      && (made.ring.Good? <==> (exists i :: 0 <= i < |ids| && ids[i] == 0) && FreeObjectSlot(h.k) && FreeCapSlot(h.k))
      && (made.ring.Bad? ==> made.ids == ids)
      && (made.ring.Good? ==>
            && j < |ids| && ids[j] == 0 && made.ids == ids[j := made.ring.value.0]
            && ObjectLookup(made.k, made.ring.value.0).Good?
            && ObjectLookup(made.k, made.ring.value.0).value.payload == j
            && Resolves(made.k, made.ring.value.1, made.ring.value.0)
            && RingLookup(made.k, made.ring.value.1, READ) == Ok && RingLookup(made.k, made.ring.value.1, WRITE) == Ok
            && RingLookup(made.k, made.ring.value.1, BIND) == Ok)
  {
    C.RecordedShape(h);
    j := 0;
    var slot := FirstFreeRing(ids, 0);
    if slot.Some? {
      j := slot.value;
      ObjectCreateIff(h.k, OBJ_RING, j);
      C.ObjectMade(h, OBJ_RING, j);
      var o, h1 := ObjectCreate(h.k, OBJ_RING, j).1, C.Step(h, C.NewObject(OBJ_RING, j));
      assert h1.k == ObjectCreate(h.k, OBJ_RING, j).0;
      C.StepRecorded(h, C.NewObject(OBJ_RING, j));
      C.RecordedShape(h1);
      hide C.Recorded, ObjectLookup, ObjectCreate, CapCreate, C.Step, FreeObjectSlot, FreeCapSlot, RingLookup,
        CapLookup;
      if o.Good? {
        CapCreateIff(h1.k, o.value, RING_RIGHTS);
        RingToken(h1, o.value);
        SameFreeCaps(h.k, h1.k);
      }
    }
  }

  lemma SameFreeCaps(k: Tables, k': Tables)
    requires k'.caps == k.caps
    ensures FreeCapSlot(k') <==> FreeCapSlot(k)
  {
  }

  /** What a fresh token over a ring object is good for. */
  lemma RingToken(h: C.History, id: nat)
    requires C.Recorded(h) && ObjectLookup(h.k, id).Good? && ObjectLookup(h.k, id).value.kind == OBJ_RING
    ensures |h.k.caps| == |h.k.capGens|
    ensures var (k, c) := CapCreate(h.k, id, RING_RIGHTS);
      c.Good? ==>
        && ObjectLookup(k, id) == ObjectLookup(h.k, id) && Resolves(k, c.value, id)
        && RingLookup(k, c.value, READ) == Ok && RingLookup(k, c.value, WRITE) == Ok
        && RingLookup(k, c.value, BIND) == Ok
  {
    C.RecordedShape(h);
    if CapCreate(h.k, id, RING_RIGHTS).1.Good? {
      var h2, token := C.Step(h, C.NewCap(id, RING_RIGHTS)), CapCreate(h.k, id, RING_RIGHTS).1.value;
      assert h2.k == CapCreate(h.k, id, RING_RIGHTS).0;
      C.NewCapFrame(h, id, RING_RIGHTS);
      C.MintedLog(h, id, RING_RIGHTS);
      C.StepRecorded(h, C.NewCap(id, RING_RIGHTS));
      TokenResolves(h2, token, id);
      hide C.Recorded, ObjectLookup, CapCreate, C.Step, C.Latest, RingLookup, C.Accepted, Resolves;
      RingRights();
      RingLookupMeaning(h2, token, READ);
      RingLookupMeaning(h2, token, WRITE);
      RingLookupMeaning(h2, token, BIND);
    }
  }

  lemma TokenResolves(h: C.History, token: nat, id: nat)
    requires C.Recorded(h) && C.Accepted(h.k, token).Some? && C.Accepted(h.k, token).value.objectId == id
    ensures Resolves(h.k, token, id)
  {
    LookupIsSlot(h.k, token);
  }

  lemma RingRights()
    ensures Covers(RING_RIGHTS, READ) && Covers(RING_RIGHTS, WRITE) && Covers(RING_RIGHTS, BIND)
  {
  }

  class UserRingTable {
    const slots: array<UserRing>
    /** The object id of the ring in each slot of the ring table; 0 if there is none. */
    const ringIds: array<nat>
    /** The rings each task created. */
    ghost var owned: set<(nat, nat)>

    ghost predicate Valid()
      reads this, slots
    {
      && slots.Length == MAX_USER_RINGS && ringIds.Length == MAX_RINGS
      && (forall i :: 0 <= i < slots.Length && slots[i].inUse ==> (slots[i].task, slots[i].ring) in owned)
      && (forall o :: o in owned ==>
            exists i :: 0 <= i < slots.Length && slots[i].inUse && o == (slots[i].task, slots[i].ring))
    }

    constructor ()
      ensures Valid() && owned == {} && fresh(slots) && fresh(ringIds)
    {
      slots := new UserRing[MAX_USER_RINGS](_ => UserRing(false, 0, 0, 0));
      ringIds := new nat[MAX_RINGS](_ => 0);
      owned := {};
    }

    /** The task created the ring, and both tokens are in force. */
    ghost predicate Owns(k: Tables, task: nat, ring: nat)
      reads this
    {
      && task != 0 && ring != 0 && CapCheck(k, task, READ, OBJ_TASK).Good? && CapCheck(k, ring, READ, OBJ_RING).Good?
      && (task, ring) in owned
    }

    /** The endpoint that the task bound the ring to; 0 if there is none. */
    ghost function TargetOf(task: nat, ring: nat): nat
      reads this, slots
    {
      var i := FirstSlot(slots[..], task, ring, 0);
      if i.Some? then slots[i.value].target else 0
    }

    /** Finds a slot exactly for a ring that the task itself created, with both tokens in force. */
    method SlotFor(k: Tables, task: nat, ring: nat) returns (r: Result<nat>)
      requires Valid()
      ensures r.Good? <==> Owns(k, task, ring)
      ensures r.Good? ==> r.value < slots.Length && FirstSlot(slots[..], task, ring, 0) == Some(r.value)
      ensures r.Bad? ==> r.error != Ok
    {
      if task == 0 || ring == 0 {
        return Bad(Inval);
      }
      CheckError(k, task, READ, OBJ_TASK);
      CheckError(k, ring, READ, OBJ_RING);
      hide CapCheck;
      var c := CapCheck(k, task, READ, OBJ_TASK);
      if c.Bad? {
        return Bad(c.error);
      }
      c := CapCheck(k, ring, READ, OBJ_RING);
      if c.Bad? {
        return Bad(c.error);
      }
      for i := 0 to MAX_USER_RINGS
        invariant FirstSlot(slots[..], task, ring, 0) == FirstSlot(slots[..], task, ring, i)
        invariant forall j :: 0 <= j < i ==> !Holds(slots[j], task, ring)
      {
        if !(!slots[i].inUse || slots[i].task != task || slots[i].ring != ring) {
          return Good(i);
        }
      }
      return Bad(NoEnt);
    }

    /** Makes a ring and registers it for its task, not yet bound. */
    method Create(tables: KernelTables, task: nat, entries: nat) returns (r: Result<nat>, ring: RingObject?)
      requires Valid() && tables.Valid() && ringIds != tables.objectGens && ringIds != tables.capGens
      modifies this`owned, slots, ringIds, tables.objects, tables.objectGens, tables.caps, tables.capGens
      ensures Valid()
      ensures var asked := task != 0 && 1 <= entries <= MAX_ENTRIES
                           && CapCheck(old(tables.Value()), task, READ, OBJ_TASK).Good?
                           && exists i :: 0 <= i < slots.Length && !old(slots[..])[i].inUse;
        if !asked then r.Bad? && tables.Value() == old(tables.Value()) && ringIds[..] == old(ringIds[..])
        else
          var made := MakeRing(old(tables.Value()), old(ringIds[..]));
          && tables.Value() == made.k && ringIds[..] == made.ids
          && (made.ring.Bad? ==> r == Bad(made.ring.error))
          && (made.ring.Good? ==> r == Good(made.ring.value.1) && ring != null && fresh(ring)
                                  && ring.objectId == made.ring.value.0
                                  && PipelineOk(Value(ring)) && ring.entries == entries && ring.boundTarget == 0)
      ensures r.Good? ==>
        && owned == old(owned) + {(task, r.value)}
        && exists i :: 0 <= i < slots.Length && !old(slots[..])[i].inUse
                       && slots[..] == old(slots[..])[i := UserRing(true, task, r.value, 0)]
      ensures r.Bad? ==> owned == old(owned) && slots[..] == old(slots[..])
    {
      hide CapCheck, MakeRing, PipelineOk;
      ring := null;
      if task == 0 {
        return Bad(Inval), null;
      }
      if entries == 0 || entries > MAX_ENTRIES {
        return Bad(Bounds), null;
      }
      var c := tables.CheckCap(task, READ, OBJ_TASK);
      if c.Bad? {
        return Bad(c.error), null;
      }
      for i := 0 to MAX_USER_RINGS
        invariant Valid() && owned == old(owned) && slots[..] == old(slots[..])
        invariant tables.Value() == old(tables.Value()) && ringIds[..] == old(ringIds[..])
        invariant forall j :: 0 <= j < i ==> slots[j].inUse
      {
        if !slots[i].inUse {
          assert !old(slots[..])[i].inUse;
          r, ring := NewRing(tables, entries);
          if r.Good? {
            Register(i, task, r.value);
          }
          return;
        }
      }
      assert forall i :: 0 <= i < slots.Length ==> old(slots[..])[i].inUse;
      return Bad(NoMem), null;
    }

    method Register(i: nat, task: nat, token: nat)
      requires Valid() && i < MAX_USER_RINGS && !slots[i].inUse
      modifies this`owned, slots
      ensures Valid() && owned == old(owned) + {(task, token)}
      ensures slots[..] == old(slots[..])[i := UserRing(true, task, token, 0)]
    {
      ghost var before := slots[..];
      slots[i] := UserRing(true, task, token, 0);
      owned := owned + {(task, token)};
      assert slots[..] == before[i := UserRing(true, task, token, 0)];
      forall o | o in owned
        ensures exists j :: 0 <= j < slots.Length && slots[j].inUse && o == (slots[j].task, slots[j].ring)
      {
        if o == (task, token) {
          assert slots[i].inUse;
        } else {
          var j :| 0 <= j < slots.Length && before[j].inUse && o == (before[j].task, before[j].ring);
          assert slots[j].inUse && o == (slots[j].task, slots[j].ring);
        }
      }
    }

    /** Makes an unbound ring in the first free slot of the ring table. */
    method NewRing(tables: KernelTables, entries: nat) returns (r: Result<nat>, ring: RingObject?)
      requires tables.Valid() && ringIds != tables.objectGens && ringIds != tables.capGens
        && 1 <= entries <= MAX_ENTRIES
      modifies ringIds, tables.objects, tables.objectGens, tables.caps, tables.capGens
      ensures var made := MakeRing(old(tables.Value()), old(ringIds[..]));
        && tables.Value() == made.k && ringIds[..] == made.ids
        && (made.ring.Bad? ==> r == Bad(made.ring.error))
        && (made.ring.Good? ==> r == Good(made.ring.value.1) && ring != null && fresh(ring)
                                && ring.objectId == made.ring.value.0
                                && PipelineOk(Value(ring)) && ring.entries == entries && ring.boundTarget == 0)
    {
      hide ObjectCreate, CapCreate, Fifo;
      ring := null;
      ghost var k, ids := tables.Value(), ringIds[..];
      for j := 0 to ringIds.Length
        invariant ringIds[..] == ids && tables.Value() == k && FirstFreeRing(ids, 0) == FirstFreeRing(ids, j)
      {
        if ringIds[j] == 0 {
          var o := tables.CreateObject(OBJ_RING, j);
          if o.Bad? {
            return Bad(o.error), null;
          }
          ringIds[j] := o.value;
          r := tables.CreateCap(o.value, READ | WRITE | BIND);
          if r.Bad? {
            ringIds[j] := 0;
            assert ringIds[..] == ids;
            return;
          }
          assert ringIds[..] == ids[j := o.value];
          ring := new RingObject(o.value, entries, 0);
          return;
        }
      }
      return Bad(NoMem), null;
    }

    /** Binding a ring that the task owns binds the ring object and remembers the endpoint. */
    method Bind(k: Tables, task: nat, token: nat, target: nat, ring: RingObject) returns (s: Status)
      requires Valid() && ring.Valid() && Resolves(k, token, ring.objectId)
      modifies slots, ring`boundTarget
      ensures Valid() && ring.Valid()
      ensures s == Ok <==>
        && target != 0 && Owns(k, task, token) && CapCheck(k, target, SEND, OBJ_ENDPOINT).Good?
        && RingLookup(k, token, BIND) == Ok
      ensures s == Ok ==> TargetOf(task, token) == target == ring.boundTarget
      ensures s == Ok ==>
        var i := FirstSlot(old(slots[..]), task, token, 0);
        i.Some? && slots[..] == old(slots[..])[i.value := old(slots[..])[i.value].(target := target)]
      ensures s != Ok ==> slots[..] == old(slots[..]) && ring.boundTarget == old(ring.boundTarget)
    {
      hide Fifo, CapCheck, RingLookup;
      if target == 0 {
        return Inval;
      }
      var slot := SlotFor(k, task, token);
      if slot.Bad? {
        return slot.error;
      }
      s := ring.BindTarget(k, token, target);
      if s != Ok {
        return;
      }
      ghost var before := slots[..];
      slots[slot.value] := slots[slot.value].(target := target);
      forall o | o in owned
        ensures exists i :: 0 <= i < slots.Length && slots[i].inUse && o == (slots[i].task, slots[i].ring)
      {
        var i :| 0 <= i < slots.Length && before[i].inUse && o == (before[i].task, before[i].ring);
        assert slots[i].inUse && o == (slots[i].task, slots[i].ring);
      }
      FirstSlotKept(before, slots[..], task, token, 0);
    }

    /** The task owns the ring and has bound it to an endpoint in force. */
    ghost predicate Able(k: Tables, task: nat, token: nat)
      reads this, slots
    {
      && Owns(k, task, token) && TargetOf(task, token) != 0
      && CapCheck(k, TargetOf(task, token), SEND, OBJ_ENDPOINT).Good?
    }

    method Ready(k: Tables, task: nat, token: nat) returns (r: Result<nat>)
      requires Valid()
      ensures r.Good? <==> Able(k, task, token)
      ensures r.Good? ==> r.value == TargetOf(task, token)
      ensures r.Bad? ==> r.error != Ok
    {
      hide CapCheck;
      var slot := SlotFor(k, task, token);
      if slot.Bad? {
        return Bad(slot.error);
      }
      var target := slots[slot.value].target;
      if target == 0 {
        return Bad(Busy);
      }
      var c := CapCheck(k, target, SEND, OBJ_ENDPOINT);
      CheckError(k, target, SEND, OBJ_ENDPOINT);
      if c.Bad? {
        return Bad(c.error);
      }
      return Good(target);
    }

    /**
     * A batch of descriptors: nothing happens unless the task owns a bound ring and the descriptors are
     * readable through the active root; a batch that does not fit is submitted as far as it goes and not
     * processed; a batch that fits is handed to the console service behind the endpoint.
     */
    method SubmitBatch(k: Tables, task: nat, token: nat, m: Machine, ram: nat -> nat, userDescs: nat, count: nat,
                       ring: RingObject, perform: Perform) returns (s: Status)
      requires Valid() && PipelineOk(Value(ring)) && PipeShaped(Value(ring)) && Resolves(k, token, ring.objectId)
      requires Sound(m) && userDescs < TWO64
      modifies ring, ring.sq, ring.cq
      ensures PipelineOk(Value(ring)) && PipeShaped(Value(ring)) && ring.boundTarget == old(ring.boundTarget)
      ensures if 1 <= count <= MAX_ENTRIES && userDescs != 0 && Able(k, task, token)
                 && UserRange(m, userDescs, DESC_BYTES * count, false) then
          var (sub, sent) := SubmitAll(old(Value(ring)).sub, RingLookup(k, token, WRITE),
            DescsAt(m, ram, userDescs, count));
          var p := old(Value(ring)).(sub := sub);
          if sent != Ok then s == sent && Value(ring) == p
          else if ring.boundTarget != TargetOf(task, token) then s != Ok && Value(ring) == p
          else (Value(ring), s) == Batch(p, RingLookup(k, token, WRITE), ring.boundTarget, perform, 0, count)
        else s != Ok && Value(ring) == old(Value(ring))
    {
      hide Fifo, CapCheck, RingLookup, Batch, PipelineOk, Shaped, PushTrack, Resolves, Sound, UserBytes, DescsAt;
      if count == 0 || count > MAX_ENTRIES {
        return Bounds;
      }
      if userDescs == 0 {
        return Inval;
      }
      var ready := Ready(k, task, token);
      if ready.Bad? {
        return ready.error;
      }
      s := ValidateRange(m, userDescs, DESC_BYTES * count, false);
      if s != Ok {
        return;
      }
      s := SendAll(k, token, m, ram, userDescs, count, ring);
      if s != Ok {
        return;
      }
      RingReadable(k, token);
      s := ProcessRing(k, ring, token, ready.value, count, perform);
      Unfold(Value(ring));
    }

    method SendAll(k: Tables, token: nat, m: Machine, ram: nat -> nat, userDescs: nat, count: nat, ring: RingObject)
      returns (s: Status)
      requires PipelineOk(Value(ring)) && PipeShaped(Value(ring)) && Resolves(k, token, ring.objectId)
      requires Sound(m) && userDescs < TWO64 && UserRange(m, userDescs, DESC_BYTES * count, false)
      modifies ring, ring.sq, ring.cq
      ensures PipelineOk(Value(ring)) && PipeShaped(Value(ring)) && ring.boundTarget == old(ring.boundTarget)
      ensures var (sub, sent) := SubmitAll(old(Value(ring)).sub, RingLookup(k, token, WRITE),
        DescsAt(m, ram, userDescs, count));
        Value(ring) == old(Value(ring)).(sub := sub) && s == sent
    {
      hide Fifo, RingLookup, Linked, Shaped, PushTrack, Resolves, Sound, UserByte, ByteAt, DescOf;
      ghost var write, p, ds := RingLookup(k, token, WRITE), Value(ring), DescsAt(m, ram, userDescs, count);
      assert ds[0..] == ds;
      for i := 0 to count
        invariant PipelineOk(Value(ring)) && PipeShaped(Value(ring)) && ring.boundTarget == old(ring.boundTarget)
        invariant Value(ring) == p.(sub := ring.Submissions())
        invariant SubmitAll(p.sub, write, ds) == SubmitAll(ring.Submissions(), write, ds[i..])
      {
        var bytes := CopyFrom(m, ram, userDescs + DESC_BYTES * i, DESC_BYTES);
        var d := DescOf(bytes.value);
        assert d == ds[i];
        PushRefines(ring.Submissions(), d);
        assert ds[i..][0] == ds[i] && ds[i..][1..] == ds[i + 1..];
        s := ring.Submit(k, token, d);
        Unfold(Value(ring));
        if s != Ok {
          return;
        }
      }
      return Ok;
    }

    /**
     * Hands out the oldest waiting completions, as many as are waiting and asked for, to the user's memory one after
     * the other.
     */
    method PollBatch(k: Tables, task: nat, token: nat, m: Machine, ram: nat -> nat, userCompletions: nat, max: nat,
                     ring: RingObject) returns (r: Result<nat>, ram': nat -> nat)
      requires Valid() && PipelineOk(Value(ring)) && PipeShaped(Value(ring)) && Resolves(k, token, ring.objectId)
      requires Sound(m) && userCompletions < TWO64
      modifies ring, ring.sq, ring.cq
      ensures PipelineOk(Value(ring)) && ring.boundTarget == old(ring.boundTarget)
      ensures r.Good? <==>
        && 1 <= max <= MAX_ENTRIES && userCompletions != 0 && Able(k, task, token)
        && UserRange(m, userCompletions, COMPLETION_BYTES * max, true)
      ensures r.Good? ==>
        && var (comp, got) := PollAll(old(Value(ring)).comp, max);
           && Value(ring) == old(Value(ring)).(comp := comp) && r.value == |got|
           && ram' == StoreAll(m, ram, userCompletions, AllBytes(got))
      ensures r.Bad? ==> Value(ring) == old(Value(ring)) && ram' == ram
    {
      hide Fifo, CapCheck, RingLookup, Linked, Shaped, PopTrack, Resolves, PollAll, Sound, UserBytes, StoreAll,
        AllBytes;
      ram' := ram;
      if max == 0 || max > MAX_ENTRIES {
        return Bad(Bounds), ram;
      }
      if userCompletions == 0 {
        return Bad(Inval), ram;
      }
      var ready := Ready(k, task, token);
      if ready.Bad? {
        return Bad(ready.error), ram;
      }
      var s := ValidateRange(m, userCompletions, COMPLETION_BYTES * max, true);
      if s != Ok {
        return Bad(s), ram;
      }
      RingReadable(k, token);
      ghost var got;
      var count;
      count, ram', got := TakeAll(k, token, m, ram, userCompletions, max, ring);
      return Good(count), ram';
    }

    method TakeAll(k: Tables, token: nat, m: Machine, ram: nat -> nat, userCompletions: nat, max: nat, ring: RingObject)
      returns (count: nat, ram': nat -> nat, ghost got: seq<Completion>)
      requires PipelineOk(Value(ring)) && PipeShaped(Value(ring)) && Resolves(k, token, ring.objectId)
      requires RingLookup(k, token, READ) == Ok && Sound(m) && userCompletions < TWO64 && max <= MAX_ENTRIES
      requires UserRange(m, userCompletions, COMPLETION_BYTES * max, true)
      modifies ring, ring.sq, ring.cq
      ensures PipelineOk(Value(ring)) && ring.boundTarget == old(ring.boundTarget)
      ensures (ring.Completions(), got) == PollAll(old(Value(ring)).comp, max) && count == |got|
      ensures Value(ring) == old(Value(ring)).(comp := ring.Completions())
      ensures ram' == StoreAll(m, ram, userCompletions, AllBytes(got))
    {
      hide Fifo, RingLookup, Linked, Shaped, PopTrack, Resolves, PollAll, Sound, StoreAll, AllBytes, CompletionBytes,
        UserBytes, PolledSoFar;
      ghost var p := Value(ring);
      count, ram', got := 0, ram, [];
      NothingStored(m, ram, userCompletions);
      NothingPolled(p.comp, max);
      while count < max
        invariant count == |got| <= max && PipelineOk(Value(ring)) && PipeShaped(Value(ring))
        invariant ring.boundTarget == old(ring.boundTarget) && Value(ring) == p.(comp := ring.Completions())
        invariant PolledSoFar(p.comp, max, ring.Completions(), got)
        invariant ram' == StoreAll(m, ram, userCompletions, AllBytes(got))
      {
        PopRefines(ring.Completions());
        PolledNext(p.comp, max, ring.Completions(), got);
        var c := ring.Poll(k, token);
        Unfold(Value(ring));
        if c.Bad? {
          return;
        }
        RangeInside(m, userCompletions, max, count);
        StoredNext(m, ram, userCompletions, got, c.value);
        var s;
        s, ram' := CopyTo(m, ram', userCompletions + COMPLETION_BYTES * count, CompletionBytes(c.value));
        got := got + [c.value];
        count := count + 1;
      }
      PolledNext(p.comp, max, ring.Completions(), got);
    }
  }

  /** Completions taken so far and the queue left: polling on gives the rest. */
  ghost predicate PolledSoFar(comp: Track<Completion>, max: nat, now: Track<Completion>, got: seq<Completion>) {
    && Shaped(comp.q) && Shaped(now.q) && |got| <= max
    && PollAll(comp, max) == (PollAll(now, max - |got|).0, got + PollAll(now, max - |got|).1)
  }

  lemma PolledNext(comp: Track<Completion>, max: nat, now: Track<Completion>, got: seq<Completion>)
    requires PolledSoFar(comp, max, now, got)
    ensures Shaped(comp.q) && Shaped(now.q)
    ensures |got| == max ==> PollAll(comp, max) == (now, got)
    ensures |got| < max ==>
      var (now', r) := PopTrack(now);
      if r.Bad? then PollAll(comp, max) == (now', got) else PolledSoFar(comp, max, now', got + [r.value])
  {
    hide PopTrack, PollAll, Shaped;
    PollNext(now, max - |got|);
    assert got + [] == got;
    if |got| < max && PopTrack(now).1.Good? {
      var (now', r) := PopTrack(now);
      var rest := PollAll(now', max - |got| - 1).1;
      assert got + ([r.value] + rest) == got + [r.value] + rest;
    }
  }

  lemma NothingPolled(comp: Track<Completion>, max: nat)
    requires Shaped(comp.q)
    ensures PolledSoFar(comp, max, comp, [])
  {
    assert [] + PollAll(comp, max).1 == PollAll(comp, max).1;
  }

  lemma NothingStored(m: Machine, ram: nat -> nat, a: nat)
    ensures StoreAll(m, ram, a, AllBytes([])) == ram
  {
  }

  lemma StoredNext(m: Machine, ram: nat -> nat, a: nat, cs: seq<Completion>, c: Completion)
    ensures StoreAll(m, ram, a, AllBytes(cs + [c])) ==
      StoreAll(m, StoreAll(m, ram, a, AllBytes(cs)), a + COMPLETION_BYTES * |cs|, CompletionBytes(c))
  {
    hide StoreAll, CompletionBytes;
    assert (cs + [c])[..|cs|] == cs;
    StoreConcat(m, ram, a, AllBytes(cs), CompletionBytes(c));
  }

  /** The place of one completion in a range that was accepted as a whole. */
  lemma RangeInside(m: Machine, a: nat, max: nat, i: nat)
    requires UserRange(m, a, COMPLETION_BYTES * max, true) && i < max
    ensures UserRange(m, a + COMPLETION_BYTES * i, COMPLETION_BYTES, true)
    ensures a + COMPLETION_BYTES * i < TWO64
  {
    hide UserByte;
  }

  lemma PollNext(comp: Track<Completion>, max: nat)
    requires Shaped(comp.q)
    ensures max == 0 ==> PollAll(comp, max) == (comp, [])
    ensures max > 0 && PopTrack(comp).1.Bad? ==> PollAll(comp, max) == (PopTrack(comp).0, [])
    ensures max > 0 && PopTrack(comp).1.Good? ==>
      var (comp', r) := PopTrack(comp);
      Shaped(comp'.q) && PollAll(comp, max) == (PollAll(comp', max - 1).0, [r.value] + PollAll(comp', max - 1).1)
  {
  }

  /** A token in force for reading a ring leads to the ring. */
  lemma RingReadable(k: Tables, token: nat)
    requires CapCheck(k, token, READ, OBJ_RING).Good?
    ensures RingLookup(k, token, READ) == Ok
  {
  }
}
