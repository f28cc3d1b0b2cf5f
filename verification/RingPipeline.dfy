/** The console service working off a ring, and tasks submitting to and polling the rings they own. */
module RingPipeline {
  import opened KernelTypes
  import opened Capabilities
  import opened RingQueues
  import opened Ring

  const CONSOLE_WRITE: nat := 1
  const MAX_WRITE: nat := 128

  /** The outcome of the i-th write of a batch: copying out of the grant, then writing to the console. */
  type Perform = (nat, Desc) -> Status

  predicate Malformed(endpoint: nat, d: Desc) {
    d.op != CONSOLE_WRITE || d.cap != endpoint || d.grant == 0 || d.length == 0 || d.length > MAX_WRITE
  }

  function Outcome(endpoint: nat, perform: Perform, i: nat, d: Desc): Status {
    if Malformed(endpoint, d) then Inval else perform(i, d)
  }

  function Answer(d: Desc, s: Status): Completion {
    Completion(d.op, s, if s == Ok then d.length else 0, d.flags)
  }

  /** The completions of a batch, one for each descriptor in order. */
  function Answers(endpoint: nat, perform: Perform, took: seq<Desc>): (r: seq<Completion>)
    ensures |r| == |took|
  {
    seq(|took|, i requires 0 <= i < |took| => Answer(took[i], Outcome(endpoint, perform, i, took[i])))
  }

  /**
   * What a completion says about its descriptor: it echoes op and flags; its status is Inval for a descriptor that is
   * no write to this endpoint of 1 to 128 bytes out of a grant, and otherwise the outcome of the write; its first
   * result is the length exactly if the status is Ok.
   */
  predicate Reports(c: Completion, d: Desc, endpoint: nat, wrote: Status) {
    && c.op == d.op && c.result1 == d.flags
    && c.status == (if d.op == 1 && d.cap == endpoint && d.grant != 0 && 1 <= d.length <= 128 then wrote else Inval)
    && c.result0 == (if c.status == Ok then d.length else 0)
  }

  lemma AnswerReports(d: Desc, endpoint: nat, perform: Perform, i: nat)
    ensures Reports(Answer(d, Outcome(endpoint, perform, i, d)), d, endpoint, perform(i, d))
  {
  }

  /** Every completion of a batch reports on its descriptor. */
  lemma AnswersReport(endpoint: nat, perform: Perform, took: seq<Desc>, i: nat)
    requires i < |took|
    ensures Reports(Answers(endpoint, perform, took)[i], took[i], endpoint, perform(i, took[i]))
  {
    hide Answer, Outcome, Reports;
    AnswerReports(took[i], endpoint, perform, i);
  }

  // ----- the pipeline -------------------------------------------------------------------------------------

  /** Both queues with what went through them, and where each completion comes from. */
  datatype Pipe = Pipe(sub: Track<Desc>, comp: Track<Completion>, answers: seq<Origin>)

  ghost function Value(ring: RingObject): Pipe
    reads ring, ring.sq, ring.cq
  {
    Pipe(ring.Submissions(), ring.Completions(), ring.answers)
  }

  predicate PipeShaped(p: Pipe) {
    Shaped(p.sub.q) && Shaped(p.comp.q)
  }

  /** One descriptor: consumed first, then answered if the ring may be written and has room. */
  function One(p: Pipe, post: Status, endpoint: nat, perform: Perform, i: nat): (r: (Pipe, Status))
    requires PipeShaped(p)
    ensures PipeShaped(r.0)
  {
    var (sub, r) := PopTrack(p.sub);
    if r.Bad? then (p.(sub := sub), r.error)
    else if post != Ok then (p.(sub := sub), post)
    else
      var st := Outcome(endpoint, perform, i, r.value);
      var (comp, s) := PushTrack(p.comp, Answer(r.value, st));
      if s != Ok then (Pipe(sub, comp, p.answers), s)
      else (Pipe(sub, comp, p.answers + [Origin(|p.sub.taken|, endpoint, perform(i, r.value))]), st)
  }

  /** The batch loop from its i-th round on: it stops at the first round that does not succeed. */
  function Batch(p: Pipe, post: Status, endpoint: nat, perform: Perform, i: nat, count: nat): (Pipe, Status)
    requires PipeShaped(p) && i <= count
    decreases count - i
  {
    if i == count then (p, Ok)
    else
      var (p', s) := One(p, post, endpoint, perform, i);
      if s != Ok then (p', s) else Batch(p', post, endpoint, perform, i + 1, count)
  }

  // ----- its invariant ----------------------------------------------------------------------------------------

  /** Posted completions report on an in-order subsequence of the consumed descriptors. */
  ghost predicate Linked(answers: seq<Origin>, posted: seq<Completion>, consumed: seq<Desc>) {
    && |answers| == |posted| <= |consumed|
    && (forall i, j :: 0 <= i < j < |answers| ==> answers[i].position < answers[j].position)
    && (forall i :: 0 <= i < |answers| ==>
          answers[i].position < |consumed| && ReportsOn(answers[i], posted[i], consumed))
  }

  predicate ReportsOn(a: Origin, c: Completion, consumed: seq<Desc>)
    requires a.position < |consumed|
  {
    Reports(c, consumed[a.position], a.endpoint, a.wrote)
  }

  ghost predicate PipelineOk(p: Pipe) {
    && Fifo(p.sub) && Fifo(p.comp) && p.sub.q.entries == p.comp.q.entries
    && Linked(p.answers, p.comp.pushed, p.sub.taken)
  }

  /** Within the FIFO bound, submitted is consumed followed by what is pending, and what was polled was posted first. */
  lemma PipelineMeaning(p: Pipe)
    requires PipelineOk(p) && Bounded(p.sub.q.entries, |p.sub.pushed|)
    ensures |p.sub.taken| <= |p.sub.pushed| <= |p.sub.taken| + p.sub.q.entries
    ensures p.sub.pushed == p.sub.taken + p.sub.pushed[|p.sub.taken|..]
    ensures |p.comp.taken| <= |p.comp.pushed| <= |p.comp.taken| + p.comp.q.entries
    ensures p.comp.pushed == p.comp.taken + p.comp.pushed[|p.comp.taken|..]
    ensures forall i :: 0 <= i < |p.comp.pushed| ==>
      p.answers[i].position < |p.sub.pushed| && ReportsOn(p.answers[i], p.comp.pushed[i], p.sub.pushed)
  {
    assert Faithful(p.sub);
    assert Faithful(p.comp);
  }

  lemma ConsumedMore(answers: seq<Origin>, posted: seq<Completion>, consumed: seq<Desc>, d: Desc)
    requires Linked(answers, posted, consumed)
    ensures Linked(answers, posted, consumed + [d])
  {
  }

  lemma AnsweredMore(answers: seq<Origin>, posted: seq<Completion>, consumed: seq<Desc>, d: Desc, c: Completion,
                     endpoint: nat, wrote: Status)
    requires Linked(answers, posted, consumed) && Reports(c, d, endpoint, wrote)
    ensures Linked(answers + [Origin(|consumed|, endpoint, wrote)], posted + [c], consumed + [d])
  {
    hide Reports;
    ConsumedMore(answers, posted, consumed, d);
  }

  /** What one round does: nothing waits; or a descriptor is consumed and answered; or it is consumed and lost. */
  ghost predicate RoundDone(p: Pipe, p': Pipe, s: Status, post: Status, endpoint: nat, perform: Perform, i: nat) {
    && p'.sub.pushed == p.sub.pushed && p'.comp.taken == p.comp.taken
    && p'.sub.q.entries == p.sub.q.entries
    && (|p.sub.taken| >= |p.sub.pushed| ==>
          s == NoEnt && p'.sub.taken == p.sub.taken && p'.comp.pushed == p.comp.pushed)
    && (|p.sub.taken| < |p.sub.pushed| ==>
          && |p'.sub.taken| == |p.sub.taken| + 1
          && var d := p'.sub.taken[|p.sub.taken|];
             && p'.sub.taken == p.sub.taken + [d]
             && (p.sub.q.entries > 0 && Bounded(p.sub.q.entries, |p.sub.pushed|) ==> d == p.sub.pushed[|p.sub.taken|])
             && var st := Outcome(endpoint, perform, i, d);
                if post == Ok && |p.comp.pushed| - |p.comp.taken| < p.comp.q.entries
                then p'.comp.pushed == p.comp.pushed + [Answer(d, st)] && s == st
                     && Reports(Answer(d, st), d, endpoint, perform(i, d))
                else p'.comp.pushed == p.comp.pushed && s == if post != Ok then post else Busy)
  }

  lemma OneResult(p: Pipe, post: Status, endpoint: nat, perform: Perform, i: nat)
    requires PipelineOk(p)
    ensures PipelineOk(One(p, post, endpoint, perform, i).0)
    ensures var (p', s) := One(p, post, endpoint, perform, i); RoundDone(p, p', s, post, endpoint, perform, i)
  {
    hide One, RoundDone;
    OneKeeps(p, post, endpoint, perform, i);
    OneRound(p, post, endpoint, perform, i);
  }

  lemma OneKeeps(p: Pipe, post: Status, endpoint: nat, perform: Perform, i: nat)
    requires PipelineOk(p)
    ensures PipelineOk(One(p, post, endpoint, perform, i).0)
  {
    assert PipeShaped(p);
    hide Shaped, Fifo, Linked, Outcome, Answer, Bounded, PopTrack, PushTrack, Reports;
    PopRefines(p.sub);
    var (sub, r) := PopTrack(p.sub);
    if r.Good? {
      var st := Outcome(endpoint, perform, i, r.value);
      PushRefines(p.comp, Answer(r.value, st));
      ConsumedMore(p.answers, p.comp.pushed, p.sub.taken, r.value);
      AnswerReports(r.value, endpoint, perform, i);
      AnsweredMore(p.answers, p.comp.pushed, p.sub.taken, r.value, Answer(r.value, st), endpoint, perform(i, r.value));
    }
  }

  lemma OneRound(p: Pipe, post: Status, endpoint: nat, perform: Perform, i: nat)
    requires PipelineOk(p)
    ensures PipeShaped(p)
    ensures var (p', s) := One(p, post, endpoint, perform, i); RoundDone(p, p', s, post, endpoint, perform, i)
  {
    assert PipeShaped(p);
    hide Shaped, Fifo, Linked, Outcome, Answer, Bounded, PopTrack, PushTrack, Reports;
    PopRefines(p.sub);
    var (sub, r) := PopTrack(p.sub);
    if r.Good? {
      PushRefines(p.comp, Answer(r.value, Outcome(endpoint, perform, i, r.value)));
      AnswerReports(r.value, endpoint, perform, i);
    }
  }

  // ----- what a processing call does ------------------------------------------------------------------------

  /** Each of the first n descriptors is well formed and its write succeeds. */
  ghost predicate AllSucceed(endpoint: nat, perform: Perform, ds: seq<Desc>, n: nat) {
    n <= |ds| && forall i :: 0 <= i < n ==> Outcome(endpoint, perform, i, ds[i]) == Ok
  }

  /**
   * One processing call with result s: took are the descriptors it consumed. All of them are answered in
   * order except possibly the last one; all but the last of the answered ones succeeded, and the call
   * succeeds only if it consumed, answered and performed the whole batch.
   */
  ghost predicate Processed(endpoint: nat, perform: Perform, count: nat, s: Status, took: seq<Desc>, done: nat,
                            posted: seq<Completion>, posted': seq<Completion>)
  {
    && done <= |took| <= done + 1 && |took| <= count
    && posted' == posted + Answers(endpoint, perform, took[..done])
    && AllSucceed(endpoint, perform, took, if done == 0 then 0 else done - 1)
    && (|took| == done + 1 ==> s != Ok && AllSucceed(endpoint, perform, took, done))
    && (s == Ok ==> |took| == done == count && AllSucceed(endpoint, perform, took, count))
  }

  lemma ProcessedMore(endpoint: nat, perform: Perform, count: nat, took: seq<Desc>, d: Desc, s: Status,
                      posted: seq<Completion>, posted': seq<Completion>)
    requires |took| < count && AllSucceed(endpoint, perform, took, |took|)
    requires posted' == posted + Answers(endpoint, perform, took)
    ensures var st := Outcome(endpoint, perform, |took|, d);
      && (st != Ok ==>
            Processed(endpoint, perform, count, st, took + [d], |took| + 1, posted, posted' + [Answer(d, st)]))
      && (st == Ok ==> AllSucceed(endpoint, perform, took + [d], |took| + 1))
      && posted' + [Answer(d, st)] == posted + Answers(endpoint, perform, took + [d])
    ensures s != Ok ==> Processed(endpoint, perform, count, s, took + [d], |took|, posted, posted')
    ensures s != Ok ==> Processed(endpoint, perform, count, s, took, |took|, posted, posted')
  {
    assert (took + [d])[..|took|] == took && (took + [d])[..|took| + 1] == took + [d] && took[..|took|] == took;
  }

  lemma ProcessedAll(endpoint: nat, perform: Perform, took: seq<Desc>, posted: seq<Completion>)
    requires AllSucceed(endpoint, perform, took, |took|)
    ensures Processed(endpoint, perform, |took|, Ok, took, |took|, posted, posted + Answers(endpoint, perform, took))
  {
    assert took[..|took|] == took;
  }

  lemma SucceedsAt(endpoint: nat, perform: Perform, ds: seq<Desc>, n: nat, i: nat)
    requires AllSucceed(endpoint, perform, ds, n) && i < n
    ensures n <= |ds| && Outcome(endpoint, perform, i, ds[i]) == Ok
  {
  }

  lemma TrackLengths<T>(t: Track<T>)
    requires Fifo(t)
    ensures |t.taken| <= |t.pushed| <= |t.taken| + t.q.entries && t.q.entries > 0 && Shaped(t.q)
  {
  }

  /** Nothing stands in the way of a whole batch. */
  ghost predicate Smooth(p: Pipe, post: Status, endpoint: nat, perform: Perform, count: nat)
    requires PipelineOk(p)
  {
    TrackLengths(p.sub);
    && post == Ok && Bounded(p.sub.q.entries, |p.sub.pushed|)
    && |p.comp.pushed| - |p.comp.taken| + count <= p.comp.q.entries
    && AllSucceed(endpoint, perform, p.sub.pushed[|p.sub.taken|..], count)
  }

  /** The loop after its first i rounds, which all succeeded and consumed took. */
  ghost predicate Underway(p0: Pipe, p: Pipe, endpoint: nat, perform: Perform, took: seq<Desc>) {
    && PipelineOk(p) && p.sub.pushed == p0.sub.pushed && p.comp.taken == p0.comp.taken
    && p.sub.q.entries == p0.sub.q.entries
    && p.sub.taken == p0.sub.taken + took
    && p.comp.pushed == p0.comp.pushed + Answers(endpoint, perform, took)
    && AllSucceed(endpoint, perform, took, |took|)
  }

  lemma {:induction false} BatchFrom(p0: Pipe, p: Pipe, post: Status, endpoint: nat, perform: Perform, i: nat,
                                     count: nat, before: seq<Desc>) returns (took: seq<Desc>, done: nat)
    requires PipelineOk(p0) && i <= count && |before| == i && Underway(p0, p, endpoint, perform, before)
    ensures var (p', s) := Batch(p, post, endpoint, perform, i, count);
      && PipelineOk(p') && p'.sub.pushed == p0.sub.pushed && p'.comp.taken == p0.comp.taken
      && p'.sub.taken == p0.sub.taken + took && p'.sub.q.entries == p0.sub.q.entries
      && Processed(endpoint, perform, count, s, took, done, p0.comp.pushed, p'.comp.pushed)
      && (|took| == done + 1 && post == Ok ==> |p'.comp.pushed| - |p'.comp.taken| >= p0.comp.q.entries)
      && (Smooth(p0, post, endpoint, perform, count) ==> s == Ok)
    decreases count - i
  {
    hide Outcome, Answer, Answers, Fifo, Linked, Shaped, Bounded, Processed, Reports;
    if i == count {
      ProcessedAll(endpoint, perform, before, p0.comp.pushed);
      return before, count;
    }
    TrackLengths(p.sub);
    TrackLengths(p.comp);
    var (p', s) := One(p, post, endpoint, perform, i);
    OneResult(p, post, endpoint, perform, i);
    assert Smooth(p0, post, endpoint, perform, count) ==> s == Ok by {
      if Smooth(p0, post, endpoint, perform, count) {
        SmoothRound(p0, p, p', s, post, endpoint, perform, i, count, before);
      }
    }
    var d := if |p.sub.taken| < |p.sub.pushed| then p'.sub.taken[|p.sub.taken|] else NO_DESC;
    ProcessedMore(endpoint, perform, count, before, d, s, p0.comp.pushed, p.comp.pushed);
    hide One, AllSucceed, Smooth;
    if s == Ok {
      assert p'.sub.taken == p0.sub.taken + (before + [d]);
      took, done := BatchFrom(p0, p', post, endpoint, perform, i + 1, count, before + [d]);
    } else if |p.sub.taken| >= |p.sub.pushed| {
      took, done := before, i;
    } else {
      took := before + [d];
      assert p'.sub.taken == p0.sub.taken + took;
      done := if |p'.comp.pushed| == |p.comp.pushed| then i else i + 1;
    }
  }

  lemma SmoothRound(p0: Pipe, p: Pipe, p': Pipe, s: Status, post: Status, endpoint: nat, perform: Perform, i: nat,
                    count: nat, before: seq<Desc>)
    requires PipelineOk(p0) && i < count && |before| == i && Underway(p0, p, endpoint, perform, before)
    requires RoundDone(p, p', s, post, endpoint, perform, i) && Smooth(p0, post, endpoint, perform, count)
    ensures s == Ok
  {
    hide Outcome, Answer, Answers, Fifo, Linked, Shaped, Bounded, Reports;
    TrackLengths(p0.sub);
    TrackLengths(p0.comp);
    var pending := p0.sub.pushed[|p0.sub.taken|..];
    SucceedsAt(endpoint, perform, pending, count, i);
    assert pending[i] == p0.sub.pushed[|p0.sub.taken| + i];
  }

  /**
   * One processing call consumes at most one descriptor more than it answers, and only if the completion
   * queue was full; with room for the whole batch and every write succeeding it succeeds and answers all.
   */
  lemma BatchResult(p: Pipe, post: Status, endpoint: nat, perform: Perform, count: nat)
    returns (took: seq<Desc>, done: nat)
    requires PipelineOk(p)
    ensures PipeShaped(p)
    ensures var (p', s) := Batch(p, post, endpoint, perform, 0, count);
      && PipelineOk(p') && p'.sub.pushed == p.sub.pushed && p'.comp.taken == p.comp.taken
      && p'.sub.taken == p.sub.taken + took && p'.sub.q.entries == p.sub.q.entries
      && Processed(endpoint, perform, count, s, took, done, p.comp.pushed, p'.comp.pushed)
      && (|took| == done + 1 && post == Ok ==> |p'.comp.pushed| - |p'.comp.taken| >= p.comp.q.entries)
      && (Smooth(p, post, endpoint, perform, count) ==> s == Ok)
  {
    TrackLengths(p.sub);
    TrackLengths(p.comp);
    assert p.sub.taken + [] == p.sub.taken && p.comp.pushed + Answers(endpoint, perform, []) == p.comp.pushed;
    hide Fifo, Linked;
    took, done := BatchFrom(p, p, post, endpoint, perform, 0, count, []);
  }

  // ----- exactly how far a processing call gets ------------------------------------------------------------------

  function Smaller(a: nat, b: nat): nat { if a < b then a else b }

  /** The first of the first m descriptors whose write does not succeed, or m. */
  function FirstFailure(endpoint: nat, perform: Perform, ds: seq<Desc>, m: nat, i: nat): (r: nat)
    requires i <= m <= |ds|
    ensures i <= r <= m && (r < m ==> Outcome(endpoint, perform, r, ds[r]) != Ok)
    ensures forall j :: i <= j < r ==> Outcome(endpoint, perform, j, ds[j]) == Ok
    decreases m - i
  {
    if i == m || Outcome(endpoint, perform, i, ds[i]) != Ok then i else FirstFailure(endpoint, perform, ds, m, i + 1)
  }

  /** What waits, and how many answers can be posted. */
  function Pending(p: Pipe): seq<Desc>
    requires |p.sub.taken| <= |p.sub.pushed|
  {
    p.sub.pushed[|p.sub.taken|..]
  }

  function Room(p: Pipe, post: Status): nat
    requires |p.comp.pushed| <= |p.comp.taken| + p.comp.q.entries
  {
    if post != Ok then 0 else p.comp.q.entries + |p.comp.taken| - |p.comp.pushed|
  }

  /** How many descriptors a call consumes and answers, and what it returns. */
  datatype Tally = Tally(took: nat, done: nat, status: Status)

  /** Told from the state before the call: what waits, the room for answers, and the outcome of each write. */
  function Predict(endpoint: nat, perform: Perform, ds: seq<Desc>, room: nat, post: Status, count: nat): (t: Tally)
    ensures t.done <= t.took <= |ds|
    ensures t.took == t.done + 1 <==>
      room < Smaller(count, |ds|) && forall j :: 0 <= j < room ==> Outcome(endpoint, perform, j, ds[j]) == Ok
    ensures t.took == t.done || t.took == t.done + 1
  {
    var m := Smaller(Smaller(count, |ds|), room);
    var f := FirstFailure(endpoint, perform, ds, m, 0);
    if f < m then Tally(f + 1, f + 1, Outcome(endpoint, perform, f, ds[f]))
    else if m == count then Tally(m, m, Ok)
    else if m == |ds| then Tally(m, m, NoEnt)
    else Tally(m + 1, m, if post != Ok then post else Busy)
  }

  /** After i rounds that all succeeded. */
  ghost predicate Reached(p0: Pipe, p: Pipe, endpoint: nat, perform: Perform, ds: seq<Desc>, i: nat) {
    && i <= |ds| && PipelineOk(p) && p.sub.pushed == p0.sub.pushed && p.comp.taken == p0.comp.taken
    && p.sub.q.entries == p0.sub.q.entries
    && p.sub.taken == p0.sub.taken + ds[..i]
    && p.comp.pushed == p0.comp.pushed + Answers(endpoint, perform, ds[..i])
  }

  lemma AnswersMore(endpoint: nat, perform: Perform, ds: seq<Desc>, i: nat)
    requires i < |ds|
    ensures Answers(endpoint, perform, ds[..i + 1]) ==
      Answers(endpoint, perform, ds[..i]) + [Answer(ds[i], Outcome(endpoint, perform, i, ds[i]))]
    ensures ds[..i + 1] == ds[..i] + [ds[i]]
  {
    hide Outcome, Answer;
  }

  lemma {:induction false} ExactFrom(p0: Pipe, p: Pipe, post: Status, endpoint: nat, perform: Perform, i: nat,
                                     count: nat)
    requires PipelineOk(p0) && Bounded(p0.sub.q.entries, |p0.sub.pushed|) && i <= count
    requires |p0.sub.taken| <= |p0.sub.pushed| && |p0.comp.pushed| <= |p0.comp.taken| + p0.comp.q.entries
    requires Reached(p0, p, endpoint, perform, Pending(p0), i) && (i > 0 ==> i <= Room(p0, post))
    requires forall j :: 0 <= j < i ==> Outcome(endpoint, perform, j, Pending(p0)[j]) == Ok
    ensures PipeShaped(p)
    ensures var ds := Pending(p0);
      var t := Predict(endpoint, perform, ds, Room(p0, post), post, count);
      var (p', s) := Batch(p, post, endpoint, perform, i, count);
      && p'.sub.taken == p0.sub.taken + ds[..t.took]
      && p'.comp.pushed == p0.comp.pushed + Answers(endpoint, perform, ds[..t.done]) && s == t.status
    decreases count - i
  {
    hide Outcome, Answer, Answers, Fifo, Linked, Shaped, Bounded, One, Predict, RoundDone, Reports;
    TrackLengths(p.sub);
    TrackLengths(p.comp);
    var ds, room := Pending(p0), Room(p0, post);
    PredictAt(endpoint, perform, ds, room, post, count, i);
    if i < count {
      var (p', s) := One(p, post, endpoint, perform, i);
      OneResult(p, post, endpoint, perform, i);
      RoundReached(p0, p, p', s, post, endpoint, perform, i);
      assert Batch(p, post, endpoint, perform, i, count) ==
        if s != Ok then (p', s) else Batch(p', post, endpoint, perform, i + 1, count);
      if i < |ds| && i < room && s == Ok {
        ExactFrom(p0, p', post, endpoint, perform, i + 1, count);
      }
    }
  }

  /** What the next round does after i that succeeded. */
  lemma RoundReached(p0: Pipe, p: Pipe, p': Pipe, s: Status, post: Status, endpoint: nat, perform: Perform, i: nat)
    requires PipelineOk(p0) && PipelineOk(p') && p0.sub.q.entries > 0 && Bounded(p0.sub.q.entries, |p0.sub.pushed|)
    requires |p0.sub.taken| <= |p0.sub.pushed| && |p0.comp.pushed| <= |p0.comp.taken| + p0.comp.q.entries
    requires Reached(p0, p, endpoint, perform, Pending(p0), i) && RoundDone(p, p', s, post, endpoint, perform, i)
    ensures var ds := Pending(p0);
      && (i == |ds| ==> s == NoEnt && p'.sub.taken == p.sub.taken && p'.comp.pushed == p.comp.pushed)
      && (i < |ds| ==> p'.sub.taken == p0.sub.taken + ds[..i + 1])
      && (i < |ds| && i >= Room(p0, post) ==>
            p'.comp.pushed == p.comp.pushed && s == (if post != Ok then post else Busy))
      && (i < |ds| && i < Room(p0, post) ==>
            s == Outcome(endpoint, perform, i, ds[i]) && Reached(p0, p', endpoint, perform, ds, i + 1))
  {
    hide Outcome, Answer, Answers, Fifo, Linked, Shaped, Bounded, Reports;
    var ds := Pending(p0);
    if i < |ds| {
      AnswersMore(endpoint, perform, ds, i);
      assert p.sub.pushed[|p.sub.taken|] == ds[i];
      assert p0.sub.taken + ds[..i + 1] == p.sub.taken + [ds[i]];
    }
  }

  lemma {:induction false} FailureFrom(endpoint: nat, perform: Perform, ds: seq<Desc>, m: nat, k: nat, i: nat)
    requires k <= i <= m <= |ds| && forall j :: k <= j < i ==> Outcome(endpoint, perform, j, ds[j]) == Ok
    ensures FirstFailure(endpoint, perform, ds, m, k) == FirstFailure(endpoint, perform, ds, m, i)
    decreases i - k
  {
    hide Outcome;
    if k < i {
      FailureFrom(endpoint, perform, ds, m, k + 1, i);
    }
  }

  /** The prediction, once the first i writes are known to succeed. */
  lemma PredictAt(endpoint: nat, perform: Perform, ds: seq<Desc>, room: nat, post: Status, count: nat, i: nat)
    requires i <= count && i <= |ds| && (i > 0 ==> i <= room)
    requires forall j :: 0 <= j < i ==> Outcome(endpoint, perform, j, ds[j]) == Ok
    ensures var t := Predict(endpoint, perform, ds, room, post, count);
      && (i == count ==> t == Tally(i, i, Ok))
      && (i < count && i == |ds| ==> t == Tally(i, i, NoEnt))
      && (i < count && i < |ds| && i >= room ==> t == Tally(i + 1, i, if post != Ok then post else Busy))
      && (i < count && i < |ds| && i < room && Outcome(endpoint, perform, i, ds[i]) != Ok ==>
            t == Tally(i + 1, i + 1, Outcome(endpoint, perform, i, ds[i])))
  {
    hide Outcome;
    FailureFrom(endpoint, perform, ds, Smaller(Smaller(count, |ds|), room), 0, i);
  }

  /**
   * Within the FIFO bound, how far a processing call gets is decided by the state before it. In particular it
   * loses an answer exactly when the room for answers is smaller than the batch and than what waits, and the
   * writes up to the room all succeed.
   */
  lemma BatchExact(p: Pipe, post: Status, endpoint: nat, perform: Perform, count: nat)
    requires PipelineOk(p) && p.sub.q.entries > 0 && Bounded(p.sub.q.entries, |p.sub.pushed|)
    ensures PipeShaped(p) && |p.sub.taken| <= |p.sub.pushed| && |p.comp.pushed| <= |p.comp.taken| + p.comp.q.entries
    ensures var ds := Pending(p);
      var t := Predict(endpoint, perform, ds, Room(p, post), post, count);
      var (p', s) := Batch(p, post, endpoint, perform, 0, count);
      && p'.sub.taken == p.sub.taken + ds[..t.took]
      && p'.comp.pushed == p.comp.pushed + Answers(endpoint, perform, ds[..t.done]) && s == t.status
      && (t.took == t.done + 1 <==>
            Room(p, post) < Smaller(count, |ds|) && AllSucceed(endpoint, perform, ds, Room(p, post)))
  {
    TrackLengths(p.sub);
    TrackLengths(p.comp);
    assert p.sub.taken + [] == p.sub.taken && p.comp.pushed + Answers(endpoint, perform, []) == p.comp.pushed;
    hide Fifo, Linked, Batch, Predict;
    ExactFrom(p, p, post, endpoint, perform, 0, count);
  }

  // ----- the console service -----------------------------------------------------------------------------

  /** The message is well formed, and the ring may be read and is bound to this endpoint. */
  ghost predicate Admitted(k: Tables, bound: nat, token: nat, endpoint: nat, count: nat) {
    && token != 0 && 1 <= count <= MAX_ENTRIES && bound == endpoint
    && RingLookup(k, token, READ) == Ok && (bound != 0 ==> CapCheck(k, bound, SEND, OBJ_ENDPOINT).Good?)
  }

  method ProcessOne(k: Tables, ring: RingObject, token: nat, endpoint: nat, i: nat, perform: Perform)
    returns (s: Status)
    requires PipelineOk(Value(ring)) && PipeShaped(Value(ring)) && Resolves(k, token, ring.objectId)
    requires RingLookup(k, token, READ) == Ok
    modifies ring, ring.sq, ring.cq
    ensures ring.boundTarget == old(ring.boundTarget)
    ensures PipelineOk(Value(ring))
      && (Value(ring), s) == One(old(Value(ring)), RingLookup(k, token, WRITE), endpoint, perform, i)
  {
    hide Fifo, RingLookup, Linked, PopTrack, PushTrack, Shaped, Outcome, Answer, Resolves;
    OneResult(Value(ring), RingLookup(k, token, WRITE), endpoint, perform, i);
    ghost var position := |ring.consumed|;
    var r := ring.Consume(k, token);
    if r.Bad? {
      return r.error;
    }
    var st := Outcome(endpoint, perform, i, r.value);
    s := ring.Complete(k, token, Answer(r.value, st));
    if s != Ok {
      return;
    }
    ring.answers := ring.answers + [Origin(position, endpoint, perform(i, r.value))];
    return st;
  }

  /** The processing message: arguments, rights and binding are checked before anything is consumed. */
  method ProcessRing(k: Tables, ring: RingObject, token: nat, endpoint: nat, count: nat, perform: Perform)
    returns (s: Status)
    requires PipelineOk(Value(ring)) && PipeShaped(Value(ring)) && Resolves(k, token, ring.objectId)
    modifies ring, ring.sq, ring.cq
    ensures PipelineOk(Value(ring)) && ring.boundTarget == old(ring.boundTarget)
    ensures if Admitted(k, old(ring.boundTarget), token, endpoint, count)
      then (Value(ring), s) == Batch(old(Value(ring)), RingLookup(k, token, WRITE), endpoint, perform, 0, count)
      else s != Ok && Value(ring) == old(Value(ring))
  {
    hide PipelineOk, RingLookup, One, Resolves, Shaped, CapCheck, Fifo;
    RingValid(ring);
    if token == 0 || count == 0 {
      return Inval;
    }
    if count > MAX_ENTRIES {
      return Bounds;
    }
    var bound := ring.BoundTarget(k, token);
    if bound.Bad? {
      return bound.error;
    }
    if bound.value != endpoint {
      return Perm;
    }
    ghost var post := RingLookup(k, token, WRITE);
    for i := 0 to count
      invariant PipelineOk(Value(ring)) && PipeShaped(Value(ring)) && ring.boundTarget == old(ring.boundTarget)
      invariant Batch(old(Value(ring)), post, endpoint, perform, 0, count) ==
        Batch(Value(ring), post, endpoint, perform, i, count)
    {
      s := ProcessOne(k, ring, token, endpoint, i, perform);
      if s != Ok {
        return;
      }
    }
    return Ok;
  }

  lemma RingValid(ring: RingObject)
    requires PipelineOk(Value(ring))
    ensures ring.Valid()
  {
  }
}
