/** A ring object: a submission and a completion queue over fixed storage, and the endpoint it is bound to. */
module Ring {
  import opened KernelTypes
  import opened Capabilities
  import C = CapabilityHistory
  import opened RingQueues

  datatype Desc = Desc(op: nat, cap: nat, grant: nat, offset: nat, length: nat, flags: nat)
  datatype Completion = Completion(op: nat, status: Status, result0: nat, result1: nat)

  /** Where a completion comes from: the descriptor's position, the endpoint served, the outcome of the write. */
  datatype Origin = Origin(position: nat, endpoint: nat, wrote: Status)

  const NO_DESC: Desc := Desc(0, 0, 0, 0, 0, 0)
  const NO_COMPLETION: Completion := Completion(0, Ok, 0, 0)

  /** The outcome of looking a ring token up for some right. */
  function RingLookup(k: Tables, token: nat, required: Rights): Status {
    match CapCheck(k, token, required, OBJ_RING)
    case Bad(s) => s
    case Good(e) => if ObjectLookup(k, e.objectId).Bad? then ObjectLookup(k, e.objectId).error else Ok
  }

  /**
   * A ring token is good for a right exactly if it was last issued for a ring with that right and not revoked since.
   */
  lemma RingLookupMeaning(h: C.History, token: nat, right: Rights)
    requires C.Recorded(h)
    ensures RingLookup(h.k, token, right) == Ok <==>
      var last := C.Latest(h.log, token);
      right != 0 && last.Some? && last.value.Issued? && last.value.kind == OBJ_RING && Covers(last.value.rights, right)
  {
    hide C.Latest, C.GenAfter, ObjectLookup;
    assert C.Agrees(h, token);
    LookupIsSlot(h.k, token);
    CheckError(h.k, token, right, OBJ_RING);
    if SlotAccepts(h.k, token) {
      C.AcceptedNamesObject(h, token);
    }
  }

  /** The token, if it is any good, names the ring with this object id. */
  predicate Resolves(k: Tables, token: nat, objectId: nat) {
    CapLookup(k, token).Good? ==> CapLookup(k, token).value.objectId == objectId
  }

  class RingObject {
    const objectId: nat
    const entries: nat
    const sq: array<Desc>
    const cq: array<Completion>
    var submitHead: nat
    var submitTail: nat
    var completeHead: nat
    var completeTail: nat
    var boundTarget: nat
    /** Everything ever accepted into and taken out of the two queues. */
    ghost var submitted: seq<Desc>
    ghost var consumed: seq<Desc>
    ghost var posted: seq<Completion>
    ghost var polled: seq<Completion>
    /** For each posted completion, the consumed descriptor it answers, for whom, and what its write gave. */
    ghost var answers: seq<Origin>

    ghost function Submissions(): Track<Desc>
      reads this, sq
    {
      Track(Queue(entries, submitHead, submitTail, sq[..]), submitted, consumed)
    }

    ghost function Completions(): Track<Completion>
      reads this, cq
    {
      Track(Queue(entries, completeHead, completeTail, cq[..]), posted, polled)
    }

    ghost predicate Valid()
      reads this, sq, cq
    {
      Fifo(Submissions()) && Fifo(Completions())
    }

    /** Both queues start empty; the storage is as large as the largest ring. */
    constructor (id: nat, size: nat, target: nat)
      requires 1 <= size <= MAX_ENTRIES
      ensures Valid() && objectId == id && entries == size && boundTarget == target
      ensures submitted == consumed == [] && posted == polled == [] && answers == []
      ensures fresh(sq) && fresh(cq)
    {
      objectId, entries, boundTarget := id, size, target;
      sq := new Desc[MAX_ENTRIES](_ => NO_DESC);
      cq := new Completion[MAX_ENTRIES](_ => NO_COMPLETION);
      submitHead, submitTail, completeHead, completeTail := 0, 0, 0, 0;
      submitted, consumed, posted, polled, answers := [], [], [], [], [];
    }

    method BindTarget(k: Tables, token: nat, target: nat) returns (s: Status)
      requires Valid() && Resolves(k, token, objectId)
      modifies this`boundTarget
      ensures Valid() && boundTarget == (if s == Ok then target else old(boundTarget))
      ensures s == Ok <==>
        && target != 0 && CapCheck(k, target, SEND, OBJ_ENDPOINT).Good?
        && RingLookup(k, token, BIND) == Ok
    {
      hide Fifo, CapCheck;
      if target == 0 {
        return Inval;
      }
      var c := CapCheck(k, target, SEND, OBJ_ENDPOINT);
      if c.Bad? {
        CheckError(k, target, SEND, OBJ_ENDPOINT);
        return c.error;
      }
      s := RingLookup(k, token, BIND);
      if s != Ok {
        return;
      }
      boundTarget := target;
    }

    /** The bound endpoint, as long as its token is still in force. */
    method BoundTarget(k: Tables, token: nat) returns (r: Result<nat>)
      requires Valid() && Resolves(k, token, objectId)
      ensures r.Good? <==>
        && RingLookup(k, token, READ) == Ok
        && (boundTarget != 0 ==> CapCheck(k, boundTarget, SEND, OBJ_ENDPOINT).Good?)
      ensures r.Good? ==> r.value == boundTarget
      ensures r.Bad? ==> r.error != Ok
    {
      hide Fifo, CapCheck;
      var s := RingLookup(k, token, READ);
      if s != Ok {
        return Bad(s);
      }
      if boundTarget != 0 {
        var c := CapCheck(k, boundTarget, SEND, OBJ_ENDPOINT);
        if c.Bad? {
          CheckError(k, boundTarget, SEND, OBJ_ENDPOINT);
          return Bad(c.error);
        }
      }
      return Good(boundTarget);
    }

    method Submit(k: Tables, token: nat, d: Desc) returns (s: Status)
      requires Valid() && Resolves(k, token, objectId)
      modifies this`submitTail, this`submitted, sq
      ensures Valid() && Completions() == old(Completions())
      ensures (Submissions(), s) ==
        (if RingLookup(k, token, WRITE) != Ok then (old(Submissions()), RingLookup(k, token, WRITE))
         else PushTrack(old(Submissions()), d))
    {
      hide Fifo, RingLookup;
      s := RingLookup(k, token, WRITE);
      if s != Ok {
        return;
      }
      ghost var t := Submissions();
      PushRefines(t, d);
      FifoShape(t);
      if (submitTail - submitHead) % TWO32 >= entries {
        return Busy;
      }
      sq[submitTail % entries] := d;
      submitTail := (submitTail + 1) % TWO32;
      submitted := submitted + [d];
      assert sq[..] == t.q.store[t.q.tail % entries := d];
      return Ok;
    }

    method Consume(k: Tables, token: nat) returns (r: Result<Desc>)
      requires Valid() && Resolves(k, token, objectId)
      modifies this`submitHead, this`consumed
      ensures Valid() && Completions() == old(Completions())
      ensures (Submissions(), r) ==
        (if RingLookup(k, token, READ) != Ok then (old(Submissions()), Bad(RingLookup(k, token, READ)))
         else PopTrack(old(Submissions())))
    {
      hide Fifo, RingLookup;
      var s := RingLookup(k, token, READ);
      if s != Ok {
        return Bad(s);
      }
      ghost var t := Submissions();
      PopRefines(t);
      FifoShape(t);
      if submitHead == submitTail {
        return Bad(NoEnt);
      }
      var d := sq[submitHead % entries];
      submitHead := (submitHead + 1) % TWO32;
      consumed := consumed + [d];
      return Good(d);
    }

    method Complete(k: Tables, token: nat, c: Completion) returns (s: Status)
      requires Valid() && Resolves(k, token, objectId)
      modifies this`completeTail, this`posted, cq
      ensures Valid() && Submissions() == old(Submissions())
      ensures (Completions(), s) ==
        (if RingLookup(k, token, WRITE) != Ok then (old(Completions()), RingLookup(k, token, WRITE))
         else PushTrack(old(Completions()), c))
    {
      hide Fifo, RingLookup;
      s := RingLookup(k, token, WRITE);
      if s != Ok {
        return;
      }
      ghost var t := Completions();
      PushRefines(t, c);
      FifoShape(t);
      if (completeTail - completeHead) % TWO32 >= entries {
        return Busy;
      }
      cq[completeTail % entries] := c;
      completeTail := (completeTail + 1) % TWO32;
      posted := posted + [c];
      assert cq[..] == t.q.store[t.q.tail % entries := c];
      return Ok;
    }

    method Poll(k: Tables, token: nat) returns (r: Result<Completion>)
      requires Valid() && Resolves(k, token, objectId)
      modifies this`completeHead, this`polled
      ensures Valid() && Submissions() == old(Submissions())
      ensures (Completions(), r) ==
        (if RingLookup(k, token, READ) != Ok then (old(Completions()), Bad(RingLookup(k, token, READ)))
         else PopTrack(old(Completions())))
    {
      hide Fifo, RingLookup;
      var s := RingLookup(k, token, READ);
      if s != Ok {
        return Bad(s);
      }
      ghost var t := Completions();
      PopRefines(t);
      FifoShape(t);
      if completeHead == completeTail {
        return Bad(NoEnt);
      }
      var c := cq[completeHead % entries];
      completeHead := (completeHead + 1) % TWO32;
      polled := polled + [c];
      return Good(c);
    }
  }

  lemma FifoShape<T>(t: Track<T>)
    requires Fifo(t)
    ensures Shaped(t.q) && t.q.tail % t.q.entries < t.q.entries && t.q.head % t.q.entries < t.q.entries
  {
  }

  lemma CheckError(k: Tables, token: nat, required: Rights, kind: nat)
    ensures CapCheck(k, token, required, kind).Bad? ==> CapCheck(k, token, required, kind).error != Ok
  {
  }
}
