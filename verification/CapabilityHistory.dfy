/** What capability checks mean over whole runs, and how long a revoked token stays rejected. */
module CapabilityHistory {
  import opened KernelTypes
  import opened Capabilities

  // ----- what was issued and revoked ----------------------------------------------------------------

  datatype Event = Issued(token: nat, objectId: nat, kind: nat, rights: Rights) | Withdrawn(token: nat)

  /** The tables together with everything issued and revoked so far and how often each slot's generation moved. */
  datatype History = History(k: Tables, log: seq<Event>, uses: seq<nat>)

  /** The last thing that happened to a token. */
  function Latest(log: seq<Event>, token: nat): Option<Event> {
    if log == [] then None
    else if log[|log| - 1].token == token then Some(log[|log| - 1])
    else Latest(log[..|log| - 1], token)
  }

  lemma LatestAfter(log: seq<Event>, e: Event, token: nat)
    ensures Latest(log + [e], token) == if e.token == token then Some(e) else Latest(log, token)
  {
    assert (log + [e])[..|log|] == log;
  }

  datatype Op = NewObject(kind: nat, payload: nat) | NewCap(objectId: nat, rights: Rights) | Revoke(token: nat)

  function Step(h: History, op: Op): History
    requires |h.k.objects| == |h.k.objectGens| && |h.k.caps| == |h.k.capGens|
  {
    match op
    case NewObject(kind, payload) => h.(k := ObjectCreate(h.k, kind, payload).0)
    case NewCap(objectId, rights) =>
      var (k, r) := CapCreate(h.k, objectId, rights);
      if r.Bad? then h
      else
        var o := ObjectLookup(h.k, objectId);
        if o.Bad? then h
        else History(k, h.log + [Issued(r.value, o.value.id, o.value.kind, rights)], Used(h.uses, IndexOf(r.value)))
    case Revoke(token) =>
      var (k, s) := CapRevoke(h.k, token);
      if s != Ok then h else History(k, h.log + [Withdrawn(token)], Used(h.uses, IndexOf(token)))
  }

  function Used(uses: seq<nat>, i: nat): seq<nat> {
    if i < |uses| then uses[i := uses[i] + 1] else uses
  }

  // ----- generations -----------------------------------------------------------------------------------

  /** The generations of a slot run through 1 to 2^32 - 1 and start over. */
  const CYCLE: nat := 0xffff_ffff

  /** The generation of a slot after its generation moved n times. */
  function GenAfter(n: nat): nat { if n == 0 then 0 else 1 + (n - 1) % CYCLE }

  lemma NextGenAfter(n: nat)
    ensures NextGen(GenAfter(n)) == GenAfter(n + 1) && GenAfter(n) < TWO32 && 0 < GenAfter(n + 1) < TWO32
  {
    if n > 0 {
      var q, r := (n - 1) / CYCLE, (n - 1) % CYCLE;
      assert n - 1 == CYCLE * q + r;
      if r + 1 < CYCLE {
        assert n == CYCLE * q + (r + 1);
        assert n % CYCLE == r + 1;
      } else {
        assert n == CYCLE * (q + 1);
        assert n % CYCLE == 0;
      }
    }
  }

  lemma SameRemainder(a: nat, b: nat)
    requires a <= b
    ensures a % CYCLE == b % CYCLE <==> (b - a) % CYCLE == 0
  {
    var q, p := a / CYCLE, b / CYCLE;
    assert a == CYCLE * q + a % CYCLE && b == CYCLE * p + b % CYCLE;
    if a % CYCLE == b % CYCLE {
      assert b - a == CYCLE * (p - q);
    }
    if (b - a) % CYCLE == 0 {
      var d := (b - a) / CYCLE;
      assert b == CYCLE * (q + d) + a % CYCLE;
    }
  }

  /** Two moves apart by an even number less than two cycles never meet: the cycle length is odd. */
  lemma EvenGap(d: nat)
    requires d % 2 == 0
    ensures d % CYCLE == 0 <==> d % (2 * CYCLE) == 0
  {
    if d % CYCLE == 0 {
      EvenMultiple(d, d / CYCLE);
    }
    if d % (2 * CYCLE) == 0 {
      DoubleMultiple(d);
    }
  }

  lemma DoubleMultiple(d: nat)
    requires d % (2 * CYCLE) == 0
    ensures d % CYCLE == 0
  {
    var q := d / (2 * CYCLE);
    assert d == CYCLE * (2 * q);
  }

  lemma EvenMultiple(d: nat, q: nat)
    requires d % 2 == 0 && d == CYCLE * q
    ensures d % (2 * CYCLE) == 0
  {
    assert d == 2 * (0x7fff_ffff * q) + q;
    assert d == 2 * CYCLE * (q / 2);
  }

  /** The token a slot issues when its generation moves for the (2c - 1)-th time, its c-th issue. */
  function NthToken(index: nat, c: nat): nat
    requires c >= 1
  {
    MakeToken(index, GenAfter(2 * c - 1))
  }

  /** A slot issues 2^32 - 1 pairwise distinct tokens, and then the first one again. */
  lemma TokensDistinct(index: nat, c: nat, d: nat)
    requires index < MAX_CAPS && 1 <= c < d
    ensures NthToken(index, c) == NthToken(index, d) <==> (d - c) % CYCLE == 0
    ensures d - c < CYCLE ==> NthToken(index, c) != NthToken(index, d)
  {
    var a, b := 2 * c - 2, 2 * d - 2;
    TokenParts(index, GenAfter(2 * c - 1));
    TokenParts(index, GenAfter(2 * d - 1));
    SameRemainder(a, b);
    EvenGap(b - a);
    HalfGap(d - c);
  }

  lemma HalfGap(d: nat)
    ensures (2 * d) % (2 * CYCLE) == 0 <==> d % CYCLE == 0
  {
    if (2 * d) % (2 * CYCLE) == 0 {
      var q := 2 * d / (2 * CYCLE);
      assert d == CYCLE * q;
    }
    if d % CYCLE == 0 {
      var q := d / CYCLE;
      assert 2 * d == 2 * CYCLE * q;
    }
  }

  // ----- the tables agree with the history -------------------------------------------------------------

  /** What the slot of a token says is what was last issued for it, and nothing else counts as issued. */
  ghost predicate Agrees(h: History, token: nat) {
    var last := Latest(h.log, token);
    && (SlotAccepts(h.k, token) <==> last.Some? && last.value.Issued?)
    && (SlotAccepts(h.k, token) ==>
          var e := h.k.caps[IndexOf(token)];
          last.value == Issued(token, e.objectId, e.kind, e.rights))
  }

  /** Creation and revocation alternate on every slot, and the generation counts them. */
  ghost predicate Alternates(h: History) {
    && |h.uses| == MAX_CAPS == |h.k.caps| == |h.k.capGens|
    && forall i :: 0 <= i < MAX_CAPS ==>
         h.k.capGens[i] == GenAfter(h.uses[i]) && (SlotTaken(h.k.caps[i]) <==> h.uses[i] % 2 == 1)
  }

  ghost predicate Recorded(h: History) {
    TablesOk(h.k) && Alternates(h) && forall token :: Agrees(h, token)
  }

  function Start(): History { History(InitialTables(), [], seq(MAX_CAPS, i => 0)) }

  lemma StartRecorded()
    ensures Recorded(Start())
  {
  }

  lemma ObjectsKeepEntries(k: Tables, k': Tables)
    requires forall id :: ObjectLookup(k, id).Good? ==> ObjectLookup(k', id) == ObjectLookup(k, id)
    ensures forall e :: EntryOk(k, e) ==> EntryOk(k', e)
  {
  }

  lemma NewObjectRecorded(h: History, kind: nat, payload: nat)
    requires Recorded(h)
    ensures Recorded(Step(h, NewObject(kind, payload)))
  {
    var k' := ObjectCreate(h.k, kind, payload).0;
    LookupCreated(h.k, kind, payload);
    ObjectsKeepEntries(h.k, k');
    var t := h.(k := k');
    forall token ensures Agrees(t, token) {
      assert Agrees(h, token);
      assert SlotAccepts(k', token) == SlotAccepts(h.k, token);
    }
  }

  lemma SameObjects(k: Tables, k': Tables)
    requires k'.objects == k.objects && k'.objectGens == k.objectGens
    ensures forall id :: ObjectLookup(k', id) == ObjectLookup(k, id)
    ensures forall e :: EntryOk(k', e) == EntryOk(k, e)
  {
  }

  lemma NewCapRecorded(h: History, objectId: nat, rights: Rights)
    requires Recorded(h)
    ensures Recorded(Step(h, NewCap(objectId, rights)))
  {
    hide NextGen, GenAfter, IndexOf, GenerationOf, MakeToken, Agrees;
    var (k', r) := CapCreate(h.k, objectId, rights);
    if r.Good? {
      var i := FirstFreeCap(h.k.caps, 0).value;
      NextGenAfter(h.uses[i]);
      SameObjects(h.k, k');
      FoundIsItself(h.k, objectId);
      var t := Step(h, NewCap(objectId, rights));
      TokenParts(i, NextGen(h.k.capGens[i]));
      assert EntryOk(k', k'.caps[i]);
      assert TablesOk(k') && Alternates(t);
      forall token ensures Agrees(t, token) {
        NewCapAgrees(h, objectId, rights, token);
      }
    }
  }

  lemma NewCapAgrees(h: History, objectId: nat, rights: Rights, token: nat)
    requires Recorded(h) && CapCreate(h.k, objectId, rights).1.Good?
    ensures Agrees(Step(h, NewCap(objectId, rights)), token)
  {
    hide EntryOk;
    var i := FirstFreeCap(h.k.caps, 0).value;
    var g := NextGen(h.k.capGens[i]);
    var t := Step(h, NewCap(objectId, rights));
    NextGenAfter(h.uses[i]);
    TokenParts(i, g);
    assert Agrees(h, token);
    TokenWhole(token);
    LatestAfter(h.log, t.log[|h.log|], token);
  }

  lemma FoundIsItself(k: Tables, id: nat)
    requires ObjectLookup(k, id).Good?
    ensures ObjectLookup(k, id).value.id == id
  {
  }

  lemma RevokeRecorded(h: History, token: nat)
    requires Recorded(h)
    ensures Recorded(Step(h, Revoke(token)))
  {
    var (k', s) := CapRevoke(h.k, token);
    if s == Ok {
      var i := IndexOf(token);
      LookupIsSlot(h.k, token);
      NextGenAfter(h.uses[i]);
      SameObjects(h.k, k');
      var t := Step(h, Revoke(token));
      assert EntryOk(h.k, h.k.caps[i]);
      forall other ensures Agrees(t, other) {
        assert Agrees(h, other);
        TokenWhole(other);
        TokenWhole(token);
        LatestAfter(h.log, Withdrawn(token), other);
      }
    }
  }

  lemma StepRecorded(h: History, op: Op)
    requires Recorded(h)
    ensures Recorded(Step(h, op))
  {
    match op {
      case NewObject(kind, payload) => NewObjectRecorded(h, kind, payload);
      case NewCap(objectId, rights) => NewCapRecorded(h, objectId, rights);
      case Revoke(token) => RevokeRecorded(h, token);
    }
  }

  ghost function Run(h: History, ops: seq<Op>): (r: History)
    requires Recorded(h)
    ensures Recorded(r)
    decreases ops
  {
    if ops == [] then h else (StepRecorded(h, ops[0]); Run(Step(h, ops[0]), ops[1..]))
  }

  // ----- what a check means -----------------------------------------------------------------------------------

  /**
   * In every run, a check succeeds exactly when the token was issued with those rights for an object
   * of that kind and has not been revoked since it was last issued.
   */
  lemma CheckMeaning(ops: seq<Op>, token: nat, required: Rights, kind: nat)
    ensures Recorded(Start())
    ensures var h := Run(Start(), ops);
      CapCheck(h.k, token, required, kind).Good? <==>
        var last := Latest(h.log, token);
        required != 0 && last.Some? && last.value.Issued? && Covers(last.value.rights, required)
        && (kind == NO_TYPE || last.value.kind == kind)
  {
    StartRecorded();
    var h := Run(Start(), ops);
    assert Agrees(h, token);
    LookupIsSlot(h.k, token);
  }

  /**
   * Why a check fails: no right asked for, or no token given, is invalid; a token that was never issued or was revoked
   * names nothing; one for another kind of object, or without the right, is not permitted.
   */
  lemma CheckErrors(h: History, token: nat, required: Rights, kind: nat)
    requires Recorded(h)
    ensures var c, last := CapCheck(h.k, token, required, kind), Latest(h.log, token);
      c.Bad? ==>
        c.error ==
          if required == 0 || token == 0 then Inval else if last.None? || last.value.Withdrawn? then NoEnt else Perm
  {
    hide Latest, GenAfter, ObjectLookup;
    assert Agrees(h, token);
    LookupIsSlot(h.k, token);
  }

  /**
   * The bound: a token issued when its slot's generation had moved u times is accepted again, after it
   * was revoked, exactly when the slot has since moved through a multiple of 2(2^32 - 1) steps; until
   * then, that is for 2^32 - 2 further issues on the slot, it stays rejected.
   */
  lemma StaleUntilCycle(h: History, ops: seq<Op>, token: nat)
    requires Recorded(h) && SlotAccepts(h.k, token)
    ensures Run(h, ops).uses[IndexOf(token)] >= h.uses[IndexOf(token)]
    ensures var h' := Run(h, ops);
      var moved := h'.uses[IndexOf(token)] - h.uses[IndexOf(token)];
      && (SlotAccepts(h'.k, token) <==> moved % (2 * CYCLE) == 0)
      && (0 < moved < 2 * CYCLE ==> CapLookup(h'.k, token).Bad?)
  {
    hide Run, CapLookup, GenAfter, EntryOk, ObjectsOk, Agrees;
    var i, h' := IndexOf(token), Run(h, ops);
    UsesGrow(h, ops, i);
    MovesDecide(h, h', token);
  }

  lemma MovesDecide(h: History, h': History, token: nat)
    requires Recorded(h) && Recorded(h') && SlotAccepts(h.k, token)
    requires h'.uses[IndexOf(token)] >= h.uses[IndexOf(token)]
    ensures var moved := h'.uses[IndexOf(token)] - h.uses[IndexOf(token)];
      && (SlotAccepts(h'.k, token) <==> moved % (2 * CYCLE) == 0)
      && (0 < moved < 2 * CYCLE ==> CapLookup(h'.k, token).Bad?)
  {
    hide CapLookup, GenAfter, EntryOk, ObjectsOk, Agrees;
    var i := IndexOf(token);
    LookupIsSlot(h'.k, token);
    SameGeneration(h.uses[i], h'.uses[i]);
    SmallRemainder(h'.uses[i] - h.uses[i]);
  }

  lemma SmallRemainder(d: nat)
    ensures 0 < d < 2 * CYCLE ==> d % (2 * CYCLE) != 0
  {
  }

  lemma SameGeneration(u: nat, u': nat)
    requires u % 2 == 1 && u <= u'
    ensures u' % 2 == 1 && GenAfter(u') == GenAfter(u) <==> (u' - u) % (2 * CYCLE) == 0
  {
    hide GenAfter;
    GapParity(u, u');
    if u' % 2 == 1 {
      SameGenIff(u, u');
      EvenGap(u' - u);
    } else {
      OddGap(u' - u);
    }
  }

  lemma SameGenIff(u: nat, u': nat)
    requires 0 < u <= u'
    ensures GenAfter(u') == GenAfter(u) <==> (u' - u) % CYCLE == 0
  {
    SameRemainder(u - 1, u' - 1);
  }

  lemma GapParity(u: nat, u': nat)
    requires u % 2 == 1 && u <= u'
    ensures (u' - u) % 2 == 0 <==> u' % 2 == 1
  {
  }

  lemma OddGap(d: nat)
    requires d % 2 == 1
    ensures d % (2 * CYCLE) != 0
  {
    var q := d / (2 * CYCLE);
    assert d == 2 * (CYCLE * q) + d % (2 * CYCLE);
  }

  /** Generations only move forward along a run. */
  lemma {:induction false} UsesGrow(h: History, ops: seq<Op>, i: nat)
    requires Recorded(h) && i < MAX_CAPS
    ensures Run(h, ops).uses[i] >= h.uses[i]
    decreases ops
  {
    if ops != [] {
      StepRecorded(h, ops[0]);
      UsesGrow(Step(h, ops[0]), ops[1..], i);
    }
  }

  // ----- what the capability steps change -----------------------------------------------------------------

  lemma NewObjectFrame(h: History, kind: nat, payload: nat)
    requires Recorded(h)
    ensures var h' := Step(h, NewObject(kind, payload));
      && Recorded(h')
      && (forall t :: Accepted(h'.k, t) == Accepted(h.k, t))
      && (forall id :: ObjectLookup(h.k, id).Good? ==> ObjectLookup(h'.k, id) == ObjectLookup(h.k, id))
  {
    StepRecorded(h, NewObject(kind, payload));
    LookupCreated(h.k, kind, payload);
  }

  /** Minting adds exactly one accepted token. */
  lemma NewCapFrame(h: History, id: nat, rights: Rights)
    requires Recorded(h) && CapCreate(h.k, id, rights).1.Good?
    ensures var h', token := Step(h, NewCap(id, rights)), CapCreate(h.k, id, rights).1.value;
      && Recorded(h') && Accepted(h.k, token) == None && ObjectLookup(h.k, id).Good?
      && (forall t :: Accepted(h'.k, t) ==
            if t == token then
              Some(CapEntry(id, ObjectLookup(h.k, id).value.generation, ObjectLookup(h.k, id).value.kind,
                            false, rights))
            else Accepted(h.k, t))
      && (forall x :: ObjectLookup(h'.k, x) == ObjectLookup(h.k, x))
  {
    StepRecorded(h, NewCap(id, rights));
    var (k', r) := CapCreate(h.k, id, rights);
    var i := FirstFreeCap(h.k.caps, 0).value;
    TokenParts(i, NextGen(h.k.capGens[i]));
    NextGenAfter(h.uses[i]);
    SameObjects(h.k, k');
    FoundIsItself(h.k, id);
    forall t ensures t != r.value ==> Accepted(k', t) == Accepted(h.k, t) {
      TokenWhole(t);
    }
  }

  /** Revoking removes exactly one accepted token. */
  lemma RevokeFrame(h: History, token: nat)
    requires Recorded(h)
    ensures var h' := Step(h, Revoke(token));
      && Recorded(h') && (Accepted(h.k, token).Some? <==> CapRevoke(h.k, token).1 == Ok)
      && (forall t :: Accepted(h'.k, t) == if t == token then None else Accepted(h.k, t))
      && (forall x :: ObjectLookup(h'.k, x) == ObjectLookup(h.k, x))
  {
    StepRecorded(h, Revoke(token));
    LookupIsSlot(h.k, token);
    var (k', s) := CapRevoke(h.k, token);
    if s == Ok {
      NextGenAfter(h.uses[IndexOf(token)]);
      SameObjects(h.k, k');
      forall t ensures Accepted(k', t) == if t == token then None else Accepted(h.k, t) {
        TokenWhole(t);
        TokenWhole(token);
      }
    }
  }

  /** No step takes an object away or changes it. */
  lemma ObjectsStay(h: History, op: Op)
    requires Recorded(h)
    ensures forall id :: ObjectLookup(h.k, id).Good? ==> ObjectLookup(Step(h, op).k, id) == ObjectLookup(h.k, id)
  {
    hide Recorded, ObjectLookup, Step, CapCreate, Accepted;
    RecordedShape(h);
    match op {
      case NewObject(kind, payload) => NewObjectFrame(h, kind, payload);
      case NewCap(id, rights) =>
        if CapCreate(h.k, id, rights).1.Good? {
          NewCapFrame(h, id, rights);
        } else {
          NoCapNoStep(h, id, rights);
        }
      case Revoke(token) => RevokeFrame(h, token);
    }
  }

  /** A new object was not there before, and is what was asked for. */
  lemma ObjectMade(h: History, kind: nat, payload: nat)
    requires Recorded(h)
    ensures |h.k.objects| == |h.k.objectGens|
    ensures var r, k' := ObjectCreate(h.k, kind, payload).1, Step(h, NewObject(kind, payload)).k;
      r.Good? ==>
        && ObjectLookup(h.k, r.value).Bad? && ObjectLookup(k', r.value).Good?
        && ObjectLookup(k', r.value).value.kind == kind && ObjectLookup(k', r.value).value.payload == payload
  {
    LookupCreated(h.k, kind, payload);
  }

  /** A step that does not move the token's slot leaves what the log says about the token. */
  lemma LatestStays(h: History, op: Op, token: nat)
    requires Recorded(h) && IndexOf(token) < MAX_CAPS
    ensures Recorded(Step(h, op)) && Step(h, op).uses[IndexOf(token)] >= h.uses[IndexOf(token)]
    ensures Step(h, op).uses[IndexOf(token)] == h.uses[IndexOf(token)] ==>
      Latest(Step(h, op).log, token) == Latest(h.log, token)
  {
    StepRecorded(h, op);
    hide GenAfter, NextGen, ObjectLookup, EntryOk, Agrees, IndexOf, GenerationOf, MakeToken, Latest;
    var h' := Step(h, op);
    if h'.log != h.log {
      LatestAfter(h.log, h'.log[|h.log|], token);
    }
  }

  /** What the log says about the tokens after a token was minted. */
  lemma MintedLog(h: History, id: nat, rights: Rights)
    requires Recorded(h) && CapCreate(h.k, id, rights).1.Good?
    ensures ObjectLookup(h.k, id).Good?
    ensures var h', token := Step(h, NewCap(id, rights)), CapCreate(h.k, id, rights).1.value;
      forall t :: Latest(h'.log, t) ==
        if t == token then Some(Issued(token, id, ObjectLookup(h.k, id).value.kind, rights)) else Latest(h.log, t)
  {
    FoundIsItself(h.k, id);
    var h', token := Step(h, NewCap(id, rights)), CapCreate(h.k, id, rights).1.value;
    forall t
      ensures Latest(h'.log, t) ==
        if t == token then Some(Issued(token, id, ObjectLookup(h.k, id).value.kind, rights)) else Latest(h.log, t)
    {
      LatestAfter(h.log, h'.log[|h.log|], t);
    }
  }

  /** The object that a token was last issued for exists. */
  lemma IssuedNamesObject(h: History, token: nat)
    requires Recorded(h) && Latest(h.log, token).Some? && Latest(h.log, token).value.Issued?
    ensures ObjectLookup(h.k, Latest(h.log, token).value.objectId).Good?
  {
    assert Agrees(h, token);
    AcceptedNamesObject(h, token);
  }

  /** The entry an accepted token leads to. */
  function Accepted(k: Tables, token: nat): Option<CapEntry> {
    if SlotAccepts(k, token) then Some(k.caps[IndexOf(token)]) else None
  }

  lemma RecordedShape(h: History)
    requires Recorded(h)
    ensures |h.k.objects| == |h.k.objectGens| && |h.k.caps| == |h.k.capGens|
  {
  }

  lemma AcceptedNamesObject(h: History, token: nat)
    requires Recorded(h) && Accepted(h.k, token).Some?
    ensures ObjectLookup(h.k, Accepted(h.k, token).value.objectId).Good?
  {
    assert EntryOk(h.k, h.k.caps[IndexOf(token)]);
  }

  lemma NoCapNoStep(h: History, id: nat, rights: Rights)
    requires Recorded(h)
    ensures CapCreate(h.k, id, rights).1.Bad? ==> Step(h, NewCap(id, rights)) == h
  {
  }

  /** The token's slot has moved on, or the token is accepted for what it was before. */
  ghost predicate Moved(h: History, h': History, token: nat)
    requires IndexOf(token) < MAX_CAPS
  {
    && Recorded(h) && Recorded(h') && h.uses[IndexOf(token)] <= h'.uses[IndexOf(token)]
    && (h.uses[IndexOf(token)] == h'.uses[IndexOf(token)] ==> Accepted(h'.k, token) == Accepted(h.k, token))
  }

  lemma StepMoves(h: History, op: Op, token: nat)
    requires Recorded(h) && IndexOf(token) < MAX_CAPS
    ensures Moved(h, Step(h, op), token)
  {
    StepRecorded(h, op);
    hide GenAfter, NextGen, ObjectLookup, EntryOk, Agrees, IndexOf, GenerationOf, MakeToken;
    match op {
      case NewObject(_, _) =>
      case NewCap(id, rights) =>
        if CapCreate(h.k, id, rights).1.Good? {
          var i := FirstFreeCap(h.k.caps, 0).value;
          TokenParts(i, NextGen(h.k.capGens[i]));
        }
      case Revoke(_) =>
    }
  }
}
