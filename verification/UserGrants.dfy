/**
 * User grants: table slots that are reused, with their object, under fresh capability tokens. A token
 * denotes what it was created with as long as it is accepted.
 */
module UserGrants {
  import opened KernelTypes
  import opened Capabilities
  import opened CapabilityHistory

  const MAX_GRANTS: nat := 128
  const RIGHTS_MASK: Rights := READ | WRITE | MAP

  datatype GrantInfo = GrantInfo(task: nat, endpoint: nat, base: nat, length: nat, rights: Rights)

  /** Object id 0 marks a slot that was never used. */
  datatype GrantSlot = GrantSlot(objectId: nat, info: GrantInfo, revoked: bool)

  const NO_INFO: GrantInfo := GrantInfo(0, 0, 0, 0, 0)
  const EMPTY_SLOT: GrantSlot := GrantSlot(0, NO_INFO, false)

  /** The capability tables with their history, the grant table, and what each token was created with. */
  datatype Grants = Grants(h: History, slots: seq<GrantSlot>, made: map<nat, GrantInfo>)

  // ----- operations ---------------------------------------------------------------------------------

  predicate Reusable(s: GrantSlot) { s.objectId == 0 || s.revoked }

  function FirstReusable(ss: seq<GrantSlot>, from: nat): (r: Option<nat>)
    requires from <= |ss|
    ensures r.Some? ==> from <= r.value < |ss| && Reusable(ss[r.value])
    ensures r.None? ==> forall i :: from <= i < |ss| ==> !Reusable(ss[i])
    ensures r.Some? ==> forall i :: from <= i < r.value ==> !Reusable(ss[i])
    decreases |ss| - from
  {
    if from == |ss| then None else if Reusable(ss[from]) then Some(from) else FirstReusable(ss, from + 1)
  }

  predicate BadRequest(info: GrantInfo) {
    info.task == 0 || info.base == 0 || info.length == 0 || info.rights == 0
    || info.rights & !RIGHTS_MASK != 0 || info.endpoint == 0
  }

  /** Mints the token for slot i over object id; if that fails the slot is left revoked or cleared. */
  function Mint(g: Grants, i: nat, id: nat, info: GrantInfo, reuse: bool): (Grants, Result<nat>)
    requires i < |g.slots| && Recorded(g.h)
  {
    var r := CapCreate(g.h.k, id, info.rights | REVOKE).1;
    match r
    case Bad(s) =>
      (g.(slots := g.slots[i := if reuse then GrantSlot(id, NO_INFO, true) else EMPTY_SLOT]), Bad(s))
    case Good(token) =>
      (Grants(Step(g.h, NewCap(id, info.rights | REVOKE)), g.slots[i := GrantSlot(id, info, false)],
              g.made[token := info]),
       Good(token))
  }

  /** Creation; range is the outcome of validating the user range for the access asked for. */
  function GrantCreate(g: Grants, info: GrantInfo, range: Status): (Grants, Result<nat>)
    requires Recorded(g.h)
  {
    if BadRequest(info) then (g, Bad(Inval))
    else if CapCheck(g.h.k, info.task, READ, OBJ_TASK).Bad? then
      (g, Bad(CapCheck(g.h.k, info.task, READ, OBJ_TASK).error))
    else if CapCheck(g.h.k, info.endpoint, SEND, OBJ_ENDPOINT).Bad? then
      (g, Bad(CapCheck(g.h.k, info.endpoint, SEND, OBJ_ENDPOINT).error))
    else if range != Ok then (g, Bad(range))
    else
      match FirstReusable(g.slots, 0)
      case None => (g, Bad(NoMem))
      case Some(i) =>
        if g.slots[i].objectId != 0 then Mint(g, i, g.slots[i].objectId, info, true)
        else
          var r := ObjectCreate(g.h.k, OBJ_GRANT, i).1;
          match r
          case Bad(s) => (g, Bad(s))
          case Good(id) =>
            StepRecorded(g.h, NewObject(OBJ_GRANT, i));
            Mint(g.(h := Step(g.h, NewObject(OBJ_GRANT, i))), i, id, info, false)
  }

  /** The slot behind a token: the token must cover the rights, name the slot's object, and not be revoked. */
  function GrantLookup(g: Grants, token: nat, required: Rights, live: bool): Result<nat> {
    match CapCheck(g.h.k, token, required, OBJ_GRANT)
    case Bad(s) => Bad(s)
    case Good(e) =>
      match ObjectLookup(g.h.k, e.objectId)
      case Bad(s) => Bad(s)
      case Good(o) =>
        if o.payload >= |g.slots| || g.slots[o.payload].objectId != e.objectId then Bad(NoEnt)
        else
          var slot := g.slots[o.payload];
          if slot.revoked then Bad(Perm)
          else if live && CapCheck(g.h.k, slot.info.task, READ, OBJ_TASK).Bad? then
            Bad(CapCheck(g.h.k, slot.info.task, READ, OBJ_TASK).error)
          else if live && CapCheck(g.h.k, slot.info.endpoint, SEND, OBJ_ENDPOINT).Bad? then
            Bad(CapCheck(g.h.k, slot.info.endpoint, SEND, OBJ_ENDPOINT).error)
          else Good(o.payload)
  }

  function GrantRevoke(g: Grants, token: nat): (Grants, Status)
    requires Recorded(g.h)
  {
    match GrantLookup(g, token, REVOKE, false)
    case Bad(s) => (g, s)
    case Good(i) =>
      (g.(h := Step(g.h, Revoke(token)), slots := g.slots[i := g.slots[i].(revoked := true)]),
       CapRevoke(g.h.k, token).1)
  }

  function CheckRange(info: GrantInfo, offset: nat, length: nat, required: Rights): Status {
    if length == 0 || required == 0 || required & !RIGHTS_MASK != 0 then Inval
    else if !Covers(info.rights, required) then Perm
    else if offset > info.length || length > info.length - offset then Bounds
    else Ok
  }

  // ----- the invariant ----------------------------------------------------------------------------------

  /** A used slot's object exists, is a grant, and points back to the slot. */
  ghost predicate SlotOk(g: Grants, i: nat)
    requires i < |g.slots|
  {
    g.slots[i].objectId != 0 ==>
      var o := ObjectLookup(g.h.k, g.slots[i].objectId);
      o.Good? && o.value.kind == OBJ_GRANT && o.value.payload == i
  }

  predicate OnGrant(k: Tables, token: nat) { Accepted(k, token).Some? && Accepted(k, token).value.kind == OBJ_GRANT }

  /** An accepted grant token denotes a slot in force that holds what the token was created with. */
  ghost predicate TokenOk(g: Grants, token: nat) {
    OnGrant(g.h.k, token) ==>
      var e := Accepted(g.h.k, token).value;
      var o := ObjectLookup(g.h.k, e.objectId);
      && o.Good? && o.value.payload < |g.slots| && token in g.made
      && g.slots[o.value.payload] == GrantSlot(e.objectId, g.made[token], false)
      && e.rights == g.made[token].rights | REVOKE
  }

  /** No two accepted grant tokens share an object. */
  ghost predicate OneToken(k: Tables) {
    forall t, u :: OnGrant(k, t) && OnGrant(k, u) ==>
      (Accepted(k, t).value.objectId == Accepted(k, u).value.objectId ==> t == u)
  }

  ghost predicate GrantsOk(g: Grants) {
    && Recorded(g.h) && |g.slots| == MAX_GRANTS
    && (forall i :: 0 <= i < MAX_GRANTS ==> SlotOk(g, i))
    && (forall token :: TokenOk(g, token))
    && OneToken(g.h.k)
  }

  function Start0(): Grants { Grants(CapabilityHistory.Start(), seq(MAX_GRANTS, i => EMPTY_SLOT), map[]) }

  lemma StartOk()
    ensures GrantsOk(Start0())
  {
    StartRecorded();
  }

  // ----- every step keeps the invariant --------------------------------------------------------------------

  lemma MintCases(g: Grants, i: nat, id: nat, info: GrantInfo, reuse: bool, rights: Rights)
    requires i < |g.slots| && Recorded(g.h) && rights == info.rights | REVOKE
    ensures var (k, r) := CapCreate(g.h.k, id, rights);
      && Mint(g, i, id, info, reuse).1 == r
      && (r.Good? ==>
            Step(g.h, NewCap(id, rights)).k == k
            && Mint(g, i, id, info, reuse).0
               == Grants(Step(g.h, NewCap(id, rights)), g.slots[i := GrantSlot(id, info, false)],
                         g.made[r.value := info]))
      && (r.Bad? ==>
            k == g.h.k
            && Mint(g, i, id, info, reuse).0
               == Grants(g.h, g.slots[i := if reuse then GrantSlot(id, NO_INFO, true) else EMPTY_SLOT], g.made))
  {
    RecordedShape(g.h);
    MintedTables(g.h, id, rights);
    hide CapCreate, Step, Recorded;
  }

  lemma MintedTables(h: History, id: nat, rights: Rights)
    requires Recorded(h)
    ensures CapCreate(h.k, id, rights).1.Good? ==> Step(h, NewCap(id, rights)).k == CapCreate(h.k, id, rights).0
    ensures CapCreate(h.k, id, rights).1.Bad? ==> CapCreate(h.k, id, rights).0 == h.k
  {
  }

  /** Minting over a slot whose object has no accepted token yet. */
  lemma MintOk(g: Grants, i: nat, id: nat, info: GrantInfo, reuse: bool)
    requires GrantsOk(g) && i < MAX_GRANTS && id != 0
    requires ObjectLookup(g.h.k, id).Good? && ObjectLookup(g.h.k, id).value.kind == OBJ_GRANT
    requires ObjectLookup(g.h.k, id).value.payload == i
    requires reuse ==> g.slots[i].objectId == id
    requires Reusable(g.slots[i]) && forall t :: OnGrant(g.h.k, t) ==> Accepted(g.h.k, t).value.objectId != id
    ensures GrantsOk(Mint(g, i, id, info, reuse).0)
    ensures Mint(g, i, id, info, reuse).1.Good? ==>
      var (g', r) := Mint(g, i, id, info, reuse);
      && Accepted(g'.h.k, r.value).Some? && r.value in g'.made && g'.made[r.value] == info
      && Accepted(g.h.k, r.value) == None
  {
    RecordedShape(g.h);
    assert ObjectLookup(g.h.k, 0).Bad?;
    var rights := info.rights | REVOKE;
    MintCases(g, i, id, info, reuse, rights);
    hide Accepted, ObjectLookup, Recorded, Step, CapCreate, TokenOk, SlotOk, OneToken, Mint, Reusable;
    var (g', r) := Mint(g, i, id, info, reuse);
    if r.Good? {
      NewCapFrame(g.h, id, rights);
      MintTokens(g, g', i, id, info, r.value, Accepted(g'.h.k, r.value).value);
      MintOne(g.h.k, g'.h.k, r.value);
    } else {
      ClearedTokens(g, g', i);
    }
    MintedSlot(g, g', i, id);
    SlotsKept(g, g', i);
  }

  /** Clearing or marking a slot that no accepted token leads to. */
  lemma ClearedTokens(g: Grants, g': Grants, i: nat)
    requires i < |g.slots| && Reusable(g.slots[i]) && (forall t :: TokenOk(g, t)) && ObjectLookup(g.h.k, 0).Bad?
    requires g'.h == g.h && g'.made == g.made && |g'.slots| == |g.slots|
    requires forall j :: 0 <= j < |g.slots| && j != i ==> g'.slots[j] == g.slots[j]
    ensures forall t :: TokenOk(g', t)
  {
    hide Accepted, ObjectLookup;
    forall t ensures TokenOk(g', t) {
      assert TokenOk(g, t);
    }
  }

  lemma MintedSlot(g: Grants, g': Grants, i: nat, id: nat)
    requires i < |g'.slots| && (g'.slots[i].objectId == id || g'.slots[i].objectId == 0)
    requires ObjectLookup(g.h.k, id).Good? && ObjectLookup(g.h.k, id).value.kind == OBJ_GRANT
    requires ObjectLookup(g.h.k, id).value.payload == i && ObjectLookup(g'.h.k, id) == ObjectLookup(g.h.k, id)
    ensures SlotOk(g', i)
  {
    hide ObjectLookup;
  }

  lemma SlotsKept(g: Grants, g': Grants, i: nat)
    requires |g.slots| == |g'.slots| == MAX_GRANTS && i < MAX_GRANTS && forall j :: 0 <= j < MAX_GRANTS ==> SlotOk(g, j)
    requires forall j :: 0 <= j < MAX_GRANTS && j != i ==> g'.slots[j] == g.slots[j]
    requires forall x :: ObjectLookup(g'.h.k, x) == ObjectLookup(g.h.k, x)
    requires SlotOk(g', i)
    ensures forall j :: 0 <= j < MAX_GRANTS ==> SlotOk(g', j)
  {
    hide ObjectLookup;
    forall j | 0 <= j < MAX_GRANTS ensures SlotOk(g', j) {
      assert SlotOk(g, j);
    }
  }

  lemma MintTokens(g: Grants, g': Grants, i: nat, id: nat, info: GrantInfo, token: nat, e: CapEntry)
    requires i < |g.slots| && Reusable(g.slots[i]) && (forall t :: TokenOk(g, t)) && ObjectLookup(g.h.k, 0).Bad?
    requires ObjectLookup(g.h.k, id).Good? && ObjectLookup(g.h.k, id).value.payload == i
    requires e.objectId == id && e.rights == info.rights | REVOKE
    requires forall t :: Accepted(g'.h.k, t) == if t == token then Some(e) else Accepted(g.h.k, t)
    requires forall x :: ObjectLookup(g'.h.k, x) == ObjectLookup(g.h.k, x)
    requires g'.slots == g.slots[i := GrantSlot(id, info, false)] && g'.made == g.made[token := info]
    ensures forall t :: TokenOk(g', t)
  {
    hide Accepted, ObjectLookup;
    forall t ensures TokenOk(g', t) {
      assert TokenOk(g, t);
    }
  }

  lemma MintOne(k: Tables, k': Tables, token: nat)
    requires OneToken(k) && Accepted(k', token).Some?
    requires forall t :: t != token ==> Accepted(k', t) == Accepted(k, t)
    requires forall t :: OnGrant(k, t) ==> Accepted(k, t).value.objectId != Accepted(k', token).value.objectId
    ensures OneToken(k')
  {
    hide Accepted;
  }

  /** A change of the tables that brings no grant token and takes no object keeps the invariant. */
  lemma CarriedOver(g: Grants, h: History)
    requires GrantsOk(g) && Recorded(h)
    requires forall x :: ObjectLookup(g.h.k, x).Good? ==> ObjectLookup(h.k, x) == ObjectLookup(g.h.k, x)
    requires forall t :: OnGrant(h.k, t) ==> Accepted(h.k, t) == Accepted(g.h.k, t)
    ensures GrantsOk(g.(h := h))
  {
    hide Accepted, ObjectLookup, Recorded;
    var g' := g.(h := h);
    forall t ensures TokenOk(g', t) {
      assert TokenOk(g, t);
    }
    forall j | 0 <= j < MAX_GRANTS ensures SlotOk(g', j) {
      assert SlotOk(g, j);
    }
  }

  lemma NewObjectKeepsGrants(g: Grants, kind: nat, payload: nat)
    requires GrantsOk(g)
    ensures GrantsOk(g.(h := Step(g.h, NewObject(kind, payload))))
  {
    RecordedShape(g.h);
    hide Accepted, ObjectLookup, Recorded, Step, TokenOk, SlotOk;
    NewObjectFrame(g.h, kind, payload);
    CarriedOver(g, Step(g.h, NewObject(kind, payload)));
  }

  lemma GrantCreateOk(g: Grants, info: GrantInfo, range: Status)
    requires GrantsOk(g)
    ensures GrantsOk(GrantCreate(g, info, range).0)
    ensures GrantCreate(g, info, range).1.Good? ==>
      var (g', r) := GrantCreate(g, info, range);
      && Accepted(g'.h.k, r.value).Some? && r.value in g'.made && g'.made[r.value] == info
      && Accepted(g.h.k, r.value) == None
  {
    hide Mint, BadRequest, CapCheck, Accepted, ObjectLookup, TokenOk;
    var i := FirstReusable(g.slots, 0);
    if i.Some? {
      assert SlotOk(g, i.value);
      if g.slots[i.value].objectId != 0 {
        RevokedHasNoToken(g, i.value);
        MintOk(g, i.value, g.slots[i.value].objectId, info, true);
      } else {
        var r := ObjectCreate(g.h.k, OBJ_GRANT, i.value).1;
        if r.Good? {
          LookupCreated(g.h.k, OBJ_GRANT, i.value);
          NewObjectKeepsGrants(g, OBJ_GRANT, i.value);
          NewObjectFrame(g.h, OBJ_GRANT, i.value);
          var g1 := g.(h := Step(g.h, NewObject(OBJ_GRANT, i.value)));
          forall t | OnGrant(g1.h.k, t) ensures Accepted(g1.h.k, t).value.objectId != r.value {
            AcceptedNamesObject(g.h, t);
          }
          MintOk(g1, i.value, r.value, info, false);
        }
      }
    }
  }

  lemma RevokedHasNoToken(g: Grants, i: nat)
    requires GrantsOk(g) && i < MAX_GRANTS && g.slots[i].revoked && g.slots[i].objectId != 0
    ensures ObjectLookup(g.h.k, g.slots[i].objectId).Good?
      && ObjectLookup(g.h.k, g.slots[i].objectId).value.kind == OBJ_GRANT
    ensures ObjectLookup(g.h.k, g.slots[i].objectId).value.payload == i
    ensures forall t :: OnGrant(g.h.k, t) ==> Accepted(g.h.k, t).value.objectId != g.slots[i].objectId
  {
    hide Accepted, ObjectLookup, Recorded;
    assert SlotOk(g, i);
    forall t | OnGrant(g.h.k, t) ensures Accepted(g.h.k, t).value.objectId != g.slots[i].objectId {
      assert TokenOk(g, t);
    }
  }

  /** Withdrawing any token keeps the invariant. */
  lemma WithdrawOk(g: Grants, token: nat)
    requires GrantsOk(g)
    ensures GrantsOk(g.(h := Step(g.h, Revoke(token)))) && Accepted(Step(g.h, Revoke(token)).k, token) == None
  {
    RecordedShape(g.h);
    hide Accepted, ObjectLookup, Recorded, Step, TokenOk, SlotOk;
    RevokeFrame(g.h, token);
    CarriedOver(g, Step(g.h, Revoke(token)));
  }

  /** A slot that no accepted token leads to may be marked revoked. */
  lemma MarkOk(g: Grants, i: nat)
    requires GrantsOk(g) && i < MAX_GRANTS
    requires forall t :: OnGrant(g.h.k, t) ==> Accepted(g.h.k, t).value.objectId != g.slots[i].objectId
    ensures GrantsOk(g.(slots := g.slots[i := g.slots[i].(revoked := true)]))
  {
    hide Accepted, ObjectLookup, Recorded;
    var g' := g.(slots := g.slots[i := g.slots[i].(revoked := true)]);
    forall t ensures TokenOk(g', t) {
      assert TokenOk(g, t);
    }
    forall j | 0 <= j < MAX_GRANTS ensures SlotOk(g', j) {
      assert SlotOk(g, j);
    }
  }

  /** A lookup succeeds only on an accepted grant token, and leads to the slot with what it was created with. */
  lemma LookupDenotes(g: Grants, token: nat, required: Rights, live: bool)
    requires GrantsOk(g) && GrantLookup(g, token, required, live).Good?
    ensures var i := GrantLookup(g, token, required, live).value;
      && i < MAX_GRANTS && OnGrant(g.h.k, token) && token in g.made
      && Accepted(g.h.k, token).value.objectId == g.slots[i].objectId
      && g.slots[i].info == g.made[token]
      && Covers(g.made[token].rights | REVOKE, required)
  {
    LookupIsSlot(g.h.k, token);
    assert TokenOk(g, token);
  }

  lemma GrantRevokeOk(g: Grants, token: nat)
    requires GrantsOk(g)
    ensures GrantsOk(GrantRevoke(g, token).0)
    ensures GrantRevoke(g, token).1 == Ok ==> Accepted(GrantRevoke(g, token).0.h.k, token) == None
  {
    RecordedShape(g.h);
    hide GrantLookup, Accepted, ObjectLookup, Recorded, Step, TokenOk, SlotOk, CapRevoke;
    if GrantLookup(g, token, REVOKE, false).Good? {
      LookupDenotes(g, token, REVOKE, false);
      var i := GrantLookup(g, token, REVOKE, false).value;
      WithdrawOk(g, token);
      RevokeFrame(g.h, token);
      MarkOk(g.(h := Step(g.h, Revoke(token))), i);
    } else {
      LookupError(g, token);
    }
  }

  lemma LookupError(g: Grants, token: nat)
    ensures GrantLookup(g, token, REVOKE, false).Bad? ==> GrantLookup(g, token, REVOKE, false).error != Ok
  {
  }

  // ----- exactly when a call succeeds, and what it leaves alone --------------------------------------------------

  /**
   * A lookup succeeds exactly through an accepted grant token whose rights, the revoke right included, cover what is
   * asked for, and, for a live one, while the tokens of its task and endpoint are in force.
   */
  lemma LookupIff(g: Grants, token: nat, required: Rights, live: bool)
    requires GrantsOk(g)
    ensures OnGrant(g.h.k, token) ==> token in g.made
    ensures GrantLookup(g, token, required, live).Good? <==>
      && required != 0 && OnGrant(g.h.k, token) && Covers(g.made[token].rights | REVOKE, required)
      && (live ==>
            && CapCheck(g.h.k, g.made[token].task, READ, OBJ_TASK).Good?
            && CapCheck(g.h.k, g.made[token].endpoint, SEND, OBJ_ENDPOINT).Good?)
  {
    TokenTarget(g, token);
    hide CapLookup, ObjectLookup, GrantsOk, Covers, Accepted;
  }

  /** What the tables hold behind a token. */
  lemma TokenTarget(g: Grants, token: nat)
    requires GrantsOk(g)
    ensures var e := Accepted(g.h.k, token);
      && CapLookup(g.h.k, token).Good? == e.Some? && (e.Some? ==> CapLookup(g.h.k, token) == Good(e.value))
      && (OnGrant(g.h.k, token) ==>
            var o := ObjectLookup(g.h.k, e.value.objectId);
            && token in g.made && o.Good? && o.value.payload < |g.slots|
            && g.slots[o.value.payload] == GrantSlot(e.value.objectId, g.made[token], false)
            && e.value.rights == g.made[token].rights | REVOKE)
  {
    hide ObjectLookup, GenAfter;
    LookupIsSlot(g.h.k, token);
    assert TokenOk(g, token);
  }

  /** The revoke right is in every grant token, so revocation succeeds exactly on the accepted ones. */
  lemma GrantRevokeIff(g: Grants, token: nat)
    requires GrantsOk(g)
    ensures GrantRevoke(g, token).1 == Ok <==> OnGrant(g.h.k, token)
    ensures GrantRevoke(g, token).1 != Ok ==> GrantRevoke(g, token).0 == g
    ensures GrantRevoke(g, token).1 == Ok ==>
      var g' := GrantRevoke(g, token).0;
      && g'.made == g.made && (forall t :: Accepted(g'.h.k, t) == if t == token then None else Accepted(g.h.k, t))
      && exists i :: 0 <= i < |g.slots| && g.slots[i].objectId == Accepted(g.h.k, token).value.objectId
           && g'.slots == g.slots[i := g.slots[i].(revoked := true)]
  {
    LookupIff(g, token, REVOKE, false);
    if OnGrant(g.h.k, token) {
      RevokeCovered(g.made[token].rights);
      LookupDenotes(g, token, REVOKE, false);
    }
    LookupError(g, token);
    Unwrapped(g);
    RevokeFrame(g.h, token);
    hide GrantLookup, Accepted, ObjectLookup, Recorded, TokenOk, SlotOk, CapRevoke, GrantsOk, Step;
  }

  lemma Unwrapped(g: Grants)
    requires GrantsOk(g)
    ensures Recorded(g.h) && |g.slots| == MAX_GRANTS && |g.h.k.objects| == |g.h.k.objectGens|
  {
  }

  lemma RevokeCovered(rights: Rights)
    ensures Covers(rights | REVOKE, REVOKE)
  {
  }

  /** The first grant slot that is unused or revoked has an object, or can get one. */
  predicate FreeGrantSlot(g: Grants) {
    exists i :: 0 <= i < |g.slots| && (g.slots[i].objectId == 0 || g.slots[i].revoked)
      && (forall j :: 0 <= j < i ==> g.slots[j].objectId != 0 && !g.slots[j].revoked)
      && (g.slots[i].objectId != 0 || FreeObjectSlot(g.h.k))
  }

  lemma FreeGrantIs(g: Grants)
    ensures FreeGrantSlot(g) <==>
      var i := FirstReusable(g.slots, 0);
      i.Some? && (g.slots[i.value].objectId != 0 || FreeObjectSlot(g.h.k))
  {
    hide FreeObjectSlot;
    var i := FirstReusable(g.slots, 0);
    if FreeGrantSlot(g) {
      var j :| 0 <= j < |g.slots| && (g.slots[j].objectId == 0 || g.slots[j].revoked)
        && (forall k :: 0 <= k < j ==> g.slots[k].objectId != 0 && !g.slots[k].revoked)
        && (g.slots[j].objectId != 0 || FreeObjectSlot(g.h.k));
      assert Reusable(g.slots[j]);
      assert i.value == j;
    }
  }

  /** Nothing is missing in the request, and it asks for no right but the grantable ones. */
  predicate Complete(info: GrantInfo) {
    && info.task != 0 && info.base != 0 && info.length != 0 && info.endpoint != 0
    && info.rights != 0 && info.rights & !RIGHTS_MASK == 0
  }

  lemma CompleteIsGood(info: GrantInfo)
    ensures Complete(info) <==> !BadRequest(info)
  {
  }

  /** Bits 0, 1 and 3: read, write and map. */
  lemma GrantableRights()
    ensures RIGHTS_MASK == 11
  {
  }

  /**
   * Creation succeeds exactly for a complete request under the grantable rights, with task and endpoint tokens in
   * force and a range that passed, if a slot is unused or revoked, a token slot is, and, for a slot that never had
   * an object, an object slot.
   */
  lemma GrantCreateIff(g: Grants, info: GrantInfo, range: Status)
    requires GrantsOk(g)
    ensures GrantCreate(g, info, range).1.Good? <==>
      && Complete(info)
      && CapCheck(g.h.k, info.task, READ, OBJ_TASK).Good? && CapCheck(g.h.k, info.endpoint, SEND, OBJ_ENDPOINT).Good?
      && range == Ok
      && FreeCapSlot(g.h.k) && FreeGrantSlot(g)
  {
    Unwrapped(g);
    hide CapCheck, GrantsOk, ObjectCreate, Mint, FreeGrantSlot, FreeObjectSlot, FreeCapSlot, Recorded, Step,
      BadRequest, Complete;
    CompleteIsGood(info);
    FreeGrantIs(g);
    var slot := FirstReusable(g.slots, 0);
    if !BadRequest(info) && slot.Some? {
      SlotIff(g, info, slot.value);
    }
  }

  lemma SlotIff(g: Grants, info: GrantInfo, i: nat)
    requires GrantsOk(g) && i < MAX_GRANTS && Reusable(g.slots[i])
    ensures Recorded(g.h) && |g.h.k.objects| == |g.h.k.objectGens|
    ensures var caps := FreeCapSlot(g.h.k);
      var id := g.slots[i].objectId;
      var o := ObjectCreate(g.h.k, OBJ_GRANT, i).1;
      && (id != 0 ==> (Mint(g, i, id, info, true).1.Good? <==> caps))
      && (id == 0 ==> (o.Good? <==> FreeObjectSlot(g.h.k)))
      && (id == 0 && o.Good? ==>
            && Recorded(Step(g.h, NewObject(OBJ_GRANT, i)))
            && (Mint(g.(h := Step(g.h, NewObject(OBJ_GRANT, i))), i, o.value, info, false).1.Good? <==> caps))
  {
    Unwrapped(g);
    assert SlotOk(g, i);
    hide GrantsOk, ObjectLookup, Recorded, Step, CapCreate, ObjectCreate, Mint, Reusable, FreeCapSlot, FreeObjectSlot;
    ObjectCreateIff(g.h.k, OBJ_GRANT, i);
    var id, o := g.slots[i].objectId, ObjectCreate(g.h.k, OBJ_GRANT, i).1;
    if id != 0 {
      MintIff(g, i, id, info, true);
    } else if o.Good? {
      NewObjectCaps(g.h, i);
      MintIff(g.(h := Step(g.h, NewObject(OBJ_GRANT, i))), i, o.value, info, false);
    }
  }

  lemma MintIff(g: Grants, i: nat, id: nat, info: GrantInfo, reuse: bool)
    requires i < |g.slots| && Recorded(g.h) && ObjectLookup(g.h.k, id).Good?
    ensures Mint(g, i, id, info, reuse).1.Good? <==> FreeCapSlot(g.h.k)
  {
    RecordedShape(g.h);
    hide Recorded, ObjectLookup, FreeCapSlot, CapCreate, Step, Mint;
    var rights := WithRevoke(info.rights);
    MintCases(g, i, id, info, reuse, rights);
    CapCreateIff(g.h.k, id, rights);
  }

  lemma NewObjectCaps(h: History, i: nat)
    requires Recorded(h)
    ensures |h.k.objects| == |h.k.objectGens|
    ensures var h1, o := Step(h, NewObject(OBJ_GRANT, i)), ObjectCreate(h.k, OBJ_GRANT, i).1;
      && Recorded(h1) && (FreeCapSlot(h1.k) <==> FreeCapSlot(h.k))
      && (o.Good? ==> ObjectLookup(h1.k, o.value).Good?)
  {
    StepRecorded(h, NewObject(OBJ_GRANT, i));
    ObjectMade(h, OBJ_GRANT, i);
    hide ObjectLookup, Recorded;
    ObjectCreateIff(h.k, OBJ_GRANT, i);
  }

  lemma WithRevoke(rights: Rights) returns (r: Rights)
    ensures r == rights | REVOKE && r != 0
  {
    r := rights | REVOKE;
  }

  /** A part of a grant may be used exactly if it is not empty, lies in the grant, and the grant has the rights. */
  lemma CheckRangeExact(info: GrantInfo, offset: nat, length: nat, required: Rights)
    ensures CheckRange(info, offset, length, required) == Ok <==>
      && length > 0 && required != 0 && required & !RIGHTS_MASK == 0 && Covers(info.rights, required)
      && offset + length <= info.length
  {
    hide Covers;
  }

  /** The same tokens are accepted, for the same. */
  ghost predicate SameAccepted(k: Tables, k': Tables) { forall t :: Accepted(k', t) == Accepted(k, t) }

  /** The same slots can be reused. */
  ghost predicate SameSlots(ss: seq<GrantSlot>, ss': seq<GrantSlot>) {
    |ss'| == |ss| && forall i :: 0 <= i < |ss| ==> (Reusable(ss'[i]) <==> Reusable(ss[i]))
  }

  lemma AllTheSame(g: Grants)
    ensures SameAccepted(g.h.k, g.h.k) && SameSlots(g.slots, g.slots)
  {
  }

  lemma AcceptedSame(h: History, i: nat)
    requires Recorded(h)
    ensures |h.k.objects| == |h.k.objectGens| && |h.k.caps| == |h.k.capGens|
    ensures Recorded(Step(h, NewObject(OBJ_GRANT, i))) && SameAccepted(h.k, Step(h, NewObject(OBJ_GRANT, i)).k)
  {
    hide Accepted, ObjectLookup;
    NewObjectFrame(h, OBJ_GRANT, i);
  }

  /** A failing creation withdraws nothing, records nothing and takes no slot. */
  lemma GrantCreateFails(g: Grants, info: GrantInfo, range: Status)
    requires GrantsOk(g) && GrantCreate(g, info, range).1.Bad?
    ensures var g' := GrantCreate(g, info, range).0;
      g'.made == g.made && SameAccepted(g.h.k, g'.h.k) && SameSlots(g.slots, g'.slots)
  {
    Unwrapped(g);
    hide GrantCreate, GrantsOk, SameAccepted, SameSlots;
    AllTheSame(g);
    CreateTries(g, info, range);
    var slot := FirstReusable(g.slots, 0);
    if slot.Some? {
      SlotFails(g, info, slot.value);
    }
  }

  /** What creation comes down to: nothing, or minting over the first reusable slot. */
  lemma CreateTries(g: Grants, info: GrantInfo, range: Status)
    requires Recorded(g.h) && |g.h.k.objects| == |g.h.k.objectGens|
    ensures var c, slot := GrantCreate(g, info, range), FirstReusable(g.slots, 0);
      || (c.0 == g && c.1.Bad?)
      || (slot.Some? && g.slots[slot.value].objectId != 0
          && c == Mint(g, slot.value, g.slots[slot.value].objectId, info, true))
      || (slot.Some? && ObjectCreate(g.h.k, OBJ_GRANT, slot.value).1.Good?
          && Recorded(Step(g.h, NewObject(OBJ_GRANT, slot.value)))
          && c == Mint(g.(h := Step(g.h, NewObject(OBJ_GRANT, slot.value))), slot.value,
                       ObjectCreate(g.h.k, OBJ_GRANT, slot.value).1.value, info, false))
  {
    hide CapCheck, ObjectCreate, BadRequest, Recorded, Step, Mint;
    var slot := FirstReusable(g.slots, 0);
    if slot.Some? {
      StepRecorded(g.h, NewObject(OBJ_GRANT, slot.value));
    }
  }

  lemma SlotFails(g: Grants, info: GrantInfo, i: nat)
    requires GrantsOk(g) && i < MAX_GRANTS && Reusable(g.slots[i])
    ensures Recorded(g.h) && |g.h.k.objects| == |g.h.k.objectGens|
    ensures var m := Mint(g, i, g.slots[i].objectId, info, true);
      m.1.Bad? ==> m.0.made == g.made && SameAccepted(g.h.k, m.0.h.k) && SameSlots(g.slots, m.0.slots)
    ensures var o, h1 := ObjectCreate(g.h.k, OBJ_GRANT, i).1, Step(g.h, NewObject(OBJ_GRANT, i));
      o.Good? ==>
        && Recorded(h1)
        && var m := Mint(g.(h := h1), i, o.value, info, false);
           m.1.Bad? ==> m.0.made == g.made && SameAccepted(g.h.k, m.0.h.k) && SameSlots(g.slots, m.0.slots)
  {
    Unwrapped(g);
    hide GrantsOk, ObjectCreate, Recorded, Step, Accepted, Mint, SameAccepted, SameSlots, Reusable;
    AllTheSame(g);
    AcceptedSame(g.h, i);
    MintFails(g, i, g.slots[i].objectId, info, true);
    if ObjectCreate(g.h.k, OBJ_GRANT, i).1.Good? {
      var g1 := g.(h := Step(g.h, NewObject(OBJ_GRANT, i)));
      MintFails(g1, i, ObjectCreate(g.h.k, OBJ_GRANT, i).1.value, info, false);
    }
  }

  lemma MintFails(g: Grants, i: nat, id: nat, info: GrantInfo, reuse: bool)
    requires i < |g.slots| && Recorded(g.h) && Reusable(g.slots[i])
    ensures Mint(g, i, id, info, reuse).1.Bad? ==>
      var g' := Mint(g, i, id, info, reuse).0;
      g'.made == g.made && g'.h == g.h && SameSlots(g.slots, g'.slots)
  {
    hide Recorded, Step, CapCreate;
    var rights := WithRevoke(info.rights);
    MintCases(g, i, id, info, reuse, rights);
    hide Mint;
  }

  // ----- every run ---------------------------------------------------------------------------------------------

  datatype GrantOp = MakeGrant(info: GrantInfo, range: Status) | DropGrant(token: nat) | Elsewhere(op: Op)

  /** Only this table makes grant objects and tokens for them; anyone may revoke any token. */
  predicate Permitted(g: Grants, op: GrantOp) {
    match op
    case Elsewhere(NewObject(kind, _)) => kind != OBJ_GRANT
    case Elsewhere(NewCap(id, _)) => ObjectLookup(g.h.k, id).Good? ==> ObjectLookup(g.h.k, id).value.kind != OBJ_GRANT
    case _ => true
  }

  ghost function GrantStep(g: Grants, op: GrantOp): Grants
    requires GrantsOk(g)
  {
    match op
    case MakeGrant(info, range) => GrantCreate(g, info, range).0
    case DropGrant(token) => GrantRevoke(g, token).0
    case Elsewhere(o) => g.(h := Step(g.h, o))
  }

  lemma OtherCapOk(g: Grants, id: nat, rights: Rights)
    requires GrantsOk(g) && Permitted(g, Elsewhere(NewCap(id, rights)))
    ensures GrantsOk(g.(h := Step(g.h, NewCap(id, rights))))
  {
    RecordedShape(g.h);
    NoCapNoStep(g.h, id, rights);
    hide Accepted, ObjectLookup, Recorded, Step, CapCreate, TokenOk, SlotOk;
    if CapCreate(g.h.k, id, rights).1.Good? {
      NewCapFrame(g.h, id, rights);
      CarriedOver(g, Step(g.h, NewCap(id, rights)));
    }
  }

  lemma GrantStepOk(g: Grants, op: GrantOp)
    requires GrantsOk(g) && Permitted(g, op)
    ensures GrantsOk(GrantStep(g, op))
  {
    match op {
      case MakeGrant(info, range) => GrantCreateOk(g, info, range);
      case DropGrant(token) => GrantRevokeOk(g, token);
      case Elsewhere(NewObject(kind, payload)) => NewObjectKeepsGrants(g, kind, payload);
      case Elsewhere(NewCap(id, rights)) => OtherCapOk(g, id, rights);
      case Elsewhere(Revoke(token)) => WithdrawOk(g, token);
    }
  }

  ghost predicate AllPermitted(g: Grants, ops: seq<GrantOp>)
    requires GrantsOk(g)
    decreases ops
  {
    ops == [] || (Permitted(g, ops[0]) && (GrantStepOk(g, ops[0]); AllPermitted(GrantStep(g, ops[0]), ops[1..])))
  }

  /** The invariant holds in every run. */
  ghost function RunGrants(g: Grants, ops: seq<GrantOp>): (r: Grants)
    requires GrantsOk(g) && AllPermitted(g, ops)
    ensures GrantsOk(r)
    decreases ops
  {
    if ops == [] then g else (GrantStepOk(g, ops[0]); RunGrants(GrantStep(g, ops[0]), ops[1..]))
  }

  lemma StepUses(h: History, op: Op, i: nat)
    requires Recorded(h) && i < MAX_CAPS
    ensures Recorded(Step(h, op)) && Step(h, op).uses[i] >= h.uses[i]
  {
    StepRecorded(h, op);
  }

  lemma GrantStepUses(g: Grants, op: GrantOp, i: nat)
    requires GrantsOk(g) && Permitted(g, op) && i < MAX_CAPS
    ensures GrantsOk(GrantStep(g, op)) && GrantStep(g, op).h.uses[i] >= g.h.uses[i]
  {
    GrantStepOk(g, op);
    hide Step, CapCheck, GrantLookup, BadRequest, CapCreate, ObjectCreate, TokenOk, SlotOk, GrantCreate, OneToken;
    match op {
      case MakeGrant(info, range) => GrantCreateUses(g, info, range, i);
      case DropGrant(token) => StepUses(g.h, Revoke(token), i);
      case Elsewhere(o) => StepUses(g.h, o, i);
    }
  }

  lemma GrantCreateUses(g: Grants, info: GrantInfo, range: Status, n: nat)
    requires GrantsOk(g) && n < MAX_CAPS
    ensures |GrantCreate(g, info, range).0.h.uses| == MAX_CAPS && GrantCreate(g, info, range).0.h.uses[n] >= g.h.uses[n]
  {
    var f := FirstReusable(g.slots, 0);
    RecordedShape(g.h);
    RecordedUses(g.h);
    hide Mint, Step, CapCheck, BadRequest, ObjectCreate, TokenOk, SlotOk, OneToken, Recorded, FirstReusable;
    if f.Some? {
      var i := f.value;
      MintUses(g, i, g.slots[i].objectId, info, true, n);
      StepUses(g.h, NewObject(OBJ_GRANT, i), n);
      var r := ObjectCreate(g.h.k, OBJ_GRANT, i).1;
      if r.Good? {
        MintUses(g.(h := Step(g.h, NewObject(OBJ_GRANT, i))), i, r.value, info, false, n);
      }
    }
  }

  lemma MintUses(g: Grants, i: nat, id: nat, info: GrantInfo, reuse: bool, n: nat)
    requires i < |g.slots| && Recorded(g.h) && n < MAX_CAPS
    ensures |g.h.uses| == MAX_CAPS == |Mint(g, i, id, info, reuse).0.h.uses|
    ensures Mint(g, i, id, info, reuse).0.h.uses[n] >= g.h.uses[n]
  {
    var rights := info.rights | REVOKE;
    MintCases(g, i, id, info, reuse, rights);
    RecordedShape(g.h);
    RecordedUses(g.h);
    hide Mint, Step, CapCreate, Recorded;
    StepUses(g.h, NewCap(id, rights), n);
    RecordedUses(Step(g.h, NewCap(id, rights)));
  }

  lemma RecordedUses(h: History)
    requires Recorded(h)
    ensures |h.uses| == MAX_CAPS
  {
  }

  lemma {:induction false} RunUses(g: Grants, ops: seq<GrantOp>, i: nat)
    requires GrantsOk(g) && AllPermitted(g, ops) && i < MAX_CAPS
    ensures RunGrants(g, ops).h.uses[i] >= g.h.uses[i]
    decreases ops
  {
    hide GrantStep;
    if ops != [] {
      GrantStepOk(g, ops[0]);
      GrantStepUses(g, ops[0], i);
      RunUses(GrantStep(g, ops[0]), ops[1..], i);
    }
  }

  /**
   * In every run, whatever lookup a token passes, it leads to the base, length, rights, task and
   * endpoint the token was created with.
   */
  lemma TokenDenotes(ops: seq<GrantOp>, token: nat, required: Rights, live: bool)
    requires (StartOk(); AllPermitted(Start0(), ops))
    ensures GrantsOk(Start0())
    ensures var g := RunGrants(Start0(), ops);
      GrantLookup(g, token, required, live).Good? ==>
        token in g.made && g.slots[GrantLookup(g, token, required, live).value].info == g.made[token]
  {
    var g := RunGrants(Start0(), ops);
    if GrantLookup(g, token, required, live).Good? {
      LookupDenotes(g, token, required, live);
    }
  }

  /** A grant token that was withdrawn reaches no later occupant of its slot, until its generation comes round. */
  lemma WithdrawnStaysOut(g: Grants, ops: seq<GrantOp>, token: nat, required: Rights, live: bool)
    requires GrantsOk(g) && AllPermitted(g, ops) && SlotAccepts(g.h.k, token)
    ensures RunGrants(g, ops).h.uses[IndexOf(token)] >= g.h.uses[IndexOf(token)]
    ensures var g' := RunGrants(g, ops);
      0 < g'.h.uses[IndexOf(token)] - g.h.uses[IndexOf(token)] < 2 * CYCLE ==>
        GrantLookup(g', token, required, live).Bad?
  {
    RunUses(g, ops, IndexOf(token));
    MovesDecide(g.h, RunGrants(g, ops).h, token);
  }
}
