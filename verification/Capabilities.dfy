/**
 * Kernel objects and capability tokens: tables of slots with 32-bit generations, and what a token
 * check means in terms of everything that was issued and revoked before.
 */
module Capabilities {
  import opened KernelTypes

  const MAX_CAPS: nat := 4096
  const MAX_OBJECTS: nat := 4096
  const NO_TYPE: nat := 0

  type Rights = bv64

  const READ: Rights := 1
  const WRITE: Rights := 2
  const EXEC: Rights := 4
  const MAP: Rights := 8
  const SEND: Rights := 16
  const RECV: Rights := 32
  const BIND: Rights := 64
  const REVOKE: Rights := 128

  const OBJ_ADDRESS_SPACE: nat := 2
  const OBJ_TASK: nat := 3
  const OBJ_ENDPOINT: nat := 5
  const OBJ_RING: nat := 6
  const OBJ_GRANT: nat := 7
  const OBJ_FILE: nat := 9

  /** Payload is the index of the slot that the object stands for in its subsystem's own table. */
  datatype Object = Object(id: nat, kind: nat, generation: nat, payload: nat)

  datatype CapEntry = CapEntry(objectId: nat, generation: nat, kind: nat, revoked: bool, rights: Rights)

  datatype Tables = Tables(objects: seq<Object>, objectGens: seq<nat>, caps: seq<CapEntry>, capGens: seq<nat>)

  // ----- tokens -----------------------------------------------------------------------------------

  /** The generation in the upper and the slot index in the lower 32 bits. */
  function MakeToken(index: nat, generation: nat): nat { generation * TWO32 + index }
  function IndexOf(token: nat): nat { token % TWO32 }
  function GenerationOf(token: nat): nat { token / TWO32 }

  lemma TokenParts(index: nat, generation: nat)
    requires index < TWO32
    ensures IndexOf(MakeToken(index, generation)) == index && GenerationOf(MakeToken(index, generation)) == generation
  {
  }

  lemma TokenWhole(token: nat)
    ensures MakeToken(IndexOf(token), GenerationOf(token)) == token
  {
  }

  /** 32-bit increment that skips zero. */
  function NextGen(g: nat): nat { if (g + 1) % TWO32 == 0 then 1 else (g + 1) % TWO32 }

  // ----- objects -------------------------------------------------------------------------------------

  function FirstFreeObject(os: seq<Object>, from: nat): (r: Option<nat>)
    requires from <= |os|
    ensures r.Some? ==> from <= r.value < |os| && os[r.value].kind == NO_TYPE
    ensures r.None? ==> forall i :: from <= i < |os| ==> os[i].kind != NO_TYPE
    ensures r.Some? ==> forall i :: from <= i < r.value ==> os[i].kind != NO_TYPE
    decreases |os| - from
  {
    if from == |os| then None else if os[from].kind == NO_TYPE then Some(from) else FirstFreeObject(os, from + 1)
  }

  function ObjectCreate(k: Tables, kind: nat, payload: nat): (Tables, Result<nat>)
    requires |k.objects| == |k.objectGens|
  {
    if kind == NO_TYPE then (k, Bad(Inval))
    else
      match FirstFreeObject(k.objects, 0)
      case None => (k, Bad(NoMem))
      case Some(i) =>
        var g := NextGen(k.objectGens[i]);
        var id := MakeToken(i, g);
        (k.(objectGens := k.objectGens[i := g], objects := k.objects[i := Object(id, kind, g, payload)]), Good(id))
  }

  function ObjectLookup(k: Tables, id: nat): Result<Object> {
    if id == 0 then Bad(Inval)
    else
      var i, g := IndexOf(id), GenerationOf(id);
      if i >= |k.objects| || g == 0 then Bad(NoEnt)
      else if k.objects[i].kind == NO_TYPE || k.objects[i].generation != g || k.objects[i].id != id then Bad(NoEnt)
      else Good(k.objects[i])
  }

  // ----- capabilities -----------------------------------------------------------------------------------

  predicate SlotTaken(e: CapEntry) { e.objectId != 0 && !e.revoked }

  function FirstFreeCap(cs: seq<CapEntry>, from: nat): (r: Option<nat>)
    requires from <= |cs|
    ensures r.Some? ==> from <= r.value < |cs| && !SlotTaken(cs[r.value])
    ensures r.None? ==> forall i :: from <= i < |cs| ==> SlotTaken(cs[i])
    ensures r.Some? ==> forall i :: from <= i < r.value ==> SlotTaken(cs[i])
    decreases |cs| - from
  {
    if from == |cs| then None else if !SlotTaken(cs[from]) then Some(from) else FirstFreeCap(cs, from + 1)
  }

  function CapCreate(k: Tables, objectId: nat, rights: Rights): (Tables, Result<nat>)
    requires |k.caps| == |k.capGens|
  {
    if rights == 0 then (k, Bad(Inval))
    else
      match ObjectLookup(k, objectId)
      case Bad(s) => (k, Bad(s))
      case Good(o) =>
        match FirstFreeCap(k.caps, 0)
        case None => (k, Bad(NoMem))
        case Some(i) =>
          var g := NextGen(k.capGens[i]);
          (k.(capGens := k.capGens[i := g], caps := k.caps[i := CapEntry(o.id, o.generation, o.kind, false, rights)]),
           Good(MakeToken(i, g)))
  }

  /** The token matches its slot's generation and the slot is in use. */
  predicate SlotAccepts(k: Tables, token: nat) {
    var i, g := IndexOf(token), GenerationOf(token);
    i < |k.caps| && i < |k.capGens| && g != 0 && k.capGens[i] == g && SlotTaken(k.caps[i])
  }

  function CapLookup(k: Tables, token: nat): Result<CapEntry> {
    if token == 0 then Bad(Inval)
    else if !SlotAccepts(k, token) then Bad(NoEnt)
    else
      var e := k.caps[IndexOf(token)];
      match ObjectLookup(k, e.objectId)
      case Bad(s) => Bad(s)
      case Good(o) => if o.generation != e.generation || o.kind != e.kind then Bad(NoEnt) else Good(e)
  }

  predicate Covers(rights: Rights, required: Rights) { rights & required == required }

  function CapCheck(k: Tables, token: nat, required: Rights, kind: nat): Result<CapEntry> {
    if required == 0 then Bad(Inval)
    else
      match CapLookup(k, token)
      case Bad(s) => Bad(s)
      case Good(e) =>
        if kind != NO_TYPE && e.kind != kind then Bad(Perm)
        else if !Covers(e.rights, required) then Bad(Perm)
        else Good(e)
  }

  function CapRevoke(k: Tables, token: nat): (Tables, Status) {
    match CapLookup(k, token)
    case Bad(s) => (k, s)
    case Good(e) =>
      var i := IndexOf(token);
      (k.(caps := k.caps[i := e.(revoked := true)], capGens := k.capGens[i := NextGen(k.capGens[i])]), Ok)
  }

  // ----- well-formed tables -----------------------------------------------------------------------------

  ghost predicate ObjectsOk(k: Tables) {
    && |k.objects| == MAX_OBJECTS && |k.objectGens| == MAX_OBJECTS
    && (forall i :: 0 <= i < MAX_OBJECTS ==> k.objectGens[i] < TWO32)
    && (forall i :: 0 <= i < MAX_OBJECTS && k.objects[i].kind != NO_TYPE ==>
          k.objects[i].generation == k.objectGens[i] > 0 && k.objects[i].id == MakeToken(i, k.objectGens[i]))
  }

  /** Every entry in use names an existing object with its generation and kind. */
  ghost predicate EntryOk(k: Tables, e: CapEntry) {
    e.objectId != 0 ==>
      ObjectLookup(k, e.objectId).Good? && ObjectLookup(k, e.objectId).value.generation == e.generation
      && ObjectLookup(k, e.objectId).value.kind == e.kind
  }

  ghost predicate TablesOk(k: Tables) {
    && ObjectsOk(k) && |k.caps| == MAX_CAPS && |k.capGens| == MAX_CAPS
    && (forall i :: 0 <= i < MAX_CAPS ==> k.capGens[i] < TWO32 && EntryOk(k, k.caps[i]))
    && (forall i :: 0 <= i < MAX_CAPS && SlotTaken(k.caps[i]) ==> k.capGens[i] > 0)
  }

  const EMPTY_ENTRY: CapEntry := CapEntry(0, 0, NO_TYPE, false, 0)

  function InitialTables(): Tables {
    Tables(seq(MAX_OBJECTS, i => Object(0, NO_TYPE, 0, 0)), seq(MAX_OBJECTS, i => 0),
           seq(MAX_CAPS, i => EMPTY_ENTRY), seq(MAX_CAPS, i => 0))
  }

  lemma LookupCreated(k: Tables, kind: nat, payload: nat)
    requires ObjectsOk(k)
    ensures var (k', r) := ObjectCreate(k, kind, payload);
      && ObjectsOk(k')
      && (forall id :: ObjectLookup(k, id).Good? ==> ObjectLookup(k', id) == ObjectLookup(k, id))
      && (r.Good? ==> ObjectLookup(k, r.value).Bad? && ObjectLookup(k', r.value).Good?
                      && ObjectLookup(k', r.value).value.kind == kind
                      && ObjectLookup(k', r.value).value.payload == payload
                      && ObjectLookup(k', r.value).value.id == r.value)
  {
    var (k', r) := ObjectCreate(k, kind, payload);
    if r.Good? {
      var i := FirstFreeObject(k.objects, 0).value;
      TokenParts(i, NextGen(k.objectGens[i]));
      forall id | ObjectLookup(k, id).Good? ensures ObjectLookup(k', id) == ObjectLookup(k, id) {
        assert IndexOf(id) != i;
      }
    }
  }

  predicate FreeObjectSlot(k: Tables) { exists i :: 0 <= i < |k.objects| && k.objects[i].kind == NO_TYPE }

  predicate FreeCapSlot(k: Tables) { exists i :: 0 <= i < |k.caps| && (k.caps[i].objectId == 0 || k.caps[i].revoked) }

  /** An object is made exactly if it has a kind and a slot is free. */
  lemma ObjectCreateIff(k: Tables, kind: nat, payload: nat)
    requires |k.objects| == |k.objectGens|
    ensures var (k', r) := ObjectCreate(k, kind, payload);
      && k'.caps == k.caps && (r.Good? <==> kind != NO_TYPE && FreeObjectSlot(k))
      && (r.Bad? ==> ObjectCreate(k, kind, payload).0 == k)
  {
  }

  /** A token is minted exactly if it carries a right, the object exists, and a slot is unused or revoked. */
  lemma CapCreateIff(k: Tables, objectId: nat, rights: Rights)
    requires |k.caps| == |k.capGens|
    ensures var r := CapCreate(k, objectId, rights).1;
      && (r.Good? <==> rights != 0 && ObjectLookup(k, objectId).Good? && FreeCapSlot(k))
      && (r.Bad? ==> CapCreate(k, objectId, rights).0 == k)
  {
    hide ObjectLookup;
    assert forall i :: 0 <= i < |k.caps| ==> (SlotTaken(k.caps[i]) <==> k.caps[i].objectId != 0 && !k.caps[i].revoked);
  }

  /** Each right is a bit of its own. */
  lemma OneRight(rights: Rights)
    ensures Covers(rights, READ) <==> rights & 1 != 0
    ensures Covers(rights, WRITE) <==> rights & 2 != 0
    ensures Covers(rights, EXEC) <==> rights & 4 != 0
    ensures Covers(rights, MAP) <==> rights & 8 != 0
    ensures Covers(rights, SEND) <==> rights & 16 != 0
    ensures Covers(rights, RECV) <==> rights & 32 != 0
    ensures Covers(rights, BIND) <==> rights & 64 != 0
    ensures Covers(rights, REVOKE) <==> rights & 128 != 0
  {
  }

  /** A right that is required and not there is not covered; what is there covers itself. */
  lemma MissingRight(rights: Rights, required: Rights, bit: Rights)
    ensures required & bit != 0 && rights & bit == 0 ==> !Covers(rights, required)
    ensures Covers(rights, rights)
  {
  }

  /** On well-formed tables a token is accepted exactly when its slot accepts it. */
  lemma LookupIsSlot(k: Tables, token: nat)
    requires TablesOk(k)
    ensures CapLookup(k, token).Good? <==> SlotAccepts(k, token)
    ensures SlotAccepts(k, token) ==> CapLookup(k, token) == Good(k.caps[IndexOf(token)])
  {
    if SlotAccepts(k, token) {
      assert EntryOk(k, k.caps[IndexOf(token)]);
      assert token != 0;
    }
  }
}
