/** Tokens of address spaces over whole runs: each stands for one root from its creation to its revocation. */
module SpaceTokens {
  import opened KernelTypes
  import opened Capabilities
  import C = CapabilityHistory
  import opened MemoryRuns
  import opened HeapBlocks
  import opened GrowthCost
  import opened AddressSpaces

  /** From k to k' the token's slot moved on, or the token stands for what it stood for. */
  ghost predicate SameHome(k: Kernel, k': Kernel, token: nat)
    requires IndexOf(token) < MAX_CAPS
  {
    var i := IndexOf(token);
    && C.Recorded(k.h) && C.Recorded(k'.h) && k.h.uses[i] <= k'.h.uses[i]
    && (k.h.uses[i] == k'.h.uses[i] ==> C.Latest(k'.h.log, token) == C.Latest(k.h.log, token))
    && (forall id :: id in k.homes ==> id in k'.homes && k'.homes[id] == k.homes[id])
    && (forall id :: id in k'.homes && id !in k.homes ==> ObjectLookup(k.h.k, id).Bad?)
    && (forall id :: ObjectLookup(k.h.k, id).Good? ==> ObjectLookup(k'.h.k, id) == ObjectLookup(k.h.k, id))
  }

  lemma CreateSameHome(k: Kernel, token: nat)
    requires SpacesOk(k) && IndexOf(token) < MAX_CAPS
    ensures SameHome(k, SpaceCreateNew(k).0, token)
  {
    hide SpacesOk, ObjectLookup, C.Recorded, ObjectCreate, CapCreate, C.Step, SpaceCreateNew, C.Latest, IndexOf;
    HomesKnown(k);
    C.RecordedShape(k.h);
    CreatedHistory(k);
    var k' := SpaceCreateNew(k).0;
    if |k'.spaces| != |k.spaces| {
      var make := C.NewObject(OBJ_ADDRESS_SPACE, |k.spaces|);
      var h, id := C.Step(k.h, make), ObjectCreate(k.h.k, OBJ_ADDRESS_SPACE, |k.spaces|).1.value;
      C.LatestStays(k.h, make, token);
      C.ObjectsStay(k.h, make);
      C.ObjectMade(k.h, OBJ_ADDRESS_SPACE, |k.spaces|);
      C.RecordedShape(h);
      C.LatestStays(h, C.NewCap(id, SPACE_RIGHTS), token);
      C.ObjectsStay(h, C.NewCap(id, SPACE_RIGHTS));
      UsesShape(k.h);
      UsesShape(h);
    }
  }

  lemma UsesShape(h: C.History)
    requires C.Recorded(h)
    ensures |h.uses| == MAX_CAPS
  {
  }

  lemma StepSameHome(k: Kernel, op: SpaceOp, token: nat)
    requires SpacesOk(k) && Admitted(k, op) && IndexOf(token) < MAX_CAPS
    ensures SameHome(k, SpaceStep(k, op), token)
  {
    hide SpacesOk, ObjectLookup, C.Recorded, C.Step, SpaceCreateNew, C.Latest, IndexOf, Admitted, LookupSpace, Kfree,
      Step, MapStep, UnmapStep, KallocMachine, KallocBlocks;
    HomesKnown(k);
    UsesShape(k.h);
    match op {
      case CreateOp => CreateSameHome(k, token);
      case CapOp(o) =>
        C.RecordedShape(k.h);
        C.LatestStays(k.h, o, token);
        C.ObjectsStay(k.h, o);
      case _ =>
    }
  }

  lemma SameHomeTrans(a: Kernel, b: Kernel, c: Kernel, token: nat)
    requires IndexOf(token) < MAX_CAPS && SameHome(a, b, token) && SameHome(b, c, token)
    ensures SameHome(a, c, token)
  {
    hide ObjectLookup, C.Recorded, C.Latest, IndexOf;
  }

  lemma {:induction false} RunSameHome(k: Kernel, ops: seq<SpaceOp>, token: nat)
    requires SpacesOk(k) && AllAdmitted(k, ops) && IndexOf(token) < MAX_CAPS
    ensures SameHome(k, RunSpaces(k, ops), token)
    decreases ops
  {
    hide SpacesOk, SpaceStep, Admitted, SameHome, IndexOf;
    if ops == [] {
      HomesKnown(k);
      SameHomeSelf(k, token);
    } else {
      SpaceStepOk(k, ops[0]);
      StepSameHome(k, ops[0], token);
      RunSameHome(SpaceStep(k, ops[0]), ops[1..], token);
      SameHomeTrans(k, SpaceStep(k, ops[0]), RunSpaces(k, ops), token);
    }
  }

  lemma SameHomeSelf(k: Kernel, token: nat)
    requires C.Recorded(k.h) && IndexOf(token) < MAX_CAPS
    ensures SameHome(k, k, token)
  {
  }

  /**
   * A token stands for its root for life: in every run, until the token is revoked it gives the same rights to the
   * same root, and from then on it gives none for 2^32 - 2 further issues on its slot.
   */
  lemma TokenForLife(k: Kernel, ops: seq<SpaceOp>, token: nat, right: Rights)
    requires SpacesOk(k) && AllAdmitted(k, ops) && Home(k, token, right).Some?
    ensures IndexOf(token) < MAX_CAPS == |k.h.uses| == |RunSpaces(k, ops).h.uses|
    ensures var k', i := RunSpaces(k, ops), IndexOf(token);
      && k.h.uses[i] <= k'.h.uses[i]
      && (k.h.uses[i] == k'.h.uses[i] ==> Home(k', token, right) == Home(k, token, right))
      && (0 < k'.h.uses[i] - k.h.uses[i] < 2 * C.CYCLE ==> Home(k', token, right) == None)
  {
    hide SpacesOk, RunSpaces, AllAdmitted, C.Recorded, ObjectLookup, IndexOf;
    HomesKnown(k);
    var k' := RunSpaces(k, ops);
    HomesKnown(k');
    UsesShape(k.h);
    UsesShape(k'.h);
    IssuedSlot(k.h, token);
    RunSameHome(k, ops, token);
    hide C.Latest;
    Withdrawn(k.h, k'.h, token);
  }

  lemma IssuedSlot(h: C.History, token: nat)
    requires C.Recorded(h) && C.Latest(h.log, token).Some? && C.Latest(h.log, token).value.Issued?
    ensures IndexOf(token) < MAX_CAPS && SlotAccepts(h.k, token)
  {
    hide C.Latest;
    assert C.Agrees(h, token);
  }

  lemma Withdrawn(h: C.History, h': C.History, token: nat)
    requires C.Recorded(h) && C.Recorded(h') && IndexOf(token) < MAX_CAPS && SlotAccepts(h.k, token)
    requires |h.uses| == MAX_CAPS == |h'.uses| && h.uses[IndexOf(token)] <= h'.uses[IndexOf(token)]
    ensures 0 < h'.uses[IndexOf(token)] - h.uses[IndexOf(token)] < 2 * C.CYCLE ==>
      var last := C.Latest(h'.log, token); last.None? || last.value.Withdrawn?
  {
    hide C.Latest, CapLookup, C.GenAfter, EntryOk, ObjectsOk;
    C.MovesDecide(h, h', token);
    C.SmallRemainder(h'.uses[IndexOf(token)] - h.uses[IndexOf(token)]);
    assert C.Agrees(h', token);
  }
}
