/** The user-grant table as the kernel keeps it, and copying out of a grant through the active root. */
module GrantTable {
  import opened KernelTypes
  import opened Capabilities
  import opened CapabilityHistory
  import opened CapTable
  import opened UserGrants
  import opened Paging
  import opened UserIpc

  /** The grant was created for this endpoint and may be read, and its task and endpoint tokens are in force. */
  predicate Readable(g: Grants, token: nat, endpoint: nat) {
    && OnGrant(g.h.k, token) && token in g.made
    && var info := g.made[token];
       && info.endpoint == endpoint && Covers(info.rights, READ)
       && CapCheck(g.h.k, info.task, READ, OBJ_TASK).Good?
       && CapCheck(g.h.k, info.endpoint, SEND, OBJ_ENDPOINT).Good?
  }

  lemma ReadCovered(rights: Rights)
    ensures Covers(rights | REVOKE, READ) <==> Covers(rights, READ)
  {
  }

  lemma MaskHoldsRead()
    ensures READ & !RIGHTS_MASK == 0 && READ != 0
  {
  }

  /** A live lookup for reading finds a slot exactly for a readable grant. */
  lemma LookupExact(g: Grants, token: nat, endpoint: nat)
    requires GrantsOk(g)
    ensures var r := GrantLookup(g, token, READ, true);
      && (r.Good? ==> r.value < |g.slots| && token in g.made && g.slots[r.value].info == g.made[token])
      && (r.Good? && g.made[token].endpoint == endpoint <==> Readable(g, token, endpoint))
  {
    if GrantLookup(g, token, READ, true).Good? {
      LookupDenotes(g, token, READ, true);
      ReadCovered(g.made[token].rights);
    } else if Readable(g, token, endpoint) {
      ReadableFound(g, token, endpoint);
    }
  }

  lemma ReadableFound(g: Grants, token: nat, endpoint: nat)
    requires GrantsOk(g) && Readable(g, token, endpoint)
    ensures GrantLookup(g, token, READ, true).Good?
  {
    MaskHoldsRead();
    ReadCovered(g.made[token].rights);
    LookupIsSlot(g.h.k, token);
    assert TokenOk(g, token);
  }

  class UserGrantTable {
    const tables: KernelTables
    const slots: array<GrantSlot>
    /** What was issued and revoked so far, and what each token was created with. */
    ghost var h: History
    ghost var made: map<nat, GrantInfo>

    ghost function Value(): Grants
      reads this, slots
    {
      Grants(h, slots[..], made)
    }

    /** Every slot's range was validated, so it does not wrap. */
    ghost predicate Consistent()
      reads this, slots, tables.objects, tables.objectGens, tables.caps, tables.capGens
    {
      && tables.Valid() && slots.Length == MAX_GRANTS
      && h.k == tables.Value() && Recorded(h)
      && forall i :: 0 <= i < slots.Length ==> slots[i].info.base + slots[i].info.length <= TWO64
    }

    ghost predicate Valid()
      reads this, slots, tables.objects, tables.objectGens, tables.caps, tables.capGens
    {
      Consistent() && GrantsOk(Value())
    }

    constructor ()
      ensures Valid() && Value() == Start0()
    {
      StartOk();
      tables := new KernelTables();
      slots := new GrantSlot[MAX_GRANTS](_ => EMPTY_SLOT);
      h := CapabilityHistory.Start();
      made := map[];
    }

    method Lookup(token: nat, required: Rights, live: bool) returns (r: Result<nat>)
      requires Valid()
      ensures r == GrantLookup(Value(), token, required, live)
    {
      hide GrantsOk, CapCheck, ObjectLookup;
      var e := tables.CheckCap(token, required, OBJ_GRANT);
      if e.Bad? {
        return Bad(e.error);
      }
      var o := tables.LookupObject(e.value.objectId);
      if o.Bad? {
        return Bad(o.error);
      }
      if o.value.payload >= MAX_GRANTS || slots[o.value.payload].objectId != e.value.objectId {
        return Bad(NoEnt);
      }
      var slot := slots[o.value.payload];
      if slot.revoked {
        return Bad(Perm);
      }
      if live {
        var t := tables.CheckCap(slot.info.task, READ, OBJ_TASK);
        if t.Bad? {
          return Bad(t.error);
        }
        t := tables.CheckCap(slot.info.endpoint, SEND, OBJ_ENDPOINT);
        if t.Bad? {
          return Bad(t.error);
        }
      }
      return Good(o.value.payload);
    }

    /** Creation over the first slot that is unused or revoked; its range is validated through the active root. */
    method Create(m: Machine, info: GrantInfo) returns (r: Result<nat>, ghost range: Status)
      requires Valid() && Sound(m) && info.base < TWO64 && info.length < TWO64
      modifies this, slots, tables.objects, tables.objectGens, tables.caps, tables.capGens
      ensures Valid() && (Value(), r) == GrantCreate(old(Value()), info, range)
      ensures !BadRequest(info) && CapCheck(old(h).k, info.task, READ, OBJ_TASK).Good?
              && CapCheck(old(h).k, info.endpoint, SEND, OBJ_ENDPOINT).Good? ==>
        (range == Ok <==>
           && info.base + info.length <= TWO64
           && UserBytes(m, info.base, info.base + info.length, info.rights & WRITE != 0))
    {
      hide GrantsOk, CapCheck, Sound, UserBytes, Mint, BadRequest;
      ghost var g := Value();
      assert Recorded(g.h) by { Unfold(g); }
      Nonempty(info);
      range := Inval;
      if BadRequest(info) {
        return Bad(Inval), Inval;
      }
      var c := tables.CheckCap(info.task, READ, OBJ_TASK);
      if c.Bad? {
        return Bad(c.error), Inval;
      }
      c := tables.CheckCap(info.endpoint, SEND, OBJ_ENDPOINT);
      if c.Bad? {
        return Bad(c.error), Inval;
      }
      var s := ValidateRange(m, info.base, info.length, info.rights & WRITE != 0);
      range := s;
      if s != Ok {
        return Bad(s), range;
      }
      GrantCreateOk(g, info, range);
      for i := 0 to MAX_GRANTS
        invariant Valid() && Value() == g
        invariant FirstReusable(g.slots, 0) == FirstReusable(g.slots, i)
      {
        if slots[i].objectId == 0 || slots[i].revoked {
          r := Place(i, info, g, range);
          return;
        }
      }
      return Bad(NoMem), range;
    }

    method Place(i: nat, info: GrantInfo, ghost g: Grants, ghost range: Status) returns (r: Result<nat>)
      requires Valid() && Value() == g && i < MAX_GRANTS && FirstReusable(g.slots, 0) == Some(i)
      requires range == Ok && !BadRequest(info) && info.base + info.length <= TWO64
      requires CapCheck(g.h.k, info.task, READ, OBJ_TASK).Good?
        && CapCheck(g.h.k, info.endpoint, SEND, OBJ_ENDPOINT).Good?
      modifies this, slots, tables.objects, tables.objectGens, tables.caps, tables.capGens
      ensures Valid() && (Value(), r) == GrantCreate(g, info, range)
    {
      hide GrantsOk, CapCheck, BadRequest, ObjectCreate, Mint, Step, FirstReusable, Recorded;
      assert Recorded(g.h) by { Unfold(g); }
      RecordedShape(g.h);
      GrantCreateOk(g, info, range);
      var id, reuse := slots[i].objectId, slots[i].objectId != 0 && slots[i].revoked;
      if !reuse {
        var o := tables.CreateObject(OBJ_GRANT, i);
        if o.Bad? {
          FailedCreate(g.h, OBJ_GRANT, i);
          return Bad(o.error);
        }
        id := o.value;
        StepRecorded(h, NewObject(OBJ_GRANT, i));
        h := Step(h, NewObject(OBJ_GRANT, i));
        CreatedTables(g.h, OBJ_GRANT, i);
      }
      r := PutToken(i, id, info, reuse);
    }

    /** Fills the slot and mints its token; if that fails the slot is left revoked or cleared. */
    method PutToken(i: nat, id: nat, info: GrantInfo, reuse: bool) returns (r: Result<nat>)
      requires Consistent() && i < MAX_GRANTS && info.base + info.length <= TWO64
      modifies this, slots, tables.caps, tables.capGens
      ensures Consistent() && (Value(), r) == Mint(old(Value()), i, id, info, reuse)
    {
      ghost var g, rights := Value(), info.rights | REVOKE;
      StepRecorded(h, NewCap(id, rights));
      RecordedShape(h);
      MintCases(g, i, id, info, reuse, rights);
      hide Recorded, CapCreate, Step, Mint;
      slots[i] := GrantSlot(id, info, false);
      assert slots[..] == g.slots[i := GrantSlot(id, info, false)];
      r := tables.CreateCap(id, info.rights | REVOKE);
      if r.Good? {
        h := Step(h, NewCap(id, rights));
        made := made[r.value := info];
      } else {
        slots[i] := if reuse then GrantSlot(id, NO_INFO, true) else EMPTY_SLOT;
        assert slots[..] == g.slots[i := if reuse then GrantSlot(id, NO_INFO, true) else EMPTY_SLOT];
      }
    }

    /** Revocation marks the slot and withdraws the token. */
    method Revoke(token: nat) returns (s: Status)
      requires Valid()
      modifies this, slots, tables.caps, tables.capGens
      ensures Valid() && (Value(), s) == GrantRevoke(old(Value()), token)
    {
      hide GrantLookup, GrantsOk, CapRevoke;
      GrantRevokeOk(Value(), token);
      ghost var g := Value();
      assert Recorded(g.h) by { Unfold(g); }
      RecordedShape(g.h);
      var r := Lookup(token, REVOKE, false);
      if r.Bad? {
        return r.error;
      }
      FoundInTable(g, token, REVOKE, false);
      slots[r.value] := slots[r.value].(revoked := true);
      h := Step(h, Op.Revoke(token));
      s := tables.RevokeCap(token);
      RevokedTables(g.h, token);
      assert slots[..] == g.slots[r.value := g.slots[r.value].(revoked := true)];
      Unfold(Value());
    }

    /** The bytes at offset of the grant, through the active root. */
    method CopyFrom(m: Machine, ram: nat -> nat, endpoint: nat, token: nat, offset: nat, length: nat)
      returns (r: Result<seq<nat>>)
      requires Valid() && Sound(m) && offset < TWO64 && length < TWO64
      ensures r.Good? <==>
        && endpoint != 0 && length > 0 && Readable(Value(), token, endpoint)
        && offset + length <= made[token].length
        && UserBytes(m, made[token].base + offset, made[token].base + offset + length, false)
      ensures r.Good? ==>
        && |r.value| == length
        && forall i :: 0 <= i < length ==> r.value[i] == ByteAt(m, ram, made[token].base + offset + i)
    {
      hide GrantLookup, GrantsOk, Sound, UserBytes, ByteAt, Readable;
      if endpoint == 0 {
        return Bad(Inval);
      }
      var i := Lookup(token, READ, true);
      LookupExact(Value(), token, endpoint);
      if i.Bad? {
        return Bad(i.error);
      }
      var slot := slots[i.value];
      if slot.info.endpoint != endpoint {
        return Bad(Perm);
      }
      var c := CheckRange(slot.info, offset, length, READ);
      ReadableCovers(Value(), token, endpoint);
      if c != Ok {
        return Bad(c);
      }
      r := UserIpc.CopyFrom(m, ram, (slot.info.base + offset) % TWO64, length);
    }
  }

  lemma Nonempty(info: GrantInfo)
    ensures !BadRequest(info) ==> info.length > 0
  {
  }

  lemma Unfold(g: Grants)
    requires GrantsOk(g)
    ensures Recorded(g.h)
  {
  }

  lemma FoundInTable(g: Grants, token: nat, required: Rights, live: bool)
    requires GrantsOk(g) && GrantLookup(g, token, required, live).Good?
    ensures GrantLookup(g, token, required, live).value < MAX_GRANTS == |g.slots|
  {
  }

  lemma RevokedTables(h: History, token: nat)
    requires Recorded(h)
    ensures Step(h, Op.Revoke(token)).k == CapRevoke(h.k, token).0
  {
    LookupIsSlot(h.k, token);
  }

  lemma CreatedTables(h: History, kind: nat, payload: nat)
    requires Recorded(h)
    ensures Step(h, NewObject(kind, payload)).k == ObjectCreate(h.k, kind, payload).0
  {
  }

  lemma FailedCreate(h: History, kind: nat, payload: nat)
    requires Recorded(h) && ObjectCreate(h.k, kind, payload).1.Bad?
    ensures ObjectCreate(h.k, kind, payload).0 == h.k
  {
  }

  lemma ReadableCovers(g: Grants, token: nat, endpoint: nat)
    ensures Readable(g, token, endpoint) ==> Covers(g.made[token].rights, READ) && READ & !RIGHTS_MASK == 0 && READ != 0
  {
    MaskHoldsRead();
  }
}
