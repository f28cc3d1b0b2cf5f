/** The object and capability tables as the kernel keeps them: static arrays scanned and changed in place. */
module CapTable {
  import opened KernelTypes
  import opened Capabilities

  class KernelTables {
    const objects: array<Object>
    const objectGens: array<nat>
    const caps: array<CapEntry>
    const capGens: array<nat>

    ghost predicate Valid() {
      && objects.Length == objectGens.Length == MAX_OBJECTS
      && caps.Length == capGens.Length == MAX_CAPS
      && objectGens != capGens
    }

    ghost function Value(): Tables
      reads objects, objectGens, caps, capGens
    {
      Tables(objects[..], objectGens[..], caps[..], capGens[..])
    }

    constructor ()
      ensures Valid() && Value() == InitialTables()
      ensures fresh(objects) && fresh(objectGens) && fresh(caps) && fresh(capGens)
    {
      objects := new Object[MAX_OBJECTS](_ => Object(0, NO_TYPE, 0, 0));
      objectGens := new nat[MAX_OBJECTS](_ => 0);
      caps := new CapEntry[MAX_CAPS](_ => EMPTY_ENTRY);
      capGens := new nat[MAX_CAPS](_ => 0);
    }

    method CreateObject(kind: nat, payload: nat) returns (r: Result<nat>)
      requires Valid()
      modifies objects, objectGens
      ensures (Value(), r) == ObjectCreate(old(Value()), kind, payload)
    {
      if kind == NO_TYPE {
        return Bad(Inval);
      }
      for i := 0 to MAX_OBJECTS
        invariant Value() == old(Value())
        invariant FirstFreeObject(objects[..], 0) == FirstFreeObject(objects[..], i)
      {
        if objects[i].kind == NO_TYPE {
          var g := NextGen(objectGens[i]);
          objectGens[i] := g;
          objects[i] := Object(MakeToken(i, g), kind, g, payload);
          return Good(MakeToken(i, g));
        }
      }
      return Bad(NoMem);
    }

    method LookupObject(id: nat) returns (r: Result<Object>)
      requires Valid()
      ensures r == ObjectLookup(Value(), id)
    {
      if id == 0 {
        return Bad(Inval);
      }
      var i, g := id % TWO32, id / TWO32;
      if i >= MAX_OBJECTS || g == 0 {
        return Bad(NoEnt);
      }
      var o := objects[i];
      if o.kind == NO_TYPE || o.generation != g || o.id != id {
        return Bad(NoEnt);
      }
      return Good(o);
    }

    method CreateCap(objectId: nat, rights: Rights) returns (r: Result<nat>)
      requires Valid()
      modifies caps, capGens
      ensures (Value(), r) == CapCreate(old(Value()), objectId, rights)
    {
      if rights == 0 {
        return Bad(Inval);
      }
      var o := LookupObject(objectId);
      if o.Bad? {
        return Bad(o.error);
      }
      for i := 0 to MAX_CAPS
        invariant Value() == old(Value())
        invariant FirstFreeCap(caps[..], 0) == FirstFreeCap(caps[..], i)
      {
        if !(caps[i].objectId != 0 && !caps[i].revoked) {
          var g := NextGen(capGens[i]);
          capGens[i] := g;
          caps[i] := CapEntry(o.value.id, o.value.generation, o.value.kind, false, rights);
          return Good(MakeToken(i, g));
        }
      }
      return Bad(NoMem);
    }

    method LookupCap(token: nat) returns (r: Result<CapEntry>)
      requires Valid()
      ensures r == CapLookup(Value(), token)
    {
      if token == 0 {
        return Bad(Inval);
      }
      var i, g := token % TWO32, token / TWO32;
      if i >= MAX_CAPS || g == 0 {
        return Bad(NoEnt);
      }
      if capGens[i] != g || caps[i].objectId == 0 || caps[i].revoked {
        return Bad(NoEnt);
      }
      var e := caps[i];
      var o := LookupObject(e.objectId);
      if o.Bad? {
        return Bad(o.error);
      }
      if o.value.generation != e.generation || o.value.kind != e.kind {
        return Bad(NoEnt);
      }
      return Good(e);
    }

    method CheckCap(token: nat, required: Rights, kind: nat) returns (r: Result<CapEntry>)
      requires Valid()
      ensures r == CapCheck(Value(), token, required, kind)
    {
      if required == 0 {
        return Bad(Inval);
      }
      var e := LookupCap(token);
      if e.Bad? {
        return Bad(e.error);
      }
      if kind != NO_TYPE && e.value.kind != kind {
        return Bad(Perm);
      }
      if e.value.rights & required != required {
        return Bad(Perm);
      }
      return e;
    }

    method RevokeCap(token: nat) returns (s: Status)
      requires Valid()
      modifies caps, capGens
      ensures (Value(), s) == CapRevoke(old(Value()), token)
    {
      var e := LookupCap(token);
      if e.Bad? {
        return e.error;
      }
      var i := token % TWO32;
      caps[i] := caps[i].(revoked := true);
      capGens[i] := NextGen(capGens[i]);
      return Ok;
    }
  }
}
