/** Open files of the tmpfs service: slots reused under new objects, with tokens that are never revoked on close. */
module Tmpfs {
  import opened KernelTypes
  import opened Capabilities
  import opened CapabilityHistory

  const MAX_OPEN: nat := 32

  /** The bytes of the initrd file behind an open file. */
  type Backing = seq<nat>

  datatype OpenFile = OpenFile(objectId: nat, cap: nat, backing: Backing, open: bool)

  /** Sources records what each token was opened on. */
  datatype Files = Files(h: History, files: seq<OpenFile>, sources: map<nat, Backing>)

  // ----- operations -----------------------------------------------------------------------------------

  function FirstClosed(fs: seq<OpenFile>, from: nat): (r: Option<nat>)
    requires from <= |fs|
    ensures r.Some? ==> from <= r.value < |fs| && !fs[r.value].open
    ensures r.None? ==> forall i :: from <= i < |fs| ==> fs[i].open
    decreases |fs| - from
  {
    if from == |fs| then None else if !fs[from].open then Some(from) else FirstClosed(fs, from + 1)
  }

  /** Open; found is the outcome of looking the path up in the initrd. */
  function Open(t: Files, found: Result<Backing>): (Files, Result<nat>)
    requires Recorded(t.h)
  {
    match found
    case Bad(s) => (t, Bad(s))
    case Good(backing) =>
      match FirstClosed(t.files, 0)
      case None => (t, Bad(NoMem))
      case Some(i) =>
        match ObjectCreate(t.h.k, OBJ_FILE, i).1
        case Bad(s) => (t, Bad(s))
        case Good(id) =>
          StepRecorded(t.h, NewObject(OBJ_FILE, i));
          var h1 := Step(t.h, NewObject(OBJ_FILE, i));
          match CapCreate(h1.k, id, READ).1
          case Bad(s) => (t.(h := h1, files := t.files[i := t.files[i].(objectId := 0)]), Bad(s))
          case Good(token) =>
            (Files(Step(h1, NewCap(id, READ)), t.files[i := OpenFile(id, token, backing, true)],
                   t.sources[token := backing]),
             Good(token))
  }

  function FileFor(t: Files, token: nat): Result<nat> {
    match CapCheck(t.h.k, token, READ, OBJ_FILE)
    case Bad(s) => Bad(s)
    case Good(e) =>
      match ObjectLookup(t.h.k, e.objectId)
      case Bad(s) => Bad(s)
      case Good(o) =>
        if o.payload >= |t.files| || t.files[o.payload].objectId != e.objectId || !t.files[o.payload].open then
          Bad(NoEnt)
        else Good(o.payload)
  }

  /** At most the requested bytes from offset on; none are read past the end. */
  function ReadAt(t: Files, token: nat, offset: nat, requested: nat): Result<seq<nat>> {
    match FileFor(t, token)
    case Bad(s) => Bad(s)
    case Good(i) =>
      var data := t.files[i].backing;
      if requested == 0 then Good([])
      else if offset > |data| then Bad(Bounds)
      else Good(data[offset..offset + (if requested < |data| - offset then requested else |data| - offset)])
  }

  function Close(t: Files, token: nat): (Files, Status) {
    match FileFor(t, token)
    case Bad(s) => (t, s)
    case Good(i) => (t.(files := t.files[i := t.files[i].(open := false)]), Ok)
  }

  // ----- the invariant -------------------------------------------------------------------------------------

  predicate OnFile(k: Tables, token: nat) { Accepted(k, token).Some? && Accepted(k, token).value.kind == OBJ_FILE }

  /** An accepted file token that still names its slot's object finds what it was opened on. */
  ghost predicate FileTokenOk(t: Files, token: nat) {
    OnFile(t.h.k, token) ==>
      var id := Accepted(t.h.k, token).value.objectId;
      && token in t.sources
      && forall i :: 0 <= i < |t.files| && t.files[i].objectId == id ==> t.files[i].backing == t.sources[token]
  }

  /** A slot's object points back to the slot. */
  ghost predicate FileSlotOk(t: Files, i: nat)
    requires i < |t.files|
  {
    var id := t.files[i].objectId;
    id != 0 ==> ObjectLookup(t.h.k, id).Good? && ObjectLookup(t.h.k, id).value.payload == i
  }

  ghost predicate FilesOk(t: Files) {
    && Recorded(t.h) && |t.files| == MAX_OPEN
    && (forall i :: 0 <= i < MAX_OPEN ==> FileSlotOk(t, i))
    && (forall token :: FileTokenOk(t, token))
  }

  /** The file opened as object id has been closed: no open slot carries that object. */
  ghost predicate Shut(t: Files, id: nat) {
    ObjectLookup(t.h.k, id).Good? && forall i :: 0 <= i < |t.files| && t.files[i].objectId == id ==> !t.files[i].open
  }

  // ----- steps --------------------------------------------------------------------------------------------------

  datatype FileOp = OpenOp(found: Result<Backing>) | CloseOp(token: nat) | Elsewhere(op: Op)

  predicate Permitted(t: Files, op: FileOp) {
    match op
    case Elsewhere(NewObject(kind, _)) => kind != OBJ_FILE
    case Elsewhere(NewCap(id, _)) => ObjectLookup(t.h.k, id).Good? ==> ObjectLookup(t.h.k, id).value.kind != OBJ_FILE
    case _ => true
  }

  ghost function FileStep(t: Files, op: FileOp): Files
    requires FilesOk(t)
  {
    match op
    case OpenOp(found) => Open(t, found).0
    case CloseOp(token) => Close(t, token).0
    case Elsewhere(o) => t.(h := Step(t.h, o))
  }

  /** Steps of the capability tables that make no file token keep the invariant and what is shut. */
  lemma TablesStepOk(t: Files, op: Op)
    requires FilesOk(t) && Permitted(t, Elsewhere(op))
    ensures FilesOk(t.(h := Step(t.h, op)))
    ensures forall id :: Shut(t, id) ==> Shut(t.(h := Step(t.h, op)), id)
  {
    RecordedShape(t.h);
    hide Accepted, ObjectLookup, Recorded, Step, CapCreate;
    match op {
      case NewObject(kind, payload) => NewObjectFrame(t.h, kind, payload);
      case NewCap(id, rights) =>
        if CapCreate(t.h.k, id, rights).1.Good? {
          NewCapFrame(t.h, id, rights);
        } else {
          NoCapNoStep(t.h, id, rights);
        }
      case Revoke(token) => RevokeFrame(t.h, token);
    }
    var t' := t.(h := Step(t.h, op));
    forall token ensures FileTokenOk(t', token) {
      assert FileTokenOk(t, token);
    }
    forall j | 0 <= j < MAX_OPEN ensures FileSlotOk(t', j) {
      assert FileSlotOk(t, j);
    }
  }

  /** A fresh object id appears in no slot and under no token. */
  lemma FreshId(t: Files, id: nat)
    requires FilesOk(t) && ObjectLookup(t.h.k, id).Bad? && id != 0
    ensures forall i :: 0 <= i < MAX_OPEN ==> t.files[i].objectId != id
    ensures forall u :: Accepted(t.h.k, u).Some? ==> Accepted(t.h.k, u).value.objectId != id
  {
    hide Accepted, ObjectLookup, Recorded;
    forall i | 0 <= i < MAX_OPEN ensures t.files[i].objectId != id {
      assert FileSlotOk(t, i);
    }
    forall u | Accepted(t.h.k, u).Some? ensures Accepted(t.h.k, u).value.objectId != id {
      AcceptedNamesObject(t.h, u);
    }
  }

  /** The token finds an open file over these bytes. */
  predicate ReadsFrom(t: Files, token: nat, backing: Backing) {
    FileFor(t, token).Good? && t.files[FileFor(t, token).value].backing == backing
  }

  lemma OpenedOk(t: Files, t': Files, i: nat, id: nat, token: nat, backing: Backing)
    requires |t.files| == MAX_OPEN && i < MAX_OPEN && !t.files[i].open
    requires (forall j :: 0 <= j < MAX_OPEN ==> FileSlotOk(t, j)) && (forall u :: FileTokenOk(t, u))
    requires t'.files == t.files[i := OpenFile(id, token, backing, true)] && t'.sources == t.sources[token := backing]
    requires ObjectLookup(t'.h.k, id).Good? && ObjectLookup(t'.h.k, id).value.payload == i
      && ObjectLookup(t.h.k, id).Bad?
    requires forall x :: ObjectLookup(t.h.k, x).Good? ==> ObjectLookup(t'.h.k, x) == ObjectLookup(t.h.k, x)
    requires forall j :: 0 <= j < MAX_OPEN ==> t.files[j].objectId != id
    requires forall u :: Accepted(t.h.k, u).Some? ==> Accepted(t.h.k, u).value.objectId != id
    requires Accepted(t'.h.k, token).Some? && Accepted(t'.h.k, token).value.objectId == id
    requires forall u :: u != token ==> Accepted(t'.h.k, u) == Accepted(t.h.k, u)
    ensures forall j :: 0 <= j < MAX_OPEN ==> FileSlotOk(t', j)
    ensures forall u :: FileTokenOk(t', u)
    ensures forall x :: Shut(t, x) ==> Shut(t', x)
  {
    hide Accepted, ObjectLookup;
    forall u ensures FileTokenOk(t', u) {
      assert FileTokenOk(t, u);
    }
    forall j | 0 <= j < MAX_OPEN ensures FileSlotOk(t', j) {
      assert FileSlotOk(t, j);
    }
  }

  lemma OpenedReads(t: Files, token: nat, i: nat, id: nat)
    requires Recorded(t.h) && i < |t.files| && t.files[i].open && t.files[i].objectId == id
    requires ObjectLookup(t.h.k, id).Good? && ObjectLookup(t.h.k, id).value.payload == i
    requires Accepted(t.h.k, token).Some? && Accepted(t.h.k, token).value.objectId == id
    requires Accepted(t.h.k, token).value.kind == OBJ_FILE && Accepted(t.h.k, token).value.rights == READ
    ensures FileFor(t, token) == Good(i)
  {
    LookupIsSlot(t.h.k, token);
  }

  /** Opening adds one file under a fresh token; what is shut stays shut. */
  lemma OpenOk(t: Files, found: Result<Backing>)
    requires FilesOk(t)
    ensures FilesOk(Open(t, found).0)
    ensures forall id :: Shut(t, id) ==> Shut(Open(t, found).0, id)
    ensures Open(t, found).1.Good? ==> found.Good? && ReadsFrom(Open(t, found).0, Open(t, found).1.value, found.value)
  {
    RecordedShape(t.h);
    var i := FirstClosed(t.files, 0);
    if found.Good? && i.Some? && ObjectCreate(t.h.k, OBJ_FILE, i.value).1.Good? {
      OpenSlotOk(t, found.value, i.value, ObjectCreate(t.h.k, OBJ_FILE, i.value).1.value);
    }
  }

  lemma OpenSlotOk(t: Files, backing: Backing, i: nat, id: nat)
    requires FilesOk(t) && FirstClosed(t.files, 0) == Some(i) && ObjectCreate(t.h.k, OBJ_FILE, i).1 == Good(id)
    ensures FilesOk(Open(t, Good(backing)).0)
    ensures forall x :: Shut(t, x) ==> Shut(Open(t, Good(backing)).0, x)
    ensures Open(t, Good(backing)).1.Good? ==>
      ReadsFrom(Open(t, Good(backing)).0, Open(t, Good(backing)).1.value, backing)
  {
    var h1 := Step(t.h, NewObject(OBJ_FILE, i));
    LookupCreated(t.h.k, OBJ_FILE, i);
    NewObjectFrame(t.h, OBJ_FILE, i);
    RecordedShape(t.h);
    RecordedShape(h1);
    assert ObjectLookup(t.h.k, 0).Bad? && ObjectLookup(h1.k, 0).Bad?;
    var t' := Open(t, Good(backing)).0;
    hide Accepted, ObjectLookup, Recorded, Step, CapCreate;
    FreshId(t, id);
    var c := CapCreate(h1.k, id, READ).1;
    if c.Good? {
      NewCapFrame(h1, id, READ);
      OpenedOk(t, t', i, id, c.value, backing);
      OpenedReads(t', c.value, i, id);
    } else {
      forall token ensures FileTokenOk(t', token) {
        assert FileTokenOk(t, token);
      }
      forall j | 0 <= j < MAX_OPEN ensures FileSlotOk(t', j) {
        assert FileSlotOk(t, j);
      }
    }
  }

  /** Whatever token reads a file, it reads the bytes the token was opened on. */
  lemma ReadDenotes(t: Files, token: nat)
    requires FilesOk(t) && FileFor(t, token).Good?
    ensures Accepted(t.h.k, token).Some? && token in t.sources && ReadsFrom(t, token, t.sources[token])
  {
    LookupIsSlot(t.h.k, token);
    assert FileTokenOk(t, token);
  }

  /** What a token of a shut object finds. */
  lemma ShutFindsNothing(t: Files, token: nat)
    requires FilesOk(t) && Accepted(t.h.k, token).Some? && Shut(t, Accepted(t.h.k, token).value.objectId)
    ensures FileFor(t, token).Bad?
  {
    LookupIsSlot(t.h.k, token);
  }

  /** Closing shuts the object behind the token, and every other shut object stays shut. */
  lemma CloseOk(t: Files, token: nat)
    requires FilesOk(t)
    ensures FilesOk(Close(t, token).0) && Close(t, token).0.h == t.h
    ensures forall id :: Shut(t, id) ==> Shut(Close(t, token).0, id)
    ensures FileFor(t, token).Good? ==>
      Accepted(t.h.k, token).Some? && Shut(Close(t, token).0, Accepted(t.h.k, token).value.objectId)
  {
    if FileFor(t, token).Good? {
      var i := FileFor(t, token).value;
      var t' := Close(t, token).0;
      LookupIsSlot(t.h.k, token);
      AcceptedNamesObject(t.h, token);
      hide Accepted, ObjectLookup, Recorded;
      forall u ensures FileTokenOk(t', u) {
        assert FileTokenOk(t, u);
      }
      forall j | 0 <= j < MAX_OPEN ensures FileSlotOk(t', j) {
        assert FileSlotOk(t, j);
      }
      ShutByClosing(t, t', i, Accepted(t.h.k, token).value.objectId);
    }
  }

  lemma ShutByClosing(t: Files, t': Files, i: nat, id: nat)
    requires |t.files| == MAX_OPEN && i < MAX_OPEN && forall j :: 0 <= j < MAX_OPEN ==> FileSlotOk(t, j)
    requires t.files[i].objectId == id != 0 && ObjectLookup(t.h.k, id).Good?
    requires t' == t.(files := t.files[i := t.files[i].(open := false)])
    ensures Shut(t', id) && forall x :: Shut(t, x) ==> Shut(t', x)
  {
    hide ObjectLookup;
    assert FileSlotOk(t, i);
    forall j | 0 <= j < MAX_OPEN && t'.files[j].objectId == id ensures !t'.files[j].open {
      assert FileSlotOk(t, j);
    }
  }

  // ----- every run ----------------------------------------------------------------------------------------------

  lemma FileStepOk(t: Files, op: FileOp)
    requires FilesOk(t) && Permitted(t, op)
    ensures FilesOk(FileStep(t, op)) && forall id :: Shut(t, id) ==> Shut(FileStep(t, op), id)
  {
    hide FilesOk, Open, Close, Shut;
    match op {
      case OpenOp(found) => OpenOk(t, found);
      case CloseOp(token) => CloseOk(t, token);
      case Elsewhere(o) => TablesStepOk(t, o);
    }
  }

  ghost predicate AllPermitted(t: Files, ops: seq<FileOp>)
    requires FilesOk(t)
    decreases ops
  {
    ops == [] || (Permitted(t, ops[0]) && (FileStepOk(t, ops[0]); AllPermitted(FileStep(t, ops[0]), ops[1..])))
  }

  ghost function RunFiles(t: Files, ops: seq<FileOp>): (r: Files)
    requires FilesOk(t) && AllPermitted(t, ops)
    ensures FilesOk(r)
    decreases ops
  {
    if ops == [] then t else (FileStepOk(t, ops[0]); RunFiles(FileStep(t, ops[0]), ops[1..]))
  }

  function NoFiles(): Files {
    Files(CapabilityHistory.Start(), seq(MAX_OPEN, i => OpenFile(0, 0, [], false)), map[])
  }

  lemma NoFilesOk()
    ensures FilesOk(NoFiles())
  {
    StartRecorded();
  }

  /** In every run, a token that reads at all reads exactly the bytes it was opened on. */
  lemma FileTokenDenotes(ops: seq<FileOp>, token: nat, offset: nat, requested: nat)
    requires (NoFilesOk(); AllPermitted(NoFiles(), ops))
    ensures FilesOk(NoFiles())
    ensures var t := RunFiles(NoFiles(), ops);
      ReadAt(t, token, offset, requested).Good? ==>
        && token in t.sources
        && var data, got := t.sources[token], ReadAt(t, token, offset, requested).value;
           && |got| == (if offset >= |data| || requested == 0 then 0
                        else if requested < |data| - offset then requested else |data| - offset)
           && forall k :: 0 <= k < |got| ==> got[k] == data[offset..][k]
  {
    var t := RunFiles(NoFiles(), ops);
    if FileFor(t, token).Good? {
      ReadDenotes(t, token);
    }
  }

  /** The token's slot in the capability table has moved on, or it still leads to the shut object. */
  ghost predicate Barred(t: Files, token: nat, id: nat, moves: nat) {
    && Recorded(t.h) && IndexOf(token) < MAX_CAPS && Shut(t, id) && moves <= t.h.uses[IndexOf(token)]
    && (t.h.uses[IndexOf(token)] == moves ==>
          Accepted(t.h.k, token).Some? && Accepted(t.h.k, token).value.objectId == id)
  }

  lemma StepBarred(t: Files, op: FileOp, token: nat, id: nat, moves: nat)
    requires FilesOk(t) && Permitted(t, op) && Barred(t, token, id, moves)
    ensures FilesOk(FileStep(t, op)) && Barred(FileStep(t, op), token, id, moves)
  {
    FileStepOk(t, op);
    hide FilesOk, Shut, Accepted, Recorded, Step;
    match op {
      case OpenOp(found) => OpenMoves(t, found, token);
      case CloseOp(u) => CloseOk(t, u);
      case Elsewhere(o) => StepMoves(t.h, o, token);
    }
  }

  lemma OpenMoves(t: Files, found: Result<Backing>, token: nat)
    requires FilesOk(t) && IndexOf(token) < MAX_CAPS
    ensures Moved(t.h, Open(t, found).0.h, token)
  {
    RecordedShape(t.h);
    var i := FirstClosed(t.files, 0);
    if found.Good? && i.Some? && ObjectCreate(t.h.k, OBJ_FILE, i.value).1.Good? {
      var id := ObjectCreate(t.h.k, OBJ_FILE, i.value).1.value;
      StepMoves(t.h, NewObject(OBJ_FILE, i.value), token);
      var h1 := Step(t.h, NewObject(OBJ_FILE, i.value));
      RecordedShape(h1);
      StepMoves(h1, NewCap(id, READ), token);
    }
  }

  lemma {:induction false} RunBarred(t: Files, ops: seq<FileOp>, token: nat, id: nat, moves: nat)
    requires FilesOk(t) && AllPermitted(t, ops) && Barred(t, token, id, moves)
    ensures Barred(RunFiles(t, ops), token, id, moves)
    decreases ops
  {
    hide FileStep, FilesOk, Barred;
    if ops != [] {
      FileStepOk(t, ops[0]);
      StepBarred(t, ops[0], token, id, moves);
      RunBarred(FileStep(t, ops[0]), ops[1..], token, id, moves);
    }
  }

  /**
   * A closed file's token finds no file after any further run, whoever holds its slot by then, until the
   * token's own generation comes round.
   */
  lemma ClosedStaysOut(t: Files, token: nat, ops: seq<FileOp>)
    requires FilesOk(t) && FileFor(t, token).Good?
    requires (CloseOk(t, token); AllPermitted(Close(t, token).0, ops))
    ensures FilesOk(Close(t, token).0)
    ensures var t' := RunFiles(Close(t, token).0, ops);
      && IndexOf(token) < MAX_CAPS && t'.h.uses[IndexOf(token)] >= t.h.uses[IndexOf(token)]
      && (t'.h.uses[IndexOf(token)] < t.h.uses[IndexOf(token)] + 2 * CYCLE ==> FileFor(t', token).Bad?)
  {
    CloseOk(t, token);
    var c, id, moves := Close(t, token).0, Accepted(t.h.k, token).value.objectId, t.h.uses[IndexOf(token)];
    var t' := RunFiles(c, ops);
    RunBarred(c, ops, token, id, moves);
    if t'.h.uses[IndexOf(token)] == moves {
      ShutFindsNothing(t', token);
    }
    MovesDecide(t.h, t'.h, token);
  }

  // ----- who can read what ------------------------------------------------------------------------------------

  /** Slot i is open and holds the object that this accepted token with the read right was made for. */
  predicate Shown(t: Files, token: nat, i: nat)
    requires i < |t.files|
  {
    && OnFile(t.h.k, token) && Covers(Accepted(t.h.k, token).value.rights, READ)
    && t.files[i].open && t.files[i].objectId == Accepted(t.h.k, token).value.objectId
  }

  /** A token finds exactly the open slot that holds its object. */
  lemma FileForExact(t: Files, token: nat, i: nat)
    requires FilesOk(t) && i < MAX_OPEN
    ensures FileFor(t, token) == Good(i) <==> Shown(t, token, i)
    ensures FileFor(t, token).Good? ==> FileFor(t, token).value < MAX_OPEN
  {
    hide ObjectLookup, GenAfter;
    LookupIsSlot(t.h.k, token);
    assert FileSlotOk(t, i);
    if Accepted(t.h.k, token).Some? {
      AcceptedNamesObject(t.h, token);
    }
  }

  /** The bytes a token reads, if it reads at all. */
  ghost function Reads(t: Files, token: nat): Option<Backing>
    requires FilesOk(t)
  {
    if exists i :: 0 <= i < MAX_OPEN && Shown(t, token, i) then
      var i :| 0 <= i < MAX_OPEN && Shown(t, token, i); Some(t.files[i].backing)
    else None
  }

  /** One slot at most holds an object. */
  lemma OneSlot(t: Files, token: nat, i: nat, j: nat)
    requires FilesOk(t) && i < MAX_OPEN && j < MAX_OPEN && Shown(t, token, i) && Shown(t, token, j)
    ensures i == j
  {
    hide Shown;
    FileForExact(t, token, i);
    FileForExact(t, token, j);
  }

  /**
   * Reading succeeds exactly through a token that reads some bytes, from an offset not past their end or for no
   * bytes at all, and returns what is asked for as far as there is any.
   */
  lemma ReadExact(t: Files, token: nat, offset: nat, requested: nat)
    requires FilesOk(t)
    ensures var data, r := Reads(t, token), ReadAt(t, token, offset, requested);
      && (r.Good? <==> data.Some? && (requested == 0 || offset <= |data.value|))
      && (r.Bad? && data.Some? ==> r.error == Bounds)
      && (r.Good? ==>
            && |r.value| <= requested
            && (|r.value| == requested || (offset <= |data.value| && |r.value| == |data.value| - offset))
            && offset + |r.value| <= |data.value| + (if r.value == [] then offset else 0)
            && forall k :: 0 <= k < |r.value| ==> r.value[k] == data.value[offset + k])
  {
    hide FilesOk, FileFor, Shown;
    ReadsIsFound(t, token);
  }

  lemma ReadsIsFound(t: Files, token: nat)
    requires FilesOk(t)
    ensures |t.files| == MAX_OPEN && (FileFor(t, token).Good? <==> Reads(t, token).Some?)
    ensures FileFor(t, token).Good? ==>
      FileFor(t, token).value < MAX_OPEN && Reads(t, token) == Some(t.files[FileFor(t, token).value].backing)
  {
    hide FileFor, Shown;
    forall i | 0 <= i < MAX_OPEN ensures FileFor(t, token) == Good(i) <==> Shown(t, token, i) {
      FileForExact(t, token, i);
    }
    FileForExact(t, token, 0);
  }

  /** Opening succeeds exactly for a file that was found, with a slot for it, for its object, and for its token. */
  lemma OpenIff(t: Files, found: Result<Backing>)
    requires FilesOk(t)
    ensures Open(t, found).1.Good? <==>
      && found.Good?
      && (exists i :: 0 <= i < MAX_OPEN && !t.files[i].open)
      && FreeObjectSlot(t.h.k) && FreeCapSlot(t.h.k)
  {
    RecordedShape(t.h);
    var i := FirstClosed(t.files, 0);
    if i.Some? {
      ObjectCreateIff(t.h.k, OBJ_FILE, i.value);
      ObjectMade(t.h, OBJ_FILE, i.value);
      var h1 := Step(t.h, NewObject(OBJ_FILE, i.value));
      StepRecorded(t.h, NewObject(OBJ_FILE, i.value));
      RecordedShape(h1);
      assert h1.k.caps == t.h.k.caps;
      var o := ObjectCreate(t.h.k, OBJ_FILE, i.value).1;
      if o.Good? {
        CapCreateIff(h1.k, o.value, READ);
      }
    }
  }

  /** Opening makes its token read the file; whatever other tokens read stays as it was. */
  lemma OpenReads(t: Files, found: Result<Backing>, u: nat)
    requires FilesOk(t)
    ensures FilesOk(Open(t, found).0)
    ensures Reads(Open(t, found).0, u) ==
      if Open(t, found).1 == Good(u) then Some(found.value) else Reads(t, u)
  {
    OpenOk(t, found);
    hide FilesOk, Shown;
    var (t', r) := Open(t, found);
    if r == Good(u) {
      ReadsIsFound(t', u);
    } else {
      forall i | 0 <= i < MAX_OPEN
        ensures Shown(t', u, i) <==> Shown(t, u, i)
        ensures Shown(t, u, i) ==> t'.files[i].backing == t.files[i].backing
      {
        OpenLeaves(t, found, u, i);
      }
      SameReads(t, t', u);
    }
  }

  lemma SameReads(t: Files, t': Files, u: nat)
    requires FilesOk(t) && FilesOk(t')
    requires forall i :: 0 <= i < MAX_OPEN ==>
      (Shown(t', u, i) <==> Shown(t, u, i)) && (Shown(t, u, i) ==> t'.files[i].backing == t.files[i].backing)
    ensures Reads(t', u) == Reads(t, u)
  {
    hide Shown, FileFor;
    if i :| 0 <= i < MAX_OPEN && Shown(t, u, i) {
      ReadsSlot(t, u, i);
      ReadsSlot(t', u, i);
    }
  }

  lemma ReadsSlot(t: Files, u: nat, i: nat)
    requires FilesOk(t) && i < MAX_OPEN && Shown(t, u, i)
    ensures Reads(t, u) == Some(t.files[i].backing)
  {
    hide Shown;
    FileForExact(t, u, i);
    ReadsIsFound(t, u);
  }

  lemma OpenLeaves(t: Files, found: Result<Backing>, u: nat, i: nat)
    requires FilesOk(t) && i < MAX_OPEN && Open(t, found).1 != Good(u)
    ensures |Open(t, found).0.files| == MAX_OPEN
    ensures Shown(Open(t, found).0, u, i) <==> Shown(t, u, i)
    ensures Shown(t, u, i) ==> Open(t, found).0.files[i].backing == t.files[i].backing
  {
    RecordedShape(t.h);
    var c := FirstClosed(t.files, 0);
    if found.Good? && c.Some? && ObjectCreate(t.h.k, OBJ_FILE, c.value).1.Good? {
      var id := ObjectCreate(t.h.k, OBJ_FILE, c.value).1.value;
      var h1 := Step(t.h, NewObject(OBJ_FILE, c.value));
      ObjectMade(t.h, OBJ_FILE, c.value);
      NewObjectFrame(t.h, OBJ_FILE, c.value);
      RecordedShape(h1);
      hide Accepted, ObjectLookup, Recorded, Step, CapCreate, ObjectCreate;
      FreshId(t, id);
      if CapCreate(h1.k, id, READ).1.Good? {
        NewCapFrame(h1, id, READ);
      }
    }
  }

  /** Closing succeeds exactly on a token that reads; tokens of that object read nothing then, others as before. */
  lemma CloseReads(t: Files, token: nat, u: nat)
    requires FilesOk(t)
    ensures FilesOk(Close(t, token).0) && (Close(t, token).1 == Ok <==> Reads(t, token).Some?)
    ensures Reads(Close(t, token).0, u) ==
      if Reads(t, token).Some? && Accepted(t.h.k, u).Some?
         && Accepted(t.h.k, u).value.objectId == Accepted(t.h.k, token).value.objectId then None
      else Reads(t, u)
  {
    CloseOk(t, token);
    ReadsIsFound(t, token);
    FindError(t, token);
    var t' := Close(t, token).0;
    if FileFor(t, token).Good? {
      var id := Accepted(t.h.k, token).value.objectId;
      if Accepted(t.h.k, u).Some? && Accepted(t.h.k, u).value.objectId == id {
        ShutFindsNothing(t', u);
        ReadsIsFound(t', u);
      } else {
        FileForExact(t, token, FileFor(t, token).value);
        hide FilesOk;
        SameReads(t, t', u);
      }
    }
  }

  lemma FindError(t: Files, token: nat)
    ensures FileFor(t, token).Bad? ==> FileFor(t, token).error != Ok
  {
  }

  /** Other uses of the capability tables leave every token reading as before, but for one that they revoke. */
  lemma ElsewhereReads(t: Files, op: Op, u: nat)
    requires FilesOk(t) && Permitted(t, Elsewhere(op))
    ensures FilesOk(t.(h := Step(t.h, op)))
    ensures Reads(t.(h := Step(t.h, op)), u) == if op == Revoke(u) then None else Reads(t, u)
  {
    TablesStepOk(t, op);
    var t' := t.(h := Step(t.h, op));
    RecordedShape(t.h);
    hide Accepted, ObjectLookup, Recorded, Step, CapCreate;
    match op {
      case NewObject(kind, payload) => NewObjectFrame(t.h, kind, payload);
      case NewCap(id, rights) =>
        if CapCreate(t.h.k, id, rights).1.Good? {
          NewCapFrame(t.h, id, rights);
        } else {
          NoCapNoStep(t.h, id, rights);
        }
      case Revoke(token) => RevokeFrame(t.h, token);
    }
    forall i | 0 <= i < MAX_OPEN
      ensures Shown(t', u, i) <==> op != Revoke(u) && Shown(t, u, i)
    {
    }
    hide Shown, FilesOk;
    if op != Revoke(u) {
      SameReads(t, t', u);
    }
  }

  /** The step closes the file behind this token, or revokes the token. */
  predicate Ends(t: Files, op: FileOp, token: nat) {
    match op
    case OpenOp(_) => false
    case CloseOp(u) =>
      Accepted(t.h.k, u).Some? && Accepted(t.h.k, token).Some?
      && Accepted(t.h.k, u).value.objectId == Accepted(t.h.k, token).value.objectId
    case Elsewhere(o) => o == Revoke(token)
  }

  ghost predicate NeverEnds(t: Files, ops: seq<FileOp>, token: nat)
    requires FilesOk(t) && AllPermitted(t, ops)
    decreases ops
  {
    ops == [] || (!Ends(t, ops[0], token) && (FileStepOk(t, ops[0]); NeverEnds(FileStep(t, ops[0]), ops[1..], token)))
  }

  /** An open file stays open, with its bytes, over every run that does not close it or revoke its token. */
  lemma {:induction false} OpenForLife(t: Files, ops: seq<FileOp>, token: nat)
    requires FilesOk(t) && AllPermitted(t, ops) && Reads(t, token).Some? && NeverEnds(t, ops, token)
    ensures Reads(RunFiles(t, ops), token) == Reads(t, token)
    decreases ops
  {
    hide FilesOk, Reads, FileStep, Ends;
    if ops != [] {
      FileStepOk(t, ops[0]);
      StepStaysOpen(t, ops[0], token);
      OpenForLife(FileStep(t, ops[0]), ops[1..], token);
    }
  }

  lemma StepStaysOpen(t: Files, op: FileOp, token: nat)
    requires FilesOk(t) && Permitted(t, op) && Reads(t, token).Some? && !Ends(t, op, token)
    ensures FilesOk(FileStep(t, op)) && Reads(FileStep(t, op), token) == Reads(t, token)
  {
    hide FilesOk, Reads, Open, Close, Step;
    FileStepOk(t, op);
    match op {
      case OpenOp(found) =>
        OpenStays(t, found, token);
      case CloseOp(u) =>
        CloseReads(t, u, token);
        if Reads(t, u).Some? {
          ReaderAccepted(t, u);
        }
      case Elsewhere(o) => ElsewhereReads(t, o, token);
    }
  }

  lemma OpenStays(t: Files, found: Result<Backing>, token: nat)
    requires FilesOk(t) && Reads(t, token).Some?
    ensures FilesOk(Open(t, found).0) && Reads(Open(t, found).0, token) == Reads(t, token)
  {
    hide Reads, Open;
    OpenReads(t, found, token);
    if Open(t, found).1 == Good(token) {
      OpenedWasUnread(t, found, token);
    }
  }

  lemma ReaderAccepted(t: Files, u: nat)
    requires FilesOk(t) && Reads(t, u).Some?
    ensures Accepted(t.h.k, u).Some?
  {
  }

  /** The token that opening returns read nothing before. */
  lemma OpenedWasUnread(t: Files, found: Result<Backing>, token: nat)
    requires FilesOk(t) && Open(t, found).1 == Good(token)
    ensures Reads(t, token) == None
  {
    RecordedShape(t.h);
    var i := FirstClosed(t.files, 0).value;
    NewObjectFrame(t.h, OBJ_FILE, i);
    var h1 := Step(t.h, NewObject(OBJ_FILE, i));
    RecordedShape(h1);
    NewCapFrame(h1, ObjectCreate(t.h.k, OBJ_FILE, i).1.value, READ);
  }
}
