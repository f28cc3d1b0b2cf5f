/** The open-file table of the tmpfs service, changed in place. */
module OpenFiles {
  import opened KernelTypes
  import opened Capabilities
  import opened CapabilityHistory
  import opened CapTable
  import opened Tmpfs
  import Tar
  import TarArchive
  import Directory

  lemma UnfoldFiles(t: Files)
    requires FilesOk(t)
    ensures Recorded(t.h) && |t.h.k.objects| == |t.h.k.objectGens| && |t.h.k.caps| == |t.h.k.capGens|
  {
  }

  lemma CreatedFile(h: History, i: nat)
    requires Recorded(h)
    ensures Recorded(Step(h, NewObject(OBJ_FILE, i)))
    ensures Step(h, NewObject(OBJ_FILE, i)).k == ObjectCreate(h.k, OBJ_FILE, i).0
    ensures ObjectCreate(h.k, OBJ_FILE, i).1.Bad? ==> ObjectCreate(h.k, OBJ_FILE, i).0 == h.k
  {
    StepRecorded(h, NewObject(OBJ_FILE, i));
  }

  lemma MintedFile(h: History, id: nat)
    requires Recorded(h)
    ensures |h.k.caps| == |h.k.capGens| && |h.k.objects| == |h.k.objectGens|
    ensures CapCreate(h.k, id, READ).1.Good? ==> Step(h, NewCap(id, READ)).k == CapCreate(h.k, id, READ).0
    ensures CapCreate(h.k, id, READ).1.Bad? ==> CapCreate(h.k, id, READ).0 == h.k
  {
  }

  /** The bytes behind a path: those of the first initrd file of exactly that path. */
  function BackingOf(image: seq<Tar.byte>, entries: seq<Tar.Entry>, path: Tar.Path): Result<Backing>
    requires forall i :: 0 <= i < |entries| ==> entries[i].start + entries[i].size <= |image|
  {
    if |path| == 0 || |path| >= Tar.MAX_PATH then Bad(Bounds)
    else
      match Directory.FirstMatch(entries, Tar.CText(path), |entries|)
      case None => Bad(NoEnt)
      case Some(i) => Good(FileBytes(image, entries[i]))
  }

  function FileBytes(image: seq<Tar.byte>, e: Tar.Entry): (bytes: Backing)
    requires e.start + e.size <= |image|
    ensures |bytes| == e.size && forall k :: 0 <= k < e.size ==> bytes[k] == image[e.start + k]
  {
    image[e.start..e.start + e.size]
  }

  /** A path of 1 to 127 bytes leads to the first file of exactly the text before its first NUL, file i here. */
  lemma BackingExact(image: seq<Tar.byte>, entries: seq<Tar.Entry>, path: Tar.Path, i: nat)
    requires forall j :: 0 <= j < |entries| ==> entries[j].start + entries[j].size <= |image|
    requires i <= |entries| && forall j :: 0 <= j < i ==> entries[j].path != Tar.CText(path)
    requires i < |entries| ==> entries[i].path == Tar.CText(path)
    ensures BackingOf(image, entries, path) ==
      if !(0 < |path| < 128) then Bad(Bounds)
      else if i == |entries| then Bad(NoEnt)
      else Good(FileBytes(image, entries[i]))
  {
    hide Tar.CText, Directory.FirstMatch, FileBytes;
    FirstIs(entries, Tar.CText(path), i);
  }

  lemma FirstIs(entries: seq<Tar.Entry>, text: Tar.Path, i: nat)
    requires i <= |entries| && forall j :: 0 <= j < i ==> entries[j].path != text
    requires i < |entries| ==> entries[i].path == text
    ensures Directory.FirstMatch(entries, text, |entries|) == if i < |entries| then Some(i) else None
  {
    hide Directory.FirstMatch;
  }

  class OpenFileTable {
    const tables: KernelTables
    const files: array<OpenFile>
    /** What was issued and revoked so far, and what each token was opened on. */
    ghost var h: History
    ghost var sources: map<nat, Backing>

    ghost function Value(): Files
      reads this, files
    {
      Files(h, files[..], sources)
    }

    ghost predicate Valid()
      reads this, files, tables.objects, tables.objectGens, tables.caps, tables.capGens
    {
      tables.Valid() && files.Length == MAX_OPEN && h.k == tables.Value() && FilesOk(Value())
    }

    constructor ()
      ensures Valid() && Value() == NoFiles()
    {
      NoFilesOk();
      tables := new KernelTables();
      files := new OpenFile[MAX_OPEN](_ => OpenFile(0, 0, [], false));
      h := CapabilityHistory.Start();
      sources := map[];
    }

    method SlotForCap(token: nat) returns (r: Result<nat>)
      requires Valid()
      ensures r == FileFor(Value(), token)
    {
      hide FilesOk, CapCheck, ObjectLookup;
      var e := tables.CheckCap(token, READ, OBJ_FILE);
      if e.Bad? {
        return Bad(e.error);
      }
      var o := tables.LookupObject(e.value.objectId);
      if o.Bad? {
        return Bad(o.error);
      }
      var i := o.value.payload;
      if i >= MAX_OPEN || files[i].objectId != e.value.objectId || !files[i].open {
        return Bad(NoEnt);
      }
      return Good(i);
    }

    /** The open request: the path is bounded, looked up in the initrd, and the file's bytes opened. */
    method HandleOpenPath(image: seq<Tar.byte>, entries: seq<Tar.Entry>, path: Tar.Path) returns (r: Result<nat>)
      requires Valid() && TarArchive.Laid(entries, |image|)
      modifies this, files, tables.objects, tables.objectGens, tables.caps, tables.capGens
      ensures Valid() && (Value(), r) == Open(old(Value()), BackingOf(image, entries, path))
    {
      hide FilesOk, Open;
      var found := Bad(Bounds);
      if 0 < |path| < Tar.MAX_PATH {
        var e := Directory.Find(entries, Tar.CText(path));
        found := if e.Bad? then Bad(e.error) else Good(FileBytes(image, e.value));
      }
      r := HandleOpen(found);
    }

    /** Opens over the first slot that is not open, with a new object and a token for reading. */
    method HandleOpen(found: Result<Backing>) returns (r: Result<nat>)
      requires Valid()
      modifies this, files, tables.objects, tables.objectGens, tables.caps, tables.capGens
      ensures Valid() && (Value(), r) == Open(old(Value()), found)
    {
      hide FilesOk, Open;
      ghost var t := Value();
      UnfoldFiles(t);
      OpenOk(t, found);
      OpenCases(t, found);
      if found.Bad? {
        return Bad(found.error);
      }
      for i := 0 to MAX_OPEN
        invariant Valid() && Value() == t
        invariant FirstClosed(t.files, 0) == FirstClosed(t.files, i)
      {
        if !files[i].open {
          r := OpenSlot(i, found.value);
          return;
        }
      }
      return Bad(NoMem);
    }

    method OpenSlot(i: nat, backing: Backing) returns (r: Result<nat>)
      requires Valid() && FirstClosed(files[..], 0) == Some(i)
      modifies this, files, tables.objects, tables.objectGens, tables.caps, tables.capGens
      ensures Valid() && (Value(), r) == Open(old(Value()), Good(backing))
    {
      ghost var t := Value();
      UnfoldFiles(t);
      OpenSlotCases(t, backing, i);
      hide FilesOk, Open, FirstClosed, Recorded, Step, ObjectCreate, CapCreate, Shut, ReadsFrom, FileFor;
      OpenOk(t, Good(backing));
      CreatedFile(h, i);
      var o := tables.CreateObject(OBJ_FILE, i);
      if o.Bad? {
        return Bad(o.error);
      }
      h := Step(h, NewObject(OBJ_FILE, i));
      MintedFile(h, o.value);
      r := tables.CreateCap(o.value, READ);
      if r.Bad? {
        files[i] := files[i].(objectId := 0);
        assert files[..] == t.files[i := t.files[i].(objectId := 0)];
        return;
      }
      files[i] := OpenFile(o.value, r.value, backing, true);
      assert files[..] == t.files[i := OpenFile(o.value, r.value, backing, true)];
      h := Step(h, NewCap(o.value, READ));
      sources := sources[r.value := backing];
    }

    method HandleRead(token: nat, offset: nat, requested: nat) returns (r: Result<seq<nat>>)
      requires Valid()
      ensures r == ReadAt(Value(), token, offset, requested)
    {
      hide FilesOk, FileFor;
      var i := SlotForCap(token);
      FoundFile(Value(), token);
      if i.Bad? {
        return Bad(i.error);
      }
      if requested == 0 {
        return Good([]);
      }
      var size := |files[i.value].backing|;
      if offset > size {
        return Bad(Bounds);
      }
      var available := size - offset;
      var toCopy := if requested < available then requested else available;
      return Good(files[i.value].backing[offset..offset + toCopy]);
    }

    /** Closing only marks the slot: its object and token stay. */
    method HandleClose(token: nat) returns (s: Status)
      requires Valid()
      modifies files
      ensures Valid() && (Value(), s) == Close(old(Value()), token)
    {
      hide FilesOk, FileFor;
      CloseOk(Value(), token);
      ghost var t := Value();
      var i := SlotForCap(token);
      FoundFile(Value(), token);
      if i.Bad? {
        return i.error;
      }
      files[i.value] := files[i.value].(open := false);
      assert files[..] == t.files[i.value := t.files[i.value].(open := false)];
      return Ok;
    }
  }

  lemma FoundFile(t: Files, token: nat)
    ensures FileFor(t, token).Good? ==> FileFor(t, token).value < |t.files|
  {
  }

  lemma OpenCases(t: Files, found: Result<Backing>)
    requires Recorded(t.h)
    ensures found.Bad? ==> Open(t, found) == (t, Bad(found.error))
    ensures found.Good? && FirstClosed(t.files, 0).None? ==> Open(t, found) == (t, Bad(NoMem))
  {
  }

  lemma OpenSlotCases(t: Files, backing: Backing, i: nat)
    requires Recorded(t.h) && FirstClosed(t.files, 0) == Some(i)
    requires |t.h.k.objects| == |t.h.k.objectGens|
    ensures var o := ObjectCreate(t.h.k, OBJ_FILE, i).1;
      var h1 := Step(t.h, NewObject(OBJ_FILE, i));
      && Recorded(h1) && |h1.k.caps| == |h1.k.capGens| && |h1.k.objects| == |h1.k.objectGens|
      && (o.Bad? ==> Open(t, Good(backing)) == (t, Bad(o.error)))
      && (o.Good? ==>
            var c := CapCreate(h1.k, o.value, READ).1;
            && (c.Bad? ==>
                  Open(t, Good(backing)) ==
                    (Files(h1, t.files[i := t.files[i].(objectId := 0)], t.sources), Bad(c.error)))
            && (c.Good? ==>
                  Open(t, Good(backing)) == (Files(Step(h1, NewCap(o.value, READ)),
                                                   t.files[i := OpenFile(o.value, c.value, backing, true)],
                                                   t.sources[c.value := backing]), c)))
  {
    StepRecorded(t.h, NewObject(OBJ_FILE, i));
    RecordedShape(Step(t.h, NewObject(OBJ_FILE, i)));
    hide Recorded, Step, ObjectCreate, CapCreate, FirstClosed;
  }
}
