/** The directory view of the file table: directories exist only through the paths of the files below them. */
module Directory {
  import opened KernelTypes
  import opened Tar

  const MAX_NAME: nat := 64

  datatype Node = FileNode | DirNode
  datatype Stat = Stat(kind: Node, size: nat)
  datatype Dirent = Dirent(name: Path, kind: Node, size: nat)

  const ROOT: Path := [SLASH]

  // ----- paths ---------------------------------------------------------------------------------------

  /** The query without trailing slashes; a lone slash stays. */
  function Trim(path: Path): (q: Path)
    ensures |q| <= |path| && (path != [] ==> q != [] && q[0] == path[0])
    ensures |q| > 1 ==> q[|q| - 1] != SLASH
    decreases |path|
  {
    if |path| > 1 && path[|path| - 1] == SLASH then Trim(path[..|path| - 1]) else path
  }

  /** The path lies below the directory q, with at least one more character. */
  predicate Below(path: Path, q: Path) {
    if q == ROOT then |path| > 1 && path[0] == SLASH
    else |path| > |q| + 1 && path[..|q|] == q && path[|q|] == SLASH
  }

  /** The part of the path below q. */
  function Rest(path: Path, q: Path): (r: Path)
    requires Below(path, q)
    ensures r != [] && path == Stem(q) + r
  {
    if q == ROOT then path[1..] else path[|q| + 1..]
  }

  /** What every path below q starts with. */
  function Stem(q: Path): Path { if q == ROOT then ROOT else q + [SLASH] }

  /** The first component. */
  function First(rest: Path): (name: Path)
    ensures |name| <= |rest| && name == rest[..|name|] && SLASH !in name
    ensures |name| < |rest| ==> rest[|name|] == SLASH
  {
    if rest == [] || rest[0] == SLASH then [] else [rest[0]] + First(rest[1..])
  }

  /** The path of an entry of directory q. */
  function Child(q: Path, name: Path): Path { Stem(q) + name }

  // ----- looking paths up --------------------------------------------------------------------------------

  /** The first of the first n files with this path. */
  function FirstMatch(files: seq<Entry>, path: Path, n: nat): (r: Option<nat>)
    requires n <= |files|
    ensures r.Some? ==>
      r.value < n && files[r.value].path == path && forall i :: 0 <= i < r.value ==> files[i].path != path
    ensures r.None? ==> forall i :: 0 <= i < n ==> files[i].path != path
  {
    if n == 0 then None
    else
      var earlier := FirstMatch(files, path, n - 1);
      if earlier.Some? then earlier else if files[n - 1].path == path then Some(n - 1) else None
  }

  predicate AnyBelow(files: seq<Entry>, q: Path) { exists i :: 0 <= i < |files| && Below(files[i].path, q) }

  function StatOf(files: seq<Entry>, path: Path): Result<Stat> {
    if path == [] || path[0] != SLASH then Bad(Inval)
    else
      var q := Trim(path);
      if |q| == 1 then Good(Stat(DirNode, 0))
      else
        match FirstMatch(files, q, |files|)
        case Some(i) => Good(Stat(FileNode, files[i].size))
        case None => if AnyBelow(files, q) then Good(Stat(DirNode, 0)) else Bad(NoEnt)
  }

  /** Trimming takes off slashes at the end, all of them but one that is the whole path. */
  lemma {:induction false} TrimExact(path: Path)
    requires path != []
    ensures var q := Trim(path);
      && q <= path && q != [] && (forall i :: |q| <= i < |path| ==> path[i] == SLASH)
      && (q[|q| - 1] == SLASH ==> |q| == 1)
    decreases |path|
  {
    if |path| > 1 && path[|path| - 1] == SLASH {
      TrimExact(path[..|path| - 1]);
    }
  }

  /** The path goes on below the directory q, told by its prefix. */
  predicate GoesOn(path: Path, q: Path) { (if q == [SLASH] then q else q + [SLASH]) < path }

  lemma BelowIsGoesOn(path: Path, q: Path)
    ensures Below(path, q) <==> GoesOn(path, q)
  {
    if Below(path, q) {
      assert path[..|q|] == q;
    }
    if GoesOn(path, q) && q != ROOT {
      assert path[..|q|] == (q + [SLASH])[..|q|];
    }
  }

  /**
   * Stat of any path: an empty or relative one is refused; the root is a directory; else, for the path without
   * trailing slashes, the first file of exactly that path, or a directory if some file goes on below it.
   */
  lemma StatExact(files: seq<Entry>, path: Path)
    ensures var st, abs := StatOf(files, path), path != [] && path[0] == SLASH;
      && (!abs ==> st == Bad(Inval))
      && (abs ==>
            var q := Trim(path);
            var dir := q == [SLASH] || exists i :: 0 <= i < |files| && GoesOn(files[i].path, q);
            var file := q != [SLASH] && exists i :: 0 <= i < |files| && files[i].path == q;
            && (st.Good? <==> file || dir)
            && (st.Bad? ==> st.error == NoEnt)
            && (st.Good? ==> (st.value.kind == FileNode <==> file))
            && (st.Good? && !file ==> st.value.size == 0)
            && (forall i :: file && 0 <= i < |files| && files[i].path == q
                            && (forall j :: 0 <= j < i ==> files[j].path != q) ==>
                  st.value.size == files[i].size))
  {
    hide Trim, Below, GoesOn;
    forall i | 0 <= i < |files| && path != []
      ensures Below(files[i].path, Trim(path)) <==> GoesOn(files[i].path, Trim(path))
    {
      BelowIsGoesOn(files[i].path, Trim(path));
    }
  }

  /** The file with exactly this path, the first if there are several. */
  method Find(files: seq<Entry>, path: Path) returns (r: Result<Entry>)
    ensures r.Good? <==> exists i :: 0 <= i < |files| && files[i].path == path
    ensures r.Good? ==>
      var m := FirstMatch(files, path, |files|); m.Some? && r.value == files[m.value]
    ensures r.Bad? ==> r.error == NoEnt
  {
    for i := 0 to |files|
      invariant FirstMatch(files, path, i).None?
    {
      if path == files[i].path {
        assert FirstMatch(files, path, i + 1) == Some(i);
        MatchStays(files, path, i + 1, |files|);
        return Good(files[i]);
      }
    }
    return Bad(NoEnt);
  }

  lemma {:induction false} MatchStays(files: seq<Entry>, path: Path, n: nat, k: nat)
    requires n <= k <= |files| && FirstMatch(files, path, n).Some?
    ensures FirstMatch(files, path, k) == FirstMatch(files, path, n)
    decreases k
  {
    if n < k {
      MatchStays(files, path, n, k - 1);
    }
  }

  method StatPath(files: seq<Entry>, path: Path) returns (r: Result<Stat>)
    ensures r == StatOf(files, path)
  {
    if path == [] || path[0] != SLASH {
      return Bad(Inval);
    }
    var q := TrimQuery(path);
    if |q| == 1 {
      return Good(Stat(DirNode, 0));
    }
    for i := 0 to |files|
      invariant FirstMatch(files, q, i).None?
    {
      if files[i].path == q {
        assert FirstMatch(files, q, i + 1) == Some(i);
        MatchStays(files, q, i + 1, |files|);
        return Good(Stat(FileNode, files[i].size));
      }
    }
    for i := 0 to |files|
      invariant forall j :: 0 <= j < i ==> !Below(files[j].path, q)
    {
      if Below(files[i].path, q) {
        return Good(Stat(DirNode, 0));
      }
    }
    return Bad(NoEnt);
  }

  method TrimQuery(path: Path) returns (q: Path)
    ensures q == Trim(path)
  {
    var len := |path|;
    assert path[..len] == path;
    while len > 1 && path[len - 1] == SLASH
      invariant 0 <= len <= |path| && Trim(path) == Trim(path[..len])
    {
      assert path[..len][..len - 1] == path[..len - 1];
      len := len - 1;
    }
    return path[..len];
  }

  // ----- listing a directory ----------------------------------------------------------------------------------

  function IndexOfName(es: seq<Dirent>, name: Path, n: nat): (r: Option<nat>)
    requires n <= |es|
    ensures r.Some? ==> r.value < n && es[r.value].name == name
    ensures r.None? ==> forall i :: 0 <= i < n ==> es[i].name != name
  {
    if n == 0 then None
    else
      var earlier := IndexOfName(es, name, n - 1);
      if earlier.Some? then earlier else if es[n - 1].name == name then Some(n - 1) else None
  }

  /** Adds a name once; a directory overrides a file of the same name. */
  function Add(es: seq<Dirent>, capacity: nat, name: Path, kind: Node, size: nat): Result<seq<Dirent>> {
    if name == [] then Bad(Inval)
    else if |name| >= MAX_NAME then Bad(Bounds)
    else
      match IndexOfName(es, name, |es|)
      case Some(i) => Good(if kind == DirNode then es[i := es[i].(kind := DirNode, size := 0)] else es)
      case None => if |es| >= capacity then Bad(Bounds) else Good(es + [Dirent(name, kind, size)])
  }

  function KindOf(rest: Path): Node { if |First(rest)| < |rest| then DirNode else FileNode }

  /** What one file contributes to the listing of q. */
  function Contribute(es: seq<Dirent>, capacity: nat, q: Path, f: Entry): Result<seq<Dirent>> {
    if !Below(f.path, q) then Good(es)
    else
      var rest := Rest(f.path, q);
      Add(es, capacity, First(rest), KindOf(rest), if KindOf(rest) == DirNode then 0 else f.size)
  }

  function Listing(files: seq<Entry>, q: Path, capacity: nat): Result<seq<Dirent>> {
    if files == [] then Good([])
    else
      match Listing(files[..|files| - 1], q, capacity)
      case Bad(s) => Bad(s)
      case Good(es) => Contribute(es, capacity, q, files[|files| - 1])
  }

  function ListOf(files: seq<Entry>, path: Path, capacity: nat): Result<seq<Dirent>> {
    if capacity == 0 || path == [] || path[0] != SLASH then Bad(Inval)
    else
      match StatOf(files, path)
      case Bad(s) => Bad(s)
      case Good(st) => if st.kind != DirNode then Bad(NotSup) else Listing(files, Trim(path), capacity)
  }

  /** Adds an entry to the caller's buffer, of which count entries are in use. */
  method AddDirent(entries: array<Dirent>, count: nat, name: Path, kind: Node, size: nat)
    returns (s: Status, count': nat)
    requires count <= entries.Length
    modifies entries
    ensures s == Ok ==>
      && count' <= entries.Length
      && Add(old(entries[..count]), entries.Length, name, kind, size) == Good(entries[..count'])
    ensures s != Ok ==> Add(old(entries[..count]), entries.Length, name, kind, size) == Bad(s)
  {
    count' := count;
    if name == [] {
      return Inval, count;
    }
    if |name| >= MAX_NAME {
      return Bounds, count;
    }
    ghost var es := entries[..count];
    for i := 0 to count
      invariant entries[..count] == es && IndexOfName(es, name, i).None?
    {
      if entries[i].name == name {
        assert IndexOfName(es, name, i + 1) == Some(i);
        NameStays(es, name, i + 1, count);
        if kind == DirNode {
          entries[i] := entries[i].(kind := DirNode, size := 0);
        }
        assert entries[..count] == if kind == DirNode then es[i := es[i].(kind := DirNode, size := 0)] else es;
        return Ok, count;
      }
    }
    if count >= entries.Length {
      return Bounds, count;
    }
    entries[count] := Dirent(name, kind, size);
    count' := count + 1;
    assert entries[..count'] == es + [Dirent(name, kind, size)];
    return Ok, count';
  }

  lemma {:induction false} NameStays(es: seq<Dirent>, name: Path, n: nat, k: nat)
    requires n <= k <= |es| && IndexOfName(es, name, n).Some?
    ensures IndexOfName(es, name, k) == IndexOfName(es, name, n)
    decreases k
  {
    if n < k {
      NameStays(es, name, n, k - 1);
    }
  }

  method ListDir(files: seq<Entry>, path: Path, entries: array<Dirent>) returns (s: Status, count: nat)
    modifies entries
    ensures s == Ok ==> count <= entries.Length && ListOf(files, path, entries.Length) == Good(entries[..count])
    ensures s != Ok ==> ListOf(files, path, entries.Length) == Bad(s)
  {
    hide Add, Below, First, Trim;
    count := 0;
    if entries.Length == 0 || path == [] || path[0] != SLASH {
      return Inval, 0;
    }
    var q := TrimQuery(path);
    var st := StatPath(files, path);
    StatError(files, path);
    if st.Bad? {
      return st.error, 0;
    }
    if st.value.kind != DirNode {
      return NotSup, 0;
    }
    for i := 0 to |files|
      invariant count <= entries.Length && Listing(files[..i], q, entries.Length) == Good(entries[..count])
    {
      assert files[..i + 1][..i] == files[..i];
      if Below(files[i].path, q) {
        var rest := Rest(files[i].path, q);
        var name := First(rest);
        var kind := if |name| < |rest| then DirNode else FileNode;
        s, count := AddDirent(entries, count, name, kind, if kind == DirNode then 0 else files[i].size);
        if s != Ok {
          ListingFails(files, q, entries.Length, i + 1, s);
          return;
        }
      }
    }
    assert files[..|files|] == files;
    return Ok, count;
  }

  lemma StatError(files: seq<Entry>, path: Path)
    ensures StatOf(files, path).Bad? ==> StatOf(files, path).error != Ok
  {
  }

  lemma {:induction false} ListingFails(files: seq<Entry>, q: Path, capacity: nat, n: nat, s: Status)
    requires n <= |files| && Listing(files[..n], q, capacity) == Bad(s)
    ensures Listing(files, q, capacity) == Bad(s)
    decreases |files| - n
  {
    hide Contribute;
    if n == |files| {
      assert files[..n] == files;
    } else {
      assert files[..n + 1][..n] == files[..n];
      ListingFails(files, q, capacity, n + 1, s);
    }
  }

  // ----- what a listing says ---------------------------------------------------------------------------------

  /** File f shows up in q under this name. */
  predicate ShowsAs(f: Entry, q: Path, name: Path) {
    Below(f.path, q) && First(Rest(f.path, q)) == name
  }

  /** File f lies in or under the subdirectory of q with this name. */
  predicate Under(f: Entry, q: Path, name: Path) {
    ShowsAs(f, q, name) && KindOf(Rest(f.path, q)) == DirNode
  }

  /** A file that is itself an entry of q has exactly the child's path. */
  lemma DirectChild(f: Entry, q: Path, name: Path)
    requires name != [] && SLASH !in name
    ensures f.path == Child(q, name) <==> ShowsAs(f, q, name) && !Under(f, q, name)
  {
    if f.path == Child(q, name) {
      assert Below(f.path, q);
      assert Rest(f.path, q) == name;
      FirstOf(name, []);
    }
  }

  lemma {:induction false} FirstOf(name: Path, tail: Path)
    requires SLASH !in name && (tail == [] || tail[0] == SLASH)
    ensures First(name + tail) == name
    decreases |name|
  {
    if name != [] {
      assert (name + tail)[1..] == name[1..] + tail;
      FirstOf(name[1..], tail);
    }
  }

  /** The entry of a listing says what there is: a directory iff some file is under it, else the first file's size. */
  ghost predicate EntryTrue(files: seq<Entry>, q: Path, e: Dirent) {
    && e.name != [] && SLASH !in e.name && |e.name| < MAX_NAME
    && (exists f :: f in files && ShowsAs(f, q, e.name))
    && (e.kind == DirNode <==> exists f :: f in files && Under(f, q, e.name))
    && (e.kind == DirNode ==> e.size == 0)
    && (e.kind == FileNode ==>
          var m := FirstMatch(files, Child(q, e.name), |files|);
          m.Some? && e.size == files[m.value].size)
  }

  ghost predicate ListingTrue(files: seq<Entry>, q: Path, es: seq<Dirent>) {
    && (forall i, j :: 0 <= i < j < |es| ==> es[i].name != es[j].name)
    && (forall i :: 0 <= i < |es| ==> EntryTrue(files, q, es[i]))
    && (forall f :: f in files && Below(f.path, q) ==> exists i :: 0 <= i < |es| && ShowsAs(f, q, es[i].name))
  }

  lemma {:induction false} MatchPrefix(fs: seq<Entry>, f: Entry, path: Path, n: nat)
    requires n <= |fs|
    ensures FirstMatch(fs + [f], path, n) == FirstMatch(fs, path, n)
  {
    if n > 0 {
      MatchPrefix(fs, f, path, n - 1);
    }
  }

  lemma MatchGrown(fs: seq<Entry>, f: Entry, path: Path)
    ensures var m, m' := FirstMatch(fs, path, |fs|), FirstMatch(fs + [f], path, |fs + [f]|);
      && (m.Some? ==> m' == m)
      && (m.None? && f.path == path ==> m' == Some(|fs|))
  {
    MatchPrefix(fs, f, path, |fs|);
  }

  /** Another file leaves an entry true unless it turns the entry into a directory. */
  lemma EntryKept(fs: seq<Entry>, f: Entry, q: Path, e: Dirent)
    requires EntryTrue(fs, q, e) && (!Under(f, q, e.name) || e.kind == DirNode)
    ensures EntryTrue(fs + [f], q, e)
  {
    hide ShowsAs, Under, Child;
    MatchGrown(fs, f, Child(q, e.name));
    var g :| g in fs && ShowsAs(g, q, e.name);
    assert g in fs + [f];
    if x :| x in fs && Under(x, q, e.name) {
      assert x in fs + [f];
    }
  }

  lemma EntryRaised(fs: seq<Entry>, f: Entry, q: Path, e: Dirent)
    requires EntryTrue(fs, q, e) && Under(f, q, e.name)
    ensures EntryTrue(fs + [f], q, e.(kind := DirNode, size := 0))
  {
    assert f in fs + [f];
  }

  lemma EntryNew(fs: seq<Entry>, f: Entry, q: Path, e: Dirent)
    requires Below(f.path, q) && First(Rest(f.path, q)) == e.name && e.name != [] && |e.name| < MAX_NAME
    requires e.kind == KindOf(Rest(f.path, q)) && e.size == if e.kind == DirNode then 0 else f.size
    requires forall g :: g in fs ==> !ShowsAs(g, q, e.name)
    ensures EntryTrue(fs + [f], q, e)
  {
    assert f in fs + [f] && ShowsAs(f, q, e.name);
    DirectChild(f, q, e.name);
    var m := FirstMatch(fs, Child(q, e.name), |fs|);
    if m.Some? {
      DirectChild(fs[m.value], q, e.name);
    }
    MatchGrown(fs, f, Child(q, e.name));
    hide ShowsAs, Below, First;
    if e.kind == DirNode {
      assert Under(f, q, e.name);
    }
  }

  /** No file shows up under a name that is not listed. */
  lemma Unlisted(fs: seq<Entry>, q: Path, es: seq<Dirent>, name: Path)
    requires ListingTrue(fs, q, es) && IndexOfName(es, name, |es|).None?
    ensures forall g :: g in fs ==> !ShowsAs(g, q, name)
  {
    forall g | g in fs ensures !ShowsAs(g, q, name) {
    }
  }

  /** A file shows up under one name only. */
  lemma OneName(f: Entry, q: Path, a: Path, b: Path)
    ensures ShowsAs(f, q, a) && ShowsAs(f, q, b) ==> a == b
    ensures Under(f, q, a) ==> ShowsAs(f, q, a)
    ensures ShowsAs(f, q, a) ==> Below(f.path, q)
  {
  }

  lemma ContributeTrue(fs: seq<Entry>, f: Entry, q: Path, capacity: nat, es: seq<Dirent>, es': seq<Dirent>)
    requires ListingTrue(fs, q, es) && Contribute(es, capacity, q, f) == Good(es')
    ensures ListingTrue(fs + [f], q, es')
  {
    hide ListingTrue;
    if Below(f.path, q) {
      var name, kind := First(Rest(f.path, q)), KindOf(Rest(f.path, q));
      var at := IndexOfName(es, name, |es|);
      if at.None? {
        Unlisted(fs, q, es, name);
        EntryNew(fs, f, q, es'[|es|]);
        NewListed(fs, f, q, es, es'[|es|]);
      } else {
        OldListed(fs, f, q, es, es', at.value);
      }
    } else {
      SameListed(fs, f, q, es);
    }
  }

  lemma SameListed(fs: seq<Entry>, f: Entry, q: Path, es: seq<Dirent>)
    requires ListingTrue(fs, q, es) && !Below(f.path, q)
    ensures ListingTrue(fs + [f], q, es)
  {
    hide EntryTrue, Below, ShowsAs, Under;
    forall i | 0 <= i < |es| ensures EntryTrue(fs + [f], q, es[i]) {
      OneName(f, q, es[i].name, []);
      EntryKept(fs, f, q, es[i]);
    }
  }

  lemma NewListed(fs: seq<Entry>, f: Entry, q: Path, es: seq<Dirent>, e: Dirent)
    requires ListingTrue(fs, q, es) && ShowsAs(f, q, e.name) && EntryTrue(fs + [f], q, e)
    requires forall i :: 0 <= i < |es| ==> es[i].name != e.name
    ensures ListingTrue(fs + [f], q, es + [e])
  {
    hide EntryTrue, Below, ShowsAs, Under;
    var es' := es + [e];
    forall i | 0 <= i < |es'| ensures EntryTrue(fs + [f], q, es'[i]) {
      if i < |es| {
        OneName(f, q, es[i].name, e.name);
        EntryKept(fs, f, q, es[i]);
      }
    }
    forall g | g in fs + [f] && Below(g.path, q) ensures exists i :: 0 <= i < |es'| && ShowsAs(g, q, es'[i].name) {
      if g in fs {
        var i :| 0 <= i < |es| && ShowsAs(g, q, es[i].name);
        assert ShowsAs(g, q, es'[i].name);
      } else {
        assert ShowsAs(g, q, es'[|es|].name);
      }
    }
  }

  lemma OldListed(fs: seq<Entry>, f: Entry, q: Path, es: seq<Dirent>, es': seq<Dirent>, k: nat)
    requires ListingTrue(fs, q, es) && k < |es| && ShowsAs(f, q, es[k].name)
    requires es' == if Under(f, q, es[k].name) then es[k := es[k].(kind := DirNode, size := 0)] else es
    ensures ListingTrue(fs + [f], q, es')
  {
    hide EntryTrue, Below, ShowsAs, Under;
    forall i | 0 <= i < |es'| ensures EntryTrue(fs + [f], q, es'[i]) {
      if i != k {
        OneName(f, q, es[i].name, es[k].name);
        EntryKept(fs, f, q, es[i]);
      } else if Under(f, q, es[k].name) {
        EntryRaised(fs, f, q, es[k]);
      } else {
        EntryKept(fs, f, q, es[k]);
      }
    }
    forall g | g in fs + [f] && Below(g.path, q) ensures exists i :: 0 <= i < |es'| && ShowsAs(g, q, es'[i].name) {
      if g in fs {
        var i :| 0 <= i < |es| && ShowsAs(g, q, es[i].name);
        assert ShowsAs(g, q, es'[i].name);
      } else {
        assert ShowsAs(g, q, es'[k].name);
      }
    }
  }

  /**
   * A successful listing names every file's first component below q exactly once, as a directory iff some
   * file lies under it and otherwise as a file with the size of the first file of that path.
   */
  lemma {:induction false} ListingMeaning(files: seq<Entry>, q: Path, capacity: nat)
    requires Listing(files, q, capacity).Good?
    ensures ListingTrue(files, q, Listing(files, q, capacity).value)
  {
    hide Contribute, ListingTrue;
    if files == [] {
      EmptyListing(q);
    } else {
      var front, f := files[..|files| - 1], files[|files| - 1];
      ListingMeaning(front, q, capacity);
      ContributeTrue(front, f, q, capacity, Listing(front, q, capacity).value, Listing(files, q, capacity).value);
      assert files == front + [f];
    }
  }

  lemma EmptyListing(q: Path)
    ensures ListingTrue([], q, [])
  {
  }

  // ----- when a listing succeeds -------------------------------------------------------------------------------

  /** The first components of the files below q. */
  ghost function NamesBelow(files: seq<Entry>, q: Path): set<Path> {
    set f | f in files && Below(f.path, q) :: First(Rest(f.path, q))
  }

  predicate NameFits(name: Path) { 0 < |name| < 64 }

  ghost predicate Listable(files: seq<Entry>, q: Path, capacity: nat) {
    |NamesBelow(files, q)| <= capacity && forall n :: n in NamesBelow(files, q) ==> NameFits(n)
  }

  /** A true listing has one entry for each name. */
  lemma NamesListed(files: seq<Entry>, q: Path, es: seq<Dirent>)
    requires ListingTrue(files, q, es)
    ensures |es| == |NamesBelow(files, q)|
    ensures forall n :: n in NamesBelow(files, q) <==> exists i :: 0 <= i < |es| && es[i].name == n
  {
    hide ListingTrue, NamesBelow;
    var names := seq(|es|, i requires 0 <= i < |es| => es[i].name);
    DifferentNames(files, q, es);
    NoDupCount(names);
    forall n
      ensures n in NamesBelow(files, q) <==> exists i :: 0 <= i < |es| && es[i].name == n
      ensures n in NamesBelow(files, q) <==> n in names
    {
      NameListed(files, q, es, n);
      assert forall i :: 0 <= i < |es| ==> names[i] == es[i].name;
    }
    assert NamesBelow(files, q) == set n | n in names;
  }

  lemma DifferentNames(files: seq<Entry>, q: Path, es: seq<Dirent>)
    requires ListingTrue(files, q, es)
    ensures NoDup(seq(|es|, i requires 0 <= i < |es| => es[i].name))
  {
    hide EntryTrue, ShowsAs;
  }

  lemma NameListed(files: seq<Entry>, q: Path, es: seq<Dirent>, n: Path)
    requires ListingTrue(files, q, es)
    ensures n in NamesBelow(files, q) <==> exists i :: 0 <= i < |es| && es[i].name == n
  {
    hide Below, First, EntryTrue;
    if n in NamesBelow(files, q) {
      var f :| f in files && Below(f.path, q) && First(Rest(f.path, q)) == n;
      var i :| 0 <= i < |es| && ShowsAs(f, q, es[i].name);
    }
    if i :| 0 <= i < |es| && es[i].name == n {
      EntryName(files, q, es[i]);
    }
  }

  lemma EntryName(files: seq<Entry>, q: Path, e: Dirent)
    requires EntryTrue(files, q, e)
    ensures e.name in NamesBelow(files, q)
  {
    hide Below, First, Under, FirstMatch;
  }

  lemma NamesMore(fs: seq<Entry>, f: Entry, q: Path)
    ensures NamesBelow(fs + [f], q) == NamesBelow(fs, q) + if Below(f.path, q) then {First(Rest(f.path, q))} else {}
  {
    hide Below, First;
  }

  lemma ListableMore(fs: seq<Entry>, f: Entry, q: Path, capacity: nat)
    ensures Listable(fs + [f], q, capacity) ==> Listable(fs, q, capacity)
    ensures Listable(fs, q, capacity) ==>
      (Listable(fs + [f], q, capacity) <==>
        (Below(f.path, q) ==>
          var name := First(Rest(f.path, q));
          NameFits(name) && (name in NamesBelow(fs, q) || |NamesBelow(fs, q)| < capacity)))
  {
    hide Below, First, NameFits, NamesBelow;
    NamesMore(fs, f, q);
    var all, old' := NamesBelow(fs + [f], q), NamesBelow(fs, q);
    if Below(f.path, q) {
      var name := First(Rest(f.path, q));
      if name in old' {
        assert all == old';
      } else {
        assert |all| == |old'| + 1;
      }
    }
  }

  /**
   * A listing succeeds exactly when every first component below q is nonempty and shorter than 64 bytes and the
   * buffer has room for as many entries as there are different ones.
   */
  lemma {:induction false} ListingGoodIff(files: seq<Entry>, q: Path, capacity: nat)
    ensures Listing(files, q, capacity).Good? <==> Listable(files, q, capacity)
  {
    hide Contribute, ListingTrue, Listable;
    if files == [] {
      NothingListed(q, capacity);
    } else {
      var front, f := files[..|files| - 1], files[|files| - 1];
      ListingGoodIff(front, q, capacity);
      assert files == front + [f];
      ListableMore(front, f, q, capacity);
      if Listing(front, q, capacity).Good? {
        var es := Listing(front, q, capacity).value;
        ListingMeaning(front, q, capacity);
        NamesListed(front, q, es);
        ContributeGood(es, capacity, q, f, NamesBelow(front, q));
      }
    }
  }

  lemma NothingListed(q: Path, capacity: nat)
    ensures Listable([], q, capacity)
  {
    assert NamesBelow([], q) == {};
  }

  lemma ContributeGood(es: seq<Dirent>, capacity: nat, q: Path, f: Entry, names: set<Path>)
    requires |es| == |names| && forall n :: n in names <==> exists i :: 0 <= i < |es| && es[i].name == n
    ensures Contribute(es, capacity, q, f).Good? <==>
      (Below(f.path, q) ==>
        var name := First(Rest(f.path, q)); NameFits(name) && (name in names || |names| < capacity))
  {
    hide Below, First;
  }

  /** The same for the call: the path must name a directory and the buffer must not be empty. */
  lemma ListOfGoodIff(files: seq<Entry>, path: Path, capacity: nat)
    ensures ListOf(files, path, capacity).Good? <==>
      && capacity > 0 && StatOf(files, path) == Good(Stat(DirNode, 0)) && Listable(files, Trim(path), capacity)
    ensures var r, st := ListOf(files, path, capacity), StatOf(files, path);
      && (capacity == 0 || path == [] || path[0] != SLASH ==> r == Bad(Inval))
      && (capacity > 0 && st == Bad(NoEnt) ==> r == Bad(NoEnt))
      && (capacity > 0 && st.Good? && st.value.kind == FileNode ==> r == Bad(NotSup))
  {
    hide Listing, Listable, Trim;
    ListingGoodIff(files, Trim(path), capacity);
  }

  // ----- listing and stat --------------------------------------------------------------------------------------

  lemma ChildIsTrimmed(q: Path, name: Path)
    requires q != [] && q[0] == SLASH && name != [] && SLASH !in name
    ensures Child(q, name)[0] == SLASH && Trim(Child(q, name)) == Child(q, name) && |Child(q, name)| > 1
  {
    var c := Child(q, name);
    assert c[|c| - 1] == name[|name| - 1] != SLASH;
  }

  /** A path below the child with something after the slash is under the child, and conversely. */
  lemma UnderIsBelow(f: Entry, q: Path, name: Path)
    requires q != [] && name != [] && SLASH !in name
    ensures Below(f.path, Child(q, name)) <==> Under(f, q, name) && |f.path| > |Child(q, name)| + 1
  {
    hide Below, Under, Child;
    if Below(f.path, Child(q, name)) {
      BelowIsUnder(f, q, name);
    }
    if Under(f, q, name) && |f.path| > |Child(q, name)| + 1 {
      LongIsBelow(f, q, name);
    }
  }

  lemma BelowIsUnder(f: Entry, q: Path, name: Path)
    requires q != [] && name != [] && SLASH !in name && Below(f.path, Child(q, name))
    ensures Under(f, q, name) && |f.path| > |Child(q, name)| + 1
  {
    hide First;
    var c := Child(q, name);
    var tail := f.path[|c|..];
    assert c != ROOT && f.path[..|c|] == c;
    assert f.path == Stem(q) + (name + tail);
    assert f.path[..|q|] == c[..|q|];
    assert Below(f.path, q) && Rest(f.path, q) == name + tail;
    FirstOf(name, tail);
  }

  lemma LongIsBelow(f: Entry, q: Path, name: Path)
    requires q != [] && name != [] && Under(f, q, name) && |f.path| > |Child(q, name)| + 1
    ensures Below(f.path, Child(q, name))
  {
    hide First;
    var c, rest := Child(q, name), Rest(f.path, q);
    assert f.path[..|c|] == Stem(q) + rest[..|name|];
    assert f.path[|c|] == rest[|name|];
  }

  /** Stat agrees with a listed file always, and with a listed directory exactly under a condition on the table. */
  lemma StatAgreesIff(files: seq<Entry>, q: Path, e: Dirent)
    requires q != [] && q[0] == SLASH && EntryTrue(files, q, e)
    ensures StatOf(files, Child(q, e.name)) == Good(Stat(e.kind, e.size)) <==>
      e.kind == FileNode
      || ((forall f :: f in files ==> f.path != Child(q, e.name))
          && exists f :: f in files && |f.path| > |Child(q, e.name)| + 1 && Under(f, q, e.name))
  {
    ChildIsTrimmed(q, e.name);
    var c := Child(q, e.name);
    forall f: Entry ensures Below(f.path, c) <==> Under(f, q, e.name) && |f.path| > |c| + 1 {
      UnderIsBelow(f, q, e.name);
    }
    hide Below, Under, ShowsAs, Trim, Child, First;
    if e.kind == DirNode {
      var m := FirstMatch(files, c, |files|);
      if m.Some? {
        assert files[m.value] in files;
      } else {
        assert forall f :: f in files ==> f.path != c;
        if AnyBelow(files, c) {
          var i :| 0 <= i < |files| && Below(files[i].path, c);
          assert files[i] in files;
        }
        if f :| f in files && |f.path| > |c| + 1 && Under(f, q, e.name) {
          var i :| 0 <= i < |files| && files[i] == f;
          assert Below(files[i].path, c);
        }
      }
    }
  }

  /** No path ends in a slash and none is a directory above another. */
  ghost predicate TreeLike(files: seq<Entry>) {
    && (forall f :: f in files ==> f.path != [] && f.path[|f.path| - 1] != SLASH)
    && (forall f, g :: f in files && g in files ==> !Below(f.path, g.path))
  }

  /** In a tree-like table, stat of every listed child gives the listed kind and size. */
  lemma ListingAgreesWithStat(files: seq<Entry>, path: Path, capacity: nat)
    requires TreeLike(files) && ListOf(files, path, capacity).Good?
    ensures var es := ListOf(files, path, capacity).value;
      && ListingTrue(files, Trim(path), es)
      && forall i :: 0 <= i < |es| ==>
        StatOf(files, Child(Trim(path), es[i].name)) == Good(Stat(es[i].kind, es[i].size))
  {
    var q := Trim(path);
    ListingMeaning(files, q, capacity);
    var es := ListOf(files, path, capacity).value;
    hide Listing, Trim, StatOf, Below;
    forall i | 0 <= i < |es| ensures StatOf(files, Child(q, es[i].name)) == Good(Stat(es[i].kind, es[i].size)) {
      assert EntryTrue(files, q, es[i]);
      TreeAgrees(files, q, es[i]);
    }
  }

  lemma TreeAgrees(files: seq<Entry>, q: Path, e: Dirent)
    requires TreeLike(files) && q != [] && q[0] == SLASH && EntryTrue(files, q, e)
    ensures StatOf(files, Child(q, e.name)) == Good(Stat(e.kind, e.size))
  {
    StatAgreesIff(files, q, e);
    if e.kind == DirNode {
      var c := Child(q, e.name);
      var f :| f in files && Under(f, q, e.name);
      LongerThanChild(f, q, e.name);
      UnderIsBelow(f, q, e.name);
      hide StatOf, Under, Below, Child;
      forall g | g in files ensures g.path != c {
        assert !Below(f.path, g.path);
      }
    }
  }

  lemma LongerThanChild(f: Entry, q: Path, name: Path)
    requires Under(f, q, name) && f.path[|f.path| - 1] != SLASH
    ensures |f.path| > |Child(q, name)| + 1
  {
    hide First;
    var rest := Rest(f.path, q);
    assert f.path[|f.path| - 1] == rest[|rest| - 1];
  }

  /** A file that is also a directory above another: the listing says directory, stat says file. */
  lemma StatCanDisagree()
    ensures var a: byte := 97;
      var files := [Entry([SLASH, a], 512, 1), Entry([SLASH, a, SLASH, a], 1536, 2)];
      ListOf(files, ROOT, 8) == Good([Dirent([a], DirNode, 0)]) && StatOf(files, [SLASH, a]) == Good(Stat(FileNode, 1))
  {
    var a: byte := 97;
    var f, g := Entry([SLASH, a], 512, 1), Entry([SLASH, a, SLASH, a], 1536, 2);
    var files := [f, g];
    assert FirstMatch(files, [SLASH, a], 1) == Some(0);
    FirstOf([a], []);
    FirstOf([a], [SLASH, a]);
    assert [a] + [] == [a] && [a] + [SLASH, a] == [a, SLASH, a];
    assert Rest(f.path, ROOT) == [a] && Rest(g.path, ROOT) == [a, SLASH, a];
    assert files[..1] == [f] && [f][..0] == [];
    var d := Dirent([a], FileNode, 1);
    assert First([a]) == [a] && First([a, SLASH, a]) == [a];
    assert KindOf([a]) == FileNode && KindOf([a, SLASH, a]) == DirNode;
    assert [] + [d] == [d] && [d][0 := d.(kind := DirNode, size := 0)] == [Dirent([a], DirNode, 0)];
    assert Add([], 8, [a], FileNode, 1) == Good([d]);
    assert Contribute([], 8, ROOT, f) == Good([d]);
    assert Listing([f], ROOT, 8) == Good([d]);
    assert IndexOfName([d], [a], 1) == Some(0);
    assert Contribute([d], 8, ROOT, g) == Good([Dirent([a], DirNode, 0)]);
  }

  /** A file whose path ends in a slash: the listing says directory, stat finds nothing. */
  lemma StatCanMiss()
    ensures var a: byte := 97;
      var files := [Entry([SLASH, a, SLASH], 512, 1)];
      ListOf(files, ROOT, 8) == Good([Dirent([a], DirNode, 0)]) && StatOf(files, [SLASH, a]) == Bad(NoEnt)
  {
    var a: byte := 97;
    var f := Entry([SLASH, a, SLASH], 512, 1);
    FirstOf([a], [SLASH]);
    assert [a] + [SLASH] == [a, SLASH] == Rest(f.path, ROOT);
    assert First([a, SLASH]) == [a] && KindOf([a, SLASH]) == DirNode;
    var d := Dirent([a], DirNode, 0);
    assert [f][..0] == [] && [] + [d] == [d];
    assert Add([], 8, [a], DirNode, 0) == Good([d]);
    assert Contribute([], 8, ROOT, f) == Good([d]);
    assert Listing([f], ROOT, 8) == Good([Dirent([a], DirNode, 0)]);
    assert FirstMatch([f], [SLASH, a], 0).None?;
  }
}
