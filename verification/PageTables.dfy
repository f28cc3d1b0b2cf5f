/** Four-level page tables and the walk over them, with entries already decoded. */
module PageTables {
  import opened KernelTypes

  const ENTRIES: nat := 512
  /** Top-level entries from this index on form the kernel half. */
  const KERNEL_HALF: nat := 256
  const LEVELS: nat := 4

  /** What the bits of a page-table entry say. */
  datatype Entry = Entry(present: bool, writable: bool, user: bool, huge: bool, frame: nat)

  const ABSENT: Entry := Entry(false, false, false, false, 0)

  /** A present entry that refers to a table of the next level. */
  predicate Points(e: Entry) { e.present && !e.huge }

  /** The table indices of a page, top level first. */
  datatype Path = Path(i4: nat, i3: nat, i2: nat, i1: nat)

  predicate ValidPath(p: Path) { p.i4 < ENTRIES && p.i3 < ENTRIES && p.i2 < ENTRIES && p.i1 < ENTRIES }

  function Index(p: Path, k: nat): nat {
    if k <= 1 then p.i1 else if k == 2 then p.i2 else if k == 3 then p.i3 else p.i4
  }

  // ----- tables in memory ----------------------------------------------------------------

  /** A page used as a table, with the walk level that uses it. */
  datatype Table = Table(level: nat, entries: seq<Entry>)

  type Memory = map<nat, Table>

  function Read(mem: Memory, t: nat, i: nat): Entry {
    if t in mem && i < |mem[t].entries| then mem[t].entries[i] else ABSENT
  }

  function Write(mem: Memory, t: nat, i: nat, e: Entry): Memory
    requires t in mem && i < |mem[t].entries|
  {
    mem[t := mem[t].(entries := mem[t].entries[i := e])]
  }

  /** A zeroed page read as a table. */
  function Blank(): (es: seq<Entry>)
    ensures |es| == ENTRIES && forall i :: 0 <= i < ENTRIES ==> es[i] == ABSENT
  {
    seq(ENTRIES, i => ABSENT)
  }

  predicate IsTable(mem: Memory, t: nat, k: nat) { t in mem && mem[t].level == k }

  /** Entry i of the table t, above the leaf level, refers to the table c. */
  predicate Links(mem: Memory, t: nat, i: nat, c: nat) {
    t in mem && i < ENTRIES && mem[t].level > 1 && Points(Read(mem, t, i)) && Read(mem, t, i).frame == c
  }

  /** Tables have 512 entries and each link goes one level down. */
  ghost predicate Shaped(mem: Memory) {
    && (forall t :: t in mem ==>
          |mem[t].entries| == ENTRIES && 1 <= mem[t].level <= LEVELS && PageAligned(t) && t < PHYS_END)
    && (forall t: nat, i: nat, c: nat :: Links(mem, t, i, c) ==> IsTable(mem, c, mem[t].level - 1))
  }

  /** Each table has one parent entry, except that roots may share kernel-half tables at equal indices. */
  ghost predicate OneParent(mem: Memory) {
    forall t: nat, i: nat, u: nat, j: nat, c: nat :: Links(mem, t, i, c) && Links(mem, u, j, c) ==>
      i == j && (t == u || (mem[t].level == LEVELS && mem[u].level == LEVELS && i >= KERNEL_HALF))
  }

  ghost predicate WellFormed(mem: Memory) { Shaped(mem) && OneParent(mem) }

  // ----- the walk ------------------------------------------------------------------------

  /** The present entries met by a walk for a path that starts at table t of level k. */
  function Trace(mem: Memory, t: nat, k: nat, p: Path): (r: seq<Entry>)
    ensures |r| <= k
    decreases k
  {
    var e := Read(mem, t, Index(p, k));
    if k == 0 || !e.present then []
    else if k == 1 || e.huge then [e]
    else [e] + Trace(mem, e.frame, k - 1, p)
  }

  /** The table of level j that the walk reaches from table t of level k. */
  function TableAt(mem: Memory, t: nat, k: nat, p: Path, j: nat): Option<nat>
    decreases k
  {
    var e := Read(mem, t, Index(p, k));
    if k <= j then Some(t)
    else if Points(e) then TableAt(mem, e.frame, k - 1, p, j)
    else None
  }

  /** A present leaf, or a large page at level 2 or 3, ends the walk with a translation. */
  predicate Complete(tr: seq<Entry>) {
    |tr| == LEVELS || (2 <= |tr| < LEVELS && tr[|tr| - 1].huge)
  }

  /** The entries the processor combines to translate a page, if it can. */
  function Walk(mem: Memory, root: nat, p: Path): Option<seq<Entry>> {
    var tr := Trace(mem, root, LEVELS, p);
    if Complete(tr) then Some(tr) else None
  }

  datatype Mapping = Mapping(phys: nat, writable: bool, user: bool)

  /** What the tables of a root say about a 4 KiB page: the leaf's frame and the leaf's own flags. */
  function Lookup(mem: Memory, root: nat, p: Path): Option<Mapping> {
    match Walk(mem, root, p)
    case Some(tr) => if |tr| == LEVELS then Some(Mapping(tr[3].frame, tr[3].writable, tr[3].user)) else None
    case None => None
  }
}
