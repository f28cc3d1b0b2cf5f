/**
 * Map, unmap, translate and root creation over the page tables and the page pool, as functions on
 * the whole machine state, and what they do to the address map of every root.
 */
module Paging {
  import opened KernelTypes
  import opened PageTables
  import PhysicalPages

  /** Physical memory used as tables, the page pool and the root in CR3. */
  datatype Machine = Machine(mem: Memory, pool: PhysicalPages.Pool, active: nat)

  predicate IsRoot(mem: Memory, root: nat) { IsTable(mem, root, LEVELS) }

  /** Free pages are distinct, whole, physical and not in use as tables. */
  ghost predicate Spare(mem: Memory, stack: seq<nat>) {
    && NoDup(stack)
    && forall p :: p in stack ==> p !in mem && PageAligned(p) && p < PHYS_END
  }

  ghost predicate Sound(m: Machine) {
    WellFormed(m.mem) && Spare(m.mem, m.pool.stack) && m.pool.ready && IsRoot(m.mem, m.active) && m.active != 0
  }

  /** One root with nothing mapped, and a pool of free pages. */
  function BareMachine(root: nat, pool: PhysicalPages.Pool): Machine {
    Machine(map[root := Table(LEVELS, Blank())], pool, root)
  }

  /** Sound machines exist: any bare root beside any distinct whole pages. */
  lemma BareSound(root: nat, pool: PhysicalPages.Pool)
    requires root != 0 && PageAligned(root) && root < PHYS_END
    requires pool.ready && Spare(map[root := Table(LEVELS, Blank())], pool.stack)
    ensures Sound(BareMachine(root, pool))
  {
  }

  lemma SpareFront(mem: Memory, stack: seq<nat>)
    requires Spare(mem, stack) && stack != []
    ensures Spare(mem, stack[..|stack| - 1])
  {
    var rest := stack[..|stack| - 1];
    forall x | x in rest ensures x !in mem && PageAligned(x) && x < PHYS_END {
      assert x in stack;
    }
  }

  // ----- one step down, creating the table when it is missing ------------------------------

  /** Puts a zeroed page in as the missing table below entry i of table t. */
  function LinkTable(mem: Memory, t: nat, i: nat, page: nat, user: bool): Memory
    requires t in mem && i < |mem[t].entries| && mem[t].level > 0
  {
    Write(mem, t, i, Entry(true, true, user, false, page))[page := Table(mem[t].level - 1, Blank())]
  }

  function NextTable(m: Machine, t: nat, i: nat, create: bool, user: bool): (Machine, Result<nat>)
    requires t in m.mem && i < |m.mem[t].entries| && m.mem[t].level > 0
  {
    var e := Read(m.mem, t, i);
    if e.present then
      (m, if e.huge then Bad(Busy) else Good(e.frame))
    else if !create then (m, Bad(NoEnt))
    else
      var (pool, page) := PhysicalPages.Alloc(m.pool);
      match page
      case Bad(s) => (m, Bad(s))
      case Good(p) => (m.(mem := LinkTable(m.mem, t, i, p, user), pool := pool), Good(p))
  }

  /** How a trace may change when tables are created: only by new, open, non-leaf entries at its end. */
  ghost predicate Grows(before: seq<Entry>, after: seq<Entry>, k: nat, user: bool) {
    before == after
    || (before < after && |after| < k
        && forall n :: |before| <= n < |after| ==> Points(after[n]) && after[n].writable && after[n].user == user)
  }

  lemma GrowsCons(e: Entry, a: seq<Entry>, b: seq<Entry>, k: nat, user: bool)
    requires Grows(a, b, k, user)
    ensures Grows([e] + a, [e] + b, k + 1, user)
  {
    var x, y := [e] + a, [e] + b;
    if a != b {
      forall n | |x| <= n < |y| ensures Points(y[n]) && y[n].writable && y[n].user == user {
        assert y[n] == b[n - 1];
      }
    }
  }

  lemma LinkWellFormed(mem: Memory, t: nat, i: nat, p: nat, user: bool)
    requires WellFormed(mem) && t in mem && mem[t].level > 1 && i < ENTRIES
    requires !Read(mem, t, i).present && p !in mem && PageAligned(p) && p < PHYS_END
    ensures WellFormed(LinkTable(mem, t, i, p, user))
  {
    var mem' := LinkTable(mem, t, i, p, user);
    forall u: nat, j: nat, c: nat | Links(mem', u, j, c)
      ensures (u == t && j == i && c == p) || (c != p && u != p && Links(mem, u, j, c))
    {
      if u != t || j != i {
        assert u != p;
        assert Read(mem', u, j) == Read(mem, u, j);
        assert Links(mem, u, j, c);
      }
    }
  }

  /** Linking a fresh table extends the traces through that entry by one entry and no other trace. */
  lemma {:induction false} LinkGrows(mem: Memory, t: nat, i: nat, p: nat, user: bool, t0: nat, k: nat, v: Path)
    requires Shaped(mem) && t in mem && mem[t].level > 1 && i < ENTRIES
    requires !Read(mem, t, i).present && p !in mem && PageAligned(p) && p < PHYS_END
    requires IsTable(mem, t0, k) && ValidPath(v)
    ensures var mem' := LinkTable(mem, t, i, p, user);
      Grows(Trace(mem, t0, k, v), Trace(mem', t0, k, v), k, user)
    decreases k
  {
    var mem' := LinkTable(mem, t, i, p, user);
    var j := Index(v, k);
    var e := Read(mem, t0, j);
    if t0 == t && j == i {
      LinkEnds(mem, t, i, p, user, k, v);
    } else {
      assert Read(mem', t0, j) == e;
      if Points(e) && k > 1 {
        assert Links(mem, t0, j, e.frame);
        LinkGrows(mem, t, i, p, user, e.frame, k - 1, v);
        GrowsCons(e, Trace(mem, e.frame, k - 1, v), Trace(mem', e.frame, k - 1, v), k - 1, user);
      }
    }
  }

  /** Through the new link a walk goes one step further and ends in the blank table. */
  lemma LinkEnds(mem: Memory, t: nat, i: nat, p: nat, user: bool, k: nat, v: Path)
    requires Shaped(mem) && IsTable(mem, t, k) && k > 1 && i < ENTRIES && p !in mem && Index(v, k) == i
    ensures var mem' := LinkTable(mem, t, i, p, user);
      Trace(mem', t, k, v) == [Read(mem', t, i)] && Read(mem', t, i) == Entry(true, true, user, false, p)
  {
    var mem' := LinkTable(mem, t, i, p, user);
    assert Read(mem', p, Index(v, k - 1)) == ABSENT;
    assert Trace(mem', p, k - 1, v) == [];
  }

  /** A walk that does not use entry i of table t is untouched by what is linked there. */
  lemma {:induction false} LinkUntouched(mem: Memory, t: nat, i: nat, p: nat, user: bool, t0: nat, k: nat, v: Path)
    requires Shaped(mem) && t in mem && mem[t].level > 1 && i < ENTRIES
    requires !Read(mem, t, i).present && p !in mem && PageAligned(p) && p < PHYS_END
    requires IsTable(mem, t0, k) && ValidPath(v)
    requires k < mem[t].level || TableAt(mem, t0, k, v, mem[t].level) != Some(t) || Index(v, mem[t].level) != i
    ensures Trace(LinkTable(mem, t, i, p, user), t0, k, v) == Trace(mem, t0, k, v)
    decreases k
  {
    var mem' := LinkTable(mem, t, i, p, user);
    var j := Index(v, k);
    var e := Read(mem, t0, j);
    assert Read(mem', t0, j) == e;
    if Points(e) && k > 1 {
      assert Links(mem, t0, j, e.frame);
      LinkUntouched(mem, t, i, p, user, e.frame, k - 1, v);
    }
  }

  /** Two roots use the same table below top-level index i: they are one root, or both link it there. */
  predicate Shares(mem: Memory, r: nat, s: nat, i: nat) {
    r == s
    || (i >= KERNEL_HALF && Points(Read(mem, r, i)) && Points(Read(mem, s, i))
        && Read(mem, r, i).frame == Read(mem, s, i).frame)
  }

  /** Walks that meet in a table below the top took the same way there. */
  lemma {:induction false} Meet(mem: Memory, t: nat, p: Path, u: nat, q: Path, k: nat, j: nat)
    requires WellFormed(mem) && ValidPath(p) && ValidPath(q) && 1 <= j < k <= LEVELS
    requires IsTable(mem, t, k) && IsTable(mem, u, k)
    requires TableAt(mem, t, k, p, j).Some? && TableAt(mem, t, k, p, j) == TableAt(mem, u, k, q, j)
    ensures forall l :: j < l <= k ==> Index(p, l) == Index(q, l)
    ensures if k == LEVELS then Shares(mem, t, u, p.i4) else t == u
    decreases k
  {
    var e, f := Read(mem, t, Index(p, k)), Read(mem, u, Index(q, k));
    assert Links(mem, t, Index(p, k), e.frame) && Links(mem, u, Index(q, k), f.frame);
    if k - 1 > j {
      Meet(mem, e.frame, p, f.frame, q, k - 1, j);
    }
  }

  // ----- the way down to the leaf table ------------------------------------------------------

  /** Follows the path from table t of level k to the leaf table, creating what is missing. */
  function LeafTable(m: Machine, t: nat, k: nat, p: Path, create: bool, user: bool): (Machine, Result<nat>)
    decreases k
  {
    if k <= 1 || !IsTable(m.mem, t, k) || Index(p, k) >= |m.mem[t].entries| then (m, Good(t))
    else
      var (m1, next) := NextTable(m, t, Index(p, k), create, user);
      match next
      case Bad(s) => (m1, Bad(s))
      case Good(c) => LeafTable(m1, c, k - 1, p, create, user)
  }

  /** What table creation does to the memory: it keeps every table and every present entry. */
  ghost predicate Keeps(mem: Memory, mem': Memory) {
    && (forall t, k :: IsTable(mem, t, k) ==> IsTable(mem', t, k))
    && (forall r :: IsRoot(mem', r) ==> IsRoot(mem, r))
    && (forall t, i :: Read(mem, t, i).present ==> Read(mem', t, i) == Read(mem, t, i))
  }

  ghost predicate AllGrow(mem: Memory, mem': Memory, user: bool) {
    forall t, k, v :: IsTable(mem, t, k) && ValidPath(v) ==> Grows(Trace(mem, t, k, v), Trace(mem', t, k, v), k, user)
  }

  /** Only walks below the given top-level entry, in roots that share it, have changed. */
  ghost predicate Confined(mem: Memory, mem': Memory, root: nat, i: nat) {
    forall r, v :: IsRoot(mem, r) && ValidPath(v) && Trace(mem, r, LEVELS, v) != Trace(mem', r, LEVELS, v) ==>
      Shares(mem', r, root, i) && v.i4 == i
  }

  lemma SharesKept(mem: Memory, mem': Memory, r: nat, s: nat, i: nat)
    requires Keeps(mem, mem') && Shares(mem, r, s, i)
    ensures Shares(mem', r, s, i)
  {
  }

  lemma LinkConfined(mem: Memory, root: nat, t: nat, k: nat, p: Path, page: nat, user: bool)
    requires WellFormed(mem) && ValidPath(p) && IsRoot(mem, root) && 1 < k <= LEVELS && IsTable(mem, t, k)
    requires TableAt(mem, root, LEVELS, p, k) == Some(t) && !Read(mem, t, Index(p, k)).present
    requires page !in mem && PageAligned(page) && page < PHYS_END
    ensures Confined(mem, LinkTable(mem, t, Index(p, k), page, user), root, p.i4)
  {
    var i := Index(p, k);
    var mem' := LinkTable(mem, t, i, page, user);
    forall r, v | IsRoot(mem, r) && ValidPath(v) && Trace(mem, r, LEVELS, v) != Trace(mem', r, LEVELS, v)
      ensures Shares(mem', r, root, p.i4) && v.i4 == p.i4
    {
      if TableAt(mem, r, LEVELS, v, k) != Some(t) || Index(v, k) != i {
        LinkUntouched(mem, t, i, page, user, r, LEVELS, v);
      } else if k < LEVELS {
        Meet(mem, r, v, root, p, LEVELS, k);
        assert Index(v, LEVELS) == Index(p, LEVELS);
        SharesKept(mem, mem', r, root, p.i4);
      }
    }
  }

  lemma LinkStep(mem: Memory, root: nat, t: nat, k: nat, p: Path, page: nat, user: bool)
    requires WellFormed(mem) && ValidPath(p) && IsRoot(mem, root) && 1 < k <= LEVELS && IsTable(mem, t, k)
    requires TableAt(mem, root, LEVELS, p, k) == Some(t) && !Read(mem, t, Index(p, k)).present
    requires page !in mem && PageAligned(page) && page < PHYS_END
    ensures var mem' := LinkTable(mem, t, Index(p, k), page, user);
      WellFormed(mem') && Keeps(mem, mem') && AllGrow(mem, mem', user) && Confined(mem, mem', root, p.i4)
      && TableAt(mem', root, LEVELS, p, k - 1) == Some(page)
  {
    var i := Index(p, k);
    var mem' := LinkTable(mem, t, i, page, user);
    LinkWellFormed(mem, t, i, page, user);
    forall t0, k0, v | IsTable(mem, t0, k0) && ValidPath(v)
      ensures Grows(Trace(mem, t0, k0, v), Trace(mem', t0, k0, v), k0, user)
    {
      LinkGrows(mem, t, i, page, user, t0, k0, v);
    }
    LinkConfined(mem, root, t, k, p, page, user);
    DescendKept(mem, mem', root, LEVELS, p, k);
    assert TableAt(mem', root, LEVELS, p, k) == Some(t);
    DescendFurther(mem', root, LEVELS, p, k);
  }

  lemma {:induction false} DescendKept(mem: Memory, mem': Memory, t: nat, k: nat, p: Path, j: nat)
    requires Keeps(mem, mem') && TableAt(mem, t, k, p, j).Some?
    ensures TableAt(mem', t, k, p, j) == TableAt(mem, t, k, p, j)
    decreases k
  {
    if k > j {
      DescendKept(mem, mem', Read(mem, t, Index(p, k)).frame, k - 1, p, j);
    }
  }

  lemma {:induction false} DescendFurther(mem: Memory, t: nat, k: nat, p: Path, j: nat)
    requires 1 < j <= k && TableAt(mem, t, k, p, j).Some?
    requires Points(Read(mem, TableAt(mem, t, k, p, j).value, Index(p, j)))
    ensures TableAt(mem, t, k, p, j - 1) == Some(Read(mem, TableAt(mem, t, k, p, j).value, Index(p, j)).frame)
    decreases k
  {
    if k > j {
      DescendFurther(mem, Read(mem, t, Index(p, k)).frame, k - 1, p, j);
    }
  }

  lemma GrowsTrans(a: seq<Entry>, b: seq<Entry>, c: seq<Entry>, k: nat, user: bool)
    requires Grows(a, b, k, user) && Grows(b, c, k, user)
    ensures Grows(a, c, k, user)
  {
    if a != b && b != c {
      forall n | |a| <= n < |c| ensures Points(c[n]) && c[n].writable && c[n].user == user {
        assert n < |b| ==> c[n] == b[n];
      }
    }
  }

  lemma StepsCompose(mem: Memory, mem1: Memory, mem2: Memory, root: nat, i: nat, user: bool)
    requires Keeps(mem, mem1) && AllGrow(mem, mem1, user) && Confined(mem, mem1, root, i)
    requires Keeps(mem1, mem2) && AllGrow(mem1, mem2, user) && Confined(mem1, mem2, root, i)
    ensures Keeps(mem, mem2) && AllGrow(mem, mem2, user) && Confined(mem, mem2, root, i)
  {
    forall t, k, v | IsTable(mem, t, k) && ValidPath(v)
      ensures Grows(Trace(mem, t, k, v), Trace(mem2, t, k, v), k, user)
    {
      assert IsTable(mem1, t, k);
      GrowsTrans(Trace(mem, t, k, v), Trace(mem1, t, k, v), Trace(mem2, t, k, v), k, user);
    }
    forall r, v | IsRoot(mem, r) && ValidPath(v) && Trace(mem, r, LEVELS, v) != Trace(mem2, r, LEVELS, v)
      ensures Shares(mem2, r, root, i) && v.i4 == i
    {
      if Trace(mem, r, LEVELS, v) != Trace(mem1, r, LEVELS, v) {
        SharesKept(mem1, mem2, r, root, i);
      }
    }
  }

  /** The number of tables missing on the path, and whether a large page is in the way. */
  function Missing(mem: Memory, t: nat, k: nat, p: Path): nat
    decreases k
  {
    var e := Read(mem, t, Index(p, k));
    if k <= 1 then 0 else if !e.present then k - 1 else if e.huge then 0 else Missing(mem, e.frame, k - 1, p)
  }

  predicate Blocked(mem: Memory, t: nat, k: nat, p: Path)
    decreases k
  {
    var e := Read(mem, t, Index(p, k));
    k > 1 && e.present && (e.huge || Blocked(mem, e.frame, k - 1, p))
  }

  lemma SpareAfterLink(mem: Memory, t: nat, i: nat, stack: seq<nat>, user: bool)
    requires Spare(mem, stack) && stack != [] && t in mem && i < |mem[t].entries| && mem[t].level > 0
    ensures var page := stack[|stack| - 1];
      page !in mem && Spare(LinkTable(mem, t, i, page, user), stack[..|stack| - 1])
  {
    var page, rest := stack[|stack| - 1], stack[..|stack| - 1];
    assert page in stack;
    assert LinkTable(mem, t, i, page, user).Keys == mem.Keys + {page};
    forall x | x in rest ensures x in stack && x != page {
      var n :| 0 <= n < |rest| && rest[n] == x;
      assert stack[n] == x;
    }
  }

  lemma StepsStart(mem: Memory, root: nat, i: nat, user: bool)
    ensures Keeps(mem, mem) && AllGrow(mem, mem, user) && Confined(mem, mem, root, i)
  {
  }

  /** Creation succeeds exactly when no large page is in the way and the pool covers what is missing. */
  lemma {:induction false} CreatePath(m: Machine, root: nat, t: nat, k: nat, p: Path, user: bool)
    requires Sound(m) && ValidPath(p) && IsRoot(m.mem, root) && 1 <= k <= LEVELS && IsTable(m.mem, t, k)
    requires TableAt(m.mem, root, LEVELS, p, k) == Some(t)
    ensures var (m', r) := LeafTable(m, t, k, p, true, user);
      && Sound(m') && m'.active == m.active && m'.pool.stack <= m.pool.stack
      && Keeps(m.mem, m'.mem) && AllGrow(m.mem, m'.mem, user) && Confined(m.mem, m'.mem, root, p.i4)
      && (r.Good? ==> IsTable(m'.mem, r.value, 1) && TableAt(m'.mem, root, LEVELS, p, 1) == Some(r.value))
      && (r.Bad? ==> r.error == if Blocked(m.mem, t, k, p) then Busy else NoMem)
      && (r.Good? <==> !Blocked(m.mem, t, k, p) && Missing(m.mem, t, k, p) <= |m.pool.stack|)
    decreases k
  {
    hide Keeps, AllGrow, Confined, TableAt, Spare;
    StepsStart(m.mem, root, p.i4, user);
    var i := Index(p, k);
    var e := Read(m.mem, t, i);
    if k > 1 {
      if Points(e) {
        assert Links(m.mem, t, i, e.frame);
        DescendFurther(m.mem, root, LEVELS, p, k);
        CreatePath(m, root, e.frame, k - 1, p, user);
      } else if !e.present && m.pool.stack != [] {
        var page := LinkedNext(m, root, t, k, p, user);
        var m1 := NextTable(m, t, i, true, user).0;
        CreatePath(m1, root, page, k - 1, p, user);
        StepsCompose(m.mem, m1.mem, LeafTable(m1, page, k - 1, p, true, user).0.mem, root, p.i4, user);
        FreshMissing(m1.mem, page, k - 1, p);
      }
    }
  }

  /** A table is created from the top page of the stack. */
  lemma LinkedNext(m: Machine, root: nat, t: nat, k: nat, p: Path, user: bool) returns (page: nat)
    requires Sound(m) && ValidPath(p) && IsRoot(m.mem, root) && 1 < k <= LEVELS && IsTable(m.mem, t, k)
    requires TableAt(m.mem, root, LEVELS, p, k) == Some(t) && !Read(m.mem, t, Index(p, k)).present && m.pool.stack != []
    ensures var (m1, r) := NextTable(m, t, Index(p, k), true, user);
      && r == Good(page) && Sound(m1) && m1.active == m.active && m1.pool.stack == m.pool.stack[..|m.pool.stack| - 1]
      && Keeps(m.mem, m1.mem) && AllGrow(m.mem, m1.mem, user) && Confined(m.mem, m1.mem, root, p.i4)
      && IsRoot(m1.mem, root) && IsTable(m1.mem, page, k - 1) && m1.mem[page].entries == Blank()
      && TableAt(m1.mem, root, LEVELS, p, k - 1) == Some(page)
  {
    assert Index(p, k) < |m.mem[t].entries|;
    hide AllGrow, Confined, TableAt, WellFormed;
    var stack := m.pool.stack;
    page := stack[|stack| - 1];
    SpareAfterLink(m.mem, t, Index(p, k), stack, user);
    assert page in stack;
    LinkStep(m.mem, root, t, k, p, page, user);
  }

  /** One step down the path keeps the machine sound and leads to the table of the next level. */
  lemma NextSound(m: Machine, root: nat, t: nat, k: nat, p: Path, create: bool, user: bool)
    requires Sound(m) && ValidPath(p) && IsRoot(m.mem, root) && 1 < k <= LEVELS && IsTable(m.mem, t, k)
    requires TableAt(m.mem, root, LEVELS, p, k) == Some(t)
    ensures var (m', r) := NextTable(m, t, Index(p, k), create, user);
      && Sound(m') && IsRoot(m'.mem, root)
      && (r.Good? ==> IsTable(m'.mem, r.value, k - 1) && TableAt(m'.mem, root, LEVELS, p, k - 1) == Some(r.value))
      && LeafTable(m, t, k, p, create, user) ==
           (if r.Bad? then (m', Bad(r.error)) else LeafTable(m', r.value, k - 1, p, create, user))
  {
    var i := Index(p, k);
    var e := Read(m.mem, t, i);
    if Points(e) {
      assert Links(m.mem, t, i, e.frame);
      DescendFurther(m.mem, root, LEVELS, p, k);
    } else if !e.present && create && m.pool.stack != [] {
      var stack := m.pool.stack;
      SpareAfterLink(m.mem, t, i, stack, user);
      assert stack[|stack| - 1] in stack;
      LinkStep(m.mem, root, t, k, p, stack[|stack| - 1], user);
    }
  }

  lemma FreshMissing(mem: Memory, page: nat, k: nat, p: Path)
    requires 1 <= k && page in mem && mem[page].entries == Blank()
    ensures !Blocked(mem, page, k, p) && Missing(mem, page, k, p) == k - 1
  {
  }

  // ----- writing the leaf ---------------------------------------------------------------------

  /** Creating tables changes no translation. */
  lemma WalkStays(mem: Memory, mem': Memory, root: nat, v: Path, user: bool)
    requires AllGrow(mem, mem', user) && IsRoot(mem, root) && ValidPath(v)
    ensures Walk(mem', root, v) == Walk(mem, root, v)
  {
    var a, b := Trace(mem, root, LEVELS, v), Trace(mem', root, LEVELS, v);
    assert Grows(a, b, LEVELS, user);
    if a != b {
      HugeEnds(mem', root, LEVELS, v);
      if |a| > 0 {
        assert a[|a| - 1] == b[|a| - 1];
      }
    }
  }

  lemma {:induction false} HugeEnds(mem: Memory, t: nat, k: nat, v: Path)
    ensures forall n :: 0 <= n < |Trace(mem, t, k, v)| - 1 ==> !Trace(mem, t, k, v)[n].huge
    decreases k
  {
    var e := Read(mem, t, Index(v, k));
    if k > 1 && Points(e) {
      HugeEnds(mem, e.frame, k - 1, v);
      var rest := Trace(mem, e.frame, k - 1, v);
      assert Trace(mem, t, k, v) == [e] + rest;
    }
  }

  /** The entries above the leaf level on a path. */
  function Upper(mem: Memory, t: nat, k: nat, v: Path): (r: seq<Entry>)
    ensures |r| == if k == 0 then 0 else k - 1
    decreases k
  {
    if k <= 1 then []
    else
      var e := Read(mem, t, Index(v, k));
      [e] + Upper(mem, e.frame, k - 1, v)
  }

  function LeafPart(e: Entry): seq<Entry> { if e.present then [e] else [] }

  /** A walk that reaches a leaf table consists of the upper entries and the leaf. */
  lemma {:induction false} Reached(mem: Memory, t: nat, k: nat, v: Path, pt: nat)
    requires 1 <= k && TableAt(mem, t, k, v, 1) == Some(pt)
    ensures Trace(mem, t, k, v) == Upper(mem, t, k, v) + LeafPart(Read(mem, pt, v.i1))
    ensures forall n :: 0 <= n < k - 1 ==> Points(Upper(mem, t, k, v)[n])
    decreases k
  {
    if k > 1 {
      var e := Read(mem, t, Index(v, k));
      Reached(mem, e.frame, k - 1, v, pt);
    }
  }

  /** Storing a leaf changes no upper entry, and only the walks that end in that slot. */
  lemma {:induction false} LeafWrite(mem: Memory, pt: nat, i: nat, e: Entry, t: nat, k: nat, v: Path)
    requires Shaped(mem) && IsTable(mem, pt, 1) && i < ENTRIES && IsTable(mem, t, k) && ValidPath(v)
    ensures var mem' := Write(mem, pt, i, e);
      && TableAt(mem', t, k, v, 1) == TableAt(mem, t, k, v, 1)
      && (TableAt(mem, t, k, v, 1) == Some(pt) ==> Upper(mem', t, k, v) == Upper(mem, t, k, v))
      && (TableAt(mem, t, k, v, 1) != Some(pt) || v.i1 != i ==> Trace(mem', t, k, v) == Trace(mem, t, k, v))
    decreases k
  {
    var mem' := Write(mem, pt, i, e);
    var f := Read(mem, t, Index(v, k));
    if k > 1 {
      assert Read(mem', t, Index(v, k)) == f;
      if Points(f) {
        assert Links(mem, t, Index(v, k), f.frame);
        LeafWrite(mem, pt, i, e, f.frame, k - 1, v);
      }
    }
  }

  lemma LeafWriteWellFormed(mem: Memory, pt: nat, i: nat, e: Entry)
    requires WellFormed(mem) && IsTable(mem, pt, 1) && i < ENTRIES
    ensures WellFormed(Write(mem, pt, i, e))
    ensures forall r, s, x :: Shares(Write(mem, pt, i, e), r, s, x) && IsRoot(mem, r) && IsRoot(mem, s) <==> 
                              Shares(mem, r, s, x) && IsRoot(mem, r) && IsRoot(mem, s)
  {
    var mem' := Write(mem, pt, i, e);
    forall t: nat, j: nat ensures t != pt ==> Read(mem', t, j) == Read(mem, t, j) {
    }
    forall t: nat, j: nat, c: nat | Links(mem', t, j, c) ensures Links(mem, t, j, c) {
    }
  }

  /** The slot that root and path lead to is reached by exactly the sharing roots, on that path. */
  lemma SlotOwners(mem: Memory, root: nat, p: Path, pt: nat, r: nat, v: Path)
    requires WellFormed(mem) && IsRoot(mem, root) && IsRoot(mem, r) && ValidPath(p) && ValidPath(v)
    requires TableAt(mem, root, LEVELS, p, 1) == Some(pt)
    ensures TableAt(mem, r, LEVELS, v, 1) == Some(pt) && v.i1 == p.i1 <==> v == p && Shares(mem, r, root, p.i4)
  {
    if TableAt(mem, r, LEVELS, v, 1) == Some(pt) && v.i1 == p.i1 {
      Meet(mem, r, v, root, p, LEVELS, 1);
      assert Index(v, 4) == Index(p, 4) && Index(v, 3) == Index(p, 3) && Index(v, 2) == Index(p, 2);
    }
  }

  /** Storing a leaf: the sharing roots see it on that path, and nothing else changes anywhere. */
  lemma StoreLeaf(mem: Memory, root: nat, p: Path, pt: nat, e: Entry, r: nat, v: Path)
    requires WellFormed(mem) && IsRoot(mem, root) && IsRoot(mem, r) && ValidPath(p) && ValidPath(v)
    requires IsTable(mem, pt, 1) && TableAt(mem, root, LEVELS, p, 1) == Some(pt)
    ensures var mem' := Write(mem, pt, p.i1, e);
      Walk(mem', r, v) ==
        if v != p || !Shares(mem, r, root, p.i4) then Walk(mem, r, v)
        else if e.present then Some(Upper(mem', r, LEVELS, p) + [e])
        else None
    ensures v == p && Shares(mem, r, root, p.i4) ==> (Read(mem, pt, p.i1).present <==> Lookup(mem, r, v).Some?)
    ensures v == p && Shares(mem, r, root, p.i4) ==> (Walk(mem, r, v).Some? <==> Lookup(mem, r, v).Some?)
  {
    SlotOwners(mem, root, p, pt, r, v);
    LeafWrite(mem, pt, p.i1, e, r, LEVELS, v);
    if v == p && Shares(mem, r, root, p.i4) {
      var mem' := Write(mem, pt, p.i1, e);
      Reached(mem, r, LEVELS, v, pt);
      Reached(mem', r, LEVELS, v, pt);
    }
  }

  // ----- the operations, on paths ---------------------------------------------------------------

  function MapPath(m: Machine, root: nat, p: Path, e: Entry, user: bool): (Machine, Status) {
    var (m1, r) := LeafTable(m, root, LEVELS, p, true, user);
    match r
    case Bad(s) => (m1, s)
    case Good(pt) =>
      if Read(m1.mem, pt, p.i1).present || pt !in m1.mem || p.i1 >= |m1.mem[pt].entries| then (m1, Busy)
      else (m1.(mem := Write(m1.mem, pt, p.i1, e)), Ok)
  }

  function UnmapPath(m: Machine, root: nat, p: Path): (Machine, Status) {
    var (m1, r) := LeafTable(m, root, LEVELS, p, false, false);
    match r
    case Bad(s) => (m, s)
    case Good(pt) =>
      if !Read(m.mem, pt, p.i1).present then (m, NoEnt)
      else (m.(mem := Write(m.mem, pt, p.i1, ABSENT)), Ok)
  }

  /** A search that may not create tables changes nothing. */
  lemma {:induction false} FindChangesNothing(m: Machine, t: nat, k: nat, p: Path, user: bool)
    ensures LeafTable(m, t, k, p, false, user).0 == m
    decreases k
  {
    if k > 1 && IsTable(m.mem, t, k) && Index(p, k) < |m.mem[t].entries| {
      FindChangesNothing(m, Read(m.mem, t, Index(p, k)).frame, k - 1, p, user);
    }
  }

  lemma {:induction false} FindPath(m: Machine, t: nat, k: nat, p: Path)
    requires Shaped(m.mem) && ValidPath(p) && 1 <= k <= LEVELS && IsTable(m.mem, t, k)
    ensures var (m', r) := LeafTable(m, t, k, p, false, false);
      && m' == m
      && (r.Good? ==> TableAt(m.mem, t, k, p, 1) == Some(r.value) && IsTable(m.mem, r.value, 1))
      && (r.Bad? ==> TableAt(m.mem, t, k, p, 1) == None && |Trace(m.mem, t, k, p)| < k)
      && (r.Bad? ==> r.error == if Blocked(m.mem, t, k, p) then Busy else NoEnt)
    decreases k
  {
    var e := Read(m.mem, t, Index(p, k));
    if k > 1 && Points(e) {
      assert Links(m.mem, t, Index(p, k), e.frame);
      FindPath(m, e.frame, k - 1, p);
    }
  }

  /** Roots and present top-level entries survive. */
  ghost predicate KeepsTops(mem: Memory, mem': Memory) {
    && (forall r :: IsRoot(mem, r) ==> IsRoot(mem', r))
    && (forall r, i :: IsRoot(mem, r) && Read(mem, r, i).present ==> Read(mem', r, i) == Read(mem, r, i))
  }

  /** Which roots share which top-level entries does not change. */
  ghost predicate SameSharing(mem: Memory, mem': Memory) {
    forall r, s, i: nat :: IsRoot(mem, r) && IsRoot(mem, s) ==> (Shares(mem', r, s, i) <==> Shares(mem, r, s, i))
  }

  /**
   * Mapping: the sharing roots see the new leaf on that path; no other walk changes, and a call
   * that fails, even after it has created tables, changes no walk at all.
   */
  lemma MapPathEffect(m: Machine, root: nat, p: Path, e: Entry, user: bool)
    requires Sound(m) && IsRoot(m.mem, root) && ValidPath(p) && e.present
    ensures var (m', s) := MapPath(m, root, p, e, user);
      && Sound(m') && m'.active == m.active && m'.pool.stack <= m.pool.stack && KeepsTops(m.mem, m'.mem)
      && (forall r :: IsRoot(m'.mem, r) ==> IsRoot(m.mem, r))
      && (forall r, v :: IsRoot(m.mem, r) && ValidPath(v) ==>
            Walk(m'.mem, r, v) ==
              if s == Ok && v == p && Shares(m'.mem, r, root, p.i4) then Some(Upper(m'.mem, r, LEVELS, p) + [e])
              else Walk(m.mem, r, v))
      && (s == Ok <==> !Blocked(m.mem, root, LEVELS, p) && Missing(m.mem, root, LEVELS, p) <= |m.pool.stack|
                       && Lookup(m.mem, root, p) == None)
      && (s != Ok ==> s == if Blocked(m.mem, root, LEVELS, p) || Lookup(m.mem, root, p).Some? then Busy else NoMem)
  {
    hide AllGrow, Confined, TableAt, Blocked, Missing, Upper, LeafTable, Trace;
    var (m1, r1) := LeafTable(m, root, LEVELS, p, true, user);
    TopTable(m.mem, root, p);
    CreatePath(m, root, root, LEVELS, p, user);
    forall r, v | IsRoot(m.mem, r) && ValidPath(v) ensures Walk(m1.mem, r, v) == Walk(m.mem, r, v) {
      WalkStays(m.mem, m1.mem, r, v, user);
    }
    if r1.Good? {
      var pt := r1.value;
      StoreLeaf(m1.mem, root, p, pt, e, root, p);
      assert Lookup(m1.mem, root, p) == Lookup(m.mem, root, p);
      if !Read(m1.mem, pt, p.i1).present {
        var mem' := Write(m1.mem, pt, p.i1, e);
        LeafWriteWellFormed(m1.mem, pt, p.i1, e);
        assert mem'.Keys == m1.mem.Keys;
        forall r, v | IsRoot(m.mem, r) && ValidPath(v)
          ensures Walk(mem', r, v) ==
            if v == p && Shares(mem', r, root, p.i4) then Some(Upper(mem', r, LEVELS, p) + [e]) else Walk(m.mem, r, v)
        {
          StoreLeaf(m1.mem, root, p, pt, e, r, v);
        }
      }
    } else {
      MissingUnmapped(m.mem, root, LEVELS, p);
    }
  }

  /** What a successful mapping makes visible had no translation before, through any sharing root. */
  lemma MapHidden(m: Machine, root: nat, p: Path, e: Entry, user: bool)
    requires Sound(m) && IsRoot(m.mem, root) && ValidPath(p) && e.present
    ensures var (m', st) := MapPath(m, root, p, e, user);
      st == Ok ==> forall r :: IsRoot(m.mem, r) && Shares(m'.mem, r, root, p.i4) ==> Walk(m.mem, r, p) == None
  {
    var (m1, r1) := LeafTable(m, root, LEVELS, p, true, user);
    var (m', st) := MapPath(m, root, p, e, user);
    CreatePath(m, root, root, LEVELS, p, user);
    if st == Ok {
      var pt := r1.value;
      LeafWriteWellFormed(m1.mem, pt, p.i1, e);
      forall r | IsRoot(m.mem, r) && Shares(m'.mem, r, root, p.i4) ensures Walk(m.mem, r, p) == None {
        StoreLeaf(m1.mem, root, p, pt, e, r, p);
        WalkStays(m.mem, m1.mem, r, p, user);
      }
    }
  }

  lemma TopTable(mem: Memory, root: nat, p: Path)
    ensures TableAt(mem, root, LEVELS, p, LEVELS) == Some(root)
  {
  }

  /** In a bare root every path lacks its three lower tables. */
  lemma BareEmpty(root: nat, pool: PhysicalPages.Pool, p: Path)
    requires ValidPath(p)
    ensures var mem := BareMachine(root, pool).mem;
      && !Blocked(mem, root, LEVELS, p) && Missing(mem, root, LEVELS, p) == 3
      && Walk(mem, root, p) == None && Lookup(mem, root, p) == None
  {
    assert Read(BareMachine(root, pool).mem, root, Index(p, LEVELS)) == ABSENT;
  }

  /** Nothing is mapped on a path that has a table missing or a large page in the way. */
  lemma {:induction false} MissingUnmapped(mem: Memory, t: nat, k: nat, p: Path)
    requires k >= 1 && (Blocked(mem, t, k, p) || Missing(mem, t, k, p) > 0)
    ensures |Trace(mem, t, k, p)| < k
    decreases k
  {
    var e := Read(mem, t, Index(p, k));
    if k > 1 && Points(e) {
      MissingUnmapped(mem, e.frame, k - 1, p);
    }
  }

  /** Unmapping removes one leaf, for the roots that share it, and changes no other walk. */
  lemma UnmapPathEffect(m: Machine, root: nat, p: Path)
    requires Sound(m) && IsRoot(m.mem, root) && ValidPath(p)
    ensures var (m', s) := UnmapPath(m, root, p);
      && Sound(m') && m'.active == m.active && m'.pool == m.pool && KeepsTops(m.mem, m'.mem)
      && m'.mem.Keys == m.mem.Keys
      && (forall r :: IsRoot(m'.mem, r) ==> IsRoot(m.mem, r))
      && (forall r, v :: IsRoot(m.mem, r) && ValidPath(v) ==>
            Walk(m'.mem, r, v) == if s == Ok && v == p && Shares(m.mem, r, root, p.i4) then None else Walk(m.mem, r, v))
      && SameSharing(m.mem, m'.mem)
      && (s == Ok <==> Lookup(m.mem, root, p).Some?)
      && (s != Ok ==> m' == m && s == if Blocked(m.mem, root, LEVELS, p) then Busy else NoEnt)
  {
    FindPath(m, root, LEVELS, p);
    var (m1, r1) := LeafTable(m, root, LEVELS, p, false, false);
    if r1.Good? {
      var pt := r1.value;
      NotBlocked(m.mem, root, LEVELS, p);
      StoreLeaf(m.mem, root, p, pt, ABSENT, root, p);
      LeafWriteWellFormed(m.mem, pt, p.i1, ABSENT);
      forall r, v | IsRoot(m.mem, r) && ValidPath(v)
        ensures Walk(Write(m.mem, pt, p.i1, ABSENT), r, v) ==
          if v == p && Shares(m.mem, r, root, p.i4) then None else Walk(m.mem, r, v)
      {
        StoreLeaf(m.mem, root, p, pt, ABSENT, r, v);
      }
    }
  }

  lemma MapPathSound(m: Machine, root: nat, p: Path, e: Entry, user: bool)
    requires Sound(m) && IsRoot(m.mem, root) && ValidPath(p) && e.present
    ensures Sound(MapPath(m, root, p, e, user).0)
  {
    MapPathEffect(m, root, p, e, user);
  }

  lemma UnmapPathSound(m: Machine, root: nat, p: Path)
    requires Sound(m) && IsRoot(m.mem, root) && ValidPath(p)
    ensures Sound(UnmapPath(m, root, p).0)
  {
    UnmapPathEffect(m, root, p);
  }

  lemma {:induction false} NotBlocked(mem: Memory, t: nat, k: nat, p: Path)
    requires k >= 1 && TableAt(mem, t, k, p, 1).Some?
    ensures !Blocked(mem, t, k, p)
    decreases k
  {
    if k > 1 {
      NotBlocked(mem, Read(mem, t, Index(p, k)).frame, k - 1, p);
    }
  }

  // ----- roots -----------------------------------------------------------------------------------

  /** A new root: user half empty, kernel half copied from the active root. */
  function RootTable(mem: Memory, active: nat): (t: Table)
    ensures |t.entries| == ENTRIES && t.level == LEVELS
  {
    Table(LEVELS, seq(ENTRIES, i requires 0 <= i => if i < KERNEL_HALF then ABSENT else Read(mem, active, i)))
  }

  function CreateRoot(m: Machine): (Machine, Result<nat>) {
    var (pool, page) := PhysicalPages.Alloc(m.pool);
    match page
    case Bad(s) => (m, Bad(s))
    case Good(root) => (m.(mem := m.mem[root := RootTable(m.mem, m.active)], pool := pool), Good(root))
  }

  /** Walks do not see a page that nothing links to. */
  lemma {:induction false} UnlinkedPage(mem: Memory, page: nat, table: Table, t: nat, k: nat, v: Path)
    requires Shaped(mem) && page !in mem && IsTable(mem, t, k) && ValidPath(v)
    ensures Trace(mem[page := table], t, k, v) == Trace(mem, t, k, v)
    decreases k
  {
    var e := Read(mem, t, Index(v, k));
    if k > 1 && Points(e) {
      assert Links(mem, t, Index(v, k), e.frame);
      UnlinkedPage(mem, page, table, e.frame, k - 1, v);
    }
  }

  lemma NewRootWellFormed(mem: Memory, active: nat, page: nat)
    requires WellFormed(mem) && IsRoot(mem, active) && page !in mem && PageAligned(page) && page < PHYS_END
    ensures WellFormed(mem[page := RootTable(mem, active)])
  {
    var mem' := mem[page := RootTable(mem, active)];
    forall t: nat, i: nat, c: nat | Links(mem', t, i, c)
      ensures c != page && (if t == page then i >= KERNEL_HALF && Links(mem, active, i, c) else Links(mem, t, i, c))
    {
      if t == page {
        assert Read(mem', t, i) == Read(mem, active, i);
        assert Links(mem, active, i, c);
      } else {
        assert Links(mem, t, i, c);
      }
    }
  }

  /** A new root sees nothing in the user half and exactly what the active root sees in the kernel half. */
  lemma CreateRootEffect(m: Machine)
    requires Sound(m)
    ensures var (m', r) := CreateRoot(m);
      && Sound(m') && m'.active == m.active && m'.pool.stack <= m.pool.stack && KeepsTops(m.mem, m'.mem)
      && (r.Bad? <==> m.pool.stack == []) && (r.Bad? ==> m' == m && r.error == NoMem)
      && (forall s, v :: IsRoot(m.mem, s) && ValidPath(v) ==> Walk(m'.mem, s, v) == Walk(m.mem, s, v))
      && (r.Good? ==> IsRoot(m'.mem, r.value) && r.value !in m.mem)
      && (forall s: nat :: IsRoot(m'.mem, s) ==> IsRoot(m.mem, s) || r == Good(s))
      && (forall v :: r.Good? && ValidPath(v) ==>
            Walk(m'.mem, r.value, v) == if v.i4 < KERNEL_HALF then None else Walk(m.mem, m.active, v))
      && (forall i :: r.Good? && KERNEL_HALF <= i < ENTRIES ==> Read(m'.mem, r.value, i) == Read(m.mem, m.active, i))
  {
    var (m', r) := CreateRoot(m);
    if r.Good? {
      var root, stack := r.value, m.pool.stack;
      assert root in stack;
      NewRootWellFormed(m.mem, m.active, root);
      forall x | x in stack[..|stack| - 1] ensures x in stack && x != root {
      }
      forall s, v | IsRoot(m.mem, s) && ValidPath(v) ensures Walk(m'.mem, s, v) == Walk(m.mem, s, v) {
        UnlinkedPage(m.mem, root, RootTable(m.mem, m.active), s, LEVELS, v);
      }
      forall v | ValidPath(v)
        ensures Walk(m'.mem, root, v) == if v.i4 < KERNEL_HALF then None else Walk(m.mem, m.active, v)
      {
        NewRootWalk(m.mem, m.active, root, v);
      }
    }
  }

  lemma NewRootWalk(mem: Memory, active: nat, page: nat, v: Path)
    requires Shaped(mem) && IsRoot(mem, active) && page !in mem && ValidPath(v)
    ensures var mem' := mem[page := RootTable(mem, active)];
      Trace(mem', page, LEVELS, v) == if v.i4 < KERNEL_HALF then [] else Trace(mem, active, LEVELS, v)
  {
    var e := Read(mem, active, v.i4);
    if v.i4 >= KERNEL_HALF && Points(e) {
      assert Links(mem, active, v.i4, e.frame);
      UnlinkedPage(mem, page, RootTable(mem, active), e.frame, LEVELS - 1, v);
    }
  }

  /** Gives back a root that is neither active nor in use. */
  function DropRoot(m: Machine, root: nat): Machine {
    m.(mem := m.mem - {root}, pool := PhysicalPages.Free(m.pool, root).0)
  }

  lemma DropRootEffect(m: Machine, root: nat)
    requires Sound(m) && IsRoot(m.mem, root) && root != m.active
    ensures var m' := DropRoot(m, root);
      && Sound(m') && m'.active == m.active
      && (forall r :: IsRoot(m'.mem, r) <==> IsRoot(m.mem, r) && r != root)
      && (forall r, v :: IsRoot(m'.mem, r) && ValidPath(v) ==> Walk(m'.mem, r, v) == Walk(m.mem, r, v))
      && (forall r, i :: IsRoot(m'.mem, r) ==> Read(m'.mem, r, i) == Read(m.mem, r, i))
  {
    var mem' := m.mem - {root};
    forall t: nat, i: nat, c: nat | Links(mem', t, i, c) ensures c != root && Links(m.mem, t, i, c) {
      assert Links(m.mem, t, i, c);
    }
    assert WellFormed(mem');
    forall r, v | IsRoot(mem', r) && ValidPath(v) ensures Walk(mem', r, v) == Walk(m.mem, r, v) {
      UnlinkedPage(mem', root, m.mem[root], r, LEVELS, v);
      assert mem'[root := m.mem[root]] == m.mem;
    }
  }
}
