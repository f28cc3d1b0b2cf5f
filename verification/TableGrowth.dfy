/**
 * How mapping a page extends the tables of a root: which tables it creates, how many pages that takes, and
 * what other paths find afterwards.
 */
module TableGrowth {
  import opened KernelTypes
  import opened PageTables
  import opened Paging
  import PhysicalPages

  function Max(a: nat, b: nat): nat { if a < b then b else a }
  function Min(a: nat, b: nat): nat { if a < b then a else b }

  // ----- how far down a path has its tables ---------------------------------------------------------------

  /** The number of tables below table t that the path has. */
  function Depth(mem: Memory, t: nat, k: nat, p: Path): (d: nat)
    ensures d == 0 || d < k
    decreases k
  {
    var e := Read(mem, t, Index(p, k));
    if k <= 1 || !Points(e) then 0 else 1 + Depth(mem, e.frame, k - 1, p)
  }

  /** The number of tables below the root that two paths share. */
  function Common(p: Path, q: Path): (n: nat)
    ensures n <= 3
  {
    if p.i4 != q.i4 then 0 else if p.i3 != q.i3 then 1 else if p.i2 != q.i2 then 2 else 3
  }

  /** What is missing is what the path has not got, unless a large page is in the way. */
  lemma {:induction false} MissingIsRest(mem: Memory, t: nat, k: nat, p: Path)
    requires k >= 1 && !Blocked(mem, t, k, p)
    ensures Missing(mem, t, k, p) + Depth(mem, t, k, p) == k - 1
    decreases k
  {
    var e := Read(mem, t, Index(p, k));
    if k > 1 && Points(e) {
      MissingIsRest(mem, e.frame, k - 1, p);
    }
  }

  lemma {:induction false} TableAtIffDepth(mem: Memory, t: nat, k: nat, p: Path, j: nat)
    requires 1 <= j <= k
    ensures TableAt(mem, t, k, p, j).Some? <==> Depth(mem, t, k, p) >= k - j
    decreases k
  {
    var e := Read(mem, t, Index(p, k));
    if k > j && Points(e) {
      TableAtIffDepth(mem, e.frame, k - 1, p, j);
    }
  }

  /** Paths that agree above level j reach the same table there. */
  lemma {:induction false} SameWayDown(mem: Memory, t: nat, k: nat, p: Path, v: Path, j: nat)
    requires 1 <= j <= k && forall l :: j < l <= k ==> Index(p, l) == Index(v, l)
    ensures TableAt(mem, t, k, p, j) == TableAt(mem, t, k, v, j)
    decreases k
  {
    if k > j && Points(Read(mem, t, Index(p, k))) {
      SameWayDown(mem, Read(mem, t, Index(p, k)).frame, k - 1, p, v, j);
    }
  }

  lemma CommonAgrees(p: Path, v: Path, j: nat)
    requires 1 <= j <= LEVELS
    ensures Common(p, v) >= LEVELS - j <==> forall l :: j < l <= LEVELS ==> Index(p, l) == Index(v, l)
  {
    if forall l :: j < l <= LEVELS ==> Index(p, l) == Index(v, l) {
      assert j < 4 ==> Index(p, 4) == Index(v, 4);
      assert j < 3 ==> Index(p, 3) == Index(v, 3);
      assert j < 2 ==> Index(p, 2) == Index(v, 2);
    }
  }

  /** What a path has of its tables, every path that shares them has too. */
  lemma SharedDepth(mem: Memory, root: nat, p: Path, v: Path)
    ensures Depth(mem, root, LEVELS, v) >= Min(Common(p, v), Depth(mem, root, LEVELS, p))
  {
    var n := Min(Common(p, v), Depth(mem, root, LEVELS, p));
    var j := LEVELS - n;
    CommonAgrees(p, v, j);
    SameWayDown(mem, root, LEVELS, p, v, j);
    TableAtIffDepth(mem, root, LEVELS, p, j);
    TableAtIffDepth(mem, root, LEVELS, v, j);
  }

  // ----- one new table -------------------------------------------------------------------------------------

  /** Depth and obstruction depend only on the entries the walk meets. */
  lemma {:induction false} SameTraceSameDepth(mem: Memory, mem': Memory, t: nat, k: nat, v: Path)
    requires Trace(mem, t, k, v) == Trace(mem', t, k, v)
    ensures Depth(mem, t, k, v) == Depth(mem', t, k, v) && (Blocked(mem, t, k, v) <==> Blocked(mem', t, k, v))
    decreases k
  {
    var e, f := Read(mem, t, Index(v, k)), Read(mem', t, Index(v, k));
    if k > 1 && e.present {
      assert Trace(mem, t, k, v)[0] == e && Trace(mem', t, k, v)[0] == f;
      if !e.huge {
        assert Trace(mem, t, k, v)[1..] == Trace(mem, e.frame, k - 1, v);
        assert Trace(mem', t, k, v)[1..] == Trace(mem', e.frame, k - 1, v);
        SameTraceSameDepth(mem, mem', e.frame, k - 1, v);
      }
    }
  }

  /** A walk that ends at the entry that is filled gets one table more. */
  lemma {:induction false} DepthThrough(mem: Memory, t: nat, i: nat, page: nat, user: bool, t0: nat, k: nat, v: Path)
    requires Shaped(mem) && t in mem && mem[t].level > 1 && i < ENTRIES && !Read(mem, t, i).present && page !in mem
    requires IsTable(mem, t0, k) && ValidPath(v) && mem[t].level <= k
    requires TableAt(mem, t0, k, v, mem[t].level) == Some(t) && Index(v, mem[t].level) == i
    ensures var mem' := LinkTable(mem, t, i, page, user);
      && Depth(mem, t0, k, v) == k - mem[t].level && Depth(mem', t0, k, v) == k - mem[t].level + 1
      && !Blocked(mem, t0, k, v) && !Blocked(mem', t0, k, v)
    decreases k
  {
    var mem' := LinkTable(mem, t, i, page, user);
    var e := Read(mem, t0, Index(v, k));
    if k > mem[t].level {
      assert Links(mem, t0, Index(v, k), e.frame);
      DepthThrough(mem, t, i, page, user, e.frame, k - 1, v);
      assert Read(mem', t0, Index(v, k)) == e;
    } else {
      assert Read(mem', t, i) == Entry(true, true, user, false, page);
      assert Read(mem', page, Index(v, k - 1)) == ABSENT;
    }
  }

  lemma LinkDepth(mem: Memory, root: nat, t: nat, k: nat, p: Path, page: nat, user: bool, v: Path)
    requires WellFormed(mem) && ValidPath(p) && ValidPath(v) && IsRoot(mem, root)
    requires 1 < k <= LEVELS && IsTable(mem, t, k)
    requires TableAt(mem, root, LEVELS, p, k) == Some(t) && !Read(mem, t, Index(p, k)).present
    requires page !in mem && PageAligned(page) && page < PHYS_END
    ensures var mem' := LinkTable(mem, t, Index(p, k), page, user);
      && Depth(mem', root, LEVELS, v) == Max(Depth(mem, root, LEVELS, v), Min(Common(p, v), LEVELS - k + 1))
      && (Blocked(mem', root, LEVELS, v) <==> Blocked(mem, root, LEVELS, v))
  {
    hide Depth, Trace, TableAt, Blocked, OneParent;
    var i := Index(p, k);
    var mem' := LinkTable(mem, t, i, page, user);
    CommonAgrees(p, v, k);
    CommonAgrees(p, v, k - 1);
    if TableAt(mem, root, LEVELS, v, k) == Some(t) && Index(v, k) == i {
      if k < LEVELS {
        Meet(mem, root, v, root, p, LEVELS, k);
      }
      DepthThrough(mem, t, i, page, user, root, LEVELS, v);
      assert forall l :: k - 1 < l <= LEVELS ==> Index(p, l) == Index(v, l);
    } else {
      LinkUntouched(mem, t, i, page, user, root, LEVELS, v);
      SameTraceSameDepth(mem, mem', root, LEVELS, v);
      if Common(p, v) >= LEVELS - k + 1 {
        SameWayDown(mem, root, LEVELS, p, v, k);
      }
      SharedDepth(mem, root, p, v);
      TableAtIffDepth(mem, root, LEVELS, p, k);
    }
  }

  lemma LinkSharing(mem: Memory, t: nat, k: nat, i: nat, page: nat, user: bool)
    requires Shaped(mem) && 1 < k <= LEVELS && IsTable(mem, t, k)
    requires i < ENTRIES && !Read(mem, t, i).present && page !in mem
    ensures SameSharing(mem, LinkTable(mem, t, i, page, user))
  {
    var mem' := LinkTable(mem, t, i, page, user);
    forall r, j: nat | IsRoot(mem, r)
      ensures Points(Read(mem, r, j)) ==> Read(mem, r, j).frame != page
      ensures r != t || j != i ==> Read(mem', r, j) == Read(mem, r, j)
    {
      if Points(Read(mem, r, j)) && j < ENTRIES {
        assert Links(mem, r, j, Read(mem, r, j).frame);
      }
    }
  }

  // ----- all the tables of a path ---------------------------------------------------------------------------

  /** Other paths gain exactly the tables they share with p, and no path is obstructed that was not. */
  ghost predicate Deepens(mem: Memory, mem': Memory, root: nat, p: Path) {
    && (forall v :: ValidPath(v) ==> Depth(mem', root, LEVELS, v) == Max(Depth(mem, root, LEVELS, v), Common(p, v)))
    && (forall v :: ValidPath(v) ==> (Blocked(mem', root, LEVELS, v) <==> Blocked(mem, root, LEVELS, v)))
  }

  lemma {:induction false} CreateDeepens(m: Machine, root: nat, t: nat, k: nat, p: Path, user: bool)
    requires Sound(m) && ValidPath(p) && IsRoot(m.mem, root) && 1 <= k <= LEVELS && IsTable(m.mem, t, k)
    requires TableAt(m.mem, root, LEVELS, p, k) == Some(t)
    ensures var (m', r) := LeafTable(m, t, k, p, true, user);
      r.Good? ==> Deepens(m.mem, m'.mem, root, p) && |m'.pool.stack| + Missing(m.mem, t, k, p) == |m.pool.stack|
    decreases k
  {
    hide Depth, TableAt, Blocked, WellFormed, Spare, AllGrow, Confined, Keeps;
    var i := Index(p, k);
    var e := Read(m.mem, t, i);
    if k == 1 {
      FullDepth(m.mem, root, p, t);
    } else {
      NextSound(m, root, t, k, p, true, user);
      EntryThere(m, t, p, k);
      if Points(e) {
        CreateDeepens(m, root, e.frame, k - 1, p, user);
      } else if !e.present && m.pool.stack != [] {
        var page := LinkedNext(m, root, t, k, p, user);
        var m1 := NextTable(m, t, i, true, user).0;
        CreateDeepens(m1, root, page, k - 1, p, user);
        FreshMissing(m1.mem, page, k - 1, p);
        LinkDeepens(m, root, t, k, p, page, user);
        if LeafTable(m1, page, k - 1, p, true, user).1.Good? {
          DeepensCompose(m.mem, m1.mem, LeafTable(m1, page, k - 1, p, true, user).0.mem, root, p, LEVELS - k + 1);
        }
      }
    }
  }

  lemma EntryThere(m: Machine, t: nat, p: Path, k: nat)
    requires Sound(m) && IsTable(m.mem, t, k) && ValidPath(p)
    ensures Index(p, k) < |m.mem[t].entries| == ENTRIES && m.mem[t].level > 0
  {
  }

  lemma FullDepth(mem: Memory, root: nat, p: Path, t: nat)
    requires TableAt(mem, root, LEVELS, p, 1) == Some(t)
    ensures Deepens(mem, mem, root, p)
  {
    TableAtIffDepth(mem, root, LEVELS, p, 1);
    forall v | ValidPath(v) ensures Depth(mem, root, LEVELS, v) == Max(Depth(mem, root, LEVELS, v), Common(p, v)) {
      SharedDepth(mem, root, p, v);
    }
  }

  /** One link brings every path at most to depth d, as far as it shares with p. */
  ghost predicate DeepensTo(mem: Memory, mem': Memory, root: nat, p: Path, d: nat) {
    && (forall v :: ValidPath(v) ==>
          Depth(mem', root, LEVELS, v) == Max(Depth(mem, root, LEVELS, v), Min(Common(p, v), d)))
    && (forall v :: ValidPath(v) ==> (Blocked(mem', root, LEVELS, v) <==> Blocked(mem, root, LEVELS, v)))
  }

  lemma LinkDeepens(m: Machine, root: nat, t: nat, k: nat, p: Path, page: nat, user: bool)
    requires Sound(m) && ValidPath(p) && IsRoot(m.mem, root) && 1 < k <= LEVELS && IsTable(m.mem, t, k)
    requires TableAt(m.mem, root, LEVELS, p, k) == Some(t) && !Read(m.mem, t, Index(p, k)).present && m.pool.stack != []
    requires Index(p, k) < |m.mem[t].entries| && NextTable(m, t, Index(p, k), true, user).1 == Good(page)
    ensures DeepensTo(m.mem, NextTable(m, t, Index(p, k), true, user).0.mem, root, p, LEVELS - k + 1)
  {
    assert page in m.pool.stack;
    hide Depth, TableAt, Blocked, OneParent;
    forall v | ValidPath(v)
      ensures var mem' := LinkTable(m.mem, t, Index(p, k), page, user);
        && Depth(mem', root, LEVELS, v) == Max(Depth(m.mem, root, LEVELS, v), Min(Common(p, v), LEVELS - k + 1))
        && (Blocked(mem', root, LEVELS, v) <==> Blocked(m.mem, root, LEVELS, v))
    {
      LinkDepth(m.mem, root, t, k, p, page, user, v);
    }
  }

  lemma DeepensCompose(mem: Memory, mem1: Memory, mem2: Memory, root: nat, p: Path, d: nat)
    requires DeepensTo(mem, mem1, root, p, d) && Deepens(mem1, mem2, root, p)
    ensures Deepens(mem, mem2, root, p)
  {
    hide Depth, Blocked, Common;
  }

  lemma {:induction false} CreateSharing(m: Machine, root: nat, t: nat, k: nat, p: Path, user: bool)
    requires Sound(m) && ValidPath(p) && IsRoot(m.mem, root) && 1 <= k <= LEVELS && IsTable(m.mem, t, k)
    requires TableAt(m.mem, root, LEVELS, p, k) == Some(t)
    ensures SameSharing(m.mem, LeafTable(m, t, k, p, true, user).0.mem)
    decreases k
  {
    hide TableAt, Spare, AllGrow, Confined, OneParent, Shares;
    var i := Index(p, k);
    if k > 1 {
      NextSound(m, root, t, k, p, true, user);
      EntryThere(m, t, p, k);
      var e := Read(m.mem, t, i);
      if Points(e) {
        CreateSharing(m, root, e.frame, k - 1, p, user);
      } else if !e.present && m.pool.stack != [] {
        var page := LinkedNext(m, root, t, k, p, user);
        var m1 := NextTable(m, t, i, true, user).0;
        PageUnused(m);
        LinkSharing(m.mem, t, k, i, page, user);
        CreateSharing(m1, root, page, k - 1, p, user);
      }
    }
  }

  lemma PageUnused(m: Machine)
    requires Sound(m)
    ensures m.pool.stack != [] ==> m.pool.stack[|m.pool.stack| - 1] !in m.mem
  {
    if m.pool.stack != [] {
      assert m.pool.stack[|m.pool.stack| - 1] in m.pool.stack;
    }
  }

  // ----- mapping --------------------------------------------------------------------------------------------

  /** The leaf level has no part in depth, obstruction and sharing. */
  lemma {:induction false} LeafAside(mem: Memory, pt: nat, i: nat, e: Entry, t: nat, k: nat, v: Path)
    requires Shaped(mem) && IsTable(mem, pt, 1) && i < ENTRIES && IsTable(mem, t, k) && ValidPath(v) && k >= 1
    ensures var mem' := Write(mem, pt, i, e);
      Depth(mem', t, k, v) == Depth(mem, t, k, v) && (Blocked(mem', t, k, v) <==> Blocked(mem, t, k, v))
    decreases k
  {
    var f := Read(mem, t, Index(v, k));
    if k > 1 {
      assert Read(Write(mem, pt, i, e), t, Index(v, k)) == f;
      if Points(f) {
        assert Links(mem, t, Index(v, k), f.frame);
        LeafAside(mem, pt, i, e, f.frame, k - 1, v);
      }
    }
  }

  lemma LeafSharing(mem: Memory, pt: nat, i: nat, e: Entry)
    requires Shaped(mem) && IsTable(mem, pt, 1) && i < ENTRIES
    ensures SameSharing(mem, Write(mem, pt, i, e))
  {
  }

  /**
   * A successful mapping takes exactly the missing tables off the stack, and gives every other path the
   * tables it shares with the mapped one.
   */
  lemma MapDeepens(m: Machine, root: nat, p: Path, e: Entry, user: bool)
    requires Sound(m) && IsRoot(m.mem, root) && ValidPath(p) && e.present
    ensures var (m', s) := MapPath(m, root, p, e, user);
      && SameSharing(m.mem, m'.mem)
      && (s == Ok ==> Deepens(m.mem, m'.mem, root, p))
      && (s == Ok ==> |m'.pool.stack| + Missing(m.mem, root, LEVELS, p) == |m.pool.stack|)
  {
    hide AllGrow, Confined, TableAt, Blocked, Missing, LeafTable, Depth, Shares, OneParent, Spare;
    var (m1, r1) := LeafTable(m, root, LEVELS, p, true, user);
    TopTable(m.mem, root, p);
    CreatePath(m, root, root, LEVELS, p, user);
    CreateDeepens(m, root, root, LEVELS, p, user);
    CreateSharing(m, root, root, LEVELS, p, user);
    if r1.Good? {
      var pt := r1.value;
      LeafSharing(m1.mem, pt, p.i1, e);
      forall v | ValidPath(v)
        ensures var mem' := Write(m1.mem, pt, p.i1, e);
          && Depth(mem', root, LEVELS, v) == Depth(m1.mem, root, LEVELS, v)
          && (Blocked(mem', root, LEVELS, v) <==> Blocked(m1.mem, root, LEVELS, v))
      {
        LeafAside(m1.mem, pt, p.i1, e, root, LEVELS, v);
      }
    }
  }
}
