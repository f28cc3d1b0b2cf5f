/** The page-table manager as the kernel keeps it: raw 64-bit words in physical pages, changed in place. */
module Vmm {
  import opened KernelTypes
  import opened PageTables
  import opened Words
  import opened Paging
  import opened VirtualMemory
  import opened MemoryRuns
  import PhysicalPages
  import opened Pmm

  type RawMemory = map<nat, seq<nat>>

  function DecodeAll(ws: seq<nat>): (es: seq<Entry>)
    ensures |es| == |ws| && forall i :: 0 <= i < |ws| ==> es[i] == Decode(ws[i])
  {
    seq(|ws|, i requires 0 <= i < |ws| => Decode(ws[i]))
  }

  /** The tables that raw words stand for, given which level uses each page. */
  ghost function MemOf(words: RawMemory, level: map<nat, nat>): Memory
    requires words.Keys == level.Keys
  {
    map t | t in words :: Table(level[t], DecodeAll(words[t]))
  }

  function PutWord(words: RawMemory, t: nat, i: nat, w: nat): (r: RawMemory)
    requires t in words && i < |words[t]|
    ensures r.Keys == words.Keys
  {
    var page: seq<nat> := words[t][i := w];
    words[t := page]
  }

  lemma StoreWord(words: RawMemory, level: map<nat, nat>, t: nat, i: nat, w: nat)
    requires words.Keys == level.Keys && t in words && i < |words[t]|
    ensures MemOf(PutWord(words, t, i, w), level) == Write(MemOf(words, level), t, i, Decode(w))
  {
    assert DecodeAll(words[t][i := w]) == DecodeAll(words[t])[i := Decode(w)];
  }

  lemma AddPage(words: RawMemory, level: map<nat, nat>, t: nat, ws: seq<nat>, k: nat)
    requires words.Keys == level.Keys
    ensures MemOf(words[t := ws], level[t := k]) == MemOf(words, level)[t := Table(k, DecodeAll(ws))]
  {
  }

  lemma ReadWord(words: RawMemory, level: map<nat, nat>, t: nat, i: nat)
    requires words.Keys == level.Keys && t in MemOf(words, level) && i < |MemOf(words, level)[t].entries|
    ensures t in words && i < |words[t]| && Read(MemOf(words, level), t, i) == Decode(words[t][i])
    ensures MemOf(words, level)[t].level == level[t] && MemOf(words, level).Keys == words.Keys
  {
  }

  lemma WordsFit(words: RawMemory, level: map<nat, nat>)
    requires words.Keys == level.Keys
    ensures forall t :: t in MemOf(words, level) ==> t in words && |words[t]| == |MemOf(words, level)[t].entries|
  {
  }

  lemma LeafReached(m: Machine, root: nat, p: Path, r: Result<nat>)
    requires Sound(m)
    ensures r.Good? && IsTable(m.mem, r.value, 1) ==>
      && |m.mem[r.value].entries| == ENTRIES
      && forall create, user :: LeafTable(m, r.value, 1, p, create, user) == (m, Good(r.value))
  {
  }

  lemma EntriesFit(m: Machine, t: nat, p: Path, k: nat)
    requires Sound(m) && IsTable(m.mem, t, k) && ValidPath(p)
    ensures Index(p, k) < |m.mem[t].entries|
  {
  }

  lemma TopSpare(m: Machine)
    requires Sound(m)
    ensures m.pool.stack != [] ==>
      var top := m.pool.stack[|m.pool.stack| - 1]; PageAligned(top) && top < PHYS_END && top !in m.mem
  {
    if m.pool.stack != [] {
      assert m.pool.stack[|m.pool.stack| - 1] in m.pool.stack;
    }
  }

  /** Linking in a zeroed page, in words and in tables. */
  lemma LinkWords(words: RawMemory, level: map<nat, nat>, t: nat, i: nat, p: nat, user: bool)
    requires words.Keys == level.Keys && t in words && i < |words[t]| && level[t] > 0
    requires PageAligned(p) && p < PHYS_END && p !in words
    ensures i < |MemOf(words, level)[t].entries| && MemOf(words, level)[t].level > 0
    ensures MemOf(PutWord(words, t, i, MakeWord(p, true, user))[p := ZeroPage()], level[p := level[t] - 1])
            == LinkTable(MemOf(words, level), t, i, p, user)
  {
    FrameFits(p);
    StoreWord(words, level, t, i, MakeWord(p, true, user));
    AddPage(PutWord(words, t, i, MakeWord(p, true, user)), level, p, ZeroPage(), level[t] - 1);
  }

  function ZeroPage(): (ws: seq<nat>)
    ensures |ws| == ENTRIES && DecodeAll(ws) == Blank()
  {
    var ws := seq(ENTRIES, i => 0);
    assert DecodeAll(ws) == Blank();
    ws
  }

  class PageTableManager {
    const pmm: PageAllocator
    /** The pages in use as tables, as the words they hold. */
    var words: RawMemory
    var activeRoot: nat
    ghost var level: map<nat, nat>
    /** What the processor has cached. */
    ghost var tlb: map<Path, seq<Entry>>

    ghost predicate Valid()
      reads this, pmm, pmm.pageStack, pmm.usable, pmm.reserved
    {
      pmm.Valid() && words.Keys == level.Keys && Sound(Value())
    }

    ghost function Value(): Machine
      requires pmm.Valid() && words.Keys == level.Keys
      reads this, pmm, pmm.pageStack, pmm.usable, pmm.reserved
    {
      Machine(MemOf(words, level), pmm.Value(), activeRoot)
    }

    ghost function State(): System
      requires pmm.Valid() && words.Keys == level.Keys
      reads this, pmm, pmm.pageStack, pmm.usable, pmm.reserved
    {
      System(Value(), tlb)
    }

    /** Takes over the tables the boot loader left in CR3. */
    constructor (allocator: PageAllocator, boot: RawMemory, ghost bootLevel: map<nat, nat>, root: nat)
      requires allocator.Valid() && boot.Keys == bootLevel.Keys
      requires Sound(Machine(MemOf(boot, bootLevel), allocator.Value(), root))
      ensures Valid() && pmm == allocator
      ensures State() == System(Machine(MemOf(boot, bootLevel), allocator.Value(), root), map[])
    {
      pmm := allocator;
      words := boot;
      level := bootLevel;
      activeRoot := root;
      tlb := map[];
    }

    /** Entry i of table t, which the walk of the ghost root and path reaches at level k. */
    method NextTable(t: nat, i: nat, create: bool, user: bool, ghost root: nat, ghost p: Path, ghost k: nat)
      returns (r: Result<nat>)
      requires Valid() && 1 < k <= LEVELS && ValidPath(p) && i == Index(p, k)
      requires IsRoot(Value().mem, root) && IsTable(Value().mem, t, k)
      requires TableAt(Value().mem, root, LEVELS, p, k) == Some(t)
      modifies this`words, this`level, pmm
      ensures Valid() && IsRoot(Value().mem, root)
      ensures (Value(), r) == Paging.NextTable(old(Value()), t, i, create, user)
      ensures r.Good? ==> IsTable(Value().mem, r.value, k - 1)
      ensures r.Good? ==> TableAt(Value().mem, root, LEVELS, p, k - 1) == Some(r.value)
      ensures LeafTable(old(Value()), t, k, p, create, user) ==
        if r.Bad? then (Value(), Bad(r.error)) else LeafTable(Value(), r.value, k - 1, p, create, user)
    {
      hide MemOf, Sound, TableAt, LeafTable, Present, Huge, Frame, MakeWord, PageAligned, Index, ZeroPage;
      EntriesFit(Value(), t, p, k);
      NextSound(Value(), root, t, k, p, create, user);
      ReadWord(words, level, t, i);
      TopSpare(Value());
      var w := words[t][i];
      if !Present(w) {
        if !create {
          return Bad(NoEnt);
        }
        var page := pmm.PageAlloc();
        if page.Bad? {
          return Bad(page.error);
        }
        var p := page.value;
        LinkWords(words, level, t, i, p, user);
        words := PutWord(words, t, i, MakeWord(p, true, user));
        words := words[p := ZeroPage()];
        level := level[p := level[t] - 1];
        return Good(p);
      }
      if Huge(w) {
        return Bad(Busy);
      }
      return Good(Frame(w));
    }

    method LeafTableForRoot(root: nat, p: Path, create: bool, user: bool) returns (r: Result<nat>)
      requires Valid() && IsRoot(Value().mem, root) && ValidPath(p)
      modifies this`words, this`level, pmm
      ensures Valid()
      ensures (Value(), r) == LeafTable(old(Value()), root, LEVELS, p, create, user)
      ensures r.Good? ==> IsTable(Value().mem, r.value, 1) && |words[r.value]| == ENTRIES
      ensures r.Good? ==> TableAt(Value().mem, root, LEVELS, p, 1) == Some(r.value)
      ensures !create ==> Value() == old(Value())
    {
      hide MemOf, Sound, TableAt, LeafTable, Paging.NextTable;
      FindChangesNothing(Value(), root, LEVELS, p, user);
      TopTable(Value().mem, root, p);
      var pdpt := NextTable(root, p.i4, create, user, root, p, 4);
      if pdpt.Bad? {
        return Bad(pdpt.error);
      }
      var pd := NextTable(pdpt.value, p.i3, create, user, root, p, 3);
      if pd.Bad? {
        return Bad(pd.error);
      }
      r := NextTable(pd.value, p.i2, create, user, root, p, 2);
      LeafReached(Value(), root, p, r);
      WordsFit(words, level);
    }

    method PutEntry(t: nat, i: nat, w: nat)
      requires pmm.Valid() && words.Keys == level.Keys && t in words && i < |words[t]|
      modifies this`words
      ensures words.Keys == level.Keys
      ensures Value() == old(Value()).(mem := Write(old(Value()).mem, t, i, Decode(w)))
    {
      StoreWord(words, level, t, i, w);
      words := PutWord(words, t, i, w);
    }

    /** Stores the leaf word w on a path that has none, creating the tables above it. */
    method MapAt(root: nat, p: Path, w: nat, user: bool) returns (s: Status)
      requires Valid() && IsRoot(Value().mem, root) && ValidPath(p) && Present(w)
      modifies this`words, this`level, pmm
      ensures Valid()
      ensures (Value(), s) == MapPath(old(Value()), root, p, Decode(w), user)
    {
      MapPathSound(Value(), root, p, Decode(w), user);
      var pt := LeafTableForRoot(root, p, true, user);
      if pt.Bad? {
        return pt.error;
      }
      if Present(words[pt.value][p.i1]) {
        return Busy;
      }
      PutEntry(pt.value, p.i1, w);
      return Ok;
    }

    method UnmapAt(root: nat, p: Path) returns (s: Status)
      requires Valid() && IsRoot(Value().mem, root) && ValidPath(p)
      modifies this`words, this`level, pmm
      ensures Valid()
      ensures (Value(), s) == UnmapPath(old(Value()), root, p)
    {
      UnmapPathSound(Value(), root, p);
      var pt := LeafTableForRoot(root, p, false, false);
      if pt.Bad? {
        return pt.error;
      }
      if !Present(words[pt.value][p.i1]) {
        return NoEnt;
      }
      DecodeZero();
      PutEntry(pt.value, p.i1, 0);
      assert Value() == UnmapPath(old(Value()), root, p).0;
      return Ok;
    }

    method MapPageInRoot(root: nat, virt: nat, phys: nat, flags: nat) returns (s: Status)
      requires Valid() && (BadRoot(root) || IsRoot(Value().mem, root))
      modifies this, pmm
      ensures Valid()
      ensures (Value(), s) == MapInRoot(old(Value()), root, virt, phys, flags)
      ensures State() == MapStep(old(State()), root, virt, phys, flags)
    {
      if BadRoot(root) || BadPage(virt) {
        return Inval;
      }
      if !PageAligned(phys) || flags >= 4 {
        return Inval;
      }
      s := MapAt(root, PathOf(virt), MakeWord(phys, flags % 2 == 1, flags >= 2), flags >= 2);
      if s == Ok && root == activeRoot {
        tlb := Invlpg(tlb, virt);
      }
    }

    method UnmapPageInRoot(root: nat, virt: nat) returns (s: Status)
      requires Valid() && (BadRoot(root) || IsRoot(Value().mem, root))
      modifies this, pmm
      ensures Valid()
      ensures (Value(), s) == UnmapInRoot(old(Value()), root, virt)
      ensures State() == UnmapStep(old(State()), root, virt)
    {
      if BadRoot(root) || BadPage(virt) {
        return Inval;
      }
      s := UnmapAt(root, PathOf(virt));
      if s == Ok && root == activeRoot {
        tlb := Invlpg(tlb, virt);
      }
    }

    method MapPage(virt: nat, phys: nat, flags: nat) returns (s: Status)
      requires Valid()
      modifies this, pmm
      ensures Valid()
      ensures (Value(), s) == MapInRoot(old(Value()), old(activeRoot), virt, phys, flags)
      ensures State() == Step(old(State()), Op.MapPage(virt, phys, flags))
    {
      s := MapPageInRoot(activeRoot, virt, phys, flags);
    }

    method UnmapPage(virt: nat) returns (s: Status)
      requires Valid()
      modifies this, pmm
      ensures Valid()
      ensures (Value(), s) == UnmapInRoot(old(Value()), old(activeRoot), virt)
      ensures State() == Step(old(State()), Op.UnmapPage(virt))
    {
      s := UnmapPageInRoot(activeRoot, virt);
    }

    method LeafWord(root: nat, p: Path) returns (r: Result<nat>)
      requires Valid() && IsRoot(Value().mem, root) && ValidPath(p)
      modifies this`words, this`level, pmm
      ensures Valid() && Value() == old(Value())
      ensures r.Bad? ==> FindLeaf(Value(), root, p) == Bad(r.error)
      ensures r.Good? ==> FindLeaf(Value(), root, p) == Good(Decode(r.value))
    {
      var pt := LeafTableForRoot(root, p, false, false);
      if pt.Bad? {
        return Bad(pt.error);
      }
      var w := words[pt.value][p.i1];
      return if Present(w) then Good(w) else Bad(NoEnt);
    }

    method VirtToPhysInRoot(root: nat, virt: nat) returns (r: Result<(nat, nat)>)
      requires Valid() && (BadRoot(root) || IsRoot(Value().mem, root))
      modifies this`words, this`level, pmm
      ensures Valid() && State() == old(State())
      ensures r == Translate(Value(), root, virt)
    {
      if BadRoot(root) || BadPage(PageOf(virt)) {
        return Bad(Inval);
      }
      var leaf := LeafWord(root, PathOf(virt));
      if leaf.Bad? {
        return Bad(leaf.error);
      }
      var flags := 0;
      if Writable(leaf.value) {
        flags := flags + 1;
      }
      if User(leaf.value) {
        flags := flags + 2;
      }
      return Good((Frame(leaf.value) + virt % 4096, flags));
    }

    method CreateRoot() returns (r: Result<nat>)
      requires Valid()
      modifies this, pmm
      ensures Valid()
      ensures (Value(), r) == Paging.CreateRoot(old(Value()))
      ensures State() == Step(old(State()), SpaceCreate(false))
    {
      ghost var m := Value();
      ghost var stack := pmm.Value().stack;
      CreateRootEffect(m);
      r := pmm.PageAlloc();
      if r.Bad? {
        return;
      }
      assert r.value in stack;
      var current := words[activeRoot];
      assert |current| == ENTRIES by { assert activeRoot in m.mem; }
      var page := ZeroPage();
      for i := KERNEL_HALF to ENTRIES
        invariant |page| == ENTRIES
        invariant forall j :: 0 <= j < KERNEL_HALF || i <= j < ENTRIES ==> page[j] == ZeroPage()[j]
        invariant forall j :: KERNEL_HALF <= j < i ==> page[j] == current[j]
      {
        page := page[i := current[i]];
      }
      assert DecodeAll(page) == RootTable(m.mem, m.active).entries;
      AddPage(words, level, r.value, page, LEVELS);
      words := words[r.value := page];
      level := level[r.value := LEVELS];
    }

    method ActivateRoot(root: nat) returns (s: Status)
      requires Valid() && (BadRoot(root) || IsRoot(Value().mem, root))
      modifies this
      ensures Valid()
      ensures State() == Step(old(State()), Activate(root))
      ensures s == if BadRoot(root) then Inval else Ok
    {
      if root == 0 || root % PAGE_SIZE != 0 {
        return Inval;
      }
      tlb := map[];
      activeRoot := root;
      return Ok;
    }
  }
}
