/** The kernel heap as a list of blocks in address order: first fit, split, coalesce and growth. */
module HeapBlocks {
  import opened KernelTypes

  const HEAP_BASE: nat := 0xffff_ffff_d000_0000
  const HEAP_SIZE: nat := 0x40_0000
  const ALIGN: nat := 16
  const MIN_SPLIT: nat := 16
  const INITIAL_PAGES: nat := 4
  /** The block header of 40 bytes rounded up to the alignment. */
  const HEADER: nat := 48

  datatype Block = Block(addr: nat, size: nat, free: bool)

  function End(b: Block): nat { b.addr + HEADER + b.size }
  function Payload(b: Block): nat { b.addr + HEADER }

  function AlignTo(v: nat, a: nat): nat
    requires a > 0
  {
    (v + a - 1) / a * a
  }

  // ----- shape -------------------------------------------------------------------------------

  /** Blocks follow one another without gap or overlap from base to end. */
  predicate Tiled(bs: seq<Block>, base: nat, end: nat) {
    if bs == [] then base == end
    else
      && bs[0].addr == base && End(bs[|bs| - 1]) == end
      && forall i :: 0 <= i < |bs| - 1 ==> bs[i + 1].addr == End(bs[i])
  }

  predicate Sized(bs: seq<Block>) {
    forall i :: 0 <= i < |bs| ==> bs[i].size > 0 && bs[i].size % ALIGN == 0
  }

  predicate Coalesced(bs: seq<Block>) {
    forall i :: 0 <= i < |bs| - 1 ==> !(bs[i].free && bs[i + 1].free)
  }

  predicate Shape(bs: seq<Block>, base: nat, end: nat) {
    base % ALIGN == 0 && Tiled(bs, base, end) && Sized(bs) && Coalesced(bs)
  }

  /** Earlier blocks end before later ones begin. */
  lemma {:induction false} InOrder(bs: seq<Block>, base: nat, end: nat, i: nat, j: nat)
    requires Tiled(bs, base, end) && i < j < |bs|
    ensures End(bs[i]) <= bs[j].addr
    decreases j
  {
    if j > i + 1 {
      InOrder(bs, base, end, i, j - 1);
    }
    assert bs[(j - 1) + 1].addr == End(bs[j - 1]);
  }

  lemma {:induction false} Aligned(bs: seq<Block>, base: nat, end: nat, i: nat)
    requires Shape(bs, base, end) && i < |bs|
    ensures bs[i].addr % ALIGN == 0 && base <= bs[i].addr && End(bs[i]) <= end
    decreases i
  {
    if i > 0 {
      Aligned(bs, base, end, i - 1);
      assert bs[(i - 1) + 1].addr == End(bs[i - 1]);
    }
    if i < |bs| - 1 {
      InOrder(bs, base, end, i, |bs| - 1);
    }
  }

  /** No block starts strictly inside another. */
  lemma NoStartInside(bs: seq<Block>, base: nat, end: nat, k: nat, i: nat)
    requires Tiled(bs, base, end) && k < |bs| && i < |bs|
    ensures bs[i].addr <= bs[k].addr || End(bs[k]) <= bs[i].addr
  {
    if i < k {
      InOrder(bs, base, end, i, k);
    } else if k < i {
      InOrder(bs, base, end, k, i);
    }
  }

  /** Payloads of distinct blocks are 16-aligned, inside the heap and disjoint. */
  lemma PayloadsDisjoint(bs: seq<Block>, base: nat, end: nat, i: nat, j: nat)
    requires Shape(bs, base, end) && i < j < |bs|
    ensures Payload(bs[i]) % ALIGN == 0 && base < Payload(bs[i])
    ensures Payload(bs[i]) + bs[i].size < Payload(bs[j]) && Payload(bs[j]) + bs[j].size <= end
  {
    Aligned(bs, base, end, i);
    Aligned(bs, base, end, j);
    InOrder(bs, base, end, i, j);
  }

  // ----- operations -----------------------------------------------------------------------------

  /** The first free block that is large enough. */
  function FirstFit(bs: seq<Block>, size: nat): (r: Option<nat>)
    ensures r.Some? ==> r.value < |bs| && bs[r.value].free && bs[r.value].size >= size
    ensures r.Some? ==> forall i :: 0 <= i < r.value ==> !(bs[i].free && bs[i].size >= size)
    ensures r.None? ==> forall i :: 0 <= i < |bs| ==> !(bs[i].free && bs[i].size >= size)
  {
    if bs == [] then None
    else if bs[0].free && bs[0].size >= size then Some(0)
    else
      match FirstFit(bs[1..], size)
      case None => assert forall i :: 1 <= i < |bs| ==> bs[i] == bs[1..][i - 1]; None
      case Some(n) => assert forall i :: 1 <= i < |bs| ==> bs[i] == bs[1..][i - 1]; Some(n + 1)
  }

  predicate Splits(b: Block, requested: nat) { b.size >= requested + HEADER + MIN_SPLIT }

  function Split(bs: seq<Block>, i: nat, requested: nat): seq<Block>
    requires i < |bs|
  {
    var b := bs[i];
    if !Splits(b, requested) then bs
    else
      var rest := Block(b.addr + HEADER + requested, b.size - requested - HEADER, true);
      bs[..i] + [b.(size := requested), rest] + bs[i + 1..]
  }

  function SetFree(bs: seq<Block>, i: nat, free: bool): seq<Block>
    requires i < |bs|
  {
    bs[i := bs[i].(free := free)]
  }

  /** Allocation of block i. */
  function Take(bs: seq<Block>, i: nat, requested: nat): seq<Block>
    requires i < |bs|
  {
    SetFree(Split(bs, i, requested), i, false)
  }

  /** Absorbs the block after i if it is free and adjacent. */
  function Merge(bs: seq<Block>, i: nat): seq<Block>
    requires i < |bs|
  {
    if i + 1 >= |bs| || !bs[i + 1].free || bs[i + 1].addr != End(bs[i]) then bs
    else bs[..i] + [bs[i].(size := bs[i].size + HEADER + bs[i + 1].size)] + bs[i + 2..]
  }

  /** Release of block i: coalesce with the next block, then into the previous one. */
  function Release(bs: seq<Block>, i: nat): seq<Block>
    requires i < |bs|
  {
    var b1 := Merge(SetFree(bs, i, true), i);
    if i > 0 && b1[i - 1].free then Merge(b1, i - 1) else b1
  }

  /** Growth by a fresh free block of length bytes, header included, at the end. */
  function Grown(bs: seq<Block>, end: nat, length: nat): seq<Block>
    requires length >= HEADER
  {
    var b1 := bs + [Block(end, length - HEADER, true)];
    if bs != [] && bs[|bs| - 1].free then Merge(b1, |bs| - 1) else b1
  }

  // ----- every operation keeps the shape -------------------------------------------------------------

  lemma SplitTiled(bs: seq<Block>, base: nat, end: nat, i: nat, requested: nat)
    requires Tiled(bs, base, end) && i < |bs|
    ensures Tiled(Split(bs, i, requested), base, end)
  {
    var r := Split(bs, i, requested);
    if Splits(bs[i], requested) {
      forall k | 0 <= k < |r| - 1 ensures r[k + 1].addr == End(r[k]) {
        if k + 1 <= i {
          assert r[k] == bs[k] && r[k + 1].addr == bs[k + 1].addr;
        } else if k > i {
          assert k > i + 1 ==> r[k] == bs[k - 1];
          assert r[k + 1] == bs[k];
          assert bs[(k - 1) + 1].addr == End(bs[k - 1]);
        }
      }
      assert i > 0 ==> r[0] == bs[0];
      assert i < |bs| - 1 ==> r[|r| - 1] == bs[|bs| - 1];
    }
  }

  lemma TakeParts(bs: seq<Block>, i: nat, requested: nat)
    requires Sized(bs) && Coalesced(bs) && i < |bs| && bs[i].free
    requires requested > 0 && requested % ALIGN == 0
    ensures Sized(Take(bs, i, requested)) && Coalesced(Take(bs, i, requested))
  {
    var r := Take(bs, i, requested);
    if Splits(bs[i], requested) {
      assert r[i + 1].size % ALIGN == 0;
      forall k | 0 <= k < |r| ensures r[k].size > 0 && r[k].size % ALIGN == 0 {
        assert k < i ==> r[k] == bs[k];
        assert k > i + 1 ==> r[k] == bs[k - 1];
      }
      forall k | 0 <= k < |r| - 1 ensures !(r[k].free && r[k + 1].free) {
        assert k + 1 < i ==> r[k] == bs[k] && r[k + 1] == bs[k + 1];
        assert k == i + 1 ==> r[k + 1] == bs[i + 1];
        assert k > i + 1 ==> r[k] == bs[k - 1] && r[k + 1] == bs[(k - 1) + 1];
      }
    }
  }

  lemma TakeKeeps(bs: seq<Block>, base: nat, end: nat, i: nat, requested: nat)
    requires Shape(bs, base, end) && i < |bs| && bs[i].free && bs[i].size >= requested
    requires requested > 0 && requested % ALIGN == 0
    ensures Shape(Take(bs, i, requested), base, end)
    ensures var b := Take(bs, i, requested)[i]; b.addr == bs[i].addr && requested <= b.size <= bs[i].size && !b.free
  {
    SplitTiled(bs, base, end, i, requested);
    TakeParts(bs, i, requested);
    var s := Split(bs, i, requested);
    assert Tiled(SetFree(s, i, false), base, end);
  }

  lemma MergeKeeps(bs: seq<Block>, base: nat, end: nat, i: nat)
    requires Tiled(bs, base, end) && Sized(bs) && i < |bs|
    ensures Tiled(Merge(bs, i), base, end) && Sized(Merge(bs, i))
  {
    var r := Merge(bs, i);
    if |r| < |bs| {
      assert forall k :: 0 <= k < i ==> r[k] == bs[k];
      assert forall k :: i + 1 <= k < |r| ==> r[k] == bs[k + 1];
      assert r[i].size % ALIGN == 0;
    }
  }

  /** No two free neighbours, except perhaps the pair at index x. */
  predicate CoalescedBut(bs: seq<Block>, x: int) {
    forall i :: 0 <= i < |bs| - 1 && i != x ==> !(bs[i].free && bs[i + 1].free)
  }

  lemma MergeCoalesces(bs: seq<Block>, base: nat, end: nat, i: nat, x: int)
    requires Tiled(bs, base, end) && i < |bs| && bs[i].free
    requires forall k :: 0 <= k < |bs| - 1 && k != x && k != i ==> !(bs[k].free && bs[k + 1].free)
    requires x < i && (i + 2 < |bs| && bs[i + 1].free ==> !bs[i + 2].free)
    ensures CoalescedBut(Merge(bs, i), x)
  {
    var r := Merge(bs, i);
    if i + 1 < |bs| && bs[i + 1].free {
      assert bs[i + 1].addr == End(bs[i]);
      forall k | 0 <= k < |r| - 1 && k != x ensures !(r[k].free && r[k + 1].free) {
        assert k < i ==> r[k] == bs[k] && r[k + 1].free == bs[k + 1].free;
        assert k == i ==> r[k + 1] == bs[i + 2];
        assert k > i ==> r[k] == bs[k + 1] && r[k + 1] == bs[(k + 1) + 1];
      }
    } else {
      assert r == bs;
    }
  }

  lemma MergeForward(bs: seq<Block>, base: nat, end: nat, i: nat)
    requires Shape(bs, base, end) && i < |bs| && !bs[i].free
    ensures var b1 := Merge(SetFree(bs, i, true), i);
      i < |b1| && Tiled(b1, base, end) && Sized(b1) && CoalescedBut(b1, i - 1) && b1[i].free
  {
    var b0 := SetFree(bs, i, true);
    assert Tiled(b0, base, end) && Sized(b0);
    MergeKeeps(b0, base, end, i);
    assert i + 2 < |bs| && bs[i + 1].free ==> !bs[(i + 1) + 1].free;
    MergeCoalesces(b0, base, end, i, i - 1);
  }

  lemma MergeBackward(bs: seq<Block>, base: nat, end: nat, i: nat)
    requires Tiled(bs, base, end) && Sized(bs) && i < |bs| && CoalescedBut(bs, i - 1) && bs[i].free
    ensures var b2 := if i > 0 && bs[i - 1].free then Merge(bs, i - 1) else bs;
      Tiled(b2, base, end) && Sized(b2) && Coalesced(b2)
  {
    if i > 0 && bs[i - 1].free {
      MergeKeeps(bs, base, end, i - 1);
      assert i + 1 < |bs| ==> !(bs[i].free && bs[i + 1].free);
      MergeCoalesces(bs, base, end, i - 1, -1);
    }
  }

  lemma ReleaseKeeps(bs: seq<Block>, base: nat, end: nat, i: nat)
    requires Shape(bs, base, end) && i < |bs| && !bs[i].free
    ensures Shape(Release(bs, i), base, end)
  {
    MergeForward(bs, base, end, i);
    MergeBackward(Merge(SetFree(bs, i, true), i), base, end, i);
  }

  lemma GrownKeeps(bs: seq<Block>, base: nat, end: nat, length: nat)
    requires Shape(bs, base, end) && length > HEADER && length % ALIGN == 0
    ensures Shape(Grown(bs, end, length), base, end + length)
  {
    var b1 := bs + [Block(end, length - HEADER, true)];
    assert Tiled(b1, base, end + length) && Sized(b1);
    if bs != [] && bs[|bs| - 1].free {
      MergeKeeps(b1, base, end + length, |bs| - 1);
      var b2 := Merge(b1, |bs| - 1);
      assert forall k :: 0 <= k < |bs| - 1 ==> b2[k] == bs[k];
    }
  }

  // ----- inverse and growth -----------------------------------------------------------------------------

  /** Freeing what was just allocated restores the block list exactly. */
  lemma ReleaseUndoesTake(bs: seq<Block>, base: nat, end: nat, i: nat, requested: nat)
    requires Shape(bs, base, end) && i < |bs| && bs[i].free && bs[i].size >= requested
    ensures Release(Take(bs, i, requested), i) == bs
  {
    MergeUndoesTake(bs, base, end, i, requested);
    hide Merge, Take, SetFree;
  }

  lemma MergeUndoesTake(bs: seq<Block>, base: nat, end: nat, i: nat, requested: nat)
    requires Shape(bs, base, end) && i < |bs| && bs[i].free
    ensures Merge(SetFree(Take(bs, i, requested), i, true), i) == bs
  {
    hide Take, SetFree, Merge, Shape;
    if Splits(bs[i], requested) {
      MergeUndoesSplit(bs, i, requested);
    } else {
      TakenWhole(bs, i, requested);
      NothingToMerge(bs, base, end, i);
    }
  }

  lemma MergeUndoesSplit(bs: seq<Block>, i: nat, requested: nat)
    requires i < |bs| && bs[i].free && Splits(bs[i], requested)
    ensures Merge(SetFree(Take(bs, i, requested), i, true), i) == bs
  {
    hide Take, SetFree, Merge;
    TakeCarves(bs, i, requested);
    var head, b, tail := bs[..i], bs[i], bs[i + 1..];
    var rest := Block(b.addr + HEADER + requested, b.size - requested - HEADER, true);
    FreePair(head, Block(b.addr, requested, false), rest, tail);
    MergePair(head, Block(b.addr, requested, true), rest, tail);
    assert bs == head + [b] + tail;
  }

  lemma TakenWhole(bs: seq<Block>, i: nat, requested: nat)
    requires i < |bs| && bs[i].free && !Splits(bs[i], requested)
    ensures SetFree(Take(bs, i, requested), i, true) == bs
  {
  }

  lemma NothingToMerge(bs: seq<Block>, base: nat, end: nat, i: nat)
    requires Shape(bs, base, end) && i < |bs| && bs[i].free
    ensures Merge(bs, i) == bs
  {
  }

  lemma FreePair(head: seq<Block>, x: Block, y: Block, tail: seq<Block>)
    ensures SetFree(head + [x, y] + tail, |head|, true) == head + [x.(free := true), y] + tail
  {
  }

  lemma MergePair(head: seq<Block>, x: Block, y: Block, tail: seq<Block>)
    requires y.free && y.addr == End(x)
    ensures Merge(head + [x, y] + tail, |head|) == head + [x.(size := x.size + HEADER + y.size)] + tail
  {
    var bs := head + [x, y] + tail;
    assert bs[..|head|] == head && bs[|head| + 2..] == tail;
  }

  /** After growth by enough bytes the search finds a block. */
  lemma GrownFits(bs: seq<Block>, base: nat, end: nat, length: nat, requested: nat)
    requires Tiled(bs, base, end) && length >= HEADER + requested
    ensures FirstFit(Grown(bs, end, length), requested).Some?
  {
    var g := Grown(bs, end, length);
    assert g[|g| - 1].free && g[|g| - 1].size >= requested;
  }

  // ----- live allocations ---------------------------------------------------------------------------------

  /** The allocations in force: payload address and size of every block in use. */
  ghost function Live(bs: seq<Block>): set<(nat, nat)> {
    set i | 0 <= i < |bs| && !bs[i].free :: (Payload(bs[i]), bs[i].size)
  }

  lemma LiveConcat(a: seq<Block>, b: seq<Block>)
    ensures Live(a + b) == Live(a) + Live(b)
  {
    var c := a + b;
    forall x | x in Live(a) ensures x in Live(c) {
      var i :| 0 <= i < |a| && !a[i].free && x == (Payload(a[i]), a[i].size);
      assert c[i] == a[i];
    }
    forall x | x in Live(b) ensures x in Live(c) {
      var i :| 0 <= i < |b| && !b[i].free && x == (Payload(b[i]), b[i].size);
      assert c[|a| + i] == b[i];
    }
  }

  lemma LiveSplitAt(bs: seq<Block>, i: nat)
    requires i < |bs|
    ensures bs == bs[..i] + [bs[i]] + bs[i + 1..]
    ensures Live(bs) == Live(bs[..i]) + Live([bs[i]]) + Live(bs[i + 1..])
  {
    assert bs == bs[..i] + [bs[i]] + bs[i + 1..];
    LiveConcat(bs[..i] + [bs[i]], bs[i + 1..]);
    LiveConcat(bs[..i], [bs[i]]);
  }

  lemma LiveOne(b: Block)
    ensures Live([b]) == if b.free then {} else {(Payload(b), b.size)}
  {
    assert !b.free ==> [b][0] == b && (Payload(b), b.size) in Live([b]);
  }

  /** Allocation adds one live range; every other allocation keeps its address and size. */
  lemma TakeLive(bs: seq<Block>, i: nat, requested: nat)
    requires i < |bs| && bs[i].free
    ensures var t := Take(bs, i, requested);
      Live(t) == Live(bs) + {(Payload(bs[i]), t[i].size)}
  {
    hide Live;
    var t := Take(bs, i, requested);
    LiveSplitAt(bs, i);
    LiveSplitAt(t, i);
    LiveOne(bs[i]);
    LiveOne(t[i]);
    assert t[..i] == bs[..i];
    if Splits(bs[i], requested) {
      assert t[i + 1..] == [t[i + 1]] + bs[i + 1..];
      LiveConcat([t[i + 1]], bs[i + 1..]);
      LiveOne(t[i + 1]);
    } else {
      assert t[i + 1..] == bs[i + 1..];
    }
  }

  lemma MergeLive(bs: seq<Block>, i: nat)
    requires i < |bs| && bs[i].free
    ensures Live(Merge(bs, i)) == Live(bs)
  {
    var r := Merge(bs, i);
    if |r| < |bs| {
      LiveSplitAt(bs, i);
      LiveSplitAt(r, i);
      assert bs[i + 1..] == [bs[i + 1]] + bs[i + 2..];
      LiveConcat([bs[i + 1]], bs[i + 2..]);
      LiveOne(bs[i]);
      LiveOne(bs[i + 1]);
      LiveOne(r[i]);
      assert r[..i] == bs[..i] && r[i + 1..] == bs[i + 2..];
    }
  }

  /** Marking a block free removes exactly its range. */
  lemma FreedLive(bs: seq<Block>, base: nat, end: nat, i: nat)
    requires Shape(bs, base, end) && i < |bs| && !bs[i].free
    ensures Live(SetFree(bs, i, true)) == Live(bs) - {(Payload(bs[i]), bs[i].size)}
  {
    var b0 := SetFree(bs, i, true);
    LiveSplitAt(bs, i);
    LiveSplitAt(b0, i);
    LiveOne(bs[i]);
    LiveOne(b0[i]);
    assert b0[..i] == bs[..i] && b0[i + 1..] == bs[i + 1..];
    forall k | 0 <= k < |bs| && k != i ensures Payload(bs[k]) != Payload(bs[i]) {
      if k < i {
        InOrder(bs, base, end, k, i);
      } else {
        InOrder(bs, base, end, i, k);
      }
    }
    hide Shape;
    assert (Payload(bs[i]), bs[i].size) !in Live(bs[..i]) + Live(bs[i + 1..]);
  }

  /** Release removes exactly the released range. */
  lemma ReleaseLive(bs: seq<Block>, base: nat, end: nat, i: nat)
    requires Shape(bs, base, end) && i < |bs| && !bs[i].free
    ensures Live(Release(bs, i)) == Live(bs) - {(Payload(bs[i]), bs[i].size)}
  {
    hide Shape, Live;
    var b0 := SetFree(bs, i, true);
    FreedLive(bs, base, end, i);
    MergeLive(b0, i);
    var b1 := Merge(b0, i);
    if i > 0 && b1[i - 1].free {
      MergeLive(b1, i - 1);
    }
  }

  lemma GrownLive(bs: seq<Block>, end: nat, length: nat)
    requires length >= HEADER
    ensures Live(Grown(bs, end, length)) == Live(bs)
  {
    var last := Block(end, length - HEADER, true);
    LiveConcat(bs, [last]);
    LiveOne(last);
    if bs != [] && bs[|bs| - 1].free {
      MergeLive(bs + [last], |bs| - 1);
    }
  }

  // ----- allocation and release as the kernel offers them -----------------------------------------------------

  datatype HeapState = HeapState(blocks: seq<Block>, end: nat)

  ghost predicate HeapOk(h: HeapState) {
    && Shape(h.blocks, HEAP_BASE, h.end)
    && h.end <= HEAP_BASE + HEAP_SIZE && h.end % PAGE_SIZE == 0
  }

  /** The size searched for, or None when the request is refused outright. */
  function Requested(size: nat): (r: Option<nat>)
    ensures r.Some? ==> 0 < size <= r.value <= HEAP_SIZE - HEADER && r.value % ALIGN == 0 && r.value < size + ALIGN
  {
    if size == 0 || size > HEAP_SIZE - HEADER then None
    else
      var requested := AlignTo(size, ALIGN);
      if requested > HEAP_SIZE - HEADER then None else Some(requested)
  }

  function CommitSize(payload: nat): (c: nat)
    ensures c >= HEADER + payload && c >= INITIAL_PAGES * PAGE_SIZE && c % PAGE_SIZE == 0
  {
    var c := AlignTo(HEADER + payload, PAGE_SIZE);
    if c < INITIAL_PAGES * PAGE_SIZE then INITIAL_PAGES * PAGE_SIZE else c
  }

  predicate RoomFor(h: HeapState, payload: nat) { h.end + CommitSize(payload) <= HEAP_BASE + HEAP_SIZE }

  function Extend(h: HeapState, payload: nat): HeapState {
    HeapState(Grown(h.blocks, h.end, CommitSize(payload)), h.end + CommitSize(payload))
  }

  function TakeFirst(h: HeapState, requested: nat): (HeapState, nat) {
    match FirstFit(h.blocks, requested)
    case Some(i) => (h.(blocks := Take(h.blocks, i, requested)), Payload(h.blocks[i]))
    case None => (h, 0)
  }

  /** Allocation; mapped says whether the pages for growth, if needed, could be mapped. */
  function Kalloc(h: HeapState, size: nat, mapped: bool): (HeapState, nat) {
    match Requested(size)
    case None => (h, 0)
    case Some(requested) =>
      if FirstFit(h.blocks, requested).Some? then TakeFirst(h, requested)
      else if RoomFor(h, requested) && mapped then TakeFirst(Extend(h, requested), requested)
      else (h, 0)
  }

  function BlockAt(bs: seq<Block>, addr: nat): (r: Option<nat>)
    ensures r.Some? ==> r.value < |bs| && bs[r.value].addr == addr
    ensures r.None? ==> forall i :: 0 <= i < |bs| ==> bs[i].addr != addr
  {
    if bs == [] then None
    else if bs[0].addr == addr then Some(0)
    else
      match BlockAt(bs[1..], addr)
      case None => assert forall i :: 1 <= i < |bs| ==> bs[i] == bs[1..][i - 1]; None
      case Some(n) => Some(n + 1)
  }

  /** Release of a payload address; anything that is not a live allocation is ignored. */
  function Kfree(h: HeapState, ptr: nat): HeapState {
    if ptr < HEADER then h
    else
      match BlockAt(h.blocks, ptr - HEADER)
      case Some(i) => if h.blocks[i].free then h else h.(blocks := Release(h.blocks, i))
      case None => h
  }

  lemma ExtendOk(h: HeapState, payload: nat)
    requires HeapOk(h) && RoomFor(h, payload)
    ensures HeapOk(Extend(h, payload)) && Live(Extend(h, payload).blocks) == Live(h.blocks)
    ensures FirstFit(Extend(h, payload).blocks, payload).Some?
  {
    var c := CommitSize(payload);
    assert c % ALIGN == 0;
    hide Shape, Grown, Live, FirstFit;
    GrownKeeps(h.blocks, HEAP_BASE, h.end, c);
    GrownLive(h.blocks, h.end, c);
    GrownFits(h.blocks, HEAP_BASE, h.end, c, payload);
  }

  /** The range (ptr, n) is added, aligned, below end, and overlaps no live allocation. */
  ghost predicate AddsRange(live: set<(nat, nat)>, live': set<(nat, nat)>, ptr: nat, n: nat, end: nat) {
    && live' == live + {(ptr, n)}
    && ptr % ALIGN == 0 && HEAP_BASE < ptr && ptr + n <= end
    && forall l :: l in live ==> l.0 + l.1 <= ptr || ptr + n <= l.0
  }

  lemma TakeApart(bs: seq<Block>, base: nat, end: nat, i: nat, l: (nat, nat))
    requires Shape(bs, base, end) && i < |bs| && bs[i].free && l in Live(bs)
    ensures l.0 + l.1 <= Payload(bs[i]) || End(bs[i]) <= l.0
  {
    var k :| 0 <= k < |bs| && !bs[k].free && l == (Payload(bs[k]), bs[k].size);
    if k < i {
      InOrder(bs, base, end, k, i);
    } else {
      InOrder(bs, base, end, i, k);
    }
  }

  lemma TakeAdds(bs: seq<Block>, bs': seq<Block>, base: nat, end: nat, i: nat)
    requires Shape(bs, base, end) && Shape(bs', base, end) && base == HEAP_BASE && i < |bs| && i < |bs'|
    requires bs[i].free && bs'[i].addr == bs[i].addr && bs'[i].size <= bs[i].size
    requires Live(bs') == Live(bs) + {(Payload(bs[i]), bs'[i].size)}
    ensures AddsRange(Live(bs), Live(bs'), Payload(bs[i]), bs'[i].size, end)
  {
    Aligned(bs', base, end, i);
    forall l | l in Live(bs) ensures l.0 + l.1 <= Payload(bs[i]) || Payload(bs[i]) + bs'[i].size <= l.0 {
      TakeApart(bs, base, end, i, l);
    }
  }

  lemma TakeFirstOk(h: HeapState, requested: nat) returns (n: nat)
    requires HeapOk(h) && FirstFit(h.blocks, requested).Some? && requested > 0 && requested % ALIGN == 0
    ensures n >= requested && HeapOk(TakeFirst(h, requested).0) && TakeFirst(h, requested).0.end == h.end
    ensures AddsRange(Live(h.blocks), Live(TakeFirst(h, requested).0.blocks), TakeFirst(h, requested).1, n, h.end)
  {
    var i := FirstFit(h.blocks, requested).value;
    var bs := Take(h.blocks, i, requested);
    TakeKeeps(h.blocks, HEAP_BASE, h.end, i, requested);
    TakeLive(h.blocks, i, requested);
    n := bs[i].size;
    TakeAdds(h.blocks, bs, HEAP_BASE, h.end, i);
  }

  /** The heap can serve the request, from a free block or by growing. */
  predicate CanServe(h: HeapState, size: nat, mapped: bool) {
    && Requested(size).Some?
    && (FirstFit(h.blocks, Requested(size).value).Some? || (RoomFor(h, Requested(size).value) && mapped))
  }

  /**
   * Allocation succeeds exactly when the heap can serve the request. It keeps the shape and every
   * live allocation, and adds one range of at least the size asked for.
   */
  lemma KallocOk(h: HeapState, size: nat, mapped: bool) returns (n: nat)
    requires HeapOk(h)
    ensures var (h', ptr) := Kalloc(h, size, mapped);
      && HeapOk(h')
      && (ptr != 0 <==> CanServe(h, size, mapped))
      && (ptr == 0 ==> h' == h)
      && (ptr != 0 ==> n >= size && AddsRange(Live(h.blocks), Live(h'.blocks), ptr, n, h'.end))
  {
    n := 0;
    if Requested(size).Some? {
      var requested := Requested(size).value;
      if FirstFit(h.blocks, requested).Some? {
        n := TakeFirstOk(h, requested);
      } else if RoomFor(h, requested) && mapped {
        ExtendOk(h, requested);
        n := TakeFirstOk(Extend(h, requested), requested);
      }
    }
  }

  // ----- exactly when, where and how much ---------------------------------------------------------------------

  /** p is the least number of pages, four or more, that hold a header and size bytes. */
  predicate PagesFor(size: nat, p: nat) {
    && p >= 4 && 4096 * p >= 48 + size
    && (p > 4 ==> 4096 * (p - 1) < 48 + size)
  }

  /** r is the least multiple of 16 that holds size bytes. */
  predicate Rounded(size: nat, r: nat) { r % 16 == 0 && size <= r < size + 16 }

  /** Some free block holds size bytes. */
  predicate HasFree(bs: seq<Block>, size: nat) { exists i :: 0 <= i < |bs| && bs[i].free && bs[i].size >= size }

  /** The request passes the bounds exactly if it is not empty and fits a heap of one block. */
  lemma RequestedExact(size: nat)
    ensures Requested(size).Some? <==> 0 < size <= 0x40_0000 - 48
    ensures Requested(size).Some? ==> Rounded(size, Requested(size).value)
  {
  }

  lemma CommitExact(size: nat, requested: nat, p: nat)
    requires PagesFor(size, p) && Rounded(size, requested)
    ensures CommitSize(requested) == 4096 * p
  {
    var q := (HEADER + requested + 4095) / 4096;
    assert AlignTo(HEADER + requested, PAGE_SIZE) == q * 4096;
    SixteenBelow(size, requested, p);
    if p > 4 {
      SixteenBelow(size, requested, p - 1);
    }
  }

  /** Page ends are multiples of 16, so rounding the size up does not pass one. */
  lemma SixteenBelow(size: nat, requested: nat, p: nat)
    requires Rounded(size, requested)
    ensures 48 + requested <= 4096 * p <==> 48 + size <= 4096 * p
  {
    assert requested == 16 * (requested / 16);
    assert 4096 * p - 48 == 16 * (256 * p - 3);
  }

  /** Block sizes are multiples of 16, so a free block that holds the size holds it rounded up. */
  lemma FitExact(bs: seq<Block>, size: nat, requested: nat)
    requires Sized(bs) && Rounded(size, requested)
    ensures FirstFit(bs, requested).Some? <==> HasFree(bs, size)
    ensures FirstFit(bs, requested).Some? ==>
      forall i :: 0 <= i < FirstFit(bs, requested).value ==> !(bs[i].free && bs[i].size >= size)
  {
    forall i | 0 <= i < |bs| ensures bs[i].size >= size <==> bs[i].size >= requested {
      assert requested == 16 * (requested / 16) && bs[i].size == 16 * (bs[i].size / 16);
    }
  }

  /**
   * Allocation succeeds exactly if the size is in bounds and some free block holds it, or the heap has room for the
   * least number of pages, four or more, that hold it with a header, and these can be mapped.
   */
  lemma KallocIff(h: HeapState, size: nat, mapped: bool, p: nat)
    requires HeapOk(h) && PagesFor(size, p)
    ensures Kalloc(h, size, mapped).1 != 0 <==>
      && 0 < size <= 0x40_0000 - 48
      && (HasFree(h.blocks, size) || (h.end + 4096 * p <= HEAP_BASE + HEAP_SIZE && mapped))
  {
    hide Kalloc, FirstFit, HasFree, CommitSize, Live, Requested;
    var n := KallocOk(h, size, mapped);
    RequestedExact(size);
    if Requested(size).Some? {
      FitExact(h.blocks, size, Requested(size).value);
      CommitExact(size, Requested(size).value, p);
    }
  }

  /** What becomes of block i: cut to r bytes with a free remainder if 64 bytes or more are left, else taken whole. */
  ghost predicate Carved(bs: seq<Block>, bs': seq<Block>, i: nat, r: nat)
    requires i < |bs|
  {
    var b := bs[i];
    if b.size >= r + 64 then
      bs' == bs[..i] + [Block(b.addr, r, false), Block(b.addr + 48 + r, b.size - r - 48, true)] + bs[i + 1..]
    else bs' == bs[..i] + [Block(b.addr, b.size, false)] + bs[i + 1..]
  }

  /**
   * Where an allocation comes from: the first free block that holds the size, in the list as it was or, if there is
   * none, in the list with the new pages behind it; the block is carved and its payload returned.
   */
  lemma KallocCarves(h: HeapState, size: nat, mapped: bool, p: nat, r: nat) returns (i: nat)
    requires HeapOk(h) && PagesFor(size, p) && Rounded(size, r) && Kalloc(h, size, mapped).1 != 0
    ensures var (h', ptr) := Kalloc(h, size, mapped);
      var bs := if HasFree(h.blocks, size) then h.blocks else Grown(h.blocks, h.end, 4096 * p);
      && i < |bs| && bs[i].free && bs[i].size >= size && ptr == bs[i].addr + 48
      && (forall j :: 0 <= j < i ==> !(bs[j].free && bs[j].size >= size))
      && Carved(bs, h'.blocks, i, r)
      && h'.end == if HasFree(h.blocks, size) then h.end else h.end + 4096 * p
  {
    hide FirstFit, HasFree, CommitSize, Grown, Shape;
    RequestedExact(size);
    var requested := Requested(size).value;
    assert requested == r;
    SizedBlocks(h);
    FitExact(h.blocks, size, r);
    CommitExact(size, r, p);
    var g := if HasFree(h.blocks, size) then h else Extend(h, r);
    if !HasFree(h.blocks, size) {
      ExtendOk(h, r);
      SizedBlocks(g);
      FitExact(g.blocks, size, r);
    }
    i := FirstFit(g.blocks, r).value;
    TakeCarves(g.blocks, i, r);
  }

  lemma SizedBlocks(h: HeapState)
    requires HeapOk(h)
    ensures Sized(h.blocks)
  {
  }

  lemma TakeCarves(bs: seq<Block>, i: nat, r: nat)
    requires i < |bs|
    ensures Carved(bs, Take(bs, i, r), i, r)
  {
    var s := Split(bs, i, r);
    if Splits(bs[i], r) {
      assert Take(bs, i, r) == bs[..i] + [s[i].(free := false), s[i + 1]] + bs[i + 1..];
    }
  }

  /** Release keeps the shape and removes exactly the allocation at ptr, if there is one. */
  lemma KfreeOk(h: HeapState, ptr: nat)
    requires HeapOk(h)
    ensures HeapOk(Kfree(h, ptr)) && Kfree(h, ptr).end == h.end
    ensures forall l :: l in Live(Kfree(h, ptr).blocks) <==> l in Live(h.blocks) && l.0 != ptr
  {
    if ptr >= HEADER && BlockAt(h.blocks, ptr - HEADER).Some? {
      var i := BlockAt(h.blocks, ptr - HEADER).value;
      forall k | 0 <= k < |h.blocks| && k != i ensures Payload(h.blocks[k]) != ptr {
        if k < i {
          InOrder(h.blocks, HEAP_BASE, h.end, k, i);
        } else {
          InOrder(h.blocks, HEAP_BASE, h.end, i, k);
        }
      }
      if !h.blocks[i].free {
        ReleaseKeeps(h.blocks, HEAP_BASE, h.end, i);
        ReleaseLive(h.blocks, HEAP_BASE, h.end, i);
      }
    }
  }

  /** Freeing the result of an allocation that needed no growth restores the heap exactly. */
  lemma KfreeUndoesKalloc(h: HeapState, size: nat, mapped: bool)
    requires HeapOk(h) && 0 < size <= 0x40_0000 - 48 && HasFree(h.blocks, size)
    ensures var (h', ptr) := Kalloc(h, size, mapped); Kfree(h', ptr) == h
  {
    RequestedExact(size);
    FitExact(h.blocks, size, Requested(size).value);
    var requested := Requested(size).value;
    var i := FirstFit(h.blocks, requested).value;
    var (h', ptr) := Kalloc(h, size, mapped);
    TakeKeeps(h.blocks, HEAP_BASE, h.end, i, requested);
    ReleaseUndoesTake(h.blocks, HEAP_BASE, h.end, i, requested);
    var k := BlockAt(h'.blocks, ptr - HEADER);
    assert h'.blocks[i].addr == ptr - HEADER;
    if k.value < i {
      InOrder(h'.blocks, HEAP_BASE, h.end, k.value, i);
    } else if k.value > i {
      InOrder(h'.blocks, HEAP_BASE, h.end, i, k.value);
    }
  }

  // ----- every run ---------------------------------------------------------------------------------------------

  datatype HeapOp = Get(size: nat, mapped: bool) | Put(ptr: nat)

  function Apply(h: HeapState, op: HeapOp): HeapState {
    match op
    case Get(size, mapped) => Kalloc(h, size, mapped).0
    case Put(ptr) => Kfree(h, ptr)
  }

  function Run(h: HeapState, ops: seq<HeapOp>): HeapState
    decreases ops
  {
    if ops == [] then h else Run(Apply(h, ops[0]), ops[1..])
  }

  lemma ApplyOk(h: HeapState, op: HeapOp)
    requires HeapOk(h)
    ensures HeapOk(Apply(h, op))
    ensures forall l :: l in Live(h.blocks) && op != Put(l.0) ==> l in Live(Apply(h, op).blocks)
  {
    match op {
      case Get(size, mapped) => var n := KallocOk(h, size, mapped);
      case Put(ptr) => KfreeOk(h, ptr);
    }
  }

  /** In every run the shape holds. */
  lemma {:induction false} RunOk(h: HeapState, ops: seq<HeapOp>)
    requires HeapOk(h)
    ensures HeapOk(Run(h, ops))
    decreases ops
  {
    if ops != [] {
      ApplyOk(h, ops[0]);
      RunOk(Apply(h, ops[0]), ops[1..]);
    }
  }

  /** In every run an allocation keeps its place and size until it is freed. */
  lemma {:induction false} RunKeepsLive(h: HeapState, ops: seq<HeapOp>, l: (nat, nat))
    requires HeapOk(h) && l in Live(h.blocks) && Put(l.0) !in ops
    ensures l in Live(Run(h, ops).blocks)
    decreases ops
  {
    if ops != [] {
      assert ops[0] in ops;
      ApplyOk(h, ops[0]);
      RunKeepsLive(Apply(h, ops[0]), ops[1..], l);
    }
  }
}
