/**
 * The kernel heap as the kernel keeps it: block headers at addresses in memory, linked both ways
 * through address-valued fields, with 0 for the null pointer.
 */
module Heap {
  import opened KernelTypes
  import opened HeapBlocks

  const MAGIC: nat := 0x5343_444b_4845_4150

  datatype Header = Header(magic: nat, size: nat, free: bool, prev: nat, next: nat)

  type Headers = map<nat, Header>

  /** The header at list[i] links to its neighbours in the list. */
  predicate LinkedAt(hs: Headers, list: seq<nat>, i: nat)
    requires i < |list|
  {
    && list[i] in hs && list[i] != 0 && hs[list[i]].magic == MAGIC
    && hs[list[i]].prev == (if i == 0 then 0 else list[i - 1])
    && hs[list[i]].next == (if i == |list| - 1 then 0 else list[i + 1])
  }

  ghost predicate Linked(hs: Headers, list: seq<nat>) {
    NoDup(list) && forall i :: 0 <= i < |list| ==> LinkedAt(hs, list, i)
  }

  /** Headers that were merged away still stand in memory, marked free. */
  ghost predicate StaleFree(hs: Headers, list: seq<nat>) { forall a :: a in hs && a !in list ==> hs[a].free }

  predicate AllIn(hs: Headers, list: seq<nat>) { forall i :: 0 <= i < |list| ==> list[i] in hs }

  /** The block list that the linked headers represent. */
  ghost function BlocksOf(hs: Headers, list: seq<nat>): (bs: seq<Block>)
    requires AllIn(hs, list)
    ensures |bs| == |list|
    ensures forall i :: 0 <= i < |list| ==> bs[i] == Block(list[i], hs[list[i]].size, hs[list[i]].free)
  {
    seq(|list|, i requires 0 <= i < |list| => Block(list[i], hs[list[i]].size, hs[list[i]].free))
  }

  function First(list: seq<nat>): nat { if list == [] then 0 else list[0] }
  function Last(list: seq<nat>): nat { if list == [] then 0 else list[|list| - 1] }

  // ----- pointer updates and what they do to the list -----------------------------------------------

  function SetNext(hs: Headers, a: nat, n: nat): Headers {
    if a != 0 && a in hs then hs[a := hs[a].(next := n)] else hs
  }

  function SetPrev(hs: Headers, a: nat, p: nat): Headers {
    if a != 0 && a in hs then hs[a := hs[a].(prev := p)] else hs
  }

  function Without(list: seq<nat>, k: nat): seq<nat>
    requires k < |list|
  {
    list[..k] + list[k + 1..]
  }

  function With(list: seq<nat>, k: nat, addr: nat): seq<nat>
    requires k < |list|
  {
    list[..k + 1] + [addr] + list[k + 1..]
  }

  function UnlinkedHeaders(hs: Headers, addr: nat): Headers
    requires addr in hs
  {
    SetPrev(SetNext(hs, hs[addr].prev, hs[addr].next), hs[addr].next, hs[addr].prev)
  }

  function InsertedHeaders(hs: Headers, addr: nat, newAddr: nat, size: nat): Headers
    requires addr in hs
  {
    var next := hs[addr].next;
    SetNext(SetPrev(hs[newAddr := Header(MAGIC, size, true, addr, next)], next, newAddr), addr, newAddr)
  }

  lemma LinkedIn(hs: Headers, list: seq<nat>)
    requires Linked(hs, list)
    ensures AllIn(hs, list)
  {
    forall i | 0 <= i < |list| ensures list[i] in hs {
      assert LinkedAt(hs, list, i);
    }
  }

  lemma UnlinkedLinked(hs: Headers, list: seq<nat>, k: nat)
    requires Linked(hs, list) && k < |list|
    ensures list[k] in hs && Linked(UnlinkedHeaders(hs, list[k]), Without(list, k))
  {
    assert LinkedAt(hs, list, k);
    var hs', short := UnlinkedHeaders(hs, list[k]), Without(list, k);
    forall i | 0 <= i < |short| ensures LinkedAt(hs', short, i) {
      var j := if i < k then i else i + 1;
      assert LinkedAt(hs, list, j) && short[i] == list[j];
      assert i > 0 ==> short[i - 1] == list[if i - 1 < k then i - 1 else i];
      assert i < |short| - 1 ==> short[i + 1] == list[if i + 1 < k then i + 1 else i + 2];
    }
    NoDupWithout(list, k);
  }

  lemma NoDupWithout(list: seq<nat>, k: nat)
    requires NoDup(list) && k < |list|
    ensures NoDup(Without(list, k))
  {
    var short := Without(list, k);
    forall i, j | 0 <= i < j < |short| ensures short[i] != short[j] {
      assert short[i] == list[if i < k then i else i + 1];
      assert short[j] == list[if j < k then j else j + 1];
    }
  }

  lemma NoDupWith(list: seq<nat>, k: nat, addr: nat)
    requires NoDup(list) && k < |list| && addr !in list
    ensures NoDup(With(list, k, addr))
  {
    var long := With(list, k, addr);
    forall i, j | 0 <= i < j < |long| ensures long[i] != long[j] {
      assert i != k + 1 ==> long[i] == list[if i <= k then i else i - 1];
      assert j != k + 1 ==> long[j] == list[if j <= k then j else j - 1];
    }
  }

  lemma InsertedLinked(hs: Headers, list: seq<nat>, k: nat, newAddr: nat, size: nat)
    requires Linked(hs, list) && k < |list| && newAddr != 0 && newAddr !in list
    ensures list[k] in hs && Linked(InsertedHeaders(hs, list[k], newAddr, size), With(list, k, newAddr))
  {
    assert LinkedAt(hs, list, k);
    assert k + 1 < |list| ==> LinkedAt(hs, list, k + 1);
    var hs', long := InsertedHeaders(hs, list[k], newAddr, size), With(list, k, newAddr);
    forall i | 0 <= i < |long| ensures LinkedAt(hs', long, i) {
      if i != k + 1 {
        var j := if i <= k then i else i - 1;
        assert LinkedAt(hs, list, j) && long[i] == list[j];
        assert list[j] != newAddr;
      }
      assert i > 0 && i - 1 != k + 1 ==> long[i - 1] == list[if i - 1 <= k then i - 1 else i - 2];
      assert i < |long| - 1 && i + 1 != k + 1 ==> long[i + 1] == list[if i + 1 <= k then i + 1 else i];
    }
    NoDupWith(list, k, newAddr);
  }

  lemma UnlinkedBlocks(hs: Headers, list: seq<nat>, k: nat)
    requires Linked(hs, list) && AllIn(hs, list) && k < |list|
    ensures var hs' := UnlinkedHeaders(hs, list[k]);
      AllIn(hs', Without(list, k))
      && BlocksOf(hs', Without(list, k)) == BlocksOf(hs, list)[..k] + BlocksOf(hs, list)[k + 1..]
  {
    assert UnlinkedHeaders(hs, list[k]).Keys == hs.Keys;
  }

  lemma InsertedBlocks(hs: Headers, list: seq<nat>, k: nat, newAddr: nat, size: nat)
    requires Linked(hs, list) && AllIn(hs, list) && k < |list| && newAddr != 0 && newAddr !in list
    ensures var hs' := InsertedHeaders(hs, list[k], newAddr, size);
      AllIn(hs', With(list, k, newAddr))
      && BlocksOf(hs', With(list, k, newAddr)) ==
         BlocksOf(hs, list)[..k + 1] + [Block(newAddr, size, true)] + BlocksOf(hs, list)[k + 1..]
  {
    assert InsertedHeaders(hs, list[k], newAddr, size).Keys == hs.Keys + {newAddr};
  }

  lemma UnlinkedStale(hs: Headers, list: seq<nat>, k: nat)
    requires StaleFree(hs, list) && k < |list| && list[k] in hs && hs[list[k]].free
    ensures StaleFree(UnlinkedHeaders(hs, list[k]), Without(list, k))
  {
    assert list == list[..k] + [list[k]] + list[k + 1..];
  }

  /** The ends of the list, and the neighbours of block k. */
  lemma EndsWithout(hs: Headers, list: seq<nat>, k: nat)
    requires Linked(hs, list) && k < |list|
    ensures list[k] in hs
    ensures var h := hs[list[k]];
      && (h.prev != 0 ==> h.prev in hs) && (h.next != 0 ==> h.next in hs && h.next != h.prev)
      && First(Without(list, k)) == (if h.prev == 0 then h.next else First(list))
      && Last(Without(list, k)) == (if h.next == 0 then h.prev else Last(list))
  {
    assert LinkedAt(hs, list, k);
    assert k > 0 ==> LinkedAt(hs, list, k - 1);
    assert k < |list| - 1 ==> LinkedAt(hs, list, k + 1);
  }

  lemma EndsWith(hs: Headers, list: seq<nat>, k: nat, newAddr: nat)
    requires Linked(hs, list) && k < |list| && newAddr !in list
    ensures list[k] in hs && list[k] != newAddr && list[k] != 0
    ensures var next := hs[list[k]].next;
      && (next != 0 ==> next in hs && next != list[k] && next != newAddr)
      && First(With(list, k, newAddr)) == First(list)
      && Last(With(list, k, newAddr)) == (if next == 0 then newAddr else Last(list))
  {
    assert LinkedAt(hs, list, k);
    assert k < |list| - 1 ==> LinkedAt(hs, list, k + 1);
  }

  lemma InsertedStale(hs: Headers, list: seq<nat>, k: nat, newAddr: nat, size: nat)
    requires StaleFree(hs, list) && k < |list| && list[k] in hs
    ensures StaleFree(InsertedHeaders(hs, list[k], newAddr, size), With(list, k, newAddr))
  {
    var long := With(list, k, newAddr);
    assert long[k + 1] == newAddr;
    forall a | a in list ensures a in long {
      var i :| 0 <= i < |list| && list[i] == a;
      assert i <= k ==> long[i] == a;
      assert i > k ==> long[i + 1] == a;
    }
  }

  class BlockList {
    var headers: Headers
    var head: nat
    var tail: nat
    var commitEnd: nat
    ghost var list: seq<nat>

    ghost predicate Valid()
      reads this
    {
      Linked(headers, list) && StaleFree(headers, list) && head == First(list) && tail == Last(list)
    }

    ghost function Blocks(): seq<Block>
      requires Valid()
      reads this
    {
      assert AllIn(headers, list) by {
        forall i | 0 <= i < |list| ensures list[i] in headers {
          assert LinkedAt(headers, list, i);
        }
      }
      BlocksOf(headers, list)
    }

    ghost function Value(): HeapState
      requires Valid()
      reads this
    {
      HeapState(Blocks(), commitEnd)
    }

    constructor ()
      ensures Valid() && Value() == HeapState([], HEAP_BASE)
    {
      headers := map[];
      head, tail, commitEnd := 0, 0, HEAP_BASE;
      list := [];
    }

    /** What the header of block k holds. */
    lemma HeaderOf(k: nat)
      requires Valid() && k < |list|
      ensures list[k] in headers && list[k] != 0
        && headers[list[k]].next == (if k == |list| - 1 then 0 else list[k + 1])
      ensures |Blocks()| == |list| && Blocks()[k] == Block(list[k], headers[list[k]].size, headers[list[k]].free)
    {
      assert LinkedAt(headers, list, k);
    }

    method InsertTail(addr: nat, size: nat)
      requires Valid() && addr != 0 && addr !in list
      modifies this`headers, this`head, this`tail, this`list
      ensures Valid() && Blocks() == old(Blocks()) + [Block(addr, size, true)]
      ensures list == old(list) + [addr]
    {
      assert list != [] ==> LinkedAt(headers, list, |list| - 1);
      headers := headers[addr := Header(MAGIC, size, true, tail, 0)];
      if tail != 0 {
        headers := headers[tail := headers[tail].(next := addr)];
      } else {
        head := addr;
      }
      tail := addr;
      list := list + [addr];
      forall i | 0 <= i < |list| ensures LinkedAt(headers, list, i) {
        if i < |list| - 1 {
          assert LinkedAt(old(headers), old(list), i);
          assert list[i] == old(list)[i] && list[i] != addr;
          assert i < |list| - 2 ==> list[i] != old(list)[|old(list)| - 1];
        }
      }
    }

    method Remove(addr: nat, ghost k: nat)
      requires Valid() && k < |list| && list[k] == addr && Blocks()[k].free
      modifies this`headers, this`head, this`tail, this`list
      ensures Valid() && Blocks() == old(Blocks())[..k] + old(Blocks())[k + 1..]
      ensures list == Without(old(list), k)
    {
      HeaderOf(k);
      LinkedIn(headers, list);
      EndsWithout(headers, list, k);
      UnlinkedStale(headers, list, k);
      UnlinkedLinked(headers, list, k);
      UnlinkedBlocks(headers, list, k);
      hide StaleFree, Linked, LinkedAt, BlocksOf, Without, First, Last;
      Unlink(addr);
      list := Without(list, k);
    }

    /** Links the neighbours of a header with each other. */
    method Unlink(addr: nat)
      requires addr in headers
      requires var h := headers[addr]; (h.prev != 0 ==> h.prev in headers) && (h.next != 0 ==> h.next in headers)
      modifies this`headers, this`head, this`tail
      ensures headers == UnlinkedHeaders(old(headers), addr)
      ensures var h := old(headers)[addr];
        && head == (if h.prev == 0 then h.next else old(head))
        && tail == (if h.next == 0 then h.prev else old(tail))
    {
      var b := headers[addr];
      if b.prev != 0 {
        headers := headers[b.prev := headers[b.prev].(next := b.next)];
      } else {
        head := b.next;
      }
      if b.next != 0 {
        headers := headers[b.next := headers[b.next].(prev := b.prev)];
      } else {
        tail := b.prev;
      }
    }

    /** Writes the size and free fields of block k. */
    method SetFields(addr: nat, size: nat, free: bool, ghost k: nat)
      requires Valid() && k < |list| && list[k] == addr
      modifies this`headers
      ensures Valid() && Blocks() == old(Blocks())[k := Block(addr, size, free)]
    {
      assert LinkedAt(headers, list, k);
      headers := headers[addr := headers[addr].(size := size, free := free)];
      forall i | 0 <= i < |list| ensures LinkedAt(headers, list, i) {
        assert LinkedAt(old(headers), list, i);
      }
    }

    method CoalesceForward(addr: nat, ghost k: nat)
      requires Valid() && k < |list| && list[k] == addr
      modifies this`headers, this`head, this`tail, this`list
      ensures Valid() && Blocks() == Merge(old(Blocks()), k)
      ensures k < |list| && forall i :: 0 <= i <= k ==> list[i] == old(list)[i]
    {
      hide Blocks, LinkedAt, Linked;
      HeaderOf(k);
      if k + 1 < |list| {
        HeaderOf(k + 1);
      }
      var b := headers[addr];
      if b.next == 0 || !headers[b.next].free || b.next != addr + HEADER + b.size {
        return;
      }
      SetFields(addr, b.size + HEADER + headers[b.next].size, b.free, k);
      Remove(b.next, k + 1);
    }

    /** Links a new free block behind block k. */
    method InsertAfter(addr: nat, newAddr: nat, size: nat, ghost k: nat)
      requires Valid() && k < |list| && list[k] == addr && newAddr != 0 && newAddr !in list
      modifies this`headers, this`tail, this`list
      ensures Valid()
      ensures Blocks() == old(Blocks())[..k + 1] + [Block(newAddr, size, true)] + old(Blocks())[k + 1..]
      ensures list == With(old(list), k, newAddr)
    {
      LinkedIn(headers, list);
      EndsWith(headers, list, k, newAddr);
      InsertedStale(headers, list, k, newAddr, size);
      InsertedLinked(headers, list, k, newAddr, size);
      InsertedBlocks(headers, list, k, newAddr, size);
      hide StaleFree, Linked, LinkedAt, BlocksOf, With, First, Last;
      var next := headers[addr].next;
      headers := headers[newAddr := Header(MAGIC, size, true, addr, next)];
      if next != 0 {
        headers := headers[next := headers[next].(prev := newAddr)];
      } else {
        tail := newAddr;
      }
      headers := headers[addr := headers[addr].(next := newAddr)];
      assert headers == InsertedHeaders(old(headers), addr, newAddr, size);
      list := With(list, k, newAddr);
    }

    method SplitBlock(addr: nat, requested: nat, ghost k: nat)
      requires Valid() && k < |list| && list[k] == addr
      requires Splits(Blocks()[k], requested) ==> addr + HEADER + requested !in list
      modifies this`headers, this`tail, this`list
      ensures Valid() && Blocks() == Split(old(Blocks()), k, requested)
      ensures k < |list| && list[k] == addr
    {
      hide Blocks, LinkedAt, Linked;
      HeaderOf(k);
      var b := headers[addr];
      if b.size < requested + HEADER + MIN_SPLIT {
        return;
      }
      InsertAfter(addr, addr + HEADER + requested, b.size - requested - HEADER, k);
      SetFields(addr, requested, b.free, k);
    }

    method FindFreeBlock(size: nat) returns (addr: nat, ghost k: nat)
      requires Valid()
      ensures addr == 0 <==> FirstFit(Blocks(), size).None?
      ensures addr != 0 ==> k < |list| && list[k] == addr && FirstFit(Blocks(), size) == Some(k)
    {
      addr, k := head, 0;
      while addr != 0
        invariant 0 <= k <= |list| && addr == (if k == |list| then 0 else list[k])
        invariant forall i :: 0 <= i < k ==> !(Blocks()[i].free && Blocks()[i].size >= size)
        decreases |list| - k
      {
        assert LinkedAt(headers, list, k);
        if headers[addr].free && headers[addr].size >= size {
          return;
        }
        addr, k := headers[addr].next, k + 1;
        assert k < |list| ==> LinkedAt(headers, list, k);
      }
      assert k < |list| ==> LinkedAt(headers, list, k);
    }
  }
}
