/** Checking and copying user memory through the active root. */
module UserIpc {
  import opened KernelTypes
  import opened PageTables
  import opened Words
  import opened Paging
  import opened VirtualMemory
  import opened MemoryRuns

  /** The byte lies in the user window and its page is mapped user, and writable when asked. */
  predicate UserByte(m: Machine, a: nat, writable: bool) {
    && USER_BASE <= a < USER_TOP
    && var e := Lookup(m.mem, m.active, PathOf(a));
       e.Some? && e.value.user && (writable ==> e.value.writable)
  }

  /** The last address of a nonempty range that stays inside the user window. */
  function CheckedUserEnd(userPtr: nat, size: nat): Option<nat> {
    if userPtr == 0 || size == 0 then None
    else if userPtr > TWO64 - 1 - (size - 1) then None
    else
      var last := userPtr + size - 1;
      if userPtr < USER_BASE || last >= USER_TOP then None else Some(last)
  }

  lemma SamePagePath(a: nat, b: nat)
    requires a / 4096 == b / 4096
    ensures PathOf(a) == PathOf(b)
  {
  }

  predicate PageFit(t: Result<(nat, nat)>, writable: bool) {
    t.Good? && t.value.1 >= 2 && (writable ==> t.value.1 % 2 == 1)
  }

  /** What translating a page of the user window yields decides its bytes. */
  lemma PageDecides(m: Machine, page: nat, a: nat, writable: bool)
    requires Sound(m) && PageAligned(page) && a / 4096 == page / 4096 && USER_BASE <= a < USER_TOP
    ensures UserByte(m, a, writable) <==> PageFit(Translate(m, m.active, page), writable)
  {
    assert page < USER_TOP;
    assert PageOf(page) == page;
    assert AcceptedAddress(page);
    SamePagePath(a, page);
    FindLeafIsLookup(m, m.active, PathOf(page));
  }

  ghost predicate UserBytes(m: Machine, from: nat, to: nat, writable: bool) {
    forall a :: from <= a < to ==> UserByte(m, a, writable)
  }

  lemma PageDecidesAll(m: Machine, page: nat, writable: bool, from: nat, to: nat)
    requires Sound(m) && PageAligned(page) && page <= from < to <= page + 4096
    requires USER_BASE <= from && to <= USER_TOP
    ensures UserBytes(m, from, to, writable) <==> PageFit(Translate(m, m.active, page), writable)
  {
    forall a | from <= a < to
      ensures UserByte(m, a, writable) <==> PageFit(Translate(m, m.active, page), writable)
    {
      PageDecides(m, page, a, writable);
    }
    assert UserBytes(m, from, to, writable) ==> UserByte(m, from, writable);
  }

  lemma TranslateFlags(m: Machine, root: nat, virt: nat)
    ensures Translate(m, root, virt).Good? ==> Translate(m, root, virt).value.1 < 4
  {
  }

  /** The checks made on one page. */
  method CheckPage(m: Machine, page: nat, writable: bool, ghost from: nat, ghost to: nat) returns (s: Status)
    requires Sound(m) && PageAligned(page) && page <= from < to <= page + 4096
    requires USER_BASE <= from && to <= USER_TOP
    ensures s == Ok <==> UserBytes(m, from, to, writable)
  {
    var t := Translate(m, m.active, page);
    PageDecidesAll(m, page, writable, from, to);
    TranslateFlags(m, m.active, page);
    if t.Bad? {
      return t.error;
    }
    if t.value.1 / 2 % 2 == 0 {
      return Perm;
    }
    if writable && t.value.1 % 2 == 0 {
      return Perm;
    }
    return Ok;
  }

  lemma WindowEnds(m: Machine, userPtr: nat, size: nat, writable: bool)
    requires size > 0 && userPtr + size <= TWO64 && CheckedUserEnd(userPtr, size).None?
    ensures !UserBytes(m, userPtr, userPtr + size, writable)
  {
    assert !UserByte(m, userPtr, writable) || !UserByte(m, userPtr + size - 1, writable);
  }

  /** Accepts a range exactly when it is nonempty, does not wrap, and every byte of it is fit for the access. */
  method ValidateRange(m: Machine, userPtr: nat, size: nat, writable: bool) returns (s: Status)
    requires Sound(m) && userPtr < TWO64 && size < TWO64
    ensures s == Ok <==> size > 0 && userPtr + size <= TWO64 && UserBytes(m, userPtr, userPtr + size, writable)
  {
    var last := CheckedUserEnd(userPtr, size);
    if last.None? {
      if size > 0 && userPtr + size <= TWO64 {
        WindowEnds(m, userPtr, size, writable);
      }
      return Bounds;
    }
    var page, lastPage := userPtr / 4096 * 4096, last.value / 4096 * 4096;
    while true
      invariant PageAligned(page) && page <= lastPage && page + 4096 > userPtr
      invariant UserBytes(m, userPtr, page, writable)
      decreases lastPage - page
    {
      ghost var from := if page < userPtr then userPtr else page;
      ghost var to := if page + 4096 <= last.value then page + 4096 else last.value + 1;
      s := CheckPage(m, page, writable, from, to);
      if s != Ok {
        return;
      }
      if page >= lastPage {
        break;
      }
      page := page + 4096;
    }
    return Ok;
  }

  // ----- copying ------------------------------------------------------------------------------------------

  /** The physical byte behind a user address. */
  function PhysOf(m: Machine, a: nat): Option<nat> {
    match Lookup(m.mem, m.active, PathOf(a))
    case Some(e) => Some(e.phys + a % 4096)
    case None => None
  }

  /** What the processor reads at a user address through the active root. */
  function ByteAt(m: Machine, ram: nat -> nat, a: nat): nat {
    match PhysOf(m, a)
    case Some(x) => ram(x)
    case None => 0
  }

  function BytesAt(m: Machine, ram: nat -> nat, a: nat, n: nat): (bytes: seq<nat>)
    ensures |bytes| == n
  {
    seq<nat>(n, i requires 0 <= i => ByteAt(m, ram, a + i))
  }

  function StoreByte(m: Machine, ram: nat -> nat, a: nat, b: nat): nat -> nat {
    match PhysOf(m, a)
    case Some(x) => (y: nat) => if y == x then b else ram(y)
    case None => ram
  }

  /** Physical memory after bytes are stored at consecutive user addresses, in ascending order. */
  function StoreAll(m: Machine, ram: nat -> nat, a: nat, bytes: seq<nat>): nat -> nat
    decreases |bytes|
  {
    if bytes == [] then ram else StoreAll(m, StoreByte(m, ram, a, bytes[0]), a + 1, bytes[1..])
  }

  /** Copies exactly the bytes of the range, and only when every one of them may be read by the user. */
  method CopyFrom(m: Machine, ram: nat -> nat, userPtr: nat, size: nat) returns (r: Result<seq<nat>>)
    requires Sound(m) && userPtr < TWO64 && size < TWO64
    ensures r.Good? <==> size > 0 && userPtr + size <= TWO64 && UserBytes(m, userPtr, userPtr + size, false)
    ensures r.Good? ==> r.value == BytesAt(m, ram, userPtr, size)
  {
    if size == 0 {
      return Bad(Inval);
    }
    var s := ValidateRange(m, userPtr, size, false);
    if s != Ok {
      return Bad(s);
    }
    var bytes := [];
    for i := 0 to size
      invariant |bytes| == i && forall k :: 0 <= k < i ==> bytes[k] == ByteAt(m, ram, userPtr + k)
    {
      bytes := bytes + [ByteAt(m, ram, userPtr + i)];
    }
    return Good(bytes);
  }

  /** Stores exactly those bytes, and only when every byte of the range may be written by the user. */
  method CopyTo(m: Machine, ram: nat -> nat, userPtr: nat, bytes: seq<nat>) returns (s: Status, ram': nat -> nat)
    requires Sound(m) && userPtr < TWO64 && |bytes| < TWO64
    ensures s == Ok <==> bytes != [] && userPtr + |bytes| <= TWO64 && UserBytes(m, userPtr, userPtr + |bytes|, true)
    ensures ram' == if s == Ok then StoreAll(m, ram, userPtr, bytes) else ram
  {
    hide UserBytes, StoreByte, Sound;
    ram' := ram;
    if bytes == [] {
      return Inval, ram;
    }
    s := ValidateRange(m, userPtr, |bytes|, true);
    if s != Ok {
      return;
    }
    for i := 0 to |bytes|
      invariant StoreAll(m, ram', userPtr + i, bytes[i..]) == StoreAll(m, ram, userPtr, bytes)
    {
      ram' := StoreByte(m, ram', userPtr + i, bytes[i]);
      assert bytes[i..][1..] == bytes[i + 1..];
    }
  }

  /** No two of n user addresses from a on are the same physical byte. */
  ghost predicate NoAlias(m: Machine, a: nat, n: nat) {
    forall v, w :: a <= v < w < a + n ==> PhysOf(m, v) != PhysOf(m, w)
  }

  /** Physical bytes that the range does not reach keep their value. */
  lemma {:induction false} StoreAside(m: Machine, ram: nat -> nat, a: nat, bytes: seq<nat>, y: nat)
    requires forall v :: a <= v < a + |bytes| ==> PhysOf(m, v) != Some(y)
    ensures StoreAll(m, ram, a, bytes)(y) == ram(y)
    decreases |bytes|
  {
    hide PhysOf;
    if bytes != [] {
      StoreAside(m, StoreByte(m, ram, a, bytes[0]), a + 1, bytes[1..], y);
    }
  }

  /** The last address of the range that is this physical byte decides its value. */
  lemma {:induction false} StoreLast(m: Machine, ram: nat -> nat, a: nat, bytes: seq<nat>, v: nat, y: nat)
    requires a <= v < a + |bytes| && PhysOf(m, v) == Some(y)
    requires forall w :: v < w < a + |bytes| ==> PhysOf(m, w) != Some(y)
    ensures StoreAll(m, ram, a, bytes)(y) == bytes[v - a]
    decreases |bytes|
  {
    hide PhysOf;
    var ram1, rest := StoreByte(m, ram, a, bytes[0]), bytes[1..];
    if v == a {
      StoreAside(m, ram1, a + 1, rest, y);
    } else {
      StoreLast(m, ram1, a + 1, rest, v, y);
    }
  }

  lemma {:induction false} StoreConcat(m: Machine, ram: nat -> nat, a: nat, xs: seq<nat>, ys: seq<nat>)
    ensures StoreAll(m, ram, a, xs + ys) == StoreAll(m, StoreAll(m, ram, a, xs), a + |xs|, ys)
    decreases |xs|
  {
    hide StoreByte;
    if xs == [] {
      assert xs + ys == ys;
    } else {
      assert (xs + ys)[1..] == xs[1..] + ys && (xs + ys)[0] == xs[0];
      StoreConcat(m, StoreByte(m, ram, a, xs[0]), a + 1, xs[1..], ys);
    }
  }

  lemma UserBytesMapped(m: Machine, from: nat, to: nat, writable: bool)
    requires UserBytes(m, from, to, writable)
    ensures forall v :: from <= v < to ==> PhysOf(m, v).Some?
  {
    forall v | from <= v < to ensures PhysOf(m, v).Some? {
      assert UserByte(m, v, writable);
    }
  }

  /** What the user reads back at a stored byte that no later one overwrites. */
  lemma StoredReadsBack(m: Machine, ram: nat -> nat, a: nat, bytes: seq<nat>)
    requires NoAlias(m, a, |bytes|) && forall v :: a <= v < a + |bytes| ==> PhysOf(m, v).Some?
    ensures BytesAt(m, StoreAll(m, ram, a, bytes), a, |bytes|) == bytes
  {
    hide PhysOf, StoreAll;
    forall i | 0 <= i < |bytes| ensures ByteAt(m, StoreAll(m, ram, a, bytes), a + i) == bytes[i] {
      StoreLast(m, ram, a, bytes, a + i, PhysOf(m, a + i).value);
    }
  }

  /**
   * Copying to the user and back is the identity, whatever the bytes, exactly when no two addresses of the range
   * are the same physical byte.
   */
  lemma CopyRoundTripIff(m: Machine, ram: nat -> nat, a: nat, n: nat)
    requires UserBytes(m, a, a + n, true)
    ensures NoAlias(m, a, n) <==>
      forall bytes: seq<nat> :: |bytes| == n ==> BytesAt(m, StoreAll(m, ram, a, bytes), a, n) == bytes
  {
    hide PhysOf, StoreAll, UserBytes, BytesAt, NoAlias;
    UserBytesMapped(m, a, a + n, true);
    if NoAlias(m, a, n) {
      forall bytes: seq<nat> | |bytes| == n ensures BytesAt(m, StoreAll(m, ram, a, bytes), a, n) == bytes {
        StoredReadsBack(m, ram, a, bytes);
      }
    } else {
      var bytes := AliasLoses(m, ram, a, n);
    }
  }

  /** Two addresses of one physical byte read alike, so bytes that differ there do not come back. */
  lemma AliasLoses(m: Machine, ram: nat -> nat, a: nat, n: nat) returns (bytes: seq<nat>)
    requires !NoAlias(m, a, n)
    ensures |bytes| == n && BytesAt(m, StoreAll(m, ram, a, bytes), a, n) != bytes
  {
    hide PhysOf, StoreAll;
    var v, w :| a <= v < w < a + n && PhysOf(m, v) == PhysOf(m, w);
    bytes := seq(n, k => if k == v - a then 0 else 1);
    var ram', i, j := StoreAll(m, ram, a, bytes), v - a, w - a;
    var back := BytesAt(m, ram', a, n);
    assert back[i] == ByteAt(m, ram', a + i) == ByteAt(m, ram', v);
    assert back[j] == ByteAt(m, ram', a + j) == ByteAt(m, ram', w);
    assert bytes[i] != bytes[j];
  }

  /**
   * In a root filled only through address spaces, an accepted range is one that user mode itself may
   * access: the permission combined over all four levels allows it.
   */
  lemma AcceptedIsPermitted(m: Machine, a: nat, writable: bool)
    requires OpenUser(m.mem, m.active) && USER_BASE <= a < USER_TOP
    ensures UserByte(m, a, writable) <==>
      var w := Walk(m.mem, m.active, PathOf(a));
      w.Some? && |w.value| == LEVELS && UserAllowed(w.value) && (writable ==> WriteAllowed(w.value))
  {
    UserHalf(a);
    if Lookup(m.mem, m.active, PathOf(a)).Some? {
      LeafDecides(m.mem, m.active, PathOf(a));
    }
  }
}
