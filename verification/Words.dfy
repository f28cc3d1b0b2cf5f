/**
 * Raw 64-bit page-table entries and virtual addresses. Every mask and shift of the kernel is
 * written as division and remainder by a constant.
 */
module Words {
  import opened KernelTypes
  import opened PageTables

  // ----- entries -------------------------------------------------------------------------

  predicate Present(w: nat) { w % 2 == 1 }
  predicate Writable(w: nat) { w / 2 % 2 == 1 }
  predicate User(w: nat) { w / 4 % 2 == 1 }
  predicate Huge(w: nat) { w / 128 % 2 == 1 }

  /** Bits 12 to 51. */
  function Frame(w: nat): nat { w / 4096 % 0x100_0000_0000 * 4096 }

  function Decode(w: nat): Entry {
    Entry(Present(w), Writable(w), User(w), Huge(w), Frame(w))
  }

  /**
   * Section 4.5 of the Intel SDM Volume 3A: bit 0 is present, bit 1 writable, bit 2 user, bit 7 large page, bits 12
   * to 51 are the address; the other bits do not matter here.
   */
  lemma EntryLayout(w: nat, p: nat, rw: nat, us: nat, low: nat, ps: nat, mid: nat, frame: nat, high: nat)
    requires p < 2 && rw < 2 && us < 2 && low < 16 && ps < 2 && mid < 16 && frame < 0x100_0000_0000
    requires w == p + 2 * rw + 4 * us + 8 * low + 128 * ps + 256 * mid + 4096 * frame + 0x10_0000_0000_0000 * high
    ensures Decode(w) == Entry(p == 1, rw == 1, us == 1, ps == 1, 4096 * frame)
  {
    var f := frame + 0x100_0000_0000 * high;
    LowBit(w, p, rw + 2 * us + 4 * low + 64 * ps + 128 * mid + 2048 * f);
    LowBit(w / 2, rw, us + 2 * low + 32 * ps + 64 * mid + 1024 * f);
    assert w / 4 == us + 2 * (low + 16 * ps + 32 * mid + 512 * f);
    LowBit(w / 4, us, low + 16 * ps + 32 * mid + 512 * f);
    assert w / 128 == ps + 2 * (mid + 16 * f);
    LowBit(w / 128, ps, mid + 16 * f);
    assert w / 4096 == f;
    assert f % 0x100_0000_0000 == frame;
  }

  lemma LowBit(w: nat, bit: nat, rest: nat)
    requires bit < 2 && w == bit + 2 * rest
    ensures w % 2 == bit && w / 2 == rest
  {
  }

  lemma DecodeZero()
    ensures Decode(0) == ABSENT
  {
  }

  lemma LowBits(frame: nat, bits: nat)
    requires bits < 8
    ensures (frame * 4096 + bits) / 4096 == frame
    ensures (frame * 4096 + bits) % 2 == bits % 2
    ensures (frame * 4096 + bits) / 2 % 2 == bits / 2 % 2
    ensures (frame * 4096 + bits) / 4 % 2 == bits / 4
    ensures (frame * 4096 + bits) / 128 % 2 == 0
  {
    var w := frame * 4096 + bits;
    assert w / 4096 == frame;
    assert w % 2 == bits % 2 by { Even(frame * 2048, bits); }
    assert w / 2 % 2 == bits / 2 % 2 by {
      assert w / 2 == frame * 2048 + bits / 2;
      Even(frame * 1024, bits / 2);
    }
    assert w / 4 % 2 == bits / 4 by {
      assert w / 4 == frame * 1024 + bits / 4;
      Even(frame * 512, bits / 4);
    }
    assert w / 128 % 2 == 0 by {
      assert w / 128 == frame * 32;
      Even(frame * 16, 0);
    }
  }

  lemma Even(x: nat, b: nat)
    ensures (x * 2 + b) % 2 == b % 2
  {
  }

  /** The present entry for a page: its address bits together with the flag bits. */
  function MakeWord(page: nat, writable: bool, user: bool): (w: nat)
    ensures Decode(w) == Entry(true, writable, user, false, Frame(page))
  {
    var frame := page / 4096 % 0x100_0000_0000;
    var bits := 1 + (if writable then 2 else 0) + (if user then 4 else 0);
    LowBits(frame, bits);
    frame * 4096 + bits
  }

  /** A physical page address below 2^52 survives the address mask; a larger one loses its top bits. */
  lemma FrameFits(page: nat)
    requires PageAligned(page)
    ensures Frame(page) == page <==> page < PHYS_END
    ensures Frame(page) < PHYS_END && PageAligned(Frame(page))
  {
    var f := page / 4096;
    assert page == f * 4096;
    if page < PHYS_END {
      assert f < 0x100_0000_0000;
    }
  }

  // ----- addresses -----------------------------------------------------------------------

  /** The four table indices of an address: shift by 39, 30, 21 and 12, keep 9 bits. */
  function PathOf(virt: nat): (p: Path)
    ensures ValidPath(p)
  {
    Path(virt / 4096 / 512 / 512 / 512 % 512, virt / 4096 / 512 / 512 % 512, virt / 4096 / 512 % 512, virt / 4096 % 512)
  }

  /** Virtual addresses as the processor reads them: sign bits, four table indices, page offset. */
  ghost predicate Layout(virt: nat, high: nat, i4: nat, i3: nat, i2: nat, i1: nat, offset: nat) {
    && i4 < 512 && i3 < 512 && i2 < 512 && i1 < 512 && offset < 4096
    && virt == 0x1_0000_0000_0000 * high + 0x80_0000_0000 * i4 + 0x4000_0000 * i3 + 0x20_0000 * i2
               + 0x1000 * i1 + offset
  }

  /** The indices and the offset that the kernel takes from an address are the processor's. */
  lemma LayoutIsPath(virt: nat, high: nat, i4: nat, i3: nat, i2: nat, i1: nat, offset: nat)
    requires Layout(virt, high, i4, i3, i2, i1, offset)
    ensures PathOf(virt) == Path(i4, i3, i2, i1) && virt % 4096 == offset
  {
    var d := 0x10_0000_0000 * high + 0x800_0000 * i4 + 0x4_0000 * i3 + 0x200 * i2 + i1;
    var c := 0x800_0000 * high + 0x4_0000 * i4 + 0x200 * i3 + i2;
    var b := 0x4_0000 * high + 0x200 * i4 + i3;
    var a := 0x200 * high + i4;
    assert virt == 4096 * d + offset && d == 512 * c + i1 && c == 512 * b + i2 && b == 512 * a + i3;
    assert virt / 4096 == d && virt % 4096 == offset;
    assert d / 512 == c && d % 512 == i1;
    assert c / 512 == b && c % 512 == i2;
    assert b / 512 == a && b % 512 == i3;
    assert a % 512 == i4;
  }

  /** The kernel's own test: bits 48 to 63 are all zero or all one. */
  predicate AcceptedAddress(virt: nat) {
    virt / 0x1_0000_0000_0000 == 0 || virt / 0x1_0000_0000_0000 == 0xffff
  }

  /** That is the lowest and the highest 2^48 addresses. */
  lemma AcceptedRange(virt: nat)
    requires virt < TWO64
    ensures AcceptedAddress(virt) <==> virt < 0x1_0000_0000_0000 || virt >= TWO64 - 0x1_0000_0000_0000
  {
  }

  /** Section 3.3.7.1 of the Intel SDM Volume 1: bits 47 to 63 are all equal. */
  predicate Canonical(virt: nat) {
    virt < 0x8000_0000_0000 || 0xffff_8000_0000_0000 <= virt < TWO64
  }

  /** The lowest canonical address of the kernel half. */
  const KERNEL_BASE: nat := 0xffff_8000_0000_0000

  predicate CanonicalPage(virt: nat) { PageAligned(virt) && Canonical(virt) }

  /** The canonical address that has the same low 48 bits. */
  function Canon(virt: nat): (c: nat)
    ensures Canonical(c)
  {
    var low := virt % 0x1_0000_0000_0000;
    if low < 0x8000_0000_0000 then low else low + 0xffff_0000_0000_0000
  }

  lemma CanonFixed(virt: nat)
    requires Canonical(virt)
    ensures Canon(virt) == virt
  {
    if virt >= 0x8000_0000_0000 {
      assert virt - 0xffff * 0x1_0000_0000_0000 == virt % 0x1_0000_0000_0000;
    }
  }

  /** Addresses that agree in the low 48 bits use the same entries. */
  lemma PathPeriodic(virt: nat, m: nat)
    ensures PathOf(virt + 0x1_0000_0000_0000 * m) == PathOf(virt)
  {
    var w := virt + 0x1_0000_0000_0000 * m;
    assert w / 4096 == virt / 4096 + 0x10_0000_0000 * m;
    assert w / 4096 / 512 == virt / 4096 / 512 + 0x800_0000 * m;
    assert w / 4096 / 512 / 512 == virt / 4096 / 512 / 512 + 0x4_0000 * m;
    assert w / 4096 / 512 / 512 / 512 == virt / 4096 / 512 / 512 / 512 + 0x200 * m;
  }

  lemma OffsetPeriodic(virt: nat, m: nat)
    ensures (virt + 0x1_0000_0000_0000 * m) % 4096 == virt % 4096
  {
    assert virt + 0x1_0000_0000_0000 * m == virt + 4096 * (0x10_0000_0000 * m);
  }

  /** What the kernel accepts as an address is looked up under its canonical form. */
  lemma CanonSamePath(virt: nat)
    ensures PathOf(Canon(virt)) == PathOf(virt)
    ensures Canon(virt) % 4096 == virt % 4096
  {
    var low, m := virt % 0x1_0000_0000_0000, virt / 0x1_0000_0000_0000;
    assert PathOf(virt) == PathOf(low) && virt % 4096 == low % 4096 by {
      assert virt == low + 0x1_0000_0000_0000 * m;
      PathPeriodic(low, m);
      OffsetPeriodic(low, m);
    }
    if low >= 0x8000_0000_0000 {
      assert Canon(virt) == low + 0x1_0000_0000_0000 * 0xffff;
      PathPeriodic(low, 0xffff);
      OffsetPeriodic(low, 0xffff);
    }
  }

  /** The top index tells the half, and with it the bits above it. */
  lemma TopBits(p: nat)
    requires p < 0x8_0000_0000 || 0xf_fff8_0000_0000 <= p < 0x10_0000_0000_0000
    ensures p / 0x10_0000_0000 == if p / 512 / 512 / 512 % 512 < KERNEL_HALF then 0 else 0xffff
  {
    var c := p / 512 / 512 / 512;
    assert c == p / 0x800_0000;
    assert p / 0x10_0000_0000 == c / 512;
  }

  /** The path determines a canonical page, so no two canonical pages share a leaf slot. */
  lemma PathDetermines(v: nat, w: nat)
    requires CanonicalPage(v) && CanonicalPage(w) && PathOf(v) == PathOf(w)
    ensures v == w
  {
    var p, q := v / 4096, w / 4096;
    assert p == q by {
      TopBits(p);
      TopBits(q);
      SplitPage(p);
      SplitPage(q);
    }
  }

  lemma SplitPage(p: nat)
    ensures p == p % 512 + 512 * (p / 512 % 512) + 0x4_0000 * (p / 512 / 512 % 512)
            + 0x800_0000 * (p / 512 / 512 / 512 % 512) + 0x10_0000_0000 * (p / 0x10_0000_0000)
  {
    var a, b, c := p / 512, p / 512 / 512, p / 512 / 512 / 512;
    var d := c / 512;
    assert p == p % 512 + 512 * (a % 512) + 0x4_0000 * (b % 512) + 0x800_0000 * (c % 512) + 0x10_0000_0000 * d;
    assert d == p / 0x10_0000_0000;
  }
}
