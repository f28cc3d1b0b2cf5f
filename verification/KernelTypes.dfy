/** Status codes, page geometry and small wrappers shared by every kernel component. */
module KernelTypes {
  /** The status codes of the kernel; anything but Ok is an error return. */
  datatype Status = Ok | Inval | NoMem | NoEnt | Perm | Bounds | Busy | NotSup

  datatype Option<+T> = None | Some(value: T)

  datatype Result<+T> = Good(value: T) | Bad(error: Status)

  const PAGE_SIZE: nat := 4096

  /** Physical addresses have 52 bits. */
  const PHYS_END: nat := 0x10_0000_0000_0000

  /** One past the largest 32-bit and 64-bit unsigned values. */
  const TWO32: nat := 0x1_0000_0000
  const TWO64: nat := 0x1_0000_0000_0000_0000

  predicate PageAligned(value: nat) {
    value % PAGE_SIZE == 0
  }

  predicate NoDup<T(==)>(s: seq<T>) {
    forall i, j :: 0 <= i < j < |s| ==> s[i] != s[j]
  }

  /** A sequence without repetition has as many elements as its set of elements. */
  lemma {:induction false} NoDupCount<T>(s: seq<T>)
    requires NoDup(s)
    ensures |set x | x in s| == |s|
  {
    if s != [] {
      var front := s[..|s| - 1];
      NoDupCount(front);
      assert (set x | x in s) == (set x | x in front) + {s[|s| - 1]};
    }
  }
}
