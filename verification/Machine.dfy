/** The data the memory manager works on: 64-bit words, frames, and the kernel's ways of stopping. */
module Machine {

  /** Words in a frame (PAGE_SIZE / 8), which is also the number of entries of a page table. */
  const WORDS: nat := 512

  /** The bits of a 64-bit word outside PAGE_FRAME_MASK. `rest` is the remaining twenty bits as one number. */
  datatype Bits = Bits(present: bool, writable: bool, user: bool, huge: bool, rest: nat)

  /** A 64-bit word, split losslessly at PAGE_FRAME_MASK: `pfn` is bits 12 to 51, `bits` is everything else.
      Words of user data have the same type, so a stray store could corrupt a page table. */
  datatype Word = Word(pfn: nat, bits: Bits)

  const NO_BITS := Bits(false, false, false, false, 0)
  const ZERO := Word(0, NO_BITS)

  type Frame = seq<Word>

  function ZeroFrame(): (f: Frame)
    ensures |f| == WORDS && forall i | 0 <= i < WORDS :: f[i] == ZERO
  {
    seq(WORDS, _ => ZERO)
  }

  type Table = t: Frame | |t| == WORDS witness ZeroFrame()

  /** The PML4 the kernel runs on, whatever is in it. */
  const KERNEL: Table

  /** Why the kernel called kpanic or failed an assert. */
  datatype Reason =
    | OutOfMemory
    | NotFree
    | FreeWithReferences
    | FreeWithMappings
    | Poisoned
    | NotUsed
    | UsedWithoutReference
    | StillMapped
    | AssertFailed
    | NoBootRegion

  /** Whether the kernel is still running after a call. */
  datatype Status = Ok | Panic(reason: Reason) {
    predicate IsFailure() { Panic? }

    function PropagateFailure(): Status { this }
  }
}
