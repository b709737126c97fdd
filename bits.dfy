/**
 * Bit-level helpers shared by the MB86292 model: the framework's masked
 * register merge (COMBINE_DATA), truncation to a register's width, and
 * unsigned 32-bit address arithmetic. A register narrower than its bus
 * keeps only its own bits, so a masked write into it is the merge, at the
 * register's width, of the truncated data under the truncated mask; the
 * CombineData lemmas show this is COMBINE_DATA followed by the truncation.
 *
 * The bit-vector functions carry no postconditions of their own; their laws
 * are lemmas, so that each use brings in only the facts it asks for.
 */
module BitOps {
  import MergeWidths

  /** 2^32: C++ `u32` arithmetic is arithmetic modulo this constant. */
  const U32: int := 0x1_0000_0000

  /** The value of an `int`-valued `u32` expression: reduced modulo 2^32. */
  function Wrap32(x: int): (r: int)
    ensures 0 <= r < U32
    ensures (x - r) % U32 == 0
  {
    x % U32
  }

  /** COMBINE_DATA on a 32-bit register: bits selected by `mask` from `data`, the rest from `prev`. */
  function Combine32(prev: bv32, data: bv32, mask: bv32): bv32
  {
    (prev & !mask) | (data & mask)
  }

  lemma Combine32Laws(prev: bv32, data: bv32, mask: bv32)
    ensures Combine32(prev, data, mask) & mask == data & mask
    ensures Combine32(prev, data, mask) & !mask == prev & !mask
  {
  }

  /** COMBINE_DATA on a 26-bit address register: bits selected by `mask` from `data`, the rest from `prev`. */
  function Combine26(prev: bv26, data: bv26, mask: bv26): bv26
  {
    (prev & !mask) | (data & mask)
  }

  lemma Combine26Laws(prev: bv26, data: bv26, mask: bv26)
    ensures Combine26(prev, data, mask) & mask == data & mask
    ensures Combine26(prev, data, mask) & !mask == prev & !mask
  {
  }

  /** COMBINE_DATA on a 24-bit register: bits selected by `mask` from `data`, the rest from `prev`. */
  function Combine24(prev: bv24, data: bv24, mask: bv24): bv24
  {
    (prev & !mask) | (data & mask)
  }

  lemma Combine24Laws(prev: bv24, data: bv24, mask: bv24)
    ensures Combine24(prev, data, mask) & mask == data & mask
    ensures Combine24(prev, data, mask) & !mask == prev & !mask
  {
  }

  /** COMBINE_DATA on a 16-bit register: bits selected by `mask` from `data`, the rest from `prev`. */
  function Combine16(prev: bv16, data: bv16, mask: bv16): bv16
  {
    (prev & !mask) | (data & mask)
  }

  lemma Combine16Laws(prev: bv16, data: bv16, mask: bv16)
    ensures Combine16(prev, data, mask) & mask == data & mask
    ensures Combine16(prev, data, mask) & !mask == prev & !mask
  {
  }

  /** COMBINE_DATA on a 12-bit register: bits selected by `mask` from `data`, the rest from `prev`. */
  function Combine12(prev: bv12, data: bv12, mask: bv12): bv12
  {
    (prev & !mask) | (data & mask)
  }

  lemma Combine12Laws(prev: bv12, data: bv12, mask: bv12)
    ensures Combine12(prev, data, mask) & mask == data & mask
    ensures Combine12(prev, data, mask) & !mask == prev & !mask
  {
  }

  /** The low 26 bits of a 32-bit value. */
  function Low26(x: bv32): bv26
  {
    (x & 0x3ff_ffff) as bv26
  }

  lemma Low26Widens(x: bv32)
    ensures Low26(x) as bv32 == x & 0x3ff_ffff
  {
  }

  /** The low 24 bits of a 32-bit value. */
  function Low24(x: bv32): bv24
  {
    (x & 0xff_ffff) as bv24
  }

  lemma Low24Widens(x: bv32)
    ensures Low24(x) as bv32 == x & 0xff_ffff
  {
  }

  /** The low 16 bits of a 32-bit value. */
  function Low16(x: bv32): bv16
  {
    (x & 0xffff) as bv16
  }

  lemma Low16Widens(x: bv32)
    ensures Low16(x) as bv32 == x & 0xffff
  {
  }

  /** The low 12 bits of a 32-bit value. */
  function Low12(x: bv32): bv12
  {
    (x & 0xfff) as bv12
  }

  lemma Low12Widens(x: bv32)
    ensures Low12(x) as bv32 == x & 0xfff
  {
  }

  /** The low 12 bits of a 16-bit value. */
  function Low12Of16(x: bv16): bv12
  {
    (x & 0xfff) as bv12
  }

  lemma Low12Of16Widens(x: bv16)
    ensures Low12Of16(x) as bv16 == x & 0xfff
  {
  }

  /** The low 6 bits of a 8-bit value. */
  function Low6(x: bv8): bv6
  {
    (x & 0x3f) as bv6
  }

  lemma Low6Widens(x: bv8)
    ensures Low6(x) as bv8 == x & 0x3f
  {
  }

  /** A write with every lane selected stores the data. */
  lemma Combine26Full(prev: bv26, data: bv26)
    ensures Combine26(prev, data, 0x3ff_ffff) == data
  {
  }

  lemma Low26Full()
    ensures Low26(0xffff_ffff) == 0x3ff_ffff
  {
  }

  /** A write with every lane selected stores the data. */
  lemma Combine16Full(prev: bv16, data: bv16)
    ensures Combine16(prev, data, 0xffff) == data
  {
  }

  lemma Low16Full()
    ensures Low16(0xffff_ffff) == 0xffff
  {
  }

  /** A write with every lane selected stores the data. */
  lemma Combine12Full(prev: bv12, data: bv12)
    ensures Combine12(prev, data, 0xfff) == data
  {
  }

  lemma Low12Full()
    ensures Low12(0xffff_ffff) == 0xfff
  {
  }

  /*
   * The merge at a register's width agrees with what the source does on the
   * full-width variable: COMBINE_DATA on the stored value, then `&=` to the
   * register's width. The NarrowMergeUnfolds and WideMergeUnfolds helpers
   * unfold the two merges one at a time, so that each CombineData proof is a
   * single step over the MergeWidths fact.
   */

  lemma CombineData26(prev: bv26, data: bv32, mask: bv32)
    ensures Combine26(prev, Low26(data), Low26(mask)) as bv32 == Combine32(prev as bv32, data, mask) & 0x3ff_ffff
  {
    NarrowMergeUnfolds26(prev, data, mask);
    WideMergeUnfolds26(prev, data, mask);
    MergeWidths.Merge26(prev, data, mask);
  }

  lemma NarrowMergeUnfolds26(p: bv26, d: bv32, mk: bv32)
    ensures Combine26(p, Low26(d), Low26(mk)) == (p & !((mk & 0x3ff_ffff) as bv26)) | (((d & 0x3ff_ffff) as bv26) & ((mk & 0x3ff_ffff) as bv26))
  {
  }

  lemma WideMergeUnfolds26(p: bv26, d: bv32, mk: bv32)
    ensures Combine32(p as bv32, d, mk) & 0x3ff_ffff == ((p as bv32 & !mk) | (d & mk)) & 0x3ff_ffff
  {
  }

  lemma CombineData24(prev: bv24, data: bv32, mask: bv32)
    ensures Combine24(prev, Low24(data), Low24(mask)) as bv32 == Combine32(prev as bv32, data, mask) & 0xff_ffff
  {
    NarrowMergeUnfolds24(prev, data, mask);
    WideMergeUnfolds24(prev, data, mask);
    MergeWidths.Merge24(prev, data, mask);
  }

  lemma NarrowMergeUnfolds24(p: bv24, d: bv32, mk: bv32)
    ensures Combine24(p, Low24(d), Low24(mk)) == (p & !((mk & 0xff_ffff) as bv24)) | (((d & 0xff_ffff) as bv24) & ((mk & 0xff_ffff) as bv24))
  {
  }

  lemma WideMergeUnfolds24(p: bv24, d: bv32, mk: bv32)
    ensures Combine32(p as bv32, d, mk) & 0xff_ffff == ((p as bv32 & !mk) | (d & mk)) & 0xff_ffff
  {
  }

  lemma CombineData16(prev: bv16, data: bv32, mask: bv32)
    ensures Combine16(prev, Low16(data), Low16(mask)) as bv32 == Combine32(prev as bv32, data, mask) & 0xffff
  {
    NarrowMergeUnfolds16(prev, data, mask);
    WideMergeUnfolds16(prev, data, mask);
    MergeWidths.Merge16(prev, data, mask);
  }

  lemma NarrowMergeUnfolds16(p: bv16, d: bv32, mk: bv32)
    ensures Combine16(p, Low16(d), Low16(mk)) == (p & !((mk & 0xffff) as bv16)) | (((d & 0xffff) as bv16) & ((mk & 0xffff) as bv16))
  {
  }

  lemma WideMergeUnfolds16(p: bv16, d: bv32, mk: bv32)
    ensures Combine32(p as bv32, d, mk) & 0xffff == ((p as bv32 & !mk) | (d & mk)) & 0xffff
  {
  }

  lemma CombineData12(prev: bv12, data: bv32, mask: bv32)
    ensures Combine12(prev, Low12(data), Low12(mask)) as bv32 == Combine32(prev as bv32, data, mask) & 0xfff
  {
    NarrowMergeUnfolds12(prev, data, mask);
    WideMergeUnfolds12(prev, data, mask);
    MergeWidths.Merge12(prev, data, mask);
  }

  lemma NarrowMergeUnfolds12(p: bv12, d: bv32, mk: bv32)
    ensures Combine12(p, Low12(d), Low12(mk)) == (p & !((mk & 0xfff) as bv12)) | (((d & 0xfff) as bv12) & ((mk & 0xfff) as bv12))
  {
  }

  lemma WideMergeUnfolds12(p: bv12, d: bv32, mk: bv32)
    ensures Combine32(p as bv32, d, mk) & 0xfff == ((p as bv32 & !mk) | (d & mk)) & 0xfff
  {
  }

  /** The 16-bit CRTC ports: COMBINE_DATA on a u16, then `&= 0xfff`. */
  lemma CombineData12Of16(prev: bv12, data: bv16, mask: bv16)
    ensures Combine12(prev, Low12Of16(data), Low12Of16(mask)) as bv16 == ((prev as bv16 & !mask) | (data & mask)) & 0xfff
  {
    MergeWidths.Merge12Of16(prev, data, mask);
  }

  /** The two laws of Combine32 determine the merged value completely. */
  lemma Combine32Unique(prev: bv32, data: bv32, mask: bv32, r: bv32)
    requires r & mask == data & mask
    requires r & !mask == prev & !mask
    ensures r == Combine32(prev, data, mask)
  {
    Split32(r, mask);
    Split32(Combine32(prev, data, mask), mask);
    Combine32Laws(prev, data, mask);
  }

  /** Every value is the union of its selected and its unselected bits. */
  lemma Split32(r: bv32, mask: bv32)
    ensures r == (r & mask) | (r & !mask)
  {
  }

  /** `x |= bits`. */
  function SetBits(x: bv32, bits: bv32): bv32
  {
    x | bits
  }

  /** The given bits are set, every other bit is kept. */
  lemma SetBitsLaws(x: bv32, bits: bv32)
    ensures SetBits(x, bits) & bits == bits
    ensures SetBits(x, bits) & !bits == x & !bits
  {
  }

  /** `x &= data`. */
  function KeepBits(x: bv32, data: bv32): bv32
  {
    x & data
  }

  /** Bits where `data` is 1 are kept, the others are cleared, none is set. */
  lemma KeepBitsLaws(x: bv32, data: bv32)
    ensures KeepBits(x, data) & data == x & data
    ensures KeepBits(x, data) & !data == 0
    ensures KeepBits(x, data) & !x == 0
  {
  }

  /** No bit of (KeepBits(ist, data) & mask) is new: it was already in (ist & mask). */
  lemma KeepBitsNoNewBits(ist: bv32, data: bv32, mask: bv32)
    ensures KeepBits(ist, data) & mask & !(ist & mask) == 0
  {
  }
}

/**
 * The width-agreement facts behind the CombineData lemmas of BitOps, stated
 * on bare bit-vector expressions rather than on the BitOps functions.
 */
module MergeWidths {

  lemma Merge26(p: bv26, d: bv32, mk: bv32)
    ensures ((p & !((mk & 0x3ff_ffff) as bv26)) | (((d & 0x3ff_ffff) as bv26) & ((mk & 0x3ff_ffff) as bv26))) as bv32 == ((p as bv32 & !mk) | (d & mk)) & 0x3ff_ffff
  {
  }

  lemma Merge24(p: bv24, d: bv32, mk: bv32)
    ensures ((p & !((mk & 0xff_ffff) as bv24)) | (((d & 0xff_ffff) as bv24) & ((mk & 0xff_ffff) as bv24))) as bv32 == ((p as bv32 & !mk) | (d & mk)) & 0xff_ffff
  {
  }

  lemma Merge16(p: bv16, d: bv32, mk: bv32)
    ensures ((p & !((mk & 0xffff) as bv16)) | (((d & 0xffff) as bv16) & ((mk & 0xffff) as bv16))) as bv32 == ((p as bv32 & !mk) | (d & mk)) & 0xffff
  {
  }

  lemma Merge12(p: bv12, d: bv32, mk: bv32)
    ensures ((p & !((mk & 0xfff) as bv12)) | (((d & 0xfff) as bv12) & ((mk & 0xfff) as bv12))) as bv32 == ((p as bv32 & !mk) | (d & mk)) & 0xfff
  {
  }

  lemma Merge12Of16(p: bv12, d: bv16, mk: bv16)
    ensures ((p & !((mk & 0xfff) as bv12)) | (((d & 0xfff) as bv12) & ((mk & 0xfff) as bv12))) as bv16 == ((p as bv16 & !mk) | (d & mk)) & 0xfff
  {
  }
}
