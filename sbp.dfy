/**
 * The Neo Geo "Super Bubble Pop" cartridge: reads from its protected ROM
 * window come back with the two nibbles of each byte exchanged (except at
 * one address, which returns the ROM word as stored), writes to the window
 * have no effect, and loading the cartridge patches four words of the
 * program ROM.
 *
 * The ROM is a sequence of 16-bit words; the choice between the cartridge
 * ROM and the region ROM is made by the framework and is not modelled.
 */
module NeoGeoSbp {
  import opened BitOps

  /** Bit `b` of `w`, as the value 0 or 1. */
  function BitAt(w: bv16, b: nat): bv16
    requires b < 16
  {
    (w >> b) & 1
  }

  /**
   * bitswap<16>: bit 15 of the result is bit `b15` of `w`, bit 14 is bit
   * `b14`, and so on down to bit 0, which is bit `b0`.
   */
  function Bitswap16(w: bv16, b15: nat, b14: nat, b13: nat, b12: nat, b11: nat, b10: nat, b9: nat, b8: nat,
                     b7: nat, b6: nat, b5: nat, b4: nat, b3: nat, b2: nat, b1: nat, b0: nat): bv16
    requires b15 < 16 && b14 < 16 && b13 < 16 && b12 < 16 && b11 < 16 && b10 < 16 && b9 < 16 && b8 < 16
    requires b7 < 16 && b6 < 16 && b5 < 16 && b4 < 16 && b3 < 16 && b2 < 16 && b1 < 16 && b0 < 16
  {
    (BitAt(w, b15) << 15) | (BitAt(w, b14) << 14) | (BitAt(w, b13) << 13) | (BitAt(w, b12) << 12) |
    (BitAt(w, b11) << 11) | (BitAt(w, b10) << 10) | (BitAt(w, b9) << 9) | (BitAt(w, b8) << 8) |
    (BitAt(w, b7) << 7) | (BitAt(w, b6) << 6) | (BitAt(w, b5) << 5) | (BitAt(w, b4) << 4) |
    (BitAt(w, b3) << 3) | (BitAt(w, b2) << 2) | (BitAt(w, b1) << 1) | BitAt(w, b0)
  }

  /** The permutation applied to every protected read. */
  function Scramble(w: bv16): bv16
  {
    Bitswap16(w, 11, 10, 9, 8, 15, 14, 13, 12, 3, 2, 1, 0, 7, 6, 5, 4)
  }

  /** The two nibbles of each byte exchanged. */
  function NibbleSwap(w: bv16): bv16
  {
    ((w & 0x0f0f) << 4) | ((w & 0xf0f0) >> 4)
  }

  /** The read permutation is the nibble exchange. */
  lemma ScrambleIsNibbleSwap(w: bv16)
    ensures Scramble(w) == NibbleSwap(w)
  {
  }

  /** Exchanging the nibbles twice gives the word back, so the exchange is its own inverse. */
  lemma NibbleSwapInvolution(w: bv16)
    ensures NibbleSwap(NibbleSwap(w)) == w
  {
  }

  /** The exchange keeps each byte in its place: the high byte depends only on the high byte. */
  lemma NibbleSwapBytes(w: bv16)
    ensures NibbleSwap(w) & 0xff00 == NibbleSwap(w & 0xff00)
    ensures NibbleSwap(w) & 0x00ff == NibbleSwap(w & 0x00ff)
  {
  }

  /** Distinct words read back as distinct words. */
  lemma ScrambleInjective(v: bv16, w: bv16)
    requires Scramble(v) == Scramble(w)
    ensures v == w
  {
    ScrambleIsNibbleSwap(v);
    ScrambleIsNibbleSwap(w);
    NibbleSwapInvolution(v);
    NibbleSwapInvolution(w);
  }

  /** The 32-bit window offset of the bus access, as the byte address 0x200 + 2 * offset modulo 2^32. */
  function RealOffset(offset: int): (a: int)
    ensures 0 <= a < U32 && (0x200 + offset * 2 - a) % U32 == 0
  {
    Wrap32(0x200 + offset * 2)
  }

  /** The byte address that returns the stored word, and the one that takes the watchdog writes. */
  const RawAddress: int := 0xd5e
  const WatchdogAddress: int := 0x1080

  /** Exactly two 32-bit offsets reach the raw address, the second only because 2 * offset wraps. */
  lemma RawAddressOffsets(offset: int)
    requires 0 <= offset < U32
    ensures RealOffset(offset) == RawAddress <==> offset == 0x5af || offset == 0x8000_05af
  {
    OffsetsOf(offset, 0x5af);
  }

  /** Exactly two 32-bit offsets reach the watchdog address. */
  lemma WatchdogAddressOffsets(offset: int)
    requires 0 <= offset < U32
    ensures RealOffset(offset) == WatchdogAddress <==> offset == 0x740 || offset == 0x8000_0740
  {
    OffsetsOf(offset, 0x740);
  }

  /** RealOffset takes `offset` to 0x200 + 2 * k exactly when `offset` is k or k + 2^31. */
  lemma OffsetsOf(offset: int, k: int)
    requires 0 <= offset < U32
    requires 0 <= k < 0x8000_0000 - 0x100
    ensures RealOffset(offset) == 0x200 + 2 * k <==> offset == k || offset == k + 0x8000_0000
  {
    var s := 0x200 + offset * 2;
    if offset < 0x8000_0000 - 0x100 {
      assert RealOffset(offset) == s;
    } else if offset < 0x8000_0000 {
      assert s - U32 < 0x200 && U32 <= s;
      assert RealOffset(offset) == s - U32;
    } else if offset < U32 - 0x100 {
      assert RealOffset(offset) == s - U32;
    } else {
      assert RealOffset(offset) == s - 2 * U32;
    }
  }

  /** The ROM word behind window offset `offset`: word 0x100 + offset, the index computed in 32 bits. */
  function WordIndex(offset: int): (i: int)
    ensures 0 <= i < U32 && (offset + 0x100 - i) % U32 == 0
  {
    Wrap32(offset + 0x100)
  }

  /**
   * protection_r: the ROM word behind the offset, returned as stored at byte
   * address 0xd5e and with its nibbles exchanged everywhere else.
   */
  function ProtectionR(rom: seq<bv16>, offset: int): (r: bv16)
    requires 0 <= WordIndex(offset) < |rom|
    ensures RealOffset(offset) == RawAddress ==> r == rom[WordIndex(offset)]
    ensures RealOffset(offset) != RawAddress ==> r == NibbleSwap(rom[WordIndex(offset)])
  {
    var orig := rom[WordIndex(offset)];
    var data := Scramble(orig);
    ScrambleIsNibbleSwap(orig);
    if RealOffset(offset) == RawAddress then orig else data
  }

  /** The stored word can always be recovered from what protection_r returns. */
  lemma ProtectionRDecodes(rom: seq<bv16>, offset: int)
    requires 0 <= WordIndex(offset) < |rom|
    ensures RealOffset(offset) == RawAddress ==> ProtectionR(rom, offset) == rom[WordIndex(offset)]
    ensures RealOffset(offset) != RawAddress ==> NibbleSwap(ProtectionR(rom, offset)) == rom[WordIndex(offset)]
  {
    NibbleSwapInvolution(rom[WordIndex(offset)]);
  }

  /** What a protection_w call does: return quietly, or report the write. It changes nothing else. */
  datatype WriteOutcome = Acknowledged | Reported(address: int, data: bv16)

  /**
   * protection_w: the sentinels 0x4e75 and 0xffff at byte address 0x1080 return
   * at once; every other write is reported with its byte address. The lane
   * mask is ignored and no state is written.
   */
  function ProtectionW(offset: int, data: bv16, mask: bv16): (r: WriteOutcome)
    ensures r == Acknowledged <==> RealOffset(offset) == WatchdogAddress && (data == 0x4e75 || data == 0xffff)
    ensures r.Reported? ==> r.address == RealOffset(offset) && r.data == data
  {
    var address := RealOffset(offset);
    if address == WatchdogAddress && data == 0x4e75 then Acknowledged
    else if address == WatchdogAddress && data == 0xffff then Acknowledged
    else Reported(address, data)
  }

  /** The words patch overwrites, as word indices into the program ROM, and the values it puts there. */
  const NopWord0: int := 0x2a6f8 / 2
  const NopWord1: int := 0x2a6fa / 2
  const NopWord2: int := 0x2a6fc / 2
  const JoystickWord: int := 0x3ff2d / 2
  const Nop: bv16 := 0x4e71
  const MoveqOne: bv16 := 0x7001

  /** The smallest ROM the patch stays inside. */
  const PatchedSize: int := JoystickWord + 1

  predicate Patched(i: int)
  {
    i == NopWord0 || i == NopWord1 || i == NopWord2 || i == JoystickWord
  }

  /** The ROM after patch: the three words at byte 0x2a6f8 become NOPs and the word at 0x3ff2c becomes moveq #1. */
  function PatchSpec(rom: seq<bv16>): (r: seq<bv16>)
    requires PatchedSize <= |rom|
    ensures |r| == |rom|
    ensures r[NopWord0] == Nop && r[NopWord1] == Nop && r[NopWord2] == Nop
    ensures r[JoystickWord] == MoveqOne
    ensures forall i :: 0 <= i < |rom| && !Patched(i) ==> r[i] == rom[i]
  {
    rom[NopWord0 := Nop][NopWord1 := Nop][NopWord2 := Nop][JoystickWord := MoveqOne]
  }

  /** Patching twice leaves the ROM as patching once does. */
  lemma PatchIdempotent(rom: seq<bv16>)
    requires PatchedSize <= |rom|
    ensures PatchSpec(PatchSpec(rom)) == PatchSpec(rom)
  {
    var once := PatchSpec(rom);
    var twice := PatchSpec(once);
    assert forall i :: 0 <= i < |rom| ==> twice[i] == once[i];
  }

  /** A patched ROM is a fixed point of the patch, and only a patched ROM is. */
  lemma PatchFixedPoints(rom: seq<bv16>)
    requires PatchedSize <= |rom|
    ensures PatchSpec(rom) == rom <==>
      rom[NopWord0] == Nop && rom[NopWord1] == Nop && rom[NopWord2] == Nop && rom[JoystickWord] == MoveqOne
  {
    if rom[NopWord0] == Nop && rom[NopWord1] == Nop && rom[NopWord2] == Nop && rom[JoystickWord] == MoveqOne {
      assert forall i :: 0 <= i < |rom| ==> PatchSpec(rom)[i] == rom[i];
    }
  }

  /**
   * Reading the window after patch: a word patch did not touch reads as it
   * did before, and a patched word reads as its new value with the nibbles
   * exchanged, since no patched word lies behind the raw address.
   */
  lemma PatchedRead(rom: seq<bv16>, offset: int)
    requires PatchedSize <= |rom|
    requires 0 <= offset < U32 && WordIndex(offset) < |rom|
    ensures !Patched(WordIndex(offset)) ==> ProtectionR(PatchSpec(rom), offset) == ProtectionR(rom, offset)
    ensures WordIndex(offset) in {NopWord0, NopWord1, NopWord2} ==> ProtectionR(PatchSpec(rom), offset) == NibbleSwap(Nop)
    ensures WordIndex(offset) == JoystickWord ==> ProtectionR(PatchSpec(rom), offset) == NibbleSwap(MoveqOne)
  {
    RawAddressOffsets(offset);
    if RealOffset(offset) == RawAddress {
      assert !Patched(WordIndex(offset));
    }
  }

  /** patch: overwrites the four words in place; the size is not checked by the source and is required here. */
  method Patch(rom: array<bv16>)
    requires PatchedSize <= rom.Length
    modifies rom
    ensures rom[..] == PatchSpec(old(rom[..]))
  {
    rom[NopWord0] := Nop;
    rom[NopWord1] := Nop;
    rom[NopWord2] := Nop;
    rom[JoystickWord] := MoveqOne;
  }
}
