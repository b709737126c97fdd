/**
 * The MB86292's video RAM as a flat byte store with little-endian 16- and
 * 32-bit accessors (vram_read_word, vram_read_dword, vram_write_word).
 * The source performs no bounds check, so every accessor requires its
 * bytes to lie inside the store.
 */
module VideoMemory {

  /** The two bytes of the word at `a` lie inside `v`. */
  predicate WordInRange(v: seq<bv8>, a: int)
  {
    0 <= a && a + 1 < |v|
  }

  /** The four bytes of the dword at `a` lie inside `v`. */
  predicate DwordInRange(v: seq<bv8>, a: int)
  {
    0 <= a && a + 3 < |v|
  }

  /** Little-endian 16-bit read: the byte at `a` is the low half. */
  function ReadWord(v: seq<bv8>, a: int): (r: bv16)
    requires WordInRange(v, a)
    ensures (r & 0xff) as bv8 == v[a]
    ensures (r >> 8) as bv8 == v[a + 1]
  {
    (v[a + 1] as bv16 << 8) | v[a] as bv16
  }

  /** Little-endian 32-bit read, composed of two word reads. */
  function ReadDword(v: seq<bv8>, a: int): (r: bv32)
    requires DwordInRange(v, a)
    ensures (r & 0xffff) as bv16 == ReadWord(v, a)
    ensures (r >> 16) as bv16 == ReadWord(v, a + 2)
  {
    Dword(ReadWord(v, a + 2), ReadWord(v, a))
  }

  /** The dword whose high half is `hi` and whose low half is `lo`. */
  function Dword(hi: bv16, lo: bv16): bv32
  {
    (hi as bv32 << 16) | lo as bv32
  }

  /** Little-endian 16-bit write: changes exactly the bytes `a` and `a + 1`. */
  function WriteWord(v: seq<bv8>, a: int, w: bv16): (r: seq<bv8>)
    requires WordInRange(v, a)
    ensures |r| == |v|
    ensures ReadWord(r, a) == w
    ensures forall k :: 0 <= k < |v| && k != a && k != a + 1 ==> r[k] == v[k]
  {
    v[a := (w & 0xff) as bv8][a + 1 := (w >> 8) as bv8]
  }

  /** A word is determined by its two bytes. */
  lemma SameBytesSameWord(r: seq<bv8>, v: seq<bv8>, a: int)
    requires WordInRange(r, a) && WordInRange(v, a)
    requires r[a] == v[a] && r[a + 1] == v[a + 1]
    ensures ReadWord(r, a) == ReadWord(v, a)
  {
  }

  /** The word ranges [a, a+1] and [b, b+1] share no byte. */
  predicate WordsDisjoint(a: int, b: int)
  {
    a + 1 < b || b + 1 < a
  }

  /** A write leaves every word that shares no byte with it unchanged. */
  lemma ReadAfterOtherWrite(v: seq<bv8>, a: int, w: bv16, b: int)
    requires WordInRange(v, a) && WordInRange(v, b)
    requires WordsDisjoint(a, b)
    ensures ReadWord(WriteWord(v, a, w), b) == ReadWord(v, b)
  {
  }
}
