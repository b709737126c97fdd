/**
 * What screen_update shows: the display is blank unless DCE enables it,
 * and otherwise each frame-buffer pixel is an RGB555 word expanded to eight
 * bits per channel by the framework's pal555 (red in bits 14-10, green in
 * bits 9-5, blue in bits 4-0; each 5-bit channel c becomes c << 3 | c >> 2).
 */
module ScreenOutput {

  datatype Rgb = Rgb(r: int, g: int, b: int)

  const Black: Rgb := Rgb(0, 0, 0)

  /** DCE bit 15 is the display enable; bits 3-0 enable the layers. Either being clear blanks the screen. */
  predicate Blanked(dce: bv16)
  {
    dce & 0x8000 == 0 || dce & 0xf == 0
  }

  /** pal5bit: a 5-bit channel widened to 8 bits by repeating its top bits below it. */
  function Pal5Bit(c: int): int
    requires 0 <= c < 32
  {
    c * 8 + c / 4
  }

  /** pal555 with the shifts 10, 5 and 0. */
  function Pal555(pixel: bv16): Rgb
  {
    var p := pixel as int;
    Rgb(Pal5Bit((p / 1024) % 32), Pal5Bit((p / 32) % 32), Pal5Bit(p % 32))
  }

  /** Each widened channel is a byte whose top five bits are the channel again; 0 and 31 map to 0 and 255. */
  lemma Pal5BitRange(c: int)
    requires 0 <= c < 32
    ensures 0 <= Pal5Bit(c) <= 255
    ensures Pal5Bit(c) / 8 == c
    ensures c == 0 <==> Pal5Bit(c) == 0
    ensures c == 31 <==> Pal5Bit(c) == 255
  {
  }

  /** The colour determines the low 15 bits of the pixel: pal555 loses only bit 15. */
  lemma Pal555Injective(p: bv16, q: bv16)
    requires Pal555(p) == Pal555(q)
    ensures p as int % 0x8000 == q as int % 0x8000
  {
    var a, b := p as int, q as int;
    assert (a / 1024) % 32 == (b / 1024) % 32 by {
      Pal5BitRange((a / 1024) % 32);
      Pal5BitRange((b / 1024) % 32);
    }
    assert (a / 32) % 32 == (b / 32) % 32 by {
      Pal5BitRange((a / 32) % 32);
      Pal5BitRange((b / 32) % 32);
    }
    assert a % 32 == b % 32 by {
      Pal5BitRange(a % 32);
      Pal5BitRange(b % 32);
    }
    Digits(a);
    Digits(b);
  }

  /** The low 15 bits of a value, as three 5-bit digits. */
  lemma Digits(a: int)
    requires 0 <= a
    ensures a % 0x8000 == ((a / 1024) % 32) * 1024 + ((a / 32) % 32) * 32 + a % 32
  {
    var q := a / 32;
    var q2 := q / 32;
    var lo, mid := a % 32, q % 32;
    assert a == q2 * 1024 + (mid * 32 + lo);
    assert a / 1024 == q2;
    var hi := q2 % 32;
    assert a == (q2 / 32) * 0x8000 + (hi * 1024 + mid * 32 + lo);
  }
}
