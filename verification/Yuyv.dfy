/** EX06-04: the colour of a pixel. Conversion from YUV, packing for 32 and 16 bits per pixel,
  and loading four bytes of YUYV data, as v4l2test.c does them.
 */
module Yuyv {

  // ----- Conversion -----

  // C division truncates toward zero.
  function CDiv(a: int, b: int): int
    requires b > 0
  {
    if a >= 0 then a / b else -((-a) / b)
  }

  // C conversion from double to int truncates toward zero.
  function Truncate(x: real): int {
    if x >= 0.0 then x.Floor else -((-x).Floor)
  }

  function Clamp(x: int): (r: int)
    ensures 0 <= r <= 255 && (0 <= x <= 255 ==> r == x) && (x < 0 ==> r == 0) && (x > 255 ==> r == 255)
  {
    if x > 255 then 255 else if x < 0 then 0 else x
  }

  // Exact reals stand for doubles: 1.4075 * (v - 128) is an integer only when v is 128 and
  // otherwise at least 1/400 away from one, so rounding does not reach the truncation.
  function Red(y: int, v: int): (r: int)
    ensures 0 <= r <= 255
  {
    Clamp(Truncate(y as real + 1.4075 * (v - 128) as real))
  }

  function Green(y: int, u: int, v: int): (g: int)
    ensures 0 <= g <= 255
  {
    Clamp(y - CDiv(3455 * (u - 128), 10000) - CDiv(7169 * (v - 128), 10000))
  }

  function Blue(y: int, u: int): (b: int)
    ensures 0 <= b <= 255
  {
    Clamp(y + CDiv(17790 * (u - 128), 10000))
  }

  lemma QuotientBounds(a: int, b: int, q: int)
    requires b > 0 && q == a / b
    ensures q * b <= a < (q + 1) * b
  {
    assert a == q * b + a % b;
    assert (q + 1) * b == q * b + b;
  }

  lemma Negated(q: int, b: int)
    ensures (-q) * b == -(q * b) && (-q - 1) * b == -((q + 1) * b)
  {
  }

  /** CDiv is the division that truncates: the quotient nearest zero. */
  lemma CDivTruncates(a: int, b: int)
    requires b > 0
    ensures a >= 0 ==> CDiv(a, b) * b <= a < (CDiv(a, b) + 1) * b
    ensures a <= 0 ==> (CDiv(a, b) - 1) * b < a <= CDiv(a, b) * b
  {
    var q, c := (if a >= 0 then a else -a) / b, CDiv(a, b);
    QuotientBounds(if a >= 0 then a else -a, b, q);
    if a == 0 {
      assert q == 0 && c == 0;
    } else if a < 0 {
      assert c == -q;
      hide CDiv;
      Negated(q, b);
    }
  }

  lemma FloorOfQuotient(n: int, x: real)
    requires x * 400.0 == n as real
    ensures x.Floor == n / 400
  {
    var q := n / 400;
    assert 400 * q <= n < 400 * q + 400;
    assert (400 * q) as real <= n as real < (400 * q + 400) as real;
    assert q as real <= x < (q + 1) as real;
  }

  /** The floating-point formula for red is an exact division by 400. */
  lemma RedIsExact(y: int, v: int)
    ensures Red(y, v) == Clamp(CDiv(400 * y + 563 * (v - 128), 400))
  {
    var n := 400 * y + 563 * (v - 128);
    var x := y as real + 1.4075 * (v - 128) as real;
    assert x * 400.0 == n as real;
    if x >= 0.0 {
      FloorOfQuotient(n, x);
    } else {
      FloorOfQuotient(-n, -x);
    }
  }

  // q is a / b without its fraction.
  predicate IsWholePart(q: int, a: int, b: int) {
    (a >= 0 ==> q * b <= a < (q + 1) * b) && (a <= 0 ==> (q - 1) * b < a <= q * b)
  }

  /** Green is the luma less the whole parts of 0.3455 * (u - 128) and 0.7169 * (v - 128), and
      the nearer end of the range where that lies outside. */
  lemma GreenFromProducts(y: int, u: int, v: int, p: int, q: int)
    requires IsWholePart(p, 3455 * (u - 128), 10000) && IsWholePart(q, 7169 * (v - 128), 10000)
    ensures 0 <= y - p - q <= 255 ==> Green(y, u, v) == y - p - q
    ensures y - p - q < 0 ==> Green(y, u, v) == 0
    ensures 255 < y - p - q ==> Green(y, u, v) == 255
  {
    CDivTruncates(3455 * (u - 128), 10000);
    CDivTruncates(7169 * (v - 128), 10000);
  }

  /** Blue is the luma and the whole part of 1.779 * (u - 128), or the nearer end of the range. */
  lemma BlueFromProduct(y: int, u: int, p: int)
    requires IsWholePart(p, 17790 * (u - 128), 10000)
    ensures 0 <= y + p <= 255 ==> Blue(y, u) == y + p
    ensures y + p < 0 ==> Blue(y, u) == 0
    ensures 255 < y + p ==> Blue(y, u) == 255
  {
    CDivTruncates(17790 * (u - 128), 10000);
  }

  /** Red is the whole part of the sum of the luma and 1.4075 * (v - 128), which is 563/400 of
      v - 128, or the nearer end of the range. */
  lemma RedFromSum(y: int, v: int, p: int)
    requires IsWholePart(p, 400 * y + 563 * (v - 128), 400)
    ensures 0 <= p <= 255 ==> Red(y, v) == p
    ensures p < 0 ==> Red(y, v) == 0
    ensures 255 < p ==> Red(y, v) == 255
  {
    RedIsExact(y, v);
    CDivTruncates(400 * y + 563 * (v - 128), 400);
  }

  /** Every product has one whole part, so the three lemmas above speak of every pixel. */
  lemma OneWholePart(a: int, b: int)
    requires b > 0
    ensures IsWholePart(CDiv(a, b), a, b)
    ensures forall q: int :: IsWholePart(q, a, b) ==> q == CDiv(a, b)
  {
    var c := CDiv(a, b);
    CDivTruncates(a, b);
    hide CDiv;
    forall q: int | IsWholePart(q, a, b)
      ensures q == c
    {
      if q < c {
        NoSmaller(q, c, b);
      } else if c < q {
        NoSmaller(c, q, b);
      }
    }
  }

  lemma NoSmaller(q: int, c: int, b: int)
    requires b > 0 && q < c
    ensures (q + 1) * b <= c * b && q * b <= (c - 1) * b
  {
    assert (c - q - 1) * b >= 0;
    assert (c - q - 1) * b == c * b - (q + 1) * b;
    assert (q + 1) * b == q * b + b && (c - 1) * b == c * b - b;
  }

  /** With neutral chroma the pixel is the grey of its luma. */
  lemma NeutralIsGrey(y: int)
    requires 0 <= y <= 255
    ensures Red(y, 128) == Green(y, 128, 128) == Blue(y, 128) == y
  {
    RedIsExact(y, 128);
  }

  // ----- Packing -----

  function Bytes32(w: bv32): (s: seq<bv8>)
    ensures |s| == 4
  {
    [(w & 0xff) as bv8, ((w >> 8) & 0xff) as bv8, ((w >> 16) & 0xff) as bv8, ((w >> 24) & 0xff) as bv8]
  }

  function Bytes16(w: bv16): (s: seq<bv8>)
    ensures |s| == 2
  {
    [(w & 0xff) as bv8, ((w >> 8) & 0xff) as bv8]
  }

  function Word888(r: bv32, g: bv32, b: bv32): bv32 {
    (r << 16) | (g << 8) | b
  }

  function Word565(r: bv32, g: bv32, b: bv32): bv16 {
    ((((r >> 3) << 11) | ((g >> 2) << 5) | (b >> 3)) & 0xffff) as bv16
  }

  predicate IsDepth(bpp: int) {
    bpp == 32 || bpp == 16
  }

  // The bytes a pixel occupies, in memory order of a little-endian machine.
  function PixelBytes(bpp: int, r: int, g: int, b: int): (s: seq<bv8>)
    requires IsDepth(bpp) && 0 <= r <= 255 && 0 <= g <= 255 && 0 <= b <= 255
    ensures |s| == bpp / 8
  {
    if bpp == 32 then Bytes32(Word888(r as bv32, g as bv32, b as bv32))
    else Bytes16(Word565(r as bv32, g as bv32, b as bv32))
  }

  // draw_rect: a colour constant as pixel bytes.
  function ColourBytes(bpp: int, colour: bv32): (s: seq<bv8>)
    requires IsDepth(bpp)
    ensures |s| == bpp / 8
  {
    if bpp == 32 then Bytes32(colour)
    else Bytes16(Word565(colour >> 16, (colour >> 8) & 0xff, colour & 0xff))
  }

  lemma BlueField(r: bv32, g: bv32, b: bv32)
    requires r <= 255 && g <= 255 && b <= 255
    ensures Word888(r, g, b) & 0xff == b
  {
  }

  lemma GreenField(r: bv32, g: bv32, b: bv32)
    requires r <= 255 && g <= 255 && b <= 255
    ensures (Word888(r, g, b) >> 8) & 0xff == g
  {
  }

  lemma RedField(r: bv32, g: bv32, b: bv32)
    requires r <= 255 && g <= 255 && b <= 255
    ensures Word888(r, g, b) >> 16 == r
    ensures (Word888(r, g, b) >> 16) & 0xff == r
  {
  }

  lemma TopField(r: bv32, g: bv32, b: bv32)
    requires r <= 255 && g <= 255 && b <= 255
    ensures (Word888(r, g, b) >> 24) & 0xff == 0
  {
  }

  /** At 32 bits the three components can be read back exactly. */
  lemma Unpack888(r: bv32, g: bv32, b: bv32)
    requires r <= 255 && g <= 255 && b <= 255
    ensures Bytes32(Word888(r, g, b)) == [b as bv8, g as bv8, r as bv8, 0]
  {
    BlueField(r, g, b);
    GreenField(r, g, b);
    RedField(r, g, b);
    TopField(r, g, b);
  }

  // ----- From integers to bytes and back -----

  function Bit(b: bv8, mask: bv8): int {
    if b & mask == 0 then 0 else 1
  }

  lemma BitsOfByte(b: bv8)
    ensures b as int == Bit(b, 1) + 2 * Bit(b, 2) + 4 * Bit(b, 4) + 8 * Bit(b, 8)
                        + 16 * Bit(b, 16) + 32 * Bit(b, 32) + 64 * Bit(b, 64) + 128 * Bit(b, 128)
  {
  }

  lemma BitsOfInt(x: int)
    requires 0 <= x <= 255
    ensures x % 2 == Bit(x as bv8, 1) && x / 2 % 2 == Bit(x as bv8, 2)
    ensures x / 4 % 2 == Bit(x as bv8, 4) && x / 8 % 2 == Bit(x as bv8, 8)
    ensures x / 16 % 2 == Bit(x as bv8, 16) && x / 32 % 2 == Bit(x as bv8, 32)
    ensures x / 64 % 2 == Bit(x as bv8, 64) && x / 128 % 2 == Bit(x as bv8, 128)
  {
  }

  lemma Halvings(x: int)
    requires 0 <= x <= 255
    ensures x / 2 / 2 == x / 4 && x / 4 / 2 == x / 8 && x / 8 / 2 == x / 16 && x / 16 / 2 == x / 32
    ensures x / 32 / 2 == x / 64 && x / 64 / 2 == x / 128
  {
  }

  lemma BinaryDigits(x: int)
    requires 0 <= x <= 255
    ensures var a := x / 2; var b := a / 2; var c := b / 2; var d := c / 2;
            var e := d / 2; var f := e / 2; var g := f / 2;
            x == x % 2 + 2 * (a % 2) + 4 * (b % 2) + 8 * (c % 2)
                 + 16 * (d % 2) + 32 * (e % 2) + 64 * (f % 2) + 128 * (g % 2)
  {
  }

  /** A component of 0 to 255 survives the way into a byte and back. */
  lemma ByteRoundTrip(x: int)
    requires 0 <= x <= 255
    ensures (x as bv8) as int == x
  {
    BitsOfByte(x as bv8);
    BitsOfInt(x);
    Halvings(x);
    BinaryDigits(x);
  }

  lemma ThroughWord(x: int)
    requires 0 <= x <= 255
    ensures x as bv32 <= 255 && (x as bv32) as bv8 == x as bv8
  {
    assert (x as bv8) as bv32 == x as bv32;
  }

  /** At 32 bits per pixel the stored bytes are blue, green, red and 0. */
  lemma ReadBack32(r: int, g: int, b: int)
    requires 0 <= r <= 255 && 0 <= g <= 255 && 0 <= b <= 255
    ensures var s := PixelBytes(32, r, g, b);
            s[0] as int == b && s[1] as int == g && s[2] as int == r && s[3] == 0
  {
    ThroughWord(r);
    ThroughWord(g);
    ThroughWord(b);
    Unpack888(r as bv32, g as bv32, b as bv32);
    ByteRoundTrip(r);
    ByteRoundTrip(g);
    ByteRoundTrip(b);
  }

  function Word16(s: seq<bv8>): bv16
    requires |s| == 2
  {
    s[0] as bv16 | (s[1] as bv16 << 8)
  }

  /** At 16 bits they can be read back to 5, 6 and 5 bits. */
  lemma Unpack565(r: bv32, g: bv32, b: bv32)
    requires r <= 255 && g <= 255 && b <= 255
    ensures var w := Word16(Bytes16(Word565(r, g, b)));
            && (w >> 11) as bv32 == r >> 3
            && ((w >> 5) & 0x3f) as bv32 == g >> 2
            && (w & 0x1f) as bv32 == b >> 3
  {
    var w := Word565(r, g, b);
    SplitAndJoin16(w);
  }

  lemma SplitAndJoin16(w: bv16)
    ensures Word16(Bytes16(w)) == w
  {
  }

  lemma Shift3(b: bv8)
    ensures (b >> 3) as int == b as int / 8
  {
    BitsOfByte(b);
    BitsOfByte(b >> 3);
  }

  lemma Shift2(b: bv8)
    ensures (b >> 2) as int == b as int / 4
  {
    BitsOfByte(b);
    BitsOfByte(b >> 2);
  }

  /** At 16 bits per pixel the stored word gives back the components divided by 8, 4 and 8. */
  lemma ReadBack16(r: int, g: int, b: int)
    requires 0 <= r <= 255 && 0 <= g <= 255 && 0 <= b <= 255
    ensures var w := Word16(PixelBytes(16, r, g, b));
            && ((w >> 11) as bv8) as int == r / 8
            && (((w >> 5) & 0x3f) as bv8) as int == g / 4
            && ((w & 0x1f) as bv8) as int == b / 8
  {
    ThroughWord(r);
    ThroughWord(g);
    ThroughWord(b);
    Unpack565(r as bv32, g as bv32, b as bv32);
    ByteRoundTrip(r);
    ByteRoundTrip(g);
    ByteRoundTrip(b);
    Shift3(r as bv8);
    Shift2(g as bv8);
    Shift3(b as bv8);
  }

  /** draw_rect and capture_to_fb pack alike. */
  lemma SamePacking(r: bv32, g: bv32, b: bv32)
    requires r <= 255 && g <= 255 && b <= 255
    ensures var w := Word888(r, g, b);
            Word565(w >> 16, (w >> 8) & 0xff, w & 0xff) == Word565(r, g, b)
  {
    BlueField(r, g, b);
    GreenField(r, g, b);
    RedField(r, g, b);
  }

  /** At both depths draw_rect stores a colour constant as a pixel of its three components. */
  lemma ColourIsPixel(bpp: int, r: int, g: int, b: int)
    requires IsDepth(bpp) && 0 <= r <= 255 && 0 <= g <= 255 && 0 <= b <= 255
    ensures ColourBytes(bpp, Word888(r as bv32, g as bv32, b as bv32)) == PixelBytes(bpp, r, g, b)
  {
    ThroughWord(r);
    ThroughWord(g);
    ThroughWord(b);
    SamePacking(r as bv32, g as bv32, b as bv32);
  }

  /** At 32 bits it stores the word as it is. */
  lemma ColourKept(colour: bv32)
    ensures var s := ColourBytes(32, colour);
            Load32(s[0], s[1], s[2], s[3]) == colour
  {
  }

  lemma BlackIsZero(bpp: int)
    requires IsDepth(bpp)
    ensures forall i :: 0 <= i < bpp / 8 ==> ColourBytes(bpp, 0)[i] == 0
  {
    assert Word565(0, 0, 0) == 0;
  }

  // ----- Loading -----

  // *(unsigned int *) on a little-endian machine.
  function Load32(b0: bv8, b1: bv8, b2: bv8, b3: bv8): bv32 {
    b0 as bv32 | (b1 as bv32 << 8) | (b2 as bv32 << 16) | (b3 as bv32 << 24)
  }

  /** The shifts and masks take the word apart into the bytes Y0 U Y1 V it was loaded from. */
  lemma LoadedBytes(b0: bv8, b1: bv8, b2: bv8, b3: bv8)
    ensures var w := Load32(b0, b1, b2, b3);
            && (w & 0xff) as bv8 == b0 && ((w >> 8) & 0xff) as bv8 == b1
            && ((w >> 16) & 0xff) as bv8 == b2 && ((w >> 24) & 0xff) as bv8 == b3
  {
  }
}
