// Premultiplied ARGB pixels and the integer blends of the rasterizer
// (scene_fb.c).  A 32-bit pixel word is held as its four bytes.
module Pixels {

  type Byte = b: int | 0 <= b < 256

  datatype Pixel = Pixel(a: Byte, r: Byte, g: Byte, b: Byte)

  const CLEAR_WORD := Pixel(0, 0, 0, 0)  // the word 0: "no fill", "no border"

  /** A byte OR-ed with the ninth bit of the channel packed below it. */
  function WithSpill(channel: nat, below: nat): Byte {
    var low := channel % 0x100;
    if below / 0x100 % 2 == 1 && low % 2 == 0 then low + 1 else low
  }

  /** `(a << 24) | (r << 16) | (g << 8) | b`, byte by byte.  Channel sums stay
      below 512, so a channel that outgrows its byte spills exactly one bit. */
  function Pack(a: nat, r: nat, g: nat, b: nat): Pixel {
    Pixel(WithSpill(a, r), WithSpill(r, g), WithSpill(g, b), b % 0x100)
  }

  /** The product x * y, as repeated addition. */
  function Mul(x: nat, y: nat): nat {
    if x == 0 then 0 else y + Mul(x - 1, y)
  }

  /** One channel of the straight per-channel blend, rounded down. */
  function Mix(c: nat, alpha: Byte, d: nat): nat {
    (Mul(c, alpha) + Mul(d, 255 - alpha)) / 255
  }

  /** Blend `color` over `dst`: 255 and above replaces, 0 leaves the pixel. */
  function Blend(color: Pixel, alpha: nat, dst: Pixel): Pixel {
    if alpha >= 255 then color
    else if alpha == 0 then dst
    else Pack(Mix(color.a, alpha, dst.a), Mix(color.r, alpha, dst.r),
              Mix(color.g, alpha, dst.g), Mix(color.b, alpha, dst.b))
  }

  datatype Format = Xrgb | Argb | OtherFormat

  /** One channel of premultiplied src-over; `t` is the scaled source alpha. */
  function Over(s: nat, opacity: Byte, t: Byte, d: nat): nat {
    Mul(s, opacity) / 255 + Mul(d, 255 - t) / 255
  }

  function Scaled(s: Byte, opacity: Byte): (t: Byte)
    ensures t <= s
  {
    MulBound(s, opacity, 255);
    Mul(s, opacity) / 255
  }

  /** The pixel the blit writes for a source texel over a destination pixel. */
  function BlitPixel(fmt: Format, opacity: Byte, src: Pixel, dst: Pixel): Pixel {
    match fmt
    case Xrgb =>
      if opacity == 255 then src.(a := 255)
      else Pack(255, Mix(src.r, opacity, dst.r), Mix(src.g, opacity, dst.g), Mix(src.b, opacity, dst.b))
    case Argb =>
      var t := Scaled(src.a, opacity);
      Pack(Over(src.a, opacity, t, dst.a), Over(src.r, opacity, t, dst.r),
           Over(src.g, opacity, t, dst.g), Over(src.b, opacity, t, dst.b))
    case OtherFormat => dst
  }

  // ---- Premultiplied pixels stay premultiplied --------------------------------

  /** No colour channel exceeds the alpha channel. */
  predicate Premultiplied(p: Pixel) {
    p.r <= p.a && p.g <= p.a && p.b <= p.a
  }

  lemma {:induction false} MulMonotone(x: nat, y: nat, k: nat)
    requires x <= y
    ensures Mul(x, k) <= Mul(y, k)
  {
    if x < y { MulMonotone(x, y - 1, k); }
  }

  lemma {:induction false} MulBound(x: nat, k: nat, top: nat)
    requires k <= top == 255
    ensures Mul(x, k) <= x * top
  {
    if x > 0 { MulBound(x - 1, k, top); }
  }

  /** Mul is multiplication. */
  lemma {:induction false} MulIsProduct(x: nat, k: nat)
    ensures Mul(x, k) == x * k
  {
    if x > 0 { MulIsProduct(x - 1, k); }
  }

  lemma {:induction false} MulSplit(x: nat, k: Byte)
    ensures Mul(x, k) + Mul(x, 255 - k) == 255 * x
  {
    if x > 0 { MulSplit(x - 1, k); }
  }

  /** A blended channel grows with both inputs and fits its byte. */
  lemma MixMonotone(c: nat, c': nat, alpha: Byte, d: nat, d': nat)
    requires c <= c' <= 255 && d <= d' <= 255
    ensures 0 <= Mix(c, alpha, d) <= Mix(c', alpha, d') <= 255
  {
    MulMonotone(c, c', alpha);
    MulMonotone(c', 255, alpha);
    MulMonotone(d, d', 255 - alpha);
    MulMonotone(d', 255, 255 - alpha);
    MulSplit(255, alpha);
  }

  /** A composited channel grows with both inputs, and fits its byte while s <= s'. */
  lemma OverMonotone(s: nat, s': Byte, opacity: Byte, d: nat, d': nat)
    requires s <= s' && d <= d' <= 255
    ensures var t := Scaled(s', opacity);
            0 <= Over(s, opacity, t, d) <= Over(s', opacity, t, d') <= 255
  {
    var t := Scaled(s', opacity);
    MulMonotone(s, s', opacity);
    MulMonotone(d, d', 255 - t);
    MulMonotone(d', 255, 255 - t);
    MulSplit(255, t);
    MulByFull(t);
  }

  lemma {:induction false} MulByFull(t: nat)
    ensures Mul(255, t) == 255 * t
  {
    MulIsProduct(255, t);
  }

  lemma PackFits(a: Byte, r: Byte, g: Byte, b: Byte)
    ensures Pack(a, r, g, b) == Pixel(a, r, g, b)
  {
  }

  /** A straight blend of premultiplied pixels is premultiplied, and no channel overflows. */
  lemma BlendStaysPremultiplied(color: Pixel, alpha: nat, dst: Pixel)
    requires Premultiplied(color) && Premultiplied(dst)
    ensures Premultiplied(Blend(color, alpha, dst))
  {
    if 0 < alpha < 255 {
      MixMonotone(color.r, color.a, alpha, dst.r, dst.a);
      MixMonotone(color.g, color.a, alpha, dst.g, dst.a);
      MixMonotone(color.b, color.a, alpha, dst.b, dst.a);
      PackFits(Mix(color.a, alpha, dst.a), Mix(color.r, alpha, dst.r), Mix(color.g, alpha, dst.g), Mix(color.b, alpha, dst.b));
    }
  }

  /** A texel over a premultiplied pixel is premultiplied; only ARGB texels must be so themselves. */
  lemma BlitStaysPremultiplied(fmt: Format, opacity: Byte, src: Pixel, dst: Pixel)
    requires fmt.Argb? ==> Premultiplied(src)
    requires Premultiplied(dst)
    ensures Premultiplied(BlitPixel(fmt, opacity, src, dst))
  {
    match fmt {
      case Xrgb =>
        MixMonotone(src.r, 255, opacity, dst.r, 255);
        MixMonotone(src.g, 255, opacity, dst.g, 255);
        MixMonotone(src.b, 255, opacity, dst.b, 255);
        PackFits(255, Mix(src.r, opacity, dst.r), Mix(src.g, opacity, dst.g), Mix(src.b, opacity, dst.b));
      case Argb =>
        OverMonotone(src.r, src.a, opacity, dst.r, dst.a);
        OverMonotone(src.g, src.a, opacity, dst.g, dst.a);
        OverMonotone(src.b, src.a, opacity, dst.b, dst.a);
        var t := Scaled(src.a, opacity);
        PackFits(Over(src.a, opacity, t, dst.a), Over(src.r, opacity, t, dst.r), Over(src.g, opacity, t, dst.g),
                 Over(src.b, opacity, t, dst.b));
      case OtherFormat =>
    }
  }
}
