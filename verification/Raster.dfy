// The primitive rasterizer (scene_fb.c, scene_font.c): every draw is clipped to
// a rectangle and to the framebuffer.  `Shade` says what one primitive does to
// one pixel when nothing is clipped; every method below is proved to leave
// exactly that inside the clip and to leave every other pixel alone.
module Raster {
  import opened Pixels
  import opened Corner

  // ---- Rectangles -------------------------------------------------------------

  datatype Rect = Rect(x: int, y: int, w: int, h: int) {
    predicate Has(px: int, py: int) {
      x <= px < x + w && y <= py < y + h
    }
    predicate Empty() {
      w <= 0 || h <= 0
    }
  }

  datatype Clip = NoClip | To(r: Rect) {
    predicate Allows(px: int, py: int) {
      NoClip? || r.Has(px, py)
    }
  }

  function Min(a: int, b: int): int { if a < b then a else b }
  function Max(a: int, b: int): int { if a > b then a else b }

  /** The half-open range a draw of `r` may touch: within `r`, the clip and the buffer. */
  method ClipRect(r: Rect, clip: Clip, w: nat, h: nat) returns (ok: bool, x0: int, y0: int, x1: int, y1: int)
    ensures ok ==> 0 <= x0 < x1 <= w && 0 <= y0 < y1 <= h
    ensures forall x, y :: (0 <= x < w && 0 <= y < h && r.Has(x, y) && clip.Allows(x, y))
                      <==> (ok && x0 <= x < x1 && y0 <= y < y1)
  {
    ok, x0, y0, x1, y1 := false, 0, 0, 0, 0;
    if r.w <= 0 || r.h <= 0 { return; }
    if clip.To? && (clip.r.w <= 0 || clip.r.h <= 0) { return; }
    var lo, hi := Max(r.x, 0), Min(r.x + r.w, w);
    if clip.To? { lo, hi := Max(lo, clip.r.x), Min(hi, clip.r.x + clip.r.w); }
    if lo >= hi { return; }
    x0, x1 := lo, hi;
    lo, hi := Max(r.y, 0), Min(r.y + r.h, h);
    if clip.To? { lo, hi := Max(lo, clip.r.y), Min(hi, clip.r.y + clip.r.h); }
    if lo >= hi { return; }
    y0, y1 := lo, hi;
    ok := true;
  }

  // ---- What a primitive does to one pixel -------------------------------------

  /** Glyph bits: character, row from the top, column from the left. */
  type Font = (Byte, int, int) -> bool

  /** A registered texture; each of the h rows holds w texels. */
  datatype Texture = Texture(w: nat, h: nat, fmt: Format, rows: seq<seq<Pixel>>) {
    predicate Valid() {
      |rows| == h && forall row <- rows :: |row| == w
    }
  }

  datatype Op =
    | Solid(r: Rect, color: Pixel, alpha: nat)
    | Stroke(r: Rect, color: Pixel, bw: nat, alpha: nat)
    | Rounded(r: Rect, color: Pixel, radius: nat, alpha: nat)
    | Chrome(r: Rect, radius: nat, bw: nat, fill: Pixel, border: Pixel, alpha: nat)
    | Blit(dx: int, dy: int, tex: Texture, src: Rect, opacity: Byte)
    | Text(font: Font, x: int, y: int, s: seq<Byte>, color: Pixel, alpha: nat)

  const GLYPH_W := 8
  const GLYPH_H := 8

  function RowDist(r: Rect, y: int): int { Min(y - r.y, r.y + r.h - 1 - y) }

  /** The pixel lies in `r` with its corners cut to a circle of `radius`. */
  predicate InRound(r: Rect, radius: nat, x: int, y: int) {
    r.Has(x, y) && var cut := Inset(radius, RowDist(r, y)); r.x + cut <= x < r.x + r.w - cut
  }

  /** The radius, capped at half of either side. */
  function CapRadius(r: Rect, radius: nat): nat
    requires !r.Empty()
  {
    Min(radius, Min(r.w / 2, r.h / 2))
  }

  function ShadeSolid(r: Rect, color: Pixel, alpha: nat, x: int, y: int, dst: Pixel): Pixel {
    if r.Has(x, y) then Blend(color, alpha, dst) else dst
  }

  /** The four bars of a stroke, in drawing order; corners are covered twice. */
  function Bar(r: Rect, bw: nat, i: nat): Rect {
    if i == 0 then Rect(r.x, r.y, r.w, bw)
    else if i == 1 then Rect(r.x, r.y + r.h - bw, r.w, bw)
    else if i == 2 then Rect(r.x, r.y, bw, r.h)
    else Rect(r.x + r.w - bw, r.y, bw, r.h)
  }

  function ShadeStroke(r: Rect, color: Pixel, bw: nat, alpha: nat, x: int, y: int, dst: Pixel): Pixel {
    if bw == 0 then dst else
      ShadeSolid(Bar(r, bw, 3), color, alpha, x, y,
      ShadeSolid(Bar(r, bw, 2), color, alpha, x, y,
      ShadeSolid(Bar(r, bw, 1), color, alpha, x, y,
      ShadeSolid(Bar(r, bw, 0), color, alpha, x, y, dst))))
  }

  function ShadeRounded(r: Rect, color: Pixel, radius: nat, alpha: nat, x: int, y: int, dst: Pixel): Pixel {
    if !r.Empty() && InRound(r, CapRadius(r, radius), x, y) then Blend(color, alpha, dst) else dst
  }

  /** The rectangle inside a border of width bw. */
  function Inner(r: Rect, bw: nat): Rect {
    Rect(r.x + bw, r.y + bw, r.w - 2 * bw, r.h - 2 * bw)
  }

  function Less(a: nat, b: nat): nat { if a > b then a - b else 0 }

  /** The chrome loop takes the fill colour here.  The row test is unsigned, so a
      negative inner top edge never passes it, and colour 0 counts as no fill. */
  predicate UsesFill(r: Rect, radius: nat, bw: nat, fill: Pixel, x: int, y: int) {
    fill != CLEAR_WORD && r.y + bw >= 0 && InRound(Inner(r, bw), Less(radius, bw), x, y)
  }

  function ShadeChrome(r: Rect, radius: nat, bw: nat, fill: Pixel, border: Pixel, alpha: nat,
                       x: int, y: int, dst: Pixel): Pixel {
    if r.Empty() then dst
    else if radius == 0 then ShadeStroke(r, border, bw, alpha, x, y, ShadeSolid(r, fill, alpha, x, y, dst))
    else
      var rr := CapRadius(r, radius);
      if rr == 0 || bw == 0 then ShadeRounded(r, fill, rr, alpha, x, y, dst)
      else if r.Has(x, y) && UsesFill(r, rr, bw, fill, x, y) then Blend(fill, alpha, dst)
      else if InRound(r, rr, x, y) then Blend(border, alpha, dst)
      else dst
  }

  /** The part of `src` that exists in the texture, moved to its destination. */
  function BlitDest(dx: int, dy: int, tex: Texture, src: Rect): Rect {
    var sx0, sy0 := Max(src.x, 0), Max(src.y, 0);
    Rect(dx + sx0 - src.x, dy + sy0 - src.y, Min(src.x + src.w, tex.w) - sx0, Min(src.y + src.h, tex.h) - sy0)
  }

  function Texel(tex: Texture, sx: int, sy: int): Pixel {
    if 0 <= sy < |tex.rows| && 0 <= sx < |tex.rows[sy]| then tex.rows[sy][sx] else CLEAR_WORD
  }

  /** The blit's arithmetic at a pixel inside its destination. */
  function BlitAt(dx: int, dy: int, tex: Texture, src: Rect, opacity: Byte, x: int, y: int, dst: Pixel): Pixel {
    BlitPixel(tex.fmt, opacity, Texel(tex, x - (dx - src.x), y - (dy - src.y)), dst)
  }

  function ShadeBlit(dx: int, dy: int, tex: Texture, src: Rect, opacity: Byte, x: int, y: int, dst: Pixel): Pixel {
    if opacity > 0 && !src.Empty() && BlitDest(dx, dy, tex, src).Has(x, y)
    then BlitAt(dx, dy, tex, src, opacity, x, y, dst) else dst
  }

  /** Every texel the blit reads exists: clamping the source keeps it inside the texture. */
  lemma BlitReadsInside(dx: int, dy: int, tex: Texture, src: Rect, x: int, y: int)
    requires tex.Valid() && BlitDest(dx, dy, tex, src).Has(x, y)
    ensures 0 <= y - (dy - src.y) < tex.h && 0 <= x - (dx - src.x) < |tex.rows[y - (dy - src.y)]|
  {
    assert tex.rows[y - (dy - src.y)] in tex.rows;
  }

  function Column(tx: int, x: int): int { (x - tx) / GLYPH_W }

  /** The cell grid of a text line. */
  function TextRect(x: int, y: int, s: seq<Byte>): Rect { Rect(x, y, |s| * GLYPH_W, GLYPH_H) }

  function ShadeText(font: Font, tx: int, ty: int, s: seq<Byte>, color: Pixel, alpha: nat,
                     x: int, y: int, dst: Pixel): Pixel {
    if TextRect(tx, ty, s).Has(x, y) && font(s[Column(tx, x)], y - ty, (x - tx) % GLYPH_W)
    then Blend(color, alpha, dst) else dst
  }

  /** The meaning of a primitive: the new pixel for an old one, unclipped. */
  function Shade(op: Op, x: int, y: int, dst: Pixel): Pixel
  {
    match op
    case Solid(r, color, alpha) => ShadeSolid(r, color, alpha, x, y, dst)
    case Stroke(r, color, bw, alpha) => ShadeStroke(r, color, bw, alpha, x, y, dst)
    case Rounded(r, color, radius, alpha) => ShadeRounded(r, color, radius, alpha, x, y, dst)
    case Chrome(r, radius, bw, fill, border, alpha) => ShadeChrome(r, radius, bw, fill, border, alpha, x, y, dst)
    case Blit(dx, dy, tex, src, opacity) => ShadeBlit(dx, dy, tex, src, opacity, x, y, dst)
    case Text(font, tx, ty, s, color, alpha) => ShadeText(font, tx, ty, s, color, alpha, x, y, dst)
  }

  /** The framebuffer took `op`, clipped: shaded inside the clip, untouched outside. */
  twostate predicate Drawn(fb: array2<Pixel>, clip: Clip, op: Op)
    reads fb
  {
    forall x, y :: 0 <= x < fb.Length1 && 0 <= y < fb.Length0 ==>
      fb[y, x] == if clip.Allows(x, y) then Shade(op, x, y, old(fb[y, x])) else old(fb[y, x])
  }

  /** As Drawn, for the rows above `end` only. */
  twostate predicate DrawnAbove(fb: array2<Pixel>, clip: Clip, op: Op, end: int)
    reads fb
  {
    forall x, y :: 0 <= x < fb.Length1 && 0 <= y < fb.Length0 ==>
      fb[y, x] == if y < end && clip.Allows(x, y) then Shade(op, x, y, old(fb[y, x])) else old(fb[y, x])
  }

  // ---- The drawing loops ------------------------------------------------------

  /** The inner loop of every primitive: rewrite the pixels [x0, x1) of one row. */
  method PaintRow(fb: array2<Pixel>, y: int, x0: int, x1: int, f: (int, Pixel) -> Pixel)
    requires 0 <= y < fb.Length0 && 0 <= x0 <= x1 <= fb.Length1
    modifies fb
    ensures forall xx, yy :: 0 <= xx < fb.Length1 && 0 <= yy < fb.Length0 ==>
      fb[yy, xx] == if yy == y && x0 <= xx < x1 then f(xx, old(fb[yy, xx])) else old(fb[yy, xx])
  {
    for x := x0 to x1
      invariant forall xx, yy :: 0 <= xx < fb.Length1 && 0 <= yy < fb.Length0 ==>
        fb[yy, xx] == if yy == y && x0 <= xx < x then f(xx, old(fb[yy, xx])) else old(fb[yy, xx])
    {
      fb[y, x] := f(x, fb[y, x]);
    }
  }

  method Clear(fb: array2<Pixel>, color: Pixel)
    modifies fb
    ensures forall x, y :: 0 <= x < fb.Length1 && 0 <= y < fb.Length0 ==> fb[y, x] == color
  {
    for y := 0 to fb.Length0
      invariant forall x, yy :: 0 <= x < fb.Length1 && 0 <= yy < y ==> fb[yy, x] == color
    {
      PaintRow(fb, y, 0, fb.Length1, (x, d) => color);
    }
  }

  method FillAlpha(fb: array2<Pixel>, r: Rect, color: Pixel, alpha: nat, clip: Clip)
    modifies fb
    ensures Drawn(fb, clip, Solid(r, color, alpha))
  {
    if alpha == 0 { return; }
    var ok, x0, y0, x1, y1 := ClipRect(r, clip, fb.Length1, fb.Length0);
    if !ok { return; }
    ghost var op := Solid(r, color, alpha);
    for y := y0 to y1
      invariant DrawnAbove(fb, clip, op, y)
    {
      PaintRow(fb, y, x0, x1, (x, d) => Blend(color, alpha, d));
    }
  }

  /** The columns of row y left by the corner cut: [xl, xh). */
  method RoundSpan(r: Rect, radius: nat, y: int) returns (xl: int, xh: int)
    requires r.y <= y < r.y + r.h
    ensures forall x :: InRound(r, radius, x, y) <==> xl <= x < xh
  {
    var inset := RcornerInset(radius, Min(y - r.y, r.h - 1 - (y - r.y)));
    assert RowDist(r, y) == Min(y - r.y, r.h - 1 - (y - r.y));
    xl, xh := r.x + inset, r.x + r.w - inset;
  }

  method FillRound(fb: array2<Pixel>, r: Rect, color: Pixel, radius: nat, alpha: nat, clip: Clip)
    modifies fb
    ensures Drawn(fb, clip, Rounded(r, color, radius, alpha))
  {
    if r.w <= 0 || r.h <= 0 { return; }
    var rr := CapRadius(r, radius);
    if rr == 0 {
      FillAlpha(fb, r, color, alpha, clip);
      return;
    }
    ghost var op := Rounded(r, color, radius, alpha);
    for y := r.y to r.y + r.h
      invariant DrawnAbove(fb, clip, op, y)
    {
      var xl, xh := RoundSpan(r, rr, y);
      if xl < xh { FillAlpha(fb, Rect(xl, y, xh - xl, 1), color, alpha, clip); }
    }
  }

  method StrokeAlpha(fb: array2<Pixel>, r: Rect, color: Pixel, bw: nat, alpha: nat, clip: Clip)
    modifies fb
    ensures Drawn(fb, clip, Stroke(r, color, bw, alpha))
  {
    if bw == 0 { return; }
    FillAlpha(fb, Bar(r, bw, 0), color, alpha, clip);
    label top:
    FillAlpha(fb, Bar(r, bw, 1), color, alpha, clip);
    label bottom:
    FillAlpha(fb, Bar(r, bw, 2), color, alpha, clip);
    label left:
    FillAlpha(fb, Bar(r, bw, 3), color, alpha, clip);
  }

  method ChromeRound(fb: array2<Pixel>, r: Rect, radius: nat, bw: nat, fill: Pixel, border: Pixel,
                     alpha: nat, clip: Clip)
    modifies fb
    ensures Drawn(fb, clip, Chrome(r, radius, bw, fill, border, alpha))
  {
    if r.w <= 0 || r.h <= 0 { return; }
    if radius == 0 {
      FillAlpha(fb, r, fill, alpha, clip);
      if bw > 0 { StrokeAlpha(fb, r, border, bw, alpha, clip); }
      return;
    }
    var rr := CapRadius(r, radius);
    if rr == 0 || bw == 0 {
      FillRound(fb, r, fill, rr, alpha, clip);
      return;
    }
    ChromeRows(fb, r, radius, bw, fill, border, alpha, clip);
  }

  /** The columns of row y that take the border and the fill. */
  method ChromeSpans(r: Rect, rr: nat, bw: nat, fill: Pixel, y: int)
    returns (xl: int, xh: int, filled: bool, ixl: int, ixh: int)
    requires r.y <= y < r.y + r.h
    ensures forall x :: UsesFill(r, rr, bw, fill, x, y) <==> filled && ixl <= x < ixh
    ensures forall x :: InRound(r, rr, x, y) <==> xl <= x < xh
  {
    xl, xh := RoundSpan(r, rr, y);
    var iy0, iw, ih := r.y + bw, r.w - 2 * bw, r.h - 2 * bw;
    filled, ixl, ixh := false, 0, 0;
    if fill != CLEAR_WORD && iw > 0 && ih > 0 && 0 <= iy0 <= y < iy0 + ih {
      ixl, ixh := RoundSpan(Inner(r, bw), Less(rr, bw), y);
      filled := true;
    }
  }

  /** The single-blend row loop of scene_fb_chrome_round. */
  method ChromeRows(fb: array2<Pixel>, r: Rect, radius: nat, bw: nat, fill: Pixel, border: Pixel,
                    alpha: nat, clip: Clip)
    requires !r.Empty() && CapRadius(r, radius) > 0 && bw > 0
    modifies fb
    ensures Drawn(fb, clip, Chrome(r, radius, bw, fill, border, alpha))
  {
    var rr := CapRadius(r, radius);
    var ok, x0, y0, x1, y1 := ClipRect(r, clip, fb.Length1, fb.Length0);
    if !ok { return; }
    ghost var op := Chrome(r, radius, bw, fill, border, alpha);
    for y := y0 to y1
      invariant DrawnAbove(fb, clip, op, y)
    {
      assert r.Has(x0, y);
      var xl, xh, filled, ixl, ixh := ChromeSpans(r, rr, bw, fill, y);
      PaintRow(fb, y, x0, x1, (x, dc) =>
        if filled && ixl <= x < ixh then Blend(fill, alpha, dc)
        else if xl <= x < xh then Blend(border, alpha, dc)
        else dc);
    }
  }

  method BlitTexture(fb: array2<Pixel>, dx: int, dy: int, tex: Texture, src: Rect, opacity: Byte, clip: Clip)
    modifies fb
    ensures Drawn(fb, clip, Blit(dx, dy, tex, src, opacity))
  {
    if src.w <= 0 || src.h <= 0 || opacity == 0 { return; }
    var dest := BlitDest(dx, dy, tex, src);
    var ok, x0, y0, x1, y1 := ClipRect(dest, clip, fb.Length1, fb.Length0);
    if !ok { return; }
    ghost var op := Blit(dx, dy, tex, src, opacity);
    for y := y0 to y1
      invariant DrawnAbove(fb, clip, op, y)
    {
      PaintRow(fb, y, x0, x1, (x, dc) => BlitAt(dx, dy, tex, src, opacity, x, y, dc));
    }
  }

  /** One character: rows from the top, then bits from the left, within [x0, x1) x [y0, y1). */
  method DrawGlyph(fb: array2<Pixel>, font: Font, c: Byte, cx: int, ty: int, color: Pixel, alpha: nat,
                   x0: int, y0: int, x1: int, y1: int)
    requires 0 <= x0 && x1 <= fb.Length1 && 0 <= y0 && y1 <= fb.Length0
    modifies fb
    ensures GlyphRows(fb, font, c, cx, ty, color, alpha, x0, y0, x1, y1, ty + GLYPH_H)
  {
    var lo, hi := Max(cx, x0), Min(cx + GLYPH_W, x1);
    if lo >= hi { return; }
    for row := 0 to GLYPH_H
      invariant GlyphRows(fb, font, c, cx, ty, color, alpha, x0, y0, x1, y1, ty + row)
    {
      var yy := ty + row;
      if y0 <= yy < y1 {
        PaintRow(fb, yy, lo, hi, (x, dc) => if font(c, row, x - cx) then Blend(color, alpha, dc) else dc);
      }
    }
  }

  /** The rows of a glyph above `end` are drawn, and nothing else changed. */
  twostate predicate GlyphRows(fb: array2<Pixel>, font: Font, c: Byte, cx: int, ty: int, color: Pixel, alpha: nat,
                               x0: int, y0: int, x1: int, y1: int, end: int)
    reads fb
  {
    forall x, y :: 0 <= x < fb.Length1 && 0 <= y < fb.Length0 ==>
      fb[y, x] == if cx <= x < cx + GLYPH_W && ty <= y < end && x0 <= x < x1 && y0 <= y < y1 && font(c, y - ty, x - cx)
                  then Blend(color, alpha, old(fb[y, x])) else old(fb[y, x])
  }

  lemma CellOf(tx: int, i: int, x: int)
    requires tx + i * GLYPH_W <= x < tx + (i + 1) * GLYPH_W
    ensures Column(tx, x) == i && (x - tx) % GLYPH_W == x - (tx + i * GLYPH_W)
  {
  }

  /** scene_font_draw_a, for the bitmap font. */
  method DrawText(fb: array2<Pixel>, font: Font, tx: int, ty: int, s: seq<Byte>, color: Pixel, alpha: nat, clip: Clip)
    modifies fb
    ensures Drawn(fb, clip, Text(font, tx, ty, s, color, alpha))
  {
    if |s| == 0 || alpha == 0 { return; }
    var ok, x0, y0, x1, y1 := ClipRect(TextRect(tx, ty, s), clip, fb.Length1, fb.Length0);
    if !ok { return; }
    ghost var op := Text(font, tx, ty, s, color, alpha);
    for i := 0 to |s|
      invariant DrawnLeft(fb, clip, op, tx + i * GLYPH_W)
    {
      var cx := tx + i * GLYPH_W;
      forall x | cx <= x < cx + GLYPH_W ensures Column(tx, x) == i && (x - tx) % GLYPH_W == x - cx {
        CellOf(tx, i, x);
      }
      DrawGlyph(fb, font, s[i], cx, ty, color, alpha, x0, y0, x1, y1);
    }
  }

  /** As Drawn, for the columns left of `end` only. */
  twostate predicate DrawnLeft(fb: array2<Pixel>, clip: Clip, op: Op, end: int)
    reads fb
  {
    forall x, y :: 0 <= x < fb.Length1 && 0 <= y < fb.Length0 ==>
      fb[y, x] == if x < end && clip.Allows(x, y) then Shade(op, x, y, old(fb[y, x])) else old(fb[y, x])
  }
}
