// What is seen, in plain numbers: the colour of a box at rest, where and how strongly a box
// is drawn while it slides in or fades out, and which node shows where several lie.
module Looks {
  import opened Pixels
  import opened Raster
  import opened SceneModel
  import opened Damage
  import opened Transitions
  import opened RenderMap
  import opened Diff
  import opened DiffCover
  import opened Painting
  import opened RasterLaws
  import opened SceneLaws
  import opened Layers
  import opened Frames
  import opened Compositor

  // ---- Blending in numbers ----------------------------------------------------

  /** One channel mixed `alpha` 255ths of the way, rounded down. */
  predicate Mixed(c: Byte, alpha: Byte, d: Byte, out: Byte) {
    255 * out <= c * alpha + d * (255 - alpha) < 255 * out + 255
  }

  lemma MixIs(c: Byte, alpha: Byte, d: Byte)
    ensures 0 <= Mix(c, alpha, d) <= 255 && Mixed(c, alpha, d, Mix(c, alpha, d))
  {
    MixMonotone(c, 255, alpha, d, 255);
    MulIsProduct(c, alpha);
    MulIsProduct(d, 255 - alpha);
  }

  /** Every channel is mixed; strength 0 leaves the pixel and 255 replaces it. */
  lemma BlendMixes(color: Pixel, alpha: Byte, d: Pixel)
    ensures var p := Blend(color, alpha, d);
            && (alpha == 0 ==> p == d) && (alpha == 255 ==> p == color)
            && Mixed(color.a, alpha, d.a, p.a) && Mixed(color.r, alpha, d.r, p.r)
            && Mixed(color.g, alpha, d.g, p.g) && Mixed(color.b, alpha, d.b, p.b)
  {
    if alpha == 0 || alpha == 255 { return; }
    MixIs(color.a, alpha, d.a);
    MixIs(color.r, alpha, d.r);
    MixIs(color.g, alpha, d.g);
    MixIs(color.b, alpha, d.b);
    PackFits(Mix(color.a, alpha, d.a), Mix(color.r, alpha, d.r), Mix(color.g, alpha, d.g), Mix(color.b, alpha, d.b));
  }

  // ---- A box at rest ----------------------------------------------------------

  /** Visible, at this pixel, and with nothing on it but its chrome. */
  predicate BareAt(v: Node, x: int, y: int) {
    && v.flags / 4 % 2 == 1 && v.opacity > 0 && v.texts == [] && v.tex == 0xFFFF_FFFF
    && v.rect.x <= x < v.rect.x + v.rect.w && v.rect.y <= y < v.rect.y + v.rect.h
  }

  /** Square, filled and without a border. */
  predicate Square(st: Style) { st.radius == 0 && st.borderW == 0 && st.fill != Pixel(0, 0, 0, 0) }

  /** The style in the table; else the role's; else the generic role's. */
  predicate Wears(theme: Theme, v: Node, st: Style) {
    if 1 <= v.style < |theme.styles| then st == theme.styles[v.style]
    else if v.role <= 0x20 then st == theme.defaults(v.role)
    else st == theme.defaults(0)
  }

  /** A box at rest takes the fill of the style it wears. */
  lemma RestingBox(look: Look, v: Node, st: Style, x: int, y: int, d: Pixel)
    requires BareAt(v, x, y) && Wears(look.theme, v, st) && Square(st)
    requires look.effects ==> forall a :: a in look.anims && !a.Idle? ==> a.id != v.id
    ensures NodePx(look, v, x, y, d) == st.fill
  {
  }

  /** Any square box: the colour of the border, if it has one, within its width of an edge; inside
      the fill, or what was there without one. */
  lemma BorderedBox(look: Look, v: Node, st: Style, x: int, y: int, d: Pixel)
    requires BareAt(v, x, y) && Wears(look.theme, v, st) && st.radius == 0
    requires look.effects ==> forall a :: a in look.anims && !a.Idle? ==> a.id != v.id
    ensures var none := Pixel(0, 0, 0, 0);
      NodePx(look, v, x, y, d) ==
      if st.border != none && (x - v.rect.x < st.borderW || v.rect.x + v.rect.w - x <= st.borderW
                               || y - v.rect.y < st.borderW || v.rect.y + v.rect.h - y <= st.borderW) then st.border
      else if st.fill != none then st.fill else d
  {
  }

  /** A rounded box: the radius is cut to half the shorter side, the corners to discs; the border is
      the ring between that shape and the one its width further in, with a radius as much smaller.
      (What happens without a fill, or with the inner top edge above the screen, is ChromeIsRing's.) */
  lemma RoundedBox(look: Look, v: Node, st: Style, rr: nat, x: int, y: int, d: Pixel) returns (outer: bool, inner: bool)
    requires BareAt(v, x, y) && Wears(look.theme, v, st) && st.radius > 0 && st.fill != Pixel(0, 0, 0, 0)
    requires rr <= st.radius && 2 * rr <= v.rect.w && 2 * rr <= v.rect.h
    requires rr == st.radius || 2 * rr + 1 >= v.rect.w || 2 * rr + 1 >= v.rect.h
    requires look.effects ==> forall a :: a in look.anims && !a.Idle? ==> a.id != v.id
    ensures Shapes(v.rect, st.borderW, rr, x, y, outer, inner)
    ensures var p := NodePx(look, v, x, y, d);
      if st.borderW == 0 || st.border == Pixel(0, 0, 0, 0) || rr == 0 then p == if outer then st.fill else d
      else v.rect.y + st.borderW as int >= 0 ==> p == if inner then st.fill else if outer then st.border else d
  {
    var bw := if st.border == Pixel(0, 0, 0, 0) then 0 else st.borderW;
    var border := if bw > 0 then st.border else st.fill;
    outer, inner := InRound(v.rect, rr, x, y), InRound(Inner(v.rect, st.borderW), Less(rr, st.borderW), x, y);
    ShapesAre(v.rect, st.borderW, rr, x, y, outer, inner);
    RoundedChrome(v.rect, st.radius, rr, bw, st.fill, border, x, y, d);
    BoxIsChrome(look, v, st, bw, border, x, y, d);
  }

  /** Inside the rounded rectangle, and inside the one its border leaves. */
  predicate Shapes(r: Rect, bw: nat, rr: nat, x: int, y: int, outer: bool, inner: bool) {
    && outer == InDiscs(r, rr, x, y)
    && inner == InDiscs(Rect(r.x + bw, r.y + bw, r.w - 2 * bw, r.h - 2 * bw), if rr > bw then rr - bw else 0, x, y)
  }

  lemma ShapesAre(r: Rect, bw: nat, rr: nat, x: int, y: int, outer: bool, inner: bool)
    requires outer == InRound(r, rr, x, y) && inner == InRound(Inner(r, bw), Less(rr, bw), x, y)
    ensures Shapes(r, bw, rr, x, y, outer, inner)
  {
    RoundIsDiscs(r, rr, x, y);
    RoundIsDiscs(Inner(r, bw), Less(rr, bw), x, y);
  }

  lemma BoxIsChrome(look: Look, v: Node, st: Style, bw: nat, border: Pixel, x: int, y: int, d: Pixel)
    requires BareAt(v, x, y) && Wears(look.theme, v, st) && st.radius > 0 && st.fill != Pixel(0, 0, 0, 0)
    requires look.effects ==> forall a :: a in look.anims && !a.Idle? ==> a.id != v.id
    requires bw == (if st.border == Pixel(0, 0, 0, 0) then 0 else st.borderW) && border == if bw > 0 then st.border else st.fill
    ensures NodePx(look, v, x, y, d) == ShadeChrome(v.rect, st.radius, bw, st.fill, border, 255, x, y, d)
  {
  }

  lemma RoundedChrome(r: Rect, radius: nat, rr: nat, bw: nat, fill: Pixel, border: Pixel, x: int, y: int, d: Pixel)
    requires !r.Empty() && radius > 0 && fill != Pixel(0, 0, 0, 0)
    requires rr <= radius && 2 * rr <= r.w && 2 * rr <= r.h && (rr == radius || 2 * rr + 1 >= r.w || 2 * rr + 1 >= r.h)
    ensures var p := ShadeChrome(r, radius, bw, fill, border, 255, x, y, d);
      && (bw == 0 || rr == 0 ==> p == if InRound(r, rr, x, y) then fill else d)
      && (bw > 0 && rr > 0 && r.y + bw >= 0 ==> p == if InRound(Inner(r, bw), Less(rr, bw), x, y) then fill
                                                      else if InRound(r, rr, x, y) then border else d)
  {
    assert CapRadius(r, radius) == rr && CapRadius(r, rr) == rr;
    if bw > 0 && rr > 0 { ChromeIsRing(r, radius, bw, fill, border, 255, x, y, d); }
  }

  /** A node that is hidden, fully transparent or empty leaves every pixel. */
  lemma HiddenLeaves(look: Look, v: Node, x: int, y: int, d: Pixel)
    requires v.flags / 4 % 2 == 0 || v.opacity == 0 || v.rect.w <= 0 || v.rect.h <= 0
    ensures NodePx(look, v, x, y, d) == d
  {
  }

  /** What the diff compares: identity, role, flags, style, texture, the texts' signature and the
      rectangle, and nothing else. */
  lemma Compared(a: Node, b: Node, sig: TextSig)
    ensures SameToDiff(a, b, sig) <==>
      a.id == b.id && a.role == b.role && a.flags == b.flags && a.style == b.style && a.tex == b.tex
      && sig(a.texts) == sig(b.texts) && a.rect == b.rect
  {
  }

  // ---- Textures and texts -----------------------------------------------------

  /** The texel over a pixel: opaque ones mix in, premultiplied ones lie over what they let
      through. */
  lemma TexelOver(fmt: Format, o: Byte, s: Pixel, d: Pixel)
    requires Premultiplied(d) && (fmt.Argb? ==> Premultiplied(s))
    ensures var p := BlitPixel(fmt, o, s, d);
      && (fmt.Xrgb? ==> p.a == 255 && Mixed(s.r, o, d.r, p.r) && Mixed(s.g, o, d.g, p.g) && Mixed(s.b, o, d.b, p.b))
      && (fmt.Argb? ==> var rest := 255 - s.a * o / 255;
            && p.a == s.a * o / 255 + d.a * rest / 255 && p.r == s.r * o / 255 + d.r * rest / 255
            && p.g == s.g * o / 255 + d.g * rest / 255 && p.b == s.b * o / 255 + d.b * rest / 255)
  {
    match fmt
    case Xrgb => OpaqueOver(o, s, d);
    case Argb => ArgbOver(o, s, d);
    case OtherFormat => {}
  }

  lemma OpaqueOver(o: Byte, s: Pixel, d: Pixel)
    ensures var p := BlitPixel(Xrgb, o, s, d);
            p.a == 255 && Mixed(s.r, o, d.r, p.r) && Mixed(s.g, o, d.g, p.g) && Mixed(s.b, o, d.b, p.b)
  {
    if o < 255 {
      MixIs(s.r, o, d.r);
      MixIs(s.g, o, d.g);
      MixIs(s.b, o, d.b);
      PackFits(255, Mix(s.r, o, d.r), Mix(s.g, o, d.g), Mix(s.b, o, d.b));
    }
  }

  lemma OverIs(s: Byte, o: Byte, t: Byte, d: Byte)
    ensures Over(s, o, t, d) == s * o / 255 + d * (255 - t) / 255
  {
    MulIsProduct(s, o);
    MulIsProduct(d, 255 - t);
  }

  lemma ArgbOver(o: Byte, s: Pixel, d: Pixel)
    requires Premultiplied(s) && Premultiplied(d)
    ensures var p := BlitPixel(Argb, o, s, d); var rest := 255 - s.a * o / 255;
            && p.a == s.a * o / 255 + d.a * rest / 255 && p.r == s.r * o / 255 + d.r * rest / 255
            && p.g == s.g * o / 255 + d.g * rest / 255 && p.b == s.b * o / 255 + d.b * rest / 255
  {
    var t := Scaled(s.a, o);
    MulIsProduct(s.a, o);
    OverIs(s.a, o, t, d.a);
    OverIs(s.r, o, t, d.r);
    OverIs(s.g, o, t, d.g);
    OverIs(s.b, o, t, d.b);
    OverMonotone(s.r, s.a, o, d.r, d.a);
    OverMonotone(s.g, s.a, o, d.g, d.a);
    OverMonotone(s.b, s.a, o, d.b, d.a);
    PackFits(Over(s.a, o, t, d.a), Over(s.r, o, t, d.r), Over(s.g, o, t, d.g), Over(s.b, o, t, d.b));
  }

  /** The texel at (sx, sy) over `under`, where source and texture both reach; else what is under. */
  ghost function Textured(tex: Texture, src: Rect, o: Byte, sx: int, sy: int, under: Pixel): Pixel
    requires tex.Valid()
  {
    if o > 0 && src.x <= sx < src.x + src.w && src.y <= sy < src.y + src.h && 0 <= sx < tex.w && 0 <= sy < tex.h
    then assert tex.rows[sy] in tex.rows; BlitPixel(tex.fmt, o, tex.rows[sy][sx], under) else under
  }

  /** A texture drawn with its source rectangle's corner at (dx, dy). */
  lemma TextureAt(texs: map<nat, Texture>, ref: nat, dx: int, dy: int, src: Rect, o: Byte, x: int, y: int, d: Pixel)
    requires ref != 0xFFFF_FFFF && ref in texs && texs[ref].Valid()
    ensures TexturePx(texs, ref, dx, dy, src, o, x, y, d) == Textured(texs[ref], src, o, src.x + x - dx, src.y + y - dy, d)
  {
    var tex := texs[ref];
    var sy := src.y + y - dy;
    if 0 <= sy < tex.h { assert tex.rows[sy] in tex.rows; }
  }

  /** A node at rest shows its registered texture from the source rectangle's corner on, where the
      source and the texture both reach, over its chrome, which shows elsewhere. */
  lemma TexturedNode(look: Look, v: Node, x: int, y: int, d: Pixel)
    requires look.anims == [] && SceneLaws.Touches(v, x, y) && v.texts == []
    requires v.tex != 0xFFFF_FFFF && v.tex in look.texs && look.texs[v.tex].Valid()
    ensures NodePx(look, v, x, y, d) ==
      Textured(look.texs[v.tex], v.texSrc, v.opacity, v.texSrc.x + x - v.rect.x, v.texSrc.y + y - v.rect.y,
               NodePx(look, v.(tex := 0xFFFF_FFFF), x, y, d))
  {
    MulByFull(v.opacity);
    var under := ChromePx(v.rect, ResolveStyle(look.theme, v.style, v.role), 255, x, y, d);
    assert NodePx(look, v.(tex := 0xFFFF_FFFF), x, y, d) == under;
    assert NodePx(look, v, x, y, d) == TexturePx(look.texs, v.tex, v.rect.x, v.rect.y, v.texSrc, v.opacity, x, y, under);
    TextureAt(look.texs, v.tex, v.rect.x, v.rect.y, v.texSrc, v.opacity, x, y, under);
  }

  /** In the eight by eight cell of one character of one line, a set bit takes the colour and any
      other pixel is left. */
  lemma {:induction false} TextCell(font: Font, tx: int, ty: int, texts: seq<seq<Byte>>, n: nat, color: Pixel, alpha: nat,
                                    d: Pixel, line: nat, at: nat, row: nat, col: nat)
    requires line < |texts| && n <= |texts| && at < |texts[line]| && row < 8 && col < 8 && alpha <= 255
    ensures TextsPx(font, tx, ty, texts, n, color, alpha, tx + 8 * at + col, ty + 8 * line + row, d)
         == if line < n && font(texts[line][at], row, col) then Blend(color, alpha, d) else d
  {
    if n > 0 {
      TextCell(font, tx, ty, texts, n - 1, color, alpha, d, line, at, row, col);
      CellOf(tx, at, tx + 8 * at + col);
    }
  }

  /** So a node at rest shows the first 48 of its lines, each eight pixels below the one before,
      from its style's padding on. */
  lemma WrittenNode(look: Look, v: Node, st: Style, d: Pixel, line: nat, at: nat, row: nat, col: nat)
    requires look.anims == [] && Wears(look.theme, v, st) && line < |v.texts| && at < |v.texts[line]| && row < 8 && col < 8
    requires SceneLaws.Touches(v, v.rect.x + st.padX + 8 * at + col, v.rect.y + st.padY + 8 * line + row)
    ensures var x, y := v.rect.x + st.padX + 8 * at + col, v.rect.y + st.padY + 8 * line + row;
            NodePx(look, v, x, y, d)
            == if line < 48 && look.theme.font(v.texts[line][at], row, col) then st.text else NodePx(look, v.(texts := []), x, y, d)
  {
    var x, y := v.rect.x + st.padX + 8 * at + col, v.rect.y + st.padY + 8 * line + row;
    var under := TexturePx(look.texs, v.tex, v.rect.x, v.rect.y, v.texSrc, Faded(v.opacity, 255), x, y, ChromePx(v.rect, st, 255, x, y, d));
    TextCell(look.theme.font, v.rect.x + st.padX, v.rect.y + st.padY, v.texts, if |v.texts| <= 48 then |v.texts| else 48, st.text, 255, under,
             line, at, row, col);
    if |v.texts| > 48 {
      CutTexts(look.theme.font, v.rect.x + st.padX, v.rect.y + st.padY, v.texts, 48, 48, st.text, x, y, under);
    }
  }

  lemma {:induction false} CutTexts(font: Font, tx: int, ty: int, texts: seq<seq<Byte>>, cap: nat, n: nat, color: Pixel, x: int, y: int, d: Pixel)
    requires n <= cap <= |texts|
    ensures TextsPx(font, tx, ty, texts[..cap], n, color, 255, x, y, d) == TextsPx(font, tx, ty, texts, n, color, 255, x, y, d)
  {
    if n > 0 { CutTexts(font, tx, ty, texts, cap, n - 1, color, x, y, d); }
  }

  // ---- Sliding in and fading out ----------------------------------------------

  /** How far below its place an enter t ticks old is drawn, how strongly, and how strongly an
      exit t ticks old still shows. */
  const DROP := [6, 5, 4, 3, 3, 2, 1, 0]
  const RISE := [0, 31, 63, 95, 127, 159, 191, 223]
  const FADE := [255, 223, 191, 159, 127, 95, 63, 31]

  lemma EnterTable(t: nat)
    requires t < 8
    ensures SlideOffset(t) == DROP[t] && Min(t * 255 / TICKS, 255) == RISE[t] && ExitAlpha(t) == FADE[t]
  {
  }

  /** An enter t ticks old draws its box exactly in its rectangle moved down by DROP[t], mixed
      in with strength RISE[t]. */
  lemma EnteringBox(look: Look, v: Node, st: Style, t: nat, base: Rect, x: int, y: int, d: Pixel)
    requires t < 8 && look.effects && Wears(look.theme, v, st) && Square(st)
    requires v.flags / 4 % 2 == 1 && v.opacity > 0 && v.texts == [] && v.tex == 0xFFFF_FFFF && v.rect.w > 0 && v.rect.h > 0
    requires Enter(v.id, t, base) in look.anims && forall a :: a in look.anims && !a.Idle? && a.id == v.id ==> a == Enter(v.id, t, base)
    ensures var p := NodePx(look, v, x, y, d);
            if base.x <= x < base.x + base.w && base.y + DROP[t] <= y < base.y + DROP[t] + base.h
            then Mixed(st.fill.a, RISE[t], d.a, p.a) && Mixed(st.fill.r, RISE[t], d.r, p.r)
                 && Mixed(st.fill.g, RISE[t], d.g, p.g) && Mixed(st.fill.b, RISE[t], d.b, p.b)
            else p == d
  {
    var j := FindAnim(look.anims, v.id);
    assert j >= 0 && look.anims[j] in look.anims;
    EnterTable(t);
    BlendMixes(st.fill, RISE[t], d);
  }

  lemma EnterGeom(look: Look, v: Node, t: nat, base: Rect)
    requires t < 8 && look.effects
    requires Enter(v.id, t, base) in look.anims && forall a :: a in look.anims && !a.Idle? && a.id == v.id ==> a == Enter(v.id, t, base)
    ensures Geom(look, v) == (Rect(base.x, base.y + DROP[t], base.w, base.h), RISE[t])
  {
    var j := FindAnim(look.anims, v.id);
    assert j >= 0 && look.anims[j] in look.anims;
    EnterTable(t);
  }

  lemma FadedIs(opacity: Byte, alpha: nat)
    requires alpha <= 255
    ensures 255 * Faded(opacity, alpha) <= alpha * opacity < 255 * Faded(opacity, alpha) + 255
  {
    MulIsProduct(alpha, opacity);
  }

  /** Its texture slides with it, at the node's opacity times that strength. */
  lemma EnteringTexture(look: Look, v: Node, t: nat, base: Rect, x: int, y: int, d: Pixel) returns (o: Byte)
    requires 0 < t < 8 && look.effects && v.flags / 4 % 2 == 1 && v.opacity > 0 && v.rect.w > 0 && v.rect.h > 0 && v.texts == []
    requires Enter(v.id, t, base) in look.anims && forall a :: a in look.anims && !a.Idle? && a.id == v.id ==> a == Enter(v.id, t, base)
    requires v.tex != 0xFFFF_FFFF && v.tex in look.texs && look.texs[v.tex].Valid()
    requires base.x <= x < base.x + base.w && base.y + DROP[t] <= y < base.y + DROP[t] + base.h
    ensures 255 * o as int <= RISE[t] * v.opacity as int < 255 * o as int + 255
    ensures NodePx(look, v, x, y, d) ==
      Textured(look.texs[v.tex], v.texSrc, o, v.texSrc.x + x - base.x, v.texSrc.y + y - base.y - DROP[t],
               NodePx(look, v.(tex := 0xFFFF_FFFF), x, y, d))
  {
    var bare := v.(tex := 0xFFFF_FFFF);
    EnterGeom(look, v, t, base);
    EnterGeom(look, bare, t, base);
    o := Faded(v.opacity, RISE[t]);
    FadedIs(v.opacity, RISE[t]);
    var under := ChromePx(Rect(base.x, base.y + DROP[t], base.w, base.h), ResolveStyle(look.theme, v.style, v.role), RISE[t], x, y, d);
    TextureAt(look.texs, v.tex, base.x, base.y + DROP[t], v.texSrc, o, x, y, under);
    assert NodePx(look, bare, x, y, d) == under;
  }

  /** Its texts do, in their colour at that strength. */
  lemma EnteringText(look: Look, v: Node, st: Style, t: nat, base: Rect, d: Pixel, line: nat, at: nat, row: nat, col: nat)
    requires 0 < t < 8 && look.effects && Wears(look.theme, v, st) && v.flags / 4 % 2 == 1 && v.opacity > 0 && v.rect.w > 0 && v.rect.h > 0
    requires Enter(v.id, t, base) in look.anims && forall a :: a in look.anims && !a.Idle? && a.id == v.id ==> a == Enter(v.id, t, base)
    requires line < |v.texts| <= 48 && at < |v.texts[line]| && row < 8 && col < 8
    requires st.padX + 8 * at + col < base.w && st.padY + 8 * line + row < base.h
    ensures var x, y := base.x + st.padX + 8 * at + col, base.y + DROP[t] + st.padY + 8 * line + row;
            var under := NodePx(look, v.(texts := []), x, y, d);
            NodePx(look, v, x, y, d) == if look.theme.font(v.texts[line][at], row, col) then Blend(st.text, RISE[t], under) else under
  {
    EnterGeom(look, v, t, base);
    EnterGeom(look, v.(texts := []), t, base);
    var rc := Rect(base.x, base.y + DROP[t], base.w, base.h);
    var x, y := rc.x + st.padX + 8 * at + col, rc.y + st.padY + 8 * line + row;
    var under := TexturePx(look.texs, v.tex, rc.x, rc.y, v.texSrc, Faded(v.opacity, RISE[t]), x, y, ChromePx(rc, st, RISE[t], x, y, d));
    TextCell(look.theme.font, rc.x + st.padX, rc.y + st.padY, v.texts, |v.texts|, st.text, RISE[t], under, line, at, row, col);
  }

  /** A phantom t ticks old draws its box in its rectangle with strength FADE[t], and from eight
      ticks on nothing. */
  lemma FadingOut(look: Look, a: Anim, x: int, y: int, d: Pixel)
    requires a.Exit? && a.look.texts == [] && a.look.tex == 0xFFFF_FFFF
    requires a.look.radius == 0 && a.look.borderW == 0 && a.look.fill != Pixel(0, 0, 0, 0)
    ensures var p := PhantomPx(look, a, x, y, d); var c := a.look.fill;
            if a.t < 8 && a.base.x <= x < a.base.x + a.base.w && a.base.y <= y < a.base.y + a.base.h
            then Mixed(c.a, FADE[a.t], d.a, p.a) && Mixed(c.r, FADE[a.t], d.r, p.r)
                 && Mixed(c.g, FADE[a.t], d.g, p.g) && Mixed(c.b, FADE[a.t], d.b, p.b)
            else p == d
  {
    if a.t < 8 {
      EnterTable(a.t);
      BlendMixes(a.look.fill, FADE[a.t], d);
    }
  }

  /** A node that is deleted with the entry of its last state goes on as a phantom in the style it
      wore, in the rectangle it had; its texture is then taken from its corner, all of it. */
  lemma DeletedFades(look: Look, v: Node, rn: RNode, st: Style, t: nat, x: int, y: int, d: Pixel)
    requires rn.key == KeyOf(v, look.theme.sig) && Wears(look.theme, v, st) && Square(st) && t < 8
    requires look.theme.snapshot(rn.texts) == [] && v.tex == 0xFFFF_FFFF
    ensures var p := PhantomPx(look, Exit(v.id, t, v.rect, ExitLook(look.theme, rn)), x, y, d);
            if v.rect.x <= x < v.rect.x + v.rect.w && v.rect.y <= y < v.rect.y + v.rect.h
            then Mixed(st.fill.a, FADE[t], d.a, p.a) && Mixed(st.fill.r, FADE[t], d.r, p.r)
                 && Mixed(st.fill.g, FADE[t], d.g, p.g) && Mixed(st.fill.b, FADE[t], d.b, p.b)
            else p == d
  {
    FadingOut(look, Exit(v.id, t, v.rect, ExitLook(look.theme, rn)), x, y, d);
  }

  /** The phantom of a bordered square box: the border's colour within its width of an edge. */
  lemma DeletedBorder(look: Look, v: Node, rn: RNode, st: Style, x: int, y: int, d: Pixel)
    requires rn.key == KeyOf(v, look.theme.sig) && BareAt(v, x, y) && Wears(look.theme, v, st) && st.radius == 0
    requires st.fill != Pixel(0, 0, 0, 0) && st.border != Pixel(0, 0, 0, 0) && look.theme.snapshot(rn.texts) == []
    ensures PhantomPx(look, Exit(v.id, 0, v.rect, ExitLook(look.theme, rn)), x, y, d)
         == NodePx(Plain(look), v, x, y, d)
  {
  }

  /** What a table entry remembers: the texts, 48 lines at most, of the last time their signature
      moved, and everything else of the last time the node was met. */
  lemma Remembered(rn: RNode, v: Node, sig: TextSig)
    ensures var cut := if |v.texts| <= 48 then v.texts else v.texts[..48];
            var first, again := FreshEntry(v, sig), Refreshed(rn, v, sig);
            && first.id == v.id && first.texts == cut && first.opacity == again.opacity == v.opacity && first.seen && again.seen
            && again.id == rn.id && again.texts == (if sig(v.texts) == rn.key.sig then rn.texts else cut)
            && first.key == again.key == Key(v.role, v.flags, v.style, v.tex, sig(v.texts), v.rect)
  {
  }

  /** A phantom shows its texture whole, from its rectangle's corner on. */
  lemma DeletedTexture(look: Look, v: Node, rn: RNode, t: nat, x: int, y: int, d: Pixel) returns (o: Byte)
    requires rn.key == KeyOf(v, look.theme.sig) && look.theme.snapshot(rn.texts) == [] && t < 8 && v.rect.Has(x, y)
    requires v.tex != 0xFFFF_FFFF && v.tex in look.texs && look.texs[v.tex].Valid()
    ensures 255 * o as int <= FADE[t] * rn.opacity as int < 255 * o as int + 255
    ensures var a, tex := Exit(v.id, t, v.rect, ExitLook(look.theme, rn)), look.texs[v.tex];
            PhantomPx(look, a, x, y, d) == Textured(tex, Rect(0, 0, tex.w, tex.h), o, x - v.rect.x, y - v.rect.y,
                                                    PhantomPx(look, a.(look := a.look.(tex := 0xFFFF_FFFF)), x, y, d))
  {
    EnterTable(t);
    o := Faded(rn.opacity, FADE[t]);
    FadedIs(rn.opacity, FADE[t]);
    var a, tex := Exit(v.id, t, v.rect, ExitLook(look.theme, rn)), look.texs[v.tex];
    TextureAt(look.texs, v.tex, v.rect.x, v.rect.y, Rect(0, 0, tex.w, tex.h), o, x, y,
              PhantomPx(look, a.(look := a.look.(tex := 0xFFFF_FFFF)), x, y, d));
  }

  /** The remembered texts of a phantom have no padding. */
  lemma DeletedText(look: Look, v: Node, rn: RNode, st: Style, t: nat, d: Pixel, line: nat, at: nat, row: nat, col: nat)
    requires rn.key == KeyOf(v, look.theme.sig) && Wears(look.theme, v, st) && t < 8
    requires var texts := look.theme.snapshot(rn.texts); line < |texts| && at < |texts[line]| && row < 8 && col < 8
    requires 8 * at + col < v.rect.w && 8 * line + row < v.rect.h
    ensures var x, y := v.rect.x + 8 * at + col, v.rect.y + 8 * line + row;
            var a := Exit(v.id, t, v.rect, ExitLook(look.theme, rn));
            var under := PhantomPx(look, a.(look := a.look.(texts := [])), x, y, d);
            PhantomPx(look, a, x, y, d)
            == if look.theme.font(look.theme.snapshot(rn.texts)[line][at], row, col) then Blend(st.text, FADE[t], under) else under
  {
    EnterTable(t);
    var x, y := v.rect.x + 8 * at + col, v.rect.y + 8 * line + row;
    var a := Exit(v.id, t, v.rect, ExitLook(look.theme, rn));
    var under := PhantomPx(look, a.(look := a.look.(texts := [])), x, y, d);
    TextCell(look.theme.font, v.rect.x, v.rect.y, a.look.texts, |a.look.texts|, st.text, FADE[t], under, line, at, row, col);
  }

  /** The sweep of an entry the walk did not meet: with effects its phantom starts in the first
      idle slot, at tick 0; without, its rectangle is damaged. */
  lemma SweepStarts(fx: Fx, mode: Mode, rn: RNode, i: nat)
    requires !rn.seen && rn.key.flags / 4 % 2 == 1 && rn.key.rect.w > 0 && rn.key.rect.h > 0
    requires forall j :: 0 <= j < |fx.anims| ==> fx.anims[j].Idle? || fx.anims[j].id != rn.id
    requires i < |fx.anims| && fx.anims[i].Idle? && forall j :: 0 <= j < i ==> !fx.anims[j].Idle?
    ensures SweepFx(fx, mode, Slot.Used(rn)) ==
      if mode.effects && !mode.replaying then Fx(fx.anims[i := Exit(rn.id, 0, rn.key.rect, ExitLook(mode.theme, rn))], fx.damage)
      else Fx(fx.anims, Add(fx.damage, rn.key.rect))
  {
    FirstIdleIs(fx.anims, 0, i);
  }

  lemma {:induction false} FirstIdleIs(anims: seq<Anim>, k: nat, i: nat)
    requires k <= i < |anims| && anims[i].Idle? && forall j :: k <= j < i ==> !anims[j].Idle?
    ensures FirstIdle(anims, k) == i
    decreases i - k
  {
    if k < i { FirstIdleIs(anims, k + 1, i); }
  }

  /** The tick: an enter or exit lives for eight ticks; what it damages is its rectangle and, while
      it is below it, the rectangle it is drawn in next; at the end of an enter the whole band. */
  lemma TickDamages(a: Anim, damage: seq<Rect>)
    requires !a.Idle? && a.t < 8
    ensures Aged(a) == if a.t == 7 then Idle else if a.Enter? then Enter(a.id, a.t + 1, a.base) else Exit(a.id, a.t + 1, a.base, a.look)
    ensures AgeDamage(a, damage) ==
      if a.Exit? then Add(damage, a.base)
      else if a.t == 7 then Add(damage, Rect(a.base.x, a.base.y, a.base.w, a.base.h + 6))
      else if DROP[a.t + 1] == 0 then Add(damage, a.base)
      else Add(Add(damage, a.base), Rect(a.base.x, a.base.y + DROP[a.t + 1], a.base.w, a.base.h))
  {
    if a.t < 7 { EnterTable(a.t + 1); }
  }

  // ---- What one node of the walk does -----------------------------------------

  predicate Unmoved(anims: seq<Anim>, id: nat) { forall j :: 0 <= j < |anims| ==> anims[j].Idle? || anims[j].id != id }

  predicate FirstFree(anims: seq<Anim>, i: nat) { i < |anims| && anims[i].Idle? && forall j :: 0 <= j < i ==> !anims[j].Idle? }

  /** A node new to the table: with effects it slides in, from tick 0 in the first idle slot, when it
      is drawn at all; otherwise its rectangle is damaged. */
  lemma NewNode(p: Progress, mode: Mode, v: Node, i: nat)
    requires |p.model.slots| == Pow2(p.model.shift) && Find(p.model, v.id) < 0
    requires Unmoved(p.fx.anims, v.id) && FirstFree(p.fx.anims, i)
    ensures StepFx(p, mode, v) ==
      if mode.effects && !mode.replaying && v.flags / 4 % 2 == 1 && v.rect.w > 0 && v.rect.h > 0
      then p.fx.(anims := p.fx.anims[i := Enter(v.id, 0, v.rect)])
      else if v.flags / 4 % 2 == 1 then p.fx.(damage := Add(p.fx.damage, v.rect)) else p.fx
  {
    FirstIdleIs(p.fx.anims, 0, i);
  }

  /** One whose entry differs and that is in no transition: what was drawn and what is to be drawn
      are damaged, once where the rectangle is the same. */
  lemma ChangedNode(p: Progress, mode: Mode, v: Node, at: nat)
    requires |p.model.slots| == Pow2(p.model.shift) && Find(p.model, v.id) == at
    requires p.model.slots[at].rn.key != KeyOf(v, mode.theme.sig) && Unmoved(p.fx.anims, v.id)
    ensures var was := p.model.slots[at].rn.key;
            var shown := v.flags / 4 % 2 == 1 && v.rect.w > 0 && v.rect.h > 0;
            var before := if was.flags / 4 % 2 == 1 && was.rect.w > 0 && was.rect.h > 0 && !(shown && was.rect == v.rect)
                          then Add(p.fx.damage, was.rect) else p.fx.damage;
            StepFx(p, mode, v) == Fx(p.fx.anims, if shown then Add(before, v.rect) else before)
  {
  }

  /** While it slides in, the enter keeps its age and is aimed at the new rectangle; while its
      phantom fades, the phantom goes and, where the node is drawn, an enter begins. */
  lemma MovedNode(fx: Fx, mode: Mode, v: Node, j: nat, i: nat, shown: bool)
    requires mode.effects && j < |fx.anims| && !fx.anims[j].Idle? && fx.anims[j].id == v.id
    requires Unmoved(fx.anims[j := Idle], v.id) && FirstFree(fx.anims[j := Idle], i)
    ensures Retarget(fx, mode, v, shown) == fx.(anims :=
              if fx.anims[j].Enter? then fx.anims[j := Enter(v.id, fx.anims[j].t, v.rect)]
              else if !mode.replaying && shown then fx.anims[j := Idle][i := Enter(v.id, 0, v.rect)] else fx.anims[j := Idle])
  {
    assert forall k :: 0 <= k < j ==> fx.anims[k] == fx.anims[j := Idle][k];
    FoundAt(fx.anims, v.id, 0, j);
    FirstIdleIs(fx.anims[j := Idle], 0, i);
  }

  lemma {:induction false} FoundAt(anims: seq<Anim>, id: nat, k: nat, j: nat)
    requires k <= j < |anims| && !anims[j].Idle? && anims[j].id == id
    requires forall i :: k <= i < j ==> anims[i].Idle? || anims[i].id != id
    ensures FindAnim(anims, id, k) == j
    decreases j - k
  {
    if k < j { FoundAt(anims, id, k + 1, j); }
  }

  // ---- The painting method ----------------------------------------------------

  /** paint_node on a box at rest: its pixels inside the clip take the fill, no other changes. */
  method PaintBox(fb: array2<Pixel>, look: Look, v: Node, st: Style, clip: Rect)
    requires v.flags / 4 % 2 == 1 && v.opacity > 0 && v.texts == [] && v.tex == 0xFFFF_FFFF
    requires Wears(look.theme, v, st) && Square(st) && (look.effects ==> forall a :: a in look.anims && !a.Idle? ==> a.id != v.id)
    modifies fb
    ensures forall x, y :: 0 <= x < fb.Length1 && 0 <= y < fb.Length0 ==>
      fb[y, x] == if clip.Has(x, y) && v.rect.x <= x < v.rect.x + v.rect.w && v.rect.y <= y < v.rect.y + v.rect.h then st.fill
                  else old(fb[y, x])
  {
    forall x, y, d | BareAt(v, x, y) ensures NodePx(look, v, x, y, d) == st.fill { RestingBox(look, v, st, x, y, d); }
    PaintNode(fb, look, v, clip);
  }

  /** paint_node on a box t ticks into its enter. */
  method PaintEntering(fb: array2<Pixel>, look: Look, v: Node, st: Style, t: nat, base: Rect, clip: Rect)
    requires t < 8 && look.effects && Wears(look.theme, v, st) && Square(st)
    requires v.flags / 4 % 2 == 1 && v.opacity > 0 && v.texts == [] && v.tex == 0xFFFF_FFFF && v.rect.w > 0 && v.rect.h > 0
    requires Enter(v.id, t, base) in look.anims && forall a :: a in look.anims && !a.Idle? && a.id == v.id ==> a == Enter(v.id, t, base)
    modifies fb
    ensures forall x, y :: 0 <= x < fb.Length1 && 0 <= y < fb.Length0 ==>
      if clip.Has(x, y) && base.x <= x < base.x + base.w && base.y + DROP[t] <= y < base.y + DROP[t] + base.h
      then Mixed(st.fill.a, RISE[t], old(fb[y, x]).a, fb[y, x].a) && Mixed(st.fill.r, RISE[t], old(fb[y, x]).r, fb[y, x].r)
           && Mixed(st.fill.g, RISE[t], old(fb[y, x]).g, fb[y, x].g) && Mixed(st.fill.b, RISE[t], old(fb[y, x]).b, fb[y, x].b)
      else fb[y, x] == old(fb[y, x])
  {
    PaintNode(fb, look, v, clip);
    forall x, y | 0 <= x < fb.Length1 && 0 <= y < fb.Length0
      ensures if clip.Has(x, y) && base.x <= x < base.x + base.w && base.y + DROP[t] <= y < base.y + DROP[t] + base.h
              then Mixed(st.fill.a, RISE[t], old(fb[y, x]).a, fb[y, x].a) && Mixed(st.fill.r, RISE[t], old(fb[y, x]).r, fb[y, x].r)
                   && Mixed(st.fill.g, RISE[t], old(fb[y, x]).g, fb[y, x].g) && Mixed(st.fill.b, RISE[t], old(fb[y, x]).b, fb[y, x].b)
              else fb[y, x] == old(fb[y, x])
    {
      EnteringBox(look, v, st, t, base, x, y, old(fb[y, x]));
    }
  }

  // ---- What lies on top -------------------------------------------------------

  /** Nodes later in document order are painted over earlier ones. */
  lemma {:induction false} LastShows(look: Look, nodes: seq<Node>, k: nat, n: nat, x: int, y: int, d: Pixel, p: Pixel)
    requires k < n <= |nodes| && forall c :: NodePx(look, nodes[k], x, y, c) == p
    requires forall j, c :: k < j < n ==> NodePx(look, nodes[j], x, y, c) == c
    ensures WalkPx(look, nodes, n, x, y, d) == p
  {
    if k < n - 1 { LastShows(look, nodes, k, n - 1, x, y, d, p); }
  }

  /** Phantoms are painted over the nodes of their layer, later slots over earlier ones: one that has
      just begun hides whatever lies there. */
  lemma PhantomOnTop(v: View, k: nat, x: int, y: int, d: Pixel)
    requires !v.dead && v.look.effects && k < |v.look.anims| && v.look.anims[k].Exit?
    requires var a := v.look.anims[k];
             && a.t == 0 && a.base.Has(x, y) && a.look.texts == [] && a.look.tex == 0xFFFF_FFFF
             && a.look.radius == 0 && a.look.borderW == 0 && a.look.fill != Pixel(0, 0, 0, 0)
    requires forall j :: k < j < |v.look.anims| && v.look.anims[j].Exit? ==> !v.look.anims[j].base.Has(x, y)
    ensures LayerPx(v, x, y, d) == v.look.anims[k].look.fill
  {
    LastPhantom(v.look, k, |v.look.anims|, x, y, WalkPx(v.look, v.nodes, |v.nodes|, x, y, d));
  }

  lemma {:induction false} LastPhantom(look: Look, k: nat, n: nat, x: int, y: int, d: Pixel)
    requires k < n <= |look.anims| && look.anims[k].Exit?
    requires forall c :: PhantomPx(look, look.anims[k], x, y, c) == look.anims[k].look.fill
    requires forall j :: k < j < n && look.anims[j].Exit? ==> !look.anims[j].base.Has(x, y)
    ensures ExitsPx(look, n, x, y, d) == look.anims[k].look.fill
  {
    if k < n - 1 { LastPhantom(look, k, n - 1, x, y, d); }
  }

  /** And layers over the layers below. */
  lemma {:induction false} TopLayerShows(clear: Pixel, views: seq<View>, i: nat, n: nat, x: int, y: int, p: Pixel)
    requires i < n <= |views| && forall c :: LayerPx(views[i], x, y, c) == p
    requires forall j, c :: i < j < n ==> LayerPx(views[j], x, y, c) == c
    ensures ScenePx(clear, views, n, x, y) == p
  {
    if i < n - 1 { TopLayerShows(clear, views, i, n - 1, x, y, p); }
  }

  // ---- On the desk ------------------------------------------------------------

  /** Node k of layer i is a bare box wearing this style, and nothing else reaches the pixel. */
  ghost predicate Uncovered(c: Compositor, i: nat, k: nat, st: Style, x: int, y: int)
    reads c, c.fb
  {
    && 0 <= x < c.fb.Length1 && 0 <= y < c.fb.Length0
    && i < |c.ly| && !c.ly[i].dead && k < |c.ly[i].store.nodes|
    && BareAt(c.ly[i].store.nodes[k], x, y) && Wears(c.theme, c.ly[i].store.nodes[k], st) && Square(st)
    && (forall j :: k < j < |c.ly[i].store.nodes| ==> !SceneLaws.Touches(c.ly[i].store.nodes[j], x, y))
    && (forall m, j :: i < m < |c.ly| && !c.ly[m].dead && 0 <= j < |c.ly[m].store.nodes| ==>
          !SceneLaws.Touches(c.ly[m].store.nodes[j], x, y))
    && (c.effects ==> OffZones(c.ly, x, y))
  }

  lemma BoxOnLayer(c: Compositor, i: nat, k: nat, st: Style, x: int, y: int, d: Pixel)
    requires c.Inv() && c.Current() && Uncovered(c, i, k, st, x, y)
    ensures LayerPx(ViewOf(c.ly[i], c.ly[i].store.nodes, c.theme, c.effects), x, y, d) == st.fill
  {
    var l := c.ly[i];
    var v := ViewOf(l, l.store.nodes, c.theme, c.effects);
    var plain := Plain(v.look);
    EachAt(Step, c.ly, c.painted, c.theme, c.effects, |c.ly|, i);
    LayerPlain(v, c.theme, x, y, d);
    forall p ensures NodePx(plain, l.store.nodes[k], x, y, p) == st.fill { RestingBox(plain, l.store.nodes[k], st, x, y, p); }
    LastShows(plain, l.store.nodes, k, |l.store.nodes|, x, y, d, st.fill);
  }

  lemma NothingOnLayer(c: Compositor, m: nat, x: int, y: int, d: Pixel)
    requires c.Inv() && c.Current() && m < |c.ly| && (c.effects ==> OffZones(c.ly, x, y))
    requires !c.ly[m].dead ==> forall j :: 0 <= j < |c.ly[m].store.nodes| ==> !SceneLaws.Touches(c.ly[m].store.nodes[j], x, y)
    ensures LayerPx(ViewOf(c.ly[m], c.ly[m].store.nodes, c.theme, c.effects), x, y, d) == d
  {
    var l := c.ly[m];
    var v := ViewOf(l, l.store.nodes, c.theme, c.effects);
    if !l.dead {
      EachAt(Step, c.ly, c.painted, c.theme, c.effects, |c.ly|, m);
      LayerPlain(v, c.theme, x, y, d);
      NothingWalked(Plain(v.look), l.store.nodes, |l.store.nodes|, x, y, d);
    }
  }

  lemma {:induction false} NothingWalked(look: Look, nodes: seq<Node>, n: nat, x: int, y: int, d: Pixel)
    requires n <= |nodes| && look.anims == [] && forall j :: 0 <= j < n ==> !SceneLaws.Touches(nodes[j], x, y)
    ensures WalkPx(look, nodes, n, x, y, d) == d
  {
    if n > 0 { NothingWalked(look, nodes, n - 1, x, y, d); }
  }

  lemma BoxOnDesk(c: Compositor, i: nat, k: nat, st: Style, x: int, y: int)
    requires c.Inv() && c.Current() && Uncovered(c, i, k, st, x, y)
    ensures c.FullRepaintPx(x, y) == st.fill
  {
    var views := ViewsOf(c.ly, StoreNodes(c.ly), c.theme, c.effects);
    forall d ensures LayerPx(views[i], x, y, d) == st.fill { BoxOnLayer(c, i, k, st, x, y, d); }
    forall m, d | i < m < |views| ensures LayerPx(views[m], x, y, d) == d { NothingOnLayer(c, m, x, y, d); }
    TopLayerShows(c.clear, views, i, |views|, x, y, st.fill);
  }

  /** After a ready frame every uncovered box takes the fill of the style it wears. */
  method FrameShows(c: Compositor) returns (ok: bool)
    requires c.Inv() && c.FrameReady() && (if c.Forced() then c.UpToDate() else c.ly[0].store.version > 0)
    modifies c, c.fb
    ensures ok == !old(c.ly[0].store.failed) && c.fb == old(c.fb) && c.theme == old(c.theme) && (ok ==> c.Inv() && c.Current())
    ensures ok ==> forall i: nat, k: nat, st: Style, x: int, y: int :: Uncovered(c, i, k, st, x, y) ==> c.fb[y, x] == st.fill
  {
    ok := c.Frame();
    if ok {
      forall i: nat, k: nat, st: Style, x: int, y: int | Uncovered(c, i, k, st, x, y) ensures c.fb[y, x] == st.fill {
        BoxOnDesk(c, i, k, st, x, y);
        OffItsTails(c, x, y);
      }
    }
  }

  lemma OffItsTails(c: Compositor, x: int, y: int)
    requires c.effects ==> OffZones(c.ly, x, y)
    ensures c.effects ==> OffTails(c.ly, x, y)
  {
    if c.effects {
      forall i | 0 <= i < |c.ly| && !c.ly[i].dead ensures !InTail(c.ly[i].anims, x, y) { assert !InZone(c.ly[i].anims, x, y); }
    }
  }

  /** A style changed while the stores rest, and the frame after it: every uncovered box of that
      style shows the new fill. */
  method RestyleShows(c: Compositor, ref: nat, st: Style) returns (ok: bool)
    requires c.Inv() && c.Current() && c.Calm() && 1 <= ref < |c.theme.styles| && Square(st)
    modifies c, c.fb
    ensures c.fb == old(c.fb)
    ensures ok ==> forall i: nat, k: nat, x: int, y: int, was: Style ::
              Uncovered(c, i, k, was, x, y) && c.ly[i].store.nodes[k].style == ref ==> c.fb[y, x] == st.fill
    ensures ok ==> c.theme == old(c.theme).(styles := old(c.theme).styles[ref := st])
  {
    var _ := c.SetStyle(ref, st);
    c.QuietReady();
    ok := FrameShows(c);
  }
}
