// What a node at rest does to one pixel, as a value: exactly when two nodes that the
// diff takes for the same also paint alike.
module Ink {
  import opened Pixels
  import opened Raster
  import opened SceneModel
  import opened Transitions
  import opened Painting
  import opened SceneLaws
  import opened Layers

  /** Leave the pixel, replace it, lay a premultiplied colour over it, or mix an opaque texel
      into it. */
  datatype Ink = Keep | Paint(c: Pixel) | Veil(s: Pixel) | Tint(opacity: Byte, t: Pixel)

  function Under(s: Byte, a: Byte, d: nat): nat { s + Mul(d, 255 - a) / 255 }

  function Apply(i: Ink, d: Pixel): Pixel {
    match i
    case Keep => d
    case Paint(c) => c
    case Veil(s) => Pack(Under(s.a, s.a, d.a), Under(s.r, s.a, d.r), Under(s.g, s.a, d.g), Under(s.b, s.a, d.b))
    case Tint(o, t) => Pack(255, Mix(t.r, o, d.r), Mix(t.g, o, d.g), Mix(t.b, o, d.b))
  }

  /** Inks as they occur: a veil shows something and lets something through, a tint mixes. */
  predicate Proper(i: Ink) {
    match i
    case Keep => true
    case Paint(_) => true
    case Veil(s) => s != CLEAR_WORD && s.a < 255
    case Tint(o, _) => 0 < o < 255
  }

  // ---- When two inks are the same ---------------------------------------------

  /** Two texel channels that mix alike into everything, rounding included. */
  ghost predicate MixSame(c: nat, c': nat, o: Byte) { forall d: Byte :: Mix(c, o, d) == Mix(c', o, d) }

  /** The same ink; tints may differ where rounding hides it. */
  ghost predicate InkSame(i: Ink, j: Ink) {
    i == j || (i.Tint? && j.Tint? && i.opacity == j.opacity
               && MixSame(i.t.r, j.t.r, i.opacity) && MixSame(i.t.g, j.t.g, i.opacity) && MixSame(i.t.b, j.t.b, i.opacity))
  }

  const WHITE := Pixel(255, 255, 255, 255)

  lemma MulEnds(k: nat)
    ensures Mul(0, k) == 0 && Mul(255, k) == 255 * k
  {
    MulByFull(k);
  }

  lemma UnderEnds(s: Byte, a: Byte)
    ensures Under(s, a, 0) == s && Under(s, a, 255) == s + 255 - a
  {
    MulEnds(255 - a);
  }

  lemma MixEnds(c: Byte, o: Byte)
    ensures 0 <= Mix(c, o, 0) <= Mix(c, o, 255) <= 255 && Mix(c, o, 255) == Mix(c, o, 0) + 255 - o
  {
    MulEnds(255 - o);
    MixMonotone(c, 255, o, 0, 255);
    MixMonotone(c, 255, o, 255, 255);
  }

  lemma TintChannels(i: Ink, d: Pixel)
    requires i.Tint?
    ensures var p := Apply(i, d);
            p.a == 255 && p.r == Mix(i.t.r, i.opacity, d.r) && p.g == Mix(i.t.g, i.opacity, d.g) && p.b == Mix(i.t.b, i.opacity, d.b)
  {
    MixMonotone(i.t.r, 255, i.opacity, d.r, 255);
    MixMonotone(i.t.g, 255, i.opacity, d.g, 255);
    MixMonotone(i.t.b, 255, i.opacity, d.b, 255);
    PackFits(255, Mix(i.t.r, i.opacity, d.r), Mix(i.t.g, i.opacity, d.g), Mix(i.t.b, i.opacity, d.b));
  }

  lemma VeilEnds(s: Pixel)
    ensures Apply(Veil(s), CLEAR_WORD) == s && Apply(Veil(s), WHITE).a == 255
  {
    UnderEnds(s.a, s.a);
    UnderEnds(s.r, s.a);
    UnderEnds(s.g, s.a);
    UnderEnds(s.b, s.a);
    PackFits(s.a, s.r, s.g, s.b);
  }

  lemma TintEnds(i: Ink)
    requires i.Tint?
    ensures Apply(i, CLEAR_WORD).a == 255 && Apply(i, WHITE).r == Apply(i, CLEAR_WORD).r + 255 - i.opacity
  {
    TintChannels(i, CLEAR_WORD);
    TintChannels(i, WHITE);
    MixEnds(i.t.r, i.opacity);
  }

  /** What an ink does to a clear pixel and to a white one tells the kinds apart. */
  lemma Ends(i: Ink)
    requires Proper(i)
    ensures i.Veil? ==> Apply(i, CLEAR_WORD) == i.s && Apply(i, WHITE).a == 255
    ensures i.Tint? ==> Apply(i, CLEAR_WORD).a == 255 && Apply(i, WHITE).r == Apply(i, CLEAR_WORD).r + 255 - i.opacity
  {
    match i
    case Veil(s) => VeilEnds(s);
    case Tint(_, _) => TintEnds(i);
    case _ => {}
  }

  /** Inks that act alike on the clear and the white pixel are of one kind and strength. */
  lemma SameKind(i: Ink, j: Ink)
    requires Proper(i) && Proper(j)
    requires Apply(i, CLEAR_WORD) == Apply(j, CLEAR_WORD) && Apply(i, WHITE) == Apply(j, WHITE)
    ensures i == j || (i.Tint? && j.Tint? && i.opacity == j.opacity)
  {
    Ends(i);
    Ends(j);
  }

  /** Two inks act alike on every pixel if and only if they are the same. */
  lemma InkSameIff(i: Ink, j: Ink)
    requires Proper(i) && Proper(j)
    ensures (forall d :: Apply(i, d) == Apply(j, d)) <==> InkSame(i, j)
  {
    if forall d :: Apply(i, d) == Apply(j, d) {
      SameKind(i, j);
      if i != j {
        forall d: Byte
          ensures Mix(i.t.r, i.opacity, d) == Mix(j.t.r, i.opacity, d) && Mix(i.t.g, i.opacity, d) == Mix(j.t.g, i.opacity, d)
               && Mix(i.t.b, i.opacity, d) == Mix(j.t.b, i.opacity, d)
        {
          TintChannels(i, Pixel(d, d, d, d));
          TintChannels(j, Pixel(d, d, d, d));
        }
      }
    } else if InkSame(i, j) {
      forall d ensures Apply(i, d) == Apply(j, d) {
        if i != j { TintChannels(i, d); TintChannels(j, d); }
      }
    }
  }

  // ---- The ink of a node ------------------------------------------------------

  function TexelInk(fmt: Format, opacity: Byte, texel: Pixel): (i: Ink)
    requires opacity > 0
    ensures Proper(i)
  {
    match fmt
    case Xrgb => if opacity == 255 then Paint(texel.(a := 255)) else Tint(opacity, texel)
    case Argb =>
      var s := ScaledTexel(opacity, texel);
      if s.a == 255 then Paint(s) else if s == CLEAR_WORD then Keep else Veil(s)
    case OtherFormat => Keep
  }

  lemma UnderOpaque(s: Byte, d: Byte)
    ensures Under(s, 255, d) == s && Under(0, 0, d) == d
  {
    MulIsProduct(d, 0);
    MulIsProduct(d, 255);
  }

  /** A texel of a premultiplied texture at the node's opacity. */
  function ScaledTexel(opacity: Byte, texel: Pixel): Pixel {
    Pixel(Scaled(texel.a, opacity), Scaled(texel.r, opacity), Scaled(texel.g, opacity), Scaled(texel.b, opacity))
  }

  lemma VeilIs(opacity: Byte, texel: Pixel, d: Pixel)
    ensures BlitPixel(Argb, opacity, texel, d) == Apply(Veil(ScaledTexel(opacity, texel)), d)
  {
  }

  lemma OpaqueVeil(s: Pixel, d: Pixel)
    requires s.a == 255
    ensures Apply(Veil(s), d) == s
  {
    UnderOpaque(s.a, d.a);
    UnderOpaque(s.r, d.r);
    UnderOpaque(s.g, d.g);
    UnderOpaque(s.b, d.b);
    PackFits(s.a, s.r, s.g, s.b);
  }

  lemma EmptyVeil(d: Pixel)
    ensures Apply(Veil(CLEAR_WORD), d) == d
  {
    UnderOpaque(0, d.a);
    UnderOpaque(0, d.r);
    UnderOpaque(0, d.g);
    UnderOpaque(0, d.b);
    PackFits(d.a, d.r, d.g, d.b);
  }

  lemma TexelInkIs(fmt: Format, opacity: Byte, texel: Pixel, d: Pixel)
    requires opacity > 0
    ensures BlitPixel(fmt, opacity, texel, d) == Apply(TexelInk(fmt, opacity, texel), d)
  {
    if fmt.Argb? {
      var s := ScaledTexel(opacity, texel);
      VeilIs(opacity, texel, d);
      if s.a == 255 { OpaqueVeil(s, d); }
      EmptyVeil(d);
    }
  }

  /** The texture's part, if there is one at this pixel. */
  function TextureInk(look: Look, v: Node, x: int, y: int): (i: Ink)
    ensures Proper(i)
  {
    if v.tex != NO_TEXTURE && v.tex in look.texs && v.opacity > 0 && !v.texSrc.Empty()
       && BlitDest(v.rect.x, v.rect.y, look.texs[v.tex], v.texSrc).Has(x, y)
    then TexelInk(look.texs[v.tex].fmt, v.opacity,
                  Texel(look.texs[v.tex], x - (v.rect.x - v.texSrc.x), y - (v.rect.y - v.texSrc.y)))
    else Keep
  }

  lemma TextureInkIs(look: Look, v: Node, x: int, y: int, d: Pixel)
    ensures TexturePx(look.texs, v.tex, v.rect.x, v.rect.y, v.texSrc, v.opacity, x, y, d) == Apply(TextureInk(look, v, x, y), d)
  {
    var i := TextureInk(look, v, x, y);
    if v.tex != NO_TEXTURE && v.tex in look.texs && v.opacity > 0 && !v.texSrc.Empty()
       && BlitDest(v.rect.x, v.rect.y, look.texs[v.tex], v.texSrc).Has(x, y)
    {
      TexelInkIs(look.texs[v.tex].fmt, v.opacity,
                 Texel(look.texs[v.tex], x - (v.rect.x - v.texSrc.x), y - (v.rect.y - v.texSrc.y)), d);
    }
  }

  /** Some glyph bit of the first n lines lies at this pixel. */
  predicate Lettered(font: Font, tx: int, ty: int, texts: seq<seq<Byte>>, n: nat, x: int, y: int)
    requires n <= |texts|
  {
    n > 0 &&
    (Lettered(font, tx, ty, texts, n - 1, x, y) ||
     var line := ty + (n - 1) * GLYPH_H;
     TextRect(tx, line, texts[n - 1]).Has(x, y) && font(texts[n - 1][Column(tx, x)], y - line, (x - tx) % GLYPH_W))
  }

  lemma {:induction false} LetteredIs(font: Font, tx: int, ty: int, texts: seq<seq<Byte>>, n: nat, color: Pixel,
                                      x: int, y: int, d: Pixel)
    requires n <= |texts|
    ensures TextsPx(font, tx, ty, texts, n, color, 255, x, y, d) == if Lettered(font, tx, ty, texts, n, x, y) then color else d
  {
    if n > 0 { LetteredIs(font, tx, ty, texts, n - 1, color, x, y, d); }
  }

  /** Chrome at full strength replaces a pixel or leaves it: it tells by a clear and a white one. */
  function ChromeInk(rc: Rect, st: Style, x: int, y: int): (i: Ink)
    ensures i.Keep? || i.Paint?
  {
    var c := ChromePx(rc, st, 255, x, y, CLEAR_WORD);
    if c == ChromePx(rc, st, 255, x, y, WHITE) then Paint(c) else Keep
  }

  lemma ChromeInkIs(rc: Rect, st: Style, x: int, y: int, d: Pixel)
    ensures ChromePx(rc, st, 255, x, y, d) == Apply(ChromeInk(rc, st, x, y), d)
  {
  }

  /** Text lies over texture over chrome. */
  function InkOf(look: Look, v: Node, x: int, y: int): (i: Ink)
    ensures Proper(i)
  {
    if !Touches(v, x, y) then Keep
    else
      var st, texts := ResolveStyle(look.theme, v.style, v.role), Capped(v.texts);
      if Lettered(look.theme.font, v.rect.x + st.padX, v.rect.y + st.padY, texts, |texts|, x, y) then Paint(st.text)
      else
        var under, over := ChromeInk(v.rect, st, x, y), TextureInk(look, v, x, y);
        if under.Paint? then Paint(Apply(over, under.c)) else over
  }

  lemma FadedFully(opacity: Byte)
    ensures Faded(opacity, 255) == opacity
  {
    MulByFull(opacity);
  }

  /** The ink is what painting the node at rest does to the pixel. */
  lemma InkIs(look: Look, v: Node, x: int, y: int, d: Pixel)
    ensures NodePx(Plain(look), v, x, y, d) == Apply(InkOf(look, v, x, y), d)
  {
    if Touches(v, x, y) {
      var st, texts := ResolveStyle(look.theme, v.style, v.role), Capped(v.texts);
      FadedFully(v.opacity);
      var c := ChromePx(v.rect, st, 255, x, y, d);
      ChromeInkIs(v.rect, st, x, y, d);
      TextureInkIs(look, v, x, y, c);
      LetteredIs(look.theme.font, v.rect.x + st.padX, v.rect.y + st.padY, texts, |texts|, st.text, x, y,
                 TexturePx(look.texs, v.tex, v.rect.x, v.rect.y, v.texSrc, v.opacity, x, y, c));
    }
  }

  // ---- When nodes paint alike -------------------------------------------------

  /** At one pixel two nodes paint alike over everything if and only if their inks agree. */
  lemma PixelAlikeIff(look: Look, a: Node, b: Node, x: int, y: int)
    ensures (forall d :: NodePx(Plain(look), a, x, y, d) == NodePx(Plain(look), b, x, y, d))
       <==> InkSame(InkOf(look, a, x, y), InkOf(look, b, x, y))
  {
    var i, j := InkOf(look, a, x, y), InkOf(look, b, x, y);
    InkSameIff(i, j);
    forall d ensures NodePx(Plain(look), a, x, y, d) == Apply(i, d) && NodePx(Plain(look), b, x, y, d) == Apply(j, d) {
      InkIs(look, a, x, y, d);
      InkIs(look, b, x, y, d);
    }
  }

  /** Away from transitions two nodes paint alike if and only if they have the same ink at
      every pixel. */
  lemma PaintAlikeIff(look: Look, a: Node, b: Node)
    ensures PaintAlike(look, a, b) <==> forall x, y :: InkSame(InkOf(look, a, x, y), InkOf(look, b, x, y))
  {
    if PaintAlike(look, a, b) {
      forall x, y ensures InkSame(InkOf(look, a, x, y), InkOf(look, b, x, y)) { PixelAlikeIff(look, a, b, x, y); }
    } else {
      var x, y, d :| NodePx(Plain(look), a, x, y, d) != NodePx(Plain(look), b, x, y, d);
      PixelAlikeIff(look, a, b, x, y);
    }
  }

  /** For nodes the diff takes for the same it is enough that both or neither are fully
      transparent, that their texts agree as far as they are drawn, and, where the texture is
      registered, that opacity and texture source agree. */
  lemma FieldsPaintAlike(look: Look, a: Node, b: Node)
    requires SameToDiff(a, b, look.theme.sig) && Capped(a.texts) == Capped(b.texts) && (a.opacity == 0 <==> b.opacity == 0)
    requires a.tex != NO_TEXTURE && a.tex in look.texs ==> a.opacity == b.opacity && a.texSrc == b.texSrc
    ensures PaintAlike(look, a, b)
  {
    forall x, y ensures InkOf(look, a, x, y) == InkOf(look, b, x, y) {
    }
    PaintAlikeIff(look, a, b);
  }

  /** If exactly one of two such nodes is fully transparent, they paint alike if and only if
      the other draws nothing: no chrome, no texel that shows, no letter. */
  lemma TransparentIff(look: Look, a: Node, b: Node)
    requires b.opacity == 0
    ensures PaintAlike(look, a, b) <==> forall x, y :: InkOf(look, a, x, y) == Keep
  {
    PaintAlikeIff(look, a, b);
    forall x, y ensures InkOf(look, b, x, y) == Keep && (InkSame(InkOf(look, a, x, y), Keep) <==> InkOf(look, a, x, y) == Keep) {
    }
  }

  /** A square box with an opaque fill draws at every pixel of its rectangle. */
  lemma BoxShows(look: Look, v: Node, x: int, y: int)
    requires Touches(v, x, y) && v.texts == [] && !(v.tex != NO_TEXTURE && v.tex in look.texs)
    requires var st := ResolveStyle(look.theme, v.style, v.role);
             st.fill != CLEAR_WORD && st.radius == 0 && (st.borderW == 0 || st.border == CLEAR_WORD)
    ensures InkOf(look, v, x, y) == Paint(ResolveStyle(look.theme, v.style, v.role).fill)
  {
  }

  // ---- Inputs that go wrong ---------------------------------------------------

  /** One layer without effects shows one node at the pixel. */
  lemma OneNode(clear: Pixel, look: Look, v: Node, x: int, y: int)
    requires !look.effects
    ensures ScenePx(clear, [View(look, [v], false)], 1, x, y) == Apply(InkOf(look, v, x, y), clear)
  {
    InkIs(look, v, x, y, clear);
    assert NodePx(look, v, x, y, clear) == NodePx(Plain(look), v, x, y, clear);
    var f := (u, d) => NodePx(look, u, x, y, d);
    assert Fold(f, [v], 1, clear) == f([v][0], Fold(f, [v], 0, clear));
  }

  /** A filled box that turns fully transparent: the diff takes the two nodes for the same, and
      the scene changes from the fill to the desktop colour. */
  lemma FadedBoxDiffers(clear: Pixel, look: Look, v: Node, x: int, y: int)
    requires !look.effects && Touches(v, x, y) && v.texts == [] && !(v.tex != NO_TEXTURE && v.tex in look.texs)
    requires var st := ResolveStyle(look.theme, v.style, v.role);
             st.fill != CLEAR_WORD && st.fill != clear && st.radius == 0 && (st.borderW == 0 || st.border == CLEAR_WORD)
    ensures var w := v.(opacity := 0);
            && SameToDiff(v, w, look.theme.sig) && !PaintAlike(look, v, w)
            && ScenePx(clear, [View(look, [v], false)], 1, x, y) != clear
            && ScenePx(clear, [View(look, [w], false)], 1, x, y) == clear
  {
    var w := v.(opacity := 0);
    BoxShows(look, v, x, y);
    OneNode(clear, look, v, x, y);
    OneNode(clear, look, w, x, y);
    TransparentIff(look, v, w);
  }

  /** An opaque texture registered under the reference a bare node names: the scene changes from
      the desktop colour to the texel. */
  lemma NewTextureDiffers(clear: Pixel, look: Look, v: Node, tex: Texture, x: int, y: int)
    requires !look.effects && Touches(v, x, y) && v.texts == [] && v.tex != NO_TEXTURE && v.tex !in look.texs
    requires v.opacity == 255 && !v.texSrc.Empty() && tex.fmt.Xrgb? && BlitDest(v.rect.x, v.rect.y, tex, v.texSrc).Has(x, y)
    requires var st := ResolveStyle(look.theme, v.style, v.role); st.fill == CLEAR_WORD && st.borderW == 0
    ensures ScenePx(clear, [View(look, [v], false)], 1, x, y) == clear
    ensures ScenePx(clear, [View(look.(texs := look.texs[v.tex := tex]), [v], false)], 1, x, y)
         == Texel(tex, x - (v.rect.x - v.texSrc.x), y - (v.rect.y - v.texSrc.y)).(a := 255)
  {
    OneNode(clear, look, v, x, y);
    OneNode(clear, look.(texs := look.texs[v.tex := tex]), v, x, y);
  }

  lemma MixIs(c: Byte, alpha: Byte, d: Byte)
    ensures Mix(c, alpha, d) == (c * alpha + d * (255 - alpha)) / 255
  {
    MulIsProduct(c, alpha);
    MulIsProduct(d, 255 - alpha);
  }

  /** White faded to 223 of 255 over a pixel. */
  lemma FadedWhite(white: Pixel, alpha: nat, d: Pixel)
    requires white.a == white.r == white.g == white.b == 255 && alpha == 223
    requires d.a == 255 && d.r == d.g == d.b == 16
    ensures Blend(white, alpha, d) == Pixel(255, 225, 225, 225)
  {
    MixIs(white.a, alpha, d.a);
    MixIs(white.r, alpha, d.r);
    assert (255 * 223 + 255 * 32) / 255 == 255 && (255 * 223 + 16 * 32) / 255 == 225;
    PackFits(Mix(white.a, alpha, d.a), Mix(white.r, alpha, d.r), Mix(white.g, alpha, d.g), Mix(white.b, alpha, d.b));
  }

  /** White faded to 31 of 255 over a pixel. */
  lemma FaintWhite(white: Pixel, alpha: nat, d: Pixel)
    requires white.a == white.r == white.g == white.b == 255 && alpha == 31
    requires d.a == 255 && d.r == d.g == d.b == 16
    ensures Blend(white, alpha, d) == Pixel(255, 45, 45, 45)
  {
    MixIs(white.a, alpha, d.a);
    MixIs(white.r, alpha, d.r);
    assert (255 * 31 + 255 * 224) / 255 == 255 && (255 * 31 + 16 * 224) / 255 == 45;
    PackFits(Mix(white.a, alpha, d.a), Mix(white.r, alpha, d.r), Mix(white.g, alpha, d.g), Mix(white.b, alpha, d.b));
  }

  /** A plain box as a phantom. */
  lemma BoxPhantom(look: Look, a: Anim, x: int, y: int, d: Pixel)
    requires a.Exit? && ExitAlpha(a.t) > 0 && a.base.Has(x, y) && a.look.texts == [] && a.look.tex == NO_TEXTURE
    requires a.look.fill != CLEAR_WORD && a.look.borderW == 0 && a.look.radius == 0
    ensures PhantomPx(look, a, x, y, d) == Blend(a.look.fill, ExitAlpha(a.t), d)
  {
  }

  lemma {:induction false} SoloExit(look: Look, n: nat, x: int, y: int, d: Pixel)
    requires 0 < n <= |look.anims| && forall i :: 0 < i < n ==> look.anims[i].Idle?
    ensures ExitsPx(look, n, x, y, d) == PhantomPx(look, look.anims[0], x, y, d)
  {
    if n == 1 { assert ExitsPx(look, 0, x, y, d) == d; } else { SoloExit(look, n - 1, x, y, d); }
  }

  /** A white box that has been fading for one tick over the standard desktop: with the
      transition the pixel is 225 in every colour, without it 16. */
  lemma PhantomDiffers(clear: Pixel, look: Look, still: Look, x: int, y: int)
    requires look.effects && !still.effects && look.anims != [] && forall i :: 0 < i < |look.anims| ==> look.anims[i].Idle?
    requires var a := look.anims[0];
             a.Exit? && a.t == 1 && a.base.Has(x, y) && a.look.fill == WHITE && a.look.borderW == 0 && a.look.radius == 0
             && a.look.texts == [] && a.look.tex == NO_TEXTURE
    requires clear == Pixel(255, 16, 16, 16)
    ensures ScenePx(clear, [View(look, [], false)], 1, x, y) == Pixel(255, 225, 225, 225)
    ensures ScenePx(clear, [View(still, [], false)], 1, x, y) == clear
  {
    var a := look.anims[0];
    BoxPhantom(look, a, x, y, clear);
    FadedWhite(a.look.fill, ExitAlpha(a.t), clear);
    SoloExit(look, |look.anims|, x, y, clear);
  }
}
