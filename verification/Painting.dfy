// Painting nodes, fading phantoms, layers and the whole scene
// (scene_compositor.c over scene_fb.c).  `ScenePx` is the simple meaning: what a
// full repaint leaves at one pixel.  The methods do it clipped, in place.
module Painting {
  import opened Pixels
  import opened Raster
  import opened SceneModel
  import opened Transitions

  /** What painting a layer's nodes depends on besides the nodes. */
  datatype Look = Look(theme: Theme, effects: bool, texs: map<nat, Texture>, anims: seq<Anim>)

  /** One layer as the painter sees it. */
  datatype View = View(look: Look, nodes: seq<Node>, dead: bool)

  // ---- One pixel --------------------------------------------------------------

  /** style_chrome: rounded chrome in one pass, square chrome as fill then stroke. */
  function ChromePx(rc: Rect, st: Style, alpha: nat, x: int, y: int, dst: Pixel): Pixel {
    var bw := if st.borderW > 0 && st.border != CLEAR_WORD then st.borderW else 0;
    if st.fill == CLEAR_WORD && bw == 0 then dst
    else if st.radius > 0 then
      ShadeChrome(rc, st.radius, bw, st.fill, if bw > 0 then st.border else st.fill, alpha, x, y, dst)
    else
      var d := if st.fill != CLEAR_WORD then ShadeSolid(rc, st.fill, alpha, x, y, dst) else dst;
      ShadeStroke(rc, st.border, bw, alpha, x, y, d)
  }

  function TexturePx(texs: map<nat, Texture>, tex: nat, dx: int, dy: int, src: Rect, opacity: Byte,
                     x: int, y: int, dst: Pixel): Pixel {
    if tex != NO_TEXTURE && tex in texs then ShadeBlit(dx, dy, texs[tex], src, opacity, x, y, dst) else dst
  }

  /** The first n text lines, one glyph height apart. */
  function TextsPx(font: Font, tx: int, ty: int, texts: seq<seq<Byte>>, n: nat, color: Pixel, alpha: nat,
                   x: int, y: int, dst: Pixel): Pixel
    requires n <= |texts|
  {
    if n == 0 then dst
    else ShadeText(font, tx, ty + (n - 1) * GLYPH_H, texts[n - 1], color, alpha, x, y,
                   TextsPx(font, tx, ty, texts, n - 1, color, alpha, x, y, dst))
  }

  /** A texture's opacity under an effect alpha. */
  function Faded(opacity: Byte, alpha: nat): Byte
    requires alpha <= 255
  {
    MulMonotone(alpha, 255, opacity);
    MulByFull(opacity);
    Mul(alpha, opacity) / 255
  }

  /** Where a live node is drawn and how strongly: an entering node slides and fades in. */
  function Geom(look: Look, v: Node): (Rect, nat)
  {
    var j := FindAnim(look.anims, v.id);
    if !look.effects || j < 0 || !look.anims[j].Enter? then (v.rect, 255)
    else
      var a := look.anims[j];
      (Shifted(a.base, SlideOffset(a.t)), Min(a.t * 255 / TICKS, 255))
  }

  predicate Paintable(v: Node) { VisibleFlag(v.flags) && v.opacity > 0 && !v.rect.Empty() }

  /** What painting a live node does to a pixel of its rectangle. */
  function BodyPx(look: Look, v: Node, rc: Rect, alpha: nat, x: int, y: int, dst: Pixel): Pixel
    requires alpha <= 255
  {
    var st := ResolveStyle(look.theme, v.style, v.role);
    var texts := Capped(v.texts);
    TextsPx(look.theme.font, rc.x + st.padX, rc.y + st.padY, texts, |texts|, st.text, alpha, x, y,
      TexturePx(look.texs, v.tex, rc.x, rc.y, v.texSrc, Faded(v.opacity, alpha), x, y,
        ChromePx(rc, st, alpha, x, y, dst)))
  }

  function NodePx(look: Look, v: Node, x: int, y: int, dst: Pixel): Pixel {
    var (rc, alpha) := Geom(look, v);
    if Paintable(v) && alpha > 0 && rc.Has(x, y) then BodyPx(look, v, rc, alpha, x, y, dst) else dst
  }

  function PhantomStyle(p: Phantom): Style {
    Style(p.fill, p.border, p.text, p.borderW, 0, 0, p.radius)
  }

  /** How strongly a phantom t ticks old still shows. */
  function ExitAlpha(t: nat): (a: nat)
    ensures a <= 255
  {
    if t >= TICKS then 0 else (TICKS - t) * 255 / TICKS
  }

  function TextureExtent(texs: map<nat, Texture>, tex: nat): Rect {
    if tex in texs then Rect(0, 0, texs[tex].w, texs[tex].h) else Rect(0, 0, 0, 0)
  }

  function PhantomPx(look: Look, a: Anim, x: int, y: int, dst: Pixel): Pixel {
    if a.Exit? && ExitAlpha(a.t) > 0 && a.base.Has(x, y) then
      var alpha, rc, st := ExitAlpha(a.t), a.base, PhantomStyle(a.look);
      TextsPx(look.theme.font, rc.x, rc.y, a.look.texts, |a.look.texts|, st.text, alpha, x, y,
        TexturePx(look.texs, a.look.tex, rc.x, rc.y, TextureExtent(look.texs, a.look.tex),
                  Faded(a.look.opacity, alpha), x, y,
          ChromePx(rc, st, alpha, x, y, dst)))
    else dst
  }

  /** Apply f to the first n nodes, in document order. */
  function Fold(f: (Node, Pixel) -> Pixel, nodes: seq<Node>, n: nat, dst: Pixel): Pixel
    requires n <= |nodes|
  {
    if n == 0 then dst else f(nodes[n - 1], Fold(f, nodes, n - 1, dst))
  }

  /** The first n nodes, in document order. */
  function WalkPx(look: Look, nodes: seq<Node>, n: nat, x: int, y: int, dst: Pixel): Pixel
    requires n <= |nodes|
  {
    Fold((v, d) => NodePx(look, v, x, y, d), nodes, n, dst)
  }

  /** The first n transition slots; phantoms are painted over the live nodes. */
  function ExitsPx(look: Look, n: nat, x: int, y: int, dst: Pixel): Pixel
    requires n <= |look.anims|
  {
    if n == 0 then dst else PhantomPx(look, look.anims[n - 1], x, y, ExitsPx(look, n - 1, x, y, dst))
  }

  function LayerPx(v: View, x: int, y: int, dst: Pixel): Pixel {
    if v.dead then dst
    else
      var d := WalkPx(v.look, v.nodes, |v.nodes|, x, y, dst);
      if v.look.effects then ExitsPx(v.look, |v.look.anims|, x, y, d) else d
  }

  /** The first n layers, bottom up, over the desktop colour: a full repaint's pixel. */
  function ScenePx(clear: Pixel, views: seq<View>, n: nat, x: int, y: int): Pixel
    requires n <= |views|
  {
    if n == 0 then clear else LayerPx(views[n - 1], x, y, ScenePx(clear, views, n - 1, x, y))
  }

  // ---- The painting methods ---------------------------------------------------

  /** Inside `clip` the framebuffer took `f`; outside it is untouched. */
  twostate predicate Shaded(fb: array2<Pixel>, clip: Rect, f: (int, int, Pixel) -> Pixel)
    reads fb
  {
    forall x, y :: 0 <= x < fb.Length1 && 0 <= y < fb.Length0 ==>
      fb[y, x] == if clip.Has(x, y) then f(x, y, old(fb[y, x])) else old(fb[y, x])
  }

  method StyleChrome(fb: array2<Pixel>, rc: Rect, st: Style, alpha: nat, clip: Rect)
    modifies fb
    ensures Shaded(fb, clip, (x, y, d) => ChromePx(rc, st, alpha, x, y, d))
  {
    var bw := if st.borderW > 0 && st.border != CLEAR_WORD then st.borderW else 0;
    if st.fill == CLEAR_WORD && bw == 0 { return; }
    if st.radius > 0 {
      ChromeRound(fb, rc, st.radius, bw, st.fill, if bw > 0 then st.border else st.fill, alpha, To(clip));
    } else {
      if st.fill != CLEAR_WORD { FillAlpha(fb, rc, st.fill, alpha, To(clip)); }
      label filled:
      if bw > 0 { StrokeAlpha(fb, rc, st.border, bw, alpha, To(clip)); }
    }
  }

  method PaintTexture(fb: array2<Pixel>, texs: map<nat, Texture>, tex: nat, dx: int, dy: int, src: Rect,
                      opacity: Byte, clip: Rect)
    modifies fb
    ensures Shaded(fb, clip, (x, y, d) => TexturePx(texs, tex, dx, dy, src, opacity, x, y, d))
  {
    if tex != NO_TEXTURE && tex in texs {
      BlitTexture(fb, dx, dy, texs[tex], src, opacity, To(clip));
    }
  }

  method PaintTexts(fb: array2<Pixel>, font: Font, tx: int, ty: int, texts: seq<seq<Byte>>, color: Pixel, alpha: nat,
                    clip: Rect)
    modifies fb
    ensures Shaded(fb, clip, (x, y, d) => TextsPx(font, tx, ty, texts, |texts|, color, alpha, x, y, d))
  {
    for i := 0 to |texts|
      invariant Shaded(fb, clip, (x, y, d) => TextsPx(font, tx, ty, texts, i, color, alpha, x, y, d))
    {
      if |texts[i]| > 0 { DrawText(fb, font, tx, ty + i * GLYPH_H, texts[i], color, alpha, To(clip)); }
    }
  }

  /** clip_intersect */
  function Meet(a: Rect, b: Rect): (r: Rect)
    ensures forall x, y :: r.Has(x, y) <==> a.Has(x, y) && b.Has(x, y)
  {
    var x0, y0 := Max(a.x, b.x), Max(a.y, b.y);
    Rect(x0, y0, Min(a.x + a.w, b.x + b.w) - x0, Min(a.y + a.h, b.y + b.h) - y0)
  }

  method PaintNode(fb: array2<Pixel>, look: Look, v: Node, clip: Rect)
    modifies fb
    ensures Shaded(fb, clip, (x, y, d) => NodePx(look, v, x, y, d))
  {
    if !VisibleFlag(v.flags) || v.opacity == 0 || v.rect.w <= 0 || v.rect.h <= 0 { return; }
    var (rc, alpha) := Geom(look, v);
    if alpha == 0 { return; }
    var c := Meet(rc, clip);
    if c.w <= 0 || c.h <= 0 { return; }
    PaintBody(fb, look, v, rc, alpha, c);
  }

  method PaintBody(fb: array2<Pixel>, look: Look, v: Node, rc: Rect, alpha: nat, c: Rect)
    requires alpha <= 255
    modifies fb
    ensures Shaded(fb, c, (x, y, d) => BodyPx(look, v, rc, alpha, x, y, d))
  {
    var st := ResolveStyle(look.theme, v.style, v.role);
    StyleChrome(fb, rc, st, alpha, c);
    label chrome:
    PaintTexture(fb, look.texs, v.tex, rc.x, rc.y, v.texSrc, Faded(v.opacity, alpha), c);
    label texture:
    PaintTexts(fb, look.theme.font, rc.x + st.padX, rc.y + st.padY, Capped(v.texts), st.text, alpha, c);
  }

  method PaintPhantom(fb: array2<Pixel>, look: Look, a: Anim, clip: Rect)
    requires a.Exit?
    modifies fb
    ensures Shaded(fb, clip, (x, y, d) => PhantomPx(look, a, x, y, d))
  {
    var rc, alpha := a.base, ExitAlpha(a.t);
    var c := Meet(rc, clip);
    if c.w <= 0 || c.h <= 0 || alpha == 0 { return; }
    var st := PhantomStyle(a.look);
    StyleChrome(fb, rc, st, alpha, c);
    label chrome:
    PaintTexture(fb, look.texs, a.look.tex, rc.x, rc.y, TextureExtent(look.texs, a.look.tex),
                 Faded(a.look.opacity, alpha), c);
    label texture:
    PaintTexts(fb, look.theme.font, rc.x, rc.y, a.look.texts, st.text, alpha, c);
  }

  method PaintNodes(fb: array2<Pixel>, look: Look, nodes: seq<Node>, clip: Rect)
    modifies fb
    ensures Shaded(fb, clip, (x, y, d) => WalkPx(look, nodes, |nodes|, x, y, d))
  {
    for i := 0 to |nodes|
      invariant Shaded(fb, clip, (x, y, d) => WalkPx(look, nodes, i, x, y, d))
    {
      PaintNode(fb, look, nodes[i], clip);
    }
  }

  method PaintExits(fb: array2<Pixel>, look: Look, clip: Rect)
    modifies fb
    ensures Shaded(fb, clip, (x, y, d) => ExitsPx(look, |look.anims|, x, y, d))
  {
    for i := 0 to |look.anims|
      invariant Shaded(fb, clip, (x, y, d) => ExitsPx(look, i, x, y, d))
    {
      if look.anims[i].Exit? { PaintPhantom(fb, look, look.anims[i], clip); }
    }
  }

  method PaintLayer(fb: array2<Pixel>, v: View, clip: Rect)
    modifies fb
    ensures Shaded(fb, clip, (x, y, d) => LayerPx(v, x, y, d))
  {
    if v.dead { return; }
    PaintNodes(fb, v.look, v.nodes, clip);
    if v.look.effects { PaintExits(fb, v.look, clip); }
  }

  method PaintLayers(fb: array2<Pixel>, clear: Pixel, views: seq<View>, clip: Rect)
    requires forall x, y :: 0 <= x < fb.Length1 && 0 <= y < fb.Length0 && clip.Has(x, y) ==> fb[y, x] == clear
    modifies fb
    ensures Shaded(fb, clip, (x, y, d) => ScenePx(clear, views, |views|, x, y))
  {
    for i := 0 to |views|
      invariant Shaded(fb, clip, (x, y, d) => ScenePx(clear, views, i, x, y))
    {
      PaintLayer(fb, views[i], clip);
    }
  }

  method RepaintRect(fb: array2<Pixel>, clear: Pixel, views: seq<View>, r: Rect)
    modifies fb
    ensures Shaded(fb, r, (x, y, d) => ScenePx(clear, views, |views|, x, y))
  {
    FillAlpha(fb, r, clear, 255, NoClip);
    label filled:
    PaintLayers(fb, clear, views, r);
  }

  method RepaintAll(fb: array2<Pixel>, clear: Pixel, views: seq<View>)
    modifies fb
    ensures forall x, y :: 0 <= x < fb.Length1 && 0 <= y < fb.Length0 ==>
              fb[y, x] == ScenePx(clear, views, |views|, x, y)
  {
    Clear(fb, clear);
    label cleared:
    PaintLayers(fb, clear, views, Rect(0, 0, fb.Length1, fb.Length0));
  }
}
