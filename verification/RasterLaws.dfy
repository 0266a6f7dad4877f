// Laws of the rasterizer: what shape the rounded primitives cover, where chrome
// keeps its promise, sequences of draws, and premultiplied pixels through a scene.
module RasterLaws {
  import opened Pixels
  import opened Corner
  import opened Raster
  import opened SceneModel
  import opened Transitions
  import opened Painting

  // ---- Shapes -----------------------------------------------------------------

  function ColumnDist(r: Rect, x: int): int { Min(x - r.x, r.x + r.w - 1 - x) }

  /** A rounded rectangle by its geometry: a pixel near no corner, or within the disc of
      the nearest one. */
  predicate InDiscs(r: Rect, rr: nat, x: int, y: int) {
    r.Has(x, y) &&
    var i, j := ColumnDist(r, x), RowDist(r, y);
    i >= rr || j >= rr || (rr - i) * (rr - i) + (rr - j) * (rr - j) <= rr * rr
  }

  /** The integer-root rows of the filled rounded rectangle are exactly that shape. */
  lemma RoundIsDiscs(r: Rect, rr: nat, x: int, y: int)
    ensures InRound(r, rr, x, y) <==> InDiscs(r, rr, x, y)
  {
    if r.Has(x, y) {
      var i, j := ColumnDist(r, x), RowDist(r, y);
      if i < rr && j < rr { InsetIsDisc(rr, j, i); }
    }
  }

  /** The concentric inner rectangle of a bordered shape lies inside the outer one. */
  lemma InnerInsideOuter(r: Rect, rr: nat, bw: nat, x: int, y: int)
    requires InRound(Inner(r, bw), Less(rr, bw), x, y)
    ensures InRound(r, rr, x, y)
  {
    InsetConcentric(rr, bw, RowDist(r, y));
  }

  /** What the header promises of one-pass chrome: the interior takes the fill, the ring
      the border, the notches nothing, and no fill leaves the interior alone. */
  function PromisedChrome(r: Rect, rr: nat, bw: nat, fill: Pixel, border: Pixel, alpha: nat,
                          x: int, y: int, dst: Pixel): Pixel {
    if InRound(Inner(r, bw), Less(rr, bw), x, y) then if fill == CLEAR_WORD then dst else Blend(fill, alpha, dst)
    else if InRound(r, rr, x, y) then Blend(border, alpha, dst)
    else dst
  }

  /** Chrome touches exactly the pixels of the filled rounded rectangle, each with one
      blend; and it keeps its promise on all inputs with a fill whose inner top edge is on
      screen.  Otherwise the whole interior takes the border colour. */
  lemma ChromeIsRing(r: Rect, radius: nat, bw: nat, fill: Pixel, border: Pixel, alpha: nat, x: int, y: int, dst: Pixel)
    requires !r.Empty() && CapRadius(r, radius) > 0 && bw > 0
    ensures var rr, out := CapRadius(r, radius), ShadeChrome(r, radius, bw, fill, border, alpha, x, y, dst);
            && (if InRound(r, rr, x, y) then out == Blend(fill, alpha, dst) || out == Blend(border, alpha, dst)
                else out == dst)
            && (fill != CLEAR_WORD && r.y + bw >= 0 ==>
                  out == PromisedChrome(r, rr, bw, fill, border, alpha, x, y, dst))
            && (fill == CLEAR_WORD || r.y + bw < 0 ==>
                  out == ShadeRounded(r, border, radius, alpha, x, y, dst))
  {
    var rr := CapRadius(r, radius);
    if InRound(Inner(r, bw), Less(rr, bw), x, y) { InnerInsideOuter(r, rr, bw, x, y); }
  }

  /** So "no fill draws the ring only" is false of the code: here is an interior pixel. */
  lemma NoFillPaintsInterior()
    ensures var r, white, dst := Rect(0, 0, 8, 8), Pixel(255, 255, 255, 255), CLEAR_WORD;
            && InRound(Inner(r, 1), 1, 4, 4)
            && ShadeChrome(r, 2, 1, CLEAR_WORD, white, 255, 4, 4, dst) == white
            && PromisedChrome(r, 2, 1, CLEAR_WORD, white, 255, 4, 4, dst) == dst
  {
    assert Inset(1, 3) == 0 && Inset(2, 3) == 0;
  }

  // ---- Sequences of draws -----------------------------------------------------

  /** What a sequence of unclipped draws leaves at a pixel. */
  function ShadeAll(ops: seq<Op>, x: int, y: int, dst: Pixel): Pixel {
    if ops == [] then dst
    else Shade(ops[|ops| - 1], x, y, ShadeAll(ops[..|ops| - 1], x, y, dst))
  }

  method Draw(fb: array2<Pixel>, op: Op, clip: Clip)
    modifies fb
    ensures Drawn(fb, clip, op)
  {
    match op {
      case Solid(r, color, alpha) => FillAlpha(fb, r, color, alpha, clip);
      case Stroke(r, color, bw, alpha) => StrokeAlpha(fb, r, color, bw, alpha, clip);
      case Rounded(r, color, radius, alpha) => FillRound(fb, r, color, radius, alpha, clip);
      case Chrome(r, radius, bw, fill, border, alpha) => ChromeRound(fb, r, radius, bw, fill, border, alpha, clip);
      case Blit(dx, dy, tex, src, opacity) => BlitTexture(fb, dx, dy, tex, src, opacity, clip);
      case Text(font, x, y, s, color, alpha) => DrawText(fb, font, x, y, s, color, alpha, clip);
    }
  }

  /** Clipping commutes with drawing: any sequence of clipped draws leaves the unclipped
      pixels inside the clip and every other pixel as it was. */
  method DrawAll(fb: array2<Pixel>, ops: seq<Op>, clip: Clip)
    modifies fb
    ensures forall x, y :: 0 <= x < fb.Length1 && 0 <= y < fb.Length0 ==>
              fb[y, x] == if clip.Allows(x, y) then ShadeAll(ops, x, y, old(fb[y, x])) else old(fb[y, x])
  {
    for i := 0 to |ops|
      invariant forall x, y :: 0 <= x < fb.Length1 && 0 <= y < fb.Length0 ==>
                  fb[y, x] == if clip.Allows(x, y) then ShadeAll(ops[..i], x, y, old(fb[y, x])) else old(fb[y, x])
    {
      assert ops[..i + 1][..i] == ops[..i];
      Draw(fb, ops[i], clip);
    }
    assert ops[..|ops|] == ops;
  }

  // ---- Premultiplied pixels ---------------------------------------------------

  ghost predicate TextureOk(tex: Texture) {
    tex.fmt.Argb? ==> forall sx, sy :: Premultiplied(Texel(tex, sx, sy))
  }

  predicate StyleOk(st: Style) {
    Premultiplied(st.fill) && Premultiplied(st.border) && Premultiplied(st.text)
  }

  ghost predicate OpOk(op: Op) {
    match op
    case Solid(_, color, _) => Premultiplied(color)
    case Stroke(_, color, _, _) => Premultiplied(color)
    case Rounded(_, color, _, _) => Premultiplied(color)
    case Chrome(_, _, _, fill, border, _) => Premultiplied(fill) && Premultiplied(border)
    case Blit(_, _, tex, _, _) => TextureOk(tex)
    case Text(_, _, _, _, color, _) => Premultiplied(color)
  }

  lemma SolidKeeps(r: Rect, color: Pixel, alpha: nat, x: int, y: int, dst: Pixel)
    requires Premultiplied(color) && Premultiplied(dst)
    ensures Premultiplied(ShadeSolid(r, color, alpha, x, y, dst))
  {
    BlendStaysPremultiplied(color, alpha, dst);
  }

  lemma StrokeKeeps(r: Rect, color: Pixel, bw: nat, alpha: nat, x: int, y: int, dst: Pixel)
    requires Premultiplied(color) && Premultiplied(dst)
    ensures Premultiplied(ShadeStroke(r, color, bw, alpha, x, y, dst))
  {
    var d0 := ShadeSolid(Bar(r, bw, 0), color, alpha, x, y, dst);
    SolidKeeps(Bar(r, bw, 0), color, alpha, x, y, dst);
    var d1 := ShadeSolid(Bar(r, bw, 1), color, alpha, x, y, d0);
    SolidKeeps(Bar(r, bw, 1), color, alpha, x, y, d0);
    var d2 := ShadeSolid(Bar(r, bw, 2), color, alpha, x, y, d1);
    SolidKeeps(Bar(r, bw, 2), color, alpha, x, y, d1);
    SolidKeeps(Bar(r, bw, 3), color, alpha, x, y, d2);
  }

  /** One draw keeps a premultiplied pixel premultiplied; every channel stays a byte. */
  lemma DrawKeeps(op: Op, x: int, y: int, dst: Pixel)
    requires OpOk(op) && Premultiplied(dst)
    ensures Premultiplied(Shade(op, x, y, dst))
  {
    match op {
      case Solid(r, color, alpha) => SolidKeeps(r, color, alpha, x, y, dst);
      case Stroke(r, color, bw, alpha) => StrokeKeeps(r, color, bw, alpha, x, y, dst);
      case Rounded(r, color, radius, alpha) => BlendStaysPremultiplied(color, alpha, dst);
      case Chrome(r, radius, bw, fill, border, alpha) =>
        BlendStaysPremultiplied(fill, alpha, dst);
        BlendStaysPremultiplied(border, alpha, dst);
        SolidKeeps(r, fill, alpha, x, y, dst);
        StrokeKeeps(r, border, bw, alpha, x, y, ShadeSolid(r, fill, alpha, x, y, dst));
      case Blit(dx, dy, tex, src, opacity) =>
        BlitStaysPremultiplied(tex.fmt, opacity, Texel(tex, x - (dx - src.x), y - (dy - src.y)), dst);
      case Text(font, tx, ty, s, color, alpha) => BlendStaysPremultiplied(color, alpha, dst);
    }
  }

  /** So does every sequence of draws. */
  lemma {:induction false} DrawsKeep(ops: seq<Op>, x: int, y: int, dst: Pixel)
    requires Premultiplied(dst) && forall op :: op in ops ==> OpOk(op)
    ensures Premultiplied(ShadeAll(ops, x, y, dst))
  {
    if ops != [] {
      DrawsKeep(ops[..|ops| - 1], x, y, dst);
      DrawKeeps(ops[|ops| - 1], x, y, ShadeAll(ops[..|ops| - 1], x, y, dst));
    }
  }

  ghost predicate LookOk(look: Look) {
    && (forall style, role :: StyleOk(ResolveStyle(look.theme, style, role)))
    && (forall ref :: ref in look.texs ==> TextureOk(look.texs[ref]))
    && (forall a :: a in look.anims && a.Exit? ==> StyleOk(PhantomStyle(a.look)))
  }

  lemma {:induction false} TextsKeep(font: Font, tx: int, ty: int, texts: seq<seq<Byte>>, n: nat, color: Pixel, alpha: nat,
                                     x: int, y: int, dst: Pixel)
    requires n <= |texts| && Premultiplied(color) && Premultiplied(dst)
    ensures Premultiplied(TextsPx(font, tx, ty, texts, n, color, alpha, x, y, dst))
  {
    if n > 0 {
      TextsKeep(font, tx, ty, texts, n - 1, color, alpha, x, y, dst);
      BlendStaysPremultiplied(color, alpha, TextsPx(font, tx, ty, texts, n - 1, color, alpha, x, y, dst));
    }
  }

  lemma ChromeKeeps(rc: Rect, st: Style, alpha: nat, x: int, y: int, dst: Pixel)
    requires StyleOk(st) && Premultiplied(dst)
    ensures Premultiplied(ChromePx(rc, st, alpha, x, y, dst))
  {
    var bw := if st.borderW > 0 && st.border != CLEAR_WORD then st.borderW else 0;
    DrawKeeps(Chrome(rc, st.radius, bw, st.fill, if bw > 0 then st.border else st.fill, alpha), x, y, dst);
    DrawKeeps(Solid(rc, st.fill, alpha), x, y, dst);
    StrokeKeeps(rc, st.border, bw, alpha, x, y, dst);
    StrokeKeeps(rc, st.border, bw, alpha, x, y, ShadeSolid(rc, st.fill, alpha, x, y, dst));
  }

  lemma TextureKeeps(look: Look, tex: nat, dx: int, dy: int, src: Rect, opacity: Byte, x: int, y: int, dst: Pixel)
    requires LookOk(look) && Premultiplied(dst)
    ensures Premultiplied(TexturePx(look.texs, tex, dx, dy, src, opacity, x, y, dst))
  {
    if tex != NO_TEXTURE && tex in look.texs { DrawKeeps(Blit(dx, dy, look.texs[tex], src, opacity), x, y, dst); }
  }

  lemma NodeKeeps(look: Look, v: Node, x: int, y: int, dst: Pixel)
    requires LookOk(look) && Premultiplied(dst)
    ensures Premultiplied(NodePx(look, v, x, y, dst))
  {
    var (rc, alpha) := Geom(look, v);
    var st, texts, opacity := ResolveStyle(look.theme, v.style, v.role), Capped(v.texts), Faded(v.opacity, alpha);
    var d1 := ChromePx(rc, st, alpha, x, y, dst);
    ChromeKeeps(rc, st, alpha, x, y, dst);
    var d2 := TexturePx(look.texs, v.tex, rc.x, rc.y, v.texSrc, opacity, x, y, d1);
    TextureKeeps(look, v.tex, rc.x, rc.y, v.texSrc, opacity, x, y, d1);
    TextsKeep(look.theme.font, rc.x + st.padX, rc.y + st.padY, texts, |texts|, st.text, alpha, x, y, d2);
  }

  lemma PhantomKeeps(look: Look, a: Anim, x: int, y: int, dst: Pixel)
    requires LookOk(look) && a in look.anims && Premultiplied(dst)
    ensures Premultiplied(PhantomPx(look, a, x, y, dst))
  {
    if a.Exit? {
      var alpha, rc, st := ExitAlpha(a.t), a.base, PhantomStyle(a.look);
      var extent, opacity := TextureExtent(look.texs, a.look.tex), Faded(a.look.opacity, alpha);
      var d1 := ChromePx(rc, st, alpha, x, y, dst);
      ChromeKeeps(rc, st, alpha, x, y, dst);
      var d2 := TexturePx(look.texs, a.look.tex, rc.x, rc.y, extent, opacity, x, y, d1);
      TextureKeeps(look, a.look.tex, rc.x, rc.y, extent, opacity, x, y, d1);
      TextsKeep(look.theme.font, rc.x, rc.y, a.look.texts, |a.look.texts|, st.text, alpha, x, y, d2);
    }
  }

  lemma {:induction false} WalkKeeps(look: Look, nodes: seq<Node>, n: nat, x: int, y: int, dst: Pixel)
    requires n <= |nodes| && LookOk(look) && Premultiplied(dst)
    ensures Premultiplied(WalkPx(look, nodes, n, x, y, dst))
  {
    if n > 0 {
      WalkKeeps(look, nodes, n - 1, x, y, dst);
      NodeKeeps(look, nodes[n - 1], x, y, WalkPx(look, nodes, n - 1, x, y, dst));
    }
  }

  lemma {:induction false} ExitsKeep(look: Look, n: nat, x: int, y: int, dst: Pixel)
    requires n <= |look.anims| && LookOk(look) && Premultiplied(dst)
    ensures Premultiplied(ExitsPx(look, n, x, y, dst))
  {
    if n > 0 {
      ExitsKeep(look, n - 1, x, y, dst);
      PhantomKeeps(look, look.anims[n - 1], x, y, ExitsPx(look, n - 1, x, y, dst));
    }
  }

  /** A desktop of premultiplied colours and textures is premultiplied all over, at every
      stage of every fade. */
  lemma {:induction false} SceneKeeps(clear: Pixel, views: seq<View>, n: nat, x: int, y: int)
    requires n <= |views| && Premultiplied(clear) && forall i :: 0 <= i < n ==> LookOk(views[i].look)
    ensures Premultiplied(ScenePx(clear, views, n, x, y))
  {
    if n > 0 {
      SceneKeeps(clear, views, n - 1, x, y);
      var v, d := views[n - 1], ScenePx(clear, views, n - 1, x, y);
      WalkKeeps(v.look, v.nodes, |v.nodes|, x, y, d);
      ExitsKeep(v.look, |v.look.anims|, x, y, WalkPx(v.look, v.nodes, |v.nodes|, x, y, d));
    }
  }
}
