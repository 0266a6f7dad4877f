// Enter and exit transitions (anim_*): 64 slots per layer, eight ticks each.
module Transitions {
  import opened Pixels
  import opened Raster
  import opened SceneModel
  import opened Damage

  const TICKS: nat := 8
  const SLIDE: int := 6
  const ANIM_CAP: nat := 64

  /** The look of a deleted node while it fades. */
  datatype Phantom = Phantom(fill: Pixel, border: Pixel, text: Pixel, borderW: Byte, radius: Byte,
                             opacity: Byte, tex: nat, texts: seq<seq<Byte>>)

  datatype Anim =
    | Idle
    | Enter(id: nat, t: nat, base: Rect)
    | Exit(id: nat, t: nat, base: Rect, look: Phantom)

  /** A layer's transition slots together with the frame's damage list. */
  datatype Fx = Fx(anims: seq<Anim>, damage: seq<Rect>)

  // ---- Areas ------------------------------------------------------------------

  /** Everything an entering node covers while it slides into `base`. */
  function Band(base: Rect): Rect { base.(h := base.h + SLIDE) }

  predicate InZone1(a: Anim, x: int, y: int) {
    (a.Enter? && Band(a.base).Has(x, y)) || (a.Exit? && a.base.Has(x, y))
  }

  /** A running transition draws, or has drawn, at this pixel. */
  predicate InZone(anims: seq<Anim>, x: int, y: int) {
    exists a :: a in anims && InZone1(a, x, y)
  }

  /** The pixel lies in the slide band of a running enter. */
  predicate InTail(anims: seq<Anim>, x: int, y: int) {
    exists a :: a in anims && a.Enter? && InZone1(a, x, y)
  }

  /** Damaged already, or inside a running transition. */
  predicate Marked(fx: Fx, x: int, y: int) {
    Covers(fx.damage, x, y) || InZone(fx.anims, x, y)
  }

  predicate Settled(anims: seq<Anim>) {
    forall a :: a in anims ==> a.Idle?
  }

  // ---- Slots ------------------------------------------------------------------

  /** The first running transition of `id` from slot i on, or -1. */
  function FindAnim(anims: seq<Anim>, id: nat, i: nat := 0): (r: int)
    ensures r >= 0 ==> i <= r < |anims| && !anims[r].Idle? && anims[r].id == id
    ensures r < 0 ==> forall j :: i <= j < |anims| ==> anims[j].Idle? || anims[j].id != id
    decreases |anims| - i
  {
    if i >= |anims| then -1
    else if !anims[i].Idle? && anims[i].id == id then i
    else FindAnim(anims, id, i + 1)
  }

  /** The first idle slot from i on, or -1. */
  function FirstIdle(anims: seq<Anim>, i: nat := 0): (r: int)
    ensures r >= 0 ==> i <= r < |anims| && anims[r].Idle?
    ensures r < 0 ==> forall j :: i <= j < |anims| ==> !anims[j].Idle?
    decreases |anims| - i
  {
    if i >= |anims| then -1
    else if anims[i].Idle? then i
    else FirstIdle(anims, i + 1)
  }

  /** The first half of anim_alloc: drop the transition `id` already has; an enter
      leaves damage for its slide band, an exit leaves none. */
  function Release(fx: Fx, id: nat): (r: Fx)
    ensures |r.anims| == |fx.anims|
  {
    var j := FindAnim(fx.anims, id);
    if j < 0 then fx
    else Fx(fx.anims[j := Idle],
            if fx.anims[j].Enter? && fx.anims[j].t < TICKS then Add(fx.damage, Band(fx.anims[j].base)) else fx.damage)
  }

  /** anim_alloc for an enter, and the caller's base rectangle; nothing when full. */
  function StartEnter(fx: Fx, id: nat, rect: Rect): (r: Fx)
    ensures |r.anims| == |fx.anims|
  {
    var f := Release(fx, id);
    var i := FirstIdle(f.anims);
    if i < 0 then f else f.(anims := f.anims[i := Enter(id, 0, rect)])
  }

  /** anim_alloc for an exit; when full the old rectangle is damaged at once. */
  function StartExit(fx: Fx, id: nat, rect: Rect, look: Phantom): (r: Fx)
    ensures |r.anims| == |fx.anims|
  {
    var f := Release(fx, id);
    var i := FirstIdle(f.anims);
    if i < 0 then f.(damage := Add(f.damage, rect)) else f.(anims := f.anims[i := Exit(id, 0, rect, look)])
  }

  // ---- anim_advance, anim_clear_all -------------------------------------------

  function SlideOffset(t: nat): (off: int)
    ensures 0 <= off <= SLIDE
  {
    if t >= TICKS then 0 else (TICKS - t) * SLIDE / TICKS
  }

  function Shifted(base: Rect, dy: int): Rect { base.(y := base.y + dy) }

  function Aged(a: Anim): Anim {
    if a.Idle? || a.t + 1 >= TICKS then Idle else a.(t := a.t + 1)
  }

  function AgeDamage(a: Anim, damage: seq<Rect>): seq<Rect> {
    match a
    case Idle => damage
    case Exit(_, _, base, _) => Add(damage, base)
    case Enter(_, t, base) =>
      if t + 1 >= TICKS then Add(damage, Band(base))
      else if SlideOffset(t + 1) == 0 then Add(damage, base)
      else Add(Add(damage, base), Shifted(base, SlideOffset(t + 1)))
  }

  /** anim_advance over the first n slots. */
  function Advance(fx: Fx, n: nat): (r: Fx)
    requires n <= |fx.anims|
    ensures |r.anims| == |fx.anims|
    ensures forall i :: 0 <= i < |fx.anims| ==> r.anims[i] == if i < n then Aged(fx.anims[i]) else fx.anims[i]
  {
    if n == 0 then fx
    else
      var f := Advance(fx, n - 1);
      Fx(f.anims[n - 1 := Aged(fx.anims[n - 1])], AgeDamage(fx.anims[n - 1], f.damage))
  }

  /** anim_clear_all over the first n slots. */
  function ClearAll(fx: Fx, n: nat): (r: Fx)
    requires n <= |fx.anims|
    ensures |r.anims| == |fx.anims|
    ensures forall i :: 0 <= i < |fx.anims| ==> r.anims[i] == if i < n then Idle else fx.anims[i]
  {
    if n == 0 then fx
    else
      var f := ClearAll(fx, n - 1);
      Fx(f.anims[n - 1 := Idle], if fx.anims[n - 1].Idle? then f.damage else Add(f.damage, fx.anims[n - 1].base))
  }

  // ---- Nothing drawn is forgotten ---------------------------------------------

  /** Every mark of f is a mark of r. */
  ghost predicate KeepsMarks(f: Fx, r: Fx) {
    forall x, y :: Marked(f, x, y) ==> Marked(r, x, y)
  }

  lemma ReplaceKeepsMarks(f: Fx, r: Fx, i: nat)
    requires i < |f.anims| == |r.anims| && r.anims == f.anims[i := r.anims[i]]
    requires forall x, y :: Covers(f.damage, x, y) || InZone1(f.anims[i], x, y) ==> Covers(r.damage, x, y)
    ensures KeepsMarks(f, r)
  {
    forall x, y | Marked(f, x, y) ensures Marked(r, x, y) {
      if !Covers(r.damage, x, y) {
        var j :| 0 <= j < |f.anims| && InZone1(f.anims[j], x, y);
        assert r.anims[j] == f.anims[j] && r.anims[j] in r.anims;
      }
    }
  }

  /** Releasing an enter (they never run past tick 7) or nothing keeps every mark. */
  lemma ReleaseKeepsMarks(fx: Fx, id: nat)
    requires forall a :: a in fx.anims && !a.Idle? && a.id == id ==> a.Enter? && a.t < TICKS
    ensures KeepsMarks(fx, Release(fx, id))
  {
    var j := FindAnim(fx.anims, id);
    if j >= 0 {
      assert fx.anims[j] in fx.anims;
      ReplaceKeepsMarks(fx, Release(fx, id), j);
    }
  }

  lemma FillKeepsMarks(f: Fx, i: nat, a: Anim)
    requires i < |f.anims| && f.anims[i].Idle?
    ensures KeepsMarks(f, f.(anims := f.anims[i := a]))
    ensures forall x, y :: InZone1(a, x, y) ==> Marked(f.(anims := f.anims[i := a]), x, y)
  {
    var r := f.(anims := f.anims[i := a]);
    assert r.anims[i] == a && a in r.anims;
    ReplaceKeepsMarks(f, r, i);
  }

  lemma EnterMarks(fx: Fx, id: nat, rect: Rect)
    requires forall a :: a in fx.anims && !a.Idle? && a.id == id ==> a.Enter? && a.t < TICKS
    requires exists a :: a in fx.anims && a.Idle?
    ensures KeepsMarks(fx, StartEnter(fx, id, rect))
    ensures forall x, y :: rect.Has(x, y) ==> Marked(StartEnter(fx, id, rect), x, y)
  {
    ReleaseKeepsMarks(fx, id);
    var f := Release(fx, id);
    var k :| 0 <= k < |fx.anims| && fx.anims[k].Idle?;
    assert f.anims[k].Idle?;
    var i := FirstIdle(f.anims);
    FillKeepsMarks(f, i, Enter(id, 0, rect));
    assert forall x, y :: rect.Has(x, y) ==> InZone1(Enter(id, 0, rect), x, y);
  }

  lemma ExitMarks(fx: Fx, id: nat, rect: Rect, look: Phantom)
    requires forall a :: a in fx.anims && !a.Idle? && a.id == id ==> a.Enter? && a.t < TICKS
    ensures KeepsMarks(fx, StartExit(fx, id, rect, look))
    ensures forall x, y :: rect.Has(x, y) ==> Marked(StartExit(fx, id, rect, look), x, y)
  {
    ReleaseKeepsMarks(fx, id);
    var f := Release(fx, id);
    var i := FirstIdle(f.anims);
    if i >= 0 {
      FillKeepsMarks(f, i, Exit(id, 0, rect, look));
      assert forall x, y :: rect.Has(x, y) ==> InZone1(Exit(id, 0, rect, look), x, y);
    } else {
      assert KeepsMarks(f, f.(damage := Add(f.damage, rect)));
    }
  }

  /** One tick damages all that a transition drew or will draw, except that the slide
      band of an enter that goes on stays its own affair. */
  lemma AgeCovers(a: Anim, damage: seq<Rect>)
    ensures forall x, y :: Covers(damage, x, y) ==> Covers(AgeDamage(a, damage), x, y)
    ensures forall x, y :: InZone1(a, x, y) ==>
              Covers(AgeDamage(a, damage), x, y) || (Aged(a).Enter? && InZone1(Aged(a), x, y))
  {
  }

  lemma {:induction false} AdvanceCovers(fx: Fx, n: nat)
    requires n <= |fx.anims|
    ensures forall x, y :: Covers(fx.damage, x, y) ==> Covers(Advance(fx, n).damage, x, y)
    ensures forall i, x, y {:trigger InZone1(fx.anims[i], x, y)} :: 0 <= i < n && InZone1(fx.anims[i], x, y) ==>
              Covers(Advance(fx, n).damage, x, y)
              || (Aged(fx.anims[i]).Enter? && InZone1(Aged(fx.anims[i]), x, y))
  {
    if n > 0 {
      AdvanceCovers(fx, n - 1);
      AgeCovers(fx.anims[n - 1], Advance(fx, n - 1).damage);
    }
  }

  /** After the tick a marked pixel is damaged or in a slide band, and only bands still run undamaged. */
  lemma TickCovers(fx: Fx, x: int, y: int)
    ensures var r := Advance(fx, |fx.anims|);
            (Marked(fx, x, y) ==> Covers(r.damage, x, y) || InTail(r.anims, x, y))
            && (InZone(r.anims, x, y) ==> Covers(r.damage, x, y) || InTail(r.anims, x, y))
  {
    var n := |fx.anims|;
    var r := Advance(fx, n);
    AdvanceCovers(fx, n);
    if Marked(fx, x, y) && !Covers(r.damage, x, y) {
      var i :| 0 <= i < n && InZone1(fx.anims[i], x, y);
      assert r.anims[i] in r.anims;
    }
    if InZone(r.anims, x, y) && !Covers(r.damage, x, y) {
      var i :| 0 <= i < n && InZone1(r.anims[i], x, y);
      assert r.anims[i] in r.anims;
      assert InZone1(fx.anims[i], x, y);
    }
  }
}
