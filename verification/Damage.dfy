// The bounded damage list (rectlist_add): 32 rectangles, then the last one grows.
module Damage {
  import opened Raster

  const MAX_DAMAGE: nat := 32

  predicate Covers(list: seq<Rect>, x: int, y: int) {
    exists r :: r in list && r.Has(x, y)
  }

  /** The bounding box, as rectlist_add computes it. */
  function Merge(a: Rect, b: Rect): Rect {
    var x0, y0 := Min(a.x, b.x), Min(a.y, b.y);
    Rect(x0, y0, Max(a.x + a.w, b.x + b.w) - x0, Max(a.y + a.h, b.y + b.h) - y0)
  }

  /** rectlist_add loses no area, even once the list is full. */
  function Add(list: seq<Rect>, r: Rect): (out: seq<Rect>)
    ensures |list| <= MAX_DAMAGE ==> |out| <= MAX_DAMAGE
    ensures forall x, y :: Covers(list, x, y) || r.Has(x, y) ==> Covers(out, x, y)
  {
    if r.Empty() then list
    else if |list| < MAX_DAMAGE then
      AppendCovers(list, r);
      list + [r]
    else
      MergeCovers(list, r);
      list[MAX_DAMAGE - 1 := Merge(list[MAX_DAMAGE - 1], r)]
  }

  /** The box is the least one around both. */
  lemma MergeIsLeast(a: Rect, b: Rect, c: Rect)
    requires !a.Empty() && !b.Empty() && forall x, y :: a.Has(x, y) || b.Has(x, y) ==> c.Has(x, y)
    ensures forall x, y :: (a.Has(x, y) || b.Has(x, y) ==> Merge(a, b).Has(x, y)) && (Merge(a, b).Has(x, y) ==> c.Has(x, y))
  {
    assert a.Has(a.x, a.y) && a.Has(a.x + a.w - 1, a.y + a.h - 1);
    assert b.Has(b.x, b.y) && b.Has(b.x + b.w - 1, b.y + b.h - 1);
  }

  /** Up to 32 rectangles are kept as they come; then the last one grows over what comes. */
  lemma AddIs(list: seq<Rect>, r: Rect)
    requires |list| <= 32 && r.w > 0 && r.h > 0
    ensures Add(list, r) == if |list| < 32 then list + [r] else list[..31] + [Merge(list[31], r)]
  {
    if |list| == 32 { assert list[31 := Merge(list[31], r)] == list[..31] + [Merge(list[31], r)]; }
  }

  lemma AppendCovers(list: seq<Rect>, r: Rect)
    ensures forall x, y :: Covers(list, x, y) || r.Has(x, y) ==> Covers(list + [r], x, y)
  {
    forall x, y | Covers(list, x, y) || r.Has(x, y) ensures Covers(list + [r], x, y) {
      assert r in list + [r];
      if Covers(list, x, y) {
        var q :| q in list && q.Has(x, y);
        assert q in list + [r];
      }
    }
  }

  lemma MergeCovers(list: seq<Rect>, r: Rect)
    requires |list| >= MAX_DAMAGE
    ensures var out := list[MAX_DAMAGE - 1 := Merge(list[MAX_DAMAGE - 1], r)];
            forall x, y :: Covers(list, x, y) || r.Has(x, y) ==> Covers(out, x, y)
  {
    var last := MAX_DAMAGE - 1;
    var out := list[last := Merge(list[last], r)];
    forall x, y | Covers(list, x, y) || r.Has(x, y) ensures Covers(out, x, y) {
      assert out[last] in out;
      if Covers(list, x, y) {
        var i :| 0 <= i < |list| && list[i].Has(x, y);
        assert out[i] in out && out[i].Has(x, y);
      }
    }
  }

  /** Adding a whole list, in order. */
  function AddAll(list: seq<Rect>, more: seq<Rect>, n: nat): (out: seq<Rect>)
    requires n <= |more|
    ensures |list| <= MAX_DAMAGE ==> |out| <= MAX_DAMAGE
    ensures forall x, y :: Covers(list, x, y) || Covers(more[..n], x, y) ==> Covers(out, x, y)
  {
    if n == 0 then list
    else
      assert more[..n] == more[..n - 1] + [more[n - 1]];
      Add(AddAll(list, more, n - 1), more[n - 1])
  }
}
