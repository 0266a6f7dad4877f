// When two scenes agree at a pixel: what may change without repainting it.
module SceneLaws {
  import opened Pixels
  import opened Raster
  import opened SceneModel
  import opened Damage
  import opened Transitions
  import opened Diff
  import opened DiffCover
  import opened Painting

  // ---- Document order ---------------------------------------------------------

  /** A live node reaches this pixel. */
  predicate Touches(v: Node, x: int, y: int) { Paintable(v) && v.rect.Has(x, y) }

  /** Nodes that are in both lists come in the same order in both. */
  ghost predicate SameOrder(a: seq<Node>, b: seq<Node>) {
    forall i, j, k, l :: 0 <= i < j < |a| && 0 <= k < |b| && 0 <= l < |b| && a[i] == b[k] && a[j] == b[l] ==> k < l
  }

  /** The two lists hold the same nodes at this pixel. */
  ghost predicate SameAt(a: seq<Node>, b: seq<Node>, x: int, y: int) {
    && (forall i :: 0 <= i < |a| && Touches(a[i], x, y) ==> a[i] in b)
    && (forall k :: 0 <= k < |b| && Touches(b[k], x, y) ==> b[k] in a)
  }

  /** Proper node lists, in one order, with the same nodes at this pixel. */
  ghost predicate Alike(a: seq<Node>, b: seq<Node>, x: int, y: int) {
    Distinct(a) && Distinct(b) && SameOrder(a, b) && SameAt(a, b, x, y)
  }

  /** Such lists paint the pixel alike, however they differ elsewhere. */
  lemma {:induction false} FoldAgree(f: (Node, Pixel) -> Pixel, a: seq<Node>, b: seq<Node>, x: int, y: int, dst: Pixel)
    requires forall v, d :: !Touches(v, x, y) ==> f(v, d) == d
    ensures Alike(a, b, x, y) ==> Fold(f, a, |a|, dst) == Fold(f, b, |b|, dst)
    decreases |a| + |b|
  {
    var m, n := |a| - 1, |b| - 1;
    if a != [] && !Touches(a[m], x, y) {
      DropUntouched(a, b, x, y);
      FoldAgree(f, a[..m], b, x, y, dst);
      FoldPrefix(f, a, m, dst);
    } else if b != [] && !Touches(b[n], x, y) {
      DropUntouchedOther(a, b, x, y);
      FoldAgree(f, a, b[..n], x, y, dst);
      FoldPrefix(f, b, n, dst);
    } else if a != [] && b != [] {
      DropBoth(a, b, x, y);
      FoldAgree(f, a[..m], b[..n], x, y, dst);
      FoldPrefix(f, a, m, dst);
      FoldPrefix(f, b, n, dst);
    } else {
      NoLeftover(a, b, x, y);
    }
  }

  lemma {:induction false} FoldPrefix(f: (Node, Pixel) -> Pixel, a: seq<Node>, n: nat, dst: Pixel)
    requires n <= |a|
    ensures Fold(f, a[..n], n, dst) == Fold(f, a, n, dst)
    decreases n
  {
    if n > 0 {
      FoldPrefix(f, a, n - 1, dst);
      FoldPrefix(f, a[..n], n - 1, dst);
      assert a[..n][..n - 1] == a[..n - 1];
    }
  }

  lemma DropUntouched(a: seq<Node>, b: seq<Node>, x: int, y: int)
    requires a != [] && !Touches(a[|a| - 1], x, y)
    ensures Alike(a, b, x, y) ==> Alike(a[..|a| - 1], b, x, y)
  {
    if Alike(a, b, x, y) {
      forall k | 0 <= k < |b| && Touches(b[k], x, y) ensures b[k] in a[..|a| - 1] {
        assert b[k] in a;
      }
    }
  }

  lemma DropUntouchedOther(a: seq<Node>, b: seq<Node>, x: int, y: int)
    requires b != [] && !Touches(b[|b| - 1], x, y)
    ensures Alike(a, b, x, y) ==> Alike(a, b[..|b| - 1], x, y)
  {
    if Alike(a, b, x, y) {
      forall k | 0 <= k < |a| && Touches(a[k], x, y) ensures a[k] in b[..|b| - 1] {
        assert a[k] in b;
      }
    }
  }

  lemma NoLeftover(a: seq<Node>, b: seq<Node>, x: int, y: int)
    requires a == [] || b == []
    requires a != [] ==> Touches(a[|a| - 1], x, y)
    requires b != [] ==> Touches(b[|b| - 1], x, y)
    ensures Alike(a, b, x, y) ==> a == [] && b == []
  {
  }

  lemma DropBoth(a: seq<Node>, b: seq<Node>, x: int, y: int)
    requires a != [] && b != [] && Touches(a[|a| - 1], x, y) && Touches(b[|b| - 1], x, y)
    ensures Alike(a, b, x, y) ==> a[|a| - 1] == b[|b| - 1] && Alike(a[..|a| - 1], b[..|b| - 1], x, y)
  {
    if Alike(a, b, x, y) { LastsEqual(a, b, x, y); }
  }

  lemma LastsEqual(a: seq<Node>, b: seq<Node>, x: int, y: int)
    requires a != [] && b != [] && Distinct(a) && Distinct(b) && SameOrder(a, b) && SameAt(a, b, x, y)
    requires Touches(a[|a| - 1], x, y) && Touches(b[|b| - 1], x, y)
    ensures a[|a| - 1] == b[|b| - 1]
    ensures SameAt(a[..|a| - 1], b[..|b| - 1], x, y)
  {
    LastIsLast(a, b, x, y);
    FrontsIn(a, b, x, y);
    FrontsIn(b, a, x, y);
  }

  lemma LastIsLast(a: seq<Node>, b: seq<Node>, x: int, y: int)
    requires a != [] && b != [] && SameOrder(a, b) && a[|a| - 1] in b && b[|b| - 1] in a
    ensures a[|a| - 1] == b[|b| - 1]
  {
    var m, n := |a| - 1, |b| - 1;
    var k :| 0 <= k < |b| && b[k] == a[m];
    var i :| 0 <= i < |a| && a[i] == b[n];
    assert !(i < m && k <= n) by { assert a[i] == b[n] && a[m] == b[k]; }
  }

  /** What is shown of a before its last node is in b before the same node. */
  lemma FrontsIn(a: seq<Node>, b: seq<Node>, x: int, y: int)
    requires a != [] && b != [] && Distinct(a) && a[|a| - 1] == b[|b| - 1]
    requires forall i :: 0 <= i < |a| && Touches(a[i], x, y) ==> a[i] in b
    ensures forall i :: 0 <= i < |a| - 1 && Touches(a[i], x, y) ==> a[..|a| - 1][i] in b[..|b| - 1]
  {
    forall i | 0 <= i < |a| - 1 && Touches(a[i], x, y) ensures a[..|a| - 1][i] in b[..|b| - 1] {
      var q :| 0 <= q < |b| && b[q] == a[i];
      assert q < |b| - 1;
      assert b[..|b| - 1][q] == b[q];
    }
  }

  // ---- Running transitions ----------------------------------------------------

  function Plain(look: Look): Look { look.(anims := []) }

  ghost predicate BasesMatch(look: Look, nodes: seq<Node>) {
    forall a, i :: a in look.anims && a.Enter? && 0 <= i < |nodes| && nodes[i].id == a.id ==> a.base == nodes[i].rect
  }

  /** Away from every running transition a node paints as if there were none. */
  lemma NodeAway(look: Look, v: Node, x: int, y: int, dst: Pixel)
    requires look.effects ==> !InZone(look.anims, x, y)
    requires forall a :: a in look.anims && a.Enter? && a.id == v.id ==> a.base == v.rect
    ensures NodePx(look, v, x, y, dst) == NodePx(Plain(look), v, x, y, dst)
  {
    var j := FindAnim(look.anims, v.id);
    if look.effects && j >= 0 && look.anims[j].Enter? {
      assert look.anims[j] in look.anims;
      assert !InZone1(look.anims[j], x, y);
    }
  }

  lemma {:induction false} WalkAway(look: Look, nodes: seq<Node>, n: nat, x: int, y: int, dst: Pixel)
    requires n <= |nodes| && (look.effects ==> !InZone(look.anims, x, y)) && BasesMatch(look, nodes)
    ensures WalkPx(look, nodes, n, x, y, dst) == WalkPx(Plain(look), nodes, n, x, y, dst)
  {
    if n > 0 {
      WalkAway(look, nodes, n - 1, x, y, dst);
      NodeAway(look, nodes[n - 1], x, y, WalkPx(look, nodes, n - 1, x, y, dst));
    }
  }

  lemma {:induction false} ExitsAway(look: Look, n: nat, x: int, y: int, dst: Pixel)
    requires n <= |look.anims| && !InZone(look.anims, x, y)
    ensures ExitsPx(look, n, x, y, dst) == dst
  {
    if n > 0 {
      ExitsAway(look, n - 1, x, y, dst);
      assert look.anims[n - 1] in look.anims;
      assert !InZone1(look.anims[n - 1], x, y);
    }
  }

  /** Away from running transitions a live layer is just its nodes. */
  lemma LayerAway(v: View, x: int, y: int, dst: Pixel)
    requires !v.dead && (v.look.effects ==> !InZone(v.look.anims, x, y)) && BasesMatch(v.look, v.nodes)
    ensures LayerPx(v, x, y, dst) == WalkPx(Plain(v.look), v.nodes, |v.nodes|, x, y, dst)
  {
    WalkAway(v.look, v.nodes, |v.nodes|, x, y, dst);
    if v.look.effects { ExitsAway(v.look, |v.look.anims|, x, y, WalkPx(v.look, v.nodes, |v.nodes|, x, y, dst)); }
  }

  // ---- Changes of style and texture -------------------------------------------

  /** Looks that paint every node alike at this pixel paint the list alike. */
  lemma {:induction false} WalkSame(a: Look, b: Look, nodes: seq<Node>, n: nat, x: int, y: int, dst: Pixel)
    requires n <= |nodes|
    requires forall i, d :: 0 <= i < n ==> NodePx(a, nodes[i], x, y, d) == NodePx(b, nodes[i], x, y, d)
    ensures WalkPx(a, nodes, n, x, y, dst) == WalkPx(b, nodes, n, x, y, dst)
  {
    if n > 0 { WalkSame(a, b, nodes, n - 1, x, y, dst); }
  }

  /** A restyled entry repaints only nodes of that style. */
  lemma RestyleLocal(look: Look, ref: nat, st: Style, v: Node, x: int, y: int, dst: Pixel)
    requires look.anims == [] && ref < |look.theme.styles|
    requires v.style == ref ==> !Touches(v, x, y)
    ensures var theme := look.theme.(styles := look.theme.styles[ref := st]);
            NodePx(look, v, x, y, dst) == NodePx(look.(theme := theme), v, x, y, dst)
  {
    if v.style != ref {
      var theme := look.theme.(styles := look.theme.styles[ref := st]);
      assert ResolveStyle(look.theme, v.style, v.role) == ResolveStyle(theme, v.style, v.role);
    }
  }

  /** A texture registered or released repaints only nodes that show it. */
  lemma RetextureLocal(look: Look, texs: map<nat, Texture>, ref: nat, v: Node, x: int, y: int, dst: Pixel)
    requires look.anims == [] && forall r :: r != ref ==> (r in texs <==> r in look.texs) && (r in texs ==> texs[r] == look.texs[r])
    requires v.tex == ref ==> !Touches(v, x, y)
    ensures NodePx(look, v, x, y, dst) == NodePx(look.(texs := texs), v, x, y, dst)
  {
  }
}
