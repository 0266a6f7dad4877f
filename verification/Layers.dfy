// One layer of the composition and its turn in a frame: diff against the store,
// then one tick of its transitions.
module Layers {
  import opened Pixels
  import opened Raster
  import opened SceneModel
  import opened RenderMap
  import opened Damage
  import opened Transitions
  import opened Diff
  import opened DiffCover
  import opened Painting
  import opened SceneLaws

  /** A session's store as the compositor reads it. */
  datatype Store = Store(version: nat, nodes: seq<Node>, replaying: bool, failed: bool)

  /** scene_layer; `sv` is the identity of the hosted server. */
  datatype Layer = Layer(sv: nat, store: Store, model: Map, anims: seq<Anim>, texs: map<nat, Texture>,
                         rendered: nat, dead: bool)

  function ViewOf(l: Layer, nodes: seq<Node>, theme: Theme, effects: bool): View {
    View(Look(theme, effects, l.texs, l.anims), nodes, l.dead)
  }

  predicate Changed(l: Layer) { !l.dead && l.store.version != l.rendered }

  function ModeOf(l: Layer, theme: Theme, effects: bool): Mode { Mode(theme, effects, l.store.replaying) }

  function Start(l: Layer, damage: seq<Rect>): Progress { Progress(l.model, Fx(l.anims, damage)) }

  /** The diff half of a layer's turn. */
  function Diffed(l: Layer, theme: Theme, effects: bool, damage: seq<Rect>): (Layer, seq<Rect>)
    requires |l.model.slots| == Pow2(l.model.shift)
  {
    if !Changed(l) then (l, damage)
    else
      var r := DiffLayer(Start(l, damage), ModeOf(l, theme, effects), l.store.nodes);
      (l.(model := r.model, anims := r.fx.anims), r.fx.damage)
  }

  /** The tick half, with effects on: playback shows no transients, otherwise all advance. */
  function Ticked(l: Layer, damage: seq<Rect>): (Layer, seq<Rect>) {
    if l.dead then (l, damage)
    else
      var fx := Fx(l.anims, damage);
      var r := if l.store.replaying then ClearAll(fx, |l.anims|) else Advance(fx, |l.anims|);
      (l.(anims := r.anims), r.damage)
  }

  ghost function KeysOf(nodes: seq<Node>, theme: Theme): map<nat, Key> { Keys(nodes, |nodes|, theme.sig) }

  /** The layer's model and transitions belong to the nodes last painted, and the store
      shows other nodes only under another sequence number. */
  ghost predicate InStep(l: Layer, painted: seq<Node>, theme: Theme, effects: bool) {
    && |l.anims| == ANIM_CAP
    && Distinct(painted)
    && Models(l.model, KeysOf(painted, theme))
    && EntersMatch(l.anims, KeysOf(painted, theme))
    && (!effects ==> Settled(l.anims))
    && (l.store.version == l.rendered ==> l.store.nodes == painted)
  }

  predicate SameToDiff(a: Node, b: Node, sig: TextSig) { a.id == b.id && KeyOf(a, sig) == KeyOf(b, sig) }

  /** Away from transitions the two nodes paint every pixel alike. */
  ghost predicate PaintAlike(look: Look, a: Node, b: Node) {
    forall x, y, d :: NodePx(Plain(look), a, x, y, d) == NodePx(Plain(look), b, x, y, d)
  }

  /** A surviving node paints differently only if the diff can see it, and survivors the diff
      takes for the same keep their document order. */
  ghost predicate Tracks(painted: seq<Node>, nodes: seq<Node>, look: Look) {
    && (forall i, k :: 0 <= i < |painted| && 0 <= k < |nodes| && SameToDiff(painted[i], nodes[k], look.theme.sig) ==>
                       PaintAlike(look, painted[i], nodes[k]))
    && (forall i, j, k, l ::
          (0 <= i < j < |painted| && 0 <= k < |nodes| && 0 <= l < |nodes|
           && SameToDiff(painted[i], nodes[k], look.theme.sig) && SameToDiff(painted[j], nodes[l], look.theme.sig))
          ==> k < l)
  }

  /** What a live layer's turn asks of the store. */
  ghost predicate Ready(l: Layer, painted: seq<Node>, theme: Theme, effects: bool) {
    && (Changed(l) ==> Tracks(painted, l.store.nodes, Look(theme, effects, l.texs, l.anims))
                       && DiffOk(Start(l, []), ModeOf(l, theme, effects), l.store.nodes))
    && (effects && l.store.replaying ==> NoEnters(l.anims))
  }

  /** Nothing slides in. */
  predicate NoEnters(anims: seq<Anim>) { forall a :: a in anims ==> !a.Enter? }

  // ---- Damage only grows ------------------------------------------------------

  lemma StepGrows(p: Progress, mode: Mode, v: Node, x: int, y: int) returns (q: Progress)
    requires |p.model.slots| == Pow2(p.model.shift)
    ensures q == DiffStep(p, mode, v)
    ensures Covers(p.fx.damage, x, y) ==> Covers(q.fx.damage, x, y)
    ensures |p.fx.damage| <= MAX_DAMAGE ==> |q.fx.damage| <= MAX_DAMAGE
  {
    q := DiffStep(p, mode, v);
  }

  lemma {:induction false} WalkGrows(p: Progress, mode: Mode, nodes: seq<Node>, k: nat, x: int, y: int)
    returns (q: Progress)
    requires k <= |nodes| && |p.model.slots| == Pow2(p.model.shift)
    ensures q == Walk(p, mode, nodes, k)
    ensures Covers(p.fx.damage, x, y) ==> Covers(q.fx.damage, x, y)
    ensures |p.fx.damage| <= MAX_DAMAGE ==> |q.fx.damage| <= MAX_DAMAGE
  {
    if k == 0 {
      q := p;
    } else {
      q := WalkGrows(p, mode, nodes, k - 1, x, y);
      assert DiffStep(q, mode, nodes[k - 1]) == Walk(p, mode, nodes, k);
      q := StepGrows(q, mode, nodes[k - 1], x, y);
    }
  }

  lemma {:induction false} SweepGrows(p: Progress, mode: Mode, n: nat, x: int, y: int)
    requires n <= |p.model.slots|
    ensures Covers(p.fx.damage, x, y) ==> Covers(Sweep(p, mode, n).fx.damage, x, y)
    ensures |p.fx.damage| <= MAX_DAMAGE ==> |Sweep(p, mode, n).fx.damage| <= MAX_DAMAGE
  {
    if n > 0 { SweepGrows(p, mode, n - 1, x, y); }
  }

  lemma DiffedGrows(l: Layer, theme: Theme, effects: bool, damage: seq<Rect>, x: int, y: int)
    requires |l.model.slots| == Pow2(l.model.shift)
    ensures Covers(damage, x, y) ==> Covers(Diffed(l, theme, effects, damage).1, x, y)
    ensures |damage| <= MAX_DAMAGE ==> |Diffed(l, theme, effects, damage).1| <= MAX_DAMAGE
  {
    if Changed(l) {
      var p, mode := Start(l, damage), ModeOf(l, theme, effects);
      var w := WalkGrows(p, mode, l.store.nodes, |l.store.nodes|, x, y);
      SweepGrows(w, mode, |w.model.slots|, x, y);
    }
  }

  lemma {:induction false} ClearAllGrows(fx: Fx, n: nat, x: int, y: int)
    requires n <= |fx.anims|
    ensures Covers(fx.damage, x, y) ==> Covers(ClearAll(fx, n).damage, x, y)
    ensures |fx.damage| <= MAX_DAMAGE ==> |ClearAll(fx, n).damage| <= MAX_DAMAGE
  {
    if n > 0 { ClearAllGrows(fx, n - 1, x, y); }
  }

  lemma {:induction false} AdvanceBounded(fx: Fx, n: nat)
    requires n <= |fx.anims|
    ensures |fx.damage| <= MAX_DAMAGE ==> |Advance(fx, n).damage| <= MAX_DAMAGE
  {
    if n > 0 { AdvanceBounded(fx, n - 1); }
  }

  lemma TickedGrows(l: Layer, damage: seq<Rect>, x: int, y: int)
    ensures Covers(damage, x, y) ==> Covers(Ticked(l, damage).1, x, y)
    ensures |damage| <= MAX_DAMAGE ==> |Ticked(l, damage).1| <= MAX_DAMAGE
  {
    var fx := Fx(l.anims, damage);
    ClearAllGrows(fx, |l.anims|, x, y);
    AdvanceCovers(fx, |l.anims|);
    AdvanceBounded(fx, |l.anims|);
  }

  // ---- Without effects, or in playback, nothing starts ------------------------

  lemma {:induction false} WalkStaysPut(p: Progress, mode: Mode, nodes: seq<Node>, k: nat)
    returns (q: Progress)
    requires k <= |nodes| && |p.model.slots| == Pow2(p.model.shift) && !mode.Animates() && AllSteady(p.fx.anims, nodes)
    ensures q == Walk(p, mode, nodes, k) && q.fx.anims == p.fx.anims
  {
    if k == 0 {
      q := p;
    } else {
      q := WalkStaysPut(p, mode, nodes, k - 1);
      assert DiffStep(q, mode, nodes[k - 1]) == Walk(p, mode, nodes, k);
      q := StepStaysPut(q, mode, nodes[k - 1]);
    }
  }

  lemma StepStaysPut(p: Progress, mode: Mode, v: Node) returns (q: Progress)
    requires |p.model.slots| == Pow2(p.model.shift) && !mode.Animates() && Steady(p.fx.anims, v)
    ensures q == DiffStep(p, mode, v) && q.fx.anims == p.fx.anims
  {
    SteadyRetarget(p.fx, mode, v, KeyOf(v, mode.theme.sig).Shown());
    q := DiffStep(p, mode, v);
  }

  lemma {:induction false} SweepStaysPut(p: Progress, mode: Mode, n: nat)
    requires n <= |p.model.slots| && !mode.Animates()
    ensures Sweep(p, mode, n).fx.anims == p.fx.anims
  {
    if n > 0 { SweepStaysPut(p, mode, n - 1); }
  }

  lemma DiffStaysPut(p: Progress, mode: Mode, nodes: seq<Node>)
    requires |p.model.slots| == Pow2(p.model.shift) && !mode.Animates() && AllSteady(p.fx.anims, nodes)
    ensures DiffLayer(p, mode, nodes).fx.anims == p.fx.anims
  {
    var w := WalkStaysPut(p, mode, nodes, |nodes|);
    SweepStaysPut(w, mode, |w.model.slots|);
  }

  lemma {:induction false} ClearAllCovers(fx: Fx, n: nat, x: int, y: int)
    requires n <= |fx.anims| && NoEnters(fx.anims)
    ensures (exists i :: 0 <= i < n && InZone1(fx.anims[i], x, y)) ==> Covers(ClearAll(fx, n).damage, x, y)
  {
    if n > 0 {
      ClearAllCovers(fx, n - 1, x, y);
      assert fx.anims[n - 1] in fx.anims;
    }
  }

  /** In playback every running exit is dropped and its rectangle damaged. */
  lemma PlaybackCovers(fx: Fx, x: int, y: int)
    requires NoEnters(fx.anims)
    ensures var r := ClearAll(fx, |fx.anims|); !InZone(r.anims, x, y) && (InZone(fx.anims, x, y) ==> Covers(r.damage, x, y))
  {
    ClearAllCovers(fx, |fx.anims|, x, y);
    var r := ClearAll(fx, |fx.anims|);
    assert forall a :: a in r.anims ==> a.Idle?;
    if InZone(fx.anims, x, y) {
      var i :| 0 <= i < |fx.anims| && InZone1(fx.anims[i], x, y);
    }
  }

  // ---- A layer's turn ---------------------------------------------------------

  /** The layer after diff and, with effects on, tick; `mid` is the damage when it ticks. */
  function Turned(l: Layer, theme: Theme, effects: bool, damage: seq<Rect>, mid: seq<Rect>): (Layer, seq<Rect>)
    requires |l.model.slots| == Pow2(l.model.shift)
  {
    var l1 := Diffed(l, theme, effects, damage).0;
    if effects then Ticked(l1, mid) else (l1, mid)
  }

  lemma TickKeepsMatch(l: Layer, keys: map<nat, Key>, damage: seq<Rect>)
    requires EntersMatch(l.anims, keys)
    ensures EntersMatch(Ticked(l, damage).0.anims, keys)
  {
    var r := Ticked(l, damage).0.anims;
    forall a | a in r && !a.Idle? ensures a.t < TICKS && (a.Enter? && a.id in keys ==> keys[a.id].rect == a.base) {
      var i :| 0 <= i < |r| && r[i] == a;
      assert l.anims[i] in l.anims;
    }
  }

  /** After its turn a live layer is in step with the store's nodes. */
  lemma TurnInStep(l: Layer, painted: seq<Node>, theme: Theme, effects: bool, damage: seq<Rect>, mid: seq<Rect>)
    requires !l.dead && InStep(l, painted, theme, effects) && Ready(l, painted, theme, effects)
    ensures InStep(Turned(l, theme, effects, damage, mid).0.(rendered := l.store.version), l.store.nodes, theme, effects)
  {
    var nodes, mode := l.store.nodes, ModeOf(l, theme, effects);
    var l1 := Diffed(l, theme, effects, damage).0;
    if Changed(l) {
      var p := Start(l, damage);
      DiffModels(p, mode, KeysOf(painted, theme), nodes);
      DiffCovers(p, mode, KeysOf(painted, theme), nodes, 0, 0);
      if !effects { DiffStaysPut(p, mode, nodes); }
    }
    if effects { TickKeepsMatch(l1, KeysOf(nodes, theme), mid); }
  }

  lemma MatchBases(look: Look, nodes: seq<Node>, theme: Theme)
    requires Distinct(nodes) && EntersMatch(look.anims, KeysOf(nodes, theme))
    ensures BasesMatch(look, nodes)
  {
    KeysAre(nodes, |nodes|, theme.sig);
  }

  /** The first node of b that the diff takes for v, or -1. */
  function Partner(v: Node, b: seq<Node>, sig: TextSig, k: nat := 0): (r: int)
    requires k <= |b|
    ensures r >= 0 ==> k <= r < |b| && SameToDiff(v, b[r], sig)
    ensures r < 0 ==> forall j :: k <= j < |b| ==> !SameToDiff(v, b[j], sig)
    decreases |b| - k
  {
    if k == |b| then -1 else if SameToDiff(v, b[k], sig) then k else Partner(v, b, sig, k + 1)
  }

  /** The nodes of a, each as it is in b where the diff takes the two for the same. */
  function Recast(a: seq<Node>, b: seq<Node>, sig: TextSig): (r: seq<Node>)
    ensures |r| == |a|
    ensures forall i :: 0 <= i < |a| ==> r[i] == if Partner(a[i], b, sig) >= 0 then b[Partner(a[i], b, sig)] else a[i]
  {
    seq(|a|, i requires 0 <= i < |a| => if Partner(a[i], b, sig) >= 0 then b[Partner(a[i], b, sig)] else a[i])
  }

  lemma RecastIds(a: seq<Node>, b: seq<Node>, sig: TextSig) returns (r: seq<Node>)
    requires Distinct(a)
    ensures r == Recast(a, b, sig) && |r| == |a| && Distinct(r)
    ensures forall i :: 0 <= i < |a| ==> r[i].id == a[i].id
  {
    r := Recast(a, b, sig);
  }

  lemma RecastOrder(a: seq<Node>, b: seq<Node>, look: Look) returns (r: seq<Node>)
    requires Distinct(a) && Distinct(b) && Tracks(a, b, look)
    ensures r == Recast(a, b, look.theme.sig) && Distinct(r) && SameOrder(r, b)
  {
    r := RecastIds(a, b, look.theme.sig);
    forall i, k | 0 <= i < |r| && 0 <= k < |b| && r[i] == b[k] ensures SameToDiff(a[i], b[k], look.theme.sig) {
      var p := Partner(a[i], b, look.theme.sig);
      if p >= 0 { assert b[p].id == b[k].id; }
    }
  }

  /** At a pixel where the states agree, every node shown has its partner. */
  lemma ShownPartner(a: seq<Node>, b: seq<Node>, theme: Theme, x: int, y: int, i: nat) returns (k: nat)
    requires Distinct(a) && Distinct(b) && i < |a| && Touches(a[i], x, y)
    requires SameStates(KeysOf(a, theme), KeysOf(b, theme), x, y)
    ensures k < |b| && SameToDiff(a[i], b[k], theme.sig)
  {
    KeysAre(a, |a|, theme.sig);
    KeysAre(b, |b|, theme.sig);
    var id := a[i].id;
    assert AtPixel(KeysOf(a, theme)[id], x, y);
    assert id in KeysOf(b, theme);
    k :| 0 <= k < |b| && b[k].id == id;
  }

  /** States that agree at a pixel are the same nodes there, once recast. */
  lemma RecastAlike(painted: seq<Node>, nodes: seq<Node>, look: Look, x: int, y: int) returns (r: seq<Node>)
    requires Distinct(painted) && Distinct(nodes) && Tracks(painted, nodes, look)
    requires SameStates(KeysOf(painted, look.theme), KeysOf(nodes, look.theme), x, y)
    ensures r == Recast(painted, nodes, look.theme.sig) && Alike(r, nodes, x, y)
  {
    r := RecastOrder(painted, nodes, look);
    forall i | 0 <= i < |r| && Touches(r[i], x, y) ensures r[i] in nodes {
      if Partner(painted[i], nodes, look.theme.sig) < 0 {
        var k := ShownPartner(painted, nodes, look.theme, x, y, i);
      }
    }
    forall k | 0 <= k < |nodes| && Touches(nodes[k], x, y) ensures nodes[k] in r {
      var i := ShownPartner(nodes, painted, look.theme, x, y, k);
      var p := Partner(painted[i], nodes, look.theme.sig);
      assert SameToDiff(painted[i], nodes[k], look.theme.sig);
      assert nodes[p].id == nodes[k].id;
      assert r[i] == nodes[k];
    }
  }

  lemma {:induction false} WalkPairs(look: Look, a: seq<Node>, b: seq<Node>, n: nat, x: int, y: int, dst: Pixel)
    requires n <= |a| == |b| && forall i, d :: 0 <= i < n ==> NodePx(look, a[i], x, y, d) == NodePx(look, b[i], x, y, d)
    ensures WalkPx(look, a, n, x, y, dst) == WalkPx(look, b, n, x, y, dst)
  {
    if n > 0 { WalkPairs(look, a, b, n - 1, x, y, dst); }
  }

  /** States that agree at a pixel paint it alike, when the diff sees every change. */
  lemma SameStatesPaint(painted: seq<Node>, nodes: seq<Node>, look: Look, x: int, y: int, dst: Pixel)
    requires Distinct(painted) && Distinct(nodes) && Tracks(painted, nodes, look)
    requires SameStates(KeysOf(painted, look.theme), KeysOf(nodes, look.theme), x, y)
    ensures WalkPx(Plain(look), painted, |painted|, x, y, dst) == WalkPx(Plain(look), nodes, |nodes|, x, y, dst)
  {
    var r := RecastAlike(painted, nodes, look, x, y);
    var plain := Plain(look);
    forall i, d | 0 <= i < |painted| ensures NodePx(plain, painted[i], x, y, d) == NodePx(plain, r[i], x, y, d) {
      if Partner(painted[i], nodes, look.theme.sig) >= 0 { assert PaintAlike(look, painted[i], r[i]); }
    }
    WalkPairs(plain, painted, r, |painted|, x, y, dst);
    FoldAgree((v, d) => NodePx(plain, v, x, y, d), r, nodes, x, y, dst);
  }

  /** A pixel that ends the turn neither damaged nor in a slide band was in no running
      transition before, and is in none now; after a diff its nodes' states did not change. */
  lemma TurnUnmarked(l: Layer, painted: seq<Node>, theme: Theme, effects: bool, damage: seq<Rect>, mid: seq<Rect>,
                     x: int, y: int)
    requires !l.dead && InStep(l, painted, theme, effects) && Ready(l, painted, theme, effects)
    requires Covers(Diffed(l, theme, effects, damage).1, x, y) ==> Covers(mid, x, y)
    requires var (l2, d2) := Turned(l, theme, effects, damage, mid);
             !Covers(d2, x, y) && (effects ==> !InTail(l2.anims, x, y))
    ensures effects ==> !InZone(l.anims, x, y)
    ensures effects ==> !InZone(Turned(l, theme, effects, damage, mid).0.anims, x, y)
    ensures Changed(l) ==> SameStates(KeysOf(painted, theme), KeysOf(l.store.nodes, theme), x, y)
  {
    var nodes, mode := l.store.nodes, ModeOf(l, theme, effects);
    var (l1, d1) := Diffed(l, theme, effects, damage);
    if effects {
      TickedGrows(l1, mid, x, y);
      if !l.store.replaying {
        TickCovers(Fx(l1.anims, mid), x, y);
      } else {
        if Changed(l) { DiffStaysPut(Start(l, damage), mode, nodes); }
        PlaybackCovers(Fx(l1.anims, mid), x, y);
      }
    }
    if Changed(l) {
      var p := Start(l, damage);
      DiffCovers(p, mode, KeysOf(painted, theme), nodes, x, y);
      if !effects { DiffStaysPut(p, mode, nodes); }
    }
  }

  /** Away from running transitions a layer in step paints its nodes and nothing else. */
  lemma LayerPlain(v: View, theme: Theme, x: int, y: int, dst: Pixel)
    requires !v.dead && Distinct(v.nodes) && EntersMatch(v.look.anims, KeysOf(v.nodes, theme))
    requires v.look.effects ==> !InZone(v.look.anims, x, y)
    ensures LayerPx(v, x, y, dst) == WalkPx(Plain(v.look), v.nodes, |v.nodes|, x, y, dst)
  {
    MatchBases(v.look, v.nodes, theme);
    LayerAway(v, x, y, dst);
  }

  /** Layers of the same look whose nodes agree at the pixel, away from transitions. */
  lemma LayersAgree(was: View, now: View, theme: Theme, x: int, y: int, dst: Pixel)
    requires !was.dead && !now.dead && Plain(was.look) == Plain(now.look)
    requires Distinct(was.nodes) && EntersMatch(was.look.anims, KeysOf(was.nodes, theme))
    requires Distinct(now.nodes) && EntersMatch(now.look.anims, KeysOf(now.nodes, theme))
    requires was.look.effects ==> !InZone(was.look.anims, x, y) && !InZone(now.look.anims, x, y)
    requires WalkPx(Plain(was.look), was.nodes, |was.nodes|, x, y, dst) == WalkPx(Plain(was.look), now.nodes, |now.nodes|, x, y, dst)
    ensures LayerPx(was, x, y, dst) == LayerPx(now, x, y, dst)
  {
    LayerPlain(was, theme, x, y, dst);
    LayerPlain(now, theme, x, y, dst);
  }

  /** Such a pixel of the layer need not be repainted: it shows the store's nodes already. */
  lemma TurnAgrees(l: Layer, painted: seq<Node>, theme: Theme, effects: bool, damage: seq<Rect>, mid: seq<Rect>,
                   x: int, y: int, dst: Pixel)
    requires InStep(l, painted, theme, effects) && Ready(l, painted, theme, effects)
    requires Covers(Diffed(l, theme, effects, damage).1, x, y) ==> Covers(mid, x, y)
    requires var (l2, d2) := Turned(l, theme, effects, damage, mid);
             !Covers(d2, x, y) && (effects ==> !InTail(l2.anims, x, y))
    requires !l.dead
    ensures LayerPx(ViewOf(l, painted, theme, effects), x, y, dst)
         == LayerPx(ViewOf(Turned(l, theme, effects, damage, mid).0, l.store.nodes, theme, effects), x, y, dst)
  {
    var l2, nodes := Turned(l, theme, effects, damage, mid).0, l.store.nodes;
    var was, now := ViewOf(l, painted, theme, effects), ViewOf(l2, nodes, theme, effects);
    TurnUnmarked(l, painted, theme, effects, damage, mid, x, y);
    TurnInStep(l, painted, theme, effects, damage, mid);
    if Changed(l) { SameStatesPaint(painted, nodes, was.look, x, y, dst); }
    LayersAgree(was, now, theme, x, y, dst);
  }

  // ---- Offers between frames --------------------------------------------------

  /** What a change of look concerns: the nodes of one style, or those of one layer with
      one texture. */
  datatype Concern = ByStyle(ref: nat) | ByTexture(layer: nat, ref: nat) {
    predicate Of(i: nat, key: Key) {
      if ByStyle? then key.style == ref else i == layer && key.tex == ref
    }
  }

  /** Every shown entry of layer i that the change concerns is in the list. */
  ghost predicate Offered(l: Layer, i: nat, what: Concern, list: seq<Rect>) {
    forall rn, x, y :: rn in Bag(l.model.slots) && what.Of(i, rn.key) && AtPixel(rn.key, x, y) ==> Covers(list, x, y)
  }

  lemma OfferedKept(l: Layer, i: nat, what: Concern, list: seq<Rect>, more: seq<Rect>)
    requires forall x, y :: Covers(list, x, y) ==> Covers(more, x, y)
    ensures Offered(l, i, what, list) ==> Offered(l, i, what, more)
  {
  }

  /** When the model's entries at a pixel are all unaffected by a change of look, the layer
      is unaffected there: the model knows every painted node. */
  lemma LookChangeLocal(was: View, now: View, l: Layer, theme: Theme, effects: bool, what: Concern, n: nat,
                        x: int, y: int, dst: Pixel)
    requires InStep(l, was.nodes, theme, effects) && !was.dead && !now.dead && now.nodes == was.nodes
    requires was.look.anims == l.anims == now.look.anims && was.look.effects == effects == now.look.effects
    requires effects ==> !InZone(l.anims, x, y)
    requires forall rn :: rn in Bag(l.model.slots) && what.Of(n, rn.key) ==> !AtPixel(rn.key, x, y)
    requires forall v, d :: (what.Of(n, KeyOf(v, theme.sig)) ==> !Touches(v, x, y)) ==>
               NodePx(Plain(was.look), v, x, y, d) == NodePx(Plain(now.look), v, x, y, d)
    ensures LayerPx(was, x, y, dst) == LayerPx(now, x, y, dst)
  {
    var nodes := was.nodes;
    LayerPlain(was, theme, x, y, dst);
    LayerPlain(now, theme, x, y, dst);
    KeysAre(nodes, |nodes|, theme.sig);
    forall i | 0 <= i < |nodes| ensures what.Of(n, KeyOf(nodes[i], theme.sig)) ==> !Touches(nodes[i], x, y) {
      assert HasEntry(Bag(l.model.slots), nodes[i].id, false);
      var rn :| rn in Bag(l.model.slots) && rn.id == nodes[i].id && !rn.seen;
      assert rn.key == KeyOf(nodes[i], theme.sig);
    }
    WalkSame(Plain(was.look), Plain(now.look), nodes, |nodes|, x, y, dst);
  }

  /** A new session's layer: an empty model and no transitions. */
  function NewLayer(sv: nat, store: Store): Layer {
    Layer(sv, store, Map(Blank(64), 6, 0), seq(ANIM_CAP, i => Idle), map[], 0, false)
  }

  lemma NewLayerInStep(sv: nat, store: Store, theme: Theme, effects: bool)
    requires store.version == 0 ==> store.nodes == []
    ensures InStep(NewLayer(sv, store), [], theme, effects) && |NewLayer(sv, store).model.slots| == Pow2(6)
    ensures Settled(NewLayer(sv, store).anims)
  {
    assert Pow2(6) == 64 by { assert Pow2(3) == 8; }
    BlankBag(Blank(64));
  }
}
