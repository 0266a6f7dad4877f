// Where the diff falls short: exactly when a hole in the render model makes it forget an
// entry, and which pixels a change leaves behind while a transition runs.
module DiffLimits {
  import opened Probing
  import opened Raster
  import opened SceneModel
  import opened RenderMap
  import opened Damage
  import opened Transitions
  import opened Diff
  import opened DiffCover
  import opened Layers

  // ---- A freshly rehashed table has no broken probe path ----------------------

  /** The probe path from `home` meets no free slot before slot j. */
  ghost predicate Open(slots: seq<Slot>, home: nat, j: nat)
    requires home < |slots| && j < |slots|
  {
    forall i :: 0 <= i < Distance(home, j, |slots|) ==> slots[Probe(home, i, |slots|)].Used?
  }

  ghost predicate AllOpen(slots: seq<Slot>, shift: nat)
    requires |slots| == Pow2(shift)
  {
    forall j :: 0 <= j < |slots| && slots[j].Used? ==> Open(slots, HomeSlot(slots[j].rn.id, shift), j)
  }

  lemma {:induction false} SpotOpen(slots: seq<Slot>, home: nat, id: nat, i: nat)
    requires home < |slots|
    requires forall k :: 0 <= k < i < |slots| ==> slots[Probe(home, k, |slots|)].Used?
    ensures SpotFrom(slots, home, id, false, i) >= 0 ==> Open(slots, home, SpotFrom(slots, home, id, false, i))
    decreases |slots| - i
  {
    if i < |slots| && slots[Probe(home, i, |slots|)].Used? { SpotOpen(slots, home, id, i + 1); }
  }

  lemma PlaceOpen(slots: seq<Slot>, shift: nat, rn: RNode)
    requires |slots| == Pow2(shift) && AllOpen(slots, shift)
    ensures AllOpen(Place(slots, shift, rn), shift)
  {
    var r, home := Place(slots, shift, rn), HomeSlot(rn.id, shift);
    SpotOpen(slots, home, rn.id, 0);
    forall j | 0 <= j < |r| && r[j].Used? ensures Open(r, HomeSlot(r[j].rn.id, shift), j) {
      assert Open(slots, HomeSlot(r[j].rn.id, shift), j);
    }
  }

  lemma {:induction false} RehashOpen(src: seq<Slot>, shift: nat, n: nat)
    requires n <= |src|
    ensures AllOpen(Rehash(src, shift, n), shift)
  {
    if n > 0 {
      RehashOpen(src, shift, n - 1);
      if src[n - 1].Used? { PlaceOpen(Rehash(src, shift, n - 1), shift, src[n - 1].rn); }
    }
  }

  /** Along an open path the insert meets the old entry, or another of its id, before any free slot. */
  lemma {:induction false} OpenMeets(slots: seq<Slot>, home: nat, id: nat, j: nat, i: nat)
    requires home < |slots| && j < |slots| && Open(slots, home, j) && slots[j].Used? && slots[j].rn.id == id
    requires i <= Distance(home, j, |slots|)
    ensures SpotFrom(slots, home, id, true, i) >= 0 && slots[SpotFrom(slots, home, id, true, i)].Used?
    decreases |slots| - i
  {
    if i < Distance(home, j, |slots|) { OpenMeets(slots, home, id, j, i + 1); }
  }

  // ---- Exactly when an insert overwrites --------------------------------------

  /** An insert after a failed find overwrites an entry exactly when it grows the table
      and the table holds the id behind a hole. */
  lemma RefindIff(m: Map, id: nat)
    requires m.Valid() && Find(m, id) < 0
    ensures Refinds(m, id) <==> LostInGrowth(m, id)
  {
    if Refinds(m, id) { RefindNeedsGrowth(m, id); }
    if LostInGrowth(m, id) {
      var g := Roomy(m);
      GrowKeeps(m);
      RehashOpen(m.slots, m.shift + 1, |m.slots|);
      HoldsIff(m.slots, id);
      var rn :| rn in Bag(g.slots) && rn.id == id;
      BagHas(g.slots, rn);
      var j :| 0 <= j < |g.slots| && g.slots[j] == Used(rn);
      OpenMeets(g.slots, HomeSlot(id, g.shift), id, j, 0);
    }
  }

  /** What then goes wrong: the old entry leaves the table, so no sweep will damage its
      rectangle, and the step damages the new rectangle only. */
  lemma OverwriteForgets(p: Progress, mode: Mode, v: Node) returns (was: RNode)
    requires p.model.Valid() && LostInGrowth(p.model, v.id) && !mode.Animates()
    ensures was in Bag(p.model.slots) && was.id == v.id
    ensures var q, rn := DiffStep(p, mode, v), FreshEntry(v, mode.theme.sig);
            Bag(q.model.slots) == Bag(p.model.slots) - multiset{was} + multiset{rn}
            && q.fx == if VisibleFlag(v.flags) then p.fx.(damage := Add(p.fx.damage, v.rect)) else p.fx
  {
    RefindIff(p.model, v.id);
    InsertAdds(p.model, FreshEntry(v, mode.theme.sig));
    was := Roomy(p.model).slots[InsertSpot(p.model, v.id)].rn;
  }

  // ---- A check a caller can make beforehand -----------------------------------

  lemma {:induction false} WalkRoomy(m: Map, nodes: seq<Node>, k: nat, sig: TextSig) returns (w: Map)
    requires k <= |nodes| && |m.slots| == Pow2(m.shift) && (m.used + |nodes|) * 10 <= |m.slots| * 7
    ensures w == WalkTable(m, nodes, k, sig) && |w.slots| == |m.slots| && w.shift == m.shift && w.used <= m.used + k
    ensures GrowsClean(m, nodes, k, sig)
  {
    if k == 0 {
      w := m;
    } else {
      w := WalkRoomy(m, nodes, k - 1, sig);
      assert !Crowded(w);
      assert StepTable(w, nodes[k - 1], sig) == WalkTable(m, nodes, k, sig);
      w := StepTable(w, nodes[k - 1], sig);
    }
  }

  lemma {:induction false} FewEnters(m: Map, nodes: seq<Node>, k: nat, mode: Mode)
    requires k <= |nodes| && |m.slots| == Pow2(m.shift)
    ensures EnterStarts(m, nodes, k, mode) <= k
  {
    if k > 0 { FewEnters(m, nodes, k - 1, mode); }
  }

  /** A diff that disturbs no transition, with room for all its nodes in the table and in the
      idle slots, meets every condition of the coverage theorem. */
  lemma RoomyDiffOk(p: Progress, mode: Mode, nodes: seq<Node>)
    requires p.model.Valid() && Distinct(nodes) && Undisturbed(p.fx.anims, p.model.slots, nodes)
    requires (p.model.used + |nodes|) * 10 <= |p.model.slots| * 7 && Active(p.fx.anims) + |nodes| <= |p.fx.anims|
    ensures DiffOk(p, mode, nodes)
  {
    var _ := WalkRoomy(p.model, nodes, |nodes|, mode.theme.sig);
    FewEnters(p.model, nodes, |nodes|, mode);
  }

  /** A settled layer disturbs nothing. */
  lemma SettledDiffOk(p: Progress, mode: Mode, nodes: seq<Node>)
    requires p.model.Valid() && Distinct(nodes) && Settled(p.fx.anims)
    requires (p.model.used + |nodes|) * 10 <= |p.model.slots| * 7 && |nodes| <= |p.fx.anims|
    ensures DiffOk(p, mode, nodes)
  {
    ActiveRoom(p.fx.anims);
    RoomyDiffOk(p, mode, nodes);
  }

  // ---- Changes while a transition runs ----------------------------------------

  /** Nothing but transition j draws at the pixel, and nothing damaged it. */
  predicate OnlyBy(fx: Fx, j: nat, x: int, y: int) {
    && j < |fx.anims| && InZone1(fx.anims[j], x, y) && !Covers(fx.damage, x, y)
    && forall i :: 0 <= i < |fx.anims| && i != j ==> !InZone1(fx.anims[i], x, y)
  }

  lemma AddCoversOnly(list: seq<Rect>, r: Rect, x: int, y: int)
    requires |list| < MAX_DAMAGE
    ensures Covers(Add(list, r), x, y) <==> Covers(list, x, y) || r.Has(x, y)
  {
    if !r.Empty() { AppendCovers(list, r); }
  }

  lemma ZoneSwap(anims: seq<Anim>, j: nat, a: Anim, x: int, y: int)
    requires j < |anims| && forall i :: 0 <= i < |anims| && i != j ==> !InZone1(anims[i], x, y)
    ensures InZone(anims[j := a], x, y) <==> InZone1(a, x, y)
  {
    assert anims[j := a][j] in anims[j := a];
  }

  /** A node that moves while it slides in takes its enter along.  Of the pixels only that enter
      drew, the step leaves unmarked exactly those of the old slide band below the old rectangle
      and outside the new band. */
  lemma RetargetLeaves(p: Progress, mode: Mode, v: Node, j: nat, x: int, y: int)
    requires |p.model.slots| == Pow2(p.model.shift) && mode.effects && Find(p.model, v.id) >= 0
    requires j == FindAnim(p.fx.anims, v.id) && OnlyBy(p.fx, j, x, y) && |p.fx.damage| + 2 <= MAX_DAMAGE
    requires var was, now := p.model.slots[Find(p.model, v.id)].rn.key, KeyOf(v, mode.theme.sig);
             was != now && was.Shown() && now.Shown() && p.fx.anims[j].Enter? && p.fx.anims[j].base == was.rect
    ensures !Marked(StepFx(p, mode, v), x, y)
       <==> !p.model.slots[Find(p.model, v.id)].rn.key.rect.Has(x, y) && !Band(v.rect).Has(x, y)
  {
    var was, now := p.model.slots[Find(p.model, v.id)].rn.key, KeyOf(v, mode.theme.sig);
    ZoneSwap(p.fx.anims, j, Enter(v.id, p.fx.anims[j].t, v.rect), x, y);
    AddCoversOnly(p.fx.damage, was.rect, x, y);
    AddCoversOnly(p.fx.damage, now.rect, x, y);
    AddCoversOnly(Add(p.fx.damage, was.rect), now.rect, x, y);
  }

  /** A node created again while its phantom fades drops the phantom.  Of the pixels only the
      phantom drew, the step leaves unmarked exactly those outside the new enter's band. */
  lemma RecreateLeaves(p: Progress, mode: Mode, v: Node, j: nat, x: int, y: int)
    requires |p.model.slots| == Pow2(p.model.shift) && mode.Animates() && Find(p.model, v.id) < 0
    requires j == FindAnim(p.fx.anims, v.id) && p.fx.anims[j].Exit? && OnlyBy(p.fx, j, x, y)
    requires KeyOf(v, mode.theme.sig).Shown()
    ensures !Marked(StepFx(p, mode, v), x, y) <==> !Band(v.rect).Has(x, y)
  {
    var freed := p.fx.anims[j := Idle];
    var i := FirstIdle(freed);
    assert freed[j].Idle?;
    assert forall k :: 0 <= k < |freed| ==> !InZone1(freed[k], x, y);
    ZoneSwap(freed, i, Enter(v.id, 0, v.rect), x, y);
  }
}
