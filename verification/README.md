# Scene desktop: verified model

A Dafny 4.11 model of the scene desktop's compositor, wire protocol and the small
services around them, with proofs. `dafny verify dfyconfig.toml` checks everything.

**Compositor.** Every session's store is diffed against a hash table of what was last
painted; the differences become a damage list of at most 32 rectangles, and only those
rectangles are repainted. `ScenePx` is the simple meaning: what a full repaint of all
layers leaves at one pixel. `Compositor.Compositor` is the object with its fields and
loops. Its invariant `Inv` says that each layer's table describes exactly the nodes
painted, and that the framebuffer shows their full repaint wherever no offer is pending
and no transition runs. Operations keep `Inv` or their contracts say exactly when, and a
ready frame ends with the framebuffer equal to a full repaint of the current stores, slide
bands of running enter transitions excepted; with effects off there are none.
`Compositor.Compositor.AnyFrame` says what a frame does from every other state. A store is
a sequence number with the visible nodes in document order.

| file | models |
|---|---|
| Pixels, Corner, Raster, RasterLaws | `scene_fb.c`, bitmap text of `scene_font.c` |
| SceneModel, Probing, RenderMap, Damage, Transitions | the compositor's tables: render model, damage list, transition slots |
| Diff, DiffCover, DiffLimits, Collision | the diff of one layer, what it damages, and where it falls short |
| Painting, SceneLaws, Layers, Frames, Compositor | painting, a layer's turn, a frame, the object |
| Ink, Unseen, Stale, Moving | when two nodes paint alike, changes the diff cannot see, runs that end with a wrong picture |
| Looks | what is seen in plain numbers: colours, places and strengths of boxes, textures and texts, at rest and while they slide or fade |
| Wire, Feed, Client, Rejoin | frames and checksum, reassembly, the client and its log, both ends over a link that can be cut |
| GlyphCache, Rewind, Launcher, Editor, Settings, Track | glyph cache, replay diff, session slots, line editor, Option=Value files, audio track |

**Premises of a frame** (`FrameReady`). A forced frame has none: its picture is right from
any state, and `Inv` is kept if and only if no live layer's table is out of date. Otherwise
a live layer whose sequence number moved has surviving nodes in their old order; survivors
that agree in the compared fields paint alike (`Ink.PaintAlikeIff` says exactly when,
`Ink.FieldsPaintAlike` gives a check on the fields); transitions may run, but no node that
slides in has moved and none whose phantom fades is there again (`Undisturbed`); the enters
the diff starts fit the idle slots; and no insert both grows the table and hides an older
entry (`RoomyDiffOk` gives a check that implies the last two). Playback does not start while
an enter slides. Before the shell's first content nothing may have been painted.

**Where the code does not do what it says**

- The diff does not compare opacity or texture source, and compares texts by a signature
  of their first bytes. A frame over such a change repaints nothing and is right exactly
  where the old scene equals the new (`BlindRepaint`, `Ink.TransparentIff`); a box that
  turns transparent stays on screen for good (`Stale.FadedBox`).
- An insert overwrites an entry if and only if it grows the table while a hole hides the id
  (`RefindIff`); the old rectangle is then never repainted (`Collision.OverwriteUncovers`),
  which three diffs from an empty table reach (`Collision.RunForgets`).
- Turning effects off records the fading footprints as damage that the next frame throws
  away, although the comment promises a repaint: no pixel changes, so one is right exactly
  where the transitions made no difference (`EffectsOffFrame`); a half-faded box stays on
  screen (`Stale.FadingBox`).
- A forced frame notes the stores' sequence numbers without refreshing the tables
  (`ForcedStep`): what the store then takes back is not repainted (`RevertAfterForce`,
  `Stale.ForcedAway`).
- A node that moves while it slides in, or is created again while its phantom fades, leaves
  the pixels that `RetargetLeaves` and `RecreateLeaves` name undamaged; two runs end with a
  box left where it no longer is (`Moving.MovedBox`, `Moving.CreatedAgain`).
- A client op that takes the sequence number of a host mutation is not painted until the
  layer's next number, as the store's header admits (`Commit`, `Coalesced`).
- One-pass chrome with fill 0, or with its inner top edge above the screen, paints the
  interior in the border colour; the header says fill 0 draws the ring only
  (`ChromeIsRing`, `NoFillPaintsInterior`).
- A texture whose registration the store refuses has taken its place in the layer without
  an offer; a pixel stays right exactly where that makes no difference (`RegisterTexture`,
  `Stale.RefusedTexture`).
- A `scene_client_connect` on a client that has already spoken makes it resume at 1, and a
  retained session refuses the first op sent again if and only if it has counted one or is
  not in live mode (`ConnectRefusedIff`, with a run in `ConnectTwiceRefused`). On the runs
  modelled a store that is not in live mode refuses a rejoin, and nothing else does
  (`DeliverRefusedIff`).
- Detaching keeps the bytes of a half-received frame: cut inside its first six bytes,
  nothing sent over the next connection is ever accepted (`StaleHeader`); cut later, what
  the kept bytes and the next ones make together is accepted if and only if it checks
  (`KeptFrame`).
- The rewind service takes a number out of range although its header refuses it: the replay
  arena stops at the nearest end and the cursor does not. So op 1 is shown for number 0, and
  a diff that involves 0 is right, and leaves what is shown as it was, only in the cases of
  `Addressed` (`ToldIff`); asked twice after entering replay it gives two answers
  (`AskTwice`).
- The rewind diff sizes its arrays by the live scene while it walks the replayed one, and
  drops the nodes that do not fit: it is exact if and only if those are the same in both
  scenes and left out of both (`ToldIff`), and a patch if and only if they do no harm
  (`ToldPatchIff`). Back before forty deletions it lists sixteen (`ScrubBack`).
- A slot's stored layer number goes stale when a lower layer is removed, and only then
  (`StoredLayerRightIff`, `ReapStales`); nor does the focus move down with the layers
  (`FocusSlips`).
- The editor loses the end of a line that does not fit behind the one it is joined to
  (`BackspaceIsFlat`). After a file could not be opened no line counts: every Return makes
  the line it ends count, so the saved file is empty exactly until the first Return
  (`MissingRun`); the cursor's own line is shown empty (`Redraw`), never saved
  (`LooseSaves`), and given up by going up or left over its start (`LeavingLoses`). After
  127 Returns the array is full although the count is not (`MissingFills`).
- Saving settings over a file without a final newline glues the first new entry to the last
  line, which is the one case where save and reload do not agree (`SaveReloadIff`). Saving
  accepts up to 33,279 bytes while loading keeps 16,383 and says nothing, so a save loses
  every line of a longer file behind that (`LoadCuts`), and `SetSaveReload` asks for a text
  that fits the load buffer.
- `track_convert` promises the mean of two channels when collapsing; the code keeps the
  first, which is the mean if and only if the second is equal or one above in every frame
  (`CollapseIsMean`, `CollapseDrops`).

## Model

| member | source | states |
|---|---|---|
| `Compositor.Compositor.Frame` | scene-store/src/scene_compositor.c:1677-1771 | after any forced or ready frame the framebuffer is, pixel for pixel, a full repaint of the current stores, textures and styles outside slide bands; models, sequence numbers and pending offers are up to date; sessions and stores are untouched; the invariant is lost exactly by a forced frame over a table that is out of date |
| `Compositor.Compositor.AnyFrame` | scene-store/src/scene_compositor.c:1677-1771 | the frame with no premise: a forced one is a full repaint, one without work changes no pixel, any other repaints exactly what its damage covers |
| `Looks.FrameShows` | scene-store/src/scene_compositor.c:1677-1771 | after a ready frame every uncovered box of the desk shows the fill of the style it wears |
| `Compositor.Compositor.Settle` | scene-store/src/scene_compositor.c:489-523 | with effects on, a batch frame and seven quiet ones drain every transition and end with the effects-off full repaint, slide bands and phantoms erased |
| `Compositor.Compositor.QuietFrame` | scene-store/src/scene_compositor.c:1733-1757 | a frame with the stores at rest keeps the invariant and makes everything that runs one tick older |
| `Compositor.Compositor.constructor` | scene-store/src/scene_compositor.c:1063-1097 | a new compositor has the shell alone, nothing painted, and satisfies the invariant |
| `Compositor.Compositor.DamageFrame` | scene-store/src/scene_compositor.c:1723-1770 | the damage branch: repainting only damaged rectangles gives the full repaint, and every layer is in step after it |
| `Compositor.Compositor.ForcedPath` | scene-store/src/scene_compositor.c:1699-1716 | from any state the forced branch repaints everything, and keeps the invariant if and only if no table is out of date |
| `Compositor.Compositor.RevertAfterForce` | scene-store/src/scene_compositor.c:1699-1716 | after a forced frame over a moved store, a commit that brings back what the table holds is not painted: the forced picture stays, right exactly where it is also the new one |
| `Compositor.Compositor.IdleFrame` | scene-store/src/scene_compositor.c:1718-1732 | a frame with nothing to do finds the picture already current |
| `Compositor.Compositor.RepaintBranch` | scene-store/src/scene_compositor.c:1733-1770 | the damage branch from any state: covered pixels take the full repaint of the current stores, the rest stays or was just cleared under the shell's first content |
| `Compositor.Compositor.CollectDamage` | scene-store/src/scene_compositor.c:1733-1761 | the diff loop, the tick loop and the pending offers compute the frame's layers and damage in that order |
| `Compositor.Compositor.RepaintDamage` | scene-store/src/scene_compositor.c:1764-1766 | covered pixels get the full repaint of the current stores, all others keep their value |
| `Compositor.Compositor.BlindRepaint` | scene-store/src/scene_compositor.c:905-915 | a frame over changes the diff does not see leaves every pixel, which is right if and only if the old scene equals the new one there |
| `Compositor.Compositor.DiffNode` | scene-store/src/scene_compositor.c:866-967 | one diff callback moves the layer's table, transitions and the damage by exactly one diff step and nothing else |
| `Compositor.Compositor.SweepMap` | scene-store/src/scene_compositor.c:972-1021 | the sweep loop frees unseen entries without tombstones and starts their exits or damages them |
| `Compositor.Compositor.TickSession` | scene-store/src/scene_compositor.c:489-523 | a layer's tick ages every transition in place, or drops them during playback; `Looks.TickDamages` says by which rectangles it damages |
| `Looks.TickDamages` | scene-store/src/scene_compositor.c:489-523 | a transition lives eight ticks; an exit damages its rectangle, an enter that and the rectangle it is drawn in next, at its end the band six pixels longer |
| `Looks.NewNode` | scene-store/src/scene_compositor.c:866-901 | a new node slides in from tick 0 in the first idle slot when effects are on and it is drawn, and is damaged otherwise |
| `Looks.ChangedNode` | scene-store/src/scene_compositor.c:903-967 | a changed node damages what was drawn and what is to be drawn, once where the rectangle is the same |
| `Looks.MovedNode` | scene-store/src/scene_compositor.c:918-931 | in an enter it keeps the age and is aimed at the new rectangle; out of a fading phantom it begins an enter |
| `Compositor.Compositor.StillSession` | scene-store/src/scene_compositor.c:408-418 | clearing transitions leaves every slot idle and the rest of the layer alone |
| `Compositor.Compositor.MarkDeaths` | scene-store/src/scene_compositor.c:1685-1697 | exactly the failed app sessions become dead, and a new death forces the frame |
| `Compositor.Compositor.SetStyle` | scene-store/src/scene_compositor.c:1511-1533 | restyling keeps the invariant: every pixel showing the style is offered for repaint |
| `Looks.RestyleShows` | scene-store/src/scene_compositor.c:1511-1533 | a style changed and a frame later every uncovered box of that style shows the new fill |
| `Compositor.Compositor.OfferSession` | scene-store/src/scene_compositor.c:1519-1530 | every shown entry concerned is covered by the pending list, even when the list overflows and merges |
| `Compositor.Compositor.RegisterTexture` | scene-store/src/scene_compositor.c:1354-1429 | new pixels keep the invariant when the store knows or takes the reference, or nothing shows it; otherwise a quiet pixel stays right if and only if they make no difference to it |
| `Compositor.Compositor.ReleaseTexture` | scene-store/src/scene_compositor.c:1453-1473 | releasing a texture keeps the invariant and is refused exactly for an unknown reference |
| `Compositor.Compositor.Commit` | scene-store/include/scene_store.h:196-203 | a store may change between frames in any way; the invariant is kept unless a live layer shows other nodes under the number last painted |
| `Compositor.Compositor.Coalesced` | scene-store/include/scene_store.h:196-203 | a client op on a number a host mutation took is not painted by the next frame, and the layer's next number brings the invariant back |
| `Compositor.Compositor.AddSession` | scene-store/src/scene_compositor.c:1140-1156 | a session is added on top, unpainted, and the picture stands |
| `Compositor.Compositor.RemoveSession` | scene-store/src/scene_compositor.c:1158-1176 | the first app layer of that server goes, those above move down, focus stays in range, the next frame is forced; an unknown server changes nothing |
| `Compositor.Compositor.SetFocus` | scene-store/src/scene_compositor.c:1220-1225 | the focus moves to any layer there is, and is refused for any other |
| `Compositor.Compositor.Resize` | scene-store/src/scene_compositor.c:1227-1234 | a new size gives a new framebuffer and forces a frame; the same size does nothing |
| `Compositor.Compositor.SetClear` | scene-store/src/scene_compositor.c:1236-1242 | a new desktop colour forces a frame |
| `Compositor.Compositor.SetEffects` | scene-store/src/scene_compositor.c:1773-1784 | switching effects keeps the picture whenever nothing runs; turning them off leaves every layer settled |
| `Compositor.Compositor.EffectsOffFrame` | scene-store/src/scene_compositor.c:404-418 | effects off over resting stores and the frame after it change no pixel; away from slide bands one is right if and only if the scene with the transitions equals the scene without |
| `Compositor.Compositor.NeedsWork` | scene-store/src/scene_compositor.c:1718-1732 | work is reported exactly when a store moved, something is pending, or a transition runs |
| `Frames.FrameSuffices` | scene-store/src/scene_compositor.c:1733-1766 | for every pixel: undamaged and outside slide bands means nothing was offered or running there and the scene did not change |
| `Frames.FrameAgrees` | scene-store/src/scene_compositor.c:1733-1757 | the layer-by-layer diff and tick leave no changed pixel undamaged, over all layers at once |
| `Frames.ForcedStep` | scene-store/src/scene_compositor.c:1699-1716 | a forced frame keeps a layer in step if and only if its table still matches the store |
| `Frames.RestyledShown` | scene-store/src/scene_compositor.c:1511-1533 | the picture stays right under a restyle outside what was offered |
| `Frames.RetexturedShown` | scene-store/src/scene_compositor.c:1419-1428 | the picture stays right under a texture change outside what was offered |
| `Frames.QuietTick` | scene-store/src/scene_compositor.c:489-523 | every transition that survives a quiet tick has seen one tick more |
| `Frames.OldSettled` | scene-store/src/scene_compositor.c:489-523 | no transition outlives its eighth tick |
| `Frames.SettledScene` | scene-store/src/scene_compositor.c:614-636 | with nothing running, effects make no difference to any pixel |
| `Layers.TurnAgrees` | scene-store/src/scene_compositor.c:866-1021 | a layer's pixel that its turn leaves unmarked shows the store's current nodes already |
| `Layers.TurnInStep` | scene-store/src/scene_compositor.c:866-1021 | after its turn a layer's table describes exactly the store's nodes and its enters are aimed at them |
| `Layers.PlaybackCovers` | scene-store/src/scene_compositor.c:408-418 | in playback every running exit is dropped and its rectangle damaged |
| `Layers.LookChangeLocal` | scene-store/src/scene_compositor.c:1519-1530 | a change of look is invisible wherever no entry of the table that it concerns is shown |
| `Diff.DiffModels` | scene-store/src/scene_compositor.c:866-1021 | despite holes, after walk and sweep the table holds exactly one entry per live node with its current state, and map_used counts them |
| `Diff.WalkKeepsTable` | scene-store/src/scene_compositor.c:866-967 | half way through a walk every visited node has exactly one seen entry and unseen ones come from the start |
| `DiffCover.DiffCovers` | scene-store/src/scene_compositor.c:866-1021 | with transitions running that the diff does not disturb, at every pixel that ends neither damaged nor in a transition the shown nodes and their states are the same before and after |
| `DiffCover.WalkFaithful` | scene-store/src/scene_compositor.c:866-967 | the walk loses no entry and adds no state at an unmarked pixel |
| `DiffCover.SweepMarks` | scene-store/src/scene_compositor.c:972-1021 | the sweep marks every pixel of every entry it frees |
| `DiffCover.StartsFit` | scene-store/src/scene_compositor.c:375-402 | a walk that disturbs no running transition and starts no more enters than there are idle slots never lacks one |
| `DiffLimits.RefindIff` | scene-store/src/scene_compositor.c:282-346 | an insert after a failed find overwrites an entry if and only if it grows the table and a hole hides the id |
| `DiffLimits.OverwriteForgets` | scene-store/src/scene_compositor.c:916-935 | then the old entry is gone and only the new rectangle is damaged |
| `DiffLimits.RoomyDiffOk` | scene-store/src/scene_compositor.c:295-346 | no transition disturbed, enough free table slots and at most as many nodes as idle transition slots imply the premises of coverage |
| `DiffLimits.RetargetLeaves` | scene-store/src/scene_compositor.c:918-931 | a node that moves while it slides in leaves unmarked exactly the old slide band outside its old rectangle and its new band |
| `DiffLimits.RecreateLeaves` | scene-store/src/scene_compositor.c:866-901 | a node created again while its phantom fades leaves unmarked exactly the phantom's pixels outside the new band |
| `Collision.OverwriteUncovers` | scene-store/src/scene_compositor.c:295-346 | an overwriting insert leaves every pixel of the old rectangle outside the new one unmarked, and the states differ there |
| `Collision.RunForgets` | scene-store/src/scene_compositor.c:276-346 | three diffs from an empty table: 45 nodes, then the first deleted, then a newcomer and the one visible node moved while the rest go; its old pixel is unmarked |
| `Unseen.MetDiff` | scene-store/src/scene_compositor.c:903-917 | a walk that meets every node and every entry in its state damages nothing and moves no transition |
| `Unseen.SameKeysMet` | scene-store/src/scene_compositor.c:903-917 | so it is when the compared fields are the painted ones and no hole hides an entry |
| `Looks.Compared` | scene-store/src/scene_compositor.c:905-915 | the diff compares id, role, flags, style, texture, text signature and rectangle, and nothing else |
| `Ink.PaintAlikeIff` | scene-store/src/scene_compositor.c:662-725 | away from transitions two nodes paint alike if and only if they have the same ink at every pixel |
| `Ink.InkIs` | scene-store/src/scene_compositor.c:662-725 | an ink is what painting the node does to the pixel: nothing, a replacement, a veil, or an opaque texel mixed in |
| `Ink.InkSameIff` | scene-store/src/scene_fb.c:373-426 | two inks act alike on every pixel if and only if they are the same, up to roundings that hide a texel's difference |
| `Ink.FieldsPaintAlike` | scene-store/src/scene_compositor.c:905-915 | a check on opacity, texture source and capped texts under which nodes the diff takes for the same paint alike |
| `Ink.TransparentIff` | scene-store/src/scene_compositor.c:905-915 | a node and a fully transparent one paint alike if and only if the first draws at no pixel |
| `Stale.FadedBox` | scene-store/src/scene_compositor.c:905-915 | a run: a box shown, then made transparent; it stays on screen and no work is left |
| `Stale.ForcedAway` | scene-store/src/scene_compositor.c:1699-1716 | a run: a box deleted, a forced frame, the box brought back; it is not painted and no work is left |
| `Stale.FadingBox` | scene-store/src/scene_compositor.c:404-418 | a run: a white box deleted with effects on, effects off one tick later; it stays half faded and no work is left |
| `Stale.RefusedTexture` | scene-store/src/scene_compositor.c:1406-1415 | a run: a released texture registered again and refused; its texels are not painted and no work is left |
| `Moving.MovedBox` | scene-store/src/scene_compositor.c:918-931 | a run: a box moved one tick into its enter; below its old place it is left on screen, outside every slide band |
| `Moving.CreatedAgain` | scene-store/src/scene_compositor.c:918-931 | a run: a box deleted with effects on and created elsewhere one tick later; its phantom is left on screen |
| `RenderMap.MapFind` | scene-store/src/scene_compositor.c:282-293 | the probing loop stops at the id or at the first free slot |
| `RenderMap.MapInsert` | scene-store/src/scene_compositor.c:326-346 | grow at seven tenths, then the first free slot or entry of the id |
| `RenderMap.InsertFindsSpot` | scene-store/src/scene_compositor.c:326-346 | an insert always finds a slot |
| `RenderMap.InsertAdds` | scene-store/src/scene_compositor.c:326-346 | an insert adds one entry, or trades one of the same id for it, and loses no other |
| `RenderMap.GrowKeeps` | scene-store/src/scene_compositor.c:295-324 | growing loses and duplicates nothing |
| `RenderMap.HomeSlot` | scene-store/src/scene_compositor.c:276-280 | the multiplicative hash lands inside the table |
| `Damage.Add` | scene-store/src/scene_compositor.c:214-261 | at most 32 rectangles, every pixel covered before stays covered and the new rectangle is, merged or not |
| `Damage.AddIs` | scene-store/src/scene_compositor.c:214-261 | up to 32 rectangles are kept in order, then the last grows to the box around it and the new one |
| `Damage.MergeIsLeast` | scene-store/src/scene_compositor.c:214-261 | that box is the least one around both |
| `Transitions.EnterMarks` | scene-store/src/scene_compositor.c:375-402 | starting an enter forgets no damaged or running pixel and marks its own rectangle |
| `Transitions.ExitMarks` | scene-store/src/scene_compositor.c:375-402 | starting an exit, or damaging at once when no slot is free, marks the old rectangle and forgets nothing |
| `Transitions.TickCovers` | scene-store/src/scene_compositor.c:489-523 | after a tick everything drawn by transitions is damaged or in a running slide band |
| `Painting.PaintNode` | scene-store/src/scene_compositor.c:662-725 | painting a node clipped gives exactly its pixels inside the clip and leaves the rest; `Looks` says what those are |
| `Looks.PaintBox` | scene-store/src/scene_compositor.c:552-725 | painting a square box at rest fills its rectangle inside the clip with the style of the table where its reference is in range, else its role's, else the generic role's, and changes nothing else |
| `Looks.PaintEntering` | scene-store/src/scene_compositor.c:614-636 | a box t ticks into its enter is drawn exactly in its rectangle moved down by 6,5,4,3,3,2,1,0 with strength 0,31,63,95,127,159,191,223 |
| `Looks.RestingBox` | scene-store/src/scene_compositor.c:552-561 | the same pixel by pixel |
| `Looks.BorderedBox` | scene-store/src/scene_compositor.c:638-660 | any square box: the border's colour within its width of an edge, inside the fill; a zero colour is none |
| `Looks.RoundedBox` | scene-store/src/scene_compositor.c:638-660 | a rounded box: corners cut to discs of the radius capped at half the shorter side, the border the ring in from them |
| `Looks.HiddenLeaves` | scene-store/src/scene_compositor.c:662-672 | a hidden, transparent or empty node leaves every pixel |
| `Looks.EnteringBox` | scene-store/src/scene_compositor.c:614-636 | the entering box pixel by pixel: each channel mixed in by that strength, rounded down |
| `Looks.EnteringTexture` | scene-store/src/scene_compositor.c:662-725 | its texture slides with it, at the node's opacity times that strength, rounded down |
| `Looks.EnteringText` | scene-store/src/scene_compositor.c:662-725 | its texts do, in their colour at that strength |
| `Looks.TexturedNode` | scene-store/src/scene_fb.c:327-427 | a node at rest shows its texture from the source rectangle's corner on, where both reach, over its chrome |
| `Looks.TexelOver` | scene-store/src/scene_fb.c:373-426 | opaque texels mix in by the opacity, premultiplied ones lie over what they let through |
| `Looks.WrittenNode` | scene-store/src/scene_font.c:25-116 | a node at rest shows the first 48 of its lines in eight by eight cells from the padding on, in the text colour |
| `Painting.PaintPhantom` | scene-store/src/scene_compositor.c:754-807 | painting a fading phantom clipped does the same |
| `Looks.FadingOut` | scene-store/src/scene_compositor.c:754-807 | a phantom t ticks old mixes in with strength 255,223,191,159,127,95,63,31, and from eight ticks on not at all |
| `Looks.DeletedFades` | scene-store/src/scene_compositor.c:984-1005 | a deleted box fades in the fill of the style it wore, in the rectangle it had |
| `Looks.DeletedBorder` | scene-store/src/scene_compositor.c:984-1005 | the phantom of a bordered box starts as the box was |
| `Looks.DeletedTexture` | scene-store/src/scene_compositor.c:754-807 | a phantom shows its texture whole from its corner on, at the remembered opacity times its strength |
| `Looks.DeletedText` | scene-store/src/scene_compositor.c:754-807 | and the remembered texts without padding, at its strength |
| `Looks.Remembered` | scene-store/src/scene_compositor.c:903-967 | an entry remembers the texts of the last time their signature moved, 48 lines at most, and everything else of the last time it was met |
| `Looks.SweepStarts` | scene-store/src/scene_compositor.c:972-1021 | a swept entry's phantom starts at tick 0 in the first idle slot; without effects or in playback its rectangle is damaged |
| `Painting.RepaintRect` | scene-store/src/scene_compositor.c:820-835 | repainting a rectangle gives the full repaint inside it and changes nothing outside |
| `Painting.RepaintAll` | scene-store/src/scene_compositor.c:837-857 | a full repaint leaves the scene's pixel everywhere |
| `Looks.LastShows` | scene-store/src/scene_compositor.c:727-752 | later nodes are painted over earlier ones |
| `Looks.PhantomOnTop` | scene-store/src/scene_compositor.c:727-807 | phantoms are painted over their layer's nodes, later slots over earlier ones |
| `Looks.TopLayerShows` | scene-store/src/scene_compositor.c:837-857 | higher layers are painted over lower ones |
| `SceneLaws.FoldAgree` | scene-store/src/scene_compositor.c:727-752 | node lists with the same nodes at a pixel, in the same order, paint it alike however they differ elsewhere |
| `SceneLaws.LayerAway` | scene-store/src/scene_compositor.c:614-636 | away from running transitions a layer paints just its nodes |
| `Raster.ClipRect` | scene-store/src/scene_fb.c:11-44 | the clipped range is exactly the pixels in rectangle, clip and framebuffer |
| `Raster.FillAlpha` | scene-store/src/scene_fb.c:133-166 | inside the clip the unclipped pixel, everything else untouched |
| `Raster.StrokeAlpha` | scene-store/src/scene_fb.c:168-188 | four bars, clipped pointwise |
| `Raster.FillRound` | scene-store/src/scene_fb.c:209-240 | per-row chords, clipped pointwise |
| `Raster.ChromeRound` | scene-store/src/scene_fb.c:244-325 | one-pass chrome, clipped pointwise, with its square and borderless cases |
| `Raster.BlitTexture` | scene-store/src/scene_fb.c:327-427 | the clamped source rectangle, clipped pointwise |
| `Raster.BlitReadsInside` | scene-store/src/scene_fb.c:327-372 | every texel a blit reads exists |
| `Raster.DrawText` | scene-store/src/scene_font.c:25-116 | bitmap text as a clipped pointwise primitive |
| `RasterLaws.DrawAll` | scene-store/src/scene_fb.c:96-427 | clipping commutes with any sequence of fills, strokes, rounded fills, chrome, blits and text |
| `RasterLaws.RoundIsDiscs` | scene-store/src/scene_fb.c:197-240 | the filled rounded rectangle is exactly the rectangle with corners cut to discs |
| `RasterLaws.ChromeIsRing` | scene-store/src/scene_fb.c:244-325 | chrome touches exactly the rounded rectangle, one blend a pixel, fill inside and border on the ring; and exactly what happens with no fill or a negative inner edge |
| `RasterLaws.NoFillPaintsInterior` | scene-store/include/scene_fb.h:55-61 | a concrete interior pixel that takes the border colour with fill 0 |
| `RasterLaws.InnerInsideOuter` | scene-store/src/scene_fb.c:264-290 | the concentric inner rounded rectangle lies inside the outer one |
| `RasterLaws.DrawsKeep` | scene-store/src/scene_fb.c:133-427 | every sequence of draws keeps a premultiplied pixel premultiplied |
| `RasterLaws.SceneKeeps` | scene-store/src/scene_compositor.c:820-857 | a desktop of premultiplied colours and textures is premultiplied all over, in every fade |
| `Corner.RcornerInset` | scene-store/src/scene_fb.c:197-207 | the counting loop computes the exact integer-root inset |
| `Corner.InsetIsDisc` | scene-store/src/scene_fb.c:190-207 | a column survives the cut if and only if it lies in the corner's disc |
| `Corner.InsetMonotone` | scene-store/src/scene_fb.c:197-207 | deeper rows are cut less |
| `Corner.InsetConcentric` | scene-store/src/scene_fb.c:264-290 | the inner corner stays inside the outer one |
| `Pixels.BlendStaysPremultiplied` | scene-store/src/scene_fb.c:133-166 | blending keeps channels in their bytes and premultiplied |
| `Pixels.BlitStaysPremultiplied` | scene-store/src/scene_fb.c:373-426 | blitting does too, for opaque textures of any texels |
| `Wire.GetPut` | scene-store/src/scene_fmt.c:37-86 | a value that fits its little-endian field comes back |
| `Wire.PutGet` | scene-store/src/scene_fmt.c:37-86 | every field is the encoding of its value |
| `Wire.PutAt` | scene-store/src/scene_fmt.c:37-61 | the put loop writes the field's bytes and nothing else |
| `Wire.GetAt` | scene-store/src/scene_fmt.c:63-86 | the get loop reads the field's value |
| `Wire.StepInjective` | scene-store/src/scene_fmt.c:4-13 | one FNV-1a step is one to one in the hash and in the byte, modulo 2^32 |
| `Wire.StepInBits` | scene-store/src/scene_fmt.c:4-13 | one step takes the bitwise exclusive or of the low byte, leaves the rest, and multiplies by 16777619 modulo 2^32 |
| `Wire.KnownHashes` | scene-store/src/scene_fmt.c:4-13 | the hashes of the empty string and of "a" |
| `Wire.FrameCheck` | scene-store/src/scene_fmt.c:15-35 | header fields first, then the checksum with its own field taken as zero; `KnownFrame` gives a frame that passes |
| `Wire.OneByteDetected` | scene-store/src/scene_fmt.c:15-35 | no two passing frames of equal length differ in exactly one byte |
| `Wire.EncodeDecodes` | scene-store/src/scene_client.c:203-219 | a written frame passes the check and parses back to its opcode and payload |
| `Wire.KnownFrame` | scene-store/src/scene_fmt.c:15-35 | an empty acknowledgement as it is written, byte for byte, and that it passes the check |
| `Feed.Server.FeedBytes` | scene-store/src/scene_server.c:83-176 | appending, the frame loop and compaction leave exactly the drained session and its partial frame |
| `Feed.Server.AcceptRecord` | scene-store/src/scene_server.c:112-166 | rejoin, strict import check and ingest of one record, each able to end the session |
| `Feed.AcceptIs` | scene-store/src/scene_server.c:112-166 | what one record does in each case, with the opcodes and the import's declared length in numbers |
| `Feed.Server.Detach` | scene-store/src/scene_server.c:76-81 | detaching ghosts the session and keeps the buffered bytes |
| `Feed.ChunkingIrrelevant` | scene-store/src/scene_server.c:83-176 | any stream cut in any way ends in the same session, dead or alive, with the same bytes waiting |
| `Feed.StaleHeader` | scene-store/src/scene_server.c:76-111 | with one to five bytes of a lost frame kept, no frame of the next connection is accepted |
| `Feed.KeptFrame` | scene-store/src/scene_server.c:76-111 | with six or more bytes kept, what they and the next connection's make together is accepted if and only if it checks; once the header was kept it is the lost record with another payload, and one missing byte is replaced by the one every frame begins with |
| `Feed.RecordsRoundTrip` | scene-store/src/scene_client.c:188-224 | in-limit records written one after the other come out as exactly those, with nothing left over |
| `Client.Client.Connect` | scene-store/src/scene_client.c:109-136 | a connect resets the stream but not the log or the known scene |
| `Client.Client.Reconnect` | scene-store/src/scene_client.c:138-151 | a reconnect keeps numbers and log, drops unsent bytes, and is refused after a failure |
| `Client.Client.Emit` | scene-store/src/scene_client.c:188-224 | an accepted op takes the next number, is framed and, if asked, logged; a refused one changes nothing |
| `Client.FirstRun` | scene-store/src/scene_client.c:109-224 | a run: connected, greeted, one op said and sent as number 1; cut, reconnected, greeted by the same scene, it is sent again as number 2 |
| `Client.NumberedIs` | scene-store/src/scene_client.c:188-224 | a record on the wire is its number in eight bytes and then the body as given |
| `Client.Client.Flush` | scene-store/src/scene_client.c:226-239 | all pending bytes go out, or the connection closes and they stay |
| `Client.Client.Dispatch` | scene-store/src/scene_client.c:482-513 | the WELCOME branch: resume or restart, send the log again, flush |
| `Client.WelcomeReissuesLog` | scene-store/src/scene_client.c:493-511 | the first WELCOME sends the whole log once with consecutive numbers from 1 or sent_seq + 1; a later one sends nothing |
| `Client.LogIsAccepted` | scene-store/src/scene_client.c:155-224 | on every run the log is exactly the accepted scene-affecting ops, in order |
| `Rejoin.NeverRefused` | scene-store/src/scene_server.c:115-123 | over any run of connects, emits, cuts, reconnects, lost WELCOMEs, restarts and changes of mode without the two refused steps, no rejoin is refused and every op arrives with the expected number |
| `Rejoin.StoreIs` | scene-store/include/scene_store.h:93-99 | record by record: the next number is taken, any other ends an attached session; a detached one takes any from the expected on, in live mode only |
| `Rejoin.StepKeeps` | scene-store/include/scene_store.h:88-99 | every step keeps the two ends' numbers in agreement |
| `Rejoin.AttachKeeps` | scene-store/src/scene_server.c:68-74 | an attach, its WELCOME heard or lost, keeps them so |
| `Rejoin.ConnectTwiceRefused` | scene-store/src/scene_client.c:109-136 | a run of connect, one op, cut and connect that ends refused |
| `Rejoin.RedialTaken` | scene-store/src/scene_client.c:138-150 | a run of connect, one op, cut and reconnect: the op is sent again as number 2 and taken |
| `Rejoin.ConnectRefusedIff` | scene-store/src/scene_client.c:109-136 | after a connect to a retained session the first op sent again is refused if and only if the store has counted an op or is not in live mode |
| `Rejoin.DeliverRefusedIff` | scene-store/include/scene_store.h:93-99 | in every state the runs reach, the next record is refused if and only if it would rejoin a store that is not in live mode |
| `GlyphCache.GlyphCache.Glyph` | scene-store/src/scene_fontcache.c:223-278 | the glyph is the rasteriser's, and the resident codepoints are exactly the newest 1024 distinct ones requested |
| `GlyphCache.GlyphCache.Find` | scene-store/src/scene_fontcache.c:49-61 | lookup is complete: it finds every resident codepoint and no other |
| `GlyphCache.GlyphCache.EvictLru` | scene-store/src/scene_fontcache.c:95-113 | the scan evicts the least recently requested codepoint |
| `GlyphCache.GlyphCache.Insert` | scene-store/src/scene_fontcache.c:115-133 | the new entry lands in the first vacant slot of its path |
| `GlyphCache.OneEach` | scene-store/src/scene_fontcache.c:24-40 | no codepoint has two entries |
| `GlyphCache.RequestOne` | scene-store/src/scene_fontcache.c:223-278 | one LRU step keeps the newest distinct codepoints |
| `GlyphCache.NewestLast` | scene-store/src/scene_fontcache.c:223-278 | the list by recency holds exactly what was requested, ordered by the latest request |
| `Rewind.DiffPatches` | scene-store/src/scene_rewind.c:215-277 | removing destroyed, adding created and overwriting modified turns one snapshot into the other; the three id sets are disjoint; the diff is empty if and only if nothing differs |
| `Rewind.DiffExact` | scene-store/src/scene_rewind.c:215-277 | each part holds exactly the ids it should, with the right contents |
| `Rewind.DiffReversed` | scene-store/src/scene_rewind.c:215-277 | the diff the other way swaps created and destroyed and modifies the same ids |
| `Rewind.Merge` | scene-store/src/scene_rewind.c:200-277 | the merge loop computes the diff within its allocated arrays |
| `Rewind.Rewind.Diff` | scene-store/src/scene_rewind.c:163-294 | from any state, what is compared and where cursor and arena end; over every log that can be replayed it says exactly what changed between the two numbers' scenes, and what is shown is as before, if and only if the numbers are addressed and no node that matters was left out |
| `Rewind.Rewind.ToldIff` | scene-store/src/scene_rewind.c:170-195 | the exact condition: both numbers at least 1, or the first op shows nothing, or 0 against itself; and nodes that do not fit the arrays are the same in both scenes and left out of both |
| `Rewind.Rewind.ToldPatchIff` | scene-store/src/scene_rewind.c:138-152 | between numbers of at least 1 the diff is a patch if and only if what was left out does no harm |
| `Rewind.Rewind.Seek` | scene-store/src/scene_rewind.c:52-59 | a number out of range is taken: the cursor goes there and the arena to the nearest end; a failed build moves the arena alone |
| `Rewind.ClampIs` | scene-store/src/scene_rewind.c:52-59 | a number of the log is its own place, 0 goes to 1, one behind the end to the end |
| `Rewind.Rewind.EnterReplay` | scene-store/src/scene_rewind.c:33-41 | replay begins at number 0 with the arena built for it, or not at all |
| `Rewind.Rewind.Collect` | scene-store/src/scene_rewind.c:138-152 | the walk up to the live node count and sixteen more, sorted |
| `Rewind.ShortDiff` | scene-store/src/scene_rewind.c:138-152 | for any two walks of which the first nodes are taken: when the diff is exact, when it is a patch, and that it is both when they fit |
| `Rewind.AskTwice` | scene-store/src/scene_rewind.c:33-41 | whatever the log, if its first op shows something the same diff asked twice after entering replay gives two answers |
| `Rewind.ScrubBack` | scene-store/src/scene_rewind.c:138-152 | more than sixteen nodes created and deleted: back where they all were, the diff to the head lists sixteen and is no patch |
| `Rewind.Rewind.StepBackward` | scene-store/src/scene_rewind.c:72-77 | stepping back stops at 1, and succeeds there even over an empty log |
| `Rewind.Rewind.StepForward` | scene-store/src/scene_rewind.c:63-70 | stepping forward stops at the committed number, and the arena at the last of the log |
| `Launcher.Launcher.Pump` | scene-store/src/scene_launcher.c:282-347 | against arbitrary outcomes: the living slots remain in order, the joined dead ones are reported once each in order, and layers and slots stay matched |
| `Launcher.SlotFate` | scene-store/src/scene_launcher.c:282-324 | what a pump makes of each slot: given up exactly when late or failed, joined with a layer of its own exactly when met in time |
| `Launcher.Launcher.Spawn` | scene-store/src/scene_launcher.c:202-223 | a spawn takes the next of 16 slots or is refused |
| `Launcher.Launcher.Compact` | scene-store/src/scene_launcher.c:342-345 | the memmove removes exactly one slot |
| `Launcher.Matched` | scene-store/src/scene_launcher.c:257-347 | layers above the shell and joined slots are in bijection by server identity until reported exited, once |
| `Launcher.NeverUnjoined` | scene-store/src/scene_launcher.c:326-347 | session_exited never fires for a server that did not join or is still there |
| `Launcher.NoSharing` | scene-store/src/scene_launcher.c:257-280 | no two slots and no two layers share a server |
| `Launcher.ReapKeeps` | scene-store/src/scene_compositor.c:1158-1176 | removing a layer by server identity keeps the match and the focus in range |
| `Launcher.StoredLayerGoesStale` | scene-store/src/scene_launcher.c:244-248 | a concrete run after which a slot's layer number is wrong |
| `Launcher.StoredLayerRightIff` | scene-store/src/scene_launcher.c:244-248 | over any run a joined slot's stored layer is right if and only if no lower layer has gone since it joined, and else too high by as many |
| `Launcher.ReapStales` | scene-store/src/scene_launcher.c:326-347 | one burial makes a right stored layer wrong if and only if the slot buried had joined below it |
| `Launcher.FocusSlips` | scene-store/src/scene_compositor.c:1158-1176 | after a burial the focus is on the same server if and only if it was below the layer that went |
| `Launcher.PumpIsRun` | scene-store/src/scene_launcher.c:282-347 | a pump is a run of these events, so what holds over runs holds from pump to pump |
| `Editor.InsertIsFlat` | scene-store/src/iso_edit.c:177-188 | typing inserts at the cursor's offset of the flat text, or does nothing on a full line |
| `Editor.EnterIsFlat` | scene-store/src/iso_edit.c:219-237 | return inserts a newline at the offset, or does nothing at 128 lines |
| `Editor.BackspaceIsFlat` | scene-store/src/iso_edit.c:190-217 | backspace is the flat deletion if and only if the joined lines fit, and exactly what is lost otherwise |
| `Editor.MovesAreFlat` | scene-store/src/iso_edit.c:239-259 | left and right move the offset by one and stop at the ends |
| `Editor.LineMovesAreValid` | scene-store/src/iso_edit.c:261-281 | up and down move the row by one and stop at the ends; the column is kept where the new line is that long and is its end where not; the text stays |
| `Editor.UpAndDown` | scene-store/src/iso_edit.c:261-281 | down after up, or up after down, comes back exactly when the line between is long enough |
| `Editor.Editor.GoUp` | scene-store/src/iso_edit.c:261-270 | the row above and the column there, from any state |
| `Editor.Editor.GoDown` | scene-store/src/iso_edit.c:272-281 | the counted row below and the column there, from any state |
| `Editor.HomeAndEnd` | scene-store/src/iso_edit.c:391-395 | Home and End go to the newlines around the cursor in the flat text, or to its ends, and no newline lies between |
| `Editor.RunKeeps` | scene-store/src/iso_edit.c:363-410 | on any run of keys the lines keep their limits and the cursor stays inside them, and the saved file is empty exactly while the cursor's line is alone and does not count |
| `Editor.RunIsFlat` | scene-store/src/iso_edit.c:177-259 | over any run the limits allow, the lines act as one flat text with one cursor |
| `Editor.MissingRun` | scene-store/src/iso_edit.c:115-119 | typing after a failed open: the lines ended by Return count, the saved file is empty if and only if there was none, the cursor's line is not in it |
| `Editor.MissingFills` | scene-store/src/iso_edit.c:219-237 | after a failed open the array is full while the count is not, if and only if the run had 127 Returns, and such a run there is |
| `Editor.LooseSaves` | scene-store/src/iso_edit.c:157-173 | while the cursor's line does not count, exactly the text up to it is saved |
| `Editor.LeavingLoses` | scene-store/src/iso_edit.c:239-270 | going up, or left over its start, gives that line up |
| `Editor.SaveLoad` | scene-store/src/iso_edit.c:109-173 | saving then loading any buffer returns the same lines: 128 lines of 256 bytes exactly fit |
| `Editor.LoadedOk` | scene-store/src/iso_edit.c:109-154 | whatever the file holds, a valid buffer is loaded |
| `Editor.LoadedLines` | scene-store/src/iso_edit.c:135-151 | any file within the limit gives its first 128 lines, each up to a NUL and 255 bytes; an empty one a single empty line |
| `Editor.ReadableIs` | scene-store/src/iso_edit.c:126-134 | of a longer file what ends with the last newline of its first 32768 bytes is read |
| `Editor.Editor.constructor` | scene-store/src/iso_edit.c:109-154 | the load loop yields the clamped lines of the readable part of the file |
| `Editor.Editor.Missing` | scene-store/src/iso_edit.c:115-119 | a file that cannot be opened leaves an empty line that does not count |
| `Editor.Editor.Save` | scene-store/src/iso_edit.c:157-173 | the file written loads back to the same lines, and is empty for a buffer with none |
| `Editor.Editor.InsertChar` | scene-store/src/iso_edit.c:177-188 | the in-place insert is the specified edit |
| `Editor.Editor.NewLine` | scene-store/src/iso_edit.c:219-237 | the shifting loop and split are the specified edit |
| `Editor.Editor.EraseBack` | scene-store/src/iso_edit.c:190-217 | the in-place deletion or join is the specified edit |
| `Editor.Editor.Tab` | scene-store/src/iso_edit.c:387-390 | Tab is four spaces |
| `Editor.Editor.PageUp` | scene-store/src/iso_edit.c:396-399 | PageUp is twelve times up |
| `Editor.Editor.PageDown` | scene-store/src/iso_edit.c:400-403 | PageDown is twelve times down |
| `Editor.Editor.Redraw` | scene-store/src/iso_edit.c:287-303 | the cursor's row is always among the twelve shown, and the view moves only when it must |
| `Settings.SaveReload` | scene-store/src/iso_settings.c:283-354 | saving and reloading gives the same key-to-value map and keeps every other line verbatim and in order |
| `Settings.SavedInPlace` | scene-store/src/iso_settings.c:283-354 | where no key is set twice, every line is saved where it stood, rewritten if the table has its key, and entries of other keys follow |
| `Settings.SaveReloadIff` | scene-store/src/iso_settings.c:283-354 | for any file whose keys the table knows, save and reload agree if and only if no entry is glued to an open last line |
| `Settings.SetSaveReload` | scene-store/src/iso_settings.c:180-354 | load a file, set keys, save, load: the file's map with those updates comes back and the other lines that were loaded stay, exactly unless an entry is glued |
| `Settings.LoadCuts` | scene-store/src/iso_settings.c:40-51 | loading keeps every line if and only if the file fits the buffer, and else those before the cut |
| `Settings.FormatReads` | scene-store/src/iso_settings.c:196-233 | a written entry parses back to its key and value |
| `Settings.SettingReads` | scene-store/src/iso_settings.c:196-233 | a line with key and value between any blanks sets that key, unless it has 48 characters or more, to the value cut to 127 |
| `Settings.OtherReads` | scene-store/src/iso_settings.c:203-216 | a blank line, a comment, one without '=' or with nothing before it sets none |
| `Settings.LineForms` | scene-store/src/iso_settings.c:196-233 | every line is of one of these two forms |
| `Settings.ParseIsMap` | scene-store/src/iso_settings.c:180-234 | parsing within the table's size is a map update per line |
| `Settings.KvFile.constructor` | scene-store/src/iso_settings.c:236-247 | the parse loop over the raw text fills the table line by line |
| `Settings.KvFile.StoreEntry` | scene-store/src/iso_settings.c:180-194 | overwrite the key's value or append, refused exactly when full |
| `Settings.KvFile.Save` | scene-store/src/iso_settings.c:283-354 | the rewriting loops write the specified text, refused exactly when it outgrows the buffer |
| `Track.PositionInside` | scene-store/src/iso_play.c:329-341 | no output frame reads past the source, at any rates |
| `Track.LerpBetween` | scene-store/src/iso_play.c:342-348 | an output sample lies between its neighbours and so fits 16 bits |
| `Track.OnFrameCopies` | scene-store/src/iso_play.c:336-348 | a position on a source frame copies it exactly |
| `Track.SameRateCopies` | scene-store/src/iso_play.c:319-348 | at an unchanged rate every frame is kept; one channel is duplicated, of two the first is kept |
| `Track.CollapseIsMean` | scene-store/src/iso_play.c:320-348 | at an unchanged rate the collapsed track is the mean of its channels if and only if in every frame the second is equal to the first or one above |
| `Track.CollapseAt` | scene-store/src/iso_play.c:320-348 | the same for one sample, at any rate |
| `Track.CollapseDrops` | scene-store/src/iso_play.c:320-348 | a frame of 0 and 100 that collapses to 0 |
| `Track.Player.Convert` | scene-store/src/iso_play.c:327-365 | the loops replace the track by one that just reaches its end, every sample interpolated between its two neighbours and rounded down (`Converted`), or refuse and change nothing |
| `Track.ResampledIs` | scene-store/src/iso_play.c:336-348 | every sample is so many 65536ths of the next source frame and the rest of the one before, rounded down |
| `Track.DoublingIs` | scene-store/src/iso_play.c:336-348 | doubling the rate keeps every frame and puts the floored mean of its neighbours between |
| `Track.WriteParse` | scene-store/src/iso_play.c:189-219 | a written WAV parses back to the same rate, channels, frames and samples |
| `Track.ImageHeader` | scene-store/src/iso_play.c:189-219 | the 44 header bytes in plain numbers |
| `Track.BytesAt` | scene-store/src/iso_play.c:189-219 | every sample is two bytes, the low one first, in two's complement |
| `Track.ChunksSound` | scene-store/src/iso_play.c:134-185 | what the parser accepts is playable and lies inside the file, truncated or not |
| `Track.FormatBytes` | scene-store/src/iso_play.c:134-185 | which bytes of a format chunk are accepted |
| `Track.OtherChunksSkipped` | scene-store/src/iso_play.c:134-185 | a chunk of another kind, padded where its length is odd, put in anywhere along the walk changes nothing but where the data lies |
| `Track.WavParse` | scene-store/src/iso_play.c:134-185 | the chunk loop finds the first data chunk after an accepted format chunk |

## Left out

- The store engine (op application, search, snapshots): only its header's contract is used, as a sequence number with nodes in document order and as a counter of consecutive op numbers.
- The TrueType text path of `scene_font_draw_utf8`, the screenshot, clipboard, input routing, key grabs and notifications of the compositor.
- Desktop lock and changes of the style count: they hide layers or restyle without offers.
- A store change that disturbs a running transition, after which the picture is wrong (`Moving`), and the start of playback while an enter slides, whose band `anim_clear_all` does not damage: `AnyFrame` covers both, `FrameReady` neither.
- Allocation failure (other than a store that refuses a texture), 32-bit overflow of coordinates, and the 32-bit wrap of counters other than the hash arithmetic.
- Compositor layers are values in a sequence field and a layer's textures a map, where the source has growing arrays of structs; the framebuffer is a two-dimensional array without pitch.
- The text signature and the copy of captured texts in a phantom are arbitrary functions of the texts.
- Compositor.Compositor.Frame: says nothing about pixels inside the slide band of a running enter, which the code leaves stale until the enter ends.
- Rejoin.NeverRefused: the link is cut between frames; `scene_server_detach` keeps the bytes of a half-received frame, which the runs do not carry over; `KeptFrame` says what becomes of them.
- Feed.Server.AcceptRecord: where a payload is shorter than its sequence number the source reads past it; the number found there is a parameter.
- The client's inbound frame loop and the server records other than WELCOME; the payload layouts of the individual ops.
- The rest of the launcher: processes, sockets, kill; the importer; failure to add a session.
- GlyphCache.GlyphCache.Glyph: for runs shorter than the 32-bit clock; glyph bitmaps are the rasteriser's values, their allocation is not modelled.
- Rewind.Rewind.Diff: ids in a walk are unique and the library sort is a function; a dead store, mode changes by the client's own ops, and the 64-bit wrap of a step forward are not modelled.
- Editor: status texts, scancodes and the record stream; lines are values in an array of 128, without the bytes behind their terminators.
- Editor.Editor.NewLine: not for the 128th Return after a failed open, which writes behind the array because the count lags one behind the cursor.
- Settings.SetSaveReload: for a file whose keys find room and whose values are not cut, and keys set that can be written; text without NUL. The atomic write and the wpa and volume files are not modelled.
- Track: the synthesised melody, guards, volume and playback; at most two channels.
