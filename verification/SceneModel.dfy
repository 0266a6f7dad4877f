// What the compositor reads from a session store: nodes in document order, and
// the render-model entry that remembers how a node was last painted.
module SceneModel {
  import opened Pixels
  import opened Raster

  /** One node as scene_store_node_vis and scene_store_node_texts report it. */
  datatype Node = Node(id: nat, role: nat, flags: Byte, style: nat, tex: nat, rect: Rect,
                       opacity: Byte, texSrc: Rect, texts: seq<seq<Byte>>)

  const NO_TEXTURE: nat := 0xFFFF_FFFF
  const TEXT_CAP: nat := 48

  predicate VisibleFlag(flags: Byte) { flags / 4 % 2 == 1 }

  /** The signature of a node's texts; any function of the texts will do. */
  type TextSig = seq<seq<Byte>> -> nat

  /** The fields the diff compares. */
  datatype Key = Key(role: nat, flags: Byte, style: nat, tex: nat, sig: nat, rect: Rect) {
    /** The node was drawn somewhere: visible with a non-empty rectangle. */
    predicate Shown() { VisibleFlag(flags) && !rect.Empty() }
  }

  function KeyOf(v: Node, sig: TextSig): Key {
    Key(v.role, v.flags, v.style, v.tex, sig(v.texts), v.rect)
  }

  function Capped(texts: seq<seq<Byte>>): seq<seq<Byte>> {
    if |texts| <= TEXT_CAP then texts else texts[..TEXT_CAP]
  }

  /** A render-model entry. */
  datatype RNode = RNode(id: nat, key: Key, opacity: Byte, texts: seq<seq<Byte>>, seen: bool)

  /** The entry written when the node is new to the model. */
  function FreshEntry(v: Node, sig: TextSig): RNode {
    RNode(v.id, KeyOf(v, sig), v.opacity, Capped(v.texts), true)
  }

  /** The entry after the diff found it; texts are copied only when the signature moved. */
  function Refreshed(rn: RNode, v: Node, sig: TextSig): RNode {
    RNode(rn.id, KeyOf(v, sig), v.opacity, if rn.key.sig == sig(v.texts) then rn.texts else Capped(v.texts), true)
  }

  datatype Style = Style(fill: Pixel, border: Pixel, text: Pixel, borderW: Byte, padX: Byte, padY: Byte, radius: Byte)

  /** The server-owned tables: styles (slot 0 unused) and role defaults; the font; the text
      signature; and the copy an exit phantom makes of the captured texts. */
  datatype Theme = Theme(styles: seq<Style>, defaults: nat -> Style, font: Font, sig: TextSig,
                         snapshot: seq<seq<Byte>> -> seq<seq<Byte>>)

  const ROLE_MAX: nat := 0x20

  /** resolve_style: a style of the table, else the role's default, else the generic one. */
  function ResolveStyle(theme: Theme, style: nat, role: nat): Style {
    if 1 <= style < |theme.styles| then theme.styles[style]
    else if role <= ROLE_MAX then theme.defaults(role)
    else theme.defaults(0)
  }
}
