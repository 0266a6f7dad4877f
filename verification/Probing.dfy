// Linear probing in a table of `cap` slots.
module Probing {

  /** Slot number i on the probe path from `home`. */
  function Probe(home: nat, i: nat, cap: nat): (s: nat)
    requires home < cap && i < cap
    ensures s < cap
  {
    if home + i < cap then home + i else home + i - cap
  }

  /** How far along the path slot j lies: the path visits every slot. */
  function Distance(home: nat, j: nat, cap: nat): (d: nat)
    requires home < cap && j < cap
    ensures d < cap && Probe(home, d, cap) == j
  {
    if j >= home then j - home else j - home + cap
  }
}
