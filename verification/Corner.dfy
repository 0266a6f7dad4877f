// Rounded corners (scene_fb.c, rcorner_inset): how many columns a corner circle
// cuts from each row, by an integer square root.
module Corner {

  /** n squared, by odd increments. */
  function Sq(n: nat): nat {
    if n == 0 then 0 else Sq(n - 1) + 2 * n - 1
  }

  lemma {:induction false} SqIsProduct(n: nat)
    ensures Sq(n) == n * n
  {
    if n > 0 {
      SqIsProduct(n - 1);
      assert n * n == (n - 1) * (n - 1) + 2 * n - 1;
    }
  }

  lemma {:induction false} SqMonotone(a: nat, b: nat)
    requires a <= b
    ensures Sq(a) <= Sq(b)
  {
    if a < b { SqMonotone(a, b - 1); }
  }

  /** The largest integer whose square is at most n. */
  function Isqrt(n: nat): (s: nat)
    ensures Sq(s) <= n < Sq(s + 1)
  {
    if n == 0 then 0
    else var s := Isqrt(n - 1); if Sq(s + 1) <= n then s + 1 else s
  }

  lemma IsqrtAtLeast(n: nat, t: nat)
    ensures t <= Isqrt(n) <==> Sq(t) <= n
  {
    if t <= Isqrt(n) { SqMonotone(t, Isqrt(n)); } else { SqMonotone(Isqrt(n) + 1, t); }
  }

  /** What is under the root: the square of r less that of the distance to the centre row. */
  function Chord(r: nat, dy: nat): nat
    requires dy <= r
  {
    SqMonotone(r - dy, r);
    Sq(r) - Sq(r - dy)
  }

  /** Columns a corner of radius r cuts from the row dy below the edge. */
  function Inset(r: nat, dy: nat): (cut: nat)
    ensures cut <= r
  {
    if dy >= r then 0 else
      IsqrtAtLeast(Chord(r, dy), r + 1);
      r - Isqrt(Chord(r, dy))
  }

  lemma ChordIsProduct(r: nat, dy: nat)
    requires dy <= r
    ensures Chord(r, dy) == 2 * r * dy - dy * dy
  {
    SqIsProduct(r);
    SqIsProduct(r - dy);
  }

  /** The counting loop of rcorner_inset. */
  method CountRoot(inside: nat) returns (s: nat)
    ensures s == Isqrt(inside)
  {
    s := 0;
    RootTest(inside, 1);
    while (s + 1) * (s + 1) <= inside
      invariant s <= Isqrt(inside)
      invariant (s + 1) * (s + 1) <= inside <==> s + 1 <= Isqrt(inside)
      decreases Isqrt(inside) - s
    {
      s := s + 1;
      RootTest(inside, s + 1);
    }
  }

  lemma RootTest(n: nat, t: nat)
    ensures t * t <= n <==> t <= Isqrt(n)
  {
    SqIsProduct(t);
    IsqrtAtLeast(n, t);
  }

  method RcornerInset(radius: nat, dy: nat) returns (inset: nat)
    ensures inset == Inset(radius, dy)
  {
    if dy >= radius { return 0; }
    ChordIsProduct(radius, dy);
    var s := CountRoot(2 * radius * dy - dy * dy);
    assert Inset(radius, dy) == radius - Isqrt(Chord(radius, dy));
    inset := radius - s;
  }

  /** The inset is exact: column i of row dy survives iff it lies in the disc of
      radius r centred r columns and r rows in from the corner. */
  lemma InsetIsDisc(r: nat, dy: nat, i: nat)
    requires i < r && dy < r
    ensures i >= Inset(r, dy) <==> (r - i) * (r - i) + (r - dy) * (r - dy) <= r * r
  {
    SqIsProduct(r);
    SqIsProduct(r - i);
    SqIsProduct(r - dy);
    IsqrtAtLeast(Chord(r, dy), r - i);
  }

  /** Deeper rows are cut less. */
  lemma InsetMonotone(r: nat, d: nat, d': nat)
    requires d <= d'
    ensures Inset(r, d') <= Inset(r, d)
  {
    if d' < r {
      SqMonotone(r - d', r - d);
      IsqrtAtLeast(Chord(r, d'), Isqrt(Chord(r, d)));
    }
  }

  /** The concentric corner bw further in lies inside the outer one. */
  lemma InsetConcentric(r: nat, bw: nat, d: nat)
    requires bw <= d
    ensures Inset(r, d) <= bw + Inset(if r > bw then r - bw else 0, d - bw)
  {
    if d < r {
      SqMonotone(r - bw, r);
      IsqrtAtLeast(Chord(r, d), Isqrt(Chord(r - bw, d - bw)));
    }
  }
}
