// The line editor (iso_edit.c): an array of bounded lines with a cursor, proved to
// act as a flat text with one offset, and to survive saving and loading.
module Editor {
  import opened Pixels

  const MAX_LINES: nat := 128
  const MAX_CHARS: nat := 255
  const MAX_BYTES: nat := 32768
  const VIEW_ROWS: nat := 12
  const NL: Byte := 10

  type Line = seq<Byte>

  /** The buffer and its cursor. */
  datatype Buf = Buf(lines: seq<Line>, row: nat, col: nat)

  predicate Plain(ch: Byte) { ch != NL && ch != 0 }

  predicate LineOk(l: Line) { |l| <= MAX_CHARS && forall ch :: ch in l ==> Plain(ch) }

  predicate LinesOk(lines: seq<Line>) {
    1 <= |lines| <= MAX_LINES && forall i :: 0 <= i < |lines| ==> LineOk(lines[i])
  }

  /** The cursor is inside the buffer, and the buffer inside its limits. */
  predicate Ok(b: Buf) {
    LinesOk(b.lines) && b.row < |b.lines| && b.col <= |b.lines[b.row]|
  }

  // ---- The flat text ----------------------------------------------------------

  /** Lines each followed by a newline: what save_file writes. */
  function Head(lines: seq<Line>): seq<Byte> {
    if lines == [] then [] else Head(lines[..|lines| - 1]) + lines[|lines| - 1] + [NL]
  }

  /** Lines each preceded by a newline. */
  function Tail(lines: seq<Line>): seq<Byte> {
    if lines == [] then [] else [NL] + lines[0] + Tail(lines[1..])
  }

  /** The lines joined by newlines. */
  function Flat(lines: seq<Line>): seq<Byte>
    requires lines != []
  {
    lines[0] + Tail(lines[1..])
  }

  function Text(b: Buf): seq<Byte>
    requires Ok(b)
  {
    Flat(b.lines)
  }

  /** The cursor as an offset into the flat text. */
  function Offset(b: Buf): nat
    requires Ok(b)
  {
    |Head(b.lines[..b.row])| + b.col
  }

  /** The flat text around line r. */
  lemma {:induction false} Around(lines: seq<Line>, r: nat)
    requires r < |lines|
    ensures Flat(lines) == Head(lines[..r]) + lines[r] + Tail(lines[r + 1..])
  {
    if r > 0 {
      Around(lines, r - 1);
      assert lines[..r][..r - 1] == lines[..r - 1];
      assert lines[r..][1..] == lines[r + 1..];
    }
  }

  lemma {:induction false} HeadConcat(a: seq<Line>, b: seq<Line>)
    ensures Head(a + b) == Head(a) + Head(b)
  {
    if b == [] {
      assert a + b == a;
    } else {
      HeadConcat(a, b[..|b| - 1]);
      assert (a + b)[..|a + b| - 1] == a + b[..|b| - 1];
    }
  }

  // ---- The edits --------------------------------------------------------------

  function Cut(s: seq<Byte>, from: nat, to: nat): seq<Byte>
    requires from <= to <= |s|
  {
    s[..from] + s[to..]
  }

  function Insert(b: Buf, ch: Byte): Buf
    requires Ok(b)
  {
    var l := b.lines[b.row];
    if |l| >= MAX_CHARS then b
    else Buf(b.lines[b.row := l[..b.col] + [ch] + l[b.col..]], b.row, b.col + 1)
  }

  function Enter(b: Buf): Buf
    requires Ok(b)
  {
    var l := b.lines[b.row];
    if |b.lines| >= MAX_LINES then b
    else Buf(b.lines[..b.row] + [l[..b.col], l[b.col..]] + b.lines[b.row + 1..], b.row + 1, 0)
  }

  /** What of line `cur` still fits behind line `prev`. */
  function Fitting(prev: Line, cur: Line): Line
    requires |prev| <= MAX_CHARS
  {
    if |prev| + |cur| > MAX_CHARS then cur[..MAX_CHARS - |prev|] else cur
  }

  function Backspace(b: Buf): Buf
    requires Ok(b)
  {
    var l := b.lines[b.row];
    if b.col > 0 then Buf(b.lines[b.row := Cut(l, b.col - 1, b.col)], b.row, b.col - 1)
    else if b.row > 0 then
      var prev := b.lines[b.row - 1];
      Buf(b.lines[..b.row - 1] + [prev + Fitting(prev, l)] + b.lines[b.row + 1..], b.row - 1, |prev|)
    else b
  }

  function Left(b: Buf): Buf
    requires Ok(b)
  {
    if b.col > 0 then b.(col := b.col - 1)
    else if b.row > 0 then b.(row := b.row - 1, col := |b.lines[b.row - 1]|)
    else b
  }

  function Right(b: Buf): Buf
    requires Ok(b)
  {
    if b.col < |b.lines[b.row]| then b.(col := b.col + 1)
    else if b.row < |b.lines| - 1 then b.(row := b.row + 1, col := 0)
    else b
  }

  function Clamp(b: Buf, row: nat): Buf
    requires row < |b.lines|
  {
    Buf(b.lines, row, if b.col > |b.lines[row]| then |b.lines[row]| else b.col)
  }

  function Up(b: Buf): Buf
    requires Ok(b)
  {
    if b.row > 0 then Clamp(b, b.row - 1) else b
  }

  function Down(b: Buf): Buf
    requires Ok(b)
  {
    if b.row < |b.lines| - 1 then Clamp(b, b.row + 1) else b
  }

  // ---- They act as flat edits -------------------------------------------------

  /** Text put into the middle line of h, l, t at column c. */
  lemma SpliceIn(h: seq<Byte>, l: seq<Byte>, t: seq<Byte>, c: nat, mid: seq<Byte>)
    requires c <= |l|
    ensures var s := h + l + t;
            |h| + c <= |s| && h + (l[..c] + mid + l[c..]) + t == s[..|h| + c] + mid + s[|h| + c..]
  {
    var s := h + l + t;
    assert s[..|h| + c] == h + l[..c];
    assert s[|h| + c..] == l[c..] + t;
  }

  /** The character before column c taken out of the middle line. */
  lemma SpliceOut(h: seq<Byte>, l: seq<Byte>, t: seq<Byte>, c: nat)
    requires 0 < c <= |l|
    ensures var s := h + l + t;
            |h| + c <= |s| && h + Cut(l, c - 1, c) + t == Cut(s, |h| + c - 1, |h| + c)
  {
    var s := h + l + t;
    assert s[..|h| + c - 1] == h + l[..c - 1];
    assert s[|h| + c..] == l[c..] + t;
  }

  lemma SpliceCut(p: seq<Byte>, l: seq<Byte>, t: seq<Byte>, keep: nat)
    requires keep <= |l|
    ensures |p| + |l| <= |p + l + t| && Cut(p + l + t, |p| + keep, |p| + |l|) == p + l[..keep] + t
  {
    assert (p + l + t)[..|p| + keep] == p + l[..keep];
    assert (p + l + t)[|p| + |l|..] == t;
  }

  lemma SpliceMerge(h: seq<Byte>, prev: seq<Byte>, m: seq<Byte>, t: seq<Byte>)
    ensures var s, at := h + prev + [NL] + m + t, |h| + |prev| + 1;
            at <= |s| && Cut(s, at - 1, at) == h + (prev + m) + t
  {
    var s, at := h + prev + [NL] + m + t, |h| + |prev| + 1;
    assert s[..at - 1] == h + prev;
    assert s[at..] == m + t;
  }

  /** A newline taken out between prev and l of s, after the end of l from `keep` on was. */
  lemma SpliceJoin(h: seq<Byte>, prev: seq<Byte>, l: seq<Byte>, t: seq<Byte>, keep: nat, s: seq<Byte>, r: seq<Byte>)
    requires keep <= |l| && s == h + prev + [NL] + l + t && r == h + (prev + l[..keep]) + t
    ensures var at := |h| + |prev| + 1;
            at + |l| <= |s| && r == Cut(Cut(s, at + keep, at + |l|), at - 1, at) && (keep == |l| <==> r == Cut(s, at - 1, at))
  {
    SpliceCut(h + prev + [NL], l, t, keep);
    SpliceMerge(h, prev, l[..keep], t);
    if keep == |l| {
      assert l[..keep] == l;
      SpliceMerge(h, prev, l, t);
    } else {
      assert |r| < |s| - 1;
    }
  }

  lemma InsertIsFlat(b: Buf, ch: Byte)
    requires Ok(b) && Plain(ch)
    ensures Ok(Insert(b, ch))
    ensures var t, at, r := Text(b), Offset(b), Insert(b, ch);
            at <= |t| &&
            if |b.lines[b.row]| < 255 then Text(r) == t[..at] + [ch] + t[at..] && Offset(r) == at + 1 else r == b
  {
    Around(b.lines, b.row);
    SpliceIn(Head(b.lines[..b.row]), b.lines[b.row], Tail(b.lines[b.row + 1..]), b.col, [ch]);
    if |b.lines[b.row]| < MAX_CHARS { InsertAround(b, ch); }
  }

  lemma InsertAround(b: Buf, ch: Byte)
    requires Ok(b) && Plain(ch) && |b.lines[b.row]| < MAX_CHARS
    ensures var l, r := b.lines[b.row], Insert(b, ch);
            && Ok(r) && r.row == b.row && Head(r.lines[..r.row]) == Head(b.lines[..b.row])
            && Flat(r.lines) == Head(b.lines[..b.row]) + (l[..b.col] + [ch] + l[b.col..]) + Tail(b.lines[b.row + 1..])
  {
    var r := Insert(b, ch);
    Around(r.lines, b.row);
    assert r.lines[..b.row] == b.lines[..b.row] && r.lines[b.row + 1..] == b.lines[b.row + 1..];
  }

  lemma EnterIsFlat(b: Buf)
    requires Ok(b)
    ensures Ok(Enter(b))
    ensures var t, at, r := Text(b), Offset(b), Enter(b);
            at <= |t| &&
            if |b.lines| < 128 then Text(r) == t[..at] + [10] + t[at..] && Offset(r) == at + 1 else r == b
  {
    var l := b.lines[b.row];
    Around(b.lines, b.row);
    SpliceIn(Head(b.lines[..b.row]), l, Tail(b.lines[b.row + 1..]), b.col, [NL]);
    if |b.lines| < MAX_LINES { EnterAround(b); }
  }

  lemma EnterAround(b: Buf)
    requires Ok(b) && |b.lines| < MAX_LINES
    ensures var l, r := b.lines[b.row], Enter(b);
            && Ok(r) && Head(r.lines[..r.row]) == Head(b.lines[..b.row]) + l[..b.col] + [NL]
            && Flat(r.lines) == Head(b.lines[..b.row]) + (l[..b.col] + [NL] + l[b.col..]) + Tail(b.lines[b.row + 1..])
  {
    var l, r := b.lines[b.row], Enter(b);
    Around(r.lines, b.row + 1);
    assert r.lines[..b.row + 1] == b.lines[..b.row] + [l[..b.col]];
    assert r.lines[..b.row + 1][..b.row] == b.lines[..b.row];
    assert r.lines[b.row + 2..] == b.lines[b.row + 1..];
    var h, t := Head(b.lines[..b.row]), Tail(b.lines[b.row + 1..]);
    assert h + l[..b.col] + [NL] + l[b.col..] + t == h + (l[..b.col] + [NL] + l[b.col..]) + t;
  }

  /** Backspace deletes the character before the cursor.  Joining lines that do not fit
      together also loses the end of the second one, and only then is it no flat deletion. */
  lemma BackspaceIsFlat(b: Buf)
    requires Ok(b)
    ensures Ok(Backspace(b))
    ensures var t, at, r := Text(b), Offset(b), Backspace(b);
            at <= |t| && (at == 0 ==> r == b) && (at > 0 ==> Offset(r) == at - 1)
            && (at > 0 ==> (Text(r) == Cut(t, at - 1, at) <==> !Overflows(b)))
            && (Overflows(b) ==> at + |b.lines[b.row]| <= |t| && at > 0
                                 && Text(r) == Cut(Cut(t, at + Kept(b), at + |b.lines[b.row]|), at - 1, at))
  {
    Around(b.lines, b.row);
    if b.col > 0 {
      EraseInLine(b);
    } else if b.row > 0 {
      JoinAround(b);
      JoinIsFlat(b);
    } else {
      assert b.lines[..0] == [];
    }
  }

  lemma EraseInLine(b: Buf)
    requires Ok(b) && b.col > 0
    ensures Ok(Backspace(b))
    ensures var t, at, r := Text(b), Offset(b), Backspace(b);
            0 < at <= |t| && Offset(r) == at - 1 && Text(r) == Cut(t, at - 1, at)
  {
    var r := Backspace(b);
    Around(b.lines, b.row);
    Around(r.lines, b.row);
    assert r.lines[..b.row] == b.lines[..b.row] && r.lines[b.row + 1..] == b.lines[b.row + 1..];
    SpliceOut(Head(b.lines[..b.row]), b.lines[b.row], Tail(b.lines[b.row + 1..]), b.col);
  }

  /** The lines to be joined do not fit together. */
  predicate Overflows(b: Buf)
    requires Ok(b)
  {
    b.col == 0 && b.row > 0 && |b.lines[b.row - 1]| + |b.lines[b.row]| > MAX_CHARS
  }

  function Kept(b: Buf): nat
    requires Ok(b) && Overflows(b)
  {
    MAX_CHARS - |b.lines[b.row - 1]|
  }

  lemma JoinAround(b: Buf)
    requires Ok(b) && b.col == 0 && b.row > 0
    ensures var h, t := Head(b.lines[..b.row - 1]), Tail(b.lines[b.row + 1..]);
            var prev, l, r := b.lines[b.row - 1], b.lines[b.row], Backspace(b);
            && Ok(r) && Head(b.lines[..b.row]) == h + prev + [NL] && Head(r.lines[..r.row]) == h
            && Flat(b.lines) == h + prev + [NL] + l + t && Flat(r.lines) == h + (prev + Fitting(prev, l)) + t
  {
    var r := Backspace(b);
    Around(b.lines, b.row);
    assert b.lines[..b.row][..b.row - 1] == b.lines[..b.row - 1];
    Around(r.lines, b.row - 1);
    assert r.lines[..b.row - 1] == b.lines[..b.row - 1];
    assert r.lines[b.row..] == b.lines[b.row + 1..];
  }

  lemma JoinIsFlat(b: Buf)
    requires Ok(b) && b.col == 0 && b.row > 0 && Ok(Backspace(b))
    ensures 0 < Offset(b) <= Offset(b) + |b.lines[b.row]| <= |Text(b)|
    ensures Offset(Backspace(b)) == Offset(b) - 1
    ensures Text(Backspace(b)) == Cut(Text(b), Offset(b) - 1, Offset(b)) <==> !Overflows(b)
    ensures Overflows(b) ==>
      Text(Backspace(b)) == Cut(Cut(Text(b), Offset(b) + Kept(b), Offset(b) + |b.lines[b.row]|), Offset(b) - 1, Offset(b))
  {
    var prev, l := b.lines[b.row - 1], b.lines[b.row];
    var h, t, keep := Head(b.lines[..b.row - 1]), Tail(b.lines[b.row + 1..]), |Fitting(prev, l)|;
    var s, r, at := JoinTexts(b, h, t, keep);
    SpliceJoin(h, prev, l, t, keep, s, r);
  }

  lemma JoinTexts(b: Buf, h: seq<Byte>, t: seq<Byte>, keep: nat) returns (s: seq<Byte>, r: seq<Byte>, at: nat)
    requires Ok(b) && b.col == 0 && b.row > 0 && Ok(Backspace(b))
    requires h == Head(b.lines[..b.row - 1]) && t == Tail(b.lines[b.row + 1..])
    requires keep == |Fitting(b.lines[b.row - 1], b.lines[b.row])|
    ensures s == Text(b) && r == Text(Backspace(b)) && at == Offset(b) && at == Offset(Backspace(b)) + 1
    ensures var prev, l := b.lines[b.row - 1], b.lines[b.row];
            && keep <= |l| && (Overflows(b) <==> keep != |l|) && (Overflows(b) ==> keep == Kept(b))
            && s == h + prev + [NL] + l + t && r == h + (prev + l[..keep]) + t && at == |h| + |prev| + 1
  {
    JoinAround(b);
    assert Fitting(b.lines[b.row - 1], b.lines[b.row]) == b.lines[b.row][..keep];
    s, r, at := Text(b), Text(Backspace(b)), Offset(b);
  }

  /** Left and right move the offset by one and stop at the ends of the text. */
  lemma MovesAreFlat(b: Buf)
    requires Ok(b)
    ensures Ok(Left(b)) && Ok(Right(b)) && Left(b).lines == b.lines == Right(b).lines
    ensures var at := Offset(b);
            && Offset(Left(b)) == (if at == 0 then 0 else at - 1)
            && Offset(Right(b)) == (if at == |Text(b)| then at else at + 1)
  {
    Around(b.lines, b.row);
    if b.row > 0 { assert b.lines[..b.row][..b.row - 1] == b.lines[..b.row - 1]; } else { assert b.lines[..0] == []; }
    if b.row < |b.lines| - 1 { assert b.lines[..b.row + 1][..b.row] == b.lines[..b.row]; } else { assert b.lines[b.row + 1..] == []; }
  }

  /** Up and down move the row by one and stop at the first and the last line; the column is kept
      where the new line is that long, and is its end where it is not. */
  lemma LineMovesAreValid(b: Buf)
    requires Ok(b)
    ensures var u, d := Up(b), Down(b);
            && Ok(u) && Ok(d) && Text(u) == Text(b) == Text(d) && u.lines == b.lines == d.lines
            && u.row == (if b.row == 0 then 0 else b.row - 1)
            && d.row == (if b.row + 1 == |b.lines| then b.row else b.row + 1)
            && (b.col <= |b.lines[u.row]| ==> u.col == b.col) && (b.col > |b.lines[u.row]| ==> u.col == |b.lines[u.row]|)
            && (b.col <= |b.lines[d.row]| ==> d.col == b.col) && (b.col > |b.lines[d.row]| ==> d.col == |b.lines[d.row]|)
  {
  }

  /** Down after up, or up after down, comes back exactly when the line between is long enough. */
  lemma UpAndDown(b: Buf)
    requires Ok(b)
    ensures Ok(Up(b)) && Ok(Down(b))
    ensures b.row > 0 ==> (Down(Up(b)) == b <==> b.col <= |b.lines[b.row - 1]|)
    ensures b.row + 1 < |b.lines| ==> (Up(Down(b)) == b <==> b.col <= |b.lines[b.row + 1]|)
  {
    LineMovesAreValid(b);
  }

  /** A newline, or an end of the text, on this side of the offset. */
  predicate LineStart(t: seq<Byte>, at: nat) { at <= |t| && (at == 0 || t[at - 1] == 10) }

  predicate LineEnd(t: seq<Byte>, at: nat) { at <= |t| && (at == |t| || t[at] == 10) }

  predicate OneLine(t: seq<Byte>, from: nat, to: nat) {
    from <= to <= |t| && forall k :: from <= k < to ==> t[k] != 10
  }

  /** Where the cursor's line begins and ends in the flat text. */
  lemma LineEnds(b: Buf)
    requires Ok(b)
    ensures var t, from, to := Text(b), Offset(b) - b.col, Offset(b) - b.col + |b.lines[b.row]|;
            from >= 0 && LineStart(t, from) && LineEnd(t, to) && OneLine(t, from, to)
  {
    var h, l, rest := Head(b.lines[..b.row]), b.lines[b.row], Tail(b.lines[b.row + 1..]);
    Around(b.lines, b.row);
    var t := h + l + rest;
    forall k | |h| <= k < |h| + |l| ensures t[k] != 10 { assert t[k] == l[k - |h|] && l[k - |h|] in l; }
    if b.row == 0 { assert b.lines[..0] == []; } else { assert h[|h| - 1] == NL; }
    if b.row + 1 == |b.lines| { assert b.lines[b.row + 1..] == []; } else { assert rest[0] == NL; }
  }

  /** Home goes back to the newline before the cursor and End on to the one behind, or to the
      ends of the text. */
  lemma HomeAndEnd(b: Buf)
    requires Ok(b)
    ensures var h, e := Press(b, Home), Press(b, End);
            && Ok(h) && Ok(e) && h.lines == b.lines == e.lines && Offset(h) <= Offset(b) <= Offset(e)
            && LineStart(Text(b), Offset(h)) && LineEnd(Text(b), Offset(e)) && OneLine(Text(b), Offset(h), Offset(e))
  {
    LineEnds(b);
  }

  // ---- Keys -------------------------------------------------------------------

  datatype Key = Type(ch: Byte) | Return | Erase | GoLeft | GoRight | GoUp | GoDown | Home | End

  predicate Typable(k: Key) { k.Type? ==> Plain(k.ch) }

  function Press(b: Buf, k: Key): Buf
    requires Ok(b)
  {
    match k
    case Type(ch) => Insert(b, ch)
    case Return => Enter(b)
    case Erase => Backspace(b)
    case GoLeft => Left(b)
    case GoRight => Right(b)
    case GoUp => Up(b)
    case GoDown => Down(b)
    case Home => b.(col := 0)
    case End => b.(col := |b.lines[b.row]|)
  }

  lemma PressKeeps(b: Buf, k: Key)
    requires Ok(b) && Typable(k)
    ensures Ok(Press(b, k))
  {
    match k
    case Type(ch) => InsertIsFlat(b, ch);
    case Return => EnterIsFlat(b);
    case Erase => BackspaceIsFlat(b);
    case GoLeft => MovesAreFlat(b);
    case GoRight => MovesAreFlat(b);
    case GoUp => LineMovesAreValid(b);
    case GoDown => LineMovesAreValid(b);
    case Home => {}
    case End => {}
  }

  /** The keys that edit or move by characters, and when the line limits let them. */
  predicate Free(b: Buf, k: Key)
    requires Ok(b)
  {
    match k
    case Type(ch) => Plain(ch) && |b.lines[b.row]| < MAX_CHARS
    case Return => |b.lines| < MAX_LINES
    case Erase => !Overflows(b)
    case GoLeft => true
    case GoRight => true
    case _ => false
  }

  /** A flat text with one cursor. */
  datatype Doc = Doc(text: seq<Byte>, at: nat)

  function DocOf(b: Buf): Doc
    requires Ok(b)
  {
    Doc(Text(b), Offset(b))
  }

  function FlatPress(d: Doc, k: Key): Doc
    requires d.at <= |d.text|
  {
    match k
    case Type(ch) => Doc(d.text[..d.at] + [ch] + d.text[d.at..], d.at + 1)
    case Return => Doc(d.text[..d.at] + [NL] + d.text[d.at..], d.at + 1)
    case Erase => if d.at == 0 then d else Doc(Cut(d.text, d.at - 1, d.at), d.at - 1)
    case GoLeft => d.(at := if d.at == 0 then 0 else d.at - 1)
    case GoRight => d.(at := if d.at == |d.text| then d.at else d.at + 1)
    case _ => d
  }

  lemma PressIsFlat(b: Buf, k: Key) returns (d: Doc)
    requires Ok(b) && Free(b, k)
    ensures Ok(Press(b, k)) && d == DocOf(b) && d.at <= |d.text| && DocOf(Press(b, k)) == FlatPress(d, k)
  {
    d := DocOf(b);
    PressKeeps(b, k);
    match k
    case Type(ch) => InsertIsFlat(b, ch);
    case Return => EnterIsFlat(b);
    case Erase => BackspaceIsFlat(b);
    case GoLeft => MovesAreFlat(b); EnterIsFlat(b);
    case GoRight => MovesAreFlat(b); EnterIsFlat(b);
  }

  /** The limits let every key of the run. */
  predicate AllFree(b: Buf, keys: seq<Key>)
    requires Ok(b)
    decreases |keys|
  {
    keys == [] || (Free(b, keys[0]) && Ok(Press(b, keys[0])) && AllFree(Press(b, keys[0]), keys[1..]))
  }

  /** The flat text and its cursor go wherever the keys take the buffer. */
  predicate FlatAlong(b: Buf, d: Doc, keys: seq<Key>)
    requires Ok(b)
    decreases |keys|
  {
    && d == DocOf(b)
    && (keys == [] ||
        (d.at <= |d.text| && Ok(Press(b, keys[0])) && FlatAlong(Press(b, keys[0]), FlatPress(d, keys[0]), keys[1..])))
  }

  /** Over any run within the limits, the lines are a flat text with one cursor. */
  lemma {:induction false} RunIsFlat(b: Buf, keys: seq<Key>)
    requires Ok(b) && AllFree(b, keys)
    ensures FlatAlong(b, DocOf(b), keys)
    decreases |keys|
  {
    if keys != [] {
      var d := PressIsFlat(b, keys[0]);
      RunIsFlat(Press(b, keys[0]), keys[1..]);
    }
  }

  // ---- The line that does not count -------------------------------------------

  /** What the editor holds.  After a file could not be opened no line counts, and the cursor
      is on the line behind the counted ones: `loose`.  The buffer then includes that line. */
  datatype State = State(buf: Buf, loose: bool) {
    predicate Valid() { Ok(buf) && (loose ==> buf.row == |buf.lines| - 1) }

    /** No room behind the cursor's line, though the count would allow one. */
    predicate Full() { loose && |buf.lines| >= MAX_LINES }
  }

  const MISSING := State(Buf([[]], 0, 0), true)

  /** The lines that count, which are the ones saved. */
  function Counted(s: State): seq<Line>
    requires s.Valid()
  {
    if s.loose then s.buf.lines[..|s.buf.lines| - 1] else s.buf.lines
  }

  /** A move to b; from the uncounted line it gives that line up. */
  function Leave(s: State, b: Buf): State
    requires s.Valid()
  {
    if s.loose && b.row < s.buf.row then State(b.(lines := Counted(s)), false) else State(b, s.loose)
  }

  function Strike(s: State, k: Key): State
    requires s.Valid()
  {
    match k
    case GoLeft => Leave(s, Left(s.buf))
    case GoUp => Leave(s, Up(s.buf))
    case _ => State(Press(s.buf, k), s.loose)
  }

  lemma StrikeKeeps(s: State, k: Key)
    requires s.Valid() && Typable(k)
    ensures Strike(s, k).Valid()
  {
    PressKeeps(s.buf, k);
  }

  function Strikes(s: State, keys: seq<Key>): State
    requires s.Valid() && forall k :: k in keys ==> Typable(k)
    ensures Strikes(s, keys).Valid()
    decreases |keys|
  {
    if keys == [] then s
    else
      var before := Strikes(s, keys[..|keys| - 1]);
      StrikeKeeps(before, keys[|keys| - 1]);
      Strike(before, keys[|keys| - 1])
  }

  /** On any run the cursor stays inside the lines and the lines inside their limits; and
      lines that all count go on doing so.  What is saved is empty exactly while the cursor's
      line does not count and no other line is there. */
  lemma {:induction false} RunKeeps(s: State, keys: seq<Key>)
    requires s.Valid() && forall k :: k in keys ==> Typable(k)
    ensures Ok(Strikes(s, keys).buf) && (!s.loose ==> !Strikes(s, keys).loose)
    ensures Head(Counted(Strikes(s, keys))) == [] <==> Strikes(s, keys).loose && |Strikes(s, keys).buf.lines| == 1
    decreases |keys|
  {
    if keys != [] { RunKeeps(s, keys[..|keys| - 1]); }
  }

  /** What is saved while the cursor's line does not count: the text up to that line. */
  lemma LooseSaves(s: State)
    requires s.Valid() && s.loose
    ensures Text(s.buf) == Head(Counted(s)) + s.buf.lines[s.buf.row]
    ensures Head(Counted(s)) == [] <==> |s.buf.lines| == 1
  {
    Around(s.buf.lines, s.buf.row);
  }

  /** Going up, or left over its start, gives the uncounted line up for good. */
  lemma LeavingLoses(s: State, k: Key)
    requires s.Valid() && s.loose && !Strike(s, k).loose
    ensures Strike(s, k).Valid()
    ensures Text(s.buf) == Text(Strike(s, k).buf) + [NL] + s.buf.lines[s.buf.row]
  {
    StrikeKeeps(s, if k.Type? then GoUp else k);
    var r := Strike(s, k).buf.lines;
    LooseSaves(s);
    Around(r, |r| - 1);
    assert r[|r|..] == [];
  }

  const SPACE: Byte := 32

  function Repeated(k: Key, n: nat): (keys: seq<Key>)
    ensures |keys| == n && forall i :: 0 <= i < n ==> keys[i] == k
  {
    seq(n, i => k)
  }

  lemma RepeatedNext(k: Key, n: nat)
    ensures Repeated(k, n + 1)[..n] == Repeated(k, n)
  {
  }

  function Returns(keys: seq<Key>): nat {
    if keys == [] then 0 else Returns(keys[..|keys| - 1]) + if keys[|keys| - 1].Return? then 1 else 0
  }

  lemma StaysLoose(s: State, k: Key)
    requires s.Valid() && s.loose && Typable(k) && !k.Erase? && !k.GoLeft? && !k.GoUp?
    requires k.Return? ==> !s.Full()
    ensures Strike(s, k).loose && |Strike(s, k).buf.lines| == |s.buf.lines| + if k.Return? then 1 else 0
  {
  }

  lemma {:induction false} MissingCount(keys: seq<Key>)
    requires forall k :: k in keys ==> Typable(k) && !k.Erase? && !k.GoLeft? && !k.GoUp?
    requires Returns(keys) < MAX_LINES
    ensures Strikes(MISSING, keys).loose && |Strikes(MISSING, keys).buf.lines| == 1 + Returns(keys)
    decreases |keys|
  {
    if keys != [] {
      var before := keys[..|keys| - 1];
      MissingCount(before);
      StaysLoose(Strikes(MISSING, before), keys[|keys| - 1]);
    }
  }

  /** Typing after a failed open: every Return makes the line it ends count.  So what is saved
      is empty if and only if there was none, and the cursor's line is never saved. */
  lemma MissingRun(keys: seq<Key>)
    requires forall k :: k in keys ==> Typable(k) && !k.Erase? && !k.GoLeft? && !k.GoUp?
    requires Returns(keys) < MAX_LINES
    ensures var s := Strikes(MISSING, keys);
            && s.loose && |s.buf.lines| == 1 + Returns(keys)
            && Text(s.buf) == Head(Counted(s)) + s.buf.lines[s.buf.row]
            && (Head(Counted(s)) == [] <==> Returns(keys) == 0)
  {
    MissingCount(keys);
    LooseSaves(Strikes(MISSING, keys));
  }

  /** So many Returns and nothing else. */
  lemma {:induction false} OnlyReturns(n: nat)
    ensures Returns(Repeated(Return, n)) == n
  {
    if n > 0 {
      OnlyReturns(n - 1);
      RepeatedNext(Return, n - 1);
    }
  }

  /** After a failed open the array is full, while the count says there is room for one more
      line, if and only if the run had 127 Returns; such a run there is.  The next Return would
      write behind the array. */
  lemma MissingFills(keys: seq<Key>)
    requires forall k :: k in keys ==> Typable(k) && !k.Erase? && !k.GoLeft? && !k.GoUp?
    requires Returns(keys) < MAX_LINES
    ensures Strikes(MISSING, keys).Full() <==> Returns(keys) == 127
    ensures |Counted(Strikes(MISSING, keys))| == Returns(keys)
    ensures Strikes(MISSING, Repeated(Return, MAX_LINES - 1)).Full()
  {
    MissingCount(keys);
    var all := Repeated(Return, MAX_LINES - 1);
    OnlyReturns(MAX_LINES - 1);
    MissingCount(all);
  }

  // ---- Loading and saving -----------------------------------------------------

  /** A C string: what comes before the first NUL. */
  function CString(s: seq<Byte>): seq<Byte> {
    if s == [] || s[0] == 0 then [] else [s[0]] + CString(s[1..])
  }

  /** A segment of the file as a line of the buffer. */
  function AsLine(s: seq<Byte>): Line {
    CString(if |s| > MAX_CHARS then s[..MAX_CHARS] else s)
  }

  /** At most n lines of s, the first of them begun at `start` and scanned up to i; a final
      newline starts no line of its own. */
  function Split(s: seq<Byte>, start: nat, i: nat, n: nat): (r: seq<Line>)
    requires start <= i <= |s|
    ensures |r| <= n
    decreases |s| - i
  {
    if n == 0 then []
    else if i == |s| then if start < |s| then [AsLine(s[start..])] else []
    else if s[i] == NL then [AsLine(s[start..i])] + Split(s, i + 1, i + 1, n - 1)
    else Split(s, start, i + 1, n)
  }

  /** The prefix that ends with the last newline. */
  function ToLastNl(s: seq<Byte>): (r: seq<Byte>)
    ensures r <= s
  {
    if s == [] || s[|s| - 1] == NL then s else ToLastNl(s[..|s| - 1])
  }

  function Readable(file: seq<Byte>): seq<Byte> {
    if |file| > MAX_BYTES then ToLastNl(file[..MAX_BYTES]) else file
  }

  function Loaded(file: seq<Byte>): seq<Line> {
    var lines := Split(Readable(file), 0, 0, MAX_LINES);
    if lines == [] then [[]] else lines
  }

  lemma HeadFront(lines: seq<Line>)
    requires lines != []
    ensures Head(lines) == lines[0] + [NL] + Head(lines[1..])
  {
    HeadConcat([lines[0]], lines[1..]);
    assert [lines[0]] + lines[1..] == lines;
    var one: seq<Line> := [lines[0]];
    assert one[..0] == [] && Head(one) == lines[0] + [NL];
  }

  /** Scanning passes over what is no newline. */
  lemma {:induction false} Scan(s: seq<Byte>, start: nat, i: nat, j: nat, n: nat)
    requires start <= i <= j <= |s| && forall k :: i <= k < j ==> s[k] != NL
    ensures Split(s, start, i, n) == Split(s, start, j, n)
    decreases j - i
  {
    if i < j { Scan(s, start, i + 1, j, n); }
  }

  lemma {:induction false} SplitOk(s: seq<Byte>, start: nat, i: nat, n: nat)
    requires start <= i <= |s| && forall k :: start <= k < i ==> s[k] != NL
    ensures forall k :: 0 <= k < |Split(s, start, i, n)| ==> LineOk(Split(s, start, i, n)[k])
    decreases |s| - i
  {
    if n > 0 {
      if i == |s| {
        SegmentOk(s[start..]);
      } else if s[i] == NL {
        SegmentOk(s[start..i]);
        SplitOk(s, i + 1, i + 1, n - 1);
      } else {
        SplitOk(s, start, i + 1, n);
      }
    }
  }

  lemma SegmentOk(s: seq<Byte>)
    requires NL !in s
    ensures LineOk(AsLine(s))
  {
    AsLineIs(s);
    var r := AsLine(s);
    forall ch | ch in r ensures Plain(ch) {
      var k :| 0 <= k < |r| && r[k] == ch;
      assert s[k] == ch;
    }
  }

  /** Whatever the file holds, what is loaded is a valid buffer. */
  lemma LoadedOk(file: seq<Byte>)
    ensures LinesOk(Loaded(file))
  {
    SplitOk(Readable(file), 0, 0, MAX_LINES);
  }

  /** r is what a line of the buffer keeps of the bytes s: up to a NUL and at most 255. */
  predicate KeptOf(s: seq<Byte>, r: seq<Byte>) {
    r <= s && |r| <= 255 && (forall k :: 0 <= k < |r| ==> r[k] != 0) && (|r| == |s| || |r| == 255 || s[|r|] == 0)
  }

  lemma AsLineIs(s: seq<Byte>)
    ensures KeptOf(s, AsLine(s))
  {
    CStringIs(if |s| > MAX_CHARS then s[..MAX_CHARS] else s);
  }

  lemma {:induction false} CStringIs(s: seq<Byte>)
    ensures var r := CString(s); r <= s && (forall k :: 0 <= k < |r| ==> r[k] != 0) && (|r| == |s| || s[|r|] == 0)
  {
    if s != [] && s[0] != 0 { CStringIs(s[1..]); }
  }

  /** A last line without its newline is one too, unless it is empty. */
  function Segments(segs: seq<seq<Byte>>, last: seq<Byte>): seq<seq<Byte>> { if last == [] then segs else segs + [last] }

  /** The first of these segments, n at most, as lines of the buffer. */
  predicate FirstKept(all: seq<seq<Byte>>, n: nat, r: seq<Line>) {
    |r| == (if |all| <= n then |all| else n) && forall i :: 0 <= i < |r| ==> KeptOf(all[i], r[i])
  }

  lemma {:induction false} SplitSegments(pre: seq<Byte>, segs: seq<seq<Byte>>, last: seq<Byte>, n: nat)
    requires NL !in last && forall i :: 0 <= i < |segs| ==> NL !in segs[i]
    ensures FirstKept(Segments(segs, last), n, Split(pre + Head(segs) + last, |pre|, |pre|, n))
    decreases |segs|
  {
    var s := pre + Head(segs) + last;
    if n == 0 {
    } else if segs == [] {
      assert s == pre + last;
      ScanLast(pre, last, n);
    } else {
      var one, rest := segs[0], segs[1..];
      var next := pre + one + [NL];
      FrontOut(pre, segs, last);
      SplitSegments(next, rest, last, n - 1);
      ScanSegment(pre, one, Head(rest) + last, n, s);
      AsLineIs(one);
      KeptBehind(one, Segments(rest, last), AsLine(one), Split(s, |next|, |next|, n - 1), n - 1);
      assert Segments(segs, last) == [one] + Segments(rest, last);
    }
  }

  lemma FrontOut(pre: seq<Byte>, segs: seq<seq<Byte>>, last: seq<Byte>)
    requires segs != []
    ensures var next := pre + segs[0] + [NL];
            pre + Head(segs) + last == next + Head(segs[1..]) + last == next + (Head(segs[1..]) + last)
  {
    HeadFront(segs);
  }

  lemma KeptBehind(one: seq<Byte>, all: seq<seq<Byte>>, l: Line, r: seq<Line>, n: nat)
    requires KeptOf(one, l) && FirstKept(all, n, r)
    ensures FirstKept([one] + all, n + 1, [l] + r)
  {
  }

  lemma ScanLast(pre: seq<Byte>, last: seq<Byte>, n: nat)
    requires NL !in last && n > 0
    ensures FirstKept(Segments([], last), n, Split(pre + last, |pre|, |pre|, n))
  {
    var s := pre + last;
    forall k | |pre| <= k < |s| ensures s[k] != NL { assert s[k] == last[k - |pre|]; }
    Scan(s, |pre|, |pre|, |s|, n);
    assert s[|pre|..] == last;
    AsLineIs(last);
  }

  lemma ScanSegment(pre: seq<Byte>, l: seq<Byte>, rest: seq<Byte>, n: nat, s: seq<Byte>)
    requires NL !in l && n > 0 && s == pre + l + [NL] + rest
    ensures Split(s, |pre|, |pre|, n) == [AsLine(l)] + Split(s, |pre| + |l| + 1, |pre| + |l| + 1, n - 1)
  {
    var j := |pre| + |l|;
    forall k | |pre| <= k < j ensures s[k] != NL { assert s[k] == l[k - |pre|]; }
    Scan(s, |pre|, |pre|, j, n);
    assert s[j] == NL && s[|pre|..j] == l;
  }

  /** Any file within the limit: the buffer gets its first 128 lines, each cut to what a line
      keeps, or one empty line from an empty file. */
  lemma LoadedLines(segs: seq<seq<Byte>>, last: seq<Byte>, file: seq<Byte>)
    requires NL !in last && forall i :: 0 <= i < |segs| ==> NL !in segs[i]
    requires file == Head(segs) + last && |file| <= 32768
    ensures var all, r := Segments(segs, last), Loaded(file);
            if all == [] then r == [[]]
            else |r| == (if |all| <= 128 then |all| else 128) && forall i :: 0 <= i < |r| ==> KeptOf(all[i], r[i])
  {
    SplitSegments([], segs, last, MAX_LINES);
    assert [] + Head(segs) + last == file;
  }

  /** Of a longer file only what comes before the last newline of its first 32768 bytes, and that
      newline, is read. */
  lemma ReadableIs(file: seq<Byte>)
    ensures |file| <= 32768 ==> Readable(file) == file
    ensures |file| > 32768 ==>
      var r := Readable(file);
      && r <= file && |r| <= 32768 && (r == [] || r[|r| - 1] == 10) && forall k :: |r| <= k < 32768 ==> file[k] != 10
  {
    if |file| > 32768 { LastNl(file[..32768]); }
  }

  lemma {:induction false} LastNl(s: seq<Byte>)
    ensures var r := ToLastNl(s); (r == [] || r[|r| - 1] == NL) && forall k :: |r| <= k < |s| ==> s[k] != NL
  {
    if s != [] && s[|s| - 1] != NL { LastNl(s[..|s| - 1]); }
  }

  lemma {:induction false} HeadSize(lines: seq<Line>)
    requires forall i :: 0 <= i < |lines| ==> LineOk(lines[i])
    ensures |Head(lines)| <= (MAX_CHARS + 1) * |lines|
  {
    if lines != [] { HeadSize(lines[..|lines| - 1]); }
  }

  /** Saving and loading any buffer gives the same lines: 128 lines of 256 bytes are exactly
      the load limit, so nothing is truncated. */
  lemma SaveLoad(lines: seq<Line>)
    requires LinesOk(lines)
    ensures Loaded(Head(lines)) == lines
  {
    HeadSize(lines);
    assert (MAX_CHARS + 1) * MAX_LINES == MAX_BYTES;
    forall i | 0 <= i < |lines| ensures NL !in lines[i] {}
    LoadedLines(lines, [], Head(lines));
    var r := Loaded(Head(lines));
    forall i | 0 <= i < |lines| ensures r[i] == lines[i] { KeptWhole(lines[i], r[i]); }
  }

  lemma KeptWhole(l: Line, r: seq<Byte>)
    requires LineOk(l) && KeptOf(l, r)
    ensures r == l
  {
    assert forall k :: 0 <= k < |l| ==> l[k] in l && l[k] != 0;
  }

  /** A line replaced by two. */
  lemma Broken(was: seq<Line>, now: seq<Line>, r: nat)
    requires r < |was| && |now| == |was| + 1
    requires forall k :: 0 <= k < r ==> now[k] == was[k]
    requires forall k :: r + 2 <= k < |now| ==> now[k] == was[k - 1]
    ensures now == was[..r] + [now[r], now[r + 1]] + was[r + 1..]
  {
  }

  // ---- The editor -------------------------------------------------------------

  class Editor {
    const lines: array<Line>
    var count: nat
    var row: nat
    var col: nat
    var viewY: nat

    ghost predicate Shape()
      reads this
    {
      lines.Length == MAX_LINES && row <= count <= MAX_LINES && row < MAX_LINES
    }

    /** The lines that count, and the cursor's. */
    function Real(): nat
      reads this
    {
      if row < count then count else row + 1
    }

    ghost function View(): State
      reads this, lines
      requires Shape()
    {
      State(Buf(lines[..Real()], row, col), row >= count)
    }

    ghost predicate Valid()
      reads this, lines
    {
      Shape() && View().Valid()
    }

    /** load_file on a file that could be read. */
    constructor (file: seq<Byte>)
      ensures Valid() && fresh(lines) && View() == State(Buf(Loaded(file), 0, 0), false) && viewY == 0
    {
      lines := new Line[MAX_LINES](i => []);
      count, row, col, viewY := 0, 0, 0, 0;
      new;
      var len := ReadLength(file);
      LoadedOk(file);
      FillLines(file[..len]);
      if count == 0 {
        lines[0] := [];
        count := 1;
        assert lines[..1] == [lines[0]];
      }
    }

    /** The loop that splits the bytes into lines. */
    method FillLines(buf: seq<Byte>)
      requires lines.Length == MAX_LINES && count == 0
      modifies this`count, lines
      ensures count <= MAX_LINES && lines[..count] == Split(buf, 0, 0, MAX_LINES)
    {
      var start, i := 0, 0;
      while i < |buf| && count < MAX_LINES
        invariant count <= MAX_LINES && start <= i <= |buf|
        invariant lines[..count] + Split(buf, start, i, MAX_LINES - count) == Split(buf, 0, 0, MAX_LINES)
      {
        if buf[i] == NL {
          AddLine(buf[start..i]);
          start := i + 1;
        }
        i := i + 1;
      }
      if start < |buf| && count < MAX_LINES { AddLine(buf[start..]); }
    }

    method AddLine(segment: seq<Byte>)
      requires lines.Length == MAX_LINES && count < MAX_LINES
      modifies this`count, lines
      ensures count == old(count) + 1 && lines[..count] == old(lines[..count]) + [AsLine(segment)]
    {
      lines[count] := AsLine(segment);
      count := count + 1;
    }

    /** load_file on a file that could not be opened: no line counts. */
    constructor Missing()
      ensures Valid() && fresh(lines) && View() == MISSING && count == viewY == 0
    {
      lines := new Line[MAX_LINES](i => []);
      count, row, col, viewY := 0, 0, 0, 0;
      new;
      assert lines[..1] == [lines[0]];
    }

    /** save_file */
    method Save() returns (file: seq<Byte>)
      requires Valid()
      ensures file == Head(Counted(View()))
      ensures count > 0 ==> Loaded(file) == Counted(View())
    {
      file := [];
      for i := 0 to count
        invariant file == Head(lines[..i])
      {
        file := file + lines[i] + [NL];
        assert lines[..i + 1][..i] == lines[..i];
      }
      assert lines[..count] == Counted(View());
      if count > 0 { SaveLoad(lines[..count]); }
    }

    method InsertChar(ch: Byte) returns (changed: bool)
      requires Valid() && Plain(ch)
      modifies this`col, lines
      ensures Valid() && View() == Strike(old(View()), Type(ch)) && (changed <==> View() != old(View()))
    {
      ghost var b := View().buf;
      InsertIsFlat(b, ch);
      var l := lines[row];
      assert b.lines[row] == l;
      if |l| >= MAX_CHARS { return false; }
      lines[row] := l[..col] + [ch] + l[col..];
      col := col + 1;
      assert lines[..Real()] == b.lines[row := lines[row]];
      return true;
    }

    /** The 128th line behind a count that lags by one would lie outside the array. */
    method NewLine() returns (changed: bool)
      requires Valid() && !View().Full()
      modifies this`count, this`row, this`col, lines
      ensures Valid() && View() == Strike(old(View()), Return) && (changed <==> View() != old(View()))
    {
      EnterIsFlat(View().buf);
      if count >= MAX_LINES { return false; }
      BreakLine();
      return true;
    }

    /** Split the cursor's line at the cursor. */
    method BreakLine()
      requires Valid() && Real() < MAX_LINES
      modifies this`count, this`row, this`col, lines
      ensures Shape() && View() == State(Enter(old(View()).buf), old(View()).loose)
    {
      ghost var was := lines[..Real()];
      var l := lines[row];
      assert was[row] == l;
      OpenGap(row);
      lines[row], lines[row + 1] := l[..col], l[col..];
      row, col := row + 1, 0;
      Broken(was, lines[..Real()], row - 1);
    }

    /** The counted lines behind line r move down by one. */
    method OpenGap(r: nat)
      requires lines.Length == MAX_LINES && r <= count < MAX_LINES
      modifies this`count, lines
      ensures count == old(count) + 1
      ensures forall k :: 0 <= k < count ==> k != r + 1 ==> lines[k] == old(lines[if k <= r then k else k - 1])
    {
      var i := count;
      while i > r + 1
        invariant r <= i <= count == old(count)
        invariant forall k :: 0 <= k < MAX_LINES ==> lines[k] == old(lines[if i < k <= count then k - 1 else k])
      {
        lines[i] := lines[i - 1];
        i := i - 1;
      }
      count := count + 1;
    }

    method EraseBack() returns (changed: bool)
      requires Valid()
      modifies this`count, this`row, this`col, lines
      ensures Valid() && View() == Strike(old(View()), Erase) && (changed <==> View() != old(View()))
    {
      ghost var b := View().buf;
      BackspaceIsFlat(b);
      if col > 0 {
        var l := lines[row];
        assert b.lines[row] == l;
        lines[row] := l[..col - 1] + l[col..];
        assert lines[..Real()] == b.lines[row := lines[row]];
        col := col - 1;
        return true;
      }
      if row > 0 {
        JoinUp();
        return true;
      }
      return false;
    }

    /** Append the cursor's line to the one above, as far as it fits. */
    method JoinUp()
      requires Valid() && col == 0 && row > 0
      modifies this`count, this`row, this`col, lines
      ensures Shape() && View() == State(Backspace(old(View()).buf), old(View()).loose)
    {
      ghost var was := lines[..Real()];
      var prev, l := lines[row - 1], lines[row];
      assert was[row - 1] == prev && was[row] == l;
      lines[row - 1] := prev + if |prev| + |l| > MAX_CHARS then l[..MAX_CHARS - |prev|] else l;
      CloseGap(row);
      row, col := row - 1, |prev|;
      assert lines[..Real()] == was[..row] + [prev + Fitting(prev, l)] + was[row + 2..];
    }

    /** The counted lines behind line r move up over it. */
    method CloseGap(r: nat)
      requires lines.Length == MAX_LINES && 0 < r <= count <= MAX_LINES
      modifies this`count, lines
      ensures count == old(count) - 1
      ensures forall k :: 0 <= k < count || 0 <= k < r ==> lines[k] == old(lines[if k < r then k else k + 1])
    {
      var i := r;
      while i < count - 1
        invariant r <= i && (r < count ==> i <= count - 1) && count == old(count)
        invariant forall k :: 0 <= k < count ==> lines[k] == old(lines[if r <= k < i then k + 1 else k])
      {
        lines[i] := lines[i + 1];
        i := i + 1;
      }
      count := count - 1;
    }

    method GoLeft() returns (moved: bool)
      requires Valid()
      modifies this`row, this`col
      ensures Valid() && View() == Strike(old(View()), Key.GoLeft) && (moved <==> View() != old(View()))
    {
      StrikeKeeps(View(), Key.GoLeft);
      if col > 0 { col := col - 1; return true; }
      if row > 0 { row, col := row - 1, |lines[row - 1]|; return true; }
      return false;
    }

    method GoRight() returns (moved: bool)
      requires Valid()
      modifies this`row, this`col
      ensures Valid() && View() == Strike(old(View()), Key.GoRight) && (moved <==> View() != old(View()))
    {
      StrikeKeeps(View(), Key.GoRight);
      if col < |lines[row]| { col := col + 1; return true; }
      if row < count - 1 { row, col := row + 1, 0; return true; }
      return false;
    }

    method GoUp() returns (moved: bool)
      requires Valid()
      modifies this`row, this`col
      ensures Valid() && View() == Strike(old(View()), Key.GoUp) && (moved <==> View() != old(View()))
      ensures row == (if old(row) == 0 then 0 else old(row) - 1)
      ensures (old(col) <= |lines[row]| ==> col == old(col)) && (old(col) > |lines[row]| ==> col == |lines[row]|)
    {
      if row > 0 {
        row := row - 1;
        if col > |lines[row]| { col := |lines[row]|; }
        return true;
      }
      return false;
    }

    method GoDown() returns (moved: bool)
      requires Valid()
      modifies this`row, this`col
      ensures Valid() && View() == Strike(old(View()), Key.GoDown) && (moved <==> View() != old(View()))
      ensures row == (if old(row) + 1 >= count then old(row) else old(row) + 1)
      ensures (old(col) <= |lines[row]| ==> col == old(col)) && (old(col) > |lines[row]| ==> col == |lines[row]|)
    {
      if row < count - 1 {
        row := row + 1;
        if col > |lines[row]| { col := |lines[row]|; }
        return true;
      }
      return false;
    }

    method GoHome() returns (moved: bool)
      requires Valid()
      modifies this`col
      ensures Valid() && View() == Strike(old(View()), Home) && (moved <==> View() != old(View()))
      ensures col == 0 && LineStart(Text(View().buf), Offset(View().buf))
    {
      HomeAndEnd(View().buf);
      moved := col != 0;
      col := 0;
    }

    method GoEnd() returns (moved: bool)
      requires Valid()
      modifies this`col
      ensures Valid() && View() == Strike(old(View()), End) && (moved <==> View() != old(View()))
      ensures col == |lines[row]| && LineEnd(Text(View().buf), Offset(View().buf))
    {
      HomeAndEnd(View().buf);
      moved := col != |lines[row]|;
      col := |lines[row]|;
    }

    /** Tab types four spaces; those that do not fit the line are dropped. */
    method Tab()
      requires Valid()
      modifies this`col, lines
      ensures Valid() && View() == Strikes(old(View()), Repeated(Type(32), 4))
    {
      for n := 0 to 4
        invariant Valid() && View() == Strikes(old(View()), Repeated(Type(SPACE), n))
      {
        var _ := InsertChar(SPACE);
        RepeatedNext(Type(SPACE), n);
      }
    }

    method PageUp()
      requires Valid()
      modifies this`row, this`col
      ensures Valid() && View() == Strikes(old(View()), Repeated(Key.GoUp, 12))
    {
      for n := 0 to VIEW_ROWS
        invariant Valid() && View() == Strikes(old(View()), Repeated(Key.GoUp, n))
      {
        var _ := GoUp();
        RepeatedNext(Key.GoUp, n);
      }
    }

    method PageDown()
      requires Valid()
      modifies this`row, this`col
      ensures Valid() && View() == Strikes(old(View()), Repeated(Key.GoDown, 12))
    {
      for n := 0 to VIEW_ROWS
        invariant Valid() && View() == Strikes(old(View()), Repeated(Key.GoDown, n))
      {
        var _ := GoDown();
        RepeatedNext(Key.GoDown, n);
      }
    }

    /** redraw: the view follows the cursor and shows the lines that count; a cursor's line
        that does not is shown empty. */
    method Redraw() returns (rows: seq<Line>)
      requires Valid()
      modifies this`viewY
      ensures Valid() && viewY <= row < viewY + 12
      ensures old(viewY) <= row < old(viewY) + 12 ==> viewY == old(viewY)
      ensures |rows| == 12 && rows[row - viewY] == if View().loose then [] else lines[row]
      ensures forall i :: 0 <= i < 12 ==> rows[i] == if viewY + i < count then lines[viewY + i] else []
    {
      if row < viewY { viewY := row; } else if row >= viewY + VIEW_ROWS { viewY := row - VIEW_ROWS + 1; }
      rows := seq(VIEW_ROWS, i requires 0 <= i < VIEW_ROWS reads this, lines =>
                    if lines.Length == MAX_LINES && viewY + i < count <= MAX_LINES then lines[viewY + i] else []);
    }
  }

  /** How much of the file is kept: all, or up to the last newline within the limit. */
  method ReadLength(file: seq<Byte>) returns (len: nat)
    ensures len <= |file| && file[..len] == Readable(file)
  {
    len := |file|;
    if |file| > MAX_BYTES {
      len := MAX_BYTES;
      while len > 0 && file[len - 1] != NL
        invariant len <= MAX_BYTES && ToLastNl(file[..MAX_BYTES]) == ToLastNl(file[..len])
      {
        assert file[..len][..len - 1] == file[..len - 1];
        len := len - 1;
      }
    }
  }
}
