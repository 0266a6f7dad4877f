// Option=Value files (iso_settings.c): a table of keys over the raw text, saved back
// by rewriting the lines it knows and keeping every other line as it is.
module Settings {

  const KEY_MAX: nat := 48
  const VAL_MAX: nat := 128
  const KV_MAX: nat := 48
  const RAW_MAX: nat := 16384
  const OUT_MAX: nat := 33280   // RAW_MAX * 2 + 512

  datatype Entry = Entry(key: string, val: string)
  type Table = seq<Entry>

  // ---- One line ---------------------------------------------------------------

  predicate Blank(c: char) { c == ' ' || c == '\t' || c == '\r' }

  function TrimLeft(s: string): string {
    if s != "" && Blank(s[0]) then TrimLeft(s[1..]) else s
  }

  function TrimRight(s: string): string {
    if s != "" && Blank(s[|s| - 1]) then TrimRight(s[..|s| - 1]) else s
  }

  /** The index of the first '=' from i on, or the length. */
  function Equals(s: string, i: nat := 0): (r: nat)
    requires i <= |s|
    ensures i <= r <= |s| && (r < |s| ==> s[r] == '=')
    decreases |s| - i
  {
    if i == |s| || s[i] == '=' then i else Equals(s, i + 1)
  }

  function Capped(s: string, size: nat): (r: string)
    requires size > 0
    ensures |r| < size
  {
    if |s| >= size then s[..size - 1] else s
  }

  /** The key a line sets, or "" for a blank line, a comment, or one without a usable key. */
  function KeyOf(line: string): string {
    var s := TrimLeft(line);
    if s == "" || s[0] == '#' || s[0] == ';' || Equals(s) == |s| then ""
    else
      var k := TrimRight(s[..Equals(s)]);
      if |k| >= KEY_MAX then "" else k
  }

  function ValOf(line: string): string {
    var s := TrimLeft(line);
    if Equals(s) == |s| then "" else Capped(TrimRight(TrimLeft(s[Equals(s) + 1..])), VAL_MAX)
  }

  function Format(e: Entry): string { e.key + "=" + e.val }

  /** Keys and values that a line can carry. */
  predicate Good(e: Entry) {
    && 0 < |e.key| < KEY_MAX && |e.val| < VAL_MAX
    && '=' !in e.key && '\n' !in e.key && '\n' !in e.val
    && !Blank(e.key[0]) && !Blank(e.key[|e.key| - 1]) && e.key[0] != '#' && e.key[0] != ';'
    && (e.val != "" ==> !Blank(e.val[0]) && !Blank(e.val[|e.val| - 1]))
  }

  lemma {:induction false} EqualsAt(k: string, rest: string, i: nat)
    requires '=' !in k && i <= |k|
    ensures Equals(k + "=" + rest, i) == |k|
    decreases |k| - i
  {
    var s := k + "=" + rest;
    assert s[|k|] == '=';
    if i < |k| {
      assert s[i] == k[i] && k[i] in k;
      EqualsAt(k, rest, i + 1);
    }
  }

  /** A formatted entry reads back as itself. */
  lemma FormatReads(e: Entry)
    requires Good(e)
    ensures KeyOf(Format(e)) == e.key && ValOf(Format(e)) == e.val && '\n' !in Format(e)
  {
    var s := Format(e);
    assert s[0] == e.key[0];
    EqualsAt(e.key, e.val, 0);
    assert s[..|e.key|] == e.key && s[|e.key| + 1..] == e.val;
  }

  predicate AllBlank(s: string) { forall k :: 0 <= k < |s| ==> s[k] in {' ', '\t', '\r'} }

  /** Not empty, and no blank at either end. */
  predicate Solid(s: string) { s != "" && s[0] !in {' ', '\t', '\r'} && s[|s| - 1] !in {' ', '\t', '\r'} }

  lemma {:induction false} TrimmedLeft(b: string, s: string)
    requires AllBlank(b) && (s == "" || s[0] !in {' ', '\t', '\r'})
    ensures TrimLeft(b + s) == s
  {
    if b == "" {
      assert b + s == s;
    } else {
      TrimmedLeft(b[1..], s);
      assert (b + s)[1..] == b[1..] + s;
    }
  }

  lemma {:induction false} TrimmedRight(s: string, b: string)
    requires AllBlank(b) && (s == "" || s[|s| - 1] !in {' ', '\t', '\r'})
    ensures TrimRight(s + b) == s
  {
    if b == "" {
      assert s + b == s;
    } else {
      TrimmedRight(s, b[..|b| - 1]);
      assert (s + b)[..|s + b| - 1] == s + b[..|b| - 1];
    }
  }

  /** A line that sets a key: key and value between blanks, and the first '=' between them.  A key
      of 48 characters or more is none; a value is cut to 127. */
  lemma SettingReads(line: string, a: string, key: string, b: string, c: string, val: string, d: string)
    requires AllBlank(a) && AllBlank(b) && AllBlank(c) && AllBlank(d) && line == a + (key + b + "=" + (c + (val + d)))
    requires Solid(key) && '=' !in key && key[0] !in {'#', ';'} && (val == "" || Solid(val))
    ensures KeyOf(line) == if |key| < 48 then key else ""
    ensures ValOf(line) == if |val| < 128 then val else val[..127]
  {
    var s := key + b + "=" + (c + (val + d));
    TrimmedLeft(a, s);
    EqualsAt(key + b, c + (val + d), 0);
    assert s[..|key + b|] == key + b && s[|key + b| + 1..] == c + (val + d);
    TrimmedRight(key, b);
    if val == "" {
      assert c + (val + d) == (c + d) + "";
      TrimmedLeft(c + d, "");
    } else {
      TrimmedLeft(c, val + d);
      TrimmedRight(val, d);
    }
  }

  /** Any other line sets none: blank, a comment, without '=', or with nothing before it. */
  lemma {:induction false} OtherReads(line: string, a: string, s: string)
    requires AllBlank(a) && line == a + s
    requires s == "" || s[0] in {'#', ';', '='} || (s[0] !in {' ', '\t', '\r'} && '=' !in s)
    ensures KeyOf(line) == ""
  {
    TrimmedLeft(a, s);
  }

  /** Every line is of one of these forms. */
  lemma LineForms(line: string) returns (a: string, s: string, key: string, b: string, c: string, val: string, d: string)
    ensures AllBlank(a) && line == a + s
    ensures s == "" || s[0] in {'#', ';', '='} || (s[0] !in {' ', '\t', '\r'} && '=' !in s)
         || (&& AllBlank(b) && AllBlank(c) && AllBlank(d) && s == key + b + "=" + (c + (val + d))
             && Solid(key) && '=' !in key && key[0] !in {'#', ';'} && (val == "" || Solid(val)))
  {
    a, s := LeftBlanks(line);
    key, b, c, val, d := "", "", "", "", "";
    if s != "" && s[0] !in {'#', ';', '='} && '=' in s {
      var at := FirstEquals(s);
      key, b := RightBlanks(s[..at]);
      assert (key + b)[0] == s[0];
      var rest;
      c, rest := LeftBlanks(s[at + 1..]);
      val, d := RightBlanks(rest);
      assert forall k :: 0 <= k < |key| ==> key[k] == s[k];
      assert s == s[..at] + "=" + s[at + 1..];
    }
  }

  lemma {:induction false} LeftBlanks(s: string) returns (a: string, r: string)
    ensures s == a + r && AllBlank(a) && (r == "" || r[0] !in {' ', '\t', '\r'})
  {
    if s == "" || s[0] !in {' ', '\t', '\r'} {
      a, r := "", s;
    } else {
      a, r := LeftBlanks(s[1..]);
      a := [s[0]] + a;
    }
  }

  lemma {:induction false} RightBlanks(s: string) returns (r: string, b: string)
    ensures s == r + b && AllBlank(b) && (r == "" || r[|r| - 1] !in {' ', '\t', '\r'})
  {
    if s == "" || s[|s| - 1] !in {' ', '\t', '\r'} {
      r, b := s, "";
    } else {
      r, b := RightBlanks(s[..|s| - 1]);
      b := b + [s[|s| - 1]];
    }
  }

  lemma {:induction false} FirstEquals(s: string) returns (at: nat)
    requires '=' in s
    ensures at < |s| && s[at] == '=' && forall k :: 0 <= k < at ==> s[k] != '='
  {
    if s[0] == '=' {
      at := 0;
    } else {
      at := FirstEquals(s[1..]);
      at := at + 1;
    }
  }

  // ---- The table --------------------------------------------------------------

  predicate Unique(t: Table) {
    t == [] || (Unique(t[..|t| - 1]) && Lookup(t[..|t| - 1], t[|t| - 1].key) < 0)
  }

  /** The index of a key from i on, or -1. */
  function Lookup(t: Table, key: string, i: nat := 0): (r: int)
    requires i <= |t|
    ensures r >= 0 ==> i <= r < |t| && t[r].key == key
    ensures r < 0 ==> forall j :: i <= j < |t| ==> t[j].key != key
    decreases |t| - i
  {
    if i == |t| then -1 else if t[i].key == key then i else Lookup(t, key, i + 1)
  }

  function MapOf(t: Table): map<string, string> {
    if t == [] then map[] else MapOf(t[..|t| - 1])[t[|t| - 1].key := t[|t| - 1].val]
  }

  /** kv_store: overwrite the key's value, or append while there is room. */
  function Store(t: Table, key: string, val: string): (r: Table)
    ensures |t| <= KV_MAX ==> |r| <= KV_MAX
  {
    var i := Lookup(t, key);
    if i >= 0 then t[i := t[i].(val := Capped(val, VAL_MAX))]
    else if |t| >= KV_MAX then t
    else t + [Entry(Capped(key, KEY_MAX), Capped(val, VAL_MAX))]
  }

  lemma {:induction false} MapHas(t: Table, key: string)
    requires Unique(t)
    ensures key in MapOf(t) <==> Lookup(t, key) >= 0
    ensures Lookup(t, key) >= 0 ==> MapOf(t)[key] == t[Lookup(t, key)].val
  {
    if t != [] {
      var front := t[..|t| - 1];
      MapHas(front, key);
      var i, j := Lookup(t, key), Lookup(front, key);
      if j >= 0 {
        assert t[j] == front[j];
        UniqueAt(t, i, j);
      } else if i >= 0 {
        assert forall k :: 0 <= k < |front| ==> front[k] == t[k];
      }
    }
  }

  lemma LastKeyNew(t: Table, i: nat)
    requires Unique(t) && i < |t| - 1
    ensures t[i].key != t[|t| - 1].key
  {
    assert t[..|t| - 1][i] == t[i];
  }

  lemma {:induction false} UniqueAt(t: Table, i: nat, j: nat)
    requires Unique(t) && i < |t| && j < |t| && t[i].key == t[j].key
    ensures i == j
  {
    var n := |t| - 1;
    if i < n && j < n {
      UniqueAt(t[..n], i, j);
    } else if i < n {
      LastKeyNew(t, i);
    } else if j < n {
      LastKeyNew(t, j);
    }
  }

  lemma LookupOwn(t: Table, i: nat)
    requires Unique(t) && i < |t|
    ensures Lookup(t, t[i].key) == i
  {
    UniqueAt(t, Lookup(t, t[i].key), i);
  }

  lemma {:induction false} UpdateMap(t: Table, i: nat, val: string)
    requires Unique(t) && i < |t|
    ensures Unique(t[i := t[i].(val := val)]) && MapOf(t[i := t[i].(val := val)]) == MapOf(t)[t[i].key := val]
  {
    var n, r := |t| - 1, t[i := t[i].(val := val)];
    if i == n {
      assert r[..n] == t[..n];
    } else {
      UpdateMap(t[..n], i, val);
      assert r[..n] == t[..n][i := t[i].(val := val)];
      forall j | 0 <= j < n ensures r[..n][j].key != t[n].key { LastKeyNew(t, j); }
      LastKeyNew(t, i);
    }
  }

  lemma AppendMap(t: Table, e: Entry)
    requires Unique(t) && Lookup(t, e.key) < 0
    ensures Unique(t + [e]) && MapOf(t + [e]) == MapOf(t)[e.key := e.val]
  {
    var r := t + [e];
    assert r[..|t|] == t && r[|t|] == e;
  }

  /** Storing within the limits is a map update. */
  lemma StoreIsUpdate(t: Table, key: string, val: string)
    requires Unique(t) && |key| < KEY_MAX && |val| < VAL_MAX
    ensures Unique(Store(t, key, val))
    ensures key in MapOf(t) || |t| < KV_MAX ==> MapOf(Store(t, key, val)) == MapOf(t)[key := val]
  {
    MapHas(t, key);
    var i := Lookup(t, key);
    if i >= 0 { UpdateMap(t, i, val); } else { AppendMap(t, Entry(key, val)); }
  }

  // ---- The text ---------------------------------------------------------------

  /** A line of the file and whether a newline ends it. */
  datatype Piece = Piece(line: string, ended: bool)

  /** The index of the first newline from i on, or the length. */
  function Newline(raw: string, i: nat): (r: nat)
    requires i <= |raw|
    ensures i <= r <= |raw| && (r < |raw| ==> raw[r] == '\n') && forall j :: i <= j < r ==> raw[j] != '\n'
    decreases |raw| - i
  {
    if i == |raw| || raw[i] == '\n' then i else Newline(raw, i + 1)
  }

  /** Where the line after the one ending at nl begins. */
  function Next(raw: string, nl: nat): (p: nat)
    requires nl <= |raw|
    ensures nl <= p <= |raw|
  {
    if nl < |raw| then nl + 1 else nl
  }

  function Pieces(raw: string, p: nat := 0): seq<Piece>
    requires p <= |raw|
    decreases |raw| - p
  {
    if p == |raw| then []
    else
      var nl := Newline(raw, p);
      [Piece(raw[p..nl], nl < |raw|)] + if nl < |raw| then Pieces(raw, nl + 1) else []
  }

  function Join(lines: seq<string>): string {
    if lines == [] then "" else lines[0] + "\n" + Join(lines[1..])
  }

  function Ended(lines: seq<string>): (r: seq<Piece>)
    ensures |r| == |lines| && forall i :: 0 <= i < |lines| ==> r[i] == Piece(lines[i], true)
  {
    seq(|lines|, i requires 0 <= i < |lines| => Piece(lines[i], true))
  }

  predicate LineFree(lines: seq<string>) { forall i :: 0 <= i < |lines| ==> '\n' !in lines[i] }

  lemma {:induction false} PiecesOfJoin(raw: string, p: nat, lines: seq<string>)
    requires LineFree(lines) && p <= |raw| && raw[p..] == Join(lines)
    ensures Pieces(raw, p) == Ended(lines)
    decreases |lines|
  {
    if lines != [] {
      var l := lines[0];
      var next := SkipLine(raw, p, l, Join(lines[1..]));
      PiecesOfJoin(raw, next, lines[1..]);
      AllEndedFront(lines);
    }
  }

  lemma AllEndedFront(lines: seq<string>)
    requires lines != []
    ensures Ended(lines) == [Piece(lines[0], true)] + Ended(lines[1..])
  {
  }

  lemma SkipLine(raw: string, p: nat, l: string, rest: string) returns (next: nat)
    requires '\n' !in l && p <= |raw| && raw[p..] == l + "\n" + rest
    ensures next == p + |l| + 1 <= |raw| && raw[next..] == rest
    ensures Pieces(raw, p) == [Piece(l, true)] + Pieces(raw, next)
  {
    next := p + |l| + 1;
    LineSlices(raw, p, l, rest);
    LineStep(raw, p, l);
  }

  lemma LineStep(raw: string, p: nat, l: string)
    requires '\n' !in l && p + |l| < |raw| && raw[p..p + |l|] == l && raw[p + |l|] == '\n'
    ensures Pieces(raw, p) == [Piece(l, true)] + Pieces(raw, p + |l| + 1)
  {
    NewlineAt(raw, l, p, p);
  }

  lemma LineSlices(raw: string, p: nat, l: string, rest: string)
    requires p <= |raw| && raw[p..] == l + "\n" + rest
    ensures p + |l| < |raw| && raw[p + |l|] == '\n' && raw[p..p + |l|] == l && raw[p + |l| + 1..] == rest
  {
    var s := raw[p..];
    assert s[|l|] == '\n' && s[..|l|] == l && s[|l| + 1..] == rest;
    assert raw[p..p + |l|] == s[..|l|] && raw[p + |l| + 1..] == s[|l| + 1..];
  }

  lemma {:induction false} NewlineAt(raw: string, l: string, p: nat, i: nat)
    requires '\n' !in l && p <= i <= p + |l| < |raw| && raw[p..p + |l|] == l && raw[p + |l|] == '\n'
    ensures Newline(raw, i) == p + |l|
    decreases p + |l| - i
  {
    if i < p + |l| {
      assert raw[i] == l[i - p] && l[i - p] in l;
      NewlineAt(raw, l, p, i + 1);
    }
  }

  /** kv_parse, line by line. */
  function Parse(pieces: seq<Piece>, t: Table): Table {
    if pieces == [] then t
    else
      var line := pieces[0].line;
      Parse(pieces[1..], if KeyOf(line) == "" then t else Store(t, KeyOf(line), ValOf(line)))
  }

  /** Parsing takes one line at a time. */
  lemma ParseFront(raw: string, p: nat, nl: nat, t: Table)
    requires p < |raw| && nl == Newline(raw, p)
    ensures var line := raw[p..nl];
            Parse(Pieces(raw, p), t)
            == Parse(Pieces(raw, Next(raw, nl)), if KeyOf(line) == "" then t else Store(t, KeyOf(line), ValOf(line)))
  {
    var ps := Pieces(raw, p);
    assert ps[0].line == raw[p..nl] && ps[1..] == Pieces(raw, Next(raw, nl));
  }

  // ---- Saving -----------------------------------------------------------------

  /** The slot a line belongs to, or -1. */
  function SlotOf(t: Table, line: string): int {
    if KeyOf(line) == "" then -1 else Lookup(t, KeyOf(line))
  }

  /** What the first loop of kv_save writes for one line: a known one is rewritten the first
      time and dropped after, any other is kept. */
  function Written(t: Table, p: Piece, done: set<int>): string {
    var i := SlotOf(t, p.line);
    if i < 0 then p.line + (if p.ended then "\n" else "")
    else if i in done then "" else Format(t[i]) + "\n"
  }

  function Marked(t: Table, p: Piece, done: set<int>): set<int> {
    if SlotOf(t, p.line) < 0 then done else done + {SlotOf(t, p.line)}
  }

  function Rewrite(t: Table, pieces: seq<Piece>, done: set<int>): string {
    if pieces == [] then ""
    else Written(t, pieces[0], done) + Rewrite(t, pieces[1..], Marked(t, pieces[0], done))
  }

  /** The slots that the first loop reaches. */
  function Reached(t: Table, pieces: seq<Piece>, done: set<int>): set<int> {
    if pieces == [] then done else Reached(t, pieces[1..], Marked(t, pieces[0], done))
  }

  /** The second loop: entries from slot i on that were not reached. */
  function Rest(t: Table, done: set<int>, i: nat): seq<string>
    requires i <= |t|
    decreases |t| - i
  {
    if i == |t| then []
    else (if i in done then [] else [Format(t[i])]) + Rest(t, done, i + 1)
  }

  function Saved(t: Table, raw: string): string {
    Rewrite(t, Pieces(raw), {}) + Join(Rest(t, Reached(t, Pieces(raw), {}), 0))
  }

  // ---- Saving keeps the meaning -----------------------------------------------

  /** The lines the first loop writes, for a file whose lines all end. */
  function Kept(t: Table, pieces: seq<Piece>, done: set<int>): seq<string> {
    if pieces == [] then []
    else
      var p, i := pieces[0], SlotOf(t, pieces[0].line);
      (if i < 0 then [p.line] else if i in done then [] else [Format(t[i])])
      + Kept(t, pieces[1..], if i < 0 then done else done + {i})
  }

  lemma {:induction false} JoinConcat(a: seq<string>, b: seq<string>)
    ensures Join(a + b) == Join(a) + Join(b)
  {
    if a == [] {
      assert a + b == b;
    } else {
      assert (a + b)[1..] == a[1..] + b;
      JoinConcat(a[1..], b);
    }
  }

  predicate AllEnded(pieces: seq<Piece>) { forall p :: p in pieces ==> p.ended && '\n' !in p.line }

  predicate AllGood(t: Table) { forall i :: 0 <= i < |t| ==> Good(t[i]) }

  lemma {:induction false} RewriteIsJoin(t: Table, pieces: seq<Piece>, done: set<int>)
    requires AllEnded(pieces) && AllGood(t)
    ensures Rewrite(t, pieces, done) == Join(Kept(t, pieces, done)) && LineFree(Kept(t, pieces, done))
    decreases |pieces|
  {
    if pieces != [] {
      var p, i := pieces[0], SlotOf(t, pieces[0].line);
      var done' := if i < 0 then done else done + {i};
      RewriteIsJoin(t, pieces[1..], done');
      var one := if i < 0 then [p.line] else if i in done then [] else [Format(t[i])];
      if i >= 0 { FormatReads(t[i]); }
      JoinConcat(one, Kept(t, pieces[1..], done'));
      assert one != [] ==> one[1..] == [] && Join(one) == one[0] + "\n" + "";
    }
  }

  lemma {:induction false} RestLines(t: Table, done: set<int>, i: nat)
    requires i <= |t| && AllGood(t)
    ensures LineFree(Rest(t, done, i))
    decreases |t| - i
  {
    if i < |t| {
      RestLines(t, done, i + 1);
      FormatReads(t[i]);
    }
  }

  /** The lines that set nothing the table knows, in order. */
  function Foreign(t: Table, lines: seq<string>): seq<string> {
    if lines == [] then []
    else (if SlotOf(t, lines[0]) < 0 then [lines[0]] else []) + Foreign(t, lines[1..])
  }

  function LinesOf(pieces: seq<Piece>): (r: seq<string>)
    ensures |r| == |pieces| && forall i :: 0 <= i < |pieces| ==> r[i] == pieces[i].line
  {
    seq(|pieces|, i requires 0 <= i < |pieces| => pieces[i].line)
  }

  lemma {:induction false} ForeignConcat(t: Table, a: seq<string>, b: seq<string>)
    ensures Foreign(t, a + b) == Foreign(t, a) + Foreign(t, b)
  {
    if a == [] {
      assert a + b == b;
    } else {
      assert (a + b)[1..] == a[1..] + b;
      ForeignConcat(t, a[1..], b);
    }
  }

  lemma OwnLine(t: Table, i: nat)
    requires Unique(t) && AllGood(t) && i < |t|
    ensures SlotOf(t, Format(t[i])) == i
  {
    FormatReads(t[i]);
    LookupOwn(t, i);
  }

  /** Every line the table does not know stays, verbatim and in order. */
  lemma {:induction false} KeptForeign(t: Table, pieces: seq<Piece>, done: set<int>)
    requires Unique(t) && AllGood(t)
    ensures Foreign(t, Kept(t, pieces, done)) == Foreign(t, LinesOf(pieces))
    decreases |pieces|
  {
    if pieces != [] {
      var p, i := pieces[0], SlotOf(t, pieces[0].line);
      var done' := if i < 0 then done else done + {i};
      KeptForeign(t, pieces[1..], done');
      var one := if i < 0 then [p.line] else if i in done then [] else [Format(t[i])];
      if i >= 0 { OwnLine(t, i); }
      ForeignConcat(t, one, Kept(t, pieces[1..], done'));
      assert one != [] ==> one[1..] == [];
      assert LinesOf(pieces)[1..] == LinesOf(pieces[1..]);
    }
  }

  lemma {:induction false} RestForeign(t: Table, done: set<int>, i: nat)
    requires Unique(t) && AllGood(t) && i <= |t|
    ensures Foreign(t, Rest(t, done, i)) == []
    decreases |t| - i
  {
    if i < |t| {
      RestForeign(t, done, i + 1);
      OwnLine(t, i);
      var one := if i in done then [] else [Format(t[i])];
      ForeignConcat(t, one, Rest(t, done, i + 1));
      assert one != [] ==> one[1..] == [];
    }
  }

  /** What parsing the lines makes of a map, one update a line. */
  function MapLines(lines: seq<string>, m: map<string, string>): map<string, string> {
    if lines == [] then m
    else MapLines(lines[1..], if KeyOf(lines[0]) == "" then m else m[KeyOf(lines[0]) := ValOf(lines[0])])
  }

  /** Every key in the file is known to the table. */
  predicate Known(t: Table, pieces: seq<Piece>) {
    pieces == [] ||
    ((KeyOf(pieces[0].line) == "" || Lookup(t, KeyOf(pieces[0].line)) >= 0) && Known(t, pieces[1..]))
  }

  /** The line sets no key, or the table's value of one. */
  predicate Own(t: Table, l: string) {
    KeyOf(l) == "" || (Lookup(t, KeyOf(l)) >= 0 && ValOf(l) == t[Lookup(t, KeyOf(l))].val)
  }

  predicate AllOwn(t: Table, lines: seq<string>) {
    lines == [] || (Own(t, lines[0]) && AllOwn(t, lines[1..]))
  }

  lemma {:induction false} OwnConcat(t: Table, a: seq<string>, b: seq<string>)
    ensures AllOwn(t, a + b) <==> AllOwn(t, a) && AllOwn(t, b)
  {
    if a == [] {
      assert a + b == b;
    } else {
      assert (a + b)[1..] == a[1..] + b;
      OwnConcat(t, a[1..], b);
    }
  }

  lemma FormatOwn(t: Table, i: nat)
    requires Unique(t) && AllGood(t) && i < |t|
    ensures AllOwn(t, [Format(t[i])])
  {
    FormatReads(t[i]);
    LookupOwn(t, i);
    var one := [Format(t[i])];
    assert one[1..] == [];
  }

  lemma {:induction false} KeptOwn(t: Table, pieces: seq<Piece>, done: set<int>)
    requires Unique(t) && AllGood(t) && Known(t, pieces)
    ensures AllOwn(t, Kept(t, pieces, done))
    decreases |pieces|
  {
    if pieces != [] {
      var p, i := pieces[0], SlotOf(t, pieces[0].line);
      var done' := if i < 0 then done else done + {i};
      KeptOwn(t, pieces[1..], done');
      var one := if i < 0 then [p.line] else if i in done then [] else [Format(t[i])];
      if i >= 0 { FormatOwn(t, i); } else { assert one[1..] == []; }
      OwnConcat(t, one, Kept(t, pieces[1..], done'));
    }
  }

  lemma {:induction false} RestOwn(t: Table, done: set<int>, i: nat)
    requires Unique(t) && AllGood(t) && i <= |t|
    ensures AllOwn(t, Rest(t, done, i))
    decreases |t| - i
  {
    if i < |t| {
      RestOwn(t, done, i + 1);
      FormatOwn(t, i);
      OwnConcat(t, if i in done then [] else [Format(t[i])], Rest(t, done, i + 1));
    }
  }

  /** A slot that the first loop reaches has its line. */
  lemma {:induction false} KeptHas(t: Table, pieces: seq<Piece>, done: set<int>, i: nat)
    requires i < |t| && i in Reached(t, pieces, done) && i !in done
    ensures Format(t[i]) in Kept(t, pieces, done)
    decreases |pieces|
  {
    if pieces != [] {
      var k := SlotOf(t, pieces[0].line);
      if k != i { KeptHas(t, pieces[1..], if k < 0 then done else done + {k}, i); }
    }
  }

  lemma {:induction false} RestHas(t: Table, done: set<int>, i: nat, k: nat)
    requires i <= k < |t| && k !in done
    ensures Format(t[k]) in Rest(t, done, i)
    decreases |t| - i
  {
    if i < k { RestHas(t, done, i + 1, k); }
  }

  /** A map that only ever takes the table's values. */
  ghost predicate Within(t: Table, m: map<string, string>) {
    forall k :: k in m ==> Lookup(t, k) >= 0 && m[k] == t[Lookup(t, k)].val
  }

  lemma {:induction false} OwnWithin(t: Table, lines: seq<string>, m: map<string, string>)
    requires AllOwn(t, lines) && Within(t, m)
    ensures Within(t, MapLines(lines, m))
    decreases |lines|
  {
    if lines != [] {
      OwnWithin(t, lines[1..], if KeyOf(lines[0]) == "" then m else m[KeyOf(lines[0]) := ValOf(lines[0])]);
    }
  }

  /** Parsing within the table's size is the map update, line by line. */
  lemma {:induction false} ParseIsMap(pieces: seq<Piece>, t: Table, keys: set<string>)
    requires Unique(t) && |keys| <= KV_MAX && MapOf(t).Keys <= keys
    requires forall l :: l in LinesOf(pieces) && KeyOf(l) != "" ==> KeyOf(l) in keys
    ensures Unique(Parse(pieces, t)) && MapOf(Parse(pieces, t)) == MapLines(LinesOf(pieces), MapOf(t))
    decreases |pieces|
  {
    if pieces != [] {
      var l := pieces[0].line;
      assert LinesOf(pieces)[0] == l && LinesOf(pieces)[1..] == LinesOf(pieces[1..]);
      assert forall x :: x in LinesOf(pieces[1..]) ==> x in LinesOf(pieces);
      if KeyOf(l) == "" {
        ParseIsMap(pieces[1..], t, keys);
      } else {
        StoreFits(t, l, keys);
        ParseIsMap(pieces[1..], Store(t, KeyOf(l), ValOf(l)), keys);
      }
    }
  }

  lemma StoreFits(t: Table, l: string, keys: set<string>)
    requires Unique(t) && |keys| <= KV_MAX && MapOf(t).Keys <= keys && KeyOf(l) in keys && KeyOf(l) != ""
    ensures var r := Store(t, KeyOf(l), ValOf(l));
            Unique(r) && MapOf(r) == MapOf(t)[KeyOf(l) := ValOf(l)] && MapOf(r).Keys <= keys
  {
    MapSize(t);
    if KeyOf(l) !in MapOf(t) {
      Subset(MapOf(t).Keys + {KeyOf(l)}, keys);
    }
    StoreIsUpdate(t, KeyOf(l), ValOf(l));
  }

  lemma {:induction false} MapSize(t: Table)
    requires Unique(t)
    ensures |MapOf(t).Keys| == |t|
  {
    if t != [] {
      var front, last := t[..|t| - 1], t[|t| - 1];
      MapSize(front);
      MapHas(front, last.key);
      assert MapOf(t).Keys == MapOf(front).Keys + {last.key};
    }
  }

  lemma Subset<T>(a: set<T>, b: set<T>)
    requires a <= b
    ensures |a| <= |b|
  {
    if a != {} {
      var x :| x in a;
      Subset(a - {x}, b - {x});
    }
  }

  /** The lines of the saved file. */
  function SavedLines(t: Table, raw: string): seq<string> {
    var ps := Pieces(raw);
    Kept(t, ps, {}) + Rest(t, Reached(t, ps, {}), 0)
  }

  lemma SavedIsJoin(t: Table, raw: string)
    requires AllGood(t) && AllEnded(Pieces(raw))
    ensures Saved(t, raw) == Join(SavedLines(t, raw)) && LineFree(SavedLines(t, raw))
    ensures Pieces(Saved(t, raw)) == Ended(SavedLines(t, raw))
  {
    var ps := Pieces(raw);
    RewriteIsJoin(t, ps, {});
    RestLines(t, Reached(t, ps, {}), 0);
    JoinConcat(Kept(t, ps, {}), Rest(t, Reached(t, ps, {}), 0));
    assert Saved(t, raw)[0..] == Saved(t, raw);
    PiecesOfJoin(Saved(t, raw), 0, SavedLines(t, raw));
  }

  /** Every entry has its line in the saved file. */
  lemma SavedHas(t: Table, raw: string, i: nat)
    requires i < |t|
    ensures Format(t[i]) in SavedLines(t, raw)
  {
    var ps := Pieces(raw);
    if i in Reached(t, ps, {}) { KeptHas(t, ps, {}, i); } else { RestHas(t, Reached(t, ps, {}), 0, i); }
  }

  lemma SavedMap(t: Table, raw: string)
    requires Unique(t) && AllGood(t) && Known(t, Pieces(raw))
    ensures MapLines(SavedLines(t, raw), map[]) == MapOf(t)
  {
    var ps, m := Pieces(raw), MapLines(SavedLines(t, raw), map[]);
    KeptOwn(t, ps, {});
    RestOwn(t, Reached(t, ps, {}), 0);
    OwnConcat(t, Kept(t, ps, {}), Rest(t, Reached(t, ps, {}), 0));
    OwnWithin(t, SavedLines(t, raw), map[]);
    forall k ensures (k in m <==> k in MapOf(t)) && (k in m ==> m[k] == MapOf(t)[k]) {
      MapHas(t, k);
      var i := Lookup(t, k);
      if i >= 0 {
        SavedHas(t, raw, i);
        FormatReads(t[i]);
        KeyIn(SavedLines(t, raw), map[], Format(t[i]));
      }
    }
  }

  lemma SavedKeys(t: Table, raw: string, l: string)
    requires Unique(t) && AllGood(t) && Known(t, Pieces(raw)) && l in SavedLines(t, raw) && KeyOf(l) != ""
    ensures KeyOf(l) in MapOf(t).Keys
  {
    KeyIn(SavedLines(t, raw), map[], l);
    SavedMap(t, raw);
  }

  lemma {:induction false} KeyIn(lines: seq<string>, m: map<string, string>, l: string)
    requires l in lines && KeyOf(l) != ""
    ensures KeyOf(l) in MapLines(lines, m)
    decreases |lines|
  {
    var next := if KeyOf(lines[0]) == "" then m else m[KeyOf(lines[0]) := ValOf(lines[0])];
    if l == lines[0] { KeyStays(lines[1..], next, KeyOf(l)); } else { KeyIn(lines[1..], next, l); }
  }

  lemma {:induction false} KeyStays(lines: seq<string>, m: map<string, string>, k: string)
    requires k in m
    ensures k in MapLines(lines, m)
    decreases |lines|
  {
    if lines != [] { KeyStays(lines[1..], if KeyOf(lines[0]) == "" then m else m[KeyOf(lines[0]) := ValOf(lines[0])], k); }
  }

  /** Saving a table of trimmed, newline-free keys and values over a newline-terminated file
      whose keys it knows, and reloading, gives the same map; and every line that sets no
      key of the table is kept, verbatim and in order. */
  lemma SaveReload(t: Table, raw: string)
    requires Unique(t) && AllGood(t) && |t| <= KV_MAX
    requires AllEnded(Pieces(raw)) && Known(t, Pieces(raw))
    ensures var back := Pieces(Saved(t, raw));
            MapOf(Parse(back, [])) == MapOf(t) && Foreign(t, LinesOf(back)) == Foreign(t, LinesOf(Pieces(raw)))
  {
    SavedIsJoin(t, raw);
    var lines := SavedLines(t, raw);
    assert LinesOf(Ended(lines)) == lines;
    SavedMap(t, raw);
    forall l | l in lines && KeyOf(l) != "" ensures KeyOf(l) in MapOf(t).Keys { SavedKeys(t, raw, l); }
    MapSize(t);
    ParseIsMap(Ended(lines), [], MapOf(t).Keys);
    var ps := Pieces(raw);
    KeptForeign(t, ps, {});
    RestForeign(t, Reached(t, ps, {}), 0);
    ForeignConcat(t, Kept(t, ps, {}), Rest(t, Reached(t, ps, {}), 0));
  }

  /** No two lines set the same key. */
  predicate KeysOnce(lines: seq<string>) {
    forall a, b :: 0 <= a < b < |lines| && KeyOf(lines[a]) != "" ==> KeyOf(lines[a]) != KeyOf(lines[b])
  }

  /** Line l as it is saved: with the table's value where it sets a key of the table, and as it
      was where it does not. */
  predicate SavedAs(t: Table, l: string, r: string) {
    && (forall i :: 0 <= i < |t| && KeyOf(l) != "" && t[i].key == KeyOf(l) ==> r == t[i].key + "=" + t[i].val)
    && (KeyOf(l) == "" || (forall i :: 0 <= i < |t| ==> t[i].key != KeyOf(l)) ==> r == l)
  }

  /** An entry behind them: of a key that no line set. */
  predicate Appended(t: Table, lines: seq<string>, r: string) {
    exists i :: 0 <= i < |t| && r == t[i].key + "=" + t[i].val && forall j :: 0 <= j < |lines| ==> KeyOf(lines[j]) != t[i].key
  }

  lemma {:induction false} KeptInPlace(t: Table, pieces: seq<Piece>, done: set<int>)
    requires Unique(t) && KeysOnce(LinesOf(pieces)) && forall j :: 0 <= j < |pieces| ==> SlotOf(t, pieces[j].line) !in done
    ensures |Kept(t, pieces, done)| == |pieces|
    ensures forall j :: 0 <= j < |pieces| ==> SavedAs(t, pieces[j].line, Kept(t, pieces, done)[j])
  {
    if pieces != [] {
      var l, rest, i := pieces[0].line, pieces[1..], SlotOf(t, pieces[0].line);
      var done' := if i < 0 then done else done + {i};
      var lines := LinesOf(pieces);
      assert LinesOf(rest) == lines[1..];
      forall j | 0 <= j < |rest| ensures SlotOf(t, rest[j].line) !in done' {
        assert lines[0] == l && lines[j + 1] == rest[j].line == pieces[j + 1].line;
      }
      KeptInPlace(t, rest, done');
      SlotSaves(t, l);
    }
  }

  lemma SlotSaves(t: Table, l: string)
    requires Unique(t)
    ensures SavedAs(t, l, if SlotOf(t, l) < 0 then l else Format(t[SlotOf(t, l)]))
  {
    var s := SlotOf(t, l);
    if s >= 0 {
      forall i | 0 <= i < |t| && t[i].key == KeyOf(l) ensures i == s { UniqueAt(t, i, s); }
    }
  }

  lemma {:induction false} ReachedSlots(t: Table, pieces: seq<Piece>, done: set<int>)
    ensures done <= Reached(t, pieces, done)
    ensures forall j :: 0 <= j < |pieces| && SlotOf(t, pieces[j].line) >= 0 ==> SlotOf(t, pieces[j].line) in Reached(t, pieces, done)
  {
    if pieces != [] { ReachedSlots(t, pieces[1..], Marked(t, pieces[0], done)); }
  }

  lemma {:induction false} RestAppends(t: Table, lines: seq<string>, done: set<int>, i: nat)
    requires i <= |t| && forall k, j :: 0 <= k < |t| && k !in done && 0 <= j < |lines| ==> KeyOf(lines[j]) != t[k].key
    ensures forall r :: r in Rest(t, done, i) ==> Appended(t, lines, r)
    decreases |t| - i
  {
    if i < |t| { RestAppends(t, lines, done, i + 1); }
  }

  /** `back` has every line where it stood, and what is new behind. */
  predicate InPlace(t: Table, lines: seq<string>, back: seq<string>) {
    && |lines| <= |back| && (forall j :: 0 <= j < |lines| ==> SavedAs(t, lines[j], back[j]))
    && forall k :: |lines| <= k < |back| ==> Appended(t, lines, back[k])
  }

  lemma PutInPlace(t: Table, lines: seq<string>, kept: seq<string>, rest: seq<string>)
    requires |kept| == |lines| && forall j :: 0 <= j < |lines| ==> SavedAs(t, lines[j], kept[j])
    requires forall r :: r in rest ==> Appended(t, lines, r)
    ensures InPlace(t, lines, kept + rest)
  {
  }

  lemma RestFollows(t: Table, ps: seq<Piece>)
    requires Unique(t) && AllGood(t)
    ensures forall r :: r in Rest(t, Reached(t, ps, {}), 0) ==> Appended(t, LinesOf(ps), r)
  {
    var lines, done := LinesOf(ps), Reached(t, ps, {});
    ReachedSlots(t, ps, {});
    forall k, j | 0 <= k < |t| && k !in done && 0 <= j < |lines| ensures KeyOf(lines[j]) != t[k].key {
      assert lines[j] == ps[j].line;
      if KeyOf(lines[j]) == t[k].key { UsedKey(t, lines[j], k); }
    }
    RestAppends(t, lines, done, 0);
  }

  /** Where no key is set twice, saving rewrites every line where it stands. */
  lemma SavedInPlace(t: Table, raw: string)
    requires Unique(t) && AllGood(t) && AllEnded(Pieces(raw)) && KeysOnce(LinesOf(Pieces(raw)))
    ensures InPlace(t, LinesOf(Pieces(raw)), LinesOf(Pieces(Saved(t, raw))))
  {
    var ps := Pieces(raw);
    KeptInPlace(t, ps, {});
    RestFollows(t, ps);
    PutInPlace(t, LinesOf(ps), Kept(t, ps, {}), Rest(t, Reached(t, ps, {}), 0));
    SavedIsJoin(t, raw);
    EndedLines(SavedLines(t, raw));
  }

  lemma EndedLines(lines: seq<string>)
    ensures LinesOf(Ended(lines)) == lines
  {
  }

  lemma UsedKey(t: Table, l: string, k: nat)
    requires Unique(t) && AllGood(t) && k < |t| && KeyOf(l) == t[k].key
    ensures SlotOf(t, l) == k
  {
    LookupOwn(t, k);
  }

  // ---- A file whose last line has no newline ----------------------------------

  /** Saving and reloading gives the same map, and keeps the lines of others. */
  predicate Survives(t: Table, raw: string) {
    var back := Pieces(Saved(t, raw));
    MapOf(Parse(back, [])) == MapOf(t) && Foreign(t, LinesOf(back)) == Foreign(t, LinesOf(Pieces(raw)))
  }

  predicate Unterminated(raw: string) { raw != "" && raw[|raw| - 1] != '\n' }

  /** The last line is open, it is not the table's, and an entry is still to be written. */
  predicate Glues(t: Table, raw: string) {
    var ps := Pieces(raw);
    Unterminated(raw) && ps != [] && SlotOf(t, ps[|ps| - 1].line) < 0 && Rest(t, Reached(t, ps, {}), 0) != []
  }

  lemma {:induction false} NewlineBefore(raw: string, closed: string, i: nat)
    requires i <= |raw| && closed == raw + "\n"
    ensures Newline(closed, i) == Newline(raw, i)
    decreases |raw| - i
  {
    if i < |raw| { NewlineBefore(raw, closed, i + 1); }
  }

  lemma {:induction false} ClosedPieces(raw: string, p: nat) returns (ps: seq<Piece>)
    requires p <= |raw| && !Unterminated(raw)
    ensures ps == Pieces(raw, p) && AllEnded(ps)
    decreases |raw| - p
  {
    if p == |raw| {
      ps := [];
    } else {
      var nl := Newline(raw, p);
      LinePlain(raw, p, nl);
      var rest := ClosedPieces(raw, nl + 1);
      EndedBefore(raw[p..nl], rest);
      ps := [Piece(raw[p..nl], true)] + rest;
    }
  }

  lemma LinePlain(raw: string, p: nat, nl: nat)
    requires p <= nl <= |raw| && forall j :: p <= j < nl ==> raw[j] != '\n'
    ensures '\n' !in raw[p..nl]
  {
  }

  lemma EndedBefore(line: string, rest: seq<Piece>)
    requires '\n' !in line && AllEnded(rest)
    ensures AllEnded([Piece(line, true)] + rest)
  {
  }

  /** The pieces with a newline behind the last. */
  function Closed(ps: seq<Piece>): (r: seq<Piece>)
    ensures |r| == |ps|
  {
    if ps == [] then []
    else if |ps| == 1 then [Piece(ps[0].line, true)]
    else [ps[0]] + Closed(ps[1..])
  }

  /** Whole lines, then one without its newline. */
  predicate OpenEnd(ps: seq<Piece>) {
    && ps != [] && '\n' !in ps[0].line
    && if |ps| == 1 then !ps[0].ended && ps[0].line != "" else ps[0].ended && OpenEnd(ps[1..])
  }

  /** A line before the last is the same piece of both. */
  lemma WholePiece(raw: string, closed: string, p: nat) returns (x: Piece, nl: nat)
    requires p < |raw| && closed == raw + "\n" && Newline(raw, p) < |raw|
    ensures nl == Newline(raw, p) && x.ended && '\n' !in x.line
    ensures Pieces(raw, p) == [x] + Pieces(raw, nl + 1) && Pieces(closed, p) == [x] + Pieces(closed, nl + 1)
  {
    nl := Newline(raw, p);
    NewlineBefore(raw, closed, p);
    x := Piece(raw[p..nl], true);
    PiecesFront(raw, p, nl);
    PiecesFront(closed, p, nl);
    SameLine(raw, closed, p, nl);
  }

  lemma SameLine(raw: string, closed: string, p: nat, nl: nat)
    requires p < |raw| && closed == raw + "\n" && nl == Newline(raw, p)
    ensures closed[p..nl] == raw[p..nl] && '\n' !in raw[p..nl]
  {
  }

  lemma LastPiece(raw: string, closed: string, p: nat) returns (l: string)
    requires p < |raw| && closed == raw + "\n" && Newline(raw, p) == |raw|
    ensures '\n' !in l && l != ""
    ensures Pieces(raw, p) == [Piece(l, false)] && Pieces(closed, p) == [Piece(l, true)]
  {
    l := raw[p..];
    NewlineBefore(raw, closed, p);
    assert closed[p..|raw|] == l && raw[p..|raw|] == l;
  }

  lemma PutBefore(x: Piece, rest: seq<Piece>)
    requires x.ended && '\n' !in x.line && OpenEnd(rest)
    ensures OpenEnd([x] + rest) && Closed([x] + rest) == [x] + Closed(rest)
  {
    assert ([x] + rest)[1..] == rest;
  }

  /** The second list is the first, an open file's, with the last line closed. */
  ghost predicate Opens(a: seq<Piece>, b: seq<Piece>) { OpenEnd(a) && b == Closed(a) }

  lemma OpenHere(raw: string, closed: string, p: nat)
    requires p < |raw| && closed == raw + "\n" && Newline(raw, p) == |raw|
    ensures Opens(Pieces(raw, p), Pieces(closed, p))
  {
    var _ := LastPiece(raw, closed, p);
  }

  lemma OpenBefore(raw: string, closed: string, p: nat) returns (next: nat)
    requires p < |raw| && raw[|raw| - 1] != '\n' && closed == raw + "\n" && Newline(raw, p) < |raw|
    ensures p < next < |raw|
    ensures Opens(Pieces(raw, next), Pieces(closed, next)) ==> Opens(Pieces(raw, p), Pieces(closed, p))
  {
    var x, nl := WholePiece(raw, closed, p);
    next := nl + 1;
    if Opens(Pieces(raw, next), Pieces(closed, next)) { PutBefore(x, Pieces(raw, next)); }
  }

  /** An open file ends in an open line, which a newline closes. */
  lemma {:induction false} OpenText(raw: string, closed: string, p: nat)
    requires p < |raw| && raw[|raw| - 1] != '\n' && closed == raw + "\n"
    ensures Opens(Pieces(raw, p), Pieces(closed, p))
    decreases |raw| - p
  {
    if Newline(raw, p) == |raw| {
      OpenHere(raw, closed, p);
    } else {
      var next := OpenBefore(raw, closed, p);
      OpenText(raw, closed, next);
    }
  }

  lemma {:induction false} OpenSplit(ps: seq<Piece>) returns (front: seq<Piece>, l: string)
    requires OpenEnd(ps)
    ensures ps == front + [Piece(l, false)] && Closed(ps) == front + [Piece(l, true)]
    ensures AllEnded(front) && l != "" && '\n' !in l
  {
    if |ps| == 1 {
      front, l := [], ps[0].line;
    } else {
      var rest;
      rest, l := OpenSplit(ps[1..]);
      front := [ps[0]] + rest;
    }
  }

  /** An open file is whole lines and an open one; a newline at the end closes that. */
  lemma OpenPieces(raw: string, closed: string) returns (front: seq<Piece>, l: string)
    requires Unterminated(raw) && closed == raw + "\n"
    ensures Pieces(raw) == front + [Piece(l, false)] && Pieces(closed) == front + [Piece(l, true)]
    ensures AllEnded(front) && l != "" && '\n' !in l
  {
    OpenText(raw, closed, 0);
    front, l := OpenSplit(Pieces(raw));
  }

  lemma {:induction false} RewriteAppend(t: Table, front: seq<Piece>, p: Piece, done: set<int>)
    ensures Reached(t, front + [p], done) == Marked(t, p, Reached(t, front, done))
    ensures Rewrite(t, front + [p], done) == Rewrite(t, front, done) + Written(t, p, Reached(t, front, done))
    decreases |front|
  {
    if front == [] {
      assert [p][1..] == [] && front + [p] == [p];
    } else {
      assert (front + [p])[1..] == front[1..] + [p];
      RewriteAppend(t, front[1..], p, Marked(t, front[0], done));
    }
  }

  lemma {:induction false} ParseLines(a: seq<Piece>, b: seq<Piece>, t: Table)
    requires LinesOf(a) == LinesOf(b)
    ensures Parse(a, t) == Parse(b, t)
    decreases |a|
  {
    assert |a| == |LinesOf(a)| == |b|;
    if a != [] {
      assert LinesOf(a)[0] == a[0].line && LinesOf(b)[0] == b[0].line;
      assert LinesOf(a)[1..] == LinesOf(a[1..]) && LinesOf(b)[1..] == LinesOf(b[1..]);
      ParseLines(a[1..], b[1..], if KeyOf(a[0].line) == "" then t else Store(t, KeyOf(a[0].line), ValOf(a[0].line)));
    }
  }

  lemma {:induction false} KnownLines(t: Table, a: seq<Piece>, b: seq<Piece>)
    requires LinesOf(a) == LinesOf(b) && Known(t, a)
    ensures Known(t, b)
    decreases |a|
  {
    assert |a| == |LinesOf(a)| == |b|;
    if a != [] {
      assert LinesOf(a)[0] == a[0].line && LinesOf(b)[0] == b[0].line;
      assert LinesOf(a)[1..] == LinesOf(a[1..]) && LinesOf(b)[1..] == LinesOf(b[1..]);
      KnownLines(t, a[1..], b[1..]);
    }
  }

  lemma LastLineOnly(front: seq<Piece>, l: string)
    ensures LinesOf(front + [Piece(l, false)]) == LinesOf(front + [Piece(l, true)]) == LinesOf(front) + [l]
  {
  }

  /** What is saved over whole lines and a last one the table does not know. */
  lemma SavedOpen(t: Table, raw: string, front: seq<Piece>, last: Piece) returns (rest: seq<string>)
    requires Pieces(raw) == front + [last] && SlotOf(t, last.line) < 0
    ensures rest == Rest(t, Reached(t, front, {}), 0) == Rest(t, Reached(t, Pieces(raw), {}), 0)
    ensures Saved(t, raw) == Rewrite(t, front, {}) + (last.line + if last.ended then "\n" else "") + Join(rest)
  {
    RewriteAppend(t, front, last, {});
    rest := Rest(t, Reached(t, front, {}), 0);
  }

  lemma SavedOwn(t: Table, raw: string, closed: string, front: seq<Piece>, l: string)
    requires Pieces(raw) == front + [Piece(l, false)] && Pieces(closed) == front + [Piece(l, true)]
    requires SlotOf(t, l) >= 0
    ensures Saved(t, raw) == Saved(t, closed)
  {
    RewriteAppend(t, front, Piece(l, false), {});
    RewriteAppend(t, front, Piece(l, true), {});
  }

  /** A newline behind an open file changes no line. */
  lemma ClosingKeepsLines(raw: string, closed: string)
    requires Unterminated(raw) && closed == raw + "\n"
    ensures LinesOf(Pieces(raw)) == LinesOf(Pieces(closed)) && Parse(Pieces(raw), []) == Parse(Pieces(closed), [])
  {
    var front, l := OpenPieces(raw, closed);
    LastLineOnly(front, l);
    ParseLines(Pieces(raw), Pieces(closed), []);
  }

  lemma EndsLike(head: string, l: string)
    requires l != "" && '\n' !in l
    ensures Unterminated(head + l)
  {
    assert (head + l)[|head + l| - 1] == l[|l| - 1] && l[|l| - 1] in l;
  }

  /** With nothing to glue, the open file is saved as the closed one, up to that newline. */
  lemma SavedAlike(t: Table, raw: string, closed: string)
    requires Unterminated(raw) && closed == raw + "\n" && !Glues(t, raw)
    ensures Saved(t, raw) == Saved(t, closed) || (Unterminated(Saved(t, raw)) && Saved(t, closed) == Saved(t, raw) + "\n")
  {
    var front, l := OpenPieces(raw, closed);
    if SlotOf(t, l) >= 0 {
      SavedOwn(t, raw, closed, front, l);
    } else {
      var none := SavedOpen(t, raw, front, Piece(l, false));
      var same := SavedOpen(t, closed, front, Piece(l, true));
      var head := Rewrite(t, front, {});
      assert none == [] && same == [];
      Regroup(head, l, "");
      EndsLike(head, l);
    }
  }

  lemma OpenSurvives(t: Table, raw: string)
    requires Unique(t) && AllGood(t) && |t| <= KV_MAX
    requires Unterminated(raw) && Known(t, Pieces(raw)) && !Glues(t, raw)
    ensures Survives(t, raw)
  {
    var closed := raw + "\n";
    ClosingKeepsLines(raw, closed);
    KnownLines(t, Pieces(raw), Pieces(closed));
    var _ := ClosedPieces(closed, 0);
    SaveReload(t, closed);
    SavedAlike(t, raw, closed);
    if Saved(t, raw) != Saved(t, closed) { ClosingKeepsLines(Saved(t, raw), Saved(t, closed)); }
  }

  lemma JoinedLines(out: string, lines: seq<string>)
    requires LineFree(lines) && out == Join(lines)
    ensures LinesOf(Pieces(out)) == lines
  {
    assert out[0..] == out;
    PiecesOfJoin(out, 0, lines);
  }

  lemma JoinGlued(kept: seq<string>, l: string, rest: seq<string>) returns (lines: seq<string>)
    requires LineFree(kept) && LineFree(rest) && '\n' !in l && rest != []
    ensures lines == kept + ([l + rest[0]] + rest[1..]) && LineFree(lines)
    ensures Join(lines) == Join(kept) + (l + Join(rest))
  {
    var tail := [l + rest[0]] + rest[1..];
    lines := kept + tail;
    JoinConcat(kept, tail);
    assert tail[1..] == rest[1..];
    assert l + (rest[0] + "\n" + Join(rest[1..])) == l + rest[0] + "\n" + Join(rest[1..]);
  }

  /** The lines saved when an entry is glued to the open line. */
  lemma GluedLines(out: string, kept: seq<string>, l: string, rest: seq<string>)
    requires LineFree(kept) && LineFree(rest) && '\n' !in l && rest != []
    requires out == Join(kept) + (l + Join(rest))
    ensures LinesOf(Pieces(out)) == kept + ([l + rest[0]] + rest[1..])
  {
    var lines := JoinGlued(kept, l, rest);
    JoinedLines(out, lines);
  }

  lemma SavedGlued(t: Table, raw: string, front: seq<Piece>, l: string) returns (rest: seq<string>)
    requires AllGood(t) && AllEnded(front) && Pieces(raw) == front + [Piece(l, false)] && SlotOf(t, l) < 0
    ensures rest == Rest(t, Reached(t, front, {}), 0) == Rest(t, Reached(t, Pieces(raw), {}), 0) && LineFree(rest)
    ensures LineFree(Kept(t, front, {})) && Saved(t, raw) == Join(Kept(t, front, {})) + (l + Join(rest))
  {
    rest := SavedOpen(t, raw, front, Piece(l, false));
    RewriteIsJoin(t, front, {});
    RestLines(t, Reached(t, front, {}), 0);
    var head := Rewrite(t, front, {});
    Regroup(head, l, Join(rest));
  }

  lemma Regroup(a: string, l: string, b: string)
    ensures a + (l + "") + b == a + (l + b)
    ensures b == "" ==> a + (l + "") + b == a + l && a + (l + "\n") + b == a + l + "\n"
  {
  }

  lemma OneForeign(t: Table, l: string)
    ensures Foreign(t, [l]) == if SlotOf(t, l) < 0 then [l] else []
  {
    assert [l][1..] == [];
  }

  lemma ForeignBefore(t: Table, kept: seq<string>, glued: string, tail: seq<string>)
    requires Foreign(t, tail) == []
    ensures Foreign(t, kept + ([glued] + tail)) == Foreign(t, kept) + Foreign(t, [glued])
  {
    ForeignConcat(t, kept, [glued] + tail);
    ForeignConcat(t, [glued], tail);
    assert Foreign(t, [glued]) + [] == Foreign(t, [glued]);
  }

  lemma OtherLast(a: seq<string>, b: seq<string>, glued: string, l: string)
    requires |glued| > |l| && (b == [] || b == [glued])
    ensures a + b != a + [l]
  {
    assert b == [glued] ==> (a + b)[|a|] == glued && (a + [l])[|a|] == l;
  }

  lemma ForeignGlued(t: Table, kept: seq<string>, l: string, glued: string, tail: seq<string>)
    requires |glued| > |l| && Foreign(t, tail) == []
    ensures Foreign(t, kept + ([glued] + tail)) != Foreign(t, kept) + [l]
  {
    ForeignBefore(t, kept, glued, tail);
    OneForeign(t, glued);
    OtherLast(Foreign(t, kept), Foreign(t, [glued]), glued, l);
  }

  lemma ForeignTail(t: Table, rest: seq<string>)
    requires rest != [] && Foreign(t, rest) == []
    ensures Foreign(t, rest[1..]) == []
  {
    assert |Foreign(t, rest)| >= |Foreign(t, rest[1..])|;
  }

  /** Otherwise the open line is lost: it comes back with an entry behind it. */
  lemma GluedLost(t: Table, raw: string)
    requires Unique(t) && AllGood(t) && Glues(t, raw)
    ensures Foreign(t, LinesOf(Pieces(Saved(t, raw)))) != Foreign(t, LinesOf(Pieces(raw)))
  {
    var front, l := OpenPieces(raw, raw + "\n");
    LastLineOnly(front, l);
    var rest := SavedGlued(t, raw, front, l);
    GluedLines(Saved(t, raw), Kept(t, front, {}), l, rest);
    KeptForeign(t, front, {});
    RestForeign(t, Reached(t, front, {}), 0);
    RestFull(t, Reached(t, front, {}), 0);
    ForeignTail(t, rest);
    ForeignGlued(t, Kept(t, front, {}), l, l + rest[0], rest[1..]);
    ForeignConcat(t, LinesOf(front), [l]);
    OneForeign(t, l);
  }

  lemma {:induction false} RestFull(t: Table, done: set<int>, i: nat)
    requires i <= |t|
    ensures Rest(t, done, i) != [] ==> Rest(t, done, i)[0] != ""
    decreases |t| - i
  {
    if i < |t| { RestFull(t, done, i + 1); }
  }

  /** Over any file whose keys the table knows, saving and reloading gives the same map and
      keeps every other line, unless an entry is glued to an open last line. */
  lemma SaveReloadIff(t: Table, raw: string)
    requires Unique(t) && AllGood(t) && |t| <= KV_MAX && Known(t, Pieces(raw))
    ensures Survives(t, raw) <==> !Glues(t, raw)
  {
    if Glues(t, raw) {
      GluedLost(t, raw);
    } else if Unterminated(raw) {
      OpenSurvives(t, raw);
    } else {
      var _ := ClosedPieces(raw, 0);
      SaveReload(t, raw);
    }
  }

  // ---- From file to file ------------------------------------------------------

  lemma {:induction false} TrimLeftIs(s: string)
    ensures var r := TrimLeft(s);
            (r != "" ==> !Blank(r[0])) && |r| <= |s| && r == s[|s| - |r|..] && (forall c :: c in r ==> c in s)
  {
    if s != "" && Blank(s[0]) { TrimLeftIs(s[1..]); }
  }

  lemma {:induction false} TrimRightIs(s: string)
    ensures var r := TrimRight(s); (r != "" ==> !Blank(r[|r| - 1])) && |r| <= |s| && r == s[..|r|]
  {
    if s != "" && Blank(s[|s| - 1]) { TrimRightIs(s[..|s| - 1]); }
  }

  lemma {:induction false} EqualsFirst(s: string, i: nat)
    requires i <= |s|
    ensures forall j :: i <= j < Equals(s, i) ==> s[j] != '='
    decreases |s| - i
  {
    if i < |s| && s[i] != '=' { EqualsFirst(s, i + 1); }
  }

  /** The value a line sets before it is cut to size. */
  function WholeVal(line: string): string {
    var s := TrimLeft(line);
    if Equals(s) == |s| then "" else TrimRight(TrimLeft(s[Equals(s) + 1..]))
  }

  lemma KeyGood(line: string) returns (key: string)
    requires '\n' !in line && KeyOf(line) != ""
    ensures key == KeyOf(line) && |key| < KEY_MAX && '=' !in key && '\n' !in key
    ensures !Blank(key[0]) && !Blank(key[|key| - 1]) && key[0] != '#' && key[0] != ';'
  {
    var s := TrimLeft(line);
    TrimLeftIs(line);
    EqualsFirst(s, 0);
    TrimRightIs(s[..Equals(s)]);
    key := KeyOf(line);
    assert forall c :: c in key ==> c in s[..Equals(s)];
    assert key[0] == s[0];
  }

  lemma ValGood(line: string) returns (val: string)
    requires '\n' !in line && |WholeVal(line)| < VAL_MAX
    ensures val == ValOf(line) == WholeVal(line) && '\n' !in val && (val != "" ==> !Blank(val[0]) && !Blank(val[|val| - 1]))
  {
    var s := TrimLeft(line);
    TrimLeftIs(line);
    val := "";
    if Equals(s) < |s| {
      var v := s[Equals(s) + 1..];
      assert '\n' !in v by { assert forall c :: c in v ==> c in s; }
      val := TrimBoth(v);
    }
  }

  lemma TrimBoth(v: string) returns (val: string)
    requires '\n' !in v
    ensures val == TrimRight(TrimLeft(v)) && '\n' !in val && (val != "" ==> !Blank(val[0]) && !Blank(val[|val| - 1]))
  {
    var u := TrimLeft(v);
    TrimLeftIs(v);
    TrimRightIs(u);
    val := TrimRight(u);
    assert '\n' !in u;
    assert val == u[..|val|];
  }

  /** A line whose value, if it sets a key, is not cut. */
  predicate Uncut(p: Piece) { '\n' !in p.line && (KeyOf(p.line) != "" ==> |WholeVal(p.line)| < VAL_MAX) }

  /** Every key of the file finds room. */
  predicate Fits(pieces: seq<Piece>, t: Table) {
    pieces == [] ||
    var l := pieces[0].line;
    if KeyOf(l) == "" then Fits(pieces[1..], t)
    else (Lookup(t, KeyOf(l)) >= 0 || |t| < KV_MAX) && Fits(pieces[1..], Store(t, KeyOf(l), ValOf(l)))
  }

  /** What loading and setting keep of a table over its file. */
  predicate Sound(t: Table) { Unique(t) && AllGood(t) && |t| <= KV_MAX }

  /** Every key of t is one of r. */
  ghost predicate Grows(t: Table, r: Table) { forall k :: Lookup(t, k) >= 0 ==> Lookup(r, k) >= 0 }

  lemma StoreSound(t: Table, e: Entry) returns (r: Table)
    requires Sound(t) && Good(e)
    ensures r == Store(t, e.key, e.val) && Sound(r) && Grows(t, r)
    ensures Lookup(t, e.key) >= 0 || |t| < KV_MAX ==> Lookup(r, e.key) >= 0 && MapOf(r) == MapOf(t)[e.key := e.val]
  {
    r := Store(t, e.key, e.val);
    StoreIsUpdate(t, e.key, e.val);
    MapHas(t, e.key);
    forall k | Lookup(t, k) >= 0 ensures Lookup(r, k) >= 0 {
      var i := Lookup(t, k);
      assert r[i].key == t[i].key;
    }
    if Lookup(t, e.key) < 0 && |t| < KV_MAX { assert r[|t|].key == e.key; }
  }

  lemma LineSound(p: Piece) returns (e: Entry)
    requires Uncut(p) && KeyOf(p.line) != ""
    ensures e == Entry(KeyOf(p.line), ValOf(p.line)) && Good(e)
  {
    var key := KeyGood(p.line);
    var val := ValGood(p.line);
    e := Entry(key, val);
  }

  /** A table parsed from whole lines, each key with room, is sound and knows the lines. */
  lemma {:induction false} ParseSound(pieces: seq<Piece>, t: Table) returns (r: Table)
    requires Sound(t) && (forall p :: p in pieces ==> Uncut(p)) && Fits(pieces, t)
    ensures r == Parse(pieces, t) && Sound(r) && Grows(t, r) && Known(r, pieces)
    decreases |pieces|
  {
    r := t;
    if pieces != [] {
      var l := pieces[0].line;
      if KeyOf(l) == "" {
        r := ParseSound(pieces[1..], t);
      } else {
        var e := LineSound(pieces[0]);
        var m := StoreSound(t, e);
        r := ParseSound(pieces[1..], m);
        assert Lookup(r, e.key) >= 0;
      }
    }
  }

  /** iso_settings_kv_set, over and over. */
  function StoreAll(t: Table, sets: seq<Entry>): Table {
    if sets == [] then t
    else Store(StoreAll(t, sets[..|sets| - 1]), sets[|sets| - 1].key, sets[|sets| - 1].val)
  }

  function UpdateAll(m: map<string, string>, sets: seq<Entry>): map<string, string> {
    if sets == [] then m else UpdateAll(m, sets[..|sets| - 1])[sets[|sets| - 1].key := sets[|sets| - 1].val]
  }

  lemma {:induction false} StoreAllSound(t: Table, sets: seq<Entry>) returns (r: Table)
    requires Sound(t) && forall e :: e in sets ==> Good(e)
    ensures r == StoreAll(t, sets) && Sound(r) && Grows(t, r) && |r| <= |t| + |sets|
    ensures |t| + |sets| <= KV_MAX ==> MapOf(r) == UpdateAll(MapOf(t), sets)
    decreases |sets|
  {
    r := t;
    if sets != [] {
      var m := StoreAllSound(t, sets[..|sets| - 1]);
      r := StoreSound(m, sets[|sets| - 1]);
    }
  }

  lemma {:induction false} KnownGrows(t: Table, r: Table, pieces: seq<Piece>)
    requires Known(t, pieces) && Grows(t, r)
    ensures Known(r, pieces)
  {
    if pieces != [] { KnownGrows(t, r, pieces[1..]); }
  }

  // ---- What a long file loses -------------------------------------------------

  /** The pieces b are the first ones of a, except that the last of b may be cut. */
  predicate CutOff(a: seq<Piece>, b: seq<Piece>) {
    b == [] ||
    (a != [] &&
     if |b| == 1 then b[0].line <= a[0].line && (b[0].ended ==> b[0] == a[0])
     else b[0] == a[0] && CutOff(a[1..], b[1..]))
  }

  lemma {:induction false} NewlineCut(file: string, n: nat, i: nat)
    requires i <= n <= |file|
    ensures Newline(file[..n], i) == if Newline(file, i) < n then Newline(file, i) else n
    decreases n - i
  {
    if i < n { NewlineCut(file, n, i + 1); }
  }

  /** A text cut short keeps its first lines whole and loses what is behind the cut. */
  lemma {:induction false} CutPieces(file: string, raw: string, p: nat) returns (a: seq<Piece>, b: seq<Piece>)
    requires |raw| <= |file| && raw == file[..|raw|] && p <= |raw|
    ensures a == Pieces(file, p) && b == Pieces(raw, p) && CutOff(a, b)
    decreases |raw| - p
  {
    if p == |raw| {
      a, b := Pieces(file, p), [];
    } else {
      var nl := Newline(file, p);
      NewlineCut(file, |raw|, p);
      if nl < |raw| {
        a, b := CutPieces(file, raw, nl + 1);
        var x := LineOfBoth(file, raw, p, nl);
        CutBefore(x, a, b);
        a, b := [x] + a, [x] + b;
      } else {
        CutLine(file, raw, p, nl);
        a, b := Pieces(file, p), Pieces(raw, p);
      }
    }
  }

  lemma LineOfBoth(file: string, raw: string, p: nat, nl: nat) returns (x: Piece)
    requires |raw| <= |file| && raw == file[..|raw|] && p <= nl < |raw| && nl == Newline(file, p) == Newline(raw, p)
    ensures x.ended && Pieces(file, p) == [x] + Pieces(file, nl + 1) && Pieces(raw, p) == [x] + Pieces(raw, nl + 1)
  {
    SameSlice(file, raw, p, nl);
    x := Piece(file[p..nl], true);
    PiecesFront(file, p, nl);
    PiecesFront(raw, p, nl);
  }

  lemma SameSlice(file: string, raw: string, p: nat, nl: nat)
    requires |raw| <= |file| && raw == file[..|raw|] && p <= nl <= |raw|
    ensures raw[p..nl] == file[p..nl]
  {
  }

  lemma CutLine(file: string, raw: string, p: nat, nl: nat)
    requires p < |raw| <= |file| && raw == file[..|raw|] && nl == Newline(file, p) >= |raw| == Newline(raw, p)
    ensures CutOff(Pieces(file, p), Pieces(raw, p))
  {
    assert raw[p..|raw|] == file[p..|raw|] <= file[p..nl];
  }

  lemma CutBefore(x: Piece, a: seq<Piece>, b: seq<Piece>)
    requires CutOff(a, b) && x.ended
    ensures CutOff([x] + a, [x] + b)
  {
    assert ([x] + a)[1..] == a && ([x] + b)[1..] == b;
  }

  function Size(pieces: seq<Piece>): nat {
    if pieces == [] then 0 else |pieces[0].line| + (if pieces[0].ended then 1 else 0) + Size(pieces[1..])
  }

  lemma SizeFront(x: Piece, rest: seq<Piece>)
    ensures Size([x] + rest) == |x.line| + (if x.ended then 1 else 0) + Size(rest)
  {
    assert ([x] + rest)[1..] == rest;
  }

  lemma {:induction false} PiecesSize(raw: string, p: nat) returns (ps: seq<Piece>)
    requires p <= |raw|
    ensures ps == Pieces(raw, p) && Size(ps) == |raw| - p
    decreases |raw| - p
  {
    if p == |raw| {
      ps := [];
    } else {
      var nl := Newline(raw, p);
      PiecesFront(raw, p, nl);
      var x := Piece(raw[p..nl], nl < |raw|);
      var rest := PiecesSize(raw, Next(raw, nl));
      SizeFront(x, rest);
      ps := [x] + rest;
    }
  }

  /** Loading keeps every line if and only if the file fits the buffer, and else the lines in
      front of the cut; nothing behind it is there to be saved. */
  lemma LoadCuts(file: string)
    ensures CutOff(Pieces(file), Pieces(Capped(file, 16384)))
    ensures Pieces(Capped(file, 16384)) == Pieces(file) <==> |file| < 16384
  {
    var n := if |file| >= RAW_MAX then RAW_MAX - 1 else |file|;
    var raw := file[..n];
    assert Capped(file, RAW_MAX) == raw;
    var a, b := CutPieces(file, raw, 0);
    a := PiecesSize(file, 0);
    b := PiecesSize(raw, 0);
  }

  /** Load a file, set keys, save, load again.  If the file's keys find room and its values
      are not cut, the keys set can be written, and the text saved fits the load buffer, the
      table comes back and the lines of others stay, exactly unless an entry is glued; and
      with room for the keys set, the map is the file's with those updates.  The lines are those
      the load kept: all if and only if the file fits the buffer, else those before the cut. */
  lemma SetSaveReload(file: string, sets: seq<Entry>)
    requires forall e :: e in sets ==> Good(e)
    requires (forall p :: p in Pieces(Capped(file, RAW_MAX)) ==> Uncut(p)) && Fits(Pieces(Capped(file, RAW_MAX)), [])
    requires |Saved(StoreAll(Parse(Pieces(Capped(file, RAW_MAX)), []), sets), Capped(file, RAW_MAX))| < RAW_MAX
    ensures var raw := Capped(file, RAW_MAX); var t0 := Parse(Pieces(raw), []); var t := StoreAll(t0, sets);
            var back := Pieces(Capped(Saved(t, raw), RAW_MAX));
            && (MapOf(Parse(back, [])) == MapOf(t) && Foreign(t, LinesOf(back)) == Foreign(t, LinesOf(Pieces(raw)))
                <==> !Glues(t, raw))
            && (|t0| + |sets| <= KV_MAX ==> MapOf(t) == UpdateAll(MapOf(t0), sets))
            && CutOff(Pieces(file), Pieces(raw)) && (Pieces(raw) == Pieces(file) <==> |file| < RAW_MAX)
  {
    LoadCuts(file);
    var raw := Capped(file, RAW_MAX);
    var t0 := ParseSound(Pieces(raw), []);
    var t := StoreAllSound(t0, sets);
    KnownGrows(t0, t, Pieces(raw));
    SaveReloadIff(t, raw);
  }

  // ---- The file object --------------------------------------------------------

  class KvFile {
    const kv: array<Entry>
    var count: nat
    var raw: string

    ghost predicate Valid()
      reads this
    {
      kv.Length == KV_MAX && count <= KV_MAX
    }

    ghost function View(): Table
      reads this, kv
      requires Valid()
    {
      kv[..count]
    }

    /** iso_settings_kv_load: the text within the buffer's size, then kv_parse over it. */
    constructor (file: string)
      ensures Valid() && fresh(kv) && raw == (if |file| < 16384 then file else file[..16383]) && View() == Parse(Pieces(raw), [])
    {
      kv := new Entry[KV_MAX](i => Entry("", ""));
      count, raw := 0, Capped(file, RAW_MAX);
      new;
      var p := 0;
      while p < |raw|
        invariant Valid() && p <= |raw| && raw == Capped(file, RAW_MAX)
        invariant Parse(Pieces(raw, p), View()) == Parse(Pieces(raw), [])
      {
        var nl := FindNewline(raw, p);
        var line := raw[p..nl];
        ParseFront(raw, p, nl, View());
        if KeyOf(line) != "" {
          var _ := StoreEntry(KeyOf(line), ValOf(line));
        }
        p := Next(raw, nl);
      }
    }

    /** kv_store */
    method StoreEntry(key: string, val: string) returns (ok: bool)
      requires Valid()
      modifies this`count, kv
      ensures Valid() && View() == Store(old(View()), key, val)
      ensures ok <==> Lookup(old(View()), key) >= 0 || old(count) < 48
    {
      var i := FindKey(key);
      if i >= 0 {
        kv[i] := kv[i].(val := Capped(val, VAL_MAX));
        return true;
      }
      if count >= KV_MAX { return false; }
      kv[count] := Entry(Capped(key, KEY_MAX), Capped(val, VAL_MAX));
      count := count + 1;
      assert kv[..count] == old(kv[..count]) + [Entry(Capped(key, KEY_MAX), Capped(val, VAL_MAX))];
      return true;
    }

    method FindKey(key: string) returns (r: int)
      requires Valid()
      ensures r == Lookup(View(), key)
    {
      for i := 0 to count
        invariant Lookup(View(), key) == Lookup(View(), key, i)
      {
        assert kv[i] == View()[i];
        if kv[i].key == key { return i; }
      }
      return -1;
    }

    /** iso_settings_kv_set */
    method Set(key: string, val: string) returns (ok: bool)
      requires Valid()
      modifies this`count, kv
      ensures Valid() && View() == if key == "" then old(View()) else Store(old(View()), key, val)
      ensures ok <==> key != "" && (Lookup(old(View()), key) >= 0 || old(count) < KV_MAX)
    {
      if key == "" { return false; }
      ok := StoreEntry(key, val);
    }

    /** iso_settings_kv_get */
    method Value(key: string) returns (found: bool, val: string)
      requires Valid()
      ensures found <==> Lookup(View(), key) >= 0
      ensures found ==> val == View()[Lookup(View(), key)].val
    {
      var i := FindKey(key);
      if i < 0 { return false, ""; }
      assert kv[i] == View()[i];
      return true, kv[i].val;
    }

    /** One line of the first loop: its slot and what to write. */
    method WriteLine(p: Piece, done: set<int>) returns (piece: string, done': set<int>)
      requires Valid()
      ensures piece == Written(View(), p, done) && done' == Marked(View(), p, done)
    {
      var i := -1;
      if KeyOf(p.line) != "" { i := FindKey(KeyOf(p.line)); }
      assert i == SlotOf(View(), p.line);
      if i < 0 { return p.line + (if p.ended then "\n" else ""), done; }
      assert kv[i] == View()[i];
      return if i in done then "" else Format(kv[i]) + "\n", done + {i};
    }

    /** The first loop. */
    method SaveLines() returns (ok: bool, out: string, done: set<int>)
      requires Valid()
      ensures ok ==> out == Rewrite(View(), Pieces(raw), {}) && |out| < OUT_MAX && done == Reached(View(), Pieces(raw), {})
      ensures !ok ==> |Rewrite(View(), Pieces(raw), {})| >= OUT_MAX
    {
      var p := 0;
      out, done := "", {};
      while p < |raw|
        invariant p <= |raw| && |out| < OUT_MAX
        invariant out + Rewrite(View(), Pieces(raw, p), done) == Rewrite(View(), Pieces(raw), {})
        invariant Reached(View(), Pieces(raw, p), done) == Reached(View(), Pieces(raw), {})
      {
        var nl := FindNewline(raw, p);
        var piece, done' := WriteLine(Piece(raw[p..nl], nl < |raw|), done);
        RewriteStep(View(), raw, p, nl, done, out);
        if |out| + |piece| >= OUT_MAX { return false, "", {}; }
        out, done := out + piece, done';
        p := Next(raw, nl);
      }
      ok := true;
    }

    /** iso_settings_kv_save up to the write: refused exactly when the text outgrows the
        buffer, else the text to write. */
    method Save() returns (ok: bool, out: string)
      requires Valid()
      ensures ok <==> |Saved(View(), raw)| < 33280
      ensures ok ==> out == Saved(View(), raw)
    {
      var done;
      ok, out, done := SaveLines();
      if !ok { return; }
      for i := 0 to count
        invariant |out| < OUT_MAX && out + Join(Rest(View(), done, i)) == Saved(View(), raw)
      {
        assert kv[i] == View()[i];
        RestStep(View(), done, i, out);
        if i !in done {
          var piece := Format(kv[i]) + "\n";
          if |out| + |piece| >= OUT_MAX { return false, ""; }
          out := out + piece;
        }
      }
    }
  }

  lemma RewriteStep(t: Table, raw: string, p: nat, nl: nat, done: set<int>, out: string)
    requires p < |raw| && nl == Newline(raw, p)
    ensures var x := Piece(raw[p..nl], nl < |raw|); var ps := Pieces(raw, Next(raw, nl));
            && out + Rewrite(t, Pieces(raw, p), done) == out + Written(t, x, done) + Rewrite(t, ps, Marked(t, x, done))
            && Reached(t, Pieces(raw, p), done) == Reached(t, ps, Marked(t, x, done))
  {
    var x, ps := Piece(raw[p..nl], nl < |raw|), Pieces(raw, Next(raw, nl));
    PiecesFront(raw, p, nl);
    RewriteFront(t, x, ps, done, out);
  }

  lemma PiecesFront(raw: string, p: nat, nl: nat)
    requires p < |raw| && nl == Newline(raw, p)
    ensures Pieces(raw, p) == [Piece(raw[p..nl], nl < |raw|)] + Pieces(raw, Next(raw, nl))
  {
  }

  lemma RewriteFront(t: Table, x: Piece, ps: seq<Piece>, done: set<int>, out: string)
    ensures out + Rewrite(t, [x] + ps, done) == out + Written(t, x, done) + Rewrite(t, ps, Marked(t, x, done))
    ensures Reached(t, [x] + ps, done) == Reached(t, ps, Marked(t, x, done))
  {
    assert ([x] + ps)[1..] == ps;
  }

  lemma RestStep(t: Table, done: set<int>, i: nat, out: string)
    requires i < |t|
    ensures out + Join(Rest(t, done, i))
         == (if i in done then out else out + (Format(t[i]) + "\n")) + Join(Rest(t, done, i + 1))
  {
    var rest := Rest(t, done, i + 1);
    if i in done {
      assert [] + rest == rest;
    } else {
      assert ([Format(t[i])] + rest)[1..] == rest;
    }
  }

  method FindNewline(raw: string, p: nat) returns (nl: nat)
    requires p <= |raw|
    ensures nl == Newline(raw, p)
  {
    nl := p;
    while nl < |raw| && raw[nl] != '\n'
      invariant p <= nl <= |raw| && Newline(raw, p) == Newline(raw, nl)
    {
      nl := nl + 1;
    }
  }

  /** Without the final newline the promise fails: a new entry is glued to the last line. */
  lemma UnterminatedLoses()
    ensures var t := [Entry("a", "b")]; var raw := "# c";
            Saved(t, raw) == "# ca=b\n" && KeyOf("# ca=b") == ""
  {
    var t, raw := [Entry("a", "b")], "# c";
    assert Newline(raw, 3) == 3 && Newline(raw, 2) == 3 && Newline(raw, 1) == 3 && Newline(raw, 0) == 3;
    assert raw[0..3] == "# c";
    assert Pieces(raw) == [Piece("# c", false)];
    assert KeyOf("# c") == "";
    assert Pieces(raw)[1..] == [];
    assert Rewrite(t, Pieces(raw), {}) == "# c" + "" + "";
    assert Reached(t, Pieces(raw), {}) == {};
    assert Format(t[0]) == "a=b";
    assert Rest(t, {}, 1) == [] && Rest(t, {}, 0) == ["a=b"] + [];
    assert ["a=b"][1..] == [] && Join(["a=b"]) == "a=b" + "\n" + "";
  }
}
