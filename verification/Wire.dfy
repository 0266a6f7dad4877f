// The wire format (scene_fmt.c): little-endian fields, the FNV-1a checksum and
// the frame check.  No single corrupted byte can turn one passing frame into
// another of the same length.
module Wire {
  import opened Pixels

  // ---- Little-endian fields ---------------------------------------------------

  /** 256 to the n-th power. */
  function Radix(n: nat): (p: nat)
    ensures p > 0
  {
    if n == 0 then 1 else 256 * Radix(n - 1)
  }

  /** The n low bytes of v, lowest first. */
  function Put(v: nat, n: nat): (b: seq<Byte>)
    ensures |b| == n
  {
    if n == 0 then [] else [v % 256] + Put(v / 256, n - 1)
  }

  function Get(b: seq<Byte>): nat {
    if b == [] then 0 else b[0] + 256 * Get(b[1..])
  }

  lemma {:induction false} GetBound(b: seq<Byte>)
    ensures Get(b) < Radix(|b|)
  {
    if b != [] { GetBound(b[1..]); }
  }

  /** A value that fits its field comes back. */
  lemma {:induction false} GetPut(v: nat, n: nat)
    requires v < Radix(n)
    ensures Get(Put(v, n)) == v
  {
    if n > 0 {
      GetPut(v / 256, n - 1);
      assert Put(v, n)[1..] == Put(v / 256, n - 1);
    }
  }

  /** And every field is the encoding of its value: decoding is one to one. */
  lemma {:induction false} PutGet(b: seq<Byte>)
    ensures Put(Get(b), |b|) == b
  {
    if b != [] {
      PutGet(b[1..]);
      assert Get(b) % 256 == b[0] && Get(b) / 256 == Get(b[1..]);
    }
  }

  /** scene_put_u64's loop; the two- and four-byte puts are the same unrolled. */
  method PutAt(p: array<Byte>, at: nat, v: nat, n: nat)
    requires at + n <= p.Length
    modifies p
    ensures p[..] == old(p[..at]) + Put(v, n) + old(p[at + n..])
  {
    var rest := v;
    for i := 0 to n
      invariant p[..at] == old(p[..at]) && p[at + n..] == old(p[at + n..])
      invariant p[at..at + i] + Put(rest, n - i) == Put(v, n)
    {
      p[at + i] := rest % 256;
      assert p[at..at + i + 1] == p[at..at + i] + [rest % 256];
      rest := rest / 256;
    }
    assert p[..] == p[..at] + p[at..at + n] + p[at + n..];
  }

  /** scene_get_u64's loop over n bytes. */
  method GetAt(p: seq<Byte>, n: nat) returns (v: nat)
    requires n <= |p|
    ensures v == Get(p[..n])
  {
    v := 0;
    for i := n downto 0
      invariant v == Get(p[i..n])
    {
      assert p[i..n][1..] == p[i + 1..n];
      v := p[i] + 256 * v;
    }
  }

  // ---- FNV-1a -----------------------------------------------------------------

  const WORD: nat := 0x1_0000_0000
  const FNV_START: nat := 2166136261
  const FNV_PRIME: nat := 16777619

  function Xor(a: nat, b: nat, bits: nat): nat {
    if bits == 0 then 0 else (a + b) % 2 + 2 * Xor(a / 2, b / 2, bits - 1)
  }

  lemma {:induction false} XorBound(a: nat, b: nat, bits: nat)
    requires bits == 8
    ensures Xor(a, b, bits) < 256
  {
    var a1, b1 := a / 2, b / 2;
    var a2, b2 := a1 / 2, b1 / 2;
    var a3, b3 := a2 / 2, b2 / 2;
    var a4, b4 := a3 / 2, b3 / 2;
    var a5, b5 := a4 / 2, b4 / 2;
    var a6, b6 := a5 / 2, b5 / 2;
    assert Xor(a6 / 2, b6 / 2, 1) <= 1;
    assert Xor(a6, b6, 2) <= 3;
    assert Xor(a5, b5, 3) <= 7;
    assert Xor(a4, b4, 4) <= 15;
    assert Xor(a3, b3, 5) <= 31;
    assert Xor(a2, b2, 6) <= 63;
    assert Xor(a1, b1, 7) <= 127;
  }

  lemma {:induction false} XorCancels(a: nat, a': nat, b: nat, b': nat, bits: nat)
    requires Xor(a, b, bits) == Xor(a', b', bits)
    requires a < Two(bits) && a' < Two(bits) && b < Two(bits) && b' < Two(bits)
    ensures a == a' <==> b == b'
  {
    if bits > 0 {
      var r, r' := Xor(a / 2, b / 2, bits - 1), Xor(a' / 2, b' / 2, bits - 1);
      assert (a + b) % 2 + 2 * r == (a' + b') % 2 + 2 * r';
      assert (a + b) % 2 == (a' + b') % 2 && r == r';
      XorCancels(a / 2, a' / 2, b / 2, b' / 2, bits - 1);
      ParityCancels(a, a', b, b');
      Halves(a, a');
      Halves(b, b');
    }
  }

  lemma ParityCancels(a: nat, a': nat, b: nat, b': nat)
    requires (a + b) % 2 == (a' + b') % 2
    ensures a % 2 == a' % 2 <==> b % 2 == b' % 2
  {
  }

  lemma Halves(a: nat, b: nat)
    ensures a == b <==> a / 2 == b / 2 && a % 2 == b % 2
  {
  }

  function Two(bits: nat): nat { if bits == 0 then 1 else 2 * Two(bits - 1) }

  /** `h ^ byte`: a byte touches the low eight bits only. */
  function XorLow(h: nat, b: Byte): nat { 256 * (h / 256) + Xor(h % 256, b, 8) }

  lemma XorLowParts(h: nat, b: Byte)
    ensures XorLow(h, b) / 256 == h / 256 && XorLow(h, b) % 256 == Xor(h % 256, b, 8)
    ensures h < WORD ==> XorLow(h, b) < WORD
  {
    XorBound(h % 256, b, 8);
    Joined(h / 256, Xor(h % 256, b, 8));
  }

  lemma Joined(q: nat, x: nat)
    requires x < 256
    ensures (256 * q + x) / 256 == q && (256 * q + x) % 256 == x
  {
  }

  /** `h ^= byte; h *= prime` on 32-bit words. */
  function FnvStep(h: nat, b: Byte): (r: nat)
    ensures r < WORD
  {
    Scramble(XorLow(h, b))
  }

  function Scramble(x: nat): (r: nat)
    ensures r < WORD
  {
    x * FNV_PRIME % WORD
  }

  function Fnv(h: nat, data: seq<Byte>): nat {
    if data == [] then h else FnvStep(Fnv(h, data[..|data| - 1]), data[|data| - 1])
  }

  /** Bit k of n, the lowest being bit 0. */
  function Bit(n: nat, k: nat): nat { if k == 0 then n % 2 else Bit(n / 2, k - 1) }

  lemma {:induction false} XorBits(a: nat, b: nat, bits: nat, k: nat)
    requires k < bits
    ensures Bit(Xor(a, b, bits), k) == if Bit(a, k) != Bit(b, k) then 1 else 0
  {
    var rest := Xor(a / 2, b / 2, bits - 1);
    assert Xor(a, b, bits) == (a + b) % 2 + 2 * rest;
    if k > 0 {
      XorBits(a / 2, b / 2, bits - 1, k - 1);
      Joined2((a + b) % 2, rest);
    }
  }

  lemma Joined2(lo: nat, hi: nat)
    requires lo < 2
    ensures (lo + 2 * hi) / 2 == hi
  {
  }

  /** One step in numbers: bit k of the low byte is set where exactly one of the two is, the rest
      of the word stays, and the product with the prime is taken modulo 2^32. */
  lemma StepInBits(h: nat, b: Byte) returns (x: nat)
    ensures FnvStep(h, b) == x * 16777619 % 0x1_0000_0000 && x / 256 == h / 256
    ensures forall k :: 0 <= k < 8 ==> Bit(x % 256, k) == if Bit(h % 256, k) != Bit(b, k) then 1 else 0
  {
    x := XorLow(h, b);
    XorLowParts(h, b);
    forall k | 0 <= k < 8 ensures Bit(x % 256, k) == if Bit(h % 256, k) != Bit(b, k) then 1 else 0 { XorBits(h % 256, b, 8, k); }
  }

  lemma FnvNext(h: nat, data: seq<Byte>, b: Byte)
    ensures Fnv(h, data + [b]) == FnvStep(Fnv(h, data), b)
  {
    assert (data + [b])[..|data|] == data;
  }

  const FNV_INVERSE: nat := 899433627

  /** The prime is odd, so multiplying by it modulo 2^32 is one to one. */
  lemma PrimeCancels(x: nat, y: nat)
    requires x < WORD && y < WORD && Scramble(x) == Scramble(y)
    ensures x == y
  {
    Undo(x);
    Undo(y);
  }

  lemma Undo(x: nat)
    requires x < WORD
    ensures Scramble(x) * FNV_INVERSE % WORD == x
  {
    var r, k := x * 16777619 % WORD, x * 16777619 / WORD;
    assert x * 16777619 == k * WORD + r;
    assert x * (16777619 * 899433627) == x + x * 3513497 * WORD;
    Remainder(r * 899433627, x, x * 3513497 - k * 899433627);
  }

  lemma Remainder(n: nat, x: nat, c: int)
    requires x < WORD && n == x + c * WORD
    ensures n % WORD == x
  {
  }

  /** Each step is one to one in the hash and in the byte. */
  lemma StepInjective(h: nat, h': nat, b: Byte, b': Byte)
    requires h < WORD && h' < WORD && FnvStep(h, b) == FnvStep(h', b')
    ensures b == b' ==> h == h'
    ensures h == h' ==> b == b'
  {
    XorLowParts(h, b);
    XorLowParts(h', b');
    PrimeCancels(XorLow(h, b), XorLow(h', b'));
    assert Two(8) == 256 by { assert Two(4) == 16; }
    XorCancels(h % 256, h' % 256, b, b', 8);
  }

  lemma {:induction false} FnvBound(h: nat, data: seq<Byte>)
    requires h < WORD
    ensures Fnv(h, data) < WORD
  {
  }

  /** Two hashes stay different under equal bytes, and equal under equal bytes. */
  lemma {:induction false} FnvInjective(h: nat, h': nat, data: seq<Byte>)
    requires h < WORD && h' < WORD && h != h'
    ensures Fnv(h, data) != Fnv(h', data)
  {
    if data != [] {
      var front, last := data[..|data| - 1], data[|data| - 1];
      FnvInjective(h, h', front);
      FnvBound(h, front);
      FnvBound(h', front);
      if FnvStep(Fnv(h, front), last) == FnvStep(Fnv(h', front), last) {
        StepInjective(Fnv(h, front), Fnv(h', front), last, last);
      }
    }
  }

  lemma {:induction false} FnvConcat(h: nat, a: seq<Byte>, b: seq<Byte>)
    ensures Fnv(h, a + b) == Fnv(Fnv(h, a), b)
  {
    if b == [] {
      assert a + b == a;
    } else {
      FnvConcat(h, a, b[..|b| - 1]);
      assert (a + b)[..|a + b| - 1] == a + b[..|b| - 1];
    }
  }

  /** The two strings differ at i and nowhere else. */
  predicate DifferAt(a: seq<Byte>, b: seq<Byte>, i: nat) {
    |a| == |b| && i < |a| && a[i] != b[i] && a[..i] == b[..i] && a[i + 1..] == b[i + 1..]
  }

  lemma FnvDetects(a: seq<Byte>, b: seq<Byte>, i: nat)
    requires DifferAt(a, b, i)
    ensures Fnv(FNV_START, a) != Fnv(FNV_START, b)
  {
    var h := Fnv(FNV_START, a[..i]);
    FnvBound(FNV_START, a[..i]);
    assert a == a[..i] + ([a[i]] + a[i + 1..]) && b == b[..i] + ([b[i]] + b[i + 1..]);
    FnvConcat(FNV_START, a[..i], [a[i]] + a[i + 1..]);
    FnvConcat(FNV_START, b[..i], [b[i]] + b[i + 1..]);
    FnvConcat(h, [a[i]], a[i + 1..]);
    FnvConcat(h, [b[i]], b[i + 1..]);
    assert Fnv(h, [a[i]]) == FnvStep(h, a[i]) && Fnv(h, [b[i]]) == FnvStep(h, b[i]) by {
      assert [a[i]][..0] == [] && [b[i]][..0] == [];
    }
    if FnvStep(h, a[i]) == FnvStep(h, b[i]) { StepInjective(h, h, a[i], b[i]); }
    FnvInjective(FnvStep(h, a[i]), FnvStep(h, b[i]), a[i + 1..]);
  }

  // ---- Frames -----------------------------------------------------------------

  const HEADER: nat := 16
  const MAGIC: nat := 0x5343_454E
  const VERSION: nat := 0

  datatype Check = Passed | BadProtocol | BadChecksum

  function Length(f: seq<Byte>): nat
    requires |f| >= HEADER
  {
    Get(f[8..12])
  }

  function Opcode(f: seq<Byte>): nat
    requires |f| >= HEADER
  {
    Get(f[6..8])
  }

  /** The frame with its checksum field taken as zero. */
  function Zeroed(f: seq<Byte>): (z: seq<Byte>)
    requires |f| >= HEADER
    ensures |z| == |f|
  {
    f[..12] + [0, 0, 0, 0] + f[16..]
  }

  function CheckOf(f: seq<Byte>): Check {
    if |f| < HEADER then BadProtocol
    else if Get(f[0..4]) != MAGIC || Get(f[4..6]) != VERSION || Length(f) != |f| - HEADER then BadProtocol
    else if Fnv(FNV_START, Zeroed(f)) != Get(f[12..16]) then BadChecksum
    else Passed
  }

  /** scene_frame_check on the header as feed and pump parse it. */
  method FrameCheck(f: seq<Byte>) returns (r: Check)
    ensures r == CheckOf(f)
  {
    if |f| < HEADER { return BadProtocol; }
    var magic := GetAt(f, 4);
    var version := GetAt(f[4..], 2);
    var length := GetAt(f[8..], 4);
    var checksum := GetAt(f[12..], 4);
    assert f[4..][..2] == f[4..6] && f[8..][..4] == f[8..12] && f[12..][..4] == f[12..16] && f[..4] == f[0..4];
    if magic != MAGIC || version != VERSION || length != |f| - HEADER { return BadProtocol; }
    var ck := FNV_START;
    for i := 0 to |f|
      invariant ck == Fnv(FNV_START, Zeroed(f)[..i])
    {
      var b: Byte := if 12 <= i < 16 then 0 else f[i];
      assert Zeroed(f)[..i + 1][..i] == Zeroed(f)[..i] && Zeroed(f)[i] == b;
      ck := FnvStep(ck, b);
    }
    assert Zeroed(f)[..|f|] == Zeroed(f);
    return if ck != checksum then BadChecksum else Passed;
  }

  lemma GetCancels(a: seq<Byte>, b: seq<Byte>)
    requires |a| == |b| && Get(a) == Get(b)
    ensures a == b
  {
    PutGet(a);
    PutGet(b);
  }

  /** No two frames of equal length that both pass the check differ in exactly one byte. */
  lemma OneByteDetected(f: seq<Byte>, g: seq<Byte>, i: nat)
    requires DifferAt(f, g, i) && CheckOf(f) == Passed
    ensures CheckOf(g) != Passed
  {
    if CheckOf(g) == Passed {
      var zf, zg := Zeroed(f), Zeroed(g);
      forall k | 0 <= k < |f| && k != i ensures f[k] == g[k] {
        assert k < i ==> f[k] == f[..i][k] && g[k] == g[..i][k];
        assert k > i ==> f[k] == f[i + 1..][k - i - 1] && g[k] == g[i + 1..][k - i - 1];
      }
      if 12 <= i < 16 {
        assert zf == zg;
        assert f[12..16][i - 12] != g[12..16][i - 12];
        GetCancels(f[12..16], g[12..16]);
      } else {
        assert f[12..16] == g[12..16];
        assert DifferAt(zf, zg, i) by {
          assert zf[i] == f[i] && zg[i] == g[i];
          forall k | 0 <= k < |f| && k != i ensures zf[k] == zg[k] {}
          assert zf[..i] == zg[..i];
          assert zf[i + 1..] == zg[i + 1..];
        }
        FnvDetects(zf, zg, i);
      }
    }
  }

  // ---- Writing a frame --------------------------------------------------------

  /** The twelve header bytes before the checksum. */
  function Head(opcode: nat, length: nat): (h: seq<Byte>)
    ensures |h| == 12
  {
    Put(MAGIC, 4) + Put(VERSION, 2) + Put(opcode, 2) + Put(length, 4)
  }

  /** The frame cli_emit and the store write for a record: the checksum is taken with its
      own field zero, then stored. */
  function Encode(opcode: nat, payload: seq<Byte>): (f: seq<Byte>)
    ensures |f| == HEADER + |payload|
  {
    var head := Head(opcode, |payload|);
    head + Put(Fnv(FNV_START, head + [0, 0, 0, 0] + payload), 4) + payload
  }

  lemma HeadFields(opcode: nat, length: nat)
    requires opcode < 0x1_0000 && length < WORD
    ensures var h := Head(opcode, length);
            Get(h[0..4]) == MAGIC && Get(h[4..6]) == VERSION && Get(h[6..8]) == opcode && Get(h[8..12]) == length
  {
    var m, v, o, l := Put(MAGIC, 4), Put(VERSION, 2), Put(opcode, 2), Put(length, 4);
    var h := m + v + o + l;
    assert Radix(2) == 0x1_0000 && Radix(4) == WORD by { assert Radix(1) == 256 && Radix(3) == 0x100_0000; }
    assert h[0..4] == m && h[4..6] == v && h[6..8] == o && h[8..12] == l;
    GetPut(MAGIC, 4);
    GetPut(VERSION, 2);
    GetPut(opcode, 2);
    GetPut(length, 4);
  }

  /** Such a frame passes the check and parses back to its record. */
  lemma EncodeDecodes(opcode: nat, payload: seq<Byte>)
    requires opcode < 0x1_0000 && |payload| < WORD
    ensures var f := Encode(opcode, payload);
            CheckOf(f) == Passed && Opcode(f) == opcode && Length(f) == |payload| && f[HEADER..] == payload
  {
    var head, f := Head(opcode, |payload|), Encode(opcode, payload);
    var ck := Fnv(FNV_START, head + [0, 0, 0, 0] + payload);
    assert f[..12] == head && f[12..16] == Put(ck, 4) && f[16..] == payload;
    assert f[0..4] == head[0..4] && f[4..6] == head[4..6] && f[6..8] == head[6..8] && f[8..12] == head[8..12];
    HeadFields(opcode, |payload|);
    FnvBound(FNV_START, head + [0, 0, 0, 0] + payload);
    assert Radix(4) == WORD by { assert Radix(3) == 0x100_0000; }
    GetPut(ck, 4);
  }

  // ---- Known answers ----------------------------------------------------------

  /** r is the exclusive or of the bytes a and b, bit by bit. */
  predicate ByteXor(a: Byte, b: Byte, r: Byte) {
    && r % 2 == (a + b) % 2 && r / 2 % 2 == (a / 2 + b / 2) % 2
    && r / 4 % 2 == (a / 4 + b / 4) % 2 && r / 8 % 2 == (a / 8 + b / 8) % 2
    && r / 16 % 2 == (a / 16 + b / 16) % 2 && r / 32 % 2 == (a / 32 + b / 32) % 2
    && r / 64 % 2 == (a / 64 + b / 64) % 2 && r / 128 % 2 == (a / 128 + b / 128) % 2
  }

  /** The exclusive ors that the two known answers need. */
  lemma KnownXors(a: Byte, b: Byte, r: Byte)
    requires (a == 0xC5 && b == 0x4E && r == 0x8B)
          || (a == 0xD1 && b == 0x45 && r == 0x94)
          || (a == 0xFC && b == 0x43 && r == 0xBF)
          || (a == 0xAD && b == 0x53 && r == 0xFE)
          || (a == 0x6A && b == 0x13 && r == 0x79)
          || (a == 0xC5 && b == 0x61 && r == 0xA4)
    ensures ByteXor(a, b, r)
  {
  }

  lemma XorIs(a: Byte, b: Byte, r: Byte)
    requires ByteXor(a, b, r)
    ensures Xor(a, b, 8) == r
  {
    XorHigh(a, b, r);
    XorNext(a / 8, b / 8, r / 8, 4, a / 16, b / 16);
    XorNext(a / 4, b / 4, r / 4, 5, a / 8, b / 8);
    XorNext(a / 2, b / 2, r / 2, 6, a / 4, b / 4);
    XorNext(a, b, r, 7, a / 2, b / 2);
  }

  lemma XorHigh(a: Byte, b: Byte, r: Byte)
    requires r / 16 % 2 == (a / 16 + b / 16) % 2 && r / 32 % 2 == (a / 32 + b / 32) % 2
    requires r / 64 % 2 == (a / 64 + b / 64) % 2 && r / 128 % 2 == (a / 128 + b / 128) % 2
    ensures Xor(a / 16, b / 16, 4) == r / 16
  {
    XorNext(a / 128, b / 128, r / 128, 0, 0, 0);
    XorNext(a / 64, b / 64, r / 64, 1, a / 128, b / 128);
    XorNext(a / 32, b / 32, r / 32, 2, a / 64, b / 64);
    XorNext(a / 16, b / 16, r / 16, 3, a / 32, b / 32);
  }

  lemma XorNext(a: nat, b: nat, r: nat, bits: nat, a': nat, b': nat)
    requires r % 2 == (a + b) % 2 && a' == a / 2 && b' == b / 2 && Xor(a', b', bits) == r / 2
    ensures Xor(a, b, bits + 1) == r
  {
  }

  /** One more byte: the word before it is 256 q + l, its low byte becomes m, and the product
      wraps k times. */
  lemma HashNext(s: seq<Byte>, n: nat, b: Byte, h: nat, q: nat, l: Byte, m: Byte, k: nat, r: nat)
    requires n < |s| && s[n] == b && Fnv(FNV_START, s[..n]) == h && h == 256 * q + l && ByteXor(l, b, m)
    requires (256 * q + m) * 16777619 == k * 0x1_0000_0000 + r && r < 0x1_0000_0000
    ensures Fnv(FNV_START, s[..n + 1]) == r
  {
    assert s[..n + 1] == s[..n] + [s[n]];
    FnvNext(FNV_START, s[..n], b);
    XorIs(l, b, m);
    Joined(q, l);
    Remainder((256 * q + m) * 16777619, r, k);
  }

  lemma HashStarts(s: seq<Byte>)
    ensures Fnv(FNV_START, s[..0]) == 0x811C9DC5
  {
  }

  /** Known answers of the 32-bit FNV-1a hash: the empty string and "a". */
  lemma KnownHashes(s: seq<Byte>)
    requires s == [0x61]
    ensures Fnv(FNV_START, []) == 0x811C9DC5 && Fnv(FNV_START, s) == 0xE40C292C
  {
    HashStarts(s);
    assert s[..0] == [] && s[..1] == s;
    KnownXors(0xC5, 0x61, 0xA4);
    HashNext(s, 0, 0x61, 0x811c9dc5, 0x811c9d, 0xC5, 0xA4, 8461672, 0xE40C292C);
  }

  /** An acknowledgement without payload, its checksum taken as zero. */
  predicate BareAck(s: seq<Byte>) {
    s == [0x4E, 0x45, 0x43, 0x53, 0, 0, 0x13, 0, 0, 0, 0, 0, 0, 0, 0, 0]
  }

  lemma HashTo2(s: seq<Byte>)
    requires BareAck(s)
    ensures Fnv(FNV_START, s[..2]) == 0x37e67bfc
  {
    HashStarts(s);
    KnownXors(0xc5, 0x4e, 0x8b);
    HashNext(s, 0, 0x4e, 0x811c9dc5, 0x811c9d, 0xc5, 0x8b, 8461672, 0xcb0c01d1);
    KnownXors(0xd1, 0x45, 0x94);
    HashNext(s, 1, 0x45, 0xcb0c01d1, 0xcb0c01, 0xd1, 0x94, 13307201, 0x37e67bfc);
  }

  lemma HashTo4(s: seq<Byte>)
    requires BareAck(s)
    ensures Fnv(FNV_START, s[..4]) == 0x670046da
  {
    HashTo2(s);
    KnownXors(0xfc, 0x43, 0xbf);
    HashNext(s, 2, 0x43, 0x37e67bfc, 0x37e67b, 0xfc, 0xbf, 3663571, 0xbed4cdad);
    KnownXors(0xad, 0x53, 0xfe);
    HashNext(s, 3, 0x53, 0xbed4cdad, 0xbed4cd, 0xad, 0xfe, 12506618, 0x670046da);
  }

  lemma HashTo8(s: seq<Byte>)
    requires BareAck(s)
    ensures Fnv(FNV_START, s[..8]) == 0x701186a1
  {
    HashTo4(s);
    HashNext(s, 4, 0, 0x670046da, 0x670046, 0xda, 0xda, 6750440, 0xff6f892e);
    HashNext(s, 5, 0, 0xff6f892e, 0xff6f89, 0x2e, 0x2e, 16740635, 0x4a94f36a);
    KnownXors(0x6a, 0x13, 0x79);
    HashNext(s, 6, 0x13, 0x4a94f36a, 0x4a94f3, 0x6a, 0x79, 4887912, 0xe17b477b);
    HashNext(s, 7, 0, 0xe17b477b, 0xe17b47, 0x7b, 0x7b, 14777514, 0x701186a1);
  }

  lemma HashTo12(s: seq<Byte>)
    requires BareAck(s)
    ensures Fnv(FNV_START, s[..12]) == 0x34f78fb1
  {
    HashTo8(s);
    HashNext(s, 8, 0, 0x701186a1, 0x701186, 0xa1, 0xa1, 7344695, 0xc96ef73);
    HashNext(s, 9, 0, 0xc96ef73, 0xc96ef, 0x73, 0x73, 825091, 0x449af209);
    HashNext(s, 10, 0, 0x449af209, 0x449af2, 0x9, 0x9, 4496222, 0x8eb042b);
    HashNext(s, 11, 0, 0x8eb042b, 0x8eb04, 0x2b, 0x2b, 584466, 0x34f78fb1);
  }

  lemma HashTo16(s: seq<Byte>)
    requires BareAck(s)
    ensures Fnv(FNV_START, s[..16]) == 0x733919c1
  {
    HashTo12(s);
    HashNext(s, 12, 0, 0x34f78fb1, 0x34f78f, 0xb1, 0xb1, 3471331, 0x12b733a3);
    HashNext(s, 13, 0, 0x12b733a3, 0x12b733, 0xa3, 0xa3, 1226577, 0x19664999);
    HashNext(s, 14, 0, 0x19664999, 0x196649, 0x99, 0x99, 1664625, 0x9505dbdb);
    HashNext(s, 15, 0, 0x9505dbdb, 0x9505db, 0xdb, 0xdb, 9766598, 0x733919c1);
  }

  /** A bare acknowledgement as it is sent, byte for byte: it is what is written, and passes. */
  lemma KnownFrame(f: seq<Byte>)
    requires f == [0x4E, 0x45, 0x43, 0x53, 0x00, 0x00, 0x13, 0x00, 0x00, 0x00, 0x00, 0x00, 0xC1, 0x19, 0x39, 0x73]
    ensures Encode(0x13, []) == f && CheckOf(f) == Passed
  {
    var s := Head(0x13, 0) + [0, 0, 0, 0] + [];
    KnownHead();
    HashTo16(s);
    assert s[..16] == s;
    EncodeDecodes(0x13, []);
  }

  lemma KnownHead()
    ensures Head(0x13, 0) == [0x4E, 0x45, 0x43, 0x53, 0, 0, 0x13, 0, 0, 0, 0, 0]
    ensures Put(0x733919C1, 4) == [0xC1, 0x19, 0x39, 0x73]
  {
    assert Put(0x5343454E, 4) == [0x4E, 0x45, 0x43, 0x53];
    assert Put(0, 4) == [0, 0, 0, 0] && Put(0x13, 2) == [0x13, 0] && Put(0, 2) == [0, 0];
  }
}
