// The audio track (iso_play.c): 16-bit PCM samples read from and written to WAV
// files, and resampled by 16.16 fixed-point interpolation.
module Track {
  import opened Pixels
  import Wire

  type Sample = v: int | -32768 <= v < 32768

  // ---- Resampling -------------------------------------------------------------

  /** Frames of one or two interleaved channels. */
  datatype Pcm = Pcm(samples: seq<Sample>, frames: nat, rate: nat, channels: nat) {
    predicate Valid() {
      1 <= channels <= 2 && rate > 0 && |samples| == Slot(channels, frames, 0)
    }
  }

  /** Where channel c of frame f is stored. */
  function Slot(channels: nat, f: nat, c: nat): nat {
    if channels == 1 then f else 2 * f + c
  }

  /** The number of output frames: frames * rate' / rate, rounded up. */
  function Total(p: Pcm, rate: nat): nat
    requires p.rate > 0
  {
    (p.frames * rate + p.rate - 1) / p.rate
  }

  /** The 16.16 source position of output frame i. */
  function Position(p: Pcm, rate: nat, i: nat): nat
    requires rate > 0
  {
    i * p.rate * 65536 / rate
  }

  lemma Scale(a: nat, b: nat, d: nat)
    requires a <= b
    ensures a * d <= b * d
  {
  }

  lemma DivBelow(n: nat, d: nat, q: nat)
    requires d > 0 && n < q * d
    ensures n / d < q
  {
    if n / d >= q { Scale(q, n / d, d); }
  }

  /** No output frame reads past the source. */
  lemma PositionInside(p: Pcm, rate: nat, i: nat)
    requires p.rate > 0 && rate > 0 && i < Total(p, rate)
    ensures Position(p, rate, i) / 65536 < p.frames
  {
    var n := p.frames * rate;
    Scale(i + 1, Total(p, rate), p.rate);
    assert (i + 1) * p.rate == i * p.rate + p.rate;
    assert Total(p, rate) * p.rate <= n + p.rate - 1;
    assert i * p.rate < n;
    assert n * 65536 == p.frames * 65536 * rate;
    DivBelow(i * p.rate * 65536, rate, p.frames * 65536);
  }

  /** Linear interpolation, rounded down, `frac` 65536ths of the way from a to b. */
  function Lerp(a: int, b: int, frac: nat): int {
    a + (b - a) * frac / 65536
  }

  /** The result lies between its neighbours, so it fits their 16 bits. */
  lemma LerpBetween(a: int, b: int, frac: nat)
    requires frac < 65536
    ensures a <= b ==> a <= Lerp(a, b, frac) <= b
    ensures b <= a ==> b <= Lerp(a, b, frac) <= a
  {
    if a <= b {
      Scale(frac, 65536, b - a);
      assert 0 <= (b - a) * frac <= (b - a) * 65536;
    } else {
      Scale(frac, 65536, a - b);
      assert (b - a) * frac == -((a - b) * frac);
      assert (b - a) * 65536 <= (b - a) * frac <= 0;
    }
  }

  /** Output sample (i, c): interpolated between two neighbouring source frames of channel
      c, or of the last channel when there is no such one. */
  function Resampled(p: Pcm, rate: nat, i: nat, c: nat): (v: Sample)
    requires p.Valid() && rate > 0 && i < Total(p, rate) && c < 2
  {
    PositionInside(p, rate, i);
    var sp := Position(p, rate, i);
    var s0, frac := sp / 65536, sp % 65536;
    var s1 := if s0 + 1 < p.frames then s0 + 1 else s0;
    var sc := if c < p.channels then c else p.channels - 1;
    var a, b := p.samples[Slot(p.channels, s0, sc)], p.samples[Slot(p.channels, s1, sc)];
    LerpBetween(a, b, frac);
    Lerp(a, b, frac)
  }

  lemma LerpIs(a: int, b: int, frac: nat)
    requires frac < 65536
    ensures 65536 * Lerp(a, b, frac) <= a * (65536 - frac) + b * frac < 65536 * (Lerp(a, b, frac) + 1)
  {
    assert (b - a) * frac == b * frac - a * frac;
  }

  /** The sample of channel c in frame f, frames laid out one after the other. */
  function Stored(samples: seq<Sample>, channels: nat, f: nat, c: nat): int
    requires 1 <= channels <= 2 && c < channels && (if channels == 1 then f else 2 * f + 1) < |samples|
  {
    samples[if channels == 1 then f else 2 * f + c]
  }

  /** What output sample (i, c) is to be: at the position of frame i, so many 65536ths of the
      next source frame and the rest of the one before, rounded down. */
  predicate Interpolated(p: Pcm, rate: nat, i: nat, c: nat, v: int)
    requires p.Valid() && rate > 0 && c < 2
  {
    var sp := i * p.rate * 65536 / rate;
    var s0, frac, sc := sp / 65536, sp % 65536, if p.channels == 1 then 0 else c;
    && s0 < p.frames
    && var a, b := Stored(p.samples, p.channels, s0, sc), Stored(p.samples, p.channels, if s0 + 1 < p.frames then s0 + 1 else s0, sc);
       65536 * v <= a * (65536 - frac) + b * frac < 65536 * (v + 1)
  }

  lemma ResampledIs(p: Pcm, rate: nat, i: nat, c: nat)
    requires p.Valid() && rate > 0 && i < Total(p, rate) && c < 2
    ensures Interpolated(p, rate, i, c, Resampled(p, rate, i, c))
  {
    PositionInside(p, rate, i);
    var sp := Position(p, rate, i);
    var s0, sc := sp / 65536, if p.channels == 1 then 0 else c;
    LerpIs(Stored(p.samples, p.channels, s0, sc), Stored(p.samples, p.channels, if s0 + 1 < p.frames then s0 + 1 else s0, sc), sp % 65536);
  }

  /** Doubling the rate: an even frame is the source's, an odd one the mean of its two
      neighbours rounded down, or the last frame again. */
  lemma DoublingIs(p: Pcm, i: nat, c: nat, v: int)
    requires p.Valid() && c < 2 && Interpolated(p, 2 * p.rate, i, c, v)
    ensures i / 2 < p.frames
    ensures var k, sc := i / 2, if p.channels == 1 then 0 else c;
            v == if i % 2 == 0 || k + 1 == p.frames then Stored(p.samples, p.channels, k, sc)
                 else (Stored(p.samples, p.channels, k, sc) + Stored(p.samples, p.channels, k + 1, sc)) / 2
  {
    assert i * p.rate * 65536 == i * 32768 * (2 * p.rate);
    ExactDiv(i * 32768, 2 * p.rate);
  }

  /** The number of frames, in plain numbers: the least that reach the source's end. */
  lemma TotalIs(p: Pcm, rate: nat)
    requires p.rate > 0
    ensures (Total(p, rate) - 1) * p.rate < p.frames * rate <= Total(p, rate) * p.rate
  {
    var n, t := p.frames * rate, Total(p, rate);
    assert n + p.rate - 1 == t * p.rate + (n + p.rate - 1) % p.rate;
    assert (t - 1) * p.rate == t * p.rate - p.rate;
  }

  /** q is p at q's rate and channels: as many frames as it takes to reach p's end, and every
      sample interpolated. */
  predicate Converted(p: Pcm, q: Pcm)
    requires p.Valid() && q.Valid()
  {
    && (q.frames - 1) * p.rate < p.frames * q.rate <= q.frames * p.rate
    && forall i: nat, c: nat :: i < q.frames && c < q.channels ==>
         Interpolated(p, q.rate, i, c, Stored(q.samples, q.channels, i, c))
  }

  lemma ConvertedIs(p: Pcm, q: Pcm)
    requires p.Valid() && q.Valid() && q.frames == Total(p, q.rate)
    requires forall i, c :: 0 <= i < q.frames && 0 <= c < q.channels ==> q.samples[Slot(q.channels, i, c)] == Resampled(p, q.rate, i, c)
    ensures Converted(p, q)
  {
    TotalIs(p, q.rate);
    forall i: nat, c: nat | i < q.frames && c < q.channels
      ensures Interpolated(p, q.rate, i, c, Stored(q.samples, q.channels, i, c))
    {
      ResampledIs(p, q.rate, i, c);
      assert Stored(q.samples, q.channels, i, c) == q.samples[Slot(q.channels, i, c)];
    }
  }

  lemma ExactDiv(k: nat, d: nat)
    requires d > 0
    ensures k * d / d == k
  {
    DivBelow(k * d, d, k + 1);
    if k * d / d < k { Scale(k * d / d + 1, k, d); }
  }

  /** An output frame that falls on source frame k copies it exactly. */
  lemma OnFrameCopies(p: Pcm, rate: nat, i: nat, c: nat, k: nat)
    requires p.Valid() && rate > 0 && i < Total(p, rate) && c < 2 && i * p.rate == k * rate
    ensures k < p.frames && Resampled(p, rate, i, c) == p.samples[Slot(p.channels, k, if c < p.channels then c else p.channels - 1)]
  {
    PositionInside(p, rate, i);
    assert i * p.rate * 65536 == k * 65536 * rate;
    ExactDiv(k * 65536, rate);
  }

  /** Converting the channel count alone keeps every frame: one channel is duplicated, and
      of two only the first is kept. */
  lemma SameRateCopies(p: Pcm, i: nat, c: nat)
    requires p.Valid() && c < 2
    ensures Total(p, p.rate) == p.frames
    ensures i < p.frames ==> Resampled(p, p.rate, i, c) == p.samples[Slot(p.channels, i, if c < p.channels then c else p.channels - 1)]
  {
    var n := p.frames * p.rate;
    ExactDiv(p.frames, p.rate);
    assert (p.frames + 1) * p.rate == n + p.rate;
    DivBelow(n + p.rate - 1, p.rate, p.frames + 1);
    if Total(p, p.rate) < p.frames { Scale(Total(p, p.rate) + 1, p.frames, p.rate); }
    if i < p.frames { OnFrameCopies(p, p.rate, i, c, i); }
  }

  /** The arithmetic mean of two samples, rounded down. */
  function Mean(l: int, r: int): int { (l + r) / 2 }

  /** A source sample as a plain number. */
  function At(p: Pcm, i: nat, c: nat): int
    requires p.Valid() && i < p.frames && c < p.channels
  {
    p.samples[Slot(p.channels, i, c)]
  }

  /** Collapsing two channels to one keeps the first at any rate; that is the promised mean
      exactly where the second is equal or one above. */
  lemma CollapseAt(p: Pcm, rate: nat, i: nat)
    requires p.Valid() && p.channels == 2 && rate > 0 && i < Total(p, rate)
    ensures var l: int, r: int := Resampled(p, rate, i, 0), Resampled(p, rate, i, 1);
            && (l == Mean(l, r) <==> 0 <= r - l <= 1)
            && (rate == p.rate ==> i < p.frames && l == At(p, i, 0) && r == At(p, i, 1))
  {
    if rate == p.rate {
      SameRateCopies(p, i, 0);
      SameRateCopies(p, i, 1);
    }
  }

  /** What the collapsed track promises of frame i, and the condition for it. */
  predicate MeanKept(p: Pcm, i: nat)
    requires p.Valid() && p.channels == 2 && i < p.frames && i < Total(p, p.rate)
  {
    Resampled(p, p.rate, i, 0) as int == Mean(At(p, i, 0), At(p, i, 1))
  }

  predicate Alike(p: Pcm, i: nat)
    requires p.Valid() && p.channels == 2 && i < p.frames
  {
    0 <= At(p, i, 1) - At(p, i, 0) <= 1
  }

  /** At an unchanged rate the collapsed track is the mean of the channels if and only if in
      every frame the second is equal to the first or one above. */
  lemma CollapseIsMean(p: Pcm)
    requires p.Valid() && p.channels == 2
    ensures Total(p, p.rate) == p.frames
    ensures (forall i :: 0 <= i < p.frames ==> MeanKept(p, i)) <==> (forall i :: 0 <= i < p.frames ==> Alike(p, i))
  {
    SameRateCopies(p, 0, 0);
    forall i | 0 <= i < p.frames ensures MeanKept(p, i) <==> Alike(p, i) { CollapseAt(p, p.rate, i); }
  }

  /** One frame of 0 and 100 collapses to 0, where the mean is 50. */
  lemma CollapseDrops()
    ensures var p := Pcm([0, 100], 1, 8000, 2);
            p.Valid() && Total(p, 8000) == 1 && Resampled(p, 8000, 0, 0) == 0 && Mean(0, 100) == 50
  {
    SameRateCopies(Pcm([0, 100], 1, 8000, 2), 0, 0);
  }

  // ---- WAV --------------------------------------------------------------------

  datatype Parsed = Bad | Wav(channels: nat, rate: nat, frames: nat, at: nat)

  const RIFF: seq<Byte> := [0x52, 0x49, 0x46, 0x46]
  const WAVE: seq<Byte> := [0x57, 0x41, 0x56, 0x45]
  const FMT: seq<Byte> := [0x66, 0x6D, 0x74, 0x20]
  const DATA: seq<Byte> := [0x64, 0x61, 0x74, 0x61]

  function U16(buf: seq<Byte>, at: nat): nat
    requires at + 2 <= |buf|
  {
    Wire.Get(buf[at..at + 2])
  }

  function U32(buf: seq<Byte>, at: nat): nat
    requires at + 4 <= |buf|
  {
    Wire.Get(buf[at..at + 4])
  }

  /** The body length of the chunk at off, clamped to the file. */
  function ChunkSize(buf: seq<Byte>, off: nat): (n: nat)
    requires off + 8 <= |buf|
    ensures off + 8 + n <= |buf|
  {
    var n := U32(buf, off + 4);
    if n > |buf| - off - 8 then |buf| - off - 8 else n
  }

  /** A format chunk that is accepted: PCM, 16 bits, one or two channels, 8 to 48 kHz. */
  predicate FormatOk(buf: seq<Byte>, at: nat)
    requires at + 16 <= |buf|
  {
    && U16(buf, at) == 1 && 1 <= U16(buf, at + 2) <= 2 && 8000 <= U32(buf, at + 4) <= 48000
    && U16(buf, at + 14) == 16 && U16(buf, at + 12) == U16(buf, at + 2) * 2
  }

  /** The chunk walk from off on; channels is 0 until a format chunk was read. */
  function Chunks(buf: seq<Byte>, off: nat, channels: nat, rate: nat): Parsed
    decreases |buf| + 8 - off
  {
    if off + 8 > |buf| then Bad
    else
      var n, at := ChunkSize(buf, off), off + 8;
      var next := at + n + n % 2;
      if buf[off..at - 4] == FMT && channels == 0 then
        if n < 16 || !FormatOk(buf, at) then Bad else Chunks(buf, next, U16(buf, at + 2), U32(buf, at + 4))
      else if buf[off..at - 4] == DATA then
        if channels == 0 || n / (channels * 2) == 0 then Bad else Wav(channels, rate, n / (channels * 2), at)
      else Chunks(buf, next, channels, rate)
  }

  function Parse(buf: seq<Byte>): Parsed {
    if |buf| < 12 || buf[..4] != RIFF || buf[8..12] != WAVE then Bad else Chunks(buf, 12, 0, 0)
  }

  /** wav_parse */
  method WavParse(buf: seq<Byte>) returns (r: Parsed)
    ensures r == Parse(buf)
  {
    if |buf| < 12 || buf[..4] != RIFF || buf[8..12] != WAVE { return Bad; }
    var off, channels, rate := 12, 0, 0;
    while off + 8 <= |buf|
      invariant Chunks(buf, off, channels, rate) == Parse(buf)
      decreases |buf| + 8 - off
    {
      var id, n, at := buf[off..off + 4], ChunkSize(buf, off), off + 8;
      if id == FMT && channels == 0 {
        if n < 16 || !FormatOk(buf, at) { return Bad; }
        channels, rate := U16(buf, at + 2), U32(buf, at + 4);
      } else if id == DATA {
        if channels == 0 || n / (channels * 2) == 0 { return Bad; }
        return Wav(channels, rate, n / (channels * 2), at);
      }
      off := at + n + n % 2;
    }
    return Bad;
  }

  /** What is accepted is playable, and its samples lie inside the file, truncated or not. */
  lemma {:induction false} ChunksSound(buf: seq<Byte>, off: nat, channels: nat, rate: nat)
    requires channels == 0 || (channels <= 2 && 8000 <= rate <= 48000)
    ensures var r := Chunks(buf, off, channels, rate);
            r.Wav? ==> 1 <= r.channels <= 2 && 8000 <= r.rate <= 48000 && r.frames > 0
                       && r.at + Slot(r.channels, r.frames, 0) * 2 <= |buf|
    decreases |buf| + 8 - off
  {
    if off + 8 <= |buf| {
      var n, at := ChunkSize(buf, off), off + 8;
      var next := at + n + n % 2;
      if buf[off..at - 4] == FMT && channels == 0 {
        if n >= 16 && FormatOk(buf, at) { ChunksSound(buf, next, U16(buf, at + 2), U32(buf, at + 4)); }
      } else if buf[off..at - 4] != DATA {
        ChunksSound(buf, next, channels, rate);
      } else if channels == 1 || channels == 2 {
        assert channels * 2 == if channels == 1 then 2 else 4;
      }
    }
  }

  lemma GetTwo(b: seq<Byte>, at: nat)
    requires at + 2 <= |b|
    ensures U16(b, at) == b[at] as nat + 256 * (b[at + 1] as nat)
  {
    var w := b[at..at + 2];
    assert w[1..][1..] == [];
    assert Wire.Get(w[1..]) == b[at + 1];
  }

  lemma GetFour(b: seq<Byte>, at: nat)
    requires at + 4 <= |b|
    ensures U32(b, at) == U16(b, at) + 65536 * U16(b, at + 2)
  {
    var w := b[at..at + 4];
    assert w[1..][1..] == b[at + 2..at + 4];
    assert b[at..at + 2] == [w[0], w[1]];
    GetTwo(b, at);
    assert Wire.Get(w[1..]) == w[1] + 256 * Wire.Get(w[1..][1..]);
  }

  /** The sixteen bytes of a format chunk that are looked at. */
  lemma FormatBytes(b: seq<Byte>, at: nat)
    requires at + 16 <= |b|
    ensures FormatOk(b, at) <==>
      && b[at] == 1 && b[at + 1] == 0 && b[at + 2] in {1, 2} && b[at + 3] == 0
      && 8000 <= b[at + 4] as nat + 256 * (b[at + 5] as nat) + 65536 * (b[at + 6] as nat + 256 * (b[at + 7] as nat)) <= 48000
      && b[at + 12] == 2 * b[at + 2] && b[at + 13] == 0 && b[at + 14] == 16 && b[at + 15] == 0
  {
    GetTwo(b, at);
    GetTwo(b, at + 2);
    GetTwo(b, at + 4);
    GetTwo(b, at + 6);
    GetFour(b, at + 4);
    GetTwo(b, at + 12);
    GetTwo(b, at + 14);
  }

  /** A chunk the walk has no use for: any but the data, and a second format chunk.  Its body is
      followed by one more byte where its length is odd. */
  predicate OtherChunk(j: seq<Byte>, n: nat, channels: nat) {
    && |j| == 8 + n + n % 2 && U32(j, 4) == n
    && j[..4] != [0x64, 0x61, 0x74, 0x61] && (channels == 0 ==> j[..4] != [0x66, 0x6D, 0x74, 0x20])
  }

  function Moved(r: Parsed, d: nat): Parsed { if r.Wav? then r.(at := r.at + d) else r }

  /** The walk looks at nothing before where it is: over t, and over t at the end of b. */
  lemma {:induction false} ChunksMove(b: seq<Byte>, k: nat, t: seq<Byte>, off: nat, channels: nat, rate: nat)
    requires k <= |b| && b[k..] == t
    ensures Chunks(b, k + off, channels, rate) == Moved(Chunks(t, off, channels, rate), k)
    decreases |t| + 8 - off
  {
    if off + 8 <= |t| {
      HeadMoves(b, k, t, off);
      var n := ChunkSize(t, off);
      var next := off + 8 + n + n % 2;
      if n >= 16 {
        FormatMoves(b, k, t, off + 8);
        ChunksMove(b, k, t, next, U16(t, off + 10), U32(t, off + 12));
      }
      ChunksMove(b, k, t, next, channels, rate);
    }
  }

  lemma FieldMoves(b: seq<Byte>, k: nat, t: seq<Byte>, off: nat, n: nat)
    requires k <= |b| && b[k..] == t && off + n <= |t|
    ensures b[k + off..k + off + n] == t[off..off + n]
  {
    Part(b, k, |b|, off, off + n);
  }

  lemma HeadMoves(b: seq<Byte>, k: nat, t: seq<Byte>, off: nat)
    requires k <= |b| && b[k..] == t && off + 8 <= |t|
    ensures b[k + off..k + off + 4] == t[off..off + 4] && ChunkSize(b, k + off) == ChunkSize(t, off)
  {
    FieldMoves(b, k, t, off, 4);
    FieldMoves(b, k, t, off + 4, 4);
  }

  lemma FormatMoves(b: seq<Byte>, k: nat, t: seq<Byte>, at: nat)
    requires k <= |b| && b[k..] == t && at + 16 <= |t|
    ensures FormatOk(b, k + at) == FormatOk(t, at)
    ensures U16(b, k + at + 2) == U16(t, at + 2) && U32(b, k + at + 4) == U32(t, at + 4)
  {
    FieldMoves(b, k, t, at, 2);
    FieldMoves(b, k, t, at + 2, 2);
    FieldMoves(b, k, t, at + 4, 4);
    FieldMoves(b, k, t, at + 12, 2);
    FieldMoves(b, k, t, at + 14, 2);
  }

  /** Such a chunk put in anywhere along the walk changes nothing but where the data lies. */
  lemma OtherChunksSkipped(a: seq<Byte>, j: seq<Byte>, n: nat, t: seq<Byte>, channels: nat, rate: nat)
    requires OtherChunk(j, n, channels)
    ensures Chunks(a + j + t, |a|, channels, rate) == Moved(Chunks(a + t, |a|, channels, rate), |j|)
  {
    OtherSkipped(a + j + t, |a|, j, n, t, channels, rate);
    ChunksMove(a + t, |a|, t, 0, channels, rate);
  }

  lemma OtherSkipped(b: seq<Byte>, k: nat, j: seq<Byte>, n: nat, t: seq<Byte>, channels: nat, rate: nat)
    requires OtherChunk(j, n, channels) && k + |j| <= |b| && b[k..k + |j|] == j && b[k + |j|..] == t
    ensures Chunks(b, k, channels, rate) == Moved(Chunks(t, 0, channels, rate), k + |j|)
  {
    Part(b, k, k + |j|, 0, 4);
    Part(b, k, k + |j|, 4, 8);
    assert j[0..4] == j[..4];
    SkipsOther(b, k, n, channels, rate);
    ChunksMove(b, k + |j|, t, 0, channels, rate);
  }

  lemma SkipsOther(b: seq<Byte>, off: nat, n: nat, channels: nat, rate: nat)
    requires off + 8 + n <= |b| && U32(b, off + 4) == n
    requires b[off..off + 4] != DATA && (channels == 0 ==> b[off..off + 4] != FMT)
    ensures Chunks(b, off, channels, rate) == Chunks(b, off + 8 + n + n % 2, channels, rate)
  {
  }

  // ---- Samples as bytes -------------------------------------------------------

  function Bytes(samples: seq<Sample>): (b: seq<Byte>)
    ensures |b| == 2 * |samples|
  {
    if samples == [] then []
    else
      var v := samples[0];
      [v % 256, v / 256 % 256] + Bytes(samples[1..])
  }

  function Signed(lo: Byte, hi: Byte): (v: Sample) {
    var u := lo + 256 * hi;
    if u < 32768 then u else u - 65536
  }

  function Samples(b: seq<Byte>): (s: seq<Sample>)
    requires |b| % 2 == 0
    ensures |s| == |b| / 2
  {
    if b == [] then [] else [Signed(b[0], b[1])] + Samples(b[2..])
  }

  lemma {:induction false} SamplesBytes(s: seq<Sample>)
    ensures Samples(Bytes(s)) == s
  {
    if s != [] {
      SamplesBytes(s[1..]);
      assert Bytes(s)[2..] == Bytes(s[1..]);
    }
  }

  function RiffPart(size: nat): (b: seq<Byte>) ensures |b| == 12 { RIFF + Wire.Put(36 + size, 4) + WAVE }

  function FmtHead(): (b: seq<Byte>) ensures |b| == 8 { FMT + Wire.Put(16, 4) }

  function FmtBody(rate: nat, channels: nat): (b: seq<Byte>)
    ensures |b| == 16
  {
    Wire.Put(1, 2) + Wire.Put(channels, 2) + Wire.Put(rate, 4) + Wire.Put(rate * channels * 2, 4)
    + Wire.Put(channels * 2, 2) + Wire.Put(16, 2)
  }

  function DataHead(size: nat): (b: seq<Byte>) ensures |b| == 8 { DATA + Wire.Put(size, 4) }

  /** wav_write's image. */
  function Image(p: Pcm): (b: seq<Byte>)
    ensures |b| == 44 + 2 * |p.samples|
  {
    var size := 2 * |p.samples|;
    RiffPart(size) + FmtHead() + FmtBody(p.rate, p.channels) + DataHead(size) + Bytes(p.samples)
  }

  lemma Layout(p: Pcm)
    ensures var b, size := Image(p), 2 * |p.samples|;
            && b[..12] == RiffPart(size) && b[12..20] == FmtHead() && b[20..36] == FmtBody(p.rate, p.channels)
            && b[36..44] == DataHead(size) && b[44..] == Bytes(p.samples)
  {
  }

  lemma Radixes()
    ensures Wire.Radix(2) == 0x1_0000 && Wire.Radix(4) == 0x1_0000_0000
  {
    assert Wire.Radix(1) == 256 && Wire.Radix(3) == 0x100_0000;
  }

  lemma Middle(a: seq<Byte>, m: seq<Byte>, c: seq<Byte>)
    ensures (a + m + c)[|a|..|a| + |m|] == m
  {
  }

  lemma FmtSlices(rate: nat, channels: nat)
    ensures var b := FmtBody(rate, channels);
            && b[0..2] == Wire.Put(1, 2) && b[2..4] == Wire.Put(channels, 2) && b[4..8] == Wire.Put(rate, 4)
            && b[12..14] == Wire.Put(channels * 2, 2) && b[14..16] == Wire.Put(16, 2)
  {
    SixSlices(Wire.Put(1, 2), Wire.Put(channels, 2), Wire.Put(rate, 4), Wire.Put(rate * channels * 2, 4),
              Wire.Put(channels * 2, 2), Wire.Put(16, 2));
  }

  lemma SixSlices(x0: seq<Byte>, x1: seq<Byte>, x2: seq<Byte>, x3: seq<Byte>, x4: seq<Byte>, x5: seq<Byte>)
    requires |x0| == |x1| == |x4| == |x5| == 2 && |x2| == |x3| == 4
    ensures var b := x0 + x1 + x2 + x3 + x4 + x5;
            b[0..2] == x0 && b[2..4] == x1 && b[4..8] == x2 && b[12..14] == x4 && b[14..16] == x5
  {
    var b := x0 + x1 + x2 + x3 + x4 + x5;
    Middle([], x0, x1 + x2 + x3 + x4 + x5);
    assert b == [] + x0 + (x1 + x2 + x3 + x4 + x5);
    assert b == x0 + x1 + (x2 + x3 + x4 + x5);
    assert b == (x0 + x1) + x2 + (x3 + x4 + x5);
    assert b == (x0 + x1 + x2 + x3) + x4 + x5;
  }

  lemma FmtFields(rate: nat, channels: nat)
    requires rate <= 48000 && channels <= 2
    ensures var b := FmtBody(rate, channels);
            && U16(b, 0) == 1 && U16(b, 2) == channels && U32(b, 4) == rate && U16(b, 12) == channels * 2 && U16(b, 14) == 16
  {
    FmtSlices(rate, channels);
    Radixes();
    Wire.GetPut(1, 2);
    Wire.GetPut(channels, 2);
    Wire.GetPut(rate, 4);
    Wire.GetPut(channels * 2, 2);
    Wire.GetPut(16, 2);
  }

  lemma Part(b: seq<Byte>, from: nat, to: nat, i: nat, j: nat)
    requires i <= j <= to - from && to <= |b|
    ensures b[from..to][i..j] == b[from + i..from + j]
  {
    var x, y := b[from..to][i..j], b[from + i..from + j];
    assert |x| == |y| && forall k :: 0 <= k < |x| ==> x[k] == y[k];
  }

  lemma FmtAccepted(b: seq<Byte>, rate: nat, channels: nat)
    requires 8000 <= rate <= 48000 && 1 <= channels <= 2 && |b| >= 36 && b[20..36] == FmtBody(rate, channels)
    ensures FormatOk(b, 20) && U16(b, 22) == channels && U32(b, 24) == rate
  {
    FmtFields(rate, channels);
    var f := FmtBody(rate, channels);
    assert b[20..36] == f;
    Part(b, 20, 36, 0, 2);
    Part(b, 20, 36, 2, 4);
    Part(b, 20, 36, 4, 8);
    Part(b, 20, 36, 12, 14);
    Part(b, 20, 36, 14, 16);
  }

  /** Sample k is the two bytes at 2 k, the low one first, in two's complement. */
  lemma {:induction false} BytesAt(s: seq<Sample>, k: nat)
    requires k < |s|
    ensures var b := Bytes(s); b[2 * k] as int + 256 * (b[2 * k + 1] as int) == if s[k] < 0 then s[k] as int + 65536 else s[k] as int
  {
    if k > 0 {
      BytesAt(s[1..], k - 1);
      assert Bytes(s)[2..] == Bytes(s[1..]);
    }
  }

  /** The header of a written file, in plain numbers: "RIFF", the length behind it, "WAVE";
      "fmt ", 16, PCM, channels, rate, bytes a second, bytes a frame, 16 bits; "data", its length. */
  lemma ImageHeader(p: Pcm)
    requires p.Valid() && p.rate <= 48000 && 2 * |p.samples| + 36 < 0x1_0000_0000
    ensures var b := Image(p);
      && b[0..4] == [0x52, 0x49, 0x46, 0x46] && U32(b, 4) == 36 + 2 * |p.samples| && b[8..12] == [0x57, 0x41, 0x56, 0x45]
      && b[12..16] == [0x66, 0x6D, 0x74, 0x20] && U32(b, 16) == 16 && U16(b, 20) == 1 && U16(b, 22) == p.channels
      && U32(b, 24) == p.rate && U32(b, 28) == p.rate * p.channels * 2 && U16(b, 32) == p.channels * 2 && U16(b, 34) == 16
      && b[36..40] == [0x64, 0x61, 0x74, 0x61] && U32(b, 40) == 2 * |p.samples|
  {
    var b, size := Image(p), 2 * |p.samples|;
    Layout(p);
    RiffHeader(b, size);
    HeadRead(b, 12, FMT, 16);
    HeadRead(b, 36, DATA, size);
    FmtFields(p.rate, p.channels);
    ByteRate(p.rate, p.channels);
    Part(b, 20, 36, 0, 2);
    Part(b, 20, 36, 2, 4);
    Part(b, 20, 36, 4, 8);
    Part(b, 20, 36, 8, 12);
    Part(b, 20, 36, 12, 14);
    Part(b, 20, 36, 14, 16);
  }

  lemma RiffHeader(b: seq<Byte>, size: nat)
    requires |b| >= 12 && b[..12] == RiffPart(size) && size + 36 < 0x1_0000_0000
    ensures b[0..4] == RIFF && U32(b, 4) == 36 + size && b[8..12] == WAVE
  {
    var r := RiffPart(size);
    assert b[0..4] == r[..4] && b[4..8] == r[4..8] && b[8..12] == r[8..];
    Radixes();
    Wire.GetPut(36 + size, 4);
  }

  lemma ByteRate(rate: nat, channels: nat)
    requires rate <= 48000 && channels <= 2
    ensures U32(FmtBody(rate, channels), 8) == rate * channels * 2
  {
    var x0, x1, x2, x3 := Wire.Put(1, 2), Wire.Put(channels, 2), Wire.Put(rate, 4), Wire.Put(rate * channels * 2, 4);
    var x4, x5 := Wire.Put(channels * 2, 2), Wire.Put(16, 2);
    Middle(x0 + x1 + x2, x3, x4 + x5);
    assert FmtBody(rate, channels) == (x0 + x1 + x2) + x3 + (x4 + x5);
    Radixes();
    Scale(rate, 48000, channels);
    Wire.GetPut(rate * channels * 2, 4);
  }

  lemma HeadRead(b: seq<Byte>, at: nat, id: seq<Byte>, size: nat)
    requires |id| == 4 && at + 8 <= |b| && b[at..at + 8] == id + Wire.Put(size, 4) && size < 0x1_0000_0000
    ensures b[at..at + 4] == id && U32(b, at + 4) == size
  {
    var h := id + Wire.Put(size, 4);
    assert b[at..at + 4] == h[..4] && b[at + 4..at + 8] == h[4..];
    Radixes();
    Wire.GetPut(size, 4);
  }

  lemma FrameCount(p: Pcm)
    requires p.Valid()
    ensures 2 * |p.samples| / (p.channels * 2) == p.frames
  {
    assert p.channels * 2 == if p.channels == 1 then 2 else 4;
  }

  lemma ReadImage(b: seq<Byte>, channels: nat, rate: nat, size: nat)
    requires |b| == 44 + size && size < 0x1_0000_0000 && 1 <= channels <= 2 && 8000 <= rate <= 48000
    requires b[..12] == RiffPart(size) && b[12..20] == FmtHead() && b[20..36] == FmtBody(rate, channels)
    requires b[36..44] == DataHead(size) && size / (channels * 2) > 0
    ensures Parse(b) == Wav(channels, rate, size / (channels * 2), 44)
  {
    var r := RiffPart(size);
    assert r[..4] == RIFF && r[8..] == WAVE;
    assert b[..4] == b[..12][..4] && b[8..12] == b[..12][8..];
    HeadRead(b, 12, FMT, 16);
    FmtAccepted(b, rate, channels);
    HeadRead(b, 36, DATA, size);
    WalkChunks(b, channels, rate, size);
  }

  /** A written WAV parses back to the same rate, channels and samples. */
  lemma WriteParse(p: Pcm, b: seq<Byte>)
    requires p.Valid() && p.frames > 0 && 8000 <= p.rate <= 48000 && 2 * |p.samples| < 0x1_0000_0000 && b == Image(p)
    ensures Parse(b) == Wav(p.channels, p.rate, p.frames, 44)
    ensures b[44..] == Bytes(p.samples) && Samples(Bytes(p.samples)) == p.samples
  {
    Layout(p);
    SamplesBytes(p.samples);
    FrameCount(p);
    ReadImage(b, p.channels, p.rate, 2 * |p.samples|);
  }

  /** The two chunks of a written file, as the walk meets them. */
  lemma WalkChunks(b: seq<Byte>, channels: nat, rate: nat, size: nat)
    requires |b| == 44 + size && 1 <= channels <= 2 && size / (channels * 2) > 0
    requires b[12..16] == FMT && U32(b, 16) == 16 && FormatOk(b, 20) && U16(b, 22) == channels && U32(b, 24) == rate
    requires b[36..40] == DATA && U32(b, 40) == size
    ensures Chunks(b, 12, 0, 0) == Wav(channels, rate, size / (channels * 2), 44)
  {
    assert DATA[0] != FMT[0];
    assert ChunkSize(b, 36) == size;
    assert Chunks(b, 36, channels, rate) == Wav(channels, rate, size / (channels * 2), 44);
    assert ChunkSize(b, 12) == 16;
  }

  // ---- The player's track -----------------------------------------------------

  class Player {
    var samples: array<Sample>
    var frames: nat
    var rate: nat
    var channels: nat

    ghost predicate Valid()
      reads this, samples
    {
      View().Valid()
    }

    ghost function View(): Pcm
      reads this, samples
    {
      Pcm(samples[..], frames, rate, channels)
    }

    /** track_load_file on a parsed file. */
    constructor (p: Pcm)
      requires p.Valid()
      ensures Valid() && View() == p && fresh(samples)
    {
      frames, rate, channels := p.frames, p.rate, p.channels;
      samples := new Sample[|p.samples|](i requires 0 <= i < |p.samples| => p.samples[i]);
      new;
      assert samples[..] == p.samples;
    }

    /** The inner loop of track_convert. */
    method Interpolate(i: nat, c: nat, toRate: nat) returns (v: Sample)
      requires Valid() && toRate > 0 && i < Total(View(), toRate) && c < 2
      ensures v == Resampled(View(), toRate, i, c)
    {
      PositionInside(View(), toRate, i);
      var sp := i * rate * 65536 / toRate;
      var s0, frac := sp / 65536, sp % 65536;
      var s1 := if s0 + 1 < frames then s0 + 1 else s0;
      var sc := if c < channels then c else channels - 1;
      var a, b := samples[Slot(channels, s0, sc)], samples[Slot(channels, s1, sc)];
      assert a == View().samples[Slot(channels, s0, sc)] && b == View().samples[Slot(channels, s1, sc)];
      LerpBetween(a, b, frac);
      v := a + (b - a) * frac / 65536;
    }

    /** One output frame. */
    method ConvertFrame(out: array<Sample>, i: nat, toRate: nat, toChannels: nat, total: nat)
      requires Valid() && toRate > 0 && 1 <= toChannels <= 2 && i < total == Total(View(), toRate)
      requires out.Length == Slot(toChannels, total, 0) && out != samples
      modifies out
      ensures forall k, c :: 0 <= k < i && 0 <= c < toChannels ==> out[Slot(toChannels, k, c)] == old(out[Slot(toChannels, k, c)])
      ensures forall c :: 0 <= c < toChannels ==> out[Slot(toChannels, i, c)] == Resampled(View(), toRate, i, c)
    {
      var v := Interpolate(i, 0, toRate);
      out[Slot(toChannels, i, 0)] := v;
      if toChannels == 2 {
        v := Interpolate(i, 1, toRate);
        out[Slot(toChannels, i, 1)] := v;
      }
    }

    method CountFrames(toRate: nat) returns (total: nat)
      requires Valid()
      ensures total == Total(View(), toRate)
    {
      total := (frames * toRate + rate - 1) / rate;
    }

    /** The loop of track_convert. */
    method FillFrames(out: array<Sample>, toRate: nat, toChannels: nat, total: nat)
      requires Valid() && toRate > 0 && 1 <= toChannels <= 2 && total == Total(View(), toRate)
      requires out.Length == Slot(toChannels, total, 0) && out != samples
      modifies out
      ensures forall i, c :: 0 <= i < total && 0 <= c < toChannels ==>
                out[Slot(toChannels, i, c)] == Resampled(View(), toRate, i, c)
    {
      for i := 0 to total
        invariant forall k, c :: 0 <= k < i && 0 <= c < toChannels ==>
          out[Slot(toChannels, k, c)] == Resampled(View(), toRate, k, c)
      {
        ConvertFrame(out, i, toRate, toChannels, total);
      }
    }

    /** track_convert: the track is replaced by its resampled form. */
    method Convert(toRate: nat, toChannels: nat) returns (ok: bool)
      requires Valid()
      modifies this
      ensures Valid() && ok == ((toRate == old(rate) && toChannels == old(channels)) || (1 <= toChannels <= 2 && toRate > 0))
      ensures !ok || (toRate == old(rate) && toChannels == old(channels)) ==> View() == old(View()) && samples == old(samples)
      ensures ok && (toRate != old(rate) || toChannels != old(channels)) ==>
        && fresh(samples) && rate == toRate && channels == toChannels && frames == Total(old(View()), toRate)
        && forall i, c :: 0 <= i < frames && 0 <= c < channels ==>
             samples[Slot(channels, i, c)] == Resampled(old(View()), toRate, i, c)
      ensures ok && (toRate != old(rate) || toChannels != old(channels)) ==> Converted(old(View()), View())
    {
      ghost var was := View();
      if toRate == rate && toChannels == channels { return true; }
      if toChannels < 1 || toChannels > 2 || toRate == 0 { return false; }
      var total := CountFrames(toRate);
      var out := new Sample[if toChannels == 1 then total else 2 * total](i => 0);
      FillFrames(out, toRate, toChannels, total);
      ConvertedIs(was, Pcm(out[..], total, toRate, toChannels));
      samples, frames, rate, channels := out, total, toRate, toChannels;
      ok := true;
    }
  }
}
