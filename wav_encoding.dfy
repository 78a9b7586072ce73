/** `bufferToWaveBlob` (app/components/UploadArea.tsx): a 44-byte RIFF/WAVE
    PCM header written field by field through a `DataView` in little-endian
    order, then the samples, frame after frame, the channels of a frame
    interleaved, two bytes each. Samples are taken as already converted to
    16-bit integers. */
module WavEncoding {
  import opened Prelude

  const Two16 := 0x1_0000
  const Two32 := 0x1_0000_0000

  /** A value a 16-bit signed sample can hold. */
  type Int16 = x: int | -0x8000 <= x < 0x8000

  // ---------------------------------------------------------------- byte order

  function Pow256(n: nat): nat {
    if n == 0 then 1 else 256 * Pow256(n - 1)
  }

  /** The `n` low-order bytes of `v`, least significant first. */
  function LittleEndian(v: nat, n: nat): (r: seq<Byte>)
    ensures |r| == n
  {
    if n == 0 then [] else [v % 256] + LittleEndian(v / 256, n - 1)
  }

  /** The number that a little-endian byte string denotes. */
  function ValueOf(bytes: seq<Byte>): nat {
    if bytes == [] then 0 else bytes[0] + 256 * ValueOf(bytes[1..])
  }

  /** Decoding undoes encoding for every value that fits in `n` bytes. */
  lemma {:induction false} LittleEndianRoundTrip(v: nat, n: nat)
    requires v < Pow256(n)
    ensures ValueOf(LittleEndian(v, n)) == v
  {
    if n > 0 {
      LittleEndianRoundTrip(v / 256, n - 1);
      assert LittleEndian(v, n)[1..] == LittleEndian(v / 256, n - 1);
    }
  }

  /** A field of the header: `setUint16` or `setUint32` of a number, which
      `DataView` stores modulo 2^16 or 2^32. */
  datatype Field = U16(v: int) | U32(v: int)

  function Width(f: Field): nat {
    if f.U16? then 2 else 4
  }

  function Modulus(f: Field): nat {
    if f.U16? then Two16 else Two32
  }

  function FieldBytes(f: Field): (r: seq<Byte>)
    ensures |r| == Width(f)
  {
    LittleEndian(f.v % Modulus(f), Width(f))
  }

  /** Byte strings written one after another. */
  function Concat(ps: seq<seq<Byte>>): seq<Byte>
    decreases |ps|
  {
    if ps == [] then [] else Concat(ps[..|ps| - 1]) + ps[|ps| - 1]
  }

  /** Where piece `k` starts. */
  function Start(ps: seq<seq<Byte>>, k: nat): nat
    requires k <= |ps|
  {
    if k == 0 then 0 else Start(ps, k - 1) + |ps[k - 1]|
  }

  lemma {:induction false} ConcatLength(ps: seq<seq<Byte>>, k: nat)
    requires k <= |ps|
    ensures |Concat(ps[..k])| == Start(ps, k)
  {
    if k > 0 {
      ConcatLength(ps, k - 1);
      assert ps[..k][..k - 1] == ps[..k - 1];
    }
  }

  lemma {:induction false} ConcatPrefix(ps: seq<seq<Byte>>, j: nat)
    requires j <= |ps|
    ensures Concat(ps[..j]) <= Concat(ps)
    decreases |ps| - j
  {
    if j < |ps| {
      ConcatPrefix(ps, j + 1);
      assert ps[..j + 1][..j] == ps[..j];
    } else {
      assert ps[..j] == ps;
    }
  }

  /** Piece `k`, followed by anything, sits at its start. */
  lemma PieceAt(ps: seq<seq<Byte>>, k: nat, rest: seq<Byte>)
    requires k < |ps|
    ensures Start(ps, k) + |ps[k]| <= |Concat(ps) + rest|
    ensures (Concat(ps) + rest)[Start(ps, k)..Start(ps, k) + |ps[k]|] == ps[k]
  {
    ConcatLength(ps, k);
    ConcatPrefix(ps, k + 1);
    ConcatSnoc(ps, k);
    PrefixSlice(Concat(ps[..k]), ps[k], Concat(ps), rest);
  }

  lemma ConcatSnoc(ps: seq<seq<Byte>>, k: nat)
    requires k < |ps|
    ensures Concat(ps[..k + 1]) == Concat(ps[..k]) + ps[k]
  {
    assert ps[..k + 1][..k] == ps[..k];
  }

  lemma PrefixSlice(u: seq<Byte>, x: seq<Byte>, s: seq<Byte>, rest: seq<Byte>)
    requires u + x <= s
    ensures |u| + |x| <= |s + rest| && (s + rest)[|u|..|u| + |x|] == x
  {
    var t := s[|u| + |x|..] + rest;
    assert s + rest == u + x + t;
    MiddleSlice(u, x, t);
  }

  lemma MiddleSlice(a: seq<Byte>, b: seq<Byte>, c: seq<Byte>)
    ensures (a + b + c)[|a|..|a| + |b|] == b
  {
  }

  /** The bytes of each field, in order. */
  function Pieces(fs: seq<Field>): (ps: seq<seq<Byte>>)
    ensures |ps| == |fs|
  {
    seq(|fs|, i requires 0 <= i < |fs| => FieldBytes(fs[i]))
  }

  function Encode(fs: seq<Field>): seq<Byte> {
    Concat(Pieces(fs))
  }

  /** The bytes written before field `k`. */
  function Offset(fs: seq<Field>, k: nat): nat
    requires k <= |fs|
  {
    if k == 0 then 0 else Offset(fs, k - 1) + Width(fs[k - 1])
  }

  lemma {:induction false} OffsetIsStart(fs: seq<Field>, k: nat)
    requires k <= |fs|
    ensures Offset(fs, k) == Start(Pieces(fs), k)
  {
    if k > 0 {
      OffsetIsStart(fs, k - 1);
    }
  }

  /** The unsigned little-endian number of `n` bytes at `p`: `getUint16` or
      `getUint32` with the little-endian flag. */
  function ReadUnsigned(s: seq<Byte>, p: nat, n: nat): nat
    requires p + n <= |s|
  {
    ValueOf(s[p..p + n])
  }

  /** `getInt16` with the little-endian flag. */
  function ReadInt16(s: seq<Byte>, p: nat): int
    requires p + 2 <= |s|
  {
    var u := ReadUnsigned(s, p, 2);
    if u >= 0x8000 then u - Two16 else u
  }

  /** Field `k` of a header, followed by anything, reads back as its value
      reduced modulo the field's range, at its offset. */
  lemma FieldAt(fs: seq<Field>, k: nat, rest: seq<Byte>)
    requires k < |fs|
    ensures Offset(fs, k) + Width(fs[k]) <= |Encode(fs) + rest|
    ensures ReadUnsigned(Encode(fs) + rest, Offset(fs, k), Width(fs[k])) == fs[k].v % Modulus(fs[k])
  {
    OffsetIsStart(fs, k);
    PieceAt(Pieces(fs), k, rest);
    FieldRoundTrip(fs[k]);
  }

  /** A field's bytes decode to the value `DataView` stores. */
  lemma FieldRoundTrip(f: Field)
    ensures ValueOf(FieldBytes(f)) == f.v % Modulus(f)
  {
    Pow256Width(f);
    LittleEndianRoundTrip(f.v % Modulus(f), Width(f));
  }

  lemma Pow256Width(f: Field)
    ensures Pow256(Width(f)) == Modulus(f)
  {
    assert Pow256(2) == Two16;
    assert Pow256(4) == Two32 by {
      assert Pow256(3) == 0x100_0000;
    }
  }

  // ---------------------------------------------------------------- the file

  /** The decoded audio: its sample rate, its frame count (`length`) and one
      sequence of 16-bit samples per channel. */
  datatype AudioBuffer = AudioBuffer(sampleRate: nat, length: nat, channels: seq<seq<Int16>>)

  /** Every channel holds `length` samples, as an `AudioBuffer` guarantees. */
  predicate WellFormed(b: AudioBuffer) {
    forall c :: 0 <= c < |b.channels| ==> |b.channels[c]| == b.length
  }

  /** The size of the output: two bytes per sample and the header. */
  function WaveLength(b: AudioBuffer): nat {
    b.length * |b.channels| * 2 + 44
  }

  const RiffTag := 0x46464952
  const WaveTag := 0x45564157
  const FormatTag := 0x20746d66
  const DataTag := 0x61746164

  /** The header fields in the order they are written: the RIFF chunk with its
      size, the `fmt ` chunk describing 16-bit PCM, and the `data` chunk size. */
  function HeaderFieldsOf(sampleRate: nat, numOfChan: nat, length: nat): seq<Field> {
    [U32(RiffTag), U32(length - 8), U32(WaveTag),
     U32(FormatTag), U32(16), U16(1), U16(numOfChan), U32(sampleRate),
     U32(sampleRate * 2 * numOfChan), U16(numOfChan * 2), U16(16),
     U32(DataTag), U32(length - 44)]
  }

  function HeaderFields(b: AudioBuffer): seq<Field> {
    HeaderFieldsOf(b.sampleRate, |b.channels|, WaveLength(b))
  }

  function Header(b: AudioBuffer): seq<Byte> {
    Encode(HeaderFields(b))
  }

  function SampleBytes(x: Int16): (r: seq<Byte>)
    ensures |r| == 2
  {
    LittleEndian(x % Two16, 2)
  }

  /** The first `m` samples of frame `f`, one per channel. */
  function FrameBytes(b: AudioBuffer, f: nat, m: nat): seq<Byte>
    requires WellFormed(b) && f < b.length && m <= |b.channels|
  {
    if m == 0 then [] else FrameBytes(b, f, m - 1) + SampleBytes(b.channels[m - 1][f])
  }

  /** The first `n` frames. */
  function FramesBytes(b: AudioBuffer, n: nat): seq<Byte>
    requires WellFormed(b) && n <= b.length
  {
    if n == 0 then [] else FramesBytes(b, n - 1) + FrameBytes(b, n - 1, |b.channels|)
  }

  /** The whole file `bufferToWaveBlob` wraps in a Blob. */
  function WaveFile(b: AudioBuffer): seq<Byte>
    requires WellFormed(b)
  {
    Header(b) + FramesBytes(b, b.length)
  }

  // ---------------------------------------------------------------- properties

  lemma {:induction false} FrameBytesLength(b: AudioBuffer, f: nat, m: nat)
    requires WellFormed(b) && f < b.length && m <= |b.channels|
    ensures |FrameBytes(b, f, m)| == 2 * m
  {
    if m > 0 {
      FrameBytesLength(b, f, m - 1);
    }
  }

  lemma {:induction false} FramesBytesLength(b: AudioBuffer, n: nat)
    requires WellFormed(b) && n <= b.length
    ensures |FramesBytes(b, n)| == n * |b.channels| * 2
  {
    if n > 0 {
      FramesBytesLength(b, n - 1);
      FrameBytesLength(b, n - 1, |b.channels|);
      assert n * |b.channels| * 2 == (n - 1) * |b.channels| * 2 + 2 * |b.channels|;
    }
  }

  /** Where each header field starts; the last entry is where the samples start. */
  const HeaderOffsets: seq<nat> := [0, 4, 8, 12, 16, 20, 22, 24, 28, 32, 34, 36, 40, 44]

  /** The widths of the header fields, in order. */
  const HeaderWidths: seq<nat> := [4, 4, 4, 4, 4, 2, 2, 4, 4, 2, 2, 4, 4]

  lemma OffsetsFromWidths(fs: seq<Field>)
    requires |fs| == 13 && forall j :: 0 <= j < 13 ==> Width(fs[j]) == HeaderWidths[j]
    ensures forall k :: 0 <= k <= 13 ==> Offset(fs, k) == HeaderOffsets[k]
  {
    assert Offset(fs, 0) == 0;
    assert Offset(fs, 1) == 4;
    assert Offset(fs, 2) == 8;
    assert Offset(fs, 3) == 12;
    assert Offset(fs, 4) == 16;
    assert Offset(fs, 5) == 20;
    assert Offset(fs, 6) == 22;
    assert Offset(fs, 7) == 24;
    assert Offset(fs, 8) == 28;
    assert Offset(fs, 9) == 32;
    assert Offset(fs, 10) == 34;
    assert Offset(fs, 11) == 36;
    assert Offset(fs, 12) == 40;
    assert Offset(fs, 13) == 44;
  }

  lemma HeaderLayout(b: AudioBuffer)
    ensures |HeaderFields(b)| == 13
    ensures forall k :: 0 <= k <= 13 ==> Offset(HeaderFields(b), k) == HeaderOffsets[k]
    ensures |Header(b)| == 44
  {
    var fs := HeaderFields(b);
    OffsetsFromWidths(fs);
    OffsetIsStart(fs, 13);
    ConcatLength(Pieces(fs), 13);
    assert Pieces(fs)[..13] == Pieces(fs);
  }

  /** The output is exactly `length` bytes long, and the RIFF size field is that
      length minus the 8 bytes of the RIFF chunk header. */
  lemma WaveFileLength(b: AudioBuffer)
    requires WellFormed(b)
    ensures |WaveFile(b)| == WaveLength(b)
  {
    HeaderLayout(b);
    FramesBytesLength(b, b.length);
  }

  /** Every header field reads back, at its offset, as the value given to
      `setUint16`/`setUint32` reduced modulo 2^16 or 2^32. */
  lemma HeaderReadBack(b: AudioBuffer)
    requires WellFormed(b)
    ensures |WaveFile(b)| >= 44
    ensures forall k :: 0 <= k < 13 ==>
      ReadUnsigned(WaveFile(b), HeaderOffsets[k], HeaderWidths[k]) == HeaderFields(b)[k].v % Modulus(HeaderFields(b)[k])
  {
    HeaderLayout(b);
    var fs := HeaderFields(b);
    assert forall j :: 0 <= j < 13 ==> Width(fs[j]) == HeaderWidths[j];
    forall k | 0 <= k < 13
      ensures ReadUnsigned(WaveFile(b), HeaderOffsets[k], HeaderWidths[k]) == fs[k].v % Modulus(fs[k])
    {
      FieldAt(fs, k, FramesBytes(b, b.length));
    }
  }

  /** The RIFF chunk: the tag, the size of everything after the first 8 bytes,
      and the WAVE form type. */
  lemma RiffChunk(b: AudioBuffer)
    requires WellFormed(b)
    ensures |WaveFile(b)| >= 44
    ensures ReadUnsigned(WaveFile(b), 0, 4) == RiffTag
    ensures ReadUnsigned(WaveFile(b), 4, 4) == (|WaveFile(b)| - 8) % Two32
    ensures ReadUnsigned(WaveFile(b), 8, 4) == WaveTag
  {
    HeaderReadBack(b);
    WaveFileLength(b);
    assert HeaderOffsets[0] == 0 && HeaderOffsets[1] == 4 && HeaderOffsets[2] == 8;
  }

  /** The `fmt ` chunk: 16 bytes of PCM format 1 with the channel count, the
      sample rate, the byte rate, the block alignment and 16 bits per sample. */
  lemma FormatChunk(b: AudioBuffer)
    requires WellFormed(b)
    ensures |WaveFile(b)| >= 44
    ensures ReadUnsigned(WaveFile(b), 12, 4) == FormatTag
    ensures ReadUnsigned(WaveFile(b), 16, 4) == 16
    ensures ReadUnsigned(WaveFile(b), 20, 2) == 1
    ensures ReadUnsigned(WaveFile(b), 22, 2) == |b.channels| % Two16
    ensures ReadUnsigned(WaveFile(b), 24, 4) == b.sampleRate % Two32
    ensures ReadUnsigned(WaveFile(b), 28, 4) == (b.sampleRate * 2 * |b.channels|) % Two32
    ensures ReadUnsigned(WaveFile(b), 32, 2) == (|b.channels| * 2) % Two16
    ensures ReadUnsigned(WaveFile(b), 34, 2) == 16
  {
    HeaderReadBack(b);
    assert HeaderOffsets[3] == 12 && HeaderOffsets[4] == 16 && HeaderOffsets[5] == 20 && HeaderOffsets[6] == 22;
    assert HeaderOffsets[7] == 24 && HeaderOffsets[8] == 28 && HeaderOffsets[9] == 32 && HeaderOffsets[10] == 34;
  }

  /** The `data` chunk: its size is the length minus the 44 header bytes. */
  lemma DataChunk(b: AudioBuffer)
    requires WellFormed(b)
    ensures |WaveFile(b)| >= 44
    ensures ReadUnsigned(WaveFile(b), 36, 4) == DataTag
    ensures ReadUnsigned(WaveFile(b), 40, 4) == (|WaveFile(b)| - 44) % Two32
  {
    HeaderReadBack(b);
    WaveFileLength(b);
    assert HeaderOffsets[11] == 36 && HeaderOffsets[12] == 40;
  }

  /** The four tags spell `RIFF`, `WAVE`, `fmt ` and `data` in ASCII. */
  lemma TagsSpellChunkNames()
    ensures FieldBytes(U32(RiffTag)) == Ascii("RIFF")
    ensures FieldBytes(U32(WaveTag)) == Ascii("WAVE")
    ensures FieldBytes(U32(FormatTag)) == Ascii("fmt ")
    ensures FieldBytes(U32(DataTag)) == Ascii("data")
  {
    TagBytes("RIFF", RiffTag);
    TagBytes("WAVE", WaveTag);
    TagBytes("fmt ", FormatTag);
    TagBytes("data", DataTag);
  }

  /** A 32-bit tag whose little-endian bytes are the four characters of `text`. */
  lemma TagBytes(text: string, tag: int)
    requires |text| == 4 && forall i :: 0 <= i < 4 ==> text[i] as int < 256
    requires tag == text[0] as int + 0x100 * text[1] as int + 0x1_0000 * text[2] as int + 0x100_0000 * text[3] as int
    ensures FieldBytes(U32(tag)) == Ascii(text)
  {
    var a, b, c, d := text[0] as int, text[1] as int, text[2] as int, text[3] as int;
    assert tag % Two32 == tag;
    assert tag % 256 == a && tag / 256 == b + 0x100 * c + 0x1_0000 * d;
    assert (tag / 256) % 256 == b && tag / 256 / 256 == c + 0x100 * d;
    assert (tag / 256 / 256) % 256 == c && tag / 256 / 256 / 256 == d;
    var t1, t2, t3 := tag / 256, tag / 256 / 256, tag / 256 / 256 / 256;
    assert LittleEndian(t3, 1) == [d] + LittleEndian(t3 / 256, 0) == [d];
    assert LittleEndian(t2, 2) == [c] + LittleEndian(t3, 1) == [c, d];
    assert LittleEndian(t1, 3) == [b] + LittleEndian(t2, 2) == [b, c, d];
    assert LittleEndian(tag, 4) == [a] + LittleEndian(t1, 3) == [a, b, c, d];
  }

  function Ascii(text: string): seq<int> {
    seq(|text|, i requires 0 <= i < |text| => text[i] as int)
  }

  // ---------------------------------------------------------------- samples

  lemma PrefixExtend(a: seq<Byte>, x: seq<Byte>, y: seq<Byte>)
    requires x <= y
    ensures a + x <= a + y
  {
    assert (a + y)[..|a + x|] == a + x by {
      assert y[..|x|] == x;
    }
  }

  lemma PrefixTrans(x: seq<Byte>, y: seq<Byte>, z: seq<Byte>)
    requires x <= y && y <= z
    ensures x <= z
  {
    assert z[..|y|][..|x|] == z[..|x|];
  }

  lemma {:induction false} FramesPrefix(b: AudioBuffer, m: nat, n: nat)
    requires WellFormed(b) && m <= n <= b.length
    ensures FramesBytes(b, m) <= FramesBytes(b, n)
    decreases n
  {
    if m < n {
      FramesPrefix(b, m, n - 1);
      PrefixTrans(FramesBytes(b, m), FramesBytes(b, n - 1), FramesBytes(b, n));
    }
  }

  lemma {:induction false} FramePrefix(b: AudioBuffer, f: nat, m: nat, n: nat)
    requires WellFormed(b) && f < b.length && m <= n <= |b.channels|
    ensures FrameBytes(b, f, m) <= FrameBytes(b, f, n)
    decreases n
  {
    if m < n {
      FramePrefix(b, f, m, n - 1);
      PrefixTrans(FrameBytes(b, f, m), FrameBytes(b, f, n - 1), FrameBytes(b, f, n));
    }
  }

  /** A 16-bit sample reads back as itself with `getInt16`. */
  lemma SampleRoundTrip(x: Int16)
    ensures ValueOf(SampleBytes(x)) == x % Two16
    ensures (if x % Two16 >= 0x8000 then x % Two16 - Two16 else x % Two16) == x
  {
    assert Pow256(2) == Two16;
    LittleEndianRoundTrip(x % Two16, 2);
  }

  /** Sample `f` of channel `c` is the two bytes at 44 + 2·(f·channels + c):
      frames in order, the channels of a frame interleaved. */
  lemma SampleAt(b: AudioBuffer, f: nat, c: nat)
    requires WellFormed(b) && f < b.length && c < |b.channels|
    ensures 44 + 2 * (f * |b.channels| + c) + 2 <= |WaveFile(b)|
    ensures ReadInt16(WaveFile(b), 44 + 2 * (f * |b.channels| + c)) == b.channels[c][f]
  {
    var nch := |b.channels|;
    var x := b.channels[c][f];
    var head, done, part := Header(b), FramesBytes(b, f), FrameBytes(b, f, c);
    assert |head + done + part| == 44 + 2 * (f * nch + c) by {
      HeaderLayout(b);
      FramesBytesLength(b, f);
      FrameBytesLength(b, f, c);
      assert f * nch * 2 + 2 * c == 2 * (f * nch + c);
    }
    assert head + done + part + SampleBytes(x) <= WaveFile(b) by {
      SampleInWave(b, f, c);
    }
    PrefixSlice(head + done + part, SampleBytes(x), WaveFile(b), []);
    assert WaveFile(b) + [] == WaveFile(b);
    SampleRoundTrip(x);
  }

  lemma SampleInWave(b: AudioBuffer, f: nat, c: nat)
    requires WellFormed(b) && f < b.length && c < |b.channels|
    ensures Header(b) + FramesBytes(b, f) + FrameBytes(b, f, c) + SampleBytes(b.channels[c][f]) <= WaveFile(b)
  {
    var nch := |b.channels|;
    var x := b.channels[c][f];
    var head, done, part := Header(b), FramesBytes(b, f), FrameBytes(b, f, c);
    var frame := FrameBytes(b, f, nch);
    assert FrameBytes(b, f, c + 1) == part + SampleBytes(x);
    FramePrefix(b, f, c + 1, nch);
    assert FramesBytes(b, f + 1) == done + frame;
    FramesPrefix(b, f + 1, b.length);
    Nest(head, done, part, SampleBytes(x), frame, FramesBytes(b, b.length));
  }

  lemma Nest(h: seq<Byte>, d: seq<Byte>, p: seq<Byte>, x: seq<Byte>, fr: seq<Byte>, all: seq<Byte>)
    requires p + x <= fr && d + fr <= all
    ensures h + d + p + x <= h + all
  {
    PrefixExtend(d, p + x, fr);
    PrefixTrans(d + (p + x), d + fr, all);
    PrefixExtend(h, d + (p + x), all);
    assert h + (d + (p + x)) == h + d + p + x;
  }

  // ---------------------------------------------------------------- the writer

  lemma ConcatAppend(ps: seq<seq<Byte>>, x: seq<Byte>)
    ensures Concat(ps + [x]) == Concat(ps) + x
  {
    assert (ps + [x])[..|ps|] == ps;
  }

  lemma EncodeAppend(fs: seq<Field>, f: Field)
    ensures Encode(fs + [f]) == Encode(fs) + FieldBytes(f)
  {
    assert Pieces(fs + [f]) == Pieces(fs) + [FieldBytes(f)];
    ConcatAppend(Pieces(fs), FieldBytes(f));
  }

  lemma EncodeNext(fs: seq<Field>, k: nat)
    requires k < |fs|
    ensures Encode(fs[..k + 1]) == Encode(fs[..k]) + FieldBytes(fs[k])
  {
    assert fs[..k + 1] == fs[..k] + [fs[k]];
    EncodeAppend(fs[..k], fs[k]);
  }

  /** `setUint16(data)`: two little-endian bytes at the cursor, which then
      moves on by two; `before` names the bytes already in place. */
  method SetUint16(view: array<Byte>, pos: nat, data: int, ghost before: seq<Byte>)
    returns (next: nat, ghost after: seq<Byte>)
    requires pos + 2 <= view.Length && view[..pos] == before
    modifies view
    ensures next == pos + 2 && after == before + FieldBytes(U16(data)) && view[..next] == after
    ensures forall k :: next <= k < view.Length ==> view[k] == old(view[k])
  {
    var w := data % Two16;
    view[pos] := w % 256;
    view[pos + 1] := w / 256;
    assert LittleEndian(w / 256, 1) == [w / 256];
    assert view[..pos + 2] == view[..pos] + [w % 256, w / 256];
    next, after := pos + 2, before + FieldBytes(U16(data));
  }

  /** `setUint32(data)`: four little-endian bytes at the cursor. */
  method SetUint32(view: array<Byte>, pos: nat, data: int, ghost before: seq<Byte>)
    returns (next: nat, ghost after: seq<Byte>)
    requires pos + 4 <= view.Length && view[..pos] == before
    modifies view
    ensures next == pos + 4 && after == before + FieldBytes(U32(data)) && view[..next] == after
    ensures forall k :: next <= k < view.Length ==> view[k] == old(view[k])
  {
    var w := data % Two32;
    view[pos] := w % 256;
    view[pos + 1] := w / 256 % 256;
    view[pos + 2] := w / 0x1_0000 % 256;
    view[pos + 3] := w / 0x100_0000;
    assert LittleEndian(w / 0x100_0000, 1) == [w / 0x100_0000];
    assert LittleEndian(w / 0x1_0000, 2) == [w / 0x1_0000 % 256, w / 0x100_0000];
    assert LittleEndian(w / 256, 3) == [w / 256 % 256, w / 0x1_0000 % 256, w / 0x100_0000];
    assert view[..pos + 4] == view[..pos] + [w % 256, w / 256 % 256, w / 0x1_0000 % 256, w / 0x100_0000];
    next, after := pos + 4, before + FieldBytes(U32(data));
  }

  /** `view.setInt16(pos, sample, true)`: the sample's two's-complement bytes. */
  method SetInt16(view: array<Byte>, pos: nat, sample: Int16, ghost before: seq<Byte>) returns (next: nat)
    requires pos + 2 <= view.Length && view[..pos] == before
    modifies view
    ensures next == pos + 2 && view[..next] == before + SampleBytes(sample)
    ensures forall k :: next <= k < view.Length ==> view[k] == old(view[k])
  {
    var w := sample % Two16;
    view[pos] := w % 256;
    view[pos + 1] := w / 256;
    assert LittleEndian(w / 256, 1) == [w / 256];
    assert view[..pos + 2] == view[..pos] + [w % 256, w / 256];
    next := pos + 2;
  }

  /** The cursor after `offset` whole frames of `numOfChan` samples. */
  function FramesEnd(offset: nat, numOfChan: nat): nat {
    44 + offset * numOfChan * 2
  }

  lemma FrameFits(offset: nat, frames: nat, numOfChan: nat)
    requires offset < frames
    ensures FramesEnd(offset, numOfChan) + 2 * numOfChan <= FramesEnd(frames, numOfChan)
    ensures FramesEnd(offset, numOfChan) + 2 * numOfChan == FramesEnd(offset + 1, numOfChan)
  {
    MulMonotone(offset + 1, frames, numOfChan * 2);
  }

  /** Cursor past the end with frames still unwritten only when frames are empty. */
  lemma FramesDone(offset: nat, frames: nat, numOfChan: nat)
    requires offset <= frames && FramesEnd(offset, numOfChan) >= FramesEnd(frames, numOfChan)
    ensures offset == frames || numOfChan == 0
  {
    if offset < frames {
      MulMonotone(offset + 1, frames, numOfChan * 2);
    }
  }

  /** Arithmetic helper for `FrameFits` and `FramesDone`; not part of the source. */
  lemma MulMonotone(a: nat, n: nat, k: nat)
    requires a <= n
    ensures a * k <= n * k
  {
  }

  lemma {:induction false} FramesWithoutChannels(b: AudioBuffer, n: nat)
    requires WellFormed(b) && |b.channels| == 0 && n <= b.length
    ensures FramesBytes(b, n) == []
  {
    if n > 0 {
      FramesWithoutChannels(b, n - 1);
    }
  }

  /** One pass of the inner `for` loop: every channel's sample at `offset`. */
  method WriteFrame(view: array<Byte>, b: AudioBuffer, offset: nat, pos: nat, ghost done: seq<Byte>)
    returns (next: nat)
    requires WellFormed(b) && offset < b.length
    requires pos + 2 * |b.channels| <= view.Length && view[..pos] == done
    modifies view
    ensures next == pos + 2 * |b.channels| && view[..next] == done + FrameBytes(b, offset, |b.channels|)
    ensures forall k :: next <= k < view.Length ==> view[k] == old(view[k])
  {
    next := pos;
    var i := 0;
    while i < |b.channels|
      invariant 0 <= i <= |b.channels|
      invariant next == pos + 2 * i
      invariant view[..next] == done + FrameBytes(b, offset, i)
      invariant forall k :: next <= k < view.Length ==> view[k] == old(view[k])
    {
      next := SetInt16(view, next, b.channels[i][offset], done + FrameBytes(b, offset, i));
      i := i + 1;
    }
  }

  /** The header part of `bufferToWaveBlob`: thirteen fields from the start. */
  method WriteHeader(view: array<Byte>, sampleRate: nat, numOfChan: nat, length: nat) returns (pos: nat)
    requires view.Length == length && length >= 44
    modifies view
    ensures pos == 44 && view[..pos] == Encode(HeaderFieldsOf(sampleRate, numOfChan, length))
    ensures forall k :: pos <= k < view.Length ==> view[k] == old(view[k])
  {
    pos := 0;
    ghost var bytes: seq<Byte> := [];
    assert view[..0] == bytes;

    pos, bytes := SetUint32(view, pos, RiffTag, bytes);
    pos, bytes := SetUint32(view, pos, length - 8, bytes);
    pos, bytes := SetUint32(view, pos, WaveTag, bytes);

    pos, bytes := SetUint32(view, pos, FormatTag, bytes);
    pos, bytes := SetUint32(view, pos, 16, bytes);
    pos, bytes := SetUint16(view, pos, 1, bytes);
    pos, bytes := SetUint16(view, pos, numOfChan, bytes);
    pos, bytes := SetUint32(view, pos, sampleRate, bytes);
    pos, bytes := SetUint32(view, pos, sampleRate * 2 * numOfChan, bytes);
    pos, bytes := SetUint16(view, pos, numOfChan * 2, bytes);
    pos, bytes := SetUint16(view, pos, 16, bytes);

    pos, bytes := SetUint32(view, pos, DataTag, bytes);
    pos, bytes := SetUint32(view, pos, length - pos - 4, bytes);
    HeaderAsWritten(HeaderFieldsOf(sampleRate, numOfChan, length));
  }

  /** `bufferToWaveBlob`: the header through `setUint32`/`setUint16` calls that
      advance `pos`, then the samples frame by frame until `pos` reaches the
      length computed up front. The result is the file `WaveFile` describes. */
  method BufferToWaveBlob(b: AudioBuffer) returns (view: array<Byte>)
    requires WellFormed(b)
    ensures fresh(view)
    ensures view.Length == WaveLength(b)
    ensures view[..] == WaveFile(b)
  {
    var numOfChan := |b.channels|;
    var length := b.length * numOfChan * 2 + 44;
    view := new Byte[length];
    var offset := 0;
    var pos := WriteHeader(view, b.sampleRate, numOfChan, length);
    ghost var header := Header(b);
    assert view[..pos] == header + FramesBytes(b, 0);

    while pos < length
      invariant offset <= b.length && pos == FramesEnd(offset, numOfChan)
      invariant view.Length == length == FramesEnd(b.length, numOfChan)
      invariant pos <= length
      invariant view[..pos] == header + FramesBytes(b, offset)
      decreases b.length - offset
    {
      if offset == b.length {
        assert false;
      }
      FrameFits(offset, b.length, numOfChan);
      pos := WriteFrame(view, b, offset, pos, header + FramesBytes(b, offset));
      FramesOneMore(header, b, offset);
      offset := offset + 1;
    }
    FramesDone(offset, b.length, numOfChan);
    if numOfChan == 0 {
      FramesWithoutChannels(b, offset);
      FramesWithoutChannels(b, b.length);
    }
    assert view[..] == view[..pos];
  }

  /** Writing frame `f` after the first `f` frames gives the first `f + 1`. */
  lemma FramesOneMore(header: seq<Byte>, b: AudioBuffer, f: nat)
    requires WellFormed(b) && f < b.length
    ensures header + FramesBytes(b, f) + FrameBytes(b, f, |b.channels|) == header + FramesBytes(b, f + 1)
  {
  }

  /** The header is its fields' bytes one after another. */
  lemma HeaderAsWritten(fs: seq<Field>)
    requires |fs| == 13
    ensures Encode(fs) == [] + FieldBytes(fs[0]) + FieldBytes(fs[1]) + FieldBytes(fs[2]) + FieldBytes(fs[3]) +
        FieldBytes(fs[4]) + FieldBytes(fs[5]) + FieldBytes(fs[6]) + FieldBytes(fs[7]) + FieldBytes(fs[8]) +
        FieldBytes(fs[9]) + FieldBytes(fs[10]) + FieldBytes(fs[11]) + FieldBytes(fs[12])
  {
    assert fs[..0] == [];
    EncodeNext(fs, 0); EncodeNext(fs, 1); EncodeNext(fs, 2); EncodeNext(fs, 3);
    EncodeNext(fs, 4); EncodeNext(fs, 5); EncodeNext(fs, 6); EncodeNext(fs, 7);
    EncodeNext(fs, 8); EncodeNext(fs, 9); EncodeNext(fs, 10); EncodeNext(fs, 11);
    EncodeNext(fs, 12);
    assert fs[..13] == fs;
  }
}
