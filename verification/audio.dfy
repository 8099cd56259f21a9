/** The byte-level audio helpers of `src/App.jsx`: format sniffing, building a
    48 kHz mono 16-bit WAV file around raw PCM, stripping the header of a WAV
    segment, and decoding LINEAR16 samples. */
module Audio {
  import opened Seqs
  import opened Wrappers

  newtype byte = x: int | 0 <= x < 256

  /** What `detectAudioFormat` reports: `'pcm'`, `'wav'` or `'encoded'`. */
  datatype Format = Pcm | Wav | Encoded

  const TwoTo16: nat := 0x1_0000
  const TwoTo32: nat := 0x1_0000_0000

  // ---------------------------------------------------------------------------
  // Little-endian fields

  /** `DataView.setUint16(offset, v, true)`: the value is taken modulo 2^16. */
  function LE16(v: nat): (r: seq<byte>)
    ensures |r| == 2
  {
    [(v % 256) as byte, (v / 256 % 256) as byte]
  }

  /** `DataView.setUint32(offset, v, true)`: the value is taken modulo 2^32. */
  function LE32(v: nat): (r: seq<byte>)
    ensures |r| == 4
  {
    LE16(v % TwoTo16) + LE16(v / TwoTo16 % TwoTo16)
  }

  /** `DataView.getUint16(i, true)`. */
  function U16(b: seq<byte>, i: nat): nat
    requires i + 2 <= |b|
  {
    b[i] as nat + 256 * b[i + 1] as nat
  }

  /** `DataView.getUint32(i, true)`. */
  function U32(b: seq<byte>, i: nat): nat
    requires i + 4 <= |b|
  {
    U16(b, i) + TwoTo16 * U16(b, i + 2)
  }

  lemma {:induction false} LE16RoundTrip(v: nat)
    ensures U16(LE16(v), 0) == v % TwoTo16
  {
    var lo, hi := v % 256, v / 256 % 256;
    assert v / 256 % 256 == v % TwoTo16 / 256 by {
      DivMod256(v);
    }
  }

  lemma {:induction false} DivMod256(v: nat)
    ensures v / 256 % 256 == v % TwoTo16 / 256
    ensures v % TwoTo16 == v % TwoTo16 / 256 * 256 + v % 256
  {
    var q := v / TwoTo16;
    var m := v % TwoTo16;
    assert v == q * TwoTo16 + m;
    assert v / 256 == q * 256 + m / 256;
    assert (q * 256 + m / 256) % 256 == m / 256;
  }

  lemma {:induction false} LE32RoundTrip(v: nat)
    ensures U32(LE32(v), 0) == v % TwoTo32
  {
    var lo, hi := v % TwoTo16, v / TwoTo16 % TwoTo16;
    LE16RoundTrip(lo);
    LE16RoundTrip(hi);
    var r := LE32(v);
    assert r[..2] == LE16(lo) && r[2..] == LE16(hi);
    assert U16(r, 0) == U16(LE16(lo), 0);
    assert U16(r, 2) == U16(LE16(hi), 0);
    DivMod65536(v);
  }

  lemma {:induction false} DivMod65536(v: nat)
    ensures v % TwoTo32 == v / TwoTo16 % TwoTo16 * TwoTo16 + v % TwoTo16
  {
    var q := v / TwoTo32;
    var m := v % TwoTo32;
    assert v == q * TwoTo32 + m;
    assert v / TwoTo16 == q * TwoTo16 + m / TwoTo16;
    assert (q * TwoTo16 + m / TwoTo16) % TwoTo16 == m / TwoTo16;
    assert v % TwoTo16 == m % TwoTo16;
  }

  /** Writing the value of two bytes gives the two bytes back. */
  lemma {:induction false} LE16OfBytes(lo: byte, hi: byte)
    ensures LE16(lo as nat + 256 * hi as nat) == [lo, hi]
  {
    var v := lo as nat + 256 * hi as nat;
    assert v % 256 == lo as nat;
    assert v / 256 == hi as nat;
  }

  lemma {:induction false} U16Slice(b: seq<byte>, i: nat, c: seq<byte>)
    requires i + 2 <= |b| && c == b[i..i + 2]
    ensures U16(b, i) == U16(c, 0)
  {
  }

  lemma {:induction false} U32Slice(b: seq<byte>, i: nat, c: seq<byte>)
    requires i + 4 <= |b| && c == b[i..i + 4]
    ensures U32(b, i) == U32(c, 0)
  {
    assert U16(b, i) == U16(c, 0);
    assert U16(b, i + 2) == U16(c, 2);
  }

  // ---------------------------------------------------------------------------
  // detectAudioFormat

  /** `(x & 0xE0) === 0xE0`: the top three bits of the byte are set. */
  predicate HighBitsSet(x: byte)
  {
    (x as bv8) & 0xE0 == 0xE0
  }

  /** The MP3 frame-sync test is the same as "the byte is at least 0xE0". */
  lemma {:induction false} HighBitsSetIsAtLeastE0(x: byte)
    ensures HighBitsSet(x) <==> x >= 0xE0
  {
    var v := x as bv8;
    MaskE0(v);
    assert v >= 0xE0 <==> x >= 0xE0;
  }

  lemma {:induction false} MaskE0(v: bv8)
    ensures (v & 0xE0 == 0xE0) <==> v >= 0xE0
  {
  }

  const RiffTag: seq<byte> := [0x52, 0x49, 0x46, 0x46]
  const WaveTag: seq<byte> := [0x57, 0x41, 0x56, 0x45]
  const FmtTag: seq<byte> := [0x66, 0x6D, 0x74, 0x20]
  const DataTag: seq<byte> := [0x64, 0x61, 0x74, 0x61]
  const Id3Tag: seq<byte> := [0x49, 0x44, 0x33]
  const OggTag: seq<byte> := [0x4F, 0x67, 0x67, 0x53]

  /** An MPEG audio frame starts: 0xFF, then a byte of at least 0xE0. */
  predicate Mp3Sync(b: seq<byte>)
    requires |b| >= 2
  {
    b[0] == 0xFF && b[1] >= 0xE0
  }

  /** `detectAudioFormat`: a RIFF header means WAV; an MP3 frame sync, an ID3 tag
      or an Ogg page means encoded audio; anything else, including fewer than four
      bytes, is taken for raw PCM. Only the first four bytes matter. */
  function DetectAudioFormat(b: seq<byte>): (f: Format)
    ensures |b| < 4 ==> f == Pcm
    ensures f == Wav <==> |b| >= 4 && b[..4] == RiffTag
    ensures f == Encoded <==> |b| >= 4 && (Mp3Sync(b) || b[..3] == Id3Tag || b[..4] == OggTag)
  {
    if |b| < 4 then Pcm
    else
      HighBitsSetIsAtLeastE0(b[1]);
      if b[0] == 0x52 && b[1] == 0x49 && b[2] == 0x46 && b[3] == 0x46 then Wav
      else if b[0] == 0xFF && HighBitsSet(b[1]) then Encoded
      else if b[0] == 0x49 && b[1] == 0x44 && b[2] == 0x33 then Encoded
      else if b[0] == 0x4F && b[1] == 0x67 && b[2] == 0x67 && b[3] == 0x53 then Encoded
      else Pcm
  }

  /** The format of a segment depends on its first four bytes only. */
  lemma {:induction false} DetectByPrefix(b: seq<byte>, c: seq<byte>)
    requires |b| >= 4 && |c| >= 4 && b[..4] == c[..4]
    ensures DetectAudioFormat(b) == DetectAudioFormat(c)
  {
    assert b[0] == c[0] && b[1] == c[1] && b[2] == c[2] && b[3] == c[3] by {
      assert b[..4][0] == b[0] && b[..4][1] == b[1] && b[..4][2] == b[2] && b[..4][3] == b[3];
      assert c[..4][0] == c[0] && c[..4][1] == c[1] && c[..4][2] == c[2] && c[..4][3] == c[3];
    }
  }

  /** An MP3 frame header (0xFF, then a byte with the top three bits set) is
      recognised as encoded audio. */
  lemma {:induction false} DetectMp3Frame(b: seq<byte>)
    requires |b| >= 4 && b[0] == 0xFF && b[1] >= 0xE0
    ensures DetectAudioFormat(b) == Encoded
  {
    HighBitsSetIsAtLeastE0(b[1]);
  }

  // ---------------------------------------------------------------------------
  // createWavBlob

  const SampleRate: nat := 48000
  const NumChannels: nat := 1
  const BitsPerSample: nat := 16

  /** Bytes 8 to 40 of the header: the "WAVE" tag, the `fmt ` chunk (16 bytes of
      PCM format 1, mono, 48 kHz, 96000 bytes a second, 2-byte frames, 16 bits)
      and the "data" tag. They do not depend on the length. */
  const FormatChunk: seq<byte> := WaveTag + FmtTag + FormatFields + DataTag

  /** The 20 bytes of the `fmt ` chunk after its tag: its size, then the format. */
  const FormatFields: seq<byte> :=
    LE32(16) + LE16(1) + LE16(NumChannels) + LE32(SampleRate)
    + LE32(SampleRate * NumChannels * BitsPerSample / 8)
    + LE16(NumChannels * BitsPerSample / 8) + LE16(BitsPerSample)

  /** The 44-byte header `createWavBlob` writes for `total` bytes of PCM. */
  function WavHeader(total: nat): (r: seq<byte>)
    ensures |r| == 44
  {
    RiffTag + LE32(36 + total) + FormatChunk + LE32(total)
  }

  /** `createWavBlob`: one WAV file holding the chunks, one after the other. */
  function CreateWavBlob(chunks: seq<seq<byte>>): (r: seq<byte>)
    ensures |r| == 44 + TotalLength(chunks)
    ensures r[..44] == WavHeader(TotalLength(chunks))
    ensures r[44..] == Concat(chunks)
  {
    ConcatLength(chunks);
    WavHeader(TotalLength(chunks)) + Concat(chunks)
  }

  /** What a WAV reader takes from a canonical 44-byte header. */
  datatype WavInfo = WavInfo(channels: nat, sampleRate: nat, byteRate: nat,
                             blockAlign: nat, bitsPerSample: nat, riffSize: nat, dataSize: nat)

  /** A reader of the canonical header: the four tags in place, PCM format (1). */
  function ParseWavHeader(b: seq<byte>): Option<WavInfo>
  {
    if |b| < 44 || b[0..4] != RiffTag || b[8..12] != WaveTag || b[12..16] != FmtTag
       || U16(b, 20) != 1 || b[36..40] != DataTag
    then None
    else Some(WavInfo(U16(b, 22), U32(b, 24), U32(b, 28), U16(b, 32), U16(b, 34),
                      U32(b, 4), U32(b, 40)))
  }

  /** A reader sees the blob as 48 kHz mono 16-bit PCM with the right sizes
      (modulo 2^32, as `setUint32` stores them). */
  lemma {:induction false} ParseCreatedWav(chunks: seq<seq<byte>>)
    ensures ParseWavHeader(CreateWavBlob(chunks))
         == Some(WavInfo(1, 48000, 96000, 2, 16,
                         (36 + TotalLength(chunks)) % TwoTo32, TotalLength(chunks) % TwoTo32))
  {
    var total := TotalLength(chunks);
    var h := WavHeader(total);
    SameHeader(CreateWavBlob(chunks), h);
    HeaderFields(total);
  }

  /** A blob `createWavBlob` builds is taken for WAV, and its size fields count
      its own bytes after the RIFF size field and after the header. */
  lemma {:induction false} CreatedWavDescribed(chunks: seq<seq<byte>>)
    ensures var b := CreateWavBlob(chunks);
      && |b| >= 44
      && DetectAudioFormat(b) == Wav
      && ParseWavHeader(b) == Some(WavInfo(1, 48000, 96000, 2, 16, (|b| - 8) % TwoTo32, (|b| - 44) % TwoTo32))
  {
    var b := CreateWavBlob(chunks);
    var total := TotalLength(chunks);
    assert |b| - 8 == 36 + total && |b| - 44 == total;
    DetectCreatedWav(chunks);
    ParseCreatedWav(chunks);
  }

  /** A reader looks at the first 44 bytes only. */
  lemma {:induction false} SameHeader(b: seq<byte>, h: seq<byte>)
    requires |h| == 44 <= |b| && b[..44] == h
    ensures ParseWavHeader(b) == ParseWavHeader(h)
  {
    assert forall i :: 0 <= i < 44 ==> b[i] == h[i];
    assert b[0..4] == h[0..4] && b[8..12] == h[8..12] && b[12..16] == h[12..16] && b[36..40] == h[36..40];
  }

  /** The fields of the header, read back. */
  lemma {:induction false} HeaderFields(total: nat)
    ensures var h := WavHeader(total);
      && h[0..4] == RiffTag && h[8..12] == WaveTag && h[12..16] == FmtTag && h[36..40] == DataTag
      && U16(h, 20) == 1 && U16(h, 22) == 1 && U32(h, 24) == 48000
      && U32(h, 28) == 96000 && U16(h, 32) == 2 && U16(h, 34) == 16
      && U32(h, 4) == (36 + total) % TwoTo32 && U32(h, 40) == total % TwoTo32
  {
    HeaderTags(total);
    HeaderFormat(total);
    HeaderSizes(total);
  }

  /** The bytes of the format chunk. */
  lemma {:induction false} FormatChunkBytes()
    ensures FormatChunk
         == [0x57, 0x41, 0x56, 0x45, 0x66, 0x6D, 0x74, 0x20, 16, 0, 0, 0, 1, 0, 1, 0,
             0x80, 0xBB, 0, 0, 0x00, 0x77, 0x01, 0x00, 2, 0, 16, 0, 0x64, 0x61, 0x74, 0x61]
  {
    FormatFieldsBytes();
  }

  lemma {:induction false} FormatFieldsBytes()
    ensures FormatFields == [16, 0, 0, 0, 1, 0, 1, 0, 0x80, 0xBB, 0, 0, 0x00, 0x77, 0x01, 0x00, 2, 0, 16, 0]
  {
    assert LE32(16) == [16, 0, 0, 0];
    assert LE16(1) == [1, 0];
    assert LE32(48000) == [0x80, 0xBB, 0, 0];
    assert LE32(96000) == [0x00, 0x77, 0x01, 0x00];
    assert LE16(2) == [2, 0];
    assert LE16(16) == [16, 0];
  }

  /** Where the parts of the header sit. */
  lemma {:induction false} HeaderParts(total: nat)
    ensures var h := WavHeader(total);
      && h[..4] == RiffTag && h[4..8] == LE32(36 + total) && h[40..] == LE32(total)
      && forall j :: 8 <= j < 40 ==> h[j] == FormatChunk[j - 8]
  {
    var a := RiffTag + LE32(36 + total);
    var c := a + FormatChunk;
    assert WavHeader(total) == c + LE32(total);
    assert c[..4] == RiffTag && c[4..8] == LE32(36 + total);
  }

  lemma {:induction false} HeaderTags(total: nat)
    ensures var h := WavHeader(total);
      h[0..4] == RiffTag && h[8..12] == WaveTag && h[12..16] == FmtTag && h[36..40] == DataTag
  {
    HeaderParts(total);
    FormatChunkBytes();
    var h := WavHeader(total);
    assert h[0..4] == h[..4];
  }

  lemma {:induction false} HeaderFormat(total: nat)
    ensures var h := WavHeader(total);
      && U16(h, 20) == 1 && U16(h, 22) == 1 && U32(h, 24) == 48000
      && U32(h, 28) == 96000 && U16(h, 32) == 2 && U16(h, 34) == 16
  {
    HeaderParts(total);
    FormatChunkBytes();
  }

  lemma {:induction false} HeaderSizes(total: nat)
    ensures var h := WavHeader(total);
      U32(h, 4) == (36 + total) % TwoTo32 && U32(h, 40) == total % TwoTo32
  {
    var h := WavHeader(total);
    HeaderParts(total);
    U32Slice(h, 4, h[4..8]);
    assert h[40..44] == h[40..];
    U32Slice(h, 40, h[40..44]);
    LE32RoundTrip(36 + total);
    LE32RoundTrip(total);
  }

  /** Every blob `createWavBlob` builds is recognised as WAV. */
  lemma {:induction false} DetectCreatedWav(chunks: seq<seq<byte>>)
    ensures DetectAudioFormat(CreateWavBlob(chunks)) == Wav
  {
    var b := CreateWavBlob(chunks);
    HeaderFields(TotalLength(chunks));
    assert b[..4] == WavHeader(TotalLength(chunks))[0..4];
  }

  // ---------------------------------------------------------------------------
  // stripWavHeader

  /** The bytes "data" at position `i`. */
  predicate DataMarkerAt(b: seq<byte>, i: nat)
    requires i + 4 <= |b|
  {
    b[i] == 0x64 && b[i + 1] == 0x61 && b[i + 2] == 0x74 && b[i + 3] == 0x61
  }

  /** The first position in `[i, end)` that holds the "data" marker; every such
      position leaves room for the marker and its 4-byte size field. */
  function FindData(b: seq<byte>, i: nat, end: int): (r: Option<nat>)
    requires end <= |b| - 7
    ensures r.Some? ==> i <= r.value < end && DataMarkerAt(b, r.value)
    ensures r.Some? ==> forall j :: i <= j < r.value ==> !DataMarkerAt(b, j)
    ensures r.None? ==> forall j :: i <= j < end ==> !DataMarkerAt(b, j)
    decreases end - i
  {
    if i >= end then None
    else if DataMarkerAt(b, i) then Some(i)
    else FindData(b, i + 1, end)
  }

  lemma {:induction false} FindDataNone(b: seq<byte>, i: nat, end: int)
    requires end <= |b| - 7
    requires forall j :: i <= j < end ==> !DataMarkerAt(b, j)
    ensures FindData(b, i, end) == None
  {
  }

  /** `stripWavHeader` as written: the loop runs while `i < length - 8`, so the
      last position the marker can take, `length - 8`, is never examined. */
  function StripWavHeaderAsWritten(b: seq<byte>): seq<byte>
  {
    match FindData(b, 0, |b| - 8)
    case Some(i) => b[i + 8..]
    case None => b
  }

  /** `stripWavHeader` with the loop bound corrected to `i <= length - 8`: the
      bytes after the first "data" marker and its size field, or the whole input
      when there is no marker. */
  function StripWavHeader(b: seq<byte>): (r: seq<byte>)
    ensures |r| <= |b| && r == b[|b| - |r|..]
    ensures r != b ==> |r| + 8 <= |b| && DataMarkerAt(b, |b| - |r| - 8)
    ensures r != b ==> forall j :: 0 <= j < |b| - |r| - 8 ==> !DataMarkerAt(b, j)
    ensures r == b ==> forall j :: 0 <= j <= |b| - 8 ==> !DataMarkerAt(b, j)
  {
    match FindData(b, 0, |b| - 7)
    case Some(i) => b[i + 8..]
    case None => b
  }

  /** The header of a blob `createWavBlob` builds has its first "data" marker at
      36, unless the RIFF size field happens to spell "data". */
  lemma {:induction false} NoEarlierMarker(total: nat)
    requires (36 + total) % TwoTo32 != 0x61746164
    ensures forall j :: 0 <= j < 36 ==> !DataMarkerAt(WavHeader(total), j)
    ensures DataMarkerAt(WavHeader(total), 36)
  {
    NoMarkerBeforeFormat(total);
    NoMarkerInFormat(total);
  }

  /** Neither the "RIFF" tag nor the size field, nor any position overlapping
      "WAVE", starts a marker (the size field aside). */
  lemma {:induction false} NoMarkerBeforeFormat(total: nat)
    requires (36 + total) % TwoTo32 != 0x61746164
    ensures forall j :: 0 <= j < 8 ==> !DataMarkerAt(WavHeader(total), j)
  {
    var h := WavHeader(total);
    HeaderParts(total);
    HeaderSizes(total);
    MarkerValue(h, 4);
    assert h[8] == FormatChunk[0] == 0x57;
    forall j | 0 <= j < 4
      ensures !DataMarkerAt(h, j)
    {
      assert h[j] == h[..4][j];
    }
  }

  /** In the format chunk the only marker is the "data" tag, at 36. */
  lemma {:induction false} NoMarkerInFormat(total: nat)
    ensures forall j :: 8 <= j < 36 ==> !DataMarkerAt(WavHeader(total), j)
    ensures DataMarkerAt(WavHeader(total), 36)
  {
    var h := WavHeader(total);
    HeaderParts(total);
    FormatChunkMarker();
    forall j | 8 <= j < 36
      ensures !DataMarkerAt(h, j)
    {
      assert h[j] == FormatChunk[j - 8];
    }
    assert h[36] == FormatChunk[28] && h[37] == FormatChunk[29];
    assert h[38] == FormatChunk[30] && h[39] == FormatChunk[31];
  }

  /** The byte 0x64 ('d') occurs in the format chunk only where its "data" tag starts. */
  lemma {:induction false} FormatChunkMarker()
    ensures forall k :: 0 <= k < 28 ==> FormatChunk[k] != 0x64
    ensures FormatChunk[28..] == DataTag
  {
    FormatChunkBytes();
  }

  /** The marker bytes, read as a little-endian 32-bit value. */
  lemma {:induction false} MarkerValue(b: seq<byte>, i: nat)
    requires i + 4 <= |b|
    ensures DataMarkerAt(b, i) ==> U32(b, i) == 0x61746164
  {
  }

  /** Stripping the header of a blob `createWavBlob` built gives back its PCM. */
  lemma {:induction false} StripCreatedWav(chunks: seq<seq<byte>>)
    requires (36 + TotalLength(chunks)) % TwoTo32 != 0x61746164
    ensures StripWavHeader(CreateWavBlob(chunks)) == Concat(chunks)
  {
    var total := TotalLength(chunks);
    var b := CreateWavBlob(chunks);
    var h := WavHeader(total);
    NoEarlierMarker(total);
    assert forall j :: 0 <= j <= 36 ==> DataMarkerAt(b, j) == DataMarkerAt(h, j) by {
      assert forall i :: 0 <= i < 44 ==> b[i] == h[i];
    }
    assert FindData(b, 0, |b| - 7) == Some(36);
  }

  /** As written, stripping still gives back the PCM of a blob whose data chunk
      is not empty: its marker at 36 lies before `length - 8`. */
  lemma {:induction false} StripCreatedWavAsWritten(chunks: seq<seq<byte>>)
    requires (36 + TotalLength(chunks)) % TwoTo32 != 0x61746164
    requires TotalLength(chunks) > 0
    ensures StripWavHeaderAsWritten(CreateWavBlob(chunks)) == Concat(chunks)
  {
    var total := TotalLength(chunks);
    var b := CreateWavBlob(chunks);
    var h := WavHeader(total);
    NoEarlierMarker(total);
    assert forall j :: 0 <= j <= 36 ==> DataMarkerAt(b, j) == DataMarkerAt(h, j) by {
      assert forall i :: 0 <= i < 44 ==> b[i] == h[i];
    }
    assert FindData(b, 0, |b| - 8) == Some(36);
  }

  /** The finding: as written, a WAV segment whose data chunk is empty keeps its
      whole 44-byte header, which then ends up in the final file as audio. */
  lemma {:induction false} AsWrittenKeepsEmptySegmentHeader()
    ensures StripWavHeaderAsWritten(CreateWavBlob([])) == CreateWavBlob([])
    ensures |StripWavHeaderAsWritten(CreateWavBlob([]))| == 44
    ensures StripWavHeader(CreateWavBlob([])) == []
  {
    var b := CreateWavBlob([]);
    EmptyBlobIsHeader();
    NoMarkerBefore36();
    StripCreatedWav([]);
  }

  lemma {:induction false} EmptyBlobIsHeader()
    ensures CreateWavBlob([]) == WavHeader(0)
  {
    var b := CreateWavBlob([]);
    assert TotalLength<byte>([]) == 0;
    assert b[..44] == WavHeader(0) && |b| == 44;
  }

  /** In the header of an empty blob, the loop as written stops at 36, just
      before the marker. */
  lemma {:induction false} NoMarkerBefore36()
    ensures FindData(WavHeader(0), 0, 36) == None
  {
    NoEarlierMarker(0);
    FindDataNone(WavHeader(0), 0, 36);
  }

  // ---------------------------------------------------------------------------
  // LINEAR16 decoding (pcmToAudioBuffer)

  /** `getInt16(2 * i, true)`: a little-endian two's-complement sample. */
  function Int16At(b: seq<byte>, i: nat): (v: int)
    requires 2 * i + 2 <= |b|
    ensures -32768 <= v < 32768
  {
    var u := U16(b, 2 * i);
    if u >= 32768 then u - TwoTo16 else u
  }

  predicate IsSample(v: int)
  {
    -32768 <= v < 32768
  }

  /** The samples of `pcmToAudioBuffer`, with the count corrected to the number
      of whole samples, `floor(length / 2)`. The buffer must hold at least one
      sample: `createBuffer` rejects a length of zero. (The conversion of each
      sample to a float, `int16 / 32768`, is left out.) */
  function DecodePcm(b: seq<byte>): (r: Option<seq<int>>)
    ensures r.Some? <==> |b| >= 2
    ensures r.Some? ==> |r.value| == |b| / 2
    ensures r.Some? ==> forall k :: 0 <= k < |r.value| ==> IsSample(r.value[k])
  {
    if |b| < 2 then None
    else Some(seq(|b| / 2, i requires 0 <= i < |b| / 2 => Int16At(b, i)))
  }

  /** `pcmToAudioBuffer` as written: `numSamples = length / 2` is fractional for
      an odd length; the loop then reads a sample past the end and `getInt16`
      throws, so the segment is not decoded at all. A single byte makes a
      zero-length buffer, which `createBuffer` rejects. */
  function DecodePcmAsWritten(b: seq<byte>): Option<seq<int>>
  {
    if |b| < 2 || |b| % 2 == 1 then None
    else Some(seq(|b| / 2, i requires 0 <= i < |b| / 2 => Int16At(b, i)))
  }

  /** LINEAR16 encoding of samples, the inverse of `DecodePcm`. */
  function EncodePcm(samples: seq<int>): (r: seq<byte>)
    requires forall k :: 0 <= k < |samples| ==> IsSample(samples[k])
    ensures |r| == 2 * |samples|
    decreases |samples|
  {
    if samples == [] then []
    else
      var v := samples[0];
      assert IsSample(v);
      LE16(if v < 0 then v + TwoTo16 else v) + EncodePcm(samples[1..])
  }

  lemma {:induction false} EncodePcmAt(samples: seq<int>, i: nat)
    requires forall k :: 0 <= k < |samples| ==> IsSample(samples[k])
    requires i < |samples|
    ensures var b := EncodePcm(samples);
      b[2 * i..2 * i + 2] == LE16(if samples[i] < 0 then samples[i] + TwoTo16 else samples[i])
    decreases i
  {
    var b := EncodePcm(samples);
    var v := samples[0];
    var head := LE16(if v < 0 then v + TwoTo16 else v);
    assert b == head + EncodePcm(samples[1..]);
    if i > 0 {
      EncodePcmAt(samples[1..], i - 1);
      assert b[2 * i..2 * i + 2] == EncodePcm(samples[1..])[2 * (i - 1)..2 * (i - 1) + 2];
    }
  }

  /** Decoding what was encoded gives the samples back. */
  lemma {:induction false} DecodeEncodePcm(samples: seq<int>)
    requires samples != []
    requires forall k :: 0 <= k < |samples| ==> IsSample(samples[k])
    ensures DecodePcm(EncodePcm(samples)) == Some(samples)
  {
    var b := EncodePcm(samples);
    var r := DecodePcm(b).value;
    forall i | 0 <= i < |samples|
      ensures r[i] == samples[i]
    {
      DecodeEncodedSample(samples, i);
    }
    assert r == samples;
  }

  lemma {:induction false} DecodeEncodedSample(samples: seq<int>, i: nat)
    requires forall k :: 0 <= k < |samples| ==> IsSample(samples[k])
    requires i < |samples|
    ensures Int16At(EncodePcm(samples), i) == samples[i]
  {
    var b := EncodePcm(samples);
    EncodePcmAt(samples, i);
    var v := samples[i];
    var u := if v < 0 then v + TwoTo16 else v;
    LE16RoundTrip(u);
    U16Slice(b, 2 * i, b[2 * i..2 * i + 2]);
  }

  lemma {:induction false} EncodeDecodedSample(b: seq<byte>, i: nat)
    requires |b| >= 2 && |b| % 2 == 0 && i < |b| / 2
    ensures var e := EncodePcm(DecodePcm(b).value);
      e[2 * i] == b[2 * i] && e[2 * i + 1] == b[2 * i + 1]
  {
    var s := DecodePcm(b).value;
    var e := EncodePcm(s);
    EncodePcmAt(s, i);
    var u := U16(b, 2 * i);
    assert s[i] == Int16At(b, i);
    assert (if s[i] < 0 then s[i] + TwoTo16 else s[i]) == u;
    LE16OfBytes(b[2 * i], b[2 * i + 1]);
    assert e[2 * i..2 * i + 2] == [b[2 * i], b[2 * i + 1]];
    assert e[2 * i] == e[2 * i..2 * i + 2][0];
  }

  /** Encoding what was decoded gives the bytes back, when the length is even. */
  lemma {:induction false} EncodeDecodePcm(b: seq<byte>)
    requires |b| >= 2 && |b| % 2 == 0
    ensures EncodePcm(DecodePcm(b).value) == b
  {
    var s := DecodePcm(b).value;
    var e := EncodePcm(s);
    forall p | 0 <= p < |b|
      ensures e[p] == b[p]
    {
      EncodeDecodedSample(b, p / 2);
      assert p == 2 * (p / 2) || p == 2 * (p / 2) + 1;
    }
  }

  /** The finding: as written, three bytes of raw PCM decode to nothing; the
      corrected count gives the one whole sample. */
  lemma {:induction false} AsWrittenRejectsOddLength()
    ensures DecodePcmAsWritten([0, 0, 0]) == None
    ensures DecodePcm([0, 0, 0]) == Some([0])
  {
    var b: seq<byte> := [0, 0, 0];
    assert Int16At(b, 0) == 0;
    assert DecodePcm(b).value == [0];
  }

  /** On an even length the correction changes nothing. */
  lemma {:induction false} DecodeAgreesOnEvenLength(b: seq<byte>)
    requires |b| % 2 == 0
    ensures DecodePcmAsWritten(b) == DecodePcm(b)
  {
  }
}
