/**
 * The WAV serialiser of the click-track generator: the canonical 44-byte
 * RIFF/WAVE header for 16-bit mono PCM at the fixed sample rate, followed by
 * the PCM data. The header is a RIFF chunk of form type `WAVE` holding a
 * 16-byte `fmt ` chunk (format tag 1, WAVE_FORMAT_PCM) and a `data` chunk.
 */
module ClickTrack {
  import opened Wrappers
  import opened LittleEndian

  /** The sample rate of every generated track, in Hz. */
  const SR: nat := 44100

  /** The bytes of an ASCII string, one per character. */
  function Ascii(s: string): (bs: seq<byte>)
    requires forall i :: 0 <= i < |s| ==> s[i] as int < 128
  {
    seq(|s|, i requires 0 <= i < |s| => s[i] as int)
  }

  /** The four chunk tags as bytes: `RIFF`, `WAVE`, `fmt ` and `data`. */
  lemma TagBytes()
    ensures Ascii("RIFF") == [0x52, 0x49, 0x46, 0x46]
    ensures Ascii("WAVE") == [0x57, 0x41, 0x56, 0x45]
    ensures Ascii("fmt ") == [0x66, 0x6D, 0x74, 0x20]
    ensures Ascii("data") == [0x64, 0x61, 0x74, 0x61]
  {
  }

  /** The little-endian u16 at byte offset off. */
  function U16At(bs: seq<byte>, off: nat): nat
    requires off + 2 <= |bs|
  {
    Unsigned(bs[off .. off + 2])
  }

  /** The little-endian u32 at byte offset off. */
  function U32At(bs: seq<byte>, off: nat): nat
    requires off + 4 <= |bs|
  {
    Unsigned(bs[off .. off + 4])
  }

  /** The largest value a u32 field can hold. */
  const MaxU32: nat := 0xFFFF_FFFF

  lemma Pow256Values()
    ensures Pow256(2) == 0x1_0000 && Pow256(4) == MaxU32 + 1
  {
  }

  /**
   * write_wav without the file system: the header followed by pcm16. The
   * RIFF size 36 + |pcm16| must fit in a u32, or struct.pack raises.
   */
  method WriteWav(pcm16: seq<byte>) returns (r: Result<seq<byte>, StructError>)
    ensures r.Err? <==> 36 + |pcm16| > MaxU32
    ensures r.Err? ==> r.error == ArgumentOutOfRange(36 + |pcm16|)
    ensures r.Ok? ==> IsCanonicalWav(r.value, pcm16)
  {
    Pow256Values();
    var nch := 1;
    var bits := 16;
    var byteRate := SR * nch * bits / 8;
    var blockAlign := nch * bits / 8;
    var dataSize := |pcm16|;

    // Of the struct.pack calls below only the first can raise: every other
    // field is a constant or at most 36 + data_size.
    var header: seq<byte> := [];
    header := header + Ascii("RIFF");
    var riffSize :- Pack(36 + dataSize, 4);
    header := header + riffSize;
    header := header + Ascii("WAVE");
    header := header + Ascii("fmt ");
    var fmtSize := Encode(16, 4);
    header := header + fmtSize;
    var formatTag := Encode(1, 2);
    header := header + formatTag;
    var channels := Encode(nch, 2);
    header := header + channels;
    var rate := Encode(SR, 4);
    header := header + rate;
    var byteRateField := Encode(byteRate, 4);
    header := header + byteRateField;
    var blockAlignField := Encode(blockAlign, 2);
    header := header + blockAlignField;
    var bitsField := Encode(bits, 2);
    header := header + bitsField;
    header := header + Ascii("data");
    var dataSizeField := Encode(dataSize, 4);
    header := header + dataSizeField;

    var h := HeaderFields(riffSize, fmtSize, formatTag, channels, rate,
                          byteRateField, blockAlignField, bitsField, dataSizeField);
    assert header == HeaderBytes(h);
    CanonicalLayout(h, pcm16);
    return Ok(header + pcm16);
  }

  /**
   * out is a canonical PCM WAV file of 16-bit mono samples at SR holding
   * exactly the bytes data: the four chunk tags at their offsets, every size
   * and format field at its offset, and the data after byte 44.
   */
  predicate IsCanonicalWav(out: seq<byte>, data: seq<byte>)
  {
    && |out| == 44 + |data|
    && out[44..] == data
    && out[0..4] == Ascii("RIFF")
    && U32At(out, 4) == |out| - 8                   // RIFF size: everything after the size field
    && out[8..12] == Ascii("WAVE")
    && out[12..16] == Ascii("fmt ")
    && U32At(out, 16) == 16                         // fmt chunk size
    && U16At(out, 20) == 1                          // WAVE_FORMAT_PCM
    && U16At(out, 22) == 1                          // channels
    && U32At(out, 24) == SR                         // samples per second
    && U32At(out, 28) == U32At(out, 24) * U16At(out, 32)  // byte rate = rate * block align
    && U16At(out, 32) == U16At(out, 22) * U16At(out, 34) / 8  // block align = channels * bits / 8
    && U16At(out, 34) == 16                         // bits per sample
    && out[36..40] == Ascii("data")
    && U32At(out, 40) == |data|                     // data chunk size
  }

  /** The nine numeric fields of the header, each as the bytes packed for it. */
  datatype HeaderFields = HeaderFields(
    riffSize: seq<byte>, fmtSize: seq<byte>, formatTag: seq<byte>,
    channels: seq<byte>, rate: seq<byte>, byteRate: seq<byte>,
    blockAlign: seq<byte>, bits: seq<byte>, dataSize: seq<byte>)

  /** Every field has the width its struct code gives it: `I` four bytes, `H` two. */
  predicate Widths(h: HeaderFields)
  {
    && |h.riffSize| == 4 && |h.fmtSize| == 4 && |h.formatTag| == 2 && |h.channels| == 2
    && |h.rate| == 4 && |h.byteRate| == 4 && |h.blockAlign| == 2 && |h.bits| == 2
    && |h.dataSize| == 4
  }

  /** The header bytes in the order the serialiser appends them. */
  function HeaderBytes(h: HeaderFields): seq<byte>
  {
    [] + Ascii("RIFF") + h.riffSize + Ascii("WAVE") + Ascii("fmt ") + h.fmtSize
       + h.formatTag + h.channels + h.rate + h.byteRate + h.blockAlign + h.bits
       + Ascii("data") + h.dataSize
  }

  /** The RIFF chunk header and the first half of the fmt chunk sit at bytes 0..24. */
  lemma FrontAt(h: HeaderFields)
    requires Widths(h)
    ensures var b := HeaderBytes(h);
      |b| == 44 && b[0..4] == Ascii("RIFF") && b[4..8] == h.riffSize && b[8..12] == Ascii("WAVE")
      && b[12..16] == Ascii("fmt ") && b[16..20] == h.fmtSize
      && b[20..22] == h.formatTag && b[22..24] == h.channels
  {
  }

  /** The rest of the fmt chunk and the data chunk header sit at bytes 24..44. */
  lemma BackAt(h: HeaderFields)
    requires Widths(h)
    ensures var b := HeaderBytes(h);
      |b| == 44 && b[24..28] == h.rate && b[28..32] == h.byteRate
      && b[32..34] == h.blockAlign && b[34..36] == h.bits
      && b[36..40] == Ascii("data") && b[40..44] == h.dataSize
  {
  }

  /** With the field values the serialiser packs, its header followed by pcm16 is a canonical WAV file. */
  lemma CanonicalLayout(h: HeaderFields, pcm16: seq<byte>)
    requires Widths(h)
    requires Unsigned(h.riffSize) == 36 + |pcm16| && Unsigned(h.fmtSize) == 16
    requires Unsigned(h.formatTag) == 1 && Unsigned(h.channels) == 1
    requires Unsigned(h.rate) == SR && Unsigned(h.byteRate) == 88200
    requires Unsigned(h.blockAlign) == 2 && Unsigned(h.bits) == 16
    requires Unsigned(h.dataSize) == |pcm16|
    ensures IsCanonicalWav(HeaderBytes(h) + pcm16, pcm16)
  {
    var b := HeaderBytes(h);
    var out := b + pcm16;
    FrontAt(h);
    BackAt(h);
    assert out[..44] == b && out[44..] == pcm16;
    forall lo, hi | 0 <= lo <= hi <= 44 ensures out[lo..hi] == b[lo..hi] {
      assert out[lo..hi] == out[..44][lo..hi];
    }
  }
}
