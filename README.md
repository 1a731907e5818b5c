# Audio and naming helpers of the RhythmGame tool scripts

This project models three helper scripts from the game's `tools/` directory and
proves properties of the models:

- **The PCM WAV converter** (`tools/convert_wav_pcm_to_16bit_mono.py`). It
  decodes the raw frame bytes of a PCM WAV stream into signed integers
  (`read_samples_pcm`). It averages interleaved channels down to mono
  (`downmix_to_mono`). It rescales the samples to 16 bits (`scale_to_int16`).
- **The click-track WAV serialiser** (`tools/generate_click_track.py`).
  `write_wav` builds the canonical 44-byte RIFF/WAVE header for 16-bit mono
  PCM at the fixed rate `SR` = 44100 Hz and appends the PCM bytes.
- **The slug function of the Piper text-to-speech batch tool**
  (`tools/tts_generate_id_piper.py`). `slugify` turns a line of text into the
  stem of the WAV file name the line is recorded to.

The model has seven modules:

| file | module | contents |
|---|---|---|
| `wrappers.dfy` | `Wrappers` | `Result`, for the exceptions the scripts raise |
| `little_endian.dfy` | `LittleEndian` | `struct`'s `<B`, `<h`, `<H`, `<i` and `<I` codes as little-endian byte strings |
| `arith.dfy` | `Arith` | facts about multiplication and Euclidean division used by the proofs |
| `bits.dfy` | `Bits` | Python's `\|`, `&` and `<<` on non-negative integers, bit by bit |
| `pcm_convert.dfy` | `PcmConvert` | the converter's three stages |
| `click_track.dfy` | `ClickTrack` | `write_wav` |
| `slug.dfy` | `Slug` | `slugify` |

The converter and the serialiser build their results step by step, so they
are methods. The converter's 24-bit decoder, its downmix and its rescale are
loops. The serialiser has no loop: it appends the packed header fields one
after another. Each method is proved against a predicate that says what the
result is:

- `IsDecoding`: one sample per `sw` bytes, in order;
- `IsDownmix`: one truncated mean per whole frame, in order;
- `ScaleSample`: the value each rescaled sample must have;
- `IsCanonicalWav`: every header field at its offset, then the data.

`slugify` is a chain of string transformations, so it is a chain of functions
with lemmas about the chain.

Exceptions become `Err` results, with the condition under which the source
raises them:

- `SystemExit` for an unsupported sample width;
- `struct.error` for a frame buffer of the wrong size and for a RIFF size that
  does not fit in 32 bits;
- `IndexError` for a truncated 24-bit sample or a partial final frame;
- `ValueError` for a channel count of zero.

The `wave.Wave_read` object is replaced by the values it supplies: the raw
frame bytes, the channel count, the sample width and the frame count.

Where the code goes beyond a plain description of the scripts, the model
follows the code:

- The 8-, 16- and 32-bit branches hand the whole buffer to `struct.unpack`
  with a count of `nframes * nch`, so a buffer of any other length is an
  error.
- The 24-bit branch loops over the buffer's own length, so it ignores
  `nframes` and fails only on a trailing partial sample.
- A downmix with more than one channel fails on a partial final frame rather
  than dropping it.

## Model

| member | source | states |
|---|---|---|
| PcmConvert.ReadSamplesPcm | tools/convert_wav_pcm_to_16bit_mono.py:16-54 | A width outside 1..4 is rejected with UnsupportedWidth. For widths 1, 2 and 4 the call succeeds exactly when the buffer holds nframes*nch*sw bytes, and otherwise fails with the size mismatch. For width 3 it succeeds exactly when the length is a multiple of 3, and otherwise fails with IndexError at index len(raw). On success it returns nch with one sample per sw bytes, in order, each equal to SampleAt. |
| PcmConvert.ReadSamples24 | tools/convert_wav_pcm_to_16bit_mono.py:35-47 | The 24-bit loop emits exactly one sample per 3 bytes, in order. Each sample is the sign-extended little-endian value of its group. A trailing partial group raises IndexError at len(raw). |
| PcmConvert.SampleAt | tools/convert_wav_pcm_to_16bit_mono.py:22-52 | Each decoded sample lies in [-2^(8sw-1), 2^(8sw-1)-1]. For width 1 this is [-128, 127], with x - 128; for width 3 it is [-2^23, 2^23-1]. |
| PcmConvert.Width3Formula | tools/convert_wav_pcm_to_16bit_mono.py:39-46 | The sum b0 + 256·b1 + 65536·b2 of group k, less 2^24 when the sum is at least 2^23, equals sample k, the two's-complement little-endian value of the three bytes. |
| PcmConvert.Assemble24 | tools/convert_wav_pcm_to_16bit_mono.py:42-45 | The or of the shifted bytes is their little-endian sum. The 0x800000 mask is non-zero exactly when that sum is at least 2^23. 1<<24 equals 2^24. |
| PcmConvert.Step24 | tools/convert_wav_pcm_to_16bit_mono.py:39-46 | The loop body run on group k (the or of the shifted bytes, less 1<<24 when the 0x800000 mask is set) yields sample k. |
| PcmConvert.Field | tools/convert_wav_pcm_to_16bit_mono.py:24-25 | An unsigned field of n bytes lies in [0, 256^n); a signed one in [-2^(8n-1), 2^(8n-1)). |
| PcmConvert.Fields | tools/convert_wav_pcm_to_16bit_mono.py:24-25 | Unpacking count fields yields exactly count values; FieldsAt says which value each is. |
| PcmConvert.FieldsAt | tools/convert_wav_pcm_to_16bit_mono.py:24-25 | Field k of struct.unpack is the value of bytes k*size .. k*size+size. |
| PcmConvert.FieldsDecode | tools/convert_wav_pcm_to_16bit_mono.py:30-33 | The unpacked `<h` and `<i` values are the signed little-endian value of each 2- or 4-byte group, in order. |
| PcmConvert.StructUnpack | tools/convert_wav_pcm_to_16bit_mono.py:25 | Unpacking succeeds exactly when the buffer holds count*size bytes, and then yields count values. Otherwise it fails with both sizes. |
| PcmConvert.TruncDiv | tools/convert_wav_pcm_to_16bit_mono.py:65 | int(a / b) rounds toward zero: the result times b is on the same side of zero as a, and within one b of it. |
| PcmConvert.DownmixToMono | tools/convert_wav_pcm_to_16bit_mono.py:57-66 | With one channel the samples come back unchanged. With zero channels range() raises. With more channels it succeeds exactly when the length is a multiple of nch, and otherwise fails with IndexError at len(samples). On success output k is the truncated mean of frame k, for len/nch frames in order. |
| PcmConvert.MeansStep | tools/convert_wav_pcm_to_16bit_mono.py:61-65 | Appending the truncated mean of the next whole frame keeps the output a run of frame means, advancing the read position by nch. |
| PcmConvert.DownmixSingle | tools/convert_wav_pcm_to_16bit_mono.py:58-59 | Passing one channel through unchanged meets the definition of a downmix with frames of one sample. |
| PcmConvert.SumAtLeast | tools/convert_wav_pcm_to_16bit_mono.py:62-64 | The channel accumulator over n values, each at least lo, is at least n*lo. |
| PcmConvert.SumAtMost | tools/convert_wav_pcm_to_16bit_mono.py:62-64 | The channel accumulator over n values, each at most hi, is at most n*hi. |
| PcmConvert.TruncDivBetween | tools/convert_wav_pcm_to_16bit_mono.py:65 | A sum between n*lo and n*hi, divided by n and truncated, lies between lo and hi. |
| PcmConvert.MeanWithinFrame | tools/convert_wav_pcm_to_16bit_mono.py:62-65 | A frame's truncated mean lies between its smallest and largest channel value. |
| PcmConvert.DownmixWithinFrame | tools/convert_wav_pcm_to_16bit_mono.py:57-66 | Every downmixed sample lies between the smallest and largest channel value of its frame. |
| PcmConvert.DownmixEqualChannels | tools/convert_wav_pcm_to_16bit_mono.py:57-66 | A frame whose channels all carry x downmixes to x. |
| PcmConvert.DownmixKeepsRange | tools/convert_wav_pcm_to_16bit_mono.py:57-66 | If every input sample is in [lo, hi], so is every downmixed sample. In particular the input width's range is kept. |
| PcmConvert.MaxIn | tools/convert_wav_pcm_to_16bit_mono.py:70-80 | max_in is 2^(8sw-1)-1 for widths 1..4 (127, 32767, 8388607, 2147483647) and 32767 for any other width. |
| PcmConvert.ClampIn | tools/convert_wav_pcm_to_16bit_mono.py:84-88 | The clamped value lies in [-max_in-1, max_in]. A value already in range is unchanged. The sign is kept. |
| PcmConvert.ScaleSample | tools/convert_wav_pcm_to_16bit_mono.py:84-94 | Every rescaled sample lies in [-32768, 32767]. |
| PcmConvert.ScaleToInt16 | tools/convert_wav_pcm_to_16bit_mono.py:69-96 | The output has the input's length. Output k is ScaleSample of input k with the width's max_in, so every output is in [-32768, 32767]. |
| PcmConvert.TruncDivMonotone | tools/convert_wav_pcm_to_16bit_mono.py:90 | Truncating division by a positive divisor is monotone. |
| PcmConvert.ScaleMonotone | tools/convert_wav_pcm_to_16bit_mono.py:84-94 | Rescaling preserves order. |
| PcmConvert.ScaleSign | tools/convert_wav_pcm_to_16bit_mono.py:84-94 | Zero stays zero and no sample changes sign. For max_in <= 32767 a non-zero sample keeps its sign strictly. |
| PcmConvert.ScaleFullScale | tools/convert_wav_pcm_to_16bit_mono.py:84-94 | Inputs at or above max_in give 32767. Inputs at or below -max_in-1 give -32768 for max_in <= 32767, and -32767 for the 24- and 32-bit ranges. |
| PcmConvert.ScaleIdentity16 | tools/convert_wav_pcm_to_16bit_mono.py:73-74 | Rescaling 16-bit input leaves every 16-bit sample unchanged (exact division). |
| LittleEndian.Unsigned | tools/generate_click_track.py:54-65 | An n-byte little-endian value is below 256^n. |
| LittleEndian.ToSigned | tools/convert_wav_pcm_to_16bit_mono.py:31-32 | The two's-complement reading lies in [-2^(8n-1), 2^(8n-1)). It is non-negative exactly when the unsigned value is below 2^(8n-1). It is either the unsigned value or that value minus 256^n. |
| LittleEndian.Signed | tools/convert_wav_pcm_to_16bit_mono.py:31-32 | A signed `<h`/`<i` field lies in [-2^(8n-1), 2^(8n-1)). |
| LittleEndian.Pack | tools/generate_click_track.py:54 | struct.pack('<I') succeeds exactly for 0 <= v < 2^32 and yields 4 bytes whose value is v. Otherwise it raises with v. |
| LittleEndian.Encode | tools/generate_click_track.py:57-65 | The bytes packed for a value in range have the field's width, and reading them back gives the value. |
| LittleEndian.EncodeDecode | tools/generate_click_track.py:57-65 | Packing the value of a byte string gives the byte string back. |
| LittleEndian.UnsignedInjective | tools/convert_wav_pcm_to_16bit_mono.py:31-32 | Distinct byte strings of one width have distinct values. |
| Bits.OrDisjoint | tools/convert_wav_pcm_to_16bit_mono.py:42 | Or-ing a value below 2^k with another value shifted left by k is addition. |
| Bits.AndPow2 | tools/convert_wav_pcm_to_16bit_mono.py:44 | Masking with 2^k is non-zero exactly when bit k is set. |
| Bits.TopBit | tools/convert_wav_pcm_to_16bit_mono.py:44 | For a value below 2^(k+1), bit k is set exactly when the value is at least 2^k. |
| Bits.OrZero | tools/convert_wav_pcm_to_16bit_mono.py:42 | 0 \| b == b. |
| Bits.Or | tools/convert_wav_pcm_to_16bit_mono.py:42 | a \| b is at least a and at least b, and at most a + b. |
| Bits.And | tools/convert_wav_pcm_to_16bit_mono.py:44 | a & b is at most a and at most b. |
| Bits.Shl | tools/convert_wav_pcm_to_16bit_mono.py:42 | a << k has its k low bits clear, and dividing it by 2^k gives a back. |
| Bits.Bit | tools/convert_wav_pcm_to_16bit_mono.py:44 | A bit is 0 or 1, and every bit at or above the bit length of a is 0. |
| ClickTrack.WriteWav | tools/generate_click_track.py:44-67 | It fails exactly when 36 + len(pcm16) does not fit in a u32, with that value. Otherwise the file is 44 + len(pcm16) bytes and its last len(pcm16) bytes are pcm16 unchanged. `RIFF`, `WAVE`, `fmt ` and `data` sit at offsets 0, 8, 12 and 36. The RIFF size is the file length minus 8. The fmt size is 16, the format tag is 1 and there is one channel at SR. The byte rate is rate times block align, the block align is channels times bits / 8, and there are 16 bits per sample. The data size is len(pcm16). |
| ClickTrack.TagBytes | tools/generate_click_track.py:53-64 | The tags are the bytes 52 49 46 46 (`RIFF`), 57 41 56 45 (`WAVE`), 66 6D 74 20 (`fmt `) and 64 61 74 61 (`data`). |
| ClickTrack.CanonicalLayout | tools/generate_click_track.py:52-67 | The header appended field by field, holding the values write_wav packs, followed by pcm16 is the canonical layout IsCanonicalWav describes. |
| Slug.Slugify | tools/tts_generate_id_piper.py:29-34 | The result is never empty: nothing left falls back to "line". |
| Slug.Trim | tools/tts_generate_id_piper.py:30-33 | str.strip leaves a contiguous slice of the input. Everything before and after the slice is in the stripped class, and neither end of the slice is. |
| Slug.TrimLeft | tools/tts_generate_id_piper.py:30-33 | The left strip is a suffix of the input. Every removed character is in the stripped class, and the suffix does not start with one. |
| Slug.TrimRight | tools/tts_generate_id_piper.py:30-33 | The right strip is a prefix of the input. Every removed character is in the stripped class, and the prefix does not end with one. |
| Slug.Lower | tools/tts_generate_id_piper.py:30 | Lowercasing keeps the length and leaves no `A`–`Z`. Each uppercase letter becomes the letter 32 code points above it, and every other character is kept. A result character is in [a-z0-9] exactly when the input character is an ASCII letter or digit. |
| Slug.ReplaceAmp | tools/tts_generate_id_piper.py:31 | After the replacement no `&` is left. |
| Slug.SkipNonAlnum | tools/tts_generate_id_piper.py:32 | Skipping a run leaves a suffix of the input starting in [a-z0-9] or empty, and every skipped character is outside [a-z0-9]. |
| Slug.Collapse | tools/tts_generate_id_piper.py:32 | The `[^a-z0-9]+` to `_` substitution produces only [a-z0-9_], never a double `_`, and keeps a leading alphanumeric character. |
| Slug.CollapseByCharacter | tools/tts_generate_id_piper.py:32 | The substitution equals the character-by-character reading Runs: a character of [a-z0-9] is copied, the first character of each run of other characters writes one `_`, and the rest of the run writes nothing. |
| Slug.CollapseAlnums | tools/tts_generate_id_piper.py:32 | The substitution keeps every character of [a-z0-9] of the input, in order, and adds no other. |
| Slug.Squash | tools/tts_generate_id_piper.py:33 | The `_+` to `_` substitution leaves no `__` and keeps the first character. |
| Slug.SquashByCharacter | tools/tts_generate_id_piper.py:33 | The `_+` to `_` substitution keeps each character except an `_` that follows an `_`. |
| Slug.SlugifyIsSlug | tools/tts_generate_id_piper.py:29-34 | Every result is non-empty, uses only [a-z0-9_], neither starts nor ends with `_`, and has no `__`. |
| Slug.TrimmedIsSlug | tools/tts_generate_id_piper.py:33 | Stripping `_` from a run of slug characters without `__` leaves a slug, or nothing. |
| Slug.SquashKeeps | tools/tts_generate_id_piper.py:33 | The `_+` to `_` substitution leaves text without `__` unchanged. |
| Slug.CollapseKeeps | tools/tts_generate_id_piper.py:32 | The run substitution leaves text over [a-z0-9_] without `__` unchanged. |
| Slug.ReplaceAmpKeeps | tools/tts_generate_id_piper.py:31 | Text without `&` goes through the replacement unchanged. |
| Slug.LowerKeeps | tools/tts_generate_id_piper.py:30 | Text without uppercase ASCII goes through lowercasing unchanged. |
| Slug.StripKeeps | tools/tts_generate_id_piper.py:30 | A slug has no surrounding whitespace to strip. |
| Slug.SlugKeeps | tools/tts_generate_id_piper.py:29-34 | Every slug is its own slug. |
| Slug.SlugifyFixedPoints | tools/tts_generate_id_piper.py:29-34 | slugify(t) == t exactly when t is a slug. |
| Slug.SlugifyIdempotent | tools/tts_generate_id_piper.py:29-34 | slugify(slugify(s)) == slugify(s) for every s. |
| Slug.NoAlnumGivesLine | tools/tts_generate_id_piper.py:32-34 | Text with no ASCII letter, no digit and no `&` becomes "line" (ASCII lowercasing, see Left out). |
| Slug.BangsGiveLine | tools/tts_generate_id_piper.py:32-34 | "!!!" becomes "line". |
| Slug.CollapseNoAlnum | tools/tts_generate_id_piper.py:32-33 | With no character of [a-z0-9] the substitutions and the strip leave nothing. |
| Slug.ReplaceAmpAppend | tools/tts_generate_id_piper.py:31 | str.replace works piece by piece on a concatenation. |
| Slug.LowerAppend | tools/tts_generate_id_piper.py:30 | str.lower works piece by piece on a concatenation. |
| Slug.CollapseAlnumPrefix | tools/tts_generate_id_piper.py:32 | A leading run of [a-z0-9] passes through the run substitution unchanged. |
| Slug.ReplaceAmpBetween | tools/tts_generate_id_piper.py:31 | Between two words without `&`, only the `&` is spelled out as ` dan `. |
| Slug.CollapseDan | tools/tts_generate_id_piper.py:32 | ` dan ` before a word becomes `_dan_`. |
| Slug.AmpCollapse | tools/tts_generate_id_piper.py:31-32 | Two lowercase words around `&` become the words joined by `_dan_`. |
| Slug.DanSlug | tools/tts_generate_id_piper.py:31-33 | Two words of [a-z0-9] joined by `_dan_` form a slug. |
| Slug.SlugAfterCollapse | tools/tts_generate_id_piper.py:33-34 | Once the substitutions yield a slug, the `_+` squeeze and the strip keep it. |
| Slug.AmpBetweenWords | tools/tts_generate_id_piper.py:29-34 | Two words of ASCII letters and digits joined by `&` become the lowercased words joined by `_dan_`. For example, "A&B" gives "a_dan_b". |

## Left out

- Opening, reading and writing WAV files, and the converter's `main` with its argv handling (tools/convert_wav_pcm_to_16bit_mono.py:99-119): these are I/O. The `wave` reader is replaced by its raw bytes, channel count, sample width and frame count.
- The converter's final `struct.pack` of the 16-bit output (tools/convert_wav_pcm_to_16bit_mono.py:117) is part of that I/O.
- `synth_click_track` (tools/generate_click_track.py:17-41) is left out: it is floating-point sine synthesis.
- The click track's argparse `main`, `mkdir` and `write_bytes` are left out: they are I/O. `WriteWav` returns the bytes instead.
- The Piper subprocess call, the argparse `main` and the file-system checks of tools/tts_generate_id_piper.py are left out: they call an external binary and do I/O.
- The remaining tool scripts are not part of this model: the asset and template generators and the fal.ai clients are imaging calls and network clients.
- DownmixToMono: `int(s / nch)` is modelled as exact division rounded toward zero; the float rounding of `/` is not modelled.
- ScaleToInt16: `int(s / max_in * 32767)` is modelled as `s * 32767 / max_in` rounded toward zero, exactly; the float rounding of the division and the product is not modelled.
- ScaleSample: the same idealisation of `int(s / max_in * 32767)` as ScaleToInt16.
- TruncDiv: it is exact truncating division, an idealisation of Python's float `/` followed by `int()`.
- ScaleSign: it is weaker than "the output sign matches the clamped input". This is because a tiny non-zero 24- or 32-bit sample rounds to 0, so only "no sign flip" holds for those widths. For widths of at most 16 bits it holds strictly.
- ReadSamplesPcm: the channel and frame counts are naturals. `wave` never reports negative ones, and with a zero count the unpacked size is zero.
- DownmixToMono: the channel count is a natural. A zero count is the `range()` error, and `wave` never reports a negative count.
- ReadSamples24: the 24-bit loop is a method of its own, called from ReadSamplesPcm. It receives only the raw bytes, because that branch of the source reads no other input.
- Slug.Lower: it lowercases ASCII `A`–`Z` only. Python's `str.lower` also lowercases non-ASCII letters; any non-ASCII character is then replaced by `_` anyway, except the few whose lowercase form is ASCII (such as U+0130 and the Kelvin sign U+212A). Those are not modelled.
- Slug.IsSpace: it is the fixed set of code points Python's `str.isspace` accepts. Strings are sequences of Unicode scalar values, with no normalisation.
