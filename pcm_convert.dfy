/**
 * The sample pipeline of the PCM WAV converter: decode the raw frames of a
 * PCM WAV stream (sample width 1, 2, 3 or 4 bytes) into signed integers,
 * average interleaved channels down to mono, and rescale to 16 bits.
 *
 * The `wave.Wave_read` object is replaced by what it supplies: the raw frame
 * bytes, the channel count, the sample width and the frame count.
 */
module PcmConvert {
  import opened Wrappers
  import opened LittleEndian
  import opened Bits
  import opened Arith

  /** The ways the pipeline stops with an exception. */
  datatype PcmError =
    | UnsupportedWidth(width: int)                  // SystemExit for a width outside 1..4
    | BufferSizeMismatch(expected: nat, actual: nat) // struct.error: the buffer is not the unpacked size
    | IndexOutOfRange(index: nat)                  // IndexError on a short final sample or frame
    | ZeroStep                                       // ValueError: range() with a step of 0

  // ---------------------------------------------------------------------------
  // Decoding (read_samples_pcm)
  // ---------------------------------------------------------------------------

  /**
   * The value of one field unpacked by `struct`: code `B`/`H` unsigned, in
   * [0, 256^n), and `h`/`i` two's complement, in [-2^(8n-1), 2^(8n-1)).
   */
  function Field(bs: seq<byte>, signed: bool): (v: int)
    requires |bs| > 0
    ensures signed ==> -Half(|bs|) <= v < Half(|bs|)
    ensures !signed ==> 0 <= v < Pow256(|bs|)
  {
    if signed then Signed(bs) else Unsigned(bs)
  }

  /** The count consecutive size-byte fields of raw, in order. */
  function Fields(raw: seq<byte>, count: nat, size: nat, signed: bool): (r: seq<int>)
    requires size > 0 && |raw| == count * size
    ensures |r| == count
  {
    if count == 0 then []
    else [Field(raw[..size], signed)] + Fields(raw[size..], count - 1, size, signed)
  }

  /** struct.unpack(f"<{count}{code}", raw) for a code of the given size and signedness. */
  function StructUnpack(raw: seq<byte>, count: nat, size: nat, signed: bool): (r: Result<seq<int>, PcmError>)
    requires size > 0
    ensures r.Ok? <==> |raw| == count * size
    ensures r.Err? ==> r.error == BufferSizeMismatch(count * size, |raw|)
    ensures r.Ok? ==> |r.value| == count
  {
    if |raw| == count * size then Ok(Fields(raw, count, size, signed))
    else Err(BufferSizeMismatch(count * size, |raw|))
  }

  /**
   * The sample a PCM WAV stream of width sw stores in slot k: 8-bit samples
   * are unsigned with 128 as silence, wider samples are little-endian two's
   * complement. Every sample lies in [-2^(8sw-1), 2^(8sw-1) - 1].
   */
  function SampleAt(raw: seq<byte>, sw: nat, k: nat): (v: int)
    requires 1 <= sw <= 4 && k * sw + sw <= |raw|
    ensures -Half(sw) <= v < Half(sw)
  {
    if sw == 1 then raw[k] - 128 else Signed(raw[k * sw .. k * sw + sw])
  }

  /** data holds exactly one sample per sw bytes of raw, in order. */
  predicate IsDecoding(raw: seq<byte>, sw: nat, data: seq<int>)
    requires 1 <= sw <= 4
  {
    |data| * sw == |raw| && DecodesPrefix(raw, sw, data)
  }

  /** data[k] is the sample in slot k of raw, for every k < |data|. */
  predicate DecodesPrefix(raw: seq<byte>, sw: nat, data: seq<int>)
    requires 1 <= sw <= 4
  {
    forall k :: 0 <= k < |data| ==> k * sw + sw <= |raw| && data[k] == SampleAt(raw, sw, k)
  }

  /** Appending the next slot's sample extends a decoded prefix. */
  lemma DecodesNext(raw: seq<byte>, sw: nat, data: seq<int>, v: int)
    requires 1 <= sw <= 4 && DecodesPrefix(raw, sw, data)
    requires |data| * sw + sw <= |raw| && v == SampleAt(raw, sw, |data|)
    ensures DecodesPrefix(raw, sw, data + [v])
  {
  }

  /**
   * read_samples_pcm: returns the channel count with the decoded samples, or
   * the error the source raises.
   */
  method ReadSamplesPcm(raw: seq<byte>, nch: nat, sw: int, nframes: nat)
    returns (r: Result<(nat, seq<int>), PcmError>)
    ensures !(1 <= sw <= 4) ==> r == Err(UnsupportedWidth(sw))
    ensures sw == 1 || sw == 2 || sw == 4 ==>
              (r.Ok? <==> |raw| == nframes * nch * sw) &&
              (r.Err? ==> r.error == BufferSizeMismatch(nframes * nch * sw, |raw|))
    ensures sw == 3 ==> (r.Ok? <==> |raw| % 3 == 0) && (r.Err? ==> r.error == IndexOutOfRange(|raw|))
    ensures r.Ok? ==> r.value.0 == nch && IsDecoding(raw, sw, r.value.1)
  {
    if sw == 1 {
      // Width 1: each byte is unsigned with silence at 128.
      var data :- StructUnpack(raw, nframes * nch, 1, false);
      data := seq(|data|, i requires 0 <= i < |data| => data[i] - 128);
      forall k | 0 <= k < |data| ensures data[k] == SampleAt(raw, 1, k) {
        FieldsAt(raw, nframes * nch, 1, false, k);
      }
      return Ok((nch, data));
    }

    if sw == 2 {
      var data :- StructUnpack(raw, nframes * nch, 2, true);
      FieldsDecode(raw, nframes * nch, 2);
      return Ok((nch, data));
    }

    if sw == 3 {
      // Width 3: struct has no code, so each sample is put together from its bytes.
      var data :- ReadSamples24(raw);
      return Ok((nch, data));
    }

    if sw == 4 {
      var data :- StructUnpack(raw, nframes * nch, 4, true);
      FieldsDecode(raw, nframes * nch, 4);
      return Ok((nch, data));
    }

    return Err(UnsupportedWidth(sw));
  }

  /**
   * The 24-bit branch of read_samples_pcm: walks raw three bytes at a time,
   * assembling and sign-extending each sample; a final group of fewer than
   * three bytes raises IndexError.
   */
  method ReadSamples24(raw: seq<byte>) returns (r: Result<seq<int>, PcmError>)
    ensures r.Ok? <==> |raw| % 3 == 0
    ensures r.Ok? ==> IsDecoding(raw, 3, r.value)
    ensures r.Err? ==> r.error == IndexOutOfRange(|raw|)
  {
    var data: seq<int> := [];
    var i := 0;
    while i < |raw|
      invariant 0 <= i <= |raw| && i == 3 * |data|
      invariant DecodesPrefix(raw, 3, data)
    {
      if i + 1 >= |raw| {
        return Err(IndexOutOfRange(i + 1));
      }
      if i + 2 >= |raw| {
        return Err(IndexOutOfRange(i + 2));
      }
      var b0, b1, b2 := raw[i], raw[i + 1], raw[i + 2];
      Step24(raw, |data|, b0, b1, b2);
      var v: int := Or(Or(b0, Shl(b1, 8)), Shl(b2, 16));
      // Bit 23 set: the 24-bit value is negative.
      if And(v, 0x800000) != 0 {
        v := v - Shl(1, 24);
      }
      DecodesNext(raw, 3, data, v);
      data := data + [v];
      i := i + 3;
    }
    return Ok(data);
  }

  /** Field k of an unpacked buffer is the k-th group of size bytes. */
  lemma {:induction false} FieldsAt(raw: seq<byte>, count: nat, size: nat, signed: bool, k: nat)
    requires size > 0 && |raw| == count * size && k < count
    ensures k * size + size <= |raw|
    ensures Fields(raw, count, size, signed)[k] == Field(raw[k * size .. k * size + size], signed)
  {
    if k == 0 {
      assert size <= |raw| by { MulMonotone(1, count, size); }
    } else {
      var rest := raw[size..];
      assert |rest| == (count - 1) * size by { MulSucc(count - 1, size); }
      FieldsAt(rest, count - 1, size, signed, k - 1);
      var off := (k - 1) * size;
      assert off + size == k * size by { MulSucc(k - 1, size); }
      assert rest[off .. off + size] == raw[k * size .. k * size + size];
    }
  }

  /** Unpacking signed fields of width 2 or 4 is the decoding of that width. */
  lemma FieldsDecode(raw: seq<byte>, count: nat, sw: nat)
    requires sw == 2 || sw == 4
    requires |raw| == count * sw
    ensures IsDecoding(raw, sw, Fields(raw, count, sw, true))
  {
    forall k | 0 <= k < count
      ensures k * sw + sw <= |raw| && Fields(raw, count, sw, true)[k] == SampleAt(raw, sw, k)
    {
      FieldsAt(raw, count, sw, true, k);
    }
  }

  /**
   * The 24-bit sample in slot k is b0 | b1 << 8 | b2 << 16 over its three
   * bytes, less 2^24 when bit 23 is set.
   */
  lemma Width3Formula(raw: seq<byte>, k: nat)
    requires 3 * k + 3 <= |raw|
    ensures var u := raw[3 * k] as int + 256 * raw[3 * k + 1] as int + 65536 * raw[3 * k + 2] as int;
            SampleAt(raw, 3, k) == if u >= 0x800000 then u - 0x1000000 else u
  {
    var g := raw[3 * k .. 3 * k + 3];
    assert g[1..][1..][1..] == [];
    assert Unsigned(g[1..][1..]) == g[2] as int;
    assert Unsigned(g[1..]) == g[1] as int + 256 * g[2] as int;
    assert Unsigned(g) == raw[3 * k] as int + 256 * raw[3 * k + 1] as int + 65536 * raw[3 * k + 2] as int;
  }

  /**
   * What the loop body of the 24-bit branch computes from bytes b0, b1, b2:
   * the or of the shifted bytes is their weighted sum, and the mask test
   * `& 0x800000` is the test for bit 23.
   */
  lemma Assemble24(b0: byte, b1: byte, b2: byte)
    ensures var w := Or(Or(b0, Shl(b1, 8)), Shl(b2, 16));
            var u := b0 as int + 256 * b1 as int + 65536 * b2 as int;
            w == u && (And(w, 0x800000) != 0 <==> u >= 0x800000) && Shl(1, 24) == 0x1000000
  {
    Pow2Values();
    OrDisjoint(b0, b1, 8);
    OrDisjoint(b0 as int + 256 * b1 as int, b2, 16);
    var u := b0 as int + 256 * b1 as int + 65536 * b2 as int;
    AndPow2(u, 23);
    TopBit(u, 23);
  }

  /** The loop body of the 24-bit branch, run on the k-th group of three bytes, yields sample k. */
  lemma Step24(raw: seq<byte>, k: nat, b0: byte, b1: byte, b2: byte)
    requires 3 * k + 3 <= |raw| && b0 == raw[3 * k] && b1 == raw[3 * k + 1] && b2 == raw[3 * k + 2]
    ensures var w := Or(Or(b0, Shl(b1, 8)), Shl(b2, 16));
            k * 3 + 3 <= |raw| &&
            (if And(w, 0x800000) != 0 then w - Shl(1, 24) else w) == SampleAt(raw, 3, k)
  {
    Assemble24(b0, b1, b2);
    Width3Formula(raw, k);
  }

  lemma Pow2Values()
    ensures Pow2(8) == 256 && Pow2(16) == 65536
    ensures Pow2(23) == 0x800000 && Pow2(24) == 0x1000000
  {
  }

  // ---------------------------------------------------------------------------
  // Arithmetic shared by the downmix and the rescale
  // ---------------------------------------------------------------------------

  /**
   * a / b rounded toward zero, which is what `int(a / b)` does in Python when
   * the float quotient is exact: the quotient times b never overshoots a and
   * is within one b of it.
   */
  function TruncDiv(a: int, b: int): (q: int)
    requires b > 0
    ensures a >= 0 ==> q >= 0 && q * b <= a < q * b + b
    ensures a < 0 ==> q <= 0 && q * b - b < a <= q * b
  {
    if a >= 0 then a / b else -((-a) / b)
  }

  /** The sum of s, built up from the front as the source's accumulator is. */
  function Sum(s: seq<int>): int
  {
    if s == [] then 0 else Sum(s[..|s| - 1]) + s[|s| - 1]
  }

  function Min(s: seq<int>): (m: int)
    requires |s| > 0
    ensures forall i :: 0 <= i < |s| ==> m <= s[i]
    ensures exists i :: 0 <= i < |s| && m == s[i]
  {
    if |s| == 1 then s[0]
    else
      var m := Min(s[..|s| - 1]);
      if s[|s| - 1] < m then s[|s| - 1] else m
  }

  function Max(s: seq<int>): (m: int)
    requires |s| > 0
    ensures forall i :: 0 <= i < |s| ==> s[i] <= m
    ensures exists i :: 0 <= i < |s| && m == s[i]
  {
    if |s| == 1 then s[0]
    else
      var m := Max(s[..|s| - 1]);
      if s[|s| - 1] > m then s[|s| - 1] else m
  }

  // ---------------------------------------------------------------------------
  // downmix_to_mono
  // ---------------------------------------------------------------------------

  /** The samples of frame k: nch consecutive channel values. */
  function Frame(samples: seq<int>, nch: nat, k: nat): seq<int>
    requires k * nch + nch <= |samples|
  {
    samples[k * nch .. k * nch + nch]
  }

  /** mono holds, for every whole frame of samples in order, the truncated mean of its channels. */
  predicate IsDownmix(samples: seq<int>, nch: nat, mono: seq<int>)
    requires nch > 0
  {
    |mono| * nch == |samples| && MeansOfFrames(samples, nch, mono)
  }

  /** mono[k] is the truncated mean of frame k, for each k below |mono|. */
  predicate MeansOfFrames(samples: seq<int>, nch: nat, mono: seq<int>)
    requires nch > 0
  {
    forall k :: 0 <= k < |mono| ==>
      k * nch + nch <= |samples| && mono[k] == TruncDiv(Sum(Frame(samples, nch, k)), nch)
  }

  /**
   * downmix_to_mono: averages each frame of nch interleaved channels,
   * truncating toward zero; one channel is passed through untouched. A step
   * of zero channels and a partial final frame are the source's errors.
   */
  method DownmixToMono(nch: nat, samples: seq<int>) returns (r: Result<seq<int>, PcmError>)
    ensures nch == 1 ==> r == Ok(samples)
    ensures nch == 0 ==> r == Err(ZeroStep)
    ensures nch > 1 ==> (r.Ok? <==> |samples| % nch == 0)
    ensures nch > 1 && r.Err? ==> r.error == IndexOutOfRange(|samples|)
    ensures nch > 0 && r.Ok? ==> IsDownmix(samples, nch, r.value)
  {
    if nch == 1 {
      DownmixSingle(samples);
      return Ok(samples);
    }
    if nch == 0 {
      return Err(ZeroStep);
    }
    var mono: seq<int> := [];
    var i := 0;
    while i < |samples|
      invariant 0 <= i <= |samples| && i == |mono| * nch
      invariant MeansOfFrames(samples, nch, mono)
    {
      var s := 0;
      var c := 0;
      while c < nch
        invariant 0 <= c <= nch && i + c <= |samples|
        invariant s == Sum(samples[i .. i + c])
      {
        if i + c >= |samples| {
          PartialFrame(|samples|, nch, |mono|, c);
          return Err(IndexOutOfRange(i + c));
        }
        assert samples[i .. i + c + 1][..c] == samples[i .. i + c];
        s := s + samples[i + c];
        c := c + 1;
      }
      MeansStep(samples, nch, mono, s);
      mono := mono + [TruncDiv(s, nch)];
      i := i + nch;
    }
    WholeFrames(|samples|, nch, |mono|);
    return Ok(mono);
  }

  /** Appending the mean of the next whole frame keeps mono a run of frame means. */
  lemma MeansStep(samples: seq<int>, nch: nat, mono: seq<int>, s: int)
    requires nch > 0 && MeansOfFrames(samples, nch, mono)
    requires |mono| * nch + nch <= |samples|
    requires s == Sum(samples[|mono| * nch .. |mono| * nch + nch])
    ensures MeansOfFrames(samples, nch, mono + [TruncDiv(s, nch)])
    ensures (|mono| + 1) * nch == |mono| * nch + nch
  {
    MulSucc(|mono|, nch);
  }

  lemma PartialFrame(n: nat, nch: nat, k: nat, c: nat)
    requires 0 < nch && c < nch && n == k * nch + c && 0 < n
    ensures n % nch != 0 || c == 0
  {
    DivModUnique(n, nch, k, c);
  }

  lemma WholeFrames(n: nat, nch: nat, k: nat)
    requires 0 < nch && n == k * nch
    ensures n % nch == 0
  {
    DivModUnique(n, nch, k, 0);
  }

  /** With one channel, passing the samples through is the downmix. */
  lemma DownmixSingle(samples: seq<int>)
    ensures IsDownmix(samples, 1, samples)
  {
    forall k | 0 <= k < |samples| ensures TruncDiv(Sum(Frame(samples, 1, k)), 1) == samples[k] {
      assert Frame(samples, 1, k)[..0] == [];
    }
  }

  /** A sum of n values, each at least lo, is at least n * lo. */
  lemma {:induction false} SumAtLeast(s: seq<int>, lo: int)
    requires forall i :: 0 <= i < |s| ==> lo <= s[i]
    ensures |s| * lo <= Sum(s)
  {
    if s != [] {
      SumAtLeast(s[..|s| - 1], lo);
      MulSucc(|s| - 1, lo);
    }
  }

  /** A sum of n values, each at most hi, is at most n * hi. */
  lemma {:induction false} SumAtMost(s: seq<int>, hi: int)
    requires forall i :: 0 <= i < |s| ==> s[i] <= hi
    ensures Sum(s) <= |s| * hi
  {
    if s != [] {
      SumAtMost(s[..|s| - 1], hi);
      MulSucc(|s| - 1, hi);
    }
  }

  /** A dividend between n * lo and n * hi gives a truncated quotient between lo and hi. */
  lemma TruncDivBetween(a: int, n: int, lo: int, hi: int)
    requires n > 0 && lo * n <= a <= hi * n
    ensures lo <= TruncDiv(a, n) <= hi
  {
    var q := TruncDiv(a, n);
    assert (q + 1) * n == q * n + n && (q - 1) * n == q * n - n;
    assert (hi + 1) * n == hi * n + n;
    if q < lo {
      MulMonotone(q + 1, lo, n);
    }
    if q > hi {
      MulMonotone(hi + 1, q, n);
      MulMonotone(hi, q - 1, n);
    }
  }

  /** The truncated mean of a frame lies between the frame's smallest and largest channel value. */
  lemma MeanWithinFrame(frame: seq<int>)
    requires |frame| > 0
    ensures Min(frame) <= TruncDiv(Sum(frame), |frame|) <= Max(frame)
  {
    SumAtLeast(frame, Min(frame));
    SumAtMost(frame, Max(frame));
    TruncDivBetween(Sum(frame), |frame|, Min(frame), Max(frame));
  }

  /** Every downmixed sample lies between the smallest and largest channel value of its frame. */
  lemma DownmixWithinFrame(samples: seq<int>, nch: nat, mono: seq<int>, k: nat)
    requires nch > 0 && MeansOfFrames(samples, nch, mono) && k < |mono|
    ensures Min(Frame(samples, nch, k)) <= mono[k] <= Max(Frame(samples, nch, k))
  {
    assert k * nch + nch <= |samples| && mono[k] == TruncDiv(Sum(Frame(samples, nch, k)), nch);
    var f := Frame(samples, nch, k);
    assert |f| == nch;
    MeanWithinFrame(f);
  }

  /** A frame whose channels all carry x downmixes to x. */
  lemma DownmixEqualChannels(samples: seq<int>, nch: nat, mono: seq<int>, k: nat, x: int)
    requires nch > 0 && MeansOfFrames(samples, nch, mono) && k < |mono|
    requires forall i :: 0 <= i < |samples| && k * nch <= i < k * nch + nch ==> samples[i] == x
    ensures mono[k] == x
  {
    DownmixWithinFrame(samples, nch, mono, k);
    ConstantSlice(samples, k * nch, nch, x);
  }

  /** A run of samples that all carry x has x as its smallest and largest value. */
  lemma ConstantSlice(samples: seq<int>, lo: nat, n: nat, x: int)
    requires 0 < n && lo + n <= |samples|
    requires forall i :: lo <= i < lo + n ==> samples[i] == x
    ensures Min(samples[lo .. lo + n]) == x && Max(samples[lo .. lo + n]) == x
  {
    var f := samples[lo .. lo + n];
    assert forall c :: 0 <= c < |f| ==> f[c] == samples[lo + c];
  }

  /**
   * Downmixing keeps samples inside any range that holds every input sample,
   * in particular the range of the input sample width.
   */
  lemma DownmixKeepsRange(samples: seq<int>, nch: nat, mono: seq<int>, lo: int, hi: int)
    requires nch > 0 && MeansOfFrames(samples, nch, mono)
    requires forall i :: 0 <= i < |samples| ==> lo <= samples[i] <= hi
    ensures forall k :: 0 <= k < |mono| ==> lo <= mono[k] <= hi
  {
    forall k | 0 <= k < |mono| ensures lo <= mono[k] <= hi {
      var f := Frame(samples, nch, k);
      assert forall c :: 0 <= c < |f| ==> f[c] == samples[k * nch + c];
      DownmixWithinFrame(samples, nch, mono, k);
    }
  }

  // ---------------------------------------------------------------------------
  // scale_to_int16
  // ---------------------------------------------------------------------------

  /**
   * The largest input value for a sample width: 2^(8sw-1) - 1 for the widths
   * the decoder supports, 32767 for any other.
   */
  function MaxIn(sw: int): (m: int)
    ensures 1 <= sw <= 4 ==> m == Half(sw) - 1
    ensures !(1 <= sw <= 4) ==> m == 32767
  {
    if sw == 1 then 127
    else if sw == 2 then 32767
    else if sw == 3 then 8388607
    else if sw == 4 then 2147483647
    else 32767
  }

  /** The input clamp: s limited to [-maxIn - 1, maxIn]. */
  function ClampIn(s: int, maxIn: int): (c: int)
    requires maxIn > 0
    ensures -maxIn - 1 <= c <= maxIn
    ensures -maxIn - 1 <= s <= maxIn ==> c == s
    ensures (c > 0 <==> s > 0) && (c < 0 <==> s < 0)
  {
    var c := if s > maxIn then maxIn else s;
    if c < -maxIn - 1 then -maxIn - 1 else c
  }

  /**
   * One rescaled sample: clamp to the input range, scale by 32767 / maxIn
   * rounding toward zero, clamp to the 16-bit range.
   */
  function ScaleSample(s: int, maxIn: int): (v: int)
    requires maxIn > 0
    ensures -32768 <= v <= 32767
  {
    var q := TruncDiv(ClampIn(s, maxIn) * 32767, maxIn);
    if q > 32767 then 32767 else if q < -32768 then -32768 else q
  }

  /** scale_to_int16: rescales every sample to 16 bits, keeping the count and order. */
  method ScaleToInt16(samples: seq<int>, swIn: int) returns (out: seq<int>)
    ensures |out| == |samples|
    ensures forall k :: 0 <= k < |out| ==> out[k] == ScaleSample(samples[k], MaxIn(swIn))
    ensures forall k :: 0 <= k < |out| ==> -32768 <= out[k] <= 32767
  {
    var maxIn := MaxIn(swIn);

    out := [];
    var k := 0;
    while k < |samples|
      invariant 0 <= k <= |samples| && |out| == k
      invariant forall j :: 0 <= j < k ==> out[j] == ScaleSample(samples[j], maxIn)
    {
      var s := samples[k];
      // Into the input range [-maxIn - 1, maxIn] first.
      if s > maxIn {
        s := maxIn;
      }
      if s < -maxIn - 1 {
        s := -maxIn - 1;
      }
      // Rescale, then keep the result inside the int16 range.
      var v := TruncDiv(s * 32767, maxIn);
      if v > 32767 {
        v := 32767;
      }
      if v < -32768 {
        v := -32768;
      }
      out := out + [v];
      k := k + 1;
    }
  }

  /** Integer division by a positive divisor is monotone in the dividend. */
  lemma DivMonotone(a: nat, b: nat, d: int)
    requires a <= b && d > 0
    ensures a / d <= b / d
  {
    if a / d > b / d {
      MulMonotone(b / d + 1, a / d, d);
    }
  }

  lemma TruncDivMonotone(a: int, b: int, d: int)
    requires a <= b && d > 0
    ensures TruncDiv(a, d) <= TruncDiv(b, d)
  {
    if a >= 0 {
      DivMonotone(a, b, d);
    } else if b < 0 {
      DivMonotone(-b, -a, d);
    }
  }

  /** Rescaling preserves order: a louder input never gives a quieter output. */
  lemma ScaleMonotone(s: int, t: int, maxIn: int)
    requires maxIn > 0 && s <= t
    ensures ScaleSample(s, maxIn) <= ScaleSample(t, maxIn)
  {
    var cs, ct := ClampIn(s, maxIn), ClampIn(t, maxIn);
    assert cs <= ct;
    MulMonotone(cs, ct, 32767);
    TruncDivMonotone(cs * 32767, ct * 32767, maxIn);
  }

  /**
   * Rescaling keeps silence silent and never flips the sign of a sample. For
   * input widths of at most 16 bits it keeps the sign strictly; for wider
   * inputs a tiny non-zero sample may round to zero.
   */
  lemma ScaleSign(s: int, maxIn: int)
    requires maxIn > 0
    ensures s == 0 ==> ScaleSample(s, maxIn) == 0
    ensures s > 0 ==> ScaleSample(s, maxIn) >= 0
    ensures s < 0 ==> ScaleSample(s, maxIn) <= 0
    ensures maxIn <= 32767 && s > 0 ==> ScaleSample(s, maxIn) > 0
    ensures maxIn <= 32767 && s < 0 ==> ScaleSample(s, maxIn) < 0
  {
    var c := ClampIn(s, maxIn);
    if c > 0 {
      MulAtLeast(c, 32767);
    } else if c < 0 {
      MulAtLeast(-c, 32767);
      assert (-c) * 32767 == -(c * 32767);
    }
  }

  /**
   * Full scale maps to full scale: the largest input becomes 32767; the most
   * negative input becomes -32768 for widths of at most 16 bits and -32767
   * for wider ones, where (maxIn + 1) * 32767 / maxIn truncates to 32767.
   */
  lemma ScaleFullScale(s: int, maxIn: int)
    requires maxIn > 0
    ensures s >= maxIn ==> ScaleSample(s, maxIn) == 32767
    ensures s <= -maxIn - 1 ==> ScaleSample(s, maxIn) == if maxIn <= 32767 then -32768 else -32767
  {
    DivModUnique(maxIn * 32767, maxIn, 32767, 0);
    var a := (maxIn + 1) * 32767;
    assert a == 32767 * maxIn + 32767;
    if maxIn > 32767 {
      DivModUnique(a, maxIn, 32767, 32767);
    } else {
      DivModUnique(a, maxIn, 32767 + 32767 / maxIn, 32767 % maxIn);
      assert 32767 / maxIn >= 1 by {
        DivMonotone(maxIn, 32767, maxIn);
        DivModUnique(maxIn, maxIn, 1, 0);
      }
    }
  }

  /** Rescaling 16-bit input is the identity. */
  lemma ScaleIdentity16(s: int)
    requires -32768 <= s <= 32767
    ensures ScaleSample(s, MaxIn(2)) == s
  {
    if s >= 0 {
      DivModUnique(s * 32767, 32767, s, 0);
    } else {
      DivModUnique((-s) * 32767, 32767, -s, 0);
      assert (-s) * 32767 == -(s * 32767);
    }
  }
}
