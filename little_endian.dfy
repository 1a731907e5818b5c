/**
 * Little-endian fixed-width integers, as Python's `struct` module packs and
 * unpacks them with the `<` byte order (`B`, `h`, `H`, `i`, `I`), and as the
 * RIFF/WAVE format stores every multi-byte field.
 */
module LittleEndian {
  import opened Wrappers

  /** A byte as Python's `bytes` hands it out: an int in [0, 255]. */
  type byte = x: int | 0 <= x < 256

  /** 256^n, the number of distinct n-byte values. */
  function Pow256(n: nat): (r: nat)
    ensures r >= 1
  {
    if n == 0 then 1 else 256 * Pow256(n - 1)
  }

  /** The unsigned value of bs, least significant byte first. */
  function Unsigned(bs: seq<byte>): (v: nat)
    ensures v < Pow256(|bs|)
  {
    if bs == [] then 0 else bs[0] + 256 * Unsigned(bs[1..])
  }

  /** Half the range of n bytes: 2^(8n-1), where the sign bit of an n-byte value sits. */
  function Half(n: nat): (h: int)
    requires n > 0
    ensures h > 0 && 2 * h == Pow256(n)
  {
    128 * Pow256(n - 1)
  }

  /** The two's-complement reading of an n-byte unsigned value u. */
  function ToSigned(u: nat, n: nat): (v: int)
    requires 0 < n && u < Pow256(n)
    ensures -Half(n) <= v < Half(n)
    ensures v >= 0 <==> u < Half(n)
    ensures v == u || v == u - Pow256(n)
  {
    if u >= Half(n) then u - Pow256(n) else u
  }

  /** The signed little-endian value of bs (struct codes `h` and `i`). */
  function Signed(bs: seq<byte>): (v: int)
    requires |bs| > 0
    ensures -Half(|bs|) <= v < Half(|bs|)
  {
    ToSigned(Unsigned(bs), |bs|)
  }

  /**
   * The n bytes that encode v, least significant first (struct codes `H`
   * and `I`): decoding them gives v back.
   */
  function Encode(v: nat, n: nat): (bs: seq<byte>)
    requires v < Pow256(n)
    ensures |bs| == n && Unsigned(bs) == v
  {
    if n == 0 then []
    else
      var rest := Encode(v / 256, n - 1);
      assert ([v % 256] + rest)[1..] == rest;
      [v % 256] + rest
  }

  /** struct.error raised by struct.pack for a value the field cannot hold. */
  datatype StructError = ArgumentOutOfRange(value: int)

  /** struct.pack of one unsigned n-byte field: a value out of range is an error. */
  function Pack(v: int, n: nat): (r: Result<seq<byte>, StructError>)
    ensures r.Ok? <==> 0 <= v < Pow256(n)
    ensures r.Ok? ==> |r.value| == n && Unsigned(r.value) == v
    ensures r.Err? ==> r.error == ArgumentOutOfRange(v)
  {
    if 0 <= v < Pow256(n) then
      Ok(Encode(v, n))
    else
      Err(ArgumentOutOfRange(v))
  }

  /** Encoding the value of a byte string gives the byte string back. */
  lemma {:induction false} EncodeDecode(bs: seq<byte>)
    ensures Encode(Unsigned(bs), |bs|) == bs
  {
    if bs != [] {
      var v := Unsigned(bs);
      assert v % 256 == bs[0] && v / 256 == Unsigned(bs[1..]);
      EncodeDecode(bs[1..]);
    }
  }

  /** Unsigned values are injective on byte strings of one width. */
  lemma UnsignedInjective(a: seq<byte>, b: seq<byte>)
    requires |a| == |b| && Unsigned(a) == Unsigned(b)
    ensures a == b
  {
    EncodeDecode(a);
    EncodeDecode(b);
  }
}
