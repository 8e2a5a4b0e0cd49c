/**
 * The fixed-width integer layout of the Ice protocol header, as far as the
 * collocated path patches it: a 32-bit little-endian two's-complement integer
 * written over four bytes of an already encoded message.
 */
module Wire {

  type byte = x: int | 0 <= x < 256

  const MinInt32: int := -0x8000_0000
  const MaxInt32: int := 0x7FFF_FFFF
  const TwoTo32: int := 0x1_0000_0000

  /** magic (4), protocol version (2), encoding version (2), message type (1), compression (1), size (4) */
  const HeaderSize: nat := 14
  /** The message size field sits just before the end of the fixed header. */
  const SizeOffset: nat := 10
  /** A request header is the fixed header followed by the 4-byte request id. */
  const RequestHeaderLength: nat := 18
  /** A reply header is the fixed header alone. */
  const ReplyHeaderLength: nat := 14

  predicate IsInt32(v: int) {
    MinInt32 <= v <= MaxInt32
  }

  /** The four bytes of `v`, least significant first. */
  function EncodeInt32(v: int): (r: seq<byte>)
    requires IsInt32(v)
    ensures |r| == 4
  {
    var u0 := if v < 0 then v + TwoTo32 else v;
    var u1 := u0 / 256;
    var u2 := u1 / 256;
    var u3 := u2 / 256;
    [u0 % 256, u1 % 256, u2 % 256, u3 % 256]
  }

  /** The unsigned value of four little-endian bytes. */
  function Unsigned(b: seq<byte>): (u: int)
    requires |b| == 4
    ensures 0 <= u < TwoTo32
  {
    var b0, b1, b2, b3: int := b[0], b[1], b[2], b[3];
    b0 + 256 * (b1 + 256 * (b2 + 256 * b3))
  }

  /** The integer whose little-endian two's-complement image is `b`. */
  function DecodeInt32(b: seq<byte>): (v: int)
    requires |b| == 4
    ensures IsInt32(v)
  {
    var u := Unsigned(b);
    if u > MaxInt32 then u - TwoTo32 else u
  }

  lemma DecodeEncode(v: int)
    requires IsInt32(v)
    ensures DecodeInt32(EncodeInt32(v)) == v
  {
    var u0 := if v < 0 then v + TwoTo32 else v;
    var u1 := u0 / 256;
    var u2 := u1 / 256;
    var u3 := u2 / 256;
    assert u0 == u0 % 256 + 256 * u1;
    assert u1 == u1 % 256 + 256 * u2;
    assert u2 == u2 % 256 + 256 * u3;
    assert u3 < 256;
    assert Unsigned(EncodeInt32(v)) == u0;
  }

  lemma EncodeDecode(b: seq<byte>)
    requires |b| == 4
    ensures EncodeInt32(DecodeInt32(b)) == b
  {
    var b0, b1, b2, b3: int := b[0], b[1], b[2], b[3];
    var u0 := Unsigned(b);
    var u1 := b1 + 256 * (b2 + 256 * b3);
    var u2 := b2 + 256 * b3;
    assert u0 / 256 == u1 && u0 % 256 == b[0];
    assert u1 / 256 == u2 && u1 % 256 == b[1];
    assert u2 / 256 == b[3] && u2 % 256 == b[2];
    var r := EncodeInt32(DecodeInt32(b));
    assert r == [b[0], b[1], b[2], b[3] % 256];
  }

  /** `buf` with the four bytes at `pos` replaced by the image of `v`. */
  function RewriteInt(buf: seq<byte>, pos: nat, v: int): (r: seq<byte>)
    requires pos + 4 <= |buf| && IsInt32(v)
    ensures |r| == |buf|
    ensures r[pos..pos + 4] == EncodeInt32(v)
    ensures forall i | 0 <= i < |buf| && !(pos <= i < pos + 4) :: r[i] == buf[i]
  {
    buf[..pos] + EncodeInt32(v) + buf[pos + 4..]
  }

  /** After a rewrite, reading the field back gives the value written. */
  lemma RewriteThenRead(buf: seq<byte>, pos: nat, v: int)
    requires pos + 4 <= |buf| && IsInt32(v)
    ensures DecodeInt32(RewriteInt(buf, pos, v)[pos..pos + 4]) == v
  {
    DecodeEncode(v);
  }
}
