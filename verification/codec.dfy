/**
 * Byte layout of the frames exchanged with one motor-controller board:
 * the 25-byte parameter-update request and the 48-byte telemetry reply.
 */
module Codec {
  import opened Wrappers

  /** One octet on the serial line. */
  type Byte = b: int | 0 <= b < 256

  /** ASCII '&', first byte of a parameter-update request. */
  const RequestMarker: Byte := 0x26
  /** ASCII '$', the single byte that asks the board for telemetry. */
  const PollMarker: Byte := 0x24
  /** marker + u32 slot + three binary32 + one binary64 */
  const RequestLength: nat := 25
  /** Six binary32 values per motor. */
  const HalfLength: nat := 24
  /** Two halves, motor 1 first. */
  const ReplyLength: nat := 48

  /**
   * The host's IEEE 754 packing as used through `struct.pack('f')`,
   * `struct.pack('d')` and `struct.unpack_from('f')` in native byte order.
   * The bit-level encoding is not modelled; it is a parameter.
   */
  datatype FloatFormat = FloatFormat(
    packSingle: real -> seq<Byte>,
    packDouble: real -> seq<Byte>,
    unpackSingle: seq<Byte> -> real)

  /** The only facts the model relies on: binary32 is 4 bytes, binary64 is 8. */
  ghost predicate Wellformed(fmt: FloatFormat) {
    && (forall x: real :: |fmt.packSingle(x)| == 4)
    && (forall x: real :: |fmt.packDouble(x)| == 8)
  }

  lemma PackWidths(fmt: FloatFormat, x: real)
    requires Wellformed(fmt)
    ensures |fmt.packSingle(x)| == 4 && |fmt.packDouble(x)| == 8
  {
  }

  /** A value that survives a binary32 pack and unpack unchanged. */
  ghost predicate SingleExact(fmt: FloatFormat, x: real) {
    fmt.unpackSingle(fmt.packSingle(x)) == x
  }

  // ---------------------------------------------------------------------------
  // Unsigned little-endian integers (the u32 slot field)
  // ---------------------------------------------------------------------------

  function Pow256(w: nat): (r: nat)
    ensures r >= 1
  {
    if w == 0 then 1 else 256 * Pow256(w - 1)
  }

  /** `n` as `w` little-endian bytes, least significant first. */
  function LittleEndian(n: nat, w: nat): (r: seq<Byte>)
    requires n < Pow256(w)
    ensures |r| == w
  {
    if w == 0 then []
    else
      assert n / 256 < Pow256(w - 1);
      [n % 256] + LittleEndian(n / 256, w - 1)
  }

  /** The unsigned value of little-endian bytes. */
  function FromLittleEndian(b: seq<Byte>): (r: nat)
    ensures r < Pow256(|b|)
  {
    if |b| == 0 then 0
    else
      var rest := FromLittleEndian(b[1..]);
      assert b[0] + 256 * rest <= 255 + 256 * (Pow256(|b| - 1) - 1);
      b[0] + 256 * rest
  }

  lemma {:induction false} LittleEndianRoundTrip(n: nat, w: nat)
    requires n < Pow256(w)
    ensures FromLittleEndian(LittleEndian(n, w)) == n
  {
    if w > 0 {
      var b := LittleEndian(n, w);
      assert b[1..] == LittleEndian(n / 256, w - 1);
      LittleEndianRoundTrip(n / 256, w - 1);
    }
  }

  lemma {:induction false} LittleEndianOfValue(b: seq<Byte>)
    ensures LittleEndian(FromLittleEndian(b), |b|) == b
  {
    if |b| > 0 {
      var rest := FromLittleEndian(b[1..]);
      var n := b[0] + 256 * rest;
      assert n % 256 == b[0] && n / 256 == rest;
      LittleEndianOfValue(b[1..]);
    }
  }

  lemma SliceOfSlice<T>(s: seq<T>, a: nat, b: nat, i: nat, j: nat)
    requires a <= b <= |s| && i <= j <= b - a
    ensures s[a..b][i..j] == s[a + i..a + j]
  {
    var t := s[a..b];
    forall k | 0 <= k < j - i
      ensures t[i..j][k] == s[a + i..a + j][k]
    {
      assert t[i..j][k] == t[i + k] == s[a + i + k];
    }
  }

  const U32Bound: nat := 0x1_0000_0000

  lemma U32BoundIsPow()
    ensures Pow256(4) == U32Bound
  {
  }

  /** `struct.pack('I', n)` with a little-endian host. */
  function U32(n: nat): (r: seq<Byte>)
    requires n < U32Bound
    ensures |r| == 4
    ensures FromLittleEndian(r) == n
  {
    U32BoundIsPow();
    LittleEndianRoundTrip(n, 4);
    LittleEndian(n, 4)
  }

  // ---------------------------------------------------------------------------
  // Parameter-update request
  // ---------------------------------------------------------------------------

  /** The fields of a request frame, floats still as their packed bytes. */
  datatype Request = Request(slot: nat, setPoint: seq<Byte>, kp: seq<Byte>, ki: seq<Byte>, kd: seq<Byte>)

  /** Lays out the fields in wire order. */
  function Assemble(q: Request): seq<Byte>
    requires q.slot < U32Bound
  {
    [RequestMarker] + U32(q.slot) + q.setPoint + q.kp + q.ki + q.kd
  }

  /**
   * The request frame for `slot` and a motor's parameter list
   * `[setPoint, kp, ki, kd]`: setPoint, kp and ki as binary32, kd as binary64.
   */
  function EncodeRequest(fmt: FloatFormat, slot: nat, params: seq<real>): (r: seq<Byte>)
    requires Wellformed(fmt)
    requires slot < U32Bound
    requires |params| == 4
    ensures |r| == RequestLength
    ensures r[0] == RequestMarker
    ensures FromLittleEndian(r[1..5]) == slot
  {
    PackWidths(fmt, params[0]);
    PackWidths(fmt, params[1]);
    PackWidths(fmt, params[2]);
    PackWidths(fmt, params[3]);
    var q := Request(slot, fmt.packSingle(params[0]), fmt.packSingle(params[1]),
                     fmt.packSingle(params[2]), fmt.packDouble(params[3]));
    var r := Assemble(q);
    assert r[1..5] == U32(slot);
    r
  }

  /** What a board reads out of a request frame; None unless it is a 25-byte '&' frame. */
  function ParseRequest(frame: seq<Byte>): (r: Option<Request>)
    ensures r.Some? <==> |frame| == RequestLength && frame[0] == RequestMarker
    ensures r.Some? ==> r.value.slot < U32Bound
  {
    if |frame| == RequestLength && frame[0] == RequestMarker then
      var slot := FromLittleEndian(frame[1..5]);
      U32BoundIsPow();
      Some(Request(slot, frame[5..9], frame[9..13], frame[13..17], frame[17..25]))
    else None
  }

  /** The request frame carries exactly the slot and the four packed parameters, in order. */
  lemma RequestRoundTrip(fmt: FloatFormat, slot: nat, params: seq<real>)
    requires Wellformed(fmt)
    requires slot < U32Bound
    requires |params| == 4
    ensures ParseRequest(EncodeRequest(fmt, slot, params))
         == Some(Request(slot, fmt.packSingle(params[0]), fmt.packSingle(params[1]),
                         fmt.packSingle(params[2]), fmt.packDouble(params[3])))
  {
    var f := EncodeRequest(fmt, slot, params);
    PackWidths(fmt, params[0]);
    PackWidths(fmt, params[1]);
    PackWidths(fmt, params[2]);
    PackWidths(fmt, params[3]);
    assert f[5..9] == fmt.packSingle(params[0]);
    assert f[9..13] == fmt.packSingle(params[1]);
    assert f[13..17] == fmt.packSingle(params[2]);
    assert f[17..25] == fmt.packDouble(params[3]);
  }

  /** Parsing loses nothing: a parsed frame is rebuilt byte for byte. */
  lemma ParseReassembles(frame: seq<Byte>)
    requires ParseRequest(frame).Some?
    ensures Assemble(ParseRequest(frame).value) == frame
  {
    var q := ParseRequest(frame).value;
    LittleEndianOfValue(frame[1..5]);
    U32BoundIsPow();
    assert U32(q.slot) == frame[1..5];
    assert frame == [frame[0]] + frame[1..5] + frame[5..9] + frame[9..13] + frame[13..17] + frame[17..25];
  }

  // ---------------------------------------------------------------------------
  // Telemetry reply
  // ---------------------------------------------------------------------------

  /** `count` consecutive binary32 fields, field k at byte offset 4k. */
  function UnpackSingles(fmt: FloatFormat, data: seq<Byte>, count: nat): (r: seq<real>)
    requires |data| == 4 * count
    ensures |r| == count
    ensures forall k :: 0 <= k < count ==> r[k] == fmt.unpackSingle(data[4 * k..4 * k + 4])
  {
    if count == 0 then []
    else
      var rest := UnpackSingles(fmt, data[4..], count - 1);
      assert forall k :: 1 <= k < count ==> data[4..][4 * (k - 1)..4 * (k - 1) + 4] == data[4 * k..4 * k + 4];
      [fmt.unpackSingle(data[..4])] + rest
  }

  /** The board's side of the reply: the values packed as consecutive binary32 fields. */
  function PackSingles(fmt: FloatFormat, xs: seq<real>): (r: seq<Byte>)
    requires Wellformed(fmt)
    ensures |r| == 4 * |xs|
  {
    if |xs| == 0 then []
    else
      PackWidths(fmt, xs[0]);
      fmt.packSingle(xs[0]) + PackSingles(fmt, xs[1..])
  }

  /** Decoding a reply reproduces every value that binary32 represents exactly. */
  lemma {:induction false} SinglesRoundTrip(fmt: FloatFormat, xs: seq<real>)
    requires Wellformed(fmt)
    requires forall k :: 0 <= k < |xs| ==> SingleExact(fmt, xs[k])
    ensures UnpackSingles(fmt, PackSingles(fmt, xs), |xs|) == xs
  {
    if |xs| > 0 {
      var data := PackSingles(fmt, xs);
      PackWidths(fmt, xs[0]);
      assert data[..4] == fmt.packSingle(xs[0]);
      assert data[4..] == PackSingles(fmt, xs[1..]);
      assert SingleExact(fmt, xs[0]);
      SinglesRoundTrip(fmt, xs[1..]);
    }
  }
}
