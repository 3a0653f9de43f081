/**
 * The compact-size unsigned integer ("VarInt"): a marker byte, then 0, 2, 4
 * or 8 little-endian bytes. `VarIntAt` specifies the decoder over a buffer and
 * a position; `ReadVarInt` and `ReadVarIntMarker` are the decoders on a
 * cursor; `VarIntBytes` is the canonical encoder the decoder inverts.
 */
module VarInts {
  import opened Wrappers
  import opened Bytes
  import opened Errors
  import opened Cursors

  /** `VarInt`; the constructor is `VarInt::new` and `value` is its `Deref`. */
  datatype VarInt = VarInt(value: U64)

  /** `VarInt::from_2_bytes::<LittleEndian>`. */
  function From2Bytes(data: seq<Byte>): (v: VarInt)
    requires |data| == 2
    ensures v.value == LeValue(data) && v.value < 0x1_0000
  {
    LeValueBound(data);
    VarInt(LeValue(data))
  }

  /** `VarInt::from_4_bytes::<LittleEndian>`. */
  function From4Bytes(data: seq<Byte>): (v: VarInt)
    requires |data| == 4
    ensures v.value == LeValue(data) && v.value < 0x1_0000_0000
  {
    LeValueBound(data);
    VarInt(LeValue(data))
  }

  /** `VarInt::from_8_bytes::<LittleEndian>`. */
  function From8Bytes(data: seq<Byte>): (v: VarInt)
    requires |data| == 8
    ensures v.value == LeValue(data)
  {
    LeValueBound(data);
    VarInt(LeValue(data))
  }

  /** How many bytes follow a marker. */
  function MarkerWidth(marker: Byte): nat
  {
    if marker <= 0xfc then 0 else if marker == 0xfd then 2 else if marker == 0xfe then 4 else 8
  }

  /** What `read_var_int_marker` decodes from the bytes at `p` of `s` after the
      marker: every marker is handled, values up to 0xfc stand for themselves,
      and a longer form need not be the shortest one. */
  function VarIntMarkerAt(marker: Byte, s: seq<Byte>, p: nat): (r: Result<Parsed<VarInt>, IoError>)
    ensures r.Ok? <==> p + MarkerWidth(marker) <= |s|
    ensures r.Ok? ==> r.value.next == p + MarkerWidth(marker)
    ensures r.Ok? && marker <= 0xfc ==> r.value.value.value == marker
    ensures r.Ok? && marker > 0xfc ==> r.value.value.value == LeValue(s[p..r.value.next])
    ensures r.Ok? && marker == 0xfd ==> r.value.value.value < 0x1_0000
    ensures r.Ok? && marker == 0xfe ==> r.value.value.value < 0x1_0000_0000
  {
    var width := MarkerWidth(marker);
    if p + width > |s| then Err(UnexpectedEof)
    else if marker <= 0xfc then Ok(Parsed(VarInt(marker), p))
    else if marker == 0xfd then Ok(Parsed(From2Bytes(s[p..p + 2]), p + 2))
    else if marker == 0xfe then Ok(Parsed(From4Bytes(s[p..p + 4]), p + 4))
    else Ok(Parsed(From8Bytes(s[p..p + 8]), p + 8))
  }

  /** What `read_var_int` decodes at `p`: 1 + 0, 2, 4 or 8 bytes in all. */
  function VarIntAt(s: seq<Byte>, p: nat): (r: Result<Parsed<VarInt>, IoError>)
    ensures r.Ok? <==> p < |s| && p + 1 + MarkerWidth(s[p]) <= |s|
    ensures r.Ok? ==> r.value.next == p + 1 + MarkerWidth(s[p])
  {
    if p + 1 > |s| then Err(UnexpectedEof) else VarIntMarkerAt(s[p], s, p + 1)
  }

  /** `read_var_int_marker`: decodes the bytes that follow an already read marker. */
  method ReadVarIntMarker(marker: Byte, c: Cursor) returns (r: Result<VarInt, IoError>)
    requires c.Valid()
    modifies c`position
    ensures c.Valid()
    ensures Follows(r, VarIntMarkerAt(marker, c.data, old(c.position)), c.position)
  {
    if marker <= 0xfc {
      return Ok(VarInt(marker));
    } else if marker == 0xfd {
      var bytes :- c.ReadBytes(2);
      return Ok(From2Bytes(bytes));
    } else if marker == 0xfe {
      var bytes :- c.ReadBytes(4);
      return Ok(From4Bytes(bytes));
    } else {
      var bytes :- c.ReadBytes(8);
      return Ok(From8Bytes(bytes));
    }
  }

  /** `read_var_int`: reads the marker byte, then what follows it. */
  method ReadVarInt(c: Cursor) returns (r: Result<VarInt, IoError>)
    requires c.Valid()
    modifies c`position
    ensures c.Valid()
    ensures Follows(r, VarIntAt(c.data, old(c.position)), c.position)
  {
    var byte :- c.ReadBytes(1);
    r := ReadVarIntMarker(byte[0], c);
  }

  /** The shortest encoding of `v`. */
  function VarIntBytes(v: U64): (e: seq<Byte>)
    ensures 1 <= |e| <= 9
  {
    if v < 0xfd then [v]
    else if v < 0x1_0000 then [0xfd] + LeBytes(v, 2)
    else if v < 0x1_0000_0000 then [0xfe] + LeBytes(v, 4)
    else [0xff] + LeBytes(v, 8)
  }

  /** The decoder inverts the encoder, wherever the encoding sits in a buffer. */
  lemma VarIntRoundTrip(s: seq<Byte>, p: nat, v: U64)
    requires Matches(s, p, VarIntBytes(v))
    ensures VarIntAt(s, p) == Ok(Parsed(VarInt(v), p + |VarIntBytes(v)|))
  {
    var e := VarIntBytes(v);
    assert s[p] == e[0];
    var n := |e| - 1;
    if n > 0 {
      assert s[p + 1..p + 1 + n] == e[1..];
      LeRoundTrip(v, n);
    }
  }

  /** A decoded value re-encodes to at most the bytes it was read from: the
      encoder is the shortest form, and longer forms are accepted. */
  lemma VarIntShortest(s: seq<Byte>, p: nat)
    requires VarIntAt(s, p).Ok?
    ensures |VarIntBytes(VarIntAt(s, p).value.value.value)| <= VarIntAt(s, p).value.next - p
  {
  }

  /** `fd 01 00`, a non-shortest encoding of 1, is accepted. */
  lemma NonCanonicalAccepted()
    ensures VarIntAt([0xfd, 0x01, 0x00], 0) == Ok(Parsed(VarInt(1), 3))
  {
    assert [0xfd, 0x01, 0x00][1..3] == [0x01, 0x00];
  }
}
