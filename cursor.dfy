/**
 * The bounds-checked cursor over an immutable byte buffer, and the
 * `read_exact`/`read_u32` helpers that the `Read` trait and the `byteorder`
 * crate layer on top of its `read`.
 */
module Cursors {
  import opened Wrappers
  import opened Bytes
  import opened Errors

  class Cursor {
    /** The borrowed bytes (`get_ref`); no read ever changes them. */
    const data: seq<Byte>
    /** The position shared by `read_bytes`, `bytes_to_cursor` and `read`. */
    var position: nat

    ghost predicate Valid()
      reads this
    {
      position <= |data|
    }

    /** `Cursor::new`: a cursor at the start of `data`. */
    constructor (data: seq<Byte>)
      ensures this.data == data && position == 0 && Valid()
    {
      this.data := data;
      position := 0;
    }

    /** `size`: the length of the whole buffer, wherever the cursor stands. */
    function Size(): (n: nat)
      ensures n == |GetRef()|
    {
      |data|
    }

    /** `get_ref`: the whole buffer. */
    function GetRef(): seq<Byte>
    {
      data
    }

    /** `read_bytes`: the next `n` bytes, advancing past them; on underrun a
        failure that leaves the position where it was. */
    method ReadBytes(n: nat) returns (r: Result<seq<Byte>, IoError>)
      requires Valid()
      modifies this`position
      ensures Valid()
      ensures old(position) + n <= |data| ==>
        r == Ok(data[old(position)..old(position) + n]) && position == old(position) + n
      ensures old(position) + n > |data| ==> r == Err(UnexpectedEof) && position == old(position)
    {
      if position + n > |data| {
        return Err(UnexpectedEof);
      }
      r := Ok(data[position..position + n]);
      position := position + n;
    }

    /** `bytes_to_cursor`: an independent cursor over exactly the next `n` bytes,
        at its start; the parent advances past them. */
    method BytesToCursor(n: nat) returns (r: Result<Cursor, IoError>)
      requires Valid()
      modifies this`position
      ensures Valid()
      ensures r.Ok? <==> old(position) + n <= |data|
      ensures r.Ok? ==> (fresh(r.value) && r.value.Valid()
        && r.value.data == data[old(position)..old(position) + n] && r.value.position == 0
        && position == old(position) + n)
      ensures r.Err? ==> r.error == UnexpectedEof && position == old(position)
    {
      var bytes := ReadBytes(n);
      match bytes
      case Err(e) =>
        return Err(e);
      case Ok(slice) =>
        var sub := new Cursor(slice);
        return Ok(sub);
    }

    /** `Read::read` into the slice `buffer[from..]`: copies as many bytes as
        both the slice and the rest of the buffer allow, and advances by that
        many. */
    method Read(buffer: array<Byte>, from: nat) returns (count: nat)
      requires Valid() && from <= buffer.Length
      modifies this`position, buffer
      ensures Valid()
      ensures count == Min(buffer.Length - from, |data| - old(position))
      ensures position == old(position) + count
      ensures buffer[..from] == old(buffer[..from])
      ensures buffer[from..from + count] == data[old(position)..position]
      ensures buffer[from + count..] == old(buffer[from + count..])
    {
      count := Min(buffer.Length - from, |data| - position);
      forall i | from <= i < from + count {
        buffer[i] := data[position + i - from];
      }
      position := position + count;
    }
  }

  /** `Read::read_exact` as the standard library provides it by default: calls
      `read` until the buffer is full; when the data runs out first it fails,
      having consumed what was left. */
  method ReadExact(c: Cursor, buffer: array<Byte>) returns (r: Result<(), IoError>)
    requires c.Valid()
    modifies c`position, buffer
    ensures c.Valid()
    ensures r.Ok? <==> old(c.position) + buffer.Length <= |c.data|
    ensures r.Ok? ==> (c.position == old(c.position) + buffer.Length
      && buffer[..] == c.data[old(c.position)..c.position])
    ensures r.Err? ==> r.error == UnexpectedEof && c.position == |c.data|
  {
    var filled := 0;
    while filled < buffer.Length
      invariant c.Valid()
      invariant filled <= buffer.Length
      invariant c.position == old(c.position) + filled
      invariant buffer[..filled] == c.data[old(c.position)..c.position]
      decreases buffer.Length - filled
    {
      ghost var before := c.position;
      var n := c.Read(buffer, filled);
      if n == 0 {
        return Err(UnexpectedEof);
      }
      assert buffer[..filled + n] == buffer[..filled] + buffer[filled..filled + n];
      SliceJoin(c.data, old(c.position), before, c.position);
      filled := filled + n;
    }
    assert buffer[..] == buffer[..filled];
    return Ok(());
  }

  /** `ReadBytesExt::read_u32::<LittleEndian>`. */
  method ReadU32Le(c: Cursor) returns (r: Result<U32, IoError>)
    requires c.Valid()
    modifies c`position
    ensures c.Valid()
    ensures r.Ok? <==> old(c.position) + 4 <= |c.data|
    ensures r.Ok? ==> (r.value == LeU32(c.data[old(c.position)..old(c.position) + 4])
      && c.position == old(c.position) + 4)
    ensures r.Err? ==> r.error == UnexpectedEof && c.position == |c.data|
  {
    var buffer := new Byte[4];
    var read := ReadExact(c, buffer);
    if read.Err? {
      return Err(read.error);
    }
    return Ok(LeU32(buffer[..]));
  }

  /** `ReadBytesExt::read_u32::<BigEndian>`. */
  method ReadU32Be(c: Cursor) returns (r: Result<U32, IoError>)
    requires c.Valid()
    modifies c`position
    ensures c.Valid()
    ensures r.Ok? <==> old(c.position) + 4 <= |c.data|
    ensures r.Ok? ==> (r.value == BeValue(c.data[old(c.position)..old(c.position) + 4])
      && c.position == old(c.position) + 4)
    ensures r.Err? ==> r.error == UnexpectedEof && c.position == |c.data|
  {
    var buffer := new Byte[4];
    var read := ReadExact(c, buffer);
    if read.Err? {
      return Err(read.error);
    }
    BeValue4(buffer[..]);
    return Ok(BeValue(buffer[..]));
  }
}
