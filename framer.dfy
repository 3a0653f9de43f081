/**
 * The block-file framer and the whole-file parse. A block file is a run of
 * frames, each the network magic (big-endian `0xf9beb4d9`), the frame size
 * (little-endian `u32`) and that many bytes of serialised block. The iterator
 * hands out one sub-cursor per frame; running out of bytes before a magic, or
 * meeting four bytes that are not the magic, ends the iteration quietly. A
 * magic without a complete size or a complete frame after it is a hard
 * failure. The parse decodes every frame as a block, in file order, and the
 * first failure wins.
 */
module Framer {
  import opened Wrappers
  import opened Bytes
  import opened Errors
  import opened Cursors
  import opened Hashing
  import opened Blocks
  import TxWire

  /** The network magic that opens every frame, read big-endian. */
  const MAGIC_BYTES: nat := 0xf9beb4d9

  /** The magic as it lies in the file. */
  const MAGIC_WIRE: seq<Byte> := [0xf9, 0xbe, 0xb4, 0xd9]

  /** The largest frame size the `u32` size field can state, plus one. */
  const SIZE_LIMIT: nat := 0x1_0000_0000

  /** What one step of the iterator finds at `p`: `None` when the frames end
      (fewer than four bytes left, or four that are not the magic), a failure
      when the magic is there but the size or the frame is cut short, and
      otherwise the frame's bytes with the position just after them. */
  function FrameAt(s: seq<Byte>, p: nat): (r: Option<Result<Parsed<seq<Byte>>, IoError>>)
    ensures r.Some? && r.value.Ok? ==> r.value.value.next == p + 8 + |r.value.value.value| <= |s|
  {
    if p + 4 > |s| || BeValue(s[p..p + 4]) != MAGIC_BYTES then None
    else if p + 8 > |s| then Some(Err(UnexpectedEof))
    else
      var size := LeU32(s[p + 4..p + 8]);
      if p + 8 + size > |s| then Some(Err(UnexpectedEof))
      else Some(Ok(Parsed(s[p + 8..p + 8 + size], p + 8 + size)))
  }

  /** The frames of `s` from `p` on, in order, up to the quiet end; the
      failure of the first frame that is cut short. */
  function FramesFrom(s: seq<Byte>, p: nat): Result<seq<seq<Byte>>, IoError>
    decreases |s| - p
  {
    match FrameAt(s, p)
    case None => Ok([])
    case Some(Err(e)) => Err(e)
    case Some(Ok(f)) =>
      var rest :- FramesFrom(s, f.next);
      Ok([f.value] + rest)
  }

  /** The blocks of a frame list, decoded one by one; the first block that
      fails to decode gives the error. */
  function DecodeAll(sha: Sha256, fs: seq<seq<Byte>>): Result<seq<SerialBlock>, ParseError>
  {
    if |fs| == 0 then Ok([])
    else
      var block :- BlockAt(sha, fs[0], 0).MapErr(ParseErrorFromBlock);
      var rest :- DecodeAll(sha, fs[1..]);
      Ok([block] + rest)
  }

  /** The whole-file parse from `p` on: each frame, as it is met, is decoded
      as a block and collected; a framing failure or a block failure ends the
      parse with that error. */
  function ParseFrom(sha: Sha256, s: seq<Byte>, p: nat): Result<seq<SerialBlock>, ParseError>
    decreases |s| - p
  {
    match FrameAt(s, p)
    case None => Ok([])
    case Some(Err(e)) => Err(ParseErrorFromIo(e))
    case Some(Ok(f)) =>
      var block :- BlockAt(sha, f.value, 0).MapErr(ParseErrorFromBlock);
      var rest :- ParseFrom(sha, s, f.next);
      Ok([block] + rest)
  }

  /** Blocks already collected in front of the rest of a parse. */
  function PrependOk<T, E>(xs: seq<T>, r: Result<seq<T>, E>): Result<seq<T>, E>
  {
    if r.Ok? then Ok(xs + r.value) else r
  }

  /** The frames end quietly at `q`. */
  predicate Stops(s: seq<Byte>, q: nat)
  {
    q + 4 > |s| || BeValue(s[q..q + 4]) != MAGIC_BYTES
  }

  /** A magic stands at `q`, but the size or the frame after it is cut short. */
  predicate Truncated(s: seq<Byte>, q: nat)
  {
    q + 4 <= |s| && BeValue(s[q..q + 4]) == MAGIC_BYTES
    && (q + 8 > |s| || q + 8 + LeValue(s[q + 4..q + 8]) > |s|)
  }

  /** Every frame's length fits the size field. */
  predicate Framable(fs: seq<seq<Byte>>)
  {
    forall i :: 0 <= i < |fs| ==> |fs[i]| < SIZE_LIMIT
  }

  /** One frame as it lies in the file. */
  function FrameWire(f: seq<Byte>): (e: seq<Byte>)
    requires |f| < SIZE_LIMIT
    ensures |e| == 8 + |f|
  {
    MAGIC_WIRE + TxWire.U32Wire(|f|) + f
  }

  /** Frames back to back. */
  function FramesWire(fs: seq<seq<Byte>>): seq<Byte>
    requires Framable(fs)
  {
    if |fs| == 0 then [] else FrameWire(fs[0]) + FramesWire(fs[1..])
  }

  /** Four bytes read big-endian are the magic exactly when they are the
      magic's bytes. */
  lemma MagicIff(b: seq<Byte>)
    requires |b| == 4
    ensures BeValue(b) == MAGIC_BYTES <==> b == MAGIC_WIRE
  {
    BeValue4(b);
    if BeValue(b) == MAGIC_BYTES {
      assert b[0] == 0xf9 && b[1] == 0xbe && b[2] == 0xb4 && b[3] == 0xd9;
    }
  }

  /** A frame the iterator yields lies in the file as magic, size, bytes. */
  lemma FrameAtWire(s: seq<Byte>, p: nat, f: seq<Byte>, q: nat)
    requires FrameAt(s, p) == Some(Ok(Parsed(f, q)))
    ensures |f| < SIZE_LIMIT && Matches(s, p, FrameWire(f)) && q == p + 8 + |f|
  {
    assert p + 8 + |f| <= |s| && q == p + 8 + |f|;
    assert BeValue(s[p..p + 4]) == MAGIC_BYTES;
    assert LeValue(s[p + 4..p + 8]) == |f|;
    assert s[p + 8..p + 8 + |f|] == f;
    hide FrameAt;
    MagicIff(s[p..p + 4]);
    LeInjective(s[p + 4..p + 8]);
    assert Matches(s, p, MAGIC_WIRE) && Matches(s, p + 4, TxWire.U32Wire(|f|)) && Matches(s, p + 8, f);
    hide Matches;
    MatchesConcat(s, p, MAGIC_WIRE, TxWire.U32Wire(|f|));
    MatchesConcat(s, p, MAGIC_WIRE + TxWire.U32Wire(|f|), f);
  }

  /** Magic, size and bytes in the file are a frame the iterator yields. */
  lemma WireFrameAt(s: seq<Byte>, p: nat, f: seq<Byte>)
    requires |f| < SIZE_LIMIT && Matches(s, p, FrameWire(f))
    ensures FrameAt(s, p) == Some(Ok(Parsed(f, p + 8 + |f|)))
  {
    MatchesSplit(s, p, MAGIC_WIRE + TxWire.U32Wire(|f|), f);
    MatchesSplit(s, p, MAGIC_WIRE, TxWire.U32Wire(|f|));
    MagicIff(s[p..p + 4]);
    LeRoundTrip(|f|, 4);
  }

  /** The iterator yields the frame `f` at `p` exactly when the file holds
      the magic, the size of `f` and `f` there. */
  lemma FrameAtOkIff(s: seq<Byte>, p: nat, f: seq<Byte>, q: nat)
    ensures FrameAt(s, p) == Some(Ok(Parsed(f, q)))
      <==> |f| < SIZE_LIMIT && Matches(s, p, FrameWire(f)) && q == p + 8 + |f|
  {
    if FrameAt(s, p) == Some(Ok(Parsed(f, q))) {
      FrameAtWire(s, p, f, q);
    }
    if |f| < SIZE_LIMIT && Matches(s, p, FrameWire(f)) && q == p + 8 + |f| {
      WireFrameAt(s, p, f);
    }
  }

  /** There is no frame where the frames end quietly. */
  lemma FrameAtStops(s: seq<Byte>, q: nat)
    ensures FrameAt(s, q).None? <==> Stops(s, q)
  {
  }

  /** The iterator fails at `q` exactly where a frame is cut short. */
  lemma FrameAtErrIff(s: seq<Byte>, q: nat)
    ensures FrameAt(s, q) == Some(Err(UnexpectedEof)) <==> Truncated(s, q)
  {
  }

  lemma {:induction false} FramesWireStep(fs: seq<seq<Byte>>)
    requires |fs| > 0 && Framable(fs)
    ensures |fs[0]| < SIZE_LIMIT && Framable(fs[1..])
    ensures FramesWire(fs) == FrameWire(fs[0]) + FramesWire(fs[1..])
  {
    assert forall i :: 0 <= i < |fs[1..]| ==> fs[1..][i] == fs[i + 1];
  }

  lemma FramableCons(f: seq<Byte>, rest: seq<seq<Byte>>)
    requires |f| < SIZE_LIMIT && Framable(rest)
    ensures Framable([f] + rest) && ([f] + rest)[0] == f && ([f] + rest)[1..] == rest
  {
  }

  /** The frames found from `p` lie back to back from `p` on, and the frames
      end quietly right after the last one. */
  lemma {:induction false} FramesTile(s: seq<Byte>, p: nat, fs: seq<seq<Byte>>)
    requires p <= |s| && FramesFrom(s, p) == Ok(fs)
    ensures Framable(fs) && Matches(s, p, FramesWire(fs)) && Stops(s, p + |FramesWire(fs)|)
    decreases |s| - p
  {
    match FrameAt(s, p)
    case None =>
      FrameAtStops(s, p);
    case Some(Ok(f)) =>
      var rest := FramesFrom(s, f.next).value;
      assert fs == [f.value] + rest;
      FramesTile(s, f.next, rest);
      FrameAtOkIff(s, p, f.value, f.next);
      assert fs[1..] == rest;
      FramesWireStep(fs);
      MatchesConcat(s, p, FrameWire(f.value), FramesWire(rest));
  }

  /** Conversely, frames laid back to back and followed by a quiet end are
      found again, in order. */
  lemma {:induction false} FramesRoundTrip(s: seq<Byte>, p: nat, fs: seq<seq<Byte>>)
    requires Framable(fs) && Matches(s, p, FramesWire(fs)) && Stops(s, p + |FramesWire(fs)|)
    ensures FramesFrom(s, p) == Ok(fs)
    decreases |fs|
  {
    if |fs| == 0 {
      FrameAtStops(s, p);
    } else {
      FramesWireStep(fs);
      MatchesSplit(s, p, FrameWire(fs[0]), FramesWire(fs[1..]));
      var q := p + 8 + |fs[0]|;
      FrameAtOkIff(s, p, fs[0], q);
      FramesRoundTrip(s, q, fs[1..]);
      assert [fs[0]] + fs[1..] == fs;
    }
  }

  /** A framing failure happens at a frame that is cut short, after frames
      that lie back to back. */
  lemma {:induction false} FramesFailure(s: seq<Byte>, p: nat)
    requires p <= |s| && FramesFrom(s, p).Err?
    ensures exists fs :: Framable(fs) && Matches(s, p, FramesWire(fs)) && Truncated(s, p + |FramesWire(fs)|)
    decreases |s| - p
  {
    hide FrameAt, Matches, FramesWire, Truncated, Framable;
    var r := FrameAt(s, p);
    if r.Some? && r.value.Ok? {
      var f := r.value.value;
      FramesFailure(s, f.next);
      var rest :| Framable(rest) && Matches(s, f.next, FramesWire(rest)) && Truncated(s, f.next + |FramesWire(rest)|);
      FailureCons(s, p, f.value, rest);
      var fs := [f.value] + rest;
      assert Framable(fs) && Matches(s, p, FramesWire(fs)) && Truncated(s, p + |FramesWire(fs)|);
    } else {
      FailureNil(s, p);
      var fs: seq<seq<Byte>> := [];
      assert Framable(fs) && Matches(s, p, FramesWire(fs)) && Truncated(s, p + |FramesWire(fs)|);
    }
  }

  lemma FailureNil(s: seq<Byte>, p: nat)
    requires p <= |s| && FrameAt(s, p).Some? && FrameAt(s, p).value.Err?
    ensures Framable([]) && Matches(s, p, FramesWire([])) && Truncated(s, p + |FramesWire([])|)
  {
    FrameAtErrIff(s, p);
  }

  lemma FailureCons(s: seq<Byte>, p: nat, f: seq<Byte>, rest: seq<seq<Byte>>)
    requires FrameAt(s, p) == Some(Ok(Parsed(f, p + 8 + |f|)))
    requires Framable(rest) && Matches(s, p + 8 + |f|, FramesWire(rest))
    requires Truncated(s, p + 8 + |f| + |FramesWire(rest)|)
    ensures Framable([f] + rest) && Matches(s, p, FramesWire([f] + rest))
    ensures Truncated(s, p + |FramesWire([f] + rest)|)
  {
    FrameAtOkIff(s, p, f, p + 8 + |f|);
    hide FrameAt, FramesWire, Matches, Truncated;
    FramableCons(f, rest);
    FramesWireStep([f] + rest);
    MatchesConcat(s, p, FrameWire(f), FramesWire(rest));
  }

  /** An empty file, or one that does not start with the magic, has no
      frames and no blocks. */
  lemma QuietEnd(sha: Sha256, s: seq<Byte>, p: nat)
    requires Stops(s, p)
    ensures FramesFrom(s, p) == Ok([]) && ParseFrom(sha, s, p) == Ok([])
  {
  }

  /** The parse decodes exactly the frames the iterator finds, in order. */
  lemma {:induction false} ParseFrames(sha: Sha256, s: seq<Byte>, p: nat, fs: seq<seq<Byte>>)
    requires FramesFrom(s, p) == Ok(fs)
    ensures ParseFrom(sha, s, p) == DecodeAll(sha, fs)
    decreases |s| - p
  {
    hide BlockAt;
    match FrameAt(s, p)
    case None =>
    case Some(Ok(f)) =>
      var rest := FramesFrom(s, f.next).value;
      ParseFrames(sha, s, f.next, rest);
      assert fs == [f.value] + rest;
      assert fs[0] == f.value && fs[1..] == rest;
  }

  /** A framing failure fails the parse: with that failure, unless a frame
      before it does not decode as a block. */
  lemma {:induction false} ParseFramingFailure(sha: Sha256, s: seq<Byte>, p: nat, e: IoError)
    requires FramesFrom(s, p) == Err(e)
    ensures ParseFrom(sha, s, p).Err?
    ensures ParseFrom(sha, s, p).error == ParseErrorFromIo(e)
      || ParseFrom(sha, s, p).error.kind == ParseErrorKind.BlockError
    decreases |s| - p
  {
    hide BlockAt;
    match FrameAt(s, p)
    case Some(Err(_)) =>
    case Some(Ok(f)) =>
      ParseFramingFailure(sha, s, f.next, e);
  }

  /** The frames decode as a whole exactly when each decodes on its own, and
      the blocks are then the frames' blocks, in order. */
  lemma {:induction false} DecodeAllOk(sha: Sha256, fs: seq<seq<Byte>>)
    ensures DecodeAll(sha, fs).Ok? <==> forall i :: 0 <= i < |fs| ==> BlockAt(sha, fs[i], 0).Ok?
    ensures DecodeAll(sha, fs).Ok? ==>
      (|DecodeAll(sha, fs).value| == |fs|
       && forall i :: 0 <= i < |fs| ==> DecodeAll(sha, fs).value[i] == BlockAt(sha, fs[i], 0).value)
  {
    hide BlockAt;
    if |fs| > 0 {
      DecodeAllOk(sha, fs[1..]);
      assert forall i :: 1 <= i < |fs| ==> fs[1..][i - 1] == fs[i];
      if DecodeAll(sha, fs).Ok? {
        var bs := DecodeAll(sha, fs).value;
        assert bs == [BlockAt(sha, fs[0], 0).value] + DecodeAll(sha, fs[1..]).value;
        forall i | 1 <= i < |fs|
          ensures bs[i] == BlockAt(sha, fs[i], 0).value
        {
          assert bs[i] == DecodeAll(sha, fs[1..]).value[i - 1];
        }
      }
      if forall i :: 0 <= i < |fs| ==> BlockAt(sha, fs[i], 0).Ok? {
        assert forall i :: 0 <= i < |fs[1..]| ==> BlockAt(sha, fs[1..][i], 0).Ok? by {
          forall i | 0 <= i < |fs[1..]|
            ensures BlockAt(sha, fs[1..][i], 0).Ok?
          {
            assert fs[1..][i] == fs[i + 1];
          }
        }
      }
    }
  }

  /** A failed decode fails on the first frame that does not decode, with
      that frame's block error. */
  lemma {:induction false} DecodeAllErr(sha: Sha256, fs: seq<seq<Byte>>)
    requires DecodeAll(sha, fs).Err?
    ensures exists i ::
      (0 <= i < |fs| && (forall j :: 0 <= j < i ==> BlockAt(sha, fs[j], 0).Ok?)
       && BlockAt(sha, fs[i], 0).Err?
       && DecodeAll(sha, fs).error == ParseErrorFromBlock(BlockAt(sha, fs[i], 0).error))
  {
    hide BlockAt;
    if BlockAt(sha, fs[0], 0).Err? {
    } else {
      DecodeAllErr(sha, fs[1..]);
      var k :| 0 <= k < |fs[1..]| && (forall j :: 0 <= j < k ==> BlockAt(sha, fs[1..][j], 0).Ok?)
        && BlockAt(sha, fs[1..][k], 0).Err?
        && DecodeAll(sha, fs[1..]).error == ParseErrorFromBlock(BlockAt(sha, fs[1..][k], 0).error);
      forall j | 0 <= j < k + 1
        ensures BlockAt(sha, fs[j], 0).Ok?
      {
        if j > 0 {
          assert fs[j] == fs[1..][j - 1];
        }
      }
      assert fs[k + 1] == fs[1..][k];
    }
  }

  /** The parse, unfolded once: how a frame's block joins the blocks after it. */
  lemma ParseFromStep(sha: Sha256, s: seq<Byte>, p: nat, f: Parsed<seq<Byte>>, b: SerialBlock)
    requires FrameAt(s, p) == Some(Ok(f)) && BlockAt(sha, f.value, 0) == Ok(b)
    ensures ParseFrom(sha, s, p) == PrependOk([b], ParseFrom(sha, s, f.next))
  {
    hide BlockAt, FrameAt;
  }

  lemma PrependOkAssoc<T, E>(xs: seq<T>, ys: seq<T>, r: Result<seq<T>, E>)
    ensures PrependOk(xs, PrependOk(ys, r)) == PrependOk(xs + ys, r)
  {
    if r.Ok? {
      assert xs + (ys + r.value) == (xs + ys) + r.value;
    }
  }

  lemma PrependOkNothing<T, E>(r: Result<seq<T>, E>)
    ensures PrependOk([], r) == r
  {
    if r.Ok? {
      assert [] + r.value == r.value;
    }
  }

  /** The iterator over a block file (`BlockIterator`): a cursor whose position
      steps from frame to frame. */
  class BlockIterator {
    const buffer: Cursor

    ghost predicate Valid()
      reads this, buffer
    {
      buffer.Valid()
    }

    /** `BlockIterator::new`. */
    constructor (buffer: Cursor)
      ensures this.buffer == buffer
      ensures buffer.Valid() ==> Valid()
    {
      this.buffer := buffer;
    }

    /** `next`: the frame at the cursor, as a fresh cursor over exactly its
        bytes, with the outer cursor just past it; `None` at the quiet end;
        a failure where a frame is cut short. */
    method Next() returns (r: Option<Result<Cursor, IoError>>)
      requires Valid()
      modifies buffer`position
      ensures Valid()
      ensures match FrameAt(buffer.data, old(buffer.position))
        case None => r.None?
        case Some(Err(e)) => r == Some(Err(e))
        case Some(Ok(f)) =>
          r.Some? && r.value.Ok? && fresh(r.value.value) && r.value.value.Valid()
          && r.value.value.data == f.value && r.value.value.position == 0
          && buffer.position == f.next
      ensures r.None? ==> (buffer.position
        == if old(buffer.position) + 4 <= |buffer.data| then old(buffer.position) + 4 else |buffer.data|)
      ensures r.Some? && r.value.Err? ==> (buffer.position
        == if old(buffer.position) + 8 <= |buffer.data| then old(buffer.position) + 8 else |buffer.data|)
    {
      var read := ReadU32Be(buffer);
      match read
      case Err(_) =>
        return None;
      case Ok(magic) =>
        if magic != MAGIC_BYTES {
          return None;
        }
        var size := ReadU32Le(buffer);
        if size.Err? {
          return Some(Err(size.error));
        }
        var frame := buffer.BytesToCursor(size.value);
        return Some(frame);
    }
  }

  /** `read_raw_blocks`: an iterator at the start of the file's bytes. */
  method ReadRawBlocks(buffer: seq<Byte>) returns (it: BlockIterator)
    ensures fresh(it) && fresh(it.buffer) && it.Valid()
    ensures it.buffer.data == buffer && it.buffer.position == 0
  {
    var cursor := new Cursor(buffer);
    it := new BlockIterator(cursor);
  }

  /** `parse`, after the file is read: every frame the iterator yields is
      decoded by `from_raw_data` and collected in order; the first failure
      is the result. */
  method Parse(sha: Sha256, buffer: seq<Byte>) returns (r: Result<seq<SerialBlock>, ParseError>)
    ensures r == ParseFrom(sha, buffer, 0)
  {
    var frames := ReadRawBlocks(buffer);
    var blocks: seq<SerialBlock> := [];
    PrependOkNothing(ParseFrom(sha, buffer, 0));
    while true
      invariant fresh(frames.buffer) && frames.Valid() && frames.buffer.data == buffer
      invariant ParseFrom(sha, buffer, 0) == PrependOk(blocks, ParseFrom(sha, buffer, frames.buffer.position))
      decreases |buffer| - frames.buffer.position
    {
      ghost var p := frames.buffer.position;
      var next := frames.Next();
      match next
      case None =>
        assert blocks + [] == blocks;
        return Ok(blocks);
      case Some(Err(e)) =>
        return Err(ParseErrorFromIo(e));
      case Some(Ok(frame)) =>
        ghost var f := FrameAt(buffer, p).value.value;
        var block := FromRawData(sha, frame);
        if block.Err? {
          return Err(ParseErrorFromBlock(block.error));
        }
        ParseFromStep(sha, buffer, p, f, block.value);
        PrependOkAssoc(blocks, [block.value], ParseFrom(sha, buffer, f.next));
        blocks := blocks + [block.value];
    }
  }
}
