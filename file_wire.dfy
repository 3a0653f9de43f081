/**
 * A block file assembled from blocks: every block serialised, put in a frame,
 * the frames back to back. Parsing such a file gives every block back, in
 * order, each with the hash of its header bytes, the size of its frame and its
 * transactions as the transaction parser returns them.
 */
module FileWire {
  import opened Wrappers
  import opened Bytes
  import opened Hashing
  import opened Records
  import opened TxGrammar
  import opened TxWire
  import opened Blocks
  import opened BlockWire
  import opened Framer

  /** A block that fits the serialisation: well-formed transactions, a count
      the compact-size integer can state, a frame the size field can state. */
  predicate Storable(b: Block<Transaction>)
  {
    AllWellFormed(b.transactions) && |b.transactions| < COUNT_LIMIT
    && |BlockBytes(b.header, b.transactions)| < SIZE_LIMIT
  }

  predicate AllStorable(bs: seq<Block<Transaction>>)
  {
    forall i :: 0 <= i < |bs| ==> Storable(bs[i])
  }

  /** The frames of the blocks: each block's serialisation. */
  function BlockFrames(bs: seq<Block<Transaction>>): (fs: seq<seq<Byte>>)
    ensures |fs| == |bs|
    ensures forall i :: 0 <= i < |bs| ==> fs[i] == BlockBytes(bs[i].header, bs[i].transactions)
  {
    if |bs| == 0 then [] else [BlockBytes(bs[0].header, bs[0].transactions)] + BlockFrames(bs[1..])
  }

  /** The block file: the frames of the blocks back to back. */
  function FileBytes(bs: seq<Block<Transaction>>): seq<Byte>
    requires AllStorable(bs)
  {
    assert Framable(BlockFrames(bs));
    FramesWire(BlockFrames(bs))
  }

  /** What the parser returns for a block read from its frame. */
  function Decoded(sha: Sha256, b: Block<Transaction>): SerialBlock
    requires Storable(b)
  {
    SerialBlock(SizeAsU32(|BlockBytes(b.header, b.transactions)|),
      HashHeader(sha, HeaderWire(b.header)), Block(b.header, Serials(sha, b.transactions)))
  }

  /** Parsing a block file gives its blocks back, in order: the header and
      the transactions of each, the hash of its header bytes and the length
      of its frame. */
  lemma FileRoundTrip(sha: Sha256, bs: seq<Block<Transaction>>)
    requires AllStorable(bs)
    ensures ParseFrom(sha, FileBytes(bs), 0).Ok?
    ensures |ParseFrom(sha, FileBytes(bs), 0).value| == |bs|
    ensures forall i :: 0 <= i < |bs| ==> ParseFrom(sha, FileBytes(bs), 0).value[i] == Decoded(sha, bs[i])
    ensures forall i :: 0 <= i < |bs| ==>
      ParseFrom(sha, FileBytes(bs), 0).value[i].size == |BlockBytes(bs[i].header, bs[i].transactions)|
  {
    var fs := BlockFrames(bs);
    var s := FileBytes(bs);
    hide BlockAt, ParseFrom, FramesFrom, BlockBytes, FramesWire;
    assert s[0..|s|] == s;
    FramesRoundTrip(s, 0, fs);
    ParseFrames(sha, s, 0, fs);
    forall i | 0 <= i < |fs|
      ensures BlockAt(sha, fs[i], 0) == Ok(Decoded(sha, bs[i]))
    {
      BlockRoundTrip(sha, bs[i].header, bs[i].transactions);
    }
    DecodeAllOk(sha, fs);
  }
}
