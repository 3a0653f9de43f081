/**
 * The block serialisation the parser reads: the 80-byte header at its fixed
 * layout, the transaction count as a compact-size integer, and the
 * transactions back to back. Decoding it gives the header and the
 * transactions back, each with the counts and the hash the transaction
 * parser computes.
 */
module BlockWire {
  import opened Wrappers
  import opened Bytes
  import opened Hashing
  import opened VarInts
  import opened Records
  import opened TxGrammar
  import opened TxWire
  import opened Blocks

  /** Every transaction of the list is one the transaction serialisation
      covers. */
  predicate AllWellFormed(txs: seq<Transaction>)
  {
    forall i :: 0 <= i < |txs| ==> WellFormed(txs[i])
  }

  /** Transactions back to back. */
  function TxsWire(txs: seq<Transaction>): seq<Byte>
  {
    if |txs| == 0 then [] else TxWire.TxWire(txs[0]) + TxsWire(txs[1..])
  }

  /** A block: header, count, transactions. */
  function BlockBytes(h: BlockHeader, txs: seq<Transaction>): seq<Byte>
  {
    HeaderWire(h) + CountWire(|txs|) + TxsWire(txs)
  }

  /** What the transaction parser returns for a well-formed transaction read
      from its serialisation: the counts, the hash of its legacy bytes, the
      transaction itself. */
  function Serial(sha: Sha256, tx: Transaction): SerialTransaction
    requires WellFormed(tx)
  {
    SerialTransaction(VarInt(|tx.inputs|), VarInt(|tx.outputs|), HashHeader(sha, HashedWire(tx)), tx)
  }

  function Serials(sha: Sha256, txs: seq<Transaction>): (r: seq<SerialTransaction>)
    requires AllWellFormed(txs)
    ensures |r| == |txs|
  {
    if |txs| == 0 then [] else [Serial(sha, txs[0])] + Serials(sha, txs[1..])
  }

  /** Every decoded transaction carries the transaction it was decoded from. */
  lemma {:induction false} SerialsContents(sha: Sha256, txs: seq<Transaction>)
    requires AllWellFormed(txs)
    ensures forall i :: 0 <= i < |txs| ==> Serials(sha, txs)[i].contents == txs[i]
  {
    if |txs| > 0 {
      SerialsStep(sha, txs);
      hide Serials;
      SerialsContents(sha, txs[1..]);
      forall i | 1 <= i < |txs|
        ensures Serials(sha, txs)[i].contents == txs[i]
      {
        assert Serials(sha, txs)[i] == Serials(sha, txs[1..])[i - 1];
        assert txs[i] == txs[1..][i - 1];
      }
    }
  }

  /** The first transaction's bytes, then the rest. */
  lemma {:induction false} TxsPieces(s: seq<Byte>, p: nat, txs: seq<Transaction>)
    requires |txs| > 0 && AllWellFormed(txs) && Matches(s, p, TxsWire(txs))
    ensures WellFormed(txs[0]) && AllWellFormed(txs[1..])
    ensures Matches(s, p, TxWire.TxWire(txs[0]))
    ensures Matches(s, p + |TxWire.TxWire(txs[0])|, TxsWire(txs[1..]))
    ensures |TxsWire(txs)| == |TxWire.TxWire(txs[0])| + |TxsWire(txs[1..])|
  {
    hide TxWire.HeadWire, TxWire.RestWire;
    assert forall i :: 0 <= i < |txs[1..]| ==> txs[1..][i] == txs[i + 1];
    MatchesSplit(s, p, TxWire.TxWire(txs[0]), TxsWire(txs[1..]));
  }

  /** An empty list of transactions decodes to nothing, wherever it stands. */
  lemma {:induction false} TxsNil(sha: Sha256, s: seq<Byte>, p: nat, txs: seq<Transaction>)
    requires |txs| == 0 && AllWellFormed(txs)
    ensures TxsAt(sha, s, p, |txs|) == Ok(Parsed(Serials(sha, txs), p + |TxsWire(txs)|))
  {
  }

  lemma {:induction false} TxsRoundTrip(sha: Sha256, s: seq<Byte>, p: nat, txs: seq<Transaction>)
    requires AllWellFormed(txs) && Matches(s, p, TxsWire(txs))
    ensures TxsAt(sha, s, p, |txs|) == Ok(Parsed(Serials(sha, txs), p + |TxsWire(txs)|))
    decreases |txs|
  {
    hide Matches, TxAt, TxsAt, TxsWire, Serials, TxWire.TxWire, HashedWire;
    if |txs| == 0 {
      TxsNil(sha, s, p, txs);
    } else {
      TxsPieces(s, p, txs);
      TxRoundTrip(sha, s, p, txs[0]);
      TxsRoundTrip(sha, s, p + |TxWire.TxWire(txs[0])|, txs[1..]);
      TxsUnfold(sha, s, p, |txs|);
      SerialsStep(sha, txs);
    }
  }

  lemma {:induction false} SerialsStep(sha: Sha256, txs: seq<Transaction>)
    requires |txs| > 0 && AllWellFormed(txs)
    ensures WellFormed(txs[0]) && AllWellFormed(txs[1..])
    ensures Serials(sha, txs) == [Serial(sha, txs[0])] + Serials(sha, txs[1..])
  {
    assert forall i :: 0 <= i < |txs[1..]| ==> txs[1..][i] == txs[i + 1];
  }

  /** The header, the count and the transactions, where each one starts. */
  lemma {:induction false} BlockPieces(h: BlockHeader, txs: seq<Transaction>)
    requires |txs| < COUNT_LIMIT
    ensures Matches(BlockBytes(h, txs), HEADER_SIZE, VarIntBytes(|txs|))
    ensures Matches(BlockBytes(h, txs), HEADER_SIZE + |VarIntBytes(|txs|)|, TxsWire(txs))
    ensures HEADER_SIZE <= |BlockBytes(h, txs)| && BlockBytes(h, txs)[0..HEADER_SIZE] == HeaderWire(h)
  {
    hide TxsWire, HeaderWire, VarIntBytes;
    var e := BlockBytes(h, txs);
    assert CountWire(|txs|) == VarIntBytes(|txs|);
    MatchesSplit(e, 0, HeaderWire(h) + VarIntBytes(|txs|), TxsWire(txs));
    MatchesSplit(e, 0, HeaderWire(h), VarIntBytes(|txs|));
  }

  /** Decoding a serialised block gives its header and transactions back: the
      hash is that of the header bytes, the size the length of the frame. */
  lemma {:induction false} BlockRoundTrip(sha: Sha256, h: BlockHeader, txs: seq<Transaction>)
    requires AllWellFormed(txs) && |txs| < COUNT_LIMIT
    ensures BlockAt(sha, BlockBytes(h, txs), 0)
      == Ok(SerialBlock(SizeAsU32(|BlockBytes(h, txs)|), HashHeader(sha, HeaderWire(h)), Block(h, Serials(sha, txs))))
  {
    hide BlockAt, HeaderAt, VarIntAt, TxsAt, BlockBytes, HeaderWire, TxsWire, VarIntBytes, Serials, Matches;
    var e := BlockBytes(h, txs);
    BlockPieces(h, txs);
    HeaderRoundTrip(h);
    VarIntRoundTrip(e, HEADER_SIZE, |txs|);
    var q := HEADER_SIZE + |VarIntBytes(|txs|)|;
    TxsRoundTrip(sha, e, q, txs);
    BlockAtStep(sha, e, 0, h, VarInt(|txs|), q, Serials(sha, txs), q + |TxsWire(txs)|);
  }
}
