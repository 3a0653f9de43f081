/**
 * The block parser. A block frame starts with an 80-byte header, which is
 * carved off as a cursor of its own, hashed as it stands and then decoded
 * field by field; a variable-length transaction count and that many
 * transactions follow. `HeaderAt`, `TxsAt` and `BlockAt` specify the decoding
 * over a buffer and a position; the methods are proved to follow them.
 */
module Blocks {
  import opened Wrappers
  import opened Bytes
  import opened Errors
  import opened Cursors
  import opened Hashing
  import opened VarInts
  import opened Records
  import opened TxGrammar
  import TxParsing
  import TxWire

  /** The length of a raw block header. */
  const HEADER_SIZE: nat := 80

  /** `SerialBlock`: the frame length, the header hash and the decoded block. */
  datatype SerialBlock = SerialBlock(size: U32, hash: BitcoinHash, contents: Block<SerialTransaction>)

  /** `cursor.size() as u32`: the frame length, truncated to 32 bits. */
  function SizeAsU32(n: nat): (v: U32)
    ensures n < 0x1_0000_0000 ==> v == n
  {
    n % 0x1_0000_0000
  }

  // ---------------------------------------------------------------------
  // The header grammar
  // ---------------------------------------------------------------------

  /** A little-endian `u32` header field; a short buffer fails with `kind`. */
  function HeaderU32At(kind: HeaderErrorKind, s: seq<Byte>, p: nat): Result<Parsed<U32>, HeaderError>
  {
    if p + 4 <= |s| then Ok(Parsed(LeU32(s[p..p + 4]), p + 4))
    else Err(NewHeaderError(kind, UnexpectedEof))
  }

  /** `build_hash` / `build_merkle_root`: 32 raw bytes taken as a hash. */
  function HashFieldAt(kind: HeaderErrorKind, s: seq<Byte>, p: nat): Result<Parsed<BitcoinHash>, HeaderError>
  {
    if p + 32 <= |s| then Ok(Parsed(BitcoinHash(s[p..p + 32]), p + 32))
    else Err(NewHeaderError(kind, UnexpectedEof))
  }

  /** The difficulty bits: four raw bytes. */
  function BitsAt(s: seq<Byte>, p: nat): Result<Parsed<BlockTarget>, HeaderError>
  {
    if p + 4 <= |s| then Ok(Parsed(BlockTargetFrom(s[p..p + 4]), p + 4))
    else Err(NewHeaderError(BitsError, UnexpectedEof))
  }

  /** `SerialHeader::build_header`: version, previous hash, merkle root, time,
      bits and nonce, in that order; the first field that does not fit names
      the error. */
  function HeaderAt(s: seq<Byte>, p: nat): Result<Parsed<BlockHeader>, HeaderError>
  {
    var version :- HeaderU32At(VersionError, s, p);
    var previous :- HashFieldAt(HashError, s, version.next);
    var txroot :- HashFieldAt(RootError, s, previous.next);
    var time :- HeaderU32At(TimeError, s, txroot.next);
    var bits :- BitsAt(s, time.next);
    var nonce :- HeaderU32At(NonceError, s, bits.next);
    Ok(Parsed(BlockHeader(version.value, previous.value, txroot.value,
      MiningInfo(time.value, bits.value, nonce.value)), nonce.next))
  }

  /** The header whose fields sit at the fixed offsets of the 80-byte layout. */
  function HeaderLayout(raw: seq<Byte>): BlockHeader
    requires |raw| >= HEADER_SIZE
  {
    BlockHeader(LeU32(raw[0..4]), BitcoinHash(raw[4..36]), BitcoinHash(raw[36..68]),
      MiningInfo(LeU32(raw[68..72]), BlockTarget(raw[72..76]), LeU32(raw[76..80])))
  }

  /** The field a header fails at when only `n < 80` bytes are left. */
  function ShortHeaderKind(n: nat): HeaderErrorKind
  {
    if n < 4 then VersionError
    else if n < 36 then HashError
    else if n < 68 then RootError
    else if n < 72 then TimeError
    else if n < 76 then BitsError
    else NonceError
  }

  /** With 80 bytes available the header always decodes, to the fixed layout,
      and consumes exactly 80 bytes. */
  lemma HeaderAtLayout(s: seq<Byte>, p: nat)
    requires p + HEADER_SIZE <= |s|
    ensures HeaderAt(s, p) == Ok(Parsed(HeaderLayout(s[p..p + HEADER_SIZE]), p + HEADER_SIZE))
  {
    var raw := s[p..p + HEADER_SIZE];
    assert s[p..p + 4] == raw[0..4];
    assert s[p + 4..p + 36] == raw[4..36];
    assert s[p + 36..p + 68] == raw[36..68];
    assert s[p + 68..p + 72] == raw[68..72];
    assert s[p + 72..p + 76] == raw[72..76];
    assert raw[72..76][..4] == raw[72..76];
    assert s[p + 76..p + 80] == raw[76..80];
  }

  /** With fewer than 80 bytes the header fails, at the first field that does
      not fit, with an end-of-data cause. */
  lemma HeaderAtShort(s: seq<Byte>, p: nat)
    requires p <= |s| < p + HEADER_SIZE
    ensures HeaderAt(s, p) == Err(NewHeaderError(ShortHeaderKind(|s| - p), UnexpectedEof))
  {
  }

  /** The header decodes exactly when 80 bytes are available. */
  lemma HeaderAtOkIff(s: seq<Byte>, p: nat)
    requires p <= |s|
    ensures HeaderAt(s, p).Ok? <==> p + HEADER_SIZE <= |s|
  {
    if p + HEADER_SIZE <= |s| {
      HeaderAtLayout(s, p);
    } else {
      HeaderAtShort(s, p);
    }
  }

  /** The layout read back: a header written field by field at the fixed
      offsets decodes to the same header. */
  function HeaderWire(h: BlockHeader): (e: seq<Byte>)
    ensures |e| == HEADER_SIZE
  {
    TxWire.U32Wire(h.version) + h.previous.data + h.txroot.data + TxWire.U32Wire(h.consensus.time)
      + h.consensus.bits.data + TxWire.U32Wire(h.consensus.nonce)
  }

  lemma HeaderRoundTrip(h: BlockHeader)
    ensures HeaderAt(HeaderWire(h), 0) == Ok(Parsed(h, HEADER_SIZE))
  {
    var e := HeaderWire(h);
    HeaderAtLayout(e, 0);
    assert e[0..HEADER_SIZE] == e;
    assert e[0..4] == TxWire.U32Wire(h.version);
    assert e[4..36] == h.previous.data;
    assert e[36..68] == h.txroot.data;
    assert e[68..72] == TxWire.U32Wire(h.consensus.time);
    assert e[72..76] == h.consensus.bits.data;
    assert e[76..80] == TxWire.U32Wire(h.consensus.nonce);
    LeRoundTrip(h.version, 4);
    LeRoundTrip(h.consensus.time, 4);
    LeRoundTrip(h.consensus.nonce, 4);
  }

  // ---------------------------------------------------------------------
  // The transaction list and the block
  // ---------------------------------------------------------------------

  /** `n` transactions in a row from `p`; the first failure aborts the list. */
  function TxsAt(sha: Sha256, s: seq<Byte>, p: nat, n: nat): (r: Result<Parsed<seq<SerialTransaction>>, BlockError>)
    ensures r.Ok? ==> |r.value.value| == n && p <= r.value.next
    ensures r.Ok? && n > 0 ==> r.value.next <= |s|
    ensures r.Err? ==> r.error.kind == BlockErrorKind.TransactionError
    decreases n, 2
  {
    if n == 0 then Ok(Parsed([], p)) else NonEmptyTxsAt(sha, s, p, n)
  }

  function NonEmptyTxsAt(sha: Sha256, s: seq<Byte>, p: nat, n: nat): (r: Result<Parsed<seq<SerialTransaction>>, BlockError>)
    requires n > 0
    ensures r.Ok? ==> |r.value.value| == n && p < r.value.next <= |s|
    ensures r.Err? ==> r.error.kind == BlockErrorKind.TransactionError
    decreases n, 1
  {
    TxsStepAt(sha, s, p, n)
  }

  /** One transaction, then the other `n - 1`. */
  function TxsStepAt(sha: Sha256, s: seq<Byte>, p: nat, n: nat): (r: Result<Parsed<seq<SerialTransaction>>, BlockError>)
    requires n > 0
    ensures r.Ok? ==> |r.value.value| == n && p < r.value.next <= |s|
    ensures r.Err? ==> r.error.kind == BlockErrorKind.TransactionError
    decreases n, 0
  {
    var t :- TxAt(sha, s, p).MapErr(BlockErrorFromTransaction);
    PrependAll([t.value], TxsAt(sha, s, t.next, n - 1))
  }

  /** `TxsAt` for a non-empty list, one transaction at a time. */
  lemma TxsUnfold(sha: Sha256, s: seq<Byte>, p: nat, n: nat)
    requires n > 0
    ensures TxAt(sha, s, p).Err? ==>
      TxsAt(sha, s, p, n) == Err(BlockErrorFromTransaction(TxAt(sha, s, p).error))
    ensures TxAt(sha, s, p).Ok? ==>
      TxsAt(sha, s, p, n) == PrependAll([TxAt(sha, s, p).value.value], TxsAt(sha, s, TxAt(sha, s, p).value.next, n - 1))
  {
    hide TxAt;
    assert TxsAt(sha, s, p, n) == NonEmptyTxsAt(sha, s, p, n) == TxsStepAt(sha, s, p, n);
  }

  /** The list decoded by `TxsAt` is the transactions found one after another:
      each element is what `TxAt` decodes where the previous one ended. */
  lemma {:induction false} TxsAtElements(sha: Sha256, s: seq<Byte>, p: nat, n: nat)
    requires TxsAt(sha, s, p, n).Ok?
    ensures n > 0 ==> (TxAt(sha, s, p).Ok?
      && TxsAt(sha, s, p, n).value.value[0] == TxAt(sha, s, p).value.value
      && TxsAt(sha, s, TxAt(sha, s, p).value.next, n - 1).Ok?
      && TxsAt(sha, s, p, n).value.value[1..] == TxsAt(sha, s, TxAt(sha, s, p).value.next, n - 1).value.value
      && TxsAt(sha, s, p, n).value.next == TxsAt(sha, s, TxAt(sha, s, p).value.next, n - 1).value.next)
  {
    if n > 0 {
      TxsUnfold(sha, s, p, n);
    }
  }

  /** `read_transactions`: the count, then that many transactions. */
  function BlockTxsAt(sha: Sha256, s: seq<Byte>, p: nat): (r: Result<Parsed<seq<SerialTransaction>>, BlockError>)
    ensures r.Ok? ==> VarIntAt(s, p).Ok? && |r.value.value| == VarIntAt(s, p).value.value.value
    ensures r.Ok? ==> p < r.value.next <= |s|
    ensures VarIntAt(s, p).Err? ==> r == Err(BlockReadError(VarIntAt(s, p).error))
    ensures VarIntAt(s, p).Ok? && r.Err? ==> r.error.kind == BlockErrorKind.TransactionError
  {
    var count :- VarIntAt(s, p).MapErr(BlockReadError);
    TxsAt(sha, s, count.next, count.value.value)
  }

  /** `SerialBlock::from_raw_data` on the frame `s` read from `p`: the header
      cut off as 80 bytes (a shorter frame is a read error), hashed raw, then
      decoded; then the transactions after it. */
  function BlockAt(sha: Sha256, s: seq<Byte>, p: nat): Result<SerialBlock, BlockError>
  {
    if p + HEADER_SIZE > |s| then Err(BlockReadError(UnexpectedEof))
    else
      var raw := s[p..p + HEADER_SIZE];
      var header :- HeaderAt(raw, 0).MapErr(BlockErrorFromHeader);
      var txs :- BlockTxsAt(sha, s, p + HEADER_SIZE);
      Ok(SerialBlock(SizeAsU32(|s|), HashHeader(sha, raw), Block(header.value, txs.value)))
  }

  /** `BlockAt` from the results of its three parts. */
  lemma BlockAtStep(sha: Sha256, s: seq<Byte>, p: nat, h: BlockHeader, count: VarInt, q: nat, txs: seq<SerialTransaction>, r: nat)
    requires p + HEADER_SIZE <= |s|
    requires HeaderAt(s[p..p + HEADER_SIZE], 0) == Ok(Parsed(h, HEADER_SIZE))
    requires VarIntAt(s, p + HEADER_SIZE) == Ok(Parsed(count, q))
    requires TxsAt(sha, s, q, count.value) == Ok(Parsed(txs, r))
    ensures BlockAt(sha, s, p) == Ok(SerialBlock(SizeAsU32(|s|), HashHeader(sha, s[p..p + HEADER_SIZE]), Block(h, txs)))
  {
  }

  /** What a decoded block is made of: the whole frame's length (truncated),
      the hash of exactly the 80 header bytes, the header at the fixed layout,
      and as many transactions as the count after the header says, decoded
      from right after the count. */
  lemma BlockAtOk(sha: Sha256, s: seq<Byte>, p: nat)
    requires BlockAt(sha, s, p).Ok?
    ensures p + HEADER_SIZE < |s|
    ensures BlockAt(sha, s, p).value.size == SizeAsU32(|s|)
    ensures BlockAt(sha, s, p).value.hash == HashHeader(sha, s[p..p + HEADER_SIZE])
    ensures BlockAt(sha, s, p).value.contents.header == HeaderLayout(s[p..p + HEADER_SIZE])
    ensures VarIntAt(s, p + HEADER_SIZE).Ok?
    ensures BlockAt(sha, s, p).value.contents.transactions
      == TxsAt(sha, s, VarIntAt(s, p + HEADER_SIZE).value.next, VarIntAt(s, p + HEADER_SIZE).value.value.value).value.value
    ensures |BlockAt(sha, s, p).value.contents.transactions| == VarIntAt(s, p + HEADER_SIZE).value.value.value
  {
    var raw := s[p..p + HEADER_SIZE];
    HeaderAtLayout(raw, 0);
    assert raw[0..HEADER_SIZE] == raw;
  }

  /** A decoded block never fails with a header error: a frame long enough to
      cut the header from always holds all of its fields. */
  lemma BlockAtNoHeaderError(sha: Sha256, s: seq<Byte>, p: nat)
    requires BlockAt(sha, s, p).Err?
    ensures BlockAt(sha, s, p).error.kind != BlockErrorKind.HeaderError
  {
    if p + HEADER_SIZE <= |s| {
      HeaderAtLayout(s[p..p + HEADER_SIZE], 0);
    }
  }

  /** A frame shorter than a header is a block-level read error. */
  lemma BlockAtShortFrame(sha: Sha256, s: seq<Byte>, p: nat)
    requires |s| < p + HEADER_SIZE
    ensures BlockAt(sha, s, p) == Err(BlockReadError(UnexpectedEof))
    ensures BlockAt(sha, s, p).error.kind == BlockErrorKind.ReadError
  {
  }

  /** Once the header is there, a missing or truncated count is a read error,
      and a failing transaction aborts the block with that transaction's
      error. */
  lemma BlockAtTxFailure(sha: Sha256, s: seq<Byte>, p: nat)
    requires p + HEADER_SIZE <= |s|
    ensures VarIntAt(s, p + HEADER_SIZE).Err? ==>
      BlockAt(sha, s, p) == Err(BlockReadError(VarIntAt(s, p + HEADER_SIZE).error))
    ensures VarIntAt(s, p + HEADER_SIZE).Ok? ==>
      var count := VarIntAt(s, p + HEADER_SIZE).value;
      TxsAt(sha, s, count.next, count.value.value).Err? ==>
        BlockAt(sha, s, p) == Err(TxsAt(sha, s, count.next, count.value.value).error)
  {
    var raw := s[p..p + HEADER_SIZE];
    HeaderAtLayout(raw, 0);
  }

  // ---------------------------------------------------------------------
  // The imperative parser
  // ---------------------------------------------------------------------

  /** A 32-byte hash field read off the header cursor. */
  method ReadHashField(kind: HeaderErrorKind, cursor: Cursor) returns (r: Result<BitcoinHash, HeaderError>)
    requires cursor.Valid()
    modifies cursor`position
    ensures cursor.Valid()
    ensures Follows(r, HashFieldAt(kind, cursor.data, old(cursor.position)), cursor.position)
  {
    var data := cursor.ReadBytes(32);
    if data.Err? {
      return Err(NewHeaderError(kind, data.error));
    }
    return Ok(BitcoinHash(data.value));
  }

  /** `SerialHeader::build_hash`: the previous block's hash. */
  method BuildHash(cursor: Cursor) returns (r: Result<BitcoinHash, HeaderError>)
    requires cursor.Valid()
    modifies cursor`position
    ensures cursor.Valid()
    ensures Follows(r, HashFieldAt(HashError, cursor.data, old(cursor.position)), cursor.position)
  {
    r := ReadHashField(HashError, cursor);
  }

  /** `SerialHeader::build_merkle_root`: the merkle root of the transactions. */
  method BuildMerkleRoot(cursor: Cursor) returns (r: Result<BitcoinHash, HeaderError>)
    requires cursor.Valid()
    modifies cursor`position
    ensures cursor.Valid()
    ensures Follows(r, HashFieldAt(RootError, cursor.data, old(cursor.position)), cursor.position)
  {
    r := ReadHashField(RootError, cursor);
  }

  /** `SerialHeader::build_hash_array`: a zeroed 32-byte array overwritten
      with the leading bytes of `slice`, pairwise. */
  method BuildHashArray(slice: seq<Byte>) returns (hash: Bytes32)
    requires |slice| >= 32
    ensures hash == slice[..32]
  {
    var a := new Byte[32](_ => 0);
    var i := 0;
    while i < 32
      invariant 0 <= i <= 32
      invariant a[..i] == slice[..i]
    {
      a[i] := slice[i];
      i := i + 1;
    }
    assert a[..] == a[..32];
    hash := a[..];
  }

  /** `SerialHeader::build_header` on the header cursor. */
  method BuildHeader(cursor: Cursor) returns (r: Result<BlockHeader, HeaderError>)
    requires cursor.Valid()
    modifies cursor`position
    ensures cursor.Valid()
    ensures Follows(r, HeaderAt(cursor.data, old(cursor.position)), cursor.position)
  {
    ghost var s := cursor.data;
    ghost var p := cursor.position;
    var version := ReadU32Le(cursor);
    if version.Err? {
      return Err(NewHeaderError(VersionError, version.error));
    }
    var previous := BuildHash(cursor);
    if previous.Err? {
      return Err(previous.error);
    }
    var txroot := BuildMerkleRoot(cursor);
    if txroot.Err? {
      return Err(txroot.error);
    }
    assert cursor.position == p + 68;
    var time := ReadU32Le(cursor);
    if time.Err? {
      return Err(NewHeaderError(TimeError, time.error));
    }
    var bits := cursor.ReadBytes(4);
    if bits.Err? {
      return Err(NewHeaderError(BitsError, bits.error));
    }
    var nonce := ReadU32Le(cursor);
    if nonce.Err? {
      return Err(NewHeaderError(NonceError, nonce.error));
    }
    HeaderAtLayout(s, p);
    r := Ok(BlockHeader(version.value, previous.value, txroot.value,
      MiningInfo(time.value, BlockTargetFrom(bits.value), nonce.value)));
  }

  /** One transaction of the list, as the list grammar's step. */
  method ReadTxStep(sha: Sha256, cursor: Cursor, ghost n: nat) returns (r: Result<SerialTransaction, BlockError>)
    requires cursor.Valid() && n > 0
    modifies cursor`position
    ensures cursor.Valid()
    ensures r.Ok? ==> old(cursor.position) < cursor.position
    ensures TxsAt(sha, cursor.data, old(cursor.position), n) ==
      (if r.Ok? then PrependAll([r.value], TxsAt(sha, cursor.data, cursor.position, n - 1)) else Err(r.error))
  {
    ghost var p := cursor.position;
    var t := TxParsing.FromRawData(sha, cursor);
    TxsUnfold(sha, cursor.data, p, n);
    if t.Err? {
      return Err(BlockErrorFromTransaction(t.error));
    }
    return Ok(t.value);
  }

  /** `SerialBlock::read_transactions`: the count, then a loop that reads that
      many transactions, stopping at the first failure. */
  method ReadTransactions(sha: Sha256, cursor: Cursor) returns (r: Result<seq<SerialTransaction>, BlockError>)
    requires cursor.Valid()
    modifies cursor`position
    ensures cursor.Valid()
    ensures Follows(r, BlockTxsAt(sha, cursor.data, old(cursor.position)), cursor.position)
  {
    ghost var s := cursor.data;
    var txcount := ReadVarInt(cursor);
    if txcount.Err? {
      return Err(BlockReadError(txcount.error));
    }
    ghost var start := cursor.position;
    var n := txcount.value.value;
    var transactions := [];
    var i := 0;
    PrependNothing(TxsAt(sha, s, start, n));
    while i < n
      invariant cursor.Valid() && i <= n
      invariant TxsAt(sha, s, start, n) == PrependAll(transactions, TxsAt(sha, s, cursor.position, n - i))
    {
      var t := ReadTxStep(sha, cursor, n - i);
      if t.Err? {
        return Err(t.error);
      }
      PrependAllAssoc(transactions, [t.value], TxsAt(sha, s, cursor.position, n - i - 1));
      transactions := transactions + [t.value];
      i := i + 1;
    }
    assert transactions + [] == transactions;
    return Ok(transactions);
  }

  /** `SerialBlock::from_raw_data` on a frame cursor. */
  method FromRawData(sha: Sha256, cursor: Cursor) returns (r: Result<SerialBlock, BlockError>)
    requires cursor.Valid()
    modifies cursor`position
    ensures cursor.Valid()
    ensures r == BlockAt(sha, cursor.data, old(cursor.position))
  {
    var size := SizeAsU32(cursor.Size());
    var rawHeader := cursor.BytesToCursor(HEADER_SIZE);
    if rawHeader.Err? {
      return Err(BlockReadError(rawHeader.error));
    }
    var raw := rawHeader.value;
    var hash := HashHeader(sha, raw.GetRef());
    // The header cursor holds exactly 80 bytes, so `build_header` succeeds
    // and its error conversion is never reached.
    HeaderAtLayout(raw.data, 0);
    var header := BuildHeader(raw);
    var transactions := ReadTransactions(sha, cursor);
    if transactions.Err? {
      return Err(transactions.error);
    }
    return Ok(SerialBlock(size, hash, Block(header.value, transactions.value)));
  }
}
