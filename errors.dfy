/**
 * The layered error kinds of the parser and the `From` conversions between the
 * layers. Each layer records its kind and, optionally, the error that caused
 * it; `Root` follows the chain of causes down to the read failure, if any,
 * that started it.
 */
module Errors {
  import opened Wrappers
  import opened Bytes

  /** The only way a read from an in-memory buffer fails: fewer bytes remain
      than were asked for (`io::ErrorKind::UnexpectedEof`). */
  datatype IoError = UnexpectedEof

  /** The boxed `source` of an error: one of the errors below, or a read failure. */
  datatype Cause =
    | IoSource(io: IoError)
    | BlockSource(block: BlockError)
    | HeaderSource(header: HeaderError)
    | TxSource(tx: TransactionError)

  datatype ParseErrorKind = ReadError | BlockError

  /** The top-level failure for one file. */
  datatype ParseError = NewParseError(kind: ParseErrorKind, source: Option<Cause>)

  datatype BlockErrorKind = HeaderError | TransactionError | ReadError

  /** A block's header or transactions could not be decoded. */
  datatype BlockError = NewBlockError(kind: BlockErrorKind, source: Option<Cause>)

  datatype HeaderErrorKind = VersionError | HashError | RootError | TimeError | BitsError | NonceError

  /** A header field could not be read; unlike the other layers it always has a source. */
  datatype HeaderError = NewHeaderError(kind: HeaderErrorKind, source: IoError)

  datatype TransactionErrorKind = ReadError | FlagError(flag: U64)

  /** A transaction could not be decoded. */
  datatype TransactionError = NewTransactionError(kind: TransactionErrorKind, source: Option<Cause>)

  /** The read failure at the bottom of a chain of causes, if there is one. */
  function CauseRoot(c: Cause): Option<IoError>
  {
    match c
    case IoSource(io) => Some(io)
    case BlockSource(b) => if b.source.Some? then CauseRoot(b.source.value) else None
    case HeaderSource(h) => Some(h.source)
    case TxSource(t) => if t.source.Some? then CauseRoot(t.source.value) else None
  }

  function ParseRoot(e: ParseError): Option<IoError>
  {
    if e.source.Some? then CauseRoot(e.source.value) else None
  }

  function BlockRoot(e: BlockError): Option<IoError>
  {
    if e.source.Some? then CauseRoot(e.source.value) else None
  }

  function TxRoot(e: TransactionError): Option<IoError>
  {
    if e.source.Some? then CauseRoot(e.source.value) else None
  }

  /** A header error always leads back to the read failure that caused it. */
  function HeaderRoot(e: HeaderError): (r: Option<IoError>)
    ensures r == Some(e.source)
  {
    CauseRoot(HeaderSource(e))
  }

  /** `impl From<io::Error> for ParseError`. */
  function ParseErrorFromIo(source: IoError): (r: ParseError)
    ensures r.kind == ParseErrorKind.ReadError && r.source == Some(IoSource(source))
    ensures ParseRoot(r) == Some(source)
  {
    NewParseError(ParseErrorKind.ReadError, Some(IoSource(source)))
  }

  /** `impl From<BlockError> for ParseError`. */
  function ParseErrorFromBlock(source: BlockError): (r: ParseError)
    ensures r.kind == ParseErrorKind.BlockError && r.source == Some(BlockSource(source))
    ensures ParseRoot(r) == BlockRoot(source)
  {
    NewParseError(ParseErrorKind.BlockError, Some(BlockSource(source)))
  }

  /** `impl From<HeaderError> for BlockError`. */
  function BlockErrorFromHeader(source: HeaderError): (r: BlockError)
    ensures r.kind == BlockErrorKind.HeaderError && r.source == Some(HeaderSource(source))
    ensures BlockRoot(r) == Some(source.source)
  {
    NewBlockError(BlockErrorKind.HeaderError, Some(HeaderSource(source)))
  }

  /** `impl From<TransactionError> for BlockError`. */
  function BlockErrorFromTransaction(source: TransactionError): (r: BlockError)
    ensures r.kind == BlockErrorKind.TransactionError && r.source == Some(TxSource(source))
    ensures BlockRoot(r) == TxRoot(source)
  {
    NewBlockError(BlockErrorKind.TransactionError, Some(TxSource(source)))
  }

  /** A block-level read failure, as `map_err` builds it in the block parser. */
  function BlockReadError(source: IoError): (r: BlockError)
    ensures r.kind == BlockErrorKind.ReadError && BlockRoot(r) == Some(source)
  {
    NewBlockError(BlockErrorKind.ReadError, Some(IoSource(source)))
  }

  /** A transaction-level read failure, as `map_err` builds it in the transaction parser. */
  function TxReadError(source: IoError): (r: TransactionError)
    ensures r.kind == TransactionErrorKind.ReadError && TxRoot(r) == Some(source)
  {
    NewTransactionError(TransactionErrorKind.ReadError, Some(IoSource(source)))
  }

  /** The error for a segregated-witness flag byte other than 1: the observed
      byte widened to 64 bits, no source. */
  function FlagErrorOf(flag: Byte): (r: TransactionError)
    ensures r.kind == FlagError(flag) && TxRoot(r) == None
  {
    NewTransactionError(FlagError(flag), None)
  }

  /** Whatever layer a read failure passes through on its way up, the top-level
      error still names it as its root cause. */
  lemma ReadFailureSurvivesLayers(io: IoError)
    ensures ParseRoot(ParseErrorFromBlock(BlockErrorFromTransaction(TxReadError(io)))) == Some(io)
    ensures ParseRoot(ParseErrorFromBlock(BlockErrorFromHeader(NewHeaderError(VersionError, io)))) == Some(io)
    ensures ParseRoot(ParseErrorFromBlock(BlockReadError(io))) == Some(io)
    ensures ParseRoot(ParseErrorFromIo(io)) == Some(io)
  {
  }
}
