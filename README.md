# A verified model of the bitcoin-parser block-file decoder

This project models the decoding core of `bitcoin-parser`. That core is the Rust
library that reads Bitcoin Core `blk*.dat` files into blocks and transactions.

A block file is a run of frames. Each frame is:

- the network magic `0xf9beb4d9`, read big-endian;
- the frame size, a little-endian `u32`;
- one serialised block of that many bytes.

A block is:

- an 80-byte header at a fixed layout;
- a compact-size transaction count;
- that many transactions, one after another.

A transaction uses either the legacy serialisation or the segregated-witness
one. The segregated-witness form adds marker `0x00`, flag `0x01` and one
witness stack per input (section "Serialization" of BIP 144). While the
transaction parser reads a transaction, it feeds a hash builder. The builder
receives the legacy-serialisation bytes, over which the transaction id is taken
(section "Transaction ID" of BIP 141). It has one quirk, carried here as the
code has it. In the legacy framing, only the marker byte of the input count is
hashed, and the bytes after it are not.

The model keeps the source's form:

- The cursor is a class with an immutable buffer and a mutable position.
- The transaction parser is a class that holds the cursor and a hash-builder
  object.
- The reading loops are `while` loops with invariants.
- The witnesses are assigned in place in an `array` of inputs.
- The block iterator is a class whose `Next` advances the file cursor.

Each imperative operation is proved against a pure "grammar" function over
(buffer, position), which returns the decoded value and the next position, or
the error. The `Follows` predicate ties a method's result and final position to
that function. Properties are proved about the grammar functions. They are:

- the byte layout each one reads;
- the error each failure produces;
- the split of the hashed bytes;
- round trips from encoders (`TxWire`, `BlockWire`, `Framer.FramesWire`,
  `FileWire`) back through the decoders, up to a whole block file.

Files and modules:

| file | module | source |
|---|---|---|
| wrappers.dfy | Wrappers | `Option`/`Result` and `?`-style propagation |
| errors.dfy | Errors | `lib/src/parser.rs` error structs, kinds and `From` conversions |
| bytes.dfy | Bytes | byte strings, little/big-endian values (`byteorder`), `Matches`, `Follows` |
| cursor.dfy | Cursors | `lib/src/blkparser/cursor.rs`, plus `read_exact`/`read_u32` layered on `Read` |
| hashing.dfy | Hashing | `BitcoinHash`, `BlockTarget`, `BitcoinHashBuilder` in `lib/src/types.rs` |
| varint.dfy | VarInts | `VarInt` in `lib/src/types.rs`, `lib/src/blkparser/helpers.rs` |
| records.dfy | Records | `lib/src/blockchain/transactions.rs`, block records |
| tx_grammar.dfy | TxGrammar | what `lib/src/blkparser/transaction.rs` reads and hashes, as functions |
| transaction.dfy | TxParsing | `TxParser` and `SerialTransaction::from_raw_data`, imperative |
| tx_wire.dfy | TxWire | transaction serialisations and round trips |
| block.dfy | Blocks | `lib/src/blkparser/block.rs` |
| block_wire.dfy | BlockWire | block serialisation and round trip |
| framer.dfy | Framer | `BlockIterator`, `read_raw_blocks` and the collecting loop of `parse` in `lib/src/blkparser/mod.rs` |
| file_wire.dfy | FileWire | whole-file round trip |

## Model

| member | source | states |
|---|---|---|
| Errors.ParseErrorFromIo | lib/src/parser.rs:37-44 | an I/O error becomes a `ParseError` of kind `ReadError` with that error as source and root cause |
| Errors.ParseErrorFromBlock | lib/src/parser.rs:46-53 | a `BlockError` becomes a `ParseError` of kind `BlockError` with the block error as source, keeping its root cause |
| Errors.BlockErrorFromHeader | lib/src/parser.rs:76-83 | a `HeaderError` becomes a `BlockError` of kind `HeaderError`; its root cause is the header's I/O error |
| Errors.BlockErrorFromTransaction | lib/src/parser.rs:85-92 | a `TransactionError` becomes a `BlockError` of kind `TransactionError`, keeping its root cause |
| Errors.BlockReadError | lib/src/blkparser/block.rs:29-31 | a read failure of the block layer is a `BlockError` of kind `ReadError` rooted in that I/O error |
| Errors.TxReadError | lib/src/blkparser/transaction.rs:133-138 | a read failure of the parser is a `TransactionError` of kind `ReadError` rooted in that I/O error |
| Errors.FlagErrorOf | lib/src/blkparser/transaction.rs:40-41 | a bad flag is a `FlagError` carrying the flag byte widened, with no source |
| Errors.HeaderRoot | lib/src/parser.rs:104-115 | a `HeaderError` always carries its I/O source |
| Errors.ReadFailureSurvivesLayers | lib/src/parser.rs:37-92 | an I/O failure wrapped through the transaction, header, block and parse layers is still the root cause at the top |
| Cursors.Cursor.constructor | lib/src/blkparser/cursor.rs:9-13 | a new cursor is at position 0 over the given bytes |
| Cursors.Cursor.Size | lib/src/blkparser/cursor.rs:26-28 | the size is the length of the whole buffer (`GetRef`), wherever the cursor stands |
| Cursors.Cursor.ReadBytes | lib/src/blkparser/cursor.rs:19-24 | the next `n` bytes exactly, and the position advanced by `n`; on underrun a failure with the position unchanged |
| Cursors.Cursor.BytesToCursor | lib/src/blkparser/cursor.rs:15-17 | a fresh cursor over exactly the next `n` bytes at position 0, the parent advanced by `n`; on underrun a failure |
| Cursors.Cursor.Read | lib/src/blkparser/cursor.rs:35-39 | copies as many bytes as fit and remain into the buffer, advancing the same position by that count, and touches no other part of the buffer |
| Cursors.ReadExact | lib/src/blkparser/cursor.rs:35-39 | fills the buffer from the cursor when enough bytes remain; otherwise fails after consuming the rest |
| Cursors.ReadU32Le | lib/src/blkparser/block.rs:62-64 | the little-endian value of the next four bytes, position advanced by 4; `UnexpectedEof` otherwise |
| Cursors.ReadU32Be | lib/src/blkparser/mod.rs:64-65 | the big-endian value of the next four bytes, position advanced by 4; `UnexpectedEof` otherwise |
| Bytes.LeRoundTrip | lib/src/types.rs:18-28 | decoding the `n`-byte little-endian encoding of `v` gives `v` |
| Bytes.LeInjective | lib/src/types.rs:18-28 | a byte string is the encoding of its own little-endian value |
| Bytes.BeValue4 | lib/src/blkparser/mod.rs:64-65 | the big-endian value of four bytes, written out |
| Bytes.ReversedInvolutive | lib/src/types.rs:92-95 | reversing twice gives the bytes back |
| Hashing.ReverseInPlace | lib/src/types.rs:93 | the array afterwards is the reverse of the array before |
| Hashing.FromLittleEndian | lib/src/types.rs:92-95 | the stored hash is the given array reversed |
| Hashing.HashHeaderDigest | lib/src/types.rs:97-101 | a header hash has 32 bytes and, reversed, is SHA-256 applied twice to the digest |
| Hashing.BlockTargetFrom | lib/src/types.rs:62-66 | the target holds exactly the first four bytes of a slice of at least four |
| Hashing.HashBuilder.constructor | lib/src/types.rs:139-145 | a new builder has accumulated nothing |
| Hashing.HashBuilder.AddDigest | lib/src/types.rs:130-132 | the contents become the old contents followed by the data |
| Hashing.HashBuilder.IntoHash | lib/src/types.rs:134-136 | the hash is `hash_header` of everything accumulated |
| VarInts.From2Bytes | lib/src/types.rs:18-20 | the little-endian value of two bytes, below 2^16 |
| VarInts.From4Bytes | lib/src/types.rs:22-24 | the little-endian value of four bytes, below 2^32 |
| VarInts.From8Bytes | lib/src/types.rs:26-28 | the little-endian value of eight bytes |
| VarInts.VarIntMarkerAt | lib/src/blkparser/helpers.rs:12-18 | succeeds exactly when the 0, 2, 4 or 8 bytes the marker calls for remain; a marker up to `0xfc` is the value; a wider value is the little-endian value of the bytes it read, below 2^16 or 2^32 for `0xfd` or `0xfe` |
| VarInts.VarIntAt | lib/src/blkparser/helpers.rs:7-10 | succeeds exactly when the marker and its follow-up bytes remain, and consumes 1 + 0, 2, 4 or 8 bytes |
| VarInts.ReadVarIntMarker | lib/src/blkparser/helpers.rs:12-18 | the value and the final position `VarIntMarkerAt` gives, or its error |
| VarInts.ReadVarInt | lib/src/blkparser/helpers.rs:7-10 | the value and the final position `VarIntAt` gives, or its error |
| VarInts.VarIntRoundTrip | lib/src/blkparser/helpers.rs:12-18 | the shortest compact-size encoding of `v` decodes to `v`, consuming exactly its bytes, wherever it sits |
| VarInts.VarIntShortest | lib/src/blkparser/helpers.rs:12-18 | every decoded value re-encodes in at most the bytes it was read from |
| VarInts.NonCanonicalAccepted | lib/src/blkparser/helpers.rs:15 | `fd 01 00`, a non-shortest encoding, decodes to 1 |
| Records.LookForWitness | lib/src/blockchain/transactions.rs:29-31 | true exactly when some input carries a witness |
| Records.NewTransaction | lib/src/blockchain/transactions.rs:18-27 | keeps version, inputs, outputs and locktime as given; `segwit` holds exactly when some input has a witness |
| Records.NoWitnessNoSegwit | lib/src/blockchain/transactions.rs:29-31 | no inputs, or inputs without witnesses, give a legacy transaction |
| Records.AssignWitness | lib/src/blockchain/transactions.rs:55-57 | the witness becomes `Some(w)`; utxo, signature and sequence stay |
| TxGrammar.BytesAt | lib/src/blkparser/transaction.rs:133-138 | a read yields exactly `n` bytes and ends `n` bytes on, within the buffer; its only failure is the `ReadError` of an underrun |
| TxGrammar.U32At | lib/src/blkparser/transaction.rs:169-173 | a `u32` field occupies exactly four bytes |
| TxGrammar.U64At | lib/src/blkparser/transaction.rs:199-203 | a `u64` field occupies exactly eight bytes |
| TxGrammar.TxidAt | lib/src/blkparser/transaction.rs:175-179 | a txid occupies exactly 32 bytes |
| TxGrammar.VarIntTxAt | lib/src/blkparser/transaction.rs:151-154 | a compact-size integer consumes at least one byte, within the buffer; its only failure is the `ReadError` of an underrun |
| TxGrammar.VarIntMarkerTxAt | lib/src/blkparser/transaction.rs:164-167 | the follow-up bytes of an already read marker stay within the buffer |
| TxGrammar.ScriptAt | lib/src/blkparser/transaction.rs:187-191 | a script is its length, then exactly that many bytes |
| TxGrammar.UtxoAt | lib/src/blkparser/transaction.rs:65-70 | an outpoint occupies exactly 36 bytes |
| TxGrammar.InputAt | lib/src/blkparser/transaction.rs:64-73 | an input consumes bytes and is built without a witness |
| TxGrammar.InputsAt | lib/src/blkparser/transaction.rs:62-76 | exactly `n` inputs, none with a witness, in the bytes' order; every failure is the `ReadError` of an underrun |
| TxGrammar.OutputAt | lib/src/blkparser/transaction.rs:80-84 | an output consumes bytes within the buffer |
| TxGrammar.OutputsAt | lib/src/blkparser/transaction.rs:78-87 | exactly `n` outputs |
| TxGrammar.ItemAt | lib/src/blkparser/transaction.rs:106-108 | a witness item is as long as its declared length |
| TxGrammar.ItemsAt | lib/src/blkparser/transaction.rs:104-109 | exactly `n` items |
| TxGrammar.WitnessAt | lib/src/blkparser/transaction.rs:99-111 | a stack count of 0 gives `None`; otherwise `Some` with exactly that many items |
| TxGrammar.WitnessesAt | lib/src/blkparser/transaction.rs:89-97 | one witness per input in input order; each input is unchanged except for its witness; every failure is the `ReadError` of an underrun |
| TxGrammar.CountAt | lib/src/blkparser/transaction.rs:36-46 | marker 0 with a flag other than 1 is `FlagError(flag)`; marker 0 hashes the count bytes after the flag; any other marker hashes only the marker |
| TxGrammar.MarkerCountAt | lib/src/blkparser/transaction.rs:35-46 | the framing is segregated-witness exactly when the marker byte is 0 |
| TxGrammar.BodyAt | lib/src/blkparser/transaction.rs:47-49 | exactly `txin` inputs and exactly as many outputs as the output count says |
| TxGrammar.HeadAt | lib/src/blkparser/transaction.rs:34-46 | after the 4-byte version, the fifth byte decides the framing; a failure is a flag error only for marker 0 followed by a flag other than 1, otherwise the `ReadError` of an underrun |
| TxGrammar.RestAt | lib/src/blkparser/transaction.rs:47-53 | the rest of a transaction has exactly `txin` inputs; every failure is the `ReadError` of an underrun |
| TxGrammar.TxAt | lib/src/blkparser/transaction.rs:31-60 | a parsed transaction consumes bytes within the buffer; a failure is the flag error of marker 0 followed by a flag other than 1, or else the `ReadError` of an underrun |
| TxParsing.TxParser.constructor | lib/src/blkparser/transaction.rs:122-127 | a parser over the cursor with an empty, fresh hash builder |
| TxParsing.TxParser.GenerateTxHash | lib/src/blkparser/transaction.rs:129-131 | the hash of the builder's contents |
| TxParsing.TxParser.ParseBytes | lib/src/blkparser/transaction.rs:133-138 | follows `BytesAt`; hashes nothing |
| TxParsing.TxParser.ParseBytesHash | lib/src/blkparser/transaction.rs:140-149 | follows `BytesAt`; hashes the bytes exactly when the predicate accepts them |
| TxParsing.TxParser.ParseVarInt | lib/src/blkparser/transaction.rs:151-154 | follows `VarIntTxAt`; hashes nothing |
| TxParsing.TxParser.ParseVarIntHash | lib/src/blkparser/transaction.rs:156-162 | follows `VarIntTxAt`; hashes exactly the bytes consumed |
| TxParsing.TxParser.ParseVarIntMarker | lib/src/blkparser/transaction.rs:164-167 | follows `VarIntMarkerTxAt`; hashes nothing |
| TxParsing.TxParser.ParseVersion | lib/src/blkparser/transaction.rs:169-173 | follows `U32At`; hashes the four bytes |
| TxParsing.TxParser.ParseTxid | lib/src/blkparser/transaction.rs:175-179 | follows `TxidAt`; hashes the 32 bytes |
| TxParsing.TxParser.ParseVout | lib/src/blkparser/transaction.rs:181-185 | follows `U32At`; hashes the four bytes |
| TxParsing.TxParser.ParseScript | lib/src/blkparser/transaction.rs:187-191 | follows `ScriptAt`; hashes the length and the script |
| TxParsing.TxParser.ParseSequence | lib/src/blkparser/transaction.rs:193-197 | follows `U32At`; hashes the four bytes |
| TxParsing.TxParser.ParseOutValue | lib/src/blkparser/transaction.rs:199-203 | follows `U64At`; hashes the eight bytes |
| TxParsing.TxParser.ParseLocktime | lib/src/blkparser/transaction.rs:205-209 | follows `U32At`; hashes the four bytes |
| TxParsing.ReadUtxo | lib/src/blkparser/transaction.rs:65-70 | follows `UtxoAt`; hashes the bytes consumed |
| TxParsing.ReadInput | lib/src/blkparser/transaction.rs:64-73 | follows `InputAt`; hashes the bytes consumed |
| TxParsing.ReadInputs | lib/src/blkparser/transaction.rs:62-76 | the loop follows `InputsAt`; hashes exactly the bytes consumed |
| TxParsing.ReadOutput | lib/src/blkparser/transaction.rs:80-84 | follows `OutputAt`; hashes the bytes consumed |
| TxParsing.ReadOutputs | lib/src/blkparser/transaction.rs:78-87 | the loop follows `OutputsAt`; hashes exactly the bytes consumed |
| TxParsing.ReadItem | lib/src/blkparser/transaction.rs:106-108 | one witness item read as the first of `ItemsAt`, the rest following from the new position |
| TxParsing.ReadWitness | lib/src/blkparser/transaction.rs:99-111 | follows `WitnessAt`; hashes nothing |
| TxParsing.ReadWitnesses | lib/src/blkparser/transaction.rs:89-97 | updates the input array in place to what `WitnessesAt` gives, or fails with its error; hashes nothing |
| TxParsing.ReadTxin | lib/src/blkparser/transaction.rs:35-46 | agrees with `MarkerCountAt` on framing, count, hashed bytes and error |
| TxParsing.ReadBody | lib/src/blkparser/transaction.rs:47-49 | follows `BodyAt`; hashes exactly the bytes consumed |
| TxParsing.ReadSegwitWitnesses | lib/src/blkparser/transaction.rs:50-52 | reads witnesses only in the segregated-witness framing |
| TxParsing.ReadHead | lib/src/blkparser/transaction.rs:34-46 | agrees with `HeadAt`; hashes exactly the opening's hashed bytes |
| TxParsing.ReadRest | lib/src/blkparser/transaction.rs:47-53 | agrees with `RestAt`; hashes exactly the rest's hashed bytes |
| TxParsing.ReadTransaction | lib/src/blkparser/transaction.rs:31-60 | follows `TxAt` |
| TxParsing.FromRawData | lib/src/blkparser/transaction.rs:31-60 | follows `TxAt` from the cursor's position |
| TxWire.BaresOfBare | lib/src/blkparser/transaction.rs:62-76 | inputs without witnesses are their own bare form |
| TxWire.CountRoundTrip | lib/src/blkparser/transaction.rs:151-154 | a written count reads back with the parser's error type |
| TxWire.U32RoundTrip | lib/src/blkparser/transaction.rs:169-173 | a written `u32` reads back in four bytes |
| TxWire.U64RoundTrip | lib/src/blkparser/transaction.rs:199-203 | a written `u64` reads back in eight bytes |
| TxWire.TxidRoundTrip | lib/src/blkparser/transaction.rs:175-179 | a written txid reads back in 32 bytes |
| TxWire.InputRoundTrip | lib/src/blkparser/transaction.rs:64-73 | a written input reads back without its witness |
| TxWire.OutputRoundTrip | lib/src/blkparser/transaction.rs:80-84 | a written output reads back |
| TxWire.StackRoundTrip | lib/src/blkparser/transaction.rs:99-111 | a written non-empty witness stack reads back as that witness |
| TxWire.NoWitnessRoundTrip | lib/src/blkparser/transaction.rs:99-103 | a written empty stack reads back as no witness |
| TxWire.HeadRoundTrip | lib/src/blkparser/transaction.rs:34-46 | a written opening reads back: version, framing, input count, and the version and count bytes hashed as `read_txin` hashes them |
| TxWire.RestRoundTrip | lib/src/blkparser/transaction.rs:47-53 | a written rest reads back: output count, inputs with their witnesses, outputs, locktime, and the body and locktime bytes hashed |
| TxWire.ScriptRoundTrip | lib/src/blkparser/transaction.rs:187-191 | a written script reads back with its length |
| TxWire.UtxoRoundTrip | lib/src/blkparser/transaction.rs:65-70 | a written outpoint reads back in 36 bytes |
| TxWire.InputsRoundTrip | lib/src/blkparser/transaction.rs:62-76 | written inputs read back without their witnesses, consuming exactly their bytes |
| TxWire.OutputsRoundTrip | lib/src/blkparser/transaction.rs:78-87 | written outputs read back, consuming exactly their bytes |
| TxWire.ItemsRoundTrip | lib/src/blkparser/transaction.rs:104-109 | written witness items read back |
| TxWire.WitnessRoundTrip | lib/src/blkparser/transaction.rs:99-111 | a written witness, or its absence, reads back |
| TxWire.WitnessesRoundTrip | lib/src/blkparser/transaction.rs:89-97 | written witnesses, put on the bare inputs, give the inputs back |
| TxWire.SegwitCountRoundTrip | lib/src/blkparser/transaction.rs:38-43 | marker, flag and count read back as the segregated-witness framing, hashing the count |
| TxWire.LegacyCountRoundTrip | lib/src/blkparser/transaction.rs:44-46 | a nonzero legacy count reads back but hashes only its first byte |
| TxWire.BodyRoundTrip | lib/src/blkparser/transaction.rs:47-49 | written inputs, output count and outputs read back |
| TxWire.TxRoundTrip | lib/src/blkparser/transaction.rs:31-60 | every well-formed transaction reads back from its serialisation, with its counts and the hash of its hashed bytes, consuming exactly its bytes |
| TxWire.TxWireIsStandard | lib/src/blkparser/transaction.rs:35-53 | the serialisation read is the segregated-witness one when the transaction has a witness, the legacy one otherwise |
| TxWire.HashedIsLegacy | lib/src/blkparser/transaction.rs:35-46 | the hashed bytes equal the legacy serialisation exactly when the framing is segregated-witness or there are fewer than `0xfd` inputs |
| TxWire.InputsWireIgnoresWitness | lib/src/blkparser/transaction.rs:89-111 | witnesses add nothing to the hashed input bytes |
| TxWire.BadFlagRejected | lib/src/blkparser/transaction.rs:35-42 | marker 0 followed by a flag other than 1 fails with `FlagError` of that flag |
| TxWire.TxAtFailure | lib/src/blkparser/transaction.rs:31-60 | a transaction fails with a flag error exactly when marker 0 is followed by a flag other than 1, and with the `ReadError` of an underrun in every other case |
| Blocks.SizeAsU32 | lib/src/blkparser/block.rs:28 | the frame length cast to `u32` is the length itself when it fits |
| Blocks.HeaderAtLayout | lib/src/blkparser/block.rs:61-83 | with 80 bytes available the header is the fixed layout: version 0-4, previous 4-36, root 36-68, time 68-72, bits 72-76, nonce 76-80, hashes unreversed |
| Blocks.HeaderAtShort | lib/src/blkparser/block.rs:62-75 | with fewer than 80 bytes the failure is the kind of the first field cut short |
| Blocks.HeaderAtOkIff | lib/src/blkparser/block.rs:61-83 | the header reads exactly when 80 bytes are available |
| Blocks.HeaderRoundTrip | lib/src/blkparser/block.rs:61-97 | a written header reads back in 80 bytes |
| Blocks.TxsAt | lib/src/blkparser/block.rs:46-49 | exactly `n` transactions; a failure is of kind `TransactionError` |
| Blocks.TxsAtElements | lib/src/blkparser/block.rs:46-49 | the first transaction of a list is the one read at its start |
| Blocks.BlockTxsAt | lib/src/blkparser/block.rs:43-51 | exactly as many transactions as the count says; a bad count is a `ReadError`, a bad transaction a `TransactionError` |
| Blocks.BlockAtOk | lib/src/blkparser/block.rs:27-41 | a decoded block has the frame's length as size, the hash of the first 80 bytes, the fixed-layout header and as many transactions as the count after the header |
| Blocks.BlockAtNoHeaderError | lib/src/blkparser/block.rs:29-33 | block decoding never fails with a header error, because the header cursor always holds 80 bytes |
| Blocks.BlockAtShortFrame | lib/src/blkparser/block.rs:29-31 | a frame shorter than 80 bytes fails with a block `ReadError` |
| Blocks.BlockAtTxFailure | lib/src/blkparser/block.rs:43-51 | past the header, a bad count fails as a read error and a bad transaction as a transaction error |
| Blocks.ReadHashField | lib/src/blkparser/block.rs:85-97 | follows `HashFieldAt` |
| Blocks.BuildHash | lib/src/blkparser/block.rs:85-90 | follows `HashFieldAt` with kind `HashError` |
| Blocks.BuildMerkleRoot | lib/src/blkparser/block.rs:92-97 | follows `HashFieldAt` with kind `RootError` |
| Blocks.BuildHashArray | lib/src/blkparser/block.rs:99-107 | the array is the first 32 bytes of the slice |
| Blocks.BuildHeader | lib/src/blkparser/block.rs:61-83 | follows `HeaderAt` |
| Blocks.ReadTransactions | lib/src/blkparser/block.rs:43-51 | the loop follows `BlockTxsAt` |
| Blocks.FromRawData | lib/src/blkparser/block.rs:27-41 | the result is `BlockAt` of the cursor's bytes from its position |
| BlockWire.SerialsContents | lib/src/blkparser/transaction.rs:54-59 | every decoded transaction carries the transaction it came from |
| BlockWire.TxsRoundTrip | lib/src/blkparser/block.rs:46-49 | written transactions read back in order |
| BlockWire.BlockRoundTrip | lib/src/blkparser/block.rs:27-51 | a written block reads back: header, transactions, the hash of the header bytes and the frame length |
| Framer.FrameAt | lib/src/blkparser/mod.rs:65-88 | a yielded frame is followed by the next delimiter 8 + size bytes on, within the buffer |
| Framer.MagicIff | lib/src/blkparser/mod.rs:66-69 | four bytes are the magic exactly when they are `f9 be b4 d9` |
| Framer.FrameAtWire | lib/src/blkparser/mod.rs:66-74 | a yielded frame lies in the file as magic, little-endian size and frame bytes |
| Framer.WireFrameAt | lib/src/blkparser/mod.rs:66-74 | magic, size and bytes in the file are yielded as that frame |
| Framer.FrameAtOkIff | lib/src/blkparser/mod.rs:66-74 | both directions of the two above |
| Framer.FrameAtStops | lib/src/blkparser/mod.rs:75-86 | iteration ends quietly exactly when fewer than four bytes remain or they are not the magic |
| Framer.FrameAtErrIff | lib/src/blkparser/mod.rs:70-74 | iteration fails exactly when a magic stands there but the size or the frame is cut short |
| Framer.FramesTile | lib/src/blkparser/mod.rs:62-88 | the frames found lie back to back from the start, in order, without overlap, and a quiet end follows the last |
| Framer.FramesRoundTrip | lib/src/blkparser/mod.rs:62-88 | frames laid back to back before a quiet end are found again, in order |
| Framer.FramesFailure | lib/src/blkparser/mod.rs:70-74 | a framing failure is a frame cut short, after frames that lie back to back |
| Framer.QuietEnd | lib/src/blkparser/mod.rs:75-86 | an empty buffer, or one without the magic, gives no frames and no blocks |
| Framer.ParseFrames | lib/src/blkparser/mod.rs:44-49 | the parse decodes exactly the frames the iterator finds, in order |
| Framer.ParseFramingFailure | lib/src/blkparser/mod.rs:44-49 | a framing failure fails the parse with that failure, unless an earlier frame fails to decode |
| Framer.DecodeAllOk | lib/src/blkparser/mod.rs:44-49 | decoding succeeds exactly when every frame decodes, and then gives each frame's block in order |
| Framer.DecodeAllErr | lib/src/blkparser/mod.rs:44-49 | a failed decode carries the block error of the first frame that fails |
| Framer.BlockIterator.constructor | lib/src/blkparser/mod.rs:57-59 | the iterator holds the given cursor, and is valid when the cursor is |
| Framer.BlockIterator.Next | lib/src/blkparser/mod.rs:65-88 | yields what `FrameAt` gives: `None` at a quiet end, with the file cursor 4 bytes on or at the end; the failure where a frame is cut short, with the file cursor 8 bytes on or at the end; or a fresh cursor over exactly the frame's bytes at position 0, with the file cursor past the frame |
| Framer.ReadRawBlocks | lib/src/blkparser/mod.rs:31-33 | an iterator over a fresh cursor at the start of the bytes |
| Framer.Parse | lib/src/blkparser/mod.rs:44-49 | the loop over the iterator gives `ParseFrom` of the whole buffer |
| FileWire.FileRoundTrip | lib/src/blkparser/mod.rs:44-49 | a file of framed blocks parses to those blocks, in order, each with its header hash, frame size and transactions |

## Left out

- SHA-256 is a function parameter (`sha`) returning 32 bytes, never interpreted. Only which bytes are fed, in what order, and the final reversal are modelled.
- Reading the file (`read_file_contents`, `BlockChain` collection, `File`), the CLI and driver, and JSON/serde/hex output are not part of this model. `Parse` starts from the bytes in memory.
- The `Parser` and `ParallelParser` traits (`lib/src/parser.rs:15-22`) are not modelled. The `parse` implementation does not type-check against them: it returns a bare `BlockChain` from an iterator of `Result`s. The model follows the trait's `Result<_, ParseError>` shape and collects fail-fast. An I/O failure converts through `From<io::Error>`, a block failure through `From<BlockError>`, and the first failure wins.
- Panics are not modelled as panics. `read_bytes` slicing past the end, the `expect` on the frame size and `array_ref!` would abort the process. Here each is an `UnexpectedEof` failure, which the callers already treat reads as (`map_err` on `read_bytes` and `read_var_int`). A read that fails leaves the position unchanged, except `read_exact`, which consumes the rest of the buffer as `std`'s does.
- `assert_eq!(err.kind(), UnexpectedEof)` in `next` always holds in the model, because `UnexpectedEof` is the only I/O error.
- A wrong magic ends iteration silently, as the code does.
- `Cursor::position`, used by `parse_var_int_hash` but not defined in `cursor.rs`, is the cursor's `position` field.
- Positions and sizes are unbounded naturals. `usize`/`u64` overflow of a position cannot happen for buffers that fit in memory.
- Blocks.SizeAsU32: the model states the `as u32` truncation only for frames below 2^32 bytes. Above that it keeps the value modulo 2^32 without a lemma, because the framer's size field cannot state such frames.
- Blocks.FromRawData: the conversion of a header error into a block error is never reached. `BlockAtNoHeaderError` proves it, so the method has no such branch.
- Witness.Count and Cursors.Cursor.GetRef are plain accessors with no contract of their own. GetRef returns the whole buffer (`data` is a `const`, so no read changes it); `Size` is stated in terms of it.
- `Input::new`, `Utxo::new`, `Output::new`, `Witness::new`, `BitcoinHash::new`, `VarInt::new`, `MiningInfo::new`, `BlockHeader::new` and `Block::new` are datatype constructors. They store their arguments verbatim by construction.
- `BLOCK_FILE_SIZE` only sizes the read buffer and is not modelled.
- The quirk in the legacy framing is carried as written. A legacy transaction with `0xfd` or more inputs hashes only the first byte of its input count; `TxWire.HashedIsLegacy` characterises exactly when the hashed bytes differ from the legacy serialisation.
