/**
 * The transaction parser: a `TxParser` threads one cursor and one hash
 * accumulator through every field read, and the `SerialTransaction`
 * functions drive it. Each method is proved to do what the grammar in
 * `TxGrammar` says: same value or same error, the cursor just after what was
 * read, and the accumulator extended by exactly the bytes that belong to the
 * legacy serialisation.
 */
module TxParsing {
  import opened Wrappers
  import opened Bytes
  import opened Errors
  import opened Cursors
  import opened Hashing
  import opened VarInts
  import opened Records
  import opened TxGrammar

  class TxParser {
    const hasher: HashBuilder
    const cursor: Cursor

    ghost predicate Valid()
      reads this, cursor
    {
      cursor.Valid()
    }

    /** `TxParser::new`: a fresh, empty accumulator over the borrowed cursor. */
    constructor (cursor: Cursor)
      requires cursor.Valid()
      ensures Valid() && this.cursor == cursor && fresh(hasher) && hasher.contents == []
    {
      this.cursor := cursor;
      hasher := new HashBuilder();
    }

    /** `generate_txhash`: the hash of everything accumulated. */
    method GenerateTxHash(sha: Sha256) returns (h: BitcoinHash)
      ensures h == HashHeader(sha, hasher.contents)
    {
      h := hasher.IntoHash(sha);
    }

    /** `parse_bytes`: reads, hashes nothing. */
    method ParseBytes(n: nat) returns (r: Result<seq<Byte>, TransactionError>)
      requires Valid()
      modifies cursor`position
      ensures Valid()
      ensures Follows(r, BytesAt(cursor.data, old(cursor.position), n), cursor.position)
    {
      var read := cursor.ReadBytes(n);
      r := read.MapErr(TxReadError);
    }

    /** `parse_bytes_hash`: reads, and hashes what was read when `hash` approves it. */
    method ParseBytesHash(n: nat, hash: seq<Byte> -> bool) returns (r: Result<seq<Byte>, TransactionError>)
      requires Valid()
      modifies cursor`position, hasher
      ensures Valid()
      ensures Follows(r, BytesAt(cursor.data, old(cursor.position), n), cursor.position)
      ensures r.Ok? ==> hasher.contents == old(hasher.contents) + (if hash(r.value) then r.value else [])
    {
      var bytes :- ParseBytes(n);
      if hash(bytes) {
        hasher.AddDigest(bytes);
      }
      return Ok(bytes);
    }

    /** `parse_var_int`: reads, hashes nothing. */
    method ParseVarInt() returns (r: Result<VarInt, TransactionError>)
      requires Valid()
      modifies cursor`position
      ensures Valid()
      ensures Follows(r, VarIntTxAt(cursor.data, old(cursor.position)), cursor.position)
    {
      var read := ReadVarInt(cursor);
      r := read.MapErr(TxReadError);
    }

    /** `parse_var_int_hash`: reads, and hashes every byte of the encoding. */
    method ParseVarIntHash() returns (r: Result<VarInt, TransactionError>)
      requires Valid()
      modifies cursor`position, hasher
      ensures Valid()
      ensures Follows(r, VarIntTxAt(cursor.data, old(cursor.position)), cursor.position)
      ensures r.Ok? ==> hasher.contents == old(hasher.contents) + cursor.data[old(cursor.position)..cursor.position]
    {
      var position := cursor.position;
      var bytes :- ParseVarInt();
      hasher.AddDigest(cursor.GetRef()[position..cursor.position]);
      return Ok(bytes);
    }

    /** `parse_var_int_marker`: reads what follows the marker, hashes nothing. */
    method ParseVarIntMarker(marker: Byte) returns (r: Result<VarInt, TransactionError>)
      requires Valid()
      modifies cursor`position
      ensures Valid()
      ensures Follows(r, VarIntMarkerTxAt(marker, cursor.data, old(cursor.position)), cursor.position)
    {
      var read := ReadVarIntMarker(marker, cursor);
      r := read.MapErr(TxReadError);
    }

    /** Reads a hashed four-byte little-endian field (`parse_version`,
        `parse_vout`, `parse_sequence` and `parse_locktime` all do this). */
    method ParseU32Hash() returns (r: Result<U32, TransactionError>)
      requires Valid()
      modifies cursor`position, hasher
      ensures Valid()
      ensures Follows(r, U32At(cursor.data, old(cursor.position)), cursor.position)
      ensures r.Ok? ==> hasher.contents == old(hasher.contents) + cursor.data[old(cursor.position)..cursor.position]
    {
      var bytes :- ParseBytes(4);
      hasher.AddDigest(bytes);
      return Ok(LeU32(bytes));
    }

    /** `parse_version`. */
    method ParseVersion() returns (r: Result<U32, TransactionError>)
      requires Valid()
      modifies cursor`position, hasher
      ensures Valid()
      ensures Follows(r, U32At(cursor.data, old(cursor.position)), cursor.position)
      ensures r.Ok? ==> hasher.contents == old(hasher.contents) + cursor.data[old(cursor.position)..cursor.position]
    {
      r := ParseU32Hash();
    }

    /** `parse_txid`: 32 hashed bytes, stored as read. */
    method ParseTxid() returns (r: Result<BitcoinHash, TransactionError>)
      requires Valid()
      modifies cursor`position, hasher
      ensures Valid()
      ensures Follows(r, TxidAt(cursor.data, old(cursor.position)), cursor.position)
      ensures r.Ok? ==> hasher.contents == old(hasher.contents) + cursor.data[old(cursor.position)..cursor.position]
    {
      var bytes :- ParseBytesHash(32, _ => true);
      return Ok(BitcoinHash(bytes));
    }

    /** `parse_vout`. */
    method ParseVout() returns (r: Result<U32, TransactionError>)
      requires Valid()
      modifies cursor`position, hasher
      ensures Valid()
      ensures Follows(r, U32At(cursor.data, old(cursor.position)), cursor.position)
      ensures r.Ok? ==> hasher.contents == old(hasher.contents) + cursor.data[old(cursor.position)..cursor.position]
    {
      r := ParseU32Hash();
    }

    /** `parse_script`: a hashed length and that many hashed bytes. */
    method ParseScript() returns (r: Result<(VarInt, seq<Byte>), TransactionError>)
      requires Valid()
      modifies cursor`position, hasher
      ensures Valid()
      ensures Follows(r, ScriptAt(cursor.data, old(cursor.position)), cursor.position)
      ensures r.Ok? ==> hasher.contents == old(hasher.contents) + cursor.data[old(cursor.position)..cursor.position]
    {
      var size :- ParseVarIntHash();
      ghost var mid := cursor.position;
      var script :- ParseBytesHash(size.value, _ => true);
      SliceJoin(cursor.data, old(cursor.position), mid, cursor.position);
      return Ok((size, script));
    }

    /** `parse_sequence`. */
    method ParseSequence() returns (r: Result<U32, TransactionError>)
      requires Valid()
      modifies cursor`position, hasher
      ensures Valid()
      ensures Follows(r, U32At(cursor.data, old(cursor.position)), cursor.position)
      ensures r.Ok? ==> hasher.contents == old(hasher.contents) + cursor.data[old(cursor.position)..cursor.position]
    {
      r := ParseU32Hash();
    }

    /** `parse_out_value`: eight hashed little-endian bytes. */
    method ParseOutValue() returns (r: Result<U64, TransactionError>)
      requires Valid()
      modifies cursor`position, hasher
      ensures Valid()
      ensures Follows(r, U64At(cursor.data, old(cursor.position)), cursor.position)
      ensures r.Ok? ==> hasher.contents == old(hasher.contents) + cursor.data[old(cursor.position)..cursor.position]
    {
      var bytes :- ParseBytes(8);
      hasher.AddDigest(bytes);
      return Ok(LeU64(bytes));
    }

    /** `parse_locktime`. */
    method ParseLocktime() returns (r: Result<U32, TransactionError>)
      requires Valid()
      modifies cursor`position, hasher
      ensures Valid()
      ensures Follows(r, U32At(cursor.data, old(cursor.position)), cursor.position)
      ensures r.Ok? ==> hasher.contents == old(hasher.contents) + cursor.data[old(cursor.position)..cursor.position]
    {
      r := ParseU32Hash();
    }
  }

  /** The body of the `read_inputs` loop: one input, hashed in full, as the
      first step of reading `n` of them. */
  method ReadInputStep(parser: TxParser, ghost n: nat) returns (r: Result<Input, TransactionError>)
    requires parser.Valid() && n > 0
    modifies parser.cursor`position, parser.hasher
    ensures parser.Valid()
    ensures r.Err? ==> InputsAt(parser.cursor.data, old(parser.cursor.position), n) == Err(r.error)
    ensures (r.Ok? ==> (old(parser.cursor.position) < parser.cursor.position &&
      InputsAt(parser.cursor.data, old(parser.cursor.position), n)
      == PrependAll([r.value], InputsAt(parser.cursor.data, parser.cursor.position, n - 1))))
    ensures r.Ok? ==> (parser.hasher.contents
      == old(parser.hasher.contents) + parser.cursor.data[old(parser.cursor.position)..parser.cursor.position])
  {
    InputsUnfold(parser.cursor.data, parser.cursor.position, n);
    r := ReadInput(parser);
  }

  /** One input, hashed in full. */
  method ReadInput(parser: TxParser) returns (r: Result<Input, TransactionError>)
    requires parser.Valid()
    modifies parser.cursor`position, parser.hasher
    ensures parser.Valid()
    ensures Follows(r, InputAt(parser.cursor.data, old(parser.cursor.position)), parser.cursor.position)
    ensures r.Ok? ==> (parser.hasher.contents
      == old(parser.hasher.contents) + parser.cursor.data[old(parser.cursor.position)..parser.cursor.position])
  {
    ghost var s, p0 := parser.cursor.data, parser.cursor.position;
    var utxo :- ReadUtxo(parser);
    ghost var p1 := parser.cursor.position;
    var script :- parser.ParseScript();
    ghost var p2 := parser.cursor.position;
    var sequence :- parser.ParseSequence();
    SliceJoin(s, p0, p1, p2);
    SliceJoin(s, p0, p2, parser.cursor.position);
    var script' := Script(script.1);
    return Ok(Input(utxo, script', sequence, None));
  }

  /** The outpoint of an input, hashed in full. */
  method ReadUtxo(parser: TxParser) returns (r: Result<Utxo, TransactionError>)
    requires parser.Valid()
    modifies parser.cursor`position, parser.hasher
    ensures parser.Valid()
    ensures Follows(r, UtxoAt(parser.cursor.data, old(parser.cursor.position)), parser.cursor.position)
    ensures r.Ok? ==> (parser.hasher.contents
      == old(parser.hasher.contents) + parser.cursor.data[old(parser.cursor.position)..parser.cursor.position])
  {
    ghost var s, p0 := parser.cursor.data, parser.cursor.position;
    var txid :- parser.ParseTxid();
    ghost var p1 := parser.cursor.position;
    var vout :- parser.ParseVout();
    SliceJoin(s, p0, p1, parser.cursor.position);
    return Ok(Utxo(txid, vout));
  }

  /** `read_inputs`: `amount` inputs, each hashed in full. */
  method ReadInputs(amount: U64, parser: TxParser) returns (r: Result<seq<Input>, TransactionError>)
    requires parser.Valid()
    modifies parser.cursor`position, parser.hasher
    ensures parser.Valid()
    ensures Follows(r, InputsAt(parser.cursor.data, old(parser.cursor.position), amount), parser.cursor.position)
    ensures r.Ok? ==> (parser.hasher.contents
      == old(parser.hasher.contents) + parser.cursor.data[old(parser.cursor.position)..parser.cursor.position])
  {
    ghost var s, start := parser.cursor.data, parser.cursor.position;
    var inputs := [];
    var i := 0;
    PrependNothing(InputsAt(s, start, amount));
    while i < amount
      invariant parser.Valid() && i <= amount && start <= parser.cursor.position
      invariant InputsAt(s, start, amount) == PrependAll(inputs, InputsAt(s, parser.cursor.position, amount - i))
      invariant parser.hasher.contents == old(parser.hasher.contents) + s[start..parser.cursor.position]
    {
      ghost var p := parser.cursor.position;
      var input :- ReadInputStep(parser, amount - i);
      SliceJoin(s, start, p, parser.cursor.position);
      PrependAllAssoc(inputs, [input], InputsAt(s, parser.cursor.position, amount - i - 1));
      inputs := inputs + [input];
      i := i + 1;
    }
    assert inputs + [] == inputs;
    return Ok(inputs);
  }

  /** The body of the `read_outputs` loop: one output, hashed in full, as the
      first step of reading `n` of them. */
  method ReadOutputStep(parser: TxParser, ghost n: nat) returns (r: Result<Output, TransactionError>)
    requires parser.Valid() && n > 0
    modifies parser.cursor`position, parser.hasher
    ensures parser.Valid()
    ensures r.Err? ==> OutputsAt(parser.cursor.data, old(parser.cursor.position), n) == Err(r.error)
    ensures (r.Ok? ==> (old(parser.cursor.position) < parser.cursor.position &&
      OutputsAt(parser.cursor.data, old(parser.cursor.position), n)
      == PrependAll([r.value], OutputsAt(parser.cursor.data, parser.cursor.position, n - 1))))
    ensures r.Ok? ==> (parser.hasher.contents
      == old(parser.hasher.contents) + parser.cursor.data[old(parser.cursor.position)..parser.cursor.position])
  {
    OutputsUnfold(parser.cursor.data, parser.cursor.position, n);
    r := ReadOutput(parser);
  }

  /** One output, hashed in full. */
  method ReadOutput(parser: TxParser) returns (r: Result<Output, TransactionError>)
    requires parser.Valid()
    modifies parser.cursor`position, parser.hasher
    ensures parser.Valid()
    ensures Follows(r, OutputAt(parser.cursor.data, old(parser.cursor.position)), parser.cursor.position)
    ensures r.Ok? ==> (parser.hasher.contents
      == old(parser.hasher.contents) + parser.cursor.data[old(parser.cursor.position)..parser.cursor.position])
  {
    ghost var s, p0 := parser.cursor.data, parser.cursor.position;
    var value :- parser.ParseOutValue();
    ghost var p1 := parser.cursor.position;
    var script :- parser.ParseScript();
    SliceJoin(s, p0, p1, parser.cursor.position);
    return Ok(Output(value, Script(script.1)));
  }

  /** `read_outputs`: `amount` outputs, each hashed in full. */
  method ReadOutputs(amount: U64, parser: TxParser) returns (r: Result<seq<Output>, TransactionError>)
    requires parser.Valid()
    modifies parser.cursor`position, parser.hasher
    ensures parser.Valid()
    ensures Follows(r, OutputsAt(parser.cursor.data, old(parser.cursor.position), amount), parser.cursor.position)
    ensures r.Ok? ==> (parser.hasher.contents
      == old(parser.hasher.contents) + parser.cursor.data[old(parser.cursor.position)..parser.cursor.position])
  {
    ghost var s, start := parser.cursor.data, parser.cursor.position;
    var outputs := [];
    var i := 0;
    PrependNothing(OutputsAt(s, start, amount));
    while i < amount
      invariant parser.Valid() && i <= amount && start <= parser.cursor.position
      invariant OutputsAt(s, start, amount) == PrependAll(outputs, OutputsAt(s, parser.cursor.position, amount - i))
      invariant parser.hasher.contents == old(parser.hasher.contents) + s[start..parser.cursor.position]
    {
      ghost var p := parser.cursor.position;
      var output :- ReadOutputStep(parser, amount - i);
      SliceJoin(s, start, p, parser.cursor.position);
      PrependAllAssoc(outputs, [output], OutputsAt(s, parser.cursor.position, amount - i - 1));
      outputs := outputs + [output];
      i := i + 1;
    }
    assert outputs + [] == outputs;
    return Ok(outputs);
  }

  /** The body of the `read_witness` loop: one length-prefixed item, not
      hashed, as the first step of reading `n` of them. */
  method ReadItem(parser: TxParser, ghost n: nat) returns (r: Result<seq<Byte>, TransactionError>)
    requires parser.Valid() && n > 0
    modifies parser.cursor`position
    ensures parser.Valid()
    ensures r.Err? ==> ItemsAt(parser.cursor.data, old(parser.cursor.position), n) == Err(r.error)
    ensures (r.Ok? ==> (old(parser.cursor.position) < parser.cursor.position &&
      ItemsAt(parser.cursor.data, old(parser.cursor.position), n)
      == PrependAll([r.value], ItemsAt(parser.cursor.data, parser.cursor.position, n - 1))))
  {
    ItemsUnfold(parser.cursor.data, parser.cursor.position, n);
    var itemLength :- parser.ParseVarInt();
    r := parser.ParseBytes(itemLength.value);
  }

  /** `read_witness`: a stack count, then that many length-prefixed items;
      nothing is hashed. */
  method ReadWitness(parser: TxParser) returns (r: Result<Option<Witness>, TransactionError>)
    requires parser.Valid()
    modifies parser.cursor`position
    ensures parser.Valid()
    ensures Follows(r, WitnessAt(parser.cursor.data, old(parser.cursor.position)), parser.cursor.position)
  {
    ghost var s := parser.cursor.data;
    var witnessStackSize :- parser.ParseVarInt();
    if witnessStackSize.value == 0 {
      return Ok(None);
    }
    ghost var start := parser.cursor.position;
    var items := [];
    var i := 0;
    PrependNothing(ItemsAt(s, start, witnessStackSize.value));
    while i < witnessStackSize.value
      invariant parser.Valid() && i <= witnessStackSize.value && start <= parser.cursor.position
      invariant ItemsAt(s, start, witnessStackSize.value)
        == PrependAll(items, ItemsAt(s, parser.cursor.position, witnessStackSize.value - i))
    {
      var item :- ReadItem(parser, witnessStackSize.value - i);
      PrependAllAssoc(items, [item], ItemsAt(s, parser.cursor.position, witnessStackSize.value - i - 1));
      items := items + [item];
      i := i + 1;
    }
    assert items + [] == items;
    return Ok(Some(Witness(items)));
  }

  /** The body of the `read_witnesses` loop: the witness of the first of
      `inputs`, as the first step of reading one for each of them. */
  method ReadWitnessStep(parser: TxParser, ghost inputs: seq<Input>) returns (r: Result<Option<Witness>, TransactionError>)
    requires parser.Valid() && |inputs| > 0
    modifies parser.cursor`position
    ensures parser.Valid()
    ensures r.Err? ==> WitnessesAt(parser.cursor.data, old(parser.cursor.position), inputs) == Err(r.error)
    ensures (r.Ok? ==> (old(parser.cursor.position) <= parser.cursor.position &&
      WitnessesAt(parser.cursor.data, old(parser.cursor.position), inputs)
      == PrependAll([Attach(inputs[0], r.value)], WitnessesAt(parser.cursor.data, parser.cursor.position, inputs[1..]))))
  {
    WitnessesUnfold(parser.cursor.data, parser.cursor.position, inputs);
    r := ReadWitness(parser);
  }

  /** `read_witnesses`: reads one witness per input, in order, and assigns each
      one read to its input in place. */
  method ReadWitnesses(inputs: array<Input>, parser: TxParser) returns (r: Result<(), TransactionError>)
    requires parser.Valid()
    modifies inputs, parser.cursor`position
    ensures parser.Valid()
    ensures (r.Ok? <==> WitnessesAt(parser.cursor.data, old(parser.cursor.position), old(inputs[..])).Ok?)
    ensures (r.Ok? ==>
      WitnessesAt(parser.cursor.data, old(parser.cursor.position), old(inputs[..])) == Ok(Parsed(inputs[..], parser.cursor.position)))
    ensures (r.Err? ==>
      WitnessesAt(parser.cursor.data, old(parser.cursor.position), old(inputs[..])) == Err(r.error))
  {
    ghost var s, start, before := parser.cursor.data, parser.cursor.position, inputs[..];
    var i := 0;
    PrependNothing(WitnessesAt(s, start, before));
    while i < inputs.Length
      invariant parser.Valid() && i <= inputs.Length && start <= parser.cursor.position
      invariant inputs[i..] == before[i..]
      invariant WitnessesAt(s, start, before) == PrependAll(inputs[..i], WitnessesAt(s, parser.cursor.position, before[i..]))
    {
      assert before[i..][0] == before[i];
      assert before[i..][1..] == before[i + 1..];
      var stack :- ReadWitnessStep(parser, before[i..]);
      ghost var attached := Attach(before[i], stack);
      PrependAllAssoc(inputs[..i], [attached], WitnessesAt(s, parser.cursor.position, before[i + 1..]));
      if stack.Some? {
        inputs[i] := AssignWitness(inputs[i], stack.value);
      }
      assert inputs[..i + 1] == inputs[..i] + [attached];
      i := i + 1;
    }
    assert inputs[..] == inputs[..i] + [];
    return Ok(());
  }

  /** The opening of `from_raw_data` after the version: the marker byte
      (hashed unless it is 0x00), the flag byte when the marker announced
      segregated-witness framing, and the input count. Returns whether the
      framing is segregated-witness and the count. */
  method ReadTxin(parser: TxParser) returns (r: Result<(bool, VarInt), TransactionError>)
    requires parser.Valid()
    modifies parser.cursor`position, parser.hasher
    ensures parser.Valid()
    ensures (r.Ok? <==> MarkerCountAt(parser.cursor.data, old(parser.cursor.position)).Ok?)
    ensures (r.Err? ==> MarkerCountAt(parser.cursor.data, old(parser.cursor.position)) == Err(r.error))
    ensures (r.Ok? ==>
      var count := MarkerCountAt(parser.cursor.data, old(parser.cursor.position)).value;
      r.value == (count.segwit, count.txin) && parser.cursor.position == count.next
      && parser.hasher.contents == old(parser.hasher.contents) + count.hashed)
  {
    ghost var s := parser.cursor.data;
    var markerBytes :- parser.ParseBytesHash(1, bytes => |bytes| > 0 && bytes[0] != 0x00);
    var marker := markerBytes[0];
    var segwit := marker == 0x00;
    var txin;
    if segwit {
      var flagBytes :- parser.ParseBytes(1);
      var flag := flagBytes[0];
      if flag != 0x01 {
        return Err(FlagErrorOf(flag));
      }
      txin :- parser.ParseVarIntHash();
    } else {
      txin :- parser.ParseVarIntMarker(marker);
    }
    return Ok((segwit, txin));
  }

  /** The part of `from_raw_data` between the input count and the witnesses:
      the inputs, the output count and the outputs, all hashed. */
  method ReadBody(txin: U64, parser: TxParser) returns (r: Result<TxBody, TransactionError>)
    requires parser.Valid()
    modifies parser.cursor`position, parser.hasher
    ensures parser.Valid()
    ensures Follows(r, BodyAt(parser.cursor.data, old(parser.cursor.position), txin), parser.cursor.position)
    ensures r.Ok? ==> (parser.hasher.contents
      == old(parser.hasher.contents) + parser.cursor.data[old(parser.cursor.position)..parser.cursor.position])
  {
    ghost var s, p0 := parser.cursor.data, parser.cursor.position;
    var inputs :- ReadInputs(txin, parser);
    ghost var p1 := parser.cursor.position;
    var txout :- parser.ParseVarIntHash();
    ghost var p2 := parser.cursor.position;
    var outputs :- ReadOutputs(txout.value, parser);
    SliceJoin(s, p0, p1, p2);
    SliceJoin(s, p0, p2, parser.cursor.position);
    return Ok(TxBody(inputs, txout, outputs));
  }

  /** The witness part of `from_raw_data`: under segregated-witness framing
      the inputs are moved into an array and `read_witnesses` fills in their
      witnesses in place; otherwise nothing is read. */
  method ReadSegwitWitnesses(segwit: bool, inputs: seq<Input>, parser: TxParser) returns (r: Result<seq<Input>, TransactionError>)
    requires parser.Valid()
    modifies parser.cursor`position
    ensures parser.Valid()
    ensures (Follows(r, if segwit then WitnessesAt(parser.cursor.data, old(parser.cursor.position), inputs)
                        else Ok(Parsed(inputs, old(parser.cursor.position))), parser.cursor.position))
  {
    var arranged := new Input[|inputs|](i requires 0 <= i < |inputs| => inputs[i]);
    assert arranged[..] == inputs;
    if segwit {
      var witnessed :- ReadWitnesses(arranged, parser);
    }
    return Ok(arranged[..]);
  }

  /** The opening of `from_raw_data`: the version, then the framing and the
      input count. */
  method ReadHead(parser: TxParser) returns (r: Result<(U32, bool, VarInt), TransactionError>)
    requires parser.Valid()
    modifies parser.cursor`position, parser.hasher
    ensures parser.Valid()
    ensures (r.Ok? <==> HeadAt(parser.cursor.data, old(parser.cursor.position)).Ok?)
    ensures (r.Err? ==> HeadAt(parser.cursor.data, old(parser.cursor.position)) == Err(r.error))
    ensures (r.Ok? ==>
      var head := HeadAt(parser.cursor.data, old(parser.cursor.position)).value;
      r.value == (head.version, head.segwit, head.txin) && parser.cursor.position == head.next
      && parser.hasher.contents == old(parser.hasher.contents) + head.hashed)
  {
    ghost var s, p0, h0 := parser.cursor.data, parser.cursor.position, parser.hasher.contents;
    var version :- parser.ParseVersion();
    ghost var p1 := parser.cursor.position;
    var framing :- ReadTxin(parser);
    ghost var count := MarkerCountAt(s, p1).value;
    assert parser.hasher.contents == h0 + (s[p0..p1] + count.hashed);
    return Ok((version, framing.0, framing.1));
  }

  /** The rest of `from_raw_data` before the hash: inputs, outputs, the
      witnesses when `segwit`, and the locktime. */
  method ReadRest(segwit: bool, txin: U64, parser: TxParser) returns (r: Result<(VarInt, seq<Input>, seq<Output>, U32), TransactionError>)
    requires parser.Valid()
    modifies parser.cursor`position, parser.hasher
    ensures parser.Valid()
    ensures (r.Ok? <==> RestAt(parser.cursor.data, old(parser.cursor.position), segwit, txin).Ok?)
    ensures (r.Err? ==> RestAt(parser.cursor.data, old(parser.cursor.position), segwit, txin) == Err(r.error))
    ensures (r.Ok? ==>
      var rest := RestAt(parser.cursor.data, old(parser.cursor.position), segwit, txin).value;
      r.value == (rest.txout, rest.inputs, rest.outputs, rest.locktime) && parser.cursor.position == rest.next
      && parser.hasher.contents == old(parser.hasher.contents) + rest.hashed)
  {
    ghost var s, p0, h0 := parser.cursor.data, parser.cursor.position, parser.hasher.contents;
    var body :- ReadBody(txin, parser);
    ghost var p1 := parser.cursor.position;
    var inputs :- ReadSegwitWitnesses(segwit, body.inputs, parser);
    ghost var p2 := parser.cursor.position;
    var locktime :- parser.ParseLocktime();
    assert parser.hasher.contents == h0 + (s[p0..p1] + s[p2..parser.cursor.position]);
    return Ok((body.txout, inputs, body.outputs, locktime));
  }

  /** The body of `from_raw_data` once its parser exists. */
  method ReadTransaction(sha: Sha256, txparser: TxParser) returns (r: Result<SerialTransaction, TransactionError>)
    requires txparser.Valid() && txparser.hasher.contents == []
    modifies txparser.cursor`position, txparser.hasher
    ensures txparser.Valid()
    ensures Follows(r, TxAt(sha, txparser.cursor.data, old(txparser.cursor.position)), txparser.cursor.position)
  {
    ghost var s, p0 := txparser.cursor.data, txparser.cursor.position;
    var head := ReadHead(txparser);
    if head.Err? {
      TxAtHeadErr(sha, s, p0);
      return Err(head.error);
    }
    var (version, segwit, txin) := head.value;
    ghost var h := HeadAt(s, p0).value;
    assert txparser.hasher.contents == h.hashed;
    assert txparser.cursor.position == h.next && segwit == h.segwit && txin == h.txin;
    var rest := ReadRest(segwit, txin.value, txparser);
    if rest.Err? {
      TxAtRestErr(sha, s, p0);
      return Err(rest.error);
    }
    var (txout, inputs, outputs, locktime) := rest.value;
    ghost var t := RestAt(s, h.next, h.segwit, h.txin.value).value;
    assert txparser.hasher.contents == h.hashed + t.hashed;
    var hash := txparser.GenerateTxHash(sha);
    assert hash == HashHeader(sha, h.hashed + t.hashed);
    TxAtOk(sha, s, p0);
    assert txparser.cursor.position == t.next;
    return Ok(SerialTransaction(txin, txout, hash, NewTransaction(version, inputs, outputs, locktime)));
  }

  /** `SerialTransaction::from_raw_data`: reads one transaction at the cursor. */
  method FromRawData(sha: Sha256, cursor: Cursor) returns (r: Result<SerialTransaction, TransactionError>)
    requires cursor.Valid()
    modifies cursor`position
    ensures cursor.Valid()
    ensures Follows(r, TxAt(sha, cursor.data, old(cursor.position)), cursor.position)
  {
    var txparser := new TxParser(cursor);
    r := ReadTransaction(sha, txparser);
  }
}
