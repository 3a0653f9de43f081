/**
 * The transaction grammar, as pure functions over a buffer `s` and a start
 * position `p`: what the transaction parser reads at `p`, where it stops,
 * which error it reports, and which bytes it feeds to the hash accumulator.
 *
 * The accumulator receives the legacy serialisation: the version, the input
 * count, the inputs, the output count, the outputs and the locktime. The
 * segregated-witness marker and flag and every witness byte are left out. One
 * quirk is kept: when the first byte after the version is not the marker 0x00
 * it is the first byte of the input count, and only that byte is hashed, not
 * the 2, 4 or 8 bytes that may follow it.
 */
module TxGrammar {
  import opened Wrappers
  import opened Bytes
  import opened Errors
  import opened Hashing
  import opened VarInts
  import opened Records

  /** `SerialTransaction`: the counts as read, the hash of the accumulated bytes,
      and the transaction record. */
  datatype SerialTransaction = SerialTransaction(txin: VarInt, txout: VarInt, hash: BitcoinHash, contents: Transaction)

  /** A failure, if there is one, is the read error of a buffer that ends too
      soon: `parse_bytes` and `parse_var_int` are the only readers, and both
      map their `UnexpectedEof` to a `ReadError`. */
  predicate Underrun<T>(r: Result<T, TransactionError>)
  {
    r.Err? ==> r.error == TxReadError(UnexpectedEof)
  }

  /** `parse_bytes`: the next `n` bytes. */
  function BytesAt(s: seq<Byte>, p: nat, n: nat): (r: Result<Parsed<seq<Byte>>, TransactionError>)
    ensures r.Ok? ==> |r.value.value| == n && r.value.next == p + n <= |s|
    ensures Underrun(r)
  {
    if p + n <= |s| then Ok(Parsed(s[p..p + n], p + n)) else Err(TxReadError(UnexpectedEof))
  }

  /** A four-byte little-endian field: version, vout, sequence, locktime. */
  function U32At(s: seq<Byte>, p: nat): (r: Result<Parsed<U32>, TransactionError>)
    ensures r.Ok? ==> r.value.next == p + 4 <= |s|
    ensures Underrun(r)
  {
    var b :- BytesAt(s, p, 4);
    Ok(Parsed(LeU32(b.value), b.next))
  }

  /** The eight-byte little-endian output value. */
  function U64At(s: seq<Byte>, p: nat): (r: Result<Parsed<U64>, TransactionError>)
    ensures r.Ok? ==> r.value.next == p + 8 <= |s|
    ensures Underrun(r)
  {
    var b :- BytesAt(s, p, 8);
    Ok(Parsed(LeU64(b.value), b.next))
  }

  /** The 32-byte previous-transaction id, stored as read. */
  function TxidAt(s: seq<Byte>, p: nat): (r: Result<Parsed<BitcoinHash>, TransactionError>)
    ensures r.Ok? ==> r.value.next == p + 32 <= |s|
    ensures Underrun(r)
  {
    var b :- BytesAt(s, p, 32);
    Ok(Parsed(BitcoinHash(b.value), b.next))
  }

  /** `parse_var_int`. */
  function VarIntTxAt(s: seq<Byte>, p: nat): (r: Result<Parsed<VarInt>, TransactionError>)
    ensures r.Ok? ==> p < r.value.next <= |s|
    ensures Underrun(r)
  {
    VarIntAt(s, p).MapErr(TxReadError)
  }

  /** `parse_var_int_marker`. */
  function VarIntMarkerTxAt(marker: Byte, s: seq<Byte>, p: nat): (r: Result<Parsed<VarInt>, TransactionError>)
    ensures r.Ok? ==> p <= r.value.next <= |s|
    ensures Underrun(r)
  {
    VarIntMarkerAt(marker, s, p).MapErr(TxReadError)
  }

  /** `parse_script`: a length, then that many bytes. */
  function ScriptAt(s: seq<Byte>, p: nat): (r: Result<Parsed<(VarInt, seq<Byte>)>, TransactionError>)
    ensures r.Ok? ==> p < r.value.next <= |s| && |r.value.value.1| == r.value.value.0.value
    ensures Underrun(r)
  {
    var size :- VarIntTxAt(s, p);
    var bytes :- BytesAt(s, size.next, size.value.value);
    Ok(Parsed((size.value, bytes.value), bytes.next))
  }

  /** The outpoint an input spends: txid, then vout. */
  function UtxoAt(s: seq<Byte>, p: nat): (r: Result<Parsed<Utxo>, TransactionError>)
    ensures r.Ok? ==> r.value.next == p + 36 <= |s|
    ensures Underrun(r)
  {
    var txid :- TxidAt(s, p);
    var vout :- U32At(s, txid.next);
    Ok(Parsed(Utxo(txid.value, vout.value), vout.next))
  }

  /** One input: outpoint, script, sequence; never a witness yet. */
  function InputAt(s: seq<Byte>, p: nat): (r: Result<Parsed<Input>, TransactionError>)
    ensures r.Ok? ==> p < r.value.next <= |s| && r.value.value.witnessStack.None?
    ensures Underrun(r)
  {
    var utxo :- UtxoAt(s, p);
    var script :- ScriptAt(s, utxo.next);
    var sequence :- U32At(s, script.next);
    Ok(Parsed(Input(utxo.value, Script(script.value.1), sequence.value, None), sequence.next))
  }

  /** `read_inputs`: exactly `n` inputs in read order, the first failure
      aborting. Like every list below it is written as three mutually
      recursive functions (the count test, a hand-over, and the step that
      reads one element), so that the verifier's default unfolding of a
      recursive definition, which is two levels deep, stops short of the
      element grammar unless a proof asks for it. */
  function InputsAt(s: seq<Byte>, p: nat, n: nat): (r: Result<Parsed<seq<Input>>, TransactionError>)
    requires p <= |s|
    ensures r.Ok? ==> |r.value.value| == n && p <= r.value.next <= |s|
    ensures r.Ok? ==> forall i :: 0 <= i < n ==> r.value.value[i].witnessStack.None?
    decreases n, 2
    ensures Underrun(r)
  {
    if n == 0 then Ok(Parsed([], p)) else NonEmptyInputsAt(s, p, n)
  }

  /** At least one input is due. */
  function NonEmptyInputsAt(s: seq<Byte>, p: nat, n: nat): (r: Result<Parsed<seq<Input>>, TransactionError>)
    requires p <= |s| && n > 0
    ensures r.Ok? ==> |r.value.value| == n && p <= r.value.next <= |s|
    ensures r.Ok? ==> forall i :: 0 <= i < n ==> r.value.value[i].witnessStack.None?
    decreases n, 1
    ensures Underrun(r)
  {
    InputsStepAt(s, p, n)
  }

  /** The first of `n` inputs, then the other `n - 1`. */
  function InputsStepAt(s: seq<Byte>, p: nat, n: nat): (r: Result<Parsed<seq<Input>>, TransactionError>)
    requires p <= |s| && n > 0
    ensures r.Ok? ==> |r.value.value| == n && p <= r.value.next <= |s|
    ensures r.Ok? ==> forall i :: 0 <= i < n ==> r.value.value[i].witnessStack.None?
    decreases n, 0
    ensures Underrun(r)
  {
    var x :- InputAt(s, p);
    PrependAll([x.value], InputsAt(s, x.next, n - 1))
  }

  /** One step of `InputsAt`. */
  lemma InputsUnfold(s: seq<Byte>, p: nat, n: nat)
    requires p <= |s| && n > 0
    ensures InputAt(s, p).Err? ==> InputsAt(s, p, n) == Err(InputAt(s, p).error)
    ensures (InputAt(s, p).Ok? ==>
      InputsAt(s, p, n) == PrependAll([InputAt(s, p).value.value], InputsAt(s, InputAt(s, p).value.next, n - 1)))
  {
    assert InputsAt(s, p, n) == NonEmptyInputsAt(s, p, n) == InputsStepAt(s, p, n);
  }

  /** One output: value, script. */
  function OutputAt(s: seq<Byte>, p: nat): (r: Result<Parsed<Output>, TransactionError>)
    ensures r.Ok? ==> p < r.value.next <= |s|
    ensures Underrun(r)
  {
    var value :- U64At(s, p);
    var script :- ScriptAt(s, value.next);
    Ok(Parsed(Output(value.value, Script(script.value.1)), script.next))
  }

  /** `read_outputs`: exactly `n` outputs in read order. */
  function OutputsAt(s: seq<Byte>, p: nat, n: nat): (r: Result<Parsed<seq<Output>>, TransactionError>)
    requires p <= |s|
    ensures r.Ok? ==> |r.value.value| == n && p <= r.value.next <= |s|
    decreases n, 2
    ensures Underrun(r)
  {
    if n == 0 then Ok(Parsed([], p)) else NonEmptyOutputsAt(s, p, n)
  }

  /** At least one output is due. */
  function NonEmptyOutputsAt(s: seq<Byte>, p: nat, n: nat): (r: Result<Parsed<seq<Output>>, TransactionError>)
    requires p <= |s| && n > 0
    ensures r.Ok? ==> |r.value.value| == n && p <= r.value.next <= |s|
    decreases n, 1
    ensures Underrun(r)
  {
    OutputsStepAt(s, p, n)
  }

  /** The first of `n` outputs, then the other `n - 1`. */
  function OutputsStepAt(s: seq<Byte>, p: nat, n: nat): (r: Result<Parsed<seq<Output>>, TransactionError>)
    requires p <= |s| && n > 0
    ensures r.Ok? ==> |r.value.value| == n && p <= r.value.next <= |s|
    decreases n, 0
    ensures Underrun(r)
  {
    var x :- OutputAt(s, p);
    PrependAll([x.value], OutputsAt(s, x.next, n - 1))
  }

  /** One step of `OutputsAt`. */
  lemma OutputsUnfold(s: seq<Byte>, p: nat, n: nat)
    requires p <= |s| && n > 0
    ensures OutputAt(s, p).Err? ==> OutputsAt(s, p, n) == Err(OutputAt(s, p).error)
    ensures (OutputAt(s, p).Ok? ==>
      OutputsAt(s, p, n) == PrependAll([OutputAt(s, p).value.value], OutputsAt(s, OutputAt(s, p).value.next, n - 1)))
  {
    assert OutputsAt(s, p, n) == NonEmptyOutputsAt(s, p, n) == OutputsStepAt(s, p, n);
  }

  /** One witness item: a length, then that many bytes. */
  function ItemAt(s: seq<Byte>, p: nat): (r: Result<Parsed<seq<Byte>>, TransactionError>)
    ensures r.Ok? ==> VarIntAt(s, p).Ok? && |r.value.value| == VarIntAt(s, p).value.value.value
    ensures r.Ok? ==> p < r.value.next <= |s|
    ensures Underrun(r)
  {
    var size :- VarIntTxAt(s, p);
    BytesAt(s, size.next, size.value.value)
  }

  /** The `n` items of one witness stack. */
  function ItemsAt(s: seq<Byte>, p: nat, n: nat): (r: Result<Parsed<seq<seq<Byte>>>, TransactionError>)
    requires p <= |s|
    ensures r.Ok? ==> |r.value.value| == n && p <= r.value.next <= |s|
    decreases n, 2
    ensures Underrun(r)
  {
    if n == 0 then Ok(Parsed([], p)) else NonEmptyItemsAt(s, p, n)
  }

  /** At least one item is due. */
  function NonEmptyItemsAt(s: seq<Byte>, p: nat, n: nat): (r: Result<Parsed<seq<seq<Byte>>>, TransactionError>)
    requires p <= |s| && n > 0
    ensures r.Ok? ==> |r.value.value| == n && p <= r.value.next <= |s|
    decreases n, 1
    ensures Underrun(r)
  {
    ItemsStepAt(s, p, n)
  }

  /** The first of `n` items, then the other `n - 1`. */
  function ItemsStepAt(s: seq<Byte>, p: nat, n: nat): (r: Result<Parsed<seq<seq<Byte>>>, TransactionError>)
    requires p <= |s| && n > 0
    ensures r.Ok? ==> |r.value.value| == n && p <= r.value.next <= |s|
    decreases n, 0
    ensures Underrun(r)
  {
    var item :- ItemAt(s, p);
    PrependAll([item.value], ItemsAt(s, item.next, n - 1))
  }

  /** One step of `ItemsAt`. */
  lemma ItemsUnfold(s: seq<Byte>, p: nat, n: nat)
    requires p <= |s| && n > 0
    ensures ItemAt(s, p).Err? ==> ItemsAt(s, p, n) == Err(ItemAt(s, p).error)
    ensures (ItemAt(s, p).Ok? ==>
      ItemsAt(s, p, n) == PrependAll([ItemAt(s, p).value.value], ItemsAt(s, ItemAt(s, p).value.next, n - 1)))
  {
    assert ItemsAt(s, p, n) == NonEmptyItemsAt(s, p, n) == ItemsStepAt(s, p, n);
  }

  /** `read_witness`: a stack count of 0 gives no witness at all; otherwise a
      witness with exactly that many items. */
  function WitnessAt(s: seq<Byte>, p: nat): (r: Result<Parsed<Option<Witness>>, TransactionError>)
    ensures r.Ok? ==> VarIntAt(s, p).Ok? && p < r.value.next <= |s|
    ensures r.Ok? ==> (r.value.value.None? <==> VarIntAt(s, p).value.value.value == 0)
    ensures r.Ok? && r.value.value.Some? ==> r.value.value.value.Count() == VarIntAt(s, p).value.value.value
    ensures Underrun(r)
  {
    var count :- VarIntTxAt(s, p);
    if count.value.value == 0 then Ok(Parsed(None, count.next))
    else
      var items :- ItemsAt(s, count.next, count.value.value);
      Ok(Parsed(Some(Witness(items.value)), items.next))
  }

  /** What `read_witnesses` does to one input with the witness it read. */
  function Attach(input: Input, w: Option<Witness>): Input
  {
    if w.Some? then AssignWitness(input, w.value) else input
  }

  /** `a` is `b` with at most its witness changed. */
  predicate SameButWitness(a: Input, b: Input)
  {
    a.utxo == b.utxo && a.signature == b.signature && a.sequence == b.sequence
  }

  /** `read_witnesses`: one witness stack per input, in input order; the inputs
      keep everything but their witness. */
  function WitnessesAt(s: seq<Byte>, p: nat, inputs: seq<Input>): (r: Result<Parsed<seq<Input>>, TransactionError>)
    requires p <= |s|
    ensures r.Ok? ==> |r.value.value| == |inputs| && p <= r.value.next <= |s|
    ensures r.Ok? ==> forall i :: 0 <= i < |inputs| ==> SameButWitness(r.value.value[i], inputs[i])
    decreases |inputs|, 2
    ensures Underrun(r)
  {
    if |inputs| == 0 then Ok(Parsed([], p)) else NonEmptyWitnessesAt(s, p, inputs)
  }

  /** At least one witness is due. */
  function NonEmptyWitnessesAt(s: seq<Byte>, p: nat, inputs: seq<Input>): (r: Result<Parsed<seq<Input>>, TransactionError>)
    requires p <= |s| && |inputs| > 0
    ensures r.Ok? ==> |r.value.value| == |inputs| && p <= r.value.next <= |s|
    ensures r.Ok? ==> forall i :: 0 <= i < |inputs| ==> SameButWitness(r.value.value[i], inputs[i])
    decreases |inputs|, 1
    ensures Underrun(r)
  {
    WitnessesStepAt(s, p, inputs)
  }

  /** The witness of the first input, then those of the others. */
  function WitnessesStepAt(s: seq<Byte>, p: nat, inputs: seq<Input>): (r: Result<Parsed<seq<Input>>, TransactionError>)
    requires p <= |s| && |inputs| > 0
    ensures r.Ok? ==> |r.value.value| == |inputs| && p <= r.value.next <= |s|
    ensures r.Ok? ==> forall i :: 0 <= i < |inputs| ==> SameButWitness(r.value.value[i], inputs[i])
    decreases |inputs|, 0
    ensures Underrun(r)
  {
    var w :- WitnessAt(s, p);
    PrependAll([Attach(inputs[0], w.value)], WitnessesAt(s, w.next, inputs[1..]))
  }

  /** One step of `WitnessesAt`. */
  lemma WitnessesUnfold(s: seq<Byte>, p: nat, inputs: seq<Input>)
    requires p <= |s| && |inputs| > 0
    ensures WitnessAt(s, p).Err? ==> WitnessesAt(s, p, inputs) == Err(WitnessAt(s, p).error)
    ensures (WitnessAt(s, p).Ok? ==>
      WitnessesAt(s, p, inputs)
      == PrependAll([Attach(inputs[0], WitnessAt(s, p).value.value)], WitnessesAt(s, WitnessAt(s, p).value.next, inputs[1..])))
  {
    assert WitnessesAt(s, p, inputs) == NonEmptyWitnessesAt(s, p, inputs) == WitnessesStepAt(s, p, inputs);
  }

  /** The input count and how it was framed. */
  datatype CountScan = CountScan(segwit: bool, txin: VarInt, hashed: seq<Byte>, next: nat)

  /** After the first byte `marker` following the version (at `p - 1`): the
      marker 0x00 always means segregated-witness framing, whose flag byte
      must be 0x01 and is followed by the input count, all of which is hashed
      but the flag; any other marker is the first byte of the input count, and
      only it is hashed. */
  function CountAt(marker: Byte, s: seq<Byte>, p: nat): (r: Result<CountScan, TransactionError>)
    ensures marker == 0 && p < |s| && s[p] != 1 ==> r == Err(FlagErrorOf(s[p]))
    ensures r.Ok? ==> r.value.segwit == (marker == 0) && p <= r.value.next <= |s|
    ensures r.Ok? && marker == 0 ==> p < r.value.next && s[p] == 1 && r.value.hashed == s[p + 1..r.value.next]
    ensures r.Ok? && marker != 0 ==> r.value.hashed == [marker]
    ensures r.Err? ==> (r.error == TxReadError(UnexpectedEof)
      || (marker == 0 && p < |s| && s[p] != 1 && r.error == FlagErrorOf(s[p])))
  {
    if marker == 0 then
      var flag :- BytesAt(s, p, 1);
      if flag.value[0] != 1 then Err(FlagErrorOf(flag.value[0]))
      else
        var txin :- VarIntTxAt(s, flag.next);
        Ok(CountScan(true, txin.value, s[flag.next..txin.next], txin.next))
    else
      var txin :- VarIntMarkerTxAt(marker, s, p);
      Ok(CountScan(false, txin.value, [marker], txin.next))
  }

  /** The byte after the version, then the input count it introduces. */
  function MarkerCountAt(s: seq<Byte>, p: nat): (r: Result<CountScan, TransactionError>)
    ensures r.Ok? ==> p < |s| && r.value.segwit == (s[p] == 0) && p < r.value.next <= |s|
    ensures r.Err? ==> (r.error == TxReadError(UnexpectedEof)
      || (p + 2 <= |s| && s[p] == 0 && s[p + 1] != 1 && r.error == FlagErrorOf(s[p + 1])))
  {
    var marker :- BytesAt(s, p, 1);
    CountAt(marker.value[0], s, marker.next)
  }

  /** What lies between the input count and the witnesses. */
  datatype TxBody = TxBody(inputs: seq<Input>, txout: VarInt, outputs: seq<Output>)

  /** `txin` inputs, the output count, then that many outputs; all of it is
      hashed. */
  function BodyAt(s: seq<Byte>, p: nat, txin: nat): (r: Result<Parsed<TxBody>, TransactionError>)
    requires p <= |s|
    ensures r.Ok? ==> p < r.value.next <= |s| && |r.value.value.inputs| == txin
    ensures r.Ok? ==> |r.value.value.outputs| == r.value.value.txout.value
    ensures Underrun(r)
  {
    var inputs :- InputsAt(s, p, txin);
    var txout :- VarIntTxAt(s, inputs.next);
    var outputs :- OutputsAt(s, txout.next, txout.value.value);
    Ok(Parsed(TxBody(inputs.value, txout.value, outputs.value), outputs.next))
  }

  /** The opening of a transaction up to its input count, with the bytes of
      it that are hashed. */
  datatype TxHead = TxHead(version: U32, segwit: bool, txin: VarInt, hashed: seq<Byte>, next: nat)

  /** The version, then the marker and the input count it introduces. */
  function HeadAt(s: seq<Byte>, p: nat): (r: Result<TxHead, TransactionError>)
    ensures r.Ok? ==> p + 4 < r.value.next <= |s| && r.value.segwit == (s[p + 4] == 0)
    ensures r.Err? ==> (r.error == TxReadError(UnexpectedEof)
      || (p + 6 <= |s| && s[p + 4] == 0 && s[p + 5] != 1 && r.error == FlagErrorOf(s[p + 5])))
  {
    var version :- U32At(s, p);
    var count :- MarkerCountAt(s, version.next);
    Ok(TxHead(version.value, count.segwit, count.txin, s[p..version.next] + count.hashed, count.next))
  }

  /** The rest of a transaction after its input count, with the bytes of it
      that are hashed. */
  datatype TxRest = TxRest(txout: VarInt, inputs: seq<Input>, outputs: seq<Output>, locktime: U32, hashed: seq<Byte>, next: nat)

  /** The inputs, the outputs, the witnesses when `segwit`, and the locktime;
      all of it is hashed but the witnesses. */
  function RestAt(s: seq<Byte>, p: nat, segwit: bool, txin: nat): (r: Result<TxRest, TransactionError>)
    requires p <= |s|
    ensures r.Ok? ==> p < r.value.next <= |s| && |r.value.inputs| == txin
    ensures Underrun(r)
  {
    var body :- BodyAt(s, p, txin);
    var witnessed :- if segwit then WitnessesAt(s, body.next, body.value.inputs)
                     else Ok(Parsed(body.value.inputs, body.next));
    var locktime :- U32At(s, witnessed.next);
    Ok(TxRest(body.value.txout, witnessed.value, body.value.outputs, locktime.value,
              s[p..body.next] + s[witnessed.next..locktime.next], locktime.next))
  }

  /** A decoded transaction with the bytes fed to its hash. */
  datatype TxScan = TxScan(txin: VarInt, txout: VarInt, tx: Transaction, hashed: seq<Byte>, next: nat)

  /** `from_raw_data` without the final hashing. */
  function ScanTx(s: seq<Byte>, p: nat): (r: Result<TxScan, TransactionError>)
    ensures r.Ok? ==> p < r.value.next <= |s|
    ensures r.Err? ==> (r.error == TxReadError(UnexpectedEof)
      || (p + 6 <= |s| && s[p + 4] == 0 && s[p + 5] != 1 && r.error == FlagErrorOf(s[p + 5])))
  {
    var head :- HeadAt(s, p);
    var rest :- RestAt(s, head.next, head.segwit, head.txin.value);
    Ok(TxScan(head.txin, rest.txout, NewTransaction(head.version, rest.inputs, rest.outputs, rest.locktime),
              head.hashed + rest.hashed, rest.next))
  }

  /** `SerialTransaction::from_raw_data`: the transaction at `p`, its hash taken
      over exactly the accumulated bytes. */
  function TxAt(sha: Sha256, s: seq<Byte>, p: nat): (r: Result<Parsed<SerialTransaction>, TransactionError>)
    ensures r.Ok? ==> p < r.value.next <= |s|
    ensures r.Err? ==> (r.error == TxReadError(UnexpectedEof)
      || (p + 6 <= |s| && s[p + 4] == 0 && s[p + 5] != 1 && r.error == FlagErrorOf(s[p + 5])))
  {
    var scan :- ScanTx(s, p);
    Ok(Parsed(SerialTransaction(scan.txin, scan.txout, HashHeader(sha, scan.hashed), scan.tx), scan.next))
  }

  /** `TxAt` in terms of its two halves, when both succeed. */
  lemma TxAtOk(sha: Sha256, s: seq<Byte>, p: nat)
    requires HeadAt(s, p).Ok?
    requires RestAt(s, HeadAt(s, p).value.next, HeadAt(s, p).value.segwit, HeadAt(s, p).value.txin.value).Ok?
    ensures (var h := HeadAt(s, p).value; var t := RestAt(s, h.next, h.segwit, h.txin.value).value;
      TxAt(sha, s, p) == Ok(Parsed(SerialTransaction(h.txin, t.txout, HashHeader(sha, h.hashed + t.hashed),
        NewTransaction(h.version, t.inputs, t.outputs, t.locktime)), t.next)))
  {
  }

  /** `TxAt` fails as the opening does. */
  lemma TxAtHeadErr(sha: Sha256, s: seq<Byte>, p: nat)
    requires HeadAt(s, p).Err?
    ensures TxAt(sha, s, p) == Err(HeadAt(s, p).error)
  {
  }

  /** `TxAt` fails as the rest does, after a good opening. */
  lemma TxAtRestErr(sha: Sha256, s: seq<Byte>, p: nat)
    requires HeadAt(s, p).Ok?
    requires RestAt(s, HeadAt(s, p).value.next, HeadAt(s, p).value.segwit, HeadAt(s, p).value.txin.value).Err?
    ensures (TxAt(sha, s, p)
      == Err(RestAt(s, HeadAt(s, p).value.next, HeadAt(s, p).value.segwit, HeadAt(s, p).value.txin.value).error))
  {
  }
}
