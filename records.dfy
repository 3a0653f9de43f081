/**
 * The value records the parsers build: transactions with their inputs,
 * outputs and witnesses, and block headers. Their constructors store the
 * arguments as given; `NewTransaction` is the one that derives a field.
 */
module Records {
  import opened Wrappers
  import opened Bytes
  import opened Hashing

  /** `BitcoinScript`: raw script bytes, never interpreted. */
  datatype Script = Script(contents: seq<Byte>)

  /** `Utxo`: the output an input spends. */
  datatype Utxo = Utxo(txid: BitcoinHash, vout: U32)

  /** `Witness`: the stack of byte items attached to an input. */
  datatype Witness = Witness(items: seq<seq<Byte>>) {
    /** `Witness::count`. */
    function Count(): nat
    {
      |items|
    }
  }

  /** `Input`; `witnessStack` is the source's `witness` field (a reserved word here). */
  datatype Input = Input(utxo: Utxo, signature: Script, sequence: U32, witnessStack: Option<Witness>)

  /** `Output`. */
  datatype Output = Output(value: U64, pubkey: Script)

  /** `blockchain::transactions::Transaction`. */
  datatype Transaction = Transaction(version: U32, inputs: seq<Input>, outputs: seq<Output>, segwit: bool, locktime: U32)

  /** `look_for_witness`: does any input carry a witness? */
  function LookForWitness(inputs: seq<Input>): (b: bool)
    ensures b <==> exists i :: 0 <= i < |inputs| && inputs[i].witnessStack.Some?
  {
    if |inputs| == 0 then false
    else inputs[0].witnessStack.Some? || (assert forall i :: 0 < i < |inputs| ==> inputs[i] == inputs[1..][i - 1];
                                     LookForWitness(inputs[1..]))
  }

  /** `Transaction::new`: keeps its arguments and marks the transaction as
      segregated-witness exactly when some input has a witness. */
  function NewTransaction(version: U32, inputs: seq<Input>, outputs: seq<Output>, locktime: U32): (t: Transaction)
    ensures t.version == version && t.inputs == inputs && t.outputs == outputs && t.locktime == locktime
    ensures t.segwit <==> exists i :: 0 <= i < |inputs| && inputs[i].witnessStack.Some?
  {
    Transaction(version, inputs, outputs, LookForWitness(inputs), locktime)
  }

  /** No inputs, or only inputs without witnesses, make a legacy transaction. */
  lemma NoWitnessNoSegwit(version: U32, inputs: seq<Input>, outputs: seq<Output>, locktime: U32)
    requires forall i :: 0 <= i < |inputs| ==> inputs[i].witnessStack.None?
    ensures !NewTransaction(version, inputs, outputs, locktime).segwit
  {
  }

  /** `Input::assign_witness`: the witness becomes `Some(w)`, the rest stays. */
  function AssignWitness(input: Input, w: Witness): (r: Input)
    ensures r.witnessStack == Some(w)
    ensures r.utxo == input.utxo && r.signature == input.signature && r.sequence == input.sequence
  {
    input.(witnessStack := Some(w))
  }

  /** `MiningInfo`. */
  datatype MiningInfo = MiningInfo(time: U32, bits: BlockTarget, nonce: U32)

  /** `BlockHeader`. */
  datatype BlockHeader = BlockHeader(version: U32, previous: BitcoinHash, txroot: BitcoinHash, consensus: MiningInfo)

  /** `Block<T>`: a header and its transactions, in order. */
  datatype Block<T> = Block(header: BlockHeader, transactions: seq<T>)
}
