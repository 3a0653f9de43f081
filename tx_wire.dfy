/**
 * The byte layout the transaction grammar reads, written as encoders: the
 * legacy serialisation, over which the transaction id is taken (section
 * "Transaction ID" of BIP 141), and the segregated-witness serialisation
 * with marker 0x00 and flag 0x01 (section "Serialization" of BIP 144).
 *
 * The lemmas show that the grammar decodes every well-formed encoding back
 * to its transaction, which bytes of it are fed to the hash (the legacy
 * serialisation, except that a legacy transaction with 0xfd or more inputs
 * loses the bytes of its input count after the first), and that a bad flag
 * byte is rejected.
 */
module TxWire {
  import opened Wrappers
  import opened Bytes
  import opened Errors
  import opened Hashing
  import opened VarInts
  import opened Records
  import opened TxGrammar

  /** Counts and lengths are written as compact-size integers, so they must be
      below 2^64. */
  const COUNT_LIMIT := 0x1_0000_0000_0000_0000

  /** A script whose length can be written. */
  predicate ScriptFits(sc: Script)
  {
    |sc.contents| < COUNT_LIMIT
  }

  /** A witness stack that can be written and read back as itself: a stack of
      no items is written as the count 0, which reads back as no witness. */
  predicate WitnessFits(w: Witness)
  {
    0 < |w.items| < COUNT_LIMIT && ItemsFit(w.items)
  }

  /** Every item of a stack can be written. */
  predicate ItemsFit(items: seq<seq<Byte>>)
  {
    forall k :: 0 <= k < |items| ==> |items[k]| < COUNT_LIMIT
  }

  predicate InputFits(i: Input)
  {
    ScriptFits(i.signature) && (i.witnessStack.Some? ==> WitnessFits(i.witnessStack.value))
  }

  predicate InputsFit(xs: seq<Input>)
  {
    forall k :: 0 <= k < |xs| ==> InputFits(xs[k])
  }

  predicate OutputsFit(ys: seq<Output>)
  {
    forall k :: 0 <= k < |ys| ==> ScriptFits(ys[k].pubkey)
  }

  /** A transaction as `Transaction::new` builds it, with at least one input:
      a legacy transaction with no inputs would begin with the count 0x00,
      which is the segregated-witness marker (BIP 144 makes the same remark). */
  predicate WellFormed(tx: Transaction)
  {
    0 < |tx.inputs| < COUNT_LIMIT && |tx.outputs| < COUNT_LIMIT
    && InputsFit(tx.inputs) && OutputsFit(tx.outputs)
    && tx.segwit == LookForWitness(tx.inputs)
  }

  /** A count or a length as a compact-size integer. The field holds 64 bits:
      a larger number is not written at all, and no well-formed transaction
      has one. */
  function CountWire(n: nat): seq<Byte>
  {
    if n < COUNT_LIMIT then VarIntBytes(n) else []
  }

  /** The value of `COUNT_LIMIT`, for proofs that hide definitions. */
  lemma CountLimitValue()
    ensures COUNT_LIMIT == 0x1_0000_0000_0000_0000
  {
  }

  /** A `u32` field, little-endian. */
  function U32Wire(v: U32): (e: seq<Byte>)
    ensures |e| == 4
  {
    LeBytes(v, 4)
  }

  /** A `u64` field, little-endian. */
  function U64Wire(v: U64): (e: seq<Byte>)
    ensures |e| == 8
  {
    LeBytes(v, 8)
  }

  function ScriptWire(sc: Script): seq<Byte>
  {
    CountWire(|sc.contents|) + sc.contents
  }

  function UtxoWire(u: Utxo): (e: seq<Byte>)
    ensures |e| == 36
  {
    u.txid.data + U32Wire(u.vout)
  }

  function InputWire(i: Input): seq<Byte>
  {
    UtxoWire(i.utxo) + ScriptWire(i.signature) + U32Wire(i.sequence)
  }

  function InputsWire(xs: seq<Input>): seq<Byte>
  {
    if |xs| == 0 then [] else InputWire(xs[0]) + InputsWire(xs[1..])
  }

  function OutputWire(o: Output): seq<Byte>
  {
    U64Wire(o.value) + ScriptWire(o.pubkey)
  }

  function OutputsWire(ys: seq<Output>): seq<Byte>
  {
    if |ys| == 0 then [] else OutputWire(ys[0]) + OutputsWire(ys[1..])
  }

  function ItemsWire(items: seq<seq<Byte>>): seq<Byte>
  {
    if |items| == 0 then [] else CountWire(|items[0]|) + items[0] + ItemsWire(items[1..])
  }

  /** No witness is written as the count 0. */
  function WitnessWire(w: Option<Witness>): seq<Byte>
  {
    if w.None? then CountWire(0) else CountWire(|w.value.items|) + ItemsWire(w.value.items)
  }

  function WitnessesWire(xs: seq<Input>): seq<Byte>
  {
    if |xs| == 0 then [] else WitnessWire(xs[0].witnessStack) + WitnessesWire(xs[1..])
  }

  /** The inputs, the output count and the outputs. */
  function BodyWire(tx: Transaction): seq<Byte>
  {
    InputsWire(tx.inputs) + CountWire(|tx.outputs|) + OutputsWire(tx.outputs)
  }

  /** The legacy serialisation. */
  function LegacyWire(tx: Transaction): seq<Byte>
  {
    U32Wire(tx.version) + CountWire(|tx.inputs|) + BodyWire(tx) + U32Wire(tx.locktime)
  }

  /** The segregated-witness serialisation: marker and flag after the version,
      the witnesses before the locktime. */
  function SegwitWire(tx: Transaction): seq<Byte>
  {
    U32Wire(tx.version) + [0x00, 0x01] + CountWire(|tx.inputs|) + BodyWire(tx)
    + WitnessesWire(tx.inputs) + U32Wire(tx.locktime)
  }

  /** The framing after the version: marker and flag when segregated-witness. */
  function Framing(segwit: bool): seq<Byte>
  {
    if segwit then [0x00, 0x01] else []
  }

  /** The witnesses when segregated-witness, nothing otherwise. */
  function WitnessesPart(tx: Transaction): seq<Byte>
  {
    if tx.segwit then WitnessesWire(tx.inputs) else []
  }

  /** The opening: version, framing, input count. */
  function HeadWire(tx: Transaction): seq<Byte>
  {
    U32Wire(tx.version) + Framing(tx.segwit) + CountWire(|tx.inputs|)
  }

  /** Everything after the input count. */
  function RestWire(tx: Transaction): seq<Byte>
  {
    BodyWire(tx) + WitnessesPart(tx) + U32Wire(tx.locktime)
  }

  /** How a transaction is written: with witness framing exactly when it has a
      witness (see `TxWireIsStandard`). */
  function TxWire(tx: Transaction): seq<Byte>
  {
    HeadWire(tx) + RestWire(tx)
  }

  /** Of the input count, the bytes that are hashed. */
  function HashedCount(tx: Transaction): seq<Byte>
    requires |tx.inputs| < COUNT_LIMIT
  {
    var count := CountWire(|tx.inputs|);
    if tx.segwit then count else count[..1]
  }

  /** The bytes `from_raw_data` feeds to the hash of a transaction it reads
      from `TxWire(tx)`: from the input count only its first byte when the
      framing is legacy. */
  function HashedWire(tx: Transaction): seq<Byte>
    requires |tx.inputs| < COUNT_LIMIT
  {
    U32Wire(tx.version) + HashedCount(tx) + BodyWire(tx) + U32Wire(tx.locktime)
  }

  /** An input as the grammar first reads it, before its witness. */
  function Bare(i: Input): Input
  {
    i.(witnessStack := None)
  }

  function Bares(xs: seq<Input>): (r: seq<Input>)
    ensures |r| == |xs|
  {
    if |xs| == 0 then [] else [Bare(xs[0])] + Bares(xs[1..])
  }

  lemma {:induction false} BaresOfBare(xs: seq<Input>)
    requires forall k :: 0 <= k < |xs| ==> xs[k].witnessStack.None?
    ensures Bares(xs) == xs
  {
    if |xs| > 0 {
      assert Bare(xs[0]) == xs[0];
      BaresOfBare(xs[1..]);
    }
  }

  /* Each round trip below is split in three: where the pieces of an encoding
     sit (a "pieces" lemma, which sees the encoder but not `Matches`), what
     each piece reads back as, and a step lemma that puts the reads together
     in the grammar's own terms. The lemma that chains them hides every
     function body, so that it reasons from those contracts alone. */

  lemma U32RoundTrip(s: seq<Byte>, p: nat, v: U32)
    requires Matches(s, p, U32Wire(v))
    ensures U32At(s, p) == Ok(Parsed(v, p + 4))
  {
    LeRoundTrip(v, 4);
  }

  lemma U64RoundTrip(s: seq<Byte>, p: nat, v: U64)
    requires Matches(s, p, U64Wire(v))
    ensures U64At(s, p) == Ok(Parsed(v, p + 8))
  {
    LeRoundTrip(v, 8);
  }

  /** A compact-size count reads back with the transaction parser's error type. */
  lemma CountRoundTrip(s: seq<Byte>, p: nat, n: U64)
    requires Matches(s, p, CountWire(n))
    ensures VarIntTxAt(s, p) == Ok(Parsed(VarInt(n), p + |CountWire(n)|))
  {
    VarIntRoundTrip(s, p, n);
  }

  lemma BytesRoundTrip(s: seq<Byte>, p: nat, c: seq<Byte>)
    requires Matches(s, p, c)
    ensures BytesAt(s, p, |c|) == Ok(Parsed(c, p + |c|))
  {
  }

  /** The first byte of an encoding. */
  lemma FirstByteRoundTrip(s: seq<Byte>, p: nat, e: seq<Byte>)
    requires |e| > 0 && Matches(s, p, e)
    ensures BytesAt(s, p, 1) == Ok(Parsed([e[0]], p + 1))
  {
    assert s[p..p + 1] == [s[p]];
  }

  /** A count, then as many bytes. */
  lemma CountedRoundTrip(s: seq<Byte>, p: nat, c: seq<Byte>)
    requires |c| < COUNT_LIMIT && Matches(s, p, CountWire(|c|) + c)
    ensures VarIntTxAt(s, p) == Ok(Parsed(VarInt(|c|), p + |CountWire(|c|)|))
    ensures BytesAt(s, p + |CountWire(|c|)|, |c|) == Ok(Parsed(c, p + |CountWire(|c|)| + |c|))
  {
    MatchesSplit(s, p, CountWire(|c|), c);
    CountRoundTrip(s, p, |c|);
    BytesRoundTrip(s, p + |CountWire(|c|)|, c);
  }

  /** `ScriptAt` from its count and its bytes. */
  lemma ScriptStep(s: seq<Byte>, p: nat, n: U64, q: nat, c: seq<Byte>, r: nat)
    requires VarIntTxAt(s, p) == Ok(Parsed(VarInt(n), q)) && BytesAt(s, q, n) == Ok(Parsed(c, r))
    ensures ScriptAt(s, p) == Ok(Parsed((VarInt(n), c), r))
  {
  }

  lemma ScriptRoundTrip(s: seq<Byte>, p: nat, sc: Script)
    requires ScriptFits(sc) && Matches(s, p, ScriptWire(sc))
    ensures ScriptAt(s, p) == Ok(Parsed((VarInt(|sc.contents|), sc.contents), p + |ScriptWire(sc)|))
  {
    var q := p + |CountWire(|sc.contents|)|;
    CountedRoundTrip(s, p, sc.contents);
    ScriptStep(s, p, |sc.contents|, q, sc.contents, q + |sc.contents|);
  }

  lemma TxidRoundTrip(s: seq<Byte>, p: nat, h: BitcoinHash)
    requires Matches(s, p, h.data)
    ensures TxidAt(s, p) == Ok(Parsed(h, p + 32))
  {
  }

  /** `UtxoAt` from its two fields. */
  lemma UtxoStep(s: seq<Byte>, p: nat, u: Utxo)
    requires TxidAt(s, p) == Ok(Parsed(u.txid, p + 32)) && U32At(s, p + 32) == Ok(Parsed(u.vout, p + 36))
    ensures UtxoAt(s, p) == Ok(Parsed(u, p + 36))
  {
  }

  lemma UtxoRoundTrip(s: seq<Byte>, p: nat, u: Utxo)
    requires Matches(s, p, UtxoWire(u))
    ensures UtxoAt(s, p) == Ok(Parsed(u, p + 36))
  {
    MatchesSplit(s, p, u.txid.data, U32Wire(u.vout));
    TxidRoundTrip(s, p, u.txid);
    U32RoundTrip(s, p + 32, u.vout);
    UtxoStep(s, p, u);
  }

  /** The three fields of an input, where its encoding sits. */
  lemma InputPieces(s: seq<Byte>, p: nat, i: Input)
    requires InputFits(i) && Matches(s, p, InputWire(i))
    ensures ScriptFits(i.signature)
    ensures Matches(s, p, UtxoWire(i.utxo)) && Matches(s, p + 36, ScriptWire(i.signature))
    ensures Matches(s, p + 36 + |ScriptWire(i.signature)|, U32Wire(i.sequence))
    ensures |InputWire(i)| == 36 + |ScriptWire(i.signature)| + 4
  {
    hide Matches, UtxoWire, ScriptWire, U32Wire;
    MatchesSplit(s, p, UtxoWire(i.utxo) + ScriptWire(i.signature), U32Wire(i.sequence));
    MatchesSplit(s, p, UtxoWire(i.utxo), ScriptWire(i.signature));
  }

  /** `InputAt` from its three fields. */
  lemma InputStep(s: seq<Byte>, p: nat, i: Input, q: nat)
    requires ScriptFits(i.signature)
    requires UtxoAt(s, p) == Ok(Parsed(i.utxo, p + 36))
    requires ScriptAt(s, p + 36) == Ok(Parsed((VarInt(|i.signature.contents|), i.signature.contents), q))
    requires U32At(s, q) == Ok(Parsed(i.sequence, q + 4))
    ensures InputAt(s, p) == Ok(Parsed(Bare(i), q + 4))
  {
  }

  lemma InputRoundTrip(s: seq<Byte>, p: nat, i: Input)
    requires InputFits(i) && Matches(s, p, InputWire(i))
    ensures InputAt(s, p) == Ok(Parsed(Bare(i), p + |InputWire(i)|))
  {
    hide *;
    var q := p + 36 + |ScriptWire(i.signature)|;
    InputPieces(s, p, i);
    UtxoRoundTrip(s, p, i.utxo);
    ScriptRoundTrip(s, p + 36, i.signature);
    U32RoundTrip(s, q, i.sequence);
    InputStep(s, p, i, q);
  }

  /** The first input of a list and the others fit when the list does. */
  lemma InputsFitSplit(xs: seq<Input>)
    requires |xs| > 0 && InputsFit(xs)
    ensures InputFits(xs[0]) && InputsFit(xs[1..])
  {
    assert forall k :: 0 <= k < |xs| - 1 ==> xs[1..][k] == xs[k + 1];
  }

  /** The first of a list of inputs, where its encoding sits, and the others. */
  lemma InputsPieces(s: seq<Byte>, p: nat, xs: seq<Input>)
    requires |xs| > 0 && InputsFit(xs) && Matches(s, p, InputsWire(xs))
    ensures InputFits(xs[0]) && InputsFit(xs[1..])
    ensures Matches(s, p, InputWire(xs[0])) && Matches(s, p + |InputWire(xs[0])|, InputsWire(xs[1..]))
    ensures |InputsWire(xs)| == |InputWire(xs[0])| + |InputsWire(xs[1..])|
  {
    hide Matches, InputWire, InputFits;
    InputsFitSplit(xs);
    MatchesSplit(s, p, InputWire(xs[0]), InputsWire(xs[1..]));
  }

  /** `InputsAt` from its first input and the others. */
  lemma InputsStep(s: seq<Byte>, p: nat, q: nat, r: nat, xs: seq<Input>)
    requires |xs| > 0
    requires InputAt(s, p) == Ok(Parsed(Bare(xs[0]), q)) && InputsAt(s, q, |xs| - 1) == Ok(Parsed(Bares(xs[1..]), r))
    ensures InputsAt(s, p, |xs|) == Ok(Parsed(Bares(xs), r))
  {
    InputsUnfold(s, p, |xs|);
  }

  /** The empty list, wherever it sits. */
  lemma InputsNil(s: seq<Byte>, p: nat, xs: seq<Input>)
    requires |xs| == 0 && Matches(s, p, InputsWire(xs))
    ensures InputsAt(s, p, |xs|) == Ok(Parsed(Bares(xs), p + |InputsWire(xs)|))
  {
  }

  /** The inputs of a well-formed list read back without their witnesses. */
  lemma {:induction false} InputsRoundTrip(s: seq<Byte>, p: nat, xs: seq<Input>)
    requires InputsFit(xs) && Matches(s, p, InputsWire(xs))
    ensures InputsAt(s, p, |xs|) == Ok(Parsed(Bares(xs), p + |InputsWire(xs)|))
    decreases xs
  {
    hide *;
    if |xs| == 0 {
      InputsNil(s, p, xs);
    } else {
      var q := p + |InputWire(xs[0])|;
      InputsPieces(s, p, xs);
      InputRoundTrip(s, p, xs[0]);
      InputsRoundTrip(s, q, xs[1..]);
      InputsStep(s, p, q, q + |InputsWire(xs[1..])|, xs);
    }
  }

  /** `OutputAt` from its two fields. */
  lemma OutputStep(s: seq<Byte>, p: nat, o: Output, q: nat)
    requires ScriptFits(o.pubkey)
    requires U64At(s, p) == Ok(Parsed(o.value, p + 8))
    requires ScriptAt(s, p + 8) == Ok(Parsed((VarInt(|o.pubkey.contents|), o.pubkey.contents), q))
    ensures OutputAt(s, p) == Ok(Parsed(o, q))
  {
  }

  lemma OutputRoundTrip(s: seq<Byte>, p: nat, o: Output)
    requires ScriptFits(o.pubkey) && Matches(s, p, OutputWire(o))
    ensures OutputAt(s, p) == Ok(Parsed(o, p + |OutputWire(o)|))
  {
    MatchesSplit(s, p, U64Wire(o.value), ScriptWire(o.pubkey));
    U64RoundTrip(s, p, o.value);
    ScriptRoundTrip(s, p + 8, o.pubkey);
    OutputStep(s, p, o, p + 8 + |ScriptWire(o.pubkey)|);
  }

  /** The first of a list of outputs, where its encoding sits, and the others. */
  lemma OutputsPieces(s: seq<Byte>, p: nat, ys: seq<Output>)
    requires |ys| > 0 && OutputsFit(ys) && Matches(s, p, OutputsWire(ys))
    ensures ScriptFits(ys[0].pubkey) && OutputsFit(ys[1..])
    ensures Matches(s, p, OutputWire(ys[0])) && Matches(s, p + |OutputWire(ys[0])|, OutputsWire(ys[1..]))
    ensures |OutputsWire(ys)| == |OutputWire(ys[0])| + |OutputsWire(ys[1..])|
  {
    hide Matches, OutputWire, ScriptFits;
    assert forall k :: 0 <= k < |ys| - 1 ==> ys[1..][k] == ys[k + 1];
    MatchesSplit(s, p, OutputWire(ys[0]), OutputsWire(ys[1..]));
  }

  /** The empty list, wherever it sits. */
  lemma OutputsNil(s: seq<Byte>, p: nat, ys: seq<Output>)
    requires |ys| == 0 && Matches(s, p, OutputsWire(ys))
    ensures OutputsAt(s, p, |ys|) == Ok(Parsed(ys, p + |OutputsWire(ys)|))
  {
  }

  /** `OutputsAt` from its first output and the others. */
  lemma OutputsStep(s: seq<Byte>, p: nat, q: nat, r: nat, ys: seq<Output>)
    requires |ys| > 0
    requires OutputAt(s, p) == Ok(Parsed(ys[0], q)) && OutputsAt(s, q, |ys| - 1) == Ok(Parsed(ys[1..], r))
    ensures OutputsAt(s, p, |ys|) == Ok(Parsed(ys, r))
  {
    OutputsUnfold(s, p, |ys|);
    assert [ys[0]] + ys[1..] == ys;
  }

  lemma {:induction false} OutputsRoundTrip(s: seq<Byte>, p: nat, ys: seq<Output>)
    requires OutputsFit(ys) && Matches(s, p, OutputsWire(ys))
    ensures OutputsAt(s, p, |ys|) == Ok(Parsed(ys, p + |OutputsWire(ys)|))
    decreases ys
  {
    hide *;
    if |ys| == 0 {
      OutputsNil(s, p, ys);
    } else {
      var q := p + |OutputWire(ys[0])|;
      OutputsPieces(s, p, ys);
      OutputRoundTrip(s, p, ys[0]);
      OutputsRoundTrip(s, q, ys[1..]);
      OutputsStep(s, p, q, q + |OutputsWire(ys[1..])|, ys);
    }
  }

  /** `ItemAt` from its count and its bytes. */
  lemma ItemStep(s: seq<Byte>, p: nat, n: U64, q: nat, c: seq<Byte>, r: nat)
    requires VarIntTxAt(s, p) == Ok(Parsed(VarInt(n), q)) && BytesAt(s, q, n) == Ok(Parsed(c, r))
    ensures ItemAt(s, p) == Ok(Parsed(c, r))
  {
  }

  lemma ItemRoundTrip(s: seq<Byte>, p: nat, c: seq<Byte>)
    requires |c| < COUNT_LIMIT && Matches(s, p, CountWire(|c|) + c)
    ensures ItemAt(s, p) == Ok(Parsed(c, p + |CountWire(|c|) + c|))
  {
    var q := p + |CountWire(|c|)|;
    CountedRoundTrip(s, p, c);
    ItemStep(s, p, |c|, q, c, q + |c|);
  }

  /** The first of a list of items, where its encoding sits, and the others. */
  lemma ItemsPieces(s: seq<Byte>, p: nat, items: seq<seq<Byte>>)
    requires |items| > 0 && ItemsFit(items) && Matches(s, p, ItemsWire(items))
    ensures |items[0]| < COUNT_LIMIT && ItemsFit(items[1..])
    ensures (var first := CountWire(|items[0]|) + items[0];
      Matches(s, p, first) && Matches(s, p + |first|, ItemsWire(items[1..]))
      && |ItemsWire(items)| == |first| + |ItemsWire(items[1..])|)
  {
    hide Matches, CountWire;
    assert forall k :: 0 <= k < |items| - 1 ==> items[1..][k] == items[k + 1];
    MatchesSplit(s, p, CountWire(|items[0]|) + items[0], ItemsWire(items[1..]));
  }

  /** The empty list, wherever it sits. */
  lemma ItemsNil(s: seq<Byte>, p: nat, items: seq<seq<Byte>>)
    requires |items| == 0 && Matches(s, p, ItemsWire(items))
    ensures ItemsAt(s, p, |items|) == Ok(Parsed(items, p + |ItemsWire(items)|))
  {
  }

  /** `ItemsAt` from its first item and the others. */
  lemma ItemsStep(s: seq<Byte>, p: nat, q: nat, r: nat, items: seq<seq<Byte>>)
    requires |items| > 0
    requires ItemAt(s, p) == Ok(Parsed(items[0], q)) && ItemsAt(s, q, |items| - 1) == Ok(Parsed(items[1..], r))
    ensures ItemsAt(s, p, |items|) == Ok(Parsed(items, r))
  {
    ItemsUnfold(s, p, |items|);
    assert [items[0]] + items[1..] == items;
  }

  lemma {:induction false} ItemsRoundTrip(s: seq<Byte>, p: nat, items: seq<seq<Byte>>)
    requires ItemsFit(items) && Matches(s, p, ItemsWire(items))
    ensures ItemsAt(s, p, |items|) == Ok(Parsed(items, p + |ItemsWire(items)|))
    decreases items
  {
    hide *;
    if |items| == 0 {
      ItemsNil(s, p, items);
    } else {
      var q := p + |CountWire(|items[0]|) + items[0]|;
      ItemsPieces(s, p, items);
      ItemRoundTrip(s, p, items[0]);
      ItemsRoundTrip(s, q, items[1..]);
      ItemsStep(s, p, q, q + |ItemsWire(items[1..])|, items);
    }
  }

  /** `WitnessAt` from the count 0. */
  lemma NoWitnessStep(s: seq<Byte>, p: nat, q: nat)
    requires VarIntTxAt(s, p) == Ok(Parsed(VarInt(0), q))
    ensures WitnessAt(s, p) == Ok(Parsed(None, q))
  {
  }

  /** `WitnessAt` from a non-zero count and that many items. */
  lemma WitnessStep(s: seq<Byte>, p: nat, q: nat, r: nat, w: Witness)
    requires 0 < |w.items| < COUNT_LIMIT
    requires VarIntTxAt(s, p) == Ok(Parsed(VarInt(|w.items|), q)) && ItemsAt(s, q, |w.items|) == Ok(Parsed(w.items, r))
    ensures WitnessAt(s, p) == Ok(Parsed(Some(w), r))
  {
  }

  /** The count and the items of a non-empty stack, where they sit. */
  lemma StackPieces(s: seq<Byte>, p: nat, w: Witness)
    requires WitnessFits(w) && Matches(s, p, WitnessWire(Some(w)))
    ensures 0 < |w.items| < COUNT_LIMIT && ItemsFit(w.items)
    ensures Matches(s, p, CountWire(|w.items|)) && Matches(s, p + |CountWire(|w.items|)|, ItemsWire(w.items))
    ensures |WitnessWire(Some(w))| == |CountWire(|w.items|)| + |ItemsWire(w.items)|
  {
    hide Matches, CountWire, ItemsWire, ItemsFit;
    MatchesSplit(s, p, CountWire(|w.items|), ItemsWire(w.items));
  }

  lemma StackRoundTrip(s: seq<Byte>, p: nat, w: Witness)
    requires WitnessFits(w) && Matches(s, p, WitnessWire(Some(w)))
    ensures WitnessAt(s, p) == Ok(Parsed(Some(w), p + |WitnessWire(Some(w))|))
  {
    hide *;
    var q := p + |CountWire(|w.items|)|;
    StackPieces(s, p, w);
    CountLimitValue();
    CountRoundTrip(s, p, |w.items|);
    ItemsRoundTrip(s, q, w.items);
    WitnessStep(s, p, q, q + |ItemsWire(w.items)|, w);
  }

  /** The count 0 reads back as no witness. */
  lemma NoWitnessRoundTrip(s: seq<Byte>, p: nat)
    requires Matches(s, p, WitnessWire(None))
    ensures WitnessAt(s, p) == Ok(Parsed(None, p + |WitnessWire(None)|))
  {
    CountRoundTrip(s, p, 0);
    NoWitnessStep(s, p, p + |CountWire(0)|);
  }

  lemma WitnessRoundTrip(s: seq<Byte>, p: nat, w: Option<Witness>)
    requires (w.Some? ==> WitnessFits(w.value)) && Matches(s, p, WitnessWire(w))
    ensures WitnessAt(s, p) == Ok(Parsed(w, p + |WitnessWire(w)|))
  {
    hide *;
    if w.None? {
      NoWitnessRoundTrip(s, p);
    } else {
      StackRoundTrip(s, p, w.value);
    }
  }

  /** The first of a list of witnesses, where its encoding sits, and the others. */
  lemma WitnessesPieces(s: seq<Byte>, p: nat, xs: seq<Input>)
    requires |xs| > 0 && InputsFit(xs) && Matches(s, p, WitnessesWire(xs))
    ensures InputsFit(xs[1..])
    ensures xs[0].witnessStack.Some? ==> WitnessFits(xs[0].witnessStack.value)
    ensures (var first := WitnessWire(xs[0].witnessStack);
      Matches(s, p, first) && Matches(s, p + |first|, WitnessesWire(xs[1..]))
      && |WitnessesWire(xs)| == |first| + |WitnessesWire(xs[1..])|)
  {
    hide Matches, WitnessWire, WitnessFits;
    InputsFitSplit(xs);
    MatchesSplit(s, p, WitnessWire(xs[0].witnessStack), WitnessesWire(xs[1..]));
  }

  /** The bare list of inputs, split at its first input. */
  lemma BaresSplit(xs: seq<Input>)
    requires |xs| > 0
    ensures Bares(xs)[0] == Bare(xs[0]) && Bares(xs)[1..] == Bares(xs[1..])
  {
  }

  /** The witness of an input put back on the input without it. */
  lemma AttachBare(i: Input)
    ensures Attach(Bare(i), i.witnessStack) == i
  {
  }

  /** One step of reading witnesses onto bare inputs. */
  lemma WitnessesStep(s: seq<Byte>, p: nat, q: nat, r: nat, xs: seq<Input>)
    requires |xs| > 0
    requires WitnessAt(s, p) == Ok(Parsed(xs[0].witnessStack, q))
    requires WitnessesAt(s, q, Bares(xs[1..])) == Ok(Parsed(xs[1..], r))
    ensures WitnessesAt(s, p, Bares(xs)) == Ok(Parsed(xs, r))
  {
    BaresSplit(xs);
    AttachBare(xs[0]);
    WitnessesUnfold(s, p, Bares(xs));
    assert [xs[0]] + xs[1..] == xs;
  }

  /** The empty list, wherever it sits. */
  lemma WitnessesNil(s: seq<Byte>, p: nat, xs: seq<Input>)
    requires |xs| == 0 && Matches(s, p, WitnessesWire(xs))
    ensures WitnessesAt(s, p, Bares(xs)) == Ok(Parsed(xs, p + |WitnessesWire(xs)|))
  {
  }

  /** Reading the witnesses onto the bare inputs gives the inputs back. */
  lemma {:induction false} WitnessesRoundTrip(s: seq<Byte>, p: nat, xs: seq<Input>)
    requires InputsFit(xs) && Matches(s, p, WitnessesWire(xs))
    ensures WitnessesAt(s, p, Bares(xs)) == Ok(Parsed(xs, p + |WitnessesWire(xs)|))
    decreases xs
  {
    hide *;
    if |xs| == 0 {
      WitnessesNil(s, p, xs);
    } else {
      var q := p + |WitnessWire(xs[0].witnessStack)|;
      WitnessesPieces(s, p, xs);
      WitnessRoundTrip(s, p, xs[0].witnessStack);
      WitnessesRoundTrip(s, q, xs[1..]);
      WitnessesStep(s, p, q, q + |WitnessesWire(xs[1..])|, xs);
    }
  }

  /** The three parts of a body, where its encoding sits. */
  lemma BodyPieces(s: seq<Byte>, p: nat, tx: Transaction)
    requires WellFormed(tx) && Matches(s, p, BodyWire(tx))
    ensures InputsFit(tx.inputs) && OutputsFit(tx.outputs) && |tx.outputs| < COUNT_LIMIT
    ensures (var ins := InputsWire(tx.inputs);
      Matches(s, p, ins) && Matches(s, p + |ins|, CountWire(|tx.outputs|))
      && Matches(s, p + |ins| + |CountWire(|tx.outputs|)|, OutputsWire(tx.outputs))
      && |BodyWire(tx)| == |ins| + |CountWire(|tx.outputs|)| + |OutputsWire(tx.outputs)|)
    ensures p + |BodyWire(tx)| <= |s|
  {
    hide Matches, InputsWire, OutputsWire, CountWire, InputsFit, OutputsFit;
    var ins, count := InputsWire(tx.inputs), CountWire(|tx.outputs|);
    MatchesSplit(s, p, ins + count, OutputsWire(tx.outputs));
    MatchesSplit(s, p, ins, count);
  }

  /** `BodyAt` from its three parts. */
  lemma BodyStep(s: seq<Byte>, p: nat, q: nat, r: nat, t: nat, ins: seq<Input>, outs: seq<Output>)
    requires p <= |s| && |outs| < COUNT_LIMIT
    requires InputsAt(s, p, |ins|) == Ok(Parsed(ins, q))
    requires VarIntTxAt(s, q) == Ok(Parsed(VarInt(|outs|), r))
    requires OutputsAt(s, r, |outs|) == Ok(Parsed(outs, t))
    ensures BodyAt(s, p, |ins|) == Ok(Parsed(TxBody(ins, VarInt(|outs|), outs), t))
  {
  }

  lemma BodyRoundTrip(s: seq<Byte>, p: nat, tx: Transaction)
    requires WellFormed(tx) && Matches(s, p, BodyWire(tx))
    ensures (BodyAt(s, p, |tx.inputs|)
      == Ok(Parsed(TxBody(Bares(tx.inputs), VarInt(|tx.outputs|), tx.outputs), p + |BodyWire(tx)|)))
  {
    hide *;
    var q := p + |InputsWire(tx.inputs)|;
    var r := q + |CountWire(|tx.outputs|)|;
    BodyPieces(s, p, tx);
    CountLimitValue();
    InputsRoundTrip(s, p, tx.inputs);
    CountRoundTrip(s, q, |tx.outputs|);
    OutputsRoundTrip(s, r, tx.outputs);
    BodyStep(s, p, q, r, r + |OutputsWire(tx.outputs)|, Bares(tx.inputs), tx.outputs);
  }

  /** `MarkerCountAt` from the marker 0x00, the flag 0x01 and a count. */
  lemma SegwitCountStep(s: seq<Byte>, p: nat, n: U64, q: nat)
    requires BytesAt(s, p, 1) == Ok(Parsed([0x00], p + 1)) && BytesAt(s, p + 1, 1) == Ok(Parsed([0x01], p + 2))
    requires VarIntTxAt(s, p + 2) == Ok(Parsed(VarInt(n), q))
    ensures MarkerCountAt(s, p) == Ok(CountScan(true, VarInt(n), s[p + 2..q], q))
  {
  }

  /** The marker 0x00, the flag 0x01, then the input count. */
  lemma SegwitCountRoundTrip(s: seq<Byte>, p: nat, n: U64)
    requires Matches(s, p, [0x00, 0x01] + CountWire(n))
    ensures MarkerCountAt(s, p) == Ok(CountScan(true, VarInt(n), CountWire(n), p + 2 + |CountWire(n)|))
  {
    MatchesSplit(s, p, [0x00, 0x01], CountWire(n));
    MatchesSplit(s, p, [0x00], [0x01]);
    FirstByteRoundTrip(s, p, [0x00]);
    FirstByteRoundTrip(s, p + 1, [0x01]);
    CountRoundTrip(s, p + 2, n);
    SegwitCountStep(s, p, n, p + 2 + |CountWire(n)|);
  }

  /** `MarkerCountAt` from a count whose first byte is not 0x00. */
  lemma LegacyCountStep(s: seq<Byte>, p: nat, m: Byte, n: U64, q: nat)
    requires m != 0x00 && BytesAt(s, p, 1) == Ok(Parsed([m], p + 1))
    requires VarIntTxAt(s, p) == Ok(Parsed(VarInt(n), q))
    ensures MarkerCountAt(s, p) == Ok(CountScan(false, VarInt(n), [m], q))
  {
  }

  /** A non-zero input count, whose first byte is its marker. */
  lemma LegacyCountRoundTrip(s: seq<Byte>, p: nat, n: U64)
    requires 0 < n && Matches(s, p, CountWire(n))
    ensures MarkerCountAt(s, p) == Ok(CountScan(false, VarInt(n), CountWire(n)[..1], p + |CountWire(n)|))
  {
    var count := CountWire(n);
    FirstByteRoundTrip(s, p, count);
    CountRoundTrip(s, p, n);
    LegacyCountStep(s, p, count[0], n, p + |count|);
    assert count[..1] == [count[0]];
  }

  /** `HeadAt` from the version and the count after it. */
  lemma HeadStep(s: seq<Byte>, p: nat, version: U32, count: CountScan)
    requires U32At(s, p) == Ok(Parsed(version, p + 4)) && MarkerCountAt(s, p + 4) == Ok(count)
    ensures HeadAt(s, p) == Ok(TxHead(version, count.segwit, count.txin, s[p..p + 4] + count.hashed, count.next))
  {
  }

  /** The version and the framed count, where the opening sits. */
  lemma HeadPieces(s: seq<Byte>, p: nat, tx: Transaction)
    requires WellFormed(tx) && Matches(s, p, HeadWire(tx))
    ensures 0 < |tx.inputs| < COUNT_LIMIT
    ensures Matches(s, p, U32Wire(tx.version)) && s[p..p + 4] == U32Wire(tx.version)
    ensures tx.segwit ==> Matches(s, p + 4, [0x00, 0x01] + CountWire(|tx.inputs|))
    ensures !tx.segwit ==> Matches(s, p + 4, CountWire(|tx.inputs|))
    ensures |HeadWire(tx)| == 4 + (if tx.segwit then 2 else 0) + |CountWire(|tx.inputs|)|
    ensures HashedCount(tx) == if tx.segwit then CountWire(|tx.inputs|) else CountWire(|tx.inputs|)[..1]
  {
    hide Matches, U32Wire, CountWire;
    var version, framing, count := U32Wire(tx.version), Framing(tx.segwit), CountWire(|tx.inputs|);
    MatchesSplit(s, p, version + framing, count);
    MatchesSplit(s, p, version, framing);
    MatchesSlice(s, p, version);
    MatchesConcat(s, p + 4, framing, count);
    if !tx.segwit {
      assert framing + count == count;
    }
  }

  /** The opening of a written transaction: version, framing, input count. */
  lemma HeadRoundTrip(s: seq<Byte>, p: nat, tx: Transaction)
    requires WellFormed(tx) && Matches(s, p, HeadWire(tx))
    ensures (HeadAt(s, p) == Ok(TxHead(tx.version, tx.segwit, VarInt(|tx.inputs|),
                                      U32Wire(tx.version) + HashedCount(tx), p + |HeadWire(tx)|)))
  {
    hide *;
    HeadPieces(s, p, tx);
    CountLimitValue();
    U32RoundTrip(s, p, tx.version);
    if tx.segwit {
      SegwitCountRoundTrip(s, p + 4, |tx.inputs|);
    } else {
      LegacyCountRoundTrip(s, p + 4, |tx.inputs|);
    }
    HeadStep(s, p, tx.version, MarkerCountAt(s, p + 4).value);
  }

  /** The three parts of the rest, where its encoding sits. */
  lemma RestPieces(s: seq<Byte>, p: nat, tx: Transaction)
    requires WellFormed(tx) && Matches(s, p, RestWire(tx))
    ensures (var body := BodyWire(tx);
      Matches(s, p, body) && Matches(s, p + |body|, WitnessesPart(tx))
      && Matches(s, p + |body| + |WitnessesPart(tx)|, U32Wire(tx.locktime))
      && |RestWire(tx)| == |body| + |WitnessesPart(tx)| + 4)
    ensures p + |RestWire(tx)| <= |s|
  {
    hide Matches, BodyWire, WitnessesPart, U32Wire;
    MatchesSplit(s, p, BodyWire(tx) + WitnessesPart(tx), U32Wire(tx.locktime));
    MatchesSplit(s, p, BodyWire(tx), WitnessesPart(tx));
  }

  /** `RestAt` from the body, the witnessed inputs and the locktime. */
  lemma RestStep(s: seq<Byte>, p: nat, segwit: bool, body: TxBody, q: nat, inputs: seq<Input>, r: nat, locktime: U32)
    requires p <= |s|
    requires BodyAt(s, p, |body.inputs|) == Ok(Parsed(body, q))
    requires (if segwit then WitnessesAt(s, q, body.inputs) else Ok(Parsed(body.inputs, q))) == Ok(Parsed(inputs, r))
    requires U32At(s, r) == Ok(Parsed(locktime, r + 4))
    ensures (RestAt(s, p, segwit, |body.inputs|)
      == Ok(TxRest(body.txout, inputs, body.outputs, locktime, s[p..q] + s[r..r + 4], r + 4)))
  {
  }

  /** The inputs the rest ends up with. */
  lemma WitnessedRoundTrip(s: seq<Byte>, q: nat, tx: Transaction)
    requires WellFormed(tx) && Matches(s, q, WitnessesPart(tx))
    ensures ((if tx.segwit then WitnessesAt(s, q, Bares(tx.inputs)) else Ok(Parsed(Bares(tx.inputs), q)))
      == Ok(Parsed(tx.inputs, q + |WitnessesPart(tx)|)))
  {
    if tx.segwit {
      WitnessesRoundTrip(s, q, tx.inputs);
    } else {
      BaresOfBare(tx.inputs);
    }
  }

  /** Everything after the input count of a written transaction. */
  lemma RestRoundTrip(s: seq<Byte>, p: nat, tx: Transaction)
    requires WellFormed(tx) && Matches(s, p, RestWire(tx))
    ensures (RestAt(s, p, tx.segwit, |tx.inputs|)
      == Ok(TxRest(VarInt(|tx.outputs|), tx.inputs, tx.outputs, tx.locktime, BodyWire(tx) + U32Wire(tx.locktime),
                   p + |RestWire(tx)|)))
  {
    hide *;
    var q := p + |BodyWire(tx)|;
    var r := q + |WitnessesPart(tx)|;
    RestPieces(s, p, tx);
    BodyRoundTrip(s, p, tx);
    WitnessedRoundTrip(s, q, tx);
    U32RoundTrip(s, r, tx.locktime);
    MatchesJoin(s, p, BodyWire(tx), r, U32Wire(tx.locktime));
    RestStep(s, p, tx.segwit, TxBody(Bares(tx.inputs), VarInt(|tx.outputs|), tx.outputs), q, tx.inputs, r, tx.locktime);
  }

  /** The hashed bytes are those of the opening, then those of the rest. */
  lemma HashedSplit(tx: Transaction)
    requires WellFormed(tx)
    ensures HashedWire(tx) == (U32Wire(tx.version) + HashedCount(tx)) + (BodyWire(tx) + U32Wire(tx.locktime))
  {
  }

  /** The opening and the rest, where a written transaction sits. */
  lemma TxPieces(s: seq<Byte>, p: nat, tx: Transaction)
    requires WellFormed(tx) && Matches(s, p, TxWire(tx))
    ensures Matches(s, p, HeadWire(tx)) && Matches(s, p + |HeadWire(tx)|, RestWire(tx))
    ensures |TxWire(tx)| == |HeadWire(tx)| + |RestWire(tx)|
    ensures NewTransaction(tx.version, tx.inputs, tx.outputs, tx.locktime) == tx
  {
    hide Matches, HeadWire, RestWire;
    MatchesSplit(s, p, HeadWire(tx), RestWire(tx));
  }

  /** `from_raw_data` reads every well-formed transaction back from its
      encoding, consumes exactly that encoding, and hashes `HashedWire`. */
  lemma TxRoundTrip(sha: Sha256, s: seq<Byte>, p: nat, tx: Transaction)
    requires WellFormed(tx) && Matches(s, p, TxWire(tx))
    ensures (TxAt(sha, s, p)
      == Ok(Parsed(SerialTransaction(VarInt(|tx.inputs|), VarInt(|tx.outputs|), HashHeader(sha, HashedWire(tx)), tx),
                   p + |TxWire(tx)|)))
  {
    hide *;
    TxPieces(s, p, tx);
    HeadRoundTrip(s, p, tx);
    RestRoundTrip(s, p + |HeadWire(tx)|, tx);
    HashedSplit(tx);
    TxAtOk(sha, s, p);
  }

  /** The encoding is the legacy serialisation or the segregated-witness one,
      as the transaction has a witness or not. */
  lemma TxWireIsStandard(tx: Transaction)
    requires WellFormed(tx)
    ensures TxWire(tx) == if tx.segwit then SegwitWire(tx) else LegacyWire(tx)
  {
    hide U32Wire, CountWire, BodyWire, WitnessesWire;
    var version, count, body, locktime := U32Wire(tx.version), CountWire(|tx.inputs|), BodyWire(tx), U32Wire(tx.locktime);
    if tx.segwit {
      var witnesses := WitnessesWire(tx.inputs);
      assert (version + [0x00, 0x01] + count) + (body + witnesses + locktime)
        == version + [0x00, 0x01] + count + body + witnesses + locktime;
    } else {
      assert (version + [] + count) + (body + [] + locktime) == version + count + body + locktime;
    }
  }

  /** The hashed bytes are the legacy serialisation exactly when the framing is
      segregated-witness or the input count fits in its marker byte. */
  lemma HashedIsLegacy(tx: Transaction)
    requires WellFormed(tx)
    ensures HashedWire(tx) == LegacyWire(tx) <==> tx.segwit || |tx.inputs| < 0xfd
  {
    var count := CountWire(|tx.inputs|);
    if !tx.segwit && |tx.inputs| >= 0xfd {
      assert |HashedWire(tx)| < |LegacyWire(tx)|;
    } else if !tx.segwit {
      assert count[..1] == count;
    }
  }

  /** The hashed bytes of a transaction that was read do not depend on its
      witnesses: the encoding of the inputs ignores them. */
  lemma {:induction false} InputsWireIgnoresWitness(xs: seq<Input>)
    requires InputsFit(xs)
    ensures InputsFit(Bares(xs)) && InputsWire(Bares(xs)) == InputsWire(xs)
  {
    if |xs| > 0 {
      InputsWireIgnoresWitness(xs[1..]);
      assert Bares(xs)[0] == Bare(xs[0]) && Bares(xs)[1..] == Bares(xs[1..]);
    }
  }

  /** A marker 0x00 followed by any flag other than 0x01 is a `FlagError`
      carrying that flag, whatever follows. */
  lemma BadFlagRejected(sha: Sha256, s: seq<Byte>, p: nat)
    requires p + 6 <= |s| && s[p + 4] == 0x00 && s[p + 5] != 0x01
    ensures TxAt(sha, s, p) == Err(FlagErrorOf(s[p + 5]))
  {
    assert BytesAt(s, p + 4, 1).value.value[0] == s[p + 4];
  }

  /** How a transaction fails: with a flag error exactly when the marker 0x00
      is followed by a flag other than 0x01, and otherwise with the read error
      of a buffer that ends too soon. */
  lemma TxAtFailure(sha: Sha256, s: seq<Byte>, p: nat)
    requires TxAt(sha, s, p).Err?
    ensures TxAt(sha, s, p).error.kind.FlagError? <==> (p + 6 <= |s| && s[p + 4] == 0x00 && s[p + 5] != 0x01)
    ensures !TxAt(sha, s, p).error.kind.FlagError? ==> TxAt(sha, s, p).error == TxReadError(UnexpectedEof)
  {
    if p + 6 <= |s| && s[p + 4] == 0x00 && s[p + 5] != 0x01 {
      BadFlagRejected(sha, s, p);
    }
  }
}
