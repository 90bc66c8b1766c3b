/** Bitcoin Cash transactions with CashTokens prefixes: serializer and parser (internal/bch/bchtx.go). */
module BchTx {
  import opened Bytes
  import opened LittleEndian

  const TOKEN_PREFIX: byte := 0xef
  const HAS_COMMITMENT: nat := 0x40
  const HAS_NFT: nat := 0x20
  const HAS_AMOUNT: nat := 0x10
  const MAX_COMMITMENT: nat := 40
  const CAP_NONE: byte := 0
  const CAP_MUTABLE: byte := 1
  const CAP_MINTING: byte := 2

  datatype TokenInfo = TokenInfo(category: Bytes, capability: byte, commitment: Bytes, amount: uint64)

  /** The parts of an input that reach the serialized form; what signing needs besides is not modelled. */
  datatype TxInput = TxInput(prevTxId: Bytes, prevIndex: uint32, sequence: uint32)

  datatype TxOutput = TxOutput(value: int64, script: Bytes, token: Option<TokenInfo>)

  datatype Transaction = Transaction(version: uint32, inputs: seq<TxInput>, outputs: seq<TxOutput>, lockTime: uint32)

  datatype ParsedInput = ParsedInput(prevTxId: Bytes, prevIndex: uint32)

  datatype ParsedTx = ParsedTx(inputs: seq<ParsedInput>, outputs: seq<TxOutput>)

  // ---------------------------------------------------------------- token prefixes

  /** The consensus rules checked before a token is serialized. */
  predicate ValidToken(t: TokenInfo) {
    && |t.category| == 32
    && |t.commitment| <= MAX_COMMITMENT
    && (t.capability != CAP_NONE || t.commitment != [] || t.amount > 0)
    && t.capability in {CAP_NONE, CAP_MUTABLE, CAP_MINTING}
  }

  function Bitfield(t: TokenInfo): byte {
    (if t.capability != CAP_NONE || t.commitment != [] then HAS_NFT else 0)
    + (if t.commitment != [] then HAS_COMMITMENT else 0)
    + (if t.amount > 0 then HAS_AMOUNT else 0)
    + t.capability % 16
  }

  function CommitmentField(c: Bytes): Bytes
    requires |c| < 0x8000_0000_0000_0000
  {
    if c == [] then [] else VarBytes(c)
  }

  function AmountField(amount: uint64): Bytes {
    if amount > 0 then VarInt(amount) else []
  }

  function EncodeTokenPrefix(t: TokenInfo): Bytes
    requires |t.commitment| < 0x8000_0000_0000_0000
  {
    [TOKEN_PREFIX] + t.category + [Bitfield(t)] + CommitmentField(t.commitment) + AmountField(t.amount)
  }

  predicate HasBit(b: byte, mask: nat)
    requires mask > 0
  {
    (b / mask) % 2 == 1
  }

  function TakeCommitment(bitfield: byte, b: Bytes): Option<(Bytes, Bytes)> {
    if !HasBit(bitfield, HAS_COMMITMENT) then Some(([], b))
    else
      match TakeVarInt(b)
      case None => None
      case Some((n, rest)) => if n == 0 || n > MAX_COMMITMENT then None else TakeBytes(rest, n)
  }

  function TakeAmount(bitfield: byte, b: Bytes): Option<(uint64, Bytes)> {
    if HasBit(bitfield, HAS_AMOUNT) then TakeVarInt(b) else Some((0, b))
  }

  function TakeToken(category: Bytes, bitfield: byte, b: Bytes): Option<(Option<TokenInfo>, Bytes)> {
    if HasBit(bitfield, 0x80) then None
    else
      match TakeCommitment(bitfield, b)
      case None => None
      case Some((commitment, b1)) =>
        match TakeAmount(bitfield, b1)
        case None => None
        case Some((amount, b2)) =>
          var capability: byte := if HasBit(bitfield, HAS_NFT) then bitfield % 16 else CAP_NONE;
          Some((Some(TokenInfo(category, capability, commitment, amount)), b2))
  }

  /** An optional token prefix and the locking bytecode after it; none when the prefix is malformed. */
  function SplitTokenPrefix(wrapped: Bytes): Option<(Option<TokenInfo>, Bytes)> {
    if wrapped == [] || wrapped[0] != TOKEN_PREFIX then Some((None, wrapped))
    else
      match TakeBytes(wrapped[1..], 32)
      case None => None
      case Some((category, b)) => if b == [] then None else TakeToken(category, b[0], b[1..])
  }

  method ReadCommitment(reader: ByteReader, bitfield: byte) returns (r: Option<Bytes>)
    requires reader.Valid()
    modifies reader
    ensures reader.Valid()
    ensures match TakeCommitment(bitfield, old(reader.Rest())) case None => r == None
            case Some((v, rest)) => r == Some(v) && reader.Rest() == rest
  {
    if !HasBit(bitfield, HAS_COMMITMENT) {
      return Some([]);
    }
    var n := reader.ReadVarInt();
    if n.None? || n.value == 0 || n.value > MAX_COMMITMENT {
      return None;
    }
    r := reader.ReadBytes(n.value);
  }

  method ReadAmount(reader: ByteReader, bitfield: byte) returns (r: Option<uint64>)
    requires reader.Valid()
    modifies reader
    ensures reader.Valid()
    ensures match TakeAmount(bitfield, old(reader.Rest())) case None => r == None
            case Some((v, rest)) => r == Some(v) && reader.Rest() == rest
  {
    if !HasBit(bitfield, HAS_AMOUNT) {
      return Some(0);
    }
    r := reader.ReadVarInt();
  }

  method ReadTokenPrefix(wrapped: Bytes) returns (r: Option<(Option<TokenInfo>, Bytes)>)
    ensures r == SplitTokenPrefix(wrapped)
  {
    if |wrapped| == 0 || wrapped[0] != TOKEN_PREFIX {
      return Some((None, wrapped));
    }
    var reader := new ByteReader(wrapped, 1);
    var category := reader.ReadBytes(32);
    if category.None? { return None; }
    var bitfield := reader.ReadByte();
    if bitfield.None? || HasBit(bitfield.value, 0x80) { return None; }
    var capability: byte := if HasBit(bitfield.value, HAS_NFT) then bitfield.value % 16 else CAP_NONE;
    var commitment := ReadCommitment(reader, bitfield.value);
    if commitment.None? { return None; }
    var amount := ReadAmount(reader, bitfield.value);
    if amount.None? { return None; }
    r := Some((Some(TokenInfo(category.value, capability, commitment.value, amount.value)), wrapped[reader.pos..]));
  }

  lemma BitfieldBits(t: TokenInfo)
    requires ValidToken(t)
    ensures var f := Bitfield(t);
      && !HasBit(f, 0x80)
      && HasBit(f, HAS_COMMITMENT) == (t.commitment != [])
      && HasBit(f, HAS_AMOUNT) == (t.amount > 0)
      && (if HasBit(f, HAS_NFT) then f % 16 else CAP_NONE) == t.capability
  {
  }

  lemma CommitmentRoundTrip(t: TokenInfo, rest: Bytes)
    requires ValidToken(t)
    ensures TakeCommitment(Bitfield(t), CommitmentField(t.commitment) + rest) == Some((t.commitment, rest))
  {
    BitfieldBits(t);
    if t.commitment == [] {
      assert CommitmentField(t.commitment) + rest == rest;
    } else {
      var c := t.commitment;
      assert VarBytes(c) + rest == VarInt(|c|) + (c + rest);
      VarIntRoundTrip(|c|, c + rest);
      TakeBytesAppend(c, rest);
    }
  }

  lemma AmountRoundTrip(t: TokenInfo, rest: Bytes)
    requires ValidToken(t)
    ensures TakeAmount(Bitfield(t), AmountField(t.amount) + rest) == Some((t.amount, rest))
  {
    BitfieldBits(t);
    if t.amount == 0 {
      assert AmountField(t.amount) + rest == rest;
    } else {
      VarIntRoundTrip(t.amount, rest);
    }
  }

  lemma TokenFieldsRoundTrip(t: TokenInfo, script: Bytes)
    requires ValidToken(t)
    ensures TakeToken(t.category, Bitfield(t), CommitmentField(t.commitment) + (AmountField(t.amount) + script))
         == Some((Some(t), script))
  {
    BitfieldBits(t);
    CommitmentRoundTrip(t, AmountField(t.amount) + script);
    AmountRoundTrip(t, script);
  }

  lemma PrefixParts(t: TokenInfo, script: Bytes)
    requires |t.category| == 32 && |t.commitment| < 0x8000_0000_0000_0000
    ensures EncodeTokenPrefix(t) + script ==
      [TOKEN_PREFIX] + (t.category + ([Bitfield(t)] +
        (CommitmentField(t.commitment) + (AmountField(t.amount) + script))))
  {
  }

  /** A valid token prefix is read back exactly, whatever bytecode follows it. */
  lemma TokenRoundTrip(t: TokenInfo, script: Bytes)
    requires ValidToken(t)
    ensures SplitTokenPrefix(EncodeTokenPrefix(t) + script) == Some((Some(t), script))
  {
    var fields := CommitmentField(t.commitment) + (AmountField(t.amount) + script);
    var b := [Bitfield(t)] + fields;
    PrefixParts(t, script);
    assert ([TOKEN_PREFIX] + (t.category + b))[1..] == t.category + b;
    TakeBytesAppend(t.category, b);
    assert b[1..] == fields;
    TokenFieldsRoundTrip(t, script);
  }

  // ---------------------------------------------------------------- outputs

  /** Every length that is written fits the signed 64-bit integer it is read back into. */
  predicate Sized(o: TxOutput) {
    |o.script| < 0x4000_0000_0000_0000 && (o.token.Some? ==> ValidToken(o.token.value))
  }

  lemma FieldLengths(t: TokenInfo)
    requires ValidToken(t)
    ensures |EncodeTokenPrefix(t)| <= 100
  {
  }

  function Wrapped(o: TxOutput): (r: Bytes)
    requires Sized(o)
    ensures |r| < 0x8000_0000_0000_0000
  {
    match o.token
    case None => o.script
    case Some(t) => FieldLengths(t); EncodeTokenPrefix(t) + o.script
  }

  function EncodeOutput(o: TxOutput): Bytes
    requires Sized(o)
  {
    LE(ToUnsigned(o.value), 8) + VarBytes(Wrapped(o))
  }

  /** The output as the parser splits it, or none when it is read as a malformed token. */
  function SplitOutput(value: int64, wrapped: Bytes): Option<TxOutput> {
    match SplitTokenPrefix(wrapped)
    case None => None
    case Some((token, script)) => Some(TxOutput(value, script, token))
  }

  function TakeOutput(b: Bytes): Option<(TxOutput, Bytes)> {
    match TakeInt64(b)
    case None => None
    case Some((value, b1)) =>
      match TakeVarBytes(b1)
      case None => None
      case Some((wrapped, b2)) =>
        match SplitOutput(value, wrapped)
        case None => None
        case Some(o) => Some((o, b2))
  }

  /** A plain script that begins with the token prefix byte is taken for a token. */
  predicate Unambiguous(o: TxOutput) {
    o.token.None? ==> (o.script == [] || o.script[0] != TOKEN_PREFIX)
  }

  /** An output is split back into itself exactly when it is unambiguous. */
  lemma SplitOutputExactly(o: TxOutput)
    requires Sized(o)
    ensures SplitOutput(o.value, Wrapped(o)) == Some(o) <==> Unambiguous(o)
  {
    match o.token {
      case None =>
      case Some(t) => TokenRoundTrip(t, o.script);
    }
  }

  lemma OutputRoundTrip(o: TxOutput, rest: Bytes)
    requires Sized(o)
    ensures TakeOutput(EncodeOutput(o) + rest) ==
      match SplitOutput(o.value, Wrapped(o)) case None => None case Some(p) => Some((p, rest))
  {
    var w := VarBytes(Wrapped(o));
    assert EncodeOutput(o) + rest == LE(ToUnsigned(o.value), 8) + (w + rest);
    Int64RoundTrip(o.value, w + rest);
    VarBytesRoundTrip(Wrapped(o), rest);
  }

  /** Each output in wire form. */
  function OutputParts(os: seq<TxOutput>): (r: seq<Bytes>)
    requires forall o :: o in os ==> Sized(o)
    ensures |r| == |os|
  {
    seq(|os|, i requires 0 <= i < |os| => EncodeOutput(os[i]))
  }

  /** Each output as the parser will see it. */
  function SplitEach(os: seq<TxOutput>): (r: seq<Option<TxOutput>>)
    requires forall o :: o in os ==> Sized(o)
    ensures |r| == |os| && forall i :: 0 <= i < |r| ==> r[i] == SplitOutput(os[i].value, Wrapped(os[i]))
  {
    seq(|os|, i requires 0 <= i < |os| => SplitOutput(os[i].value, Wrapped(os[i])))
  }

  lemma OutputReads(o: TxOutput)
    requires Sized(o)
    ensures Reads(TakeOutput, EncodeOutput(o), SplitOutput(o.value, Wrapped(o)))
  {
    forall rest: Bytes {
      OutputRoundTrip(o, rest);
    }
  }

  lemma OutputsRoundTrip(os: seq<TxOutput>, rest: Bytes)
    requires forall o :: o in os ==> Sized(o)
    ensures TakeMany(TakeOutput, Concat(OutputParts(os)) + rest, |os|)
         == if AllOf(SplitEach(os)).Some? then Some((AllOf(SplitEach(os)).value, rest)) else None
  {
    forall i | 0 <= i < |os| ensures Reads(TakeOutput, OutputParts(os)[i], SplitEach(os)[i]) {
      OutputReads(os[i]);
    }
    TakeManyRoundTrip(TakeOutput, OutputParts(os), SplitEach(os), rest);
  }

  lemma SplitEachExactly(os: seq<TxOutput>)
    requires forall o :: o in os ==> Sized(o)
    ensures AllOf(SplitEach(os)) == Some(os) <==> forall o :: o in os ==> Unambiguous(o)
  {
    AllOfValues(SplitEach(os), os);
    forall i | 0 <= i < |os| ensures SplitEach(os)[i] == Some(os[i]) <==> Unambiguous(os[i]) {
      SplitOutputExactly(os[i]);
    }
  }

  // ---------------------------------------------------------------- inputs

  function EncodeInput(i: TxInput, unlocking: Bytes): Bytes
    requires |unlocking| < 0x8000_0000_0000_0000
  {
    i.prevTxId + LE(i.prevIndex, 4) + VarBytes(unlocking) + LE(i.sequence, 4)
  }

  function TakeInput(b: Bytes): Option<(ParsedInput, Bytes)> {
    match TakeBytes(b, 32)
    case None => None
    case Some((prevTxId, b1)) =>
      match TakeUint32(b1)
      case None => None
      case Some((index, b2)) =>
        match TakeVarBytes(b2)
        case None => None
        case Some((script, b3)) =>
          match TakeUint32(b3)
          case None => None
          case Some((sequence, b4)) => Some((ParsedInput(prevTxId, index), b4))
  }

  lemma InputRoundTrip(i: TxInput, unlocking: Bytes, rest: Bytes)
    requires |i.prevTxId| == 32 && |unlocking| < 0x8000_0000_0000_0000
    ensures TakeInput(EncodeInput(i, unlocking) + rest) == Some((ParsedInput(i.prevTxId, i.prevIndex), rest))
  {
    var b3 := LE(i.sequence, 4) + rest;
    var b2 := VarBytes(unlocking) + b3;
    var b1 := LE(i.prevIndex, 4) + b2;
    assert EncodeInput(i, unlocking) + rest == i.prevTxId + b1;
    TakeBytesAppend(i.prevTxId, b1);
    Uint32RoundTrip(i.prevIndex, b2);
    VarBytesRoundTrip(unlocking, b3);
    Uint32RoundTrip(i.sequence, rest);
  }

  /** One unlocking script per input, each of a length that can be read back. */
  predicate Unlocks(inputs: seq<TxInput>, unlocking: seq<Bytes>) {
    |unlocking| == |inputs| && forall u :: u in unlocking ==> |u| < 0x8000_0000_0000_0000
  }

  function InputParts(inputs: seq<TxInput>, unlocking: seq<Bytes>): (r: seq<Bytes>)
    requires Unlocks(inputs, unlocking)
    ensures |r| == |inputs|
  {
    seq(|inputs|, i requires 0 <= i < |inputs| => EncodeInput(inputs[i], unlocking[i]))
  }

  function Outpoints(inputs: seq<TxInput>): (r: seq<ParsedInput>)
    ensures |r| == |inputs|
  {
    seq(|inputs|, i requires 0 <= i < |inputs| => ParsedInput(inputs[i].prevTxId, inputs[i].prevIndex))
  }

  lemma InputReads(i: TxInput, unlocking: Bytes)
    requires |i.prevTxId| == 32 && |unlocking| < 0x8000_0000_0000_0000
    ensures Reads(TakeInput, EncodeInput(i, unlocking), Some(ParsedInput(i.prevTxId, i.prevIndex)))
  {
    forall rest: Bytes {
      InputRoundTrip(i, unlocking, rest);
    }
  }

  lemma InputsRoundTrip(inputs: seq<TxInput>, unlocking: seq<Bytes>, rest: Bytes)
    requires Unlocks(inputs, unlocking) && forall i :: i in inputs ==> |i.prevTxId| == 32
    ensures TakeMany(TakeInput, Concat(InputParts(inputs, unlocking)) + rest, |inputs|)
         == Some((Outpoints(inputs), rest))
  {
    var points := Outpoints(inputs);
    var rs := seq(|inputs|, i requires 0 <= i < |inputs| => Some(points[i]));
    forall i | 0 <= i < |inputs| ensures Reads(TakeInput, InputParts(inputs, unlocking)[i], rs[i]) {
      InputReads(inputs[i], unlocking[i]);
    }
    TakeManyRoundTrip(TakeInput, InputParts(inputs, unlocking), rs, rest);
    AllOfValues(rs, points);
  }

  // ---------------------------------------------------------------- whole transactions

  predicate Encodable(tx: Transaction, unlocking: seq<Bytes>) {
    && |tx.inputs| < 0x1_0000_0000_0000_0000 && |tx.outputs| < 0x1_0000_0000_0000_0000
    && Unlocks(tx.inputs, unlocking)
    && (forall o :: o in tx.outputs ==> Sized(o))
  }

  function EncodeTail(tx: Transaction): Bytes
    requires |tx.outputs| < 0x1_0000_0000_0000_0000 && forall o :: o in tx.outputs ==> Sized(o)
  {
    VarInt(|tx.outputs|) + (Concat(OutputParts(tx.outputs)) + LE(tx.lockTime, 4))
  }

  function Encode(tx: Transaction, unlocking: seq<Bytes>): Bytes
    requires Encodable(tx, unlocking)
  {
    LE(tx.version, 4) + (VarInt(|tx.inputs|) + (Concat(InputParts(tx.inputs, unlocking)) + EncodeTail(tx)))
  }

  function TakeAllOutputs(b: Bytes): Option<seq<TxOutput>> {
    match TakeVarInt(b)
    case None => None
    case Some((n, rest)) =>
      match TakeMany(TakeOutput, rest, n)
      case None => None
      case Some((outputs, lockTime)) => Some(outputs)
  }

  function TakeAllInputs(b: Bytes): Option<(seq<ParsedInput>, Bytes)> {
    match TakeVarInt(b)
    case None => None
    case Some((n, rest)) => TakeMany(TakeInput, rest, n)
  }

  /** The lock time and anything after it is not looked at. */
  function ParseTx(raw: Bytes): Option<ParsedTx> {
    match TakeUint32(raw)
    case None => None
    case Some((version, b1)) =>
      match TakeAllInputs(b1)
      case None => None
      case Some((inputs, b2)) =>
        match TakeAllOutputs(b2)
        case None => None
        case Some(outputs) => Some(ParsedTx(inputs, outputs))
  }

  lemma TailParses(tx: Transaction)
    requires |tx.outputs| < 0x1_0000_0000_0000_0000 && forall o :: o in tx.outputs ==> Sized(o)
    ensures TakeAllOutputs(EncodeTail(tx)) == AllOf(SplitEach(tx.outputs))
  {
    var rest := Concat(OutputParts(tx.outputs)) + LE(tx.lockTime, 4);
    VarIntRoundTrip(|tx.outputs|, rest);
    OutputsRoundTrip(tx.outputs, LE(tx.lockTime, 4));
  }

  lemma HeadParses(tx: Transaction, unlocking: seq<Bytes>, rest: Bytes)
    requires Encodable(tx, unlocking) && forall i :: i in tx.inputs ==> |i.prevTxId| == 32
    ensures TakeAllInputs(VarInt(|tx.inputs|) + (Concat(InputParts(tx.inputs, unlocking)) + rest))
         == Some((Outpoints(tx.inputs), rest))
  {
    VarIntRoundTrip(|tx.inputs|, Concat(InputParts(tx.inputs, unlocking)) + rest);
    InputsRoundTrip(tx.inputs, unlocking, rest);
  }

  /** What the parser makes of serialized bytes, for every transaction with 32-byte prevouts. */
  lemma ParseOfEncode(tx: Transaction, unlocking: seq<Bytes>)
    requires Encodable(tx, unlocking) && forall i :: i in tx.inputs ==> |i.prevTxId| == 32
    ensures ParseTx(Encode(tx, unlocking)) ==
      if AllOf(SplitEach(tx.outputs)).None? then None
      else Some(ParsedTx(Outpoints(tx.inputs), AllOf(SplitEach(tx.outputs)).value))
  {
    var b1 := VarInt(|tx.inputs|) + (Concat(InputParts(tx.inputs, unlocking)) + EncodeTail(tx));
    Uint32RoundTrip(tx.version, b1);
    HeadParses(tx, unlocking, EncodeTail(tx));
    TailParses(tx);
  }

  /** Parsing recovers every outpoint, value, script and token, exactly when no plain script starts with 0xef. */
  lemma TransactionRoundTrip(tx: Transaction, unlocking: seq<Bytes>)
    requires Encodable(tx, unlocking) && forall i :: i in tx.inputs ==> |i.prevTxId| == 32
    ensures ParseTx(Encode(tx, unlocking)) == Some(ParsedTx(Outpoints(tx.inputs), tx.outputs))
       <==> forall o :: o in tx.outputs ==> Unambiguous(o)
  {
    ParseOfEncode(tx, unlocking);
    SplitEachExactly(tx.outputs);
  }

  /** A transaction with one output whose script is the single byte 0xef is written and cannot be read back. */
  lemma LonePrefixByteFails(txid: Bytes, unlocking: Bytes)
    requires |txid| == 32 && |unlocking| < 0x8000_0000_0000_0000
    ensures var tx := Transaction(2, [TxInput(txid, 0, 0xffff_ffff)], [TxOutput(0, [TOKEN_PREFIX], None)], 0);
      Encodable(tx, [unlocking]) && ParseTx(Encode(tx, [unlocking])) == None
  {
    hide ParseTx, Encode;
    var o := TxOutput(0, [TOKEN_PREFIX], None);
    var tx := Transaction(2, [TxInput(txid, 0, 0xffff_ffff)], [o], 0);
    assert o.script[1..] == [];
    assert SplitOutput(o.value, Wrapped(o)) == None;
    assert SplitEach([o])[0] == None;
    ParseOfEncode(tx, [unlocking]);
  }

  // ---------------------------------------------------------------- the reading and writing code

  method ReadInput(reader: ByteReader) returns (r: Option<ParsedInput>)
    requires reader.Valid()
    modifies reader
    ensures reader.Valid()
    ensures match TakeInput(old(reader.Rest())) case None => r == None
            case Some((v, rest)) => r == Some(v) && reader.Rest() == rest
  {
    var prevId := reader.ReadBytes(32);
    if prevId.None? { return None; }
    var idx := reader.ReadUint32();
    if idx.None? { return None; }
    var script := reader.ReadVarBytes();
    if script.None? { return None; }
    var sequence := reader.ReadUint32();
    if sequence.None? { return None; }
    r := Some(ParsedInput(prevId.value, idx.value));
  }

  method ReadOutput(reader: ByteReader) returns (r: Option<TxOutput>)
    requires reader.Valid()
    modifies reader
    ensures reader.Valid()
    ensures match TakeOutput(old(reader.Rest())) case None => r == None
            case Some((v, rest)) => r == Some(v) && reader.Rest() == rest
  {
    var value := reader.ReadInt64();
    if value.None? { return None; }
    var wrapped := reader.ReadVarBytes();
    if wrapped.None? { return None; }
    var split := ReadTokenPrefix(wrapped.value);
    if split.None? { return None; }
    r := Some(TxOutput(value.value, split.value.1, split.value.0));
  }

  method ReadInputs(reader: ByteReader) returns (r: Option<seq<ParsedInput>>)
    requires reader.Valid()
    modifies reader
    ensures reader.Valid()
    ensures match TakeAllInputs(old(reader.Rest())) case None => r == None
            case Some((v, rest)) => r == Some(v) && reader.Rest() == rest
  {
    var n := reader.ReadVarInt();
    if n.None? { return None; }
    ghost var start := reader.Rest();
    var inputs := [];
    for i := 0 to n.value
      invariant reader.Valid() && TakeMany(TakeInput, start, i) == Some((inputs, reader.Rest()))
    {
      TakeManyStep(TakeInput, start, i, inputs, reader.Rest());
      var input := ReadInput(reader);
      if input.None? {
        TakeManyStops(TakeInput, start, i + 1, n.value);
        return None;
      }
      inputs := inputs + [input.value];
    }
    r := Some(inputs);
  }

  method ReadOutputs(reader: ByteReader) returns (r: Option<seq<TxOutput>>)
    requires reader.Valid()
    modifies reader
    ensures r == TakeAllOutputs(old(reader.Rest()))
  {
    var n := reader.ReadVarInt();
    if n.None? { return None; }
    ghost var start := reader.Rest();
    var outputs := [];
    for i := 0 to n.value
      invariant reader.Valid() && TakeMany(TakeOutput, start, i) == Some((outputs, reader.Rest()))
    {
      TakeManyStep(TakeOutput, start, i, outputs, reader.Rest());
      var output := ReadOutput(reader);
      if output.None? {
        TakeManyStops(TakeOutput, start, i + 1, n.value);
        return None;
      }
      outputs := outputs + [output.value];
    }
    r := Some(outputs);
  }

  method ReadTx(raw: Bytes) returns (r: Option<ParsedTx>)
    ensures r == ParseTx(raw)
  {
    var reader := new ByteReader(raw, 0);
    assert reader.Rest() == raw;
    var version := reader.ReadUint32();
    if version.None? { return None; }
    var inputs := ReadInputs(reader);
    if inputs.None? { return None; }
    var outputs := ReadOutputs(reader);
    if outputs.None? { return None; }
    r := Some(ParsedTx(inputs.value, outputs.value));
  }

  method WriteInput(buf: Buffer, i: TxInput, unlocking: Bytes)
    requires |unlocking| < 0x8000_0000_0000_0000
    modifies buf
    ensures buf.data == old(buf.data) + EncodeInput(i, unlocking)
  {
    buf.Write(i.prevTxId);
    buf.Write(LE(i.prevIndex, 4));
    buf.PutVarBytes(unlocking);
    buf.Write(LE(i.sequence, 4));
  }

  method WriteInputs(buf: Buffer, inputs: seq<TxInput>, unlocking: seq<Bytes>)
    requires Unlocks(inputs, unlocking)
    modifies buf
    ensures buf.data == old(buf.data) + Concat(InputParts(inputs, unlocking))
  {
    ghost var start, parts := buf.data, InputParts(inputs, unlocking);
    for i := 0 to |inputs|
      invariant buf.data == start + Concat(parts[..i])
    {
      WriteInput(buf, inputs[i], unlocking[i]);
      ConcatPrefix(parts, i);
      AppendTwice(start, Concat(parts[..i]), parts[i]);
    }
    assert parts[..|inputs|] == parts;
  }

  lemma AppendTwice(a: Bytes, b: Bytes, c: Bytes)
    ensures (a + b) + c == a + (b + c)
  {
  }

  /** The token prefix if there is one, then the locking bytecode. */
  method WrapOutput(o: TxOutput) returns (wrapped: Bytes)
    requires Sized(o)
    ensures wrapped == Wrapped(o)
  {
    wrapped := [];
    if o.token.Some? {
      wrapped := EncodeTokenPrefix(o.token.value);
    }
    wrapped := wrapped + o.script;
  }

  method WriteOutput(buf: Buffer, o: TxOutput)
    requires Sized(o)
    modifies buf
    ensures buf.data == old(buf.data) + EncodeOutput(o)
  {
    var value := LE(ToUnsigned(o.value), 8);
    var wrapped := WrapOutput(o);
    buf.Write(value);
    buf.PutVarBytes(wrapped);
    AppendTwice(old(buf.data), value, VarBytes(wrapped));
  }

  lemma ConcatPrefix(parts: seq<Bytes>, i: nat)
    requires i < |parts|
    ensures Concat(parts[..i + 1]) == Concat(parts[..i]) + parts[i]
  {
    assert parts[..i + 1] == parts[..i] + [parts[i]];
    ConcatStep(parts[..i], parts[i]);
  }

  method WriteOutputs(buf: Buffer, outputs: seq<TxOutput>)
    requires forall o :: o in outputs ==> Sized(o)
    modifies buf
    ensures buf.data == old(buf.data) + Concat(OutputParts(outputs))
  {
    ghost var start, parts := buf.data, OutputParts(outputs);
    for i := 0 to |outputs|
      invariant buf.data == start + Concat(parts[..i])
    {
      WriteOutput(buf, outputs[i]);
      ConcatPrefix(parts, i);
      AppendTwice(start, Concat(parts[..i]), parts[i]);
    }
    assert parts[..|outputs|] == parts;
  }

  /** Refused when the unlocking scripts do not match the inputs or a token breaks the consensus rules. */
  method Serialize(tx: Transaction, unlocking: seq<Bytes>) returns (r: Option<Bytes>)
    requires |tx.inputs| < 0x1_0000_0000_0000_0000 && |tx.outputs| < 0x1_0000_0000_0000_0000
    requires forall o :: o in tx.outputs ==> |o.script| < 0x4000_0000_0000_0000
    requires forall u :: u in unlocking ==> |u| < 0x8000_0000_0000_0000
    ensures r == if Encodable(tx, unlocking) then Some(Encode(tx, unlocking)) else None
  {
    if |unlocking| != |tx.inputs| {
      return None;
    }
    var valid := TokensValid(tx.outputs);
    if !valid {
      return None;
    }
    var buf := new Buffer();
    buf.Write(LE(tx.version, 4));
    buf.PutVarInt(|tx.inputs|);
    WriteInputs(buf, tx.inputs, unlocking);
    buf.PutVarInt(|tx.outputs|);
    WriteOutputs(buf, tx.outputs);
    buf.Write(LE(tx.lockTime, 4));
    FieldsInOrder(LE(tx.version, 4), VarInt(|tx.inputs|), Concat(InputParts(tx.inputs, unlocking)),
                  VarInt(|tx.outputs|), Concat(OutputParts(tx.outputs)), LE(tx.lockTime, 4));
    r := Some(buf.data);
  }

  lemma FieldsInOrder(a: Bytes, b: Bytes, c: Bytes, d: Bytes, e: Bytes, f: Bytes)
    ensures [] + a + b + c + d + e + f == a + (b + (c + (d + (e + f))))
  {
  }

  method TokensValid(outputs: seq<TxOutput>) returns (ok: bool)
    requires forall o :: o in outputs ==> |o.script| < 0x4000_0000_0000_0000
    ensures ok <==> forall o :: o in outputs ==> Sized(o)
  {
    for i := 0 to |outputs|
      invariant forall k :: 0 <= k < i ==> Sized(outputs[k])
    {
      if outputs[i].token.Some? && !ValidToken(outputs[i].token.value) {
        assert !Sized(outputs[i]);
        return false;
      }
    }
    ok := true;
  }
}
