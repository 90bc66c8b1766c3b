/** A reader of raw transactions that keeps every field, against which the serializer is proved
    (internal/bch/bchtx.go). */
module RawTx {
  import opened Bytes
  import opened LittleEndian
  import opened BchTx

  datatype RawInput = RawInput(prevTxId: Bytes, prevIndex: uint32, script: Bytes, sequence: uint32)

  /** The script of an output as it stands in the bytes, token prefix included. */
  datatype RawOutput = RawOutput(value: int64, wrapped: Bytes)

  datatype RawTransaction =
    RawTransaction(version: uint32, inputs: seq<RawInput>, outputs: seq<RawOutput>, lockTime: uint32)

  function TakeRawInput(b: Bytes): Option<(RawInput, Bytes)> {
    match TakeBytes(b, 32)
    case None => None
    case Some((prevTxId, b1)) =>
      match TakeUint32(b1)
      case None => None
      case Some((prevIndex, b2)) =>
        match TakeVarBytes(b2)
        case None => None
        case Some((script, b3)) =>
          match TakeUint32(b3)
          case None => None
          case Some((sequence, b4)) => Some((RawInput(prevTxId, prevIndex, script, sequence), b4))
  }

  function TakeRawOutput(b: Bytes): Option<(RawOutput, Bytes)> {
    match TakeInt64(b)
    case None => None
    case Some((value, b1)) =>
      match TakeVarBytes(b1)
      case None => None
      case Some((wrapped, b2)) => Some((RawOutput(value, wrapped), b2))
  }

  /** A counted list. */
  function TakeList<T>(p: Bytes -> Option<(T, Bytes)>, b: Bytes): Option<(seq<T>, Bytes)> {
    match TakeVarInt(b)
    case None => None
    case Some((n, rest)) => TakeMany(p, rest, n)
  }

  /** Version, inputs, outputs, lock time. */
  function TakeRawTx(b: Bytes): Option<(RawTransaction, Bytes)> {
    match TakeUint32(b)
    case None => None
    case Some((version, b1)) =>
      match TakeList(TakeRawInput, b1)
      case None => None
      case Some((inputs, b2)) =>
        match TakeList(TakeRawOutput, b2)
        case None => None
        case Some((outputs, b3)) =>
          match TakeUint32(b3)
          case None => None
          case Some((lockTime, b4)) => Some((RawTransaction(version, inputs, outputs, lockTime), b4))
  }

  // ---------------------------------------------------------------- what the serializer writes

  function InputsWith(inputs: seq<TxInput>, unlocking: seq<Bytes>): (r: seq<RawInput>)
    requires |unlocking| == |inputs|
    ensures |r| == |inputs|
  {
    seq(|inputs|, i requires 0 <= i < |inputs| =>
      RawInput(inputs[i].prevTxId, inputs[i].prevIndex, unlocking[i], inputs[i].sequence))
  }

  function OutputsWrapped(os: seq<TxOutput>): (r: seq<RawOutput>)
    requires forall o :: o in os ==> Sized(o)
    ensures |r| == |os|
  {
    seq(|os|, i requires 0 <= i < |os| => RawOutput(os[i].value, Wrapped(os[i])))
  }

  lemma RawInputReads(i: TxInput, unlocking: Bytes)
    requires |i.prevTxId| == 32 && |unlocking| < 0x8000_0000_0000_0000
    ensures Reads(TakeRawInput, EncodeInput(i, unlocking),
                  Some(RawInput(i.prevTxId, i.prevIndex, unlocking, i.sequence)))
  {
    forall rest: Bytes
      ensures TakeRawInput(EncodeInput(i, unlocking) + rest)
           == Some((RawInput(i.prevTxId, i.prevIndex, unlocking, i.sequence), rest))
    {
      var b3 := LE(i.sequence, 4) + rest;
      var b2 := VarBytes(unlocking) + b3;
      var b1 := LE(i.prevIndex, 4) + b2;
      assert EncodeInput(i, unlocking) + rest == i.prevTxId + b1;
      TakeBytesAppend(i.prevTxId, b1);
      Uint32RoundTrip(i.prevIndex, b2);
      VarBytesRoundTrip(unlocking, b3);
      Uint32RoundTrip(i.sequence, rest);
    }
  }

  lemma RawOutputReads(o: TxOutput)
    requires Sized(o)
    ensures Reads(TakeRawOutput, EncodeOutput(o), Some(RawOutput(o.value, Wrapped(o))))
  {
    hide Wrapped, LE, VarBytes, TakeInt64, TakeVarBytes, ToUnsigned;
    forall rest: Bytes ensures TakeRawOutput(EncodeOutput(o) + rest) == Some((RawOutput(o.value, Wrapped(o)), rest)) {
      var b1 := VarBytes(Wrapped(o)) + rest;
      assert EncodeOutput(o) + rest == LE(ToUnsigned(o.value), 8) + b1;
      Int64RoundTrip(o.value, b1);
      VarBytesRoundTrip(Wrapped(o), rest);
    }
  }

  /** A list of elements that each read back reads back. */
  lemma ListRoundTrip<T(!new)>(p: Bytes -> Option<(T, Bytes)>, parts: seq<Bytes>, vs: seq<T>, rest: Bytes)
    requires |parts| == |vs| < 0x1_0000_0000_0000_0000
    requires forall i :: 0 <= i < |parts| ==> Reads(p, parts[i], Some(vs[i]))
    ensures TakeList(p, VarInt(|vs|) + (Concat(parts) + rest)) == Some((vs, rest))
  {
    var rs := seq(|vs|, i requires 0 <= i < |vs| => Some(vs[i]));
    VarIntRoundTrip(|vs|, Concat(parts) + rest);
    TakeManyRoundTrip(p, parts, rs, rest);
    AllOfValues(rs, vs);
  }

  lemma RawInputsRead(inputs: seq<TxInput>, unlocking: seq<Bytes>, rest: Bytes)
    requires Unlocks(inputs, unlocking) && forall i :: i in inputs ==> |i.prevTxId| == 32
    requires |inputs| < 0x1_0000_0000_0000_0000
    ensures TakeList(TakeRawInput, VarInt(|inputs|) + (Concat(InputParts(inputs, unlocking)) + rest))
         == Some((InputsWith(inputs, unlocking), rest))
  {
    hide VarInt, TakeList, EncodeInput;
    var parts, vs := InputParts(inputs, unlocking), InputsWith(inputs, unlocking);
    forall i | 0 <= i < |parts| ensures Reads(TakeRawInput, parts[i], Some(vs[i])) {
      RawInputReads(inputs[i], unlocking[i]);
    }
    ListRoundTrip(TakeRawInput, parts, vs, rest);
  }

  lemma RawOutputsRead(os: seq<TxOutput>, rest: Bytes)
    requires |os| < 0x1_0000_0000_0000_0000 && forall o :: o in os ==> Sized(o)
    ensures TakeList(TakeRawOutput, VarInt(|os|) + (Concat(OutputParts(os)) + rest)) == Some((OutputsWrapped(os), rest))
  {
    hide VarInt, TakeList, EncodeOutput, Wrapped, Sized;
    var parts, vs := OutputParts(os), OutputsWrapped(os);
    forall i | 0 <= i < |parts| ensures Reads(TakeRawOutput, parts[i], Some(vs[i])) {
      RawOutputReads(os[i]);
    }
    ListRoundTrip(TakeRawOutput, parts, vs, rest);
  }

  /** A serialized transaction reads back whole: its version, each outpoint with its own unlocking script and sequence
      number, each value with its wrapped script, the lock time, and not a byte more. */
  lemma RawRoundTrip(tx: Transaction, unlocking: seq<Bytes>, rest: Bytes)
    requires Encodable(tx, unlocking) && forall i :: i in tx.inputs ==> |i.prevTxId| == 32
    ensures TakeRawTx(Encode(tx, unlocking) + rest)
         == Some((RawTransaction(tx.version, InputsWith(tx.inputs, unlocking), OutputsWrapped(tx.outputs), tx.lockTime),
                  rest))
  {
    hide VarInt, TakeList, LE, Concat, InputParts, OutputParts, InputsWith, OutputsWrapped, TakeUint32, Sized;
    var b3 := LE(tx.lockTime, 4) + rest;
    var b2 := VarInt(|tx.outputs|) + (Concat(OutputParts(tx.outputs)) + b3);
    var b1 := VarInt(|tx.inputs|) + (Concat(InputParts(tx.inputs, unlocking)) + b2);
    assert Encode(tx, unlocking) + rest == LE(tx.version, 4) + b1;
    Uint32RoundTrip(tx.version, b1);
    RawInputsRead(tx.inputs, unlocking, b2);
    RawOutputsRead(tx.outputs, b3);
    Uint32RoundTrip(tx.lockTime, rest);
  }
}
