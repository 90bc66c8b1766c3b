/** OP_RETURN scripts: data pushes written and read back (internal/bch/bchtx.go). */
module OpReturn {
  import opened Bytes
  import opened LittleEndian

  const OP_RETURN: byte := 0x6a
  const OP_PUSHDATA1: byte := 0x4c
  const OP_PUSHDATA2: byte := 0x4d
  const MAX_PUSH: nat := 65535

  /** The opcode and length written before a push; a two-byte length is truncated to sixteen bits. */
  function PushHeader(n: nat): Bytes {
    if n < OP_PUSHDATA1 then [n]
    else if n <= 0xff then [OP_PUSHDATA1, n]
    else [OP_PUSHDATA2, n % 256, n / 256 % 256]
  }

  function Push(p: Bytes): Bytes {
    PushHeader(|p|) + p
  }

  function Pushes(ps: seq<Bytes>): Bytes {
    if ps == [] then [] else Push(ps[0]) + Pushes(ps[1..])
  }

  function OpReturnScript(ps: seq<Bytes>): Bytes {
    [OP_RETURN] + Pushes(ps)
  }

  method AppendPush(s: Bytes, p: Bytes) returns (r: Bytes)
    ensures r == s + Push(p)
  {
    if |p| < OP_PUSHDATA1 {
      r := s + [|p|];
    } else if |p| <= 0xff {
      r := s + [OP_PUSHDATA1, |p|];
    } else {
      r := s + [OP_PUSHDATA2, |p| % 256, |p| / 256 % 256];
    }
    r := r + p;
  }

  method BuildOpReturn(ps: seq<Bytes>) returns (s: Bytes)
    ensures s == OpReturnScript(ps)
  {
    s := [OP_RETURN];
    for i := 0 to |ps|
      invariant OpReturnScript(ps) == s + Pushes(ps[i..])
    {
      assert ps[i..][1..] == ps[i + 1..];
      s := AppendPush(s, ps[i]);
    }
    assert ps[|ps|..] == [];
  }

  function TwoBytes(lo: byte, hi: byte): nat {
    lo + 256 * hi
  }

  /** The declared length of the push at the front, and the bytes after its header. */
  function TakeHeader(b: Bytes): Option<(nat, Bytes)> {
    if b == [] then None
    else if b[0] < OP_PUSHDATA1 then Some((b[0], b[1..]))
    else if b[0] == OP_PUSHDATA1 then if |b| < 2 then None else Some((b[1], b[2..]))
    else if b[0] == OP_PUSHDATA2 then if |b| < 3 then None else Some((TwoBytes(b[1], b[2]), b[3..]))
    else None
  }

  function TakePush(b: Bytes): Option<(Bytes, Bytes)> {
    match TakeHeader(b)
    case None => None
    case Some((n, rest)) => TakeBytes(rest, n)
  }

  /** All pushes up to the end or the first opcode or length that does not fit. */
  function ParsePushes(b: Bytes): seq<Bytes>
    decreases |b|
  {
    match TakePush(b)
    case None => []
    case Some((p, rest)) => [p] + ParsePushes(rest)
  }

  function ParseOpReturn(script: Bytes): seq<Bytes> {
    if script == [] || script[0] != OP_RETURN then [] else ParsePushes(script[1..])
  }

  method ReadHeader(reader: ByteReader) returns (r: Option<nat>)
    requires reader.Valid()
    modifies reader
    ensures reader.Valid()
    ensures match TakeHeader(old(reader.Rest())) case None => r == None
            case Some((n, rest)) => r == Some(n) && reader.Rest() == rest
  {
    var op := reader.ReadByte();
    if op.None? { return None; }
    if op.value < OP_PUSHDATA1 {
      return op;
    } else if op.value == OP_PUSHDATA1 {
      r := reader.ReadByte();
    } else if op.value == OP_PUSHDATA2 {
      var lo := reader.ReadByte();
      if lo.None? { return None; }
      var hi := reader.ReadByte();
      if hi.None? { return None; }
      r := Some(TwoBytes(lo.value, hi.value));
    } else {
      r := None;
    }
  }

  method ReadPush(reader: ByteReader) returns (r: Option<Bytes>)
    requires reader.Valid()
    modifies reader
    ensures reader.Valid()
    ensures match TakePush(old(reader.Rest())) case None => r == None
            case Some((p, rest)) => r == Some(p) && reader.Rest() == rest && |rest| < |old(reader.Rest())|
  {
    var n := ReadHeader(reader);
    if n.None? { return None; }
    r := reader.ReadBytes(n.value);
  }

  lemma ParseStep(b: Bytes)
    ensures ParsePushes(b) == match TakePush(b) case None => [] case Some((p, rest)) => [p] + ParsePushes(rest)
  {
  }

  method ReadOpReturn(script: Bytes) returns (pushes: seq<Bytes>)
    ensures pushes == ParseOpReturn(script)
  {
    hide TakePush, ParsePushes;
    pushes := [];
    if |script| == 0 || script[0] != OP_RETURN {
      return;
    }
    var reader := new ByteReader(script, 1);
    while reader.pos < |script|
      invariant reader.Valid() && reader.buf == script
      invariant ParsePushes(script[1..]) == pushes + ParsePushes(reader.Rest())
      decreases |reader.Rest()|
    {
      ParseStep(reader.Rest());
      var data := ReadPush(reader);
      if data.None? { return; }
      pushes := pushes + [data.value];
    }
    ParseNothing(reader.Rest());
  }

  lemma ParseNothing(b: Bytes)
    requires b == []
    ensures ParsePushes(b) == []
  {
  }

  lemma HeaderRoundTrip(n: nat, rest: Bytes)
    ensures TakeHeader(PushHeader(n) + rest) == Some((if n <= MAX_PUSH then n else n % 65536, rest))
  {
    var h := PushHeader(n);
    assert (h + rest)[|h|..] == rest;
    if n > 0xff {
      assert n % 256 + 256 * (n / 256 % 256) == n % 65536;
    }
  }

  lemma PushRoundTrip(p: Bytes, rest: Bytes)
    ensures var n := if |p| <= MAX_PUSH then |p| else |p| % 65536;
            TakePush(Push(p) + rest) == Some((p[..n], p[n..] + rest))
  {
    var n := if |p| <= MAX_PUSH then |p| else |p| % 65536;
    assert Push(p) + rest == PushHeader(|p|) + (p + rest);
    HeaderRoundTrip(|p|, p + rest);
    assert (p + rest)[..n] == p[..n] && (p + rest)[n..] == p[n..] + rest;
  }

  lemma {:induction false} PushesRoundTrip(ps: seq<Bytes>)
    ensures ParsePushes(Pushes(ps)) == ps <==> forall p :: p in ps ==> |p| <= MAX_PUSH
  {
    if ps != [] {
      PushRoundTrip(ps[0], Pushes(ps[1..]));
      PushesRoundTrip(ps[1..]);
      assert ps == [ps[0]] + ps[1..];
      if |ps[0]| <= MAX_PUSH {
        assert ps[0][..|ps[0]|] == ps[0] && ps[0][|ps[0]|..] + Pushes(ps[1..]) == Pushes(ps[1..]);
        SameHead(ps[0], ParsePushes(Pushes(ps[1..])), ps[1..]);
      } else {
        assert ParsePushes(Pushes(ps))[0] != ps[0];
      }
    }
  }

  lemma SameHead(x: Bytes, a: seq<Bytes>, b: seq<Bytes>)
    ensures [x] + a == [x] + b <==> a == b
  {
    if [x] + a == [x] + b {
      assert a == ([x] + a)[1..] == b;
    }
  }

  /** A script gives its pushes back exactly when none is longer than 65535 bytes. */
  lemma OpReturnRoundTrip(ps: seq<Bytes>)
    ensures ParseOpReturn(OpReturnScript(ps)) == ps <==> forall p :: p in ps ==> |p| <= MAX_PUSH
  {
    assert OpReturnScript(ps)[1..] == Pushes(ps);
    PushesRoundTrip(ps);
  }
}
