/** Hashes, locking scripts and the tags of name transactions (internal/bch/bchtx.go, internal/bch/marker.go). */
module Script {
  import opened Bytes

  type Hash20 = b: Bytes | |b| == 20 witness Zeroes(20)
  type Hash32 = b: Bytes | |b| == 32 witness Zeroes(32)

  function Zeroes(n: nat): (r: Bytes)
    ensures |r| == n
  {
    seq(n, i => 0)
  }

  /** RIPEMD-160 of SHA-256, and double SHA-256; nothing but the lengths is assumed. */
  const Hash160: Bytes -> Hash20
  const TxId: Bytes -> Hash32

  /** Whether bytes unmarshal as an owner's public key. */
  const KeyParses: Bytes -> bool

  const OP_DUP: byte := 0x76
  const OP_HASH160: byte := 0xa9
  const OP_EQUALVERIFY: byte := 0x88
  const OP_CHECKSIG: byte := 0xac

  const FN_CLAIM: Bytes := [0x46, 0x4e, 0x30, 0x31]
  const FN_REBIND: Bytes := [0x46, 0x4e, 0x30, 0x32]
  const FN_COLON: Bytes := [0x46, 0x4e, 0x3a]

  function P2pkhScript(pkh: Hash20): Bytes {
    [OP_DUP, OP_HASH160, 20] + pkh + [OP_EQUALVERIFY, OP_CHECKSIG]
  }

  /** The script that every transaction about a name pays dust to. */
  function MarkerScript(name: Bytes): Bytes {
    P2pkhScript(Hash160(FN_COLON + name))
  }
}
