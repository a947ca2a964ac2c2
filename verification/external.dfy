/**
 * The foreign primitives the transaction code calls but does not define:
 * the RLP encoder, the sha3 (Keccak-256) digest, secp256k1 signing, address
 * derivation, key normalization and hex formatting.  They are passed to the
 * operations as one value, so every result below holds for whatever these
 * functions compute; only their shapes are fixed.
 */
module External {
  import opened ByteOrder
  import opened FieldList

  /** A sha3 digest: always 32 bytes. */
  type Digest = s: Bytes | |s| == 32 witness seq(32, _ => 0)

  /** An account address: 20 bytes. */
  type Address = s: Bytes | |s| == 20 witness seq(20, _ => 0)

  datatype Primitives = Primitives(
    /** `rlp.encode` of a serializable object: its field values in declared order. */
    rlpEncode: seq<FieldValue> -> Bytes,
    /** `utils.sha3` */
    sha3: Bytes -> Digest,
    /** `utils.ecsign(rawhash, key)`: the raw (v, r, s), v in the 27-based convention. */
    ecsign: (Digest, Bytes) -> (int, int, int),
    /** `utils.privtoaddr` */
    privtoaddr: Bytes -> Address,
    /** `utils.normalize_key` */
    normalizeKey: Bytes -> Bytes,
    /** `utils.encode_hex` on a byte string: lower-case hex digits, no prefix. */
    encodeHex: Bytes -> string
  )

  /** A value list of the shape `Transaction.fields` declares: nine values, each fitting its sedes. */
  predicate FitsTransactionFields(values: seq<FieldValue>)
  {
    |values| == |TransactionFields| && forall i | 0 <= i < |values| :: Fits(TransactionFields[i].1, values[i])
  }

  /**
   * The RLP encoder is injective over value lists of the declared field types,
   * as a canonical encoding must be.  (Across types it is not: the integer 0
   * and the empty byte string encode alike.)
   */
  ghost predicate EncodingInjective(p: Primitives)
  {
    forall a, b {:trigger p.rlpEncode(a), p.rlpEncode(b)}
      | FitsTransactionFields(a) && FitsTransactionFields(b)
      :: p.rlpEncode(a) == p.rlpEncode(b) ==> a == b
  }
}
