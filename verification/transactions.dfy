/**
 * The nine-field transaction of test/conflux/transactions.py: construction
 * with its range check, the unsigned projection that signing covers,
 * copy-on-sign with the cached sender, and the digest-based identity
 * (`==`, `!=`, `<`, `__hash__`) and dictionary view.
 */
module Transactions {
  import opened Wrappers
  import opened ByteOrder
  import opened FieldList
  import opened External
  import Signature

  datatype Error =
    | InvalidTransaction(message: string)
      /** `utils.encode_hex` refuses a value that is neither str nor bytes, such as an unset sender. */
    | HexTypeError

  const TooHighMessage: string := "Values way too high!"

  /** The field values of a `Transaction`, in declared order. */
  datatype TxRecord = TxRecord(
    nonce: int, gasPrice: int, gas: int, action: Bytes, value: int, data: Bytes,
    v: int, r: int, s: int)

  /** The field values of an `UnsignedTransaction`. */
  datatype UnsignedRecord = UnsignedRecord(
    nonce: int, gasPrice: int, gas: int, action: Bytes, value: int, data: Bytes)

  /** The range check of `__init__`: gas_price, value and nonce below 2^256; gas is not checked. */
  predicate ValuesInRange(nonce: int, gasPrice: int, value: int)
  {
    gasPrice < TT256 && value < TT256 && nonce < TT256
  }

  /** The values `rlp.encode` serializes for a transaction, matching the sedes of `Transaction.fields`. */
  function Values(t: TxRecord): (vs: seq<FieldValue>)
    ensures |vs| == |TransactionFields|
    ensures forall i | 0 <= i < |vs| :: Fits(TransactionFields[i].1, vs[i])
  {
    [Int(t.nonce), Int(t.gasPrice), Int(t.gas), Bin(t.action), Int(t.value), Bin(t.data),
     Int(t.v), Int(t.r), Int(t.s)]
  }

  /** The values `rlp.encode` serializes for an unsigned transaction, matching `UnsignedTransaction.fields`. */
  function UnsignedValues(u: UnsignedRecord): (vs: seq<FieldValue>)
    ensures |vs| == |UnsignedTransactionFields()|
    ensures forall i | 0 <= i < |vs| :: Fits(UnsignedTransactionFields()[i].1, vs[i])
  {
    UnsignedFieldsArePrefix();
    var vs := [Int(u.nonce), Int(u.gasPrice), Int(u.gas), Bin(u.action), Int(u.value), Bin(u.data)];
    assert forall i | 0 <= i < 6 :: Fits(TransactionFields[i].1, vs[i]);
    vs
  }

  /**
   * `unsigned_tx_from_tx`: the unsigned record carries exactly the values the
   * transaction holds under the names `UnsignedTransaction.fields` keeps, in
   * that order.
   */
  function UnsignedTxFromTx(t: TxRecord): (u: UnsignedRecord)
    ensures UnsignedValues(u) == Values(t)[..|UnsignedTransactionFields()|]
  {
    UnsignedFieldsArePrefix();
    UnsignedRecord(t.nonce, t.gasPrice, t.gas, t.action, t.value, t.data)
  }

  /** `rawhash` in `sign`: the digest of the encoded unsigned projection. */
  function RawHash(p: Primitives, t: TxRecord): (rawhash: Digest)
  {
    p.sha3(p.rlpEncode(UnsignedValues(UnsignedTxFromTx(t))))
  }

  /** The `hash` property: the digest of the encoding of all nine fields. */
  function TxHash(p: Primitives, t: TxRecord): (digest: Digest)
  {
    p.sha3(p.rlpEncode(Values(t)))
  }

  /**
   * The record `sign` returns: the same six unsigned fields, v the primitive's
   * v minus 27, r and s as the primitive returns them.
   */
  function Signed(p: Primitives, t: TxRecord, key: Bytes): (signed: TxRecord)
    ensures UnsignedTxFromTx(signed) == UnsignedTxFromTx(t)
    ensures var sig := p.ecsign(RawHash(p, t), p.normalizeKey(key));
      signed.v == sig.0 - 27 && signed.r == sig.1 && signed.s == sig.2
  {
    var (v, r, s) := p.ecsign(RawHash(p, t), p.normalizeKey(key));
    t.(v := v - 27, r := r, s := s)
  }

  /** A Python value on the right of `==`, `!=` or `<`: a Transaction, or anything else. */
  datatype Operand = Tx(tx: Transaction) | Other

  /** What `to_dict` stores: a field value, or a '0x'-prefixed hex string. */
  datatype DictValue = FieldEntry(field: FieldValue) | HexEntry(text: string)

  class Transaction {
    /** The nine fields, immutable once constructed. */
    const record: TxRecord
    /** `_sender`: a cache outside the encoded fields, None until set. */
    var sender: Option<Bytes>

    /** Every Transaction passed the range check of `__init__`. */
    predicate Valid()
    {
      ValuesInRange(record.nonce, record.gasPrice, record.value)
    }

    /** `__init__` once the range check has passed; v, r and s default to 0. */
    constructor Init(nonce: int, gasPrice: int, gas: int, action: Bytes, value: int, data: Bytes,
                     v: int := 0, r: int := 0, s: int := 0)
      requires ValuesInRange(nonce, gasPrice, value)
      ensures record == TxRecord(nonce, gasPrice, gas, action, value, data, v, r, s)
      ensures sender == None
      ensures Valid()
    {
      record := TxRecord(nonce, gasPrice, gas, action, value, data, v, r, s);
      sender := None;
    }

    /** `Transaction(...)`: raises `InvalidTransaction` exactly when gas_price, value or nonce is 2^256 or more. */
    static method New(nonce: int, gasPrice: int, gas: int, action: Bytes, value: int, data: Bytes,
                      v: int := 0, r: int := 0, s: int := 0)
      returns (res: Result<Transaction, Error>)
      ensures res.Failure? <==> (gasPrice >= TT256 || value >= TT256 || nonce >= TT256)
      ensures res.Failure? ==> res.error == InvalidTransaction(TooHighMessage)
      ensures res.Success? ==> fresh(res.value) && res.value.Valid() && res.value.sender == None
      ensures res.Success? ==> res.value.record == TxRecord(nonce, gasPrice, gas, action, value, data, v, r, s)
    {
      if gasPrice >= TT256 || value >= TT256 || nonce >= TT256 {
        return Failure(InvalidTransaction(TooHighMessage));
      }
      var t := new Transaction.Init(nonce, gasPrice, gas, action, value, data, v, r, s);
      return Success(t);
    }

    /** The `sender` getter. */
    function Sender(): (cached: Option<Bytes>)
      reads this
    {
      sender
    }

    /** The `sender` setter: the getter afterwards returns the value set; the fields are untouched. */
    method SetSender(value: Option<Bytes>)
      modifies this
      ensures Sender() == value
    {
      sender := value;
    }

    /**
     * `sign`: a new Transaction with the signed record and the signer's
     * address cached as its sender; this transaction, sender included, is
     * left as it was.
     */
    method Sign(p: Primitives, key: Bytes) returns (ret: Transaction)
      requires Valid()
      ensures fresh(ret) && ret.Valid()
      ensures ret.record == Signed(p, record, key)
      ensures ret.Sender() == Some(p.privtoaddr(p.normalizeKey(key)))
      ensures Sender() == old(Sender())
    {
      var rawhash := p.sha3(p.rlpEncode(UnsignedValues(UnsignedTxFromTx(record))));
      var k := p.normalizeKey(key);
      var (v, r, s) := p.ecsign(rawhash, k);
      ret := new Transaction.Init(record.nonce, record.gasPrice, record.gas, record.action,
                                  record.value, record.data, v - 27, r, s);
      ret.sender := Some(p.privtoaddr(k));
    }

    /** The `hash` property. */
    function Hash(p: Primitives): (digest: Digest)
    {
      TxHash(p, record)
    }

    /** `__hash__`: the digest read as a big-endian integer, below 2^256. */
    function HashInt(p: Primitives): (n: nat)
      ensures n < TT256
    {
      BigEndianToInt(Hash(p))
    }

    /**
     * `__eq__`: the other value is a Transaction with the same digest.
     * Equal transactions have equal `__hash__`, and equal `__hash__` between
     * two transactions means equal digests; the sender cache plays no part.
     */
    predicate Eq(p: Primitives, other: Operand)
      ensures !other.Tx? ==> !Eq(p, other)
      ensures other.Tx? ==> (Eq(p, other) <==> HashInt(p) == other.tx.HashInt(p))
      ensures other.Tx? && other.tx.record == record ==> Eq(p, other)
    {
      if other.Tx? then
        BigEndianInjective(Hash(p), other.tx.Hash(p));
        Hash(p) == other.tx.Hash(p)
      else
        false
    }

    /** `__ne__`: the negation of `__eq__`, i.e. a non-Transaction or a different digest. */
    predicate Ne(p: Primitives, other: Operand)
      ensures Ne(p, other) <==> !other.Tx? || Hash(p) != other.tx.Hash(p)
    {
      !Eq(p, other)
    }

    /**
     * `__lt__`: false against a non-Transaction; otherwise the byte order of
     * the digests, which is the numeric order of their `__hash__` values.
     */
    predicate Lt(p: Primitives, other: Operand)
      ensures !other.Tx? ==> !Lt(p, other)
      ensures other.Tx? ==> (Lt(p, other) <==> HashInt(p) < other.tx.HashInt(p))
    {
      if other.Tx? then
        LexLessIsNumericLess(Hash(p), other.tx.Hash(p));
        LexLess(Hash(p), other.tx.Hash(p))
      else
        false
    }

    /**
     * `to_dict`: the nine fields under their names, then 'sender' and 'hash'
     * as '0x'-prefixed hex; hex-encoding an unset sender fails.
     */
    method ToDict(p: Primitives) returns (res: Result<map<string, DictValue>, Error>)
      ensures res.Failure? <==> sender.None?
      ensures res.Failure? ==> res.error == HexTypeError
      ensures res.Success? ==>
        res.value.Keys == {"nonce", "gas_price", "gas", "action", "value", "data", "v", "r", "s", "sender", "hash"}
      ensures res.Success? ==>
        forall i | 0 <= i < |TransactionFields| :: res.value[TransactionFields[i].0] == FieldEntry(Values(record)[i])
      ensures res.Success? ==> res.value["sender"] == HexEntry("0x" + p.encodeHex(sender.value))
      ensures res.Success? ==> res.value["hash"] == HexEntry("0x" + p.encodeHex(Hash(p)))
    {
      var names, values := FieldNames(TransactionFields), Values(record);
      var d: map<string, DictValue> := map[];
      for i := 0 to |names|
        invariant d.Keys == set j | 0 <= j < i :: names[j]
        invariant forall j | 0 <= j < i :: d[names[j]] == FieldEntry(values[j])
      {
        NameIsNew(i);
        EntryAdded(d, names, values, i);
        d := d[names[i] := FieldEntry(values[i])];
      }
      FieldMapComplete(d, values);
      if sender.None? {
        return Failure(HexTypeError);
      }
      d := d["sender" := HexEntry("0x" + p.encodeHex(sender.value))];
      d := d["hash" := HexEntry("0x" + p.encodeHex(Hash(p)))];
      return Success(d);
    }
  }

  /** `__lt__` is irreflexive. */
  /** One step of the field loop of `ToDict`: entering a name not seen before keeps the keys and entries in step with the names. */
  lemma EntryAdded(d: map<string, DictValue>, names: seq<string>, values: seq<FieldValue>, i: nat)
    requires i < |names| && |names| <= |values|
    requires d.Keys == set j | 0 <= j < i :: names[j]
    requires forall j | 0 <= j < i :: d[names[j]] == FieldEntry(values[j])
    requires forall j | 0 <= j < i :: names[j] != names[i]
    ensures d[names[i] := FieldEntry(values[i])].Keys == set j | 0 <= j < i + 1 :: names[j]
    ensures forall j | 0 <= j < i + 1 :: d[names[i] := FieldEntry(values[i])][names[j]] == FieldEntry(values[j])
  {
  }

  /** When the field loop of `ToDict` ends, the map holds exactly the nine field names, each with its own value. */
  lemma FieldMapComplete(d: map<string, DictValue>, values: seq<FieldValue>)
    requires |values| == |TransactionFields|
    requires d.Keys == set j | 0 <= j < |TransactionFields| :: FieldNames(TransactionFields)[j]
    requires forall j | 0 <= j < |TransactionFields| :: d[FieldNames(TransactionFields)[j]] == FieldEntry(values[j])
    ensures d.Keys == {"nonce", "gas_price", "gas", "action", "value", "data", "v", "r", "s"}
    ensures forall i | 0 <= i < |TransactionFields| :: d[TransactionFields[i].0] == FieldEntry(values[i])
  {
    FieldNameSet();
  }

  lemma LtIrreflexive(p: Primitives, a: Transaction)
    ensures !a.Lt(p, Tx(a))
  {
  }

  /** `__lt__` is transitive. */
  lemma LtTransitive(p: Primitives, a: Transaction, b: Transaction, c: Transaction)
    requires a.Lt(p, Tx(b)) && b.Lt(p, Tx(c))
    ensures a.Lt(p, Tx(c))
  {
  }

  /** Between two transactions exactly one of `a < b`, `a == b`, `b < a` holds. */
  lemma LtTrichotomous(p: Primitives, a: Transaction, b: Transaction)
    ensures a.Lt(p, Tx(b)) || a.Eq(p, Tx(b)) || b.Lt(p, Tx(a))
    ensures !(a.Lt(p, Tx(b)) && a.Eq(p, Tx(b)))
    ensures !(a.Lt(p, Tx(b)) && b.Lt(p, Tx(a)))
    ensures !(a.Eq(p, Tx(b)) && b.Lt(p, Tx(a)))
  {
  }

  /** `==` between transactions is symmetric and transitive, as digest equality is. */
  lemma EqIsEquivalence(p: Primitives, a: Transaction, b: Transaction, c: Transaction)
    ensures a.Eq(p, Tx(b)) <==> b.Eq(p, Tx(a))
    ensures a.Eq(p, Tx(b)) && b.Eq(p, Tx(c)) ==> a.Eq(p, Tx(c))
  {
  }

  /** The field values determine the record: different records encode different value lists. */
  lemma ValuesInjective(x: TxRecord, y: TxRecord)
    requires Values(x) == Values(y)
    ensures x == y
  {
  }

  /**
   * With an injective encoder and no sha3 collision between the two encodings,
   * `==` holds exactly between transactions with the same nine fields,
   * whatever their sender caches hold.
   */
  lemma EqIsFieldEquality(p: Primitives, a: Transaction, b: Transaction)
    requires EncodingInjective(p)
    requires p.sha3(p.rlpEncode(Values(a.record))) == p.sha3(p.rlpEncode(Values(b.record)))
      ==> p.rlpEncode(Values(a.record)) == p.rlpEncode(Values(b.record))
    ensures a.Eq(p, Tx(b)) <==> a.record == b.record
  {
  }

  /**
   * Under the same assumptions, signing changes a transaction's identity
   * whenever the new (v, r, s) differ from the old ones.
   */
  lemma SigningChangesIdentity(p: Primitives, t: TxRecord, key: Bytes)
    requires EncodingInjective(p)
    requires var signed := Signed(p, t, key);
      p.sha3(p.rlpEncode(Values(signed))) == p.sha3(p.rlpEncode(Values(t)))
      ==> p.rlpEncode(Values(signed)) == p.rlpEncode(Values(t))
    requires var signed := Signed(p, t, key); (signed.v, signed.r, signed.s) != (t.v, t.r, t.s)
    ensures TxHash(p, Signed(p, t, key)) != TxHash(p, t)
  {
  }

  /** The signing pre-image depends only on the six unsigned fields. */
  lemma RawHashIgnoresSignature(p: Primitives, a: TxRecord, b: TxRecord)
    requires a.(v := b.v, r := b.r, s := b.s) == b
    ensures RawHash(p, a) == RawHash(p, b)
  {
  }

  /** Signing keeps the pre-image, so signing a signed record again with the same key changes nothing. */
  lemma SigningIsIdempotent(p: Primitives, t: TxRecord, key: Bytes)
    ensures RawHash(p, Signed(p, t, key)) == RawHash(p, t)
    ensures Signed(p, Signed(p, t, key), key) == Signed(p, t, key)
  {
  }

  /**
   * The stored signature is well-formed exactly when the primitive's raw
   * triple is: v in 27..30 (the `- 27` offset), r < P, s < N, and r < P - N
   * for a raw v of 29 or 30.
   */
  lemma SignedWellFormedIff(p: Primitives, t: TxRecord, key: Bytes)
    ensures var sig := p.ecsign(RawHash(p, t), p.normalizeKey(key));
      var signed := Signed(p, t, key);
      Signature.WellFormed(signed.v, signed.r, signed.s) <==>
        && 27 <= sig.0 <= 30
        && 0 <= sig.1 < Signature.P
        && 0 <= sig.2 < Signature.N
        && (sig.0 >= 29 ==> sig.1 < Signature.P - Signature.N)
  {
  }
}
