# Conflux test transactions, modelled in Dafny

This project models `test/conflux/transactions.py`, the Python transaction record used by the
Conflux test framework. A transaction is the nine-field RLP record
`[nonce, gas_price, gas, action, value, data, v, r, s]`. The file defines:

- construction, which rejects a nonce, gas price or value of 2^256 or more;
- the unsigned projection (`UnsignedTransaction`, `unsigned_tx_from_tx`), which drops `v`, `r` and `s`;
- `sign`, which signs the digest of the unsigned projection and returns a new record that caches
  its `sender`;
- identity, where `==`, `!=`, `<` and `__hash__` all come from the sha3 digest of the full
  encoding;
- `to_dict`;
- the signature well-formedness rule in the class comment.

Files:

- `byte_order.dfy` (module `ByteOrder`): byte strings, `big_endian_to_int`, and Python's
  lexicographic `bytes <`. It proves that on equal lengths the two orders agree.
- `field_list.dfy` (module `FieldList`): the declared field lists. The comprehension
  `field not in "vrs"` is a real substring test. The module proves that for the nine names this
  test is the same as excluding `v`, `r` and `s`.
- `external.dfy` (module `External`): the foreign primitives, passed in as one value of type
  `Primitives`. These are the RLP encoder, sha3 (a 32-byte `Digest`), `ecsign`, `privtoaddr`
  (a 20-byte `Address`), `normalize_key` and `encode_hex`.
- `signature.dfy` (module `Signature`): the secp256k1 constants P and N from SEC 2, section 2.4.1,
  and the well-formedness predicate.
- `transactions.dfy` (module `Transactions`): the record values, the projection, signing, and the
  class `Transaction`. The nine fields are an immutable `const record`. The `_sender` cache is the
  one mutable field. The module also holds the identity lemmas.
- `wrappers.dfy`: `Option` and `Result`.

Two points about the code shape the model:

- `__init__` performs only the 2^256 range check. The 20-byte-or-empty rule for `action` belongs
  to the `address` sedes, which applies it at serialization time, so it is not a construction rule
  here.
- `__lt__` compares the digests as Python `bytes`, that is, lexicographically. `ByteOrder.LexLessIsNumericLess` proves that for 32-byte digests this is the
  big-endian integer order.

## Model

| member | source | states |
|---|---|---|
| ByteOrder.BigEndianToInt | test/conflux/transactions.py:100-101 | the big-endian value of an n-byte string is below 256^n, so `__hash__` of a 32-byte digest is below 2^256 |
| ByteOrder.LexLessIsNumericLess | test/conflux/transactions.py:97-98 | for equal-length byte strings, Python's `bytes <` holds iff the big-endian value of the first is smaller |
| ByteOrder.LexLessIrreflexive | test/conflux/transactions.py:97-98 | no byte string is `<` itself |
| ByteOrder.LexLessConnected | test/conflux/transactions.py:97-98 | two different byte strings of equal length are ordered one way or the other |
| ByteOrder.LexLessTransitive | test/conflux/transactions.py:97-98 | `bytes <` is transitive on equal-length strings |
| ByteOrder.BigEndianInjective | test/conflux/transactions.py:100-101 | equal-length byte strings have equal `big_endian_to_int` iff they are equal |
| FieldList.KeepUnsignedMembers | test/conflux/transactions.py:110-114 | the comprehension keeps an entry iff its name fails the `in "vrs"` test, and invents none |
| FieldList.KeepUnsignedAppend | test/conflux/transactions.py:110-114 | filtering a concatenation filters each part, so order is preserved |
| FieldList.SubstringsOfVrs | test/conflux/transactions.py:113 | `name in "vrs"` accepts exactly the seven substrings "", v, vr, vrs, r, rs, s |
| FieldList.SubstringTestIsSignatureExclusion | test/conflux/transactions.py:110-114 | for the nine declared names, the substring test holds iff the name is v, r or s |
| FieldList.UnsignedFieldsArePrefix | test/conflux/transactions.py:110-114 | `UnsignedTransaction.fields` is exactly nonce, gas_price, gas, action, value, data, with their sedes, in the original order |
| FieldList.FieldNameSet | test/conflux/transactions.py:32-42 | the nine field names form the set {nonce, gas_price, gas, action, value, data, v, r, s}, which contains neither sender nor hash |
| FieldList.NameIsNew | test/conflux/transactions.py:32-42 | no field name repeats an earlier one |
| Signature.HighRangeIsNarrower | test/conflux/transactions.py:26-28 | 0 < P - N < N < P, with P - N given exactly |
| Signature.WellFormedByRecoveryId | test/conflux/transactions.py:26-28 | given 0 <= v <= 3, 0 <= s < N and r >= 0, well-formedness is r < P for v < 2 and r < P - N for v >= 2 |
| Signature.RecoveryIdFourRejected | test/conflux/transactions.py:26-28 | v = 4 is rejected whatever r and s are |
| Signature.HighRecoveryIdNeedsSmallR | test/conflux/transactions.py:26-28 | v = 2 or 3 with r >= P - N is rejected |
| Signature.LowRecoveryIdAccepted | test/conflux/transactions.py:26-28 | v = 0 or 1 with 0 <= r < P and 0 <= s < N is accepted |
| Transactions.Values | test/conflux/transactions.py:32-42 | the nine values handed to the encoder each fit the sedes declared for their position |
| Transactions.UnsignedValues | test/conflux/transactions.py:110-114 | the six unsigned values fit the sedes of `UnsignedTransaction.fields` position by position |
| Transactions.UnsignedTxFromTx | test/conflux/transactions.py:117-125 | the unsigned record's encoded values are exactly the transaction's values under the names the comprehension keeps, in order |
| Transactions.Signed | test/conflux/transactions.py:64-75 | the signed record has the same unsigned projection as the input, v is the primitive's v minus 27, and r and s are as returned |
| Transactions.Transaction.Init | test/conflux/transactions.py:46-51 | a constructed transaction holds the given fields, with v, r and s defaulting to 0, and an unset sender |
| Transactions.Transaction.New | test/conflux/transactions.py:46-54 | construction fails with InvalidTransaction exactly when gas_price, value or nonce is at least 2^256; gas is not checked; otherwise it yields a fresh transaction with the given fields and no sender |
| Transactions.Transaction.SetSender | test/conflux/transactions.py:56-62 | after the setter, the getter returns the value set |
| Transactions.Transaction.Sign | test/conflux/transactions.py:64-77 | returns a fresh transaction with the signed record and sender privtoaddr(normalize_key(key)), and leaves the receiver's sender as it was |
| Transactions.Transaction.HashInt | test/conflux/transactions.py:100-101 | `__hash__` is below 2^256 |
| Transactions.Transaction.Eq | test/conflux/transactions.py:94-95 | `==` is false against a non-Transaction; between transactions it holds iff their `__hash__` values are equal; transactions with the same fields are equal whatever their senders |
| Transactions.Transaction.Ne | test/conflux/transactions.py:103-104 | `!=` holds iff the other value is not a Transaction or has a different digest |
| Transactions.Transaction.Lt | test/conflux/transactions.py:97-98 | `<` is false against a non-Transaction; between transactions it holds iff the first's `__hash__` is smaller |
| Transactions.Transaction.ToDict | test/conflux/transactions.py:86-92 | fails iff the sender is unset; otherwise the keys are exactly the nine field names plus sender and hash, each field maps to its value, and sender and hash map to '0x' followed by their hex |
| Transactions.LtIrreflexive | test/conflux/transactions.py:97-98 | no transaction is `<` itself |
| Transactions.LtTransitive | test/conflux/transactions.py:97-98 | `<` between transactions is transitive |
| Transactions.LtTrichotomous | test/conflux/transactions.py:94-98 | between two transactions exactly one of a < b, a == b, b < a holds |
| Transactions.EqIsEquivalence | test/conflux/transactions.py:94-95 | `==` between transactions is symmetric and transitive |
| Transactions.ValuesInjective | test/conflux/transactions.py:32-42 | two records with the same encoded value list are the same record |
| Transactions.EqIsFieldEquality | test/conflux/transactions.py:79-81 | with an injective encoder and no sha3 collision on the pair, `==` holds iff the nine fields are equal |
| Transactions.SigningChangesIdentity | test/conflux/transactions.py:64-81 | under the same assumptions, a signature that changes (v, r, s) changes the transaction's hash |
| Transactions.RawHashIgnoresSignature | test/conflux/transactions.py:65-66 | two records that differ only in v, r and s have the same signing pre-image digest |
| Transactions.SigningIsIdempotent | test/conflux/transactions.py:64-75 | signing keeps the pre-image digest, so signing the result again with the same key gives the same record |
| Transactions.SignedWellFormedIff | test/conflux/transactions.py:26-27 | the record `sign` returns has a well-formed signature iff the primitive's v is in 27..30, r is in 0..P-1, s is in 0..N-1, and r < P - N when v is 29 or 30 |

## Left out

- RLP encoding: `rlp.encode` and the `big_endian_int`, `binary` and `address` sedes are library code. The encoder is an opaque parameter over the list of field values, and it is total. Serialization-time failures are not modelled: the `address` sedes rejecting an `action` that is neither 20 bytes nor empty, and `big_endian_int` rejecting a negative integer. For the same reason, construction accepts negative field values, as `__init__` itself does.
- Cryptography: sha3/Keccak, `ecsign`, `privtoaddr` and `normalize_key` are opaque, total parameters. Only the fact that a digest is 32 bytes and an address is 20 bytes is kept. A malformed key, which makes the primitive raise `InvalidKey`, is not modelled. Keys are byte strings, although `normalize_key` also accepts other encodings.
- Hex formatting: `encode_hex` is an opaque parameter. `hash_hex` (which uses `eth_utils.encode_hex`) and `__repr__` are presentation only and are not modelled.
- Transactions.Transaction.ToDict: `utils.encode_hex` is an opaque parameter of type bytes to string. The failure on an unset sender (`HexTypeError`) assumes that it raises `TypeError` for a value that is neither `str` nor `bytes`, as the pyethereum helper it derives from does.
- Transactions.Transaction.ToDict: the result is a map, so the key order of the Python dict (the nine fields in declaration order, then `sender`, then `hash`) is not kept.
- Transactions.Transaction.SetSender: the Python setter accepts any value. The model types the cache as an optional byte string.
- Transactions.Transaction.Sign: it requires `Valid()`, the range invariant that every `Transaction` has because `__init__` checked it. `self.copy` re-runs `__init__`, and the check cannot fail there because the copy has the same nonce, gas price and value. This is modelled as a call of the constructor whose range precondition holds.
- Transactions.SigningIsIdempotent: `ecsign` is a function parameter, so the model treats it as deterministic. This lemma depends on that.
- Transactions.EqIsFieldEquality and Transactions.SigningChangesIdentity: a sha3 cannot be injective on all inputs, so these lemmas assume an encoder that is injective on value lists fitting the declared sedes, and the absence of a collision between the two encodings involved.
- Funds check: condition (ii) of the class comment, that the sender has enough funds, needs ledger state that this file does not have.
- Sender recovery: nothing in the file calls `ecrecover_to_pub`. Well-formedness is a predicate only, with no recovery algorithm.
- The unused imports `mk_contract_address`, `zpad`, `int_to_32bytearray` and `str_to_bytes` are not modelled.
