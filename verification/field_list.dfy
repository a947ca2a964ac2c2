/**
 * The declared field lists of `Transaction` and `UnsignedTransaction`
 * (the pyrlp `fields` class attributes) and the values that fill them.
 */
module FieldList {
  import opened ByteOrder

  /** The three pyrlp sedes the field list names. */
  datatype Sedes = BigEndianInt | Binary | AddressSedes

  /** A field value as handed to the RLP encoder: an integer or a byte string. */
  datatype FieldValue = Int(n: int) | Bin(b: Bytes)

  /** Whether a value has the shape its sedes serializes. */
  predicate Fits(sedes: Sedes, value: FieldValue)
  {
    match sedes
    case BigEndianInt => value.Int?
    case Binary => value.Bin?
    case AddressSedes => value.Bin?
  }

  /** `Transaction.fields`, in declaration (and encoding) order. */
  const TransactionFields: seq<(string, Sedes)> := [
    ("nonce", BigEndianInt),
    ("gas_price", BigEndianInt),
    ("gas", BigEndianInt),
    ("action", AddressSedes),
    ("value", BigEndianInt),
    ("data", Binary),
    ("v", BigEndianInt),
    ("r", BigEndianInt),
    ("s", BigEndianInt)
  ]

  /** The names of a field list, in order (the `name` of `for name, _ in fields`). */
  function FieldNames<T>(fields: seq<(string, T)>): (names: seq<string>)
  {
    seq(|fields|, i requires 0 <= i < |fields| => fields[i].0)
  }

  /** The fields `sign` covers, as listed by `unsigned_tx_from_tx`. */
  const SignedOverNames: seq<string> := ["nonce", "gas_price", "gas", "action", "value", "data"]

  predicate IsPrefix(p: string, s: string)
  {
    |p| <= |s| && s[..|p|] == p
  }

  /** Python's `needle in haystack` on two strings: a substring test. */
  predicate IsSubstring(needle: string, haystack: string)
  {
    IsPrefix(needle, haystack) || (haystack != [] && IsSubstring(needle, haystack[1..]))
  }

  /** The comprehension `[(f, sedes) for f, sedes in fields if f not in "vrs"]`. */
  function KeepUnsigned<T>(fields: seq<(string, T)>): (kept: seq<(string, T)>)
  {
    if fields == [] then []
    else
      (if IsSubstring(fields[0].0, "vrs") then [] else [fields[0]]) + KeepUnsigned(fields[1..])
  }

  /** `UnsignedTransaction.fields`. */
  function UnsignedTransactionFields(): (fields: seq<(string, Sedes)>)
  {
    KeepUnsigned(TransactionFields)
  }

  lemma PrefixesOfVrs(name: string)
    ensures IsPrefix(name, "vrs") <==> name in {"", "v", "vr", "vrs"}
    ensures IsPrefix(name, "rs") <==> name in {"", "r", "rs"}
    ensures IsPrefix(name, "s") <==> name in {"", "s"}
  {
    assert "vrs"[..0] == "" && "vrs"[..1] == "v" && "vrs"[..2] == "vr" && "vrs"[..3] == "vrs";
    assert "rs"[..0] == "" && "rs"[..1] == "r" && "rs"[..2] == "rs";
    assert "s"[..0] == "" && "s"[..1] == "s";
  }

  /** The strings the test `name in "vrs"` accepts: exactly the seven substrings of "vrs". */
  lemma SubstringsOfVrs(name: string)
    ensures IsSubstring(name, "vrs") <==> name in {"", "v", "vr", "vrs", "r", "rs", "s"}
  {
    assert "vrs"[1..] == "rs" && "rs"[1..] == "s" && "s"[1..] == "";
    assert IsSubstring(name, "") <==> name == "";
    assert IsSubstring(name, "s") <==> IsPrefix(name, "s") || name == "";
    assert IsSubstring(name, "rs") <==> IsPrefix(name, "rs") || IsSubstring(name, "s");
    assert IsSubstring(name, "vrs") <==> IsPrefix(name, "vrs") || IsSubstring(name, "rs");
    PrefixesOfVrs(name);
  }

  /**
   * For the nine declared names, the substring test against "vrs" is exactly
   * membership in {v, r, s}.
   */
  lemma SubstringTestIsSignatureExclusion(name: string)
    requires exists i | 0 <= i < |TransactionFields| :: TransactionFields[i].0 == name
    ensures IsSubstring(name, "vrs") <==> name in {"v", "r", "s"}
  {
    SubstringsOfVrs(name);
  }

  /**
   * The comprehension keeps an entry exactly when its name fails the
   * substring test, and invents none.
   */
  lemma {:induction false} KeepUnsignedMembers<T>(fields: seq<(string, T)>)
    ensures |KeepUnsigned(fields)| <= |fields|
    ensures forall x | x in KeepUnsigned(fields) :: x in fields && !IsSubstring(x.0, "vrs")
    ensures forall i | 0 <= i < |fields| :: !IsSubstring(fields[i].0, "vrs") ==> fields[i] in KeepUnsigned(fields)
  {
    if fields != [] {
      KeepUnsignedMembers(fields[1..]);
      forall i | 1 <= i < |fields|
        ensures fields[i] == fields[1..][i - 1]
      {
      }
    }
  }

  /** The comprehension distributes over concatenation. */
  lemma {:induction false} KeepUnsignedAppend<T>(a: seq<(string, T)>, b: seq<(string, T)>)
    ensures KeepUnsigned(a + b) == KeepUnsigned(a) + KeepUnsigned(b)
  {
    if a == [] {
      assert a + b == b;
    } else {
      assert (a + b)[0] == a[0] && (a + b)[1..] == a[1..] + b;
      KeepUnsignedAppend(a[1..], b);
    }
  }

  /** A list all of whose names pass the test is dropped whole. */
  lemma {:induction false} KeepUnsignedDropsAll<T>(fields: seq<(string, T)>)
    requires forall i | 0 <= i < |fields| :: IsSubstring(fields[i].0, "vrs")
    ensures KeepUnsigned(fields) == []
  {
    if fields != [] {
      KeepUnsignedDropsAll(fields[1..]);
    }
  }

  /** A list whose names fail the test up to k and pass it from k on keeps exactly its first k fields. */
  lemma {:induction false} KeepUnsignedSplit<T>(fields: seq<(string, T)>, k: nat)
    requires k <= |fields|
    requires forall i | 0 <= i < k :: !IsSubstring(fields[i].0, "vrs")
    requires forall i | k <= i < |fields| :: IsSubstring(fields[i].0, "vrs")
    ensures KeepUnsigned(fields) == fields[..k]
  {
    if k == 0 {
      KeepUnsignedDropsAll(fields);
    } else {
      var rest := fields[1..];
      forall i | 0 <= i < k - 1
        ensures !IsSubstring(rest[i].0, "vrs")
      {
        assert rest[i] == fields[i + 1];
      }
      forall i | k - 1 <= i < |rest|
        ensures IsSubstring(rest[i].0, "vrs")
      {
        assert rest[i] == fields[i + 1];
      }
      KeepUnsignedSplit(rest, k - 1);
      assert !IsSubstring(fields[0].0, "vrs");
      assert fields[..k] == [fields[0]] + rest[..k - 1];
    }
  }

  /**
   * The unsigned field list is the first six transaction fields, in the same
   * order, with the same sedes: v, r and s are dropped and nothing else is.
   */
  lemma UnsignedFieldsArePrefix()
    ensures UnsignedTransactionFields() == TransactionFields[..6]
    ensures |UnsignedTransactionFields()| == |SignedOverNames|
    ensures forall i | 0 <= i < |SignedOverNames| :: UnsignedTransactionFields()[i].0 == SignedOverNames[i]
  {
    forall i | 0 <= i < |TransactionFields|
      ensures i < 6 ==> !IsSubstring(TransactionFields[i].0, "vrs")
      ensures i >= 6 ==> IsSubstring(TransactionFields[i].0, "vrs")
    {
      SubstringTestIsSignatureExclusion(TransactionFields[i].0);
    }
    KeepUnsignedSplit(TransactionFields, 6);
  }

  /** The set of the nine names, which holds neither "sender" nor "hash". */
  lemma FieldNameSet()
    ensures (set i | 0 <= i < |TransactionFields| :: FieldNames(TransactionFields)[i])
      == {"nonce", "gas_price", "gas", "action", "value", "data", "v", "r", "s"}
  {
    var names := FieldNames(TransactionFields);
    var all := set i | 0 <= i < |TransactionFields| :: names[i];
    forall name | name in all
      ensures name in {"nonce", "gas_price", "gas", "action", "value", "data", "v", "r", "s"}
    {
    }
    assert names[0] in all && names[1] in all && names[2] in all;
    assert names[3] in all && names[4] in all && names[5] in all;
    assert names[6] in all && names[7] in all && names[8] in all;
  }

  /** No field name repeats an earlier one, so a name identifies its field. */
  lemma NameIsNew(i: nat)
    requires i < |TransactionFields|
    ensures forall j | 0 <= j < i :: FieldNames(TransactionFields)[j] != FieldNames(TransactionFields)[i]
  {
  }
}
