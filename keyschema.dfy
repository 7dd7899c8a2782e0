/**
 * Key schemas: the HASH-first list the provider sends for a table or an index,
 * and the decoder that recovers the partition (hash) key and the optional
 * sort (range) key from the list DynamoDB reports.
 */
module KeySchema {
  import opened Wrappers
  import opened Model

  /** The key schema sent for a hash key and an optional range key: the HASH entry, then the RANGE entry if any. */
  function KeySchemaOf(hashKey: string, rangeKey: Option<string>): seq<KeySchemaElement> {
    [KeySchemaElement(hashKey, HashKeyType)]
    + (if rangeKey.Some? then [KeySchemaElement(rangeKey.value, RangeKeyType)] else [])
  }

  function UnexpectedKeyType(keyType: string): Error {
    Fatal("Unexpected key schema attribute type: " + keyType)
  }

  const MissingHashKey := Fatal("Expected to discover a hash partition key")

  /**
   * Decoding continued over `schema` with the keys seen so far: each HASH entry
   * replaces the hash key, each RANGE entry the range key, and any other role
   * is a failed assertion.
   */
  function DecodeFrom(schema: seq<KeySchemaElement>, hashKey: Option<string>, rangeKey: Option<string>)
    : Result<(string, Option<string>), Error>
  {
    if schema == [] then
      if hashKey.None? then Err(MissingHashKey) else Ok((hashKey.value, rangeKey))
    else if schema[0].keyType == HashKeyType then
      DecodeFrom(schema[1..], Some(schema[0].attributeName), rangeKey)
    else if schema[0].keyType == RangeKeyType then
      DecodeFrom(schema[1..], hashKey, Some(schema[0].attributeName))
    else
      Err(UnexpectedKeyType(schema[0].keyType))
  }

  /** The decoded keys of a key schema, or the failed assertion. */
  function DecodeKeys(schema: seq<KeySchemaElement>): Result<(string, Option<string>), Error> {
    DecodeFrom(schema, None, None)
  }

  /** Decodes a key schema entry by entry, stopping at the first entry of an unknown role. */
  method GetHashRangeKeys(schema: seq<KeySchemaElement>) returns (r: Result<(string, Option<string>), Error>)
    ensures r == DecodeKeys(schema)
  {
    var hashKey: Option<string> := None;
    var rangeKey: Option<string> := None;
    for i := 0 to |schema|
      invariant DecodeKeys(schema) == DecodeFrom(schema[i..], hashKey, rangeKey)
    {
      var elem := schema[i];
      assert schema[i..][1..] == schema[i + 1..];
      if elem.keyType == HashKeyType {
        hashKey := Some(elem.attributeName);
      } else if elem.keyType == RangeKeyType {
        rangeKey := Some(elem.attributeName);
      } else {
        return Err(UnexpectedKeyType(elem.keyType));
      }
    }
    if hashKey.None? {
      return Err(MissingHashKey);
    }
    r := Ok((hashKey.value, rangeKey));
  }

  /** The schema the provider sends decodes back to the same pair of keys. */
  lemma {:induction false} DecodeKeySchemaOf(hashKey: string, rangeKey: Option<string>)
    ensures DecodeKeys(KeySchemaOf(hashKey, rangeKey)) == Ok((hashKey, rangeKey))
  {
    var s := KeySchemaOf(hashKey, rangeKey);
    if rangeKey.Some? {
      var r := KeySchemaElement(rangeKey.value, RangeKeyType);
      assert s == [KeySchemaElement(hashKey, HashKeyType), r];
      assert s[1..] == [r] && [r][1..] == [];
      assert RangeKeyType != HashKeyType by { assert RangeKeyType[0] != HashKeyType[0]; }
      assert DecodeFrom(s, None, None) == DecodeFrom([r], Some(hashKey), None);
      assert DecodeFrom([r], Some(hashKey), None) == DecodeFrom([], Some(hashKey), rangeKey);
    } else {
      assert s == [KeySchemaElement(hashKey, HashKeyType)];
      assert DecodeFrom(s, None, None) == DecodeFrom([], Some(hashKey), None);
    }
  }

  // A reference description of what decoding returns.

  predicate KnownRole(e: KeySchemaElement) {
    e.keyType == HashKeyType || e.keyType == RangeKeyType
  }

  /** The attribute name of the last entry of the given role, if there is one. */
  function LastOfRole(schema: seq<KeySchemaElement>, role: string): Option<string> {
    if schema == [] then None
    else if schema[|schema| - 1].keyType == role then Some(schema[|schema| - 1].attributeName)
    else LastOfRole(schema[..|schema| - 1], role)
  }

  lemma {:induction false} DecodeFromMeaning(schema: seq<KeySchemaElement>, hashKey: Option<string>, rangeKey: Option<string>)
    requires forall i :: 0 <= i < |schema| ==> KnownRole(schema[i])
    ensures var h := LastOfRole(schema, HashKeyType);
            var r := LastOfRole(schema, RangeKeyType);
            var hk := if h.Some? then h else hashKey;
            var rk := if r.Some? then r else rangeKey;
            DecodeFrom(schema, hashKey, rangeKey) == if hk.None? then Err(MissingHashKey) else Ok((hk.value, rk))
    decreases |schema|
  {
    if schema != [] {
      var e := schema[0];
      var rest := schema[1..];
      var h' := if e.keyType == HashKeyType then Some(e.attributeName) else hashKey;
      var r' := if e.keyType == RangeKeyType then Some(e.attributeName) else rangeKey;
      assert forall i :: 0 <= i < |rest| ==> KnownRole(rest[i]) by {
        forall i | 0 <= i < |rest| ensures KnownRole(rest[i]) {
          assert rest[i] == schema[i + 1];
        }
      }
      DecodeFromMeaning(rest, h', r');
      LastOfRoleCons(e, rest, HashKeyType);
      LastOfRoleCons(e, rest, RangeKeyType);
      assert schema == [e] + rest;
    }
  }

  lemma {:induction false} LastOfRoleCons(e: KeySchemaElement, rest: seq<KeySchemaElement>, role: string)
    ensures LastOfRole([e] + rest, role) ==
              if LastOfRole(rest, role).Some? then LastOfRole(rest, role)
              else if e.keyType == role then Some(e.attributeName) else None
    decreases |rest|
  {
    if rest != [] {
      var s := [e] + rest;
      assert s[..|s| - 1] == [e] + rest[..|rest| - 1];
      LastOfRoleCons(e, rest[..|rest| - 1], role);
    } else {
      assert ([e] + rest)[..0] == [];
    }
  }

  /**
   * Decoding succeeds exactly when every entry is HASH or RANGE and some entry is
   * HASH; it then yields the last HASH entry's name and the last RANGE entry's
   * name, if any. Otherwise it is a failed assertion.
   */
  lemma {:induction false} DecodeKeysMeaning(schema: seq<KeySchemaElement>)
    ensures DecodeKeys(schema).Ok? <==>
              (forall i :: 0 <= i < |schema| ==> KnownRole(schema[i])) && LastOfRole(schema, HashKeyType).Some?
    ensures DecodeKeys(schema).Ok? ==>
              DecodeKeys(schema).value == (LastOfRole(schema, HashKeyType).value, LastOfRole(schema, RangeKeyType))
    ensures DecodeKeys(schema).Err? ==> DecodeKeys(schema).error.Fatal?
  {
    if forall i :: 0 <= i < |schema| ==> KnownRole(schema[i]) {
      DecodeFromMeaning(schema, None, None);
    } else {
      UnknownRoleFails(schema, None, None);
    }
  }

  lemma {:induction false} UnknownRoleFails(schema: seq<KeySchemaElement>, hashKey: Option<string>, rangeKey: Option<string>)
    requires exists i :: 0 <= i < |schema| && !KnownRole(schema[i])
    ensures DecodeFrom(schema, hashKey, rangeKey).Err?
    ensures DecodeFrom(schema, hashKey, rangeKey).error.Fatal?
    decreases |schema|
  {
    if KnownRole(schema[0]) {
      var i :| 0 <= i < |schema| && !KnownRole(schema[i]);
      assert schema[1..][i - 1] == schema[i];
      var h' := if schema[0].keyType == HashKeyType then Some(schema[0].attributeName) else hashKey;
      var r' := if schema[0].keyType == RangeKeyType then Some(schema[0].attributeName) else rangeKey;
      UnknownRoleFails(schema[1..], h', r');
    }
  }
}
