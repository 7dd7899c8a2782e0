/**
 * The validator of a declared table: every limit is checked and every violated
 * rule adds one field error; nothing stops at the first violation.
 */
module Validate {
  import opened Wrappers
  import opened Model

  /** Why a field was rejected, with the limit that was broken. */
  datatype Reason =
    | BelowMinLength(min: int)
    | AboveMaxLength(max: int)
    | BelowMinimum(min: int)
    | NotValidType
    | TooManyIndexes(max: int)

  datatype FieldError = FieldError(field: Field, reason: Reason)

  // Lengths as the validator measures them: a name's length is the number of
  // bytes of its UTF-8 encoding, not its number of characters.

  /** The number of bytes UTF-8 uses for one character: 1 up to U+007F, 2 up to U+07FF, 3 up to U+FFFF, else 4. */
  function Utf8Width(c: char): (w: nat)
    ensures 1 <= w <= 4
    ensures w == 1 <==> c as int < 0x80
  {
    if c as int < 0x80 then 1
    else if c as int < 0x800 then 2
    else if c as int < 0x10000 then 3
    else 4
  }

  /** The length of a string in bytes of its UTF-8 encoding. */
  function Utf8Length(s: string): (n: nat)
    ensures |s| <= n <= 4 * |s|
    ensures n == |s| <==> forall i :: 0 <= i < |s| ==> s[i] as int < 0x80
    decreases |s|
  {
    if s == [] then 0
    else
      var n := Utf8Length(s[..|s| - 1]) + Utf8Width(s[|s| - 1]);
      assert forall i :: 0 <= i < |s| - 1 ==> s[..|s| - 1][i] == s[i];
      n
  }

  /** A string of characters that all take `w` bytes is `w` bytes per character long. */
  lemma {:induction false} Utf8LengthUniform(s: string, w: nat)
    requires forall i :: 0 <= i < |s| ==> Utf8Width(s[i]) == w
    ensures Utf8Length(s) == w * |s|
    decreases |s|
  {
    if s != [] {
      var init := s[..|s| - 1];
      assert forall i :: 0 <= i < |init| ==> init[i] == s[i];
      Utf8LengthUniform(init, w);
    }
  }

  /**
   * Limits are on bytes: a name of two 'é' (four bytes) passes the minimum of
   * three, and 200 of them (400 bytes) break the maximum of 255.
   */
  lemma NameLimitsCountBytes()
    ensures LengthFailures(TableNameField, "\U{E9}\U{E9}", MinTableName, MaxTableName) == []
    ensures LengthFailures(AttributeNameField, seq(200, _ => '\U{E9}'), MinTableAttributeName, MaxTableAttributeName)
              == [FieldError(AttributeNameField, AboveMaxLength(MaxTableAttributeName))]
  {
    Utf8LengthUniform("\U{E9}\U{E9}", 2);
    Utf8LengthUniform(seq(200, _ => '\U{E9}'), 2);
  }

  // The reference meaning of a valid table, rule by rule.

  /** The attribute types DynamoDB accepts: string, number or binary. */
  predicate ValidAttributeType(attrType: string) {
    attrType == "S" || attrType == "N" || attrType == "B"
  }

  predicate ValidAttribute(a: Attribute) {
    && MinTableAttributeName <= Utf8Length(a.name) <= MaxTableAttributeName
    && ValidAttributeType(a.attrType)
  }

  predicate ValidIndex(g: GlobalSecondaryIndex) {
    && MinTableName <= Utf8Length(g.indexName) <= MaxTableName
    && g.readCapacity >= MinReadCapacity
    && g.writeCapacity >= MinWriteCapacity
  }

  predicate ValidTable(t: Table) {
    && (t.tableName.Some? ==> MinTableName <= Utf8Length(t.tableName.value) <= MaxTableName)
    && t.readCapacity >= MinReadCapacity
    && t.writeCapacity >= MinWriteCapacity
    && (forall i :: 0 <= i < |t.attributes| ==> ValidAttribute(t.attributes[i]))
    && (t.globalSecondaryIndexes.Some? ==>
          && |t.globalSecondaryIndexes.value| <= MaxGlobalSecondaryIndexes
          && forall i :: 0 <= i < |t.globalSecondaryIndexes.value| ==> ValidIndex(t.globalSecondaryIndexes.value[i]))
  }

  // The failures, in the order the validator reports them.

  function LengthFailures(field: Field, name: string, min: int, max: int): seq<FieldError> {
    (if Utf8Length(name) < min then [FieldError(field, BelowMinLength(min))] else [])
    + (if Utf8Length(name) > max then [FieldError(field, AboveMaxLength(max))] else [])
  }

  function TableFailures(t: Table): seq<FieldError> {
    (if t.tableName.Some? then LengthFailures(TableNameField, t.tableName.value, MinTableName, MaxTableName) else [])
    + (if t.readCapacity < MinReadCapacity then [FieldError(TableReadCapacityField, BelowMinimum(MinReadCapacity))] else [])
    + (if t.writeCapacity < MinWriteCapacity then [FieldError(TableWriteCapacityField, BelowMinimum(MinWriteCapacity))] else [])
  }

  function AttributeFailures(a: Attribute): seq<FieldError> {
    LengthFailures(AttributeNameField, a.name, MinTableAttributeName, MaxTableAttributeName)
    + (if ValidAttributeType(a.attrType) then [] else [FieldError(AttributeTypeField, NotValidType)])
  }

  /** The failures of a list of attributes, one attribute after the other. */
  function AttributesFailures(attrs: seq<Attribute>): seq<FieldError> {
    if attrs == [] then []
    else AttributesFailures(attrs[..|attrs| - 1]) + AttributeFailures(attrs[|attrs| - 1])
  }

  function IndexFailures(g: GlobalSecondaryIndex): seq<FieldError> {
    LengthFailures(IndexNameField, g.indexName, MinTableName, MaxTableName)
    + (if g.readCapacity < MinReadCapacity then [FieldError(IndexReadCapacityField, BelowMinimum(MinReadCapacity))] else [])
    + (if g.writeCapacity < MinWriteCapacity then [FieldError(IndexWriteCapacityField, BelowMinimum(MinWriteCapacity))] else [])
  }

  function IndexesFailures(gs: seq<GlobalSecondaryIndex>): seq<FieldError> {
    if gs == [] then []
    else IndexesFailures(gs[..|gs| - 1]) + IndexFailures(gs[|gs| - 1])
  }

  function CountFailures(gs: seq<GlobalSecondaryIndex>): seq<FieldError> {
    if |gs| > MaxGlobalSecondaryIndexes
    then [FieldError(TableGlobalSecondaryIndexesField, TooManyIndexes(MaxGlobalSecondaryIndexes))]
    else []
  }

  /** Every failure of a table, in report order. */
  function Failures(t: Table): seq<FieldError> {
    TableFailures(t)
    + AttributesFailures(t.attributes)
    + (match t.globalSecondaryIndexes
       case None => []
       case Some(gs) => CountFailures(gs) + IndexesFailures(gs))
  }

  /**
   * Checks a declared table. The error result is always None: invalid input is
   * reported only through the list, which holds every failure in report order.
   */
  method Check(t: Table) returns (failures: seq<FieldError>, err: Option<Error>)
    ensures failures == Failures(t)
    ensures err == None
  {
    failures := [];
    if t.tableName.Some? {
      var name := t.tableName.value;
      if Utf8Length(name) < MinTableName {
        failures := failures + [FieldError(TableNameField, BelowMinLength(MinTableName))];
      }
      if Utf8Length(name) > MaxTableName {
        failures := failures + [FieldError(TableNameField, AboveMaxLength(MaxTableName))];
      }
    }
    if t.readCapacity < MinReadCapacity {
      failures := failures + [FieldError(TableReadCapacityField, BelowMinimum(MinReadCapacity))];
    }
    if t.writeCapacity < MinWriteCapacity {
      failures := failures + [FieldError(TableWriteCapacityField, BelowMinimum(MinWriteCapacity))];
    }
    assert failures == TableFailures(t);
    failures := CheckAttributes(failures, t.attributes);
    ghost var checked := failures;
    if t.globalSecondaryIndexes.Some? {
      var gsis := t.globalSecondaryIndexes.value;
      if |gsis| > MaxGlobalSecondaryIndexes {
        failures := failures + [FieldError(TableGlobalSecondaryIndexesField, TooManyIndexes(MaxGlobalSecondaryIndexes))];
      }
      assert failures == checked + CountFailures(gsis);
      failures := CheckIndexes(failures, gsis);
      AppendAssociates(checked, CountFailures(gsis), IndexesFailures(gsis));
    }
    err := None;
  }

  /** The loop of Check over the attributes: appends each attribute's failures in order. */
  method CheckAttributes(head: seq<FieldError>, attributes: seq<Attribute>) returns (failures: seq<FieldError>)
    ensures failures == head + AttributesFailures(attributes)
  {
    failures := head;
    for i := 0 to |attributes|
      invariant failures == head + AttributesFailures(attributes[..i])
    {
      var attribute := attributes[i];
      ghost var before := failures;
      if Utf8Length(attribute.name) < MinTableAttributeName {
        failures := failures + [FieldError(AttributeNameField, BelowMinLength(MinTableAttributeName))];
      }
      if Utf8Length(attribute.name) > MaxTableAttributeName {
        failures := failures + [FieldError(AttributeNameField, AboveMaxLength(MaxTableAttributeName))];
      }
      if !ValidAttributeType(attribute.attrType) {
        failures := failures + [FieldError(AttributeTypeField, NotValidType)];
      }
      assert failures == before + AttributeFailures(attribute);
      assert attributes[..i + 1][..i] == attributes[..i];
    }
    assert attributes[..|attributes|] == attributes;
  }

  /** The checks of one index, in order. */
  method CheckIndex(gsi: GlobalSecondaryIndex) returns (failures: seq<FieldError>)
    ensures failures == IndexFailures(gsi)
  {
    failures := [];
    if Utf8Length(gsi.indexName) < MinTableName {
      failures := failures + [FieldError(IndexNameField, BelowMinLength(MinTableName))];
    }
    if Utf8Length(gsi.indexName) > MaxTableName {
      failures := failures + [FieldError(IndexNameField, AboveMaxLength(MaxTableName))];
    }
    if gsi.readCapacity < MinReadCapacity {
      failures := failures + [FieldError(IndexReadCapacityField, BelowMinimum(MinReadCapacity))];
    }
    if gsi.writeCapacity < MinWriteCapacity {
      failures := failures + [FieldError(IndexWriteCapacityField, BelowMinimum(MinWriteCapacity))];
    }
  }

  /** The loop of Check over the indexes: appends each index's failures in order. */
  method CheckIndexes(head: seq<FieldError>, gsis: seq<GlobalSecondaryIndex>) returns (failures: seq<FieldError>)
    ensures failures == head + IndexesFailures(gsis)
  {
    failures := head;
    for i := 0 to |gsis|
      invariant failures == head + IndexesFailures(gsis[..i])
    {
      var gsi := gsis[i];
      var more := CheckIndex(gsi);
      failures := failures + more;
      assert gsis[..i + 1][..i] == gsis[..i];
    }
    assert gsis[..|gsis|] == gsis;
  }

  // Check's whole-table goal runs out of resource when it has to re-bracket
  // this concatenation itself; stated here, it is one lemma postcondition.
  lemma {:induction false} AppendAssociates(a: seq<FieldError>, b: seq<FieldError>, c: seq<FieldError>)
    ensures (a + b) + c == a + (b + c)
  {
  }

  lemma {:induction false} AttributesFailuresEmptyIff(attrs: seq<Attribute>)
    ensures AttributesFailures(attrs) == [] <==> forall i :: 0 <= i < |attrs| ==> ValidAttribute(attrs[i])
    decreases |attrs|
  {
    if attrs != [] {
      var init := attrs[..|attrs| - 1];
      AttributesFailuresEmptyIff(init);
      assert forall i :: 0 <= i < |init| ==> init[i] == attrs[i];
    }
  }

  lemma {:induction false} IndexesFailuresEmptyIff(gs: seq<GlobalSecondaryIndex>)
    ensures IndexesFailures(gs) == [] <==> forall i :: 0 <= i < |gs| ==> ValidIndex(gs[i])
    decreases |gs|
  {
    if gs != [] {
      var init := gs[..|gs| - 1];
      IndexesFailuresEmptyIff(init);
      assert forall i :: 0 <= i < |init| ==> init[i] == gs[i];
    }
  }

  /** The validator reports nothing exactly when every rule holds. */
  lemma {:induction false} FailuresEmptyIffValid(t: Table)
    ensures Failures(t) == [] <==> ValidTable(t)
  {
    AttributesFailuresEmptyIff(t.attributes);
    if t.globalSecondaryIndexes.Some? {
      IndexesFailuresEmptyIff(t.globalSecondaryIndexes.value);
    }
  }

  // Completeness: every invalid part of the table contributes its own failure.

  function InvalidAttributes(attrs: seq<Attribute>): nat {
    if attrs == [] then 0
    else InvalidAttributes(attrs[..|attrs| - 1]) + (if ValidAttribute(attrs[|attrs| - 1]) then 0 else 1)
  }

  function InvalidIndexes(gs: seq<GlobalSecondaryIndex>): nat {
    if gs == [] then 0
    else InvalidIndexes(gs[..|gs| - 1]) + (if ValidIndex(gs[|gs| - 1]) then 0 else 1)
  }

  /** The number of independently invalid parts: the name, each capacity, each attribute, the index count, each index. */
  function InvalidParts(t: Table): nat {
    (if t.tableName.Some? && !(MinTableName <= Utf8Length(t.tableName.value) <= MaxTableName) then 1 else 0)
    + (if t.readCapacity < MinReadCapacity then 1 else 0)
    + (if t.writeCapacity < MinWriteCapacity then 1 else 0)
    + InvalidAttributes(t.attributes)
    + (match t.globalSecondaryIndexes
       case None => 0
       case Some(gs) => (if |gs| > MaxGlobalSecondaryIndexes then 1 else 0) + InvalidIndexes(gs))
  }

  lemma {:induction false} AttributesFailuresCover(attrs: seq<Attribute>)
    ensures |AttributesFailures(attrs)| >= InvalidAttributes(attrs)
    decreases |attrs|
  {
    if attrs != [] {
      AttributesFailuresCover(attrs[..|attrs| - 1]);
    }
  }

  lemma {:induction false} IndexesFailuresCover(gs: seq<GlobalSecondaryIndex>)
    ensures |IndexesFailures(gs)| >= InvalidIndexes(gs)
    decreases |gs|
  {
    if gs != [] {
      IndexesFailuresCover(gs[..|gs| - 1]);
    }
  }

  /** The validator does not stop at the first violation: there are at least as many failures as invalid parts. */
  lemma {:induction false} FailuresCoverEveryInvalidPart(t: Table)
    ensures |Failures(t)| >= InvalidParts(t)
  {
    AttributesFailuresCover(t.attributes);
    if t.globalSecondaryIndexes.Some? {
      IndexesFailuresCover(t.globalSecondaryIndexes.value);
    }
  }
}
