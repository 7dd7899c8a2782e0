/**
 * The data of the DynamoDB table provider: the declared table (the resource's
 * property bag), the request and response shapes of the DynamoDB control-plane
 * API that the provider builds and reads, and the errors it reports.
 */
module Model {
  import opened Wrappers

  // Limits checked by the validator.
  const MinTableName := 3
  const MaxTableName := 255
  const MinTableAttributeName := 1
  const MaxTableAttributeName := 255
  const MinReadCapacity := 1
  const MinWriteCapacity := 1
  const MaxGlobalSecondaryIndexes := 5

  // Key roles of a key-schema element.
  const HashKeyType := "HASH"
  const RangeKeyType := "RANGE"

  // Remote error codes the provider classifies, and the table status it waits for.
  const ResourceNotFound := "ResourceNotFoundException"
  const ResourceInUse := "ResourceInUseException"
  const ActiveStatus := "ACTIVE"

  /** One declared attribute; its type is free text that the validator restricts to S, N or B. */
  datatype Attribute = Attribute(name: string, attrType: string)

  /** A declared global secondary index (GSI). Capacities are whole capacity units. */
  datatype GlobalSecondaryIndex = GlobalSecondaryIndex(
    indexName: string,
    hashKey: string,
    rangeKey: Option<string>,
    readCapacity: int,
    writeCapacity: int,
    nonKeyAttributes: seq<string>,
    projectionType: string)

  /** The declared table. `tableName` is None when the name is to be generated. */
  datatype Table = Table(
    tableName: Option<string>,
    hashKey: string,
    rangeKey: Option<string>,
    attributes: seq<Attribute>,
    readCapacity: int,
    writeCapacity: int,
    globalSecondaryIndexes: Option<seq<GlobalSecondaryIndex>>)

  /** The property of a table, attribute or index that a validation failure or a change refers to. */
  datatype Field =
    | TableNameField
    | TableReadCapacityField
    | TableWriteCapacityField
    | TableGlobalSecondaryIndexesField
    | AttributeNameField
    | AttributeTypeField
    | IndexNameField
    | IndexReadCapacityField
    | IndexWriteCapacityField

  // Request and response shapes of the remote API.

  datatype AttributeDefinition = AttributeDefinition(attributeName: string, attributeType: string)

  datatype KeySchemaElement = KeySchemaElement(attributeName: string, keyType: string)

  datatype Throughput = Throughput(readCapacityUnits: int, writeCapacityUnits: int)

  datatype Projection = Projection(nonKeyAttributes: seq<string>, projectionType: string)

  /** An index as sent in a create request and as reported by DescribeTable. */
  datatype IndexDefinition = IndexDefinition(
    indexName: string,
    keySchema: seq<KeySchemaElement>,
    throughput: Throughput,
    projection: Projection)

  datatype CreateTableInput = CreateTableInput(
    tableName: string,
    attributeDefinitions: seq<AttributeDefinition>,
    keySchema: seq<KeySchemaElement>,
    throughput: Throughput,
    globalSecondaryIndexes: seq<IndexDefinition>)

  /** One entry of an UpdateTable request's list of index updates. */
  datatype IndexUpdate =
    | CreateIndex(definition: IndexDefinition)
    | UpdateIndex(indexName: string, throughput: Throughput)
    | DeleteIndex(indexName: string)

  /** An UpdateTable request; an empty attribute list and a None throughput are left out of the request. */
  datatype UpdateTableInput = UpdateTableInput(
    tableName: string,
    attributeDefinitions: seq<AttributeDefinition>,
    throughput: Option<Throughput>,
    indexUpdates: seq<IndexUpdate>)

  /** What DescribeTable reports about a table. */
  datatype TableDescription = TableDescription(
    tableName: string,
    tableStatus: string,
    attributeDefinitions: seq<AttributeDefinition>,
    keySchema: seq<KeySchemaElement>,
    throughput: Throughput,
    globalSecondaryIndexes: seq<IndexDefinition>)

  /**
   * An error: one reported by the remote API (identified by its code), one the
   * provider formats itself, or a failed internal assertion (a panic in the source).
   */
  datatype Error =
    | AwsError(code: string)
    | Failure(message: string)
    | Fatal(message: string)

  /** The remote error of the given code. */
  predicate IsAwsError(e: Error, code: string) {
    e.AwsError? && e.code == code
  }
}
