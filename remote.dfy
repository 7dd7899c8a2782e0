/**
 * The DynamoDB control plane as the provider sees it: the four calls it makes,
 * the answers they get, and a scripted stand-in for the service that records
 * every call and answers the k-th call with a fixed answer.
 */
module Remote {
  import opened Model

  /** A call to the service. */
  datatype Request =
    | CreateTable(input: CreateTableInput)
    | DescribeTable(name: string)
    | UpdateTable(update: UpdateTableInput)
    | DeleteTable(name: string)

  /**
   * The answer to a call: an error, or success with the table's ARN and its
   * description (a CreateTable, UpdateTable or DeleteTable answer also
   * describes the table).
   */
  datatype Answer =
    | Reject(err: Error)
    | Accept(arn: string, table: TableDescription)

  /** One call and the answer it got. */
  datatype Exchange = Exchange(req: Request, answer: Answer)

  /**
   * The service. `script(k)` is the answer to the k-th call ever made, so any
   * behaviour of the real service (eventual consistency, tables that stay
   * CREATING, permanent errors) is one choice of script. `log` is every call
   * made so far with the answer it got, oldest first.
   */
  class FakeDynamoDB {
    const script: nat -> Answer
    var log: seq<Exchange>

    constructor (script: nat -> Answer)
      ensures this.script == script && log == []
    {
      this.script := script;
      log := [];
    }

    /** Makes one call: it is answered as the script says for its position, and recorded with its answer. */
    method Call(req: Request) returns (a: Answer)
      modifies this
      ensures a == script(|old(log)|)
      ensures log == old(log) + [Exchange(req, a)]
    {
      a := script(|log|);
      log := log + [Exchange(req, a)];
    }
  }
}
