/** The job row that every store backend keeps, and small shared types. */
module Jobs {

  datatype Option<+T> = None | Some(value: T)

  datatype Status = Queued | Processing | Completed | Failed | Cancelled {
    predicate Terminal() {
      Completed? || Failed? || Cancelled?
    }

    predicate Dead() {
      Failed? || Cancelled?
    }
  }

  /** The parts of a request that scheduling reads. A request never changes once it is stored. */
  datatype Request = Request(
    dependsOn: seq<string>,
    jobLabel: string,
    labelGroup: string,
    labelSequence: seq<string>,
    idempotencyKey: Option<string>,
    bridgeCorrelation: Option<string>)

  datatype Result = Result(status: Status, body: string)

  /** One row of the jobs table. Timestamps are the ISO strings that the code stores. */
  datatype Row = Row(
    status: Status,
    request: Request,
    runAt: Option<string>,
    updatedAt: string,
    result: Option<Result>,
    leaseExpiresAt: Option<string>,
    leaseToken: Option<nat>,
    correlationId: Option<string>,
    idempotencyKey: Option<string>,
    published: bool)

  type Rows = map<string, Row>
}
