/**
 * The plain records of pkg/types/types.go, and the key-value pair a read of
 * the store returns.
 */
module Types {

  /** A key's state at one revision, as a point-in-time read reports it. */
  datatype KeyValue = KeyValue(
    value: string,
    version: int,
    createRevision: int,
    modRevision: int)

  /** One entry of a key's history. */
  datatype VersionRecord = VersionRecord(
    version: int,
    value: string,
    revision: int,
    createRevision: int,
    modRevision: int)

  /** The query options; endpoints and credentials are only used to connect. */
  datatype Options = Options(
    endpoints: seq<string>,
    key: string,
    limit: int,
    order: string,
    username: string,
    password: string)
}
