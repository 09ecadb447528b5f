/** The coordination-service (ZooKeeper) client as the node sees it: a
    session handle, the calls a state makes, and the replies the service can
    give. Replies are inputs of the model; calls are what it records. */
module Zk {
  import opened Wrappers

  /** A `*zk.Conn`: nil, or a live session. */
  datatype Conn = NilConn | Session(id: nat)

  /** What `zk.Connect` hands back: a connection handle and an error, which
      the client library does not force to be exclusive. */
  datatype ConnectReply = ConnectReply(conn: Conn, err: Option<Error>)

  /** What `conn.Exists` hands back. */
  datatype ExistsReply = ExistsReply(found: bool, err: Option<Error>)

  /** An external action, in the order a state performs it. */
  datatype Call =
    | Connect(dialTimeout: int)
    | Exists(path: string)
    | Create(path: string)
    | CreateProtectedEphemeralSequential(path: string)
    | Children(path: string)
    | ExistsW(path: string)
    | Close(conn: Conn)
    | Timer(seconds: int)       // a `time.After` timer that fired and was taken by a select

  /** The namespace node of the election recipe. */
  const ElectionPath: string := "/election"

  /** The dial timeout every `zk.Connect` call in the core passes, in seconds. */
  const DialTimeout: int := 10
}
