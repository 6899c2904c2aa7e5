/** Commands that travel through a shard's replicated log, and the small types shared by the
    cluster modules. */
module Commands {

  datatype Option<+T> = None | Some(value: T)

  type Key = string
  type Value = string
  type TxnId = string

  /** One write of a transaction; `None` deletes the key. */
  datatype Write = Write(key: Key, value: Option<Value>)

  /** A log command. `Noop` is the entry every new leader appends; `Put` is a single-shard commit;
      the other three drive a two-phase commit on one participant. */
  datatype Command =
    | Noop
    | Put(ts: nat, writes: seq<Write>)
    | Prepare(txn: TxnId, commitTs: nat, writes: seq<Write>)
    | Commit(txn: TxnId)
    | Abort(txn: TxnId)
}
