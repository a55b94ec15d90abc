/** Messages and the append-only logs they live in (internal/broker/broker.go:14-71). */
module Messages {
  import opened Prelude

  type Bytes = seq<bv8>

  datatype Message = Message(
    key: Bytes,
    value: Bytes,
    topic: string,
    partition: nat,
    offset: int,
    timestamp: int,
    attempt: int)

  type Log = seq<Message>

  /** The log after `partition.append`: the offset is overwritten with the position. */
  function Extend(log: Log, m: Message): Log {
    log + [m.(offset := |log|)]
  }

  /** What `partition.get` finds at an offset; negative and future offsets are misses. */
  function Lookup(log: Log, offset: int): Option<Message> {
    if offset < 0 || offset >= |log| then None else Some(log[offset])
  }

  /** Every entry carries its own position. */
  ghost predicate Numbered(log: Log) {
    forall i :: 0 <= i < |log| ==> log[i].offset == i
  }

  /** What `consumerGroup.commit` leaves behind: commits never move backwards. */
  function CommitMax(committed: nat, offset: nat): nat {
    if offset > committed then offset else committed
  }
}
