/** A message its handler keeps refusing is committed but never processed (internal/broker/broker.go:246-262). */
module Refusals {
  import opened Prelude
  import opened Messages
  import opened Partitioner
  import opened TopicProtocol
  import opened TopicTheorems
  import opened BrokerRuntime
  import opened ExactlyOnce
  import DepthGap

  function Refuse(): Handler {
    (m: Message) => false
  }

  lemma RefusedByAll(max: nat, m: Message)
    requires max >= 1
    ensures Refused(max, m, Refuse())
  {
    RetryShape(max, m, Refuse(), 1);
  }

  /** One refused delivery from a consumer that has nothing else to do. */
  lemma RefusedRound(max: nat, t: Topic, n: nat, group: string, key: Bytes) returns (ls: seq<Label>, t': Topic)
    requires max >= 1 && n >= 1 && DepthGap.CaughtUp(t, n, Slot(group, PartitionOf(key, n)), 0)
    ensures Exec(max, t, ls) == Some(t') && 0 in t'.consumers && Dead(0, 0) in t'.dead
    ensures t'.consumers[0].slot == Slot(group, PartitionOf(key, n))
    ensures Committed(t', Slot(group, PartitionOf(key, n))) == 1 && |t'.dlq| == |t.dlq| + 1
    ensures t'.consumers.Keys == {0}
  {
    var publish := [BeginPublish(0, key, [], 0), Append(0), FinishPublish(0)];
    PublishRefines(max, t, 0, key, [], 0);
    var mid := Exec(max, t, publish).value;
    TurnRefines(max, mid, 0, Refuse());
    var m := Upcoming(mid, mid.consumers[0]);
    RefusedByAll(max, m);
    var turn := TurnLabels(max, 0, m, Refuse());
    ExecConcat(max, t, publish, turn, mid);
    ls, t' := publish + turn, Exec(max, mid, turn).value;
    assert t'.dead == mid.dead + [Dead(0, 0)];
    assert t'.dead[|mid.dead|] == Dead(0, 0);
  }

  /** A sole consumer of the slot whose first message is committed, dead-lettered and never processed. */
  lemma RefusedNeverProcessed(max: nat, name: string, n: nat, group: string, key: Bytes) returns (t: Topic)
    requires max >= 1 && n >= 1
    ensures Reachable(max, name, n, t) && Sole(t, 0)
    ensures t.consumers[0].slot == Slot(group, PartitionOf(key, n)) && Committed(t, t.consumers[0].slot) == 1
    ensures Buried(t, t.consumers[0].slot, 0) && TimesProcessed(t, t.consumers[0].slot, 0) == 0
  {
    var slot := Slot(group, PartitionOf(key, n));
    var before, idle := DepthGap.Rounds(max, name, n, group, key, 0);
    var more;
    more, t := RefusedRound(max, idle, n, group, key);
    ExecConcat(max, NewTopic(name, n), before, more, idle);
    assert Exec(max, NewTopic(name, n), before + more) == Some(t);
    assert ConsumersOf(t, slot) == {0};
    OneConsumerOnce(max, name, n, t, slot);
  }
}
