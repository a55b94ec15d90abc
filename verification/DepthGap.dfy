/**
 The queue depth against what is left to do, at real states: any number of messages can be published, delivered and
 committed, and the depth still counts every one of them (internal/broker/broker.go:325-336).
 */
module DepthGap {
  import opened Prelude
  import opened Messages
  import opened Partitioner
  import opened TopicProtocol
  import opened TopicInvariant
  import opened BrokerRuntime
  import opened BrokerProtocol

  /** `m` messages in one partition, all committed by the group of the one consumer, who is ready for more. */
  ghost predicate CaughtUp(t: Topic, n: nat, slot: Slot, m: nat) {
    && |t.parts| == n && slot.part < n && |t.parts[slot.part]| == m
    && (forall q: nat :: q < n && q != slot.part ==> t.parts[q] == [])
    && Committed(t, slot) == m && t.publishers == map[]
    && t.consumers.Keys == {0} && t.consumers[0].slot == slot && t.consumers[0].pc.Fetch?
  }

  function Accept(): Handler {
    (m: Message) => true
  }

  lemma OneRound(max: nat, t: Topic, n: nat, group: string, key: Bytes, m: nat) returns (ls: seq<Label>, t': Topic)
    requires max >= 1 && n >= 1 && CaughtUp(t, n, Slot(group, PartitionOf(key, n)), m)
    ensures Exec(max, t, ls) == Some(t') && CaughtUp(t', n, Slot(group, PartitionOf(key, n)), m + 1)
  {
    var publish := [BeginPublish(0, key, [], 0), Append(0), FinishPublish(0)];
    PublishRefines(max, t, 0, key, [], 0);
    var mid := Exec(max, t, publish).value;
    TurnRefines(max, mid, 0, Accept());
    var turn := TurnLabels(max, 0, Upcoming(mid, mid.consumers[0]), Accept());
    ExecConcat(max, t, publish, turn, mid);
    ls, t' := publish + turn, Exec(max, mid, turn).value;
  }

  lemma {:induction false} Rounds(max: nat, name: string, n: nat, group: string, key: Bytes, m: nat)
    returns (ls: seq<Label>, t: Topic)
    requires max >= 1 && n >= 1
    ensures Exec(max, NewTopic(name, n), ls) == Some(t) && CaughtUp(t, n, Slot(group, PartitionOf(key, n)), m)
  {
    var t0 := NewTopic(name, n);
    if m == 0 {
      InRange(key, n);
      var spawn := Spawn(0, group, PartitionOf(key, n), 0);
      var t1 := Apply(max, t0, spawn);
      t := Apply(max, t1, Step(0, Listen));
      ExecOne(max, t0, spawn);
      ExecOne(max, t1, Step(0, Listen));
      ExecConcat(max, t0, [spawn], [Step(0, Listen)], t1);
      ls := [spawn] + [Step(0, Listen)];
    } else {
      var before, mid := Rounds(max, name, n, group, key, m - 1);
      var more;
      more, t := OneRound(max, mid, n, group, key, m - 1);
      ExecConcat(max, t0, before, more, mid);
      ls := before + more;
    }
  }

  lemma CaughtUpLength(t: Topic, n: nat, slot: Slot, m: nat)
    requires CaughtUp(t, n, slot, m)
    ensures TotalLength(t.parts) == m
  {
    TotalUpdate(t.parts, slot.part, []);
    EmptyTotal(t.parts[slot.part := []]);
  }

  lemma {:induction false} CaughtUpLeft(t: Topic, n: nat, slot: Slot, m: nat, p: nat)
    requires CaughtUp(t, n, slot, m) && p <= n
    ensures Backlog(t, slot.group, p) == 0
  {
    if p > 0 {
      CaughtUpLeft(t, n, slot, m, p - 1);
      assert Slot(slot.group, p - 1) == slot || t.parts[p - 1] == [];
    }
  }

  lemma SumOne(name: string, v: nat)
    ensures Sum(map[name := v]) == v
  {
    SumRemove(map[name := v], name);
    assert map[name := v] - {name} == map[];
  }

  lemma DepthOfOne(b: BrokerProtocol.Broker, name: string, t: Topic)
    requires b.topics == map[name := t]
    ensures Depth(ReadingOf(b)) == TotalLength(t.parts)
  {
    TotalOfLengths(t.parts);
    SumOne(name, TotalLength(t.parts));
    assert Depths(ReadingOf(b)) == map[name := TotalLength(t.parts)];
  }

  lemma BacklogOfOne(b: BrokerProtocol.Broker, name: string, t: Topic, group: string)
    requires b.topics == map[name := t]
    ensures TotalBacklog(b, group) == Backlog(t, group, |t.parts|)
  {
    SumOne(name, Backlog(t, group, |t.parts|));
    assert Backlogs(b, group) == map[name := Backlog(t, group, |t.parts|)];
  }

  /**
   From a broker with any options, for any topic and group: a run after which `m` messages were published and every
   one of them committed, and the queue depth is `m` where nothing is left to consume.
   */
  lemma DepthOverstates(opts: seq<Opt>, name: string, group: string, m: nat)
    returns (ls: seq<BrokerLabel>)
    ensures Run(New(opts), ls).Some?
    ensures var b := Run(New(opts), ls).value;
            Sound(b) && Depth(ReadingOf(b)) == m && TotalBacklog(b, group) == 0 && Counted(b) == m
  {
    NewSound(opts);
    var b0 := New(opts);
    var n, max := b0.partitions, b0.maxRetries;
    var b1 := Next(b0, Ensure(name));
    var steps, t := Rounds(max, name, n, group, [], m);
    LiftRun(b1, name, steps, t);
    ls := [Ensure(name)] + Lift(name, steps);
    var b := b1.(topics := b1.topics[name := t]);
    assert ls[1..] == Lift(name, steps);
    TopicsPersist(b0, ls);
    assert b.topics == map[name := t];
    var slot := Slot(group, PartitionOf([], n));
    CaughtUpLength(t, n, slot, m);
    CaughtUpLeft(t, n, slot, m, n);
    DepthOfOne(b, name, t);
    BacklogOfOne(b, name, t, group);
    DepthIsPublished(b);
  }
}
