/**
 The `Broker` object: topics created on demand, publishing, and the read-only views
 (internal/broker/broker.go:112-336).
 */
module BrokerObject {
  import opened Prelude
  import opened Messages
  import opened Partitioner
  import opened TopicProtocol
  import opened BrokerRuntime
  import opened TopicInvariant
  import BP = BrokerProtocol

  /** A topic's partitions and its dead-letter log; the fields never change once it is made. */
  datatype TopicObject = TopicObject(name: string, partitions: seq<Partition>, dlq: Partition)

  ghost function LogsOf(parts: seq<Partition>): seq<Log>
    reads parts
  {
    seq(|parts|, i requires 0 <= i < |parts| reads parts => parts[i].log)
  }

  /** The log a new topic's partitions start with. */
  function NoLogs(n: nat): seq<Log> {
    seq(n, _ => [])
  }

  ghost function SubsOf(parts: seq<Partition>): seq<seq<Channel>>
    reads parts
  {
    seq(|parts|, i requires 0 <= i < |parts| reads parts => parts[i].subs)
  }

  function NoSubs(n: nat): seq<seq<Channel>> {
    seq(n, _ => [])
  }

  /** All that can change about a topic: its logs, its dead letters, and who listens to which partition. */
  datatype TopicView = TopicView(logs: seq<Log>, dead: Log, listeners: seq<seq<Channel>>)

  /** A topic whose partitions are all empty, labelled and unwatched. */
  ghost predicate Blank(t: TopicObject, name: string, n: nat)
    reads t.partitions, t.dlq
  {
    && t.name == name && |t.partitions| == n
    && BlankPartition(t.dlq, name, -1)
    && forall i :: 0 <= i < n ==> BlankPartition(t.partitions[i], name, i)
  }

  ghost predicate BlankPartition(p: Partition, name: string, i: int)
    reads p
  {
    p.owner == (name, i) && p.log == [] && p.subs == []
  }

  method MakeTopic(name: string, n: nat) returns (t: TopicObject)
    ensures Blank(t, name, n) && fresh(t.dlq) && forall i :: 0 <= i < n ==> fresh(t.partitions[i])
  {
    var parts: seq<Partition> := [];
    while |parts| < n
      invariant |parts| <= n
      invariant forall i :: 0 <= i < |parts| ==> fresh(parts[i]) && BlankPartition(parts[i], name, i)
    {
      var p := new Partition((name, |parts|));
      parts := parts + [p];
    }
    var dlq := new Partition((name, -1));
    t := TopicObject(name, parts, dlq);
  }

  /** `append` on partition `p` of several: the others keep their logs. */
  method AppendAt(target: Partition, m: Message, ghost parts: seq<Partition>, ghost p: nat) returns (offset: nat)
    requires p < |parts| && parts[p] == target && target.Valid()
    requires forall i :: 0 <= i < |parts| && i != p ==> parts[i] != target
    modifies target`log, target.subs
    ensures target.Valid() && offset == |old(target.log)|
    ensures LogsOf(parts) == old(LogsOf(parts))[p := old(LogsOf(parts))[p] + [m.(offset := offset)]]
    ensures forall ch :: ch in target.subs ==> ch.full
  {
    offset := target.Append(m);
  }

  /** The inner loop of `Replay`, over one locked log. */
  method Filter(log: Log, from: int) returns (out: Log)
    ensures out == BP.Since(log, from)
  {
    out := [];
    var i := 0;
    while i < |log|
      invariant 0 <= i <= |log|
      invariant out == BP.Since(log[..i], from)
    {
      assert log[..i + 1][..i] == log[..i];
      if log[i].offset >= from {
        out := out + [log[i]];
      }
      i := i + 1;
    }
    assert log[..|log|] == log;
  }

  /** The lengths of the first `p` logs, added up. */
  function LengthUpTo(logs: seq<Log>, p: nat): nat
    requires p <= |logs|
  {
    if p == 0 then 0 else LengthUpTo(logs, p - 1) + |logs[p - 1]|
  }

  lemma {:induction false} LengthIsTotal(logs: seq<Log>, p: nat)
    requires p <= |logs|
    ensures LengthUpTo(logs, p) == TotalLength(logs[..p])
  {
    if p > 0 {
      LengthIsTotal(logs, p - 1);
      assert logs[..p] == logs[..p - 1] + [logs[p - 1]];
      BP.TotalSnoc(logs[..p - 1], logs[p - 1]);
    }
  }

  /** What the object holds of a topic, as values: logs, dead letters and count. */
  datatype TopicImage = TopicImage(logs: seq<Log>, dead: Log, published: nat)

  function NewImage(n: nat): TopicImage {
    TopicImage(NoLogs(n), [], 0)
  }

  /** A message more in one log, and one more counted. */
  function Added(image: TopicImage, p: nat, m: Message): TopicImage
    requires p < |image.logs|
  {
    image.(logs := image.logs[p := image.logs[p] + [m]], published := image.published + 1)
  }

  predicate TopicMatches(t: Topic, name: string, n: nat, image: TopicImage) {
    && t.name == name && |t.parts| == n
    && t.parts == image.logs && t.dlq == image.dead && t.published == image.published
  }

  /** A state of the broker's step machine and the object's topics agree. */
  ghost predicate Matches(b: BP.Broker, images: map<string, TopicImage>) {
    && b.partitions >= 1 && b.topics.Keys == images.Keys
    && forall name :: name in images ==> TopicMatches(b.topics[name], name, b.partitions, images[name])
  }

  function ImageIn(images: map<string, TopicImage>, name: string, n: nat): TopicImage {
    if name in images then images[name] else NewImage(n)
  }

  function TopicIn(b: BP.Broker, name: string): Topic {
    if name in b.topics then b.topics[name] else NewTopic(name, b.partitions)
  }

  /** An undisturbed publish as a run of one topic. */
  lemma TopicPublishes(max: nat, t: Topic, name: string, n: nat, image: TopicImage, pid: nat, key: Bytes, value: Bytes,
                       now: int)
    returns (steps: seq<Label>, t': Topic)
    requires n >= 1 && TopicMatches(t, name, n, image) && pid !in t.publishers
    ensures Exec(max, t, steps) == Some(t')
    ensures var p := PartitionOf(key, n);
            p < n && TopicMatches(t', name, n, Added(image, p, Message(key, value, name, p, |image.logs[p]|, now, 1)))
  {
    PublishRefines(max, t, pid, key, value, now);
    steps := [BeginPublish(pid, key, value, now), Append(pid), FinishPublish(pid)];
    t' := Exec(max, t, steps).value;
  }

  /** ... and of the broker, which first makes sure of the topic. */
  lemma BrokerPublishes(b: BP.Broker, images: map<string, TopicImage>, name: string, pid: nat, key: Bytes, value: Bytes,
                        now: int)
    returns (ls: seq<BP.BrokerLabel>, b': BP.Broker)
    requires Matches(b, images) && pid !in TopicIn(b, name).publishers
    ensures BP.Run(b, ls) == Some(b') && b' == b.(topics := b'.topics)
    ensures var image, p := ImageIn(images, name, b.partitions), PartitionOf(key, b.partitions);
            && p < |image.logs|
            && Matches(b', images[name := Added(image, p, Message(key, value, name, p, |image.logs[p]|, now, 1))])
  {
    var b1 := BP.Next(b, BP.Ensure(name));
    var steps, t' := TopicPublishes(b.maxRetries, b1.topics[name], name, b.partitions,
                                    ImageIn(images, name, b.partitions), pid, key, value, now);
    BP.LiftRun(b1, name, steps, t');
    ls := [BP.Ensure(name)] + BP.Lift(name, steps);
    assert ls[1..] == BP.Lift(name, steps);
    b' := b1.(topics := b1.topics[name := t']);
  }

  lemma OneChanged(images: map<string, TopicImage>, images': map<string, TopicImage>, name: string)
    requires images'.Keys == images.Keys + {name}
    requires forall other :: other in images && other != name ==> images'[other] == images[other]
    ensures images' == images[name := images'[name]]
  {
  }

  /** The objects a walk over all topics reads. */
  ghost function AllPartitions(topics: map<string, TopicObject>): set<Partition> {
    set name, p | name in topics && p in topics[name].partitions :: p
  }

  /** The total log length of each topic. */
  ghost function DepthsOf(topics: map<string, TopicObject>): map<string, nat>
    reads AllPartitions(topics)
  {
    assert forall name, p :: name in topics && p in topics[name].partitions ==> p in AllPartitions(topics);
    map name | name in topics :: LengthUpTo(LogsOf(topics[name].partitions), |topics[name].partitions|)
  }

  class Broker {
    var topics: map<string, TopicObject>
    var groups: map<string, map<string, ConsumerGroup>>
    var publishCount: map<string, nat>
    const defaultPartitions: nat
    const maxRetries: nat
    ghost var Repr: set<object>

    ghost predicate Owns(p: Partition, name: string, i: int)
      reads this, Repr
    {
      p in Repr && p.owner == (name, i) && p.Valid() && forall ch :: ch in p.subs ==> ch in Repr
    }

    ghost predicate OwnsTopic(name: string)
      requires name in topics
      reads this, Repr
    {
      var t := topics[name];
      && t.name == name && |t.partitions| == defaultPartitions
      && Owns(t.dlq, name, -1)
      && forall i :: 0 <= i < |t.partitions| ==> Owns(t.partitions[i], name, i)
    }

    ghost predicate Valid()
      reads this, Repr
    {
      && this in Repr && defaultPartitions >= 1 && maxRetries >= 1
      && topics.Keys == groups.Keys && publishCount.Keys <= topics.Keys
      && forall name :: name in topics ==> OwnsTopic(name)
    }

    /** The logs of a topic; a topic nobody has named yet has only empty ones. */
    ghost function Logs(name: string): seq<Log>
      requires Valid()
      reads this, Repr
    {
      if name in topics then LogsOf(topics[name].partitions) else NoLogs(defaultPartitions)
    }

    /** A topic's changeable state; a topic nobody has named yet reads as a new one. */
    ghost function View(name: string): TopicView
      requires Valid()
      reads this, Repr
    {
      if name in topics
      then TopicView(Logs(name), topics[name].dlq.log, SubsOf(topics[name].partitions))
      else TopicView(Logs(name), [], NoSubs(defaultPartitions))
    }

    function GroupsOf(name: string): map<string, ConsumerGroup>
      reads this
    {
      if name in groups then groups[name] else map[]
    }

    /** The channels subscribed to a partition. */
    ghost function Listeners(name: string, p: nat): seq<Channel>
      requires Valid() && name in topics && p < defaultPartitions
      reads this, Repr
    {
      assert OwnsTopic(name);
      topics[name].partitions[p].subs
    }

    function Published(name: string): nat
      reads this
    {
      if name in publishCount then publishCount[name] else 0
    }

    constructor (opts: seq<BP.Opt>)
      ensures Valid() && fresh(Repr) && topics == map[] && publishCount == map[]
      ensures defaultPartitions == BP.New(opts).partitions && maxRetries == BP.New(opts).maxRetries
    {
      BP.NewSound(opts);
      topics, groups, publishCount := map[], map[], map[];
      defaultPartitions, maxRetries := BP.New(opts).partitions, BP.New(opts).maxRetries;
      Repr := {this};
    }

    /** Enters a new topic into both maps. */
    method Install(name: string, t: TopicObject)
      requires Valid() && name !in topics && Blank(t, name, defaultPartitions)
      modifies this`topics, this`groups, this`Repr
      ensures Valid() && Repr == old(Repr) + {t.dlq} + set p | p in t.partitions
      ensures topics == old(topics)[name := t] && groups == old(groups)[name := map[]]
    {
      topics := topics[name := t];
      groups := groups[name := map[]];
      Repr := Repr + {t.dlq} + set p | p in t.partitions;
      forall other | other in topics
        ensures OwnsTopic(other)
      {
        assert other != name ==> old(OwnsTopic(other));
      }
    }

    lemma BlankView(name: string)
      requires Valid() && name in topics && Blank(topics[name], name, defaultPartitions)
      ensures View(name) == TopicView(NoLogs(defaultPartitions), [], NoSubs(defaultPartitions))
    {
      assert Logs(name) == NoLogs(defaultPartitions);
      assert SubsOf(topics[name].partitions) == NoSubs(defaultPartitions);
    }

    method Enter(name: string, t: TopicObject)
      requires Valid() && name !in topics && Blank(t, name, defaultPartitions)
      modifies this`topics, this`groups, this`Repr
      ensures Valid() && Repr == old(Repr) + {t.dlq} + set p | p in t.partitions
      ensures topics == old(topics)[name := t] && groups == old(groups)[name := map[]]
      ensures forall other :: other != name ==> View(other) == old(View(other))
    {
      Install(name, t);
      forall other | other != name
        ensures View(other) == old(View(other))
      {
        assert other in topics ==> old(OwnsTopic(other));
      }
    }

    method Create(name: string) returns (t: TopicObject)
      requires Valid() && name !in topics
      modifies this`topics, this`groups, this`Repr
      ensures Valid() && old(Repr) <= Repr && fresh(Repr - old(Repr))
      ensures topics == old(topics)[name := t] && groups == old(groups)[name := map[]]
      ensures forall other :: View(other) == old(View(other))
    {
      t := MakeTopic(name, defaultPartitions);
      Enter(name, t);
      BlankView(name);
    }

    /** Creates a topic the first time it is named, and never replaces one. */
    method EnsureTopic(name: string) returns (t: TopicObject)
      requires Valid()
      modifies this
      ensures Valid() && old(Repr) <= Repr && fresh(Repr - old(Repr))
      ensures publishCount == old(publishCount)
      ensures name in topics && topics[name] == t
      ensures topics == if name in old(topics) then old(topics) else old(topics)[name := t]
      ensures groups == if name in old(topics) then old(groups) else old(groups)[name := map[]]
      ensures forall other :: View(other) == old(View(other))
    {
      if name in topics {
        return topics[name];
      }
      t := Create(name);
    }

    /** `partition.append` on a partition of this broker: one log grows, everything else stays. */
    method AppendTo(name: string, p: nat, m: Message) returns (offset: nat)
      requires Valid() && name in topics && p < defaultPartitions
      modifies Repr
      ensures Valid() && Repr == old(Repr) && topics == old(topics) && groups == old(groups)
      ensures publishCount == old(publishCount)
      ensures offset == |old(Logs(name))[p]|
      ensures View(name) == old(View(name)).(logs := old(Logs(name))[p := old(Logs(name))[p] + [m.(offset := offset)]])
      ensures forall ch :: ch in Listeners(name, p) ==> ch.full
      ensures forall ch: Channel :: ch in old(Repr) && ch !in Listeners(name, p) ==> ch.full == old(ch.full)
      ensures forall other :: other != name ==> View(other) == old(View(other))
    {
      assert OwnsTopic(name);
      offset := AppendAt(topics[name].partitions[p], m, topics[name].partitions, p);
      forall other | other in topics
        ensures OwnsTopic(other)
        ensures other != name ==> View(other) == old(View(other))
      {
        assert old(OwnsTopic(other));
      }
      assert SubsOf(topics[name].partitions) == old(SubsOf(topics[name].partitions));
    }

    method Count(name: string)
      requires Valid() && name in topics
      modifies this`publishCount
      ensures Valid() && Published(name) == old(Published(name)) + 1
      ensures forall other :: other != name ==> Published(other) == old(Published(other))
      ensures forall other :: View(other) == old(View(other))
    {
      publishCount := publishCount[name := (if name in publishCount then publishCount[name] else 0) + 1];
      assert forall other :: other in topics ==> old(OwnsTopic(other));
    }

    method AppendAndCount(name: string, p: nat, m: Message) returns (offset: nat)
      requires Valid() && name in topics && p < defaultPartitions
      modifies Repr
      ensures Valid() && Repr == old(Repr) && topics == old(topics) && groups == old(groups)
      ensures offset == |old(Logs(name))[p]|
      ensures View(name) == old(View(name)).(logs := old(Logs(name))[p := old(Logs(name))[p] + [m.(offset := offset)]])
      ensures forall ch :: ch in Listeners(name, p) ==> ch.full
      ensures forall ch: Channel :: ch in old(Repr) && ch !in Listeners(name, p) ==> ch.full == old(ch.full)
      ensures forall other :: other != name ==> View(other) == old(View(other))
      ensures Published(name) == old(Published(name)) + 1
      ensures forall other :: other != name ==> Published(other) == old(Published(other))
    {
      offset := AppendTo(name, p, m);
      Count(name);
    }

    /** The topic is there, and the key's partition is one of its own. */
    method Route(name: string, key: Bytes) returns (p: nat)
      requires Valid()
      modifies this
      ensures Valid() && old(Repr) <= Repr && fresh(Repr - old(Repr))
      ensures publishCount == old(publishCount) && forall other :: Published(other) == old(Published(other))
      ensures groups == if name in old(topics) then old(groups) else old(groups)[name := map[]]
      ensures name in topics
      ensures topics == if name in old(topics) then old(topics) else old(topics)[name := topics[name]]
      ensures p == PartitionOf(key, defaultPartitions) && p < defaultPartitions
      ensures forall other :: View(other) == old(View(other))
    {
      var t := EnsureTopic(name);
      assert OwnsTopic(name);
      p := PartitionFor(key, |t.partitions|);
    }

    /** Appends to the key's partition and counts the message; nothing else moves. */
    method Publish(name: string, key: Bytes, value: Bytes, now: int) returns (p: nat, offset: nat)
      requires Valid()
      modifies Repr
      ensures Valid() && old(Repr) <= Repr && fresh(Repr - old(Repr))
      ensures name in topics && p == PartitionOf(key, defaultPartitions) && p < defaultPartitions
      ensures offset == |old(Logs(name))[p]|
      ensures View(name) == old(View(name)).(
                logs := old(Logs(name))[p := old(Logs(name))[p] + [Message(key, value, name, p, offset, now, 1)]])
      ensures forall ch :: ch in Listeners(name, p) ==> ch.full
      ensures forall ch: Channel :: ch in old(Repr) && ch !in Listeners(name, p) ==> ch.full == old(ch.full)
      ensures Published(name) == old(Published(name)) + 1
      ensures topics == if name in old(topics) then old(topics) else old(topics)[name := topics[name]]
      ensures groups == if name in old(topics) then old(groups) else old(groups)[name := map[]]
      ensures forall other :: other != name ==> Published(other) == old(Published(other))
      ensures forall other :: other != name ==> View(other) == old(View(other))
    {
      p := Route(name, key);
      offset := AppendAndCount(name, p, Message(key, value, name, p, 0, now, 1));
    }

    method Enroll(name: string, group: string) returns (cg: ConsumerGroup)
      requires Valid() && name in groups
      modifies this`groups
      ensures Valid() && fresh(cg) && cg.offsets == map[]
      ensures groups == old(groups)[name := old(groups[name])[group := cg]]
      ensures forall other :: View(other) == old(View(other))
    {
      cg := new ConsumerGroup();
      groups := groups[name := groups[name][group := cg]];
      assert forall other :: other in topics ==> old(OwnsTopic(other));
    }

    /** Finds or creates the group; its offsets survive later subscriptions. */
    method Group(name: string, group: string) returns (cg: ConsumerGroup)
      requires Valid()
      modifies this
      ensures Valid() && name in topics && name in groups && group in groups[name] && groups[name][group] == cg
      ensures publishCount == old(publishCount)
      ensures topics == if name in old(topics) then old(topics) else old(topics)[name := topics[name]]
      ensures name in old(groups) && group in old(groups)[name] ==> groups == old(groups)
      ensures !(name in old(groups) && group in old(groups)[name]) ==>
                && fresh(cg) && cg.offsets == map[]
                && groups == old(groups)[name := old(GroupsOf(name))[group := cg]]
      ensures forall other :: View(other) == old(View(other))
    {
      var _ := EnsureTopic(name);
      if group in groups[name] {
        return groups[name][group];
      }
      cg := Enroll(name, group);
    }

    /** Every message at or past an offset, partition by partition; an unknown topic is an error. */
    method Replay(name: string, from: int) returns (msgs: Option<Log>)
      requires Valid()
      ensures msgs.None? <==> name !in topics
      ensures msgs.Some? ==> msgs.value == BP.Suffixes(Logs(name), from)
    {
      if name !in topics {
        return None;
      }
      assert OwnsTopic(name);
      var out: Log := [];
      var parts := topics[name].partitions;
      ghost var logs := Logs(name);
      var p := 0;
      while p < |parts|
        invariant 0 <= p <= |parts|
        invariant out == BP.ReplayOf(logs[..p], from)
      {
        assert logs[..p + 1][..p] == logs[..p];
        var more := Filter(parts[p].log, from);
        out := out + more;
        p := p + 1;
      }
      assert logs[..|parts|] == logs;
      BP.ReplayIsSuffixes(logs, from);
      return Some(out);
    }

    /** A copy of the dead-letter log; an unknown topic is an error. */
    method DLQ(name: string) returns (msgs: Option<Log>)
      requires Valid()
      ensures msgs == if name in topics then Some(topics[name].dlq.log) else None
    {
      if name !in topics {
        return None;
      }
      return Some(topics[name].dlq.log);
    }

    /** The total length of all partition logs, topics taken in any order. */
    method QueueDepth() returns (depth: nat)
      ensures depth == Sum(DepthsOf(topics))
    {
      depth := 0;
      var todo := topics.Keys;
      ghost var depths, walk: seq<string> := DepthsOf(topics), [];
      while todo != {}
        invariant todo <= topics.Keys
        invariant forall name :: name in walk <==> name in topics && name !in todo
        invariant forall i, j :: 0 <= i < j < |walk| ==> walk[i] != walk[j]
        invariant depth == WalkTotal(depths, walk)
        decreases todo
      {
        var name :| name in todo;
        var parts := topics[name].partitions;
        ghost var before := depth;
        var p := 0;
        while p < |parts|
          invariant 0 <= p <= |parts|
          invariant depth == before + LengthUpTo(LogsOf(parts), p)
        {
          depth := depth + |parts[p].log|;
          p := p + 1;
        }
        assert (walk + [name])[..|walk|] == walk;
        todo, walk := todo - {name}, walk + [name];
      }
      WalkSum(depths, walk);
    }

    // ---- The object as a state of the broker's step machine ----

    ghost function ImageOf(name: string): TopicImage
      requires Valid()
      reads this, Repr
    {
      TopicImage(View(name).logs, View(name).dead, Published(name))
    }

    ghost function Images(): map<string, TopicImage>
      requires Valid()
      reads this, Repr
    {
      map name | name in topics :: ImageOf(name)
    }

    /** Same settings, same topics, and of each topic the same logs, dead letters and count. */
    ghost predicate Represents(b: BP.Broker)
      requires Valid()
      reads this, Repr
    {
      b.partitions == defaultPartitions && b.maxRetries == maxRetries && Matches(b, Images())
    }

    lemma DepthsAreLengths()
      requires Valid()
      ensures DepthsOf(topics).Keys == Images().Keys
      ensures forall name :: name in topics ==> DepthsOf(topics)[name] == TotalLength(Images()[name].logs)
    {
      forall name | name in topics
        ensures DepthsOf(topics)[name] == TotalLength(Images()[name].logs)
      {
        var logs := LogsOf(topics[name].partitions);
        LengthIsTotal(logs, |logs|);
        assert logs[..|logs|] == logs;
      }
    }

    /** What `QueueDepth` returns is the depth of every state the object represents. */
    lemma DepthRepresents(b: BP.Broker)
      requires Valid() && Represents(b)
      ensures Sum(DepthsOf(topics)) == BP.Depth(BP.ReadingOf(b))
    {
      DepthsAreLengths();
      BP.DepthOfLengths(b, DepthsOf(topics));
    }

    /** Publishing, image by image. */
    method PublishImage(name: string, key: Bytes, value: Bytes, now: int) returns (p: nat, offset: nat)
      requires Valid()
      modifies Repr
      ensures Valid() && topics.Keys == old(topics).Keys + {name} && p == PartitionOf(key, defaultPartitions)
      ensures p < |old(ImageOf(name)).logs| && offset == |old(ImageOf(name)).logs[p]|
      ensures ImageOf(name) == Added(old(ImageOf(name)), p, Message(key, value, name, p, offset, now, 1))
      ensures forall other :: other != name ==> ImageOf(other) == old(ImageOf(other))
    {
      assert name in topics ==> OwnsTopic(name);
      p, offset := Publish(name, key, value, now);
    }

    method PublishImages(name: string, key: Bytes, value: Bytes, now: int, ghost images: map<string, TopicImage>)
      returns (p: nat, offset: nat)
      requires Valid() && images == Images()
      modifies Repr
      ensures Valid() && p == PartitionOf(key, defaultPartitions)
      ensures p < |old(ImageOf(name)).logs| && offset == |old(ImageOf(name)).logs[p]|
      ensures Images() == images[name := Added(old(ImageOf(name)), p, Message(key, value, name, p, offset, now, 1))]
    {
      p, offset := PublishImage(name, key, value, now);
      forall other | other in images && other != name
        ensures other in topics && ImageOf(other) == images[other]
      {
        assert images[other] == old(ImageOf(other));
      }
      OneChanged(images, Images(), name);
    }

    lemma ImageInImages(name: string)
      requires Valid()
      ensures ImageIn(Images(), name, defaultPartitions) == ImageOf(name)
    {
    }

    /** A publish takes the state the object represents to one it represents afterwards, reached by a run. */
    method PublishTurn(name: string, key: Bytes, value: Bytes, now: int, ghost b: BP.Broker, ghost pid: nat)
      returns (p: nat, offset: nat, ghost ls: seq<BP.BrokerLabel>, ghost b': BP.Broker)
      requires Valid() && Represents(b) && pid !in TopicIn(b, name).publishers
      modifies Repr
      ensures Valid() && Represents(b') && BP.Run(b, ls) == Some(b')
      ensures p == PartitionOf(key, defaultPartitions)
      ensures p < |old(ImageOf(name)).logs| && offset == |old(ImageOf(name)).logs[p]|
    {
      ghost var images := Images();
      ImageInImages(name);
      ls, b' := BrokerPublishes(b, images, name, pid, key, value, now);
      p, offset := PublishImages(name, key, value, now, images);
    }
  }
}
