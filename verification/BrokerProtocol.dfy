/** The whole broker: topics created on demand, each running its own delivery protocol. */
module BrokerProtocol {
  import opened Prelude
  import opened Messages
  import opened TopicProtocol
  import opened TopicInvariant

  datatype Broker = Broker(topics: map<string, Topic>, partitions: nat, maxRetries: nat)

  // ---- Configuration ----

  datatype Opt = WithPartitions(n: int) | WithMaxRetries(n: int)

  function Configure(b: Broker, o: Opt): Broker {
    match o
    case WithPartitions(n) => if n > 0 then b.(partitions := n) else b
    case WithMaxRetries(n) => if n > 0 then b.(maxRetries := n) else b
  }

  function New(opts: seq<Opt>): Broker {
    if opts == [] then Broker(map[], 4, 3)
    else Configure(New(opts[..|opts| - 1]), opts[|opts| - 1])
  }

  // ---- Steps ----

  datatype BrokerLabel = Ensure(name: string) | On(name: string, l: Label)

  predicate CanStep(b: Broker, bl: BrokerLabel) {
    bl.On? ==> bl.name in b.topics && Enabled(b.topics[bl.name], bl.l)
  }

  function Next(b: Broker, bl: BrokerLabel): Broker
    requires CanStep(b, bl)
  {
    match bl
    case Ensure(name) =>
      if name in b.topics then b else b.(topics := b.topics[name := NewTopic(name, b.partitions)])
    case On(name, l) => b.(topics := b.topics[name := Apply(b.maxRetries, b.topics[name], l)])
  }

  function Run(b: Broker, ls: seq<BrokerLabel>): Option<Broker>
    decreases |ls|
  {
    if ls == [] then Some(b)
    else if CanStep(b, ls[0]) then Run(Next(b, ls[0]), ls[1..])
    else None
  }

  /** Every topic of the broker is in a state its own protocol can reach, under usable settings. */
  ghost predicate Sound(b: Broker) {
    && b.partitions >= 1 && b.maxRetries >= 1
    && forall name :: name in b.topics ==> Reachable(b.maxRetries, name, b.partitions, b.topics[name])
  }

  /** Option `o` is of the same kind as `kind` and has an effect. */
  predicate Effective(kind: Opt, o: Opt) {
    o.n > 0 && (o.WithPartitions? <==> kind.WithPartitions?)
  }

  /** Option `i` has an effect and no later one of its kind does. */
  ghost predicate LastOf(opts: seq<Opt>, kind: Opt, i: int) {
    0 <= i < |opts| && Effective(kind, opts[i]) && forall j :: i < j < |opts| ==> !Effective(kind, opts[j])
  }

  ghost predicate NoneOf(opts: seq<Opt>, kind: Opt) {
    forall j :: 0 <= j < |opts| ==> !Effective(kind, opts[j])
  }

  function Setting(b: Broker, kind: Opt): nat {
    if kind.WithPartitions? then b.partitions else b.maxRetries
  }

  /**
   Whatever the options, in whatever order: both settings are usable, the last positive option of a kind decides, and
   without one the default stands.
   */
  lemma {:induction false} NewSound(opts: seq<Opt>)
    ensures Sound(New(opts)) && New(opts).topics == map[]
    ensures forall kind, i :: LastOf(opts, kind, i) ==> Setting(New(opts), kind) == opts[i].n
    ensures forall kind :: NoneOf(opts, kind) ==> Setting(New(opts), kind) == if kind.WithPartitions? then 4 else 3
  {
    if opts != [] {
      var n := |opts| - 1;
      var front := opts[..n];
      NewSound(front);
      forall kind, i | LastOf(opts, kind, i)
        ensures Setting(New(opts), kind) == opts[i].n
      {
        assert i == n || LastOf(front, kind, i);
      }
      forall kind | NoneOf(opts, kind)
        ensures NoneOf(front, kind) && !Effective(kind, opts[n])
      {
      }
    }
  }

  lemma SoundStep(b: Broker, bl: BrokerLabel)
    requires Sound(b) && CanStep(b, bl)
    ensures Sound(Next(b, bl))
  {
    match bl
    case Ensure(name) =>
      assert Exec(b.maxRetries, NewTopic(name, b.partitions), []) == Some(NewTopic(name, b.partitions));
    case On(name, l) =>
      var t := b.topics[name];
      var t' := Apply(b.maxRetries, t, l);
      assert Exec(b.maxRetries, t', [l][1..]) == Some(t');
      ReachableOn(b.maxRetries, name, b.partitions, t, [l], t');
  }

  /** `t'` is a later state of the very same topic. */
  ghost predicate Continues(max: nat, t: Topic, t': Topic) {
    exists ls :: Exec(max, t, ls) == Some(t')
  }

  lemma ContinuesTrans(max: nat, t: Topic, t': Topic, t'': Topic)
    requires Continues(max, t, t') && Continues(max, t', t'')
    ensures Continues(max, t, t'')
  {
    var ls :| Exec(max, t, ls) == Some(t');
    var ms :| Exec(max, t', ms) == Some(t'');
    ExecConcat(max, t, ls, ms, t');
  }

  lemma ContinuesStep(b: Broker, bl: BrokerLabel, name: string)
    requires CanStep(b, bl) && name in b.topics
    ensures name in Next(b, bl).topics && Continues(b.maxRetries, b.topics[name], Next(b, bl).topics[name])
  {
    var t := b.topics[name];
    if bl.On? && bl.name == name {
      assert Exec(b.maxRetries, Apply(b.maxRetries, t, bl.l), [bl.l][1..]) == Some(Apply(b.maxRetries, t, bl.l));
      assert Exec(b.maxRetries, t, [bl.l]) == Some(Apply(b.maxRetries, t, bl.l));
    } else {
      assert Exec(b.maxRetries, t, []) == Some(t);
    }
  }

  /** Over any run: soundness is kept, and no topic is ever replaced; it only moves on from where it was. */
  lemma {:induction false} TopicsPersist(b: Broker, ls: seq<BrokerLabel>)
    requires Sound(b) && Run(b, ls).Some?
    ensures Sound(Run(b, ls).value)
    ensures Run(b, ls).value.(topics := b.topics) == b
    ensures forall name :: name in b.topics ==>
              name in Run(b, ls).value.topics
              && Continues(b.maxRetries, b.topics[name], Run(b, ls).value.topics[name])
    decreases |ls|
  {
    if ls == [] {
      forall name | name in b.topics
        ensures Continues(b.maxRetries, b.topics[name], b.topics[name])
      {
        assert Exec(b.maxRetries, b.topics[name], []) == Some(b.topics[name]);
      }
    } else {
      var b' := Next(b, ls[0]);
      SoundStep(b, ls[0]);
      TopicsPersist(b', ls[1..]);
      forall name | name in b.topics
        ensures name in Run(b, ls).value.topics
        ensures Continues(b.maxRetries, b.topics[name], Run(b, ls).value.topics[name])
      {
        ContinuesStep(b, ls[0], name);
        ContinuesTrans(b.maxRetries, b.topics[name], b'.topics[name], Run(b, ls).value.topics[name]);
      }
    }
  }

  function Lift(name: string, ls: seq<Label>): seq<BrokerLabel> {
    if ls == [] then [] else [On(name, ls[0])] + Lift(name, ls[1..])
  }

  /** A run of one topic is a run of the broker. */
  lemma {:induction false} LiftRun(b: Broker, name: string, ls: seq<Label>, t: Topic)
    requires name in b.topics && Exec(b.maxRetries, b.topics[name], ls) == Some(t)
    ensures Run(b, Lift(name, ls)) == Some(b.(topics := b.topics[name := t]))
    decreases |ls|
  {
    if ls == [] {
      assert b.topics[name := t] == b.topics;
    } else {
      var b' := Next(b, On(name, ls[0]));
      LiftRun(b', name, ls[1..], t);
      assert Lift(name, ls)[1..] == Lift(name, ls[1..]);
      assert b'.topics[name := t] == b.topics[name := t];
    }
  }

  // ---- Logs over time ----

  lemma {:induction false} LogsPersist(max: nat, t: Topic, ls: seq<Label>)
    requires Exec(max, t, ls).Some?
    ensures |Exec(max, t, ls).value.parts| == |t.parts|
    ensures forall p: nat :: p < |t.parts| ==> t.parts[p] <= Exec(max, t, ls).value.parts[p]
    decreases |ls|
  {
    if ls != [] {
      LogsGrow(max, t, ls[0]);
      LogsPersist(max, Apply(max, t, ls[0]), ls[1..]);
    }
  }

  lemma PrefixLater(max: nat, t: Topic, t': Topic)
    requires Continues(max, t, t')
    ensures |t'.parts| == |t.parts|
    ensures forall p: nat :: p < |t.parts| ==> t.parts[p] <= t'.parts[p]
  {
    var ls :| Exec(max, t, ls) == Some(t');
    LogsPersist(max, t, ls);
  }

  // ---- Queue depth ----

  function Lengths(parts: seq<Log>): seq<nat> {
    seq(|parts|, p requires 0 <= p < |parts| => |parts[p]|)
  }

  function Total(ns: seq<nat>): nat {
    if ns == [] then 0 else ns[0] + Total(ns[1..])
  }

  lemma {:induction false} TotalOfLengths(parts: seq<Log>)
    ensures Total(Lengths(parts)) == TotalLength(parts)
  {
    if parts != [] {
      assert Lengths(parts)[1..] == Lengths(parts[1..]);
      TotalOfLengths(parts[1..]);
    }
  }

  lemma {:induction false} TotalMonotone(a: seq<nat>, b: seq<nat>)
    requires |a| == |b| && forall i :: 0 <= i < |a| ==> a[i] <= b[i]
    ensures Total(a) <= Total(b)
  {
    if a != [] {
      TotalMonotone(a[1..], b[1..]);
    }
  }

  /** The lengths a walk over the topics collects, one seq of partition lengths per topic. */
  type Reading = map<string, seq<nat>>

  function Depths(r: Reading): map<string, nat> {
    map name | name in r :: Total(r[name])
  }

  ghost function Depth(r: Reading): nat {
    Sum(Depths(r))
  }

  function ReadingOf(b: Broker): Reading {
    map name | name in b.topics :: Lengths(b.topics[name].parts)
  }

  /** The depth, given the total length of each topic. */
  lemma DepthOfLengths(b: Broker, m: map<string, nat>)
    requires m.Keys == b.topics.Keys && forall name :: name in m ==> m[name] == TotalLength(b.topics[name].parts)
    ensures Sum(m) == Depth(ReadingOf(b))
  {
    forall name | name in m
      ensures m[name] == Depths(ReadingOf(b))[name]
    {
      TotalOfLengths(b.topics[name].parts);
    }
    assert m == Depths(ReadingOf(b));
  }

  ghost predicate Pointwise(a: seq<nat>, b: seq<nat>) {
    |a| == |b| && forall i :: 0 <= i < |a| ==> a[i] <= b[i]
  }

  lemma DepthMonotone(r: Reading, r': Reading)
    requires r.Keys <= r'.Keys && forall name :: name in r ==> Pointwise(r[name], r'[name])
    ensures Depth(r) <= Depth(r')
  {
    forall name | name in r
      ensures Total(r[name]) <= Total(r'[name])
    {
      TotalMonotone(r[name], r'[name]);
    }
    SumMonotone(Depths(r), Depths(r'));
  }

  /**
   A value `k` that `partition.length()` can return for partition `p` of topic `name` while the broker goes from
   `b` to `b'`: the length at some moment in between.
   */
  ghost predicate SeenBetween(b: Broker, b': Broker, name: string, p: nat, k: nat) {
    exists mid, ls, ms ::
      && Run(b, ls) == Some(mid) && Run(mid, ms) == Some(b')
      && name in mid.topics && p < |mid.topics[name].parts| && k == |mid.topics[name].parts[p]|
  }

  lemma SeenBounds(b: Broker, b': Broker, name: string, p: nat, k: nat)
    requires Sound(b) && name in b.topics && p < |b.topics[name].parts| && SeenBetween(b, b', name, p, k)
    ensures name in b'.topics && p < |b'.topics[name].parts|
    ensures |b.topics[name].parts[p]| <= k <= |b'.topics[name].parts[p]|
  {
    var mid, ls, ms :| Run(b, ls) == Some(mid) && Run(mid, ms) == Some(b')
      && name in mid.topics && p < |mid.topics[name].parts| && k == |mid.topics[name].parts[p]|;
    TopicsPersist(b, ls);
    TopicsPersist(mid, ms);
    PrefixLater(b.maxRetries, b.topics[name], mid.topics[name]);
    PrefixLater(mid.maxRetries, mid.topics[name], b'.topics[name]);
  }

  lemma TopicReading(b: Broker, b': Broker, name: string, ns: seq<nat>)
    requires Sound(b) && name in b.topics && name in b'.topics
    requires |ns| == |b.topics[name].parts| == |b'.topics[name].parts|
    requires forall p: nat :: p < |ns| ==> SeenBetween(b, b', name, p, ns[p])
    ensures Pointwise(ReadingOf(b)[name], ns) && Pointwise(ns, ReadingOf(b')[name])
  {
    forall p: nat | p < |ns|
      ensures |b.topics[name].parts[p]| <= ns[p] <= |b'.topics[name].parts[p]|
    {
      SeenBounds(b, b', name, p, ns[p]);
    }
  }

  /**
   `QueueDepth` locks one partition at a time, so its reading need not match any single state; it still lies
   between the depth when it started and the depth when it finished (no topic is added meanwhile: it holds the
   broker's read lock).
   */
  lemma DepthSandwich(b: Broker, b': Broker, r: Reading)
    requires Sound(b) && b'.topics.Keys == b.topics.Keys && r.Keys == b.topics.Keys
    requires forall name :: name in r ==> |r[name]| == |b.topics[name].parts| == |b'.topics[name].parts|
    requires forall name, p: nat :: name in r && p < |r[name]| ==> SeenBetween(b, b', name, p, r[name][p])
    ensures Depth(ReadingOf(b)) <= Depth(r) <= Depth(ReadingOf(b'))
  {
    forall name | name in r
      ensures Pointwise(ReadingOf(b)[name], r[name]) && Pointwise(r[name], ReadingOf(b')[name])
    {
      TopicReading(b, b', name, r[name]);
    }
    DepthMonotone(ReadingOf(b), r);
    DepthMonotone(r, ReadingOf(b'));
  }

  /** Over any run, new topics included, the depth never falls. */
  lemma DepthNeverFalls(b: Broker, ls: seq<BrokerLabel>)
    requires Sound(b) && Run(b, ls).Some?
    ensures Depth(ReadingOf(b)) <= Depth(ReadingOf(Run(b, ls).value))
  {
    TopicsPersist(b, ls);
    var b' := Run(b, ls).value;
    forall name | name in b.topics
      ensures Pointwise(ReadingOf(b)[name], ReadingOf(b')[name])
    {
      PrefixLater(b.maxRetries, b.topics[name], b'.topics[name]);
    }
    DepthMonotone(ReadingOf(b), ReadingOf(b'));
  }

  ghost function Counted(b: Broker): nat {
    Sum(map name | name in b.topics :: b.topics[name].published)
  }

  /** With no publisher between its append and its count, the queue depth is the number of published messages. */
  lemma DepthIsPublished(b: Broker)
    requires Sound(b)
    requires forall name :: name in b.topics ==> b.topics[name].publishers == map[]
    ensures Depth(ReadingOf(b)) == Counted(b)
  {
    var r := ReadingOf(b);
    forall name | name in b.topics
      ensures Total(r[name]) == b.topics[name].published
    {
      var t := b.topics[name];
      ReachableInv(b.maxRetries, name, b.partitions, t);
      TotalOfLengths(t.parts);
      assert Uncounted(t) == {};
    }
    assert Depths(r) == map name | name in b.topics :: b.topics[name].published;
  }

  // ---- Depth against backlog ----

  function CommittedTotal(t: Topic, group: string, p: nat): nat
    requires p <= |t.parts|
  {
    if p == 0 then 0 else CommittedTotal(t, group, p - 1) + Committed(t, Slot(group, p - 1))
  }

  /** Messages of the first `p` partitions a group has yet to commit. */
  function Backlog(t: Topic, group: string, p: nat): nat
    requires p <= |t.parts|
  {
    if p == 0 then 0
    else
      var length, committed := |t.parts[p - 1]|, Committed(t, Slot(group, p - 1));
      Backlog(t, group, p - 1) + (if committed <= length then length - committed else 0)
  }

  lemma {:induction false} TotalSnoc(parts: seq<Log>, log: Log)
    ensures TotalLength(parts + [log]) == TotalLength(parts) + |log|
  {
    if parts == [] {
      assert (parts + [log])[1..] == [];
    } else {
      assert (parts + [log])[1..] == parts[1..] + [log];
      TotalSnoc(parts[1..], log);
    }
  }

  lemma {:induction false} DepthSplit(t: Topic, group: string, p: nat)
    requires SlotsOk(t) && p <= |t.parts|
    ensures TotalLength(t.parts[..p]) == Backlog(t, group, p) + CommittedTotal(t, group, p)
    ensures CommittedTotal(t, group, p) == 0 <==> forall q: nat :: q < p ==> Committed(t, Slot(group, q)) == 0
  {
    if p == 0 {
      assert t.parts[..0] == [];
    } else {
      DepthSplit(t, group, p - 1);
      assert t.parts[..p] == t.parts[..p - 1] + [t.parts[p - 1]];
      TotalSnoc(t.parts[..p - 1], t.parts[p - 1]);
    }
  }

  ghost predicate Untouched(t: Topic, group: string) {
    forall slot: Slot :: slot.group == group ==> Committed(t, slot) == 0
  }

  lemma TopicSplit(max: nat, name: string, n: nat, t: Topic, group: string)
    requires max >= 1 && n >= 1 && Reachable(max, name, n, t)
    ensures Total(Lengths(t.parts)) == Backlog(t, group, |t.parts|) + CommittedTotal(t, group, |t.parts|)
    ensures CommittedTotal(t, group, |t.parts|) == 0 <==> Untouched(t, group)
  {
    ReachableInv(max, name, n, t);
    DepthSplit(t, group, |t.parts|);
    TotalOfLengths(t.parts);
    assert t.parts[..|t.parts|] == t.parts;
    if forall q: nat :: q < |t.parts| ==> Committed(t, Slot(group, q)) == 0 {
      forall slot: Slot | slot.group == group
        ensures Committed(t, slot) == 0
      {
        assert slot == Slot(group, slot.part);
      }
    }
  }

  function Backlogs(b: Broker, group: string): map<string, nat> {
    map name | name in b.topics :: Backlog(b.topics[name], group, |b.topics[name].parts|)
  }

  function Commits(b: Broker, group: string): map<string, nat> {
    map name | name in b.topics :: CommittedTotal(b.topics[name], group, |b.topics[name].parts|)
  }

  /** What a group has yet to commit, and what it has committed, over all topics. */
  ghost function TotalBacklog(b: Broker, group: string): nat {
    Sum(Backlogs(b, group))
  }

  ghost function TotalCommitted(b: Broker, group: string): nat {
    Sum(Commits(b, group))
  }

  lemma DepthIsBacklogAndCommitted(b: Broker, group: string)
    requires Sound(b)
    ensures Depth(ReadingOf(b)) == TotalBacklog(b, group) + TotalCommitted(b, group)
  {
    forall name | name in b.topics
      ensures Depths(ReadingOf(b))[name] == Backlogs(b, group)[name] + Commits(b, group)[name]
    {
      TopicSplit(b.maxRetries, name, b.partitions, b.topics[name], group);
    }
    SumTwo(Depths(ReadingOf(b)), Backlogs(b, group), Commits(b, group));
  }

  lemma NothingCommitted(b: Broker, group: string)
    requires Sound(b)
    ensures TotalCommitted(b, group) == 0 <==> forall name :: name in b.topics ==> Untouched(b.topics[name], group)
  {
    forall name | name in b.topics
      ensures Commits(b, group)[name] == 0 <==> Untouched(b.topics[name], group)
    {
      TopicSplit(b.maxRetries, name, b.partitions, b.topics[name], group);
    }
    SumZero(Commits(b, group));
  }

  /**
   The depth is documented as un-consumed messages but is the total length of all logs: it exceeds what a group has
   left by exactly what the group has committed, and so equals it if and only if the group has committed nothing
   anywhere.
   */
  lemma DepthIsNotBacklog(b: Broker, group: string)
    requires Sound(b)
    ensures Depth(ReadingOf(b)) == TotalBacklog(b, group) + TotalCommitted(b, group)
    ensures Depth(ReadingOf(b)) == TotalBacklog(b, group)
       <==> forall name :: name in b.topics ==> Untouched(b.topics[name], group)
  {
    DepthIsBacklogAndCommitted(b, group);
    NothingCommitted(b, group);
  }

  // ---- Replay ----

  /** The filter loop of `Replay` over one log. */
  function Since(log: Log, from: int): Log {
    if log == [] then []
    else
      var n := |log| - 1;
      Since(log[..n], from) + (if log[n].offset >= from then [log[n]] else [])
  }

  function ReplayOf(parts: seq<Log>, from: int): Log {
    if parts == [] then []
    else ReplayOf(parts[..|parts| - 1], from) + Since(parts[|parts| - 1], from)
  }

  /** Where a replay from `from` starts in a log of the given length. */
  function Clip(from: int, length: nat): nat {
    if from < 0 then 0 else if from > length then length else from
  }

  /** The suffix that starts there is made of the messages at or past the offset. */
  lemma ClipIsOffset(log: Log, from: int)
    requires Numbered(log)
    ensures Clip(from, |log|) <= |log|
    ensures forall i :: 0 <= i < |log| ==> (log[i].offset >= from <==> i >= Clip(from, |log|))
  {
  }

  lemma {:induction false} SinceIsSuffix(log: Log, from: int)
    requires Numbered(log)
    ensures Since(log, from) == log[Clip(from, |log|)..]
  {
    if log != [] {
      var n := |log| - 1;
      SinceIsSuffix(log[..n], from);
      assert log == log[..n] + [log[n]];
      if from <= n {
        assert log[Clip(from, |log|)..] == log[..n][Clip(from, n)..] + [log[n]];
      }
    }
  }

  function Suffixes(parts: seq<Log>, from: int): Log {
    if parts == [] then []
    else
      var log := parts[|parts| - 1];
      Suffixes(parts[..|parts| - 1], from) + log[Clip(from, |log|)..]
  }

  /** How many messages lie at or past an offset. */
  function SuffixTotal(parts: seq<Log>, from: int): nat {
    if parts == [] then 0
    else
      var log := parts[|parts| - 1];
      SuffixTotal(parts[..|parts| - 1], from) + (|log| - Clip(from, |log|))
  }

  lemma {:induction false} ReplayIsSuffixes(parts: seq<Log>, from: int)
    requires forall p :: 0 <= p < |parts| ==> Numbered(parts[p])
    ensures ReplayOf(parts, from) == Suffixes(parts, from)
    ensures |ReplayOf(parts, from)| == SuffixTotal(parts, from)
  {
    if parts != [] {
      ReplayIsSuffixes(parts[..|parts| - 1], from);
      SinceIsSuffix(parts[|parts| - 1], from);
    }
  }

  /** A replay is a slice of each log, and stays one however the topic moves on. */
  lemma ReplayStable(max: nat, name: string, n: nat, t: Topic, t': Topic, from: int)
    requires max >= 1 && n >= 1 && Reachable(max, name, n, t) && Continues(max, t, t')
    ensures ReplayOf(t.parts, from) == Suffixes(t.parts, from)
    ensures |t'.parts| == |t.parts|
    ensures forall p: nat :: p < |t.parts| ==>
              |t.parts[p]| <= |t'.parts[p]|
              && Since(t.parts[p], from) == t'.parts[p][Clip(from, |t.parts[p]|)..|t.parts[p]|]
  {
    ReachableInv(max, name, n, t);
    assert forall p: nat :: p < |t.parts| ==> LogOk(t.name, |t.parts|, p, t.parts[p]);
    ReplayIsSuffixes(t.parts, from);
    PrefixLater(max, t, t');
    forall p: nat | p < |t.parts|
      ensures Since(t.parts[p], from) == t'.parts[p][Clip(from, |t.parts[p]|)..|t.parts[p]|]
    {
      SinceIsSuffix(t.parts[p], from);
      assert t'.parts[p][..|t.parts[p]|] == t.parts[p];
    }
  }
}
