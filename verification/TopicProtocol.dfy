/**
 The delivery protocol of one topic as a labelled step machine. Each label is one critical section of
 internal/broker/broker.go, so a run is any interleaving of any number of publishers and consumers.
 */
module TopicProtocol {
  import opened Prelude
  import opened Messages
  import opened Partitioner

  /** The point a committed offset belongs to: one consumer group on one partition. */
  datatype Slot = Slot(group: string, part: nat)

  /** One handler invocation: the message as the handler saw it, and whether it returned nil. */
  datatype Call = Call(msg: Message, ok: bool)

  /** Where a `consumePartition` goroutine is. `at` is its local variable `offset`. */
  datatype Pc =
    | Spawned                                             // before p.subscribe()
    | Fetch                                               // before cg.getOffset
    | Read(at: nat)                                       // before p.get
    | Waiting(at: nat)                                    // in the select
    | Attempting(at: nat, msg: Message, attempt: nat)     // before handler call number `attempt`
    | Routing(at: nat, msg: Message)                      // before t.dlq.append
    | Committing(at: nat)                                 // before cg.commit
    | Exited(at: nat)                                     // returned on ctx.Done()

  /** `token` is the content of the capacity-one channel; `calls` records what the handler was given. */
  datatype Consumer = Consumer(slot: Slot, ctx: nat, token: bool, pc: Pc, calls: seq<Call>)

  /** A publisher between building its message and returning. */
  datatype Publisher = Ready(msg: Message) | Appended

  /** The history twin of a dead-letter entry: who gave up on which offset. */
  datatype Dead = Dead(consumer: nat, at: nat)

  datatype Topic = Topic(
    name: string,
    parts: seq<Log>,
    dlq: Log,
    published: nat,
    committed: map<Slot, nat>,
    consumers: map<nat, Consumer>,
    publishers: map<nat, Publisher>,
    cancelled: set<nat>,
    dead: seq<Dead>)

  /** The critical sections of one `consumePartition` goroutine. */
  datatype Action = Listen | GetOffset | Get | Receive | Exit | Attempt(ok: bool) | Route | Commit

  datatype Label =
    | BeginPublish(pid: nat, key: Bytes, value: Bytes, now: int)
    | Append(pid: nat)
    | FinishPublish(pid: nat)
    | Spawn(cid: nat, group: string, part: nat, ctx: nat)
    | Cancel(ctx: nat)
    | Step(cid: nat, act: Action)

  function NewTopic(name: string, n: nat): Topic {
    Topic(name, seq(n, _ => []), [], 0, map[], map[], map[], {}, [])
  }

  /** An absent map entry reads as offset 0. */
  function Committed(t: Topic, slot: Slot): nat {
    if slot in t.committed then t.committed[slot] else 0
  }

  function NewMessage(t: Topic, key: Bytes, value: Bytes, now: int): Message {
    Message(key, value, t.name, PartitionOf(key, |t.parts|), 0, now, 1)
  }

  predicate CanAct(t: Topic, c: Consumer, act: Action) {
    match act
    case Listen => c.pc.Spawned?
    case GetOffset => c.pc.Fetch?
    case Get => c.pc.Read?
    case Receive => c.pc.Waiting? && c.token
    case Exit => c.pc.Waiting? && c.ctx in t.cancelled
    case Attempt(_) => c.pc.Attempting?
    case Route => c.pc.Routing?
    case Commit => c.pc.Committing?
  }

  predicate Enabled(t: Topic, l: Label) {
    match l
    case BeginPublish(pid, _, _, _) => pid !in t.publishers
    case Append(pid) =>
      pid in t.publishers && t.publishers[pid].Ready? && t.publishers[pid].msg.partition < |t.parts|
    case FinishPublish(pid) => pid in t.publishers && t.publishers[pid].Appended?
    case Spawn(cid, _, part, _) => cid !in t.consumers && part < |t.parts|
    case Cancel(_) => true
    case Step(cid, act) =>
      cid in t.consumers && t.consumers[cid].slot.part < |t.parts| && CanAct(t, t.consumers[cid], act)
  }

  /** The non-blocking send of `append` to every subscribed channel of the partition. */
  function Wake(c: Consumer, part: nat): Consumer {
    if c.slot.part == part && !c.pc.Spawned? then c.(token := true) else c
  }

  /** The retry loop's transition: one handler call, then success, another attempt, or the dead-letter route. */
  function AfterAttempt(max: nat, c: Consumer, ok: bool): Consumer
    requires c.pc.Attempting?
  {
    var m := c.pc.msg.(attempt := c.pc.attempt);
    c.(calls := c.calls + [Call(m, ok)],
       pc := if ok then Committing(c.pc.at)
             else if c.pc.attempt < max then Attempting(c.pc.at, m, c.pc.attempt + 1)
             else Routing(c.pc.at, m))
  }

  /** The stepping goroutine's own new state. */
  function Advance(max: nat, t: Topic, c: Consumer, act: Action): Consumer
    requires c.slot.part < |t.parts| && CanAct(t, c, act)
  {
    match act
    case Listen => c.(pc := Fetch)
    case GetOffset => c.(pc := Read(Committed(t, c.slot)))
    case Get =>
      (match Lookup(t.parts[c.slot.part], c.pc.at)
       case None => c.(pc := Waiting(c.pc.at))
       case Some(m) => c.(pc := Attempting(c.pc.at, m, 1)))
    case Receive => c.(pc := Fetch, token := false)
    case Exit => c.(pc := Exited(c.pc.at))
    case Attempt(ok) => AfterAttempt(max, c, ok)
    case Route => c.(pc := Committing(c.pc.at))
    case Commit => c.(pc := Fetch)
  }

  /** A goroutine step as seen by the whole topic: only Route and Commit touch shared state. */
  function ApplyStep(max: nat, t: Topic, cid: nat, act: Action): Topic
    requires Enabled(t, Step(cid, act))
  {
    var c := t.consumers[cid];
    var t' := t.(consumers := t.consumers[cid := Advance(max, t, c, act)]);
    if act.Route? then
      t'.(dlq := Extend(t.dlq, c.pc.msg), dead := t.dead + [Dead(cid, c.pc.at)])
    else if act.Commit? then
      t'.(committed := t.committed[c.slot := CommitMax(Committed(t, c.slot), c.pc.at + 1)])
    else t'
  }

  /** The state after a step; `max` is the broker's maxRetries. */
  function Apply(max: nat, t: Topic, l: Label): Topic
    requires Enabled(t, l)
  {
    match l
    case BeginPublish(pid, key, value, now) =>
      t.(publishers := t.publishers[pid := Ready(NewMessage(t, key, value, now))])
    case Append(pid) =>
      var m := t.publishers[pid].msg;
      t.(parts := t.parts[m.partition := Extend(t.parts[m.partition], m)],
         consumers := map c | c in t.consumers :: Wake(t.consumers[c], m.partition),
         publishers := t.publishers[pid := Appended])
    case FinishPublish(pid) => t.(published := t.published + 1, publishers := t.publishers - {pid})
    case Spawn(cid, group, part, ctx) =>
      t.(consumers := t.consumers[cid := Consumer(Slot(group, part), ctx, false, Spawned, [])])
    case Cancel(ctx) => t.(cancelled := t.cancelled + {ctx})
    case Step(cid, act) => ApplyStep(max, t, cid, act)
  }

  /** The state a label sequence leads to, if every label is enabled when its turn comes. */
  function Exec(max: nat, t: Topic, ls: seq<Label>): Option<Topic>
    decreases |ls|
  {
    if ls == [] then Some(t)
    else if Enabled(t, ls[0]) then Exec(max, Apply(max, t, ls[0]), ls[1..])
    else None
  }

  /** `t` is the state of the topic after some run of its publishers and consumers. */
  ghost predicate Reachable(max: nat, name: string, n: nat, t: Topic) {
    exists ls :: Exec(max, NewTopic(name, n), ls) == Some(t)
  }

  lemma {:induction false} ExecConcat(max: nat, t: Topic, ls: seq<Label>, ms: seq<Label>, mid: Topic)
    requires Exec(max, t, ls) == Some(mid)
    ensures Exec(max, t, ls + ms) == Exec(max, mid, ms)
    decreases |ls|
  {
    if ls == [] {
      assert ls + ms == ms;
    } else {
      assert (ls + ms)[1..] == ls[1..] + ms;
      ExecConcat(max, Apply(max, t, ls[0]), ls[1..], ms, mid);
    }
  }

  /** The last step of a run. */
  lemma {:induction false} ExecFront(max: nat, t: Topic, ls: seq<Label>) returns (mid: Topic)
    requires ls != [] && Exec(max, t, ls).Some?
    ensures Exec(max, t, ls[..|ls| - 1]) == Some(mid) && Enabled(mid, ls[|ls| - 1])
    ensures Exec(max, t, ls) == Some(Apply(max, mid, ls[|ls| - 1]))
    decreases |ls|
  {
    if |ls| == 1 {
      mid := t;
    } else {
      mid := ExecFront(max, Apply(max, t, ls[0]), ls[1..]);
      assert ls[1..][..|ls| - 2] == ls[..|ls| - 1][1..];
    }
  }

  /** Reachable states are closed under further runs. */
  lemma ReachableOn(max: nat, name: string, n: nat, t: Topic, ls: seq<Label>, t': Topic)
    requires Reachable(max, name, n, t) && Exec(max, t, ls) == Some(t')
    ensures Reachable(max, name, n, t')
  {
    var ks :| Exec(max, NewTopic(name, n), ks) == Some(t);
    ExecConcat(max, NewTopic(name, n), ks, ls, t);
  }

  lemma OneStep(max: nat, name: string, n: nat, t: Topic, l: Label)
    requires Reachable(max, name, n, t) && Enabled(t, l)
    ensures Reachable(max, name, n, Apply(max, t, l))
  {
    assert Exec(max, Apply(max, t, l), [l][1..]) == Some(Apply(max, t, l));
    ReachableOn(max, name, n, t, [l], Apply(max, t, l));
  }
}
