/** What every step of the delivery protocol keeps. */
module TopicInvariant {
  import opened Prelude
  import opened Messages
  import opened Partitioner
  import opened TopicProtocol

  // ---- Reading a consumer's call history ----

  /** The results, in order, of the handler calls made for one offset. */
  function Attempts(calls: seq<Call>, at: int): seq<bool> {
    if calls == [] then []
    else
      var n := |calls| - 1;
      Attempts(calls[..n], at) + (if calls[n].msg.offset == at then [calls[n].ok] else [])
  }

  predicate AllFailed(r: seq<bool>) {
    forall i :: 0 <= i < |r| ==> !r[i]
  }

  predicate Exhausted(max: nat, r: seq<bool>) {
    |r| == max && AllFailed(r)
  }

  predicate Succeeded(max: nat, r: seq<bool>) {
    1 <= |r| <= max && r[|r| - 1] && AllFailed(r[..|r| - 1])
  }

  /** The retry loop ran to its end: a success after failures only, or maxRetries failures. */
  predicate Complete(max: nat, r: seq<bool>) {
    Exhausted(max, r) || Succeeded(max, r)
  }

  lemma AttemptsSnoc(calls: seq<Call>, x: Call, at: int)
    ensures Attempts(calls + [x], at) == Attempts(calls, at) + (if x.msg.offset == at then [x.ok] else [])
  {
    assert (calls + [x])[..|calls|] == calls;
  }

  /** No call for an offset, no results for it. */
  lemma {:induction false} AttemptsNone(calls: seq<Call>, at: int)
    requires forall i :: 0 <= i < |calls| ==> calls[i].msg.offset != at
    ensures Attempts(calls, at) == []
  {
    if calls != [] {
      AttemptsNone(calls[..|calls| - 1], at);
    }
  }

  // ---- The invariant ----

  /** Every call showed the handler the log's own message, numbered by how often it had been tried before. */
  ghost predicate CallOk(log: Log, calls: seq<Call>, i: nat)
    requires i < |calls|
  {
    var m := calls[i].msg;
    && 0 <= m.offset < |log|
    && m.(attempt := 1) == log[m.offset]
    && m.attempt == |Attempts(calls[..i], m.offset)| + 1
  }

  ghost predicate CallsOk(log: Log, calls: seq<Call>) {
    forall i :: 0 <= i < |calls| ==> CallOk(log, calls, i)
  }

  ghost predicate Ordered(calls: seq<Call>) {
    forall i, j :: 0 <= i < j < |calls| ==> calls[i].msg.offset <= calls[j].msg.offset
  }

  ghost predicate Below(calls: seq<Call>, bound: nat) {
    forall i :: 0 <= i < |calls| ==> calls[i].msg.offset < bound
  }

  /** The offset being delivered, if any. */
  function InFlight(pc: Pc): Option<nat> {
    if pc.Attempting? || pc.Routing? || pc.Committing? then Some(pc.at) else None
  }

  /** An upper bound on the offsets handed over so far. */
  function Bound(pc: Pc, committed: nat): nat {
    match pc
    case Spawned => 0
    case Fetch => committed
    case Read(at) => at
    case Waiting(at) => at
    case Exited(at) => at
    case Attempting(at, _, _) => at + 1
    case Routing(at, _) => at + 1
    case Committing(at) => at + 1
  }

  /** Offsets other than the one in flight were either never tried or tried to completion. */
  ghost predicate Tidy(max: nat, c: Consumer) {
    forall o: nat :: InFlight(c.pc) == Some(o) || Attempts(c.calls, o) == [] || Complete(max, Attempts(c.calls, o))
  }

  /** The local variables of `consumePartition` at each program point. */
  ghost predicate PcOk(max: nat, log: Log, committed: nat, c: Consumer) {
    match c.pc
    case Spawned => !c.token
    case Fetch => true
    case Read(at) => at <= committed
    case Waiting(at) => at <= committed && (|log| > at ==> c.token)
    case Exited(at) => at <= committed
    case Attempting(at, msg, k) =>
      && at <= committed && at < |log| && 1 <= k <= max
      && msg.(attempt := 1) == log[at]
      && |Attempts(c.calls, at)| == k - 1 && AllFailed(Attempts(c.calls, at))
    case Routing(at, msg) =>
      && at <= committed && at < |log|
      && msg == log[at].(attempt := max)
      && Exhausted(max, Attempts(c.calls, at))
    case Committing(at) => at <= committed && at < |log| && Complete(max, Attempts(c.calls, at))
  }

  ghost predicate ConsumerOk(max: nat, log: Log, committed: nat, c: Consumer) {
    && CallsOk(log, c.calls)
    && Ordered(c.calls)
    && Below(c.calls, Bound(c.pc, committed))
    && Tidy(max, c)
    && PcOk(max, log, committed, c)
  }

  ghost predicate MessageOk(name: string, n: nat, m: Message) {
    m.topic == name && m.attempt == 1 && m.partition == PartitionOf(m.key, n)
  }

  ghost predicate LogOk(name: string, n: nat, p: nat, log: Log) {
    && Numbered(log)
    && forall i :: 0 <= i < |log| ==> MessageOk(name, n, log[i]) && log[i].partition == p
  }

  ghost predicate LogsOk(t: Topic) {
    |t.parts| >= 1 && forall p: nat :: p < |t.parts| ==> LogOk(t.name, |t.parts|, p, t.parts[p])
  }

  ghost predicate PublishersOk(t: Topic) {
    forall pid :: pid in t.publishers && t.publishers[pid].Ready? ==>
      MessageOk(t.name, |t.parts|, t.publishers[pid].msg)
  }

  ghost predicate SlotsOk(t: Topic) {
    && (forall s :: s in t.committed ==> s.part < |t.parts| && t.committed[s] <= |t.parts[s.part]|)
    && (forall c :: c in t.consumers ==> t.consumers[c].slot.part < |t.parts|)
  }

  ghost predicate ShapeOk(t: Topic) {
    LogsOk(t) && PublishersOk(t) && SlotsOk(t)
  }

  ghost predicate ConsumersOk(max: nat, t: Topic)
    requires ShapeOk(t)
  {
    forall c :: c in t.consumers ==> OneConsumerOk(max, t, c)
  }

  ghost predicate OneConsumerOk(max: nat, t: Topic, c: nat)
    requires ShapeOk(t) && c in t.consumers
  {
    var con := t.consumers[c];
    ConsumerOk(max, t.parts[con.slot.part], Committed(t, con.slot), con)
  }

  /** Consumer `c` of the slot took offset `o` through the whole retry loop and past the dead-letter route. */
  ghost predicate Finished(max: nat, t: Topic, c: nat, slot: Slot, o: nat) {
    && c in t.consumers && t.consumers[c].slot == slot
    && Complete(max, Attempts(t.consumers[c].calls, o))
    && !(t.consumers[c].pc.Routing? && t.consumers[c].pc.at == o)
  }

  ghost predicate Handled(max: nat, t: Topic, slot: Slot, o: nat) {
    exists c :: Finished(max, t, c, slot, o)
  }

  /** Every committed offset was finished by some consumer of the group. */
  ghost predicate Covered(max: nat, t: Topic) {
    forall slot, o: nat :: o < Committed(t, slot) ==> Handled(max, t, slot, o)
  }

  /** The consumer gave up on `o` and has written the dead letter. */
  ghost predicate GivenUp(max: nat, c: Consumer, o: nat) {
    Exhausted(max, Attempts(c.calls, o)) && !(c.pc.Routing? && c.pc.at == o)
  }

  ghost predicate GaveUp(max: nat, t: Topic, c: nat, o: nat) {
    c in t.consumers && GivenUp(max, t.consumers[c], o)
  }

  ghost predicate DeadOk(t: Topic, i: nat)
    requires i < |t.dead| && i < |t.dlq|
  {
    var d := t.dead[i];
    && d.consumer in t.consumers
    && t.consumers[d.consumer].slot.part < |t.parts|
    && d.at < |t.parts[t.consumers[d.consumer].slot.part]|
  }

  /** Entry `i` of the dead-letter log, spelled out: the original message, last attempt, own position. */
  ghost predicate DeadEntry(max: nat, t: Topic, i: nat)
    requires i < |t.dead| && i < |t.dlq| && DeadOk(t, i)
  {
    var d := t.dead[i];
    t.dlq[i] == t.parts[t.consumers[d.consumer].slot.part][d.at].(attempt := max, offset := i)
  }

  /** The dead-letter log lists each exhausted delivery exactly once. */
  ghost predicate DlqOk(max: nat, t: Topic) {
    && |t.dead| == |t.dlq|
    && (forall i: nat :: i < |t.dead| ==> DeadOk(t, i) && DeadEntry(max, t, i))
    && (forall i, j :: 0 <= i < j < |t.dead| ==> t.dead[i] != t.dead[j])
    && (forall d: Dead :: d in t.dead <==> GaveUp(max, t, d.consumer, d.at))
  }

  function TotalLength(parts: seq<Log>): nat {
    if parts == [] then 0 else |parts[0]| + TotalLength(parts[1..])
  }

  /** Publishers that have appended but not yet counted. */
  function Uncounted(t: Topic): set<nat> {
    set pid | pid in t.publishers && t.publishers[pid].Appended?
  }

  ghost predicate CountOk(t: Topic) {
    TotalLength(t.parts) == t.published + |Uncounted(t)|
  }

  ghost predicate Inv(max: nat, t: Topic) {
    max >= 1 && ShapeOk(t) && ConsumersOk(max, t) && Covered(max, t) && DlqOk(max, t) && CountOk(t)
  }

  // ---- Initially ----

  lemma {:induction false} EmptyTotal(parts: seq<Log>)
    requires forall p :: 0 <= p < |parts| ==> parts[p] == []
    ensures TotalLength(parts) == 0
  {
    if parts != [] {
      EmptyTotal(parts[1..]);
    }
  }

  lemma InitInv(max: nat, name: string, n: nat)
    requires max >= 1 && n >= 1
    ensures Inv(max, NewTopic(name, n))
  {
    EmptyTotal(NewTopic(name, n).parts);
  }

  // ---- Each step, one part of the invariant at a time ----

  /** Logs only grow. */
  lemma LogsGrow(max: nat, t: Topic, l: Label)
    requires Enabled(t, l)
    ensures |Apply(max, t, l).parts| == |t.parts|
    ensures forall p: nat :: p < |t.parts| ==> t.parts[p] <= Apply(max, t, l).parts[p]
    ensures t.dlq <= Apply(max, t, l).dlq && t.dead <= Apply(max, t, l).dead
  {
  }

  lemma LogsStep(max: nat, t: Topic, l: Label)
    requires LogsOk(t) && PublishersOk(t) && Enabled(t, l)
    ensures LogsOk(Apply(max, t, l)) && PublishersOk(Apply(max, t, l))
  {
    var t' := Apply(max, t, l);
    match l
    case Append(pid) =>
      var m := t.publishers[pid].msg;
      assert LogOk(t.name, |t.parts|, m.partition, t.parts[m.partition]);
      assert LogOk(t.name, |t.parts|, m.partition, t'.parts[m.partition]);
    case _ =>
      assert t'.parts == t.parts;
  }

  lemma SlotsStep(max: nat, t: Topic, l: Label)
    requires SlotsOk(t) && Enabled(t, l)
    requires l.Step? && l.act.Commit? ==>
               t.consumers[l.cid].pc.at < |t.parts[t.consumers[l.cid].slot.part]|
    ensures SlotsOk(Apply(max, t, l))
  {
    LogsGrow(max, t, l);
    var t' := Apply(max, t, l);
    if l.Step? && l.act.Commit? {
      var c := t.consumers[l.cid];
      assert t'.committed == t.committed[c.slot := CommitMax(Committed(t, c.slot), c.pc.at + 1)];
    } else {
      assert t'.committed == t.committed;
    }
    forall c | c in t'.consumers
      ensures t'.consumers[c].slot.part < |t'.parts|
    {
      if c in t.consumers {
        assert t'.consumers[c].slot == t.consumers[c].slot;
      }
    }
  }

  lemma ShapeStep(max: nat, t: Topic, l: Label)
    requires Inv(max, t) && Enabled(t, l)
    ensures ShapeOk(Apply(max, t, l))
  {
    LogsStep(max, t, l);
    if l.Step? {
      assert OneConsumerOk(max, t, l.cid);
    }
    SlotsStep(max, t, l);
  }

  /** Another goroutine's progress (a longer log, a later commit) does not disturb a consumer. */
  lemma ConsumerFrame(max: nat, log: Log, log': Log, committed: nat, committed': nat, c: Consumer, c': Consumer)
    requires ConsumerOk(max, log, committed, c)
    requires log <= log' && committed <= committed'
    requires c' == c || (c' == c.(token := true) && !c.pc.Spawned?)
    requires c.pc.Waiting? && !c'.token ==> |log'| == |log|
    ensures ConsumerOk(max, log', committed', c')
  {
    assert forall i: nat :: i < |c.calls| ==> CallOk(log, c.calls, i) ==> CallOk(log', c.calls, i);
  }

  /** The record of calls after one more handler call. */
  lemma RecordGrows(log: Log, calls: seq<Call>, x: Call)
    requires CallsOk(log, calls) && Ordered(calls)
    requires 0 <= x.msg.offset < |log| && x.msg.(attempt := 1) == log[x.msg.offset]
    requires x.msg.attempt == |Attempts(calls, x.msg.offset)| + 1
    requires forall i :: 0 <= i < |calls| ==> calls[i].msg.offset <= x.msg.offset
    ensures CallsOk(log, calls + [x]) && Ordered(calls + [x])
  {
    var calls' := calls + [x];
    forall i: nat | i < |calls'|
      ensures CallOk(log, calls', i)
    {
      if i < |calls| {
        assert CallOk(log, calls, i);
        assert calls'[..i] == calls[..i];
      } else {
        assert calls'[..i] == calls;
      }
    }
  }

  lemma TidyAfterAttempt(max: nat, c: Consumer, ok: bool)
    requires Tidy(max, c) && c.pc.Attempting? && c.pc.msg.offset == c.pc.at
    requires 1 <= c.pc.attempt <= max && |Attempts(c.calls, c.pc.at)| == c.pc.attempt - 1
             && AllFailed(Attempts(c.calls, c.pc.at))
    ensures var c' := AfterAttempt(max, c, ok);
            && Tidy(max, c')
            && Attempts(c'.calls, c.pc.at) == Attempts(c.calls, c.pc.at) + [ok]
  {
    var c' := AfterAttempt(max, c, ok);
    var x := Call(c.pc.msg.(attempt := c.pc.attempt), ok);
    forall o: nat
      ensures Attempts(c'.calls, o) == Attempts(c.calls, o) + (if o == c.pc.at then [ok] else [])
    {
      AttemptsSnoc(c.calls, x, o);
    }
    assert InFlight(c'.pc) == Some(c.pc.at);
    forall o: nat | o != c.pc.at
      ensures Attempts(c'.calls, o) == [] || Complete(max, Attempts(c'.calls, o))
    {
      assert Attempts(c'.calls, o) == Attempts(c.calls, o);
      assert Attempts(c.calls, o) == [] || Complete(max, Attempts(c.calls, o));
    }
  }

  /** One more attempt after k - 1 failures. */
  lemma RetryLoop(max: nat, r: seq<bool>, k: nat, ok: bool)
    requires 1 <= k <= max && |r| == k - 1 && AllFailed(r)
    ensures !Complete(max, r)
    ensures Succeeded(max, r + [ok]) == ok
    ensures Exhausted(max, r + [ok]) == (!ok && k == max)
    ensures !ok ==> AllFailed(r + [ok])
  {
    assert (r + [ok])[..|r|] == r;
    assert (r + [ok])[|r|] == ok;
  }

  lemma AttemptRecord(max: nat, log: Log, committed: nat, c: Consumer, ok: bool)
    requires ConsumerOk(max, log, committed, c) && c.pc.Attempting? && Numbered(log)
    ensures var c' := AfterAttempt(max, c, ok);
            CallsOk(log, c'.calls) && Ordered(c'.calls) && Below(c'.calls, Bound(c'.pc, committed))
  {
    assert c.pc.msg.(attempt := 1) == log[c.pc.at];
    RecordGrows(log, c.calls, Call(c.pc.msg.(attempt := c.pc.attempt), ok));
  }

  lemma AttemptPc(max: nat, log: Log, committed: nat, c: Consumer, ok: bool)
    requires PcOk(max, log, committed, c) && Tidy(max, c) && c.pc.Attempting? && Numbered(log)
    ensures Tidy(max, AfterAttempt(max, c, ok)) && PcOk(max, log, committed, AfterAttempt(max, c, ok))
  {
    assert c.pc.msg.(attempt := 1) == log[c.pc.at];
    TidyAfterAttempt(max, c, ok);
    RetryLoop(max, Attempts(c.calls, c.pc.at), c.pc.attempt, ok);
  }

  /** One handler call. */
  lemma AttemptKeeps(max: nat, log: Log, committed: nat, c: Consumer, ok: bool)
    requires ConsumerOk(max, log, committed, c) && c.pc.Attempting? && Numbered(log)
    ensures ConsumerOk(max, log, committed, AfterAttempt(max, c, ok))
  {
    AttemptRecord(max, log, committed, c, ok);
    AttemptPc(max, log, committed, c, ok);
  }

  lemma GetKeeps(max: nat, log: Log, committed: nat, c: Consumer, c': Consumer)
    requires max >= 1 && ConsumerOk(max, log, committed, c) && c.pc.Read?
    requires c.pc.at < |log| ==> log[c.pc.at].attempt == 1
    requires c' == c.(pc := match Lookup(log, c.pc.at)
                            case None => Waiting(c.pc.at)
                            case Some(m) => Attempting(c.pc.at, m, 1))
    requires committed <= |log|
    ensures ConsumerOk(max, log, committed, c')
  {
    AttemptsNone(c.calls, c.pc.at);
  }

  /** The steps that only move the program counter. */
  lemma MoveKeeps(max: nat, t: Topic, c: Consumer, act: Action, log: Log)
    requires c.slot.part < |t.parts| && CanAct(t, c, act) && !act.Get? && !act.Attempt?
    requires ConsumerOk(max, log, Committed(t, c.slot), c)
    ensures act.Commit? ==> ConsumerOk(max, log, CommitMax(Committed(t, c.slot), c.pc.at + 1), Advance(max, t, c, act))
    ensures !act.Commit? ==> ConsumerOk(max, log, Committed(t, c.slot), Advance(max, t, c, act))
  {
  }

  /** The group's offset after a step of one of its consumers. */
  function CommittedAfter(t: Topic, c: Consumer, act: Action): nat
    requires CanAct(t, c, act)
  {
    if act.Commit? then CommitMax(Committed(t, c.slot), c.pc.at + 1) else Committed(t, c.slot)
  }

  lemma AdvanceKeeps(max: nat, t: Topic, c: Consumer, act: Action)
    requires max >= 1 && LogsOk(t) && c.slot.part < |t.parts| && CanAct(t, c, act)
    requires Committed(t, c.slot) <= |t.parts[c.slot.part]|
    requires ConsumerOk(max, t.parts[c.slot.part], Committed(t, c.slot), c)
    ensures ConsumerOk(max, t.parts[c.slot.part], CommittedAfter(t, c, act), Advance(max, t, c, act))
  {
    var log := t.parts[c.slot.part];
    assert LogOk(t.name, |t.parts|, c.slot.part, log);
    if act.Attempt? {
      AttemptKeeps(max, log, Committed(t, c.slot), c, act.ok);
    } else if act.Get? {
      GetKeeps(max, log, Committed(t, c.slot), c, Advance(max, t, c, act));
    } else {
      MoveKeeps(max, t, c, act, log);
    }
  }

  /** A consumer after a step of the topic, its own or another's. */
  lemma ConsumerAfter(max: nat, t: Topic, l: Label, c: nat)
    requires Enabled(t, l) && c in t.consumers
    ensures c in Apply(max, t, l).consumers
    ensures Apply(max, t, l).consumers[c]
         == if l.Step? && l.cid == c then Advance(max, t, t.consumers[c], l.act)
            else if l.Append? then Wake(t.consumers[c], t.publishers[l.pid].msg.partition)
            else t.consumers[c]
  {
  }

  /** Committed offsets move only by a commit, and only forwards. */
  lemma CommittedStep(max: nat, t: Topic, l: Label, slot: Slot)
    requires Enabled(t, l)
    ensures Committed(Apply(max, t, l), slot)
         == if l.Step? && l.act.Commit? && t.consumers[l.cid].slot == slot
            then CommittedAfter(t, t.consumers[l.cid], Commit)
            else Committed(t, slot)
  {
  }

  lemma OwnStep(max: nat, t: Topic, c: nat, act: Action)
    requires Inv(max, t) && Enabled(t, Step(c, act)) && ShapeOk(ApplyStep(max, t, c, act))
    ensures OneConsumerOk(max, ApplyStep(max, t, c, act), c)
  {
    assert OneConsumerOk(max, t, c);
    AdvanceKeeps(max, t, t.consumers[c], act);
    CommittedStep(max, t, Step(c, act), t.consumers[c].slot);
  }

  lemma OtherStep(max: nat, t: Topic, l: Label, c: nat)
    requires ShapeOk(t) && Enabled(t, l) && ShapeOk(Apply(max, t, l))
    requires c in t.consumers && OneConsumerOk(max, t, c) && !(l.Step? && l.cid == c)
    ensures c in Apply(max, t, l).consumers && OneConsumerOk(max, Apply(max, t, l), c)
  {
    var t' := Apply(max, t, l);
    var con := t.consumers[c];
    ConsumerAfter(max, t, l, c);
    CommittedStep(max, t, l, con.slot);
    LogsGrow(max, t, l);
    ConsumerFrame(max, t.parts[con.slot.part], t'.parts[con.slot.part],
                  Committed(t, con.slot), Committed(t', con.slot), con, t'.consumers[c]);
  }

  lemma ConsumersStep(max: nat, t: Topic, l: Label)
    requires Inv(max, t) && Enabled(t, l)
    ensures ShapeOk(Apply(max, t, l)) && ConsumersOk(max, Apply(max, t, l))
  {
    ShapeStep(max, t, l);
    var t' := Apply(max, t, l);
    forall c | c in t'.consumers
      ensures OneConsumerOk(max, t', c)
    {
      if l.Step? && c == l.cid {
        OwnStep(max, t, c, l.act);
      } else if c in t.consumers {
        assert OneConsumerOk(max, t, c);
        OtherStep(max, t, l, c);
      } else {
        assert l.Spawn? && t'.consumers[c].pc == Spawned && t'.consumers[c].calls == [];
      }
    }
  }

  /** The message in hand is the one at the offset in hand. */
  lemma InHand(max: nat, t: Topic, c: nat)
    requires Inv(max, t) && c in t.consumers && t.consumers[c].pc.Attempting?
    ensures t.consumers[c].pc.msg.offset == t.consumers[c].pc.at
  {
    assert OneConsumerOk(max, t, c);
    var con := t.consumers[c];
    assert LogOk(t.name, |t.parts|, con.slot.part, t.parts[con.slot.part]);
  }

  ghost predicate Progressed(c: Consumer, c': Consumer, mine: bool, act: Action, o: nat) {
    && c'.slot == c.slot
    && (!mine ==> c'.pc == c.pc && c'.calls == c.calls)
    && Attempts(c'.calls, o) == Attempts(c.calls, o)
         + (if mine && act.Attempt? && c.pc.Attempting? && c.pc.at == o then [act.ok] else [])
  }

  lemma ProgressOwn(max: nat, t: Topic, c: Consumer, act: Action, o: nat)
    requires c.slot.part < |t.parts| && CanAct(t, c, act)
    requires c.pc.Attempting? ==> c.pc.msg.offset == c.pc.at
    ensures Progressed(c, Advance(max, t, c, act), true, act, o)
  {
    if act.Attempt? {
      AttemptsSnoc(c.calls, Call(c.pc.msg.(attempt := c.pc.attempt), act.ok), o);
    } else {
      assert Advance(max, t, c, act).calls == c.calls;
      assert Attempts(c.calls, o) + [] == Attempts(c.calls, o);
    }
  }

  /** A step changes a consumer's record of offset `o` only by an attempt at `o`. */
  lemma Progress(max: nat, t: Topic, l: Label, c: nat, o: nat)
    requires Inv(max, t) && Enabled(t, l) && c in t.consumers
    ensures c in Apply(max, t, l).consumers
    ensures Progressed(t.consumers[c], Apply(max, t, l).consumers[c], l.Step? && l.cid == c,
                       if l.Step? then l.act else Listen, o)
  {
    ConsumerAfter(max, t, l, c);
    if l.Step? && l.cid == c {
      if t.consumers[c].pc.Attempting? {
        InHand(max, t, c);
      }
      ProgressOwn(max, t, t.consumers[c], l.act, o);
    } else {
      assert Attempts(t.consumers[c].calls, o) + [] == Attempts(t.consumers[c].calls, o);
    }
  }

  /** A delivery past its retry loop and its dead-letter route. */
  ghost predicate Past(max: nat, c: Consumer, o: nat) {
    Complete(max, Attempts(c.calls, o)) && !(c.pc.Routing? && c.pc.at == o)
  }

  /** A step of its own takes a consumer past `o` only by succeeding at `o` or by routing it. */
  ghost predicate PastStep(max: nat, c: Consumer, c': Consumer, act: Action, o: nat) {
    && (Past(max, c, o) ==> Past(max, c', o) && Attempts(c'.calls, o) == Attempts(c.calls, o))
    && (Past(max, c', o) && !Past(max, c, o) ==>
          || Succeeded(max, Attempts(c'.calls, o))
          || (act.Route? && c.pc.Routing? && c.pc.at == o && Attempts(c'.calls, o) == Attempts(c.calls, o)))
  }

  lemma PastAdvance(max: nat, t: Topic, c: Consumer, act: Action, log: Log, committed: nat, o: nat)
    requires c.slot.part < |t.parts| && CanAct(t, c, act)
    requires PcOk(max, log, committed, c)
    requires Attempts(Advance(max, t, c, act).calls, o)
          == Attempts(c.calls, o) + (if act.Attempt? && c.pc.Attempting? && c.pc.at == o then [act.ok] else [])
    ensures PastStep(max, c, Advance(max, t, c, act), act, o)
  {
    if act.Attempt? && c.pc.at == o {
      RetryLoop(max, Attempts(c.calls, o), c.pc.attempt, act.ok);
    } else {
      assert Attempts(Advance(max, t, c, act).calls, o) == Attempts(c.calls, o);
    }
  }

  lemma PastOwnStep(max: nat, t: Topic, c: nat, act: Action, o: nat)
    requires Inv(max, t) && Enabled(t, Step(c, act))
    ensures PastStep(max, t.consumers[c], ApplyStep(max, t, c, act).consumers[c], act, o)
    ensures act.Route? ==>
              t.consumers[c].pc.Routing? && Exhausted(max, Attempts(t.consumers[c].calls, t.consumers[c].pc.at))
  {
    Progress(max, t, Step(c, act), c, o);
    assert OneConsumerOk(max, t, c);
    var con := t.consumers[c];
    PastAdvance(max, t, con, act, t.parts[con.slot.part], Committed(t, con.slot), o);
  }

  lemma FinishedStays(max: nat, t: Topic, l: Label, c: nat, slot: Slot, o: nat)
    requires Inv(max, t) && Enabled(t, l) && Finished(max, t, c, slot, o)
    ensures Finished(max, Apply(max, t, l), c, slot, o)
  {
    Progress(max, t, l, c, o);
    if l.Step? && l.cid == c {
      PastOwnStep(max, t, c, l.act, o);
    }
  }

  /** The committing consumer is itself the witness for the offset it commits. */
  lemma CommitCovers(max: nat, t: Topic, c: nat)
    requires Inv(max, t) && Enabled(t, Step(c, Commit))
    ensures t.consumers[c].pc.at <= Committed(t, t.consumers[c].slot)
    ensures Finished(max, t, c, t.consumers[c].slot, t.consumers[c].pc.at)
  {
    assert OneConsumerOk(max, t, c);
  }

  lemma CoveredStep(max: nat, t: Topic, l: Label)
    requires Inv(max, t) && Enabled(t, l)
    ensures Covered(max, Apply(max, t, l))
  {
    var t' := Apply(max, t, l);
    forall slot, o: nat | o < Committed(t', slot)
      ensures Handled(max, t', slot, o)
    {
      CommittedStep(max, t, l, slot);
      if o < Committed(t, slot) {
        assert Handled(max, t, slot, o);
        var c :| Finished(max, t, c, slot, o);
        FinishedStays(max, t, l, c, slot, o);
        assert Finished(max, t', c, slot, o);
      } else {
        CommitCovers(max, t, l.cid);
        FinishedStays(max, t, l, l.cid, slot, o);
        assert Finished(max, t', l.cid, slot, o);
      }
    }
  }

  lemma GivenUpStep(max: nat, c: Consumer, c': Consumer, act: Action, o: nat)
    requires max >= 1 && PastStep(max, c, c', act, o)
    requires act.Route? ==>
               c.pc.Routing? && Exhausted(max, Attempts(c.calls, c.pc.at)) && c' == c.(pc := Committing(c.pc.at))
    ensures GivenUp(max, c', o) <==> GivenUp(max, c, o) || (act.Route? && c.pc.at == o)
  {
    var r := Attempts(c'.calls, o);
    assert Exhausted(max, r) ==> !r[|r| - 1];
  }

  lemma GaveUpOwn(max: nat, t: Topic, c: nat, act: Action, o: nat)
    requires Inv(max, t) && Enabled(t, Step(c, act))
    ensures c in ApplyStep(max, t, c, act).consumers
    ensures GivenUp(max, ApplyStep(max, t, c, act).consumers[c], o)
       <==> GivenUp(max, t.consumers[c], o) || (act.Route? && t.consumers[c].pc.at == o)
  {
    PastOwnStep(max, t, c, act, o);
    ConsumerAfter(max, t, Step(c, act), c);
    GivenUpStep(max, t.consumers[c], ApplyStep(max, t, c, act).consumers[c], act, o);
  }

  /** Giving up on an offset is final, and happens exactly at the Route step. */
  lemma GaveUpStep(max: nat, t: Topic, l: Label, c: nat, o: nat)
    requires Inv(max, t) && Enabled(t, l)
    ensures GaveUp(max, Apply(max, t, l), c, o)
       <==> GaveUp(max, t, c, o) || (l == Step(c, Route) && t.consumers[c].pc.at == o)
  {
    if c in t.consumers {
      if l.Step? && l.cid == c {
        GaveUpOwn(max, t, c, l.act, o);
      } else {
        Progress(max, t, l, c, o);
      }
    }
  }

  lemma DeadEntryStays(max: nat, t: Topic, l: Label, i: nat)
    requires Inv(max, t) && Enabled(t, l) && i < |t.dead|
    ensures i < |Apply(max, t, l).dead| && i < |Apply(max, t, l).dlq|
    ensures DeadOk(Apply(max, t, l), i) && DeadEntry(max, Apply(max, t, l), i)
  {
    assert DeadOk(t, i) && DeadEntry(max, t, i);
    var d := t.dead[i];
    Progress(max, t, l, d.consumer, d.at);
    LogsGrow(max, t, l);
  }

  lemma DeadEntryNew(max: nat, t: Topic, c: nat)
    requires Inv(max, t) && Enabled(t, Step(c, Route))
    ensures |ApplyStep(max, t, c, Route).dead| == |t.dead| + 1 == |ApplyStep(max, t, c, Route).dlq|
    ensures DeadOk(ApplyStep(max, t, c, Route), |t.dead|) && DeadEntry(max, ApplyStep(max, t, c, Route), |t.dead|)
  {
    assert OneConsumerOk(max, t, c);
  }

  /** The history of dead letters after a step. */
  function DeadAfter(t: Topic, l: Label): seq<Dead>
    requires Enabled(t, l)
  {
    t.dead + if l.Step? && l.act.Route? then [Dead(l.cid, t.consumers[l.cid].pc.at)] else []
  }

  lemma DeadStep(max: nat, t: Topic, l: Label)
    requires Enabled(t, l)
    ensures Apply(max, t, l).dead == DeadAfter(t, l)
    ensures |t.dead| == |t.dlq| ==> |Apply(max, t, l).dead| == |Apply(max, t, l).dlq|
  {
  }

  lemma DeadEntriesStep(max: nat, t: Topic, l: Label)
    requires Inv(max, t) && Enabled(t, l)
    ensures |Apply(max, t, l).dead| == |Apply(max, t, l).dlq|
    ensures forall i: nat :: i < |Apply(max, t, l).dead| ==>
              DeadOk(Apply(max, t, l), i) && DeadEntry(max, Apply(max, t, l), i)
  {
    DeadStep(max, t, l);
    var t' := Apply(max, t, l);
    forall i: nat | i < |t'.dead|
      ensures DeadOk(t', i) && DeadEntry(max, t', i)
    {
      if i < |t.dead| {
        DeadEntryStays(max, t, l, i);
      } else {
        DeadEntryNew(max, t, l.cid);
      }
    }
  }

  lemma DeadSetStep(max: nat, t: Topic, l: Label, d: Dead)
    requires Inv(max, t) && Enabled(t, l)
    ensures d in Apply(max, t, l).dead <==> GaveUp(max, Apply(max, t, l), d.consumer, d.at)
  {
    DeadStep(max, t, l);
    GaveUpStep(max, t, l, d.consumer, d.at);
  }

  lemma DeadDistinctStep(max: nat, t: Topic, l: Label)
    requires Inv(max, t) && Enabled(t, l)
    ensures forall i, j :: 0 <= i < j < |Apply(max, t, l).dead| ==> Apply(max, t, l).dead[i] != Apply(max, t, l).dead[j]
  {
    DeadStep(max, t, l);
    if l.Step? && l.act.Route? {
      assert !GaveUp(max, t, l.cid, t.consumers[l.cid].pc.at);
      assert Dead(l.cid, t.consumers[l.cid].pc.at) !in t.dead;
    }
  }

  lemma DlqStep(max: nat, t: Topic, l: Label)
    requires Inv(max, t) && Enabled(t, l)
    ensures DlqOk(max, Apply(max, t, l))
  {
    DeadEntriesStep(max, t, l);
    DeadDistinctStep(max, t, l);
    forall d: Dead
      ensures d in Apply(max, t, l).dead <==> GaveUp(max, Apply(max, t, l), d.consumer, d.at)
    {
      DeadSetStep(max, t, l, d);
    }
  }

  lemma {:induction false} TotalUpdate(parts: seq<Log>, p: nat, log: Log)
    requires p < |parts|
    ensures TotalLength(parts[p := log]) == TotalLength(parts) - |parts[p]| + |log|
  {
    if p == 0 {
      assert parts[p := log][1..] == parts[1..];
    } else {
      assert parts[p := log][1..] == parts[1..][p - 1 := log];
      TotalUpdate(parts[1..], p - 1, log);
    }
  }

  lemma CountAppend(max: nat, t: Topic, pid: nat)
    requires CountOk(t) && Enabled(t, Append(pid))
    ensures CountOk(Apply(max, t, Append(pid)))
  {
    var t' := Apply(max, t, Append(pid));
    var m := t.publishers[pid].msg;
    TotalUpdate(t.parts, m.partition, Extend(t.parts[m.partition], m));
    assert Uncounted(t') == Uncounted(t) + {pid};
  }

  lemma CountFinish(max: nat, t: Topic, pid: nat)
    requires CountOk(t) && Enabled(t, FinishPublish(pid))
    ensures CountOk(Apply(max, t, FinishPublish(pid)))
  {
    var t' := Apply(max, t, FinishPublish(pid));
    assert Uncounted(t') == Uncounted(t) - {pid};
  }

  lemma CountStep(max: nat, t: Topic, l: Label)
    requires CountOk(t) && Enabled(t, l)
    ensures CountOk(Apply(max, t, l))
  {
    if l.Append? {
      CountAppend(max, t, l.pid);
    } else if l.FinishPublish? {
      CountFinish(max, t, l.pid);
    } else {
      var t' := Apply(max, t, l);
      assert t'.parts == t.parts && t'.published == t.published;
      assert Uncounted(t') == Uncounted(t);
    }
  }

  lemma InvStep(max: nat, t: Topic, l: Label)
    requires Inv(max, t) && Enabled(t, l)
    ensures Inv(max, Apply(max, t, l))
  {
    ConsumersStep(max, t, l);
    CoveredStep(max, t, l);
    DlqStep(max, t, l);
    CountStep(max, t, l);
  }

  lemma {:induction false} InvExec(max: nat, t: Topic, ls: seq<Label>)
    requires Inv(max, t) && Exec(max, t, ls).Some?
    ensures Inv(max, Exec(max, t, ls).value)
    decreases |ls|
  {
    if ls != [] {
      InvStep(max, t, ls[0]);
      InvExec(max, Apply(max, t, ls[0]), ls[1..]);
    }
  }

  /** The invariant holds in every state of every run. */
  lemma ReachableInv(max: nat, name: string, n: nat, t: Topic)
    requires max >= 1 && n >= 1 && Reachable(max, name, n, t)
    ensures Inv(max, t)
  {
    InitInv(max, name, n);
    var ls :| Exec(max, NewTopic(name, n), ls) == Some(t);
    InvExec(max, NewTopic(name, n), ls);
  }
}
