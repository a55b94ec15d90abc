/** What the invariant means for publishers, consumers and groups, in every reachable state. */
module TopicTheorems {
  import opened Prelude
  import opened Messages
  import opened Partitioner
  import opened TopicProtocol
  import opened TopicInvariant

  // ---- Wake-up and shutdown ----

  /** A live consumer blocked on an empty channel has nothing left to read, nor has its group. */
  lemma NoLostWakeup(max: nat, name: string, n: nat, t: Topic, c: nat)
    requires max >= 1 && n >= 1 && Reachable(max, name, n, t)
    requires c in t.consumers && t.consumers[c].pc.Waiting? && !t.consumers[c].token
    ensures t.consumers[c].slot.part < |t.parts|
    ensures |t.parts[t.consumers[c].slot.part]| == t.consumers[c].pc.at == Committed(t, t.consumers[c].slot)
  {
    ReachableInv(max, name, n, t);
    assert OneConsumerOk(max, t, c);
  }

  /** A consumer goes to wait exactly when its group had committed the whole log at the read. */
  lemma MissMeansDrained(max: nat, name: string, n: nat, t: Topic, c: nat)
    requires max >= 1 && n >= 1 && Reachable(max, name, n, t) && Enabled(t, Step(c, Get))
    ensures Apply(max, t, Step(c, Get)).consumers[c].pc.Waiting?
       <==> t.consumers[c].pc.at == Committed(t, t.consumers[c].slot) == |t.parts[t.consumers[c].slot.part]|
  {
    ReachableInv(max, name, n, t);
    assert OneConsumerOk(max, t, c);
  }

  ghost predicate ExitsOk(t: Topic) {
    forall c :: c in t.consumers && t.consumers[c].pc.Exited? ==> t.consumers[c].ctx in t.cancelled
  }

  lemma {:induction false} ExitsExec(max: nat, t: Topic, ls: seq<Label>)
    requires ExitsOk(t) && Exec(max, t, ls).Some?
    ensures ExitsOk(Exec(max, t, ls).value)
    decreases |ls|
  {
    if ls != [] {
      var t' := Apply(max, t, ls[0]);
      forall c | c in t'.consumers && t'.consumers[c].pc.Exited?
        ensures t'.consumers[c].ctx in t'.cancelled
      {
        if c in t.consumers {
          ConsumerAfter(max, t, ls[0], c);
        }
      }
      ExitsExec(max, t', ls[1..]);
    }
  }

  /** Step `k` of the run was the consumer's last read; it was taken in state `s` and found the log drained. */
  ghost predicate LastReadAt(max: nat, name: string, n: nat, ls: seq<Label>, c: nat, con: Consumer, k: nat, s: Topic) {
    && k < |ls| && ls[k] == Step(c, Get)
    && Exec(max, NewTopic(name, n), ls[..k]) == Some(s)
    && (forall i :: k < i < |ls| && ls[i].Step? && ls[i].cid == c ==> ls[i].act.Exit?)
    && con.slot.part < |s.parts|
    && (con.pc.Waiting? || con.pc.Exited?)
    && con.pc.at == Committed(s, con.slot) == |s.parts[con.slot.part]|
  }

  /** What a consumer about to wait, or waiting, or gone did in the step before. */
  lemma BeforeWaiting(max: nat, t: Topic, l: Label, c: nat)
    requires Enabled(t, l) && c in Apply(max, t, l).consumers
    requires Apply(max, t, l).consumers[c].pc.Waiting? || Apply(max, t, l).consumers[c].pc.Exited?
    ensures c in t.consumers && t.consumers[c].slot == Apply(max, t, l).consumers[c].slot
    ensures l.Step? && l.cid == c && !l.act.Get? ==> l.act.Exit?
    ensures l != Step(c, Get) ==>
              && (t.consumers[c].pc.Waiting? || t.consumers[c].pc.Exited?)
              && t.consumers[c].pc.at == Apply(max, t, l).consumers[c].pc.at
    ensures l == Step(c, Get) ==> t.consumers[c].pc.at == Apply(max, t, l).consumers[c].pc.at
  {
    if c in t.consumers {
      ConsumerAfter(max, t, l, c);
    }
  }

  /** Every consumer that waits or has left got there by a last read that found everything committed. */
  lemma {:induction false} LastRead(max: nat, name: string, n: nat, ls: seq<Label>, t: Topic, c: nat)
    returns (k: nat, s: Topic)
    requires max >= 1 && n >= 1 && Exec(max, NewTopic(name, n), ls) == Some(t) && c in t.consumers
    requires t.consumers[c].pc.Waiting? || t.consumers[c].pc.Exited?
    ensures LastReadAt(max, name, n, ls, c, t.consumers[c], k, s)
    decreases |ls|
  {
    var m := |ls| - 1;
    var mid := ExecFront(max, NewTopic(name, n), ls);
    BeforeWaiting(max, mid, ls[m], c);
    if ls[m] == Step(c, Get) {
      MissMeansDrained(max, name, n, mid, c);
      k, s := m, mid;
    } else {
      k, s := LastRead(max, name, n, ls[..m], mid, c);
      assert ls[..m][..k] == ls[..k];
    }
  }

  /**
   A consumer leaves only once its context is cancelled, and cancellation loses nothing: whatever was in the log at
   its last read is committed and handled.
   */
  lemma ExitLosesNothing(max: nat, name: string, n: nat, ls: seq<Label>, t: Topic, c: nat) returns (k: nat, s: Topic)
    requires max >= 1 && n >= 1 && Exec(max, NewTopic(name, n), ls) == Some(t)
    requires c in t.consumers && t.consumers[c].pc.Exited?
    ensures t.consumers[c].ctx in t.cancelled
    ensures LastReadAt(max, name, n, ls, c, t.consumers[c], k, s)
    ensures forall o: nat :: o < |s.parts[t.consumers[c].slot.part]| ==>
              o < Committed(t, t.consumers[c].slot) && Handled(max, t, t.consumers[c].slot, o)
  {
    ExitsExec(max, NewTopic(name, n), ls);
    k, s := LastRead(max, name, n, ls, t, c);
    ReachableInv(max, name, n, t);
    assert OneConsumerOk(max, t, c);
  }

  // ---- Any number of consumers in a group ----

  /** Commits move a group by one message or not at all; in-flight offsets are never ahead of the group. */
  lemma CommitByOne(max: nat, name: string, n: nat, t: Topic, c: nat)
    requires max >= 1 && n >= 1 && Reachable(max, name, n, t) && Enabled(t, Step(c, Commit))
    ensures var slot, at := t.consumers[c].slot, t.consumers[c].pc.at;
            && at <= Committed(t, slot) < |t.parts[slot.part]| + 1
            && Committed(Apply(max, t, Step(c, Commit)), slot)
                 == Committed(t, slot) + (if at == Committed(t, slot) then 1 else 0)
  {
    ReachableInv(max, name, n, t);
    assert OneConsumerOk(max, t, c);
    CommittedStep(max, t, Step(c, Commit), t.consumers[c].slot);
  }

  function ConsumersOf(t: Topic, slot: Slot): set<nat> {
    set c | c in t.consumers && t.consumers[c].slot == slot
  }

  /** How many handler calls the group has made for one offset. */
  ghost function CallsFor(t: Topic, slot: Slot, o: nat): nat {
    Sum(map c | c in ConsumersOf(t, slot) :: |Attempts(t.consumers[c].calls, o)|)
  }

  lemma OneMore(a: nat, b: nat)
    ensures a * (b + 1) == a * b + a
  {
  }

  lemma {:induction false} SumAtMost<K(!new)>(m: map<K, nat>, bound: nat)
    requires forall k :: k in m ==> m[k] <= bound
    ensures Sum(m) <= bound * |m.Keys|
    decreases |m|
  {
    if m != map[] {
      var k :| k in m;
      SumRemove(m, k);
      SumAtMost(m - {k}, bound);
      var rest := (m - {k}).Keys;
      assert m.Keys == rest + {k};
      OneMore(bound, |rest|);
    }
  }

  lemma AttemptBound(max: nat, t: Topic, c: nat, o: nat)
    requires Inv(max, t) && c in t.consumers
    ensures |Attempts(t.consumers[c].calls, o)| <= max
  {
    assert OneConsumerOk(max, t, c);
    var con := t.consumers[c];
    assert InFlight(con.pc) == Some(o) || Attempts(con.calls, o) == [] || Complete(max, Attempts(con.calls, o));
  }

  /**
   With C consumers on a slot, a committed offset was taken through the whole retry loop by at least one of
   them, and no offset ever costs more than maxRetries handler calls per consumer.
   */
  lemma GroupSafety(max: nat, name: string, n: nat, t: Topic, slot: Slot, o: nat)
    requires max >= 1 && n >= 1 && Reachable(max, name, n, t)
    ensures o < Committed(t, slot) ==>
              exists c :: c in ConsumersOf(t, slot) && Complete(max, Attempts(t.consumers[c].calls, o))
    ensures CallsFor(t, slot, o) <= max * |ConsumersOf(t, slot)|
  {
    ReachableInv(max, name, n, t);
    if o < Committed(t, slot) {
      assert Handled(max, t, slot, o);
      var c :| Finished(max, t, c, slot, o);
      assert c in ConsumersOf(t, slot);
    }
    var m := map c | c in ConsumersOf(t, slot) :: |Attempts(t.consumers[c].calls, o)|;
    forall c | c in m
      ensures m[c] <= max
    {
      AttemptBound(max, t, c, o);
    }
    SumAtMost(m, max);
    assert m.Keys == ConsumersOf(t, slot);
  }

  /** The dead-letter log, entry by entry: whose delivery, what is kept and what is rewritten. */
  lemma DeadLetters(max: nat, name: string, n: nat, t: Topic)
    requires max >= 1 && n >= 1 && Reachable(max, name, n, t)
    ensures |t.dead| == |t.dlq|
    ensures forall i, j :: 0 <= i < j < |t.dead| ==> t.dead[i] != t.dead[j]
    ensures forall i: nat :: i < |t.dead| ==> DeadOk(t, i) && DeadEntry(max, t, i)
    ensures forall d: Dead :: d in t.dead <==> GaveUp(max, t, d.consumer, d.at)
  {
    ReachableInv(max, name, n, t);
  }

  // ---- First attempts ----

  /** The messages handed over, in order, retries left out. */
  function FirstAttempts(calls: seq<Call>): Log {
    if calls == [] then []
    else
      var n := |calls| - 1;
      FirstAttempts(calls[..n]) + (if calls[n].msg.attempt == 1 then [calls[n].msg] else [])
  }

  lemma FirstAttemptsSnoc(calls: seq<Call>, x: Call)
    ensures FirstAttempts(calls + [x]) == FirstAttempts(calls) + (if x.msg.attempt == 1 then [x.msg] else [])
  {
    assert (calls + [x])[..|calls|] == calls;
  }

  ghost predicate Ascending(log: Log, bound: int) {
    && (forall i :: 0 <= i < |log| ==> log[i].offset < bound)
    && (forall i, j :: 0 <= i < j < |log| ==> log[i].offset < log[j].offset)
  }

  /** Only an offset never tried before gets attempt number 1. */
  lemma {:induction false} FirstAscending(log: Log, calls: seq<Call>, bound: nat)
    requires CallsOk(log, calls) && Ordered(calls) && Below(calls, bound)
    ensures Ascending(FirstAttempts(calls), bound)
  {
    if calls != [] {
      var n := |calls| - 1;
      var front, x := calls[..n], calls[n];
      assert CallOk(log, calls, n);
      forall i: nat | i < n
        ensures CallOk(log, front, i)
      {
        assert CallOk(log, calls, i);
        assert front[..i] == calls[..i];
      }
      FirstAscending(log, front, x.msg.offset + 1);
      if x.msg.attempt == 1 {
        if exists i :: 0 <= i < n && front[i].msg.offset == x.msg.offset {
          TriedBefore(front, x.msg.offset);
        }
        FirstAscending(log, front, x.msg.offset);
      }
    }
  }

  lemma {:induction false} TriedBefore(calls: seq<Call>, at: int)
    requires exists i :: 0 <= i < |calls| && calls[i].msg.offset == at
    ensures Attempts(calls, at) != []
  {
    var n := |calls| - 1;
    if calls[n].msg.offset != at {
      TriedBefore(calls[..n], at);
    }
  }

  /** Each consumer moves strictly forward through its log, whatever the others do. */
  lemma OffsetsIncrease(max: nat, name: string, n: nat, t: Topic, c: nat)
    requires max >= 1 && n >= 1 && Reachable(max, name, n, t) && c in t.consumers
    ensures Ascending(FirstAttempts(t.consumers[c].calls), Bound(t.consumers[c].pc, Committed(t, t.consumers[c].slot)))
  {
    ReachableInv(max, name, n, t);
    assert OneConsumerOk(max, t, c);
    var con := t.consumers[c];
    FirstAscending(t.parts[con.slot.part], con.calls, Bound(con.pc, Committed(t, con.slot)));
  }

  // ---- The only consumer of its group on a partition ----

  ghost predicate Sole(t: Topic, c: nat) {
    c in t.consumers && forall d :: d in t.consumers && d != c ==> t.consumers[d].slot != t.consumers[c].slot
  }

  /** How many messages a sole consumer has been handed. */
  function Handed(c: Consumer, committed: nat): nat {
    if InFlight(c.pc) != None && !(c.pc.Attempting? && c.pc.attempt == 1)
    then committed + 1 else committed
  }

  /** A sole consumer is never behind its group, and has been handed exactly a prefix of the log, in order. */
  ghost predicate SoleOk(log: Log, committed: nat, c: Consumer) {
    && (c.pc.Spawned? ==> c.calls == [] && committed == 0)
    && (!c.pc.Spawned? && !c.pc.Fetch? ==> c.pc.at == committed)
    && Handed(c, committed) <= |log|
    && FirstAttempts(c.calls) == log[..Handed(c, committed)]
  }

  ghost predicate SolesOk(t: Topic) {
    forall c :: Sole(t, c) && t.consumers[c].slot.part < |t.parts| ==> SoleOkAt(t, c)
  }

  lemma SoleAttempt(max: nat, log: Log, committed: nat, c: Consumer, ok: bool)
    requires Numbered(log) && c.pc.Attempting? && PcOk(max, log, committed, c) && SoleOk(log, committed, c)
    ensures SoleOk(log, committed, AfterAttempt(max, c, ok))
  {
    var at, k := c.pc.at, c.pc.attempt;
    var c' := AfterAttempt(max, c, ok);
    var x := c.pc.msg.(attempt := k);
    assert FirstAttempts(c'.calls) == FirstAttempts(c.calls) + (if k == 1 then [x] else []) by {
      FirstAttemptsSnoc(c.calls, Call(x, ok));
    }
    assert at == committed && Handed(c', committed) == at + 1 && c'.pc.at == at;
    assert log[..at + 1] == log[..at] + [log[at]];
    if k > 1 {
      assert FirstAttempts(c'.calls) == FirstAttempts(c.calls);
    }
  }

  lemma SoleAdvance(max: nat, t: Topic, c: Consumer, act: Action)
    requires LogsOk(t) && c.slot.part < |t.parts| && CanAct(t, c, act)
    requires Committed(t, c.slot) <= |t.parts[c.slot.part]|
    requires PcOk(max, t.parts[c.slot.part], Committed(t, c.slot), c)
    requires SoleOk(t.parts[c.slot.part], Committed(t, c.slot), c)
    ensures SoleOk(t.parts[c.slot.part], CommittedAfter(t, c, act), Advance(max, t, c, act))
  {
    if act.Attempt? {
      assert LogOk(t.name, |t.parts|, c.slot.part, t.parts[c.slot.part]);
      SoleAttempt(max, t.parts[c.slot.part], Committed(t, c.slot), c, act.ok);
    } else {
      assert Advance(max, t, c, act).calls == c.calls;
    }
  }

  lemma FirstConsumerStartsAtZero(max: nat, t: Topic, slot: Slot)
    requires Inv(max, t) && ConsumersOf(t, slot) == {}
    ensures Committed(t, slot) == 0
  {
    if Committed(t, slot) > 0 {
      HandledByMember(max, t, slot, 0);
    }
  }

  lemma HandledByMember(max: nat, t: Topic, slot: Slot, o: nat)
    requires Handled(max, t, slot, o)
    ensures ConsumersOf(t, slot) != {}
  {
    var c :| Finished(max, t, c, slot, o);
    assert c in ConsumersOf(t, slot);
  }

  /** The consumers of a topic only ever gain members, and never change slot. */
  lemma SlotsStay(max: nat, t: Topic, l: Label)
    requires Enabled(t, l)
    ensures forall d :: d in t.consumers ==>
              d in Apply(max, t, l).consumers && Apply(max, t, l).consumers[d].slot == t.consumers[d].slot
  {
    forall d | d in t.consumers
      ensures d in Apply(max, t, l).consumers && Apply(max, t, l).consumers[d].slot == t.consumers[d].slot
    {
      ConsumerAfter(max, t, l, d);
    }
  }

  ghost predicate SoleOkAt(t: Topic, c: nat)
    requires c in t.consumers && t.consumers[c].slot.part < |t.parts|
  {
    SoleOk(t.parts[t.consumers[c].slot.part], Committed(t, t.consumers[c].slot), t.consumers[c])
  }

  lemma SoleOwnStep(max: nat, t: Topic, c: nat, act: Action)
    requires Inv(max, t) && Enabled(t, Step(c, act)) && SoleOkAt(t, c)
    ensures SoleOkAt(ApplyStep(max, t, c, act), c)
  {
    assert OneConsumerOk(max, t, c);
    SoleAdvance(max, t, t.consumers[c], act);
    CommittedStep(max, t, Step(c, act), t.consumers[c].slot);
  }

  lemma SoleOtherStep(max: nat, t: Topic, l: Label, c: nat)
    requires Enabled(t, l) && c in t.consumers && t.consumers[c].slot.part < |t.parts| && SoleOkAt(t, c)
    requires l.Step? ==> t.consumers[l.cid].slot != t.consumers[c].slot
    ensures c in Apply(max, t, l).consumers
    ensures Apply(max, t, l).consumers[c].slot.part < |Apply(max, t, l).parts| && SoleOkAt(Apply(max, t, l), c)
  {
    CommittedStep(max, t, l, t.consumers[c].slot);
    ConsumerAfter(max, t, l, c);
    LogsGrow(max, t, l);
    var con := t.consumers[c];
    var log, log' := t.parts[con.slot.part], Apply(max, t, l).parts[con.slot.part];
    assert log'[..|log|] == log;
    var h := Handed(con, Committed(t, con.slot));
    assert log'[..h] == log[..h];
  }

  lemma SoleSpawn(max: nat, t: Topic, cid: nat, group: string, part: nat, ctx: nat)
    requires Inv(max, t) && Enabled(t, Spawn(cid, group, part, ctx))
    requires Sole(Apply(max, t, Spawn(cid, group, part, ctx)), cid)
    ensures SoleOkAt(Apply(max, t, Spawn(cid, group, part, ctx)), cid)
  {
    var t' := Apply(max, t, Spawn(cid, group, part, ctx));
    forall d | d in t.consumers
      ensures t.consumers[d].slot != Slot(group, part)
    {
      assert t'.consumers[d] == t.consumers[d];
    }
    assert ConsumersOf(t, Slot(group, part)) == {};
    FirstConsumerStartsAtZero(max, t, Slot(group, part));
  }

  lemma SoleStep(max: nat, t: Topic, l: Label, c: nat)
    requires Inv(max, t) && SolesOk(t) && Enabled(t, l) && Sole(Apply(max, t, l), c)
    ensures Apply(max, t, l).consumers[c].slot.part < |Apply(max, t, l).parts| && SoleOkAt(Apply(max, t, l), c)
  {
    var t' := Apply(max, t, l);
    if c !in t.consumers {
      assert l.Spawn? && l.cid == c;
      SoleSpawn(max, t, c, l.group, l.part, l.ctx);
    } else {
      SlotsStay(max, t, l);
      assert Sole(t, c);
      assert OneConsumerOk(max, t, c);
      if l.Step? && l.cid == c {
        SoleOwnStep(max, t, c, l.act);
      } else {
        SoleOtherStep(max, t, l, c);
      }
    }
  }

  lemma {:induction false} SoleExec(max: nat, t: Topic, ls: seq<Label>)
    requires Inv(max, t) && SolesOk(t) && Exec(max, t, ls).Some?
    ensures SolesOk(Exec(max, t, ls).value)
    decreases |ls|
  {
    if ls != [] {
      var t' := Apply(max, t, ls[0]);
      InvStep(max, t, ls[0]);
      forall c | Sole(t', c)
        ensures t'.consumers[c].slot.part < |t'.parts| && SoleOkAt(t', c)
      {
        SoleStep(max, t, ls[0], c);
      }
      SoleExec(max, t', ls[1..]);
    }
  }

  /**
   One consumer per group and partition: it is handed offsets 0, 1, 2, ... with none skipped or repeated, up to
   the committed offset and at most one more that is in flight.
   */
  lemma SoleInOrder(max: nat, name: string, n: nat, t: Topic, c: nat)
    requires max >= 1 && n >= 1 && Reachable(max, name, n, t) && Sole(t, c)
    ensures var con := t.consumers[c];
            && con.slot.part < |t.parts|
            && Committed(t, con.slot) <= Handed(con, Committed(t, con.slot)) <= |t.parts[con.slot.part]|
            && FirstAttempts(con.calls) == t.parts[con.slot.part][..Handed(con, Committed(t, con.slot))]
  {
    InitInv(max, name, n);
    ReachableInv(max, name, n, t);
    var ls :| Exec(max, NewTopic(name, n), ls) == Some(t);
    SoleExec(max, NewTopic(name, n), ls);
  }

  /** ... and each committed offset ended in exactly one of two ways: a success, or a dead letter. */
  lemma SoleConservation(max: nat, name: string, n: nat, t: Topic, c: nat, o: nat)
    requires max >= 1 && n >= 1 && Reachable(max, name, n, t) && Sole(t, c)
    requires o < Committed(t, t.consumers[c].slot)
    ensures Succeeded(max, Attempts(t.consumers[c].calls, o)) != (Dead(c, o) in t.dead)
    ensures forall d :: d in t.consumers && t.consumers[d].slot == t.consumers[c].slot && Dead(d, o) in t.dead
              ==> d == c
  {
    ReachableInv(max, name, n, t);
    assert Handled(max, t, t.consumers[c].slot, o);
    var d :| Finished(max, t, d, t.consumers[c].slot, o);
    assert d == c;
    assert Dead(c, o) in t.dead <==> GaveUp(max, t, c, o);
  }

  // ---- Keys ----

  function WithKey(log: Log, key: Bytes): Log {
    if log == [] then []
    else (if log[0].key == key then [log[0]] else []) + WithKey(log[1..], key)
  }

  lemma {:induction false} NoneWithKey(log: Log, key: Bytes)
    requires forall i :: 0 <= i < |log| ==> log[i].key != key
    ensures WithKey(log, key) == []
  {
    if log != [] {
      NoneWithKey(log[1..], key);
    }
  }

  /**
   All messages of one key sit in one partition, so a sole consumer there is handed them in the order they were
   appended, and the other partitions never see them.
   */
  lemma KeyOrder(max: nat, name: string, n: nat, t: Topic, key: Bytes, c: nat)
    requires max >= 1 && n >= 1 && Reachable(max, name, n, t) && Sole(t, c)
    requires t.consumers[c].slot.part == PartitionOf(key, |t.parts|)
    ensures PartitionOf(key, |t.parts|) < |t.parts|
    ensures forall p: nat :: p < |t.parts| && p != PartitionOf(key, |t.parts|) ==> WithKey(t.parts[p], key) == []
    ensures Handed(t.consumers[c], Committed(t, t.consumers[c].slot)) <= |t.parts[PartitionOf(key, |t.parts|)]|
    ensures WithKey(FirstAttempts(t.consumers[c].calls), key)
         == WithKey(t.parts[PartitionOf(key, |t.parts|)][..Handed(t.consumers[c], Committed(t, t.consumers[c].slot))],
                    key)
  {
    ReachableInv(max, name, n, t);
    SoleInOrder(max, name, n, t, c);
    forall p: nat | p < |t.parts| && p != PartitionOf(key, |t.parts|)
      ensures WithKey(t.parts[p], key) == []
    {
      assert LogOk(t.name, |t.parts|, p, t.parts[p]);
      NoneWithKey(t.parts[p], key);
    }
  }

  // ---- Publishing ----

  /** No append is ever unaccounted for: what is in the logs is what was counted plus what is about to be. */
  lemma PublishAccounting(max: nat, name: string, n: nat, t: Topic)
    requires max >= 1 && n >= 1 && Reachable(max, name, n, t)
    ensures TotalLength(t.parts) == t.published + |Uncounted(t)|
    ensures t.publishers == map[] ==> TotalLength(t.parts) == t.published
  {
    ReachableInv(max, name, n, t);
    if t.publishers == map[] {
      assert Uncounted(t) == {};
    }
  }
}
