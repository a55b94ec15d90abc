/**
 README.md:21 promises that consumer-group offset tracking processes each message exactly once. In the sense that each
 committed message ended exactly once, in a success or a dead letter, that holds as long as no two consumers of a group
 serve a partition at the same time, and fails as soon as two do; cmd/worker/main.go:70-71 starts several. In the sense
 of one success each it needs, besides, that no message is refused until it is dead-lettered.
 */
module ExactlyOnce {
  import opened Prelude
  import opened Messages
  import opened Partitioner
  import opened TopicProtocol
  import opened TopicInvariant
  import opened TopicTheorems

  // ---- Counting successes ----

  function Oks(r: seq<bool>): nat {
    if r == [] then 0 else Oks(r[..|r| - 1]) + (if r[|r| - 1] then 1 else 0)
  }

  lemma {:induction false} NoOks(r: seq<bool>)
    requires AllFailed(r)
    ensures Oks(r) == 0
  {
    if r != [] {
      NoOks(r[..|r| - 1]);
    }
  }

  function OksOf(t: Topic, slot: Slot, o: nat): map<nat, nat> {
    map c | c in ConsumersOf(t, slot) :: Oks(Attempts(t.consumers[c].calls, o))
  }

  /** How often the group has processed one offset successfully, all its consumers taken together. */
  ghost function TimesProcessed(t: Topic, slot: Slot, o: nat): nat {
    Sum(OksOf(t, slot, o))
  }

  lemma OksComplete(max: nat, r: seq<bool>)
    requires AllFailed(r) || Complete(max, r)
    ensures Oks(r) <= 1
  {
    if AllFailed(r) {
      NoOks(r);
    } else {
      NoOks(r[..|r| - 1]);
    }
  }

  lemma FailedOrComplete(max: nat, log: Log, committed: nat, c: Consumer, o: nat)
    requires ConsumerOk(max, log, committed, c)
    ensures AllFailed(Attempts(c.calls, o)) || Complete(max, Attempts(c.calls, o))
  {
    assert InFlight(c.pc) == Some(o) || Attempts(c.calls, o) == [] || Complete(max, Attempts(c.calls, o));
  }

  /** The retry loop stops at its first success and no consumer goes back to an offset. */
  lemma OncePerConsumer(max: nat, t: Topic, c: nat, o: nat)
    requires Inv(max, t) && c in t.consumers
    ensures Oks(Attempts(t.consumers[c].calls, o)) <= 1
  {
    assert OneConsumerOk(max, t, c);
    var con := t.consumers[c];
    FailedOrComplete(max, t.parts[con.slot.part], Committed(t, con.slot), con, o);
    OksComplete(max, Attempts(con.calls, o));
  }

  // ---- Sharing a partition: duplicates ----

  ghost predicate Processed(max: nat, t: Topic, c: nat, slot: Slot, o: nat) {
    c in ConsumersOf(t, slot) && Succeeded(max, Attempts(t.consumers[c].calls, o))
  }

  lemma TwoProcessed(max: nat, t: Topic, slot: Slot, c: nat, d: nat, o: nat)
    requires c != d && Processed(max, t, c, slot, o) && Processed(max, t, d, slot, o)
    ensures TimesProcessed(t, slot, o) >= 2
  {
    var m := OksOf(t, slot, o);
    SumRemove(m, c);
    SumRemove(m - {c}, d);
  }

  /** One uncommitted delivery: read the group's offset, read the message, and succeed. */
  function Delivery(c: nat): seq<Label> {
    [Step(c, GetOffset), Step(c, Get), Step(c, Attempt(true))]
  }

  function AfterDelivery(t: Topic, c: nat): Topic
    requires c in t.consumers
    requires t.consumers[c].slot.part < |t.parts|
    requires Committed(t, t.consumers[c].slot) < |t.parts[t.consumers[c].slot.part]|
  {
    var con := t.consumers[c];
    var o := Committed(t, con.slot);
    var m := t.parts[con.slot.part][o].(attempt := 1);
    t.(consumers := t.consumers[c := con.(pc := Committing(o), calls := con.calls + [Call(m, true)])])
  }

  lemma DeliveryRuns(max: nat, t: Topic, c: nat)
    requires c in t.consumers && t.consumers[c].pc.Fetch? && t.consumers[c].slot.part < |t.parts|
    requires Committed(t, t.consumers[c].slot) < |t.parts[t.consumers[c].slot.part]|
    ensures Exec(max, t, Delivery(c)) == Some(AfterDelivery(t, c))
  {
    var con := t.consumers[c];
    var o := Committed(t, con.slot);
    var ls := Delivery(c);
    var t1 := Apply(max, t, ls[0]);
    assert t1.consumers == t.consumers[c := con.(pc := Read(o))];
    var t2 := Apply(max, t1, ls[1]);
    assert t2.consumers[c] == con.(pc := Attempting(o, t.parts[con.slot.part][o], 1));
    var t3 := Apply(max, t2, ls[2]);
    assert t3.consumers == AfterDelivery(t, c).consumers;
    assert t3 == AfterDelivery(t, c);
    assert Exec(max, t2, ls[1..][1..]) == Some(t3) by {
      assert ls[1..][1..] == [ls[2]];
      assert Exec(max, t3, []) == Some(t3);
    }
  }

  lemma FreshDelivery(max: nat, log: Log, committed: nat, c: Consumer)
    requires ConsumerOk(max, log, committed, c) && Numbered(log) && c.pc.Fetch? && committed < |log|
    ensures Attempts(c.calls + [Call(log[committed].(attempt := 1), true)], committed) == [true]
  {
    AttemptsNone(c.calls, committed);
    AttemptsSnoc(c.calls, Call(log[committed].(attempt := 1), true), committed);
  }

  lemma DeliverySucceeds(max: nat, t: Topic, c: nat)
    requires Inv(max, t) && c in t.consumers && t.consumers[c].pc.Fetch?
    requires Committed(t, t.consumers[c].slot) < |t.parts[t.consumers[c].slot.part]|
    ensures Processed(max, AfterDelivery(t, c), c, t.consumers[c].slot, Committed(t, t.consumers[c].slot))
  {
    assert OneConsumerOk(max, t, c);
    var con := t.consumers[c];
    assert LogOk(t.name, |t.parts|, con.slot.part, t.parts[con.slot.part]);
    FreshDelivery(max, t.parts[con.slot.part], Committed(t, con.slot), con);
  }

  ghost predicate CanDeliver(max: nat, name: string, n: nat, t: Topic, c: nat) {
    && Reachable(max, name, n, t)
    && c in t.consumers && t.consumers[c].pc.Fetch? && t.consumers[c].slot.part < |t.parts|
    && Committed(t, t.consumers[c].slot) < |t.parts[t.consumers[c].slot.part]|
  }

  lemma Deliver(max: nat, name: string, n: nat, t: Topic, c: nat)
    requires max >= 1 && n >= 1 && CanDeliver(max, name, n, t, c)
    ensures Reachable(max, name, n, AfterDelivery(t, c))
    ensures Processed(max, AfterDelivery(t, c), c, t.consumers[c].slot, Committed(t, t.consumers[c].slot))
  {
    ReachableInv(max, name, n, t);
    DeliveryRuns(max, t, c);
    DeliverySucceeds(max, t, c);
    ReachableOn(max, name, n, t, Delivery(c), AfterDelivery(t, c));
  }

  /** One consumer's delivery leaves the others and the shared state alone. */
  lemma DeliveryApart(max: nat, t: Topic, c: nat, d: nat)
    requires c in t.consumers && t.consumers[c].slot.part < |t.parts|
    requires Committed(t, t.consumers[c].slot) < |t.parts[t.consumers[c].slot.part]|
    ensures var t' := AfterDelivery(t, c);
            && t'.consumers.Keys == t.consumers.Keys && t'.parts == t.parts && t'.committed == t.committed
            && (forall e :: e in t.consumers ==> t'.consumers[e].slot == t.consumers[e].slot)
            && (d in t.consumers && d != c ==> t'.consumers[d] == t.consumers[d])
  {
  }

  /** From any reachable state, two idle consumers of a slot with an unread message can both process it. */
  lemma SharedSlotDuplicates(max: nat, name: string, n: nat, t: Topic, c: nat, d: nat) returns (t': Topic)
    requires max >= 1 && n >= 1 && c != d && CanDeliver(max, name, n, t, c) && CanDeliver(max, name, n, t, d)
    requires t.consumers[c].slot == t.consumers[d].slot
    ensures Reachable(max, name, n, t') && t'.consumers.Keys == t.consumers.Keys
    ensures forall e :: e in t.consumers ==> t'.consumers[e].slot == t.consumers[e].slot
    ensures TimesProcessed(t', t.consumers[c].slot, Committed(t, t.consumers[c].slot)) >= 2
  {
    var slot, o := t.consumers[c].slot, Committed(t, t.consumers[c].slot);
    var mid := AfterDelivery(t, c);
    Deliver(max, name, n, t, c);
    DeliveryApart(max, t, c, d);
    t' := AfterDelivery(mid, d);
    Deliver(max, name, n, mid, d);
    DeliveryApart(max, mid, d, c);
    StillProcessed(max, mid, t', c, slot, o);
    TwoProcessed(max, t', slot, c, d, o);
  }

  lemma StillProcessed(max: nat, t: Topic, t': Topic, c: nat, slot: Slot, o: nat)
    requires Processed(max, t, c, slot, o) && c in t'.consumers && t'.consumers[c] == t.consumers[c]
    ensures Processed(max, t', c, slot, o)
  {
  }

  function Range(k: nat): (r: set<nat>)
    ensures |r| == k
    ensures forall c: nat :: c in r <==> c < k
  {
    if k == 0 then {} else Range(k - 1) + {k - 1}
  }

  /** One published message and `k` consumers about to start on its partition. */
  ghost predicate Crowded(t: Topic, slot: Slot, k: nat) {
    && slot.part < |t.parts| && |t.parts[slot.part]| == 1 && t.committed == map[]
    && t.consumers.Keys == Range(k)
    && forall c :: c in t.consumers ==> t.consumers[c].slot == slot && t.consumers[c].pc.Spawned?
  }

  lemma {:induction false} Crowd(max: nat, name: string, n: nat, group: string, key: Bytes, k: nat) returns (t: Topic)
    requires max >= 1 && n >= 1
    ensures Reachable(max, name, n, t) && |t.parts| == n && Crowded(t, Slot(group, PartitionOf(key, n)), k)
  {
    InRange(key, n);
    if k == 0 {
      t := NewTopic(name, n);
      assert Exec(max, t, []) == Some(t);
      OneStep(max, name, n, t, BeginPublish(0, key, [], 0));
      t := Apply(max, t, BeginPublish(0, key, [], 0));
      OneStep(max, name, n, t, Append(0));
      t := Apply(max, t, Append(0));
      assert |t.parts[PartitionOf(key, n)]| == 1;
    } else {
      var s := Crowd(max, name, n, group, key, k - 1);
      OneStep(max, name, n, s, Spawn(k - 1, group, PartitionOf(key, n), 0));
      t := Apply(max, s, Spawn(k - 1, group, PartitionOf(key, n), 0));
    }
  }

  lemma CrowdSize(t: Topic, slot: Slot, k: nat)
    requires t.consumers.Keys == Range(k)
    requires forall c :: c in t.consumers ==> t.consumers[c].slot == slot
    ensures |ConsumersOf(t, slot)| == k
  {
    assert ConsumersOf(t, slot) == Range(k);
  }

  /** A consumer about to start becomes ready to deliver; the others are untouched. */
  lemma Starts(max: nat, name: string, n: nat, t: Topic, c: nat) returns (t': Topic)
    requires Reachable(max, name, n, t) && c in t.consumers && t.consumers[c].pc.Spawned?
    requires t.consumers[c].slot.part < |t.parts|
    requires Committed(t, t.consumers[c].slot) < |t.parts[t.consumers[c].slot.part]|
    ensures t'.consumers.Keys == t.consumers.Keys && t'.parts == t.parts && t'.committed == t.committed
    ensures forall d :: d in t.consumers ==> t'.consumers[d].slot == t.consumers[d].slot
    ensures forall d :: d in t.consumers && d != c ==> t'.consumers[d] == t.consumers[d]
    ensures CanDeliver(max, name, n, t', c)
  {
    OneStep(max, name, n, t, Step(c, Listen));
    t' := Apply(max, t, Step(c, Listen));
  }

  lemma PairStarts(max: nat, name: string, n: nat, s: Topic, slot: Slot, k: nat) returns (t: Topic)
    requires max >= 1 && n >= 1 && k >= 2 && Reachable(max, name, n, s) && Crowded(s, slot, k)
    ensures CanDeliver(max, name, n, t, 0) && CanDeliver(max, name, n, t, 1)
    ensures t.consumers.Keys == Range(k) && Committed(t, slot) == 0
    ensures forall c :: c in t.consumers ==> t.consumers[c].slot == slot
  {
    assert 0 in s.consumers && 1 in s.consumers;
    var mid := Starts(max, name, n, s, 0);
    t := Starts(max, name, n, mid, 1);
  }

  /** A reachable state: `k` >= 2 consumers share the key's partition, and its first message was processed twice. */
  lemma Duplicates(max: nat, name: string, n: nat, group: string, key: Bytes, k: nat) returns (t: Topic)
    requires max >= 1 && n >= 1 && k >= 2
    ensures Reachable(max, name, n, t) && |ConsumersOf(t, Slot(group, PartitionOf(key, n)))| == k
    ensures TimesProcessed(t, Slot(group, PartitionOf(key, n)), 0) >= 2
  {
    var slot := Slot(group, PartitionOf(key, n));
    var s := Crowd(max, name, n, group, key, k);
    var s' := PairStarts(max, name, n, s, slot, k);
    t := SharedSlotDuplicates(max, name, n, s', 0, 1);
    CrowdSize(t, slot, k);
  }

  // ---- One after the other: no duplicates ----

  /** The slot's consumers that have not returned. */
  function LiveOf(t: Topic, slot: Slot): set<nat> {
    set c | c in ConsumersOf(t, slot) && !t.consumers[c].pc.Exited?
  }

  /** Throughout the run at most `k` consumers of the slot are live at a time. */
  ghost predicate AtMostLive(max: nat, t: Topic, ls: seq<Label>, slot: Slot, k: nat)
    decreases |ls|
  {
    && |LiveOf(t, slot)| <= k
    && (ls != [] && Enabled(t, ls[0]) ==> AtMostLive(max, Apply(max, t, ls[0]), ls[1..], slot, k))
  }

  lemma OnlyLive(t: Topic, slot: Slot, c: nat, d: nat)
    requires |LiveOf(t, slot)| <= 1 && c in LiveOf(t, slot) && d in LiveOf(t, slot)
    ensures c == d
  {
    if c != d {
      SubsetSize({c, d}, LiveOf(t, slot));
    }
  }

  ghost predicate Apart(t: Topic, c: nat, d: nat, o: nat)
    requires c in t.consumers && d in t.consumers
  {
    Attempts(t.consumers[c].calls, o) == [] || Attempts(t.consumers[d].calls, o) == []
  }

  ghost predicate Level(t: Topic, c: nat)
    requires c in t.consumers
  {
    var con := t.consumers[c];
    con.pc.Spawned? || con.pc.Fetch? || con.pc.at == Committed(t, con.slot)
  }

  /** No two consumers ever tried the same offset, and the live one is not behind its group. */
  ghost predicate Serial(t: Topic, slot: Slot) {
    && (forall c, d, o: nat :: c in ConsumersOf(t, slot) && d in ConsumersOf(t, slot) && c != d ==> Apart(t, c, d, o))
    && (forall c :: c in LiveOf(t, slot) ==> Level(t, c))
  }

  /** Who has returned did not try what is yet to be committed. */
  lemma GoneIsBelow(max: nat, t: Topic, slot: Slot, d: nat)
    requires Inv(max, t) && d in ConsumersOf(t, slot) && t.consumers[d].pc.Exited?
    ensures Attempts(t.consumers[d].calls, Committed(t, slot)) == []
  {
    assert OneConsumerOk(max, t, d);
    AttemptsNone(t.consumers[d].calls, Committed(t, slot));
  }

  lemma LevelOwn(max: nat, t: Topic, c: nat, act: Action)
    requires Enabled(t, Step(c, act)) && Level(t, c)
    ensures c in ApplyStep(max, t, c, act).consumers && Level(ApplyStep(max, t, c, act), c)
  {
    CommittedStep(max, t, Step(c, act), t.consumers[c].slot);
    ConsumerAfter(max, t, Step(c, act), c);
  }

  lemma LevelOther(max: nat, t: Topic, l: Label, c: nat)
    requires Enabled(t, l) && c in t.consumers && Level(t, c) && !(l.Step? && l.cid == c)
    requires !(l.Step? && l.act.Commit? && t.consumers[l.cid].slot == t.consumers[c].slot)
    ensures c in Apply(max, t, l).consumers && Level(Apply(max, t, l), c)
  {
    CommittedStep(max, t, l, t.consumers[c].slot);
    ConsumerAfter(max, t, l, c);
  }

  lemma LevelStep(max: nat, t: Topic, l: Label, slot: Slot, c: nat)
    requires Serial(t, slot) && Enabled(t, l) && |LiveOf(t, slot)| <= 1
    requires c in LiveOf(Apply(max, t, l), slot)
    ensures Level(Apply(max, t, l), c)
  {
    if c in t.consumers {
      ConsumerAfter(max, t, l, c);
      assert c in LiveOf(t, slot) && Level(t, c);
      if l.Step? && l.cid == c {
        LevelOwn(max, t, c, l.act);
      } else {
        if l.Step? && l.act.Commit? && t.consumers[l.cid].slot == slot {
          OnlyLive(t, slot, c, l.cid);
        }
        LevelOther(max, t, l, c);
      }
    }
  }

  lemma ApartStep(max: nat, t: Topic, l: Label, slot: Slot, c: nat, d: nat, o: nat)
    requires Inv(max, t) && Serial(t, slot) && Enabled(t, l) && |LiveOf(t, slot)| <= 1
    requires c in t.consumers && d in t.consumers && c in ConsumersOf(t, slot) && d in ConsumersOf(t, slot) && c != d
    requires !(l.Step? && l.cid == d)
    ensures c in Apply(max, t, l).consumers && d in Apply(max, t, l).consumers && Apart(Apply(max, t, l), c, d, o)
  {
    Progress(max, t, l, c, o);
    Progress(max, t, l, d, o);
    assert Apart(t, c, d, o);
    if l.Step? && l.cid == c && l.act.Attempt? && t.consumers[c].pc.at == o {
      assert c in LiveOf(t, slot) && Level(t, c);
      if d in LiveOf(t, slot) {
        OnlyLive(t, slot, c, d);
      }
      GoneIsBelow(max, t, slot, d);
    }
  }

  lemma SerialStep(max: nat, t: Topic, l: Label, slot: Slot)
    requires Inv(max, t) && Serial(t, slot) && Enabled(t, l) && |LiveOf(t, slot)| <= 1
    ensures Serial(Apply(max, t, l), slot)
  {
    var t' := Apply(max, t, l);
    SlotsStay(max, t, l);
    forall c, d, o: nat | c in ConsumersOf(t', slot) && d in ConsumersOf(t', slot) && c != d
      ensures Apart(t', c, d, o)
    {
      if c !in t.consumers || d !in t.consumers {
        assert l.Spawn? && Attempts([], o) == [];
      } else if l.Step? && l.cid == d {
        ApartStep(max, t, l, slot, d, c, o);
      } else {
        ApartStep(max, t, l, slot, c, d, o);
      }
    }
    forall c | c in LiveOf(t', slot)
      ensures Level(t', c)
    {
      LevelStep(max, t, l, slot, c);
    }
  }

  lemma {:induction false} SerialExec(max: nat, t: Topic, ls: seq<Label>, slot: Slot)
    requires Inv(max, t) && Serial(t, slot) && Exec(max, t, ls).Some? && AtMostLive(max, t, ls, slot, 1)
    ensures Inv(max, Exec(max, t, ls).value) && Serial(Exec(max, t, ls).value, slot)
    decreases |ls|
  {
    if ls != [] {
      SerialStep(max, t, ls[0], slot);
      InvStep(max, t, ls[0]);
      SerialExec(max, Apply(max, t, ls[0]), ls[1..], slot);
    }
  }

  lemma {:induction false} SumOfOne(m: map<nat, nat>)
    requires forall c :: c in m ==> m[c] <= 1
    requires forall c, d :: c in m && d in m && c != d ==> m[c] == 0 || m[d] == 0
    ensures Sum(m) <= 1
    decreases |m|
  {
    if m != map[] {
      var c :| c in m;
      SumRemove(m, c);
      if m[c] == 0 {
        SumOfOne(m - {c});
      } else {
        SumAtMost(m - {c}, 0);
      }
    }
  }

  /** If the slot's consumers never overlap, the group never processes a message twice. */
  lemma NoOverlapNoDuplicates(max: nat, name: string, n: nat, ls: seq<Label>, slot: Slot, o: nat)
    requires max >= 1 && n >= 1 && Exec(max, NewTopic(name, n), ls).Some?
    requires AtMostLive(max, NewTopic(name, n), ls, slot, 1)
    ensures TimesProcessed(Exec(max, NewTopic(name, n), ls).value, slot, o) <= 1
  {
    InitInv(max, name, n);
    SerialExec(max, NewTopic(name, n), ls, slot);
    var t := Exec(max, NewTopic(name, n), ls).value;
    var m := OksOf(t, slot, o);
    forall c | c in m
      ensures m[c] <= 1
    {
      OncePerConsumer(max, t, c, o);
    }
    forall c, d | c in m && d in m && c != d
      ensures m[c] == 0 || m[d] == 0
    {
      assert Apart(t, c, d, o);
    }
    SumOfOne(m);
  }

  // ---- Every committed message ends exactly once ----

  /** Consumer `c` alone ever tried `o`, and it ended there in a success or in one dead letter, not both. */
  ghost predicate EndedBy(max: nat, t: Topic, slot: Slot, o: nat, c: nat) {
    && c in ConsumersOf(t, slot)
    && Succeeded(max, Attempts(t.consumers[c].calls, o)) != (Dead(c, o) in t.dead)
    && forall d :: d in ConsumersOf(t, slot) && d != c ==>
                     Attempts(t.consumers[d].calls, o) == [] && Dead(d, o) !in t.dead
  }

  ghost predicate EndsOnce(max: nat, t: Topic, slot: Slot, o: nat) {
    exists c :: EndedBy(max, t, slot, o, c)
  }

  /** Giving up leaves a record of failures only, and at least one. */
  lemma ExhaustedShape(max: nat, r: seq<bool>)
    requires max >= 1 && Exhausted(max, r)
    ensures r != [] && !Succeeded(max, r)
  {
    assert !r[|r| - 1];
  }

  lemma FinishedEnds(max: nat, t: Topic, slot: Slot, o: nat, c: nat)
    requires Inv(max, t) && Finished(max, t, c, slot, o)
    ensures c in ConsumersOf(t, slot) && Attempts(t.consumers[c].calls, o) != []
    ensures Succeeded(max, Attempts(t.consumers[c].calls, o)) != (Dead(c, o) in t.dead)
  {
    var r := Attempts(t.consumers[c].calls, o);
    assert Dead(c, o) in t.dead <==> GaveUp(max, t, c, o);
    if Exhausted(max, r) {
      ExhaustedShape(max, r);
    }
  }

  lemma UntriedNotDead(max: nat, t: Topic, d: nat, o: nat)
    requires Inv(max, t) && d in t.consumers && Attempts(t.consumers[d].calls, o) == []
    ensures Dead(d, o) !in t.dead
  {
    assert Dead(d, o) in t.dead <==> GaveUp(max, t, d, o);
  }

  lemma SerialEnds(max: nat, t: Topic, slot: Slot, o: nat)
    requires Inv(max, t) && Serial(t, slot) && o < Committed(t, slot)
    ensures EndsOnce(max, t, slot, o)
  {
    assert Handled(max, t, slot, o);
    var c :| Finished(max, t, c, slot, o);
    FinishedEnds(max, t, slot, o, c);
    forall d | d in ConsumersOf(t, slot) && d != c
      ensures Attempts(t.consumers[d].calls, o) == [] && Dead(d, o) !in t.dead
    {
      assert Apart(t, c, d, o);
      UntriedNotDead(max, t, d, o);
    }
    assert EndedBy(max, t, slot, o, c);
  }

  /**
   If the slot's consumers never overlap, every committed offset was tried by exactly one of them and ended there in
   one success or one dead letter.
   */
  lemma NoOverlapEndsOnce(max: nat, name: string, n: nat, ls: seq<Label>, slot: Slot, o: nat)
    requires max >= 1 && n >= 1 && Exec(max, NewTopic(name, n), ls).Some?
    requires AtMostLive(max, NewTopic(name, n), ls, slot, 1)
    requires o < Committed(Exec(max, NewTopic(name, n), ls).value, slot)
    ensures EndsOnce(max, Exec(max, NewTopic(name, n), ls).value, slot, o)
  {
    InitInv(max, name, n);
    SerialExec(max, NewTopic(name, n), ls, slot);
    SerialEnds(max, Exec(max, NewTopic(name, n), ls).value, slot, o);
  }

  // ---- How often a message that ended once was processed ----

  lemma OksSucceeded(max: nat, r: seq<bool>)
    requires Succeeded(max, r)
    ensures Oks(r) == 1
  {
    NoOks(r[..|r| - 1]);
  }

  ghost predicate Buried(t: Topic, slot: Slot, o: nat) {
    exists c :: c in ConsumersOf(t, slot) && Dead(c, o) in t.dead
  }

  lemma EndedCount(max: nat, t: Topic, slot: Slot, o: nat, c: nat)
    requires Inv(max, t) && EndedBy(max, t, slot, o, c)
    ensures TimesProcessed(t, slot, o) == if Buried(t, slot, o) then 0 else 1
  {
    var m := OksOf(t, slot, o);
    var r := Attempts(t.consumers[c].calls, o);
    SumRemove(m, c);
    SumZero(m - {c});
    assert Sum(m) == Oks(r);
    assert Dead(c, o) in t.dead <==> GaveUp(max, t, c, o);
    if Dead(c, o) in t.dead {
      NoOks(r);
    } else {
      OksSucceeded(max, r);
    }
  }

  /** Without overlap a committed message was processed once, or not at all if it was dead-lettered. */
  lemma NoOverlapCount(max: nat, name: string, n: nat, ls: seq<Label>, slot: Slot, o: nat)
    requires max >= 1 && n >= 1 && Exec(max, NewTopic(name, n), ls).Some?
    requires AtMostLive(max, NewTopic(name, n), ls, slot, 1)
    requires o < Committed(Exec(max, NewTopic(name, n), ls).value, slot)
    ensures var t := Exec(max, NewTopic(name, n), ls).value;
            TimesProcessed(t, slot, o) == if Buried(t, slot, o) then 0 else 1
  {
    var t := Exec(max, NewTopic(name, n), ls).value;
    InitInv(max, name, n);
    InvExec(max, NewTopic(name, n), ls);
    NoOverlapEndsOnce(max, name, n, ls, slot, o);
    var c :| EndedBy(max, t, slot, o, c);
    EndedCount(max, t, slot, o, c);
  }

  /**
   Taken literally, "processed exactly once" asks for one success: without overlap it holds of every committed offset
   if and only if none of them was dead-lettered.
   */
  lemma OneSuccessIff(max: nat, name: string, n: nat, ls: seq<Label>, slot: Slot)
    requires max >= 1 && n >= 1 && Exec(max, NewTopic(name, n), ls).Some?
    requires AtMostLive(max, NewTopic(name, n), ls, slot, 1)
    ensures var t := Exec(max, NewTopic(name, n), ls).value;
            (forall o: nat :: o < Committed(t, slot) ==> TimesProcessed(t, slot, o) == 1)
            <==> (forall o: nat :: o < Committed(t, slot) ==> !Buried(t, slot, o))
  {
    var t := Exec(max, NewTopic(name, n), ls).value;
    forall o: nat | o < Committed(t, slot)
      ensures TimesProcessed(t, slot, o) == if Buried(t, slot, o) then 0 else 1
    {
      NoOverlapCount(max, name, n, ls, slot, o);
    }
  }

  // ---- The exact condition ----

  lemma {:induction false} LiveBySize(max: nat, t: Topic, ls: seq<Label>, slot: Slot, k: nat)
    requires Exec(max, t, ls).Some? && |ConsumersOf(Exec(max, t, ls).value, slot)| <= k
    ensures ConsumersOf(t, slot) <= ConsumersOf(Exec(max, t, ls).value, slot)
    ensures AtMostLive(max, t, ls, slot, k)
    decreases |ls|
  {
    if ls != [] {
      SlotsStay(max, t, ls[0]);
      LiveBySize(max, Apply(max, t, ls[0]), ls[1..], slot, k);
    }
    SubsetSize(LiveOf(t, slot), ConsumersOf(Exec(max, t, ls).value, slot));
  }

  lemma AtMostLiveMonotone(max: nat, t: Topic, ls: seq<Label>, slot: Slot, k: nat, k': nat)
    requires k <= k' && AtMostLive(max, t, ls, slot, k)
    ensures AtMostLive(max, t, ls, slot, k')
    decreases |ls|
  {
  }

  /** No offset is processed successfully twice, and every committed one has ended exactly once. */
  ghost predicate OnceEach(max: nat, t: Topic, slot: Slot) {
    forall o: nat :: TimesProcessed(t, slot, o) <= 1 && (o < Committed(t, slot) ==> EndsOnce(max, t, slot, o))
  }

  /** So it is after every run with at most `k` consumers of the slot live at a time. */
  ghost predicate AlwaysOnce(max: nat, name: string, n: nat, slot: Slot, k: nat) {
    forall ls :: Exec(max, NewTopic(name, n), ls).Some? && AtMostLive(max, NewTopic(name, n), ls, slot, k) ==>
                   OnceEach(max, Exec(max, NewTopic(name, n), ls).value, slot)
  }

  /**
   Exactly when each message is done with exactly once, in a success or a dead letter, on any partition a key can
   reach: if and only if at most one consumer of the group serves the partition at a time.
   */
  lemma ExactlyOnceIff(max: nat, name: string, n: nat, group: string, key: Bytes, k: nat)
    requires max >= 1 && n >= 1
    ensures AlwaysOnce(max, name, n, Slot(group, PartitionOf(key, n)), k) <==> k <= 1
  {
    var slot := Slot(group, PartitionOf(key, n));
    if k <= 1 {
      forall ls | Exec(max, NewTopic(name, n), ls).Some? && AtMostLive(max, NewTopic(name, n), ls, slot, k)
        ensures OnceEach(max, Exec(max, NewTopic(name, n), ls).value, slot)
      {
        AtMostLiveMonotone(max, NewTopic(name, n), ls, slot, k, 1);
        SerialOnce(max, name, n, ls, slot);
      }
    } else {
      var t := Duplicates(max, name, n, group, key, k);
      var ls :| Exec(max, NewTopic(name, n), ls) == Some(t);
      LiveBySize(max, NewTopic(name, n), ls, slot, k);
      assert !OnceEach(max, t, slot);
      assert !AlwaysOnce(max, name, n, slot, k);
    }
  }

  lemma SerialOnce(max: nat, name: string, n: nat, ls: seq<Label>, slot: Slot)
    requires max >= 1 && n >= 1 && Exec(max, NewTopic(name, n), ls).Some?
    requires AtMostLive(max, NewTopic(name, n), ls, slot, 1)
    ensures OnceEach(max, Exec(max, NewTopic(name, n), ls).value, slot)
  {
    var t := Exec(max, NewTopic(name, n), ls).value;
    forall o: nat
      ensures TimesProcessed(t, slot, o) <= 1 && (o < Committed(t, slot) ==> EndsOnce(max, t, slot, o))
    {
      NoOverlapNoDuplicates(max, name, n, ls, slot, o);
      if o < Committed(t, slot) {
        NoOverlapEndsOnce(max, name, n, ls, slot, o);
      }
    }
  }

  /** In particular: a partition that only ever had one consumer of the group. */
  lemma OneConsumerOnce(max: nat, name: string, n: nat, t: Topic, slot: Slot)
    requires max >= 1 && n >= 1 && Reachable(max, name, n, t) && |ConsumersOf(t, slot)| <= 1
    ensures OnceEach(max, t, slot)
    ensures forall o: nat :: o < Committed(t, slot) ==>
              TimesProcessed(t, slot, o) == if Buried(t, slot, o) then 0 else 1
  {
    var ls :| Exec(max, NewTopic(name, n), ls) == Some(t);
    LiveBySize(max, NewTopic(name, n), ls, slot, 1);
    SerialOnce(max, name, n, ls, slot);
    forall o: nat | o < Committed(t, slot)
      ensures TimesProcessed(t, slot, o) == if Buried(t, slot, o) then 0 else 1
    {
      NoOverlapCount(max, name, n, ls, slot, o);
    }
  }
}
