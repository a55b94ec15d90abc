/**
 What a state of the topic says about the run that led to it: where every consumer, every log entry and every
 cancellation comes from, and how a shutdown ends.
 */
module Histories {
  import opened Prelude
  import opened Messages
  import opened TopicProtocol
  import opened TopicInvariant
  import opened TopicTheorems
  import opened Draining
  import opened Partitioner

  // ---- Cancellation and subscription ----

  /** Consumer `c` was started by `Spawn` for this slot and context. */
  ghost predicate Started(t: Topic, c: nat, group: string, part: nat, ctx: nat) {
    c in t.consumers && t.consumers[c].slot == Slot(group, part) && t.consumers[c].ctx == ctx
  }

  lemma StartedStep(max: nat, t: Topic, l: Label, c: nat, group: string, part: nat, ctx: nat)
    requires Enabled(t, l)
    ensures Started(Apply(max, t, l), c, group, part, ctx)
       <==> Started(t, c, group, part, ctx) || l == Spawn(c, group, part, ctx)
  {
  }

  lemma CancelledStep(max: nat, t: Topic, l: Label, ctx: nat)
    requires Enabled(t, l)
    ensures ctx in Apply(max, t, l).cancelled <==> ctx in t.cancelled || l == Cancel(ctx)
  {
  }

  lemma InSnoc<T>(s: seq<T>, x: T)
    requires s != []
    ensures x in s <==> x in s[..|s| - 1] || x == s[|s| - 1]
  {
    assert s == s[..|s| - 1] + [s[|s| - 1]];
  }

  /** The consumers are those the run subscribed, and the cancelled contexts those it cancelled. */
  lemma {:induction false} SpawnedAndCancelled(max: nat, name: string, n: nat, ls: seq<Label>, t: Topic,
                                               c: nat, group: string, part: nat, ctx: nat)
    requires Exec(max, NewTopic(name, n), ls) == Some(t)
    ensures Started(t, c, group, part, ctx) <==> Spawn(c, group, part, ctx) in ls
    ensures ctx in t.cancelled <==> Cancel(ctx) in ls
  {
    if ls != [] {
      var k := |ls| - 1;
      var mid := ExecFront(max, NewTopic(name, n), ls);
      SpawnedAndCancelled(max, name, n, ls[..k], mid, c, group, part, ctx);
      StartedStep(max, mid, ls[k], c, group, part, ctx);
      CancelledStep(max, mid, ls[k], ctx);
      InSnoc(ls, Spawn(c, group, part, ctx));
      InSnoc(ls, Cancel(ctx));
    }
  }

  /**
   Shutdown: when the goroutines of a topic have come to rest, those that have returned are exactly the ones whose
   context the run cancelled; each of the others waits with its partition's log committed by its group.
   */
  lemma Shutdown(max: nat, name: string, n: nat, ls: seq<Label>, t: Topic, c: nat, group: string, part: nat, ctx: nat)
    requires max >= 1 && n >= 1 && Exec(max, NewTopic(name, n), ls) == Some(t) && Stuck(t)
    requires Spawn(c, group, part, ctx) in ls
    ensures c in t.consumers && part < |t.parts|
    ensures t.consumers[c].pc.Exited? <==> Cancel(ctx) in ls
    ensures Cancel(ctx) !in ls ==> t.consumers[c].pc.Waiting? && Committed(t, Slot(group, part)) == |t.parts[part]|
  {
    SpawnedAndCancelled(max, name, n, ls, t, c, group, part, ctx);
    ReachableInv(max, name, n, t);
    assert OneConsumerOk(max, t, c);
    StuckConsumer(max, t, c);
    if t.consumers[c].pc.Exited? {
      var _, _ := ExitLosesNothing(max, name, n, ls, t, c);
    }
  }

  // ---- Publishing ----

  /** The run began to publish this message. */
  ghost predicate Begun(ls: seq<Label>, m: Message) {
    exists pid :: BeginPublish(pid, m.key, m.value, m.timestamp) in ls
  }

  ghost predicate AllBegun(ls: seq<Label>, t: Topic) {
    && (forall p: nat, o: nat :: p < |t.parts| && o < |t.parts[p]| ==> Begun(ls, t.parts[p][o]))
    && (forall pid :: pid in t.publishers && t.publishers[pid].Ready? ==> Begun(ls, t.publishers[pid].msg))
  }

  lemma BegunLater(ls: seq<Label>, m: Message)
    requires ls != [] && Begun(ls[..|ls| - 1], m)
    ensures Begun(ls, m)
  {
    var pid :| BeginPublish(pid, m.key, m.value, m.timestamp) in ls[..|ls| - 1];
    assert BeginPublish(pid, m.key, m.value, m.timestamp) in ls;
  }

  lemma BegunStep(max: nat, ls: seq<Label>, t: Topic)
    requires ls != [] && AllBegun(ls[..|ls| - 1], t) && Enabled(t, ls[|ls| - 1])
    ensures AllBegun(ls, Apply(max, t, ls[|ls| - 1]))
  {
    var l := ls[|ls| - 1];
    var t' := Apply(max, t, l);
    forall m | Begun(ls[..|ls| - 1], m)
      ensures Begun(ls, m)
    {
      BegunLater(ls, m);
    }
    if l.BeginPublish? {
      assert l in ls;
      assert Begun(ls, t'.publishers[l.pid].msg);
    } else if l.Append? {
      var m := t.publishers[l.pid].msg;
      var added := m.(offset := |t.parts[m.partition]|);
      assert Begun(ls, m);
      var pid :| BeginPublish(pid, m.key, m.value, m.timestamp) in ls;
      assert BeginPublish(pid, added.key, added.value, added.timestamp) in ls;
      assert Begun(ls, added);
    }
  }

  lemma {:induction false} BegunRun(max: nat, name: string, n: nat, ls: seq<Label>, t: Topic)
    requires Exec(max, NewTopic(name, n), ls) == Some(t)
    ensures AllBegun(ls, t)
  {
    if ls != [] {
      var mid := ExecFront(max, NewTopic(name, n), ls);
      BegunRun(max, name, n, ls[..|ls| - 1], mid);
      BegunStep(max, ls, mid);
    }
  }

  /** How often each critical section of `Publish` was run. */
  function Appends(ls: seq<Label>): nat {
    if ls == [] then 0 else Appends(ls[..|ls| - 1]) + (if ls[|ls| - 1].Append? then 1 else 0)
  }

  function Finishes(ls: seq<Label>): nat {
    if ls == [] then 0 else Finishes(ls[..|ls| - 1]) + (if ls[|ls| - 1].FinishPublish? then 1 else 0)
  }

  lemma {:induction false} PublishedIsFinishes(max: nat, name: string, n: nat, ls: seq<Label>, t: Topic)
    requires Exec(max, NewTopic(name, n), ls) == Some(t)
    ensures t.published == Finishes(ls) && TotalLength(t.parts) == Appends(ls)
    ensures t.name == name && |t.parts| == n
  {
    if ls == [] {
      EmptyTotal(t.parts);
    } else {
      var mid := ExecFront(max, NewTopic(name, n), ls);
      PublishedIsFinishes(max, name, n, ls[..|ls| - 1], mid);
      LengthStep(max, mid, ls[|ls| - 1]);
    }
  }

  lemma LengthStep(max: nat, t: Topic, l: Label)
    requires Enabled(t, l)
    ensures TotalLength(Apply(max, t, l).parts) == TotalLength(t.parts) + (if l.Append? then 1 else 0)
  {
    if l.Append? {
      var m := t.publishers[l.pid].msg;
      TotalUpdate(t.parts, m.partition, Extend(t.parts[m.partition], m));
    }
  }

  /**
   Nothing is invented and nothing disappears: every log entry carries the key, value and time of a publish the run
   began, sits in its key's partition at its own offset, and there are as many entries as appends and as many counted
   messages as finished publishes.
   */
  lemma LogsAreHistory(max: nat, name: string, n: nat, ls: seq<Label>, t: Topic)
    requires max >= 1 && n >= 1 && Exec(max, NewTopic(name, n), ls) == Some(t)
    ensures forall p: nat, o: nat :: p < |t.parts| && o < |t.parts[p]| ==>
              var m := t.parts[p][o];
              Begun(ls, m) && m.partition == p
              && m == Message(m.key, m.value, name, PartitionOf(m.key, n), o, m.timestamp, 1)
    ensures t.published == Finishes(ls) && TotalLength(t.parts) == Appends(ls)
  {
    BegunRun(max, name, n, ls, t);
    PublishedIsFinishes(max, name, n, ls, t);
    ReachableInv(max, name, n, t);
    forall p: nat, o: nat | p < |t.parts| && o < |t.parts[p]|
      ensures var m := t.parts[p][o];
              m.partition == p && m == Message(m.key, m.value, name, PartitionOf(m.key, n), o, m.timestamp, 1)
    {
      assert LogOk(t.name, |t.parts|, p, t.parts[p]);
      assert MessageOk(t.name, |t.parts|, t.parts[p][o]);
    }
  }
}
