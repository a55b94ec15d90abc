/**
 Termination of delivery: once appends and new subscriptions stop, the consumers of a topic can take only so many
 steps, and when they can take none every group with a live consumer has been served its whole partition.
 */
module Draining {
  import opened Prelude
  import opened Messages
  import opened TopicProtocol
  import opened TopicInvariant

  /** Steps left inside one pass of the consume loop. */
  function Phase(max: nat, pc: Pc): nat {
    match pc
    case Spawned => max + 6
    case Fetch => max + 5
    case Read(_) => max + 4
    case Attempting(_, _, k) => if k <= max then max - k + 3 else 3
    case Routing(_, _) => 2
    case Committing(_) => 1
    case Waiting(_) => 1
    case Exited(_) => 0
  }

  function Position(pc: Pc, committed: nat): nat {
    if pc.Spawned? || pc.Fetch? then committed else pc.at
  }

  /** Messages still ahead of a consumer, each worth a full pass, plus the rest of this pass, plus a wake-up. */
  function Work(max: nat, length: nat, committed: nat, c: Consumer): nat {
    (if length >= Position(c.pc, committed) then (length - Position(c.pc, committed)) * (max + 6) else 0)
    + Phase(max, c.pc)
    + (if c.token then max + 6 else 0)
  }

  function WorkOf(max: nat, t: Topic, c: nat): nat
    requires c in t.consumers && t.consumers[c].slot.part < |t.parts|
  {
    var con := t.consumers[c];
    Work(max, |t.parts[con.slot.part]|, Committed(t, con.slot), con)
  }

  function WorkMap(max: nat, t: Topic): map<nat, nat>
    requires SlotsOk(t)
  {
    map c | c in t.consumers :: WorkOf(max, t, c)
  }

  ghost function Remaining(max: nat, t: Topic): nat
    requires SlotsOk(t)
  {
    Sum(WorkMap(max, t))
  }

  lemma Scale(a: nat, b: nat, k: nat)
    requires a <= b
    ensures a * k <= b * k
    ensures a < b ==> a * k + k <= b * k
  {
    if a < b {
      assert (a + 1) * k <= b * k by {
        var d := b - (a + 1);
        assert b * k == (a + 1) * k + d * k;
      }
    }
  }

  /** A later commit only shortens the road. */
  lemma WorkAntitone(max: nat, length: nat, committed: nat, committed': nat, c: Consumer)
    requires committed <= committed' <= length
    ensures Work(max, length, committed', c) <= Work(max, length, committed, c)
  {
    var a, b := Position(c.pc, committed'), Position(c.pc, committed);
    if a <= length && b <= length {
      Scale(length - a, length - b, max + 6);
    }
  }

  lemma OwnWorkFalls(max: nat, t: Topic, c: Consumer, act: Action)
    requires max >= 1 && c.slot.part < |t.parts| && CanAct(t, c, act)
    requires Committed(t, c.slot) <= |t.parts[c.slot.part]|
    requires ConsumerOk(max, t.parts[c.slot.part], Committed(t, c.slot), c)
    ensures Work(max, |t.parts[c.slot.part]|, CommittedAfter(t, c, act), Advance(max, t, c, act))
          < Work(max, |t.parts[c.slot.part]|, Committed(t, c.slot), c)
  {
    var length := |t.parts[c.slot.part]|;
    var from, to := Position(c.pc, Committed(t, c.slot)),
          Position(Advance(max, t, c, act).pc, CommittedAfter(t, c, act));
    assert from <= to <= length;
    Scale(length - to, length - from, max + 6);
  }

  /** Labels that put no new message and no new consumer into the topic. */
  predicate Quiet(l: Label) {
    !l.Append? && !l.Spawn?
  }

  lemma OwnWorkStep(max: nat, t: Topic, c: nat, act: Action)
    requires Inv(max, t) && Enabled(t, Step(c, act))
    ensures WorkOf(max, ApplyStep(max, t, c, act), c) < WorkOf(max, t, c)
  {
    assert OneConsumerOk(max, t, c);
    OwnWorkFalls(max, t, t.consumers[c], act);
    CommittedStep(max, t, Step(c, act), t.consumers[c].slot);
  }

  lemma OtherWorkStep(max: nat, t: Topic, l: Label, c: nat)
    requires Inv(max, t) && Enabled(t, l) && Quiet(l) && c in t.consumers && !(l.Step? && l.cid == c)
    ensures c in Apply(max, t, l).consumers && Apply(max, t, l).consumers[c].slot.part < |Apply(max, t, l).parts|
    ensures WorkOf(max, Apply(max, t, l), c) <= WorkOf(max, t, c)
  {
    var con := t.consumers[c];
    ConsumerAfter(max, t, l, c);
    ShapeStep(max, t, l);
    assert Apply(max, t, l).parts == t.parts;
    CommittedStep(max, t, l, con.slot);
    CommittedInRange(t, con.slot);
    CommittedInRange(Apply(max, t, l), con.slot);
    if l.Step? && l.act.Commit? && t.consumers[l.cid].slot == con.slot {
      assert Committed(t, con.slot) <= CommittedAfter(t, t.consumers[l.cid], Commit);
    }
    WorkAntitone(max, |t.parts[con.slot.part]|, Committed(t, con.slot), Committed(Apply(max, t, l), con.slot), con);
  }

  lemma CommittedInRange(t: Topic, slot: Slot)
    requires SlotsOk(t) && slot.part < |t.parts|
    ensures Committed(t, slot) <= |t.parts[slot.part]|
  {
  }

  lemma RemainingStep(max: nat, t: Topic, l: Label)
    requires Inv(max, t) && Enabled(t, l) && Quiet(l)
    ensures ShapeOk(Apply(max, t, l))
    ensures Remaining(max, Apply(max, t, l)) + (if l.Step? then 1 else 0) <= Remaining(max, t)
  {
    ShapeStep(max, t, l);
    var t' := Apply(max, t, l);
    assert t'.consumers.Keys == t.consumers.Keys;
    forall c | c in t.consumers
      ensures WorkMap(max, t')[c] <= WorkMap(max, t)[c]
      ensures l.Step? && l.cid == c ==> WorkMap(max, t')[c] < WorkMap(max, t)[c]
    {
      if l.Step? && l.cid == c {
        OwnWorkStep(max, t, c, l.act);
      } else {
        OtherWorkStep(max, t, l, c);
      }
    }
    if l.Step? {
      SumStrict(WorkMap(max, t'), WorkMap(max, t), l.cid);
    } else {
      SumMonotone(WorkMap(max, t'), WorkMap(max, t));
    }
  }

  function StepCount(ls: seq<Label>): nat {
    if ls == [] then 0 else (if ls[0].Step? then 1 else 0) + StepCount(ls[1..])
  }

  /** However the consumers are scheduled, and whatever their handlers answer, they stop. */
  lemma {:induction false} DrainBound(max: nat, t: Topic, ls: seq<Label>)
    requires Inv(max, t) && Exec(max, t, ls).Some?
    requires forall i :: 0 <= i < |ls| ==> Quiet(ls[i])
    ensures Inv(max, Exec(max, t, ls).value)
    ensures StepCount(ls) + Remaining(max, Exec(max, t, ls).value) <= Remaining(max, t)
    decreases |ls|
  {
    if ls != [] {
      RemainingStep(max, t, ls[0]);
      InvStep(max, t, ls[0]);
      DrainBound(max, Apply(max, t, ls[0]), ls[1..]);
    }
  }

  /** No goroutine of the topic can move. */
  ghost predicate Stuck(t: Topic) {
    forall c, act :: !Enabled(t, Step(c, act))
  }

  /** The step a goroutine takes next, unless it is waiting in vain or gone. */
  function Due(c: Consumer): Action {
    match c.pc
    case Spawned => Listen
    case Fetch => GetOffset
    case Read(_) => Get
    case Waiting(_) => Receive
    case Attempting(_, _, _) => Attempt(true)
    case Routing(_, _) => Route
    case Committing(_) => Commit
    case Exited(_) => Exit
  }

  /**
   Who may do what: a handler may answer either way, a waiting goroutine may take its token or, once cancelled, leave
   even with a token in its channel, and at every other point there is just the one next step.
   */
  lemma Choices(t: Topic, c: nat, act: Action)
    requires c in t.consumers && t.consumers[c].slot.part < |t.parts|
    ensures var con := t.consumers[c];
            Enabled(t, Step(c, act)) <==>
              match con.pc
              case Waiting(_) => (act == Receive && con.token) || (act == Exit && con.ctx in t.cancelled)
              case Attempting(_, _, _) => act in {Attempt(true), Attempt(false)}
              case Exited(_) => false
              case _ => act == Due(con)
  {
  }

  lemma StuckPc(max: nat, t: Topic, c: nat, log: Log)
    requires Stuck(t) && c in t.consumers && t.consumers[c].slot.part < |t.parts|
    requires PcOk(max, log, Committed(t, t.consumers[c].slot), t.consumers[c])
    ensures var con := t.consumers[c];
            || con.pc.Exited?
            || (con.pc.Waiting? && !con.token && con.ctx !in t.cancelled
                && |log| <= con.pc.at <= Committed(t, con.slot))
  {
    assert !Enabled(t, Step(c, Due(t.consumers[c])));
    assert !Enabled(t, Step(c, Exit));
  }

  lemma StuckConsumer(max: nat, t: Topic, c: nat)
    requires Inv(max, t) && Stuck(t) && c in t.consumers
    ensures var con := t.consumers[c];
            || con.pc.Exited?
            || (con.pc.Waiting? && !con.token && con.ctx !in t.cancelled
                && Committed(t, con.slot) == |t.parts[con.slot.part]|)
  {
    assert OneConsumerOk(max, t, c);
    CommittedInRange(t, t.consumers[c].slot);
    StuckPc(max, t, c, t.parts[t.consumers[c].slot.part]);
  }

  /**
   After any run with no further appends or subscriptions: the number of consumer steps was bounded from the
   start, and if the consumers have come to rest then every slot with a consumer still alive is fully handled.
   */
  lemma Drained(max: nat, name: string, n: nat, t: Topic, ls: seq<Label>, t': Topic)
    requires max >= 1 && n >= 1 && Reachable(max, name, n, t) && Exec(max, t, ls) == Some(t')
    requires forall i :: 0 <= i < |ls| ==> Quiet(ls[i])
    ensures ShapeOk(t) && StepCount(ls) <= Remaining(max, t)
    ensures Stuck(t') ==>
              forall c, o: nat :: c in t'.consumers && !t'.consumers[c].pc.Exited?
                                  && t'.consumers[c].slot.part < |t'.parts|
                                  && o < |t'.parts[t'.consumers[c].slot.part]|
                              ==> Handled(max, t', t'.consumers[c].slot, o)
  {
    ReachableInv(max, name, n, t);
    DrainBound(max, t, ls);
    if Stuck(t') {
      forall c, o: nat | c in t'.consumers && !t'.consumers[c].pc.Exited? && o < |t'.parts[t'.consumers[c].slot.part]|
        ensures Handled(max, t', t'.consumers[c].slot, o)
      {
        StuckConsumer(max, t', c);
      }
    }
  }
}
