/**
 Where every delivery goes: each message handed to a handler ends as one success or one dead letter, or is still
 being retried or routed. Holds for any number of groups and consumers, whatever the handlers answer.
 */
module Conservation {
  import opened Prelude
  import opened TopicProtocol
  import opened TopicInvariant
  import opened TopicTheorems

  function Successes(calls: seq<Call>): nat {
    if calls == [] then 0
    else
      var n := |calls| - 1;
      Successes(calls[..n]) + (if calls[n].ok then 1 else 0)
  }

  /** Handler calls that used up the last attempt and failed. */
  function LastFailures(max: nat, calls: seq<Call>): nat {
    if calls == [] then 0
    else
      var n := |calls| - 1;
      LastFailures(max, calls[..n]) + (if !calls[n].ok && calls[n].msg.attempt == max then 1 else 0)
  }

  predicate Retrying(c: Consumer) {
    c.pc.Attempting? && c.pc.attempt > 1
  }

  /** A consumer's deliveries: begun equals succeeded plus failed for good plus the one being retried. */
  ghost predicate Balanced(max: nat, c: Consumer) {
    |FirstAttempts(c.calls)| == Successes(c.calls) + LastFailures(max, c.calls) + (if Retrying(c) then 1 else 0)
  }

  // ---- Totals over consumers ----

  type Measure = Consumer -> nat

  function Measured(m: map<nat, Consumer>, f: Measure): map<nat, nat> {
    map c | c in m :: f(m[c])
  }

  ghost function Tally(m: map<nat, Consumer>, f: Measure): nat {
    Sum(Measured(m, f))
  }

  lemma TallyUpdate(m: map<nat, Consumer>, c: nat, x: Consumer, f: Measure)
    ensures Tally(m[c := x], f) + (if c in m then f(m[c]) else 0) == Tally(m, f) + f(x)
  {
    SumUpdate(Measured(m, f), c, f(x));
    assert Measured(m, f)[c := f(x)] == Measured(m[c := x], f);
    if c in m {
      SumRemove(Measured(m, f), c);
    }
  }

  lemma TallySame(m: map<nat, Consumer>, m': map<nat, Consumer>, f: Measure)
    requires m.Keys == m'.Keys && forall c :: c in m ==> f(m[c]) == f(m'[c])
    ensures Tally(m, f) == Tally(m', f)
  {
    assert Measured(m, f) == Measured(m', f);
  }

  lemma TallyAdd(m: map<nat, Consumer>, f: Measure, g: Measure, h: Measure)
    requires forall c :: c in m ==> h(m[c]) == f(m[c]) + g(m[c])
    ensures Tally(m, h) == Tally(m, f) + Tally(m, g)
  {
    SumTwo(Measured(m, h), Measured(m, f), Measured(m, g));
  }

  function Succeeding(): Measure {
    (c: Consumer) => Successes(c.calls)
  }

  function Failing(max: nat): Measure {
    (c: Consumer) => LastFailures(max, c.calls)
  }

  function Routed(): Measure {
    (c: Consumer) => if c.pc.Routing? then 1 else 0
  }

  function Retried(): Measure {
    (c: Consumer) => if Retrying(c) then 1 else 0
  }

  function Begun(): Measure {
    (c: Consumer) => |FirstAttempts(c.calls)|
  }

  /** Final failures are dead letters written or about to be. */
  ghost predicate DeadBalanced(max: nat, t: Topic) {
    Tally(t.consumers, Failing(max)) == |t.dlq| + Tally(t.consumers, Routed())
  }

  ghost predicate AllBalanced(max: nat, t: Topic) {
    (forall c :: c in t.consumers ==> Balanced(max, t.consumers[c])) && DeadBalanced(max, t)
  }

  lemma CallSnoc(max: nat, calls: seq<Call>, x: Call)
    ensures Successes(calls + [x]) == Successes(calls) + (if x.ok then 1 else 0)
    ensures LastFailures(max, calls + [x])
         == LastFailures(max, calls) + (if !x.ok && x.msg.attempt == max then 1 else 0)
  {
    assert (calls + [x])[..|calls|] == calls;
  }

  lemma AttemptBalanced(max: nat, c: Consumer, ok: bool)
    requires c.pc.Attempting? && 1 <= c.pc.attempt <= max && Balanced(max, c)
    ensures Balanced(max, AfterAttempt(max, c, ok))
    ensures LastFailures(max, AfterAttempt(max, c, ok).calls)
         == LastFailures(max, c.calls) + (if AfterAttempt(max, c, ok).pc.Routing? then 1 else 0)
  {
    var x := Call(c.pc.msg.(attempt := c.pc.attempt), ok);
    CallSnoc(max, c.calls, x);
    FirstAttemptsSnoc(c.calls, x);
  }

  /** A goroutine step changes the calls only by an attempt. */
  lemma AdvanceBalanced(max: nat, t: Topic, c: Consumer, act: Action)
    requires c.slot.part < |t.parts| && CanAct(t, c, act) && Balanced(max, c)
    requires c.pc.Attempting? ==> 1 <= c.pc.attempt <= max
    ensures var c' := Advance(max, t, c, act);
            && Balanced(max, c')
            && LastFailures(max, c'.calls) + (if c.pc.Routing? then 1 else 0)
                 == LastFailures(max, c.calls) + (if c'.pc.Routing? then 1 else 0) + (if act.Route? then 1 else 0)
  {
    if act.Attempt? {
      AttemptBalanced(max, c, act.ok);
    }
  }

  /** A dead letter is written exactly when a failed delivery leaves the routing point. */
  lemma StepDeadBalanced(max: nat, t: Topic, cid: nat, act: Action)
    requires Enabled(t, Step(cid, act)) && Balanced(max, t.consumers[cid]) && DeadBalanced(max, t)
    requires t.consumers[cid].pc.Attempting? ==> 1 <= t.consumers[cid].pc.attempt <= max
    ensures DeadBalanced(max, ApplyStep(max, t, cid, act))
  {
    var c' := Advance(max, t, t.consumers[cid], act);
    AdvanceBalanced(max, t, t.consumers[cid], act);
    TallyUpdate(t.consumers, cid, c', Failing(max));
    TallyUpdate(t.consumers, cid, c', Routed());
    StepWrites(max, t, cid, act);
  }

  lemma StepWrites(max: nat, t: Topic, cid: nat, act: Action)
    requires Enabled(t, Step(cid, act))
    ensures ApplyStep(max, t, cid, act).consumers == t.consumers[cid := Advance(max, t, t.consumers[cid], act)]
    ensures |ApplyStep(max, t, cid, act).dlq| == |t.dlq| + (if act.Route? then 1 else 0)
  {
  }

  lemma StepBalanced(max: nat, t: Topic, cid: nat, act: Action)
    requires Enabled(t, Step(cid, act)) && AllBalanced(max, t)
    requires t.consumers[cid].pc.Attempting? ==> 1 <= t.consumers[cid].pc.attempt <= max
    ensures AllBalanced(max, ApplyStep(max, t, cid, act))
  {
    AdvanceBalanced(max, t, t.consumers[cid], act);
    StepDeadBalanced(max, t, cid, act);
    StepWrites(max, t, cid, act);
  }

  /** Publishing, cancelling and spawning leave every tally of calls alone. */
  lemma OtherTally(max: nat, t: Topic, l: Label, f: Measure)
    requires Enabled(t, l) && !l.Step?
    requires forall c: Consumer :: f(c.(token := true)) == f(c)
    requires forall c: Consumer :: c.calls == [] && c.pc.Spawned? ==> f(c) == 0
    ensures Tally(Apply(max, t, l).consumers, f) == Tally(t.consumers, f)
  {
    if l.Spawn? {
      TallyUpdate(t.consumers, l.cid, Consumer(Slot(l.group, l.part), l.ctx, false, Spawned, []), f);
    } else {
      TallySame(t.consumers, Apply(max, t, l).consumers, f);
    }
  }

  lemma OtherBalanced(max: nat, t: Topic, l: Label)
    requires Enabled(t, l) && AllBalanced(max, t) && !l.Step?
    ensures AllBalanced(max, Apply(max, t, l))
  {
    OtherTally(max, t, l, Failing(max));
    OtherTally(max, t, l, Routed());
    var t' := Apply(max, t, l);
    forall c | c in t'.consumers
      ensures Balanced(max, t'.consumers[c])
    {
      if c in t.consumers {
        ConsumerAfter(max, t, l, c);
        assert Balanced(max, t.consumers[c]);
      }
    }
  }

  lemma LabelBalanced(max: nat, t: Topic, l: Label)
    requires Enabled(t, l) && AllBalanced(max, t)
    requires l.Step? && t.consumers[l.cid].pc.Attempting? ==> 1 <= t.consumers[l.cid].pc.attempt <= max
    ensures AllBalanced(max, Apply(max, t, l))
  {
    if l.Step? {
      StepBalanced(max, t, l.cid, l.act);
    } else {
      OtherBalanced(max, t, l);
    }
  }

  lemma {:induction false} ExecBalanced(max: nat, t: Topic, ls: seq<Label>)
    requires Inv(max, t) && AllBalanced(max, t) && Exec(max, t, ls).Some?
    ensures AllBalanced(max, Exec(max, t, ls).value)
    decreases |ls|
  {
    if ls != [] {
      if ls[0].Step? {
        assert OneConsumerOk(max, t, ls[0].cid);
      }
      LabelBalanced(max, t, ls[0]);
      InvStep(max, t, ls[0]);
      ExecBalanced(max, Apply(max, t, ls[0]), ls[1..]);
    }
  }

  lemma ReachableBalanced(max: nat, name: string, n: nat, t: Topic)
    requires max >= 1 && n >= 1 && Reachable(max, name, n, t)
    ensures AllBalanced(max, t)
  {
    InitInv(max, name, n);
    var ls :| Exec(max, NewTopic(name, n), ls) == Some(t);
    ExecBalanced(max, NewTopic(name, n), ls);
  }

  /**
   In every reachable state: deliveries begun are successes, dead letters, and deliveries still being retried or on
   their way to the dead-letter log.
   */
  lemma DeliveriesConserved(max: nat, name: string, n: nat, t: Topic)
    requires max >= 1 && n >= 1 && Reachable(max, name, n, t)
    ensures Tally(t.consumers, Begun())
         == Tally(t.consumers, Succeeding()) + |t.dlq| + Tally(t.consumers, Retried()) + Tally(t.consumers, Routed())
  {
    ReachableBalanced(max, name, n, t);
    var ended: Measure := (c: Consumer) => Successes(c.calls) + LastFailures(max, c.calls);
    TallyAdd(t.consumers, Succeeding(), Failing(max), ended);
    forall c | c in t.consumers
      ensures Begun()(t.consumers[c]) == ended(t.consumers[c]) + Retried()(t.consumers[c])
    {
      assert Balanced(max, t.consumers[c]);
    }
    TallyAdd(t.consumers, ended, Retried(), Begun());
  }
}
