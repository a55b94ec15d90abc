/**
 The broker's objects and methods in the form the source has them: logs, channels and offset maps updated in
 place. Contracts speak of the same functions the step machine is built from.
 */
module BrokerRuntime {
  import opened Prelude
  import opened Messages
  import opened Partitioner
  import opened TopicProtocol
  import opened TopicInvariant

  /** A `chan struct{}` of capacity one. */
  class Channel {
    var full: bool

    constructor ()
      ensures !full
    {
      full := false;
    }

    /** A send that gives up at once if the channel already holds a token. */
    method TrySend()
      modifies this
      ensures full
    {
      if !full {
        full := true;
      }
    }
  }

  class Partition {
    /** Which topic this partition belongs to and where in it; -1 is the dead-letter log. */
    ghost const owner: (string, int)
    var log: Log
    var subs: seq<Channel>

    ghost predicate Valid()
      reads this
    {
      Numbered(log)
    }

    constructor (ghost owner: (string, int))
      ensures Valid() && log == [] && subs == [] && this.owner == owner
    {
      this.owner := owner;
      log, subs := [], [];
    }

    /** Writes the log and wakes every subscriber. */
    method Append(m: Message) returns (offset: nat)
      requires Valid()
      modifies this`log, subs
      ensures Valid() && offset == |old(log)| && log == old(log) + [m.(offset := |old(log)|)]
      ensures forall ch :: ch in subs ==> ch.full
    {
      offset := |log|;
      log := log + [m.(offset := offset)];
      var i := 0;
      while i < |subs|
        invariant 0 <= i <= |subs|
        invariant log == old(log) + [m.(offset := |old(log)|)]
        invariant forall j :: 0 <= j < i ==> subs[j].full
      {
        subs[i].TrySend();
        i := i + 1;
      }
    }

    method Subscribe() returns (ch: Channel)
      modifies this`subs
      ensures fresh(ch) && !ch.full && subs == old(subs) + [ch]
    {
      ch := new Channel();
      subs := subs + [ch];
    }

    method Get(offset: int) returns (m: Option<Message>)
      ensures m == if 0 <= offset < |log| then Some(log[offset]) else None
    {
      if offset < 0 || offset >= |log| {
        return None;
      }
      return Some(log[offset]);
    }
  }

  class ConsumerGroup {
    var offsets: map<nat, nat>

    function At(part: nat): nat
      reads this
    {
      if part in offsets then offsets[part] else 0
    }

    constructor ()
      ensures offsets == map[]
    {
      offsets := map[];
    }

    method GetOffset(part: nat) returns (o: nat)
      ensures o == At(part)
    {
      o := if part in offsets then offsets[part] else 0;
    }

    method Commit(part: nat, offset: nat)
      modifies this
      ensures At(part) == if offset > old(At(part)) then offset else old(At(part))
      ensures forall p :: p != part ==> At(p) == old(At(p))
    {
      if offset > (if part in offsets then offsets[part] else 0) {
        offsets := offsets[part := offset];
      }
    }
  }

  // ---- The consume loop ----

  type Handler = Message -> bool

  /** The handler calls of one message from attempt `k` on: up to the first success or to maxRetries. */
  function Retry(max: nat, m: Message, handler: Handler, k: nat): seq<Call>
    requires 1 <= k <= max
    decreases max - k
  {
    var x := m.(attempt := k);
    if handler(x) then [Call(x, true)]
    else if k == max then [Call(x, false)]
    else [Call(x, false)] + Retry(max, m, handler, k + 1)
  }

  function Refused(max: nat, m: Message, handler: Handler): bool
    requires max >= 1
  {
    var calls := Retry(max, m, handler, 1);
    !calls[|calls| - 1].ok
  }

  /** Refused means refused every time; otherwise the last call, and only it, succeeded. */
  lemma {:induction false} RetryShape(max: nat, m: Message, handler: Handler, k: nat)
    requires 1 <= k <= max
    ensures var calls := Retry(max, m, handler, k);
            && 1 <= |calls| <= max - k + 1
            && (forall i :: 0 <= i < |calls| ==>
                  calls[i].msg == m.(attempt := k + i) && calls[i].ok == handler(calls[i].msg))
            && (forall i :: 0 <= i < |calls| - 1 ==> !calls[i].ok)
            && (!calls[|calls| - 1].ok ==> |calls| == max - k + 1)
    decreases max - k
  {
    if !handler(m.(attempt := k)) && k < max {
      RetryShape(max, m, handler, k + 1);
    }
  }

  function Answers(calls: seq<Call>): seq<bool> {
    seq(|calls|, i requires 0 <= i < |calls| => calls[i].ok)
  }

  lemma {:induction false} RetryAnswers(max: nat, m: Message, handler: Handler, r: seq<bool>, k: nat)
    requires 1 <= k <= |r| <= max && (r[|r| - 1] || |r| == max) && AllFailed(r[..|r| - 1])
    requires forall j :: k <= j <= |r| ==> handler(m.(attempt := j)) == r[j - 1]
    ensures Answers(Retry(max, m, handler, k)) == r[k - 1..]
    decreases |r| - k
  {
    if k < |r| {
      assert !r[..|r| - 1][k - 1];
      RetryAnswers(max, m, handler, r, k + 1);
    }
  }

  /**
   Every call shows the handler another attempt number, so a function of the message can answer each call as it likes:
   whatever sequence of answers the retry loop can see, some handler gives it, and no other sequences arise.
   */
  lemma AnswersIff(max: nat, m: Message, r: seq<bool>)
    requires max >= 1
    ensures (exists handler: Handler :: Answers(Retry(max, m, handler, 1)) == r) <==> Complete(max, r)
  {
    if Complete(max, r) {
      var handler: Handler := (x: Message) => 1 <= x.attempt <= |r| && r[x.attempt - 1];
      RetryAnswers(max, m, handler, r, 1);
    }
    forall handler: Handler | Answers(Retry(max, m, handler, 1)) == r
      ensures Complete(max, r)
    {
      RetryShape(max, m, handler, 1);
      var calls := Retry(max, m, handler, 1);
      assert forall i :: 0 <= i < |calls| ==> r[i] == calls[i].ok;
    }
  }

  function DlqAfter(max: nat, dlq: Log, m: Message, handler: Handler): Log
    requires max >= 1
  {
    if Refused(max, m, handler) then Extend(dlq, m.(attempt := max)) else dlq
  }

  /** The inner loop: call the handler until it accepts or the attempts run out. */
  method Deliver(max: nat, m0: Message, handler: Handler) returns (m: Message, failed: bool, ghost calls: seq<Call>)
    requires max >= 1
    ensures calls == Retry(max, m0, handler, 1)
    ensures failed == Refused(max, m0, handler)
    ensures failed ==> m == m0.(attempt := max)
  {
    m, failed, calls := m0, false, [];
    var attempt := 1;
    while attempt <= max
      invariant 1 <= attempt <= max + 1
      invariant attempt == 1 ==> calls == [] && !failed && m == m0
      invariant attempt > 1 ==> failed && m == m0.(attempt := attempt - 1)
      invariant attempt <= max ==> calls + Retry(max, m0, handler, attempt) == Retry(max, m0, handler, 1)
      invariant attempt > max ==> calls == Retry(max, m0, handler, 1) && !calls[|calls| - 1].ok
      decreases max + 1 - attempt
    {
      m := m.(attempt := attempt);
      assert m == m0.(attempt := attempt);
      ghost var rest := Retry(max, m0, handler, attempt);
      if handler(m) {
        calls := calls + [Call(m, true)];
        failed := false;
        return;
      }
      failed := true;
      assert rest[0] == Call(m, false);
      if attempt < max {
        assert calls + rest == calls + [Call(m, false)] + Retry(max, m0, handler, attempt + 1);
      }
      calls := calls + [Call(m, false)];
      attempt := attempt + 1;
    }
  }

  /**
   One turn of the consume loop: either there is nothing at the group's offset and the goroutine would wait, or the
   message there is attempted, dead-lettered if refused, and committed.
   */
  method ConsumeOne(max: nat, p: Partition, dlq: Partition, pIdx: nat, cg: ConsumerGroup, handler: Handler)
    returns (blocked: bool, ghost calls: seq<Call>)
    requires max >= 1 && p.Valid() && dlq.Valid() && p != dlq
    modifies dlq`log, dlq.subs, cg
    ensures p.log == old(p.log) && dlq.Valid()
    ensures blocked == (old(cg.At(pIdx)) >= |p.log|)
    ensures blocked ==> calls == [] && dlq.log == old(dlq.log) && cg.At(pIdx) == old(cg.At(pIdx))
    ensures !blocked ==>
              var m := p.log[old(cg.At(pIdx))];
              && calls == Retry(max, m, handler, 1)
              && dlq.log == DlqAfter(max, old(dlq.log), m, handler)
              && cg.At(pIdx) == old(cg.At(pIdx)) + 1
    ensures forall q :: q != pIdx ==> cg.At(q) == old(cg.At(q))
  {
    calls := [];
    var offset := cg.GetOffset(pIdx);
    var found := p.Get(offset);
    if found.None? {
      return true, [];
    }
    var m, failed;
    m, failed, calls := Deliver(max, found.value, handler);
    if failed {
      var _ := dlq.Append(m);
    }
    cg.Commit(pIdx, offset + 1);
    blocked := false;
  }

  /** What one consumer left alone does to a log suffix: its calls and its dead letters. */
  function AllCalls(max: nat, log: Log, handler: Handler): seq<Call>
    requires max >= 1
  {
    if log == [] then []
    else AllCalls(max, log[..|log| - 1], handler) + Retry(max, log[|log| - 1], handler, 1)
  }

  function AllDead(max: nat, dlq: Log, log: Log, handler: Handler): Log
    requires max >= 1
  {
    if log == [] then dlq
    else DlqAfter(max, AllDead(max, dlq, log[..|log| - 1], handler), log[|log| - 1], handler)
  }

  lemma OneMore(max: nat, dlq: Log, log: Log, from: nat, o: nat, handler: Handler)
    requires max >= 1 && from <= o < |log|
    ensures AllCalls(max, log[from..o + 1], handler)
         == AllCalls(max, log[from..o], handler) + Retry(max, log[o], handler, 1)
    ensures AllDead(max, dlq, log[from..o + 1], handler)
         == DlqAfter(max, AllDead(max, dlq, log[from..o], handler), log[o], handler)
  {
    assert log[from..o + 1][..o - from] == log[from..o];
  }

  /** The loop run until it would wait, with nothing else going on. */
  method ConsumeUntilBlocked(max: nat, p: Partition, dlq: Partition, pIdx: nat, cg: ConsumerGroup, handler: Handler)
    returns (ghost calls: seq<Call>)
    requires max >= 1 && p.Valid() && dlq.Valid() && p != dlq && cg.At(pIdx) <= |p.log|
    modifies dlq`log, dlq.subs, cg
    ensures p.log == old(p.log) && dlq.Valid() && cg.At(pIdx) == |p.log|
    ensures calls == AllCalls(max, p.log[old(cg.At(pIdx))..], handler)
    ensures dlq.log == AllDead(max, old(dlq.log), p.log[old(cg.At(pIdx))..], handler)
  {
    calls := [];
    ghost var from := cg.At(pIdx);
    var blocked := false;
    while !blocked
      invariant dlq.Valid() && p.log == old(p.log)
      invariant from <= cg.At(pIdx) <= |p.log|
      invariant blocked ==> cg.At(pIdx) == |p.log| && p.log[from..cg.At(pIdx)] == p.log[from..]
      invariant calls == AllCalls(max, p.log[from..cg.At(pIdx)], handler)
      invariant dlq.log == AllDead(max, old(dlq.log), p.log[from..cg.At(pIdx)], handler)
      decreases |p.log| - cg.At(pIdx), !blocked
    {
      ghost var o := cg.At(pIdx);
      ghost var more;
      blocked, more := ConsumeOne(max, p, dlq, pIdx, cg, handler);
      calls := calls + more;
      if blocked {
        assert p.log[from..o] == p.log[from..];
      } else {
        OneMore(max, old(dlq.log), p.log, from, o, handler);
      }
    }
  }

  /** The loop's dead letters are exactly the refused messages, in log order. */
  function RefusedOf(max: nat, log: Log, handler: Handler): Log
    requires max >= 1
  {
    if log == [] then []
    else
      var n := |log| - 1;
      RefusedOf(max, log[..n], handler) + (if Refused(max, log[n], handler) then [log[n]] else [])
  }

  lemma {:induction false} DeadAreRefused(max: nat, dlq: Log, log: Log, handler: Handler)
    requires max >= 1 && Numbered(dlq)
    ensures var dead, refused := AllDead(max, dlq, log, handler), RefusedOf(max, log, handler);
            && |dead| == |dlq| + |refused|
            && dead[..|dlq|] == dlq
            && Numbered(dead)
            && forall i :: 0 <= i < |refused| ==> dead[|dlq| + i] == refused[i].(attempt := max, offset := |dlq| + i)
  {
    if log != [] {
      DeadAreRefused(max, dlq, log[..|log| - 1], handler);
    }
  }

  // ---- One turn of the loop is a run of the step machine ----

  function AttemptLabels(c: nat, calls: seq<Call>): seq<Label> {
    if calls == [] then [] else [Step(c, Attempt(calls[0].ok))] + AttemptLabels(c, calls[1..])
  }

  function TurnLabels(max: nat, c: nat, m: Message, handler: Handler): seq<Label>
    requires max >= 1
  {
    [Step(c, GetOffset), Step(c, Get)]
    + AttemptLabels(c, Retry(max, m, handler, 1))
    + TailLabels(max, c, m, handler)
  }

  function With(t: Topic, c: nat, con: Consumer): Topic {
    t.(consumers := t.consumers[c := con])
  }

  /** The consumer after the calls of one message. */
  function AfterCalls(max: nat, con: Consumer, m: Message, calls: seq<Call>): Consumer
    requires con.pc.Attempting? && calls != []
  {
    con.(calls := con.calls + calls,
         pc := if calls[|calls| - 1].ok then Committing(con.pc.at) else Routing(con.pc.at, m.(attempt := max)))
  }

  lemma AttemptStep(max: nat, t: Topic, c: nat, ok: bool, ls: seq<Label>)
    requires c in t.consumers && t.consumers[c].slot.part < |t.parts| && t.consumers[c].pc.Attempting?
    ensures Exec(max, t, [Step(c, Attempt(ok))] + ls)
         == Exec(max, With(t, c, AfterAttempt(max, t.consumers[c], ok)), ls)
  {
    var l := Step(c, Attempt(ok));
    assert ([l] + ls)[1..] == ls;
    assert Apply(max, t, l) == With(t, c, AfterAttempt(max, t.consumers[c], ok));
  }

  lemma AfterCallsCons(max: nat, con: Consumer, m: Message, x: Call, rest: seq<Call>)
    requires con.pc.Attempting? && con.pc.attempt < max && !x.ok && rest != []
    requires x.msg == con.pc.msg.(attempt := con.pc.attempt)
    ensures AfterCalls(max, AfterAttempt(max, con, false), m, rest) == AfterCalls(max, con, m, [x] + rest)
  {
    assert con.calls + [x] + rest == con.calls + ([x] + rest);
  }

  /** The machine's attempts follow the method's inner loop. */
  lemma {:induction false} AttemptsRun(max: nat, t: Topic, c: nat, m: Message, handler: Handler, k: nat)
    requires 1 <= k <= max && c in t.consumers && t.consumers[c].slot.part < |t.parts|
    requires t.consumers[c].pc.Attempting? && t.consumers[c].pc.attempt == k
    requires t.consumers[c].pc.msg.(attempt := 0) == m.(attempt := 0)
    ensures Exec(max, t, AttemptLabels(c, Retry(max, m, handler, k)))
         == Some(With(t, c, AfterCalls(max, t.consumers[c], m, Retry(max, m, handler, k))))
    decreases max - k
  {
    var calls := Retry(max, m, handler, k);
    var con := t.consumers[c];
    assert con.pc.msg.(attempt := k) == m.(attempt := k);
    var con' := AfterAttempt(max, con, calls[0].ok);
    AttemptStep(max, t, c, calls[0].ok, AttemptLabels(c, calls[1..]));
    if calls[0].ok || k == max {
      assert calls == [calls[0]] && AttemptLabels(c, calls[1..]) == [];
      assert con' == AfterCalls(max, con, m, calls);
    } else {
      var more := Retry(max, m, handler, k + 1);
      assert calls == [calls[0]] + more && calls[1..] == more;
      AttemptsRun(max, With(t, c, con'), c, m, handler, k + 1);
      AfterCallsCons(max, con, m, calls[0], more);
      assert t.consumers[c := con'][c := AfterCalls(max, con', m, more)]
          == t.consumers[c := AfterCalls(max, con', m, more)];
    }
  }

  /** The state one undisturbed turn leads to: the method's contract, field by field. */
  ghost predicate TurnDone(max: nat, t: Topic, c: nat, m: Message, handler: Handler, t': Topic)
    requires max >= 1 && c in t.consumers
  {
    var con := t.consumers[c];
    && t'.dead == t.dead + (if Refused(max, m, handler) then [Dead(c, Committed(t, con.slot))] else [])
    && t' == t.(dlq := DlqAfter(max, t.dlq, m, handler),
                dead := t'.dead,
                committed := t.committed[con.slot := Committed(t, con.slot) + 1],
                consumers := t.consumers[c := con.(pc := Fetch, calls := con.calls + Retry(max, m, handler, 1))])
  }

  function TailLabels(max: nat, c: nat, m: Message, handler: Handler): seq<Label>
    requires max >= 1
  {
    (if Refused(max, m, handler) then [Step(c, Route)] else []) + [Step(c, Commit)]
  }

  lemma CommitRuns(max: nat, t: Topic, c: nat)
    requires c in t.consumers && t.consumers[c].slot.part < |t.parts|
    requires t.consumers[c].pc == Committing(Committed(t, t.consumers[c].slot))
    ensures var con := t.consumers[c];
            Exec(max, t, [Step(c, Commit)])
              == Some(With(t, c, con.(pc := Fetch)).(committed := t.committed[con.slot := Committed(t, con.slot) + 1]))
  {
    ExecOne(max, t, Step(c, Commit));
  }

  lemma RouteRuns(max: nat, t: Topic, c: nat, m: Message)
    requires c in t.consumers && t.consumers[c].slot.part < |t.parts|
    requires t.consumers[c].pc == Routing(Committed(t, t.consumers[c].slot), m)
    ensures var con := t.consumers[c];
            Exec(max, t, [Step(c, Route), Step(c, Commit)])
              == Some(t.(dlq := Extend(t.dlq, m),
                         dead := t.dead + [Dead(c, Committed(t, con.slot))],
                         committed := t.committed[con.slot := Committed(t, con.slot) + 1],
                         consumers := t.consumers[c := con.(pc := Fetch)]))
  {
    var t1 := Apply(max, t, Step(c, Route));
    CommitRuns(max, t1, c);
    ExecOne(max, t, Step(c, Route));
    ExecConcat(max, t, [Step(c, Route)], [Step(c, Commit)], t1);
    assert t1.consumers[c := t1.consumers[c].(pc := Fetch)] == t.consumers[c := t.consumers[c].(pc := Fetch)];
  }

  /** From the end of the inner loop to the top of the outer one. */
  lemma TailRuns(max: nat, t: Topic, c: nat, m: Message, handler: Handler)
    requires max >= 1 && c in t.consumers && t.consumers[c].slot.part < |t.parts|
    requires t.consumers[c].pc
          == if Refused(max, m, handler) then Routing(Committed(t, t.consumers[c].slot), m.(attempt := max))
             else Committing(Committed(t, t.consumers[c].slot))
    ensures var r := Exec(max, t, TailLabels(max, c, m, handler));
            var con := t.consumers[c];
            && r.Some?
            && r.value.dead == t.dead + (if Refused(max, m, handler) then [Dead(c, Committed(t, con.slot))] else [])
            && r.value == t.(dlq := DlqAfter(max, t.dlq, m, handler),
                             dead := r.value.dead,
                             committed := t.committed[con.slot := Committed(t, con.slot) + 1],
                             consumers := t.consumers[c := con.(pc := Fetch)])
  {
    if Refused(max, m, handler) {
      RouteRuns(max, t, c, m.(attempt := max));
      assert TailLabels(max, c, m, handler) == [Step(c, Route), Step(c, Commit)];
    } else {
      CommitRuns(max, t, c);
      assert TailLabels(max, c, m, handler) == [Step(c, Commit)];
      assert t.dead + [] == t.dead;
    }
  }

  lemma ExecOne(max: nat, t: Topic, l: Label)
    requires Enabled(t, l)
    ensures Exec(max, t, [l]) == Some(Apply(max, t, l))
  {
    assert [l][1..] == [];
  }

  /** Reading the group's offset and the message there. */
  lemma ReadRuns(max: nat, t: Topic, c: nat)
    requires c in t.consumers && t.consumers[c].pc.Fetch? && t.consumers[c].slot.part < |t.parts|
    requires Committed(t, t.consumers[c].slot) < |t.parts[t.consumers[c].slot.part]|
    ensures var con := t.consumers[c];
            var o := Committed(t, con.slot);
            Exec(max, t, [Step(c, GetOffset), Step(c, Get)])
              == Some(t.(consumers := t.consumers[c := con.(pc := Attempting(o, t.parts[con.slot.part][o], 1))]))
  {
    var ls := [Step(c, GetOffset), Step(c, Get)];
    var con := t.consumers[c];
    var o := Committed(t, con.slot);
    var t1 := Apply(max, t, ls[0]);
    assert t1.consumers[c] == con.(pc := Read(o));
    var t2 := Apply(max, t1, ls[1]);
    assert t2.consumers == t.consumers[c := con.(pc := Attempting(o, t.parts[con.slot.part][o], 1))];
    assert t2 == t.(consumers := t2.consumers);
    assert ls[1..] == [Step(c, Get)];
    ExecOne(max, t1, ls[1]);
    assert Exec(max, t, ls) == Exec(max, t1, ls[1..]);
  }

  /** The message a ready consumer will be given next. */
  function Upcoming(t: Topic, con: Consumer): Message
    requires con.slot.part < |t.parts| && Committed(t, con.slot) < |t.parts[con.slot.part]|
  {
    t.parts[con.slot.part][Committed(t, con.slot)]
  }

  lemma DeliveryRuns(max: nat, t: Topic, c: nat, handler: Handler)
    requires max >= 1 && c in t.consumers && t.consumers[c].pc.Fetch? && t.consumers[c].slot.part < |t.parts|
    requires Committed(t, t.consumers[c].slot) < |t.parts[t.consumers[c].slot.part]|
    ensures var con := t.consumers[c];
            var m := Upcoming(t, con);
            var calls := Retry(max, m, handler, 1);
            var con2 := con.(pc := Attempting(Committed(t, con.slot), m, 1));
            Exec(max, t, [Step(c, GetOffset), Step(c, Get)] + AttemptLabels(c, calls))
              == Some(With(t, c, AfterCalls(max, con2, m, calls)))
  {
    var con := t.consumers[c];
    var m := Upcoming(t, con);
    var calls := Retry(max, m, handler, 1);
    var con2 := con.(pc := Attempting(Committed(t, con.slot), m, 1));
    ReadRuns(max, t, c);
    AttemptsRun(max, With(t, c, con2), c, m, handler, 1);
    ExecConcat(max, t, [Step(c, GetOffset), Step(c, Get)], AttemptLabels(c, calls), With(t, c, con2));
    assert t.consumers[c := con2][c := AfterCalls(max, con2, m, calls)]
        == t.consumers[c := AfterCalls(max, con2, m, calls)];
  }

  lemma Overwrite<K, V>(m: map<K, V>, k: K, v: V, w: V)
    ensures m[k := v][k := w] == m[k := w]
  {
  }

  /** `ConsumeOne` run without interference performs exactly these steps of the protocol. */
  lemma TurnRefines(max: nat, t: Topic, c: nat, handler: Handler)
    requires max >= 1 && c in t.consumers && t.consumers[c].pc.Fetch? && t.consumers[c].slot.part < |t.parts|
    requires Committed(t, t.consumers[c].slot) < |t.parts[t.consumers[c].slot.part]|
    ensures var m := Upcoming(t, t.consumers[c]);
            var r := Exec(max, t, TurnLabels(max, c, m, handler));
            r.Some? && TurnDone(max, t, c, m, handler, r.value)
  {
    var con := t.consumers[c];
    var m := Upcoming(t, con);
    var calls := Retry(max, m, handler, 1);
    var con3 := AfterCalls(max, con.(pc := Attempting(Committed(t, con.slot), m, 1)), m, calls);
    DeliveryRuns(max, t, c, handler);
    TailRuns(max, With(t, c, con3), c, m, handler);
    ExecConcat(max, t, [Step(c, GetOffset), Step(c, Get)] + AttemptLabels(c, calls), TailLabels(max, c, m, handler),
               With(t, c, con3));
    assert con3.(pc := Fetch) == con.(pc := Fetch, calls := con.calls + calls);
    Overwrite(t.consumers, c, con3, con3.(pc := Fetch));
  }

  /** A consumer with a token if it had one or has a channel on partition `p`. */
  function Woken(c: Consumer, p: nat): Consumer {
    c.(token := c.token || (c.slot.part == p && c.pc != Spawned))
  }

  /** `Publish` run without interference: one message longer, everyone listening there woken, one more counted. */
  lemma PublishRefines(max: nat, t: Topic, pid: nat, key: Bytes, value: Bytes, now: int)
    requires pid !in t.publishers && |t.parts| >= 1
    ensures var p := PartitionOf(key, |t.parts|);
            && p < |t.parts|
            && var m := Message(key, value, t.name, p, |t.parts[p]|, now, 1);
               Exec(max, t, [BeginPublish(pid, key, value, now), Append(pid), FinishPublish(pid)])
                 == Some(t.(parts := t.parts[p := t.parts[p] + [m]],
                            published := t.published + 1,
                            consumers := map c | c in t.consumers :: Woken(t.consumers[c], p)))
  {
    InRange(key, |t.parts|);
    var t1 := Apply(max, t, BeginPublish(pid, key, value, now));
    var t2 := Apply(max, t1, Append(pid));
    ExecOne(max, t, BeginPublish(pid, key, value, now));
    ExecOne(max, t1, Append(pid));
    ExecOne(max, t2, FinishPublish(pid));
    ExecConcat(max, t1, [Append(pid)], [FinishPublish(pid)], t2);
    ExecConcat(max, t, [BeginPublish(pid, key, value, now)], [Append(pid), FinishPublish(pid)], t1);
    assert t2.publishers - {pid} == t.publishers;
    var p := PartitionOf(key, |t.parts|);
    assert t2.parts == t.parts[p := t.parts[p] + [Message(key, value, t.name, p, |t.parts[p]|, now, 1)]];
    assert t2.consumers == map c | c in t.consumers :: Woken(t.consumers[c], p);
  }

  // ---- The objects as a state of the step machine ----

  /** The partition, dead-letter log and offsets a consumer works on are those of the topic. */
  ghost predicate Represents(t: Topic, c: nat, p: Partition, dlq: Partition, cg: ConsumerGroup)
    reads p, dlq, cg
  {
    && c in t.consumers && t.consumers[c].slot.part < |t.parts|
    && t.parts[t.consumers[c].slot.part] == p.log && t.dlq == dlq.log
    && forall q :: Committed(t, Slot(t.consumers[c].slot.group, q)) == cg.At(q)
  }

  /** Reading the group's offset and finding nothing there yet. */
  lemma MissRuns(max: nat, t: Topic, c: nat)
    requires c in t.consumers && t.consumers[c].pc.Fetch? && t.consumers[c].slot.part < |t.parts|
    requires Committed(t, t.consumers[c].slot) >= |t.parts[t.consumers[c].slot.part]|
    ensures var con := t.consumers[c];
            Exec(max, t, [Step(c, GetOffset), Step(c, Get)])
              == Some(With(t, c, con.(pc := Waiting(Committed(t, con.slot)))))
  {
    var con := t.consumers[c];
    var t1 := Apply(max, t, Step(c, GetOffset));
    assert t1.consumers[c] == con.(pc := Read(Committed(t, con.slot)));
    ExecOne(max, t, Step(c, GetOffset));
    ExecOne(max, t1, Step(c, Get));
    ExecConcat(max, t, [Step(c, GetOffset)], [Step(c, Get)], t1);
    assert Apply(max, t1, Step(c, Get)).consumers == With(t, c, con.(pc := Waiting(Committed(t, con.slot)))).consumers;
  }

  /** A turn of the consume loop takes the topic its objects represent to the one they represent afterwards. */
  method ConsumeTurn(max: nat, p: Partition, dlq: Partition, pIdx: nat, cg: ConsumerGroup, handler: Handler,
                     ghost t: Topic, ghost c: nat)
    returns (blocked: bool, ghost calls: seq<Call>, ghost ls: seq<Label>, ghost t': Topic)
    requires max >= 1 && p.Valid() && dlq.Valid() && p != dlq
    requires Represents(t, c, p, dlq, cg) && t.consumers[c].slot.part == pIdx && t.consumers[c].pc.Fetch?
    modifies dlq`log, dlq.subs, cg
    ensures p.log == old(p.log) && dlq.Valid()
    ensures Exec(max, t, ls) == Some(t') && Represents(t', c, p, dlq, cg)
    ensures blocked == (old(cg.At(pIdx)) >= |p.log|)
    ensures t'.consumers[c] == t.consumers[c].(pc := if blocked then Waiting(old(cg.At(pIdx))) else Fetch,
                                               calls := t.consumers[c].calls + calls)
    ensures cg.At(pIdx) == old(cg.At(pIdx)) + (if blocked then 0 else 1)
  {
    ghost var con := t.consumers[c];
    assert Committed(t, Slot(con.slot.group, pIdx)) == cg.At(pIdx) && con.slot == Slot(con.slot.group, pIdx);
    blocked, calls := ConsumeOne(max, p, dlq, pIdx, cg, handler);
    if blocked {
      MissRuns(max, t, c);
      ls := [Step(c, GetOffset), Step(c, Get)];
      t' := With(t, c, con.(pc := Waiting(Committed(t, con.slot))));
      assert con.calls + calls == con.calls;
    } else {
      TurnRefines(max, t, c, handler);
      ls := TurnLabels(max, c, Upcoming(t, con), handler);
      t' := Exec(max, t, ls).value;
    }
  }
}
