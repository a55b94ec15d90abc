/**
 Broker, pipeline and store together: the handler of cmd/api/main.go:70-88 decodes a message and runs the standard
 pipeline on it, while events may be deleted or evicted at any time.
 */
module EndToEnd {
  import opened Prelude
  import opened Messages
  import opened Events
  import opened Storage
  import opened Pipeline
  import opened TopicProtocol
  import opened TopicInvariant
  import opened TopicTheorems
  import opened Conservation
  import opened Draining
  import StoreStats
  import BrokerProtocol
  import Once = ExactlyOnce

  /** `decode` stands for json.Unmarshal: a function of the bytes alone. */
  datatype Config = Config(name: string, partitions: nat, maxRetries: nat, ttl: int, decode: Bytes -> Option<Event>)

  datatype System = System(topic: Topic, store: Primary, puts: nat, overwrites: nat, deletes: nat, evictions: nat)

  datatype Move =
    | Broker(l: Label)
    | Handle(cid: nat, env: Env)
    | Remove(id: string)
    | Evict(now: int)

  function Start(cfg: Config): System {
    System(NewTopic(cfg.name, cfg.partitions), map[], 0, 0, 0, 0)
  }

  /** The handler's verdict does not depend on the store, the clock or the attempt. */
  predicate Accepts(cfg: Config, value: Bytes) {
    cfg.decode(value).Some? && Validate(cfg.decode(value).value).None?
  }

  predicate CanMove(s: System, m: Move) {
    match m
    case Broker(l) => Enabled(s.topic, l) && !(l.Step? && l.act.Attempt?)
    case Handle(cid, _) => Enabled(s.topic, Step(cid, Attempt(true)))
    case _ => true
  }

  /** What the handler does to the store with one message, and whether it reports success. */
  function Handler(cfg: Config, value: Bytes, env: Env, store: Primary): (Primary, bool, string) {
    match cfg.decode(value)
    case None => (store, false, "")
    case Some(e) =>
      var r := RunStages(Standard(cfg.ttl), e, env, store);
      (r.primary, !r.failed, r.event.id)
  }

  function After(cfg: Config, s: System, m: Move): System
    requires CanMove(s, m)
  {
    match m
    case Broker(l) => s.(topic := Apply(cfg.maxRetries, s.topic, l))
    case Handle(cid, env) =>
      var (store, ok, id) := Handler(cfg, s.topic.consumers[cid].pc.msg.value, env, s.store);
      s.(topic := Apply(cfg.maxRetries, s.topic, Step(cid, Attempt(ok))),
         store := store,
         puts := s.puts + (if ok then 1 else 0),
         overwrites := s.overwrites + (if ok && id in s.store then 1 else 0))
    case Remove(id) => s.(store := s.store - {id}, deletes := s.deletes + (if id in s.store then 1 else 0))
    case Evict(now) =>
      var store := Unexpired(s.store, now);
      s.(store := store, evictions := s.evictions + if |store| <= |s.store| then |s.store| - |store| else 0)
  }

  function Play(cfg: Config, s: System, ms: seq<Move>): Option<System>
    decreases |ms|
  {
    if ms == [] then Some(s)
    else if CanMove(s, ms[0]) then Play(cfg, After(cfg, s, ms[0]), ms[1..])
    else None
  }

  // ---- Counting ----

  function AcceptedIn(cfg: Config, log: Log): nat {
    if log == [] then 0
    else
      var n := |log| - 1;
      AcceptedIn(cfg, log[..n]) + (if Accepts(cfg, log[n].value) then 1 else 0)
  }

  /** The handler answered every call by the message's content alone. */
  ghost predicate Faithful(cfg: Config, calls: seq<Call>) {
    forall i :: 0 <= i < |calls| ==> calls[i].ok == Accepts(cfg, calls[i].msg.value)
  }

  ghost predicate ConsumerCounts(cfg: Config, c: Consumer) {
    Faithful(cfg, c.calls) && Successes(c.calls) == AcceptedIn(cfg, FirstAttempts(c.calls))
  }

  ghost predicate SysInv(cfg: Config, s: System) {
    && cfg.maxRetries >= 1 && cfg.partitions >= 1
    && Reachable(cfg.maxRetries, cfg.name, cfg.partitions, s.topic)
    && (forall c :: c in s.topic.consumers ==> ConsumerCounts(cfg, s.topic.consumers[c]))
    && s.puts == Tally(s.topic.consumers, Succeeding())
    && |s.store| + s.overwrites + s.deletes + s.evictions == s.puts
  }

  lemma StartInv(cfg: Config)
    requires cfg.maxRetries >= 1 && cfg.partitions >= 1
    ensures SysInv(cfg, Start(cfg))
  {
    assert Exec(cfg.maxRetries, Start(cfg).topic, []) == Some(Start(cfg).topic);
  }

  /** Accepted are exactly the messages that decode to a visible name, a visible category and a mood from 1 to 10. */
  lemma AcceptsIff(cfg: Config, value: Bytes)
    ensures Accepts(cfg, value) <==>
              && cfg.decode(value).Some?
              && Visible(cfg.decode(value).value.name) && Visible(cfg.decode(value).value.category)
              && 1 <= cfg.decode(value).value.mood <= 10
  {
    if cfg.decode(value).Some? {
      ValidIff(cfg.decode(value).value);
    }
  }

  /** An accepted message leaves one well-formed event made from it; a refused one leaves the store alone. */
  lemma HandlerVerdict(cfg: Config, value: Bytes, env: Env, store: Primary) returns (d: Event)
    ensures Handler(cfg, value, env, store).1 == Accepts(cfg, value)
    ensures var (store', ok, id) := Handler(cfg, value, env, store);
            && (!ok ==> store' == store)
            && (ok ==> d.id == id && store' == store[id := d] && WellFormed(cfg.ttl, d))
            && (ok ==> cfg.decode(value).Some? && CopyOf(cfg.decode(value).value, d))
  {
    if cfg.decode(value).Some? {
      var e := cfg.decode(value).value;
      d := FinalEvent(cfg.ttl, e, env);
      StandardRun(cfg.ttl, e, env, store);
      if Validate(e).None? {
        FinalEventWellFormed(cfg.ttl, e, env);
      }
    } else {
      d := *;
    }
  }

  /** A retried message is one that was refused before, so the retry is refused too. */
  lemma RetryMeansRefused(cfg: Config, log: Log, calls: seq<Call>, at: nat)
    requires at < |log| && CallsOk(log, calls) && Faithful(cfg, calls)
    requires Attempts(calls, at) != [] && AllFailed(Attempts(calls, at))
    ensures !Accepts(cfg, log[at].value)
  {
    var i := FindCall(calls, at);
    assert CallOk(log, calls, i);
    assert calls[i].msg.(attempt := 1) == log[at];
  }

  lemma {:induction false} FindCall(calls: seq<Call>, at: nat) returns (i: nat)
    requires Attempts(calls, at) != [] && AllFailed(Attempts(calls, at))
    ensures i < |calls| && calls[i].msg.offset == at && !calls[i].ok
  {
    var n := |calls| - 1;
    if calls[n].msg.offset == at {
      var r := Attempts(calls, at);
      assert r[|r| - 1] == calls[n].ok;
      i := n;
    } else {
      assert Attempts(calls, at) == Attempts(calls[..n], at);
      i := FindCall(calls[..n], at);
    }
  }

  lemma AcceptedSnoc(cfg: Config, log: Log, m: Message)
    ensures AcceptedIn(cfg, log + [m]) == AcceptedIn(cfg, log) + (if Accepts(cfg, m.value) then 1 else 0)
  {
    assert (log + [m])[..|log|] == log;
  }

  lemma CallCounts(cfg: Config, c: Consumer, c': Consumer, x: Call)
    requires ConsumerCounts(cfg, c) && c'.calls == c.calls + [x]
    requires x.ok == Accepts(cfg, x.msg.value) && (x.ok ==> x.msg.attempt == 1)
    ensures ConsumerCounts(cfg, c') && Successes(c'.calls) == Successes(c.calls) + (if x.ok then 1 else 0)
  {
    CallSnoc(cfg.maxRetries, c.calls, x);
    FirstAttemptsSnoc(c.calls, x);
    if x.msg.attempt == 1 {
      AcceptedSnoc(cfg, FirstAttempts(c.calls), x.msg);
    } else {
      assert FirstAttempts(c'.calls) == FirstAttempts(c.calls);
    }
  }

  lemma AttemptCounts(cfg: Config, log: Log, committed: nat, c: Consumer, ok: bool)
    requires ConsumerOk(cfg.maxRetries, log, committed, c) && c.pc.Attempting?
    requires ConsumerCounts(cfg, c) && ok == Accepts(cfg, c.pc.msg.value)
    ensures ConsumerCounts(cfg, AfterAttempt(cfg.maxRetries, c, ok))
    ensures Successes(AfterAttempt(cfg.maxRetries, c, ok).calls) == Successes(c.calls) + (if ok then 1 else 0)
  {
    var x := Call(c.pc.msg.(attempt := c.pc.attempt), ok);
    assert c.pc.msg.(attempt := 1) == log[c.pc.at];
    if c.pc.attempt > 1 {
      RetryMeansRefused(cfg, log, c.calls, c.pc.at);
    }
    CallCounts(cfg, c, AfterAttempt(cfg.maxRetries, c, ok), x);
  }

  /** Broker steps other than handler calls leave every call record as it is. */
  lemma CallsStay(max: nat, t: Topic, l: Label)
    requires Enabled(t, l) && !(l.Step? && l.act.Attempt?)
    ensures forall c :: c in t.consumers ==>
              (c in Apply(max, t, l).consumers && Apply(max, t, l).consumers[c].calls == t.consumers[c].calls)
    ensures forall c :: c in Apply(max, t, l).consumers && c !in t.consumers ==>
              Apply(max, t, l).consumers[c].calls == []
  {
    forall c | c in t.consumers
      ensures c in Apply(max, t, l).consumers && Apply(max, t, l).consumers[c].calls == t.consumers[c].calls
    {
      ConsumerAfter(max, t, l, c);
    }
  }

  lemma TotalStays(max: nat, t: Topic, l: Label)
    requires Enabled(t, l) && !(l.Step? && l.act.Attempt?)
    ensures Tally(Apply(max, t, l).consumers, Succeeding()) == Tally(t.consumers, Succeeding())
  {
    if l.Step? {
      CallsStay(max, t, l);
      TallySame(t.consumers, Apply(max, t, l).consumers, Succeeding());
    } else {
      OtherTally(max, t, l, Succeeding());
    }
  }

  lemma BrokerKeeps(cfg: Config, s: System, l: Label)
    requires SysInv(cfg, s) && CanMove(s, Broker(l))
    ensures SysInv(cfg, After(cfg, s, Broker(l)))
  {
    OneStep(cfg.maxRetries, cfg.name, cfg.partitions, s.topic, l);
    CallsStay(cfg.maxRetries, s.topic, l);
    TotalStays(cfg.maxRetries, s.topic, l);
    var t' := Apply(cfg.maxRetries, s.topic, l);
    forall c | c in t'.consumers
      ensures ConsumerCounts(cfg, t'.consumers[c])
    {
      if c in s.topic.consumers {
        assert ConsumerCounts(cfg, s.topic.consumers[c]);
      }
    }
  }

  lemma HandleConsumer(cfg: Config, s: System, cid: nat, ok: bool)
    requires SysInv(cfg, s) && Enabled(s.topic, Step(cid, Attempt(true)))
    requires ok == Accepts(cfg, s.topic.consumers[cid].pc.msg.value)
    ensures var con := s.topic.consumers[cid];
            var con' := AfterAttempt(cfg.maxRetries, con, ok);
            ConsumerCounts(cfg, con') && Successes(con'.calls) == Successes(con.calls) + (if ok then 1 else 0)
  {
    ReachableInv(cfg.maxRetries, cfg.name, cfg.partitions, s.topic);
    assert OneConsumerOk(cfg.maxRetries, s.topic, cid);
    var con := s.topic.consumers[cid];
    AttemptCounts(cfg, s.topic.parts[con.slot.part], Committed(s.topic, con.slot), con, ok);
  }

  lemma AttemptTopic(max: nat, t: Topic, cid: nat, ok: bool)
    requires Enabled(t, Step(cid, Attempt(ok)))
    ensures Apply(max, t, Step(cid, Attempt(ok))).consumers
         == t.consumers[cid := AfterAttempt(max, t.consumers[cid], ok)]
  {
  }

  lemma OneMoreSuccess(max: nat, t: Topic, cid: nat, ok: bool)
    requires Enabled(t, Step(cid, Attempt(ok)))
    requires Successes(AfterAttempt(max, t.consumers[cid], ok).calls)
          == Successes(t.consumers[cid].calls) + (if ok then 1 else 0)
    ensures Tally(Apply(max, t, Step(cid, Attempt(ok))).consumers, Succeeding())
         == Tally(t.consumers, Succeeding()) + (if ok then 1 else 0)
  {
    AttemptTopic(max, t, cid, ok);
    TallyUpdate(t.consumers, cid, AfterAttempt(max, t.consumers[cid], ok), Succeeding());
  }

  lemma HandleTopic(cfg: Config, s: System, cid: nat, ok: bool)
    requires SysInv(cfg, s) && Enabled(s.topic, Step(cid, Attempt(true)))
    requires ok == Accepts(cfg, s.topic.consumers[cid].pc.msg.value)
    ensures var t' := Apply(cfg.maxRetries, s.topic, Step(cid, Attempt(ok)));
            && (forall c :: c in t'.consumers ==> ConsumerCounts(cfg, t'.consumers[c]))
            && Tally(t'.consumers, Succeeding()) == Tally(s.topic.consumers, Succeeding()) + (if ok then 1 else 0)
  {
    HandleConsumer(cfg, s, cid, ok);
    OneMoreSuccess(cfg.maxRetries, s.topic, cid, ok);
    AttemptTopic(cfg.maxRetries, s.topic, cid, ok);
    assert forall c :: c in s.topic.consumers ==> ConsumerCounts(cfg, s.topic.consumers[c]);
  }

  lemma PutSize(store: Primary, id: string, d: Event)
    ensures |store[id := d]| == |store| + (if id in store then 0 else 1)
  {
    assert store[id := d].Keys == store.Keys + {id};
  }

  lemma HandleKeeps(cfg: Config, s: System, cid: nat, env: Env)
    requires SysInv(cfg, s) && CanMove(s, Handle(cid, env))
    ensures SysInv(cfg, After(cfg, s, Handle(cid, env)))
  {
    var value := s.topic.consumers[cid].pc.msg.value;
    var (store, ok, id) := Handler(cfg, value, env, s.store);
    var d := HandlerVerdict(cfg, value, env, s.store);
    HandleTopic(cfg, s, cid, ok);
    OneStep(cfg.maxRetries, cfg.name, cfg.partitions, s.topic, Step(cid, Attempt(ok)));
    if ok {
      PutSize(s.store, id, d);
    }
  }

  lemma RemoveSize(store: Primary, id: string)
    ensures |store - {id}| == |store| - (if id in store then 1 else 0)
  {
    if id in store {
      Shrinks(store, id);
    } else {
      assert store - {id} == store;
    }
  }

  lemma EvictSize(store: Primary, now: int)
    ensures |Unexpired(store, now)| <= |store|
  {
    assert Unexpired(store, now).Keys <= store.Keys;
    SubsetSize(Unexpired(store, now).Keys, store.Keys);
  }

  lemma SweepKeeps(cfg: Config, s: System, m: Move)
    requires SysInv(cfg, s) && (m.Remove? || m.Evict?)
    ensures SysInv(cfg, After(cfg, s, m))
  {
    if m.Remove? {
      RemoveSize(s.store, m.id);
    } else {
      EvictSize(s.store, m.now);
    }
    var s' := After(cfg, s, m);
    assert s'.topic == s.topic && s'.puts == s.puts && s'.overwrites == s.overwrites;
    assert |s'.store| + s'.overwrites + s'.deletes + s'.evictions == s'.puts;
  }

  lemma SysInvMove(cfg: Config, s: System, m: Move)
    requires SysInv(cfg, s) && CanMove(s, m)
    ensures SysInv(cfg, After(cfg, s, m))
  {
    match m
    case Broker(l) => BrokerKeeps(cfg, s, l);
    case Handle(cid, env) => HandleKeeps(cfg, s, cid, env);
    case _ => SweepKeeps(cfg, s, m);
  }

  lemma {:induction false} PlayInv(cfg: Config, s: System, ms: seq<Move>)
    requires SysInv(cfg, s) && Play(cfg, s, ms).Some?
    ensures SysInv(cfg, Play(cfg, s, ms).value)
    decreases |ms|
  {
    if ms != [] {
      SysInvMove(cfg, s, ms[0]);
      PlayInv(cfg, After(cfg, s, ms[0]), ms[1..]);
    }
  }

  // ---- Results over every run of the whole system ----

  /** `s` is the state of the system after some run of everything in it. */
  ghost predicate Possible(cfg: Config, s: System) {
    cfg.maxRetries >= 1 && cfg.partitions >= 1 && exists ms :: Play(cfg, Start(cfg), ms) == Some(s)
  }

  lemma PossibleInv(cfg: Config, s: System)
    requires Possible(cfg, s)
    ensures SysInv(cfg, s)
  {
    var ms :| Play(cfg, Start(cfg), ms) == Some(s);
    StartInv(cfg);
    PlayInv(cfg, Start(cfg), ms);
  }

  /**
   With any number of consumers: the store has been written once per successful handler call, and what it holds is
   what was written less what was overwritten, deleted or evicted.
   */
  lemma StoreAccounts(cfg: Config, s: System)
    requires Possible(cfg, s)
    ensures s.puts == Tally(s.topic.consumers, Succeeding())
    ensures |s.store| == s.puts - s.overwrites - s.deletes - s.evictions
  {
    PossibleInv(cfg, s);
  }

  lemma {:induction false} Uniform(calls: seq<Call>, at: nat, b: bool)
    requires forall i :: 0 <= i < |calls| && calls[i].msg.offset == at ==> calls[i].ok == b
    ensures forall i :: 0 <= i < |Attempts(calls, at)| ==> Attempts(calls, at)[i] == b
  {
    if calls != [] {
      Uniform(calls[..|calls| - 1], at, b);
    }
  }

  lemma Decided(cfg: Config, log: Log, c: Consumer, o: nat)
    requires CallsOk(log, c.calls) && Faithful(cfg, c.calls) && Complete(cfg.maxRetries, Attempts(c.calls, o))
    requires cfg.maxRetries >= 1
    ensures o < |log|
    ensures if Accepts(cfg, log[o].value) then Attempts(c.calls, o) == [true]
            else Exhausted(cfg.maxRetries, Attempts(c.calls, o))
  {
    if forall i :: 0 <= i < |c.calls| ==> c.calls[i].msg.offset != o {
      AttemptsNone(c.calls, o);
    }
    var i :| 0 <= i < |c.calls| && c.calls[i].msg.offset == o;
    assert CallOk(log, c.calls, i);
    forall j | 0 <= j < |c.calls| && c.calls[j].msg.offset == o
      ensures c.calls[j].ok == Accepts(cfg, log[o].value)
    {
      assert CallOk(log, c.calls, j);
      assert c.calls[j].msg.(attempt := 1) == log[o];
    }
    Uniform(c.calls, o, Accepts(cfg, log[o].value));
    AllAlike(cfg.maxRetries, Attempts(c.calls, o), Accepts(cfg, log[o].value));
  }

  lemma AllAlike(max: nat, r: seq<bool>, b: bool)
    requires max >= 1 && Complete(max, r) && forall i :: 0 <= i < |r| ==> r[i] == b
    ensures if b then r == [true] else Exhausted(max, r)
  {
    assert r[0] == b && r[|r| - 1] == b;
    assert |r| > 1 ==> r[..|r| - 1][0] == r[0];
  }

  /** A delivery run to its end succeeded at the first attempt or failed at every one: its content decides which. */
  lemma FirstOrNever(cfg: Config, s: System, c: nat, o: nat)
    requires Possible(cfg, s) && c in s.topic.consumers
    requires Complete(cfg.maxRetries, Attempts(s.topic.consumers[c].calls, o))
    ensures var con := s.topic.consumers[c];
            && con.slot.part < |s.topic.parts| && o < |s.topic.parts[con.slot.part]|
            && (if Accepts(cfg, s.topic.parts[con.slot.part][o].value) then Attempts(con.calls, o) == [true]
                else Exhausted(cfg.maxRetries, Attempts(con.calls, o)))
  {
    PossibleInv(cfg, s);
    assert ConsumerCounts(cfg, s.topic.consumers[c]);
    ReachableInv(cfg.maxRetries, cfg.name, cfg.partitions, s.topic);
    assert OneConsumerOk(cfg.maxRetries, s.topic, c);
    Decided(cfg, s.topic.parts[s.topic.consumers[c].slot.part], s.topic.consumers[c], o);
  }

  ghost predicate AllSole(t: Topic) {
    forall c :: c in t.consumers ==> Sole(t, c)
  }

  /** The part of its log a consumer has been handed. */
  function Delivered(t: Topic, c: nat): Log
    requires c in t.consumers
  {
    var con := t.consumers[c];
    var h := Handed(con, Committed(t, con.slot));
    if con.slot.part < |t.parts| && h <= |t.parts[con.slot.part]| then t.parts[con.slot.part][..h] else []
  }

  /** How many acceptable messages each consumer has been handed. */
  function AcceptedMap(cfg: Config, t: Topic): map<nat, nat> {
    map c | c in t.consumers :: AcceptedIn(cfg, Delivered(t, c))
  }

  lemma SoleCount(cfg: Config, s: System, c: nat)
    requires SysInv(cfg, s) && Sole(s.topic, c)
    ensures Successes(s.topic.consumers[c].calls) == AcceptedIn(cfg, Delivered(s.topic, c))
  {
    SoleInOrder(cfg.maxRetries, cfg.name, cfg.partitions, s.topic, c);
    assert ConsumerCounts(cfg, s.topic.consumers[c]);
  }

  lemma SolesCount(cfg: Config, s: System)
    requires SysInv(cfg, s) && AllSole(s.topic)
    ensures s.puts == Sum(AcceptedMap(cfg, s.topic))
  {
    forall c | c in s.topic.consumers
      ensures Measured(s.topic.consumers, Succeeding())[c] == AcceptedMap(cfg, s.topic)[c]
    {
      SoleCount(cfg, s, c);
    }
    assert Measured(s.topic.consumers, Succeeding()) == AcceptedMap(cfg, s.topic);
  }

  /**
   One consumer per group and partition: the store was written exactly once for each acceptable message handed
   over.
   */
  lemma OnePutPerMessage(cfg: Config, s: System)
    requires Possible(cfg, s) && AllSole(s.topic)
    ensures s.puts == Sum(AcceptedMap(cfg, s.topic))
  {
    PossibleInv(cfg, s);
    SolesCount(cfg, s);
  }

  lemma CommittedIsComplete(max: nat, name: string, n: nat, t: Topic, c: nat, o: nat)
    requires max >= 1 && n >= 1 && Reachable(max, name, n, t) && Sole(t, c) && o < Committed(t, t.consumers[c].slot)
    ensures Complete(max, Attempts(t.consumers[c].calls, o))
  {
    ReachableInv(max, name, n, t);
    assert Handled(max, t, t.consumers[c].slot, o);
    var d :| Finished(max, t, d, t.consumers[c].slot, o);
    assert d == c;
  }

  lemma NotBoth(max: nat, r: seq<bool>)
    requires max >= 1 && Exhausted(max, r)
    ensures !Succeeded(max, r) && r != [true]
  {
    assert !r[|r| - 1];
  }

  /** ... and a committed message is in the dead-letter log exactly when it was not acceptable. */
  lemma DeadIffRefused(cfg: Config, s: System, c: nat, o: nat)
    requires Possible(cfg, s) && Sole(s.topic, c) && o < Committed(s.topic, s.topic.consumers[c].slot)
    ensures var con := s.topic.consumers[c];
            && con.slot.part < |s.topic.parts| && o < |s.topic.parts[con.slot.part]|
            && (Dead(c, o) in s.topic.dead <==> !Accepts(cfg, s.topic.parts[con.slot.part][o].value))
  {
    PossibleInv(cfg, s);
    var max := cfg.maxRetries;
    SoleConservation(max, cfg.name, cfg.partitions, s.topic, c, o);
    CommittedIsComplete(max, cfg.name, cfg.partitions, s.topic, c, o);
    FirstOrNever(cfg, s, c, o);
    var r := Attempts(s.topic.consumers[c].calls, o);
    if Exhausted(max, r) {
      NotBoth(max, r);
    }
  }

  /** ... so it was processed exactly once if it was acceptable, and otherwise never. */
  lemma ProcessedIffAccepted(cfg: Config, s: System, c: nat, o: nat)
    requires Possible(cfg, s) && Sole(s.topic, c) && o < Committed(s.topic, s.topic.consumers[c].slot)
    ensures var con := s.topic.consumers[c];
            && con.slot.part < |s.topic.parts| && o < |s.topic.parts[con.slot.part]|
            && Once.TimesProcessed(s.topic, con.slot, o)
                 == if Accepts(cfg, s.topic.parts[con.slot.part][o].value) then 1 else 0
  {
    PossibleInv(cfg, s);
    var slot := s.topic.consumers[c].slot;
    DeadIffRefused(cfg, s, c, o);
    assert ConsumersOf(s.topic, slot) == {c};
    Once.OneConsumerOnce(cfg.maxRetries, cfg.name, cfg.partitions, s.topic, slot);
    assert Once.Buried(s.topic, slot, o) <==> Dead(c, o) in s.topic.dead;
  }

  // ---- Fresh ids ----

  /** Messages carry no id of their own, and the ids made up for them are new to the store. */
  ghost predicate FreshIds(cfg: Config, s: System, ms: seq<Move>)
    requires Play(cfg, s, ms).Some?
    decreases |ms|
  {
    ms == [] ||
    (&& (ms[0].Handle? ==> ms[0].env.newId !in s.store)
     && FreshIds(cfg, After(cfg, s, ms[0]), ms[1..]))
  }

  ghost predicate NoIds(cfg: Config) {
    forall value :: cfg.decode(value).Some? ==> cfg.decode(value).value.id == ""
  }

  /** Then nothing is ever overwritten, so the store's size is puts less deletes less evictions. */
  lemma {:induction false} NoOverwrites(cfg: Config, s: System, ms: seq<Move>)
    requires NoIds(cfg) && Play(cfg, s, ms).Some? && FreshIds(cfg, s, ms)
    ensures Play(cfg, s, ms).value.overwrites == s.overwrites
    decreases |ms|
  {
    if ms != [] {
      if ms[0].Handle? {
        var value := s.topic.consumers[ms[0].cid].pc.msg.value;
        if cfg.decode(value).Some? {
          StandardRun(cfg.ttl, cfg.decode(value).value, ms[0].env, s.store);
        }
      }
      NoOverwrites(cfg, After(cfg, s, ms[0]), ms[1..]);
    }
  }

  // ---- At rest: nothing lost ----

  ghost predicate Serves(t: Topic, c: nat, slot: Slot) {
    c in t.consumers && t.consumers[c].slot == slot
  }

  ghost predicate Served(t: Topic, slot: Slot) {
    exists c :: Serves(t, c, slot)
  }

  /** One consumer on each partition for each of some groups: what one `Subscribe` per group sets up. */
  ghost predicate OnePerPartition(t: Topic, groups: set<string>) {
    && AllSole(t)
    && (forall c :: c in t.consumers ==> t.consumers[c].slot.group in groups && t.consumers[c].slot.part < |t.parts|)
    && (forall g, p: nat :: g in groups && p < |t.parts| ==> Served(t, Slot(g, p)))
  }

  /** All publishers have returned and no consumer can move or has left. */
  ghost predicate AtRest(t: Topic) {
    t.publishers == map[] && Stuck(t) && forall c :: c in t.consumers ==> !t.consumers[c].pc.Exited?
  }

  lemma RestingConsumer(cfg: Config, t: Topic, c: nat)
    requires cfg.maxRetries >= 1 && cfg.partitions >= 1
    requires Reachable(cfg.maxRetries, cfg.name, cfg.partitions, t) && AtRest(t) && Sole(t, c)
    ensures t.consumers[c].slot.part < |t.parts| && t.consumers[c].pc.Waiting?
    ensures Committed(t, t.consumers[c].slot) == |t.parts[t.consumers[c].slot.part]|
    ensures |FirstAttempts(t.consumers[c].calls)| == |t.parts[t.consumers[c].slot.part]|
  {
    ReachableInv(cfg.maxRetries, cfg.name, cfg.partitions, t);
    SoleInOrder(cfg.maxRetries, cfg.name, cfg.partitions, t, c);
    StuckConsumer(cfg.maxRetries, t, c);
  }

  /** The consumers of some groups, and those of the first `k` partitions of one more. */
  function Serving(m: map<nat, Consumer>, done: set<string>, g: string, k: nat): map<nat, Consumer> {
    map c | c in m && (m[c].slot.group in done || (m[c].slot.group == g && m[c].slot.part < k)) :: m[c]
  }

  lemma OneMoreGroup(n: nat, length: nat)
    requires n >= 1
    ensures (n - 1) * length + length == n * length
  {
  }

  /** A finished group joins the others. */
  lemma GroupDone(t: Topic, groups: set<string>, done: set<string>, g: string, h: string)
    requires OnePerPartition(t, groups) && h in done
    ensures Serving(t.consumers, done, g, 0) == Serving(t.consumers, done - {h}, h, |t.parts|)
  {
  }

  /** The next partition of the current group has one consumer more. */
  lemma NextServed(t: Topic, groups: set<string>, done: set<string>, g: string, k: nat) returns (c: nat)
    requires OnePerPartition(t, groups) && g in groups - done && k < |t.parts|
    ensures Serves(t, c, Slot(g, k)) && c !in Serving(t.consumers, done, g, k)
    ensures Serving(t.consumers, done, g, k + 1) == Serving(t.consumers, done, g, k)[c := t.consumers[c]]
  {
    assert Served(t, Slot(g, k));
    c :| Serves(t, c, Slot(g, k));
    assert Sole(t, c);
    forall d | d in t.consumers && t.consumers[d].slot.group == g && t.consumers[d].slot.part == k
      ensures d == c
    {
      assert t.consumers[d].slot == Slot(g, k);
    }
  }

  lemma NextTally(t: Topic, groups: set<string>, f: Measure, done: set<string>, g: string, k: nat)
    requires OnePerPartition(t, groups) && g in groups - done && k < |t.parts|
    requires forall c :: c in t.consumers ==> f(t.consumers[c]) == |t.parts[t.consumers[c].slot.part]|
    ensures Tally(Serving(t.consumers, done, g, k + 1), f) == Tally(Serving(t.consumers, done, g, k), f) + |t.parts[k]|
  {
    var c := NextServed(t, groups, done, g, k);
    TallyUpdate(Serving(t.consumers, done, g, k), c, t.consumers[c], f);
  }

  lemma LogsSnoc(parts: seq<Log>, k: nat)
    requires k < |parts|
    ensures TotalLength(parts[..k + 1]) == TotalLength(parts[..k]) + |parts[k]|
    ensures TotalLength(parts[..0]) == 0 && parts[..|parts|] == parts
  {
    assert parts[..k + 1] == parts[..k] + [parts[k]];
    BrokerProtocol.TotalSnoc(parts[..k], parts[k]);
  }

  /** The consumers of one more group, partition by partition. */
  lemma {:induction false} SumOverPartitions(
    t: Topic, groups: set<string>, f: Measure, done: set<string>, g: string, k: nat)
    requires OnePerPartition(t, groups) && g in groups - done && k <= |t.parts|
    requires forall c :: c in t.consumers ==> f(t.consumers[c]) == |t.parts[t.consumers[c].slot.part]|
    ensures Tally(Serving(t.consumers, done, g, k), f)
         == Tally(Serving(t.consumers, done, g, 0), f) + TotalLength(t.parts[..k])
  {
    if k > 0 {
      SumOverPartitions(t, groups, f, done, g, k - 1);
      NextTally(t, groups, f, done, g, k - 1);
      LogsSnoc(t.parts, k - 1);
    }
  }

  lemma LastGroup(t: Topic, groups: set<string>, f: Measure, done: set<string>, g: string, h: string)
    requires OnePerPartition(t, groups) && done <= groups && h in done
    requires forall c :: c in t.consumers ==> f(t.consumers[c]) == |t.parts[t.consumers[c].slot.part]|
    ensures Tally(Serving(t.consumers, done, g, 0), f)
         == Tally(Serving(t.consumers, done - {h}, h, 0), f) + TotalLength(t.parts)
  {
    SumOverPartitions(t, groups, f, done - {h}, h, |t.parts|);
    assert t.parts[..|t.parts|] == t.parts;
    GroupDone(t, groups, done, g, h);
  }

  lemma NoneServing(t: Topic, groups: set<string>, g: string, f: Measure)
    requires OnePerPartition(t, groups)
    ensures Tally(Serving(t.consumers, {}, g, 0), f) == 0
  {
    assert Serving(t.consumers, {}, g, 0) == map[];
  }

  /** Summing over consumers is summing over groups and partitions when they correspond one to one. */
  lemma {:induction false} SumOverGroups(t: Topic, groups: set<string>, f: Measure, done: set<string>, g: string)
    requires OnePerPartition(t, groups) && done <= groups
    requires forall c :: c in t.consumers ==> f(t.consumers[c]) == |t.parts[t.consumers[c].slot.part]|
    ensures Tally(Serving(t.consumers, done, g, 0), f) == |done| * TotalLength(t.parts)
    decreases |done|
  {
    if done == {} {
      NoneServing(t, groups, g, f);
    } else {
      var h :| h in done;
      SumOverGroups(t, groups, f, done - {h}, h);
      LastGroup(t, groups, f, done, g, h);
      OneMoreGroup(|done|, TotalLength(t.parts));
    }
  }

  lemma QuietTally(cfg: Config, t: Topic)
    requires cfg.maxRetries >= 1 && cfg.partitions >= 1
    requires Reachable(cfg.maxRetries, cfg.name, cfg.partitions, t) && AtRest(t) && AllSole(t)
    ensures Tally(t.consumers, Retried()) == 0 && Tally(t.consumers, Routed()) == 0
  {
    forall c | c in t.consumers
      ensures Retried()(t.consumers[c]) == 0 && Routed()(t.consumers[c]) == 0
    {
      RestingConsumer(cfg, t, c);
    }
    TallyZero(t.consumers, Retried());
    TallyZero(t.consumers, Routed());
  }

  lemma TallyZero(m: map<nat, Consumer>, f: Measure)
    requires forall c :: c in m ==> f(m[c]) == 0
    ensures Tally(m, f) == 0
  {
    TallyAdd(m, f, f, f);
  }

  lemma RestCounts(cfg: Config, t: Topic, groups: set<string>)
    requires cfg.maxRetries >= 1 && cfg.partitions >= 1
    requires Reachable(cfg.maxRetries, cfg.name, cfg.partitions, t) && AtRest(t) && OnePerPartition(t, groups)
    ensures Tally(t.consumers, Begun()) == |groups| * TotalLength(t.parts)
  {
    forall c | c in t.consumers
      ensures Begun()(t.consumers[c]) == |t.parts[t.consumers[c].slot.part]|
    {
      RestingConsumer(cfg, t, c);
    }
    SumOverGroups(t, groups, Begun(), groups, "");
    assert Serving(t.consumers, groups, "", 0) == t.consumers;
  }

  /** At rest, a sole consumer has seen each message of its log end in a success or a dead letter, and none in both. */
  lemma RestingEnds(cfg: Config, s: System, c: nat, o: nat)
    requires Possible(cfg, s) && AtRest(s.topic) && Sole(s.topic, c)
    requires s.topic.consumers[c].slot.part < |s.topic.parts| && o < |s.topic.parts[s.topic.consumers[c].slot.part]|
    ensures Succeeded(cfg.maxRetries, Attempts(s.topic.consumers[c].calls, o)) != (Dead(c, o) in s.topic.dead)
  {
    PossibleInv(cfg, s);
    RestingConsumer(cfg, s.topic, c);
    SoleConservation(cfg.maxRetries, cfg.name, cfg.partitions, s.topic, c, o);
  }

  /**
   With one consumer on each partition for each group: once publishers have stopped and the consumers have come to
   rest, every group has put each published message into the store once or into the dead-letter log, and none into
   both.
   */
  lemma NothingLost(cfg: Config, s: System, groups: set<string>)
    requires Possible(cfg, s) && OnePerPartition(s.topic, groups) && AtRest(s.topic)
    ensures s.puts + |s.topic.dlq| == |groups| * s.topic.published
    ensures forall c, o: nat :: c in s.topic.consumers && o < |s.topic.parts[s.topic.consumers[c].slot.part]| ==>
              Succeeded(cfg.maxRetries, Attempts(s.topic.consumers[c].calls, o)) != (Dead(c, o) in s.topic.dead)
  {
    PossibleInv(cfg, s);
    DeliveriesConserved(cfg.maxRetries, cfg.name, cfg.partitions, s.topic);
    QuietTally(cfg, s.topic);
    RestCounts(cfg, s.topic, groups);
    PublishAccounting(cfg.maxRetries, cfg.name, cfg.partitions, s.topic);
    forall c, o: nat | c in s.topic.consumers && o < |s.topic.parts[s.topic.consumers[c].slot.part]|
      ensures Succeeded(cfg.maxRetries, Attempts(s.topic.consumers[c].calls, o)) != (Dead(c, o) in s.topic.dead)
    {
      RestingEnds(cfg, s, c, o);
    }
  }

  // ---- What the store can hold ----

  /** Some message in the topic's logs is the source of the event. */
  ghost predicate Published(cfg: Config, t: Topic, d: Event) {
    exists p: nat, o: nat :: p < |t.parts| && o < |t.parts[p]| && Source(cfg, t.parts[p][o].value, d)
  }

  predicate Source(cfg: Config, value: Bytes, d: Event) {
    cfg.decode(value).Some? && CopyOf(cfg.decode(value).value, d)
  }

  ghost predicate StoreOk(cfg: Config, s: System) {
    forall id :: id in s.store ==>
      s.store[id].id == id && WellFormed(cfg.ttl, s.store[id]) && Published(cfg, s.topic, s.store[id])
  }

  lemma StillPublished(cfg: Config, t: Topic, l: Label, d: Event)
    requires Enabled(t, l) && Published(cfg, t, d)
    ensures Published(cfg, Apply(cfg.maxRetries, t, l), d)
  {
    var t' := Apply(cfg.maxRetries, t, l);
    LogsGrow(cfg.maxRetries, t, l);
    var p: nat, o: nat :| p < |t.parts| && o < |t.parts[p]| && Source(cfg, t.parts[p][o].value, d);
    assert t.parts[p] <= t'.parts[p];
    assert Source(cfg, t'.parts[p][o].value, d);
  }

  lemma AllStillPublished(cfg: Config, s: System, l: Label)
    requires Enabled(s.topic, l) && StoreOk(cfg, s)
    ensures StoreOk(cfg, s.(topic := Apply(cfg.maxRetries, s.topic, l)))
  {
    forall id | id in s.store
      ensures Published(cfg, Apply(cfg.maxRetries, s.topic, l), s.store[id])
    {
      StillPublished(cfg, s.topic, l, s.store[id]);
    }
  }

  /** What a consumer has in hand is in a log. */
  lemma InHandPublished(cfg: Config, s: System, cid: nat, d: Event)
    requires SysInv(cfg, s) && Enabled(s.topic, Step(cid, Attempt(true)))
    requires Source(cfg, s.topic.consumers[cid].pc.msg.value, d)
    ensures Published(cfg, s.topic, d)
  {
    ReachableInv(cfg.maxRetries, cfg.name, cfg.partitions, s.topic);
    assert OneConsumerOk(cfg.maxRetries, s.topic, cid);
    var con := s.topic.consumers[cid];
    ValueInHand(cfg.maxRetries, s.topic.parts[con.slot.part], Committed(s.topic, con.slot), con);
  }

  lemma ValueInHand(max: nat, log: Log, committed: nat, c: Consumer)
    requires ConsumerOk(max, log, committed, c) && c.pc.Attempting?
    ensures c.pc.at < |log| && log[c.pc.at].value == c.pc.msg.value
  {
    assert c.pc.msg.(attempt := 1) == log[c.pc.at];
  }

  lemma StoreOkPut(cfg: Config, s: System, d: Event)
    requires StoreOk(cfg, s) && WellFormed(cfg.ttl, d) && Published(cfg, s.topic, d)
    ensures StoreOk(cfg, s.(store := s.store[d.id := d]))
  {
  }

  lemma StoreOkHandle(cfg: Config, s: System, cid: nat, env: Env)
    requires SysInv(cfg, s) && CanMove(s, Handle(cid, env)) && StoreOk(cfg, s)
    ensures StoreOk(cfg, After(cfg, s, Handle(cid, env)))
  {
    var value := s.topic.consumers[cid].pc.msg.value;
    var d := HandlerVerdict(cfg, value, env, s.store);
    var (store, ok, id) := Handler(cfg, value, env, s.store);
    if ok {
      InHandPublished(cfg, s, cid, d);
      StoreOkPut(cfg, s, d);
    }
    var mid := s.(store := store);
    AllStillPublished(cfg, mid, Step(cid, Attempt(ok)));
    StoreOkCounts(cfg, mid.(topic := Apply(cfg.maxRetries, mid.topic, Step(cid, Attempt(ok)))),
                  After(cfg, s, Handle(cid, env)));
  }

  lemma StoreOkCounts(cfg: Config, s: System, s': System)
    requires StoreOk(cfg, s) && s'.topic == s.topic && s'.store == s.store
    ensures StoreOk(cfg, s')
  {
  }

  lemma StoreOkMove(cfg: Config, s: System, m: Move)
    requires SysInv(cfg, s) && CanMove(s, m) && StoreOk(cfg, s)
    ensures StoreOk(cfg, After(cfg, s, m))
  {
    match m
    case Broker(l) => AllStillPublished(cfg, s, l);
    case Handle(cid, env) => StoreOkHandle(cfg, s, cid, env);
    case _ =>
  }

  lemma {:induction false} StoreOkPlay(cfg: Config, s: System, ms: seq<Move>)
    requires SysInv(cfg, s) && StoreOk(cfg, s) && Play(cfg, s, ms).Some?
    ensures StoreOk(cfg, Play(cfg, s, ms).value)
    decreases |ms|
  {
    if ms != [] {
      StoreOkMove(cfg, s, ms[0]);
      SysInvMove(cfg, s, ms[0]);
      StoreOkPlay(cfg, After(cfg, s, ms[0]), ms[1..]);
    }
  }

  /**
   In every state the system can get into, each stored event is kept under its own id, is well-formed, and is a copy
   of what some published message decodes to.
   */
  lemma StoreHoldsPublished(cfg: Config, s: System)
    requires Possible(cfg, s)
    ensures forall id :: id in s.store ==>
              s.store[id].id == id && WellFormed(cfg.ttl, s.store[id]) && Published(cfg, s.topic, s.store[id])
  {
    var ms :| Play(cfg, Start(cfg), ms) == Some(s);
    StartInv(cfg);
    StoreOkPlay(cfg, Start(cfg), ms);
  }

  /** A sole consumer's committed message is dead-lettered exactly when it does not decode to a well-formed event. */
  lemma DeadByContent(cfg: Config, s: System, c: nat, o: nat)
    requires Possible(cfg, s) && Sole(s.topic, c) && o < Committed(s.topic, s.topic.consumers[c].slot)
    ensures var con := s.topic.consumers[c];
            && con.slot.part < |s.topic.parts| && o < |s.topic.parts[con.slot.part]|
            && var decoded := cfg.decode(s.topic.parts[con.slot.part][o].value);
               Dead(c, o) in s.topic.dead <==>
                 || decoded.None? || !Visible(decoded.value.name) || !Visible(decoded.value.category)
                 || decoded.value.mood < 1 || decoded.value.mood > 10
  {
    DeadIffRefused(cfg, s, c, o);
    var con := s.topic.consumers[c];
    AcceptsIff(cfg, s.topic.parts[con.slot.part][o].value);
  }

  // ---- Time to live ----

  /** A move other than a handler call changes the store only by deleting one id or by dropping what has expired. */
  lemma OtherMoves(cfg: Config, s: System, m: Move, id: string)
    requires CanMove(s, m) && !m.Handle?
    ensures id in After(cfg, s, m).store <==>
              && id in s.store && m != Remove(id)
              && (m.Evict? ==> s.store[id].expiresAt == 0 || s.store[id].expiresAt >= m.now)
    ensures id in After(cfg, s, m).store ==> After(cfg, s, m).store[id] == s.store[id]
  {
  }

  /** A sweep keeps exactly the events whose creation plus TTL is not yet past (or falls on the zero time). */
  lemma SweepByAge(cfg: Config, s: System, now: int, id: string)
    requires Possible(cfg, s) && cfg.ttl > 0 && id in s.store
    ensures id in After(cfg, s, Evict(now)).store <==>
              now <= s.store[id].createdAt + cfg.ttl || s.store[id].createdAt + cfg.ttl == 0
  {
    StoreHoldsPublished(cfg, s);
  }

  /** No one deletes this event, and no sweep is later than `deadline`. */
  ghost predicate Undisturbed(ms: seq<Move>, id: string, deadline: int) {
    && (forall i :: 0 <= i < |ms| ==> ms[i] != Remove(id))
    && (forall i :: 0 <= i < |ms| && ms[i].Evict? ==> ms[i].now <= deadline)
  }

  lemma UndisturbedMove(cfg: Config, s: System, m: Move, id: string)
    requires NoIds(cfg) && CanMove(s, m) && id in s.store && m != Remove(id)
    requires m.Handle? ==> m.env.newId !in s.store
    requires m.Evict? ==> m.now <= s.store[id].expiresAt
    ensures id in After(cfg, s, m).store && After(cfg, s, m).store[id] == s.store[id]
  {
    if m.Handle? {
      var value := s.topic.consumers[m.cid].pc.msg.value;
      if cfg.decode(value).Some? {
        StandardRun(cfg.ttl, cfg.decode(value).value, m.env, s.store);
      }
    }
  }

  lemma {:induction false} UndisturbedPlay(cfg: Config, s: System, ms: seq<Move>, id: string)
    requires NoIds(cfg) && Play(cfg, s, ms).Some? && FreshIds(cfg, s, ms)
    requires id in s.store && Undisturbed(ms, id, s.store[id].expiresAt)
    ensures id in Play(cfg, s, ms).value.store && Play(cfg, s, ms).value.store[id] == s.store[id]
    decreases |ms|
  {
    if ms != [] {
      UndisturbedMove(cfg, s, ms[0], id);
      assert Undisturbed(ms[1..], id, s.store[id].expiresAt);
      UndisturbedPlay(cfg, After(cfg, s, ms[0]), ms[1..], id);
    }
  }

  /**
   An event of the standard pipeline lasts its TTL: whatever else happens, it is in the store unchanged after every
   run in which it is not deleted and no sweep comes later than its creation plus TTL.
   */
  lemma LastsItsTtl(cfg: Config, s: System, ms: seq<Move>, id: string)
    requires Possible(cfg, s) && cfg.ttl > 0 && id in s.store
    requires NoIds(cfg) && Play(cfg, s, ms).Some? && FreshIds(cfg, s, ms)
    requires Undisturbed(ms, id, s.store[id].createdAt + cfg.ttl)
    ensures id in Play(cfg, s, ms).value.store && Play(cfg, s, ms).value.store[id] == s.store[id]
  {
    StoreHoldsPublished(cfg, s);
    UndisturbedPlay(cfg, s, ms, id);
  }

  // ---- Tiers and buckets ----

  /** A store only the pipeline writes has as many events in each score bucket as in the matching priority. */
  lemma BucketsMatchTiers(cfg: Config, s: System)
    requires Possible(cfg, s)
    ensures var buckets := StoreStats.Counts(StoreStats.ScoreKinds(s.store));
            var tiers := StoreStats.Counts(StoreStats.PriorityKinds(s.store));
            && StoreStats.CountOf(buckets, "80-100") == StoreStats.CountOf(tiers, "critical")
            && StoreStats.CountOf(buckets, "55-79") == StoreStats.CountOf(tiers, "high")
            && StoreStats.CountOf(buckets, "30-54") == StoreStats.CountOf(tiers, "medium")
            && StoreStats.CountOf(buckets, "0-29") == StoreStats.CountOf(tiers, "low")
  {
    StoreHoldsPublished(cfg, s);
    StoreStats.BucketsArePriorities(s.store, 80.0);
    StoreStats.BucketsArePriorities(s.store, 55.0);
    StoreStats.BucketsArePriorities(s.store, 30.0);
    StoreStats.BucketsArePriorities(s.store, 0.0);
  }
}
