/**
 Two workers of one group on a partition, as cmd/worker/main.go:70-71 starts them, can both store an event for the same
 message: each run of the pipeline makes up its own id.
 */
module TwoWorkers {
  import opened Prelude
  import opened Messages
  import opened Events
  import opened Storage
  import opened TopicProtocol
  import opened ExactlyOnce
  import opened EndToEnd
  import P = Pipeline

  lemma {:induction false} PlayConcat(cfg: Config, s: System, ms: seq<Move>, ns: seq<Move>, mid: System)
    requires Play(cfg, s, ms) == Some(mid)
    ensures Play(cfg, s, ms + ns) == Play(cfg, mid, ns)
    decreases |ms|
  {
    if ms == [] {
      assert ms + ns == ns;
    } else {
      assert (ms + ns)[1..] == ms[1..] + ns;
      PlayConcat(cfg, After(cfg, s, ms[0]), ms[1..], ns, mid);
    }
  }

  lemma PossibleOn(cfg: Config, s: System, ms: seq<Move>, s': System)
    requires Possible(cfg, s) && Play(cfg, s, ms) == Some(s')
    ensures Possible(cfg, s')
  {
    var ks :| Play(cfg, Start(cfg), ks) == Some(s);
    PlayConcat(cfg, Start(cfg), ks, ms, s);
  }

  /** Reading the group's offset and the message there, then one handler call. */
  function Moves(c: nat, env: P.Env): seq<Move> {
    [Move.Broker(Step(c, GetOffset)), Move.Broker(Step(c, Get)), Handle(c, env)]
  }

  ghost predicate Ready(cfg: Config, s: System, c: nat) {
    CanDeliver(cfg.maxRetries, cfg.name, cfg.partitions, s.topic, c)
  }

  /** The message a ready consumer will be given, decoded. */
  function Next(cfg: Config, s: System, c: nat): Option<Event>
    requires c in s.topic.consumers && s.topic.consumers[c].slot.part < |s.topic.parts|
    requires Committed(s.topic, s.topic.consumers[c].slot) < |s.topic.parts[s.topic.consumers[c].slot.part]|
  {
    var slot := s.topic.consumers[c].slot;
    cfg.decode(s.topic.parts[slot.part][Committed(s.topic, slot)].value)
  }

  /** The system after the delivery of an acceptable message without an id. */
  function Stored(cfg: Config, s: System, c: nat, e: Event, env: P.Env): System
    requires c in s.topic.consumers && s.topic.consumers[c].slot.part < |s.topic.parts|
    requires Committed(s.topic, s.topic.consumers[c].slot) < |s.topic.parts[s.topic.consumers[c].slot.part]|
  {
    s.(topic := AfterDelivery(s.topic, c),
       store := s.store[env.newId := P.FinalEvent(cfg.ttl, e, env)],
       puts := s.puts + 1,
       overwrites := s.overwrites + (if env.newId in s.store then 1 else 0))
  }

  lemma HandlerStores(cfg: Config, value: Bytes, e: Event, env: P.Env, store: Primary)
    requires cfg.decode(value) == Some(e) && Validate(e).None? && e.id == ""
    ensures Handler(cfg, value, env, store) == (store[env.newId := P.FinalEvent(cfg.ttl, e, env)], true, env.newId)
  {
    P.StandardRun(cfg.ttl, e, env, store);
  }

  /** The topic once consumer `c` has read its next message. */
  function Fetched(t: Topic, c: nat): Topic
    requires c in t.consumers && t.consumers[c].slot.part < |t.parts|
    requires Committed(t, t.consumers[c].slot) < |t.parts[t.consumers[c].slot.part]|
  {
    var con := t.consumers[c];
    var o := Committed(t, con.slot);
    t.(consumers := t.consumers[c := con.(pc := Attempting(o, t.parts[con.slot.part][o], 1))])
  }

  lemma ReadPlays(cfg: Config, s: System, c: nat)
    requires Ready(cfg, s, c)
    ensures Play(cfg, s, [Move.Broker(Step(c, GetOffset)), Move.Broker(Step(c, Get))])
         == Some(s.(topic := Fetched(s.topic, c)))
  {
    var max, t := cfg.maxRetries, s.topic;
    var ms := [Move.Broker(Step(c, GetOffset)), Move.Broker(Step(c, Get))];
    var t1 := Apply(max, t, Step(c, GetOffset));
    assert t1.consumers[c] == t.consumers[c].(pc := Read(Committed(t, t.consumers[c].slot)));
    var t2 := Apply(max, t1, Step(c, Get));
    assert t2.consumers == Fetched(t, c).consumers;
    assert ms[1..] == [ms[1]] && [ms[1]][1..] == [];
    assert Play(cfg, s.(topic := t1), [ms[1]]) == Some(s.(topic := t2));
  }

  lemma HandlePlays(cfg: Config, s: System, c: nat, e: Event, env: P.Env)
    requires Ready(cfg, s, c) && Next(cfg, s, c) == Some(e) && Validate(e).None? && e.id == ""
    ensures Play(cfg, s.(topic := Fetched(s.topic, c)), [Handle(c, env)]) == Some(Stored(cfg, s, c, e, env))
  {
    var s2 := s.(topic := Fetched(s.topic, c));
    HandlerStores(cfg, s2.topic.consumers[c].pc.msg.value, e, env, s.store);
    var topic := Apply(cfg.maxRetries, s2.topic, Step(c, Attempt(true)));
    assert topic.consumers == AfterDelivery(s.topic, c).consumers;
    assert topic == AfterDelivery(s.topic, c);
    assert After(cfg, s2, Handle(c, env)) == Stored(cfg, s, c, e, env);
    assert [Handle(c, env)][1..] == [];
  }

  lemma DeliveryPlays(cfg: Config, s: System, c: nat, e: Event, env: P.Env)
    requires Ready(cfg, s, c) && Next(cfg, s, c) == Some(e) && Validate(e).None? && e.id == ""
    ensures Play(cfg, s, Moves(c, env)) == Some(Stored(cfg, s, c, e, env))
  {
    var read := [Move.Broker(Step(c, GetOffset)), Move.Broker(Step(c, Get))];
    ReadPlays(cfg, s, c);
    HandlePlays(cfg, s, c, e, env);
    PlayConcat(cfg, s, read, [Handle(c, env)], s.(topic := Fetched(s.topic, c)));
    assert Moves(c, env) == read + [Handle(c, env)];
  }

  lemma Delivers(cfg: Config, s: System, c: nat, e: Event, env: P.Env)
    requires Possible(cfg, s) && Ready(cfg, s, c) && Next(cfg, s, c) == Some(e) && Validate(e).None? && e.id == ""
    ensures Possible(cfg, Stored(cfg, s, c, e, env))
    ensures Reachable(cfg.maxRetries, cfg.name, cfg.partitions, AfterDelivery(s.topic, c))
  {
    DeliveryPlays(cfg, s, c, e, env);
    PossibleOn(cfg, s, Moves(c, env), Stored(cfg, s, c, e, env));
    PossibleInv(cfg, Stored(cfg, s, c, e, env));
  }

  lemma TwoKeys(store: Primary, i: string, j: string, d: Event, e: Event)
    requires i != j && i !in store && j !in store
    ensures |store[i := d][j := e]| == |store| + 2
  {
    assert store[i := d].Keys == store.Keys + {i};
    assert store[i := d][j := e].Keys == store.Keys + {i} + {j};
  }

  /**
   From any possible state with two idle consumers of one slot and an acceptable message without an id: a run in which
   both handle it, and the store gains two events for the one message.
   */
  lemma OneMessageTwoEvents(cfg: Config, s: System, c: nat, d: nat, e: Event, env: P.Env, env': P.Env)
    returns (s': System)
    requires Possible(cfg, s) && c != d && Ready(cfg, s, c) && Ready(cfg, s, d)
    requires s.topic.consumers[c].slot == s.topic.consumers[d].slot
    requires Next(cfg, s, c) == Some(e) && Validate(e).None? && e.id == ""
    requires env.newId != env'.newId && env.newId !in s.store && env'.newId !in s.store
    ensures Possible(cfg, s') && s'.topic.parts == s.topic.parts
    ensures s'.store
         == s.store[env.newId := P.FinalEvent(cfg.ttl, e, env)][env'.newId := P.FinalEvent(cfg.ttl, e, env')]
    ensures |s'.store| == |s.store| + 2
  {
    Delivers(cfg, s, c, e, env);
    DeliveryApart(cfg.maxRetries, s.topic, c, d);
    var mid := Stored(cfg, s, c, e, env);
    Delivers(cfg, mid, d, e, env');
    DeliveryApart(cfg.maxRetries, mid.topic, d, c);
    s' := Stored(cfg, mid, d, e, env');
    TwoKeys(s.store, env.newId, env'.newId, P.FinalEvent(cfg.ttl, e, env), P.FinalEvent(cfg.ttl, e, env'));
  }
}
