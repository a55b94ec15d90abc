/**
 Concurrent `Add` and `Set` calls on named counters (internal/metrics/metrics.go:48-84): a read-locked lookup, a
 write-locked second look that may register the name, and an atomic operation on the cell outside any lock.
 */
module CounterProtocol {
  import opened Prelude

  datatype Op = Add(delta: int) | Set(value: int)

  /** One call in progress. */
  datatype Thread =
    | Started(name: string, op: Op)                 // before the read-locked lookup
    | Missed(name: string, op: Op)                  // the name was absent
    | Holding(name: string, op: Op, cell: nat)      // before the atomic operation
    | Finished(name: string, op: Op)

  /** `log` is the order in which the atomic operations took effect. */
  datatype Entry = Entry(tid: nat, name: string, op: Op)

  datatype State = State(counters: map<string, nat>, cells: map<nat, int>, threads: map<nat, Thread>, log: seq<Entry>)

  function Effect(v: int, op: Op): int {
    match op
    case Add(d) => Wrap(v + d)
    case Set(x) => x
  }

  datatype Label =
    | Begin(tid: nat, name: string, op: Op)
    | Look(tid: nat)
    | Register(tid: nat, newCell: nat)
    | Operate(tid: nat)

  predicate Enabled(s: State, l: Label) {
    match l
    case Begin(tid, _, _) => tid !in s.threads
    case Look(tid) => tid in s.threads && s.threads[tid].Started?
    case Register(tid, newCell) => tid in s.threads && s.threads[tid].Missed? && newCell !in s.cells
    case Operate(tid) => tid in s.threads && s.threads[tid].Holding? && s.threads[tid].cell in s.cells
  }

  function Next(s: State, l: Label): State
    requires Enabled(s, l)
  {
    match l
    case Begin(tid, name, op) => s.(threads := s.threads[tid := Started(name, op)])
    case Look(tid) =>
      var t := s.threads[tid];
      s.(threads := s.threads[tid := if t.name in s.counters then Holding(t.name, t.op, s.counters[t.name])
                                     else Missed(t.name, t.op)])
    case Register(tid, newCell) =>
      var t := s.threads[tid];
      if t.name in s.counters then s.(threads := s.threads[tid := Holding(t.name, t.op, s.counters[t.name])])
      else s.(counters := s.counters[t.name := newCell], cells := s.cells[newCell := 0],
              threads := s.threads[tid := Holding(t.name, t.op, newCell)])
    case Operate(tid) =>
      var t := s.threads[tid];
      s.(cells := s.cells[t.cell := Effect(s.cells[t.cell], t.op)],
         threads := s.threads[tid := Finished(t.name, t.op)],
         log := s.log + [Entry(tid, t.name, t.op)])
  }

  function Run(s: State, ls: seq<Label>): Option<State>
    decreases |ls|
  {
    if ls == [] then Some(s)
    else if Enabled(s, ls[0]) then Run(Next(s, ls[0]), ls[1..])
    else None
  }

  /** Some names registered in advance, each with its own zero cell, and nobody running. */
  ghost predicate Initial(s: State) {
    && s.threads == map[] && s.log == []
    && (forall n :: n in s.counters ==> s.counters[n] in s.cells && s.cells[s.counters[n]] == 0)
    && (forall m, n :: m in s.counters && n in s.counters && s.counters[m] == s.counters[n] ==> m == n)
  }

  /** The value the operations on one name leave, in the order they took effect. */
  function Outcome(log: seq<Entry>, name: string): int {
    if log == [] then 0
    else
      var n := |log| - 1;
      if log[n].name == name then Effect(Outcome(log[..n], name), log[n].op) else Outcome(log[..n], name)
  }

  /** How often a call appears in the log. */
  function Times(log: seq<Entry>, e: Entry): nat {
    if log == [] then 0
    else
      var n := |log| - 1;
      Times(log[..n], e) + (if log[n] == e then 1 else 0)
  }

  ghost predicate CellsOk(s: State) {
    && (forall n :: n in s.counters ==> s.counters[n] in s.cells)
    && (forall m, n :: m in s.counters && n in s.counters && s.counters[m] == s.counters[n] ==> m == n)
    && (forall tid :: tid in s.threads && s.threads[tid].Holding? ==>
          s.threads[tid].name in s.counters && s.counters[s.threads[tid].name] == s.threads[tid].cell)
  }

  /** Each name's cell holds what the log says. */
  ghost predicate ValuesOk(s: State)
    requires CellsOk(s)
  {
    && (forall n :: n in s.counters ==> s.cells[s.counters[n]] == Outcome(s.log, n))
    && (forall n :: n !in s.counters ==> Outcome(s.log, n) == 0)
  }

  /** A call's entry is in the log once if it has finished and not at all before. */
  ghost predicate LogOk(s: State) {
    forall e: Entry :: Times(s.log, e)
      == if e.tid in s.threads && s.threads[e.tid] == Finished(e.name, e.op) then 1 else 0
  }

  ghost predicate Inv(s: State) {
    CellsOk(s) && ValuesOk(s) && LogOk(s)
  }

  lemma InitInv(s: State)
    requires Initial(s)
    ensures Inv(s)
  {
  }

  lemma OperateInv(s: State, tid: nat)
    requires Inv(s) && Enabled(s, Operate(tid))
    ensures Inv(Next(s, Operate(tid)))
  {
    var s' := Next(s, Operate(tid));
    var t := s.threads[tid];
    assert s'.log[..|s.log|] == s.log;
    forall e: Entry
      ensures Times(s'.log, e) == if e.tid in s'.threads && s'.threads[e.tid] == Finished(e.name, e.op) then 1 else 0
    {
      assert Times(s'.log, e) == Times(s.log, e) + (if e == Entry(tid, t.name, t.op) then 1 else 0);
    }
    forall n
      ensures n in s'.counters ==> s'.cells[s'.counters[n]] == Outcome(s'.log, n)
      ensures n !in s'.counters ==> Outcome(s'.log, n) == 0
    {
      assert Outcome(s'.log, n) == if n == t.name then Effect(Outcome(s.log, n), t.op) else Outcome(s.log, n);
    }
  }

  /** Beginning, looking and registering take no effect. */
  lemma QuietLog(s: State, l: Label)
    requires LogOk(s) && Enabled(s, l) && !l.Operate?
    ensures LogOk(Next(s, l))
  {
    var s' := Next(s, l);
    forall e: Entry
      ensures Times(s'.log, e) == if e.tid in s'.threads && s'.threads[e.tid] == Finished(e.name, e.op) then 1 else 0
    {
      assert Times(s.log, e) == if e.tid in s.threads && s.threads[e.tid] == Finished(e.name, e.op) then 1 else 0;
    }
  }

  lemma QuietCells(s: State, l: Label)
    requires CellsOk(s) && ValuesOk(s) && Enabled(s, l) && !l.Operate?
    ensures CellsOk(Next(s, l)) && ValuesOk(Next(s, l))
  {
  }

  lemma InvStep(s: State, l: Label)
    requires Inv(s) && Enabled(s, l)
    ensures Inv(Next(s, l))
    ensures forall n :: n in s.counters ==> n in Next(s, l).counters && Next(s, l).counters[n] == s.counters[n]
  {
    if l.Operate? {
      OperateInv(s, l.tid);
    } else {
      QuietLog(s, l);
      QuietCells(s, l);
    }
  }

  /**
   Over every interleaving: a name never changes cell once registered, every cell holds exactly what the finished
   calls on its name amount to, and each finished call took effect exactly once.
   */
  lemma {:induction false} NoLostUpdate(s: State, ls: seq<Label>)
    requires Inv(s) && Run(s, ls).Some?
    ensures Inv(Run(s, ls).value)
    ensures forall n :: n in s.counters ==>
              n in Run(s, ls).value.counters && Run(s, ls).value.counters[n] == s.counters[n]
    decreases |ls|
  {
    if ls != [] {
      InvStep(s, ls[0]);
      NoLostUpdate(Next(s, ls[0]), ls[1..]);
    }
  }

  /** The deltas of the operations on a name, if they were all additions. */
  function Deltas(log: seq<Entry>, name: string): int {
    if log == [] then 0
    else
      var n := |log| - 1;
      Deltas(log[..n], name) + (if log[n].name == name && log[n].op.Add? then log[n].op.delta else 0)
  }

  lemma WrapAdds(x: int, d: int)
    ensures Wrap(Wrap(x) + d) == Wrap(x + d)
  {
    var q := x / TWO64;
    assert x == q * TWO64 + x % TWO64;
    var k := if x % TWO64 >= TWO63 then q + 1 else q;
    assert Wrap(x) == x - k * TWO64;
    Shift(x + d, k);
  }

  lemma {:induction false} Shift(y: int, k: int)
    ensures (y - k * TWO64) % TWO64 == y % TWO64
    decreases if k < 0 then -k else k
  {
    if k > 0 {
      Shift(y, k - 1);
      assert y - k * TWO64 == (y - (k - 1) * TWO64) - TWO64;
    } else if k < 0 {
      Shift(y, k + 1);
      assert y - k * TWO64 == (y - (k + 1) * TWO64) + TWO64;
    }
  }

  lemma {:induction false} OnlyAddsSum(log: seq<Entry>, name: string)
    requires forall i :: 0 <= i < |log| && log[i].name == name ==> log[i].op.Add?
    ensures Outcome(log, name) == Wrap(Deltas(log, name))
  {
    if log != [] {
      var n := |log| - 1;
      OnlyAddsSum(log[..n], name);
      if log[n].name == name {
        WrapAdds(Deltas(log[..n], name), log[n].op.delta);
      }
    }
  }

  /** The last `Set` of a name wins over everything before it, and the additions after it add up. */
  lemma {:induction false} SinceLastSet(log: seq<Entry>, name: string, k: nat)
    requires k < |log| && log[k].name == name && log[k].op.Set? && Wrap(log[k].op.value) == log[k].op.value
    requires forall i :: k < i < |log| && log[i].name == name ==> log[i].op.Add?
    ensures Outcome(log, name) == Wrap(log[k].op.value + Deltas(log[k + 1..], name))
  {
    var n := |log| - 1;
    if k < n {
      SinceLastSet(log[..n], name, k);
      assert log[k + 1..][..n - k - 1] == log[..n][k + 1..];
      if log[n].name == name {
        WrapAdds(log[k].op.value + Deltas(log[..n][k + 1..], name), log[n].op.delta);
      }
    }
  }

  /**
   Any number of concurrent additions to one name, new or not, add up (in 64-bit arithmetic), each finished one
   counted once.
   */
  lemma ConcurrentAdds(s: State, ls: seq<Label>, name: string)
    requires Initial(s) && Run(s, ls).Some?
    requires var log := Run(s, ls).value.log;
             forall i :: 0 <= i < |log| && log[i].name == name ==> log[i].op.Add?
    ensures var s' := Run(s, ls).value;
            name in s'.counters ==> s'.counters[name] in s'.cells
                                    && s'.cells[s'.counters[name]] == Wrap(Deltas(s'.log, name))
    ensures LogOk(Run(s, ls).value)
  {
    InitInv(s);
    NoLostUpdate(s, ls);
    OnlyAddsSum(Run(s, ls).value.log, name);
  }
}
