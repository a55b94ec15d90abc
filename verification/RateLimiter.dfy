/** The token-bucket rate limiter (internal/middleware/middleware.go:108-153), times in seconds over the reals. */
module RateLimiter {
  import opened Prelude

  datatype State = State(tokens: real, lastTime: real)
  type Table = map<string, State>

  datatype Request = Request(key: string, at: real)

  /** Tokens earned between two moments. */
  function Gain(rps: real, from: real, to: real): real {
    (to - from) * rps
  }

  lemma GainIs(rps: real, from: real, to: real)
    ensures Gain(rps, from, to) == rps * (to - from)
  {
  }

  function Refilled(rps: real, burst: int, b: State, now: real): real {
    Min(burst as real, b.tokens + Gain(rps, b.lastTime, now))
  }

  predicate Admits(rps: real, burst: int, table: Table, r: Request) {
    r.key !in table || Refilled(rps, burst, table[r.key], r.at) >= 1.0
  }

  /** The table after a request: a new bucket starts one token down, an old one is refilled and pays if it can. */
  function Charge(rps: real, burst: int, table: Table, r: Request): Table {
    if r.key !in table then table[r.key := State(burst as real - 1.0, r.at)]
    else
      var tokens := Refilled(rps, burst, table[r.key], r.at);
      table[r.key := State(if tokens < 1.0 then tokens else tokens - 1.0, r.at)]
  }

  class Bucket {
    var tokens: real
    var lastTime: real

    constructor (tokens: real, lastTime: real)
      ensures this.tokens == tokens && this.lastTime == lastTime
    {
      this.tokens, this.lastTime := tokens, lastTime;
    }
  }

  class Limiter {
    var buckets: map<string, Bucket>
    const rps: real
    const burst: int

    /** No two keys share a bucket object. */
    ghost predicate Valid()
      reads this
    {
      forall j, k :: j in buckets && k in buckets && buckets[j] == buckets[k] ==> j == k
    }

    ghost function Contents(): Table
      reads this, buckets.Values
    {
      map key | key in buckets :: State(buckets[key].tokens, buckets[key].lastTime)
    }

    constructor (rps: real, burst: int)
      ensures Valid() && Contents() == map[] && this.rps == rps && this.burst == burst
    {
      this.rps, this.burst := rps, burst;
      buckets := map[];
    }

    method Allow(key: string, now: real) returns (ok: bool)
      requires Valid()
      modifies this`buckets, buckets.Values
      ensures Valid()
      ensures ok == Admits(rps, burst, old(Contents()), Request(key, now))
      ensures Contents() == Charge(rps, burst, old(Contents()), Request(key, now))
    {
      if key !in buckets {
        var b := new Bucket(burst as real - 1.0, now);
        buckets := buckets[key := b];
        return true;
      }
      var b := buckets[key];
      assert b in buckets.Values;
      var elapsed := now - b.lastTime;
      assert elapsed * rps == Gain(rps, b.lastTime, now);
      b.tokens := b.tokens + elapsed * rps;
      if b.tokens > burst as real {
        b.tokens := burst as real;
      }
      b.lastTime := now;
      if b.tokens < 1.0 {
        return false;
      }
      b.tokens := b.tokens - 1.0;
      return true;
    }
  }

  // ---- One request, in plain arithmetic ----

  /**
   A bucket that held `x` tokens at time `s` holds min(burst, x + rps (t - s)) at time t; the request is admitted if
   that is at least 1, and then costs 1.
   */
  lemma RefillLaw(rps: real, burst: int, table: Table, key: string, x: real, s: real, t: real)
    requires key in table && table[key] == State(x, s)
    ensures var full := x + rps * (t - s);
            var now := if full > burst as real then burst as real else full;
            && (Admits(rps, burst, table, Request(key, t)) <==> now >= 1.0)
            && Charge(rps, burst, table, Request(key, t))
                 == table[key := State(if now >= 1.0 then now - 1.0 else now, t)]
  {
    GainIs(rps, s, t);
  }

  /** So a bucket empty at time `s` admits again exactly from one refill period later. */
  lemma EmptyRefills(rps: real, burst: int, table: Table, key: string, s: real, t: real)
    requires burst >= 1 && key in table && table[key] == State(0.0, s)
    ensures Admits(rps, burst, table, Request(key, t)) <==> rps * (t - s) >= 1.0
  {
    RefillLaw(rps, burst, table, key, 0.0, s, t);
  }

  /** A key's first request is admitted and leaves burst - 1 tokens. */
  lemma FirstRequest(rps: real, burst: int, table: Table, key: string, t: real)
    requires key !in table
    ensures Admits(rps, burst, table, Request(key, t))
    ensures Charge(rps, burst, table, Request(key, t)) == table[key := State(burst as real - 1.0, t)]
  {
  }

  // ---- Traces ----

  function Answers(rps: real, burst: int, table: Table, reqs: seq<Request>): seq<bool>
    decreases |reqs|
  {
    if reqs == [] then []
    else [Admits(rps, burst, table, reqs[0])] + Answers(rps, burst, Charge(rps, burst, table, reqs[0]), reqs[1..])
  }

  function After(rps: real, burst: int, table: Table, reqs: seq<Request>): Table
    decreases |reqs|
  {
    if reqs == [] then table else After(rps, burst, Charge(rps, burst, table, reqs[0]), reqs[1..])
  }

  /** How many requests of a key were let through. */
  function Admitted(reqs: seq<Request>, answers: seq<bool>, key: string): nat
    requires |reqs| == |answers|
  {
    if reqs == [] then 0
    else (if reqs[0].key == key && answers[0] then 1 else 0) + Admitted(reqs[1..], answers[1..], key)
  }

  lemma {:induction false} AnswersLength(rps: real, burst: int, table: Table, reqs: seq<Request>)
    ensures |Answers(rps, burst, table, reqs)| == |reqs|
    decreases |reqs|
  {
    if reqs != [] {
      AnswersLength(rps, burst, Charge(rps, burst, table, reqs[0]), reqs[1..]);
    }
  }

  lemma {:induction false} AnswersSplit(rps: real, burst: int, table: Table, xs: seq<Request>, ys: seq<Request>)
    ensures Answers(rps, burst, table, xs + ys)
         == Answers(rps, burst, table, xs) + Answers(rps, burst, After(rps, burst, table, xs), ys)
    decreases |xs|
  {
    if xs == [] {
      assert xs + ys == ys;
    } else {
      assert (xs + ys)[1..] == xs[1..] + ys;
      AnswersSplit(rps, burst, Charge(rps, burst, table, xs[0]), xs[1..], ys);
    }
  }

  /** The clock never runs backwards. */
  ghost predicate InOrder(reqs: seq<Request>) {
    forall i, j :: 0 <= i <= j < |reqs| ==> reqs[i].at <= reqs[j].at
  }

  /** Every bucket holds between 0 and `burst` tokens and was last touched no later than `now`. */
  ghost predicate TableOk(burst: int, table: Table, now: real) {
    forall key :: key in table ==> 0.0 <= table[key].tokens <= burst as real && table[key].lastTime <= now
  }

  lemma GainGrows(rps: real, from: real, to: real)
    requires rps >= 0.0 && from <= to
    ensures Gain(rps, from, to) >= 0.0
  {
  }

  lemma GainAdds(rps: real, from: real, mid: real, to: real)
    ensures Gain(rps, from, to) == Gain(rps, from, mid) + Gain(rps, mid, to)
    ensures Gain(rps, from, from) == 0.0
  {
  }

  lemma ChargeOk(rps: real, burst: int, table: Table, r: Request)
    requires burst >= 1 && rps >= 0.0 && TableOk(burst, table, r.at)
    ensures TableOk(burst, Charge(rps, burst, table, r), r.at)
  {
    if r.key in table {
      RefillNonNegative(rps, burst, table[r.key], r.at);
    }
  }

  lemma {:induction false} AfterOk(rps: real, burst: int, table: Table, reqs: seq<Request>, from: real, to: real)
    requires burst >= 1 && rps >= 0.0 && TableOk(burst, table, from) && InOrder(reqs)
    requires forall i :: 0 <= i < |reqs| ==> from <= reqs[i].at <= to
    requires from <= to
    ensures TableOk(burst, After(rps, burst, table, reqs), to)
    decreases |reqs|
  {
    if reqs != [] {
      ChargeOk(rps, burst, table, reqs[0]);
      AfterOk(rps, burst, Charge(rps, burst, table, reqs[0]), reqs[1..], reqs[0].at, to);
    }
  }

  // ---- The bound ----

  /** What a key could spend at once at time `now`; a key never seen has a full bucket. */
  function Level(rps: real, burst: int, table: Table, key: string, now: real): real {
    if key in table then Refilled(rps, burst, table[key], now) else burst as real
  }

  /** Waiting raises the level by at most rps per second. */
  lemma LevelRises(rps: real, burst: int, table: Table, key: string, from: real, to: real)
    requires rps >= 0.0 && from <= to
    ensures Level(rps, burst, table, key, to) <= Level(rps, burst, table, key, from) + Gain(rps, from, to)
  {
    GainGrows(rps, from, to);
    if key in table {
      GainAdds(rps, table[key].lastTime, from, to);
    }
  }

  /** No time, no refill. */
  lemma RefilledNow(rps: real, burst: int, tokens: real, at: real)
    ensures Refilled(rps, burst, State(tokens, at), at) == Min(burst as real, tokens)
  {
    GainAdds(rps, at, at, at);
  }

  /** A request costs its key one token if admitted and nothing otherwise, and other keys nothing at all. */
  lemma LevelPays(rps: real, burst: int, table: Table, key: string, r: Request)
    requires burst >= 1
    ensures Level(rps, burst, Charge(rps, burst, table, r), key, r.at)
          + (if r.key == key && Admits(rps, burst, table, r) then 1.0 else 0.0)
          == Level(rps, burst, table, key, r.at)
  {
    if r.key == key {
      RefilledNow(rps, burst, Charge(rps, burst, table, r)[key].tokens, r.at);
    }
  }

  lemma AccountStep(rps: real, burst: int, table: Table, r: Request, key: string, from: real)
    requires burst >= 1 && rps >= 0.0 && from <= r.at
    ensures Level(rps, burst, Charge(rps, burst, table, r), key, r.at)
          + (if r.key == key && Admits(rps, burst, table, r) then 1.0 else 0.0)
          <= Level(rps, burst, table, key, from) + Gain(rps, from, r.at)
  {
    LevelRises(rps, burst, table, key, from, r.at);
    LevelPays(rps, burst, table, key, r);
  }

  lemma Telescope(one: nat, rest: nat, end: real, mid: real, start: real, g1: real, g2: real)
    requires rest as real + end <= mid + g2 && mid + one as real <= start + g1
    ensures (one + rest) as real + end <= start + (g1 + g2)
  {
  }

  /** The telescoped account of a window: admissions plus what is left is at most what there was plus the refill. */
  lemma {:induction false} AccountGain(rps: real, burst: int, table: Table, reqs: seq<Request>,
                key: string, from: real, to: real)
    requires burst >= 1 && rps >= 0.0 && InOrder(reqs) && from <= to
    requires forall i :: 0 <= i < |reqs| ==> from <= reqs[i].at <= to
    ensures |Answers(rps, burst, table, reqs)| == |reqs|
    ensures Admitted(reqs, Answers(rps, burst, table, reqs), key) as real
          + Level(rps, burst, After(rps, burst, table, reqs), key, to)
          <= Level(rps, burst, table, key, from) + Gain(rps, from, to)
    decreases |reqs|
  {
    AnswersLength(rps, burst, table, reqs);
    if reqs == [] {
      LevelRises(rps, burst, table, key, from, to);
    } else {
      var r, rest := reqs[0], reqs[1..];
      var table' := Charge(rps, burst, table, r);
      AccountGain(rps, burst, table', rest, key, r.at, to);
      AccountStep(rps, burst, table, r, key, from);
      GainAdds(rps, from, r.at, to);
      assert Answers(rps, burst, table, reqs) == [Admits(rps, burst, table, r)] + Answers(rps, burst, table', rest);
      Telescope(if r.key == key && Admits(rps, burst, table, r) then 1 else 0,
                Admitted(rest, Answers(rps, burst, table', rest), key),
                Level(rps, burst, After(rps, burst, table', rest), key, to), Level(rps, burst, table', key, r.at),
                Level(rps, burst, table, key, from), Gain(rps, from, r.at), Gain(rps, r.at, to));
    }
  }

  /** The same in plain arithmetic. */
  lemma Account(rps: real, burst: int, table: Table, reqs: seq<Request>, key: string, from: real, to: real)
    requires burst >= 1 && rps >= 0.0 && InOrder(reqs) && from <= to
    requires forall i :: 0 <= i < |reqs| ==> from <= reqs[i].at <= to
    ensures |Answers(rps, burst, table, reqs)| == |reqs|
    ensures Admitted(reqs, Answers(rps, burst, table, reqs), key) as real
          + Level(rps, burst, After(rps, burst, table, reqs), key, to)
          <= Level(rps, burst, table, key, from) + rps * (to - from)
  {
    AccountGain(rps, burst, table, reqs, key, from, to);
    GainIs(rps, from, to);
  }

  /** Requests `i` to `j` of a trace admit at most burst + rps * (their duration) of any one key. */
  ghost predicate WindowBound(rps: real, burst: int, reqs: seq<Request>, key: string, i: nat, j: nat)
    requires i <= j < |reqs|
  {
    var answers := Answers(rps, burst, map[], reqs);
    |answers| == |reqs| &&
    Admitted(reqs[i..j + 1], answers[i..j + 1], key) as real <= burst as real + rps * (reqs[j].at - reqs[i].at)
  }

  /** The answers given inside a window are those of the window run from the table it starts with. */
  lemma WindowAnswers(rps: real, burst: int, reqs: seq<Request>, i: nat, j: nat)
    requires i <= j < |reqs|
    ensures |Answers(rps, burst, map[], reqs)| == |reqs|
    ensures Answers(rps, burst, map[], reqs)[i..j + 1]
         == Answers(rps, burst, After(rps, burst, map[], reqs[..i]), reqs[i..j + 1])
  {
    var pre, window, post := reqs[..i], reqs[i..j + 1], reqs[j + 1..];
    var table := After(rps, burst, map[], pre);
    assert reqs == pre + (window + post);
    AnswersSplit(rps, burst, map[], pre, window + post);
    AnswersSplit(rps, burst, table, window, post);
    AnswersLength(rps, burst, map[], pre);
    AnswersLength(rps, burst, table, window);
    AnswersLength(rps, burst, map[], reqs);
  }

  lemma WindowBoundHolds(rps: real, burst: int, reqs: seq<Request>, key: string, i: nat, j: nat)
    requires burst >= 1 && rps >= 0.0 && InOrder(reqs) && i <= j < |reqs|
    ensures WindowBound(rps, burst, reqs, key, i, j)
  {
    var pre, window := reqs[..i], reqs[i..j + 1];
    var table := After(rps, burst, map[], pre);
    var t0, t1 := reqs[i].at, reqs[j].at;
    WindowAnswers(rps, burst, reqs, i, j);
    AfterOk(rps, burst, map[], pre, if i > 0 then pre[0].at else t0, t0);
    WindowCount(rps, burst, table, window, key, t0, t1);
    GainIs(rps, t0, t1);
  }

  lemma WindowCount(rps: real, burst: int, table: Table, window: seq<Request>, key: string, t0: real, t1: real)
    requires burst >= 1 && rps >= 0.0 && InOrder(window) && t0 <= t1 && TableOk(burst, table, t0)
    requires forall i :: 0 <= i < |window| ==> t0 <= window[i].at <= t1
    ensures |Answers(rps, burst, table, window)| == |window|
    ensures Admitted(window, Answers(rps, burst, table, window), key) as real <= burst as real + Gain(rps, t0, t1)
  {
    AccountGain(rps, burst, table, window, key, t0, t1);
    AfterOk(rps, burst, table, window, t0, t1);
    LevelInRange(rps, burst, table, key, t0);
    LevelInRange(rps, burst, After(rps, burst, table, window), key, t1);
  }

  lemma LevelInRange(rps: real, burst: int, table: Table, key: string, now: real)
    requires burst >= 1 && rps >= 0.0 && TableOk(burst, table, now)
    ensures 0.0 <= Level(rps, burst, table, key, now) <= burst as real
  {
    if key in table {
      RefillNonNegative(rps, burst, table[key], now);
    }
  }

  lemma RefillNonNegative(rps: real, burst: int, b: State, now: real)
    requires burst >= 1 && rps >= 0.0 && 0.0 <= b.tokens && b.lastTime <= now
    ensures 0.0 <= Refilled(rps, burst, b, now) <= burst as real
  {
    GainGrows(rps, b.lastTime, now);
  }

  /** For every trace and window the bound holds if and only if the configured burst is at least 1. */
  lemma WindowBoundIff(rps: real, burst: int)
    requires rps >= 0.0
    ensures (forall reqs, key, i: nat, j: nat :: InOrder(reqs) && i <= j < |reqs| ==>
               WindowBound(rps, burst, reqs, key, i, j))
       <==> burst >= 1
  {
    if burst >= 1 {
      forall reqs, key, i: nat, j: nat | InOrder(reqs) && i <= j < |reqs|
        ensures WindowBound(rps, burst, reqs, key, i, j)
      {
        WindowBoundHolds(rps, burst, reqs, key, i, j);
      }
    } else {
      var reqs := [Request("k", 0.0)];
      AnswersLength(rps, burst, map[], reqs);
      assert Answers(rps, burst, map[], reqs)[0];
      assert reqs[0..0 + 1] == reqs;
      assert rps * (0.0 - 0.0) == 0.0;
      assert !WindowBound(rps, burst, reqs, "k", 0, 0);
    }
  }

  /** In every trace from an empty limiter, tokens stay between 0 and the burst size. */
  lemma TokensInRange(rps: real, burst: int, reqs: seq<Request>, key: string)
    requires burst >= 1 && rps >= 0.0 && InOrder(reqs)
    requires key in After(rps, burst, map[], reqs)
    ensures 0.0 <= After(rps, burst, map[], reqs)[key].tokens <= burst as real
  {
    if reqs != [] {
      AfterOk(rps, burst, map[], reqs, reqs[0].at, reqs[|reqs| - 1].at);
    }
  }

  // ---- Fairness ----

  /** Requests of one key are at least 1/rps apart. */
  ghost predicate SpacedGain(rps: real, reqs: seq<Request>, key: string) {
    forall i, j :: 0 <= i < j < |reqs| && reqs[i].key == key && reqs[j].key == key ==>
                     Gain(rps, reqs[i].at, reqs[j].at) >= 1.0
  }

  /** A key that keeps to the rate is never refused, whatever the other keys do. */
  lemma {:induction false} SpacedByGain(rps: real, burst: int, table: Table, reqs: seq<Request>,
                key: string, now: real)
    requires burst >= 1 && rps > 0.0 && TableOk(burst, table, now) && InOrder(reqs) && SpacedGain(rps, reqs, key)
    requires forall i :: 0 <= i < |reqs| ==> now <= reqs[i].at
    requires key in table ==>
               forall i :: 0 <= i < |reqs| && reqs[i].key == key ==> Gain(rps, table[key].lastTime, reqs[i].at) >= 1.0
    ensures |Answers(rps, burst, table, reqs)| == |reqs|
    ensures forall i :: 0 <= i < |reqs| && reqs[i].key == key ==> Answers(rps, burst, table, reqs)[i]
    decreases |reqs|
  {
    if reqs != [] {
      var r, rest := reqs[0], reqs[1..];
      var table' := Charge(rps, burst, table, r);
      ChargeOk(rps, burst, table, r);
      if r.key == key {
        assert table'[key].lastTime == r.at;
        if key in table {
          OnTime(rps, burst, table[key], r.at);
        }
      }
      forall i | key in table' && 0 <= i < |rest| && rest[i].key == key
        ensures Gain(rps, table'[key].lastTime, rest[i].at) >= 1.0
      {
        assert rest[i] == reqs[i + 1];
      }
      assert SpacedGain(rps, rest, key) by {
        assert forall i :: 0 <= i < |rest| ==> rest[i] == reqs[i + 1];
      }
      SpacedByGain(rps, burst, table', rest, key, r.at);
      assert Answers(rps, burst, table, reqs) == [Admits(rps, burst, table, r)] + Answers(rps, burst, table', rest);
    }
  }

  lemma OnTime(rps: real, burst: int, b: State, now: real)
    requires burst >= 1 && b.tokens >= 0.0 && Gain(rps, b.lastTime, now) >= 1.0
    ensures Refilled(rps, burst, b, now) >= 1.0
  {
  }

  /** Requests of one key are at least one refill period apart. */
  ghost predicate Spaced(rps: real, reqs: seq<Request>, key: string) {
    forall i, j :: 0 <= i < j < |reqs| && reqs[i].key == key && reqs[j].key == key ==>
                     rps * (reqs[j].at - reqs[i].at) >= 1.0
  }

  /** The same in plain arithmetic, for a key that starts fresh. */
  lemma SpacedNeverRefused(rps: real, burst: int, reqs: seq<Request>, key: string)
    requires burst >= 1 && rps > 0.0 && InOrder(reqs) && Spaced(rps, reqs, key)
    ensures |Answers(rps, burst, map[], reqs)| == |reqs|
    ensures forall i :: 0 <= i < |reqs| && reqs[i].key == key ==> Answers(rps, burst, map[], reqs)[i]
  {
    forall i, j | 0 <= i < j < |reqs| && reqs[i].key == key && reqs[j].key == key
      ensures Gain(rps, reqs[i].at, reqs[j].at) >= 1.0
    {
      GainIs(rps, reqs[i].at, reqs[j].at);
    }
    SpacedByGain(rps, burst, map[], reqs, key, if reqs == [] then 0.0 else reqs[0].at);
  }

  function Only(reqs: seq<Request>, key: string): seq<Request> {
    if reqs == [] then []
    else (if reqs[0].key == key then [reqs[0]] else []) + Only(reqs[1..], key)
  }

  function OnlyAnswers(reqs: seq<Request>, answers: seq<bool>, key: string): seq<bool>
    requires |reqs| == |answers|
  {
    if reqs == [] then []
    else (if reqs[0].key == key then [answers[0]] else []) + OnlyAnswers(reqs[1..], answers[1..], key)
  }

  ghost predicate SameBucket(s: Table, t: Table, key: string) {
    (key in s <==> key in t) && (key in s ==> s[key] == t[key])
  }

  /** What a key is answered depends on its own requests alone. */
  lemma {:induction false} KeysIndependent(rps: real, burst: int, s: Table, t: Table, reqs: seq<Request>, key: string)
    requires SameBucket(s, t, key)
    ensures |Answers(rps, burst, s, reqs)| == |reqs|
    ensures OnlyAnswers(reqs, Answers(rps, burst, s, reqs), key) == Answers(rps, burst, t, Only(reqs, key))
    decreases |reqs|
  {
    AnswersLength(rps, burst, s, reqs);
    if reqs != [] {
      var r := reqs[0];
      var s' := Charge(rps, burst, s, r);
      assert Answers(rps, burst, s, reqs)[1..] == Answers(rps, burst, s', reqs[1..]);
      if r.key == key {
        assert Only(reqs, key) == [r] + Only(reqs[1..], key);
        assert Only(reqs, key)[1..] == Only(reqs[1..], key);
        KeysIndependent(rps, burst, s', Charge(rps, burst, t, r), reqs[1..], key);
      } else {
        assert Only(reqs, key) == Only(reqs[1..], key);
        KeysIndependent(rps, burst, s', t, reqs[1..], key);
      }
    }
  }

  /** The bound is tight: of n requests of a new key at one moment, exactly min(n, burst) pass. */
  lemma BurstIsExact(rps: real, burst: int, key: string, at: real, n: nat)
    requires burst >= 1 && rps >= 0.0
    ensures var reqs := seq(n, _ => Request(key, at));
            |Answers(rps, burst, map[], reqs)| == n
            && Admitted(reqs, Answers(rps, burst, map[], reqs), key) == if n < burst then n else burst
  {
    var reqs := seq(n, _ => Request(key, at));
    if n > 0 {
      var table := Charge(rps, burst, map[], reqs[0]);
      AnswersLength(rps, burst, map[], reqs);
      assert Answers(rps, burst, map[], reqs)[1..] == Answers(rps, burst, table, reqs[1..]);
      Spend(rps, burst, table, reqs[1..], key, at, burst - 1);
    }
  }

  lemma {:induction false} Spend(rps: real, burst: int, table: Table, reqs: seq<Request>, key: string,
                at: real, left: nat)
    requires left <= burst && key in table && table[key] == State(left as real, at)
    requires forall i :: 0 <= i < |reqs| ==> reqs[i] == Request(key, at)
    ensures |Answers(rps, burst, table, reqs)| == |reqs|
    ensures Admitted(reqs, Answers(rps, burst, table, reqs), key) == if |reqs| < left then |reqs| else left
    decreases |reqs|
  {
    AnswersLength(rps, burst, table, reqs);
    if reqs != [] {
      RefilledNow(rps, burst, left as real, at);
      var table' := Charge(rps, burst, table, reqs[0]);
      assert Answers(rps, burst, table, reqs)[1..] == Answers(rps, burst, table', reqs[1..]);
      Spend(rps, burst, table', reqs[1..], key, at, if left > 0 then left - 1 else 0);
    }
  }
}
