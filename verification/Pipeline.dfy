/** The processing pipeline and its built-in stages (internal/pipeline/pipeline.go). */
module Pipeline {
  import opened Text
  import opened Events
  import opened Scoring
  import opened Storage

  datatype Stage = Validating | Enriching(ttl: int) | Scoring | Classifying | Persisting

  /** Fixed knowledge: the logarithm's values, the letter tables, and the season of a moment. */
  datatype Tables = Tables(bonus: BonusTable, letters: Letters, season: int -> string)

  /** What a run takes from outside: a fresh id and two readings of the clock. */
  datatype Env = Env(newId: string, created: int, processed: int, tables: Tables)

  function Score(tables: Tables, e: Event): real {
    FunScore(tables.bonus, tables.letters, e)
  }

  function Enrich(e: Event, ttl: int, env: Env): Event {
    var createdAt := if e.createdAt == 0 then env.created else e.createdAt;
    e.(id := if e.id == "" then env.newId else e.id,
       createdAt := createdAt,
       dayOfWeek := Weekday(createdAt),
       season := env.tables.season(createdAt),
       processedAt := env.processed,
       expiresAt := if ttl > 0 then createdAt + ttl else e.expiresAt)
  }

  /** The event after a stage; only Validating can fail, only Persisting touches the store. */
  function Processed(s: Stage, e: Event, env: Env): Event {
    match s
    case Enriching(ttl) => Enrich(e, ttl, env)
    case Scoring => e.(funScore := Score(env.tables, e))
    case Classifying => e.(priority := PriorityOf(e.funScore))
    case _ => e
  }

  predicate Fails(s: Stage, e: Event) {
    s.Validating? && Validate(e).Some?
  }

  datatype RunResult = RunResult(event: Event, failed: bool, primary: Primary)

  /** Every stage in order, stopping at the first error. */
  function RunStages(stages: seq<Stage>, e: Event, env: Env, primary: Primary): RunResult
    decreases |stages|
  {
    if stages == [] then RunResult(e, false, primary)
    else if Fails(stages[0], e) then RunResult(e, true, primary)
    else
      var e' := Processed(stages[0], e, env);
      RunStages(stages[1..], e', env, if stages[0].Persisting? then primary[e'.id := e'] else primary)
  }

  method Run(stages: seq<Stage>, e0: Event, env: Env, st: Store) returns (e: Event, failed: bool)
    requires st.Valid()
    modifies st
    ensures st.Valid()
    ensures RunResult(e, failed, st.primary) == RunStages(stages, e0, env, old(st.primary))
  {
    e := e0;
    failed := false;
    for i := 0 to |stages|
      invariant st.Valid() && !failed
      invariant RunStages(stages[i..], e, env, st.primary) == RunStages(stages, e0, env, old(st.primary))
    {
      var s := stages[i];
      assert stages[i..][0] == s && stages[i..][1..] == stages[i + 1..];
      if Fails(s, e) {
        return e, true;
      }
      e := Processed(s, e, env);
      if s.Persisting? {
        st.Put(e);
      }
    }
  }

  // ---- Pipelines whose only write is their last stage ----

  ghost predicate WritesLast(stages: seq<Stage>) {
    stages != [] && forall i :: 0 <= i < |stages| ==> (stages[i].Persisting? <==> i == |stages| - 1)
  }

  /** A run that fails leaves the store alone; one that succeeds writes exactly its final event. */
  lemma {:induction false} AllOrNothing(stages: seq<Stage>, e: Event, env: Env, primary: Primary)
    requires WritesLast(stages)
    ensures var r := RunStages(stages, e, env, primary);
            r.primary == if r.failed then primary else primary[r.event.id := r.event]
    decreases |stages|
  {
    if |stages| > 1 && !Fails(stages[0], e) {
      AllOrNothing(stages[1..], Processed(stages[0], e, env), env, primary);
    } else if |stages| == 1 {
      assert stages[1..] == [];
    }
  }

  /** The pipeline both programs build. */
  function Standard(ttl: int): seq<Stage> {
    [Validating, Enriching(ttl), Scoring, Classifying, Persisting]
  }

  /** The event the standard pipeline stores. */
  function FinalEvent(ttl: int, e: Event, env: Env): Event {
    var enriched := Enrich(e, ttl, env);
    var scored := enriched.(funScore := Score(env.tables, enriched));
    scored.(priority := PriorityOf(scored.funScore))
  }

  lemma StandardRun(ttl: int, e: Event, env: Env, primary: Primary)
    ensures RunStages(Standard(ttl), e, env, primary)
         == if Validate(e).Some? then RunResult(e, true, primary)
            else var d := FinalEvent(ttl, e, env); RunResult(d, false, primary[d.id := d])
    ensures RunStages(Standard(ttl), e, env, primary).failed
       <==> !(Visible(e.name) && Visible(e.category) && 1 <= e.mood <= 10)
  {
    ValidIff(e);
    var ls := Standard(ttl);
    assert ls[1..] == [Enriching(ttl), Scoring, Classifying, Persisting];
    assert ls[1..][1..] == [Scoring, Classifying, Persisting];
    assert ls[1..][1..][1..] == [Classifying, Persisting];
    assert ls[1..][1..][1..][1..] == [Persisting];
    if Validate(e).None? {
      var e1 := Enrich(e, ttl, env);
      var e2 := e1.(funScore := Score(env.tables, e1));
      var e3 := e2.(priority := PriorityOf(e2.funScore));
      assert RunStages([Persisting], e3, env, primary) == RunResult(e3, false, primary[e3.id := e3]) by {
        assert [Persisting][1..] == [];
      }
      assert RunStages([Classifying, Persisting], e2, env, primary) == RunStages([Persisting], e3, env, primary);
      assert RunStages([Scoring, Classifying, Persisting], e1, env, primary)
          == RunStages([Classifying, Persisting], e2, env, primary);
    }
  }

  /**
   What reaches the store through the standard pipeline: the submitted name, category, mood and tags; the id and
   creation time the event came with, or else new ones; the day and season of that time; its own score and the tier
   that earns; and an expiry one TTL after creation.
   */
  lemma StoredEvent(ttl: int, e: Event, env: Env)
    requires Validate(e).None?
    ensures var d := FinalEvent(ttl, e, env);
            && (d.name, d.category, d.mood, d.tags) == (e.name, e.category, e.mood, e.tags)
            && d.id == (if e.id == "" then env.newId else e.id)
            && d.createdAt == (if e.createdAt == 0 then env.created else e.createdAt)
            && d.dayOfWeek == Weekday(d.createdAt) && d.season == env.tables.season(d.createdAt)
            && d.processedAt == env.processed
            && d.expiresAt == (if ttl > 0 then d.createdAt + ttl else e.expiresAt)
            && d.funScore == FunScore(env.tables.bonus, env.tables.letters, d) && 9.0 <= d.funScore <= 100.0
            && Tiered(d)
            && Validate(d).None?
  {
    var enriched := Enrich(e, ttl, env);
    assert Validate(enriched).None?;
    ScoreRange(env.tables.bonus, env.tables.letters, enriched);
    var score := Score(env.tables, enriched);
    ScoreIgnores(env.tables.bonus, env.tables.letters, enriched, score, PriorityOf(score));
    assert FinalEvent(ttl, e, env) == enriched.(funScore := score, priority := PriorityOf(score));
  }

  /**
   A well-formed stored event, in plain terms: something visible in its name and its category, a mood from 1 to 10, a
   score from 9 to 100, the tier that score earns (tiers meet at 30, 55 and 80), and an expiry one TTL after creation.
   */
  ghost predicate WellFormed(ttl: int, e: Event) {
    && Visible(e.name) && Visible(e.category) && 1 <= e.mood <= 10
    && 9.0 <= e.funScore <= 100.0
    && (e.funScore >= 80.0 ==> e.priority == "critical")
    && (55.0 <= e.funScore < 80.0 ==> e.priority == "high")
    && (30.0 <= e.funScore < 55.0 ==> e.priority == "medium")
    && (e.funScore < 30.0 ==> e.priority == "low")
    && (ttl > 0 ==> e.expiresAt == e.createdAt + ttl)
  }

  /** `d` is `e` as far as a submission decides it. */
  predicate CopyOf(e: Event, d: Event) {
    && (d.name, d.category, d.mood, d.tags) == (e.name, e.category, e.mood, e.tags)
    && (e.id != "" ==> d.id == e.id)
    && (e.createdAt != 0 ==> d.createdAt == e.createdAt)
  }

  lemma FinalEventWellFormed(ttl: int, e: Event, env: Env)
    requires Validate(e).None?
    ensures WellFormed(ttl, FinalEvent(ttl, e, env)) && CopyOf(e, FinalEvent(ttl, e, env))
  {
    StoredEvent(ttl, e, env);
    ValidIff(FinalEvent(ttl, e, env));
  }

  /** Sending a stored event through again changes nothing but the processing time. */
  lemma Reprocessed(ttl: int, e: Event, env: Env, env': Env)
    requires Validate(e).None? && env.newId != "" && env.created != 0 && env'.tables == env.tables
    ensures var d := FinalEvent(ttl, e, env);
            && Validate(d).None?
            && FinalEvent(ttl, d, env') == d.(processedAt := env'.processed)
  {
    StoredEvent(ttl, e, env);
    var d := FinalEvent(ttl, e, env);
    assert Enrich(d, ttl, env') == d.(processedAt := env'.processed);
  }
}
