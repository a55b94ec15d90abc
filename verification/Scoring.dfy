/** The fun score and the tier it decides (internal/pipeline/pipeline.go:92-148), over the reals. */
module Scoring {
  import opened Prelude
  import opened Text
  import opened Events

  /**
   min(20, 5 log2(n + 1)) for n = 0 .. 15; longer names get 20. Any values are allowed that agree with the
   logarithm where it is rational, rise strictly, and turn products into sums.
   */
  predicate IsBonusTable(b: seq<real>) {
    && |b| == 16
    && b[0] == 0.0 && b[1] == 5.0 && b[3] == 10.0 && b[7] == 15.0 && b[15] == 20.0
    && b[5] == b[1] + b[2] && b[8] == b[2] + b[2] && b[9] == b[1] + b[4]
    && b[11] == b[2] + b[3] && b[13] == b[1] + b[6] && b[14] == b[2] + b[4]
    && forall i, j :: 0 <= i < j < 16 ==> b[i] < b[j]
  }

  type BonusTable = b: seq<real> | IsBonusTable(b)
    witness [0.0, 5.0, 7.9, 10.0, 11.6, 12.9, 14.0, 15.0, 15.8, 16.6, 17.2, 17.9, 18.5, 19.0, 19.5, 20.0]

  function NameBonus(b: BonusTable, n: nat): real {
    if n >= 15 then 20.0 else b[n]
  }

  /** The number of bytes of a character in UTF-8. */
  function Width(c: char): nat {
    var n := c as int;
    if n < 0x80 then 1 else if n < 0x800 then 2 else if n < 0x10000 then 3 else 4
  }

  /** Go's len of a string. */
  function ByteLength(s: string): (n: nat)
    ensures n >= |s|
  {
    if s == "" then 0 else Width(s[0]) + ByteLength(s[1..])
  }

  function Multiplier(u: Letters, category: string): real {
    var c := Lower(u, category);
    if c == "outdoors" || c == "adventure" then 1.5
    else if c == "social" || c == "games" then 1.3
    else if c == "creative" || c == "music" then 1.2
    else if c == "food" || c == "cooking" then 1.1
    else 1.0
  }

  function Max(x: real, y: real): real {
    if x >= y then x else y
  }

  function TagBonus(tags: nat): real {
    Min(10.0, tags as real * 2.0)
  }

  function Core(b: BonusTable, e: Event): real {
    e.mood as real * 4.0 + NameBonus(b, ByteLength(e.name))
  }

  function Combine(core: real, multiplier: real, weekend: bool, tags: nat): real {
    core * multiplier + (if weekend then 10.0 else 0.0) + TagBonus(tags)
  }

  function RawScore(b: BonusTable, u: Letters, e: Event): real {
    Combine(Core(b, e), Multiplier(u, e.category), IsWeekend(e.createdAt), |e.tags|)
  }

  /** math.Round(x * 100) / 100 for x >= 0. */
  function RoundCents(x: real): real {
    (x * 100.0 + 0.5).Floor as real / 100.0
  }

  function Settle(score: real): real {
    RoundCents(Min(100.0, Max(0.0, score)))
  }

  function FunScore(b: BonusTable, u: Letters, e: Event): real {
    Settle(RawScore(b, u, e))
  }

  // ---- The parts of the score, spelled out ----

  lemma MultiplierTable(u: Letters, category: string)
    ensures Multiplier(u, category) == 1.5 <==> Lower(u, category) in {"outdoors", "adventure"}
    ensures Multiplier(u, category) == 1.3 <==> Lower(u, category) in {"social", "games"}
    ensures Multiplier(u, category) == 1.2 <==> Lower(u, category) in {"creative", "music"}
    ensures Multiplier(u, category) == 1.1 <==> Lower(u, category) in {"food", "cooking"}
    ensures Multiplier(u, category) in {1.0, 1.1, 1.2, 1.3, 1.5}
  {
  }

  /** UTF-8 spends the fewest bytes that hold the code point: 7, 11, 16 or 21 bits. */
  lemma WidthFits(c: char)
    ensures 1 <= Width(c) <= 4
    ensures Width(c) == 1 <==> c as int < 128
    ensures Width(c) <= 2 <==> c as int < 2048
    ensures Width(c) <= 3 <==> c as int < 65536
  {
  }

  /** The length in bytes adds up, and is the number of letters for ASCII. */
  lemma {:induction false} ByteLengthLaws(s: string, t: string)
    ensures ByteLength(s + t) == ByteLength(s) + ByteLength(t)
    ensures ByteLength(s) == |s| <==> Ascii(s)
  {
    if s == "" {
      assert s + t == t;
    } else {
      assert (s + t)[1..] == s[1..] + t;
      assert s == [s[0]] + s[1..];
      ByteLengthLaws(s[1..], t);
      WidthFits(s[0]);
      assert Ascii(s) <==> IsAscii(s[0]) && Ascii(s[1..]);
    }
  }

  /** The name bonus is 5 log2(n + 1), capped at 20: exact where that is rational, rising strictly up to the cap. */
  lemma BonusLaw(b: BonusTable, n: nat, m: nat)
    ensures NameBonus(b, 0) == 0.0 && NameBonus(b, 1) == 5.0 && NameBonus(b, 3) == 10.0 && NameBonus(b, 7) == 15.0
    ensures n >= 15 ==> NameBonus(b, n) == 20.0
    ensures n < m && n < 15 ==> NameBonus(b, n) < NameBonus(b, m)
  {
    if n < 15 <= m {
      assert b[n] < b[15];
    } else if n < m < 15 {
      assert b[n] < b[m];
    }
  }

  /** ... and like a logarithm it turns products of n + 1 into sums, as far as the cap allows. */
  lemma BonusProduct(b: BonusTable, n: nat, m: nat, k: nat)
    requires (n + 1) * (m + 1) == k + 1 <= 16
    ensures NameBonus(b, k) == NameBonus(b, n) + NameBonus(b, m)
  {
    if n > m {
      BonusProduct(b, m, n, k);
    } else {
      ProductAtLeast(n + 1, m + 1);
      SmallFactor(b, n, m, k);
    }
  }

  lemma ProductAtLeast(x: nat, y: nat)
    requires x <= y
    ensures x * y >= x * x
    ensures x >= 5 ==> x * y >= 25
  {
    var d := y - x;
    assert x * y == x * x + x * d;
  }

  lemma SmallFactor(b: BonusTable, n: nat, m: nat, k: nat)
    requires n <= m && n <= 3 && (n + 1) * (m + 1) == k + 1 <= 16
    ensures NameBonus(b, k) == NameBonus(b, n) + NameBonus(b, m)
  {
    match n
    case 0 => assert k == m;
    case 1 => assert k == 2 * m + 1;
    case 2 => assert k == 3 * m + 2;
    case _ => assert k == 4 * m + 3;
  }

  /**
   The whole score: (4 mood + name bonus) times the category's factor, plus 10 on Saturdays and Sundays, plus 2 per
   tag up to 10, cut at 100 and rounded to the nearest hundredth, halves up. `k` counts hundredths.
   */
  lemma ScoreLaw(b: BonusTable, u: Letters, e: Event, x: real) returns (k: int)
    requires Validate(e).None?
    requires x == (4.0 * e.mood as real + NameBonus(b, ByteLength(e.name))) * Multiplier(u, e.category)
                  + (if Weekday(e.createdAt) in {0, 6} then 10.0 else 0.0)
                  + (if |e.tags| >= 5 then 10.0 else 2.0 * |e.tags| as real)
    ensures FunScore(b, u, e) == k as real / 100.0
    ensures k as real - 0.5 <= 100.0 * (if x > 100.0 then 100.0 else x) < k as real + 0.5
  {
    CoreRange(b, e);
    MultiplierTable(u, e.category);
    ProductMonotone(9.0, Core(b, e), Multiplier(u, e.category));
    assert RawScore(b, u, e) == x;
    k := (Min(100.0, Max(0.0, x)) * 100.0 + 0.5).Floor;
  }

  lemma FloorMonotone(x: real, y: real)
    requires x <= y
    ensures x.Floor <= y.Floor
  {
  }

  lemma SettleMonotone(x: real, y: real)
    requires x <= y
    ensures Settle(x) <= Settle(y)
  {
    FloorMonotone(Min(100.0, Max(0.0, x)) * 100.0 + 0.5, Min(100.0, Max(0.0, y)) * 100.0 + 0.5);
  }

  lemma ProductMonotone(x: real, x': real, k: real)
    requires x <= x' && k >= 0.0
    ensures x * k <= x' * k
  {
  }

  lemma CombineMonotone(x: real, x': real, k: real, weekend: bool, tags: nat, tags': nat)
    requires x <= x' && k >= 0.0 && tags <= tags'
    ensures Combine(x, k, weekend, tags) <= Combine(x', k, weekend, tags')
  {
    ProductMonotone(x, x', k);
    assert TagBonus(tags) <= TagBonus(tags');
    var p, p' := x * k, x' * k;
    assert p <= p';
  }

  lemma CoreRange(b: BonusTable, e: Event)
    requires Validate(e).None?
    ensures 9.0 <= Core(b, e) <= 60.0
  {
    BonusRange(b, ByteLength(e.name));
  }

  lemma BonusRange(b: BonusTable, n: nat)
    requires n >= 1
    ensures 5.0 <= NameBonus(b, n) <= 20.0
  {
    if n < 15 {
      assert b[1] <= b[n];
      assert b[n] <= b[15];
    }
  }

  /** Every event that passes validation scores at least 9 and at most 100. */
  lemma ScoreRange(b: BonusTable, u: Letters, e: Event)
    requires Validate(e).None?
    ensures 9.0 <= FunScore(b, u, e) <= 100.0
  {
    CoreRange(b, e);
    CombineMonotone(9.0, Core(b, e), Multiplier(u, e.category), IsWeekend(e.createdAt), 0, |e.tags|);
    SettleMonotone(9.0, RawScore(b, u, e));
    FloorMonotone(Min(100.0, Max(0.0, RawScore(b, u, e))) * 100.0 + 0.5, 10000.5);
  }

  /** The score does not depend on an earlier score or tier. */
  lemma ScoreIgnores(b: BonusTable, u: Letters, e: Event, score: real, priority: string)
    ensures FunScore(b, u, e.(funScore := score, priority := priority)) == FunScore(b, u, e)
  {
  }

  lemma RankMonotone(x: real, y: real)
    requires x <= y
    ensures Rank(PriorityOf(x)) <= Rank(PriorityOf(y))
  {
  }

  lemma CoreMonotone(b: BonusTable, e: Event, e': Event)
    requires e.mood <= e'.mood && ByteLength(e.name) <= ByteLength(e'.name)
    ensures Core(b, e) <= Core(b, e')
  {
    var n, n' := ByteLength(e.name), ByteLength(e'.name);
    if n' < 15 {
      assert b[n] <= b[n'];
    } else if n < 15 {
      assert b[n] <= b[15];
    }
  }

  /** More mood, a longer name or more tags never lower the score or the tier. */
  lemma ScoreMonotone(b: BonusTable, u: Letters, e: Event, e': Event)
    requires e.mood <= e'.mood && ByteLength(e.name) <= ByteLength(e'.name) && |e.tags| <= |e'.tags|
    requires Lower(u, e.category) == Lower(u, e'.category) && IsWeekend(e.createdAt) == IsWeekend(e'.createdAt)
    ensures FunScore(b, u, e) <= FunScore(b, u, e')
    ensures Rank(PriorityOf(FunScore(b, u, e))) <= Rank(PriorityOf(FunScore(b, u, e')))
  {
    CoreMonotone(b, e, e');
    assert Multiplier(u, e.category) == Multiplier(u, e'.category);
    CombineMonotone(Core(b, e), Core(b, e'), Multiplier(u, e.category), IsWeekend(e.createdAt), |e.tags|, |e'.tags|);
    SettleMonotone(RawScore(b, u, e), RawScore(b, u, e'));
    RankMonotone(FunScore(b, u, e), FunScore(b, u, e'));
  }

  /** The categories multiplied by 1.2 or more. */
  predicate Lively(u: Letters, category: string) {
    Lower(u, category) in {"outdoors", "adventure", "social", "games", "creative", "music"}
  }

  lemma LivelyMultiplier(u: Letters, category: string)
    ensures 1.0 <= Multiplier(u, category) <= 1.5
    ensures if Lively(u, category) then Multiplier(u, category) >= 1.2 else Multiplier(u, category) <= 1.1
  {
  }

  ghost predicate Critical(b: BonusTable, u: Letters, e: Event, category: string, weekend: bool) {
    && e.category == category && IsWeekend(e.createdAt) == weekend
    && Validate(e).None? && PriorityOf(FunScore(b, u, e)) == "critical"
  }

  /** A weekday event of a category below 1.2 tops out at 76. */
  lemma WeekdayCeiling(b: BonusTable, u: Letters, e: Event)
    requires Validate(e).None? && !IsWeekend(e.createdAt) && !Lively(u, e.category)
    ensures FunScore(b, u, e) <= 76.0
  {
    CoreRange(b, e);
    LivelyMultiplier(u, e.category);
    ProductMonotone(Core(b, e), 60.0, Multiplier(u, e.category));
    ProductMonotone(Multiplier(u, e.category), 1.1, 60.0);
    SettleMonotone(RawScore(b, u, e), 76.0);
  }

  /** ... while the best event of a lively category, or of any category at a weekend, reaches 80. */
  lemma CriticalWitness(b: BonusTable, u: Letters, category: string, weekend: bool) returns (e: Event)
    requires !Events.Blank(category) && (weekend || Lively(u, category))
    ensures Critical(b, u, e, category, weekend)
  {
    var day := if weekend then 5 * DAY else DAY;
    e := Event("", seq(15, _ => 'a'), category, 10, ["", "", "", "", ""], 0.0, "", 0, "", day, 0, 0);
    assert Validate(e).None? by {
      assert e.name[0] == 'a' && !IsSpace(e.name[0]);
    }
    assert Core(b, e) == 60.0 && IsWeekend(day) == weekend;
    LivelyMultiplier(u, category);
    ProductMonotone(if weekend then 1.0 else 1.2, Multiplier(u, category), 60.0);
    SettleMonotone(80.0, RawScore(b, u, e));
  }

  /** The top tier is open to a category at weekends always, and on weekdays if and only if it is a lively one. */
  lemma CriticalIff(b: BonusTable, u: Letters, category: string, weekend: bool)
    requires !Events.Blank(category)
    ensures (exists e :: Critical(b, u, e, category, weekend)) <==> weekend || Lively(u, category)
  {
    if weekend || Lively(u, category) {
      var e := CriticalWitness(b, u, category, weekend);
    } else {
      forall e
        ensures !Critical(b, u, e, category, weekend)
      {
        if e.category == category && IsWeekend(e.createdAt) == weekend && Validate(e).None? {
          WeekdayCeiling(b, u, e);
        }
      }
    }
  }
}
