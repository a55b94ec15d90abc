/** The event model: validation, classification and filtering (internal/events/event.go). */
module Events {
  import opened Prelude
  import opened Text

  /** Times are nanoseconds since Go's zero time, a Monday; 0 is the zero time itself. */
  datatype Event = Event(
    id: string,
    name: string,
    category: string,
    mood: int,
    tags: seq<string>,
    funScore: real,
    priority: string,
    dayOfWeek: nat,
    season: string,
    createdAt: int,
    processedAt: int,
    expiresAt: int)

  datatype ValidationError = NameRequired | CategoryRequired | MoodOutOfRange

  /** unicode.IsSpace */
  predicate IsSpace(c: char) {
    var n := c as int;
    || 0x09 <= n <= 0x0D || n == 0x20 || n == 0x85 || n == 0xA0
    || n == 0x1680 || 0x2000 <= n <= 0x200A || n == 0x2028 || n == 0x2029 || n == 0x202F || n == 0x205F || n == 0x3000
  }

  /** strings.TrimSpace(s) == "" */
  predicate Blank(s: string) {
    forall i :: 0 <= i < |s| ==> IsSpace(s[i])
  }

  function Validate(e: Event): Option<ValidationError> {
    if Blank(e.name) then Some(NameRequired)
    else if Blank(e.category) then Some(CategoryRequired)
    else if e.mood < 1 || e.mood > 10 then Some(MoodOutOfRange)
    else None
  }

  function PriorityOf(score: real): string {
    if score >= 80.0 then "critical"
    else if score >= 55.0 then "high"
    else if score >= 30.0 then "medium"
    else "low"
  }

  /** The event's tier is the one its score earns. */
  predicate Tiered(e: Event) {
    e.priority == PriorityOf(e.funScore)
  }

  function Rank(priority: string): nat {
    if priority == "critical" then 3 else if priority == "high" then 2 else if priority == "medium" then 1 else 0
  }

  datatype Filter = Filter(category: string, priority: string, query: string)

  predicate Matches(u: Letters, e: Event, f: Filter) {
    && (f.category != "" ==> EqualFold(u, e.category, f.category))
    && (f.priority != "" ==> EqualFold(u, e.priority, f.priority))
    && (f.query != "" ==> Contains(Lower(u, e.name), Lower(u, f.query)))
  }

  const DAY: int := 86_400_000_000_000

  /** time.Weekday, 0 for Sunday. */
  function Weekday(t: int): nat {
    (t / DAY + 1) % 7
  }

  predicate IsWeekend(t: int) {
    Weekday(t) == 0 || Weekday(t) == 6
  }

  // ---- What validation accepts ----

  /** The code points of Unicode's White_Space property, as Go's tables list them. */
  const SPACES: set<int> := {
    0x09, 0x0A, 0x0B, 0x0C, 0x0D, 0x20, 0x85, 0xA0, 0x1680, 0x2000, 0x2001, 0x2002, 0x2003, 0x2004, 0x2005, 0x2006,
    0x2007, 0x2008, 0x2009, 0x200A, 0x2028, 0x2029, 0x202F, 0x205F, 0x3000
  }

  /** Something is left of the string when white space is trimmed. */
  ghost predicate Visible(s: string) {
    exists i :: 0 <= i < |s| && s[i] as int !in SPACES
  }

  lemma BlankIff(s: string)
    ensures Blank(s) <==> !Visible(s)
  {
    if !Blank(s) {
      var i :| 0 <= i < |s| && !IsSpace(s[i]);
      assert s[i] as int !in SPACES;
    }
  }

  /** Accepted are exactly the events with a visible name, a visible category and a mood from 1 to 10. */
  lemma ValidIff(e: Event)
    ensures Validate(e).None? <==> Visible(e.name) && Visible(e.category) && 1 <= e.mood <= 10
    ensures Validate(e) == Some(NameRequired) <==> !Visible(e.name)
    ensures Validate(e) == Some(CategoryRequired) <==> Visible(e.name) && !Visible(e.category)
    ensures Validate(e) == Some(MoodOutOfRange) <==> Visible(e.name) && Visible(e.category) && !(1 <= e.mood <= 10)
  {
    BlankIff(e.name);
    BlankIff(e.category);
  }

  // ---- Days of the week ----

  /** The zero time is a Monday, moments of one day share a weekday, and the next day has the next one, cyclically. */
  lemma WeekdayLaws(t: int, u: int, k: int)
    ensures Weekday(0) == 1 && Weekday(t) <= 6
    ensures Weekday(t + 86_400_000_000_000) == if Weekday(t) == 6 then 0 else Weekday(t) + 1
    ensures t / 86_400_000_000_000 == k == u / 86_400_000_000_000 ==> Weekday(t) == Weekday(u)
    ensures IsWeekend(t) <==> Weekday(t) in {0, 6}
  {
    assert (t + DAY) / DAY == t / DAY + 1;
  }

  /** 6 January 2024, 738890 days after the zero time, is a Saturday. */
  lemma ASaturday()
    ensures Weekday(738_890 * DAY) == 6 && IsWeekend(738_890 * DAY) && !IsWeekend(738_889 * DAY)
  {
  }
}
