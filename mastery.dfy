/**
 * Level-based mastery: a concept's level moves between 0 (unseen) and 3 after each
 * scored quiz, and the level fixes how many days pass before the concept is due
 * for review again. Times are milliseconds since the epoch.
 */
module Mastery {
  import opened Common

  /** MasteryLevel: 0 unseen, 1 learning, 2 and 3 progressively stronger. */
  type Level = l: int | 0 <= l <= 3

  const DAY_MS: int := 24 * 60 * 60 * 1000

  /** Days until the next review, per level; level 0 is never scheduled. */
  const INTERVAL_DAYS: map<Level, nat> := map[0 := 0, 1 := 2, 2 := 5, 3 := 14]

  /** The result of grading one quiz: the new level and when it is next due. */
  datatype QuizOutcome = QuizOutcome(masteryLevel: Level, dueAt: Option<int>)

  function Dist(a: int, b: int): nat
  {
    if a <= b then b - a else a - b
  }

  /** Clamps any integer level into the range of `Level`. */
  function ClampMastery(level: int): (r: Level)
    ensures level <= 0 ==> r == 0
    ensures level >= 3 ==> r == 3
    ensures 0 <= level <= 3 ==> r == level
    ensures forall l :: 0 <= l <= 3 ==> Dist(r, level) <= Dist(l, level)
  {
    if level <= 0 then 0
    else if level >= 3 then 3
    else level
  }

  /** When a concept at `level` is next due, counted from `from`; none for level 0. */
  function NextDueAt(level: Level, from: int): (r: Option<int>)
    ensures r.None? <==> level == 0
    ensures r.Some? ==> r.value == from + INTERVAL_DAYS[level] * DAY_MS && r.value > from
  {
    var days := INTERVAL_DAYS[level];
    if days == 0 then None else Some(from + days * DAY_MS)
  }

  /** The level after a quiz scored `scoreRatio` (fraction of correct answers). */
  function UpdateMasteryLevel(current: Level, scoreRatio: real): (r: Level)
    ensures current == 0 ==> r == 1
    ensures current - 1 <= r <= current + 1
  {
    // Unseen concepts become learning once attempted.
    if current == 0 then 1
    else if scoreRatio >= 0.8 then ClampMastery(current + 1)
    else if scoreRatio < 0.5 then ClampMastery(current - 1)
    else current
  }

  /** Updates the level and schedules the next review from the new level. */
  function ApplyQuizResult(current: Level, scoreRatio: real, now: int): (r: QuizOutcome)
    ensures r.masteryLevel == UpdateMasteryLevel(current, scoreRatio)
    ensures r.dueAt == NextDueAt(r.masteryLevel, now)
    ensures r.dueAt.None? <==> r.masteryLevel == 0
    ensures current == 0 ==> r == QuizOutcome(1, Some(now + 2 * DAY_MS))
  {
    var masteryLevel := UpdateMasteryLevel(current, scoreRatio);
    var dueAt := NextDueAt(masteryLevel, now);
    QuizOutcome(masteryLevel, dueAt)
  }

  /** The fixed schedule: 2, 5 and 14 days for levels 1, 2 and 3. */
  lemma NextDueAtSchedule(from: int)
    ensures NextDueAt(0, from) == None
    ensures NextDueAt(1, from) == Some(from + 2 * 86_400_000)
    ensures NextDueAt(2, from) == Some(from + 5 * 86_400_000)
    ensures NextDueAt(3, from) == Some(from + 14 * 86_400_000)
  {
  }

  /** A higher level never waits less for its next review. */
  lemma IntervalMonotone(a: Level, b: Level)
    requires a <= b
    ensures INTERVAL_DAYS[a] <= INTERVAL_DAYS[b]
  {
  }

  /** For a concept already seen: promote on >= 0.8, demote below 0.5, otherwise keep. */
  lemma UpdateFollowsScoreBands(current: Level, scoreRatio: real)
    requires current > 0
    ensures scoreRatio >= 0.8 ==>
      UpdateMasteryLevel(current, scoreRatio) == if current == 3 then 3 else current + 1
    ensures scoreRatio < 0.5 ==> UpdateMasteryLevel(current, scoreRatio) == current - 1
    ensures 0.5 <= scoreRatio < 0.8 ==> UpdateMasteryLevel(current, scoreRatio) == current
  {
  }

  /** A better score never yields a lower level. */
  lemma UpdateMonotoneInRatio(current: Level, r1: real, r2: real)
    requires r1 <= r2
    ensures UpdateMasteryLevel(current, r1) <= UpdateMasteryLevel(current, r2)
  {
  }

  /** Clamping is idempotent: a clamped level is left alone. */
  lemma ClampIdempotent(level: int)
    ensures ClampMastery(ClampMastery(level)) == ClampMastery(level)
  {
  }
}
