/**
 * The unlock tests and the daily pick of lib/sessionEngine.ts.
 *
 * A concept is unlocked when every prerequisite has reached the unlock
 * threshold. The daily pick walks the unlocked concepts in curriculum order
 * and tries three tiers in turn: a due review, then a concept that already
 * has a mastery row (the fallback), then a concept without one.
 */
module SessionEngine {
  import opened Common
  import opened Ordering
  import opened Curriculum
  import opened CurriculumFacts
  import opened SessionTypes

  const UNLOCK_MASTERY_THRESHOLD: real := 3.0

  // ---------------------------------------------------------------------
  // Unlock tests
  // ---------------------------------------------------------------------

  /** The map holds a score for `id` that reaches the threshold. */
  predicate ScoreUnlocks(scores: map<string, real>, id: string)
  {
    id in scores && scores[id] >= UNLOCK_MASTERY_THRESHOLD
  }

  /** `prerequisiteIds.every(...)` over the score map, scanning from the left. */
  function EveryScoreUnlocks(prerequisiteIds: seq<string>, scores: map<string, real>): (r: bool)
    ensures r <==> forall k :: 0 <= k < |prerequisiteIds| ==> ScoreUnlocks(scores, prerequisiteIds[k])
    decreases |prerequisiteIds|
  {
    if |prerequisiteIds| == 0 then true
    else ScoreUnlocks(scores, prerequisiteIds[0]) && EveryScoreUnlocks(prerequisiteIds[1..], scores)
  }

  /**
   * isUnlockedByPrerequisites: nothing to wait for, or every prerequisite is
   * scored at least 3; a prerequisite without a score keeps the concept locked.
   */
  function IsUnlockedByPrerequisites(prerequisiteIds: seq<string>, masteryByConceptId: map<string, real>): (r: bool)
    ensures prerequisiteIds == [] ==> r
    ensures r <==> forall k :: 0 <= k < |prerequisiteIds| ==>
      prerequisiteIds[k] in masteryByConceptId && masteryByConceptId[prerequisiteIds[k]] >= UNLOCK_MASTERY_THRESHOLD
  {
    if |prerequisiteIds| == 0 then true
    else EveryScoreUnlocks(prerequisiteIds, masteryByConceptId)
  }

  /** The threshold is inclusive: 2.99 stays locked, 3 unlocks. */
  lemma UnlockThresholdExample()
    ensures !IsUnlockedByPrerequisites(["base"], map["base" := 2.99])
    ensures IsUnlockedByPrerequisites(["base"], map["base" := 3.0])
  {
  }

  /** The state for `id` exists and its level reaches the threshold. */
  predicate LevelUnlocks(states: map<string, UserConceptState>, id: string)
  {
    id in states && states[id].masteryLevel as real >= UNLOCK_MASTERY_THRESHOLD
  }

  /**
   * prerequisitesSatisfied: every prerequisite has a state at level 3 (the
   * highest level); a missing state fails the test.
   */
  function PrerequisitesSatisfied(prerequisiteIds: seq<string>, stateByConceptId: map<string, UserConceptState>): (r: bool)
    ensures r <==> forall k :: 0 <= k < |prerequisiteIds| ==>
      prerequisiteIds[k] in stateByConceptId && stateByConceptId[prerequisiteIds[k]].masteryLevel == 3
    decreases |prerequisiteIds|
  {
    if |prerequisiteIds| == 0 then true
    else LevelUnlocks(stateByConceptId, prerequisiteIds[0]) && PrerequisitesSatisfied(prerequisiteIds[1..], stateByConceptId)
  }

  /** The levels of a state map read as scores. */
  function LevelScores(states: map<string, UserConceptState>): map<string, real>
  {
    map id | id in states :: states[id].masteryLevel as real
  }

  /** The planner's level test is the score test applied to the levels. */
  lemma SatisfiedIsUnlockedByLevels(prerequisiteIds: seq<string>, states: map<string, UserConceptState>)
    ensures PrerequisitesSatisfied(prerequisiteIds, states) == IsUnlockedByPrerequisites(prerequisiteIds, LevelScores(states))
  {
    var scores := LevelScores(states);
    assert forall k :: 0 <= k < |prerequisiteIds| && prerequisiteIds[k] in states ==>
      scores[prerequisiteIds[k]] == states[prerequisiteIds[k]].masteryLevel as real;
  }

  // ---------------------------------------------------------------------
  // The daily pick
  // ---------------------------------------------------------------------

  /** A stored mastery row; `nextReviewAt` is `None` when null, empty or unparseable. */
  datatype MasteryRow = MasteryRow(conceptId: string, masteryScore: real, nextReviewAt: Option<int>)

  datatype CurriculumSource = DueReviewSource | FallbackSource | NewConceptSource

  datatype CurriculumSelection = CurriculumSelection(conceptId: string, source: CurriculumSource)

  /** The row map: the last row for each concept id. */
  function RowById(rows: seq<MasteryRow>): map<string, MasteryRow>
  {
    LastByKey(rows, (row: MasteryRow) => row.conceptId)
  }

  /** The score map, built from the same rows. */
  function ScoreById(rows: seq<MasteryRow>): map<string, real>
  {
    map id | id in RowById(rows) :: RowById(rows)[id].masteryScore
  }

  predicate Unlocked(rows: seq<MasteryRow>, c: Concept)
  {
    IsUnlockedByPrerequisites(c.prerequisiteIds, ScoreById(rows))
  }

  /** The concept's row has a review time at or before `now`. */
  predicate IsDueAt(rowById: map<string, MasteryRow>, c: Concept, now: int)
  {
    c.id in rowById && rowById[c.id].nextReviewAt.Some? && rowById[c.id].nextReviewAt.value <= now
  }

  predicate HasRow(rowById: map<string, MasteryRow>, c: Concept)
  {
    c.id in rowById
  }

  /** The position map over the curriculum order. */
  function CurriculumIndex(concepts: seq<Concept>): map<string, nat>
  {
    IndexById(CurriculumOrder(concepts))
  }

  function IndexOf(index: map<string, nat>, c: Concept): real
  {
    if c.id in index then index[c.id] as real else 0.0
  }

  function ScoreOf(rowById: map<string, MasteryRow>, c: Concept): real
  {
    if c.id in rowById then rowById[c.id].masteryScore else 0.0
  }

  function ReviewOf(rowById: map<string, MasteryRow>, c: Concept): Option<int>
  {
    if c.id in rowById then rowById[c.id].nextReviewAt else None
  }

  function Millis(t: Option<int>): real
  {
    if t.Some? then t.value as real else 0.0
  }

  /** Due comparator: review time, then score, then curriculum position. */
  function DueKey(rowById: map<string, MasteryRow>, index: map<string, nat>, c: Concept): seq<real>
  {
    [Millis(ReviewOf(rowById, c)), ScoreOf(rowById, c), IndexOf(index, c)]
  }

  /** Fallback comparator: score, then unscheduled before scheduled, then review time, then curriculum position. */
  function FallbackKey(rowById: map<string, MasteryRow>, index: map<string, nat>, c: Concept): seq<real>
  {
    var t := ReviewOf(rowById, c);
    [ScoreOf(rowById, c), if t.Some? then 1.0 else 0.0, Millis(t), IndexOf(index, c)]
  }

  /** The tier a pick's source names holds for the picked concept. */
  predicate TierHolds(rowById: map<string, MasteryRow>, c: Concept, source: CurriculumSource, now: int)
  {
    match source
    case DueReviewSource => IsDueAt(rowById, c, now)
    case FallbackSource => HasRow(rowById, c)
    case NewConceptSource => !HasRow(rowById, c)
  }

  predicate SomeUnlocked(concepts: seq<Concept>, rows: seq<MasteryRow>)
  {
    exists c :: c in concepts && Unlocked(rows, c)
  }

  predicate SomeUnlockedDue(concepts: seq<Concept>, rows: seq<MasteryRow>, now: int)
  {
    exists c :: c in concepts && Unlocked(rows, c) && IsDueAt(RowById(rows), c, now)
  }

  predicate SomeUnlockedSeen(concepts: seq<Concept>, rows: seq<MasteryRow>)
  {
    exists c :: c in concepts && Unlocked(rows, c) && HasRow(RowById(rows), c)
  }

  function UnlockedBy(scores: map<string, real>): Concept -> bool
  {
    (c: Concept) => IsUnlockedByPrerequisites(c.prerequisiteIds, scores)
  }

  function UnlockedInOrder(concepts: seq<Concept>, rows: seq<MasteryRow>): seq<Concept>
  {
    Filter(CurriculumOrder(concepts), UnlockedBy(ScoreById(rows)))
  }

  /** Some unlocked concept of the input with this id satisfies the tier its source names. */
  predicate Pickable(concepts: seq<Concept>, rows: seq<MasteryRow>, now: int, sel: CurriculumSelection)
  {
    exists c :: (c in concepts && c.id == sel.conceptId && Unlocked(rows, c)
      && TierHolds(RowById(rows), c, sel.source, now))
  }

  lemma UnlockedInOrderMembers(concepts: seq<Concept>, rows: seq<MasteryRow>)
    requires DistinctIds(concepts)
    ensures forall c :: c in UnlockedInOrder(concepts, rows) <==> c in concepts && Unlocked(rows, c)
  {
    CurriculumOrderSameMembers(concepts);
  }

  /** The due tier's candidates; empty exactly when no unlocked concept is due. */
  function DueCandidates(unlocked: seq<Concept>, rowById: map<string, MasteryRow>, now: int): (r: seq<Concept>)
    ensures forall c :: c in r <==> c in unlocked && IsDueAt(rowById, c, now)
  {
    Filter(unlocked, (c: Concept) => IsDueAt(rowById, c, now))
  }

  /** The fallback tier's candidates: the unlocked concepts with a row. */
  function SeenCandidates(unlocked: seq<Concept>, rowById: map<string, MasteryRow>): (r: seq<Concept>)
    ensures forall c :: c in r <==> c in unlocked && HasRow(rowById, c)
  {
    Filter(unlocked, (c: Concept) => c.id in rowById)
  }

  /** The new tier's candidates: the unlocked concepts without a score. */
  function UnseenCandidates(unlocked: seq<Concept>, scores: map<string, real>): (r: seq<Concept>)
    ensures forall c :: c in r <==> c in unlocked && c.id !in scores
  {
    Filter(unlocked, (c: Concept) => c.id !in scores)
  }

  function DuePick(due: seq<Concept>, rowById: map<string, MasteryRow>, index: map<string, nat>): (m: Concept)
    requires |due| > 0
    ensures m in due
  {
    FirstMin(due, (c: Concept) => DueKey(rowById, index, c))
  }

  function FallbackPick(seen: seq<Concept>, rowById: map<string, MasteryRow>, index: map<string, nat>): (m: Concept)
    requires |seen| > 0
    ensures m in seen
  {
    FirstMin(seen, (c: Concept) => FallbackKey(rowById, index, c))
  }

  lemma NonEmptyHasHead(s: seq<Concept>)
    requires |s| > 0
    ensures s[0] in s
  {
  }

  predicate AnyDue(s: seq<Concept>, rowById: map<string, MasteryRow>, now: int)
  {
    exists c :: c in s && IsDueAt(rowById, c, now)
  }

  predicate AnySeen(s: seq<Concept>, rowById: map<string, MasteryRow>)
  {
    exists c :: c in s && HasRow(rowById, c)
  }

  predicate PickableIn(s: seq<Concept>, rowById: map<string, MasteryRow>, now: int, sel: CurriculumSelection)
  {
    exists c :: c in s && c.id == sel.conceptId && TierHolds(rowById, c, sel.source, now)
  }

  /** The three tiers over the unlocked concepts in curriculum order. */
  function PickFromTiers(unlocked: seq<Concept>, rowById: map<string, MasteryRow>, scores: map<string, real>,
                         index: map<string, nat>, now: int): (r: Option<CurriculumSelection>)
    requires scores.Keys == rowById.Keys
    ensures r.None? <==> unlocked == []
    ensures r.Some? ==> PickableIn(unlocked, rowById, now, r.value)
    ensures r.Some? ==> (r.value.source == DueReviewSource <==> AnyDue(unlocked, rowById, now))
    ensures r.Some? && r.value.source != DueReviewSource ==>
      (r.value.source == FallbackSource <==> AnySeen(unlocked, rowById))
  {
    if |unlocked| == 0 then None
    else
      var due := DueCandidates(unlocked, rowById, now);
      if |due| > 0 then
        var m := DuePick(due, rowById, index);
        Some(CurriculumSelection(m.id, DueReviewSource))
      else
        var seen := SeenCandidates(unlocked, rowById);
        if |seen| > 0 then
          var m := FallbackPick(seen, rowById, index);
          Some(CurriculumSelection(m.id, FallbackSource))
        else
          var unseen := UnseenCandidates(unlocked, scores);
          NonEmptyHasHead(unlocked);
          NonEmptyHasHead(unseen);
          Some(CurriculumSelection(unseen[0].id, NewConceptSource))
  }

  /** The tier predicates over the input read the same over its unlocked concepts. */
  lemma TiersOverUnlocked(concepts: seq<Concept>, rows: seq<MasteryRow>, now: int)
    requires DistinctIds(concepts)
    ensures SomeUnlocked(concepts, rows) <==> UnlockedInOrder(concepts, rows) != []
    ensures SomeUnlockedDue(concepts, rows, now) <==> AnyDue(UnlockedInOrder(concepts, rows), RowById(rows), now)
    ensures SomeUnlockedSeen(concepts, rows) <==> AnySeen(UnlockedInOrder(concepts, rows), RowById(rows))
    ensures forall sel :: PickableIn(UnlockedInOrder(concepts, rows), RowById(rows), now, sel) ==>
              Pickable(concepts, rows, now, sel)
  {
    var unlocked := UnlockedInOrder(concepts, rows);
    UnlockedInOrderMembers(concepts, rows);
    if unlocked != [] {
      NonEmptyHasHead(unlocked);
    }
  }

  /** chooseUnlockedConceptForToday, for concepts with distinct ids. */
  function ChooseUnlockedConceptForToday(concepts: seq<Concept>, masteryRows: seq<MasteryRow>, now: int)
    : (r: Option<CurriculumSelection>)
    requires DistinctIds(concepts)
    ensures r.None? <==> !SomeUnlocked(concepts, masteryRows)
    ensures r.Some? ==> Pickable(concepts, masteryRows, now, r.value)
    ensures r.Some? ==> (r.value.source == DueReviewSource <==> SomeUnlockedDue(concepts, masteryRows, now))
    ensures r.Some? && r.value.source != DueReviewSource ==>
      (r.value.source == FallbackSource <==> SomeUnlockedSeen(concepts, masteryRows))
  {
    TiersOverUnlocked(concepts, masteryRows, now);
    PickFromTiers(UnlockedInOrder(concepts, masteryRows), RowById(masteryRows), ScoreById(masteryRows),
                  CurriculumIndex(concepts), now)
  }

  // ---------------------------------------------------------------------
  // What each tier picks
  // ---------------------------------------------------------------------

  /** `a` sorts before `b` in the due comparator. */
  predicate DueBefore(rowById: map<string, MasteryRow>, index: map<string, nat>, a: Concept, b: Concept)
  {
    var ta := Millis(ReviewOf(rowById, a));
    var tb := Millis(ReviewOf(rowById, b));
    || ta < tb
    || (ta == tb && ScoreOf(rowById, a) < ScoreOf(rowById, b))
    || (ta == tb && ScoreOf(rowById, a) == ScoreOf(rowById, b) && IndexOf(index, a) < IndexOf(index, b))
  }

  /** `a` sorts before `b` in the fallback comparator. */
  predicate FallbackBefore(rowById: map<string, MasteryRow>, index: map<string, nat>, a: Concept, b: Concept)
  {
    var ra := ReviewOf(rowById, a);
    var rb := ReviewOf(rowById, b);
    var sa := ScoreOf(rowById, a);
    var sb := ScoreOf(rowById, b);
    || sa < sb
    || (sa == sb && ra.None? && rb.Some?)
    || (sa == sb && ra.Some? && rb.Some? && ra.value < rb.value)
    || (sa == sb && ra.Some? == rb.Some? && Millis(ra) == Millis(rb) && IndexOf(index, a) < IndexOf(index, b))
  }

  /** Distinct members of a sequence with distinct ids sit at distinct positions. */
  lemma PositionsDifferIn(ordered: seq<Concept>, a: Concept, b: Concept)
    requires DistinctIds(ordered) && a in ordered && b in ordered && a != b
    ensures IndexOf(IndexById(ordered), a) != IndexOf(IndexById(ordered), b)
  {
    var idx := IndexById(ordered);
    IndexByIdOk(ordered);
    var i :| 0 <= i < |ordered| && ordered[i] == a;
    var j :| 0 <= j < |ordered| && ordered[j] == b;
    assert idx[a.id] == i && idx[b.id] == j;
  }

  /** Distinct concepts of the curriculum order sit at distinct positions. */
  lemma PositionsDiffer(concepts: seq<Concept>, a: Concept, b: Concept)
    requires DistinctIds(concepts) && a in concepts && b in concepts && a != b
    ensures IndexOf(CurriculumIndex(concepts), a) != IndexOf(CurriculumIndex(concepts), b)
  {
    CurriculumOrderSameMembers(concepts);
    CurriculumOrderDistinctIds(concepts);
    PositionsDifferIn(CurriculumOrder(concepts), a, b);
  }

  /** The unlocked concepts of the input are the members of the unlocked curriculum list. */
  lemma UnlockedMember(concepts: seq<Concept>, rows: seq<MasteryRow>, c: Concept)
    requires DistinctIds(concepts)
    ensures c in UnlockedInOrder(concepts, rows) <==> c in concepts && Unlocked(rows, c)
  {
    UnlockedInOrderMembers(concepts, rows);
  }

  /** The pick when the due tier is not empty. */
  lemma ChooseDue(concepts: seq<Concept>, rows: seq<MasteryRow>, now: int)
    requires DistinctIds(concepts)
    requires DueCandidates(UnlockedInOrder(concepts, rows), RowById(rows), now) != []
    ensures ChooseUnlockedConceptForToday(concepts, rows, now) == Some(CurriculumSelection(
      DuePick(DueCandidates(UnlockedInOrder(concepts, rows), RowById(rows), now), RowById(rows), CurriculumIndex(concepts)).id,
      DueReviewSource))
  {
  }

  /** The pick when the due tier is empty and the fallback tier is not. */
  lemma ChooseFallback(concepts: seq<Concept>, rows: seq<MasteryRow>, now: int)
    requires DistinctIds(concepts)
    requires DueCandidates(UnlockedInOrder(concepts, rows), RowById(rows), now) == []
    requires SeenCandidates(UnlockedInOrder(concepts, rows), RowById(rows)) != []
    ensures ChooseUnlockedConceptForToday(concepts, rows, now) == Some(CurriculumSelection(
      FallbackPick(SeenCandidates(UnlockedInOrder(concepts, rows), RowById(rows)), RowById(rows), CurriculumIndex(concepts)).id,
      FallbackSource))
  {
    assert UnlockedInOrder(concepts, rows) != [];
  }

  /** The pick when both earlier tiers are empty. */
  lemma ChooseNew(concepts: seq<Concept>, rows: seq<MasteryRow>, now: int)
    requires DistinctIds(concepts) && UnlockedInOrder(concepts, rows) != []
    requires DueCandidates(UnlockedInOrder(concepts, rows), RowById(rows), now) == []
    requires SeenCandidates(UnlockedInOrder(concepts, rows), RowById(rows)) == []
    ensures ChooseUnlockedConceptForToday(concepts, rows, now) == Some(CurriculumSelection(
      UnseenCandidates(UnlockedInOrder(concepts, rows), ScoreById(rows))[0].id, NewConceptSource))
  {
    NonEmptyHasHead(UnlockedInOrder(concepts, rows));
  }

  /** A sequence with no member is empty. */
  lemma EmptyWithoutMembers(s: seq<Concept>)
    requires forall c :: c !in s
    ensures s == []
  {
    if s != [] {
      NonEmptyHasHead(s);
    }
  }

  /** The due pick comes before every other due candidate of the input. */
  lemma DuePickBefore(concepts: seq<Concept>, due: seq<Concept>, rowById: map<string, MasteryRow>,
                      index: map<string, nat>, c: Concept)
    requires DistinctIds(concepts) && index == CurriculumIndex(concepts)
    requires |due| > 0 && c in due && c in concepts && DuePick(due, rowById, index) in concepts
    requires c != DuePick(due, rowById, index)
    ensures DueBefore(rowById, index, DuePick(due, rowById, index), c)
  {
    var m := DuePick(due, rowById, index);
    var key := (c: Concept) => DueKey(rowById, index, c);
    assert !LexLess(key(c), key(m));
    LexTotal(key(m), key(c));
    PositionsDiffer(concepts, m, c);
    Lex3(key(m)[0], key(m)[1], key(m)[2], key(c)[0], key(c)[1], key(c)[2]);
  }

  /** The fallback pick comes before every other fallback candidate of the input. */
  lemma FallbackPickBefore(concepts: seq<Concept>, seen: seq<Concept>, rowById: map<string, MasteryRow>,
                           index: map<string, nat>, c: Concept)
    requires DistinctIds(concepts) && index == CurriculumIndex(concepts)
    requires |seen| > 0 && c in seen && c in concepts && FallbackPick(seen, rowById, index) in concepts
    requires c != FallbackPick(seen, rowById, index)
    ensures FallbackBefore(rowById, index, FallbackPick(seen, rowById, index), c)
  {
    var m := FallbackPick(seen, rowById, index);
    var key := (c: Concept) => FallbackKey(rowById, index, c);
    assert !LexLess(key(c), key(m));
    LexTotal(key(m), key(c));
    PositionsDiffer(concepts, m, c);
    Lex4(key(m)[0], key(m)[1], key(m)[2], key(m)[3], key(c)[0], key(c)[1], key(c)[2], key(c)[3]);
  }

  /**
   * Due tier: when some unlocked concept is due, the pick is the unlocked due
   * concept with the earliest review time, then the lowest score, then the
   * earliest curriculum position.
   */
  lemma DueTierPicksEarliest(concepts: seq<Concept>, rows: seq<MasteryRow>, now: int)
    requires DistinctIds(concepts) && SomeUnlockedDue(concepts, rows, now)
    ensures exists m :: (m in concepts && Unlocked(rows, m) && IsDueAt(RowById(rows), m, now)
      && ChooseUnlockedConceptForToday(concepts, rows, now) == Some(CurriculumSelection(m.id, DueReviewSource))
      && forall c :: c in concepts && Unlocked(rows, c) && IsDueAt(RowById(rows), c, now) && c != m ==>
           DueBefore(RowById(rows), CurriculumIndex(concepts), m, c))
  {
    var rowById := RowById(rows);
    var index := CurriculumIndex(concepts);
    var unlocked := UnlockedInOrder(concepts, rows);
    TiersOverUnlocked(concepts, rows, now);
    var due := DueCandidates(unlocked, rowById, now);
    var w :| w in unlocked && IsDueAt(rowById, w, now);
    assert w in due;
    var m := DuePick(due, rowById, index);
    UnlockedMember(concepts, rows, m);
    forall c | c in concepts && Unlocked(rows, c) && IsDueAt(rowById, c, now) && c != m
      ensures DueBefore(rowById, index, m, c)
    {
      UnlockedMember(concepts, rows, c);
      assert c in due;
      DuePickBefore(concepts, due, rowById, index, c);
    }
    ChooseDue(concepts, rows, now);
    assert m in concepts && Unlocked(rows, m) && IsDueAt(rowById, m, now);
  }

  /**
   * Fallback tier: with nothing due but some unlocked concept holding a row,
   * the pick is the lowest score, then an unscheduled row before a scheduled
   * one, then the earliest review time, then the earliest curriculum position.
   */
  lemma FallbackTierOrder(concepts: seq<Concept>, rows: seq<MasteryRow>, now: int)
    requires DistinctIds(concepts) && !SomeUnlockedDue(concepts, rows, now) && SomeUnlockedSeen(concepts, rows)
    ensures exists m :: (m in concepts && Unlocked(rows, m) && HasRow(RowById(rows), m)
      && ChooseUnlockedConceptForToday(concepts, rows, now) == Some(CurriculumSelection(m.id, FallbackSource))
      && forall c :: c in concepts && Unlocked(rows, c) && HasRow(RowById(rows), c) && c != m ==>
           FallbackBefore(RowById(rows), CurriculumIndex(concepts), m, c))
  {
    var rowById := RowById(rows);
    var index := CurriculumIndex(concepts);
    var unlocked := UnlockedInOrder(concepts, rows);
    TiersOverUnlocked(concepts, rows, now);
    var due := DueCandidates(unlocked, rowById, now);
    assert forall c :: c !in due;
    EmptyWithoutMembers(due);
    var seen := SeenCandidates(unlocked, rowById);
    var w :| w in unlocked && HasRow(rowById, w);
    assert w in seen;
    var m := FallbackPick(seen, rowById, index);
    UnlockedMember(concepts, rows, m);
    forall c | c in concepts && Unlocked(rows, c) && HasRow(rowById, c) && c != m
      ensures FallbackBefore(rowById, index, m, c)
    {
      UnlockedMember(concepts, rows, c);
      assert c in seen;
      FallbackPickBefore(concepts, seen, rowById, index, c);
    }
    ChooseFallback(concepts, rows, now);
    assert m in concepts && Unlocked(rows, m) && HasRow(rowById, m);
  }

  /** With no unlocked concept holding a row, the pick is the head of the unlocked list. */
  lemma NewTierPicksHead(concepts: seq<Concept>, rows: seq<MasteryRow>, now: int)
    requires DistinctIds(concepts) && SomeUnlocked(concepts, rows) && !SomeUnlockedSeen(concepts, rows)
    ensures UnlockedInOrder(concepts, rows) != []
    ensures ChooseUnlockedConceptForToday(concepts, rows, now)
         == Some(CurriculumSelection(UnlockedInOrder(concepts, rows)[0].id, NewConceptSource))
  {
    var rowById := RowById(rows);
    var scores := ScoreById(rows);
    var unlocked := UnlockedInOrder(concepts, rows);
    TiersOverUnlocked(concepts, rows, now);
    var due := DueCandidates(unlocked, rowById, now);
    assert forall c :: c !in due;
    EmptyWithoutMembers(due);
    var seen := SeenCandidates(unlocked, rowById);
    assert forall c :: c !in seen;
    EmptyWithoutMembers(seen);
    var q := (c: Concept) => c.id !in scores;
    forall i | 0 <= i < |unlocked|
      ensures q(unlocked[i])
    {
      assert unlocked[i] in unlocked;
    }
    FilterKeepsAll(unlocked, q);
    assert UnseenCandidates(unlocked, scores) == unlocked;
    ChooseNew(concepts, rows, now);
  }

  /**
   * New tier: when no unlocked concept has a row, the pick is the first
   * unlocked concept in curriculum order.
   */
  lemma NewTierPicksFirstUnlocked(concepts: seq<Concept>, rows: seq<MasteryRow>, now: int)
    requires DistinctIds(concepts) && SomeUnlocked(concepts, rows) && !SomeUnlockedSeen(concepts, rows)
    ensures exists i :: (0 <= i < |CurriculumOrder(concepts)| && Unlocked(rows, CurriculumOrder(concepts)[i])
      && (forall j :: 0 <= j < i ==> !Unlocked(rows, CurriculumOrder(concepts)[j]))
      && ChooseUnlockedConceptForToday(concepts, rows, now)
         == Some(CurriculumSelection(CurriculumOrder(concepts)[i].id, NewConceptSource)))
  {
    NewTierPicksHead(concepts, rows, now);
    var i := UnlockedHeadPosition(concepts, rows);
  }

  /** The head of the unlocked list is the first unlocked concept of the curriculum order. */
  lemma UnlockedHeadPosition(concepts: seq<Concept>, rows: seq<MasteryRow>) returns (i: nat)
    requires UnlockedInOrder(concepts, rows) != []
    ensures i < |CurriculumOrder(concepts)| && CurriculumOrder(concepts)[i] == UnlockedInOrder(concepts, rows)[0]
    ensures Unlocked(rows, CurriculumOrder(concepts)[i])
    ensures forall j :: 0 <= j < i ==> !Unlocked(rows, CurriculumOrder(concepts)[j])
  {
    i := HeadIsFirstUnlocked(CurriculumOrder(concepts), rows);
  }

  /** The head of the unlocked filter is the first unlocked concept of the sequence. */
  lemma HeadIsFirstUnlocked(ordered: seq<Concept>, rows: seq<MasteryRow>) returns (i: nat)
    requires Filter(ordered, UnlockedBy(ScoreById(rows))) != []
    ensures i < |ordered| && ordered[i] == Filter(ordered, UnlockedBy(ScoreById(rows)))[0]
    ensures Unlocked(rows, ordered[i]) && forall j :: 0 <= j < i ==> !Unlocked(rows, ordered[j])
  {
    var p := UnlockedBy(ScoreById(rows));
    FilterFirst(ordered, p);
    i :| 0 <= i < |ordered| && ordered[i] == Filter(ordered, p)[0] && p(ordered[i]) && forall j :: 0 <= j < i ==> !p(ordered[j]);
  }

  /** The concepts of the pick's test have no edge between them, so their order is kept. */
  lemma LockedExampleOrder(cs: seq<Concept>)
    requires cs == [Concept("locked", "", "", ["prereq"]), Concept("open", "", "", [])]
    ensures DistinctIds(cs)
    ensures CurriculumOrder(cs) == cs
  {
    assert IdSet(cs) == {"locked", "open"} by {
      assert cs[0] in cs && cs[1] in cs;
    }
    NoEdgesKeepsInputOrder(cs);
  }

  /** The unlocked list of the pick's test: only the concept without prerequisites. */
  lemma LockedExampleUnlocked(cs: seq<Concept>)
    requires cs == [Concept("locked", "", "", ["prereq"]), Concept("open", "", "", [])]
    ensures DistinctIds(cs)
    ensures UnlockedInOrder(cs, []) == [cs[1]]
  {
    LockedExampleOrder(cs);
    var rows: seq<MasteryRow> := [];
    assert ScoreById(rows) == map[];
    var p := UnlockedBy(ScoreById(rows));
    assert !p(cs[0]) && p(cs[1]);
    var first := cs[..1];
    assert first[..0] == [];
    assert Filter(first, p) == [];
    assert cs[..|cs| - 1] == first;
  }

  /** The pick's test: a concept waiting on a missing prerequisite is never chosen. */
  lemma NeverSelectsLockedExample()
    ensures ChooseUnlockedConceptForToday(
      [Concept("locked", "", "", ["prereq"]), Concept("open", "", "", [])], [], 1770854400000)
      == Some(CurriculumSelection("open", NewConceptSource))
  {
    var cs := [Concept("locked", "", "", ["prereq"]), Concept("open", "", "", [])];
    var rows: seq<MasteryRow> := [];
    LockedExampleUnlocked(cs);
    UnlockedInOrderMembers(cs, rows);
    assert cs[1] in UnlockedInOrder(cs, rows);
    assert !SomeUnlockedSeen(cs, rows);
    NewTierPicksHead(cs, rows, 1770854400000);
  }
}
