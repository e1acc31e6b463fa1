/**
 * The planner's records and defaults (lib/types.ts). Dates are milliseconds
 * since the epoch, `None` standing for a null date; counts are integers.
 */
module SessionTypes {
  import opened Common
  import Mastery

  type MasteryLevel = Mastery.Level

  datatype TrackWeight = TrackWeight(track: string, weight: real)

  /** A learner's state for one concept. */
  datatype UserConceptState = UserConceptState(
    userId: string,
    conceptId: string,
    masteryLevel: MasteryLevel,
    nextDueAt: Option<int>,
    seenCount: int,
    updatedAt: int)

  datatype UserSettings = UserSettings(userId: string, subjectId: string, dailyMinutes: int)

  datatype AllocationKind = NewAllocation | ReviewAllocation

  datatype QuestionAllocation = QuestionAllocation(conceptId: string, questionCount: int, kind: AllocationKind)

  /** `date` holds the plan's day as the number YYYYMMDD. */
  datatype DailySessionPlan = DailySessionPlan(
    date: nat,
    newConceptId: Option<string>,
    reviewConceptIds: seq<string>,
    allocations: seq<QuestionAllocation>,
    totalQuestions: int)

  datatype SessionPlannerConfig = SessionPlannerConfig(
    minQuestions: int,
    maxQuestions: int,
    targetQuestions: int,
    maxReviewConcepts: int,
    trackWeights: seq<TrackWeight>)

  const DEFAULT_TRACK_WEIGHTS: seq<TrackWeight> := [TrackWeight("LLM_APP", 0.7), TrackWeight("CORE_TECH", 0.3)]

  const DEFAULT_SESSION_CONFIG: SessionPlannerConfig := SessionPlannerConfig(6, 10, 8, 2, DEFAULT_TRACK_WEIGHTS)
}
