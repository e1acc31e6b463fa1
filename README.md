# A verified model of the study planner's scheduling core

The system is a daily study planner. Its learners work through concepts. Each
concept belongs to a subject and a track, and may list other concepts as
prerequisites. This project models the decision logic behind each day's
session, and proves what it promises. It covers:

- **Curriculum order** (`Curriculum`, `CurriculumFacts`). `sortByCurriculumOrder`
  is Kahn's topological sort over the prerequisite edges between the concepts
  present in the input.
  - The ready queue is kept in input order.
  - Concepts that never become ready (a cycle, a self-edge) are appended
    afterwards in input order.
  - The function `KahnFrom` specifies the emission loop. The imperative
    method `SortByCurriculumOrder` mirrors the maps, loops and queue of the
    code, and is proved to return `CurriculumOrder`.
- **Unlocking and the daily pick** (`SessionEngine`).
  - A concept is unlocked when every prerequisite is scored at least 3.
  - `chooseUnlockedConceptForToday` walks the unlocked concepts in
    curriculum order through three tiers: a due review, then a concept that
    already has a mastery row, then a concept without one.
- **The daily plan** (`SessionPlan`, `DueReviews`, `SessionTypes`).
  `buildDailySessionPlan` merges the configuration with its defaults, then
  picks:
  - the earliest due reviews of the user's subject, at most
    `maxReviewConcepts` of them;
  - one unseen eligible concept, preferring the track that the day's date
    picks by weight;
  - a split of the clamped question budget between them.
- **The legacy selector** (`SessionSelection`). `chooseSessionConcept` picks
  from three candidate lists: due reviews, then new concepts, then a
  fallback list.
- **Level-based mastery** (`Mastery`). Levels run from 0 to 3, move after
  each scored quiz, and fix the review interval (2, 5 or 14 days).
- **The development rate limiter** (`RateLimit`).
  - The limiter allows 60 requests per 60-second window per client address
    and path.
  - Only paths under `/api/` are limited.
  - The module-level store is the `RateLimiter` class. The clock and the
    request headers are passed in as parameters.
- **The content slug audit** (`SlugAudit`).
  - It locates the seed's concepts insert block.
  - It detects duplicate slugs.
  - It compares seeded slugs with content slugs via the set logic that
    decides the exit status.

Shared modelling conventions:

- JavaScript's stable `sort(cmp)[0]` is modelled as "the first element
  whose key is lexicographically minimal" (`Ordering.FirstMinIndex`). Each
  comparator is rewritten as a key of reals.
- `new Map(xs.map(...))` keeps the last entry per key (`Common.LastByKey`,
  `Curriculum.ById`, `Curriculum.IndexById`).
- Timestamps are milliseconds since the epoch. `None` stands for a null,
  empty or unparseable date (NaN).

## Model

| member | source | states |
|---|---|---|
| Common.LastByKey | lib/sessionEngine.ts:140-141 | The map built from a list has exactly the list's keys; each key maps to the last element carrying it. |
| Curriculum.ByIdOk | lib/sessionEngine.ts:66 | With distinct ids, the id map sends each concept's id to that concept. |
| Curriculum.IndexByIdOk | lib/sessionEngine.ts:67 | With distinct ids, the index map sends each concept's id to its position in the input. |
| Curriculum.PendingZero | lib/sessionEngine.ts:76-82 | A concept's in-degree is zero exactly when each of its prerequisites present in the input has been emitted; absent prerequisites add no edge. |
| Curriculum.FirstReadyFrom | lib/sessionEngine.ts:91-104 | The concept the queue yields next is ready, and it has the smallest index among ready concepts; none means no concept is ready. |
| Curriculum.KahnFrom | lib/sessionEngine.ts:91-107 | The emission loop extends what was already emitted, and emits only input ids, never one twice. It stops only when no concept is ready or the next id is empty (the falsy-id break). |
| Curriculum.Remaining | lib/sessionEngine.ts:110-117 | The leftover ids are exactly the ids never emitted, each once when ids are distinct. |
| Curriculum.CurriculumOrderIds | lib/sessionEngine.ts:89-117 | The ordered ids are ids of the input; `CycleTailInInputOrder` and `EmitsFirstReady` state how they are arranged. |
| Curriculum.CurriculumOrder | lib/sessionEngine.ts:65-120 | Definition; its properties are in `CurriculumOrderIsPermutation`, `CurriculumOrderSameMembers` and `AcyclicOrderIsPrerequisiteFirst`. |
| Curriculum.ZeroQueueOk | lib/sessionEngine.ts:84-87 | The initial queue holds exactly the concepts with in-degree zero, sorted by input index. |
| Curriculum.InsertByIndexSorted | lib/sessionEngine.ts:103-104 | Pushing a newly freed id and re-sorting keeps the queue strictly sorted by input index. |
| Curriculum.HeadIsFirstReady | lib/sessionEngine.ts:91-94 | The head of the sorted ready queue is the first ready concept. |
| Curriculum.EmptyQueueNoneReady | lib/sessionEngine.ts:91 | When the queue is empty, no concept is ready. |
| Curriculum.InitGraph | lib/sessionEngine.ts:71-74 | Every concept of the input is a key, with in-degree 0 and no outbound edge, before any entry is visited. |
| Curriculum.AddEdge | lib/sessionEngine.ts:78-80 | After one more prerequisite entry, the in-degrees and outbound lists count exactly the entries visited so far that name a present concept; an absent one is skipped. |
| Curriculum.BuildGraph | lib/sessionEngine.ts:76-82 | Each in-degree is the number of ids in the concept's prerequisite list that are present concepts. Each outbound list holds exactly the concepts that list the prerequisite. |
| Curriculum.RelaxOne | lib/sessionEngine.ts:100-104 | After one more neighbour, each in-degree is its pending count less the neighbours visited so far, and the queue holds exactly the unemitted concepts at degree zero, sorted by input index. |
| Curriculum.RelaxNeighbors | lib/sessionEngine.ts:96-106 | After the emitted concept's neighbours are processed, the degrees equal the pending counts of the new emitted set, and the queue holds exactly the ready concepts in index order. |
| Curriculum.EmitInOrder | lib/sessionEngine.ts:89-107 | The imperative emission loop pushes exactly the ids of `KahnFrom` from an empty start. |
| Curriculum.SortByCurriculumOrder | lib/sessionEngine.ts:65-120 | The method returns `CurriculumOrder` of its input. |
| CurriculumFacts.CurriculumOrderIsPermutation | lib/sessionEngine.ts:65-120 | The curriculum order is a permutation of the input. |
| CurriculumFacts.CurriculumOrderSameMembers | lib/sessionEngine.ts:110-119 | The curriculum order has the input's length and exactly the input's concepts. |
| CurriculumFacts.CurriculumOrderDistinctIds | lib/sessionEngine.ts:110-119 | The curriculum order repeats no id. |
| CurriculumFacts.EmitsFirstReady | lib/sessionEngine.ts:91-106 | Each emitted id belongs to the ready concept with the smallest input index at that point, and is never empty. |
| CurriculumFacts.CycleTailInInputOrder | lib/sessionEngine.ts:109-117 | After the emitted prefix come exactly the never-emitted concepts, in input order. |
| CurriculumFacts.EmittedPrefixIsPrerequisiteFirst | lib/sessionEngine.ts:91-107 | On any input, every emitted concept comes after each of its present prerequisites. |
| CurriculumFacts.AcyclicEmitsAll | lib/sessionEngine.ts:91-110 | On an acyclic graph with non-empty ids, the loop emits every concept, so no fallback tail is appended. |
| CurriculumFacts.AcyclicOrderIsPrerequisiteFirst | lib/sessionEngine.ts:65-120 | On an acyclic graph with non-empty ids, the whole order puts every present prerequisite before the concept that needs it. |
| CurriculumFacts.NoEdgesKeepsInputOrder | lib/sessionEngine.ts:84-117 | When no prerequisite is present in the input, the curriculum order is the input order. This holds also when an empty id stops the loop, since the leftover step appends the rest in input order. |
| CurriculumFacts.PrerequisiteComesFirstExample | lib/sessionEngine.ts:65-120 | "sampling", which needs "tokens", is ordered after "tokens" even though it comes first in the input. |
| SessionEngine.IsUnlockedByPrerequisites | lib/sessionEngine.ts:122-131 | True with no prerequisites. Otherwise true exactly when every prerequisite has a score of at least 3; an unscored prerequisite locks the concept. |
| SessionEngine.UnlockThresholdExample | lib/sessionEngine.ts:10 | The threshold is inclusive: 2.99 keeps a concept locked and 3 unlocks it. |
| SessionEngine.PrerequisitesSatisfied | lib/sessionEngine.ts:58-63 | True exactly when every prerequisite has a state at level 3; a missing state fails. |
| SessionEngine.SatisfiedIsUnlockedByLevels | lib/sessionEngine.ts:58-63 | The planner's level test equals the score test applied to the levels. |
| SessionEngine.UnlockedInOrderMembers | lib/sessionEngine.ts:142-144 | The unlocked list holds exactly the input's unlocked concepts. |
| SessionEngine.DueCandidates | lib/sessionEngine.ts:151-158 | The due tier keeps exactly the unlocked concepts whose row has a review time at or before now. |
| SessionEngine.SeenCandidates | lib/sessionEngine.ts:175-177 | The fallback tier keeps exactly the unlocked concepts with a mastery row. |
| SessionEngine.UnseenCandidates | lib/sessionEngine.ts:197 | The new tier keeps exactly the unlocked concepts without a score. |
| SessionEngine.RowById | lib/sessionEngine.ts:141 | Definition (the last row per concept id); its meaning is `Common.LastByKey`. |
| SessionEngine.ScoreById | lib/sessionEngine.ts:140 | Definition (the score of that last row); its meaning is `Common.LastByKey`. |
| SessionEngine.DuePick | lib/sessionEngine.ts:159-172 | The due pick is a due candidate; `DuePickBefore` states its order. |
| SessionEngine.FallbackPick | lib/sessionEngine.ts:178-194 | The fallback pick is a seen candidate; `FallbackPickBefore` states its order. |
| SessionEngine.PickFromTiers | lib/sessionEngine.ts:146-200 | There is no pick exactly when nothing is unlocked. The tier is due exactly when some unlocked concept is due; otherwise it is fallback exactly when some unlocked concept has a row. The pick satisfies its tier. |
| SessionEngine.ChooseUnlockedConceptForToday | lib/sessionEngine.ts:133-203 | Null exactly when no concept is unlocked. Otherwise the pick is an unlocked input concept: due when one is due; else fallback when one has a row; else new. |
| SessionEngine.DuePickBefore | lib/sessionEngine.ts:159-169 | The due pick sorts before every other due candidate: review time, then score, then curriculum position. |
| SessionEngine.FallbackPickBefore | lib/sessionEngine.ts:178-191 | The fallback pick sorts before every other candidate: score, then unscheduled before scheduled, then review time, then curriculum position. |
| SessionEngine.DueTierPicksEarliest | lib/sessionEngine.ts:151-173 | When some unlocked concept is due, the pick is one of them and comes first in the due comparator. |
| SessionEngine.FallbackTierOrder | lib/sessionEngine.ts:175-195 | With nothing due but some unlocked concept holding a row, the pick comes first in the fallback comparator. |
| SessionEngine.NewTierPicksHead | lib/sessionEngine.ts:197-200 | With no unlocked concept holding a row, the pick is the head of the unlocked list, as a new concept. |
| SessionEngine.NewTierPicksFirstUnlocked | lib/sessionEngine.ts:138-148 | In that case, the pick is the first unlocked concept of the curriculum order. |
| SessionEngine.NeverSelectsLockedExample | lib/sessionEngine.ts:133-203 | A concept waiting on a missing prerequisite is never chosen; the open concept is. |
| SessionPlan.MergeConfig | lib/sessionEngine.ts:38-40 | Without overrides, the result is the default configuration. |
| SessionPlan.EmptyOverridesKeepDefaults | lib/sessionEngine.ts:38-40 | An empty override object keeps every default. |
| SessionPlan.FullOverridesReplaceDefaults | lib/sessionEngine.ts:38-40 | Overriding every field yields exactly the given configuration. |
| SessionPlan.OneOverride | lib/sessionEngine.ts:38-40 | One given field replaces its default; every other field keeps its default. |
| SessionPlan.Pick | lib/sessionEngine.ts:46-47 | The day's pick lies in [0, 1). |
| SessionPlan.FirstCovering | lib/sessionEngine.ts:49-53 | The walk returns the first track whose running share reaches the pick; none means no running share reaches it. |
| SessionPlan.WeightSum | lib/sessionEngine.ts:43 | Definition of the weight total; its properties are in `ShareIsPrefixSum` and `FullShareIsOne`. |
| SessionPlan.TrackByWeight | lib/sessionEngine.ts:42-56 | Definition; its properties are in `TrackIsListedUnlessWeightless` and `TrackCoversPick`. |
| SessionPlan.ChooseTrackByWeight | lib/sessionEngine.ts:42-56 | The accumulating loop returns `TrackByWeight`. |
| SessionPlan.ShareIsPrefixSum | lib/sessionEngine.ts:49-51 | The running share after i tracks is the sum of their weights over the total. |
| SessionPlan.TrackIsListedUnlessWeightless | lib/sessionEngine.ts:43-55 | A null track exactly when the weights sum to zero; otherwise one of the listed tracks. |
| SessionPlan.FullShareIsOne | lib/sessionEngine.ts:49-55 | All shares together make 1, so the last-track fallback is reached only through rounding. |
| SessionPlan.TrackCoversPick | lib/sessionEngine.ts:42-56 | For non-zero weights, the chosen track is that of a position whose running share reaches the pick while no earlier running share does. |
| SessionPlan.DefaultTrackExamples | lib/types.ts:60-63 | Under the default weights, a pick of 0.212 chooses LLM_APP and a pick of 0.815 chooses CORE_TECH. |
| SessionPlan.NewConceptFor | lib/sessionEngine.ts:225-233 | Definition; its properties are in `NewConceptOnTrack`, `NewConceptOffTrack` and `NoNewConcept`. |
| SessionPlan.NewConceptOnTrack | lib/sessionEngine.ts:232-233 | If an eligible concept is on the preferred track, the first such concept in order is chosen. |
| SessionPlan.NewConceptOffTrack | lib/sessionEngine.ts:232-233 | Otherwise, the first eligible concept is chosen. |
| SessionPlan.NoNewConcept | lib/sessionEngine.ts:225-233 | No new concept exactly when none is eligible: unseen, with every prerequisite at level 3. |
| SessionPlan.SubjectOrderMembers | lib/sessionEngine.ts:209-211 | The ordered subject list holds exactly the concepts of the user's subject. |
| SessionPlan.NewConceptChoiceIn | lib/sessionEngine.ts:225-233 | For any ordering of the subject's concepts: preferred-track-first choice, eligible and in the subject; none exactly when nothing is eligible. |
| SessionPlan.NewConceptChoice | lib/sessionEngine.ts:208-233 | The same, over the subject's concepts in curriculum order. |
| SessionPlan.TotalQuestions | lib/sessionEngine.ts:235 | The budget is at least the minimum. It is at most the maximum when min <= max, and equals the target when the target lies in range. |
| SessionPlan.DefaultBudget | lib/types.ts:65-71 | The default configuration gives a budget of 8 questions. |
| SessionPlan.Allocations | lib/sessionEngine.ts:236-254 | Definition; its properties are in `AllocationsShape`, `NewConceptSpendsBudget` and `ReviewsSpendBudget`. |
| SessionPlan.PushReviews | lib/sessionEngine.ts:245-247 | The push loop appends exactly those allocations. |
| SessionPlan.BuildAllocations | lib/sessionEngine.ts:236-254 | The allocation step returns `Allocations` of the new concept, the reviews and the budget. |
| SessionPlan.AllocationsShape | lib/sessionEngine.ts:236-254 | The new concept comes first, with at least 4 questions and at least the budget minus two per review. Then every due review follows in order with one shared count of at least 1, unless the new concept leaves no budget over. |
| SessionPlan.NewConceptSpendsBudget | lib/sessionEngine.ts:238-248 | With a new concept and room for two questions per review, the allocations add up to the budget exactly. |
| SessionPlan.ReviewsSpendBudget | lib/sessionEngine.ts:249-253 | With reviews only, the allocations use the budget, less under one question per review. |
| SessionPlan.DefaultPlanSpendsEight | lib/sessionEngine.ts:235-254 | Under the default configuration, any non-empty plan allocates exactly 8 questions. |
| SessionPlan.DailyPlan | lib/sessionEngine.ts:205-263 | Definition of the plan; its properties are in `PlanReviewsAreDue`, `PlanNewConceptIsEligible` and `PlanAllocatesPlannedConcepts`. |
| SessionPlan.PlanFor | lib/sessionEngine.ts:205-263 | Definition of the plan over a given ordering of the subject's concepts; `FirstDayPlanExample` evaluates it. |
| SessionPlan.BuildDailySessionPlan | lib/sessionEngine.ts:205-263 | The step-by-step planner returns `DailyPlan` of its input. |
| SessionPlan.PlanReviewsAreDue | lib/sessionEngine.ts:214-223 | Every review is a due state of a concept of the subject, and there are at most `maxReviewConcepts` of them. |
| SessionPlan.PlanNewConceptIsEligible | lib/sessionEngine.ts:225-233 | The plan's new concept, if any, is an eligible concept of the subject. |
| SessionPlan.AllocatesPlannedConcepts | lib/sessionEngine.ts:236-254 | Allocations go only to the new concept and the reviews. |
| SessionPlan.PlanAllocatesPlannedConcepts | lib/sessionEngine.ts:235-262 | A plan allocates only to its own new concept and reviews, and its budget is the clamped target. |
| SessionPlan.FirstDayPlanExample | lib/sessionEngine.ts:205-263 | Two concepts of one subject with no states give "tokens" as the new concept, with all 8 questions. |
| DueReviews.IsDueState | lib/sessionEngine.ts:215 | Definition: above level 0, with a due date at or before the plan date. |
| DueReviews.InsertByDueTime | lib/sessionEngine.ts:217-221 | One insertion step adds exactly the inserted state. |
| DueReviews.InsertKeepsSorted | lib/sessionEngine.ts:217-221 | Inserting into a list sorted by due time keeps it sorted. |
| DueReviews.InsertKeepsTies | lib/sessionEngine.ts:217-221 | Insertion places the new state after the states with the same due time. |
| DueReviews.SortByDueTime | lib/sessionEngine.ts:217-221 | The due sort is sorted by due time and is a permutation of its input. |
| DueReviews.SortKeepsTies | lib/sessionEngine.ts:217-221 | The sort is stable: states due at the same time keep their input order. |
| DueReviews.SliceTo | lib/sessionEngine.ts:222 | `slice(0, end)` is a prefix, of length `end` capped at the length; a negative end counts back from the end. |
| DueReviews.SubjectDueStates | lib/sessionEngine.ts:214-216 | It keeps exactly the states above level 0, due by the date, of concepts of the subject. |
| DueReviews.DueReviewStates | lib/sessionEngine.ts:214-222 | Definition of the due slice; its properties are in `DueReviewsAreEarliestDue`. |
| DueReviews.DueReviewsAreEarliestDue | lib/sessionEngine.ts:214-223 | The reviews are due subject states, sorted by due time, and the front of all of them in that order. There are `min(maxReviewConcepts, all)` of them. |
| Ordering.FirstMinIndex | lib/sessionSelection.ts:44-47 | The head of a stable sort: no element has a smaller key, and every earlier element has a strictly larger one. |
| Ordering.FilteredFirstMin | lib/sessionEngine.ts:151-172 | The head of a stably sorted filtered copy is located in the unfiltered input at the first position with the minimal key. |
| SessionSelection.Millis | lib/sessionSelection.ts:25-28 | Definition of `toMillis`, with NaN written as 0; each comparator tests for a parsed value before it compares times. |
| SessionSelection.DueNow | lib/sessionSelection.ts:39-43 | Definition of the due filter; `DueTierPicksEarliest` states what it keeps. |
| SessionSelection.DueKey | lib/sessionSelection.ts:44 | Definition of the due comparator; `DueTierPicksEarliest` states the order. |
| SessionSelection.NewKey | lib/sessionSelection.ts:50-57 | Definition of the new comparator; `NewTierPicksOldest` states the order. |
| SessionSelection.FallbackKey | lib/sessionSelection.ts:63-76 | Definition of the fallback comparator; `FallbackTierOrder` states the order. |
| SessionSelection.ChooseSessionConcept | lib/sessionSelection.ts:30-83 | Null exactly when nothing is due and both other lists are empty. Otherwise the tier is due, then new, then fallback, and the pick is a member of its tier's list. |
| SessionSelection.DueTierPicksEarliest | lib/sessionSelection.ts:39-48 | The pick is a candidate due now with the earliest review time; ties go to the one listed first. |
| SessionSelection.NewTierPicksOldest | lib/sessionSelection.ts:50-61 | The pick is the oldest dated candidate, with undated ones after every dated one; ties go to the one listed first. |
| SessionSelection.FallbackTierOrder | lib/sessionSelection.ts:63-80 | The pick has the lowest score. At equal score, unscheduled comes before scheduled, then the earliest review time; ties go to the one listed first. |
| SessionSelection.DueExample | lib/sessionSelection.ts:39-48 | Of two due reviews, the earlier one is picked over the new concept and the fallback. |
| SessionSelection.NewExample | lib/sessionSelection.ts:50-61 | A future review is skipped, and the older new concept wins. |
| SessionSelection.FallbackExample | lib/sessionSelection.ts:63-80 | At equal score, the unscheduled fallback wins. |
| Mastery.ClampMastery | primerloop/lib/mastery.ts:12-16 | Clamps into 0..3, keeps in-range levels, and returns the closest level. |
| Mastery.NextDueAt | primerloop/lib/mastery.ts:18-22 | None exactly at level 0. Otherwise `from` plus the level's days, always later than `from`. |
| Mastery.UpdateMasteryLevel | primerloop/lib/mastery.ts:24-31 | An unseen concept becomes level 1. A quiz moves the level by at most one. |
| Mastery.ApplyQuizResult | primerloop/lib/mastery.ts:33-40 | The new level, and the due date scheduled from it; a first attempt is due again in two days. |
| Mastery.NextDueAtSchedule | primerloop/lib/mastery.ts:5-10 | Levels 1, 2 and 3 wait 2, 5 and 14 days; level 0 is never scheduled. |
| Mastery.IntervalMonotone | primerloop/lib/mastery.ts:5-10 | A higher level never waits less. |
| Mastery.UpdateFollowsScoreBands | primerloop/lib/mastery.ts:28-30 | For a seen concept: promote at a ratio of 0.8 or more, capped at 3; demote below 0.5; otherwise keep. |
| Mastery.UpdateMonotoneInRatio | primerloop/lib/mastery.ts:24-31 | A better score never gives a lower level. |
| Mastery.ClampIdempotent | primerloop/lib/mastery.ts:12-16 | Clamping a clamped level changes nothing. |
| RateLimit.Trim | middleware.ts:31 | `trim` removes exactly the leading and trailing white space, and keeps the infix between. |
| RateLimit.FirstField | middleware.ts:31 | `split(",")[0]` is everything before the first comma. |
| RateLimit.ClientIp | middleware.ts:30-31 | The client address is the trimmed first field of the header, or "unknown" when there is no header or that field is blank. It is never empty and has no comma or surrounding white space. |
| RateLimit.MissingHeaderIsUnknown | middleware.ts:30 | Without the header, the client is "unknown". |
| RateLimit.PlainAddressIsKept | middleware.ts:31 | A single address without white space is used as it is. |
| RateLimit.StepOpensWindow | middleware.ts:36-39 | A first request, or the first after expiry, passes and opens a window of 60 000 ms with count 1. |
| RateLimit.StepInsideWindow | middleware.ts:41-47 | Inside a window, a request is limited exactly when the count reached 60. A limited request changes nothing; one that passes adds one and keeps the window end. |
| RateLimit.LimitedOnlyWhenFull | middleware.ts:36-47 | A request is limited exactly when it finds a full, unexpired window. |
| RateLimit.StepTouchesOnlyItsKey | middleware.ts:37-46 | Entries of other keys are left as they were, and no key disappears. |
| RateLimit.StepKeepsWellFormed | middleware.ts:36-47 | Every stored count stays between 1 and 60. |
| RateLimit.Step | middleware.ts:34-47 | Definition of one store update; its properties are in `StepOpensWindow`, `StepInsideWindow`, `LimitedOnlyWhenFull`, `StepTouchesOnlyItsKey` and `StepKeepsWellFormed`. |
| RateLimit.Passed | middleware.ts:36-47 | At most all of the requests pass; `AtMostMaxPerWindow` bounds it by 60 within one window. |
| RateLimit.AtMostMaxPerWindow | middleware.ts:6-7 | Within the window opened at t0, at most 60 requests for one key pass. |
| RateLimit.Gate | middleware.ts:51 | Definition of the `/api/` gate; its properties are in `NonApiPathsBypassLimiter` and `ApiPathsUseTheirKey`. |
| RateLimit.NonApiPathsBypassLimiter | middleware.ts:51 | A path outside "/api/" is never answered with 429 and leaves the store alone. |
| RateLimit.ApiPathsUseTheirKey | middleware.ts:51 | An "/api/" path is limited exactly when the window of its key is full. |
| RateLimit.RateLimiter.constructor | middleware.ts:18 | The store starts empty. |
| RateLimit.RateLimiter.CountRequest | middleware.ts:34-47 | The store update of one request is `Step` of the old store, and counts stay within 1..60. |
| RateLimit.RateLimiter.IsRateLimited | middleware.ts:29-48 | The request's key is derived, and the store is stepped for it. |
| RateLimit.RateLimiter.Middleware | middleware.ts:50-56 | Only "/api/" paths consult and change the store; the answer is 429 exactly when limited. |
| SlugAudit.IndexOf | scripts/audit-content-slugs.mjs:9-10 | `indexOf` is the first occurrence at or after the start, or -1 when there is none. |
| SlugAudit.LocateSeedInsertBlock | scripts/audit-content-slugs.mjs:8-13 | An error, with the script's message, exactly when the insert text is missing or no conflict clause follows it. Otherwise the first insert and the first clause after it. |
| SlugAudit.Unique | scripts/audit-content-slugs.mjs:97-98 | `[...new Set(s)]` holds every value once, exactly the values of s. |
| SlugAudit.UniqueKeepsFirstOccurrenceOrder | scripts/audit-content-slugs.mjs:97-98 | The unique values come in order of first occurrence. |
| SlugAudit.CountMap.Set | scripts/audit-content-slugs.mjs:75 | `map.set` updates the count, keeping an old key's place and appending a new key at the end. |
| SlugAudit.Duplicates | scripts/audit-content-slugs.mjs:72-78 | Definition; its meaning is `DuplicatesMeaning`, and `FindDuplicates` computes it. |
| SlugAudit.FindDuplicates | scripts/audit-content-slugs.mjs:72-78 | The counting loop returns `Duplicates` of its input. |
| SlugAudit.DuplicatesMeaning | scripts/audit-content-slugs.mjs:72-78 | A value is reported exactly when it occurs at least twice, and no value is reported twice. |
| SlugAudit.DistinctIffNoDuplicates | scripts/audit-content-slugs.mjs:105-106 | No duplicates are reported exactly when the list repeats no slug. |
| SlugAudit.OnlyInEmptyIffSameSlugs | scripts/audit-content-slugs.mjs:103-104 | Both only-in lists are empty exactly when the two lists hold the same slugs. |
| SlugAudit.AuditSlugs | scripts/audit-content-slugs.mjs:97-124 | The only-in lists are exactly the one-sided slugs, each once, and the duplicate lists are `Duplicates`. A mismatch is reported exactly when the slug sets differ, a list repeats a slug, or a content file is invalid. The invalid files are reported as given. |

## Left out

- The clock and date formatting are parameters.
  - "Now" is a millisecond number.
  - The planner receives the day twice: as milliseconds (`date`) and as the
    number YYYYMMDD of its UTC date (`daySeed`), which seeds the track choice.
  - The plan's ISO date string is represented by that number. ISO parsing
    of stored timestamps is left out: a timestamp is a parsed number, or
    `None` for null, empty or unparseable.
- Floating point: scores, weights and ratios are exact reals. The
  last-track fallback of `chooseTrackByWeight` (line 55) is modelled, but
  the rounding that makes it reachable is not.
- Configuration numbers are integers. Fractional or NaN values for
  `minQuestions`, `targetQuestions` or `maxReviewConcepts` are not modelled.
- Curriculum.SortByCurriculumOrder: requires distinct concept ids.
  - With a repeated id, the maps of the code keep the last concept for both
    copies.
  - The model does not state the output for such inputs.
  - `ChooseUnlockedConceptForToday` inherits this requirement for all its
    concepts. The planner needs it only for the concepts of the user's subject.
- The sort of each neighbour list (line 96) is not modelled separately.
  - The outbound lists are built in input order, so they are already in
    index order.
  - The queue is re-sorted after every push, so the neighbour order cannot
    change the result.
- The `return null` after the new tier (sessionEngine.ts line 202) is
  unreachable, and the model has no separate branch for it.
  - When the unlocked list is not empty and no unlocked concept has a mastery
    row, every unlocked concept is unseen.
- `createdAt` of a curriculum concept is never read by the modelled code, so
  the model's `Concept` does not carry it.
- Mastery.ClampMastery: takes integer levels. For a fractional level between
  0 and 3, the code returns that level cast as a `MasteryLevel`; the model
  cannot represent this.
- RateLimit.RateLimiter.IsRateLimited: the header lookup and `Date.now()`
  become parameters. The update is split into `ClientKey` and `CountRequest`.
- Not modelled from middleware.ts:
  - the security headers;
  - the Supabase session cookie handling that follows the gate;
  - the `globalThis` sharing of the store between module reloads.
- Not modelled from the slug audit:
  - reading `seed.sql` and the content tree;
  - the tuple regular expression inside the insert block;
  - the per-file JSON parsing behind `invalidFiles`;
  - the console log;
  - setting the exit code (`hasMismatch` is computed and returned).
- The daily pick tries the due tier, then the fallback tier (concepts with a
  mastery row), then new concepts, as the code does
  (lib/sessionEngine.ts:171-200).
