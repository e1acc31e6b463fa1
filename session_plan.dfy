/**
 * buildDailySessionPlan of lib/sessionEngine.ts: the day's due reviews (at
 * most maxReviewConcepts, earliest due first), one new concept (unseen,
 * prerequisites at the top level, preferring the track the day's seed picks),
 * and a split of the question budget between them.
 *
 * The day is given twice: as milliseconds since the epoch (`date`), compared
 * with due times, and as the number YYYYMMDD of its UTC calendar date
 * (`daySeed`), which seeds the track choice and stands for the plan's date
 * string.
 */
module SessionPlan {
  import opened Common
  import opened Curriculum
  import opened CurriculumFacts
  import opened SessionTypes
  import opened SessionEngine
  import opened DueReviews

  // ---------------------------------------------------------------------
  // Configuration
  // ---------------------------------------------------------------------

  /** A `Partial<SessionPlannerConfig>`: `None` for a field that is not given. */
  datatype ConfigOverrides = ConfigOverrides(
    minQuestions: Option<int>,
    maxQuestions: Option<int>,
    targetQuestions: Option<int>,
    maxReviewConcepts: Option<int>,
    trackWeights: Option<seq<TrackWeight>>)

  const NO_OVERRIDES: ConfigOverrides := ConfigOverrides(None, None, None, None, None)

  function Override<T>(given: Option<T>, default: T): T
  {
    if given.Some? then given.value else default
  }

  /** mergeConfig: the defaults, with each given field replacing its default. */
  function MergeConfig(config: Option<ConfigOverrides>): (r: SessionPlannerConfig)
    ensures config.None? ==> r == DEFAULT_SESSION_CONFIG
  {
    match config
    case None => DEFAULT_SESSION_CONFIG
    case Some(o) =>
      SessionPlannerConfig(
        Override(o.minQuestions, DEFAULT_SESSION_CONFIG.minQuestions),
        Override(o.maxQuestions, DEFAULT_SESSION_CONFIG.maxQuestions),
        Override(o.targetQuestions, DEFAULT_SESSION_CONFIG.targetQuestions),
        Override(o.maxReviewConcepts, DEFAULT_SESSION_CONFIG.maxReviewConcepts),
        Override(o.trackWeights, DEFAULT_SESSION_CONFIG.trackWeights))
  }

  /** Giving no field keeps the defaults. */
  lemma EmptyOverridesKeepDefaults()
    ensures MergeConfig(Some(NO_OVERRIDES)) == DEFAULT_SESSION_CONFIG
  {
  }

  /** Giving every field of a configuration yields that configuration. */
  lemma FullOverridesReplaceDefaults(c: SessionPlannerConfig)
    ensures MergeConfig(Some(ConfigOverrides(Some(c.minQuestions), Some(c.maxQuestions), Some(c.targetQuestions),
                                             Some(c.maxReviewConcepts), Some(c.trackWeights)))) == c
  {
  }

  /** Any one field given alone is that field of the result; the other fields keep their defaults. */
  lemma OneOverride(n: int, ws: seq<TrackWeight>)
    ensures MergeConfig(Some(NO_OVERRIDES.(minQuestions := Some(n))))
         == DEFAULT_SESSION_CONFIG.(minQuestions := n)
    ensures MergeConfig(Some(NO_OVERRIDES.(maxQuestions := Some(n))))
         == DEFAULT_SESSION_CONFIG.(maxQuestions := n)
    ensures MergeConfig(Some(NO_OVERRIDES.(targetQuestions := Some(n))))
         == DEFAULT_SESSION_CONFIG.(targetQuestions := n)
    ensures MergeConfig(Some(NO_OVERRIDES.(maxReviewConcepts := Some(n))))
         == DEFAULT_SESSION_CONFIG.(maxReviewConcepts := n)
    ensures MergeConfig(Some(NO_OVERRIDES.(trackWeights := Some(ws))))
         == DEFAULT_SESSION_CONFIG.(trackWeights := ws)
  {
  }

  // ---------------------------------------------------------------------
  // The track of the day
  // ---------------------------------------------------------------------

  /** `trackWeights.reduce((sum, item) => sum + item.weight, 0)`. */
  function WeightSum(ws: seq<TrackWeight>): real
    decreases |ws|
  {
    if |ws| == 0 then 0.0 else WeightSum(ws[..|ws| - 1]) + ws[|ws| - 1].weight
  }

  /** The running share after the first `i` tracks. */
  function CumulativeShare(ws: seq<TrackWeight>, total: real, i: nat): real
    requires total != 0.0 && i <= |ws|
    decreases i
  {
    if i == 0 then 0.0 else CumulativeShare(ws, total, i - 1) + ws[i - 1].weight / total
  }

  /** The first track at or after `i` whose running share reaches `pick`. */
  function FirstCovering(ws: seq<TrackWeight>, total: real, pick: real, i: nat): (r: Option<nat>)
    requires total != 0.0 && i <= |ws|
    ensures r.Some? ==> i <= r.value < |ws| && pick <= CumulativeShare(ws, total, r.value + 1)
    ensures r.Some? ==> forall j :: i < j <= r.value ==> pick > CumulativeShare(ws, total, j)
    ensures r.None? ==> forall j :: i < j <= |ws| ==> pick > CumulativeShare(ws, total, j)
    decreases |ws| - i
  {
    if i == |ws| then None
    else if pick <= CumulativeShare(ws, total, i + 1) then Some(i)
    else FirstCovering(ws, total, pick, i + 1)
  }

  /** The day's point in [0, 1): the last three digits of YYYYMMDD, over 1000. */
  function Pick(daySeed: nat): (r: real)
    ensures 0.0 <= r < 1.0
  {
    (daySeed % 1000) as real / 1000.0
  }

  /** What chooseTrackByWeight returns. */
  function TrackByWeight(daySeed: nat, ws: seq<TrackWeight>): Option<string>
  {
    var total := WeightSum(ws);
    if total == 0.0 then None
    else
      match FirstCovering(ws, total, Pick(daySeed), 0)
      case Some(j) => Some(ws[j].track)
      case None => if |ws| > 0 then Some(ws[|ws| - 1].track) else None
  }

  /** chooseTrackByWeight: walk the tracks accumulating weight shares until the day's pick is covered. */
  method ChooseTrackByWeight(daySeed: nat, config: SessionPlannerConfig) returns (track: Option<string>)
    ensures track == TrackByWeight(daySeed, config.trackWeights)
  {
    var ws := config.trackWeights;
    var total := WeightSum(ws);
    if total == 0.0 {
      return None;
    }
    var pick := Pick(daySeed);
    var running := 0.0;
    for i := 0 to |ws|
      invariant running == CumulativeShare(ws, total, i)
      invariant FirstCovering(ws, total, pick, 0) == FirstCovering(ws, total, pick, i)
    {
      running := running + ws[i].weight / total;
      if pick <= running {
        return Some(ws[i].track);
      }
    }
    if |ws| > 0 {
      track := Some(ws[|ws| - 1].track);
    } else {
      track := None;
    }
  }

  lemma {:induction false} ShareIsPrefixSum(ws: seq<TrackWeight>, total: real, i: nat)
    requires total != 0.0 && i <= |ws|
    ensures CumulativeShare(ws, total, i) == WeightSum(ws[..i]) / total
    decreases i
  {
    if i > 0 {
      ShareIsPrefixSum(ws, total, i - 1);
      assert ws[..i][..i - 1] == ws[..i - 1];
    }
  }

  lemma {:induction false} EmptyWeightsSumToZero(ws: seq<TrackWeight>)
    ensures |ws| == 0 ==> WeightSum(ws) == 0.0
  {
  }

  /** No track when the weights sum to zero; otherwise one of the listed tracks. */
  lemma TrackIsListedUnlessWeightless(daySeed: nat, ws: seq<TrackWeight>)
    ensures TrackByWeight(daySeed, ws).None? <==> WeightSum(ws) == 0.0
    ensures TrackByWeight(daySeed, ws).Some? ==> exists j :: 0 <= j < |ws| && ws[j].track == TrackByWeight(daySeed, ws).value
  {
    EmptyWeightsSumToZero(ws);
  }

  /** All the shares together make 1. */
  lemma FullShareIsOne(ws: seq<TrackWeight>)
    requires WeightSum(ws) != 0.0
    ensures CumulativeShare(ws, WeightSum(ws), |ws|) == 1.0
  {
    var total := WeightSum(ws);
    ShareIsPrefixSum(ws, total, |ws|);
    assert ws[..|ws|] == ws;
    assert total / total == 1.0;
  }

  /**
   * Track j's share interval (running share before it, running share after
   * it] contains the pick, and no earlier running share reaches the pick.
   */
  predicate FirstToCover(ws: seq<TrackWeight>, total: real, pick: real, j: nat)
    requires total != 0.0 && j < |ws|
  {
    pick <= CumulativeShare(ws, total, j + 1)
    && forall k :: 0 < k <= j ==> CumulativeShare(ws, total, k) < pick
  }

  /**
   * For weights that do not sum to zero, the chosen track is the first one
   * whose share interval contains the day's pick.
   */
  lemma TrackCoversPick(daySeed: nat, ws: seq<TrackWeight>)
    requires WeightSum(ws) != 0.0
    ensures exists j :: (0 <= j < |ws| && TrackByWeight(daySeed, ws) == Some(ws[j].track)
      && FirstToCover(ws, WeightSum(ws), Pick(daySeed), j))
  {
    var total := WeightSum(ws);
    var pick := Pick(daySeed);
    FullShareIsOne(ws);
    var r := FirstCovering(ws, total, pick, 0);
    assert r.Some?;
    var j := r.value;
    assert TrackByWeight(daySeed, ws) == Some(ws[j].track);
    assert FirstToCover(ws, total, pick, j);
  }

  /** Under the default weights a pick up to 0.7 chooses LLM_APP and a later one CORE_TECH. */
  lemma DefaultTrackExamples()
    ensures TrackByWeight(20260212, DEFAULT_TRACK_WEIGHTS) == Some("LLM_APP")
    ensures TrackByWeight(20260815, DEFAULT_TRACK_WEIGHTS) == Some("CORE_TECH")
  {
    var ws := DEFAULT_TRACK_WEIGHTS;
    assert WeightSum(ws[..1]) == 0.7;
    assert WeightSum(ws) == 1.0;
    assert CumulativeShare(ws, 1.0, 1) == 0.7;
    assert CumulativeShare(ws, 1.0, 2) == 1.0;
  }

  // ---------------------------------------------------------------------
  // The new concept
  // ---------------------------------------------------------------------

  function StateKey(s: UserConceptState): string
  {
    s.conceptId
  }

  /** `new Map(states.map((s) => [s.conceptId, s]))`: the last state of each concept. */
  function StateById(states: seq<UserConceptState>): map<string, UserConceptState>
  {
    LastByKey(states, StateKey)
  }

  function InSubject(subjectId: string): Concept -> bool
  {
    (c: Concept) => c.subjectId == subjectId
  }

  /** The concepts of one subject, in input order. */
  function SubjectConcepts(concepts: seq<Concept>, subjectId: string): seq<Concept>
  {
    Filter(concepts, InSubject(subjectId))
  }

  /** No state for the concept, or a state at level 0. */
  predicate Unseen(stateById: map<string, UserConceptState>, c: Concept)
  {
    c.id !in stateById || stateById[c.id].masteryLevel == 0
  }

  /** Unseen, with every prerequisite at the top level. */
  predicate Eligible(stateById: map<string, UserConceptState>, c: Concept)
  {
    Unseen(stateById, c) && PrerequisitesSatisfied(c.prerequisiteIds, stateById)
  }

  function IsEligible(stateById: map<string, UserConceptState>): Concept -> bool
  {
    (c: Concept) => Eligible(stateById, c)
  }

  function OnTrack(preferred: Option<string>): Concept -> bool
  {
    (c: Concept) => Some(c.track) == preferred
  }

  function EligibleOnTrack(stateById: map<string, UserConceptState>, preferred: Option<string>): Concept -> bool
  {
    (c: Concept) => Eligible(stateById, c) && Some(c.track) == preferred
  }

  /**
   * `unseenEligible.find((c) => c.track === preferredTrack) ?? unseenEligible[0] ?? null`,
   * where `unseenEligible` keeps the curriculum order `ordered`.
   */
  function NewConceptFor(ordered: seq<Concept>, stateById: map<string, UserConceptState>, preferred: Option<string>)
    : Option<Concept>
  {
    var eligible := Filter(ordered, IsEligible(stateById));
    var onTrack := Filter(eligible, OnTrack(preferred));
    if |onTrack| > 0 then Some(onTrack[0])
    else if |eligible| > 0 then Some(eligible[0])
    else None
  }

  /** A filter keeps ids distinct. */
  lemma {:induction false} FilterKeepsDistinctIds(cs: seq<Concept>, p: Concept -> bool)
    requires DistinctIds(cs)
    ensures DistinctIds(Filter(cs, p))
    decreases |cs|
  {
    if |cs| > 0 {
      var n := |cs| - 1;
      DistinctIdsPrefix(cs, n);
      FilterKeepsDistinctIds(cs[..n], p);
      var front := Filter(cs[..n], p);
      if p(cs[n]) {
        forall i | 0 <= i < |front|
          ensures front[i].id != cs[n].id
        {
          assert front[i] in cs[..n];
          var k :| 0 <= k < n && cs[..n][k] == front[i];
        }
        var r := front + [cs[n]];
        assert Filter(cs, p) == r;
        assert forall i, j :: 0 <= i < j < |r| ==> r[i].id != r[j].id;
      } else {
        assert Filter(cs, p) == front;
      }
    }
  }

  /** The first eligible concept on the preferred track wins. */
  lemma NewConceptOnTrack(ordered: seq<Concept>, stateById: map<string, UserConceptState>, preferred: Option<string>)
    requires |Filter(Filter(ordered, IsEligible(stateById)), OnTrack(preferred))| > 0
    ensures var n := NewConceptFor(ordered, stateById, preferred);
      && n.Some? && Some(n.value.track) == preferred && n.value in ordered && Eligible(stateById, n.value)
      && exists i :: 0 <= i < |ordered| && ordered[i] == n.value &&
           forall j :: 0 <= j < i ==> !(Eligible(stateById, ordered[j]) && Some(ordered[j].track) == preferred)
  {
    FilterTwice(ordered, IsEligible(stateById), OnTrack(preferred), EligibleOnTrack(stateById, preferred));
    FilterFirst(ordered, EligibleOnTrack(stateById, preferred));
    var onTrack := Filter(ordered, EligibleOnTrack(stateById, preferred));
    assert onTrack[0] in onTrack;
  }

  /** Without an eligible concept on the preferred track, the first eligible concept wins. */
  lemma NewConceptOffTrack(ordered: seq<Concept>, stateById: map<string, UserConceptState>, preferred: Option<string>)
    requires |Filter(Filter(ordered, IsEligible(stateById)), OnTrack(preferred))| == 0
    requires |Filter(ordered, IsEligible(stateById))| > 0
    ensures var n := NewConceptFor(ordered, stateById, preferred);
      && n.Some? && n.value in ordered && Eligible(stateById, n.value)
      && (forall c :: c in ordered && Eligible(stateById, c) ==> Some(c.track) != preferred)
      && exists i :: 0 <= i < |ordered| && ordered[i] == n.value &&
           forall j :: 0 <= j < i ==> !Eligible(stateById, ordered[j])
  {
    var eligible := Filter(ordered, IsEligible(stateById));
    FilterFirst(ordered, IsEligible(stateById));
    assert eligible[0] in eligible;
    var onTrack := Filter(eligible, OnTrack(preferred));
    assert forall c :: c in eligible ==> c !in onTrack;
  }

  /** No eligible concept, no new concept. */
  lemma NoNewConcept(ordered: seq<Concept>, stateById: map<string, UserConceptState>, preferred: Option<string>)
    ensures NewConceptFor(ordered, stateById, preferred).None? <==>
      forall c :: c in ordered ==> !Eligible(stateById, c)
  {
    var eligible := Filter(ordered, IsEligible(stateById));
    if |eligible| > 0 {
      assert NewConceptFor(ordered, stateById, preferred).Some?;
      assert eligible[0] in ordered && Eligible(stateById, eligible[0]);
    } else {
      assert |Filter(eligible, OnTrack(preferred))| == 0;
      assert forall c :: c in ordered && IsEligible(stateById)(c) ==> c in eligible;
    }
  }

  /** The subject's concepts in curriculum order are exactly the subject's concepts. */
  lemma SubjectOrderMembers(concepts: seq<Concept>, subjectId: string)
    requires DistinctIds(SubjectConcepts(concepts, subjectId))
    ensures forall c :: c in CurriculumOrder(SubjectConcepts(concepts, subjectId)) <==>
      c in concepts && c.subjectId == subjectId
  {
    CurriculumOrderSameMembers(SubjectConcepts(concepts, subjectId));
  }

  /**
   * `n` is the new concept the planner may pick from `ordered`, an ordering of
   * the subject's concepts: it is an eligible concept of the subject; it is the
   * first eligible concept on the preferred track when there is one, and
   * otherwise the first eligible concept; there is none exactly when no
   * concept of the subject is eligible.
   */
  ghost predicate IsNewConceptChoice(ordered: seq<Concept>, concepts: seq<Concept>, subjectId: string,
                                     stateById: map<string, UserConceptState>, preferred: Option<string>,
                                     n: Option<Concept>)
  {
    && (n.None? <==> forall c :: c in concepts && c.subjectId == subjectId ==> !Eligible(stateById, c))
    && (n.Some? ==> n.value in concepts && n.value.subjectId == subjectId && Eligible(stateById, n.value))
    && (n.Some? && Some(n.value.track) == preferred ==>
          exists i :: 0 <= i < |ordered| && ordered[i] == n.value &&
            forall j :: 0 <= j < i ==> !(Eligible(stateById, ordered[j]) && Some(ordered[j].track) == preferred))
    && (n.Some? && Some(n.value.track) != preferred ==>
          (forall c :: c in concepts && c.subjectId == subjectId && Eligible(stateById, c) ==> Some(c.track) != preferred)
          && exists i :: 0 <= i < |ordered| && ordered[i] == n.value &&
               forall j :: 0 <= j < i ==> !Eligible(stateById, ordered[j]))
  }

  /** NewConceptChoice for any ordering of the subject's concepts. */
  lemma NewConceptChoiceIn(ordered: seq<Concept>, concepts: seq<Concept>, subjectId: string,
                           stateById: map<string, UserConceptState>, preferred: Option<string>)
    requires forall c :: c in ordered <==> c in concepts && c.subjectId == subjectId
    ensures IsNewConceptChoice(ordered, concepts, subjectId, stateById, preferred,
                               NewConceptFor(ordered, stateById, preferred))
  {
    NoNewConcept(ordered, stateById, preferred);
    if |Filter(Filter(ordered, IsEligible(stateById)), OnTrack(preferred))| > 0 {
      NewConceptOnTrack(ordered, stateById, preferred);
    } else if |Filter(ordered, IsEligible(stateById))| > 0 {
      NewConceptOffTrack(ordered, stateById, preferred);
    }
  }

  /** The planner's new concept, over the subject's concepts in curriculum order. */
  lemma NewConceptChoice(concepts: seq<Concept>, subjectId: string, stateById: map<string, UserConceptState>,
                         preferred: Option<string>)
    requires DistinctIds(SubjectConcepts(concepts, subjectId))
    ensures IsNewConceptChoice(CurriculumOrder(SubjectConcepts(concepts, subjectId)), concepts, subjectId,
                               stateById, preferred,
                               NewConceptFor(CurriculumOrder(SubjectConcepts(concepts, subjectId)), stateById, preferred))
  {
    SubjectOrderMembers(concepts, subjectId);
    NewConceptChoiceIn(CurriculumOrder(SubjectConcepts(concepts, subjectId)), concepts, subjectId, stateById, preferred);
  }

  // ---------------------------------------------------------------------
  // The question budget
  // ---------------------------------------------------------------------

  /** The target clamped to at most the maximum and at least the minimum. */
  function TotalQuestions(config: SessionPlannerConfig): (r: int)
    ensures r >= config.minQuestions
    ensures config.minQuestions <= config.maxQuestions ==> r <= config.maxQuestions
    ensures config.minQuestions <= config.targetQuestions <= config.maxQuestions ==> r == config.targetQuestions
  {
    Max(config.minQuestions, Min(config.targetQuestions, config.maxQuestions))
  }

  lemma DefaultBudget()
    ensures TotalQuestions(DEFAULT_SESSION_CONFIG) == 8
  {
  }

  /** Every concept of `ids`, in order, reviewed with `perReview` questions. */
  function Reviews(ids: seq<string>, perReview: int): (r: seq<QuestionAllocation>)
    ensures |r| == |ids|
    ensures forall k :: 0 <= k < |ids| ==> r[k] == QuestionAllocation(ids[k], perReview, ReviewAllocation)
  {
    seq(|ids|, k requires 0 <= k < |ids| => QuestionAllocation(ids[k], perReview, ReviewAllocation))
  }

  /** The allocations buildDailySessionPlan makes for a new concept, the due reviews and the budget. */
  function Allocations(newConceptId: Option<string>, reviewIds: seq<string>, total: int): seq<QuestionAllocation>
  {
    var r := |reviewIds|;
    match newConceptId
    case Some(id) =>
      var newCount := Max(4, total - r * 2);
      var remaining := total - newCount;
      [QuestionAllocation(id, newCount, NewAllocation)]
        + (if remaining > 0 && r > 0 then Reviews(reviewIds, Max(1, remaining / r)) else [])
    case None =>
      Reviews(reviewIds, if r > 0 then Max(1, total / r) else 0)
  }

  /** Appends one review allocation per id. */
  method PushReviews(allocations0: seq<QuestionAllocation>, ids: seq<string>, perReview: int)
    returns (allocations: seq<QuestionAllocation>)
    ensures allocations == allocations0 + Reviews(ids, perReview)
  {
    allocations := allocations0;
    for k := 0 to |ids|
      invariant allocations == allocations0 + Reviews(ids[..k], perReview)
    {
      allocations := allocations + [QuestionAllocation(ids[k], perReview, ReviewAllocation)];
    }
    assert ids[..|ids|] == ids;
  }

  /** The allocation step of buildDailySessionPlan. */
  method BuildAllocations(newConceptId: Option<string>, dueReviews: seq<string>, totalQuestions: int)
    returns (allocations: seq<QuestionAllocation>)
    ensures allocations == Allocations(newConceptId, dueReviews, totalQuestions)
  {
    var r := |dueReviews|;
    if newConceptId.Some? {
      var newCount := Max(4, totalQuestions - r * 2);
      var head := [QuestionAllocation(newConceptId.value, newCount, NewAllocation)];
      var remaining := totalQuestions - newCount;
      if remaining > 0 && r > 0 {
        var perReview := Max(1, remaining / r);
        allocations := PushReviews(head, dueReviews, perReview);
      } else {
        allocations := head;
      }
    } else {
      var perReview := if r > 0 then Max(1, totalQuestions / r) else 0;
      allocations := PushReviews([], dueReviews, perReview);
    }
  }

  /** The questions of a list of allocations, added up. */
  function QuestionSum(allocations: seq<QuestionAllocation>): int
    decreases |allocations|
  {
    if |allocations| == 0 then 0
    else QuestionSum(allocations[..|allocations| - 1]) + allocations[|allocations| - 1].questionCount
  }

  lemma {:induction false} ReviewsSum(ids: seq<string>, perReview: int)
    ensures QuestionSum(Reviews(ids, perReview)) == |ids| * perReview
    decreases |ids|
  {
    if |ids| > 0 {
      var n := |ids| - 1;
      ReviewsSum(ids[..n], perReview);
      assert Reviews(ids, perReview)[..n] == Reviews(ids[..n], perReview);
    }
  }

  lemma {:induction false} QuestionSumAppend(a: seq<QuestionAllocation>, b: seq<QuestionAllocation>)
    ensures QuestionSum(a + b) == QuestionSum(a) + QuestionSum(b)
    decreases |b|
  {
    if |b| > 0 {
      var n := |b| - 1;
      assert (a + b)[..|a + b| - 1] == a + b[..n];
      QuestionSumAppend(a, b[..n]);
    } else {
      assert a + b == a;
    }
  }

  /**
   * The shape of the allocations: the new concept first, with at least 4
   * questions and at least the budget less two per review; then the due
   * reviews in order, each with the same count of at least 1; every due
   * review is allocated unless a new concept leaves no budget over.
   */
  lemma AllocationsShape(newConceptId: Option<string>, reviewIds: seq<string>, total: int)
    ensures var a := Allocations(newConceptId, reviewIds, total);
      var r := |reviewIds|;
      var off := if newConceptId.Some? then 1 else 0;
      && (newConceptId.Some? ==> |a| > 0 && a[0].conceptId == newConceptId.value && a[0].kind == NewAllocation
                                 && a[0].questionCount >= 4 && a[0].questionCount >= total - 2 * r)
      && (|a| == off + r || (newConceptId.Some? && |a| == 1 && total <= a[0].questionCount))
      && (forall k :: off <= k < |a| ==> a[k].conceptId == reviewIds[k - off] && a[k].kind == ReviewAllocation
                                          && a[k].questionCount >= 1 && a[k].questionCount == a[off].questionCount)
  {
  }

  /** With a new concept and room for two questions per review, the budget is spent exactly. */
  lemma NewConceptSpendsBudget(id: string, reviewIds: seq<string>, total: int)
    requires total >= 4 + 2 * |reviewIds|
    ensures QuestionSum(Allocations(Some(id), reviewIds, total)) == total
  {
    var r := |reviewIds|;
    var newCount := Max(4, total - r * 2);
    assert newCount == total - 2 * r;
    var head := [QuestionAllocation(id, newCount, NewAllocation)];
    assert QuestionSum(head) == newCount by {
      assert head[..0] == [];
    }
    if r > 0 {
      TwiceOverSelf(r);
      assert Max(1, (total - newCount) / r) == 2;
      assert Allocations(Some(id), reviewIds, total) == head + Reviews(reviewIds, 2);
      ReviewsSum(reviewIds, 2);
      QuestionSumAppend(head, Reviews(reviewIds, 2));
    } else {
      assert Allocations(Some(id), reviewIds, total) == head;
    }
  }

  lemma TwiceOverSelf(r: int)
    requires r > 0
    ensures (2 * r) / r == 2
  {
  }

  /** With reviews only and at least one question per review, the budget is spent up to less than one per review. */
  lemma ReviewsSpendBudget(reviewIds: seq<string>, total: int)
    requires |reviewIds| > 0 && total >= |reviewIds|
    ensures var spent := QuestionSum(Allocations(None, reviewIds, total));
      total - |reviewIds| < spent <= total
  {
    var r := |reviewIds|;
    var per := total / r;
    assert per >= 1;
    ReviewsSum(reviewIds, per);
    assert total == r * per + total % r;
  }

  /** Under the default configuration, a plan with anything in it has exactly 8 questions. */
  lemma DefaultPlanSpendsEight(newConceptId: Option<string>, reviewIds: seq<string>)
    requires |reviewIds| <= DEFAULT_SESSION_CONFIG.maxReviewConcepts
    requires newConceptId.Some? || |reviewIds| > 0
    ensures QuestionSum(Allocations(newConceptId, reviewIds, TotalQuestions(DEFAULT_SESSION_CONFIG))) == 8
  {
    if newConceptId.Some? {
      NewConceptSpendsBudget(newConceptId.value, reviewIds, 8);
    } else {
      ReviewsSum(reviewIds, 8 / |reviewIds|);
    }
  }

  // ---------------------------------------------------------------------
  // The plan
  // ---------------------------------------------------------------------

  /**
   * A PlannerInput with the day made explicit: `date` in milliseconds since
   * the epoch and `daySeed` the YYYYMMDD number of the same UTC day.
   */
  datatype PlannerInput = PlannerInput(
    concepts: seq<Concept>,
    states: seq<UserConceptState>,
    userSettings: UserSettings,
    date: int,
    daySeed: nat,
    config: Option<ConfigOverrides>)

  function IdOf(c: Option<Concept>): Option<string>
  {
    if c.Some? then Some(c.value.id) else None
  }

  /** What buildDailySessionPlan returns. */
  function DailyPlan(input: PlannerInput): DailySessionPlan
  {
    PlanFor(input, CurriculumOrder(SubjectConcepts(input.concepts, input.userSettings.subjectId)))
  }

  /** The plan, given the subject's concepts in curriculum order. */
  function PlanFor(input: PlannerInput, ordered: seq<Concept>): DailySessionPlan
  {
    var config := MergeConfig(input.config);
    var stateById := StateById(input.states);
    var reviews := ConceptIds(DueReviewStates(input.states, IdSet(ordered), input.date, config.maxReviewConcepts));
    var newConceptId := IdOf(NewConceptFor(ordered, stateById, TrackByWeight(input.daySeed, config.trackWeights)));
    var total := TotalQuestions(config);
    DailySessionPlan(input.daySeed, newConceptId, reviews, Allocations(newConceptId, reviews, total), total)
  }

  /** buildDailySessionPlan, step by step. */
  method BuildDailySessionPlan(input: PlannerInput) returns (plan: DailySessionPlan)
    requires DistinctIds(SubjectConcepts(input.concepts, input.userSettings.subjectId))
    ensures plan == DailyPlan(input)
  {
    var config := MergeConfig(input.config);
    var stateById := StateById(input.states);
    var inSubject := SubjectConcepts(input.concepts, input.userSettings.subjectId);
    var subjectConcepts := SortByCurriculumOrder(inSubject);
    var subjectConceptIds := IdSet(subjectConcepts);
    var dueReviews := ConceptIds(DueReviewStates(input.states, subjectConceptIds, input.date, config.maxReviewConcepts));
    var preferredTrack := ChooseTrackByWeight(input.daySeed, config);
    var newConcept := NewConceptFor(subjectConcepts, stateById, preferredTrack);
    var newConceptId := IdOf(newConcept);
    var totalQuestions := TotalQuestions(config);
    var allocations := BuildAllocations(newConceptId, dueReviews, totalQuestions);
    plan := DailySessionPlan(input.daySeed, newConceptId, dueReviews, allocations, totalQuestions);
  }

  /** A due state of a concept of the subject, for concept `id`. */
  predicate DueSubjectReview(input: PlannerInput, id: string)
  {
    exists s :: s in input.states && IsDueState(s, input.date) && s.conceptId == id &&
      exists c :: c in input.concepts && c.subjectId == input.userSettings.subjectId && c.id == id
  }

  /** An eligible concept of the subject with id `id`. */
  predicate EligibleSubjectConcept(input: PlannerInput, id: string)
  {
    exists c :: c in input.concepts && c.id == id && c.subjectId == input.userSettings.subjectId &&
      Eligible(StateById(input.states), c)
  }

  /** The reviews are due states of the subject's concepts, at most maxReviewConcepts of them. */
  lemma PlanReviewsAreDue(input: PlannerInput)
    requires DistinctIds(SubjectConcepts(input.concepts, input.userSettings.subjectId))
    ensures var plan := DailyPlan(input);
      var config := MergeConfig(input.config);
      && (forall k :: 0 <= k < |plan.reviewConceptIds| ==> DueSubjectReview(input, plan.reviewConceptIds[k]))
      && (0 <= config.maxReviewConcepts ==> |plan.reviewConceptIds| <= config.maxReviewConcepts)
  {
    var plan := DailyPlan(input);
    var config := MergeConfig(input.config);
    var subject := SubjectConcepts(input.concepts, input.userSettings.subjectId);
    CurriculumOrderSameMembers(subject);
    var ordered := CurriculumOrder(subject);
    var reviewStates := DueReviewStates(input.states, IdSet(ordered), input.date, config.maxReviewConcepts);
    DueReviewsAreEarliestDue(input.states, IdSet(ordered), input.date, config.maxReviewConcepts);
    assert plan.reviewConceptIds == ConceptIds(reviewStates);
    forall k | 0 <= k < |plan.reviewConceptIds|
      ensures DueSubjectReview(input, plan.reviewConceptIds[k])
    {
      var s := reviewStates[k];
      assert s in reviewStates;
      assert s.conceptId in IdSet(ordered);
      var c :| c in ordered && c.id == s.conceptId;
      assert c in subject;
    }
  }

  /** The new concept, if any, is an eligible concept of the subject. */
  lemma PlanNewConceptIsEligible(input: PlannerInput)
    requires DistinctIds(SubjectConcepts(input.concepts, input.userSettings.subjectId))
    ensures var plan := DailyPlan(input);
      plan.newConceptId.Some? ==> EligibleSubjectConcept(input, plan.newConceptId.value)
  {
    var config := MergeConfig(input.config);
    NewConceptChoice(input.concepts, input.userSettings.subjectId, StateById(input.states),
                     TrackByWeight(input.daySeed, config.trackWeights));
  }

  /** Allocations go only to the new concept and the reviews. */
  lemma AllocatesPlannedConcepts(newConceptId: Option<string>, reviewIds: seq<string>, total: int)
    ensures forall a :: a in Allocations(newConceptId, reviewIds, total) ==>
      Some(a.conceptId) == newConceptId || a.conceptId in reviewIds
  {
    var allocations := Allocations(newConceptId, reviewIds, total);
    AllocationsShape(newConceptId, reviewIds, total);
    var off := if newConceptId.Some? then 1 else 0;
    forall k | off <= k < |allocations|
      ensures allocations[k].conceptId in reviewIds
    {
      assert allocations[k].conceptId == reviewIds[k - off];
    }
  }

  /** A plan's allocations go only to its new concept and its reviews; its budget is the clamped target. */
  lemma PlanAllocatesPlannedConcepts(input: PlannerInput)
    ensures var plan := DailyPlan(input);
      && (forall a :: a in plan.allocations ==> Some(a.conceptId) == plan.newConceptId || a.conceptId in plan.reviewConceptIds)
      && plan.totalQuestions == TotalQuestions(MergeConfig(input.config))
  {
    var plan := DailyPlan(input);
    AllocatesPlannedConcepts(plan.newConceptId, plan.reviewConceptIds, plan.totalQuestions);
  }

  lemma ExampleOrdered()
    ensures CurriculumOrder(SubjectConcepts([Sampling(), Tokens()], "subject-1")) == [Tokens(), Sampling()]
  {
    FilterKeepsAll([Sampling(), Tokens()], InSubject("subject-1"));
    PrerequisiteComesFirstExample();
  }

  lemma ExampleNewConcept()
    ensures NewConceptFor([Tokens(), Sampling()], map[], Some("LLM_APP")) == Some(Tokens())
  {
    var ordered := [Tokens(), Sampling()];
    var stateById: map<string, UserConceptState> := map[];
    assert Eligible(stateById, Tokens());
    assert !Eligible(stateById, Sampling());
    var eligible := Filter(ordered, IsEligible(stateById));
    assert eligible == [Tokens()] by {
      assert ordered[..1] == [Tokens()];
      assert [Tokens()][..0] == [];
    }
    assert Filter(eligible, OnTrack(Some("LLM_APP"))) == [Tokens()] by {
      assert eligible[..0] == [];
    }
  }

  lemma ExampleNoReviews(subjectIds: set<string>, date: int, maxReviewConcepts: int)
    ensures ConceptIds(DueReviewStates([], subjectIds, date, maxReviewConcepts)) == []
  {
    var none: seq<UserConceptState> := [];
    assert SubjectDueStates(none, subjectIds, date) == [];
  }

  function FirstDayInput(): PlannerInput
  {
    PlannerInput([Sampling(), Tokens()], [], UserSettings("user-1", "subject-1", 12), 1770854400000, 20260212, None)
  }

  lemma ExamplePlanFor()
    ensures PlanFor(FirstDayInput(), [Tokens(), Sampling()])
         == DailySessionPlan(20260212, Some("tokens"), [], [QuestionAllocation("tokens", 8, NewAllocation)], 8)
  {
    var none: seq<UserConceptState> := [];
    assert StateById(none) == map[];
    DefaultTrackExamples();
    ExampleNewConcept();
    ExampleNoReviews(IdSet([Tokens(), Sampling()]), 1770854400000, 2);
    DefaultBudget();
    var noReviews: seq<string> := [];
    assert Allocations(Some("tokens"), noReviews, 8) == [QuestionAllocation("tokens", 8, NewAllocation)];
  }

  /**
   * The planner's own example: two concepts of subject-1, "sampling" needing
   * "tokens", no states, 2026-02-12. The new concept is "tokens" with the
   * whole budget of 8 questions.
   */
  lemma FirstDayPlanExample()
    ensures DailyPlan(FirstDayInput())
         == DailySessionPlan(20260212, Some("tokens"), [], [QuestionAllocation("tokens", 8, NewAllocation)], 8)
  {
    ExampleOrdered();
    ExamplePlanFor();
  }
}
