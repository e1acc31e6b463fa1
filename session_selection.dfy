/**
 * The legacy concept selector: given three candidate lists already fetched by the
 * caller, pick one concept, trying due reviews, then unseen concepts, then the
 * fallback list. Each tier sorts a copy of its list with its own comparator and
 * takes the head, so the inputs are never reordered. Timestamps are the
 * millisecond value of the stored string; `None` stands for a null, empty or
 * unparseable string (JavaScript's NaN).
 */
module SessionSelection {
  import opened Common
  import opened Ordering

  datatype Difficulty = Beginner | Intermediate | Advanced

  datatype DueReviewCandidate = DueReviewCandidate(conceptId: string, nextReviewAt: Option<int>)

  datatype NewConceptCandidate =
    NewConceptCandidate(conceptId: string, createdAt: Option<int>, difficulty: Option<Difficulty>)

  datatype FallbackCandidate =
    FallbackCandidate(conceptId: string, masteryScore: real, nextReviewAt: Option<int>)

  datatype Source = DueReview | NewConcept | Fallback

  datatype SessionConceptSelection = SessionConceptSelection(conceptId: string, source: Source)

  /** The millisecond value of a parsed timestamp, 0 standing in for NaN. */
  function Millis(t: Option<int>): real
  {
    if t.Some? then t.value as real else 0.0
  }

  /** A due candidate whose review time is known and not in the future. */
  predicate IsDueNow(c: DueReviewCandidate, now: int)
  {
    c.nextReviewAt.Some? && c.nextReviewAt.value <= now
  }

  /** Due tier comparator: earliest review time first. */
  function DueKey(c: DueReviewCandidate): seq<real>
  {
    [Millis(c.nextReviewAt)]
  }

  /** New tier comparator: dated before undated, then oldest creation first. */
  function NewKey(c: NewConceptCandidate): seq<real>
  {
    [if c.createdAt.Some? then 0.0 else 1.0, Millis(c.createdAt)]
  }

  /** Fallback comparator: lowest score, then unscheduled first, then earliest review. */
  function FallbackKey(c: FallbackCandidate): seq<real>
  {
    [c.masteryScore, if c.nextReviewAt.Some? then 1.0 else 0.0, Millis(c.nextReviewAt)]
  }

  /** The due candidates that are due at `now`, in input order. */
  function DueNow(dueReviews: seq<DueReviewCandidate>, now: int): seq<DueReviewCandidate>
  {
    Filter(dueReviews, (c: DueReviewCandidate) => IsDueNow(c, now))
  }

  predicate HasDueNow(dueReviews: seq<DueReviewCandidate>, now: int)
  {
    exists c :: c in dueReviews && IsDueNow(c, now)
  }

  function ChooseSessionConcept(
    dueReviews: seq<DueReviewCandidate>,
    newConcepts: seq<NewConceptCandidate>,
    fallbackConcepts: seq<FallbackCandidate>,
    now: int
  ): (r: Option<SessionConceptSelection>)
    ensures r.None? <==> !HasDueNow(dueReviews, now) && newConcepts == [] && fallbackConcepts == []
    ensures HasDueNow(dueReviews, now) ==> r.Some? && r.value.source == DueReview
    ensures !HasDueNow(dueReviews, now) && newConcepts != [] ==> r.Some? && r.value.source == NewConcept
    ensures !HasDueNow(dueReviews, now) && newConcepts == [] && fallbackConcepts != [] ==>
      r.Some? && r.value.source == Fallback
    ensures r.Some? && r.value.source == DueReview ==>
      exists c :: c in dueReviews && IsDueNow(c, now) && c.conceptId == r.value.conceptId
    ensures r.Some? && r.value.source == NewConcept ==>
      exists c :: c in newConcepts && c.conceptId == r.value.conceptId
    ensures r.Some? && r.value.source == Fallback ==>
      exists c :: c in fallbackConcepts && c.conceptId == r.value.conceptId
  {
    var due := DueNow(dueReviews, now);
    if |due| > 0 then
      Some(SessionConceptSelection(FirstMin(due, DueKey).conceptId, DueReview))
    else if |newConcepts| > 0 then
      Some(SessionConceptSelection(FirstMin(newConcepts, NewKey).conceptId, NewConcept))
    else if |fallbackConcepts| > 0 then
      Some(SessionConceptSelection(FirstMin(fallbackConcepts, FallbackKey).conceptId, Fallback))
    else
      None
  }

  /**
   * Due tier: the pick is a candidate due now with the earliest review time;
   * future and unscheduled candidates are skipped, and among equal times the one
   * listed first wins.
   */
  lemma DueTierPicksEarliest(
    dueReviews: seq<DueReviewCandidate>,
    newConcepts: seq<NewConceptCandidate>,
    fallbackConcepts: seq<FallbackCandidate>,
    now: int
  )
    requires HasDueNow(dueReviews, now)
    ensures exists k :: (0 <= k < |dueReviews| && IsDueNow(dueReviews[k], now)
      && ChooseSessionConcept(dueReviews, newConcepts, fallbackConcepts, now)
         == Some(SessionConceptSelection(dueReviews[k].conceptId, DueReview))
      && (forall j :: 0 <= j < |dueReviews| && IsDueNow(dueReviews[j], now) ==>
            dueReviews[k].nextReviewAt.value <= dueReviews[j].nextReviewAt.value)
      && (forall j :: 0 <= j < k && IsDueNow(dueReviews[j], now) ==>
            dueReviews[k].nextReviewAt.value < dueReviews[j].nextReviewAt.value))
  {
    var p := (c: DueReviewCandidate) => IsDueNow(c, now);
    var c :| c in dueReviews && IsDueNow(c, now);
    assert c in Filter(dueReviews, p);
    FilteredFirstMin(dueReviews, p, DueKey);
    var k :| IsStableHead(dueReviews, p, DueKey, k) && dueReviews[k] == FirstMin(Filter(dueReviews, p), DueKey);
    forall j | 0 <= j < |dueReviews| && IsDueNow(dueReviews[j], now)
      ensures dueReviews[k].nextReviewAt.value <= dueReviews[j].nextReviewAt.value
      ensures j < k ==> dueReviews[k].nextReviewAt.value < dueReviews[j].nextReviewAt.value
    {
      assert p(dueReviews[j]);
      Lex1(Millis(dueReviews[j].nextReviewAt), Millis(dueReviews[k].nextReviewAt));
      Lex1(Millis(dueReviews[k].nextReviewAt), Millis(dueReviews[j].nextReviewAt));
    }
  }

  /**
   * New tier (nothing due): the pick is the oldest dated candidate, undated ones
   * coming after every dated one; among equal keys the one listed first wins.
   */
  lemma NewTierPicksOldest(
    dueReviews: seq<DueReviewCandidate>,
    newConcepts: seq<NewConceptCandidate>,
    fallbackConcepts: seq<FallbackCandidate>,
    now: int
  )
    requires !HasDueNow(dueReviews, now) && newConcepts != []
    ensures exists k :: (0 <= k < |newConcepts|
      && ChooseSessionConcept(dueReviews, newConcepts, fallbackConcepts, now)
         == Some(SessionConceptSelection(newConcepts[k].conceptId, NewConcept))
      && (newConcepts[k].createdAt.None? ==> forall j :: 0 <= j < |newConcepts| ==> newConcepts[j].createdAt.None?)
      && (forall j :: 0 <= j < |newConcepts| && newConcepts[j].createdAt.Some? ==>
            newConcepts[k].createdAt.Some? && newConcepts[k].createdAt.value <= newConcepts[j].createdAt.value)
      && (forall j :: 0 <= j < k ==>
            (newConcepts[k].createdAt.Some? &&
             (newConcepts[j].createdAt.Some? ==> newConcepts[k].createdAt.value < newConcepts[j].createdAt.value))))
  {
    var k := FirstMinIndex(newConcepts, NewKey);
    var m := newConcepts[k];
    forall j | 0 <= j < |newConcepts|
      ensures m.createdAt.None? ==> newConcepts[j].createdAt.None?
      ensures newConcepts[j].createdAt.Some? ==> m.createdAt.Some? && m.createdAt.value <= newConcepts[j].createdAt.value
      ensures j < k ==>
        (m.createdAt.Some? && (newConcepts[j].createdAt.Some? ==> m.createdAt.value < newConcepts[j].createdAt.value))
    {
      var c := newConcepts[j];
      Lex2(NewKey(c)[0], NewKey(c)[1], NewKey(m)[0], NewKey(m)[1]);
      Lex2(NewKey(m)[0], NewKey(m)[1], NewKey(c)[0], NewKey(c)[1]);
    }
  }

  /**
   * Fallback tier (nothing due, no new candidate): lowest score first; at equal
   * score an unscheduled candidate before a scheduled one; then the earliest
   * review time; remaining ties go to the one listed first.
   */
  lemma FallbackTierOrder(
    dueReviews: seq<DueReviewCandidate>,
    fallbackConcepts: seq<FallbackCandidate>,
    now: int
  )
    requires !HasDueNow(dueReviews, now) && fallbackConcepts != []
    ensures exists k :: (0 <= k < |fallbackConcepts|
      && ChooseSessionConcept(dueReviews, [], fallbackConcepts, now)
         == Some(SessionConceptSelection(fallbackConcepts[k].conceptId, Fallback))
      && (forall j :: 0 <= j < |fallbackConcepts| ==>
            FallbackNoBetter(fallbackConcepts[j], fallbackConcepts[k]))
      && (forall j :: 0 <= j < k ==> FallbackStrictlyBetter(fallbackConcepts[k], fallbackConcepts[j])))
  {
    var k := FirstMinIndex(fallbackConcepts, FallbackKey);
    var m := fallbackConcepts[k];
    forall j | 0 <= j < |fallbackConcepts|
      ensures FallbackNoBetter(fallbackConcepts[j], m)
      ensures j < k ==> FallbackStrictlyBetter(m, fallbackConcepts[j])
    {
      var c := fallbackConcepts[j];
      Lex3(FallbackKey(c)[0], FallbackKey(c)[1], FallbackKey(c)[2], FallbackKey(m)[0], FallbackKey(m)[1], FallbackKey(m)[2]);
      Lex3(FallbackKey(m)[0], FallbackKey(m)[1], FallbackKey(m)[2], FallbackKey(c)[0], FallbackKey(c)[1], FallbackKey(c)[2]);
    }
  }

  /** `a` comes strictly before `b` in the fallback order. */
  predicate FallbackStrictlyBetter(a: FallbackCandidate, b: FallbackCandidate)
  {
    || a.masteryScore < b.masteryScore
    || (a.masteryScore == b.masteryScore && a.nextReviewAt.None? && b.nextReviewAt.Some?)
    || (a.masteryScore == b.masteryScore && a.nextReviewAt.Some? && b.nextReviewAt.Some?
        && a.nextReviewAt.value < b.nextReviewAt.value)
  }

  /** `c` does not come strictly before `m` in the fallback order. */
  predicate FallbackNoBetter(c: FallbackCandidate, m: FallbackCandidate)
  {
    !FallbackStrictlyBetter(c, m)
  }

  /** The selector's test fixtures (dates in February 2026, UTC, as milliseconds). */
  lemma DueExample()
    ensures ChooseSessionConcept(
      [DueReviewCandidate("c2", Some(1770768000000)), DueReviewCandidate("c1", Some(1770681600000))],
      [NewConceptCandidate("n1", Some(1767225600000), Some(Beginner))],
      [FallbackCandidate("f1", 0.1, None)],
      1770854400000) == Some(SessionConceptSelection("c1", DueReview))
  {
    var due := [DueReviewCandidate("c2", Some(1770768000000)), DueReviewCandidate("c1", Some(1770681600000))];
    var p := (c: DueReviewCandidate) => IsDueNow(c, 1770854400000);
    assert due[..1] == [due[0]] && [due[0]][..0] == [];
    assert Filter(due, p) == due;
    assert due[..1] == [due[0]];
    Lex1(Millis(due[1].nextReviewAt), Millis(due[0].nextReviewAt));
    assert FirstMinIndex(due, DueKey) == 1;
  }

  lemma NewExample()
    ensures ChooseSessionConcept(
      [DueReviewCandidate("c-future", Some(1770940800000))],
      [NewConceptCandidate("n2", Some(1767398400000), Some(Beginner)),
       NewConceptCandidate("n1", Some(1767225600000), Some(Intermediate))],
      [FallbackCandidate("f1", 0.1, None)],
      1770854400000) == Some(SessionConceptSelection("n1", NewConcept))
  {
    var due := [DueReviewCandidate("c-future", Some(1770940800000))];
    var p := (c: DueReviewCandidate) => IsDueNow(c, 1770854400000);
    assert due[..0] == [];
    assert Filter(due, p) == [];
    var unseen := [NewConceptCandidate("n2", Some(1767398400000), Some(Beginner)),
       NewConceptCandidate("n1", Some(1767225600000), Some(Intermediate))];
    assert unseen[..1] == [unseen[0]];
    Lex2(0.0, 1767225600000 as real, 0.0, 1767398400000 as real);
    assert FirstMinIndex(unseen, NewKey) == 1;
  }

  lemma FallbackExample()
    ensures ChooseSessionConcept(
      [], [],
      [FallbackCandidate("f2", 0.2, Some(1771545600000)),
       FallbackCandidate("f1", 0.1, Some(1771459200000)),
       FallbackCandidate("f0", 0.1, None)],
      1770854400000) == Some(SessionConceptSelection("f0", Fallback))
  {
    var fb := [FallbackCandidate("f2", 0.2, Some(1771545600000)),
       FallbackCandidate("f1", 0.1, Some(1771459200000)),
       FallbackCandidate("f0", 0.1, None)];
    assert Filter([], (c: DueReviewCandidate) => IsDueNow(c, 1770854400000)) == [];
    assert fb[..2] == [fb[0], fb[1]] && fb[..2][..1] == [fb[0]];
    Lex3(0.1, 1.0, 1771459200000 as real, 0.2, 1.0, 1771545600000 as real);
    assert FirstMinIndex(fb[..2], FallbackKey) == 1;
    Lex3(0.1, 0.0, 0.0, 0.1, 1.0, 1771459200000 as real);
    assert FirstMinIndex(fb, FallbackKey) == 2;
  }
}
