// The due-review list of sessionEngine.ts: due states of the subject's
// concepts, sorted by due time and cut to the configured number.

module DueReviews {
  import opened Common
  import opened SessionTypes

  /** A state above level 0 with a due date not after `date`. */
  predicate IsDueState(s: UserConceptState, date: int)
  {
    s.masteryLevel > 0 && s.nextDueAt.Some? && s.nextDueAt.value <= date
  }

  /** The comparator's time: the due date, 0 for a state without one. */
  function DueTime(s: UserConceptState): int
  {
    if s.nextDueAt.Some? then s.nextDueAt.value else 0
  }

  predicate SortedByDueTime(s: seq<UserConceptState>)
  {
    forall i, j :: 0 <= i < j < |s| ==> DueTime(s[i]) <= DueTime(s[j])
  }

  /** The states due at time `t`, in their order in `s`. */
  function DueAtTime(s: seq<UserConceptState>, t: int): seq<UserConceptState>
    decreases |s|
  {
    if |s| == 0 then []
    else DueAtTime(s[..|s| - 1], t) + (if DueTime(s[|s| - 1]) == t then [s[|s| - 1]] else [])
  }

  lemma {:induction false} DueAtTimeAppend(a: seq<UserConceptState>, b: seq<UserConceptState>, t: int)
    ensures DueAtTime(a + b, t) == DueAtTime(a, t) + DueAtTime(b, t)
    decreases |b|
  {
    if |b| > 0 {
      var n := |b| - 1;
      assert (a + b)[..|a + b| - 1] == a + b[..n];
      DueAtTimeAppend(a, b[..n], t);
    } else {
      assert a + b == a;
    }
  }

  lemma LoneDueAtTime(y: UserConceptState, t: int)
    ensures DueAtTime([y], t) == if DueTime(y) == t then [y] else []
  {
    assert [y][..0] == [];
  }

  /** Inserts `x` after the trailing elements due later than it: one step of a stable sort. */
  function InsertByDueTime(sorted: seq<UserConceptState>, x: UserConceptState): (r: seq<UserConceptState>)
    ensures multiset(r) == multiset(sorted) + multiset{x}
    decreases |sorted|
  {
    if |sorted| == 0 then [x]
    else
      var n := |sorted| - 1;
      assert sorted == sorted[..n] + [sorted[n]];
      if DueTime(sorted[n]) <= DueTime(x) then sorted + [x]
      else InsertByDueTime(sorted[..n], x) + [sorted[n]]
  }

  predicate AllDueBy(s: seq<UserConceptState>, bound: int)
  {
    forall i :: 0 <= i < |s| ==> DueTime(s[i]) <= bound
  }

  lemma {:induction false} InsertDueBy(sorted: seq<UserConceptState>, x: UserConceptState, bound: int)
    requires AllDueBy(sorted, bound) && DueTime(x) <= bound
    ensures AllDueBy(InsertByDueTime(sorted, x), bound)
    decreases |sorted|
  {
    if |sorted| > 0 {
      var n := |sorted| - 1;
      if DueTime(x) < DueTime(sorted[n]) {
        assert AllDueBy(sorted[..n], bound);
        InsertDueBy(sorted[..n], x, bound);
        var r := InsertByDueTime(sorted[..n], x) + [sorted[n]];
        assert InsertByDueTime(sorted, x) == r;
      }
    }
  }

  lemma SortedAppend(s: seq<UserConceptState>, y: UserConceptState)
    requires SortedByDueTime(s) && AllDueBy(s, DueTime(y))
    ensures SortedByDueTime(s + [y])
  {
  }

  /** Inserting into a sorted sequence keeps it sorted. */
  lemma {:induction false} InsertKeepsSorted(sorted: seq<UserConceptState>, x: UserConceptState)
    requires SortedByDueTime(sorted)
    ensures SortedByDueTime(InsertByDueTime(sorted, x))
    decreases |sorted|
  {
    if |sorted| > 0 {
      var n := |sorted| - 1;
      var last := sorted[n];
      if DueTime(x) < DueTime(last) {
        var front := InsertByDueTime(sorted[..n], x);
        InsertKeepsSorted(sorted[..n], x);
        InsertDueBy(sorted[..n], x, DueTime(last));
        SortedAppend(front, last);
        assert InsertByDueTime(sorted, x) == front + [last];
      } else {
        SortedAppend(sorted, x);
      }
    }
  }

  /** Insertion keeps the states of each due time in order and puts `x` after them. */
  lemma {:induction false} InsertKeepsTies(sorted: seq<UserConceptState>, x: UserConceptState, t: int)
    ensures DueAtTime(InsertByDueTime(sorted, x), t) == DueAtTime(sorted, t) + DueAtTime([x], t)
    decreases |sorted|
  {
    if |sorted| == 0 {
      assert DueAtTime(sorted, t) == [];
    } else {
      var n := |sorted| - 1;
      var last := sorted[n];
      assert sorted == sorted[..n] + [last];
      if DueTime(last) <= DueTime(x) {
        DueAtTimeAppend(sorted, [x], t);
      } else {
        var front := InsertByDueTime(sorted[..n], x);
        InsertKeepsTies(sorted[..n], x, t);
        assert InsertByDueTime(sorted, x) == front + [last];
        DueAtTimeAppend(front, [last], t);
        DueAtTimeAppend(sorted[..n], [last], t);
        LoneDueAtTime(last, t);
        LoneDueAtTime(x, t);
      }
    }
  }

  /** The `.sort((a, b) => aTime - bTime)` of the due list: a stable insertion sort. */
  function SortByDueTime(s: seq<UserConceptState>): (r: seq<UserConceptState>)
    ensures SortedByDueTime(r)
    ensures multiset(r) == multiset(s)
    decreases |s|
  {
    if |s| == 0 then []
    else
      var n := |s| - 1;
      assert s == s[..n] + [s[n]];
      InsertKeepsSorted(SortByDueTime(s[..n]), s[n]);
      InsertByDueTime(SortByDueTime(s[..n]), s[n])
  }

  /** Stability: states due at the same time keep their input order. */
  lemma {:induction false} SortKeepsTies(s: seq<UserConceptState>, t: int)
    ensures DueAtTime(SortByDueTime(s), t) == DueAtTime(s, t)
    decreases |s|
  {
    if |s| > 0 {
      var n := |s| - 1;
      var front := SortByDueTime(s[..n]);
      assert SortByDueTime(s) == InsertByDueTime(front, s[n]);
      SortKeepsTies(s[..n], t);
      InsertKeepsTies(front, s[n], t);
      LoneDueAtTime(s[n], t);
      assert DueAtTime(s, t) == DueAtTime(s[..n], t) + DueAtTime([s[n]], t);
    }
  }

  /** `slice(0, end)`: a negative end counts back from the end of the sequence. */
  function SliceTo<T>(s: seq<T>, end: int): (r: seq<T>)
    ensures |r| <= |s| && r == s[..|r|]
    ensures 0 <= end ==> |r| == if end < |s| then end else |s|
    ensures end < 0 ==> |r| == if |s| + end > 0 then |s| + end else 0
  {
    if end >= |s| then s
    else if end >= 0 then s[..end]
    else if |s| + end > 0 then s[..|s| + end]
    else []
  }

  /** The due states of concepts in `subjectIds`, in input order. */
  function SubjectDueStates(states: seq<UserConceptState>, subjectIds: set<string>, date: int): (r: seq<UserConceptState>)
    ensures forall s :: s in r <==> s in states && IsDueState(s, date) && s.conceptId in subjectIds
  {
    var due := Filter(states, (s: UserConceptState) => IsDueState(s, date));
    Filter(due, (s: UserConceptState) => s.conceptId in subjectIds)
  }

  /** The states behind `reviewConceptIds`: the earliest due ones, at most `maxReviewConcepts` of them. */
  function DueReviewStates(states: seq<UserConceptState>, subjectIds: set<string>, date: int, maxReviewConcepts: int)
    : seq<UserConceptState>
  {
    SliceTo(SortByDueTime(SubjectDueStates(states, subjectIds, date)), maxReviewConcepts)
  }

  function ConceptIds(s: seq<UserConceptState>): (r: seq<string>)
    ensures |r| == |s| && forall k :: 0 <= k < |s| ==> r[k] == s[k].conceptId
  {
    seq(|s|, k requires 0 <= k < |s| => s[k].conceptId)
  }

  /** A prefix of a sorted sequence is sorted. */
  lemma SortedPrefix(s: seq<UserConceptState>, k: nat)
    requires SortedByDueTime(s) && k <= |s|
    ensures SortedByDueTime(s[..k])
  {
    assert forall i :: 0 <= i < k ==> s[..k][i] == s[i];
  }

  /**
   * The review list holds only due states of subject concepts, earliest due
   * first; it is the front of all of them in that order, as long as
   * maxReviewConcepts allows.
   */
  lemma DueReviewsAreEarliestDue(states: seq<UserConceptState>, subjectIds: set<string>, date: int, maxReviewConcepts: int)
    ensures var all := SubjectDueStates(states, subjectIds, date);
      var r := DueReviewStates(states, subjectIds, date, maxReviewConcepts);
      && (forall s :: s in r ==> s in states && IsDueState(s, date) && s.conceptId in subjectIds)
      && SortedByDueTime(r)
      && r == SortByDueTime(all)[..|r|]
      && (0 <= maxReviewConcepts ==> |r| == Min(maxReviewConcepts, |all|))
  {
    var all := SubjectDueStates(states, subjectIds, date);
    var sorted := SortByDueTime(all);
    var r := DueReviewStates(states, subjectIds, date, maxReviewConcepts);
    assert r == sorted[..|r|];
    SortedPrefix(sorted, |r|);
    forall s | s in r
      ensures s in all
    {
      assert s in sorted;
      assert s in multiset(all);
    }
  }
}
