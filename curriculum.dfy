/**
 * sortByCurriculumOrder of lib/sessionEngine.ts: Kahn's topological sort
 * over prerequisite edges between the concepts of the input, with a ready
 * queue kept in original input order; concepts that never become ready
 * (a cycle, a self-edge) are appended afterwards in input order.
 *
 * KahnFrom is the specification of the emission loop; the imperative
 * SortByCurriculumOrder is proved to compute CurriculumOrder.
 */
module Curriculum {
  import opened Common
  import opened Ordering

  /** The fields of a concept that the scheduler reads. */
  datatype Concept = Concept(id: string, subjectId: string, track: string, prerequisiteIds: seq<string>)

  function IdSet(cs: seq<Concept>): set<string>
  {
    set c | c in cs :: c.id
  }

  function SetOf(s: seq<string>): set<string>
  {
    set x | x in s
  }

  lemma SetOfAppend(s: seq<string>, x: string)
    ensures SetOf(s + [x]) == SetOf(s) + {x}
  {
  }

  predicate DistinctIds(cs: seq<Concept>)
  {
    forall i, j :: 0 <= i < j < |cs| ==> cs[i].id != cs[j].id
  }

  /** A prefix of a sequence with distinct ids has distinct ids. */
  lemma DistinctIdsPrefix(cs: seq<Concept>, n: nat)
    requires DistinctIds(cs) && n <= |cs|
    ensures DistinctIds(cs[..n])
  {
    var front := cs[..n];
    forall i, j | 0 <= i < j < n
      ensures front[i].id != front[j].id
    {
      assert front[i] == cs[i] && front[j] == cs[j];
    }
  }

  /** The Map from id to concept built over the first n concepts; a later concept wins. */
  function ByIdUpTo(cs: seq<Concept>, n: nat): (m: map<string, Concept>)
    requires n <= |cs|
    ensures forall k :: 0 <= k < n ==> cs[k].id in m
    ensures forall y :: y in m ==> m[y].id == y && m[y] in cs
  {
    if n == 0 then map[] else ByIdUpTo(cs, n - 1)[cs[n - 1].id := cs[n - 1]]
  }

  /** The Map from id to concept, built over the input. */
  function ById(cs: seq<Concept>): (m: map<string, Concept>)
    ensures m.Keys == IdSet(cs)
  {
    ByIdUpTo(cs, |cs|)
  }

  /** The Map from id to original index built over the first n concepts; a later index wins. */
  function IndexByIdUpTo(cs: seq<Concept>, n: nat): (m: map<string, nat>)
    requires n <= |cs|
    ensures forall k :: 0 <= k < n ==> cs[k].id in m
    ensures forall y :: y in m ==> m[y] < n && cs[m[y]].id == y
  {
    if n == 0 then map[] else IndexByIdUpTo(cs, n - 1)[cs[n - 1].id := n - 1]
  }

  /** The Map from id to original index. */
  function IndexById(cs: seq<Concept>): (m: map<string, nat>)
    ensures m.Keys == IdSet(cs)
  {
    IndexByIdUpTo(cs, |cs|)
  }

  /** With distinct ids, an index map sends each id to its concept's position. */
  ghost predicate IndexOk(cs: seq<Concept>, idx: map<string, nat>)
  {
    (forall m :: 0 <= m < |cs| ==> cs[m].id in idx && idx[cs[m].id] == m)
    && (forall y :: y in idx ==> idx[y] < |cs| && cs[idx[y]].id == y)
  }

  lemma {:induction false} IndexByIdUpToOk(cs: seq<Concept>, n: nat)
    requires DistinctIds(cs) && n <= |cs|
    ensures forall m :: 0 <= m < n ==> IndexByIdUpTo(cs, n)[cs[m].id] == m
    decreases n
  {
    if n > 0 {
      IndexByIdUpToOk(cs, n - 1);
      forall m | 0 <= m < n - 1
        ensures cs[m].id != cs[n - 1].id
      {
      }
    }
  }

  lemma IndexByIdOk(cs: seq<Concept>)
    requires DistinctIds(cs)
    ensures IndexOk(cs, IndexById(cs))
  {
    IndexByIdUpToOk(cs, |cs|);
  }

  lemma {:induction false} ByIdUpToOk(cs: seq<Concept>, n: nat)
    requires DistinctIds(cs) && n <= |cs|
    ensures forall m :: 0 <= m < n ==> ByIdUpTo(cs, n)[cs[m].id] == cs[m]
    decreases n
  {
    if n > 0 {
      ByIdUpToOk(cs, n - 1);
      forall m | 0 <= m < n - 1
        ensures cs[m].id != cs[n - 1].id
      {
      }
    }
  }

  lemma ByIdOk(cs: seq<Concept>)
    requires DistinctIds(cs)
    ensures forall m :: 0 <= m < |cs| ==> cs[m].id in ById(cs) && ById(cs)[cs[m].id] == cs[m]
  {
    ByIdUpToOk(cs, |cs|);
  }

  /** The map read with a default of 0, as `get(k) ?? 0`. */
  function Get(m: map<string, int>, k: string): int
  {
    if k in m then m[k] else 0
  }

  // ---------------------------------------------------------------------
  // The specification of the emission loop
  // ---------------------------------------------------------------------

  /** How many entries of a prerequisite list name a present, not yet emitted concept. */
  function Pending(prs: seq<string>, ids: set<string>, done: set<string>): (n: nat)
    ensures n <= |prs|
    decreases |prs|
  {
    if |prs| == 0 then 0
    else
      var last := prs[|prs| - 1];
      Pending(prs[..|prs| - 1], ids, done) + (if last in ids && last !in done then 1 else 0)
  }

  /** Nothing is pending exactly when every present prerequisite has been emitted. */
  lemma {:induction false} PendingZero(prs: seq<string>, ids: set<string>, done: set<string>)
    ensures Pending(prs, ids, done) == 0 <==>
      forall k :: 0 <= k < |prs| && prs[k] in ids ==> prs[k] in done
    decreases |prs|
  {
    if |prs| > 0 {
      var n := |prs| - 1;
      PendingZero(prs[..n], ids, done);
      assert forall k :: 0 <= k < n ==> prs[..n][k] == prs[k];
    }
  }

  /** Emitting x removes exactly its occurrences from the pending count. */
  lemma {:induction false} PendingSplit(prs: seq<string>, ids: set<string>, done: set<string>, x: string)
    requires x in ids && x !in done
    ensures Pending(prs, ids, done) == Pending(prs, ids, done + {x}) + multiset(prs)[x]
    decreases |prs|
  {
    if |prs| > 0 {
      var n := |prs| - 1;
      assert prs == prs[..n] + [prs[n]];
      PendingSplit(prs[..n], ids, done, x);
    }
  }

  /** A concept is ready when it is not emitted and none of its present prerequisites is pending. */
  predicate Ready(cs: seq<Concept>, done: set<string>, i: nat)
    requires i < |cs|
  {
    cs[i].id !in done && Pending(cs[i].prerequisiteIds, IdSet(cs), done) == 0
  }

  /** The ready concept with the smallest index at or after `from`. */
  function FirstReadyFrom(cs: seq<Concept>, done: set<string>, from: nat): (r: Option<nat>)
    requires from <= |cs|
    ensures r.Some? ==> from <= r.value < |cs| && Ready(cs, done, r.value)
    ensures r.Some? ==> forall m :: from <= m < r.value ==> !Ready(cs, done, m)
    ensures r.None? ==> forall m :: from <= m < |cs| ==> !Ready(cs, done, m)
    decreases |cs| - from
  {
    if from == |cs| then None
    else if Ready(cs, done, from) then Some(from)
    else FirstReadyFrom(cs, done, from + 1)
  }

  /** The first ready concept is pinned down by being ready with nothing ready before it. */
  lemma FirstReadyIs(cs: seq<Concept>, done: set<string>, h: nat)
    requires h < |cs| && Ready(cs, done, h)
    requires forall m :: 0 <= m < h ==> !Ready(cs, done, m)
    ensures FirstReadyFrom(cs, done, 0) == Some(h)
  {
  }

  /**
   * The ids the emission loop pushes, continuing from `sorted`: repeatedly
   * the ready concept with the smallest input index, stopping when none is
   * ready or when that concept's id is empty (the loop's falsy-id break).
   */
  function KahnFrom(cs: seq<Concept>, sorted: seq<string>): (r: seq<string>)
    requires SetOf(sorted) <= IdSet(cs)
    ensures |sorted| <= |r| && r[..|sorted|] == sorted
    ensures SetOf(r) <= IdSet(cs)
    ensures Distinct(sorted) ==> Distinct(r)
    ensures FirstReadyFrom(cs, SetOf(r), 0).None? || cs[FirstReadyFrom(cs, SetOf(r), 0).value].id == ""
    decreases IdSet(cs) - SetOf(sorted)
  {
    match FirstReadyFrom(cs, SetOf(sorted), 0)
    case None => sorted
    case Some(i) =>
      if cs[i].id == "" then sorted
      else
        var x := cs[i].id;
        SetOfAppend(sorted, x);
        assert x in IdSet(cs) - SetOf(sorted);
        var r := KahnFrom(cs, sorted + [x]);
        assert r[..|sorted|] == (sorted + [x])[..|sorted|];
        r
  }

  /** Ids of the concepts not yet emitted, in input order. */
  function Remaining(cs: seq<Concept>, emitted: set<string>): (r: seq<string>)
    ensures forall k :: 0 <= k < |r| ==> r[k] in IdSet(cs) && r[k] !in emitted
    ensures forall m :: 0 <= m < |cs| && cs[m].id !in emitted ==> cs[m].id in r
    ensures DistinctIds(cs) ==> Distinct(r)
    decreases |cs|
  {
    if |cs| == 0 then []
    else
      var n := |cs| - 1;
      assert cs == cs[..n] + [cs[n]];
      assert forall m :: 0 <= m < n ==> cs[..n][m] == cs[m];
      var r := Remaining(cs[..n], emitted) + (if cs[n].id !in emitted then [cs[n].id] else []);
      assert DistinctIds(cs) ==> DistinctIds(cs[..n]);
      r
  }

  /** The ids in curriculum order: the emitted prefix, then the rest when some concept was never emitted. */
  function CurriculumOrderIds(cs: seq<Concept>): (r: seq<string>)
    ensures SetOf(r) <= IdSet(cs)
  {
    var p := KahnFrom(cs, []);
    if |p| != |cs| then p + Remaining(cs, SetOf(p)) else p
  }

  function Lookup(byId: map<string, Concept>, ids: seq<string>): (r: seq<Concept>)
    requires forall k :: 0 <= k < |ids| ==> ids[k] in byId
    ensures |r| == |ids| && forall k :: 0 <= k < |ids| ==> r[k] == byId[ids[k]]
  {
    seq(|ids|, k requires 0 <= k < |ids| => byId[ids[k]])
  }

  /** The concepts in curriculum order, as sortByCurriculumOrder returns them. */
  function CurriculumOrder(cs: seq<Concept>): seq<Concept>
  {
    var ids := CurriculumOrderIds(cs);
    assert forall k :: 0 <= k < |ids| ==> ids[k] in SetOf(ids);
    Lookup(ById(cs), ids)
  }

  // ---------------------------------------------------------------------
  // The ready queue
  // ---------------------------------------------------------------------

  predicate StrictlySorted(q: seq<string>, idx: map<string, nat>)
  {
    forall a, b :: 0 <= a < b < |q| ==> q[a] in idx && q[b] in idx && idx[q[a]] < idx[q[b]]
  }

  /** zeroQueue as first built: ids of the concepts with in-degree 0, in input order. */
  function ZeroQueue(cs: seq<Concept>, indegree: map<string, int>, n: nat): (q: seq<string>)
    requires n <= |cs|
    decreases n
  {
    if n == 0 then []
    else ZeroQueue(cs, indegree, n - 1) + (if Get(indegree, cs[n - 1].id) == 0 then [cs[n - 1].id] else [])
  }

  /**
   * `push` followed by a stable sort on original index, for a queue that was
   * sorted before: the new id goes after every id whose index is not larger.
   */
  function InsertByIndex(q: seq<string>, x: string, idx: map<string, nat>): (r: seq<string>)
    requires x in idx && forall k :: 0 <= k < |q| ==> q[k] in idx
    ensures forall k :: 0 <= k < |r| ==> r[k] in idx
    ensures forall y :: y in r <==> y in q || y == x
    decreases |q|
  {
    if |q| == 0 then [x]
    else if idx[x] < idx[q[0]] then [x] + q
    else
      var rest := InsertByIndex(q[1..], x, idx);
      assert forall k :: 0 <= k < |rest| ==> rest[k] in rest;
      [q[0]] + rest
  }

  /** Inserting an id whose index no queued id shares keeps a sorted queue sorted. */
  lemma {:induction false} InsertByIndexSorted(q: seq<string>, x: string, idx: map<string, nat>)
    requires x in idx && forall k :: 0 <= k < |q| ==> q[k] in idx
    requires StrictlySorted(q, idx) && forall k :: 0 <= k < |q| ==> idx[q[k]] != idx[x]
    ensures StrictlySorted(InsertByIndex(q, x, idx), idx)
    decreases |q|
  {
    if |q| > 0 && idx[x] >= idx[q[0]] {
      var tail := q[1..];
      assert forall k :: 1 <= k < |q| ==> q[k] == tail[k - 1];
      InsertByIndexSorted(tail, x, idx);
      var rest := InsertByIndex(tail, x, idx);
      assert InsertByIndex(q, x, idx) == [q[0]] + rest;
      forall k | 0 <= k < |rest|
        ensures idx[q[0]] < idx[rest[k]]
      {
        assert rest[k] in rest;
      }
    }
  }

  /**
   * The queue holds exactly the ids of the unemitted concepts whose current
   * in-degree is 0, strictly ordered by original index.
   */
  ghost predicate QueueOk(cs: seq<Concept>, idx: map<string, nat>, queue: seq<string>,
                          indegree: map<string, int>, done: set<string>)
  {
    (forall k :: 0 <= k < |queue| ==> queue[k] in idx)
    && StrictlySorted(queue, idx)
    && (forall m :: 0 <= m < |cs| ==> (cs[m].id in queue <==> cs[m].id !in done && Get(indegree, cs[m].id) == 0))
  }

  /** Appending an id whose index exceeds every queued one keeps the queue sorted. */
  lemma SortedAppendLater(q: seq<string>, x: string, idx: map<string, nat>)
    requires StrictlySorted(q, idx) && x in idx
    requires forall k :: 0 <= k < |q| ==> q[k] in idx && idx[q[k]] < idx[x]
    ensures StrictlySorted(q + [x], idx)
    ensures forall k :: 0 <= k < |q + [x]| ==> (q + [x])[k] in idx && idx[(q + [x])[k]] <= idx[x]
  {
  }

  lemma {:induction false} ZeroQueueOk(cs: seq<Concept>, idx: map<string, nat>, indegree: map<string, int>, n: nat)
    requires n <= |cs| && forall m :: 0 <= m < |cs| ==> cs[m].id in idx && idx[cs[m].id] == m
    ensures var q := ZeroQueue(cs, indegree, n);
      (forall k :: 0 <= k < |q| ==> q[k] in idx && idx[q[k]] < n)
      && StrictlySorted(q, idx)
      && (forall m :: 0 <= m < n ==> (cs[m].id in q <==> Get(indegree, cs[m].id) == 0))
    decreases n
  {
    if n > 0 {
      ZeroQueueOk(cs, idx, indegree, n - 1);
      var q' := ZeroQueue(cs, indegree, n - 1);
      var x := cs[n - 1].id;
      assert idx[x] == n - 1;
      assert x !in q' by {
        assert forall k :: 0 <= k < |q'| ==> q'[k] != x;
      }
      forall m | 0 <= m < n - 1
        ensures cs[m].id != x
      {
        assert idx[cs[m].id] == m;
      }
      if Get(indegree, x) == 0 {
        assert ZeroQueue(cs, indegree, n) == q' + [x];
        SortedAppendLater(q', x, idx);
      } else {
        assert ZeroQueue(cs, indegree, n) == q';
      }
    }
  }

  /** The head of a correct queue is the concept FirstReadyFrom picks. */
  lemma HeadIsFirstReady(cs: seq<Concept>, idx: map<string, nat>, queue: seq<string>,
                         indegree: map<string, int>, done: set<string>)
    requires IndexOk(cs, idx) && QueueOk(cs, idx, queue, indegree, done) && |queue| > 0
    requires forall m :: 0 <= m < |cs| ==> Get(indegree, cs[m].id) == Pending(cs[m].prerequisiteIds, IdSet(cs), done)
    ensures idx[queue[0]] < |cs| && cs[idx[queue[0]]].id == queue[0]
    ensures FirstReadyFrom(cs, done, 0) == Some(idx[queue[0]])
  {
    var h := idx[queue[0]];
    assert cs[h].id in queue;
    forall m | 0 <= m < h
      ensures !Ready(cs, done, m)
    {
      assert idx[cs[m].id] == m;
      assert forall k :: 0 <= k < |queue| ==> queue[k] != cs[m].id;
    }
    FirstReadyIs(cs, done, h);
  }

  /** An empty correct queue means no concept is ready. */
  lemma EmptyQueueNoneReady(cs: seq<Concept>, idx: map<string, nat>, queue: seq<string>,
                            indegree: map<string, int>, done: set<string>)
    requires QueueOk(cs, idx, queue, indegree, done) && queue == []
    requires forall m :: 0 <= m < |cs| ==> Get(indegree, cs[m].id) == Pending(cs[m].prerequisiteIds, IdSet(cs), done)
    ensures FirstReadyFrom(cs, done, 0) == None
  {
    assert forall m :: 0 <= m < |cs| ==> !Ready(cs, done, m);
  }

  // ---------------------------------------------------------------------
  // sortByCurriculumOrder
  // ---------------------------------------------------------------------

  /** The prerequisite entries of concept m already visited when the edge loop is at entry k of concept i. */
  function VisitedPrs(cs: seq<Concept>, i: nat, k: nat, m: nat): seq<string>
    requires m < |cs| && (i < |cs| ==> k <= |cs[i].prerequisiteIds|)
  {
    if m < i then cs[m].prerequisiteIds
    else if m == i then cs[i].prerequisiteIds[..k]
    else []
  }

  /** The in-degrees once the visited entries have been counted. */
  ghost predicate DegreesAt(cs: seq<Concept>, indegree: map<string, int>, i: nat, k: nat)
    requires i < |cs| ==> k <= |cs[i].prerequisiteIds|
  {
    indegree.Keys == IdSet(cs)
    && (forall m :: 0 <= m < |cs| ==> indegree[cs[m].id] == Pending(VisitedPrs(cs, i, k, m), IdSet(cs), {}))
  }

  /** The outbound lists once the visited entries have been counted. */
  ghost predicate EdgesAt(cs: seq<Concept>, outbound: map<string, seq<string>>, i: nat, k: nat)
    requires i < |cs| ==> k <= |cs[i].prerequisiteIds|
  {
    EdgeTargetsOk(cs, outbound) && EdgeCountsAt(cs, outbound, i, k)
  }

  /** Every outbound list belongs to a present concept and names only present concepts. */
  ghost predicate EdgeTargetsOk(cs: seq<Concept>, outbound: map<string, seq<string>>)
  {
    outbound.Keys == IdSet(cs)
    && (forall x, j :: x in outbound && 0 <= j < |outbound[x]| ==> outbound[x][j] in IdSet(cs))
  }

  /** Concept m occurs in x's outbound list once per visited occurrence of x among m's prerequisites. */
  ghost predicate EdgeCountsAt(cs: seq<Concept>, outbound: map<string, seq<string>>, i: nat, k: nat)
    requires i < |cs| ==> k <= |cs[i].prerequisiteIds|
  {
    forall x, m :: x in outbound && 0 <= m < |cs| ==>
      multiset(outbound[x])[cs[m].id] == multiset(VisitedPrs(cs, i, k, m))[x]
  }

  ghost predicate GraphAt(cs: seq<Concept>, indegree: map<string, int>, outbound: map<string, seq<string>>, i: nat, k: nat)
    requires i < |cs| ==> k <= |cs[i].prerequisiteIds|
  {
    DegreesAt(cs, indegree, i, k) && EdgesAt(cs, outbound, i, k)
  }

  /** One prerequisite entry: `continue` when it names no concept, else count the edge. */
  method AddEdge(cs: seq<Concept>, conceptById: map<string, Concept>, i: nat, k: nat,
                 indegree0: map<string, int>, outbound0: map<string, seq<string>>)
    returns (indegree: map<string, int>, outbound: map<string, seq<string>>)
    requires DistinctIds(cs) && conceptById.Keys == IdSet(cs)
    requires i < |cs| && k < |cs[i].prerequisiteIds|
    requires GraphAt(cs, indegree0, outbound0, i, k)
    ensures GraphAt(cs, indegree, outbound, i, k + 1)
  {
    VisitOneMore(cs, i, k);
    if cs[i].prerequisiteIds[k] in conceptById {
      EdgeCounted(cs, indegree0, outbound0, i, k);
      indegree := indegree0[cs[i].id := Get(indegree0, cs[i].id) + 1];
      outbound := outbound0[cs[i].prerequisiteIds[k] := outbound0[cs[i].prerequisiteIds[k]] + [cs[i].id]];
    } else {
      EdgeSkipped(cs, indegree0, outbound0, i, k);
      indegree, outbound := indegree0, outbound0;
    }
  }

  /** Visiting entry k of concept i extends that concept's visited prefix by one and leaves the others. */
  lemma VisitOneMore(cs: seq<Concept>, i: nat, k: nat)
    requires i < |cs| && k < |cs[i].prerequisiteIds|
    ensures VisitedPrs(cs, i, k + 1, i) == VisitedPrs(cs, i, k, i) + [cs[i].prerequisiteIds[k]]
    ensures forall m :: 0 <= m < |cs| && m != i ==> VisitedPrs(cs, i, k + 1, m) == VisitedPrs(cs, i, k, m)
  {
    var prs := cs[i].prerequisiteIds;
    assert prs[..k + 1] == prs[..k] + [prs[k]];
  }

  lemma PendingAppend(prs: seq<string>, p: string, ids: set<string>)
    ensures Pending(prs + [p], ids, {}) == Pending(prs, ids, {}) + (if p in ids then 1 else 0)
  {
    assert (prs + [p])[..|prs|] == prs;
  }

  lemma EdgeCounted(cs: seq<Concept>, indegree0: map<string, int>, outbound0: map<string, seq<string>>, i: nat, k: nat)
    requires DistinctIds(cs) && i < |cs| && k < |cs[i].prerequisiteIds|
    requires GraphAt(cs, indegree0, outbound0, i, k)
    requires cs[i].prerequisiteIds[k] in IdSet(cs)
    requires VisitedPrs(cs, i, k + 1, i) == VisitedPrs(cs, i, k, i) + [cs[i].prerequisiteIds[k]]
    requires forall m :: 0 <= m < |cs| && m != i ==> VisitedPrs(cs, i, k + 1, m) == VisitedPrs(cs, i, k, m)
    ensures GraphAt(cs, indegree0[cs[i].id := Get(indegree0, cs[i].id) + 1],
      outbound0[cs[i].prerequisiteIds[k] := outbound0[cs[i].prerequisiteIds[k]] + [cs[i].id]], i, k + 1)
  {
    DegreeCounted(cs, indegree0, i, k, indegree0[cs[i].id := Get(indegree0, cs[i].id) + 1]);
    EdgeAppended(cs, outbound0, i, k,
      outbound0[cs[i].prerequisiteIds[k] := outbound0[cs[i].prerequisiteIds[k]] + [cs[i].id]]);
  }

  lemma DegreeCounted(cs: seq<Concept>, indegree0: map<string, int>, i: nat, k: nat, indegree: map<string, int>)
    requires DistinctIds(cs) && i < |cs| && k < |cs[i].prerequisiteIds|
    requires DegreesAt(cs, indegree0, i, k)
    requires cs[i].prerequisiteIds[k] in IdSet(cs)
    requires VisitedPrs(cs, i, k + 1, i) == VisitedPrs(cs, i, k, i) + [cs[i].prerequisiteIds[k]]
    requires forall m :: 0 <= m < |cs| && m != i ==> VisitedPrs(cs, i, k + 1, m) == VisitedPrs(cs, i, k, m)
    requires indegree == indegree0[cs[i].id := Get(indegree0, cs[i].id) + 1]
    ensures DegreesAt(cs, indegree, i, k + 1)
  {
    var ids := IdSet(cs);
    assert cs[i].id in ids;
    PendingAppend(VisitedPrs(cs, i, k, i), cs[i].prerequisiteIds[k], ids);
    forall m | 0 <= m < |cs|
      ensures indegree[cs[m].id] == Pending(VisitedPrs(cs, i, k + 1, m), ids, {})
    {
      if m != i {
        assert cs[m].id != cs[i].id;
      }
    }
  }

  lemma EdgeAppended(cs: seq<Concept>, outbound0: map<string, seq<string>>, i: nat, k: nat, outbound: map<string, seq<string>>)
    requires DistinctIds(cs) && i < |cs| && k < |cs[i].prerequisiteIds|
    requires EdgesAt(cs, outbound0, i, k)
    requires cs[i].prerequisiteIds[k] in IdSet(cs)
    requires VisitedPrs(cs, i, k + 1, i) == VisitedPrs(cs, i, k, i) + [cs[i].prerequisiteIds[k]]
    requires forall m :: 0 <= m < |cs| && m != i ==> VisitedPrs(cs, i, k + 1, m) == VisitedPrs(cs, i, k, m)
    requires outbound == outbound0[cs[i].prerequisiteIds[k] := outbound0[cs[i].prerequisiteIds[k]] + [cs[i].id]]
    ensures EdgesAt(cs, outbound, i, k + 1)
  {
    EdgeTargetAppended(cs, outbound0, cs[i].prerequisiteIds[k], cs[i].id, outbound);
    EdgeCountAppended(cs, outbound0, i, k, outbound);
  }

  lemma EdgeTargetAppended(cs: seq<Concept>, outbound0: map<string, seq<string>>, p: string, c: string,
                           outbound: map<string, seq<string>>)
    requires EdgeTargetsOk(cs, outbound0) && p in IdSet(cs) && c in IdSet(cs)
    requires outbound == outbound0[p := outbound0[p] + [c]]
    ensures EdgeTargetsOk(cs, outbound)
  {
    forall x, j | x in outbound && 0 <= j < |outbound[x]|
      ensures outbound[x][j] in IdSet(cs)
    {
      if x == p && j == |outbound0[p]| {
        assert outbound[x][j] == c;
      } else {
        assert outbound[x][j] == outbound0[x][j];
      }
    }
  }

  lemma EdgeCountAppended(cs: seq<Concept>, outbound0: map<string, seq<string>>, i: nat, k: nat, outbound: map<string, seq<string>>)
    requires DistinctIds(cs) && i < |cs| && k < |cs[i].prerequisiteIds|
    requires EdgeCountsAt(cs, outbound0, i, k) && cs[i].prerequisiteIds[k] in outbound0
    requires VisitedPrs(cs, i, k + 1, i) == VisitedPrs(cs, i, k, i) + [cs[i].prerequisiteIds[k]]
    requires forall m :: 0 <= m < |cs| && m != i ==> VisitedPrs(cs, i, k + 1, m) == VisitedPrs(cs, i, k, m)
    requires outbound == outbound0[cs[i].prerequisiteIds[k] := outbound0[cs[i].prerequisiteIds[k]] + [cs[i].id]]
    ensures EdgeCountsAt(cs, outbound, i, k + 1)
  {
    var p := cs[i].prerequisiteIds[k];
    var c := cs[i].id;
    assert multiset(outbound[p]) == multiset(outbound0[p]) + multiset{c};
    assert multiset(VisitedPrs(cs, i, k + 1, i)) == multiset(VisitedPrs(cs, i, k, i)) + multiset{p};
    forall x, m | x in outbound && 0 <= m < |cs|
      ensures multiset(outbound[x])[cs[m].id] == multiset(VisitedPrs(cs, i, k + 1, m))[x]
    {
      if m != i {
        assert cs[m].id != c;
        assert VisitedPrs(cs, i, k + 1, m) == VisitedPrs(cs, i, k, m);
      }
      if x != p {
        assert outbound[x] == outbound0[x];
      }
    }
  }

  lemma EdgeSkipped(cs: seq<Concept>, indegree: map<string, int>, outbound: map<string, seq<string>>, i: nat, k: nat)
    requires i < |cs| && k < |cs[i].prerequisiteIds|
    requires GraphAt(cs, indegree, outbound, i, k)
    requires cs[i].prerequisiteIds[k] !in IdSet(cs)
    requires VisitedPrs(cs, i, k + 1, i) == VisitedPrs(cs, i, k, i) + [cs[i].prerequisiteIds[k]]
    requires forall m :: 0 <= m < |cs| && m != i ==> VisitedPrs(cs, i, k + 1, m) == VisitedPrs(cs, i, k, m)
    ensures GraphAt(cs, indegree, outbound, i, k + 1)
  {
    DegreeSkipped(cs, indegree, i, k);
    EdgeCountSkipped(cs, outbound, i, k);
  }

  lemma DegreeSkipped(cs: seq<Concept>, indegree: map<string, int>, i: nat, k: nat)
    requires i < |cs| && k < |cs[i].prerequisiteIds|
    requires DegreesAt(cs, indegree, i, k)
    requires cs[i].prerequisiteIds[k] !in IdSet(cs)
    requires VisitedPrs(cs, i, k + 1, i) == VisitedPrs(cs, i, k, i) + [cs[i].prerequisiteIds[k]]
    requires forall m :: 0 <= m < |cs| && m != i ==> VisitedPrs(cs, i, k + 1, m) == VisitedPrs(cs, i, k, m)
    ensures DegreesAt(cs, indegree, i, k + 1)
  {
    PendingAppend(VisitedPrs(cs, i, k, i), cs[i].prerequisiteIds[k], IdSet(cs));
  }

  lemma EdgeCountSkipped(cs: seq<Concept>, outbound: map<string, seq<string>>, i: nat, k: nat)
    requires i < |cs| && k < |cs[i].prerequisiteIds|
    requires EdgeCountsAt(cs, outbound, i, k) && outbound.Keys == IdSet(cs)
    requires cs[i].prerequisiteIds[k] !in IdSet(cs)
    requires VisitedPrs(cs, i, k + 1, i) == VisitedPrs(cs, i, k, i) + [cs[i].prerequisiteIds[k]]
    requires forall m :: 0 <= m < |cs| && m != i ==> VisitedPrs(cs, i, k + 1, m) == VisitedPrs(cs, i, k, m)
    ensures EdgeCountsAt(cs, outbound, i, k + 1)
  {
    var p := cs[i].prerequisiteIds[k];
    assert multiset(VisitedPrs(cs, i, k + 1, i)) == multiset(VisitedPrs(cs, i, k, i)) + multiset{p};
    forall x, m | x in outbound && 0 <= m < |cs|
      ensures multiset(outbound[x])[cs[m].id] == multiset(VisitedPrs(cs, i, k + 1, m))[x]
    {
      if m == i {
        assert x != p;
      }
    }
  }

  lemma NextConcept(cs: seq<Concept>, indegree: map<string, int>, outbound: map<string, seq<string>>, i: nat)
    requires i < |cs| && GraphAt(cs, indegree, outbound, i, |cs[i].prerequisiteIds|)
    ensures GraphAt(cs, indegree, outbound, i + 1, 0)
  {
    assert cs[i].prerequisiteIds[..|cs[i].prerequisiteIds|] == cs[i].prerequisiteIds;
    assert forall m :: 0 <= m < |cs| ==> VisitedPrs(cs, i + 1, 0, m) == VisitedPrs(cs, i, |cs[i].prerequisiteIds|, m);
  }

  /** The first loop: every concept starts with in-degree 0 and no outbound edges. */
  method InitGraph(cs: seq<Concept>) returns (indegree: map<string, int>, outbound: map<string, seq<string>>)
    ensures GraphAt(cs, indegree, outbound, 0, 0)
  {
    indegree := map[];
    outbound := map[];
    for i := 0 to |cs|
      invariant indegree.Keys == IdSet(cs[..i]) && outbound.Keys == IdSet(cs[..i])
      invariant forall y :: y in indegree ==> indegree[y] == 0
      invariant forall y :: y in outbound ==> outbound[y] == []
    {
      assert cs[..i + 1] == cs[..i] + [cs[i]];
      indegree := indegree[cs[i].id := 0];
      outbound := outbound[cs[i].id := []];
    }
    assert cs[..|cs|] == cs;
    InitialGraph(cs, indegree, outbound);
  }

  lemma InitialGraph(cs: seq<Concept>, indegree: map<string, int>, outbound: map<string, seq<string>>)
    requires indegree.Keys == IdSet(cs) && outbound.Keys == IdSet(cs)
    requires forall y :: y in indegree ==> indegree[y] == 0
    requires forall y :: y in outbound ==> outbound[y] == []
    ensures GraphAt(cs, indegree, outbound, 0, 0)
  {
    assert forall m :: 0 <= m < |cs| ==> VisitedPrs(cs, 0, 0, m) == [];
  }

  lemma FinalGraph(cs: seq<Concept>, indegree: map<string, int>, outbound: map<string, seq<string>>)
    requires GraphAt(cs, indegree, outbound, |cs|, 0)
    ensures indegree.Keys == IdSet(cs) && outbound.Keys == IdSet(cs)
    ensures forall m :: 0 <= m < |cs| ==> indegree[cs[m].id] == Pending(cs[m].prerequisiteIds, IdSet(cs), {})
    ensures forall x, k :: x in outbound && 0 <= k < |outbound[x]| ==> outbound[x][k] in IdSet(cs)
    ensures forall x, m :: x in outbound && 0 <= m < |cs| ==>
      multiset(outbound[x])[cs[m].id] == multiset(cs[m].prerequisiteIds)[x]
  {
    assert forall m :: 0 <= m < |cs| ==> VisitedPrs(cs, |cs|, 0, m) == cs[m].prerequisiteIds;
  }

  /**
   * The in-degree and outbound maps: each prerequisite entry naming a
   * present concept adds one to the dependent's in-degree and appends the
   * dependent to the prerequisite's outbound list.
   */
  method BuildGraph(cs: seq<Concept>) returns (indegree: map<string, int>, outbound: map<string, seq<string>>)
    requires DistinctIds(cs)
    ensures indegree.Keys == IdSet(cs) && outbound.Keys == IdSet(cs)
    ensures forall m :: 0 <= m < |cs| ==> indegree[cs[m].id] == Pending(cs[m].prerequisiteIds, IdSet(cs), {})
    ensures forall x, k :: x in outbound && 0 <= k < |outbound[x]| ==> outbound[x][k] in IdSet(cs)
    ensures forall x, m :: x in outbound && 0 <= m < |cs| ==>
      multiset(outbound[x])[cs[m].id] == multiset(cs[m].prerequisiteIds)[x]
  {
    var conceptById := ById(cs);
    indegree, outbound := InitGraph(cs);
    for i := 0 to |cs|
      invariant GraphAt(cs, indegree, outbound, i, 0)
    {
      for k := 0 to |cs[i].prerequisiteIds|
        invariant GraphAt(cs, indegree, outbound, i, k)
      {
        indegree, outbound := AddEdge(cs, conceptById, i, k, indegree, outbound);
      }
      NextConcept(cs, indegree, outbound, i);
    }
    FinalGraph(cs, indegree, outbound);
  }

  /** The in-degrees after j neighbours of the emitted concept have been visited. */
  ghost predicate RelaxDegrees(cs: seq<Concept>, neighbors: seq<string>, j: nat, indegree: map<string, int>, done0: set<string>)
    requires j <= |neighbors|
  {
    indegree.Keys == IdSet(cs)
    && (forall m :: 0 <= m < |cs| ==>
          indegree[cs[m].id] == Pending(cs[m].prerequisiteIds, IdSet(cs), done0) - multiset(neighbors[..j])[cs[m].id])
  }

  /** The state of the neighbour loop after j neighbours of x. */
  ghost predicate RelaxAt(cs: seq<Concept>, idx: map<string, nat>, x: string, neighbors: seq<string>, j: nat,
                          queue: seq<string>, indegree: map<string, int>, done0: set<string>)
    requires j <= |neighbors|
  {
    RelaxDegrees(cs, neighbors, j, indegree, done0) && QueueOk(cs, idx, queue, indegree, done0 + {x})
  }

  /** The facts about the emitted concept x that hold throughout its neighbour loop. */
  ghost predicate RelaxFrame(cs: seq<Concept>, idx: map<string, nat>, x: string, neighbors: seq<string>, done0: set<string>)
  {
    DistinctIds(cs) && IndexOk(cs, idx)
    && x in IdSet(cs) && x !in done0
    && (forall m :: 0 <= m < |cs| && cs[m].id in done0 + {x} ==>
          Pending(cs[m].prerequisiteIds, IdSet(cs), done0) == 0)
    && (forall k :: 0 <= k < |neighbors| ==> neighbors[k] in idx)
    && (forall m :: 0 <= m < |cs| ==> multiset(neighbors)[cs[m].id] == multiset(cs[m].prerequisiteIds)[x])
  }

  /** A neighbour still to be visited has a positive in-degree and has not been emitted. */
  lemma NeighborStillPending(cs: seq<Concept>, idx: map<string, nat>, x: string, neighbors: seq<string>, j: nat,
                             indegree: map<string, int>, done0: set<string>)
    requires j < |neighbors| && RelaxFrame(cs, idx, x, neighbors, done0)
    requires RelaxDegrees(cs, neighbors, j, indegree, done0)
    ensures idx[neighbors[j]] < |cs| && cs[idx[neighbors[j]]].id == neighbors[j]
    ensures neighbors[j] in indegree && indegree[neighbors[j]] >= 1
    ensures neighbors[j] !in done0 + {x}
  {
    var nextId := neighbors[j];
    var mn := idx[nextId];
    assert cs[mn].id == nextId;
    var prs := cs[mn].prerequisiteIds;
    var pending := Pending(prs, IdSet(cs), done0);
    PendingSplit(prs, IdSet(cs), done0, x);
    assert multiset(prs)[x] <= pending;
    assert multiset(neighbors)[nextId] == multiset(prs)[x];
    PrefixMultiset(neighbors, j);
    assert indegree[nextId] == pending - multiset(neighbors[..j])[nextId];
  }

  /** The multiset of a prefix grows by one element per step and stays within the whole. */
  lemma PrefixMultiset(s: seq<string>, j: nat)
    requires j < |s|
    ensures multiset(s[..j + 1]) == multiset(s[..j]) + multiset{s[j]}
    ensures multiset(s[..j + 1]) <= multiset(s)
  {
    assert s == s[..j + 1] + s[j + 1..];
    assert s[..j + 1] == s[..j] + [s[j]];
  }

  lemma DegreeDecremented(cs: seq<Concept>, neighbors: seq<string>, j: nat, indegree: map<string, int>, done0: set<string>)
    requires j < |neighbors| && RelaxDegrees(cs, neighbors, j, indegree, done0) && neighbors[j] in indegree
    ensures RelaxDegrees(cs, neighbors, j + 1, indegree[neighbors[j] := indegree[neighbors[j]] - 1], done0)
  {
    PrefixMultiset(neighbors, j);
  }

  /** Decrementing an in-degree keeps the queue correct once an id that reaches 0 is inserted. */
  lemma QueueAfterDecrement(cs: seq<Concept>, idx: map<string, nat>, queue: seq<string>,
                            indegree: map<string, int>, done: set<string>, y: string)
    requires IndexOk(cs, idx) && QueueOk(cs, idx, queue, indegree, done)
    requires y in idx && y in indegree && indegree[y] >= 1 && y !in done
    ensures indegree[y] - 1 == 0 ==> QueueOk(cs, idx, InsertByIndex(queue, y, idx), indegree[y := indegree[y] - 1], done)
    ensures indegree[y] - 1 != 0 ==> QueueOk(cs, idx, queue, indegree[y := indegree[y] - 1], done)
  {
    assert cs[idx[y]].id == y;
    assert y !in queue;
    assert forall k :: 0 <= k < |queue| ==> queue[k] != y;
    assert forall k :: 0 <= k < |queue| ==> idx[queue[k]] != idx[y];
    InsertByIndexSorted(queue, y, idx);
  }

  /** One neighbour: decrement its in-degree, and queue it when that reaches 0. */
  method RelaxOne(cs: seq<Concept>, idx: map<string, nat>, x: string, neighbors: seq<string>, j: nat,
                  queue0: seq<string>, indegree0: map<string, int>, ghost done0: set<string>)
    returns (queue: seq<string>, indegree: map<string, int>)
    requires j < |neighbors| && RelaxFrame(cs, idx, x, neighbors, done0)
    requires RelaxAt(cs, idx, x, neighbors, j, queue0, indegree0, done0)
    ensures RelaxAt(cs, idx, x, neighbors, j + 1, queue, indegree, done0)
  {
    var nextId := neighbors[j];
    NeighborStillPending(cs, idx, x, neighbors, j, indegree0, done0);
    DegreeDecremented(cs, neighbors, j, indegree0, done0);
    QueueAfterDecrement(cs, idx, queue0, indegree0, done0 + {x}, nextId);
    var nextDegree := Get(indegree0, nextId) - 1;
    indegree := indegree0[nextId := nextDegree];
    if nextDegree == 0 {
      queue := InsertByIndex(queue0, nextId, idx);
    } else {
      queue := queue0;
    }
  }

  /**
   * The inner loop over the neighbours of the concept just emitted. The
   * order in which the neighbours are visited does not change the result,
   * because the queue is re-sorted after every push.
   */
  method RelaxNeighbors(cs: seq<Concept>, idx: map<string, nat>, x: string, neighbors: seq<string>,
                        queue0: seq<string>, indegree0: map<string, int>, ghost done0: set<string>)
    returns (queue: seq<string>, indegree: map<string, int>)
    requires RelaxFrame(cs, idx, x, neighbors, done0)
    requires indegree0.Keys == IdSet(cs)
    requires forall m :: 0 <= m < |cs| ==>
      indegree0[cs[m].id] == Pending(cs[m].prerequisiteIds, IdSet(cs), done0)
    requires QueueOk(cs, idx, queue0, indegree0, done0 + {x})
    ensures indegree.Keys == IdSet(cs)
    ensures forall m :: 0 <= m < |cs| ==>
      indegree[cs[m].id] == Pending(cs[m].prerequisiteIds, IdSet(cs), done0 + {x})
    ensures forall m :: 0 <= m < |cs| && cs[m].id in done0 + {x} ==>
      Pending(cs[m].prerequisiteIds, IdSet(cs), done0 + {x}) == 0
    ensures QueueOk(cs, idx, queue, indegree, done0 + {x})
  {
    queue, indegree := queue0, indegree0;
    assert neighbors[..0] == [];
    for j := 0 to |neighbors|
      invariant RelaxAt(cs, idx, x, neighbors, j, queue, indegree, done0)
    {
      queue, indegree := RelaxOne(cs, idx, x, neighbors, j, queue, indegree, done0);
    }
    assert neighbors[..|neighbors|] == neighbors;
    forall m | 0 <= m < |cs|
      ensures indegree[cs[m].id] == Pending(cs[m].prerequisiteIds, IdSet(cs), done0 + {x})
      ensures cs[m].id in done0 + {x} ==> Pending(cs[m].prerequisiteIds, IdSet(cs), done0 + {x}) == 0
    {
      PendingSplit(cs[m].prerequisiteIds, IdSet(cs), done0, x);
    }
  }

  /** The state of the emission loop between two emissions. */
  ghost predicate EmitState(cs: seq<Concept>, idx: map<string, nat>, queue: seq<string>,
                            indegree: map<string, int>, sorted: seq<string>)
  {
    SetOf(sorted) <= IdSet(cs)
    && indegree.Keys == IdSet(cs)
    && (forall m :: 0 <= m < |cs| ==>
          indegree[cs[m].id] == Pending(cs[m].prerequisiteIds, IdSet(cs), SetOf(sorted)))
    && (forall m :: 0 <= m < |cs| && cs[m].id in SetOf(sorted) ==>
          Pending(cs[m].prerequisiteIds, IdSet(cs), SetOf(sorted)) == 0)
    && QueueOk(cs, idx, queue, indegree, SetOf(sorted))
  }

  /** `shift` removes the head and marks it as emitted. */
  lemma ShiftQueue(cs: seq<Concept>, idx: map<string, nat>, queue: seq<string>,
                   indegree: map<string, int>, done: set<string>)
    requires QueueOk(cs, idx, queue, indegree, done) && |queue| > 0
    ensures QueueOk(cs, idx, queue[1..], indegree, done + {queue[0]})
  {
    assert forall k :: 1 <= k < |queue| ==> queue[k] != queue[0];
    assert forall y :: y in queue[1..] <==> y in queue && y != queue[0];
  }

  /** Emitting the first ready concept is one step of KahnFrom. */
  lemma KahnStep(cs: seq<Concept>, sorted: seq<string>, h: nat)
    requires SetOf(sorted) <= IdSet(cs)
    requires h < |cs| && FirstReadyFrom(cs, SetOf(sorted), 0) == Some(h) && cs[h].id != ""
    ensures SetOf(sorted + [cs[h].id]) <= IdSet(cs)
    ensures KahnFrom(cs, sorted) == KahnFrom(cs, sorted + [cs[h].id])
  {
    SetOfAppend(sorted, cs[h].id);
  }

  /** The state after the empty queue or the falsy-id break: KahnFrom has nothing more to emit. */
  lemma KahnStops(cs: seq<Concept>, sorted: seq<string>)
    requires SetOf(sorted) <= IdSet(cs)
    requires FirstReadyFrom(cs, SetOf(sorted), 0).None? || cs[FirstReadyFrom(cs, SetOf(sorted), 0).value].id == ""
    ensures KahnFrom(cs, sorted) == sorted
  {
  }

  /** The ids of a sequence whose elements are ids of cs are keys of ById(cs). */
  lemma IdsAreKeys(cs: seq<Concept>, ids: seq<string>)
    requires SetOf(ids) <= IdSet(cs)
    ensures forall k :: 0 <= k < |ids| ==> ids[k] in ById(cs)
  {
    assert forall k :: 0 <= k < |ids| ==> ids[k] in SetOf(ids);
  }

  /** The emission loop of sortByCurriculumOrder: Kahn's algorithm over the prepared graph. */
  method EmitInOrder(cs: seq<Concept>, idx: map<string, nat>, indegree0: map<string, int>,
                     outbound: map<string, seq<string>>, queue0: seq<string>)
    returns (sortedIds: seq<string>)
    requires DistinctIds(cs) && IndexOk(cs, idx) && idx.Keys == IdSet(cs)
    requires outbound.Keys == IdSet(cs)
    requires forall x :: x in outbound ==> forall k :: 0 <= k < |outbound[x]| ==> outbound[x][k] in IdSet(cs)
    requires forall x, m :: x in outbound && 0 <= m < |cs| ==>
               multiset(outbound[x])[cs[m].id] == multiset(cs[m].prerequisiteIds)[x]
    requires EmitState(cs, idx, queue0, indegree0, [])
    ensures sortedIds == KahnFrom(cs, [])
  {
    var zeroQueue := queue0;
    var indegree := indegree0;
    sortedIds := [];
    ghost var stopped := false;
    while |zeroQueue| > 0
      invariant EmitState(cs, idx, zeroQueue, indegree, sortedIds)
      invariant KahnFrom(cs, sortedIds) == KahnFrom(cs, [])
      invariant !stopped
      decreases IdSet(cs) - SetOf(sortedIds)
    {
      var conceptId := zeroQueue[0];
      ghost var done0 := SetOf(sortedIds);
      HeadIsFirstReady(cs, idx, zeroQueue, indegree, done0);
      ghost var h := idx[conceptId];
      ShiftQueue(cs, idx, zeroQueue, indegree, done0);
      zeroQueue := zeroQueue[1..];
      if conceptId == "" {
        KahnStops(cs, sortedIds);
        stopped := true;
        break;
      }
      KahnStep(cs, sortedIds, h);
      var neighbors := outbound[conceptId];
      assert RelaxFrame(cs, idx, conceptId, neighbors, done0);
      zeroQueue, indegree := RelaxNeighbors(cs, idx, conceptId, neighbors, zeroQueue, indegree, done0);
      SetOfAppend(sortedIds, conceptId);
      sortedIds := sortedIds + [conceptId];
    }
    if !stopped {
      EmptyQueueNoneReady(cs, idx, zeroQueue, indegree, SetOf(sortedIds));
      KahnStops(cs, sortedIds);
    }
  }

  /** sortByCurriculumOrder, for concepts with distinct ids. */
  method SortByCurriculumOrder(cs: seq<Concept>) returns (ordered: seq<Concept>)
    requires DistinctIds(cs)
    ensures ordered == CurriculumOrder(cs)
  {
    var conceptById := ById(cs);
    var originalIndex := IndexById(cs);
    IndexByIdOk(cs);
    var indegree, outbound := BuildGraph(cs);
    ZeroQueueOk(cs, originalIndex, indegree, |cs|);
    var zeroQueue := ZeroQueue(cs, indegree, |cs|);
    var none: seq<string> := [];
    assert SetOf(none) == {};
    var sortedIds := EmitInOrder(cs, originalIndex, indegree, outbound, zeroQueue);
    if |sortedIds| != |cs| {
      var sortedSet := SetOf(sortedIds);
      var remaining := Remaining(cs, sortedSet);
      sortedIds := sortedIds + remaining;
    }
    IdsAreKeys(cs, sortedIds);
    ordered := Lookup(conceptById, sortedIds);
  }
}
