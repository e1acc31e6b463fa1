/**
 * What sortByCurriculumOrder (lib/sessionEngine.ts) promises, proved about
 * CurriculumOrder: every concept comes out exactly once; every concept the
 * emission loop pushes comes after its present prerequisites; for an acyclic
 * prerequisite graph the loop pushes everything, so the whole order is
 * prerequisite-first; and without edges the input order survives.
 */
module CurriculumFacts {
  import opened Common
  import opened Curriculum

  // ---------------------------------------------------------------------
  // Counting ids
  // ---------------------------------------------------------------------

  lemma {:induction false} DistinctCard(s: seq<string>)
    requires Distinct(s)
    ensures |SetOf(s)| == |s|
    decreases |s|
  {
    if |s| > 0 {
      var n := |s| - 1;
      assert s == s[..n] + [s[n]];
      DistinctCard(s[..n]);
      SetOfAppend(s[..n], s[n]);
      assert s[n] !in SetOf(s[..n]);
    }
  }

  lemma {:induction false} IdSetCard(cs: seq<Concept>)
    requires DistinctIds(cs)
    ensures |IdSet(cs)| == |cs|
    decreases |cs|
  {
    if |cs| > 0 {
      var n := |cs| - 1;
      var front := cs[..n];
      assert cs == front + [cs[n]];
      assert IdSet(cs) == IdSet(front) + {cs[n].id};
      DistinctIdsPrefix(cs, n);
      IdSetCard(front);
      assert forall i :: 0 <= i < n ==> front[i].id != cs[n].id;
      assert cs[n].id !in IdSet(front);
    }
  }

  lemma SubsetSameCard(a: set<string>, b: set<string>)
    requires a <= b && |a| == |b|
    ensures a == b
  {
    assert a * b == a;
    assert a + b == b;
    assert |b - a| == 0;
  }

  /** Some position of the input carries each id of IdSet. */
  lemma IdIndex(cs: seq<Concept>, y: string) returns (m: nat)
    requires y in IdSet(cs)
    ensures m < |cs| && cs[m].id == y
  {
    var c :| c in cs && c.id == y;
    m :| m < |cs| && cs[m] == c;
  }

  // ---------------------------------------------------------------------
  // Every concept exactly once
  // ---------------------------------------------------------------------

  /** The id sequence lists every id of the input exactly once. */
  lemma OrderIdsArePermutation(cs: seq<Concept>)
    requires DistinctIds(cs)
    ensures Distinct(CurriculumOrderIds(cs))
    ensures SetOf(CurriculumOrderIds(cs)) == IdSet(cs)
  {
    var none: seq<string> := [];
    assert SetOf(none) == {};
    var p := KahnFrom(cs, none);
    if |p| != |cs| {
      var rest := Remaining(cs, SetOf(p));
      var ids := p + rest;
      assert forall k :: 0 <= k < |p| ==> p[k] in SetOf(p);
      forall i, j | 0 <= i < j < |ids|
        ensures ids[i] != ids[j]
      {
        if j < |p| {
        } else if i >= |p| {
          assert ids[i] == rest[i - |p|] && ids[j] == rest[j - |p|];
        } else {
          assert ids[i] == p[i] && ids[j] == rest[j - |p|];
        }
      }
      forall y | y in IdSet(cs)
        ensures y in SetOf(ids)
      {
        var m := IdIndex(cs, y);
        if y !in SetOf(p) {
          assert y in rest;
        }
      }
    } else {
      DistinctCard(p);
      IdSetCard(cs);
      SubsetSameCard(SetOf(p), IdSet(cs));
    }
  }

  /** The lookup of an id of the input finds the concept with that id. */
  lemma LookupFindsConcept(cs: seq<Concept>, y: string)
    requires DistinctIds(cs) && y in IdSet(cs)
    ensures y in ById(cs) && ById(cs)[y].id == y && ById(cs)[y] in cs
  {
    var m := IdIndex(cs, y);
    ByIdOk(cs);
  }

  lemma OrderHasIds(cs: seq<Concept>)
    requires DistinctIds(cs)
    ensures |CurriculumOrder(cs)| == |CurriculumOrderIds(cs)|
    ensures forall k :: 0 <= k < |CurriculumOrderIds(cs)| ==>
              CurriculumOrder(cs)[k].id == CurriculumOrderIds(cs)[k] && CurriculumOrder(cs)[k] in cs
  {
    var ids := CurriculumOrderIds(cs);
    forall k | 0 <= k < |ids|
      ensures CurriculumOrder(cs)[k].id == ids[k] && CurriculumOrder(cs)[k] in cs
    {
      assert ids[k] in SetOf(ids);
      LookupFindsConcept(cs, ids[k]);
    }
  }

  /** The curriculum order is a permutation of the input. */
  lemma CurriculumOrderIsPermutation(cs: seq<Concept>)
    requires DistinctIds(cs)
    ensures multiset(CurriculumOrder(cs)) == multiset(cs)
  {
    var ids := CurriculumOrderIds(cs);
    var r := CurriculumOrder(cs);
    OrderIdsArePermutation(cs);
    OrderHasIds(cs);
    ByIdOk(cs);
    assert Distinct(r) by {
      assert forall i, j :: 0 <= i < j < |r| ==> r[i].id == ids[i] && r[j].id == ids[j];
    }
    assert Distinct(cs);
    forall x | x in cs
      ensures x in r
    {
      var m :| 0 <= m < |cs| && cs[m] == x;
      assert x.id in SetOf(ids);
      var k :| 0 <= k < |ids| && ids[k] == x.id;
      assert r[k] == ById(cs)[ids[k]];
    }
    DistinctSameMembers(r, cs);
  }

  /** The same concepts, as a membership statement. */
  lemma CurriculumOrderSameMembers(cs: seq<Concept>)
    requires DistinctIds(cs)
    ensures |CurriculumOrder(cs)| == |cs|
    ensures forall c :: c in CurriculumOrder(cs) <==> c in cs
  {
    CurriculumOrderIsPermutation(cs);
    assert forall c :: c in CurriculumOrder(cs) <==> c in multiset(CurriculumOrder(cs));
    assert |multiset(CurriculumOrder(cs))| == |multiset(cs)|;
  }

  /** The curriculum order repeats no id. */
  lemma CurriculumOrderDistinctIds(cs: seq<Concept>)
    requires DistinctIds(cs)
    ensures DistinctIds(CurriculumOrder(cs))
  {
    OrderIdsArePermutation(cs);
    OrderHasIds(cs);
  }

  /** Each pushed id is the id of the ready concept with the smallest input index at that point. */
  ghost predicate PushesFirstReady(cs: seq<Concept>, p: seq<string>)
  {
    forall k :: 0 <= k < |p| ==>
      SetOf(p[..k]) <= IdSet(cs) &&
      FirstReadyFrom(cs, SetOf(p[..k]), 0).Some? && cs[FirstReadyFrom(cs, SetOf(p[..k]), 0).value].id == p[k] &&
      p[k] != ""
  }

  lemma {:induction false} KahnFromPushesFirstReady(cs: seq<Concept>, sorted: seq<string>)
    requires SetOf(sorted) <= IdSet(cs)
    requires PushesFirstReady(cs, sorted)
    ensures PushesFirstReady(cs, KahnFrom(cs, sorted))
    decreases IdSet(cs) - SetOf(sorted)
  {
    match FirstReadyFrom(cs, SetOf(sorted), 0)
    case None =>
    case Some(i) =>
      if cs[i].id != "" {
        var x := cs[i].id;
        var next := sorted + [x];
        SetOfAppend(sorted, x);
        forall k | 0 <= k < |next|
          ensures SetOf(next[..k]) <= IdSet(cs)
          ensures FirstReadyFrom(cs, SetOf(next[..k]), 0).Some?
          ensures cs[FirstReadyFrom(cs, SetOf(next[..k]), 0).value].id == next[k] && next[k] != ""
        {
          if k < |sorted| {
            assert next[..k] == sorted[..k];
          } else {
            assert next[..k] == sorted;
          }
        }
        KahnFromPushesFirstReady(cs, next);
      }
  }

  /** The emission loop always pushes the ready concept with the smallest input index, never an empty id. */
  lemma EmitsFirstReady(cs: seq<Concept>)
    ensures PushesFirstReady(cs, KahnFrom(cs, []))
  {
    var none: seq<string> := [];
    assert SetOf(none) == {};
    KahnFromPushesFirstReady(cs, none);
  }

  /** Ids left over after the loop keep the order of any index map of the input. */
  lemma {:induction false} RemainingSorted(cs: seq<Concept>, e: set<string>, idx: map<string, nat>)
    requires forall m :: 0 <= m < |cs| ==> cs[m].id in idx && idx[cs[m].id] == m
    ensures StrictlySorted(Remaining(cs, e), idx)
    ensures forall k :: 0 <= k < |Remaining(cs, e)| ==> Remaining(cs, e)[k] in idx && idx[Remaining(cs, e)[k]] < |cs|
    decreases |cs|
  {
    if |cs| > 0 {
      var n := |cs| - 1;
      var front := cs[..n];
      forall m | 0 <= m < |front|
        ensures front[m].id in idx && idx[front[m].id] == m
      {
        assert front[m] == cs[m];
      }
      RemainingSorted(front, e, idx);
      var r0 := Remaining(front, e);
      assert cs == front + [cs[n]];
      if cs[n].id !in e {
        assert Remaining(cs, e) == r0 + [cs[n].id];
        SortedAppendLater(r0, cs[n].id, idx);
      } else {
        assert Remaining(cs, e) == r0;
      }
    }
  }

  /** Ids left over after the loop are appended in input order. */
  lemma RemainingInInputOrder(cs: seq<Concept>, e: set<string>)
    requires DistinctIds(cs)
    ensures StrictlySorted(Remaining(cs, e), IndexById(cs))
  {
    IndexByIdOk(cs);
    RemainingSorted(cs, e, IndexById(cs));
  }

  /**
   * After the emitted prefix come exactly the concepts never emitted (those on
   * or behind a cycle or self-edge), each once, in input order.
   */
  lemma CycleTailInInputOrder(cs: seq<Concept>)
    requires DistinctIds(cs)
    ensures |KahnFrom(cs, [])| <= |CurriculumOrderIds(cs)|
    ensures CurriculumOrderIds(cs)[..|KahnFrom(cs, [])|] == KahnFrom(cs, [])
    ensures StrictlySorted(CurriculumOrderIds(cs)[|KahnFrom(cs, [])|..], IndexById(cs))
    ensures forall m :: 0 <= m < |cs| ==>
              (cs[m].id in CurriculumOrderIds(cs)[|KahnFrom(cs, [])|..] <==> cs[m].id !in KahnFrom(cs, []))
  {
    var none: seq<string> := [];
    assert SetOf(none) == {};
    var p := KahnFrom(cs, none);
    var ids := CurriculumOrderIds(cs);
    if |p| != |cs| {
      assert ids[|p|..] == Remaining(cs, SetOf(p));
      RemainingInInputOrder(cs, SetOf(p));
    } else {
      OrderIdsArePermutation(cs);
      assert ids[|p|..] == [];
      assert forall m :: 0 <= m < |cs| ==> cs[m].id in SetOf(p);
    }
  }

  // ---------------------------------------------------------------------
  // Prerequisites first
  // ---------------------------------------------------------------------

  /** Every id pushed so far had no pending prerequisite when it was pushed. */
  ghost predicate PushedWhenFree(cs: seq<Concept>, p: seq<string>)
  {
    forall k, m :: 0 <= k < |p| && 0 <= m < |cs| && cs[m].id == p[k] ==>
      Pending(cs[m].prerequisiteIds, IdSet(cs), SetOf(p[..k])) == 0
  }

  lemma {:induction false} KahnFromPushesFree(cs: seq<Concept>, sorted: seq<string>)
    requires DistinctIds(cs) && SetOf(sorted) <= IdSet(cs)
    requires PushedWhenFree(cs, sorted)
    ensures PushedWhenFree(cs, KahnFrom(cs, sorted))
    decreases IdSet(cs) - SetOf(sorted)
  {
    match FirstReadyFrom(cs, SetOf(sorted), 0)
    case None =>
    case Some(i) =>
      if cs[i].id != "" {
        var x := cs[i].id;
        var next := sorted + [x];
        SetOfAppend(sorted, x);
        forall k, m | 0 <= k < |next| && 0 <= m < |cs| && cs[m].id == next[k]
          ensures Pending(cs[m].prerequisiteIds, IdSet(cs), SetOf(next[..k])) == 0
        {
          if k < |sorted| {
            assert next[..k] == sorted[..k];
          } else {
            assert next[..k] == sorted;
            assert m == i;
          }
        }
        KahnFromPushesFree(cs, next);
      }
  }

  /** Every present prerequisite of each of the first `upTo` concepts of r occurs earlier in r. */
  ghost predicate PrerequisitesFirst(cs: seq<Concept>, r: seq<Concept>, upTo: nat)
    requires upTo <= |r|
  {
    forall i, k :: 0 <= i < upTo && 0 <= k < |r[i].prerequisiteIds| && r[i].prerequisiteIds[k] in IdSet(cs) ==>
      r[i].prerequisiteIds[k] in IdSet(r[..i])
  }

  /** The concepts the emission loop pushes come after their present prerequisites, on any input. */
  lemma EmittedPrefixIsPrerequisiteFirst(cs: seq<Concept>)
    requires DistinctIds(cs)
    ensures |KahnFrom(cs, [])| <= |CurriculumOrder(cs)|
    ensures PrerequisitesFirst(cs, CurriculumOrder(cs), |KahnFrom(cs, [])|)
  {
    var none: seq<string> := [];
    assert SetOf(none) == {};
    assert PushedWhenFree(cs, none);
    KahnFromPushesFree(cs, none);
    var p := KahnFrom(cs, none);
    var ids := CurriculumOrderIds(cs);
    var r := CurriculumOrder(cs);
    OrderHasIds(cs);
    assert ids[..|p|] == p;
    ByIdOk(cs);
    forall i, k | 0 <= i < |p| && 0 <= k < |r[i].prerequisiteIds| && r[i].prerequisiteIds[k] in IdSet(cs)
      ensures r[i].prerequisiteIds[k] in IdSet(r[..i])
    {
      var y := r[i].prerequisiteIds[k];
      assert p[i] in SetOf(p);
      var m := IdIndex(cs, p[i]);
      assert r[i] == cs[m];
      PendingZero(cs[m].prerequisiteIds, IdSet(cs), SetOf(p[..i]));
      assert y in SetOf(p[..i]);
      var j :| 0 <= j < i && p[j] == y;
      assert r[..i][j] == r[j] && r[j].id == y;
    }
  }

  /** An acyclic prerequisite graph: a rank that every present prerequisite edge decreases. */
  ghost predicate RankedBy(cs: seq<Concept>, rank: string -> nat)
  {
    forall m, k :: 0 <= m < |cs| && 0 <= k < |cs[m].prerequisiteIds| && cs[m].prerequisiteIds[k] in IdSet(cs) ==>
      rank(cs[m].prerequisiteIds[k]) < rank(cs[m].id)
  }

  predicate NonEmptyIds(cs: seq<Concept>)
  {
    forall m :: 0 <= m < |cs| ==> cs[m].id != ""
  }

  /** In an acyclic graph, while some concept is not emitted, some concept is ready. */
  lemma {:induction false} UnemittedLeadsToReady(cs: seq<Concept>, rank: string -> nat, done: set<string>, m: nat)
    returns (h: nat)
    requires RankedBy(cs, rank) && m < |cs| && cs[m].id !in done
    ensures h < |cs| && Ready(cs, done, h)
    decreases rank(cs[m].id)
  {
    var prs := cs[m].prerequisiteIds;
    PendingZero(prs, IdSet(cs), done);
    if Pending(prs, IdSet(cs), done) == 0 {
      h := m;
    } else {
      var k :| 0 <= k < |prs| && prs[k] in IdSet(cs) && prs[k] !in done;
      var m' := IdIndex(cs, prs[k]);
      h := UnemittedLeadsToReady(cs, rank, done, m');
    }
  }

  /** With an acyclic graph and non-empty ids the emission loop pushes every concept. */
  lemma AcyclicEmitsAll(cs: seq<Concept>, rank: string -> nat)
    requires DistinctIds(cs) && NonEmptyIds(cs) && RankedBy(cs, rank)
    ensures |KahnFrom(cs, [])| == |cs|
  {
    var none: seq<string> := [];
    assert SetOf(none) == {};
    var p := KahnFrom(cs, none);
    assert FirstReadyFrom(cs, SetOf(p), 0).None?;
    forall y | y in IdSet(cs)
      ensures y in SetOf(p)
    {
      var m := IdIndex(cs, y);
      if y !in SetOf(p) {
        var h := UnemittedLeadsToReady(cs, rank, SetOf(p), m);
        assert false;
      }
    }
    assert Distinct(p);
    assert SetOf(p) == IdSet(cs);
    DistinctCard(p);
    IdSetCard(cs);
  }

  /** With an acyclic graph and non-empty ids the whole curriculum order is prerequisite-first. */
  lemma AcyclicOrderIsPrerequisiteFirst(cs: seq<Concept>, rank: string -> nat)
    requires DistinctIds(cs) && NonEmptyIds(cs) && RankedBy(cs, rank)
    ensures |CurriculumOrder(cs)| == |cs|
    ensures PrerequisitesFirst(cs, CurriculumOrder(cs), |cs|)
  {
    AcyclicEmitsAll(cs, rank);
    EmittedPrefixIsPrerequisiteFirst(cs);
    OrderHasIds(cs);
  }

  // ---------------------------------------------------------------------
  // No edges: input order
  // ---------------------------------------------------------------------

  function IdsOf(cs: seq<Concept>): (r: seq<string>)
    ensures |r| == |cs| && forall k :: 0 <= k < |cs| ==> r[k] == cs[k].id
  {
    seq(|cs|, k requires 0 <= k < |cs| => cs[k].id)
  }

  predicate NoPresentPrerequisites(cs: seq<Concept>)
  {
    forall m, k :: 0 <= m < |cs| && 0 <= k < |cs[m].prerequisiteIds| ==> cs[m].prerequisiteIds[k] !in IdSet(cs)
  }

  /** Without present prerequisites nothing is ever pending. */
  lemma NothingPending(cs: seq<Concept>, done: set<string>)
    requires NoPresentPrerequisites(cs)
    ensures forall m :: 0 <= m < |cs| ==> Pending(cs[m].prerequisiteIds, IdSet(cs), done) == 0
  {
    forall m | 0 <= m < |cs|
      ensures Pending(cs[m].prerequisiteIds, IdSet(cs), done) == 0
    {
      PendingZero(cs[m].prerequisiteIds, IdSet(cs), done);
    }
  }

  /** After the first `n` ids are emitted, concept `n` is the first ready one. */
  lemma NextInInputOrder(cs: seq<Concept>, n: nat)
    requires DistinctIds(cs) && NoPresentPrerequisites(cs) && n < |cs|
    ensures FirstReadyFrom(cs, SetOf(IdsOf(cs[..n])), 0) == Some(n)
  {
    var sorted := IdsOf(cs[..n]);
    var done := SetOf(sorted);
    NothingPending(cs, done);
    assert forall m :: 0 <= m < n ==> cs[m].id == sorted[m] && cs[m].id in done;
    assert cs[n].id !in done by {
      assert forall j :: 0 <= j < |sorted| ==> sorted[j] == cs[j].id;
    }
    FirstReadyIs(cs, done, n);
  }

  /**
   * The loop emits the concepts in input order up to position `e`: the end of
   * the input, or the concept whose empty id stops it.
   */
  lemma {:induction false} KahnKeepsInputOrder(cs: seq<Concept>, e: nat, n: nat)
    requires DistinctIds(cs) && NoPresentPrerequisites(cs) && n <= e <= |cs|
    requires NonEmptyIds(cs[..e]) && (e < |cs| ==> cs[e].id == "")
    requires SetOf(IdsOf(cs[..n])) <= IdSet(cs)
    ensures KahnFrom(cs, IdsOf(cs[..n])) == IdsOf(cs[..e])
    decreases e - n
  {
    var sorted := IdsOf(cs[..n]);
    if n == e {
      if e == |cs| {
        AllEmittedNoneReady(cs, sorted);
      } else {
        NextInInputOrder(cs, n);
      }
      KahnStops(cs, sorted);
    } else {
      NextInInputOrder(cs, n);
      assert cs[..e][n] == cs[n];
      KahnStep(cs, sorted, n);
      assert cs[..n + 1] == cs[..n] + [cs[n]];
      IdsOfSnoc(cs[..n], cs[n]);
      KahnKeepsInputOrder(cs, e, n + 1);
    }
  }

  /** Once every concept is emitted, none is ready. */
  lemma AllEmittedNoneReady(cs: seq<Concept>, sorted: seq<string>)
    requires sorted == IdsOf(cs)
    ensures FirstReadyFrom(cs, SetOf(sorted), 0).None?
  {
    var done := SetOf(sorted);
    assert forall m :: 0 <= m < |cs| ==> cs[m].id == sorted[m] && cs[m].id in done;
    assert forall m :: 0 <= m < |cs| ==> !Ready(cs, done, m);
  }

  /** When every id is emitted, nothing is left over. */
  lemma NothingRemains(cs: seq<Concept>, done: set<string>)
    requires forall m :: 0 <= m < |cs| ==> cs[m].id in done
    ensures Remaining(cs, done) == []
  {
    var r := Remaining(cs, done);
    if |r| > 0 {
      assert r[0] in IdSet(cs);
    }
  }

  /** When exactly the concepts before `e` are emitted, the leftover ids are the rest, in order. */
  lemma {:induction false} RemainingAfter(cs: seq<Concept>, done: set<string>, e: nat)
    requires e <= |cs|
    requires forall m :: 0 <= m < e ==> cs[m].id in done
    requires forall m :: e <= m < |cs| ==> cs[m].id !in done
    ensures Remaining(cs, done) == IdsOf(cs[e..])
    decreases |cs|
  {
    if e == |cs| {
      NothingRemains(cs, done);
    } else {
      var n := |cs| - 1;
      var front := cs[..n];
      assert cs == front + [cs[n]];
      assert forall m :: 0 <= m < n ==> front[m] == cs[m];
      calc {
        Remaining(cs, done);
        Remaining(front, done) + [cs[n].id];
        { RemainingAfter(front, done, e); }
        IdsOf(front[e..]) + [cs[n].id];
        { IdsOfSnoc(front[e..], cs[n]); }
        IdsOf(front[e..] + [cs[n]]);
        { assert front[e..] + [cs[n]] == cs[e..]; }
        IdsOf(cs[e..]);
      }
    }
  }

  lemma IdsOfSnoc(cs: seq<Concept>, c: Concept)
    ensures IdsOf(cs + [c]) == IdsOf(cs) + [c.id]
  {
  }

  /** With distinct ids, the ids left over after an input-order prefix are the rest, in order. */
  lemma RemainingIsSuffix(cs: seq<Concept>, e: nat)
    requires DistinctIds(cs) && e <= |cs|
    ensures Remaining(cs, SetOf(IdsOf(cs[..e]))) == IdsOf(cs[e..])
  {
    var ids := IdsOf(cs[..e]);
    assert forall m :: 0 <= m < e ==> ids[m] == cs[m].id && ids[m] in SetOf(ids);
    assert forall m :: e <= m < |cs| ==> cs[m].id !in SetOf(ids);
    RemainingAfter(cs, SetOf(ids), e);
  }

  /**
   * Without a prerequisite present in the input, the curriculum order is the
   * input order, also when an empty id stops the loop early: the concepts from
   * it on are then appended by the leftover step, still in input order.
   */
  lemma NoEdgesKeepsInputOrder(cs: seq<Concept>)
    requires DistinctIds(cs) && NoPresentPrerequisites(cs)
    ensures CurriculumOrder(cs) == cs
  {
    NoEdgesKeepsInputIds(cs);
    ByIdOk(cs);
  }

  /** The first position with an empty id, or the end; with distinct ids there is at most one. */
  lemma EmptyIdPosition(cs: seq<Concept>) returns (e: nat)
    requires DistinctIds(cs)
    ensures e <= |cs| && NonEmptyIds(cs[..e]) && (e < |cs| ==> cs[e].id == "")
  {
    e := |cs|;
    if m :| 0 <= m < |cs| && cs[m].id == "" {
      e := m;
      forall k | 0 <= k < e
        ensures cs[..e][k].id != ""
      {
        assert cs[k].id != cs[m].id;
      }
    } else {
      assert cs[..e] == cs;
    }
  }

  lemma NoEdgesKeepsInputIds(cs: seq<Concept>)
    requires DistinctIds(cs) && NoPresentPrerequisites(cs)
    ensures CurriculumOrderIds(cs) == IdsOf(cs)
  {
    var e := EmptyIdPosition(cs);
    var none: seq<string> := [];
    assert cs[..0] == [] && IdsOf(cs[..0]) == none;
    assert SetOf(none) == {};
    KahnKeepsInputOrder(cs, e, 0);
    OrderIdsAfterInputPrefix(cs, e);
  }

  /** If the loop emits an input-order prefix, the leftover step appends the rest in order. */
  lemma OrderIdsAfterInputPrefix(cs: seq<Concept>, e: nat)
    requires DistinctIds(cs) && e <= |cs|
    requires SetOf([]) <= IdSet(cs) && KahnFrom(cs, []) == IdsOf(cs[..e])
    ensures CurriculumOrderIds(cs) == IdsOf(cs)
  {
    if e < |cs| {
      assert |KahnFrom(cs, [])| == e;
      calc {
        CurriculumOrderIds(cs);
        IdsOf(cs[..e]) + Remaining(cs, SetOf(IdsOf(cs[..e])));
        { RemainingIsSuffix(cs, e); }
        IdsOf(cs[..e]) + IdsOf(cs[e..]);
        { IdsOfAppend(cs[..e], cs[e..]); assert cs[..e] + cs[e..] == cs; }
        IdsOf(cs);
      }
    } else {
      assert cs[..e] == cs;
    }
  }

  lemma IdsOfAppend(a: seq<Concept>, b: seq<Concept>)
    ensures IdsOf(a + b) == IdsOf(a) + IdsOf(b)
  {
  }

  // ---------------------------------------------------------------------
  // The case of the planner's test
  // ---------------------------------------------------------------------

  function Sampling(): Concept { Concept("sampling", "subject-1", "LLM_APP", ["tokens"]) }
  function Tokens(): Concept { Concept("tokens", "subject-1", "LLM_APP", []) }

  lemma ExampleIds()
    ensures IdSet([Sampling(), Tokens()]) == {"sampling", "tokens"}
  {
    var cs := [Sampling(), Tokens()];
    assert Sampling() in cs && Tokens() in cs;
  }

  lemma ExampleFirstPush()
    ensures FirstReadyFrom([Sampling(), Tokens()], {}, 0) == Some(1)
  {
    ExampleIds();
    var cs := [Sampling(), Tokens()];
    assert Pending(["tokens"], IdSet(cs), {}) == Pending([], IdSet(cs), {}) + 1;
    assert !Ready(cs, {}, 0);
    FirstReadyIs(cs, {}, 1);
  }

  lemma ExampleSecondPush()
    ensures FirstReadyFrom([Sampling(), Tokens()], {"tokens"}, 0) == Some(0)
  {
    ExampleIds();
    var cs := [Sampling(), Tokens()];
    assert Pending(["tokens"], IdSet(cs), {"tokens"}) == Pending([], IdSet(cs), {"tokens"});
    FirstReadyIs(cs, {"tokens"}, 0);
  }

  lemma ExampleNothingLeft()
    ensures FirstReadyFrom([Sampling(), Tokens()], {"tokens", "sampling"}, 0) == None
  {
    var cs := [Sampling(), Tokens()];
    assert forall m :: 0 <= m < 2 ==> !Ready(cs, {"tokens", "sampling"}, m);
  }

  lemma ExamplePushes()
    ensures KahnFrom([Sampling(), Tokens()], []) == ["tokens", "sampling"]
  {
    var cs := [Sampling(), Tokens()];
    ExampleIds();
    var none: seq<string> := [];
    assert SetOf(none) == {};
    ExampleFirstPush();
    assert KahnFrom(cs, none) == KahnFrom(cs, ["tokens"]) by {
      assert none + ["tokens"] == ["tokens"];
    }
    assert SetOf(["tokens"]) == {"tokens"};
    ExampleSecondPush();
    assert KahnFrom(cs, ["tokens"]) == KahnFrom(cs, ["tokens", "sampling"]) by {
      assert ["tokens"] + ["sampling"] == ["tokens", "sampling"];
    }
    assert SetOf(["tokens", "sampling"]) == {"tokens", "sampling"};
    ExampleNothingLeft();
  }

  /** "sampling" lists "tokens" as its prerequisite; "tokens" comes first. */
  lemma PrerequisiteComesFirstExample()
    ensures CurriculumOrder([Sampling(), Tokens()]) == [Tokens(), Sampling()]
  {
    var cs := [Sampling(), Tokens()];
    ExamplePushes();
    assert CurriculumOrderIds(cs) == ["tokens", "sampling"];
    ByIdOk(cs);
  }
}
