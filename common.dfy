/** Small value types shared by every module of the model. */
module Common {

  /** A value that may be absent: JavaScript's `null` / `undefined`. */
  datatype Option<T> = None | Some(value: T)

  /** The outcome of an operation that can throw: `Err` carries the message. */
  datatype Result<T, E> = Ok(value: T) | Err(error: E)

  /** True iff no value occurs twice in `s`. */
  predicate Distinct<T(==)>(s: seq<T>)
  {
    forall i, j :: 0 <= i < j < |s| ==> s[i] != s[j]
  }

  /** `s.filter(p)`: the elements satisfying `p`, in their original order. */
  function Filter<T>(s: seq<T>, p: T -> bool): (r: seq<T>)
    ensures |r| <= |s|
    ensures forall x :: x in r ==> x in s && p(x)
    ensures forall x :: x in s && p(x) ==> x in r
    decreases |s|
  {
    if |s| == 0 then []
    else Filter(s[..|s| - 1], p) + (if p(s[|s| - 1]) then [s[|s| - 1]] else [])
  }

  /** The head of a filtered sequence is the first element that passes. */
  lemma {:induction false} FilterFirst<T>(s: seq<T>, p: T -> bool)
    requires Filter(s, p) != []
    ensures exists i :: 0 <= i < |s| && s[i] == Filter(s, p)[0] && p(s[i]) && forall j :: 0 <= j < i ==> !p(s[j])
    decreases |s|
  {
    var n := |s| - 1;
    var front := Filter(s[..n], p);
    assert Filter(s, p) == front + (if p(s[n]) then [s[n]] else []);
    if front != [] {
      FilterFirst(s[..n], p);
      var i :| 0 <= i < n && s[..n][i] == front[0] && p(s[..n][i]) &&
               forall j :: 0 <= j < i ==> !p(s[..n][j]);
      assert Filter(s, p)[0] == front[0];
      forall j | 0 <= j < i
        ensures !p(s[j])
      {
        assert s[..n][j] == s[j];
      }
    } else {
      forall j | 0 <= j < n
        ensures !p(s[j])
      {
        assert s[..n][j] == s[j];
        assert s[j] in s[..n];
      }
      assert Filter(s, p)[0] == s[n];
    }
  }

  /** A filter every element passes keeps the whole sequence. */
  lemma {:induction false} FilterKeepsAll<T>(s: seq<T>, p: T -> bool)
    requires forall i :: 0 <= i < |s| ==> p(s[i])
    ensures Filter(s, p) == s
    decreases |s|
  {
    if |s| > 0 {
      var n := |s| - 1;
      var front := s[..n];
      forall i | 0 <= i < n
        ensures p(front[i])
      {
        assert front[i] == s[i];
      }
      FilterKeepsAll(front, p);
      assert p(s[n]);
      assert Filter(s, p) == front + [s[n]];
      assert s == front + [s[n]];
    }
  }

  /** In a sequence without repeats every value is counted at most once. */
  lemma {:induction false} DistinctCountsOnce<T>(s: seq<T>)
    requires Distinct(s)
    ensures forall v :: multiset(s)[v] == if v in s then 1 else 0
    decreases |s|
  {
    if |s| > 0 {
      var n := |s| - 1;
      assert s == s[..n] + [s[n]];
      DistinctCountsOnce(s[..n]);
      assert s[n] !in s[..n];
    }
  }

  /** Two sequences without repeats and with the same members are permutations of each other. */
  lemma DistinctSameMembers<T>(a: seq<T>, b: seq<T>)
    requires Distinct(a) && Distinct(b)
    requires forall x :: x in a <==> x in b
    ensures multiset(a) == multiset(b)
  {
    DistinctCountsOnce(a);
    DistinctCountsOnce(b);
  }

  /** `s[j]` is the last element of `s` whose key is `y`. */
  predicate IsLastWithKey<T>(s: seq<T>, key: T -> string, y: string, j: int)
  {
    0 <= j < |s| && key(s[j]) == y && forall j' :: j < j' < |s| ==> key(s[j']) != y
  }

  /**
   * `new Map(s.map((x) => [key(x), x]))`: one entry per key, holding the last
   * element of `s` with that key.
   */
  function LastByKey<T>(s: seq<T>, key: T -> string): (m: map<string, T>)
    ensures m.Keys == set x | x in s :: key(x)
    ensures forall y :: y in m ==> exists j :: IsLastWithKey(s, key, y, j) && s[j] == m[y]
    decreases |s|
  {
    if |s| == 0 then map[]
    else
      var n := |s| - 1;
      var front := LastByKey(s[..n], key);
      assert s == s[..n] + [s[n]];
      assert forall j :: 0 <= j < n ==> s[..n][j] == s[j];
      front[key(s[n]) := s[n]]
  }

  /** Filtering twice is filtering once by both tests. */
  lemma {:induction false} FilterTwice<T>(s: seq<T>, p: T -> bool, q: T -> bool, both: T -> bool)
    requires forall x :: both(x) == (p(x) && q(x))
    ensures Filter(Filter(s, p), q) == Filter(s, both)
    decreases |s|
  {
    if |s| > 0 {
      var n := |s| - 1;
      FilterTwice(s[..n], p, q, both);
      var front := Filter(s[..n], p);
      if p(s[n]) {
        var once := front + [s[n]];
        assert Filter(s, p) == once;
        assert once[..|once| - 1] == front;
        assert Filter(once, q) == Filter(front, q) + (if q(s[n]) then [s[n]] else []);
      } else {
        assert Filter(s, p) == front;
      }
    }
  }

  function Min(a: int, b: int): int
  {
    if a <= b then a else b
  }

  function Max(a: int, b: int): int
  {
    if a >= b then a else b
  }
}
