/**
 * The scheduler picks concepts with `[...xs].sort(cmp)[0]` (JavaScript's sort is
 * stable). Every comparator it uses compares a tuple of numbers field by field, so
 * each one is modelled by a key function into `seq<real>` ordered lexicographically,
 * and "the head of the stably sorted copy" by `FirstMinIndex`: the first position
 * whose key no other key beats.
 */
module Ordering {
  import opened Common

  /** Strict lexicographic order; a proper prefix comes before its extensions. */
  predicate LexLess(a: seq<real>, b: seq<real>)
    decreases |a|
  {
    |b| > 0 && (|a| == 0 || a[0] < b[0] || (a[0] == b[0] && LexLess(a[1..], b[1..])))
  }

  lemma {:induction false} LexIrreflexive(a: seq<real>)
    ensures !LexLess(a, a)
    decreases |a|
  {
    if |a| > 0 {
      LexIrreflexive(a[1..]);
    }
  }

  lemma {:induction false} LexTransitive(a: seq<real>, b: seq<real>, c: seq<real>)
    requires LexLess(a, b) && LexLess(b, c)
    ensures LexLess(a, c)
    decreases |a|
  {
    if |a| > 0 && a[0] == b[0] && b[0] == c[0] {
      LexTransitive(a[1..], b[1..], c[1..]);
    }
  }

  lemma {:induction false} LexTotal(a: seq<real>, b: seq<real>)
    ensures a == b || LexLess(a, b) || LexLess(b, a)
    decreases |a|
  {
    if |a| > 0 && |b| > 0 && a[0] == b[0] {
      LexTotal(a[1..], b[1..]);
      if a[1..] == b[1..] {
        assert a == [a[0]] + a[1..] && b == [b[0]] + b[1..];
      }
    }
  }

  lemma LexAsymmetric(a: seq<real>, b: seq<real>)
    requires LexLess(a, b)
    ensures !LexLess(b, a)
  {
    if LexLess(b, a) {
      LexTransitive(a, b, a);
      LexIrreflexive(a);
    }
  }

  /** Lexicographic order on keys of one, two, three or four components, spelt out. */
  lemma Lex1(x0: real, y0: real)
    ensures LexLess([x0], [y0]) <==> x0 < y0
  {
    assert [x0][1..] == [] && [y0][1..] == [];
  }

  lemma Lex2(x0: real, x1: real, y0: real, y1: real)
    ensures LexLess([x0, x1], [y0, y1]) <==> x0 < y0 || (x0 == y0 && x1 < y1)
  {
    assert [x0, x1][1..] == [x1] && [y0, y1][1..] == [y1];
    Lex1(x1, y1);
  }

  lemma Lex3(x0: real, x1: real, x2: real, y0: real, y1: real, y2: real)
    ensures LexLess([x0, x1, x2], [y0, y1, y2]) <==>
      x0 < y0 || (x0 == y0 && (x1 < y1 || (x1 == y1 && x2 < y2)))
  {
    assert [x0, x1, x2][1..] == [x1, x2] && [y0, y1, y2][1..] == [y1, y2];
    Lex2(x1, x2, y1, y2);
  }

  lemma Lex4(x0: real, x1: real, x2: real, x3: real, y0: real, y1: real, y2: real, y3: real)
    ensures LexLess([x0, x1, x2, x3], [y0, y1, y2, y3]) <==>
      x0 < y0 || (x0 == y0 && (x1 < y1 || (x1 == y1 && (x2 < y2 || (x2 == y2 && x3 < y3)))))
  {
    assert [x0, x1, x2, x3][1..] == [x1, x2, x3] && [y0, y1, y2, y3][1..] == [y1, y2, y3];
    Lex3(x1, x2, x3, y1, y2, y3);
  }

  /**
   * The position of the head of `s` after a stable sort by `key`: its key is
   * beaten by no other key, and every earlier element has a strictly larger key.
   */
  function FirstMinIndex<T>(s: seq<T>, key: T -> seq<real>): (i: nat)
    requires |s| > 0
    ensures i < |s|
    ensures forall j :: 0 <= j < |s| ==> !LexLess(key(s[j]), key(s[i]))
    ensures forall j :: 0 <= j < i ==> LexLess(key(s[i]), key(s[j]))
    decreases |s|
  {
    if |s| == 1 then
      LexIrreflexive(key(s[0]));
      0
    else
      var b := FirstMinIndex(s[..|s| - 1], key);
      var n := |s| - 1;
      if LexLess(key(s[n]), key(s[b])) then
        NewMinimum(s, key, b);
        n
      else
        assert forall j :: 0 <= j < n ==> s[..n][j] == s[j];
        b
  }

  /** When the last element beats the minimum of the others, it is the minimum of all. */
  lemma NewMinimum<T>(s: seq<T>, key: T -> seq<real>, b: nat)
    requires 0 <= b < |s| - 1
    requires forall j :: 0 <= j < |s| - 1 ==> !LexLess(key(s[j]), key(s[b]))
    requires LexLess(key(s[|s| - 1]), key(s[b]))
    ensures forall j :: 0 <= j < |s| ==> !LexLess(key(s[j]), key(s[|s| - 1]))
    ensures forall j :: 0 <= j < |s| - 1 ==> LexLess(key(s[|s| - 1]), key(s[j]))
  {
    var n := |s| - 1;
    forall j | 0 <= j < |s|
      ensures !LexLess(key(s[j]), key(s[n]))
    {
      if j == n {
        LexIrreflexive(key(s[n]));
      } else if LexLess(key(s[j]), key(s[n])) {
        LexTransitive(key(s[j]), key(s[n]), key(s[b]));
      }
    }
    forall j | 0 <= j < n
      ensures LexLess(key(s[n]), key(s[j]))
    {
      LexTotal(key(s[n]), key(s[j]));
    }
  }

  /** The element `FirstMinIndex` selects. */
  function FirstMin<T>(s: seq<T>, key: T -> seq<real>): (m: T)
    requires |s| > 0
    ensures m in s
    ensures forall x :: x in s ==> !LexLess(key(x), key(m))
  {
    s[FirstMinIndex(s, key)]
  }

  /**
   * `s[k]` is where the head of a stable sort of `Filter(s, p)` by `key` sits in
   * `s`: it is kept, no kept element has a smaller key, and every kept element
   * before it has a strictly larger key (ties keep input order).
   */
  ghost predicate IsStableHead<T>(s: seq<T>, p: T -> bool, key: T -> seq<real>, k: int)
  {
    && 0 <= k < |s| && p(s[k])
    && (forall j :: 0 <= j < |s| && p(s[j]) ==> !LexLess(key(s[j]), key(s[k])))
    && (forall j :: 0 <= j < k && p(s[j]) ==> LexLess(key(s[k]), key(s[j])))
  }

  lemma StableHeadSkip<T>(s: seq<T>, p: T -> bool, key: T -> seq<real>, k: int)
    requires |s| > 0 && IsStableHead(s[..|s| - 1], p, key, k) && !p(s[|s| - 1])
    ensures IsStableHead(s, p, key, k)
  {
    assert forall j :: 0 <= j < |s| - 1 ==> s[..|s| - 1][j] == s[j];
  }

  lemma StableHeadKeep<T>(s: seq<T>, p: T -> bool, key: T -> seq<real>, k: int)
    requires |s| > 0 && IsStableHead(s[..|s| - 1], p, key, k) && p(s[|s| - 1])
    requires !LexLess(key(s[|s| - 1]), key(s[k]))
    ensures IsStableHead(s, p, key, k)
  {
    assert forall j :: 0 <= j < |s| - 1 ==> s[..|s| - 1][j] == s[j];
  }

  lemma StableHeadReplace<T>(s: seq<T>, p: T -> bool, key: T -> seq<real>, k: int)
    requires |s| > 0 && IsStableHead(s[..|s| - 1], p, key, k) && p(s[|s| - 1])
    requires LexLess(key(s[|s| - 1]), key(s[k]))
    ensures IsStableHead(s, p, key, |s| - 1)
  {
    var n := |s| - 1;
    var x := s[n];
    assert forall j :: 0 <= j < n ==> s[..n][j] == s[j];
    forall j | 0 <= j < n && p(s[j])
      ensures LexLess(key(x), key(s[j])) && !LexLess(key(s[j]), key(x))
    {
      assert !LexLess(key(s[..n][j]), key(s[..n][k]));
      LexTotal(key(s[k]), key(s[j]));
      if key(s[k]) != key(s[j]) {
        LexTransitive(key(x), key(s[k]), key(s[j]));
      }
      LexAsymmetric(key(x), key(s[j]));
    }
    LexIrreflexive(key(x));
  }

  lemma StableHeadFirst<T>(s: seq<T>, p: T -> bool, key: T -> seq<real>)
    requires |s| > 0 && Filter(s[..|s| - 1], p) == [] && p(s[|s| - 1])
    ensures IsStableHead(s, p, key, |s| - 1)
  {
    var n := |s| - 1;
    forall j | 0 <= j < n
      ensures !p(s[j])
    {
      assert s[j] in s[..n];
    }
    LexIrreflexive(key(s[n]));
  }

  /** The head of a stably sorted filtered copy, located in the unfiltered input. */
  lemma {:induction false} FilteredFirstMin<T>(s: seq<T>, p: T -> bool, key: T -> seq<real>)
    requires Filter(s, p) != []
    ensures exists k :: IsStableHead(s, p, key, k) && s[k] == FirstMin(Filter(s, p), key)
    decreases |s|
  {
    var n := |s| - 1;
    var x := s[n];
    var front := Filter(s[..n], p);
    if !p(x) {
      assert Filter(s, p) == front;
      FilteredFirstMin(s[..n], p, key);
      var k :| IsStableHead(s[..n], p, key, k) && s[..n][k] == FirstMin(front, key);
      StableHeadSkip(s, p, key, k);
    } else if front == [] {
      assert Filter(s, p) == [x];
      StableHeadFirst(s, p, key);
    } else {
      var all := front + [x];
      assert Filter(s, p) == all;
      assert all[..|front|] == front;
      var b := FirstMinIndex(front, key);
      assert FirstMinIndex(all, key) == (if LexLess(key(x), key(front[b])) then |front| else b);
      FilteredFirstMin(s[..n], p, key);
      var k :| IsStableHead(s[..n], p, key, k) && s[..n][k] == FirstMin(front, key);
      if LexLess(key(x), key(front[b])) {
        StableHeadReplace(s, p, key, k);
      } else {
        StableHeadKeep(s, p, key, k);
      }
    }
  }
}
