/**
 * The order of the ranked list: Python sorts the `(score, body, title)` tuples with
 * `reverse=True`, so the list is non-increasing in the lexicographic tuple order.
 */
module Ranking {
  import opened Text

  /** One row of the ranked list. */
  datatype Scored = Scored(score: int, body: string, title: string)

  /** Python's tuple comparison `x > y` on `(score, body, title)`. */
  predicate Above(x: Scored, y: Scored): (r: bool)
    ensures x.score > y.score ==> r
    ensures x.score < y.score ==> !r
    ensures r ==> x != y
  {
    || x.score > y.score
    || (x.score == y.score && StrLess(y.body, x.body))
    || (x.score == y.score && x.body == y.body && StrLess(y.title, x.title))
  }

  lemma AboveIrreflexive(x: Scored)
    ensures !Above(x, x)
  {
    StrLessIrreflexive(x.body);
    StrLessIrreflexive(x.title);
  }

  lemma AboveAsymmetric(x: Scored, y: Scored)
    requires Above(x, y)
    ensures !Above(y, x)
  {
    if x.score == y.score {
      if StrLess(y.body, x.body) {
        StrLessAsymmetric(y.body, x.body);
      } else {
        StrLessIrreflexive(x.body);
        if x.body == y.body {
          StrLessAsymmetric(y.title, x.title);
        }
      }
    }
  }

  lemma AboveTransitive(x: Scored, y: Scored, z: Scored)
    requires Above(x, y) && Above(y, z)
    ensures Above(x, z)
  {
    if x.score == y.score == z.score {
      if StrLess(y.body, x.body) && StrLess(z.body, y.body) {
        StrLessTransitive(z.body, y.body, x.body);
      } else if x.body == y.body == z.body {
        StrLessTransitive(z.title, y.title, x.title);
      }
    }
  }

  /** Two different rows are always ordered one way or the other. */
  lemma AboveTotal(x: Scored, y: Scored)
    requires x != y
    ensures Above(x, y) || Above(y, x)
  {
    if x.score == y.score {
      if x.body != y.body {
        StrLessTotal(x.body, y.body);
      } else {
        StrLessTotal(x.title, y.title);
      }
    }
  }

  /** What `sort(reverse=True)` guarantees: no row is above the row before it. */
  predicate Descending(s: seq<Scored>)
  {
    forall i :: 0 < i < |s| ==> !Above(s[i], s[i - 1])
  }

  /** Every row is strictly above the next one. */
  predicate StrictlyDescending(s: seq<Scored>)
  {
    forall i :: 0 < i < |s| ==> Above(s[i - 1], s[i])
  }

  predicate NoDuplicates<T(==)>(s: seq<T>)
  {
    forall i, j :: 0 <= i < j < |s| ==> s[i] != s[j]
  }

  /** Puts `x` into a non-increasing list at the place that keeps it non-increasing. */
  function Insert(x: Scored, s: seq<Scored>): (r: seq<Scored>)
    requires Descending(s)
    ensures Descending(r)
    ensures multiset(r) == multiset(s) + multiset{x}
    ensures s != [] ==> r[0] == x || r[0] == s[0]
  {
    if s == [] || !Above(s[0], x) then [x] + s
    else
      AboveAsymmetric(s[0], x);
      assert s == [s[0]] + s[1..];
      [s[0]] + Insert(x, s[1..])
  }

  /** `sorted(s, reverse=True)`: the same rows, non-increasing. */
  function SortDescending(s: seq<Scored>): (r: seq<Scored>)
    ensures Descending(r)
    ensures multiset(r) == multiset(s)
  {
    if s == [] then []
    else
      assert s == [s[0]] + s[1..];
      Insert(s[0], SortDescending(s[1..]))
  }

  /** A list has no repeated row exactly when no row occurs twice in its multiset. */
  lemma {:induction false} NoDuplicatesCounts<T>(s: seq<T>)
    ensures NoDuplicates(s) <==> forall x :: multiset(s)[x] <= 1
  {
    if s != [] {
      var h, t := s[0], s[1..];
      assert s == [h] + t;
      NoDuplicatesCounts(t);
      if NoDuplicates(s) {
        assert NoDuplicates(t) by {
          forall i, j | 0 <= i < j < |t| ensures t[i] != t[j] {
            assert s[i + 1] != s[j + 1];
          }
        }
      }
      if forall x :: multiset(s)[x] <= 1 {
        assert multiset(s) == multiset{h} + multiset(t);
        assert multiset(s)[h] <= 1;
        assert multiset(t)[h] == 0;
        assert forall x :: multiset(t)[x] <= multiset(s)[x];
        assert NoDuplicates(s);
      }
    }
  }

  /** A non-increasing list without repeated rows is strictly decreasing. */
  lemma DescendingDistinct(s: seq<Scored>)
    requires Descending(s) && NoDuplicates(s)
    ensures StrictlyDescending(s)
  {
    forall i | 0 < i < |s| ensures Above(s[i - 1], s[i]) {
      AboveTotal(s[i - 1], s[i]);
    }
  }

  /** In a strictly decreasing list the first row is above every later one. */
  lemma {:induction false} HeadAboveRest(s: seq<Scored>, k: nat)
    requires StrictlyDescending(s) && 0 < k < |s|
    ensures Above(s[0], s[k])
  {
    if k > 1 {
      HeadAboveRest(s, k - 1);
      AboveTransitive(s[0], s[k - 1], s[k]);
    }
  }

  /**
   * The ranking is determined by its rows alone: two strictly decreasing lists holding the
   * same rows are the same list, whatever order the rows were collected in.
   */
  lemma {:induction false} StrictlyDescendingUnique(a: seq<Scored>, b: seq<Scored>)
    requires StrictlyDescending(a) && StrictlyDescending(b)
    requires forall x :: x in a <==> x in b
    ensures a == b
  {
    SameMembersEmpty(a, b);
    if a != [] {
      assert a[0] in a;
      var m :| 0 <= m < |b| && b[m] == a[0];
      assert b[0] in b;
      var k :| 0 <= k < |a| && a[k] == b[0];
      if k > 0 {
        HeadAboveRest(a, k);
        if m > 0 {
          HeadAboveRest(b, m);
          AboveAsymmetric(b[0], b[m]);
        }
      }
      assert a[0] == b[0];
      forall x ensures x in a[1..] <==> x in b[1..] {
        if x in a[1..] {
          TailMember(a, b, x);
        }
        if x in b[1..] {
          TailMember(b, a, x);
        }
      }
      StrictlyDescendingUnique(a[1..], b[1..]);
      assert a == [a[0]] + a[1..];
      assert b == [b[0]] + b[1..];
    }
  }

  /** A row after the head of one list is, in the other list with the same rows and head, after its head too. */
  lemma TailMember(a: seq<Scored>, b: seq<Scored>, x: Scored)
    requires StrictlyDescending(a) && a != [] && b != [] && a[0] == b[0]
    requires forall y :: y in a <==> y in b
    requires x in a[1..]
    ensures x in b[1..]
  {
    var i :| 0 <= i < |a[1..]| && a[1..][i] == x;
    HeadAboveRest(a, i + 1);
    AboveIrreflexive(a[0]);
    assert x in b;
    var j :| 0 <= j < |b| && b[j] == x;
    assert j != 0;
    assert b[1..][j - 1] == x;
  }

  /** Two lists with the same members are empty together. */
  lemma SameMembersEmpty(a: seq<Scored>, b: seq<Scored>)
    requires forall x :: x in a <==> x in b
    ensures a == [] <==> b == []
  {
    if a != [] {
      assert a[0] in b;
    }
    if b != [] {
      assert b[0] in a;
    }
  }
}
