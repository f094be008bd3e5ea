/**
 * The packing loop of `ask` has exactly one outcome: the declarative description
 * `PackedAll` that `Bot.Pack` is proved against fixes every result of the loop, so the
 * prompt `ask` builds is determined by the ranked rows and the budget.
 */
module PackingFacts {
  import opened Ranking
  import opened Bot

  /** The rows before row `i` that are the first to carry their title, in rank order. */
  ghost function FirstRows(samples: seq<Scored>, i: nat): (r: seq<nat>)
    requires i <= |samples|
    ensures forall k :: 0 <= k < |r| ==> r[k] < i
  {
    if i == 0 then []
    else FirstRows(samples, i - 1) + (if samples[i - 1].title !in Titles(samples[..i - 1]) then [i - 1] else [])
  }

  /** The first rows before `i` are a prefix of those before any later row. */
  lemma {:induction false} FirstRowsPrefix(samples: seq<Scored>, i: nat, j: nat)
    requires i <= j <= |samples|
    ensures FirstRows(samples, i) <= FirstRows(samples, j)
  {
    if i < j {
      FirstRowsPrefix(samples, i, j - 1);
    }
  }

  /** Indices all below `i`, in strictly increasing order. */
  ghost predicate IncreasingBelow(picked: seq<nat>, i: nat)
  {
    && (forall k :: 0 <= k < |picked| ==> picked[k] < i)
    && (forall k, l :: 0 <= k < l < |picked| ==> picked[k] < picked[l])
  }

  lemma IncreasingAt(picked: seq<nat>, i: nat, k: nat)
    requires IncreasingBelow(picked, i)
    ensures k < |picked| ==> picked[k] < i
    ensures k + 1 < |picked| ==> picked[k] < picked[k + 1]
  {
  }

  /** The rows a packing accepted before row `i` can only be the first rows of their titles. */
  lemma {:induction false} FirstRowsUnique(samples: seq<Scored>, picked: seq<nat>, i: nat)
    requires i <= |samples| && FirstOfTitle(samples, picked, i) && IncreasingBelow(picked, i)
    ensures picked == FirstRows(samples, i)
    decreases i
  {
    if i == 0 {
      IncreasingAt(picked, i, 0);
    } else {
      var j := i - 1;
      if samples[j].title !in Titles(samples[..j]) {
        var init := DropLastPicked(samples, picked, j);
        FirstRowsUnique(samples, init, j);
      } else {
        KeepPicked(samples, picked, j);
        FirstRowsUnique(samples, picked, j);
      }
    }
  }

  /** When row `j` is not the first of its title, every row accepted before `j + 1` is before `j`. */
  lemma KeepPicked(samples: seq<Scored>, picked: seq<nat>, j: nat)
    requires j < |samples| && FirstOfTitle(samples, picked, j + 1) && IncreasingBelow(picked, j + 1)
    requires samples[j].title in Titles(samples[..j])
    ensures FirstOfTitle(samples, picked, j) && IncreasingBelow(picked, j)
  {
    assert j !in picked;
  }

  /** When row `j` is the first of its title, it is the last row accepted before `j + 1`. */
  lemma DropLastPicked(samples: seq<Scored>, picked: seq<nat>, j: nat) returns (init: seq<nat>)
    requires j < |samples| && FirstOfTitle(samples, picked, j + 1) && IncreasingBelow(picked, j + 1)
    requires samples[j].title !in Titles(samples[..j])
    ensures picked == init + [j]
    ensures FirstOfTitle(samples, init, j) && IncreasingBelow(init, j)
  {
    assert j in picked;
    var k :| 0 <= k < |picked| && picked[k] == j;
    IncreasingAt(picked, j + 1, k);
    init := picked[..k];
    assert picked == init + [j];
    forall m | 0 <= m < j ensures m in init <==> samples[m].title !in Titles(samples[..m]) {
      assert m in picked <==> m in init || m == j;
    }
  }

  /** Summing the sizes of a prefix gives no more than summing the whole. */
  lemma {:induction false} SumSizesPrefix(a: seq<string>, b: seq<string>, size: string -> nat)
    requires a <= b
    ensures SumSizes(a, size) <= SumSizes(b, size)
  {
    if |a| < |b| {
      assert a <= b[..|b| - 1];
      SumSizesPrefix(a, b[..|b| - 1], size);
    } else {
      assert a == b;
    }
  }

  /** When `q` picked the rows `p` picked and then row `s`, it accepted `p`'s bodies and then row `s`'s. */
  lemma PickedOneMore(samples: seq<Scored>, p: Packing, i: nat, q: Packing, j: nat, s: nat)
    requires i <= |samples| && j <= |samples| && s < |samples|
    requires RowsPicked(samples, p, i) && RowsPicked(samples, q, j)
    requires p.picked + [s] <= q.picked
    ensures p.toUse + [samples[s].body] <= q.toUse
  {
    var n := |p.picked|;
    forall k | 0 <= k < n + 1 ensures (p.toUse + [samples[s].body])[k] == q.toUse[k] {
      assert q.picked[k] == (p.picked + [s])[k];
    }
  }

  /**
   * A packing that stopped early at a row stops every packing of the same rows and budget
   * there or before: reaching beyond it would mean accepting that row, which does not fit.
   */
  lemma EarliestStop(samples: seq<Scored>, budget: nat, size: string -> nat, p: Packing, q: Packing)
    requires Packs(samples, budget, size, p) && Packs(samples, budget, size, q)
    requires p.stop < |samples|
    ensures q.stop <= p.stop
  {
    if p.stop < q.stop {
      var s := p.stop;
      var b := samples[s].body;
      FirstRowsUnique(samples, p.picked, s);
      FirstRowsUnique(samples, q.picked, q.stop);
      FirstRowsPrefix(samples, s + 1, q.stop);
      PickedOneMore(samples, p, s, q, q.stop, s);
      SumSizesPrefix(p.toUse + [b], q.toUse, size);
    }
  }

  /** Two packings keeping every promise of the loop for the same rows and budget are equal. */
  lemma PackedAllUnique(samples: seq<Scored>, budget: nat, size: string -> nat, p: Packing, q: Packing)
    requires PackedAll(samples, budget, size, p) && PackedAll(samples, budget, size, q)
    ensures p == q
  {
    SameStop(samples, budget, size, p, q);
    FirstRowsUnique(samples, p.picked, p.stop);
    FirstRowsUnique(samples, q.picked, q.stop);
    SamePicked(samples, budget, size, p, q);
  }

  /** Packings of the same rows and budget stop at the same row. */
  lemma SameStop(samples: seq<Scored>, budget: nat, size: string -> nat, p: Packing, q: Packing)
    requires Packs(samples, budget, size, p) && Packs(samples, budget, size, q)
    ensures p.stop == q.stop
  {
    if p.stop < |samples| {
      EarliestStop(samples, budget, size, p, q);
    }
    if q.stop < |samples| {
      EarliestStop(samples, budget, size, q, p);
    }
  }

  /** Packings that stopped at the same row and accepted the same rows of the same budget are equal. */
  lemma SamePicked(samples: seq<Scored>, budget: nat, size: string -> nat, p: Packing, q: Packing)
    requires p.stop == q.stop <= |samples| && p.picked == q.picked
    requires RowsPicked(samples, p, p.stop) && RowsPicked(samples, q, q.stop)
    requires WithinBudget(budget, size, p.toUse, p.rest) && WithinBudget(budget, size, q.toUse, q.rest)
    ensures p == q
  {
    assert p.toUse == q.toUse;
  }
}
