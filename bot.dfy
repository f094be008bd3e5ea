/**
 * The question-answering half: `ask` checks the question against the token budget, ranks
 * the stored chunks against it, and packs the best chunks of distinct pages into the
 * context of the prompt.
 */
module Bot {
  import opened Results
  import opened Text
  import opened Ranking
  import opened Store

  /** The model's context window, in tokens. */
  const MAX_PROMPT_SIZE: nat := 4096
  /** Tokens kept free for the answer. */
  const RETURN_SIZE: nat := 500
  /** The name the index is loaded from. */
  const INDEX_FILE_S3_KEY: string := "yuseiito-private.pickle"
  /** What separates two packed chunks in the context. */
  const SEPARATOR: string := "\n\n"

  /** `ask` raises "too large input!" when the question alone does not fit. */
  datatype AskError = TooLarge

  /**
   * The prompt template: fixed text around a `{text}` placeholder, where the packed
   * context goes, and an `{input}` placeholder, where the question goes.
   */
  datatype Template = Template(lead: string, middle: string, trail: string)

  /** The template as written, placeholders included; its size is what `PROMPT_SIZE` measures. */
  function Raw(t: Template): string
  {
    t.lead + "{text}" + t.middle + "{input}" + t.trail
  }

  /** `PROMPT.format(input=input, text=text)`. */
  function Format(t: Template, text: string, input: string): string
  {
    t.lead + text + t.middle + input + t.trail
  }

  /** The titles occurring in `s`. */
  function Titles(s: seq<Scored>): set<string>
  {
    set x | x in s :: x.title
  }

  lemma TitlesSnoc(s: seq<Scored>, i: nat)
    requires i < |s|
    ensures Titles(s[..i + 1]) == Titles(s[..i]) + {s[i].title}
  {
    assert s[..i + 1] == s[..i] + [s[i]];
  }

  /** The summed token sizes of `bodies`. */
  function SumSizes(bodies: seq<string>, size: string -> nat): nat
  {
    if bodies == [] then 0 else SumSizes(bodies[..|bodies| - 1], size) + size(bodies[|bodies| - 1])
  }

  /** The packing loop's results, with the rows it accepted and where it stopped. */
  datatype Packing = Packing(toUse: seq<string>, usedTitle: seq<string>, rest: int, picked: seq<nat>, stop: nat)

  /**
   * The accepted rows are rows `picked` of `samples`, all before row `i`, in rank order:
   * `toUse` holds their bodies and `usedTitle` their titles.
   */
  ghost predicate RowsPicked(samples: seq<Scored>, p: Packing, i: nat)
    requires i <= |samples|
  {
    && |p.picked| == |p.toUse| == |p.usedTitle|
    && (forall k :: 0 <= k < |p.picked| ==>
          && p.picked[k] < i
          && p.toUse[k] == samples[p.picked[k]].body
          && p.usedTitle[k] == samples[p.picked[k]].title)
    && (forall k, l :: 0 <= k < l < |p.picked| ==> p.picked[k] < p.picked[l])
  }

  /** A row before row `i` is accepted exactly when no earlier row has its title. */
  ghost predicate FirstOfTitle(samples: seq<Scored>, picked: seq<nat>, i: nat)
    requires i <= |samples|
  {
    forall j :: 0 <= j < i ==> (j in picked <==> samples[j].title !in Titles(samples[..j]))
  }

  /** The used titles are exactly the titles of the rows before row `i`. */
  ghost predicate TitlesSeen(samples: seq<Scored>, usedTitle: seq<string>, i: nat)
    requires i <= |samples|
  {
    forall t :: t in usedTitle <==> t in Titles(samples[..i])
  }

  /** What is left is never negative, and it plus the sizes of the accepted bodies is the budget. */
  ghost predicate WithinBudget(budget: nat, size: string -> nat, toUse: seq<string>, rest: int)
  {
    0 <= rest && rest + SumSizes(toUse, size) == budget
  }

  /**
   * The outcome of the packing loop over the ranked rows `samples` with `budget` tokens:
   * it looked at rows `0..stop` (`stop == |samples|` when it ran out of rows) and accepted
   * rows `picked`, in rank order; a row before `stop` is accepted exactly when no earlier
   * row has its title; when it stopped early, the row at `stop` has a new title and does
   * not fit in what is left; and what is left plus the accepted sizes is the budget.
   */
  ghost predicate Packs(samples: seq<Scored>, budget: nat, size: string -> nat, p: Packing)
  {
    && p.stop <= |samples|
    && RowsPicked(samples, p, p.stop)
    && FirstOfTitle(samples, p.picked, p.stop)
    && (p.stop < |samples| ==>
          samples[p.stop].title !in Titles(samples[..p.stop]) && p.rest < size(samples[p.stop].body))
    && WithinBudget(budget, size, p.toUse, p.rest)
  }

  /** The packing loop after rows `0..i`, without having stopped. */
  ghost predicate PackedPrefix(samples: seq<Scored>, budget: nat, size: string -> nat, p: Packing, i: nat)
  {
    && i <= |samples|
    && RowsPicked(samples, p, i)
    && FirstOfTitle(samples, p.picked, i)
    && TitlesSeen(samples, p.usedTitle, i)
    && WithinBudget(budget, size, p.toUse, p.rest)
  }

  /** A row whose title is already used is skipped, whatever its size. */
  lemma PackSkip(samples: seq<Scored>, budget: nat, size: string -> nat, p: Packing, i: nat)
    requires PackedPrefix(samples, budget, size, p, i) && i < |samples|
    requires samples[i].title in p.usedTitle
    ensures PackedPrefix(samples, budget, size, p, i + 1)
  {
    TitlesSnoc(samples, i);
    assert Titles(samples[..i + 1]) == Titles(samples[..i]);
    SkipFirst(samples, p.picked, i);
  }

  lemma SkipFirst(samples: seq<Scored>, picked: seq<nat>, i: nat)
    requires i < |samples| && FirstOfTitle(samples, picked, i)
    requires forall k :: 0 <= k < |picked| ==> picked[k] < i
    requires samples[i].title in Titles(samples[..i])
    ensures FirstOfTitle(samples, picked, i + 1)
  {
    assert i !in picked;
  }

  /** A row with a new title that fits in what is left is accepted. */
  lemma PackAccept(samples: seq<Scored>, budget: nat, size: string -> nat, p: Packing, i: nat)
    requires PackedPrefix(samples, budget, size, p, i) && i < |samples|
    requires samples[i].title !in p.usedTitle && size(samples[i].body) <= p.rest
    ensures PackedPrefix(samples, budget, size,
                         p.(toUse := p.toUse + [samples[i].body], usedTitle := p.usedTitle + [samples[i].title],
                            rest := p.rest - size(samples[i].body), picked := p.picked + [i]), i + 1)
  {
    var x := samples[i];
    var q := p.(toUse := p.toUse + [x.body], usedTitle := p.usedTitle + [x.title],
                rest := p.rest - size(x.body), picked := p.picked + [i]);
    AcceptRows(samples, p, i);
    AcceptFirst(samples, p.picked, p.usedTitle, i);
    AcceptTitles(samples, p.usedTitle, i);
    assert q.toUse[..|p.toUse|] == p.toUse;
  }

  lemma AcceptRows(samples: seq<Scored>, p: Packing, i: nat)
    requires i < |samples| && RowsPicked(samples, p, i)
    ensures RowsPicked(samples, p.(toUse := p.toUse + [samples[i].body], usedTitle := p.usedTitle + [samples[i].title],
                                   picked := p.picked + [i]), i + 1)
  {
  }

  lemma AcceptFirst(samples: seq<Scored>, picked: seq<nat>, usedTitle: seq<string>, i: nat)
    requires i < |samples| && FirstOfTitle(samples, picked, i) && TitlesSeen(samples, usedTitle, i)
    requires forall k :: 0 <= k < |picked| ==> picked[k] < i
    requires samples[i].title !in usedTitle
    ensures FirstOfTitle(samples, picked + [i], i + 1)
  {
    assert i !in picked;
    forall j | 0 <= j < i + 1 ensures j in picked + [i] <==> samples[j].title !in Titles(samples[..j]) {
      assert j in picked + [i] <==> j in picked || j == i;
    }
  }

  lemma AcceptTitles(samples: seq<Scored>, usedTitle: seq<string>, i: nat)
    requires i < |samples| && TitlesSeen(samples, usedTitle, i)
    ensures TitlesSeen(samples, usedTitle + [samples[i].title], i + 1)
  {
    TitlesSnoc(samples, i);
    forall t ensures t in usedTitle + [samples[i].title] <==> t in Titles(samples[..i + 1]) {
      assert t in usedTitle + [samples[i].title] <==> t in usedTitle || t == samples[i].title;
    }
  }

  /** Some row of `s[..j]` with title `t` has no earlier row with that title. */
  lemma {:induction false} FirstWithTitle(s: seq<Scored>, j: nat, t: string) returns (m: nat)
    requires j <= |s| && t in Titles(s[..j])
    ensures m < j && s[m].title == t && t !in Titles(s[..m])
  {
    var k :| 0 <= k < j && s[k].title == t;
    if t in Titles(s[..k]) {
      assert s[..k] == s[..j][..k];
      m := FirstWithTitle(s, k, t);
    } else {
      m := k;
    }
  }

  /**
   * What packing leaves in `usedTitle`: no title twice, and exactly the titles of the rows
   * before the one it stopped at, each the title of the first row that had it.
   */
  lemma PacksTitles(samples: seq<Scored>, budget: nat, size: string -> nat, p: Packing)
    requires Packs(samples, budget, size, p)
    ensures forall k, l :: 0 <= k < l < |p.usedTitle| ==> p.usedTitle[k] != p.usedTitle[l]
    ensures forall t :: t in p.usedTitle <==> t in Titles(samples[..p.stop])
  {
    forall k, l | 0 <= k < l < |p.usedTitle| ensures p.usedTitle[k] != p.usedTitle[l] {
      var a, b := p.picked[k], p.picked[l];
      assert samples[..b][a] == samples[a];
      assert samples[a].title in Titles(samples[..b]);
    }
    forall t ensures t in p.usedTitle <==> t in Titles(samples[..p.stop]) {
      if t in p.usedTitle {
        var k :| 0 <= k < |p.usedTitle| && p.usedTitle[k] == t;
        assert samples[..p.stop][p.picked[k]] == samples[p.picked[k]];
      }
      if t in Titles(samples[..p.stop]) {
        var m := FirstWithTitle(samples, p.stop, t);
        assert m in p.picked;
        var k :| 0 <= k < |p.picked| && p.picked[k] == m;
        assert p.usedTitle[k] == t;
      }
    }
  }

  /** All the packing loop promises about its results. */
  ghost predicate PackedAll(samples: seq<Scored>, budget: nat, size: string -> nat, p: Packing)
  {
    && Packs(samples, budget, size, p)
    && (forall k, l :: 0 <= k < l < |p.usedTitle| ==> p.usedTitle[k] != p.usedTitle[l])
    && (forall t :: t in p.usedTitle <==> t in Titles(samples[..p.stop]))
  }

  /** What the packing loop's results promise on their own: the budget, one title per body, no title twice. */
  lemma PackedAllFacts(samples: seq<Scored>, budget: nat, size: string -> nat, p: Packing)
    requires PackedAll(samples, budget, size, p)
    ensures WithinBudget(budget, size, p.toUse, p.rest)
    ensures |p.toUse| == |p.usedTitle|
    ensures forall k, l :: 0 <= k < l < |p.usedTitle| ==> p.usedTitle[k] != p.usedTitle[l]
  {
  }

  /** A row with a new title that does not fit ends the loop there. */
  lemma PackStop(samples: seq<Scored>, budget: nat, size: string -> nat, p: Packing, i: nat)
    requires PackedPrefix(samples, budget, size, p, i) && i < |samples|
    requires samples[i].title !in p.usedTitle && p.rest < size(samples[i].body)
    ensures PackedAll(samples, budget, size, p.(stop := i))
  {
    PacksTitles(samples, budget, size, p.(stop := i));
  }

  /** Running out of rows ends the loop after the last one. */
  lemma PackEnd(samples: seq<Scored>, budget: nat, size: string -> nat, p: Packing)
    requires PackedPrefix(samples, budget, size, p, |samples|)
    ensures PackedAll(samples, budget, size, p.(stop := |samples|))
  {
    PacksTitles(samples, budget, size, p.(stop := |samples|));
  }

  /**
   * The packing loop of `ask`: walk the ranked rows, skip a row whose title is already
   * used before looking at its size, stop at the first row that does not fit in what is
   * left of the budget, and otherwise accept the row. A row whose size equals what is
   * left still fits. No two accepted rows share a title.
   */
  method Pack(samples: seq<Scored>, budget: nat, size: string -> nat)
    returns (toUse: seq<string>, usedTitle: seq<string>, rest: int, ghost picked: seq<nat>, ghost stop: nat)
    ensures PackedAll(samples, budget, size, Packing(toUse, usedTitle, rest, picked, stop))
    ensures WithinBudget(budget, size, toUse, rest)
    ensures |toUse| == |usedTitle|
    ensures forall k, l :: 0 <= k < l < |usedTitle| ==> usedTitle[k] != usedTitle[l]
  {
    toUse, usedTitle, rest, picked := [], [], budget, [];
    stop := |samples|;
    ghost var p := Packing(toUse, usedTitle, rest, picked, stop);
    var i := 0;
    while i < |samples|
      invariant p == Packing(toUse, usedTitle, rest, picked, stop) && stop == |samples|
      invariant PackedPrefix(samples, budget, size, p, i)
    {
      var sample := samples[i];
      if sample.title in usedTitle {
        PackSkip(samples, budget, size, p, i);
        i := i + 1;
        continue;
      }
      var bodySize := size(sample.body);
      if rest < bodySize {
        PackStop(samples, budget, size, p, i);
        stop := i;
        p := p.(stop := i);
        break;
      }
      PackAccept(samples, budget, size, p, i);
      p := p.(toUse := p.toUse + [samples[i].body], usedTitle := p.usedTitle + [samples[i].title],
              rest := p.rest - size(samples[i].body), picked := p.picked + [i]);
      toUse := toUse + [sample.body];
      usedTitle := usedTitle + [sample.title];
      picked := picked + [i];
      rest := rest - bodySize;
      i := i + 1;
    }
    if stop == |samples| {
      PackEnd(samples, budget, size, p);
      p := p.(stop := |samples|);
    }
    PackedAllFacts(samples, budget, size, p);
  }

  /**
   * `ask(input)` up to the completion call: the prompt it would send, or TooLarge when the
   * question does not fit beside the template and the answer. The check comes before the
   * index is loaded and before anything is sent to the embedding service. Otherwise the
   * index is loaded (an empty one when there is no saved index), the question is embedded
   * once, every stored chunk is ranked against it, the rows are packed into what is left
   * of the window, and the accepted chunks, joined by blank lines, become the context.
   */
  method Ask(input: string, template: Template, saved: Option<Cache>, embedder: Embedder,
             size: string -> nat, dot: (Embedding, Embedding) -> int)
    returns (r: Result<string, AskError>, ghost ranked: seq<Scored>, ghost packing: Packing)
    modifies embedder
    ensures r.Failure? <==> size(input) > MAX_PROMPT_SIZE - RETURN_SIZE - size(Raw(template))
    ensures r.Failure? ==> r.error == TooLarge && embedder.sent == old(embedder.sent)
    ensures r.Success? ==>
              && embedder.sent == old(embedder.sent) + [input]
              && RanksStore(if saved.Some? then saved.value else map[],
                            embedder.respond(|old(embedder.sent)|, input), dot, ranked)
              && PackedAll(ranked, MAX_PROMPT_SIZE - RETURN_SIZE - size(Raw(template)) - size(input), size, packing)
              && r.value == Format(template, Join(SEPARATOR, packing.toUse), input)
  {
    var promptSize := size(Raw(template));
    var rest := MAX_PROMPT_SIZE - RETURN_SIZE - promptSize;
    var inputSize := size(input);
    if rest < inputSize {
      r, ranked, packing := Failure(TooLarge), [], Packing([], [], 0, [], 0);
      return;
    }
    rest := rest - inputSize;

    var res := VectorStore.Open(INDEX_FILE_S3_KEY, saved, true);
    var vs := res.value;
    var samples := vs.GetSorted(input, embedder, dot);
    var toUse, usedTitle, left;
    ghost var picked, stop;
    toUse, usedTitle, left, picked, stop := Pack(samples, rest, size);
    ranked, packing := samples, Packing(toUse, usedTitle, left, picked, stop);
    r := Success(Format(template, Join(SEPARATOR, toUse), input));
  }
}
