/**
  The greedy batcher of the translation sync: pending items are packed, in order,
  into prompts limited by an item count and by a character budget.
*/
module TranslationBatches {
  import opened Collections

  const MAX_BATCH_ITEMS := 20

  datatype Item = Item(cacheKey: string, key: string, text: string, textHash: string)

  /** The size estimate of a prompt; the batcher asks for single items only. */
  function EstimateBatchChars(items: seq<Item>): int
  {
    if items == [] then 2 else EstimateBatchChars(items[1..]) + |items[0].key| + |items[0].text| + 8
  }

  /** What the batcher has accumulated after adding these items to a fresh batch. */
  function RunningChars(items: seq<Item>): int
  {
    if items == [] then 2
    else RunningChars(items[..|items| - 1]) + EstimateBatchChars([items[|items| - 1]])
  }

  /** A prompt the limits allow: a single item is always allowed, however large. */
  predicate Fits(batch: seq<Item>, budget: int)
  {
    && 1 <= |batch| <= 20
    && (|batch| >= 2 ==> RunningChars(batch) <= budget)
  }

  ghost predicate IsPartition(batches: seq<seq<Item>>, items: seq<Item>, budget: int)
  {
    && Concat(batches) == items
    && forall batch :: batch in batches ==> Fits(batch, budget)
  }

  /** `batch` could not have taken the first item of the batch after it. */
  ghost predicate Closed(batch: seq<Item>, next: seq<Item>, budget: int)
  {
    |next| > 0 && !Fits(batch + [next[0]], budget)
  }

  ghost predicate Saturated(batches: seq<seq<Item>>, budget: int)
  {
    forall i {:trigger batches[i]} :: 0 < i < |batches| ==> Closed(batches[i - 1], batches[i], budget)
  }

  lemma {:induction false} RunningCharsAppend(a: seq<Item>, b: seq<Item>)
    ensures RunningChars(a + b) == RunningChars(a) + RunningChars(b) - 2
    ensures RunningChars(b) >= 2
  {
    if b == [] {
      assert a + b == a;
    } else {
      var last := |b| - 1;
      RunningCharsAppend(a, b[..last]);
      assert (a + b)[..|a + b| - 1] == a + b[..last];
      assert EstimateBatchChars([b[last]]) >= 8;
    }
  }

  /**
    The counter charges every item its key, its text and ten characters more. It is
    therefore two characters an item above the estimate of the whole prompt, so a
    batch the counter accepts is within the budget by that estimate too.
  */
  lemma {:induction false} RunningCharsMeaning(items: seq<Item>)
    ensures items != [] ==>
      RunningChars(items) == RunningChars(items[1..]) + (|items[0].key| + |items[0].text| + 10)
    ensures RunningChars(items) == EstimateBatchChars(items) + 2 * |items|
  {
    if items != [] {
      assert items == [items[0]] + items[1..];
      RunningCharsAppend([items[0]], items[1..]);
      assert EstimateBatchChars([items[0]]) == EstimateBatchChars([]) + |items[0].key| + |items[0].text| + 8;
      assert RunningChars([items[0]]) == RunningChars([]) + EstimateBatchChars([items[0]]);
      RunningCharsMeaning(items[1..]);
    }
  }

  /** Every non-empty window of an allowed prompt is an allowed prompt. */
  lemma FitsIsHereditary(a: seq<Item>, b: seq<Item>, c: seq<Item>, budget: int)
    requires Fits(a + b + c, budget) && |b| > 0
    ensures Fits(b, budget)
  {
    RunningCharsAppend(a, b);
    RunningCharsAppend(a + b, c);
    RunningCharsAppend([], a);
  }

  /**
    The greedy batches stay ahead of any other partition: with `ahead` items of the
    other partition already packed, the rest needs no more greedy batches than the
    other partition has left.
  */
  lemma {:induction false} GreedyStaysAhead(
      greedy: seq<seq<Item>>, other: seq<seq<Item>>, ahead: seq<Item>, budget: int)
    requires Concat(other) == ahead + Concat(greedy)
    requires forall batch :: batch in greedy ==> Fits(batch, budget)
    requires forall batch :: batch in other ==> Fits(batch, budget)
    requires Saturated(greedy, budget)
    ensures |greedy| <= |other|
    decreases |other|
  {
    if greedy != [] {
      assert greedy[0] in greedy;
      var first, rest := other[0], other[1..];
      if |first| <= |ahead| {
        SplitConcat(first, Concat(rest), ahead, Concat(greedy));
        GreedyStaysAhead(greedy, rest, ahead[|first|..], budget);
      } else {
        SplitConcat(ahead, Concat(greedy), first, Concat(rest));
        var taken := first[|ahead|..];
        assert first == ahead + taken;
        TakesNoMore(greedy, ahead, taken, Concat(rest), budget);
        SplitConcat(taken, Concat(rest), greedy[0], Concat(greedy[1..]));
        GreedyStaysAhead(greedy[1..], rest, greedy[0][|taken|..], budget);
      }
    }
  }

  lemma SplitConcat(a: seq<Item>, b: seq<Item>, c: seq<Item>, d: seq<Item>)
    requires a + b == c + d && |a| <= |c|
    ensures c == a + c[|a|..] && b == c[|a|..] + d
  {
    assert a == (a + b)[..|a|] == c[..|a|];
    assert b == (a + b)[|a|..] == c[|a|..] + d;
  }

  /** An allowed prompt that starts where a saturated batch starts ends no later. */
  lemma TakesNoMore(greedy: seq<seq<Item>>, ahead: seq<Item>, taken: seq<Item>, after: seq<Item>, budget: int)
    requires greedy != [] && Saturated(greedy, budget)
    requires taken + after == Concat(greedy)
    requires Fits(ahead + taken, budget)
    ensures |taken| <= |greedy[0]| && taken == greedy[0][..|taken|]
  {
    var g := greedy[0];
    var whole := Concat(greedy);
    assert whole == g + Concat(greedy[1..]);
    assert taken == whole[..|taken|];
    if |taken| > |g| {
      assert |greedy| > 1 && Closed(g, greedy[1], budget);
      var longer := g + [greedy[1][0]];
      var tail := taken[|longer|..];
      assert taken == longer + tail;
      assert ahead + taken == ahead + longer + tail;
      FitsIsHereditary(ahead, longer, tail, budget);
    }
  }

  lemma GreedyIsOptimal(greedy: seq<seq<Item>>, items: seq<Item>, budget: int)
    requires IsPartition(greedy, items, budget) && Saturated(greedy, budget)
    ensures forall other :: IsPartition(other, items, budget) ==> |greedy| <= |other|
  {
    forall other | IsPartition(other, items, budget)
      ensures |greedy| <= |other|
    {
      assert Concat(other) == [] + Concat(greedy);
      GreedyStaysAhead(greedy, other, [], budget);
    }
  }

  /** Only one way of cutting the items into allowed prompts leaves no room for the next item. */
  lemma {:induction false} GreedyIsUnique(a: seq<seq<Item>>, b: seq<seq<Item>>, items: seq<Item>, budget: int)
    requires IsPartition(a, items, budget) && Saturated(a, budget)
    requires IsPartition(b, items, budget) && Saturated(b, budget)
    ensures a == b
  {
    assert a != [] ==> a[0] in a;
    assert b != [] ==> b[0] in b;
    if a != [] && b != [] {
      assert [] + a[0] == a[0] && [] + b[0] == b[0];
      TakesNoMore(a, [], b[0], Concat(b[1..]), budget);
      TakesNoMore(b, [], a[0], Concat(a[1..]), budget);
      assert a[0] == b[0];
      SplitConcat(a[0], Concat(a[1..]), b[0], Concat(b[1..]));
      GreedyIsUnique(a[1..], b[1..], Concat(a[1..]), budget);
    }
  }

  /** The loop's state: closed batches and the one being filled hold the items seen. */
  ghost predicate Packing(batches: seq<seq<Item>>, current: seq<Item>, seen: seq<Item>, budget: int)
  {
    && IsPartition(batches + [current], seen, budget)
    && Saturated(batches + [current], budget)
  }

  lemma PackingExtends(batches: seq<seq<Item>>, current: seq<Item>, seen: seq<Item>, item: Item, budget: int)
    requires Packing(batches, current, seen, budget)
    requires Fits(current + [item], budget)
    ensures Packing(batches, current + [item], seen + [item], budget)
  {
    ConcatSnoc(batches, current);
    ConcatSnoc(batches, current + [item]);
    var before, after := batches + [current], batches + [current + [item]];
    assert current in before;
    forall batch | batch in after ensures Fits(batch, budget) {
      assert batch in before || batch == current + [item];
    }
    forall i {:trigger after[i]} | 0 < i < |after| ensures Closed(after[i - 1], after[i], budget) {
      assert Closed(before[i - 1], before[i], budget);
    }
  }

  lemma PackingCloses(batches: seq<seq<Item>>, current: seq<Item>, seen: seq<Item>, item: Item, budget: int)
    requires Packing(batches, current, seen, budget)
    requires !Fits(current + [item], budget)
    ensures Packing(batches + [current], [item], seen + [item], budget)
  {
    ConcatSnoc(batches + [current], [item]);
  }

  /** The loop's state at any point, the start included. */
  ghost predicate PackState(batches: seq<seq<Item>>, current: seq<Item>, seen: seq<Item>, budget: int)
  {
    if seen == [] then batches == [] && current == [] else Packing(batches, current, seen, budget)
  }

  /** The next item goes to the current batch exactly if the counter says it still fits. */
  lemma {:induction false} PackStep(
      batches: seq<seq<Item>>, current: seq<Item>, seen: seq<Item>, item: Item, budget: int)
    requires PackState(batches, current, seen, budget)
    ensures var overflow := |current| > 0 && RunningChars(current) + EstimateBatchChars([item]) > budget;
      if overflow || |current| >= MAX_BATCH_ITEMS then PackState(batches + [current], [item], seen + [item], budget)
      else PackState(batches, current + [item], seen + [item], budget)
    ensures RunningChars(current + [item]) == RunningChars(current) + EstimateBatchChars([item])
    ensures RunningChars([item]) == 2 + EstimateBatchChars([item])
  {
    assert (current + [item])[..|current|] == current;
    assert [item][..0] == [];
    if seen != [] {
      assert current in batches + [current];
      if Fits(current + [item], budget) {
        PackingExtends(batches, current, seen, item, budget);
      } else {
        PackingCloses(batches, current, seen, item, budget);
      }
    }
  }

  lemma PackEnd(batches: seq<seq<Item>>, current: seq<Item>, seen: seq<Item>, budget: int)
    requires PackState(batches, current, seen, budget)
    ensures var all := if |current| > 0 then batches + [current] else batches;
      IsPartition(all, seen, budget) && Saturated(all, budget)
  {
    if seen != [] {
      assert current in batches + [current];
    }
  }

  /** The greedy loop. */
  method Pack(items: seq<Item>, budget: int) returns (batches: seq<seq<Item>>)
    ensures IsPartition(batches, items, budget) && Saturated(batches, budget)
  {
    batches := [];
    var current: seq<Item> := [];
    var currentChars := 2;
    for i := 0 to |items|
      invariant PackState(batches, current, items[..i], budget)
      invariant currentChars == RunningChars(current)
    {
      var item := items[i];
      var itemChars := EstimateBatchChars([item]);
      var wouldOverflow := |current| > 0 && currentChars + itemChars > budget;
      var reachedMaxItems := |current| >= MAX_BATCH_ITEMS;
      PackStep(batches, current, items[..i], item, budget);
      assert items[..i + 1] == items[..i] + [item];
      if wouldOverflow || reachedMaxItems {
        batches := batches + [current];
        current := [];
        currentChars := 2;
      }
      assert current == [] ==> current + [item] == [item];
      current := current + [item];
      currentChars := currentChars + itemChars;
    }
    assert items[..|items|] == items;
    PackEnd(batches, current, items, budget);
    if |current| > 0 {
      batches := batches + [current];
    }
  }

  /**
    The batcher. Its result keeps every item in order and within the limits, and no
    other way of cutting the items into allowed prompts needs fewer prompts.
  */
  method BuildTranslationBatches(items: seq<Item>, budget: int) returns (batches: seq<seq<Item>>)
    ensures IsPartition(batches, items, budget)
    ensures Saturated(batches, budget)
    ensures forall other :: IsPartition(other, items, budget) ==> |batches| <= |other|
  {
    batches := Pack(items, budget);
    GreedyIsOptimal(batches, items, budget);
  }
}
