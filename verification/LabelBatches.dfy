/**
  Fetching open items page by page and handing them on in work batches. The pages are
  those the service answers with, one for each request, the last one without a successor.
*/
module LabelBatches {
  import opened Collections

  const WORK_BATCH_SIZE := 500

  datatype LabelItem = LabelItem(number: int, title: string, body: string, labels: seq<string>)

  datatype Page = Page(nodes: seq<LabelItem>, totalCount: Option<int>, hasNextPage: bool)

  datatype Batch = Batch(index: nat, items: seq<LabelItem>, fetchedCount: nat)

  /** No limit, or at most this many items. */
  type Limit = Option<int>

  predicate Reached(limit: Limit, count: int)
  {
    limit.Some? && count >= limit.value
  }

  /** The items of all pages up to the first one without a successor. */
  function Items(pages: seq<Page>): seq<LabelItem>
  {
    if pages == [] then []
    else if !pages[0].hasNextPage then pages[0].nodes
    else pages[0].nodes + Items(pages[1..])
  }

  function Take(items: seq<LabelItem>, limit: Limit): seq<LabelItem>
  {
    if limit.None? || limit.value >= |items| then items
    else if limit.value <= 0 then [] else items[..limit.value]
  }

  function ItemsOf(batches: seq<Batch>): seq<LabelItem>
  {
    if batches == [] then [] else ItemsOf(batches[..|batches| - 1]) + batches[|batches| - 1].items
  }

  /** Full batches with consecutive indices, each knowing how many items came up to its end. */
  predicate FullBatches(batches: seq<Batch>)
  {
    forall i :: 0 <= i < |batches| ==>
      && |batches[i].items| == 500
      && batches[i].index == i + 1
      && batches[i].fetchedCount == (i + 1) * 500
  }

  /** What may be yielded: only the last batch can be short, and none is empty. */
  predicate WorkBatches(batches: seq<Batch>)
  {
    batches != [] ==>
    var n := |batches| - 1;
    && FullBatches(batches[..n])
    && 1 <= |batches[n].items| <= 500
    && batches[n].index == n + 1
    && batches[n].fetchedCount == n * 500 + |batches[n].items|
  }

  lemma {:induction false} ItemsOfFull(batches: seq<Batch>)
    requires FullBatches(batches)
    ensures |ItemsOf(batches)| == |batches| * WORK_BATCH_SIZE
  {
    if batches != [] {
      ItemsOfFull(batches[..|batches| - 1]);
    }
  }

  /** How many of so many items are in the first k batches. */
  function UpTo(k: nat, total: nat): (end: nat)
    ensures end <= total
  {
    if k * WORK_BATCH_SIZE < total then k * WORK_BATCH_SIZE else total
  }

  /** These items in work batches: the k-th one holds the k-th stretch of them. */
  function InBatches(items: seq<LabelItem>): (batches: seq<Batch>)
    ensures |batches| == (|items| + WORK_BATCH_SIZE - 1) / WORK_BATCH_SIZE
  {
    seq((|items| + WORK_BATCH_SIZE - 1) / WORK_BATCH_SIZE, k requires k >= 0 => BatchAt(items, k))
  }

  lemma {:induction false} FullSlices(batches: seq<Batch>, k: nat)
    requires FullBatches(batches) && k < |batches|
    ensures |ItemsOf(batches)| == |batches| * WORK_BATCH_SIZE
    ensures batches[k].items == ItemsOf(batches)[k * WORK_BATCH_SIZE..(k + 1) * WORK_BATCH_SIZE]
  {
    var n := |batches| - 1;
    ItemsOfFull(batches);
    ItemsOfFull(batches[..n]);
    if k < n {
      FullSlices(batches[..n], k);
    }
  }

  /** Work batches are determined by the items in them. */
  lemma WorkBatchesAreUnique(batches: seq<Batch>)
    requires WorkBatches(batches)
    ensures batches == InBatches(ItemsOf(batches))
  {
    var items := ItemsOf(batches);
    if batches != [] {
      ItemsOfFull(batches[..|batches| - 1]);
      forall k | 0 <= k < |batches| ensures batches[k] == BatchAt(items, k) {
        if k < |batches| - 1 {
          FullBatchAt(batches, k);
        } else {
          LastBatchAt(batches);
        }
      }
    }
  }

  function BatchAt(items: seq<LabelItem>, k: nat): Batch
  {
    var (start, end) := (UpTo(k, |items|), UpTo(k + 1, |items|));
    Batch(k + 1, items[start..end], end)
  }

  lemma {:induction false} FullBatchAt(batches: seq<Batch>, k: nat)
    requires WorkBatches(batches) && k < |batches| - 1
    ensures batches[k] == BatchAt(ItemsOf(batches), k)
  {
    var front := batches[..|batches| - 1];
    ItemsOfFull(front);
    FullSlices(front, k);
    assert front[k] == batches[k];
    assert ItemsOf(batches) == ItemsOf(front) + batches[|front|].items;
    var start, end := k * WORK_BATCH_SIZE, (k + 1) * WORK_BATCH_SIZE;
    assert ItemsOf(batches)[start..end] == ItemsOf(front)[start..end];
  }

  lemma {:induction false} LastBatchAt(batches: seq<Batch>)
    requires WorkBatches(batches) && batches != []
    ensures batches[|batches| - 1] == BatchAt(ItemsOf(batches), |batches| - 1)
  {
    var last, front := batches[|batches| - 1], batches[..|batches| - 1];
    ItemsOfFull(front);
    assert ItemsOf(batches) == ItemsOf(front) + last.items;
    assert ItemsOf(batches)[|ItemsOf(front)|..] == last.items;
  }

  /** Items so far handed on in full batches or waiting in the current one. */
  ghost predicate Batching(batches: seq<Batch>, results: seq<LabelItem>, seen: seq<LabelItem>,
                           fetchedCount: nat, batchIndex: nat)
  {
    && FullBatches(batches)
    && |results| < WORK_BATCH_SIZE
    && ItemsOf(batches) + results == seen
    && fetchedCount == |seen|
    && batchIndex == |batches| + 1
  }

  lemma BatchingAdds(batches: seq<Batch>, results: seq<LabelItem>, seen: seq<LabelItem>,
                     fetchedCount: nat, batchIndex: nat, node: LabelItem)
    requires Batching(batches, results, seen, fetchedCount, batchIndex)
    ensures |results| + 1 < WORK_BATCH_SIZE ==>
              Batching(batches, results + [node], seen + [node], fetchedCount + 1, batchIndex)
    ensures |results| + 1 == WORK_BATCH_SIZE ==>
              Batching(batches + [Batch(batchIndex, results + [node], fetchedCount + 1)], [], seen + [node],
                       fetchedCount + 1, batchIndex + 1)
  {
    ItemsOfFull(batches);
    assert ItemsOf(batches) + (results + [node]) == seen + [node];
    var longer := batches + [Batch(batchIndex, results + [node], fetchedCount + 1)];
    assert longer[..|longer| - 1] == batches;
    assert ItemsOf(longer) + [] == ItemsOf(longer);
  }

  lemma BatchingEnds(batches: seq<Batch>, results: seq<LabelItem>, seen: seq<LabelItem>,
                     fetchedCount: nat, batchIndex: nat)
    requires Batching(batches, results, seen, fetchedCount, batchIndex)
    ensures results == [] ==> WorkBatches(batches) && ItemsOf(batches) == seen
    ensures results != [] ==> var all := batches + [Batch(batchIndex, results, fetchedCount)];
      WorkBatches(all) && ItemsOf(all) == seen
  {
    ItemsOfFull(batches);
    var all := batches + [Batch(batchIndex, results, fetchedCount)];
    assert all[..|all| - 1] == batches;
    if batches != [] {
      var n := |batches| - 1;
      assert forall i :: 0 <= i < n ==> batches[..n][i] == batches[i];
    }
  }

  // ----- the total count a batch carries -----

  /** The total count last heard of after so many pages. */
  function Known(pages: seq<Page>, n: nat): int
    requires n <= |pages|
  {
    if n == 0 then 0
    else if pages[n - 1].totalCount.Some? then pages[n - 1].totalCount.value
    else Known(pages, n - 1)
  }

  /** How many items so many pages hold. */
  function Held(pages: seq<Page>, n: nat): nat
    requires n <= |pages|
  {
    if n == 0 then 0 else Held(pages, n - 1) + |pages[n - 1].nodes|
  }

  /** The total count known when so many items had come, at the page of the last of them. */
  function KnownAt(pages: seq<Page>, n: nat, count: int): int
    requires n <= |pages|
  {
    if n == 0 then 0
    else if Held(pages, n - 1) < count then Known(pages, n)
    else KnownAt(pages, n - 1, count)
  }

  lemma {:induction false} HeldGrows(pages: seq<Page>, m: nat, n: nat)
    requires m <= n <= |pages|
    ensures Held(pages, m) <= Held(pages, n)
  {
    if m < n {
      HeldGrows(pages, m, n - 1);
    }
  }

  /** The page before which fewer items had come, and with which so many: its total or the latest one before it. */
  lemma {:induction false} KnownAtMeaning(pages: seq<Page>, n: nat, count: nat, page: nat, told: nat)
    requires told <= page < n <= |pages|
    requires Held(pages, page) < count <= Held(pages, page + 1)
    requires pages[told].totalCount.Some? && forall k :: told < k <= page ==> pages[k].totalCount.None?
    ensures KnownAt(pages, n, count) == pages[told].totalCount.value
  {
    if page + 1 < n {
      HeldGrows(pages, page + 1, n - 1);
      KnownAtMeaning(pages, n - 1, count, page, told);
    } else {
      KnownMeaning(pages, n, told);
    }
  }

  /** The total known is the one told last. */
  lemma {:induction false} KnownMeaning(pages: seq<Page>, n: nat, told: nat)
    requires told < n <= |pages|
    requires pages[told].totalCount.Some? && forall k :: told < k < n ==> pages[k].totalCount.None?
    ensures Known(pages, n) == pages[told].totalCount.value
  {
    if told < n - 1 {
      KnownMeaning(pages, n - 1, told);
    }
  }

  /** No further page is asked for after so many. */
  predicate StopsAfter(pages: seq<Page>, limit: Limit, n: nat)
    requires n <= |pages|
  {
    Reached(limit, Held(pages, n)) || (n > 0 && !pages[n - 1].hasNextPage)
  }

  /** The pages asked for are the first so many. */
  ghost predicate Asked(pages: seq<Page>, limit: Limit, n: nat)
  {
    n <= |pages| && StopsAfter(pages, limit, n) && forall k :: 0 <= k < n ==> !StopsAfter(pages, limit, k)
  }

  /** A full batch carries the total known at its last item, a short one the total known at the end. */
  ghost predicate TotalsAreKnown(pages: seq<Page>, batches: seq<Batch>, totals: seq<int>, asked: nat)
    requires asked <= |pages|
  {
    && |totals| == |batches|
    && forall k :: 0 <= k < |batches| ==>
         totals[k] == if |batches[k].items| == WORK_BATCH_SIZE then KnownAt(pages, asked, batches[k].fetchedCount)
                      else Known(pages, asked)
  }

  /** What one page adds: full batches that carry its total and end within it. */
  ghost predicate Extends(batches0: seq<Batch>, totals0: seq<int>, fetched0: nat, size: nat, total: int,
                          batches: seq<Batch>, totals: seq<int>, fetchedCount: nat)
  {
    && |totals| == |batches| && batches0 <= batches && totals0 <= totals
    && fetched0 <= fetchedCount <= fetched0 + size
    && forall k :: |batches0| <= k < |batches| ==>
         totals[k] == total && fetched0 < batches[k].fetchedCount <= fetched0 + size
  }

  /** At the limit, the items taken so far are the first ones of all. */
  lemma {:induction false} TakenAtLimit(seen: seq<LabelItem>, nodes: seq<LabelItem>, i: nat, limit: Limit)
    requires i <= |nodes| && limit == Some(|seen| + i)
    ensures seen + nodes[..i] == Take(seen + nodes, limit)
  {
    assert seen + nodes[..i] == (seen + nodes)[..limit.value];
  }

  /** One item, which may fill a batch. */
  method AddItem(node: LabelItem, totalCount: int, batches0: seq<Batch>, totals0: seq<int>, results0: seq<LabelItem>,
                 ghost seen: seq<LabelItem>, fetched0: nat, index0: nat)
      returns (batches: seq<Batch>, totals: seq<int>, results: seq<LabelItem>, fetchedCount: nat, batchIndex: nat)
    requires Batching(batches0, results0, seen, fetched0, index0) && |totals0| == |batches0|
    ensures Batching(batches, results, seen + [node], fetchedCount, batchIndex) && fetchedCount == fetched0 + 1
    ensures (batches, totals) == (batches0, totals0) ||
            exists batch: Batch :: batch.fetchedCount == fetchedCount &&
              (batches, totals) == (batches0 + [batch], totals0 + [totalCount])
  {
    BatchingAdds(batches0, results0, seen, fetched0, index0, node);
    batches, totals, batchIndex := batches0, totals0, index0;
    results := results0 + [node];
    fetchedCount := fetched0 + 1;
    if |results| >= WORK_BATCH_SIZE {
      var batch := Batch(batchIndex, results, fetchedCount);
      batches, totals := batches + [batch], totals + [totalCount];
      results := [];
      batchIndex := batchIndex + 1;
    }
  }

  /** One page's items, until the limit is reached. */
  method AddPage(nodes: seq<LabelItem>, totalCount: int, limit: Limit, batches0: seq<Batch>, totals0: seq<int>,
                 results0: seq<LabelItem>, ghost seen: seq<LabelItem>, fetched0: nat, index0: nat)
      returns (batches: seq<Batch>, totals: seq<int>, results: seq<LabelItem>, fetchedCount: nat, batchIndex: nat)
    requires Batching(batches0, results0, seen, fetched0, index0) && !Reached(limit, fetched0)
    requires |totals0| == |batches0|
    ensures Batching(batches, results, Take(seen + nodes, limit), fetchedCount, batchIndex)
    ensures Extends(batches0, totals0, fetched0, |nodes|, totalCount, batches, totals, fetchedCount)
  {
    batches, totals, results, fetchedCount, batchIndex := batches0, totals0, results0, fetched0, index0;
    for i := 0 to |nodes|
      invariant Batching(batches, results, seen + nodes[..i], fetchedCount, batchIndex)
      invariant limit.Some? ==> fetchedCount <= limit.value
      invariant Extends(batches0, totals0, fetched0, i, totalCount, batches, totals, fetchedCount)
    {
      if Reached(limit, fetchedCount) {
        TakenAtLimit(seen, nodes, i, limit);
        return;
      }
      assert seen + nodes[..i + 1] == seen + nodes[..i] + [nodes[i]];
      batches, totals, results, fetchedCount, batchIndex :=
        AddItem(nodes[i], totalCount, batches, totals, results, seen + nodes[..i], fetchedCount, batchIndex);
    }
    assert nodes[..|nodes|] == nodes;
  }

  /** Between two pages: what was taken and what is still to come make up the whole. */
  ghost predicate BetweenPages(pages: seq<Page>, page: nat, more: bool, limit: Limit, seen: seq<LabelItem>)
  {
    && (more ==> page < |pages|)
    && (limit.Some? && |seen| > 0 ==> |seen| <= limit.value)
    && Take(seen + (if more then Items(pages[page..]) else []), limit) == Take(Items(pages), limit)
  }

  lemma NextPage(pages: seq<Page>, page: nat, limit: Limit, seen: seq<LabelItem>)
    requires page < |pages| && !pages[|pages| - 1].hasNextPage
    requires BetweenPages(pages, page, true, limit, seen) && !Reached(limit, |seen|)
    ensures BetweenPages(pages, page + 1, pages[page].hasNextPage, limit, Take(seen + pages[page].nodes, limit))
  {
    var nodes, rest := pages[page].nodes, if pages[page].hasNextPage then Items(pages[page + 1..]) else [];
    assert pages[page..][1..] == pages[page + 1..];
    assert Items(pages[page..]) == nodes + rest;
    ConcatenationAssociates(seen, nodes, rest);
    TakeTwice(seen + nodes, rest, limit);
  }

  lemma TakeTwice(items: seq<LabelItem>, rest: seq<LabelItem>, limit: Limit)
    ensures Take(Take(items, limit) + rest, limit) == Take(items + rest, limit)
  {
  }

  lemma LastPage(pages: seq<Page>, page: nat, more: bool, limit: Limit, seen: seq<LabelItem>)
    requires BetweenPages(pages, page, more, limit, seen) && (Reached(limit, |seen|) || !more)
    ensures seen == Take(Items(pages), limit)
  {
  }

  /** Between two pages: how far the service was asked. */
  ghost predicate AskedSoFar(pages: seq<Page>, page: nat, more: bool, limit: Limit, fetchedCount: nat)
  {
    && page <= |pages| && (more <==> page == 0 || pages[page - 1].hasNextPage)
    && (forall k :: 0 <= k < page ==> !StopsAfter(pages, limit, k))
    && fetchedCount <= Held(pages, page)
    && (!Reached(limit, fetchedCount) ==> fetchedCount == Held(pages, page))
  }

  lemma AskedOneMore(pages: seq<Page>, page: nat, limit: Limit, fetched0: nat, fetchedCount: nat)
    requires AskedSoFar(pages, page, true, limit, fetched0) && page < |pages| && !Reached(limit, fetched0)
    requires fetchedCount <= fetched0 + |pages[page].nodes|
    requires !Reached(limit, fetchedCount) ==> fetchedCount == fetched0 + |pages[page].nodes|
    ensures AskedSoFar(pages, page + 1, pages[page].hasNextPage, limit, fetchedCount)
  {
    assert !StopsAfter(pages, limit, page);
  }

  /** Each batch carries the total known when its last item came. */
  ghost predicate TotalsSoFar(pages: seq<Page>, page: nat, batches: seq<Batch>, totals: seq<int>)
    requires page <= |pages|
  {
    && |totals| == |batches|
    && forall k :: 0 <= k < |batches| ==>
         batches[k].fetchedCount <= Held(pages, page) && totals[k] == KnownAt(pages, page, batches[k].fetchedCount)
  }

  lemma TotalsOneMore(pages: seq<Page>, page: nat, batches0: seq<Batch>, totals0: seq<int>, batches: seq<Batch>,
                      totals: seq<int>, fetchedCount: nat)
    requires page < |pages| && TotalsSoFar(pages, page, batches0, totals0)
    requires Extends(batches0, totals0, Held(pages, page), |pages[page].nodes|, Known(pages, page + 1), batches,
                     totals, fetchedCount)
    ensures TotalsSoFar(pages, page + 1, batches, totals)
  {
    forall k | 0 <= k < |batches|
      ensures batches[k].fetchedCount <= Held(pages, page + 1)
      ensures totals[k] == KnownAt(pages, page + 1, batches[k].fetchedCount)
    {
      if k < |batches0| {
        assert batches[k] == batches0[k] && totals[k] == totals0[k];
      }
    }
  }

  /** Where the search for pages stops, the totals carried so far are as they should be. */
  lemma AskedAll(pages: seq<Page>, page: nat, more: bool, limit: Limit, fetchedCount: nat, batches: seq<Batch>,
                 totals: seq<int>, last: Batch)
    requires AskedSoFar(pages, page, more, limit, fetchedCount) && TotalsSoFar(pages, page, batches, totals)
    requires FullBatches(batches) && pages != [] && (Reached(limit, fetchedCount) || !more)
    ensures Asked(pages, limit, page) && TotalsAreKnown(pages, batches, totals, page)
    ensures |last.items| < WORK_BATCH_SIZE ==>
              TotalsAreKnown(pages, batches + [last], totals + [Known(pages, page)], page)
  {
    if Reached(limit, fetchedCount) {
      assert Reached(limit, Held(pages, page));
    }
  }

  /** Between two pages: what is yielded, what waits in the current batch and what was asked for. */
  ghost predicate Fetching(pages: seq<Page>, page: nat, more: bool, limit: Limit, batches: seq<Batch>,
                           totals: seq<int>, results: seq<LabelItem>, fetchedCount: nat, batchIndex: nat,
                           totalCount: int)
  {
    && BetweenPages(pages, page, more, limit, ItemsOf(batches) + results)
    && Batching(batches, results, ItemsOf(batches) + results, fetchedCount, batchIndex)
    && AskedSoFar(pages, page, more, limit, fetchedCount)
    && TotalsSoFar(pages, page, batches, totals) && totalCount == Known(pages, page)
  }

  /** One request and what its page adds. */
  method FetchPage(ghost pages: seq<Page>, ghost page: nat, answer: Page, limit: Limit, batches0: seq<Batch>,
                   totals0: seq<int>, results0: seq<LabelItem>, fetched0: nat, index0: nat, total0: int)
      returns (batches: seq<Batch>, totals: seq<int>, results: seq<LabelItem>, fetchedCount: nat, batchIndex: nat,
               totalCount: int)
    requires page < |pages| && answer == pages[page] && !pages[|pages| - 1].hasNextPage
    requires Fetching(pages, page, true, limit, batches0, totals0, results0, fetched0, index0, total0)
    requires !Reached(limit, fetched0)
    ensures Fetching(pages, page + 1, answer.hasNextPage, limit, batches, totals, results, fetchedCount, batchIndex,
                     totalCount)
  {
    ghost var seen := ItemsOf(batches0) + results0;
    NextPage(pages, page, limit, seen);
    totalCount := if answer.totalCount.Some? then answer.totalCount.value else total0;
    batches, totals, results, fetchedCount, batchIndex :=
      AddPage(answer.nodes, totalCount, limit, batches0, totals0, results0, seen, fetched0, index0);
    assert ItemsOf(batches) + results == Take(seen + answer.nodes, limit);
    AskedOneMore(pages, page, limit, fetched0, fetchedCount);
    TotalsOneMore(pages, page, batches0, totals0, batches, totals, fetchedCount);
  }

  lemma FetchingStarts(pages: seq<Page>, limit: Limit)
    requires pages != []
    ensures Fetching(pages, 0, true, limit, [], [], [], 0, 1, 0)
  {
    assert pages[0..] == pages && ItemsOf([]) == [] && [] + Items(pages) == Items(pages);
  }

  /** What is promised of all that was yielded. */
  ghost predicate Fetched(pages: seq<Page>, limit: Limit, batches: seq<Batch>, totals: seq<int>, asked: nat)
  {
    && batches == InBatches(Take(Items(pages), limit))
    && WorkBatches(batches) && ItemsOf(batches) == Take(Items(pages), limit)
    && Asked(pages, limit, asked) && TotalsAreKnown(pages, batches, totals, asked)
  }

  /** When no page is left to ask for, the waiting items make up the last batch. */
  lemma FetchingEnds(pages: seq<Page>, page: nat, more: bool, limit: Limit, batches: seq<Batch>, totals: seq<int>,
                     results: seq<LabelItem>, fetchedCount: nat, batchIndex: nat, totalCount: int)
    requires Fetching(pages, page, more, limit, batches, totals, results, fetchedCount, batchIndex, totalCount)
    requires pages != [] && (Reached(limit, fetchedCount) || !more)
    ensures results == [] ==> Fetched(pages, limit, batches, totals, page)
    ensures results != [] ==>
              Fetched(pages, limit, batches + [Batch(batchIndex, results, fetchedCount)], totals + [totalCount], page)
  {
    var seen, last := ItemsOf(batches) + results, Batch(batchIndex, results, fetchedCount);
    LastPage(pages, page, more, limit, seen);
    BatchingEnds(batches, results, seen, fetchedCount, batchIndex);
    AskedAll(pages, page, more, limit, fetchedCount, batches, totals, last);
    WorkBatchesAreUnique(if results == [] then batches else batches + [last]);
  }

  /**
    The batches yielded: together the first items up to the limit in page order, in full
    batches but for the last, numbered from one, each with the count of items so far and
    with the total count the service had told by then.
  */
  method FetchOpenLabelItemBatches(pages: seq<Page>, limit: Limit)
      returns (yielded: seq<Batch>, totals: seq<int>, asked: nat)
    requires |pages| > 0 && !pages[|pages| - 1].hasNextPage
    ensures Fetched(pages, limit, yielded, totals, asked)
  {
    yielded, totals, asked := [], [], 0;
    var results: seq<LabelItem> := [];
    var fetchedCount, batchIndex: nat := 0, 1;
    var totalCount := 0;
    var more := true;
    FetchingStarts(pages, limit);
    while more && !Reached(limit, fetchedCount)
      invariant exists page ::
                  && page == asked
                  && Fetching(pages, page, more, limit, yielded, totals, results, fetchedCount, batchIndex, totalCount)
      decreases |pages| - asked
    {
      var answer := pages[asked];
      yielded, totals, results, fetchedCount, batchIndex, totalCount :=
        FetchPage(pages, asked, answer, limit, yielded, totals, results, fetchedCount, batchIndex, totalCount);
      more := answer.hasNextPage;
      asked := asked + 1;
    }
    FetchingEnds(pages, asked, more, limit, yielded, totals, results, fetchedCount, batchIndex, totalCount);
    if |results| > 0 {
      yielded, totals := yielded + [Batch(batchIndex, results, fetchedCount)], totals + [totalCount];
    }
  }
}
