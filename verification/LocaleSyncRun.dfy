/** The sync of one locale as the script runs it, loop by loop, proved to do what LocaleSync specifies. */
module LocaleSyncRun {
  import opened Collections
  import opened Ordering
  import opened TranslationTree
  import opened TranslationObject
  import opened TranslationMemory
  import opened TranslationBatches
  import opened BatchTranslator
  import opened LocaleSync

  // ----- resolving the known keys -----

  /** The text of a key that needs no provider. */
  function KnownText(env: Env, inputs: Inputs, allowTranslate: bool, entry: (string, string)): Option<string>
  {
    match ChoiceOf(env, inputs, allowTranslate, entry)
    case FromMemory(text) => Some(text)
    case FromText(found) => Some(found.translated)
    case Kept(text) => Some(text)
    case Pending => None
  }

  function PendingEntries(env: Env, inputs: Inputs, allowTranslate: bool, source: Flat): Flat
  {
    if source == [] then []
    else
      var rest, last := PendingEntries(env, inputs, allowTranslate, source[..|source| - 1]), source[|source| - 1];
      if ChoiceOf(env, inputs, allowTranslate, last).Pending? then rest + [last] else rest
  }

  lemma {:induction false} PendingEntriesMembers(env: Env, inputs: Inputs, allowTranslate: bool, source: Flat)
    ensures forall entry :: entry in PendingEntries(env, inputs, allowTranslate, source) <==>
              entry in source && ChoiceOf(env, inputs, allowTranslate, entry).Pending?
    ensures DistinctKeys(source) ==> DistinctKeys(PendingEntries(env, inputs, allowTranslate, source))
  {
    if source != [] {
      var front, last := source[..|source| - 1], source[|source| - 1];
      assert source == front + [last];
      PendingEntriesMembers(env, inputs, allowTranslate, front);
      var rest := PendingEntries(env, inputs, allowTranslate, front);
      assert forall i :: 0 <= i < |rest| ==> rest[i] in rest;
    }
  }

  function ItemsOf(env: Env, entries: Flat): (items: seq<Item>)
    ensures |items| == |entries|
  {
    seq(|entries|, i requires 0 <= i < |entries| => ItemOf(env, entries[i]))
  }

  function KnownTexts(env: Env, inputs: Inputs, allowTranslate: bool, source: Flat): map<string, string>
  {
    if source == [] then map[]
    else
      var rest, last := KnownTexts(env, inputs, allowTranslate, source[..|source| - 1]), source[|source| - 1];
      match KnownText(env, inputs, allowTranslate, last)
      case Some(text) => rest[last.0 := text]
      case None => rest
  }

  /** The key keeps the fallback mark it had. */
  predicate KeepsMark(env: Env, inputs: Inputs, allowTranslate: bool, entry: (string, string))
  {
    var choice := ChoiceOf(env, inputs, allowTranslate, entry);
    (choice.FromMemory? || choice.Kept?) && entry.0 in inputs.previous
  }

  function Marked(env: Env, inputs: Inputs, allowTranslate: bool, source: Flat): seq<string>
  {
    if source == [] then []
    else
      var rest, last := Marked(env, inputs, allowTranslate, source[..|source| - 1]), source[|source| - 1];
      if KeepsMark(env, inputs, allowTranslate, last) then rest + [last.0] else rest
  }

  /** What one more source entry adds. */
  lemma NextKnown(env: Env, inputs: Inputs, allowTranslate: bool, source: Flat, i: nat)
    requires i < |source|
    ensures var (entry, before, after) := (source[i], source[..i], source[..i + 1]);
      var known := KnownText(env, inputs, allowTranslate, entry);
      && KnownTexts(env, inputs, allowTranslate, after) ==
         (if known.Some? then KnownTexts(env, inputs, allowTranslate, before)[entry.0 := known.value]
          else KnownTexts(env, inputs, allowTranslate, before))
      && PendingEntries(env, inputs, allowTranslate, after) ==
         PendingEntries(env, inputs, allowTranslate, before) + (if known.None? then [entry] else [])
      && Marked(env, inputs, allowTranslate, after) ==
         Marked(env, inputs, allowTranslate, before)
         + (if KeepsMark(env, inputs, allowTranslate, entry) then [entry.0] else [])
  {
    assert source[..i + 1][..i] == source[..i];
  }

  lemma NextCopy(env: Env, inputs: Inputs, allowTranslate: bool, source: Flat, i: nat)
    requires i < |source|
    ensures var choice := ChoiceOf(env, inputs, allowTranslate, source[i]);
      var before := CopyAll(env, inputs, allowTranslate, source[..i]);
      CopyAll(env, inputs, allowTranslate, source[..i + 1]) ==
      if choice.FromText? then TranslationMemory.Set(before, CopiedEntry(env, choice.entry, source[i])) else before
  {
    assert source[..i + 1][..i] == source[..i];
  }

  /** The first loop over the source: the texts at hand, the memory with its copies, and what is left to do. */
  method ResolveKnown(env: Env, inputs: Inputs, allowTranslate: bool, source: Flat)
      returns (known: map<string, string>, memory: Memory, pending: seq<Item>, fallback: seq<string>)
    requires ValidEnv(env) && DistinctKeys(source)
    ensures known == KnownTexts(env, inputs, allowTranslate, source)
    ensures memory == CopyAll(env, inputs, allowTranslate, source)
    ensures pending == ItemsOf(env, PendingEntries(env, inputs, allowTranslate, source))
    ensures fallback == Marked(env, inputs, allowTranslate, source)
  {
    known, memory, pending, fallback := map[], inputs.memory, [], [];
    for i := 0 to |source|
      invariant known == KnownTexts(env, inputs, allowTranslate, source[..i])
      invariant memory == CopyAll(env, inputs, allowTranslate, source[..i])
      invariant pending == ItemsOf(env, PendingEntries(env, inputs, allowTranslate, source[..i]))
      invariant fallback == Marked(env, inputs, allowTranslate, source[..i])
    {
      var (key, text) := source[i];
      NextKnown(env, inputs, allowTranslate, source, i);
      NextCopy(env, inputs, allowTranslate, source, i);
      UncopiedKey(env, inputs, allowTranslate, source, i);
      var textHash := env.hashText(text);
      var segmentCacheKey := env.cacheKey(key, textHash);
      var cached := Get(memory, segmentCacheKey);
      var shouldRefreshFallback := key in inputs.previous;
      if cached.Some? && !(allowTranslate && shouldRefreshFallback) {
        known := known[key := cached.value.translated];
        if shouldRefreshFallback {
          fallback := fallback + [key];
        }
        continue;
      }
      if textHash in inputs.byText && (shouldRefreshFallback || key !in inputs.existing) {
        var found := inputs.byText[textHash];
        known := known[key := found.translated];
        memory := TranslationMemory.Set(
          memory, found.(cacheKey := segmentCacheKey, segmentId := key, sourcePath := env.sourcePath));
        continue;
      }
      if key in inputs.existing && !(allowTranslate && shouldRefreshFallback) {
        known := known[key := inputs.existing[key]];
        if shouldRefreshFallback {
          fallback := fallback + [key];
        }
        continue;
      }
      pending := pending + [Item(segmentCacheKey, key, text, textHash)];
    }
    assert source[..|source|] == source;
  }

  /** Copies made for earlier keys do not touch the cache key of a later one. */
  lemma UncopiedKey(env: Env, inputs: Inputs, allowTranslate: bool, source: Flat, i: nat)
    requires ValidEnv(env) && DistinctKeys(source) && i < |source|
    ensures var cacheKey := SegmentKey(env, source[i]);
      Get(CopyAll(env, inputs, allowTranslate, source[..i]), cacheKey) == Get(inputs.memory, cacheKey)
  {
    GetCopied(env, inputs, Mode(allowTranslate, false, map[], ""), source[..i], source[i]);
    assert source[i] !in source[..i];
  }

  // ----- asking the provider -----

  /** The memory after storing the translations of these items, in order. */
  function StoreItems(env: Env, now: string, translated: map<string, string>, start: Memory, items: seq<Item>): Memory
    requires Keys(items) <= translated.Keys
  {
    if items == [] then start
    else
      var front, last := items[..|items| - 1], items[|items| - 1];
      assert last in items && Keys(front) <= Keys(items);
      var stored := StoredEntry(env, last, translated[last.key], now);
      TranslationMemory.Set(StoreItems(env, now, translated, start, front), stored)
  }

  lemma {:induction false} StoreItemsAgree(
      env: Env, now: string, t1: map<string, string>, t2: map<string, string>, start: Memory, items: seq<Item>)
    requires Keys(items) <= t1.Keys && Keys(items) <= t2.Keys
    requires forall key :: key in Keys(items) ==> t1[key] == t2[key]
    ensures StoreItems(env, now, t1, start, items) == StoreItems(env, now, t2, start, items)
  {
    if items != [] {
      assert items[|items| - 1] in items && Keys(items[..|items| - 1]) <= Keys(items);
      StoreItemsAgree(env, now, t1, t2, start, items[..|items| - 1]);
    }
  }

  lemma {:induction false} StoreItemsAppend(
      env: Env, now: string, translated: map<string, string>, start: Memory, a: seq<Item>, b: seq<Item>)
    requires Keys(a + b) <= translated.Keys && Keys(a) <= translated.Keys && Keys(b) <= translated.Keys
    ensures StoreItems(env, now, translated, start, a + b) ==
            StoreItems(env, now, translated, StoreItems(env, now, translated, start, a), b)
  {
    if b == [] {
      assert a + b == a;
    } else {
      var front := b[..|b| - 1];
      assert (a + b)[..|a + b| - 1] == a + front;
      KeysAppend(a, front);
      assert Keys(front) <= Keys(b);
      StoreItemsAppend(env, now, translated, start, a, front);
    }
  }

  /** One more batch, for other keys, extends what is stored. */
  lemma {:induction false} StoreNextBatch(
      env: Env, now: string, translated: map<string, string>, more: map<string, string>,
      start: Memory, a: seq<Item>, b: seq<Item>)
    requires Covers(translated, a) && Covers(more, b) && Keys(a) !! Keys(b)
    ensures Covers(translated + more, a + b)
    ensures StoreItems(env, now, translated + more, start, a + b) ==
            StoreItems(env, now, more, StoreItems(env, now, translated, start, a), b)
  {
    KeysAppend(a, b);
    StoreItemsAppend(env, now, translated + more, start, a, b);
    StoreItemsAgree(env, now, translated + more, translated, start, a);
    StoreItemsAgree(env, now, translated + more, more, StoreItems(env, now, translated, start, a), b);
  }

  predicate DistinctItems(items: seq<Item>)
  {
    forall i, j :: 0 <= i < j < |items| ==> items[i].key != items[j].key
  }

  lemma DistinctParts(a: seq<Item>, b: seq<Item>, c: seq<Item>)
    requires DistinctItems(a + b + c)
    ensures Keys(a) !! Keys(b)
  {
    var all := a + b + c;
    assert forall i :: 0 <= i < |a| ==> all[i] == a[i];
    assert forall j :: 0 <= j < |b| ==> all[|a| + j] == b[j];
  }

  function AddTexts(known: map<string, string>, translated: map<string, string>, items: seq<Item>): map<string, string>
    requires Keys(items) <= translated.Keys
  {
    if items == [] then known
    else
      var front, last := items[..|items| - 1], items[|items| - 1];
      assert last in items && Keys(front) <= Keys(items);
      AddTexts(known, translated, front)[last.key := translated[last.key]]
  }

  lemma {:induction false} AddTextsIsUnion(
      known: map<string, string>, translated: map<string, string>, items: seq<Item>)
    requires Keys(items) <= translated.Keys
    ensures var all := AddTexts(known, translated, items);
      && all.Keys == known.Keys + Keys(items)
      && forall key :: key in all ==> all[key] == if key in Keys(items) then translated[key] else known[key]
  {
    if items != [] {
      var front, last := items[..|items| - 1], items[|items| - 1];
      KeysAppend(front, [last]);
      assert items == front + [last] && Keys([last]) == {last.key};
      AddTextsIsUnion(known, translated, front);
    }
  }

  /** The effect of storing these items. */
  ghost predicate StoredItems(env: Env, now: string, translated: map<string, string>, items: seq<Item>,
                              known0: map<string, string>, memory0: Memory, known: map<string, string>, memory: Memory)
  {
    && Keys(items) <= translated.Keys
    && known == AddTexts(known0, translated, items)
    && memory == StoreItems(env, now, translated, memory0, items)
  }

  lemma StoredItemsSnoc(env: Env, now: string, translated: map<string, string>, items: seq<Item>, item: Item,
                        known0: map<string, string>, memory0: Memory, known: map<string, string>, memory: Memory)
    requires StoredItems(env, now, translated, items, known0, memory0, known, memory) && item.key in translated
    ensures StoredItems(env, now, translated, items + [item], known0, memory0,
                        known[item.key := translated[item.key]],
                        TranslationMemory.Set(memory, StoredEntry(env, item, translated[item.key], now)))
  {
    var longer := items + [item];
    assert longer[..|longer| - 1] == items;
    KeysAppend(items, [item]);
  }

  /** The items the provider gave a text for. */
  function Given(translated: map<string, string>, items: seq<Item>): (given: seq<Item>)
    ensures Keys(given) <= translated.Keys
  {
    if items == [] then []
    else
      var front, last := Given(translated, items[..|items| - 1]), items[|items| - 1];
      if last.key in translated && translated[last.key] != "" then
        KeysAppend(front, [last]);
        front + [last]
      else front
  }

  lemma {:induction false} AllGiven(translated: map<string, string>, items: seq<Item>)
    requires forall item :: item in items ==> item.key in translated && translated[item.key] != ""
    ensures Given(translated, items) == items
  {
    if items != [] {
      AllGiven(translated, items[..|items| - 1]);
      SplitLast(items);
    }
  }

  /** One batch's answers: an item without a text is passed over. */
  method StoreBatch(env: Env, now: string, translated: map<string, string>, batch: seq<Item>,
                    known0: map<string, string>, memory0: Memory)
      returns (known: map<string, string>, memory: Memory)
    ensures known == AddTexts(known0, translated, Given(translated, batch))
    ensures memory == StoreItems(env, now, translated, memory0, Given(translated, batch))
  {
    known, memory := known0, memory0;
    for i := 0 to |batch|
      invariant StoredItems(env, now, translated, Given(translated, batch[..i]), known0, memory0, known, memory)
    {
      var item := batch[i];
      assert batch[..i + 1][..i] == batch[..i];
      if item.key !in translated || translated[item.key] == "" {
        continue;
      }
      StoredItemsSnoc(env, now, translated, Given(translated, batch[..i]), item, known0, memory0, known, memory);
      known := known[item.key := translated[item.key]];
      memory := TranslationMemory.Set(memory, StoredEntry(env, item, translated[item.key], now));
    }
    assert batch[..|batch|] == batch;
  }

  /** The sync's state after the items of some batches have been translated. */
  ghost predicate Stored(env: Env, now: string, known0: map<string, string>, memory0: Memory, items: seq<Item>,
                         translated: map<string, string>, known: map<string, string>, memory: Memory)
  {
    && Covers(translated, items)
    && known == known0 + translated
    && memory == StoreItems(env, now, translated, memory0, items)
  }

  lemma {:induction false} BatchesSplit(batches: seq<seq<Item>>, k: nat)
    requires k < |batches| && DistinctItems(Concat(batches))
    ensures Concat(batches[..k + 1]) == Concat(batches[..k]) + batches[k]
    ensures Keys(Concat(batches[..k])) !! Keys(batches[k])
  {
    ConcatNext(batches, k);
    ConcatParts(batches, k + 1);
    DistinctParts(Concat(batches[..k]), batches[k], Concat(batches[k + 1..]));
  }

  lemma {:induction false} StoredNext(
      env: Env, now: string, known0: map<string, string>, memory0: Memory, a: seq<Item>, b: seq<Item>,
      translated: map<string, string>, known: map<string, string>, memory: Memory, more: map<string, string>)
    requires Stored(env, now, known0, memory0, a, translated, known, memory)
    requires Covers(more, b) && Keys(a) !! Keys(b)
    ensures Stored(env, now, known0, memory0, a + b, translated + more, known + more,
                   StoreItems(env, now, more, memory, b))
  {
    StoreNextBatch(env, now, translated, more, memory0, a, b);
    MapUnionAssociative(known0, translated, more);
  }

  /** One more batch answered and stored. */
  lemma {:induction false} BatchDone(
      env: Env, now: string, known0: map<string, string>, memory0: Memory, batches: seq<seq<Item>>, k: nat,
      translated: map<string, string>, known: map<string, string>, memory: Memory, more: map<string, string>)
    requires k < |batches| && DistinctItems(Concat(batches))
    requires Stored(env, now, known0, memory0, Concat(batches[..k]), translated, known, memory)
    requires Covers(more, batches[k])
    ensures Stored(env, now, known0, memory0, Concat(batches[..k + 1]), translated + more, known + more,
                   StoreItems(env, now, more, memory, batches[k]))
  {
    BatchesSplit(batches, k);
    StoredNext(env, now, known0, memory0, Concat(batches[..k]), batches[k], translated, known, memory, more);
  }

  lemma EveryAnswerStored(values: map<string, string>, batch: seq<Item>, known: map<string, string>)
    requires Covers(values, batch)
    ensures Given(values, batch) == batch && AddTexts(known, values, batch) == known + values
  {
    AllGiven(values, batch);
    AddTextsIsUnion(known, values, batch);
    SameMaps(AddTexts(known, values, batch), known + values);
  }

  lemma SameMaps(a: map<string, string>, b: map<string, string>)
    requires a.Keys == b.Keys && forall key :: key in a ==> a[key] == b[key]
    ensures a == b
  {
  }

  /** One batch asked for and, if it succeeds, stored. */
  method AnswerBatch(env: Env, now: string, provider: Provider, batch: seq<Item>, asked: nat,
                     known0: map<string, string>, memory0: Memory)
      returns (answer: Result, prompts: nat, known: map<string, string>, memory: Memory)
    ensures answer == Translate(provider, batch, asked, 0).result
    ensures prompts == |Translate(provider, batch, asked, 0).windows|
    ensures answer.Translated? ==>
              && Covers(answer.values, batch)
              && known == known0 + answer.values
              && memory == StoreItems(env, now, answer.values, memory0, batch)
  {
    var windows, depth;
    answer, windows, depth := TranslateBatch(provider, batch, asked);
    prompts := |windows|;
    known, memory := known0, memory0;
    if answer.Translated? {
      SuccessCovers(provider, batch, asked, 0);
      known, memory := StoreBatch(env, now, answer.values, batch, known0, memory0);
      EveryAnswerStored(answer.values, batch, known0);
    }
  }

  /** The batches, one after the other; the first one that throws ends the sync. */
  method TranslatePending(env: Env, now: string, provider: Provider, budget: int, pending: seq<Item>,
                          known0: map<string, string>, memory0: Memory)
      returns (result: Result, known: map<string, string>, memory: Memory, batches: seq<seq<Item>>)
    requires DistinctItems(pending)
    ensures IsPartition(batches, pending, budget) && Saturated(batches, budget)
    ensures result == TranslateAll(provider, batches)
    ensures result.Translated? ==> Stored(env, now, known0, memory0, pending, result.values, known, memory)
  {
    batches := BuildTranslationBatches(pending, budget);
    var translated: map<string, string> := map[];
    known, memory := known0, memory0;
    var asked: nat := 0;
    for k := 0 to |batches|
      invariant Stored(env, now, known0, memory0, Concat(batches[..k]), translated, known, memory)
      invariant TranslateFirst(provider, batches, k) == Progress(Translated(translated), asked)
    {
      ghost var knownBefore, memoryBefore := known, memory;
      var answer, prompts;
      answer, prompts, known, memory := AnswerBatch(env, now, provider, batches[k], asked, known, memory);
      if answer.Threw? {
        ThrowIsFinal(provider, batches, k + 1, |batches|);
        return answer, known, memory, batches;
      }
      BatchDone(env, now, known0, memory0, batches, k, translated, knownBefore, memoryBefore, answer.values);
      translated := translated + answer.values;
      asked := asked + prompts;
    }
    assert batches[..|batches|] == batches;
    result := Translated(translated);
  }

  // ----- the keys nobody translated -----

  lemma {:induction false} KnownTextsHold(
      env: Env, inputs: Inputs, allowTranslate: bool, source: Flat, entry: (string, string))
    requires AloneIn(source, entry)
    ensures entry.0 in KnownTexts(env, inputs, allowTranslate, source) <==>
            entry in source && KnownText(env, inputs, allowTranslate, entry).Some?
    ensures entry.0 in KnownTexts(env, inputs, allowTranslate, source) ==>
            KnownText(env, inputs, allowTranslate, entry) ==
            Some(KnownTexts(env, inputs, allowTranslate, source)[entry.0])
  {
    if source != [] {
      var front, last := source[..|source| - 1], source[|source| - 1];
      assert source == front + [last];
      KnownTextsHold(env, inputs, allowTranslate, front, entry);
    }
  }

  predicate Holds(known: map<string, string>, key: string, text: string)
  {
    key in known && known[key] == text
  }

  predicate RestFallsBack(env: Env, inputs: Inputs, mode: Mode, entry: (string, string))
  {
    IsPending(env, inputs, mode, entry) && FallsBack(env, inputs, mode, entry)
  }

  function RestMarked(env: Env, inputs: Inputs, mode: Mode, pending: Flat): seq<string>
  {
    if pending == [] then []
    else
      var rest, last := RestMarked(env, inputs, mode, pending[..|pending| - 1]), pending[|pending| - 1];
      if RestFallsBack(env, inputs, mode, last) then rest + [last.0] else rest
  }

  /** The pending entry holds the provider's text if there is one, and nothing otherwise. */
  predicate Untouched(mode: Mode, known: map<string, string>, entry: (string, string))
  {
    if entry.0 in mode.translated then Holds(known, entry.0, mode.translated[entry.0]) else entry.0 !in known
  }

  /** One item the provider left out: the existing text unless forced, else the English one. */
  method FillItem(env: Env, inputs: Inputs, mode: Mode, ghost entry: (string, string), item: Item,
                  known0: map<string, string>)
      returns (known: map<string, string>, marked: bool)
    requires item == ItemOf(env, entry) && IsPending(env, inputs, mode, entry)
    requires Untouched(mode, known0, entry)
    ensures known == known0[entry.0 := TextFor(env, inputs, mode, entry)]
    ensures marked <==> RestFallsBack(env, inputs, mode, entry)
  {
    if item.key in known0 {
      assert known0[item.key := known0[item.key]] == known0;
      return known0, false;
    }
    if item.key in inputs.existing && !mode.force {
      return known0[item.key := inputs.existing[item.key]], item.key in inputs.previous;
    }
    return known0[item.key := item.text], true;
  }

  /** All those texts set, in order. */
  function FillAll(env: Env, inputs: Inputs, mode: Mode, known: map<string, string>, entries: Flat): map<string, string>
  {
    if entries == [] then known
    else
      var last := entries[|entries| - 1];
      FillAll(env, inputs, mode, known, entries[..|entries| - 1])[last.0 := TextFor(env, inputs, mode, last)]
  }

  lemma {:induction false} FillAllHolds(
      env: Env, inputs: Inputs, mode: Mode, known: map<string, string>, entries: Flat, entry: (string, string))
    requires AloneIn(entries, entry)
    ensures var all := FillAll(env, inputs, mode, known, entries);
      if entry in entries then Holds(all, entry.0, TextFor(env, inputs, mode, entry))
      else (entry.0 in all <==> entry.0 in known) && (entry.0 in known ==> all[entry.0] == known[entry.0])
  {
    if entries != [] {
      var front, last := entries[..|entries| - 1], entries[|entries| - 1];
      assert entries == front + [last];
      FillAllHolds(env, inputs, mode, known, front, entry);
    }
  }

  /** Every entry is pending, and none has a text yet but those the provider gave. */
  ghost predicate Unfilled(env: Env, inputs: Inputs, mode: Mode, entries: Flat, known: map<string, string>)
  {
    && DistinctKeys(entries)
    && forall entry :: entry in entries ==> IsPending(env, inputs, mode, entry) && Untouched(mode, known, entry)
  }

  lemma NextUnfilled(env: Env, inputs: Inputs, mode: Mode, entries: Flat, known: map<string, string>, i: nat)
    requires Unfilled(env, inputs, mode, entries, known) && i < |entries|
    ensures IsPending(env, inputs, mode, entries[i])
    ensures Untouched(mode, FillAll(env, inputs, mode, known, entries[..i]), entries[i])
    ensures FillAll(env, inputs, mode, known, entries[..i + 1]) ==
            FillAll(env, inputs, mode, known, entries[..i])[entries[i].0 := TextFor(env, inputs, mode, entries[i])]
    ensures RestMarked(env, inputs, mode, entries[..i + 1]) ==
            RestMarked(env, inputs, mode, entries[..i])
            + if RestFallsBack(env, inputs, mode, entries[i]) then [entries[i].0] else []
  {
    assert entries[..i + 1][..i] == entries[..i];
    assert entries[i] in entries && entries[i] !in entries[..i];
    FillAllHolds(env, inputs, mode, known, entries[..i], entries[i]);
  }

  /** The loop over what is still missing after the provider. */
  method FillRest(env: Env, inputs: Inputs, mode: Mode, ghost entries: Flat, pending: seq<Item>,
                  known0: map<string, string>, fallback0: seq<string>)
      returns (known: map<string, string>, fallback: seq<string>)
    requires Unfilled(env, inputs, mode, entries, known0) && pending == ItemsOf(env, entries)
    ensures known == FillAll(env, inputs, mode, known0, entries)
    ensures fallback == fallback0 + RestMarked(env, inputs, mode, entries)
  {
    known, fallback := known0, fallback0;
    for i := 0 to |pending|
      invariant known == FillAll(env, inputs, mode, known0, entries[..i])
      invariant fallback == fallback0 + RestMarked(env, inputs, mode, entries[..i])
    {
      NextUnfilled(env, inputs, mode, entries, known0, i);
      var marked;
      known, marked := FillItem(env, inputs, mode, entries[i], pending[i], known);
      if marked {
        fallback := fallback + [pending[i].key];
      }
    }
    assert entries[..|entries|] == entries;
  }

  // ----- the fallback list -----

  lemma {:induction false} MarkedMembers(env: Env, inputs: Inputs, mode: Mode, source: Flat)
    requires DistinctKeys(source)
    ensures DistinctBy(Marked(env, inputs, mode.allowTranslate, source), Same)
    ensures forall key :: key in Marked(env, inputs, mode.allowTranslate, source) <==>
              exists entry :: entry in source && entry.0 == key && KeepsMark(env, inputs, mode.allowTranslate, entry)
  {
    if source != [] {
      var front, last := source[..|source| - 1], source[|source| - 1];
      assert source == front + [last];
      MarkedMembers(env, inputs, mode, front);
      var keys := Marked(env, inputs, mode.allowTranslate, front);
      forall i | 0 <= i < |keys| ensures keys[i] != last.0 {
        assert keys[i] in keys;
        var entry :| entry in front && entry.0 == keys[i];
      }
    }
  }

  lemma {:induction false} RestMarkedMembers(env: Env, inputs: Inputs, mode: Mode, pending: Flat)
    requires DistinctKeys(pending)
    ensures DistinctBy(RestMarked(env, inputs, mode, pending), Same)
    ensures forall key :: key in RestMarked(env, inputs, mode, pending) <==>
              exists entry :: entry in pending && entry.0 == key && RestFallsBack(env, inputs, mode, entry)
  {
    if pending != [] {
      var front, last := pending[..|pending| - 1], pending[|pending| - 1];
      assert pending == front + [last];
      RestMarkedMembers(env, inputs, mode, front);
      var keys := RestMarked(env, inputs, mode, front);
      forall i | 0 <= i < |keys| ensures keys[i] != last.0 {
        assert keys[i] in keys;
        var entry :| entry in front && entry.0 == keys[i];
      }
    }
  }

  /** Both parts of the script's fallback list together sort to the specified one. */
  lemma FallbackListsAgree(env: Env, inputs: Inputs, mode: Mode, source: Flat)
    requires ValidEnv(env) && DistinctKeys(source)
    ensures var pending := PendingEntries(env, inputs, mode.allowTranslate, source);
      Sort(Marked(env, inputs, mode.allowTranslate, source) + RestMarked(env, inputs, mode, pending), Same, env.before)
      == Sort(FallbackKeys(env, inputs, mode, source), Same, env.before)
  {
    var pending := PendingEntries(env, inputs, mode.allowTranslate, source);
    var marked, rest := Marked(env, inputs, mode.allowTranslate, source), RestMarked(env, inputs, mode, pending);
    var keys := FallbackKeys(env, inputs, mode, source);
    PendingEntriesMembers(env, inputs, mode.allowTranslate, source);
    MarkedMembers(env, inputs, mode, source);
    RestMarkedMembers(env, inputs, mode, pending);
    FallbackKeysMembers(env, inputs, mode, source);
    forall key ensures key in marked + rest <==> key in keys {
      FallbackKeyIsMarked(env, inputs, mode, source, key);
    }
    forall i, j | 0 <= i < |marked| && 0 <= j < |rest| ensures marked[i] != rest[j] {
      assert marked[i] in marked && rest[j] in rest;
      var e :| e in source && e.0 == marked[i] && KeepsMark(env, inputs, mode.allowTranslate, e);
      var f :| f in pending && f.0 == rest[j] && RestFallsBack(env, inputs, mode, f);
    }
    SortIsCanonical(marked + rest, keys, Same, env.before);
  }

  lemma FallbackKeyIsMarked(env: Env, inputs: Inputs, mode: Mode, source: Flat, key: string)
    requires DistinctKeys(source)
    ensures key in FallbackKeys(env, inputs, mode, source) <==>
            || key in Marked(env, inputs, mode.allowTranslate, source)
            || key in RestMarked(env, inputs, mode, PendingEntries(env, inputs, mode.allowTranslate, source))
  {
    var pending := PendingEntries(env, inputs, mode.allowTranslate, source);
    PendingEntriesMembers(env, inputs, mode.allowTranslate, source);
    MarkedMembers(env, inputs, mode, source);
    RestMarkedMembers(env, inputs, mode, pending);
    FallbackKeysMembers(env, inputs, mode, source);
    forall entry | entry in source
      ensures FallsBack(env, inputs, mode, entry) <==>
              KeepsMark(env, inputs, mode.allowTranslate, entry) || RestFallsBack(env, inputs, mode, entry)
    {
    }
  }

  // ----- the whole run -----

  lemma {:induction false} StoreAllByItem(
      env: Env, inputs: Inputs, mode: Mode, start: Memory, source: Flat)
    requires forall entry :: entry in source && IsPending(env, inputs, mode, entry) ==> entry.0 in mode.translated
    ensures var items := ItemsOf(env, PendingEntries(env, inputs, mode.allowTranslate, source));
      && Keys(items) <= mode.translated.Keys
      && StoreItems(env, mode.now, mode.translated, start, items) == StoreAll(env, inputs, mode, start, source)
  {
    var items := ItemsOf(env, PendingEntries(env, inputs, mode.allowTranslate, source));
    if source == [] {
      assert items == [];
    } else {
      var front, last := source[..|source| - 1], source[|source| - 1];
      assert source == front + [last];
      StoreAllByItem(env, inputs, mode, start, front);
      var before := ItemsOf(env, PendingEntries(env, inputs, mode.allowTranslate, front));
      if IsPending(env, inputs, mode, last) {
        assert items == before + [ItemOf(env, last)];
        KeysAppend(before, [ItemOf(env, last)]);
        assert items[..|items| - 1] == before;
      } else {
        assert items == before;
      }
    }
  }

  lemma {:induction false} NothingStored(env: Env, inputs: Inputs, mode: Mode, start: Memory, source: Flat)
    requires mode.translated == map[]
    ensures StoreAll(env, inputs, mode, start, source) == start
  {
    if source != [] {
      NothingStored(env, inputs, mode, start, source[..|source| - 1]);
    }
  }

  lemma KeysOfItems(env: Env, entries: Flat, key: string)
    ensures key in Keys(ItemsOf(env, entries)) <==> exists entry :: entry in entries && entry.0 == key
  {
    var items := ItemsOf(env, entries);
    forall i | 0 <= i < |entries| ensures items[i] in items && entries[i] in entries && items[i].key == entries[i].0 {
    }
  }

  /** What the provider's part of the run leaves behind. */
  ghost predicate Provided(env: Env, inputs: Inputs, mode: Mode, source: Flat, known: map<string, string>,
                           memory: Memory)
  {
    && Complete(env, mode, source, inputs)
    && (forall key :: key in mode.translated ==>
          exists entry :: entry in source && entry.0 == key && IsPending(env, inputs, mode, entry))
    && known == KnownTexts(env, inputs, mode.allowTranslate, source) + mode.translated
    && memory == NextMemory(env, inputs, mode, source)
  }

  lemma ProvidedByBatches(env: Env, inputs: Inputs, mode: Mode, source: Flat, known: map<string, string>,
                          memory: Memory)
    requires DistinctKeys(source) && mode.allowTranslate
    requires Stored(env, mode.now, KnownTexts(env, inputs, true, source), CopyAll(env, inputs, true, source),
                    ItemsOf(env, PendingEntries(env, inputs, true, source)), mode.translated, known, memory)
    ensures Provided(env, inputs, mode, source, known, memory)
  {
    var entries := PendingEntries(env, inputs, true, source);
    PendingEntriesMembers(env, inputs, true, source);
    forall key ensures key in mode.translated <==> exists entry :: entry in entries && entry.0 == key {
      KeysOfItems(env, entries, key);
    }
    StoreAllByItem(env, inputs, mode, CopyAll(env, inputs, true, source), source);
  }

  lemma ProvidedByNobody(env: Env, inputs: Inputs, mode: Mode, source: Flat)
    requires mode.translated == map[]
    requires mode.allowTranslate ==> PendingEntries(env, inputs, true, source) == []
    ensures Provided(env, inputs, mode, source, KnownTexts(env, inputs, mode.allowTranslate, source),
                     CopyAll(env, inputs, mode.allowTranslate, source))
  {
    NothingStored(env, inputs, mode, CopyAll(env, inputs, mode.allowTranslate, source), source);
    PendingEntriesMembers(env, inputs, mode.allowTranslate, source);
  }

  lemma ProvidedIsUntouched(env: Env, inputs: Inputs, mode: Mode, source: Flat, known: map<string, string>,
                            memory: Memory, entry: (string, string))
    requires DistinctKeys(source) && Provided(env, inputs, mode, source, known, memory) && entry in source
    ensures if IsPending(env, inputs, mode, entry) then Untouched(mode, known, entry)
            else Holds(known, entry.0, TextFor(env, inputs, mode, entry))
  {
    KnownTextsHold(env, inputs, mode.allowTranslate, source, entry);
  }

  lemma AllTextsHold(env: Env, inputs: Inputs, mode: Mode, source: Flat, known: map<string, string>, memory: Memory,
                     entry: (string, string))
    requires DistinctKeys(source) && Provided(env, inputs, mode, source, known, memory) && entry in source
    ensures var all := FillAll(env, inputs, mode, known, PendingEntries(env, inputs, mode.allowTranslate, source));
      Holds(all, entry.0, TextFor(env, inputs, mode, entry))
  {
    var entries := PendingEntries(env, inputs, mode.allowTranslate, source);
    PendingEntriesMembers(env, inputs, mode.allowTranslate, source);
    ProvidedIsUntouched(env, inputs, mode, source, known, memory, entry);
    FillAllHolds(env, inputs, mode, known, entries, entry);
  }

  /** The placeholder check and the rebuilding of the nested locale, over the source in order. */
  method Rebuild(env: Env, source: Flat, texts: map<string, string>, ghost expected: Flat)
      returns (locale: Option<seq<Prop>>)
    requires |expected| == |source|
    requires forall i :: 0 <= i < |source| ==>
               expected[i].0 == source[i].0 && Holds(texts, source[i].0, expected[i].1)
    ensures locale == if exists i :: 0 <= i < |source| && !env.parity(source[i].1, expected[i].1)
                      then None else Some(Build(expected))
  {
    for i := 0 to |source|
      invariant forall j :: 0 <= j < i ==> env.parity(source[j].1, expected[j].1)
    {
      if !env.parity(source[i].1, texts[source[i].0]) {
        return None;
      }
    }
    var root := new TranslationMap();
    for i := 0 to |source|
      invariant root.Valid() && fresh(root.Repr)
      invariant root.Contents() == Build(expected[..i])
    {
      assert expected[..i + 1][..i] == expected[..i];
      root.SetNestedValue(source[i].0, texts[source[i].0]);
    }
    assert expected[..|source|] == expected;
    locale := Some(root.Contents());
  }

  /** What the provider is asked for: the pending keys in order, if there is a provider. */
  function Wanted(env: Env, inputs: Inputs, allowTranslate: bool, source: Flat): seq<Item>
  {
    if allowTranslate then ItemsOf(env, PendingEntries(env, inputs, true, source)) else []
  }

  /**
    One sync. The provider is asked for the pending keys in the greedy batches. The sync
    fails exactly if one of them does, with its error; otherwise the texts the provider
    gave make the run complete, and the files are those the specification expects.
  */
  method SyncLocale(env: Env, allowTranslate: bool, force: bool, now: string, provider: Provider, budget: int,
                    source: Flat, files: Files)
      returns (result: Result, written: Option<Files>, batches: seq<seq<Item>>)
    requires ValidEnv(env) && DistinctKeys(source)
    ensures IsPartition(batches, Wanted(env, ReadInputs(env, files), allowTranslate, source), budget)
    ensures Saturated(batches, budget)
    ensures result == TranslateAll(provider, batches)
    ensures result.Translated? ==>
              var mode := Mode(allowTranslate, force, result.values, now);
              && Complete(env, mode, source, ReadInputs(env, files))
              && written == Sync(env, mode, source, files)
    ensures result.Threw? ==> written == None
  {
    var inputs := ReadAll(env, files);
    written, batches := None, [];
    var known, memory, pending, fallback := ResolveKnown(env, inputs, allowTranslate, source);
    PendingEntriesMembers(env, inputs, allowTranslate, source);
    if allowTranslate && |pending| > 0 {
      result, known, memory, batches := TranslatePending(env, now, provider, budget, pending, known, memory);
      if result.Threw? {
        return;
      }
      ProvidedByBatches(env, inputs, Mode(allowTranslate, force, result.values, now), source, known, memory);
    } else {
      result := Translated(map[]);
      ProvidedByNobody(env, inputs, Mode(allowTranslate, force, map[], now), source);
    }
    written := Finish(env, inputs, Mode(allowTranslate, force, result.values, now), source, files,
                      known, memory, pending, fallback);
  }

  method ReadAll(env: Env, files: Files) returns (inputs: Inputs)
    ensures inputs == ReadInputs(env, files)
  {
    var memory := LoadTranslationMemory(files.memory);
    var byText := BuildTranslationMemoryByTextHash(memory, env.locale);
    var existing := FlattenTranslations(files.locale, "", map[]);
    inputs := Inputs(memory, byText, existing, PreviousFallback(files.meta));
  }

  method Finish(env: Env, inputs: Inputs, mode: Mode, source: Flat, files: Files,
                known0: map<string, string>, memory: Memory, pending: seq<Item>, fallback0: seq<string>)
      returns (written: Option<Files>)
    requires ValidEnv(env) && DistinctKeys(source) && inputs == ReadInputs(env, files)
    requires Provided(env, inputs, mode, source, known0, memory)
    requires pending == ItemsOf(env, PendingEntries(env, inputs, mode.allowTranslate, source))
    requires fallback0 == Marked(env, inputs, mode.allowTranslate, source)
    ensures written == Sync(env, mode, source, files)
  {
    ghost var entries := PendingEntries(env, inputs, mode.allowTranslate, source);
    ghost var texts := NextTexts(env, inputs, mode, source);
    PendingEntriesMembers(env, inputs, mode.allowTranslate, source);
    forall entry | entry in entries ensures IsPending(env, inputs, mode, entry) && Untouched(mode, known0, entry) {
      ProvidedIsUntouched(env, inputs, mode, source, known0, memory, entry);
    }
    var known, fallback := FillRest(env, inputs, mode, entries, pending, known0, fallback0);
    forall i | 0 <= i < |source| ensures texts[i].0 == source[i].0 && Holds(known, source[i].0, texts[i].1) {
      AllTextsHold(env, inputs, mode, source, known0, memory, source[i]);
    }
    var locale := Rebuild(env, source, known, texts);
    FallbackListsAgree(env, inputs, mode, source);
    match locale {
      case None =>
        written := None;
      case Some(root) =>
        var sorted := Sort(fallback, Same, env.before);
        var meta := BuildMeta(env, mode, |source|, sorted, files.meta);
        written := Some(Files(
          root,
          Some(meta),
          if files.glossary == [] then env.defaultGlossary else files.glossary,
          Render(memory, env.before)));
    }
  }

  /** The metadata, field by field; the time stamp is renewed only if another field says something new. */
  method BuildMeta(env: Env, mode: Mode, total: int, sorted: seq<string>, previous: Option<Meta>) returns (meta: Meta)
    ensures meta == NextMeta(env, mode, total, sorted, previous)
  {
    var provider, model := env.provider, env.model;
    if !mode.allowTranslate {
      provider := if previous.Some? then previous.value.provider else "";
      model := if previous.Some? then previous.value.model else "";
    }
    var translatedKeys := total - |sorted|;
    var semanticMetaChanged := match previous
      case None => true
      case Some(p) =>
        || p.locale != env.locale || p.sourceHash != env.sourceHash || p.provider != provider || p.model != model
        || p.totalKeys != total || p.translatedKeys != translatedKeys || p.workflow != CONTROL_UI_I18N_WORKFLOW
        || p.fallbackKeys != sorted;
    meta := Meta(sorted, if semanticMetaChanged then mode.now else previous.value.generatedAt, env.locale, model,
                 provider, env.sourceHash, total, translatedKeys, CONTROL_UI_I18N_WORKFLOW);
  }
}
