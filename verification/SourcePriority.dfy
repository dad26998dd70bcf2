/**
  Which source a locale's text comes from. The order in which the sources win is written
  out here once more, entry by entry and in terms of the files a sync reads.
*/
module SourcePriority {
  import opened Collections
  import opened Text
  import opened Ordering
  import opened TranslationTree
  import opened TranslationMemory
  import opened TranslationBatches
  import opened LocaleSync
  import opened LocaleSyncRun

  /** What a run makes of one source entry. */
  datatype Fate = Fate(text: string, fallback: bool, asked: bool, remembered: Option<Entry>)

  /** The memory entry under the source entry's own cache key. */
  ghost predicate IsOwn(env: Env, entry: (string, string), e: Entry)
  {
    e.cacheKey == env.cacheKey(entry.0, env.hashText(entry.1))
  }

  ghost predicate HasOwn(env: Env, inputs: Inputs, entry: (string, string))
  {
    exists e :: e in inputs.memory && IsOwn(env, entry, e)
  }

  /** The memory entry last written for the same source text in this language, under whatever key. */
  ghost predicate IsShared(env: Env, inputs: Inputs, entry: (string, string), k: nat)
  {
    LastOfText(inputs.memory, env.locale, env.hashText(entry.1), k)
  }

  ghost predicate HasShared(env: Env, inputs: Inputs, entry: (string, string))
  {
    exists k: nat :: IsShared(env, inputs, entry, k)
  }

  /** A provider is at hand for a key that fell back to English before. */
  predicate Refreshes(inputs: Inputs, mode: Mode, key: string)
  {
    mode.allowTranslate && key in inputs.previous
  }

  /** First the memory entry of the key itself, unless a provider refreshes it; a fallback mark stays. */
  ghost predicate TakesOwn(env: Env, inputs: Inputs, mode: Mode, entry: (string, string), fate: Fate)
  {
    exists e :: e in inputs.memory && IsOwn(env, entry, e) &&
      fate == Fate(e.translated, entry.0 in inputs.previous, false, Some(e))
  }

  /** Next the memory entry of the same text, for a fallback or a key without a text; it is copied to the key. */
  ghost predicate TakesShared(env: Env, inputs: Inputs, entry: (string, string), fate: Fate)
  {
    exists k: nat :: IsShared(env, inputs, entry, k) &&
      var e := inputs.memory[k];
      fate == Fate(e.translated, false, false,
                   Some(Entry(env.cacheKey(entry.0, env.hashText(entry.1)), e.model, e.provider, entry.0,
                              env.sourcePath, e.sourceLanguage, e.text, e.textHash, e.targetLanguage, e.translated,
                              e.updatedAt)))
  }

  /** Next the existing text, unless a provider refreshes it. */
  predicate TakesExisting(inputs: Inputs, entry: (string, string), fate: Fate, own: Option<Entry>)
    requires entry.0 in inputs.existing
  {
    fate == Fate(inputs.existing[entry.0], entry.0 in inputs.previous, false, own)
  }

  /**
    What is left is for the provider; without an answer the existing text stands unless
    forced, else the English one.
  */
  predicate TakesAnswer(env: Env, inputs: Inputs, mode: Mode, entry: (string, string), fate: Fate, own: Option<Entry>)
  {
    var (key, text) := entry;
    fate ==
    if key in mode.translated then
      Fate(mode.translated[key], false, mode.allowTranslate,
           Some(Entry(env.cacheKey(key, env.hashText(text)), env.model, env.provider, key, env.sourcePath, "en", text,
                      env.hashText(text), env.locale, mode.translated[key], mode.now)))
    else if key in inputs.existing && !mode.force then
      Fate(inputs.existing[key], key in inputs.previous, mode.allowTranslate, own)
    else Fate(text, true, mode.allowTranslate, own)
  }

  /** The sources in the order in which they win. */
  ghost predicate ByPriority(env: Env, inputs: Inputs, mode: Mode, entry: (string, string), fate: Fate)
  {
    var (key, refreshes) := (entry.0, Refreshes(inputs, mode, entry.0));
    var own := Get(inputs.memory, env.cacheKey(key, env.hashText(entry.1)));
    if HasOwn(env, inputs, entry) && !refreshes then TakesOwn(env, inputs, mode, entry, fate)
    else if HasShared(env, inputs, entry) && (key in inputs.previous || key !in inputs.existing) then
      TakesShared(env, inputs, entry, fate)
    else if key in inputs.existing && !refreshes then TakesExisting(inputs, entry, fate, own)
    else TakesAnswer(env, inputs, mode, entry, fate, own)
  }

  /** The order leaves nothing open. */
  lemma PriorityDecides(env: Env, inputs: Inputs, mode: Mode, entry: (string, string), fate1: Fate, fate2: Fate)
    requires WellRead(env, inputs)
    requires ByPriority(env, inputs, mode, entry, fate1) && ByPriority(env, inputs, mode, entry, fate2)
    ensures fate1 == fate2
  {
    forall i, j | 0 <= i < |inputs.memory| && 0 <= j < |inputs.memory|
                  && IsOwn(env, entry, inputs.memory[i]) && IsOwn(env, entry, inputs.memory[j])
      ensures i == j
    {
      assert KeyOf(inputs.memory[i]) == KeyOf(inputs.memory[j]);
    }
  }

  /** The provider is asked for this entry, by its own cache key, key, text and text hash. */
  predicate AskedFor(env: Env, inputs: Inputs, mode: Mode, source: Flat, entry: (string, string))
  {
    var textHash := env.hashText(entry.1);
    Item(env.cacheKey(entry.0, textHash), entry.0, entry.1, textHash)
      in Wanted(env, inputs, mode.allowTranslate, source)
  }

  lemma AskedForPending(env: Env, inputs: Inputs, mode: Mode, source: Flat, entry: (string, string))
    requires DistinctKeys(source) && entry in source
    ensures AskedFor(env, inputs, mode, source, entry) <==>
            mode.allowTranslate && entry in PendingEntries(env, inputs, true, source)
  {
    var entries := PendingEntries(env, inputs, true, source);
    PendingEntriesMembers(env, inputs, true, source);
    if mode.allowTranslate {
      var items := ItemsOf(env, entries);
      assert forall i :: 0 <= i < |entries| ==> items[i] == ItemOf(env, entries[i]) && entries[i] in entries;
      if entry in entries {
        var i :| 0 <= i < |entries| && entries[i] == entry;
        assert items[i] == ItemOf(env, entry);
      }
      if ItemOf(env, entry) in items {
        var i :| 0 <= i < |items| && items[i] == ItemOf(env, entry);
        assert entries[i].0 == entry.0 && entries[i] in source;
      }
    }
  }

  /** What a sync makes of a source entry: its text, its mark, whether it is asked for, and the memory it leaves. */
  function FateOf(env: Env, inputs: Inputs, mode: Mode, source: Flat, entry: (string, string)): Fate
  {
    Fate(TextFor(env, inputs, mode, entry), FallsBack(env, inputs, mode, entry),
         AskedFor(env, inputs, mode, source, entry),
         Get(NextMemory(env, inputs, mode, source), env.cacheKey(entry.0, env.hashText(entry.1))))
  }

  /** The index and the cache key find what the memory holds. */
  lemma Lookups(env: Env, inputs: Inputs, entry: (string, string))
    requires WellRead(env, inputs)
    ensures HasOwn(env, inputs, entry) <==> Get(inputs.memory, SegmentKey(env, entry)).Some?
    ensures HasShared(env, inputs, entry) <==> env.hashText(entry.1) in inputs.byText
    ensures forall k: nat :: IsShared(env, inputs, entry, k) ==>
              inputs.byText[env.hashText(entry.1)] == inputs.memory[k]
  {
    var textHash := env.hashText(entry.1);
    GetMember(inputs.memory, SegmentKey(env, entry));
    ByTextHashIsLast(inputs.memory, env.locale, textHash);
    if textHash in inputs.byText {
      var k: nat :| LastOfText(inputs.memory, env.locale, textHash, k);
      assert IsShared(env, inputs, entry, k);
    }
  }

  /** A sync follows that order for every source entry. */
  lemma SyncFollowsPriority(env: Env, inputs: Inputs, mode: Mode, source: Flat, entry: (string, string))
    requires ValidEnv(env) && WellRead(env, inputs) && DistinctKeys(source) && entry in source
    ensures ByPriority(env, inputs, mode, entry, FateOf(env, inputs, mode, source, entry))
  {
    Lookups(env, inputs, entry);
    GetMember(inputs.memory, SegmentKey(env, entry));
    PendingEntriesMembers(env, inputs, mode.allowTranslate, source);
    AskedForPending(env, inputs, mode, source, entry);
    assert AloneIn(source, entry);
    GetNext(env, inputs, mode, source, entry);
  }

  /** The written files say what the sync made of the entry. */
  lemma WrittenSaysSo(env: Env, mode: Mode, source: Flat, files: Files, written: Files, entry: (string, string))
    requires ValidEnv(env) && DistinctKeys(source) && Nestable(source) && entry in source
    requires Answers(mode) && Sync(env, mode, source, files) == Some(written)
    ensures var inputs := ReadInputs(env, files);
      && entry.0 in Flatten(written.locale)
      && Flatten(written.locale)[entry.0] == TextFor(env, inputs, mode, entry)
      && written.meta.Some?
      && (entry.0 in written.meta.value.fallbackKeys <==> FallsBack(env, inputs, mode, entry))
  {
    TextsReadBack(env, ReadInputs(env, files), mode, source);
    FallbackReadsBack(env, ReadInputs(env, files), mode, source);
  }

  lemma WrittenMemoryHolds(env: Env, mode: Mode, source: Flat, files: Files, written: Files, cacheKey: string)
    requires ValidEnv(env) && Answers(mode) && Sync(env, mode, source, files) == Some(written)
    ensures Get(Load(written.memory), cacheKey) ==
            Get(NextMemory(env, ReadInputs(env, files), mode, source), cacheKey)
  {
    var inputs := ReadInputs(env, files);
    ReadInputsWell(env, files);
    NextMemoryIsValid(env, inputs, mode, source);
    RenderThenLoad(NextMemory(env, inputs, mode, source), env.before);
  }

  /** The same of the files written: the text read back, the fallback list and the memory. */
  lemma WrittenFollowsPriority(env: Env, mode: Mode, source: Flat, files: Files, written: Files,
                               entry: (string, string))
    requires ValidEnv(env) && DistinctKeys(source) && Nestable(source) && entry in source
    requires Answers(mode) && Sync(env, mode, source, files) == Some(written)
    ensures entry.0 in Flatten(written.locale) && written.meta.Some?
    ensures ByPriority(env, ReadInputs(env, files), mode, entry,
              Fate(Flatten(written.locale)[entry.0], entry.0 in written.meta.value.fallbackKeys,
                   AskedFor(env, ReadInputs(env, files), mode, source, entry),
                   Get(Load(written.memory), env.cacheKey(entry.0, env.hashText(entry.1)))))
  {
    var inputs := ReadInputs(env, files);
    ReadInputsWell(env, files);
    SyncFollowsPriority(env, inputs, mode, source, entry);
    WrittenSaysSo(env, mode, source, files, written, entry);
    WrittenMemoryHolds(env, mode, source, files, written, env.cacheKey(entry.0, env.hashText(entry.1)));
    assert Fate(Flatten(written.locale)[entry.0], entry.0 in written.meta.value.fallbackKeys,
                AskedFor(env, inputs, mode, source, entry),
                Get(Load(written.memory), env.cacheKey(entry.0, env.hashText(entry.1)))) ==
           FateOf(env, inputs, mode, source, entry);
  }
}
