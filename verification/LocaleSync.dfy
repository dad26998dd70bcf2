/**
  Syncing one locale: every source key gets its text from the translation memory, from
  an entry with the same source text, from the existing locale, from the provider, or
  from the source itself, and the locale, metadata and memory files are rewritten.
*/
module LocaleSync {
  import opened Collections
  import opened Text
  import opened Ordering
  import opened TranslationTree
  import opened TranslationMemory
  import opened TranslationBatches

  const CONTROL_UI_I18N_WORKFLOW := 1
  const SOURCE_LOCALE := "en"

  /** What does not change between two syncs of one locale. */
  datatype Env = Env(
    locale: string, sourcePath: string, sourceHash: string, provider: string, model: string,
    hashText: string -> string,            // text hash
    cacheKey: (string, string) -> string,  // key and text hash to cache key
    before: Before,                        // the sorting order
    parity: (string, string) -> bool,      // source text and translation have the same placeholders
    defaultGlossary: seq<(string, string)>)

  ghost predicate ValidEnv(env: Env)
  {
    && StrictTotalOrder(env.before)
    && env.defaultGlossary != []
    && (forall key, textHash :: env.cacheKey(key, textHash) != "")
    && (forall k1, h1, k2, h2 {:trigger env.cacheKey(k1, h1), env.cacheKey(k2, h2)} ::
          env.cacheKey(k1, h1) == env.cacheKey(k2, h2) ==> k1 == k2 && h1 == h2)
  }

  datatype Meta = Meta(
    fallbackKeys: seq<string>, generatedAt: string, locale: string, model: string, provider: string,
    sourceHash: string, totalKeys: int, translatedKeys: int, workflow: int)

  /** The four generated files of a locale; a missing file reads as empty. */
  datatype Files = Files(
    locale: seq<Prop>, meta: Option<Meta>, glossary: seq<(string, string)>, memory: seq<Entry>)

  /** What a sync reads before it resolves keys. */
  datatype Inputs = Inputs(
    memory: Memory, byText: map<string, Entry>, existing: map<string, string>, previous: set<string>)

  /** How one run differs from another: provider at hand, `--force`, the provider's texts, the time. */
  datatype Mode = Mode(allowTranslate: bool, force: bool, translated: map<string, string>, now: string)

  function ReadInputs(env: Env, files: Files): Inputs
  {
    var memory := Load(files.memory);
    Inputs(memory, ByTextHash(memory, env.locale), Flatten(files.locale), PreviousFallback(files.meta))
  }

  function PreviousFallback(meta: Option<Meta>): set<string>
  {
    match meta
    case None => {}
    case Some(m) => set key | key in m.fallbackKeys
  }

  // ----- resolving one key -----

  datatype Choice = FromMemory(text: string) | FromText(entry: Entry) | Kept(text: string) | Pending

  function SegmentKey(env: Env, entry: (string, string)): string
  {
    env.cacheKey(entry.0, env.hashText(entry.1))
  }

  function Choose(env: Env, inputs: Inputs, allowTranslate: bool, cached: Option<Entry>, entry: (string, string))
      : Choice
  {
    var (key, text) := entry;
    var textHash := env.hashText(text);
    var stale := key in inputs.previous;
    if cached.Some? && !(allowTranslate && stale) then FromMemory(cached.value.translated)
    else if textHash in inputs.byText && (stale || key !in inputs.existing) then FromText(inputs.byText[textHash])
    else if key in inputs.existing && !(allowTranslate && stale) then Kept(inputs.existing[key])
    else Pending
  }

  /** The choice for a source entry, by the memory the sync started with. */
  function ChoiceOf(env: Env, inputs: Inputs, allowTranslate: bool, entry: (string, string)): Choice
  {
    Choose(env, inputs, allowTranslate, Get(inputs.memory, SegmentKey(env, entry)), entry)
  }

  function TextFor(env: Env, inputs: Inputs, mode: Mode, entry: (string, string)): string
  {
    match ChoiceOf(env, inputs, mode.allowTranslate, entry)
    case FromMemory(text) => text
    case FromText(e) => e.translated
    case Kept(text) => text
    case Pending =>
      if entry.0 in mode.translated then mode.translated[entry.0]
      else if entry.0 in inputs.existing && !mode.force then inputs.existing[entry.0]
      else entry.1
  }

  predicate FallsBack(env: Env, inputs: Inputs, mode: Mode, entry: (string, string))
  {
    match ChoiceOf(env, inputs, mode.allowTranslate, entry)
    case FromMemory(_) => entry.0 in inputs.previous
    case FromText(_) => false
    case Kept(_) => entry.0 in inputs.previous
    case Pending =>
      entry.0 !in mode.translated
      && (if entry.0 in inputs.existing && !mode.force then entry.0 in inputs.previous else true)
  }

  // ----- the memory after a run -----

  function CopiedEntry(env: Env, found: Entry, entry: (string, string)): Entry
  {
    found.(cacheKey := SegmentKey(env, entry), segmentId := entry.0, sourcePath := env.sourcePath)
  }

  function ItemOf(env: Env, entry: (string, string)): Item
  {
    Item(SegmentKey(env, entry), entry.0, entry.1, env.hashText(entry.1))
  }

  function StoredEntry(env: Env, item: Item, translated: string, now: string): Entry
  {
    Entry(item.cacheKey, env.model, env.provider, item.key, env.sourcePath, SOURCE_LOCALE, item.text,
          item.textHash, env.locale, translated, now)
  }

  function TranslatedEntry(env: Env, mode: Mode, entry: (string, string)): Entry
    requires entry.0 in mode.translated
  {
    StoredEntry(env, ItemOf(env, entry), mode.translated[entry.0], mode.now)
  }

  function IsPending(env: Env, inputs: Inputs, mode: Mode, entry: (string, string)): bool
  {
    ChoiceOf(env, inputs, mode.allowTranslate, entry).Pending?
  }

  /** The entry a run records for a source entry, if any. */
  function Recorded(env: Env, inputs: Inputs, mode: Mode, entry: (string, string)): Option<Entry>
  {
    match ChoiceOf(env, inputs, mode.allowTranslate, entry)
    case FromText(found) => Some(CopiedEntry(env, found, entry))
    case Pending => if entry.0 in mode.translated then Some(TranslatedEntry(env, mode, entry)) else None
    case _ => None
  }

  /** The copies made while resolving the source entries in order. */
  function CopyAll(env: Env, inputs: Inputs, allowTranslate: bool, source: Flat): Memory
  {
    if source == [] then inputs.memory
    else
      var rest, last := CopyAll(env, inputs, allowTranslate, source[..|source| - 1]), source[|source| - 1];
      match ChoiceOf(env, inputs, allowTranslate, last)
      case FromText(found) => TranslationMemory.Set(rest, CopiedEntry(env, found, last))
      case _ => rest
  }

  /** The translations recorded, in order, for the pending ones among these source entries. */
  function StoreAll(env: Env, inputs: Inputs, mode: Mode, start: Memory, source: Flat): Memory
  {
    if source == [] then start
    else
      var rest, last := StoreAll(env, inputs, mode, start, source[..|source| - 1]), source[|source| - 1];
      if IsPending(env, inputs, mode, last) && last.0 in mode.translated
      then TranslationMemory.Set(rest, TranslatedEntry(env, mode, last)) else rest
  }

  function NextMemory(env: Env, inputs: Inputs, mode: Mode, source: Flat): Memory
  {
    StoreAll(env, inputs, mode, CopyAll(env, inputs, mode.allowTranslate, source), source)
  }

  // ----- one sync -----

  function NextTexts(env: Env, inputs: Inputs, mode: Mode, source: Flat): (texts: Flat)
    ensures |texts| == |source|
  {
    seq(|source|, i requires 0 <= i < |source| => (source[i].0, TextFor(env, inputs, mode, source[i])))
  }

  function FallbackKeys(env: Env, inputs: Inputs, mode: Mode, source: Flat): seq<string>
  {
    if source == [] then []
    else
      var rest, last := FallbackKeys(env, inputs, mode, source[..|source| - 1]), source[|source| - 1];
      if FallsBack(env, inputs, mode, last) then rest + [last.0] else rest
  }

  function Same(key: string): string { key }

  function NextMeta(env: Env, mode: Mode, total: int, fallback: seq<string>, previous: Option<Meta>): Meta
  {
    var model := if mode.allowTranslate then env.model else if previous.Some? then previous.value.model else "";
    var provider := if mode.allowTranslate then env.provider
                    else if previous.Some? then previous.value.provider else "";
    var next := Meta(fallback, mode.now, env.locale, model, provider, env.sourceHash, total, total - |fallback|,
                     CONTROL_UI_I18N_WORKFLOW);
    if previous.Some? && previous.value == next.(generatedAt := previous.value.generatedAt)
    then previous.value else next
  }

  /** The files a sync expects, or None when a placeholder mismatch makes it throw. */
  function Sync(env: Env, mode: Mode, source: Flat, files: Files): Option<Files>
  {
    var inputs := ReadInputs(env, files);
    var texts := NextTexts(env, inputs, mode, source);
    if exists i :: 0 <= i < |source| && !env.parity(source[i].1, texts[i].1) then None
    else
      var fallback := Sort(FallbackKeys(env, inputs, mode, source), Same, env.before);
      Some(Files(
        Build(texts),
        Some(NextMeta(env, mode, |source|, fallback, files.meta)),
        if files.glossary == [] then env.defaultGlossary else files.glossary,
        Render(NextMemory(env, inputs, mode, source), env.before)))
  }

  /** The command line of a run. */
  datatype Options = Options(checkOnly: bool, force: bool, write: bool)

  /** What a run reports, and the files it leaves behind. */
  datatype Outcome = Outcome(changed: bool, fallbackCount: nat, wrote: bool, files: Files)

  /** A run reports whether the files differ from what it expects; only a run that is to write changes them. */
  function Conclude(options: Options, files: Files, expected: Files): Outcome
    requires expected.meta.Some?
  {
    var changed := files != expected;
    var wrote := changed && options.write && !options.checkOnly;
    Outcome(changed, |expected.meta.value.fallbackKeys|, wrote, if wrote then expected else files)
  }

  /** The provider's texts are not blank, and without a provider there are none. */
  ghost predicate Answers(mode: Mode)
  {
    && (forall key :: key in mode.translated ==> !IsBlank(mode.translated[key]))
    && (!mode.allowTranslate ==> mode.translated == map[])
  }

  /** A run whose provider, if there is one, answered for exactly the pending keys. */
  ghost predicate Complete(env: Env, mode: Mode, source: Flat, inputs: Inputs)
  {
    && Answers(mode)
    && (mode.allowTranslate ==> forall entry :: entry in source ==>
          (entry.0 in mode.translated <==> IsPending(env, inputs, mode, entry)))
  }

  // ----- what a run leaves behind -----

  ghost predicate AloneIn(source: Flat, entry: (string, string))
  {
    forall e :: e in source && e.0 == entry.0 ==> e == entry
  }

  lemma {:induction false} GetCopied(env: Env, inputs: Inputs, mode: Mode, source: Flat, entry: (string, string))
    requires ValidEnv(env) && AloneIn(source, entry)
    ensures Get(CopyAll(env, inputs, mode.allowTranslate, source), SegmentKey(env, entry)) ==
            if entry in source && ChoiceOf(env, inputs, mode.allowTranslate, entry).FromText?
            then Recorded(env, inputs, mode, entry) else Get(inputs.memory, SegmentKey(env, entry))
  {
    if source != [] {
      var front, last := source[..|source| - 1], source[|source| - 1];
      assert source == front + [last];
      GetCopied(env, inputs, mode, front, entry);
      match ChoiceOf(env, inputs, mode.allowTranslate, last) {
        case FromText(found) =>
          var copied := CopyAll(env, inputs, mode.allowTranslate, front);
          GetSet(copied, CopiedEntry(env, found, last), SegmentKey(env, entry));
        case _ =>
      }
    }
  }

  lemma {:induction false} GetStored(
      env: Env, inputs: Inputs, mode: Mode, start: Memory, source: Flat, entry: (string, string))
    requires ValidEnv(env) && AloneIn(source, entry)
    ensures Get(StoreAll(env, inputs, mode, start, source), SegmentKey(env, entry)) ==
            if entry in source && IsPending(env, inputs, mode, entry) && entry.0 in mode.translated
            then Recorded(env, inputs, mode, entry) else Get(start, SegmentKey(env, entry))
  {
    if source != [] {
      var front, last := source[..|source| - 1], source[|source| - 1];
      assert source == front + [last];
      GetStored(env, inputs, mode, start, front, entry);
      if IsPending(env, inputs, mode, last) && last.0 in mode.translated {
        GetSet(StoreAll(env, inputs, mode, start, front), TranslatedEntry(env, mode, last), SegmentKey(env, entry));
      }
    }
  }

  /** After a run, a source entry's cache key holds what the run recorded, or what it held before. */
  lemma GetNext(env: Env, inputs: Inputs, mode: Mode, source: Flat, entry: (string, string))
    requires ValidEnv(env) && AloneIn(source, entry) && entry in source
    ensures var recorded := Recorded(env, inputs, mode, entry);
      Get(NextMemory(env, inputs, mode, source), SegmentKey(env, entry)) ==
      if recorded.Some? then recorded else Get(inputs.memory, SegmentKey(env, entry))
  {
    GetCopied(env, inputs, mode, source, entry);
    GetStored(env, inputs, mode, CopyAll(env, inputs, mode.allowTranslate, source), source, entry);
  }

  /** An entry of the new memory is an old one or shares its text hash with the entry a run resolved. */
  ghost predicate Accounted(env: Env, inputs: Inputs, mode: Mode, e: Entry)
  {
    || e in inputs.memory
    || (Indexed(e, env.locale) ==> e.textHash in inputs.byText)
    || (e.segmentId in mode.translated && mode.allowTranslate)
  }

  ghost predicate WellRead(env: Env, inputs: Inputs)
  {
    Valid(inputs.memory) && inputs.byText == ByTextHash(inputs.memory, env.locale)
  }

  lemma {:induction false} CopyAllIsValid(env: Env, inputs: Inputs, mode: Mode, source: Flat)
    requires ValidEnv(env) && WellRead(env, inputs)
    ensures Valid(CopyAll(env, inputs, mode.allowTranslate, source))
    ensures forall e :: e in CopyAll(env, inputs, mode.allowTranslate, source) ==> Accounted(env, inputs, mode, e)
  {
    if source != [] {
      var front, last := source[..|source| - 1], source[|source| - 1];
      CopyAllIsValid(env, inputs, mode, front);
      match ChoiceOf(env, inputs, mode.allowTranslate, last) {
        case FromText(found) =>
          ByTextHashMembers(inputs.memory, env.locale, env.hashText(last.1));
          SetMembers(CopyAll(env, inputs, mode.allowTranslate, front), CopiedEntry(env, found, last));
        case _ =>
      }
    }
  }

  lemma {:induction false} StoreAllIsValid(env: Env, inputs: Inputs, mode: Mode, start: Memory, source: Flat)
    requires ValidEnv(env) && Answers(mode) && Valid(start)
    requires forall e :: e in start ==> Accounted(env, inputs, mode, e)
    ensures Valid(StoreAll(env, inputs, mode, start, source))
    ensures forall e :: e in StoreAll(env, inputs, mode, start, source) ==> Accounted(env, inputs, mode, e)
  {
    if source != [] {
      var front, last := source[..|source| - 1], source[|source| - 1];
      StoreAllIsValid(env, inputs, mode, start, front);
      if IsPending(env, inputs, mode, last) && last.0 in mode.translated {
        SetMembers(StoreAll(env, inputs, mode, start, front), TranslatedEntry(env, mode, last));
      }
    }
  }

  lemma NextMemoryIsValid(env: Env, inputs: Inputs, mode: Mode, source: Flat)
    requires ValidEnv(env) && WellRead(env, inputs) && Answers(mode)
    ensures Valid(NextMemory(env, inputs, mode, source))
    ensures forall e :: e in NextMemory(env, inputs, mode, source) ==> Accounted(env, inputs, mode, e)
  {
    CopyAllIsValid(env, inputs, mode, source);
    StoreAllIsValid(env, inputs, mode, CopyAll(env, inputs, mode.allowTranslate, source), source);
  }

  lemma ReadInputsWell(env: Env, files: Files)
    ensures WellRead(env, ReadInputs(env, files))
  {
    LoadIsValid(files.memory);
  }

  /** Nothing is recorded by a run that takes every text from the memory or the existing locale. */
  lemma {:induction false} NothingRecorded(env: Env, inputs: Inputs, mode: Mode, source: Flat)
    requires forall entry :: entry in source ==> Recorded(env, inputs, mode, entry).None?
    ensures CopyAll(env, inputs, mode.allowTranslate, source) == inputs.memory
    ensures StoreAll(env, inputs, mode, inputs.memory, source) == inputs.memory
  {
    if source != [] {
      var front, last := source[..|source| - 1], source[|source| - 1];
      assert source == front + [last];
      NothingRecorded(env, inputs, mode, front);
      assert Recorded(env, inputs, mode, last).None?;
    }
  }

  lemma {:induction false} FallbackKeysMembers(env: Env, inputs: Inputs, mode: Mode, source: Flat)
    requires DistinctKeys(source)
    ensures DistinctBy(FallbackKeys(env, inputs, mode, source), Same)
    ensures forall key :: key in FallbackKeys(env, inputs, mode, source) <==>
              exists entry :: entry in source && entry.0 == key && FallsBack(env, inputs, mode, entry)
  {
    if source != [] {
      var front, last := source[..|source| - 1], source[|source| - 1];
      assert source == front + [last];
      FallbackKeysMembers(env, inputs, mode, front);
      var keys := FallbackKeys(env, inputs, mode, front);
      forall i | 0 <= i < |keys| ensures keys[i] != last.0 {
        assert keys[i] in keys;
        var entry :| entry in front && entry.0 == keys[i];
      }
    }
  }

  lemma {:induction false} SameFallback(
      env: Env, inputs1: Inputs, mode1: Mode, inputs2: Inputs, mode2: Mode, source: Flat)
    requires forall entry :: entry in source ==>
               (FallsBack(env, inputs1, mode1, entry) <==> FallsBack(env, inputs2, mode2, entry))
    ensures FallbackKeys(env, inputs1, mode1, source) == FallbackKeys(env, inputs2, mode2, source)
  {
    if source != [] {
      var front, last := source[..|source| - 1], source[|source| - 1];
      assert source == front + [last];
      SameFallback(env, inputs1, mode1, inputs2, mode2, front);
    }
  }

  // ----- a second sync changes nothing -----

  /**
    No text is made up: it was remembered for this key and text, remembered for the same
    text under another key, written before, or given by the provider; else it is the
    English one, and the key is reported as a fallback.
  */
  lemma EveryTextHasAnOrigin(env: Env, inputs: Inputs, mode: Mode, entry: (string, string))
    requires WellRead(env, inputs)
    ensures var text := TextFor(env, inputs, mode, entry);
      || (exists e :: e in inputs.memory && e.cacheKey == SegmentKey(env, entry) && e.translated == text)
      || (exists e :: e in inputs.memory && e.targetLanguage == env.locale && e.textHash == env.hashText(entry.1)
                      && e.translated == text)
      || (entry.0 in inputs.existing && inputs.existing[entry.0] == text)
      || (entry.0 in mode.translated && mode.translated[entry.0] == text)
      || (text == entry.1 && FallsBack(env, inputs, mode, entry))
  {
    GetMember(inputs.memory, SegmentKey(env, entry));
    ByTextHashMembers(inputs.memory, env.locale, env.hashText(entry.1));
  }

  /** What a second run reads, described by what the first run did. */
  ghost predicate ReadsBack(env: Env, inputs: Inputs, mode: Mode, source: Flat, again: Inputs)
  {
    && WellRead(env, again)
    && (forall cacheKey :: Get(again.memory, cacheKey) == Get(NextMemory(env, inputs, mode, source), cacheKey))
    && (forall e :: e in again.memory ==> e in NextMemory(env, inputs, mode, source))
    && (forall entry :: entry in source ==>
          && entry.0 in again.existing
          && again.existing[entry.0] == TextFor(env, inputs, mode, entry)
          && (entry.0 in again.previous <==> FallsBack(env, inputs, mode, entry)))
  }

  lemma NoNewTextHash(env: Env, inputs: Inputs, mode: Mode, source: Flat, again: Inputs, textHash: string)
    requires ValidEnv(env) && WellRead(env, inputs) && Answers(mode) && !mode.allowTranslate
    requires ReadsBack(env, inputs, mode, source, again)
    ensures textHash in again.byText ==> textHash in inputs.byText
  {
    if textHash in again.byText {
      NextMemoryIsValid(env, inputs, mode, source);
      ByTextHashMembers(again.memory, env.locale, textHash);
      ByTextHashMembers(inputs.memory, env.locale, textHash);
      assert Accounted(env, inputs, mode, again.byText[textHash]);
    }
  }

  /** The second run finds every text where the first one left it, and records nothing. */
  lemma ResolvesTheSame(env: Env, inputs: Inputs, mode: Mode, source: Flat, again: Inputs, mode2: Mode,
                        entry: (string, string))
    requires ValidEnv(env) && WellRead(env, inputs) && Complete(env, mode, source, inputs)
    requires DistinctKeys(source) && entry in source
    requires ReadsBack(env, inputs, mode, source, again)
    requires mode2.allowTranslate ==> mode.allowTranslate
    ensures TextFor(env, again, mode2, entry) == TextFor(env, inputs, mode, entry)
    ensures FallsBack(env, again, mode2, entry) <==> FallsBack(env, inputs, mode, entry)
    ensures !IsPending(env, again, mode2, entry) && Recorded(env, again, mode2, entry).None?
  {
    GetNext(env, inputs, mode, source, entry);
    if !mode.allowTranslate {
      NoNewTextHash(env, inputs, mode, source, again, env.hashText(entry.1));
    }
  }

  lemma ReadsBackWritten(env: Env, mode: Mode, source: Flat, files: Files, written: Files)
    requires ValidEnv(env) && DistinctKeys(source) && Nestable(source)
    requires Complete(env, mode, source, ReadInputs(env, files))
    requires Sync(env, mode, source, files) == Some(written)
    ensures ReadsBack(env, ReadInputs(env, files), mode, source, ReadInputs(env, written))
  {
    var inputs := ReadInputs(env, files);
    ReadInputsWell(env, files);
    ReadInputsWell(env, written);
    NextMemoryIsValid(env, inputs, mode, source);
    RenderThenLoad(NextMemory(env, inputs, mode, source), env.before);
    TextsReadBack(env, inputs, mode, source);
    FallbackReadsBack(env, inputs, mode, source);
  }

  /** The written locale flattens to the texts written. */
  lemma TextsReadBack(env: Env, inputs: Inputs, mode: Mode, source: Flat)
    requires DistinctKeys(source) && Nestable(source)
    ensures var existing := Flatten(Build(NextTexts(env, inputs, mode, source)));
      forall entry :: entry in source ==>
        entry.0 in existing && existing[entry.0] == TextFor(env, inputs, mode, entry)
  {
    NestableKeepsAll(NextTexts(env, inputs, mode, source));
    forall entry | entry in source
      ensures var all := ToMap(NextTexts(env, inputs, mode, source));
        entry.0 in all && all[entry.0] == TextFor(env, inputs, mode, entry)
    {
      TextsAsMap(env, inputs, mode, source, entry);
    }
  }

  /** The written fallback list names exactly the keys that fell back. */
  lemma FallbackReadsBack(env: Env, inputs: Inputs, mode: Mode, source: Flat)
    requires ValidEnv(env) && DistinctKeys(source)
    ensures var sorted := Sort(FallbackKeys(env, inputs, mode, source), Same, env.before);
      forall entry :: entry in source ==> (entry.0 in sorted <==> FallsBack(env, inputs, mode, entry))
  {
    FallbackKeysMembers(env, inputs, mode, source);
    SortSorts(FallbackKeys(env, inputs, mode, source), Same, env.before);
    forall entry | entry in source
      ensures entry.0 in FallbackKeys(env, inputs, mode, source) <==> FallsBack(env, inputs, mode, entry)
    {
      assert forall e :: e in source && e.0 == entry.0 ==> e == entry;
    }
  }

  lemma TextsAsMap(env: Env, inputs: Inputs, mode: Mode, source: Flat, entry: (string, string))
    requires DistinctKeys(source) && entry in source
    ensures var all := ToMap(NextTexts(env, inputs, mode, source));
      entry.0 in all && all[entry.0] == TextFor(env, inputs, mode, entry)
  {
    var texts := NextTexts(env, inputs, mode, source);
    var i :| 0 <= i < |source| && source[i] == entry;
    assert texts[i] in texts;
    ToMapMembers(texts, entry.0);
  }

  lemma {:induction false} SecondRunAgrees(
      env: Env, inputs: Inputs, mode: Mode, source: Flat, again: Inputs, mode2: Mode)
    requires ValidEnv(env) && WellRead(env, inputs) && DistinctKeys(source)
    requires Complete(env, mode, source, inputs)
    requires ReadsBack(env, inputs, mode, source, again)
    requires mode2.allowTranslate ==> mode.allowTranslate
    ensures NextTexts(env, again, mode2, source) == NextTexts(env, inputs, mode, source)
    ensures FallbackKeys(env, again, mode2, source) == FallbackKeys(env, inputs, mode, source)
    ensures NextMemory(env, again, mode2, source) == again.memory
    ensures forall entry :: entry in source ==> !IsPending(env, again, mode2, entry)
  {
    forall entry | entry in source
      ensures TextFor(env, again, mode2, entry) == TextFor(env, inputs, mode, entry)
      ensures FallsBack(env, again, mode2, entry) <==> FallsBack(env, inputs, mode, entry)
      ensures !IsPending(env, again, mode2, entry) && Recorded(env, again, mode2, entry).None?
    {
      ResolvesTheSame(env, inputs, mode, source, again, mode2, entry);
    }
    SameFallback(env, inputs, mode, again, mode2, source);
    NothingRecorded(env, again, mode2, source);
  }

  /** Metadata that say nothing new keep their time stamp. */
  lemma MetaIsKept(env: Env, mode: Mode, mode2: Mode, total: int, fallback: seq<string>, previous: Option<Meta>)
    requires mode2.allowTranslate ==> mode.allowTranslate
    ensures var meta := NextMeta(env, mode, total, fallback, previous);
      NextMeta(env, mode2, total, fallback, Some(meta)) == meta
  {
  }

  /**
    Whatever the files held before, syncing again right after a sync changes nothing:
    same locale, same metadata down to its time stamp, same glossary, same memory.
  */
  lemma SecondSyncChangesNothing(env: Env, mode: Mode, mode2: Mode, source: Flat, files: Files, written: Files)
    requires ValidEnv(env) && DistinctKeys(source) && Nestable(source)
    requires Complete(env, mode, source, ReadInputs(env, files))
    requires Sync(env, mode, source, files) == Some(written)
    requires mode2.allowTranslate ==> mode.allowTranslate
    ensures Sync(env, mode2, source, written) == Some(written)
    ensures forall entry :: entry in source ==> !IsPending(env, ReadInputs(env, written), mode2, entry)
  {
    var inputs, again := ReadInputs(env, files), ReadInputs(env, written);
    ReadInputsWell(env, files);
    ReadsBackWritten(env, mode, source, files, written);
    SecondRunAgrees(env, inputs, mode, source, again, mode2);
    NextMemoryIsValid(env, inputs, mode, source);
    RenderThenLoad(NextMemory(env, inputs, mode, source), env.before);
    var fallback := Sort(FallbackKeys(env, inputs, mode, source), Same, env.before);
    MetaIsKept(env, mode, mode2, |source|, fallback, files.meta);
  }

  /**
    A check right after a written sync is clean, whatever was there before and whether or
    not the check has a provider the sync had; and a check never changes a file.
  */
  lemma CheckAfterWriteIsClean(env: Env, mode: Mode, options: Options, mode2: Mode, check: Options,
                               source: Flat, files: Files, expected: Files)
    requires ValidEnv(env) && DistinctKeys(source) && Nestable(source)
    requires Complete(env, mode, source, ReadInputs(env, files))
    requires Sync(env, mode, source, files) == Some(expected)
    requires mode2.allowTranslate ==> mode.allowTranslate
    requires options.write && !options.checkOnly && check.checkOnly
    ensures var written := Conclude(options, files, expected);
      && written.wrote == written.changed
      && Sync(env, mode2, source, written.files) == Some(expected)
      && Conclude(check, written.files, expected) == Outcome(false, written.fallbackCount, false, written.files)
    ensures Conclude(check, files, expected).files == files
  {
    SecondSyncChangesNothing(env, mode, mode2, source, files, expected);
  }

  /** A complete run with a provider translates every key. */
  lemma CompleteRunTranslatesAll(env: Env, mode: Mode, source: Flat, files: Files, written: Files)
    requires ValidEnv(env) && DistinctKeys(source) && mode.allowTranslate
    requires Complete(env, mode, source, ReadInputs(env, files))
    requires Sync(env, mode, source, files) == Some(written)
    ensures written.meta.Some? && written.meta.value.fallbackKeys == []
    ensures written.meta.value.translatedKeys == written.meta.value.totalKeys == |source|
    ensures forall entry :: entry in source ==> !FallsBack(env, ReadInputs(env, files), mode, entry)
  {
    var keys := FallbackKeys(env, ReadInputs(env, files), mode, source);
    assert |keys| > 0 ==> keys[0] in keys;
    FallbackKeysMembers(env, ReadInputs(env, files), mode, source);
  }

  /**
    The metadata written: those of this locale and source, every key counted once, the
    provider of the run or else the recorded one, and the time of the run exactly if
    anything else in them is new.
  */
  lemma WrittenMeta(env: Env, mode: Mode, source: Flat, files: Files, written: Files)
    requires Sync(env, mode, source, files) == Some(written)
    ensures written.meta.Some?
    ensures var (meta, old_) := (written.meta.value, files.meta);
      && meta.locale == env.locale && meta.sourceHash == env.sourceHash && meta.workflow == 1
      && meta.totalKeys == |source| && meta.translatedKeys + |meta.fallbackKeys| == |source|
      && (mode.allowTranslate ==> meta.provider == env.provider && meta.model == env.model)
      && (!mode.allowTranslate && old_.Some? ==>
            meta.provider == old_.value.provider && meta.model == old_.value.model)
      && (!mode.allowTranslate && old_.None? ==> meta.provider == "" && meta.model == "")
      && meta.generatedAt == if old_.Some? && SaysTheSame(meta, old_.value) then old_.value.generatedAt else mode.now
    ensures written.glossary == if files.glossary == [] then env.defaultGlossary else files.glossary
  {
  }

  /** The memory is written in the order of its cache keys, the fallback list in the order of its keys. */
  lemma WrittenInOrder(env: Env, mode: Mode, source: Flat, files: Files, written: Files)
    requires ValidEnv(env) && DistinctKeys(source) && Answers(mode)
    requires Sync(env, mode, source, files) == Some(written)
    ensures forall i, j :: 0 <= i < j < |written.memory| ==>
              env.before(written.memory[i].cacheKey, written.memory[j].cacheKey)
    ensures written.meta.Some?
    ensures var keys := written.meta.value.fallbackKeys;
      forall i, j :: 0 <= i < j < |keys| ==> env.before(keys[i], keys[j])
  {
    var inputs := ReadInputs(env, files);
    ReadInputsWell(env, files);
    NextMemoryIsValid(env, inputs, mode, source);
    SortSorts(NextMemory(env, inputs, mode, source), KeyOf, env.before);
    FallbackKeysMembers(env, inputs, mode, source);
    SortSorts(FallbackKeys(env, inputs, mode, source), Same, env.before);
  }

  /** The two agree in everything but their time. */
  predicate SaysTheSame(a: Meta, b: Meta)
  {
    && a.fallbackKeys == b.fallbackKeys && a.locale == b.locale && a.model == b.model && a.provider == b.provider
    && a.sourceHash == b.sourceHash && a.totalKeys == b.totalKeys && a.translatedKeys == b.translatedKeys
    && a.workflow == b.workflow
  }

  // ----- exactly which sources are stable -----

  function CheckMode(force: bool, now: string): Mode
  {
    Mode(false, force, map[], now)
  }

  /** From any files, a second sync without a provider agrees with the first. */
  ghost predicate Stable(env: Env, source: Flat)
  {
    forall files: Files, mode: Mode, mode2: Mode ::
      mode.allowTranslate == mode2.allowTranslate == false && mode.translated == mode2.translated == map[] ==>
        SecondAgrees(env, mode, mode2, source, files)
  }

  ghost predicate SecondAgrees(env: Env, mode: Mode, mode2: Mode, source: Flat, files: Files)
  {
    var first := Sync(env, mode, source, files);
    first.Some? ==> Sync(env, mode2, source, first.value) == first
  }

  /** A locale file with every source key at its top level, in English. */
  function TopLevel(source: Flat): (props: seq<Prop>)
    ensures |props| == |source|
  {
    seq(|source|, i requires 0 <= i < |source| => Prop(source[i].0, Leaf(source[i].1)))
  }

  lemma {:induction false} FlattenTopLevel(source: Flat)
    ensures Emit(TopLevel(source), "") == source
  {
    if source != [] {
      assert TopLevel(source)[1..] == TopLevel(source[1..]);
      FlattenTopLevel(source[1..]);
      assert TopLevel(source) == [Prop(source[0].0, Leaf(source[0].1))] + TopLevel(source[1..]);
    }
  }

  lemma {:induction false} TopLevelIsKept(env: Env, source: Flat, mode: Mode) returns (written: Files)
    requires ValidEnv(env) && DistinctKeys(source) && mode == CheckMode(false, "")
    requires forall text :: env.parity(text, text)
    ensures Sync(env, mode, source, Files(TopLevel(source), None, [], [])) == Some(written)
    ensures written.locale == Build(source)
    ensures written.meta.Some? && written.meta.value.fallbackKeys == [] && written.memory == []
  {
    var files := Files(TopLevel(source), None, [], []);
    var inputs := ReadInputs(env, files);
    FlattenTopLevel(source);
    forall entry | entry in source
      ensures ChoiceOf(env, inputs, false, entry) == Kept(entry.1)
    {
      ToMapMembers(source, entry.0);
    }
    assert NextTexts(env, inputs, mode, source) == source;
    NothingRecorded(env, inputs, mode, source);
    NoFallback(env, inputs, mode, source);
    written := Sync(env, mode, source, files).value;
  }

  lemma {:induction false} NoFallback(env: Env, inputs: Inputs, mode: Mode, source: Flat)
    requires forall entry :: entry in source ==> !FallsBack(env, inputs, mode, entry)
    ensures FallbackKeys(env, inputs, mode, source) == []
  {
    if source != [] {
      assert source == source[..|source| - 1] + [source[|source| - 1]];
      NoFallback(env, inputs, mode, source[..|source| - 1]);
    }
  }

  /** A key missing from the written locale is reported as a fallback by the next run. */
  lemma LostKeyIsReported(env: Env, source: Flat, mode: Mode, written: Files, lost: (string, string))
    requires ValidEnv(env) && DistinctKeys(source) && lost in source
    requires !mode.allowTranslate && mode.translated == map[]
    requires lost.0 !in Flatten(written.locale) && written.memory == []
    requires written.meta.Some? && written.meta.value.fallbackKeys == []
    ensures Sync(env, mode, source, written) != Some(written)
  {
    var again := ReadInputs(env, written);
    var keys := FallbackKeys(env, again, mode, source);
    assert FallsBack(env, again, mode, lost);
    FallbackKeysMembers(env, again, mode, source);
    SortSorts(keys, Same, env.before);
    assert lost.0 in Sort(keys, Same, env.before);
  }

  /** A source with keys that cannot nest loses a text on the first write and reports it on the second. */
  lemma UnnestableIsUnstable(env: Env, source: Flat)
    requires ValidEnv(env) && DistinctKeys(source) && !Nestable(source)
    requires forall text :: env.parity(text, text)
    ensures !Stable(env, source)
  {
    var mode := CheckMode(false, "");
    var written := TopLevelIsKept(env, source, mode);
    var lost := NotNestableLosesKey(source);
    ToMapMembers(source, lost);
    LostKeyIsReported(env, source, mode, written, (lost, ToMap(source)[lost]));
    assert !SecondAgrees(env, mode, mode, source, Files(TopLevel(source), None, [], []));
  }

  /** Syncing reaches its fixed point in one step exactly for sources whose keys can nest. */
  lemma StableExactlyWhenNestable(env: Env, source: Flat)
    requires ValidEnv(env) && DistinctKeys(source)
    requires forall text :: env.parity(text, text)
    ensures Stable(env, source) <==> Nestable(source)
  {
    if Nestable(source) {
      forall files: Files, mode: Mode, mode2: Mode
        | mode.allowTranslate == mode2.allowTranslate == false && mode.translated == mode2.translated == map[]
        ensures SecondAgrees(env, mode, mode2, source, files)
      {
        var first := Sync(env, mode, source, files);
        if first.Some? {
          SecondSyncChangesNothing(env, mode, mode2, source, files, first.value);
        }
      }
    } else {
      UnnestableIsUnstable(env, source);
    }
  }
}
