/** The sync of one locale as a command: what it reports, what it writes, and that a check after it is clean. */
module LocaleSyncCommand {
  import opened Collections
  import opened Text
  import opened TranslationTree
  import opened TranslationBatches
  import opened BatchTranslator
  import opened LocaleSync
  import opened LocaleSyncRun

  /** How a run ends; it is skipped when the provider may be missing its credentials and does. */
  datatype Ending =
    | Finished(outcome: Outcome)
    | Skipped(outcome: Outcome)
    | PlaceholderMismatch
    | ProviderFailed(message: string)

  /** What the caller and the surroundings decide about a run. */
  datatype Setup = Setup(
    options: Options, allowTranslate: bool, authOptional: bool, now: string, provider: Provider, budget: int)

  predicate IsProviderAuthError(message: string)
  {
    var text := Lower(message);
    || Contains(text, "401") || Contains(text, "authentication_error")
    || Contains(text, "incorrect api key") || Contains(text, "invalid x-api-key")
  }

  /** The four ways of saying that credentials are missing or wrong. */
  lemma AuthErrorMeaning(message: string)
    ensures IsProviderAuthError(message) <==>
            || Says(message, "401") || Says(message, "authentication_error")
            || Says(message, "incorrect api key") || Says(message, "invalid x-api-key")
  {
    SaysInAnyCase(message, "401");
    SaysInAnyCase(message, "authentication_error");
    SaysInAnyCase(message, "incorrect api key");
    SaysInAnyCase(message, "invalid x-api-key");
  }

  function FallbackCount(files: Files): nat
  {
    match files.meta
    case Some(meta) => |meta.fallbackKeys|
    case None => 0
  }

  /** The end of a run that asked for these batches. */
  ghost function EndingOf(env: Env, setup: Setup, source: Flat, files: Files, batches: seq<seq<Item>>): Ending
  {
    match TranslateAll(setup.provider, batches)
    case Threw(message) =>
      if setup.authOptional && IsProviderAuthError(message)
      then Skipped(Outcome(false, FallbackCount(files), false, files)) else ProviderFailed(message)
    case Translated(values) =>
      match Sync(env, Mode(setup.allowTranslate, setup.options.force, values, setup.now), source, files)
      case None => PlaceholderMismatch
      case Some(expected) => Finished(Conclude(setup.options, files, expected))
  }

  /** The batches a run asks for: the greedy ones of its pending keys. */
  ghost predicate AsksFor(env: Env, setup: Setup, source: Flat, files: Files, batches: seq<seq<Item>>)
  {
    && IsPartition(batches, Wanted(env, ReadInputs(env, files), setup.allowTranslate, source), setup.budget)
    && Saturated(batches, setup.budget)
  }

  /** One run of the command. */
  method RunSync(env: Env, setup: Setup, source: Flat, files: Files)
      returns (ending: Ending, batches: seq<seq<Item>>)
    requires ValidEnv(env) && DistinctKeys(source)
    ensures AsksFor(env, setup, source, files, batches)
    ensures ending == EndingOf(env, setup, source, files, batches)
    ensures var answers := TranslateAll(setup.provider, batches);
      answers.Translated? ==>
        var mode := Mode(setup.allowTranslate, setup.options.force, answers.values, setup.now);
        Complete(env, mode, source, ReadInputs(env, files))
  {
    var result, written;
    result, written, batches := SyncLocale(
      env, setup.allowTranslate, setup.options.force, setup.now, setup.provider, setup.budget, source, files);
    match result {
      case Threw(message) =>
        if setup.authOptional && IsProviderAuthError(message) {
          return Skipped(Outcome(false, FallbackCount(files), false, files)), batches;
        }
        ending := ProviderFailed(message);
      case Translated(values) =>
        match written {
          case None => ending := PlaceholderMismatch;
          case Some(all) =>
            var outcome := WriteFiles(env, setup.options, files, all);
            ending := Finished(outcome);
        }
    }
  }

  /** Comparing file by file and writing all of them, if that is wanted; an early end skips only what writes nothing. */
  method WriteFiles(env: Env, options: Options, files: Files, expected: Files) returns (outcome: Outcome)
    requires expected.meta.Some?
    ensures outcome == Conclude(options, files, expected)
  {
    var changed := files.locale != expected.locale || files.meta != expected.meta
                   || files.glossary != expected.glossary || files.memory != expected.memory;
    var fallbackCount := |expected.meta.value.fallbackKeys|;
    var upToDate := files.meta.Some? && files.meta.value.sourceHash == env.sourceHash;
    if !changed || (upToDate && !options.force && !options.checkOnly && !options.write) {
      return Outcome(changed, fallbackCount, false, files);
    }
    var after := files;
    if !options.checkOnly && options.write {
      after := after.(locale := expected.locale);
      after := after.(meta := expected.meta);
      after := after.(glossary := expected.glossary);
      after := after.(memory := expected.memory);
    }
    outcome := Outcome(changed, fallbackCount, !options.checkOnly && options.write && changed, after);
  }

  /**
    What a run leaves behind: the expected files exactly if it succeeded, found a difference
    and was to write outside a check; otherwise the files as they were.
  */
  lemma EndingMeaning(env: Env, setup: Setup, source: Flat, files: Files, batches: seq<seq<Item>>)
    ensures var (ending, answers) :=
        (EndingOf(env, setup, source, files, batches), TranslateAll(setup.provider, batches));
      && (answers.Threw? && !(setup.authOptional && IsProviderAuthError(answers.message)) ==>
            ending == ProviderFailed(answers.message))
      && (answers.Threw? && setup.authOptional && IsProviderAuthError(answers.message) ==>
            && ending.Skipped? && !ending.outcome.changed && !ending.outcome.wrote && ending.outcome.files == files
            && (files.meta.Some? ==> ending.outcome.fallbackCount == |files.meta.value.fallbackKeys|)
            && (files.meta.None? ==> ending.outcome.fallbackCount == 0))
      && (answers.Translated? ==>
            var mode := Mode(setup.allowTranslate, setup.options.force, answers.values, setup.now);
            var expected := Sync(env, mode, source, files);
            if BreaksParity(env, source, files, mode) then ending == PlaceholderMismatch
            else expected.Some? && ending.Finished? && Obeys(setup.options, files, expected.value, ending.outcome))
  {
    var answers := TranslateAll(setup.provider, batches);
    if answers.Translated? {
      var mode := Mode(setup.allowTranslate, setup.options.force, answers.values, setup.now);
      var texts := NextTexts(env, ReadInputs(env, files), mode, source);
      assert forall i :: 0 <= i < |source| ==> source[i] in source;
    }
  }

  /** Some text would not keep the placeholders of its source. */
  predicate BreaksParity(env: Env, source: Flat, files: Files, mode: Mode)
  {
    exists entry :: entry in source && !env.parity(entry.1, TextFor(env, ReadInputs(env, files), mode, entry))
  }

  /** The outcome says and does what the options ask for. */
  predicate Obeys(options: Options, files: Files, expected: Files, outcome: Outcome)
  {
    && (outcome.changed <==> files.locale != expected.locale || files.meta != expected.meta
                             || files.glossary != expected.glossary || files.memory != expected.memory)
    && (outcome.wrote <==> outcome.changed && options.write && !options.checkOnly)
    && outcome.files == (if outcome.wrote then expected else files)
    && expected.meta.Some? && outcome.fallbackCount == |expected.meta.value.fallbackKeys|
  }

  // ----- a check after a sync -----

  lemma {:induction false} NothingWanted(env: Env, inputs: Inputs, allowTranslate: bool, source: Flat)
    requires forall entry :: entry in source ==> !ChoiceOf(env, inputs, allowTranslate, entry).Pending?
    ensures PendingEntries(env, inputs, allowTranslate, source) == []
  {
    if source != [] {
      SplitLast(source);
      NothingWanted(env, inputs, allowTranslate, source[..|source| - 1]);
    }
  }

  lemma BatchesHoldItems(batches: seq<seq<Item>>, items: seq<Item>, budget: int)
    requires IsPartition(batches, items, budget) && batches != []
    ensures items != []
  {
    assert batches[0] in batches;
  }

  lemma NothingAsked(batches: seq<seq<Item>>, budget: int)
    requires IsPartition(batches, [], budget)
    ensures batches == []
  {
    if batches != [] {
      BatchesHoldItems(batches, [], budget);
    }
  }

  /** After a sync that wrote its files, a check has nothing to ask, finds no change and touches nothing. */
  lemma CheckIsClean(env: Env, setup: Setup, check: Setup, source: Flat, files: Files,
                     first: seq<seq<Item>>, second: seq<seq<Item>>)
    requires ValidEnv(env) && DistinctKeys(source) && Nestable(source)
    requires setup.options.write && !setup.options.checkOnly && check.options.checkOnly
    requires check.allowTranslate ==> setup.allowTranslate
    requires EndingOf(env, setup, source, files, first).Finished?
    requires Complete(env, Mode(setup.allowTranslate, setup.options.force, TranslateAll(setup.provider, first).values,
                                setup.now), source, ReadInputs(env, files))
    requires var outcome := EndingOf(env, setup, source, files, first).outcome;
      AsksFor(env, check, source, outcome.files, second)
    ensures var outcome := EndingOf(env, setup, source, files, first).outcome;
      && outcome.wrote == outcome.changed
      && second == []
      && EndingOf(env, check, source, outcome.files, second) ==
         Finished(Outcome(false, outcome.fallbackCount, false, outcome.files))
  {
    var mode := Mode(setup.allowTranslate, setup.options.force, TranslateAll(setup.provider, first).values, setup.now);
    var again := Mode(check.allowTranslate, check.options.force, map[], check.now);
    var expected := Sync(env, mode, source, files).value;
    SecondSyncChangesNothing(env, mode, again, source, files, expected);
    CheckAfterWriteIsClean(env, mode, setup.options, again, check.options, source, files, expected);
    if check.allowTranslate {
      NothingWanted(env, ReadInputs(env, expected), true, source);
    }
    NothingAsked(second, check.budget);
  }

  /** A sync that is to write, followed by a check: unless the sync was skipped or failed, the check is clean. */
  method SyncThenCheck(env: Env, setup: Setup, check: Setup, source: Flat, files: Files)
      returns (first: Ending, second: Ending)
    requires ValidEnv(env) && DistinctKeys(source) && Nestable(source)
    requires setup.options.write && !setup.options.checkOnly && check.options.checkOnly
    requires check.allowTranslate ==> setup.allowTranslate
    ensures first.Finished? ==>
              && first.outcome.wrote == first.outcome.changed
              && second == Finished(Outcome(false, first.outcome.fallbackCount, false, first.outcome.files))
  {
    var asked, askedAgain;
    first, asked := RunSync(env, setup, source, files);
    second := first;
    if first.Finished? {
      second, askedAgain := RunSync(env, check, source, first.outcome.files);
      CheckIsClean(env, setup, check, source, files, asked, askedAgain);
    }
  }
}
