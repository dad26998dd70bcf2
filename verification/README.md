# Verified models of the repository's automation scripts

The scripts under `scripts/` keep the translated locales in step with the English
one, run child processes under time limits, forward signals, scan source files, check
what an installed package imports, watch a gateway restart, page through issues and
turn review notes into HTML. This project models the parts of them that hold real
algorithms or protocols and proves what those parts are for. `dafny verify
dfyconfig.toml` checks everything.

Each component has a specification (datatypes and functions) with its properties as
lemmas. Code that changes variables in loops or handlers is modelled a second time as
methods over those variables or as a class, with its own branches, and is proved equal
to the specification, so that the properties hold of it. What a specification decides -
which source wins, what a close is worth, where a path resolves, which characters quote -
is stated a second time in terms of files, events, paths or characters and proved of it.

| modules | subject |
|---|---|
| `LocaleSync`, `LocaleSyncRun`, `LocaleSyncCommand`, `SourcePriority` | resolving the keys of a locale, rebuilding its files, checking them; which source wins |
| `TranslationTree`, `TranslationObject` | nested objects and dotted keys, as values and built in place |
| `TranslationMemory`, `Ordering` | the translation memory, its rendering and its index |
| `TranslationBatches`, `BatchTranslator` | the greedy batcher; attempts, retries and splits |
| `ProcessSupervision`, `RunOutcome`, `SignalReraise`, `ChildRun`, `OutputCapture` | child processes with deadlines, what settles them, relayed signals and when they are raised again; bounded capture |
| `SignalForwarding`, `CommandOutcome`, `SignalForwarder` | the registry of child trees and the three ways of leaving; what a command reports |
| `WorkerPool`, `ArgumentScanner`, `ArgumentGrammar` | concurrent file readers; the quote-aware scanner and the calls it reads |
| `ImportClosure`, `Reachability` | import specifiers and the closure of relative imports |
| `LineAssembly`, `RestartProbe` | lines from chunks; outages from probes |
| `LabelBatches` | paged batches |
| `MarkdownHtml`, `MarkdownDocument`, `InlineMarkup` | Markdown lines to HTML; documents and their blocks; escaping and inline code |
| `Collections`, `Text` | shared vocabulary |

What lies outside the scripts is a parameter every theorem quantifies over: the
provider is an arbitrary function of the number of prompts asked before and of the
items; process, timer and signal events come in any order the runtime allows; the
scheduler of the readers picks any worker that can move; probes, pages, file contents
and parsed syntax are arbitrary. Cache keys are an injective function of key and text
hash and never empty; `localeCompare` is any strict total order; text hashes are not
assumed injective.

## What the proofs found

- Syncing twice is stable exactly when the source keys can nest side by side. A key with
  a leading dot, or a key that names an object another key lies in, loses its text on
  the first write and is reported as a fallback on the second run
  (`LocaleSync.StableExactlyWhenNestable`).
- The parent can survive a signal it relayed. A run started after the relay never hears of
  the signal, so the signalled runs may make their attempts to raise it again while that
  run still keeps them from it. Without another signal or a new run the signal can still
  be raised exactly as long as some signalled run has its child's close or its kill timer
  ahead (`SignalReraise.RaisePossibleExactlyWhen`). What strands the parent for good is
  that the last unsignalled run leaves the registry when all others are spent, or that the
  child of the last run to matter closes while its group is alive
  (`StrandsExactlyWhen`, `StrandedForGood`, with a history in `LateStartStrands`). Without
  such a late start it cannot happen (`NoLateStartNoLoss`).
- A forced exit kills the trees registered when the first signal arrived. Of those still
  registered it reaches no tree that was started later (`SignalForwarding.ForcedExitKills`,
  with a history in `ForcedExitMisses`).
- After a signal the registry does not always end the process when its last child tree is
  gone. It arranges no exit exactly when the last tree goes by the end of a gateway, the
  error of a command or the close of a command already given up on, with no earlier close
  left to end it, or when the log of the last such close fails
  (`SignalForwarding.StrandsExactlyWhen`). In every other state without trees the end of a
  log ends the process (`WaitingCanDrain`).
- After a signal the process may also leave with code 1 instead of the signal's, because a
  rejected command makes the main routine end it. Without a new tree, another signal or a
  failure of the main routine's own, that can happen exactly as long as some command's
  promise was rejected or is not called yet (`FailurePossibleExactlyWhen`, with a history in
  `FailedCommandLeavesByMain`). When neither registry nor children can end the process any
  more, which comes about exactly by the end of a gateway after all commands succeeded or
  closed late, or by the last good result, it is left to the force timer, another signal or
  the main routine (`StuckExactlyWhen`, `StrandedStays`, with a history in
  `GatewayStrands`).
- The batcher's running counter is two characters an item above the estimate of the whole
  prompt (`TranslationBatches.RunningCharsMeaning`).
- Two texts are rendered alike exactly when they differ at most in closing a last, unclosed
  backtick; among texts with an even number of backticks rendering loses nothing
  (`InlineMarkup.RenderAlikeExactlyWhen`, `BackticksAreNotRecovered`).

## Model

| member | source | states |
|---|---|---|
| LocaleSync.SecondSyncChangesNothing | scripts/control-ui-i18n.ts:1510-1709 | Whatever the files held, syncing again on the written output gives the same locale, metadata with its time stamp, glossary and memory, and no key is pending; for keys that nest, and a first run that was complete if it had a provider. |
| LocaleSync.StableExactlyWhenNestable | scripts/control-ui-i18n.ts:1510-1709 | From every set of files a second sync without a provider agrees with the first, if and only if no source key starts with a dot and none is a dotted prefix of another. |
| LocaleSync.UnnestableIsUnstable | scripts/control-ui-i18n.ts:1654-1676 | For keys that cannot nest there are files on which the second sync disagrees with the first. |
| LocaleSync.CheckAfterWriteIsClean | scripts/control-ui-i18n.ts:1690-1751 | A check after a written sync reports no change and writes nothing, and a check leaves any files as they are. |
| LocaleSync.CompleteRunTranslatesAll | scripts/control-ui-i18n.ts:1557-1676 | When every batch succeeds the fallback list is empty and translatedKeys, totalKeys and the number of source keys agree. |
| LocaleSync.ResolvesTheSame | scripts/control-ui-i18n.ts:1514-1555 | On what a run left behind, every key resolves to the text it got, keeps its fallback mark, is not pending and adds nothing to the memory. |
| LocaleSync.GetNext | scripts/control-ui-i18n.ts:1530-1606 | After a run the cache key of a source entry holds what the run recorded for it, or else what it held before; other keys' writes never disturb it. |
| LocaleSync.EveryTextHasAnOrigin | scripts/control-ui-i18n.ts:1514-1645 | Every text written was remembered for the key and text, remembered for the same text, written before, given by the provider, or is the English text of a key reported as a fallback. |
| LocaleSync.NextMemoryIsValid | scripts/control-ui-i18n.ts:1530-1606 | The memory keeps one entry a key with non-blank translations, and gains an indexed text hash only through the provider. |
| LocaleSync.ReadsBackWritten | scripts/control-ui-i18n.ts:1497-1507 | Reading the written files gives back every text, the fallback marks and the memory. |
| LocaleSync.WrittenMeta | scripts/control-ui-i18n.ts:1659-1688 | The metadata are those of this locale and source; every key is either translated or a fallback; provider and model are the run's or else the recorded ones; the time is that of the run exactly if anything else is new. |
| LocaleSync.WrittenInOrder | scripts/control-ui-i18n.ts:545-553 | The memory is written in the order of its cache keys and the fallback list in the order of its keys. |
| SourcePriority.SyncFollowsPriority | scripts/control-ui-i18n.ts:1514-1645 | For every source entry: its own memory entry wins unless a provider refreshes a fallback; next the last memory entry of the same text, for a fallback or a key without a text; next the existing text unless refreshed; what is left is asked for and takes the answer, or without one the existing text unless forced, or English. Text, fallback mark, what is asked and the memory entry left behind are all fixed by that order. |
| SourcePriority.WrittenFollowsPriority | scripts/control-ui-i18n.ts:1654-1703 | The same of the files written: the text read back, the fallback list and the memory loaded again. |
| SourcePriority.PriorityDecides | scripts/control-ui-i18n.ts:1514-1645 | The order leaves nothing open: it admits one outcome for each entry. |
| LocaleSyncRun.SyncLocale | scripts/control-ui-i18n.ts:1495-1696 | One sync asks for the pending keys in the greedy batches, throws exactly when they do and their error, and otherwise expects the files of the specification; with a provider the run is then complete. |
| LocaleSyncRun.ResolveKnown | scripts/control-ui-i18n.ts:1510-1555 | The first loop's texts, memory copies, pending items and fallback marks, although it reads the memory it is changing. |
| LocaleSyncRun.TranslatePending | scripts/control-ui-i18n.ts:1557-1607 | The batches are answered in order up to the first failure; on success texts and memory hold every answer. |
| LocaleSyncRun.StoreBatch | scripts/control-ui-i18n.ts:1587-1606 | Of one batch the items with a text are added to the texts and the memory, in order; the others are passed over. |
| LocaleSyncRun.FillRest | scripts/control-ui-i18n.ts:1631-1645 | What the provider left out gets the existing text unless forced, else the English one, and is marked accordingly. |
| LocaleSyncRun.FallbackListsAgree | scripts/control-ui-i18n.ts:1663-1665 | The marks collected in two loops sort to one list that depends only on which keys fall back. |
| LocaleSyncRun.Rebuild | scripts/control-ui-i18n.ts:1652-1657 | The run stops at a placeholder mismatch; otherwise the nested object, built in place, holds the texts in source order. |
| LocaleSyncRun.BuildMeta | scripts/control-ui-i18n.ts:1659-1688 | The field comparison renews the time stamp exactly when another field changes. |
| LocaleSyncCommand.RunSync | scripts/control-ui-i18n.ts:1488-1751 | One run for every combination of options: skipped if the provider's credentials may be missing and its error says so, failed with its error, stopped by a placeholder mismatch, or finished with what changed and what was written. |
| LocaleSyncCommand.WriteFiles | scripts/control-ui-i18n.ts:1698-1750 | The early end and the guarded writes together mean: changed if any file differs, and written if changed and to be written. |
| LocaleSyncCommand.SyncThenCheck | scripts/control-ui-i18n.ts:1705-1751 | Running the sync and then a check on the files it left: unless the sync was skipped or failed, the check reports no change, the same fallbacks, and writes nothing. |
| LocaleSyncCommand.CheckIsClean | scripts/control-ui-i18n.ts:1705-1751 | The check asks the provider for nothing and is clean, whatever its provider would answer. |
| LocaleSyncCommand.EndingMeaning | scripts/control-ui-i18n.ts:1608-1751 | A run fails with the provider's error, is skipped without touching anything if that error may be about credentials, stops if some text breaks its placeholders, or leaves the expected files exactly if they differ and are to be written outside a check. |
| LocaleSyncCommand.AuthErrorMeaning | scripts/control-ui-i18n.ts:918-926 | Which messages are taken for missing credentials: those that say one of four phrases in whatever case. |
| TranslationTree.FlattenUndoesBuild | scripts/control-ui-i18n.ts:366-393 | Nesting the entries of a map in any order and flattening the result gives the map back, if and only if its keys can nest. |
| TranslationTree.BuildUndoesFlatten | scripts/control-ui-i18n.ts:366-393 | Flattening an object without empty names, dots in names or empty subobjects and nesting the result gives the object back, property order included. |
| TranslationTree.NotNestableLosesKey | scripts/control-ui-i18n.ts:378-393 | For keys that cannot nest, a key of the map is missing after the round trip. |
| TranslationTree.LookupSet | scripts/control-ui-i18n.ts:378-393 | Setting a path gives it its text, destroys the texts at paths above and below it, and keeps all others. |
| TranslationTree.FlattenTranslations | scripts/control-ui-i18n.ts:366-376 | The recursive walk adds to the map it is handed exactly the texts of the object under their dotted keys. |
| TranslationTree.EmitSound | scripts/control-ui-i18n.ts:366-376 | Every flattened entry is the text a path of the object leads to, under that path's dotted key. |
| TranslationTree.EmitComplete | scripts/control-ui-i18n.ts:366-376 | Every text a path leads to is flattened. |
| TranslationObject.TranslationMap.SetNestedValue | scripts/control-ui-i18n.ts:378-393 | The object changed in place is the one the specification gives; the tree stays a tree and only its own and new objects are touched. |
| TranslationMemory.RenderThenLoad | scripts/control-ui-i18n.ts:524-553 | Loading a rendered memory finds the same entry for every key, and rendering it again gives the same lines. |
| TranslationMemory.LoadTranslationMemory | scripts/control-ui-i18n.ts:524-543 | Loading keeps the last usable line of a key at the key's first place and drops unusable lines. |
| TranslationMemory.LoadMeaning | scripts/control-ui-i18n.ts:524-543 | A key leads to its last line with a translation that is not blank, and to nothing if it has none. |
| TranslationMemory.BuildTranslationMemoryByTextHash | scripts/control-ui-i18n.ts:555-567 | The loop builds the index of the specification. |
| TranslationMemory.ByTextHashMembers | scripts/control-ui-i18n.ts:555-567 | A hash is in the index exactly when the memory has an entry for it in this locale with a usable text, and then leads to one. |
| TranslationMemory.ByTextHashIsLast | scripts/control-ui-i18n.ts:555-567 | A text hash leads to the last memory entry for it in this language with a translation that is not blank. |
| Ordering.SortIsCanonical | scripts/control-ui-i18n.ts:545-553 | Sorting by key depends only on which entries there are. |
| TranslationBatches.BuildTranslationBatches | scripts/control-ui-i18n.ts:1294-1318 | The batches hold the items in order and within the limits, and no other contiguous partition within them has fewer batches. |
| TranslationBatches.GreedyIsOptimal | scripts/control-ui-i18n.ts:1294-1318 | Batches none of which could have taken the next item are never more than those of another allowed partition. |
| TranslationBatches.GreedyIsUnique | scripts/control-ui-i18n.ts:1294-1318 | Only one allowed partition leaves no room for a next item. |
| TranslationBatches.RunningCharsMeaning | scripts/control-ui-i18n.ts:955-957 | The running counter is two plus key, text and ten for each item, and exceeds the prompt estimate by two an item. |
| BatchTranslator.TranslateBatch | scripts/control-ui-i18n.ts:1417-1479 | The loop with its retry, split, break and last error asks the prompts and returns the result the protocol specifies, for every provider. |
| BatchTranslator.AsksAsPromised | scripts/control-ui-i18n.ts:1417-1479 | Every prompt of a run: the first asks for all items; an ordinary failure is followed by the same items once, and ends the run the second time; a timeout is followed by the first half, rounded up, and ends the run for a single item; an answer ends the run or is followed by the second half of a window whose first half is done. The answered prompts ask for the items in order, each once, and for all of them on success. |
| BatchTranslator.TimeoutMeaning | scripts/control-ui-i18n.ts:914-916 | A failure counts as a timeout exactly when its message says "timed out" somewhere, in whatever case. |
| BatchTranslator.JudgeMeaning | scripts/control-ui-i18n.ts:1433-1444 | A reply counts exactly when every item has a text that is not blank, and then gives these texts; otherwise the first item without one is named. |
| BatchTranslator.ReadReply | scripts/control-ui-i18n.ts:1434-1444 | A reply is used exactly when every item has a non-blank text in it; else the first item without one names the error. |
| BatchTranslator.CostBound | scripts/control-ui-i18n.ts:1417-1479 | At most 2(2n-1) prompts and a split depth of at most the logarithm of n, rounded up, for every provider. |
| BatchTranslator.CostBoundIsTight | scripts/control-ui-i18n.ts:1417-1479 | For every batch there is a provider that makes a successful run attain both bounds. |
| BatchTranslator.CeilLog2IsLeast | scripts/control-ui-i18n.ts:1452 | Halving with rounding up reaches one after the least number of steps whose power of two reaches n. |
| BatchTranslator.SplittingPreservesMeaning | scripts/control-ui-i18n.ts:1451-1467 | With a key-wise provider a successful run returns the map an unsplit prompt would, whatever timed out or was retried. |
| BatchTranslator.BatchingPreservesMeaning | scripts/control-ui-i18n.ts:1580-1607 | The same for all batches of a sync together. |
| BatchTranslator.SuccessCovers | scripts/control-ui-i18n.ts:1435-1466 | Success means a non-blank text for each key of the batch and for no other key, whoever answers. |
| BatchTranslator.ThrowsTheLastFailure | scripts/control-ui-i18n.ts:1445-1478 | The error thrown is that of the last prompt asked. |
| BatchTranslator.BatchesThrowTheLastFailure | scripts/control-ui-i18n.ts:1579-1618 | The error that ends all batches is that of the last prompt asked, numbered through all of them. |
| OutputCapture.CaptureIsTail | scripts/control-ui-i18n.ts:981-992 | For every chunking the capture is the last max characters of the output, and kept and dropped characters add up to all of it. |
| OutputCapture.CompleteCapture | scripts/control-ui-i18n.ts:981-992 | Nothing is counted as dropped exactly when the output fits, and exactly when the capture is all of it. |
| OutputCapture.LimitMeaning | scripts/control-ui-i18n.ts:973-979 | A positive limit is cut to a whole number but not below one; without one it is 1,048,576. |
| OutputCapture.ByteCaptureIsTail | scripts/openclaw-cross-os-release-checks.ts:3880-3895 | For every chunking of ASCII output the byte form keeps the same tail as the character form. |
| ProcessSupervision.RunSafety | scripts/control-ui-i18n.ts:1122-1220 | Over every history a run settles at most once, never resolves after its timeout, is settled late by its close only once its group was found dead or sent SIGKILL, with code 0 delivers its complete output, and once settled without a signal has no timer, handler or registration left. |
| ProcessSupervision.OutcomesAreFinal | scripts/control-ui-i18n.ts:1122-1136 | No later event takes back or changes a settlement. |
| ProcessSupervision.StepKeepsInv | scripts/control-ui-i18n.ts:1078-1220 | Every event keeps the invariant of every run. |
| ProcessSupervision.ReraiseIsSafe | scripts/control-ui-i18n.ts:1001-1008 | When the parent raises a signal, every registered run has recorded one, is done, and its group is dead or killed; and no handler is left to catch it. |
| RunOutcome.SettledAsDue | scripts/control-ui-i18n.ts:1137-1163 | Over every history a promise not rejected by the child's error is settled over its only close: late if its deadline passed, else failed exactly if the code, 1 if missing, is not 0 and failures reject, over-long exactly if it is 0 and the output does not fit, else resolved with that code and the last characters written. |
| RunOutcome.OneIsDue | scripts/control-ui-i18n.ts:1137-1163 | For a close exactly one outcome is due. |
| RunOutcome.ClosesOnce | scripts/control-ui-i18n.ts:1201-1220 | No history closes a child twice. |
| RunOutcome.NoCloseIsLost | scripts/control-ui-i18n.ts:1165-1178 | Unless a signal was relayed, a close settles its run or waits for a kill timer that is set and will settle it. |
| RunOutcome.DeadlineStands | scripts/control-ui-i18n.ts:1179-1183 | The deadline is set until it passes or the run is settled. |
| RunOutcome.WithoutGroup | scripts/control-ui-i18n.ts:1111-1121 | Without a process group no close is held back and no timer set for a relayed signal. |
| SignalReraise.RaisePossibleExactlyWhen | scripts/control-ui-i18n.ts:1001-1008 | From any history the runs can still end in a way that raises the signal, without another signal or a new run, if and only if it was raised already or a signalled run has its close or its kill timer ahead. |
| SignalReraise.StrandsExactlyWhen | scripts/control-ui-i18n.ts:1131-1133 | An event strands the parent if and only if nobody has raised the signal, every other registered run waits without an attempt left, and the event takes the last unsignalled run out of the registry or closes the child of a done run whose group is alive. |
| SignalReraise.StrandedForGood | scripts/control-ui-i18n.ts:1201-1214 | A stranded parent stays stranded through every continuation without a new run or another signal. |
| SignalReraise.NoLateStartNoLoss | scripts/control-ui-i18n.ts:1033-1110 | If no run starts after a relayed signal, from then on the signal has been raised, no run is registered, or an armed timer is still to attempt it. |
| SignalReraise.LateStartStrands | scripts/control-ui-i18n.ts:1131-1133 | A concrete history with a late start that strands the parent. |
| ChildRun.Child.Settle | scripts/control-ui-i18n.ts:1122-1136 | The handler's whole new state, and whether the promise is called. |
| ChildRun.Child.FinishClose | scripts/control-ui-i18n.ts:1137-1165 | Which outcome a close gives, in the order of the checks. |
| ChildRun.Child.OnTimeout | scripts/control-ui-i18n.ts:1166-1184 | The deadline arms the kill timer unless a grace period is running. |
| ChildRun.Child.OnKillGrace | scripts/control-ui-i18n.ts:1095-1101 | Either kill timer: SIGKILL, then a deferred close or the attempt to re-raise. |
| ChildRun.Child.OnClose | scripts/control-ui-i18n.ts:1201-1220 | The close of a child in each of its five cases, with the attempt to re-raise it makes. |
| ChildRun.Child.OnParentSignal | scripts/control-ui-i18n.ts:1079-1102 | A relayed signal, for a live and for a dead group. |
| ChildRun.Parent.MaybeReraise | scripts/control-ui-i18n.ts:1001-1008 | The loop over the registry raises the signal exactly when every registered run is ready. |
| ChildRun.Parent.ParentSignal | scripts/control-ui-i18n.ts:1078-1110 | Running every installed handler in order extends the history by the signal; if it raises the signal, every registered run is done and no handler is left. |
| ChildRun.Parent.Close | scripts/control-ui-i18n.ts:1201-1220 | A close handled in place extends the history and touches no other run; if it raises the signal, every registered run is done and no handler is left. |
| ChildRun.Parent.KillGraceFires | scripts/control-ui-i18n.ts:1095-1101 | The same for either kill timer. |
| SignalForwarding.ExitIsRight | scripts/openclaw-cross-os-release-checks.ts:68-96 | The registry's two exits leave with 129, 130 or 143 for the first signal in the history, the unforced one only when no child tree is registered; any other exit is the main routine's, with code 1. |
| SignalForwarding.ForcedExitKills | scripts/openclaw-cross-os-release-checks.ts:74-83 | A forced exit kills every tree registered when the first signal of the history arrived; of the trees still registered it reaches exactly those started before that signal. |
| SignalForwarding.ForcedExitMisses | scripts/openclaw-cross-os-release-checks.ts:74-83 | A concrete history in which a tree started after the signal outlives the forced exit. |
| SignalForwarding.RecordIsOfFirstSignal | scripts/openclaw-cross-os-release-checks.ts:69-84 | What the module keeps of a signal - code and trees to kill - is that of the first signal in the history, with the trees registered then, whatever comes later. |
| SignalForwarding.StrandsExactlyWhen | scripts/openclaw-cross-os-release-checks.ts:87-96 | With a signal forwarded, an event leaves no tree and no pending exit if and only if the last tree goes by a gateway's end, a command's error or the close of a command given up on with no exit pending, or the last pending exit's log fails; all but the gateway's end leave a promise that was rejected or can still be. |
| SignalForwarding.StrandedStays | scripts/openclaw-cross-os-release-checks.ts:78-83 | In such a state the force timer is armed; only it, another signal or the main routine ends the process, and nothing but a new tree changes the state. |
| SignalForwarding.WaitingCanDrain | scripts/openclaw-cross-os-release-checks.ts:4047-4050 | In any other state without trees the end of a command's log ends the process with the first signal's code. |
| SignalForwarding.GatewayStrands | scripts/openclaw-cross-os-release-checks.ts:3214-3221 | A concrete history in which the end of a gateway leaves nothing that the children could still do to end the process. |
| SignalForwarding.FailurePossibleExactlyWhen | scripts/openclaw-cross-os-release-checks.ts:618-629 | The children may still make the main routine end the process with code 1 if and only if some command's promise was rejected or is not called yet. |
| SignalForwarding.StuckExactlyWhen | scripts/openclaw-cross-os-release-checks.ts:3214-3221 | The events after which neither registry nor children can end the process: the end of a gateway, the last tree, when no command can be rejected, or the last good result with no tree and no exit pending; no others. |
| SignalForwarding.FailedCommandLeavesByMain | scripts/openclaw-cross-os-release-checks.ts:4035-4041 | A concrete history in which a command fails after SIGTERM and the process leaves with code 1 instead of 143. |
| SignalForwarding.LateCommandHasNoResult | scripts/openclaw-cross-os-release-checks.ts:3956-4075 | Over every history a command's promise is called at most once, and never with a result when its close came after a signal of the history or it timed out. |
| SignalForwarding.LateCloseMeaning | scripts/openclaw-cross-os-release-checks.ts:4043-4050 | A close is treated as late if and only if a signal came before it in the history. |
| CommandOutcome.CalledAsDue | scripts/openclaw-cross-os-release-checks.ts:3956-4075 | Over every history: nothing is called before the log is closed; then a failed log rejects, a command that failed or was given up on is rejected, one that closed after a signal is not called, and any other close rejects if it timed out or was checked and not 0, else resolves with its code, 1 if missing. |
| CommandOutcome.KilledExactlyWhen | scripts/openclaw-cross-os-release-checks.ts:3974-4050 | A command's group has been sent SIGKILL exactly if it timed out, closed or failed after a signal, or was registered at the first signal when the force timer fired. |
| CommandOutcome.TimersAlwaysRun | scripts/openclaw-cross-os-release-checks.ts:3994-4011 | While a command runs, the timer of its limit is set until it fires, and the last wait from then on. |
| SignalForwarding.StepKeepsInv | scripts/openclaw-cross-os-release-checks.ts:68-96 | Every event keeps the invariant of the registry and of every child. |
| SignalForwarder.Forwarder.Register | scripts/openclaw-cross-os-release-checks.ts:3671-3680 | A new child tree joins the registry, and the objects still follow the history of events. |
| SignalForwarder.Forwarder.OnSignal | scripts/openclaw-cross-os-release-checks.ts:69-84 | The exit code is that of the first signal in the history; the process ends at once exactly with no tree registered. |
| SignalForwarder.Forwarder.OnForceTimer | scripts/openclaw-cross-os-release-checks.ts:78-83 | The process ends with the first signal's code after every tree registered at the first signal of the history was killed. |
| SignalForwarder.Forwarder.OnClose | scripts/openclaw-cross-os-release-checks.ts:4043-4075 | The tree leaves the registry, a command that closed after a signal only once killed, and the objects follow the history. |
| SignalForwarder.Forwarder.OnError | scripts/openclaw-cross-os-release-checks.ts:4035-4041 | The same for a child's error. |
| SignalForwarder.Forwarder.OnLogClosed | scripts/openclaw-cross-os-release-checks.ts:3942-3969 | A command's promise has been called at most once, never with a result after a late close or a timeout; the process ends only with no tree left and the first signal's code. |
| SignalForwarder.Forwarder.OnMainFailure | scripts/openclaw-cross-os-release-checks.ts:618-629 | The main routine ends the process with code 1; over a command only when that command's promise was rejected. |
| WorkerPool.ReadRuntimeSourceFiles | scripts/check-temp-path-guardrails.ts:223-263 | Under every interleaving and any failed reads the files come out as if read one after the other, each index is claimed once and in order, and the pool stops within three moves an index and one a worker. |
| WorkerPool.FilesMeaning | scripts/check-temp-path-guardrails.ts:223-263 | The files are those with a path that could be read, each once, in the order of their paths and under the shown form of them. |
| WorkerPool.ClaimKeepsInv | scripts/check-temp-path-guardrails.ts:234-242 | A claim keeps the pool's invariant and lowers its measure. |
| WorkerPool.ReadKeepsInv | scripts/check-temp-path-guardrails.ts:243-253 | A completed or failed read keeps the invariant and lowers the measure. |
| ArgumentScanner.SplitTopLevelArguments | scripts/check-temp-path-guardrails.ts:98-162 | The loop with its three counters and quote state returns the specified arguments. |
| ArgumentScanner.CutIsExact | scripts/check-temp-path-guardrails.ts:98-162 | The untrimmed pieces are the only ones that join to the source by commas, hold no top-level comma and, but for the last, end with quotes and brackets closed. |
| ArgumentScanner.CutRejoins | scripts/check-temp-path-guardrails.ts:98-162 | For every string the untrimmed pieces joined by commas give it back. |
| ArgumentScanner.SplitUndoesJoin | scripts/check-temp-path-guardrails.ts:98-162 | Every list of well-cut pieces, the last one not blank, comes back trimmed from its comma-join. |
| ArgumentScanner.BlankLastIsDropped | scripts/check-temp-path-guardrails.ts:156-160 | A blank piece behind the last comma is no argument; blank ones before it are. |
| ArgumentScanner.FindMatchingParen | scripts/check-temp-path-guardrails.ts:73-96 | The index returned is the first one that closes the parenthesis outside quotes, and -1 means there is none. |
| ArgumentScanner.BalancedCloses | scripts/check-temp-path-guardrails.ts:73-96 | A text with balanced quotes and parentheses is closed right behind it, whatever follows. |
| ArgumentScanner.CallReadsBack | scripts/check-temp-path-guardrails.ts:188-194 | Wherever a printed call stands, its closing parenthesis is found and its arguments come back trimmed. |
| ArgumentGrammar.CutAtOwnCommas | scripts/check-temp-path-guardrails.ts:98-162 | For every list of arguments made of plain characters, texts between two single, double or back quotes with backslash escapes, and groups in round, square or curly brackets, the commas between them cut, all of them, and no comma inside quotes or brackets does. |
| ArgumentGrammar.ShownCallReadsBack | scripts/check-temp-path-guardrails.ts:188-194 | A call printed from that grammar is closed where it ends and its arguments come back trimmed. |
| ArgumentGrammar.QuotedIsOneArgument | scripts/check-temp-path-guardrails.ts:47-71 | Whatever stands between two equal marks of the three, without that mark or a backslash, is one argument. |
| ArgumentScanner.QuoteScanState.BeginQuotedSection | scripts/check-temp-path-guardrails.ts:47-53 | A quote character opens a section, any other changes nothing. |
| ArgumentScanner.QuoteScanState.ConsumeQuotedChar | scripts/check-temp-path-guardrails.ts:55-71 | Inside quotes a character is consumed, with escapes and the closing quote handled; outside nothing happens. |
| Text.TrimMeaning | scripts/check-temp-path-guardrails.ts:152-160 | Trimming cuts only white space, cuts all of it at both ends, and leaves nothing exactly of a blank string. |
| Text.SpaceMeaning | scripts/check-temp-path-guardrails.ts:152-160 | The 25 characters that count as white space, one by one. |
| ImportClosure.CollectInstalledPluginSdkZodArtifactErrors | scripts/openclaw-npm-postpublish-verify.ts:571-624 | On cyclic graphs too, nothing is reported if and only if every file reachable from the entry by the specifiers in its syntax is present, regular, small enough, parsable and free of zod imports; what is reported is wrong with a reachable file. |
| ImportClosure.Inspect | scripts/openclaw-npm-postpublish-verify.ts:585-620 | One file is good, and yields what the specifiers of its syntax resolve to, or has the problem reported. |
| ImportClosure.ResolveInstalledDistRelativeImport | scripts/openclaw-npm-postpublish-verify.ts:535-569 | The loop returns the specified resolution of ResolutionMeaning. |
| ImportClosure.ResolutionMeaning | scripts/openclaw-npm-postpublish-verify.ts:535-569 | A specifier that starts with a dot resolves to the path it joins to if something is there below dist, else to that path with .js, .mjs or .cjs, else to index.js, index.mjs or index.cjs in it, the first that is there; any other specifier resolves to nothing. |
| ImportClosure.RelativeImportIsFollowed | scripts/openclaw-npm-postpublish-verify.ts:612-620 | A file that a good file of the closure imports by its own relative path is in the closure. |
| ImportClosure.GoodMeaning | scripts/openclaw-npm-postpublish-verify.ts:585-610 | A file is good exactly if it is present, regular, of at most 6,291,456 bytes and parsable, and no import, export, dynamic import or require node its program reaches names zod or a path below zod. |
| ImportClosure.FirstAcceptableIsFirst | scripts/openclaw-npm-postpublish-verify.ts:555-568 | Resolution gives the first candidate that exists below dist, and nothing only if there is none. |
| ImportClosure.ExtractImportSpecifiers | scripts/openclaw-npm-postpublish-verify.ts:690-736 | The specifiers are exactly the non-empty ones of import, export, dynamic import and require nodes the program reaches, each once. |
| Reachability.SearchEnds | scripts/openclaw-npm-postpublish-verify.ts:578-583 | A finished worklist has visited exactly what paths from the start reach. |
| LineAssembly.ChunkingIsInvisible | scripts/bench-gateway-restart.ts:965-971 | For every way of cutting a text, inside a line end too, lines and carry are those of the whole text. |
| LineAssembly.WriteThenSplit | scripts/bench-gateway-restart.ts:965-971 | Lines written with either line end and an unfinished one are read back as they were. |
| LineAssembly.FlushDeliversCarryOnce | scripts/bench-gateway-restart.ts:973-990 | A final partial flush delivers a non-empty carry once, and flushing again delivers nothing. |
| LineAssembly.FlushThenChunks | scripts/bench-gateway-restart.ts:973-990 | At any time a flush delivers a non-empty carry as a line, and the chunks after it are cut into lines as if they were the first. |
| LineAssembly.LatestMeaning | scripts/bench-gateway-restart.ts:1255-1258 | Counted from the end, the chunks kept are those received, thirty of them if there are as many. |
| LineAssembly.OutputBuffers.OnChunk | scripts/bench-gateway-restart.ts:1248-1264 | The stream's lines and carry follow its chunks and flushes, the other stream is untouched, and the chunks kept are the latest 30 of all received. |
| LineAssembly.OutputBuffers.FlushOutputLineBuffers | scripts/bench-gateway-restart.ts:973-990 | Both carries are flushed if partial lines are wanted; otherwise nothing changes. |
| RestartProbe.WaitForRestartProbe | scripts/bench-gateway-restart.ts:675-760 | The loop stops at the first success after an outage, or where time is up or the caller has seen enough, not earlier and not later, reports exactly the attempts made, and pushes the transitions onto the event list. |
| RestartProbe.ReportMeaning | scripts/bench-gateway-restart.ts:731-759 | The status reported is the last; an outage runs from the first attempt not answered with 200 to the first answer after it, is measured only once over and, with probes in order, never negative; without one the time of the last answer is reported. |
| RestartProbe.FirstDownMeaning | scripts/bench-gateway-restart.ts:731-733 | The outage time is that of the first attempt that was not up, and missing exactly if all were up. |
| RestartProbe.StopsMeaning | scripts/bench-gateway-restart.ts:693-706 | The loop ends with the first 200 after a failure, where no round is left, or where the caller is done and every attempt, at least one, was answered with 200. |
| RestartProbe.FirstKindMeaning | scripts/bench-gateway-restart.ts:728-730 | The first error named is that of the first attempt that names one. |
| RestartProbe.EventsMeaning | scripts/bench-gateway-restart.ts:719-725 | Each transition's event carries iteration, path, status, error and the time from the start of the sample. |
| RestartProbe.CollapseMeaning | scripts/bench-gateway-restart.ts:712-727 | The transitions are the attempts at which status or error changes, all of them, once each and in order. |
| LabelBatches.FetchOpenLabelItemBatches | scripts/label-open-issues.ts:575-635 | For any pages and limit the batches hold the first items up to the limit in page order; all but the last have 500, indices are consecutive, and each knows the items yielded so far and the total count told by then; no page is asked for beyond the first where limit or pages end. |
| LabelBatches.WorkBatchesAreUnique | scripts/label-open-issues.ts:601-634 | Sizes, indices and counts as promised leave no choice: the batches are the successive stretches of 500 of their items. |
| LabelBatches.KnownAtMeaning | scripts/label-open-issues.ts:590-617 | The total count a full batch carries is the one told last up to the page of its last item. |
| LabelBatches.AddPage | scripts/label-open-issues.ts:601-617 | One page is taken up to the limit; full batches yielded on the way carry its total count. |
| MarkdownHtml.PageShowsEverything | scripts/ios-app-review-notes-pdf.swift:82-157 | Without tags and unescaped, the page reads as fixed text and, once each and in source order, the payload of every heading, item, continuation, paragraph and code line, inline markup without its backticks. |
| MarkdownHtml.NothingIsLost | scripts/ios-app-review-notes-pdf.swift:82-157 | The blocks behind the page hold the payload of every line, once and in source order, and nothing else. |
| MarkdownHtml.MarkdownToHtml | scripts/ios-app-review-notes-pdf.swift:53-236 | The line loop over its five variables builds that page and puts it into its frame. |
| MarkdownHtml.CodeHtml | scripts/ios-app-review-notes-pdf.swift:69-76 | Escaping a code block's joined lines is joining its escaped lines. |
| MarkdownHtml.FeedKeepsPayload | scripts/ios-app-review-notes-pdf.swift:82-152 | Each line keeps the invariants (no paragraph in a code block or after a list item) and adds exactly its payload. |
| MarkdownDocument.DocumentReadsBack | scripts/ios-app-review-notes-pdf.swift:82-157 | A document of paragraphs, code blocks, headings and list items with continuation lines becomes exactly the blocks of its sections: two spacers above a second-level heading, a rule below the first two levels, adjacent lines in one paragraph. |
| MarkdownDocument.EveryTextIsADocument | scripts/ios-app-review-notes-pdf.swift:82-157 | Every sequence of lines is such a document, so that this says of every text which blocks it becomes. |
| MarkdownDocument.TextHtml | scripts/ios-app-review-notes-pdf.swift:60-76 | The HTML of paragraphs and code blocks. |
| MarkdownDocument.TitleHtml | scripts/ios-app-review-notes-pdf.swift:111-121 | The HTML of a heading; its level names the tag. |
| MarkdownDocument.ItemHtml | scripts/ios-app-review-notes-pdf.swift:125-152 | The HTML of list items with their markers and of continuation lines. |
| MarkdownDocument.DecorationHtml | scripts/ios-app-review-notes-pdf.swift:114-121 | The HTML of spacers and of the rule of 85 dashes. |
| InlineMarkup.UnescapeUndoesEscape | scripts/ios-app-review-notes-pdf.swift:11-29 | Unescaping an escaped text gives it back. |
| InlineMarkup.HtmlEscaped | scripts/ios-app-review-notes-pdf.swift:11-29 | The loop appends the specified escape of every character. |
| InlineMarkup.EscapeHasNoTags | scripts/ios-app-review-notes-pdf.swift:11-29 | Escaped text holds no angle bracket and no double quote. |
| InlineMarkup.InlineTagsAreBalanced | scripts/ios-app-review-notes-pdf.swift:31-41 | For any number of backticks code tags open and close in turn and none stays open. |
| InlineMarkup.InlineKeepsText | scripts/ios-app-review-notes-pdf.swift:31-41 | Without tags and unescaped, inline markup is the source without its backticks. |
| InlineMarkup.InlineText | scripts/ios-app-review-notes-pdf.swift:31-36 | Text without a backtick is only escaped. |
| InlineMarkup.InlineCode | scripts/ios-app-review-notes-pdf.swift:31-41 | What two backticks enclose becomes code, what stands before them is only escaped, and what follows is rendered by itself. |
| InlineMarkup.InlineOpenCode | scripts/ios-app-review-notes-pdf.swift:31-41 | What a last, unclosed backtick opens is code to the end. |
| InlineMarkup.RenderAlikeExactlyWhen | scripts/ios-app-review-notes-pdf.swift:31-41 | Two texts have the same HTML if and only if they are the same once a last, unclosed backtick is closed. |
| InlineMarkup.BackticksAreNotRecovered | scripts/ios-app-review-notes-pdf.swift:38-40 | One backtick and two are different texts with the same HTML. |

## Left out

- LocaleSync.SecondSyncChangesNothing: requires that a run with a provider was complete (no failed batch) and that the second run has no provider the first lacked, because a new provider rightly refreshes fallbacks.
- SourcePriority.WrittenFollowsPriority: requires keys that can nest, because the written locale loses others; SyncFollowsPriority does not.
- LocaleSync.CompleteRunTranslatesAll: does not say that texts match the current English text; the sync keeps existing translations when the English text changes.
- LocaleSyncCommand.WriteFiles: compares parsed contents, not bytes, so a file that only differs in formatting does not count as changed; an absent file reads as an empty one.
- TranslationObject.TranslationMap.SetNestedValue: is written as a descent by recursion where the source moves a cursor in a loop.
- TranslationTree.FlattenUndoesBuild: objects keep insertion order for all names; JavaScript's early place for integer-like names and inherited names such as `__proto__` are not modelled.
- OutputCapture.ByteCaptureIsTail: bytes are characters, which is exact for ASCII; decoding at chunk borders is not modelled.
- ProcessSupervision.RunSafety: a settlement by the child's error event is only claimed to be the first; the captured standard error and its diagnostic lines are not modelled.
- ProcessSupervision.ReraiseIsSafe: without process groups the group counts as dead, as in the code; process trees on Windows and what the runtime does with a raised signal, or with one that meets no handler, are not modelled.
- ArgumentGrammar.CutAtOwnCommas: closing brackets nothing opened are outside the grammar; CutIsExact covers them relative to the scanner's state.
- SignalForwarding.ExitIsRight: the signals relayed to children other than SIGKILL have no effect of their own, and heartbeats are not modelled. Of the main routine only its failures are: they may come at any time, or over a rejected command; its normal end and what it awaits are not.
- ImportClosure.ExtractImportSpecifiers: starts from a parsed syntax graph with finitely many nodes; parsing is not modelled, and how paths are joined is a function.
- ImportClosure.CollectInstalledPluginSdkZodArtifactErrors: assumes that the entry path is not empty and nothing exists at an empty path.
- RestartProbe.WaitForRestartProbe: the deadline and the end of the process are the end of the rounds.
- LabelBatches.FetchOpenLabelItemBatches: the log lines are not modelled; batches are collected, not yielded one by one.
- MarkdownHtml.MarkdownToHtml: the text of the fixed frame around the body is a parameter; trimming and the heading and list patterns are functions.
- InlineMarkup.HtmlEscaped: goes through single characters, while Swift goes through grapheme clusters: a special character joined with a combining mark is escaped here and not in the source.
- TypeScript, JSON, hashing, placeholder extraction and the formatter are functions or absent; glossary contents pass through unread.
- `restoreReplacementCorruptedStringLiterals`, the readers with a character limit, and median, percentile and averages would only add simpler members.
- Spawning, sockets, HTTP, file systems, clocks, argument parsing, usage texts, reports and PDF drawing.
