/**
  Translating one batch: two attempts, a retry after an ordinary failure, and a split
  into two halves after a prompt timeout. The provider is an arbitrary function of
  how many prompts were asked before and of the items asked for.
*/
module BatchTranslator {
  import opened Collections
  import opened Text
  import opened TranslationBatches

  const TRANSLATE_MAX_ATTEMPTS := 2

  /** What a prompt brings back: the text values of the parsed reply, or an error message. */
  datatype Answer = Parsed(values: map<string, string>) | Failed(message: string)

  datatype Result = Translated(values: map<string, string>) | Threw(message: string)

  /** A result with the items asked for by each prompt in turn, and the deepest split it needed. */
  datatype Run = Run(result: Result, windows: seq<seq<Item>>, depth: nat)

  type Provider = (nat, seq<Item>) -> Answer

  /** Lower case as far as it matters for ASCII patterns; the Kelvin sign is the one other letter that becomes one. */
  function Lower(s: string): string
  {
    seq(|s|, i requires 0 <= i < |s| =>
      if 'A' <= s[i] <= 'Z' then (s[i] as int + 32) as char else if s[i] == '\U{212A}' then 'k' else s[i])
  }

  predicate IsPromptTimeout(message: string)
  {
    Contains(Lower(message), "timed out")
  }

  predicate HasTranslation(values: map<string, string>, item: Item)
  {
    item.key in values && !IsBlank(values[item.key])
  }

  function Keys(items: seq<Item>): set<string>
  {
    set item | item in items :: item.key
  }

  /** What the first item without a usable value makes the attempt throw. */
  function MissingMessage(values: map<string, string>, items: seq<Item>): string
    requires exists item :: item in items && !HasTranslation(values, item)
  {
    if !HasTranslation(values, items[0]) then "missing translation for " + items[0].key
    else MissingMessage(values, items[1..])
  }

  /** One attempt judged: usable only when every item got a non-blank value. */
  function Judge(answer: Answer, items: seq<Item>): Result
  {
    match answer
    case Failed(message) => Threw(message)
    case Parsed(values) =>
      if forall item :: item in items ==> HasTranslation(values, item)
      then Translated(map key | key in Keys(items) :: values[key])
      else Threw(MissingMessage(values, items))
  }

  /** The item has a text, and the text is not blank. */
  predicate IsAnswered(values: map<string, string>, item: Item)
  {
    item.key in values && Trim(values[item.key]) != ""
  }

  /**
    A reply counts exactly when every item has a text in it, and then for these texts;
    otherwise the first item without one is what went wrong.
  */
  lemma {:induction false} JudgeMeaning(values: map<string, string>, items: seq<Item>)
    ensures var judged := Judge(Parsed(values), items);
      if forall i :: 0 <= i < |items| ==> IsAnswered(values, items[i]) then
        && judged.Translated? && judged.values.Keys == (set i | 0 <= i < |items| :: items[i].key)
        && forall key :: key in judged.values ==> judged.values[key] == values[key]
      else exists i :: 0 <= i < |items| && !IsAnswered(values, items[i])
             && (forall k :: 0 <= k < i ==> IsAnswered(values, items[k]))
             && judged == Threw("missing translation for " + items[i].key)
  {
    forall item: Item ensures IsAnswered(values, item) <==> HasTranslation(values, item) {
      if item.key in values {
        var before, after := TrimMeaning(values[item.key]);
      }
    }
    if exists item :: item in items && !HasTranslation(values, item) {
      var i := FirstMissing(values, items);
    }
  }

  lemma {:induction false} FirstMissing(values: map<string, string>, items: seq<Item>) returns (i: nat)
    requires exists item :: item in items && !HasTranslation(values, item)
    ensures i < |items| && !HasTranslation(values, items[i])
    ensures forall k :: 0 <= k < i ==> HasTranslation(values, items[k])
    ensures MissingMessage(values, items) == "missing translation for " + items[i].key
  {
    if !HasTranslation(values, items[0]) {
      i := 0;
    } else {
      var rest := FirstMissing(values, items[1..]);
      i := rest + 1;
      assert forall k :: 0 < k < i ==> items[k] == items[1..][k - 1];
    }
  }

  /** This character in either case; the Kelvin sign has the small letter k, too. */
  predicate IsLetter(c: char, small: char)
  {
    c == small || ('a' <= small <= 'z' && c as int == small as int - 32) || (small == 'k' && c == '\U{212A}')
  }

  /** These words stand here, in whatever case. */
  predicate SaysAt(message: string, words: string, i: nat)
  {
    i + |words| <= |message| && forall j :: 0 <= j < |words| ==> IsLetter(message[i + j], words[j])
  }

  predicate Says(message: string, words: string)
  {
    exists i :: 0 <= i <= |message| && SaysAt(message, words, i)
  }

  /** Words without capitals are found in a lowered message exactly where it says them in whatever case. */
  lemma SaysInAnyCase(message: string, words: string)
    requires forall c :: c in words ==> !('A' <= c <= 'Z') && c != '\U{212A}'
    ensures Contains(Lower(message), words) <==> Says(message, words)
  {
    forall i | 0 <= i <= |message| ensures OccursAt(Lower(message), words, i) <==> SaysAt(message, words, i) {
      SaysSoHere(message, words, i);
    }
    if Says(message, words) {
      var i :| 0 <= i <= |message| && SaysAt(message, words, i);
      assert OccursAt(Lower(message), words, i);
    }
  }

  lemma SaysSoHere(message: string, words: string, i: nat)
    requires i <= |message| && forall c :: c in words ==> !('A' <= c <= 'Z') && c != '\U{212A}'
    ensures OccursAt(Lower(message), words, i) <==> SaysAt(message, words, i)
  {
    var lower := Lower(message);
    forall j | 0 <= j < |words| && i + |words| <= |message|
      ensures lower[i..][j] == words[j] <==> IsLetter(message[i + j], words[j])
    {
      assert lower[i..][j] == lower[i + j] && words[j] in words;
    }
    if i + |words| <= |message| && OccursAt(lower, words, i) {
      assert forall j :: 0 <= j < |words| ==> lower[i..][j] == words[j];
    }
  }

  /** A failure is taken for a timeout exactly when its message says so somewhere. */
  lemma TimeoutMeaning(message: string)
    ensures IsPromptTimeout(message) <==> Says(message, "timed out")
  {
    SaysInAnyCase(message, "timed out");
  }

  /** The whole protocol from a given attempt on, `asked` prompts having been asked before. */
  function Translate(provider: Provider, items: seq<Item>, asked: nat, attempt: nat): Run
    requires attempt < TRANSLATE_MAX_ATTEMPTS
    decreases |items|, TRANSLATE_MAX_ATTEMPTS - attempt
  {
    var judged := Judge(provider(asked, items), items);
    if judged.Translated? then Run(judged, [items], 0)
    else if IsPromptTimeout(judged.message) then
      if |items| > 1 then Halves(provider, items, asked + 1) else Run(judged, [items], 0)
    else if attempt + 1 < TRANSLATE_MAX_ATTEMPTS then
      var rest := Translate(provider, items, asked + 1, attempt + 1);
      Run(rest.result, [items] + rest.windows, rest.depth)
    else Run(judged, [items], 0)
  }

  /** The split after a timeout; the run includes the prompt that timed out. */
  function Halves(provider: Provider, items: seq<Item>, asked: nat): Run
    requires |items| > 1
    decreases |items|, 0
  {
    var midpoint := (|items| + 1) / 2;
    var left := Translate(provider, items[..midpoint], asked, 0);
    if left.result.Threw? then Run(left.result, [items] + left.windows, 1 + left.depth)
    else
      var right := Translate(provider, items[midpoint..], asked + |left.windows|, 0);
      var result := if right.result.Threw? then right.result
                    else Translated(left.result.values + right.result.values);
      Run(result, [items] + left.windows + right.windows, 1 + Max(left.depth, right.depth))
  }

  function Max(a: nat, b: nat): nat { if a < b then b else a }

  // ----- cost -----

  /** The number of halvings, rounding up, that bring n down to one. */
  function CeilLog2(n: nat): nat
  {
    if n <= 1 then 0 else 1 + CeilLog2((n + 1) / 2)
  }

  function Pow2(n: nat): (p: nat)
    ensures p >= 1
  {
    if n == 0 then 1 else 2 * Pow2(n - 1)
  }

  /** CeilLog2 is the least exponent of two that reaches n. */
  lemma {:induction false} CeilLog2IsLeast(n: nat, k: nat)
    requires n >= 1
    ensures n <= Pow2(k) <==> CeilLog2(n) <= k
    decreases k
  {
    if n > 1 && k > 0 {
      CeilLog2IsLeast((n + 1) / 2, k - 1);
    }
  }

  lemma CeilLog2Monotone(m: nat, n: nat)
    requires 1 <= m <= n
    ensures CeilLog2(m) <= CeilLog2(n)
  {
    CeilLog2IsLeast(n, CeilLog2(n));
    CeilLog2IsLeast(m, CeilLog2(n));
  }

  /** At most 2(2n - 1) prompts and CeilLog2(n) nested splits, whatever the provider does. */
  lemma {:induction false} CostBound(provider: Provider, items: seq<Item>, asked: nat, attempt: nat)
    requires |items| >= 1 && attempt < TRANSLATE_MAX_ATTEMPTS
    ensures |Translate(provider, items, asked, attempt).windows| <= 2 * (2 * |items| - 1) - attempt
    ensures Translate(provider, items, asked, attempt).depth <= CeilLog2(|items|)
    decreases |items|, TRANSLATE_MAX_ATTEMPTS - attempt
  {
    if attempt + 1 < TRANSLATE_MAX_ATTEMPTS {
      CostBound(provider, items, asked + 1, attempt + 1);
    }
    if |items| > 1 {
      HalvesCostBound(provider, items, asked + 1);
    }
  }

  lemma {:induction false} HalvesCostBound(provider: Provider, items: seq<Item>, asked: nat)
    requires |items| > 1
    ensures |Halves(provider, items, asked).windows| <= 2 * (2 * |items| - 1) - 1
    ensures Halves(provider, items, asked).depth <= CeilLog2(|items|)
    decreases |items|, 0
  {
    var midpoint := (|items| + 1) / 2;
    var left := Translate(provider, items[..midpoint], asked, 0);
    CostBound(provider, items[..midpoint], asked, 0);
    CostBound(provider, items[midpoint..], asked + |left.windows|, 0);
    CeilLog2Monotone(|items| - midpoint, midpoint);
  }

  /** The worst provider: each first attempt fails, each second one times out unless it is for one item. */
  function WorstProvider(asked: nat, items: seq<Item>): Answer
  {
    if asked % 2 == 0 then Failed("busy")
    else if |items| > 1 then Failed("prompt timed out")
    else Parsed(map key | key in Keys(items) :: "x")
  }

  /** Both bounds are attained, by a run that succeeds in the end. */
  lemma {:induction false} CostBoundIsTight(items: seq<Item>, asked: nat)
    requires |items| >= 1 && asked % 2 == 0
    ensures var run := Translate(WorstProvider, items, asked, 0);
      && run.result.Translated?
      && |run.windows| == 2 * (2 * |items| - 1)
      && run.depth == CeilLog2(|items|)
    decreases |items|, 1
  {
    WorstFirstAttempt(items, asked);
    WorstSecondAttempt(items, asked + 1);
    if |items| > 1 {
      HalvesBoundIsTight(items, asked + 2);
    }
  }

  lemma {:induction false} HalvesBoundIsTight(items: seq<Item>, asked: nat)
    requires |items| > 1 && asked % 2 == 0
    ensures var run := Halves(WorstProvider, items, asked);
      run.result.Translated? && |run.windows| == 2 * (2 * |items| - 1) - 1 && run.depth == CeilLog2(|items|)
    decreases |items|, 0
  {
    var midpoint := (|items| + 1) / 2;
    CostBoundIsTight(items[..midpoint], asked);
    var left := Translate(WorstProvider, items[..midpoint], asked, 0);
    CostBoundIsTight(items[midpoint..], asked + |left.windows|);
    CeilLog2Monotone(|items| - midpoint, midpoint);
  }

  lemma WorstFirstAttempt(items: seq<Item>, asked: nat)
    requires |items| >= 1 && asked % 2 == 0
    ensures var rest := Translate(WorstProvider, items, asked + 1, 1);
      Translate(WorstProvider, items, asked, 0) == Run(rest.result, [items] + rest.windows, rest.depth)
  {
    assert |Lower("busy")| < |"timed out"|;
  }

  lemma WorstSecondAttempt(items: seq<Item>, asked: nat)
    requires |items| >= 1 && asked % 2 == 1
    ensures Translate(WorstProvider, items, asked, 1) ==
      if |items| > 1 then Halves(WorstProvider, items, asked + 1)
      else Run(Translated(map key | key in Keys(items) :: "x"), [items], 0)
  {
    if |items| > 1 {
      assert Lower("prompt timed out") == "prompt timed out";
      assert OccursAt("prompt timed out", "timed out", 7);
    } else {
      assert !IsSpace('x');
    }
  }

  // ----- meaning -----

  /** A provider that translates key by key: whatever value it gives for a key is f(key). */
  ghost predicate KeyWise(provider: Provider, f: string -> string)
  {
    forall n: nat, items: seq<Item>, key: string ::
      provider(n, items).Parsed? && key in provider(n, items).values ==> provider(n, items).values[key] == f(key)
  }

  /** The map an unsplit, successful prompt for these items returns. */
  function Whole(items: seq<Item>, f: string -> string): map<string, string>
  {
    map key | key in Keys(items) :: f(key)
  }

  lemma WholeAppend(a: seq<Item>, b: seq<Item>, f: string -> string)
    ensures Whole(a + b, f) == Whole(a, f) + Whole(b, f)
  {
    KeysAppend(a, b);
  }

  /** Whatever was retried or split, success returns exactly what one prompt for all items would. */
  lemma {:induction false} SplittingPreservesMeaning(
      provider: Provider, f: string -> string, items: seq<Item>, asked: nat, attempt: nat)
    requires KeyWise(provider, f) && attempt < TRANSLATE_MAX_ATTEMPTS
    requires Translate(provider, items, asked, attempt).result.Translated?
    ensures Translate(provider, items, asked, attempt).result.values == Whole(items, f)
    ensures forall item :: item in items ==> !IsBlank(f(item.key))
    decreases |items|, TRANSLATE_MAX_ATTEMPTS - attempt
  {
    var judged := Judge(provider(asked, items), items);
    if judged.Translated? {
      assert forall item :: item in items ==> HasTranslation(provider(asked, items).values, item);
    } else if IsPromptTimeout(judged.message) {
      HalvesPreserveMeaning(provider, f, items, asked + 1);
    } else {
      SplittingPreservesMeaning(provider, f, items, asked + 1, attempt + 1);
    }
  }

  lemma {:induction false} HalvesPreserveMeaning(provider: Provider, f: string -> string, items: seq<Item>, asked: nat)
    requires KeyWise(provider, f) && |items| > 1
    requires Halves(provider, items, asked).result.Translated?
    ensures Halves(provider, items, asked).result.values == Whole(items, f)
    ensures forall item :: item in items ==> !IsBlank(f(item.key))
    decreases |items|, 0
  {
    var midpoint := (|items| + 1) / 2;
    var front, back := items[..midpoint], items[midpoint..];
    var left := Translate(provider, front, asked, 0);
    SplittingPreservesMeaning(provider, f, front, asked, 0);
    SplittingPreservesMeaning(provider, f, back, asked + |left.windows|, 0);
    assert items == front + back;
    WholeAppend(front, back, f);
  }

  /** Success means a non-blank text for every item and for nothing else, whoever answers. */
  ghost predicate Covers(values: map<string, string>, items: seq<Item>)
  {
    values.Keys == Keys(items) && forall key :: key in values ==> !IsBlank(values[key])
  }

  lemma {:induction false} SuccessCovers(provider: Provider, items: seq<Item>, asked: nat, attempt: nat)
    requires attempt < TRANSLATE_MAX_ATTEMPTS
    requires Translate(provider, items, asked, attempt).result.Translated?
    ensures Covers(Translate(provider, items, asked, attempt).result.values, items)
    decreases |items|, TRANSLATE_MAX_ATTEMPTS - attempt
  {
    var judged := Judge(provider(asked, items), items);
    if judged.Translated? {
      assert forall item :: item in items ==> HasTranslation(provider(asked, items).values, item);
    } else if IsPromptTimeout(judged.message) {
      HalvesCover(provider, items, asked + 1);
    } else {
      SuccessCovers(provider, items, asked + 1, attempt + 1);
    }
  }

  lemma {:induction false} HalvesCover(provider: Provider, items: seq<Item>, asked: nat)
    requires |items| > 1
    requires Halves(provider, items, asked).result.Translated?
    ensures Covers(Halves(provider, items, asked).result.values, items)
    decreases |items|, 0
  {
    var midpoint := (|items| + 1) / 2;
    var left := Translate(provider, items[..midpoint], asked, 0);
    SuccessCovers(provider, items[..midpoint], asked, 0);
    SuccessCovers(provider, items[midpoint..], asked + |left.windows|, 0);
    KeysAppend(items[..midpoint], items[midpoint..]);
    assert items == items[..midpoint] + items[midpoint..];
  }

  lemma KeysAppend(a: seq<Item>, b: seq<Item>)
    ensures Keys(a + b) == Keys(a) + Keys(b)
  {
    assert forall item :: item in a + b <==> item in a || item in b;
  }

  /** The failure is that of this prompt for this window of the items, the last one asked. */
  ghost predicate LastFailed(provider: Provider, run: Run, asked: nat, window: seq<Item>, items: seq<Item>)
  {
    && |run.windows| > 0
    && Judge(provider(asked + |run.windows| - 1, window), window) == run.result
    && forall item :: item in window ==> item in items
  }

  /** A run that throws asked at least one prompt, and its last prompt is what made it throw. */
  lemma {:induction false} ThrowsTheLastFailure(provider: Provider, items: seq<Item>, asked: nat, attempt: nat)
      returns (window: seq<Item>)
    requires attempt < TRANSLATE_MAX_ATTEMPTS
    requires Translate(provider, items, asked, attempt).result.Threw?
    ensures LastFailed(provider, Translate(provider, items, asked, attempt), asked, window, items)
    decreases |items|, TRANSLATE_MAX_ATTEMPTS - attempt
  {
    var judged := Judge(provider(asked, items), items);
    if IsPromptTimeout(judged.message) && |items| > 1 {
      window := HalvesThrowTheLastFailure(provider, items, asked + 1);
    } else if !IsPromptTimeout(judged.message) && attempt + 1 < TRANSLATE_MAX_ATTEMPTS {
      window := ThrowsTheLastFailure(provider, items, asked + 1, attempt + 1);
    } else {
      window := items;
    }
  }

  lemma {:induction false} HalvesThrowTheLastFailure(provider: Provider, items: seq<Item>, asked: nat)
      returns (window: seq<Item>)
    requires |items| > 1 && asked > 0 && Halves(provider, items, asked).result.Threw?
    ensures LastFailed(provider, Halves(provider, items, asked), asked - 1, window, items)
    decreases |items|, 0
  {
    var midpoint := (|items| + 1) / 2;
    var left := Translate(provider, items[..midpoint], asked, 0);
    if left.result.Threw? {
      window := ThrowsTheLastFailure(provider, items[..midpoint], asked, 0);
    } else {
      window := ThrowsTheLastFailure(provider, items[midpoint..], asked + |left.windows|, 0);
    }
  }

  // ----- which prompts a run asks -----

  /** The verdict on a prompt, by the number of prompts before it and the items it asks for. */
  type Verdicts = (nat, seq<Item>) -> Result

  function VerdictsOn(provider: Provider): Verdicts
  {
    (asked: nat, items: seq<Item>) => Judge(provider(asked, items), items)
  }

  /** The verdict on the k-th prompt of a run. */
  function Verdict(judge: Verdicts, asked: nat, windows: seq<seq<Item>>, k: nat): Result
    requires k < |windows|
  {
    judge(asked + k, windows[k])
  }

  predicate TimedOut(verdict: Result)
  {
    verdict.Threw? && IsPromptTimeout(verdict.message)
  }

  predicate FailedOtherwise(verdict: Result)
  {
    verdict.Threw? && !IsPromptTimeout(verdict.message)
  }

  /** The k-th prompt repeats the one before it, which failed other than by a timeout. */
  predicate IsRetry(judge: Verdicts, asked: nat, attempt: nat, windows: seq<seq<Item>>, k: nat)
    requires k < |windows|
  {
    if k == 0 then attempt > 0 else FailedOtherwise(Verdict(judge, asked, windows, k - 1))
  }

  /** The windows that were answered, in order. */
  function Answered(judge: Verdicts, asked: nat, windows: seq<seq<Item>>): seq<seq<Item>>
  {
    if windows == [] then []
    else
      var n := |windows| - 1;
      Answered(judge, asked, windows[..n]) +
      if Verdict(judge, asked, windows, n).Translated? then [windows[n]] else []
  }

  /** The j-th prompt timed out, and what was answered since then is exactly the first half of its window. */
  predicate FirstHalfDone(judge: Verdicts, asked: nat, windows: seq<seq<Item>>, j: nat, k: nat)
    requires j < k < |windows|
  {
    && TimedOut(Verdict(judge, asked, windows, j))
    && Concat(Answered(judge, asked + j + 1, windows[j + 1..k + 1])) == FirstHalf(windows[j])
  }

  /** The larger half where they differ. */
  function FirstHalf<T>(window: seq<T>): seq<T> { window[..(|window| + 1) / 2] }

  function SecondHalf<T>(window: seq<T>): seq<T> { window[(|window| + 1) / 2..] }

  /**
    What comes after the k-th prompt. An ordinary failure is retried once, with the same
    window, and ends the run the second time. A timeout is followed by the first half of
    the window, and ends the run where there is nothing to split. An answer ends the run
    or is followed by the second half of a window whose first half is done.
  */
  ghost predicate Follows(judge: Verdicts, asked: nat, attempt: nat, run: Run, k: nat)
    requires k < |run.windows|
  {
    var window, verdict := run.windows[k], Verdict(judge, asked, run.windows, k);
    var last := k + 1 == |run.windows|;
    if FailedOtherwise(verdict) then
      if IsRetry(judge, asked, attempt, run.windows, k) then last && run.result == verdict
      else !last && run.windows[k + 1] == window
    else if TimedOut(verdict) then
      if |window| <= 1 then last && run.result == verdict
      else !last && run.windows[k + 1] == FirstHalf(window)
    else if last then run.result.Translated?
    else exists j :: 0 <= j < k && FirstHalfDone(judge, asked, run.windows, j, k)
                       && run.windows[k + 1] == SecondHalf(run.windows[j])
  }

  /**
    The prompts of a run: the first one asks for all items, each is followed as it should
    be, and those that were answered ask for the items from the first one on, each once
    and in order, and for all of them if the run succeeds.
  */
  ghost predicate WellAsked(judge: Verdicts, items: seq<Item>, asked: nat, attempt: nat, run: Run)
  {
    && |run.windows| > 0 && run.windows[0] == items
    && (forall k :: 0 <= k < |run.windows| ==> Follows(judge, asked, attempt, run, k))
    && Concat(Answered(judge, asked, run.windows)) <= items
    && (run.result.Translated? ==> Concat(Answered(judge, asked, run.windows)) == items)
  }

  lemma {:induction false} AnsweredAppend(judge: Verdicts, asked: nat, a: seq<seq<Item>>, b: seq<seq<Item>>)
    ensures Answered(judge, asked, a + b) == Answered(judge, asked, a) + Answered(judge, asked + |a|, b)
  {
    if b == [] {
      assert a + b == a;
    } else {
      var front := b[..|b| - 1];
      AnsweredAppend(judge, asked, a, front);
      assert (a + b)[..|a + b| - 1] == a + front;
    }
  }

  /** A prompt without an answer adds nothing to what was answered. */
  lemma {:induction false} FirstUnanswered(judge: Verdicts, asked: nat, window: seq<Item>, rest: seq<seq<Item>>)
    requires judge(asked, window).Threw?
    ensures Answered(judge, asked, [window] + rest) == Answered(judge, asked + 1, rest)
  {
    AnsweredAppend(judge, asked, [window], rest);
    assert Answered(judge, asked, []) == [];
    assert [window][..0] == [];
  }

  /** The prompts of a part of a run are the part's own, from this place on, and its failure is the run's. */
  ghost predicate PartOf(judge: Verdicts, asked: nat, attempt: nat, run: Run, offset: nat, part: Run,
                         partAttempt: nat)
  {
    && |part.windows| > 0 && offset + |part.windows| <= |run.windows|
    && run.windows[offset..offset + |part.windows|] == part.windows
    && (IsRetry(judge, asked, attempt, run.windows, offset) <==> partAttempt > 0)
    && (part.result.Threw? ==> offset + |part.windows| == |run.windows| && run.result == part.result)
  }

  /** The part ends where the run ends, and like it. */
  predicate EndsLike(run: Run, offset: nat, part: Run)
  {
    offset + |part.windows| == |run.windows| && (run.result.Translated? <==> part.result.Translated?)
  }

  /** What follows in a part follows in the run, but for an answer that ends only the part. */
  lemma PartFollows(judge: Verdicts, asked: nat, attempt: nat, run: Run, offset: nat, part: Run,
                    partAttempt: nat, k: nat)
    requires PartOf(judge, asked, attempt, run, offset, part, partAttempt) && k < |part.windows|
    requires Follows(judge, asked + offset, partAttempt, part, k)
    requires k + 1 < |part.windows| || EndsLike(run, offset, part)
    ensures Follows(judge, asked, attempt, run, offset + k)
  {
    SamePrompt(judge, asked, attempt, run, offset, part, partAttempt, k);
    if k + 1 < |part.windows| {
      SamePrompt(judge, asked, attempt, run, offset, part, partAttempt, k + 1);
    }
    if k > 0 {
      SamePrompt(judge, asked, attempt, run, offset, part, partAttempt, k - 1);
    }
    if Verdict(judge, asked + offset, part.windows, k).Translated? && k + 1 < |part.windows| {
      var j :| 0 <= j < k && FirstHalfDone(judge, asked + offset, part.windows, j, k)
               && part.windows[k + 1] == SecondHalf(part.windows[j]);
      SamePrompt(judge, asked, attempt, run, offset, part, partAttempt, j);
      SameHalfDone(judge, asked, run.windows, offset, part.windows, j, k);
    }
  }

  lemma SameHalfDone(judge: Verdicts, asked: nat, windows: seq<seq<Item>>, offset: nat, part: seq<seq<Item>>,
                     j: nat, k: nat)
    requires j < k < |part| && offset + |part| <= |windows| && windows[offset..offset + |part|] == part
    requires FirstHalfDone(judge, asked + offset, part, j, k)
    ensures FirstHalfDone(judge, asked, windows, offset + j, offset + k)
  {
    assert windows[offset..offset + |part|][j] == windows[offset + j];
    SliceOfSlice(windows, offset, offset + |part|, j + 1, k + 1);
  }

  lemma SamePrompt(judge: Verdicts, asked: nat, attempt: nat, run: Run, offset: nat, part: Run, partAttempt: nat,
                   k: nat)
    requires PartOf(judge, asked, attempt, run, offset, part, partAttempt) && k < |part.windows|
    ensures run.windows[offset + k] == part.windows[k]
    ensures Verdict(judge, asked, run.windows, offset + k) == Verdict(judge, asked + offset, part.windows, k)
  {
    assert run.windows[offset..offset + |part.windows|][k] == part.windows[k];
  }

  lemma PartsFollow(judge: Verdicts, asked: nat, attempt: nat, run: Run, offset: nat, from: nat, part: Run,
                    partAttempt: nat)
    requires PartOf(judge, asked, attempt, run, offset, part, partAttempt) && from == asked + offset
    requires forall k :: 0 <= k < |part.windows| ==> Follows(judge, from, partAttempt, part, k)
    ensures forall k :: offset <= k < offset + |part.windows| - 1 ==> Follows(judge, asked, attempt, run, k)
    ensures EndsLike(run, offset, part) ==> Follows(judge, asked, attempt, run, |run.windows| - 1)
  {
    var n := |part.windows|;
    forall k | offset <= k < offset + n - 1 ensures Follows(judge, asked, attempt, run, k) {
      PartFollows(judge, asked, attempt, run, offset, part, partAttempt, k - offset);
    }
    if EndsLike(run, offset, part) {
      PartFollows(judge, asked, attempt, run, offset, part, partAttempt, n - 1);
    }
  }

  /** A part that succeeds ends with an answer. */
  lemma SuccessEndsAnswered(judge: Verdicts, items: seq<Item>, asked: nat, attempt: nat, part: Run)
    requires WellAsked(judge, items, asked, attempt, part) && part.result.Translated?
    ensures Verdict(judge, asked, part.windows, |part.windows| - 1).Translated?
  {
    assert Follows(judge, asked, attempt, part, |part.windows| - 1);
  }

  /** Every run asks what it should. */
  lemma {:induction false} AsksAsPromised(provider: Provider, items: seq<Item>, asked: nat, attempt: nat)
    requires attempt < TRANSLATE_MAX_ATTEMPTS
    ensures WellAsked(VerdictsOn(provider), items, asked, attempt, Translate(provider, items, asked, attempt))
    decreases |items|, TRANSLATE_MAX_ATTEMPTS - attempt
  {
    var judged := Judge(provider(asked, items), items);
    if TimedOut(judged) && |items| > 1 {
      HalvesAskAsPromised(provider, items, asked, attempt);
    } else if FailedOtherwise(judged) && attempt + 1 < TRANSLATE_MAX_ATTEMPTS {
      AsksAsPromised(provider, items, asked + 1, attempt + 1);
      RetryAsks(VerdictsOn(provider), items, asked, attempt, Translate(provider, items, asked, attempt),
                Translate(provider, items, asked + 1, attempt + 1));
    } else {
      assert [items][..0] == [];
      assert Answered(VerdictsOn(provider), asked, [items]) == if judged.Translated? then [items] else [];
      assert Concat([items]) == items + Concat<Item>([]);
    }
  }

  lemma {:induction false} RetryAsks(judge: Verdicts, items: seq<Item>, asked: nat, attempt: nat, run: Run, rest: Run)
    requires attempt == 0 && FailedOtherwise(judge(asked, items))
    requires WellAsked(judge, items, asked + 1, attempt + 1, rest)
    requires run.windows == [items] + rest.windows && run.result == rest.result
    ensures WellAsked(judge, items, asked, attempt, run)
  {
    assert PartOf(judge, asked, attempt, run, 1, rest, attempt + 1);
    PartsFollow(judge, asked, attempt, run, 1, asked + 1, rest, attempt + 1);
    FirstUnanswered(judge, asked, items, rest.windows);
  }

  lemma {:induction false} HalvesAskAsPromised(provider: Provider, items: seq<Item>, asked: nat, attempt: nat)
    requires attempt < TRANSLATE_MAX_ATTEMPTS && |items| > 1 && TimedOut(Judge(provider(asked, items), items))
    ensures WellAsked(VerdictsOn(provider), items, asked, attempt, Halves(provider, items, asked + 1))
    decreases |items|, 0
  {
    var front, back := FirstHalf(items), SecondHalf(items);
    var run, left := Halves(provider, items, asked + 1), Translate(provider, front, asked + 1, 0);
    AsksAsPromised(provider, front, asked + 1, 0);
    if left.result.Threw? {
      LeftHalfAsks(VerdictsOn(provider), items, asked, attempt, run, left);
    } else {
      var right := Translate(provider, back, asked + 1 + |left.windows|, 0);
      AsksAsPromised(provider, back, asked + 1 + |left.windows|, 0);
      BothHalvesAsk(VerdictsOn(provider), items, asked, attempt, run, left, right);
    }
  }

  lemma {:induction false} LeftHalfAsks(judge: Verdicts, items: seq<Item>, asked: nat, attempt: nat, run: Run,
                                        left: Run)
    requires |items| > 1 && TimedOut(judge(asked, items))
    requires WellAsked(judge, FirstHalf(items), asked + 1, 0, left)
    requires left.result.Threw? && run.windows == [items] + left.windows && run.result == left.result
    ensures WellAsked(judge, items, asked, attempt, run)
  {
    assert PartOf(judge, asked, attempt, run, 1, left, 0);
    PartsFollow(judge, asked, attempt, run, 1, asked + 1, left, 0);
    FirstUnanswered(judge, asked, items, left.windows);
    assert FirstHalf(items) <= items;
  }

  lemma FirstHalfFollows(judge: Verdicts, items: seq<Item>, asked: nat, attempt: nat, run: Run)
    requires |items| > 1 && TimedOut(judge(asked, items))
    requires |run.windows| > 1 && run.windows[0] == items && run.windows[1] == FirstHalf(items)
    ensures Follows(judge, asked, attempt, run, 0)
  {
  }

  /** Where the first half is done, the second half is asked for. */
  lemma SecondHalfFollows(judge: Verdicts, items: seq<Item>, asked: nat, attempt: nat, run: Run, left: Run,
                          right: Run)
    requires TimedOut(judge(asked, items)) && |items| > 1
    requires WellAsked(judge, FirstHalf(items), asked + 1, 0, left) && left.result.Translated?
    requires |right.windows| > 0 && right.windows[0] == SecondHalf(items)
    requires run.windows == [items] + left.windows + right.windows
    ensures Follows(judge, asked, attempt, run, |left.windows|)
    ensures !IsRetry(judge, asked, attempt, run.windows, |left.windows| + 1)
  {
    var k := |left.windows|;
    SuccessEndsAnswered(judge, FirstHalf(items), asked + 1, 0, left);
    assert run.windows[k] == left.windows[k - 1];
    assert run.windows[1..k + 1] == left.windows;
    assert FirstHalfDone(judge, asked, run.windows, 0, k);
    assert run.windows[k + 1] == SecondHalf(run.windows[0]);
  }

  lemma {:induction false} BothHalvesAsk(judge: Verdicts, items: seq<Item>, asked: nat, attempt: nat, run: Run,
                                         left: Run, right: Run)
    requires |items| > 1 && TimedOut(judge(asked, items))
    requires WellAsked(judge, FirstHalf(items), asked + 1, 0, left) && left.result.Translated?
    requires WellAsked(judge, SecondHalf(items), asked + 1 + |left.windows|, 0, right)
    requires run.windows == [items] + left.windows + right.windows
    requires if right.result.Threw? then run.result == right.result else run.result.Translated?
    ensures WellAsked(judge, items, asked, attempt, run)
  {
    BothHalvesFollow(judge, items, asked, attempt, run, left, right);
    BothHalvesAnswered(judge, items, asked, left.windows, right.windows);
  }

  lemma {:induction false} BothHalvesFollow(judge: Verdicts, items: seq<Item>, asked: nat, attempt: nat, run: Run,
                                            left: Run, right: Run)
    requires |items| > 1 && TimedOut(judge(asked, items))
    requires WellAsked(judge, FirstHalf(items), asked + 1, 0, left) && left.result.Translated?
    requires WellAsked(judge, SecondHalf(items), asked + 1 + |left.windows|, 0, right)
    requires run.windows == [items] + left.windows + right.windows
    requires if right.result.Threw? then run.result == right.result else run.result.Translated?
    ensures forall k :: 0 <= k < |run.windows| ==> Follows(judge, asked, attempt, run, k)
  {
    var n := 1 + |left.windows|;
    SecondHalfFollows(judge, items, asked, attempt, run, left, right);
    FirstHalfIsPart(judge, asked, attempt, run, items, left, right);
    PartsFollow(judge, asked, attempt, run, 1, asked + 1, left, 0);
    PartsFollow(judge, asked, attempt, run, n, asked + n, right, 0);
    FirstHalfFollows(judge, items, asked, attempt, run);
  }

  lemma FirstHalfIsPart(judge: Verdicts, asked: nat, attempt: nat, run: Run, items: seq<Item>, left: Run,
                        right: Run)
    requires judge(asked, items).Threw? && TimedOut(judge(asked, items))
    requires |left.windows| > 0 && left.result.Translated? && |right.windows| > 0
    requires run.windows == [items] + left.windows + right.windows
    requires right.result.Threw? ==> run.result == right.result
    requires !IsRetry(judge, asked, attempt, run.windows, |left.windows| + 1)
    ensures PartOf(judge, asked, attempt, run, 1, left, 0)
    ensures PartOf(judge, asked, attempt, run, 1 + |left.windows|, right, 0)
  {
    assert run.windows[1..1 + |left.windows|] == left.windows && run.windows[1 + |left.windows|..] == right.windows;
  }

  lemma {:induction false} BothHalvesAnswered(judge: Verdicts, items: seq<Item>, asked: nat,
                                              left: seq<seq<Item>>, right: seq<seq<Item>>)
    requires |items| > 1 && TimedOut(judge(asked, items))
    requires Concat(Answered(judge, asked + 1, left)) == FirstHalf(items)
    requires Concat(Answered(judge, asked + 1 + |left|, right)) <= SecondHalf(items)
    ensures Concat(Answered(judge, asked, [items] + left + right)) ==
            FirstHalf(items) + Concat(Answered(judge, asked + 1 + |left|, right))
    ensures Concat(Answered(judge, asked, [items] + left + right)) <= items
    ensures items == FirstHalf(items) + SecondHalf(items)
  {
    AnsweredAppend(judge, asked, [items] + left, right);
    FirstUnanswered(judge, asked, items, left);
    ConcatAppend(Answered(judge, asked + 1, left), Answered(judge, asked + 1 + |left|, right));
  }

  // ----- all batches -----

  datatype Progress = Progress(result: Result, prompts: nat)

  /** The first k batches one after the other; the first one that throws ends the work. */
  function TranslateFirst(provider: Provider, batches: seq<seq<Item>>, k: nat): Progress
    requires k <= |batches|
  {
    if k == 0 then Progress(Translated(map[]), 0)
    else
      var before := TranslateFirst(provider, batches, k - 1);
      if before.result.Threw? then before
      else
        var run := Translate(provider, batches[k - 1], before.prompts, 0);
        Progress(if run.result.Threw? then run.result else Translated(before.result.values + run.result.values),
                 before.prompts + |run.windows|)
  }

  function TranslateAll(provider: Provider, batches: seq<seq<Item>>): Result
  {
    TranslateFirst(provider, batches, |batches|).result
  }

  lemma {:induction false} ThrowIsFinal(provider: Provider, batches: seq<seq<Item>>, k: nat, n: nat)
    requires k <= n <= |batches| && TranslateFirst(provider, batches, k).result.Threw?
    ensures TranslateFirst(provider, batches, n) == TranslateFirst(provider, batches, k)
  {
    if k < n {
      ThrowIsFinal(provider, batches, k, n - 1);
    }
  }

  /** The error that ends all batches is that of the last prompt asked, by its number among all of them. */
  lemma {:induction false} BatchesThrowTheLastFailure(provider: Provider, batches: seq<seq<Item>>, k: nat)
      returns (window: seq<Item>)
    requires k <= |batches| && TranslateFirst(provider, batches, k).result.Threw?
    ensures var all := TranslateFirst(provider, batches, k);
      && all.prompts > 0 && Judge(provider(all.prompts - 1, window), window) == all.result
      && exists i :: 0 <= i < k && forall item :: item in window ==> item in batches[i]
  {
    var before := TranslateFirst(provider, batches, k - 1);
    if before.result.Threw? {
      window := BatchesThrowTheLastFailure(provider, batches, k - 1);
    } else {
      window := ThrowsTheLastFailure(provider, batches[k - 1], before.prompts, 0);
    }
  }

  /** However the items are batched, retried and split, success gives the map one prompt for all would give. */
  lemma {:induction false} BatchingPreservesMeaning(
      provider: Provider, f: string -> string, batches: seq<seq<Item>>, k: nat)
    requires k <= |batches| && KeyWise(provider, f) && TranslateFirst(provider, batches, k).result.Translated?
    ensures TranslateFirst(provider, batches, k).result.values == Whole(Concat(batches[..k]), f)
  {
    if k > 0 {
      var before := TranslateFirst(provider, batches, k - 1);
      BatchingPreservesMeaning(provider, f, batches, k - 1);
      SplittingPreservesMeaning(provider, f, batches[k - 1], before.prompts, 0);
      ConcatNext(batches, k - 1);
      WholeAppend(Concat(batches[..k - 1]), batches[k - 1], f);
    }
  }

  // ----- the implementation -----

  /** The first i items had a value each, and the verdict depends on the rest. */
  ghost predicate Collected(values: map<string, string>, items: seq<Item>, i: nat, translated: map<string, string>)
    requires i <= |items|
  {
    && translated.Keys == Keys(items[..i])
    && (forall key :: key in translated ==> key in values && translated[key] == values[key])
    && (forall item :: item in items[..i] ==> HasTranslation(values, item))
    && ((exists item :: item in items && !HasTranslation(values, item)) ==>
          && (exists item :: item in items[i..] && !HasTranslation(values, item))
          && MissingMessage(values, items) == MissingMessage(values, items[i..]))
  }

  lemma CollectNext(values: map<string, string>, items: seq<Item>, i: nat, translated: map<string, string>)
    requires i < |items| && Collected(values, items, i, translated) && HasTranslation(values, items[i])
    ensures Collected(values, items, i + 1, translated[items[i].key := values[items[i].key]])
  {
    assert items[i..][0] == items[i] && items[i..][1..] == items[i + 1..];
    assert items[..i + 1] == items[..i] + [items[i]];
    KeysAppend(items[..i], [items[i]]);
  }

  lemma CollectFails(values: map<string, string>, items: seq<Item>, i: nat, translated: map<string, string>)
    requires i < |items| && Collected(values, items, i, translated) && !HasTranslation(values, items[i])
    ensures Judge(Parsed(values), items) == Threw("missing translation for " + items[i].key)
  {
    assert items[i..][0] == items[i];
    assert items[i] in items;
  }

  lemma CollectEnds(values: map<string, string>, items: seq<Item>, translated: map<string, string>)
    requires Collected(values, items, |items|, translated)
    ensures Judge(Parsed(values), items) == Translated(translated)
  {
    assert items[..|items|] == items;
  }

  /** Collecting the values of one parsed reply, item by item. */
  method ReadReply(values: map<string, string>, items: seq<Item>) returns (r: Result)
    ensures r == Judge(Parsed(values), items)
  {
    var translated: map<string, string> := map[];
    for i := 0 to |items|
      invariant Collected(values, items, i, translated)
    {
      var item := items[i];
      if item.key !in values || IsBlank(values[item.key]) {
        CollectFails(values, items, i, translated);
        return Threw("missing translation for " + item.key);
      }
      CollectNext(values, items, i, translated);
      translated := translated[item.key := values[item.key]];
    }
    CollectEnds(values, items, translated);
    r := Translated(translated);
  }

  /** These prompts, and then that run. */
  function After(windows: seq<seq<Item>>, run: Run): Run
  {
    Run(run.result, windows + run.windows, run.depth)
  }

  /** These attempts have failed without a timeout; the next one decides, or the last error is thrown. */
  ghost predicate AttemptsFailed(provider: Provider, items: seq<Item>, asked: nat, windows: seq<seq<Item>>,
                                 lastError: string)
  {
    Translate(provider, items, asked, 0) ==
      After(windows,
        if |windows| < TRANSLATE_MAX_ATTEMPTS then Translate(provider, items, asked + |windows|, |windows|)
        else Run(Threw(lastError), [], 0))
  }

  /** The run for these items, from their first attempt on. */
  ghost predicate IsRunOf(provider: Provider, items: seq<Item>, asked: nat, run: Run)
  {
    run == Translate(provider, items, asked, 0)
  }

  lemma AllFailed(provider: Provider, items: seq<Item>, asked: nat, windows: seq<seq<Item>>, lastError: string)
    requires AttemptsFailed(provider, items, asked, windows, lastError) && |windows| == TRANSLATE_MAX_ATTEMPTS
    ensures IsRunOf(provider, items, asked, Run(Threw(lastError), windows, 0))
  {
  }

  lemma NothingFailed(provider: Provider, items: seq<Item>, asked: nat, lastError: string)
    ensures AttemptsFailed(provider, items, asked, [], lastError)
  {
    var run := Translate(provider, items, asked, 0);
    assert [] + run.windows == run.windows;
  }

  /** One attempt, and what it settles. */
  method Attempt(provider: Provider, items: seq<Item>, asked: nat, windows: seq<seq<Item>>, ghost lastError: string)
      returns (judged: Result, timedOut: bool)
    requires AttemptsFailed(provider, items, asked, windows, lastError) && |windows| < TRANSLATE_MAX_ATTEMPTS
    ensures var after := windows + [items];
      if judged.Translated? || (timedOut && |items| <= 1) then IsRunOf(provider, items, asked, Run(judged, after, 0))
      else if timedOut then IsRunOf(provider, items, asked, After(windows, Halves(provider, items, asked + |after|)))
      else AttemptsFailed(provider, items, asked, after, judged.message)
  {
    judged := Ask(provider, items, asked + |windows|);
    timedOut := judged.Threw? && IsPromptTimeout(judged.message);
  }

  /** The two attempts; a first timeout ends them, by a split where there is something to split. */
  method TranslateBatch(provider: Provider, items: seq<Item>, asked: nat)
      returns (result: Result, windows: seq<seq<Item>>, depth: nat)
    ensures IsRunOf(provider, items, asked, Run(result, windows, depth))
    decreases |items|, 1
  {
    var lastError := "translation failed";
    windows, depth := [], 0;
    NothingFailed(provider, items, asked, lastError);
    for attempt := 0 to TRANSLATE_MAX_ATTEMPTS
      invariant |windows| == attempt && depth == 0
      invariant exists done :: done == windows && AttemptsFailed(provider, items, asked, done, lastError)
      invariant attempt == TRANSLATE_MAX_ATTEMPTS ==> IsRunOf(provider, items, asked, Run(Threw(lastError), windows, 0))
    {
      var judged, timedOut := Attempt(provider, items, asked, windows, lastError);
      if judged.Translated? {
        return judged, windows + [items], depth;
      }
      lastError := judged.message;
      if timedOut && |items| > 1 {
        var r, w, d := TranslateHalves(provider, items, asked + |windows| + 1);
        return r, windows + w, d;
      }
      windows := windows + [items];
      if timedOut {
        break;
      }
      if |windows| == TRANSLATE_MAX_ATTEMPTS {
        AllFailed(provider, items, asked, windows, lastError);
      }
    }
    result := Threw(lastError);
  }

  method Ask(provider: Provider, items: seq<Item>, asked: nat) returns (judged: Result)
    ensures judged == Judge(provider(asked, items), items)
  {
    match provider(asked, items) {
      case Failed(message) => judged := Threw(message);
      case Parsed(values) => judged := ReadReply(values, items);
    }
  }

  method TranslateHalves(provider: Provider, items: seq<Item>, asked: nat)
      returns (result: Result, windows: seq<seq<Item>>, depth: nat)
    requires |items| > 1
    ensures Run(result, windows, depth) == Halves(provider, items, asked)
    decreases |items|, 0
  {
    var midpoint := (|items| + 1) / 2;
    var left, leftWindows, leftDepth := TranslateBatch(provider, items[..midpoint], asked);
    if left.Threw? {
      return left, [items] + leftWindows, 1 + leftDepth;
    }
    var right, rightWindows, rightDepth := TranslateBatch(provider, items[midpoint..], asked + |leftWindows|);
    windows, depth := [items] + leftWindows + rightWindows, 1 + Max(leftDepth, rightDepth);
    result := if right.Threw? then right else Translated(left.values + right.values);
  }
}
