/**
  The translation memory: a map from cache keys to entries that remembers insertion
  order, its rendering as sorted lines, and its index by source-text hash.
*/
module TranslationMemory {
  import opened Collections
  import opened Ordering
  import opened Text

  datatype Entry = Entry(
    cacheKey: string, model: string, provider: string, segmentId: string, sourcePath: string,
    sourceLanguage: string, text: string, textHash: string, targetLanguage: string,
    translated: string, updatedAt: string)

  /** The entries in insertion order, at most one for a cache key. */
  type Memory = seq<Entry>

  function KeyOf(entry: Entry): string { entry.cacheKey }

  ghost predicate Usable(entry: Entry)
  {
    entry.cacheKey != "" && !IsBlank(entry.translated)
  }

  ghost predicate Valid(memory: Memory)
  {
    DistinctBy(memory, KeyOf) && forall entry :: entry in memory ==> Usable(entry)
  }

  function Get(memory: Memory, cacheKey: string): Option<Entry>
  {
    if memory == [] then None
    else if memory[0].cacheKey == cacheKey then Some(memory[0])
    else Get(memory[1..], cacheKey)
  }

  /** `map.set`: a known key keeps its place. */
  function Set(memory: Memory, entry: Entry): Memory
  {
    if memory == [] then [entry]
    else if memory[0].cacheKey == entry.cacheKey then [entry] + memory[1..]
    else [memory[0]] + Set(memory[1..], entry)
  }

  lemma {:induction false} GetMember(memory: Memory, cacheKey: string)
    ensures Get(memory, cacheKey).Some? ==>
      Get(memory, cacheKey).value in memory && Get(memory, cacheKey).value.cacheKey == cacheKey
    ensures Get(memory, cacheKey).None? ==> forall entry :: entry in memory ==> entry.cacheKey != cacheKey
  {
    if memory != [] && memory[0].cacheKey != cacheKey {
      GetMember(memory[1..], cacheKey);
    }
  }

  lemma {:induction false} GetSet(memory: Memory, entry: Entry, cacheKey: string)
    ensures Get(Set(memory, entry), cacheKey) ==
            if cacheKey == entry.cacheKey then Some(entry) else Get(memory, cacheKey)
  {
    if memory != [] && memory[0].cacheKey != entry.cacheKey {
      GetSet(memory[1..], entry, cacheKey);
    }
  }

  lemma {:induction false} SetMembers(memory: Memory, entry: Entry)
    requires DistinctBy(memory, KeyOf)
    ensures DistinctBy(Set(memory, entry), KeyOf)
    ensures forall e :: e in Set(memory, entry) <==> e == entry || (e in memory && e.cacheKey != entry.cacheKey)
  {
    if memory != [] {
      var first, rest := memory[0], memory[1..];
      assert memory == [first] + rest;
      assert forall e :: e in rest ==> KeyOf(e) != KeyOf(first);
      if first.cacheKey != entry.cacheKey {
        SetMembers(rest, entry);
        DistinctAfter(first, Set(rest, entry));
      } else {
        DistinctAfter(entry, rest);
      }
    }
  }

  lemma DistinctAfter(first: Entry, rest: Memory)
    requires DistinctBy(rest, KeyOf) && forall e :: e in rest ==> KeyOf(e) != KeyOf(first)
    ensures DistinctBy([first] + rest, KeyOf)
  {
  }

  lemma SetKeepsValid(memory: Memory, entry: Entry)
    requires Valid(memory) && Usable(entry)
    ensures Valid(Set(memory, entry))
  {
    SetMembers(memory, entry);
  }

  // ----- the file -----

  /** The memory read from the lines of its file; lines without a key or a text are dropped. */
  function Load(lines: seq<Entry>): Memory
  {
    if lines == [] then []
    else
      var rest, line := Load(lines[..|lines| - 1]), lines[|lines| - 1];
      if line.cacheKey != "" && !IsBlank(line.translated) then Set(rest, line) else rest
  }

  /** The line has a key and a translation that is not blank, and this is its key. */
  predicate IsUsableFor(line: Entry, cacheKey: string)
  {
    cacheKey != "" && line.cacheKey == cacheKey && Trim(line.translated) != ""
  }

  /** The last usable line of this key. */
  ghost predicate IsLastLine(lines: seq<Entry>, cacheKey: string, k: nat)
  {
    k < |lines| && IsUsableFor(lines[k], cacheKey) && forall j :: k < j < |lines| ==> !IsUsableFor(lines[j], cacheKey)
  }

  lemma UsableMeaning(line: Entry, cacheKey: string)
    ensures IsUsableFor(line, cacheKey) <==> Usable(line) && line.cacheKey == cacheKey
  {
    var before, after := TrimMeaning(line.translated);
  }

  lemma {:induction false} LastLineSnoc(lines: seq<Entry>, line: Entry, cacheKey: string, k: nat)
    ensures IsLastLine(lines + [line], cacheKey, k) <==>
            if IsUsableFor(line, cacheKey) then k == |lines| else IsLastLine(lines, cacheKey, k)
  {
    var longer := lines + [line];
    assert longer[|lines|] == line;
    assert forall j :: 0 <= j < |lines| ==> longer[j] == lines[j];
  }

  /** A key leads to its last usable line, and a key without one to nothing. */
  lemma {:induction false} LoadMeaning(lines: seq<Entry>, cacheKey: string)
    ensures forall k: nat :: IsLastLine(lines, cacheKey, k) ==> Get(Load(lines), cacheKey) == Some(lines[k])
    ensures Get(Load(lines), cacheKey).Some? ==> exists k: nat :: IsLastLine(lines, cacheKey, k)
  {
    if lines != [] {
      var front, last := lines[..|lines| - 1], lines[|lines| - 1];
      LoadMeaning(front, cacheKey);
      UsableMeaning(last, cacheKey);
      GetSet(Load(front), last, cacheKey);
      assert lines == front + [last];
      forall k: nat
        ensures IsLastLine(lines, cacheKey, k) <==>
                if IsUsableFor(last, cacheKey) then k == |front| else IsLastLine(front, cacheKey, k)
      {
        LastLineSnoc(front, last, cacheKey, k);
      }
      if IsUsableFor(last, cacheKey) {
        assert IsLastLine(lines, cacheKey, |front|);
      } else if Get(Load(front), cacheKey).Some? {
        var k: nat :| IsLastLine(front, cacheKey, k);
        assert IsLastLine(lines, cacheKey, k);
      }
    }
  }

  function Render(memory: Memory, before: Before): seq<Entry>
  {
    Sort(memory, KeyOf, before)
  }

  lemma {:induction false} LoadIsValid(lines: seq<Entry>)
    ensures Valid(Load(lines))
  {
    if lines != [] {
      LoadIsValid(lines[..|lines| - 1]);
      if Usable(lines[|lines| - 1]) {
        SetKeepsValid(Load(lines[..|lines| - 1]), lines[|lines| - 1]);
      }
    }
  }

  lemma {:induction false} SetNew(memory: Memory, entry: Entry)
    requires forall e :: e in memory ==> e.cacheKey != entry.cacheKey
    ensures Set(memory, entry) == memory + [entry]
  {
    if memory != [] {
      SetNew(memory[1..], entry);
    }
  }

  lemma LastIsNew(front: Memory, last: Entry)
    requires DistinctBy(front + [last], KeyOf)
    ensures forall e :: e in front ==> e.cacheKey != last.cacheKey
  {
    var all := front + [last];
    forall i | 0 <= i < |front| ensures front[i].cacheKey != last.cacheKey {
      assert KeyOf(all[i]) != KeyOf(all[|front|]);
    }
  }

  lemma {:induction false} LoadOfValid(lines: seq<Entry>)
    requires Valid(lines)
    ensures Load(lines) == lines
  {
    if lines != [] {
      var front, last := lines[..|lines| - 1], lines[|lines| - 1];
      assert lines == front + [last];
      LoadOfValid(front);
      assert last in lines;
      LastIsNew(front, last);
      SetNew(front, last);
    }
  }

  /** Reading a rendered memory gives its entries in sorted order, and renders to the same lines. */
  lemma RenderThenLoad(memory: Memory, before: Before)
    requires Valid(memory) && StrictTotalOrder(before)
    ensures Valid(Render(memory, before))
    ensures Load(Render(memory, before)) == Render(memory, before)
    ensures Render(Render(memory, before), before) == Render(memory, before)
    ensures forall entry :: entry in Render(memory, before) <==> entry in memory
    ensures forall cacheKey :: Get(Render(memory, before), cacheKey) == Get(memory, cacheKey)
  {
    var rendered := Render(memory, before);
    SortSorts(memory, KeyOf, before);
    SortIsIdempotent(memory, KeyOf, before);
    LoadOfValid(rendered);
    forall cacheKey ensures Get(rendered, cacheKey) == Get(memory, cacheKey) {
      GetMember(rendered, cacheKey);
      GetMember(memory, cacheKey);
    }
  }

  // ----- the index by text hash -----

  predicate Indexed(entry: Entry, locale: string)
  {
    entry.targetLanguage == locale && entry.textHash != "" && !IsBlank(entry.translated)
  }

  /** For each text hash, the last indexed entry in memory order. */
  function ByTextHash(memory: Memory, locale: string): map<string, Entry>
  {
    if memory == [] then map[]
    else
      var rest, last := ByTextHash(memory[..|memory| - 1], locale), memory[|memory| - 1];
      if Indexed(last, locale) then rest[last.textHash := last] else rest
  }

  lemma {:induction false} ByTextHashMembers(memory: Memory, locale: string, textHash: string)
    ensures textHash in ByTextHash(memory, locale) ==>
      var entry := ByTextHash(memory, locale)[textHash];
      entry in memory && Indexed(entry, locale) && entry.textHash == textHash
    ensures textHash in ByTextHash(memory, locale) <==>
      exists entry :: entry in memory && Indexed(entry, locale) && entry.textHash == textHash
  {
    if memory != [] {
      var front, last := memory[..|memory| - 1], memory[|memory| - 1];
      ByTextHashMembers(front, locale, textHash);
      assert memory == front + [last];
    }
  }

  /** The entry at this place is the last one of its language and source text whose translation is not blank. */
  ghost predicate LastOfText(memory: Memory, locale: string, textHash: string, k: nat)
  {
    k < |memory| && IsOfText(memory[k], locale, textHash) &&
    forall j :: k < j < |memory| ==> !IsOfText(memory[j], locale, textHash)
  }

  ghost predicate IsOfText(entry: Entry, locale: string, textHash: string)
  {
    textHash != "" && entry.targetLanguage == locale && entry.textHash == textHash && !IsBlank(entry.translated)
  }

  /** The index leads from a text hash to the last entry for it, and knows every hash that has one. */
  lemma {:induction false} ByTextHashIsLast(memory: Memory, locale: string, textHash: string)
    ensures textHash in ByTextHash(memory, locale) <==> exists k: nat :: LastOfText(memory, locale, textHash, k)
    ensures forall k: nat :: LastOfText(memory, locale, textHash, k) ==>
              textHash in ByTextHash(memory, locale) && ByTextHash(memory, locale)[textHash] == memory[k]
  {
    if memory != [] {
      var front, n := memory[..|memory| - 1], |memory| - 1;
      ByTextHashIsLast(front, locale, textHash);
      if IsOfText(memory[n], locale, textHash) {
        assert LastOfText(memory, locale, textHash, n);
      } else {
        assert forall k: nat :: LastOfText(front, locale, textHash, k) <==> LastOfText(memory, locale, textHash, k);
      }
    }
  }

  method LoadTranslationMemory(lines: seq<Entry>) returns (memory: Memory)
    ensures memory == Load(lines) && Valid(memory)
  {
    memory := [];
    for i := 0 to |lines|
      invariant memory == Load(lines[..i])
    {
      assert lines[..i + 1][..i] == lines[..i];
      if lines[i].cacheKey != "" && !IsBlank(lines[i].translated) {
        memory := Set(memory, lines[i]);
      }
    }
    assert lines[..|lines|] == lines;
    LoadIsValid(lines);
  }

  method BuildTranslationMemoryByTextHash(memory: Memory, locale: string) returns (byTextHash: map<string, Entry>)
    ensures byTextHash == ByTextHash(memory, locale)
  {
    byTextHash := map[];
    for i := 0 to |memory|
      invariant byTextHash == ByTextHash(memory[..i], locale)
    {
      assert memory[..i + 1][..i] == memory[..i];
      if Indexed(memory[i], locale) {
        byTextHash := byTextHash[memory[i].textHash := memory[i]];
      }
    }
    assert memory[..|memory|] == memory;
  }
}
