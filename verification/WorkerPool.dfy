/**
  The concurrent file readers: workers that claim indices from one shared counter and
  store what they read at the claimed index. A worker gives way only while it reads, so
  every interleaving is a sequence of claims and completed reads.
*/
module WorkerPool {
  import opened Collections

  const FILE_READ_CONCURRENCY := 24

  datatype SourceFile = SourceFile(relativePath: string, source: string)

  datatype Worker = Ready | Reading(index: nat) | Finished

  /** The files to read: their paths, how a path is shown, and what reading an index gives, if anything. */
  datatype Job = Job(paths: seq<string>, relative: string -> string, read: nat -> Option<string>)

  /** What the slot of an index ends up with: nothing for an empty path or a failed read. */
  function Slot(job: Job, i: nat): Option<SourceFile>
    requires i < |job.paths|
  {
    if job.paths[i] == "" then None
    else
      match job.read(i)
      case Some(source) => Some(SourceFile(job.relative(job.paths[i]), source))
      case None => None
  }

  function Present(slots: seq<Option<SourceFile>>): seq<SourceFile>
  {
    if slots == [] then []
    else
      var front, last := Present(slots[..|slots| - 1]), slots[|slots| - 1];
      if last.Some? then front + [last.value] else front
  }

  /** The slots of the first so many indices. */
  function Slots(job: Job, n: nat): (slots: seq<Option<SourceFile>>)
    requires n <= |job.paths|
    ensures |slots| == n
  {
    seq(n, i requires 0 <= i < n => Slot(job, i))
  }

  /** Reading the files one after the other. */
  function Sequential(job: Job): seq<SourceFile>
  {
    Present(Slots(job, |job.paths|))
  }

  // ----- the shared state -----

  function Min(a: int, b: int): int { if a < b then a else b }

  function Claimed(job: Job, nextIndex: nat): nat { Min(nextIndex, |job.paths|) }

  ghost predicate PoolInv(job: Job, nextIndex: nat, workers: seq<Worker>, output: seq<Option<SourceFile>>)
  {
    && |output| == |job.paths|
    && (forall i :: Claimed(job, nextIndex) <= i < |output| ==> output[i] == None)
    && (forall w :: 0 <= w < |workers| && workers[w].Reading? ==>
          && workers[w].index < Claimed(job, nextIndex)
          && job.paths[workers[w].index] != ""
          && output[workers[w].index] == None)
    && (forall v, w :: 0 <= v < w < |workers| && workers[v].Reading? && workers[w].Reading? ==>
          workers[v].index != workers[w].index)
    && (forall i :: 0 <= i < Claimed(job, nextIndex) ==>
          output[i] == Slot(job, i) || (output[i] == None && Reading(i) in workers))
    && (Finished in workers ==> nextIndex >= |job.paths|)
  }

  function Work(worker: Worker): nat
  {
    match worker case Ready => 1 case Reading(_) => 2 case Finished => 0
  }

  /** How much is left to do: a claim, a read and a return for each index and worker. */
  function Weight(workers: seq<Worker>): nat
  {
    if workers == [] then 0 else Weight(workers[..|workers| - 1]) + Work(workers[|workers| - 1])
  }

  function Measure(job: Job, nextIndex: nat, workers: seq<Worker>): nat
  {
    3 * (|job.paths| - Claimed(job, nextIndex)) + Weight(workers)
  }

  lemma {:induction false} WeightUpdate(workers: seq<Worker>, w: nat, worker: Worker)
    requires w < |workers|
    ensures Weight(workers[w := worker]) == Weight(workers) - Work(workers[w]) + Work(worker)
  {
    var last := |workers| - 1;
    if w < last {
      WeightUpdate(workers[..last], w, worker);
      assert workers[w := worker][..last] == workers[..last][w := worker];
    } else {
      assert workers[w := worker][..last] == workers[..last];
    }
  }

  lemma {:induction false} ReadyWeight(workers: seq<Worker>)
    requires forall w :: 0 <= w < |workers| ==> workers[w] == Ready
    ensures Weight(workers) == |workers|
  {
    if workers != [] {
      ReadyWeight(workers[..|workers| - 1]);
    }
  }

  lemma StartInv(job: Job, workers: seq<Worker>, output: seq<Option<SourceFile>>)
    requires forall w :: 0 <= w < |workers| ==> workers[w] == Ready
    requires |output| == |job.paths| && forall i :: 0 <= i < |output| ==> output[i] == None
    ensures PoolInv(job, 0, workers, output)
    ensures Measure(job, 0, workers) == 3 * |job.paths| + |workers|
  {
    ReadyWeight(workers);
  }

  function FirstIndices(n: nat): seq<nat> { seq(n, i => i) }
  /** What a ready worker does with the index it claims. */
  function AfterClaim(job: Job, index: nat): Worker
  {
    if index >= |job.paths| then Finished else if job.paths[index] == "" then Ready else Reading(index)
  }

  lemma ClaimKeepsInv(job: Job, nextIndex: nat, workers: seq<Worker>, output: seq<Option<SourceFile>>, w: nat)
    requires PoolInv(job, nextIndex, workers, output) && w < |workers| && workers[w] == Ready
    ensures var after := workers[w := AfterClaim(job, nextIndex)];
      && PoolInv(job, nextIndex + 1, after, output)
      && Measure(job, nextIndex + 1, after) < Measure(job, nextIndex, workers)
  {
    var after := workers[w := AfterClaim(job, nextIndex)];
    WeightUpdate(workers, w, AfterClaim(job, nextIndex));
    assert after[w] in after;
    forall i | 0 <= i < Claimed(job, nextIndex) && output[i] != Slot(job, i)
      ensures output[i] == None && Reading(i) in after
    {
      var v :| 0 <= v < |workers| && workers[v] == Reading(i);
      assert after[v] == Reading(i);
    }
  }

  lemma ReadKeepsInv(job: Job, nextIndex: nat, workers: seq<Worker>, output: seq<Option<SourceFile>>, w: nat)
    requires PoolInv(job, nextIndex, workers, output) && w < |workers| && workers[w].Reading?
    ensures workers[w].index < |output|
    ensures var index := workers[w].index;
      && PoolInv(job, nextIndex, workers[w := Ready], output[index := Slot(job, index)])
      && Measure(job, nextIndex, workers[w := Ready]) < Measure(job, nextIndex, workers)
  {
    var index, after := workers[w].index, workers[w := Ready];
    WeightUpdate(workers, w, Ready);
    forall i | 0 <= i < Claimed(job, nextIndex) && i != index && output[i] != Slot(job, i)
      ensures Reading(i) in after
    {
      var v :| 0 <= v < |workers| && workers[v] == Reading(i);
      assert after[v] == Reading(i);
    }
    if Finished in after {
      var v :| 0 <= v < |after| && after[v] == Finished;
      assert workers[v] in workers;
    }
  }

  lemma AllFinished(job: Job, nextIndex: nat, workers: seq<Worker>, output: seq<Option<SourceFile>>)
    requires PoolInv(job, nextIndex, workers, output) && |workers| > 0
    requires forall w :: 0 <= w < |workers| ==> workers[w] == Finished
    ensures Present(output) == Sequential(job) && Claimed(job, nextIndex) == |job.paths|
  {
    assert workers[0] in workers;
    assert output == Slots(job, |job.paths|);
  }

  /**
    The pool under every interleaving: whichever worker moves next, each index is claimed
    once and in order, the pool stops within three moves an index and one a worker, and
    the files come out as if read one after the other.
  */
  method ReadRuntimeSourceFiles(job: Job) returns (files: seq<SourceFile>, claims: seq<nat>, moves: nat)
    ensures files == Sequential(job)
    ensures claims == FirstIndices(|job.paths|)
    ensures moves <= 3 * |job.paths| + 24
  {
    var n := |job.paths|;
    var output := new Option<SourceFile>[n](_ => None);
    var nextIndex: nat := 0;
    var size := Min(FILE_READ_CONCURRENCY, if 1 < n then n else 1);
    var workers := seq(size, _ => Ready);
    claims, moves := [], 0;
    StartInv(job, workers, output[..]);
    while exists w :: 0 <= w < |workers| && workers[w] != Finished
      invariant |workers| == size
      invariant PoolInv(job, nextIndex, workers, output[..])
      invariant claims == FirstIndices(Claimed(job, nextIndex))
      invariant moves + Measure(job, nextIndex, workers) <= 3 * n + size
      decreases Measure(job, nextIndex, workers)
    {
      var w :| 0 <= w < |workers| && workers[w] != Finished;
      moves := moves + 1;
      nextIndex, workers, claims := Move(job, nextIndex, workers, output, claims, w);
    }
    AllFinished(job, nextIndex, workers, output[..]);
    files := Filter(output[..]);
  }

  /** One move of one worker: it claims the next index, or its read completes. */
  method Move(job: Job, index: nat, workers0: seq<Worker>, output: array<Option<SourceFile>>, claims0: seq<nat>, w: nat)
      returns (nextIndex: nat, workers: seq<Worker>, claims: seq<nat>)
    requires PoolInv(job, index, workers0, output[..]) && claims0 == FirstIndices(Claimed(job, index))
    requires w < |workers0| && workers0[w] != Finished
    modifies output
    ensures PoolInv(job, nextIndex, workers, output[..]) && claims == FirstIndices(Claimed(job, nextIndex))
    ensures |workers| == |workers0| && Measure(job, nextIndex, workers) < Measure(job, index, workers0)
  {
    nextIndex, claims := index, claims0;
    match workers0[w] {
      case Ready =>
        ClaimKeepsInv(job, index, workers0, output[..], w);
        nextIndex := index + 1;
        if index < |job.paths| {
          claims := claims + [index];
        }
        var next := Proceed(job, index);
        workers := workers0[w := next];
      case Reading(claimed) =>
        ReadKeepsInv(job, index, workers0, output[..], w);
        ghost var before := output[..];
        Store(job, claimed, output);
        assert output[..] == before[claimed := Slot(job, claimed)];
        workers := workers0[w := Ready];
    }
  }

  /** A worker past the end returns, one with an empty path goes on, any other one starts to read. */
  method Proceed(job: Job, index: nat) returns (worker: Worker)
    ensures worker == AfterClaim(job, index)
  {
    if index >= |job.paths| {
      return Finished;
    }
    if job.paths[index] == "" {
      return Ready;
    }
    worker := Reading(index);
  }

  /** A completed read: a file that could not be read leaves its slot empty. */
  method Store(job: Job, index: nat, output: array<Option<SourceFile>>)
    requires index < |job.paths| == output.Length && job.paths[index] != "" && output[index] == None
    modifies output
    ensures output[..] == old(output[..])[index := Slot(job, index)]
  {
    var content := job.read(index);
    if content.Some? {
      output[index] := Some(SourceFile(job.relative(job.paths[index]), content.value));
    }
  }

  method Filter(slots: seq<Option<SourceFile>>) returns (files: seq<SourceFile>)
    ensures files == Present(slots)
  {
    files := [];
    for i := 0 to |slots|
      invariant files == Present(slots[..i])
    {
      assert slots[..i + 1][..i] == slots[..i];
      if slots[i].Some? {
        files := files + [slots[i].value];
      }
    }
    assert slots[..|slots|] == slots;
  }

  // ----- what the files are -----

  /** The file at this index is there and could be read. */
  predicate IsRead(job: Job, i: int)
  {
    0 <= i < |job.paths| && job.paths[i] != "" && job.read(i).Some?
  }

  /** The files are those of these indices, under the shown form of their paths. */
  ghost predicate FilesAt(job: Job, files: seq<SourceFile>, at: seq<int>)
  {
    && |files| == |at|
    && forall j :: 0 <= j < |at| ==>
         && IsRead(job, at[j])
         && files[j].relativePath == job.relative(job.paths[at[j]]) && Some(files[j].source) == job.read(at[j])
  }

  ghost predicate ReadBelow(job: Job, n: nat, at: seq<int>)
  {
    && (forall j, k :: 0 <= j < k < |at| ==> at[j] < at[k])
    && (forall i :: i in at <==> i < n && IsRead(job, i))
  }

  lemma {:induction false} FilesBelow(job: Job, n: nat) returns (at: seq<int>)
    requires n <= |job.paths|
    ensures ReadBelow(job, n, at)
    ensures FilesAt(job, Present(Slots(job, n)), at)
  {
    at := [];
    if n > 0 {
      var k := n - 1;
      at := FilesBelow(job, k);
      assert Slots(job, n)[..k] == Slots(job, k);
      if IsRead(job, k) {
        assert forall j :: 0 <= j < |at| ==> at[j] in at;
        at := at + [k];
      }
    }
  }

  /** The files are those that are there and could be read, each once and in the order of their paths. */
  lemma FilesMeaning(job: Job) returns (at: seq<int>)
    ensures ReadBelow(job, |job.paths|, at) && FilesAt(job, Sequential(job), at)
  {
    at := FilesBelow(job, |job.paths|);
  }
}
