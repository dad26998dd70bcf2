/**
  Bounded capture of a child's output. One script keeps the last characters and counts
  the dropped ones; the other keeps the last bytes. Bytes are characters here, which is
  exact for ASCII output.
*/
module OutputCapture {
  import opened Collections

  const RUN_PROCESS_OUTPUT_MAX_CHARS := 1024 * 1024

  datatype Capture = Capture(text: string, truncatedChars: nat)

  /** The configured limit, at least one; anything unusable means the default. */
  function OutputLimit(configured: Option<real>): (limit: nat)
    ensures limit >= 1
  {
    match configured
    case Some(value) =>
      if value <= 0.0 then RUN_PROCESS_OUTPUT_MAX_CHARS else if value.Floor < 1 then 1 else value.Floor
    case None => RUN_PROCESS_OUTPUT_MAX_CHARS
  }

  /** A positive limit is cut to a whole number, but not below one; without one it is a mebibyte. */
  lemma LimitMeaning(configured: Option<real>)
    ensures configured.None? || configured.value <= 0.0 ==> OutputLimit(configured) == 1048576
    ensures configured.Some? && configured.value >= 1.0 ==>
              OutputLimit(configured) as real <= configured.value < OutputLimit(configured) as real + 1.0
    ensures configured.Some? && 0.0 < configured.value < 1.0 ==> OutputLimit(configured) == 1
  {
  }

  /** The last `max` elements. */
  function Tail(s: string, max: nat): string
  {
    if |s| <= max then s else s[|s| - max..]
  }

  function AppendBounded(capture: Capture, chunk: string, maxChars: nat): Capture
    requires maxChars >= 1
  {
    var nextText := capture.text + chunk;
    if |nextText| <= maxChars then Capture(nextText, capture.truncatedChars)
    else Capture(nextText[|nextText| - maxChars..], capture.truncatedChars + |nextText| - maxChars)
  }

  function CaptureAll(chunks: seq<string>, maxChars: nat): Capture
    requires maxChars >= 1
  {
    if chunks == [] then Capture("", 0)
    else AppendBounded(CaptureAll(chunks[..|chunks| - 1], maxChars), chunks[|chunks| - 1], maxChars)
  }

  /** What is dropped before a chunk arrives would be dropped after it anyway. */
  lemma TailAppend(s: string, chunk: string, max: nat)
    ensures Tail(Tail(s, max) + chunk, max) == Tail(s + chunk, max)
  {
    if |s| > max {
      var dropped := |s| - max;
      assert Tail(s, max) + chunk == (s + chunk)[dropped..];
    }
  }

  lemma {:induction false} LastChunk(chunks: seq<string>)
    requires chunks != []
    ensures Concat(chunks) == Concat(chunks[..|chunks| - 1]) + chunks[|chunks| - 1]
  {
    ConcatSnoc(chunks[..|chunks| - 1], chunks[|chunks| - 1]);
    assert chunks == chunks[..|chunks| - 1] + [chunks[|chunks| - 1]];
  }

  /** However the output is cut into chunks, the capture is its exact tail and counts what is gone. */
  lemma {:induction false} CaptureIsTail(chunks: seq<string>, maxChars: nat)
    requires maxChars >= 1
    ensures CaptureAll(chunks, maxChars).text == Tail(Concat(chunks), maxChars)
    ensures |CaptureAll(chunks, maxChars).text| + CaptureAll(chunks, maxChars).truncatedChars == |Concat(chunks)|
  {
    if chunks != [] {
      var front, last := chunks[..|chunks| - 1], chunks[|chunks| - 1];
      CaptureIsTail(front, maxChars);
      LastChunk(chunks);
      TailAppend(Concat(front), last, maxChars);
    }
  }

  /** Nothing is missing exactly when nothing was counted as dropped. */
  lemma CompleteCapture(chunks: seq<string>, maxChars: nat)
    requires maxChars >= 1
    ensures CaptureAll(chunks, maxChars).truncatedChars == 0 <==> |Concat(chunks)| <= maxChars
    ensures CaptureAll(chunks, maxChars).truncatedChars == 0 <==> CaptureAll(chunks, maxChars).text == Concat(chunks)
  {
    CaptureIsTail(chunks, maxChars);
  }

  // ----- the byte form -----

  function AppendBoundedBytes(current: string, chunk: string, maxBytes: nat): string
  {
    if |chunk| >= maxBytes then chunk[|chunk| - maxBytes..]
    else if |current| + |chunk| <= maxBytes then current + chunk
    else
      var currentTailBytes := maxBytes - |chunk|;
      current[|current| - currentTailBytes..] + chunk
  }

  function CaptureAllBytes(chunks: seq<string>, maxBytes: nat): string
  {
    if chunks == [] then ""
    else AppendBoundedBytes(CaptureAllBytes(chunks[..|chunks| - 1], maxBytes), chunks[|chunks| - 1], maxBytes)
  }

  lemma AppendBytesIsTail(current: string, chunk: string, maxBytes: nat)
    ensures AppendBoundedBytes(current, chunk, maxBytes) == Tail(current + chunk, maxBytes)
  {
  }

  /** The byte form keeps the same tail as the character form. */
  lemma {:induction false} ByteCaptureIsTail(chunks: seq<string>, maxBytes: nat)
    requires maxBytes >= 1
    ensures CaptureAllBytes(chunks, maxBytes) == Tail(Concat(chunks), maxBytes) == CaptureAll(chunks, maxBytes).text
  {
    CaptureIsTail(chunks, maxBytes);
    if chunks != [] {
      var front, last := chunks[..|chunks| - 1], chunks[|chunks| - 1];
      ByteCaptureIsTail(front, maxBytes);
      LastChunk(chunks);
      TailAppend(Concat(front), last, maxBytes);
      AppendBytesIsTail(Tail(Concat(front), maxBytes), last, maxBytes);
    }
  }
}
