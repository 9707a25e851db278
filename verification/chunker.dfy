/**
 * The text chunker `split_text_by_tokens` (app.py:36-39).
 *
 * The token budget is turned into a character width with a fixed ratio of
 * four characters per token, and the text is sliced at every multiple of
 * that width by a list comprehension over `range(0, len(text), width)`.
 */
module Chunker {
  import opened Common

  /** Characters assumed per token (app.py:37). */
  const AvgTokenLength: nat := 4

  /** `range(0, n, 0)` raises `ValueError`: a zero-width chunk is refused. */
  datatype ChunkError = ZeroStep

  /**
   * Python's `range(start, stop, step)` for a positive step: the values
   * `start, start + step, ...` below `stop`, none left out: the range is
   * empty exactly when `start >= stop`, and one more step from its last
   * value reaches `stop`.
   */
  function Range(start: nat, stop: nat, step: nat): (r: seq<nat>)
    requires step > 0
    ensures forall k | 0 <= k < |r| :: r[k] == start + k * step && r[k] < stop
    ensures |r| > 0 <==> start < stop
    ensures |r| > 0 ==> stop <= r[|r| - 1] + step
    decreases stop - start
  {
    if start >= stop then []
    else
      var rest := Range(start + step, stop, step);
      assert forall k | 1 <= k <= |rest| :: start + step + (k - 1) * step == start + k * step;
      [start] + rest
  }

  /** The comprehension `[text[i:i+size] for i in starts]`. */
  function SlicesAt(text: string, starts: seq<nat>, size: nat): seq<string> {
    seq(|starts|, k requires 0 <= k < |starts| => PySlice(text, starts[k], starts[k] + size))
  }

  /** The comprehension of app.py:39 for a positive chunk width: it gives the reference chunks. */
  function SplitBySize(text: string, size: nat): (r: seq<string>)
    requires size > 0
    ensures r == Chunks(text, size)
  {
    SplitMatchesChunks(text, size);
    SlicesAt(text, Range(0, |text|, size), size)
  }

  /**
   * `split_text_by_tokens(text, max_tokens)`: a zero width raises, a negative
   * width gives Python's empty range, and a positive width gives chunks that
   * write the text back exactly, are never empty, all have the full width
   * except the last, and number `ceil(len(text) / width)`.
   */
  function SplitTextByTokens(text: string, maxTokens: int): (r: Result<seq<string>, ChunkError>)
    ensures r.Failure? <==> maxTokens == 0
    ensures maxTokens < 0 ==> r == Success([])
    ensures maxTokens > 0 ==> r.Success? && IsChunking(r.value, text, maxTokens * AvgTokenLength)
  {
    var chunkSize := maxTokens * AvgTokenLength;
    if chunkSize == 0 then Failure(ZeroStep)
    else if chunkSize < 0 then Success([])
    else Success(SplitBySize(text, chunkSize))
  }

  /**
   * `chunks` is a chunking of `text` at width `size`: it covers the text in
   * order with no gap or overlap, every piece is non-empty and at most `size`
   * long, all but the last are exactly `size` long, and there are
   * `ceil(|text| / size)` of them.
   */
  ghost predicate IsChunking(chunks: seq<string>, text: string, size: nat)
    requires size > 0
  {
    && Concat(chunks) == text
    && |chunks| == CeilDiv(|text|, size)
    && (forall i | 0 <= i < |chunks| :: 0 < |chunks[i]| <= size)
    && (forall i | 0 <= i < |chunks| - 1 :: |chunks[i]| == size)
  }

  /** Reference definition: peel off one full-width piece at a time. */
  function Chunks(text: string, size: nat): (r: seq<string>)
    requires size > 0
    ensures IsChunking(r, text, size)
    decreases |text|
  {
    if |text| == 0 then
      CeilDivZero(size);
      []
    else if |text| <= size then
      CeilDivSmall(|text|, size);
      [text]
    else
      CeilDivStep(|text|, size);
      [text[..size]] + Chunks(text[size..], size)
  }

  /** A non-empty range is its start followed by the range one step on. */
  lemma RangeCons(start: nat, stop: nat, step: nat)
    requires step > 0 && start < stop
    ensures Range(start, stop, step) == [start] + Range(start + step, stop, step)
  {
  }

  lemma SlicesAtCons(text: string, start: nat, starts: seq<nat>, size: nat)
    ensures SlicesAt(text, [start] + starts, size) == [PySlice(text, start, start + size)] + SlicesAt(text, starts, size)
  {
  }

  /** The comprehension over the starts from `start` yields the chunks of `text[start..]`. */
  lemma {:induction false} SlicesFromMatchChunks(text: string, start: nat, size: nat)
    requires size > 0 && start <= |text|
    ensures SlicesAt(text, Range(start, |text|, size), size) == Chunks(text[start..], size)
    decreases |text| - start
  {
    if start < |text| {
      if start + size >= |text| {
        LastSliceIsRest(text, start, size);
      } else {
        SliceStep(text, start, size);
        SlicesFromMatchChunks(text, start + size, size);
      }
    }
  }

  /** The last start of the range slices off the rest of the text, which is its last chunk. */
  lemma LastSliceIsRest(text: string, start: nat, size: nat)
    requires size > 0 && start < |text| <= start + size
    ensures SlicesAt(text, Range(start, |text|, size), size) == Chunks(text[start..], size)
  {
    RangeCons(start, |text|, size);
    SlicesAtCons(text, start, Range(start + size, |text|, size), size);
    assert PySlice(text, start, start + size) == text[start..];
  }

  /** An earlier start slices off one full chunk, and both sides continue one width on. */
  lemma SliceStep(text: string, start: nat, size: nat)
    requires size > 0 && start + size < |text|
    ensures SlicesAt(text, Range(start, |text|, size), size)
      == [text[start..start + size]] + SlicesAt(text, Range(start + size, |text|, size), size)
    ensures Chunks(text[start..], size) == [text[start..start + size]] + Chunks(text[start + size..], size)
  {
    RangeCons(start, |text|, size);
    SlicesAtCons(text, start, Range(start + size, |text|, size), size);
    assert text[start..][..size] == PySlice(text, start, start + size) == text[start..start + size];
    assert text[start..][size..] == text[start + size..];
  }

  /** The comprehension of app.py:39 and the reference chunking agree on every input. */
  lemma SplitMatchesChunks(text: string, size: nat)
    requires size > 0
    ensures SlicesAt(text, Range(0, |text|, size), size) == Chunks(text, size)
  {
    SlicesFromMatchChunks(text, 0, size);
    assert text[0..] == text;
  }

  /**
   * A chunking is unique: any list of pieces with the chunker's shape that
   * writes `text` back is the chunker's output.
   */
  lemma {:induction false} ChunkingIsUnique(chunks: seq<string>, text: string, size: nat)
    requires size > 0
    requires Concat(chunks) == text
    requires forall i | 0 <= i < |chunks| :: 0 < |chunks[i]| <= size
    requires forall i | 0 <= i < |chunks| - 1 :: |chunks[i]| == size
    ensures chunks == Chunks(text, size)
    decreases |chunks|
  {
    if |chunks| == 0 {
    } else if |chunks| == 1 {
      assert chunks[1..] == [];
      assert Concat(chunks) == chunks[0];
      assert chunks == [text];
    } else {
      var rest := chunks[1..];
      assert text == chunks[0] + Concat(rest);
      assert |Concat(rest)| > 0 by {
        assert Concat(rest) == rest[0] + Concat(rest[1..]);
      }
      assert |text| > size;
      assert text[..size] == chunks[0];
      assert text[size..] == Concat(rest);
      ChunkingIsUnique(rest, text[size..], size);
    }
  }

  /** Empty text gives no chunks for any valid budget (app.py:39). */
  lemma EmptyTextHasNoChunks(maxTokens: int)
    requires maxTokens != 0
    ensures SplitTextByTokens("", maxTokens) == Success([])
  {
    if maxTokens > 0 {
      var r := SplitTextByTokens("", maxTokens);
      CeilDivZero(maxTokens * AvgTokenLength);
      assert |r.value| == 0;
    }
  }

  /** A 1000-character text at a budget of 100 tokens gives three chunks: 400, 400 and 200 characters. */
  lemma ThousandCharactersMakeThreeChunks(text: string)
    requires |text| == 1000
    ensures SplitTextByTokens(text, 100).Success?
    ensures var chunks := SplitTextByTokens(text, 100).value;
      |chunks| == 3 && chunks[0] == text[..400] && chunks[1] == text[400..800] && chunks[2] == text[800..]
  {
    var chunks := SplitTextByTokens(text, 100).value;
    SplitMatchesChunks(text, 400);
    assert chunks == Chunks(text, 400);
    assert text[400..][..400] == text[400..800];
    assert text[400..][400..] == text[800..];
  }
}
