/**
 * The word-chunked summarization driver (`summarize_text`): short texts come back
 * unchanged, texts of at most 1000 words are summarized in one call, longer texts are
 * cut into 1000-word chunks whose summaries (or, on failure, own text) are joined.
 */
module Summarizer {
  import opened Wrappers
  import opened Slicing
  import opened Words

  /** The most words sent to the model in one call. */
  const ChunkSize: nat := 1000

  /** The defaults of the `max_length` and `min_length` parameters. */
  const DefaultMaxLength: int := 200
  const DefaultMinLength: int := 30

  /** The summarization model call on (text, max_length, min_length): the summary, or None when it raises. */
  type SummaryModel = (string, int, int) -> Option<string>

  /**
   * What one chunk of a long text adds to the result: nothing when its text has fewer
   * than min_length words, else the model's summary, or the chunk's own text when the
   * model fails.
   */
  function Contribution(chunk: seq<string>, maxLength: int, minLength: int, model: SummaryModel): Option<string>
  {
    var chunkText := Join(chunk);
    if |Split(chunkText)| < minLength then None
    else match model(chunkText, maxLength, minLength)
      case Some(summary) => Some(summary)
      case None => Some(chunkText)
  }

  /** The contributions of the chunks, in chunk order, skipping the chunks that add nothing. */
  function Contributions(chunks: seq<seq<string>>, maxLength: int, minLength: int, model: SummaryModel): seq<string>
  {
    if chunks == [] then []
    else
      var earlier := Contributions(chunks[..|chunks| - 1], maxLength, minLength, model);
      match Contribution(chunks[|chunks| - 1], maxLength, minLength, model)
      case Some(s) => earlier + [s]
      case None => earlier
  }

  /** The result of `summarize_text`. */
  function Summary(text: string, maxLength: int, minLength: int, model: SummaryModel): string
  {
    var words := Split(text);
    if |words| <= minLength then text
    else if |words| > ChunkSize then
      Join(Contributions(Windows(words, ChunkSize), maxLength, minLength, model))
    else match model(text, maxLength, minLength)
      case Some(summary) => summary
      case None => text
  }

  /** The texts of the chunks that reach the model, in chunk order. */
  function ChunkInputs(chunks: seq<seq<string>>, minLength: int): seq<string>
  {
    if chunks == [] then []
    else
      var earlier := ChunkInputs(chunks[..|chunks| - 1], minLength);
      var chunkText := Join(chunks[|chunks| - 1]);
      if |Split(chunkText)| < minLength then earlier else earlier + [chunkText]
  }

  /** The texts `summarize_text` hands to the model, one per call, in call order. */
  function ModelInputs(text: string, minLength: int): seq<string>
  {
    var words := Split(text);
    if |words| <= minLength then []
    else if |words| > ChunkSize then ChunkInputs(Windows(words, ChunkSize), minLength)
    else [text]
  }

  /**
   * `summarize_text`, with the per-chunk loop of the long-text branch. The ghost
   * `calls` records the text of every model call, in call order.
   */
  method SummarizeText(text: string, model: SummaryModel, maxLength: int := DefaultMaxLength, minLength: int := DefaultMinLength)
    returns (r: string, ghost calls: seq<string>)
    ensures r == Summary(text, maxLength, minLength, model)
    ensures calls == ModelInputs(text, minLength)
  {
    calls := [];
    var words := Split(text);
    if |words| <= minLength {
      return text, calls;
    }
    var wordCount := |words|;
    if wordCount > ChunkSize {
      var chunks := Windows(words, ChunkSize);
      var summaries: seq<string> := [];
      for j := 0 to |chunks|
        invariant summaries == Contributions(chunks[..j], maxLength, minLength, model)
        invariant calls == ChunkInputs(chunks[..j], minLength)
      {
        assert chunks[..j + 1][..j] == chunks[..j];
        var chunkText := Join(chunks[j]);
        if |Split(chunkText)| < minLength {
          continue;
        }
        calls := calls + [chunkText];
        match model(chunkText, maxLength, minLength) {
          case Some(summary) =>
            summaries := summaries + [summary];
          case None =>
            summaries := summaries + [chunkText];
        }
      }
      assert chunks[..|chunks|] == chunks;
      return Join(summaries), calls;
    } else {
      calls := calls + [text];
      match model(text, maxLength, minLength) {
        case Some(summary) =>
          return summary, calls;
        case None =>
          return text, calls;
      }
    }
  }

  /** A text of at most min_length words is returned unchanged, with no model call. */
  lemma ShortTextUnchanged(text: string, maxLength: int, minLength: int, model: SummaryModel)
    requires |Split(text)| <= minLength
    ensures Summary(text, maxLength, minLength, model) == text
    ensures ModelInputs(text, minLength) == []
  {
  }

  /**
   * A text of W > 1000 words is cut into ceil(W / 1000) chunks of words; all but the
   * last hold 1000 words, the last 1 to 1000, and in order they give back the words.
   */
  lemma WordChunksLaw(text: string)
    requires |Split(text)| > ChunkSize
    ensures var words := Split(text);
      var chunks := Windows(words, ChunkSize);
      && |chunks| == CeilDiv(|words|, ChunkSize)
      && Flatten(chunks) == words
      && (forall k :: 0 <= k < |chunks| - 1 ==> |chunks[k]| == ChunkSize)
      && 1 <= |chunks[|chunks| - 1]| <= ChunkSize
  {
    var words := Split(text);
    var chunks := Windows(words, ChunkSize);
    WindowsCount(words, ChunkSize);
    WindowsFlatten(words, ChunkSize);
    forall k | 0 <= k < |chunks| - 1 ensures |chunks[k]| == ChunkSize {
      WindowSizes(words, ChunkSize, k);
    }
    WindowSizes(words, ChunkSize, |chunks| - 1);
  }

  /** Every chunk of a text's words consists of words. */
  lemma {:induction false} ChunksAreWords(words: seq<string>, n: nat)
    requires n > 0
    requires forall i :: 0 <= i < |words| ==> IsWord(words[i])
    ensures forall k, i :: 0 <= k < |Windows(words, n)| && 0 <= i < |Windows(words, n)[k]| ==> IsWord(Windows(words, n)[k][i])
    decreases |words|
  {
    if |words| > n {
      ChunksAreWords(words[n..], n);
    }
  }

  /**
   * A chunk of fewer than min_length words adds nothing; any other chunk adds the
   * model's summary of its space-joined text, or that text itself when the model fails.
   */
  lemma ContributionLaw(chunk: seq<string>, maxLength: int, minLength: int, model: SummaryModel)
    requires forall i :: 0 <= i < |chunk| ==> IsWord(chunk[i])
    ensures Contribution(chunk, maxLength, minLength, model).None? <==> |chunk| < minLength
    ensures |chunk| >= minLength && model(Join(chunk), maxLength, minLength).None? ==>
      Contribution(chunk, maxLength, minLength, model) == Some(Join(chunk))
    ensures |chunk| >= minLength && model(Join(chunk), maxLength, minLength).Some? ==>
      Contribution(chunk, maxLength, minLength, model) == model(Join(chunk), maxLength, minLength)
  {
    SplitJoin(chunk);
  }

  /** There are never more contributions than chunks. */
  lemma {:induction false} ContributionsBound(chunks: seq<seq<string>>, maxLength: int, minLength: int, model: SummaryModel)
    ensures |Contributions(chunks, maxLength, minLength, model)| <= |chunks|
  {
    if chunks != [] {
      ContributionsBound(chunks[..|chunks| - 1], maxLength, minLength, model);
    }
  }

  /** Chunks of words none of which is short all contribute. */
  lemma {:induction false} LongChunksAllContribute(chunks: seq<seq<string>>, maxLength: int, minLength: int, model: SummaryModel)
    requires forall k, i :: 0 <= k < |chunks| && 0 <= i < |chunks[k]| ==> IsWord(chunks[k][i])
    requires forall k :: 0 <= k < |chunks| ==> |chunks[k]| >= minLength
    ensures |Contributions(chunks, maxLength, minLength, model)| == |chunks|
  {
    if chunks != [] {
      LongChunksAllContribute(chunks[..|chunks| - 1], maxLength, minLength, model);
      ContributionLaw(chunks[|chunks| - 1], maxLength, minLength, model);
    }
  }

  /** Chunks of words all of which are short contribute nothing. */
  lemma {:induction false} ShortChunksVanish(chunks: seq<seq<string>>, maxLength: int, minLength: int, model: SummaryModel)
    requires forall k, i :: 0 <= k < |chunks| && 0 <= i < |chunks[k]| ==> IsWord(chunks[k][i])
    requires forall k :: 0 <= k < |chunks| ==> |chunks[k]| < minLength
    ensures Contributions(chunks, maxLength, minLength, model) == []
  {
    if chunks != [] {
      ShortChunksVanish(chunks[..|chunks| - 1], maxLength, minLength, model);
      ContributionLaw(chunks[|chunks| - 1], maxLength, minLength, model);
    }
  }

  /**
   * A text of W > max(1000, min_length) words gives the space-join of its chunks'
   * contributions, in chunk order: at most ceil(W / 1000) of them, and at least
   * ceil(W / 1000) - 1 when min_length <= 1000, since every full chunk is summarized.
   * When min_length > 1000 every chunk is short and the result is the empty string.
   */
  lemma LongTextSummary(text: string, maxLength: int, minLength: int, model: SummaryModel)
    requires |Split(text)| > minLength && |Split(text)| > ChunkSize
    ensures var words := Split(text);
      var contributions := Contributions(Windows(words, ChunkSize), maxLength, minLength, model);
      && Summary(text, maxLength, minLength, model) == Join(contributions)
      && |contributions| <= CeilDiv(|words|, ChunkSize)
      && (minLength <= ChunkSize ==> |contributions| >= CeilDiv(|words|, ChunkSize) - 1)
      && (minLength > ChunkSize ==> Summary(text, maxLength, minLength, model) == "")
  {
    var words := Split(text);
    var chunks := Windows(words, ChunkSize);
    WordChunksLaw(text);
    ChunksAreWords(words, ChunkSize);
    ContributionsBound(chunks, maxLength, minLength, model);
    if minLength <= ChunkSize {
      var full := chunks[..|chunks| - 1];
      assert chunks[..|chunks| - 1] == full;
      LongChunksAllContribute(full, maxLength, minLength, model);
    } else {
      forall k | 0 <= k < |chunks| ensures |chunks[k]| < minLength {
        WindowSizes(words, ChunkSize, k);
      }
      ShortChunksVanish(chunks, maxLength, minLength, model);
    }
  }

  /**
   * A text of min_length < W <= 1000 words makes exactly one model call, on the text
   * itself, and the result is the summary, or the text when the call fails.
   */
  lemma MidTextSingleCall(text: string, maxLength: int, minLength: int, model: SummaryModel)
    requires minLength < |Split(text)| <= ChunkSize
    ensures ModelInputs(text, minLength) == [text]
    ensures Summary(text, maxLength, minLength, model)
         == match model(text, maxLength, minLength) case Some(s) => s case None => text
  {
  }

  lemma {:induction false} ContributionsAgree(chunks: seq<seq<string>>, maxLength: int, minLength: int, m1: SummaryModel, m2: SummaryModel)
    requires forall t :: t in ChunkInputs(chunks, minLength) ==> m1(t, maxLength, minLength) == m2(t, maxLength, minLength)
    ensures Contributions(chunks, maxLength, minLength, m1) == Contributions(chunks, maxLength, minLength, m2)
  {
    if chunks != [] {
      ContributionsAgree(chunks[..|chunks| - 1], maxLength, minLength, m1, m2);
    }
  }

  /**
   * The result depends on the model only through the calls listed by ModelInputs:
   * two models that agree on those texts give the same result.
   */
  lemma SummaryDependsOnlyOnModelInputs(text: string, maxLength: int, minLength: int, m1: SummaryModel, m2: SummaryModel)
    requires forall t :: t in ModelInputs(text, minLength) ==> m1(t, maxLength, minLength) == m2(t, maxLength, minLength)
    ensures Summary(text, maxLength, minLength, m1) == Summary(text, maxLength, minLength, m2)
  {
    var words := Split(text);
    if minLength < |words| && |words| > ChunkSize {
      ContributionsAgree(Windows(words, ChunkSize), maxLength, minLength, m1, m2);
    }
  }

  /** No more chunks reach the model than there are chunks. */
  lemma {:induction false} ChunkInputsBound(chunks: seq<seq<string>>, minLength: int)
    ensures |ChunkInputs(chunks, minLength)| <= |chunks|
  {
    if chunks != [] {
      ChunkInputsBound(chunks[..|chunks| - 1], minLength);
    }
  }

  /** A long text makes at most ceil(W / 1000) model calls. */
  lemma LongTextCallCount(text: string, minLength: int)
    requires |Split(text)| > minLength && |Split(text)| > ChunkSize
    ensures |ModelInputs(text, minLength)| <= CeilDiv(|Split(text)|, ChunkSize)
  {
    var words := Split(text);
    WindowsCount(words, ChunkSize);
    ChunkInputsBound(Windows(words, ChunkSize), minLength);
  }
}
