/**
 * The token-window chunker (`chunk_documents`): every document's text is encoded to
 * tokens, the tokens are cut into consecutive windows of `max_tokens`, and each window
 * is decoded back to text and numbered from 1.
 */
module Chunker {
  import opened Wrappers
  import opened Slicing

  type Token = int

  /** The tokenizer object; its encoding and decoding belong to the tokenizer library. */
  datatype Tokenizer = Tokenizer(encode: string -> seq<Token>, decode: seq<Token> -> string)

  /** An extracted document: the dict `{"file", "text"}`. */
  datatype Document = Document(file: string, text: string)

  /** An output chunk: the dict `{"file", "chunk", "text"}`; `number` is the "chunk" entry. */
  datatype Chunk = Chunk(file: string, number: nat, text: string)

  /** `range(0, len(tokens), 0)` raises: a zero step is refused. */
  datatype ChunkError = ZeroStep

  /** The default value of the `max_tokens` parameter. */
  const DefaultMaxTokens: nat := 500

  /** The token windows of one document. */
  function DocumentWindows(doc: Document, maxTokens: nat, tokenizer: Tokenizer): seq<seq<Token>>
    requires maxTokens > 0
  {
    Windows(tokenizer.encode(doc.text), maxTokens)
  }

  /** The chunks one document contributes, in window order. */
  function DocumentChunks(doc: Document, maxTokens: nat, tokenizer: Tokenizer): seq<Chunk>
    requires maxTokens > 0
  {
    var ws := DocumentWindows(doc, maxTokens, tokenizer);
    seq(|ws|, k requires 0 <= k < |ws| => Chunk(doc.file, k + 1, tokenizer.decode(ws[k])))
  }

  /** The chunks of all documents: those of each document in turn, in document order. */
  function AllChunks(docs: seq<Document>, maxTokens: nat, tokenizer: Tokenizer): seq<Chunk>
    requires maxTokens > 0
  {
    if docs == [] then []
    else AllChunks(docs[..|docs| - 1], maxTokens, tokenizer) + DocumentChunks(docs[|docs| - 1], maxTokens, tokenizer)
  }

  /**
   * `chunk_documents`: a zero `max_tokens` raises as soon as one document is reached,
   * a negative one gives an empty `range` for every document, and a positive one
   * gives the chunks of every document in order.
   */
  method ChunkDocuments(documents: seq<Document>, tokenizer: Tokenizer, maxTokens: int := DefaultMaxTokens)
    returns (r: Result<seq<Chunk>, ChunkError>)
    ensures maxTokens > 0 ==> r == Success(AllChunks(documents, maxTokens, tokenizer))
    ensures maxTokens == 0 ==> r == if documents == [] then Success([]) else Failure(ZeroStep)
    ensures maxTokens < 0 ==> r == Success([])
  {
    var allChunks: seq<Chunk> := [];
    for d := 0 to |documents|
      invariant maxTokens > 0 ==> allChunks == AllChunks(documents[..d], maxTokens, tokenizer)
      invariant maxTokens <= 0 ==> allChunks == []
      invariant maxTokens == 0 ==> d == 0
    {
      var doc := documents[d];
      var tokens := tokenizer.encode(doc.text);
      if maxTokens == 0 {
        return Failure(ZeroStep);
      }
      if maxTokens > 0 {
        ghost var before := allChunks;
        ghost var windows := Windows(tokens, maxTokens);
        var i := 0;
        ghost var k: nat := 0;
        while i < |tokens|
          invariant i == k * maxTokens
          invariant k <= |windows|
          invariant allChunks == before + DocumentChunks(doc, maxTokens, tokenizer)[..k]
        {
          WindowExists(tokens, maxTokens, k);
          WindowAt(tokens, maxTokens, k);
          var chunkTokens := tokens[i..Min(i + maxTokens, |tokens|)];
          var chunkText := tokenizer.decode(chunkTokens);
          DivMul(k, maxTokens);
          allChunks := allChunks + [Chunk(doc.file, i / maxTokens + 1, chunkText)];
          assert DocumentChunks(doc, maxTokens, tokenizer)[..k + 1]
              == DocumentChunks(doc, maxTokens, tokenizer)[..k] + [DocumentChunks(doc, maxTokens, tokenizer)[k]];
          i := i + maxTokens;
          k := k + 1;
        }
        WindowExists(tokens, maxTokens, k);
        assert DocumentChunks(doc, maxTokens, tokenizer)[..k] == DocumentChunks(doc, maxTokens, tokenizer);
        assert documents[..d + 1][..d] == documents[..d];
      }
    }
    assert documents[..|documents|] == documents;
    return Success(allChunks);
  }

  /** A document of L tokens gives ceil(L / max_tokens) chunks, and none exactly when L = 0. */
  lemma DocumentChunkCount(doc: Document, maxTokens: nat, tokenizer: Tokenizer)
    requires maxTokens > 0
    ensures |DocumentChunks(doc, maxTokens, tokenizer)| == CeilDiv(|tokenizer.encode(doc.text)|, maxTokens)
    ensures |DocumentChunks(doc, maxTokens, tokenizer)| == 0 <==> |tokenizer.encode(doc.text)| == 0
  {
    WindowsCount(tokenizer.encode(doc.text), maxTokens);
  }

  /**
   * Chunk k of a document is numbered k + 1, carries the document's file, and is the
   * decoding of the token slice `tokens[k * max_tokens : k * max_tokens + max_tokens]`,
   * whose start lies inside the token sequence.
   */
  lemma DocumentChunkAt(doc: Document, maxTokens: nat, tokenizer: Tokenizer, k: nat)
    requires maxTokens > 0 && k < |DocumentChunks(doc, maxTokens, tokenizer)|
    ensures var tokens := tokenizer.encode(doc.text);
      && k * maxTokens < |tokens|
      && DocumentChunks(doc, maxTokens, tokenizer)[k]
         == Chunk(doc.file, k + 1, tokenizer.decode(tokens[k * maxTokens .. Min(k * maxTokens + maxTokens, |tokens|)]))
  {
    WindowAt(tokenizer.encode(doc.text), maxTokens, k);
  }

  /**
   * The windows behind a document's chunks: all but the last hold exactly
   * max_tokens tokens, the last holds 1 to max_tokens, and in order they
   * concatenate back to the document's token sequence.
   */
  lemma DocumentWindowsLaw(doc: Document, maxTokens: nat, tokenizer: Tokenizer)
    requires maxTokens > 0
    ensures var ws := DocumentWindows(doc, maxTokens, tokenizer);
      && |ws| == |DocumentChunks(doc, maxTokens, tokenizer)|
      && Flatten(ws) == tokenizer.encode(doc.text)
      && (forall k :: 0 <= k < |ws| - 1 ==> |ws[k]| == maxTokens)
      && (|ws| > 0 ==> 1 <= |ws[|ws| - 1]| <= maxTokens)
  {
    var tokens := tokenizer.encode(doc.text);
    var ws := DocumentWindows(doc, maxTokens, tokenizer);
    WindowsFlatten(tokens, maxTokens);
    forall k | 0 <= k < |ws| - 1 ensures |ws[k]| == maxTokens {
      WindowSizes(tokens, maxTokens, k);
    }
    if |ws| > 0 {
      WindowSizes(tokens, maxTokens, |ws| - 1);
    }
  }

  lemma {:induction false} AllChunksAppend(a: seq<Document>, b: seq<Document>, maxTokens: nat, tokenizer: Tokenizer)
    requires maxTokens > 0
    ensures AllChunks(a + b, maxTokens, tokenizer) == AllChunks(a, maxTokens, tokenizer) + AllChunks(b, maxTokens, tokenizer)
    decreases |b|
  {
    if b == [] {
      assert a + b == a;
    } else {
      var b' := b[..|b| - 1];
      assert (a + b)[..|a + b| - 1] == a + b';
      AllChunksAppend(a, b', maxTokens, tokenizer);
    }
  }

  /**
   * Output order follows input order: the chunks of document j form one contiguous
   * block, after those of every earlier document and before those of every later one.
   */
  lemma AllChunksLayout(docs: seq<Document>, j: nat, maxTokens: nat, tokenizer: Tokenizer)
    requires maxTokens > 0 && j < |docs|
    ensures AllChunks(docs, maxTokens, tokenizer)
         == AllChunks(docs[..j], maxTokens, tokenizer)
          + DocumentChunks(docs[j], maxTokens, tokenizer)
          + AllChunks(docs[j + 1..], maxTokens, tokenizer)
  {
    assert docs == docs[..j] + [docs[j]] + docs[j + 1..];
    AllChunksAppend(docs[..j] + [docs[j]], docs[j + 1..], maxTokens, tokenizer);
    AllChunksAppend(docs[..j], [docs[j]], maxTokens, tokenizer);
    assert [docs[j]][..0] == [];
  }

  /** Every output chunk names the file of one of the input documents and is numbered from 1. */
  lemma {:induction false} AllChunksProvenance(docs: seq<Document>, maxTokens: nat, tokenizer: Tokenizer)
    requires maxTokens > 0
    ensures forall c :: c in AllChunks(docs, maxTokens, tokenizer) ==>
      c.number >= 1 && exists j :: 0 <= j < |docs| && docs[j].file == c.file
  {
    if docs != [] {
      var init := docs[..|docs| - 1];
      AllChunksProvenance(init, maxTokens, tokenizer);
      forall c | c in AllChunks(docs, maxTokens, tokenizer)
        ensures c.number >= 1 && exists j :: 0 <= j < |docs| && docs[j].file == c.file
      {
        if c in AllChunks(init, maxTokens, tokenizer) {
          var j :| 0 <= j < |init| && init[j].file == c.file;
          assert docs[j] == init[j];
        } else {
          assert c in DocumentChunks(docs[|docs| - 1], maxTokens, tokenizer);
        }
      }
    }
  }
}
