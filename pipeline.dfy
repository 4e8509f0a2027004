/**
 * How the stages fit together in `process_publications`: chunker dicts feed the
 * embedder, whose entries feed the vector database build.
 */
module Pipeline {
  import opened Wrappers
  import opened Slicing
  import opened Values
  import opened Chunker
  import opened Embedder
  import opened VectorDb

  /** The dict the chunker appends for a chunk. */
  function ChunkDict(c: Chunk): Dict
  {
    map["file" := Str(c.file), "chunk" := Int(c.number), "text" := Str(c.text)]
  }

  /**
   * Chunker output always carries "text", so projection succeeds; its metadata keeps
   * the file and chunk number and, having no page, gets "Unknown" for "page".
   */
  lemma ChunkDictsEmbed(chunks: seq<Chunk>)
    ensures var dicts := seq(|chunks|, i requires 0 <= i < |chunks| => ChunkDict(chunks[i]));
      && Texts(dicts) == Success(seq(|chunks|, i requires 0 <= i < |chunks| => Str(chunks[i].text)))
      && forall i :: 0 <= i < |chunks| ==>
           Metadata(dicts[i]) == map["file" := Str(chunks[i].file), "page" := Unknown, "chunk" := Int(chunks[i].number)]
  {
    var dicts := seq(|chunks|, i requires 0 <= i < |chunks| => ChunkDict(chunks[i]));
    assert forall i :: 0 <= i < |dicts| ==> "text" in dicts[i];
    assert Texts(dicts).value == seq(|chunks|, i requires 0 <= i < |chunks| => Str(chunks[i].text));
    forall i | 0 <= i < |chunks|
      ensures Metadata(dicts[i]) == map["file" := Str(chunks[i].file), "page" := Unknown, "chunk" := Int(chunks[i].number)]
    {
      var m := Metadata(dicts[i]);
      assert m.Keys == {"file", "page", "chunk"};
      assert "page" !in dicts[i];
    }
  }

  /**
   * The record stored for an embedded chunker chunk holds exactly "file", "page",
   * "chunk" and "text", with the chunk's own file, number and text.
   */
  lemma StoredChunkRecord<V>(c: Chunk, vector: V)
    ensures var rec := StoredRecord(EmbeddedChunk(vector, Metadata(ChunkDict(c)), Str(c.text)));
      && rec.Keys == {"file", "page", "chunk", "text"}
      && rec["file"] == Str(c.file) && rec["page"] == Unknown
      && rec["chunk"] == Int(c.number) && rec["text"] == Str(c.text)
  {
    var m := Metadata(ChunkDict(c));
    assert "page" !in ChunkDict(c);
    assert m.Keys + {"text"} == {"file", "page", "chunk", "text"};
  }

  /**
   * Two documents of 1200 and 300 tokens with max_tokens = 500: the first gives
   * chunks 1, 2, 3 from windows of 500, 500 and 200 tokens, the second one chunk
   * numbered 1 from its 300 tokens, in that order.
   */
  lemma TwoDocumentScenario(d1: Document, d2: Document, tokenizer: Tokenizer)
    requires |tokenizer.encode(d1.text)| == 1200 && |tokenizer.encode(d2.text)| == 300
    ensures var cs := AllChunks([d1, d2], 500, tokenizer);
      && |cs| == 4
      && cs[0].number == 1 && cs[1].number == 2 && cs[2].number == 3 && cs[3].number == 1
      && cs[0].file == cs[1].file == cs[2].file == d1.file && cs[3].file == d2.file
    ensures var w1 := DocumentWindows(d1, 500, tokenizer);
      var w2 := DocumentWindows(d2, 500, tokenizer);
      |w1| == 3 && |w1[0]| == 500 && |w1[1]| == 500 && |w1[2]| == 200 && |w2| == 1 && |w2[0]| == 300
  {
    var t1, t2 := tokenizer.encode(d1.text), tokenizer.encode(d2.text);
    WindowsCount(t1, 500);
    WindowsCount(t2, 500);
    WindowAt(t1, 500, 2);
    WindowAt(t2, 500, 0);
    WindowSizes(t1, 500, 0);
    WindowSizes(t1, 500, 1);
    assert CeilDiv(1200, 500) == 3 && CeilDiv(300, 500) == 1;
    assert [d1, d2][..1] == [d1];
    assert [d1][..0] == [];
    assert AllChunks([d1], 500, tokenizer) == DocumentChunks(d1, 500, tokenizer);
    assert AllChunks([d1, d2], 500, tokenizer) == DocumentChunks(d1, 500, tokenizer) + DocumentChunks(d2, 500, tokenizer);
  }
}
