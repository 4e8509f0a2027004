/**
 * The embedding packager (`generate_embeddings`): project the texts, build a
 * three-field metadata record per chunk, encode all texts in one batch call, and
 * zip vectors, metadata and texts back together in input order.
 */
module Embedder {
  import opened Wrappers
  import opened Values
  import opened Slicing

  /** The sentinel used for a metadata field the chunk does not carry. */
  const Unknown: Value := Str("Unknown")

  /** The keys of the metadata record. */
  const MetadataKeys: set<string> := {"file", "page", "chunk"}

  /** The text the returned error value starts with. */
  const ErrorPrefix: string := "\U{274C} Error during embedding: "

  /** One packaged entry: the dict `{"embedding", "metadata", "text"}`. */
  datatype EmbeddedChunk<V> = EmbeddedChunk(embedding: V, metadata: Dict, text: Value)

  /**
   * MissingText: the KeyError raised when projecting a chunk without "text" (the first such
   * position); EmbeddingFailed: the error string returned when the encoder call fails.
   */
  datatype EmbedError = MissingText(position: nat) | EmbeddingFailed(message: string)

  /** The sentence encoder's batch call: one vector per text, or the failure's message. */
  type Encoder<V> = seq<Value> -> Result<seq<V>, string>

  /** `[chunk['text'] for chunk in chunks]`, which raises at the first chunk lacking "text". */
  function Texts(chunks: seq<Dict>): (r: Result<seq<Value>, EmbedError>)
    ensures r.Success? <==> forall i :: 0 <= i < |chunks| ==> "text" in chunks[i]
    ensures r.Success? ==> |r.value| == |chunks| && forall i :: 0 <= i < |chunks| ==> r.value[i] == chunks[i]["text"]
    ensures r.Failure? ==>
      && r.error.MissingText?
      && r.error.position < |chunks|
      && "text" !in chunks[r.error.position]
      && forall i :: 0 <= i < r.error.position ==> "text" in chunks[i]
  {
    if chunks == [] then Success([])
    else if "text" !in chunks[0] then Failure(MissingText(0))
    else match Texts(chunks[1..])
      case Success(ts) => Success([chunks[0]["text"]] + ts)
      case Failure(e) => Failure(MissingText(e.position + 1))
  }

  /**
   * The metadata record of one chunk: exactly the keys "file", "page" and "chunk",
   * each copied from the chunk when present and "Unknown" otherwise; every other key
   * of the chunk is dropped.
   */
  function Metadata(chunk: Dict): (m: Dict)
    ensures m.Keys == MetadataKeys
    ensures forall k :: k in MetadataKeys ==> m[k] == (if k in chunk then chunk[k] else Unknown)
  {
    map["file" := Get(chunk, "file", Unknown),
        "page" := Get(chunk, "page", Unknown),
        "chunk" := Get(chunk, "chunk", Unknown)]
  }

  /**
   * `generate_embeddings`. A chunk without "text" makes the call fail before the
   * encoder runs; an encoder failure turns the whole batch into one error value;
   * otherwise entry i pairs vector i with chunk i's metadata and text, and, as
   * `zip` stops at its shortest argument, there are as many entries as the fewer
   * of vectors and chunks.
   */
  method GenerateEmbeddings<V>(chunks: seq<Dict>, encode: Encoder<V>)
    returns (r: Result<seq<EmbeddedChunk<V>>, EmbedError>)
    ensures Texts(chunks).Failure? ==> r == Failure(Texts(chunks).error)
    ensures Texts(chunks).Success? && encode(Texts(chunks).value).Failure? ==>
      r == Failure(EmbeddingFailed(ErrorPrefix + encode(Texts(chunks).value).error))
    ensures Texts(chunks).Success? && encode(Texts(chunks).value).Success? ==>
      var vectors := encode(Texts(chunks).value).value;
      && r.Success?
      && |r.value| == Min(|vectors|, |chunks|)
      && forall i :: 0 <= i < |r.value| ==>
           r.value[i] == EmbeddedChunk(vectors[i], Metadata(chunks[i]), chunks[i]["text"])
  {
    var projected := Texts(chunks);
    if projected.Failure? {
      return Failure(projected.error);
    }
    var texts := projected.value;
    var metadata := seq(|chunks|, i requires 0 <= i < |chunks| => Metadata(chunks[i]));
    var encoded := encode(texts);
    if encoded.Failure? {
      return Failure(EmbeddingFailed(ErrorPrefix + encoded.error));
    }
    var vectors := encoded.value;
    var embeddedChunks: seq<EmbeddedChunk<V>> := [];
    var n := Min(Min(|vectors|, |metadata|), |texts|);
    for i := 0 to n
      invariant |embeddedChunks| == i
      invariant forall j :: 0 <= j < i ==> embeddedChunks[j] == EmbeddedChunk(vectors[j], metadata[j], texts[j])
    {
      embeddedChunks := embeddedChunks + [EmbeddedChunk(vectors[i], metadata[i], texts[i])];
    }
    return Success(embeddedChunks);
  }
}
