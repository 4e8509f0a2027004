/**
 * The vector database handler (`vector_db/db_handler.py`): two module-level cache
 * slots (the index and the metadata store) over two on-disk artifacts, with build,
 * load-once and search.
 */
module VectorDb {
  import opened Wrappers
  import opened Values
  import opened Embedder

  /** The default value of the `top_k` parameter of search. */
  const DefaultTopK: int := 5

  /** A flat L2 index, seen as the vectors it holds: row i is the i-th vector added. */
  datatype FlatIndex<V> = FlatIndex(vectors: seq<V>)

  /**
   * NoEmbeddings: `embeddings[0]` on an empty batch raises IndexError;
   * NotFound: the FileNotFoundError of load; BadRowId: a row id outside the metadata store.
   */
  datatype DbError = NoEmbeddings | NotFound | BadRowId

  /** The index library's k-nearest search: the row of ids returned for a query and top_k. */
  type Searcher<!V> = (FlatIndex<V>, V, int) -> seq<int>

  /** The embeddings of a batch, in order. */
  function Embeddings<V>(items: seq<EmbeddedChunk<V>>): (vs: seq<V>)
    ensures |vs| == |items| && forall i :: 0 <= i < |items| ==> vs[i] == items[i].embedding
  {
    seq(|items|, i requires 0 <= i < |items| => items[i].embedding)
  }

  /**
   * `item['metadata'] | {"text": item['text']}`: the item's metadata with "text" set to
   * the item's text, overriding a "text" the metadata may already hold.
   */
  function StoredRecord<V>(item: EmbeddedChunk<V>): (rec: Dict)
    ensures rec.Keys == item.metadata.Keys + {"text"}
    ensures rec["text"] == item.text
    ensures forall k :: k in item.metadata && k != "text" ==> rec[k] == item.metadata[k]
  {
    item.metadata["text" := item.text]
  }

  /** The metadata store of a batch: one record per item, positionally aligned. */
  function StoredRecords<V>(items: seq<EmbeddedChunk<V>>): (recs: seq<Dict>)
    ensures |recs| == |items| && forall i :: 0 <= i < |items| ==> recs[i] == StoredRecord(items[i])
  {
    seq(|items|, i requires 0 <= i < |items| => StoredRecord(items[i]))
  }

  /** Whether `xs[i]` is defined for a Python list of length n (negative i counts from the end). */
  predicate IsListIndex(n: nat, i: int)
  {
    -(n as int) <= i < n
  }

  /** The position `xs[i]` reads for a Python list of length n. */
  function ListPosition(n: nat, i: int): (p: nat)
    requires IsListIndex(n, i)
    ensures p < n
  {
    if i >= 0 then i else n + i
  }

  /**
   * `[metadata_store[i] for i in ids]`: result j is the record at row id j, read with
   * Python list indexing; the first id outside the store raises IndexError.
   */
  function Lookup(store: seq<Dict>, ids: seq<int>): (r: Result<seq<Dict>, DbError>)
    ensures r.Success? <==> forall j :: 0 <= j < |ids| ==> IsListIndex(|store|, ids[j])
    ensures r.Failure? ==> r.error == BadRowId
    ensures r.Success? ==>
      && |r.value| == |ids|
      && forall j :: 0 <= j < |ids| ==> r.value[j] == store[ListPosition(|store|, ids[j])]
  {
    if ids == [] then Success([])
    else if !IsListIndex(|store|, ids[0]) then Failure(BadRowId)
    else match Lookup(store, ids[1..])
      case Success(rest) => Success([store[ListPosition(|store|, ids[0])]] + rest)
      case Failure(e) => Failure(e)
  }

  /**
   * The two artifacts on disk, at the fixed paths `vector_db/drx_index.faiss` (the
   * index) and `vector_db/metadata.pkl` (the metadata store); None is a missing file.
   */
  class Disk<V> {
    var indexFile: Option<FlatIndex<V>>
    var metadataFile: Option<seq<Dict>>

    constructor (indexFile: Option<FlatIndex<V>>, metadataFile: Option<seq<Dict>>)
      ensures this.indexFile == indexFile && this.metadataFile == metadataFile
    {
      this.indexFile := indexFile;
      this.metadataFile := metadataFile;
    }

    /** Both artifacts hold the same number of rows. */
    predicate Consistent()
      reads this
    {
      indexFile.Some? && metadataFile.Some? ==> |indexFile.value.vectors| == |metadataFile.value|
    }
  }

  /** The handler's cache slots `faiss_index` and `metadata_store`, over the disk. */
  class Database<V> {
    const disk: Disk<V>
    var faissIndex: Option<FlatIndex<V>>
    var metadataStore: Option<seq<Dict>>
    /** How many times the artifacts have been read from disk. */
    ghost var diskReads: nat

    /** The module as imported: both slots empty. */
    constructor (disk: Disk<V>)
      ensures this.disk == disk
      ensures faissIndex == None && metadataStore == None && diskReads == 0
    {
      this.disk := disk;
      faissIndex := None;
      metadataStore := None;
      diskReads := 0;
    }

    /** Both cache slots are filled. */
    predicate Loaded()
      reads this
    {
      faissIndex.Some? && metadataStore.Some?
    }

    /** Row i of the cached index corresponds to position i of the cached metadata store. */
    predicate Aligned()
      reads this
    {
      Loaded() ==> |faissIndex.value.vectors| == |metadataStore.value|
    }

    /**
     * `build_vector_db`: an empty batch raises before anything is written; otherwise
     * both artifacts are written and both cache slots replaced with the new index and
     * its positionally aligned metadata store, one record per item.
     */
    method Build(items: seq<EmbeddedChunk<V>>) returns (r: Result<(), DbError>)
      modifies this, disk
      ensures items == [] ==> r == Failure(NoEmbeddings) && unchanged(this) && unchanged(disk)
      ensures items != [] ==>
        && r == Success(())
        && disk.indexFile == Some(FlatIndex(Embeddings(items)))
        && disk.metadataFile == Some(StoredRecords(items))
        && faissIndex == disk.indexFile
        && metadataStore == disk.metadataFile
        && diskReads == old(diskReads)
      ensures items != [] ==> Loaded() && Aligned() && disk.Consistent()
    {
      if items == [] {
        return Failure(NoEmbeddings);
      }
      var embeddings := Embeddings(items);
      var metadata := StoredRecords(items);
      var index := FlatIndex(embeddings);
      disk.indexFile := Some(index);
      disk.metadataFile := Some(metadata);
      faissIndex := Some(index);
      metadataStore := Some(metadata);
      return Success(());
    }

    /**
     * `load_vector_db`: nothing happens, and nothing is read, when both slots are
     * filled; otherwise a missing artifact raises not-found and leaves the cache as it
     * was, and two present artifacts are both read into the slots, even if one slot
     * was already filled.
     */
    method Load() returns (r: Result<(), DbError>)
      modifies this
      ensures old(Loaded()) ==> r == Success(()) && unchanged(this)
      ensures !old(Loaded()) && (disk.indexFile.None? || disk.metadataFile.None?) ==>
        r == Failure(NotFound) && unchanged(this)
      ensures !old(Loaded()) && disk.indexFile.Some? && disk.metadataFile.Some? ==>
        && r == Success(())
        && faissIndex == disk.indexFile
        && metadataStore == disk.metadataFile
        && diskReads == old(diskReads) + 1
      ensures r.Success? <==> Loaded()
      ensures old(Aligned()) && disk.Consistent() ==> Aligned()
    {
      if faissIndex.None? || metadataStore.None? {
        if disk.indexFile.None? || disk.metadataFile.None? {
          return Failure(NotFound);
        }
        faissIndex := disk.indexFile;
        metadataStore := disk.metadataFile;
        diskReads := diskReads + 1;
      }
      return Success(());
    }

    /**
     * `search_vector_db`: load first (a not-found load fails the search and changes
     * nothing), then map the searcher's row of ids positionally into the metadata store.
     */
    method Search(query: V, search: Searcher<V>, topK: int := DefaultTopK) returns (r: Result<seq<Dict>, DbError>)
      modifies this
      ensures old(Loaded()) ==> unchanged(this)
      ensures !old(Loaded()) && (disk.indexFile.None? || disk.metadataFile.None?) ==>
        r == Failure(NotFound) && unchanged(this)
      ensures !old(Loaded()) && disk.indexFile.Some? && disk.metadataFile.Some? ==>
        && faissIndex == disk.indexFile
        && metadataStore == disk.metadataFile
        && diskReads == old(diskReads) + 1
      ensures old(Loaded()) || (disk.indexFile.Some? && disk.metadataFile.Some?) ==>
        Loaded() && r == Lookup(metadataStore.value, search(faissIndex.value, query, topK))
      ensures old(Aligned()) && disk.Consistent() ==> Aligned()
    {
      var loaded := Load();
      if loaded.Failure? {
        return Failure(loaded.error);
      }
      var ids := search(faissIndex.value, query, topK);
      r := Lookup(metadataStore.value, ids);
    }
  }

  /**
   * Calling load twice in a row: the second call neither reads the disk nor changes
   * anything, so the two calls leave the cache exactly as one call does.
   */
  method LoadTwice<V>(db: Database<V>) returns (first: Result<(), DbError>, second: Result<(), DbError>)
    modifies db
    ensures second == first
    ensures db.diskReads <= old(db.diskReads) + 1
    ensures first.Success? ==> db.Loaded()
    ensures old(db.Loaded()) || first.Failure? ==> unchanged(db)
    ensures !old(db.Loaded()) && first.Success? ==>
      && db.faissIndex == db.disk.indexFile
      && db.metadataStore == db.disk.metadataFile
      && db.diskReads == old(db.diskReads) + 1
  {
    first := db.Load();
    ghost var faissIndex, metadataStore, diskReads := db.faissIndex, db.metadataStore, db.diskReads;
    second := db.Load();
    assert db.faissIndex == faissIndex && db.metadataStore == metadataStore && db.diskReads == diskReads;
  }

  /**
   * Over a loaded and aligned cache, every id the searcher returns inside the cached
   * index's rows selects the record cached for that row, in the searcher's order.
   */
  lemma AlignedLookup<V>(db: Database<V>, ids: seq<int>)
    requires db.Loaded() && db.Aligned()
    requires forall j :: 0 <= j < |ids| ==> 0 <= ids[j] < |db.faissIndex.value.vectors|
    ensures Lookup(db.metadataStore.value, ids).Success?
    ensures |Lookup(db.metadataStore.value, ids).value| == |ids|
    ensures forall j :: 0 <= j < |ids| ==> Lookup(db.metadataStore.value, ids).value[j] == db.metadataStore.value[ids[j]]
  {
  }

  /**
   * Build then search: after building from a non-empty batch, a search answers from
   * the new index and metadata store without reading the disk, and each id of the
   * searcher's row inside the batch selects the record built from that item.
   */
  method BuildThenSearch<V>(db: Database<V>, items: seq<EmbeddedChunk<V>>, query: V, search: Searcher<V>, topK: int)
    returns (r: Result<seq<Dict>, DbError>)
    requires items != []
    modifies db, db.disk
    ensures r == Lookup(StoredRecords(items), search(FlatIndex(Embeddings(items)), query, topK))
    ensures db.diskReads == old(db.diskReads)
    ensures var ids := search(FlatIndex(Embeddings(items)), query, topK);
      (forall j :: 0 <= j < |ids| ==> 0 <= ids[j] < |items|) ==>
        r.Success? && |r.value| == |ids| &&
        forall j :: 0 <= j < |ids| ==> r.value[j] == StoredRecord(items[ids[j]])
  {
    var built := db.Build(items);
    r := db.Search(query, search, topK);
    ghost var ids := search(FlatIndex(Embeddings(items)), query, topK);
    if forall j :: 0 <= j < |ids| ==> 0 <= ids[j] < |items| {
      AlignedLookup(db, ids);
    }
  }

  /**
   * When top_k exceeds the number of rows the index pads its answer with id -1, which
   * Python list indexing reads as the last record: with two records and ids [0, 1, -1]
   * the last record is returned twice.
   */
  lemma PaddingRepeatsLastRecord(a: Dict, b: Dict)
    ensures Lookup([a, b], [0, 1, -1]) == Success([a, b, b])
  {
    var r := Lookup([a, b], [0, 1, -1]);
    assert r.Success?;
    assert r.value == [a, b, b];
  }
}
