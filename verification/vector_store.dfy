/** The write and delete paths of `QdrantVectorStore`
    (src/repositories/file_text_vector_store.py): the dense and sparse
    encoders' result checks, `store_page_text` with its input guard, payload
    snippet and catch-all error handling, and the two-stage
    `delete_file_vectors`. FastEmbed and the Qdrant client are oracles, and
    each operation reports the calls it made to them in order. */
module VectorStore {
  import opened Base

  /** `DENSE_VECTOR_SIZE`: the all-MiniLM-L6-v2 embedding width. */
  const DenseVectorSize: nat := 384

  /** Point ids are reduced modulo 2^63 because Qdrant expects them to fit. */
  const PointIdBound: nat := 0x8000_0000_0000_0000

  /** At most this many characters of a page go into the point payload. */
  const SnippetLength: nat := 500

  /** A `models.SparseVector`. */
  datatype SparseVector = SparseVector(indices: seq<int>, values: seq<real>)

  /** The payload stored with every point. */
  datatype Payload = Payload(fileId: int, pageNumber: int, filename: string, snippet: string)

  datatype Point = Point(id: nat, dense: seq<real>, sparse: SparseVector, payload: Payload)

  /** The points a delete request selects: the id condition of the first
      attempt, or the payload `file_id` condition of the fallback. */
  datatype Selector = HasId(id: nat) | FileIdIs(fileId: int)

  /** The calls made to FastEmbed and Qdrant, in order. */
  datatype VectorCall =
    | EmbedDense(text: string)
    | EmbedSparse(text: string)
    | Upsert(point: Point)
    | Delete(selector: Selector)

  /** What the libraries answer. An embedder returns the list of embeddings of
      its one input, or raises (a missing FastEmbed install surfaces as a
      VectorStoreError); Qdrant calls return nothing or raise. */
  datatype Backend = Backend(
    embedDense: string -> Result<seq<seq<real>>, Exception>,
    embedSparse: string -> Result<seq<SparseVector>, Exception>,
    upsert: Point -> Option<Exception>,
    delete: Selector -> Option<Exception>)

  /** `_encode_dense_vector`: the first embedding when there is one and it has
      exactly 384 components; a VectorStoreError when the embedder returned
      nothing or a vector of another length; the embedder's own error
      otherwise. */
  function EncodeDense(embedded: Result<seq<seq<real>>, Exception>): (r: Result<seq<real>, Exception>)
    ensures r.Ok? <==> embedded.Ok? && embedded.value != [] && |embedded.value[0]| == DenseVectorSize
    ensures r.Ok? ==> r.value == embedded.value[0] && |r.value| == DenseVectorSize
    ensures embedded.Err? ==> r == Err(embedded.error)
    ensures embedded.Ok? && r.Err? ==> r.error.kind == VectorStoreError
  {
    match embedded
    case Err(e) => Err(e)
    case Ok(embeddings) =>
      if embeddings == [] then
        Err(Exception(VectorStoreError, "Failed to encode dense vector for text"))
      else if |embeddings[0]| != DenseVectorSize then
        Err(Exception(VectorStoreError, "Dense vector size mismatch"))
      else Ok(embeddings[0])
  }

  /** `_encode_sparse_vector`: the first sparse embedding, a VectorStoreError
      when there is none, the embedder's own error otherwise. */
  function EncodeSparse(embedded: Result<seq<SparseVector>, Exception>): (r: Result<SparseVector, Exception>)
    ensures r.Ok? <==> embedded.Ok? && embedded.value != []
    ensures r.Ok? ==> r.value == embedded.value[0]
    ensures embedded.Err? ==> r == Err(embedded.error)
    ensures embedded.Ok? && r.Err? ==> r.error.kind == VectorStoreError
  {
    match embedded
    case Err(e) => Err(e)
    case Ok(embeddings) =>
      if embeddings == [] then Err(Exception(VectorStoreError, "Failed to encode sparse vector for text"))
      else Ok(embeddings[0])
  }

  /** `text[:500] if len(text) > 500 else text`: the longest prefix of the
      page text that has at most 500 characters. */
  function Snippet(text: string): (s: string)
    ensures s <= text
    ensures |s| == Min(SnippetLength, |text|)
  {
    if |text| > SnippetLength then text[..SnippetLength] else text
  }

  /** A page text short enough is stored whole. */
  lemma SnippetOfShortText(text: string)
    requires |text| <= SnippetLength
    ensures Snippet(text) == text
  {
  }

  /** The outcome of a call that swallows errors: its boolean result and the
      library calls it made, in order. */
  datatype Report = Report(ok: bool, calls: seq<VectorCall>)

  /** `if not text or not isinstance(text, str)`: only a non-empty string is
      encoded. */
  predicate StorableText(text: PyValue) {
    text.PyStr? && text.s != []
  }

  /** `store_page_text(file_id, page_number, text, filename)`, with the random
      128-bit uuid that becomes the point id as the parameter `uuid`. Every
      exception is caught and reported as False. */
  function StorePageText(b: Backend, fileId: int, pageNumber: int, text: PyValue, filename: string, uuid: nat)
    : (r: Report)
    ensures !StorableText(text) ==> r == Report(false, [])
    ensures StorableText(text) ==> |r.calls| >= 1 && r.calls[0] == EmbedDense(text.s)
    ensures r.ok <==>
      && StorableText(text)
      && EncodeDense(b.embedDense(text.s)).Ok?
      && EncodeSparse(b.embedSparse(text.s)).Ok?
      && |r.calls| == 3 && r.calls[2].Upsert?
      && b.upsert(r.calls[2].point).None?
    ensures r.ok ==> r.calls[1] == EmbedSparse(text.s)
    ensures forall i | 0 <= i < |r.calls| && r.calls[i].Upsert? ::
      var p := r.calls[i].point;
      && i == 2
      && p.id < PointIdBound
      && p.id == uuid % PointIdBound
      && |p.dense| == DenseVectorSize
      && EncodeDense(b.embedDense(text.s)) == Ok(p.dense)
      && EncodeSparse(b.embedSparse(text.s)) == Ok(p.sparse)
      && p.payload == Payload(fileId, pageNumber, filename, Snippet(text.s))
  {
    if !StorableText(text) then Report(false, [])
    else
      var s := text.s;
      match EncodeDense(b.embedDense(s))
      case Err(_) => Report(false, [EmbedDense(s)])
      case Ok(dense) =>
        match EncodeSparse(b.embedSparse(s))
        case Err(_) => Report(false, [EmbedDense(s), EmbedSparse(s)])
        case Ok(sparse) =>
          var point := Point(uuid % PointIdBound, dense, sparse,
                             Payload(fileId, pageNumber, filename, Snippet(s)));
          Report(b.upsert(point).None?, [EmbedDense(s), EmbedSparse(s), Upsert(point)])
  }

  /** `store_page_text` never lets an exception escape: a failure anywhere
      after the guard shows only as a False result, and the calls stop at
      the first failing one. */
  lemma StoreStopsAtFirstFailure(b: Backend, fileId: int, pageNumber: int, text: PyValue, filename: string, uuid: nat)
    requires StorableText(text)
    ensures var r := StorePageText(b, fileId, pageNumber, text, filename, uuid);
      && (EncodeDense(b.embedDense(text.s)).Err? ==> r == Report(false, [EmbedDense(text.s)]))
      && (EncodeDense(b.embedDense(text.s)).Ok? && EncodeSparse(b.embedSparse(text.s)).Err? ==>
            r == Report(false, [EmbedDense(text.s), EmbedSparse(text.s)]))
      && (EncodeDense(b.embedDense(text.s)).Ok? && EncodeSparse(b.embedSparse(text.s)).Ok? ==> |r.calls| == 3)
  {
  }

  /** `delete_file_vectors(file_id)`: a delete by the id derived from the
      wildcard name `file_{file_id}_page_*` (`wildcardId`), then, only if that
      raises, a delete of the points whose payload `file_id` matches. The
      result is False only when both raise. */
  function DeleteFileVectors(b: Backend, fileId: int, wildcardId: nat): (r: Report)
    ensures |r.calls| >= 1 && r.calls[0] == Delete(HasId(wildcardId % PointIdBound))
    ensures |r.calls| == 2 <==> b.delete(HasId(wildcardId % PointIdBound)).Some?
    ensures |r.calls| <= 2
    ensures |r.calls| == 2 ==> r.calls[1] == Delete(FileIdIs(fileId))
    ensures !r.ok <==> b.delete(HasId(wildcardId % PointIdBound)).Some? && b.delete(FileIdIs(fileId)).Some?
  {
    var first := Delete(HasId(wildcardId % PointIdBound));
    if b.delete(first.selector).None? then Report(true, [first])
    else
      var fallback := Delete(FileIdIs(fileId));
      Report(b.delete(fallback.selector).None?, [first, fallback])
  }
}
