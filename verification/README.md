# bi-backend document pipeline, modelled in Dafny

This project models the document pipeline of the bi-backend service.

- **Upload admission.** `FileService.upload_file` validates the name and the payload, stores the metadata and the blob, rolls the metadata back when the blob insert fails, enforces the parsing-queue limit of 5, marks the file `queued` and hands the parsing job to the thread pool.
- **The background job.** `_parse_file_text_and_save` moves the file's `parsing_state` to `parsing`, then to `done` or `failed`. It runs OCR over the document, saves every non-blank page to the SQL store and indexes it in the vector store.
- **The OCR pipeline.** `DocumentProcessor` dispatches on the file suffix (image, PDF, DOCX placeholder). It numbers pages from 1 and caches the `easyocr` reader. On an out-of-memory `RuntimeError` it demotes the GPU reader to CPU once and retries.
- **The Qdrant vector store.**
  - The dense and sparse encoders' result checks.
  - `store_page_text`: its input guard, the 500-character payload snippet and its catch-all error handling.
  - `search_hybrid`: weight normalisation, merge by `(file_id, page_number)`, stable descending sort and slice.
  - The two-stage `delete_file_vectors`.
- **The MySQL repository.**
  - Grouping of joined rows into one record per file, in `get_file`, `get_files_with_tags` and `get_filtered_files_meta_with_tags`.
  - The rowcount-based results of `remove_tag` and `delete_file`.
- **`get_all_tags`.**

Every external collaborator is a parameter:

- **Repository, thread pool and vector store, as seen by the service:** a single environment `FileService.Env`. Every call is appended to a trace. The environment's reply to a call (it raised, or it returned a value) may depend on the whole trace before it.
- **FastEmbed and the Qdrant client:** the functions of `VectorStore.Backend`.
- **PIL, pdf2image, python-docx and easyocr:** the functions of `Extraction.Providers`. Each call is indexed by a counter, so repeated calls may answer differently.
- **SQL queries:** the rows they return are the inputs of the grouping functions.
- **The random point id (`uuid4`) and the `uuid5` id of the wildcard name:** natural-number parameters.

Modules:

| file | module | models |
|---|---|---|
| base.dfy | Base | `Option`, `Result`, bytes, Python exceptions and the dynamic values the validators inspect |
| strings.dfy | Strings | `str.strip`, `str.split`, ASCII `lower`, `in`, string ordering, `Path(...).suffix` on a POSIX host |
| extraction.dfy | Extraction | src/services/file_text_parser.py |
| vector_store.dfy | VectorStore | encoders, `store_page_text`, `delete_file_vectors` of src/repositories/file_text_vector_store.py |
| hybrid_search.dfy | HybridSearch | `search_hybrid` of src/repositories/file_text_vector_store.py |
| file_records.dfy | FileRecords | src/repositories/file_and_meta.py |
| file_service.dfy | FileService | src/services/file_service.py |

## Model

| member | source | states |
|---|---|---|
| Strings.Strip | src/services/file_text_parser.py:161 | `strip()` returns the infix of the input between its leading and trailing whitespace. The result is empty exactly when the input is blank; otherwise it starts and ends with a non-whitespace character. |
| Strings.StripIdempotent | src/services/file_service.py:332 | Stripping twice gives the same result as stripping once. |
| Strings.Split | src/services/file_service.py:331 | `split(',')` gives at least one piece. No piece contains the separator, and joining the pieces back with it gives the input again. |
| Strings.SplitJoin | src/services/file_service.py:331 | Splitting a join of separator-free pieces gives back exactly those pieces. |
| Strings.Lower | src/services/file_text_parser.py:100 | `lower()` keeps the length and leaves no capital letter. Every character that is not a capital is unchanged, and each capital becomes the letter 32 code points above it. |
| Strings.LowerFixes | src/services/file_text_parser.py:100 | `lower()` leaves a string unchanged exactly when it holds no capital letter. |
| Strings.LowerIdempotent | src/services/file_text_parser.py:205 | Lowering an already lowered suffix changes nothing, so `is_image_file` and the dispatch agree on every spelling of a suffix. |
| Strings.Suffix | src/services/file_text_parser.py:100 | `Path(name).suffix` is either empty or a dot followed by at least one character with no further dot or slash, and a proper tail of the base name. It is non-empty exactly when the base name has a last dot that is neither its first nor its last character, and then it is the tail from that dot. |
| Extraction.IsImageFile | src/services/file_text_parser.py:203-206 | Holds exactly for the names that `_to_images` sends down its single-image branch (suffix `.png`, `.jpg` or `.jpeg`, in any case). |
| Extraction.ConvertDocxToImages | src/services/file_text_parser.py:63-94 | A document that fails to load raises. Otherwise the result is one blank 800x600 placeholder when the document has paragraphs, and no image when it has none. |
| Extraction.ToImages | src/services/file_text_parser.py:98-124 | An image suffix yields the one opened image. `.pdf` yields the pages rasterised at 200 dpi; `.docx` yields the placeholder path. Any other suffix raises a ValueError naming the lowercased suffix. |
| Extraction.GetOcrReader | src/services/file_text_parser.py:37-47 | A cached reader is returned unchanged. Otherwise a new reader for the current device is created and cached. A failed initialisation raises and leaves the cache empty. The device flag is never changed, and a coherent cache stays coherent. |
| Extraction.PageText | src/services/file_text_parser.py:159-161 | A page's recorded text has no whitespace at either end. |
| Extraction.Retry | src/services/file_text_parser.py:182-190 | The retry never raises. It records the stripped joined words, or the empty string when the second `readtext` raises, and consumes exactly one read. |
| Extraction.OcrPage | src/services/file_text_parser.py:157-192 | OCR of one page never turns the GPU back on, and the text it records is stripped. The cached reader stays the reader in use and the cache stays coherent. OcrPageOutcomes states the text and the reads of each outcome. |
| Extraction.OcrPageOutcomes | src/services/file_text_parser.py:157-192 | The three outcomes of one page. A successful first read is recorded, after one read. A non-memory error propagates. An out-of-memory error on the CPU reads the page a second time with the same reader and records that read's text, or "" when it raises. On the GPU it demotes the engine and obtains a CPU reader. That reader's initialisation error propagates; otherwise the new reader reads the page a second time and its text or "" is recorded. |
| Extraction.OcrPages | src/services/file_text_parser.py:151-192 | On success, one page per image, numbered consecutively from the first number, each with stripped text. The lemmas below state which text and which error: OcrPagesAfterRead, OcrPagesAllRead and OcrPagesStopsAtError on either device, OcrPagesOnCpu on the CPU, and OcrPagesAfterDemotion at the first out-of-memory error on the GPU. |
| Extraction.OcrPagesAfterRead | src/services/file_text_parser.py:157-161 | A page whose first read succeeds records that read's text, and the loop continues with the same reader one read later. |
| Extraction.CpuRun | src/services/file_text_parser.py:151-192 | The reference page loop on the CPU makes at least one and at most two reads per image. Its result on success has one page per image. |
| Extraction.OcrPagesOnCpu | src/services/file_text_parser.py:151-192 | On the CPU the loop equals CpuRun. A successful first read records its text. An out-of-memory error costs a second read of the same image, whose text or "" is recorded. Any other error ends the loop. Only the read counter of the engine changes. |
| Extraction.OcrPagesAfterDemotion | src/services/file_text_parser.py:163-192 | At an out-of-memory error on the GPU, a failing CPU reader initialisation is raised. Otherwise the page records the CPU reader's retried text or "", and the rest of the loop is CpuRun with that reader. |
| Extraction.ReadPagesAt | src/services/file_text_parser.py:159-161 | When the first read of image k succeeds, page `first + k` holds the stripped, space-joined words it returned. |
| Extraction.OcrPagesAllRead | src/services/file_text_parser.py:151-161 | When every first read succeeds, the loop returns exactly ReadPages (the text OCR returned for each image, in order). The engine is unchanged except that one read per image was made. |
| Extraction.OcrPagesStopsAtError | src/services/file_text_parser.py:157-192 | When the reads before image j succeed and the first read of image j fails with an error other than out-of-memory, the loop raises that error. |
| Extraction.OcrImages | src/services/file_text_parser.py:142-195 | A conversion error propagates with the engine untouched. Otherwise the pages are numbered 1..n, one per image. With no images the result is empty unless the reader fails to load. ParsedPages states the page texts and errors. |
| Extraction.ParseDocumentViaOcr | src/services/file_text_parser.py:128-200 | An unsupported suffix raises before any OCR. A result has one page per converted image, numbered from 1 with stripped text: exactly one page for an image and at most one for a DOCX. The GPU is never re-enabled. |
| Extraction.ParsedPages | src/services/file_text_parser.py:128-200 | Once the conversion and the reader succeed: if every first read succeeds, page k+1 holds the text read from image k and each image was read once; if the reads before image j succeed and image j's read fails with an error other than out-of-memory, the call raises that error. |
| VectorStore.EncodeDense | src/repositories/file_text_vector_store.py:119-153 | The first embedding is accepted exactly when there is one and it has 384 components. Otherwise a VectorStoreError is raised, or the embedder's own error propagates. |
| VectorStore.EncodeSparse | src/repositories/file_text_vector_store.py:155-193 | The first sparse embedding is accepted when there is one; otherwise a VectorStoreError is raised, or the embedder's error propagates. |
| VectorStore.Snippet | src/repositories/file_text_vector_store.py:221 | The payload snippet is the prefix of the text of length min(500, len(text)). |
| VectorStore.StorePageText | src/repositories/file_text_vector_store.py:195-263 | Non-string or empty text is refused without any call. Success holds exactly when both encoders and the upsert succeed. The one upserted point has an id below 2^63 derived from the uuid, a 384-wide dense vector and the payload (file id, page, filename, snippet). Its dense and sparse vectors are the encoders' results for the text. |
| VectorStore.StoreStopsAtFirstFailure | src/repositories/file_text_vector_store.py:214-263 | The calls stop at the first failing encoder, and the failure shows only as False. |
| VectorStore.DeleteFileVectors | src/repositories/file_text_vector_store.py:416-464 | The id delete is always tried first. The payload-filter delete is tried only when the id delete raises. The result is False only when both raise. |
| HybridSearch.NormaliseWeights | src/repositories/file_text_vector_store.py:377-380 | The weights sum to 1. With a positive total each weight is its share of the total; otherwise both are one half. Non-negative inputs give weights in [0, 1]. |
| HybridSearch.Keys | src/repositories/file_text_vector_store.py:387-402 | The merge keys are distinct and are exactly the keys of the walked hits. |
| HybridSearch.Merge | src/repositories/file_text_vector_store.py:387-402 | One entry per distinct key, in order of first appearance. Each entry holds the first hit with that key and the sum of the weighted scores of all hits with that key. |
| HybridSearch.MergeStep | src/repositories/file_text_vector_store.py:390-402 | Adding one hit to a merge of a prefix gives the merge of the extended prefix (both the new-key and the known-key branches). |
| HybridSearch.CombinedScore | src/repositories/file_text_vector_store.py:388-402 | A key's combined score is the semantic weight times its semantic scores plus the keyword weight times its keyword scores. |
| HybridSearch.ScaledSumFactors | src/repositories/file_text_vector_store.py:392-394 | Summing `score * w` per hit equals `w` times the sum of the scores. |
| HybridSearch.WalkHits | src/repositories/file_text_vector_store.py:383-402 | Every walked hit comes from one of the two result lists. A key is merged exactly when one of the lists mentions it. |
| HybridSearch.SemanticHitsFirst | src/repositories/file_text_vector_store.py:388-400 | For a key the semantic results contain, the kept dictionary is a semantic hit. |
| HybridSearch.SortDesc | src/repositories/file_text_vector_store.py:405-409 | The sorted list is non-increasing in combined score and a permutation of its input. |
| HybridSearch.InsertFacts | src/repositories/file_text_vector_store.py:405-409 | One insertion step keeps the list non-increasing and adds exactly the inserted entry (as a multiset). |
| HybridSearch.WithScoreInsert | src/repositories/file_text_vector_store.py:405-409 | An insertion step puts the new entry after every entry of equal score. |
| HybridSearch.SortDescStable | src/repositories/file_text_vector_store.py:405-409 | The sort is stable: for every score, the entries with that score keep their original order. |
| HybridSearch.SliceTo | src/repositories/file_text_vector_store.py:411 | `s[:limit]` is a prefix of length min(limit, len) for a non-negative limit, and drops `-limit` entries from the end otherwise. |
| HybridSearch.Ranking | src/repositories/file_text_vector_store.py:405-411 | Sorting and slicing distinct-key entries gives a non-increasing list of distinct keys drawn from the input, of length min(limit, n). Every dropped entry scores no higher than every kept one, and equal scores keep their order. |
| HybridSearch.RankingFacts | src/repositories/file_text_vector_store.py:387-411 | The same ranking facts for the merged dictionary, with the length bounded by the number of distinct keys. |
| HybridSearch.EntryHit | src/repositories/file_text_vector_store.py:388-402 | Every merged entry is a hit of one of the two lists, and a semantic one when the key has a semantic hit. |
| HybridSearch.EntryScore | src/repositories/file_text_vector_store.py:388-402 | Every merged entry's combined score is the weighted sum of the scores of its key in both lists. |
| HybridSearch.SearchHybrid | src/repositories/file_text_vector_store.py:357-414 | Each sub-search is asked for `2*limit` results. The result is non-increasing with distinct keys, and each entry is a hit of the results (semantic first) with the weighted combined score. The length is min(limit, number of distinct keys). Dropped entries score no higher than kept ones, and ties keep merge order. |
| FileRecords.FileIds | src/repositories/file_and_meta.py:303-323 | The keys of `files_dict` are distinct and are exactly the file ids of the rows. |
| FileRecords.FileIdsInFirstAppearanceOrder | src/repositories/file_and_meta.py:303-326 | The records come out in the order in which their files first appear in the rows. |
| FileRecords.Group | src/repositories/file_and_meta.py:303-326 | One record per distinct file id. It carries the file columns of that file's first row and, in row order, the tags of every row of that file with a truthy tag. |
| FileRecords.GetFile | src/repositories/file_and_meta.py:193-240 | No rows means no file. Otherwise the result has the first row's columns and the tag entries of all rows with a truthy tag. |
| FileRecords.GetFileAgreesWithGroup | src/repositories/file_and_meta.py:216-236 | On rows of one file, `get_file` builds the same record as the grouping loop. |
| FileRecords.GetFilesWithTags | src/repositories/file_and_meta.py:269-330 | An empty id list returns [] without querying. A query error propagates. Otherwise there is one record per distinct file of the rows, in first-appearance order. Each record's file columns come from the first row with that file id, and its tags are that file's tags. |
| FileRecords.GetFilteredFilesMetaWithTags | src/repositories/file_and_meta.py:336-395 | A query error propagates. Otherwise there is one metadata record per distinct file, with its first row's columns and its tags. |
| FileRecords.DeleteWhere | src/repositories/file_and_meta.py:156-189 | A DELETE keeps exactly the non-matching rows and reports a positive rowcount exactly when some row matched. |
| FileRecords.RemoveTag | src/repositories/file_and_meta.py:156-171 | True exactly when the file has a tag row equal to the tag under the column's collation, which is a parameter. Every other tag row is kept and the matching ones are gone. |
| FileRecords.RemoveTagIgnoringCase | src/repositories/file_and_meta.py:156-171 | Under a case-insensitive collation (the stock MySQL default, which applies because the `tags` schema at lines 73-81 names none), removing "Invoice" from a file tagged "invoice" succeeds and deletes the row. |
| FileRecords.DeleteFile | src/repositories/file_and_meta.py:176-188 | True exactly when the file existed. Every other file row is kept. |
| FileService.ValidateFilename | src/services/file_service.py:36-40 | A name is accepted exactly when it is a non-empty string of at most 255 characters. A longer string is reported as too long; anything else is an invalid name. |
| FileService.PayloadBytes | src/services/file_service.py:45-46 | Only `bytes` and `bytearray` payloads are accepted, and their content is what is stored. |
| FileService.UploadFile | src/services/file_service.py:42-103 | Each step's reply decides the outcome: validation errors before any call; metadata raising or falsy; blob raising, or falsy with a metadata rollback; a count of 5 or more (a raising count treated as 0); success with `parsing_scheduled` true exactly when the submission did not raise. A failed upload writes no parsing state. A successful one writes `queued`, then `pending` when the submission raised. |
| FileService.Admit | src/services/file_service.py:68-103 | After a stored blob, the queue check, the `queued` write, the submission and the revert happen as the count and submission replies dictate. The writes are exactly the admission writes. |
| FileService.WritesOfAdmission | src/services/file_service.py:79-95 | The state writes of an admitted upload are `queued`, followed by `pending` when scheduling raised. |
| FileService.NonBlankPages | src/services/file_service.py:137-138 | The pages the job stores are exactly the extracted pages whose text is not blank. |
| FileService.SaveCallsOfNonBlankPages | src/services/file_service.py:137-145 | The job calls `insert_file_text_page` once per non-blank page, in page order, with the page's number and full text. |
| FileService.IndexCallsOfNonBlankPages | src/services/file_service.py:150-166 | The job calls `store_page_text` once per non-blank page, in page order, with number, text and filename. |
| FileService.PagesSaved | src/services/file_service.py:136-147 | `pages_saved` never exceeds the number of non-blank pages. |
| FileService.SavePages | src/services/file_service.py:136-145 | The save loop makes exactly the save calls and counts the ones that did not raise. |
| FileService.IndexPages | src/services/file_service.py:150-167 | The indexing loop makes exactly one `store_page_text` call per non-blank page, whatever each returns or raises. |
| FileService.ParseFileTextAndSave | src/services/file_service.py:105-184 | The job writes `parsing`, then:<br>- `failed` when extraction raises;<br>- `done` at once when nothing was extracted;<br>- otherwise the page saves, the page indexing when a vector store exists, and `done`.<br>It never raises, and the OCR engine state is the pipeline's. |
| FileService.RecordPages | src/services/file_service.py:127-184 | The calls after the `parsing` write match the extraction outcome, as for the whole job. |
| FileService.LifecycleMonotone | src/services/file_service.py:79-184 | Along any lifecycle every write concerns the one file and starts with `queued`. Later writes move strictly forward, except a final revert to `pending`, and nothing follows a terminal state. |
| FileService.UploadAndProcess | src/services/file_service.py:42-184 | An upload followed by its job gives the file one of the lifecycles: none on a failed upload; `queued, pending` when scheduling raised; otherwise `queued, parsing`, then `done` or `failed` as OCR succeeded. |
| FileService.UnscheduledLifecycle | src/services/file_service.py:86-95 | An upload whose submission raised leaves the file `queued` then `pending`, which is a lifecycle. |
| FileService.ScheduledLifecycle | src/services/file_service.py:80-184 | An admission `queued` write followed by a job's writes forms the lifecycle `queued, parsing, done/failed`. |
| FileService.PieceTagFacts | src/services/file_service.py:331-334 | A comma-free piece contributes no tag exactly when it is blank. Otherwise its tag is non-empty, stripped and comma-free. |
| FileService.TextFieldTags | src/services/file_service.py:328-334 | A comma-separated tags string yields only non-empty, stripped, comma-free tags. |
| FileService.InsertTag | src/services/file_service.py:323-345 | Adding a tag keeps the list strictly ascending, and its members are the old ones plus the tag. |
| FileService.CollectTags | src/services/file_service.py:323-347 | The collected tags are strictly ascending (sorted, no duplicates), and a string is among them exactly when some row contributes it. |
| FileService.GetAllTags | src/services/file_service.py:313-347 | A fetch error becomes a FileServiceError. Otherwise the result is `sorted(set(...))`: strictly ascending and holding exactly the tags of the fetched rows. No rows gives []. |
| FileService.GetAllTagsOfAllFiles | src/services/file_service.py:313-347 | As written, with the rows of `get_all_files` (no tags column), the result is [] whenever the fetch succeeds. |
| FileService.GetAllTagsOfRecords | src/services/file_service.py:313-347 | Fed rows that carry each file's tags, the result is strictly ascending and holds exactly the non-empty tags of the files. |
| FileService.AllFilesLoseTags | src/services/file_service.py:313-347 | For one file tagged "invoice", the intended result contains "invoice" while the as-written result is empty. |

## Left out

- The thread pool's concurrency. The job is modelled as running to completion right after its upload. Interleavings of several uploads and jobs are not modelled, including the race between `count_parsing_queue` and the `queued` write, so the queue bound is per call, not global.
- Logging, SQL text, connection handling and `_create_database`/`_create_tables`. The queries are represented by the rows they return.
- `_clear_gpu_memory` (a torch cache flush with no effect on results). `pages_vectorized` is only logged, so it is not returned.
- `add_tag`, the service's `remove_tag` and `delete_file` wrappers, `get_most_recent_files`, `get_file_with_blob`, `get_parsing_state`, `get_files_with_tag`, `get_files_name_contains` and `get_files_by_date_range`. They are outside the modelled pipeline.
- `search_semantic`, `search_keyword`, `get_file_vectors_count` and `_ensure_collection_exists`. The sub-searches are oracles returning result lists.
- `insert_file_metadata`, `insert_file_blob` and `get_all_files`. These are SQL pass-throughs, and their replies are environment answers.
- The model's inputs stand in for some values:
  - The `uuid4` point id and the `uuid5` id of `file_{id}_page_*` are parameters.
  - Which stored points a delete removes is not modelled.
  - Scores and weights are reals, so floating-point rounding and NaN are not modelled.
- Exception messages are reduced to a kind and a fixed text. Exception subclasses are not modelled: an out-of-memory error must have kind RuntimeError.
- Strings.Suffix: assumes a POSIX host, where `Path` is `PurePosixPath`. Only '/' separates components, so on Windows a backslash would also split the name and the model does not cover that.
- Strings.Lower: maps only ASCII letters. For the comparisons made here (the known suffixes and "out of memory"), Unicode lowercasing could only differ in the text of the unsupported-suffix message.
- FileService.GetAllTags: the model covers string tags only. A dict item whose `tag` is a truthy non-string value is not represented; it would be added and could make `sorted` raise on mixed types.
- FileRecords.RemoveTag / FileRecords.DeleteFile: a DELETE that raises is not modelled. In the source the exception from `cursor.execute` propagates through the `finally` (src/repositories/file_and_meta.py:165-171, 182-188); the model's results are total.
- FileRecords.RemoveTag: the collation is a parameter. Which collation a given server applies, and PAD SPACE trailing-space rules, are not modelled.
- HybridSearch.SearchHybrid: the outer `except Exception: return []` is not modelled. With sub-searches that return well-formed result lists nothing in the body raises, and the two searches' own error handling is outside the model.
- HybridSearch.SearchHybrid: the length is stated only for a non-negative limit. A negative limit's slice is stated by SliceTo.
- FileService.UploadAndProcess: assumes the job sees the same bytes and filename that the upload stored, and that no other call intervenes.
- Where the code and its documented behaviour differ, the model follows the code:
  - Ties in `search_hybrid` keep merge order rather than a `(file_id, page_number)` order.
  - `score_threshold` of the sub-searches is not applied in the merge.
  - An empty payload is accepted by `upload_file`.
  - Plain string list items in `get_all_tags` are added without stripping, even when empty.

## Findings

| source | as written | input that shows it | evidently intended | confidence | as-written member | corrected member |
|---|---|---|---|---|---|---|
| src/services/file_service.py:313-347 | Tags are read from the `tags` key of the rows of `get_all_files`, whose query (src/repositories/file_and_meta.py:245-258) selects only id, filename, file_size and upload_time. | One file tagged "invoice": the result is [] | The sorted distinct tags of all files, as the method's documentation says | high; not executed | FileService.GetAllTagsOfAllFiles | FileService.GetAllTagsOfRecords |
