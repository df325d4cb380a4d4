/** `FileService` (src/services/file_service.py): upload admission with its
    validation, metadata rollback, queue limit and scheduling; the background
    job that extracts, stores and indexes page text and records the file's
    parsing state; and `get_all_tags`.

    The repository, the thread pool and the vector store are one abstract
    environment. Every call the service makes is appended to a trace, and the
    environment's answer to a call may depend on the whole trace before it,
    so any behaviour of a real store or pool (including raising) is a
    possible answer. */
module FileService {
  import opened Base
  import opened Strings
  import Extraction
  import FileRecords

  /** `MAX_QUEUE`: at most this many files may be queued or parsing. */
  const MaxQueue: int := 5

  const MaxFilenameLength: nat := 255

  /** The `parsing_state` column. */
  datatype ParsingState = Pending | Queued | Parsing | Done | Failed

  /** A call the service makes to a collaborator. */
  datatype Call =
    | InsertFileMetadata(filename: string, fileSize: nat)
    | InsertFileBlob(fileId: int, data: Bytes)
    | DeleteFile(fileId: int)
    | CountParsingQueue
    | UpdateParsingState(fileId: int, state: ParsingState)
    | Submit(fileId: int, filename: string, data: Bytes)          // thread_pool.submit
    | InsertFileTextPage(fileId: int, pageNumber: int, text: string)
    | StorePageText(fileId: int, pageNumber: int, text: string, filename: string)

  /** A collaborator's answer: it raised, or it returned a value (an id, a
      count, a flag; 0 stands for every falsy value). */
  datatype Reply = Raised | Returned(value: int)

  /** Python truthiness of a returned value. */
  predicate Succeeded(r: Reply) {
    r.Returned? && r.value != 0
  }

  /** The calls made so far and how the collaborators answer a call after a
      given history of calls. */
  datatype Env = Env(trace: seq<Call>, oracle: (seq<Call>, Call) -> Reply)

  /** Makes one call: records it and returns the collaborator's answer. */
  function Invoke(env: Env, c: Call): (res: (Reply, Env))
    ensures res.1 == env.(trace := env.trace + [c])
    ensures res.0 == env.oracle(env.trace, c)
  {
    (env.oracle(env.trace, c), env.(trace := env.trace + [c]))
  }

  /** The calls `after` made since `before`. */
  function CallsSince(before: Env, after: Env): seq<Call>
    requires before.trace <= after.trace
  {
    after.trace[|before.trace|..]
  }

  /** The answer to `c` made after the calls `made` since `env`. */
  function ReplyAfter(env: Env, made: seq<Call>, c: Call): Reply {
    env.oracle(env.trace + made, c)
  }

  /** The parsing-state writes among `calls`, in order. */
  function Writes(calls: seq<Call>): seq<Call> {
    if calls == [] then []
    else
      var init, last := calls[..|calls| - 1], calls[|calls| - 1];
      Writes(init) + (if last.UpdateParsingState? then [last] else [])
  }

  /** The writes are exactly the `update_parsing_state` calls among `calls`. */
  lemma {:induction false} WritesAreStateUpdates(calls: seq<Call>)
    ensures forall k | 0 <= k < |Writes(calls)| :: Writes(calls)[k].UpdateParsingState? && Writes(calls)[k] in calls
    ensures forall c | c in calls && c.UpdateParsingState? :: c in Writes(calls)
  {
    if calls != [] {
      var init, last := calls[..|calls| - 1], calls[|calls| - 1];
      assert calls == init + [last];
      WritesAreStateUpdates(init);
    }
  }

  lemma {:induction false} WritesConcat(a: seq<Call>, b: seq<Call>)
    ensures Writes(a + b) == Writes(a) + Writes(b)
  {
    if b == [] {
      assert a + b == a;
    } else {
      assert (a + b)[..|a + b| - 1] == a + b[..|b| - 1];
      WritesConcat(a, b[..|b| - 1]);
    }
  }

  /** Calls that write no parsing state leave no writes. */
  lemma {:induction false} WritesOfNone(calls: seq<Call>)
    requires forall k | 0 <= k < |calls| :: !calls[k].UpdateParsingState?
    ensures Writes(calls) == []
  {
    if calls != [] {
      WritesOfNone(calls[..|calls| - 1]);
    }
  }

  /** Why an upload was refused. */
  datatype ServiceError =
    | InvalidFilename        // "filename must be a non-empty string"
    | FilenameTooLong        // "filename too long (>255)"
    | InvalidPayload         // "file_bytes must be bytes or bytearray"
    | MetadataInsertFailed   // "failed to insert file metadata"
    | BlobInsertFailed       // "failed to insert file blob"
    | QueueFull              // QueueFullError
    | TagsFetchFailed        // "Failed to fetch tags: ..."
    | Propagated(call: Call) // an exception of the repository that is not caught

  /** `_validate_filename`: a non-empty string of at most 255 characters. */
  function ValidateFilename(filename: PyValue): (r: Option<ServiceError>)
    ensures r.None? <==> filename.PyStr? && 0 < |filename.s| <= MaxFilenameLength
    ensures r.Some? ==> r.value in {InvalidFilename, FilenameTooLong}
    ensures r == Some(FilenameTooLong) <==> filename.PyStr? && |filename.s| > MaxFilenameLength
  {
    if !Truthy(filename) || !filename.PyStr? then Some(InvalidFilename)
    else if |filename.s| > MaxFilenameLength then Some(FilenameTooLong)
    else None
  }

  /** `isinstance(file_bytes, (bytes, bytearray))`; an empty payload passes. */
  function PayloadBytes(payload: PyValue): (r: Option<Bytes>)
    ensures r.Some? <==> payload.PyBytes? || payload.PyByteArray?
    ensures r.Some? ==> r.value == payload.data
  {
    match payload
    case PyBytes(d) => Some(d)
    case PyByteArray(d) => Some(d)
    case _ => None
  }

  /** The dictionary `upload_file` returns. */
  datatype Upload = Upload(fileId: int, filename: string, fileSize: nat, blobId: int, parsingScheduled: bool)

  /** The calls of an admitted upload after the blob insert: the queue count,
      the `queued` write, the submission and, when the submission raised, the
      revert to `pending`. */
  function AdmissionCalls(fileId: int, filename: string, data: Bytes, submitRaised: bool): seq<Call> {
    [CountParsingQueue, UpdateParsingState(fileId, Queued), Submit(fileId, filename, data)]
    + (if submitRaised then [UpdateParsingState(fileId, Pending)] else [])
  }

  /** The state writes of an admitted upload: `queued`, then `pending` again
      when the submission raised. */
  function AdmissionWrites(fileId: int, submitRaised: bool): seq<Call> {
    [UpdateParsingState(fileId, Queued)] + (if submitRaised then [UpdateParsingState(fileId, Pending)] else [])
  }

  /** The writes among the admission calls are the admission writes. */
  lemma {:induction false} AdmissionCallsWrite(fileId: int, filename: string, data: Bytes, submitRaised: bool)
    ensures Writes(AdmissionCalls(fileId, filename, data, submitRaised)) == AdmissionWrites(fileId, submitRaised)
  {
    var count, queued, submit := CountParsingQueue, UpdateParsingState(fileId, Queued), Submit(fileId, filename, data);
    assert [count, queued][..1] == [count];
    assert [count, queued, submit][..2] == [count, queued];
    assert Writes([count]) == [] by { assert [count][..0] == []; }
    assert Writes([count, queued, submit]) == [queued];
    if submitRaised {
      var pending := UpdateParsingState(fileId, Pending);
      assert [count, queued, submit, pending][..3] == [count, queued, submit];
      assert AdmissionCalls(fileId, filename, data, submitRaised) == [count, queued, submit, pending];
    } else {
      assert AdmissionCalls(fileId, filename, data, submitRaised) == [count, queued, submit];
    }
  }

  lemma WritesOfAdmission(before: seq<Call>, fileId: int, filename: string, data: Bytes, submitRaised: bool)
    requires Writes(before) == []
    ensures Writes(before + AdmissionCalls(fileId, filename, data, submitRaised)) == AdmissionWrites(fileId, submitRaised)
  {
    WritesConcat(before, AdmissionCalls(fileId, filename, data, submitRaised));
    AdmissionCallsWrite(fileId, filename, data, submitRaised);
  }

  /** What an upload does once the blob insert returned the truthy id
      `blobId`: a queue count of 5 or more (an exception counts as 0)
      refuses it with no further call; otherwise the file is marked `queued`
      and submitted, and a raising submission is followed by the revert to
      `pending` and reports that parsing was not scheduled. */
  predicate AfterBlob(env: Env, name: string, data: Bytes, fileId: int, blobId: int,
                      out: Result<Upload, ServiceError>, calls: seq<Call>)
  {
    var stored := [InsertFileMetadata(name, |data|), InsertFileBlob(fileId, data)];
    var count := ReplyAfter(env, stored, CountParsingQueue);
    if count.Returned? && count.value >= MaxQueue then
      out == Err(QueueFull) && calls == stored + [CountParsingQueue]
    else
      var submit := ReplyAfter(env, stored + [CountParsingQueue, UpdateParsingState(fileId, Queued)],
                               Submit(fileId, name, data));
      && out == Ok(Upload(fileId, name, |data|, blobId, !submit.Raised?))
      && calls == stored + AdmissionCalls(fileId, name, data, submit.Raised?)
  }

  /** What an upload does once the metadata insert returned the truthy id
      `fileId`: the blob insert's exception propagates with no rollback, a
      falsy blob id is followed by a `delete_file` of the metadata row and
      refuses the upload, and a truthy one goes on as `AfterBlob` says. */
  predicate AfterMetadata(env: Env, name: string, data: Bytes, fileId: int,
                          out: Result<Upload, ServiceError>, calls: seq<Call>)
  {
    var meta, blob := InsertFileMetadata(name, |data|), InsertFileBlob(fileId, data);
    var reply := ReplyAfter(env, [meta], blob);
    if reply.Raised? then out == Err(Propagated(blob)) && calls == [meta, blob]
    else if reply.value == 0 then out == Err(BlobInsertFailed) && calls == [meta, blob, DeleteFile(fileId)]
    else AfterBlob(env, name, data, fileId, reply.value, out, calls)
  }

  /** `upload_file(filename, file_bytes)`.
      - A bad filename or payload is refused before any call.
      - The metadata insert comes first; its exception propagates and a falsy
        id refuses the upload.
      - The rest is as `AfterMetadata` and `AfterBlob` say.
      - A refused upload writes no parsing state; an admitted one writes
        `queued`, then `pending` again when the submission raised. */
  method UploadFile(env: Env, filename: PyValue, payload: PyValue) returns (out: Result<Upload, ServiceError>, env': Env)
    ensures env'.oracle == env.oracle && env.trace <= env'.trace
    ensures ValidateFilename(filename).Some? ==> out == Err(ValidateFilename(filename).value) && env' == env
    ensures ValidateFilename(filename).None? && PayloadBytes(payload).None? ==> out == Err(InvalidPayload) && env' == env
    ensures ValidateFilename(filename).None? && PayloadBytes(payload).Some? ==>
      var name, data := filename.s, PayloadBytes(payload).value;
      var meta := InsertFileMetadata(name, |data|);
      var reply := ReplyAfter(env, [], meta);
      if reply.Raised? then out == Err(Propagated(meta)) && CallsSince(env, env') == [meta]
      else if reply.value == 0 then out == Err(MetadataInsertFailed) && CallsSince(env, env') == [meta]
      else AfterMetadata(env, name, data, reply.value, out, CallsSince(env, env'))
    ensures out.Ok? ==> PayloadBytes(payload).Some? && filename.PyStr? && out.value.filename == filename.s
    ensures out.Err? ==> Writes(CallsSince(env, env')) == []
    ensures out.Ok? ==> Writes(CallsSince(env, env')) == AdmissionWrites(out.value.fileId, !out.value.parsingScheduled)
  {
    WritesOfNone([]);
    assert CallsSince(env, env) == [];
    var v := ValidateFilename(filename);
    if v.Some? {
      return Err(v.value), env;
    }
    var bytes := PayloadBytes(payload);
    if bytes.None? {
      return Err(InvalidPayload), env;
    }
    var name, data := filename.s, bytes.value;
    var e := env;
    assert env.trace + [] == env.trace;

    var metaCall := InsertFileMetadata(name, |data|);
    var metaReply;
    metaReply, e := Invoke(e, metaCall).0, Invoke(e, metaCall).1;
    ghost var made := [metaCall];
    assert e.trace == env.trace + made;
    assert CallsSince(env, e) == made;
    WritesOfNone(made);
    if metaReply.Raised? {
      return Err(Propagated(metaCall)), e;
    }
    if metaReply.value == 0 {
      return Err(MetadataInsertFailed), e;
    }
    var fileId := metaReply.value;

    var blobCall := InsertFileBlob(fileId, data);
    var blobReply;
    blobReply, e := Invoke(e, blobCall).0, Invoke(e, blobCall).1;
    made := [metaCall, blobCall];
    assert e.trace == env.trace + made;
    assert CallsSince(env, e) == made;
    WritesOfNone(made);
    if blobReply.Raised? {
      return Err(Propagated(blobCall)), e;
    }
    if blobReply.value == 0 {
      e := Invoke(e, DeleteFile(fileId)).1;
      made := [metaCall, blobCall, DeleteFile(fileId)];
      assert e.trace == env.trace + made;
      assert CallsSince(env, e) == made;
      WritesOfNone(made);
      return Err(BlobInsertFailed), e;
    }

    out, env' := Admit(env, e, name, data, fileId, blobReply.value);
  }

  /** The admission steps of `upload_file` after a truthy blob id: the queue
      check, the `queued` write, the submission and its revert. */
  method Admit(env: Env, e: Env, name: string, data: Bytes, fileId: int, blobId: int)
    returns (out: Result<Upload, ServiceError>, env': Env)
    requires e == env.(trace := env.trace + [InsertFileMetadata(name, |data|), InsertFileBlob(fileId, data)])
    ensures env'.oracle == env.oracle && env.trace <= env'.trace
    ensures AfterBlob(env, name, data, fileId, blobId, out, CallsSince(env, env'))
    ensures out.Err? ==> Writes(CallsSince(env, env')) == []
    ensures out.Ok? ==> out.value.filename == name
    ensures out.Ok? ==> Writes(CallsSince(env, env')) == AdmissionWrites(out.value.fileId, !out.value.parsingScheduled)
  {
    var metaCall, blobCall := InsertFileMetadata(name, |data|), InsertFileBlob(fileId, data);
    var countReply;
    countReply, env' := Invoke(e, CountParsingQueue).0, Invoke(e, CountParsingQueue).1;
    var queue := if countReply.Raised? then 0 else countReply.value;
    ghost var made := [metaCall, blobCall, CountParsingQueue];
    assert env'.trace == env.trace + made;
    assert CallsSince(env, env') == made;
    if queue >= MaxQueue {
      WritesOfNone(made);
      return Err(QueueFull), env';
    }

    env' := Invoke(env', UpdateParsingState(fileId, Queued)).1;
    var submitCall := Submit(fileId, name, data);
    made := [metaCall, blobCall, CountParsingQueue, UpdateParsingState(fileId, Queued)];
    assert env'.trace == env.trace + made;
    var submitReply;
    submitReply, env' := Invoke(env', submitCall).0, Invoke(env', submitCall).1;
    assert [metaCall, blobCall] + [CountParsingQueue, UpdateParsingState(fileId, Queued)] == made;
    assert submitReply == ReplyAfter(env, made, submitCall);
    if submitReply.Raised? {
      env' := Invoke(env', UpdateParsingState(fileId, Pending)).1;
    }
    made := [metaCall, blobCall] + AdmissionCalls(fileId, name, data, submitReply.Raised?);
    assert env'.trace == env.trace + made;
    assert CallsSince(env, env') == made;
    WritesOfNone([metaCall, blobCall]);
    WritesOfAdmission([metaCall, blobCall], fileId, name, data, submitReply.Raised?);
    out := Ok(Upload(fileId, name, |data|, blobId, !submitReply.Raised?));
  }

  /** The pages whose text is not blank, which alone are saved and indexed. */
  function NonBlankPages(pages: seq<Extraction.Page>): (r: seq<Extraction.Page>)
    ensures |r| <= |pages|
    ensures forall q | q in r :: q in pages && !IsBlank(q.text)
    ensures forall q | q in pages && !IsBlank(q.text) :: q in r
  {
    if pages == [] then []
    else
      var init, last := pages[..|pages| - 1], pages[|pages| - 1];
      assert pages == init + [last];
      NonBlankPages(init) + (if !IsBlank(last.text) then [last] else [])
  }

  /** The `insert_file_text_page` calls of a job, one per non-blank page, in page order. */
  function SaveCalls(fileId: int, pages: seq<Extraction.Page>): seq<Call> {
    if pages == [] then []
    else
      var init, last := pages[..|pages| - 1], pages[|pages| - 1];
      SaveCalls(fileId, init)
      + (if !IsBlank(last.text) then [InsertFileTextPage(fileId, last.number, last.text)] else [])
  }

  /** The `store_page_text` calls of a job, one per non-blank page, in page order. */
  function IndexCalls(fileId: int, filename: string, pages: seq<Extraction.Page>): seq<Call> {
    if pages == [] then []
    else
      var init, last := pages[..|pages| - 1], pages[|pages| - 1];
      IndexCalls(fileId, filename, init)
      + (if !IsBlank(last.text) then [StorePageText(fileId, last.number, last.text, filename)] else [])
  }

  /** The saves of a job are one call per non-blank page, in page order,
      carrying the page's number and its full text. */
  lemma {:induction false} SaveCallsOfNonBlankPages(fileId: int, pages: seq<Extraction.Page>)
    ensures |SaveCalls(fileId, pages)| == |NonBlankPages(pages)|
    ensures forall k | 0 <= k < |NonBlankPages(pages)| ::
      SaveCalls(fileId, pages)[k] == InsertFileTextPage(fileId, NonBlankPages(pages)[k].number, NonBlankPages(pages)[k].text)
  {
    if pages != [] {
      var init, last := pages[..|pages| - 1], pages[|pages| - 1];
      SaveCallsOfNonBlankPages(fileId, init);
      var calls, kept := SaveCalls(fileId, init), NonBlankPages(init);
      if !IsBlank(last.text) {
        assert SaveCalls(fileId, pages) == calls + [InsertFileTextPage(fileId, last.number, last.text)];
        assert NonBlankPages(pages) == kept + [last];
        assert SaveCalls(fileId, pages)[|kept|] == InsertFileTextPage(fileId, last.number, last.text);
      } else {
        assert SaveCalls(fileId, pages) == calls;
        assert NonBlankPages(pages) == kept;
      }
    }
  }

  /** The index requests of a job are one call per non-blank page, in page
      order, carrying the page's number, its full text and the filename. */
  lemma {:induction false} IndexCallsOfNonBlankPages(fileId: int, filename: string, pages: seq<Extraction.Page>)
    ensures |IndexCalls(fileId, filename, pages)| == |NonBlankPages(pages)|
    ensures forall k | 0 <= k < |NonBlankPages(pages)| ::
      IndexCalls(fileId, filename, pages)[k]
        == StorePageText(fileId, NonBlankPages(pages)[k].number, NonBlankPages(pages)[k].text, filename)
  {
    if pages != [] {
      var init, last := pages[..|pages| - 1], pages[|pages| - 1];
      IndexCallsOfNonBlankPages(fileId, filename, init);
      var calls, kept := IndexCalls(fileId, filename, init), NonBlankPages(init);
      if !IsBlank(last.text) {
        assert IndexCalls(fileId, filename, pages) == calls + [StorePageText(fileId, last.number, last.text, filename)];
        assert NonBlankPages(pages) == kept + [last];
        assert IndexCalls(fileId, filename, pages)[|kept|] == StorePageText(fileId, last.number, last.text, filename);
      } else {
        assert IndexCalls(fileId, filename, pages) == calls;
        assert NonBlankPages(pages) == kept;
      }
    }
  }

  /** How many of `calls`, made one after another after `history`, returned
      rather than raised. */
  function Returns(oracle: (seq<Call>, Call) -> Reply, history: seq<Call>, calls: seq<Call>): (n: nat)
    ensures n <= |calls|
  {
    if calls == [] then 0
    else
      var init, last := calls[..|calls| - 1], calls[|calls| - 1];
      Returns(oracle, history, init) + (if oracle(history + init, last).Raised? then 0 else 1)
  }

  /** The calls a parsing job made from `env` to `env'`, given what
      extraction answered. The file is marked `parsing` first and then
      exactly once more: `failed` when extraction raised, and otherwise
      `done` after every non-blank page was saved and, when `indexed`, sent
      to the vector store. */
  predicate JobCalls(env: Env, env': Env, fileId: int, filename: string,
                     extracted: Result<seq<Extraction.Page>, Exception>, indexed: bool)
    requires env.trace <= env'.trace
  {
    var calls := CallsSince(env, env');
    var parsing := UpdateParsingState(fileId, Parsing);
    && Writes(calls) == [parsing, UpdateParsingState(fileId, if extracted.Ok? then Done else Failed)]
    && (extracted.Err? ==> calls == [parsing, UpdateParsingState(fileId, Failed)])
    && (extracted.Ok? ==>
          calls == [parsing] + SaveCalls(fileId, extracted.value)
                   + (if indexed then IndexCalls(fileId, filename, extracted.value) else [])
                   + [UpdateParsingState(fileId, Done)])
  }

  /** `pages_saved`: the saves of a job that did not raise. */
  function PagesSaved(env: Env, fileId: int, extracted: Result<seq<Extraction.Page>, Exception>): (n: nat)
    ensures extracted.Ok? ==> n <= |NonBlankPages(extracted.value)|
  {
    if extracted.Err? then 0
    else
      SaveCallsOfNonBlankPages(fileId, extracted.value);
      Returns(env.oracle, env.trace + [UpdateParsingState(fileId, Parsing)], SaveCalls(fileId, extracted.value))
  }

  /** `_parse_file_text_and_save(file_id, filename, file_bytes)`, run to
      completion. `vectorStoreAvailable` is whether the module-level vector
      store was constructed; the document processor's engine is threaded
      through. Every state write swallows its own error, and only an
      exception of extraction reaches the outer handler that marks the file
      `failed`; an empty extraction goes straight to `done`. */
  method ParseFileTextAndSave(env: Env, p: Extraction.Providers, engine: Extraction.Engine,
                              vectorStoreAvailable: bool, fileId: int, filename: string, data: Bytes)
    returns (env': Env, engine': Extraction.Engine, pagesSaved: nat)
    ensures env'.oracle == env.oracle && env.trace <= env'.trace
    ensures engine' == Extraction.ParseDocumentViaOcr(p, engine, data, filename).engine
    ensures JobCalls(env, env', fileId, filename, Extraction.ParseDocumentViaOcr(p, engine, data, filename).out,
                     vectorStoreAvailable)
    ensures pagesSaved == PagesSaved(env, fileId, Extraction.ParseDocumentViaOcr(p, engine, data, filename).out)
  {
    var e := Invoke(env, UpdateParsingState(fileId, Parsing)).1;
    var x := Extraction.ParseDocumentViaOcr(p, engine, data, filename);
    engine' := x.engine;
    env', pagesSaved := RecordPages(env, e, fileId, filename, x.out, vectorStoreAvailable);
  }

  /** The part of a job after extraction answered `extracted`; `e` is `env`
      after the `parsing` write. */
  method RecordPages(env: Env, e: Env, fileId: int, filename: string,
                     extracted: Result<seq<Extraction.Page>, Exception>, indexed: bool)
    returns (env': Env, pagesSaved: nat)
    requires e == env.(trace := env.trace + [UpdateParsingState(fileId, Parsing)])
    ensures env'.oracle == env.oracle && env.trace <= env'.trace
    ensures JobCalls(env, env', fileId, filename, extracted, indexed)
    ensures pagesSaved == PagesSaved(env, fileId, extracted)
  {
    var parsing := UpdateParsingState(fileId, Parsing);
    pagesSaved := 0;
    if extracted.Err? {
      env' := Invoke(e, UpdateParsingState(fileId, Failed)).1;
      RecordedFailure(env, env', fileId, filename, extracted, indexed);
      return;
    }
    var pages := extracted.value;
    var done := UpdateParsingState(fileId, Done);
    var cur := e;
    if pages == [] {
      env' := Invoke(cur, done).1;
      assert SaveCalls(fileId, pages) == [] && IndexCalls(fileId, filename, pages) == [];
      assert env'.trace == env.trace + [parsing] + SaveCalls(fileId, pages)
                           + (if indexed then IndexCalls(fileId, filename, pages) else []) + [done];
    } else {
      cur, pagesSaved := SavePages(cur, fileId, pages);
      if indexed {
        cur := IndexPages(cur, fileId, filename, pages);
      }
      env' := Invoke(cur, done).1;
    }
    RecordedPages(env, env', fileId, filename, pages, indexed);
  }

  /** A job whose extraction raised and that then wrote `failed`. */
  lemma RecordedFailure(env: Env, env': Env, fileId: int, filename: string,
                        extracted: Result<seq<Extraction.Page>, Exception>, indexed: bool)
    requires extracted.Err?
    requires env'.trace == env.trace + [UpdateParsingState(fileId, Parsing)] + [UpdateParsingState(fileId, Failed)]
    ensures env.trace <= env'.trace
    ensures JobCalls(env, env', fileId, filename, extracted, indexed)
  {
    var parsing, failed := UpdateParsingState(fileId, Parsing), UpdateParsingState(fileId, Failed);
    SinceAppended(env, env', [parsing], [], [], [failed]);
    WritesAround(parsing, [], [], failed);
    assert [parsing] + [] + [] + [failed] == [parsing, failed];
  }

  /** A job whose extraction returned `pages` and that made the saves, the
      index requests and the `done` write after the `parsing` write recorded
      what `JobCalls` describes. */
  lemma RecordedPages(env: Env, env': Env, fileId: int, filename: string, pages: seq<Extraction.Page>, indexed: bool)
    requires
      env'.trace == env.trace + [UpdateParsingState(fileId, Parsing)] + SaveCalls(fileId, pages)
                    + (if indexed then IndexCalls(fileId, filename, pages) else []) + [UpdateParsingState(fileId, Done)]
    ensures env.trace <= env'.trace
    ensures JobCalls(env, env', fileId, filename, Ok(pages), indexed)
  {
    SinceAppended(env, env', [UpdateParsingState(fileId, Parsing)], SaveCalls(fileId, pages),
                  if indexed then IndexCalls(fileId, filename, pages) else [], [UpdateParsingState(fileId, Done)]);
    PageCallsWriteNothing(fileId, filename, pages);
    WritesAround(UpdateParsingState(fileId, Parsing), SaveCalls(fileId, pages),
                 if indexed then IndexCalls(fileId, filename, pages) else [], UpdateParsingState(fileId, Done));
  }

  /** The calls made since `env` when the trace grew by `a`, `b`, `c` and `d`. */
  lemma SinceAppended(env: Env, env': Env, a: seq<Call>, b: seq<Call>, c: seq<Call>, d: seq<Call>)
    requires env'.trace == env.trace + a + b + c + d
    ensures env.trace <= env'.trace && CallsSince(env, env') == a + b + c + d
  {
    assert env'.trace == env.trace + (a + b + c + d);
  }

  /** Writes of a run that has state writes only at both ends. */
  lemma WritesAround(first: Call, b: seq<Call>, c: seq<Call>, last: Call)
    requires first.UpdateParsingState? && last.UpdateParsingState?
    requires Writes(b) == [] && Writes(c) == []
    ensures Writes([first] + b + c + [last]) == [first, last]
  {
    WritesConcat([first], b);
    WritesConcat([first] + b, c);
    WritesConcat([first] + b + c, [last]);
    assert Writes([first]) == Writes([]) + [first];
  }

  /** Saving and indexing pages write no parsing state. */
  lemma {:induction false} PageCallsWriteNothing(fileId: int, filename: string, pages: seq<Extraction.Page>)
    ensures Writes(SaveCalls(fileId, pages)) == [] && Writes(IndexCalls(fileId, filename, pages)) == []
  {
    if pages != [] {
      var init, last := pages[..|pages| - 1], pages[|pages| - 1];
      PageCallsWriteNothing(fileId, filename, init);
      WritesConcat(SaveCalls(fileId, init), if !IsBlank(last.text) then [InsertFileTextPage(fileId, last.number, last.text)] else []);
      WritesConcat(IndexCalls(fileId, filename, init),
                   if !IsBlank(last.text) then [StorePageText(fileId, last.number, last.text, filename)] else []);
    }
  }

  /** The order of the parsing states along the lifecycle
      `pending -> queued -> parsing -> done | failed`. */
  function Stage(s: ParsingState): nat {
    match s
    case Pending => 0
    case Queued => 1
    case Parsing => 2
    case Done => 3
    case Failed => 3
  }

  /** The state writes one file may receive from its upload and its job: a
      prefix of `queued, parsing, done`, of `queued, parsing, failed`, or of
      `queued, pending` when the submission raised. */
  predicate Lifecycle(fileId: int, ws: seq<Call>) {
    var queued, parsing := UpdateParsingState(fileId, Queued), UpdateParsingState(fileId, Parsing);
    || ws == [] || ws == [queued] || ws == [queued, parsing]
    || ws == [queued, parsing, UpdateParsingState(fileId, Done)]
    || ws == [queued, parsing, UpdateParsingState(fileId, Failed)]
    || ws == [queued, UpdateParsingState(fileId, Pending)]
  }

  /** Along a lifecycle every write is about the one file and moves it
      strictly forward from `pending`, except the final revert of `queued` to
      `pending`; after a terminal state nothing is written. */
  lemma LifecycleMonotone(fileId: int, ws: seq<Call>)
    requires Lifecycle(fileId, ws)
    ensures forall k | 0 <= k < |ws| :: ws[k].UpdateParsingState? && ws[k].fileId == fileId
    ensures |ws| >= 1 ==> ws[0].state == Queued
    ensures forall i, j | 0 <= i < j < |ws| ::
      Stage(ws[i].state) < Stage(ws[j].state) || (ws[i].state == Queued && ws[j].state == Pending && j == |ws| - 1)
    ensures forall k | 0 <= k < |ws| - 1 :: Stage(ws[k].state) < 3
  {
  }

  /** An upload followed, when it was scheduled, by its job running to
      completion with no other call in between. A refused upload writes no
      state; an admitted one writes `queued`, then either `pending` (the
      submission raised) or `parsing` and the job's terminal state. */
  method UploadAndProcess(env: Env, p: Extraction.Providers, engine: Extraction.Engine, vectorStoreAvailable: bool,
                          filename: PyValue, payload: PyValue)
    returns (out: Result<Upload, ServiceError>, env': Env, engine': Extraction.Engine)
    ensures env'.oracle == env.oracle && env.trace <= env'.trace
    ensures out.Ok? ==> PayloadBytes(payload).Some? && filename.PyStr? && out.value.filename == filename.s
    ensures out.Err? ==> Writes(CallsSince(env, env')) == [] && engine' == engine
    ensures out.Ok? ==> Lifecycle(out.value.fileId, Writes(CallsSince(env, env')))
    ensures out.Ok? && !out.value.parsingScheduled ==>
      Writes(CallsSince(env, env')) == [UpdateParsingState(out.value.fileId, Queued), UpdateParsingState(out.value.fileId, Pending)]
      && engine' == engine
    ensures out.Ok? && out.value.parsingScheduled ==>
      var x := Extraction.ParseDocumentViaOcr(p, engine, PayloadBytes(payload).value, out.value.filename);
      && engine' == x.engine
      && Writes(CallsSince(env, env')) ==
           [UpdateParsingState(out.value.fileId, Queued), UpdateParsingState(out.value.fileId, Parsing),
            UpdateParsingState(out.value.fileId, if x.out.Ok? then Done else Failed)]
  {
    var e;
    out, e := UploadFile(env, filename, payload);
    engine' := engine;
    if out.Err? || !out.value.parsingScheduled {
      env' := e;
      if out.Ok? {
        UnscheduledLifecycle(env, env', out.value.fileId);
      }
      return;
    }
    var fileId := out.value.fileId;
    var pagesSaved;
    env', engine', pagesSaved := ParseFileTextAndSave(e, p, engine, vectorStoreAvailable, fileId, out.value.filename,
                                                      PayloadBytes(payload).value);
    var x := Extraction.ParseDocumentViaOcr(p, engine, PayloadBytes(payload).value, out.value.filename);
    assert Writes(CallsSince(env, e)) == [UpdateParsingState(fileId, Queued)];
    assert Writes(CallsSince(e, env')) ==
      [UpdateParsingState(fileId, Parsing), UpdateParsingState(fileId, if x.out.Ok? then Done else Failed)];
    ScheduledLifecycle(env, e, env', fileId, x.out.Ok?);
  }

  /** An upload whose submission raised has the lifecycle `queued`, `pending`. */
  lemma UnscheduledLifecycle(env: Env, env': Env, fileId: int)
    requires env.trace <= env'.trace
    requires Writes(CallsSince(env, env')) == AdmissionWrites(fileId, true)
    ensures Writes(CallsSince(env, env')) == [UpdateParsingState(fileId, Queued), UpdateParsingState(fileId, Pending)]
    ensures Lifecycle(fileId, Writes(CallsSince(env, env')))
  {
  }

  /** An admitted upload (`env` to `mid`) followed by its job (`mid` to
      `env'`) has the lifecycle `queued`, `parsing`, then `done` or `failed`. */
  lemma ScheduledLifecycle(env: Env, mid: Env, env': Env, fileId: int, ok: bool)
    requires env.trace <= mid.trace && mid.trace <= env'.trace
    requires Writes(CallsSince(env, mid)) == [UpdateParsingState(fileId, Queued)]
    requires Writes(CallsSince(mid, env')) ==
      [UpdateParsingState(fileId, Parsing), UpdateParsingState(fileId, if ok then Done else Failed)]
    ensures env.trace <= env'.trace
    ensures Writes(CallsSince(env, env')) ==
      [UpdateParsingState(fileId, Queued), UpdateParsingState(fileId, Parsing), UpdateParsingState(fileId, if ok then Done else Failed)]
    ensures Lifecycle(fileId, Writes(CallsSince(env, env')))
  {
    WritesChained(env, mid, env');
  }

  /** The writes of two runs one after the other. */
  lemma WritesChained(env: Env, mid: Env, env': Env)
    requires env.trace <= mid.trace && mid.trace <= env'.trace
    ensures env.trace <= env'.trace
    ensures Writes(CallsSince(env, env')) == Writes(CallsSince(env, mid)) + Writes(CallsSince(mid, env'))
  {
    assert CallsSince(env, env') == CallsSince(env, mid) + CallsSince(mid, env');
    WritesConcat(CallsSince(env, mid), CallsSince(mid, env'));
  }

  /** The saving loop of a job: one `insert_file_text_page` per non-blank
      page, in page order, with the count of those that did not raise. */
  method SavePages(env: Env, fileId: int, pages: seq<Extraction.Page>) returns (env': Env, saved: nat)
    ensures env'.oracle == env.oracle && env'.trace == env.trace + SaveCalls(fileId, pages)
    ensures saved == Returns(env.oracle, env.trace, SaveCalls(fileId, pages))
  {
    env', saved := env, 0;
    var i := 0;
    while i < |pages|
      invariant 0 <= i <= |pages|
      invariant env'.oracle == env.oracle
      invariant env'.trace == env.trace + SaveCalls(fileId, pages[..i])
      invariant saved == Returns(env.oracle, env.trace, SaveCalls(fileId, pages[..i]))
    {
      ghost var before := SaveCalls(fileId, pages[..i]);
      var page := pages[i];
      SaveCallsStep(fileId, pages, i);
      if !IsBlank(page.text) {
        var save := InsertFileTextPage(fileId, page.number, page.text);
        ReturnsStep(env.oracle, env.trace, before, save);
        var reply;
        reply, env' := Invoke(env', save).0, Invoke(env', save).1;
        assert reply == env.oracle(env.trace + before, save);
        assert env'.trace == env.trace + (before + [save]);
        if reply.Returned? {
          saved := saved + 1;
        }
        assert SaveCalls(fileId, pages[..i + 1]) == before + [save];
        assert saved == Returns(env.oracle, env.trace, before + [save]);
      } else {
        assert SaveCalls(fileId, pages[..i + 1]) == before;
      }
      i := i + 1;
    }
    assert pages[..i] == pages;
  }

  /** One more page adds its save when its text is not blank. */
  lemma SaveCallsStep(fileId: int, pages: seq<Extraction.Page>, i: nat)
    requires i < |pages|
    ensures SaveCalls(fileId, pages[..i + 1]) == SaveCalls(fileId, pages[..i])
      + (if !IsBlank(pages[i].text) then [InsertFileTextPage(fileId, pages[i].number, pages[i].text)] else [])
  {
    assert pages[..i + 1][..i] == pages[..i];
  }

  /** One more page adds its `store_page_text` call when its text is not blank. */
  lemma IndexCallsStep(fileId: int, filename: string, pages: seq<Extraction.Page>, i: nat)
    requires i < |pages|
    ensures IndexCalls(fileId, filename, pages[..i + 1]) == IndexCalls(fileId, filename, pages[..i])
      + (if !IsBlank(pages[i].text) then [StorePageText(fileId, pages[i].number, pages[i].text, filename)] else [])
  {
    assert pages[..i + 1][..i] == pages[..i];
  }

  /** One more call adds one to the count when it did not raise. */
  lemma ReturnsStep(oracle: (seq<Call>, Call) -> Reply, history: seq<Call>, calls: seq<Call>, c: Call)
    ensures Returns(oracle, history, calls + [c])
         == Returns(oracle, history, calls) + (if oracle(history + calls, c).Raised? then 0 else 1)
  {
    assert (calls + [c])[..|calls|] == calls;
  }

  /** The indexing loop of a job: one `store_page_text` per non-blank page,
      in page order; its result and errors are ignored. */
  method IndexPages(env: Env, fileId: int, filename: string, pages: seq<Extraction.Page>) returns (env': Env)
    ensures env'.oracle == env.oracle && env'.trace == env.trace + IndexCalls(fileId, filename, pages)
  {
    env' := env;
    var i := 0;
    while i < |pages|
      invariant 0 <= i <= |pages|
      invariant env'.oracle == env.oracle
      invariant env'.trace == env.trace + IndexCalls(fileId, filename, pages[..i])
    {
      var page := pages[i];
      IndexCallsStep(fileId, filename, pages, i);
      if !IsBlank(page.text) {
        env' := Invoke(env', StorePageText(fileId, page.number, page.text, filename)).1;
      }
      i := i + 1;
    }
    assert pages[..i] == pages;
  }


  /** The `tags` field of a row of `get_all_files`: absent or None, a
      string, a list, or some other value. */
  datatype TagsField = NoTags | TagsText(text: string) | TagsList(items: seq<TagItem>) | TagsOtherValue

  /** An item of a `tags` list: a dict with its `tag` value (None when the
      key is missing), a string, or some other value. */
  datatype TagItem = TagDict(tag: Option<string>) | TagText(s: string) | TagOtherItem

  /** The values `f` yields on `xs`, in order, skipping the items it maps to None. */
  function Present<A, B(!new)>(xs: seq<A>, f: A -> Option<B>): (ys: seq<B>)
    ensures forall y :: y in ys <==> exists k | 0 <= k < |xs| :: f(xs[k]) == Some(y)
  {
    if xs == [] then []
    else
      var init, last := xs[..|xs| - 1], xs[|xs| - 1];
      assert forall k | 0 <= k < |init| :: xs[k] == init[k];
      Present(init, f) + (match f(last) case Some(y) => [y] case None => [])
  }

  /** The tag one piece of a comma-separated string contributes: the piece
      stripped, unless that leaves nothing. */
  function PieceTag(piece: string): Option<string> {
    if IsBlank(piece) then None else Some(Strip(piece))
  }

  /** The tag one list item contributes, if any. */
  function ItemTag(item: TagItem): Option<string> {
    match item
    case TagDict(Some(t)) => if t != [] then Some(t) else None
    case TagDict(None) => None
    case TagText(t) => Some(t)
    case TagOtherItem => None
  }

  /** The tags one row contributes; a falsy field (None, "" or []) contributes nothing. */
  function FieldTags(field: TagsField): seq<string> {
    match field
    case NoTags => []
    case TagsText(text) => if text == [] then [] else Present(Split(text, ','), PieceTag)
    case TagsList(items) => Present(items, ItemTag)
    case TagsOtherValue => []
  }

  /** A piece without a comma yields, if anything, a non-empty tag with no
      surrounding whitespace and no comma. */
  lemma PieceTagFacts(piece: string)
    requires ',' !in piece
    ensures PieceTag(piece).None? <==> IsBlank(piece)
    ensures PieceTag(piece).Some? ==>
      var t := PieceTag(piece).value;
      t != [] && IsStripped(t) && ',' !in t
  {
    if !IsBlank(piece) {
      var t := Strip(piece);
      var lead := LeadingSpace(piece);
      assert forall i | 0 <= i < |t| :: t[i] == piece[lead + i];
    }
  }

  /** A comma-separated tags string yields only non-empty tags with no
      surrounding whitespace and no comma, one per piece that is not blank. */
  lemma TextFieldTags(text: string)
    ensures forall t | t in FieldTags(TagsText(text)) :: t != [] && IsStripped(t) && ',' !in t
  {
    if text != [] {
      var pieces := Split(text, ',');
      var tags := Present(pieces, PieceTag);
      assert FieldTags(TagsText(text)) == tags;
      forall t | t in tags ensures t != [] && IsStripped(t) && ',' !in t {
        var k :| 0 <= k < |pieces| && PieceTag(pieces[k]) == Some(t);
        PieceTagFacts(pieces[k]);
      }
    }
  }

  /** `t` is a tag of some row. */
  predicate TagOccurs(fields: seq<TagsField>, t: string) {
    exists i | 0 <= i < |fields| :: t in FieldTags(fields[i])
  }

  /** Strictly increasing in Python's string order, hence without duplicates. */
  predicate StrictlyAscending(s: seq<string>) {
    forall i, j | 0 <= i < j < |s| :: LexLess(s[i], s[j])
  }

  /** Adds `t` to a strictly ascending list at its place, unless it is there. */
  function InsertTag(s: seq<string>, t: string): (r: seq<string>)
    requires StrictlyAscending(s)
    ensures StrictlyAscending(r)
    ensures forall x :: x in r <==> x in s || x == t
  {
    if s == [] then [t]
    else if t == s[0] then s
    else if LexLess(t, s[0]) then
      assert forall j | 0 <= j < |s| :: LexLess(t, s[j]) by {
        forall j | 0 <= j < |s| ensures LexLess(t, s[j]) {
          if j > 0 {
            LexLessTransitive(t, s[0], s[j]);
          }
        }
      }
      [t] + s
    else
      LexLessTotal(t, s[0]);
      var rest := InsertTag(s[1..], t);
      assert forall x | x in rest :: LexLess(s[0], x) by {
        forall x | x in rest ensures LexLess(s[0], x) {
          if x != t {
            var j :| 0 <= j < |s[1..]| && s[1..][j] == x;
            assert s[j + 1] == x;
          }
        }
      }
      assert forall x :: x in s <==> x == s[0] || x in s[1..] by {
        assert s == [s[0]] + s[1..];
      }
      [s[0]] + rest
  }

  /** The tags of all rows, as one strictly ascending list. */
  function CollectTags(fields: seq<TagsField>): (r: seq<string>)
    ensures StrictlyAscending(r)
    ensures forall t :: t in r <==> TagOccurs(fields, t)
  {
    if fields == [] then []
    else
      var init, last := fields[..|fields| - 1], fields[|fields| - 1];
      assert forall i | 0 <= i < |init| :: fields[i] == init[i];
      InsertAll(CollectTags(init), FieldTags(last))
  }

  /** Adds every tag of `ts` to a strictly ascending list. */
  function InsertAll(s: seq<string>, ts: seq<string>): (r: seq<string>)
    requires StrictlyAscending(s)
    ensures StrictlyAscending(r)
    ensures forall x :: x in r <==> x in s || x in ts
  {
    if ts == [] then s
    else
      var init, last := ts[..|ts| - 1], ts[|ts| - 1];
      assert ts == init + [last];
      InsertTag(InsertAll(s, init), last)
  }

  /** `get_all_tags()`: `sorted(set(...))` of the tags of every row that
      `get_all_files` returned; a failure to fetch the rows is reported as a
      FileServiceError. */
  function GetAllTags(fetched: Result<seq<TagsField>, Exception>): (r: Result<seq<string>, ServiceError>)
    ensures fetched.Err? <==> r == Err(TagsFetchFailed)
    ensures r.Ok? ==> StrictlyAscending(r.value)
    ensures r.Ok? ==> forall t :: t in r.value <==> TagOccurs(fetched.value, t)
    ensures fetched == Ok([]) ==> r == Ok([])
  {
    match fetched
    case Err(_) => Err(TagsFetchFailed)
    case Ok(fields) => if fields == [] then Ok([]) else Ok(CollectTags(fields))
  }
  /** `get_all_tags` as written: its rows come from `get_all_files`
      (src/repositories/file_and_meta.py), whose query selects no `tags`
      column, so every row's field is absent and no tag is ever found. */
  function GetAllTagsOfAllFiles(fetched: Result<seq<FileRecords.FileRow>, Exception>)
    : (r: Result<seq<string>, ServiceError>)
    ensures fetched.Err? <==> r == Err(TagsFetchFailed)
    ensures fetched.Ok? ==> r == Ok([])
  {
    match fetched
    case Err(e) => GetAllTags(Err(e))
    case Ok(rows) =>
      var fields := seq(|rows|, _ => NoTags);
      var r := GetAllTags(Ok(fields));
      assert r.value != [] ==> TagOccurs(fields, r.value[0]);
      r
  }

  /** The `tags` field of a grouped file record: its tag rows as dicts, the
      shape `get_files_with_tags` gives them. */
  function RecordTagsField<H>(rec: FileRecords.Record<H>): TagsField {
    TagsList(seq(|rec.tags|, j requires 0 <= j < |rec.tags| => TagDict(Some(rec.tags[j].tag))))
  }

  function RecordFields<H>(records: seq<FileRecords.Record<H>>): (fields: seq<TagsField>)
    ensures |fields| == |records|
  {
    seq(|records|, i requires 0 <= i < |records| => RecordTagsField(records[i]))
  }

  /** `t` is the non-empty tag of some tag row of some record. */
  predicate RecordTagged<H>(records: seq<FileRecords.Record<H>>, t: string) {
    t != [] && exists i, j | 0 <= i < |records| && 0 <= j < |records[i].tags| :: records[i].tags[j].tag == t
  }

  /** A tag occurs among the records' fields exactly when some record carries it. */
  lemma RecordFieldsTags<H>(records: seq<FileRecords.Record<H>>, t: string)
    ensures TagOccurs(RecordFields(records), t) <==> RecordTagged(records, t)
  {
    var fields := RecordFields(records);
    if TagOccurs(fields, t) {
      var i :| 0 <= i < |fields| && t in FieldTags(fields[i]);
      var items := fields[i].items;
      var j :| 0 <= j < |items| && ItemTag(items[j]) == Some(t);
      assert records[i].tags[j].tag == t;
    }
    if RecordTagged(records, t) {
      var i, j :| 0 <= i < |records| && 0 <= j < |records[i].tags| && records[i].tags[j].tag == t;
      assert ItemTag(fields[i].items[j]) == Some(t);
      assert t in FieldTags(fields[i]);
    }
  }

  /** `get_all_tags` fed rows that do carry each file's tags, as its own
      documentation intends: the sorted distinct non-empty tags of all files. */
  function GetAllTagsOfRecords<H>(fetched: Result<seq<FileRecords.Record<H>>, Exception>)
    : (r: Result<seq<string>, ServiceError>)
    ensures fetched.Err? <==> r == Err(TagsFetchFailed)
    ensures r.Ok? ==> StrictlyAscending(r.value)
    ensures r.Ok? ==> forall t :: t in r.value <==> RecordTagged(fetched.value, t)
  {
    match fetched
    case Err(e) => GetAllTags(Err(e))
    case Ok(records) =>
      var r := GetAllTags(Ok(RecordFields(records)));
      assert forall t :: t in r.value <==> RecordTagged(records, t) by {
        forall t ensures t in r.value <==> RecordTagged(records, t) {
          RecordFieldsTags(records, t);
        }
      }
      r
  }

  /** A file tagged "invoice": the intended result lists the tag, the one as
      written is empty. */
  lemma AllFilesLoseTags()
    ensures var rec := FileRecords.Record(1, (), [FileRecords.TagEntry("invoice", None)]);
      && GetAllTagsOfRecords(Ok([rec])).Ok?
      && "invoice" in GetAllTagsOfRecords(Ok([rec])).value
      && GetAllTagsOfAllFiles(Ok([FileRecords.FileRow(1, "scan.pdf", 3, 0)])) == Ok([])
  {
    var rec := FileRecords.Record(1, (), [FileRecords.TagEntry("invoice", None)]);
    assert RecordTagged([rec], "invoice") by {
      assert [rec][0].tags[0].tag == "invoice";
    }
  }
}
