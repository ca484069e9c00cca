/**
 * `OrderFilesController`: uploading a file to an order behind the request
 * validator and a size guard, and the answers to a download or a delete.
 */
module OrderFilesApi {
  import opened Wrappers
  import opened Exceptions
  import opened Entities
  import opened Validators
  import opened OrderFiles
  import opened Http

  /** The user the upload is recorded for. */
  const Actor: string := "system"

  /** 100 MiB, the largest upload accepted. */
  const MaxFileSize: int := 100 * 1024 * 1024

  const EmptyFileMessage: string := "File is empty"
  const TooLargeMessage: string := "File size exceeds 100MB limit"
  const FileNotFoundMessage: string := "File not found"
  const FileDeletedMessage: string := "File deleted successfully"

  /** The answer (or the exception that escaped), the store afterwards and the calls made to the upload service. */
  datatype UploadReply = UploadReply(outcome: Result<Response, Exception>, store: Store, calls: seq<UploadCall>)

  /** The guards the controller applies before it calls the service. */
  predicate UploadAdmitted(request: UploadOrderFileRequest, fileLength: nat) {
    UploadOrderFileErrors(request) == [] && 0 < fileLength <= MaxFileSize
  }

  /**
   * `UploadOrderFile`: the request validator runs first, then an empty file
   * and a file over 100 MiB are refused; only then is the service called.
   * An invalid operation of the service (an unknown order) becomes 400 with
   * its message; any other exception escapes to the middleware.
   */
  function UploadOrderFileEndpoint(store: Store, orderId: string, request: UploadOrderFileRequest, fileName: string,
                                   fileLength: nat, now: int,
                                   upload: UploadCall -> Result<UploadFileResult, Exception>): (r: UploadReply)
    ensures UploadOrderFileErrors(request) != [] ==>
              r == UploadReply(Ok(Response(BadRequest, Invalid(UploadOrderFileErrors(request)))), store, [])
    ensures UploadOrderFileErrors(request) == [] && fileLength == 0 ==>
              r == UploadReply(Ok(Response(BadRequest, Message(EmptyFileMessage))), store, [])
    ensures UploadOrderFileErrors(request) == [] && fileLength > MaxFileSize ==>
              r == UploadReply(Ok(Response(BadRequest, Message(TooLargeMessage))), store, [])
    ensures r.calls != [] ==> UploadAdmitted(request, fileLength)
    ensures UploadAdmitted(request, fileLength) ==>
              r == ServiceAnswer(UploadOrderFile(store, orderId, request, fileName, Actor, now, upload))
  {
    var errors := UploadOrderFileErrors(request);
    if errors != [] then
      UploadReply(Ok(Response(BadRequest, Invalid(errors))), store, [])
    else if fileLength == 0 then
      UploadReply(Ok(Response(BadRequest, Message(EmptyFileMessage))), store, [])
    else if fileLength > MaxFileSize then
      UploadReply(Ok(Response(BadRequest, Message(TooLargeMessage))), store, [])
    else
      ServiceAnswer(UploadOrderFile(store, orderId, request, fileName, Actor, now, upload))
  }

  /** The `try` around the service call: the new record is 201, an invalid operation 400, and anything else escapes. */
  function ServiceAnswer(up: UploadOutcome): (r: UploadReply)
    ensures r.store == up.store && r.calls == up.calls
    ensures up.result.Ok? ==> r.outcome == Ok(Response(Created, FileRecord(up.result.value)))
    ensures up.result.Err? && up.result.error.InvalidOperation? ==>
              r.outcome == Ok(Response(BadRequest, Message(up.result.error.message)))
    ensures up.result.Err? && !up.result.error.InvalidOperation? ==> r.outcome == Err(up.result.error)
  {
    match up.result
    case Ok(file) => UploadReply(Ok(Response(Created, FileRecord(file))), up.store, up.calls)
    case Err(InvalidOperation(m)) => UploadReply(Ok(Response(BadRequest, Message(m))), up.store, up.calls)
    case Err(e) => UploadReply(Err(e), up.store, up.calls)
  }

  /**
   * Only an admitted upload to an existing order whose upload call succeeds
   * is answered 201 and stores a record; an unknown order is answered 400
   * with the service's message and no call is made.
   */
  lemma UploadAnswers(store: Store, orderId: string, request: UploadOrderFileRequest, fileName: string,
                      fileLength: nat, now: int, upload: UploadCall -> Result<UploadFileResult, Exception>)
    ensures var r := UploadOrderFileEndpoint(store, orderId, request, fileName, fileLength, now, upload);
            && (r.outcome.Ok? && r.outcome.value.status == Created <==>
                  UploadAdmitted(request, fileLength)
                  && UploadOrderFile(store, orderId, request, fileName, Actor, now, upload).result.Ok?)
            && (!(r.outcome.Ok? && r.outcome.value.status == Created) ==> r.store == store)
            && (UploadAdmitted(request, fileLength) && !HasOrder(store, orderId) ==>
                  r == UploadReply(Ok(Response(BadRequest, Message(OrderNotFoundMessage(orderId)))), store, []))
  {
  }

  /** A file of exactly 100 MiB reaches the service; one byte more is refused without a call. */
  lemma SizeLimitIsInclusive(store: Store, orderId: string, request: UploadOrderFileRequest, fileName: string,
                             now: int, upload: UploadCall -> Result<UploadFileResult, Exception>)
    requires UploadOrderFileErrors(request) == [] && HasOrder(store, orderId)
    ensures UploadOrderFileEndpoint(store, orderId, request, fileName, MaxFileSize, now, upload).calls != []
    ensures UploadOrderFileEndpoint(store, orderId, request, fileName, MaxFileSize + 1, now, upload)
            == UploadReply(Ok(Response(BadRequest, Message(TooLargeMessage))), store, [])
  {
  }

  /** `DownloadOrderFile`: 404 when the service yields no stream, otherwise the file under its stored name and type. */
  function DownloadOrderFileEndpoint(store: Store, orderId: string, fileId: int,
                                     download: string -> Option<seq<byte>>): (r: Response)
    ensures r.status == NotFound <==>
              FindLiveFile(store.files, orderId, fileId).None?
              || download(store.files[FindLiveFile(store.files, orderId, fileId).value].objectPath).None?
    ensures r.status == NotFound ==> r.body == Message(FileNotFoundMessage)
    ensures r.status != NotFound ==>
              var file := store.files[FindLiveFile(store.files, orderId, fileId).value];
              r == Response(OK, FileContent(download(file.objectPath).value, file.fileType, file.fileName))
  {
    var d := DownloadOrderFile(store, orderId, fileId, download);
    match d.stream
    case None => Response(NotFound, Message(FileNotFoundMessage))
    case Some(content) => Response(OK, FileContent(content, d.contentType, d.fileName))
  }

  /** `DeleteOrderFile`: 404 when the service finds no live file, otherwise 200 with the soft delete applied. */
  function DeleteOrderFileEndpoint(store: Store, orderId: string, fileId: int, now: int): (r: (Response, Store))
    ensures r.0.status == NotFound <==> !DeleteOrderFile(store, orderId, fileId, now).0
    ensures r.0.status == NotFound ==> r.0.body == Message(FileNotFoundMessage) && r.1 == store
    ensures r.0.status != NotFound ==>
              r.0 == Response(OK, Message(FileDeletedMessage)) && r.1 == DeleteOrderFile(store, orderId, fileId, now).1
  {
    var (deleted, after) := DeleteOrderFile(store, orderId, fileId, now);
    if !deleted then (Response(NotFound, Message(FileNotFoundMessage)), after)
    else (Response(OK, Message(FileDeletedMessage)), after)
  }

  /** Deleting the same file twice is answered 200 and then 404, and the second call changes nothing. */
  lemma SecondDeleteIsNotFound(store: Store, orderId: string, fileId: int, now: int, later: int)
    requires FileIdsAreRowNumbers(store.files)
    requires DeleteOrderFileEndpoint(store, orderId, fileId, now).0.status == OK
    ensures var once := DeleteOrderFileEndpoint(store, orderId, fileId, now).1;
            DeleteOrderFileEndpoint(once, orderId, fileId, later) == (Response(NotFound, Message(FileNotFoundMessage)), once)
  {
    SecondDeleteFails(store, orderId, fileId, now, later);
  }

  /** A deleted file can no longer be downloaded. */
  lemma DeletedFileIsNotDownloadable(store: Store, orderId: string, fileId: int, now: int,
                                     download: string -> Option<seq<byte>>)
    requires FileIdsAreRowNumbers(store.files)
    requires DeleteOrderFileEndpoint(store, orderId, fileId, now).0.status == OK
    ensures DownloadOrderFileEndpoint(DeleteOrderFileEndpoint(store, orderId, fileId, now).1, orderId, fileId, download)
            == Response(NotFound, Message(FileNotFoundMessage))
  {
    NoLiveCopyAfterDelete(store, orderId, fileId, now);
  }
}
