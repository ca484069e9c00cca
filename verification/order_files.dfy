/**
 * The file records of an order (`OrderFileService`): the live files newest
 * first, recording an upload, looking a file up for download, and the soft
 * delete. The upload service is an oracle: the model records which calls
 * would be made and takes their results as parameters.
 */
module OrderFiles {
  import opened Wrappers
  import opened Exceptions
  import opened Sequences
  import opened Entities
  import OrderManagement

  /** What the upload service reports for a stored object. */
  datatype UploadFileResult = UploadFileResult(objectPath: string, fileSizeBytes: int, contentType: string)

  /** The content type every upload is sent with. */
  const UploadContentType: string := "application/octet-stream"

  /** The object path requested for a file of an order. */
  function ObjectPath(orderId: string, fileName: string): string {
    "orders/" + orderId + "/files/" + fileName
  }

  /** The access level of a file, from the confidentiality of its order. */
  function AccessLevel(isConfidential: bool): string {
    if isConfidential then "Confidential" else "Internal"
  }

  /** A file of the order that has not been soft-deleted. */
  function IsLiveFileOf(orderId: string): OrderFile -> bool {
    (f: OrderFile) => f.orderId == orderId && f.deletedAt.None?
  }

  function UploadedAtKey(f: OrderFile): int {
    f.uploadedAt
  }

  /** The identity column numbers file rows in insertion order, and rows are never removed. */
  predicate FileIdsAreRowNumbers(files: seq<OrderFile>) {
    forall i :: 0 <= i < |files| ==> files[i].fileId == i + 1
  }

  /** `GetOrderFilesAsync`: the order's files that are not deleted, newest upload first. */
  function GetOrderFiles(store: Store, orderId: string): (r: seq<OrderFile>)
    ensures SortedBy(r, UploadedAtKey, true)
    ensures forall x :: multiset(r)[x] == if x.orderId == orderId && x.deletedAt.None? then multiset(store.files)[x] else 0
  {
    SortBy(Filter(store.files, IsLiveFileOf(orderId)), UploadedAtKey, true)
  }

  /** An upload to the service: the object path and the content type. */
  datatype UploadCall = UploadCall(objectPath: string, contentType: string)

  /** The result of `UploadOrderFileAsync`, the store after it, and the calls made to the upload service. */
  datatype UploadOutcome = UploadOutcome(result: Result<OrderFile, Exception>, store: Store, calls: seq<UploadCall>)

  /**
   * `UploadOrderFileAsync`: the order must exist before the upload service
   * is called; an upload failure propagates; otherwise a record is added
   * with the path, size and type the service reports, the request's role,
   * category and design units, and the access level of the order.
   */
  function UploadOrderFile(store: Store, orderId: string, request: UploadOrderFileRequest, fileName: string,
                           uploadedBy: string, now: int,
                           upload: UploadCall -> Result<UploadFileResult, Exception>): (r: UploadOutcome)
    ensures r.result.Err? ==> r.store == store
    ensures !HasOrder(store, orderId) ==> r.result == Err(InvalidOperation(OrderNotFoundMessage(orderId))) && r.calls == []
    ensures HasOrder(store, orderId) ==> r.calls == [UploadCall(ObjectPath(orderId, fileName), UploadContentType)]
    ensures HasOrder(store, orderId) && upload(UploadCall(ObjectPath(orderId, fileName), UploadContentType)).Err? ==>
              r.result == Err(upload(UploadCall(ObjectPath(orderId, fileName), UploadContentType)).error)
    ensures r.result.Ok? <==>
              HasOrder(store, orderId) && upload(UploadCall(ObjectPath(orderId, fileName), UploadContentType)).Ok?
    ensures r.result.Ok? ==>
              var stored := upload(UploadCall(ObjectPath(orderId, fileName), UploadContentType)).value;
              var file := r.result.value;
              && file.fileId == |store.files| + 1
              && file.orderId == orderId && file.fileName == fileName
              && file.fileRole == request.fileRole && file.fileCategory == request.fileCategory
              && file.designUnits == request.designUnits
              && file.objectPath == stored.objectPath && file.fileSize == stored.fileSizeBytes
              && file.fileType == stored.contentType
              && file.uploadedBy == uploadedBy && file.uploadedAt == now && file.deletedAt.None?
              && r.store == store.(files := store.files + [file])
  {
    match OrderManagement.CurrentOrder(store, orderId)
    case None => UploadOutcome(Err(InvalidOperation(OrderNotFoundMessage(orderId))), store, [])
    case Some(order) =>
      var call := UploadCall(ObjectPath(orderId, fileName), UploadContentType);
      match upload(call)
      case Err(e) => UploadOutcome(Err(e), store, [call])
      case Ok(stored) =>
        var file := OrderFile(|store.files| + 1, orderId, request.fileRole, request.fileCategory, request.designUnits,
                              stored.objectPath, fileName, stored.fileSizeBytes, stored.contentType,
                              AccessLevel(order.details.isConfidential), now, uploadedBy, None);
        UploadOutcome(Ok(file), store.(files := store.files + [file]), [call])
  }

  /** An uploaded file is "Confidential" exactly when its order is confidential, and "Internal" otherwise. */
  lemma UploadAccessLevel(store: Store, orderId: string, request: UploadOrderFileRequest, fileName: string,
                          uploadedBy: string, now: int, upload: UploadCall -> Result<UploadFileResult, Exception>)
    requires UploadOrderFile(store, orderId, request, fileName, uploadedBy, now, upload).result.Ok?
    ensures var file := UploadOrderFile(store, orderId, request, fileName, uploadedBy, now, upload).result.value;
            var order := OrderManagement.CurrentOrder(store, orderId).value;
            && (file.accessLevel == "Confidential" <==> order.details.isConfidential)
            && (file.accessLevel == "Internal" <==> !order.details.isConfidential)
  {
  }

  /** `FirstOrDefaultAsync` over the file rows: the first live file of the order with this id. */
  function FindLiveFile(files: seq<OrderFile>, orderId: string, fileId: int): (r: Option<nat>)
    ensures r.None? <==> forall i :: 0 <= i < |files| ==> !(IsLiveFileOf(orderId)(files[i]) && files[i].fileId == fileId)
    ensures r.Some? ==> r.value < |files| && IsLiveFileOf(orderId)(files[r.value]) && files[r.value].fileId == fileId
    decreases |files|
  {
    if |files| == 0 then None
    else if IsLiveFileOf(orderId)(files[0]) && files[0].fileId == fileId then Some(0)
    else
      match FindLiveFile(files[1..], orderId, fileId)
      case None => None
      case Some(k) => Some(k + 1)
  }

  /** The stream, file name and content type `DownloadOrderFileAsync` returns, and the object paths it downloads. */
  datatype DownloadOutcome = DownloadOutcome(stream: Option<seq<byte>>, fileName: string, contentType: string,
                                             downloads: seq<string>)

  /**
   * `DownloadOrderFileAsync`: no stream and two empty strings when the order
   * has no live file with this id, without calling the upload service;
   * otherwise whatever the service returns for the stored object path (no
   * stream when the download fails), with the stored name and type.
   */
  function DownloadOrderFile(store: Store, orderId: string, fileId: int,
                             download: string -> Option<seq<byte>>): (r: DownloadOutcome)
    ensures r.downloads == [] <==> FindLiveFile(store.files, orderId, fileId).None?
    ensures FindLiveFile(store.files, orderId, fileId).None? ==> r == DownloadOutcome(None, "", "", [])
    ensures FindLiveFile(store.files, orderId, fileId).Some? ==>
              var file := store.files[FindLiveFile(store.files, orderId, fileId).value];
              && file.orderId == orderId && file.fileId == fileId && file.deletedAt.None?
              && r == DownloadOutcome(download(file.objectPath), file.fileName, file.fileType, [file.objectPath])
  {
    match FindLiveFile(store.files, orderId, fileId)
    case None => DownloadOutcome(None, "", "", [])
    case Some(i) =>
      var file := store.files[i];
      DownloadOutcome(download(file.objectPath), file.fileName, file.fileType, [file.objectPath])
  }

  /**
   * `DeleteOrderFileAsync`: false, with nothing changed, when the order has
   * no live file with this id; otherwise the row is kept and stamped with
   * the deletion time.
   */
  function DeleteOrderFile(store: Store, orderId: string, fileId: int, now: int): (r: (bool, Store))
    ensures !r.0 <==> forall i :: 0 <= i < |store.files| ==>
                        !(store.files[i].orderId == orderId && store.files[i].fileId == fileId && store.files[i].deletedAt.None?)
    ensures !r.0 ==> r.1 == store
    ensures r.0 ==>
              var i := FindLiveFile(store.files, orderId, fileId).value;
              && r.1 == store.(files := store.files[i := store.files[i].(deletedAt := Some(now))])
  {
    match FindLiveFile(store.files, orderId, fileId)
    case None => (false, store)
    case Some(i) => (true, store.(files := store.files[i := store.files[i].(deletedAt := Some(now))]))
  }

  /** Uploading numbers the new row after the existing ones and points it at an existing order. */
  lemma UploadPreservesValidStore(store: Store, orderId: string, request: UploadOrderFileRequest, fileName: string,
                                  uploadedBy: string, now: int, upload: UploadCall -> Result<UploadFileResult, Exception>)
    requires ValidStore(store) && FileIdsAreRowNumbers(store.files)
    ensures var s := UploadOrderFile(store, orderId, request, fileName, uploadedBy, now, upload).store;
            ValidStore(s) && FileIdsAreRowNumbers(s.files)
  {
  }

  /** A soft delete changes only the deletion time of one row, so the store stays valid. */
  lemma DeletePreservesValidStore(store: Store, orderId: string, fileId: int, now: int)
    requires ValidStore(store) && FileIdsAreRowNumbers(store.files)
    ensures var s := DeleteOrderFile(store, orderId, fileId, now).1;
            ValidStore(s) && FileIdsAreRowNumbers(s.files) && |s.files| == |store.files|
  {
    var s := DeleteOrderFile(store, orderId, fileId, now).1;
    assert forall i :: 0 <= i < |s.files| ==>
      s.files[i].orderId == store.files[i].orderId && s.files[i].fileId == store.files[i].fileId;
  }

  /** Under row-numbered ids, the only row that can carry a file id is the row it numbers. */
  lemma RowOfFileId(files: seq<OrderFile>, fileId: int, i: nat)
    requires FileIdsAreRowNumbers(files) && i < |files| && files[i].fileId == fileId
    ensures forall j :: 0 <= j < |files| && files[j].fileId == fileId ==> j == i
  {
  }

  /** After a delete, no row with that file id is live any more. */
  lemma NoLiveCopyAfterDelete(store: Store, orderId: string, fileId: int, now: int)
    requires FileIdsAreRowNumbers(store.files)
    requires DeleteOrderFile(store, orderId, fileId, now).0
    ensures var once := DeleteOrderFile(store, orderId, fileId, now).1;
            forall j :: 0 <= j < |once.files| && once.files[j].fileId == fileId ==> once.files[j].deletedAt.Some?
  {
    var i := FindLiveFile(store.files, orderId, fileId).value;
    RowOfFileId(store.files, fileId, i);
  }

  /** Deleting the same file a second time reports false and changes nothing. */
  lemma SecondDeleteFails(store: Store, orderId: string, fileId: int, now: int, later: int)
    requires FileIdsAreRowNumbers(store.files)
    requires DeleteOrderFile(store, orderId, fileId, now).0
    ensures var once := DeleteOrderFile(store, orderId, fileId, now).1;
            DeleteOrderFile(once, orderId, fileId, later) == (false, once)
  {
    NoLiveCopyAfterDelete(store, orderId, fileId, now);
  }

  /** Every listed file is a live row of the order. */
  lemma ListedIsLiveRow(store: Store, orderId: string, x: OrderFile)
    requires x in GetOrderFiles(store, orderId)
    ensures x.orderId == orderId && x.deletedAt.None?
    ensures exists j :: 0 <= j < |store.files| && store.files[j] == x
  {
    assert multiset(GetOrderFiles(store, orderId))[x] > 0;
    assert x in multiset(store.files);
  }

  /** A deleted file no longer appears in the order's listing. */
  lemma DeletedFileLeavesListing(store: Store, orderId: string, fileId: int, now: int)
    requires FileIdsAreRowNumbers(store.files)
    requires DeleteOrderFile(store, orderId, fileId, now).0
    ensures var listed := GetOrderFiles(DeleteOrderFile(store, orderId, fileId, now).1, orderId);
            forall k :: 0 <= k < |listed| ==> listed[k].fileId != fileId
  {
    var once := DeleteOrderFile(store, orderId, fileId, now).1;
    var listed := GetOrderFiles(once, orderId);
    NoLiveCopyAfterDelete(store, orderId, fileId, now);
    forall k | 0 <= k < |listed| ensures listed[k].fileId != fileId {
      ListedIsLiveRow(once, orderId, listed[k]);
    }
  }

  /** A file just uploaded is listed for its order. */
  lemma UploadedFileIsListed(store: Store, orderId: string, request: UploadOrderFileRequest,
                             fileName: string, uploadedBy: string, now: int,
                             upload: UploadCall -> Result<UploadFileResult, Exception>)
    requires UploadOrderFile(store, orderId, request, fileName, uploadedBy, now, upload).result.Ok?
    ensures var up := UploadOrderFile(store, orderId, request, fileName, uploadedBy, now, upload);
            up.result.value in GetOrderFiles(up.store, orderId)
  {
    var up := UploadOrderFile(store, orderId, request, fileName, uploadedBy, now, upload);
    var file := up.result.value;
    assert up.store.files[|store.files|] == file;
    assert multiset(GetOrderFiles(up.store, orderId))[file] == multiset(up.store.files)[file];
  }

  /** A file just uploaded can be downloaded under its id, from the object path the service reported. */
  lemma UploadedFileIsDownloadable(store: Store, orderId: string, request: UploadOrderFileRequest,
                                   fileName: string, uploadedBy: string, now: int,
                                   upload: UploadCall -> Result<UploadFileResult, Exception>,
                                   download: string -> Option<seq<byte>>)
    requires FileIdsAreRowNumbers(store.files)
    requires UploadOrderFile(store, orderId, request, fileName, uploadedBy, now, upload).result.Ok?
    ensures var up := UploadOrderFile(store, orderId, request, fileName, uploadedBy, now, upload);
            var file := up.result.value;
            DownloadOrderFile(up.store, orderId, file.fileId, download)
              == DownloadOutcome(download(file.objectPath), fileName, file.fileType, [file.objectPath])
  {
    var up := UploadOrderFile(store, orderId, request, fileName, uploadedBy, now, upload);
    var file := up.result.value;
    assert up.store.files[|store.files|] == file;
    RowOfFileId(up.store.files, file.fileId, |store.files|);
  }
}
