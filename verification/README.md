# Order lifecycle of the Maliev order service

A Dafny model of the order-lifecycle core of `Maliev.OrderService.Api`, with
proofs about it. The store is one immutable value holding four tables in
insertion order: orders, the append-only status log, file records and notes.
Every service call and every endpoint is a pure function from a store and a
request to a result and a new store. The covered parts are:

- **The order engine** (`OrderManagementService`):
  - it generates ids of the form `ORD-<year>-NNNNN`;
  - a create writes the order and its first "New" status, in a transaction of its own unless one is already open;
  - an update is guarded by optimistic concurrency: the order must exist, the version must be base 64 (section 4 of RFC 4648), and the decoded bytes must equal the stored row version;
  - a cancel appends a "Cancelled" status;
  - the order list is paginated.
- **The status log** (`OrderStatusService`): the history oldest first and the current status as the latest entry. A status equal to the current one is refused.
- **File records** (`OrderFileService`): uploads behind an opaque upload service, soft deletes, an access level taken from the order's confidentiality, and the listing of live files.
- **Notes** (`OrderNoteService`): adding a note and listing notes newest first.
- **The material, colour and finish name cache** (`MaterialServiceClient`): cache-aside with a 24-hour absolute expiry. Failures are never cached.
- **The five request validators.** Each is a function returning the list of failed rules, together with a predicate saying when that list is empty.
- **The endpoints of `OrdersController`, `OrderFilesController` and `BatchOrdersController`.** Their outcomes are turned into HTTP responses, and `ExceptionHandlingMiddleware` turns an escaped exception into a JSON error envelope.
- **Batches.** A batch runs inside one transaction, modelled as a snapshot of the store: a rollback hands back the store the batch started from.

Parameters stand for everything outside the core:
- the clock: the instant `now` and its calendar year;
- AutoMapper's create mapping and update patch (`Mapper`);
- the row version the database issues on update (`regenerate`);
- the upload and download services;
- the material service (`fetch`).

A controller's result is `Ok(response)` when it answered itself, and `Err(e)` when the exception `e` escaped to the middleware.

Some behaviours the model proves as the code has them:
- A malformed version and an unknown order raise the same exception type, so the single-order update answers 404 for both.
- A stale version is 409 on the single-order update, but 400 in a batch.
- A batch update builds its requests from the version and the assignee only.
- Order numbering stalls after 99999. `"ORD-2025-100000"` sorts below `"ORD-2025-99999"` under ordinal comparison, so the generator proposes `ORD-2025-100000` again once that id exists (`OrderIds.NumberingStallsAfter99999`). A single create then fails at `SaveChanges` on the duplicate key. In a batch, the context still tracks the order the previous item created, so `Add` refuses it with the change tracker's `InvalidOperationException`, and the batch answers 500 with that message (`BatchOrders.BatchStallIsTrackingConflict`).

The written design of the service differs from its code in several places; the model follows the code:
- The design gives a malformed version its own error kind, answered 400, distinct from a stale version. In the code, a malformed version raises the same exception type as an unknown order, and is answered 404.
- The design says an update applies only the non-null fields of the patch. In the code, the patch is an AutoMapper mapping whose configuration is not part of this model, so it stays an uninterpreted function.
- The design says a failed batch always names the failing item. In the code, only the validation phase reports an index; a failure inside the batch update or create transaction reports the exception's message only.
- The design has a batch update carry a patch per item. In the code, an item carries an order id, a version and an assignee.
- The design breaks ties between status timestamps with a surrogate key. In the code, the order is by timestamp alone, so the model promises only some latest entry.
- The design says a failed name lookup returns the error. In the code, an HTTP failure is caught and the lookup yields no name.

## Model

| member | source | states |
|---|---|---|
| Base64.DecodeEncode | Maliev.OrderService.Api/Services/Business/OrderManagementService.cs:142 | decoding the base 64 text of any byte sequence gives that sequence back |
| Base64.DecodableText | Maliev.OrderService.Api/Services/Business/OrderManagementService.cs:142-147 | every text the decoder accepts is whole groups of four alphabet characters, with padding only in the last two places and then ending the text |
| Base64.EncodeLength | Maliev.OrderService.Api/Services/Business/OrderManagementService.cs:142 | the text is four symbols per started triple of bytes, so only the empty sequence encodes to the empty text |
| Base64.RejectsForeignCharacter | Maliev.OrderService.Api/Services/Business/OrderManagementService.cs:142-147 | a character outside the alphabet makes the decoding fail |
| Base64.RejectsShortGroup | Maliev.OrderService.Api/Services/Business/OrderManagementService.cs:142-147 | a text whose length is not a multiple of four is refused |
| Base64.RejectsInnerPadding | Maliev.OrderService.Api/Services/Business/OrderManagementService.cs:142-147 | padding inside a group is refused |
| Base64.ZeroVersionText | Maliev.OrderService.Data/Migrations/20251004130037_SetVersionDefaultValue.cs:19 | the base 64 text of the default version, eight zero bytes, is `AAAAAAAAAAA=` |
| Decimal.Wrap32 | Maliev.OrderService.Api/Services/Business/OrderManagementService.cs:202 | the result is in the Int32 range, congruent to the input modulo 2^32, and equal to it when the input is in range |
| Decimal.ParseInt32 | Maliev.OrderService.Api/Services/Business/OrderManagementService.cs:201 | a parsed number lies in the Int32 range, and every failure is a format or an overflow exception |
| Decimal.ParseDigits | Maliev.OrderService.Api/Services/Business/OrderManagementService.cs:201 | a bare string of one to nine ASCII digits parses to the number it denotes |
| Decimal.ParseRejectsLetter | Maliev.OrderService.Api/Services/Business/OrderManagementService.cs:201 | a text starting with a letter raises a format exception |
| Decimal.ParseIntToString | Maliev.OrderService.Api/Services/Business/OrderManagementService.cs:201 | parsing the decimal text of any Int32 gives that number back |
| Decimal.PadDigits | Maliev.OrderService.Api/Services/Business/OrderManagementService.cs:202 | the digits denote the number and are padded with zeros to at least the width |
| Decimal.FormatD5Digits | Maliev.OrderService.Api/Services/Business/OrderManagementService.cs:202 | `D5`: a non-negative number as at least five digits denoting it; a negative one as a minus sign and at least five digits denoting its magnitude |
| Decimal.ParseFormatD5 | Maliev.OrderService.Api/Services/Business/OrderManagementService.cs:201-202 | `int.Parse` reads the `D5` text of every Int32 back as that number |
| Decimal.FormatD5FiveDigits | Maliev.OrderService.Api/Services/Business/OrderManagementService.cs:202 | below 100000 the `D5` text of a non-negative number is exactly five digits denoting it |
| Decimal.OrdinalLessIsNumericLess | Maliev.OrderService.Api/Services/Business/OrderManagementService.cs:193 | for digit strings of equal length, ordinal order is numeric order, in both directions |
| Decimal.IntToString | Maliev.OrderService.Api/Controllers/BatchOrdersController.cs:52 | the text is never empty and starts with a minus sign exactly for negative numbers |
| Decimal.IntToStringInjective | Maliev.OrderService.Api/Controllers/BatchOrdersController.cs:52 | distinct indices are written as distinct texts |
| Text.OrdinalLessTransitive | Maliev.OrderService.Api/Services/Business/OrderManagementService.cs:193 | ordinal comparison is transitive |
| Text.OrdinalTotal | Maliev.OrderService.Api/Services/Business/OrderManagementService.cs:193 | any two distinct strings are ordered one way or the other |
| Text.OrdinalLessCommonPrefix | Maliev.OrderService.Api/Services/Business/OrderManagementService.cs:189-193 | a common prefix, such as `ORD-<year>-`, does not change the comparison of the rest |
| Sequences.Filter | Maliev.OrderService.Api/Services/Business/OrderStatusService.cs:26 | `Where`: exactly the elements meeting the predicate, each as often as in the input |
| Sequences.SortBy | Maliev.OrderService.Api/Services/Business/OrderStatusService.cs:27 | `OrderBy`/`OrderByDescending`: a sorted permutation of the input |
| Sequences.Window | Maliev.OrderService.Api/Services/Business/OrderManagementService.cs:61-62 | `Skip(skip).Take(take)`: the elements from position `skip` on, at most `take` of them |
| Sequences.FirstFailing | Maliev.OrderService.Api/Controllers/BatchOrdersController.cs:45-57 | none exactly when every element passes; otherwise the first element that fails |
| Entities.FindOrderIndex | Maliev.OrderService.Api/Services/Business/OrderManagementService.cs:132 | `FindAsync`: none exactly when no row has the key; otherwise a row with that key |
| Entities.AddOrderKeepsValid | Maliev.OrderService.Api/Services/Business/OrderManagementService.cs:96-108 | an order under an unused key, with a status row of its own, keeps keys unique and foreign keys intact |
| Transactions.OwnedTransaction | Maliev.OrderService.Api/Services/Business/OrderManagementService.cs:78-127 | a transaction is begun and disposed only when none is ambient, committed exactly when it is owned and the call succeeded, never rolled back explicitly |
| OrderIds.OrdinalMax | Maliev.OrderService.Api/Services/Business/OrderManagementService.cs:191-194 | the first row of `OrderByDescending(OrderId)`: an id of the list that no other id exceeds |
| OrderIds.GenerateOrderId | Maliev.OrderService.Api/Services/Business/OrderManagementService.cs:186-203 | a generated id carries the year's prefix; a failure is a parse error and needs an id of the year |
| OrderIds.SuccessorReadsBack | Maliev.OrderService.Api/Services/Business/OrderManagementService.cs:202 | the successor id keeps the prefix, and its suffix reads back through `int.Parse` as the number plus one with 32-bit wrap-around; the suffix is at least five digits denoting that number when it is non-negative, and a minus sign and the digits of its magnitude otherwise; it is exactly five digits when the number is from -1 to 99998, and after `int.MaxValue` it is `-2147483648` |
| OrderIds.SerialSuccessor | Maliev.OrderService.Api/Services/Business/OrderManagementService.cs:202 | from 0 to 99998, the successor id is the prefix followed by exactly five digits denoting the next number |
| OrderIds.FirstOfYear | Maliev.OrderService.Api/Services/Business/OrderManagementService.cs:196-199 | with no id of the year, the result is `ORD-<year>-00001` |
| OrderIds.GenerateFromGreatest | Maliev.OrderService.Api/Services/Business/OrderManagementService.cs:201-202 | the result is the successor of the number parsed from the greatest id of the year, and its suffix reads back as that number plus one |
| OrderIds.ReadRow | Maliev.OrderService.Api/Services/Business/OrderManagementService.cs:191-194 | the row the generator's query loads, which the context then tracks: none exactly when the year has no id, otherwise the greatest id of the year |
| OrderIds.GeneratedIdIsNotTheReadRow | Maliev.OrderService.Api/Services/Business/OrderManagementService.cs:191-202 | the generated id is never the id of the row the query loaded |
| OrderIds.GenerateFromUnparsable | Maliev.OrderService.Api/Services/Business/OrderManagementService.cs:201 | when the greatest id of the year has no number, the parse exception is the result |
| OrderIds.UnparsableSuffixThrows | Maliev.OrderService.Api/Services/Business/OrderManagementService.cs:201 | `ORD-2025-ABCDE` makes the generator fail |
| OrderIds.GeneratedIdIsFresh | Maliev.OrderService.Api/Services/Business/OrderManagementService.cs:189-202 | while every id of the year has a five-digit number below 99999, the new id is unused, above every id of its year, and five digits long |
| OrderIds.OnlyYearIdsMatter | Maliev.OrderService.Api/Services/Business/OrderManagementService.cs:191-194 | the result depends only on the ids of the year, not on other years or row order |
| OrderIds.NumberingStallsAfter99999 | Maliev.OrderService.Api/Services/Business/OrderManagementService.cs:191-202 | with `-99999` and `-100000` stored, the generator proposes `-100000` again, an id already taken |
| OrderIds.StallFirstStep | Maliev.OrderService.Api/Services/Business/OrderManagementService.cs:191-202 | with only `-99999` stored, the generator reads that row and proposes `-100000` |
| OrderManagement.CreateOrder | Maliev.OrderService.Api/Services/Business/OrderManagementService.cs:75-128 | on success one order under a new key of the year, neither stored nor tracked, stamped with the actor and the time and the default version, plus one "New" status, and the context then tracks the read row and the new order; a generated id the context already tracks is refused at `Add` with the change tracker's `InvalidOperationException`, and a stored but untracked one at `SaveChanges` with a `DbUpdateException`; on failure nothing is stored; transaction calls as `OwnedTransaction` |
| OrderManagement.CreateSucceedsWhileNumbersLast | Maliev.OrderService.Api/Services/Business/OrderManagementService.cs:89-108 | while the year's numbers stay five-digit and below 99999 and the context tracks only stored orders, every create succeeds |
| OrderManagement.CreatePreservesValidStore | Maliev.OrderService.Api/Services/Business/OrderManagementService.cs:96-108 | a create keeps keys unique and every status row pointing at an order |
| OrderManagement.CurrentOrder | Maliev.OrderService.Api/Services/Business/OrderManagementService.cs:132-136 | none exactly for an unknown order; otherwise a stored row with that key |
| OrderManagement.UpdateOrder | Maliev.OrderService.Api/Services/Business/OrderManagementService.cs:130-161 | errors in the order unknown order, non-base 64 version, stale version, each leaving the store unchanged; success exactly when the decoded version equals the stored one; then only that row changes, patched and re-stamped, creator kept |
| OrderManagement.CurrentVersionAccepted | Maliev.OrderService.Api/Services/Business/OrderManagementService.cs:142-152 | the base 64 text of the stored version always passes the concurrency check |
| OrderManagement.UpdatePreservesValidStore | Maliev.OrderService.Api/Services/Business/OrderManagementService.cs:154-158 | an update keeps the store valid |
| OrderManagement.CancelOrder | Maliev.OrderService.Api/Services/Business/OrderManagementService.cs:163-184 | false and nothing changed exactly for an unknown order; otherwise one "Cancelled" status carrying the reason as internal note |
| OrderManagement.CancelPreservesValidStore | Maliev.OrderService.Api/Services/Business/OrderManagementService.cs:171-181 | a cancel keeps the store valid |
| OrderManagement.CancelTwiceAppendsTwice | Maliev.OrderService.Api/Services/Business/OrderManagementService.cs:163-184 | there is no duplicate check: two cancels append two "Cancelled" entries |
| OrderManagement.GetOrders | Maliev.OrderService.Api/Services/Business/OrderManagementService.cs:40-73 | the count is the number of the customer's orders, the page count its ceiling over the page size, and the items the window of that page of the newest-first listing |
| OrderManagement.GetOrdersIgnoresStatus | Maliev.OrderService.Api/Services/Business/OrderManagementService.cs:44-63 | the `status` argument has no effect |
| OrderManagement.EveryOrderOnItsPage | Maliev.OrderService.Api/Services/Business/OrderManagementService.cs:58-71 | every matching order appears at its position on the page that covers it, and that page is within the page count |
| Pagination.TotalPages | Maliev.OrderService.Api/Services/Business/OrderManagementService.cs:71 | the fewest pages of the given size that hold every item |
| Pagination.HasNextPageIff | Maliev.OrderService.Api/DTOs/Response/PaginatedResponse.cs:11 | there is a next page exactly when the items before the following page do not exhaust the count |
| Pagination.FifteenInPagesOfTen | Maliev.OrderService.Api/DTOs/Response/PaginatedResponse.cs:10-11 | fifteen orders in pages of ten: two pages, page 1 has a next page and no previous one |
| Pagination.NoOrdersNoPages | Maliev.OrderService.Api/DTOs/Response/PaginatedResponse.cs:10-11 | no orders: no pages, so page 1 has neither neighbour |
| Pagination.PageOfItem | Maliev.OrderService.Api/Services/Business/OrderManagementService.cs:61-62 | position `k` lies on page `k / pageSize + 1` |
| Pagination.PageWithinTotal | Maliev.OrderService.Api/Services/Business/OrderManagementService.cs:61-71 | a page holding an existing position is one of the counted pages |
| OrderStatuses.History | Maliev.OrderService.Api/Services/Business/OrderStatusService.cs:23-31 | exactly the order's entries, each as often as stored, oldest first |
| OrderStatuses.CurrentStatus | Maliev.OrderService.Api/Services/Business/OrderStatusService.cs:47-50 | none exactly when the order has no entry; otherwise an entry of the order no older than any other |
| OrderStatuses.CreateOrderStatus | Maliev.OrderService.Api/Services/Business/OrderStatusService.cs:33-67 | unknown order and a repeat of the current status are refused with nothing changed; any other status is appended as one entry with the request's notes, the actor and the time |
| OrderStatuses.LatestEntryBecomesCurrent | Maliev.OrderService.Api/Services/Business/OrderStatusService.cs:47-50 | an entry later than every earlier entry of its order becomes the current status |
| OrderStatuses.SameStatusTwiceRefused | Maliev.OrderService.Api/Services/Business/OrderStatusService.cs:53-56 | setting a status and then the same status later is refused the second time |
| OrderStatuses.EmptyLogAcceptsAnyStatus | Maliev.OrderService.Api/Services/Business/OrderStatusService.cs:53 | with an empty log, any status is accepted, listed or not |
| OrderStatuses.CreateStatusPreservesValidStore | Maliev.OrderService.Api/Services/Business/OrderStatusService.cs:58-64 | appending a status keeps the store valid |
| OrderStatuses.HistoryEndsAtCurrent | Maliev.OrderService.Api/Services/Business/OrderStatusService.cs:25-50 | the last entry of the history is as recent as the current status |
| OrderStatuses.CancelledIsCurrent | Maliev.OrderService.Api/Services/Business/OrderManagementService.cs:171-180 | after a cancel later than the whole log, the current status is "Cancelled" |
| OrderNotes.GetOrderNotes | Maliev.OrderService.Api/Services/Business/OrderNoteService.cs:23-31 | exactly the order's notes, each as often as stored, newest first |
| OrderNotes.CreateOrderNote | Maliev.OrderService.Api/Services/Business/OrderNoteService.cs:33-55 | success exactly for an existing order: one note with the request's type and text unchecked, the author and the time; otherwise nothing changes |
| OrderNotes.CreateNotePreservesValidStore | Maliev.OrderService.Api/Services/Business/OrderNoteService.cs:46-52 | adding a note keeps every note pointing at an order |
| OrderNotes.CreatedNoteIsListed | Maliev.OrderService.Api/Services/Business/OrderNoteService.cs:25-52 | the new note is listed once more for its order, and other orders' listings are unchanged |
| OrderFiles.GetOrderFiles | Maliev.OrderService.Api/Services/Business/OrderFileService.cs:30-38 | exactly the order's files that are not deleted, newest upload first |
| OrderFiles.UploadOrderFile | Maliev.OrderService.Api/Services/Business/OrderFileService.cs:40-74 | unknown order: refused before any upload call; otherwise one call for `orders/{orderId}/files/{fileName}`; its failure propagates; success adds one record with the service's path, size and type |
| OrderFiles.UploadAccessLevel | Maliev.OrderService.Api/Services/Business/OrderFileService.cs:66 | "Confidential" exactly when the order is confidential, "Internal" otherwise |
| OrderFiles.FindLiveFile | Maliev.OrderService.Api/Services/Business/OrderFileService.cs:81-82 | none exactly when the order has no live file with the id; otherwise such a row |
| OrderFiles.DownloadOrderFile | Maliev.OrderService.Api/Services/Business/OrderFileService.cs:76-91 | no live file: no stream and two empty strings, without a download call; otherwise the service's stream for the stored path, with the stored name and type |
| OrderFiles.DeleteOrderFile | Maliev.OrderService.Api/Services/Business/OrderFileService.cs:93-111 | false with nothing changed exactly when there is no live file; otherwise the row is kept and stamped as deleted |
| OrderFiles.UploadPreservesValidStore | Maliev.OrderService.Api/Services/Business/OrderFileService.cs:60-71 | an upload keeps the store valid and the file ids row numbers |
| OrderFiles.DeletePreservesValidStore | Maliev.OrderService.Api/Services/Business/OrderFileService.cs:103-105 | a soft delete keeps the store valid and the file ids row numbers |
| OrderFiles.SecondDeleteFails | Maliev.OrderService.Api/Services/Business/OrderFileService.cs:95-101 | a second delete of the same file reports false and changes nothing |
| OrderFiles.NoLiveCopyAfterDelete | Maliev.OrderService.Api/Services/Business/OrderFileService.cs:95-105 | after a delete no live row carries the file id |
| OrderFiles.ListedIsLiveRow | Maliev.OrderService.Api/Services/Business/OrderFileService.cs:32-35 | every listed file is a stored live row of the order |
| OrderFiles.DeletedFileLeavesListing | Maliev.OrderService.Api/Services/Business/OrderFileService.cs:30-105 | a deleted file no longer appears in the order's listing |
| OrderFiles.UploadedFileIsListed | Maliev.OrderService.Api/Services/Business/OrderFileService.cs:30-74 | a file just uploaded is listed for its order |
| OrderFiles.UploadedFileIsDownloadable | Maliev.OrderService.Api/Services/Business/OrderFileService.cs:40-91 | a file just uploaded is downloaded from the path the upload service reported |
| MaterialCache.GetName | Maliev.OrderService.Api/Services/External/MaterialServiceClient.cs:20-48 | a fresh entry is returned without a request; otherwise one request: a body is cached for 24 hours, and a null body or an HTTP failure gives no name and caches nothing; other exceptions escape |
| MaterialCache.KeysAreNamespaced | Maliev.OrderService.Api/Services/External/MaterialServiceClient.cs:22-82 | two keys are equal exactly when kind and id are equal |
| MaterialCache.KeysOfSeven | Maliev.OrderService.Api/Services/External/MaterialServiceClient.cs:22-82 | id 7 has the three keys `material_7`, `color_7` and `surface_7` |
| MaterialCache.LookupKeepsOtherEntries | Maliev.OrderService.Api/Services/External/MaterialServiceClient.cs:24-39 | a lookup changes no entry of another kind or id |
| MaterialCache.StoredNameServedForADay | Maliev.OrderService.Api/Services/External/MaterialServiceClient.cs:11-39 | a stored name is served without a request before 24 hours have passed, and requested again from then on |
| MaterialCache.FailureIsNotCached | Maliev.OrderService.Api/Services/External/MaterialServiceClient.cs:35-47 | after a failure or a null body the cache is unchanged and the next lookup asks again |
| MaterialCache.HttpFailureYieldsNoName | Maliev.OrderService.Api/Services/External/MaterialServiceClient.cs:43-47 | an HTTP failure yields no name, not an exception |
| Validators.CreateOrderErrors | Maliev.OrderService.Api/Validators/CreateOrderRequestValidator.cs:8-61 | no failure exactly when the request meets every create rule; the customer-id, customer-type and delivery-date failures each appear exactly when their rule is broken |
| Validators.CustomerRules | Maliev.OrderService.Api/Validators/CreateOrderRequestValidator.cs:10-20 | customer id non-blank and at most 50, customer type exactly "Customer" or "Employee", service category positive |
| Validators.CatalogueRules | Maliev.OrderService.Api/Validators/CreateOrderRequestValidator.cs:22-40 | process type, quantity, material and colour positive when given, requirements at most 5000 |
| Validators.ScheduleRules | Maliev.OrderService.Api/Validators/CreateOrderRequestValidator.cs:42-60 | finish and lead time positive when given, delivery date strictly after the validator's instant, assignee and department at most 50 |
| Validators.OptionalCreateRules | Maliev.OrderService.Api/Validators/CreateOrderRequestValidator.cs:22-60 | every optional rule holds, each applied only when its member is given |
| Validators.MinimalCreateRequestIsValid | Maliev.OrderService.Api/Validators/CreateOrderRequestValidator.cs:10-60 | a request with only a valid customer, type and category passes |
| Validators.UpdateOrderErrors | Maliev.OrderService.Api/Validators/UpdateOrderRequestValidator.cs:8-56 | no failure exactly when the request meets every update rule; the currency and manufactured-quantity failures appear exactly when broken |
| Validators.UpdateQuantityRules | Maliev.OrderService.Api/Validators/UpdateOrderRequestValidator.cs:10-31 | version non-blank, requirements at most 5000, ordered quantity positive, manufactured quantity non-negative, material and colour positive |
| Validators.UpdateOtherRules | Maliev.OrderService.Api/Validators/UpdateOrderRequestValidator.cs:33-55 | finish, lead time and quoted amount positive, a non-empty currency exactly three characters, assignee and department at most 50 |
| Validators.MalformedVersionPassesValidation | Maliev.OrderService.Api/Validators/UpdateOrderRequestValidator.cs:10-11 | a version that is not base 64 passes the validator |
| Validators.ZeroManufacturedAndAnyThreeLetters | Maliev.OrderService.Api/Validators/UpdateOrderRequestValidator.cs:21-47 | a manufactured quantity of zero and any three characters as currency are accepted |
| Validators.CreateOrderStatusErrors | Maliev.OrderService.Api/Validators/CreateOrderStatusRequestValidator.cs:8-28 | no failure exactly for one of the sixteen statuses with notes of at most 2000 each; "not listed" exactly when the status is not one of them |
| Validators.EmptyStatusRejected | Maliev.OrderService.Api/Validators/CreateOrderStatusRequestValidator.cs:16-19 | an empty status fails both "required" and "not listed" |
| Validators.LowerCaseStatusRejected | Maliev.OrderService.Api/Validators/CreateOrderStatusRequestValidator.cs:18 | membership is case-sensitive: "new" fails only as not listed |
| Validators.CreateOrderNoteErrors | Maliev.OrderService.Api/Validators/CreateOrderNoteRequestValidator.cs:8-19 | no failure exactly for type "customer" or "internal" and a non-blank text of at most 2000; "too long" exactly past 2000 |
| Validators.NoteTypeMessageText | Maliev.OrderService.Api/Validators/CreateOrderNoteRequestValidator.cs:14-15 | the type message lists "customer, internal" |
| Validators.EmptyNoteRejected | Maliev.OrderService.Api/Validators/CreateOrderNoteRequestValidator.cs:12-19 | an empty type and an empty text give exactly the three failures, in rule order |
| Validators.UploadOrderFileErrors | Maliev.OrderService.Api/Validators/UploadOrderFileRequestValidator.cs:8-27 | no failure exactly for a listed role and category and, when non-empty, listed design units; an empty role or category is reported as required |
| Validators.DesignUnitsOptional | Maliev.OrderService.Api/Validators/UploadOrderFileRequestValidator.cs:24-27 | absent or empty design units pass with a valid role and category |
| Http.HandleException | Maliev.OrderService.Api/Middleware/ExceptionHandlingMiddleware.cs:30-67 | 400, 409, 403, 404 exactly for the four named kinds, 500 for the rest; the body's status equals the response's and names the type; only 400 and 404 expose the exception's message |
| Http.MappedExactlyByTypeName | Maliev.OrderService.Api/Middleware/ExceptionHandlingMiddleware.cs:34-60 | for an exception whose `Other` type is distinct from the named kinds, it is mapped exactly when its type name is one of the four mapped names, so a 500 body never names a mapped type |
| Http.Invoke | Maliev.OrderService.Api/Middleware/ExceptionHandlingMiddleware.cs:18-28 | a controller's own response passes through; an escaped exception is handled |
| Http.InternalErrorsHideTheirMessage | Maliev.OrderService.Api/Middleware/ExceptionHandlingMiddleware.cs:40 | two unmapped exceptions of one type give the same response whatever their messages |
| Http.HandledStatusIsAnError | Maliev.OrderService.Api/Middleware/ExceptionHandlingMiddleware.cs:34-43 | every handled status is one of 400, 403, 404, 409, 500 |
| Http.StoreAndServiceFailuresAreInternal | Maliev.OrderService.Api/Middleware/ExceptionHandlingMiddleware.cs:40-63 | a refused write and a failed HTTP call are reported as 500 with the generic message |
| OrdersApi.CreateOrderEndpoint | Maliev.OrderService.Api/Controllers/OrdersController.cs:68-81 | an invalid request is answered 400 with its failures and nothing stored; a valid one gets 201 with the order and the service's store when the create succeeds, and otherwise lets the service's exception escape with the store unchanged; an escaped exception is never one the middleware maps |
| OrdersApi.CreateFailureIsInternal | Maliev.OrderService.Api/Controllers/OrdersController.cs:68-81 | a valid request whose create fails in the service escapes to the middleware and reaches the client as 500, with nothing stored |
| OrdersApi.UpdateOrderEndpoint | Maliev.OrderService.Api/Controllers/OrdersController.cs:83-109 | 200 exactly when the request is valid and the service update succeeds; every other answer leaves the store unchanged |
| OrdersApi.UnknownOrderAndMalformedVersionAreNotFound | Maliev.OrderService.Api/Controllers/OrdersController.cs:101-104 | an unknown order and a non-base 64 version are both 404, told apart only by the message |
| OrdersApi.StaleVersionIsConflict | Maliev.OrderService.Api/Controllers/OrdersController.cs:105-108 | a stale version is 409 with the fixed message, nothing changed |
| OrdersApi.CurrentVersionIsUpdated | Maliev.OrderService.Api/Controllers/OrdersController.cs:95-99 | a valid request carrying the stored version's text is answered 200 |
| OrdersApi.InvalidUpdateIgnoresStore | Maliev.OrderService.Api/Controllers/OrdersController.cs:89-93 | an invalid request is answered the same for every store |
| OrdersApi.CancelOrderEndpoint | Maliev.OrderService.Api/Controllers/OrdersController.cs:111-123 | 404 naming the order exactly for an unknown order; otherwise 200 and the service's cancel without a reason |
| OrdersApi.CancelOrderWithReasonEndpoint | Maliev.OrderService.Api/Controllers/OrdersController.cs:125-140 | the same outcomes, with the reason forwarded and echoed |
| OrdersApi.CancelEndpointsDifferOnlyInReason | Maliev.OrderService.Api/Controllers/OrdersController.cs:111-140 | both cancels agree on status and rows except the new entry's internal note |
| OrderFilesApi.UploadOrderFileEndpoint | Maliev.OrderService.Api/Controllers/OrderFilesController.cs:32-73 | failures of the validator, then an empty file, then one over 100 MiB, are each 400 without a service call; otherwise the service's answer |
| OrderFilesApi.ServiceAnswer | Maliev.OrderService.Api/Controllers/OrderFilesController.cs:55-72 | the record is 201, an invalid operation 400 with its message, any other exception escapes |
| OrderFilesApi.UploadAnswers | Maliev.OrderService.Api/Controllers/OrderFilesController.cs:39-72 | 201 exactly for an admitted upload whose service call succeeds; otherwise the store is unchanged; an unknown order is 400 without a call |
| OrderFilesApi.SizeLimitIsInclusive | Maliev.OrderService.Api/Controllers/OrderFilesController.cs:50-53 | exactly 104,857,600 bytes reach the service, one byte more is refused |
| OrderFilesApi.DownloadOrderFileEndpoint | Maliev.OrderService.Api/Controllers/OrderFilesController.cs:75-89 | 404 exactly when there is no live file or no stream; otherwise the content under the stored type and name |
| OrderFilesApi.DeleteOrderFileEndpoint | Maliev.OrderService.Api/Controllers/OrderFilesController.cs:91-105 | 404 with nothing changed exactly when the service reports false; otherwise 200 and the soft delete |
| OrderFilesApi.SecondDeleteIsNotFound | Maliev.OrderService.Api/Controllers/OrderFilesController.cs:97-102 | deleting the same file again is 404 and changes nothing |
| OrderFilesApi.DeletedFileIsNotDownloadable | Maliev.OrderService.Api/Controllers/OrderFilesController.cs:75-105 | a deleted file's download is 404 |
| BatchOrders.FirstInvalidCreate | Maliev.OrderService.Api/Controllers/BatchOrdersController.cs:45-57 | none exactly when every request is valid; otherwise the first invalid index |
| BatchOrders.CreateInBatch | Maliev.OrderService.Api/Controllers/BatchOrdersController.cs:64-68 | the single create as the batch runs it (ambient transaction, actor "system", the batch's tracked keys) adds one order and one "New" entry, or fails with nothing changed |
| BatchOrders.CreateAll | Maliev.OrderService.Api/Controllers/BatchOrdersController.cs:66-70 | each item runs with the keys the earlier items left tracked; on success one order per request appended in order, a status row each, files and notes untouched; a failure is a parse, save or tracking exception |
| BatchOrders.CreatedOrdersFollowRequests | Maliev.OrderService.Api/Controllers/BatchOrdersController.cs:64-70 | the i-th order is mapped from the i-th request and stamped with the batch's actor and time |
| BatchOrders.CreatedOrdersStartNew | Maliev.OrderService.Api/Controllers/BatchOrdersController.cs:66-70 | the log keeps its rows and gains one "New" entry per created order, in order |
| BatchOrders.CreateAllPreservesValidStore | Maliev.OrderService.Api/Controllers/BatchOrdersController.cs:66-70 | the loop keeps the store valid |
| BatchOrders.CreateBatch | Maliev.OrderService.Api/Controllers/BatchOrdersController.cs:39-81 | an invalid item exactly when some request is invalid: 400 with the first index, no transaction, store unchanged; otherwise the transaction's answer |
| BatchOrders.CreateTransaction | Maliev.OrderService.Api/Controllers/BatchOrdersController.cs:59-80 | the loop starts with nothing tracked; all created: 201 with the orders and a commit; any exception: rollback to the original store and 500 with its message |
| BatchOrders.BatchStallIsTrackingConflict | Maliev.OrderService.Api/Controllers/BatchOrdersController.cs:59-80 | with only `ORD-2025-99999` stored, a batch of two creates is rolled back and answered 500 with the change tracker's message |
| BatchOrders.SecondCreateIsTracked | Maliev.OrderService.Api/Services/Business/OrderManagementService.cs:96 | when the second create of a batch proposes the id the first one took, the batch fails with the tracking conflict and keeps the original store |
| BatchOrders.TrackedCreateFails | Maliev.OrderService.Api/Services/Business/OrderManagementService.cs:96 | a create whose generated id is already tracked fails the rest of the batch with the tracking conflict |
| BatchOrders.CreateTakesFreshId | Maliev.OrderService.Api/Services/Business/OrderManagementService.cs:89-108 | a create whose generated id is neither tracked nor stored succeeds under that id, appends it to the keys and tracks it |
| BatchOrders.CreateBatchIsAllOrNothing | Maliev.OrderService.Api/Controllers/BatchOrdersController.cs:59-80 | 201 commits one order per request; any other answer leaves the store as it was and commits nothing |
| BatchOrders.AsUpdate | Maliev.OrderService.Api/Controllers/BatchOrdersController.cs:91-95 | the request keeps the item's version and assignee and leaves every other member unset |
| BatchOrders.FirstInvalidUpdate | Maliev.OrderService.Api/Controllers/BatchOrdersController.cs:89-107 | none exactly when every item's request is valid; otherwise the first invalid index |
| BatchOrders.UpdateInBatch | Maliev.OrderService.Api/Controllers/BatchOrdersController.cs:116-125 | the single update as the batch runs it changes one existing order without re-keying, or fails with an invalid operation or a conflict and nothing changed |
| BatchOrders.UpdateAll | Maliev.OrderService.Api/Controllers/BatchOrdersController.cs:116-126 | on success one result per item, no order added, removed or re-keyed, other tables untouched; failures are the two service kinds |
| BatchOrders.UpdatedOrdersFollowItems | Maliev.OrderService.Api/Controllers/BatchOrdersController.cs:116-126 | the i-th result is the existing order the i-th item names, re-stamped by the batch |
| BatchOrders.UpdateFailure | Maliev.OrderService.Api/Controllers/BatchOrdersController.cs:131-148 | an invalid operation and a conflict are 400, the conflict with its own message; anything else is 500; the body carries the exception's message |
| BatchOrders.UpdateBatch | Maliev.OrderService.Api/Controllers/BatchOrdersController.cs:83-149 | the first invalid item: 400 with its index, no transaction; otherwise 200 with the orders and a commit, or rollback to the original store and the failure's answer |
| BatchOrders.UpdateBatchFailuresAreBadRequests | Maliev.OrderService.Api/Controllers/BatchOrdersController.cs:131-142 | a batch update answers 200 or 400 only, and a 400 commits nothing and leaves the store unchanged |
| BatchOrders.StaleVersionInBatchIsBadRequest | Maliev.OrderService.Api/Controllers/BatchOrdersController.cs:137-142 | a stale version in a batch is 400 with the batch's conflict message and a rollback, where the single update answers 409 |
| BatchOrders.BatchUpdateForwardsVersionAndAssignee | Maliev.OrderService.Api/Controllers/BatchOrdersController.cs:118-124 | the updated order is the patch of a request holding only the item's version and assignee |
| BatchOrders.CancelEntriesAreOnePerId | Maliev.OrderService.Api/Controllers/BatchOrdersController.cs:168-177 | one "Cancelled" entry per id, in order, numbered after the existing rows |
| BatchOrders.CancelAll | Maliev.OrderService.Api/Controllers/BatchOrdersController.cs:168-177 | stops exactly when some id is unknown, at the first such id; otherwise one "Cancelled" entry per id; orders, files and notes untouched |
| BatchOrders.CancelBatch | Maliev.OrderService.Api/Controllers/BatchOrdersController.cs:151-188 | a missing or empty list is 400 without a transaction; an unknown id is 404 naming the first one, rolled back; otherwise 200 with the count and a commit |
| BatchOrders.CancelBatchAppendsOnePerId | Maliev.OrderService.Api/Controllers/BatchOrdersController.cs:168-180 | a committed batch cancel appends exactly one "Cancelled" entry per id, by the batch's actor, and nothing else |

## Left out

- The clock is a parameter: the instant of a call and its calendar year. Converting ticks to a calendar year is not modelled, and a whole batch shares one instant, where the code reads `DateTime.UtcNow` per item and per column.
- AutoMapper: the create mapping and the update patch are uninterpreted functions on the business columns. Their configuration is not part of this model, so no "only given members" semantics is assumed.
- OrderStatuses.CreateOrderStatus, OrderNotes.CreateOrderNote, OrderFiles.UploadOrderFile: the new status, note and file rows come from `_mapper.Map` of the request, and no mapping profile configures those maps. The model copies the request's members onto the row by name, which is AutoMapper's convention for same-named members; any other configuration of these maps is not part of this model.
- The new row version after an update comes from the database: it is the parameter `regenerate`, and the model does not assume that it differs from the old one.
- Database failures on `SaveChanges` (connection loss, constraint violations other than a duplicate key, concurrency raised by the database) are not modelled. So the batch cancel's `catch` (500) and the batch update's 500 branch cannot be reached in the model.
- The context is modelled as the list of order keys it tracks. The single-order endpoint starts with none; a batch starts with none and passes on what each create read and added. A generated key that is stored but not tracked fails at `SaveChanges` with a `DbUpdateException`, and a tracked one fails at `Add` with an `InvalidOperationException`. Status rows, the other tables and sensitive-data logging (the tracker's message is the one without key values) are not tracked in the model. Identity columns are numbered by row count, so the gaps that rolled-back transactions leave in identity sequences are not modelled.
- Strings are compared code point by code point. Database collation and UTF-16 code units (string lengths count code points here) are not modelled.
- `int.Parse` is modelled for the invariant culture with `NumberStyles.Integer` only. Other cultures and styles are not modelled.
- Base 64 decoding follows section 4 of RFC 4648 with required padding. .NET's tolerance of embedded white space is not modelled.
- Ties in `Timestamp`, `CreatedAt` or `UploadedAt` are ordered by the database in an unspecified way. `OrderStatuses.CurrentStatus` promises only some latest entry, but `OrderManagement.GetOrders` and the listings fix one order for ties.
- OrderManagement.GetOrders: requires a page and a page size of at least 1, which the controller does not check. Below that, the query sends a negative offset or limit to the database, or `Math.Ceiling` divides by zero in floating point; both are outside this model. Within the range, the Int32 overflow of `(page - 1) * pageSize` is not modelled, and the ceiling is computed exactly in integers.
- The material cache never evicts: an expired entry stays in the map but is no longer served. Memory pressure, sliding expiry and concurrent lookups are not modelled.
- The create validator reads `DateTime.UtcNow` when it is constructed. That instant is the parameter `validatedAt`, and it is independent of the clock of the create.
- A validation failure carries only which rule failed (with its message). The other members of FluentValidation's `ValidationFailure` are not modelled.
- File contents are abstract. The upload service's result is a parameter, and a download yields bytes or nothing. The fire-and-forget delete at the upload service after a soft delete is concurrent I/O and is left out.
- Exceptions are a closed set of kinds plus `Other(typeName, message)`. Subclassing is not modelled: `Other` stands for a type derived from none of the named kinds, which `Exception.IsDistinct` states (no `Other` carries a named kind's type name). The datatype itself admits such an `Other`; `Http.MappedExactlyByTypeName` gives the middleware's behaviour under `IsDistinct`.
- HTTP plumbing (routing, model binding, authorization, rate limiting, the Polly retry policy, logging) is left out. Null request arrays, which model binding rejects before the batch create or update runs, are left out too. The batch cancel's null list is modelled as `None`.
- BatchOrders.AsUpdate: the batch binds the controller's own three-member item class. The longer `DTOs/Request/BatchUpdateOrderRequest.cs` class of the same name is shadowed by it and is not modelled.
- `OrderStatusController`, `OrderNotesController` and `GetOrderById` only validate and call the services modelled here, so they are left out.
- The older CRUD stack (`OrderServiceService`, `OrderContext`, and the categories, file formats, processes and files controllers) is not part of this model: it targets order members that the current entity does not have, and its context is not registered. The persistence configuration is not part of this model either. Only the eight zero-byte version default is taken from the migrations.
- OrderIds.GeneratedIdIsFresh: holds only while the year's numbers stay five-digit and below 99999. Past that point the generator stalls, as `OrderIds.NumberingStallsAfter99999` shows, and the model keeps the code's behaviour.
