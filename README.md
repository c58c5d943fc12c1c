# Email recovery engine, modelled in Dafny

Email Recovery is an Outlook add-in that copies deleted mail out of the
"Recoverable Items" store into a new folder of the mailbox. This project models its
engine and proves properties of the model:

- the **item copier**, a small state machine. Each pass discovers one page of the
  source folder and queues the ids worth recovering. It then copies one batch from the
  front of the queue. A failed batch is split in two, or its single id is recorded as
  bad, and set aside.
- the **folder hierarchy**. It pages through a mailbox's folder tree, keeps every folder
  it meets, and indexes them by short folder id and by well-known name. Its two path
  tests decide which items are recovered.
- the **EWS response parser**, over an already-parsed XML element tree. It covers the
  exactly-one lookup, the item-id list, the FindItem / CreateFolder / CopyItem /
  FindFolder responses and the short folder id. The short id is a byte slice of a
  base64 entry id. The codec uses the RFC 4648 section 4 alphabet, with atob's
  forgiving decoder: white space is stripped, padding may be missing and trailing bits
  are discarded.
- the **REST service helpers**: the base URL and the REST URL derived from the token's
  audience, the mapping of OData rows to responses with the "fewer rows than requested"
  last-page rule, the FindFolder guard, and the per-item copy loop that swallows
  failures.
- the **progress and recovery slices** of the Redux store: the two progress reducers,
  the five recovery setters, folder creation, and the driver that runs the copier.

Each network call is replaced by its outcome, passed in as a value. A service is a
record of three functions (`ExchangeTypes.ExchangeService`). A mailbox for the folder
walk is a map from parent folder id to its children. `$.parseXML` is a parameter
`parse: string -> Result<Document>`. JavaScript `null`/`undefined` fields are `Option`s.
A thrown exception is the `Err` case of a `Result`. A JavaScript number read by
`parseInt` is `Number = Num(int) | NaN`.

Files: `common.dfy` (Result, JavaScript string helpers), `base64.dfy`, `numbers.dfy`
(`parseInt`, decimal text), `xml.dfy` (the element tree), `exchange_types.dfy` (the
response records of `IExchangeService.ts` and `IFolder.ts`), `ews_parser.dfy`,
`rest_service.dfy`, `folder_hierarchy.dfy`, `item_copier.dfy`, `progress_slice.dfy`,
`recovery_slice.dfy`.

Behaviour of the code that the model reproduces rather than corrects:

- `discoveryError` is initialised to `""` and never reassigned, so `!= null` always
  holds. `process` therefore returns true as soon as the queue is empty after
  discovery, even when the folder has not been read to its end. Its second `return
  false` cannot be reached.
- `badBatches` and `badItems` are only appended to. Split halves are never retried.
- The EWS FindFolder parser never sets `childFolderCount`, so under EWS the hierarchy
  walk never goes below the root's children (`Hierarchy.ShallowWithoutCounts`).
- The walk's `for…of` runs over the array it appends to, and it visits the folders it
  has appended. From the third level down a folder is listed more than once, and the
  number of copies grows with depth: root→A→B→C→D lists C twice and D five times
  (`Hierarchy.NestedFoldersRepeat`).
- `performRecoveryAsync` builds its `FolderHierarchy` from the stored folders without
  calling `initialize`, so both indexes are empty. Discovery then keeps every item that
  is not a document (`Copier.ItemCopier.DiscoverUnindexed`).
- The error thunks built by `reportError` in `performRecoveryAsync` are returned or
  discarded, never dispatched. A failed folder creation leaves the progress at
  "Creating target folder".

The recovery slice always talks to `EwsService.Default`, never to the REST service. A
property of the REST service on its own: the response of its `createFolderAsync` has no
response class, so it could never pass the slice's "Success" test
(`RecoverySlice.RestTargetFolderRejected`).

Behaviour a reader might expect but the code does not have:

- `entryIdToShortFolderId` has no length check. A decodable entry id of any length
  gives the base64 of its bytes 22 to 44, or of fewer bytes when the id is shorter. Only
  text that is not base64 fails (the `atob` error).
- The short-id index keeps, for each key, the last folder with that key. Duplicated
  folders and equal short ids are possible.
- A path test on an indexed folder throws a `TypeError` when the `msgfolderroot` or
  `contacts` folder is not indexed.

## Model

| member | source | states |
|---|---|---|
| Base64.RoundTrip | packages/emailrecovery-app/src/services/EwsService.ts:700-706 | decoding the encoding of any byte sequence gives that sequence back (`atob(btoa(b)) == b`) |
| Base64.Encode | packages/emailrecovery-app/src/services/EwsService.ts:705 | the encoding of n bytes is 4·⌈n/3⌉ characters long |
| Base64.DecodeIgnoresWhitespace | packages/emailrecovery-app/src/services/EwsService.ts:701 | inserting ASCII white space anywhere in the text never changes what `atob` gives, a result or the error |
| Base64.DecodeRejectsForeign | packages/emailrecovery-app/src/services/EwsService.ts:701 | a text holding a character that is not in the alphabet, not `=` and not white space makes `atob` throw |
| Numbers.ParseIntDecimal | packages/emailrecovery-app/src/services/EwsService.ts:413-418 | `parseInt` of the decimal text of n is n |
| Numbers.ParseInt | packages/emailrecovery-app/src/services/EwsService.ts:413-418 | a text without a decimal digit is NaN |
| Numbers.ParseIntSkipsWhitespace | packages/emailrecovery-app/src/services/EwsService.ts:413-418 | leading JavaScript white space does not change the result |
| Numbers.ParseIntPrefix | packages/emailrecovery-app/src/services/EwsService.ts:413-418 | the decimal text of n followed by nothing or by a non-digit reads as n, and the rest is ignored; for n = 0 the next character must not be `x` or `X`, which would make `0x` |
| Numbers.ParseIntNegative | packages/emailrecovery-app/src/services/EwsService.ts:413-418 | `-` followed by the decimal text of n reads as -n |
| Xml.FilterByNameExactly | packages/emailrecovery-app/src/services/EwsService.ts:684 | the matches are exactly the elements with that namespace and local name, and nothing else |
| Xml.DescendantsAppend | packages/emailrecovery-app/src/services/EwsService.ts:684 | searching two runs of siblings finds the first run's descendants, then the second's |
| Xml.ElementChildrenAround | packages/emailrecovery-app/src/services/EwsService.ts:429-431 | the element children are those before an element child, that child, then those after it (text nodes skipped) |
| EwsParser.FindChildElementSingle | packages/emailrecovery-app/src/services/EwsService.ts:679-698 | succeeds exactly when one descendant matches, and returns it; otherwise the "Failed to find" or the "Found multiple" exception, by count |
| EwsParser.FindChildElementSingleUnique | packages/emailrecovery-app/src/services/EwsService.ts:679-698 | a successful lookup returns every matching descendant, i.e. the one there is |
| EwsParser.CreateItemIdsString | packages/emailrecovery-app/src/services/EwsService.ts:378-385 | the loop produces one `<t:ItemId Id="…" />` per id, in order |
| EwsParser.ItemIdsString | packages/emailrecovery-app/src/services/EwsService.ts:378-385 | the list is empty text exactly for no ids |
| EwsParser.ItemIdsStringAppend | packages/emailrecovery-app/src/services/EwsService.ts:378-385 | the list of a concatenation is the concatenation of the lists |
| EwsParser.ItemIdsRoundTrip | packages/emailrecovery-app/src/services/EwsService.ts:378-385 | for ids without a double quote, reading the ids back from the list gives the ids |
| EwsParser.ItemIdsNotEscaped | packages/emailrecovery-app/src/services/EwsService.ts:381 | ids are not escaped: an id holding `" /><t:ItemId Id="` serialises exactly like the two ids around it |
| EwsParser.EntryIdToShortFolderId | packages/emailrecovery-app/src/services/EwsService.ts:700-706 | fails exactly when the entry id is not base64 (`atob` error); a result is at most 32 characters and a multiple of 4 long |
| EwsParser.ShortIdOfEntryId | packages/emailrecovery-app/src/services/EwsService.ts:700-706 | for an id of at least 44 bytes the short id is the 32-character base64 of bytes 22 to 44 |
| EwsParser.ShortIdDependsOnSlice | packages/emailrecovery-app/src/services/EwsService.ts:704 | two ids with the same bytes 22 to 44 have the same short id |
| EwsParser.ShortIdOfShortEntryId | packages/emailrecovery-app/src/services/EwsService.ts:704 | an id of at most 22 bytes has the empty short id: there is no length check |
| EwsParser.LastValueIsLast | packages/emailrecovery-app/src/services/EwsService.ts:451-471 | the value kept for a tag is that of the last property with the tag |
| EwsParser.LastValueAbsent | packages/emailrecovery-app/src/services/EwsService.ts:451-471 | without a property of the tag the field keeps its default |
| EwsParser.PagingDefaults | packages/emailrecovery-app/src/services/EwsService.ts:413-418 | a missing paging offset or total reads as 0; a decimal offset reads as its value |
| EwsParser.ParseMessage | packages/emailrecovery-app/src/services/EwsService.ts:432-473 | one item element gives its type, its one `ItemId`'s `Id`, its item class text and the last `0x348a` property |
| EwsParser.ParseMessages | packages/emailrecovery-app/src/services/EwsService.ts:429-475 | one message per element child of `t:Items`, in order; the first failing item's exception otherwise |
| EwsParser.ParseFindItemResponse | packages/emailrecovery-app/src/services/EwsService.ts:391-478 | the response of a parsed document: class and code, paging attributes, messages; each missing or repeated element is an exception |
| EwsParser.CreateFolderResult | packages/emailrecovery-app/src/services/EwsService.ts:487-511 | succeeds exactly when there is one response message holding one response code and one folder id, an `XmlParseException` otherwise; the class is the message's `ResponseClass` (or ""), the code the code element's text, the folder id the folder id element's `Id` (or "") |
| EwsParser.ParseCreateFolderResponse | packages/emailrecovery-app/src/services/EwsService.ts:484-512 | succeeds exactly when `$.parseXML` accepts the text and the document has that layout; a parse failure propagates |
| EwsParser.AggregateCopyMessages | packages/emailrecovery-app/src/services/EwsService.ts:526-554 | the loop's running class/code and new ids equal the aggregate of the per-message outcomes |
| EwsParser.ParseCopyItemResponse | packages/emailrecovery-app/src/services/EwsService.ts:518-562 | the response is the aggregate of the outcomes of all `CopyItemResponseMessage` elements |
| EwsParser.AggregateWithoutFailure | packages/emailrecovery-app/src/services/EwsService.ts:526-558 | with no failed message (including no message at all) the class is "Success" and the code "NoError" |
| EwsParser.AggregateLastFailure | packages/emailrecovery-app/src/services/EwsService.ts:531-541 | otherwise class and code are those of the last failed message |
| EwsParser.LastFailure | packages/emailrecovery-app/src/services/EwsService.ts:531-541 | the failure reported is one of the messages and is a failure |
| EwsParser.CopiedIdsMembers | packages/emailrecovery-app/src/services/EwsService.ts:543-553 | an id is among the new ids exactly when it is non-empty and some successful message carries it |
| EwsParser.CopiedIdsBound | packages/emailrecovery-app/src/services/EwsService.ts:543-553 | there are no more new ids than messages |
| EwsParser.ParseFolder | packages/emailrecovery-app/src/services/EwsService.ts:614-672 | one folder element gives its id, well-known name text, last `0x6874` path, last `0xfff` entry id and the short id of that entry id |
| EwsParser.ParseFolders | packages/emailrecovery-app/src/services/EwsService.ts:610-674 | one folder per element child of `t:Folders`, in order |
| EwsParser.FolderPathTextSegment | packages/emailrecovery-app/src/services/EwsService.ts:570 | each `&#xFFFE;` entity becomes `/` before parsing, and the text before it is kept as it is |
| EwsParser.ParseFindFolderResponse | packages/emailrecovery-app/src/services/EwsService.ts:568-677 | the response of the document parsed after the entity replacement |
| EwsParser.FolderOf | packages/emailrecovery-app/src/services/EwsService.ts:668-669 | every parsed folder's short id is derived from its entry id, and its child count stays unset |
| RestService.BaseUrlOfAbsoluteUrl | packages/emailrecovery-app/src/services/RestService.ts:20-24 | for `scheme://authority` followed by an empty or `/`-led path, the base URL is `scheme://authority` (section 3 of RFC 3986) |
| RestService.BaseUrlWithoutHost | packages/emailrecovery-app/src/services/RestService.ts:20-24 | text without `/` gives itself followed by `//undefined` |
| RestService.GetRestUrl | packages/emailrecovery-app/src/services/RestService.ts:29-31 | a truthy host REST URL gives its base URL, whatever the token says |
| RestService.AudienceHost | packages/emailrecovery-app/src/services/RestService.ts:47-50 | there is a capture exactly when some `@` follows the first `/`; it is the text between that `/` and the next `@` |
| RestService.AudienceWithoutHost | packages/emailrecovery-app/src/services/RestService.ts:47-50 | `user@tenant` has no capture and `GUID/@tenant` captures the empty text |
| RestService.RestUrlFromUrlAudience | packages/emailrecovery-app/src/services/RestService.ts:38-44 | an audience containing "https://", alone or first of an array, is returned unchanged |
| RestService.RestUrlFromGuidAudience | packages/emailrecovery-app/src/services/RestService.ts:46-50 | an audience `guid/host@tenant` that does not contain "https://" gives `https://host`, whatever the host (a port included) |
| RestService.RestUrlDefault | packages/emailrecovery-app/src/services/RestService.ts:46-55 | an absent audience, or one without "https://" whose capture is missing or empty, gives `https://outlook.office.com` |
| RestService.RequiredProperty | packages/emailrecovery-app/src/services/RestService.ts:76-81 | the value of the first property with the id; a `TypeError` exactly when none has it |
| RestService.FindItemOfRows | packages/emailrecovery-app/src/services/RestService.ts:91-92 | the page is the last one exactly when it has fewer rows than requested; the next offset is the requested one plus the rows |
| RestService.FindItemRows | packages/emailrecovery-app/src/services/RestService.ts:75-89 | succeeds exactly when every row has both properties; message k has row k's id, subject, class and last-active folder |
| RestService.FindItem | packages/emailrecovery-app/src/services/RestService.ts:58-97 | the loop's response equals the row mapping; a failed request propagates |
| RestService.FolderOfRow | packages/emailrecovery-app/src/services/RestService.ts:171-185 | fails exactly when the entry id or path property is missing (a `TypeError`) or the entry id is not base64; a folder has the row's id, child count and well-known name, the entry id property, the path property with every U+FFFE replaced by `/`, and the short id of its entry id |
| RestService.FindFolderOfRows | packages/emailrecovery-app/src/services/RestService.ts:188-189 | the same last-page and next-offset rule for folders |
| RestService.FindFolderGuard | packages/emailrecovery-app/src/services/RestService.ts:154-160 | passes exactly for a non-empty root id with "Shallow" traversal |
| RestService.FindFolder | packages/emailrecovery-app/src/services/RestService.ts:148-192 | a request is made exactly when the guard passes; otherwise its error; then the row mapping or the request's failure |
| RestService.FolderPage | packages/emailrecovery-app/src/services/RestService.ts:169-191 | the loop's response equals the row mapping |
| RestService.CreateFolder | packages/emailrecovery-app/src/services/RestService.ts:103-118 | the response carries the created folder's id and neither a class nor a code, so it never reads as "Success" |
| RestService.SuccessesAppend | packages/emailrecovery-app/src/services/RestService.ts:131-143 | the copies of a concatenation are the copies of each part, in order |
| RestService.FailureSkipped | packages/emailrecovery-app/src/services/RestService.ts:134-142 | a failing id contributes nothing and does not stop the ids after it |
| RestService.SuccessesBound | packages/emailrecovery-app/src/services/RestService.ts:124-145 | there are no more new ids than source ids |
| RestService.CopyItems | packages/emailrecovery-app/src/services/RestService.ts:120-146 | a failed token rejects the call; otherwise the new ids are the successful copies in source order |
| Hierarchy.FolderHierarchy.constructor | packages/emailrecovery-app/src/services/FolderHierarchy.ts:10-22 | the folders passed in are kept and both indexes start empty |
| Hierarchy.FolderHierarchy.FetchAllChildren | packages/emailrecovery-app/src/services/FolderHierarchy.ts:45-52 | the paging loop returns all children in page order, asking at offsets 0, 50, 100, … until the first page that is not full |
| Hierarchy.FolderHierarchy.GetAllChildFoldersRecursive | packages/emailrecovery-app/src/services/FolderHierarchy.ts:44-63 | the result is the children, followed by what the loop over the growing array appends |
| Hierarchy.AppendedSplit | packages/emailrecovery-app/src/services/FolderHierarchy.ts:55-60 | expanding a run of folders expands its first part, then the rest together with what that part appended (level order) |
| Hierarchy.ShallowWithoutCounts | packages/emailrecovery-app/src/services/FolderHierarchy.ts:55-60 | when no child has a positive child count the result is just the children |
| Hierarchy.NestedFoldersRepeat | packages/emailrecovery-app/src/services/FolderHierarchy.ts:55-62 | root→A→B→C→D gives `[A, B, C, D, D, C, D, D, D]`: C is listed twice and D five times |
| Hierarchy.FolderHierarchy.Initialize | packages/emailrecovery-app/src/services/FolderHierarchy.ts:27-42 | the walk from "root" is appended to the folders and entered into both indexes |
| Hierarchy.FolderHierarchy.AddFolders | packages/emailrecovery-app/src/services/FolderHierarchy.ts:31-41 | each found folder, in order, is appended to the folder list and entered in the short-id index, and in the distinguished-id index when it has a distinguished id |
| Hierarchy.IndexByShortId | packages/emailrecovery-app/src/services/FolderHierarchy.ts:36 | a key is indexed exactly when it was before or some folder has it |
| Hierarchy.IndexByDistinguishedId | packages/emailrecovery-app/src/services/FolderHierarchy.ts:38-40 | a name is indexed exactly when it was before or some folder has it as a non-empty well-known name |
| Hierarchy.ShortIdIndexLast | packages/emailrecovery-app/src/services/FolderHierarchy.ts:36 | the folder kept for a short id is the last one with that id |
| Hierarchy.DistinguishedIndexLast | packages/emailrecovery-app/src/services/FolderHierarchy.ts:38-40 | the folder kept for a well-known name is the last one with that name |
| Hierarchy.FolderHierarchy.IsFromIpmSubtree | packages/emailrecovery-app/src/services/FolderHierarchy.ts:69-89 | true for an empty or unknown id; a `TypeError` exactly when a known id meets a missing `msgfolderroot`; otherwise true exactly when the folder's path starts with the root's path |
| Hierarchy.FolderHierarchy.IsContactsSubfolder | packages/emailrecovery-app/src/services/FolderHierarchy.ts:95-114 | false for an empty or unknown id; a `TypeError` exactly when a known id meets a missing `contacts`; otherwise true exactly when the path starts with the Contacts path and `/` |
| Hierarchy.FolderHierarchy.OutsideIpmRejected | packages/emailrecovery-app/src/services/FolderHierarchy.ts:81-88 | a known folder whose path is shorter than the root's path is not from the IPM subtree |
| Hierarchy.FolderHierarchy.UnindexedAcceptsAll | packages/emailrecovery-app/src/services/FolderHierarchy.ts:69-114 | with an empty short-id index every id is from the IPM subtree and none is under Contacts |
| Hierarchy.FolderHierarchy.ContactsFolderItself | packages/emailrecovery-app/src/services/FolderHierarchy.ts:107-113 | the Contacts folder itself is not a Contacts subfolder; a folder one name below it is |
| Hierarchy.FolderHierarchy.IpmTestIsTextual | packages/emailrecovery-app/src/services/FolderHierarchy.ts:81-88 | any path that extends the root's path textually, the root itself included, counts as IPM |
| Hierarchy.FolderHierarchy.ContactsSubfolderIsIpm | packages/emailrecovery-app/src/services/FolderHierarchy.ts:81-113 | when Contacts lies under the IPM root, each Contacts subfolder counts as IPM |
| Copier.ItemCopier.constructor | packages/emailrecovery-app/src/services/ItemCopier.ts:14-39 | the queue and both set-aside lists start empty, discovery at offset 0 and not complete |
| Copier.ItemCopier.Wanted | packages/emailrecovery-app/src/services/ItemCopier.ts:75-88 | a message is kept exactly when it is not a document, is from the IPM subtree and is not under Contacts; the test throws exactly when a non-document meets a throwing IPM test, or a passing IPM test and a throwing Contacts test, with that error |
| Copier.ItemCopier.DiscoverWanted | packages/emailrecovery-app/src/services/ItemCopier.ts:72-92 | every queued id is the id of a wanted message of the page, and no more ids than messages are queued |
| Copier.ItemCopier.DiscoverFiltered | packages/emailrecovery-app/src/services/ItemCopier.ts:72-92 | discovery ends without error exactly when no message's test throws, and then queues exactly the wanted messages' ids, in page order |
| Copier.ItemCopier.DiscoverFirstError | packages/emailrecovery-app/src/services/ItemCopier.ts:72-92 | when message j is the first whose test throws, the wanted ids before it are queued in order and its error is raised |
| Copier.ItemCopier.DiscoverStops | packages/emailrecovery-app/src/services/ItemCopier.ts:72-92 | the first message whose test throws ends the loop: the ids before it stay queued and its error is raised |
| Copier.ItemCopier.DiscoverUnindexed | packages/emailrecovery-app/src/services/ItemCopier.ts:72-92 | with unindexed folders discovery queues exactly the non-document ids, in page order, and never throws |
| Copier.ItemCopier.DiscoverInto | packages/emailrecovery-app/src/services/ItemCopier.ts:72-92 | the loop appends the kept ids to the queue and changes nothing else |
| Copier.ItemCopier.ProcessFindItemResponse | packages/emailrecovery-app/src/services/ItemCopier.ts:66-99 | a non-"Success" response raises `DiscoveryError`; otherwise the kept ids are appended, the offset becomes the response's, and completion is set once a page includes the last item |
| Copier.ItemCopier.DiscoveryRejected | packages/emailrecovery-app/src/services/ItemCopier.ts:67-69 | a non-"Success" page raises `DiscoveryError` and changes nothing but the two log entries |
| Copier.ItemCopier.DiscoveryMonotone | packages/emailrecovery-app/src/services/ItemCopier.ts:94-98 | discovery only appends to the queue, leaves the set-aside ids alone, never clears completion, and moves the offset to the page's offset only on success; on success the queue gains exactly the page's wanted ids in order and completion becomes set exactly when it was or the page includes the last item |
| Copier.ItemCopier.StartDiscoveryPass | packages/emailrecovery-app/src/services/ItemCopier.ts:112-120 | the request is for `batchSize` items of the source folder at the offset the previous page left; "Discovering Items" and "Processing Items" are reported around it |
| Copier.ItemCopier.Chunk | packages/emailrecovery-app/src/services/ItemCopier.ts:135 | the batch is the first min(batchSize, queue length) ids of the queue |
| Copier.ItemCopier.CheckCopyResponse | packages/emailrecovery-app/src/services/ItemCopier.ts:101-110 | passes exactly for "Success"; otherwise a `CopyError` with the response code |
| Copier.AfterCopyError | packages/emailrecovery-app/src/services/ItemCopier.ts:122-130 | the queue is unchanged and the set-aside ids gain exactly the attempted ids (as a multiset); a single id is appended to the bad items with the bad batches unchanged, several ids go to the bad batches in order with the bad items unchanged |
| Copier.CopyErrorSplits | packages/emailrecovery-app/src/services/ItemCopier.ts:122-130 | a batch of several ids becomes two non-empty halves, the smaller first, appended in order, that concatenate to the batch |
| Copier.ItemCopier.HandleCopyError | packages/emailrecovery-app/src/services/ItemCopier.ts:122-130 | a failed batch goes to the set-aside lists as described, and nothing else changes |
| Copier.ItemCopier.CopyPassAccounts | packages/emailrecovery-app/src/services/ItemCopier.ts:132-150 | a copy pass removes a non-empty batch from the front; success leaves the set-aside ids alone, failure sets the batch aside whole; success exactly when the request and its class succeed |
| Copier.ItemCopier.StartCopyPass | packages/emailrecovery-app/src/services/ItemCopier.ts:132-150 | reports "Copying n Items", dequeues the batch, and returns true with "Copy pass complete" exactly when the copy succeeds; a failed batch is set aside |
| Copier.ItemCopier.ProcessCompletion | packages/emailrecovery-app/src/services/ItemCopier.ts:46-64 | a pass returns true exactly when discovery succeeded and left the queue empty; it throws exactly when discovery throws; a false pass shrinks the queue |
| Copier.ItemCopier.ProcessLogExtends | packages/emailrecovery-app/src/services/ItemCopier.ts:46-64 | a pass only adds statuses after the ones already reported |
| Copier.ItemCopier.Process | packages/emailrecovery-app/src/services/ItemCopier.ts:46-64 | discovery, then true on an empty queue, else one copy pass, "Pass completed" and false; a discovery error propagates |
| ProgressSlice.Reported | packages/emailrecovery-app/src/features/progress/progressSlice.ts:19-23 | the record is active with the given activity and status |
| ProgressSlice.Completed | packages/emailrecovery-app/src/features/progress/progressSlice.ts:24-27 | the record is inactive with the given activity, and the status is kept |
| ProgressSlice.LastWriterWins | packages/emailrecovery-app/src/features/progress/progressSlice.ts:19-27 | each reducer applied twice equals it applied once; a later report hides an earlier one |
| ProgressSlice.ReportedAllLast | packages/emailrecovery-app/src/features/progress/progressSlice.ts:19-23 | after a run of reports only the last status is visible |
| ProgressSlice.ProgressState.constructor | packages/emailrecovery-app/src/features/progress/progressSlice.ts:9-13 | inactive, empty activity and status |
| ProgressSlice.ProgressState.ReportProgress | packages/emailrecovery-app/src/features/progress/progressSlice.ts:19-23 | the state becomes the reported record |
| ProgressSlice.ProgressState.ReportComplete | packages/emailrecovery-app/src/features/progress/progressSlice.ts:24-27 | the state becomes the completed record |
| RecoverySlice.RecoveryState.constructor | packages/emailrecovery-app/src/features/recovery/recoverySlice.ts:19-25 | no folders, empty error and folder name, source "recoverableitemsdeletions", dialog closed |
| RecoverySlice.RecoveryState.SetFolders | packages/emailrecovery-app/src/features/recovery/recoverySlice.ts:31-33 | only the folders change, to the payload |
| RecoverySlice.RecoveryState.SetError | packages/emailrecovery-app/src/features/recovery/recoverySlice.ts:34-36 | only the error message changes |
| RecoverySlice.RecoveryState.SetFolderName | packages/emailrecovery-app/src/features/recovery/recoverySlice.ts:37-39 | only the folder name changes |
| RecoverySlice.RecoveryState.SetFolderDialogOpen | packages/emailrecovery-app/src/features/recovery/recoverySlice.ts:40-42 | only the dialog flag changes |
| RecoverySlice.RecoveryState.SetSourceFolder | packages/emailrecovery-app/src/features/recovery/recoverySlice.ts:43-45 | only the source folder changes |
| RecoverySlice.LoadFolderHierarchy | packages/emailrecovery-app/src/features/recovery/recoverySlice.ts:51-74 | the stored folders become the walk from "root"; the progress ends inactive at "Initialization complete" |
| RecoverySlice.ReportError | packages/emailrecovery-app/src/features/recovery/recoverySlice.ts:76-81 | the activity completes and the error message becomes the error's message |
| RecoverySlice.CreateTargetFolder | packages/emailrecovery-app/src/features/recovery/recoverySlice.ts:83-93 | the folder is made under "msgfolderroot"; its id exactly when the class is "Success"; otherwise an error with the response code (empty when unset) or the request's failure |
| RecoverySlice.RestTargetFolderRejected | packages/emailrecovery-app/src/services/RestService.ts:114-116 | a property of the REST service alone (the slice never uses it): its creation response would always fail the slice's "Success" test, with an empty message |
| RecoverySlice.PromptForFolderName | packages/emailrecovery-app/src/features/recovery/recoverySlice.ts:95-98 | the folder name becomes "Email Recovery " and the timestamp, and the dialog opens |
| RecoverySlice.RelayStatuses | packages/emailrecovery-app/src/features/recovery/recoverySlice.ts:135-137 | each status becomes a progress report of the recovery activity, in order |
| RecoverySlice.PerformRecovery | packages/emailrecovery-app/src/features/recovery/recoverySlice.ts:100-162 | nothing happens without both names; a failed creation stops at "Creating target folder"; the copier uses batch 50, the source, the new folder and unindexed folders; completion means an empty queue and "Recovery completed" shown inactive; when every FindItem fails it never completes |

## Left out

- I/O and hosts: the Office mailbox calls (`makeEwsRequestAsync`, `getCallbackTokenAsync`, `restUrl`), `$.ajax`, `jwt_decode` and `$.parseXML` are replaced by their outcomes, passed in as values or function parameters.
- Async sequencing, the one-second timers (`Utils.setTimeoutAsync`) and `console` logging have no counterpart. The copier's `reportStatus` texts are kept as a log.
- The SOAP request templates and their `format()` strings, and the request URLs and bodies of the REST calls, are not modelled. Only `createItemIdsString` is.
- `ExchangeServiceFactory.ts`, the React components, `store.ts` and the bootstrap files are not part of this model.
- `Strings.ts` is not part of this model. `Strings.recoveryInProgress` is the `activity` parameter of `RecoverySlice.PerformRecovery`.
- `Utils.entryIdToShortFolderId`, called by the REST folder mapping, is not part of this model. The EWS definition is used in its place.
- JavaScript dictionaries are maps. Keys that clash with `Object.prototype` members (for example `"constructor"`) are not modelled.
- Numbers are unbounded integers. `parseInt` results beyond 2^53, and floating-point arithmetic on offsets, are not modelled.
- Hierarchy.FolderHierarchy.GetAllChildFoldersRecursive: requires a ghost rank under which every expandable child ranks below its parent, i.e. a folder tree. On a cyclic mailbox the code does not terminate.
- Hierarchy.ServerPage: the server's folder pages follow the REST last-page rule and never fail. A FindFolder failure during the walk is not modelled.
- Copier.ItemCopier.constructor: requires a positive batch size. The source only ever passes 50, and a batch size of 0 would push `undefined` into `badItems`.
- RecoverySlice.PerformRecovery: the `do … while (!completed)` loop is bounded by `maxPasses`. When it never completes, the model stops after that many passes instead of running forever.
- RecoverySlice.PerformRecovery: does not model the dispatch of a thunk returned from inside the thunk. The returned `reportError` thunk is dropped, as the Redux middleware does with a return value.
