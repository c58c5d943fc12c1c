/** The records exchanged between the transports (EWS or REST) and the recovery engine:
    the folder record and the four response shapes with their defaults. A field that
    one transport never sets (it stays `undefined`) is an `Option`. */
module ExchangeTypes {
  import opened Common
  import opened Numbers

  /** `IFolder`. `distinguishedFolderId` is `null` for a REST folder without a
      well-known name; `childFolderCount` is never set by the EWS parser. */
  datatype Folder = Folder(
    folderId: string,
    folderPath: string,
    shortFolderId: string,
    entryId: string,
    distinguishedFolderId: Option<string>,
    childFolderCount: Option<int>)

  /** `EmailMessage`. Only EWS fills `messageType` (the item element's local name). */
  datatype EmailMessage = EmailMessage(
    messageType: Option<string>,
    itemId: string,
    subject: string,
    lastActiveFolderId: string,
    itemClass: string)

  /** `FindItemResponse`. REST responses carry no class, code or total. */
  datatype FindItemResponse = FindItemResponse(
    responseClass: Option<string>,
    responseCode: Option<string>,
    indexedPagingOffset: Number,
    totalItemsInView: Option<Number>,
    includesLastItemInRange: bool,
    messages: seq<EmailMessage>)

  datatype FindFolderResponse = FindFolderResponse(
    responseClass: Option<string>,
    responseCode: Option<string>,
    indexedPagingOffset: Number,
    totalItemsInView: Option<Number>,
    includesLastItemInRange: bool,
    folders: seq<Folder>)

  datatype CreateFolderResponse = CreateFolderResponse(
    responseClass: Option<string>,
    responseCode: Option<string>,
    folderId: string)

  datatype CopyItemResponse = CopyItemResponse(
    responseClass: Option<string>,
    responseCode: Option<string>,
    newItemIds: seq<string>)

  /** A freshly constructed `FindItemResponse` of the transport-neutral interface:
      offset 0, the last page, no messages. */
  const NewFindItemResponse := FindItemResponse(None, None, Num(0), None, true, [])

  const NewFindFolderResponse := FindFolderResponse(None, None, Num(0), None, true, [])

  const NewCopyItemResponse := CopyItemResponse(None, None, [])

  /** The test every caller applies to a response: `responseClass === "Success"`. */
  predicate IsSuccess(responseClass: Option<string>) {
    responseClass == Some("Success")
  }

  /** The three calls of the transport-neutral service interface the recovery engine
      makes, as functions of their arguments; a rejected call is an `Err`. */
  datatype ExchangeService = ExchangeService(
    findItem: (string, nat, Number) -> Result<FindItemResponse>,
    copyItems: (seq<string>, string) -> Result<CopyItemResponse>,
    createFolder: (string, string) -> Result<CreateFolderResponse>)
}
