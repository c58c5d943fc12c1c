/** The REST transport: where the REST endpoint is (from the host's `restUrl` or the
    token's `aud` claim) and how the OData rows of the Outlook REST API become response
    records. The token request and the HTTP calls are replaced by their results,
    passed in as parameters. */
module RestService {
  import opened Common
  import opened Numbers
  import opened ExchangeTypes
  import EwsParser

  // ------------------------------------------------------------- base URL

  /** `parts[k]` of a JavaScript array, where a missing element reads as `undefined`
      and prints as "undefined" in a string concatenation. */
  function PartOrUndefined(parts: seq<string>, k: nat): string {
    if k < |parts| then parts[k] else "undefined"
  }

  /** `getBaseUrl`: the first and third `/`-separated fields joined by `//`, i.e. scheme
      and authority of an absolute URL (section 3 of RFC 3986). */
  function GetBaseUrl(url: string): string {
    var parts := Split(url, '/');
    parts[0] + "//" + PartOrUndefined(parts, 2)
  }

  /** For `scheme://authority` followed by an empty or `/`-led path, the result is the
      `scheme://authority` prefix. */
  lemma {:induction false} BaseUrlOfAbsoluteUrl(scheme: string, authority: string, path: string)
    requires '/' !in scheme && '/' !in authority
    requires path == [] || path[0] == '/'
    ensures GetBaseUrl(scheme + "//" + authority + path) == scheme + "//" + authority
  {
    var tail := authority + path;
    var rest := [] + ['/'] + tail;
    var url := scheme + ['/'] + rest;
    assert url == scheme + "//" + authority + path;
    assert Split(tail, '/')[0] == authority by {
      if path == [] {
        assert tail == authority;
        SplitNoSeparator(authority, '/');
      } else {
        assert tail == authority + ['/'] + path[1..];
        SplitAtFirst(authority, '/', path[1..]);
      }
    }
    assert Split(url, '/') == [scheme] + ([[]] + Split(tail, '/')) by {
      SplitAtFirst(scheme, '/', rest);
      SplitAtFirst([], '/', tail);
    }
  }

  /** A text with fewer than two slashes yields a literal "undefined" host. */
  lemma BaseUrlWithoutHost(s: string)
    requires '/' !in s
    ensures GetBaseUrl(s) == s + "//undefined"
  {
    SplitNoSeparator(s, '/');
  }

  // ------------------------------------------------------------- REST URL

  /** The `aud` claim of the callback token (section 4.1.3 of RFC 7519): absent, one
      string, or an array of strings. */
  datatype Audience = NoAudience | Single(value: string) | Many(values: seq<string>)

  /** `Array.isArray(aud) ? aud[0] : aud` */
  function FirstAudience(aud: Audience): Option<string> {
    match aud
    case NoAudience => None
    case Single(s) => Some(s)
    case Many(xs) => if xs == [] then None else Some(xs[0])
  }

  const DefaultRestUrl: string := "https://outlook.office.com"
  const HttpsPrefix: string := "https://"

  /** The group of `/\/([^@]*)@/`: the text between the first `/` and the next `@`, when
      some `@` follows that `/`. */
  function AudienceHost(aud: string): (r: Option<string>)
    ensures r.Some? <==> '/' in aud && '@' in aud[IndexOf(aud, '/') + 1..]
    ensures r.Some? ==> var i := IndexOf(aud, '/');
      i + 1 + |r.value| < |aud| && aud[i + 1..i + 1 + |r.value|] == r.value
      && aud[i + 1 + |r.value|] == '@' && '@' !in r.value
  {
    var i := IndexOf(aud, '/');
    if i == |aud| then None
    else
      var rest := aud[i + 1..];
      var j := IndexOf(rest, '@');
      if j == |rest| then None else Some(rest[..j])
  }

  /** `getRestUrl`: the host's `restUrl` when it is set; otherwise the audience itself
      when it holds "https://", else "https://" + the host of a `GUID/host@tenant`
      audience, else the Office 365 default. */
  function GetRestUrl(restUrl: Option<string>, aud: Audience): (url: string)
    ensures Truthy(restUrl) ==> url == GetBaseUrl(restUrl.value)
  {
    if Truthy(restUrl) then GetBaseUrl(restUrl.value)
    else
      var a := FirstAudience(aud);
      if Truthy(a) && Contains(a.value, HttpsPrefix) then a.value
      else if Truthy(a) && AudienceHost(a.value).Some? && AudienceHost(a.value).value != "" then
        HttpsPrefix + AudienceHost(a.value).value
      else DefaultRestUrl
  }

  /** Format 1: an audience that is a URL is used as it is, even from an array. */
  lemma RestUrlFromUrlAudience(url: string, others: seq<string>)
    requires Contains(url, HttpsPrefix)
    ensures GetRestUrl(None, Single(url)) == url
    ensures GetRestUrl(None, Many([url] + others)) == url
  {
  }

  /** Format 2: `GUID/host@tenant` gives "https://host". */
  lemma {:induction false} RestUrlFromGuidAudience(guid: string, host: string, tenant: string)
    requires '/' !in guid && '@' !in host && host != ""
    requires !Contains(guid + "/" + host + "@" + tenant, HttpsPrefix)
    ensures GetRestUrl(None, Single(guid + "/" + host + "@" + tenant)) == HttpsPrefix + host
  {
    AudienceHostOf(guid, host, tenant);
  }

  /** The host of `GUID/host@tenant` is `host`. */
  lemma AudienceHostOf(guid: string, host: string, tenant: string)
    requires '/' !in guid && '@' !in host
    ensures AudienceHost(guid + "/" + host + "@" + tenant) == Some(host)
  {
    var a := guid + "/" + host + "@" + tenant;
    var rest := host + ['@'] + tenant;
    assert a == guid + ['/'] + rest;
    IndexOfPast(guid, '/', rest);
    assert a[|guid| + 1..] == rest;
    IndexOfPast(host, '@', tenant);
    assert rest[..|host|] == host;
  }

  /** Anything else, including an absent or empty audience, gives the default. */
  lemma RestUrlDefault(aud: Audience)
    requires !Truthy(FirstAudience(aud)) ||
      (!Contains(FirstAudience(aud).value, HttpsPrefix)
       && (AudienceHost(FirstAudience(aud).value).None? || AudienceHost(FirstAudience(aud).value) == Some("")))
    ensures GetRestUrl(None, aud) == DefaultRestUrl
  {
  }

  /** `user@tenant` has no `/` before its `@`, and `GUID/@tenant` captures the empty
      text, which is falsy: neither names a host. */
  lemma AudienceWithoutHost(user: string, guid: string, tenant: string)
    requires '/' !in user && '/' !in guid && '/' !in tenant
    ensures AudienceHost(user + "@" + tenant) == None
    ensures AudienceHost(guid + "/@" + tenant) == Some("")
  {
    assert '/' !in user + "@" + tenant;
    AudienceHostOf(guid, "", tenant);
    assert guid + "/" + "" + "@" + tenant == guid + "/@" + tenant;
  }

  // --------------------------------------------------------------- OData rows

  /** A `SingleValueExtendedProperties` entry. */
  datatype ExtendedProperty = ExtendedProperty(propertyId: string, value: string)

  datatype RestMessage = RestMessage(id: string, subject: string, properties: seq<ExtendedProperty>)

  datatype RestFolder = RestFolder(
    id: string,
    wellKnownName: Option<string>,
    childFolderCount: int,
    properties: seq<ExtendedProperty>)

  const EntryIdProperty: string := "Binary 0xfff"
  const FolderPathProperty: string := "String 0x6874"
  const MessageClassProperty: string := "String 0x1a"
  const LastActiveParentFolderProperty: string := "Binary 0x348a"

  const MissingPropertyMessage: string := "Cannot read properties of undefined (reading 'Value')"

  /** `props.find(p => p.PropertyId === id)!.Value`: the value of the first property
      with that id; reading `Value` of `undefined` throws. */
  function RequiredProperty(props: seq<ExtendedProperty>, id: string): (r: Result<string>)
    ensures r.Ok? <==> exists k :: 0 <= k < |props| && props[k].propertyId == id
    ensures r.Ok? ==> exists k :: (0 <= k < |props| && props[k].propertyId == id && props[k].value == r.value
      && forall j :: 0 <= j < k ==> props[j].propertyId != id)
    ensures r.Err? ==> r == Err(TypeError(MissingPropertyMessage))
  {
    if props == [] then Err(TypeError(MissingPropertyMessage))
    else if props[0].propertyId == id then Ok(props[0].value)
    else
      var r := RequiredProperty(props[1..], id);
      assert forall k :: 1 <= k < |props| ==> props[k] == props[1..][k - 1];
      r
  }

  function MessageOfRow(row: RestMessage): Result<EmailMessage> {
    var messageClass :- RequiredProperty(row.properties, MessageClassProperty);
    var lastActive :- RequiredProperty(row.properties, LastActiveParentFolderProperty);
    Ok(EmailMessage(None, row.id, row.subject, lastActive, messageClass))
  }

  /** The paging rule of both find operations: a page with fewer rows than requested
      is the last one, and the next offset is the requested one plus the rows read. */
  function FindItemOfRows(rows: seq<RestMessage>, maxEntries: int, offset: int): (r: Result<FindItemResponse>)
    ensures r.Ok? ==> (r.value.includesLastItemInRange <==> |rows| < maxEntries)
    ensures r.Ok? ==> r.value.indexedPagingOffset == Num(offset + |rows|)
    ensures r.Ok? ==> r.value.responseClass == None
  {
    var messages :- MapResult(rows, MessageOfRow);
    Ok(NewFindItemResponse.(
      messages := messages,
      includesLastItemInRange := |rows| < maxEntries,
      indexedPagingOffset := Num(offset + |rows|)))
  }

  /** Messages map row by row, in order. */
  lemma FindItemRows(rows: seq<RestMessage>, maxEntries: int, offset: int)
    ensures FindItemOfRows(rows, maxEntries, offset).Ok? <==>
      forall k :: 0 <= k < |rows| ==> MessageOfRow(rows[k]).Ok?
    ensures FindItemOfRows(rows, maxEntries, offset).Ok? ==>
      var ms := FindItemOfRows(rows, maxEntries, offset).value.messages;
      |ms| == |rows| && forall k :: 0 <= k < |rows| ==>
        ms[k].itemId == rows[k].id && ms[k].subject == rows[k].subject
        && RequiredProperty(rows[k].properties, MessageClassProperty) == Ok(ms[k].itemClass)
        && RequiredProperty(rows[k].properties, LastActiveParentFolderProperty) == Ok(ms[k].lastActiveFolderId)
  {
    MapResultOk(rows, MessageOfRow);
  }

  /** `findItemAsync` after the token and HTTP requests: `odata` is their outcome. */
  method FindItem(maxEntries: int, offset: int, odata: Result<seq<RestMessage>>) returns (r: Result<FindItemResponse>)
    ensures odata.Err? ==> r == Err(odata.error)
    ensures odata.Ok? ==> r == FindItemOfRows(odata.value, maxEntries, offset)
  {
    var rows :- odata;
    var messages: seq<EmailMessage> := [];
    for i := 0 to |rows|
      invariant MapResult(rows[..i], MessageOfRow) == Ok(messages)
    {
      var messageClass := RequiredProperty(rows[i].properties, MessageClassProperty);
      var lastActive := RequiredProperty(rows[i].properties, LastActiveParentFolderProperty);
      if messageClass.Err? || lastActive.Err? {
        assert MessageOfRow(rows[i]) == Err(if messageClass.Err? then messageClass.error else lastActive.error);
        MapResultStopsAt(rows, MessageOfRow, i);
        return Err(if messageClass.Err? then messageClass.error else lastActive.error);
      }
      var message := EmailMessage(None, rows[i].id, rows[i].subject, lastActive.value, messageClass.value);
      assert MessageOfRow(rows[i]) == Ok(message);
      MapResultStep(rows, MessageOfRow, i);
      messages := messages + [message];
    }
    assert rows[..|rows|] == rows;
    r := Ok(NewFindItemResponse.(
      messages := messages,
      includesLastItemInRange := |rows| < maxEntries,
      indexedPagingOffset := Num(offset + |rows|)));
  }

  // ------------------------------------------------------------ FindFolder

  const MissingRootMessage: string := "rootFolderId must be specified for REST."
  const TraversalMessage: string := "Shallow traversal is the only one supported for REST."

  /** One REST folder row: `￾` in the path becomes `/`, the short id comes from the
      entry id as in the EWS parser. */
  function FolderOfRow(row: RestFolder): (r: Result<Folder>)
    ensures var entryId, folderPathRaw := RequiredProperty(row.properties, EntryIdProperty),
        RequiredProperty(row.properties, FolderPathProperty);
      (r.Ok? <==> entryId.Ok? && folderPathRaw.Ok? && EwsParser.EntryIdToShortFolderId(entryId.value).Ok?)
      && (r.Err? ==> r.error == if entryId.Err? then entryId.error else if folderPathRaw.Err? then folderPathRaw.error
            else EwsParser.EntryIdToShortFolderId(entryId.value).error)
      && (r.Ok? ==> (r.value.folderId == row.id && r.value.entryId == entryId.value
            && r.value.folderPath == ReplaceChar(folderPathRaw.value, '\U{FFFE}', '/')
            && r.value.shortFolderId == EwsParser.EntryIdToShortFolderId(entryId.value).value))
    ensures r.Ok? ==> r.value.childFolderCount == Some(row.childFolderCount)
    ensures r.Ok? ==> r.value.distinguishedFolderId == row.wellKnownName
    ensures r.Ok? ==> '\U{FFFE}' !in r.value.folderPath
  {
    var entryId :- RequiredProperty(row.properties, EntryIdProperty);
    var folderPathRaw :- RequiredProperty(row.properties, FolderPathProperty);
    var shortFolderId :- EwsParser.EntryIdToShortFolderId(entryId);
    Ok(Folder(row.id, ReplaceChar(folderPathRaw, '\U{FFFE}', '/'), shortFolderId, entryId,
      row.wellKnownName, Some(row.childFolderCount)))
  }

  function FindFolderOfRows(rows: seq<RestFolder>, maxEntries: int, pagingOffset: int): (r: Result<FindFolderResponse>)
    ensures r.Ok? ==> (r.value.includesLastItemInRange <==> |rows| < maxEntries)
    ensures r.Ok? ==> r.value.indexedPagingOffset == Num(pagingOffset + |rows|)
  {
    var folders :- MapResult(rows, FolderOfRow);
    Ok(NewFindFolderResponse.(
      folders := folders,
      includesLastItemInRange := |rows| < maxEntries,
      indexedPagingOffset := Num(pagingOffset + |rows|)))
  }

  lemma FolderRowsOk(rows: seq<RestFolder>, maxEntries: int, pagingOffset: int)
    requires MapResult(rows, FolderOfRow).Ok?
    ensures FindFolderOfRows(rows, maxEntries, pagingOffset) == Ok(NewFindFolderResponse.(
      folders := MapResult(rows, FolderOfRow).value,
      includesLastItemInRange := |rows| < maxEntries,
      indexedPagingOffset := Num(pagingOffset + |rows|)))
  {
  }

  /** The argument guard of `findFolderAsync`. */
  function FindFolderGuard(rootFolderId: string, traversal: string): (r: Option<Error>)
    ensures r.None? <==> rootFolderId != "" && traversal == "Shallow"
  {
    if rootFolderId == "" then Some(Plain(MissingRootMessage))
    else if traversal != "Shallow" then Some(Plain(TraversalMessage))
    else None
  }

  /** `findFolderAsync`. The guard runs before anything is requested: `requested` says
      whether the token and HTTP calls, whose outcome is `odata`, are made at all. */
  method FindFolder(rootFolderId: string, traversal: string, maxEntries: int, pagingOffset: int,
                    odata: Result<seq<RestFolder>>)
    returns (r: Result<FindFolderResponse>, requested: bool)
    ensures requested <==> FindFolderGuard(rootFolderId, traversal).None?
    ensures !requested ==> r == Err(FindFolderGuard(rootFolderId, traversal).value)
    ensures requested && odata.Err? ==> r == Err(odata.error)
    ensures requested && odata.Ok? ==> r == FindFolderOfRows(odata.value, maxEntries, pagingOffset)
  {
    if rootFolderId == "" {
      return Err(Plain(MissingRootMessage)), false;
    }
    if traversal != "Shallow" {
      return Err(Plain(TraversalMessage)), false;
    }
    requested := true;
    if odata.Err? {
      return Err(odata.error), requested;
    }
    var rows := odata.value;
    r := FolderPage(rows, maxEntries, pagingOffset);
  }

  /** The `for (const folder of data.value)` loop of `findFolderAsync` and the paging
      fields after it. */
  method FolderPage(rows: seq<RestFolder>, maxEntries: int, pagingOffset: int) returns (r: Result<FindFolderResponse>)
    ensures r == FindFolderOfRows(rows, maxEntries, pagingOffset)
  {
    var folders: seq<Folder> := [];
    for i := 0 to |rows|
      invariant MapResult(rows[..i], FolderOfRow) == Ok(folders)
    {
      var f := FolderOfRow(rows[i]);
      if f.Err? {
        MapResultStopsAt(rows, FolderOfRow, i);
        return Err(f.error);
      }
      MapResultStep(rows, FolderOfRow, i);
      folders := folders + [f.value];
    }
    assert rows[..|rows|] == rows;
    FolderRowsOk(rows, maxEntries, pagingOffset);
    r := Ok(NewFindFolderResponse.(
      folders := folders,
      includesLastItemInRange := |rows| < maxEntries,
      indexedPagingOffset := Num(pagingOffset + |rows|)));
  }

  // ----------------------------------------------------------- CreateFolder

  /** `createFolderAsync`: `folder` is the outcome of the token request and the POST.
      The response is a fresh `CreateFolderResponse` with only the new folder's id
      filled in: neither a response class nor a response code is ever set. */
  function CreateFolder(folder: Result<RestFolder>): (r: Result<CreateFolderResponse>)
    ensures folder.Err? ==> r == Err(folder.error)
    ensures folder.Ok? ==> r.Ok? && r.value.folderId == folder.value.id
    ensures r.Ok? ==> !IsSuccess(r.value.responseClass) && r.value.responseCode.None?
  {
    var created :- folder;
    Ok(CreateFolderResponse(None, None, created.id))
  }

  // -------------------------------------------------------------- CopyItems

  /** The ids of the copies that succeeded, in the order of the source ids. */
  function Successes(ids: seq<string>, copy: string -> Result<string>): seq<string> {
    if ids == [] then []
    else
      var last := copy(ids[|ids| - 1]);
      Successes(ids[..|ids| - 1], copy) + (if last.Ok? then [last.value] else [])
  }

  lemma {:induction false} SuccessesAppend(a: seq<string>, b: seq<string>, copy: string -> Result<string>)
    ensures Successes(a + b, copy) == Successes(a, copy) + Successes(b, copy)
    decreases |b|
  {
    if b == [] {
      assert a + b == a;
    } else {
      assert (a + b)[..|a + b| - 1] == a + b[..|b| - 1];
      SuccessesAppend(a, b[..|b| - 1], copy);
    }
  }

  /** A failing id is skipped: the ids around it are still attempted. */
  lemma FailureSkipped(a: seq<string>, x: string, b: seq<string>, copy: string -> Result<string>)
    requires copy(x).Err?
    ensures Successes(a + [x] + b, copy) == Successes(a, copy) + Successes(b, copy)
  {
    SuccessesAppend(a + [x], b, copy);
    SuccessesAppend(a, [x], copy);
    SuccessesOfFailure(x, copy);
  }

  lemma SuccessesOfFailure(x: string, copy: string -> Result<string>)
    requires copy(x).Err?
    ensures Successes([x], copy) == []
  {
    assert [x][..0] == [];
  }

  lemma {:induction false} SuccessesBound(ids: seq<string>, copy: string -> Result<string>)
    ensures |Successes(ids, copy)| <= |ids|
    decreases |ids|
  {
    if ids != [] {
      SuccessesBound(ids[..|ids| - 1], copy);
    }
  }

  /** `copyItemsAsync`: one POST per id, in order; `copy(id)` is its outcome. A failed
      token request rejects the whole call; a failed copy is swallowed. */
  method CopyItems(sourceItemIds: seq<string>, token: Result<string>, copy: string -> Result<string>)
    returns (r: Result<CopyItemResponse>)
    ensures token.Err? ==> r == Err(token.error)
    ensures token.Ok? ==> r == Ok(NewCopyItemResponse.(newItemIds := Successes(sourceItemIds, copy)))
  {
    var _ :- token;
    var newItemIds: seq<string> := [];
    for i := 0 to |sourceItemIds|
      invariant newItemIds == Successes(sourceItemIds[..i], copy)
    {
      assert sourceItemIds[..i + 1][..i] == sourceItemIds[..i];
      var message := copy(sourceItemIds[i]);
      if message.Ok? {
        newItemIds := newItemIds + [message.value];
      }
    }
    assert sourceItemIds[..|sourceItemIds|] == sourceItemIds;
    r := Ok(NewCopyItemResponse.(newItemIds := newItemIds));
  }
}
