/** The `Parser` of the EWS transport: it turns SOAP response documents (already parsed
    into a `Xml.Node` tree) into response records, serialises the item-id list of a
    CopyItem request and derives a folder's short id from its entry id. */
module EwsParser {
  import opened Common
  import opened Numbers
  import opened Xml
  import opened ExchangeTypes
  import Base64

  const MessagesNs: string := "http://schemas.microsoft.com/exchange/services/2006/messages"
  const TypesNs: string := "http://schemas.microsoft.com/exchange/services/2006/types"

  /** MAPI property tags the parser looks for. */
  const LastActiveFolderTag: string := "0x348a"
  const FolderPathTag: string := "0x6874"
  const EntryIdTag: string := "0xfff"

  // ----------------------------------------------------------------- lookup

  function NotFoundMessage(ns: string, name: string): string {
    "Failed to find " + ns + "/" + name + " in XML response"
  }

  function MultipleMessage(ns: string, name: string): string {
    "Found multiple items matching " + ns + "/" + name + " in XML response"
  }

  /** `findChildElementSingle(parent, ns, name)`, where `scope` is what lies below
      `parent`: the one matching descendant, or an `XmlParseException` when there is
      none or more than one. */
  function FindChildElementSingle(scope: seq<Node>, ns: string, name: string): (r: Result<Node>)
    ensures r.Ok? <==> |ElementsByTagNameNS(scope, ns, name)| == 1
    ensures r.Ok? ==> HasName(r.value, ns, name) && r.value in Descendants(scope)
    ensures r.Ok? ==> r.value == ElementsByTagNameNS(scope, ns, name)[0]
    ensures |ElementsByTagNameNS(scope, ns, name)| == 0 ==> r == Err(XmlParse(NotFoundMessage(ns, name)))
    ensures |ElementsByTagNameNS(scope, ns, name)| > 1 ==> r == Err(XmlParse(MultipleMessage(ns, name)))
  {
    var matches := ElementsByTagNameNS(scope, ns, name);
    if |matches| == 0 then Err(XmlParse(NotFoundMessage(ns, name)))
    else if |matches| > 1 then Err(XmlParse(MultipleMessage(ns, name)))
    else
      FilterByNameExactly(Descendants(scope), ns, name);
      assert matches == FilterByName(Descendants(scope), ns, name);
      Ok(matches[0])
  }

  /** The element found is the only descendant with that name. */
  lemma FindChildElementSingleUnique(scope: seq<Node>, ns: string, name: string, e: Node)
    requires FindChildElementSingle(scope, ns, name).Ok?
    requires e in Descendants(scope) && HasName(e, ns, name)
    ensures e == FindChildElementSingle(scope, ns, name).value
  {
    var matches := ElementsByTagNameNS(scope, ns, name);
    FilterByNameExactly(Descendants(scope), ns, name);
    assert e in matches;
    assert matches == [matches[0]];
  }

  // --------------------------------------------------------------- item ids

  const ItemIdOpen: string := "<t:ItemId Id=\""
  const ItemIdClose: string := "\" />"

  function ItemIdElement(id: string): string {
    ItemIdOpen + id + ItemIdClose
  }

  /** The serialised id list: one `<t:ItemId Id="…" />` per id, in order, with the
      ids inserted verbatim. */
  function ItemIdsString(ids: seq<string>): (s: string)
    ensures s == "" <==> ids == []
  {
    if ids == [] then "" else ItemIdElement(ids[0]) + ItemIdsString(ids[1..])
  }

  lemma {:induction false} ItemIdsStringAppend(a: seq<string>, b: seq<string>)
    ensures ItemIdsString(a + b) == ItemIdsString(a) + ItemIdsString(b)
    decreases |a|
  {
    if a == [] {
      assert a + b == b;
    } else {
      assert (a + b)[1..] == a[1..] + b;
      ItemIdsStringAppend(a[1..], b);
    }
  }

  /** `createItemIdsString`: pushes one element string per id, then joins them. */
  method CreateItemIdsString(ids: seq<string>) returns (s: string)
    ensures s == ItemIdsString(ids)
  {
    var idElementStrings: seq<string> := [];
    for i := 0 to |ids|
      invariant Concat(idElementStrings) == ItemIdsString(ids[..i])
    {
      ConcatAppend(idElementStrings, [ItemIdElement(ids[i])]);
      ItemIdsStringAppend(ids[..i], [ids[i]]);
      assert ids[..i + 1] == ids[..i] + [ids[i]];
      idElementStrings := idElementStrings + [ItemIdElement(ids[i])];
    }
    assert ids[..|ids|] == ids;
    s := Concat(idElementStrings);
  }

  /** Reads a serialised id list back; `None` for text that is not one. */
  function ParseItemIds(s: string): Option<seq<string>>
    decreases |s|
  {
    if s == [] then Some([])
    else if !StartsWith(s, ItemIdOpen) then None
    else
      var rest := s[|ItemIdOpen|..];
      var q := IndexOf(rest, '"');
      if !StartsWith(rest[q..], ItemIdClose) then None
      else
        match ParseItemIds(rest[q + |ItemIdClose|..])
        case Some(tail) => Some([rest[..q]] + tail)
        case None => None
  }

  predicate QuoteFree(ids: seq<string>) {
    forall k :: 0 <= k < |ids| ==> '"' !in ids[k]
  }

  /** Reading one element back: the id runs up to the first double quote. */
  lemma ParseItemIdsStep(id: string, tail: string)
    requires '"' !in id
    ensures ParseItemIds(ItemIdElement(id) + tail) ==
      (match ParseItemIds(tail) case Some(t) => Some([id] + t) case None => None)
  {
    var s := ItemIdElement(id) + tail;
    var close := ItemIdClose + tail;
    assert s == ItemIdOpen + (id + close);
    assert s[..|ItemIdOpen|] == ItemIdOpen;
    var rest := s[|ItemIdOpen|..];
    assert rest == id + close;
    assert close == ['"'] + close[1..];
    assert rest == id + ['"'] + close[1..];
    IndexOfPast(id, '"', close[1..]);
    assert rest[|id|..] == close;
    assert close[..|ItemIdClose|] == ItemIdClose;
    assert rest[|id| + |ItemIdClose|..] == tail;
    assert rest[..|id|] == id;
  }

  /** Ids without a double quote survive serialisation. */
  lemma {:induction false} ItemIdsRoundTrip(ids: seq<string>)
    requires QuoteFree(ids)
    ensures ParseItemIds(ItemIdsString(ids)) == Some(ids)
    decreases |ids|
  {
    if ids != [] {
      assert QuoteFree(ids[1..]) by {
        forall k | 0 <= k < |ids| - 1 ensures '"' !in ids[1..][k] {
          assert ids[1..][k] == ids[k + 1];
        }
      }
      ItemIdsRoundTrip(ids[1..]);
      ParseItemIdsStep(ids[0], ItemIdsString(ids[1..]));
      assert ids == [ids[0]] + ids[1..];
    }
  }

  /** No escaping: an id holding a quote serialises exactly like two separate ids. */
  lemma ItemIdsNotEscaped(a: string, b: string)
    ensures ItemIdsString([a + ItemIdClose + ItemIdOpen + b]) == ItemIdsString([a, b])
  {
    assert [a, b][1..] == [b];
    assert ItemIdsString([b]) == ItemIdElement(b);
    assert ItemIdsString([a + ItemIdClose + ItemIdOpen + b]) == ItemIdElement(a + ItemIdClose + ItemIdOpen + b);
  }

  // --------------------------------------------------------------- short id

  /** `s.substr(start, length)` */
  function Substr<T>(s: seq<T>, start: nat, length: nat): (r: seq<T>)
    ensures |r| <= length
  {
    var from := if start < |s| then start else |s|;
    var to := if start + length < |s| then start + length else |s|;
    s[from..to]
  }

  const DecodeErrorMessage: string := "The string to be decoded is not correctly encoded."

  /** `entryIdToShortFolderId`: `btoa` of bytes [22, 44) of `atob(entryId)` (fewer,
      or none, when the entry id is shorter). `atob` throws on text that is not base64. */
  function EntryIdToShortFolderId(entryId: string): (r: Result<string>)
    ensures r.Ok? <==> Base64.Decode(entryId).Some?
    ensures r.Err? ==> r == Err(InvalidCharacter(DecodeErrorMessage))
    ensures r.Ok? ==> |r.value| <= 32 && |r.value| % 4 == 0
  {
    match Base64.Decode(entryId)
    case None => Err(InvalidCharacter(DecodeErrorMessage))
    case Some(bin) =>
      var slice := Substr(bin, 22, 22);
      Base64.EncodedLengthGroups(|slice|);
      assert (|slice| + 2) / 3 <= 8;
      Ok(Base64.Encode(slice))
  }

  /** For a full-length entry id the short id is the encoding of bytes [22, 44), and
      it is 32 characters long. */
  lemma ShortIdOfEntryId(bin: seq<Base64.byte>)
    requires |bin| >= 44
    ensures EntryIdToShortFolderId(Base64.Encode(bin)) == Ok(Base64.Encode(bin[22..44]))
    ensures |Base64.Encode(bin[22..44])| == 32
  {
    Base64.RoundTrip(bin);
  }

  /** The short id depends only on bytes [22, 44): no length check is made. */
  lemma ShortIdDependsOnSlice(b1: seq<Base64.byte>, b2: seq<Base64.byte>)
    requires Substr(b1, 22, 22) == Substr(b2, 22, 22)
    ensures EntryIdToShortFolderId(Base64.Encode(b1)) == EntryIdToShortFolderId(Base64.Encode(b2))
  {
    Base64.RoundTrip(b1);
    Base64.RoundTrip(b2);
  }

  /** An entry id of at most 22 bytes gives the empty short id. */
  lemma ShortIdOfShortEntryId(bin: seq<Base64.byte>)
    requires |bin| <= 22
    ensures EntryIdToShortFolderId(Base64.Encode(bin)) == Ok("")
  {
    Base64.RoundTrip(bin);
    assert Substr(bin, 22, 22) == [];
  }

  // ----------------------------------------------------- extended properties

  /** One `t:ExtendedProperty`: the `PropertyTag` of its field URI and its value text. */
  datatype TaggedValue = TaggedValue(tag: Option<string>, value: string)

  function PropertyOf(prop: Node): Result<TaggedValue> {
    var uri :- FindChildElementSingle(ChildNodes(prop), TypesNs, "ExtendedFieldURI");
    var value :- FindChildElementSingle(ChildNodes(prop), TypesNs, "Value");
    Ok(TaggedValue(Attr(uri, "PropertyTag"), TextContent(value)))
  }

  /** The value of the last property carrying `tag`, or `default` when none does. */
  function LastValue(props: seq<TaggedValue>, tag: string, default: string): string {
    if props == [] then default
    else if props[|props| - 1].tag == Some(tag) then props[|props| - 1].value
    else LastValue(props[..|props| - 1], tag, default)
  }

  lemma {:induction false} LastValueAbsent(props: seq<TaggedValue>, tag: string, default: string)
    requires forall k :: 0 <= k < |props| ==> props[k].tag != Some(tag)
    ensures LastValue(props, tag, default) == default
    decreases |props|
  {
    if props != [] {
      LastValueAbsent(props[..|props| - 1], tag, default);
    }
  }

  /** A later property with the same tag overwrites an earlier one; others are ignored. */
  lemma {:induction false} LastValueIsLast(props: seq<TaggedValue>, tag: string, default: string, k: int)
    requires 0 <= k < |props| && props[k].tag == Some(tag)
    requires forall j :: k < j < |props| ==> props[j].tag != Some(tag)
    ensures LastValue(props, tag, default) == props[k].value
    decreases |props|
  {
    if k < |props| - 1 {
      LastValueIsLast(props[..|props| - 1], tag, default, k);
    }
  }

  // ---------------------------------------------------------------- paging

  function PagingOffsetOf(rootFolder: Node): Number {
    ParseInt(OrElse(Attr(rootFolder, "IndexedPagingOffset"), "0"))
  }

  function TotalItemsOf(rootFolder: Node): Number {
    ParseInt(OrElse(Attr(rootFolder, "TotalItemsInView"), "0"))
  }

  function IncludesLastOf(rootFolder: Node): bool {
    Attr(rootFolder, "IncludesLastItemInRange") == Some("true")
  }

  /** Missing paging attributes read as 0; a decimal attribute reads as its value. */
  lemma PagingDefaults(rootFolder: Node)
    ensures Attr(rootFolder, "IndexedPagingOffset") == None ==> PagingOffsetOf(rootFolder) == Num(0)
    ensures Attr(rootFolder, "TotalItemsInView") == None ==> TotalItemsOf(rootFolder) == Num(0)
    ensures forall n: nat :: Attr(rootFolder, "IndexedPagingOffset") == Some(DecimalString(n)) ==>
      PagingOffsetOf(rootFolder) == Num(n)
  {
    ParseIntDecimal(0);
    assert DecimalString(0) == "0";
    forall n: nat | Attr(rootFolder, "IndexedPagingOffset") == Some(DecimalString(n))
      ensures PagingOffsetOf(rootFolder) == Num(n)
    {
      ParseIntDecimal(n);
    }
  }

  // -------------------------------------------------------------- FindItem

  function ElementName(n: Node): Option<string> {
    if n.Element? then Some(n.localName) else None
  }

  function ExtendedProperties(e: Node): seq<Node> {
    ElementsByTagNameNS(ChildNodes(e), TypesNs, "ExtendedProperty")
  }

  /** One item element of a FindItem response. */
  function MessageOf(item: Node): Result<EmailMessage> {
    var idElem :- FindChildElementSingle(ChildNodes(item), TypesNs, "ItemId");
    var props :- MapResult(ExtendedProperties(item), PropertyOf);
    Ok(EmailMessage(
      ElementName(item),
      OrElse(Attr(idElem, "Id"), ""),
      "",
      LastValue(props, LastActiveFolderTag, ""),
      TextOfAll(ElementsByTagNameNS(ChildNodes(item), TypesNs, "ItemClass"))))
  }

  /** The body of the message loop: reads one item element. */
  method ParseMessage(item: Node) returns (r: Result<EmailMessage>)
    ensures r == MessageOf(item)
  {
    var idElem :- FindChildElementSingle(ChildNodes(item), TypesNs, "ItemId");
    var itemClass := TextOfAll(ElementsByTagNameNS(ChildNodes(item), TypesNs, "ItemClass"));
    var props := ExtendedProperties(item);
    var lastActiveFolderId := "";
    ghost var tagged: seq<TaggedValue> := [];
    for i := 0 to |props|
      invariant MapResult(props[..i], PropertyOf) == Ok(tagged)
      invariant lastActiveFolderId == LastValue(tagged, LastActiveFolderTag, "")
    {
      var uri := FindChildElementSingle(ChildNodes(props[i]), TypesNs, "ExtendedFieldURI");
      var value := FindChildElementSingle(ChildNodes(props[i]), TypesNs, "Value");
      if uri.Err? || value.Err? {
        MapResultStopsAt(props, PropertyOf, i);
        return Err(if uri.Err? then uri.error else value.error);
      }
      MapResultStep(props, PropertyOf, i);
      ghost var previous := tagged;
      tagged := tagged + [TaggedValue(Attr(uri.value, "PropertyTag"), TextContent(value.value))];
      assert tagged[..|tagged| - 1] == previous;
      if Attr(uri.value, "PropertyTag") == Some(LastActiveFolderTag) {
        lastActiveFolderId := TextContent(value.value);
      }
    }
    assert props[..|props|] == props;
    r := Ok(EmailMessage(ElementName(item), OrElse(Attr(idElem, "Id"), ""), "", lastActiveFolderId, itemClass));
  }

  /** The four elements a find response is read from: the response message, its
      code, its `m:RootFolder` and the list element (`t:Items` or `t:Folders`). */
  datatype ResponseParts = ResponseParts(respElem: Node, codeElem: Node, rootFolder: Node, listElem: Node)

  /** The single-element lookups of `parseFindItemResponse`; `t:Items` is looked up
      below the root folder. */
  function FindItemParts(doc: Document): Result<ResponseParts> {
    var respElem :- FindChildElementSingle(doc, MessagesNs, "FindItemResponseMessage");
    var codeElem :- FindChildElementSingle(ChildNodes(respElem), MessagesNs, "ResponseCode");
    var rootFolder :- FindChildElementSingle(ChildNodes(respElem), MessagesNs, "RootFolder");
    var itemsElem :- FindChildElementSingle(ChildNodes(rootFolder), TypesNs, "Items");
    Ok(ResponseParts(respElem, codeElem, rootFolder, itemsElem))
  }

  function FindItemRecord(p: ResponseParts, messages: seq<EmailMessage>): FindItemResponse {
    FindItemResponse(
      Some(OrElse(Attr(p.respElem, "ResponseClass"), "")),
      Some(TextContent(p.codeElem)),
      PagingOffsetOf(p.rootFolder),
      Some(TotalItemsOf(p.rootFolder)),
      IncludesLastOf(p.rootFolder),
      messages)
  }

  /** A FindItem response document. */
  function FindItemResult(doc: Document): Result<FindItemResponse> {
    var p :- FindItemParts(doc);
    var messages :- MapResult(ElementChildren(ChildNodes(p.listElem)), MessageOf);
    Ok(FindItemRecord(p, messages))
  }

  /** The result of a parser step after `$.parseXML`; a parse failure propagates. */
  function AfterParse<T>(doc: Result<Document>, f: Document -> Result<T>): Result<T> {
    match doc
    case Err(e) => Err(e)
    case Ok(d) => f(d)
  }

  /** The message loop of `parseFindItemResponse`: one message per element child of
      `t:Items`, text nodes skipped. */
  method ParseMessages(nodes: seq<Node>) returns (r: Result<seq<EmailMessage>>)
    ensures r == MapResult(ElementChildren(nodes), MessageOf)
  {
    var messages: seq<EmailMessage> := [];
    for i := 0 to |nodes|
      invariant MapResult(ElementChildren(nodes[..i]), MessageOf) == Ok(messages)
    {
      if nodes[i].Element? {
        var m := ParseMessage(nodes[i]);
        if m.Err? {
          ElementLoopStops(nodes, MessageOf, i);
          return Err(m.error);
        }
        ElementLoopStep(nodes, MessageOf, i);
        messages := messages + [m.value];
      } else {
        ElementLoopSkip(nodes, i);
      }
    }
    assert nodes[..|nodes|] == nodes;
    r := Ok(messages);
  }

  /** `parseFindItemResponse` */
  method ParseFindItemResponse(xml: string, parse: string -> Result<Document>) returns (r: Result<FindItemResponse>)
    ensures r == AfterParse(parse(xml), FindItemResult)
  {
    var doc :- parse(xml);
    var p :- FindItemParts(doc);
    var messages :- ParseMessages(ChildNodes(p.listElem));
    r := Ok(FindItemRecord(p, messages));
  }

  // ---------------------------------------------------------- CreateFolder

  /** The layout `parseCreateFolderResponse` accepts: one response message, holding
      one response code and one folder id. */
  predicate IsCreateFolderDocument(doc: Document) {
    |ElementsByTagNameNS(doc, MessagesNs, "CreateFolderResponseMessage")| == 1
    && var respElem := ElementsByTagNameNS(doc, MessagesNs, "CreateFolderResponseMessage")[0];
    |ElementsByTagNameNS(ChildNodes(respElem), MessagesNs, "ResponseCode")| == 1
    && |ElementsByTagNameNS(ChildNodes(respElem), TypesNs, "FolderId")| == 1
  }

  /** A CreateFolder response document: any other layout is an `XmlParseException`;
      otherwise the class is the message's `ResponseClass` (or ""), the code is the text
      of its code element and the folder id is the `Id` of its folder id element
      (or ""). */
  function CreateFolderResult(doc: Document): (r: Result<CreateFolderResponse>)
    ensures r.Ok? <==> IsCreateFolderDocument(doc)
    ensures r.Err? ==> r.error.XmlParse?
    ensures r.Ok? ==>
      var respElem := ElementsByTagNameNS(doc, MessagesNs, "CreateFolderResponseMessage")[0];
      r.value.responseClass == Some(OrElse(Attr(respElem, "ResponseClass"), ""))
      && r.value.responseCode == Some(TextContent(ElementsByTagNameNS(ChildNodes(respElem), MessagesNs, "ResponseCode")[0]))
      && r.value.folderId == OrElse(Attr(ElementsByTagNameNS(ChildNodes(respElem), TypesNs, "FolderId")[0], "Id"), "")
  {
    var respElem :- FindChildElementSingle(doc, MessagesNs, "CreateFolderResponseMessage");
    var codeElem :- FindChildElementSingle(ChildNodes(respElem), MessagesNs, "ResponseCode");
    var folderIdElem :- FindChildElementSingle(ChildNodes(respElem), TypesNs, "FolderId");
    Ok(CreateFolderResponse(
      Some(OrElse(Attr(respElem, "ResponseClass"), "")),
      Some(TextContent(codeElem)),
      OrElse(Attr(folderIdElem, "Id"), "")))
  }

  /** `parseCreateFolderResponse`: a text `$.parseXML` rejects fails with its error;
      otherwise the document is read as above. */
  function ParseCreateFolderResponse(xml: string, parse: string -> Result<Document>): (r: Result<CreateFolderResponse>)
    ensures r.Ok? <==> parse(xml).Ok? && IsCreateFolderDocument(parse(xml).value)
    ensures parse(xml).Err? ==> r == Err(parse(xml).error)
    ensures r.Ok? ==> r == CreateFolderResult(parse(xml).value)
  {
    AfterParse(parse(xml), CreateFolderResult)
  }

  // -------------------------------------------------------------- CopyItem

  /** What one `m:CopyItemResponseMessage` contributes. */
  datatype CopyOutcome = Failed(responseClass: string, responseCode: string) | Copied(itemId: Option<string>)

  function CopyOutcomeOf(e: Node): Result<CopyOutcome> {
    var responseClass := Attr(e, "ResponseClass");
    if responseClass != Some("Success") then
      var codeElem :- FindChildElementSingle(ChildNodes(e), MessagesNs, "ResponseCode");
      Ok(Failed(OrElse(responseClass, ""), TextContent(codeElem)))
    else
      var idElem :- FindChildElementSingle(ChildNodes(e), TypesNs, "ItemId");
      Ok(Copied(Attr(idElem, "Id")))
  }

  /** The last failed message, if any. */
  function LastFailure(outcomes: seq<CopyOutcome>): (r: Option<CopyOutcome>)
    ensures r.Some? ==> r.value.Failed? && r.value in outcomes
  {
    if outcomes == [] then None
    else if outcomes[|outcomes| - 1].Failed? then Some(outcomes[|outcomes| - 1])
    else LastFailure(outcomes[..|outcomes| - 1])
  }

  /** The non-empty ids of the successful messages, in document order. */
  function CopiedIds(outcomes: seq<CopyOutcome>): seq<string> {
    if outcomes == [] then []
    else
      var o := outcomes[0];
      (if o.Copied? && Truthy(o.itemId) then [o.itemId.value] else []) + CopiedIds(outcomes[1..])
  }

  lemma {:induction false} CopiedIdsAppend(a: seq<CopyOutcome>, b: seq<CopyOutcome>)
    ensures CopiedIds(a + b) == CopiedIds(a) + CopiedIds(b)
    decreases |a|
  {
    if a == [] {
      assert a + b == b;
    } else {
      assert (a + b)[1..] == a[1..] + b;
      CopiedIdsAppend(a[1..], b);
    }
  }

  /** The overall response: Success/NoError unless some message failed, then the class
      and code of the last failure. */
  function Aggregate(outcomes: seq<CopyOutcome>): CopyItemResponse {
    match LastFailure(outcomes)
    case None => CopyItemResponse(Some("Success"), Some("NoError"), CopiedIds(outcomes))
    case Some(f) => CopyItemResponse(Some(f.responseClass), Some(f.responseCode), CopiedIds(outcomes))
  }

  /** One more message: a failure takes over the class and code, a success can only
      add its id. */
  lemma AggregateStep(outcomes: seq<CopyOutcome>, o: CopyOutcome)
    ensures Aggregate(outcomes + [o]) ==
      (if o.Failed? then CopyItemResponse(Some(o.responseClass), Some(o.responseCode), CopiedIds(outcomes))
       else Aggregate(outcomes).(newItemIds := CopiedIds(outcomes) + (if Truthy(o.itemId) then [o.itemId.value] else [])))
  {
    var all := outcomes + [o];
    assert all[|all| - 1] == o && all[..|all| - 1] == outcomes;
    CopiedIdsAppend(outcomes, [o]);
    assert CopiedIds([o]) == (if o.Copied? && Truthy(o.itemId) then [o.itemId.value] else []) + CopiedIds([o][1..]);
  }

  function CopyItemResult(doc: Document): Result<CopyItemResponse> {
    var outcomes :- MapResult(ElementsByTagNameNS(doc, MessagesNs, "CopyItemResponseMessage"), CopyOutcomeOf);
    Ok(Aggregate(outcomes))
  }

  /** The loop of `parseCopyItemResponse` over the response messages: a running
      overall class/code and a list of new ids. */
  method AggregateCopyMessages(respElems: seq<Node>) returns (r: Result<CopyItemResponse>)
    ensures r == (var m := MapResult(respElems, CopyOutcomeOf); if m.Err? then Err(m.error) else Ok(Aggregate(m.value)))
  {
    var overallResponseClass := "Success";
    var overallResponseCode := "NoError";
    var itemIds: seq<string> := [];
    ghost var outcomes: seq<CopyOutcome> := [];
    for i := 0 to |respElems|
      invariant MapResult(respElems[..i], CopyOutcomeOf) == Ok(outcomes)
      invariant CopyItemResponse(Some(overallResponseClass), Some(overallResponseCode), itemIds) == Aggregate(outcomes)
    {
      var respClass := Attr(respElems[i], "ResponseClass");
      if respClass != Some("Success") {
        var codeElem := FindChildElementSingle(ChildNodes(respElems[i]), MessagesNs, "ResponseCode");
        if codeElem.Err? {
          MapResultStopsAt(respElems, CopyOutcomeOf, i);
          return Err(codeElem.error);
        }
        overallResponseClass := OrElse(respClass, "");
        overallResponseCode := TextContent(codeElem.value);
      } else {
        var itemIdElem := FindChildElementSingle(ChildNodes(respElems[i]), TypesNs, "ItemId");
        if itemIdElem.Err? {
          MapResultStopsAt(respElems, CopyOutcomeOf, i);
          return Err(itemIdElem.error);
        }
        var id := Attr(itemIdElem.value, "Id");
        if Truthy(id) {
          itemIds := itemIds + [id.value];
        }
      }
      MapResultStep(respElems, CopyOutcomeOf, i);
      var outcome := CopyOutcomeOf(respElems[i]).value;
      AggregateStep(outcomes, outcome);
      ghost var previous := outcomes;
      outcomes := outcomes + [outcome];
      assert outcomes[..|outcomes| - 1] == previous;
    }
    assert respElems[..|respElems|] == respElems;
    r := Ok(CopyItemResponse(Some(overallResponseClass), Some(overallResponseCode), itemIds));
  }

  /** `parseCopyItemResponse`: every `m:CopyItemResponseMessage` of the document. */
  method ParseCopyItemResponse(xml: string, parse: string -> Result<Document>) returns (r: Result<CopyItemResponse>)
    ensures r == AfterParse(parse(xml), CopyItemResult)
  {
    var doc :- parse(xml);
    r := AggregateCopyMessages(ElementsByTagNameNS(doc, MessagesNs, "CopyItemResponseMessage"));
  }

  /** Zero response messages, or no failed one, gives Success/NoError. */
  lemma {:induction false} AggregateWithoutFailure(outcomes: seq<CopyOutcome>)
    requires forall k :: 0 <= k < |outcomes| ==> outcomes[k].Copied?
    ensures Aggregate(outcomes).responseClass == Some("Success")
    ensures Aggregate(outcomes).responseCode == Some("NoError")
    decreases |outcomes|
  {
    if outcomes != [] {
      AggregateWithoutFailure(outcomes[..|outcomes| - 1]);
    }
  }

  /** Otherwise the class and code are those of the last failed message. */
  lemma {:induction false} AggregateLastFailure(outcomes: seq<CopyOutcome>, k: int)
    requires 0 <= k < |outcomes| && outcomes[k].Failed?
    requires forall j :: k < j < |outcomes| ==> outcomes[j].Copied?
    ensures Aggregate(outcomes).responseClass == Some(outcomes[k].responseClass)
    ensures Aggregate(outcomes).responseCode == Some(outcomes[k].responseCode)
    decreases |outcomes|
  {
    if k < |outcomes| - 1 {
      AggregateLastFailure(outcomes[..|outcomes| - 1], k);
    }
  }

  /** The new ids are exactly the non-empty ids of the successful messages. */
  lemma {:induction false} CopiedIdsMembers(outcomes: seq<CopyOutcome>, id: string)
    ensures id in CopiedIds(outcomes) <==>
      id != "" && exists k :: 0 <= k < |outcomes| && outcomes[k] == Copied(Some(id))
    decreases |outcomes|
  {
    if outcomes != [] {
      CopiedIdsMembers(outcomes[1..], id);
      if exists k :: 0 <= k < |outcomes| && outcomes[k] == Copied(Some(id)) {
        var k :| 0 <= k < |outcomes| && outcomes[k] == Copied(Some(id));
        if k > 0 {
          assert outcomes[1..][k - 1] == outcomes[k];
        }
      }
      if exists k :: 0 <= k < |outcomes| - 1 && outcomes[1..][k] == Copied(Some(id)) {
        var k :| 0 <= k < |outcomes| - 1 && outcomes[1..][k] == Copied(Some(id));
        assert outcomes[k + 1] == Copied(Some(id));
      }
    }
  }

  /** There are never more new ids than response messages. */
  lemma {:induction false} CopiedIdsBound(outcomes: seq<CopyOutcome>)
    ensures |CopiedIds(outcomes)| <= |outcomes|
    decreases |outcomes|
  {
    if outcomes != [] {
      CopiedIdsBound(outcomes[1..]);
    }
  }

  // ------------------------------------------------------------ FindFolder

  /** One folder element of a FindFolder response: every parsed folder carries the
      short id of its own entry id, and `childFolderCount` is never set. */
  function FolderOf(e: Node): (r: Result<Folder>)
    ensures r.Ok? ==> EntryIdToShortFolderId(r.value.entryId) == Ok(r.value.shortFolderId)
    ensures r.Ok? ==> r.value.childFolderCount == None
  {
    var idElem :- FindChildElementSingle(ChildNodes(e), TypesNs, "FolderId");
    var props :- MapResult(ExtendedProperties(e), PropertyOf);
    var entryId := LastValue(props, EntryIdTag, "");
    var shortFolderId :- EntryIdToShortFolderId(entryId);
    Ok(Folder(
      OrElse(Attr(idElem, "Id"), ""),
      LastValue(props, FolderPathTag, ""),
      shortFolderId,
      entryId,
      Some(TextOfAll(ElementsByTagNameNS(ChildNodes(e), TypesNs, "DistinguishedFolderId"))),
      None))
  }

  /** The body of the folder loop: reads one folder element. */
  method ParseFolder(e: Node) returns (r: Result<Folder>)
    ensures r == FolderOf(e)
  {
    var folderIdElem :- FindChildElementSingle(ChildNodes(e), TypesNs, "FolderId");
    var folderId := OrElse(Attr(folderIdElem, "Id"), "");
    var distinguishedFolderId := TextOfAll(ElementsByTagNameNS(ChildNodes(e), TypesNs, "DistinguishedFolderId"));
    var props := ExtendedProperties(e);
    var folderPath := "";
    var entryId := "";
    ghost var tagged: seq<TaggedValue> := [];
    for i := 0 to |props|
      invariant MapResult(props[..i], PropertyOf) == Ok(tagged)
      invariant folderPath == LastValue(tagged, FolderPathTag, "")
      invariant entryId == LastValue(tagged, EntryIdTag, "")
    {
      var uri := FindChildElementSingle(ChildNodes(props[i]), TypesNs, "ExtendedFieldURI");
      var value := FindChildElementSingle(ChildNodes(props[i]), TypesNs, "Value");
      if uri.Err? || value.Err? {
        MapResultStopsAt(props, PropertyOf, i);
        return Err(if uri.Err? then uri.error else value.error);
      }
      MapResultStep(props, PropertyOf, i);
      ghost var previous := tagged;
      tagged := tagged + [TaggedValue(Attr(uri.value, "PropertyTag"), TextContent(value.value))];
      assert tagged[..|tagged| - 1] == previous;
      if Attr(uri.value, "PropertyTag") == Some(FolderPathTag) {
        folderPath := TextContent(value.value);
      } else if Attr(uri.value, "PropertyTag") == Some(EntryIdTag) {
        entryId := TextContent(value.value);
      }
    }
    assert props[..|props|] == props;
    var shortFolderId :- EntryIdToShortFolderId(entryId);
    r := Ok(Folder(folderId, folderPath, shortFolderId, entryId, Some(distinguishedFolderId), None));
  }

  /** The single-element lookups of `parseFindFolderResponse`; `t:Folders` is looked
      up below the response message. */
  function FindFolderParts(doc: Document): Result<ResponseParts> {
    var respElem :- FindChildElementSingle(doc, MessagesNs, "FindFolderResponseMessage");
    var codeElem :- FindChildElementSingle(ChildNodes(respElem), MessagesNs, "ResponseCode");
    var rootFolder :- FindChildElementSingle(ChildNodes(respElem), MessagesNs, "RootFolder");
    var foldersElem :- FindChildElementSingle(ChildNodes(respElem), TypesNs, "Folders");
    Ok(ResponseParts(respElem, codeElem, rootFolder, foldersElem))
  }

  function FindFolderRecord(p: ResponseParts, folders: seq<Folder>): FindFolderResponse {
    FindFolderResponse(
      Some(OrElse(Attr(p.respElem, "ResponseClass"), "")),
      Some(TextContent(p.codeElem)),
      PagingOffsetOf(p.rootFolder),
      Some(TotalItemsOf(p.rootFolder)),
      IncludesLastOf(p.rootFolder),
      folders)
  }

  /** A FindFolder response document. */
  function FindFolderResult(doc: Document): Result<FindFolderResponse> {
    var p :- FindFolderParts(doc);
    var folders :- MapResult(ElementChildren(ChildNodes(p.listElem)), FolderOf);
    Ok(FindFolderRecord(p, folders))
  }

  /** The folder loop of `parseFindFolderResponse`: one folder per element child of
      `t:Folders`. */
  method ParseFolders(nodes: seq<Node>) returns (r: Result<seq<Folder>>)
    ensures r == MapResult(ElementChildren(nodes), FolderOf)
  {
    var folders: seq<Folder> := [];
    for i := 0 to |nodes|
      invariant MapResult(ElementChildren(nodes[..i]), FolderOf) == Ok(folders)
    {
      if nodes[i].Element? {
        var f := ParseFolder(nodes[i]);
        if f.Err? {
          ElementLoopStops(nodes, FolderOf, i);
          return Err(f.error);
        }
        ElementLoopStep(nodes, FolderOf, i);
        folders := folders + [f.value];
      } else {
        ElementLoopSkip(nodes, i);
      }
    }
    assert nodes[..|nodes|] == nodes;
    r := Ok(folders);
  }

  /** The escaped non-character that separates folder path segments. */
  const PathSeparatorEntity: string := "&#xFFFE;"

  /** The raw text handed to the XML parser: every `&#xFFFE;` becomes `/`. */
  function FolderPathText(xml: string): string {
    ReplaceAll(xml, PathSeparatorEntity, "/")
  }

  /** A separator entity after a segment without `&` becomes a slash, and the text
      behind it is processed alone. */
  lemma {:induction false} FolderPathTextSegment(a: string, b: string)
    requires '&' !in a
    ensures FolderPathText(a + PathSeparatorEntity + b) == a + "/" + FolderPathText(b)
    decreases |a|
  {
    if a == [] {
      assert a + PathSeparatorEntity + b == PathSeparatorEntity + b;
      ReplaceAllFront(PathSeparatorEntity, "/", b);
    } else {
      var s := a + PathSeparatorEntity + b;
      assert s[0] == a[0] && s[0] != PathSeparatorEntity[0];
      assert s[..|PathSeparatorEntity|] != PathSeparatorEntity;
      assert s[1..] == a[1..] + PathSeparatorEntity + b;
      FolderPathTextSegment(a[1..], b);
      assert a == [a[0]] + a[1..];
    }
  }

  /** `parseFindFolderResponse` */
  method ParseFindFolderResponse(xml: string, parse: string -> Result<Document>) returns (r: Result<FindFolderResponse>)
    ensures r == AfterParse(parse(FolderPathText(xml)), FindFolderResult)
  {
    var text := ReplaceAll(xml, PathSeparatorEntity, "/");
    var doc :- parse(text);
    var p :- FindFolderParts(doc);
    var folders :- ParseFolders(ChildNodes(p.listElem));
    r := Ok(FindFolderRecord(p, folders));
  }
}
