/** The copy engine: each pass discovers one page of the source folder, queues the ids
    of the items worth recovering, then copies one batch from the front of the queue.
    A batch that fails is split in two (or its single id recorded) and set aside. The
    service calls are replaced by their outcomes, and the progress callback by a log
    of the texts it is given. */
module Copier {
  import opened Common
  import opened Numbers
  import opened ExchangeTypes
  import opened Hierarchy

  const DocumentClass: string := "IPM.File.Document"

  /** The ids of all batches, in order. */
  function Flatten(batches: seq<seq<string>>): seq<string> {
    if batches == [] then [] else Flatten(batches[..|batches| - 1]) + batches[|batches| - 1]
  }

  lemma FlattenSnoc(batches: seq<seq<string>>, b: seq<string>)
    ensures Flatten(batches + [b]) == Flatten(batches) + b
  {
    assert (batches + [b])[..|batches|] == batches;
  }

  /** The ids of the messages that are not documents, in order: what discovery keeps
      when the folder tests let everything through. */
  function NonDocumentIds(msgs: seq<EmailMessage>): seq<string> {
    if msgs == [] then []
    else (if msgs[0].itemClass == DocumentClass then [] else [msgs[0].itemId]) + NonDocumentIds(msgs[1..])
  }

  /** The copier's fields as one value. */
  datatype CopierState = CopierState(
    itemIdsToCopy: seq<string>,
    badBatches: seq<seq<string>>,
    badItems: seq<string>,
    discoveryComplete: bool,
    discoveryOffset: Number,
    statusLog: seq<string>)

  /** A state together with what the step returned. */
  datatype Step<T> = Step(state: CopierState, result: T)

  /** `handleCopyError`: a failed batch of several ids goes back as its two halves, a
      single failed id is recorded as bad. */
  function AfterCopyError(s: CopierState, attemptedIds: seq<string>): (r: CopierState)
    requires attemptedIds != []
    ensures r.itemIdsToCopy == s.itemIdsToCopy && r.statusLog == s.statusLog
    ensures multiset(Flatten(r.badBatches) + r.badItems) == multiset(Flatten(s.badBatches) + s.badItems + attemptedIds)
    ensures |attemptedIds| == 1 ==> r.badBatches == s.badBatches && r.badItems == s.badItems + attemptedIds
    ensures |attemptedIds| > 1 ==> r.badItems == s.badItems && Flatten(r.badBatches) == Flatten(s.badBatches) + attemptedIds
  {
    if |attemptedIds| > 1 then
      var half := attemptedIds[..|attemptedIds| / 2];
      var rest := attemptedIds[|attemptedIds| / 2..];
      SplitAccounts(s.badBatches, s.badItems, attemptedIds);
      s.(badBatches := s.badBatches + [half, rest])
    else
      SingleAccounts(s.badBatches, s.badItems, attemptedIds);
      s.(badItems := s.badItems + [attemptedIds[0]])
  }

  /** Splitting a failed batch in two keeps every one of its ids. */
  lemma SplitAccounts(badBatches: seq<seq<string>>, badItems: seq<string>, ids: seq<string>)
    requires |ids| > 1
    ensures var half, rest := ids[..|ids| / 2], ids[|ids| / 2..];
      Flatten(badBatches + [half, rest]) == Flatten(badBatches) + ids
      && multiset(Flatten(badBatches + [half, rest]) + badItems) == multiset(Flatten(badBatches) + badItems + ids)
  {
    var half, rest := ids[..|ids| / 2], ids[|ids| / 2..];
    FlattenSnoc(badBatches, half);
    FlattenSnoc(badBatches + [half], rest);
    assert badBatches + [half, rest] == badBatches + [half] + [rest];
    assert ids == half + rest;
    assert Flatten(badBatches + [half, rest]) == Flatten(badBatches) + half + rest;
  }

  /** A failed single id is moved to the bad items. */
  lemma SingleAccounts(badBatches: seq<seq<string>>, badItems: seq<string>, ids: seq<string>)
    requires |ids| == 1
    ensures badItems + [ids[0]] == badItems + ids
    ensures multiset(Flatten(badBatches) + (badItems + [ids[0]])) == multiset(Flatten(badBatches) + badItems + ids)
  {
    assert ids == [ids[0]];
  }

  /** A batch of several ids splits into two non-empty halves that together are the
      batch; the first takes the smaller half. */
  lemma CopyErrorSplits(s: CopierState, attemptedIds: seq<string>)
    requires |attemptedIds| > 1
    ensures var r := AfterCopyError(s, attemptedIds);
      |r.badBatches| == |s.badBatches| + 2 && r.badBatches[..|s.badBatches|] == s.badBatches
      && r.badItems == s.badItems
      && r.badBatches[|s.badBatches|] + r.badBatches[|s.badBatches| + 1] == attemptedIds
      && |r.badBatches[|s.badBatches|]| == |attemptedIds| / 2
      && 0 < |r.badBatches[|s.badBatches|]| <= |r.badBatches[|s.badBatches| + 1]|
  {
    var r := AfterCopyError(s, attemptedIds);
    assert r.badBatches[..|s.badBatches|] == s.badBatches;
  }

  /** The text reported before a copy. */
  function CopyingStatus(n: nat): string {
    "Copying " + DecimalString(n) + " Items"
  }

  class ItemCopier {
    const hierarchy: FolderHierarchy
    const sourceFolderId: string
    const targetFolderId: string
    const batchSize: nat
    /** Never reassigned, so the `discoveryError != null` test always passes. */
    const discoveryError: Option<string> := Some("")

    var itemIdsToCopy: seq<string>
    var badBatches: seq<seq<string>>
    var badItems: seq<string>
    var discoveryComplete: bool
    var discoveryOffset: Number
    /** The texts given to `reportStatus`, in order. */
    var statusLog: seq<string>

    constructor(hierarchy: FolderHierarchy, sourceFolderId: string, targetFolderId: string, batchSize: nat)
      requires batchSize > 0
      ensures this.hierarchy == hierarchy && this.sourceFolderId == sourceFolderId
      ensures this.targetFolderId == targetFolderId && this.batchSize == batchSize
      ensures State() == CopierState([], [], [], false, Num(0), [])
    {
      this.hierarchy := hierarchy;
      this.sourceFolderId := sourceFolderId;
      this.targetFolderId := targetFolderId;
      this.batchSize := batchSize;
      itemIdsToCopy := [];
      badBatches := [];
      badItems := [];
      discoveryComplete := false;
      discoveryOffset := Num(0);
      statusLog := [];
    }

    function State(): CopierState
      reads this
    {
      CopierState(itemIdsToCopy, badBatches, badItems, discoveryComplete, discoveryOffset, statusLog)
    }

    /** Whether a discovered message is queued: documents are skipped, then the
        IPM-subtree test and the Contacts test, either of which may throw. */
    function Wanted(m: EmailMessage): (r: Result<bool>)
      reads hierarchy
      ensures r == Ok(true) <==> (m.itemClass != DocumentClass
        && hierarchy.IsFromIpmSubtree(m.lastActiveFolderId) == Ok(true)
        && hierarchy.IsContactsSubfolder(m.lastActiveFolderId) == Ok(false))
      ensures var ipm, contacts := hierarchy.IsFromIpmSubtree(m.lastActiveFolderId),
          hierarchy.IsContactsSubfolder(m.lastActiveFolderId);
        r.Err? <==> (m.itemClass != DocumentClass && (ipm.Err? || (ipm == Ok(true) && contacts.Err?)))
      ensures r.Err? ==> r.error == if hierarchy.IsFromIpmSubtree(m.lastActiveFolderId).Err?
        then hierarchy.IsFromIpmSubtree(m.lastActiveFolderId).error
        else hierarchy.IsContactsSubfolder(m.lastActiveFolderId).error
    {
      if m.itemClass == DocumentClass then Ok(false)
      else
        var fromIpm :- hierarchy.IsFromIpmSubtree(m.lastActiveFolderId);
        if !fromIpm then Ok(false)
        else
          var inContacts :- hierarchy.IsContactsSubfolder(m.lastActiveFolderId);
          Ok(!inContacts)
    }

    /** The discovery loop over `msgs`: the ids it queues, and the error that stopped
        it. Ids queued before the error stay queued. */
    function Discover(msgs: seq<EmailMessage>): (r: (seq<string>, Option<Error>))
      reads hierarchy
    {
      if msgs == [] then ([], None)
      else
        var prev := Discover(msgs[..|msgs| - 1]);
        var m := msgs[|msgs| - 1];
        if prev.1.Some? then prev
        else
          match Wanted(m)
          case Err(e) => (prev.0, Some(e))
          case Ok(keep) => (if keep then prev.0 + [m.itemId] else prev.0, None)
    }

    /** `id` is the id of a message of `msgs` that the filters keep. */
    predicate FromWanted(msgs: seq<EmailMessage>, id: string)
      reads hierarchy
    {
      exists k :: 0 <= k < |msgs| && msgs[k].itemId == id && Wanted(msgs[k]) == Ok(true)
    }

    /** Every queued id is that of a wanted message, and no more ids are queued than
        messages seen. */
    lemma {:induction false} DiscoverWanted(msgs: seq<EmailMessage>)
      ensures |Discover(msgs).0| <= |msgs|
      ensures forall i :: 0 <= i < |Discover(msgs).0| ==> FromWanted(msgs, Discover(msgs).0[i])
      decreases |msgs|
    {
      if msgs != [] {
        var pre := msgs[..|msgs| - 1];
        var last := |msgs| - 1;
        DiscoverWanted(pre);
        var before, after := Discover(pre).0, Discover(msgs).0;
        assert after == before || (Wanted(msgs[last]) == Ok(true) && after == before + [msgs[last].itemId]);
        forall i | 0 <= i < |after|
          ensures FromWanted(msgs, after[i])
        {
          if i < |before| {
            assert FromWanted(pre, before[i]);
            var k :| 0 <= k < |pre| && pre[k].itemId == before[i] && Wanted(pre[k]) == Ok(true);
            assert msgs[k] == pre[k] && after[i] == before[i];
          } else {
            assert msgs[last].itemId == after[i] && Wanted(msgs[last]) == Ok(true);
          }
        }
      }
    }

    /** The ids of the messages the filters keep, in page order. */
    function WantedIds(msgs: seq<EmailMessage>): seq<string>
      reads hierarchy
    {
      if msgs == [] then []
      else (if Wanted(msgs[0]) == Ok(true) then [msgs[0].itemId] else []) + WantedIds(msgs[1..])
    }

    lemma {:induction false} WantedIdsSnoc(msgs: seq<EmailMessage>, m: EmailMessage)
      ensures WantedIds(msgs + [m]) == WantedIds(msgs) + (if Wanted(m) == Ok(true) then [m.itemId] else [])
      decreases |msgs|
    {
      if msgs == [] {
        assert [m][1..] == [];
      } else {
        assert (msgs + [m])[0] == msgs[0] && (msgs + [m])[1..] == msgs[1..] + [m];
        WantedIdsSnoc(msgs[1..], m);
      }
    }

    /** When no filter test throws, discovery queues exactly the wanted messages' ids,
        in page order; it stops with an error exactly when some test throws. */
    lemma {:induction false} DiscoverFiltered(msgs: seq<EmailMessage>)
      ensures Discover(msgs).1.None? <==> forall k :: 0 <= k < |msgs| ==> Wanted(msgs[k]).Ok?
      ensures Discover(msgs).1.None? ==> Discover(msgs).0 == WantedIds(msgs)
      decreases |msgs|
    {
      if msgs != [] {
        var pre := msgs[..|msgs| - 1];
        var m := msgs[|msgs| - 1];
        assert msgs == pre + [m];
        DiscoverFiltered(pre);
        WantedIdsSnoc(pre, m);
        assert forall k :: 0 <= k < |pre| ==> pre[k] == msgs[k];
        if Discover(pre).1.None? && Wanted(m).Ok? {
          if Wanted(m) == Ok(true) {
            assert Discover(msgs).0 == Discover(pre).0 + [m.itemId];
          } else {
            assert Discover(msgs).0 == Discover(pre).0 + [];
          }
        }
      }
    }

    /** When the test of message `j` is the first to throw, the ids of the wanted
        messages before it stay queued and its error is reported. */
    lemma DiscoverFirstError(msgs: seq<EmailMessage>, j: nat)
      requires j < |msgs| && Wanted(msgs[j]).Err?
      requires forall k :: 0 <= k < j ==> Wanted(msgs[k]).Ok?
      ensures Discover(msgs) == (WantedIds(msgs[..j]), Some(Wanted(msgs[j]).error))
    {
      assert forall k :: 0 <= k < j ==> msgs[..j][k] == msgs[k];
      DiscoverFiltered(msgs[..j]);
      DiscoverStops(msgs, j);
    }

    /** With an unindexed hierarchy, discovery queues exactly the non-documents. */
    lemma {:induction false} DiscoverUnindexed(msgs: seq<EmailMessage>)
      requires hierarchy.shortFolderIdIndex == map[]
      ensures Discover(msgs) == (NonDocumentIds(msgs), None)
      decreases |msgs|
    {
      if msgs != [] {
        var pre := msgs[..|msgs| - 1];
        var m := msgs[|msgs| - 1];
        assert msgs == pre + [m];
        DiscoverUnindexed(pre);
        hierarchy.UnindexedAcceptsAll(m.lastActiveFolderId);
        assert Wanted(m) == Ok(m.itemClass != DocumentClass);
        NonDocumentIdsSnoc(pre, m);
        if m.itemClass == DocumentClass {
          assert Discover(msgs) == (Discover(pre).0, None);
          assert NonDocumentIds(pre) + [] == NonDocumentIds(pre);
        } else {
          assert Discover(msgs) == (Discover(pre).0 + [m.itemId], None);
        }
      }
    }

    lemma {:induction false} NonDocumentIdsSnoc(msgs: seq<EmailMessage>, m: EmailMessage)
      ensures NonDocumentIds(msgs + [m]) == NonDocumentIds(msgs) + (if m.itemClass == DocumentClass then [] else [m.itemId])
      decreases |msgs|
    {
      if msgs == [] {
        assert [m][1..] == [];
      } else {
        assert (msgs + [m])[1..] == msgs[1..] + [m];
        NonDocumentIdsSnoc(msgs[1..], m);
      }
    }

    /** `processFindItemResponse` as a function of the state before it. */
    function AfterFindItem(s: CopierState, resp: FindItemResponse): Step<Result<()>>
      reads hierarchy
    {
      if !IsSuccess(resp.responseClass) then Step(s, Err(Discovery(resp.responseCode)))
      else
        var found := Discover(resp.messages);
        var queued := s.(itemIdsToCopy := s.itemIdsToCopy + found.0);
        if found.1.Some? then Step(queued, Err(found.1.value))
        else Step(queued.(
          discoveryOffset := resp.indexedPagingOffset,
          discoveryComplete := s.discoveryComplete || resp.includesLastItemInRange), Ok(()))
    }

    /** `startDiscoveryPass`: the FindItem request asks for `batchSize` items of the
        source folder at the offset the previous page left. */
    function AfterDiscoveryPass(s: CopierState, findItem: (string, nat, Number) -> Result<FindItemResponse>): Step<Result<()>>
      reads hierarchy
    {
      var resp := findItem(sourceFolderId, batchSize, s.discoveryOffset);
      var requested := s.(statusLog := s.statusLog + ["Discovering Items"]);
      if resp.Err? then Step(requested, Err(resp.error))
      else AfterFindItem(requested.(statusLog := requested.statusLog + ["Processing Items"]), resp.value)
    }

    /** Discovery only appends to the queue, never touches the set-aside ids, never
        clears the completion flag, and moves the offset only when the page was
        processed to its end. */
    lemma DiscoveryMonotone(s: CopierState, findItem: (string, nat, Number) -> Result<FindItemResponse>)
      ensures var resp := findItem(sourceFolderId, batchSize, s.discoveryOffset);
        var t := AfterDiscoveryPass(s, findItem);
        t.state.itemIdsToCopy[..|s.itemIdsToCopy|] == s.itemIdsToCopy
        && |s.itemIdsToCopy| <= |t.state.itemIdsToCopy|
        && t.state.badBatches == s.badBatches && t.state.badItems == s.badItems
        && (s.discoveryComplete ==> t.state.discoveryComplete)
        && (t.result.Err? ==> (t.state.discoveryOffset == s.discoveryOffset
            && t.state.discoveryComplete == s.discoveryComplete))
        && (t.result.Ok? ==>
              (t.state.discoveryOffset == resp.value.indexedPagingOffset
               && t.state.discoveryComplete == (s.discoveryComplete || resp.value.includesLastItemInRange)
               && t.state.itemIdsToCopy == s.itemIdsToCopy + WantedIds(resp.value.messages)))
    {
      var resp := findItem(sourceFolderId, batchSize, s.discoveryOffset);
      if resp.Ok? && IsSuccess(resp.value.responseClass) {
        var found := Discover(resp.value.messages);
        DiscoverFiltered(resp.value.messages);
        assert (s.itemIdsToCopy + found.0)[..|s.itemIdsToCopy|] == s.itemIdsToCopy;
      }
    }

    /** A response that is not "Success" queues nothing and changes nothing but the
        log. */
    lemma DiscoveryRejected(s: CopierState, findItem: (string, nat, Number) -> Result<FindItemResponse>, resp: FindItemResponse)
      requires findItem(sourceFolderId, batchSize, s.discoveryOffset) == Ok(resp)
      requires !IsSuccess(resp.responseClass)
      ensures AfterDiscoveryPass(s, findItem) ==
        Step(s.(statusLog := s.statusLog + ["Discovering Items", "Processing Items"]), Err(Discovery(resp.responseCode)))
    {
      assert s.statusLog + ["Discovering Items"] + ["Processing Items"] == s.statusLog + ["Discovering Items", "Processing Items"];
    }

    /** The batch a copy pass takes from the front of the queue. */
    function Chunk(s: CopierState): (r: seq<string>)
      ensures |r| == Min(batchSize, |s.itemIdsToCopy|) && r == s.itemIdsToCopy[..|r|]
    {
      s.itemIdsToCopy[..Min(batchSize, |s.itemIdsToCopy|)]
    }

    /** `processCopyItemReponse`: anything but "Success" is a `CopyError`. */
    function CheckCopyResponse(resp: CopyItemResponse): (r: Result<()>)
      ensures r.Ok? <==> IsSuccess(resp.responseClass)
      ensures r.Err? ==> r.error == Copy(resp.responseCode)
    {
      if !IsSuccess(resp.responseClass) then Err(Copy(resp.responseCode)) else Ok(())
    }

    /** `startCopyPass`: the CopyItem request carries the batch and the target folder;
        a rejected request and a non-"Success" response are handled alike. */
    function AfterCopyPass(s: CopierState, copyItems: (seq<string>, string) -> Result<CopyItemResponse>): Step<bool>
      requires s.itemIdsToCopy != [] && batchSize > 0
    {
      var chunk := Chunk(s);
      var resp := copyItems(chunk, targetFolderId);
      var taken := s.(
        itemIdsToCopy := s.itemIdsToCopy[|chunk|..],
        statusLog := s.statusLog + [CopyingStatus(|chunk|)]);
      if resp.Ok? && CheckCopyResponse(resp.value).Ok? then
        Step(taken.(statusLog := taken.statusLog + ["Copy pass complete"]), true)
      else Step(AfterCopyError(taken, chunk), false)
    }

    /** A copy pass removes its batch from the front of the queue; a failed batch is
        set aside whole (as a multiset, nothing lost or added), a successful one leaves
        the set-aside ids alone. */
    lemma CopyPassAccounts(s: CopierState, copyItems: (seq<string>, string) -> Result<CopyItemResponse>)
      requires s.itemIdsToCopy != [] && batchSize > 0
      ensures var resp := copyItems(Chunk(s), targetFolderId);
        var t := AfterCopyPass(s, copyItems);
        Chunk(s) != [] && Chunk(s) + t.state.itemIdsToCopy == s.itemIdsToCopy
        && (t.result ==> t.state.badBatches == s.badBatches && t.state.badItems == s.badItems)
        && (!t.result ==> (multiset(Flatten(t.state.badBatches) + t.state.badItems)
              == multiset(Flatten(s.badBatches) + s.badItems + Chunk(s))))
        && t.state.discoveryComplete == s.discoveryComplete && t.state.discoveryOffset == s.discoveryOffset
        && (t.result <==> resp.Ok? && IsSuccess(resp.value.responseClass))
    {
      var chunk := Chunk(s);
      assert chunk + s.itemIdsToCopy[|chunk|..] == s.itemIdsToCopy;
    }

    /** `process`, given the outcomes of this pass's FindItem and CopyItem requests. */
    function AfterProcess(s: CopierState, service: ExchangeService): Step<Result<bool>>
      requires batchSize > 0
      reads hierarchy
    {
      var d := AfterDiscoveryPass(s, service.findItem);
      if d.result.Err? then Step(d.state, Err(d.result.error))
      else if (d.state.discoveryComplete || discoveryError.Some?) && d.state.itemIdsToCopy == [] then Step(d.state, Ok(true))
      else if d.state.itemIdsToCopy == [] then Step(d.state, Ok(false))
      else
        var c := AfterCopyPass(d.state, service.copyItems);
        Step(c.state.(statusLog := c.state.statusLog + ["Pass completed"]), Ok(false))
    }

    /** A pass reports completion exactly when its discovery succeeded and left the
        queue empty, whether or not the folder has been read to its end; otherwise a
        successful pass copies a batch, so the queue shrinks. */
    lemma ProcessCompletion(s: CopierState, service: ExchangeService)
      requires batchSize > 0
      ensures var d := AfterDiscoveryPass(s, service.findItem);
        var p := AfterProcess(s, service);
        (p.result == Ok(true) <==> d.result.Ok? && d.state.itemIdsToCopy == [])
        && (p.result.Err? <==> d.result.Err?)
        && (p.result == Ok(false) ==> |p.state.itemIdsToCopy| < |d.state.itemIdsToCopy|)
    {
      var d := AfterDiscoveryPass(s, service.findItem);
      if d.result.Ok? && d.state.itemIdsToCopy != [] {
        CopyPassAccounts(d.state, service.copyItems);
      }
    }

    /** `reportStatus` is the only thing a pass does to the log, so a pass only adds
        statuses after the ones already reported. */
    lemma ProcessLogExtends(s: CopierState, service: ExchangeService)
      requires batchSize > 0
      ensures var p := AfterProcess(s, service);
        |s.statusLog| < |p.state.statusLog| && p.state.statusLog[..|s.statusLog|] == s.statusLog
    {
      var d := AfterDiscoveryPass(s, service.findItem);
      var dx := DiscoveryLog(s, service.findItem);
      var added := dx;
      if d.result.Ok? && d.state.itemIdsToCopy != [] {
        var cx := CopyLog(d.state, service.copyItems);
        Assoc(s.statusLog, dx, cx);
        Assoc(s.statusLog, dx + cx, ["Pass completed"]);
        added := dx + cx + ["Pass completed"];
      }
      assert AfterProcess(s, service).state.statusLog == s.statusLog + added;
      assert (s.statusLog + added)[..|s.statusLog|] == s.statusLog;
    }

    /** What a discovery pass reports: one or two statuses. */
    lemma DiscoveryLog(s: CopierState, findItem: (string, nat, Number) -> Result<FindItemResponse>) returns (added: seq<string>)
      ensures added != [] && AfterDiscoveryPass(s, findItem).state.statusLog == s.statusLog + added
    {
      var resp := findItem(sourceFolderId, batchSize, s.discoveryOffset);
      if resp.Err? {
        added := ["Discovering Items"];
      } else {
        added := ["Discovering Items", "Processing Items"];
        assert s.statusLog + ["Discovering Items"] + ["Processing Items"] == s.statusLog + added;
      }
    }

    /** What a copy pass reports: one or two statuses. */
    lemma CopyLog(s: CopierState, copyItems: (seq<string>, string) -> Result<CopyItemResponse>) returns (added: seq<string>)
      requires s.itemIdsToCopy != [] && batchSize > 0
      ensures added != [] && AfterCopyPass(s, copyItems).state.statusLog == s.statusLog + added
    {
      var chunk := Chunk(s);
      var resp := copyItems(chunk, targetFolderId);
      if resp.Ok? && CheckCopyResponse(resp.value).Ok? {
        added := [CopyingStatus(|chunk|), "Copy pass complete"];
        assert s.statusLog + [CopyingStatus(|chunk|)] + ["Copy pass complete"] == s.statusLog + added;
      } else {
        added := [CopyingStatus(|chunk|)];
      }
    }

    method ProcessFindItemResponse(resp: FindItemResponse) returns (r: Result<()>)
      modifies this
      ensures Step(State(), r) == AfterFindItem(old(State()), resp)
    {
      if !IsSuccess(resp.responseClass) {
        return Err(Discovery(resp.responseCode));
      }
      var err := DiscoverInto(resp.messages);
      if err.Some? {
        return Err(err.value);
      }
      discoveryOffset := resp.indexedPagingOffset;
      if resp.includesLastItemInRange {
        discoveryComplete := true;
      }
      r := Ok(());
    }

    /** The `for` loop of `processFindItemResponse`: queues wanted ids one by one and
        stops at the first test that throws. */
    method DiscoverInto(msgs: seq<EmailMessage>) returns (err: Option<Error>)
      modifies this
      ensures itemIdsToCopy == old(itemIdsToCopy) + Discover(msgs).0 && err == Discover(msgs).1
      ensures State() == old(State()).(itemIdsToCopy := itemIdsToCopy)
    {
      for i := 0 to |msgs|
        invariant itemIdsToCopy == old(itemIdsToCopy) + Discover(msgs[..i]).0 && Discover(msgs[..i]).1 == None
        invariant State() == old(State()).(itemIdsToCopy := itemIdsToCopy)
      {
        var message := msgs[i];
        assert msgs[..i + 1][..i] == msgs[..i] && msgs[..i + 1][i] == message;
        var wanted := Wanted(message);
        if wanted.Err? {
          DiscoverStops(msgs, i);
          return Some(wanted.error);
        }
        if wanted.value {
          itemIdsToCopy := itemIdsToCopy + [message.itemId];
        }
      }
      assert msgs[..|msgs|] == msgs;
      err := None;
    }

    /** Once the loop has stopped, later messages change nothing. */
    lemma {:induction false} DiscoverStops(msgs: seq<EmailMessage>, i: int)
      requires 0 <= i < |msgs| && Discover(msgs[..i]).1.None? && Wanted(msgs[i]).Err?
      ensures Discover(msgs) == (Discover(msgs[..i]).0, Some(Wanted(msgs[i]).error))
      decreases |msgs|
    {
      if i < |msgs| - 1 {
        assert msgs[..|msgs| - 1][..i] == msgs[..i] && msgs[..|msgs| - 1][i] == msgs[i];
        DiscoverStops(msgs[..|msgs| - 1], i);
      } else {
        assert msgs[..|msgs| - 1] == msgs[..i];
      }
    }

    method StartDiscoveryPass(findItem: (string, nat, Number) -> Result<FindItemResponse>) returns (r: Result<()>)
      modifies this
      ensures Step(State(), r) == AfterDiscoveryPass(old(State()), findItem)
    {
      statusLog := statusLog + ["Discovering Items"];
      var resp := findItem(sourceFolderId, batchSize, discoveryOffset);
      if resp.Err? {
        return Err(resp.error);
      }
      statusLog := statusLog + ["Processing Items"];
      r := ProcessFindItemResponse(resp.value);
    }

    method HandleCopyError(attemptedIds: seq<string>)
      requires attemptedIds != []
      modifies this
      ensures State() == AfterCopyError(old(State()), attemptedIds)
    {
      if |attemptedIds| > 1 {
        var half := attemptedIds[..|attemptedIds| / 2];
        badBatches := badBatches + [half];
        badBatches := badBatches + [attemptedIds[|attemptedIds| / 2..]];
      } else {
        badItems := badItems + [attemptedIds[0]];
      }
    }

    method StartCopyPass(copyItems: (seq<string>, string) -> Result<CopyItemResponse>) returns (copied: bool)
      requires itemIdsToCopy != [] && batchSize > 0
      modifies this
      ensures Step(State(), copied) == AfterCopyPass(old(State()), copyItems)
    {
      var n := Min(batchSize, |itemIdsToCopy|);
      var chunkItemIds := itemIdsToCopy[..n];
      itemIdsToCopy := itemIdsToCopy[n..];
      statusLog := statusLog + [CopyingStatus(|chunkItemIds|)];
      var resp := copyItems(chunkItemIds, targetFolderId);
      if resp.Ok? && CheckCopyResponse(resp.value).Ok? {
        statusLog := statusLog + ["Copy pass complete"];
        return true;
      }
      HandleCopyError(chunkItemIds);
      copied := false;
    }

    /** `process`: true when there is nothing left to copy. */
    method Process(service: ExchangeService) returns (r: Result<bool>)
      requires batchSize > 0
      modifies this
      ensures Step(State(), r) == AfterProcess(old(State()), service)
    {
      var d := StartDiscoveryPass(service.findItem);
      if d.Err? {
        return Err(d.error);
      }
      if (discoveryComplete || discoveryError.Some?) && itemIdsToCopy == [] {
        return Ok(true);
      }
      if itemIdsToCopy == [] {
        assert false;
        return Ok(false);
      }
      var _ := StartCopyPass(service.copyItems);
      statusLog := statusLog + ["Pass completed"];
      r := Ok(false);
    }
  }
}
