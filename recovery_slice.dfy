/** The recovery slice: the state behind the recovery form, its five setters, and the
    thunks that load the hierarchy, create the target folder and drive the copier. */
module RecoverySlice {
  import opened Common
  import opened Numbers
  import opened ExchangeTypes
  import opened Hierarchy
  import opened Copier
  import opened ProgressSlice
  import RestService

  const DefaultSourceFolder: string := "recoverableitemsdeletions"
  const CopyChunkSize: nat := 50
  const InitializingActivity: string := "Initializing"
  const FolderNamePrefix: string := "Email Recovery "

  /** The recovery record as a value. */
  datatype Recovery = Recovery(
    folders: seq<Folder>,
    errorMessage: string,
    sourceFolder: string,
    folderName: string,
    isFolderDialogOpen: bool)

  const InitialRecovery := Recovery([], "", DefaultSourceFolder, "", false)

  /** The start guard of `performRecoveryAsync`: both names must be non-empty. */
  predicate CanStart(r: Recovery) {
    r.sourceFolder != "" && r.folderName != ""
  }

  /** `createFolderAsync(folderName)`: a folder under "msgfolderroot"; anything but
      "Success" throws an `Error` whose message is the response code. */
  function CreateTargetFolder(service: ExchangeService, folderName: string): (r: Result<string>)
    ensures var res := service.createFolder(IpmRootName, folderName);
      (r.Ok? <==> res.Ok? && IsSuccess(res.value.responseClass))
      && (r.Ok? ==> r.value == res.value.folderId)
      && (res.Err? ==> r == Err(res.error))
      && (res.Ok? && r.Err? ==> r.error == Plain(OrElse(res.value.responseCode, "")))
  {
    var res :- service.createFolder(IpmRootName, folderName);
    if IsSuccess(res.responseClass) then Ok(res.folderId)
    else Err(Plain(OrElse(res.responseCode, "")))
  }

  /** Over the REST service the created folder never carries "Success", so the
      recovery always stops at folder creation, with an empty error message (the
      message of `new Error(undefined)`). */
  lemma RestTargetFolderRejected(service: ExchangeService, folderName: string, outcome: Result<RestService.RestFolder>)
    requires service.createFolder(IpmRootName, folderName) == RestService.CreateFolder(outcome)
    ensures CreateTargetFolder(service, folderName) == Err(if outcome.Ok? then Plain("") else outcome.error)
  {
  }

  class RecoveryState {
    var folders: seq<Folder>
    var errorMessage: string
    var sourceFolder: string
    var folderName: string
    var isFolderDialogOpen: bool

    function Value(): Recovery
      reads this
    {
      Recovery(folders, errorMessage, sourceFolder, folderName, isFolderDialogOpen)
    }

    constructor()
      ensures Value() == InitialRecovery
    {
      folders := [];
      errorMessage := "";
      sourceFolder := DefaultSourceFolder;
      folderName := "";
      isFolderDialogOpen := false;
    }

    method SetFolders(payload: seq<Folder>)
      modifies this
      ensures Value() == old(Value()).(folders := payload)
    {
      folders := payload;
    }

    method SetError(payload: string)
      modifies this
      ensures Value() == old(Value()).(errorMessage := payload)
    {
      errorMessage := payload;
    }

    method SetFolderName(payload: string)
      modifies this
      ensures Value() == old(Value()).(folderName := payload)
    {
      folderName := payload;
    }

    method SetFolderDialogOpen(payload: bool)
      modifies this
      ensures Value() == old(Value()).(isFolderDialogOpen := payload)
    {
      isFolderDialogOpen := payload;
    }

    method SetSourceFolder(payload: string)
      modifies this
      ensures Value() == old(Value()).(sourceFolder := payload)
    {
      sourceFolder := payload;
    }
  }

  /** `reportError(activity, error)`, when it is dispatched. */
  method ReportError(recovery: RecoveryState, progress: ProgressState, activity: string, message: string)
    modifies recovery, progress
    ensures progress.Value() == Completed(old(progress.Value()), activity)
    ensures recovery.Value() == old(recovery.Value()).(errorMessage := message)
  {
    progress.ReportComplete(activity);
    recovery.SetError(message);
  }

  /** `promptForFolderNameAsync`; `now` is the ISO-8601 text of the current time. */
  method PromptForFolderName(recovery: RecoveryState, now: string)
    modifies recovery
    ensures recovery.Value() == old(recovery.Value()).(folderName := FolderNamePrefix + now, isFolderDialogOpen := true)
  {
    recovery.SetFolderName(FolderNamePrefix + now);
    recovery.SetFolderDialogOpen(true);
  }

  /** `loadFolderHierarchyAsync`: walks the mailbox from "root" and stores the result;
      `rank` witnesses that its folders form a tree. */
  method LoadFolderHierarchy(recovery: RecoveryState, progress: ProgressState, mailbox: Mailbox, ghost rank: map<string, nat>)
    requires Ranked(mailbox, rank)
    modifies recovery, progress
    ensures recovery.Value() == old(recovery.Value()).(folders := AllChildFolders(mailbox, rank, RootFolderId))
    ensures progress.Value() == Progress(false, InitializingActivity, "Initialization complete")
  {
    var hierarchy := new FolderHierarchy(mailbox, []);
    progress.ReportProgress(InitializingActivity, "Loading folder hierarchy");
    hierarchy.Initialize(rank);
    progress.ReportProgress(InitializingActivity, "Initialization complete");
    progress.ReportComplete(InitializingActivity);
    recovery.SetFolders(hierarchy.folders);
  }

  /** `progressCallback`: every status the copier reports becomes a progress report
      of the recovery activity, in the order reported. */
  method RelayStatuses(progress: ProgressState, activity: string, statuses: seq<string>)
    modifies progress
    ensures progress.Value() == ReportedAll(old(progress.Value()), activity, statuses)
  {
    for i := 0 to |statuses|
      invariant progress.Value() == ReportedAll(old(progress.Value()), activity, statuses[..i])
    {
      assert statuses[..i + 1][..i] == statuses[..i];
      progress.ReportProgress(activity, statuses[i]);
    }
    assert statuses[..|statuses|] == statuses;
  }

  /** `performRecoveryAsync`. The `do … while (!completed)` loop runs until a pass
      returns true, which may be never; here it stops after `maxPasses` passes. A pass
      that throws counts as not completed, and the error thunk it builds is never
      dispatched, so nothing here writes the recovery record. */
  method PerformRecovery(recovery: RecoveryState, progress: ProgressState, service: ExchangeService,
                         mailbox: Mailbox, activity: string, maxPasses: nat)
    returns (completed: bool, passes: nat, copier: ItemCopier?)
    modifies progress
    ensures !CanStart(recovery.Value()) ==>
      (!completed && passes == 0 && copier == null && progress.Value() == old(progress.Value()))
    ensures CanStart(recovery.Value()) && CreateTargetFolder(service, recovery.folderName).Err? ==>
      (!completed && passes == 0 && copier == null
       && progress.Value() == Progress(true, activity, "Creating target folder"))
    ensures copier != null ==>
      (CanStart(recovery.Value()) && CreateTargetFolder(service, recovery.folderName).Ok?
       && copier.sourceFolderId == recovery.sourceFolder
       && copier.targetFolderId == CreateTargetFolder(service, recovery.folderName).value
       && copier.batchSize == CopyChunkSize
       && copier.hierarchy.folders == recovery.folders && copier.hierarchy.shortFolderIdIndex == map[])
    ensures passes <= maxPasses && (!completed && copier != null ==> passes == maxPasses)
    ensures completed ==>
      (copier != null && copier.itemIdsToCopy == []
       && progress.Value() == Progress(false, activity, "Recovery completed"))
    ensures (forall f, n, o :: service.findItem(f, n, o).Err?) ==> !completed
  {
    completed, passes, copier := false, 0, null;
    if recovery.sourceFolder == "" || recovery.folderName == "" {
      return;
    }
    progress.ReportProgress(activity, "Creating target folder");
    var targetFolder := CreateTargetFolder(service, recovery.folderName);
    if targetFolder.Err? {
      return;
    }
    progress.ReportProgress(activity, "Folder created");
    var hierarchy := new FolderHierarchy(mailbox, recovery.folders);
    var c := new ItemCopier(hierarchy, recovery.sourceFolder, targetFolder.value, CopyChunkSize);
    copier := c;
    while !completed && passes < maxPasses
      invariant passes <= maxPasses
      invariant c.sourceFolderId == recovery.sourceFolder && c.targetFolderId == targetFolder.value
      invariant c.batchSize == CopyChunkSize && c.hierarchy == hierarchy
      invariant hierarchy.folders == recovery.folders && hierarchy.shortFolderIdIndex == map[]
      invariant completed ==> c.itemIdsToCopy == []
      invariant (forall f, n, o :: service.findItem(f, n, o).Err?) ==> !completed
      decreases maxPasses - passes
    {
      var before := c.State();
      var r := c.Process(service);
      c.ProcessCompletion(before, service);
      c.ProcessLogExtends(before, service);
      passes := passes + 1;
      if r.Ok? {
        completed := r.value;
      }
      RelayStatuses(progress, activity, c.statusLog[|before.statusLog|..]);
    }
    if completed {
      progress.ReportProgress(activity, "Recovery completed");
      progress.ReportComplete(activity);
    }
  }
}
