/**
 The library variant of the updater (`ssvau::AutoUpdater`): it normalises the
 server and local file listings, reconciles them into a download plan under
 the server's exclusion rules, and executes the plan one file at a time,
 backing up an existing file before overwriting it.

 Threads are left out: every thread the class starts is awaited before the
 next step, so execution is the sequential fold modelled here. The HTTP
 fetch is the parameter `fetch` (None for a non-OK response), the MD5 digest
 is the parameter `md5`, the recursive directory listing is the parameter
 `localScan`, and `getFolderNames` is the parameter `folderNamesOf`.
 */
module AutoUpdater {
  import opened Optional
  import opened Strings
  import opened FileSystem

  /** A file of a listing: its fingerprint and its path relative to the tree root. */
  datatype FileData = FileData(md5: string, path: string)

  /** A plan entry: which file to fetch, and whether a local copy must be backed up. */
  datatype DownloadData = DownloadData(path: string, existsLocally: bool)

  /** One entry of the server's JSON file listing, before normalisation. */
  datatype Listed = Listed(path: string, md5: string)

  /** The server configuration document: data folder and exclusion lists. */
  datatype ServerConfig = ServerConfig(dataFolder: string, excludedFiles: seq<string>, excludedFolders: seq<string>)

  // ---------------------------------------------------------------------------
  // Normalisation (runGetServerData)
  // ---------------------------------------------------------------------------

  /** Every occurrence of `folder` in `path` removed. */
  function Strip(path: string, folder: string): string
  {
    ReplaceAll(path, folder, "")
  }

  /** The server listing with the server's data folder removed from every path. */
  function NormalizeServer(listing: seq<Listed>, serverFolder: string): (files: seq<FileData>)
    ensures |files| == |listing|
    ensures forall i :: 0 <= i < |listing| ==> files[i].md5 == listing[i].md5
  {
    seq(|listing|, i requires 0 <= i < |listing| => FileData(listing[i].md5, Strip(listing[i].path, serverFolder)))
  }

  /**
   The local listing: for each scanned file, the digest of its current contents
   and its path with the local folder removed.
   */
  function ScanLocal(fs: Fs, localScan: seq<string>, localFolder: string, md5: string -> string): (files: seq<FileData>)
    ensures |files| == |localScan|
    ensures forall i :: 0 <= i < |localScan| ==> files[i].md5 == md5(Contents(fs, localScan[i]))
  {
    seq(|localScan|, i requires 0 <= i < |localScan| => FileData(md5(Contents(fs, localScan[i])), Strip(localScan[i], localFolder)))
  }

  /**
   A server path made of the data folder and a remainder in which the folder
   does not occur again is compared by that remainder alone.
   */
  lemma NormalizeServerStripsFolder(listing: seq<Listed>, serverFolder: string, i: int, rest: string)
    requires 0 <= i < |listing|
    requires |serverFolder| > 0 && !Occurs(rest, serverFolder)
    requires listing[i].path == serverFolder + rest
    ensures NormalizeServer(listing, serverFolder)[i] == FileData(listing[i].md5, rest)
  {
    ReplaceAllLeading(serverFolder, rest, "");
  }

  /** The same for a scanned local path and the local folder. */
  lemma ScanLocalStripsFolder(fs: Fs, localScan: seq<string>, localFolder: string, md5: string -> string, i: int, rest: string)
    requires 0 <= i < |localScan|
    requires |localFolder| > 0 && !Occurs(rest, localFolder)
    requires localScan[i] == localFolder + rest
    ensures ScanLocal(fs, localScan, localFolder, md5)[i] == FileData(md5(Contents(fs, localScan[i])), rest)
  {
    ReplaceAllLeading(localFolder, rest, "");
  }

  // ---------------------------------------------------------------------------
  // Reconciliation (run)
  // ---------------------------------------------------------------------------

  /** The server excludes exactly this path. */
  predicate ExcludedFile(path: string, excludedFiles: seq<string>)
  {
    path in excludedFiles
  }

  /** The server excludes a folder this path starts with. */
  predicate ExcludedFolder(path: string, excludedFolders: seq<string>)
  {
    exists f :: f in excludedFolders && StartsWith(path, f)
  }

  predicate Excluded(path: string, cfg: ServerConfig)
  {
    ExcludedFile(path, cfg.excludedFiles) || ExcludedFolder(path, cfg.excludedFolders)
  }

  /** Index `i` holds the first local entry whose path is `path`. */
  predicate FirstWithPath(localFiles: seq<FileData>, path: string, i: int)
  {
    && 0 <= i < |localFiles|
    && localFiles[i].path == path
    && forall j :: 0 <= j < i ==> localFiles[j].path != path
  }

  /** `std::find` from index `from` on, with entries compared by path. */
  function FindFrom(localFiles: seq<FileData>, path: string, from: nat): (r: Option<nat>)
    requires from <= |localFiles|
    requires forall j :: 0 <= j < from ==> localFiles[j].path != path
    ensures r.Some? ==> FirstWithPath(localFiles, path, r.value)
    ensures r.None? ==> forall j :: 0 <= j < |localFiles| ==> localFiles[j].path != path
    decreases |localFiles| - from
  {
    if from == |localFiles| then None
    else if localFiles[from].path == path then Some(from)
    else FindFrom(localFiles, path, from + 1)
  }

  /** The first local entry with the given path, if any. */
  function FindLocal(localFiles: seq<FileData>, path: string): (r: Option<nat>)
    ensures r.Some? ==> FirstWithPath(localFiles, path, r.value)
    ensures r.None? ==> forall j :: 0 <= j < |localFiles| ==> localFiles[j].path != path
  {
    FindFrom(localFiles, path, 0)
  }

  /**
   What one server file contributes to the plan: nothing when excluded or
   current, otherwise a download flagged with whether a local copy exists.
   */
  function Decide(serverFile: FileData, localFiles: seq<FileData>, cfg: ServerConfig): (r: Option<DownloadData>)
    ensures Excluded(serverFile.path, cfg) ==> r == None
    ensures r.Some? ==> r.value.path == serverFile.path && !Excluded(serverFile.path, cfg)
    ensures !Excluded(serverFile.path, cfg) && (forall j :: 0 <= j < |localFiles| ==> localFiles[j].path != serverFile.path)
      ==> r == Some(DownloadData(serverFile.path, false))
    ensures forall i :: !Excluded(serverFile.path, cfg) && FirstWithPath(localFiles, serverFile.path, i) ==>
      (r == None <==> localFiles[i].md5 == serverFile.md5) &&
      (r.Some? ==> r.value.existsLocally)
  {
    if Excluded(serverFile.path, cfg) then None
    else
      match FindLocal(localFiles, serverFile.path)
      case None => Some(DownloadData(serverFile.path, false))
      case Some(i) =>
        if localFiles[i].md5 == serverFile.md5 then None
        else Some(DownloadData(serverFile.path, true))
  }

  /** An optional plan entry as a list of zero or one entries. */
  function Emit(o: Option<DownloadData>): seq<DownloadData>
  {
    if o.Some? then [o.value] else []
  }

  /**
   The plan `toDownload`: the server files walked in order, each contributing
   what `Decide` says.
   */
  function Diff(serverFiles: seq<FileData>, localFiles: seq<FileData>, cfg: ServerConfig): (plan: seq<DownloadData>)
    ensures |plan| <= |serverFiles|
    ensures forall d :: d in plan ==> !ExcludedFile(d.path, cfg.excludedFiles)
    ensures forall d, f :: d in plan && f in cfg.excludedFolders ==> !StartsWith(d.path, f)
    ensures forall d :: d in plan ==> exists s :: s in serverFiles && s.path == d.path
    decreases |serverFiles|
  {
    if |serverFiles| == 0 then []
    else
      var n := |serverFiles| - 1;
      var before := Diff(serverFiles[..n], localFiles, cfg);
      assert forall s :: s in serverFiles[..n] ==> s in serverFiles;
      before + Emit(Decide(serverFiles[n], localFiles, cfg))
  }

  /** The plan of a concatenated listing is the concatenation of the plans. */
  lemma {:induction false} DiffConcat(a: seq<FileData>, b: seq<FileData>, localFiles: seq<FileData>, cfg: ServerConfig)
    ensures Diff(a + b, localFiles, cfg) == Diff(a, localFiles, cfg) + Diff(b, localFiles, cfg)
    decreases |b|
  {
    if |b| == 0 {
      assert a + b == a;
    } else {
      var n := |b| - 1;
      assert (a + b)[..|a + b| - 1] == a + b[..n];
      assert (a + b)[|a + b| - 1] == b[n];
      DiffConcat(a, b[..n], localFiles, cfg);
    }
  }

  /** A single server file's plan is its own contribution. */
  lemma DiffSingle(s: FileData, localFiles: seq<FileData>, cfg: ServerConfig)
    ensures Diff([s], localFiles, cfg) == Emit(Decide(s, localFiles, cfg))
  {
    assert [s][..0] == [];
  }

  /**
   Each server file contributes at most one entry, at its own position: the
   plan is the plan of the files before it, then its own contribution, then
   the plan of the files after it.
   */
  lemma DiffSplit(serverFiles: seq<FileData>, localFiles: seq<FileData>, cfg: ServerConfig, i: int)
    requires 0 <= i < |serverFiles|
    ensures Diff(serverFiles, localFiles, cfg)
      == Diff(serverFiles[..i], localFiles, cfg)
       + Emit(Decide(serverFiles[i], localFiles, cfg))
       + Diff(serverFiles[i + 1..], localFiles, cfg)
  {
    var pre, mid, post := serverFiles[..i], [serverFiles[i]], serverFiles[i + 1..];
    assert serverFiles == pre + (mid + post);
    DiffConcat(pre, mid + post, localFiles, cfg);
    DiffConcat(mid, post, localFiles, cfg);
    DiffSingle(serverFiles[i], localFiles, cfg);
  }

  /** A non-excluded server file with no local entry of its path is planned as new, in place. */
  lemma AbsentIsPlannedAsNew(serverFiles: seq<FileData>, localFiles: seq<FileData>, cfg: ServerConfig, i: int)
    requires 0 <= i < |serverFiles|
    requires !Excluded(serverFiles[i].path, cfg)
    requires forall j :: 0 <= j < |localFiles| ==> localFiles[j].path != serverFiles[i].path
    ensures Diff(serverFiles, localFiles, cfg)
      == Diff(serverFiles[..i], localFiles, cfg)
       + [DownloadData(serverFiles[i].path, false)]
       + Diff(serverFiles[i + 1..], localFiles, cfg)
  {
    DiffSplit(serverFiles, localFiles, cfg, i);
  }

  /**
   A non-excluded server file whose local entry has a different digest is
   planned as an update of an existing file, in place.
   */
  lemma MismatchIsPlannedAsUpdate(serverFiles: seq<FileData>, localFiles: seq<FileData>, cfg: ServerConfig, i: int, j: int)
    requires 0 <= i < |serverFiles|
    requires !Excluded(serverFiles[i].path, cfg)
    requires FirstWithPath(localFiles, serverFiles[i].path, j)
    requires localFiles[j].md5 != serverFiles[i].md5
    ensures Diff(serverFiles, localFiles, cfg)
      == Diff(serverFiles[..i], localFiles, cfg)
       + [DownloadData(serverFiles[i].path, true)]
       + Diff(serverFiles[i + 1..], localFiles, cfg)
  {
    DiffSplit(serverFiles, localFiles, cfg, i);
  }

  /** A server file whose local entry has the same digest contributes nothing. */
  lemma MatchIsNotPlanned(serverFiles: seq<FileData>, localFiles: seq<FileData>, cfg: ServerConfig, i: int, j: int)
    requires 0 <= i < |serverFiles|
    requires FirstWithPath(localFiles, serverFiles[i].path, j)
    requires localFiles[j].md5 == serverFiles[i].md5
    ensures Diff(serverFiles, localFiles, cfg)
      == Diff(serverFiles[..i], localFiles, cfg) + Diff(serverFiles[i + 1..], localFiles, cfg)
  {
    var before, after := Diff(serverFiles[..i], localFiles, cfg), Diff(serverFiles[i + 1..], localFiles, cfg);
    DiffSplit(serverFiles, localFiles, cfg, i);
    MatchDecidesNothing(serverFiles[i], localFiles, cfg, j);
    assert before + [] + after == before + after;
  }

  /**
   A server file whose local entry has the same digest, and whose path no
   other server file has, leaves its path out of the plan.
   */
  lemma MatchUniqueIsAbsent(serverFiles: seq<FileData>, localFiles: seq<FileData>, cfg: ServerConfig, i: int, j: int)
    requires 0 <= i < |serverFiles|
    requires FirstWithPath(localFiles, serverFiles[i].path, j)
    requires localFiles[j].md5 == serverFiles[i].md5
    requires forall k :: 0 <= k < |serverFiles| && k != i ==> serverFiles[k].path != serverFiles[i].path
    ensures forall d :: d in Diff(serverFiles, localFiles, cfg) ==> d.path != serverFiles[i].path
  {
    MatchIsNotPlanned(serverFiles, localFiles, cfg, i, j);
    OthersPlanOtherPaths(serverFiles, localFiles, cfg, i);
  }

  /** A server file whose first local entry has its digest contributes nothing. */
  lemma MatchDecidesNothing(serverFile: FileData, localFiles: seq<FileData>, cfg: ServerConfig, j: int)
    requires FirstWithPath(localFiles, serverFile.path, j)
    requires localFiles[j].md5 == serverFile.md5
    ensures Emit(Decide(serverFile, localFiles, cfg)) == []
  {
  }

  /** The files around a server file with a unique path plan no entry with that path. */
  lemma OthersPlanOtherPaths(serverFiles: seq<FileData>, localFiles: seq<FileData>, cfg: ServerConfig, i: int)
    requires 0 <= i < |serverFiles|
    requires forall k :: 0 <= k < |serverFiles| && k != i ==> serverFiles[k].path != serverFiles[i].path
    ensures forall d :: d in Diff(serverFiles[..i], localFiles, cfg) + Diff(serverFiles[i + 1..], localFiles, cfg) ==>
      d.path != serverFiles[i].path
  {
    var before, after := Diff(serverFiles[..i], localFiles, cfg), Diff(serverFiles[i + 1..], localFiles, cfg);
    forall d: DownloadData | d in before + after
      ensures d.path != serverFiles[i].path
    {
      if d in before {
        var k := PlannedPathSource(serverFiles[..i], localFiles, cfg, d);
        assert serverFiles[k].path == d.path;
      } else {
        var k := PlannedPathSource(serverFiles[i + 1..], localFiles, cfg, d);
        assert serverFiles[i + 1 + k].path == d.path;
      }
    }
  }

  /** The position of a server file that a plan entry's path comes from. */
  lemma PlannedPathSource(serverFiles: seq<FileData>, localFiles: seq<FileData>, cfg: ServerConfig, d: DownloadData) returns (k: int)
    requires d in Diff(serverFiles, localFiles, cfg)
    ensures 0 <= k < |serverFiles| && serverFiles[k].path == d.path
  {
    var s :| s in serverFiles && s.path == d.path;
    k :| 0 <= k < |serverFiles| && serverFiles[k] == s;
  }

  // ---------------------------------------------------------------------------
  // Executing the plan (startGetFile, startDownload)
  // ---------------------------------------------------------------------------

  /** The local file a plan entry is written to. */
  function Dest(localFolder: string, d: DownloadData): string
  {
    localFolder + d.path
  }

  /** Where the previous contents of that file are kept. */
  function BackupOf(localFolder: string, d: DownloadData): string
  {
    localFolder + d.path + ".bak"
  }

  /**
   The effects of processing one plan entry, in order: the backup of the
   current contents when the file exists locally, the folders `getFolderNames` returns,
   then the destination overwritten with the fetched body (`""` when the
   fetch failed; there is no guard against that).
   */
  function GetFileEffects(fs: Fs, localFolder: string, d: DownloadData, folderNames: seq<string>, fetched: Option<string>): (es: seq<Effect>)
    ensures |es| > 0
    ensures d.existsLocally ==> es[0] == WriteFile(BackupOf(localFolder, d), Contents(fs, Dest(localFolder, d)))
    ensures es[|es| - 1] == WriteFile(Dest(localFolder, d), Body(fetched))
    ensures forall k :: 0 <= k < |es| && es[k].WriteFile? ==> k == |es| - 1 || (k == 0 && d.existsLocally)
  {
    var backup := if d.existsLocally then [WriteFile(BackupOf(localFolder, d), Contents(fs, Dest(localFolder, d)))] else [];
    backup + CreateFolders(localFolder, folderNames) + [WriteFile(Dest(localFolder, d), Body(fetched))]
  }

  /** Every folder of the path is asked for. */
  lemma GetFileEffectsFolders(fs: Fs, localFolder: string, d: DownloadData, folderNames: seq<string>, fetched: Option<string>, name: string)
    requires name in folderNames
    ensures CreateFolder(localFolder + name) in GetFileEffects(fs, localFolder, d, folderNames, fetched)
  {
    CreateFoldersCover(localFolder, folderNames, name);
  }

  /** `startGetFile`: one plan entry processed against the file system. */
  function StartGetFile(fs: Fs, serverFolder: string, localFolder: string, d: DownloadData,
                        fetch: string -> Option<string>, folderNamesOf: string -> seq<string>): Fs
  {
    ApplyAll(fs, GetFileEffects(fs, localFolder, d, folderNamesOf(d.path), fetch(serverFolder + d.path)))
  }

  /**
   After one entry the destination holds the fetched body (or `""`), and,
   when the file existed locally, the backup holds the contents the
   destination had before.
   */
  lemma StartGetFileWrites(fs: Fs, serverFolder: string, localFolder: string, d: DownloadData,
                           fetch: string -> Option<string>, folderNamesOf: string -> seq<string>)
    ensures var r := StartGetFile(fs, serverFolder, localFolder, d, fetch, folderNamesOf);
      && Dest(localFolder, d) in r.files
      && r.files[Dest(localFolder, d)] == Body(fetch(serverFolder + d.path))
      && (d.existsLocally ==>
            BackupOf(localFolder, d) in r.files && r.files[BackupOf(localFolder, d)] == Contents(fs, Dest(localFolder, d)))
  {
    var es := GetFileEffects(fs, localFolder, d, folderNamesOf(d.path), fetch(serverFolder + d.path));
    var dest, backup := Dest(localFolder, d), BackupOf(localFolder, d);
    assert |backup| == |dest| + 4;
    LastWriteWins(fs, es, |es| - 1, dest, Body(fetch(serverFolder + d.path)));
    if d.existsLocally {
      LastWriteWins(fs, es, 0, backup, Contents(fs, dest));
    }
  }

  /** One entry changes no file other than its destination and, when taken, its backup. */
  lemma StartGetFileFrame(fs: Fs, serverFolder: string, localFolder: string, d: DownloadData,
                          fetch: string -> Option<string>, folderNamesOf: string -> seq<string>, p: string)
    requires !Touches(localFolder, d, p)
    ensures SameFile(fs, StartGetFile(fs, serverFolder, localFolder, d, fetch, folderNamesOf), p)
  {
    var es := GetFileEffects(fs, localFolder, d, folderNamesOf(d.path), fetch(serverFolder + d.path));
    ApplyAllFrame(fs, es, p);
  }

  /** After one entry the folders of its path exist, and nothing that existed is gone. */
  lemma StartGetFileFolders(fs: Fs, serverFolder: string, localFolder: string, d: DownloadData,
                            fetch: string -> Option<string>, folderNamesOf: string -> seq<string>)
    ensures var r := StartGetFile(fs, serverFolder, localFolder, d, fetch, folderNamesOf);
      && (forall name :: name in folderNamesOf(d.path) ==> Exists(r, localFolder + name))
      && fs.folders <= r.folders
      && fs.files.Keys <= r.files.Keys
  {
    var es := GetFileEffects(fs, localFolder, d, folderNamesOf(d.path), fetch(serverFolder + d.path));
    forall name | name in folderNamesOf(d.path)
      ensures Exists(ApplyAll(fs, es), localFolder + name)
    {
      GetFileEffectsFolders(fs, localFolder, d, folderNamesOf(d.path), fetch(serverFolder + d.path), name);
      ApplyAllCreates(fs, es, localFolder + name);
    }
    ApplyAllGrows(fs, es);
  }

  /** A failed fetch still overwrites the destination, with the empty string. */
  lemma FailedFetchEmptiesFile(fs: Fs, serverFolder: string, localFolder: string, d: DownloadData,
                               fetch: string -> Option<string>, folderNamesOf: string -> seq<string>)
    requires fetch(serverFolder + d.path) == None
    ensures var r := StartGetFile(fs, serverFolder, localFolder, d, fetch, folderNamesOf);
      Dest(localFolder, d) in r.files && r.files[Dest(localFolder, d)] == ""
  {
    StartGetFileWrites(fs, serverFolder, localFolder, d, fetch, folderNamesOf);
  }

  /** `p` is the destination of `d`, or its backup when one is taken. */
  predicate Touches(localFolder: string, d: DownloadData, p: string)
  {
    p == Dest(localFolder, d) || (d.existsLocally && p == BackupOf(localFolder, d))
  }

  /** `startDownload`: the plan entries processed one after the other, in plan order. */
  function StartDownload(fs: Fs, serverFolder: string, localFolder: string, plan: seq<DownloadData>,
                         fetch: string -> Option<string>, folderNamesOf: string -> seq<string>): Fs
    decreases |plan|
  {
    if |plan| == 0 then fs
    else
      var n := |plan| - 1;
      StartGetFile(StartDownload(fs, serverFolder, localFolder, plan[..n], fetch, folderNamesOf),
                   serverFolder, localFolder, plan[n], fetch, folderNamesOf)
  }

  /** A file that no plan entry writes or backs up to is left as it was. */
  lemma {:induction false} StartDownloadFrame(fs: Fs, serverFolder: string, localFolder: string, plan: seq<DownloadData>,
                                              fetch: string -> Option<string>, folderNamesOf: string -> seq<string>, p: string)
    requires forall k :: 0 <= k < |plan| ==> !Touches(localFolder, plan[k], p)
    ensures SameFile(fs, StartDownload(fs, serverFolder, localFolder, plan, fetch, folderNamesOf), p)
    decreases |plan|
  {
    if |plan| > 0 {
      var n := |plan| - 1;
      var prev := StartDownload(fs, serverFolder, localFolder, plan[..n], fetch, folderNamesOf);
      StartDownloadFrame(fs, serverFolder, localFolder, plan[..n], fetch, folderNamesOf, p);
      assert !Touches(localFolder, plan[n], p);
      StartGetFileFrame(prev, serverFolder, localFolder, plan[n], fetch, folderNamesOf, p);
    }
  }

  /**
   A planned file that no later entry writes or backs up to ends up holding
   its fetched body (or `""` when the fetch failed).
   */
  lemma {:induction false} StartDownloadDelivers(fs: Fs, serverFolder: string, localFolder: string, plan: seq<DownloadData>,
                                                 fetch: string -> Option<string>, folderNamesOf: string -> seq<string>, k: int)
    requires 0 <= k < |plan|
    requires forall j :: k < j < |plan| ==> !Touches(localFolder, plan[j], Dest(localFolder, plan[k]))
    ensures var r := StartDownload(fs, serverFolder, localFolder, plan, fetch, folderNamesOf);
      Dest(localFolder, plan[k]) in r.files && r.files[Dest(localFolder, plan[k])] == Body(fetch(serverFolder + plan[k].path))
    decreases |plan|
  {
    var n := |plan| - 1;
    var prev := StartDownload(fs, serverFolder, localFolder, plan[..n], fetch, folderNamesOf);
    if k < n {
      StartDownloadDelivers(fs, serverFolder, localFolder, plan[..n], fetch, folderNamesOf, k);
      assert !Touches(localFolder, plan[n], Dest(localFolder, plan[k]));
      StartGetFileFrame(prev, serverFolder, localFolder, plan[n], fetch, folderNamesOf, Dest(localFolder, plan[k]));
    } else {
      StartGetFileWrites(prev, serverFolder, localFolder, plan[n], fetch, folderNamesOf);
    }
  }

  // ---------------------------------------------------------------------------
  // The whole run
  // ---------------------------------------------------------------------------

  /** The plan a run computes from the server listing and the local scan. */
  function RunPlan(fs: Fs, cfg: ServerConfig, serverListing: seq<Listed>, localFolder: string,
                   localScan: seq<string>, md5: string -> string): seq<DownloadData>
  {
    Diff(NormalizeServer(serverListing, cfg.dataFolder), ScanLocal(fs, localScan, localFolder, md5), cfg)
  }

  /**
   `run`: create the local folder if it is missing, reconcile, and execute the
   plan when it is not empty.
   */
  function Run(fs: Fs, cfg: ServerConfig, serverListing: seq<Listed>, localFolder: string, localScan: seq<string>,
               md5: string -> string, fetch: string -> Option<string>, folderNamesOf: string -> seq<string>): Fs
  {
    var ready := Apply(fs, CreateFolder(localFolder));
    var plan := RunPlan(fs, cfg, serverListing, localFolder, localScan, md5);
    if |plan| == 0 then ready
    else StartDownload(ready, cfg.dataFolder, localFolder, plan, fetch, folderNamesOf)
  }

  /**
   After a run the local folder exists, and every file that is neither the
   destination nor the backup of a planned entry is unchanged.
   */
  lemma RunOutcome(fs: Fs, cfg: ServerConfig, serverListing: seq<Listed>, localFolder: string, localScan: seq<string>,
                   md5: string -> string, fetch: string -> Option<string>, folderNamesOf: string -> seq<string>, p: string)
    requires forall d :: d in RunPlan(fs, cfg, serverListing, localFolder, localScan, md5) ==> !Touches(localFolder, d, p)
    ensures var r := Run(fs, cfg, serverListing, localFolder, localScan, md5, fetch, folderNamesOf);
      Exists(r, localFolder) && SameFile(fs, r, p)
  {
    var ready := Apply(fs, CreateFolder(localFolder));
    var plan := RunPlan(fs, cfg, serverListing, localFolder, localScan, md5);
    assert Exists(ready, localFolder);
    if |plan| > 0 {
      StartDownloadFrame(ready, cfg.dataFolder, localFolder, plan, fetch, folderNamesOf, p);
      StartDownloadKeepsExisting(ready, cfg.dataFolder, localFolder, plan, fetch, folderNamesOf, localFolder);
    }
  }

  /** Whatever exists before executing a plan exists after it. */
  lemma {:induction false} StartDownloadKeepsExisting(fs: Fs, serverFolder: string, localFolder: string, plan: seq<DownloadData>,
                                                      fetch: string -> Option<string>, folderNamesOf: string -> seq<string>, p: string)
    requires Exists(fs, p)
    ensures Exists(StartDownload(fs, serverFolder, localFolder, plan, fetch, folderNamesOf), p)
    decreases |plan|
  {
    if |plan| > 0 {
      var n := |plan| - 1;
      var prev := StartDownload(fs, serverFolder, localFolder, plan[..n], fetch, folderNamesOf);
      StartDownloadKeepsExisting(fs, serverFolder, localFolder, plan[..n], fetch, folderNamesOf, p);
      StartGetFileFolders(prev, serverFolder, localFolder, plan[n], fetch, folderNamesOf);
    }
  }
}
