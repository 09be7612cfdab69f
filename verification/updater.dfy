/**
 The standalone updater program (`src/SSVAutoUpdater/main.cpp`): it maps each
 entry of the remote listing to a local path through the configured targets,
 records whether and with which digest the file exists locally, decides per
 entry whether to download, and downloads in listing order, backing up an
 existing file under `_BACKUP/` first.

 The configuration documents are plain input records; the HTTP fetch is the
 parameter `fetch` (None for a non-OK response), the MD5 digest of file
 contents is the parameter `md5`, and the recursive folder scan
 `getFolderNames` is the parameter `folderNamesOf`. Unlike the library
 variant, this program never consults the excluded-files or excluded-folders
 lists.
 */
module Updater {
  import opened Optional
  import opened Strings
  import opened FileSystem

  /** A remote folder and the local folder it is installed to. */
  datatype Target = Target(remoteFolder: string, localFolder: string)

  /** One entry of the remote JSON listing. */
  datatype RemoteFile = RemoteFile(path: string, md5: string)

  /** The remote configuration document. */
  datatype RemoteConfig = RemoteConfig(dataFolder: string, excludedFiles: seq<string>,
                                       excludedFolders: seq<string>, onlyNewFiles: seq<string>)

  /**
   What the program knows about one remote file, with the fields in their
   declared order. The program fills these positionally in the order
   (localExists, remotePath, remoteMD5, localPath, localMD5), which puts the
   remote digest into `localPath` and the local path into `remoteMD5`; the
   model fills them by name (`Entry`) and records the positional version as
   `EntryAsWritten`.
   */
  datatype DownloadData = DownloadData(localExists: bool, remotePath: string, localPath: string,
                                       remoteMD5: string, localMD5: string)

  /** The folder backups are written under. */
  const BackupFolder: string := "_BACKUP/"

  // ---------------------------------------------------------------------------
  // Path mapping and the per-entry record (loadRemoteScript)
  // ---------------------------------------------------------------------------

  /** Each target's remote folder replaced by its local folder, in target order. */
  function ApplyTargets(path: string, targets: seq<Target>): string
    decreases |targets|
  {
    if |targets| == 0 then path
    else ApplyTargets(ReplaceAll(path, targets[0].remoteFolder, targets[0].localFolder), targets[1..])
  }

  /** The local path of a remote path: the data folder removed, then the targets applied. */
  function LocalPathOf(remotePath: string, dataFolder: string, targets: seq<Target>): string
  {
    ApplyTargets(ReplaceAll(remotePath, dataFolder, ""), targets)
  }

  /** A later target is applied to the result of all earlier ones. */
  lemma {:induction false} ApplyTargetsInOrder(path: string, targets: seq<Target>, t: Target)
    ensures ApplyTargets(path, targets + [t]) == ReplaceAll(ApplyTargets(path, targets), t.remoteFolder, t.localFolder)
    decreases |targets|
  {
    if |targets| == 0 {
      assert targets + [t] == [t];
      assert [t][1..] == [];
    } else {
      assert (targets + [t])[1..] == targets[1..] + [t];
      ApplyTargetsInOrder(ReplaceAll(path, targets[0].remoteFolder, targets[0].localFolder), targets[1..], t);
    }
  }

  /**
   A remote path made of the data folder, a target's remote folder and a
   remainder is installed at the target's local folder plus that remainder.
   */
  lemma LocalPathOfSingleTarget(dataFolder: string, t: Target, rest: string)
    requires |dataFolder| > 0 && |t.remoteFolder| > 0
    requires !Occurs(t.remoteFolder + rest, dataFolder)
    requires !Occurs(rest, t.remoteFolder)
    ensures LocalPathOf(dataFolder + t.remoteFolder + rest, dataFolder, [t]) == t.localFolder + rest
  {
    assert dataFolder + t.remoteFolder + rest == dataFolder + (t.remoteFolder + rest);
    ReplaceAllLeading(dataFolder, t.remoteFolder + rest, "");
    assert ReplaceAll(dataFolder + t.remoteFolder + rest, dataFolder, "") == t.remoteFolder + rest;
    ReplaceAllLeading(t.remoteFolder, rest, t.localFolder);
    assert [t][1..] == [];
    assert ApplyTargets(t.remoteFolder + rest, [t]) == ApplyTargets(t.localFolder + rest, []);
  }

  /** The local digest: of the current contents when the path exists, otherwise empty. */
  function LocalMD5(fs: Fs, localPath: string, md5: string -> string): string
  {
    if Exists(fs, localPath) then md5(Contents(fs, localPath)) else ""
  }

  /** The record for one remote file, every field filled by name. */
  function Entry(f: RemoteFile, localPath: string, fs: Fs, md5: string -> string): DownloadData
  {
    DownloadData(localExists := Exists(fs, localPath), remotePath := f.path, localPath := localPath,
                 remoteMD5 := f.md5, localMD5 := LocalMD5(fs, localPath, md5))
  }

  /** The record as the program builds it: arguments in positional order, two of them swapped. */
  function EntryAsWritten(f: RemoteFile, localPath: string, fs: Fs, md5: string -> string): DownloadData
  {
    DownloadData(Exists(fs, localPath), f.path, f.md5, localPath, LocalMD5(fs, localPath, md5))
  }

  /**
   `loadRemoteScript`: one record per listed file, in listing order, except
   for files whose local path is a folder.
   */
  function LoadRemoteScript(listing: seq<RemoteFile>, dataFolder: string, targets: seq<Target>,
                            fs: Fs, md5: string -> string): (datas: seq<DownloadData>)
    ensures |datas| <= |listing|
    ensures forall d :: d in datas ==> RemoteFile(d.remotePath, d.remoteMD5) in listing
    ensures forall d :: d in datas ==>
      && d.localPath == LocalPathOf(d.remotePath, dataFolder, targets)
      && d.localPath !in fs.folders
      && d.localExists == (d.localPath in fs.files)
      && d.localMD5 == (if d.localExists then md5(fs.files[d.localPath]) else "")
    decreases |listing|
  {
    if |listing| == 0 then []
    else
      var n := |listing| - 1;
      var before := LoadRemoteScript(listing[..n], dataFolder, targets, fs, md5);
      assert forall f :: f in listing[..n] ==> f in listing;
      before + LoadOne(listing[n], dataFolder, targets, fs, md5)
  }

  /** What one listed file contributes: nothing when its local path is a folder. */
  function LoadOne(f: RemoteFile, dataFolder: string, targets: seq<Target>, fs: Fs, md5: string -> string): seq<DownloadData>
  {
    var localPath := LocalPathOf(f.path, dataFolder, targets);
    if localPath in fs.folders then [] else [Entry(f, localPath, fs, md5)]
  }

  /** Records of a concatenated listing are the concatenated records: listing order is kept. */
  lemma {:induction false} LoadRemoteScriptConcat(a: seq<RemoteFile>, b: seq<RemoteFile>, dataFolder: string,
                                                  targets: seq<Target>, fs: Fs, md5: string -> string)
    ensures LoadRemoteScript(a + b, dataFolder, targets, fs, md5)
         == LoadRemoteScript(a, dataFolder, targets, fs, md5) + LoadRemoteScript(b, dataFolder, targets, fs, md5)
    decreases |b|
  {
    if |b| == 0 {
      assert a + b == a;
    } else {
      var n := |b| - 1;
      assert (a + b)[..|a + b| - 1] == a + b[..n];
      assert (a + b)[|a + b| - 1] == b[n];
      LoadRemoteScriptConcat(a, b[..n], dataFolder, targets, fs, md5);
    }
  }

  /** A single listed file's records are its own contribution. */
  lemma LoadRemoteScriptSingle(f: RemoteFile, dataFolder: string, targets: seq<Target>, fs: Fs, md5: string -> string)
    ensures LoadRemoteScript([f], dataFolder, targets, fs, md5) == LoadOne(f, dataFolder, targets, fs, md5)
  {
    assert [f][..0] == [];
  }

  /**
   Each listed file contributes its own record, at its own position, unless
   its local path is a folder, in which case it contributes nothing.
   */
  lemma LoadRemoteScriptSplit(listing: seq<RemoteFile>, dataFolder: string, targets: seq<Target>,
                              fs: Fs, md5: string -> string, i: int)
    requires 0 <= i < |listing|
    ensures LoadRemoteScript(listing, dataFolder, targets, fs, md5)
         == LoadRemoteScript(listing[..i], dataFolder, targets, fs, md5)
          + LoadOne(listing[i], dataFolder, targets, fs, md5)
          + LoadRemoteScript(listing[i + 1..], dataFolder, targets, fs, md5)
  {
    var pre, mid, post := listing[..i], [listing[i]], listing[i + 1..];
    assert listing == pre + (mid + post);
    LoadRemoteScriptConcat(pre, mid + post, dataFolder, targets, fs, md5);
    LoadRemoteScriptConcat(mid, post, dataFolder, targets, fs, md5);
    LoadRemoteScriptSingle(listing[i], dataFolder, targets, fs, md5);
  }

  // ---------------------------------------------------------------------------
  // The download decision (processDownloads)
  // ---------------------------------------------------------------------------

  /**
   Whether a record is downloaded: skipped when the local file is current,
   skipped when it exists and its remote path is an only-new file, downloaded
   otherwise.
   */
  function ShouldDownload(d: DownloadData, onlyNewFiles: seq<string>): (r: bool)
    ensures r <==> !d.localExists || (d.localMD5 != d.remoteMD5 && d.remotePath !in onlyNewFiles)
  {
    if d.localExists && d.localMD5 == d.remoteMD5 then false
    else if d.localExists && d.remotePath in onlyNewFiles then false
    else true
  }

  /**
   The decision looks at nothing but whether the file exists, whether the two
   digests are equal, and whether the remote path is an only-new file.
   */
  lemma DecisionInputs(d1: DownloadData, d2: DownloadData, onlyNew1: seq<string>, onlyNew2: seq<string>)
    requires d1.localExists == d2.localExists
    requires (d1.localMD5 == d1.remoteMD5) == (d2.localMD5 == d2.remoteMD5)
    requires (d1.remotePath in onlyNew1) == (d2.remotePath in onlyNew2)
    ensures ShouldDownload(d1, onlyNew1) == ShouldDownload(d2, onlyNew2)
  {
  }

  /** A listed file whose local copy is current is not downloaded. */
  lemma CurrentFileSkipped(f: RemoteFile, localPath: string, fs: Fs, md5: string -> string, onlyNewFiles: seq<string>)
    requires localPath in fs.files
    requires md5(fs.files[localPath]) == f.md5
    ensures !ShouldDownload(Entry(f, localPath, fs, md5), onlyNewFiles)
  {
  }

  /**
   With the fields as the program fills them, a listed file whose local copy
   is current is still downloaded (whenever its path differs from its digest
   and it is not an only-new file), and the download goes to a file named
   after the remote digest.
   */
  lemma SwappedFieldsRedownload(f: RemoteFile, localPath: string, fs: Fs, md5: string -> string, onlyNewFiles: seq<string>)
    requires localPath in fs.files
    requires md5(fs.files[localPath]) == f.md5
    requires localPath != f.md5
    requires f.path !in onlyNewFiles
    ensures var d := EntryAsWritten(f, localPath, fs, md5);
      ShouldDownload(d, onlyNewFiles) && d.localPath == f.md5 && d.remoteMD5 == localPath
  {
  }

  // ---------------------------------------------------------------------------
  // Downloading (download, downloadFileContents)
  // ---------------------------------------------------------------------------

  /** The backup copy of a record's local file. */
  function BackupOf(d: DownloadData): string
  {
    BackupFolder + d.localPath
  }

  /** `p` is the local file of `d`, or its backup when one is taken. */
  predicate Touches(d: DownloadData, p: string)
  {
    p == d.localPath || (d.localExists && p == BackupOf(d))
  }

  /**
   The effects of `download`, in order: when the file exists, the backup
   folder, its sub-folders and the backup copy of the current contents; then
   the folders `getFolderNames` returns, and last the local file overwritten with the
   fetched body (`""` when the fetch failed; there is no guard against that).
   */
  function DownloadEffects(fs: Fs, d: DownloadData, folderNames: seq<string>, fetched: Option<string>): (es: seq<Effect>)
    ensures |es| > 0
    ensures es[|es| - 1] == WriteFile(d.localPath, Body(fetched))
    ensures d.localExists ==> exists k :: 0 <= k < |es| - 1 && es[k] == WriteFile(BackupOf(d), Contents(fs, d.localPath))
    ensures forall k :: 0 <= k < |es| && es[k].WriteFile? ==>
      k == |es| - 1 || (d.localExists && es[k] == WriteFile(BackupOf(d), Contents(fs, d.localPath)))
  {
    var backup :=
      if d.localExists then
        [CreateFolder(BackupFolder)] + CreateFolders(BackupFolder, folderNames)
        + [WriteFile(BackupOf(d), Contents(fs, d.localPath))]
      else [];
    var es := backup + CreateFolders("", folderNames) + [WriteFile(d.localPath, Body(fetched))];
    assert d.localExists ==> es[|folderNames| + 1] == WriteFile(BackupOf(d), Contents(fs, d.localPath));
    es
  }

  /** `download`: one record processed against the file system. */
  function Download(fs: Fs, d: DownloadData, hostMainFolder: string,
                    fetch: string -> Option<string>, folderNamesOf: string -> seq<string>): Fs
  {
    ApplyAll(fs, DownloadEffects(fs, d, folderNamesOf(d.localPath), fetch(hostMainFolder + d.remotePath)))
  }

  /**
   After a download the local file holds the fetched body (or `""`), and,
   when it existed, the backup holds the contents it had before.
   */
  lemma DownloadWrites(fs: Fs, d: DownloadData, hostMainFolder: string,
                       fetch: string -> Option<string>, folderNamesOf: string -> seq<string>)
    ensures var r := Download(fs, d, hostMainFolder, fetch, folderNamesOf);
      && d.localPath in r.files
      && r.files[d.localPath] == Body(fetch(hostMainFolder + d.remotePath))
      && (d.localExists ==> BackupOf(d) in r.files && r.files[BackupOf(d)] == Contents(fs, d.localPath))
  {
    var es := DownloadEffects(fs, d, folderNamesOf(d.localPath), fetch(hostMainFolder + d.remotePath));
    assert |BackupOf(d)| == |d.localPath| + 8;
    LastWriteWins(fs, es, |es| - 1, d.localPath, Body(fetch(hostMainFolder + d.remotePath)));
    if d.localExists {
      var k :| 0 <= k < |es| - 1 && es[k] == WriteFile(BackupOf(d), Contents(fs, d.localPath));
      LastWriteWins(fs, es, k, BackupOf(d), Contents(fs, d.localPath));
    }
  }

  /** A download changes no file other than the local file and, when taken, its backup. */
  lemma DownloadFrame(fs: Fs, d: DownloadData, hostMainFolder: string,
                      fetch: string -> Option<string>, folderNamesOf: string -> seq<string>, p: string)
    requires !Touches(d, p)
    ensures SameFile(fs, Download(fs, d, hostMainFolder, fetch, folderNamesOf), p)
  {
    var es := DownloadEffects(fs, d, folderNamesOf(d.localPath), fetch(hostMainFolder + d.remotePath));
    ApplyAllFrame(fs, es, p);
  }

  /**
   After a download the folders `getFolderNames` returns exist, and so do the backup
   folder and its sub-folders when a backup was taken.
   */
  lemma DownloadFolders(fs: Fs, d: DownloadData, hostMainFolder: string,
                        fetch: string -> Option<string>, folderNamesOf: string -> seq<string>)
    ensures var r := Download(fs, d, hostMainFolder, fetch, folderNamesOf);
      && (forall f :: f in folderNamesOf(d.localPath) ==> Exists(r, f))
      && (d.localExists ==> Exists(r, BackupFolder))
      && (d.localExists ==> forall f :: f in folderNamesOf(d.localPath) ==> Exists(r, BackupFolder + f))
  {
    var names := folderNamesOf(d.localPath);
    var es := DownloadEffects(fs, d, names, fetch(hostMainFolder + d.remotePath));
    var backup :=
      if d.localExists then
        [CreateFolder(BackupFolder)] + CreateFolders(BackupFolder, names)
        + [WriteFile(BackupOf(d), Contents(fs, d.localPath))]
      else [];
    assert es == backup + CreateFolders("", names) + [WriteFile(d.localPath, Body(fetch(hostMainFolder + d.remotePath)))];
    forall f | f in names
      ensures Exists(ApplyAll(fs, es), f)
    {
      CreateFoldersCover("", names, f);
      assert "" + f == f;
      ApplyAllCreates(fs, es, f);
    }
    if d.localExists {
      assert es[0] == CreateFolder(BackupFolder);
      ApplyAllCreates(fs, es, BackupFolder);
      forall f | f in names
        ensures Exists(ApplyAll(fs, es), BackupFolder + f)
      {
        CreateFoldersCover(BackupFolder, names, f);
        ApplyAllCreates(fs, es, BackupFolder + f);
      }
    }
  }

  /** `processDownloads`: the records visited in order, each downloaded when the decision says so. */
  function ProcessDownloads(fs: Fs, datas: seq<DownloadData>, onlyNewFiles: seq<string>, hostMainFolder: string,
                            fetch: string -> Option<string>, folderNamesOf: string -> seq<string>): Fs
    decreases |datas|
  {
    if |datas| == 0 then fs
    else
      var n := |datas| - 1;
      var prev := ProcessDownloads(fs, datas[..n], onlyNewFiles, hostMainFolder, fetch, folderNamesOf);
      if ShouldDownload(datas[n], onlyNewFiles) then Download(prev, datas[n], hostMainFolder, fetch, folderNamesOf)
      else prev
  }

  /** A file that no downloaded record writes or backs up to is left as it was. */
  lemma {:induction false} ProcessDownloadsFrame(fs: Fs, datas: seq<DownloadData>, onlyNewFiles: seq<string>, hostMainFolder: string,
                                                 fetch: string -> Option<string>, folderNamesOf: string -> seq<string>, p: string)
    requires forall k :: 0 <= k < |datas| && ShouldDownload(datas[k], onlyNewFiles) ==> !Touches(datas[k], p)
    ensures SameFile(fs, ProcessDownloads(fs, datas, onlyNewFiles, hostMainFolder, fetch, folderNamesOf), p)
    decreases |datas|
  {
    if |datas| > 0 {
      var n := |datas| - 1;
      var prev := ProcessDownloads(fs, datas[..n], onlyNewFiles, hostMainFolder, fetch, folderNamesOf);
      ProcessDownloadsFrame(fs, datas[..n], onlyNewFiles, hostMainFolder, fetch, folderNamesOf, p);
      if ShouldDownload(datas[n], onlyNewFiles) {
        DownloadFrame(prev, datas[n], hostMainFolder, fetch, folderNamesOf, p);
      }
    }
  }

  /**
   A downloaded record whose local file no later downloaded record writes or
   backs up to ends up holding its fetched body (or `""`).
   */
  lemma {:induction false} ProcessDownloadsDelivers(fs: Fs, datas: seq<DownloadData>, onlyNewFiles: seq<string>, hostMainFolder: string,
                                                    fetch: string -> Option<string>, folderNamesOf: string -> seq<string>, k: int)
    requires 0 <= k < |datas|
    requires ShouldDownload(datas[k], onlyNewFiles)
    requires forall j :: k < j < |datas| && ShouldDownload(datas[j], onlyNewFiles) ==> !Touches(datas[j], datas[k].localPath)
    ensures var r := ProcessDownloads(fs, datas, onlyNewFiles, hostMainFolder, fetch, folderNamesOf);
      datas[k].localPath in r.files && r.files[datas[k].localPath] == Body(fetch(hostMainFolder + datas[k].remotePath))
    decreases |datas|
  {
    var n := |datas| - 1;
    var prev := ProcessDownloads(fs, datas[..n], onlyNewFiles, hostMainFolder, fetch, folderNamesOf);
    if k < n {
      ProcessDownloadsDelivers(fs, datas[..n], onlyNewFiles, hostMainFolder, fetch, folderNamesOf, k);
      if ShouldDownload(datas[n], onlyNewFiles) {
        DownloadFrame(prev, datas[n], hostMainFolder, fetch, folderNamesOf, datas[k].localPath);
      }
    } else {
      DownloadWrites(prev, datas[n], hostMainFolder, fetch, folderNamesOf);
    }
  }

  // ---------------------------------------------------------------------------
  // The whole run (main)
  // ---------------------------------------------------------------------------

  /** The records and downloads of one run, after both configurations are loaded. */
  function Run(fs: Fs, cfg: RemoteConfig, targets: seq<Target>, listing: seq<RemoteFile>, hostMainFolder: string,
               md5: string -> string, fetch: string -> Option<string>, folderNamesOf: string -> seq<string>): Fs
  {
    var datas := LoadRemoteScript(listing, cfg.dataFolder, targets, fs, md5);
    ProcessDownloads(fs, datas, cfg.onlyNewFiles, hostMainFolder, fetch, folderNamesOf)
  }

  /** Two remote configurations that differ only in their exclusion lists give the same run. */
  lemma RunIgnoresExclusions(fs: Fs, cfg1: RemoteConfig, cfg2: RemoteConfig, targets: seq<Target>, listing: seq<RemoteFile>,
                             hostMainFolder: string, md5: string -> string, fetch: string -> Option<string>,
                             folderNamesOf: string -> seq<string>)
    requires cfg1.dataFolder == cfg2.dataFolder && cfg1.onlyNewFiles == cfg2.onlyNewFiles
    ensures Run(fs, cfg1, targets, listing, hostMainFolder, md5, fetch, folderNamesOf)
         == Run(fs, cfg2, targets, listing, hostMainFolder, md5, fetch, folderNamesOf)
  {
  }
}
