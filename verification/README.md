# SSVAutoUpdater decision logic in Dafny

This project models the decision logic of SSVAutoUpdater, a tool that keeps a
local file tree in step with a remote one. It covers both variants in the
repository:

- **`ssvau::AutoUpdater`** (`AutoUpdater.cpp`). It normalises the server and
  local listings by stripping the server data folder and the local folder from
  paths. It reconciles them into the download plan `toDownload`, dropping files
  the server excludes by exact path or by folder prefix. It then executes the
  plan one entry at a time: an existing file is backed up to `<path>.bak` and
  then overwritten with the fetched body.
- **The standalone program** (`src/SSVAutoUpdater/main.cpp`). It maps each
  remote path to a local path: the remote data folder is removed, then each
  target's `remoteFolder → localFolder` replacement is applied in order.
  Entries whose local path is a folder are skipped. For the rest it records
  whether the file exists and its local digest. The intended behaviour is to
  download every entry that is missing locally, or that has a different digest
  and is not an "only new" file, backing an existing file up under `_BACKUP/`
  first. The model builds each record by field name (`Updater.Entry`), so it
  has that intended behaviour. The code at `src/SSVAutoUpdater/main.cpp:136`
  fills the record positionally with two fields swapped, which defeats both
  the digest comparison and the destination path; the "## Findings" row
  records that and models it separately (`Updater.EntryAsWritten`).

Modules:

| file | module | models |
|---|---|---|
| optional.dfy | `Optional` | the `Option` type used for lookups and fetch results |
| strings.dfy | `Strings` | prefix test and replace-all, the assumed meaning of `startsWith`, `replace` and `ssvu::getReplaced` |
| filesystem.dfy | `FileSystem` | the file system as a map of path to contents plus a set of folders; effects (guarded folder creation, file write) applied in order; the fetch-result convention |
| autoupdater.dfy | `AutoUpdater` | `runGetServerData` normalisation, the `run` reconciliation, `startGetFile`, `startDownload`, `run` |
| updater.dfy | `Updater` | `loadRemoteScript`, `processDownloads`, `download`, `downloadFileContents` and the run `main` performs |
| scenarios.dfy | `Scenarios` | concrete runs: a folder exclusion, and an excluded file that only the library variant leaves alone |

A download step is a list of effects applied first to last. "The backup is
written before the destination is overwritten" is therefore a statement about
positions in that list (`GetFileEffects`, `DownloadEffects`). The state after
the step is then stated about the resulting map (`StartGetFileWrites`,
`DownloadWrites`).

Inputs that the source obtains through I/O are parameters:

- `fetch: string -> Option<string>` is the HTTP GET. `None` means a non-OK status.
- `md5: string -> string` is the digest of file contents.
- `localScan` is the result of `getRecursiveFiles`.
- `folderNamesOf` is `getFolderNames`.

## Model

| member | source | states |
|---|---|---|
| `Strings.ReplaceAllAbsent` | AutoUpdater.cpp:44 | replacing a pattern that does not occur leaves the path unchanged |
| `Strings.ReplaceAllLeading` | src/SSVAutoUpdater/main.cpp:122 | a path that starts with a non-empty folder, which does not occur again, has just that leading folder replaced |
| `FileSystem.ApplyAllAppend` | AutoUpdater.cpp:219-225 | running two effect lists one after the other equals running their concatenation |
| `FileSystem.ApplyAllFrame` | AutoUpdater.cpp:187-210 | a path that no effect writes keeps its file (presence and contents) |
| `FileSystem.ApplyAllGrows` | AutoUpdater.cpp:200 | nothing is deleted: folders and files only accumulate |
| `FileSystem.ApplyAllCreates` | AutoUpdater.cpp:200 | every folder an effect list asks for exists afterwards (the `if(!exists) mkdir` guard never loses one) |
| `FileSystem.LastWriteWins` | AutoUpdater.cpp:205-207 | the last write to a path decides its contents |
| `AutoUpdater.NormalizeServer` | AutoUpdater.cpp:42-46 | one normalised entry per listed server file, in order, with its digest kept |
| `AutoUpdater.ScanLocal` | AutoUpdater.cpp:47-51 | one local entry per scanned file, with the digest of that file's current contents |
| `AutoUpdater.NormalizeServerStripsFolder` | AutoUpdater.cpp:44 | a server path `serverFolder + rest` is compared as `rest` |
| `AutoUpdater.ScanLocalStripsFolder` | AutoUpdater.cpp:49 | a local path `localFolder + rest` is compared as `rest` |
| `AutoUpdater.FindFrom` | AutoUpdater.cpp:89 | the search from a position returns the first entry with the path, or reports that none has it |
| `AutoUpdater.FindLocal` | AutoUpdater.cpp:88-89 | the lookup returns the first local entry with the same path, or None exactly when no local entry has it |
| `AutoUpdater.Decide` | AutoUpdater.cpp:89-128 | per server file: excluded gives nothing; absent locally gives `{path, false}`; present with an equal digest gives nothing; present with a different digest gives `{path, true}` |
| `AutoUpdater.Diff` | AutoUpdater.cpp:85-131 | the plan has at most one entry per server file; no entry's path is an excluded file or starts with an excluded folder; every entry's path is a server path |
| `AutoUpdater.DiffConcat` | AutoUpdater.cpp:86-131 | the plan of a concatenated listing is the concatenation of the plans, so server order is kept |
| `AutoUpdater.DiffSplit` | AutoUpdater.cpp:86-131 | each server file contributes at most one entry, at its own position between the plans of the files before and after it |
| `AutoUpdater.AbsentIsPlannedAsNew` | AutoUpdater.cpp:124-128 | a non-excluded server file with no local entry of its path is planned, in place, as `{path, existsLocally = false}` |
| `AutoUpdater.MismatchIsPlannedAsUpdate` | AutoUpdater.cpp:118-122 | a non-excluded server file whose local entry has a different digest is planned, in place, as `{path, existsLocally = true}` |
| `AutoUpdater.MatchIsNotPlanned` | AutoUpdater.cpp:111-117 | a server file whose local entry has the same digest contributes nothing: the plan is the plans of the files before and after it |
| `AutoUpdater.MatchUniqueIsAbsent` | AutoUpdater.cpp:111-117 | such a file whose path no other server file has leaves its path out of the plan |
| `AutoUpdater.GetFileEffects` | AutoUpdater.cpp:187-207 | the effects of one entry: the backup of the current contents comes first, and only when the file exists locally; the destination is overwritten last, with the fetched body or `""`; nothing else is written |
| `AutoUpdater.GetFileEffectsFolders` | AutoUpdater.cpp:200 | every folder of the entry's path is asked for |
| `AutoUpdater.StartGetFileWrites` | AutoUpdater.cpp:191-207 | afterwards the destination holds the fetched body (`""` on a non-OK response), and when the file existed `<path>.bak` holds the contents the destination had before |
| `AutoUpdater.StartGetFileFrame` | AutoUpdater.cpp:187-210 | one entry changes no file other than its destination and, when taken, its backup |
| `AutoUpdater.StartGetFileFolders` | AutoUpdater.cpp:200 | afterwards the folders `getFolderNames` returns exist under the local folder, and nothing that existed is gone |
| `AutoUpdater.FailedFetchEmptiesFile` | AutoUpdater.cpp:202-207 | a failed fetch still overwrites the destination, with the empty string |
| `AutoUpdater.StartDownloadFrame` | AutoUpdater.cpp:219-225 | running the plan leaves unchanged every file that no entry writes or backs up to |
| `AutoUpdater.StartDownloadDelivers` | AutoUpdater.cpp:219-225 | running the plan in order leaves a planned file with its fetched body, provided no later entry writes or backs up to it |
| `AutoUpdater.StartDownloadKeepsExisting` | AutoUpdater.cpp:219-225 | whatever exists before the plan runs exists after it |
| `AutoUpdater.RunOutcome` | AutoUpdater.cpp:73-139 | after a run the local folder exists, and every file that is neither destination nor backup of a planned entry is unchanged |
| `Updater.ApplyTargetsInOrder` | src/SSVAutoUpdater/main.cpp:125 | target replacements apply in target order, each to the result of the earlier ones |
| `Updater.LocalPathOfSingleTarget` | src/SSVAutoUpdater/main.cpp:122-125 | `dataFolder + remoteFolder + rest` is installed at `localFolder + rest` |
| `Updater.LoadRemoteScript` | src/SSVAutoUpdater/main.cpp:117-137 | every record comes from a listed file; with fields filled by name (`Updater.Entry`, not the positional order of line 136, see "## Findings") its local path is the mapped remote path and is not a folder; it exists locally exactly when that path is a file; its local digest is that file's digest, or empty |
| `Updater.LoadRemoteScriptConcat` | src/SSVAutoUpdater/main.cpp:117-137 | the records of a concatenated listing are the concatenated records, so listing order is kept |
| `Updater.LoadRemoteScriptSplit` | src/SSVAutoUpdater/main.cpp:128-136 | each listed file contributes its own record at its own position, or nothing when its local path is a folder |
| `Updater.ShouldDownload` | src/SSVAutoUpdater/main.cpp:144-149 | a record is downloaded exactly when the file is absent locally, or when the digests differ and the remote path is not an only-new file |
| `Updater.DecisionInputs` | src/SSVAutoUpdater/main.cpp:146-148 | the decision depends only on existence, digest equality and only-new membership |
| `Updater.CurrentFileSkipped` | src/SSVAutoUpdater/main.cpp:146 | with fields filled by name, a listed file whose local copy has the listed digest is not downloaded |
| `Updater.SwappedFieldsRedownload` | src/SSVAutoUpdater/main.cpp:136 | with fields filled positionally, such a file is still downloaded, and to a file named after the remote digest |
| `Updater.DownloadEffects` | src/SSVAutoUpdater/main.cpp:50-68 | the effects of `download`: the backup write to `_BACKUP/` + local path, taken only when the file exists, precedes the final overwrite of the local file with the fetched body or `""`; nothing else is written |
| `Updater.DownloadWrites` | src/SSVAutoUpdater/main.cpp:54-66 | afterwards the local file holds the body (`""` on a non-OK response), and when the file existed the backup holds its previous contents |
| `Updater.DownloadFrame` | src/SSVAutoUpdater/main.cpp:50-68 | a download changes no file other than the local file and, when taken, its backup |
| `Updater.DownloadFolders` | src/SSVAutoUpdater/main.cpp:57-63 | afterwards the folders `getFolderNames` returns exist, and, when a backup was taken, so do `_BACKUP/` and `_BACKUP/` + each of them |
| `Updater.ProcessDownloadsFrame` | src/SSVAutoUpdater/main.cpp:144-149 | a file that no downloaded record writes or backs up to is unchanged; skipped records write nothing |
| `Updater.ProcessDownloadsDelivers` | src/SSVAutoUpdater/main.cpp:144-149 | a downloaded record's local file ends with its fetched body, provided no later downloaded record touches it |
| `Updater.RunIgnoresExclusions` | src/SSVAutoUpdater/main.cpp:117-149 | two remote configurations that differ only in their exclusion lists give the same run |
| `Scenarios.ScenarioDecisions` | AutoUpdater.cpp:89-128 | the per-file decisions for changed `a.txt`, new `b.txt` and `docs/c.txt` under the excluded folder `docs/` |
| `Scenarios.ExcludedFolderScenario` | AutoUpdater.cpp:85-131 | for that listing the plan is exactly `[{a.txt, true}, {b.txt, false}]` |
| `Scenarios.ExclusionOnlyInLibrary` | src/SSVAutoUpdater/main.cpp:117-149 | a file the server excludes is dropped by the library's plan, while a run of the standalone program with the same exclusion in its remote configuration writes that file with the fetched body |

## Findings

| source | as written | input that shows it | evidently intended | confidence | as-written member | corrected member |
|---|---|---|---|---|---|---|
| src/SSVAutoUpdater/main.cpp:136 | The record is built positionally as `{localExists, remotePath, remoteMD5, localPath, localMD5}`. The fields are declared at line 25 as `{localExists, remotePath, localPath, remoteMD5, localMD5}`. So `localPath` receives the remote digest and `remoteMD5` receives the local path. | Listing entry `data/a.txt` with digest `X`, data folder `data/`, no targets, local file `a.txt` whose digest is `X`. The record compares `X` with `a.txt`, so the file is downloaded, and the download goes to a file named `X`. | Each field gets its own value. An up-to-date file is skipped, and a changed file is written to its own local path. | high; not executed | `Updater.SwappedFieldsRedownload` (on `Updater.EntryAsWritten`) | `Updater.CurrentFileSkipped` (on `Updater.Entry`, which the rest of the model uses) |

## Behaviour as the code has it

- The library variant has no "only new files" rule. Only the standalone program
  consults `onlyNewFiles`, and it checks the remote path as listed, before the
  data folder is removed.
- Neither variant guards the overwrite. A failed fetch leaves `""` as the body,
  and that is written over the destination (`FailedFetchEmptiesFile`). The
  backup, when taken, still holds the previous contents.
- Backups are taken whenever the file exists locally. No separate "requires
  backup" flag exists, and a backup write cannot fail in the model.
- The standalone program never reads the excluded-files or excluded-folders
  lists (`RunIgnoresExclusions`, `Scenarios.ExclusionOnlyInLibrary`).

## Left out

- HTTP transport (`sf::Http`, `getGetResponse`, `startGetFileContents`): the fetch is the parameter `fetch`, and only its result convention (body on OK, `""` otherwise) is modelled.
- JSON parsing and configuration loading (`getRootFromString`, `ssvuj::getFromString`, `getAs`, `loadLocalConfig`, `loadRemoteConfig`, the configuration half of `runGetServerData`, `startGetJsonRoot`): foreign libraries. Configuration and listings are plain input records.
- MD5 computation (`getMD5Hash`, `ssvu::Encryption::encrypt`): the parameter `md5`; digests are compared only for equality.
- Directory scanning (`getRecursiveFiles`, `getScan` inside `getFolderNames`): these live in the SSVUtils/SSVStart libraries and are not modelled. The scan result and the folder names are inputs.
- Threads (`memoryManager`, `ThreadWrapper`, `waitFor`, `terminateAll`): every started thread is awaited before the next step, so execution is the sequential fold `StartDownload`.
- Logging (`log`, `ssvu::lo`, `runDisplayData`, `saveLogToFile`) and `main` itself: output only.
- The utility functions `startsWith`, `contains`, `replace` and `ssvu::getReplaced` live in the SSVUtils/SSVStart libraries and are not modelled from their code. The model assumes a prefix test, sequence membership, and a left-to-right non-overlapping replace-all in which an empty pattern changes nothing. `Strings.ReplaceAllLeading`, `AutoUpdater.NormalizeServerStripsFolder`, `AutoUpdater.ScanLocalStripsFolder` and `Updater.LocalPathOfSingleTarget` all require that the folder does not occur again in the rest of the path, so they hold under first-occurrence replacement as well.
- `FileData`'s equality, used by `std::find`, lives outside these files and is not modelled from its code. It is assumed to compare paths only, as the comment at `AutoUpdater.cpp:88` says.
- `getFileContents` of a missing file is assumed to read as `""`.
- `ssvu::FileSystem::Path` is a plain string here; any normalisation that type performs is not modelled.
- Path aliasing: files and folders are keyed by their path string, so paths are assumed canonical (no `..` or `.` components, no repeated separators, no case-insensitive names). Two spellings of one file are two different keys. The frame lemmas `AutoUpdater.StartGetFileFrame`, `AutoUpdater.StartDownloadFrame`, `AutoUpdater.RunOutcome`, `Updater.DownloadFrame` and `Updater.ProcessDownloadsFrame` hold only under that assumption. For example, a target whose local folder is `../x/` makes `download` back up to `_BACKUP/../x/a.txt`, which on disk is `x/a.txt`.
- `getFolderNames` scans the file system under a path (`src/SSVAutoUpdater/main.cpp:32-35`). It is the parameter `folderNamesOf`, a function of the path alone, so the scan is assumed not to depend on the file-system state. In particular, the two calls in `download` (`src/SSVAutoUpdater/main.cpp:58` and `:63`) return the same list.
- File-system failures are not modelled: writing to a folder path, a missing parent folder, a full disk. Every write succeeds.
- Re-running after a complete run is not modelled: it would need the local scan and the digest function to agree with the written files.
- `RunOutcome`: states only that the local folder exists and that untouched files are unchanged. The per-file results of the plan are stated by `StartDownloadDelivers`.
