/**
 Concrete runs of the two variants, side by side: a reconciliation of three
 server files under a folder exclusion, and one listed file that the library
 variant excludes but the standalone program downloads anyway.
 */
module Scenarios {
  import opened FileSystem
  import opened Strings
  import opened Optional
  import AutoUpdater
  import Updater

  /**
   Local `a.txt` has digest X; the server lists `a.txt` with Y, `b.txt` (absent
   locally) and `docs/c.txt` under the excluded folder `docs/`. The plan
   updates `a.txt`, creates `b.txt`, and leaves `docs/c.txt` out.
   */
  lemma ExcludedFolderScenario()
    ensures AutoUpdater.Diff(
              [AutoUpdater.FileData("Y", "a.txt"), AutoUpdater.FileData("Z", "b.txt"), AutoUpdater.FileData("W", "docs/c.txt")],
              [AutoUpdater.FileData("X", "a.txt")],
              AutoUpdater.ServerConfig("", [], ["docs/"]))
         == [AutoUpdater.DownloadData("a.txt", true), AutoUpdater.DownloadData("b.txt", false)]
  {
    var local := [AutoUpdater.FileData("X", "a.txt")];
    var cfg := AutoUpdater.ServerConfig("", [], ["docs/"]);
    ScenarioDecisions();
    DiffOfThree(AutoUpdater.FileData("Y", "a.txt"), AutoUpdater.FileData("Z", "b.txt"), AutoUpdater.FileData("W", "docs/c.txt"), local, cfg);
  }

  /** The plan of a three-file listing, file by file. */
  lemma DiffOfThree(s0: AutoUpdater.FileData, s1: AutoUpdater.FileData, s2: AutoUpdater.FileData,
                    local: seq<AutoUpdater.FileData>, cfg: AutoUpdater.ServerConfig)
    ensures AutoUpdater.Diff([s0, s1, s2], local, cfg)
         == AutoUpdater.Emit(AutoUpdater.Decide(s0, local, cfg))
          + AutoUpdater.Emit(AutoUpdater.Decide(s1, local, cfg))
          + AutoUpdater.Emit(AutoUpdater.Decide(s2, local, cfg))
  {
    var a, b, c := [s0], [s1], [s2];
    var ea, eb, ec := AutoUpdater.Diff(a, local, cfg), AutoUpdater.Diff(b, local, cfg), AutoUpdater.Diff(c, local, cfg);
    AutoUpdater.DiffConcat(a + b, c, local, cfg);
    AutoUpdater.DiffConcat(a, b, local, cfg);
    assert AutoUpdater.Diff(a + b + c, local, cfg) == ea + eb + ec;
    assert a + b + c == [s0, s1, s2];
    AutoUpdater.DiffSingle(s0, local, cfg);
    AutoUpdater.DiffSingle(s1, local, cfg);
    AutoUpdater.DiffSingle(s2, local, cfg);
  }

  /** The three files' individual contributions in that scenario. */
  lemma ScenarioDecisions()
    ensures var local := [AutoUpdater.FileData("X", "a.txt")];
      var cfg := AutoUpdater.ServerConfig("", [], ["docs/"]);
      && AutoUpdater.Decide(AutoUpdater.FileData("Y", "a.txt"), local, cfg) == Some(AutoUpdater.DownloadData("a.txt", true))
      && AutoUpdater.Decide(AutoUpdater.FileData("Z", "b.txt"), local, cfg) == Some(AutoUpdater.DownloadData("b.txt", false))
      && AutoUpdater.Decide(AutoUpdater.FileData("W", "docs/c.txt"), local, cfg) == None
  {
    var local := [AutoUpdater.FileData("X", "a.txt")];
    var cfg := AutoUpdater.ServerConfig("", [], ["docs/"]);
    assert AutoUpdater.FirstWithPath(local, "a.txt", 0);
    assert !StartsWith("a.txt", "docs/") by { assert "a.txt"[..5][0] != "docs/"[0]; }
    assert !StartsWith("b.txt", "docs/") by { assert "b.txt"[..5][0] != "docs/"[0]; }
    assert StartsWith("docs/c.txt", "docs/") by { assert "docs/c.txt"[..5] == "docs/"; }
    assert !AutoUpdater.Excluded("a.txt", cfg);
    assert !AutoUpdater.Excluded("b.txt", cfg);
    assert AutoUpdater.Excluded("docs/c.txt", cfg);
  }

  /**
   A file the server lists as excluded: the library variant plans nothing for
   it, while a run of the standalone program, whose remote configuration
   excludes the same file, writes it with the fetched body all the same.
   */
  lemma ExclusionOnlyInLibrary(md5: string -> string, fetch: string -> Option<string>,
                               folderNamesOf: string -> seq<string>, body: string)
    requires fetch("a.txt") == Some(body)
    ensures AutoUpdater.Diff([AutoUpdater.FileData("X", "a.txt")], [], AutoUpdater.ServerConfig("", ["a.txt"], [])) == []
    ensures var r := Updater.Run(Fs(map[], {}), Updater.RemoteConfig("", ["a.txt"], [], []), [],
                                 [Updater.RemoteFile("a.txt", "X")], "", md5, fetch, folderNamesOf);
      "a.txt" in r.files && r.files["a.txt"] == body
  {
    var fs0, f := Fs(map[], {}), Updater.RemoteFile("a.txt", "X");
    var cfg := Updater.RemoteConfig("", ["a.txt"], [], []);
    assert Updater.LocalPathOf("a.txt", "", []) == "a.txt";
    Updater.LoadRemoteScriptSingle(f, "", [], fs0, md5);
    var datas := Updater.LoadRemoteScript([f], "", [], fs0, md5);
    assert datas == [Updater.Entry(f, "a.txt", fs0, md5)];
    assert Updater.ShouldDownload(datas[0], []);
    Updater.ProcessDownloadsDelivers(fs0, datas, [], "", fetch, folderNamesOf, 0);
    assert "" + datas[0].remotePath == "a.txt";
    assert Updater.Run(fs0, cfg, [], [f], "", md5, fetch, folderNamesOf)
        == Updater.ProcessDownloads(fs0, datas, [], "", fetch, folderNamesOf);
  }
}
