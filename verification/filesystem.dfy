/**
 An abstract local file system and the effects the updater performs on it.
 A file system is a map from path to file contents plus the set of folder
 paths. A download step is modelled as a list of effects applied in order, so
 that "the backup is written before the destination is overwritten" is a
 statement about positions in that list.
 */
module FileSystem {
  import opened Optional

  datatype Fs = Fs(files: map<string, string>, folders: set<string>)

  /** `exists(p)`: true for a file or a folder. */
  predicate Exists(fs: Fs, p: string)
  {
    p in fs.files || p in fs.folders
  }

  /** `getFileContents(p)`; a missing file reads as the empty string. */
  function Contents(fs: Fs, p: string): string
  {
    if p in fs.files then fs.files[p] else ""
  }

  /**
   The body a fetch leaves behind: the response body on an OK status, the
   empty string otherwise (the caller's string keeps its initial `""`).
   */
  function Body(response: Option<string>): string
  {
    response.GetOr("")
  }

  datatype Effect =
    | CreateFolder(path: string)
    | WriteFile(path: string, contents: string)

  /** `e` writes the file at `p`. */
  predicate Writes(e: Effect, p: string)
  {
    e.WriteFile? && e.path == p
  }

  /**
   One effect. Folder creation is always guarded by `if(!exists(x))` in the
   updater, so creating something that already exists changes nothing.
   Writing a file (an `ofstream` opened in binary mode) replaces its contents.
   */
  function Apply(fs: Fs, e: Effect): Fs
  {
    match e
    case CreateFolder(p) => if Exists(fs, p) then fs else fs.(folders := fs.folders + {p})
    case WriteFile(p, c) => fs.(files := fs.files[p := c])
  }

  /** The effects applied one after the other, first to last. */
  function ApplyAll(fs: Fs, es: seq<Effect>): Fs
    decreases |es|
  {
    if |es| == 0 then fs else ApplyAll(Apply(fs, es[0]), es[1..])
  }

  /** The file at `p` is the same in `a` and `b`: present in both with equal contents, or in neither. */
  predicate SameFile(a: Fs, b: Fs, p: string)
  {
    && (p in a.files <==> p in b.files)
    && (p in a.files ==> a.files[p] == b.files[p])
  }

  /** One folder-creation effect per name, each under `prefix`, in order. */
  function CreateFolders(prefix: string, names: seq<string>): (es: seq<Effect>)
    ensures |es| == |names|
    ensures forall k :: 0 <= k < |es| ==> es[k] == CreateFolder(prefix + names[k])
  {
    seq(|names|, k requires 0 <= k < |names| => CreateFolder(prefix + names[k]))
  }

  /** Every name gets its folder-creation effect. */
  lemma CreateFoldersCover(prefix: string, names: seq<string>, name: string)
    requires name in names
    ensures CreateFolder(prefix + name) in CreateFolders(prefix, names)
  {
    var k :| 0 <= k < |names| && names[k] == name;
    assert CreateFolders(prefix, names)[k] == CreateFolder(prefix + name);
  }

  /** Applying two effect lists in sequence is applying their concatenation. */
  lemma {:induction false} ApplyAllAppend(fs: Fs, a: seq<Effect>, b: seq<Effect>)
    ensures ApplyAll(fs, a + b) == ApplyAll(ApplyAll(fs, a), b)
    decreases |a|
  {
    if |a| == 0 {
      assert a + b == b;
    } else {
      assert (a + b)[1..] == a[1..] + b;
      ApplyAllAppend(Apply(fs, a[0]), a[1..], b);
    }
  }

  /**
   A path no effect writes keeps its file (present or absent, and the same
   contents).
   */
  lemma {:induction false} ApplyAllFrame(fs: Fs, es: seq<Effect>, p: string)
    requires forall k :: 0 <= k < |es| ==> !Writes(es[k], p)
    ensures SameFile(fs, ApplyAll(fs, es), p)
    decreases |es|
  {
    if |es| > 0 {
      assert !Writes(es[0], p);
      ApplyAllFrame(Apply(fs, es[0]), es[1..], p);
    }
  }

  /** Nothing is ever deleted: folders and file paths only accumulate. */
  lemma {:induction false} ApplyAllGrows(fs: Fs, es: seq<Effect>)
    ensures fs.folders <= ApplyAll(fs, es).folders
    ensures fs.files.Keys <= ApplyAll(fs, es).files.Keys
    decreases |es|
  {
    if |es| > 0 {
      ApplyAllGrows(Apply(fs, es[0]), es[1..]);
    }
  }

  /** Every folder an effect list asks for exists afterwards. */
  lemma {:induction false} ApplyAllCreates(fs: Fs, es: seq<Effect>, p: string)
    requires CreateFolder(p) in es
    ensures Exists(ApplyAll(fs, es), p)
    decreases |es|
  {
    if es[0] == CreateFolder(p) {
      var fs1 := Apply(fs, es[0]);
      assert Exists(fs1, p);
      ApplyAllGrows(fs1, es[1..]);
    } else {
      assert CreateFolder(p) in es[1..];
      ApplyAllCreates(Apply(fs, es[0]), es[1..], p);
    }
  }

  /** The last write to a path decides its contents. */
  lemma LastWriteWins(fs: Fs, es: seq<Effect>, k: int, p: string, c: string)
    requires 0 <= k < |es|
    requires es[k] == WriteFile(p, c)
    requires forall j :: k < j < |es| ==> !Writes(es[j], p)
    ensures p in ApplyAll(fs, es).files && ApplyAll(fs, es).files[p] == c
  {
    assert es == es[..k + 1] + es[k + 1..];
    ApplyAllAppend(fs, es[..k + 1], es[k + 1..]);
    assert es[..k + 1] == es[..k] + [es[k]];
    ApplyAllAppend(fs, es[..k], [es[k]]);
    var mid := ApplyAll(fs, es[..k + 1]);
    assert p in mid.files && mid.files[p] == c;
    ApplyAllFrame(mid, es[k + 1..], p);
  }
}
