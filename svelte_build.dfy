/**
 * svelte.go, the build side: creating the Svelte workspace (`newSvelteEnv`),
 * and `compileSvelteFile`'s checks on its input, the bootstrap entry file
 * that imports the component, and the cleaning of the workspace sources
 * after a build. External programs (npx, npm, git, rollup) and the copies
 * into the workspace are outcomes given as parameters.
 */
module SvelteBuild {
  import opened Wrappers
  import opened GoStd
  import opened Utils
  import opened Svelte

  // ---------------------------------------------------------------------------
  // Workspace layout and error texts
  // ---------------------------------------------------------------------------

  const SvelteEnv := "./.svelte_env"
  const SvelteApp := "App.svelte"

  /** The workspace paths, as cleaned path elements. */
  const Env: Path := [".svelte_env"]
  const Workdir: Path := [".svelte_workdir"]
  const Src: Path := [".svelte_env", "src"]
  const MainTs: Path := [".svelte_env", "src", "main.ts"]
  const MainJs: Path := [".svelte_env", "src", "main.js"]
  const GlobalDts: Path := [".svelte_env", "src", "global.d.ts"]

  const ErrNpxNotFound := "svelte: npx is not available on your system, please install it"
  const ErrNpmI := "svelte: npm cannot install needed dependencies on your system, if you are on linux, may you can try to install it manually with 'npm i' in the directory ./.svelte_env"
  const ErrCustomMaints := "svelte: cannot write custom app in ./.svelte_env/src/main.ts"
  const ErrCustomGlobaldts := "svelte: cannot write custom global.d.ts"
  const ErrNoDefaultApp := "svelte: no default app found (App.svelte)"
  const ErrNpxRollupCompile := "svelte: cannot compile ./.svelte_env with rollup, you may have tried to use gs.Svelte('/path', '/your/app.svelte', ...) but it seems that app.svelte requires a parent file. To fix this, you can try using gs.AdvancedSvelte() instead"

  const TsTemplate := "https://github.com/4lxprime/svelteTsTemplate"
  const JsTemplate := "https://github.com/4lxprime/svelteJsTemplate"

  // ---------------------------------------------------------------------------
  // The bootstrap entry file
  // ---------------------------------------------------------------------------

  const BootstrapHead := "import App from './"
  const BootstrapTail := "'; export default new App({ target: document.body });"
  const GlobalDtsText := "/// <reference types=\"svelte\" />"

  /** The entry file text that mounts the component imported from `app`. */
  function Bootstrap(app: string): string
  {
    BootstrapHead + app + BootstrapTail
  }

  /** The entry file of a fresh or cleaned workspace imports ./App.svelte. */
  const DefaultBootstrap := Bootstrap(SvelteApp)

  /** Which component an entry file text imports, when it is a bootstrap text. */
  function ImportedApp(text: string): (r: Option<string>)
    ensures r.Some? ==> text == Bootstrap(r.value)
  {
    var h, t := |BootstrapHead|, |BootstrapTail|;
    if |text| >= h + t && HasPrefix(text, BootstrapHead) && HasSuffix(text, BootstrapTail) then
      Unframe(text, BootstrapHead, BootstrapTail);
      Some(text[h..|text| - t])
    else None
  }

  /** A text that starts with `head` and ends with `tail` is the two around its middle. */
  lemma Unframe(text: string, head: string, tail: string)
    requires |text| >= |head| + |tail| && HasPrefix(text, head) && HasSuffix(text, tail)
    ensures text == head + text[|head|..|text| - |tail|] + tail
  {
    assert text == text[..|head|] + text[|head|..|text| - |tail|] + text[|text| - |tail|..];
  }

  lemma BootstrapRoundTrip(app: string)
    ensures ImportedApp(Bootstrap(app)) == Some(app)
  {
    var text := Bootstrap(app);
    var h, t := |BootstrapHead|, |BootstrapTail|;
    assert text[..h] == BootstrapHead;
    assert text[|text| - t..] == BootstrapTail;
    assert text[h..|text| - t] == app;
  }

  /**
   * The import path of the bootstrap written when the component lives under
   * a root directory: App.svelte in the folder of the file as the caller
   * named it, with every backslash turned into a slash.
   */
  function CustomAppImport(oldFile: string): string
  {
    ReplaceAllChar(PathJoin([GoStd.Dir(oldFile), SvelteApp]), '\\', '/')
  }

  /** The custom import names a file App.svelte and holds no backslash. */
  lemma {:induction false} CustomAppImportNamesApp(oldFile: string)
    ensures var r := CustomAppImport(oldFile);
      '\\' !in r && (r == SvelteApp || HasSuffix(r, "/" + SvelteApp))
  {
    var d := GoStd.Dir(oldFile);
    JoinedNamesApp(d);
    var n := SvelteApp;
    assert '\\' !in n by {
      assert forall i :: 0 <= i < |n| ==> n[i] != '\\';
    }
    SlashesKeepSuffix(PathJoin([d, n]), n);
  }

  /** Turning backslashes into slashes leaves no backslash, and keeps a name
      without backslashes at the end. */
  lemma {:induction false} SlashesKeepSuffix(joined: string, n: string)
    requires '\\' !in n
    requires joined == n || HasSuffix(joined, "/" + n)
    ensures var r := ReplaceAllChar(joined, '\\', '/');
      '\\' !in r && (r == n || HasSuffix(r, "/" + n))
  {
    var r := ReplaceAllChar(joined, '\\', '/');
    assert forall i :: 0 <= i < |r| ==> r[i] != '\\';
    if joined == n {
      assert r == n;
    } else {
      var tail := "/" + n;
      assert '\\' !in tail by {
        assert forall i :: 1 <= i < |tail| ==> tail[i] == n[i - 1];
      }
      KeepSuffix(joined, tail);
    }
  }

  /** Replacing backslashes keeps a suffix that has none. */
  lemma {:induction false} KeepSuffix(s: string, t: string)
    requires HasSuffix(s, t) && '\\' !in t
    ensures HasSuffix(ReplaceAllChar(s, '\\', '/'), t)
  {
    var r := ReplaceAllChar(s, '\\', '/');
    var k := |s| - |t|;
    forall i | k <= i < |s|
      ensures r[i] == t[i - k]
    {
      assert s[k..][i - k] == s[i];
    }
    assert r[k..] == t;
  }

  lemma {:induction false} JoinedNamesApp(d: string)
    ensures var j := PathJoin([d, SvelteApp]); j == SvelteApp || HasSuffix(j, "/" + SvelteApp)
  {
    var n := SvelteApp;
    assert '/' !in n by { assert forall i :: 0 <= i < |n| ==> n[i] != '/'; }
    if d == "" {
      assert [d, n][1..] == [n];
      assert Resolve(n) == CleanFrom([], [n]) == [n];
      assert PathJoin([n]) == Clean(n) == Render([n]) == n;
    } else {
      assert Join([d, n], "/") == d + "/" + n;
      ResolveAppend(d, n);
      RenderAppend(Resolve(d), n);
    }
  }

  /** Appending an ordinary element to a non-empty path appends it to the cleaned elements. */
  lemma {:induction false} ResolveAppend(d: string, n: string)
    requires d != "" && n != "" && n != "." && n != ".." && '/' !in n
    ensures Resolve(d + "/" + n) == Resolve(d) + [n]
  {
    var s := d + "/" + n;
    assert s[0] == d[0];
    SplitAppend(d, n);
    var root: Path := if d[0] == '/' then ["/"] else [];
    CleanFromAppend(root, Split(d), n);
  }

  lemma {:induction false} SplitAppend(d: string, n: string)
    requires '/' !in n
    ensures Split(d + "/" + n) == Split(d) + [n]
    decreases |d|
  {
    if '/' !in d {
      SplitAppendLast(d, n);
    } else {
      var i := FirstSlash(d);
      SplitAppendStep(d, n, i);
      SplitAppend(d[i + 1..], n);
      ConsSnoc(d[..i], Split(d[i + 1..]), n);
    }
  }

  /** The last element needs no further split. */
  lemma SplitAppendLast(d: string, n: string)
    requires '/' !in n && '/' !in d
    ensures Split(d + "/" + n) == [d, n]
  {
    var s := d + "/" + n;
    assert s[|d|] == '/';
    assert s[..|d|] == d;
    FirstSlashIs(s, |d|);
    assert s[|d| + 1..] == n;
  }

  /** The first element of `d` is split off first. */
  lemma SplitAppendStep(d: string, n: string, i: nat)
    requires '/' in d && i == FirstSlash(d)
    ensures Split(d + "/" + n) == [d[..i]] + Split(d[i + 1..] + "/" + n)
  {
    var s := d + "/" + n;
    assert s[..i] == d[..i];
    FirstSlashIs(s, i);
    assert s[i + 1..] == d[i + 1..] + "/" + n;
  }

  lemma ConsSnoc<T>(x: T, xs: seq<T>, y: T)
    ensures [x] + (xs + [y]) == ([x] + xs) + [y]
  {
  }

  lemma {:induction false} FirstSlashIs(s: string, i: nat)
    requires i < |s| && s[i] == '/' && '/' !in s[..i]
    ensures FirstSlash(s) == i
  {
    if i > 0 {
      assert s[..i][0] == s[0];
      assert s[1..][..i - 1] == s[..i][1..];
      FirstSlashIs(s[1..], i - 1);
    }
  }

  lemma {:induction false} CleanFromAppend(acc: Path, elems: seq<string>, n: string)
    requires n != "" && n != "." && n != ".."
    ensures CleanFrom(acc, elems + [n]) == CleanFrom(acc, elems) + [n]
    decreases |elems|
  {
    if elems == [] {
      assert elems + [n] == [n];
    } else {
      assert (elems + [n])[0] == elems[0];
      assert (elems + [n])[1..] == elems[1..] + [n];
      var e := elems[0];
      if e == "" || e == "." {
        CleanFromAppend(acc, elems[1..], n);
      } else if e == ".." {
        if acc != [] && acc[|acc| - 1] != ".." && acc[|acc| - 1] != "/" {
          CleanFromAppend(acc[..|acc| - 1], elems[1..], n);
        } else if Rooted(acc) {
          CleanFromAppend(acc, elems[1..], n);
        } else {
          CleanFromAppend(acc + [".."], elems[1..], n);
        }
      } else {
        CleanFromAppend(acc + [e], elems[1..], n);
      }
    }
  }

  lemma RenderAppend(p: Path, n: string)
    requires n != "/"
    ensures var r := Render(p + [n]); r == n || HasSuffix(r, "/" + n)
  {
    if p == [] {
      assert p + [n] == [n];
    } else if p[0] == "/" {
      RootedRenderAppend(p, n);
    } else {
      RelativeRenderAppend(p, n);
    }
  }

  /** An absolute path renders as "/" followed by its other elements. */
  lemma RootedRenderAppend(p: Path, n: string)
    requires p != [] && p[0] == "/"
    ensures var r := Render(p + [n]); r == "/" + n || HasSuffix(r, "/" + n)
  {
    var q := p + [n];
    assert q[0] == "/" && q != ["/"] && q[1..] == p[1..] + [n];
    JoinAppend(p[1..], n);
    if p[1..] != [] {
      var j := Join(p[1..], "/");
      assert Render(q) == ("/" + j) + ("/" + n);
      ConcatAffixes("/" + j, "/" + n);
    }
  }

  /** A relative path renders as its elements joined by "/". */
  lemma RelativeRenderAppend(p: Path, n: string)
    requires p != [] && p[0] != "/"
    ensures HasSuffix(Render(p + [n]), "/" + n)
  {
    var q := p + [n];
    assert q[0] == p[0] && q != [] && q != ["/"];
    JoinAppend(p, n);
    var j := Join(p, "/");
    assert Render(q) == j + ("/" + n);
    ConcatAffixes(j, "/" + n);
  }

  lemma {:induction false} JoinAppend(q: seq<string>, n: string)
    ensures Join(q + [n], "/") == if q == [] then n else Join(q, "/") + "/" + n
  {
    if q == [] {
      assert q + [n] == [n];
    } else if |q| == 1 {
      assert (q + [n])[1..] == [n];
    } else {
      assert (q + [n])[1..] == q[1..] + [n];
      JoinAppend(q[1..], n);
    }
  }

  // ---------------------------------------------------------------------------
  // Writing the default bootstrap (newSvelteEnv and after a build)
  // ---------------------------------------------------------------------------

  /** The tree once the default bootstrap is written: main.ts and global.d.ts
      for a TypeScript workspace, main.js otherwise. */
  function DefaultWritten(m: map<Path, Node>, ts: bool): map<Path, Node>
  {
    if ts then m[MainTs := File(DefaultBootstrap)][GlobalDts := File(GlobalDtsText)]
    else m[MainJs := File(DefaultBootstrap)]
  }

  /**
   * The bootstrap writes of svelte.go:89-108, repeated at 289-308, on the
   * tree `m`: the error they end with, if any, and the tree they leave.
   * TypeScript writes main.ts then global.d.ts, JavaScript writes main.js;
   * a failed write keeps what was written before it.
   */
  function DefaultWrite(m: map<Path, Node>, ts: bool): (r: (Option<string>, map<Path, Node>))
    ensures r.0.None? <==> if ts then CanWrite(m, MainTs) && CanWrite(m, GlobalDts) else CanWrite(m, MainJs)
    ensures r.0.None? ==> r.1 == DefaultWritten(m, ts)
    ensures r.0.Some? ==> if ts && CanWrite(m, MainTs)
                          then r == (Some(ErrCustomGlobaldts), m[MainTs := File(DefaultBootstrap)])
                          else r == (Some(ErrCustomMaints), m)
  {
    if ts then
      if !CanWrite(m, MainTs) then (Some(ErrCustomMaints), m)
      else
        var m1 := m[MainTs := File(DefaultBootstrap)];
        if !CanWrite(m1, GlobalDts) then (Some(ErrCustomGlobaldts), m1)
        else (None, m1[GlobalDts := File(GlobalDtsText)])
    else if !CanWrite(m, MainJs) then (Some(ErrCustomMaints), m)
    else (None, m[MainJs := File(DefaultBootstrap)])
  }

  method WriteDefaultBootstrap(fs: FileSystem, ts: bool) returns (err: Option<string>)
    modifies fs
    ensures (err, fs.entries) == DefaultWrite(old(fs.entries), ts)
  {
    if ts {
      var e := fs.WriteFile(MainTs, DefaultBootstrap);
      if e.Some? {
        return Some(ErrCustomMaints);
      }
      e := fs.WriteFile(GlobalDts, GlobalDtsText);
      if e.Some? {
        return Some(ErrCustomGlobaldts);
      }
    } else {
      var e := fs.WriteFile(MainJs, DefaultBootstrap);
      if e.Some? {
        return Some(ErrCustomMaints);
      }
    }
    return None;
  }

  // ---------------------------------------------------------------------------
  // Cleaning src after a build, and restoring the bootstrap
  // ---------------------------------------------------------------------------

  /** The tree after a successful cleanDir of the workspace sources. */
  function Cleaned(m: map<Path, Node>): map<Path, Node>
  {
    WithDirs(RemovedUnder(m, Src), Src)
  }

  /**
   * After src is cleaned it is an empty directory: main.ts is not there, and
   * every bootstrap file can be written.
   */
  lemma CleanedSrcIsEmpty(m: map<Path, Node>)
    requires !FileAbove(m, Src)
    ensures StatOf(Cleaned(m), MainTs) == NotExist
    ensures CanWrite(Cleaned(m), MainTs) && CanWrite(Cleaned(m), MainJs)
    ensures CanWrite(Cleaned(m)[MainTs := File(DefaultBootstrap)], GlobalDts)
  {
    var c := Cleaned(m);
    CleanedShape(m);
    assert Src < MainTs && Src < MainJs && Src < GlobalDts;
    assert MainTs[..1] == Env && MainTs[..2] == Src;
    assert !FileAbove(c, MainTs);
  }

  /** The cleaned tree: src and the workspace folder are directories, and
      nothing lies beneath src. */
  lemma CleanedShape(m: map<Path, Node>)
    requires !FileAbove(m, Src)
    ensures var c := Cleaned(m);
      && Src in c && c[Src] == Dir && Env in c && c[Env].Dir?
      && (forall q :: q in c ==> !(Src < q))
  {
    var c := Cleaned(m);
    CleanDirLeavesEmptyDir(m, Src);
    assert Src[..1] == Env;
    if Env in m {
      assert !(Src <= Env);
      assert !m[Env].File?;
    } else {
      assert Env in Prefixes(Src);
      assert Env !in RemovedUnder(m, Src);
    }
  }

  /** The tree after cleaning src and writing the default bootstrap. */
  function RestoredSrc(m: map<Path, Node>, ts: bool): map<Path, Node>
  {
    DefaultWritten(Cleaned(m), ts)
  }

  /**
   * After the restore, src holds the entry file importing ./App.svelte
   * (and global.d.ts for TypeScript) and nothing else, and nothing outside
   * src has changed.
   */
  lemma RestoredSrcHoldsBootstrap(m: map<Path, Node>, ts: bool)
    requires !FileAbove(m, Src)
    ensures var r := RestoredSrc(m, ts);
      var main := if ts then MainTs else MainJs;
      && Src in r && r[Src] == Dir
      && main in r && r[main].File? && ImportedApp(r[main].data) == Some(SvelteApp)
      && (forall q :: q in r && Src < q ==> q == main || (ts && q == GlobalDts))
      && (forall q :: q in m && !(Src <= q) ==> q in r && r[q] == m[q])
  {
    RestoredEntry(m, ts);
    RestoredOnlyBootstrap(m, ts);
    RestoredOutside(m, ts);
  }

  lemma RestoredEntry(m: map<Path, Node>, ts: bool)
    requires !FileAbove(m, Src)
    ensures var r := RestoredSrc(m, ts);
      var main := if ts then MainTs else MainJs;
      && Src in r && r[Src] == Dir
      && main in r && r[main].File? && ImportedApp(r[main].data) == Some(SvelteApp)
  {
    CleanedShape(m);
    BootstrapRoundTrip(SvelteApp);
    SrcFiles();
  }

  lemma RestoredOnlyBootstrap(m: map<Path, Node>, ts: bool)
    requires !FileAbove(m, Src)
    ensures var r := RestoredSrc(m, ts);
      forall q :: q in r && Src < q ==> q == (if ts then MainTs else MainJs) || (ts && q == GlobalDts)
  {
    CleanedShape(m);
    var c := Cleaned(m);
    forall q | q in RestoredSrc(m, ts) && Src < q
      ensures q == (if ts then MainTs else MainJs) || (ts && q == GlobalDts)
    {
      assert q !in c;
    }
  }

  lemma RestoredOutside(m: map<Path, Node>, ts: bool)
    requires !FileAbove(m, Src)
    ensures var r := RestoredSrc(m, ts);
      forall q :: q in m && !(Src <= q) ==> q in r && r[q] == m[q]
  {
    CleanDirLeavesEmptyDir(m, Src);
    SrcFiles();
    var c := Cleaned(m);
    forall q | q in m && !(Src <= q)
      ensures q in RestoredSrc(m, ts) && RestoredSrc(m, ts)[q] == m[q]
    {
      assert q in c && c[q] == m[q];
      assert q != MainTs && q != MainJs && q != GlobalDts;
    }
  }

  /** The three bootstrap files are distinct and lie directly in src. */
  lemma SrcFiles()
    ensures Src < MainTs && Src < MainJs && Src < GlobalDts
    ensures MainTs != MainJs && MainTs != GlobalDts && MainJs != GlobalDts
  {
  }

  /**
   * svelte.go:283-308 as written: clean src, then test for src/main.ts to
   * choose the TypeScript bootstrap. The test comes after the clean, so it
   * always fails and main.js is written even in a TypeScript workspace.
   */
  method RestoreBootstrapAsWritten(fs: FileSystem) returns (err: Option<string>)
    modifies fs
    ensures err.Some? <==> FileAbove(old(fs.entries), Src)
    ensures err.Some? ==> err == Some(NotDirText) && fs.entries == old(fs.entries)
    ensures err.None? ==> fs.entries == RestoredSrc(old(fs.entries), false)
  {
    err := fs.CleanDir(Src);
    if err.Some? {
      return;
    }
    CleanedSrcIsEmpty(old(fs.entries));
    var ts := FileExists(fs.Stat(MainTs));
    err := WriteDefaultBootstrap(fs, ts);
  }

  /** The test svelte.go:289 makes after the clean never finds main.ts. */
  lemma TypeScriptTestAfterClean(m: map<Path, Node>)
    requires !FileAbove(m, Src)
    ensures !FileExists(StatOf(Cleaned(m), MainTs))
  {
    CleanedSrcIsEmpty(m);
  }

  /**
   * The restore as intended: whether the workspace is TypeScript is read
   * before src is cleaned, so a TypeScript workspace gets main.ts and
   * global.d.ts back.
   */
  method RestoreBootstrap(fs: FileSystem) returns (err: Option<string>)
    modifies fs
    ensures err.Some? <==> FileAbove(old(fs.entries), Src)
    ensures err.Some? ==> err == Some(NotDirText) && fs.entries == old(fs.entries)
    ensures err.None? ==> fs.entries == RestoredSrc(old(fs.entries), FileExists(StatOf(old(fs.entries), MainTs)))
  {
    var ts := FileExists(fs.Stat(MainTs));
    err := fs.CleanDir(Src);
    if err.Some? {
      return;
    }
    CleanedSrcIsEmpty(old(fs.entries));
    err := WriteDefaultBootstrap(fs, ts);
  }

  /** A TypeScript workspace keeps its TypeScript entry file through the corrected restore. */
  lemma TypeScriptKept(m: map<Path, Node>)
    requires !FileAbove(m, Src) && MainTs in m
    ensures var r := RestoredSrc(m, FileExists(StatOf(m, MainTs)));
      MainTs in r && MainJs !in r && ImportedApp(r[MainTs].data) == Some(SvelteApp)
  {
    RestoredSrcHoldsBootstrap(m, true);
    CleanDirLeavesEmptyDir(m, Src);
  }

  // ---------------------------------------------------------------------------
  // compileSvelteFile
  // ---------------------------------------------------------------------------

  /**
   * The outcomes of what compileSvelteFile and newSvelteEnv hand to other
   * programs or libraries: each Option is the error the step reports.
   * `template` is what the clone of the template repository adds to the
   * tree. The copies into the workspace are not applied to the tree.
   */
  datatype Tools = Tools(
    npxFound: bool,
    clone: string -> Option<string>,
    template: map<Path, Node>,
    npmInstall: Option<string>,
    copyRoot: Option<string>,
    copyApp: Option<string>,
    rollup: Option<string>,
    copyJs: Option<string>,
    copyCss: Option<string>)

  datatype CompileOutcome = Built | BuildFailed(error: string) | BuildPanicked(error: string)

  /** The template repository of each language. */
  function TemplateUrl(typeScript: bool): string
  {
    if typeScript then TsTemplate else JsTemplate
  }

  /** The error a failed clone is wrapped in. */
  function CloneError(e: string): string
  {
    "error during sveltejs/template clone (" + e + ")"
  }

  /** The workspace folder is a regular file. */
  predicate EnvIsFile(m: map<Path, Node>)
  {
    Env in m && m[Env].File?
  }

  /** A folder after newSvelteEnv's stat-and-create: made when stat reports
      it missing, left as it is otherwise. */
  function WithFolder(m: map<Path, Node>, p: Path): map<Path, Node>
  {
    if StatOf(m, p).NotExist? then WithDirs(m, p) else m
  }

  /** The tree once newSvelteEnv has made the workspace and component folders. */
  function EnvFolders(m: map<Path, Node>): map<Path, Node>
  {
    WithFolder(WithFolder(m, Env), Workdir)
  }

  /** A top-level folder that stat reports missing is added as a directory,
      and nothing else changes. */
  lemma FolderAdded(m: map<Path, Node>, p: Path)
    requires (p == Env || p == Workdir) && StatOf(m, p).NotExist?
    ensures !FileOnPath(m, p)
    ensures WithDirs(m, p) == m[p := Dir]
  {
    assert p[..1] == p;
    assert Prefixes(p) == {p};
  }

  /**
   * After the folder step both folders exist, the workspace folder is a
   * directory unless it was a regular file, and no other entry is added or
   * changed.
   */
  lemma EnvFoldersShape(m: map<Path, Node>)
    ensures var r := EnvFolders(m);
      && Env in r && Workdir in r
      && (!EnvIsFile(m) ==> r[Env] == Dir)
      && (forall q :: q in m ==> q in r && r[q] == m[q])
      && (forall q :: q in r ==> q in m || q == Env || q == Workdir)
  {
    var m1 := WithFolder(m, Env);
    if StatOf(m, Env).NotExist? {
      FolderAdded(m, Env);
    }
    if StatOf(m1, Workdir).NotExist? {
      FolderAdded(m1, Workdir);
    }
  }

  /** The tree after the template repository is cloned into the workspace
      folder: the template's entries inside that folder are added, replacing
      what was there. */
  function Cloned(m: map<Path, Node>, template: map<Path, Node>): map<Path, Node>
  {
    m + map q | q in template && Env < q :: template[q]
  }

  /**
   * newSvelteEnv (svelte.go:41-114) on the tree `m`: the folder step, then
   * npx, the clone, `npm i` and the default bootstrap, each failure ending
   * it with its own error.
   */
  function NewEnv(m: map<Path, Node>, typeScript: bool, tools: Tools): (r: (Option<string>, map<Path, Node>))
    ensures Env in r.1 && Workdir in r.1
    ensures forall q :: q in m && !(Env < q) ==> q in r.1 && r.1[q] == m[q]
    ensures r.0.None? ==> var main := if typeScript then MainTs else MainJs;
      && main in r.1 && r.1[main] == File(DefaultBootstrap)
      && (typeScript ==> GlobalDts in r.1 && r.1[GlobalDts] == File(GlobalDtsText))
    ensures r.0.None? && !EnvIsFile(m) ==> EnvListed(r.1)
  {
    EnvFoldersShape(m);
    var m1 := EnvFolders(m);
    if !tools.npxFound then (Some(ErrNpxNotFound), m1)
    else if tools.clone(TemplateUrl(typeScript)).Some? then
      (Some(CloneError(tools.clone(TemplateUrl(typeScript)).value)), m1)
    else
      var m2 := Cloned(m1, tools.template);
      if tools.npmInstall.Some? then (Some(ErrNpmI), m2)
      else
        WrittenEnvListed(m2, typeScript);
        DefaultWrite(m2, typeScript)
  }

  /** Once a bootstrap is written, the workspace folder lists src. */
  lemma WrittenEnvListed(m: map<Path, Node>, ts: bool)
    ensures Env in m && m[Env] == Dir && DefaultWrite(m, ts).0.None? ==> EnvListed(DefaultWrite(m, ts).1)
  {
    if Env in m && m[Env] == Dir && DefaultWrite(m, ts).0.None? {
      var main := if ts then MainTs else MainJs;
      assert main[..|main| - 1] == Src;
      SrcFiles();
      var r := DefaultWritten(m, ts);
      assert Src in r && |Src| == 2 && Src[0] == Env[0];
    }
  }

  /** newSvelteEnv: creates the workspace folders, clones the template for
      the chosen language, installs its dependencies and writes its default
      bootstrap. The folders are made only where stat reports them missing,
      so their MkdirAll cannot fail. */
  method NewSvelteEnv(fs: FileSystem, typeScript: bool, tools: Tools) returns (err: Option<string>)
    modifies fs
    ensures (err, fs.entries) == NewEnv(old(fs.entries), typeScript, tools)
    ensures var folders := EnvFolders(old(fs.entries));
      var url := TemplateUrl(typeScript);
      && (!tools.npxFound ==> err == Some(ErrNpxNotFound) && fs.entries == folders)
      && (tools.npxFound && tools.clone(url).Some? ==>
            err == Some(CloneError(tools.clone(url).value)) && fs.entries == folders)
      && (tools.npxFound && tools.clone(url).None? && tools.npmInstall.Some? ==>
            err == Some(ErrNpmI) && fs.entries == Cloned(folders, tools.template))
      && (tools.npxFound && tools.clone(url).None? && tools.npmInstall.None? ==>
            (err, fs.entries) == DefaultWrite(Cloned(folders, tools.template), typeScript))
  {
    if fs.Stat(Env).NotExist? {
      FolderAdded(fs.entries, Env);
      err := fs.MkdirAll(Env);
      assert err.None?;
    }
    if fs.Stat(Workdir).NotExist? {
      FolderAdded(fs.entries, Workdir);
      err := fs.MkdirAll(Workdir);
      assert err.None?;
    }
    if !tools.npxFound {
      return Some(ErrNpxNotFound);
    }
    var url := TemplateUrl(typeScript);
    var cloneErr := tools.clone(url);
    if cloneErr.Some? {
      return Some(CloneError(cloneErr.value));
    }
    fs.entries := Cloned(fs.entries, tools.template);
    if tools.npmInstall.Some? {
      return Some(ErrNpmI);
    }
    err := WriteDefaultBootstrap(fs, typeScript);
  }

  /** os.ReadDir of the workspace succeeds and lists something. */
  predicate EnvListed(m: map<Path, Node>)
  {
    StatOf(m, Env) == Info(true) && exists q :: q in m && |q| == 2 && q[0] == Env[0]
  }

  /**
   * compileSvelteFile's workspace check (svelte.go:123-132) on the tree `m`:
   * the workspace is created when stat reports it missing, and again when it
   * cannot be listed or is empty. A listed workspace is used as it is; a
   * successful check leaves a listed workspace; only the workspace folder's
   * contents and the component folder may change.
   */
  function Prepared(m: map<Path, Node>, typeScript: bool, tools: Tools): (r: (Option<string>, map<Path, Node>))
    ensures EnvListed(m) ==> r == (None, m)
    ensures !EnvListed(m) && !tools.npxFound ==> r.0 == Some(ErrNpxNotFound)
    ensures r.0.None? && !EnvIsFile(m) ==> EnvListed(r.1)
    ensures forall q :: q in m && !(Env < q) ==> q in r.1 && r.1[q] == m[q]
  {
    var first := if StatOf(m, Env).NotExist? then NewEnv(m, typeScript, tools) else (None, m);
    if first.0.Some? then first
    else if !EnvListed(first.1) then NewEnv(first.1, typeScript, tools)
    else first
  }

  method PrepareEnv(fs: FileSystem, typeScript: bool, tools: Tools) returns (err: Option<string>)
    modifies fs
    ensures (err, fs.entries) == Prepared(old(fs.entries), typeScript, tools)
  {
    if fs.Stat(Env).NotExist? {
      err := NewSvelteEnv(fs, typeScript, tools);
      if err.Some? {
        return;
      }
    }
    if !EnvListed(fs.entries) {
      err := NewSvelteEnv(fs, typeScript, tools);
      if err.Some? {
        return;
      }
    }
    return None;
  }

  /** The component path after joining it to the root directory, with
      backslashes turned into slashes. */
  function InputPath(inFile: string, rootDir: string): string
  {
    ReplaceAllChar(PathJoin([rootDir, inFile]), '\\', '/')
  }

  /** Where folder mode expects the component: src/<oldFile>/App.svelte in the workspace. */
  function DefaultAppPath(oldFile: string): Path
  {
    Resolve(PathJoin([SvelteEnv, "/src/", oldFile, SvelteApp]))
  }

  /** copyDir's wrapping of a copy error. */
  function CopyDirError(srcDir: string, destDir: string, e: string): string
  {
    "utils: cannot copy dir " + srcDir + " to " + destDir + " (" + e + ")"
  }

  /**
   * svelte.go:142-175: the input must stat; a file is staged (and copied in
   * as App.svelte unless it is named so), a folder is staged and must then
   * hold App.svelte. None means staging succeeded.
   */
  function StageInput(m: map<Path, Node>, inFile: string, rootDir: string, tools: Tools): (r: Option<string>)
    ensures var kind := IsFile(StatOf(m, Resolve(InputPath(inFile, rootDir))));
      && (kind.Err? ==> r == Some(kind.error))
      && (r.None? ==> kind.Ok? && tools.copyRoot.None?)
      && (r.None? && kind == Ok(false) ==> FileExists(StatOf(m, DefaultAppPath(inFile))))
      && ((kind == Ok(false) && tools.copyRoot.None? && !FileExists(StatOf(m, DefaultAppPath(inFile))))
          ==> r == Some(ErrNoDefaultApp))
  {
    var inPath := InputPath(inFile, rootDir);
    var srcDir := PathJoin([SvelteEnv, "/src/"]);
    match IsFile(StatOf(m, Resolve(inPath)))
    case Err(e) => Some(e)
    case Ok(isFile) =>
      if isFile then
        if tools.copyRoot.Some? then Some(CopyDirError(GoStd.Dir(rootDir), srcDir, tools.copyRoot.value))
        else if Base(inPath) != SvelteApp && tools.copyApp.Some? then tools.copyApp
        else None
      else
        if tools.copyRoot.Some? then Some(CopyDirError(rootDir, srcDir, tools.copyRoot.value))
        else if !FileExists(StatOf(m, DefaultAppPath(inFile))) then Some(ErrNoDefaultApp)
        else None
  }

  /** The entry file the custom bootstrap goes to: main.ts when there is one, else main.js. */
  function CustomTarget(m: map<Path, Node>): Path
  {
    if FileExists(StatOf(m, MainTs)) then MainTs else MainJs
  }

  /**
   * svelte.go:203-217 on the tree `m`: with a root directory, the entry file
   * imports App.svelte from the component's folder. A failed write is
   * `errCustomMaints` and writes nothing.
   */
  function CustomWrite(m: map<Path, Node>, oldFile: string): (r: (Option<string>, map<Path, Node>))
    ensures r.0.None? <==> CanWrite(m, CustomTarget(m))
    ensures r.0.None? ==> r.1 == m[CustomTarget(m) := File(Bootstrap(CustomAppImport(oldFile)))]
    ensures r.0.None? ==> ImportedApp(r.1[CustomTarget(m)].data) == Some(CustomAppImport(oldFile))
    ensures r.0.Some? ==> r == (Some(ErrCustomMaints), m)
  {
    var target := CustomTarget(m);
    BootstrapRoundTrip(CustomAppImport(oldFile));
    if !CanWrite(m, target) then (Some(ErrCustomMaints), m)
    else (None, m[target := File(Bootstrap(CustomAppImport(oldFile)))])
  }

  method WriteCustomBootstrap(fs: FileSystem, oldFile: string) returns (err: Option<string>)
    modifies fs
    ensures (err, fs.entries) == CustomWrite(old(fs.entries), oldFile)
  {
    var target := if FileExists(fs.Stat(MainTs)) then MainTs else MainJs;
    var e := fs.WriteFile(target, Bootstrap(CustomAppImport(oldFile)));
    if e.Some? {
      return Some(ErrCustomMaints);
    }
    return None;
  }

  /** The build gets as far as cleaning src: no panic and every external step succeeds. */
  predicate ReachesRestore(tools: Tools, items: seq<WalkItem>, npm: string -> Option<string>)
  {
    !WalkModules(items, npm).end.Panicked? && tools.rollup.None? && tools.copyJs.None? && tools.copyCss.None?
  }

  /**
   * svelte.go:252-308 without tailwind, on the tree `m`: module installs,
   * rollup, the bundle copies, the clean of src and the restore. Only a
   * panic of the module walk matters: an install that fails ends the walk
   * quietly and the build goes on.
   */
  function BuildOutcome(m: map<Path, Node>, tools: Tools, items: seq<WalkItem>, npm: string -> Option<string>): (r: CompileOutcome)
    ensures r.BuildPanicked? <==> WalkModules(items, npm).end.Panicked?
    ensures r.BuildPanicked? ==> WalkModules(items, npm).end == Panicked(r.error)
    ensures r.Built? <==> ReachesRestore(tools, items, npm) && !FileAbove(m, Src)
    ensures ReachesRestore(tools, items, npm) && FileAbove(m, Src) ==> r == BuildFailed(NotDirText)
  {
    var end := WalkModules(items, npm).end;
    if end.Panicked? then BuildPanicked(end.error)
    else if tools.rollup.Some? then BuildFailed(ErrNpxRollupCompile)
    else if tools.copyJs.Some? then BuildFailed(tools.copyJs.value)
    else if tools.copyCss.Some? then BuildFailed(tools.copyCss.value)
    else if FileAbove(m, Src) then BuildFailed(NotDirText)
    else Built
  }

  /**
   * The build and the restore as the program runs them: the restore is the
   * one of svelte.go:283-308 as written, so a successful build always leaves
   * the JavaScript entry. A failed build leaves the tree as it was.
   */
  method BuildAndRestore(fs: FileSystem, tools: Tools, items: seq<WalkItem>, npm: string -> Option<string>)
    returns (outcome: CompileOutcome)
    modifies fs
    ensures outcome == BuildOutcome(old(fs.entries), tools, items, npm)
    ensures !outcome.BuildPanicked? && tools.rollup.Some? ==> outcome == BuildFailed(ErrNpxRollupCompile)
    ensures !outcome.BuildPanicked? && tools.rollup.None? && tools.copyJs.Some? ==> outcome == BuildFailed(tools.copyJs.value)
    ensures !outcome.BuildPanicked? && tools.rollup.None? && tools.copyJs.None? && tools.copyCss.Some? ==> outcome == BuildFailed(tools.copyCss.value)
    ensures !outcome.Built? ==> fs.entries == old(fs.entries)
    ensures outcome.Built? ==> fs.entries == RestoredSrc(old(fs.entries), false)
  {
    var installs, end := ModuleParser(items, npm);
    if end.Panicked? {
      return BuildPanicked(end.error);
    }
    if tools.rollup.Some? {
      return BuildFailed(ErrNpxRollupCompile);
    }
    if tools.copyJs.Some? {
      return BuildFailed(tools.copyJs.value);
    }
    if tools.copyCss.Some? {
      return BuildFailed(tools.copyCss.value);
    }
    var err := RestoreBootstrapAsWritten(fs);
    if err.Some? {
      return BuildFailed(err.value);
    }
    return Built;
  }

  /**
   * compileSvelteFile up to the build, on the tree `m`: the workspace check,
   * the staging of the input and, with a root directory, the custom entry
   * file. Each failure ends it with its own error.
   */
  function BeforeBuild(m: map<Path, Node>, typeScript: bool, inFile: string, rootDir: string, tools: Tools)
    : (r: (Option<string>, map<Path, Node>))
    ensures EnvListed(m) && StageInput(m, inFile, rootDir, tools).Some? ==>
      r == (StageInput(m, inFile, rootDir, tools), m)
    ensures !EnvListed(m) && !tools.npxFound ==> r == (Some(ErrNpxNotFound), Prepared(m, typeScript, tools).1)
    ensures r.0.None? && !EnvIsFile(m) ==> EnvListed(r.1)
    ensures r.0.None? && rootDir != "" ==>
      || (MainTs in r.1 && r.1[MainTs].File? && ImportedApp(r.1[MainTs].data) == Some(CustomAppImport(inFile)))
      || (MainJs in r.1 && r.1[MainJs].File? && ImportedApp(r.1[MainJs].data) == Some(CustomAppImport(inFile)))
  {
    var p := Prepared(m, typeScript, tools);
    if p.0.Some? then p
    else
      match StageInput(p.1, inFile, rootDir, tools)
      case Some(e) => (Some(e), p.1)
      case None =>
        if rootDir == "" then p
        else
          CustomWrittenListed(p.1, inFile);
          CustomWrite(p.1, inFile)
  }

  /** The custom entry is written in src, so a listed workspace stays listed. */
  lemma CustomWrittenListed(m: map<Path, Node>, oldFile: string)
    ensures EnvListed(m) ==> EnvListed(CustomWrite(m, oldFile).1)
  {
    if EnvListed(m) {
      var q :| q in m && |q| == 2 && q[0] == Env[0];
      assert q in CustomWrite(m, oldFile).1;
    }
  }

  /**
   * compileSvelteFile without tailwind: prepare the workspace, stage the
   * input, write the custom bootstrap when there is a root directory, then
   * build and restore. As the program runs it, a successful build leaves
   * src holding only main.js, which imports ./App.svelte, whatever the
   * workspace's language.
   */
  method CompileSvelteFile(fs: FileSystem, typeScript: bool, inFile: string, rootDir: string,
                           tools: Tools, items: seq<WalkItem>, npm: string -> Option<string>)
    returns (outcome: CompileOutcome)
    modifies fs
    ensures var b := BeforeBuild(old(fs.entries), typeScript, inFile, rootDir, tools);
      && (b.0.Some? ==> outcome == BuildFailed(b.0.value) && fs.entries == b.1)
      && (b.0.None? ==> outcome == BuildOutcome(b.1, tools, items, npm))
      && (b.0.None? && !outcome.Built? ==> fs.entries == b.1)
      && (outcome.Built? ==> fs.entries == RestoredSrc(b.1, false))
    ensures outcome.Built? ==> var m := fs.entries;
      && Src in m && m[Src] == Dir && MainTs !in m
      && (forall q :: q in m && Src < q ==> q == MainJs)
      && MainJs in m && m[MainJs].File? && ImportedApp(m[MainJs].data) == Some(SvelteApp)
  {
    var err := PrepareEnv(fs, typeScript, tools);
    if err.Some? {
      return BuildFailed(err.value);
    }
    var staged := StageInput(fs.entries, inFile, rootDir, tools);
    if staged.Some? {
      return BuildFailed(staged.value);
    }
    if rootDir != "" {
      err := WriteCustomBootstrap(fs, inFile);
      if err.Some? {
        return BuildFailed(err.value);
      }
    }
    ghost var before := fs.entries;
    outcome := BuildAndRestore(fs, tools, items, npm);
    if outcome.Built? {
      RestoredSrcHoldsBootstrap(before, false);
    }
  }
}
