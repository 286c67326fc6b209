/**
 * The helpers of utils.go: the stat-based queries `isFile` and `fileExists`,
 * `cleanDir` over an abstract filesystem, the `.git` skip rule that `copyDir`
 * hands to its copy library, and the content hash of a directory tree
 * (`calculateFileHash`, `calculateTreeHash`) with SHA-256 left uninterpreted.
 */
module Utils {
  import opened Wrappers
  import opened GoStd
  import opened GoSort

  // ---------------------------------------------------------------------------
  // What os.Stat reports
  // ---------------------------------------------------------------------------

  /** The outcome of os.Stat: file information, a not-exist error, or any
      other error (permission denied, a file used as a directory, ...). */
  datatype StatResult = Info(isDir: bool) | NotExist | Failed(error: string)

  /** os.ErrNotExist's text, carried by the error a missing path yields. */
  const NotExistText := "file does not exist"

  /** ENOTDIR's text: a regular file was used as a directory. */
  const NotDirText := "not a directory"

  /** isFile: the stat error when stat fails, otherwise "not a directory". */
  function IsFile(st: StatResult): (r: Result<bool>)
    ensures r.Ok? <==> st.Info?
    ensures r.Ok? ==> (r.value <==> !st.isDir)
    ensures st.Failed? ==> r == Err(st.error)
  {
    match st
    case Info(isDir) => Ok(!isDir)
    case NotExist => Err(NotExistText)
    case Failed(e) => Err(e)
  }

  /** fileExists: false exactly when stat reports that nothing is there. A
      stat that fails for another reason still counts as existing. */
  function FileExists(st: StatResult): (r: bool)
    ensures r <==> !st.NotExist?
    ensures IsFile(st).Ok? ==> r
    ensures st.Failed? ==> r && IsFile(st).Err?
  {
    !st.NotExist?
  }

  // ---------------------------------------------------------------------------
  // An abstract filesystem
  // ---------------------------------------------------------------------------

  datatype Node = File(data: string) | Dir

  /** The working directory "." or the root "/": always there, always a directory. */
  predicate IsRoot(p: Path) { p == [] || p == ["/"] }

  /** Some proper ancestor of `p` is a regular file. */
  predicate FileAbove(m: map<Path, Node>, p: Path)
  {
    exists k :: 1 <= k < |p| && p[..k] in m && m[p[..k]].File?
  }

  /** `p` itself or one of its ancestors is a regular file. */
  predicate FileOnPath(m: map<Path, Node>, p: Path)
  {
    exists k :: 1 <= k <= |p| && p[..k] in m && m[p[..k]].File?
  }

  /** The non-root prefixes of `p`, `p` included. */
  function Prefixes(p: Path): (r: set<Path>)
    ensures forall q :: q in r <==> exists k :: 1 <= k <= |p| && !IsRoot(p[..k]) && q == p[..k]
  {
    set k | 1 <= k <= |p| && !IsRoot(p[..k]) :: p[..k]
  }

  /** `m` with every missing non-root prefix of `p` added as a directory. */
  function WithDirs(m: map<Path, Node>, p: Path): map<Path, Node>
  {
    map q | q in m.Keys + Prefixes(p) :: if q in m then m[q] else Dir
  }

  /** `m` without `p` and everything beneath it. */
  function RemovedUnder(m: map<Path, Node>, p: Path): map<Path, Node>
  {
    map q | q in m && !(p <= q) :: m[q]
  }

  /** The directory that would hold `p` exists. */
  predicate ParentIsDir(m: map<Path, Node>, p: Path)
    requires p != []
  {
    var parent := p[..|p| - 1];
    IsRoot(parent) || (parent in m && m[parent].Dir?)
  }

  /** What os.WriteFile needs: a non-directory target in an existing directory. */
  predicate CanWrite(m: map<Path, Node>, p: Path)
  {
    !IsRoot(p) && !(p in m && m[p].Dir?) && ParentIsDir(m, p)
  }

  /** What os.Stat reports for `p` in the tree `m`. */
  function StatOf(m: map<Path, Node>, p: Path): (r: StatResult)
    ensures r.Info? <==> IsRoot(p) || p in m
    ensures r.Info? && !IsRoot(p) ==> (r.isDir <==> m[p].Dir?)
    ensures r.NotExist? <==> !IsRoot(p) && p !in m && !FileAbove(m, p)
  {
    if IsRoot(p) then Info(true)
    else if p in m then Info(m[p].Dir?)
    else if FileAbove(m, p) then Failed(NotDirText)
    else NotExist
  }

  /**
   * The files and directories the process sees, keyed by cleaned path. The
   * root and the working directory are implicit.
   */
  class FileSystem {
    var entries: map<Path, Node>

    constructor(initial: map<Path, Node>)
      ensures entries == initial
    {
      entries := initial;
    }

    /** os.Stat */
    function Stat(p: Path): StatResult
      reads this
    {
      StatOf(entries, p)
    }

    /**
     * os.RemoveAll: removes `p` and everything under it; a path that is not
     * there is no error. "." is refused as an invalid argument, and the
     * model refuses "/" too. Under a regular file the removal fails with
     * "not a directory" (unlinkat in a file, or the open of a parent under
     * one) and removes nothing.
     */
    method RemoveAll(p: Path) returns (err: Option<string>)
      modifies this
      ensures err.Some? <==> IsRoot(p) || FileAbove(old(entries), p)
      ensures err.Some? && !IsRoot(p) ==> err == Some(NotDirText)
      ensures err.Some? ==> entries == old(entries)
      ensures err.None? ==> entries == RemovedUnder(old(entries), p)
    {
      if IsRoot(p) {
        return Some("invalid argument");
      }
      if FileAbove(entries, p) {
        return Some(NotDirText);
      }
      entries := RemovedUnder(entries, p);
      return None;
    }

    /** os.MkdirAll: creates every missing directory on the way to `p`; a
        file anywhere on that way is an error, and then nothing is created. */
    method MkdirAll(p: Path) returns (err: Option<string>)
      modifies this
      ensures err.Some? <==> FileOnPath(old(entries), p)
      ensures err.Some? ==> entries == old(entries)
      ensures err.None? ==> entries == WithDirs(old(entries), p)
    {
      if FileOnPath(entries, p) {
        return Some(NotDirText);
      }
      entries := WithDirs(entries, p);
      return None;
    }

    /** os.WriteFile: creates or truncates `p` with `data`. */
    method WriteFile(p: Path, data: string) returns (err: Option<string>)
      modifies this
      ensures err.None? <==> CanWrite(old(entries), p)
      ensures err.None? ==> entries == old(entries)[p := File(data)]
      ensures err.Some? ==> entries == old(entries)
    {
      if !CanWrite(entries, p) {
        return Some(if p in entries then "is a directory" else "no such file or directory");
      }
      entries := entries[p := File(data)];
      return None;
    }

    /** cleanDir: removes the directory, then recreates it empty. A failed
        removal is returned as it is, and then nothing has changed. */
    method CleanDir(dir: Path) returns (err: Option<string>)
      modifies this
      ensures err.Some? <==> IsRoot(dir) || FileAbove(old(entries), dir)
      ensures err.Some? && !IsRoot(dir) ==> err == Some(NotDirText)
      ensures err.Some? ==> entries == old(entries)
      ensures err.None? ==> entries == WithDirs(RemovedUnder(old(entries), dir), dir)
    {
      err := RemoveAll(dir);
      if err.Some? {
        return;
      }
      RemovedFileOnPath(old(entries), dir);
      err := MkdirAll(dir);
    }
  }

  /** Once `dir` and its subtree are gone, only a file above it can stop MkdirAll. */
  lemma RemovedFileOnPath(m: map<Path, Node>, dir: Path)
    ensures FileOnPath(RemovedUnder(m, dir), dir) <==> FileAbove(m, dir)
  {
    var r := RemovedUnder(m, dir);
    if FileOnPath(r, dir) {
      var k :| 1 <= k <= |dir| && dir[..k] in r && r[dir[..k]].File?;
      assert dir[..|dir|] == dir;
      assert k < |dir|;
    }
    if FileAbove(m, dir) {
      var k :| 1 <= k < |dir| && dir[..k] in m && m[dir[..k]].File?;
      assert !(dir <= dir[..k]);
      assert dir[..k] in r;
    }
  }

  /**
   * After a successful cleanDir the directory exists, nothing lies beneath
   * it, and everything outside it is as it was.
   */
  lemma {:induction false} CleanDirLeavesEmptyDir(m: map<Path, Node>, dir: Path)
    requires !IsRoot(dir) && !FileAbove(m, dir)
    ensures var c := WithDirs(RemovedUnder(m, dir), dir);
      && dir in c && c[dir] == Dir
      && (forall q :: q in c && |q| > |dir| ==> !(dir <= q))
      && (forall q :: q in m && !(dir <= q) ==> q in c && c[q] == m[q])
      && (forall q :: q in c ==> q in m || q <= dir)
  {
    var r := RemovedUnder(m, dir);
    var c := WithDirs(r, dir);
    assert dir[..|dir|] == dir;
    assert dir in Prefixes(dir);
    assert dir !in r;
    forall q | q in c && |q| > |dir|
      ensures !(dir <= q)
    {
    }
    forall q | q in c
      ensures q in m || q <= dir
    {
    }
  }

  /** A tree as a filesystem holds it: the root is implicit, and every entry
      lies in the root or in a directory entry. */
  predicate WellFormed(m: map<Path, Node>)
  {
    forall q :: q in m ==> !IsRoot(q) && ParentIsDir(m, q)
  }

  /** RemoveAll keeps a tree well formed: the parent of a surviving entry survives. */
  lemma RemovedKeepsShape(m: map<Path, Node>, p: Path)
    requires WellFormed(m)
    ensures WellFormed(RemovedUnder(m, p))
  {
    var r := RemovedUnder(m, p);
    forall q | q in r
      ensures !IsRoot(q) && ParentIsDir(r, q)
    {
      var parent := q[..|q| - 1];
      if !IsRoot(parent) {
        assert parent in m;
      }
    }
  }

  /** MkdirAll keeps a tree well formed: each new directory lies in the previous one. */
  lemma WithDirsKeepsShape(m: map<Path, Node>, p: Path)
    requires WellFormed(m) && !FileOnPath(m, p)
    ensures WellFormed(WithDirs(m, p))
  {
    var r := WithDirs(m, p);
    forall q | q in r
      ensures !IsRoot(q) && ParentIsDir(r, q)
    {
      if q !in m {
        var k :| 1 <= k <= |p| && !IsRoot(p[..k]) && q == p[..k];
        var parent := q[..|q| - 1];
        assert parent == p[..k - 1];
        if !IsRoot(parent) {
          assert parent in Prefixes(p);
          assert !(parent in m && m[parent].File?);
        }
      }
    }
  }

  /** WriteFile keeps a tree well formed: the target is not a directory, so
      nothing lies in it. */
  lemma WrittenKeepsShape(m: map<Path, Node>, p: Path, data: string)
    requires WellFormed(m) && CanWrite(m, p)
    ensures WellFormed(m[p := File(data)])
  {
    var r := m[p := File(data)];
    forall q | q in r
      ensures !IsRoot(q) && ParentIsDir(r, q)
    {
      if q != p {
        assert q[..|q| - 1] != p;
      }
    }
  }

  /** cleanDir keeps a tree well formed. */
  lemma CleanedKeepsShape(m: map<Path, Node>, dir: Path)
    requires WellFormed(m) && !IsRoot(dir) && !FileAbove(m, dir)
    ensures WellFormed(WithDirs(RemovedUnder(m, dir), dir))
  {
    RemovedKeepsShape(m, dir);
    RemovedFileOnPath(m, dir);
    WithDirsKeepsShape(RemovedUnder(m, dir), dir);
  }

  // ---------------------------------------------------------------------------
  // copyDir's skip rule
  // ---------------------------------------------------------------------------

  /**
   * The Skip callback copyDir gives the copy library: a source path is
   * skipped when its text ends in ".git", whatever kind of entry it is and
   * wherever it would be copied to.
   */
  function SkipOnCopy(srcIsDir: bool, src: string, dest: string): bool
  {
    HasSuffix(src, ".git")
  }

  /** The skip rule is exactly "the extension is .git": it catches the
      repository folder ".git" and also any file such as "notes.git". */
  lemma {:induction false} SkipIsGitExtension(srcIsDir: bool, src: string, dest: string)
    ensures SkipOnCopy(srcIsDir, src, dest) <==> Ext(src) == ".git"
  {
    if HasSuffix(src, ".git") {
      ExtOfSuffix(src, ".git");
    }
  }

  // ---------------------------------------------------------------------------
  // calculateFileHash and calculateTreeHash
  // ---------------------------------------------------------------------------

  /** A SHA-256 sum: 32 bytes. The hash function itself is a parameter. */
  type Digest = d: seq<Byte> | |d| == 32 witness seq(32, i => 0)

  /** One call of the WalkDir callback: an error the walk hands over, a
      directory, or a regular file with what reading it gives. */
  datatype WalkEntry =
    | WalkError(error: string)
    | DirEntry(path: Path)
    | FileEntry(path: Path, contents: Result<string>)

  predicate IsHexText(s: string) { forall i :: 0 <= i < |s| ==> IsLowerHexDigit(s[i]) }

  /** calculateFileHash: the %x text of the file's SHA-256, or the error
      opening or reading it gave. */
  function FileHash(sha: string -> Digest, contents: Result<string>): (r: Result<string>)
    ensures r.Ok? <==> contents.Ok?
    ensures contents.Err? ==> r == Err(contents.error)
  {
    match contents
    case Err(e) => Err(e)
    case Ok(data) => Ok(HexBytes(sha(data)))
  }

  /** A file digest is 64 lowercase hex digits from which the SHA-256 sum
      can be read back, so it depends on the file's contents and nothing else. */
  lemma FileHashText(sha: string -> Digest, contents: Result<string>)
    requires contents.Ok?
    ensures var r := FileHash(sha, contents).value;
      |r| == 64 && IsHexText(r) && UnhexBytes(r) == sha(contents.value)
  {
    HexBytesRoundTrip(sha(contents.value));
  }

  /** An entry that makes the walk give up. */
  predicate Fails(e: WalkEntry)
  {
    e.WalkError? || (e.FileEntry? && e.contents.Err?)
  }

  function FailureText(e: WalkEntry): string
    requires Fails(e)
  {
    if e.WalkError? then e.error else e.contents.error
  }

  predicate HasFailure(walk: seq<WalkEntry>)
  {
    exists i :: 0 <= i < |walk| && Fails(walk[i])
  }

  function FileCount(walk: seq<WalkEntry>): nat
  {
    if walk == [] then 0 else (if walk[0].FileEntry? then 1 else 0) + FileCount(walk[1..])
  }

  /** The digests the callback would collect if nothing failed: one per
      file, in walk order, directories contributing nothing. */
  function EntryDigests(sha: string -> Digest, walk: seq<WalkEntry>): (r: seq<string>)
    ensures |r| == FileCount(walk)
  {
    if walk == [] then [] else EntryDigest(sha, walk[0]) + EntryDigests(sha, walk[1..])
  }

  function EntryDigest(sha: string -> Digest, e: WalkEntry): (r: seq<string>)
    ensures |r| == if e.FileEntry? then 1 else 0
  {
    if e.FileEntry? && e.contents.Ok? then [HexBytes(sha(e.contents.value))]
    else if e.FileEntry? then [""]
    else []
  }

  /** The callback's work: stop at the first failure, otherwise collect. */
  function Digests(sha: string -> Digest, walk: seq<WalkEntry>): (r: Result<seq<string>>)
  {
    if walk == [] then Ok([])
    else
      match walk[0]
      case WalkError(e) => Err(e)
      case DirEntry(_) => Digests(sha, walk[1..])
      case FileEntry(_, c) =>
        match FileHash(sha, c)
        case Err(e) => Err(e)
        case Ok(h) => PrependOk([h], Digests(sha, walk[1..]))
  }

  /** calculateTreeHash: the %x text of the SHA-256 of the sorted file
      digests joined without separator, or the first failure. */
  function TreeHash(sha: string -> Digest, walk: seq<WalkEntry>): (r: Result<string>)
    ensures r.Ok? ==> |r.value| == 64 && IsHexText(r.value)
  {
    match Digests(sha, walk)
    case Err(e) => Err(e)
    case Ok(hs) => Ok(HexBytes(sha(Join(SortStrings(hs), ""))))
  }

  /** `pre` put in front of a successful collection; a failure stays as it is. */
  function PrependOk(pre: seq<string>, r: Result<seq<string>>): Result<seq<string>>
  {
    if r.Ok? then Ok(pre + r.value) else r
  }

  lemma PrependOkAssoc(pre: seq<string>, h: string, r: Result<seq<string>>)
    ensures PrependOk([], r) == r
    ensures PrependOk(pre, PrependOk([h], r)) == PrependOk(pre + [h], r)
  {
    if r.Ok? {
      assert [] + r.value == r.value;
      assert pre + ([h] + r.value) == pre + [h] + r.value;
    }
  }

  lemma DigestsUnfold(sha: string -> Digest, w: seq<WalkEntry>)
    requires w != []
    ensures w[0].WalkError? ==> Digests(sha, w) == Err(w[0].error)
    ensures w[0].DirEntry? ==> Digests(sha, w) == Digests(sha, w[1..])
    ensures w[0].FileEntry? && w[0].contents.Err? ==> Digests(sha, w) == Err(w[0].contents.error)
    ensures w[0].FileEntry? && w[0].contents.Ok? ==>
      Digests(sha, w) == PrependOk([FileHash(sha, w[0].contents).value], Digests(sha, w[1..]))
  {
  }

  /** calculateTreeHash, as the loop over the walk that it is. */
  method CalculateTreeHash(sha: string -> Digest, walk: seq<WalkEntry>) returns (hash: string, err: Option<string>)
    ensures err.Some? <==> TreeHash(sha, walk).Err?
    ensures err.Some? ==> hash == "" && err.value == TreeHash(sha, walk).error
    ensures err.None? ==> hash == TreeHash(sha, walk).value
  {
    var fileHashes: seq<string> := [];
    var i := 0;
    assert walk[0..] == walk;
    PrependOkAssoc([], "", Digests(sha, walk));
    while i < |walk|
      invariant 0 <= i <= |walk|
      invariant Digests(sha, walk) == PrependOk(fileHashes, Digests(sha, walk[i..]))
    {
      var e := walk[i];
      DigestsUnfold(sha, walk[i..]);
      assert walk[i..][0] == e && walk[i..][1..] == walk[i + 1..];
      if e.WalkError? {
        assert Digests(sha, walk) == Err(e.error);
        return "", Some(e.error);
      }
      if e.FileEntry? {
        var h := FileHash(sha, e.contents);
        if h.Err? {
          assert Digests(sha, walk) == Err(h.error);
          return "", Some(h.error);
        }
        PrependOkAssoc(fileHashes, h.value, Digests(sha, walk[i + 1..]));
        fileHashes := fileHashes + [h.value];
      }
      i := i + 1;
    }
    assert walk[i..] == [] && fileHashes + [] == fileHashes;
    assert Digests(sha, walk) == Ok(fileHashes);
    fileHashes := SortStrings(fileHashes);
    hash := HexBytes(sha(Join(fileHashes, "")));
    err := None;
  }

  /** The walk gives up exactly when some entry fails; otherwise it has
      collected one digest per file. */
  lemma {:induction false} DigestsFailure(sha: string -> Digest, walk: seq<WalkEntry>)
    ensures Digests(sha, walk).Err? <==> HasFailure(walk)
    ensures Digests(sha, walk).Ok? ==> Digests(sha, walk).value == EntryDigests(sha, walk)
  {
    if walk != [] {
      DigestsFailure(sha, walk[1..]);
      if HasFailure(walk[1..]) {
        var i :| 0 <= i < |walk[1..]| && Fails(walk[1..][i]);
        assert Fails(walk[i + 1]);
      }
      if HasFailure(walk) && !Fails(walk[0]) {
        var i :| 0 <= i < |walk| && Fails(walk[i]);
        assert Fails(walk[1..][i - 1]);
      }
    }
  }

  lemma {:induction false} EntryDigestsAppend(sha: string -> Digest, a: seq<WalkEntry>, b: seq<WalkEntry>)
    ensures EntryDigests(sha, a + b) == EntryDigests(sha, a) + EntryDigests(sha, b)
  {
    if a == [] {
      assert a + b == b;
    } else {
      assert (a + b)[0] == a[0] && (a + b)[1..] == a[1..] + b;
      EntryDigestsAppend(sha, a[1..], b);
    }
  }

  lemma {:induction false} MultisetRemoveAt<T>(b: seq<T>, i: nat)
    requires i < |b|
    ensures multiset(b[..i] + b[i + 1..]) == multiset(b) - multiset{b[i]}
  {
    assert b == b[..i] + [b[i]] + b[i + 1..];
  }

  lemma {:induction false} EntryDigestsSplit(sha: string -> Digest, b: seq<WalkEntry>, i: nat)
    requires i < |b|
    ensures EntryDigests(sha, b) == EntryDigests(sha, b[..i]) + EntryDigests(sha, [b[i]]) + EntryDigests(sha, b[i + 1..])
    ensures EntryDigests(sha, b[..i] + b[i + 1..]) == EntryDigests(sha, b[..i]) + EntryDigests(sha, b[i + 1..])
  {
    assert b == b[..i] + ([b[i]] + b[i + 1..]);
    EntryDigestsAppend(sha, b[..i], [b[i]] + b[i + 1..]);
    EntryDigestsAppend(sha, [b[i]], b[i + 1..]);
    EntryDigestsAppend(sha, b[..i], b[i + 1..]);
  }

  /** Moving one entry to the front does not change which digests are collected. */
  lemma {:induction false} EntryDigestsToFront(sha: string -> Digest, b: seq<WalkEntry>, i: nat)
    requires i < |b|
    ensures multiset(EntryDigests(sha, b)) == multiset(EntryDigest(sha, b[i])) + multiset(EntryDigests(sha, b[..i] + b[i + 1..]))
  {
    EntryDigestsSplit(sha, b, i);
    assert EntryDigests(sha, [b[i]]) == EntryDigest(sha, b[i]) + EntryDigests(sha, []);
    var d1 := EntryDigests(sha, b[..i]);
    var dx := EntryDigest(sha, b[i]);
    var d2 := EntryDigests(sha, b[i + 1..]);
    assert multiset(d1 + dx + d2) == multiset(d1) + multiset(dx) + multiset(d2);
    assert multiset(d1 + d2) == multiset(d1) + multiset(d2);
  }

  /** Where the first entry of `a` sits in its rearrangement `b`; removing both leaves a rearrangement. */
  lemma MatchingRemoval<T>(a: seq<T>, b: seq<T>) returns (i: nat)
    requires a != [] && multiset(a) == multiset(b)
    ensures i < |b| && b[i] == a[0]
    ensures multiset(a[1..]) == multiset(b[..i] + b[i + 1..])
  {
    assert a[0] in b by {
      assert a[0] in multiset(a);
    }
    i :| 0 <= i < |b| && b[i] == a[0];
    var x := a[0];
    var m := multiset(a) - multiset{x};
    assert multiset(a[1..]) == m by {
      assert a[..0] == [];
      MultisetRemoveAt(a, 0);
    }
    assert multiset(b[..i] + b[i + 1..]) == m by {
      MultisetRemoveAt(b, i);
    }
  }

  /** Rearranging the walk rearranges the collected digests. */
  lemma {:induction false} EntryDigestsPermutation(sha: string -> Digest, a: seq<WalkEntry>, b: seq<WalkEntry>)
    requires multiset(a) == multiset(b)
    ensures multiset(EntryDigests(sha, a)) == multiset(EntryDigests(sha, b))
  {
    if a == [] {
      assert |b| == |multiset(b)| == 0;
    } else {
      var i := MatchingRemoval(a, b);
      EntryDigestsPermutation(sha, a[1..], b[..i] + b[i + 1..]);
      EntryDigestsToFront(sha, b, i);
      EntryDigestsToFront(sha, a, 0);
      assert a[..0] + a[1..] == a[1..];
    }
  }

  lemma FailurePermutation(a: seq<WalkEntry>, b: seq<WalkEntry>)
    requires multiset(a) == multiset(b)
    ensures HasFailure(a) ==> HasFailure(b)
  {
    if HasFailure(a) {
      var i :| 0 <= i < |a| && Fails(a[i]);
      assert a[i] in multiset(b);
      var j :| 0 <= j < |b| && b[j] == a[i];
    }
  }

  /**
   * The tree hash does not depend on the order the walk visits entries in:
   * any rearrangement fails exactly when the original does, and otherwise
   * gives the same hash.
   */
  lemma TreeHashIgnoresWalkOrder(sha: string -> Digest, a: seq<WalkEntry>, b: seq<WalkEntry>)
    requires multiset(a) == multiset(b)
    ensures TreeHash(sha, a).Err? <==> TreeHash(sha, b).Err?
    ensures TreeHash(sha, a).Ok? ==> TreeHash(sha, a) == TreeHash(sha, b)
  {
    DigestsFailure(sha, a);
    DigestsFailure(sha, b);
    FailurePermutation(a, b);
    FailurePermutation(b, a);
    if !HasFailure(a) {
      EntryDigestsPermutation(sha, a, b);
      SortIgnoresOrder(EntryDigests(sha, a), EntryDigests(sha, b));
    }
  }

  /** Directories contribute nothing: dropping one from the walk changes nothing. */
  lemma {:induction false} DirectoriesDoNotCount(sha: string -> Digest, a: seq<WalkEntry>, d: Path, b: seq<WalkEntry>)
    ensures Digests(sha, a + [DirEntry(d)] + b) == Digests(sha, a + b)
    ensures TreeHash(sha, a + [DirEntry(d)] + b) == TreeHash(sha, a + b)
  {
    var w := a + [DirEntry(d)] + b;
    if a == [] {
      assert w[0] == DirEntry(d) && w[1..] == b && a + b == b;
    } else {
      assert w[0] == a[0] && w[1..] == a[1..] + [DirEntry(d)] + b;
      assert (a + b)[0] == a[0] && (a + b)[1..] == a[1..] + b;
      DirectoriesDoNotCount(sha, a[1..], d, b);
    }
  }

  /** Walks that meet files with the same contents in the same order give
      the same hash, whatever the files are called. */
  predicate SameContents(a: seq<WalkEntry>, b: seq<WalkEntry>)
  {
    |a| == |b| &&
    forall i :: 0 <= i < |a| ==>
      match a[i]
      case WalkError(e) => b[i] == WalkError(e)
      case DirEntry(_) => b[i].DirEntry?
      case FileEntry(_, c) => b[i].FileEntry? && b[i].contents == c
  }

  lemma {:induction false} TreeHashIgnoresNames(sha: string -> Digest, a: seq<WalkEntry>, b: seq<WalkEntry>)
    requires SameContents(a, b)
    ensures Digests(sha, a) == Digests(sha, b)
    ensures TreeHash(sha, a) == TreeHash(sha, b)
  {
    if a != [] {
      assert SameContents(a[1..], b[1..]) by {
        forall i | 0 <= i < |a[1..]| ensures a[1..][i] == a[i + 1] && b[1..][i] == b[i + 1] { }
      }
      TreeHashIgnoresNames(sha, a[1..], b[1..]);
      assert SameContents(a, b) ==> match a[0]
        case WalkError(e) => b[0] == WalkError(e)
        case DirEntry(_) => b[0].DirEntry?
        case FileEntry(_, c) => b[0].FileEntry? && b[0].contents == c;
    }
  }

  /** A tree without files hashes the empty text. */
  lemma {:induction false} EmptyTreeHash(sha: string -> Digest, walk: seq<WalkEntry>)
    requires forall i :: 0 <= i < |walk| ==> walk[i].DirEntry?
    ensures TreeHash(sha, walk) == Ok(HexBytes(sha("")))
  {
    if walk != [] {
      EmptyTreeHash(sha, walk[1..]);
    }
  }
}
