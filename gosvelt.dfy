/**
 * gosvelt.go: the `Map` type, the middleware registry and its selection
 * rule, and the way `addSvelte` names a component and derives its routes.
 * The router, the server and the compilation itself are not part of this
 * module; their outcomes are parameters.
 */
module GoSvelt {
  import opened Wrappers
  import opened GoStd
  import opened Utils

  // ---------------------------------------------------------------------------
  // Map
  // ---------------------------------------------------------------------------

  /** An `interface{}` value as the core inspects it: nil, a string, a Map, or anything else. */
  datatype Value = Nil | Str(s: string) | MapOf(m: map<string, Value>) | Other(kind: string)

  /** Indexing a Go map: the stored value, or nil for a missing key. */
  function Lookup(m: map<string, Value>, key: string): (r: Value)
    ensures key in m ==> r == m[key]
    ensures key !in m ==> r == Nil
  {
    if key in m then m[key] else Nil
  }

  /** `type Map map[string]interface{}`: a reference to a mutable map. */
  class Map {
    var entries: map<string, Value>

    constructor()
      ensures entries == map[]
    {
      entries := map[];
    }

    /** Map.Add sets or overwrites that key alone. */
    method Add(key: string, value: Value)
      modifies this
      ensures entries == old(entries)[key := value]
      ensures Get(key) == value
      ensures forall k :: k != key ==> Get(k) == old(Get(k))
    {
      entries := entries[key := value];
    }

    /** Map.Del removes that key alone; deleting a missing key does nothing. */
    method Del(key: string)
      modifies this
      ensures entries == old(entries) - {key}
      ensures Get(key) == Nil
      ensures forall k :: k != key ==> Get(k) == old(Get(k))
      ensures key !in old(entries) ==> entries == old(entries)
    {
      entries := entries - {key};
    }

    /** Map.Get: nil for a missing key. */
    function Get(key: string): Value
      reads this
    {
      Lookup(entries, key)
    }
  }

  /** Adding then reading gives the value; other keys are untouched. */
  lemma AddThenLookup(m: map<string, Value>, key: string, value: Value, other: string)
    ensures Lookup(m[key := value], key) == value
    ensures other != key ==> Lookup(m[key := value], other) == Lookup(m, other)
  {
  }

  /** Deleting then reading gives nil; other keys are untouched. */
  lemma DelThenLookup(m: map<string, Value>, key: string, other: string)
    ensures Lookup(m - {key}, key) == Nil
    ensures other != key ==> Lookup(m - {key}, other) == Lookup(m, other)
  {
  }

  // ---------------------------------------------------------------------------
  // Middlewares
  // ---------------------------------------------------------------------------

  /** A registered middleware function; the router only keeps and compares them. */
  type MiddlewareId = nat

  /** The path prefix rule: a middleware registered at `p` runs for a request
      path that starts with `p`, and for every path when `p` is "*". */
  predicate Selected(p: string, reqPath: string)
  {
    HasPrefix(reqPath, p) || p == "*"
  }

  /** The registrations a request path selects. */
  function SelectedAt(mids: map<string, MiddlewareId>, reqPath: string): (r: set<string>)
    ensures forall p :: p in r <==> p in mids && Selected(p, reqPath)
  {
    set p | p in mids && Selected(p, reqPath)
  }

  /** "*" and "" are selected by every request path. */
  lemma WildcardsSelectAll(mids: map<string, MiddlewareId>, reqPath: string)
    ensures "*" in mids ==> "*" in SelectedAt(mids, reqPath)
    ensures "" in mids ==> "" in SelectedAt(mids, reqPath)
  {
  }

  /** A middleware selected by a request path is selected by every longer
      path that starts with it. */
  lemma SelectionGrows(mids: map<string, MiddlewareId>, reqPath: string, more: string)
    ensures SelectedAt(mids, reqPath) <= SelectedAt(mids, reqPath + more)
  {
    forall p | p in SelectedAt(mids, reqPath)
      ensures Selected(p, reqPath + more)
    {
      if HasPrefix(reqPath, p) {
        assert (reqPath + more)[..|p|] == reqPath[..|p|];
      }
    }
  }

  /** The prefix is textual: "/api" also selects "/apiary". */
  lemma PrefixIsTextual()
    ensures Selected("/api", "/apiary")
    ensures !Selected("/api", "/ap")
  {
    assert "/api" <= "/apiary";
  }

  /** The two middleware registries of a GoSvelt application. */
  class Registry {
    var middlewares: map<string, MiddlewareId>
    var svelteMiddlewares: map<string, MiddlewareId>

    constructor()
      ensures middlewares == map[] && svelteMiddlewares == map[]
    {
      middlewares := map[];
      svelteMiddlewares := map[];
    }

    /** Middleware: registering at a path replaces what was there. */
    method Middleware(path: string, fn: MiddlewareId)
      modifies this
      ensures middlewares == old(middlewares)[path := fn]
      ensures svelteMiddlewares == old(svelteMiddlewares)
    {
      middlewares := middlewares[path := fn];
    }

    /** SvelteMiddleware: the same for the Svelte front handlers. */
    method SvelteMiddleware(path: string, fn: MiddlewareId)
      modifies this
      ensures svelteMiddlewares == old(svelteMiddlewares)[path := fn]
      ensures middlewares == old(middlewares)
    {
      svelteMiddlewares := svelteMiddlewares[path := fn];
    }
  }

  /** Registering twice at one path keeps only the second; selection is
      unchanged in which paths it picks. */
  lemma ReregisterReplaces(mids: map<string, MiddlewareId>, path: string, f: MiddlewareId, g: MiddlewareId, reqPath: string)
    ensures mids[path := f][path := g] == mids[path := g]
    ensures SelectedAt(mids[path := f], reqPath) == SelectedAt(mids[path := g], reqPath)
  {
  }

  // ---------------------------------------------------------------------------
  // addSvelte: component name and routes
  // ---------------------------------------------------------------------------

  type Uint32 = n: nat | n < 0x1_0000_0000

  /** One piece of the name: strings.ToLower(fmt.Sprintf("%x", n)). */
  function Chunk(n: Uint32): (r: string)
    ensures 1 <= |r| <= 8
    ensures IsHexText(r) && HexValue(r) == n
  {
    ToLowerOfLowerHex(LowerHex(n));
    LowerHexLength(n, 8);
    LowerHexRoundTrip(n);
    ToLower(LowerHex(n))
  }

  /** The first `k` pieces, drawn in order. */
  function Chunks(draws: nat -> Uint32, k: nat): (r: string)
    ensures |r| >= k
    ensures IsHexText(r)
  {
    if k == 0 then "" else Chunks(draws, k - 1) + Chunk(draws(k - 1))
  }

  /**
   * The component name of addSvelte: pieces are appended while the name is
   * shorter than eight characters. `draws(i)` is the i-th rand.Uint32.
   */
  method ComponentName(draws: nat -> Uint32) returns (name: string, used: nat)
    ensures name == Chunks(draws, used)
    ensures 1 <= used <= 8
    ensures |name| >= 8 && |Chunks(draws, used - 1)| < 8
    ensures |name| <= 15
    ensures IsHexText(name)
  {
    name := Chunk(draws(0));
    used := 1;
    assert Chunks(draws, 0) == "";
    while |name| < 8
      invariant 1 <= used
      invariant name == Chunks(draws, used)
      invariant |Chunks(draws, used - 1)| < 8
      invariant |name| <= 15
      decreases 8 - |name|
    {
      var piece := Chunk(draws(used));
      assert Chunks(draws, used + 1) == name + piece;
      name := name + piece;
      used := used + 1;
    }
    assert |Chunks(draws, used - 1)| >= used - 1;
  }

  /** Where a component's bundles are served from. */
  const SvelteWorkdir := "./.svelte_workdir"

  /** The page path with one trailing '/' removed; an empty path panics. */
  function Gpath(path: string): (r: Option<string>)
    ensures r.None? <==> path == ""
    ensures r.Some? ==> r.value + "/" == path || (r.value == path && path[|path| - 1] != '/')
  {
    if path == "" then None
    else if path[|path| - 1] == '/' then Some(path[..|path| - 1])
    else Some(path)
  }

  /** Only one slash is trimmed: "/app//" keeps one. */
  lemma GpathTrimsOne(p: string)
    ensures Gpath(p + "/") == Some(p)
    ensures p != "" && p[|p| - 1] != '/' ==> Gpath(p) == Some(p)
  {
    assert (p + "/")[..|p|] == p;
  }

  /** What addSvelte registers: the page route, and the two bundle routes
      with the files they send. */
  datatype SvelteRoutes = SvelteRoutes(page: string, jsRoute: string, cssRoute: string, jsFile: string, cssFile: string)

  function RoutesFor(path: string, compName: string): (r: Option<SvelteRoutes>)
    ensures r.None? <==> path == ""
    ensures r.Some? ==> (r.value.page == path
      && r.value.jsRoute == Gpath(path).value + "/bundle/bundle.js"
      && r.value.cssRoute == Gpath(path).value + "/bundle/bundle.css")
  {
    match Gpath(path)
    case None => None
    case Some(gpath) =>
      var compFile := SvelteWorkdir + "/" + compName + "/bundle";
      Some(SvelteRoutes(path, gpath + "/bundle/bundle.js", gpath + "/bundle/bundle.css", compFile + ".js", compFile + ".css"))
  }

  /** The bundle files sit in the component's folder of the work directory,
      and a route written with or without a trailing slash gets the same bundle routes. */
  lemma RoutesShape(path: string, compName: string)
    requires path != ""
    ensures var r := RoutesFor(path, compName).value;
      var folder := SvelteWorkdir + "/" + compName + "/";
      && HasPrefix(r.jsFile, folder) && HasPrefix(r.cssFile, folder)
      && HasSuffix(r.jsFile, "/bundle.js") && HasSuffix(r.cssFile, "/bundle.css")
      && (path[|path| - 1] != '/' ==> var t := RoutesFor(path + "/", compName).value;
            t.jsRoute == r.jsRoute && t.cssRoute == r.cssRoute)
  {
    var r := RoutesFor(path, compName).value;
    var dir := SvelteWorkdir + "/" + compName;
    var folder := dir + "/";
    assert r.jsFile == folder + "bundle.js" == dir + "/bundle.js";
    assert r.cssFile == folder + "bundle.css" == dir + "/bundle.css";
    ConcatAffixes(folder, "bundle.js");
    ConcatAffixes(folder, "bundle.css");
    ConcatAffixes(dir, "/bundle.js");
    ConcatAffixes(dir, "/bundle.css");
    GpathTrimsOne(path);
  }

  /** The outcome of registering a Svelte page: done, a panic, or log.Fatal. */
  datatype AddOutcome = Registered(routes: SvelteRoutes) | AddPanicked(error: string) | Fatal(error: string)

  /** A path os.Stat reports missing has no regular file on it, so MkdirAll
      cannot fail there. */
  lemma MissingHasNoFileOnPath(m: map<Path, Node>, p: Path)
    requires StatOf(m, p).NotExist?
    ensures !FileOnPath(m, p)
  {
    forall k | 1 <= k <= |p|
      ensures !(p[..k] in m && m[p[..k]].File?)
    {
      if k == |p| {
        assert p[..k] == p;
      }
    }
  }

  /**
   * addSvelte: names the component, creates its folder in the work
   * directory, compiles it (`compiled` is compileSvelteFile's error, if
   * any) and derives its routes.
   */
  method AddSvelte(fs: FileSystem, path: string, draws: nat -> Uint32, compiled: Option<string>)
    returns (compName: string, outcome: AddOutcome)
    modifies fs
    ensures IsHexText(compName) && 8 <= |compName| <= 15
    ensures exists used :: compName == Chunks(draws, used)
    ensures var folder := [".svelte_workdir", compName];
      fs.entries == if StatOf(old(fs.entries), folder).NotExist? then WithDirs(old(fs.entries), folder) else old(fs.entries)
    ensures outcome.Fatal? <==> compiled.Some?
    ensures outcome.AddPanicked? <==> compiled.None? && path == ""
    ensures outcome.Registered? ==> outcome.routes == RoutesFor(path, compName).value
  {
    var used;
    compName, used := ComponentName(draws);
    var compFolder: Path := [".svelte_workdir", compName];
    if fs.Stat(compFolder).NotExist? {
      MissingHasNoFileOnPath(fs.entries, compFolder);
      var err := fs.MkdirAll(compFolder);
      // in the model's tree this MkdirAll cannot fail, so its panic is not reached
      assert err.None?;
    }
    if compiled.Some? {
      return compName, Fatal(compiled.value);
    }
    var routes := RoutesFor(path, compName);
    if routes.None? {
      return compName, AddPanicked("index out of range");
    }
    return compName, Registered(routes.value);
  }

  /** Svelte: the file is passed as the root, with an empty file name. */
  function SvelteArgs(path: string, svelteFile: string): (r: (string, string, string))
    ensures r.0 == path && r.1 == svelteFile && r.2 == ""
  {
    (path, svelteFile, "")
  }

  /** AdvancedSvelte: an empty file name panics before anything else. */
  function AdvancedSvelteArgs(path: string, svelteRoot: string, svelteFile: string): (r: Result<(string, string, string)>)
    ensures r.Err? <==> svelteFile == ""
    ensures r.Ok? ==> r.value == (path, svelteRoot, svelteFile)
  {
    if svelteFile == "" then Err("file cannnot be empty") else Ok((path, svelteRoot, svelteFile))
  }
}
