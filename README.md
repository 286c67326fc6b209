# GoSvelt core, modelled in Dafny

GoSvelt is a Go web framework on top of fasthttp that serves Svelte pages.
When a Svelte page is registered, the framework:

- names a component folder at random;
- prepares a Node workspace (`./.svelte_env`) from a template;
- copies the page into it and writes a bootstrap entry file that imports the
  page;
- installs the npm modules the page imports;
- compiles with rollup, copies the JavaScript and CSS bundles out, and
  restores the workspace sources;
- registers the page route and two bundle routes.

Request handlers get a `Context` with:

- a key/value store;
- `Html`, which substitutes `&{n}` or `&{key}` placeholders into a template;
- `Redirect`, which refuses status codes outside 300..308.

The model has these modules:

| module | file | what it holds |
|---|---|---|
| `Wrappers` | `wrappers.dfy` | `Option` and `Result` |
| `GoStd` | `gostd.dfy` | The parts of Go's standard library the core relies on: `strings.HasPrefix/HasSuffix/Join/ReplaceAll/ToLower`, `filepath.Ext/Clean/Join/Dir/Base` (Unix flavour), `strconv.Atoi` with its saturation on overflow, `%x` formatting of numbers and byte slices. |
| `GoSort` | `gosort.dfy` | `sort.Strings` as an insertion sort. It is proved sorted and a permutation, and its result depends only on the multiset of its input. |
| `Utils` | `utils.dfy` | From utils.go: the `isFile`/`fileExists` result rules over an abstract `os.Stat` answer; a filesystem as a map from cleaned paths to files and directories, with `RemoveAll`, `MkdirAll`, `WriteFile` and `cleanDir`; the `copyDir` skip predicate; `calculateFileHash` and `calculateTreeHash`. |
| `Svelte` | `svelte.dfy` | From svelte.go: the import regex of `parseSvelte` as a deterministic leftmost scanner, the backwards removal loop, and `moduleParser` as a walk over `(path, stat, contents)` items. |
| `SvelteBuild` | `svelte_build.dfy` | From svelte.go: `newSvelteEnv`, the bootstrap entry text, `compileSvelteFile`'s staging checks, and the cleaning and restoring of the workspace sources. |
| `GoSvelt` | `gosvelt.dfy` | From gosvelt.go: `Map`, the middleware registries and their selection rule, and `addSvelte`'s name loop, trailing-slash trimming and routes. |
| `Context` | `context.dfy` | From context.go: the placeholder substitution of `Html`, the `Redirect` guard, the store, and the `Context` object. |

How the outside world is represented:

- Go byte strings are `string`; each character stands for one byte.
- SHA-256 is a function parameter `sha`: only its output size matters to the
  properties.
- `rand.Uint32` is a parameter `draws`, a sequence of 32-bit numbers.
- External programs are outcome parameters (`Tools`), and so are `npm i`
  per command, file reads and fasthttp:
  - `npx` lookup;
  - `git.PlainClone`, with the tree it produces;
  - `npm i`, per command;
  - `rollup`;
  - the bundle copies.
- Files the walk visits are a sequence of items, each with its `os.Stat`
  answer and its contents or read error.
- `Html`'s file read is a function `readFile`.
- The fasthttp request context is a `Response` record holding the headers,
  the status, the body and the redirect.

## Model

| member | source | states |
|---|---|---|
| Utils.IsFile | utils.go:82-89 | A stat failure gives `(false, err)` with that error; otherwise the answer is "not a directory". |
| Utils.FileExists | utils.go:92-95 | False exactly when stat reports not-exist. A stat error other than not-exist counts as existing, although isFile fails on it. |
| Utils.StatOf | utils.go:83 | What os.Stat answers in the abstract tree: info for the root or a present path; not-exist only when no ancestor is a regular file; an error otherwise. |
| Utils.FileSystem.RemoveAll | utils.go:70 | os.RemoveAll removes the path and everything beneath it. It fails exactly when the path is the root or lies under a regular file, the latter with "not a directory". A failure changes nothing. |
| Utils.FileSystem.MkdirAll | utils.go:75 | os.MkdirAll fails exactly when a regular file lies on the path. Otherwise the missing ancestors become directories and nothing else changes. |
| Utils.FileSystem.WriteFile | svelte.go:91 | ioutil.WriteFile succeeds exactly when the parent is a directory and the target is not one. The tree then holds the new contents. |
| Utils.FileSystem.CleanDir | utils.go:69-76 | cleanDir fails exactly when the directory is the root or lies under a file; the error is RemoveAll's and nothing changes. On success the tree is the old tree with the directory emptied and recreated. |
| Utils.CleanDirLeavesEmptyDir | utils.go:69-76 | After a successful cleanDir the directory exists and holds nothing. Every entry outside it is unchanged, and no new entry appears except the directory and its ancestors. |
| Utils.RemovedFileOnPath | utils.go:70-75 | After RemoveAll, MkdirAll of the same path fails exactly when a regular file lies above it. |
| Utils.RemovedKeepsShape | utils.go:70 | In a well-formed tree (no entry for the root, every parent a directory), removing a path and everything under it leaves a well-formed tree. |
| Utils.WithDirsKeepsShape | utils.go:75 | MkdirAll of a path with no file on it keeps a tree well formed. |
| Utils.WrittenKeepsShape | svelte.go:91 | A write that succeeds keeps a tree well formed. |
| Utils.CleanedKeepsShape | utils.go:69-76 | A cleanDir that succeeds keeps a tree well formed. |
| Utils.SkipIsGitExtension | utils.go:53-56 | copyDir's skip test (the source path ends in ".git") holds exactly when the path's extension is ".git", for files and directories alike. |
| Utils.FileHash | utils.go:111-124 | calculateFileHash fails exactly when the file cannot be read, and then returns that error. |
| Utils.FileHashText | utils.go:118-123 | A file hash is 64 lowercase hex characters that decode back to the SHA-256 of the contents. |
| Utils.TreeHash | utils.go:126-155 | A tree hash is 64 lowercase hex characters. |
| Utils.CalculateTreeHash | utils.go:126-155 | The loop that appends per-file digests, sorts them and hashes their concatenation returns the reference tree hash, or `""` with the walk's first error. |
| Utils.DigestsFailure | utils.go:129-145 | The walk fails exactly when some entry is a walk error or an unreadable file. Otherwise the digests are those of the regular files, in walk order. |
| Utils.TreeHashIgnoresWalkOrder | utils.go:147-150 | Any permutation of the walk gives the same tree hash, or fails likewise. |
| Utils.DirectoriesDoNotCount | utils.go:134-140 | A directory entry anywhere in the walk changes neither the digests nor the hash. |
| Utils.TreeHashIgnoresNames | utils.go:134-150 | Two walks with the same contents entry by entry, under any names, hash alike. |
| Utils.EmptyTreeHash | utils.go:147-154 | A walk with no regular files hashes the empty string. |
| GoSort.SortIgnoresOrder | utils.go:147 | sort.Strings gives the same result for any two orderings of the same digests. |
| GoSort.SortStringsSorted | utils.go:147 | sort.Strings leaves its input in ascending byte order. |
| GoStd.HexBytesRoundTrip | utils.go:123 | `%x` of a digest decodes back to the digest. |
| Svelte.MatchAt | svelte.go:322 | A match of the import regex at a position starts with "import" and captures two non-empty word runs. |
| Svelte.MatchIsStatement | svelte.go:322 | Every match is a whole import statement: "import", whitespace, the binding, whitespace, "from", whitespace, a quote, the module, a quote. With ImportStatementMatches this makes the scanner exactly the regex. |
| Svelte.FindAllFrom | svelte.go:323 | FindAllStringSubmatch: every match lies in the text at or after the scan position and captures a word as its module. |
| Svelte.FoundInOrder | svelte.go:323 | The reported matches come in the order of the text and do not overlap. |
| Svelte.FoundAreMatches | svelte.go:323 | Every reported match is the regex's match at its start position. |
| Svelte.FindAllFromMisses | svelte.go:323 | A position that no reported match covers is not the start of a match. Matches are leftmost and none is skipped. |
| Svelte.ModuleNames | svelte.go:319-326 | One module name per regex match, each a non-empty run of `[A-Za-z0-9_]`. |
| Svelte.NoImportNoModules | svelte.go:320-326 | A text that never contains "import" yields no module. |
| Svelte.FirstMatchIsImport | svelte.go:322-323 | A text with a module name contains "import". |
| Svelte.ImportStatementMatches | svelte.go:322 | An import statement with any non-empty whitespace runs, word binding, word module and either quote is matched whole at its position, with its binding and module captured. |
| Svelte.SingleImportStatement | svelte.go:319-342 | parseSvelte on exactly one import statement returns exactly its module name. |
| Svelte.MixedQuotes | svelte.go:322 | The two quotes are matched independently: `from 'axios"` yields "axios". |
| Svelte.Survivors | svelte.go:328-340 | The removal loop never lengthens the list. |
| Svelte.RemoveRuntimeModules | svelte.go:328-340 | The backwards deletion loop on a slice computes the right-fold `Survivors`, a panic included. |
| Svelte.SurvivorsStep | svelte.go:328-340 | One loop step: a name that is a ".svelte" file and contains '/' deletes twice; one that is only one of those deletes once; any other name is kept. |
| Svelte.SurvivorsFilter | svelte.go:328-340 | Without such double hits, the loop keeps exactly the names that are neither ".svelte" files nor contain '/', in their order. |
| Svelte.SurvivorsPanicSpreads | svelte.go:331-338 | A panic in the loop over a suffix is a panic of the whole loop. |
| Svelte.DoubleDeletion | svelte.go:330-338 | "ui/Nav.svelte" alone makes the loop panic. Before "axios", it deletes "axios" too. |
| Svelte.WordsSurvive | svelte.go:328-340 | On word names, which is all the regex captures, the loop deletes nothing. |
| Svelte.WordIsKept | svelte.go:330-337 | A word name has no '/' and no extension. |
| Svelte.ParseSvelte | svelte.go:319-343 | parseSvelte returns the regex's module captures in textual order. |
| Svelte.InstallArg | svelte.go:358-360 | A component yields an install argument exactly when it imports a module. |
| Svelte.ModuleParser | svelte.go:349-379 | The walk loop issues the install commands, and ends as the reference walk does: completed, stopped by a read or install error, or panicked on a stat error. |
| Svelte.WalkModulesUnfold | svelte.go:350-377 | One walk step: a stat error panics; a directory or a file that is not ".svelte" is skipped; a read error stops the walk; a component without imports is skipped; otherwise its command is issued, and an install error stops the walk after it. |
| Svelte.WalkInstallsPrefix | svelte.go:350-377 | The commands issued are a prefix of one command per importing component, in walk order. A completed walk issues all of them. |
| Svelte.WalkIgnoresOtherFiles | svelte.go:351-353 | Directories and files whose extension is not ".svelte" do not change the walk. |
| Svelte.InstallArgSplits | svelte.go:360-362 | The single command argument, split at spaces, gives back exactly the module names. |
| Svelte.ModulesShareOneArgument | svelte.go:360-362 | As written, two or more modules reach npm as one argument that contains a space, so the command is not `npm i` followed by each module. |
| Svelte.TwoModulesAsWritten | svelte.go:360-362 | As written, a component importing `a` and `b` runs `npm i "a b"` (three arguments), not `npm i a b`. |
| Svelte.InstallCommandNamesEach | svelte.go:360-362 | Corrected: the package arguments are exactly the module names in import order, none contains a space, and they are the pieces of the as-written argument. |
| SvelteBuild.ImportedApp | svelte.go:206-212 | Reading the import target out of an entry text is the inverse of writing it. |
| SvelteBuild.BootstrapRoundTrip | svelte.go:91-104 | The entry text written for a target imports exactly that target. |
| SvelteBuild.CustomAppImportNamesApp | svelte.go:206-212 | With a root directory, the entry imports "App.svelte" or a path ending in "/App.svelte", and holds no backslash. |
| SvelteBuild.DefaultWrite | svelte.go:89-108 | TypeScript writes main.ts then global.d.ts; JavaScript writes main.js. It succeeds exactly when each of its files can be written, and they then hold the default texts. A failed global.d.ts is `errCustomGlobaldts` with main.ts already written; a failed entry file is `errCustomMaints` with nothing written. |
| SvelteBuild.WriteDefaultBootstrap | svelte.go:89-108 | The write proceeds as `DefaultWrite` states. |
| SvelteBuild.EnvFoldersShape | svelte.go:47-58 | After the folder step both folders exist, the workspace is a directory unless it was a regular file, and no other entry is added or changed. |
| SvelteBuild.NewEnv | svelte.go:41-114 | The folders exist afterwards, and nothing outside the workspace changes. On success the entry file and, for TypeScript, global.d.ts hold the default texts, and the workspace can be listed unless it is a regular file. |
| SvelteBuild.NewSvelteEnv | svelte.go:41-114 | Each folder is created when stat reports it missing, and nothing else changes. Then, in order: no npx is `errNpxNotFound`; a failed clone is wrapped as "error during sveltejs/template clone (...)"; a failed `npm i` is `errNpmI`, with the template already in place; otherwise the default bootstrap is written as `DefaultWrite` states. |
| SvelteBuild.Prepared | svelte.go:123-132 | A workspace that exists and can be listed is used as it is. Otherwise it is created, and without npx that fails with `errNpxNotFound`. A successful check leaves a workspace that can be listed, unless it is a regular file. Nothing outside the workspace changes. |
| SvelteBuild.PrepareEnv | svelte.go:123-132 | The check proceeds as `Prepared` states. |
| SvelteBuild.StageInput | svelte.go:142-175 | A stat error on the input is returned. Success needs the copy to succeed. In folder mode, a missing `<env>/src/<file>/App.svelte` after the copy is `errNoDefaultApp`. |
| SvelteBuild.CustomWrite | svelte.go:203-217 | The custom entry goes to main.ts when it exists, otherwise to main.js, and succeeds exactly when that file can be written. The written entry imports the component's App.svelte. A failure is `errCustomMaints` and writes nothing. |
| SvelteBuild.WriteCustomBootstrap | svelte.go:203-217 | The write proceeds as `CustomWrite` states. |
| SvelteBuild.CleanedSrcIsEmpty | svelte.go:283-289 | Right after cleanDir of `src`, main.ts does not exist and both entry files can be written. |
| SvelteBuild.RestoredSrcHoldsBootstrap | svelte.go:283-308 | After the restore, `src` holds only the entry file (and global.d.ts for TypeScript), and the entry imports "App.svelte". Everything outside `src` is unchanged. |
| SvelteBuild.RestoreBootstrapAsWritten | svelte.go:283-308 | As written: on success the restore always yields the JavaScript entry. |
| SvelteBuild.TypeScriptTestAfterClean | svelte.go:283-289 | As written, the main.ts test after the clean can never succeed. |
| SvelteBuild.RestoreBootstrap | svelte.go:283-308 | Corrected: the language is read before the clean, and the restore writes the entry of that language. |
| SvelteBuild.TypeScriptKept | svelte.go:283-308 | With the correction, a TypeScript workspace gets main.ts back and no main.js. |
| SvelteBuild.BuildOutcome | svelte.go:252-308 | A panicking module walk panics with its error; an install error does not stop the build. Then rollup, the JavaScript copy and the CSS copy fail in that order. A build that gets that far succeeds exactly when `src` is not under a file, and fails with "not a directory" otherwise. |
| SvelteBuild.BuildAndRestore | svelte.go:252-308 | The build ends as `BuildOutcome` states. A failed build changes nothing. A successful one leaves the sources restored as the program writes them: only main.js, even in a TypeScript workspace. |
| SvelteBuild.BeforeBuild | svelte.go:120-217 | A listed workspace with a staging error returns that error and changes nothing. An unlisted workspace without npx fails with `errNpxNotFound`. Success leaves a listed workspace, unless it is a regular file. With a root directory, success leaves an entry file that imports the component's App.svelte. |
| SvelteBuild.CompileSvelteFile | svelte.go:120-315 | A failure before the build returns the error of `BeforeBuild`, with its tree. Otherwise the outcome is that of `BuildOutcome` on the tree `BeforeBuild` leaves. A failed build changes nothing more. A successful one leaves `src` holding only main.js, which imports "App.svelte", whatever the workspace's language. |
| GoSvelt.Map.Add | gosvelt.go:23-25 | Map.Add sets that key to the value and no other key changes. |
| GoSvelt.Map.Del | gosvelt.go:27-29 | Map.Del makes that key read nil, no other key changes, and deleting an absent key changes nothing. |
| GoSvelt.Lookup | gosvelt.go:31-33 | Map.Get of an absent key is nil. |
| GoSvelt.AddThenLookup | gosvelt.go:23-33 | Add then Get returns the value; other keys read as before. |
| GoSvelt.DelThenLookup | gosvelt.go:27-33 | Del then Get returns nil; other keys read as before. |
| GoSvelt.Registry.Middleware | gosvelt.go:198-200 | Registering a middleware at a path replaces what was there and leaves the Svelte registry alone. |
| GoSvelt.Registry.SvelteMiddleware | gosvelt.go:202-204 | The same for Svelte middlewares. |
| GoSvelt.SelectedAt | gosvelt.go:425-430 | A request selects exactly the registrations whose path is a prefix of it, plus "*"; the Svelte handler tests its own middleware list the same way. |
| GoSvelt.SelectionGrows | gosvelt.go:425-430 | A longer request path selects every registration a shorter one it extends selects. |
| GoSvelt.WildcardsSelectAll | gosvelt.go:427 | "*" and "" are selected by every request path. |
| GoSvelt.PrefixIsTextual | gosvelt.go:427 | The prefix test is on characters, not path segments: "/api" selects "/apiary". |
| GoSvelt.ReregisterReplaces | gosvelt.go:198-204 | Registering twice at a path is the same as registering the second function once. |
| GoSvelt.Chunk | gosvelt.go:330 | One name piece is 1 to 8 lowercase hex characters and reads back as the drawn number. |
| GoSvelt.ComponentName | gosvelt.go:329-333 | The loop ends. The name is the concatenation of the first pieces drawn, in lowercase hex, 8 to 15 characters long, using 1 to 8 draws, and without its last piece it would be shorter than 8. |
| GoSvelt.Gpath | gosvelt.go:354-362 | An empty path panics. Otherwise exactly one trailing '/' is removed, if present. |
| GoSvelt.GpathTrimsOne | gosvelt.go:357-358 | One trailing slash is removed and only one. A path without one is unchanged. |
| GoSvelt.RoutesFor | gosvelt.go:364-376 | The page is served at the path, and the bundles at gpath + "/bundle/bundle.js" and gpath + "/bundle/bundle.css". |
| GoSvelt.RoutesShape | gosvelt.go:336-376 | The bundle files lie in the component's folder under `./.svelte_workdir`, as `bundle.js` and `bundle.css`. A path with a trailing slash gets the same bundle routes as without it. |
| GoSvelt.AddSvelte | gosvelt.go:326-377 | The component folder is created only when missing, and that MkdirAll cannot fail in the model's tree. A compile error is fatal, and an empty path panics after compiling. Otherwise the routes are those of the drawn name. |
| GoSvelt.AdvancedSvelteArgs | gosvelt.go:314-320 | An empty file name panics; otherwise the arguments are passed on unchanged. |
| GoSvelt.SvelteArgs | gosvelt.go:309-311 | Svelte passes its file in the root position, with an empty file name. |
| GoStd.Atoi | context.go:123 | strconv.Atoi on a digit string is its value, saturated at the largest int. |
| Context.PlaceholderAt | context.go:120-140 | A placeholder is "&{", a non-empty run of key characters, and "}". |
| Context.Replacement | context.go:121-151 | Positional: an index in 1..len(args) is replaced by that argument if every argument is a string, and panics otherwise; any other index is kept. Map: a present key with a string value is replaced by it; any other key is kept and nothing panics. |
| Context.KeptTextUnchanged | context.go:121-141 | When the callback keeps every placeholder, the text is unchanged. |
| Context.NoAmpersandUnchanged | context.go:120-151 | A text without '&' is unchanged in either mode. |
| Context.NoStringValuesKeepAll | context.go:144-150 | A Map without string values keeps every placeholder. |
| Context.OnePlaceholder | context.go:121-151 | A single placeholder becomes the callback's answer: itself, the replacement text, or a panic. |
| Context.PlaceholderInText | context.go:121-151 | One left-to-right pass: in plain text, then a placeholder, then any tail, the plain text is copied, the placeholder becomes the callback's answer (itself when kept), and the tail is substituted on its own. A panic of the callback, here or in the tail, is a panic of the whole call. |
| Context.PlaceholderHead | context.go:121-151 | A text that opens with a placeholder gives the callback's answer for it (the placeholder itself when kept), followed by the substitution of the rest; a panic of the callback is a panic of the whole call. |
| Context.PlainHead | context.go:121 | A character other than '&' at the front is copied, followed by the substitution of the rest. |
| Context.PositionalReplaced | context.go:120-131 | `&{n}` with 1 ≤ n ≤ len(args), all arguments strings, becomes args[n-1]. |
| Context.InsertedTextNotRescanned | context.go:121 | An argument that itself looks like a placeholder is inserted verbatim; the pass does not rescan. |
| Context.ZeroKept | context.go:125-134 | `&{0}` is kept, whatever the arguments are. |
| Context.OutOfRangeKept | context.go:122-134 | An index past the arguments is kept, including one whose digits overflow an int. |
| Context.NonStringPanics | context.go:127-130 | An in-range index with any non-string argument panics. |
| Context.LeadingZeroSameArgument | context.go:122-123 | `&{01}` selects the same argument as `&{1}`. |
| Context.KeyedReplaced | context.go:140-151 | Map mode: `&{key}` becomes the key's string value; a missing key or a non-string value keeps it. |
| Context.HtmlBody | context.go:96-155 | A template with an extension is read as a file, and a read error is returned. Empty args panic. A first argument that is neither a string nor a Map gives "args must be ...string or gosvelt.Map". Otherwise the rendered body is exactly the substitution of the template text in the selected mode, and a panic of the callback is a panic of Html. |
| Context.TrailingDotReadsFile | context.go:99 | "Hello." has the extension ".", so Html tries to open it as a file. |
| Context.PlainTextRendered | context.go:137-151 | A template without file extension in Map mode with no string values is rendered unchanged. |
| Context.Context.Html | context.go:96-163 | When rendering fails, the reply is the error or panic and nothing is written. Otherwise the content type, the status and the appended body are written, and a nil request context panics. The store is untouched. |
| Context.RedirectGuard | context.go:282-284 | Codes outside 300..308 are refused with "redirect: code must be between 300 and 308". |
| Context.Context.Redirect | context.go:281-290 | A refused code writes nothing. Otherwise the redirect is recorded on the request, and a nil request context panics. |
| Context.StoreSet | context.go:69-78 | Set creates a nil store. The key then holds the string, and every other key is unchanged. |
| Context.StoreGet | context.go:80-85 | Get answers exactly for a present key holding a string. A nil store, a missing key or another value is a failed type assertion. |
| Context.SetThenGet | context.go:69-85 | Set then Get of a key gives the value; other keys read as before. |
| Context.EmptyStoreAnswersNothing | context.go:36-92 | After update or CacheReset (empty store) and after reset (nil store), every Get fails. |
| Context.Context.Set | context.go:69-78 | Set writes the store as `StoreSet`, after which Get of the key returns the value. |
| Context.Context.CacheReset | context.go:87-92 | CacheReset leaves an empty store. |
| Context.Context.Update | context.go:36-40 | update attaches the request and an empty store. |
| Context.Context.Reset | context.go:42-45 | reset clears both the request and the store. |

## Left out

- External programs and network: `exec.LookPath("npx")`, `git.PlainClone`,
  `npm i`, `npx rollup -c` and `npx postcss` are outcome parameters, and
  their effects on the tree are not modelled. The exception is the clone,
  whose tree is given.
- The tailwind branch of compileSvelteFile (svelte.go:219-250, 262-270) is
  not modelled. The model is the call with `tailwind == false`.
- SvelteBuild.StageInput: the copies of `copyDir` and `copyFile` are outcome
  parameters, and the files they would create are not added to the tree.
  Only their errors are modelled, and the App.svelte test reads the tree as
  it was.
- SvelteBuild.BuildAndRestore: the bundle copies to the component folder are
  outcome parameters, and their files are not added to the tree.
- SvelteBuild.NewSvelteEnv: the cloned template is a given map, and only its
  entries inside `.svelte_env` are added to the tree. A real clone into a
  non-empty folder fails; here that is up to the clone outcome. The `npm i`
  of the template is an outcome, and `temporaryText` is left out.
- Utils.FileSystem.RemoveAll: "/" is refused like ".", where Go would remove
  everything. No call in the core passes either.
- Svelte.MatchAt: its own contract states only the shape of a match. That a
  match is exactly an import statement is stated by Svelte.MatchIsStatement
  and Svelte.ImportStatementMatches.
- `file(inFile)` (svelte.go:159) is not defined in the repository's Go files;
  it is modelled as `filepath.Base`.
- `exist` (svelte.go:172, 205, 289) is not defined either; it is modelled
  as utils.go's `fileExists`.
- `compileSvelteFile`'s `tailwind` parameter is a `bool`, but
  gosvelt.go:349 passes a configuration value. The functions are modelled
  one by one, not through that call.
- `Start`/`StartTLS`, the router, HTTP/2, `Context.File`, `Json`, `Proto`,
  `Ws`, `Sse`, cookies and the default error handler are left out. They are
  HTTP plumbing with no logic to state.
- `calculateTreeHash` is not called from any shown file; it is modelled on
  its own.
- Middleware chaining is left out: `mid(h)` discards its result, so only the
  selection rule is modelled.
- Concurrency is left out: `sync.Pool`, the `RWMutex` around the store, and
  the goroutines of `temporaryText` and of server-sent events. The store is
  modelled sequentially.
- Randomness: `rand.Uint32` draws are a parameter, and the seeding from the
  clock is left out.
- Context.Context.Redirect: how fasthttp resolves the URL and maps the code
  onto a redirect status is fasthttp's own logic. The model records the URL
  and code it is given.
- Context.HtmlBody: `os.Open` and `ioutil.ReadAll` are one `readFile`
  parameter, and their two error sources are merged.
- Context.OutOfRangeKept, Context.PositionalReplaced and
  Context.NonStringPanics assume fewer than 2^63 arguments, as any Go slice
  has.
- GoSvelt.AddSvelte: the compile step is an outcome parameter, and
  `log.Fatal` ends the process (`Fatal`). The component folder is created in
  the tree, but the compiled bundle files are not. The panic on a MkdirAll
  error (gosvelt.go:343-345) is not modelled: in the model's tree that
  MkdirAll cannot fail, while a real one fails on an unwritable or
  read-only `./.svelte_workdir`.
- The file tree has no permissions and no I/O failures. The only file-system
  errors modelled are structural: a regular file on the path, the root, or a
  directory where a file is written. So the "fails exactly when" contracts of
  Utils.FileSystem.RemoveAll, Utils.FileSystem.MkdirAll,
  Utils.FileSystem.WriteFile, Utils.FileSystem.CleanDir and
  SvelteBuild.BuildOutcome are exact only for such a tree; EACCES, EROFS,
  ENOSPC and device errors are left out.
- The workspace is addressed as cleaned path elements (`[".svelte_env",
  "src", "main.ts"]`), which is what `filepath.Clean` makes of the source's
  literal paths.

## Findings

| source | as written | input that shows it | evidently intended | confidence | as-written member | corrected member |
|---|---|---|---|---|---|---|
| svelte.go:283-308 | After `cleanDir(./.svelte_env/src)` the code asks whether `src/main.ts` exists, which after the clean it never does. The TypeScript entry is therefore never restored, and `main.js` is written instead. | A TypeScript workspace (`src/main.ts` present) after any successful build | Restore the entry of the workspace's language (main.ts and global.d.ts for TypeScript), deciding that before the clean | not executed | SvelteBuild.RestoreBootstrapAsWritten | SvelteBuild.RestoreBootstrap |
| svelte.go:358-362 | The module names are joined with spaces and passed to `exec.Command("npm", "i", modules)` as one argument, so npm is asked for a single package whose name contains spaces. | A component that imports `a` and `b`: the command is `npm i "a b"` | `npm i a b`: each module as an argument of its own | not executed | Svelte.ModulesShareOneArgument | Svelte.InstallCommandNamesEach |

The build (`SvelteBuild.BuildAndRestore`, `SvelteBuild.CompileSvelteFile`)
runs the restore as written, so its contracts state what the program does.
`SvelteBuild.RestoreBootstrap` is the corrected restore, and
`SvelteBuild.TypeScriptKept` states what it achieves.

The module walk (`Svelte.ModuleParser`) likewise passes npm the single
joined argument, as the program does. `Svelte.InstallCommand` is the
corrected command line, and `Svelte.InstallCommandNamesEach` states what it
achieves.
