# project-scaffold, modelled in Dafny

`project-scaffold` is a command-line tool. Its `init <project-name>` command
creates a backend project from embedded templates, and plugins can then patch
the generated files. This project models the deterministic core of that tool
and proves properties about it:

- **Generator** (`generator.dfy`) covers several parts of the generator:
  - the closed key tables `ParseStackKey`, `ParseDatabaseKey`, `stackDir`
    and `dbDir`;
  - the options check `validate`;
  - the per-file output-path rule of `Generate`: strip the base, skip the
    Docker templates when Docker is off, drop `.tmpl`, and rename the
    reserved dotfiles;
  - `Generate` itself, a loop over the walked templates that writes each
    rendered file and stops at the first failure.
- **Auth** (`auth.dfy`) covers the `auth` plugin:
  - `injectAtMarker`, which finds the first marker line, copies its indent,
    splices in the non-empty injection lines and joins the text again;
  - `appendEnvExample`;
  - the plugin's own template walk `writeTemplates`;
  - the per-stack handlers and the `Apply` dispatch.
- **Registry** (`registry.dfy`) is the plugin registry: a class with a map
  field and `Register`, `Get`, `List` and `CompatibleWith`.
- **Cli** (`cli.dfy`) covers the pure parts of `init`:
  - the argument check;
  - the flag handling before the prompts, including the Docker flag conflict
    and the `--node-variant` normalisation;
  - `parsePluginsFlag`;
  - `friendlyInitError`.
- **Files** (`files.dfy`) is the file system. It is a `FileSystem` object
  whose `files` map and `dirs` set are updated in place by `MkdirAll` and
  `WriteFile`; `ReadFile` only reads them. The effect of each of these is
  given by a function on `FsState` values. The same module holds:
  - the read-only embedded template trees (`TemplateFS`) and the order in
    which `fs.WalkDir` visits their files;
  - `Run`, the shared "apply the callback to each file and stop at the first
    error" fold, with lemmas on the paths it writes, the files it leaves
    alone and the text each written file ends up holding.
- **Text** (`text.dfy`) holds the ASCII versions of the `strings` functions
  used. **Errors** (`errors.dfy`) holds one constructor per error the code
  creates, with the text that its `Error()` method returns.

Every method that changes the file system is proved to leave exactly the
state given by its specification function (`…Spec`). The lemmas then state
what the code promises in terms of those functions.

The template engine is a function-typed parameter: `Renderer` for the
generator, which runs with `missingkey=error`, and `PluginRenderer` for the
plugin, which runs with the library defaults. Either one can return
`ParseFailed` or `ExecFailed`.

The Docker skip rule (`internal/generator/generator.go:113-117`) compares the
whole path relative to the base, not its last segment. So does `mapDotfiles`
(`internal/generator/generator.go:151-160`). As a result, a
`sub/Dockerfile.tmpl` is written even with Docker off, and a
`sub/env.example.tmpl` keeps its name.

## Model

| member | source | states |
|---|---|---|
| Generator.NormalizeKey | internal/generator/generator.go:24 | (no contract) the key trimmed of surrounding white space and lower-cased, as both key switches compare it (also at line 43) |
| Generator.ParseStackKey | internal/generator/generator.go:23-32 | after trimming and lower-casing, `go-gin` gives the Gin stack and `node-express` the Express stack; every other key is an `invalid stack` error that carries the original key |
| Generator.ParseDatabaseKey | internal/generator/generator.go:42-53 | `postgresql`/`postgres`, `mongodb`/`mongo` and `sqlite` (case- and space-insensitive) name the three databases; everything else is an `invalid db` error |
| Generator.DatabaseNamed | internal/generator/generator.go:43-52 | the database switch on a normalised key: the five accepted spellings and None otherwise |
| Generator.StackDir | internal/generator/generator.go:175-184 | succeeds exactly for the two stacks; any other value is `unsupported stack` |
| Generator.DbDir | internal/generator/generator.go:186-197 | succeeds exactly for the three databases; any other value is `unsupported database` |
| Generator.StackDirParses | internal/generator/generator.go:175-184 | round trip: parsing the directory name of a supported stack gives that stack back |
| Generator.ParsedStackHasDir | internal/generator/generator.go:23-32 | round trip the other way: a parsed stack's directory is the normalised key |
| Generator.DbDirParses | internal/generator/generator.go:186-197 | round trip: parsing the directory name of a supported database gives that database back |
| Generator.ParsedDatabaseHasDir | internal/generator/generator.go:42-53 | a parsed database's directory is its canonical key; the aliases `postgres` and `mongo` become `postgresql` and `mongodb` |
| Generator.CanonicalDbKey | internal/generator/generator.go:43-49 | (no contract) the directory spelling of a normalised database key |
| Generator.Validate | internal/generator/generator.go:162-173 | passes exactly when the trimmed name is non-empty and stack and database are supported; a blank name is reported first, then an unsupported stack, then an unsupported database, each with its own error |
| Generator.Base | internal/generator/generator.go:83 | (no contract) the template directory `scaffolds/<stack>/<db>` of a stack and database pair |
| Generator.MapDotfiles | internal/generator/generator.go:151-160 | changes a path exactly when it is `env.example` or `gitignore`, which become `.env.example` and `.gitignore` |
| Generator.MapDotfilesIdempotent | internal/generator/generator.go:151-160 | mapping twice is mapping once |
| Generator.RelPath | internal/generator/generator.go:107-111 | for a path below the base, the base and the slash followed by the result give the path back |
| Generator.OutputRel | internal/generator/generator.go:113-120 | a template is skipped exactly when Docker is off and it is `Dockerfile.tmpl` or `docker-compose.yml.tmpl` |
| Generator.OutputRelNames | internal/generator/generator.go:119-120 | a kept template loses `.tmpl`, and the two reserved names (with or without `.tmpl`) become dotfiles |
| Generator.FileStep | internal/generator/generator.go:99-148 | one callback never removes a file and changes no file but its output path; on success it adds exactly that path (or nothing for a skipped template), which then holds the rendered template; it succeeds exactly when the template is skipped, or its directory can be made, it reads and renders, and the output is neither a directory nor read-only |
| Generator.Dest | internal/generator/generator.go:107-121 | (no contract) the output path of a walked template, or none when it is skipped |
| Generator.RenderedText | internal/generator/generator.go:127-142 | (no contract) the text a template renders to when it can be read and rendered |
| Generator.GenerateSpec | internal/generator/generator.go:69-149 | (no contract) validate, check the tree, create the target directory, then walk; its properties are the lemmas below |
| Generator.GenerateFile | internal/generator/generator.go:106-147 | the callback on the file system leaves exactly the state and error of `FileStep` |
| Generator.Generate | internal/generator/generator.go:69-149 | the file system ends in exactly the state, and the call returns the error, that `GenerateSpec` gives for the starting state |
| Generator.WalkTemplates | internal/generator/generator.go:99-148 | the loop over the walked files ends in the state and error of the `Run` fold |
| Generator.InvalidOptionsTouchNothing | internal/generator/generator.go:69-72 | invalid options return the validation error and leave the file system unchanged |
| Generator.MissingTreeTouchesNothing | internal/generator/generator.go:83-88 | a valid pair with no template tree returns a "template not found" error and does not create the target directory |
| Generator.FileStepWritesDest | internal/generator/generator.go:119-146 | each callback writes exactly its mapped output path, keeps every other file with its contents, and on success leaves the rendered template there |
| Generator.GenerateIsWalk | internal/generator/generator.go:83-99 | past validation and the tree check, generation is the walk started after the target directory was created |
| Generator.WalkWrites | internal/generator/generator.go:99-148 | a walk that completes adds exactly the output paths of the templates that are not skipped |
| Generator.WalkAbortKeepsWrites | internal/generator/generator.go:99-148 | a failing walk returns the error of some template `k`, and the outputs of every template before `k` stay on disk |
| Generator.GeneratedTree | internal/generator/generator.go:69-149 | a successful `Generate` adds exactly one file per template that is not skipped, at its mapped path |
| Generator.GenerateKeepsOthers | internal/generator/generator.go:69-149 | successful or not, a generation changes no existing file that is not the output path of a walked template |
| Generator.GeneratedContents | internal/generator/generator.go:119-146 | after a successful generation, the output path of a template holds that template rendered, unless a later template has the same output path |
| Generator.RelPathBelow | internal/generator/generator.go:107-111 | a file directly below the base has its own name as relative path |
| Generator.DockerTemplatesSkipped | internal/generator/generator.go:113-117 | with Docker off, the two top-level Docker templates produce no output |
| Generator.DockerOnSkipsNothing | internal/generator/generator.go:113-117 | with Docker on, every template produces an output |
| Generator.DotfileTemplates | internal/generator/generator.go:119-121 | `env.example.tmpl` and `gitignore.tmpl` directly below the base go to `.env.example` and `.gitignore` in the target directory |
| Generator.GeneratedDotfiles | internal/generator/generator.go:119-146 | after a successful generation, `.env.example` and `.gitignore` exist whenever the tree holds their templates |
| Generator.InTargets | internal/generator/generator.go:99-148 | every walked template that is not skipped contributes its output path |
| Errors.TemplateNotFoundSaysSo | internal/generator/generator.go:85 | the text of a missing-tree error starts with "template not found" |
| Errors.TemplateNotFoundIsRecognised | internal/generator/generator.go:85 | the text of a missing-tree error contains "template not found" |
| Errors.Message | internal/generator/generator.go:30-195 | (no contract) the text each error gives, as in the `errors.New` and `fmt.Errorf` calls of the three core files |
| Files.Dir | internal/generator/generator.go:123 | the parent of a path is never empty and is the part before its last slash: "." when there is no slash, "/" when the only slash leads the path, otherwise a proper prefix followed by a slash after which no slash follows |
| Files.MkdirAllSpec | internal/generator/generator.go:123-125 | `MkdirAll` never changes files and never removes a directory; it succeeds exactly when the path is non-empty and is already a directory or has no file among itself and its parents, and then the directory exists |
| Files.WriteSpec | internal/generator/generator.go:144-146 | a write succeeds exactly when the path is neither a directory nor refused by the host, and then replaces or creates that file alone |
| Files.ReadSpec | internal/plugin/auth/plugin.go:123-126 | (no contract) the contents of a file, or the path error for a directory or a missing path |
| Files.PrimitivesKeepConsistent | internal/generator/generator.go:123-146 | creating directories and writing files keep files and directories disjoint and never remove a file |
| Files.FileSystem.MkdirAll | internal/generator/generator.go:88-90 | the object's new state and error are those of `MkdirAllSpec` |
| Files.FileSystem.WriteFile | internal/generator/generator.go:144-146 | the object's new state and error are those of `WriteSpec` |
| Files.FileSystem.ReadFile | internal/plugin/auth/plugin.go:123-126 | returns the contents exactly when the path is a file; otherwise a path error, which on a consistent state says `is a directory` for a directory |
| Files.JoinPath | internal/generator/generator.go:121 | (no contract) `filepath.Join` of two slash-separated paths: an empty side is dropped, otherwise the two are joined by one slash (also used at internal/plugin/auth/plugin.go:54-82, 114, 160) |
| Files.Walk | internal/generator/generator.go:99-105 | the walk visits exactly the tree's files under the base; it is empty exactly when no file lies under the base |
| Files.ReadTemplate | internal/generator/generator.go:127 | (no contract) `fs.ReadFile` on the embedded tree: the contents of a file of the tree, or a path error (also used at internal/plugin/auth/plugin.go:100) |
| Files.RunWrites | internal/generator/generator.go:99-148 | a walk whose every step writes its mapped path adds, when it completes, exactly the mapped paths of all items |
| Files.RunAbort | internal/generator/generator.go:99-148 | a failing walk stopped at an item `k`: every item before it succeeded, and the result is that of the step on `k` |
| Files.AbortKeepsEarlierWrites | internal/generator/generator.go:99-148 | when a walk fails at `k`, the outputs of the items before `k` remain: there is no rollback |
| Files.Run | internal/generator/generator.go:99-148 | (no contract) the walk fold: apply the callback to each item in order and return the first error |
| Files.RunKeepsOthers | internal/generator/generator.go:99-148 | a walk, complete or not, changes no file that is not the destination of one of its items |
| Files.RunLastWrite | internal/generator/generator.go:99-148 | after a complete walk, an item's destination holds that item's text when no later item writes the same path |
| Registry.Registry.constructor | internal/plugin/registry.go:5-8 | the registry starts empty |
| Registry.Registry.Register | internal/plugin/registry.go:10-14 | afterwards `Get(p.name)` is `p`, an earlier plugin of that name is replaced, and every other entry is unchanged |
| Registry.Registry.Get | internal/plugin/registry.go:16-20 | returns the registered plugin, or None (Go's nil) exactly when the name is not registered |
| Registry.Registry.List | internal/plugin/registry.go:22-30 | every registered name exactly once, so the length is the number of entries |
| Registry.Registry.CompatibleWith | internal/plugin/registry.go:32-45 | a name is in the result iff its plugin lists the stack; no name appears twice; so the result is a subset of `List` |
| Auth.IndentEndShape | internal/plugin/auth/plugin.go:134-141 | the character loop stops at the first character that is not a space or a tab |
| Auth.IndentEnd | internal/plugin/auth/plugin.go:134-141 | the end of the run of spaces and tabs lies between its start and the end of the line |
| Auth.Indent | internal/plugin/auth/plugin.go:134-141 | the indent is a prefix of the marker line |
| Auth.IndentShape | internal/plugin/auth/plugin.go:134-141 | the indent is made of spaces and tabs and is followed by neither |
| Auth.IndentIsLongest | internal/plugin/auth/plugin.go:134-141 | the indent is the longest prefix of spaces and tabs: any prefix with those properties equals it |
| Auth.LeadingIndent | internal/plugin/auth/plugin.go:134-141 | the loop with `break` computes exactly that indent |
| Auth.Pieces | internal/plugin/auth/plugin.go:142 | (no contract) one trailing newline of the injection dropped, then the rest split on newlines |
| Auth.Indented | internal/plugin/auth/plugin.go:142-148 | no more lines are inserted than there are pieces |
| Auth.IndentedLines | internal/plugin/auth/plugin.go:144-148 | the block has one line per non-empty piece, and line `j` is the indent followed by the `j`-th non-empty piece |
| Auth.NonEmptyAtPoints | internal/plugin/auth/plugin.go:144-146 | every listed position holds a non-empty piece |
| Auth.NonEmptyAtIncreasing | internal/plugin/auth/plugin.go:144-146 | the positions are listed in increasing order, so the block keeps the pieces' order |
| Auth.NonEmptyAtCovers | internal/plugin/auth/plugin.go:144-146 | no non-empty piece is left out |
| Auth.NonEmptyCount | internal/plugin/auth/plugin.go:144-146 | there are as many positions as non-empty pieces, so the block grows the file by exactly that many lines |
| Auth.Block | internal/plugin/auth/plugin.go:142-148 | (no contract) the indented non-empty pieces of the injection with one trailing newline dropped |
| Auth.IndentedEmpty | internal/plugin/auth/plugin.go:144-148 | nothing is inserted exactly when every piece is empty |
| Auth.IndentedAvoids | internal/plugin/auth/plugin.go:144-148 | a character in neither the indent nor any piece appears in no inserted line |
| Auth.IndentBlock | internal/plugin/auth/plugin.go:142-148 | the loop that appends `indent+inj` for each non-empty piece builds exactly the block |
| Auth.FindFrom | internal/plugin/auth/plugin.go:129-132 | a found index is in range, at or after the start, and its trimmed line equals the trimmed marker |
| Auth.IsMarker | internal/plugin/auth/plugin.go:130 | (no contract) a line matches when it equals the marker once both are trimmed |
| Auth.FindMarker | internal/plugin/auth/plugin.go:129-132 | a found index names a line that matches the marker once both are trimmed |
| Auth.FindFromFirst | internal/plugin/auth/plugin.go:129-133 | no line between the start and the found index matches; None exactly when no line from the start matches |
| Auth.FindMarkerFirst | internal/plugin/auth/plugin.go:129-133 | the first matching line is found, and none is found exactly when no line matches |
| Auth.FindFromAgrees | internal/plugin/auth/plugin.go:129-133 | lines that agree up to a first match have that first match too |
| Auth.FindMarkerAgrees | internal/plugin/auth/plugin.go:129-133 | the same for the search from the first line |
| Auth.InjectLines | internal/plugin/auth/plugin.go:127-152 | the injection fails exactly when no line matches the marker |
| Auth.SpliceAtMarker | internal/plugin/auth/plugin.go:128-152 | the loop with the `found` flag reports a match exactly when there is one, and then returns the injected lines; otherwise it returns the lines unchanged |
| Auth.SpliceAt | internal/plugin/auth/plugin.go:133-151 | the splice keeps the marker line in place and puts the block indented like it right after it |
| Auth.InjectText | internal/plugin/auth/plugin.go:127-156 | on the file's text: fails exactly when no line of the split text matches the marker |
| Auth.InjectedShape | internal/plugin/auth/plugin.go:149-150 | frame: the lines before the marker and the marker line are kept, the block follows, every later line (later markers included) keeps its order, and the count grows by the block's length |
| Auth.EmptyBlockKeepsLines | internal/plugin/auth/plugin.go:142-150 | an injection with no non-empty piece leaves the lines as they were |
| Auth.EmptyInjectionKeepsText | internal/plugin/auth/plugin.go:127-156 | such an injection leaves the text byte for byte as it was, through the split/join round trip |
| Auth.InjectedLinesAreLines | internal/plugin/auth/plugin.go:142-150 | no injected line contains a newline |
| Auth.SpliceTwice | internal/plugin/auth/plugin.go:149-150 | splicing the block again after the kept marker puts two copies side by side |
| Auth.InjectOnce | internal/plugin/auth/plugin.go:127-156 | the injected text splits back into the injected lines, and its first marker is still at the same line |
| Auth.InjectTwice | internal/plugin/auth/plugin.go:127-156 | not idempotent: a second injection succeeds, inserts a second copy of the block, and changes the text again whenever the block is non-empty |
| Auth.InjectSpec | internal/plugin/auth/plugin.go:122-157 | only the patched file can change and no file or directory is created or removed; on success the file holds `InjectText` of its old text; a file without the marker gives the "required marker" error with nothing changed; a missing file is an error with nothing changed; it succeeds exactly when the path is a file, not read-only, whose text has the marker, and every error leaves the state unchanged |
| Auth.MarkerMissingWritesNothing | internal/plugin/auth/plugin.go:153-155 | with no marker line, the result is the "required marker … not found" error and nothing is written |
| Auth.InjectAtMarker | internal/plugin/auth/plugin.go:122-157 | the object's new state and error are those of `InjectSpec` |
| Auth.AppendLine | internal/plugin/auth/plugin.go:165-168 | the original bytes are a prefix, the line is a suffix preceded by a newline, and exactly one newline is added iff the original does not end in one |
| Auth.AppendToEmpty | internal/plugin/auth/plugin.go:165-168 | an empty file gains a leading newline |
| Auth.AppendEnvSpec | internal/plugin/auth/plugin.go:159-169 | errors are the file system's, unwrapped, and leave the state unchanged; success replaces `.env.example` by the appended text; it succeeds exactly when `.env.example` is a file that is not read-only |
| Auth.AppendEnvExample | internal/plugin/auth/plugin.go:159-169 | the object's new state and error are those of `AppendEnvSpec` |
| Auth.TemplatesBase | internal/plugin/auth/plugin.go:89 | (no contract) the plugin template directory `templates/<stack>` |
| Auth.PluginDest | internal/plugin/auth/plugin.go:97-114 | a walked file has an output exactly when it ends in `.tmpl` |
| Auth.PluginStep | internal/plugin/auth/plugin.go:90-119 | one callback never removes a file and changes no file but its output path; on success it adds exactly that path, which then holds the rendered template; it succeeds exactly when the file is not a `.tmpl`, or it reads and renders, its directory can be made, and the output is neither a directory nor read-only |
| Auth.PluginText | internal/plugin/auth/plugin.go:101-110 | (no contract) the text a plugin template renders to when it can be read and rendered |
| Auth.WriteTemplatesSpec | internal/plugin/auth/plugin.go:88-120 | (no contract) the plugin's walk: the root error for a missing tree, otherwise the fold over its files |
| Auth.PluginFile | internal/plugin/auth/plugin.go:96-118 | the callback on the file system leaves exactly the state and error of `PluginStep` |
| Auth.WriteTemplates | internal/plugin/auth/plugin.go:88-120 | the walk on the file system leaves exactly the state and error of `WriteTemplatesSpec` |
| Auth.PluginStepWritesDest | internal/plugin/auth/plugin.go:112-118 | each callback writes exactly its mapped path, keeps every other file with its contents, and on success leaves the rendered template there |
| Auth.WriteTemplatesWrites | internal/plugin/auth/plugin.go:88-120 | a successful walk adds exactly one file per walked `.tmpl` file, at its output path |
| Auth.WriteTemplatesKeepsOthers | internal/plugin/auth/plugin.go:88-120 | successful or not, the walk changes no file that is not the destination of a walked `.tmpl` file |
| Auth.WriteTemplatesContents | internal/plugin/auth/plugin.go:112-118 | after a successful walk, a `.tmpl` file's destination holds it rendered, unless a later file has the same destination |
| Auth.PluginDestBelow | internal/plugin/auth/plugin.go:112-114 | a `.tmpl` file directly below the base goes to its name without `.tmpl` |
| Auth.NoDotfileRule | internal/plugin/auth/plugin.go:112-114 | the plugin walk renames no dotfile: `gitignore.tmpl` goes to `gitignore` |
| Auth.NoDockerRule | internal/plugin/auth/plugin.go:112-114 | the plugin walk skips no Docker template: `Dockerfile.tmpl` goes to `Dockerfile` |
| Auth.Wrapped | internal/plugin/auth/plugin.go:50-51 | wrapping keeps the state and success, and turns an error into `auth plugin: <error>` |
| Auth.ApplyGoGin | internal/plugin/auth/plugin.go:48-58 | the object's new state and error are those of `ApplyGoGinSpec` |
| Auth.ApplyNode | internal/plugin/auth/plugin.go:60-86 | the object's new state and error are those of `ApplyNodeSpec` |
| Auth.Apply | internal/plugin/auth/plugin.go:35-46 | the object's new state and error are those of `ApplySpec` |
| Auth.ApplyGoGinSpec | internal/plugin/auth/plugin.go:48-58 | (no contract) templates, the injection into `cmd/main.go`, then the JWT line, stopping at the first error |
| Auth.ApplyNodeSpec | internal/plugin/auth/plugin.go:60-86 | (no contract) templates, the two injections into the server file, then the JWT line, stopping at the first error |
| Auth.ApplySpec | internal/plugin/auth/plugin.go:35-46 | (no contract) the dispatch on the stack key |
| Auth.ApplyDispatchIsCompatibleStacks | internal/plugin/auth/plugin.go:31-46 | the "unsupported stack" error arises exactly for keys outside `CompatibleStacks`, and then nothing changes |
| Auth.GoGinErrorKinds | internal/plugin/auth/plugin.go:48-58 | the Gin handler fails only with a wrapped `auth plugin:` error or an unwrapped file-system error |
| Auth.NodeErrorKinds | internal/plugin/auth/plugin.go:60-86 | so do the two Express handlers |
| Auth.ApplyAddsJwtSecret | internal/plugin/auth/plugin.go:35-86 | after a successful `Apply`, `.env.example` exists and ends with the JWT line |
| Auth.GoGinAddsJwtSecret | internal/plugin/auth/plugin.go:48-58 | the same for the Gin handler |
| Auth.NodeAddsJwtSecret | internal/plugin/auth/plugin.go:60-86 | the same for both Express handlers |
| Auth.AppendEnvKeepsOthers | internal/plugin/auth/plugin.go:159-169 | appending to `.env.example` leaves every other file as it was |
| Auth.ServerIsNotEnv | internal/plugin/auth/plugin.go:65 | the server file below the target directory is never `.env.example` |
| Auth.NodeServerPatched | internal/plugin/auth/plugin.go:60-86 | a successful Express apply leaves the server file as the templates wrote it with the router import injected and then the route registration injected |
| Auth.OneLineBlock | internal/plugin/auth/plugin.go:142-148 | an injection without a newline becomes exactly one line, the indent followed by the injection |
| Auth.OneLineInjected | internal/plugin/auth/plugin.go:142-150 | a one-line injection adds one line, right after the first marker line, indented like it |
| Auth.InjectKeepsPair | internal/plugin/auth/plugin.go:149-150 | two adjacent lines, the first not the marker, stay adjacent after an injection |
| Auth.ExpressMarkersDiffer | internal/plugin/auth/plugin.go:65-68 | the import and routes markers never match the same line |
| Auth.ImportIsOneLine | internal/plugin/auth/plugin.go:65 | the router import has no newline |
| Auth.RoutesIsOneLine | internal/plugin/auth/plugin.go:68 | the route registration has no newline |
| Auth.OneLineFollowsMarker | internal/plugin/auth/plugin.go:127-157 | after a one-line injection some marker line is directly followed by the indented injection |
| Auth.InjectKeepsFollowedBy | internal/plugin/auth/plugin.go:127-157 | an injection at another marker keeps a marker line directly followed by its line |
| Auth.ImportThenRoutes | internal/plugin/auth/plugin.go:65-70 | after both injections the import marker is directly followed by the indented import and the routes marker by the indented route registration |
| Auth.NodeServerLines | internal/plugin/auth/plugin.go:60-86 | after a successful Express apply the server file has the import marker directly followed by the indented import and the routes marker directly followed by the indented route registration |
| Text.JoinSplit | internal/plugin/auth/plugin.go:127-156 | joining the pieces of a split gives back the original text |
| Text.SplitJoin | internal/plugin/auth/plugin.go:127-156 | splitting a join of newline-free pieces gives back the pieces |
| Text.SplitCount | internal/cli/init.go:292 | a split has one piece more than there are separators |
| Text.LowerChar | internal/generator/generator.go:24 | lower-cases exactly the ASCII capitals |
| Text.SkipSpacesShape | internal/generator/generator.go:24 | the forward scan stops at the first non-space character |
| Text.SkipSpacesBackShape | internal/generator/generator.go:24 | the backward scan stops just after the last non-space character |
| Text.TrimLeftShape | internal/generator/generator.go:24 | the leading white space, and only it, is removed |
| Text.TrimRightShape | internal/generator/generator.go:24 | the trailing white space, and only it, is removed |
| Text.TrimSpace | internal/plugin/auth/plugin.go:130 | `strings.TrimSpace` never lengthens its input |
| Text.TrimSpaceEdges | internal/plugin/auth/plugin.go:130 | the trimmed text neither starts nor ends with white space |
| Text.TrimSpaceInside | internal/cli/init.go:36-41 | every character of the trimmed text is in the original, and the trim is empty exactly when the original is all white space |
| Text.TrimSpaceKeepsTrimmed | internal/cli/init.go:295 | a string without white space at either end is its own trim |
| Text.TrimSpaceIdempotent | internal/cli/init.go:295 | trimming twice is trimming once |
| Text.ToLower | internal/generator/generator.go:24 | `strings.ToLower` keeps the length and lower-cases each character |
| Text.ToLowerKeepsLower | internal/generator/generator.go:24 | a string without capitals is unchanged |
| Text.ToLowerIdempotent | internal/cli/init.go:75 | lower-casing twice is lower-casing once |
| Text.ToLowerKeepsBlank | internal/cli/init.go:74-75 | lower-casing neither creates nor removes a blank string |
| Text.HasPrefix | internal/generator/generator.go:107-110 | (no contract) `strings.HasPrefix`: the string starts with the prefix |
| Text.HasSuffix | internal/plugin/auth/plugin.go:97 | (no contract) `strings.HasSuffix`: the string ends with the suffix (also at line 165) |
| Text.Contains | internal/cli/init.go:264 | (no contract) `strings.Contains`: the text occurs in the string at some offset |
| Text.TrimPrefix | internal/generator/generator.go:107-110 | `strings.TrimPrefix` removes the prefix once when present and otherwise changes nothing |
| Text.TrimSuffix | internal/generator/generator.go:119 | `strings.TrimSuffix` removes the suffix once when present and otherwise changes nothing |
| Text.PrefixIsContained | internal/cli/init.go:264 | a string contains each of its prefixes |
| Text.ContainedChars | internal/cli/init.go:264 | every character of a contained string occurs in the container |
| Text.ContainsAny | internal/cli/init.go:41 | `strings.ContainsAny` holds exactly when some character is one of the given ones |
| Text.IndexOf | internal/plugin/auth/plugin.go:127 | the first occurrence of a separator |
| Text.Split | internal/plugin/auth/plugin.go:127 | `strings.Split` gives at least one piece and no piece holds the separator |
| Text.Join | internal/plugin/auth/plugin.go:156 | (no contract) `strings.Join` with a one-character separator |
| Text.CountAbsent | internal/cli/init.go:292 | a string without the separator has no occurrence of it |
| Text.CountConcat | internal/cli/init.go:292 | occurrences add up over a concatenation |
| Text.Quote | internal/plugin/auth/plugin.go:154 | `%q` of a string that needs no escaping is the string between two double quotes |
| Cli.CheckArgs | internal/cli/init.go:32-46 | passes iff there is exactly one argument whose trimmed form is non-empty and holds none of `<>:"/\|?*`; a wrong count is reported first |
| Cli.CheckArgsReasons | internal/cli/init.go:36-44 | "cannot be empty" exactly for an all-white-space argument; "invalid path characters" exactly when the trimmed name holds a forbidden character |
| Cli.NodeVariant | internal/cli/init.go:74-79 | the result is "", `js` or `ts`; "" exactly for a blank flag; `ts` exactly when the trimmed lower-case flag is `ts` |
| Cli.NodeVariantIgnoresCase | internal/cli/init.go:74-79 | the variant does not depend on the case of the flag |
| Cli.NodeVariantIdempotent | internal/cli/init.go:74-79 | normalising a normalised variant changes nothing |
| Cli.StackFlag | internal/cli/init.go:60-66 | a blank `--stack` leaves the stack unset; otherwise it is the stack whose directory is the normalised key, or an `invalid stack` error, which comes exactly when the normalised key is neither empty, `go-gin` nor `node-express` |
| Cli.DatabaseFlag | internal/cli/init.go:67-73 | a blank `--db` leaves the database unset; otherwise it is the database whose directory is the canonical spelling of the normalised key (`postgres` and `mongo` widened), or an `invalid db` error, which comes exactly when the normalised key is neither empty nor one of `sqlite`, `postgres`, `postgresql`, `mongo`, `mongodb` |
| Cli.ResolveFlags | internal/cli/init.go:50-84 | the step-by-step flag handling returns what `FlagSettings` gives |
| Cli.DockerFlags | internal/cli/init.go:50-84 | both Docker flags are refused, whatever else is given, and this is the only source of that error; otherwise Docker is on exactly with `--docker`, and `--no-docker` turns it off; with neither flag the setting is left to the Docker prompt |
| Cli.FlagOutcomes | internal/cli/init.go:50-84 | the only errors are the Docker conflict and the two key errors, and the flags fail exactly when both Docker flags are given or a key is neither blank nor supported; a settled stack or database is the one its key names, and the variant is "", `js` or `ts` |
| Cli.FlagSettings | internal/cli/init.go:50-84 | (no contract) the flag handling before the prompts; its properties are the lemmas around it |
| Cli.DefaultNodeVariant | internal/cli/init.go:160-182 | (no contract) the language prompt of an interactive run, then the `js` default |
| Cli.NodeExpressHasVariant | internal/cli/init.go:160-182 | once the stack is known, `node-express` always has `js` or `ts`; without `--node-variant` it is `ts` exactly when an interactive run was answered `TypeScript`, so `js` when no prompt is shown; other stacks keep the flag's value |
| Cli.KeptLength | internal/cli/init.go:294-298 | no more names than pieces |
| Cli.KeptSnoc | internal/cli/init.go:294-298 | one more piece adds its own contribution (its trim, or nothing when blank) at the end |
| Cli.Keep | internal/cli/init.go:295-297 | (no contract) one piece contributes its trimmed text, or nothing when that is empty |
| Cli.Kept | internal/cli/init.go:294-298 | (no contract) the trimmed non-empty pieces, in order |
| Cli.PluginsFlag | internal/cli/init.go:288-300 | (no contract) nothing for a blank flag, otherwise the kept comma-separated pieces |
| Cli.ParsePluginsFlag | internal/cli/init.go:288-300 | the loop returns nothing for a blank flag, and otherwise the trimmed non-empty pieces |
| Cli.KeptEntries | internal/cli/init.go:294-297 | every kept name is non-empty, is its own trim, and holds no character that no piece holds |
| Cli.KeptConcat | internal/cli/init.go:294-299 | keeping works piece by piece, so names keep the left-to-right order of the pieces |
| Cli.KeptEmpty | internal/cli/init.go:294-299 | nothing is kept exactly when every piece is blank |
| Cli.PluginsFlagEntries | internal/cli/init.go:292-297 | every plugin name from the flag is non-empty, trimmed and free of commas |
| Cli.PluginsFlagCount | internal/cli/init.go:292-299 | there are at most as many names as commas plus one |
| Cli.PluginsFlagNone | internal/cli/init.go:288-299 | a flag whose pieces are all blank selects no plugin, and a non-blank flag selects none only then |
| Cli.FriendlyInitError | internal/cli/init.go:261-269 | the "not available" sentence exactly when the error text contains "template not found", and the generic sentence otherwise |
| Cli.MissingTemplateIsNotAvailable | internal/cli/init.go:261-269 | every missing-tree error of `Generate` is shown as an unavailable combination |
| Cli.BlankNameIsGeneric | internal/cli/init.go:261-269 | the blank-name validation error is shown with the generic sentence |

## Left out

- Real file system and host paths: `os.*` calls and `fs.WalkDir` work on an in-memory map. `filepath.Join` and `filepath.Dir` have no `Clean` step, host separators are not modelled, and permissions are reduced to a set of read-only paths.
- Files.Dir: without `Clean`, a doubled slash before the last name is kept: Go's `filepath.Dir("a//b")` is `a`, the model gives `a/`.
- Generator.ParseStackKey and Generator.ParseDatabaseKey: Go returns an empty stack or database alongside the error (`internal/generator/generator.go:30`, `51`); the model's `Result` carries only the error. No caller reads that value (`internal/cli/init.go:61-72`).
- Walk errors other than a missing root are not modelled. The walk visits the tree's regular files in a given order. A base that exists but holds no file is treated like a missing one; directories of the embedded tree are not modelled.
- `os.MkdirAll` is simplified: an existing directory is success, a file on the path is an error, and an empty path is an error.
- Template parsing and execution (`text/template`) are not modelled. The engine is a parameter that returns a rendered text or a failure.
- The `sync.RWMutex` of the registry is not modelled; the registry is sequential.
- Go's map iteration order is unspecified. `List` and `CompatibleWith` pick names in an arbitrary order and promise none.
- Prompts, the spinner, coloured output, TTY and environment detection, the existing-directory check, cobra wiring, flag registration, `printNextSteps`, and the plugin multi-select (`internal/cli/init.go:86-159`, `184-257`, `271-286`, `302-309`) are not modelled. Where prompt answers matter, they are parameters: the chosen stack, whether the run is interactive, and the answer to the language prompt (`Cli.DefaultNodeVariant`, `internal/cli/init.go:160-182`).
- `generator.StackKey`, `generator.EffectiveStackKey`, `Options.Plugins` and `Options.NodeVariant` are used by `init.go` but are not defined in `generator.go`, so they are not modelled. No code in the model calls a plugin's `Apply` after `Generate`.
- `internal/templates/templates.go` is only an `embed` declaration, and the template contents are not part of this model. `internal/plugin/plugin.go` has no behaviour; its shape is the `Registry.Plugin` and `Registry.Context` datatypes.
- `strings.TrimSpace` and `strings.ToLower` are ASCII-only: white space is the six ASCII white-space characters, and only `A`–`Z` are lower-cased.
- `os.WriteFile` into a directory that does not exist fails in Go with "no such file or directory"; `Files.WriteSpec` creates the file anyway. The generator and the plugin walk create the parent directory before each write, and the other writes rewrite a file that was just read, so this case only matters for a file system whose directories are missing below an existing file.
- `Text.Quote` stands for `%q` without Go's escaping of quotes, backslashes and control characters. Only the words around quoted values matter to the properties.
- `Cli.FriendlyInitError` is proved to choose the generic sentence for the blank-name error only. Error texts embed user input, so "every other error" cannot be stated for all errors.
