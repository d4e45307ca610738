/**
  The project generator: the closed tables that turn user keys into a stack and
  a database and those into template directories, the options check, the
  per-file output-path rule, and `Generate`, which walks the template tree of
  the chosen stack and database and writes each rendered file below the target
  directory, stopping at the first failure.
 */
module Generator {
  import opened Wrappers
  import opened Text
  import opened Errors
  import opened Files

  // ---------------------------------------------------------------- stacks and databases

  /** A stack is the display name of a backend framework (Go's `type Stack string`). */
  type Stack = string

  const StackGoGin: Stack := "Go (Gin)"
  const StackNodeExpress: Stack := "Node.js (Express)"

  /** A database is its display name (Go's `type Database string`). */
  type Database = string

  const DBPostgreSQL: Database := "PostgreSQL"
  const DBMongoDB: Database := "MongoDB"
  const DBSQLite: Database := "SQLite"

  /** What the key switches compare: the key trimmed, then lower-cased. */
  function NormalizeKey(key: string): string {
    ToLower(TrimSpace(key))
  }

  /** `ParseStackKey`: exactly the keys `go-gin` and `node-express`, in any
      case and with surrounding white space, name a stack. */
  function ParseStackKey(key: string): (r: Result<Stack, Error>)
    ensures NormalizeKey(key) == "go-gin" ==> r == Ok(StackGoGin)
    ensures NormalizeKey(key) == "node-express" ==> r == Ok(StackNodeExpress)
    ensures NormalizeKey(key) !in ["go-gin", "node-express"] ==> r == Err(InvalidStack(key))
  {
    match NormalizeKey(key)
    case "go-gin" => Ok(StackGoGin)
    case "node-express" => Ok(StackNodeExpress)
    case _ => Err(InvalidStack(key))
  }

  /** `ParseDatabaseKey`: `postgresql`/`postgres`, `mongodb`/`mongo` and
      `sqlite`, in any case and with surrounding white space. */
  function ParseDatabaseKey(key: string): (r: Result<Database, Error>)
    ensures NormalizeKey(key) in ["postgresql", "postgres"] ==> r == Ok(DBPostgreSQL)
    ensures NormalizeKey(key) in ["mongodb", "mongo"] ==> r == Ok(DBMongoDB)
    ensures NormalizeKey(key) == "sqlite" ==> r == Ok(DBSQLite)
    ensures NormalizeKey(key) !in ["postgresql", "postgres", "mongodb", "mongo", "sqlite"] ==> r == Err(InvalidDatabase(key))
  {
    match DatabaseNamed(NormalizeKey(key))
    case Some(d) => Ok(d)
    case None => Err(InvalidDatabase(key))
  }

  /** The database switch of `ParseDatabaseKey`, on an already normalised key. */
  function DatabaseNamed(k: string): (r: Option<Database>)
    ensures k in ["postgresql", "postgres"] ==> r == Some(DBPostgreSQL)
    ensures k in ["mongodb", "mongo"] ==> r == Some(DBMongoDB)
    ensures k == "sqlite" ==> r == Some(DBSQLite)
    ensures k !in ["postgresql", "postgres", "mongodb", "mongo", "sqlite"] ==> r == None
  {
    match k
    case "postgresql" => Some(DBPostgreSQL)
    case "postgres" => Some(DBPostgreSQL)
    case "mongodb" => Some(DBMongoDB)
    case "mongo" => Some(DBMongoDB)
    case "sqlite" => Some(DBSQLite)
    case _ => None
  }

  /** `stackDir`: the template directory of a stack; any other value is unsupported. */
  function StackDir(s: Stack): (r: Result<string, Error>)
    ensures r.Ok? <==> s == StackGoGin || s == StackNodeExpress
    ensures r.Err? ==> r.error == UnsupportedStack(s)
  {
    if s == StackGoGin then Ok("go-gin")
    else if s == StackNodeExpress then Ok("node-express")
    else Err(UnsupportedStack(s))
  }

  /** `dbDir`: the template directory of a database; any other value is unsupported. */
  function DbDir(d: Database): (r: Result<string, Error>)
    ensures r.Ok? <==> d == DBPostgreSQL || d == DBMongoDB || d == DBSQLite
    ensures r.Err? ==> r.error == UnsupportedDatabase(d)
  {
    if d == DBPostgreSQL then Ok("postgresql")
    else if d == DBMongoDB then Ok("mongodb")
    else if d == DBSQLite then Ok("sqlite")
    else Err(UnsupportedDatabase(d))
  }

  /** A key made of lower-case letters and dashes is already in normal form. */
  lemma NormalKey(k: string)
    requires k != [] && forall i :: 0 <= i < |k| ==> 'a' <= k[i] <= 'z' || k[i] == '-'
    ensures NormalizeKey(k) == k
  {
    TrimSpaceKeepsTrimmed(k);
    ToLowerKeepsLower(k);
  }

  /** Directory names are keys: parsing the directory of a supported stack
      gives the stack back. */
  lemma StackDirParses(s: Stack)
    ensures StackDir(s).Ok? ==> ParseStackKey(StackDir(s).value) == Ok(s)
  {
    if s == StackGoGin {
      NormalKey("go-gin");
    } else if s == StackNodeExpress {
      NormalKey("node-express");
    }
  }

  /** And the other way: a parsed stack's directory is the canonical key. */
  lemma ParsedStackHasDir(key: string)
    ensures ParseStackKey(key).Ok? ==> StackDir(ParseStackKey(key).value) == Ok(NormalizeKey(key))
  {
  }

  lemma DbDirParses(d: Database)
    ensures DbDir(d).Ok? ==> ParseDatabaseKey(DbDir(d).value) == Ok(d)
  {
    if d == DBPostgreSQL {
      NormalKey("postgresql");
    } else if d == DBMongoDB {
      NormalKey("mongodb");
    } else if d == DBSQLite {
      NormalKey("sqlite");
    }
  }

  /** The canonical spelling of a normalised database key: the short aliases
      `postgres` and `mongo` are widened. */
  function CanonicalDbKey(k: string): string {
    match k
    case "postgres" => "postgresql"
    case "mongo" => "mongodb"
    case _ => k
  }

  /** A parsed database's directory is the canonical spelling of its key. */
  lemma ParsedDatabaseHasDir(key: string)
    ensures ParseDatabaseKey(key).Ok? ==> DbDir(ParseDatabaseKey(key).value) == Ok(CanonicalDbKey(NormalizeKey(key)))
  {
  }

  // ---------------------------------------------------------------- options

  datatype Options = Options(projectName: string, stack: Stack, database: Database, useDocker: bool)

  /** The values a template can refer to. */
  datatype TemplateData = TemplateData(projectName: string, stack: Stack, database: Database, useDocker: bool)

  /** `validate`: a project name that is not blank, and a supported stack and
      database; the name is checked first, then the stack, then the database. */
  function Validate(opts: Options): (r: Option<Error>)
    ensures r.None? <==> TrimSpace(opts.projectName) != "" && StackDir(opts.stack).Ok? && DbDir(opts.database).Ok?
    ensures TrimSpace(opts.projectName) == "" ==> r == Some(NameRequired)
    ensures TrimSpace(opts.projectName) != "" && StackDir(opts.stack).Err? ==> r == Some(UnsupportedStack(opts.stack))
    ensures TrimSpace(opts.projectName) != "" && StackDir(opts.stack).Ok? && DbDir(opts.database).Err? ==>
              r == Some(UnsupportedDatabase(opts.database))
    ensures r.Some? ==> r.value in {NameRequired, UnsupportedStack(opts.stack), UnsupportedDatabase(opts.database)}
  {
    if TrimSpace(opts.projectName) == "" then Some(NameRequired)
    else if StackDir(opts.stack).Err? then Some(StackDir(opts.stack).error)
    else if DbDir(opts.database).Err? then Some(DbDir(opts.database).error)
    else None
  }

  // ---------------------------------------------------------------- the per-file rule

  /** `mapDotfiles`: the closed table of reserved paths that become dotfiles
      (embedded trees cannot hold dotfiles). Only whole paths match. */
  function MapDotfiles(p: string): (r: string)
    ensures r != p <==> p == "env.example" || p == "gitignore"
    ensures p == "env.example" ==> r == ".env.example"
    ensures p == "gitignore" ==> r == ".gitignore"
  {
    match p
    case "env.example" => ".env.example"
    case "gitignore" => ".gitignore"
    case _ => p
  }

  lemma MapDotfilesIdempotent(p: string)
    ensures MapDotfiles(MapDotfiles(p)) == MapDotfiles(p)
  {
  }

  /** The path of a walked file relative to the walk's base. */
  function RelPath(path: string, base: string): (rel: string)
    ensures HasPrefix(path, base + "/") ==> path == base + "/" + rel
  {
    var rel := TrimPrefix(path, base + "/");
    if rel == path then TrimPrefix(TrimPrefix(path, base), "/") else rel
  }

  /** Where a template with relative path `rel` goes, relative to the target
      directory, or None for a Docker template when Docker is off. */
  function OutputRel(rel: string, useDocker: bool): (r: Option<string>)
    ensures r.None? <==> !useDocker && (rel == "Dockerfile.tmpl" || rel == "docker-compose.yml.tmpl")
  {
    if !useDocker && (rel == "Dockerfile.tmpl" || rel == "docker-compose.yml.tmpl") then None
    else Some(MapDotfiles(TrimSuffix(rel, ".tmpl")))
  }

  /** A kept template loses its `.tmpl` suffix, and the two reserved names,
      with or without the suffix, become dotfiles. */
  lemma OutputRelNames(rel: string, useDocker: bool)
    requires OutputRel(rel, useDocker).Some?
    ensures var r := OutputRel(rel, useDocker).value;
            (rel != "env.example.tmpl" && rel != "gitignore.tmpl" && rel != "env.example" && rel != "gitignore") ==>
              r == TrimSuffix(rel, ".tmpl")
    ensures rel == "env.example.tmpl" || rel == "env.example" ==> OutputRel(rel, useDocker).value == ".env.example"
    ensures rel == "gitignore.tmpl" || rel == "gitignore" ==> OutputRel(rel, useDocker).value == ".gitignore"
  {
    var stripped := TrimSuffix(rel, ".tmpl");
    assert stripped == "env.example" ==> rel == "env.example.tmpl" || rel == "env.example";
    assert stripped == "gitignore" ==> rel == "gitignore.tmpl" || rel == "gitignore";
  }

  // ---------------------------------------------------------------- the walk

  /** The template engine: `(name, body, data)` to rendered text or an error.
      The generator runs it with `missingkey=error`, so an undefined variable is
      an execution failure rather than an empty string. */
  type Renderer = (string, string, TemplateData) -> Rendering

  /** What stays fixed while `Generate` walks the tree. */
  datatype GenContext = GenContext(
    templates: TemplateFS, render: Renderer, base: string,
    targetDir: string, data: TemplateData, useDocker: bool, readOnly: set<string>)

  /** The output path of a walked template, or None if it is skipped. */
  function Dest(c: GenContext, path: string): Option<string> {
    match OutputRel(RelPath(path, c.base), c.useDocker)
    case None => None
    case Some(rel) => Some(JoinPath(c.targetDir, rel))
  }

  /** The text a walked template renders to, if it can be read and rendered. */
  function RenderedText(c: GenContext, path: string): Option<string> {
    match ReadTemplate(c.templates, path)
    case Err(_) => None
    case Ok(body) =>
      match c.render(RelPath(path, c.base), body, c.data)
      case Rendered(text) => Some(text)
      case _ => None
  }

  /** The walk callback on one file: skip it, or create its directory, read,
      render and write it. */
  function FileStep(c: GenContext, st: FsState, path: string): (o: Outcome)
    ensures st.files.Keys <= o.state.files.Keys
    ensures o.err.None? ==> o.state.files.Keys == st.files.Keys + Opt(Dest(c, path))
    ensures forall q :: q in st.files && Dest(c, path) != Some(q) ==> q in o.state.files && o.state.files[q] == st.files[q]
    ensures o.err.None? && Dest(c, path).Some? ==>
              && RenderedText(c, path).Some?
              && Dest(c, path).value in o.state.files
              && o.state.files[Dest(c, path).value] == RenderedText(c, path).value
    ensures o.err.None? <==>
              || Dest(c, path).None?
              || var d := Dest(c, path).value;
                 var m := MkdirAllSpec(st, Dir(d));
                 m.err.None? && RenderedText(c, path).Some? && d !in m.state.dirs && d !in c.readOnly
  {
    match Dest(c, path)
    case None => Outcome(st, None)
    case Some(dst) =>
      var m := MkdirAllSpec(st, Dir(dst));
      if m.err.Some? then m
      else match ReadTemplate(c.templates, path)
        case Err(e) => Outcome(m.state, Some(e))
        case Ok(body) =>
          match c.render(RelPath(path, c.base), body, c.data)
          case ParseFailed(d) => Outcome(m.state, Some(ParseTemplate(path, d)))
          case ExecFailed(d) => Outcome(m.state, Some(ExecuteTemplate(path, d)))
          case Rendered(text) => WriteSpec(m.state, c.readOnly, dst, text)
  }

  /** The template directory of a stack and database pair. */
  function Base(stackDir: string, dbDir: string): string {
    "scaffolds/" + stackDir + "/" + dbDir
  }

  function ContextOf(templates: TemplateFS, render: Renderer, readOnly: set<string>, targetDir: string, opts: Options): (c: GenContext)
    requires StackDir(opts.stack).Ok? && DbDir(opts.database).Ok?
  {
    GenContext(templates, render, Base(StackDir(opts.stack).value, DbDir(opts.database).value), targetDir,
               TemplateData(opts.projectName, opts.stack, opts.database, opts.useDocker), opts.useDocker, readOnly)
  }

  /** What `Generate` does, as a function of the file system it starts from. */
  function GenerateSpec(st: FsState, readOnly: set<string>, templates: TemplateFS, render: Renderer,
                        targetDir: string, opts: Options): Outcome
  {
    if Validate(opts).Some? then Outcome(st, Validate(opts))
    else
      var c := ContextOf(templates, render, readOnly, targetDir, opts);
      if Walk(templates, c.base) == [] then
        Outcome(st, Some(TemplateNotFound(opts.stack, opts.database, c.base, PathError("open", c.base, "file does not exist"))))
      else
        var m := MkdirAllSpec(st, targetDir);
        if m.err.Some? then m else Run(FileStep, c, m.state, Walk(templates, c.base))
  }

  method GenerateFile(fs: FileSystem, c: GenContext, path: string) returns (err: Option<Error>)
    requires fs.Valid() && c.readOnly == fs.readOnly
    modifies fs
    ensures fs.Valid()
    ensures Outcome(fs.State(), err) == FileStep(c, old(fs.State()), path)
  {
    var rel := RelPath(path, c.base);
    if !c.useDocker && (rel == "Dockerfile.tmpl" || rel == "docker-compose.yml.tmpl") {
      return None;
    }
    var dstRel := TrimSuffix(rel, ".tmpl");
    dstRel := MapDotfiles(dstRel);
    var dstPath := JoinPath(c.targetDir, dstRel);
    err := fs.MkdirAll(Dir(dstPath));
    if err.Some? {
      return;
    }
    var b := ReadTemplate(c.templates, path);
    if b.Err? {
      return Some(b.error);
    }
    match c.render(rel, b.value, c.data) {
      case ParseFailed(d) =>
        return Some(ParseTemplate(path, d));
      case ExecFailed(d) =>
        return Some(ExecuteTemplate(path, d));
      case Rendered(out) =>
        err := fs.WriteFile(dstPath, out);
    }
  }

  /** `Generate`: validate, find the template tree, create the target directory,
      then render every file of the tree into it, aborting on the first error. */
  method Generate(fs: FileSystem, templates: TemplateFS, render: Renderer, targetDir: string, opts: Options)
    returns (err: Option<Error>)
    requires fs.Valid()
    modifies fs
    ensures fs.Valid()
    ensures Outcome(fs.State(), err) == GenerateSpec(old(fs.State()), fs.readOnly, templates, render, targetDir, opts)
  {
    err := Validate(opts);
    if err.Some? {
      return;
    }
    var stackKey := StackDir(opts.stack);
    var dbKey := DbDir(opts.database);
    var base := Base(stackKey.value, dbKey.value);
    var items := Walk(templates, base);
    if items == [] {
      return Some(TemplateNotFound(opts.stack, opts.database, base, PathError("open", base, "file does not exist")));
    }
    err := fs.MkdirAll(targetDir);
    if err.Some? {
      return;
    }
    var c := ContextOf(templates, render, fs.readOnly, targetDir, opts);
    GenerateIsWalk(old(fs.State()), fs.readOnly, templates, render, targetDir, opts);
    err := WalkTemplates(fs, c, items);
  }

  /** The `fs.WalkDir` loop of `Generate`: one file step per template, in walk
      order, returning the first error. */
  method WalkTemplates(fs: FileSystem, c: GenContext, items: seq<string>) returns (err: Option<Error>)
    requires fs.Valid() && c.readOnly == fs.readOnly
    modifies fs
    ensures fs.Valid()
    ensures Outcome(fs.State(), err) == Run(FileStep, c, old(fs.State()), items)
  {
    var i := 0;
    err := None;
    while i < |items|
      invariant 0 <= i <= |items|
      invariant fs.Valid()
      invariant err == None
      invariant Run(FileStep, c, old(fs.State()), items) == Run(FileStep, c, fs.State(), items[i..])
    {
      assert items[i..][1..] == items[i + 1..];
      err := GenerateFile(fs, c, items[i]);
      if err.Some? {
        return;
      }
      i := i + 1;
    }
  }

  // ---------------------------------------------------------------- properties of Generate

  /** An invalid name, stack or database is reported before anything is touched. */
  lemma InvalidOptionsTouchNothing(st: FsState, readOnly: set<string>, templates: TemplateFS, render: Renderer, targetDir: string, opts: Options)
    requires Validate(opts).Some?
    ensures GenerateSpec(st, readOnly, templates, render, targetDir, opts) == Outcome(st, Validate(opts))
  {
  }

  /** A valid pair without a template tree is "template not found", and the
      target directory is not created. */
  lemma MissingTreeTouchesNothing(st: FsState, readOnly: set<string>, templates: TemplateFS, render: Renderer, targetDir: string, opts: Options)
    requires Validate(opts).None?
    requires forall i :: 0 <= i < |templates.paths| ==> !Under(templates.paths[i], Base(StackDir(opts.stack).value, DbDir(opts.database).value))
    ensures var o := GenerateSpec(st, readOnly, templates, render, targetDir, opts);
            o.state == st && o.err.Some? && o.err.value.TemplateNotFound?
            && Contains(Message(o.err.value), "template not found")
  {
    var c := ContextOf(templates, render, readOnly, targetDir, opts);
    var e := TemplateNotFound(opts.stack, opts.database, c.base, PathError("open", c.base, "file does not exist"));
    TemplateNotFoundIsRecognised(e);
  }

  /** A file step writes exactly its destination, or nothing if skipped; it
      leaves every other file as it was, and on success its destination holds
      the rendered template. */
  lemma FileStepWritesDest(c: GenContext)
    ensures WritesAsMapped(FileStep, Dest, c)
    ensures KeepsOthers(FileStep, Dest, c)
    ensures WritesText(FileStep, Dest, RenderedText, c)
  {
    forall s: FsState, p: string
      ensures FileStep(c, s, p).err.None? ==> FileStep(c, s, p).state.files.Keys == s.files.Keys + Opt(Dest(c, p))
      ensures s.files.Keys <= FileStep(c, s, p).state.files.Keys
    {
    }
  }

  /** Past validation and the tree check, generation is the walk started from
      the state in which the target directory exists. */
  lemma GenerateIsWalk(st: FsState, readOnly: set<string>, templates: TemplateFS, render: Renderer, targetDir: string, opts: Options)
    requires Validate(opts).None?
    ensures var c := ContextOf(templates, render, readOnly, targetDir, opts);
            var o := GenerateSpec(st, readOnly, templates, render, targetDir, opts);
            o.err.None? ==> o == Run(FileStep, c, MkdirAllSpec(st, targetDir).state, Walk(templates, c.base))
    ensures var c := ContextOf(templates, render, readOnly, targetDir, opts);
            var o := GenerateSpec(st, readOnly, templates, render, targetDir, opts);
            MkdirAllSpec(st, targetDir).err.None? && Walk(templates, c.base) != [] ==>
              o == Run(FileStep, c, MkdirAllSpec(st, targetDir).state, Walk(templates, c.base))
  {
  }

  /** A walk over generator templates that runs to the end adds exactly one
      file per template that is not skipped, at its output path. */
  lemma WalkWrites(c: GenContext, st: FsState, items: seq<string>)
    ensures var o := Run(FileStep, c, st, items);
            o.err.None? ==> o.state.files.Keys == st.files.Keys + Targets(Dest, c, items)
  {
    FileStepWritesDest(c);
    RunWrites(FileStep, Dest, c, st, items);
  }

  /** A walk over generator templates that fails stops at some template `k`;
      the outputs of all templates before it remain. */
  lemma WalkAbortKeepsWrites(c: GenContext, st: FsState, items: seq<string>)
    ensures var o := Run(FileStep, c, st, items);
            o.err.Some? ==>
              exists k :: 0 <= k < |items|
                && o.err == FileStep(c, Run(FileStep, c, st, items[..k]).state, items[k]).err
                && st.files.Keys + Targets(Dest, c, items[..k]) <= o.state.files.Keys
  {
    FileStepWritesDest(c);
    AbortKeepsEarlierWrites(FileStep, Dest, c, st, items);
  }

  /** A generation that succeeds adds exactly one file per walked template that
      is not skipped, at its mapped output path. */
  lemma GeneratedTree(st: FsState, readOnly: set<string>, templates: TemplateFS, render: Renderer, targetDir: string, opts: Options)
    requires Validate(opts).None?
    ensures var c := ContextOf(templates, render, readOnly, targetDir, opts);
            var o := GenerateSpec(st, readOnly, templates, render, targetDir, opts);
            o.err.None? ==> o.state.files.Keys == st.files.Keys + Targets(Dest, c, Walk(templates, c.base))
  {
    var c := ContextOf(templates, render, readOnly, targetDir, opts);
    var o := GenerateSpec(st, readOnly, templates, render, targetDir, opts);
    var s0 := MkdirAllSpec(st, targetDir).state;
    var w := Run(FileStep, c, s0, Walk(templates, c.base));
    assert o.err.None? ==> o == w by {
      GenerateIsWalk(st, readOnly, templates, render, targetDir, opts);
    }
    assert w.err.None? ==> w.state.files.Keys == s0.files.Keys + Targets(Dest, c, Walk(templates, c.base)) by {
      WalkWrites(c, s0, Walk(templates, c.base));
    }
    assert s0.files == st.files;
  }

  /** A template directly below the base has its own name as relative path. */
  lemma RelPathBelow(base: string, name: string)
    ensures Under(Child(base, name), base)
    ensures RelPath(Child(base, name), base) == name
  {
    assert HasPrefix(base + "/" + name, base + "/");
  }

  /** With Docker off, the two top-level Docker templates produce nothing. */
  lemma DockerTemplatesSkipped(c: GenContext)
    requires !c.useDocker
    ensures Dest(c, Child(c.base, "Dockerfile.tmpl")) == None
    ensures Dest(c, Child(c.base, "docker-compose.yml.tmpl")) == None
  {
    RelPathBelow(c.base, "Dockerfile.tmpl");
    RelPathBelow(c.base, "docker-compose.yml.tmpl");
  }

  /** With Docker on, no template is skipped. */
  lemma DockerOnSkipsNothing(c: GenContext, path: string)
    requires c.useDocker
    ensures Dest(c, path).Some?
  {
  }

  /** The top-level `env.example` and `gitignore` templates become dotfiles in
      the target directory. */
  lemma DotfileTemplates(c: GenContext)
    ensures Dest(c, Child(c.base, "env.example.tmpl")) == Some(JoinPath(c.targetDir, ".env.example"))
    ensures Dest(c, Child(c.base, "gitignore.tmpl")) == Some(JoinPath(c.targetDir, ".gitignore"))
  {
    RelPathBelow(c.base, "env.example.tmpl");
    OutputRelNames("env.example.tmpl", c.useDocker);
    RelPathBelow(c.base, "gitignore.tmpl");
    OutputRelNames("gitignore.tmpl", c.useDocker);
  }

  /** A generation that succeeds leaves `.env.example` and `.gitignore` in the
      target directory whenever the tree holds their templates. */
  lemma GeneratedDotfiles(st: FsState, readOnly: set<string>, templates: TemplateFS, render: Renderer, targetDir: string, opts: Options)
    requires Validate(opts).None?
    ensures var c := ContextOf(templates, render, readOnly, targetDir, opts);
            var o := GenerateSpec(st, readOnly, templates, render, targetDir, opts);
            o.err.None? && Child(c.base, "env.example.tmpl") in templates.paths ==>
              JoinPath(targetDir, ".env.example") in o.state.files
    ensures var c := ContextOf(templates, render, readOnly, targetDir, opts);
            var o := GenerateSpec(st, readOnly, templates, render, targetDir, opts);
            o.err.None? && Child(c.base, "gitignore.tmpl") in templates.paths ==>
              JoinPath(targetDir, ".gitignore") in o.state.files
  {
    var c := ContextOf(templates, render, readOnly, targetDir, opts);
    var o := GenerateSpec(st, readOnly, templates, render, targetDir, opts);
    if o.err.None? {
      GeneratedTree(st, readOnly, templates, render, targetDir, opts);
      DotfileTemplates(c);
      var env, git := Child(c.base, "env.example.tmpl"), Child(c.base, "gitignore.tmpl");
      RelPathBelow(c.base, "env.example.tmpl");
      RelPathBelow(c.base, "gitignore.tmpl");
      if env in templates.paths {
        InTargets(c, templates, env);
      }
      if git in templates.paths {
        InTargets(c, templates, git);
      }
    }
  }

  /** Every walked template that is not skipped contributes its output path. */
  lemma InTargets(c: GenContext, templates: TemplateFS, p: string)
    requires p in templates.paths && Under(p, c.base) && Dest(c, p).Some?
    ensures Dest(c, p).value in Targets(Dest, c, Walk(templates, c.base))
  {
    var items := Walk(templates, c.base);
    var i :| 0 <= i < |items| && items[i] == p;
  }

  /** A generation, whether it succeeds or fails, changes no file that was
      there before unless some walked template has it as its output path. */
  lemma GenerateKeepsOthers(st: FsState, readOnly: set<string>, templates: TemplateFS, render: Renderer, targetDir: string, opts: Options)
    requires Validate(opts).None?
    ensures var c := ContextOf(templates, render, readOnly, targetDir, opts);
            var o := GenerateSpec(st, readOnly, templates, render, targetDir, opts);
            forall q :: q in st.files && q !in Targets(Dest, c, Walk(templates, c.base)) ==>
              q in o.state.files && o.state.files[q] == st.files[q]
  {
    var c := ContextOf(templates, render, readOnly, targetDir, opts);
    var m := MkdirAllSpec(st, targetDir);
    if m.err.None? && Walk(templates, c.base) != [] {
      FileStepWritesDest(c);
      RunKeepsOthers(FileStep, Dest, c, m.state, Walk(templates, c.base));
    }
  }

  /** After a generation that succeeds, the output path of the walked template
      `k` holds that template rendered, provided no later template has the
      same output path. */
  lemma GeneratedContents(st: FsState, readOnly: set<string>, templates: TemplateFS, render: Renderer, targetDir: string, opts: Options, k: nat)
    requires Validate(opts).None?
    requires var c := ContextOf(templates, render, readOnly, targetDir, opts);
             var items := Walk(templates, c.base);
             && k < |items| && Dest(c, items[k]).Some?
             && forall j :: k < j < |items| ==> Dest(c, items[j]) != Dest(c, items[k])
    ensures var c := ContextOf(templates, render, readOnly, targetDir, opts);
            var items := Walk(templates, c.base);
            var o := GenerateSpec(st, readOnly, templates, render, targetDir, opts);
            o.err.None? ==>
              && RenderedText(c, items[k]).Some?
              && Dest(c, items[k]).value in o.state.files
              && o.state.files[Dest(c, items[k]).value] == RenderedText(c, items[k]).value
  {
    var c := ContextOf(templates, render, readOnly, targetDir, opts);
    var items := Walk(templates, c.base);
    GenerateIsWalk(st, readOnly, templates, render, targetDir, opts);
    FileStepWritesDest(c);
    RunLastWrite(FileStep, Dest, RenderedText, c, MkdirAllSpec(st, targetDir).state, items, k);
  }
}
