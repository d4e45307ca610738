/**
  The file system as the scaffolder sees it: a map from slash-separated path to
  contents plus the set of directories, updated in place through a
  `FileSystem` object whose methods stand for `os.MkdirAll`, `os.WriteFile` and
  `os.ReadFile`. Each method's effect is given by a function on `FsState`
  values, so that whole runs (a template walk, a plugin application) can be
  described and reasoned about as functions too.

  Also here: the read-only embedded template trees, which `fs.WalkDir` visits
  file by file, and the generic "walk and stop at the first failure" fold.
 */
module Files {
  import opened Wrappers
  import opened Text
  import opened Errors

  // ---------------------------------------------------------------- paths

  /** `filepath.Join(a, b)` for slash-separated paths, without `Clean`. */
  function JoinPath(a: string, b: string): string {
    if a == "" then b else if b == "" then a else a + "/" + b
  }

  /** The path of the entry `name` directly below `base`. */
  function Child(base: string, name: string): string {
    base + "/" + name
  }

  /** `filepath.Dir`: everything before the last slash, "/" for an entry of
      the root, "." if there is no slash. */
  function Dir(p: string): (d: string)
    ensures d == "." || d == "/" || (|d| < |p| && d == p[..|d|] && p[|d|] == '/')
    ensures '/' !in p ==> d == "."
    ensures d != "." && d != "/" ==> '/' !in p[|d| + 1..]
    ensures d != ""
    ensures '/' in p ==>
              || (d == "/" && p[0] == '/' && '/' !in p[1..])
              || (|d| < |p| && d == p[..|d|] && p[|d|] == '/' && '/' !in p[|d| + 1..])
  {
    if p == [] then "."
    else if p[|p| - 1] == '/' then (if |p| == 1 then "/" else p[..|p| - 1])
    else Dir(p[..|p| - 1])
  }

  /** The directories `os.MkdirAll(p)` makes sure exist: `p` and each of its
      proper prefixes that ends just before a slash. */
  function DirChain(p: string): (chain: set<string>)
    ensures p != "" ==> p in chain
  {
    assert p != "" ==> p == p[..|p|];
    set i | 0 < i <= |p| && (i == |p| || p[i] == '/') :: p[..i]
  }

  // ---------------------------------------------------------------- state

  datatype FsState = FsState(files: map<string, string>, dirs: set<string>)

  /** No path is both a file and a directory. */
  predicate Consistent(st: FsState) {
    st.files.Keys !! st.dirs
  }

  /** The state an operation leaves and the error it returns, if any. */
  datatype Outcome = Outcome(state: FsState, err: Option<Error>)

  /** `os.MkdirAll(p)`: nothing to do for an existing directory; refused when
      `p` is empty or when `p` or one of its parents is a file. */
  function MkdirAllSpec(st: FsState, p: string): (o: Outcome)
    ensures o.state.files == st.files && st.dirs <= o.state.dirs
    ensures o.err.None? ==> p in o.state.dirs
    ensures o.err.None? <==> p != "" && (p in st.dirs || DirChain(p) * st.files.Keys == {})
  {
    if p == "" then Outcome(st, Some(PathError("mkdir", p, "no such file or directory")))
    else if p in st.dirs then Outcome(st, None)
    else if DirChain(p) * st.files.Keys != {} then Outcome(st, Some(PathError("mkdir", p, "not a directory")))
    else Outcome(FsState(st.files, st.dirs + DirChain(p)), None)
  }

  /** `os.WriteFile(p, data)`: replaces or creates the file, unless `p` is a
      directory or the host refuses writes to it (`readOnly`). */
  function WriteSpec(st: FsState, readOnly: set<string>, p: string, data: string): (o: Outcome)
    ensures o.state.dirs == st.dirs
    ensures o.err.None? <==> p !in st.dirs && p !in readOnly
    ensures o.state.files == if o.err.None? then st.files[p := data] else st.files
  {
    if p in st.dirs then Outcome(st, Some(PathError("open", p, "is a directory")))
    else if p in readOnly then Outcome(st, Some(PathError("open", p, "permission denied")))
    else Outcome(FsState(st.files[p := data], st.dirs), None)
  }

  /** `os.ReadFile(p)`. */
  function ReadSpec(st: FsState, p: string): Result<string, Error> {
    if p in st.files then Ok(st.files[p])
    else if p in st.dirs then Err(PathError("read", p, "is a directory"))
    else Err(PathError("open", p, "no such file or directory"))
  }

  /** Both primitives that change the state keep it consistent and never
      remove a file. */
  lemma {:induction false} PrimitivesKeepConsistent(st: FsState, readOnly: set<string>, p: string, data: string)
    requires Consistent(st)
    ensures Consistent(MkdirAllSpec(st, p).state)
    ensures Consistent(WriteSpec(st, readOnly, p, data).state)
    ensures st.files.Keys <= MkdirAllSpec(st, p).state.files.Keys
    ensures st.files.Keys <= WriteSpec(st, readOnly, p, data).state.files.Keys
  {
    var m := MkdirAllSpec(st, p);
    if p != "" && p !in st.dirs && DirChain(p) * st.files.Keys == {} {
      assert m.state.dirs == st.dirs + DirChain(p);
      forall q | q in m.state.files ensures q !in m.state.dirs {
        assert q !in DirChain(p) * st.files.Keys;
      }
    }
  }

  /** The host file system, updated in place. */
  class FileSystem {
    var files: map<string, string>
    var dirs: set<string>
    /** Paths the host refuses to write. */
    const readOnly: set<string>

    ghost predicate Valid()
      reads this
    {
      Consistent(State())
    }

    function State(): FsState
      reads this
    {
      FsState(files, dirs)
    }

    constructor (files0: map<string, string>, dirs0: set<string>, readOnly0: set<string>)
      requires files0.Keys !! dirs0
      ensures Valid() && State() == FsState(files0, dirs0) && readOnly == readOnly0
    {
      files, dirs, readOnly := files0, dirs0, readOnly0;
    }

    method MkdirAll(p: string) returns (err: Option<Error>)
      requires Valid()
      modifies this
      ensures Valid()
      ensures Outcome(State(), err) == MkdirAllSpec(old(State()), p)
    {
      PrimitivesKeepConsistent(State(), readOnly, p, "");
      if p == "" {
        err := Some(PathError("mkdir", p, "no such file or directory"));
      } else if p in dirs {
        err := None;
      } else if DirChain(p) * files.Keys != {} {
        err := Some(PathError("mkdir", p, "not a directory"));
      } else {
        dirs := dirs + DirChain(p);
        err := None;
      }
    }

    method WriteFile(p: string, data: string) returns (err: Option<Error>)
      requires Valid()
      modifies this
      ensures Valid()
      ensures Outcome(State(), err) == WriteSpec(old(State()), readOnly, p, data)
    {
      PrimitivesKeepConsistent(State(), readOnly, p, data);
      if p in dirs {
        err := Some(PathError("open", p, "is a directory"));
      } else if p in readOnly {
        err := Some(PathError("open", p, "permission denied"));
      } else {
        files := files[p := data];
        err := None;
      }
    }

    method ReadFile(p: string) returns (r: Result<string, Error>)
      ensures r.Ok? <==> p in files
      ensures r.Ok? ==> r.value == files[p]
      ensures r == ReadSpec(State(), p)
      ensures Valid() && p in dirs ==> r == Err(PathError("read", p, "is a directory"))
    {
      if p in files {
        r := Ok(files[p]);
      } else if p in dirs {
        r := Err(PathError("read", p, "is a directory"));
      } else {
        r := Err(PathError("open", p, "no such file or directory"));
      }
    }
  }

  // ---------------------------------------------------------------- templates

  /** An embedded, read-only template tree: its regular files in the order
      `fs.WalkDir` visits them, and their contents. A listed path without
      contents stands for a file that cannot be read. */
  datatype TemplateFS = TemplateFS(paths: seq<string>, content: map<string, string>)

  /** `path` is `base` itself or lies below it. */
  predicate Under(path: string, base: string) {
    path == base || HasPrefix(path, base + "/")
  }

  /** The files `fs.WalkDir(t, base, …)` hands to its callback, in order. */
  function Walk(t: TemplateFS, base: string): (r: seq<string>)
    ensures forall i :: 0 <= i < |r| ==> Under(r[i], base) && r[i] in t.paths
    ensures forall p :: p in t.paths && Under(p, base) ==> p in r
    ensures r == [] <==> forall i :: 0 <= i < |t.paths| ==> !Under(t.paths[i], base)
  {
    WalkFrom(t.paths, base)
  }

  function WalkFrom(paths: seq<string>, base: string): (r: seq<string>)
    ensures forall i :: 0 <= i < |r| ==> Under(r[i], base) && r[i] in paths
    ensures forall p :: p in paths && Under(p, base) ==> p in r
    ensures r == [] <==> forall i :: 0 <= i < |paths| ==> !Under(paths[i], base)
  {
    if paths == [] then []
    else
      var rest := WalkFrom(paths[1..], base);
      if Under(paths[0], base) then [paths[0]] + rest else rest
  }

  /** `fs.ReadFile` on the embedded tree. */
  function ReadTemplate(t: TemplateFS, path: string): Result<string, Error> {
    if path in t.content then Ok(t.content[path])
    else Err(PathError("open", path, "file does not exist"))
  }

  /** What parsing and executing one template produced. The template engine
      itself is a parameter of the model (a function returning this). */
  datatype Rendering = Rendered(text: string) | ParseFailed(detail: string) | ExecFailed(detail: string)

  // ---------------------------------------------------------------- walking

  /** The callback of a walk, applied to each file in turn: `step(c, st, path)`
      with the walk's fixed context `c`. The first failing call ends the walk;
      what earlier calls did stays done. */
  function Run<C(!new)>(step: (C, FsState, string) -> Outcome, c: C, st: FsState, items: seq<string>): (o: Outcome)
    decreases |items|
  {
    if items == [] then Outcome(st, None)
    else
      var first := step(c, st, items[0]);
      if first.err.Some? then first else Run(step, c, first.state, items[1..])
  }

  function Opt(o: Option<string>): set<string> {
    if o.Some? then {o.value} else {}
  }

  /** The output paths of `items` under `dst`, skipping the items it maps to None. */
  function Targets<C>(dst: (C, string) -> Option<string>, c: C, items: seq<string>): set<string> {
    set i | 0 <= i < |items| && dst(c, items[i]).Some? :: dst(c, items[i]).value
  }

  /** A successful step adds exactly the file `dst` names for its item (or no
      file, if `dst` gives None) and every step keeps the files there were. */
  ghost predicate WritesAsMapped<C(!new)>(step: (C, FsState, string) -> Outcome, dst: (C, string) -> Option<string>, c: C) {
    && (forall s: FsState, p: string :: step(c, s, p).err.None? ==> step(c, s, p).state.files.Keys == s.files.Keys + Opt(dst(c, p)))
    && (forall s: FsState, p: string :: s.files.Keys <= step(c, s, p).state.files.Keys)
  }

  /** A step changes no file other than the one `dst` names for its item,
      whether it succeeds or fails. */
  ghost predicate KeepsOthers<C(!new)>(step: (C, FsState, string) -> Outcome, dst: (C, string) -> Option<string>, c: C) {
    forall s: FsState, p: string, q: string :: q in s.files && dst(c, p) != Some(q) ==>
      q in step(c, s, p).state.files && step(c, s, p).state.files[q] == s.files[q]
  }

  /** A successful step leaves at its item's destination the text that
      `text` gives for the item. */
  ghost predicate WritesText<C(!new)>(step: (C, FsState, string) -> Outcome, dst: (C, string) -> Option<string>,
                                      text: (C, string) -> Option<string>, c: C) {
    forall s: FsState, p: string :: step(c, s, p).err.None? && dst(c, p).Some? ==>
      && text(c, p).Some?
      && dst(c, p).value in step(c, s, p).state.files
      && step(c, s, p).state.files[dst(c, p).value] == text(c, p).value
  }

  lemma TargetsCons<C>(dst: (C, string) -> Option<string>, c: C, items: seq<string>)
    requires items != []
    ensures Targets(dst, c, items) == Opt(dst(c, items[0])) + Targets(dst, c, items[1..])
  {
    var t, t1 := Targets(dst, c, items), Targets(dst, c, items[1..]);
    forall q | q in t ensures q in Opt(dst(c, items[0])) + t1 {
      var i :| 0 <= i < |items| && dst(c, items[i]).Some? && dst(c, items[i]).value == q;
      if i > 0 { assert items[1..][i - 1] == items[i]; }
    }
    forall q | q in t1 ensures q in t {
      var i :| 0 <= i < |items[1..]| && dst(c, items[1..][i]).Some? && dst(c, items[1..][i]).value == q;
      assert items[i + 1] == items[1..][i];
    }
  }

  /** A walk that runs to the end has added exactly the mapped outputs of all its items. */
  lemma {:induction false} RunWrites<C(!new)>(step: (C, FsState, string) -> Outcome, dst: (C, string) -> Option<string>, c: C, st: FsState, items: seq<string>)
    requires WritesAsMapped(step, dst, c)
    ensures Run(step, c, st, items).err.None? ==>
              Run(step, c, st, items).state.files.Keys == st.files.Keys + Targets(dst, c, items)
    ensures st.files.Keys <= Run(step, c, st, items).state.files.Keys
    decreases |items|
  {
    if items != [] {
      var first := step(c, st, items[0]);
      if first.err.None? {
        RunWrites(step, dst, c, first.state, items[1..]);
        TargetsCons(dst, c, items);
      }
    }
  }

  /** A walk that fails stopped at some item `k`: the items before it all went
      through, and the result is what the step on item `k` returned. */
  lemma {:induction false} RunAbort<C(!new)>(step: (C, FsState, string) -> Outcome, c: C, st: FsState, items: seq<string>)
    ensures Run(step, c, st, items).err.Some? ==>
              exists k :: 0 <= k < |items| && Run(step, c, st, items[..k]).err.None?
                && Run(step, c, st, items) == step(c, Run(step, c, st, items[..k]).state, items[k])
    decreases |items|
  {
    if items != [] {
      var first := step(c, st, items[0]);
      if first.err.Some? {
        assert items[..0] == [];
      } else if Run(step, c, st, items).err.Some? {
        RunAbort(step, c, first.state, items[1..]);
        var k :| 0 <= k < |items[1..]| && Run(step, c, first.state, items[1..][..k]).err.None?
                && Run(step, c, first.state, items[1..]) == step(c, Run(step, c, first.state, items[1..][..k]).state, items[1..][k]);
        var pre := items[..k + 1];
        assert pre[0] == items[0] && pre[1..] == items[1..][..k];
        assert Run(step, c, st, pre) == Run(step, c, first.state, items[1..][..k]);
      }
    }
  }

  /** When a walk fails at item `k`, the outputs of every item before `k` are
      still on disk: there is no rollback. */
  lemma AbortKeepsEarlierWrites<C(!new)>(step: (C, FsState, string) -> Outcome, dst: (C, string) -> Option<string>, c: C, st: FsState, items: seq<string>)
    requires WritesAsMapped(step, dst, c)
    ensures Run(step, c, st, items).err.Some? ==>
              exists k :: 0 <= k < |items|
                && Run(step, c, st, items).err == step(c, Run(step, c, st, items[..k]).state, items[k]).err
                && st.files.Keys + Targets(dst, c, items[..k]) <= Run(step, c, st, items).state.files.Keys
  {
    RunAbort(step, c, st, items);
    if Run(step, c, st, items).err.Some? {
      var k :| 0 <= k < |items| && Run(step, c, st, items[..k]).err.None?
                && Run(step, c, st, items) == step(c, Run(step, c, st, items[..k]).state, items[k]);
      RunWrites(step, dst, c, st, items[..k]);
    }
  }

  /** A walk, whether it completes or not, changes no file that is not the
      destination of one of its items. */
  lemma {:induction false} RunKeepsOthers<C(!new)>(step: (C, FsState, string) -> Outcome, dst: (C, string) -> Option<string>,
                                                   c: C, st: FsState, items: seq<string>)
    requires KeepsOthers(step, dst, c)
    ensures forall q :: q in st.files && q !in Targets(dst, c, items) ==>
              q in Run(step, c, st, items).state.files && Run(step, c, st, items).state.files[q] == st.files[q]
    decreases |items|
  {
    if items != [] {
      var first := step(c, st, items[0]);
      var o := Run(step, c, st, items);
      TargetsCons(dst, c, items);
      if first.err.None? {
        RunKeepsOthers(step, dst, c, first.state, items[1..]);
        assert o == Run(step, c, first.state, items[1..]);
      }
      forall q | q in st.files && q !in Targets(dst, c, items)
        ensures q in o.state.files && o.state.files[q] == st.files[q]
      {
        assert dst(c, items[0]) != Some(q);
        assert q in first.state.files && first.state.files[q] == st.files[q];
      }
    }
  }

  /** After a walk that completes, the destination of item `k` holds the text
      of item `k` when no later item has the same destination: the last
      write to a path is the one that stays. */
  lemma {:induction false} RunLastWrite<C(!new)>(step: (C, FsState, string) -> Outcome, dst: (C, string) -> Option<string>,
                                                 text: (C, string) -> Option<string>, c: C, st: FsState, items: seq<string>, k: nat)
    requires KeepsOthers(step, dst, c) && WritesText(step, dst, text, c)
    requires k < |items| && dst(c, items[k]).Some?
    requires forall j :: k < j < |items| ==> dst(c, items[j]) != dst(c, items[k])
    ensures Run(step, c, st, items).err.None? ==>
              && text(c, items[k]).Some?
              && dst(c, items[k]).value in Run(step, c, st, items).state.files
              && Run(step, c, st, items).state.files[dst(c, items[k]).value] == text(c, items[k]).value
    decreases |items|
  {
    var first := step(c, st, items[0]);
    if first.err.None? {
      var rest := items[1..];
      if k == 0 {
        var q := dst(c, items[0]).value;
        assert q !in Targets(dst, c, rest) by {
          forall i | 0 <= i < |rest| && dst(c, rest[i]).Some? ensures dst(c, rest[i]).value != q {
            assert rest[i] == items[i + 1];
          }
        }
        RunKeepsOthers(step, dst, c, first.state, rest);
      } else {
        forall j | k - 1 < j < |rest| ensures dst(c, rest[j]) != dst(c, rest[k - 1]) {
          assert rest[j] == items[j + 1] && rest[k - 1] == items[k];
        }
        RunLastWrite(step, dst, text, c, first.state, rest, k - 1);
      }
    }
  }
}
