/**
  The auth plugin. Applied to a generated project, it writes its own templates
  into the project, injects a few lines after marker comments in the server's
  entry file, and appends a `JWT_SECRET` line to `.env.example`.

  Marker injection is text surgery on the lines of a file: the first line
  whose trimmed text is the trimmed marker keeps its place, and the non-empty
  lines of the injection follow it, each indented like the marker line.
 */
module Auth {
  import opened Wrappers
  import opened Text
  import opened Errors
  import opened Files
  import opened Registry

  // ---------------------------------------------------------------- the plugin's constants

  const PluginName := "auth"
  const CompatibleStacks: seq<string> := ["go-gin", "node-express", "node-express-ts"]

  /** What the plugin registers under its name. */
  const AuthEntry := Plugin(PluginName, CompatibleStacks)

  const Marker := "// scaffold:auth"
  const ImportMarker := "// scaffold:auth-import"
  const RoutesMarker := "// scaffold:auth-routes"
  const GoGinInjection := "\tauthHandler := handlers.NewAuthHandler()\n\troutes.RegisterAuth(router, authHandler)\n"
  const NodeImport := "import authRouter from \"./routes/auth.js\";"
  const NodeRoutes := "app.use(\"/auth\", authRouter);"
  const JwtLine := "JWT_SECRET=change-me\n"

  // ---------------------------------------------------------------- indentation

  /** The end of the run of spaces and tabs that starts at `i`. */
  function IndentEnd(line: string, i: nat): (k: nat)
    requires i <= |line|
    ensures i <= k <= |line|
    decreases |line| - i
  {
    if i < |line| && IsIndentChar(line[i]) then IndentEnd(line, i + 1) else i
  }

  lemma {:induction false} IndentEndShape(line: string, i: nat)
    requires i <= |line|
    ensures forall j :: i <= j < IndentEnd(line, i) ==> IsIndentChar(line[j])
    ensures IndentEnd(line, i) == |line| || !IsIndentChar(line[IndentEnd(line, i)])
    decreases |line| - i
  {
    if i < |line| && IsIndentChar(line[i]) {
      IndentEndShape(line, i + 1);
    }
  }

  /** The longest prefix of `line` made of spaces and tabs. */
  function Indent(line: string): (r: string)
    ensures |r| <= |line| && r == line[..|r|]
  {
    line[..IndentEnd(line, 0)]
  }

  /** `Indent` is made of spaces and tabs and stops at the first other
      character. */
  lemma IndentShape(line: string)
    ensures forall i :: 0 <= i < |Indent(line)| ==> IsIndentChar(Indent(line)[i])
    ensures |Indent(line)| == |line| || !IsIndentChar(line[|Indent(line)|])
  {
    IndentEndShape(line, 0);
  }

  /** Only one prefix has the properties of `Indent`. */
  lemma IndentIsLongest(line: string, p: string)
    requires |p| <= |line| && p == line[..|p|]
    requires forall i :: 0 <= i < |p| ==> IsIndentChar(p[i])
    requires |p| == |line| || !IsIndentChar(line[|p|])
    ensures p == Indent(line)
  {
    IndentEndShape(line, 0);
    assert forall j :: 0 <= j < |p| ==> IsIndentChar(line[j]);
  }

  /** The character loop that collects the marker line's indent. */
  method LeadingIndent(line: string) returns (indent: string)
    ensures indent == Indent(line)
  {
    indent := "";
    var k := 0;
    while k < |line|
      invariant 0 <= k <= |line| && indent == line[..k]
      invariant forall i :: 0 <= i < k ==> IsIndentChar(line[i])
    {
      if IsIndentChar(line[k]) {
        indent := indent + [line[k]];
        k := k + 1;
      } else {
        break;
      }
    }
    IndentIsLongest(line, indent);
  }

  // ---------------------------------------------------------------- the injected block

  /** The pieces of an injection: one trailing newline dropped, then split on newlines. */
  function Pieces(injection: string): seq<string> {
    Split(TrimSuffix(injection, "\n"), '\n')
  }

  /** The non-empty `pieces`, in order, each prefixed by `indent`. */
  function Indented(indent: string, pieces: seq<string>): (r: seq<string>)
    ensures |r| <= |pieces|
  {
    if pieces == [] then []
    else
      var last := pieces[|pieces| - 1];
      Indented(indent, pieces[..|pieces| - 1]) + (if last == "" then [] else [indent + last])
  }

  /** Proof helper: the positions of the non-empty pieces, in increasing
      order, used to name which piece each inserted line comes from. */
  function NonEmptyAt(pieces: seq<string>): (idx: seq<nat>)
    ensures |idx| <= |pieces|
  {
    if pieces == [] then []
    else NonEmptyAt(pieces[..|pieces| - 1]) + (if pieces[|pieces| - 1] == "" then [] else [|pieces| - 1])
  }

  /** Every position `NonEmptyAt` lists holds a non-empty piece. */
  lemma {:induction false} NonEmptyAtPoints(pieces: seq<string>)
    ensures forall j :: 0 <= j < |NonEmptyAt(pieces)| ==> NonEmptyAt(pieces)[j] < |pieces| && pieces[NonEmptyAt(pieces)[j]] != ""
  {
    if pieces != [] {
      var n := |pieces|;
      var init := pieces[..n - 1];
      NonEmptyAtPoints(init);
      var idx0, idx := NonEmptyAt(init), NonEmptyAt(pieces);
      assert idx == idx0 + (if pieces[n - 1] == "" then [] else [n - 1]);
      forall j | 0 <= j < |idx| ensures idx[j] < n && pieces[idx[j]] != "" {
        if j < |idx0| {
          assert idx[j] == idx0[j] && pieces[idx0[j]] == init[idx0[j]];
        }
      }
    }
  }

  /** The positions are listed in increasing order, so each once. */
  lemma {:induction false} NonEmptyAtIncreasing(pieces: seq<string>)
    ensures forall j, k :: 0 <= j < k < |NonEmptyAt(pieces)| ==> NonEmptyAt(pieces)[j] < NonEmptyAt(pieces)[k]
  {
    if pieces != [] {
      var n := |pieces|;
      var init := pieces[..n - 1];
      NonEmptyAtIncreasing(init);
      NonEmptyAtPoints(init);
      var idx0, idx := NonEmptyAt(init), NonEmptyAt(pieces);
      assert idx == idx0 + (if pieces[n - 1] == "" then [] else [n - 1]);
      assert forall j :: 0 <= j < |idx0| ==> idx[j] == idx0[j] < n - 1;
    }
  }

  /** No position of a non-empty piece is missing. */
  lemma {:induction false} NonEmptyAtCovers(pieces: seq<string>)
    ensures forall i :: 0 <= i < |pieces| && pieces[i] != "" ==> i in NonEmptyAt(pieces)
  {
    if pieces != [] {
      var n := |pieces|;
      var init := pieces[..n - 1];
      NonEmptyAtCovers(init);
      var idx0, idx := NonEmptyAt(init), NonEmptyAt(pieces);
      assert idx == idx0 + (if pieces[n - 1] == "" then [] else [n - 1]);
      forall i | 0 <= i < n && pieces[i] != "" ensures i in idx {
        if i < n - 1 {
          assert init[i] == pieces[i];
        }
      }
    }
  }

  /** There are as many such positions as there are non-empty pieces. */
  lemma {:induction false} NonEmptyCount(pieces: seq<string>)
    ensures |NonEmptyAt(pieces)| == |set i | 0 <= i < |pieces| && pieces[i] != ""|
  {
    if pieces != [] {
      var n := |pieces|;
      var init := pieces[..n - 1];
      NonEmptyCount(init);
      var s0 := set i | 0 <= i < |init| && init[i] != "";
      var s := set i | 0 <= i < n && pieces[i] != "";
      if pieces[n - 1] == "" {
        assert s == s0;
      } else {
        assert s == s0 + {n - 1};
      }
    }
  }

  /** Line `j` of the block is the indent followed by the `j`-th non-empty
      piece, so the block has one line per non-empty piece, in their order. */
  lemma {:induction false} IndentedLines(indent: string, pieces: seq<string>)
    ensures |Indented(indent, pieces)| == |NonEmptyAt(pieces)|
    ensures forall j :: 0 <= j < |Indented(indent, pieces)| ==>
              NonEmptyAt(pieces)[j] < |pieces| && Indented(indent, pieces)[j] == indent + pieces[NonEmptyAt(pieces)[j]]
  {
    if pieces != [] {
      var n := |pieces|;
      var init, last := pieces[..n - 1], pieces[n - 1];
      IndentedLines(indent, init);
      var r0, idx0 := Indented(indent, init), NonEmptyAt(init);
      var r, idx := Indented(indent, pieces), NonEmptyAt(pieces);
      assert r == r0 + (if last == "" then [] else [indent + last]);
      assert idx == idx0 + (if last == "" then [] else [n - 1]);
      forall j | 0 <= j < |r|
        ensures idx[j] < n && r[j] == indent + pieces[idx[j]]
      {
        if j < |r0| {
          assert r[j] == r0[j] == indent + init[idx0[j]];
          assert idx[j] == idx0[j] && init[idx0[j]] == pieces[idx0[j]];
        }
      }
    }
  }

  /** The block is empty exactly when every piece is. */
  lemma {:induction false} IndentedEmpty(indent: string, pieces: seq<string>)
    ensures Indented(indent, pieces) == [] <==> forall i :: 0 <= i < |pieces| ==> pieces[i] == ""
  {
    if pieces != [] {
      var init := pieces[..|pieces| - 1];
      var last := pieces[|pieces| - 1];
      IndentedEmpty(indent, init);
      assert forall i :: 0 <= i < |init| ==> init[i] == pieces[i];
      assert (forall i :: 0 <= i < |pieces| ==> pieces[i] == "") <==>
             (forall i :: 0 <= i < |init| ==> init[i] == "") && last == "";
    }
  }

  /** The lines inserted after a marker line indented by `indent`. */
  function Block(indent: string, injection: string): seq<string> {
    Indented(indent, Pieces(injection))
  }

  /** Indenting keeps a character out of the lines if it is in neither the
      indent nor the pieces. */
  lemma {:induction false} IndentedAvoids(indent: string, pieces: seq<string>, c: char)
    requires c !in indent
    requires forall i :: 0 <= i < |pieces| ==> c !in pieces[i]
    ensures forall j :: 0 <= j < |Indented(indent, pieces)| ==> c !in Indented(indent, pieces)[j]
  {
    if pieces != [] {
      var init := pieces[..|pieces| - 1];
      IndentedAvoids(indent, init, c);
    }
  }

  /** The loop that builds the block, skipping empty pieces. */
  method IndentBlock(indent: string, pieces: seq<string>) returns (block: seq<string>)
    ensures block == Indented(indent, pieces)
  {
    block := [];
    var k := 0;
    while k < |pieces|
      invariant 0 <= k <= |pieces|
      invariant block == Indented(indent, pieces[..k])
    {
      assert pieces[..k + 1][..k] == pieces[..k];
      if pieces[k] != "" {
        block := block + [indent + pieces[k]];
      }
      k := k + 1;
    }
    assert pieces[..k] == pieces;
  }

  // ---------------------------------------------------------------- finding the marker

  /** A line is the marker if both are equal once trimmed. */
  predicate IsMarker(line: string, marker: string) {
    TrimSpace(line) == TrimSpace(marker)
  }

  /** The first marker line at or after `i`, if any. */
  function FindFrom(lines: seq<string>, marker: string, i: nat): (r: Option<nat>)
    requires i <= |lines|
    ensures r.Some? ==> i <= r.value < |lines| && IsMarker(lines[r.value], marker)
    decreases |lines| - i
  {
    if i == |lines| then None
    else if IsMarker(lines[i], marker) then Some(i)
    else FindFrom(lines, marker, i + 1)
  }

  /** The first marker line, if any (see `FindMarkerFirst`). */
  function FindMarker(lines: seq<string>, marker: string): (r: Option<nat>)
    ensures r.Some? ==> r.value < |lines| && IsMarker(lines[r.value], marker)
  {
    FindFrom(lines, marker, 0)
  }

  lemma {:induction false} FindFromFirst(lines: seq<string>, marker: string, i: nat)
    requires i <= |lines|
    ensures var r := FindFrom(lines, marker, i);
            r.Some? ==> forall j :: i <= j < r.value ==> !IsMarker(lines[j], marker)
    ensures var r := FindFrom(lines, marker, i);
            r.None? <==> forall j :: i <= j < |lines| ==> !IsMarker(lines[j], marker)
    decreases |lines| - i
  {
    if i < |lines| && !IsMarker(lines[i], marker) {
      FindFromFirst(lines, marker, i + 1);
    }
  }

  /** `FindMarker` finds the first marker line, and finds none exactly when
      no line is the marker. */
  lemma FindMarkerFirst(lines: seq<string>, marker: string)
    ensures var r := FindMarker(lines, marker);
            r.Some? ==> forall j :: 0 <= j < r.value ==> !IsMarker(lines[j], marker)
    ensures FindMarker(lines, marker).None? <==> forall j :: 0 <= j < |lines| ==> !IsMarker(lines[j], marker)
  {
    FindFromFirst(lines, marker, 0);
  }

  lemma {:induction false} FindFromAgrees(a: seq<string>, b: seq<string>, marker: string, k: nat, i: nat)
    requires k <= i < |a| && i < |b|
    requires FindFrom(a, marker, k) == Some(i)
    requires a[..i + 1] == b[..i + 1]
    ensures FindFrom(b, marker, k) == Some(i)
    decreases i - k
  {
    assert a[k] == a[..i + 1][k] == b[..i + 1][k] == b[k];
    if k < i {
      FindFromAgrees(a, b, marker, k + 1, i);
    }
  }

  /** Lines that agree up to and including the first marker of one of them
      have their first marker at the same place. */
  lemma FindMarkerAgrees(a: seq<string>, b: seq<string>, marker: string, i: nat)
    requires FindMarker(a, marker) == Some(i)
    requires i < |b| && a[..i + 1] == b[..i + 1]
    ensures FindMarker(b, marker) == Some(i)
  {
    FindFromAgrees(a, b, marker, 0, i);
  }

  /** The lines after injection: up to and including the first marker line,
      then the block indented like it, then the rest unchanged. None when no
      line is the marker. */
  function InjectLines(lines: seq<string>, marker: string, injection: string): (r: Option<seq<string>>)
    ensures r.None? <==> FindMarker(lines, marker).None?
  {
    match FindMarker(lines, marker)
    case None => None
    case Some(i) => Some(lines[..i + 1] + Block(Indent(lines[i]), injection) + lines[i + 1..])
  }

  /** The loop of `injectAtMarker` over the lines, with its `found` flag and
      in-place splice. */
  method SpliceAtMarker(lines: seq<string>, markerLine: string, injection: string)
    returns (out: seq<string>, found: bool)
    ensures found <==> InjectLines(lines, markerLine, injection).Some?
    ensures found ==> out == InjectLines(lines, markerLine, injection).value
    ensures !found ==> out == lines
  {
    out, found := lines, false;
    var i := 0;
    while i < |lines|
      invariant 0 <= i <= |lines|
      invariant FindMarker(lines, markerLine) == FindFrom(lines, markerLine, i)
      invariant !found && out == lines
    {
      if IsMarker(lines[i], markerLine) {
        found := true;
        out := SpliceAt(lines, i, injection);
        assert FindMarker(lines, markerLine) == Some(i);
        return;
      }
      i := i + 1;
    }
    assert FindMarker(lines, markerLine) == None;
  }

  /** The splice itself: the marker line `i` keeps its place and the indented
      block follows it. */
  method SpliceAt(lines: seq<string>, i: nat, injection: string) returns (out: seq<string>)
    requires i < |lines|
    ensures out == lines[..i + 1] + Block(Indent(lines[i]), injection) + lines[i + 1..]
  {
    var indent := LeadingIndent(lines[i]);
    var newLines := IndentBlock(indent, Pieces(injection));
    out := lines[..i] + ([lines[i]] + newLines) + lines[i + 1..];
    assert lines[..i] + [lines[i]] == lines[..i + 1];
  }

  /** `injectAtMarker` on the text of a file: None when no line is the marker. */
  function InjectText(content: string, marker: string, injection: string): (r: Option<string>)
    ensures r.None? <==> FindMarker(Split(content, '\n'), marker).None?
  {
    match InjectLines(Split(content, '\n'), marker, injection)
    case None => None
    case Some(ls) => Some(Join(ls, '\n'))
  }

  // ---------------------------------------------------------------- properties of injection

  /** The shape of an injection at the first marker `i`: the lines before it
      and the marker line itself are kept, the block follows, and every later
      line (later copies of the marker included) is kept in order. */
  lemma InjectedShape(lines: seq<string>, marker: string, injection: string, i: nat)
    requires FindMarker(lines, marker) == Some(i)
    ensures var out := InjectLines(lines, marker, injection).value;
            var b := Block(Indent(lines[i]), injection);
            && |out| == |lines| + |b|
            && out[..i] == lines[..i]
            && out[i] == lines[i]
            && out[i + 1..i + 1 + |b|] == b
            && out[i + 1 + |b|..] == lines[i + 1..]
  {
    var b := Block(Indent(lines[i]), injection);
    var out := lines[..i + 1] + b + lines[i + 1..];
    assert out[..i] == lines[..i];
    assert out[i + 1..i + 1 + |b|] == b;
    assert out[i + 1 + |b|..] == lines[i + 1..];
  }

  /** An injection without non-empty lines leaves the text byte for byte as
      it was (the split and join undo each other). */
  lemma EmptyInjectionKeepsText(content: string, marker: string, injection: string)
    requires InjectText(content, marker, injection).Some?
    requires forall k :: 0 <= k < |Pieces(injection)| ==> Pieces(injection)[k] == ""
    ensures InjectText(content, marker, injection) == Some(content)
  {
    var lines := Split(content, '\n');
    EmptyBlockKeepsLines(lines, marker, injection);
    JoinSplit(content, '\n');
  }

  lemma EmptyBlockKeepsLines(lines: seq<string>, marker: string, injection: string)
    requires InjectLines(lines, marker, injection).Some?
    requires forall k :: 0 <= k < |Pieces(injection)| ==> Pieces(injection)[k] == ""
    ensures InjectLines(lines, marker, injection) == Some(lines)
  {
    var i := FindMarker(lines, marker).value;
    IndentedEmpty(Indent(lines[i]), Pieces(injection));
    assert InjectLines(lines, marker, injection) == Some(lines[..i + 1] + [] + lines[i + 1..]);
    assert lines[..i + 1] + [] + lines[i + 1..] == lines;
  }

  /** No line of an injected file holds a newline. */
  lemma InjectedLinesAreLines(lines: seq<string>, marker: string, injection: string)
    requires forall j :: 0 <= j < |lines| ==> '\n' !in lines[j]
    requires InjectLines(lines, marker, injection).Some?
    ensures forall j :: 0 <= j < |InjectLines(lines, marker, injection).value| ==> '\n' !in InjectLines(lines, marker, injection).value[j]
  {
    var i := FindMarker(lines, marker).value;
    var indent := Indent(lines[i]);
    assert '\n' !in indent by {
      assert forall k :: 0 <= k < |indent| ==> indent[k] == lines[i][k];
    }
    IndentedAvoids(indent, Pieces(injection), '\n');
  }

  /** Splicing a block after line `i` of lines that already hold it there
      puts the two copies side by side. */
  lemma SpliceTwice(lines: seq<string>, i: nat, b: seq<string>)
    requires i < |lines|
    ensures var out := lines[..i + 1] + b + lines[i + 1..];
            out[..i + 1] == lines[..i + 1] && out[i] == lines[i]
            && out[..i + 1] + b + out[i + 1..] == lines[..i + 1] + b + b + lines[i + 1..]
  {
    var out := lines[..i + 1] + b + lines[i + 1..];
    assert out[..i + 1] == lines[..i + 1];
    assert out[i + 1..] == b + lines[i + 1..];
  }

  /** The text after one injection splits back into the injected lines, whose
      first marker is still line `i`. */
  lemma InjectOnce(content: string, marker: string, injection: string)
    requires InjectText(content, marker, injection).Some?
    ensures var lines := Split(content, '\n');
            var i := FindMarker(lines, marker).value;
            var out := InjectLines(lines, marker, injection).value;
            && InjectText(content, marker, injection).value == Join(out, '\n')
            && Split(Join(out, '\n'), '\n') == out
            && FindMarker(out, marker) == Some(i)
            && out[i] == lines[i]
            && (forall j :: 0 <= j < |out| ==> '\n' !in out[j])
  {
    var lines := Split(content, '\n');
    var i := FindMarker(lines, marker).value;
    var out := InjectLines(lines, marker, injection).value;
    InjectedLinesAreLines(lines, marker, injection);
    SplitJoin(out, '\n');
    SpliceTwice(lines, i, Block(Indent(lines[i]), injection));
    FindMarkerAgrees(lines, out, marker, i);
  }

  /** The marker line is kept, so injecting twice inserts the block twice: the
      lines of the result are the original lines with two copies of the block
      after the first marker, and a non-empty block makes the second injection
      change the text again. */
  lemma InjectTwice(content: string, marker: string, injection: string)
    requires InjectText(content, marker, injection).Some?
    ensures var once := InjectText(content, marker, injection).value;
            var lines := Split(content, '\n');
            var i := FindMarker(lines, marker).value;
            var b := Block(Indent(lines[i]), injection);
            && InjectText(once, marker, injection).Some?
            && Split(InjectText(once, marker, injection).value, '\n') == lines[..i + 1] + b + b + lines[i + 1..]
            && (b != [] ==> InjectText(once, marker, injection).value != once)
  {
    var lines := Split(content, '\n');
    var i := FindMarker(lines, marker).value;
    var b := Block(Indent(lines[i]), injection);
    var out := lines[..i + 1] + b + lines[i + 1..];
    InjectOnce(content, marker, injection);
    var once := Join(out, '\n');
    var twice := out[..i + 1] + b + out[i + 1..];
    assert InjectLines(out, marker, injection) == Some(twice);
    SpliceTwice(lines, i, b);
    InjectedLinesAreLines(out, marker, injection);
    SplitJoin(twice, '\n');
    assert InjectText(once, marker, injection) == Some(Join(twice, '\n'));
    if b != [] {
      assert |twice| == |out| + |b| > |out|;
    }
  }

  // ---------------------------------------------------------------- injection on the file system

  /** `injectAtMarker(path, marker, injection)`: read the file, inject, write it
      back. A read error is returned as is; a missing marker is an error and
      nothing is written. */
  function InjectSpec(st: FsState, readOnly: set<string>, path: string, marker: string, injection: string): (o: Outcome)
    ensures o.state.dirs == st.dirs && o.state.files.Keys == st.files.Keys
    ensures forall q :: q in st.files && q != path ==> o.state.files[q] == st.files[q]
    ensures path !in st.files ==> o.state == st && o.err.Some?
    ensures o.err.None? ==>
              && path in st.files
              && InjectText(st.files[path], marker, injection).Some?
              && o.state.files[path] == InjectText(st.files[path], marker, injection).value
    ensures path in st.files && InjectText(st.files[path], marker, injection).None? ==>
              o == Outcome(st, Some(MarkerNotFound(marker, path)))
    ensures o.err.None? <==>
              && path in st.files && path !in st.dirs && path !in readOnly
              && InjectText(st.files[path], marker, injection).Some?
    ensures o.err.Some? ==> o.state == st
  {
    match ReadSpec(st, path)
    case Err(e) => Outcome(st, Some(e))
    case Ok(content) =>
      match InjectText(content, marker, injection)
      case None => Outcome(st, Some(MarkerNotFound(marker, path)))
      case Some(text) => WriteSpec(st, readOnly, path, text)
  }

  /** A file without the marker is reported and left untouched, and the
      report names the marker and the file. */
  lemma MarkerMissingWritesNothing(st: FsState, readOnly: set<string>, path: string, marker: string, injection: string)
    requires path in st.files
    requires forall j :: 0 <= j < |Split(st.files[path], '\n')| ==> !IsMarker(Split(st.files[path], '\n')[j], marker)
    ensures InjectSpec(st, readOnly, path, marker, injection) == Outcome(st, Some(MarkerNotFound(marker, path)))
    ensures HasPrefix(Message(MarkerNotFound(marker, path)), "required marker ")
  {
    var m := Message(MarkerNotFound(marker, path));
    assert m == "required marker " + (Quote(marker) + " not found in " + path);
  }

  method InjectAtMarker(fs: FileSystem, path: string, marker: string, injection: string) returns (err: Option<Error>)
    requires fs.Valid()
    modifies fs
    ensures fs.Valid()
    ensures Outcome(fs.State(), err) == InjectSpec(old(fs.State()), fs.readOnly, path, marker, injection)
  {
    var content := fs.ReadFile(path);
    if content.Err? {
      return Some(content.error);
    }
    var lines := Split(content.value, '\n');
    var newLines, found := SpliceAtMarker(lines, marker, injection);
    if !found {
      return Some(MarkerNotFound(marker, path));
    }
    err := fs.WriteFile(path, Join(newLines, '\n'));
  }

  // ---------------------------------------------------------------- appending to .env.example

  /** The text `appendEnvExample` writes: `line` after the original, on a line
      of its own. */
  function AppendLine(orig: string, line: string): (r: string)
    ensures |orig| + |line| <= |r| && |line| < |r| && r[..|orig|] == orig
    ensures HasSuffix(r, line)
    ensures r[|r| - |line| - 1] == '\n'
    ensures |r| == |orig| + |line| <==> HasSuffix(orig, "\n")
    ensures |r| <= |orig| + 1 + |line|
  {
    if HasSuffix(orig, "\n") then orig + line else orig + "\n" + line
  }

  /** An empty file gains a leading newline. */
  lemma AppendToEmpty(line: string)
    ensures AppendLine("", line) == "\n" + line
  {
  }

  /** `appendEnvExample(targetDir, line)`; its errors are the file system's,
      returned without the plugin prefix. */
  function AppendEnvSpec(st: FsState, readOnly: set<string>, targetDir: string, line: string): (o: Outcome)
    ensures o.state.dirs == st.dirs
    ensures o.err.Some? ==> o.err.value.PathError? && o.state == st
    ensures o.err.None? ==>
              var p := JoinPath(targetDir, ".env.example");
              p in st.files && o.state.files == st.files[p := AppendLine(st.files[p], line)]
    ensures var p := JoinPath(targetDir, ".env.example");
            o.err.None? <==> p in st.files && p !in st.dirs && p !in readOnly
  {
    var path := JoinPath(targetDir, ".env.example");
    match ReadSpec(st, path)
    case Err(e) => Outcome(st, Some(e))
    case Ok(b) => WriteSpec(st, readOnly, path, AppendLine(b, line))
  }

  method AppendEnvExample(fs: FileSystem, targetDir: string, line: string) returns (err: Option<Error>)
    requires fs.Valid()
    modifies fs
    ensures fs.Valid()
    ensures Outcome(fs.State(), err) == AppendEnvSpec(old(fs.State()), fs.readOnly, targetDir, line)
  {
    var path := JoinPath(targetDir, ".env.example");
    var b := fs.ReadFile(path);
    if b.Err? {
      return Some(b.error);
    }
    var l := line;
    if !HasSuffix(b.value, "\n") {
      l := "\n" + l;
    }
    assert b.value + l == AppendLine(b.value, line);
    err := fs.WriteFile(path, b.value + l);
  }

  // ---------------------------------------------------------------- the plugin's own templates

  /** The plugin's template engine: `(name, body, project name)` to text. It
      runs with the library defaults, so a missing key renders rather than
      fails. */
  type PluginRenderer = (string, string, string) -> Rendering

  /** What stays fixed while `writeTemplates` walks the plugin's tree. */
  datatype WalkContext = WalkContext(
    templates: TemplateFS, render: PluginRenderer, base: string,
    targetDir: string, projectName: string, readOnly: set<string>)

  /** The plugin's template directory for a stack. */
  function TemplatesBase(stackKey: string): string {
    JoinPath("templates", stackKey)
  }

  /** Where `writeTemplates` puts a walked file: only `.tmpl` files are
      written, at their path below the base with `.tmpl` removed. */
  function PluginDest(c: WalkContext, path: string): (r: Option<string>)
    ensures r.Some? <==> HasSuffix(path, ".tmpl")
  {
    if HasSuffix(path, ".tmpl") then Some(JoinPath(c.targetDir, TrimSuffix(TrimPrefix(path, c.base + "/"), ".tmpl")))
    else None
  }

  /** The text a plugin template renders to, if it can be read and rendered. */
  function PluginText(c: WalkContext, path: string): Option<string> {
    match ReadTemplate(c.templates, path)
    case Err(_) => None
    case Ok(body) =>
      match c.render(path, body, c.projectName)
      case Rendered(text) => Some(text)
      case _ => None
  }

  /** The walk callback of `writeTemplates` on one file. Read, parse and
      execution errors come back unwrapped. */
  function PluginStep(c: WalkContext, st: FsState, path: string): (o: Outcome)
    ensures st.files.Keys <= o.state.files.Keys
    ensures o.err.None? ==> o.state.files.Keys == st.files.Keys + Opt(PluginDest(c, path))
    ensures forall q :: q in st.files && PluginDest(c, path) != Some(q) ==> q in o.state.files && o.state.files[q] == st.files[q]
    ensures o.err.None? && PluginDest(c, path).Some? ==>
              && PluginText(c, path).Some?
              && PluginDest(c, path).value in o.state.files
              && o.state.files[PluginDest(c, path).value] == PluginText(c, path).value
    ensures o.err.None? <==>
              || PluginDest(c, path).None?
              || var d := PluginDest(c, path).value;
                 var m := MkdirAllSpec(st, Dir(d));
                 m.err.None? && PluginText(c, path).Some? && d !in m.state.dirs && d !in c.readOnly
  {
    match PluginDest(c, path)
    case None => Outcome(st, None)
    case Some(dst) =>
      match ReadTemplate(c.templates, path)
      case Err(e) => Outcome(st, Some(e))
      case Ok(body) =>
        match c.render(path, body, c.projectName)
        case ParseFailed(d) => Outcome(st, Some(TemplateFailure(d)))
        case ExecFailed(d) => Outcome(st, Some(TemplateFailure(d)))
        case Rendered(text) =>
          var m := MkdirAllSpec(st, Dir(dst));
          if m.err.Some? then m else WriteSpec(m.state, c.readOnly, dst, text)
  }

  /** `writeTemplates`: a missing tree is the walk's error on its root;
      otherwise every file in walk order, stopping at the first failure. */
  function WriteTemplatesSpec(st: FsState, c: WalkContext): Outcome {
    var items := Walk(c.templates, c.base);
    if items == [] then Outcome(st, Some(PathError("open", c.base, "file does not exist")))
    else Run(PluginStep, c, st, items)
  }

  method PluginFile(fs: FileSystem, c: WalkContext, path: string) returns (err: Option<Error>)
    requires fs.Valid() && c.readOnly == fs.readOnly
    modifies fs
    ensures fs.Valid()
    ensures Outcome(fs.State(), err) == PluginStep(c, old(fs.State()), path)
  {
    if !HasSuffix(path, ".tmpl") {
      return None;
    }
    var content := ReadTemplate(c.templates, path);
    if content.Err? {
      return Some(content.error);
    }
    match c.render(path, content.value, c.projectName) {
      case ParseFailed(d) =>
        return Some(TemplateFailure(d));
      case ExecFailed(d) =>
        return Some(TemplateFailure(d));
      case Rendered(out) =>
        var rel := TrimPrefix(path, c.base + "/");
        rel := TrimSuffix(rel, ".tmpl");
        var dstPath := JoinPath(c.targetDir, rel);
        err := fs.MkdirAll(Dir(dstPath));
        if err.Some? {
          return;
        }
        err := fs.WriteFile(dstPath, out);
    }
  }

  method WriteTemplates(fs: FileSystem, c: WalkContext) returns (err: Option<Error>)
    requires fs.Valid() && c.readOnly == fs.readOnly
    modifies fs
    ensures fs.Valid()
    ensures Outcome(fs.State(), err) == WriteTemplatesSpec(old(fs.State()), c)
  {
    var items := Walk(c.templates, c.base);
    if items == [] {
      return Some(PathError("open", c.base, "file does not exist"));
    }
    var i := 0;
    err := None;
    while i < |items|
      invariant 0 <= i <= |items|
      invariant fs.Valid()
      invariant err == None
      invariant Run(PluginStep, c, old(fs.State()), items) == Run(PluginStep, c, fs.State(), items[i..])
    {
      assert items[i..][1..] == items[i + 1..];
      err := PluginFile(fs, c, items[i]);
      if err.Some? {
        return;
      }
      i := i + 1;
    }
  }

  /** A plugin file step writes exactly its destination, or nothing; it leaves
      every other file as it was, and on success its destination holds the
      rendered template. */
  lemma PluginStepWritesDest(c: WalkContext)
    ensures WritesAsMapped(PluginStep, PluginDest, c)
    ensures KeepsOthers(PluginStep, PluginDest, c)
    ensures WritesText(PluginStep, PluginDest, PluginText, c)
  {
    forall s: FsState, p: string
      ensures PluginStep(c, s, p).err.None? ==> PluginStep(c, s, p).state.files.Keys == s.files.Keys + Opt(PluginDest(c, p))
      ensures s.files.Keys <= PluginStep(c, s, p).state.files.Keys
    {
    }
  }

  /** A `writeTemplates` that succeeds adds exactly one file per walked
      `.tmpl` file, at its destination. */
  lemma WriteTemplatesWrites(st: FsState, c: WalkContext)
    ensures var o := WriteTemplatesSpec(st, c);
            o.err.None? ==> o.state.files.Keys == st.files.Keys + Targets(PluginDest, c, Walk(c.templates, c.base))
  {
    PluginStepWritesDest(c);
    RunWrites(PluginStep, PluginDest, c, st, Walk(c.templates, c.base));
  }

  /** `writeTemplates`, whether it succeeds or fails, changes no file unless
      it is the destination of a walked `.tmpl` file. */
  lemma WriteTemplatesKeepsOthers(st: FsState, c: WalkContext)
    ensures var o := WriteTemplatesSpec(st, c);
            forall q :: q in st.files && q !in Targets(PluginDest, c, Walk(c.templates, c.base)) ==>
              q in o.state.files && o.state.files[q] == st.files[q]
  {
    PluginStepWritesDest(c);
    RunKeepsOthers(PluginStep, PluginDest, c, st, Walk(c.templates, c.base));
  }

  /** After a `writeTemplates` that succeeds, the destination of the walked
      file `k` holds that template rendered, provided no later file has the
      same destination. */
  lemma WriteTemplatesContents(st: FsState, c: WalkContext, k: nat)
    requires var items := Walk(c.templates, c.base);
             && k < |items| && PluginDest(c, items[k]).Some?
             && forall j :: k < j < |items| ==> PluginDest(c, items[j]) != PluginDest(c, items[k])
    ensures var items := Walk(c.templates, c.base);
            var o := WriteTemplatesSpec(st, c);
            o.err.None? ==>
              && PluginText(c, items[k]).Some?
              && PluginDest(c, items[k]).value in o.state.files
              && o.state.files[PluginDest(c, items[k]).value] == PluginText(c, items[k]).value
  {
    PluginStepWritesDest(c);
    RunLastWrite(PluginStep, PluginDest, PluginText, c, st, Walk(c.templates, c.base), k);
  }

  /** A template directly below the base goes to its name without `.tmpl`:
      there is no dotfile renaming and no Docker exclusion here. */
  lemma PluginDestBelow(c: WalkContext, name: string)
    requires HasSuffix(name, ".tmpl")
    ensures PluginDest(c, Child(c.base, name)) == Some(JoinPath(c.targetDir, TrimSuffix(name, ".tmpl")))
  {
    var p := Child(c.base, name);
    assert HasPrefix(p, c.base + "/");
    assert HasSuffix(p, ".tmpl") by {
      assert p[|p| - |".tmpl"|..] == name[|name| - |".tmpl"|..];
    }
  }

  /** The plugin walk renames no dotfile: `gitignore.tmpl` becomes `gitignore`. */
  lemma NoDotfileRule(c: WalkContext)
    ensures PluginDest(c, Child(c.base, "gitignore.tmpl")) == Some(JoinPath(c.targetDir, "gitignore"))
  {
    assert HasSuffix("gitignore.tmpl", ".tmpl") && TrimSuffix("gitignore.tmpl", ".tmpl") == "gitignore";
    PluginDestBelow(c, "gitignore.tmpl");
  }

  /** The plugin walk skips no Docker template, whatever the project's choice. */
  lemma NoDockerRule(c: WalkContext)
    ensures PluginDest(c, Child(c.base, "Dockerfile.tmpl")) == Some(JoinPath(c.targetDir, "Dockerfile"))
  {
    assert HasSuffix("Dockerfile.tmpl", ".tmpl") && TrimSuffix("Dockerfile.tmpl", ".tmpl") == "Dockerfile";
    PluginDestBelow(c, "Dockerfile.tmpl");
  }

  // ---------------------------------------------------------------- Apply

  /** An inner error comes back as `auth plugin: <inner>`. */
  function Wrapped(o: Outcome): (w: Outcome)
    ensures w.state == o.state && w.err.None? == o.err.None?
    ensures o.err.Some? ==> w.err == Some(AuthPlugin(o.err.value))
  {
    if o.err.Some? then Outcome(o.state, Some(AuthPlugin(o.err.value))) else o
  }

  function Walker(templates: TemplateFS, render: PluginRenderer, readOnly: set<string>, ctx: Context, stackKey: string): WalkContext {
    WalkContext(templates, render, TemplatesBase(stackKey), ctx.targetDir, ctx.projectName, readOnly)
  }

  /** `applyGoGin`: templates, the handler lines after `// scaffold:auth` in
      `cmd/main.go`, then the JWT line. */
  function ApplyGoGinSpec(st: FsState, readOnly: set<string>, templates: TemplateFS, render: PluginRenderer, ctx: Context): Outcome {
    var w := Wrapped(WriteTemplatesSpec(st, Walker(templates, render, readOnly, ctx, "go-gin")));
    if w.err.Some? then w
    else
      var j := Wrapped(InjectSpec(w.state, readOnly, JoinPath(JoinPath(ctx.targetDir, "cmd"), "main.go"), Marker, GoGinInjection));
      if j.err.Some? then j
      else AppendEnvSpec(j.state, readOnly, ctx.targetDir, JwtLine)
  }

  /** `applyNodeExpress` and `applyNodeExpressTS`, which differ only in the
      stack key and the server file: templates, the router import, the route
      registration, then the JWT line. */
  function ApplyNodeSpec(st: FsState, readOnly: set<string>, templates: TemplateFS, render: PluginRenderer, ctx: Context,
                         stackKey: string, server: string): Outcome {
    var w := Wrapped(WriteTemplatesSpec(st, Walker(templates, render, readOnly, ctx, stackKey)));
    if w.err.Some? then w
    else
      var path := JoinPath(JoinPath(ctx.targetDir, "src"), server);
      var j1 := Wrapped(InjectSpec(w.state, readOnly, path, ImportMarker, NodeImport));
      if j1.err.Some? then j1
      else
        var j2 := Wrapped(InjectSpec(j1.state, readOnly, path, RoutesMarker, NodeRoutes));
        if j2.err.Some? then j2
        else AppendEnvSpec(j2.state, readOnly, ctx.targetDir, JwtLine)
  }

  /** `Apply`: dispatch on the stack key. */
  function ApplySpec(st: FsState, readOnly: set<string>, templates: TemplateFS, render: PluginRenderer, ctx: Context): Outcome {
    match ctx.stackKey
    case "go-gin" => ApplyGoGinSpec(st, readOnly, templates, render, ctx)
    case "node-express" => ApplyNodeSpec(st, readOnly, templates, render, ctx, "node-express", "server.js")
    case "node-express-ts" => ApplyNodeSpec(st, readOnly, templates, render, ctx, "node-express-ts", "server.ts")
    case _ => Outcome(st, Some(AuthUnsupportedStack(ctx.stackKey)))
  }

  method ApplyGoGin(fs: FileSystem, templates: TemplateFS, render: PluginRenderer, ctx: Context) returns (err: Option<Error>)
    requires fs.Valid()
    modifies fs
    ensures fs.Valid()
    ensures Outcome(fs.State(), err) == ApplyGoGinSpec(old(fs.State()), fs.readOnly, templates, render, ctx)
  {
    err := WriteTemplates(fs, Walker(templates, render, fs.readOnly, ctx, "go-gin"));
    if err.Some? {
      return Some(AuthPlugin(err.value));
    }
    err := InjectAtMarker(fs, JoinPath(JoinPath(ctx.targetDir, "cmd"), "main.go"), Marker, GoGinInjection);
    if err.Some? {
      return Some(AuthPlugin(err.value));
    }
    err := AppendEnvExample(fs, ctx.targetDir, JwtLine);
  }

  method ApplyNode(fs: FileSystem, templates: TemplateFS, render: PluginRenderer, ctx: Context, stackKey: string, server: string)
    returns (err: Option<Error>)
    requires fs.Valid()
    modifies fs
    ensures fs.Valid()
    ensures Outcome(fs.State(), err) == ApplyNodeSpec(old(fs.State()), fs.readOnly, templates, render, ctx, stackKey, server)
  {
    err := WriteTemplates(fs, Walker(templates, render, fs.readOnly, ctx, stackKey));
    if err.Some? {
      return Some(AuthPlugin(err.value));
    }
    var path := JoinPath(JoinPath(ctx.targetDir, "src"), server);
    err := InjectAtMarker(fs, path, ImportMarker, NodeImport);
    if err.Some? {
      return Some(AuthPlugin(err.value));
    }
    err := InjectAtMarker(fs, path, RoutesMarker, NodeRoutes);
    if err.Some? {
      return Some(AuthPlugin(err.value));
    }
    err := AppendEnvExample(fs, ctx.targetDir, JwtLine);
  }

  method Apply(fs: FileSystem, templates: TemplateFS, render: PluginRenderer, ctx: Context) returns (err: Option<Error>)
    requires fs.Valid()
    modifies fs
    ensures fs.Valid()
    ensures Outcome(fs.State(), err) == ApplySpec(old(fs.State()), fs.readOnly, templates, render, ctx)
  {
    match ctx.stackKey {
      case "go-gin" =>
        err := ApplyGoGin(fs, templates, render, ctx);
      case "node-express" =>
        err := ApplyNode(fs, templates, render, ctx, "node-express", "server.js");
      case "node-express-ts" =>
        err := ApplyNode(fs, templates, render, ctx, "node-express-ts", "server.ts");
      case _ =>
        err := Some(AuthUnsupportedStack(ctx.stackKey));
    }
  }

  // ---------------------------------------------------------------- properties of Apply

  /** The keys `Apply` handles are exactly the declared compatible stacks:
      any other key is refused with "unsupported stack" and nothing changes,
      and a handled key never produces that error. */
  lemma ApplyDispatchIsCompatibleStacks(st: FsState, readOnly: set<string>, templates: TemplateFS, render: PluginRenderer, ctx: Context)
    ensures (ApplySpec(st, readOnly, templates, render, ctx).err == Some(AuthUnsupportedStack(ctx.stackKey)))
              <==> ctx.stackKey !in CompatibleStacks
    ensures ctx.stackKey !in CompatibleStacks ==> ApplySpec(st, readOnly, templates, render, ctx).state == st
  {
    match ctx.stackKey
    case "go-gin" => GoGinErrorKinds(st, readOnly, templates, render, ctx);
    case "node-express" => NodeErrorKinds(st, readOnly, templates, render, ctx, "node-express", "server.js");
    case "node-express-ts" => NodeErrorKinds(st, readOnly, templates, render, ctx, "node-express-ts", "server.ts");
    case _ =>
  }

  /** The Gin handler fails only with a wrapped error or a file-system error. */
  lemma GoGinErrorKinds(st: FsState, readOnly: set<string>, templates: TemplateFS, render: PluginRenderer, ctx: Context)
    ensures var e := ApplyGoGinSpec(st, readOnly, templates, render, ctx).err;
            e.Some? ==> e.value.AuthPlugin? || e.value.PathError?
  {
  }

  /** So do the two Express handlers. */
  lemma NodeErrorKinds(st: FsState, readOnly: set<string>, templates: TemplateFS, render: PluginRenderer, ctx: Context,
                       stackKey: string, server: string)
    ensures var e := ApplyNodeSpec(st, readOnly, templates, render, ctx, stackKey, server).err;
            e.Some? ==> e.value.AuthPlugin? || e.value.PathError?
  {
  }

  /** A successful application leaves `.env.example` ending with the JWT line. */
  lemma ApplyAddsJwtSecret(st: FsState, readOnly: set<string>, templates: TemplateFS, render: PluginRenderer, ctx: Context)
    ensures var o := ApplySpec(st, readOnly, templates, render, ctx);
            var env := JoinPath(ctx.targetDir, ".env.example");
            o.err.None? ==> env in o.state.files && HasSuffix(o.state.files[env], JwtLine)
  {
    match ctx.stackKey
    case "go-gin" => GoGinAddsJwtSecret(st, readOnly, templates, render, ctx);
    case "node-express" => NodeAddsJwtSecret(st, readOnly, templates, render, ctx, "node-express", "server.js");
    case "node-express-ts" => NodeAddsJwtSecret(st, readOnly, templates, render, ctx, "node-express-ts", "server.ts");
    case _ =>
  }

  lemma GoGinAddsJwtSecret(st: FsState, readOnly: set<string>, templates: TemplateFS, render: PluginRenderer, ctx: Context)
    ensures var o := ApplyGoGinSpec(st, readOnly, templates, render, ctx);
            var env := JoinPath(ctx.targetDir, ".env.example");
            o.err.None? ==> env in o.state.files && HasSuffix(o.state.files[env], JwtLine)
  {
  }

  lemma NodeAddsJwtSecret(st: FsState, readOnly: set<string>, templates: TemplateFS, render: PluginRenderer, ctx: Context,
                          stackKey: string, server: string)
    ensures var o := ApplyNodeSpec(st, readOnly, templates, render, ctx, stackKey, server);
            var env := JoinPath(ctx.targetDir, ".env.example");
            o.err.None? ==> env in o.state.files && HasSuffix(o.state.files[env], JwtLine)
  {
  }

  /** A one-line injection (no newline in it) becomes exactly one line, the
      marker's indent followed by the injection. */
  lemma OneLineBlock(indent: string, injection: string)
    requires injection != [] && '\n' !in injection
    ensures Block(indent, injection) == [indent + injection]
  {
    assert !HasSuffix(injection, "\n") by {
      assert injection[|injection| - 1] != '\n';
    }
    assert Pieces(injection) == [injection];
    assert Indented(indent, [injection]) == Indented(indent, []) + [indent + injection];
  }

  /** The server file is never the env file: below the target directory one
      starts with `src`, the other with `.env.example`. */
  lemma ServerIsNotEnv(targetDir: string, server: string)
    ensures JoinPath(JoinPath(targetDir, "src"), server) != JoinPath(targetDir, ".env.example")
  {
    var path := JoinPath(JoinPath(targetDir, "src"), server);
    var env := JoinPath(targetDir, ".env.example");
    var k := if targetDir == "" then 0 else |targetDir| + 1;
    assert |path| > k && path[k] == 's';
    assert env[k] == '.';
  }

  /** Appending to the env file changes no other file. */
  lemma AppendEnvKeepsOthers(st: FsState, readOnly: set<string>, targetDir: string, line: string, q: string)
    requires q in st.files && q != JoinPath(targetDir, ".env.example")
    ensures var o := AppendEnvSpec(st, readOnly, targetDir, line);
            q in o.state.files && o.state.files[q] == st.files[q]
  {
  }

  /** A successful Express apply leaves the server file as the templates wrote
      it, with the router import injected at the import marker and then the
      route registration injected at the routes marker. */
  lemma NodeServerPatched(st: FsState, readOnly: set<string>, templates: TemplateFS, render: PluginRenderer, ctx: Context,
                          stackKey: string, server: string)
    ensures var o := ApplyNodeSpec(st, readOnly, templates, render, ctx, stackKey, server);
            var w := WriteTemplatesSpec(st, Walker(templates, render, readOnly, ctx, stackKey)).state;
            var path := JoinPath(JoinPath(ctx.targetDir, "src"), server);
            o.err.None? ==>
              && path in w.files
              && InjectText(w.files[path], ImportMarker, NodeImport).Some?
              && var once := InjectText(w.files[path], ImportMarker, NodeImport).value;
                 && InjectText(once, RoutesMarker, NodeRoutes).Some?
                 && path in o.state.files
                 && o.state.files[path] == InjectText(once, RoutesMarker, NodeRoutes).value
  {
    var w := WriteTemplatesSpec(st, Walker(templates, render, readOnly, ctx, stackKey));
    var path := JoinPath(JoinPath(ctx.targetDir, "src"), server);
    if w.err.None? {
      var j1 := InjectSpec(w.state, readOnly, path, ImportMarker, NodeImport);
      if j1.err.None? {
        var j2 := InjectSpec(j1.state, readOnly, path, RoutesMarker, NodeRoutes);
        if j2.err.None? {
          ServerIsNotEnv(ctx.targetDir, server);
          AppendEnvKeepsOthers(j2.state, readOnly, ctx.targetDir, JwtLine, path);
        }
      }
    }
  }

  /** Two adjacent lines, the first not the marker, are still adjacent after
      an injection: in place when the marker comes after them, shifted by the
      block when it comes before. */
  lemma InjectKeepsPair(lines: seq<string>, marker: string, injection: string, i: nat)
    requires FindMarker(lines, marker).Some? && FindMarker(lines, marker).value != i
    requires i + 1 < |lines|
    ensures var out := InjectLines(lines, marker, injection).value;
            exists k :: 0 <= k && k + 1 < |out| && out[k] == lines[i] && out[k + 1] == lines[i + 1]
  {
    var r := FindMarker(lines, marker).value;
    var out := InjectLines(lines, marker, injection).value;
    var b := Block(Indent(lines[r]), injection);
    InjectedShape(lines, marker, injection, r);
    if r < i {
      assert out[r + 1 + |b|..][i - r - 1] == lines[r + 1..][i - r - 1];
      assert out[r + 1 + |b|..][i - r] == lines[r + 1..][i - r];
      assert out[i + |b|] == lines[i] && out[i + |b| + 1] == lines[i + 1];
    } else {
      assert out[..r][i] == lines[..r][i];
      if r == i + 1 {
        assert out[i + 1] == lines[i + 1];
      } else {
        assert out[..r][i + 1] == lines[..r][i + 1];
      }
      assert out[i] == lines[i] && out[i + 1] == lines[i + 1];
    }
  }

  /** A one-line injection puts exactly one line, the indented injection,
      right after the first marker line. */
  lemma OneLineInjected(lines: seq<string>, marker: string, injection: string)
    requires FindMarker(lines, marker).Some?
    requires injection != [] && '\n' !in injection
    ensures var i := FindMarker(lines, marker).value;
            var out := InjectLines(lines, marker, injection).value;
            && |out| == |lines| + 1
            && out[i] == lines[i]
            && out[i + 1] == Indent(lines[i]) + injection
  {
    var i := FindMarker(lines, marker).value;
    InjectedShape(lines, marker, injection, i);
    OneLineBlock(Indent(lines[i]), injection);
  }

  /** The two Express markers can never match the same line. */
  lemma ExpressMarkersDiffer()
    ensures TrimSpace(ImportMarker) != TrimSpace(RoutesMarker)
  {
    assert ImportMarker[0] == '/' && ImportMarker[|ImportMarker| - 1] == 't';
    assert RoutesMarker[0] == '/' && RoutesMarker[|RoutesMarker| - 1] == 's';
    TrimSpaceKeepsTrimmed(ImportMarker);
    TrimSpaceKeepsTrimmed(RoutesMarker);
  }

  /** The router import is a single line. */
  lemma ImportIsOneLine()
    ensures NodeImport != [] && '\n' !in NodeImport
  {
  }

  /** The route registration is a single line. */
  lemma RoutesIsOneLine()
    ensures NodeRoutes != [] && '\n' !in NodeRoutes
  {
  }

  /** Some line of `lines` is the marker and the next line is `injection`
      indented like it. */
  predicate FollowedBy(lines: seq<string>, marker: string, injection: string) {
    exists k :: 0 <= k && k + 1 < |lines| && IsMarker(lines[k], marker) && lines[k + 1] == Indent(lines[k]) + injection
  }

  /** Injecting one line at the marker leaves the marker line followed by it. */
  lemma OneLineFollowsMarker(text: string, marker: string, injection: string)
    requires InjectText(text, marker, injection).Some?
    requires injection != [] && '\n' !in injection
    ensures FollowedBy(Split(InjectText(text, marker, injection).value, '\n'), marker, injection)
  {
    var lines := Split(text, '\n');
    var i := FindMarker(lines, marker).value;
    InjectOnce(text, marker, injection);
    OneLineInjected(lines, marker, injection);
    var out := Split(InjectText(text, marker, injection).value, '\n');
    assert IsMarker(out[i], marker) && out[i + 1] == Indent(out[i]) + injection;
  }

  /** An injection at a different marker keeps an earlier marker followed by
      its line. */
  lemma InjectKeepsFollowedBy(text: string, marker: string, injection: string, other: string, line: string)
    requires InjectText(text, marker, injection).Some?
    requires TrimSpace(other) != TrimSpace(marker)
    requires FollowedBy(Split(text, '\n'), other, line)
    ensures FollowedBy(Split(InjectText(text, marker, injection).value, '\n'), other, line)
  {
    var lines := Split(text, '\n');
    var k :| 0 <= k && k + 1 < |lines| && IsMarker(lines[k], other) && lines[k + 1] == Indent(lines[k]) + line;
    InjectOnce(text, marker, injection);
    InjectKeepsPair(lines, marker, injection, k);
    var out := InjectLines(lines, marker, injection).value;
    var m :| 0 <= m && m + 1 < |out| && out[m] == lines[k] && out[m + 1] == lines[k + 1];
    assert IsMarker(out[m], other) && out[m + 1] == Indent(out[m]) + line;
  }

  /** Injecting the router import and then the route registration into a
      text leaves each marker line directly followed by its indented line. */
  lemma ImportThenRoutes(text: string)
    requires InjectText(text, ImportMarker, NodeImport).Some?
    requires InjectText(InjectText(text, ImportMarker, NodeImport).value, RoutesMarker, NodeRoutes).Some?
    ensures var lines := Split(InjectText(InjectText(text, ImportMarker, NodeImport).value, RoutesMarker, NodeRoutes).value, '\n');
            FollowedBy(lines, ImportMarker, NodeImport) && FollowedBy(lines, RoutesMarker, NodeRoutes)
  {
    var once := InjectText(text, ImportMarker, NodeImport).value;
    ImportIsOneLine();
    RoutesIsOneLine();
    ExpressMarkersDiffer();
    OneLineFollowsMarker(text, ImportMarker, NodeImport);
    InjectKeepsFollowedBy(once, RoutesMarker, NodeRoutes, ImportMarker, NodeImport);
    OneLineFollowsMarker(once, RoutesMarker, NodeRoutes);
  }

  /** After a successful Express apply the server file has the import marker
      line directly followed by the indented router import, and the routes
      marker line directly followed by the indented route registration. */
  lemma NodeServerLines(st: FsState, readOnly: set<string>, templates: TemplateFS, render: PluginRenderer, ctx: Context,
                        stackKey: string, server: string)
    ensures var o := ApplyNodeSpec(st, readOnly, templates, render, ctx, stackKey, server);
            var path := JoinPath(JoinPath(ctx.targetDir, "src"), server);
            o.err.None? ==>
              && path in o.state.files
              && FollowedBy(Split(o.state.files[path], '\n'), ImportMarker, NodeImport)
              && FollowedBy(Split(o.state.files[path], '\n'), RoutesMarker, NodeRoutes)
  {
    var o := ApplyNodeSpec(st, readOnly, templates, render, ctx, stackKey, server);
    var w := WriteTemplatesSpec(st, Walker(templates, render, readOnly, ctx, stackKey)).state;
    var path := JoinPath(JoinPath(ctx.targetDir, "src"), server);
    NodeServerPatched(st, readOnly, templates, render, ctx, stackKey, server);
    if o.err.None? {
      ImportThenRoutes(w.files[path]);
    }
  }
}
