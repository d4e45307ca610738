/**
  The deterministic part of the `init` command: the check on its one argument,
  the reading of the `--stack`, `--db`, `--node-variant`, `--docker`,
  `--no-docker` and `--plugins` flags, and the sentence shown to the user when
  generation fails. The prompts that fill in what the flags leave open are
  not modelled; where they sit, the model takes their answers as parameters.
 */
module Cli {
  import opened Wrappers
  import opened Text
  import opened Errors
  import opened Generator

  // ---------------------------------------------------------------- the argument check

  /** The characters a project name may not contain (it becomes a directory). */
  const ForbiddenChars: string := "<>:\"/\\|?*"

  /** The `Args` check of `init`: exactly one argument, not blank once trimmed,
      and free of the forbidden characters once trimmed. */
  function CheckArgs(args: seq<string>): (r: Option<Error>)
    ensures r == Some(WrongArgCount) <==> |args| != 1
    ensures r.None? <==>
              && |args| == 1
              && TrimSpace(args[0]) != ""
              && forall i :: 0 <= i < |TrimSpace(args[0])| ==> TrimSpace(args[0])[i] !in ForbiddenChars
    ensures r.Some? ==> r.value in {WrongArgCount, EmptyProjectName, InvalidNameChars}
  {
    if |args| != 1 then Some(WrongArgCount)
    else
      var name := TrimSpace(args[0]);
      if name == "" then Some(EmptyProjectName)
      else if ContainsAny(name, ForbiddenChars) then Some(InvalidNameChars)
      else None
  }

  /** A single argument made only of white space is reported as empty, and
      one with a forbidden character anywhere but in its surrounding white
      space is reported as such. */
  lemma CheckArgsReasons(arg: string)
    ensures CheckArgs([arg]) == Some(EmptyProjectName) <==> forall i :: 0 <= i < |arg| ==> IsSpace(arg[i])
    ensures CheckArgs([arg]) == Some(InvalidNameChars) <==>
              TrimSpace(arg) != "" && exists i :: 0 <= i < |TrimSpace(arg)| && TrimSpace(arg)[i] in ForbiddenChars
  {
    TrimSpaceInside(arg);
  }

  // ---------------------------------------------------------------- --node-variant

  /** A non-blank `--node-variant` is lower-cased and trimmed, and anything
      but `js` or `ts` becomes `js`; a blank one leaves the variant unset. */
  function NodeVariant(flag: string): (v: string)
    ensures v in ["", "js", "ts"]
    ensures v == "" <==> TrimSpace(flag) == ""
    ensures v == "ts" <==> TrimSpace(flag) != "" && TrimSpace(ToLower(flag)) == "ts"
  {
    if TrimSpace(flag) == "" then ""
    else
      var v := TrimSpace(ToLower(flag));
      if v != "js" && v != "ts" then "js" else v
  }

  /** The variant does not depend on the case of the flag. */
  lemma NodeVariantIgnoresCase(flag: string)
    ensures NodeVariant(ToLower(flag)) == NodeVariant(flag)
  {
    ToLowerKeepsBlank(flag);
    ToLowerIdempotent(flag);
  }

  /** Normalising a normalised variant changes nothing. */
  lemma NodeVariantIdempotent(flag: string)
    ensures NodeVariant(NodeVariant(flag)) == NodeVariant(flag)
  {
    var v := NodeVariant(flag);
    if v != "" {
      TrimSpaceKeepsTrimmed(v);
      ToLowerKeepsLower(v);
    }
  }

  /** After the other prompts, `node-express` without a variant asks for one
      when the run is interactive (an answer other than `TypeScript` means
      `js`), and is given `js` otherwise. The stack is the one chosen by flag
      or by prompt; whether the run is interactive and the answer given are
      parameters. */
  function DefaultNodeVariant(stack: Stack, nodeVariant: string, interactive: bool, answer: string): string {
    if stack == StackNodeExpress && nodeVariant == "" then
      (if interactive && answer == "TypeScript" then "ts" else "js")
    else nodeVariant
  }

  // ---------------------------------------------------------------- the other flags

  /** The flag values `RunE` reads. */
  datatype Flags = Flags(
    stack: string, db: string, nodeVariant: string,
    docker: bool, noDocker: bool, plugins: string)

  /** What the flags settle before any prompt: an empty stack or database is
      one the user is still to be asked for, and `useDocker` is the flags'
      choice, which the Docker prompt replaces when neither flag was given. */
  datatype Settings = Settings(stack: Stack, database: Database, nodeVariant: string, useDocker: bool)

  /** `--stack`: blank leaves the stack unset, anything else must parse. */
  function StackFlag(key: string): (r: Result<Stack, Error>)
    ensures r.Ok? && r.value == "" <==> TrimSpace(key) == ""
    ensures r.Ok? && r.value != "" ==> StackDir(r.value) == Ok(NormalizeKey(key))
    ensures r.Err? ==> r.error == InvalidStack(key)
    ensures r.Err? <==> NormalizeKey(key) !in ["", "go-gin", "node-express"]
  {
    if TrimSpace(key) == "" then Ok("") else ParseStackKey(key)
  }

  /** `--db`: blank leaves the database unset, anything else must parse. */
  function DatabaseFlag(key: string): (r: Result<Database, Error>)
    ensures r.Ok? && r.value == "" <==> TrimSpace(key) == ""
    ensures r.Ok? && r.value != "" ==> DbDir(r.value) == Ok(CanonicalDbKey(NormalizeKey(key)))
    ensures r.Err? ==> r.error == InvalidDatabase(key)
    ensures r.Err? <==> NormalizeKey(key) !in ["", "sqlite", "postgres", "postgresql", "mongo", "mongodb"]
  {
    if TrimSpace(key) == "" then Ok("") else ParseDatabaseKey(key)
  }

  /** The flag handling at the start of `RunE`: the Docker conflict first,
      then the stack, the database, the variant and the Docker choice. */
  function FlagSettings(f: Flags): Result<Settings, Error> {
    if f.docker && f.noDocker then Err(DockerConflict)
    else if StackFlag(f.stack).Err? then Err(StackFlag(f.stack).error)
    else if DatabaseFlag(f.db).Err? then Err(DatabaseFlag(f.db).error)
    else Ok(Settings(StackFlag(f.stack).value, DatabaseFlag(f.db).value, NodeVariant(f.nodeVariant), f.docker))
  }

  /** `RunE` up to the prompts, updating its locals one flag at a time. */
  method ResolveFlags(f: Flags) returns (r: Result<Settings, Error>)
    ensures r == FlagSettings(f)
  {
    if f.docker && f.noDocker {
      return Err(DockerConflict);
    }
    var stack: Stack := "";
    var db: Database := "";
    var nodeVariant := "";
    var useDocker := false;
    if TrimSpace(f.stack) != "" {
      var s := ParseStackKey(f.stack);
      if s.Err? {
        return Err(s.error);
      }
      stack := s.value;
    }
    if TrimSpace(f.db) != "" {
      var d := ParseDatabaseKey(f.db);
      if d.Err? {
        return Err(d.error);
      }
      db := d.value;
    }
    if TrimSpace(f.nodeVariant) != "" {
      nodeVariant := TrimSpace(ToLower(f.nodeVariant));
      if nodeVariant != "js" && nodeVariant != "ts" {
        nodeVariant := "js";
      }
    }
    if f.docker {
      useDocker := true;
    } else if f.noDocker {
      useDocker := false;
    }
    r := Ok(Settings(stack, db, nodeVariant, useDocker));
  }

  /** Both Docker flags together are refused whatever else is given, and
      that is the only way to get this error; otherwise `--docker` turns
      Docker on and `--no-docker` turns it off. With neither flag the
      setting is off here and the prompt is left to decide it. */
  lemma DockerFlags(f: Flags)
    ensures FlagSettings(f) == Err(DockerConflict) <==> f.docker && f.noDocker
    ensures FlagSettings(f).Ok? ==> (FlagSettings(f).value.useDocker <==> f.docker)
    ensures FlagSettings(f).Ok? && f.noDocker ==> !FlagSettings(f).value.useDocker
  {
  }

  /** The flags fail exactly when both Docker flags are given or a key is
      neither blank nor supported, only with one of those errors, and what
      they settle is unset or supported. */
  lemma FlagOutcomes(f: Flags)
    ensures FlagSettings(f).Err? ==> FlagSettings(f).error in {DockerConflict, InvalidStack(f.stack), InvalidDatabase(f.db)}
    ensures FlagSettings(f).Err? <==>
              || (f.docker && f.noDocker)
              || NormalizeKey(f.stack) !in ["", "go-gin", "node-express"]
              || NormalizeKey(f.db) !in ["", "sqlite", "postgres", "postgresql", "mongo", "mongodb"]
    ensures FlagSettings(f).Ok? ==>
              var s := FlagSettings(f).value;
              && (s.stack == "" <==> TrimSpace(f.stack) == "")
              && (s.stack == "" || StackDir(s.stack) == Ok(NormalizeKey(f.stack)))
              && (s.database == "" <==> TrimSpace(f.db) == "")
              && (s.database == "" || DbDir(s.database) == Ok(CanonicalDbKey(NormalizeKey(f.db))))
              && s.nodeVariant in ["", "js", "ts"]
  {
  }

  /** Once the stack is chosen, a `node-express` project always has a variant,
      `js` or `ts`, and any other stack keeps what the flag said. Without
      `--node-variant` the variant is `ts` exactly when an interactive run was
      answered `TypeScript`, so a run that does not ask gets `js`. */
  lemma NodeExpressHasVariant(f: Flags, stack: Stack, interactive: bool, answer: string)
    requires FlagSettings(f).Ok?
    ensures var v := DefaultNodeVariant(stack, FlagSettings(f).value.nodeVariant, interactive, answer);
            && (stack == StackNodeExpress ==> v in ["js", "ts"])
            && (stack != StackNodeExpress ==> v == NodeVariant(f.nodeVariant))
            && (stack == StackNodeExpress && TrimSpace(f.nodeVariant) == "" ==> (v == "ts" <==> interactive && answer == "TypeScript"))
            && (stack == StackNodeExpress && TrimSpace(f.nodeVariant) != "" ==> v == NodeVariant(f.nodeVariant))
  {
  }

  // ---------------------------------------------------------------- --plugins

  /** What one piece contributes: its trimmed text, unless that is empty. */
  function Keep(piece: string): seq<string> {
    if TrimSpace(piece) == "" then [] else [TrimSpace(piece)]
  }

  /** The trimmed pieces of `parts` that are not blank, in order. */
  function Kept(parts: seq<string>): seq<string> {
    if parts == [] then [] else Kept(parts[..|parts| - 1]) + Keep(parts[|parts| - 1])
  }

  /** `parsePluginsFlag`: nothing for a blank flag, otherwise the trimmed,
      non-blank comma-separated names. */
  function PluginsFlag(s: string): seq<string> {
    if TrimSpace(s) == "" then [] else Kept(Split(s, ','))
  }

  /** The loop of `parsePluginsFlag`, appending each trimmed non-blank piece. */
  method ParsePluginsFlag(s: string) returns (out: seq<string>)
    ensures out == PluginsFlag(s)
  {
    if TrimSpace(s) == "" {
      return [];
    }
    var parts := Split(s, ',');
    out := [];
    var k := 0;
    while k < |parts|
      invariant 0 <= k <= |parts|
      invariant out == Kept(parts[..k])
    {
      assert parts[..k + 1][..k] == parts[..k];
      var t := TrimSpace(parts[k]);
      if t != "" {
        out := out + [t];
      }
      k := k + 1;
    }
    assert parts[..k] == parts;
  }

  /** Each kept piece is non-empty, is its own trim, and avoids any character
      that no piece holds. */
  lemma {:induction false} KeptEntries(parts: seq<string>, c: char)
    requires forall i :: 0 <= i < |parts| ==> c !in parts[i]
    ensures forall j :: 0 <= j < |Kept(parts)| ==>
              Kept(parts)[j] != "" && TrimSpace(Kept(parts)[j]) == Kept(parts)[j] && c !in Kept(parts)[j]
  {
    if parts != [] {
      var init := parts[..|parts| - 1];
      var last := parts[|parts| - 1];
      KeptEntries(init, c);
      var t := TrimSpace(last);
      TrimSpaceIdempotent(last);
      TrimSpaceInside(last);
      assert c !in t;
      var r0 := Kept(init);
      var r := Kept(parts);
      assert r == r0 + Keep(last);
      forall j | 0 <= j < |r|
        ensures r[j] != "" && TrimSpace(r[j]) == r[j] && c !in r[j]
      {
        if j < |r0| {
          assert r[j] == r0[j];
        }
      }
    }
  }

  /** One more piece adds what that piece contributes at the end. */
  lemma KeptSnoc(parts: seq<string>, piece: string)
    ensures Kept(parts + [piece]) == Kept(parts) + Keep(piece)
  {
    var p := parts + [piece];
    assert p[..|p| - 1] == parts && p[|p| - 1] == piece;
  }

  /** Keeping works piece by piece, so the kept names of the flag are in the
      order of their pieces. */
  lemma {:induction false} KeptConcat(a: seq<string>, b: seq<string>)
    ensures Kept(a + b) == Kept(a) + Kept(b)
  {
    if b == [] {
      assert a + b == a;
    } else {
      var init, last := b[..|b| - 1], b[|b| - 1];
      assert Kept(a + b) == Kept(a + init) + Keep(last) by {
        assert a + b == (a + init) + [last];
        KeptSnoc(a + init, last);
      }
      assert Kept(b) == Kept(init) + Keep(last) by {
        assert b == init + [last];
        KeptSnoc(init, last);
      }
      KeptConcat(a, init);
      assert (Kept(a) + Kept(init)) + Keep(last) == Kept(a) + (Kept(init) + Keep(last));
    }
  }

  /** Blank pieces contribute nothing. */
  lemma {:induction false} KeptAllBlank(parts: seq<string>)
    requires forall i :: 0 <= i < |parts| ==> TrimSpace(parts[i]) == ""
    ensures Kept(parts) == []
  {
    if parts != [] {
      var init := parts[..|parts| - 1];
      assert forall i :: 0 <= i < |init| ==> init[i] == parts[i];
      KeptAllBlank(init);
    }
  }

  /** A sequence is what comes before position `i`, the element there, and
      what comes after. */
  lemma CutAt(parts: seq<string>, i: nat)
    requires i < |parts|
    ensures parts == parts[..i] + ([parts[i]] + parts[i + 1..])
  {
    assert [parts[i]] + parts[i + 1..] == parts[i..];
    assert parts[..i] + parts[i..] == parts;
  }

  /** One piece that is not blank is enough for something to be kept. */
  lemma KeptNonBlank(parts: seq<string>, i: nat)
    requires i < |parts| && TrimSpace(parts[i]) != ""
    ensures Kept(parts) != []
  {
    var piece, rest := parts[i], parts[i + 1..];
    assert Kept([piece]) == Keep(piece) by {
      KeptSnoc([], piece);
      assert [] + [piece] == [piece];
    }
    assert |Keep(piece)| == 1;
    assert Kept(parts) == Kept(parts[..i]) + (Keep(piece) + Kept(rest)) by {
      CutAt(parts, i);
      KeptConcat(parts[..i], [piece] + rest);
      KeptConcat([piece], rest);
    }
  }

  /** Nothing is kept exactly when every piece is blank. */
  lemma KeptEmpty(parts: seq<string>)
    ensures Kept(parts) == [] <==> forall i :: 0 <= i < |parts| ==> TrimSpace(parts[i]) == ""
  {
    if forall i :: 0 <= i < |parts| ==> TrimSpace(parts[i]) == "" {
      KeptAllBlank(parts);
    } else {
      var i :| 0 <= i < |parts| && TrimSpace(parts[i]) != "";
      KeptNonBlank(parts, i);
    }
  }

  /** Every plugin name read from the flag is non-empty, trimmed and free of
      commas. */
  lemma PluginsFlagEntries(s: string)
    ensures forall j :: 0 <= j < |PluginsFlag(s)| ==>
              PluginsFlag(s)[j] != "" && TrimSpace(PluginsFlag(s)[j]) == PluginsFlag(s)[j] && ',' !in PluginsFlag(s)[j]
  {
    if TrimSpace(s) != "" {
      KeptEntries(Split(s, ','), ',');
    }
  }

  /** There are at most as many names as commas plus one. */
  lemma PluginsFlagCount(s: string)
    ensures |PluginsFlag(s)| <= Count(s, ',') + 1
  {
    SplitCount(s, ',');
    KeptLength(Split(s, ','));
  }

  /** No more names than pieces. */
  lemma {:induction false} KeptLength(parts: seq<string>)
    ensures |Kept(parts)| <= |parts|
  {
    if parts != [] {
      KeptLength(parts[..|parts| - 1]);
    }
  }

  /** A flag whose comma-separated pieces are all blank selects no plugin. */
  lemma PluginsFlagNone(s: string)
    ensures (forall i :: 0 <= i < |Split(s, ',')| ==> TrimSpace(Split(s, ',')[i]) == "") ==> PluginsFlag(s) == []
    ensures TrimSpace(s) != "" && PluginsFlag(s) == [] ==> forall i :: 0 <= i < |Split(s, ',')| ==> TrimSpace(Split(s, ',')[i]) == ""
  {
    KeptEmpty(Split(s, ','));
  }

  // ---------------------------------------------------------------- reporting a failure

  const NotAvailable := "This stack + database combination is not available yet."
  const SomethingWrong := "Something went wrong while generating the project. Run with the same options again or check your environment."

  /** `friendlyInitError`: a missing-template failure is reported as an
      unavailable combination, anything else with the generic sentence. */
  function FriendlyInitError(e: Error): (m: string)
    ensures m == NotAvailable <==> Contains(Message(e), "template not found")
    ensures m == SomethingWrong <==> !Contains(Message(e), "template not found")
  {
    if Contains(Message(e), "template not found") then NotAvailable else SomethingWrong
  }

  /** Every "template not found" error of the generator is reported as an
      unavailable combination. */
  lemma MissingTemplateIsNotAvailable(e: Error)
    requires e.TemplateNotFound?
    ensures FriendlyInitError(e) == NotAvailable
  {
    TemplateNotFoundIsRecognised(e);
  }

  /** A blank project name is a generic failure: its text does not mention a
      missing template (it holds no 'l', which "template not found" does). */
  lemma BlankNameIsGeneric()
    ensures FriendlyInitError(NameRequired) == SomethingWrong
  {
    var m := Message(NameRequired);
    var t := "template not found";
    assert t[4] == 'l';
    assert 'l' !in m;
    if Contains(m, t) {
      ContainedChars(m, t, 4);
    }
  }
}
