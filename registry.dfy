/**
  The plugin registry: a process-wide table from plugin name to plugin, filled
  by each plugin's `init` and read by the command line. A plugin is described
  by its name and the stack keys it supports; what it does when applied is
  modelled per plugin (see the Auth module).
 */
module Registry {
  import opened Wrappers

  /** The data a plugin exposes through `Name()` and `CompatibleStacks()`. */
  datatype Plugin = Plugin(name: string, compatibleStacks: seq<string>)

  /** What a plugin is handed when applied to a generated project. */
  datatype Context = Context(
    projectName: string, stackKey: string, database: string,
    useDocker: bool, targetDir: string, plugins: seq<string>)

  /** A sequence without repetitions. */
  predicate Distinct(s: seq<string>) {
    forall i, j :: 0 <= i < j < |s| ==> s[i] != s[j]
  }

  /** Distinct elements: the length of a sequence is the size of its set. */
  lemma {:induction false} DistinctCard(s: seq<string>)
    requires Distinct(s)
    ensures |set x | x in s| == |s|
  {
    if s != [] {
      var last := s[|s| - 1];
      var init := s[..|s| - 1];
      DistinctCard(init);
      assert s == init + [last];
      assert (set x | x in s) == (set x | x in init) + {last};
      assert last !in init;
    }
  }

  class Registry {
    /** Registered plugins by name. */
    var plugins: map<string, Plugin>

    constructor ()
      ensures plugins == map[]
    {
      plugins := map[];
    }

    /** `Register`: adds `p` under its name, replacing any plugin already
        registered under that name; no other entry changes. */
    method Register(p: Plugin)
      modifies this
      ensures plugins == old(plugins)[p.name := p]
      ensures Get(p.name) == Some(p)
      ensures forall n :: n != p.name ==> Get(n) == old(Get(n))
    {
      plugins := plugins[p.name := p];
    }

    /** `Get`: the plugin registered under `name`, or None (Go's nil). */
    function Get(name: string): (r: Option<Plugin>)
      reads this
      ensures r.Some? <==> name in plugins
      ensures r.Some? ==> r.value == plugins[name]
    {
      if name in plugins then Some(plugins[name]) else None
    }

    /** `List`: every registered name once, in some order (Go's map order is
        unspecified, so the model picks names in an arbitrary order too). */
    method List() returns (names: seq<string>)
      ensures Distinct(names)
      ensures forall n :: n in names <==> n in plugins
      ensures |names| == |plugins|
    {
      names := [];
      var rest := plugins.Keys;
      while rest != {}
        invariant rest <= plugins.Keys
        invariant Distinct(names)
        invariant forall n :: n in names <==> n in plugins && n !in rest
        decreases |rest|
      {
        var n :| n in rest;
        names := names + [n];
        rest := rest - {n};
      }
      DistinctCard(names);
      assert (set x | x in names) == plugins.Keys;
    }

    /** `CompatibleWith`: the names of the plugins that list `stackKey` among
        their stacks, each once, in some order. */
    method CompatibleWith(stackKey: string) returns (out: seq<string>)
      ensures Distinct(out)
      ensures forall n :: n in out <==> n in plugins && stackKey in plugins[n].compatibleStacks
    {
      out := [];
      var rest := plugins.Keys;
      while rest != {}
        invariant rest <= plugins.Keys
        invariant Distinct(out)
        invariant forall n :: n in out <==> n in plugins && n !in rest && stackKey in plugins[n].compatibleStacks
        decreases |rest|
      {
        var name :| name in rest;
        var stacks := plugins[name].compatibleStacks;
        var i := 0;
        while i < |stacks|
          invariant 0 <= i <= |stacks|
          invariant stackKey !in stacks[..i]
        {
          if stacks[i] == stackKey {
            out := out + [name];
            break;
          }
          i := i + 1;
        }
        rest := rest - {name};
      }
    }
  }
}
