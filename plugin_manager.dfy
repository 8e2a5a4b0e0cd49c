/**
 * The plug-in manager of a communicator: the process-wide factory table,
 * the ordered list of loaded plug-ins, their initialization and rollback,
 * their destruction, and the loading of plug-ins from `Ice.Plugin.*`
 * properties.  The calls made on plug-in objects are recorded in `calls`.
 */
module PluginManager {
  import opened Wrappers
  import opened PluginConfig
  import opened PluginLifecycle

  /** The static factory table that registerPluginFactory fills, shared by every manager. */
  class FactoryTable {
    var factories: map<string, Factory>
    var loadOnInitialization: seq<string>

    /** Every name to load on initialization has a factory, and none is listed twice. */
    ghost predicate Valid()
      reads this
    {
      && (forall i | 0 <= i < |loadOnInitialization| :: loadOnInitialization[i] in factories)
      && Distinct(loadOnInitialization)
    }

    constructor ()
      ensures Valid()
      ensures factories == map[] && loadOnInitialization == []
    {
      factories := map[];
      loadOnInitialization := [];
    }

    /** The first registration of a name wins; later ones change nothing. */
    method RegisterPluginFactory(name: string, factory: Factory, loadOnInit: bool)
      requires Valid()
      modifies this
      ensures Valid()
      ensures name in old(factories) ==>
                factories == old(factories) && loadOnInitialization == old(loadOnInitialization)
      ensures name !in old(factories) ==>
                && factories == old(factories)[name := factory]
                && loadOnInitialization == old(loadOnInitialization) + (if loadOnInit then [name] else [])
    {
      if name !in factories {
        factories := factories[name := factory];
        if loadOnInit {
          loadOnInitialization := loadOnInitialization + [name];
        }
      }
    }
  }

  /** A key that belongs to one of the named plug-ins: its plain key or its `.clr` key. */
  ghost predicate Covered(names: seq<string>, key: string) {
    exists n | n in names :: key == Prefix + n || key == Prefix + n + ".clr"
  }

  /** A `.cpp` or `.java` key, which loadPlugins drops without loading anything. */
  predicate IgnoredKey(key: string) {
    HasPrefix(key) && Classify(key).Ignored?
  }

  /**
   * The bookkeeping of loadPlugins: the working copy `pmap` of the
   * `Ice.Plugin.*` properties still holds only configured entries, the
   * plug-ins loaded so far have distinct names, neither key of a loaded
   * plug-in is left in the working copy, and every configured key already
   * taken out of it was ignored or belongs to a loaded plug-in.
   */
  ghost predicate Tracked(added: seq<string>, pmap: map<string, string>, config: map<string, string>) {
    && SubMap(pmap, config)
    && Distinct(added)
    && (forall n | n in added :: Prefix + n !in pmap && Prefix + n + ".clr" !in pmap)
    && forall k | TakenOut(k, pmap, config) :: IgnoredKey(k) || Covered(added, k)
  }

  /** A configured key no longer in the working copy. */
  ghost predicate TakenOut(k: string, pmap: map<string, string>, config: map<string, string>) {
    k in config && k !in pmap
  }

  lemma AppendAssoc<T>(a: seq<T>, b: seq<T>, c: seq<T>)
    ensures a + b + c == a + (b + c)
  {
  }

  lemma PrefixOfAppend<T>(a: seq<T>, b: seq<T>, c: seq<T>)
    requires |a| <= |b| && b[..|a|] == a
    ensures |a| <= |b + c| && (b + c)[..|a|] == a
  {
    assert (b + c)[..|a|] == b[..|a|];
  }

  /** Once the working copy is empty, every configured key was ignored or belongs to a loaded plug-in. */
  lemma DrainedCovers(added: seq<string>, config: map<string, string>)
    requires Tracked(added, map[], config)
    ensures forall k | k in config :: IgnoredKey(k) || Covered(added, k)
  {
    forall k | k in config
      ensures IgnoredKey(k) || Covered(added, k)
    {
      assert TakenOut(k, map[], config);
    }
  }

  /**
   * The names loadPlugins adds, in order: the factories to load on
   * initialization, then the non-empty load-order names, then the rest.  They
   * are distinct, every one after the first block is configured in `props`,
   * and every `Ice.Plugin.*` key of `props` was ignored or belongs to one of them.
   */
  ghost predicate LoadedInPhases(added: seq<string>, first: seq<string>, ordered: seq<string>,
                                 props: map<string, string>) {
    && |added| >= |first| + |ordered|
    && added[..|first|] == first
    && added[|first|..|first| + |ordered|] == ordered
    && (forall i | |first| <= i < |added| :: DefinedIn(props, added[i]))
    && Distinct(added)
    && forall k | k in props && HasPrefix(k) :: IgnoredKey(k) || Covered(added, k)
  }

  /** What the three loops establish about the names they load, put together. */
  lemma PhasesCompose(added: seq<string>, first: seq<string>, ordered: seq<string>,
                      config: map<string, string>, props: map<string, string>)
    requires config == ForPrefix(props)
    requires |added| >= |first + ordered| && added[..|first + ordered|] == first + ordered
    requires forall n | n in ordered :: DefinedIn(config, n)
    requires forall i | |first + ordered| <= i < |added| :: DefinedIn(config, added[i])
    requires Distinct(added)
    requires forall k | k in config :: IgnoredKey(k) || Covered(added, k)
    ensures LoadedInPhases(added, first, ordered, props)
  {
    assert added[..|first|] == (first + ordered)[..|first|];
    assert added[|first|..|first| + |ordered|] == (first + ordered)[|first|..];
    forall i | |first| <= i < |added|
      ensures DefinedIn(props, added[i])
    {
      if i < |first + ordered| {
        assert added[i] == (first + ordered)[i] == ordered[i - |first|];
      }
      assert DefinedIn(config, added[i]);
    }
    forall k | k in props && HasPrefix(k)
      ensures IgnoredKey(k) || Covered(added, k)
    {
      assert k in config;
    }
  }

  lemma NamesAfterLoad(prev: seq<PluginInfo>, info: PluginInfo, start: nat)
    requires start <= |prev|
    ensures (prev + [info])[start..] == prev[start..] + [info]
    ensures Names((prev + [info])[start..]) == Names(prev[start..]) + [info.name]
  {
    assert (prev + [info])[start..] == prev[start..] + [info];
    NamesAppend(prev[start..], [info]);
  }

  /** Loading a new name and dropping only its own keys from the working copy keeps the bookkeeping. */
  lemma TrackedAfterLoad(added: seq<string>, pmap: map<string, string>, config: map<string, string>,
                         name: string, rest: map<string, string>)
    requires Tracked(added, pmap, config)
    requires name !in added
    requires SubMap(rest, pmap)
    requires Prefix + name !in rest && Prefix + name + ".clr" !in rest
    requires forall k | k in pmap && k !in rest :: k == Prefix + name || k == Prefix + name + ".clr"
    ensures Tracked(added + [name], rest, config)
  {
    var grown := added + [name];
    forall n | n in grown
      ensures Prefix + n !in rest && Prefix + n + ".clr" !in rest
    {
      if n != name {
        assert n in added;
      }
    }
    forall k | TakenOut(k, rest, config)
      ensures IgnoredKey(k) || Covered(grown, k)
    {
      if k in pmap {
        assert name in grown;
      } else if !IgnoredKey(k) {
        assert TakenOut(k, pmap, config);
        var n :| n in added && (k == Prefix + n || k == Prefix + n + ".clr");
        assert n in grown;
      }
    }
  }

  /** Dropping an ignored key keeps the bookkeeping. */
  lemma TrackedAfterIgnore(added: seq<string>, pmap: map<string, string>, config: map<string, string>, key: string)
    requires Tracked(added, pmap, config)
    requires key in pmap && IgnoredKey(key)
    ensures Tracked(added, pmap - {key}, config)
  {
    forall k | TakenOut(k, pmap - {key}, config)
      ensures IgnoredKey(k) || Covered(added, k)
    {
      if k != key {
        assert TakenOut(k, pmap, config);
      }
    }
  }

  /**
   * The state the loops of loadPlugins keep, for the plug-in list `ps`: the
   * plug-ins present before loading (`base`) stay in front, the ones after
   * them carry the names `added` and are what the loadPlugin calls `loads`
   * appended, and Tracked relates `added` to the working copy `pmap`.
   */
  ghost predicate LoadingOf(ps: seq<PluginInfo>, base: seq<PluginInfo>, added: seq<string>, loads: seq<Load>,
                            pmap: map<string, string>, config: map<string, string>,
                            factories: map<string, Factory>, loader: Loader) {
    && |base| <= |ps| && ps[..|base|] == base
    && Names(ps[|base|..]) == added
    && LoadedAs(ps[|base|..], loads, factories, loader)
    && Tracked(added, pmap, config)
  }

  /**
   * The state of the Ice.PluginLoadOrder loop once the non-empty names
   * `ordered` are loaded, starting from the working copy `initial`: each was
   * configured, and each was loaded as ResolveAll resolves it.
   */
  ghost predicate OrderedState(ps: seq<PluginInfo>, base: seq<PluginInfo>, added0: seq<string>, loads0: seq<Load>,
                               ordered: seq<string>, initial: map<string, string>, pmap: map<string, string>,
                               config: map<string, string>, factories: map<string, Factory>, loader: Loader) {
    && pmap == ResolveAll(initial, ordered).rest
    && LoadingOf(ps, base, added0 + ordered, loads0 + ResolveAll(initial, ordered).loads, pmap, config, factories, loader)
    && (forall n | n in ordered :: DefinedIn(config, n))
  }

  /**
   * The state of the loop over the factories to load on initialization once
   * the names `done` are loaded, starting from the working copy `initial`.
   */
  ghost predicate FirstState(ps: seq<PluginInfo>, base: seq<PluginInfo>, done: seq<string>,
                             initial: map<string, string>, pmap: map<string, string>,
                             config: map<string, string>, factories: map<string, Factory>, loader: Loader) {
    && pmap == ResolveAll(initial, done).rest
    && LoadingOf(ps, base, done, ResolveAll(initial, done).loads, pmap, config, factories, loader)
  }

  /** Loading one more factory to load on initialization advances FirstState by its name. */
  lemma FirstAfterLoad(ps: seq<PluginInfo>, base: seq<PluginInfo>, done: seq<string>,
                       initial: map<string, string>, pmap: map<string, string>,
                       config: map<string, string>, factories: map<string, Factory>, loader: Loader,
                       name: string, p: Plugin)
    requires FirstState(ps, base, done, initial, pmap, config, factories, loader)
    requires name !in done
    requires ResolvePlugin(factories, name, SpecOf(ResolveKey(pmap, name)), loader) == Ok(p)
    ensures FirstState(ps + [PluginInfo(name, p)], base, done + [name], initial,
                       pmap - ResolveKey(pmap, name).consumed, config, factories, loader)
  {
    var resolved := ResolveKey(pmap, name);
    ResolveKeySpec(pmap, name);
    LoadingAfterLoad(ps, base, done, ResolveAll(initial, done).loads, pmap, pmap - resolved.consumed, config,
                     factories, loader, name, SpecOf(resolved), p);
    ResolveAllSnoc(initial, done, name);
  }

  /** Loading one more configured name of Ice.PluginLoadOrder advances OrderedState by that name. */
  lemma OrderedAfterLoad(ps: seq<PluginInfo>, base: seq<PluginInfo>, added0: seq<string>, loads0: seq<Load>,
                         ordered: seq<string>, initial: map<string, string>, pmap: map<string, string>,
                         config: map<string, string>, factories: map<string, Factory>, loader: Loader,
                         name: string, p: Plugin)
    requires OrderedState(ps, base, added0, loads0, ordered, initial, pmap, config, factories, loader)
    requires name !in added0 + ordered && DefinedIn(pmap, name)
    requires ResolvePlugin(factories, name, SpecOf(ResolveKey(pmap, name)), loader) == Ok(p)
    ensures OrderedState(ps + [PluginInfo(name, p)], base, added0, loads0, ordered + [name], initial,
                         pmap - ResolveKey(pmap, name).consumed, config, factories, loader)
  {
    var resolved := ResolveKey(pmap, name);
    ResolveKeySpec(pmap, name);
    var loads := ResolveAll(initial, ordered).loads;
    LoadingAfterLoad(ps, base, added0 + ordered, loads0 + loads, pmap, pmap - resolved.consumed, config,
                     factories, loader, name, SpecOf(resolved), p);
    ResolveAllSnoc(initial, ordered, name);
    AppendAssoc(added0, ordered, [name]);
    AppendAssoc(loads0, loads, [Load(name, SpecOf(resolved))]);
  }

  /** Appending the plug-in of a new name and dropping only its keys keeps the loop state. */
  lemma LoadingAfterLoad(ps: seq<PluginInfo>, base: seq<PluginInfo>, added: seq<string>, loads: seq<Load>,
                         pmap: map<string, string>, rest: map<string, string>, config: map<string, string>,
                         factories: map<string, Factory>, loader: Loader, name: string, spec: string, p: Plugin)
    requires LoadingOf(ps, base, added, loads, pmap, config, factories, loader)
    requires name !in added
    requires SubMap(rest, pmap)
    requires Prefix + name !in rest && Prefix + name + ".clr" !in rest
    requires forall k | k in pmap && k !in rest :: k == Prefix + name || k == Prefix + name + ".clr"
    requires ResolvePlugin(factories, name, spec, loader) == Ok(p)
    ensures LoadingOf(ps + [PluginInfo(name, p)], base, added + [name], loads + [Load(name, spec)], rest,
                      config, factories, loader)
  {
    NamesAfterLoad(ps, PluginInfo(name, p), |base|);
    LoadedAsSnoc(ps[|base|..], loads, factories, loader, Load(name, spec), p);
    TrackedAfterLoad(added, pmap, config, name, rest);
    PrefixOfAppend(base, ps, [PluginInfo(name, p)]);
  }

  /**
   * One pass of the last loop of loadPlugins keeps the bookkeeping: the
   * working copy shrinks, and a key that is not ignored names a configured
   * plug-in not loaded yet, which joins the loaded names.
   */
  lemma TrackedAfterEntry(added: seq<string>, pmap: map<string, string>, config: map<string, string>, key: string)
    requires Tracked(added, pmap, config)
    requires key in pmap && HasPrefix(key)
    ensures var step := StepEntry(pmap, key);
            && step.rest.Keys < pmap.Keys
            && (step.Skip? <==> Classify(key).Ignored?)
            && (step.Skip? ==> Tracked(added, step.rest, config))
            && (step.LoadNamed? ==>
                  && step.name !in added
                  && DefinedIn(config, step.name)
                  && Tracked(added + [step.name], step.rest, config))
  {
    StepEntrySpec(pmap, key);
    match StepEntry(pmap, key)
    case Skip(rest) =>
      TrackedAfterIgnore(added, pmap, config, key);
    case LoadNamed(name, spec, rest) =>
      assert key !in rest;
      TrackedAfterLoad(added, pmap, config, name, rest);
  }

  /**
   * The state of the loop over the remaining entries once the keys `picked`
   * are handled, starting from the working copy `initial`: the names loaded
   * since `added0` were all configured.
   */
  ghost predicate RemainingState(ps: seq<PluginInfo>, base: seq<PluginInfo>, added0: seq<string>, added: seq<string>,
                                 loads0: seq<Load>, initial: map<string, string>, picked: seq<string>,
                                 pmap: map<string, string>, config: map<string, string>,
                                 factories: map<string, Factory>, loader: Loader) {
    && PicksFrom(initial, picked) && pmap == Drain(initial, picked).rest
    && LoadingOf(ps, base, added, loads0 + Drain(initial, picked).loads, pmap, config, factories, loader)
    && |added| >= |added0| && added[..|added0|] == added0
    && (forall i | |added0| <= i < |added| :: DefinedIn(config, added[i]))
  }

  /**
   * Handling one more remaining entry advances RemainingState by its key: a
   * skipped entry loads nothing, any other loads the plug-in `p` it names.
   */
  lemma RemainingAfterEntry(ps: seq<PluginInfo>, base: seq<PluginInfo>, added0: seq<string>, added: seq<string>,
                            loads0: seq<Load>, initial: map<string, string>, picked: seq<string>,
                            pmap: map<string, string>, config: map<string, string>,
                            factories: map<string, Factory>, loader: Loader, key: string, p: Plugin)
    requires RemainingState(ps, base, added0, added, loads0, initial, picked, pmap, config, factories, loader)
    requires key in pmap && forall k | k in config :: HasPrefix(k)
    requires var step := StepEntry(pmap, key);
             step.LoadNamed? ==> ResolvePlugin(factories, step.name, step.spec, loader) == Ok(p)
    ensures var step := StepEntry(pmap, key);
            && HasPrefix(key)
            && step.rest.Keys < pmap.Keys
            && (step.Skip? <==> Classify(key).Ignored?)
            && (step.Skip? ==>
                  RemainingState(ps, base, added0, added, loads0, initial, picked + [key], step.rest, config,
                                 factories, loader))
            && (step.LoadNamed? ==>
                  RemainingState(ps + [PluginInfo(step.name, p)], base, added0, added + [step.name], loads0, initial,
                                 picked + [key], step.rest, config, factories, loader))
  {
    assert key in config;
    var step := StepEntry(pmap, key);
    TrackedAfterEntry(added, pmap, config, key);
    var before := Drain(initial, picked);
    DrainSnoc(initial, picked, key);
    AppendAssoc(loads0, before.loads, StepLoads(step));
    match step {
      case Skip(rest) =>
        assert loads0 + before.loads + [] == loads0 + before.loads;
      case LoadNamed(name, spec, rest) =>
        StepEntrySpec(pmap, key);
        PrefixOfAppend(added0, added, [name]);
        LoadingAfterLoad(ps, base, added, loads0 + before.loads, pmap, rest, config,
                         factories, loader, name, spec, p);
    }
  }

  class PluginManagerI {
    const registry: FactoryTable
    /** Whether the communicator reference is still set: destroy clears it. */
    var communicatorLive: bool
    var plugins: seq<PluginInfo>
    var initialized: bool
    /** The initialize and destroy calls made on plug-in objects, in order. */
    var calls: seq<PluginCall>

    constructor (registry: FactoryTable)
      ensures this.registry == registry
      ensures communicatorLive && plugins == [] && !initialized && calls == []
    {
      this.registry := registry;
      communicatorLive := true;
      plugins := [];
      initialized := false;
      calls := [];
    }

    /** findPlugin: the first entry with the name, scanning the list in order. */
    method FindPlugin(name: string) returns (p: Option<Plugin>)
      ensures p == Lookup(plugins, name)
    {
      var i := 0;
      while i < |plugins|
        invariant 0 <= i <= |plugins|
        invariant forall j | 0 <= j < i :: plugins[j].name != name
      {
        if plugins[i].name == name {
          return Some(plugins[i].plugin);
        }
        i := i + 1;
      }
      return None;
    }

    /** getPlugins: the names of the loaded plug-ins, in load order. */
    method GetPlugins() returns (names: seq<string>)
      ensures names == Names(plugins)
    {
      names := [];
      var i := 0;
      while i < |plugins|
        invariant 0 <= i <= |plugins|
        invariant |names| == i
        invariant forall j | 0 <= j < i :: names[j] == plugins[j].name
      {
        names := names + [plugins[i].name];
        i := i + 1;
      }
      forall j | 0 <= j < |plugins|
        ensures names[j] == Names(plugins)[j]
      {
        NamesAt(plugins, j);
      }
    }

    method GetPlugin(name: string) returns (r: Result<Plugin, PluginError>)
      ensures !communicatorLive ==> r == Err(CommunicatorDestroyed)
      ensures communicatorLive && Lookup(plugins, name).Some? ==> r == Ok(Lookup(plugins, name).value)
      ensures communicatorLive && Lookup(plugins, name).None? ==> r == Err(NotRegistered(KindOfObject, name))
    {
      if !communicatorLive {
        return Err(CommunicatorDestroyed);
      }
      var p := FindPlugin(name);
      if p.Some? {
        return Ok(p.value);
      }
      return Err(NotRegistered(KindOfObject, name));
    }

    method AddPlugin(name: string, plugin: Plugin) returns (r: Result<(), PluginError>)
      modifies this
      ensures communicatorLive == old(communicatorLive) && initialized == old(initialized) && calls == old(calls)
      ensures !old(communicatorLive) ==> r == Err(CommunicatorDestroyed) && plugins == old(plugins)
      ensures old(communicatorLive) && Lookup(old(plugins), name).Some? ==>
                r == Err(AlreadyRegistered(KindOfObject, name)) && plugins == old(plugins)
      ensures old(communicatorLive) && Lookup(old(plugins), name).None? ==>
                r == Ok(()) && plugins == old(plugins) + [PluginInfo(name, plugin)]
    {
      if !communicatorLive {
        return Err(CommunicatorDestroyed);
      }
      var found := FindPlugin(name);
      if found.Some? {
        return Err(AlreadyRegistered(KindOfObject, name));
      }
      plugins := plugins + [PluginInfo(name, plugin)];
      return Ok(());
    }

    /**
     * initializePlugins: initialize in load order; when one fails, destroy the
     * ones already initialized in reverse order and report the failure.
     */
    method InitializePlugins(initialize: Plugin -> InitOutcome) returns (r: Result<(), PluginError>)
      modifies this
      ensures plugins == old(plugins) && communicatorLive == old(communicatorLive)
      ensures old(initialized) ==>
                r == Err(AlreadyInitialized()) && initialized && calls == old(calls)
      ensures !old(initialized) ==> calls == old(calls) + InitializeTrace(plugins, initialize)
      ensures !old(initialized) && FirstFailure(plugins, initialize) == |plugins| ==> r == Ok(()) && initialized
      ensures !old(initialized) && FirstFailure(plugins, initialize) < |plugins| ==>
                var k := FirstFailure(plugins, initialize);
                r == Err(InitError(plugins[k], initialize(plugins[k].plugin))) && !initialized
    {
      if initialized {
        return Err(AlreadyInitialized());
      }
      var i, done := InitializeInOrder(initialize);
      ghost var trace := InitializeTrace(plugins, initialize);
      if i < |plugins| {
        RollBack(done);
        assert calls == old(calls) + trace;
        return Err(InitError(plugins[i], initialize(plugins[i].plugin)));
      }
      assert plugins[..i] == plugins;
      assert calls == old(calls) + trace;
      initialized := true;
      return Ok(());
    }

    /**
     * The loop of initializePlugins: initialize in load order up to and
     * including the first plug-in that fails, if any.  Returns where it
     * stopped and the plug-ins initialized before that.
     */
    method InitializeInOrder(initialize: Plugin -> InitOutcome) returns (i: nat, done: seq<Plugin>)
      modifies this
      ensures plugins == old(plugins) && communicatorLive == old(communicatorLive) && initialized == old(initialized)
      ensures i == FirstFailure(plugins, initialize)
      ensures done == Plugins(plugins[..i])
      ensures calls == old(calls) + InitCalls(done) + (if i < |plugins| then [Initialize(plugins[i].plugin)] else [])
    {
      done := [];
      i := 0;
      while i < |plugins|
        invariant 0 <= i <= |plugins|
        invariant forall j | 0 <= j < i :: initialize(plugins[j].plugin).InitOk?
        invariant done == Plugins(plugins[..i])
        invariant calls == old(calls) + InitCalls(done)
        invariant plugins == old(plugins) && communicatorLive == old(communicatorLive)
        invariant initialized == old(initialized)
      {
        var p := plugins[i];
        calls := calls + [Initialize(p.plugin)];
        var outcome := initialize(p.plugin);
        if outcome.InitRaised? {
          StopsAtFirstFailure(plugins, initialize, i);
          return;
        }
        InitStep(plugins, i);
        done := done + [p.plugin];
        i := i + 1;
      }
      StopsAtFirstFailure(plugins, initialize, i);
    }

    /** Destroy the initialized plug-ins in reverse order, ignoring what their destroy raises. */
    method RollBack(initializedPlugins: seq<Plugin>)
      modifies this
      ensures calls == old(calls) + DestroyCalls(Reverse(initializedPlugins))
      ensures plugins == old(plugins) && communicatorLive == old(communicatorLive)
      ensures initialized == old(initialized)
    {
      var rollback := Reverse(initializedPlugins);
      var j := 0;
      while j < |rollback|
        invariant 0 <= j <= |rollback|
        invariant calls == old(calls) + DestroyCalls(rollback[..j])
        invariant plugins == old(plugins) && communicatorLive == old(communicatorLive)
        invariant initialized == old(initialized)
      {
        RollBackStep(rollback, j);
        calls := calls + [PluginCall.Destroy(rollback[j])];
        j := j + 1;
      }
      assert rollback[..j] == rollback;
    }

    /**
     * destroy: on a live, initialized manager destroy every plug-in in reverse
     * load order, logging those that raise; then drop the communicator.  A
     * second call does nothing.
     */
    method Destroy(destroy: Plugin -> Option<string>) returns (warnings: seq<string>)
      modifies this
      ensures !communicatorLive
      ensures plugins == old(plugins) && initialized == old(initialized)
      ensures old(communicatorLive) && old(initialized) ==>
                calls == old(calls) + DestroyTrace(plugins) && warnings == DestroyWarnings(plugins, destroy)
      ensures !(old(communicatorLive) && old(initialized)) ==> calls == old(calls) && warnings == []
    {
      warnings := [];
      if communicatorLive {
        if initialized {
          warnings := DestroyAll(Reverse(plugins), destroy);
        }
        communicatorLive := false;
      }
    }

    /** The loop of destroy: destroy each plug-in of `reversed` in turn, collecting the warnings. */
    method DestroyAll(reversed: seq<PluginInfo>, destroy: Plugin -> Option<string>) returns (warnings: seq<string>)
      modifies this
      ensures calls == old(calls) + DestroyCalls(Plugins(reversed)) && warnings == Warnings(reversed, destroy)
      ensures plugins == old(plugins) && communicatorLive == old(communicatorLive) && initialized == old(initialized)
    {
      warnings := [];
      var j := 0;
      while j < |reversed|
        invariant 0 <= j <= |reversed|
        invariant calls == old(calls) + DestroyCalls(Plugins(reversed[..j]))
        invariant warnings == Warnings(reversed[..j], destroy)
        invariant plugins == old(plugins) && communicatorLive == old(communicatorLive)
        invariant initialized == old(initialized)
      {
        var p := reversed[j];
        DestroyStep(reversed, j, destroy);
        calls := calls + [PluginCall.Destroy(p.plugin)];
        warnings := warnings + Warning(p, destroy);
        j := j + 1;
      }
      assert reversed[..j] == reversed;
    }

    /** loadPlugin: add the plug-in its configuration describes, or report why none can be loaded. */
    method LoadPlugin(name: string, spec: string, loader: Loader) returns (r: Result<(), PluginError>)
      requires communicatorLive
      modifies this
      ensures communicatorLive && initialized == old(initialized) && calls == old(calls)
      ensures ResolvePlugin(registry.factories, name, spec, loader).Ok? ==>
                && r.Ok?
                && plugins == old(plugins) + [PluginInfo(name, ResolvePlugin(registry.factories, name, spec, loader).value)]
      ensures ResolvePlugin(registry.factories, name, spec, loader).Err? ==>
                r == Err(ResolvePlugin(registry.factories, name, spec, loader).error) && plugins == old(plugins)
    {
      var outcome := ResolvePlugin(registry.factories, name, spec, loader);
      match outcome {
        case Err(e) =>
          return Err(e);
        case Ok(p) =>
          plugins := plugins + [PluginInfo(name, p)];
          return Ok(());
      }
    }

    /**
     * loadPlugins: first the factories registered to load on initialization,
     * then the plug-ins named by Ice.PluginLoadOrder in that order, then every
     * remaining `Ice.Plugin.*` entry, `.cpp` and `.java` entries excepted.
     * `picked` is the order in which the property table yielded the remaining keys.
     */
    method LoadPlugins(props: map<string, string>, loadOrder: seq<string>, loader: Loader)
        returns (r: Result<(), PluginError>, ghost picked: seq<string>)
      requires communicatorLive
      requires registry.Valid()
      modifies this
      ensures communicatorLive && initialized == old(initialized) && calls == old(calls)
      ensures |old(plugins)| <= |plugins| && plugins[..|old(plugins)|] == old(plugins)
      ensures r.Ok? ==>
                LoadedInPhases(Names(plugins[|old(plugins)|..]), registry.loadOnInitialization, NonEmpty(loadOrder), props)
      ensures r.Ok? ==>
                var config := ForPrefix(props);
                var first := registry.loadOnInitialization;
                var plan := Planned(config, first, NonEmpty(loadOrder), picked);
                && PlanPicks(config, first, NonEmpty(loadOrder), picked)
                && plan.rest == map[]
                && LoadedAs(plugins[|old(plugins)|..], plan.loads, registry.factories, loader)
    {
      ghost var base := plugins;
      ghost var config := ForPrefix(props);
      var pmap := ForPrefix(props);
      picked := [];
      assert plugins[|base|..] == [];
      assert LoadingOf(plugins, base, [], [], pmap, config, registry.factories, loader);
      r, pmap := LoadConfigured(pmap, loadOrder, loader, config, base);
      if r.Err? {
        return;
      }
      ghost var p1 := ResolveAll(config, registry.loadOnInitialization);
      ghost var p2 := ResolveAll(p1.rest, NonEmpty(loadOrder));
      ghost var named := registry.loadOnInitialization + NonEmpty(loadOrder);
      r, picked := LoadRemaining(pmap, loader, config, base, named, p1.loads + p2.loads);
      if r.Err? {
        return;
      }
      PhasesCompose(Names(plugins[|base|..]), registry.loadOnInitialization, NonEmpty(loadOrder), config, props);
    }

    /**
     * The first two loops of loadPlugins: the factories to load on
     * initialization, then the names of Ice.PluginLoadOrder.
     */
    method LoadConfigured(pmap0: map<string, string>, loadOrder: seq<string>, loader: Loader,
                          ghost config: map<string, string>, ghost base: seq<PluginInfo>)
        returns (r: Result<(), PluginError>, pmap: map<string, string>)
      requires communicatorLive && registry.Valid()
      requires LoadingOf(plugins, base, [], [], pmap0, config, registry.factories, loader)
      modifies this
      ensures communicatorLive && initialized == old(initialized) && calls == old(calls)
      ensures |base| <= |plugins| && plugins[..|base|] == base
      ensures r.Ok? ==>
                var named := registry.loadOnInitialization + NonEmpty(loadOrder);
                var p1 := ResolveAll(pmap0, registry.loadOnInitialization);
                var p2 := ResolveAll(p1.rest, NonEmpty(loadOrder));
                && pmap == p2.rest
                && LoadingOf(plugins, base, named, p1.loads + p2.loads, pmap, config, registry.factories, loader)
                && (forall n | n in NonEmpty(loadOrder) :: DefinedIn(config, n))
    {
      r, pmap := LoadOnInitialization(pmap0, loader, config, base);
      if r.Err? {
        return;
      }
      ghost var p1 := ResolveAll(pmap0, registry.loadOnInitialization);
      assert LoadingOf(plugins, base, registry.loadOnInitialization, p1.loads, pmap, config, registry.factories, loader);
      r, pmap := LoadInOrder(loadOrder, pmap, loader, config, base, registry.loadOnInitialization, p1.loads);
    }

    /** The first loop of loadPlugins: every factory registered to load on initialization. */
    method LoadOnInitialization(pmap0: map<string, string>, loader: Loader, ghost config: map<string, string>,
                                ghost base: seq<PluginInfo>)
        returns (r: Result<(), PluginError>, pmap: map<string, string>)
      requires communicatorLive && registry.Valid()
      requires LoadingOf(plugins, base, [], [], pmap0, config, registry.factories, loader)
      modifies this
      ensures communicatorLive && initialized == old(initialized) && calls == old(calls)
      ensures |base| <= |plugins| && plugins[..|base|] == base
      ensures r.Ok? ==>
                FirstState(plugins, base, registry.loadOnInitialization, pmap0, pmap, config, registry.factories, loader)
    {
      var first := registry.loadOnInitialization;
      pmap := pmap0;
      var i := 0;
      assert first[..0] == [];
      while i < |first|
        invariant 0 <= i <= |first|
        invariant communicatorLive && initialized == old(initialized) && calls == old(calls)
        invariant FirstState(plugins, base, first[..i], pmap0, pmap, config, registry.factories, loader)
      {
        r, pmap := LoadFirst(first, i, pmap, loader, pmap0, config, base);
        if r.Err? {
          return;
        }
        i := i + 1;
      }
      assert first[..i] == first;
      r := Ok(());
    }

    /**
     * One factory registered to load on initialization, the i-th of `first`:
     * loaded with its configured specification when there is one, else with
     * an empty one.  `initial` is the working copy the loop started from.
     */
    method LoadFirst(first: seq<string>, i: nat, pmap0: map<string, string>, loader: Loader,
                     ghost initial: map<string, string>, ghost config: map<string, string>,
                     ghost base: seq<PluginInfo>)
        returns (r: Result<(), PluginError>, pmap: map<string, string>)
      requires communicatorLive
      requires i < |first| && Distinct(first)
      requires FirstState(plugins, base, first[..i], initial, pmap0, config, registry.factories, loader)
      modifies this
      ensures communicatorLive && initialized == old(initialized) && calls == old(calls)
      ensures var resolved := ResolveKey(pmap0, first[i]);
              var outcome := ResolvePlugin(registry.factories, first[i], SpecOf(resolved), loader);
              && (r.Err? ==> outcome == Err(r.error) && plugins == old(plugins))
              && (r.Ok? ==>
                    && outcome.Ok?
                    && plugins == old(plugins) + [PluginInfo(first[i], outcome.value)]
                    && pmap == pmap0 - resolved.consumed)
      ensures r.Ok? ==>
                FirstState(plugins, base, first[..i + 1], initial, pmap, config, registry.factories, loader)
    {
      var name := first[i];
      var resolved := ResolveKey(pmap0, name);
      ResolveKeySpec(pmap0, name);
      var spec := SpecOf(resolved);
      ghost var prev := plugins;
      r := LoadPlugin(name, spec, loader);
      pmap := pmap0;
      if r.Err? {
        return;
      }
      pmap := pmap0 - resolved.consumed;
      assert name !in first[..i];
      FirstAfterLoad(prev, base, first[..i], initial, pmap0, config, registry.factories, loader,
                     name, plugins[|plugins| - 1].plugin);
      assert first[..i + 1] == first[..i] + [name];
    }

    /** The second loop of loadPlugins: the plug-ins Ice.PluginLoadOrder names, in that order. */
    method LoadInOrder(loadOrder: seq<string>, pmap0: map<string, string>, loader: Loader,
                       ghost config: map<string, string>, ghost base: seq<PluginInfo>,
                       ghost added0: seq<string>, ghost loads0: seq<Load>)
        returns (r: Result<(), PluginError>, pmap: map<string, string>)
      requires communicatorLive
      requires LoadingOf(plugins, base, added0, loads0, pmap0, config, registry.factories, loader)
      modifies this
      ensures communicatorLive && initialized == old(initialized) && calls == old(calls)
      ensures |base| <= |plugins| && plugins[..|base|] == base
      ensures r.Ok? ==>
                var plan := ResolveAll(pmap0, NonEmpty(loadOrder));
                && pmap == plan.rest
                && LoadingOf(plugins, base, added0 + NonEmpty(loadOrder), loads0 + plan.loads, pmap, config,
                             registry.factories, loader)
                && (forall n | n in NonEmpty(loadOrder) :: DefinedIn(config, n))
    {
      pmap := pmap0;
      var j := 0;
      assert loadOrder[..0] == [];
      assert added0 + [] == added0 && loads0 + [] == loads0;
      while j < |loadOrder|
        invariant 0 <= j <= |loadOrder|
        invariant communicatorLive && initialized == old(initialized) && calls == old(calls)
        invariant OrderedState(plugins, base, added0, loads0, NonEmpty(loadOrder[..j]), pmap0, pmap, config,
                               registry.factories, loader)
      {
        r, pmap := LoadOrdered(loadOrder, j, pmap, loader, pmap0, config, base, added0, loads0);
        if r.Err? {
          return;
        }
        j := j + 1;
      }
      assert loadOrder[..j] == loadOrder;
      r := Ok(());
    }

    /**
     * The j-th entry of Ice.PluginLoadOrder: skipped when empty, refused when
     * already loaded or not configured.  `initial` is the working copy the
     * loop started from.
     */
    method LoadOrdered(loadOrder: seq<string>, j: nat, pmap0: map<string, string>, loader: Loader,
                       ghost initial: map<string, string>, ghost config: map<string, string>,
                       ghost base: seq<PluginInfo>, ghost added0: seq<string>, ghost loads0: seq<Load>)
        returns (r: Result<(), PluginError>, pmap: map<string, string>)
      requires communicatorLive
      requires j < |loadOrder|
      requires OrderedState(plugins, base, added0, loads0, NonEmpty(loadOrder[..j]), initial, pmap0, config,
                            registry.factories, loader)
      modifies this
      ensures communicatorLive && initialized == old(initialized) && calls == old(calls)
      ensures r.Err? ==> plugins == old(plugins)
      ensures |loadOrder[j]| == 0 ==> r.Ok? && pmap == pmap0 && plugins == old(plugins)
      ensures |loadOrder[j]| > 0 && Lookup(old(plugins), loadOrder[j]).Some? ==> r == Err(AlreadyLoaded(loadOrder[j]))
      ensures |loadOrder[j]| > 0 && Lookup(old(plugins), loadOrder[j]).None? && !DefinedIn(pmap0, loadOrder[j]) ==>
                r == Err(NotDefined(loadOrder[j]))
      ensures var name := loadOrder[j];
              var resolved := ResolveKey(pmap0, name);
              var outcome := ResolvePlugin(registry.factories, name, SpecOf(resolved), loader);
              && (|name| > 0 && Lookup(old(plugins), name).None? && DefinedIn(pmap0, name) && r.Err? ==>
                    outcome == Err(r.error))
              && (|name| > 0 && r.Ok? ==>
                    && resolved.value.Some?
                    && outcome.Ok?
                    && plugins == old(plugins) + [PluginInfo(name, outcome.value)]
                    && pmap == pmap0 - resolved.consumed)
      ensures r.Ok? ==>
                OrderedState(plugins, base, added0, loads0, NonEmpty(loadOrder[..j + 1]), initial, pmap, config,
                             registry.factories, loader)
    {
      var name := loadOrder[j];
      ghost var ordered := NonEmpty(loadOrder[..j]);
      NonEmptyStep(loadOrder, j);
      pmap := pmap0;
      if |name| == 0 {
        assert NonEmpty(loadOrder[..j + 1]) == ordered;
        return Ok(()), pmap;
      }
      assert NonEmpty(loadOrder[..j + 1]) == ordered + [name];
      var found := FindPlugin(name);
      if found.Some? {
        return Err(AlreadyLoaded(name)), pmap;
      }
      var resolved := ResolveKey(pmap, name);
      ResolveKeySpec(pmap, name);
      if resolved.value.None? {
        return Err(NotDefined(name)), pmap;
      }
      NotFoundNotNamed(plugins, |base|, name);
      ghost var prev := plugins;
      r := LoadPlugin(name, resolved.value.value, loader);
      if r.Err? {
        return;
      }
      pmap := pmap - resolved.consumed;
      OrderedAfterLoad(prev, base, added0, loads0, ordered, initial, pmap0, config,
                       registry.factories, loader, name, plugins[|plugins| - 1].plugin);
    }

    /**
     * The last loop of loadPlugins: every entry left, taken in whatever order
     * the table yields them, which `picked` records.
     */
    method LoadRemaining(pmap0: map<string, string>, loader: Loader,
                         ghost config: map<string, string>, ghost base: seq<PluginInfo>,
                         ghost added0: seq<string>, ghost loads0: seq<Load>)
        returns (r: Result<(), PluginError>, ghost picked: seq<string>)
      requires communicatorLive
      requires LoadingOf(plugins, base, added0, loads0, pmap0, config, registry.factories, loader)
      requires forall k | k in config :: HasPrefix(k)
      modifies this
      ensures communicatorLive && initialized == old(initialized) && calls == old(calls)
      ensures |base| <= |plugins| && plugins[..|base|] == base
      ensures r.Ok? ==>
                var added := Names(plugins[|base|..]);
                && |added| >= |added0| && added[..|added0|] == added0
                && Distinct(added)
                && (forall i | |added0| <= i < |added| :: DefinedIn(config, added[i]))
                && forall k | k in config :: IgnoredKey(k) || Covered(added, k)
      ensures r.Ok? ==>
                && PicksFrom(pmap0, picked)
                && Drain(pmap0, picked).rest == map[]
                && LoadedAs(plugins[|base|..], loads0 + Drain(pmap0, picked).loads, registry.factories, loader)
    {
      ghost var added := added0;
      picked := [];
      var pmap := pmap0;
      assert loads0 + Drain(pmap0, picked).loads == loads0;
      assert added0[..|added0|] == added0;
      while pmap != map[]
        invariant communicatorLive && initialized == old(initialized) && calls == old(calls)
        invariant RemainingState(plugins, base, added0, added, loads0, pmap0, picked, pmap, config,
                                 registry.factories, loader)
        decreases pmap.Keys
      {
        var key := Pick(pmap.Keys);
        ghost var loaded;
        r, pmap, loaded := LoadEntry(key, pmap, loader, pmap0, config, base, added0, added, picked, loads0);
        if r.Err? {
          return;
        }
        added := added + loaded;
        picked := picked + [key];
      }
      DrainedCovers(added, config);
      r := Ok(());
    }

    /**
     * One entry of the remaining `Ice.Plugin.*` properties: a `.cpp` or `.java`
     * entry is dropped, a `.clr` entry loads the plug-in it names, and a plain
     * entry loads its plug-in with the `.clr` value when one is present.
     * `initial` is the working copy the loop started from, and `picked` the
     * keys it took before this one.
     */
    method LoadEntry(key: string, pmap0: map<string, string>, loader: Loader,
                     ghost initial: map<string, string>, ghost config: map<string, string>,
                     ghost base: seq<PluginInfo>, ghost added0: seq<string>, ghost added: seq<string>,
                     ghost picked: seq<string>, ghost loads0: seq<Load>)
        returns (r: Result<(), PluginError>, pmap: map<string, string>, ghost loaded: seq<string>)
      requires communicatorLive
      requires key in pmap0 && forall k | k in config :: HasPrefix(k)
      requires RemainingState(plugins, base, added0, added, loads0, initial, picked, pmap0, config,
                              registry.factories, loader)
      modifies this
      ensures communicatorLive && initialized == old(initialized) && calls == old(calls)
      ensures HasPrefix(key)
      ensures match StepEntry(pmap0, key)
              case Skip(rest) => r.Ok? && pmap == rest && plugins == old(plugins)
              case LoadNamed(name, spec, rest) =>
                var outcome := ResolvePlugin(registry.factories, name, spec, loader);
                && (r.Err? ==> outcome == Err(r.error) && plugins == old(plugins))
                && (r.Ok? ==> outcome.Ok? && pmap == rest && plugins == old(plugins) + [PluginInfo(name, outcome.value)])
      ensures r.Ok? ==>
                && pmap.Keys < pmap0.Keys
                && |loaded| <= 1
                && (Classify(key).Ignored? <==> loaded == [])
                && RemainingState(plugins, base, added0, added + loaded, loads0, initial, picked + [key], pmap, config,
                                  registry.factories, loader)
    {
      var step := StepEntry(pmap0, key);
      match step {
        case Skip(rest) =>
          RemainingAfterEntry(plugins, base, added0, added, loads0, initial, picked, pmap0, config,
                              registry.factories, loader, key, 0);
          assert added + [] == added;
          return Ok(()), rest, [];
        case LoadNamed(name, spec, rest) =>
          ghost var prev := plugins;
          r := LoadPlugin(name, spec, loader);
          pmap := rest;
          loaded := [name];
          if r.Ok? {
            RemainingAfterEntry(prev, base, added0, added, loads0, initial, picked, pmap0, config,
                                registry.factories, loader, key, plugins[|plugins| - 1].plugin);
          }
      }
    }
  }
}
