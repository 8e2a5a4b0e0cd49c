/**
 * The read-only logic of the plug-in manager: looking a plug-in up by name,
 * splitting an entry point into assembly and class name, resolving a
 * plug-in's property key, classifying the remaining `Ice.Plugin.*` keys, and
 * choosing the factory that creates a plug-in.  Reflection, the argument
 * tokenizer and the factories themselves are collaborators, passed in as
 * total functions.
 */
module PluginConfig {
  import opened Wrappers

  /** The identity of a plug-in object. */
  type Plugin = nat
  /** The identity of a plug-in factory object. */
  type Factory = nat

  datatype PluginInfo = PluginInfo(name: string, plugin: Plugin)

  datatype PluginError =
    | PluginInitialization(reason: string)  // PluginInitializationException
    | Initialization(reason: string)        // InitializationException
    | CommunicatorDestroyed
    | NotRegistered(kindOfObject: string, id: string)
    | AlreadyRegistered(kindOfObject: string, id: string)
    | Unexpected(what: string)              // a runtime failure the source does not catch

  const KindOfObject: string := "plugin"
  const Prefix: string := "Ice.Plugin."

  /** What a factory's create call did. */
  datatype CreateOutcome =
    | Created(plugin: Plugin)
    | ReturnedNull
    | Raised(reason: string, isPluginInitialization: bool)

  /** What reflection did with an assembly name and a class name. */
  datatype ReflectOutcome =
    | Instantiated(factory: Factory)
    | AssemblyNotLoaded(reason: string)  // both Assembly.Load and Assembly.LoadFrom failed
    | TypeNotFound                       // GetType failed
    | NoConstructor                      // createInstance returned null; the exception raised for it
                                         // is caught by the catch-all clause of the same try
    | NotAFactory                        // InvalidCastException
    | Unauthorized(reason: string)       // UnauthorizedAccessException
    | InstantiationFailed(reason: string) // any other exception

  /**
   * The collaborators of loadPlugin: the argument tokenizer (an error message
   * for a bad quote), reflection, the factories' create method, and the
   * ToString text of a PluginInitializationException with a given reason.
   */
  datatype Loader = Loader(
    split: string -> Result<seq<string>, string>,
    reflect: (string, string) -> ReflectOutcome,
    create: (Factory, string, seq<string>) -> CreateOutcome,
    describe: string -> string)

  // ---------------------------------------------------------------- lookup

  /** The plug-in of the first entry named `name`. */
  function Lookup(ps: seq<PluginInfo>, name: string): (r: Option<Plugin>)
    ensures r.None? <==> forall i | 0 <= i < |ps| :: ps[i].name != name
    ensures r.Some? ==> exists i | 0 <= i < |ps| :: ps[i] == PluginInfo(name, r.value)
                                                 && forall j | 0 <= j < i :: ps[j].name != name
  {
    if ps == [] then None
    else if ps[0].name == name then Some(ps[0].plugin)
    else
      var r := Lookup(ps[1..], name);
      assert forall i | 1 <= i < |ps| :: ps[i] == ps[1..][i - 1];
      r
  }

  /** The names of the entries, in list order. */
  function Names(ps: seq<PluginInfo>): (r: seq<string>)
    ensures |r| == |ps|
  {
    if ps == [] then [] else [ps[0].name] + Names(ps[1..])
  }

  lemma {:induction false} NamesAt(ps: seq<PluginInfo>, i: int)
    requires 0 <= i < |ps|
    ensures Names(ps)[i] == ps[i].name
  {
    if i > 0 {
      NamesAt(ps[1..], i - 1);
    }
  }

  lemma {:induction false} NamesAppend(ps: seq<PluginInfo>, qs: seq<PluginInfo>)
    ensures Names(ps + qs) == Names(ps) + Names(qs)
  {
    if ps != [] {
      assert (ps + qs)[1..] == ps[1..] + qs;
      NamesAppend(ps[1..], qs);
      assert Names(ps + qs) == [ps[0].name] + Names((ps + qs)[1..]);
    } else {
      assert ps + qs == qs;
    }
  }

  /** A name lookup does not find is the name of no entry, in any suffix of the list. */
  lemma NotFoundNotNamed(ps: seq<PluginInfo>, start: nat, name: string)
    requires start <= |ps|
    requires Lookup(ps, name).None?
    ensures name !in Names(ps[start..])
  {
    forall i | 0 <= i < |ps[start..]|
      ensures Names(ps[start..])[i] != name
    {
      NamesAt(ps[start..], i);
      assert ps[start..][i] == ps[start + i];
    }
  }

  predicate Distinct(ns: seq<string>) {
    forall i, j | 0 <= i < j < |ns| :: ns[i] != ns[j]
  }

  /**
   * addPlugin's effect seen through lookup: the new entry is found under its
   * name and every other name keeps its plug-in.
   */
  lemma {:induction false} LookupAfterAdd(ps: seq<PluginInfo>, name: string, p: Plugin, other: string)
    requires Lookup(ps, name).None?
    ensures Lookup(ps + [PluginInfo(name, p)], name) == Some(p)
    ensures other != name ==> Lookup(ps + [PluginInfo(name, p)], other) == Lookup(ps, other)
  {
    if ps != [] {
      assert (ps + [PluginInfo(name, p)])[1..] == ps[1..] + [PluginInfo(name, p)];
      LookupAfterAdd(ps[1..], name, p, other);
    }
  }

  /** Adding only names that lookup does not find keeps the names distinct. */
  lemma AddKeepsDistinct(ps: seq<PluginInfo>, name: string, p: Plugin)
    requires Lookup(ps, name).None?
    requires Distinct(Names(ps))
    ensures Distinct(Names(ps + [PluginInfo(name, p)]))
  {
    var ns := Names(ps + [PluginInfo(name, p)]);
    forall i, j | 0 <= i < j < |ns|
      ensures ns[i] != ns[j]
    {
      NamesAppend(ps, [PluginInfo(name, p)]);
      if j < |ps| {
        assert ns[i] == Names(ps)[i] && ns[j] == Names(ps)[j];
      } else {
        NamesAt(ps, i);
        assert ns[j] == name && ns[i] == ps[i].name;
      }
    }
  }

  // ---------------------------------------------------------------- entry points

  /** string.IndexOf(ch, from): the first index at or after `from` holding `ch`, or -1. */
  function IndexOfFrom(s: string, ch: char, from: nat): (r: int)
    ensures r == -1 || from <= r < |s|
    ensures r != -1 ==> s[r] == ch && forall i | from <= i < r :: s[i] != ch
    ensures r == -1 <==> forall i | from <= i < |s| :: s[i] != ch
    decreases |s| - from
  {
    if from >= |s| then -1
    else if s[from] == ch then from
    else IndexOfFrom(s, ch, from + 1)
  }

  /** string.LastIndexOf(ch): the last index holding `ch`, or -1. */
  function LastIndexOf(s: string, ch: char): (r: int)
    ensures r == -1 || 0 <= r < |s|
    ensures r != -1 ==> s[r] == ch && forall i | r < i < |s| :: s[i] != ch
    ensures r == -1 <==> forall i | 0 <= i < |s| :: s[i] != ch
  {
    if s == [] then -1
    else if s[|s| - 1] == ch then |s| - 1
    else LastIndexOf(s[..|s| - 1], ch)
  }

  predicate IsDriveLetter(c: char) {
    'a' <= c <= 'z' || 'A' <= c <= 'Z'
  }

  /** An entry point that starts with a drive path such as `C:\` or `C:/`. */
  predicate StartsWithDrive(ep: string) {
    |ep| > 3 && IsDriveLetter(ep[0]) && ep[1] == ':' && (ep[2] == '\\' || ep[2] == '/')
  }

  datatype EntryPoint = EntryPoint(assembly: string, className: string)

  /** The separator of an entry point: its first `:`, or after a drive path the next `:` from index 3. */
  function SeparatorIndex(ep: string): (r: int) {
    var sep := IndexOfFrom(ep, ':', 0);
    if sep != -1 && |ep| > 3 && sep == 1 && IsDriveLetter(ep[0]) && (ep[2] == '\\' || ep[2] == '/')
    then IndexOfFrom(ep, ':', 3)
    else sep
  }

  /** The assembly and class name of an entry point, or None: "invalid entry point format". */
  function SplitEntryPoint(ep: string): (r: Option<EntryPoint>) {
    var sep := SeparatorIndex(ep);
    if sep == -1 then None else Some(EntryPoint(ep[..sep], ep[sep + 1..]))
  }

  /**
   * The split is at a colon and loses nothing; the assembly name holds no
   * colon except a drive path's own; it fails exactly when there is no
   * separating colon.
   */
  lemma SplitEntryPointSpec(ep: string)
    ensures match SplitEntryPoint(ep)
            case Some(e) => ep == e.assembly + ":" + e.className
            case None => true
    ensures StartsWithDrive(ep) ==>
              (SplitEntryPoint(ep).Some? <==> exists i | 3 <= i < |ep| :: ep[i] == ':')
    ensures StartsWithDrive(ep) && SplitEntryPoint(ep).Some? ==>
              var a := SplitEntryPoint(ep).value.assembly;
              |a| >= 3 && a[..3] == ep[..3] && forall i | 3 <= i < |a| :: a[i] != ':'
    ensures !StartsWithDrive(ep) ==>
              (SplitEntryPoint(ep).Some? <==> exists i | 0 <= i < |ep| :: ep[i] == ':')
    ensures !StartsWithDrive(ep) && SplitEntryPoint(ep).Some? ==>
              forall i | 0 <= i < |SplitEntryPoint(ep).value.assembly| :: SplitEntryPoint(ep).value.assembly[i] != ':'
  {
    var sep := SeparatorIndex(ep);
    if sep != -1 {
      assert ep == ep[..sep] + ":" + ep[sep + 1..];
    }
    if StartsWithDrive(ep) {
      assert IndexOfFrom(ep, ':', 0) == 1;
    }
  }

  // ---------------------------------------------------------------- property keys

  /** The value of a plug-in's configuration and the keys that reading it consumes. */
  datatype Resolved = Resolved(value: Option<string>, consumed: set<string>)

  /** `Ice.Plugin.<name>.clr` beats `Ice.Plugin.<name>` and consumes both. */
  function ResolveKey(props: map<string, string>, name: string): (r: Resolved) {
    var clr := Prefix + name + ".clr";
    var plain := Prefix + name;
    if clr in props then Resolved(Some(props[clr]), {clr, plain})
    else if plain in props then Resolved(Some(props[plain]), {plain})
    else Resolved(None, {})
  }

  lemma ResolveKeySpec(props: map<string, string>, name: string)
    ensures var r := ResolveKey(props, name);
            && (r.value.None? <==> Prefix + name + ".clr" !in props && Prefix + name !in props)
            && (Prefix + name + ".clr" in props ==>
                  r.value == Some(props[Prefix + name + ".clr"]) && Prefix + name in r.consumed)
            && (Prefix + name + ".clr" !in props && Prefix + name in props ==>
                  r.value == Some(props[Prefix + name]))
            && (forall k | k in r.consumed :: k == Prefix + name || k == Prefix + name + ".clr")
            && (r.value.Some? ==> exists k | k in r.consumed :: k in props)
            && Prefix + name !in props - r.consumed && Prefix + name + ".clr" !in props - r.consumed
  {
    var r := ResolveKey(props, name);
    if r.value.Some? {
      if Prefix + name + ".clr" in props {
        assert Prefix + name + ".clr" in r.consumed;
      } else {
        assert Prefix + name in r.consumed;
      }
    }
  }

  /** A plug-in named in the configuration under either of its keys. */
  predicate DefinedIn(props: map<string, string>, name: string) {
    Prefix + name in props || Prefix + name + ".clr" in props
  }

  /** A map holding some of the entries of `props`. */
  predicate SubMap(m: map<string, string>, props: map<string, string>) {
    forall k | k in m :: k in props && m[k] == props[k]
  }

  /** Ice.PluginLoadOrder without its empty entries, which are skipped. */
  function NonEmpty(names: seq<string>): (r: seq<string>)
    ensures |r| <= |names|
  {
    if names == [] then []
    else
      var last := names[|names| - 1];
      NonEmpty(names[..|names| - 1]) + (if |last| == 0 then [] else [last])
  }

  lemma NonEmptyStep(names: seq<string>, j: nat)
    requires j < |names|
    ensures NonEmpty(names[..j + 1]) == NonEmpty(names[..j]) + (if |names[j]| == 0 then [] else [names[j]])
  {
    assert names[..j + 1][..j] == names[..j];
  }

  /** Only non-empty entries of the list are kept. */
  lemma {:induction false} NonEmptyKeeps(names: seq<string>)
    ensures forall n | n in NonEmpty(names) :: |n| > 0 && n in names
  {
    if names != [] {
      var front := names[..|names| - 1];
      NonEmptyKeeps(front);
      forall n | n in NonEmpty(names)
        ensures |n| > 0 && n in names
      {
        if n in NonEmpty(front) {
          var i :| 0 <= i < |front| && front[i] == n;
          assert names[i] == n;
        }
      }
    }
  }

  /** A list without empty entries is kept whole. */
  lemma {:induction false} NonEmptyKeepsAll(names: seq<string>)
    requires forall i | 0 <= i < |names| :: |names[i]| > 0
    ensures NonEmpty(names) == names
  {
    if names != [] {
      var front := names[..|names| - 1];
      assert forall i | 0 <= i < |front| :: front[i] == names[i];
      NonEmptyKeepsAll(front);
      assert names == front + [names[|names| - 1]];
    }
  }

  /**
   * Splitting the load order anywhere keeps the non-empty names of each part,
   * those of the first part before those of the second.  With NonEmptyStep
   * for a single entry, this makes NonEmpty exactly the subsequence of
   * non-empty entries, in their order.
   */
  lemma {:induction false} NonEmptyAppend(front: seq<string>, back: seq<string>)
    ensures NonEmpty(front + back) == NonEmpty(front) + NonEmpty(back)
    decreases |back|
  {
    if back == [] {
      assert front + back == front;
    } else {
      var init := back[..|back| - 1];
      var last := back[|back| - 1];
      assert (front + back)[..|front + back| - 1] == front + init;
      NonEmptyAppend(front, init);
      assert NonEmpty(front + back) == NonEmpty(front + init) + (if |last| == 0 then [] else [last]);
    }
  }

  /** Every non-empty entry of the load order is kept, whatever surrounds it. */
  lemma {:induction false} NonEmptyKeepsEach(names: seq<string>)
    ensures forall i | 0 <= i < |names| && |names[i]| > 0 :: names[i] in NonEmpty(names)
  {
    if names != [] {
      var front := names[..|names| - 1];
      NonEmptyKeepsEach(front);
      forall i | 0 <= i < |names| && |names[i]| > 0
        ensures names[i] in NonEmpty(names)
      {
        if i < |front| {
          assert front[i] == names[i];
        }
      }
    }
  }

  /** A list of empty entries only leaves nothing. */
  lemma {:induction false} NonEmptyDropsAll(names: seq<string>)
    requires forall i | 0 <= i < |names| :: |names[i]| == 0
    ensures NonEmpty(names) == []
  {
    if names != [] {
      var front := names[..|names| - 1];
      assert forall i | 0 <= i < |front| :: front[i] == names[i];
      NonEmptyDropsAll(front);
    }
  }

  predicate HasPrefix(key: string) {
    |Prefix| <= |key| && key[..|Prefix|] == Prefix
  }

  /** properties.getPropertiesForPrefix("Ice.Plugin."). */
  function ForPrefix(props: map<string, string>): (r: map<string, string>)
    ensures forall k | k in r :: HasPrefix(k) && k in props && r[k] == props[k]
    ensures forall k | k in props && HasPrefix(k) :: k in r
  {
    map k | k in props && HasPrefix(k) :: props[k]
  }

  /** How the loop over the remaining `Ice.Plugin.*` keys treats one key. */
  datatype KeyKind =
    | Ignored                 // a `.cpp` or `.java` key: some other language's plug-in
    | ClrEntry(name: string)  // `Ice.Plugin.<name>.clr`
    | PlainEntry(name: string) // `Ice.Plugin.<name>`, where the name may itself contain dots

  function Classify(key: string): (r: KeyKind)
    requires HasPrefix(key)
  {
    var name := key[|Prefix|..];
    var dot := LastIndexOf(name, '.');
    if dot == -1 then PlainEntry(name)
    else
      var suffix := name[dot + 1..];
      if suffix == "cpp" || suffix == "java" then Ignored
      else if suffix == "clr" then ClrEntry(name[..dot])
      else PlainEntry(name)
  }

  /** The plug-in name a key stands for is recovered from it exactly. */
  lemma ClassifyNames(key: string)
    requires HasPrefix(key)
    ensures Classify(key).ClrEntry? ==> key == Prefix + Classify(key).name + ".clr"
    ensures Classify(key).PlainEntry? ==> key == Prefix + Classify(key).name
  {
    var name := key[|Prefix|..];
    assert key == Prefix + name;
    var dot := LastIndexOf(name, '.');
    if dot != -1 && name[dot + 1..] == "clr" {
      assert name == name[..dot] + "." + name[dot + 1..];
    }
  }

  /** Which suffixes are dropped, which select the `.clr` entry, and that other suffixes stay in the name. */
  lemma ClassifySuffixes(name: string, suffix: string)
    requires forall i | 0 <= i < |suffix| :: suffix[i] != '.'
    ensures suffix == "cpp" || suffix == "java" ==> Classify(Prefix + name + "." + suffix) == Ignored
    ensures suffix == "clr" ==> Classify(Prefix + name + "." + suffix) == ClrEntry(name)
    ensures suffix != "cpp" && suffix != "java" && suffix != "clr" ==>
              Classify(Prefix + name + "." + suffix) == PlainEntry(name + "." + suffix)
  {
    var key := Prefix + name + "." + suffix;
    var n := name + "." + suffix;
    assert key[|Prefix|..] == n;
    var dot := LastIndexOf(n, '.');
    assert n[|name|] == '.';
    assert dot == |name|;
    assert n[dot + 1..] == suffix;
    assert n[..dot] == name;
  }

  /** What the loop over the remaining keys does with one key of the working copy. */
  datatype EntryStep =
    | Skip(rest: map<string, string>)
    | LoadNamed(name: string, spec: string, rest: map<string, string>)

  function StepEntry(pmap: map<string, string>, key: string): (r: EntryStep)
    requires key in pmap && HasPrefix(key)
  {
    match Classify(key)
    case Ignored => Skip(pmap - {key})
    case ClrEntry(name) => LoadNamed(name, pmap[key], pmap - {key, Prefix + name})
    case PlainEntry(name) =>
      var clrKey := Prefix + name + ".clr";
      var rest := pmap - {key};
      if clrKey in rest then LoadNamed(name, rest[clrKey], rest - {clrKey})
      else LoadNamed(name, pmap[key], rest)
  }

  /**
   * An ignored key is just dropped; otherwise the key is one of the named
   * plug-in's two keys, its specification obeys the same `.clr` precedence as
   * ResolveKey, and exactly that plug-in's keys leave the working copy.
   */
  lemma StepEntrySpec(pmap: map<string, string>, key: string)
    requires key in pmap && HasPrefix(key)
    ensures StepEntry(pmap, key).Skip? <==> Classify(key).Ignored?
    ensures StepEntry(pmap, key).Skip? ==> StepEntry(pmap, key).rest == pmap - {key}
    ensures match StepEntry(pmap, key)
            case Skip(_) => true
            case LoadNamed(name, spec, rest) =>
              && (key == Prefix + name || key == Prefix + name + ".clr")
              && ResolveKey(pmap, name).value == Some(spec)
              && SubMap(rest, pmap)
              && Prefix + name !in rest && Prefix + name + ".clr" !in rest
              && forall k | k in pmap && k !in rest :: k == Prefix + name || k == Prefix + name + ".clr"
  {
    ClassifyNames(key);
    match Classify(key)
    case Ignored =>
    case ClrEntry(name) =>
    case PlainEntry(name) =>
      assert |Prefix + name + ".clr"| != |key|;
  }

  /** The failure of an Ice.PluginLoadOrder entry that names a plug-in already loaded. */
  function AlreadyLoaded(name: string): (r: PluginError) {
    PluginInitialization("plug-in `" + name + "' already loaded")
  }

  /** The failure of an Ice.PluginLoadOrder entry that names no configured plug-in. */
  function NotDefined(name: string): (r: PluginError) {
    PluginInitialization("plug-in `" + name + "' not defined")
  }

  // ---------------------------------------------------------------- loading one plug-in

  /** The message prefix of a load failure; a missing entry point reads as empty. */
  function LoadError(entryPoint: Option<string>): (r: string) {
    "unable to load plug-in `" + (if entryPoint.Some? then entryPoint.value else "") + "': "
  }

  /** A plug-in specification split into entry point and arguments, or the failure. */
  function ParseSpec(name: string, spec: string, loader: Loader): (r: Result<(Option<string>, seq<string>), PluginError>) {
    if |spec| == 0 then Ok((None, []))
    else match loader.split(spec)
      case Err(message) => Err(PluginInitialization("invalid arguments for plug-in `" + name + "':\n" + message))
      case Ok(args) =>
        if |args| == 0 then Err(Unexpected("index out of range"))
        else Ok((Some(args[0]), args[1..]))
  }

  /** The factory for `name`: a registered one first, else the one the entry point names. */
  function ChooseFactory(factories: map<string, Factory>, name: string, entryPoint: Option<string>,
                         loader: Loader): (r: Result<Factory, PluginError>)
  {
    if name in factories then Ok(factories[name])
    else if entryPoint.None? then Err(Unexpected("null entry point"))
    else match SplitEntryPoint(entryPoint.value)
      case None => Err(PluginInitialization(LoadError(entryPoint) + "invalid entry point format"))
      case Some(e) =>
        var err := LoadError(entryPoint);
        match loader.reflect(e.assembly, e.className)
        case Instantiated(f) => Ok(f)
        case AssemblyNotLoaded(reason) =>
          Err(PluginInitialization(err + "unable to load assembly: `" + e.assembly + "': " + reason))
        case TypeNotFound => Err(PluginInitialization(err + "GetType failed for `" + e.className + "'"))
        case NoConstructor =>
          var inner := err + "can't find constructor for `" + e.className + "'";
          Err(PluginInitialization(err + "System.Exception: " + loader.describe(inner)))
        case NotAFactory => Err(PluginInitialization(err + "InvalidCastException to Ice.PluginFactory"))
        case Unauthorized(reason) => Err(PluginInitialization(err + "UnauthorizedAccessException: " + reason))
        case InstantiationFailed(reason) => Err(PluginInitialization(err + "System.Exception: " + reason))
  }

  /** loadPlugin without its final append: the plug-in to add, or why none is added. */
  function ResolvePlugin(factories: map<string, Factory>, name: string, spec: string,
                         loader: Loader): (r: Result<Plugin, PluginError>)
  {
    match ParseSpec(name, spec, loader)
    case Err(e) => Err(e)
    case Ok(parsed) =>
      var (entryPoint, args) := parsed;
      match ChooseFactory(factories, name, entryPoint, loader)
      case Err(e) => Err(e)
      case Ok(f) =>
        match loader.create(f, name, args)
        case Created(p) => Ok(p)
        case ReturnedNull => Err(PluginInitialization(LoadError(entryPoint) + "factory.create returned null plug-in"))
        case Raised(reason, isPie) =>
          if isPie then Err(PluginInitialization(LoadError(entryPoint) + reason))
          else Err(PluginInitialization(LoadError(entryPoint) + "System.Exception in factory.create: " + reason))
  }

  /**
   * A registered factory takes precedence: reflection is never consulted,
   * and the plug-in is what that factory creates.
   */
  lemma RegisteredFactoryWins(factories: map<string, Factory>, name: string, spec: string,
                              loader: Loader, reflect: (string, string) -> ReflectOutcome)
    requires name in factories
    ensures ResolvePlugin(factories, name, spec, loader) == ResolvePlugin(factories, name, spec, loader.(reflect := reflect))
    ensures ParseSpec(name, spec, loader).Ok? ==>
              var args := ParseSpec(name, spec, loader).value.1;
              (ResolvePlugin(factories, name, spec, loader).Ok? <==> loader.create(factories[name], name, args).Created?)
  {
  }

  /** Without a registered factory, a well-formed entry point lacking a separator is refused. */
  lemma UnregisteredNeedsSeparator(factories: map<string, Factory>, name: string, spec: string, loader: Loader)
    requires name !in factories
    requires ParseSpec(name, spec, loader).Ok?
    requires var ep := ParseSpec(name, spec, loader).value.0; ep.Some? && SplitEntryPoint(ep.value).None?
    ensures ResolvePlugin(factories, name, spec, loader)
            == Err(PluginInitialization(LoadError(ParseSpec(name, spec, loader).value.0) + "invalid entry point format"))
  {
  }

  /** A factory that returns no plug-in is an error, whatever the factory. */
  lemma NullPluginIsError(factories: map<string, Factory>, name: string, spec: string, loader: Loader)
    requires ParseSpec(name, spec, loader).Ok?
    requires ChooseFactory(factories, name, ParseSpec(name, spec, loader).value.0, loader).Ok?
    requires loader.create(ChooseFactory(factories, name, ParseSpec(name, spec, loader).value.0, loader).value,
                           name, ParseSpec(name, spec, loader).value.1).ReturnedNull?
    ensures ResolvePlugin(factories, name, spec, loader).Err?
  {
  }

  // ---------------------------------------------------------------- load plans

  /** One call of loadPlugin: the plug-in's name and the specification it is loaded with. */
  datatype Load = Load(name: string, spec: string)

  /** The loadPlugin calls some loop of loadPlugins makes, and the working copy it leaves. */
  datatype Plan = Plan(loads: seq<Load>, rest: map<string, string>)

  /** The specification a resolved configuration gives: the configured one, else the empty one. */
  function SpecOf(resolved: Resolved): (spec: string)
  {
    if resolved.value.Some? then resolved.value.value else ""
  }

  /**
   * The first two loops of loadPlugins over `names`: each name is loaded with
   * what ResolveKey finds in the working copy the names before it left, and
   * the keys ResolveKey consumed leave that copy.
   */
  function ResolveAll(pmap: map<string, string>, names: seq<string>): (r: Plan)
    ensures |r.loads| == |names|
  {
    if names == [] then Plan([], pmap)
    else
      var before := ResolveAll(pmap, names[..|names| - 1]);
      var name := names[|names| - 1];
      var resolved := ResolveKey(before.rest, name);
      Plan(before.loads + [Load(name, SpecOf(resolved))], before.rest - resolved.consumed)
  }

  lemma ResolveAllSnoc(pmap: map<string, string>, names: seq<string>, name: string)
    ensures var before := ResolveAll(pmap, names);
            var resolved := ResolveKey(before.rest, name);
            ResolveAll(pmap, names + [name])
              == Plan(before.loads + [Load(name, SpecOf(resolved))], before.rest - resolved.consumed)
  {
    assert (names + [name])[..|names|] == names;
  }

  /**
   * The i-th load of ResolveAll is the i-th name with the specification
   * ResolveKey finds in the working copy at that point, so the `.clr` key
   * beats the plain key there (ResolveKeySpec); the copy only loses keys.
   */
  lemma {:induction false} ResolveAllLoads(pmap: map<string, string>, names: seq<string>)
    ensures SubMap(ResolveAll(pmap, names).rest, pmap)
    ensures forall i | 0 <= i < |names| ::
              ResolveAll(pmap, names).loads[i]
                == Load(names[i], SpecOf(ResolveKey(ResolveAll(pmap, names[..i]).rest, names[i])))
  {
    if names != [] {
      var front := names[..|names| - 1];
      var last := names[|names| - 1];
      ResolveAllLoads(pmap, front);
      ResolveAllSnoc(pmap, front, last);
      assert names == front + [last];
      var before := ResolveAll(pmap, front);
      var loads := ResolveAll(pmap, names).loads;
      assert loads == before.loads + [Load(last, SpecOf(ResolveKey(before.rest, last)))];
      forall i | 0 <= i < |names|
        ensures loads[i] == Load(names[i], SpecOf(ResolveKey(ResolveAll(pmap, names[..i]).rest, names[i])))
      {
        if i < |front| {
          assert names[..i] == front[..i];
          assert loads[i] == before.loads[i];
        } else {
          assert names[..i] == front;
        }
      }
    }
  }

  /** The loads one step of the last loop of loadPlugins makes: none for an ignored key. */
  function StepLoads(step: EntryStep): (loads: seq<Load>)
  {
    match step
    case Skip(_) => []
    case LoadNamed(name, spec, _) => [Load(name, spec)]
  }

  /**
   * The last loop of loadPlugins when the table yields its keys in the order
   * `keys`: each key, taken from the working copy the keys before it left,
   * is handled by StepEntry.
   */
  function Drain(pmap: map<string, string>, keys: seq<string>): (r: Plan)
    ensures |r.loads| <= |keys|
  {
    if keys == [] then Plan([], pmap)
    else
      var before := Drain(pmap, keys[..|keys| - 1]);
      var key := keys[|keys| - 1];
      if key in before.rest && HasPrefix(key) then
        var step := StepEntry(before.rest, key);
        Plan(before.loads + StepLoads(step), step.rest)
      else before
  }

  /** Every key of `keys` was still in the working copy when it was taken. */
  ghost predicate PicksFrom(pmap: map<string, string>, keys: seq<string>) {
    forall i | 0 <= i < |keys| :: keys[i] in Drain(pmap, keys[..i]).rest
  }

  lemma DrainSnoc(pmap: map<string, string>, keys: seq<string>, key: string)
    requires PicksFrom(pmap, keys)
    requires key in Drain(pmap, keys).rest && HasPrefix(key)
    ensures var before := Drain(pmap, keys);
            var step := StepEntry(before.rest, key);
            && Drain(pmap, keys + [key]) == Plan(before.loads + StepLoads(step), step.rest)
            && PicksFrom(pmap, keys + [key])
  {
    assert (keys + [key])[..|keys|] == keys;
    forall i | 0 <= i < |keys|
      ensures (keys + [key])[..i] == keys[..i]
    {
    }
  }

  /**
   * The whole of loadPlugins: the factories to load on initialization, then
   * the names of the load order, then the remaining keys in the order `picked`.
   */
  function Planned(config: map<string, string>, first: seq<string>, ordered: seq<string>,
                   picked: seq<string>): (r: Plan)
    ensures |r.loads| >= |first| + |ordered|
  {
    var p1 := ResolveAll(config, first);
    var p2 := ResolveAll(p1.rest, ordered);
    var p3 := Drain(p2.rest, picked);
    Plan(p1.loads + p2.loads + p3.loads, p3.rest)
  }

  /** The keys left after the first two loops of loadPlugins were each in the working copy when taken. */
  ghost predicate PlanPicks(config: map<string, string>, first: seq<string>, ordered: seq<string>,
                            picked: seq<string>) {
    PicksFrom(ResolveAll(ResolveAll(config, first).rest, ordered).rest, picked)
  }

  /** `ps` are the plug-ins that making the loadPlugin calls `loads` in order appends. */
  ghost predicate LoadedAs(ps: seq<PluginInfo>, loads: seq<Load>, factories: map<string, Factory>, loader: Loader) {
    && |ps| == |loads|
    && forall i | 0 <= i < |ps| :: LoadedOne(ps[i], loads[i], factories, loader)
  }

  /** `p` is the plug-in that the loadPlugin call `load` appends. */
  ghost predicate LoadedOne(p: PluginInfo, load: Load, factories: map<string, Factory>, loader: Loader) {
    p.name == load.name && ResolvePlugin(factories, load.name, load.spec, loader) == Ok(p.plugin)
  }

  lemma LoadedAsSnoc(ps: seq<PluginInfo>, loads: seq<Load>, factories: map<string, Factory>, loader: Loader,
                     load: Load, p: Plugin)
    requires LoadedAs(ps, loads, factories, loader)
    requires ResolvePlugin(factories, load.name, load.spec, loader) == Ok(p)
    ensures LoadedAs(ps + [PluginInfo(load.name, p)], loads + [load], factories, loader)
  {
    var ps' := ps + [PluginInfo(load.name, p)];
    var loads' := loads + [load];
    forall i | 0 <= i < |ps'|
      ensures LoadedOne(ps'[i], loads'[i], factories, loader)
    {
      if i < |ps| {
        assert ps'[i] == ps[i] && loads'[i] == loads[i];
      }
    }
  }
}
