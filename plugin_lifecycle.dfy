/**
 * The calls the plug-in manager makes on its plug-ins: initialization in
 * load order, the rollback that destroys the already initialized plug-ins
 * in reverse order when one fails, and destruction in reverse order.
 */
module PluginLifecycle {
  import opened Wrappers
  import opened PluginConfig

  /** One call on a plug-in object. */
  datatype PluginCall = Initialize(plugin: Plugin) | Destroy(plugin: Plugin)

  /** What a plug-in's initialize call did. */
  datatype InitOutcome =
    | InitOk
    | InitRaised(reason: string, isPluginInitialization: bool)

  function Plugins(ps: seq<PluginInfo>): (r: seq<Plugin>)
    ensures |r| == |ps|
  {
    if ps == [] then [] else [ps[0].plugin] + Plugins(ps[1..])
  }

  function Reverse<T>(s: seq<T>): (r: seq<T>)
    ensures |r| == |s|
  {
    if s == [] then [] else Reverse(s[1..]) + [s[0]]
  }

  lemma {:induction false} ReverseAt<T>(s: seq<T>, i: int)
    requires 0 <= i < |s|
    ensures Reverse(s)[i] == s[|s| - 1 - i]
    decreases |s|
  {
    if i < |s| - 1 {
      ReverseAt(s[1..], i);
    }
  }

  function InitCalls(ps: seq<Plugin>): (r: seq<PluginCall>)
    ensures |r| == |ps|
  {
    if ps == [] then [] else [Initialize(ps[0])] + InitCalls(ps[1..])
  }

  function DestroyCalls(ps: seq<Plugin>): (r: seq<PluginCall>)
    ensures |r| == |ps|
  {
    if ps == [] then [] else [Destroy(ps[0])] + DestroyCalls(ps[1..])
  }

  lemma {:induction false} PluginsAt(ps: seq<PluginInfo>, i: int)
    requires 0 <= i < |ps|
    ensures Plugins(ps)[i] == ps[i].plugin
  {
    if i > 0 {
      PluginsAt(ps[1..], i - 1);
    }
  }

  lemma {:induction false} CallsAt(ps: seq<Plugin>, i: int)
    requires 0 <= i < |ps|
    ensures InitCalls(ps)[i] == Initialize(ps[i])
    ensures DestroyCalls(ps)[i] == Destroy(ps[i])
  {
    if i > 0 {
      CallsAt(ps[1..], i - 1);
    }
  }

  /** The index of the first plug-in whose initialize fails, or |ps| when none does. */
  function FirstFailure(ps: seq<PluginInfo>, initialize: Plugin -> InitOutcome): (k: nat)
    ensures k <= |ps|
    ensures forall i | 0 <= i < k :: initialize(ps[i].plugin).InitOk?
    ensures k < |ps| ==> initialize(ps[k].plugin).InitRaised?
  {
    if ps == [] then 0
    else if initialize(ps[0].plugin).InitRaised? then 0
    else 1 + FirstFailure(ps[1..], initialize)
  }

  /** A plug-in's own PluginInitializationException passes through; any other failure is wrapped. */
  function InitError(p: PluginInfo, outcome: InitOutcome): (r: PluginError)
    requires outcome.InitRaised?
  {
    if outcome.isPluginInitialization then PluginInitialization(outcome.reason)
    else PluginInitialization("plugin `" + p.name + "' initialization failed")
  }

  /** The calls initializePlugins makes: every initialize, or the failed prefix and its rollback. */
  function InitializeTrace(ps: seq<PluginInfo>, initialize: Plugin -> InitOutcome): (r: seq<PluginCall>) {
    var k := FirstFailure(ps, initialize);
    var ok := Plugins(ps[..k]);
    if k == |ps| then InitCalls(ok)
    else InitCalls(ok) + [Initialize(ps[k].plugin)] + DestroyCalls(Reverse(ok))
  }

  /** The failure of a second initializePlugins. */
  function AlreadyInitialized(): (r: PluginError) {
    Initialization("plug-ins already initialized")
  }

  /** A scan that initialized the first i plug-ins and stops at i has found the first failure. */
  lemma StopsAtFirstFailure(ps: seq<PluginInfo>, initialize: Plugin -> InitOutcome, i: nat)
    requires i <= |ps|
    requires forall j | 0 <= j < i :: initialize(ps[j].plugin).InitOk?
    requires i < |ps| ==> initialize(ps[i].plugin).InitRaised?
    ensures FirstFailure(ps, initialize) == i
  {
  }

  /** The calls destroy makes on an initialized manager: over the list reversed. */
  function DestroyTrace(ps: seq<PluginInfo>): (r: seq<PluginCall>) {
    DestroyCalls(Plugins(Reverse(ps)))
  }

  /** The text logged when a plug-in's destroy raises. */
  function DestructionWarning(name: string, reason: string): (r: string) {
    "unexpected exception raised by plug-in `" + name + "' destruction:\n" + reason
  }

  /** The warning logged for one plug-in's destroy, if it raised. */
  function Warning(p: PluginInfo, destroy: Plugin -> Option<string>): (r: seq<string>) {
    match destroy(p.plugin)
    case None => []
    case Some(reason) => [DestructionWarning(p.name, reason)]
  }

  function Warnings(rs: seq<PluginInfo>, destroy: Plugin -> Option<string>): (r: seq<string>) {
    if rs == [] then [] else Warnings(rs[..|rs| - 1], destroy) + Warning(rs[|rs| - 1], destroy)
  }

  lemma {:induction false} CallsSnoc(ps: seq<Plugin>, x: Plugin)
    ensures InitCalls(ps + [x]) == InitCalls(ps) + [Initialize(x)]
    ensures DestroyCalls(ps + [x]) == DestroyCalls(ps) + [Destroy(x)]
  {
    if ps != [] {
      assert (ps + [x])[1..] == ps[1..] + [x];
      CallsSnoc(ps[1..], x);
    }
  }

  lemma {:induction false} PluginsSnoc(rs: seq<PluginInfo>, p: PluginInfo)
    ensures Plugins(rs + [p]) == Plugins(rs) + [p.plugin]
  {
    if rs != [] {
      assert (rs + [p])[1..] == rs[1..] + [p];
      PluginsSnoc(rs[1..], p);
    }
  }

  lemma WarningsSnoc(rs: seq<PluginInfo>, p: PluginInfo, destroy: Plugin -> Option<string>)
    ensures Warnings(rs + [p], destroy) == Warnings(rs, destroy) + Warning(p, destroy)
  {
    assert (rs + [p])[..|rs|] == rs;
  }

  /** One more plug-in initialized: one more Initialize call at the end. */
  lemma InitStep(ps: seq<PluginInfo>, i: nat)
    requires i < |ps|
    ensures Plugins(ps[..i + 1]) == Plugins(ps[..i]) + [ps[i].plugin]
    ensures InitCalls(Plugins(ps[..i + 1])) == InitCalls(Plugins(ps[..i])) + [Initialize(ps[i].plugin)]
  {
    assert ps[..i + 1] == ps[..i] + [ps[i]];
    PluginsSnoc(ps[..i], ps[i]);
    CallsSnoc(Plugins(ps[..i]), ps[i].plugin);
  }

  /** One more plug-in destroyed: one more Destroy call, and its warning if any, at the end. */
  lemma DestroyStep(rs: seq<PluginInfo>, j: nat, destroy: Plugin -> Option<string>)
    requires j < |rs|
    ensures DestroyCalls(Plugins(rs[..j + 1])) == DestroyCalls(Plugins(rs[..j])) + [Destroy(rs[j].plugin)]
    ensures Warnings(rs[..j + 1], destroy) == Warnings(rs[..j], destroy) + Warning(rs[j], destroy)
  {
    assert rs[..j + 1] == rs[..j] + [rs[j]];
    PluginsSnoc(rs[..j], rs[j]);
    CallsSnoc(Plugins(rs[..j]), rs[j].plugin);
    WarningsSnoc(rs[..j], rs[j], destroy);
  }

  /** One more plug-in rolled back: one more Destroy call at the end. */
  lemma RollBackStep(ps: seq<Plugin>, j: nat)
    requires j < |ps|
    ensures DestroyCalls(ps[..j + 1]) == DestroyCalls(ps[..j]) + [Destroy(ps[j])]
  {
    assert ps[..j + 1] == ps[..j] + [ps[j]];
    CallsSnoc(ps[..j], ps[j]);
  }

  /** The warnings destroy logs, one per plug-in whose destroy raised, in destruction order. */
  function DestroyWarnings(ps: seq<PluginInfo>, destroy: Plugin -> Option<string>): (r: seq<string>) {
    Warnings(Reverse(ps), destroy)
  }

  /** When every plug-in initializes, each is initialized once, in load order, and none is destroyed. */
  lemma InitializeAllInOrder(ps: seq<PluginInfo>, initialize: Plugin -> InitOutcome)
    requires FirstFailure(ps, initialize) == |ps|
    ensures var t := InitializeTrace(ps, initialize);
            |t| == |ps| && forall i | 0 <= i < |ps| :: t[i] == Initialize(ps[i].plugin)
  {
    assert ps[..|ps|] == ps;
    var t := InitializeTrace(ps, initialize);
    forall i | 0 <= i < |ps|
      ensures t[i] == Initialize(ps[i].plugin)
    {
      PluginsAt(ps, i);
      CallsAt(Plugins(ps), i);
    }
  }

  /**
   * When the k-th plug-in fails, the trace nests: the plug-ins before it are
   * initialized in load order, the failing one is initialized, and then each
   * earlier plug-in is destroyed in the reverse order, so the i-th initialize
   * is undone by the (2k - i)-th call.  The failing plug-in is not destroyed.
   */
  lemma {:induction false} RollbackNests(ps: seq<PluginInfo>, initialize: Plugin -> InitOutcome)
    requires FirstFailure(ps, initialize) < |ps|
    ensures var k := FirstFailure(ps, initialize);
            var t := InitializeTrace(ps, initialize);
            && |t| == 2 * k + 1
            && t[k] == Initialize(ps[k].plugin)
            && forall i | 0 <= i < k :: t[i] == Initialize(ps[i].plugin) && t[2 * k - i] == Destroy(ps[i].plugin)
  {
    var k := FirstFailure(ps, initialize);
    var ok := Plugins(ps[..k]);
    var t := InitializeTrace(ps, initialize);
    forall i | 0 <= i < k
      ensures t[i] == Initialize(ps[i].plugin) && t[2 * k - i] == Destroy(ps[i].plugin)
    {
      PluginsAt(ps[..k], i);
      CallsAt(ok, i);
      ReverseAt(ok, k - 1 - i);
      CallsAt(Reverse(ok), k - 1 - i);
      assert t[2 * k - i] == DestroyCalls(Reverse(ok))[k - 1 - i];
    }
  }

  /** destroy destroys every plug-in once, last loaded first. */
  lemma DestroyInReverse(ps: seq<PluginInfo>)
    ensures |DestroyTrace(ps)| == |ps|
    ensures forall i | 0 <= i < |ps| :: DestroyTrace(ps)[i] == Destroy(ps[|ps| - 1 - i].plugin)
  {
    forall i | 0 <= i < |ps|
      ensures DestroyTrace(ps)[i] == Destroy(ps[|ps| - 1 - i].plugin)
    {
      ReverseAt(ps, i);
      PluginsAt(Reverse(ps), i);
      CallsAt(Plugins(Reverse(ps)), i);
    }
  }

  lemma {:induction false} WarningsCount(rs: seq<PluginInfo>, destroy: Plugin -> Option<string>)
    ensures |Warnings(rs, destroy)| <= |rs|
    ensures (forall i | 0 <= i < |rs| :: destroy(rs[i].plugin).None?) ==> Warnings(rs, destroy) == []
    ensures (forall i | 0 <= i < |rs| :: destroy(rs[i].plugin).Some?) ==> |Warnings(rs, destroy)| == |rs|
  {
    if rs != [] {
      var front := rs[..|rs| - 1];
      assert forall i | 0 <= i < |front| :: front[i] == rs[i];
      WarningsCount(front, destroy);
    }
  }

  /** At most one warning per plug-in; none when no destroy raises; one each when all raise. */
  lemma DestroyWarningsCount(ps: seq<PluginInfo>, destroy: Plugin -> Option<string>)
    ensures |DestroyWarnings(ps, destroy)| <= |ps|
    ensures (forall i | 0 <= i < |ps| :: destroy(ps[i].plugin).None?) ==> DestroyWarnings(ps, destroy) == []
    ensures (forall i | 0 <= i < |ps| :: destroy(ps[i].plugin).Some?) ==> |DestroyWarnings(ps, destroy)| == |ps|
  {
    var rs := Reverse(ps);
    forall i | 0 <= i < |rs|
      ensures rs[i] == ps[|ps| - 1 - i]
    {
      ReverseAt(ps, i);
    }
    WarningsCount(rs, destroy);
  }
}
