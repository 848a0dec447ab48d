/** The plugin agent: a wrapper around one dynamically loaded plugin library. It holds a
    library handle, three entry points (get-info, create, release), the plugin object
    that `create` returned, and the agent's category. The dynamic loader and the
    plugin's own functions are foreign calls, so what they hand back is an input
    (`LoadOutcome`), and what the agent does to native resources is reported as a log
    of `Effect`s instead of being performed. */
module PluginAgent {
  import opened PluginDef

  /** Identities of native resources: a library handle, a resolved symbol, a plugin object. */
  type Handle = nat
  type Symbol = nat

  /** The descriptive record a plugin's get-info entry point returns. */
  datatype PluginInfo = PluginInfo(author: string, name: string, description: string, version: int)

  /** What the foreign calls of one `Open` return: `dlopen`, the three `dlsym` lookups in
      the order the agent makes them, and the plugin's create function. */
  datatype LoadOutcome = LoadOutcome(
    handle: Option<Handle>,
    getInfoSym: Option<Symbol>,
    createSym: Option<Symbol>,
    releaseSym: Option<Symbol>,
    created: Option<Instance>)

  /** The agent's slots; `Null` is a null pointer. */
  datatype Agent = Agent(
    kind: PluginType,
    handle: Option<Handle>,
    create: Option<Symbol>,
    release: Option<Symbol>,
    getInfo: Option<Symbol>,
    plugin: Option<Instance>)

  /** A native side effect: a library attached or detached, a plugin object created or
      handed to the release entry point (possibly as a null pointer). */
  datatype Effect =
    | Loaded(h: Handle)
    | Created(fn: Symbol, obj: Instance)
    | Released(fn: Symbol, arg: Option<Instance>)
    | Unloaded(h: Handle)

  datatype Opened = Opened(code: ErrorCode, agent: Agent, effects: seq<Effect>)

  datatype Closed = Closed(agent: Agent, effects: seq<Effect>)

  /** All native slots null. */
  predicate Blank(a: Agent)
  {
    a.handle.Null? && a.create.Null? && a.release.Null? && a.getInfo.Null? && a.plugin.Null?
  }

  /** Plugin objects created minus plugin objects released, over a log. */
  function LiveInstances(fx: seq<Effect>): int
  {
    if fx == [] then 0
    else
      var d := match fx[0]
        case Created(_, _) => 1
        case Released(_, arg) => if arg.Some? then -1 else 0
        case _ => 0;
      d + LiveInstances(fx[1..])
  }

  /** Libraries attached minus libraries detached, over a log. */
  function LiveHandles(fx: seq<Effect>): int
  {
    if fx == [] then 0
    else
      var d := match fx[0]
        case Loaded(_) => 1
        case Unloaded(_) => -1
        case _ => 0;
      d + LiveHandles(fx[1..])
  }

  /** Both counters are additive over a concatenation of logs. */
  lemma {:induction false} CountersAdd(f: seq<Effect>, g: seq<Effect>)
    ensures LiveInstances(f + g) == LiveInstances(f) + LiveInstances(g)
    ensures LiveHandles(f + g) == LiveHandles(f) + LiveHandles(g)
  {
    if f != [] {
      assert (f + g)[0] == f[0];
      assert (f + g)[1..] == f[1..] + g;
      CountersAdd(f[1..], g);
    } else {
      assert f + g == g;
    }
  }

  /** The constructor: the given category, every native slot null. */
  function NewAgent(t: PluginType): (a: Agent)
    ensures Blank(a) && GetType(a) == t
  {
    Agent(t, Null, Null, Null, Null, Null)
  }

  function GetType(a: Agent): PluginType
  {
    a.kind
  }

  /** `Open` as written: each step stores its result in its slot before testing it, a
      failure returns at once without undoing the earlier steps, and the test that
      follows the release lookup checks the create entry point again. */
  function Open(a: Agent, env: LoadOutcome): (r: Opened)
    ensures r.code == Ok <==>
      env.handle.Some? && env.getInfoSym.Some? && env.createSym.Some? && env.created.Some?
    ensures r.agent.kind == a.kind
    ensures r.agent.handle == env.handle
    ensures env.handle.Null? ==> r.agent == a.(handle := Null)
    ensures env.handle.Some? && env.getInfoSym.Null? ==>
      r.agent == a.(handle := env.handle, getInfo := Null)
    ensures env.handle.Some? && env.getInfoSym.Some? && env.createSym.Null? ==>
      r.agent == a.(handle := env.handle, getInfo := env.getInfoSym, create := Null)
    ensures env.handle.Some? && env.getInfoSym.Some? && env.createSym.Some? ==>
      r.agent == a.(handle := env.handle, getInfo := env.getInfoSym, create := env.createSym,
                    release := env.releaseSym, plugin := env.created)
    ensures r.effects ==
      (if env.handle.Some? then [Loaded(env.handle.value)] else []) +
      (if r.code == Ok then [Created(env.createSym.value, env.created.value)] else [])
    ensures LiveHandles(r.effects) == (if env.handle.Some? then 1 else 0)
    ensures LiveInstances(r.effects) == (if r.code == Ok then 1 else 0)
  {
    var a0 := a.(handle := env.handle);
    if a0.handle.Null? then Opened(MgrBadFormat, a0, [])
    else
      var fx := [Loaded(a0.handle.value)];
      assert fx[1..] == [];
      var a1 := a0.(getInfo := env.getInfoSym);
      if a1.getInfo.Null? then Opened(MgrBadFormat, a1, fx)
      else
        var a2 := a1.(create := env.createSym);
        if a2.create.Null? then Opened(MgrBadFormat, a2, fx)
        else
          var a3 := a2.(release := env.releaseSym);
          // the create slot is tested here a second time; it is non-null, so this
          // branch never returns and an unresolved release symbol goes unnoticed
          if a3.create.Null? then Opened(MgrBadFormat, a3, fx)
          else
            var a4 := a3.(plugin := env.created);
            if a4.plugin.Null? then Opened(MgrBadFormat, a4, fx)
            else
              var made := [Created(a4.create.value, a4.plugin.value)];
              assert made[1..] == [];
              CountersAdd(fx, made);
              Opened(Ok, a4, fx + made)
  }

  /** `Open` with the test after the release lookup applied to the release entry point,
      as the surrounding checks evidently intend. */
  function OpenChecked(a: Agent, env: LoadOutcome): (r: Opened)
    ensures r.code == Ok <==>
      env.handle.Some? && env.getInfoSym.Some? && env.createSym.Some? &&
      env.releaseSym.Some? && env.created.Some?
    ensures r.code == Ok ==> r.agent.release.Some? && r.agent.plugin == env.created
    ensures r.agent.kind == a.kind && r.agent.handle == env.handle
    ensures env.handle.Some? && env.getInfoSym.Some? && env.createSym.Some? && env.releaseSym.Null? ==>
      r.agent == a.(handle := env.handle, getInfo := env.getInfoSym, create := env.createSym,
                    release := Null)
    ensures LiveHandles(r.effects) == (if env.handle.Some? then 1 else 0)
    ensures LiveInstances(r.effects) == (if r.code == Ok then 1 else 0)
  {
    var a0 := a.(handle := env.handle);
    if a0.handle.Null? then Opened(MgrBadFormat, a0, [])
    else
      var fx := [Loaded(a0.handle.value)];
      assert fx[1..] == [];
      var a1 := a0.(getInfo := env.getInfoSym);
      if a1.getInfo.Null? then Opened(MgrBadFormat, a1, fx)
      else
        var a2 := a1.(create := env.createSym);
        if a2.create.Null? then Opened(MgrBadFormat, a2, fx)
        else
          var a3 := a2.(release := env.releaseSym);
          if a3.release.Null? then Opened(MgrBadFormat, a3, fx)
          else
            var a4 := a3.(plugin := env.created);
            if a4.plugin.Null? then Opened(MgrBadFormat, a4, fx)
            else
              var made := [Created(a4.create.value, a4.plugin.value)];
              assert made[1..] == [];
              CountersAdd(fx, made);
              Opened(Ok, a4, fx + made)
  }

  /** `Close`: hands the plugin slot to the release entry point and clears the entry points
      and the plugin only when release is bound; detaches a held library; always resets
      the category to `None`. */
  function Close(a: Agent): (r: Closed)
    ensures r.agent.handle.Null? && r.agent.kind == None
    ensures a.release.Some? ==>
      r.agent.create.Null? && r.agent.release.Null? && r.agent.getInfo.Null? && r.agent.plugin.Null?
    ensures a.release.Null? ==>
      r.agent.create == a.create && r.agent.getInfo == a.getInfo && r.agent.plugin == a.plugin &&
      r.agent.release.Null?
    ensures forall i :: 0 <= i < |r.effects| && r.effects[i].Released? ==>
      i == 0 && a.release == Some(r.effects[i].fn) && r.effects[i].arg == a.plugin
    ensures (exists i :: 0 <= i < |r.effects| && r.effects[i].Released?) <==> a.release.Some?
    ensures forall h: Handle :: Unloaded(h) in r.effects <==> a.handle == Some(h)
    ensures |r.effects| == (if a.release.Some? then 1 else 0) + (if a.handle.Some? then 1 else 0)
    ensures LiveHandles(r.effects) == (if a.handle.Some? then -1 else 0)
    ensures LiveInstances(r.effects) == (if a.release.Some? && a.plugin.Some? then -1 else 0)
  {
    var released :=
      if a.release.Some? then [Released(a.release.value, a.plugin)] else [];
    var a1 :=
      if a.release.Some? then a.(create := Null, release := Null, getInfo := Null, plugin := Null)
      else a;
    var unloaded := if a1.handle.Some? then [Unloaded(a1.handle.value)] else [];
    assert released != [] ==> released[1..] == [];
    assert unloaded != [] ==> unloaded[1..] == [];
    CountersAdd(released, unloaded);
    Closed(a1.(handle := Null, kind := None), released + unloaded)
  }

  /** The get-info entry point's result, or null when that entry point is unbound;
      `infoOf` is what each bound entry point returns, which may itself be null. */
  function GetInfo(a: Agent, infoOf: Symbol -> Option<PluginInfo>): (r: Option<PluginInfo>)
    ensures a.getInfo.Null? ==> r.Null?
    ensures a.getInfo.Some? ==> r == infoOf(a.getInfo.value)
  {
    if a.getInfo.Some? then infoOf(a.getInfo.value) else Null
  }

  /** `GetVpPlugin` and `GetPlugin`: the plugin slot as it stands. */
  function GetPlugin(a: Agent): Option<Instance>
  {
    a.plugin
  }

  /** A second `Close` neither releases nor detaches anything and changes nothing. */
  lemma CloseIdempotent(a: Agent)
    ensures Close(Close(a).agent) == Closed(Close(a).agent, [])
  {
  }

  /** Whatever the loader returns, `Open` reports the same code with or without a release
      symbol: a missing release entry point never makes `Open` fail. */
  lemma OpenIgnoresReleaseSymbol(a: Agent, env: LoadOutcome, rel: Option<Symbol>)
    ensures Open(a, env).code == Open(a, env.(releaseSym := rel)).code
  {
  }

  /** The plugin slot over a lifecycle: after a successful `Open` it holds the created
      object; after `Close` it is null exactly when release was bound. */
  lemma PluginSlotLifecycle(a: Agent, env: LoadOutcome)
    ensures Open(a, env).code == Ok ==> GetPlugin(Open(a, env).agent) == env.created
    ensures Open(a, env).code == Ok ==>
      (GetPlugin(Close(Open(a, env).agent).agent).Null? <==> env.releaseSym.Some?)
    ensures GetType(Close(Open(a, env).agent).agent) == None
  {
  }

  /** Open-then-close from a fresh agent, as written: the library is always detached
      again, but the plugin object outlives `Close` exactly when `Open` succeeded without
      a release symbol. */
  lemma OpenCloseAccounting(t: PluginType, env: LoadOutcome)
    ensures var o := Open(NewAgent(t), env);
      var c := Close(o.agent);
      LiveHandles(o.effects + c.effects) == 0 &&
      LiveInstances(o.effects + c.effects) ==
        (if o.code == Ok && env.releaseSym.Null? then 1 else 0)
  {
  }

  /** A library without a create symbol: after the failed `Open` and a `Close`, the
      library is detached but the get-info entry point stays bound, so a later `GetInfo`
      calls into a detached library. */
  lemma GetInfoDanglesAfterFailedOpen(infoOf: Symbol -> Option<PluginInfo>)
    ensures var o := Open(NewAgent(Decoder), LoadOutcome(Some(1), Some(2), Null, Null, Null));
      var c := Close(o.agent);
      o.code == MgrBadFormat && c.effects == [Unloaded(1)] &&
      c.agent.handle.Null? && c.agent.getInfo == Some(2) && GetInfo(c.agent, infoOf) == infoOf(2)
  {
  }

  /** A library whose release symbol is missing: `Open` succeeds and the plugin object it
      created is never released by `Close`. */
  lemma OpenLeaksWithoutRelease()
    ensures var env := LoadOutcome(Some(1), Some(2), Some(3), Null, Some(4));
      var o := Open(NewAgent(Decoder), env);
      var c := Close(o.agent);
      o.code == Ok && o.agent.release.Null? &&
      c.agent.plugin == Some(4) && LiveInstances(o.effects + c.effects) == 1
  {
  }

  /** With the corrected test, open-then-close from a fresh agent leaves no library
      attached and no plugin object alive, whatever the loader returns. */
  lemma OpenCheckedCloseBalanced(t: PluginType, env: LoadOutcome)
    ensures var o := OpenChecked(NewAgent(t), env);
      var c := Close(o.agent);
      LiveHandles(o.effects + c.effects) == 0 && LiveInstances(o.effects + c.effects) == 0
  {
  }
}
