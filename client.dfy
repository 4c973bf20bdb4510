/**
 * The bot client's registry and publisher (src/structures/client.ts):
 * loading command, context-menu and event plugins into keyed collections,
 * and splitting the slash commands and context menus into a developer-guild
 * scope and a global scope when they are published.
 */
module Client {
  import opened Wrappers
  import Cooldown

  /** An entry of a command's parameter schema; passed through unchanged. */
  datatype OptionSchema = OptionSchema(name: string, description: string)

  /** `CommandData`; `execute` stands for the plugin's function, by identity. */
  datatype CommandData = CommandData(
    name: string,
    description: string,
    usage: string,
    category: string,
    cooldown: int,
    aliases: seq<string>,
    memberPerms: Option<seq<string>>,
    clientPerms: Option<seq<string>>,
    slash: bool,
    maintanence: bool,
    options: seq<OptionSchema>,
    execute: string)

  /** `ApplicationCommandType` of a context menu. */
  datatype ContextType = UserContext | MessageContext

  /** `ContextData`; an absent `maintanence` is `false`. */
  datatype ContextData = ContextData(
    name: string,
    description: string,
    kind: ContextType,
    cooldown: int,
    enabled: bool,
    ephemeral: bool,
    maintanence: bool,
    execute: string)

  /** `EventData`; `execute` is absent when the plugin exports none. */
  datatype EventData = EventData(name: string, once: bool, execute: Option<string>)

  /** An imported plugin file and its default export, if any. */
  datatype Module<T> = Module(file: string, default: Option<T>)

  /** A handler bound with `this.on(name, execute.bind(null, this))`. */
  datatype Listener = Listener(event: string, execute: string)

  datatype LogLine = Info(text: string) | Warn(text: string) | Success(text: string) | Error(text: string)

  function CommandName(c: CommandData): string { c.name }
  function ContextName(c: ContextData): string { c.name }

  /**
   * A `Collection`: a map that remembers insertion order. Setting an existing
   * key replaces its value and keeps its position.
   */
  datatype Collection<V> = Collection(keys: seq<string>, entries: map<string, V>)
  {
    ghost predicate Valid() {
      && (forall i, j :: 0 <= i < j < |keys| ==> keys[i] != keys[j])
      && (forall k :: k in entries <==> k in keys)
    }

    function Get(k: string): (r: Option<V>)
      ensures r.Some? <==> k in entries
      ensures r.Some? ==> r.value == entries[k]
    {
      if k in entries then Some(entries[k]) else None
    }

    function Set(k: string, v: V): (c: Collection<V>)
      ensures Valid() ==> c.Valid()
      ensures c.entries == entries[k := v]
      ensures k in entries ==> c.keys == keys
      ensures k !in entries ==> c.keys == keys + [k]
    {
      if k in entries then Collection(keys, entries[k := v]) else Collection(keys + [k], entries[k := v])
    }

    /** `values()`, in insertion order. */
    function Values(): (vs: seq<V>)
      requires Valid()
      ensures |vs| == |keys|
      ensures forall i :: 0 <= i < |keys| ==> vs[i] == entries[keys[i]]
    {
      seq(|keys|, i requires 0 <= i < |keys| => entries[keys[i]])
    }
  }

  function EmptyCollection<V>(): (c: Collection<V>)
    ensures c.Valid() && c.entries == map[]
  {
    Collection([], map[])
  }

  /** The validity test of `loadCommands`/`loadContexts`: a default export with a non-empty name. */
  predicate Accepted<T>(m: Module<T>, nameOf: T -> string) {
    m.default.Some? && nameOf(m.default.value) != ""
  }

  /** Module `m` is accepted and registers under `k`. */
  predicate Declares<T>(m: Module<T>, nameOf: T -> string, k: string) {
    Accepted(m, nameOf) && nameOf(m.default.value) == k
  }

  /** The collection after the modules have completed loading in the given order. */
  function LoadAll<T>(c: Collection<T>, mods: seq<Module<T>>, nameOf: T -> string): Collection<T>
    decreases |mods|
  {
    if mods == [] then c
    else
      var before := LoadAll(c, mods[..|mods| - 1], nameOf);
      var m := mods[|mods| - 1];
      if Accepted(m, nameOf) then before.Set(nameOf(m.default.value), m.default.value) else before
  }

  /** Loading keeps the collection well formed and keeps earlier keys in place. */
  lemma {:induction false} LoadAllKeepsOrder<T>(c: Collection<T>, mods: seq<Module<T>>, nameOf: T -> string)
    requires c.Valid()
    ensures LoadAll(c, mods, nameOf).Valid()
    ensures |c.keys| <= |LoadAll(c, mods, nameOf).keys|
    ensures LoadAll(c, mods, nameOf).keys[..|c.keys|] == c.keys
    decreases |mods|
  {
    if mods != [] {
      LoadAllKeepsOrder(c, mods[..|mods| - 1], nameOf);
    }
  }

  /** A key is registered iff it was before or some accepted module declares it. */
  lemma {:induction false} LoadAllKeys<T>(c: Collection<T>, mods: seq<Module<T>>, nameOf: T -> string, k: string)
    ensures k in LoadAll(c, mods, nameOf).entries <==>
              k in c.entries || exists i :: 0 <= i < |mods| && Declares(mods[i], nameOf, k)
    decreases |mods|
  {
    if mods != [] {
      var init := mods[..|mods| - 1];
      LoadAllKeys(c, init, nameOf, k);
      if exists i :: 0 <= i < |init| && Declares(init[i], nameOf, k) {
        var i :| 0 <= i < |init| && Declares(init[i], nameOf, k);
        assert mods[i] == init[i];
      }
      if exists i :: 0 <= i < |mods| && Declares(mods[i], nameOf, k) {
        var i :| 0 <= i < |mods| && Declares(mods[i], nameOf, k);
        if i < |init| { assert init[i] == mods[i]; }
      }
    }
  }

  /** The last accepted module declaring `k` wins. */
  lemma {:induction false} LoadAllLastWins<T>(c: Collection<T>, mods: seq<Module<T>>, nameOf: T -> string, k: string, i: nat)
    requires i < |mods| && Declares(mods[i], nameOf, k)
    requires forall j :: i < j < |mods| ==> !Declares(mods[j], nameOf, k)
    ensures k in LoadAll(c, mods, nameOf).entries
    ensures LoadAll(c, mods, nameOf).entries[k] == mods[i].default.value
    decreases |mods|
  {
    var init := mods[..|mods| - 1];
    var m := mods[|mods| - 1];
    if i < |mods| - 1 {
      assert init[i] == mods[i];
      forall j | i < j < |init| ensures !Declares(init[j], nameOf, k) { assert init[j] == mods[j]; }
      LoadAllLastWins(c, init, nameOf, k, i);
      assert !Declares(m, nameOf, k);
    }
  }

  /** With no accepted module declaring `k`, its earlier value stays. */
  lemma {:induction false} LoadAllKeepsUndeclared<T>(c: Collection<T>, mods: seq<Module<T>>, nameOf: T -> string, k: string)
    requires k in c.entries
    requires forall i :: 0 <= i < |mods| ==> !Declares(mods[i], nameOf, k)
    ensures k in LoadAll(c, mods, nameOf).entries
    ensures LoadAll(c, mods, nameOf).entries[k] == c.entries[k]
    decreases |mods|
  {
    if mods != [] {
      var init := mods[..|mods| - 1];
      forall j | 0 <= j < |init| ensures !Declares(init[j], nameOf, k) { assert init[j] == mods[j]; }
      LoadAllKeepsUndeclared(c, init, nameOf, k);
      assert !Declares(mods[|mods| - 1], nameOf, k);
    }
  }

  /** The warnings `loadCommands` logs, in completion order. */
  function CommandLoadLog(mods: seq<Module<CommandData>>): (log: seq<LogLine>)
    ensures |log| == |mods|
    decreases |mods|
  {
    if mods == [] then []
    else
      var m := mods[|mods| - 1];
      CommandLoadLog(mods[..|mods| - 1])
        + [if Accepted(m, CommandName) then Success("Loaded command: " + m.default.value.name)
           else Warn("Invalid command file: " + m.file)]
  }

  /** The warnings `loadContexts` logs: one per rejected module. */
  function ContextLoadLog(mods: seq<Module<ContextData>>): (log: seq<LogLine>)
    ensures |log| <= |mods|
    decreases |mods|
  {
    if mods == [] then []
    else
      var m := mods[|mods| - 1];
      ContextLoadLog(mods[..|mods| - 1])
        + (if Accepted(m, ContextName) then [] else [Warn("Invalid context file: " + m.file)])
  }

  /** The validity test of `loadContexts`. */
  predicate ContextAccepted(m: Module<ContextData>) {
    Accepted(m, ContextName)
  }

  /** `loadContexts` logs one warning per rejected module and none for an accepted one. */
  lemma {:induction false} ContextLoadLogCount(mods: seq<Module<ContextData>>)
    ensures |ContextLoadLog(mods)| + |FilterSeq(mods, ContextAccepted)| == |mods|
    decreases |mods|
  {
    if mods != [] {
      var init := mods[..|mods| - 1];
      var last := mods[|mods| - 1];
      ContextLoadLogCount(init);
      assert mods == init + [last];
      FilterConcat(init, [last], ContextAccepted);
      assert FilterSeq([last], ContextAccepted) == (if ContextAccepted(last) then [last] else []) by {
        assert [last][1..] == [];
      }
    }
  }

  /** The validity test of `loadEvents`: a default export with a name and an `execute`. */
  predicate EventAccepted(m: Module<EventData>) {
    m.default.Some? && m.default.value.name != "" && m.default.value.execute.Some?
  }

  /** The listeners `loadEvents` binds, in completion order; `once` is not consulted. */
  function EventListeners(mods: seq<Module<EventData>>): (ls: seq<Listener>)
    ensures |ls| <= |mods|
    decreases |mods|
  {
    if mods == [] then []
    else
      var m := mods[|mods| - 1];
      EventListeners(mods[..|mods| - 1])
        + (if EventAccepted(m) then [Listener(m.default.value.name, m.default.value.execute.value)] else [])
  }

  /** Every accepted event module binds one listener, and a rejected one binds none. */
  lemma {:induction false} EventListenersCount(mods: seq<Module<EventData>>)
    ensures |EventListeners(mods)| == |FilterSeq(mods, EventAccepted)|
    decreases |mods|
  {
    if mods != [] {
      var init := mods[..|mods| - 1];
      var last := mods[|mods| - 1];
      EventListenersCount(init);
      assert mods == init + [last];
      FilterConcat(init, [last], EventAccepted);
      assert FilterSeq([last], EventAccepted) == (if EventAccepted(last) then [last] else []) by {
        assert [last][1..] == [];
      }
    }
  }

  /** The listeners bound are exactly those of the accepted modules, each for the module's own name. */
  lemma {:induction false} EventListenersExact(mods: seq<Module<EventData>>)
    ensures forall l :: l in EventListeners(mods) <==>
              exists i :: 0 <= i < |mods| && EventAccepted(mods[i])
                && l == Listener(mods[i].default.value.name, mods[i].default.value.execute.value)
    decreases |mods|
  {
    if mods != [] {
      var init := mods[..|mods| - 1];
      var last := mods[|mods| - 1];
      EventListenersExact(init);
      var bound := if EventAccepted(last) then [Listener(last.default.value.name, last.default.value.execute.value)] else [];
      assert EventListeners(mods) == EventListeners(init) + bound;
      forall l
        ensures l in EventListeners(mods) <==>
                  exists i :: 0 <= i < |mods| && EventAccepted(mods[i])
                    && l == Listener(mods[i].default.value.name, mods[i].default.value.execute.value)
      {
        if l in EventListeners(init) {
          var i :| 0 <= i < |init| && EventAccepted(init[i])
                   && l == Listener(init[i].default.value.name, init[i].default.value.execute.value);
          assert mods[i] == init[i];
        }
        if exists i :: 0 <= i < |mods| && EventAccepted(mods[i])
                       && l == Listener(mods[i].default.value.name, mods[i].default.value.execute.value) {
          var i :| 0 <= i < |mods| && EventAccepted(mods[i])
                   && l == Listener(mods[i].default.value.name, mods[i].default.value.execute.value);
          if i < |init| {
            assert init[i] == mods[i];
          } else {
            assert l in bound;
          }
        }
      }
    }
  }

  /** `xs.filter(p)`. */
  function FilterSeq<T>(xs: seq<T>, p: T -> bool): (r: seq<T>)
    ensures |r| <= |xs|
    ensures forall x :: x in r ==> x in xs && p(x)
    decreases |xs|
  {
    if xs == [] then []
    else (if p(xs[0]) then [xs[0]] else []) + FilterSeq(xs[1..], p)
  }

  /** Filtering distributes over concatenation, so it keeps the input's order. */
  lemma {:induction false} FilterConcat<T>(a: seq<T>, b: seq<T>, p: T -> bool)
    ensures FilterSeq(a + b, p) == FilterSeq(a, p) + FilterSeq(b, p)
    decreases |a|
  {
    if a == [] {
      assert a + b == b;
    } else {
      FilterConcat(a[1..], b, p);
      assert a + b != [] && (a + b)[0] == a[0];
      assert (a + b)[1..] == a[1..] + b;
      var head := if p(a[0]) then [a[0]] else [];
      calc {
        FilterSeq(a + b, p);
        head + FilterSeq(a[1..] + b, p);
        head + (FilterSeq(a[1..], p) + FilterSeq(b, p));
        (head + FilterSeq(a[1..], p)) + FilterSeq(b, p);
      }
    }
  }

  /** Filtering by `p` and by its negation splits the input: together the parts hold every element once. */
  lemma {:induction false} FilterPartition<T>(xs: seq<T>, p: T -> bool, q: T -> bool)
    requires forall x :: q(x) == !p(x)
    ensures multiset(FilterSeq(xs, p)) + multiset(FilterSeq(xs, q)) == multiset(xs)
    ensures |FilterSeq(xs, p)| + |FilterSeq(xs, q)| == |xs|
    decreases |xs|
  {
    if xs != [] {
      var rest := xs[1..];
      FilterPartition(rest, p, q);
      assert multiset(xs) == multiset([xs[0]]) + multiset(rest) by { assert xs == [xs[0]] + rest; }
      var head := multiset([xs[0]]);
      if p(xs[0]) {
        assert FilterSeq(xs, p) == [xs[0]] + FilterSeq(rest, p);
        assert multiset(FilterSeq(xs, p)) == head + multiset(FilterSeq(rest, p));
        assert FilterSeq(xs, q) == FilterSeq(rest, q) by { assert !q(xs[0]); }
      } else {
        assert FilterSeq(xs, p) == FilterSeq(rest, p);
        assert FilterSeq(xs, q) == [xs[0]] + FilterSeq(rest, q) by { assert q(xs[0]); }
        assert multiset(FilterSeq(xs, q)) == head + multiset(FilterSeq(rest, q));
      }
    }
  }

  /** Filtering by `p` and by its negation gives disjoint parts. */
  lemma FilterDisjoint<T>(xs: seq<T>, p: T -> bool, q: T -> bool)
    requires forall x :: q(x) == !p(x)
    ensures forall x :: x in FilterSeq(xs, p) ==> x !in FilterSeq(xs, q)
  {
  }

  /** `maintanence === true`. */
  predicate CommandInMaintenance(c: CommandData) { c.maintanence }
  predicate CommandIsGlobal(c: CommandData) { !c.maintanence }
  predicate ContextInMaintenance(c: ContextData) { c.maintanence }
  predicate ContextIsGlobal(c: ContextData) { !c.maintanence }
  predicate IsSlash(c: CommandData) { c.slash }

  /** One application-command declaration sent to the platform. */
  datatype Declaration =
    | ChatInputDeclaration(name: string, description: string, options: seq<OptionSchema>)
    | ContextDeclaration(name: string, kind: ContextType)

  /** `buildCommandData`: chat-input declarations for the commands, then context declarations. */
  function BuildCommandData(slashCommands: seq<CommandData>, contextMenus: seq<ContextData>): (r: seq<Declaration>)
    ensures |r| == |slashCommands| + |contextMenus|
    ensures forall i :: 0 <= i < |slashCommands| ==>
              r[i] == ChatInputDeclaration(slashCommands[i].name, slashCommands[i].description, slashCommands[i].options)
    ensures forall i :: 0 <= i < |contextMenus| ==>
              r[|slashCommands| + i] == ContextDeclaration(contextMenus[i].name, contextMenus[i].kind)
  {
    seq(|slashCommands|, i requires 0 <= i < |slashCommands| =>
          ChatInputDeclaration(slashCommands[i].name, slashCommands[i].description, slashCommands[i].options))
    + seq(|contextMenus|, i requires 0 <= i < |contextMenus| =>
          ContextDeclaration(contextMenus[i].name, contextMenus[i].kind))
  }

  datatype Scope = DeveloperGuild | Global

  /** A call made while publishing. */
  datatype PublishStep = SetCommands(scope: Scope, data: seq<Declaration>) | Logged(line: LogLine)

  /**
   * `registerCommands(commands, target)`: nothing for an empty list; for the
   * guild target, an error line when the developer guild is not cached;
   * for the global target, nothing when there is no application.
   */
  function RegisterCommands(data: seq<Declaration>, target: Scope, guildFound: bool, hasApplication: bool): (steps: seq<PublishStep>)
    ensures data == [] ==> steps == []
    ensures data != [] && target == DeveloperGuild ==>
              steps == if guildFound then [SetCommands(DeveloperGuild, data)] else [Logged(Error("Developer guild not found."))]
    ensures data != [] && target == Global ==>
              steps == if hasApplication then [SetCommands(Global, data)] else []
  {
    if data == [] then []
    else if target == DeveloperGuild then
      if guildFound then [SetCommands(DeveloperGuild, data)] else [Logged(Error("Developer guild not found."))]
    else if hasApplication then [SetCommands(Global, data)]
    else []
  }

  /** The maintenance declarations of `loadInteractions`. */
  function MaintenanceData(commands: seq<CommandData>, contexts: seq<ContextData>): seq<Declaration> {
    var slash := FilterSeq(commands, IsSlash);
    BuildCommandData(FilterSeq(slash, CommandInMaintenance), FilterSeq(contexts, ContextInMaintenance))
  }

  /** The global declarations of `loadInteractions`. */
  function GlobalData(commands: seq<CommandData>, contexts: seq<ContextData>): seq<Declaration> {
    var slash := FilterSeq(commands, IsSlash);
    BuildCommandData(FilterSeq(slash, CommandIsGlobal), FilterSeq(contexts, ContextIsGlobal))
  }

  /**
   * `loadInteractions` over the registered commands and contexts, in
   * collection order: the guild registration, then the global one.
   */
  function PublishPlan(commands: seq<CommandData>, contexts: seq<ContextData>, guildFound: bool, hasApplication: bool): (steps: seq<PublishStep>)
  {
    var slash := FilterSeq(commands, IsSlash);
    if slash == [] && contexts == [] then []
    else
      RegisterCommands(MaintenanceData(commands, contexts), DeveloperGuild, guildFound, hasApplication)
      + RegisterCommands(GlobalData(commands, contexts), Global, guildFound, hasApplication)
  }

  /**
   * The two scopes split the eligible items: only slash commands are
   * eligible, every context is; the scopes together declare each eligible
   * item exactly once, and nothing is published when nothing is eligible.
   */
  lemma PublishSplitsEligible(commands: seq<CommandData>, contexts: seq<ContextData>)
    ensures |MaintenanceData(commands, contexts)| + |GlobalData(commands, contexts)|
              == |FilterSeq(commands, IsSlash)| + |contexts|
    ensures forall c :: c in FilterSeq(FilterSeq(commands, IsSlash), CommandInMaintenance) ==>
              c.slash && c.maintanence && c !in FilterSeq(FilterSeq(commands, IsSlash), CommandIsGlobal)
    ensures forall c :: c in FilterSeq(contexts, ContextInMaintenance) ==>
              c.maintanence && c !in FilterSeq(contexts, ContextIsGlobal)
    ensures multiset(FilterSeq(FilterSeq(commands, IsSlash), CommandInMaintenance))
              + multiset(FilterSeq(FilterSeq(commands, IsSlash), CommandIsGlobal))
              == multiset(FilterSeq(commands, IsSlash))
    ensures multiset(FilterSeq(contexts, ContextInMaintenance)) + multiset(FilterSeq(contexts, ContextIsGlobal))
              == multiset(contexts)
  {
    var slash := FilterSeq(commands, IsSlash);
    FilterPartition(slash, CommandInMaintenance, CommandIsGlobal);
    FilterPartition(contexts, ContextInMaintenance, ContextIsGlobal);
    FilterDisjoint(slash, CommandInMaintenance, CommandIsGlobal);
    FilterDisjoint(contexts, ContextInMaintenance, ContextIsGlobal);
  }

  /** Nothing is registered in either scope when there is no slash command and no context. */
  lemma PublishNothingWhenEmpty(commands: seq<CommandData>, guildFound: bool, hasApplication: bool)
    requires forall i :: 0 <= i < |commands| ==> !commands[i].slash
    ensures PublishPlan(commands, [], guildFound, hasApplication) == []
  {
  }

  /**
   * A missing developer guild only logs: the global declarations are still
   * made, after the error line.
   */
  lemma MissingGuildStillPublishesGlobal(commands: seq<CommandData>, contexts: seq<ContextData>)
    requires MaintenanceData(commands, contexts) != [] && GlobalData(commands, contexts) != []
    ensures PublishPlan(commands, contexts, false, true)
              == [Logged(Error("Developer guild not found.")), SetCommands(Global, GlobalData(commands, contexts))]
  {
  }

  /** The bot client: its registries, its limiter and its log. */
  class Client {
    var commands: Collection<CommandData>
    var contexts: Collection<ContextData>
    var listeners: seq<Listener>
    var log: seq<LogLine>
    const cooldowns: Cooldown.Limiter

    ghost predicate Valid()
      reads this
    {
      commands.Valid() && contexts.Valid()
    }

    constructor ()
      ensures Valid() && fresh(cooldowns)
      ensures commands.entries == map[] && contexts.entries == map[] && listeners == [] && log == []
      ensures cooldowns.limits == map[]
    {
      commands := EmptyCollection();
      contexts := EmptyCollection();
      listeners := [];
      log := [];
      cooldowns := new Cooldown.Limiter();
    }

    /** `loadCommands`, with the modules given in the order their imports complete. */
    method LoadCommands(modules: seq<Module<CommandData>>)
      requires Valid()
      modifies this
      ensures Valid()
      ensures commands == LoadAll(old(commands), modules, CommandName)
      ensures log == old(log) + [Info("Loading commands...")] + CommandLoadLog(modules)
      ensures contexts == old(contexts) && listeners == old(listeners)
    {
      log := log + [Info("Loading commands...")];
      ghost var log0 := log;
      LoadAllKeepsOrder(commands, modules, CommandName);
      for i := 0 to |modules|
        invariant commands == LoadAll(old(commands), modules[..i], CommandName)
        invariant log == log0 + CommandLoadLog(modules[..i])
        invariant contexts == old(contexts) && listeners == old(listeners)
      {
        assert modules[..i + 1][..i] == modules[..i];
        var m := modules[i];
        if m.default.None? || m.default.value.name == "" {
          log := log + [Warn("Invalid command file: " + m.file)];
        } else {
          commands := commands.Set(m.default.value.name, m.default.value);
          log := log + [Success("Loaded command: " + m.default.value.name)];
        }
      }
      assert modules[..|modules|] == modules;
      LoadAllKeepsOrder(old(commands), modules, CommandName);
    }

    /** `loadContexts`, with the modules given in the order their imports complete. */
    method LoadContexts(modules: seq<Module<ContextData>>)
      requires Valid()
      modifies this
      ensures Valid()
      ensures contexts == LoadAll(old(contexts), modules, ContextName)
      ensures log == old(log) + [Info("Loading contexts...")] + ContextLoadLog(modules)
      ensures commands == old(commands) && listeners == old(listeners)
    {
      log := log + [Info("Loading contexts...")];
      ghost var log0 := log;
      for i := 0 to |modules|
        invariant contexts == LoadAll(old(contexts), modules[..i], ContextName)
        invariant log == log0 + ContextLoadLog(modules[..i])
        invariant commands == old(commands) && listeners == old(listeners)
      {
        assert modules[..i + 1][..i] == modules[..i];
        var m := modules[i];
        if m.default.None? || m.default.value.name == "" {
          log := log + [Warn("Invalid context file: " + m.file)];
        } else {
          contexts := contexts.Set(m.default.value.name, m.default.value);
        }
      }
      assert modules[..|modules|] == modules;
      LoadAllKeepsOrder(old(contexts), modules, ContextName);
    }

    /** `loadEvents`: binds one listener per accepted module; every listener is bound with `on`. */
    method LoadEvents(modules: seq<Module<EventData>>)
      requires Valid()
      modifies this
      ensures Valid()
      ensures listeners == old(listeners) + EventListeners(modules)
      ensures log == old(log) + [Info("Loading events...")] + EventLoadLog(modules)
      ensures commands == old(commands) && contexts == old(contexts)
    {
      log := log + [Info("Loading events...")];
      ghost var log0 := log;
      for i := 0 to |modules|
        invariant listeners == old(listeners) + EventListeners(modules[..i])
        invariant log == log0 + EventLoadLog(modules[..i])
        invariant commands == old(commands) && contexts == old(contexts)
      {
        EventStep(modules, i);
        var m := modules[i];
        if !EventAccepted(m) {
          log := log + [Warn("Invalid event file: " + m.file)];
        } else {
          listeners := listeners + [Listener(m.default.value.name, m.default.value.execute.value)];
        }
      }
      assert modules[..|modules|] == modules;
    }

    /** `loadInteractions`: the registration calls it makes; the client itself is not changed. */
    method LoadInteractions(guildFound: bool, hasApplication: bool) returns (steps: seq<PublishStep>)
      requires Valid()
      ensures steps == PublishPlan(commands.Values(), contexts.Values(), guildFound, hasApplication)
      ensures FilterSeq(commands.Values(), IsSlash) == [] && contexts.entries == map[] ==> steps == []
    {
      var slashCommands := FilterSeq(commands.Values(), IsSlash);
      var contextMenus := contexts.Values();
      if |slashCommands| == 0 && |contextMenus| == 0 {
        return [];
      }
      var guildPart := RegisterCommands(
        BuildCommandData(FilterSeq(slashCommands, CommandInMaintenance), FilterSeq(contextMenus, ContextInMaintenance)),
        DeveloperGuild, guildFound, hasApplication);
      var globalPart := RegisterCommands(
        BuildCommandData(FilterSeq(slashCommands, CommandIsGlobal), FilterSeq(contextMenus, ContextIsGlobal)),
        Global, guildFound, hasApplication);
      steps := guildPart + globalPart;
    }
  }

  /** The warnings `loadEvents` logs: one per rejected module. */
  function EventLoadLog(mods: seq<Module<EventData>>): (log: seq<LogLine>)
    ensures |log| + |EventListeners(mods)| == |mods|
    decreases |mods|
  {
    if mods == [] then []
    else
      var m := mods[|mods| - 1];
      EventLoadLog(mods[..|mods| - 1])
        + (if EventAccepted(m) then [] else [Warn("Invalid event file: " + m.file)])
  }

  /** One more module extends the listeners and the warnings by that module's contribution. */
  lemma EventStep(mods: seq<Module<EventData>>, i: nat)
    requires i < |mods|
    ensures var m := mods[i];
      && EventListeners(mods[..i + 1]) == EventListeners(mods[..i])
           + (if EventAccepted(m) then [Listener(m.default.value.name, m.default.value.execute.value)] else [])
      && EventLoadLog(mods[..i + 1]) == EventLoadLog(mods[..i])
           + (if EventAccepted(m) then [] else [Warn("Invalid event file: " + m.file)])
  {
    assert mods[..i + 1][..i] == mods[..i];
  }
}
