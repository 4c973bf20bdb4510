/**
 * The dispatcher's cooldown gate and the context-menu pipeline
 * (src/utils/common/handler.ts): two limiter calls on the same key, then
 * defer, execute and error containment.
 */
module Handler {
  import opened Wrappers
  import opened Platform
  import opened Cooldown
  import Config
  import Client

  /** The two throttle notices; each embeds the formatted retry time. */
  datatype Notice = TooQuickly(time: Option<RelativeTime>) | CommandOnCooldown(time: Option<RelativeTime>)

  /** A call the dispatcher makes on the platform, the plugin or the logger, in order. */
  datatype Effect =
    | SendNotice(notice: Notice, lifetime: int)
    | DeferReply(ephemeral: bool)
    | Execute(plugin: string)
    | FollowUp(content: string)
    | LogError(text: string)
    | Reply(content: string, ephemeral: bool)

  /** How an awaited platform call or a plugin call ends: normally, or by throwing. */
  datatype CallOutcome = Completes | Throws(error: string)

  const FailureNotice: string := "Oops! An error occurred while running the command"

  /** What the gate leaves under the actor's key, whether it stops the invocation, and what it sends. */
  datatype GateOutcome = GateOutcome(entry: Entry, limited: bool, effects: seq<Effect>)

  /**
   * `cooldownHandler` on the record of the actor's key at instant `now`:
   * the coarse check, then the per-command check when `cooldown` is truthy,
   * both with the configured maximum and window.
   */
  function Gate(e: Option<Entry>, cooldown: int, now: int): GateOutcome {
    var first := Step(e, Config.MaxAttempts, Config.WindowDuration, now);
    if first.1.hasLimit then
      GateOutcome(first.0, true, [SendNotice(TooQuickly(first.1.time), first.1.delete.value - now)])
    else if cooldown != 0 then
      var second := Step(Some(first.0), Config.MaxAttempts, Config.WindowDuration, now);
      if second.1.hasLimit then
        GateOutcome(second.0, true, [SendNotice(CommandOnCooldown(second.1.time), second.1.delete.value - now)])
      else GateOutcome(second.0, false, [])
    else GateOutcome(first.0, false, [])
  }

  /** A limited coarse check stops the gate: one notice, and the counter advanced by one call only. */
  lemma GateCoarseLimited(e: Option<Entry>, cooldown: int, now: int)
    requires Step(e, Config.MaxAttempts, Config.WindowDuration, now).1.hasLimit
    ensures Gate(e, cooldown, now).limited
    ensures Gate(e, cooldown, now).entry == Entry(e.value.count + 1, e.value.lastUsage)
    ensures Gate(e, cooldown, now).effects
              == [SendNotice(TooQuickly(Some(RelativeTime((e.value.lastUsage + Config.WindowDuration) / 1000))),
                             e.value.lastUsage + Config.WindowDuration - now)]
  {
  }

  /** The gate answers `false` iff neither check is limited, and then it sends nothing. */
  lemma GateFalseIff(e: Option<Entry>, cooldown: int, now: int)
    ensures var first := Step(e, Config.MaxAttempts, Config.WindowDuration, now);
      !Gate(e, cooldown, now).limited <==>
        !first.1.hasLimit
        && (cooldown == 0 || !Step(Some(first.0), Config.MaxAttempts, Config.WindowDuration, now).1.hasLimit)
    ensures !Gate(e, cooldown, now).limited <==> Gate(e, cooldown, now).effects == []
  {
  }

  /**
   * With a declared cooldown and an unlimited coarse check, the same key is
   * counted twice: a fresh key ends at 2, an existing one two above its count.
   */
  lemma GateCountsTwice(e: Option<Entry>, cooldown: int, now: int)
    requires cooldown != 0
    requires !Step(e, Config.MaxAttempts, Config.WindowDuration, now).1.hasLimit
    ensures e.None? ==> Gate(e, cooldown, now).entry == Entry(2, now)
    ensures e.Some? ==> Gate(e, cooldown, now).entry == Entry(e.value.count + 2, e.value.lastUsage)
  {
  }

  /** Without a declared cooldown the key is counted once. */
  lemma GateCountsOnce(e: Option<Entry>, now: int)
    ensures e.None? ==> Gate(e, 0, now).entry == Entry(1, now)
    ensures e.Some? ==> Gate(e, 0, now).entry == Entry(e.value.count + 1, e.value.lastUsage)
  {
  }

  /** A notice's lifetime is the retry instant minus `now`; it is positive. */
  lemma GateNoticeLifetime(e: Option<Entry>, cooldown: int, now: int)
    requires Gate(e, cooldown, now).limited
    ensures e.Some?
    ensures |Gate(e, cooldown, now).effects| == 1
    ensures Gate(e, cooldown, now).effects[0].SendNotice?
    ensures Gate(e, cooldown, now).effects[0].lifetime == e.value.lastUsage + Config.WindowDuration - now
    ensures Gate(e, cooldown, now).effects[0].lifetime > 0
  {
  }

  /** With the configured limits, on a fresh key inside one window, the 5th call is the first limited one. */
  lemma ConfiguredFifthCallFirstLimited(times: seq<int>)
    requires |times| >= 5
    requires forall i :: 0 <= i < |times| ==> times[i] - times[0] < Config.WindowDuration
    ensures Run(None, times, Config.MaxAttempts, Config.WindowDuration).1[4].hasLimit
    ensures forall n :: 0 <= n < 4 ==> !Run(None, times, Config.MaxAttempts, Config.WindowDuration).1[n].hasLimit
  {
    FreshKeyCalls(times, Config.MaxAttempts, Config.WindowDuration);
  }

  /** `cooldownHandler(client, context, command)` at instant `now`, for a command or context with the given cooldown. */
  method CooldownHandler(client: Client.Client, context: Origin, cooldown: int, now: int) returns (limited: bool, effects: seq<Effect>)
    modifies client.cooldowns, client.cooldowns.limits.Values
    ensures KeyOf(ActorId(context), Config.CommandFlag) in client.cooldowns.limits
    ensures var g := Gate(old(client.cooldowns.Lookup(KeyOf(ActorId(context), Config.CommandFlag))), cooldown, now);
      && client.cooldowns.Lookup(KeyOf(ActorId(context), Config.CommandFlag)) == Some(g.entry)
      && limited == g.limited
      && effects == g.effects
    ensures Step(old(client.cooldowns.Lookup(KeyOf(ActorId(context), Config.CommandFlag))),
                 Config.MaxAttempts, Config.WindowDuration, now).1.hasLimit ==>
              client.cooldowns.limits == old(client.cooldowns.limits)
    ensures ActorId(context) in client.cooldowns.limits ==>
              || client.cooldowns.limits[ActorId(context)] == client.cooldowns.limits[KeyOf(ActorId(context), Config.CommandFlag)]
              || (ActorId(context) in old(client.cooldowns.limits)
                  && client.cooldowns.limits[ActorId(context)] == old(client.cooldowns.limits)[ActorId(context)])
    ensures forall k :: k != KeyOf(ActorId(context), Config.CommandFlag) && k != ActorId(context) ==>
              && (k in client.cooldowns.limits <==> k in old(client.cooldowns.limits))
              && (k in old(client.cooldowns.limits) ==> client.cooldowns.limits[k] == old(client.cooldowns.limits)[k])
    ensures forall u ::
              (&& u in old(client.cooldowns.limits.Values)
               && (KeyOf(ActorId(context), Config.CommandFlag) !in old(client.cooldowns.limits)
                   || u != old(client.cooldowns.limits)[KeyOf(ActorId(context), Config.CommandFlag)]))
              ==> u.count == old(u.count) && u.lastUsage == old(u.lastUsage)
  {
    var userId := ActorId(context);
    var limiter := client.cooldowns;
    var result := limiter.CheckLimit(userId, Config.CommandFlag, Config.MaxAttempts, Config.WindowDuration, now);
    if result.hasLimit {
      return true, [SendNotice(TooQuickly(result.time), result.delete.value - now)];
    }
    if cooldown != 0 {
      var commandResult := limiter.CheckLimit(userId, Config.CommandFlag, Config.MaxAttempts, Config.WindowDuration, now);
      if commandResult.hasLimit {
        return true, [SendNotice(CommandOnCooldown(commandResult.time), commandResult.delete.value - now)];
      }
    }
    return false, [];
  }

  /** `slashCommand`: its body is empty, so it makes no call at all. */
  method SlashCommand(client: Client.Client, interaction: Interaction, command: Client.CommandData) returns (effects: seq<Effect>)
    ensures effects == []
  {
    effects := [];
  }

  /** The calls of `contextCommand` after the gate let the invocation through. */
  function ContextPipeline(command: Client.ContextData, deferOutcome: CallOutcome, executeOutcome: CallOutcome): seq<Effect> {
    [DeferReply(command.ephemeral)]
    + (if deferOutcome.Throws? then
         [FollowUp(FailureNotice), LogError("Error executing context command: " + deferOutcome.error)]
       else
         [Execute(command.execute)]
         + (if executeOutcome.Throws? then
              [FollowUp(FailureNotice), LogError("Error executing context command: " + executeOutcome.error)]
            else []))
  }

  /** All the calls of `contextCommand`, given the actor's record before it. */
  function ContextRun(e: Option<Entry>, command: Client.ContextData, now: int,
                      deferOutcome: CallOutcome, executeOutcome: CallOutcome): seq<Effect>
  {
    var g := Gate(e, command.cooldown, now);
    if g.limited then g.effects else ContextPipeline(command, deferOutcome, executeOutcome)
  }

  function CountOf(effects: seq<Effect>, p: Effect -> bool): (n: nat)
    ensures n <= |effects|
    decreases |effects|
  {
    if effects == [] then 0 else (if p(effects[0]) then 1 else 0) + CountOf(effects[1..], p)
  }

  predicate IsDefer(f: Effect) { f.DeferReply? }
  predicate IsExecute(f: Effect) { f.Execute? }
  predicate IsFollowUp(f: Effect) { f.FollowUp? }
  predicate IsLogError(f: Effect) { f.LogError? }

  /** When the gate stops the invocation, neither the defer nor the plugin is reached. */
  lemma ContextGatedStops(e: Option<Entry>, command: Client.ContextData, now: int, d: CallOutcome, x: CallOutcome)
    requires Gate(e, command.cooldown, now).limited
    ensures forall f :: f in ContextRun(e, command, now, d, x) ==> !f.DeferReply? && !f.Execute? && !f.FollowUp?
  {
  }

  /**
   * Otherwise the first call is the defer, ephemeral iff the context says so,
   * the plugin runs only after it succeeds, and a failure of either
   * produces exactly one follow-up and one error line.
   */
  lemma ContextOrderAndContainment(e: Option<Entry>, command: Client.ContextData, now: int, d: CallOutcome, x: CallOutcome)
    requires !Gate(e, command.cooldown, now).limited
    ensures var run := ContextRun(e, command, now, d, x);
      && |run| > 0 && run[0] == DeferReply(command.ephemeral)
      && CountOf(run, IsDefer) == 1
      && CountOf(run, IsExecute) == (if d.Throws? then 0 else 1)
      && (forall j :: 0 <= j < |run| && run[j].Execute? ==> j > 0)
      && CountOf(run, IsFollowUp) == (if d.Throws? || x.Throws? then 1 else 0)
      && CountOf(run, IsLogError) == CountOf(run, IsFollowUp)
  {
    var run := ContextRun(e, command, now, d, x);
    assert run == ContextPipeline(command, d, x);
    var head := [DeferReply(command.ephemeral)];
    var tail := run[1..];
    assert run == head + tail;
    CountOfConcat(head, tail, IsDefer);
    CountOfConcat(head, tail, IsExecute);
    CountOfConcat(head, tail, IsFollowUp);
    CountOfConcat(head, tail, IsLogError);
    if !d.Throws? {
      var exec := [Execute(command.execute)];
      assert tail == exec + tail[1..];
      CountOfConcat(exec, tail[1..], IsDefer);
      CountOfConcat(exec, tail[1..], IsExecute);
      CountOfConcat(exec, tail[1..], IsFollowUp);
      CountOfConcat(exec, tail[1..], IsLogError);
    }
  }

  lemma {:induction false} CountOfConcat(a: seq<Effect>, b: seq<Effect>, p: Effect -> bool)
    ensures CountOf(a + b, p) == CountOf(a, p) + CountOf(b, p)
    decreases |a|
  {
    if a == [] {
      assert a + b == b;
    } else {
      CountOfConcat(a[1..], b, p);
      assert (a + b)[1..] == a[1..] + b;
    }
  }

  /** `contextCommand(client, interaction, command)` at instant `now`. */
  method ContextCommand(client: Client.Client, interaction: Interaction, command: Client.ContextData, now: int,
                        deferOutcome: CallOutcome, executeOutcome: CallOutcome) returns (effects: seq<Effect>)
    modifies client.cooldowns, client.cooldowns.limits.Values
    ensures var key := KeyOf(interaction.user.id, Config.CommandFlag);
      && client.cooldowns.Lookup(key) == Some(Gate(old(client.cooldowns.Lookup(key)), command.cooldown, now).entry)
      && effects == ContextRun(old(client.cooldowns.Lookup(key)), command, now, deferOutcome, executeOutcome)
    ensures interaction.user.id in client.cooldowns.limits ==>
              || client.cooldowns.limits[interaction.user.id] == client.cooldowns.limits[KeyOf(interaction.user.id, Config.CommandFlag)]
              || (interaction.user.id in old(client.cooldowns.limits)
                  && client.cooldowns.limits[interaction.user.id] == old(client.cooldowns.limits)[interaction.user.id])
    ensures forall k :: k != KeyOf(interaction.user.id, Config.CommandFlag) && k != interaction.user.id ==>
              && (k in client.cooldowns.limits <==> k in old(client.cooldowns.limits))
              && (k in old(client.cooldowns.limits) ==> client.cooldowns.limits[k] == old(client.cooldowns.limits)[k])
    ensures forall u ::
              (&& u in old(client.cooldowns.limits.Values)
               && (KeyOf(interaction.user.id, Config.CommandFlag) !in old(client.cooldowns.limits)
                   || u != old(client.cooldowns.limits)[KeyOf(interaction.user.id, Config.CommandFlag)]))
              ==> u.count == old(u.count) && u.lastUsage == old(u.lastUsage)
  {
    var isOnCooldown, notices := CooldownHandler(client, FromInteraction(interaction), command.cooldown, now);
    if isOnCooldown {
      return notices;
    }
    effects := [DeferReply(command.ephemeral)];
    if deferOutcome.Throws? {
      effects := effects + [FollowUp(FailureNotice), LogError("Error executing context command: " + deferOutcome.error)];
      return;
    }
    effects := effects + [Execute(command.execute)];
    if executeOutcome.Throws? {
      effects := effects + [FollowUp(FailureNotice), LogError("Error executing context command: " + executeOutcome.error)];
    }
  }
}
