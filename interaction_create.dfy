/**
 * The `interactionCreate` event (src/app/events/interactionCreate.ts):
 * chat-input commands go to the slash handler, context-menu commands to the
 * context handler, and an unknown context menu gets an ephemeral error reply.
 */
module InteractionCreate {
  import opened Wrappers
  import opened Platform
  import Client
  import Handler
  import Cooldown
  import Config

  datatype Route =
    | ToSlashCommand(command: Client.CommandData)
    | ToContextCommand(context: Client.ContextData)
    | ReplyUnknownContext
    | NoRoute

  const UnknownContextReply: string := "An error has occurred"

  /** Where an interaction goes; lookups are by the exact command name. */
  function RouteOf(i: Interaction, commands: Client.Collection<Client.CommandData>,
                   contexts: Client.Collection<Client.ContextData>): (r: Route)
    ensures r.ToSlashCommand? <==> i.IsChatInput() && i.commandName in commands.entries
    ensures r.ToSlashCommand? ==> r.command == commands.entries[i.commandName]
    ensures r.ToContextCommand? <==> i.IsContextMenu() && i.commandName in contexts.entries
    ensures r.ToContextCommand? ==> r.context == contexts.entries[i.commandName]
    ensures r.ReplyUnknownContext? <==> i.IsContextMenu() && i.commandName !in contexts.entries
    ensures r.NoRoute? <==> (i.IsChatInput() && i.commandName !in commands.entries) || (!i.IsChatInput() && !i.IsContextMenu())
  {
    if i.IsChatInput() then
      match commands.Get(i.commandName)
      case Some(c) => ToSlashCommand(c)
      case None => NoRoute
    else if i.IsContextMenu() then
      match contexts.Get(i.commandName)
      case Some(c) => ToContextCommand(c)
      case None => ReplyUnknownContext
    else NoRoute
  }

  /** The calls made for an interaction that is not a known context menu. */
  function NonContextEffects(r: Route): (effects: seq<Handler.Effect>)
    requires !r.ToContextCommand?
    ensures r.ReplyUnknownContext? ==> effects == [Handler.Reply(UnknownContextReply, true)]
    ensures !r.ReplyUnknownContext? ==> effects == []
  {
    // The reply's rejection is caught and discarded, so it never changes the outcome.
    if r.ReplyUnknownContext? then [Handler.Reply(UnknownContextReply, true)] else []
  }

  /** The event handler, run on the client's registries and limiter at instant `now`. */
  method OnInteractionCreate(client: Client.Client, i: Interaction, now: int,
                             deferOutcome: Handler.CallOutcome, executeOutcome: Handler.CallOutcome)
    returns (effects: seq<Handler.Effect>)
    modifies client.cooldowns, client.cooldowns.limits.Values
    ensures var r := RouteOf(i, old(client.commands), old(client.contexts));
      var key := Cooldown.KeyOf(i.user.id, Config.CommandFlag);
      && (r.ToContextCommand? ==>
            && effects == Handler.ContextRun(old(client.cooldowns.Lookup(key)), r.context, now, deferOutcome, executeOutcome)
            && client.cooldowns.Lookup(key) == Some(Handler.Gate(old(client.cooldowns.Lookup(key)), r.context.cooldown, now).entry))
      && (!r.ToContextCommand? ==> effects == NonContextEffects(r) && client.cooldowns.limits == old(client.cooldowns.limits))
    ensures i.user.id in client.cooldowns.limits ==>
              || (&& Cooldown.KeyOf(i.user.id, Config.CommandFlag) in client.cooldowns.limits
                  && client.cooldowns.limits[i.user.id] == client.cooldowns.limits[Cooldown.KeyOf(i.user.id, Config.CommandFlag)])
              || (i.user.id in old(client.cooldowns.limits)
                  && client.cooldowns.limits[i.user.id] == old(client.cooldowns.limits)[i.user.id])
    ensures forall k :: k != Cooldown.KeyOf(i.user.id, Config.CommandFlag) && k != i.user.id ==>
              && (k in client.cooldowns.limits <==> k in old(client.cooldowns.limits))
              && (k in old(client.cooldowns.limits) ==> client.cooldowns.limits[k] == old(client.cooldowns.limits)[k])
    ensures forall u ::
              (&& u in old(client.cooldowns.limits.Values)
               && (Cooldown.KeyOf(i.user.id, Config.CommandFlag) !in old(client.cooldowns.limits)
                   || u != old(client.cooldowns.limits)[Cooldown.KeyOf(i.user.id, Config.CommandFlag)]))
              ==> u.count == old(u.count) && u.lastUsage == old(u.lastUsage)
    ensures !RouteOf(i, old(client.commands), old(client.contexts)).ToContextCommand? ==>
              forall u :: u in old(client.cooldowns.limits.Values) ==> u.count == old(u.count) && u.lastUsage == old(u.lastUsage)
  {
    var r := RouteOf(i, client.commands, client.contexts);
    match r
    case ToSlashCommand(c) =>
      effects := Handler.SlashCommand(client, i, c);
    case ToContextCommand(c) =>
      effects := Handler.ContextCommand(client, i, c, now, deferOutcome, executeOutcome);
    case ReplyUnknownContext =>
      effects := [Handler.Reply(UnknownContextReply, true)];
    case NoRoute =>
      effects := [];
  }
}
