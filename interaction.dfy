/**
 * The invocation context (src/structures/interaction.ts): one object that
 * wraps either a chat-input interaction or a message and offers the same
 * send / edit / defer / follow-up operations for both. Its only mutable
 * state is `msg`, the last message it sent or edited.
 *
 * Every platform call is abstracted: the awaited result of the call the
 * operation makes is a parameter (`response`), either the message the
 * platform returns or the error it rejects with.
 */
module InteractionContext {
  import opened Wrappers
  import opened Platform

  /** One positional argument. */
  datatype Arg = Text(s: string) | Number(n: int) | Flag(b: bool)

  datatype ContextError =
    | UnableToSend
    | UnableToSendDeferred
    | NoMessageToEdit
    | OptionNotFound(name: string)
    | PlatformRejected(reason: string)

  /** The platform call an operation makes first. */
  datatype PlatformCall =
    | InteractionReply(content: string)
    | InteractionEditReply(content: string)
    | InteractionDeferReply
    | InteractionFollowUp(content: string)
    | ChannelSend(channelId: string, content: string)
    | MessageEdit(messageId: string, content: string)

  /** `ctx instanceof ChatInputCommandInteraction`. */
  predicate IsChatInputOrigin(o: Origin) {
    o.FromInteraction? && o.interaction.IsChatInput()
  }

  /** The `interaction` field: the origin itself when it is a chat-input interaction, otherwise null. */
  function InteractionOf(o: Origin): (r: Option<Interaction>)
    ensures r.Some? <==> IsChatInputOrigin(o)
    ensures r.Some? ==> o == FromInteraction(r.value)
  {
    if IsChatInputOrigin(o) then Some(o.interaction) else None
  }

  /** The `message` field: the origin itself when it is a message, otherwise null. */
  function MessageOf(o: Origin): (r: Option<Message>)
    ensures r.Some? <==> o.FromMessage?
    ensures r.Some? ==> o == FromMessage(r.value)
  {
    if o.FromMessage? then Some(o.message) else None
  }

  /** The `author` field: a message's author, otherwise the interaction's user. */
  function AuthorOf(o: Origin): (u: User)
    ensures o.FromMessage? ==> u == o.message.author
    ensures o.FromInteraction? ==> u == o.interaction.user
    ensures u.id == ActorId(o)
  {
    match o
    case FromMessage(m) => m.author
    case FromInteraction(i) => i.user
  }

  /** Index of the first option called `name`. */
  function OptionIndex(options: seq<CommandOption>, name: string): (r: Option<nat>)
    ensures r.Some? ==> r.value < |options| && options[r.value].name == name
    ensures r.Some? ==> forall k :: 0 <= k < r.value ==> options[k].name != name
    ensures r.None? <==> forall k :: 0 <= k < |options| ==> options[k].name != name
    decreases |options|
  {
    if options == [] then None
    else if options[0].name == name then Some(0)
    else
      match OptionIndex(options[1..], name)
      case None => None
      case Some(i) => Some(i + 1)
  }

  /** The option `name` among the hoisted options, if any: the first one so called. */
  function FindOption(options: seq<CommandOption>, name: string): (r: Option<CommandOption>)
    ensures r.None? <==> forall j :: 0 <= j < |options| ==> options[j].name != name
    ensures r.Some? ==> exists j :: 0 <= j < |options| && options[j] == r.value && r.value.name == name
                          && forall k :: 0 <= k < j ==> options[k].name != name
  {
    match OptionIndex(options, name)
    case None => None
    case Some(j) => Some(options[j])
  }

  class Context {
    const ctx: Origin
    const interaction: Option<Interaction>
    const message: Option<Message>
    const id: string
    const channelId: string
    const author: User
    const guildId: Option<string>
    var args: seq<Arg>
    var msg: Option<Message>

    ghost predicate Valid()
    {
      && interaction == InteractionOf(ctx)
      && message == MessageOf(ctx)
      && author == AuthorOf(ctx)
    }

    constructor (ctx: Origin, args: seq<Arg>)
      ensures Valid()
      ensures this.ctx == ctx && this.args == args && msg == None
      ensures id == (if ctx.FromMessage? then ctx.message.id else ctx.interaction.id)
      ensures channelId == (if ctx.FromMessage? then ctx.message.channelId else ctx.interaction.channelId)
    {
      this.ctx := ctx;
      this.interaction := InteractionOf(ctx);
      this.message := MessageOf(ctx);
      this.id := if ctx.FromMessage? then ctx.message.id else ctx.interaction.id;
      this.channelId := if ctx.FromMessage? then ctx.message.channelId else ctx.interaction.channelId;
      this.author := AuthorOf(ctx);
      this.guildId := if ctx.FromMessage? then ctx.message.guildId else ctx.interaction.guildId;
      this.args := args;
      this.msg := None;
    }

    /** `isInteraction`. */
    function IsInteraction(): (r: bool)
      requires Valid()
      ensures r <==> interaction.Some?
      ensures r ==> ctx.FromInteraction? && ctx.interaction.kind == ChatInputCommand
    {
      IsChatInputOrigin(ctx)
    }

    /** `message?.channel?.isSendable()`. */
    function CanSendToChannel(): (r: bool)
      ensures r <==> message.Some? && message.value.channel.Some? && message.value.channel.value.sendable
    {
      message.Some? && message.value.channel.Some? && message.value.channel.value.sendable
    }

    /**
     * `deferred`. For an interaction it is the platform's own flag, given as
     * `interactionDeferred`; for any other origin it says whether a message
     * has been sent.
     */
    function Deferred(interactionDeferred: bool): (r: bool)
      requires Valid()
      reads this
      ensures IsInteraction() ==> r == interactionDeferred
      ensures !IsInteraction() ==> (r <==> msg.Some?)
    {
      if IsInteraction() then interactionDeferred else msg.Some?
    }

    /** `sendMessage(content)`: reply and fetch the reply, or send to the message's channel. */
    method SendMessage(content: string, response: Result<Message, string>) returns (r: Result<Message, ContextError>, call: Option<PlatformCall>)
      requires Valid()
      modifies this`msg
      ensures IsInteraction() ==> call == Some(InteractionReply(content))
      ensures !IsInteraction() && CanSendToChannel() ==> call == Some(ChannelSend(message.value.channel.value.id, content))
      ensures call.Some? ==> (r.Ok? <==> response.Ok?)
      ensures call.Some? && response.Ok? ==> r == Ok(response.value) && msg == Some(response.value)
      ensures call.Some? && response.Err? ==> r == Err(PlatformRejected(response.error)) && msg == old(msg)
      ensures !IsInteraction() && !CanSendToChannel() ==> call == None && r == Err(UnableToSend) && msg == old(msg)
    {
      if IsInteraction() {
        call := Some(InteractionReply(content));
      } else if CanSendToChannel() {
        call := Some(ChannelSend(message.value.channel.value.id, content));
      } else {
        return Err(UnableToSend), None;
      }
      match response
      case Ok(m) =>
        msg := Some(m);
        r := Ok(m);
      case Err(e) =>
        r := Err(PlatformRejected(e));
    }

    /** `editMessage(content)`: edit the interaction's reply, or the last message sent. */
    method EditMessage(content: string, response: Result<Message, string>) returns (r: Result<Message, ContextError>, call: Option<PlatformCall>)
      requires Valid()
      modifies this`msg
      ensures IsInteraction() ==> call == Some(InteractionEditReply(content))
      ensures !IsInteraction() && old(msg).Some? ==> call == Some(MessageEdit(old(msg).value.id, content))
      ensures call.Some? && response.Ok? ==> r == Ok(response.value) && msg == Some(response.value)
      ensures call.Some? && response.Err? ==> r == Err(PlatformRejected(response.error)) && msg == old(msg)
      ensures !IsInteraction() && old(msg).None? ==> call == None && r == Err(NoMessageToEdit) && msg == None
    {
      if IsInteraction() {
        call := Some(InteractionEditReply(content));
      } else if msg.Some? {
        call := Some(MessageEdit(msg.value.id, content));
      } else {
        return Err(NoMessageToEdit), None;
      }
      match response
      case Ok(m) =>
        msg := Some(m);
        r := Ok(m);
      case Err(e) =>
        r := Err(PlatformRejected(e));
    }

    /** `sendDeferMessage(content)`: defer and fetch the reply (the content is not used then), or send to the channel. */
    method SendDeferMessage(content: string, response: Result<Message, string>) returns (r: Result<Message, ContextError>, call: Option<PlatformCall>)
      requires Valid()
      modifies this`msg
      ensures IsInteraction() ==> call == Some(InteractionDeferReply)
      ensures !IsInteraction() && CanSendToChannel() ==> call == Some(ChannelSend(message.value.channel.value.id, content))
      ensures call.Some? && response.Ok? ==> r == Ok(response.value) && msg == Some(response.value)
      ensures call.Some? && response.Err? ==> r == Err(PlatformRejected(response.error)) && msg == old(msg)
      ensures !IsInteraction() && !CanSendToChannel() ==> call == None && r == Err(UnableToSendDeferred) && msg == old(msg)
    {
      if IsInteraction() {
        call := Some(InteractionDeferReply);
      } else if CanSendToChannel() {
        call := Some(ChannelSend(message.value.channel.value.id, content));
      } else {
        return Err(UnableToSendDeferred), None;
      }
      match response
      case Ok(m) =>
        msg := Some(m);
        r := Ok(m);
      case Err(e) =>
        r := Err(PlatformRejected(e));
    }

    /**
     * `sendFollowUp(content)`: a follow-up leaves `msg` alone; a channel send
     * records the sent message; with neither it yields `undefined`.
     */
    method SendFollowUp(content: string, response: Result<Message, string>) returns (r: Result<Option<Message>, ContextError>, call: Option<PlatformCall>)
      requires Valid()
      modifies this`msg
      ensures IsInteraction() ==> call == Some(InteractionFollowUp(content)) && msg == old(msg)
      ensures IsInteraction() ==> r == (if response.Ok? then Ok(Some(response.value)) else Err(PlatformRejected(response.error)))
      ensures !IsInteraction() && CanSendToChannel() ==>
                && call == Some(ChannelSend(message.value.channel.value.id, content))
                && (response.Ok? ==> r == Ok(Some(response.value)) && msg == Some(response.value))
                && (response.Err? ==> r == Err(PlatformRejected(response.error)) && msg == old(msg))
      ensures !IsInteraction() && !CanSendToChannel() ==> call == None && r == Ok(None) && msg == old(msg)
    {
      if IsInteraction() {
        call := Some(InteractionFollowUp(content));
        r := if response.Ok? then Ok(Some(response.value)) else Err(PlatformRejected(response.error));
      } else if CanSendToChannel() {
        call := Some(ChannelSend(message.value.channel.value.id, content));
        match response
        case Ok(m) =>
          msg := Some(m);
          r := Ok(Some(m));
        case Err(e) =>
          r := Err(PlatformRejected(e));
      } else {
        r, call := Ok(None), None;
      }
    }

    /** `options.get(name, required)`: undefined for a message; a missing required option is an error. */
    function GetOption(name: string, required: bool): (r: Result<Option<CommandOption>, ContextError>)
      requires Valid()
      ensures !IsInteraction() ==> r == Ok(None)
      ensures IsInteraction() ==>
                && (r.Err? <==> required && FindOption(interaction.value.hoistedOptions, name).None?)
                && (r.Ok? ==> r.value == FindOption(interaction.value.hoistedOptions, name))
    {
      if interaction.None? then Ok(None)
      else
        var found := FindOption(interaction.value.hoistedOptions, name);
        if found.None? && required then Err(OptionNotFound(name)) else Ok(found)
    }

    /** `options.getRole(name, required)`. */
    function GetRole(name: string, required: bool): (r: Result<Option<string>, ContextError>)
      requires Valid()
      ensures !IsInteraction() ==> r == Ok(None)
      ensures GetOption(name, required).Err? ==> r == Err(GetOption(name, required).error)
      ensures GetOption(name, required) == Ok(None) ==> r == Ok(None)
      ensures GetOption(name, required).Ok? && GetOption(name, required).value.Some? ==>
                r == Ok(GetOption(name, required).value.value.role)
    {
      match GetOption(name, required)
      case Err(e) => Err(e)
      case Ok(o) => Ok(if o.Some? then o.value.role else None)
    }

    /** `options.getMember(name, required)`. */
    function GetMember(name: string, required: bool): (r: Result<Option<string>, ContextError>)
      requires Valid()
      ensures !IsInteraction() ==> r == Ok(None)
      ensures GetOption(name, required).Err? ==> r == Err(GetOption(name, required).error)
      ensures GetOption(name, required) == Ok(None) ==> r == Ok(None)
      ensures GetOption(name, required).Ok? && GetOption(name, required).value.Some? ==>
                r == Ok(GetOption(name, required).value.value.member)
    {
      match GetOption(name, required)
      case Err(e) => Err(e)
      case Ok(o) => Ok(if o.Some? then o.value.member else None)
    }

    /** `options.getChannel(name, required)`. */
    function GetChannel(name: string, required: bool): (r: Result<Option<string>, ContextError>)
      requires Valid()
      ensures !IsInteraction() ==> r == Ok(None)
      ensures GetOption(name, required).Err? ==> r == Err(GetOption(name, required).error)
      ensures GetOption(name, required) == Ok(None) ==> r == Ok(None)
      ensures GetOption(name, required).Ok? && GetOption(name, required).value.Some? ==>
                r == Ok(GetOption(name, required).value.value.channel)
    {
      match GetOption(name, required)
      case Err(e) => Err(e)
      case Ok(o) => Ok(if o.Some? then o.value.channel else None)
    }

    /** `options.getSubCommand()`: the name of the first top-level option, if any. */
    function GetSubCommand(): (r: Option<string>)
      requires Valid()
      ensures !IsInteraction() ==> r == None
      ensures IsInteraction() ==>
                (r.Some? <==> interaction.value.data != []) && (r.Some? ==> r.value == interaction.value.data[0].name)
    {
      if interaction.Some? && interaction.value.data != [] then Some(interaction.value.data[0].name) else None
    }
  }
}
