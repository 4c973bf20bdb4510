/**
 * The parts of the chat platform's objects that the core reads: users,
 * channels, messages and interactions. Network effects are not modelled here.
 */
module Platform {
  import opened Wrappers

  datatype User = User(id: string, bot: bool)

  /** A text channel; `sendable` is the platform's `isSendable()` answer. */
  datatype Channel = Channel(id: string, sendable: bool)

  datatype Message = Message(
    id: string,
    author: User,
    content: string,
    guildId: Option<string>,
    channelId: string,
    channel: Option<Channel>)

  datatype InteractionKind =
    | ChatInputCommand
    | MessageContextMenuCommand
    | UserContextMenuCommand
    | OtherInteraction

  /** One option of a chat-input interaction, with what it resolved to. */
  datatype CommandOption = CommandOption(
    name: string,
    role: Option<string>,
    member: Option<string>,
    channel: Option<string>)

  /**
   * An interaction. For a chat-input command, `data` is the top-level option
   * list and `hoistedOptions` the flattened list that name lookups search.
   */
  datatype Interaction = Interaction(
    id: string,
    kind: InteractionKind,
    commandName: string,
    user: User,
    guildId: Option<string>,
    channelId: string,
    data: seq<CommandOption>,
    hoistedOptions: seq<CommandOption>)
  {
    /** `isChatInputCommand()`. */
    predicate IsChatInput() { kind == ChatInputCommand }

    /** `isContextMenuCommand()`: a message or a user context-menu command. */
    predicate IsContextMenu() { kind == MessageContextMenuCommand || kind == UserContextMenuCommand }
  }

  /** What produced an invocation: a plain message or an interaction. */
  datatype Origin = FromMessage(message: Message) | FromInteraction(interaction: Interaction)

  /** The invoking actor: the author of a message, the user of an interaction. */
  function ActorId(o: Origin): (id: string)
    ensures o.FromMessage? ==> id == o.message.author.id
    ensures o.FromInteraction? ==> id == o.interaction.user.id
  {
    match o
    case FromMessage(m) => m.author.id
    case FromInteraction(i) => i.user.id
  }
}
