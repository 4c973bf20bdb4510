/**
 * The `messageCreate` event (src/app/events/messageCreate.ts): prefix
 * selection, extraction of the command token and lookup of the command by
 * name or alias. The selected command is handed to the prefix handler,
 * which is not part of this model.
 */
module MessageCreate {
  import opened Wrappers
  import opened Strings
  import opened Platform
  import Config
  import Client

  /** Index of the first prefix, in list order, that the lower-cased content starts with. */
  function FindPrefix(lowered: string, prefixes: seq<string>): (r: Option<nat>)
    ensures r.Some? ==> r.value < |prefixes| && StartsWith(lowered, prefixes[r.value])
    ensures r.Some? ==> forall j :: 0 <= j < r.value ==> !StartsWith(lowered, prefixes[j])
    ensures r.None? <==> forall j :: 0 <= j < |prefixes| ==> !StartsWith(lowered, prefixes[j])
    decreases |prefixes|
  {
    if prefixes == [] then None
    else if StartsWith(lowered, prefixes[0]) then Some(0)
    else
      match FindPrefix(lowered, prefixes[1..])
      case None => None
      case Some(i) => Some(i + 1)
  }

  /** The command token: the first `' '`-separated piece of the trimmed text after the prefix. */
  function CommandToken(content: string, prefixLength: nat): (token: string)
    requires prefixLength <= |content|
    ensures ' ' !in token
    ensures |token| <= |Trim(content[prefixLength..])|
    ensures token == Trim(content[prefixLength..])[..|token|]
    ensures |token| < |Trim(content[prefixLength..])| ==> Trim(content[prefixLength..])[|token|] == ' '
    ensures token == [] <==> Trim(content[prefixLength..]) == []
  {
    var trimmed := Trim(content[prefixLength..]);
    TrimIsInfix(content[prefixLength..]);
    var token := FirstPiece(trimmed, ' ');
    assert trimmed != [] ==> trimmed[0] != ' ' by {
      if trimmed != [] { assert !IsSpace(trimmed[0]); }
    }
    token
  }

  /** Command `c` answers to the (lower-cased) token by name or by alias. */
  predicate Answers(c: Client.CommandData, lowered: string) {
    c.name == lowered || lowered in c.aliases
  }

  /** Index of the first command, in collection order, that answers to the token. */
  function FindCommand(commands: seq<Client.CommandData>, lowered: string): (r: Option<nat>)
    ensures r.Some? ==> r.value < |commands| && Answers(commands[r.value], lowered)
    ensures r.Some? ==> forall j :: 0 <= j < r.value ==> !Answers(commands[j], lowered)
    ensures r.None? <==> forall j :: 0 <= j < |commands| ==> !Answers(commands[j], lowered)
    decreases |commands|
  {
    if commands == [] then None
    else if Answers(commands[0], lowered) then Some(0)
    else
      match FindCommand(commands[1..], lowered)
      case None => None
      case Some(i) => Some(i + 1)
  }

  /**
   * The lower-cased command token of message `m`, or `None` when the event
   * returns before the lookup: a bot author, no guild, no configured prefix,
   * or nothing after the prefix.
   */
  function MessageToken(m: Message): (r: Option<string>)
    ensures m.author.bot || m.guildId.None? ==> r.None?
    ensures FindPrefix(ToLower(m.content), Config.Prefixes).None? ==> r.None?
    ensures r.Some? <==>
              && !m.author.bot && m.guildId.Some?
              && FindPrefix(ToLower(m.content), Config.Prefixes).Some?
              && CommandToken(m.content, |Config.Prefixes[FindPrefix(ToLower(m.content), Config.Prefixes).value]|) != []
    ensures r.Some? ==>
              r.value == ToLower(CommandToken(m.content, |Config.Prefixes[FindPrefix(ToLower(m.content), Config.Prefixes).value]|))
  {
    if m.author.bot || m.guildId.None? then None
    else
      match FindPrefix(ToLower(m.content), Config.Prefixes)
      case None => None
      case Some(p) =>
        var token := CommandToken(m.content, |Config.Prefixes[p]|);
        if token == [] then None else Some(ToLower(token))
  }

  /** The command the event dispatches for message `m`, or `None` when it returns without dispatching. */
  function OnMessageCreate(m: Message, commands: Client.Collection<Client.CommandData>): (r: Option<Client.CommandData>)
    requires commands.Valid()
    ensures MessageToken(m).None? ==> r.None?
    ensures r.Some? ==> r.value in commands.Values()
  {
    match MessageToken(m)
    case None => None
    case Some(token) =>
      match FindCommand(commands.Values(), token)
      case None => None
      case Some(i) => Some(commands.Values()[i])
  }

  /**
   * A message with a command token is dispatched iff some command answers
   * to that token, and then the first such command in collection order is
   * chosen.
   */
  lemma DispatchIff(m: Message, commands: Client.Collection<Client.CommandData>)
    requires commands.Valid()
    ensures OnMessageCreate(m, commands).Some? <==>
              MessageToken(m).Some?
              && exists i :: 0 <= i < |commands.keys| && Answers(commands.Values()[i], MessageToken(m).value)
    ensures OnMessageCreate(m, commands).Some? ==>
              exists i :: 0 <= i < |commands.keys|
                && OnMessageCreate(m, commands).value == commands.Values()[i]
                && Answers(commands.Values()[i], MessageToken(m).value)
                && forall j :: 0 <= j < i ==> !Answers(commands.Values()[j], MessageToken(m).value)
  {
    if MessageToken(m).Some? {
      var values := commands.Values();
      var hit := FindCommand(values, MessageToken(m).value);
      if hit.Some? {
        assert OnMessageCreate(m, commands) == Some(values[hit.value]);
      }
    }
  }

  /** A message that is exactly a configured prefix is never dispatched. */
  lemma BarePrefixNoDispatch(m: Message, commands: Client.Collection<Client.CommandData>, p: nat)
    requires commands.Valid()
    requires p < |Config.Prefixes| && m.content == Config.Prefixes[p]
    ensures OnMessageCreate(m, commands).None?
  {
    var lowered := ToLower(m.content);
    assert lowered == m.content;
    if FindPrefix(lowered, Config.Prefixes).Some? {
      var q := FindPrefix(lowered, Config.Prefixes).value;
      assert |Config.Prefixes[q]| == 1;
      assert m.content[1..] == [];
      assert Trim(m.content[1..]) == [];
    }
  }

  /** The token of the text `"!ping"` is `"ping"`. */
  lemma PingToken()
    ensures CommandToken("!ping", 1) == "ping"
  {
    var rest := "!ping"[1..];
    assert rest == "ping";
    assert forall k :: 0 <= k < |rest| ==> !IsSpace(rest[k]) && rest[k] != ' ';
    TrimNoSpaces(rest);
    FirstPieceWhole(rest, ' ');
  }

  /** The command token of a message whose text is `"!ping"`, if it has one, is `"ping"`. */
  lemma PingMessageToken(m: Message)
    requires m.content == "!ping"
    ensures MessageToken(m).Some? ==> MessageToken(m).value == "ping"
  {
    PingIsLowerCase();
    PingPrefix();
    PingToken();
  }

  /** `"!ping"` and `"ping"` are already lower case. */
  lemma PingIsLowerCase()
    ensures ToLower("!ping") == "!ping" && ToLower("ping") == "ping"
  {
    assert forall k :: 0 <= k < |"!ping"| ==> !('A' <= "!ping"[k] <= 'Z');
    assert forall k :: 0 <= k < |"ping"| ==> !('A' <= "ping"[k] <= 'Z');
  }

  /** `"!ping"` is selected by the first configured prefix, the one-character `"!"`. */
  lemma PingPrefix()
    ensures FindPrefix("!ping", Config.Prefixes) == Some(0)
    ensures |Config.Prefixes[0]| == 1
  {
    assert StartsWith("!ping", Config.Prefixes[0]);
  }

  /** `"!ping"` with no command named or aliased `ping` is not dispatched. */
  lemma UnknownCommandNoDispatch(m: Message, commands: Client.Collection<Client.CommandData>)
    requires commands.Valid()
    requires m.content == "!ping"
    requires forall k :: k in commands.entries ==> !Answers(commands.entries[k], "ping")
    ensures OnMessageCreate(m, commands).None?
  {
    PingMessageToken(m);
    var values := commands.Values();
    forall j | 0 <= j < |values| ensures !Answers(values[j], "ping") {
      assert commands.keys[j] in commands.entries;
    }
  }
}
