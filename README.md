# discord-ts-bot core, modelled in Dafny

This project models the core of a chat bot written in TypeScript against the
discord.js platform library. It covers four parts.

- **The rate limiter** (`Cooldown`). This is the `Cooldown` class of
  `src/structures/cooldown.ts`. It keeps a map from the key `"<id>-<type>"`
  to a mutable record `{count, lastUsage}`.
  - `checkLimit` seeds, counts and limits a key.
  - A timer sweeps old records. The model has the sweep body as a method that
    takes the instant `now`.
  - Records are objects, so `Limiter.limits` maps keys to `UserLimit`
    references. This lets the bare-id `set` of the source alias the
    composite-key record, exactly as in JavaScript.
- **The dispatch pipeline:**
  - the cooldown gate and the context-menu pipeline of
    `src/utils/common/handler.ts` (`Handler`);
  - the text-command parser and matcher of `src/app/events/messageCreate.ts`
    (`MessageCreate`, on top of `Strings`);
  - the interaction router of `src/app/events/interactionCreate.ts`
    (`InteractionCreate`);
  - the plugin registry and command publisher of `src/structures/client.ts`
    (`Client`).

  The configuration constants of `src/config.ts` are in `Config`: the
  prefixes `!`, `?` and `.`, five attempts, and a 10-second window.
- **The invocation context** (`InteractionContext`). This is the `Context`
  class of `src/structures/interaction.ts`. It wraps either a chat-input
  interaction or a message, and its one mutable field `msg` is updated by the
  send, edit, defer and follow-up operations.
- **The persistence services:**
  - `LogsService`, `ServerService` and `UserService`, for
    `src/modules/servers/logs.service.ts`,
    `src/modules/servers/server.service.ts` and
    `src/modules/users/user.service.ts`;
  - their shared vocabulary in `Persistence`: JavaScript's
    `string | null | undefined` values, `?? null`, and the `rowCount` rule.

  Each table is an abstract map from row id to row. Two schema constraints of
  `src/infrastructure/database/schema/` are modelled: a log's `server_id`
  must name a server, and deleting a server deletes its logs. The `NOT NULL`
  constraints on a server's `name` and on a user's `username` are modelled
  too.

How effects are modelled:
- Platform calls, database calls and plugin bodies are not executed.
- Where the code awaits one, its outcome is a parameter: the message a send
  resolves to, the error it rejects with, whether a defer or a plugin call
  throws, or a database `fault`.
- The calls the code makes are returned as data (`PlatformCall`,
  `Handler.Effect`, `Client.PublishStep`, `Client.LogLine`).
- The clock is the parameter `now`.

Pure code in the source is written as functions and lemmas. Code that
updates state is written as classes and methods proved against those
functions:
- the limiter;
- the client's loaders;
- the context's `msg`;
- the field-by-field `buildUpdatePayload` of each service.

## Model

| member | source | states |
|---|---|---|
| Cooldown.KeyOf | src/structures/cooldown.ts:31 | The key is the id, a `-`, then the decimal type, so it is longer than the id and begins with it |
| Cooldown.KeyOfInjective | src/structures/cooldown.ts:31 | One actor's keys for two types are equal only when the types are, so each type has its own record |
| Cooldown.KeyIsNotBareId | src/structures/cooldown.ts:31-49 | The composite key is never the bare id, so the `delete(id)`/`set(id, …)` writes never touch the composite-key entry |
| Cooldown.Limited | src/structures/cooldown.ts:40-45 | A limited answer carries the retry instant `lastUsage + minutes` and its time in whole seconds, rounded down |
| Cooldown.Step | src/structures/cooldown.ts:31-46 | Reference definition of one `checkLimit` call on the composite key's record, with no contract of its own. What it means is stated by `StepCounts` and `StepLimitedIff` below and by `Limiter.CheckLimit`, which follows it |
| Cooldown.StepCounts | src/structures/cooldown.ts:31-37 | The first call on a key seeds `{1, now}`; every later call adds exactly one and keeps `lastUsage` |
| Cooldown.StepLimitedIff | src/structures/cooldown.ts:38-46 | A call is limited iff the record exists, `now - lastUsage < minutes` and the incremented count is at least `count`; then `delete = lastUsage + minutes`; otherwise the answer is exactly `{hasLimit: false}` |
| Cooldown.Run | src/structures/cooldown.ts:23-51 | A sequence of calls gives one answer per call |
| Cooldown.RunWithinWindow | src/structures/cooldown.ts:37-46 | Calls inside the window of `{c, t0}` leave `{c + n, t0}`; the n-th is limited iff `c + n + 1 >= count`, with retry instant `t0 + minutes` |
| Cooldown.FreshKeyCalls | src/structures/cooldown.ts:31-46 | On a fresh key, with calls inside the first call's window, call n (from 1) is limited iff n >= 2 and n >= `count`, and its retry instant lies after the call |
| Cooldown.RunAfterExpiry | src/structures/cooldown.ts:37-40 | Once every call is past the window, no call is limited, however high the count grows |
| Cooldown.ExpiredStaysUnlimited | src/structures/cooldown.ts:38-40 | With non-decreasing instants, a first call past the window means no later call is ever limited, because `lastUsage` is frozen |
| Cooldown.SweptAsWritten | src/structures/cooldown.ts:19 | Reference definition of the sweep test as written (`3 600 000 >= now - lastUsage`), with no contract of its own. `SweepAsWrittenDropsFresh` and `Limiter.Sweep` state what it does |
| Cooldown.SweptStale | src/structures/cooldown.ts:19 | Reference definition of the corrected sweep test, with no contract of its own. `SweptStaleExact` and `Limiter.SweepStale` state what it does |
| Cooldown.SweepAsWrittenDropsFresh | src/structures/cooldown.ts:19 | The sweep predicate as written removes a record used at this very instant and keeps one idle for two hours |
| Cooldown.SweptStaleExact | src/structures/cooldown.ts:19 | The corrected predicate removes exactly the records idle for more than one hour, and never a record used within the hour |
| Cooldown.UserLimit.constructor | src/structures/cooldown.ts:3-6 | A record starts with the given count and last usage |
| Cooldown.Limiter.constructor | src/structures/cooldown.ts:15 | The limiter starts with no records |
| Cooldown.Limiter.CheckLimit | src/structures/cooldown.ts:23-51 | The composite-key record evolves as `Step` says, and the answer is `Step`'s. A new key's record is fresh and is the only change. For an existing key: a limited call changes no binding; an unlimited call past the window unbinds the bare id; otherwise it binds the bare id to the same record. Every key other than the composite key and the bare id keeps its binding, and no other record changes |
| Cooldown.Limiter.Sweep | src/structures/cooldown.ts:18-20 | As written: exactly the records with `now - lastUsage <= 3 600 000` are removed; the others are kept, unchanged |
| Cooldown.Limiter.SweepStale | src/structures/cooldown.ts:19 | Corrected: exactly the records with `now - lastUsage > 3 600 000` are removed; the others are kept, unchanged |
| Platform.ActorId | src/utils/common/handler.ts:24-25 | The actor is a message's author, or an interaction's user |
| Handler.GateCoarseLimited | src/utils/common/handler.ts:27-41 | A limited coarse check stops the gate: `true`, one "too quickly" notice with the retry time, and the counter advanced by one call only |
| Handler.GateFalseIff | src/utils/common/handler.ts:34-60 | The gate answers `false` iff the coarse check is not limited and either there is no cooldown or the second check is not limited; it sends a notice iff it answers `true` |
| Handler.GateCountsTwice | src/utils/common/handler.ts:43-49 | With a truthy cooldown and an unlimited coarse check, the same key is counted twice |
| Handler.GateCountsOnce | src/utils/common/handler.ts:27-32 | Without a cooldown the key is counted once |
| Handler.GateNoticeLifetime | src/utils/common/handler.ts:34-57 | A notice's lifetime is the limiting result's `delete` minus `now`, and it is positive |
| Handler.Gate | src/utils/common/handler.ts:15-61 | Reference definition of `cooldownHandler`'s two checks on one record, with no contract of its own. `GateCoarseLimited`, `GateFalseIff`, `GateCountsTwice`, `GateCountsOnce` and `GateNoticeLifetime` state what it does |
| Handler.ConfiguredFifthCallFirstLimited | src/utils/common/handler.ts:27-32 | With the configured 5 attempts, on a fresh key inside one window, the fifth call is the first limited one |
| Handler.CooldownHandler | src/utils/common/handler.ts:15-61 | The method leaves the actor's record at the gate's entry and returns the gate's answer and notices. A limited first check changes no binding. The bare id ends unbound, bound as before, or bound to the composite-key record. Every other key keeps its binding, and every other record keeps its count and last usage |
| Handler.SlashCommand | src/utils/common/handler.ts:63-67 | The slash handler makes no call |
| Handler.ContextGatedStops | src/utils/common/handler.ts:76-77 | When the gate answers `true`, neither the defer, nor the plugin, nor a follow-up is reached |
| Handler.ContextRun | src/utils/common/handler.ts:69-88 | Reference definition of the calls `contextCommand` makes, with no contract of its own: the gate's notices when it answers `true`, otherwise the defer-and-run pipeline. `ContextGatedStops` and `ContextOrderAndContainment` state what it does |
| Handler.ContextOrderAndContainment | src/utils/common/handler.ts:79-87 | Otherwise the first call is the defer, ephemeral iff the context says so, and it is made once. The plugin runs once iff the defer did not throw, and always after it. A throw in either gives exactly one follow-up and one error line |
| Handler.ContextCommand | src/utils/common/handler.ts:69-88 | The calls of `contextCommand` are `ContextRun` of the actor's record before the call, and the record ends as the gate leaves it. The bare id ends unbound, bound as before, or bound to that record. Every other key keeps its binding and every other record its fields |
| Strings.LowerChar | src/app/events/messageCreate.ts:10 | An ASCII capital maps to its lower-case letter; any other character is kept |
| Strings.ToLower | src/app/events/messageCreate.ts:10 | Lower-casing keeps the length and maps each character by itself |
| Strings.LeadingSpaces | src/app/events/messageCreate.ts:17 | The count is a maximal run of leading white space |
| Strings.TrailingSpaces | src/app/events/messageCreate.ts:17 | The count is a maximal run of trailing white space |
| Strings.Trim | src/app/events/messageCreate.ts:17 | Reference definition of `trim`, with no contract of its own. `TrimIsInfix`, `TrimBounds` and `TrimNoSpaces` state what it does |
| Strings.TrimIsInfix | src/app/events/messageCreate.ts:17 | `trim` gives an infix with only white space around it; it neither starts nor ends with white space; it is empty iff the text is all white space |
| Strings.TrimBounds | src/app/events/messageCreate.ts:17 | Where `trim` cuts: after the leading and before the trailing white space |
| Strings.TrimNoSpaces | src/app/events/messageCreate.ts:17 | A text without white space trims to itself |
| Strings.FirstPiece | src/app/events/messageCreate.ts:18 | `split(' ')[0]` is the prefix before the first space; it holds no space, and it is followed by a space unless it is the whole text |
| Strings.FirstPieceWhole | src/app/events/messageCreate.ts:18 | A text without a space is its own first piece |
| Strings.DigitChar | src/structures/cooldown.ts:31 | A digit renders as a character `0`..`9` |
| Strings.NatToString | src/structures/cooldown.ts:31 | A natural number renders as a non-empty string of digits |
| Strings.NatToStringValue | src/structures/cooldown.ts:31 | Reading the rendering back as decimal digits gives the number, so the digits spell it |
| Strings.NatToStringInjective | src/structures/cooldown.ts:31 | Two natural numbers with the same rendering are equal |
| Strings.IntToString | src/structures/cooldown.ts:31 | An integer renders as its digits, after a `-` when it is negative |
| Strings.IntToStringSign | src/structures/cooldown.ts:31 | A rendering starts with `-` iff the integer is negative |
| Strings.IntToStringInjective | src/structures/cooldown.ts:31 | Two integers with the same rendering are equal |
| MessageCreate.FindPrefix | src/app/events/messageCreate.ts:9-13 | The result is the first prefix, in list order, that the lower-cased content starts with; it is none iff no prefix matches |
| MessageCreate.CommandToken | src/app/events/messageCreate.ts:15-18 | The token is the part of the trimmed text after the prefix up to its first space; it holds no space; it is empty iff the trimmed text is |
| MessageCreate.Answers | src/app/events/messageCreate.ts:22-26 | Reference definition of the `find` test, with no contract of its own: the name equals the token or the aliases contain it. `FindCommand` and `DispatchIff` state what follows from it |
| MessageCreate.FindCommand | src/app/events/messageCreate.ts:22-26 | The result is the first command in collection order whose name equals the token or whose aliases contain it; it is none iff no command answers |
| MessageCreate.MessageToken | src/app/events/messageCreate.ts:7-20 | A bot author, a missing guild or no matching prefix gives no token. Otherwise there is a token iff the text after the prefix is non-empty once trimmed and cut, and the token is then lower-cased |
| MessageCreate.OnMessageCreate | src/app/events/messageCreate.ts:6-31 | Without a token nothing is dispatched; a dispatched command is one of the registered commands |
| MessageCreate.DispatchIff | src/app/events/messageCreate.ts:20-30 | A message is dispatched iff it has a token and some command answers to it; then the first such command in collection order is the one chosen |
| MessageCreate.BarePrefixNoDispatch | src/app/events/messageCreate.ts:15-20 | A message that is exactly a configured prefix is not dispatched |
| MessageCreate.PingToken | src/app/events/messageCreate.ts:15-18 | The token of `!ping` after the one-character prefix is `ping` |
| MessageCreate.PingMessageToken | src/app/events/messageCreate.ts:7-20 | The token of a message `!ping`, if it has one, is `ping` |
| MessageCreate.PingIsLowerCase | src/app/events/messageCreate.ts:10 | `!ping` and `ping` are already lower case |
| MessageCreate.PingPrefix | src/app/events/messageCreate.ts:9-11 | `!ping` is selected by the first prefix, `!`, one character long |
| MessageCreate.UnknownCommandNoDispatch | src/app/events/messageCreate.ts:22-28 | `!ping` with no command named or aliased `ping` is not dispatched |
| InteractionCreate.RouteOf | src/app/events/interactionCreate.ts:7-23 | A chat-input interaction goes to the slash handler iff `commands` holds its exact name. A context menu goes to the context handler iff `contexts` holds its exact name, and otherwise gets the error reply. Every other case, including an unknown chat-input name, has no route |
| InteractionCreate.NonContextEffects | src/app/events/interactionCreate.ts:17-23 | An unknown context menu gets exactly one ephemeral "An error has occurred" reply; every other unrouted case makes no call |
| InteractionCreate.OnInteractionCreate | src/app/events/interactionCreate.ts:6-25 | A known context menu makes `ContextRun`'s calls and leaves the actor's record at the gate's entry. The bare id ends unbound, bound as before, or bound to that record. Every other key keeps its binding, and every other record keeps its fields. Every other interaction makes the calls above and changes no binding and no record |
| Client.Collection.Get | src/app/events/interactionCreate.ts:8 | `get` finds a value iff the key is present, and then it is that key's value |
| Client.Collection.Set | src/structures/client.ts:36 | `set` keeps the collection well formed. It binds the key; an existing key keeps its position and a new key is appended |
| Client.Collection.Values | src/structures/client.ts:109-112 | `values()` lists the entries in key order |
| Client.EmptyCollection | src/structures/client.ts:20-21 | A new collection is empty and well formed |
| Client.LoadAll | src/structures/client.ts:29-38 | Reference definition of a loader's effect on its collection, with no contract of its own. `LoadAllKeepsOrder`, `LoadAllKeys`, `LoadAllLastWins` and `LoadAllKeepsUndeclared` state what it does |
| Client.LoadAllKeepsOrder | src/structures/client.ts:29-38 | Loading keeps the collection well formed and its earlier keys in place |
| Client.LoadAllKeys | src/structures/client.ts:31-36 | A name is registered iff it was already, or some module with a default export and a non-empty name declares it |
| Client.LoadAllLastWins | src/structures/client.ts:36 | The last accepted module declaring a name is the one registered under it |
| Client.LoadAllKeepsUndeclared | src/structures/client.ts:31-36 | A name no accepted module declares keeps its earlier value |
| Client.CommandLoadLog | src/structures/client.ts:32-37 | Each command module logs exactly one line |
| Client.ContextLoadLog | src/structures/client.ts:48-52 | Context modules log at most one line each |
| Client.ContextLoadLogCount | src/structures/client.ts:48-52 | Each rejected context module logs exactly one warning, and an accepted one logs nothing |
| Client.EventListeners | src/structures/client.ts:63-70 | Event modules bind at most one listener each |
| Client.EventListenersCount | src/structures/client.ts:63-70 | Each accepted event module binds exactly one listener, and a rejected one binds none |
| Client.EventListenersExact | src/structures/client.ts:63-70 | A listener is bound iff some accepted module, one with a name and an `execute`, declares it |
| Client.EventLoadLog | src/structures/client.ts:63-66 | Each event module either logs a warning or binds a listener, never both |
| Client.EventStep | src/structures/client.ts:60-71 | One more module extends the listeners and the warnings by that module's contribution |
| Client.FilterSeq | src/structures/client.ts:109-111 | `filter` keeps only elements of the input that satisfy the predicate |
| Client.FilterConcat | src/structures/client.ts:119-127 | Filtering distributes over concatenation, so it keeps input order |
| Client.FilterPartition | src/structures/client.ts:116-127 | A predicate and its negation split the input: as multisets the two parts add up to it, and their lengths sum to its length |
| Client.FilterDisjoint | src/structures/client.ts:116-127 | A predicate and its negation select disjoint parts |
| Client.BuildCommandData | src/structures/client.ts:90-106 | Every command becomes a chat-input declaration with its name, description and options, in order and before every context menu. Each context menu becomes a declaration with its name and type. The length is the sum |
| Client.RegisterCommands | src/structures/client.ts:75-88 | An empty list makes no call. The guild target sets the commands, or logs "Developer guild not found." when the guild is missing. The global target sets them when an application exists |
| Client.PublishSplitsEligible | src/structures/client.ts:108-127 | Only slash commands and all contexts are eligible. `maintanence` splits them into a guild part and a global part, which are disjoint and together hold each eligible item exactly once |
| Client.PublishPlan | src/structures/client.ts:108-137 | Reference definition of the calls `loadInteractions` makes, with no contract of its own. `PublishSplitsEligible`, `PublishNothingWhenEmpty` and `RegisterCommands` state what it does |
| Client.PublishNothingWhenEmpty | src/structures/client.ts:114 | With no slash command and no context nothing is registered in either scope |
| Client.MissingGuildStillPublishesGlobal | src/structures/client.ts:129-137 | A missing developer guild only logs, and the global registration is still made after it |
| Client.Client.constructor | src/structures/client.ts:19-24 | A client starts with empty registries, no listeners and an empty limiter |
| Client.Client.LoadCommands | src/structures/client.ts:26-40 | The commands become `LoadAll` of the modules in completion order, and the log gets the start line and one line per module. Nothing else changes |
| Client.Client.LoadContexts | src/structures/client.ts:42-55 | The contexts become `LoadAll` of the modules, the log gets the start line and one warning per rejected module, and nothing else changes |
| Client.Client.LoadEvents | src/structures/client.ts:57-73 | The listeners are extended by exactly the accepted modules' listeners, the log gets the start line and one warning per rejected module, and the registries are unchanged |
| Client.Client.LoadInteractions | src/structures/client.ts:108-138 | The calls made are `PublishPlan` over the registries in collection order; none when nothing is eligible |
| InteractionContext.InteractionOf | src/structures/interaction.ts:31-32 | `interaction` is set iff the origin is a chat-input interaction, and then it is the origin |
| InteractionContext.MessageOf | src/structures/interaction.ts:33 | `message` is set iff the origin is a message, and then it is the origin |
| InteractionContext.AuthorOf | src/structures/interaction.ts:38-39 | The author is a message's author or an interaction's user, the same actor the gate counts |
| InteractionContext.OptionIndex | src/structures/interaction.ts:129-131 | The result is the first option with the name, and it is none iff no option has that name |
| InteractionContext.FindOption | src/structures/interaction.ts:129-131 | An option is found iff one has the name, and it is the first such option |
| InteractionContext.Context.constructor | src/structures/interaction.ts:29-46 | The fields are derived from the origin as above, `msg` starts unset, and `id` and `channelId` come from the origin |
| InteractionContext.Context.IsInteraction | src/structures/interaction.ts:48-50 | `isInteraction` holds iff `interaction` is set |
| InteractionContext.Context.CanSendToChannel | src/structures/interaction.ts:60 | The test holds iff the origin is a message whose channel exists and is sendable |
| InteractionContext.Context.Deferred | src/structures/interaction.ts:118-120 | For an interaction the result is the platform's flag; otherwise it holds iff `msg` is set |
| InteractionContext.Context.SendMessage | src/structures/interaction.ts:52-67 | An interaction replies and a message origin sends to its channel. On success `msg` is the returned message; a rejection leaves `msg` as it was. With neither, the call fails with "Unable to send message" and makes no platform call |
| InteractionContext.Context.EditMessage | src/structures/interaction.ts:69-83 | An interaction edits its reply; otherwise the last message is edited. On success `msg` is the edited message. A message origin with no `msg` fails with "No message to edit" |
| InteractionContext.Context.SendDeferMessage | src/structures/interaction.ts:85-104 | An interaction defers; a message origin sends to its channel. On success `msg` is the returned message. With neither, the call fails with its own error |
| InteractionContext.Context.SendFollowUp | src/structures/interaction.ts:106-116 | An interaction follows up and leaves `msg` alone. A sendable message origin sends and records the message. With neither, the result is `undefined` rather than an error |
| InteractionContext.Context.GetOption | src/structures/interaction.ts:129-131 | A message origin gives `undefined`. For an interaction the option is looked up by name, and the lookup fails iff it is required and missing |
| InteractionContext.Context.GetRole | src/structures/interaction.ts:123-125 | The result is the option's role, with `get`'s error and `undefined` cases |
| InteractionContext.Context.GetMember | src/structures/interaction.ts:126-128 | The result is the option's member. It carries `get`'s error, and an option that is not there gives `undefined` |
| InteractionContext.Context.GetChannel | src/structures/interaction.ts:132-134 | The result is the option's channel. It carries `get`'s error, and an option that is not there gives `undefined` |
| InteractionContext.Context.GetSubCommand | src/structures/interaction.ts:135-137 | The result is the name of the first top-level option when there is one, otherwise `undefined`; a message origin always gives `undefined` |
| Persistence.OrNull | src/modules/servers/logs.service.ts:44-48 | `v ?? null` is the string when there is one, otherwise `null` |
| Persistence.CoalescedColumn | src/modules/servers/logs.service.ts:95-99 | The column written for `v ?? null` is the string, or SQL `NULL` for `null` and `undefined` |
| Persistence.StoredText | src/modules/servers/logs.service.ts:141-146 | A text column leaves that string in the row, and `NULL` leaves `null` |
| Persistence.DeletedFlag | src/modules/servers/logs.service.ts:218 | As written, the answer is `true` for every row count, zero included |
| Persistence.RowsDeleted | src/modules/servers/logs.service.ts:218 | As intended, the answer is `true` when the driver gives no count, and otherwise iff the count is positive |
| LogsService.NormalizeRow | src/modules/servers/logs.service.ts:37-51 | The record keeps `id`, `serverId` and `createdAt`, and each optional column is its value `?? null` |
| LogsService.UpdatePayloadShape | src/modules/servers/logs.service.ts:56-83 | The payload has an entry iff the field is an own key of `updates`, holding its value `?? null`; the payload is `null` iff no field is present |
| LogsService.UpdatePayload | src/modules/servers/logs.service.ts:56-83 | Reference definition of `buildUpdatePayload`, with no contract of its own. `UpdatePayloadShape` states what it holds, and `BuildUpdatePayload` is proved equal to it |
| LogsService.AddField | src/modules/servers/logs.service.ts:61-79 | One `Object.hasOwn` step extends the payload by that field exactly when it is present |
| LogsService.BuildUpdatePayload | src/modules/servers/logs.service.ts:56-83 | Filling the payload field by field gives the reference payload |
| LogsService.SaveValues | src/modules/servers/logs.service.ts:92-100 | The upsert writes every optional column, each as its input `?? null` |
| LogsService.SaveLog | src/modules/servers/logs.service.ts:88-125 | A fault fails with no write. A `serverId` that names no server fails on the foreign key. Otherwise the row is inserted or overwritten, no other row changes, and the saved row is returned normalised |
| LogsService.GetLogById | src/modules/servers/logs.service.ts:163-180 | The normalised row when it exists; `null` when it does not or when the query fails |
| LogsService.GetLogsByServerId | src/modules/servers/logs.service.ts:185-205 | Exactly the normalised rows of that server; none when the query fails |
| LogsService.UpdateLog | src/modules/servers/logs.service.ts:130-158 | No payload gives `null` and no write, whatever the query would do. With a payload, a failing query is rethrown with no write, and a missing row gives `null` with no write. Otherwise the row is rewritten, the updated record is returned normalised, and no other row changes |
| LogsService.DeleteLog | src/modules/servers/logs.service.ts:210-227 | A failing query is rethrown with no delete. Otherwise exactly that row goes, the other rows are kept, and the answer is `true` as written, even for an id with no row (see "## Findings") |
| LogsService.UpdateWithoutPayload | src/modules/servers/logs.service.ts:135-139 | With no payload field present, `updateLog` returns `null` and writes nothing, even when the query would fail |
| LogsService.UpdateWritesPresentFields | src/modules/servers/logs.service.ts:130-158 | An update of an existing row with a payload succeeds and returns the updated record. Each of the five fields takes its given value `?? null` when it is present and keeps its old value when it is absent. The keys, the creation time and every other row are kept |
| LogsService.SaveThenGet | src/modules/servers/logs.service.ts:88-125 | The saved record is what `getLogById` then reads. Its optional fields are the inputs `?? null`, and it keeps an existing row's creation time |
| LogsService.DeleteAlwaysTrue | src/modules/servers/logs.service.ts:210-218 | As written, `deleteLog` removes the row and answers `true`, even for an id with no row |
| LogsService.DeleteReportsRemoval | src/modules/servers/logs.service.ts:218 | With the count read as intended, the answer is `true` iff the row existed |
| ServerService.NormalizeRow | src/modules/servers/server.service.ts:30-42 | The record keeps `id`, `name` and `createdAt`; each optional column is its value `?? null` |
| ServerService.UpdatePayloadShape | src/modules/servers/server.service.ts:44-66 | `name` enters the payload iff it is not `undefined`, and an explicit `null` name passes through. The other fields enter iff they are own keys, coalesced. The payload is `null` iff no field enters |
| ServerService.UpdatePayload | src/modules/servers/server.service.ts:44-66 | Reference definition of `buildUpdatePayload`, with no contract of its own. `UpdatePayloadShape` states what it holds, and `BuildUpdatePayload` is proved equal to it |
| ServerService.AddField | src/modules/servers/server.service.ts:49-63 | One step extends the payload by that field exactly when the step takes it |
| ServerService.BuildUpdatePayload | src/modules/servers/server.service.ts:44-66 | Filling the payload field by field gives the reference payload |
| ServerService.SaveValues | src/modules/servers/server.service.ts:74-80 | The upsert writes the name and every optional column, each as its input `?? null` |
| ServerService.SaveServer | src/modules/servers/server.service.ts:68-105 | A fault fails with no write. Otherwise the row is inserted or overwritten, no other row changes, and the saved row is returned normalised |
| ServerService.GetServerById | src/modules/servers/server.service.ts:137-154 | The normalised row when it exists; `null` when it does not or when the query fails |
| ServerService.UpdateServer | src/modules/servers/server.service.ts:107-135 | No payload gives `null` and no write. With a payload, a failing query is rethrown with no write, and a missing row gives `null` with no write. On an existing row the only error is the `name` NOT NULL violation, with no write; a success rewrites that row, returns it normalised, and keeps every other row |
| ServerService.DeleteServer | src/modules/servers/server.service.ts:156-173 | A failing query is rethrown with nothing deleted. Otherwise exactly that server goes, its logs go in cascade, the other rows are kept, and the answer is `true` as written, even for an id with no row (see "## Findings") |
| ServerService.CascadeLogs | src/infrastructure/database/schema/server.ts:16-18 | The logs left are exactly those that do not reference the deleted server, unchanged |
| ServerService.UpdateWithoutPayload | src/modules/servers/server.service.ts:112-116 | With no field taken, `updateServer` returns `null` and writes nothing |
| ServerService.NullNameRejected | src/modules/servers/server.service.ts:49-51 | An explicit `null` name reaches the NOT NULL `name` column, and the update fails with no write |
| ServerService.UpdateWritesName | src/modules/servers/server.service.ts:117-126 | An update with only a name writes that name, keeps every other column, and returns the updated record |
| ServerService.UpdateWritesPresentFields | src/modules/servers/server.service.ts:107-135 | An update of an existing row with a payload fails on a `null` name and changes nothing. Otherwise it writes a string name, and each other field present as its value `?? null`. It keeps every absent column, an `undefined` name, the creation time and every other row |
| ServerService.SaveThenGet | src/modules/servers/server.service.ts:68-105 | The saved record is what `getServerById` then reads. Its optional fields are the inputs `?? null`, and it keeps an existing row's creation time |
| ServerService.DeleteCascades | src/modules/servers/server.service.ts:156-164 | `deleteServer` answers `true` and removes the server and every log that references it; every other log is kept |
| ServerService.DeleteReportsRemoval | src/modules/servers/server.service.ts:164 | With the count read as intended, the answer is `true` iff the row existed |
| UserService.NormalizeRow | src/modules/users/user.service.ts:33-48 | The record keeps `id`, `username` and both timestamps; each optional column is its value `?? null` |
| UserService.UpdatePayloadShape | src/modules/users/user.service.ts:50-73 | The payload always holds `updatedAt = now`. Besides it, `username` enters iff it is not `undefined`, and the others enter iff they are own keys, coalesced. It is `null` iff nothing beyond the stamp enters |
| UserService.UpdatePayload | src/modules/users/user.service.ts:50-73 | Reference definition of `buildUpdatePayload`, with no contract of its own. `UpdatePayloadShape` states what it holds, and `BuildUpdatePayload` is proved equal to it |
| UserService.AddField | src/modules/users/user.service.ts:56-70 | One step extends the payload by that field exactly when the step takes it |
| UserService.StampOnly | src/modules/users/user.service.ts:54 | The payload starts as the stamp alone |
| UserService.BuildUpdatePayload | src/modules/users/user.service.ts:50-73 | Filling the stamped payload field by field gives the reference payload |
| UserService.SaveValues | src/modules/users/user.service.ts:80-87 | The upsert writes the username, every optional column `?? null`, and `updatedAt = now` |
| UserService.SaveUser | src/modules/users/user.service.ts:75-111 | A fault fails with no write. Otherwise the row is inserted or overwritten, no other row changes, and the saved row is returned normalised |
| UserService.GetUserById | src/modules/users/user.service.ts:143-160 | The normalised row when it exists; `null` when it does not or when the query fails |
| UserService.UpdateUser | src/modules/users/user.service.ts:113-141 | No payload beyond the stamp gives `null` and no write. With a payload, a failing query is rethrown with no write, and a missing row gives `null` with no write. On an existing row the only error is the `username` NOT NULL violation, with no write; a success rewrites that row, returns it normalised, and keeps every other row |
| UserService.UpdateWithoutPayload | src/modules/users/user.service.ts:119-123 | With no field beyond the stamp, `updateUser` returns `null` and writes nothing |
| UserService.UpdateStampsRow | src/modules/users/user.service.ts:125-132 | A successful update stamps the row with `now` and keeps its creation time and every other row. The update can fail only on a `null` username, with no write |
| UserService.UpdateWritesPresentFields | src/modules/users/user.service.ts:113-141 | An update of an existing user with a payload fails on a `null` username and changes nothing. Otherwise it stamps `updatedAt` with `now` and writes a string username, and each other field present as its value `?? null`. It keeps every absent column, an `undefined` username, the creation time and every other row |
| UserService.NullUsernameRejected | src/modules/users/user.service.ts:56-58 | An explicit `null` username reaches the NOT NULL column, and the update fails with no write |
| UserService.SaveThenGet | src/modules/users/user.service.ts:75-102 | The saved record is what `getUserById` then reads. Its optional fields are the inputs `?? null`, and it has `updatedAt = now` and an existing row's creation time |

## Left out

- The `setInterval` timer that runs the sweep every 30 seconds is not modelled; only its body is, as `Limiter.Sweep(now)`.
- The `setTimeout` that deletes a throttle notice after its lifetime is not modelled. The reply itself, and the catch around it, appear only as a `SendNotice` effect.
- The clock is one instant per invocation: the `Date.now()` inside `checkLimit` and the one in `cooldownHandler` read the same `now`.
- Dynamic imports are modelled as modules that have already loaded, in the order they complete. Races between completions and a dispatch seeing a half-filled registry are not modelled.
- Directory traversal (`recursiveReadDirSync`) is not part of this model; the modules are given as a sequence.
- A rejection from a guild or application `commands.set` call is not modelled.
- `EventData.once` is kept but not consulted, because `loadEvents` always binds with `on`.
- The prefix handler that `messageCreate` hands the command to is not part of this model, so the model stops at the chosen command. So is `send`'s reply to the platform.
- The plugins' `execute` bodies are opaque; a context plugin's call is modelled as completing or throwing synchronously. An asynchronous rejection is outside the `catch` in the source and is not modelled.
- `toLowerCase` maps only the ASCII capitals; other Unicode case mappings are not modelled.
- The platform's relative-time formatter `time(…, 'R')` is an opaque `RelativeTime` value of the Unix second it was given.
- `LimitFlags.Command` comes from a file that is not part of this model. `Config.CommandFlag` is a stand-in value, and no proof depends on it.
- Database connections, pools and the query builders are not modelled.
  - Each table is a map keyed by the primary key.
  - Each query either succeeds or fails with a `fault` given by the caller.
  - A `fault` stands only for a failure of the query inside the `try`. The connection step `await initDatabase()` (src/infrastructure/database/client.ts:47-56) runs before each `try` (for example src/modules/servers/logs.service.ts:89,134,164,188,211). A connection that cannot be set up, such as a missing `DATABASE_URL` (src/infrastructure/database/client.ts:23-27), makes every service call reject. That covers the `get*` calls, which then do not fall back to `null`, and the update calls, before their no-payload return. This rejection is not modelled.
  - `src/infrastructure/database/client.ts:9` builds the driver's schema from `schema/postgres.ts`, which declares only the `users` table. The `logs` and `servers` tables used by the server modules are modelled as if they were declared there too.
  - Timestamps are integers, and the `Date` conversions in `normalizeRow` are identities.
- The services' `logger.error`/`logger.warn` lines are not modelled. Neither is rethrowing the same error after logging: a failing call returns the `Err` it would throw.
- The "Failed to retrieve saved …" branches of the upserts cannot occur in the model, because an upsert always yields its row.
- `getLogsByServerId` returns a set; the order of the rows is not modelled.
- The permission lists `memberPerms`/`clientPerms` are carried in `CommandData` but never checked, as in the source.
- `send`'s default lifetime of five seconds is not used; the dispatcher always passes an explicit one.
- `checkLimit`'s default arguments `count = 5` and `minutes = 1000 * 60 * 15` are not modelled. Every call passes both explicitly, as `Config.MaxAttempts` and `Config.WindowDuration`.
- Cooldown.KeyOfInjective: covers one id only, because keys of different ids can coincide. The id `a-` with type 1 and the id `a` with type -1 both give `a--1`. Platform ids are digit strings with no `-`, so the id is always the part of the key before its first `-`, and two different platform ids never share a key.
- Handler.CooldownHandler, Handler.ContextCommand and InteractionCreate.OnInteractionCreate: they state the bare id's binding only as one of three outcomes (unbound, unchanged, or aliasing the composite-key record). Which outcome occurs depends on each of the one or two `checkLimit` calls, and `Cooldown.Limiter.CheckLimit` states that per call.

## Findings

| source | as written | input that shows it | evidently intended | confidence | as-written member | corrected member |
|---|---|---|---|---|---|---|
| src/structures/cooldown.ts:19 | The sweep removes a record when `1000 * 60 * 60 >= Date.now() - v.lastUsage`, that is, every record used within the last hour | A record with `lastUsage = now` is removed at the next tick; one with `lastUsage = now - 7 200 000` is kept | The horizon is a memory bound: remove records idle for more than one hour and keep recent ones | not executed; high | Cooldown.SweepAsWrittenDropsFresh, Cooldown.Limiter.Sweep | Cooldown.SweptStaleExact, Cooldown.Limiter.SweepStale |
| src/modules/servers/logs.service.ts:218 | `result.rowCount ? result.rowCount > 0 : true` answers `true` both for a positive count and for a count of 0, so the `> 0` test can never be false | `deleteLog` of an id with no row: `rowCount` is 0 and the answer is `true`; `deleteServer` has the same expression at src/modules/servers/server.service.ts:164 | Answer `true` when the driver gives no count, and otherwise report whether a row went | not executed; medium | Persistence.DeletedFlag, LogsService.DeleteAlwaysTrue | Persistence.RowsDeleted, LogsService.DeleteReportsRemoval |
