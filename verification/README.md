# Minecraft RCON nodes for Node-RED: command builders and response parser

This Dafny project models the core of `minecraft.js` in node-red-contrib-minecraft-rcon.
That core has two parts:

- **Six command builders.** These are the player, world, server, player info, block and entity
  nodes. Each reads `msg.action` (or `msg.infoType`), falls back to the node configuration, and
  `switch`es on it. The matching case fills a string template such as `kick ${player} ${reason}`.
  The command is sent only when the template produced one (`if(command)`).
- **`parseMinecraftResponse`.** This turns the server's reply into a value.
  - The first number in the text wins.
  - Otherwise, text with a `{` or `[` is rewritten into JSON (keys quoted, NBT number suffixes
    stripped) and handed to `JSON.parse`.
  - Anything else comes back unchanged.

Modules, one per file:

- `Wrappers`: `Option`.
- `Decimal`: digit strings, their exact values, and `String(n)` for integers.
- `JsValues`: message and configuration values, JavaScript truthiness, `||`, and interpolation.
- `CommandText`: a command as words joined by single spaces, `Split` as the inverse, and the send
  gate.
- `Commands`: the six `switch` builders.
- `CommandFacts`: properties that relate builder calls or pin down exact command text.
- `TextRuns`: maximal runs of one character class, which is how greedy `\d+` and `\w+` behave.
- `NumberMatch`: the leftmost, longest match of `(\d+(\.\d+)?)` and its value.
- `Rewrites`: the `.replace` chain applied before `JSON.parse`.
- `ResponseParser`: the parser itself.

Modelling choices:

- A message or configuration is a map from the property names the nodes read to JavaScript
  values: undefined, null, booleans, integers and strings. This is needed because the source
  relies on JavaScript semantics. `msg.amount || 1` replaces an amount of `0`.
  `value !== undefined` accepts `false`, `null` and `""`. A missing `msg.endCoordinates` is
  interpolated as the word `undefined`.
- A builder yields `Some(words)` or `None`. The command string is the words joined by single
  spaces, or `""` for `None`, which the gate never sends.
- `JSON.parse` is a parameter: a function from text to a document, or `None` where it throws.
- Numbers read from a response are exact rationals (`real`).

The clean-up before `JSON.parse` (`minecraft.js:509-514`) strips NBT number suffixes such as
the `b` of `1b` and the `d` of `2.5d`. Those suffixes always follow a digit, but any response
holding a digit has already returned at `minecraft.js:502-503` with its first number. So
`{foo:1b,bar:2.5d}` parses to the number 1 (`ResponseParser.NbtWithNumberIsNumber`). The JSON
branch only ever sees digit-free text (`ResponseParser.ParseResponse`), on which the suffix
rewrites change nothing (`Rewrites.CleanUpOfDigitFree`). The model keeps this order, as the code
has it.

## Model

| member | source | states |
|---|---|---|
| JsValues.Or | minecraft.js:93 | JavaScript's logical or is truthy exactly when one operand is; it yields the left operand when that is truthy and the right one otherwise |
| JsValues.Coalesce | minecraft.js:93 | a chain of logical ors yields an operand that is truthy or is the last one, and every operand before it is falsy |
| JsValues.OrChainIsCoalesce | minecraft.js:93 | the player fallback chain (message, configuration, then `@p`) picks the first truthy operand or falls back to the last; grouping does not matter |
| JsValues.Text | minecraft.js:99 | interpolating a value gives empty text only for the empty string; `undefined`, `null`, `false` and `0` all print as words |
| Decimal.NatToDigits | minecraft.js:117-118 | a natural number is written as a canonical digit string (no leading zero) that reads back as the same number |
| Decimal.DigitsRoundTrip | minecraft.js:117-118 | writing out the value of a canonical digit string gives that string back, so each number has exactly one spelling |
| Decimal.IntToDecimal | minecraft.js:117-118 | `String(i)` of an integer of magnitude at most 2^53 - 1 (`Number.MAX_SAFE_INTEGER`) is its canonical digits, with a leading minus sign exactly when it is negative; it is never empty |
| Decimal.ValueConcat | minecraft.js:503 | a digit string followed by more digits reads as the first value shifted left by the count of the added digits, plus their value |
| Decimal.ScaledValue | minecraft.js:503 | an integer part plus a fraction, with the point moved past the fraction, is the two digit strings read as one number |
| CommandText.Split | minecraft.js:99 | cutting a command at every space gives at least one piece |
| CommandText.JoinHead | minecraft.js:99 | a template's words split at any word boundary: the leading words, one space, then the rest |
| CommandText.JoinTwo | minecraft.js:105 | two interpolated words are separated by exactly one space |
| CommandText.JoinThree | minecraft.js:99 | three interpolated words are separated by exactly one space each |
| CommandText.JoinFour | minecraft.js:118 | four interpolated words are separated by exactly one space each |
| CommandText.SplitJoin | minecraft.js:99 | splitting a command at spaces recovers its words when no word holds a space |
| CommandText.FirstWordOfJoin | minecraft.js:387 | the command verb is the first word even when later words (coordinates like `~ ~ ~`) contain spaces |
| CommandText.JoinVerbed | minecraft.js:132 | a command that opens with a non-empty verb is non-empty, leads with that verb, and splits back into its words when none holds a space |
| CommandText.Render | minecraft.js:132 | the command passes the `if(command)` gate exactly when a case of the switch produced it |
| Commands.PlayerCase | minecraft.js:97-130 | a case is selected exactly when the action is one of the nine labels (compared with `===`), and the case's label is the action |
| Commands.PlayerActionWords | minecraft.js:98-129 | every player command opens with its action's name as the verb |
| Commands.PlayerCommand | minecraft.js:93-132 | a player command is sent exactly when the message's action, or failing that the configured one, is one of the nine player action labels |
| Commands.WorldCase | minecraft.js:170-198 | a case is selected exactly for the six world labels, and the case's label is the action |
| Commands.WorldActionWords | minecraft.js:183-188 | a world action produces a command unless it is `gamerule` without a truthy rule and a defined value; the verb is the action's name |
| Commands.WorldCommand | minecraft.js:167-200 | a world command is sent exactly for the five unguarded world actions, and for `gamerule` only with a truthy rule and a value that is not undefined |
| Commands.ServerCase | minecraft.js:238-268 | a case is selected exactly for the eight server labels, and the case's label is the action |
| Commands.ServerActionWords | minecraft.js:251-266 | `op`/`deop` produce a command only with a truthy `msg.player` and `broadcast` only with something to say; the verb is the action's verb (`say` for broadcast) |
| Commands.ServerCommand | minecraft.js:235-270 | a server command is sent exactly for the five unguarded actions, for `op`/`deop` with a truthy `msg.player` (the configured player is not consulted), and for `broadcast` when `msg.message` or else `msg.payload` is truthy |
| Commands.InfoCase | minecraft.js:309-335 | a case is selected exactly for the eight info types, and the case's label is the info type |
| Commands.PlayerInfoCommand | minecraft.js:305-337 | a player info query is sent exactly when the message's info type, or failing that the configured one, is one of the eight info types |
| Commands.BlockCase | minecraft.js:385-400 | a case is selected exactly for the four block labels, and the case's label is the action |
| Commands.BlockActionWords | minecraft.js:385-399 | every block command opens with its action's console verb (`setblock`, `fill`, `clone`, `data`) |
| Commands.BlockCommand | minecraft.js:380-402 | a block command is sent exactly when the action is one of the four block labels |
| Commands.EntityCase | minecraft.js:447-468 | a case is selected exactly for the five entity labels, and the case's label is the action |
| Commands.EntityActionWords | minecraft.js:447-467 | every entity command opens with its action's console verb (`summon`, `kill`, `execute`, `data`) |
| Commands.EntityCommand | minecraft.js:442-470 | an entity command is sent exactly when the action is one of the five entity labels |
| CommandFacts.PlayerLabelsRoundTrip | minecraft.js:97-130 | each player case label selects its own case, so no case is dead and no two cases share a label |
| CommandFacts.WorldLabelsRoundTrip | minecraft.js:170-198 | each world case label selects its own case |
| CommandFacts.ServerLabelsRoundTrip | minecraft.js:238-268 | each server case label selects its own case |
| CommandFacts.InfoLabelsRoundTrip | minecraft.js:309-335 | each info type label selects its own case |
| CommandFacts.BlockLabelsRoundTrip | minecraft.js:385-400 | each block case label selects its own case |
| CommandFacts.EntityLabelsRoundTrip | minecraft.js:447-468 | each entity case label selects its own case |
| CommandFacts.PlayerVerbIsAction | minecraft.js:97-132 | the verb of any sent player command is the selected action itself |
| CommandFacts.WorldVerbIsAction | minecraft.js:170-200 | the verb of any sent world command is the selected action itself |
| CommandFacts.ServerVerbOfAction | minecraft.js:238-270 | the verb of any sent server command is the selected action, except that a broadcast is sent as `say` |
| CommandFacts.BlockVerbOfAction | minecraft.js:385-402 | the verb of any sent block command is the one its action maps to (`set` becomes `setblock`, `info` becomes `data`) |
| CommandFacts.EntityVerbOfAction | minecraft.js:447-470 | the verb of any sent entity command is the one its action maps to (`spawn` becomes `summon`, `count` becomes `execute`, `info` and `modify` become `data`) |
| CommandFacts.InfoQueriesAreReadOnly | minecraft.js:309-335 | every query the player info node sends is read-only: it starts with `scoreboard players get ` when the info type is `score`, and with `data get ` otherwise |
| CommandFacts.BlockInfoIsReadOnly | minecraft.js:397-398 | the block node's `info` action sends a `data get ` query |
| CommandFacts.EntityInfoIsReadOnly | minecraft.js:459-461 | the entity node's `info` action sends a `data get ` query |
| CommandFacts.EntityCountIsReadOnly | minecraft.js:456-457 | the entity node's `count` action sends an `execute if ` query |
| CommandFacts.KickArguments | minecraft.js:98-99 | with a one-word player and reason, the kick command splits into exactly `kick`, the player and the reason |
| CommandFacts.PlayerTargetDefault | minecraft.js:93 | without a player in the message or the configuration, every player command equals the one for player `@p` |
| CommandFacts.InfoTargetDefault | minecraft.js:305 | without a player in the message or the configuration, every info query equals the one for player `@p` |
| CommandFacts.GiveAmountDefault | minecraft.js:117 | a missing, empty or zero `amount` gives the same command as an amount of 1 |
| CommandFacts.KickReasonDefault | minecraft.js:99 | a kick without a truthy reason equals the kick with reason `Kicked by server` |
| CommandFacts.BanReasonDefault | minecraft.js:102 | a ban without a truthy reason equals the ban with reason `Banned by server` |
| CommandFacts.KickWithoutReason | minecraft.js:93-99 | kicking a named player without a reason sends `kick <player> Kicked by server` |
| CommandFacts.BanWithReason | minecraft.js:101-102 | a ban of a named player with a reason sends `ban <player> <reason>` |
| CommandFacts.GamemodeWithMode | minecraft.js:107-109 | a gamemode change sends the mode before the player: `gamemode <mode> <player>` |
| CommandFacts.GamemodeArguments | minecraft.js:107-109 | with a one-word mode and player, the command splits into exactly `gamemode`, the mode and the player, in that order |
| CommandFacts.GamemodeDefault | minecraft.js:108-109 | with no mode in the message or the configuration, the player is switched to `survival` |
| CommandFacts.TpWithCoordinates | minecraft.js:111-113 | a teleport sends `tp <player> <coordinates>` |
| CommandFacts.GiveExplicit | minecraft.js:115-118 | a give of a named item and a non-zero amount sends `give <player> <item> <amount>`, the amount written as `String(amount)` |
| CommandFacts.XpWithAmount | minecraft.js:126-128 | an experience grant sends `xp give <player> <amount>` |
| CommandFacts.TargetOnlyCommands | minecraft.js:104-124 | `pardon`, `clear` and `kill` send their verb, one space and the player, nothing more |
| CommandFacts.GamemodeFromConfig | minecraft.js:107-109 | with no mode in the message, the configured mode is sent: `gamemode <configured mode> <player>` |
| CommandFacts.TpDefault | minecraft.js:111-113 | a teleport without coordinates sends the player to `0 64 0` |
| CommandFacts.XpDefault | minecraft.js:126-128 | an experience grant without an amount sends `xp give <player> 1L` |
| CommandFacts.PlayerFromConfig | minecraft.js:93-129 | without a player in the message, every player command equals the one whose message names the configured player |
| CommandFacts.KickConfiguredPlayer | minecraft.js:93-99 | with the player only in the configuration and no reason, the kick sends `kick <configured player> Kicked by server` |
| CommandFacts.GiveWithDefaults | minecraft.js:115-118 | a give naming no player, item or amount sends `give @p diamond 1` |
| CommandFacts.GameruleFalse | minecraft.js:183-188 | a gamerule whose value is `false` is still sent, as `gamerule <rule> false` |
| CommandFacts.GameruleWithoutValue | minecraft.js:183-189 | a gamerule without a value yields the empty command, which is not sent |
| CommandFacts.WhitelistWithDefaults | minecraft.js:251-254 | a whitelist with neither subaction nor player sends `whitelist list ` with a trailing space |
| CommandFacts.BroadcastFromPayload | minecraft.js:264-266 | a broadcast without `message` says the payload |
| CommandFacts.CloneWithoutEnd | minecraft.js:381-395 | a clone without `endCoordinates` sends the word `undefined` in its place: `clone ~ ~ ~ undefined ~ ~ ~` |
| CommandFacts.EntityKillWithDefaults | minecraft.js:444-454 | a kill without entity type or selector sends `kill @e[type=zombie]` |
| TextRuns.RunEnd | minecraft.js:502 | a greedy run of one character class takes every matching character from its start and stops at the first character outside the class |
| NumberMatch.FirstDigit | minecraft.js:502 | the scan for the match stops at the first digit, with no digit before it |
| NumberMatch.Leftmost | minecraft.js:502 | `response.match` finds nothing exactly when the text has no digit; otherwise the match is a whole digit run, and then a point and a whole digit run whenever one follows |
| NumberMatch.SpanValue | minecraft.js:503 | `Number(numberMatch[1])`, with the point moved past its fraction digits, equals the match's digits read as one integer; it is at least the value of the integer digits |
| NumberMatch.LeftmostIsLongestMatch | minecraft.js:502 | the match is text the pattern `\d+(\.\d+)?` accepts, no accepted text starts earlier, and none at the same start reaches further |
| NumberMatch.MatchReachesNoFurther | minecraft.js:502 | any text the pattern accepts from the match's start ends within the match |
| Rewrites.QuoteKeysOnlyAddsQuotes | minecraft.js:510 | quoting keys only inserts double quotes: removing all double quotes from the result gives the input with its own double quotes removed |
| Rewrites.QuoteKeysWithoutColon | minecraft.js:510 | text without a colon has no key to quote and is unchanged |
| Rewrites.QuoteKeysOfKey | minecraft.js:510 | a leading word key and its colon become the key in double quotes followed by the colon |
| Rewrites.QuoteKeysKeepsDigitFree | minecraft.js:510 | quoting keys brings no digit into digit-free text |
| Rewrites.StripSuffixIsDropAfterDigit | minecraft.js:511-514 | the regular-expression scan `(\d+)c` → `$1` equals dropping each `c` that directly follows a digit |
| Rewrites.StripSuffixOfDigitFree | minecraft.js:511-514 | on digit-free text the suffix strip changes nothing |
| Rewrites.CleanUpOfDigitFree | minecraft.js:509-514 | on digit-free text the whole clean-up is just the key quoting |
| ResponseParser.ParseResponse | minecraft.js:498-523 | null exactly for a missing or empty response; a number exactly when the text has a digit, never negative; otherwise the parse of the key-quoted text when it has a bracket and `JSON.parse` succeeds, and the text itself when it has no bracket or the parse throws |
| ResponseParser.NumberIsLeftmostMatch | minecraft.js:501-503 | a response with a digit parses to the value of the leftmost, longest match of the pattern |
| ResponseParser.IntegerRoundTrip | minecraft.js:501-503 | an integer written after digit-free text, and ended by neither a digit nor a point and digit, parses back to itself |
| ResponseParser.DecimalRoundTrip | minecraft.js:501-503 | a decimal `n.frac` written after digit-free text parses back exactly, fraction included, to `n + 0.frac` |
| ResponseParser.PaddedDecimal | minecraft.js:502-503 | leading zeros and trailing fraction zeros do not count: `007.50` parses to 7.5 |
| ResponseParser.SignIsDropped | minecraft.js:502-503 | the pattern has no sign, so `-5` parses to 5 |
| ResponseParser.NbtWithNumberIsNumber | minecraft.js:502-515 | the NBT text `{foo:1b,bar:2.5d}` parses to the number 1, not a document |
| ResponseParser.BracketedText | minecraft.js:505-519 | bracketed digit-free text parses to `JSON.parse` of the key-quoted text, or back to itself when that throws |

## Left out

- The RCON connection, with its host, port and password, and the `connect`/`send`/`end` calls
  (`minecraft.js:133-150` and the same blocks in every node): these are network I/O in the
  rcon-client library. The model stops at the command string that passes the gate.
- The server status node and its `minecraft-server-util` query: network I/O in another library.
- Node-RED plumbing: node registration, `node.send`, `node.status`, `node.error`, and the
  "Server configuration missing" early return. These only decide whether the builder runs.
- `minecraft-rcon.js` is not part of this model. It is a second, separate node file, and it
  makes no decisions beyond its RCON calls.
- The `msg.payload` objects wrapping the parsed value (`minecraft.js:350-355`, `413-418` and `481-486`):
  these only copy fields and add no logic.
- The response is modelled as present text or absent (`Option<string>`). Falsy non-string
  responses are not modelled.
- The JSON grammar: `JSON.parse` is an arbitrary parameter, so the model says which text it
  receives, not what it returns.
- Message and configuration values that are non-integer numbers, objects or arrays: JavaScript
  float-to-string formatting and object interpolation (`[object Object]`) are not modelled.
- ResponseParser.ParseResponse: the value is exact, not an IEEE double. Long digit runs, which
  JavaScript would round, are read exactly.
- Commands.InfoWords: its contract states only that the query opens with a verb. The read-only
  shape of every query is proved separately in `CommandFacts.InfoQueriesAreReadOnly`.
- Decimal.IntToDecimal: integers are unbounded and always written digit for digit. JavaScript
  numbers are doubles, so above 2^53 - 1 (`Number.MAX_SAFE_INTEGER`) not every integer is a
  JavaScript number, and `String` prints the shortest digits that round-trip, padded with zeros:
  2^64 prints as `18446744073709552000` where the model writes `18446744073709551616`. From
  10^21 on, `String` switches to exponent form (`1e+21`). The counts these nodes interpolate
  (item amounts, border sizes) stay far below 2^53.
- Commands.PlayerActionWords: its own contract states only the verb. The full text of each
  player action is stated by lemmas in `CommandFacts`, for a player given in the message or
  only in the configuration (`PlayerFromConfig`, `KickConfiguredPlayer`), and for the defaults
  `Kicked by server`, `survival`, `0 64 0`, `diamond 1` and `1L` (`KickWithoutReason`,
  `BanWithReason`, `GamemodeWithMode`, `GamemodeFromConfig`, `GamemodeDefault`,
  `TpWithCoordinates`, `TpDefault`, `GiveExplicit`, `GiveWithDefaults`, `XpWithAmount`,
  `XpDefault`, `TargetOnlyCommands`). A `Banned by server` ban is stated as equal to the ban
  with that reason (`BanReasonDefault`).
