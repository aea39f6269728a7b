/** The action-to-command switches of the six management nodes: each reads
    the action (or info type) and its parameters from the incoming message,
    falling back to the node configuration and then to built-in defaults, and
    leaves the console command to send, or "" to send nothing. */
module Commands {
  import opened Wrappers
  import opened JsValues
  import opened CommandText

  /** `msg.action || this.action`, where `this.action` is the configured one. */
  function SelectedAction(msg: Fields, config: Fields): JsValue {
    Or(Get(msg, action), Get(config, action))
  }

  /** `case "x":` of a `switch`, which compares with `===`: only the string
      itself selects the case. */
  predicate Selects(selector: JsValue, names: set<string>) {
    selector.Str? && selector.s in names
  }

  /** `msg[name] || fallback`. */
  function Param(msg: Fields, name: Key, fallback: JsValue): JsValue {
    Or(Get(msg, name), fallback)
  }

  /* ---------------- Player management node ---------------- */

  datatype PlayerAction = Kick | Ban | Pardon | Gamemode | Tp | Give | Clear | Kill | Xp

  /** The case label of each player action. */
  function PlayerActionName(a: PlayerAction): string {
    match a
    case Kick => "kick"
    case Ban => "ban"
    case Pardon => "pardon"
    case Gamemode => "gamemode"
    case Tp => "tp"
    case Give => "give"
    case Clear => "clear"
    case Kill => "kill"
    case Xp => "xp"
  }

  const PlayerActions: set<string> :=
    {"kick", "ban", "pardon", "gamemode", "tp", "give", "clear", "kill", "xp"}

  /** The case of the player `switch` a selector falls into, if any. */
  function PlayerCase(selector: JsValue): (a: Option<PlayerAction>)
    ensures a.Some? <==> Selects(selector, PlayerActions)
    ensures a.Some? ==> selector == Str(PlayerActionName(a.value))
  {
    if selector == Str("kick") then Some(Kick)
    else if selector == Str("ban") then Some(Ban)
    else if selector == Str("pardon") then Some(Pardon)
    else if selector == Str("gamemode") then Some(Gamemode)
    else if selector == Str("tp") then Some(Tp)
    else if selector == Str("give") then Some(Give)
    else if selector == Str("clear") then Some(Clear)
    else if selector == Str("kill") then Some(Kill)
    else if selector == Str("xp") then Some(Xp)
    else None
  }

  /** `msg.player || config.player || "@p"` (the nearest player). */
  function PlayerTarget(msg: Fields, config: Fields): JsValue {
    Or(Or(Get(msg, player), Get(config, player)), Str("@p"))
  }

  /** The words of the command one player action sends. */
  function PlayerActionWords(a: PlayerAction, msg: Fields, config: Fields): (words: seq<string>)
    ensures Verbed(words) && words[0] == PlayerActionName(a)
  {
    var who := Text(PlayerTarget(msg, config));
    match a
    case Kick => ["kick", who, Text(Param(msg, reason, Str("Kicked by server")))]
    case Ban => ["ban", who, Text(Param(msg, reason, Str("Banned by server")))]
    case Pardon => ["pardon", who]
    case Gamemode =>
      var mode := Or(Or(Get(msg, gamemode), Get(config, gamemode)), Str("survival"));
      ["gamemode", Text(mode), who]
    case Tp => ["tp", who, Text(Param(msg, coordinates, Str("0 64 0")))]
    case Give => ["give", who, Text(Param(msg, item, Str("diamond"))), Text(Param(msg, amount, Num(1)))]
    case Clear => ["clear", who]
    case Kill => ["kill", who]
    case Xp => ["xp", "give", who, Text(Param(msg, xp, Str("1L")))]
  }

  function PlayerWords(msg: Fields, config: Fields): (words: Option<seq<string>>)
    ensures words.Some? ==> Verbed(words.value)
  {
    match PlayerCase(SelectedAction(msg, config))
    case Some(a) => Some(PlayerActionWords(a, msg, config))
    case None => None
  }

  /** The player node's command: sent exactly for the nine player actions. */
  function PlayerCommand(msg: Fields, config: Fields): (command: string)
    ensures Sends(command) <==> Selects(SelectedAction(msg, config), PlayerActions)
  {
    Render(PlayerWords(msg, config))
  }

  /* ---------------- World management node ---------------- */

  datatype WorldAction = Time | Weather | Difficulty | Gamerule | Worldborder | SetWorldSpawn

  function WorldActionName(a: WorldAction): string {
    match a
    case Time => "time"
    case Weather => "weather"
    case Difficulty => "difficulty"
    case Gamerule => "gamerule"
    case Worldborder => "worldborder"
    case SetWorldSpawn => "setworldspawn"
  }

  /** The world actions that always produce a command; "gamerule" is guarded. */
  const WorldActions: set<string> :=
    {"time", "weather", "difficulty", "worldborder", "setworldspawn"}

  function WorldCase(selector: JsValue): (a: Option<WorldAction>)
    ensures a.Some? <==> Selects(selector, WorldActions + {"gamerule"})
    ensures a.Some? ==> selector == Str(WorldActionName(a.value))
  {
    if selector == Str("time") then Some(Time)
    else if selector == Str("weather") then Some(Weather)
    else if selector == Str("difficulty") then Some(Difficulty)
    else if selector == Str("gamerule") then Some(Gamerule)
    else if selector == Str("worldborder") then Some(Worldborder)
    else if selector == Str("setworldspawn") then Some(SetWorldSpawn)
    else None
  }

  /** `rule && value !== undefined`: a truthy rule and a value that is present,
      whatever it is (false, 0, null and "" all pass). */
  predicate GameruleReady(msg: Fields) {
    Truthy(Get(msg, rule)) && Get(msg, value) != Undefined
  }

  function WorldActionWords(a: WorldAction, msg: Fields): (words: Option<seq<string>>)
    ensures words.Some? <==> a != Gamerule || GameruleReady(msg)
    ensures words.Some? ==> Verbed(words.value) && words.value[0] == WorldActionName(a)
  {
    match a
    case Time => Some(["time", "set", Text(Param(msg, time, Str("day")))])
    case Weather => Some(["weather", Text(Param(msg, weather, Str("clear")))])
    case Difficulty => Some(["difficulty", Text(Param(msg, difficulty, Str("normal")))])
    case Gamerule =>
      if GameruleReady(msg) then Some(["gamerule", Text(Get(msg, rule)), Text(Get(msg, value))])
      else None
    case Worldborder => Some(["worldborder", "set", Text(Param(msg, size, Num(1000)))])
    case SetWorldSpawn => Some(["setworldspawn", Text(Param(msg, coordinates, Str("~ ~ ~")))])
  }

  function WorldWords(msg: Fields, config: Fields): (words: Option<seq<string>>)
    ensures words.Some? ==> Verbed(words.value)
  {
    match WorldCase(SelectedAction(msg, config))
    case Some(a) => WorldActionWords(a, msg)
    case None => None
  }

  /** The world node's command: sent for the five unguarded actions, and for
      "gamerule" only with a rule and a value. */
  function WorldCommand(msg: Fields, config: Fields): (command: string)
    ensures Sends(command) <==>
              Selects(SelectedAction(msg, config), WorldActions)
              || (SelectedAction(msg, config) == Str("gamerule") && GameruleReady(msg))
  {
    Render(WorldWords(msg, config))
  }

  /* ---------------- Server management node ---------------- */

  datatype ServerAction = SaveAll | SaveOff | SaveOn | Stop | Whitelist | Op | Deop | Broadcast

  function ServerActionName(a: ServerAction): string {
    match a
    case SaveAll => "save-all"
    case SaveOff => "save-off"
    case SaveOn => "save-on"
    case Stop => "stop"
    case Whitelist => "whitelist"
    case Op => "op"
    case Deop => "deop"
    case Broadcast => "broadcast"
  }

  /** The console verb of a server action: a broadcast is a `say`. */
  function ServerVerb(a: ServerAction): string {
    if a == Broadcast then "say" else ServerActionName(a)
  }

  /** The server actions that always produce a command. */
  const ServerActions: set<string> := {"save-all", "save-off", "save-on", "stop", "whitelist"}

  function ServerCase(selector: JsValue): (a: Option<ServerAction>)
    ensures a.Some? <==> Selects(selector, ServerActions + {"op", "deop", "broadcast"})
    ensures a.Some? ==> selector == Str(ServerActionName(a.value))
  {
    if selector == Str("save-all") then Some(SaveAll)
    else if selector == Str("save-off") then Some(SaveOff)
    else if selector == Str("save-on") then Some(SaveOn)
    else if selector == Str("stop") then Some(Stop)
    else if selector == Str("whitelist") then Some(Whitelist)
    else if selector == Str("op") then Some(Op)
    else if selector == Str("deop") then Some(Deop)
    else if selector == Str("broadcast") then Some(Broadcast)
    else None
  }

  /** `msg.message || msg.payload`: the text a broadcast says. */
  function BroadcastText(msg: Fields): JsValue {
    Or(Get(msg, message), Get(msg, payload))
  }

  function ServerActionWords(a: ServerAction, msg: Fields): (words: Option<seq<string>>)
    ensures words.Some? <==>
              match a
              case Op | Deop => Truthy(Get(msg, player))
              case Broadcast => Truthy(BroadcastText(msg))
              case _ => true
    ensures words.Some? ==> Verbed(words.value) && words.value[0] == ServerVerb(a)
  {
    match a
    case SaveAll => Some(["save-all"])
    case SaveOff => Some(["save-off"])
    case SaveOn => Some(["save-on"])
    case Stop => Some(["stop"])
    case Whitelist =>
      Some(["whitelist", Text(Param(msg, subaction, Str("list"))), Text(Param(msg, player, Str("")))])
    case Op =>
      var who := Get(msg, player);
      if Truthy(who) then Some(["op", Text(who)]) else None
    case Deop =>
      var who := Get(msg, player);
      if Truthy(who) then Some(["deop", Text(who)]) else None
    case Broadcast =>
      var said := BroadcastText(msg);
      if Truthy(said) then Some(["say", Text(said)]) else None
  }

  function ServerWords(msg: Fields, config: Fields): (words: Option<seq<string>>)
    ensures words.Some? ==> Verbed(words.value)
  {
    match ServerCase(SelectedAction(msg, config))
    case Some(a) => ServerActionWords(a, msg)
    case None => None
  }

  /** The server node's command: sent for the five unguarded actions, for
      "op"/"deop" only with a truthy `msg.player` (the configured player is
      not consulted), and for "broadcast" only with something to say. */
  function ServerCommand(msg: Fields, config: Fields): (command: string)
    ensures Sends(command) <==>
              Selects(SelectedAction(msg, config), ServerActions)
              || (Selects(SelectedAction(msg, config), {"op", "deop"}) && Truthy(Get(msg, player)))
              || (SelectedAction(msg, config) == Str("broadcast") && Truthy(BroadcastText(msg)))
  {
    Render(ServerWords(msg, config))
  }

  /* ---------------- Player info node ---------------- */

  datatype InfoKind = Health | Position | Inventory | Experience | GameMode | Food | Effects | Score

  function InfoKindName(k: InfoKind): string {
    match k
    case Health => "health"
    case Position => "position"
    case Inventory => "inventory"
    case Experience => "experience"
    case GameMode => "gamemode"
    case Food => "food"
    case Effects => "effects"
    case Score => "score"
  }

  const InfoTypes: set<string> :=
    {"health", "position", "inventory", "experience", "gamemode", "food", "effects", "score"}

  function InfoCase(selector: JsValue): (k: Option<InfoKind>)
    ensures k.Some? <==> Selects(selector, InfoTypes)
    ensures k.Some? ==> selector == Str(InfoKindName(k.value))
  {
    if selector == Str("health") then Some(Health)
    else if selector == Str("position") then Some(Position)
    else if selector == Str("inventory") then Some(Inventory)
    else if selector == Str("experience") then Some(Experience)
    else if selector == Str("gamemode") then Some(GameMode)
    else if selector == Str("food") then Some(Food)
    else if selector == Str("effects") then Some(Effects)
    else if selector == Str("score") then Some(Score)
    else None
  }

  /** `msg.infoType || this.infoType`. */
  function SelectedInfoType(msg: Fields, config: Fields): JsValue {
    Or(Get(msg, infoType), Get(config, infoType))
  }

  function InfoWords(k: InfoKind, msg: Fields, config: Fields): (words: seq<string>)
    ensures Verbed(words)
  {
    var who := Text(PlayerTarget(msg, config));
    match k
    case Health => ["data", "get", "entity", who, "Health"]
    case Position => ["data", "get", "entity", who, "Pos"]
    case Inventory => ["data", "get", "entity", who, "Inventory"]
    case Experience => ["data", "get", "entity", who, "XpLevel"]
    case GameMode => ["data", "get", "entity", who, "playerGameType"]
    case Food => ["data", "get", "entity", who, "foodLevel"]
    case Effects => ["data", "get", "entity", who, "ActiveEffects"]
    case Score => ["scoreboard", "players", "get", who, Text(Param(msg, objective, Str("dummy")))]
  }

  function PlayerInfoWords(msg: Fields, config: Fields): (words: Option<seq<string>>)
    ensures words.Some? ==> Verbed(words.value)
  {
    match InfoCase(SelectedInfoType(msg, config))
    case Some(k) => Some(InfoWords(k, msg, config))
    case None => None
  }

  /** The player info node's command: sent exactly for the eight info types. */
  function PlayerInfoCommand(msg: Fields, config: Fields): (command: string)
    ensures Sends(command) <==> Selects(SelectedInfoType(msg, config), InfoTypes)
  {
    Render(PlayerInfoWords(msg, config))
  }

  /* ---------------- Block node ---------------- */

  datatype BlockAction = SetBlock | Fill | Clone | BlockInfo

  function BlockActionName(a: BlockAction): string {
    match a
    case SetBlock => "set"
    case Fill => "fill"
    case Clone => "clone"
    case BlockInfo => "info"
  }

  /** The console verb of each block action. */
  function BlockVerb(a: BlockAction): string {
    match a
    case SetBlock => "setblock"
    case Fill => "fill"
    case Clone => "clone"
    case BlockInfo => "data"
  }

  const BlockActions: set<string> := {"set", "fill", "clone", "info"}

  function BlockCase(selector: JsValue): (a: Option<BlockAction>)
    ensures a.Some? <==> Selects(selector, BlockActions)
    ensures a.Some? ==> selector == Str(BlockActionName(a.value))
  {
    if selector == Str("set") then Some(SetBlock)
    else if selector == Str("fill") then Some(Fill)
    else if selector == Str("clone") then Some(Clone)
    else if selector == Str("info") then Some(BlockInfo)
    else None
  }

  /** `msg.coordinates || "~ ~ ~"`: the executing position. */
  function AtCoordinates(msg: Fields): JsValue {
    Param(msg, coordinates, Str("~ ~ ~"))
  }

  function BlockActionWords(a: BlockAction, msg: Fields): (words: seq<string>)
    ensures Verbed(words) && words[0] == BlockVerb(a)
  {
    var at := AtCoordinates(msg);
    var what := Text(Param(msg, block, Str("stone")));
    match a
    case SetBlock => ["setblock", Text(at), what]
    case Fill => ["fill", Text(at), Text(Param(msg, endCoordinates, at)), what]
    case Clone => ["clone", Text(at), Text(Get(msg, endCoordinates)), Text(Param(msg, destination, at))]
    case BlockInfo => ["data", "get", "block", Text(at)]
  }

  function BlockWords(msg: Fields, config: Fields): (words: Option<seq<string>>)
    ensures words.Some? ==> Verbed(words.value)
  {
    match BlockCase(SelectedAction(msg, config))
    case Some(a) => Some(BlockActionWords(a, msg))
    case None => None
  }

  /** The block node's command: sent exactly for the four block actions. */
  function BlockCommand(msg: Fields, config: Fields): (command: string)
    ensures Sends(command) <==> Selects(SelectedAction(msg, config), BlockActions)
  {
    Render(BlockWords(msg, config))
  }

  /* ---------------- Entity node ---------------- */

  datatype EntityAction = Spawn | KillEntities | Count | EntityInfo | Modify

  function EntityActionName(a: EntityAction): string {
    match a
    case Spawn => "spawn"
    case KillEntities => "kill"
    case Count => "count"
    case EntityInfo => "info"
    case Modify => "modify"
  }

  /** The console verb of each entity action. */
  function EntityVerb(a: EntityAction): string {
    match a
    case Spawn => "summon"
    case KillEntities => "kill"
    case Count => "execute"
    case EntityInfo => "data"
    case Modify => "data"
  }

  const EntityActions: set<string> := {"spawn", "kill", "count", "info", "modify"}

  function EntityCase(selector: JsValue): (a: Option<EntityAction>)
    ensures a.Some? <==> Selects(selector, EntityActions)
    ensures a.Some? ==> selector == Str(EntityActionName(a.value))
  {
    if selector == Str("spawn") then Some(Spawn)
    else if selector == Str("kill") then Some(KillEntities)
    else if selector == Str("count") then Some(Count)
    else if selector == Str("info") then Some(EntityInfo)
    else if selector == Str("modify") then Some(Modify)
    else None
  }

  /** `@e[type=${entity}]` and its single-entity form `@e[type=${entity},limit=1]`. */
  function TypeSelector(kind: string, single: bool): string {
    "@e[type=" + kind + (if single then ",limit=1]" else "]")
  }

  function EntityActionWords(a: EntityAction, msg: Fields): (words: seq<string>)
    ensures Verbed(words) && words[0] == EntityVerb(a)
  {
    var at := Text(AtCoordinates(msg));
    var kind := Text(Param(msg, entity, Str("zombie")));
    match a
    case Spawn => ["summon", kind, at, Text(Param(msg, nbt, Str("{}")))]
    case KillEntities => ["kill", Text(Param(msg, selector, Str(TypeSelector(kind, false))))]
    case Count => ["execute", "if", "entity", TypeSelector(kind, false)]
    case EntityInfo => ["data", "get", "entity", Text(Param(msg, target, Str(TypeSelector(kind, true))))]
    case Modify =>
      ["data", "merge", "entity", Text(Param(msg, target, Str(TypeSelector(kind, true)))),
       Text(Param(msg, data, Str("{}")))]
  }

  function EntityWords(msg: Fields, config: Fields): (words: Option<seq<string>>)
    ensures words.Some? ==> Verbed(words.value)
  {
    match EntityCase(SelectedAction(msg, config))
    case Some(a) => Some(EntityActionWords(a, msg))
    case None => None
  }

  /** The entity node's command: sent exactly for the five entity actions. */
  function EntityCommand(msg: Fields, config: Fields): (command: string)
    ensures Sends(command) <==> Selects(SelectedAction(msg, config), EntityActions)
  {
    Render(EntityWords(msg, config))
  }
}
