/** Properties of the command builders that relate several calls or pin down
    the exact text the server receives. */
module CommandFacts {
  import opened Wrappers
  import opened Decimal
  import opened JsValues
  import opened CommandText
  import opened Commands

  /** The verb of a rendered command is the first of its words. */
  lemma RenderedVerb(words: Option<seq<string>>)
    requires words.Some? && Verbed(words.value)
    ensures FirstWord(Render(words)) == words.value[0]
  {
    JoinVerbed(words.value);
  }

  /* Each case label selects its own case of its switch, so no case is dead
     and no two cases share a label. */

  lemma PlayerLabelsRoundTrip(a: PlayerAction)
    ensures PlayerCase(Str(PlayerActionName(a))) == Some(a)
  {
  }

  lemma WorldLabelsRoundTrip(a: WorldAction)
    ensures WorldCase(Str(WorldActionName(a))) == Some(a)
  {
  }

  lemma ServerLabelsRoundTrip(a: ServerAction)
    ensures ServerCase(Str(ServerActionName(a))) == Some(a)
  {
  }

  lemma InfoLabelsRoundTrip(k: InfoKind)
    ensures InfoCase(Str(InfoKindName(k))) == Some(k)
  {
  }

  lemma BlockLabelsRoundTrip(a: BlockAction)
    ensures BlockCase(Str(BlockActionName(a))) == Some(a)
  {
  }

  lemma EntityLabelsRoundTrip(a: EntityAction)
    ensures EntityCase(Str(EntityActionName(a))) == Some(a)
  {
  }

  /** A player command's verb is the action's own name. */
  lemma PlayerVerbIsAction(msg: Fields, config: Fields)
    requires Sends(PlayerCommand(msg, config))
    ensures SelectedAction(msg, config) == Str(FirstWord(PlayerCommand(msg, config)))
  {
    RenderedVerb(PlayerWords(msg, config));
  }

  /** A world command's verb is the action's own name. */
  lemma WorldVerbIsAction(msg: Fields, config: Fields)
    requires Sends(WorldCommand(msg, config))
    ensures SelectedAction(msg, config) == Str(FirstWord(WorldCommand(msg, config)))
  {
    RenderedVerb(WorldWords(msg, config));
  }

  /** A server command's verb is the action's name, except that a broadcast
      is sent as `say`. */
  lemma ServerVerbOfAction(msg: Fields, config: Fields)
    requires Sends(ServerCommand(msg, config))
    ensures var verb := FirstWord(ServerCommand(msg, config));
            if SelectedAction(msg, config) == Str("broadcast") then verb == "say"
            else SelectedAction(msg, config) == Str(verb)
  {
    RenderedVerb(ServerWords(msg, config));
  }

  /** A block command's verb is the one its action maps to: "set" is sent as
      `setblock` and "info" as `data`. */
  lemma BlockVerbOfAction(msg: Fields, config: Fields)
    requires Sends(BlockCommand(msg, config))
    ensures FirstWord(BlockCommand(msg, config)) == BlockVerb(BlockCase(SelectedAction(msg, config)).value)
  {
    RenderedVerb(BlockWords(msg, config));
  }

  /** An entity command's verb is the one its action maps to: "spawn" is sent
      as `summon`, "count" as `execute`, "info" and "modify" as `data`. */
  lemma EntityVerbOfAction(msg: Fields, config: Fields)
    requires Sends(EntityCommand(msg, config))
    ensures FirstWord(EntityCommand(msg, config)) == EntityVerb(EntityCase(SelectedAction(msg, config)).value)
  {
    RenderedVerb(EntityWords(msg, config));
  }

  /** A console command that only reads game state. */
  predicate ReadOnlyQuery(command: string) {
    "data get " <= command || "scoreboard players get " <= command || "execute if " <= command
  }

  /** The command joined from words that open with `lead` starts with `lead`
      and a space. */
  lemma JoinedLead(words: seq<string>, lead: seq<string>, text: string)
    requires 1 <= |lead| < |words| && words[..|lead|] == lead && Join(lead) == text
    ensures text + " " <= Join(words)
  {
    JoinHead(words, |lead|);
    assert Join(words) == (text + " ") + Join(words[|lead|..]);
  }

  /** Every info query opens with `data get`, except the score query. */
  lemma InfoWordsLead(k: InfoKind, msg: Fields, config: Fields)
    ensures |InfoWords(k, msg, config)| == 5
    ensures k == Score ==> InfoWords(k, msg, config)[..3] == ["scoreboard", "players", "get"]
    ensures k != Score ==> InfoWords(k, msg, config)[..2] == ["data", "get"]
  {
  }

  /** The player info node only ever sends read-only queries: a score is read
      with `scoreboard players get`, everything else with `data get`. */
  lemma InfoQueriesAreReadOnly(msg: Fields, config: Fields)
    requires Sends(PlayerInfoCommand(msg, config))
    ensures ReadOnlyQuery(PlayerInfoCommand(msg, config))
    ensures SelectedInfoType(msg, config) == Str("score") ==>
              "scoreboard players get " <= PlayerInfoCommand(msg, config)
    ensures SelectedInfoType(msg, config) != Str("score") ==>
              "data get " <= PlayerInfoCommand(msg, config)
  {
    var k := InfoCase(SelectedInfoType(msg, config)).value;
    assert PlayerInfoCommand(msg, config) == Join(InfoWords(k, msg, config));
    InfoJoinIsReadOnly(k, msg, config);
  }

  /** Every info query, joined, is read-only. */
  lemma InfoJoinIsReadOnly(k: InfoKind, msg: Fields, config: Fields)
    ensures ReadOnlyQuery(Join(InfoWords(k, msg, config)))
    ensures k == Score ==> "scoreboard players get " <= Join(InfoWords(k, msg, config))
    ensures k != Score ==> "data get " <= Join(InfoWords(k, msg, config))
  {
    var words := InfoWords(k, msg, config);
    InfoWordsLead(k, msg, config);
    if k == Score {
      JoinedLead(words, ["scoreboard", "players", "get"], "scoreboard players get");
    } else {
      JoinedLead(words, ["data", "get"], "data get");
    }
  }

  /** How the entity queries open. */
  lemma EntityWordsLead(a: EntityAction, msg: Fields)
    ensures a == EntityInfo ==> |EntityActionWords(a, msg)| == 4 && EntityActionWords(a, msg)[..2] == ["data", "get"]
    ensures a == Count ==> |EntityActionWords(a, msg)| == 4 && EntityActionWords(a, msg)[..2] == ["execute", "if"]
  {
  }

  /** The block node's "info" action is a read-only `data get` query. */
  lemma BlockInfoIsReadOnly(msg: Fields, config: Fields)
    requires SelectedAction(msg, config) == Str("info")
    ensures ReadOnlyQuery(BlockCommand(msg, config))
    ensures "data get " <= BlockCommand(msg, config)
  {
    var words := BlockWords(msg, config).value;
    JoinedLead(words, ["data", "get"], "data get");
  }

  /** The entity node's "info" action is a read-only `data get` query. */
  lemma EntityInfoIsReadOnly(msg: Fields, config: Fields)
    requires SelectedAction(msg, config) == Str("info")
    ensures ReadOnlyQuery(EntityCommand(msg, config))
    ensures "data get " <= EntityCommand(msg, config)
  {
    EntityWordsLead(EntityInfo, msg);
    JoinedLead(EntityActionWords(EntityInfo, msg), ["data", "get"], "data get");
  }

  /** The entity node's "count" action is a read-only `execute if` query. */
  lemma EntityCountIsReadOnly(msg: Fields, config: Fields)
    requires SelectedAction(msg, config) == Str("count")
    ensures ReadOnlyQuery(EntityCommand(msg, config))
    ensures "execute if " <= EntityCommand(msg, config)
  {
    EntityWordsLead(Count, msg);
    JoinedLead(EntityActionWords(Count, msg), ["execute", "if"], "execute if");
  }

  /** With a one-word player and reason, the server reads the player as the
      kick's first argument and the reason as its second. */
  lemma KickArguments(msg: Fields, config: Fields, who: string, why: string)
    requires SelectedAction(msg, config) == Str("kick")
    requires Get(msg, player) == Str(who) && Get(msg, reason) == Str(why)
    requires who != "" && why != "" && ' ' !in who && ' ' !in why
    ensures Split(PlayerCommand(msg, config)) == ["kick", who, why]
  {
    var words := PlayerWords(msg, config).value;
    assert words == ["kick", who, why];
    assert SpaceFree(words);
    JoinVerbed(words);
  }

  /** Without a player in the message or the configuration, every player
      command targets "@p". */
  lemma PlayerTargetDefault(msg: Fields, config: Fields)
    requires !Truthy(Get(msg, player)) && !Truthy(Get(config, player))
    ensures PlayerCommand(msg, config) == PlayerCommand(msg[player := Str("@p")], config)
  {
    var msg' := msg[player := Str("@p")];
    assert SelectedAction(msg, config) == SelectedAction(msg', config);
    match PlayerCase(SelectedAction(msg, config))
    case None =>
    case Some(a) => PlayerWordsWithDefault(a, msg, config);
  }

  /** The words of one player action do not change when the default target
      is written into the message. */
  lemma PlayerWordsWithDefault(a: PlayerAction, msg: Fields, config: Fields)
    requires !Truthy(Get(msg, player)) && !Truthy(Get(config, player))
    ensures PlayerActionWords(a, msg, config) == PlayerActionWords(a, msg[player := Str("@p")], config)
  {
    var msg' := msg[player := Str("@p")];
    assert PlayerTarget(msg, config) == PlayerTarget(msg', config);
    assert forall k :: k != player ==> Get(msg, k) == Get(msg', k);
  }

  /** The same default applies to the player info queries. */
  lemma InfoTargetDefault(msg: Fields, config: Fields)
    requires !Truthy(Get(msg, player)) && !Truthy(Get(config, player))
    ensures PlayerInfoCommand(msg, config) == PlayerInfoCommand(msg[player := Str("@p")], config)
  {
    var msg' := msg[player := Str("@p")];
    assert SelectedInfoType(msg, config) == SelectedInfoType(msg', config);
    match InfoCase(SelectedInfoType(msg, config))
    case None =>
    case Some(k) => InfoWordsWithDefault(k, msg, config);
  }

  /** The words of one info query do not change when the default target is
      written into the message. */
  lemma InfoWordsWithDefault(k: InfoKind, msg: Fields, config: Fields)
    requires !Truthy(Get(msg, player)) && !Truthy(Get(config, player))
    ensures InfoWords(k, msg, config) == InfoWords(k, msg[player := Str("@p")], config)
  {
    var msg' := msg[player := Str("@p")];
    assert PlayerTarget(msg, config) == PlayerTarget(msg', config);
    assert Get(msg, objective) == Get(msg', objective);
  }

  /** A missing, empty or zero `amount` gives exactly one item. */
  lemma GiveAmountDefault(msg: Fields, config: Fields)
    requires SelectedAction(msg, config) == Str("give") && !Truthy(Get(msg, amount))
    ensures PlayerCommand(msg, config) == PlayerCommand(msg[amount := Num(1)], config)
  {
    var msg' := msg[amount := Num(1)];
    assert SelectedAction(msg', config) == Str("give");
    GiveWordsWithDefault(msg, config);
  }

  /** The words of a give do not change when the default amount is written
      into the message. */
  lemma GiveWordsWithDefault(msg: Fields, config: Fields)
    requires !Truthy(Get(msg, amount))
    ensures PlayerActionWords(Give, msg, config) == PlayerActionWords(Give, msg[amount := Num(1)], config)
  {
    var msg' := msg[amount := Num(1)];
    assert PlayerTarget(msg, config) == PlayerTarget(msg', config);
    assert Param(msg, amount, Num(1)) == Param(msg', amount, Num(1));
    assert Param(msg, item, Str("diamond")) == Param(msg', item, Str("diamond"));
  }

  /** A kick without a reason carries the canned kick reason. */
  lemma KickReasonDefault(msg: Fields, config: Fields)
    requires SelectedAction(msg, config) == Str("kick") && !Truthy(Get(msg, reason))
    ensures PlayerCommand(msg, config) == PlayerCommand(msg[reason := Str("Kicked by server")], config)
  {
    var msg' := msg[reason := Str("Kicked by server")];
    assert SelectedAction(msg', config) == Str("kick");
    assert PlayerActionWords(Kick, msg, config) == PlayerActionWords(Kick, msg', config) by {
      assert PlayerTarget(msg, config) == PlayerTarget(msg', config);
      assert Param(msg, reason, Str("Kicked by server")) == Param(msg', reason, Str("Kicked by server"));
    }
  }

  /** A ban without a reason carries the canned ban reason. */
  lemma BanReasonDefault(msg: Fields, config: Fields)
    requires SelectedAction(msg, config) == Str("ban") && !Truthy(Get(msg, reason))
    ensures PlayerCommand(msg, config) == PlayerCommand(msg[reason := Str("Banned by server")], config)
  {
    var msg' := msg[reason := Str("Banned by server")];
    assert SelectedAction(msg', config) == Str("ban");
    assert PlayerActionWords(Ban, msg, config) == PlayerActionWords(Ban, msg', config) by {
      assert PlayerTarget(msg, config) == PlayerTarget(msg', config);
      assert Param(msg, reason, Str("Banned by server")) == Param(msg', reason, Str("Banned by server"));
    }
  }

  /** Kicking a named player without a reason sends the canned reason as the
      rest of the line. */
  lemma KickWithoutReason(msg: Fields, config: Fields, who: string)
    requires SelectedAction(msg, config) == Str("kick")
    requires Get(msg, player) == Str(who) && who != "" && !Truthy(Get(msg, reason))
    ensures PlayerCommand(msg, config) == "kick " + who + " Kicked by server"
  {
    KickWords(msg, config, who);
    KickText(who);
  }

  /** The words of a kick of a named player without a reason. */
  lemma KickWords(msg: Fields, config: Fields, who: string)
    requires SelectedAction(msg, config) == Str("kick")
    requires Get(msg, player) == Str(who) && who != "" && !Truthy(Get(msg, reason))
    ensures PlayerWords(msg, config) == Some(["kick", who, "Kicked by server"])
  {
    assert PlayerCase(SelectedAction(msg, config)) == Some(Kick);
    assert Text(PlayerTarget(msg, config)) == who;
    assert Text(Param(msg, reason, Str("Kicked by server"))) == "Kicked by server";
  }

  /** A ban of a named player with a reason sends the player, then the
      reason. */
  lemma BanWithReason(msg: Fields, config: Fields, who: string, why: string)
    requires SelectedAction(msg, config) == Str("ban")
    requires Get(msg, player) == Str(who) && who != ""
    requires Get(msg, reason) == Str(why) && why != ""
    ensures PlayerCommand(msg, config) == "ban " + who + " " + why
  {
    BanWords(msg, config, who, why);
    JoinThree("ban", who, why);
  }

  /** The words of a ban of a named player with a reason. */
  lemma BanWords(msg: Fields, config: Fields, who: string, why: string)
    requires SelectedAction(msg, config) == Str("ban")
    requires Get(msg, player) == Str(who) && who != ""
    requires Get(msg, reason) == Str(why) && why != ""
    ensures PlayerWords(msg, config) == Some(["ban", who, why])
  {
    assert PlayerCase(SelectedAction(msg, config)) == Some(Ban);
    assert Text(PlayerTarget(msg, config)) == who;
    assert Text(Param(msg, reason, Str("Banned by server"))) == why;
  }

  /** `gamemode` puts the mode before the player, unlike the other player
      commands. */
  lemma GamemodeWithMode(msg: Fields, config: Fields, mode: string, who: string)
    requires SelectedAction(msg, config) == Str("gamemode")
    requires Get(msg, gamemode) == Str(mode) && mode != ""
    requires Get(msg, player) == Str(who) && who != ""
    ensures PlayerCommand(msg, config) == "gamemode " + mode + " " + who
  {
    GamemodeWords(msg, config, mode, who);
    JoinThree("gamemode", mode, who);
  }

  /** With a one-word mode and player, the server reads the mode as the first
      argument and the player as the second. */
  lemma GamemodeArguments(msg: Fields, config: Fields, mode: string, who: string)
    requires SelectedAction(msg, config) == Str("gamemode")
    requires Get(msg, gamemode) == Str(mode) && mode != "" && ' ' !in mode
    requires Get(msg, player) == Str(who) && who != "" && ' ' !in who
    ensures Split(PlayerCommand(msg, config)) == ["gamemode", mode, who]
  {
    var words := ["gamemode", mode, who];
    GamemodeWords(msg, config, mode, who);
    assert SpaceFree(words);
    JoinVerbed(words);
  }

  /** The words of a gamemode change with the mode and player in the message. */
  lemma GamemodeWords(msg: Fields, config: Fields, mode: string, who: string)
    requires SelectedAction(msg, config) == Str("gamemode")
    requires Get(msg, gamemode) == Str(mode) && mode != ""
    requires Get(msg, player) == Str(who) && who != ""
    ensures PlayerWords(msg, config) == Some(["gamemode", mode, who])
  {
    assert PlayerCase(SelectedAction(msg, config)) == Some(Gamemode);
    assert Text(PlayerTarget(msg, config)) == who;
  }

  /** A gamemode change naming no mode in the message or the configuration
      switches the player to survival. */
  lemma GamemodeDefault(msg: Fields, config: Fields, who: string)
    requires SelectedAction(msg, config) == Str("gamemode")
    requires !Truthy(Get(msg, gamemode)) && !Truthy(Get(config, gamemode))
    requires Get(msg, player) == Str(who) && who != ""
    ensures PlayerCommand(msg, config) == "gamemode survival " + who
  {
    GamemodeDefaultWords(msg, config, who);
    JoinThree("gamemode", "survival", who);
  }

  /** The words of a gamemode change naming no mode. */
  lemma GamemodeDefaultWords(msg: Fields, config: Fields, who: string)
    requires SelectedAction(msg, config) == Str("gamemode")
    requires !Truthy(Get(msg, gamemode)) && !Truthy(Get(config, gamemode))
    requires Get(msg, player) == Str(who) && who != ""
    ensures PlayerWords(msg, config) == Some(["gamemode", "survival", who])
  {
    assert PlayerCase(SelectedAction(msg, config)) == Some(Gamemode);
    assert Text(PlayerTarget(msg, config)) == who;
  }

  /** A teleport sends the player, then the coordinates. */
  lemma TpWithCoordinates(msg: Fields, config: Fields, who: string, at: string)
    requires SelectedAction(msg, config) == Str("tp")
    requires Get(msg, player) == Str(who) && who != ""
    requires Get(msg, coordinates) == Str(at) && at != ""
    ensures PlayerCommand(msg, config) == "tp " + who + " " + at
  {
    TpWords(msg, config, who, at);
    JoinThree("tp", who, at);
  }

  /** The words of a teleport with a player and coordinates. */
  lemma TpWords(msg: Fields, config: Fields, who: string, at: string)
    requires SelectedAction(msg, config) == Str("tp")
    requires Get(msg, player) == Str(who) && who != ""
    requires Get(msg, coordinates) == Str(at) && at != ""
    ensures PlayerWords(msg, config) == Some(["tp", who, at])
  {
    assert PlayerCase(SelectedAction(msg, config)) == Some(Tp);
    assert Text(PlayerTarget(msg, config)) == who;
  }

  /** A gamemode change naming no mode in the message takes the configured
      one. */
  lemma GamemodeFromConfig(msg: Fields, config: Fields, mode: string, who: string)
    requires SelectedAction(msg, config) == Str("gamemode")
    requires !Truthy(Get(msg, gamemode)) && Get(config, gamemode) == Str(mode) && mode != ""
    requires Get(msg, player) == Str(who) && who != ""
    ensures PlayerCommand(msg, config) == "gamemode " + mode + " " + who
  {
    GamemodeConfigWords(msg, config, mode, who);
    JoinThree("gamemode", mode, who);
  }

  /** The words of a gamemode change with the configured mode. */
  lemma GamemodeConfigWords(msg: Fields, config: Fields, mode: string, who: string)
    requires SelectedAction(msg, config) == Str("gamemode")
    requires !Truthy(Get(msg, gamemode)) && Get(config, gamemode) == Str(mode) && mode != ""
    requires Get(msg, player) == Str(who) && who != ""
    ensures PlayerWords(msg, config) == Some(["gamemode", mode, who])
  {
    assert PlayerCase(SelectedAction(msg, config)) == Some(Gamemode);
    assert Text(PlayerTarget(msg, config)) == who;
  }

  /** A teleport without coordinates sends the player to `0 64 0`. */
  lemma TpDefault(msg: Fields, config: Fields, who: string)
    requires SelectedAction(msg, config) == Str("tp")
    requires Get(msg, player) == Str(who) && who != ""
    requires !Truthy(Get(msg, coordinates))
    ensures PlayerCommand(msg, config) == "tp " + who + " 0 64 0"
  {
    TpDefaultWords(msg, config, who);
    JoinThree("tp", who, "0 64 0");
  }

  /** The words of a teleport without coordinates. */
  lemma TpDefaultWords(msg: Fields, config: Fields, who: string)
    requires SelectedAction(msg, config) == Str("tp")
    requires Get(msg, player) == Str(who) && who != ""
    requires !Truthy(Get(msg, coordinates))
    ensures PlayerWords(msg, config) == Some(["tp", who, "0 64 0"])
  {
    assert PlayerCase(SelectedAction(msg, config)) == Some(Tp);
    assert Text(PlayerTarget(msg, config)) == who;
  }

  /** An experience grant without an amount grants one level, `1L`. */
  lemma XpDefault(msg: Fields, config: Fields, who: string)
    requires SelectedAction(msg, config) == Str("xp")
    requires Get(msg, player) == Str(who) && who != ""
    requires !Truthy(Get(msg, xp))
    ensures PlayerCommand(msg, config) == "xp give " + who + " 1L"
  {
    XpDefaultWords(msg, config, who);
    JoinFour("xp", "give", who, "1L");
  }

  /** The words of an experience grant without an amount. */
  lemma XpDefaultWords(msg: Fields, config: Fields, who: string)
    requires SelectedAction(msg, config) == Str("xp")
    requires Get(msg, player) == Str(who) && who != ""
    requires !Truthy(Get(msg, xp))
    ensures PlayerWords(msg, config) == Some(["xp", "give", who, "1L"])
  {
    assert PlayerCase(SelectedAction(msg, config)) == Some(Xp);
    assert Text(PlayerTarget(msg, config)) == who;
  }

  /** Without a player in the message, every player command targets the
      configured player, exactly as if the message had named it. */
  lemma PlayerFromConfig(msg: Fields, config: Fields, who: string)
    requires !Truthy(Get(msg, player)) && Get(config, player) == Str(who) && who != ""
    ensures PlayerCommand(msg, config) == PlayerCommand(msg[player := Str(who)], config)
  {
    var msg' := msg[player := Str(who)];
    assert SelectedAction(msg, config) == SelectedAction(msg', config);
    match PlayerCase(SelectedAction(msg, config))
    case None =>
    case Some(a) => PlayerWordsFromConfig(a, msg, config, who);
  }

  /** The words of one player action do not change when the configured
      player is written into the message. */
  lemma PlayerWordsFromConfig(a: PlayerAction, msg: Fields, config: Fields, who: string)
    requires !Truthy(Get(msg, player)) && Get(config, player) == Str(who) && who != ""
    ensures PlayerActionWords(a, msg, config) == PlayerActionWords(a, msg[player := Str(who)], config)
  {
    var msg' := msg[player := Str(who)];
    assert PlayerTarget(msg, config) == PlayerTarget(msg', config);
    assert forall k :: k != player ==> Get(msg, k) == Get(msg', k);
  }

  /** Kicking the configured player without a reason. */
  lemma KickConfiguredPlayer(msg: Fields, config: Fields, who: string)
    requires SelectedAction(msg, config) == Str("kick")
    requires !Truthy(Get(msg, player)) && Get(config, player) == Str(who) && who != ""
    requires !Truthy(Get(msg, reason))
    ensures PlayerCommand(msg, config) == "kick " + who + " Kicked by server"
  {
    var msg' := msg[player := Str(who)];
    PlayerFromConfig(msg, config, who);
    assert SelectedAction(msg', config) == Str("kick");
    assert Get(msg', reason) == Get(msg, reason);
    KickWithoutReason(msg', config, who);
  }

  /** A give of a named item and a non-zero amount to a named player sends
      the player, the item and the amount written as `String(amount)`. */
  lemma GiveExplicit(msg: Fields, config: Fields, who: string, what: string, n: int)
    requires SelectedAction(msg, config) == Str("give")
    requires Get(msg, player) == Str(who) && who != ""
    requires Get(msg, item) == Str(what) && what != ""
    requires Get(msg, amount) == Num(n) && n != 0
    ensures PlayerCommand(msg, config) == "give " + who + " " + what + " " + IntToDecimal(n)
  {
    GiveWords(msg, config, who, what, n);
    JoinFour("give", who, what, IntToDecimal(n));
  }

  /** The words of a give with player, item and amount in the message. */
  lemma GiveWords(msg: Fields, config: Fields, who: string, what: string, n: int)
    requires SelectedAction(msg, config) == Str("give")
    requires Get(msg, player) == Str(who) && who != ""
    requires Get(msg, item) == Str(what) && what != ""
    requires Get(msg, amount) == Num(n) && n != 0
    ensures PlayerWords(msg, config) == Some(["give", who, what, IntToDecimal(n)])
  {
    assert PlayerCase(SelectedAction(msg, config)) == Some(Give);
    assert Text(PlayerTarget(msg, config)) == who;
    assert Text(Param(msg, item, Str("diamond"))) == what;
    assert Text(Param(msg, amount, Num(1))) == IntToDecimal(n);
  }

  /** An experience grant sends `xp give`, the player, then the amount. */
  lemma XpWithAmount(msg: Fields, config: Fields, who: string, points: string)
    requires SelectedAction(msg, config) == Str("xp")
    requires Get(msg, player) == Str(who) && who != ""
    requires Get(msg, xp) == Str(points) && points != ""
    ensures PlayerCommand(msg, config) == "xp give " + who + " " + points
  {
    XpWords(msg, config, who, points);
    JoinFour("xp", "give", who, points);
  }

  /** The words of an experience grant with player and amount in the message. */
  lemma XpWords(msg: Fields, config: Fields, who: string, points: string)
    requires SelectedAction(msg, config) == Str("xp")
    requires Get(msg, player) == Str(who) && who != ""
    requires Get(msg, xp) == Str(points) && points != ""
    ensures PlayerWords(msg, config) == Some(["xp", "give", who, points])
  {
    assert PlayerCase(SelectedAction(msg, config)) == Some(Xp);
    assert Text(PlayerTarget(msg, config)) == who;
  }

  /** `pardon`, `clear` and `kill` send their verb and the player, nothing more. */
  lemma TargetOnlyCommands(msg: Fields, config: Fields, verb: string, who: string)
    requires verb in {"pardon", "clear", "kill"} && SelectedAction(msg, config) == Str(verb)
    requires Get(msg, player) == Str(who) && who != ""
    ensures PlayerCommand(msg, config) == verb + " " + who
  {
    TargetOnlyWords(msg, config, verb, who);
    JoinTwo(verb, who);
  }

  /** The words of a pardon, clear or kill of a named player. */
  lemma TargetOnlyWords(msg: Fields, config: Fields, verb: string, who: string)
    requires verb in {"pardon", "clear", "kill"} && SelectedAction(msg, config) == Str(verb)
    requires Get(msg, player) == Str(who) && who != ""
    ensures PlayerWords(msg, config) == Some([verb, who])
  {
    var a := PlayerCase(SelectedAction(msg, config)).value;
    assert a in {Pardon, Clear, Kill};
    assert Text(PlayerTarget(msg, config)) == who;
  }

  /** The words of a give naming neither player, item nor amount. */
  lemma DefaultGiveWords(msg: Fields, config: Fields)
    requires SelectedAction(msg, config) == Str("give")
    requires !Truthy(Get(msg, player)) && !Truthy(Get(config, player))
    requires !Truthy(Get(msg, item)) && !Truthy(Get(msg, amount))
    ensures PlayerWords(msg, config) == Some(["give", "@p", "diamond", "1"])
  {
    assert PlayerCase(SelectedAction(msg, config)) == Some(Give);
    assert Text(PlayerTarget(msg, config)) == "@p";
    assert Text(Param(msg, item, Str("diamond"))) == "diamond";
    assert Text(Param(msg, amount, Num(1))) == "1" by {
      assert Text(Num(1)) == "1";
    }
  }

  /** A give naming neither player, item nor amount gives one diamond to the
      nearest player. */
  lemma GiveWithDefaults(msg: Fields, config: Fields)
    requires SelectedAction(msg, config) == Str("give")
    requires !Truthy(Get(msg, player)) && !Truthy(Get(config, player))
    requires !Truthy(Get(msg, item)) && !Truthy(Get(msg, amount))
    ensures PlayerCommand(msg, config) == "give @p diamond 1"
  {
    DefaultGiveWords(msg, config);
    GiveText();
  }

  /** `gamerule` sends a present false value as the word "false". */
  lemma GameruleFalse(msg: Fields, config: Fields, name: string)
    requires SelectedAction(msg, config) == Str("gamerule")
    requires Get(msg, rule) == Str(name) && name != "" && Get(msg, value) == Bool(false)
    ensures WorldCommand(msg, config) == "gamerule " + name + " false"
  {
    GameruleFalseWords(msg, config, name);
    GameruleFalseText(name);
  }

  /** The words of a gamerule set to false. */
  lemma GameruleFalseWords(msg: Fields, config: Fields, name: string)
    requires SelectedAction(msg, config) == Str("gamerule")
    requires Get(msg, rule) == Str(name) && name != "" && Get(msg, value) == Bool(false)
    ensures WorldWords(msg, config) == Some(["gamerule", name, "false"])
  {
    assert WorldCase(SelectedAction(msg, config)) == Some(Gamerule);
    assert GameruleReady(msg);
    assert Text(Get(msg, rule)) == name;
    assert Text(Get(msg, value)) == "false";
  }

  /** `gamerule` without a value sends nothing, whatever the rule. */
  lemma GameruleWithoutValue(msg: Fields, config: Fields)
    requires SelectedAction(msg, config) == Str("gamerule") && Get(msg, value) == Undefined
    ensures WorldCommand(msg, config) == ""
  {
  }

  /** A whitelist with neither subaction nor player lists the whitelist, with
      a trailing space where the player would go. */
  lemma WhitelistWithDefaults(msg: Fields, config: Fields)
    requires SelectedAction(msg, config) == Str("whitelist")
    requires !Truthy(Get(msg, subaction)) && !Truthy(Get(msg, player))
    ensures ServerCommand(msg, config) == "whitelist list "
  {
    DefaultWhitelistWords(msg, config);
    WhitelistText();
  }

  /** The words of a whitelist with neither subaction nor player. */
  lemma DefaultWhitelistWords(msg: Fields, config: Fields)
    requires SelectedAction(msg, config) == Str("whitelist")
    requires !Truthy(Get(msg, subaction)) && !Truthy(Get(msg, player))
    ensures ServerWords(msg, config) == Some(["whitelist", "list", ""])
  {
    assert ServerCase(SelectedAction(msg, config)) == Some(Whitelist);
    assert Text(Param(msg, subaction, Str("list"))) == "list";
    assert Text(Param(msg, player, Str(""))) == "";
  }

  /** A broadcast without `message` says the payload. */
  lemma BroadcastFromPayload(msg: Fields, config: Fields, said: string)
    requires SelectedAction(msg, config) == Str("broadcast")
    requires !Truthy(Get(msg, message)) && Get(msg, payload) == Str(said) && said != ""
    ensures ServerCommand(msg, config) == "say " + said
  {
    BroadcastWords(msg, config, said);
    SayText(said);
  }

  /** The words of a broadcast of the payload. */
  lemma BroadcastWords(msg: Fields, config: Fields, said: string)
    requires SelectedAction(msg, config) == Str("broadcast")
    requires !Truthy(Get(msg, message)) && Get(msg, payload) == Str(said) && said != ""
    ensures ServerWords(msg, config) == Some(["say", said])
  {
    assert ServerCase(SelectedAction(msg, config)) == Some(Broadcast);
    assert BroadcastText(msg) == Str(said);
  }

  /** The words of a clone with no coordinates of any kind. */
  lemma DefaultCloneWords(msg: Fields, config: Fields)
    requires SelectedAction(msg, config) == Str("clone")
    requires !Truthy(Get(msg, coordinates)) && Get(msg, endCoordinates) == Undefined
    requires !Truthy(Get(msg, destination))
    ensures BlockWords(msg, config) == Some(["clone", "~ ~ ~", "undefined", "~ ~ ~"])
  {
    assert BlockCase(SelectedAction(msg, config)) == Some(Clone);
    assert AtCoordinates(msg) == Str("~ ~ ~");
    assert Text(Get(msg, endCoordinates)) == "undefined";
    assert Text(Param(msg, destination, Str("~ ~ ~"))) == "~ ~ ~";
  }

  /** A clone without `endCoordinates` sends the word "undefined" in its place. */
  lemma CloneWithoutEnd(msg: Fields, config: Fields)
    requires SelectedAction(msg, config) == Str("clone")
    requires !Truthy(Get(msg, coordinates)) && Get(msg, endCoordinates) == Undefined
    requires !Truthy(Get(msg, destination))
    ensures BlockCommand(msg, config) == "clone ~ ~ ~ undefined ~ ~ ~"
  {
    DefaultCloneWords(msg, config);
    DefaultCloneText();
  }

  /* The joined texts of the example commands above. Each sits in a lemma of
     its own, with no message or configuration in scope, because proving a
     literal `Join` equality next to the builder's unfolding costs the solver
     several times as much. */

  lemma KickText(who: string)
    ensures Join(["kick", who, "Kicked by server"]) == "kick " + who + " Kicked by server"
  {
    JoinThree("kick", who, "Kicked by server");
  }

  lemma GiveText()
    ensures Join(["give", "@p", "diamond", "1"]) == "give @p diamond 1"
  {
    JoinFour("give", "@p", "diamond", "1");
  }

  lemma GameruleFalseText(name: string)
    ensures Join(["gamerule", name, "false"]) == "gamerule " + name + " false"
  {
    JoinThree("gamerule", name, "false");
  }

  lemma WhitelistText()
    ensures Join(["whitelist", "list", ""]) == "whitelist list "
  {
    JoinThree("whitelist", "list", "");
  }

  lemma SayText(said: string)
    ensures Join(["say", said]) == "say " + said
  {
    JoinTwo("say", said);
  }

  lemma DefaultCloneText()
    ensures Join(["clone", "~ ~ ~", "undefined", "~ ~ ~"]) == "clone ~ ~ ~ undefined ~ ~ ~"
  {
    JoinFour("clone", "~ ~ ~", "undefined", "~ ~ ~");
  }

  lemma KillText()
    ensures Join(["kill", "@e[type=zombie]"]) == "kill @e[type=zombie]"
  {
    JoinTwo("kill", "@e[type=zombie]");
  }

  /** The words of an entity kill with neither entity type nor selector. */
  lemma DefaultKillWords(msg: Fields, config: Fields)
    requires SelectedAction(msg, config) == Str("kill")
    requires !Truthy(Get(msg, entity)) && !Truthy(Get(msg, selector))
    ensures EntityWords(msg, config) == Some(["kill", "@e[type=zombie]"])
  {
    assert EntityCase(SelectedAction(msg, config)) == Some(KillEntities);
    assert Text(Param(msg, entity, Str("zombie"))) == "zombie";
    assert TypeSelector("zombie", false) == "@e[type=zombie]";
  }

  /** Without a selector, an entity kill targets every entity of the type. */
  lemma EntityKillWithDefaults(msg: Fields, config: Fields)
    requires SelectedAction(msg, config) == Str("kill")
    requires !Truthy(Get(msg, entity)) && !Truthy(Get(msg, selector))
    ensures EntityCommand(msg, config) == "kill @e[type=zombie]"
  {
    DefaultKillWords(msg, config);
    KillText();
  }
}
