/** The leaderboard of index.js: the sort with the league-point tie-break,
    formatLeaderboardEntry, publishLeaderboard, updateRanks and the
    `messageCreate` handler for `!add` and `!leaderboard`. The Riot lookups
    are parameters: `resolve` stands for getSummonerId and `fetch` for
    getRank. */
module IndexBot {
  import opened JsValues
  import opened JsStrings
  import opened Roster
  import opened Ranking
  import opened Sorting
  import opened Labels
  import opened Publisher

  /** getSortedLeaderboard: the roster's entries in Map order, sorted by
      table position and then by league points from high to low. It throws
      when two entries share a position and one of them has a null rank. */
  function SortedLeaderboard(players: Roster): (r: Result<seq<Entry>>)
    ensures r.Ok? ==> multiset(r.value) == multiset(players)
    ensures r.Ok? ==> forall i, j :: 0 <= i < j < |r.value| ==>
              || Ordinal(r.value[i]) < Ordinal(r.value[j])
              || (Ordinal(r.value[i]) == Ordinal(r.value[j]) && LpOrZero(r.value[i]) >= LpOrZero(r.value[j]))
    ensures r.Ok? ==> Stable(ByIndexThenLp, StandingOf, players, r.value)
    ensures r.Throw? <==> exists i, j ::
              && 0 <= i < j < |players| && Ordinal(players[i]) == Ordinal(players[j])
              && (players[i].player.rank.None? || players[j].player.rank.None?)
  {
    Sort(ByIndexThenLp, StandingOf, players)
  }

  /** formatLeaderboardEntry */
  function FormatEntry(username: string, tier: Option<string>, division: Option<string>, lp: Option<int>, index: nat): string
  {
    LinePrefix(index, username) + Label(tier, division) + BoardLpSuffix(lp)
  }

  /** The `" - N LP"` suffix is there exactly when `lp` is truthy: LP 0 and
      null LP render as no LP at all. */
  lemma LpSuffixOnlyWhenTruthy(username: string, tier: Option<string>, division: Option<string>, lp: Option<int>, index: nat)
    ensures !NumberTruthy(lp) ==> FormatEntry(username, tier, division, lp, index) == FormatEntry(username, tier, division, None, index)
    ensures NumberTruthy(lp) ==>
              FormatEntry(username, tier, division, lp, index) ==
              FormatEntry(username, tier, division, None, index) + " - " + IntToString(lp.value) + " LP"
  {
  }

  /** For the three apex tiers the division is dropped, whatever it is. */
  lemma ApexLineHasNoDivision(username: string, tier: Option<string>, division: Option<string>, lp: Option<int>, index: nat)
    requires IsApex(tier)
    ensures FormatEntry(username, tier, division, lp, index) == LinePrefix(index, username) + tier.value + BoardLpSuffix(lp)
  {
    ApexHidesDivision(tier, division);
  }

  /** The line of a sorted entry at `index`: `rank.tier` and friends are
      read from a rank that must not be null. */
  function EntryLine(e: Entry, index: nat): string
    requires e.player.rank.Some?
  {
    var rank := e.player.rank.value;
    FormatEntry(e.player.username, rank.tier, rank.division, rank.lp, index)
  }

  /** The `.map(...)` of publishLeaderboard: line k is entry k's line; the
      first entry with a null rank throws, and every such throw is the same
      TypeError. */
  function RenderLines(es: seq<Entry>): (r: Result<seq<string>>)
    ensures r.Throw? <==> exists k :: 0 <= k < |es| && es[k].player.rank.None?
    ensures r.Ok? ==> |r.value| == |es| && forall k :: 0 <= k < |es| ==> r.value[k] == EntryLine(es[k], k)
  {
    if forall k :: 0 <= k < |es| ==> es[k].player.rank.Some? then
      Ok(seq(|es|, k requires 0 <= k < |es| => EntryLine(es[k], k)))
    else Throw(NullProperty("tier"))
  }

  const Header: string := "\U{1F3C6} **Classement :**\n"

  /** The message publishLeaderboard sends or edits. */
  function BoardText(players: Roster): (r: Result<string>)
  {
    match SortedLeaderboard(players)
    case Throw(e) => Throw(e)
    case Ok(sorted) =>
      match RenderLines(sorted)
      case Throw(e) => Throw(e)
      case Ok(lines) => Ok(Header + Join(lines, "\n"))
  }

  /** The board renders exactly when no stored rank is null: a null rank
      either makes the comparator throw or is dereferenced by the map. */
  lemma BoardRendersIffRanked(players: Roster)
    ensures BoardText(players).Ok? <==> forall k :: 0 <= k < |players| ==> players[k].player.rank.Some?
  {
    if forall k :: 0 <= k < |players| ==> players[k].player.rank.Some? {
      RankedBoardRenders(players);
    } else {
      var k :| 0 <= k < |players| && players[k].player.rank.None?;
      NullRankBlocksBoard(players, k);
    }
  }

  lemma RankedBoardRenders(players: Roster)
    requires forall k :: 0 <= k < |players| ==> players[k].player.rank.Some?
    ensures BoardText(players).Ok?
  {
    var s := SortedLeaderboard(players);
    assert s.Ok?;
    forall k | 0 <= k < |s.value|
      ensures s.value[k].player.rank.Some?
    {
      assert s.value[k] in multiset(players);
    }
  }

  lemma NullRankBlocksBoard(players: Roster, k: nat)
    requires k < |players| && players[k].player.rank.None?
    ensures BoardText(players).Throw?
  {
    var s := SortedLeaderboard(players);
    if s.Ok? {
      assert players[k] in multiset(s.value);
      var m :| 0 <= m < |s.value| && s.value[m] == players[k];
    }
  }

  /** publishLeaderboard once the channel is found: render, then send or
      edit. A render that throws publishes nothing and stores nothing. */
  function PublishLeaderboard(players: Roster, channelId: Option<string>, sentId: string): (r: Result<(Action, Option<string>)>)
    ensures r.Throw? <==> BoardText(players).Throw?
    ensures r.Ok? ==> r.value.0.content == BoardText(players).value
    ensures r.Ok? ==> (r.value.0.Send? <==> !StringTruthy(channelId))
    ensures r.Ok? && r.value.0.Edit? ==> r.value.0.messageId == channelId.value && r.value.1 == channelId
    ensures r.Ok? && r.value.0.Send? ==> r.value.1 == Some(sentId)
  {
    match BoardText(players)
    case Throw(e) => Throw(e)
    case Ok(text) => Ok(Publish(channelId, text, sentId))
  }

  /** updateRanks followed by its publishLeaderboard: after the refresh the
      board is published exactly when every rank lookup succeeded. */
  lemma RefreshPublishesIffAllFetched(players: Roster, fetch: string -> Option<RankInfo>, channelId: Option<string>, sentId: string)
    ensures PublishLeaderboard(UpdateRanks(players, fetch), channelId, sentId).Ok? <==>
              forall k :: 0 <= k < |players| ==> fetch(players[k].puuid).Some?
  {
    var r := UpdateRanks(players, fetch);
    BoardRendersIffRanked(r);
    RefreshedAllRanked(players, fetch);
  }

  /** After the refresh every rank is set exactly when every lookup
      succeeded. */
  lemma RefreshedAllRanked(players: Roster, fetch: string -> Option<RankInfo>)
    ensures var r := UpdateRanks(players, fetch);
      (forall k :: 0 <= k < |r| ==> r[k].player.rank.Some?) <==>
      (forall k :: 0 <= k < |players| ==> fetch(players[k].puuid).Some?)
  {
    var r := UpdateRanks(players, fetch);
    assert |r| == |Keys(r)| == |Keys(players)| == |players|;
  }

  /** The `!add` argument: `content.split(' ')[1]`, then `args.split('#')`. */
  datatype AddArgs = BadFormat | Args(username: string, tag: string)

  /** The second space-separated word holds a `#`; the username is the text
      before its first `#` and the tag the text from there to the next `#`
      or the end. */
  function ParseAdd(content: string): (r: AddArgs)
    ensures r.BadFormat? <==> |Split(content, ' ')| < 2 || '#' !in Split(content, ' ')[1]
    ensures r.Args? ==> PiecesAt(Split(content, ' ')[1], '#', r.username, r.tag)
  {
    var words := Split(content, ' ');
    if |words| < 2 then BadFormat
    else
      var token := words[1];
      if token == "" || '#' !in token then BadFormat
      else
        TwoPieces(token, '#');
        var parts := Split(token, '#');
        Args(parts[0], parts[1])
  }

  /** `!add name#tag` gives back the name and tag when neither holds a space
      or a `#`, whatever follows after another space. */
  lemma ParseAddRoundTrip(username: string, tag: string, rest: seq<string>)
    requires ' ' !in username && ' ' !in tag && '#' !in username && '#' !in tag
    requires forall k :: 0 <= k < |rest| ==> ' ' !in rest[k]
    ensures ParseAdd(Join(["!add", username + "#" + tag] + rest, " ")) == Args(username, tag)
  {
    var token := username + "#" + tag;
    TokenRoundTrip(username, tag);
    var words := ["!add", token] + rest;
    CommandWords(token, rest);
    ParseWords(words, token);
  }

  lemma CommandWords(token: string, rest: seq<string>)
    requires ' ' !in token && forall k :: 0 <= k < |rest| ==> ' ' !in rest[k]
    ensures forall k :: 0 <= k < |["!add", token] + rest| ==> ' ' !in (["!add", token] + rest)[k]
  {
    var words := ["!add", token] + rest;
    forall k | 0 <= k < |words|
      ensures ' ' !in words[k]
    {
      if k == 0 {
        assert words[k] == "!add";
      } else if k == 1 {
        assert words[k] == token;
      } else {
        assert words[k] == rest[k - 2];
      }
    }
  }

  /** ParseAdd of space-free words joined by spaces reads the second word. */
  lemma ParseWords(words: seq<string>, token: string)
    requires |words| >= 2 && words[1] == token && '#' in token
    requires forall k :: 0 <= k < |words| ==> ' ' !in words[k]
    ensures ParseAdd(Join(words, " ")) == Args(Split(token, '#')[0], Split(token, '#')[1])
  {
    SplitJoin(words, ' ');
  }

  /** `name#tag` holds no space, holds a `#`, and splits back on `#`. */
  lemma TokenRoundTrip(username: string, tag: string)
    requires ' ' !in username && ' ' !in tag && '#' !in username && '#' !in tag
    ensures ' ' !in username + "#" + tag && '#' in username + "#" + tag
    ensures Split(username + "#" + tag, '#') == [username, tag]
  {
    var token := username + "#" + tag;
    assert token == Join([username, tag], "#");
    SplitJoin([username, tag], '#');
    assert token[|username|] == '#';
    forall i | 0 <= i < |token|
      ensures token[i] != ' '
    {
      if i < |username| {
        assert token[i] == username[i];
      } else if i > |username| {
        assert token[i] == tag[i - |username| - 1];
      }
    }
  }

  /** With no space-separated second word, or none holding `#`, the format
      error is given. */
  lemma ParseAddRejects(content: string)
    ensures ' ' !in content ==> ParseAdd(content) == BadFormat
    ensures ParseAdd("!add") == BadFormat
  {
    assert ' ' !in "!add";
  }

  const FormatErrorText: string := "Format invalide. Utilise : `!add MonPseudo#Tag`"
  const NotFoundText: string := "Joueur non trouvé."

  /** `!add`'s reply once the player is stored: reading `rank.tier` throws when
      the rank lookup returned null. */
  function AddReply(username: string, tag: string, rank: Option<RankInfo>): (r: Result<string>)
    ensures r.Throw? <==> rank.None?
    ensures r.Ok? ==>
              r.value == "Ajouté " + username + "#" + tag + " avec rang " +
                         Label(rank.value.tier, rank.value.division) + ReplyLpSuffix(rank.value.lp)
  {
    match rank
    case None => Throw(NullProperty("tier"))
    case Some(info) =>
      Ok("Ajouté " + username + "#" + tag + " avec rang " + Label(info.tier, info.division) + ReplyLpSuffix(info.lp))
  }

  /** What `!add` leaves behind: the roster, the reply (or the error that
      ended the handler), and whether updateRanks then runs. */
  datatype AddOutcome = AddOutcome(players: Roster, reply: Result<string>, refreshes: bool)

  /** The `!add` branch of the message handler. */
  function HandleAdd(players: Roster, content: string, resolve: (string, string) -> Option<string>,
                     fetch: string -> Option<RankInfo>): (r: AddOutcome)
    ensures ParseAdd(content).BadFormat? ==> r == AddOutcome(players, Ok(FormatErrorText), false)
    ensures ParseAdd(content).Args? && !StringTruthy(resolve(ParseAdd(content).username, ParseAdd(content).tag)) ==>
              r == AddOutcome(players, Ok(NotFoundText), false)
    ensures ParseAdd(content).Args? && StringTruthy(resolve(ParseAdd(content).username, ParseAdd(content).tag)) ==>
              var a := ParseAdd(content);
              var puuid := resolve(a.username, a.tag).value;
              && Get(r.players, puuid) == Some(Player(a.tag, a.username, fetch(puuid)))
              && (forall k :: k != puuid ==> Get(r.players, k) == Get(players, k))
              && r.reply == AddReply(a.username, a.tag, fetch(puuid))
              && Keys(r.players) == (if puuid in Keys(players) then Keys(players) else Keys(players) + [puuid])
              && (UniqueKeys(players) ==> UniqueKeys(r.players))
              && (r.reply.Throw? <==> fetch(puuid).None?)
              && (r.refreshes <==> fetch(puuid).Some?)
  {
    match ParseAdd(content)
    case BadFormat => AddOutcome(players, Ok(FormatErrorText), false)
    case Args(username, tag) =>
      var puuid := resolve(username, tag);
      if !StringTruthy(puuid) then AddOutcome(players, Ok(NotFoundText), false)
      else
        var rank := fetch(puuid.value);
        var stored := Set(players, puuid.value, Player(tag, username, rank));
        var reply := AddReply(username, tag, rank);
        AddOutcome(stored, reply, reply.Ok?)
  }

  /** Which branch of the `messageCreate` handler a message takes. */
  datatype Command = AddCommand | LeaderboardCommand | NoCommand

  function Dispatch(content: string): (c: Command)
    ensures c == AddCommand <==> StartsWith(content, "!add")
    ensures c == LeaderboardCommand <==> content == "!leaderboard"
  {
    assert "!leaderboard"[..4] == "!lea";
    if StartsWith(content, "!add") then AddCommand
    else if content == "!leaderboard" then LeaderboardCommand
    else NoCommand
  }

  /** The bot's state: the roster and `data.channelId`, the id of the board
      message. */
  datatype Bot = Bot(players: Roster, channelId: Option<string>)

  /** What handling one message does: the state after, the reply (if the
      handler replies or fails before it) and the publish (if one runs). */
  datatype Handled = Handled(bot: Bot, reply: Option<Result<string>>, publish: Option<Result<Action>>)

  /** `p` is what publishLeaderboard did with `channelId` stored, leaving
      the bot `after`: it throws exactly when the board of `after.players`
      does, keeping the id; otherwise it carries that board and makes the
      publish move from `channelId` to `after.channelId`. */
  predicate PublishedBoard(channelId: Option<string>, after: Bot, p: Result<Action>, sentId: string)
  {
    && (p.Throw? <==> BoardText(after.players).Throw?)
    && (p.Throw? ==> after.channelId == channelId)
    && (p.Ok? ==> BoardText(after.players) == Ok(p.value.content) && PublishMove(channelId, p.value, after.channelId, sentId))
  }

  /** publishLeaderboard as a state step. */
  function PublishStep(bot: Bot, sentId: string): (r: (Bot, Result<Action>))
    ensures r.0.players == bot.players
    ensures r.1.Throw? ==> r.0 == bot
    ensures r.1.Throw? <==> BoardText(bot.players).Throw?
    ensures r.1.Ok? ==> r.1.value.content == BoardText(bot.players).value
    ensures r.1.Ok? ==> (r.1.value.Send? <==> !StringTruthy(bot.channelId))
    ensures r.1.Ok? && r.1.value.Edit? ==> r.0 == bot && r.1.value.messageId == bot.channelId.value
    ensures r.1.Ok? && r.1.value.Send? ==> r.0.channelId == Some(sentId)
    ensures PublishedBoard(bot.channelId, r.0, r.1, sentId)
  {
    match PublishLeaderboard(bot.players, bot.channelId, sentId)
    case Throw(e) => (bot, Throw(e))
    case Ok((action, channelId)) => (Bot(bot.players, channelId), Ok(action))
  }

  /** The `messageCreate` handler. `fetch` answers the `!add` lookup and
      `refetch` the lookups of the updateRanks that follows it. */
  function OnMessage(bot: Bot, content: string, resolve: (string, string) -> Option<string>,
                     fetch: string -> Option<RankInfo>, refetch: string -> Option<RankInfo>, sentId: string): (r: Handled)
    ensures Dispatch(content) == NoCommand ==> r == Handled(bot, None, None)
    ensures Dispatch(content) == LeaderboardCommand ==>
              && r.reply.None? && r.publish.Some? && r.bot.players == bot.players
              && (r.publish.value.Ok? <==> BoardText(bot.players).Ok?)
              && (r.publish.value.Ok? && r.publish.value.value.Send? ==> r.bot.channelId == Some(sentId))
              && (r.publish.value.Ok? && r.publish.value.value.Edit? ==> r.bot == bot)
              && (r.publish.value.Throw? ==> r.bot == bot)
              && PublishedBoard(bot.channelId, r.bot, r.publish.value, sentId)
    ensures Dispatch(content) == AddCommand ==>
              var outcome := HandleAdd(bot.players, content, resolve, fetch);
              && r.reply == Some(outcome.reply)
              && (r.publish.Some? <==> outcome.refreshes)
              && (outcome.refreshes ==> r.bot.players == UpdateRanks(outcome.players, refetch))
              && (!outcome.refreshes ==> r.bot == Bot(outcome.players, bot.channelId))
              && (r.publish.Some? && r.publish.value.Ok? ==> BoardText(r.bot.players) == Ok(r.publish.value.value.content))
              && (r.publish.Some? ==> PublishedBoard(bot.channelId, r.bot, r.publish.value, sentId))
    ensures r.publish.Some? && r.publish.value.Ok? && StringTruthy(bot.channelId) ==> r.publish.value.value.Edit?
  {
    match Dispatch(content)
    case NoCommand => Handled(bot, None, None)
    case LeaderboardCommand => OnLeaderboard(bot, sentId)
    case AddCommand => OnAdd(bot, HandleAdd(bot.players, content, resolve, fetch), refetch, sentId)
  }

  /** The `!leaderboard` branch: publish, without a reply. */
  function OnLeaderboard(bot: Bot, sentId: string): (r: Handled)
    ensures r.reply.None? && r.publish.Some? && r.bot.players == bot.players
    ensures r.publish.value.Ok? <==> BoardText(bot.players).Ok?
    ensures r.publish.value.Ok? && r.publish.value.value.Send? ==> r.bot.channelId == Some(sentId)
    ensures r.publish.value.Ok? && r.publish.value.value.Edit? ==> r.bot == bot
    ensures r.publish.value.Ok? ==> BoardText(r.bot.players) == Ok(r.publish.value.value.content)
    ensures r.publish.value.Ok? && StringTruthy(bot.channelId) ==> r.publish.value.value.Edit?
    ensures r.publish.value.Throw? ==> r.bot == bot
    ensures PublishedBoard(bot.channelId, r.bot, r.publish.value, sentId)
  {
    var (after, action) := PublishStep(bot, sentId);
    Handled(after, None, Some(action))
  }

  /** The rest of the `!add` branch once HandleAdd has run: reply, then
      updateRanks and its publish when HandleAdd asks for a refresh. */
  function OnAdd(bot: Bot, outcome: AddOutcome, refetch: string -> Option<RankInfo>, sentId: string): (r: Handled)
    ensures r.reply == Some(outcome.reply)
    ensures r.publish.Some? <==> outcome.refreshes
    ensures outcome.refreshes ==> r.bot.players == UpdateRanks(outcome.players, refetch)
    ensures !outcome.refreshes ==> r.bot == Bot(outcome.players, bot.channelId)
    ensures r.publish.Some? && r.publish.value.Ok? ==> BoardText(r.bot.players) == Ok(r.publish.value.value.content)
    ensures r.publish.Some? && r.publish.value.Ok? && StringTruthy(bot.channelId) ==> r.publish.value.value.Edit?
    ensures r.publish.Some? ==> PublishedBoard(bot.channelId, r.bot, r.publish.value, sentId)
  {
    if outcome.refreshes then
      var (after, action) := PublishStep(Bot(UpdateRanks(outcome.players, refetch), bot.channelId), sentId);
      Handled(after, Some(outcome.reply), Some(action))
    else Handled(Bot(outcome.players, bot.channelId), Some(outcome.reply), None)
  }
}
