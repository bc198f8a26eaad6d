/** The leaderboard of commands/general/add.js: the `/add` command's execute,
    its own sort by table position alone, its own line format (the rank key
    itself, upper-case UNRANKED included), and its publishLeaderboard, which
    keeps the board message's id in `config.messageId`. The Riot lookups are
    parameters: `resolve` stands for getSummonerId and `fetch` for getRank. */
module SlashAdd {
  import opened JsValues
  import opened JsStrings
  import opened Roster
  import opened Ranking
  import opened Sorting
  import opened Labels
  import opened Publisher

  /** getSortedLeaderboard: the roster's entries in Map order, sorted by
      table position; entries at the same position keep their Map order. The
      comparator reads the rank only through `?.`, so the sort never throws. */
  function SortedLeaderboard(players: Roster): (r: seq<Entry>)
    ensures multiset(r) == multiset(players)
    ensures forall i, j :: 0 <= i < j < |r| ==> Ordinal(r[i]) <= Ordinal(r[j])
    ensures Stable(ByIndex, StandingOf, players, r)
  {
    SortByIndexSucceeds(StandingOf, players);
    Sort(ByIndex, StandingOf, players).value
  }

  /** Every ordering of the roster that is sorted by table position and keeps
      the Map order within a position is the board's order. */
  lemma SortedLeaderboardIsUnique(players: Roster, r: seq<Entry>)
    requires forall i, j :: 0 <= i < j < |r| ==> Ordinal(r[i]) <= Ordinal(r[j])
    requires Stable(ByIndex, StandingOf, players, r)
    ensures SortedLeaderboard(players) == r
  {
    SortByIndexSucceeds(StandingOf, players);
    assert Sorted(ByIndex, StandingOf, r);
    SortIsTheStableSort(ByIndex, StandingOf, players, r);
  }

  /** `player.rank?.lp`: undefined when the rank is null. */
  function RankLp(rank: Option<RankInfo>): Option<int>
  {
    match rank
    case None => None
    case Some(info) => info.lp
  }

  /** The line of the sorted entry at `index`: the number, the username, the
      rank key and the league points. A null rank reads as UNRANKED. */
  function Line(e: Entry, index: nat): string
  {
    LinePrefix(index, e.player.username) + RankKey(e.player.rank) + BoardLpSuffix(RankLp(e.player.rank))
  }

  /** A line shows the very table entry the sort ranked it by, whenever the
      key is listed. */
  lemma LineShowsSortKey(e: Entry, index: nat)
    requires Ordinal(e) != -1
    ensures 0 <= Ordinal(e) < |Table|
    ensures Line(e, index) == LinePrefix(index, e.player.username) + Table[Ordinal(e)] + BoardLpSuffix(RankLp(e.player.rank))
  {
    OrdinalIsIndexOf(e);
  }

  /** A player whose rank lookup failed, or who has no solo-queue entry,
      is shown as UNRANKED with no league points. */
  lemma UnfetchedLine(e: Entry, index: nat)
    requires e.player.rank.None? || e.player.rank == Some(RankInfo(None, None, None))
    ensures Line(e, index) == LinePrefix(index, e.player.username) + "UNRANKED"
  {
    OrdinalOfUnranked(e.player.rank);
  }

  /** The `.map(...)`: line k is the line of entry k. */
  function RenderLines(es: seq<Entry>): (r: seq<string>)
    ensures |r| == |es|
    ensures forall k :: 0 <= k < |es| ==> r[k] == Line(es[k], k)
  {
    seq(|es|, k requires 0 <= k < |es| => Line(es[k], k))
  }

  const Header: string := "\U{1F3C6} **Classement :**\n"

  /** The message publishLeaderboard sends or edits; it always renders. */
  function BoardText(players: Roster): string
  {
    Header + Join(RenderLines(SortedLeaderboard(players)), "\n")
  }

  /** Once line `i` of the board shows a listed rank, every later line `j`
      shows a listed rank too, one no earlier in the table. */
  lemma BoardShowsTableOrder(players: Roster, i: nat, j: nat)
    requires i < j < |players|
    ensures var s := SortedLeaderboard(players);
      && |s| == |players|
      && (Ordinal(s[i]) != -1 ==>
            && 0 <= Ordinal(s[i]) <= Ordinal(s[j]) < |Table|
            && RenderLines(s)[i] == LinePrefix(i, s[i].player.username) + Table[Ordinal(s[i])] + BoardLpSuffix(RankLp(s[i].player.rank))
            && RenderLines(s)[j] == LinePrefix(j, s[j].player.username) + Table[Ordinal(s[j])] + BoardLpSuffix(RankLp(s[j].player.rank)))
  {
    var s := SortedLeaderboard(players);
    assert |multiset(s)| == |multiset(players)|;
    if Ordinal(s[i]) != -1 {
      LineShowsSortKey(s[i], i);
      LineShowsSortKey(s[j], j);
    }
  }

  /** The `/add` reply once the player is stored: reading `rank.tier` throws
      when the rank lookup returned null. */
  function ExecuteReply(username: string, tag: string, rank: Option<RankInfo>): (r: Result<string>)
    ensures r.Throw? <==> rank.None?
    ensures r.Ok? ==>
              r.value == "Added " + username + "#" + tag + " with rank " +
                         Label(rank.value.tier, rank.value.division) + ReplyLpSuffix(rank.value.lp)
  {
    match rank
    case None => Throw(NullProperty("tier"))
    case Some(info) =>
      Ok("Added " + username + "#" + tag + " with rank " + Label(info.tier, info.division) + ReplyLpSuffix(info.lp))
  }

  const NotFoundText: string := "Joueur non trouvé"

  /** What execute leaves behind: the roster, the reply (or the error that
      ended it), and whether updateRanks then runs. */
  datatype ExecuteOutcome = ExecuteOutcome(players: Roster, reply: Result<string>, refreshes: bool)

  /** execute, up to its updateRanks. */
  function Execute(players: Roster, username: string, tag: string, resolve: (string, string) -> Option<string>,
                   fetch: string -> Option<RankInfo>): (r: ExecuteOutcome)
    ensures !StringTruthy(resolve(username, tag)) ==> r == ExecuteOutcome(players, Ok(NotFoundText), false)
    ensures StringTruthy(resolve(username, tag)) ==>
              var puuid := resolve(username, tag).value;
              && Get(r.players, puuid) == Some(Player(tag, username, fetch(puuid)))
              && (forall k :: k != puuid ==> Get(r.players, k) == Get(players, k))
              && r.reply == ExecuteReply(username, tag, fetch(puuid))
              && Keys(r.players) == (if puuid in Keys(players) then Keys(players) else Keys(players) + [puuid])
              && (UniqueKeys(players) ==> UniqueKeys(r.players))
              && (r.reply.Throw? <==> fetch(puuid).None?)
              && (r.refreshes <==> fetch(puuid).Some?)
  {
    var puuid := resolve(username, tag);
    if !StringTruthy(puuid) then ExecuteOutcome(players, Ok(NotFoundText), false)
    else
      var rank := fetch(puuid.value);
      var stored := Set(players, puuid.value, Player(tag, username, rank));
      var reply := ExecuteReply(username, tag, rank);
      ExecuteOutcome(stored, reply, reply.Ok?)
  }

  /** The command's state: the roster and `config.messageId`. */
  datatype Slash = Slash(players: Roster, messageId: Option<string>)

  /** What one `/add` does: the state after, the reply, and the publish of
      the updateRanks that follows a successful reply. */
  datatype Executed = Executed(state: Slash, reply: Result<string>, publish: Option<Action>)

  /** publishLeaderboard as a state step; it never fails once the channel is
      found. */
  function PublishStep(state: Slash, sentId: string): (r: (Slash, Action))
    ensures r.0.players == state.players
    ensures r.1.content == BoardText(state.players)
    ensures r.1.Send? <==> !StringTruthy(state.messageId)
    ensures r.1.Edit? ==> r.0 == state && r.1.messageId == state.messageId.value
    ensures r.1.Send? ==> r.0.messageId == Some(sentId)
    ensures PublishMove(state.messageId, r.1, r.0.messageId, sentId)
  {
    var (action, messageId) := Publish(state.messageId, BoardText(state.players), sentId);
    (Slash(state.players, messageId), action)
  }

  /** One `/add`. `fetch` answers execute's own lookup and `refetch` those of
      the updateRanks that follows it. */
  function OnExecute(state: Slash, username: string, tag: string, resolve: (string, string) -> Option<string>,
                     fetch: string -> Option<RankInfo>, refetch: string -> Option<RankInfo>, sentId: string): (r: Executed)
    ensures r.reply == Execute(state.players, username, tag, resolve, fetch).reply
    ensures r.publish.Some? <==> StringTruthy(resolve(username, tag)) && fetch(resolve(username, tag).value).Some?
    ensures r.publish.Some? ==>
              && r.state.players == UpdateRanks(Execute(state.players, username, tag, resolve, fetch).players, refetch)
              && r.publish.value.content == BoardText(r.state.players)
              && (r.publish.value.Send? <==> !StringTruthy(state.messageId))
              && PublishMove(state.messageId, r.publish.value, r.state.messageId, sentId)
    ensures r.publish.None? ==> r.state == Slash(Execute(state.players, username, tag, resolve, fetch).players, state.messageId)
  {
    var outcome := Execute(state.players, username, tag, resolve, fetch);
    if outcome.refreshes then
      var (after, action) := PublishStep(Slash(UpdateRanks(outcome.players, refetch), state.messageId), sentId);
      Executed(after, outcome.reply, Some(action))
    else Executed(Slash(outcome.players, state.messageId), outcome.reply, None)
  }
}
