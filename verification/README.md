# Lulu-Bot leaderboard, modelled in Dafny

Lulu-Bot is a Discord bot that keeps a League of Legends leaderboard. It
keeps a roster of players, a `Map` from a Riot puuid to
`{ tag, username, rank }`, where `rank` is `{ tier, division, lp }`. It can
also be null. The bot sorts the roster by a fixed 32-entry ranking table and
posts the board as a Discord message. Later publishes edit that same message.

The leaderboard logic exists in two near-duplicate copies that behave
differently:

- **index.js**: the `!add name#tag` text command and `!leaderboard`. Its
  comparator breaks ties by league points, and it formats lines with
  formatLeaderboardEntry. The apex tiers drop their division there, and a
  missing tier reads "Unranked".
- **commands/general/add.js**: the `/add` slash command. Its comparator uses
  the table position only. Its lines show the rank key itself: the division
  stays on apex tiers, and a missing or null rank reads "UNRANKED".

The model is organised like this:

- **JsValues**: the JavaScript values the code leans on. It covers `null`
  (`Option`), a thrown `TypeError` (`Result.Throw`), `??`, truthiness of
  strings and numbers, and `indexOf`.
- **JsStrings**: the string builtins. It covers `trim` (the white-space and
  line-terminator sets of sections 12.2 and 12.3 of ECMA-262), `split` on one
  character, `join`, and decimal number text.
- **Roster**: the players map. Its entries are in Map insertion order, and it
  models `Map.get`, `Map.set` and updateRanks.
- **League**: the selection half of getRank, over an already-parsed
  league-v4 response.
- **Ranking**: the ranking both copies share. It holds the table, the rank
  key, the ordinal (`ranks.indexOf`), both comparators, and the total
  preorder `Precedes` they implement.
- **Sorting**: `Array.prototype.sort` as an insertion sort in Map order. Its
  lemmas show it returns a sorted, stable permutation of the input. Every
  stable sort gives that same result. It throws exactly when the input holds a
  pair the comparator throws on.
- **Labels**: the text pieces built from a rank. These are the label, the two
  league-point suffixes and the numbered line prefix.
- **Publisher**: the send-once-then-edit decision on a stored message id.
- **IndexBot**: index.js. It covers its sort, its lines, publishLeaderboard,
  the `!add` parsing and reply, and the `messageCreate` handler.
- **SlashAdd**: commands/general/add.js. It covers its sort, its lines,
  publishLeaderboard, and `execute`.
- **Copies**: where the two copies agree and where they differ.

A JavaScript `TypeError` from reading a property of a null rank is modelled as
a `Throw` result, not excluded by a precondition. index.js crashes in three
places:

- its comparator throws when two entries share a table position and one of
  them has a null rank;
- its line rendering throws on any null rank;
- its `!add` reply throws on a null rank, after the player has been stored.

add.js crashes only in `execute` (commands/general/add.js:41). Its board always
renders.

The HTTP lookups are parameters. `resolve` stands for getSummonerId and `fetch`
for getRank. The id Discord gives a newly sent message is a parameter too.

## Model

| member | source | states |
|---|---|---|
| JsValues.IndexOf | index.js:75-76 | `indexOf` is -1 exactly when the key is absent; otherwise it is the first position holding the key |
| JsStrings.TrimIsTrimmed | index.js:72-73 | `trim` leaves no white space or line terminator at either end |
| JsStrings.TrimStartRemovesPrefix | index.js:72 | `trim` removes the longest leading run made only of white space, and nothing else |
| JsStrings.TrimEndRemovesSuffix | index.js:72 | `trim` removes the longest trailing run made only of white space, and nothing else |
| JsStrings.TrimSurrounded | index.js:72-73 | trimming text that is surrounded only by white space gives back that text |
| JsStrings.TrimOfTrimmed | index.js:72-73 | trimming an already trimmed string changes nothing |
| JsStrings.SplitPieces | index.js:120 | `split` yields pieces none of which holds the separator, and exactly one piece iff the separator is absent |
| JsStrings.SplitHead | index.js:120 | the first piece is the separator-free prefix that stops at the first separator or the end; after a separator the remaining pieces are the split of what follows it, and with none the split is the whole string |
| JsStrings.TwoPieces | index.js:124 | when the separator occurs, the first two pieces are the text before its first occurrence and the text from there to the next occurrence or the end |
| JsStrings.PiecesAtDetermined | index.js:124 | conversely, any two separator-free texts placed that way around the first separator are the first two pieces |
| JsStrings.SplitJoin | index.js:120 | splitting words joined by a separator they do not hold gives back the words |
| JsStrings.NatToString | index.js:95 | the line number's text is non-empty decimal digits without a leading zero |
| JsStrings.NatToStringRoundTrip | index.js:95 | the digits of `index + 1` read back as `index + 1` |
| Roster.Get | index.js:53 | `Map.get` is undefined exactly for absent keys; otherwise it returns the value stored under the key |
| Roster.Set | index.js:129 | after `Map.set` the key maps to the new player and every other key is unchanged; a known key keeps its place, a new key is appended, and distinct keys stay distinct |
| Roster.UpdateRanks | commands/general/add.js:86-89 | updateRanks keeps every key, username and tag in place, and each rank becomes that puuid's lookup result |
| Roster.UpdateRanksAsMap | index.js:51-54 | read as a map, updateRanks maps every puuid to its old player with only the rank replaced |
| League.FindSolo | index.js:33 | `find` returns the first RANKED_SOLO_5x5 entry, or none when no entry is in that queue |
| League.GetRank | index.js:31-48 | a failed response gives null; without a solo-queue entry all three fields are null; otherwise the fields are that entry's tier, rank and leaguePoints |
| League.EveryRankReachable | index.js:31-48 | every possible rank value, null included, is what getRank returns for some response, so the lookup parameters of updateRanks and of both `add` handlers range over exactly getRank's results |
| Ranking.TableLayout | index.js:58-68 | the table holds the three apex tiers, then DIAMOND to IRON each with divisions I to IV, then UNRANKED: 32 entries |
| Ranking.TableDistinct | commands/general/add.js:93-126 | no key is listed twice, so a position names exactly one key |
| Ranking.IndexOfListed | index.js:75-76 | looking up a listed key yields its own position |
| Ranking.RankKeyShape | index.js:72-73 | with a trimmed tier and division, the key is the tier alone when the division is empty, else tier, space, division |
| Ranking.DividedKey | index.js:72-73 | a divided tier with a division gives the key "TIER DIVISION" |
| Ranking.OrdinalIsIndexOf | index.js:75-76 | the ordinal is `ranks.indexOf(key)`: in -1..31, -1 exactly for unlisted keys, otherwise the key's position |
| Ranking.OrdinalOfApex | index.js:58-59 | CHALLENGER, GRANDMASTER and MASTER without a division sit at 0, 1 and 2 |
| Ranking.OrdinalOfDividedRank | index.js:58-68 | tier t with division d sits at 3 + 4t + d, so lower tiers and divisions come later |
| Ranking.OrdinalOfUnranked | index.js:72-76 | a null rank, or one with neither tier nor division, has the key UNRANKED at position 31 |
| Ranking.OrdinalOfApexWithDivision | index.js:72-76 | an apex tier with a division, such as "MASTER I", is not listed and gets -1 |
| Ranking.ApexWithDivisionUnlisted | index.js:58-68 | no table entry is an apex tier followed by a space and a division |
| Ranking.PrecedesTotal | index.js:71-83 | either of two standings may be listed first |
| Ranking.PrecedesTransitive | index.js:71-83 | the order is transitive, so it is a total preorder that sort can use |
| Ranking.CompareWithLp | index.js:71-83 | the comparator throws exactly when two entries share a position and one rank is null; otherwise its sign says which entry goes first, by position and then by LP (null counted as 0) from high to low |
| Ranking.CompareByIndex | commands/general/add.js:128-141 | the add.js comparator's sign orders by table position alone |
| Ranking.Compare | index.js:79-82 | both comparators read as functions of position, LP and rank presence: same throw condition, sign given by the order |
| Ranking.ComparatorsReadStandings | commands/general/add.js:128-141 | each source comparator equals the comparator on the two entries' standings |
| Ranking.WithLpRefinesByIndex | index.js:79 | when the add.js comparator is nonzero, the index.js one returns the same value; index.js only breaks add.js's ties |
| Ranking.UnlistedKeyComesFirst | index.js:75-79 | an unlisted key gets -1 and sorts strictly before every listed key, CHALLENGER included, under both comparators |
| Sorting.Insert | index.js:71 | inserting into a sorted list keeps it sorted, adds the element once and appends it to its tie class; a throw comes from a pair the comparator throws on |
| Sorting.Sort | index.js:71-83 | sort returns a sorted permutation of its input that keeps Map order among ties; it throws iff two inputs make the comparator throw |
| Sorting.SortIsTheStableSort | index.js:71 | any stable sorted reordering of the input is what this sort returns |
| Sorting.SortByIndexSucceeds | commands/general/add.js:129-141 | the add.js sort never throws |
| Publisher.Publish | commands/general/add.js:158-165 | with a truthy stored id the message is edited and the id kept; otherwise the board is sent and the new id stored |
| Publisher.PublishAll | commands/general/add.js:158-165 | each publish of a sequence carries its own board |
| Publisher.StoredIdOnlyEdits | commands/general/add.js:158-160 | once an id is stored, every later publish edits that message and none sends |
| Publisher.SendsOnceThenEdits | commands/general/add.js:161-164 | from no id, the first publish sends and records the id, and every later one edits that message |
| Publisher.AtMostOneSend | index.js:108-115 | at most one message is ever sent, and none when an id is already stored |
| Labels.DivisionSuffix | index.js:88-91 | the division is shown iff the tier is not an apex tier and the division is truthy |
| Labels.BoardLpSuffix | index.js:93 | the " - N LP" suffix is there iff LP is truthy, so LP 0 and null LP show none |
| Labels.ReplyLpSuffix | index.js:137 | the " (N LP)" suffix is there iff LP is truthy |
| Labels.LinePrefixNumber | index.js:95 | a line starts with the decimal text of `index + 1`, which reads back as `index + 1`, then ". username : " |
| Labels.ApexHidesDivision | index.js:87-91 | an apex tier is shown alone, whatever its division |
| Labels.DividedLabel | index.js:87-91 | a non-apex tier with a non-empty division is shown as "TIER DIVISION" |
| Labels.DividedLabelIsKey | commands/general/add.js:41-45 | on a listed divided rank the reply's label equals the rank key |
| Labels.ApexLabelIsKey | commands/general/add.js:41-45 | on an apex tier without a division the label equals the rank key |
| Labels.LabelDiffersFromKey | commands/general/add.js:41 | the label says "Unranked" where the key says UNRANKED; an apex tier with a division loses the division in the label but keeps it in the key |
| IndexBot.SortedLeaderboard | index.js:70-84 | the index.js board order is a permutation sorted by position and then LP from high to low, keeping Map order among full ties; it throws iff two entries share a position and one rank is null |
| IndexBot.LpSuffixOnlyWhenTruthy | index.js:93 | a line has the " - N LP" suffix exactly when LP is truthy, and otherwise matches the line without LP |
| IndexBot.ApexLineHasNoDivision | index.js:89-91 | the line of an apex tier shows no division |
| IndexBot.RenderLines | index.js:102-105 | rendering throws iff some rank is null; otherwise line k is entry k's formatted line |
| IndexBot.BoardRendersIffRanked | index.js:102-106 | the index.js board renders exactly when no stored rank is null |
| IndexBot.PublishLeaderboard | index.js:98-116 | a throwing render publishes nothing; otherwise the board is edited into the stored message or sent and its id stored |
| IndexBot.RefreshPublishesIffAllFetched | index.js:51-55 | after updateRanks the board is published exactly when every rank lookup succeeded |
| IndexBot.ParseAdd | index.js:119-124 | a missing second word, or one without `#`, is a format error; otherwise the username precedes the first `#` and the tag runs to the next `#` |
| IndexBot.ParseAddRoundTrip | index.js:120-124 | `!add name#tag …` gives back exactly the name and tag, when neither holds a space or `#` |
| IndexBot.TokenRoundTrip | index.js:124 | `name#tag` splits on `#` back into the name and the tag |
| IndexBot.ParseAddRejects | index.js:121-122 | a message without a space, such as a bare `!add`, gets the format error |
| IndexBot.AddReply | index.js:132-138 | the reply throws iff the rank is null; otherwise it is "Ajouté u#t avec rang" followed by the label and the LP suffix |
| IndexBot.HandleAdd | index.js:119-139 | a format error or an unknown player leaves the roster alone; otherwise the player is stored under its puuid, other lookups are unchanged, a known puuid keeps its place in Map order and a new one is appended, and distinct keys stay distinct; the reply is the `!add` reply for that player and looked-up rank (index.js:132-138), which throws, and updateRanks is skipped, iff the rank lookup failed |
| IndexBot.Dispatch | index.js:119-147 | `!add…` goes to the add branch and exactly `!leaderboard` to the publish branch |
| IndexBot.PublishStep | index.js:98-116 | a publish keeps the roster and throws exactly when the board does, changing nothing then; otherwise it carries the board text, sends iff no id is stored and then stores the new message's id, and on an edit targets the stored id and keeps the state |
| IndexBot.OnMessage | index.js:118-150 | other messages do nothing; `!leaderboard` publishes without replying and keeps the roster; `!add` replies as HandleAdd does, publishes iff HandleAdd refreshes, and leaves the refreshed roster (or HandleAdd's roster and the same id when it does not refresh); in both branches a publish throws iff the board of the resulting roster does, keeping the id, and otherwise carries that board, sends iff no id was stored and then stores the new message's id, or edits the stored message and keeps its id |
| IndexBot.OnLeaderboard | index.js:146-148 | `!leaderboard` publishes without replying and keeps the roster; it throws iff the board does, changing nothing then; otherwise it carries the board text, sends iff no id is stored and then stores the new id, or edits the stored message and keeps the state |
| IndexBot.OnAdd | index.js:138-139 | after HandleAdd the handler replies with HandleAdd's reply and publishes iff HandleAdd refreshes; a refresh leaves the updateRanks roster and a publish that throws iff its board does, keeping the id, and otherwise sends (storing the new id) iff no id was stored or edits the stored message (keeping its id); without a refresh HandleAdd's roster and the same id remain |
| SlashAdd.SortedLeaderboard | commands/general/add.js:128-142 | the add.js order is a permutation sorted by position that keeps Map order within a position, and it never throws |
| SlashAdd.SortedLeaderboardIsUnique | commands/general/add.js:128-142 | any stable ordering by position is the add.js board order |
| SlashAdd.LineShowsSortKey | commands/general/add.js:150-154 | a line shows the very table entry the sort ranked it by |
| SlashAdd.UnfetchedLine | commands/general/add.js:150-154 | a null rank, or one without a solo-queue entry, shows as UNRANKED with no LP and does not throw |
| SlashAdd.RenderLines | commands/general/add.js:148-155 | line k of the add.js board is entry k's line, for every entry |
| SlashAdd.BoardShowsTableOrder | commands/general/add.js:148-155 | once a board line shows a listed rank, every later line shows a listed rank no earlier in the table |
| SlashAdd.ExecuteReply | commands/general/add.js:41-48 | the reply throws iff the rank is null; otherwise it is "Added u#t with rank" followed by the label and the LP suffix |
| SlashAdd.Execute | commands/general/add.js:31-50 | an unknown player leaves the roster alone; otherwise the player is stored under its puuid, other lookups are unchanged, a known puuid keeps its place in Map order and a new one is appended, and distinct keys stay distinct; the reply is the `/add` reply for that player and looked-up rank (commands/general/add.js:41-48), which throws, and updateRanks is skipped, iff the lookup failed |
| SlashAdd.PublishStep | commands/general/add.js:158-165 | the board is edited into the message at `config.messageId` when one is stored, else sent and its id recorded |
| SlashAdd.OnExecute | commands/general/add.js:31-51 | `/add` publishes iff the player was found and its rank fetched; the published board is the refreshed roster's; it is sent iff `config.messageId` is not truthy, and the new id is then stored, or else it edits the message at `config.messageId` and the id is kept |
| Copies.BoardsRankAlike | commands/general/add.js:128-141 | when index.js's sort succeeds, both copies list the same sequence of table positions |
| Copies.SameLineOnDividedRank | commands/general/add.js:149-154 | on a listed divided rank both copies draw the same line |
| Copies.UnrankedLinesDiffer | commands/general/add.js:150 | a player with no solo-queue entry is "Unranked" in index.js and "UNRANKED" in add.js |
| Copies.UnrankedIndexLine | index.js:87-95 | index.js draws a player without a solo-queue entry as "Unranked" |
| Copies.ApexIndexLine | index.js:89-95 | index.js drops an apex tier's division |
| Copies.ApexSlashLine | commands/general/add.js:150-154 | add.js keeps an apex tier's division |
| Copies.NullRankBreaksOnlyIndex | index.js:104 | a stored null rank stops the index.js board from rendering, while add.js shows that player as UNRANKED |
| Copies.RepliesShareRankText | commands/general/add.js:41-48 | the `!add` and `/add` replies carry the same rank text |

## Left out

- The HTTP calls are left out: URL building, `fetch` and `response.json()` in getSummonerId and getRank. Lookups are function parameters, and the league-v4 response is an already-parsed list, or None when `response.ok` is false.
- The Discord client is left out: `channels.fetch`, the `if (!channel) return` guard, fetching the old message, the `if (message)` guard before `edit`, `reply`, message deletion and `setTimeout`. A publish is modelled once the channel is found, as the Send or Edit it makes.
- The ephemeral flag on the `/add` replies is left out. The model keeps their text.
- File persistence is left out: loading and saving `players.json`, `data.json` and `config.json`. The roster starts as a sequence in Map insertion order, which is how `new Map(Object.entries(…))` orders it. Object.entries puts integer-like keys first, which the model does not follow.
- The `setInterval` refresh and overlapping refreshes are left out, because they are concurrency. Each handler is modelled as one sequential step.
- The client login and the slash-command registration are left out.
- League points are exact, unbounded integers, and `${lp}` is rendered as plain decimal digits (Labels.BoardLpSuffix, Labels.ReplyLpSuffix, JsStrings.IntToString). In JavaScript LP is a Number. The model does not cover non-integer values or NaN. It also does not cover exponent notation, which JavaScript uses from 1e21 on ("1e+21"), or the rounding `JSON.parse` applies to integers above 2^53. Riot league-point values are far below both bounds.
- IndexBot.OnMessage: `reply` and `updateRanks` are not awaited in order. The model takes the reply text first and then the refresh, as sequential code would.
