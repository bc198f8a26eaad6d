/** The selection half of getRank: given the league-v4 response for a puuid,
    pick the solo-queue standing. The HTTP call itself is not modelled; its
    outcome is a parameter. */
module League {
  import opened JsValues
  import opened Roster

  /** One element of the response array; only the fields getRank reads. */
  datatype LeagueEntry = LeagueEntry(
    queueType: string,
    tier: Option<string>,
    rank: Option<string>,
    leaguePoints: Option<int>)

  const SoloQueue: string := "RANKED_SOLO_5x5"

  /** `i` is the entry `find` returns: the first one in the solo queue. */
  predicate FirstSolo(entries: seq<LeagueEntry>, i: int)
  {
    && 0 <= i < |entries|
    && entries[i].queueType == SoloQueue
    && forall j :: 0 <= j < i ==> entries[j].queueType != SoloQueue
  }

  /** `entries.find(entry => entry.queueType === 'RANKED_SOLO_5x5')`, as a
      position. */
  function FindSolo(entries: seq<LeagueEntry>): (r: Option<nat>)
    ensures r.None? <==> forall i :: 0 <= i < |entries| ==> entries[i].queueType != SoloQueue
    ensures r.Some? ==> FirstSolo(entries, r.value)
  {
    if entries == [] then None
    else if entries[0].queueType == SoloQueue then Some(0)
    else
      match FindSolo(entries[1..])
      case None => None
      case Some(i) =>
        assert forall j :: 1 <= j <= i ==> entries[j] == entries[1..][j - 1];
        Some(i + 1)
  }

  /** getRank once the response is in: `response` is None when the response
      is not ok (getRank returns null), else the parsed array. */
  function GetRank(response: Option<seq<LeagueEntry>>): (r: Option<RankInfo>)
    ensures r.None? <==> response.None?
    ensures response.Some? && (forall i :: 0 <= i < |response.value| ==> response.value[i].queueType != SoloQueue) ==>
              r == Some(RankInfo(None, None, None))
    ensures forall i :: response.Some? && FirstSolo(response.value, i) ==>
              r == Some(RankInfo(response.value[i].tier, response.value[i].rank, response.value[i].leaguePoints))
  {
    match response
    case None => None
    case Some(entries) =>
      match FindSolo(entries)
      case Some(i) =>
        var e := entries[i];
        Some(RankInfo(e.tier, e.rank, e.leaguePoints))
      case None => Some(RankInfo(None, None, None))
  }

  /** A response that makes getRank return `rank`: a failed response for
      null, otherwise a single solo-queue entry carrying the fields. */
  function ResponseFor(rank: Option<RankInfo>): Option<seq<LeagueEntry>>
  {
    match rank
    case None => None
    case Some(info) => Some([LeagueEntry(SoloQueue, info.tier, info.division, info.lp)])
  }

  /** Every value a rank lookup can hold comes out of getRank for some
      response, so a lookup that is a free parameter covers getRank. */
  lemma EveryRankReachable(rank: Option<RankInfo>)
    ensures GetRank(ResponseFor(rank)) == rank
  {
    if rank.Some? {
      assert FirstSolo(ResponseFor(rank).value, 0);
    }
  }
}
