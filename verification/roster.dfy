/** The roster: the `players` Map from a player's stable identifier (the
    puuid) to the stored record, kept as its entries in the Map's insertion
    order, which is the order `players.entries()` and `for ... of` visit. */
module Roster {
  import opened JsValues

  /** A ranked-queue standing as getRank builds it: tier, division (the API's
      `rank` field) and league points, each possibly null. */
  datatype RankInfo = RankInfo(tier: Option<string>, division: Option<string>, lp: Option<int>)

  /** The value stored under a puuid. `rank` is null when the rank lookup
      failed (getRank returned null). */
  datatype Player = Player(tag: string, username: string, rank: Option<RankInfo>)

  /** One `[puuid, player]` pair of `players.entries()`. */
  datatype Entry = Entry(puuid: string, player: Player)

  type Roster = seq<Entry>

  function Keys(r: Roster): seq<string>
  {
    seq(|r|, i requires 0 <= i < |r| => r[i].puuid)
  }

  /** A Map holds each key once. */
  predicate UniqueKeys(r: Roster)
  {
    forall i, j :: 0 <= i < j < |r| ==> r[i].puuid != r[j].puuid
  }

  lemma KeysCons(e: Entry, r: Roster)
    ensures Keys([e] + r) == [e.puuid] + Keys(r)
  {
  }

  /** Map.prototype.get */
  function Get(r: Roster, key: string): (p: Option<Player>)
    ensures p.None? <==> key !in Keys(r)
    ensures p.Some? ==> exists i :: 0 <= i < |r| && r[i] == Entry(key, p.value)
  {
    if r == [] then None
    else
      KeysCons(r[0], r[1..]);
      assert [r[0]] + r[1..] == r;
      if r[0].puuid == key then Some(r[0].player)
      else
        var p := Get(r[1..], key);
        assert p.Some? ==> exists i :: 0 <= i < |r[1..]| && r[1..][i] == Entry(key, p.value);
        p
  }

  /** Map.prototype.set: a key already present keeps its position and takes
      the new value; a new key is appended at the end. */
  function Set(r: Roster, key: string, p: Player): (r': Roster)
    ensures Get(r', key) == Some(p)
    ensures forall k :: k != key ==> Get(r', k) == Get(r, k)
    ensures key in Keys(r) ==> Keys(r') == Keys(r)
    ensures key !in Keys(r) ==> Keys(r') == Keys(r) + [key]
    ensures UniqueKeys(r) ==> UniqueKeys(r')
  {
    if r == [] then [Entry(key, p)]
    else if r[0].puuid == key then
      var r' := [Entry(key, p)] + r[1..];
      SetHere(r, key, p, r');
      r'
    else
      var rest := Set(r[1..], key, p);
      var r' := [r[0]] + rest;
      SetFurther(r, key, p, rest, r');
      r'
  }

  /** Set when the key is at the head: the head's value is replaced. */
  lemma SetHere(r: Roster, key: string, p: Player, r': Roster)
    requires r != [] && r[0].puuid == key && r' == [Entry(key, p)] + r[1..]
    ensures Get(r', key) == Some(p)
    ensures forall k :: k != key ==> Get(r', k) == Get(r, k)
    ensures Keys(r') == Keys(r)
    ensures UniqueKeys(r) ==> UniqueKeys(r')
  {
    KeysCons(r[0], r[1..]);
    assert [r[0]] + r[1..] == r;
    KeysCons(Entry(key, p), r[1..]);
    assert r'[1..] == r[1..];
    assert forall i :: 1 <= i < |r'| ==> r'[i] == r[i];
  }

  /** Set when the key is not at the head: the head stays, the tail is set. */
  lemma SetFurther(r: Roster, key: string, p: Player, rest: Roster, r': Roster)
    requires r != [] && r[0].puuid != key && r' == [r[0]] + rest
    requires Get(rest, key) == Some(p)
    requires forall k :: k != key ==> Get(rest, k) == Get(r[1..], k)
    requires key in Keys(r[1..]) ==> Keys(rest) == Keys(r[1..])
    requires key !in Keys(r[1..]) ==> Keys(rest) == Keys(r[1..]) + [key]
    requires UniqueKeys(r[1..]) ==> UniqueKeys(rest)
    ensures Get(r', key) == Some(p)
    ensures forall k :: k != key ==> Get(r', k) == Get(r, k)
    ensures key in Keys(r) ==> Keys(r') == Keys(r)
    ensures key !in Keys(r) ==> Keys(r') == Keys(r) + [key]
    ensures UniqueKeys(r) ==> UniqueKeys(r')
  {
    FurtherLookups(r, key, p, rest, r');
    FurtherKeys(r, key, rest, r');
    SetKeepsUnique(r, rest, r');
  }

  lemma FurtherLookups(r: Roster, key: string, p: Player, rest: Roster, r': Roster)
    requires r != [] && r[0].puuid != key && r' == [r[0]] + rest
    requires Get(rest, key) == Some(p)
    requires forall k :: k != key ==> Get(rest, k) == Get(r[1..], k)
    ensures Get(r', key) == Some(p)
    ensures forall k :: k != key ==> Get(r', k) == Get(r, k)
  {
    assert r'[0] == r[0] && r'[1..] == rest;
  }

  lemma FurtherKeys(r: Roster, key: string, rest: Roster, r': Roster)
    requires r != [] && r[0].puuid != key && r' == [r[0]] + rest
    requires key in Keys(r[1..]) ==> Keys(rest) == Keys(r[1..])
    requires key !in Keys(r[1..]) ==> Keys(rest) == Keys(r[1..]) + [key]
    ensures key in Keys(r) ==> Keys(r') == Keys(r)
    ensures key !in Keys(r) ==> Keys(r') == Keys(r) + [key]
    ensures Keys(r') == [r[0].puuid] + Keys(rest)
    ensures r[0].puuid !in Keys(r[1..]) ==> r[0].puuid !in Keys(rest)
  {
    KeysCons(r[0], r[1..]);
    assert [r[0]] + r[1..] == r;
    KeysCons(r[0], rest);
  }

  /** The step of Set's uniqueness proof: a head whose key is not among the
      tail's keys keeps a unique tail unique. */
  lemma SetKeepsUnique(r: Roster, rest: Roster, r': Roster)
    requires r != [] && r' == [r[0]] + rest
    requires Keys(r') == [r[0].puuid] + Keys(rest)
    requires UniqueKeys(r[1..]) ==> UniqueKeys(rest)
    requires r[0].puuid !in Keys(r[1..]) ==> r[0].puuid !in Keys(rest)
    ensures UniqueKeys(r) ==> UniqueKeys(r')
  {
    if UniqueKeys(r) {
      assert UniqueKeys(r[1..]) by {
        forall i, j | 0 <= i < j < |r[1..]|
          ensures r[1..][i].puuid != r[1..][j].puuid
        {
          assert r[1..][i] == r[i + 1] && r[1..][j] == r[j + 1];
        }
      }
      assert r[0].puuid !in Keys(r[1..]);
      forall i, j | 0 <= i < j < |r'|
        ensures r'[i].puuid != r'[j].puuid
      {
        if i == 0 {
          assert r'[j].puuid == Keys(rest)[j - 1];
        } else {
          assert r'[i] == rest[i - 1] && r'[j] == rest[j - 1];
        }
      }
    }
  }

  /** The loop of updateRanks: every entry's rank is replaced by what `fetch`
      returns for its puuid; nothing else changes. `fetch` stands for
      League.GetRank applied to the league-v4 response for that puuid (the
      HTTP call is not modelled); League.EveryRankReachable shows that any
      such function is one getRank can produce. */
  function UpdateRanks(r: Roster, fetch: string -> Option<RankInfo>): (r': Roster)
    ensures Keys(r') == Keys(r)
    ensures forall i :: 0 <= i < |r| ==>
              && r'[i].player.username == r[i].player.username
              && r'[i].player.tag == r[i].player.tag
              && r'[i].player.rank == fetch(r[i].puuid)
  {
    if r == [] then []
    else
      var e := r[|r| - 1];
      var done := UpdateRanks(r[..|r| - 1], fetch);
      var r' := done + [Entry(e.puuid, e.player.(rank := fetch(e.puuid)))];
      assert Keys(r) == Keys(r[..|r| - 1]) + [e.puuid];
      assert Keys(r') == Keys(done) + [e.puuid];
      r'
  }

  /** Seen through the Map, updateRanks keeps the key set and every stored
      username and tag, and each key's rank becomes the fetched one. */
  lemma {:induction false} UpdateRanksAsMap(r: Roster, fetch: string -> Option<RankInfo>, key: string)
    ensures Get(UpdateRanks(r, fetch), key).None? <==> Get(r, key).None?
    ensures Get(r, key).Some? ==>
              Get(UpdateRanks(r, fetch), key) == Some(Get(r, key).value.(rank := fetch(key)))
    decreases |r|
  {
    var r' := UpdateRanks(r, fetch);
    if r != [] {
      var s' := UpdateRanks(r[1..], fetch);
      assert r'[1..] == s' by {
        assert |r'[1..]| == |s'|;
        forall i | 0 <= i < |s'|
          ensures r'[1..][i] == s'[i]
        {
          assert r'[1..][i] == r'[i + 1];
          assert r[1..][i] == r[i + 1];
          assert Keys(r')[i + 1] == Keys(r)[i + 1];
          assert Keys(s')[i] == Keys(r[1..])[i];
        }
      }
      assert Keys(r')[0] == Keys(r)[0];
      UpdateRanksAsMap(r[1..], fetch, key);
    }
  }
}
