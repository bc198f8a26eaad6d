/** The ranking shared by both leaderboards: the fixed `ranks` table, the
    rank key looked up in it, the ordinal the lookup yields, and the two
    comparators (index.js breaks ties by league points, add.js does not). */
module Ranking {
  import opened JsValues
  import opened JsStrings
  import opened Roster

  /** The `ranks` table, most prestigious first. add.js repeats it verbatim. */
  const Table: seq<string> := [
    "CHALLENGER", "GRANDMASTER", "MASTER",
    "DIAMOND I", "DIAMOND II", "DIAMOND III", "DIAMOND IV",
    "EMERALD I", "EMERALD II", "EMERALD III", "EMERALD IV",
    "PLATINUM I", "PLATINUM II", "PLATINUM III", "PLATINUM IV",
    "GOLD I", "GOLD II", "GOLD III", "GOLD IV",
    "SILVER I", "SILVER II", "SILVER III", "SILVER IV",
    "BRONZE I", "BRONZE II", "BRONZE III", "BRONZE IV",
    "IRON I", "IRON II", "IRON III", "IRON IV",
    "UNRANKED"
  ]

  /** The three tiers without divisions, highest first. */
  const ApexTiers: seq<string> := ["CHALLENGER", "GRANDMASTER", "MASTER"]

  /** The tiers with divisions, highest first. */
  const DivisionTiers: seq<string> := ["DIAMOND", "EMERALD", "PLATINUM", "GOLD", "SILVER", "BRONZE", "IRON"]

  /** Divisions, highest first. */
  const Divisions: seq<string> := ["I", "II", "III", "IV"]

  const Unranked: string := "UNRANKED"

  /** The `k`-th divided rank in prestige order: tier k / 4, division k % 4. */
  function DivisionRank(k: nat): string
    requires k < 28
  {
    DivisionTiers[k / 4] + " " + Divisions[k % 4]
  }

  /** The table lists the ranks from best to worst: CHALLENGER, GRANDMASTER
      and MASTER, then DIAMOND down to IRON each with divisions I to IV,
      then UNRANKED. */
  lemma TableLayout()
    ensures |Table| == 32
    ensures Table[..3] == ApexTiers
    ensures forall k :: 0 <= k < 28 ==> Table[3 + k] == DivisionRank(k)
    ensures Table[31] == Unranked
  {
    forall k | 0 <= k < 28
      ensures Table[3 + k] == DivisionRank(k)
    {
      if k < 12 {
        UpperDivided(k);
      } else {
        LowerDivided(k);
      }
    }
  }

  /** DIAMOND, EMERALD and PLATINUM. */
  lemma UpperDivided(k: nat)
    requires k < 12
    ensures Table[3 + k] == DivisionRank(k)
  {
  }

  /** GOLD, SILVER, BRONZE and IRON. */
  lemma LowerDivided(k: nat)
    requires 12 <= k < 28
    ensures Table[3 + k] == DivisionRank(k)
  {
  }

  /** Cutting at the first space separates a space-free head from the rest. */
  lemma SpacedInjective(a: string, x: string, b: string, y: string)
    requires ' ' !in a && ' ' !in b
    requires a + " " + x == b + " " + y
    ensures a == b && x == y
  {
    var s := a + " " + x;
    var k := IndexOf(s, ' ');
    assert s[|a|] == ' ' && s[..|a|] == a;
    assert k == |a|;
    var s' := b + " " + y;
    assert s'[|b|] == ' ' && s'[..|b|] == b;
    assert k == |b|;
    assert x == s[|a| + 1..] && y == s'[|b| + 1..];
  }

  lemma DivisionRankInjective(k: nat, m: nat)
    requires k < 28 && m < 28
    requires DivisionRank(k) == DivisionRank(m)
    ensures k == m
  {
    SpacedInjective(DivisionTiers[k / 4], Divisions[k % 4], DivisionTiers[m / 4], Divisions[m % 4]);
    assert k / 4 == m / 4;
    assert k % 4 == m % 4;
  }

  lemma SpaceInDivisionRank(k: nat)
    requires k < 28
    ensures ' ' in DivisionRank(k)
  {
    assert DivisionRank(k)[|DivisionTiers[k / 4]|] == ' ';
  }

  /** The apex tiers and UNRANKED are single words. */
  lemma NoSpaceOutsideDivisions(i: nat)
    requires i < 3 || i == 31
    ensures |Table| == 32 && ' ' !in Table[i]
  {
    if i == 0 {
      assert Table[i] == "CHALLENGER";
    } else if i == 1 {
      assert Table[i] == "GRANDMASTER";
    } else if i == 2 {
      assert Table[i] == "MASTER";
    } else {
      assert Table[i] == "UNRANKED";
    }
  }

  /** No rank key is listed twice, so a table position names one key. */
  lemma TableDistinct()
    ensures forall i, j :: 0 <= i < j < |Table| ==> Table[i] != Table[j]
  {
    forall i, j | 0 <= i < j < |Table|
      ensures Table[i] != Table[j]
    {
      EntriesDiffer(i, j);
    }
  }

  lemma EntriesDiffer(i: nat, j: nat)
    requires i < j < 32
    ensures |Table| == 32 && Table[i] != Table[j]
  {
    if 3 <= i < 31 && 3 <= j < 31 {
      DividedEntriesDiffer(i - 3, j - 3);
    } else if 3 <= i < 31 {
      DividedVersusWord(i - 3, j);
    } else if 3 <= j < 31 {
      DividedVersusWord(j - 3, i);
    } else {
      WordEntriesDiffer(i, j);
    }
  }

  lemma DividedEntriesDiffer(k: nat, m: nat)
    requires k < m < 28
    ensures |Table| == 32 && Table[3 + k] != Table[3 + m]
  {
    TableLayout();
    if DivisionRank(k) == DivisionRank(m) {
      DivisionRankInjective(k, m);
    }
  }

  lemma DividedVersusWord(k: nat, i: nat)
    requires k < 28 && (i < 3 || i == 31)
    ensures |Table| == 32 && Table[3 + k] != Table[i]
  {
    TableLayout();
    SpaceInDivisionRank(k);
    NoSpaceOutsideDivisions(i);
  }

  /** The single-word entries have different lengths. */
  lemma WordEntriesDiffer(i: nat, j: nat)
    requires i < j && (i < 3 || i == 31) && (j < 3 || j == 31)
    ensures |Table| == 32 && Table[i] != Table[j]
  {
    assert |Table[0]| == 10 && |Table[1]| == 11 && |Table[2]| == 6 && |Table[31]| == 8;
  }

  /** Looking up a listed key yields its position. */
  lemma IndexOfListed(i: nat, key: string)
    requires i < |Table| && Table[i] == key
    ensures IndexOf(Table, key) == i
  {
    TableDistinct();
    assert Table[i] in Table;
    assert Table[i] !in Table[..i];
  }

  /** The text before the space in the key: `rank?.tier ?? "UNRANKED"`. */
  function TierText(rank: Option<RankInfo>): string
  {
    match rank
    case None => Unranked
    case Some(info) => OrElse(info.tier, Unranked)
  }

  /** The text after the space in the key: `rank?.division ?? ""`. */
  function DivisionText(rank: Option<RankInfo>): string
  {
    match rank
    case None => ""
    case Some(info) => OrElse(info.division, "")
  }

  /** The rank key both comparators look up:
      `${rank?.tier ?? "UNRANKED"} ${rank?.division ?? ""}`.trim() */
  function RankKey(rank: Option<RankInfo>): string
  {
    Trim(TierText(rank) + " " + DivisionText(rank))
  }

  /** For a tier and division without stray whitespace, the key is the tier,
      followed by a space and the division when there is one. */
  lemma RankKeyShape(rank: Option<RankInfo>)
    requires TierText(rank) != "" && Trimmed(TierText(rank)) && Trimmed(DivisionText(rank))
    ensures DivisionText(rank) == "" ==> RankKey(rank) == TierText(rank)
    ensures DivisionText(rank) != "" ==> RankKey(rank) == TierText(rank) + " " + DivisionText(rank)
  {
    var t, d := TierText(rank), DivisionText(rank);
    if d == "" {
      assert t + " " + d == [] + t + " ";
      assert AllTrimmable(" ");
      TrimSurrounded([], t, " ");
    } else {
      var m := t + " " + d;
      assert m[0] == t[0] && m[|m| - 1] == d[|d| - 1];
      assert [] + m + [] == m;
      TrimSurrounded([], m, []);
    }
  }

  /** The scan Array.prototype.indexOf performs on the table, from position
      `i` on: the first position holding `key`, or -1. */
  function PositionFrom(key: string, i: nat): int
    requires i <= |Table|
    decreases |Table| - i
  {
    if i == |Table| then -1
    else if Table[i] == key then i
    else PositionFrom(key, i + 1)
  }

  /** `ranks.indexOf(key)` */
  function Position(key: string): int
  {
    PositionFrom(key, 0)
  }

  lemma {:induction false} PositionFromIsIndexOf(key: string, i: nat)
    requires i <= |Table|
    ensures PositionFrom(key, i) == (if IndexOf(Table[i..], key) == -1 then -1 else i + IndexOf(Table[i..], key))
    decreases |Table| - i
  {
    if i < |Table| {
      assert Table[i..][0] == Table[i];
      assert Table[i..][1..] == Table[i + 1..];
      PositionFromIsIndexOf(key, i + 1);
    }
  }

  /** The scan is Array.prototype.indexOf on the table. */
  lemma PositionIsIndexOf(key: string)
    ensures Position(key) == IndexOf(Table, key)
  {
    PositionFromIsIndexOf(key, 0);
    assert Table[0..] == Table;
  }

  /** The entry's table position: `ranks.indexOf(key)`, -1 when the key is
      not listed. */
  function Ordinal(e: Entry): int
  {
    Position(RankKey(e.player.rank))
  }

  /** The ordinal is the first table position holding the entry's key, and
      -1 exactly when the key is not listed. */
  lemma OrdinalIsIndexOf(e: Entry)
    ensures Ordinal(e) == IndexOf(Table, RankKey(e.player.rank))
    ensures -1 <= Ordinal(e) < |Table|
    ensures Ordinal(e) == -1 <==> RankKey(e.player.rank) !in Table
    ensures Ordinal(e) >= 0 ==> Table[Ordinal(e)] == RankKey(e.player.rank)
  {
    PositionIsIndexOf(RankKey(e.player.rank));
  }

  /** The tier and division words have no whitespace at either end. */
  lemma WordsTrimmed()
    ensures forall t :: 0 <= t < |DivisionTiers| ==> DivisionTiers[t] != "" && Trimmed(DivisionTiers[t])
    ensures forall a :: 0 <= a < |ApexTiers| ==> ApexTiers[a] != "" && Trimmed(ApexTiers[a])
    ensures forall d :: 0 <= d < |Divisions| ==> Divisions[d] != "" && Trimmed(Divisions[d])
    ensures Trimmed(Unranked)
  {
  }

  /** The tier words are single words, and no apex tier is a divided tier. */
  lemma TierWords()
    ensures forall t :: 0 <= t < |DivisionTiers| ==> ' ' !in DivisionTiers[t]
    ensures forall a :: 0 <= a < |ApexTiers| ==> ' ' !in ApexTiers[a]
    ensures forall a, t :: 0 <= a < |ApexTiers| && 0 <= t < |DivisionTiers| ==> ApexTiers[a] != DivisionTiers[t]
  {
  }

  lemma DivisionRankAt(t: nat, d: nat)
    requires t < 7 && d < 4
    ensures 4 * t + d < 28
    ensures DivisionRank(4 * t + d) == DivisionTiers[t] + " " + Divisions[d]
  {
    var k := 4 * t + d;
    assert k / 4 == t && k % 4 == d;
  }

  /** A divided tier with one of the four divisions sits at
      3 + 4 * tier + division: lower tiers and lower divisions come later. */
  lemma OrdinalOfDividedRank(rank: Option<RankInfo>, t: nat, d: nat)
    requires t < 7 && d < 4
    requires rank.Some? && rank.value.tier == Some(DivisionTiers[t]) && rank.value.division == Some(Divisions[d])
    ensures Position(RankKey(rank)) == 3 + 4 * t + d
  {
    PositionIsIndexOf(RankKey(rank));
    DividedKey(rank, t, d);
    DividedKeyListed(t, d);
    IndexOfListed(3 + 4 * t + d, RankKey(rank));
  }

  lemma DividedKey(rank: Option<RankInfo>, t: nat, d: nat)
    requires t < 7 && d < 4
    requires rank.Some? && rank.value.tier == Some(DivisionTiers[t]) && rank.value.division == Some(Divisions[d])
    ensures RankKey(rank) == DivisionTiers[t] + " " + Divisions[d]
  {
    WordsTrimmed();
    assert TierText(rank) == DivisionTiers[t];
    assert DivisionText(rank) == Divisions[d] != "";
    RankKeyShape(rank);
  }

  lemma DividedKeyListed(t: nat, d: nat)
    requires t < 7 && d < 4
    ensures |Table| == 32
    ensures Table[3 + 4 * t + d] == DivisionTiers[t] + " " + Divisions[d]
  {
    DivisionRankAt(t, d);
    TableLayout();
  }

  /** An apex tier without a division sits at its own place, 0 to 2. */
  lemma OrdinalOfApex(rank: Option<RankInfo>, a: nat)
    requires a < 3
    requires rank.Some? && rank.value.tier == Some(ApexTiers[a]) && DivisionText(rank) == ""
    ensures Position(RankKey(rank)) == a
  {
    PositionIsIndexOf(RankKey(rank));
    WordsTrimmed();
    RankKeyShape(rank);
    TableLayout();
    assert Table[a] == Table[..3][a];
    IndexOfListed(a, RankKey(rank));
  }

  /** A null rank, or one with neither tier nor division, has the key
      UNRANKED and sits last, at 31. */
  lemma OrdinalOfUnranked(rank: Option<RankInfo>)
    requires rank.None? || (rank.value.tier.None? && DivisionText(rank) == "")
    ensures RankKey(rank) == Unranked
    ensures Position(RankKey(rank)) == 31
  {
    PositionIsIndexOf(RankKey(rank));
    WordsTrimmed();
    RankKeyShape(rank);
    TableLayout();
    IndexOfListed(31, RankKey(rank));
  }

  /** An apex tier that carries a division (`"MASTER I"`) is not listed, so
      its ordinal is -1. */
  lemma OrdinalOfApexWithDivision(rank: Option<RankInfo>, a: nat)
    requires a < 3
    requires rank.Some? && rank.value.tier == Some(ApexTiers[a])
    requires DivisionText(rank) != "" && Trimmed(DivisionText(rank))
    ensures RankKey(rank) == ApexTiers[a] + " " + DivisionText(rank)
    ensures Position(RankKey(rank)) == -1
  {
    PositionIsIndexOf(RankKey(rank));
    WordsTrimmed();
    RankKeyShape(rank);
    ApexWithDivisionUnlisted(a, DivisionText(rank));
  }

  lemma ApexWithDivisionUnlisted(a: nat, division: string)
    requires a < 3
    ensures ApexTiers[a] + " " + division !in Table
  {
    var key := ApexTiers[a] + " " + division;
    forall i | 0 <= i < |Table|
      ensures Table[i] != key
    {
      TableLayout();
      if 3 <= i < 31 {
        ApexKeyNotDivided(a, division, i - 3);
      } else {
        ApexKeyNotWord(a, division, i);
      }
    }
  }

  lemma ApexKeyNotDivided(a: nat, division: string, k: nat)
    requires a < 3 && k < 28
    ensures ApexTiers[a] + " " + division != DivisionRank(k)
  {
    TierWords();
    if ApexTiers[a] + " " + division == DivisionRank(k) {
      SpacedInjective(ApexTiers[a], division, DivisionTiers[k / 4], Divisions[k % 4]);
    }
  }

  lemma ApexKeyNotWord(a: nat, division: string, i: nat)
    requires a < 3 && (i < 3 || i == 31)
    ensures |Table| == 32 && ApexTiers[a] + " " + division != Table[i]
  {
    NoSpaceOutsideDivisions(i);
    assert (ApexTiers[a] + " " + division)[|ApexTiers[a]|] == ' ';
  }

  /** The two sort orders, one per comparator. */
  datatype Order = ByIndex | ByIndexThenLp

  /** `(rank.lp ?? 0)`, the league points the index.js tie-break reads. */
  function LpOrZero(e: Entry): int
  {
    match e.player.rank
    case Some(info) => OrElse(info.lp, 0)
    case None => 0
  }

  /** What the comparators read of an entry: its table position, its league
      points with null counted as 0, and whether its rank is non-null. */
  datatype Standing = Standing(position: int, lp: int, hasRank: bool)

  function StandingOf(e: Entry): Standing
  {
    Standing(Ordinal(e), LpOrZero(e), e.player.rank.Some?)
  }

  /** `a` may be listed before `b`: a total preorder, stated independently of
      the comparators. ByIndex compares table positions; ByIndexThenLp
      compares table positions, then league points from high to low. */
  predicate Precedes(o: Order, a: Standing, b: Standing)
  {
    match o
    case ByIndex => a.position <= b.position
    case ByIndexThenLp => a.position < b.position || (a.position == b.position && a.lp >= b.lp)
  }

  /** Neither standing precedes the other strictly. */
  predicate Tied(o: Order, a: Standing, b: Standing)
  {
    Precedes(o, a, b) && Precedes(o, b, a)
  }

  /** When a comparator call throws: index.js reads `rank.lp` of both
      entries once their positions are equal. */
  predicate Throws(o: Order, a: Standing, b: Standing)
  {
    o == ByIndexThenLp && a.position == b.position && (!a.hasRank || !b.hasRank)
  }

  lemma PrecedesTotal(o: Order, a: Standing, b: Standing)
    ensures Precedes(o, a, b) || Precedes(o, b, a)
  {
  }

  lemma PrecedesTransitive(o: Order, a: Standing, b: Standing, c: Standing)
    requires Precedes(o, a, b) && Precedes(o, b, c)
    ensures Precedes(o, a, c)
  {
  }

  /** The comparator of index.js: table position first, then league points
      from high to low. It reads `b[1].rank.lp` and `a[1].rank.lp` only when
      the positions are equal, and throws there if either rank is null. */
  function CompareWithLp(a: Entry, b: Entry): (r: Result<int>)
    ensures r.Throw? <==> Ordinal(a) == Ordinal(b) && (a.player.rank.None? || b.player.rank.None?)
    ensures r.Ok? ==> (r.value <= 0 <==> Precedes(ByIndexThenLp, StandingOf(a), StandingOf(b)))
    ensures r.Ok? ==> (r.value >= 0 <==> Precedes(ByIndexThenLp, StandingOf(b), StandingOf(a)))
  {
    var indexA := Ordinal(a);
    var indexB := Ordinal(b);
    if indexA != indexB then Ok(indexA - indexB)
    else
      match b.player.rank
      case None => Throw(NullProperty("lp"))
      case Some(rankB) =>
        match a.player.rank
        case None => Throw(NullProperty("lp"))
        case Some(rankA) => Ok(OrElse(rankB.lp, 0) - OrElse(rankA.lp, 0))
  }

  /** The comparator of add.js: table position only. */
  function CompareByIndex(a: Entry, b: Entry): (r: int)
    ensures r <= 0 <==> Precedes(ByIndex, StandingOf(a), StandingOf(b))
    ensures r >= 0 <==> Precedes(ByIndex, StandingOf(b), StandingOf(a))
  {
    Ordinal(a) - Ordinal(b)
  }

  /** Either comparator as a function of the two standings, the form the
      sort uses. */
  function Compare(o: Order, a: Standing, b: Standing): (r: Result<int>)
    ensures r.Throw? <==> Throws(o, a, b)
    ensures r.Ok? ==> (r.value <= 0 <==> Precedes(o, a, b)) && (r.value >= 0 <==> Precedes(o, b, a))
  {
    if a.position != b.position || o == ByIndex then Ok(a.position - b.position)
    else if !b.hasRank || !a.hasRank then Throw(NullProperty("lp"))
    else Ok(b.lp - a.lp)
  }

  /** Each source comparator depends on the entries only through their
      standings. */
  lemma ComparatorsReadStandings(a: Entry, b: Entry)
    ensures CompareWithLp(a, b) == Compare(ByIndexThenLp, StandingOf(a), StandingOf(b))
    ensures Ok(CompareByIndex(a, b)) == Compare(ByIndex, StandingOf(a), StandingOf(b))
  {
    WithLpReadsStanding(a, b, Ordinal(a), Ordinal(b));
    ByIndexReadsStanding(a, b, StandingOf(a), StandingOf(b));
  }

  lemma ByIndexReadsStanding(a: Entry, b: Entry, sa: Standing, sb: Standing)
    requires sa == StandingOf(a) && sb == StandingOf(b)
    ensures Ok(CompareByIndex(a, b)) == Compare(ByIndex, sa, sb)
  {
    assert CompareByIndex(a, b) == sa.position - sb.position;
    assert Compare(ByIndex, sa, sb) == Ok(sa.position - sb.position);
  }

  lemma WithLpReadsStanding(a: Entry, b: Entry, indexA: int, indexB: int)
    requires indexA == Ordinal(a) && indexB == Ordinal(b)
    ensures CompareWithLp(a, b) == Compare(ByIndexThenLp, StandingOf(a), StandingOf(b))
  {
    if indexA != indexB {
      DistinctPositions(a, b);
    } else {
      SharedPosition(a, b);
    }
  }

  lemma DistinctPositions(a: Entry, b: Entry)
    requires Ordinal(a) != Ordinal(b)
    ensures CompareWithLp(a, b) == Ok(Ordinal(a) - Ordinal(b))
    ensures Compare(ByIndexThenLp, StandingOf(a), StandingOf(b)) == Ok(Ordinal(a) - Ordinal(b))
  {
    assert StandingOf(a).position == Ordinal(a) && StandingOf(b).position == Ordinal(b);
    ComparePositionsDiffer(ByIndexThenLp, StandingOf(a), StandingOf(b));
  }

  lemma ComparePositionsDiffer(o: Order, sa: Standing, sb: Standing)
    requires sa.position != sb.position
    ensures Compare(o, sa, sb) == Ok(sa.position - sb.position)
  {
  }

  lemma SharedPosition(a: Entry, b: Entry)
    requires Ordinal(a) == Ordinal(b)
    ensures a.player.rank.None? || b.player.rank.None? ==>
              && CompareWithLp(a, b) == Throw(NullProperty("lp"))
              && Compare(ByIndexThenLp, StandingOf(a), StandingOf(b)) == Throw(NullProperty("lp"))
    ensures a.player.rank.Some? && b.player.rank.Some? ==>
              && CompareWithLp(a, b) == Ok(LpOrZero(b) - LpOrZero(a))
              && Compare(ByIndexThenLp, StandingOf(a), StandingOf(b)) == Ok(LpOrZero(b) - LpOrZero(a))
  {
    assert StandingOf(a).position == Ordinal(a) && StandingOf(b).position == Ordinal(b);
    CompareSharedPosition(StandingOf(a), StandingOf(b));
  }

  lemma CompareSharedPosition(sa: Standing, sb: Standing)
    requires sa.position == sb.position
    ensures !sa.hasRank || !sb.hasRank ==> Compare(ByIndexThenLp, sa, sb) == Throw(NullProperty("lp"))
    ensures sa.hasRank && sb.hasRank ==> Compare(ByIndexThenLp, sa, sb) == Ok(sb.lp - sa.lp)
  {
  }

  /** index.js's comparator refines add.js's: whenever add.js's comparator
      orders two entries, index.js's returns the same value without throwing;
      index.js only breaks add.js's ties. */
  lemma WithLpRefinesByIndex(a: Entry, b: Entry)
    ensures CompareByIndex(a, b) != 0 ==> CompareWithLp(a, b) == Ok(CompareByIndex(a, b))
    ensures Precedes(ByIndexThenLp, StandingOf(a), StandingOf(b)) ==> Precedes(ByIndex, StandingOf(a), StandingOf(b))
    ensures CompareWithLp(a, b).Ok? && CompareWithLp(a, b).value < 0 ==> CompareByIndex(a, b) <= 0
  {
  }

  /** A key missing from the table gets -1 and so comes strictly before every
      listed key, CHALLENGER included, under both orders. */
  lemma UnlistedKeyComesFirst(a: Entry, b: Entry)
    requires RankKey(a.player.rank) !in Table && RankKey(b.player.rank) in Table
    ensures Ordinal(a) == -1 && Ordinal(b) >= 0
    ensures CompareWithLp(a, b) == Ok(CompareByIndex(a, b)) && CompareByIndex(a, b) < 0
    ensures !Precedes(ByIndex, StandingOf(b), StandingOf(a)) && !Precedes(ByIndexThenLp, StandingOf(b), StandingOf(a))
  {
    OrdinalIsIndexOf(a);
    OrdinalIsIndexOf(b);
  }
}
