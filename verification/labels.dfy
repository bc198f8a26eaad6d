/** The text pieces both files build from a rank: the label of the `!add`
    and `/add` replies and of index.js's leaderboard lines (the tier or
    "Unranked", then the division unless the tier is an apex tier), the
    league-point suffixes, and the numbered line prefix. */
module Labels {
  import opened JsValues
  import opened JsStrings
  import opened Roster
  import opened Ranking

  /** `["MASTER", "GRANDMASTER", "CHALLENGER"].includes(tier)`: a null tier
      is not listed. */
  predicate IsApex(tier: Option<string>)
  {
    tier.Some? && tier.value in ApexTiers
  }

  /** `tier ?? "Unranked"` */
  function TierLabel(tier: Option<string>): string
  {
    OrElse(tier, "Unranked")
  }

  /** `" ${division}"` when the tier is not an apex tier and the division is
      truthy, else nothing. */
  function DivisionSuffix(tier: Option<string>, division: Option<string>): (r: string)
    ensures r != "" <==> !IsApex(tier) && StringTruthy(division)
    ensures r != "" ==> r == " " + division.value
  {
    if !IsApex(tier) && StringTruthy(division) then " " + division.value else ""
  }

  /** The rank as the replies and index.js's lines show it. */
  function Label(tier: Option<string>, division: Option<string>): string
  {
    TierLabel(tier) + DivisionSuffix(tier, division)
  }

  /** `lp ? " - ${lp} LP" : ""`, the suffix of a leaderboard line. */
  function BoardLpSuffix(lp: Option<int>): (r: string)
    ensures r != "" <==> NumberTruthy(lp)
    ensures r != "" ==> r == " - " + IntToString(lp.value) + " LP"
  {
    if NumberTruthy(lp) then " - " + IntToString(lp.value) + " LP" else ""
  }

  /** `lp ? " (${lp} LP)" : ""`, the suffix of a reply. */
  function ReplyLpSuffix(lp: Option<int>): (r: string)
    ensures r != "" <==> NumberTruthy(lp)
    ensures r != "" ==> r == " (" + IntToString(lp.value) + " LP)"
  {
    if NumberTruthy(lp) then " (" + IntToString(lp.value) + " LP)" else ""
  }

  /** `${index + 1}. ${username} : `, the start of every leaderboard line. */
  function LinePrefix(index: nat, username: string): string
  {
    NatToString(index + 1) + ". " + username + " : "
  }

  /** The line number reads back as `index + 1`, and the prefix ends with the
      username and the separator. */
  lemma LinePrefixNumber(index: nat, username: string)
    ensures var n := NatToString(index + 1);
      && LinePrefix(index, username)[..|n|] == n
      && DigitsValue(LinePrefix(index, username)[..|n|]) == index + 1
      && LinePrefix(index, username)[|n|..] == ". " + username + " : "
  {
    var n := NatToString(index + 1);
    var p := LinePrefix(index, username);
    assert p == n + (". " + username + " : ");
    NatToStringRoundTrip(index + 1);
  }

  /** An apex tier shows no division, whatever the data holds. */
  lemma ApexHidesDivision(tier: Option<string>, division: Option<string>)
    requires IsApex(tier)
    ensures Label(tier, division) == tier.value
  {
  }

  /** A non-apex tier shows its division when the division is truthy. */
  lemma DividedLabel(tier: string, division: string)
    requires !IsApex(Some(tier)) && division != ""
    ensures Label(Some(tier), Some(division)) == tier + " " + division
  {
  }

  /** On a listed divided rank the label is the rank key. */
  lemma DividedLabelIsKey(t: nat, d: nat)
    requires t < |DivisionTiers| && d < |Divisions|
    ensures Label(Some(DivisionTiers[t]), Some(Divisions[d])) == RankKey(Some(RankInfo(Some(DivisionTiers[t]), Some(Divisions[d]), None)))
  {
    DividedKey(Some(RankInfo(Some(DivisionTiers[t]), Some(Divisions[d]), None)), t, d);
    TierWords();
    assert !IsApex(Some(DivisionTiers[t]));
  }

  /** On an apex tier without a division the label is the rank key. */
  lemma ApexLabelIsKey(a: nat)
    requires a < |ApexTiers|
    ensures Label(Some(ApexTiers[a]), None) == RankKey(Some(RankInfo(Some(ApexTiers[a]), None, None)))
  {
    WordsTrimmed();
    RankKeyShape(Some(RankInfo(Some(ApexTiers[a]), None, None)));
  }

  /** The label and the key differ on the unranked record ("Unranked"
      against "UNRANKED") and on an apex tier that carries a division, which
      only the key keeps. */
  lemma LabelDiffersFromKey(a: nat, d: nat)
    requires a < |ApexTiers| && d < |Divisions|
    ensures Label(None, None) == "Unranked" && RankKey(Some(RankInfo(None, None, None))) == Unranked
    ensures Label(Some(ApexTiers[a]), Some(Divisions[d])) == ApexTiers[a]
    ensures RankKey(Some(RankInfo(Some(ApexTiers[a]), Some(Divisions[d]), None))) == ApexTiers[a] + " " + Divisions[d]
  {
    OrdinalOfUnranked(Some(RankInfo(None, None, None)));
    WordsTrimmed();
    OrdinalOfApexWithDivision(Some(RankInfo(Some(ApexTiers[a]), Some(Divisions[d]), None)), a);
  }
}
