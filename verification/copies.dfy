/** How the two copies of the leaderboard relate: index.js and
    commands/general/add.js rank by the same table, but only index.js breaks
    ties by league points, and the two format ranks differently. */
module Copies {
  import opened JsValues
  import opened Roster
  import opened Ranking
  import opened Labels
  import IndexBot
  import SlashAdd

  /** `f` applied to every element, in order. */
  function Image<T>(f: T -> int, s: seq<T>): (r: seq<int>)
    ensures |r| == |s|
    ensures forall k :: 0 <= k < |s| ==> r[k] == f(s[k])
  {
    seq(|s|, k requires 0 <= k < |s| => f(s[k]))
  }

  lemma ImageConcat<T>(f: T -> int, a: seq<T>, b: seq<T>)
    ensures Image(f, a + b) == Image(f, a) + Image(f, b)
  {
  }

  /** Reordering the elements reorders their images. */
  lemma {:induction false} ImagePermute<T>(f: T -> int, x: seq<T>, y: seq<T>)
    requires multiset(x) == multiset(y)
    ensures multiset(Image(f, x)) == multiset(Image(f, y))
    decreases |x|
  {
    if x == [] {
      assert |y| == |multiset(y)| == 0;
    } else {
      var e := x[0];
      assert e in multiset(y);
      var k :| 0 <= k < |y| && y[k] == e;
      var before, after := y[..k], y[k + 1..];
      var rest := before + after;
      assert y == before + [e] + after;
      assert x == [e] + x[1..];
      assert multiset(y) == multiset(before) + multiset{e} + multiset(after);
      assert multiset(x) == multiset{e} + multiset(x[1..]);
      CancelOne(e, multiset(x[1..]), multiset(rest));
      ImagePermute(f, x[1..], rest);
      ImageConcat(f, [e], x[1..]);
      ImageConcat(f, before + [e], after);
      ImageConcat(f, before, [e]);
      ImageConcat(f, before, after);
      assert Image(f, [e]) == [f(e)];
      assert multiset(Image(f, x)) == multiset{f(e)} + multiset(Image(f, rest));
      assert multiset(Image(f, y)) == multiset(Image(f, before)) + multiset{f(e)} + multiset(Image(f, after));
    }
  }

  lemma CancelOne<T>(e: T, m: multiset<T>, n: multiset<T>)
    requires multiset{e} + m == multiset{e} + n
    ensures m == n
  {
    forall z
      ensures m[z] == n[z]
    {
      assert (multiset{e} + m)[z] == (multiset{e} + n)[z];
    }
  }

  /** Two ascending integer sequences with the same elements are equal. */
  lemma {:induction false} AscendingDetermined(a: seq<int>, b: seq<int>)
    requires forall i, j :: 0 <= i < j < |a| ==> a[i] <= a[j]
    requires forall i, j :: 0 <= i < j < |b| ==> b[i] <= b[j]
    requires multiset(a) == multiset(b)
    ensures a == b
    decreases |a|
  {
    assert |a| == |multiset(a)| == |multiset(b)| == |b|;
    if a != [] {
      assert b[0] in multiset(a);
      var i :| 0 <= i < |a| && a[i] == b[0];
      assert a[0] <= b[0];
      assert a[0] in multiset(b);
      var j :| 0 <= j < |b| && b[j] == a[0];
      assert b[0] <= a[0];
      assert a == [a[0]] + a[1..];
      assert b == [b[0]] + b[1..];
      assert multiset(a) == multiset{a[0]} + multiset(a[1..]);
      assert multiset(b) == multiset{b[0]} + multiset(b[1..]);
      CancelOne(a[0], multiset(a[1..]), multiset(b[1..]));
      AscendingDetermined(a[1..], b[1..]);
    }
  }

  /** Whenever index.js's sort succeeds, both copies list the same sequence
      of table positions: they differ only in the order of players sharing
      a position. */
  lemma BoardsRankAlike(players: Roster)
    requires IndexBot.SortedLeaderboard(players).Ok?
    ensures Image(Ordinal, IndexBot.SortedLeaderboard(players).value) == Image(Ordinal, SlashAdd.SortedLeaderboard(players))
  {
    var r := IndexBot.SortedLeaderboard(players).value;
    var s := SlashAdd.SortedLeaderboard(players);
    ImagePermute(Ordinal, r, players);
    ImagePermute(Ordinal, s, players);
    AscendingDetermined(Image(Ordinal, r), Image(Ordinal, s));
  }

  /** On a listed divided rank the two copies draw the same line. */
  lemma SameLineOnDividedRank(e: Entry, index: nat, t: nat, d: nat)
    requires t < |DivisionTiers| && d < |Divisions|
    requires e.player.rank.Some? && e.player.rank.value.tier == Some(DivisionTiers[t])
    requires e.player.rank.value.division == Some(Divisions[d])
    ensures IndexBot.EntryLine(e, index) == SlashAdd.Line(e, index)
  {
    DividedLabelIsKey(t, d);
  }

  /** A player without a solo-queue entry is "Unranked" in index.js and
      "UNRANKED" in add.js. */
  lemma UnrankedLinesDiffer(e: Entry, index: nat)
    requires e.player.rank == Some(RankInfo(None, None, None))
    ensures IndexBot.EntryLine(e, index) == LinePrefix(index, e.player.username) + "Unranked"
    ensures SlashAdd.Line(e, index) == LinePrefix(index, e.player.username) + "UNRANKED"
  {
    SlashAdd.UnfetchedLine(e, index);
    UnrankedIndexLine(e, index);
  }

  lemma UnrankedIndexLine(e: Entry, index: nat)
    requires e.player.rank == Some(RankInfo(None, None, None))
    ensures IndexBot.EntryLine(e, index) == LinePrefix(index, e.player.username) + "Unranked"
  {
    var info := e.player.rank.value;
    assert Label(info.tier, info.division) == "Unranked";
    assert BoardLpSuffix(info.lp) == "";
    assert IndexBot.EntryLine(e, index) == LinePrefix(index, e.player.username) + "Unranked" + "";
  }

  /** An apex tier carrying a division loses the division in index.js's
      line. */
  lemma ApexIndexLine(e: Entry, index: nat, a: nat)
    requires a < |ApexTiers| && e.player.rank.Some? && e.player.rank.value.tier == Some(ApexTiers[a])
    ensures IndexBot.EntryLine(e, index) == LinePrefix(index, e.player.username) + ApexTiers[a] + BoardLpSuffix(e.player.rank.value.lp)
  {
    var info := e.player.rank.value;
    IndexBot.ApexLineHasNoDivision(e.player.username, info.tier, info.division, info.lp, index);
  }

  /** ... and keeps it in add.js's. */
  lemma ApexSlashLine(e: Entry, index: nat, a: nat, d: nat)
    requires a < |ApexTiers| && d < |Divisions|
    requires e.player.rank.Some? && e.player.rank.value.tier == Some(ApexTiers[a])
    requires e.player.rank.value.division == Some(Divisions[d])
    ensures SlashAdd.Line(e, index) == LinePrefix(index, e.player.username) + ApexTiers[a] + " " + Divisions[d] + BoardLpSuffix(e.player.rank.value.lp)
  {
    assert RankKey(e.player.rank) == ApexTiers[a] + " " + Divisions[d] by {
      WordsTrimmed();
      OrdinalOfApexWithDivision(e.player.rank, a);
    }
  }

  /** A stored null rank stops index.js from publishing at all, while add.js
      publishes that player as UNRANKED. */
  lemma NullRankBreaksOnlyIndex(players: Roster, k: nat)
    requires k < |players| && players[k].player.rank.None?
    ensures IndexBot.BoardText(players).Throw?
    ensures var s := SlashAdd.SortedLeaderboard(players);
      exists m :: 0 <= m < |s| && s[m] == players[k] &&
        SlashAdd.RenderLines(s)[m] == LinePrefix(m, players[k].player.username) + "UNRANKED"
  {
    IndexBot.BoardRendersIffRanked(players);
    var s := SlashAdd.SortedLeaderboard(players);
    assert players[k] in multiset(s);
    var m :| 0 <= m < |s| && s[m] == players[k];
    SlashAdd.UnfetchedLine(s[m], m);
  }

  /** The two replies carry the same rank text; only the words around it
      differ. */
  lemma RepliesShareRankText(username: string, tag: string, rank: Option<RankInfo>)
    requires rank.Some?
    ensures exists text ::
              && IndexBot.AddReply(username, tag, rank) == Ok("Ajouté " + username + "#" + tag + " avec rang " + text)
              && SlashAdd.ExecuteReply(username, tag, rank) == Ok("Added " + username + "#" + tag + " with rank " + text)
  {
    var text := Label(rank.value.tier, rank.value.division) + ReplyLpSuffix(rank.value.lp);
    var fr, en := "Ajouté " + username + "#" + tag + " avec rang ", "Added " + username + "#" + tag + " with rank ";
    var shown, lp := Label(rank.value.tier, rank.value.division), ReplyLpSuffix(rank.value.lp);
    assert fr + shown + lp == fr + text;
    assert en + shown + lp == en + text;
    assert IndexBot.AddReply(username, tag, rank) == Ok(fr + text);
    assert SlashAdd.ExecuteReply(username, tag, rank) == Ok(en + text);
  }
}
