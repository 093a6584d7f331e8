/** Which games to farm.  Playtimes are in minutes. */
module CardFarmer {
  import opened Wrappers
  import opened Sequences
  import opened Sorting
  import Player = PlayGames

  type AppID = Player.AppID

  const MAX_GAMES := 2
  const MULTIPLE_GAMES_TIME_MIN := 30
  const MULTIPLE_GAMES_TIME_MAX := 120

  datatype FarmInfo = FarmInfo(appId: AppID, cardsRemaining: nat, cardsReceived: nat, playtime: int)

  /** `operator<`: few remaining cards first, then high playtime. */
  predicate Less(a: FarmInfo, b: FarmInfo) {
    a.cardsRemaining < b.cardsRemaining || (a.cardsRemaining == b.cardsRemaining && b.playtime < a.playtime)
  }

  /** Fewer cards come first; of games with equal cards the one with the higher playtime; and games neither
      of which comes before the other are exactly those with equal cards and playtime. */
  lemma LessOrdersByRank(a: FarmInfo, b: FarmInfo)
    ensures StrictWeakOrder(Less)
    ensures a.cardsRemaining < b.cardsRemaining ==> Less(a, b) && !Less(b, a)
    ensures a.cardsRemaining == b.cardsRemaining && a.playtime > b.playtime ==> Less(a, b) && !Less(b, a)
    ensures !Less(a, b) && !Less(b, a) <==> a.cardsRemaining == b.cardsRemaining && a.playtime == b.playtime
  {
  }

  /** The farmable games of one class of the selection strategy: the three kinds that are farmed
      alone, in order of preference, and the rest. */
  ghost function Tier(g: FarmInfo): nat {
    if g.cardsReceived > 0 then 0
    else if g.playtime >= MULTIPLE_GAMES_TIME_MAX then 1
    else if g.playtime < MULTIPLE_GAMES_TIME_MIN then 2
    else 3
  }

  ghost function Pool(games: set<FarmInfo>, tier: nat): set<FarmInfo> {
    set g <- games | g.cardsRemaining > 0 && Tier(g) == tier
  }

  /** The best `k` of a pool, or all of a smaller one, in order: nothing left out beats anything taken. */
  ghost predicate IsBest(chosen: seq<FarmInfo>, pool: set<FarmInfo>, k: nat) {
    && |chosen| == (if k < |pool| then k else |pool|)
    && Distinct(chosen) && SortedBy(Less, chosen)
    && (forall c <- chosen :: c in pool)
    && forall g <- pool, c <- chosen :: g !in chosen ==> !Less(g, c)
  }

  /** The strategy: one game of the first tier that has any, or else up to MAX_GAMES of the last. */
  ghost predicate IsChoice(games: set<FarmInfo>, chosen: seq<FarmInfo>) {
    if Pool(games, 0) != {} then IsBest(chosen, Pool(games, 0), 1)
    else if Pool(games, 1) != {} then IsBest(chosen, Pool(games, 1), 1)
    else if Pool(games, 2) != {} then IsBest(chosen, Pool(games, 2), 1)
    else IsBest(chosen, Pool(games, 3), MAX_GAMES)
  }

  /** In plain numbers: a game taken has fewer cards remaining than one left out, or as many and at least
      its playtime; and the list is ordered in the same way. */
  ghost predicate TakesFewestCards(chosen: seq<FarmInfo>, kind: set<FarmInfo>) {
    && (forall c <- chosen :: c in kind)
    && (forall c <- chosen, g <- kind :: g !in chosen ==>
          c.cardsRemaining < g.cardsRemaining || (c.cardsRemaining == g.cardsRemaining && c.playtime >= g.playtime))
    && forall i, j :: 0 <= i < j < |chosen| ==>
         && chosen[i] != chosen[j]
         && (|| chosen[i].cardsRemaining < chosen[j].cardsRemaining
             || (chosen[i].cardsRemaining == chosen[j].cardsRemaining && chosen[i].playtime >= chosen[j].playtime))
  }

  /** The kind of games farmed: those that have received cards, or else those played for 120 minutes or
      longer, or else those played for less than 30, or else all with cards remaining. */
  ghost function Kind(games: seq<FarmInfo>): set<FarmInfo> {
    var farmable := set g <- games | g.cardsRemaining > 0;
    var received := set g <- farmable | g.cardsReceived > 0;
    var long := set g <- farmable | g.playtime >= 120;
    var short := set g <- farmable | g.playtime < 30;
    if received != {} then received else if long != {} then long else if short != {} then short else farmable
  }

  ghost predicate Alone(games: seq<FarmInfo>) {
    exists g <- games :: g.cardsRemaining > 0 && (g.cardsReceived > 0 || g.playtime >= 120 || g.playtime < 30)
  }

  ghost predicate FollowsStrategy(games: seq<FarmInfo>, chosen: seq<FarmInfo>) {
    && TakesFewestCards(chosen, Kind(games))
    && |chosen| == if Alone(games) || |Kind(games)| == 1 then 1 else if Kind(games) == {} then 0 else 2
  }

  lemma BestTakesFewestCards(chosen: seq<FarmInfo>, pool: set<FarmInfo>, k: nat)
    requires IsBest(chosen, pool, k)
    ensures TakesFewestCards(chosen, pool)
  {
  }

  lemma KindIsPool(games: seq<FarmInfo>)
    ensures var all := Elements(games);
            var tier := if Pool(all, 0) != {} then 0 else if Pool(all, 1) != {} then 1 else if Pool(all, 2) != {} then 2 else 3;
            && Kind(games) == Pool(all, tier)
            && (Alone(games) <==> tier < 3)
  {
    var all := Elements(games);
    var farmable := set g <- games | g.cardsRemaining > 0;
    assert Pool(all, 0) == set g <- farmable | g.cardsReceived > 0;
    if Pool(all, 0) == {} {
      forall g <- farmable ensures g.cardsReceived == 0 { assert g !in Pool(all, 0); }
      assert Pool(all, 1) == set g <- farmable | g.playtime >= 120;
      assert Pool(all, 2) == set g <- farmable | g.playtime < 30;
      if Pool(all, 1) == {} && Pool(all, 2) == {} {
        forall g <- farmable ensures 30 <= g.playtime < 120 { assert g !in Pool(all, 1) && g !in Pool(all, 2); }
        assert Pool(all, 3) == farmable;
      } else {
        assert exists g :: g in Pool(all, 1) || g in Pool(all, 2);
      }
    } else {
      assert exists g :: g in Pool(all, 0);
    }
  }

  lemma ChoiceFollowsStrategy(games: seq<FarmInfo>, chosen: seq<FarmInfo>)
    requires IsChoice(Elements(games), chosen)
    ensures FollowsStrategy(games, chosen)
  {
    KindIsPool(games);
    BestTakesFewestCards(chosen, Kind(games), if Alone(games) then 1 else 2);
  }

  // ---- the choice does not depend on the order of the map, up to ties ----

  lemma BestNoWorse(a: seq<FarmInfo>, b: seq<FarmInfo>, pool: set<FarmInfo>, k: nat, i: nat)
    requires IsBest(a, pool, k) && IsBest(b, pool, k) && i < |a|
    ensures !Less(a[i], b[i])
  {
    if Less(a[i], b[i]) {
      var better, before := a[..i + 1], b[..i];
      forall g | g in Elements(better) ensures g in Elements(before) {
        var j :| 0 <= j <= i && a[j] == g;
        LessOrdersByRank(a[j], a[i]);
        assert !Less(a[i], a[j]) || j == i;
        assert Less(g, b[i]) && g in pool;
        assert g in b;
      }
      DistinctSize(better);
      DistinctSize(before);
      SubsetSize(Elements(better), Elements(before));
      assert false;
    }
  }

  /** Two correct choices from the same games have the same length and tie position by position. */
  lemma ChoiceUniqueUpToTies(games: set<FarmInfo>, a: seq<FarmInfo>, b: seq<FarmInfo>)
    requires IsChoice(games, a) && IsChoice(games, b)
    ensures |a| == |b|
    ensures forall i :: 0 <= i < |a| ==> a[i].cardsRemaining == b[i].cardsRemaining && a[i].playtime == b[i].playtime
  {
    var tier := if Pool(games, 0) != {} then 0 else if Pool(games, 1) != {} then 1 else if Pool(games, 2) != {} then 2 else 3;
    var k := if tier == 3 then MAX_GAMES else 1;
    forall i | 0 <= i < |a|
      ensures a[i].cardsRemaining == b[i].cardsRemaining && a[i].playtime == b[i].playtime
    {
      BestNoWorse(a, b, Pool(games, tier), k, i);
      BestNoWorse(b, a, Pool(games, tier), k, i);
      LessOrdersByRank(a[i], b[i]);
    }
  }

  /** Nothing is chosen only when no game has cards left. */
  lemma ChoiceEmptyIff(games: set<FarmInfo>, chosen: seq<FarmInfo>)
    requires IsChoice(games, chosen)
    ensures chosen == [] <==> forall g <- games :: g.cardsRemaining == 0
    ensures |chosen| <= MAX_GAMES
  {
    forall g <- games | g.cardsRemaining > 0 ensures chosen != [] {
      assert g in Pool(games, Tier(g));
      forall t: nat | Pool(games, t) != {} ensures |Pool(games, t)| > 0 {}
    }
    if chosen != [] {
      assert chosen[0] in chosen;
    }
  }

  // ---- the code ----

  ghost predicate DistinctApps(games: seq<FarmInfo>) {
    forall i, j :: 0 <= i < j < |games| ==> games[i].appId != games[j].appId
  }

  ghost function Matching(games: seq<FarmInfo>, condition: FarmInfo -> bool): set<FarmInfo> {
    set g <- games | g.cardsRemaining > 0 && condition(g)
  }

  /** `games` is the map in iteration order. */
  method SelectSingleGame(games: seq<FarmInfo>, condition: FarmInfo -> bool) returns (candidate: Option<FarmInfo>)
    ensures candidate.None? <==> Matching(games, condition) == {}
    ensures candidate.Some? ==> IsBest([candidate.value], Matching(games, condition), 1)
    ensures candidate.Some? ==> TakesFewestCards([candidate.value], Matching(games, condition))
  {
    candidate := None;
    for i := 0 to |games|
      invariant candidate.None? ==> forall g <- games[..i] :: !(g.cardsRemaining > 0 && condition(g))
      invariant candidate.Some? ==> candidate.value in Matching(games, condition)
      invariant candidate.Some? ==> forall g <- games[..i] :: g.cardsRemaining > 0 && condition(g) ==> !Less(g, candidate.value)
    {
      var game := games[i];
      assert games[..i + 1] == games[..i] + [game];
      if game.cardsRemaining > 0 && condition(game) {
        if candidate.None? || Less(game, candidate.value) {
          candidate := Some(game);
        }
      }
    }
    assert games[..|games|] == games;
    if candidate.Some? {
      SubsetSize({candidate.value}, Matching(games, condition));
    }
  }

  /** The first `k` of a sorted arrangement are the best `k`. */
  lemma PrefixIsBest(sorted: seq<FarmInfo>, k: nat)
    requires Distinct(sorted) && SortedBy(Less, sorted)
    ensures IsBest(sorted[..if k < |sorted| then k else |sorted|], Elements(sorted), k)
  {
    var n := if k < |sorted| then k else |sorted|;
    DistinctSize(sorted);
    assert forall i :: 0 <= i < n ==> sorted[i] in sorted[..n];
    forall g, c | g in sorted && g !in sorted[..n] && c in sorted[..n] ensures !Less(g, c) {
      var i :| 0 <= i < |sorted| && sorted[i] == g;
      var j :| 0 <= j < n && sorted[j] == c;
    }
  }

  function Ids(games: seq<FarmInfo>): (ids: seq<AppID>)
    ensures |ids| == |games| && forall i :: 0 <= i < |games| ==> ids[i] == games[i].appId
  {
    seq(|games|, i requires 0 <= i < |games| => games[i].appId)
  }

  predicate HasReceived(g: FarmInfo) {
    g.cardsReceived > 0
  }

  predicate LongPlayed(g: FarmInfo) {
    g.playtime >= MULTIPLE_GAMES_TIME_MAX
  }

  predicate ShortPlayed(g: FarmInfo) {
    g.playtime < MULTIPLE_GAMES_TIME_MIN
  }

  predicate InRange(g: FarmInfo) {
    MULTIPLE_GAMES_TIME_MIN <= g.playtime < MULTIPLE_GAMES_TIME_MAX
  }

  /** The conditions are tried in turn, so each one finds exactly its tier. */
  lemma ConditionsAreTiers(games: seq<FarmInfo>)
    ensures var all := Elements(games);
            && Matching(games, HasReceived) == Pool(all, 0)
            && (Pool(all, 0) == {} ==> Matching(games, LongPlayed) == Pool(all, 1))
            && (Pool(all, 0) == {} ==> Matching(games, ShortPlayed) == Pool(all, 2))
            && (Pool(all, 0) == {} ==> Matching(games, InRange) == Pool(all, 3))
  {
    var all := Elements(games);
    if Pool(all, 0) == {} {
      forall g <- games | g.cardsRemaining > 0 ensures g.cardsReceived == 0 {
        assert g !in Pool(all, 0);
      }
    }
  }

  method SelectMultipleGames(games: seq<FarmInfo>) returns (result: seq<AppID>, ghost chosen: seq<FarmInfo>)
    requires Distinct(games)
    ensures result == Ids(chosen) && IsBest(chosen, Matching(games, InRange), MAX_GAMES)
    ensures |result| <= MAX_GAMES && (result == [] <==> Matching(games, InRange) == {})
    ensures TakesFewestCards(chosen, Matching(games, InRange))
  {
    var candidates := [];
    for i := 0 to |games|
      invariant Distinct(candidates)
      invariant forall g :: g in candidates <==> g in games[..i] && g.cardsRemaining > 0 && InRange(g)
    {
      assert games[..i + 1] == games[..i] + [games[i]];
      if games[i].cardsRemaining > 0 && InRange(games[i]) {
        candidates := candidates + [games[i]];
      }
    }
    assert games[..|games|] == games;
    var sorted := Sort(Less, candidates);
    SortedCandidates(games, candidates);
    result, chosen := FirstGames(sorted);
  }

  /** The loop that takes games off the sorted list. */
  method FirstGames(sorted: seq<FarmInfo>) returns (result: seq<AppID>, ghost chosen: seq<FarmInfo>)
    ensures chosen == sorted[..if MAX_GAMES < |sorted| then MAX_GAMES else |sorted|] && result == Ids(chosen)
  {
    result := [];
    var i := 0;
    while i < |sorted|
      invariant i <= |sorted| && |result| == i < MAX_GAMES
      invariant forall j :: 0 <= j < i ==> result[j] == sorted[j].appId
    {
      result := result + [sorted[i].appId];
      i := i + 1;
      if |result| >= MAX_GAMES { break; }
    }
    chosen := sorted[..i];
  }

  lemma SortedCandidates(games: seq<FarmInfo>, candidates: seq<FarmInfo>)
    requires Distinct(candidates)
    requires forall g :: g in candidates <==> g in games && g.cardsRemaining > 0 && InRange(g)
    ensures var sorted := Sort(Less, candidates);
            var chosen := sorted[..if MAX_GAMES < |sorted| then MAX_GAMES else |sorted|];
            && IsBest(chosen, Matching(games, InRange), MAX_GAMES) && TakesFewestCards(chosen, Matching(games, InRange))
            && (chosen == [] <==> Matching(games, InRange) == {})
  {
    var sorted := Sort(Less, candidates);
    LessOrdersByRank(FarmInfo(0, 0, 0, 0), FarmInfo(0, 0, 0, 0));
    SortSorts(Less, candidates);
    SameElements(sorted, candidates);
    PrefixIsBest(sorted, MAX_GAMES);
    assert Elements(sorted) == Matching(games, InRange);
    BestTakesFewestCards(sorted[..if MAX_GAMES < |sorted| then MAX_GAMES else |sorted|], Matching(games, InRange), MAX_GAMES);
  }

  lemma DistinctAppsOf(games: seq<FarmInfo>, chosen: seq<FarmInfo>)
    requires DistinctApps(games) && Distinct(chosen) && forall c <- chosen :: c in games
    ensures Distinct(Ids(chosen))
  {
    forall i, j | 0 <= i < j < |chosen| ensures chosen[i].appId != chosen[j].appId {
      assert chosen[i] in games && chosen[j] in games && chosen[i] != chosen[j];
    }
  }

  /** The selection, for games with different ids. */
  method SelectFarmGames(games: seq<FarmInfo>) returns (myGames: seq<AppID>, ghost chosen: seq<FarmInfo>)
    requires DistinctApps(games)
    ensures myGames == Ids(chosen) && IsChoice(Elements(games), chosen) && FollowsStrategy(games, chosen)
    ensures Distinct(myGames) && |myGames| <= MAX_GAMES
    ensures myGames == [] <==> forall g <- games :: g.cardsRemaining == 0
  {
    myGames, chosen := SelectByKind(games);
    ChoiceEmptyIff(Elements(games), chosen);
    ChoiceFollowsStrategy(games, chosen);
    DistinctAppsOf(games, chosen);
  }

  method SelectByKind(games: seq<FarmInfo>) returns (myGames: seq<AppID>, ghost chosen: seq<FarmInfo>)
    requires Distinct(games)
    ensures myGames == Ids(chosen) && IsChoice(Elements(games), chosen)
  {
    ConditionsAreTiers(games);
    chosen := [];
    var game := SelectSingleGame(games, HasReceived);
    if game.Some? {
      myGames, chosen := [game.value.appId], [game.value];
    } else {
      game := SelectSingleGame(games, LongPlayed);
      if game.Some? {
        myGames, chosen := [game.value.appId], [game.value];
      } else {
        game := SelectSingleGame(games, ShortPlayed);
        if game.Some? {
          myGames, chosen := [game.value.appId], [game.value];
        } else {
          myGames, chosen := SelectMultipleGames(games);
        }
      }
    }
  }

  // ---- telling PlayGames ----

  function Missing(playing: seq<AppID>, myGames: seq<AppID>): seq<AppID> {
    if playing == [] then []
    else
      Missing(playing[..|playing| - 1], myGames)
      + if playing[|playing| - 1] in myGames then [] else [playing[|playing| - 1]]
  }

  function SortIds(ids: seq<AppID>): seq<AppID> {
    Sort((a: AppID, b: AppID) => a < b, ids)
  }

  /** The messages one call of `playGames` sends, and the new value of `playing`. */
  function PlayDiff(playing: seq<AppID>, myGames: seq<AppID>): (seq<Player.Message>, seq<AppID>) {
    var sorted, stop := SortIds(myGames), Player.Message(Missing(playing, myGames), false);
    if sorted != playing then ([stop, Player.Message(sorted, true)], sorted) else ([stop], playing)
  }

  /** A stop message is always sent, and names just the games that are not wanted any more; a start message
      follows, and names the wanted games in ascending order, unless this list is what is played already. */
  lemma MessagesSent(playing: seq<AppID>, myGames: seq<AppID>)
    ensures var (messages, playing') := PlayDiff(playing, myGames);
            && 1 <= |messages| <= 2 && !messages[0].start && (|messages| == 2 ==> messages[1].start && messages[1].appIds == playing')
            && (|messages| == 1 <==> playing' == playing)
            && multiset(playing') == multiset(myGames)
            && (forall i, j :: 0 <= i < j < |playing'| ==> playing'[i] <= playing'[j])
  {
    SortSorts((a: AppID, b: AppID) => a < b, myGames);
  }

  class CardFarmerModule {
    var playing: seq<AppID>
    ghost var sent: seq<Player.Message>

    constructor ()
      ensures playing == [] && sent == []
    {
      playing, sent := [], [];
    }

    method PlayGames(myGames: seq<AppID>)
      modifies this
      ensures (sent, playing) == (old(sent) + PlayDiff(old(playing), myGames).0, PlayDiff(old(playing), myGames).1)
    {
      var stop := [];
      for i := 0 to |playing|
        invariant stop == Missing(playing[..i], myGames)
      {
        assert playing[..i + 1][..i] == playing[..i];
        if playing[i] !in myGames {
          stop := stop + [playing[i]];
        }
      }
      assert playing[..|playing|] == playing;
      sent := sent + [Player.Message(stop, false)];
      var sorted := SortIds(myGames);
      if sorted != playing {
        playing := sorted;
        sent := sent + [Player.Message(playing, true)];
        assert sent == old(sent) + [Player.Message(stop, false), Player.Message(playing, true)];
      }
    }

    /** `enabled` is the user's setting; `games` are the farmable games in map order. */
    method FarmGames(enabled: bool, games: seq<FarmInfo>) returns (ghost myGames: seq<AppID>, ghost chosen: seq<FarmInfo>)
      requires DistinctApps(games)
      modifies this
      ensures if enabled then myGames == Ids(chosen) && IsChoice(Elements(games), chosen) && FollowsStrategy(games, chosen)
              else myGames == []
      ensures Distinct(myGames) && |myGames| <= MAX_GAMES
      ensures (sent, playing) == (old(sent) + PlayDiff(old(playing), myGames).0, PlayDiff(old(playing), myGames).1)
    {
      var selected := [];
      chosen := [];
      if enabled {
        selected, chosen := SelectFarmGames(games);
      }
      PlayGames(selected);
      myGames := selected;
    }
  }
}
