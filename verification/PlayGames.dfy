/** The module that plays games: a list edited in place, with timers that pause and resume each
    game, and the server told what is being played.  Times are in seconds. */
module PlayGames {
  import opened Wrappers
  import opened Sequences
  import opened Vectors

  type AppID = int

  const UPDATE_INTERVAL := 600
  const UPDATE_DURATION := 5

  datatype GameInfo = GameInfo(appId: AppID, nextUpdate: int, paused: bool)

  datatype Message = Message(appIds: seq<AppID>, start: bool)

  /** What leaves the module: game lists for the server, lists for the whiteboard, playtime requests. */
  datatype Output = SendGames(appIds: seq<AppID>) | ReportGames(appIds: seq<AppID>) | RequestUpdates(appIds: seq<AppID>)

  function AppIds(games: seq<GameInfo>): (ids: seq<AppID>)
    ensures |ids| == |games| && forall i :: 0 <= i < |games| ==> ids[i] == games[i].appId
  {
    seq(|games|, i requires 0 <= i < |games| => games[i].appId)
  }

  ghost function IdSet(games: seq<GameInfo>): set<AppID> {
    set g <- games :: g.appId
  }

  ghost function ActiveSet(games: seq<GameInfo>): set<AppID> {
    set g <- games | !g.paused :: g.appId
  }

  lemma AppIdsIsIdSet(games: seq<GameInfo>)
    ensures forall a :: a in AppIds(games) <==> a in IdSet(games)
  {
    forall a | a in IdSet(games) ensures a in AppIds(games) {
      var i :| 0 <= i < |games| && games[i].appId == a;
      assert AppIds(games)[i] == a;
    }
  }

  ghost predicate DistinctIds(games: seq<GameInfo>) {
    forall i, j :: 0 <= i < j < |games| ==> games[i].appId != games[j].appId
  }

  function Playing(games: seq<GameInfo>, appId: AppID): bool {
    exists i :: 0 <= i < |games| && games[i].appId == appId
  }

  /** The list sent to the server: the games that are not paused, in list order. */
  function Active(games: seq<GameInfo>): seq<AppID> {
    if games == [] then []
    else Active(games[..|games| - 1]) + if games[|games| - 1].paused then [] else [games[|games| - 1].appId]
  }

  lemma {:induction false} ActiveIsActiveSet(games: seq<GameInfo>)
    ensures forall a :: a in Active(games) <==> a in ActiveSet(games)
    ensures DistinctIds(games) ==> forall a :: multiset(Active(games))[a] <= 1
  {
    if games != [] {
      var rest, last := games[..|games| - 1], games[|games| - 1];
      ActiveIsActiveSet(rest);
      assert games == rest + [last];
      assert ActiveSet(games) == ActiveSet(rest) + if last.paused then {} else {last.appId};
      assert DistinctIds(games) ==> last.appId !in ActiveSet(rest);
    }
  }

  // ---- starting ----

  function Started(games: seq<GameInfo>, appIds: seq<AppID>, now: int): seq<GameInfo> {
    if appIds == [] then games
    else
      var before, appId := Started(games, appIds[..|appIds| - 1], now), appIds[|appIds| - 1];
      if Playing(before, appId) then before else before + [GameInfo(appId, now + UPDATE_INTERVAL, false)]
  }

  /** Starting adds exactly the games not yet on the list, unpaused, behind the others. */
  lemma {:induction false} StartedAdds(games: seq<GameInfo>, appIds: seq<AppID>, now: int)
    requires DistinctIds(games)
    ensures var games' := Started(games, appIds, now);
            && DistinctIds(games') && games <= games'
            && IdSet(games') == IdSet(games) + (set a <- appIds)
            && forall g <- games'[|games|..] :: g.nextUpdate == now + UPDATE_INTERVAL && !g.paused
  {
    StartedBehind(games, appIds, now);
    if appIds != [] {
      var front, appId := appIds[..|appIds| - 1], appIds[|appIds| - 1];
      StartedAdds(games, front, now);
      var before := Started(games, front, now);
      assert appIds == front + [appId];
      assert (set a <- appIds) == (set a <- front) + {appId};
      if Playing(before, appId) {
        assert appId in IdSet(before);
      } else {
        AddedOne(before, GameInfo(appId, now + UPDATE_INTERVAL, false));
      }
    }
  }

  lemma {:induction false} StartedBehind(games: seq<GameInfo>, appIds: seq<AppID>, now: int)
    ensures var games' := Started(games, appIds, now);
            && games <= games'
            && forall i :: |games| <= i < |games'| ==> games'[i].nextUpdate == now + UPDATE_INTERVAL && !games'[i].paused
  {
    if appIds != [] {
      StartedBehind(games, appIds[..|appIds| - 1], now);
    }
  }

  lemma AddedOne(games: seq<GameInfo>, game: GameInfo)
    requires DistinctIds(games) && !Playing(games, game.appId)
    ensures DistinctIds(games + [game]) && IdSet(games + [game]) == IdSet(games) + {game.appId}
  {
  }

  // ---- stopping ----

  /** The predicate `stopGames` passes to `erase`; the state collects the games to update. */
  function StopVisit(appIds: seq<AppID>): Predicate<seq<AppID>, GameInfo> {
    (updates: seq<AppID>, game: GameInfo) =>
      if game.appId !in appIds then (false, updates)
      else (true, if game.paused then updates else updates + [game.appId])
  }

  function Stopped(games: seq<GameInfo>, appIds: seq<AppID>): Outcome<seq<AppID>, GameInfo> {
    Erase(games, StopVisit(appIds), [])
  }

  lemma {:induction false} StopFold(visited: seq<GameInfo>, appIds: seq<AppID>, updates: seq<AppID>)
    ensures var r := Fold(StopVisit(appIds), updates, visited);
            && updates <= r
            && forall a :: a in r <==> a in updates || (a in appIds && a in ActiveSet(visited))
  {
    if visited != [] {
      assert visited == [visited[0]] + visited[1..];
      StopFold(visited[1..], appIds, StopVisit(appIds)(updates, visited[0]).1);
      assert ActiveSet(visited) == ActiveSet([visited[0]]) + ActiveSet(visited[1..]);
    }
  }

  ghost predicate IdsTellApart(games: seq<GameInfo>) {
    forall g, h :: g in games && h in games && g != h ==> g.appId != h.appId
  }

  lemma DistinctIdsByGame(games: seq<GameInfo>)
    ensures DistinctIds(games) <==> Distinct(games) && IdsTellApart(games)
  {
    if Distinct(games) && IdsTellApart(games) {
      forall i, j | 0 <= i < j < |games| ensures games[i].appId != games[j].appId {
        assert games[i] != games[j] && games[i] in games && games[j] in games;
      }
    }
  }

  /** Stopping removes exactly the named games, keeps every other game as it was, and asks for an
      update of exactly the removed games that were not paused. */
  lemma StoppedRemoves(games: seq<GameInfo>, appIds: seq<AppID>)
    requires DistinctIds(games)
    ensures var r := Stopped(games, appIds);
            && DistinctIds(r.vector)
            && (forall g :: g in r.vector <==> g in games && g.appId !in appIds)
            && (forall a :: a in r.state <==> a in appIds && a in ActiveSet(games))
  {
    var pred, r := StopVisit(appIds), Stopped(games, appIds);
    EraseVisitsOnce(games, pred, []);
    SameElements(r.visited, games);
    StopFold(r.visited, appIds, []);
    assert ActiveSet(r.visited) == ActiveSet(games);
    EraseByVerdict(games, pred, [], (g: GameInfo) => g.appId in appIds);
    DistinctIdsByGame(games);
    KeptSome(games, r.vector, appIds);
    DistinctIdsByGame(r.vector);
  }

  lemma StoppedOnlyPaused(games: seq<GameInfo>, appIds: seq<AppID>)
    requires DistinctIds(games) && Stopped(games, appIds).state == []
    ensures ActiveSet(Stopped(games, appIds).vector) == ActiveSet(games)
  {
    StoppedRemoves(games, appIds);
    assert forall a :: a in ActiveSet(games) ==> a !in appIds;
  }

  lemma KeptSome(games: seq<GameInfo>, kept: seq<GameInfo>, appIds: seq<AppID>)
    requires Distinct(games)
    requires forall g :: multiset(kept)[g] == if g.appId in appIds then 0 else multiset(games)[g]
    ensures Distinct(kept) && forall g :: g in kept <==> g in games && g.appId !in appIds
  {
    DistinctMultiset(games);
    DistinctMultiset(kept);
    assert forall g :: (g in kept <==> g in multiset(kept)) && (g in games <==> g in multiset(games));
  }

  // ---- timers ----

  function Toggled(game: GameInfo, now: int): GameInfo {
    if now < game.nextUpdate then game
    else if game.paused then GameInfo(game.appId, now + UPDATE_INTERVAL, false)
    else GameInfo(game.appId, now + UPDATE_DURATION, true)
  }

  function Updated(games: seq<GameInfo>, now: int): (games': seq<GameInfo>)
    ensures |games'| == |games| && forall i :: 0 <= i < |games| ==> games'[i] == Toggled(games[i], now)
  {
    if games == [] then [] else Updated(games[..|games| - 1], now) + [Toggled(games[|games| - 1], now)]
  }

  /** The games whose timer has run out while they were being played. */
  function Paused(games: seq<GameInfo>, now: int): seq<AppID> {
    if games == [] then []
    else
      var last := games[|games| - 1];
      Paused(games[..|games| - 1], now) + if last.nextUpdate <= now && !last.paused then [last.appId] else []
  }

  /** A game whose timer has run out is resumed for 600 seconds if it was paused, and paused for 5 seconds
      otherwise; any other stays as it was. */
  lemma TimersToggle(games: seq<GameInfo>, now: int, i: nat)
    requires i < |games|
    ensures var game, game' := games[i], Updated(games, now)[i];
            && game'.appId == game.appId
            && (now < game.nextUpdate ==> game' == game)
            && (game.nextUpdate <= now ==> game'.paused != game.paused)
            && (game.nextUpdate <= now && game.paused ==> game'.nextUpdate == now + 600)
            && (game.nextUpdate <= now && !game.paused ==> game'.nextUpdate == now + 5)
  {
  }

  /** The playtimes of just the games that are paused by the step are asked for. */
  lemma {:induction false} PausedThese(games: seq<GameInfo>, now: int, a: AppID)
    ensures a in Paused(games, now) <==> exists g <- games :: g.appId == a && g.nextUpdate <= now && !g.paused
  {
    if games != [] {
      var front, last := games[..|games| - 1], games[|games| - 1];
      PausedThese(front, now, a);
      assert games == front + [last];
    }
  }

  /** A timer step changes no identity, and leaves no timer due. */
  lemma UpdatedKeepsIds(games: seq<GameInfo>, now: int)
    ensures AppIds(Updated(games, now)) == AppIds(games) && IdSet(Updated(games, now)) == IdSet(games)
    ensures DistinctIds(games) ==> DistinctIds(Updated(games, now))
    ensures forall g <- Updated(games, now) :: now < g.nextUpdate
  {
    var games' := Updated(games, now);
    forall a | a in IdSet(games) ensures a in IdSet(games') {
      var i :| 0 <= i < |games| && games[i].appId == a;
      assert games'[i].appId == a;
    }
  }

  ghost predicate Mirrors(list: seq<AppID>, ids: set<AppID>) {
    (forall a :: a in list <==> a in ids) && forall a :: multiset(list)[a] <= 1
  }

  lemma MirrorsOnce(list: seq<AppID>, ids: set<AppID>)
    requires Mirrors(list, ids)
    ensures Distinct(list)
  {
    forall i, j | 0 <= i < j < |list| ensures list[i] != list[j] {
      if list[i] == list[j] {
        RepeatCounts(list, i, j);
      }
    }
  }

  /** The latest list sent to the server. */
  ghost function LastSent(log: seq<Output>): seq<AppID> {
    if log == [] then []
    else if log[|log| - 1].SendGames? then log[|log| - 1].appIds else LastSent(log[..|log| - 1])
  }

  lemma LastSentStep(log: seq<Output>, o: Output)
    ensures LastSent(log + [o]) == if o.SendGames? then o.appIds else LastSent(log)
  {
    assert (log + [o])[..|log + [o]| - 1] == log;
  }

  /** The clock value that `getNextUpdate` returns when there is no game. */
  const TIME_MAX: int := 0x7fff_ffff_ffff_ffff

  /** The log after a timer step: the list is sent if a timer had run out, and updates requested for the games paused. */
  ghost function Reported(log: seq<Output>, games: seq<GameInfo>, now: int): seq<Output> {
    var games', updates := Updated(games, now), Paused(games, now);
    var sent := if games' == games then log else log + [Output.SendGames(Active(games'))];
    if updates == [] then sent else sent + [Output.RequestUpdates(updates)]
  }

  /** The last list sent after a message has been handled, and after a timer step. */
  ghost function SentBy(last: seq<AppID>, games: seq<GameInfo>, message: Message, now: int): seq<AppID> {
    var games' := Handled(games, message, now);
    var silent := if message.start then |games'| == |games| else Stopped(games, message.appIds).state == [];
    if silent then last else Active(games')
  }

  ghost function SentByTimer(last: seq<AppID>, games: seq<GameInfo>, now: int): seq<AppID> {
    if Updated(games, now) == games then last else Active(Updated(games, now))
  }

  /** Whether or not a message makes the module send a list, the last one stays right. */
  lemma SentMirrors(last: seq<AppID>, games: seq<GameInfo>, message: Message, now: int)
    requires DistinctIds(games) && Mirrors(last, ActiveSet(games))
    ensures Mirrors(SentBy(last, games, message, now), ActiveSet(Handled(games, message, now)))
  {
    var games' := Handled(games, message, now);
    if message.start {
      StartedAdds(games, message.appIds, now);
      assert |games'| == |games| ==> games' == games;
    } else {
      StoppedRemoves(games, message.appIds);
      if Stopped(games, message.appIds).state == [] {
        StoppedOnlyPaused(games, message.appIds);
      }
    }
    ActiveIsActiveSet(games');
  }

  lemma TimerMirrors(last: seq<AppID>, games: seq<GameInfo>, now: int)
    requires DistinctIds(games) && Mirrors(last, ActiveSet(games))
    ensures Mirrors(SentByTimer(last, games, now), ActiveSet(Updated(games, now)))
  {
    UpdatedKeepsIds(games, now);
    ActiveIsActiveSet(Updated(games, now));
  }

  class PlayGamesModule {
    var games: seq<GameInfo>
    ghost var log: seq<Output>

    /** No game is listed twice, and the server was last told exactly the games that are not paused. */
    ghost predicate Valid()
      reads this
    {
      DistinctIds(games) && Mirrors(LastSent(log), ActiveSet(games))
    }

    constructor ()
      ensures Valid() && games == [] && log == []
    {
      games, log := [], [];
    }

    method GetNextUpdate() returns (result: int)
      ensures result <= TIME_MAX && forall g <- games :: result <= g.nextUpdate
      ensures result == TIME_MAX || exists g <- games :: result == g.nextUpdate
    {
      result := TIME_MAX;
      for i := 0 to |games|
        invariant result <= TIME_MAX && forall j :: 0 <= j < i ==> result <= games[j].nextUpdate
        invariant result == TIME_MAX || exists g <- games :: result == g.nextUpdate
      {
        if games[i].nextUpdate < result {
          result := games[i].nextUpdate;
        }
      }
    }

    method SendGames()
      requires DistinctIds(games)
      modifies this`log
      ensures log == old(log) + [Output.SendGames(Active(games))]
      ensures Valid()
    {
      var message := [];
      for i := 0 to |games|
        invariant message == Active(games[..i])
      {
        assert games[..i + 1][..i] == games[..i];
        if !games[i].paused {
          message := message + [games[i].appId];
        }
      }
      assert games[..|games|] == games;
      ActiveIsActiveSet(games);
      LastSentStep(log, Output.SendGames(message));
      log := log + [Output.SendGames(message)];
    }

    method ReportGames()
      requires Valid()
      modifies this`log
      ensures Valid() && log == old(log) + [Output.ReportGames(AppIds(games))]
    {
      LastSentStep(log, Output.ReportGames(AppIds(games)));
      log := log + [Output.ReportGames(AppIds(games))];
    }

    method RequestUpdates(appIds: seq<AppID>)
      requires Valid()
      modifies this`log
      ensures Valid() && log == if appIds == [] then old(log) else old(log) + [Output.RequestUpdates(appIds)]
    {
      if appIds != [] {
        LastSentStep(log, Output.RequestUpdates(appIds));
        log := log + [Output.RequestUpdates(appIds)];
      }
    }

    method StartGames(appIds: seq<AppID>, now: int)
      requires Valid()
      modifies this
      ensures Valid() && games == Started(old(games), appIds, now)
      ensures log == if |games| == |old(games)| then old(log)
                     else old(log) + [Output.SendGames(Active(games))] + [Output.ReportGames(AppIds(games))]
    {
      var didChange := false;
      for i := 0 to |appIds|
        invariant games == Started(old(games), appIds[..i], now) && log == old(log)
        invariant |old(games)| <= |games| && (didChange <==> |old(games)| < |games|)
        invariant !didChange ==> games == old(games)
      {
        assert appIds[..i + 1][..i] == appIds[..i];
        var alreadyPlaying := false;
        for k := 0 to |games|
          invariant !alreadyPlaying && forall j :: 0 <= j < k ==> games[j].appId != appIds[i]
        {
          if appIds[i] == games[k].appId {
            alreadyPlaying := true;
            break;
          }
        }
        if !alreadyPlaying {
          games := games + [GameInfo(appIds[i], now + UPDATE_INTERVAL, false)];
          didChange := true;
        }
      }
      assert appIds[..|appIds|] == appIds;
      if didChange {
        StartedAdds(old(games), appIds, now);
        SendGames();
        ReportGames();
      }
    }

    method StopGames(appIds: seq<AppID>)
      requires Valid()
      modifies this
      ensures Valid()
      ensures var r := Stopped(old(games), appIds);
              && games == r.vector
              && log == if r.state == [] then old(log)
                        else old(log) + [Output.SendGames(Active(games))] + [Output.ReportGames(AppIds(games))] + [Output.RequestUpdates(r.state)]
    {
      var erased := Stopped(games, appIds);
      StoppedRemoves(games, appIds);
      games := erased.vector;
      var updates := erased.state;
      if updates != [] {
        SendGames();
        ReportGames();
        RequestUpdates(updates);
      } else {
        StoppedOnlyPaused(old(games), appIds);
      }
    }

    method Handle(message: Message, now: int)
      requires Valid()
      modifies this
      ensures Valid() && games == Handled(old(games), message, now)
      ensures LastSent(log) == SentBy(LastSent(old(log)), old(games), message, now)
    {
      ghost var before := log;
      if message.start {
        StartGames(message.appIds, now);
      } else {
        StopGames(message.appIds);
        LastSentStep(before + [Output.SendGames(Active(games))] + [Output.ReportGames(AppIds(games))],
                     Output.RequestUpdates(Stopped(old(games), message.appIds).state));
      }
      LastSentStep(before, Output.SendGames(Active(games)));
      LastSentStep(before + [Output.SendGames(Active(games))], Output.ReportGames(AppIds(games)));
    }

    /** The loop of `handleUpdates`. */
    method ToggleGames(now: int) returns (updates: seq<AppID>, didChange: bool)
      modifies this`games
      ensures games == Updated(old(games), now) && updates == Paused(old(games), now)
      ensures didChange <==> games != old(games)
    {
      ghost var before := games;
      updates, didChange := [], false;
      for i := 0 to |games|
        invariant |games| == |before| && games[..i] == Updated(before[..i], now) && games[i..] == before[i..]
        invariant updates == Paused(before[..i], now)
        invariant didChange <==> games != before
      {
        UpdateStep(before, i, now, games);
        if games[i].nextUpdate <= now {
          if games[i].paused {
            games := games[i := GameInfo(games[i].appId, now + UPDATE_INTERVAL, false)];
          } else {
            updates := updates + [games[i].appId];
            games := games[i := GameInfo(games[i].appId, now + UPDATE_DURATION, true)];
          }
          didChange := true;
        }
      }
      assert before[..|games|] == before && games[..|games|] == games;
    }

    /** Afterwards no timer is due: the next wake-up lies in the future. */
    method HandleUpdates(now: int)
      requires Valid()
      modifies this
      ensures Valid() && games == Updated(old(games), now)
      ensures log == Reported(old(log), old(games), now)
      ensures LastSent(log) == SentByTimer(LastSent(old(log)), old(games), now)
      ensures forall g <- games :: now < g.nextUpdate
    {
      UpdatedKeepsIds(games, now);
      LastReported(log, games, now);
      if games != [] {
        var updates, didChange := ToggleGames(now);
        if didChange {
          SendGames();
        }
        RequestUpdates(updates);
      }
    }
  }

  /** What a timer step sends: nothing, if no timer has run out; otherwise the list of the games then
      played, and after it a request for the playtimes of the games paused, if there are any. */
  lemma ReportedOutputs(log: seq<Output>, games: seq<GameInfo>, now: int)
    ensures var due := exists g <- games :: g.nextUpdate <= now;
            var pausing := exists g <- games :: g.nextUpdate <= now && !g.paused;
            var list := Output.SendGames(Active(Updated(games, now)));
            Reported(log, games, now) ==
              log + (if due then [list] else []) + (if pausing then [Output.RequestUpdates(Paused(games, now))] else [])
  {
    var games' := Updated(games, now);
    if g :| g in games && g.nextUpdate <= now {
      var i :| 0 <= i < |games| && games[i] == g;
      TimersToggle(games, now, i);
      assert games'[i] != games[i];
    } else {
      assert forall i | 0 <= i < |games| :: games[i] in games;
      assert games' == games;
    }
    if g :| g in games && g.nextUpdate <= now && !g.paused {
      PausedThese(games, now, g.appId);
      assert Paused(games, now) != [];
    } else if Paused(games, now) != [] {
      PausedThese(games, now, Paused(games, now)[0]);
    }
  }

  lemma LastReported(log: seq<Output>, games: seq<GameInfo>, now: int)
    ensures LastSent(Reported(log, games, now)) == SentByTimer(LastSent(log), games, now)
  {
    var games', updates := Updated(games, now), Paused(games, now);
    var sent := if games' == games then log else log + [Output.SendGames(Active(games'))];
    LastSentStep(log, Output.SendGames(Active(games')));
    LastSentStep(sent, Output.RequestUpdates(updates));
  }

  /** One iteration of the loop in `handleUpdates`. */
  lemma UpdateStep(before: seq<GameInfo>, i: nat, now: int, games: seq<GameInfo>)
    requires i < |before| == |games| && games[..i] == Updated(before[..i], now) && games[i..] == before[i..]
    ensures var games' := games[i := Toggled(games[i], now)];
            && games'[..i + 1] == Updated(before[..i + 1], now) && games'[i + 1..] == before[i + 1..]
            && (if before[i].nextUpdate <= now then games' != before else games' == games)
    ensures games[i] == before[i]
    ensures Paused(before[..i + 1], now) ==
            Paused(before[..i], now) + if before[i].nextUpdate <= now && !before[i].paused then [before[i].appId] else []
  {
    assert before[..i + 1][..i] == before[..i];
    var games' := games[i := Toggled(games[i], now)];
    assert games[i] == games[i..][0] == before[i..][0];
    assert games'[..i + 1] == games[..i] + [Toggled(before[i], now)];
    assert games'[i + 1..] == games[i..][1..] && before[i + 1..] == before[i..][1..];
    assert games'[i] == Toggled(before[i], now);
  }

  function Handled(games: seq<GameInfo>, message: Message, now: int): seq<GameInfo> {
    if message.start then Started(games, message.appIds, now) else Stopped(games, message.appIds).vector
  }

  /** The whiteboard's list of games is not always right: stopping only paused games reports
      nothing.  If it was right before, it is right after stopping exactly when some game was
      stopped that was not paused, or none was stopped at all. */
  lemma ReportRightIff(games: seq<GameInfo>, appIds: seq<AppID>, reported: seq<AppID>)
    requires DistinctIds(games) && forall a :: a in reported <==> a in IdSet(games)
    ensures var r := Stopped(games, appIds);
            var reported' := if r.state == [] then reported else AppIds(r.vector);
            (forall a :: a in reported' <==> a in IdSet(r.vector)) <==>
            (exists g <- games :: g.appId in appIds && !g.paused) || (forall g <- games :: g.appId !in appIds)
  {
    var r := Stopped(games, appIds);
    StoppedRemoves(games, appIds);
    if r.state == [] {
      StoppedOnlyPaused(games, appIds);
      assert forall g <- games :: g.appId in appIds && !g.paused ==> g.appId in r.state;
      if g :| g in games && g.appId in appIds {
        assert g.appId in reported && g.appId !in IdSet(r.vector);
      } else {
        assert forall g :: g in r.vector <==> g in games;
        assert IdSet(r.vector) == IdSet(games);
      }
    } else {
      assert r.state[0] in r.state;
      var g :| g in games && g.appId == r.state[0] && !g.paused;
      AppIdsIsIdSet(r.vector);
    }
  }

  /** A game that is started, paused by its timer and then stopped: the list is empty and nothing is
      reported, so that the whiteboard goes on saying that the game is being played. */
  lemma StoppedGameStaysReported(appId: AppID, now: int)
    ensures var started := Started([], [appId], now);
            var paused := Updated(started, now + UPDATE_INTERVAL);
            var stopped := Stopped(paused, [appId]);
            && AppIds(paused) == [appId] && stopped.vector == [] && stopped.state == []
  {
    StartedOne(appId, now);
    var paused := [GameInfo(appId, now + UPDATE_INTERVAL + UPDATE_DURATION, true)];
    assert Updated(Started([], [appId], now), now + UPDATE_INTERVAL) == paused;
    assert Erased(SwapPop(paused, 0), 0, StopVisit([appId]), []) == Outcome([], [], [], 0);
    ErasedStep(paused, 0, StopVisit([appId]), []);
  }

  lemma StartedOne(appId: AppID, now: int)
    ensures Started([], [appId], now) == [GameInfo(appId, now + UPDATE_INTERVAL, false)]
  {
    var ids := [appId];
    assert ids[..|ids| - 1] == [];
    assert Started([], ids[..|ids| - 1], now) == [];
    assert !Playing([], appId);
    assert Started([], ids, now) == [] + [GameInfo(appId, now + UPDATE_INTERVAL, false)];
  }
}
