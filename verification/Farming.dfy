/** CardFarmer and PlayGames together: the farmer's idea of what is being played, the player's
    list, and the messages between them that have not been handled yet. */
module Farming {
  import opened Sequences
  import opened Sorting
  import Player = PlayGames
  import Farmer = CardFarmer

  type AppID = Player.AppID

  /** `sent` is the last list that the server was sent. */
  datatype System = System(playing: seq<AppID>, queue: seq<Player.Message>, games: seq<Player.GameInfo>, sent: seq<AppID>)

  const INITIAL := System([], [], [], [])

  /** The farmer decides what to play; the player handles its next message; the player's timers run. */
  datatype Event = Decide(myGames: seq<AppID>) | Deliver(now: int) | Timer(now: int)

  /** What CardFarmer.SelectFarmGames guarantees of its result. */
  ghost predicate Selectable(myGames: seq<AppID>) {
    Distinct(myGames) && |myGames| <= Farmer.MAX_GAMES
  }

  ghost function Step(s: System, e: Event): System {
    match e
    case Decide(myGames) =>
      if !Selectable(myGames) then s
      else
        var (messages, playing) := Farmer.PlayDiff(s.playing, myGames);
        s.(playing := playing, queue := s.queue + messages)
    case Deliver(now) =>
      if s.queue == [] then s
      else s.(queue := s.queue[1..], games := Player.Handled(s.games, s.queue[0], now),
              sent := Player.SentBy(s.sent, s.games, s.queue[0], now))
    case Timer(now) =>
      s.(games := Player.Updated(s.games, now), sent := Player.SentByTimer(s.sent, s.games, now))
  }

  ghost function Run(events: seq<Event>): System {
    if events == [] then INITIAL else Step(Run(events[..|events| - 1]), events[|events| - 1])
  }

  ghost function Apply(ids: set<AppID>, m: Player.Message): set<AppID> {
    if m.start then ids + Elements(m.appIds) else ids - Elements(m.appIds)
  }

  /** The games listed once all of `queue` will have been handled. */
  ghost function Eventually(ids: set<AppID>, queue: seq<Player.Message>): set<AppID>
    decreases queue
  {
    if queue == [] then ids else Eventually(Apply(ids, queue[0]), queue[1..])
  }

  ghost predicate Agree(s: System) {
    && Player.DistinctIds(s.games)
    && Selectable(s.playing)
    && Eventually(Player.IdSet(s.games), s.queue) == Elements(s.playing)
    && Player.Mirrors(s.sent, Player.ActiveSet(s.games))
  }

  lemma {:induction false} EventuallyAppend(ids: set<AppID>, q: seq<Player.Message>, r: seq<Player.Message>)
    ensures Eventually(ids, q + r) == Eventually(Eventually(ids, q), r)
    decreases q
  {
    if q == [] {
      assert q + r == r;
    } else {
      assert (q + r)[1..] == q[1..] + r;
      EventuallyAppend(Apply(ids, q[0]), q[1..], r);
    }
  }

  lemma {:induction false} MissingIsDifference(playing: seq<AppID>, myGames: seq<AppID>)
    ensures forall a :: a in Farmer.Missing(playing, myGames) <==> a in playing && a !in myGames
  {
    if playing != [] {
      MissingIsDifference(playing[..|playing| - 1], myGames);
      assert playing == playing[..|playing| - 1] + [playing[|playing| - 1]];
    }
  }

  /** The stop and start messages take a player that plays `playing` to `myGames`, in a sorted order. */
  lemma DiffReachesTarget(playing: seq<AppID>, myGames: seq<AppID>)
    requires Selectable(myGames)
    ensures var (messages, playing') := Farmer.PlayDiff(playing, myGames);
            && Selectable(playing')
            && Elements(playing') == Elements(myGames)
            && Eventually(Elements(playing), messages) == Elements(myGames)
  {
    var (messages, playing') := Farmer.PlayDiff(playing, myGames);
    var sorted := Farmer.SortIds(myGames);
    SortSorts((a: AppID, b: AppID) => a < b, myGames);
    SameElements(sorted, myGames);
    assert |sorted| == |multiset(sorted)| == |multiset(myGames)| == |myGames|;
    MissingIsDifference(playing, myGames);
    var rest := Apply(Elements(playing), messages[0]);
    assert messages[0] == Player.Message(Farmer.Missing(playing, myGames), false);
    forall a ensures a in rest <==> a in playing && a in myGames {
      assert a in Farmer.Missing(playing, myGames) <==> a in playing && a !in myGames;
    }
    assert messages[1..] == if sorted != playing then [Player.Message(sorted, true)] else [];
    assert Eventually(Elements(playing), messages) == Eventually(rest, messages[1..]);
    if sorted != playing {
      assert Eventually(rest, messages[1..]) == Apply(rest, messages[1]);
      assert Apply(rest, messages[1]) == Elements(myGames);
    } else {
      assert rest == Elements(myGames);
    }
  }

  lemma HandledApplies(games: seq<Player.GameInfo>, m: Player.Message, now: int)
    requires Player.DistinctIds(games)
    ensures Player.DistinctIds(Player.Handled(games, m, now))
    ensures Player.IdSet(Player.Handled(games, m, now)) == Apply(Player.IdSet(games), m)
  {
    if m.start {
      Player.StartedAdds(games, m.appIds, now);
    } else {
      Player.StoppedRemoves(games, m.appIds);
    }
  }

  lemma StepKeepsAgreement(s: System, e: Event)
    requires Agree(s)
    ensures Agree(Step(s, e))
  {
    match e
    case Decide(myGames) =>
      if Selectable(myGames) {
        DiffReachesTarget(s.playing, myGames);
        EventuallyAppend(Player.IdSet(s.games), s.queue, Farmer.PlayDiff(s.playing, myGames).0);
      }
    case Deliver(now) =>
      if s.queue != [] {
        HandledApplies(s.games, s.queue[0], now);
        Player.SentMirrors(s.sent, s.games, s.queue[0], now);
      }
    case Timer(now) =>
      Player.UpdatedKeepsIds(s.games, now);
      Player.TimerMirrors(s.sent, s.games, now);
  }

  /** In every reachable state the undelivered messages take the player's list to exactly what the
      farmer believes is being played; once they are handled the two agree, on at most two games. */
  lemma {:induction false} AgreementInEveryRun(events: seq<Event>)
    ensures var s := Run(events);
            && Agree(s)
            && (s.queue == [] ==> Player.IdSet(s.games) == Elements(s.playing) && |s.games| <= Farmer.MAX_GAMES)
  {
    if events != [] {
      AgreementInEveryRun(events[..|events| - 1]);
      StepKeepsAgreement(Run(events[..|events| - 1]), events[|events| - 1]);
    }
    var s := Run(events);
    if s.queue == [] {
      var ids := Player.AppIds(s.games);
      Player.AppIdsIsIdSet(s.games);
      DistinctSize(ids);
      DistinctSize(s.playing);
      assert Elements(ids) == Elements(s.playing);
    }
  }

  /** The server has always last been sent just the games that are not paused, each once; and once the
      messages are handled, these are among the farmer's games. */
  lemma ServerFollows(events: seq<Event>)
    ensures var s := Run(events);
            && (forall a :: a in s.sent <==> exists g <- s.games :: g.appId == a && !g.paused)
            && Distinct(s.sent)
            && (s.queue == [] ==> forall a <- s.sent :: a in s.playing)
  {
    AgreementInEveryRun(events);
    var s := Run(events);
    Player.MirrorsOnce(s.sent, Player.ActiveSet(s.games));
    forall a ensures a in s.sent <==> exists g <- s.games :: g.appId == a && !g.paused {
      assert a in s.sent <==> a in Player.ActiveSet(s.games);
    }
    if s.queue == [] {
      forall a <- s.sent ensures a in s.playing {
        assert a in Player.ActiveSet(s.games);
        assert a in Player.IdSet(s.games);
      }
    }
  }

  /** The player handles all messages that are on their way. */
  ghost function Drained(s: System, now: int): System
    decreases |s.queue|
  {
    if s.queue == [] then s else Drained(Step(s, Deliver(now)), now)
  }

  lemma {:induction false} DrainedKeeps(s: System, now: int)
    requires Agree(s)
    ensures var s' := Drained(s, now); Agree(s') && s'.queue == [] && s'.playing == s.playing
    decreases |s.queue|
  {
    if s.queue != [] {
      StepKeepsAgreement(s, Deliver(now));
      DrainedKeeps(Step(s, Deliver(now)), now);
    }
  }

  /** What the farmer decides is what is played, in whatever state the decision finds the two modules. */
  lemma DecidedIsPlayed(events: seq<Event>, myGames: seq<AppID>, now: int)
    requires Selectable(myGames)
    ensures var s := Drained(Step(Run(events), Decide(myGames)), now);
            Player.IdSet(s.games) == Elements(myGames) && s.queue == [] && multiset(s.playing) == multiset(myGames)
  {
    AgreementInEveryRun(events);
    var decided := Step(Run(events), Decide(myGames));
    StepKeepsAgreement(Run(events), Decide(myGames));
    DiffReachesTarget(Run(events).playing, myGames);
    Farmer.MessagesSent(Run(events).playing, myGames);
    DrainedKeeps(decided, now);
  }
}
