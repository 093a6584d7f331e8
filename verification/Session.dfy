/** The thread that asks the user for passwords and guard codes.  Each run of `body` has a main
    fiber and a communication fiber; a new one starts when `run` finds none running, possibly
    before the fibers of the previous one have ended.  Each block under the mutex is one step. */
module Session {
  import opened Sequences
  import opened Wrappers
  import Vectors

  datatype Credentials = Credentials(account: nat, password: string, steamGuardCode: string)

  datatype PasswordType = AccountPassword | SteamGuardEMail

  function Wanted(c: Credentials): Option<PasswordType> {
    if c.password == "" then Some(AccountPassword) else if c.steamGuardCode == "" then Some(SteamGuardEMail) else None
  }

  /** `SessionState::handle`: the answer of the user fills in what was asked for. */
  function Fill(c: Credentials, text: string): Credentials {
    if Wanted(c) == Some(AccountPassword) then c.(password := text)
    else if Wanted(c) == Some(SteamGuardEMail) then c.(steamGuardCode := text)
    else c
  }

  /** The main fiber: in `wait`, in the loop of `launchSessions` (with the session it has popped),
      before `handleInputs`, before the decision, or returned. */
  datatype Main = Waiting | Launching(hand: Option<Credentials>) | Handling | Deciding | Returned

  /** One call of `body`. */
  datatype Body = Body(fiberQueue: seq<Credentials>, quit: bool, main: Main, commReturned: bool)

  /** `sessions` have a question open.  The rest is a record: `given` to `run`; `placed`, in order,
      by `launchSessions`; `answered` as they were when asked, with the `texts` of the answers; `launched` as they then were; and
      `dropped` because nothing was missing, which the program asserts does not happen. */
  datatype State = State(
    threadQueue: seq<Credentials>, running: bool, bodies: seq<Body>, sessions: seq<Credentials>,
    given: seq<Credentials>, placed: seq<Credentials>,
    answered: seq<Credentials>, texts: seq<string>, launched: seq<Credentials>, dropped: seq<Credentials>)

  const INITIAL := State([], false, [], [], [], [], [], [], [], [])

  const NEW_BODY := Body([], false, Waiting, false)

  datatype Event =
    | Run(c: Credentials)
    | Wake(b: nat)
    | Take(b: nat)   // the locked block of `launchSessions`
    | Place(b: nat)  // the rest of its iteration
    | HandleInputs(b: nat, results: seq<Option<string>>)  // results of `getResult`, call by call
    | Decide(b: nat)
    | Comm(b: nat)   // the communication fiber, when its condition holds

  // ---- the predicate that `handleInputs` passes to `erase` ----

  datatype Log = Log(answered: seq<Credentials>, texts: seq<string>, launched: seq<Credentials>, results: seq<Option<string>>)

  function Handle(log: Log, c: Credentials): (bool, Log) {
    if log.results == [] then (false, log)
    else if log.results[0].None? then (false, log.(results := log.results[1..]))
    else (true, Log(log.answered + [c], log.texts + [log.results[0].value], log.launched + [Fill(c, log.results[0].value)], log.results[1..]))
  }

  function SetBody(s: State, b: nat, body: Body): State
    requires b < |s.bodies|
  {
    s.(bodies := s.bodies[b := body])
  }

  function AfterRun(s: State, c: Credentials): State {
    s.(threadQueue := s.threadQueue + [c], given := s.given + [c], running := true,
       bodies := if s.running then s.bodies else s.bodies + [NEW_BODY])
  }

  function AfterTake(s: State, b: nat): State
    requires b < |s.bodies|
  {
    var body := s.bodies[b];
    if body.main != Launching(None) then s
    else if body.fiberQueue == [] then SetBody(s, b, body.(main := Handling))
    else SetBody(s, b, body.(fiberQueue := body.fiberQueue[1..], main := Launching(Some(body.fiberQueue[0]))))
  }

  function AfterPlace(s: State, b: nat): State
    requires b < |s.bodies|
  {
    var body := s.bodies[b];
    if !body.main.Launching? || body.main.hand.None? then s
    else
      var c := body.main.hand.value;
      var s' := SetBody(s, b, body.(main := Launching(None))).(placed := s.placed + [c]);
      if Wanted(c).Some? then s'.(sessions := s.sessions + [c]) else s'.(dropped := s.dropped + [c])
  }

  function AfterHandleInputs(s: State, b: nat, results: seq<Option<string>>): State
    requires b < |s.bodies|
  {
    if !s.bodies[b].main.Handling? then s
    else
      var r := Vectors.Erase(s.sessions, Handle, Log(s.answered, s.texts, s.launched, results));
      SetBody(s, b, s.bodies[b].(main := Deciding)).(
        sessions := r.vector, answered := r.state.answered, texts := r.state.texts, launched := r.state.launched)
  }

  function AfterDecide(s: State, b: nat): State
    requires b < |s.bodies|
  {
    var body := s.bodies[b];
    if !body.main.Deciding? then s
    else if s.threadQueue == [] && body.fiberQueue == [] && s.sessions == [] then
      SetBody(s, b, body.(quit := true, main := Returned)).(running := false)
    else SetBody(s, b, body.(main := Waiting))
  }

  function AfterComm(s: State, b: nat): State
    requires b < |s.bodies|
  {
    var body := s.bodies[b];
    if body.commReturned then s
    else if body.quit then SetBody(s, b, body.(commReturned := true))
    else SetBody(s, b, body.(fiberQueue := body.fiberQueue + s.threadQueue)).(threadQueue := [])
  }

  function Step(s: State, e: Event): State {
    if e.Run? then AfterRun(s, e.c)
    else if e.b >= |s.bodies| then s
    else if e.Wake? then
      if s.bodies[e.b].main.Waiting? then SetBody(s, e.b, s.bodies[e.b].(main := Launching(None))) else s
    else if e.Take? then AfterTake(s, e.b)
    else if e.Place? then AfterPlace(s, e.b)
    else if e.HandleInputs? then AfterHandleInputs(s, e.b, e.results)
    else if e.Decide? then AfterDecide(s, e.b)
    else AfterComm(s, e.b)
  }

  function RunAll(s: State, events: seq<Event>): State
    decreases events
  {
    if events == [] then s else RunAll(Step(s, events[0]), events[1..])
  }

  // ---- the invariant ----

  function Hand(body: Body): seq<Credentials> {
    if body.main.Launching? && body.main.hand.Some? then [body.main.hand.value] else []
  }

  /** The newest body. */
  function Newest(s: State): Body {
    if s.bodies == [] then Body([], true, Returned, true) else s.bodies[|s.bodies| - 1]
  }

  function Held(s: State): seq<Credentials> {
    Hand(Newest(s)) + Newest(s).fiberQueue
  }

  /** Only the newest body may not have quit, and a body that has quit holds nothing. */
  ghost predicate OneBody(s: State) {
    && (forall b | 0 <= b < |s.bodies| :: s.bodies[b].quit == s.bodies[b].main.Returned?)
    && (forall b | 0 <= b < |s.bodies| :: s.bodies[b].quit ==> s.bodies[b].fiberQueue == [])
    && (forall b | 0 <= b < |s.bodies| :: s.bodies[b].commReturned ==> s.bodies[b].quit)
    && (forall b | 0 <= b < |s.bodies| - 1 :: s.bodies[b].quit)
    && (s.running <==> !Newest(s).quit)
    && (!s.running ==> s.threadQueue == [] && s.sessions == [])
  }

  /** Sessions pass through the queues in order, and each is then in one place. */
  ghost predicate Conserved(s: State) {
    && s.given == s.placed + Held(s) + s.threadQueue
    && multiset(s.placed) == multiset(s.sessions) + multiset(s.answered) + multiset(s.dropped)
    && (forall c <- s.dropped :: Wanted(c).None?)
    && (forall c <- s.sessions :: Wanted(c).Some?)
  }

  /** Every answer has launched its client again: with the text as the password if there was none, and
      otherwise with the text as the guard code, which was missing. */
  ghost predicate Answers(answered: seq<Credentials>, texts: seq<string>, launched: seq<Credentials>) {
    && |launched| == |texts| == |answered|
    && (forall i | 0 <= i < |answered| && answered[i].password == "" ::
          launched[i] == Credentials(answered[i].account, texts[i], answered[i].steamGuardCode))
    && (forall i | 0 <= i < |answered| && answered[i].password != "" ::
          answered[i].steamGuardCode == "" && launched[i] == Credentials(answered[i].account, answered[i].password, texts[i]))
  }

  /** The sessions looked at for which there is a result, and these results. */
  ghost function Answered(visited: seq<Credentials>, results: seq<Option<string>>): seq<Credentials> {
    if visited == [] || results == [] then []
    else (if results[0].Some? then [visited[0]] else []) + Answered(visited[1..], results[1..])
  }

  ghost function Texts(visited: seq<Credentials>, results: seq<Option<string>>): seq<string> {
    if visited == [] || results == [] then []
    else (if results[0].Some? then [results[0].value] else []) + Texts(visited[1..], results[1..])
  }

  ghost predicate Invariant(s: State) {
    OneBody(s) && Conserved(s) && Answers(s.answered, s.texts, s.launched)
  }

  // ---- every step keeps it ----

  /** What `erase` did: each session is still open or has been answered. */
  lemma {:induction false} FoldKeepsAll(log: Log, visited: seq<Credentials>)
    ensures forall c :: multiset(Vectors.Fold(Handle, log, visited).answered)[c] + multiset(Vectors.Rejected(Handle, log, visited))[c]
                     == multiset(log.answered)[c] + multiset(visited)[c]
    decreases visited
  {
    if visited != [] {
      var c, rest := visited[0], visited[1..];
      assert visited == [c] + rest;
      Vectors.Unfold(Handle, log, c, rest);
      FoldKeepsAll(Handle(log, c).1, rest);
    }
  }

  lemma {:induction false} FoldAnswers(log: Log, visited: seq<Credentials>)
    requires Answers(log.answered, log.texts, log.launched) && forall c <- visited :: Wanted(c).Some?
    ensures var log' := Vectors.Fold(Handle, log, visited); Answers(log'.answered, log'.texts, log'.launched)
    decreases visited
  {
    if visited != [] {
      var c, rest := visited[0], visited[1..];
      assert visited == [c] + rest;
      Vectors.Unfold(Handle, log, c, rest);
      FoldAnswers(Handle(log, c).1, rest);
    }
  }

  lemma {:induction false} FoldAnswersThese(log: Log, visited: seq<Credentials>)
    ensures var log' := Vectors.Fold(Handle, log, visited);
            && log'.answered == log.answered + Answered(visited, log.results)
            && log'.texts == log.texts + Texts(visited, log.results)
    decreases visited
  {
    if visited != [] {
      var c, rest := visited[0], visited[1..];
      assert visited == [c] + rest;
      Vectors.Unfold(Handle, log, c, rest);
      FoldAnswersThese(Handle(log, c).1, rest);
    }
  }

  lemma EraseAnswers(open: seq<Credentials>, log: Log)
    requires Answers(log.answered, log.texts, log.launched) && forall c <- open :: Wanted(c).Some?
    ensures var r := Vectors.Erase(open, Handle, log);
            && Answers(r.state.answered, r.state.texts, r.state.launched)
            && multiset(r.vector) + multiset(r.state.answered) == multiset(open) + multiset(log.answered)
            && forall c <- r.vector :: Wanted(c).Some?
  {
    var r := Vectors.Erase(open, Handle, log);
    Vectors.EraseVisitsOnce(open, Handle, log);
    FoldKeepsAll(log, r.visited);
    assert forall c <- r.visited :: c in multiset(r.visited);
    FoldAnswers(log, r.visited);
    RejectedAmong(log, r.visited);
  }

  /** What the user has typed reaches just the sessions it was typed for: each open session is looked at
      once, and those with a result are answered with the text of that result. */
  lemma HandleInputsAnswers(s: State, b: nat, results: seq<Option<string>>)
    requires b < |s.bodies| && s.bodies[b].main.Handling?
    ensures var s' := Step(s, HandleInputs(b, results));
            exists visited: seq<Credentials> ::
              && multiset(visited) == multiset(s.sessions)
              && s'.answered == s.answered + Answered(visited, results)
              && s'.texts == s.texts + Texts(visited, results)
  {
    var log := Log(s.answered, s.texts, s.launched, results);
    Vectors.EraseVisitsOnce(s.sessions, Handle, log);
    FoldAnswersThese(log, Vectors.Erase(s.sessions, Handle, log).visited);
  }

  lemma {:induction false} RejectedAmong(log: Log, visited: seq<Credentials>)
    ensures forall c <- Vectors.Rejected(Handle, log, visited) :: c in visited
    decreases visited
  {
    if visited != [] {
      Vectors.Unfold(Handle, log, visited[0], visited[1..]);
      assert visited == [visited[0]] + visited[1..];
      RejectedAmong(Handle(log, visited[0]).1, visited[1..]);
    }
  }

  lemma HandleInputsKeeps(s: State, b: nat, results: seq<Option<string>>)
    requires Invariant(s) && b < |s.bodies| && s.bodies[b].main.Handling?
    ensures Invariant(AfterHandleInputs(s, b, results))
  {
    EraseAnswers(s.sessions, Log(s.answered, s.texts, s.launched, results));
    assert Held(AfterHandleInputs(s, b, results)) == Held(s);
  }

  lemma RunKeepsOneBody(s: State, c: Credentials)
    requires OneBody(s)
    ensures OneBody(AfterRun(s, c)) && Held(AfterRun(s, c)) == Held(s)
  {
  }

  lemma RunKeeps(s: State, c: Credentials)
    requires Invariant(s)
    ensures Invariant(AfterRun(s, c))
  {
    RunKeepsOneBody(s, c);
    assert s.placed + Held(s) + (s.threadQueue + [c]) == s.placed + Held(s) + s.threadQueue + [c];
  }

  lemma TakeKeeps(s: State, b: nat)
    requires Invariant(s) && b < |s.bodies| && s.bodies[b].main == Launching(None)
    ensures Invariant(AfterTake(s, b))
  {
    var s' := AfterTake(s, b);
    assert Held(s') == Held(s);
  }

  lemma PlaceKeepsOneBody(s: State, b: nat)
    requires OneBody(s) && b < |s.bodies| && s.bodies[b].main.Launching? && s.bodies[b].main.hand.Some?
    ensures OneBody(AfterPlace(s, b))
    ensures Held(s) == [s.bodies[b].main.hand.value] + Held(AfterPlace(s, b))
  {
    assert b == |s.bodies| - 1;
  }

  lemma PlaceKeeps(s: State, b: nat)
    requires Invariant(s) && b < |s.bodies| && s.bodies[b].main.Launching? && s.bodies[b].main.hand.Some?
    ensures Invariant(AfterPlace(s, b))
  {
    var s', c := AfterPlace(s, b), s.bodies[b].main.hand.value;
    PlaceKeepsOneBody(s, b);
    assert s.placed + ([c] + Held(s')) == (s.placed + [c]) + Held(s');
    assert multiset(s'.placed) == multiset(s.placed) + multiset{c};
  }

  lemma DecideKeeps(s: State, b: nat)
    requires Invariant(s) && b < |s.bodies|
    ensures Invariant(AfterDecide(s, b))
  {
    assert Held(AfterDecide(s, b)) == Held(s);
  }

  lemma CommKeepsOneBody(s: State, b: nat)
    requires OneBody(s) && b < |s.bodies|
    ensures OneBody(AfterComm(s, b))
    ensures Held(AfterComm(s, b)) + AfterComm(s, b).threadQueue == Held(s) + s.threadQueue
  {
    var s' := AfterComm(s, b);
    if !s.bodies[b].commReturned && !s.bodies[b].quit {
      assert b == |s.bodies| - 1;
      assert Held(s') == Held(s) + s.threadQueue;
    } else {
      assert Held(s') == Held(s);
    }
  }

  lemma CommKeeps(s: State, b: nat)
    requires Invariant(s) && b < |s.bodies|
    ensures Invariant(AfterComm(s, b))
  {
    CommKeepsOneBody(s, b);
    var s' := AfterComm(s, b);
    assert s.given == s.placed + (Held(s') + s'.threadQueue);
  }

  lemma {:induction false} StepKeeps(s: State, e: Event)
    requires Invariant(s)
    ensures Invariant(Step(s, e))
  {
    if e.Run? {
      RunKeeps(s, e.c);
    } else if e.b < |s.bodies| {
      var main := s.bodies[e.b].main;
      if e.Wake? {
        assert Held(Step(s, e)) == Held(s);
      } else if e.Take? {
        if main == Launching(None) { TakeKeeps(s, e.b); }
      } else if e.Place? {
        if main.Launching? && main.hand.Some? { PlaceKeeps(s, e.b); }
      } else if e.HandleInputs? {
        if main.Handling? { HandleInputsKeeps(s, e.b, e.results); }
      } else if e.Decide? {
        DecideKeeps(s, e.b);
      } else {
        CommKeeps(s, e.b);
      }
    }
  }

  lemma {:induction false} EveryRunKeeps(s: State, events: seq<Event>)
    requires Invariant(s)
    ensures Invariant(RunAll(s, events))
    decreases events
  {
    if events != [] {
      StepKeeps(s, events[0]);
      EveryRunKeeps(Step(s, events[0]), events[1..]);
    }
  }

  lemma InOnePlace(s: State)
    requires Conserved(s)
    ensures multiset(s.given) == multiset(s.threadQueue) + multiset(Held(s)) + multiset(s.sessions)
                               + multiset(s.answered) + multiset(s.dropped)
  {
    MultisetOfSum(s.placed, Held(s), s.threadQueue);
  }

  lemma NothingLeft(s: State)
    requires OneBody(s)
    ensures forall b | 0 <= b < |s.bodies| && s.bodies[b].quit :: s.bodies[b].fiberQueue == [] && Hand(s.bodies[b]) == []
    ensures !s.running ==> s.threadQueue == [] && Held(s) == [] && s.sessions == []
  {
  }

  /** In every run, however the bodies overlap: at most one has not quit, every session given is in
      exactly one place, and without a running body there is nothing left to do. */
  lemma {:induction false} NoSessionIsStranded(events: seq<Event>)
    ensures var s := RunAll(INITIAL, events);
            && (forall a, b | 0 <= a < |s.bodies| && 0 <= b < |s.bodies| && !s.bodies[a].quit && !s.bodies[b].quit :: a == b)
            && (forall b | 0 <= b < |s.bodies| && s.bodies[b].quit :: s.bodies[b].fiberQueue == [] && Hand(s.bodies[b]) == [])
            && multiset(s.given) == multiset(s.threadQueue) + multiset(Held(s)) + multiset(s.sessions)
                                    + multiset(s.answered) + multiset(s.dropped)
            && (!s.running ==> s.threadQueue == [] && Held(s) == [] && s.sessions == [])
  {
    EveryRunKeeps(INITIAL, events);
    InOnePlace(RunAll(INITIAL, events));
    NothingLeft(RunAll(INITIAL, events));
  }

  function GivenTo(events: seq<Event>): seq<Credentials> {
    if events == [] then [] else (if events[0].Run? then [events[0].c] else []) + GivenTo(events[1..])
  }

  lemma {:induction false} GivenGrows(s: State, events: seq<Event>)
    ensures RunAll(s, events).given == s.given + GivenTo(events)
    decreases events
  {
    if events != [] {
      GivenGrows(Step(s, events[0]), events[1..]);
      assert Step(s, events[0]).given == s.given + if events[0].Run? then [events[0].c] else [];
    }
  }

  /** The sessions accounted for are just those that `run` was called with. */
  lemma GivenAreRuns(events: seq<Event>)
    ensures RunAll(INITIAL, events).given == GivenTo(events)
  {
    GivenGrows(INITIAL, events);
  }

  /** Questions are opened in the order in which the sessions were given. */
  lemma {:induction false} AskedInOrder(events: seq<Event>)
    ensures RunAll(INITIAL, events).placed <= RunAll(INITIAL, events).given
  {
    EveryRunKeeps(INITIAL, events);
    var s := RunAll(INITIAL, events);
    PrefixOfSum(s.placed, Held(s), s.threadQueue, []);
    assert s.given + [] == s.given;
  }

  /** A session is dropped unasked if and only if it was given with nothing missing: with callers
      that give only sessions lacking something, the assertion in `launchSessions` cannot fail. */
  lemma {:induction false} DroppedIffComplete(events: seq<Event>)
    ensures var s := RunAll(INITIAL, events);
            && (forall c <- s.dropped :: c.password != "" && c.steamGuardCode != "")
            && (forall c <- s.placed :: c.password != "" && c.steamGuardCode != "" <==> c in s.dropped)
  {
    EveryRunKeeps(INITIAL, events);
    var s := RunAll(INITIAL, events);
    forall c <- s.placed ensures c.password != "" && c.steamGuardCode != "" <==> c in s.dropped {
      if c.password != "" && c.steamGuardCode != "" {
        CompleteIsDropped(s, c);
      }
    }
  }

  lemma CompleteIsDropped(s: State, c: Credentials)
    requires Conserved(s) && Answers(s.answered, s.texts, s.launched)
    requires c in s.placed && c.password != "" && c.steamGuardCode != ""
    ensures c in s.dropped
  {
    assert c in multiset(s.placed);
    assert c !in s.sessions;
    if i :| 0 <= i < |s.answered| && s.answered[i] == c {
      assert s.answered[i].steamGuardCode == "";
    }
    assert c !in s.answered;
    assert c in multiset(s.sessions) || c in multiset(s.answered) || c in multiset(s.dropped);
  }

  /** In every run each answered session has launched its client with just the text of its answer, in the
      field that was asked for: the password if there was none, and otherwise the missing guard code. */
  lemma {:induction false} LaunchedWithAnswer(events: seq<Event>, i: nat)
    requires i < |RunAll(INITIAL, events).answered|
    ensures var s := RunAll(INITIAL, events);
            && |s.launched| == |s.texts| == |s.answered|
            && s.launched[i] == (if s.answered[i].password == "" then s.answered[i].(password := s.texts[i])
                                 else s.answered[i].(steamGuardCode := s.texts[i]))
            && (s.answered[i].password != "" ==> s.answered[i].steamGuardCode == "")
  {
    EveryRunKeeps(INITIAL, events);
  }

  // ---- and it can always finish ----

  /** What the running body does next when the user answers everything. */
  function NextEvent(s: State): Event
    requires s.bodies != []
  {
    var b, main := |s.bodies| - 1, Newest(s).main;
    if main.Waiting? then if s.threadQueue != [] then Comm(b) else Wake(b)
    else if main.Launching? then if main.hand.Some? then Place(b) else Take(b)
    else if main.Handling? then HandleInputs(b, seq(|s.sessions|, i => Some("")))
    else Decide(b)
  }

  /** Whether the main fiber will have to go round once more. */
  function Again(s: State): nat {
    var main := Newest(s).main;
    if (|| (main.Launching? && s.threadQueue != [])
        || (main.Handling? && (s.threadQueue != [] || Newest(s).fiberQueue != []))
        || (main.Deciding? && (s.threadQueue != [] || Newest(s).fiberQueue != [] || s.sessions != [])))
    then 1 else 0
  }

  function Rank(main: Main): nat {
    match main
    case Waiting => 4
    case Launching(_) => 3
    case Handling => 2
    case Deciding => 1
    case Returned => 0
  }

  function Load(body: Body): nat {
    2 * |body.fiberQueue| + |Hand(body)|
  }

  lemma {:induction false} AllAnswered(v: seq<Credentials>, log: Log)
    requires |log.results| >= |v| && forall r <- log.results :: r.Some?
    ensures Vectors.Erase(v, Handle, log).vector == []
    decreases |v|
  {
    if v != [] {
      Vectors.ErasedStep(v, 0, Handle, log);
      assert forall i | 0 <= i < |log.results| :: log.results[i] in log.results;
      AllAnswered(Vectors.SwapPop(v, 0), Handle(log, v[0]).1);
    }
  }

  /** Lexicographically less. */
  predicate Closer(s': State, s: State) {
    || Again(s') < Again(s)
    || (Again(s') == Again(s) && Rank(Newest(s').main) < Rank(Newest(s).main))
    || (Again(s') == Again(s) && Rank(Newest(s').main) == Rank(Newest(s).main) && |s'.threadQueue| < |s.threadQueue|)
    || (Again(s') == Again(s) && Rank(Newest(s').main) == Rank(Newest(s).main) && |s'.threadQueue| == |s.threadQueue|
        && Load(Newest(s')) < Load(Newest(s)))
  }

  lemma WaitingProgresses(s: State)
    requires Invariant(s) && s.running && Newest(s).main.Waiting?
    ensures Closer(Step(s, NextEvent(s)), s) && Step(s, NextEvent(s)).given == s.given
  {
  }

  lemma DecidingProgresses(s: State)
    requires Invariant(s) && s.running && Newest(s).main.Deciding?
    ensures Closer(Step(s, NextEvent(s)), s) && Step(s, NextEvent(s)).given == s.given
  {
  }

  lemma LaunchingProgresses(s: State)
    requires Invariant(s) && s.running && Newest(s).main.Launching?
    ensures Closer(Step(s, NextEvent(s)), s) && Step(s, NextEvent(s)).given == s.given
  {
  }

  lemma HandlingProgresses(s: State)
    requires Invariant(s) && s.running && Newest(s).main.Handling?
    ensures Closer(Step(s, NextEvent(s)), s) && Step(s, NextEvent(s)).given == s.given
  {
    AllAnswered(s.sessions, Log(s.answered, s.texts, s.launched, seq(|s.sessions|, i => Some(""))));
  }

  lemma NextEventProgresses(s: State)
    requires Invariant(s) && s.running && !Newest(s).main.Returned?
    ensures Closer(Step(s, NextEvent(s)), s) && Step(s, NextEvent(s)).given == s.given
  {
    if Newest(s).main.Handling? {
      HandlingProgresses(s);
    } else if Newest(s).main.Launching? {
      LaunchingProgresses(s);
    } else if Newest(s).main.Waiting? {
      WaitingProgresses(s);
    } else {
      DecidingProgresses(s);
    }
  }

  /** From every reachable state the thread can still settle every session and end: no
      interleaving of the bodies leaves one that nobody will look at. */
  lemma EverySessionCanBeSettled(events: seq<Event>)
    ensures exists more ::
              var s := RunAll(RunAll(INITIAL, events), more);
              && !s.running && s.given == RunAll(INITIAL, events).given
              && multiset(s.given) == multiset(s.answered) + multiset(s.dropped)
  {
    EveryRunKeeps(INITIAL, events);
    var more := Settling(RunAll(INITIAL, events));
  }

  lemma {:induction false} Settling(s: State) returns (more: seq<Event>)
    requires Invariant(s)
    ensures var s' := RunAll(s, more);
            !s'.running && s'.given == s.given && multiset(s'.given) == multiset(s'.answered) + multiset(s'.dropped)
    decreases Again(s), Rank(Newest(s).main), |s.threadQueue|, Load(Newest(s))
  {
    if s.running {
      var e := NextEvent(s);
      StepKeeps(s, e);
      assert !Newest(s).main.Returned?;
      NextEventProgresses(s);
      var rest := Settling(Step(s, e));
      more := [e] + rest;
    } else {
      more := [];
      assert s.given == s.placed;
    }
  }

  lemma {:induction false} RunAppend(s: State, events: seq<Event>, e: Event)
    ensures RunAll(s, events + [e]) == Step(RunAll(s, events), e)
    decreases events
  {
    if events != [] {
      assert (events + [e])[1..] == events[1..] + [e];
      RunAppend(Step(s, events[0]), events[1..], e);
    }
  }

  lemma LaunchingIsRun(events: seq<Event>, b: nat)
    requires b < |RunAll(INITIAL, events).bodies|
    ensures var s := RunAll(INITIAL, events);
            && RunAll(INITIAL, events + [Take(b)]) == AfterTake(s, b)
            && RunAll(INITIAL, events + [Take(b)] + [Place(b)]) == AfterPlace(AfterTake(s, b), b)
  {
    RunAppend(INITIAL, events, Take(b));
    RunAppend(INITIAL, events + [Take(b)], Place(b));
  }

  // ---- the class ----

  /** `launchSessions` when nothing comes in between: the fiber queue is emptied. */
  function Launched(s: State, b: nat): State
    requires b < |s.bodies| && s.bodies[b].main == Launching(None)
    decreases |s.bodies[b].fiberQueue|
  {
    if s.bodies[b].fiberQueue == [] then AfterTake(s, b) else Launched(AfterPlace(AfterTake(s, b), b), b)
  }

  lemma LaunchedStep(s: State, b: nat)
    requires b < |s.bodies| && s.bodies[b].main == Launching(None) && s.bodies[b].fiberQueue != []
    ensures var s' := AfterPlace(AfterTake(s, b), b);
            && b < |s'.bodies| && s'.bodies[b].main == Launching(None)
            && |s'.bodies[b].fiberQueue| < |s.bodies[b].fiberQueue|
            && Launched(s', b) == Launched(s, b)
  {
  }

  /** The queues of a body are locals of that call, shared by its two fibers. */
  class SessionThread {
    var sessions: seq<Credentials>
    var threadQueue: seq<Credentials>
    var running: bool
    var bodies: seq<Body>
    // All that has happened
    ghost var events: seq<Event>
    ghost var given: seq<Credentials>
    ghost var placed: seq<Credentials>
    var answered: seq<Credentials>
    var texts: seq<string>
    var launched: seq<Credentials>
    ghost var dropped: seq<Credentials>

    ghost function Snapshot(): State
      reads this
    {
      State(threadQueue, running, bodies, sessions, given, placed, answered, texts, launched, dropped)
    }

    /** The thread is in the state which the machine reaches by these events. */
    ghost predicate Valid()
      reads this
    {
      Snapshot() == RunAll(INITIAL, events)
    }

    constructor ()
      ensures Snapshot() == INITIAL && events == [] && Valid()
    {
      events := [];
      sessions, threadQueue, running, bodies := [], [], false, [];
      given, placed, answered, texts, launched, dropped := [], [], [], [], [], [];
    }

    /** So no session is stranded, whatever has been called on the class. */
    lemma StrandsNone()
      requires Valid()
      ensures forall a, b | 0 <= a < |bodies| && 0 <= b < |bodies| && !bodies[a].quit && !bodies[b].quit :: a == b
      ensures multiset(given) == multiset(threadQueue) + multiset(Held(Snapshot())) + multiset(sessions)
                               + multiset(answered) + multiset(dropped)
      ensures !running ==> threadQueue == [] && Held(Snapshot()) == [] && sessions == []
    {
      NoSessionIsStranded(events);
    }

    method RunSession(c: Credentials)
      requires Valid()
      modifies this
      ensures Snapshot() == Step(old(Snapshot()), Run(c))
      ensures Valid() && events == old(events) + [Run(c)]
    {
      RunAppend(INITIAL, events, Run(c));
      events := events + [Run(c)];
      given := given + [c];
      threadQueue := threadQueue + [c];
      if !running {
        bodies := bodies + [NEW_BODY];
        running := true;
      }
    }

    /** One iteration of the loop in `launchSessions`. */
    method LaunchNext(b: nat)
      requires Valid()
      requires b < |bodies| && bodies[b].main == Launching(None) && bodies[b].fiberQueue != []
      modifies this
      ensures Snapshot() == AfterPlace(AfterTake(old(Snapshot()), b), b)
      ensures Valid() && events == old(events) + [Take(b)] + [Place(b)]
    {
      LaunchingIsRun(events, b);
      events := events + [Take(b)] + [Place(b)];
      var c := bodies[b].fiberQueue[0];
      bodies := bodies[b := bodies[b].(fiberQueue := bodies[b].fiberQueue[1..])];
      placed := placed + [c];
      if Wanted(c).Some? {
        sessions := sessions + [c];
      } else {
        dropped := dropped + [c];
      }
    }

    method LaunchSessions(b: nat)
      requires Valid()
      requires b < |bodies| && bodies[b].main == Launching(None)
      modifies this
      ensures Snapshot() == Launched(old(Snapshot()), b)
      ensures Valid() && old(events) <= events
    {
      while bodies[b].fiberQueue != []
        invariant b < |bodies| && bodies[b].main == Launching(None)
        invariant Valid() && old(events) <= events
        invariant Launched(Snapshot(), b) == Launched(old(Snapshot()), b)
        decreases |bodies[b].fiberQueue|
      {
        LaunchedStep(Snapshot(), b);
        LaunchNext(b);
      }
      LaunchingIsRun(events, b);
      events := events + [Take(b)];
      bodies := bodies[b := bodies[b].(main := Handling)];
    }

    method LookAtInputs(results: seq<Option<string>>)
      modifies this`sessions, this`answered, this`texts, this`launched
      ensures var r := Vectors.Erase(old(sessions), Handle, Log(old(answered), old(texts), old(launched), results));
              (sessions, answered, texts, launched) == (r.vector, r.state.answered, r.state.texts, r.state.launched)
    {
      var r := Vectors.Erase(sessions, Handle, Log(answered, texts, launched, results));
      sessions, answered, texts, launched := r.vector, r.state.answered, r.state.texts, r.state.launched;
    }

    /** `results` are what the open questions have to say, in the order in which they are looked at. */
    method HandleInputs(b: nat, results: seq<Option<string>>)
      requires Valid()
      requires b < |bodies| && bodies[b].main.Handling?
      modifies this
      ensures Snapshot() == Step(old(Snapshot()), Event.HandleInputs(b, results))
      ensures Valid() && events == old(events) + [Event.HandleInputs(b, results)]
    {
      RunAppend(INITIAL, events, Event.HandleInputs(b, results));
      events := events + [Event.HandleInputs(b, results)];
      LookAtInputs(results);
      bodies := bodies[b := bodies[b].(main := Deciding)];
    }

    method Decide(b: nat)
      requires Valid()
      requires b < |bodies| && bodies[b].main.Deciding?
      modifies this
      ensures Snapshot() == Step(old(Snapshot()), Event.Decide(b))
      ensures Valid() && events == old(events) + [Event.Decide(b)]
    {
      RunAppend(INITIAL, events, Event.Decide(b));
      events := events + [Event.Decide(b)];
      var quit := threadQueue == [] && bodies[b].fiberQueue == [] && sessions == [];
      if quit {
        running := false;
      }
      bodies := bodies[b := bodies[b].(quit := quit || bodies[b].quit, main := if quit then Returned else Waiting)];
    }

    /** The communication fiber: it returns, or moves everything to the fiber queue. */
    method Communicate(b: nat)
      requires Valid()
      requires b < |bodies| && !bodies[b].commReturned && (bodies[b].quit || threadQueue != [])
      modifies this
      ensures Snapshot() == Step(old(Snapshot()), Comm(b))
      ensures Valid() && events == old(events) + [Comm(b)]
    {
      RunAppend(INITIAL, events, Comm(b));
      events := events + [Comm(b)];
      if bodies[b].quit {
        bodies := bodies[b := bodies[b].(commReturned := true)];
        return;
      }
      ghost var queue, moved := threadQueue, 0;
      while threadQueue != []
        invariant moved <= |queue| && threadQueue == queue[moved..]
        invariant b < |bodies| && !bodies[b].quit
        invariant bodies == old(bodies)[b := bodies[b]]
        invariant bodies[b] == old(bodies)[b].(fiberQueue := bodies[b].fiberQueue)
        invariant bodies[b].fiberQueue == old(bodies)[b].fiberQueue + queue[..moved]
        invariant Snapshot() == old(Snapshot()).(bodies := bodies, threadQueue := threadQueue)
        invariant events == old(events) + [Comm(b)]
        decreases |threadQueue|
      {
        bodies := bodies[b := bodies[b].(fiberQueue := bodies[b].fiberQueue + [threadQueue[0]])];
        threadQueue := threadQueue[1..];
        moved := moved + 1;
        assert queue[..moved] == queue[..moved - 1] + [queue[moved - 1]];
      }
      assert queue[..moved] == queue;
    }
  }
}
