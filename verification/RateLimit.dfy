/** One query at a time, in order, with a pause after each.  Handlers on the Asio thread are atomic;
    the timer may fire late, and a wait that has been dispatched cannot be cancelled any more. */
module RateLimit {
  import opened Wrappers
  import opened Redirect

  /** The query in progress; `posted` while a redirect waits to be performed.  `given` is the query as
      it was enqueued, and `outcomes` are those of the attempts made so far. */
  datatype Flight = Flight(query: Query, callback: Callback, posted: bool, given: Query, outcomes: seq<Outcome>)

  datatype Start = Start(query: Query, time: int)

  /** The query as it was enqueued, the outcomes of the attempts, and the query with which the caller was notified. */
  datatype Completion = Completion(given: Query, outcomes: seq<Outcome>, result: Query, time: int)

  /** `waiting` counts the timer waits that can still be cancelled, `fired` those that have expired
      and whose handler is about to run.  The last three fields are the history. */
  datatype State = State(
    queue: seq<Query>, inProgress: Option<Flight>, expiry: int, waiting: nat, fired: nat, now: int,
    enqueued: seq<Query>, started: seq<Start>, completed: seq<Completion>)

  function Initial(now: int): State {
    State([], None, now, 0, 0, now, [], [], [])
  }

  // ---- the handlers ----

  function AfterRunQuery(s: State, q: Query): State {
    s.(inProgress := Some(Flight(q, Wrapper(Original), false, q, [])), started := s.started + [Start(q, s.now)])
  }

  function AfterStartQuery(s: State): State {
    if s.inProgress.Some? || s.queue == [] then s
    else
      var cancelled := s.(waiting := 0);
      if s.expiry <= s.now then AfterRunQuery(cancelled.(queue := s.queue[1..]), s.queue[0])
      else cancelled.(waiting := 1)
  }

  function AfterEnqueue(s: State, q: Query): State {
    AfterStartQuery(s.(queue := s.queue + [q], enqueued := s.enqueued + [q]))
  }

  /** The callback given to `BasicQuery`; `expires_after` cancels the waits. */
  function AfterCompletion(schedule: nat, s: State, c: Completion): State {
    AfterStartQuery(s.(completed := s.completed + [c], expiry := s.now + schedule, waiting := 0, inProgress := None))
  }

  datatype Event =
    | Enqueued(query: Query)       // `enqueue` runs on the Asio thread
    | Attempted(outcome: Outcome)  // the attempt in progress ends
    | Performed                    // a posted redirect is performed
    | Expired                      // a waiting timer handler is dispatched
    | Fired                        // a dispatched timer handler runs
    | Passed(time: nat)            // nothing happens for a while

  /** Whatever cannot happen leaves the state alone, so that every sequence of events is a run. */
  function Step(schedule: nat, s: State, e: Event): State {
    match e
    case Enqueued(q) => AfterEnqueue(s, q)
    case Attempted(o) =>
      if s.inProgress.None? || s.inProgress.value.posted then s
      else
        var f := s.inProgress.value;
        (match Invoke(f.callback, Completed(f.query, o))
         case Repost(q) => s.(inProgress := Some(f.(query := q, posted := true, outcomes := f.outcomes + [o])))
         case Finish(q) => AfterCompletion(schedule, s, Completion(f.given, f.outcomes + [o], q, s.now)))
    case Performed =>
      if s.inProgress.None? || !s.inProgress.value.posted then s
      else s.(inProgress := Some(s.inProgress.value.(callback := Wrapper(s.inProgress.value.callback), posted := false)))
    case Expired =>
      if s.waiting == 0 || s.now < s.expiry then s else s.(waiting := s.waiting - 1, fired := s.fired + 1)
    case Fired =>
      if s.fired == 0 then s else AfterStartQuery(s.(fired := s.fired - 1))
    case Passed(time) => s.(now := s.now + time)
  }

  function Run(schedule: nat, now: int, events: seq<Event>): State {
    if events == [] then Initial(now)
    else Step(schedule, Run(schedule, now, events[..|events| - 1]), events[|events| - 1])
  }

  // ---- what holds in every reachable state ----

  ghost function Begun(started: seq<Start>): (queries: seq<Query>)
    ensures |queries| == |started|
  {
    if started == [] then [] else Begun(started[..|started| - 1]) + [started[|started| - 1].query]
  }

  ghost function Given(completed: seq<Completion>): (queries: seq<Query>)
    ensures |queries| == |completed|
  {
    if completed == [] then [] else Given(completed[..|completed| - 1]) + [completed[|completed| - 1].given]
  }

  ghost function Current(s: State): seq<Query> {
    if s.inProgress.Some? then [s.inProgress.value.given] else []
  }

  /** First in, first out, one at a time: the queries that were enqueued are those completed, the one
      in progress and those queued, in this order; started were the former two. */
  ghost predicate Fifo(s: State) {
    && s.enqueued == Given(s.completed) + Current(s) + s.queue
    && Begun(s.started) == Given(s.completed) + Current(s)
  }

  /** The caller is notified with what following the redirects makes of its query, and the query in
      progress is where they have led so far. */
  ghost predicate Followed(s: State) {
    && (forall c <- s.completed :: Follow(c.given, c.outcomes) == (|c.outcomes|, Some(c.result)))
    && (s.inProgress.Some? ==> Redirected(s.inProgress.value.given, s.inProgress.value.outcomes) == Some(s.inProgress.value.query))
  }

  /** Every query starts at least `schedule` after the one before it was completed. */
  ghost predicate Spaced(schedule: nat, s: State) {
    && |s.completed| <= |s.started| <= |s.completed| + 1
    && (forall i :: 0 <= i < |s.started| - 1 ==> s.completed[i].time + schedule <= s.started[i + 1].time)
    && (s.completed != [] ==> s.expiry == s.completed[|s.completed| - 1].time + schedule)
  }

  /** Queued queries are never forgotten: something is in progress, or a timer handler is on its way. */
  ghost predicate Alive(s: State) {
    && s.waiting <= 1
    && (s.inProgress.None? && s.queue != [] ==> s.waiting > 0 || s.fired > 0)
  }

  /** The query in progress has been wrapped. */
  ghost predicate InFlight(s: State) {
    s.inProgress.Some? ==> s.inProgress.value.callback.Wrapper?
  }

  ghost predicate Invariant(schedule: nat, s: State) {
    Fifo(s) && Followed(s) && Spaced(schedule, s) && Alive(s) && InFlight(s)
  }

  lemma BegunAppend(started: seq<Start>, x: Start)
    ensures Begun(started + [x]) == Begun(started) + [x.query]
  {
    assert (started + [x])[..|started|] == started;
  }

  lemma GivenAppend(completed: seq<Completion>, c: Completion)
    ensures Given(completed + [c]) == Given(completed) + [c.given]
  {
    assert (completed + [c])[..|completed|] == completed;
  }

  /** Order and spacing depend on nothing but the history, the queue and the identity of the query in progress. */
  lemma SameHistory(schedule: nat, s: State, s': State)
    requires Fifo(s) && Spaced(schedule, s)
    requires (s'.queue, s'.expiry, s'.enqueued, s'.started, s'.completed) == (s.queue, s.expiry, s.enqueued, s.started, s.completed)
    requires Current(s') == Current(s)
    ensures Fifo(s') && Spaced(schedule, s')
  {
  }

  /** All but liveness before a call of `startQuery`; everything after it. */
  lemma StartQueryRestores(schedule: nat, s: State)
    requires Fifo(s) && Followed(s) && Spaced(schedule, s) && InFlight(s) && s.waiting <= 1
    requires s.inProgress.Some? || s.queue == [] ==> Alive(s)
    ensures Invariant(schedule, AfterStartQuery(s))
  {
    if s.inProgress.None? && s.queue != [] {
      if s.expiry <= s.now {
        SameHistory(schedule, s, s.(waiting := 0));
        RunQueryRestores(schedule, s.(waiting := 0));
      } else {
        SameHistory(schedule, s, s.(waiting := 1));
      }
    }
  }

  lemma RunQueryRecorded(s: State)
    requires Fifo(s) && s.inProgress.None? && s.queue != []
    ensures Fifo(AfterRunQuery(s.(queue := s.queue[1..]), s.queue[0]))
  {
    var q, given := s.queue[0], Given(s.completed);
    BegunAppend(s.started, Start(q, s.now));
    assert given + [] == given;
    assert given + ([q] + s.queue[1..]) == given + [q] + s.queue[1..];
    assert [q] + s.queue[1..] == s.queue;
  }

  lemma RunQueryRestores(schedule: nat, s: State)
    requires Fifo(s) && Followed(s) && Spaced(schedule, s) && s.waiting == 0
    requires s.inProgress.None? && s.queue != [] && s.expiry <= s.now
    ensures Invariant(schedule, AfterRunQuery(s.(queue := s.queue[1..]), s.queue[0]))
  {
    RunQueryRecorded(s);
    StartedAsCompleted(s);
    RunQuerySpaced(schedule, s);
    assert Followed(AfterRunQuery(s.(queue := s.queue[1..]), s.queue[0]));
  }

  lemma StartedAsCompleted(s: State)
    requires Fifo(s) && s.inProgress.None?
    ensures |s.started| == |s.completed|
  {
    assert Given(s.completed) + [] == Given(s.completed);
    assert |s.started| == |Begun(s.started)|;
  }

  lemma RunQuerySpaced(schedule: nat, s: State)
    requires Spaced(schedule, s) && |s.started| == |s.completed| && s.queue != [] && s.expiry <= s.now
    ensures Spaced(schedule, AfterRunQuery(s.(queue := s.queue[1..]), s.queue[0]))
  {
    var started := s.started + [Start(s.queue[0], s.now)];
    forall i | 0 <= i < |started| - 1 ensures s.completed[i].time + schedule <= started[i + 1].time {
      assert i < |s.started| - 1 ==> started[i + 1] == s.started[i + 1];
    }
  }

  lemma EnqueueKeeps(schedule: nat, s: State, q: Query)
    requires Invariant(schedule, s)
    ensures Invariant(schedule, AfterEnqueue(s, q))
  {
    var pushed := s.(queue := s.queue + [q], enqueued := s.enqueued + [q]);
    assert Given(s.completed) + Current(s) + s.queue + [q] == Given(s.completed) + Current(s) + pushed.queue;
    StartQueryRestores(schedule, pushed);
  }

  lemma CompletionRecorded(schedule: nat, s: State, c: Completion)
    requires Fifo(s) && Spaced(schedule, s)
    requires s.inProgress.Some? && s.inProgress.value.given == c.given && c.time == s.now
    ensures var done := s.(completed := s.completed + [c], expiry := s.now + schedule, waiting := 0, inProgress := None);
            Fifo(done) && Spaced(schedule, done)
  {
    GivenAppend(s.completed, c);
    var given := Given(s.completed);
    assert |s.started| == |Begun(s.started)| == |s.completed| + 1;
    assert given + [c.given] + s.queue == (given + [c.given]) + [] + s.queue;
    assert (given + [c.given]) + [] == given + [c.given];
  }

  lemma {:induction false} CompletionKeeps(schedule: nat, s: State, c: Completion)
    requires Fifo(s) && Followed(s) && Spaced(schedule, s)
    requires s.inProgress.Some? && s.inProgress.value.given == c.given && c.time == s.now
    requires Follow(c.given, c.outcomes) == (|c.outcomes|, Some(c.result))
    ensures Invariant(schedule, AfterCompletion(schedule, s, c))
  {
    CompletionRecorded(schedule, s, c);
    var done := s.(completed := s.completed + [c], expiry := s.now + schedule, waiting := 0, inProgress := None);
    assert AfterCompletion(schedule, s, c) == AfterStartQuery(done);
    assert done.queue == [] ==> Alive(done);
    StartQueryRestores(schedule, done);
  }

  lemma AttemptKeeps(schedule: nat, s: State, o: Outcome)
    requires Invariant(schedule, s)
    requires s.inProgress.Some? && !s.inProgress.value.posted
    ensures Invariant(schedule, Step(schedule, s, Attempted(o)))
  {
    var f := s.inProgress.value;
    var q := Completed(f.query, o);
    NestingIsHarmless(f.callback, q);
    FollowOneMore(f.given, f.outcomes, o);
    if CheckRedirect(q).0 {
      var s' := s.(inProgress := Some(f.(query := CheckRedirect(q).1, posted := true, outcomes := f.outcomes + [o])));
      assert Step(schedule, s, Attempted(o)) == s';
      SameHistory(schedule, s, s');
    } else {
      var c := Completion(f.given, f.outcomes + [o], q, s.now);
      CompletionKeeps(schedule, s, c);
      assert Step(schedule, s, Attempted(o)) == AfterCompletion(schedule, s, c);
    }
  }

  lemma {:induction false} FiredKeeps(schedule: nat, s: State)
    requires Invariant(schedule, s) && s.fired > 0
    ensures Invariant(schedule, Step(schedule, s, Fired))
  {
    SameHistory(schedule, s, s.(fired := s.fired - 1));
    StartQueryRestores(schedule, s.(fired := s.fired - 1));
  }

  lemma TimerKeeps(schedule: nat, s: State, e: Event)
    requires Invariant(schedule, s)
    requires e.Performed? || e.Expired? || e.Passed?
    ensures Invariant(schedule, Step(schedule, s, e))
  {
    SameHistory(schedule, s, Step(schedule, s, e));
  }

  lemma {:induction false} StepKeeps(schedule: nat, s: State, e: Event)
    requires Invariant(schedule, s)
    ensures Invariant(schedule, Step(schedule, s, e))
  {
    if e.Enqueued? {
      EnqueueKeeps(schedule, s, e.query);
    } else if e.Fired? {
      if s.fired > 0 {
        FiredKeeps(schedule, s);
      }
    } else if !e.Attempted? {
      TimerKeeps(schedule, s, e);
    } else if s.inProgress.Some? && !s.inProgress.value.posted {
      AttemptKeeps(schedule, s, e.outcome);
    }
  }

  lemma {:induction false} EveryRunKeeps(schedule: nat, now: int, events: seq<Event>)
    ensures Invariant(schedule, Run(schedule, now, events))
  {
    if events != [] {
      EveryRunKeeps(schedule, now, events[..|events| - 1]);
      StepKeeps(schedule, Run(schedule, now, events[..|events| - 1]), events[|events| - 1]);
    }
  }

  /** The limiter in every run: one query at a time, in order, each completed once, with what following
      its redirects makes of it; well spaced; and none of those queued left without something that will
      start it. */
  lemma {:induction false} RateLimited(schedule: nat, now: int, events: seq<Event>)
    ensures var s := Run(schedule, now, events);
            && s.enqueued == Given(s.completed) + Current(s) + s.queue
            && Begun(s.started) == Given(s.completed) + Current(s)
            && (forall c <- s.completed :: Follow(c.given, c.outcomes) == (|c.outcomes|, Some(c.result)))
            && (forall i :: 0 <= i < |s.started| - 1 ==> s.completed[i].time + schedule <= s.started[i + 1].time)
            && (s.inProgress.None? && s.queue != [] ==> s.waiting > 0 || s.fired > 0)
  {
    EveryRunKeeps(schedule, now, events);
  }

  /** What an attempt leads to, spelled out: a reply that redirects makes the next attempt go to its target;
      any other reply, or a failure, is what the caller is notified with. */
  lemma AttemptHasEffect(schedule: nat, now: int, events: seq<Event>, o: Outcome)
    requires var s := Run(schedule, now, events); s.inProgress.Some? && !s.inProgress.value.posted
    ensures var s := Run(schedule, now, events);
            var f, s' := s.inProgress.value, Step(schedule, s, Attempted(o));
            var redirects := match o
              case Replied(r) => r.status == 302 && r.location.Target? && r.location.url != f.query.url
              case FailedEarly => f.query.response.status == 302 && f.query.response.location.Target?
                                  && f.query.response.location.url != f.query.url
              case FailedLate => false;
            var response := match o case Replied(r) => r case FailedEarly => f.query.response case FailedLate => Response(200, NoLocation);
            if redirects then
              var next := Step(schedule, s', Performed);
              && next.completed == s.completed && next.inProgress.Some? && !next.inProgress.value.posted
              && next.inProgress.value.query == Query(f.query.id, response.location.url, response, !o.Replied?)
              && next.inProgress.value.given == f.given && next.inProgress.value.outcomes == f.outcomes + [o]
            else
              s'.completed == s.completed +
                [Completion(f.given, f.outcomes + [o], Query(f.query.id, f.query.url, response, !o.Replied?), s.now)]
  {
    EveryRunKeeps(schedule, now, events);
    var f := Run(schedule, now, events).inProgress.value;
    NestingIsHarmless(f.callback, Completed(f.query, o));
  }

  /** Queries start, and are completed, when it is recorded that they are. */
  lemma RecordedNow(schedule: nat, s: State, e: Event)
    ensures var s' := Step(schedule, s, e);
            && (s'.started == s.started || (|s'.started| == |s.started| + 1 && s'.started[..|s.started|] == s.started
                                            && s'.started[|s.started|].time == s.now))
            && (s'.completed == s.completed || (|s'.completed| == |s.completed| + 1 && s'.completed[..|s.completed|] == s.completed
                                                && s'.completed[|s.completed|].time == s.now))
            && s'.enqueued == (if e.Enqueued? then s.enqueued + [e.query] else s.enqueued)
            && s'.now == (if e.Passed? then s.now + e.time else s.now)
  {
  }

  /** And that something works: when nothing is in progress, waiting long enough and letting the
      timer handlers run starts the first query of the queue. */
  lemma NeverStuck(schedule: nat, now: int, events: seq<Event>, time: nat)
    requires var s := Run(schedule, now, events); s.inProgress.None? && s.queue != [] && s.expiry <= s.now + time
    ensures var s := Run(schedule, now, events);
            var s' := Step(schedule, Step(schedule, Step(schedule, s, Passed(time)), Expired), Fired);
            s'.inProgress.Some? && s'.inProgress.value.query == s.queue[0]
  {
    EveryRunKeeps(schedule, now, events);
    ThreeSteps(schedule, Run(schedule, now, events), time);
  }

  lemma ThreeSteps(schedule: nat, s: State, time: nat)
    requires Alive(s) && s.inProgress.None? && s.queue != [] && s.expiry <= s.now + time
    ensures var s' := Step(schedule, Step(schedule, Step(schedule, s, Passed(time)), Expired), Fired);
            s'.inProgress.Some? && s'.inProgress.value.query == s.queue[0]
  {
    var s1 := s.(now := s.now + time);
    assert Step(schedule, s, Passed(time)) == s1;
    assert Step(schedule, s1, Expired).fired > 0;
  }

  lemma RunAppend(schedule: nat, now: int, events: seq<Event>, e: Event)
    ensures Run(schedule, now, events + [e]) == Step(schedule, Run(schedule, now, events), e)
  {
    assert (events + [e])[..|events|] == events;
  }

  // ---- the class ----

  class RateLimitQueue {
    const schedule: nat
    var queue: seq<Query>
    var inProgress: Option<Flight>
    var expiry: int
    var waiting: nat
    var fired: nat
    var now: int
    // What has happened since `begin`
    ghost const begin: int
    ghost var events: seq<Event>
    ghost var enqueued: seq<Query>
    ghost var started: seq<Start>
    ghost var completed: seq<Completion>

    ghost function Snapshot(): State
      reads this
    {
      State(queue, inProgress, expiry, waiting, fired, now, enqueued, started, completed)
    }

    /** The queue is in the state which the machine reaches by these events. */
    ghost predicate Valid()
      reads this
    {
      Snapshot() == Run(schedule, begin, events)
    }

    constructor (schedule: nat, now: int)
      ensures this.schedule == schedule && begin == now && events == [] && Snapshot() == Initial(now)
      ensures Valid()
    {
      this.schedule, begin, events := schedule, now, [];
      queue, inProgress, expiry, waiting, fired, this.now := [], None, now, 0, 0, now;
      enqueued, started, completed := [], [], [];
    }

    /** So the class does what a rate limiter must, whatever has been called on it. */
    lemma Limits()
      requires Valid()
      ensures enqueued == Given(completed) + Current(Snapshot()) + queue
      ensures Begun(started) == Given(completed) + Current(Snapshot())
      ensures forall c <- completed :: Follow(c.given, c.outcomes) == (|c.outcomes|, Some(c.result))
      ensures forall i :: 0 <= i < |started| - 1 ==> completed[i].time + schedule <= started[i + 1].time
      ensures inProgress.None? && queue != [] ==> waiting > 0 || fired > 0
    {
      RateLimited(schedule, begin, events);
    }

    method RunQuery(q: Query)
      requires inProgress.None?
      modifies this
      ensures Snapshot() == AfterRunQuery(old(Snapshot()), q) && events == old(events)
    {
      inProgress := Some(Flight(q, Wrapper(Original), false, q, []));
      started := started + [Start(q, now)];
    }

    method StartQuery()
      modifies this
      ensures Snapshot() == AfterStartQuery(old(Snapshot())) && events == old(events)
    {
      if inProgress.None? {
        if queue != [] {
          waiting := 0;
          if expiry <= now {
            var query := queue[0];
            queue := queue[1..];
            RunQuery(query);
          } else {
            waiting := waiting + 1;
          }
        }
      }
    }

    method Enqueue(q: Query)
      requires Valid()
      modifies this
      ensures Snapshot() == Step(schedule, old(Snapshot()), Enqueued(q))
      ensures Valid() && events == old(events) + [Enqueued(q)]
    {
      RunAppend(schedule, begin, events, Enqueued(q));
      events := events + [Enqueued(q)];
      queue := queue + [q];
      enqueued := enqueued + [q];
      StartQuery();
    }

    method AttemptEnds(o: Outcome)
      requires Valid()
      requires inProgress.Some? && !inProgress.value.posted
      modifies this
      ensures Snapshot() == Step(schedule, old(Snapshot()), Attempted(o))
      ensures Valid() && events == old(events) + [Attempted(o)]
    {
      RunAppend(schedule, begin, events, Attempted(o));
      events := events + [Attempted(o)];
      var f := inProgress.value;
      match Invoke(f.callback, Completed(f.query, o))
      case Repost(q) =>
        inProgress := Some(f.(query := q, posted := true, outcomes := f.outcomes + [o]));
      case Finish(q) =>
        completed := completed + [Completion(f.given, f.outcomes + [o], q, now)];
        expiry, waiting := now + schedule, 0;
        inProgress := None;
        StartQuery();
    }

    method RedirectPerformed()
      requires Valid()
      requires inProgress.Some? && inProgress.value.posted
      modifies this
      ensures Snapshot() == Step(schedule, old(Snapshot()), Performed)
      ensures Valid() && events == old(events) + [Performed]
    {
      RunAppend(schedule, begin, events, Performed);
      events := events + [Performed];
      inProgress := Some(inProgress.value.(callback := Wrapper(inProgress.value.callback), posted := false));
    }

    method TimerExpires()
      requires Valid()
      requires waiting > 0 && expiry <= now
      modifies this
      ensures Snapshot() == Step(schedule, old(Snapshot()), Expired)
      ensures Valid() && events == old(events) + [Expired]
    {
      RunAppend(schedule, begin, events, Expired);
      events := events + [Expired];
      waiting, fired := waiting - 1, fired + 1;
    }

    method TimerFires()
      requires Valid()
      requires fired > 0
      modifies this
      ensures Snapshot() == Step(schedule, old(Snapshot()), Fired)
      ensures Valid() && events == old(events) + [Fired]
    {
      RunAppend(schedule, begin, events, Fired);
      events := events + [Fired];
      fired := fired - 1;
      StartQuery();
    }

    method TimePasses(time: nat)
      requires Valid()
      modifies this
      ensures Snapshot() == Step(schedule, old(Snapshot()), Passed(time))
      ensures Valid() && events == old(events) + [Passed(time)]
    {
      RunAppend(schedule, begin, events, Passed(time));
      events := events + [Passed(time)];
      now := now + time;
    }
  }
}
