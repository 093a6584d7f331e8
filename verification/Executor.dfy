/** Running functions on a client's own thread: each is run, or killed when the client goes away.
    Each block under the module's mutex is one step; functions do not throw. */
module Executor {
  import opened Sequences
  import opened Wrappers

  type Function = nat

  datatype Status = Executing | Run | Killed

  /** The module's own fiber: waiting, past `wait` but before `getFunction`, executing a function,
      in the exception handler, or gone. */
  datatype Phase = Waiting | Woken | Busy(job: Function) | Draining | Ended

  /** `accepted` are the functions put on the queue, `refused` those `execute` returned false for at
      once; `ran` and `killed` are in the order in which it happened. */
  datatype State = State(
    queue: seq<Function>, cancelled: bool, phase: Phase, status: map<Function, Status>,
    accepted: seq<Function>, refused: seq<Function>, ran: seq<Function>, killed: seq<Function>)

  const INITIAL := State([], false, Waiting, map[], [], [], [], [])

  datatype Event =
    | Submit(job: Function)  // `execute`, under the mutex
    | Cancel                      // `cancel`
    | Wait                        // `wait` returns or throws
    | GetFunction                 // `getFunction` in the loop of `run`
    | Execute                     // the function has been called
    | Abort                       // the exception handler sets `cancelled`
    | Kill                        // one iteration of its loop

  function Step(s: State, e: Event): State {
    match e
    case Submit(f) =>
      if f in s.status then s  // every call makes a new function object
      else if s.cancelled then s.(refused := s.refused + [f])
      else s.(queue := s.queue + [f], status := s.status[f := Executing], accepted := s.accepted + [f])
    case Cancel => s.(cancelled := true)
    case Wait =>
      if !s.phase.Waiting? || (!s.cancelled && s.queue == []) then s
      else if s.cancelled then s.(phase := Draining)
      else s.(phase := Woken)
    case GetFunction =>
      if !s.phase.Woken? || s.queue == [] then s
      else s.(queue := s.queue[1..], phase := Busy(s.queue[0]))
    case Execute =>
      if !s.phase.Busy? then s
      else s.(status := s.status[s.phase.job := Run], ran := s.ran + [s.phase.job], phase := Waiting)
    case Abort =>
      if !s.phase.Draining? then s else s.(cancelled := true)
    case Kill =>
      if !s.phase.Draining? || !s.cancelled then s
      else if s.queue == [] then s.(phase := Ended)
      else s.(queue := s.queue[1..], status := s.status[s.queue[0] := Killed], killed := s.killed + [s.queue[0]])
  }

  function RunAll(events: seq<Event>): State {
    if events == [] then INITIAL else Step(RunAll(events[..|events| - 1]), events[|events| - 1])
  }

  ghost function Current(s: State): seq<Function> {
    if s.phase.Busy? then [s.phase.job] else []
  }

  /** The accepted functions, in order, are those that ran, those killed, the one running, and the queue. */
  ghost predicate InOrder(s: State) {
    && s.accepted == s.ran + s.killed + Current(s) + s.queue
    && Distinct(s.accepted)
    && (s.killed != [] ==> s.phase.Draining? || s.phase.Ended?)
  }

  /** What a caller in `execute` is told: the status of a function says what has become of it. */
  ghost predicate StatusTells(s: State) {
    && (forall f :: f in s.status <==> f in s.accepted)
    && (forall f <- s.status :: (s.status[f] == Run <==> f in s.ran) && (s.status[f] == Killed <==> f in s.killed))
  }

  ghost predicate Shutdown(s: State) {
    && (s.phase.Woken? ==> s.queue != [])
    && (s.phase.Draining? ==> s.cancelled)
    && (s.phase.Ended? ==> s.cancelled && s.queue == [])
  }

  ghost predicate Invariant(s: State) {
    InOrder(s) && StatusTells(s) && Shutdown(s)
  }

  lemma SubmitKeeps(s: State, f: Function)
    requires Invariant(s)
    ensures Invariant(Step(s, Submit(f)))
  {
    assert s.ran + s.killed + Current(s) + (s.queue + [f]) == (s.ran + s.killed + Current(s) + s.queue) + [f];
    assert forall g <- s.ran + s.killed :: g in s.accepted;
    assert f in s.ran || f in s.killed ==> f in s.ran + s.killed;
  }

  lemma GetFunctionKeeps(s: State)
    requires Invariant(s) && s.phase.Woken?
    ensures Invariant(Step(s, GetFunction))
  {
    var s' := Step(s, GetFunction);
    assert s.ran + s.killed + [] + s.queue == s'.ran + s'.killed + [s.queue[0]] + s'.queue;
  }

  /** A function in the middle of a list without repetitions is in neither end. */
  lemma InMiddle(front: seq<Function>, f: Function, rest: seq<Function>)
    requires Distinct(front + [f] + rest)
    ensures f !in front && f !in rest
  {
    var all := front + [f] + rest;
    assert all[|front|] == f;
    assert forall i :: 0 <= i < |front| ==> all[i] == front[i];
    assert forall i :: 0 <= i < |rest| ==> all[|front| + 1 + i] == rest[i];
  }

  lemma ExecuteKeeps(s: State)
    requires Invariant(s) && s.phase.Busy?
    ensures Invariant(Step(s, Execute))
  {
    var s', f := Step(s, Execute), s.phase.job;
    assert s.killed == [];
    assert s.accepted == s.ran + [f] + s.queue;
    InMiddle(s.ran, f, s.queue);
    assert s'.ran + s'.killed + [] + s'.queue == s.accepted;
    assert f in s.accepted;
  }

  lemma KillKeeps(s: State)
    requires Invariant(s) && s.phase.Draining? && s.queue != []
    ensures Invariant(Step(s, Kill))
  {
    var s', f := Step(s, Kill), s.queue[0];
    assert s.accepted == (s.ran + s.killed) + [f] + s'.queue;
    InMiddle(s.ran + s.killed, f, s'.queue);
    assert s'.ran + s'.killed + [] + s'.queue == s.accepted;
    assert f in s.accepted;
  }

  lemma {:induction false} StepKeeps(s: State, e: Event)
    requires Invariant(s)
    ensures Invariant(Step(s, e))
  {
    match e
    case Submit(f) => SubmitKeeps(s, f);
    case GetFunction => if s.phase.Woken? { GetFunctionKeeps(s); }
    case Execute => if s.phase.Busy? { ExecuteKeeps(s); }
    case Kill => if s.phase.Draining? && s.queue != [] { KillKeeps(s); }
    case _ => assert Current(Step(s, e)) == Current(s);
  }

  lemma {:induction false} EveryRunKeeps(events: seq<Event>)
    ensures Invariant(RunAll(events))
  {
    if events != [] {
      EveryRunKeeps(events[..|events| - 1]);
      StepKeeps(RunAll(events[..|events| - 1]), events[|events| - 1]);
    }
  }

  /** Accepted functions run in the order of submission; each runs once or is killed without
      running, never both, and its caller is told which; after the end all have been settled. */
  lemma {:induction false} RunOrKilled(events: seq<Event>)
    ensures var s := RunAll(events);
            && s.ran <= s.accepted && Distinct(s.accepted)
            && (forall f <- s.accepted :: f in s.status && (s.status[f] == Run <==> f in s.ran) && (s.status[f] == Killed <==> f in s.killed))
            && (forall f <- s.accepted :: !(f in s.ran && f in s.killed))
            && (s.phase.Woken? ==> s.queue != [])
            && (s.phase.Ended? ==> s.queue == [] && s.accepted == s.ran + s.killed)
  {
    EveryRunKeeps(events);
    var s := RunAll(events);
    PrefixOfSum(s.ran, s.killed, Current(s), s.queue);
    RunXorKilled(s);
    if s.phase.Ended? {
      assert s.accepted == s.ran + s.killed;
    }
  }

  lemma RunXorKilled(s: State)
    requires Invariant(s)
    ensures forall f <- s.accepted :: !(f in s.ran && f in s.killed)
  {
    assert forall f <- s.accepted :: f in s.status;
  }

  lemma StepAfterCancel(s: State, e: Event)
    requires s.cancelled
    ensures Step(s, e).cancelled && Step(s, e).accepted == s.accepted
  {
  }

  /** Nothing is accepted once the module is cancelled, and it stays cancelled. */
  lemma {:induction false} NothingAcceptedAfterCancel(events: seq<Event>, more: seq<Event>)
    requires RunAll(events).cancelled
    ensures RunAll(events + more).cancelled && RunAll(events + more).accepted == RunAll(events).accepted
    decreases more
  {
    if more == [] {
      assert events + more == events;
    } else {
      var prefix := events + more[..|more| - 1];
      NothingAcceptedAfterCancel(events, more[..|more| - 1]);
      StepAfterCancel(RunAll(prefix), more[|more| - 1]);
      assert events + more == prefix + [more[|more| - 1]];
    }
  }

  /** A function is accepted unless the module is cancelled, and only by being submitted. */
  lemma AcceptedIffNotCancelled(s: State, e: Event)
    ensures Step(s, e).accepted ==
            if e.Submit? && e.job !in s.status && !s.cancelled then s.accepted + [e.job] else s.accepted
  {
  }

  /** Cancelling is final: whatever happens afterwards, the module stays cancelled and accepts nothing. */
  lemma CancelRefuses(events: seq<Event>, more: seq<Event>)
    ensures var s := RunAll(events + [Cancel] + more);
            s.cancelled && s.accepted == RunAll(events).accepted
  {
    RunAppend(events, Cancel);
    NothingAcceptedAfterCancel(events + [Cancel], more);
  }

  /** What the module's fiber does on its own when it is not cancelled: one function after the other. */
  ghost function Served(s: State): State
    requires Shutdown(s) && !s.cancelled
    decreases 3 * |s.queue| + match s.phase case Busy(_) => 3 case Waiting => 2 case Woken => 1 case _ => 0
  {
    if s.phase.Waiting? && s.queue != [] then Served(Step(s, Wait))
    else if s.phase.Woken? then Served(Step(s, GetFunction))
    else if s.phase.Busy? then Served(Step(s, Execute))
    else s
  }

  /** Without cancellation everything accepted is run, in order, and every caller is told so. */
  lemma {:induction false} EverythingRuns(s: State)
    requires Invariant(s) && !s.cancelled
    ensures var s' := Served(s);
            && s'.phase.Waiting? && s'.queue == [] && s'.ran == s.ran + Current(s) + s.queue
            && s'.accepted == s.accepted == s'.ran
            && forall f <- s.accepted :: f in s'.status && s'.status[f] == Run
    decreases 3 * |s.queue| + match s.phase case Busy(_) => 3 case Waiting => 2 case Woken => 1 case _ => 0
  {
    if s.phase.Waiting? && s.queue != [] {
      StepKeeps(s, Wait);
      EverythingRuns(Step(s, Wait));
    } else if s.phase.Woken? {
      GetFunctionKeeps(s);
      EverythingRuns(Step(s, GetFunction));
      Associative(s.ran + [], [s.queue[0]], s.queue[1..]);
      assert s.ran + [] == s.ran && [s.queue[0]] + s.queue[1..] == s.queue;
    } else if s.phase.Busy? {
      ExecuteKeeps(s);
      EverythingRuns(Step(s, Execute));
      assert Step(s, Execute).ran + [] == s.ran + [s.phase.job];
    } else {
      assert s.ran + [] + [] == s.ran && s.killed == [];
      assert s.accepted == s.ran;
    }
  }

  /** The rest of the exception handler: what is left is killed. */
  function Finished(s: State): State
    requires s.phase.Draining? && s.cancelled
    decreases |s.queue|
  {
    if s.queue == [] then Step(s, Kill) else Finished(Step(s, Kill))
  }

  lemma {:induction false} FinishedKillsRest(s: State)
    requires Invariant(s) && s.phase.Draining?
    ensures var s' := Finished(s);
            && Invariant(s') && s'.phase.Ended? && s'.accepted == s.accepted
            && s'.killed == s.killed + s.queue && s'.ran == s.ran
    decreases |s.queue|
  {
    if s.queue == [] {
      StepKeeps(s, Kill);
      assert s.killed + [] == s.killed;
    } else {
      KillKeeps(s);
      FinishedKillsRest(Step(s, Kill));
      assert s.killed + s.queue == (s.killed + [s.queue[0]]) + s.queue[1..];
    }
  }

  /** What the module's fiber does on its own after cancellation: it finishes what it has begun. */
  ghost function Concluded(s: State): State
    requires s.cancelled && Shutdown(s)
    decreases match s.phase case Woken => 2 case Busy(_) => 1 case _ => 0
  {
    if s.phase.Woken? then Concluded(Step(s, GetFunction))
    else if s.phase.Busy? then Concluded(Step(s, Execute))
    else if s.phase.Waiting? then Finished(Step(s, Wait))
    else if s.phase.Draining? then Finished(s)
    else s
  }

  /** Once the module is cancelled, whatever it is doing, no caller waits for ever: the function already
      fetched is run, those still on the queue are killed in order, and every caller is answered. */
  lemma {:induction false} EveryCallerAnswered(s: State)
    requires Invariant(s) && s.cancelled
    ensures var s' := Concluded(s);
            var next := if s.phase.Woken? then [s.queue[0]] else Current(s);
            && s'.phase.Ended? && s'.accepted == s.accepted && s'.ran == s.ran + next
            && s'.killed == s.killed + (if s.phase.Woken? then s.queue[1..] else s.queue)
            && forall f <- s.accepted :: f in s'.status && s'.status[f] != Executing
    decreases match s.phase case Woken => 2 case Busy(_) => 1 case _ => 0
  {
    if s.phase.Woken? {
      GetFunctionKeeps(s);
      EveryCallerAnswered(Step(s, GetFunction));
    } else if s.phase.Busy? {
      ExecuteKeeps(s);
      EveryCallerAnswered(Step(s, Execute));
      assert Step(s, Execute).ran + [] == s.ran + [s.phase.job];
    } else {
      assert s.ran + [] == s.ran;
      var draining := if s.phase.Waiting? then Step(s, Wait) else s;
      if s.phase.Ended? {
        assert s.killed + [] == s.killed;
      } else {
        StepKeeps(s, Wait);
        FinishedKillsRest(draining);
      }
      AnsweredAtEnd(Concluded(s));
    }
  }

  lemma AnsweredAtEnd(s: State)
    requires Invariant(s) && s.phase.Ended?
    ensures forall f <- s.accepted :: f in s.status && s.status[f] != Executing
  {
    assert s.accepted == s.ran + s.killed;
    forall f <- s.accepted ensures f in s.status && s.status[f] != Executing {
      assert f in s.ran + s.killed;
    }
  }

  lemma RunAppend(events: seq<Event>, e: Event)
    ensures RunAll(events + [e]) == Step(RunAll(events), e)
  {
    assert (events + [e])[..|events|] == events;
  }

  lemma {:induction false} FinishedIsRun(events: seq<Event>) returns (more: seq<Event>)
    requires RunAll(events).phase.Draining? && RunAll(events).cancelled
    ensures RunAll(events + more) == Finished(RunAll(events))
    decreases |RunAll(events).queue|
  {
    RunAppend(events, Kill);
    if RunAll(events).queue == [] {
      more := [Kill];
    } else {
      var rest := FinishedIsRun(events + [Kill]);
      more := [Kill] + rest;
      assert events + more == events + [Kill] + rest;
    }
  }

  // ---- the class ----

  class ExecutorModule {
    var queue: seq<Function>
    var cancelled: bool
    var phase: Phase
    var status: map<Function, Status>
    // All that has happened
    ghost var events: seq<Event>
    ghost var accepted: seq<Function>
    ghost var refused: seq<Function>
    ghost var ran: seq<Function>
    ghost var killed: seq<Function>

    ghost function Snapshot(): State
      reads this
    {
      State(queue, cancelled, phase, status, accepted, refused, ran, killed)
    }

    /** The module is in the state which the machine reaches by these events. */
    ghost predicate Valid()
      reads this
    {
      Snapshot() == RunAll(events)
    }

    constructor ()
      ensures Snapshot() == INITIAL && events == [] && Valid()
    {
      events := [];
      queue, cancelled, phase, status := [], false, Waiting, map[];
      accepted, refused, ran, killed := [], [], [], [];
    }

    /** `execute` up to the wait for the result; false is its immediate refusal. */
    method Execute(f: Function) returns (accept: bool)
      requires Valid()
      requires f !in status
      modifies this
      ensures Snapshot() == Step(old(Snapshot()), Submit(f)) && accept == !old(cancelled)
      ensures Valid() && events == old(events) + [Submit(f)]
    {
      ghost var s' := Step(Snapshot(), Submit(f));
      RunAppend(events, Submit(f));
      events := events + [Submit(f)];
      if cancelled {
        refused := refused + [f];
        accept := false;
      } else {
        status, accepted := status[f := Executing], accepted + [f];
        queue := queue + [f];
        accept := true;
      }
      assert Snapshot() == s';
    }

    /** `ExecutorFunction::wait`: the answer of `execute`, once there is one, says what became of the
        function. */
    method Result(f: Function) returns (done: bool, result: bool)
      requires Valid() && f in status
      ensures f in accepted
      ensures result <==> f in ran
      ensures done && !result <==> f in killed
    {
      EveryRunKeeps(events);
      done, result := status[f] != Executing, status[f] == Run;
    }

    /** So the class runs or kills what it accepts, in order, whatever has been called on it. */
    lemma Settles()
      requires Valid()
      ensures ran <= accepted && Distinct(accepted)
      ensures forall f <- accepted :: f in status && (status[f] == Run <==> f in ran) && (status[f] == Killed <==> f in killed)
      ensures forall f <- accepted :: !(f in ran && f in killed)
      ensures phase.Ended? ==> queue == [] && accepted == ran + killed
    {
      RunOrKilled(events);
    }

    method CancelModule()
      requires Valid()
      modifies this`cancelled, this`events
      ensures Snapshot() == Step(old(Snapshot()), Cancel)
      ensures Valid() && events == old(events) + [Cancel]
    {
      RunAppend(events, Cancel);
      events := events + [Cancel];
      cancelled := true;
    }

    /** `wait`, when its condition holds; an exception leads to the handler. */
    method WaitEnds()
      requires Valid()
      requires phase.Waiting? && (cancelled || queue != [])
      modifies this`phase, this`events
      ensures Snapshot() == Step(old(Snapshot()), Wait)
      ensures Valid() && events == old(events) + [Wait]
    {
      RunAppend(events, Wait);
      events := events + [Wait];
      phase := if cancelled then Draining else Woken;
    }

    method TakeFunction() returns (f: Option<Function>)
      modifies this`queue
      ensures old(queue) == [] ==> f.None? && queue == []
      ensures old(queue) != [] ==> f == Some(old(queue)[0]) && queue == old(queue)[1..]
    {
      f := None;
      if queue != [] {
        f := Some(queue[0]);
        queue := queue[1..];
      }
    }

    /** `getFunction()->execute(client)`: the function is not null. */
    method RunNext()
      requires Valid() && phase.Woken?
      modifies this
      ensures Snapshot() == Step(Step(old(Snapshot()), GetFunction), Event.Execute)
      ensures Valid() && events == old(events) + [GetFunction] + [Event.Execute]
    {
      EveryRunKeeps(events);
      RunAppend(events, GetFunction);
      RunAppend(events + [GetFunction], Event.Execute);
      events := events + [GetFunction] + [Event.Execute];
      var f := TakeFunction();
      phase := Busy(f.value);
      status, ran := status[f.value := Run], ran + [f.value];
      phase := Waiting;
    }

    /** The loop of the exception handler. */
    method KillRest()
      requires phase.Draining? && cancelled
      modifies this
      ensures Snapshot() == Finished(old(Snapshot())) && events == old(events)
    {
      var f := TakeFunction();
      while f.Some?
        invariant phase.Draining? && cancelled && events == old(events)
        invariant Finished(Snapshot().(queue := (if f.Some? then [f.value] else []) + queue)) == Finished(old(Snapshot()))
        invariant f.None? ==> queue == []
        decreases (if f.Some? then 1 else 0) + |queue|
      {
        status, killed := status[f.value := Killed], killed + [f.value];
        f := TakeFunction();
      }
      phase := Ended;
    }

    /** The exception handler: everything left is killed. */
    method Shut()
      requires Valid() && phase.Draining?
      modifies this
      ensures Snapshot() == Finished(Step(old(Snapshot()), Abort))
      ensures Valid() && old(events) <= events
    {
      RunAppend(events, Abort);
      ghost var rest := FinishedIsRun(events + [Abort]);
      cancelled := true;
      KillRest();
      events := events + [Abort] + rest;
    }
  }
}
