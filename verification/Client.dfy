/** The lifecycle of client threads: launching, quitting, restarting, and waiting for all of them.
    Each locked block, each access to a counter handle, and each call of `quit` is one step; `quit` has
    no lock, but is called on the thread of its client. */
module Clients {
  import opened Wrappers

  type Info = nat

  datatype QuitMode = NoQuit | Quit | Restart

  /** One execution of `Launcher::launch`, by a caller of `Client::launch` or by a restarting thread:
      before it makes its counter handle, with the handle in the closure, with the thread started
      (which has its own copy), and with the closure destroyed. */
  datatype Stage = Begun | HasHandle | Spawned | Done

  datatype Launch = Launch(info: Info, stage: Stage, parent: Option<nat>)

  /** A client thread: before `setClient`, with its client set, with the client cleared again, in the
      restart branch (sleeping, then launching), at the end of its function, or gone. */
  datatype Phase = Starting | Running | Cleared | Sleeping | Relaunching(launch: nat) | Ending | Gone

  datatype Thread = Thread(info: Info, phase: Phase, quitMode: QuitMode, restarts: bool, successor: Option<nat>)

  datatype Handle = Closure(launch: nat) | Own(thread: nat)

  /** The one that will see to it that `active` is reset. */
  datatype Owner = ByLaunch(launch: nat) | ByThread(thread: nat)

  /** `handles` are the counter handles in existence; `owner` is a record for the proof. */
  datatype State = State(
    active: set<Info>, client: map<Info, nat>, threads: seq<Thread>, launches: seq<Launch>,
    counter: nat, handles: set<Handle>, owner: map<Info, Owner>)

  const INITIAL := State({}, map[], [], [], 0, {}, map[])

  datatype Event =
    | Call(info: Info)           // `Client::launch` up to `setActive`
    | MakeHandle(l: nat)
    | Spawn(l: nat)
    | DropClosure(l: nat)
    | SetClient(t: nat)
    | QuitClient(t: nat, restart: bool)
    | ClearClient(t: nat)
    | Switch(t: nat)             // on the quit mode
    | Relaunch(t: nat)
    | Exit(t: nat)

  function AfterCall(s: State, info: Info): State {
    if info in s.active then s
    else s.(active := s.active + {info}, launches := s.launches + [Launch(info, Begun, None)],
            owner := s.owner[info := ByLaunch(|s.launches|)])
  }

  function AfterMakeHandle(s: State, l: nat): State
    requires l < |s.launches|
  {
    if !s.launches[l].stage.Begun? then s
    else s.(launches := s.launches[l := s.launches[l].(stage := HasHandle)],
            counter := s.counter + 1, handles := s.handles + {Closure(l)})
  }

  /** The threads after a launch has added its own. */
  function WithThread(threads: seq<Thread>, launch: Launch): seq<Thread> {
    (if launch.parent.Some? && launch.parent.value < |threads| then
       threads[launch.parent.value := threads[launch.parent.value].(successor := Some(|threads|))]
     else threads) + [Thread(launch.info, Starting, NoQuit, false, None)]
  }

  function AfterSpawn(s: State, l: nat): State
    requires l < |s.launches|
  {
    if !s.launches[l].stage.HasHandle? then s
    else s.(launches := s.launches[l := s.launches[l].(stage := Spawned)], threads := WithThread(s.threads, s.launches[l]),
            counter := s.counter + 1, handles := s.handles + {Own(|s.threads|)},
            owner := s.owner[s.launches[l].info := ByThread(|s.threads|)])
  }

  function SetPhase(threads: seq<Thread>, t: nat, phase: Phase): seq<Thread> {
    if t < |threads| then threads[t := threads[t].(phase := phase)] else threads
  }

  /** `Handle::~Handle`, whose counter is not zero. */
  function Decrement(n: nat): nat {
    if n == 0 then 0 else n - 1
  }

  function AfterDropClosure(s: State, l: nat): State
    requires l < |s.launches|
  {
    var launch := s.launches[l];
    if !launch.stage.Spawned? then s
    else s.(launches := s.launches[l := launch.(stage := Done)],
            threads := if launch.parent.Some? then SetPhase(s.threads, launch.parent.value, Ending) else s.threads,
            counter := Decrement(s.counter), handles := s.handles - {Closure(l)})
  }

  function AfterSetClient(s: State, t: nat): State
    requires t < |s.threads|
  {
    if !s.threads[t].phase.Starting? then s
    else s.(threads := SetPhase(s.threads, t, Running), client := s.client[s.threads[t].info := t])
  }

  function AfterQuit(s: State, t: nat, restart: bool): State
    requires t < |s.threads|
  {
    if s.threads[t].phase.Starting? || s.threads[t].quitMode != NoQuit then s
    else s.(threads := s.threads[t := s.threads[t].(quitMode := if restart then Restart else Quit)])
  }

  function AfterClearClient(s: State, t: nat): State
    requires t < |s.threads|
  {
    if !s.threads[t].phase.Running? then s
    else s.(threads := SetPhase(s.threads, t, Cleared), client := s.client - {s.threads[t].info})
  }

  function AfterSwitch(s: State, t: nat): State
    requires t < |s.threads|
  {
    var thread := s.threads[t];
    if !thread.phase.Cleared? then s
    else if thread.quitMode == Restart then
      s.(threads := s.threads[t := thread.(phase := Sleeping, restarts := true)])
    else
      s.(threads := SetPhase(s.threads, t, Ending), active := s.active - {thread.info}, owner := s.owner - {thread.info})
  }

  function AfterRelaunch(s: State, t: nat): State
    requires t < |s.threads|
  {
    if !s.threads[t].phase.Sleeping? then s
    else s.(threads := SetPhase(s.threads, t, Relaunching(|s.launches|)),
            launches := s.launches + [Launch(s.threads[t].info, Begun, Some(t))],
            owner := s.owner[s.threads[t].info := ByLaunch(|s.launches|)])
  }

  function AfterExit(s: State, t: nat): State
    requires t < |s.threads|
  {
    if !s.threads[t].phase.Ending? then s
    else s.(threads := SetPhase(s.threads, t, Gone), counter := Decrement(s.counter), handles := s.handles - {Own(t)})
  }

  predicate Enabled(s: State, e: Event) {
    if e.Call? then true
    else if e.MakeHandle? || e.Spawn? || e.DropClosure? then e.l < |s.launches|
    else e.t < |s.threads|
  }

  function Step(s: State, e: Event): State {
    if !Enabled(s, e) then s
    else if e.Call? then AfterCall(s, e.info)
    else if e.MakeHandle? then AfterMakeHandle(s, e.l)
    else if e.Spawn? then AfterSpawn(s, e.l)
    else if e.DropClosure? then AfterDropClosure(s, e.l)
    else if e.SetClient? then AfterSetClient(s, e.t)
    else if e.QuitClient? then AfterQuit(s, e.t, e.restart)
    else if e.ClearClient? then AfterClearClient(s, e.t)
    else if e.Switch? then AfterSwitch(s, e.t)
    else if e.Relaunch? then AfterRelaunch(s, e.t)
    else AfterExit(s, e.t)
  }

  function RunAll(events: seq<Event>): State {
    if events == [] then INITIAL else Step(RunAll(events[..|events| - 1]), events[|events| - 1])
  }

  // ---- the invariant ----

  /** A launch that has yet to start its thread. */
  predicate Pending(launch: Launch) { launch.stage.Begun? || launch.stage.HasHandle? }

  /** A thread that has neither reset `active` nor handed over to the launch of its successor. */
  predicate Live(thread: Thread) {
    thread.phase.Starting? || thread.phase.Running? || thread.phase.Cleared? || thread.phase.Sleeping?
  }

  /** An account is active exactly while it has an owner, which is a pending launch or a live thread for it. */
  ghost predicate OwnersLive(s: State) {
    && s.owner.Keys == s.active
    && (forall info <- s.owner :: s.owner[info].ByLaunch? ==>
          s.owner[info].launch < |s.launches| && s.launches[s.owner[info].launch].info == info && Pending(s.launches[s.owner[info].launch]))
    && (forall info <- s.owner :: s.owner[info].ByThread? ==>
          s.owner[info].thread < |s.threads| && s.threads[s.owner[info].thread].info == info && Live(s.threads[s.owner[info].thread]))
  }

  /** Whatever is live or pending is the owner. */
  ghost predicate LiveOwns(s: State) {
    && (forall l | 0 <= l < |s.launches| && Pending(s.launches[l]) ::
          s.launches[l].info in s.owner && s.owner[s.launches[l].info] == ByLaunch(l))
    && (forall t | 0 <= t < |s.threads| && Live(s.threads[t]) ::
          s.threads[t].info in s.owner && s.owner[s.threads[t].info] == ByThread(t))
  }

  ghost predicate Owned(s: State) {
    OwnersLive(s) && LiveOwns(s)
  }

  /** The client pointer of an account is set exactly while its thread runs. */
  ghost predicate Pointed(s: State) {
    && (forall info <- s.client :: s.client[info] < |s.threads| && s.threads[s.client[info]].info == info && s.threads[s.client[info]].phase.Running?)
    && (forall t | 0 <= t < |s.threads| && s.threads[t].phase.Running? :: s.threads[t].info in s.client && s.client[s.threads[t].info] == t)
  }

  /** The counter is the number of handles: one for each closure and one for each thread not gone. */
  ghost predicate Counted(s: State) {
    && s.counter == |s.handles|
    && (forall l: nat :: Closure(l) in s.handles <==> l < |s.launches| && (s.launches[l].stage.HasHandle? || s.launches[l].stage.Spawned?))
    && (forall t: nat :: Own(t) in s.handles <==> t < |s.threads| && !s.threads[t].phase.Gone?)
  }

  /** A restarting thread waits for the launch it has begun, which leaves it a successor. */
  ghost predicate ParentsWait(s: State) {
    && (forall l | 0 <= l < |s.launches| && s.launches[l].parent.Some? ::
          var t := s.launches[l].parent.value;
          && t < |s.threads| && s.threads[t].info == s.launches[l].info
          && (!s.launches[l].stage.Done? ==> s.threads[t].phase == Relaunching(l))
          && (!Pending(s.launches[l]) ==> s.threads[t].successor.Some?))
    && (forall t | 0 <= t < |s.threads| && s.threads[t].phase.Relaunching? ::
          var l := s.threads[t].phase.launch;
          l < |s.launches| && s.launches[l].parent == Some(t) && !s.launches[l].stage.Done?)
  }

  /** So a thread that has chosen to restart does not end without one. */
  ghost predicate SuccessorsFollow(s: State) {
    && (forall t | 0 <= t < |s.threads| && s.threads[t].successor.Some? ::
          var next := s.threads[t].successor.value;
          t < next < |s.threads| && s.threads[next].info == s.threads[t].info)
    && (forall t | 0 <= t < |s.threads| && s.threads[t].restarts ::
          s.threads[t].phase.Sleeping? || s.threads[t].phase.Relaunching? || s.threads[t].successor.Some?)
  }

  ghost predicate Succeeded(s: State) {
    ParentsWait(s) && SuccessorsFollow(s)
  }

  ghost predicate Invariant(s: State) {
    Owned(s) && Pointed(s) && Counted(s) && Succeeded(s)
  }

  lemma CallKeepsOwned(s: State, info: Info)
    requires Owned(s)
    ensures Owned(AfterCall(s, info))
  {
  }

  lemma CallKeepsPointed(s: State, info: Info)
    requires Pointed(s)
    ensures Pointed(AfterCall(s, info))
  {
  }

  lemma CallKeepsCounted(s: State, info: Info)
    requires Counted(s)
    ensures Counted(AfterCall(s, info))
  {
  }

  lemma CallKeepsSucceeded(s: State, info: Info)
    requires Succeeded(s)
    ensures Succeeded(AfterCall(s, info))
  {
  }

  lemma CallKeeps(s: State, info: Info)
    requires Invariant(s)
    ensures Invariant(AfterCall(s, info))
  {
    CallKeepsOwned(s, info);
    CallKeepsPointed(s, info);
    CallKeepsCounted(s, info);
    CallKeepsSucceeded(s, info);
  }

  lemma MakeHandleKeepsOwned(s: State, l: nat)
    requires Owned(s) && l < |s.launches|
    ensures Owned(AfterMakeHandle(s, l))
  {
  }

  lemma MakeHandleKeepsPointed(s: State, l: nat)
    requires Pointed(s) && l < |s.launches|
    ensures Pointed(AfterMakeHandle(s, l))
  {
  }

  lemma MakeHandleKeepsCounted(s: State, l: nat)
    requires Counted(s) && l < |s.launches|
    ensures Counted(AfterMakeHandle(s, l))
  {
  }

  lemma MakeHandleKeepsSucceeded(s: State, l: nat)
    requires Succeeded(s) && l < |s.launches|
    ensures Succeeded(AfterMakeHandle(s, l))
  {
  }

  lemma MakeHandleKeeps(s: State, l: nat)
    requires Invariant(s) && l < |s.launches|
    ensures Invariant(AfterMakeHandle(s, l))
  {
    MakeHandleKeepsOwned(s, l);
    MakeHandleKeepsPointed(s, l);
    MakeHandleKeepsCounted(s, l);
    MakeHandleKeepsSucceeded(s, l);
  }

  lemma SpawnKeepsOwnersLive(s: State, l: nat)
    requires Owned(s) && l < |s.launches|
    ensures OwnersLive(AfterSpawn(s, l))
  {
  }

  lemma SpawnKeepsLiveOwns(s: State, l: nat)
    requires Owned(s) && l < |s.launches|
    ensures LiveOwns(AfterSpawn(s, l))
  {
  }

  lemma SpawnKeepsPointed(s: State, l: nat)
    requires Owned(s) && Pointed(s) && l < |s.launches|
    ensures Pointed(AfterSpawn(s, l))
  {
  }

  lemma SpawnKeepsCounted(s: State, l: nat)
    requires Counted(s) && Succeeded(s) && l < |s.launches|
    ensures Counted(AfterSpawn(s, l))
  {
  }

  lemma SpawnKeepsParentsWait(s: State, l: nat)
    requires Succeeded(s) && l < |s.launches|
    ensures ParentsWait(AfterSpawn(s, l))
  {
  }

  lemma SpawnKeepsSuccessorsFollow(s: State, l: nat)
    requires Succeeded(s) && l < |s.launches|
    ensures SuccessorsFollow(AfterSpawn(s, l))
  {
  }

  lemma SpawnKeeps(s: State, l: nat)
    requires Invariant(s) && l < |s.launches|
    ensures Invariant(AfterSpawn(s, l))
  {
    SpawnKeepsOwnersLive(s, l);
    SpawnKeepsLiveOwns(s, l);
    SpawnKeepsPointed(s, l);
    SpawnKeepsCounted(s, l);
    SpawnKeepsParentsWait(s, l);
    SpawnKeepsSuccessorsFollow(s, l);
  }

  lemma DropClosureKeepsOwned(s: State, l: nat)
    requires Invariant(s) && l < |s.launches|
    ensures Owned(AfterDropClosure(s, l))
  {
  }

  lemma DropClosureKeepsPointed(s: State, l: nat)
    requires Invariant(s) && l < |s.launches|
    ensures Pointed(AfterDropClosure(s, l))
  {
  }

  lemma DropClosureKeepsCounted(s: State, l: nat)
    requires Counted(s) && Succeeded(s) && l < |s.launches|
    ensures Counted(AfterDropClosure(s, l))
  {
  }

  lemma DropClosureKeepsParentsWait(s: State, l: nat)
    requires Succeeded(s) && l < |s.launches|
    ensures ParentsWait(AfterDropClosure(s, l))
  {
  }

  lemma DropClosureKeepsSuccessorsFollow(s: State, l: nat)
    requires Succeeded(s) && l < |s.launches|
    ensures SuccessorsFollow(AfterDropClosure(s, l))
  {
  }

  lemma DropClosureKeeps(s: State, l: nat)
    requires Invariant(s) && l < |s.launches|
    ensures Invariant(AfterDropClosure(s, l))
  {
    DropClosureKeepsOwned(s, l);
    DropClosureKeepsPointed(s, l);
    DropClosureKeepsCounted(s, l);
    DropClosureKeepsParentsWait(s, l);
    DropClosureKeepsSuccessorsFollow(s, l);
  }

  lemma SetClientKeepsOwned(s: State, t: nat)
    requires Owned(s) && t < |s.threads|
    ensures Owned(AfterSetClient(s, t))
  {
  }

  lemma SetClientKeepsPointed(s: State, t: nat)
    requires Owned(s) && Pointed(s) && t < |s.threads|
    ensures Pointed(AfterSetClient(s, t))
  {
  }

  lemma SetClientKeeps(s: State, t: nat)
    requires Invariant(s) && t < |s.threads|
    ensures Invariant(AfterSetClient(s, t))
  {
    SetClientKeepsOwned(s, t);
    SetClientKeepsPointed(s, t);
  }

  lemma QuitKeepsOwned(s: State, t: nat, restart: bool)
    requires Owned(s) && t < |s.threads|
    ensures Owned(AfterQuit(s, t, restart))
  {
  }

  lemma QuitKeepsPointed(s: State, t: nat, restart: bool)
    requires Pointed(s) && t < |s.threads|
    ensures Pointed(AfterQuit(s, t, restart))
  {
  }

  lemma QuitKeepsCounted(s: State, t: nat, restart: bool)
    requires Counted(s) && t < |s.threads|
    ensures Counted(AfterQuit(s, t, restart))
  {
  }

  lemma QuitKeepsSucceeded(s: State, t: nat, restart: bool)
    requires Succeeded(s) && t < |s.threads|
    ensures Succeeded(AfterQuit(s, t, restart))
  {
  }

  lemma QuitKeeps(s: State, t: nat, restart: bool)
    requires Invariant(s) && t < |s.threads|
    ensures Invariant(AfterQuit(s, t, restart))
  {
    QuitKeepsOwned(s, t, restart);
    QuitKeepsPointed(s, t, restart);
    QuitKeepsCounted(s, t, restart);
    QuitKeepsSucceeded(s, t, restart);
  }

  lemma ClearClientKeepsOwned(s: State, t: nat)
    requires Owned(s) && t < |s.threads|
    ensures Owned(AfterClearClient(s, t))
  {
  }

  lemma ClearClientKeepsPointed(s: State, t: nat)
    requires Owned(s) && Pointed(s) && t < |s.threads|
    ensures Pointed(AfterClearClient(s, t))
  {
  }

  lemma ClearClientKeepsCounted(s: State, t: nat)
    requires Counted(s) && t < |s.threads|
    ensures Counted(AfterClearClient(s, t))
  {
  }

  lemma ClearClientKeepsSucceeded(s: State, t: nat)
    requires Succeeded(s) && t < |s.threads|
    ensures Succeeded(AfterClearClient(s, t))
  {
  }

  lemma ClearClientKeeps(s: State, t: nat)
    requires Invariant(s) && t < |s.threads|
    ensures Invariant(AfterClearClient(s, t))
  {
    ClearClientKeepsOwned(s, t);
    ClearClientKeepsPointed(s, t);
    ClearClientKeepsCounted(s, t);
    ClearClientKeepsSucceeded(s, t);
  }

  lemma SwitchKeepsOwned(s: State, t: nat)
    requires Owned(s) && t < |s.threads|
    ensures Owned(AfterSwitch(s, t))
  {
  }

  lemma SwitchKeepsPointed(s: State, t: nat)
    requires Owned(s) && Pointed(s) && t < |s.threads|
    ensures Pointed(AfterSwitch(s, t))
  {
  }

  lemma SwitchKeepsCounted(s: State, t: nat)
    requires Counted(s) && t < |s.threads|
    ensures Counted(AfterSwitch(s, t))
  {
  }

  lemma SwitchKeepsSucceeded(s: State, t: nat)
    requires Succeeded(s) && t < |s.threads|
    ensures Succeeded(AfterSwitch(s, t))
  {
  }

  lemma SwitchKeeps(s: State, t: nat)
    requires Invariant(s) && t < |s.threads|
    ensures Invariant(AfterSwitch(s, t))
  {
    SwitchKeepsOwned(s, t);
    SwitchKeepsPointed(s, t);
    SwitchKeepsCounted(s, t);
    SwitchKeepsSucceeded(s, t);
  }

  lemma RelaunchKeepsOwned(s: State, t: nat)
    requires Owned(s) && t < |s.threads|
    ensures Owned(AfterRelaunch(s, t))
  {
  }

  lemma RelaunchKeepsPointed(s: State, t: nat)
    requires Owned(s) && Pointed(s) && t < |s.threads|
    ensures Pointed(AfterRelaunch(s, t))
  {
  }

  lemma RelaunchKeepsCounted(s: State, t: nat)
    requires Counted(s) && t < |s.threads|
    ensures Counted(AfterRelaunch(s, t))
  {
  }

  lemma RelaunchKeepsSucceeded(s: State, t: nat)
    requires Succeeded(s) && t < |s.threads|
    ensures Succeeded(AfterRelaunch(s, t))
  {
  }

  lemma RelaunchKeeps(s: State, t: nat)
    requires Invariant(s) && t < |s.threads|
    ensures Invariant(AfterRelaunch(s, t))
  {
    RelaunchKeepsOwned(s, t);
    RelaunchKeepsPointed(s, t);
    RelaunchKeepsCounted(s, t);
    RelaunchKeepsSucceeded(s, t);
  }

  lemma ExitKeepsOwned(s: State, t: nat)
    requires Owned(s) && t < |s.threads|
    ensures Owned(AfterExit(s, t))
  {
  }

  lemma ExitKeepsPointed(s: State, t: nat)
    requires Pointed(s) && t < |s.threads|
    ensures Pointed(AfterExit(s, t))
  {
  }

  lemma ExitKeepsCounted(s: State, t: nat)
    requires Counted(s) && t < |s.threads|
    ensures Counted(AfterExit(s, t))
  {
  }

  lemma ExitKeepsSucceeded(s: State, t: nat)
    requires Succeeded(s) && t < |s.threads|
    ensures Succeeded(AfterExit(s, t))
  {
  }

  lemma ExitKeeps(s: State, t: nat)
    requires Invariant(s) && t < |s.threads|
    ensures Invariant(AfterExit(s, t))
  {
    ExitKeepsOwned(s, t);
    ExitKeepsPointed(s, t);
    ExitKeepsCounted(s, t);
    ExitKeepsSucceeded(s, t);
  }

  lemma {:induction false} StepKeeps(s: State, e: Event)
    requires Invariant(s)
    ensures Invariant(Step(s, e))
  {
    if Enabled(s, e) {
      match e {
        case Call(info) => CallKeeps(s, info);
        case MakeHandle(l) => MakeHandleKeeps(s, l);
        case Spawn(l) => SpawnKeeps(s, l);
        case DropClosure(l) => DropClosureKeeps(s, l);
        case SetClient(t) => SetClientKeeps(s, t);
        case QuitClient(t, restart) => QuitKeeps(s, t, restart);
        case ClearClient(t) => ClearClientKeeps(s, t);
        case Switch(t) => SwitchKeeps(s, t);
        case Relaunch(t) => RelaunchKeeps(s, t);
        case Exit(t) => ExitKeeps(s, t);
      }
    }
  }

  lemma {:induction false} EveryRunKeeps(events: seq<Event>)
    ensures Invariant(RunAll(events))
  {
    if events != [] {
      EveryRunKeeps(events[..|events| - 1]);
      StepKeeps(RunAll(events[..|events| - 1]), events[|events| - 1]);
    }
  }

  // ---- what holds in every run ----

  /** At most one launch is live for each account, through quits and restarts: the account is active
      if and only if a thread is live for it or a launch pending, and that one is the only one. */
  lemma {:induction false} OneLivePerAccount(events: seq<Event>, info: Info)
    ensures var s := RunAll(events);
            var live := set t | 0 <= t < |s.threads| && s.threads[t].info == info && Live(s.threads[t]);
            var pending := set l | 0 <= l < |s.launches| && s.launches[l].info == info && Pending(s.launches[l]);
            && (info in s.active ==> (exists t :: live == {t} && pending == {}) || (exists l :: live == {} && pending == {l}))
            && (info !in s.active ==> live == {} && pending == {})
  {
    EveryRunKeeps(events);
    var s := RunAll(events);
    var live := set t | 0 <= t < |s.threads| && s.threads[t].info == info && Live(s.threads[t]);
    var pending := set l | 0 <= l < |s.launches| && s.launches[l].info == info && Pending(s.launches[l]);
    if info in s.owner {
      if s.owner[info].ByThread? {
        assert live == {s.owner[info].thread} && pending == {};
      } else {
        assert live == {} && pending == {s.owner[info].launch};
      }
    }
  }

  /** The assertion at the start of `Launcher::launch`, and the client pointer: set exactly while the
      one thread of the account is running. */
  lemma {:induction false} ClientSetWhileRunning(events: seq<Event>)
    ensures var s := RunAll(events);
            && (forall l | 0 <= l < |s.launches| && Pending(s.launches[l]) :: s.launches[l].info in s.active)
            && (forall info :: info in s.client <==> exists t :: 0 <= t < |s.threads| && s.threads[t].info == info && s.threads[t].phase.Running?)
            && (forall info <- s.client :: info in s.active && s.client[info] < |s.threads|
                                          && s.threads[s.client[info]].info == info && s.threads[s.client[info]].phase.Running?)
  {
    EveryRunKeeps(events);
    var s := RunAll(events);
    forall info | info in s.client ensures exists t :: 0 <= t < |s.threads| && s.threads[t].info == info && s.threads[t].phase.Running? {
      assert s.threads[s.client[info]].info == info;
    }
  }

  /** The counter is the number of live handles, so `waitAll` can return if and only if every thread
      is gone and no closure exists. */
  lemma {:induction false} WaitAllReturnsIff(events: seq<Event>)
    ensures var s := RunAll(events);
            && s.counter == |s.handles|
            && (s.counter == 0 <==>
                  && (forall t | 0 <= t < |s.threads| :: s.threads[t].phase.Gone?)
                  && (forall l | 0 <= l < |s.launches| :: s.launches[l].stage.Begun? || s.launches[l].stage.Done?))
  {
    EveryRunKeeps(events);
    var s := RunAll(events);
    if s.counter == 0 {
      assert s.handles == {};
      assert forall t: nat | t < |s.threads| :: Own(t) !in s.handles;
      assert forall l: nat | l < |s.launches| :: Closure(l) !in s.handles;
    } else if s.counter > 0 {
      var h :| h in s.handles;
      if h.Closure? {
        assert s.launches[h.launch].stage.HasHandle? || s.launches[h.launch].stage.Spawned?;
      } else {
        assert !s.threads[h.thread].phase.Gone?;
      }
    }
  }

  /** So it cannot return in the middle of a restart: by then every thread that chose to restart has a
      successor, for the same account, that is gone too. */
  lemma WaitAllSeesRestarts(events: seq<Event>, t: nat)
    requires RunAll(events).counter == 0 && t < |RunAll(events).threads| && RunAll(events).threads[t].restarts
    ensures var s := RunAll(events);
            && s.threads[t].successor.Some? && t < s.threads[t].successor.value < |s.threads|
            && s.threads[s.threads[t].successor.value].info == s.threads[t].info
            && s.threads[s.threads[t].successor.value].phase.Gone?
  {
    WaitAllReturnsIff(events);
    EveryRunKeeps(events);
  }

  /** An account that is active nevertheless is one whose caller has just passed `setActive` and not
      yet made its handle. */
  lemma {:induction false} ActiveAfterWaitAllIff(events: seq<Event>, info: Info)
    requires RunAll(events).counter == 0
    ensures var s := RunAll(events);
            info in s.active <==> exists l :: 0 <= l < |s.launches| && s.launches[l] == Launch(info, Begun, None)
  {
    WaitAllReturnsIff(events);
    EveryRunKeeps(events);
    ActiveIff(RunAll(events), info);
  }

  lemma ActiveIff(s: State, info: Info)
    requires Owned(s) && Succeeded(s)
    requires forall t | 0 <= t < |s.threads| :: s.threads[t].phase.Gone?
    requires forall l | 0 <= l < |s.launches| :: s.launches[l].stage.Begun? || s.launches[l].stage.Done?
    ensures info in s.active <==> exists l :: 0 <= l < |s.launches| && s.launches[l] == Launch(info, Begun, None)
  {
    if info in s.active {
      assert s.owner[info].ByLaunch?;
      assert s.launches[s.owner[info].launch].parent.None?;
    }
  }

  /** That window exists: the caller that has made its account active is not counted yet. */
  lemma CallIsNotYetCounted()
    ensures var s := RunAll([Call(0)]); s.counter == 0 && 0 in s.active
  {
    assert RunAll([Call(0)][..0]) == INITIAL;
  }

  lemma StepKeepsQuitMode(s: State, e: Event, t: nat)
    requires t < |s.threads|
    ensures t < |Step(s, e).threads|
    ensures s.threads[t].quitMode != NoQuit ==> Step(s, e).threads[t].quitMode == s.threads[t].quitMode
    ensures s.threads[t].restarts ==> Step(s, e).threads[t].restarts
  {
  }

  /** The first call of `quit` decides whether a client is restarted. */
  lemma {:induction false} FirstQuitWins(events: seq<Event>, more: seq<Event>, t: nat)
    requires t < |RunAll(events).threads|
    ensures t < |RunAll(events + more).threads|
    ensures RunAll(events).threads[t].quitMode != NoQuit ==>
              RunAll(events + more).threads[t].quitMode == RunAll(events).threads[t].quitMode
    ensures RunAll(events).threads[t].restarts ==> RunAll(events + more).threads[t].restarts
    decreases more
  {
    if more == [] {
      assert events + more == events;
    } else {
      var prefix := events + more[..|more| - 1];
      FirstQuitWins(events, more[..|more| - 1], t);
      StepKeepsQuitMode(RunAll(prefix), more[|more| - 1], t);
      assert events + more == prefix + [more[|more| - 1]];
    }
  }

  /** Whether the first effective call of `quit` on thread `t` asked for a restart, if there was one. */
  ghost function FirstQuit(events: seq<Event>, t: nat): Option<bool> {
    if events == [] then None
    else
      var before, e, s := FirstQuit(events[..|events| - 1], t), events[|events| - 1], RunAll(events[..|events| - 1]);
      if before.Some? then before
      else if e.QuitClient? && e.t == t && t < |s.threads| && s.threads[t].phase != Starting then Some(e.restart)
      else None
  }

  lemma StepSetsQuitMode(s: State, e: Event, t: nat)
    ensures var s' := Step(s, e);
            && |s.threads| <= |s'.threads|
            && (t < |s.threads| ==>
                  var effective := e.QuitClient? && e.t == t && s.threads[t].phase != Starting && s.threads[t].quitMode == NoQuit;
                  s'.threads[t].quitMode == if effective then (if e.restart then Restart else Quit) else s.threads[t].quitMode)
            && (|s.threads| <= t < |s'.threads| ==> s'.threads[t].quitMode == NoQuit)
  {
  }

  /** In every run a thread's quit mode says what the first effective call of `quit` asked for. */
  lemma {:induction false} QuitModeIsFirst(events: seq<Event>, t: nat)
    ensures var s := RunAll(events);
            && (t >= |s.threads| ==> FirstQuit(events, t).None?)
            && (t < |s.threads| ==>
                  s.threads[t].quitMode == match FirstQuit(events, t) case None => NoQuit case Some(restart) => if restart then Restart else Quit)
  {
    if events != [] {
      QuitModeIsFirst(events[..|events| - 1], t);
      StepSetsQuitMode(RunAll(events[..|events| - 1]), events[|events| - 1], t);
    }
  }

  /** Who has chosen to restart was told to. */
  ghost predicate RestartsTold(s: State) {
    forall t | 0 <= t < |s.threads| && s.threads[t].restarts :: s.threads[t].quitMode == Restart
  }

  lemma StepKeepsTold(s: State, e: Event)
    requires RestartsTold(s)
    ensures RestartsTold(Step(s, e))
  {
  }

  lemma {:induction false} EveryRunKeepsTold(events: seq<Event>)
    ensures RestartsTold(RunAll(events))
  {
    if events != [] {
      EveryRunKeepsTold(events[..|events| - 1]);
      StepKeepsTold(RunAll(events[..|events| - 1]), events[|events| - 1]);
    }
  }

  /** In every run a client restarts only if the first call of `quit` on it asked for that. */
  lemma RestartsOnlyIfAsked(events: seq<Event>, t: nat)
    requires t < |RunAll(events).threads| && RunAll(events).threads[t].restarts
    ensures FirstQuit(events, t) == Some(true)
  {
    QuitModeIsFirst(events, t);
    EveryRunKeepsTold(events);
  }

  /** A running client that has not been told to quit yet, and now is: it goes to sleep before its restart
      if and only if that was asked for, and otherwise its account becomes inactive. */
  lemma QuitDecides(events: seq<Event>, t: nat, restart: bool)
    requires var s := RunAll(events); t < |s.threads| && s.threads[t].phase.Running? && s.threads[t].quitMode.NoQuit?
    ensures var s := RunAll(events);
            var info := s.threads[t].info;
            var s' := Step(Step(Step(s, QuitClient(t, restart)), ClearClient(t)), Switch(t));
            && (s'.threads[t].phase.Sleeping? <==> restart)
            && (s'.threads[t].phase.Ending? <==> !restart)
            && s'.threads[t].restarts == (s.threads[t].restarts || restart)
            && (info in s'.active <==> restart)
            && info !in s'.client
  {
    EveryRunKeeps(events);
    QuitSteps(RunAll(events), t, restart);
  }

  lemma QuitSteps(s: State, t: nat, restart: bool)
    requires t < |s.threads| && s.threads[t].phase.Running? && s.threads[t].quitMode.NoQuit? && s.threads[t].info in s.active
    ensures var info := s.threads[t].info;
            var s' := Step(Step(Step(s, QuitClient(t, restart)), ClearClient(t)), Switch(t));
            && (s'.threads[t].phase.Sleeping? <==> restart)
            && (s'.threads[t].phase.Ending? <==> !restart)
            && s'.threads[t].restarts == (s.threads[t].restarts || restart)
            && (info in s'.active <==> restart)
            && info !in s'.client
  {
    var s1 := Step(s, QuitClient(t, restart));
    assert s1.threads[t] == s.threads[t].(quitMode := if restart then Restart else Quit);
    var s2 := Step(s1, ClearClient(t));
    assert s2.threads[t] == s1.threads[t].(phase := Cleared) && s2.active == s.active;
  }

  /** A client that was not told to quit, and whose fibers have all ended, does not restart either. */
  lemma EndsWithoutQuit(events: seq<Event>, t: nat)
    requires var s := RunAll(events); t < |s.threads| && s.threads[t].phase.Running? && s.threads[t].quitMode.NoQuit?
    ensures var s := RunAll(events);
            var s' := Step(Step(Step(s, ClearClient(t)), Switch(t)), Exit(t));
            s'.threads[t].phase.Gone? && s.threads[t].info !in s'.active && s'.counter == s.counter - 1
  {
    EveryRunKeeps(events);
    CounterPositive(RunAll(events), t);
    EndSteps(RunAll(events), t);
  }

  lemma CounterPositive(s: State, t: nat)
    requires Counted(s) && t < |s.threads| && !s.threads[t].phase.Gone?
    ensures s.counter > 0
  {
    assert Own(t) in s.handles;
  }

  lemma EndSteps(s: State, t: nat)
    requires t < |s.threads| && s.threads[t].phase.Running? && s.threads[t].quitMode.NoQuit? && s.counter > 0
    ensures var s' := Step(Step(Step(s, ClearClient(t)), Switch(t)), Exit(t));
            s'.threads[t].phase.Gone? && s.threads[t].info !in s'.active && s'.counter == s.counter - 1
  {
    var s1 := Step(s, ClearClient(t));
    assert s1.threads[t] == s.threads[t].(phase := Cleared) && s1.counter == s.counter;
    var s2 := Step(s1, Switch(t));
    assert s2.threads[t] == s.threads[t].(phase := Ending) && s2.counter == s.counter && s.threads[t].info !in s2.active;
  }

  /** A sleeping thread, left to itself: it starts a successor for its account, which stays active and gets
      its client, and is gone itself; one handle goes and one comes. */
  lemma RestartLeadsToSuccessor(events: seq<Event>, t: nat)
    requires var s := RunAll(events); t < |s.threads| && s.threads[t].phase.Sleeping?
    ensures var s := RunAll(events);
            var info, n := s.threads[t].info, |s.threads|;
            var s' := Step(Step(Relaunched(s, t), Exit(t)), SetClient(n));
            && |s'.threads| == n + 1 && s'.threads[n] == Thread(info, Running, NoQuit, false, None)
            && s'.threads[t].phase.Gone? && s'.threads[t].successor == Some(n)
            && info in s'.active && info in s'.client && s'.client[info] == n
            && s'.counter == s.counter
  {
    EveryRunKeeps(events);
    var s := RunAll(events);
    var s4 := Relaunched(s, t);
    RelaunchedSteps(s, t);
    var s5 := Step(s4, Exit(t));
    assert s5.threads == SetPhase(s4.threads, t, Gone) && s5.counter == s.counter && s5.active == s.active;
  }

  /** A call of `launch` for an account that is not active, left to itself: it starts a thread for the
      account, which becomes active and gets its client; one handle comes. */
  lemma LaunchLeadsToThread(events: seq<Event>, info: Info)
    requires info !in RunAll(events).active
    ensures var s := RunAll(events);
            var l, n := |s.launches|, |s.threads|;
            var s' := Step(Step(Step(Step(Step(s, Call(info)), MakeHandle(l)), Spawn(l)), DropClosure(l)), SetClient(n));
            && s'.threads == s.threads + [Thread(info, Running, NoQuit, false, None)]
            && s'.active == s.active + {info} && s'.client == s.client[info := n]
            && s'.counter == s.counter + 1
  {
    var s := RunAll(events);
    var l := |s.launches|;
    var s1 := Step(s, Call(info));
    assert s1.launches[l] == Launch(info, Begun, None) && s1.threads == s.threads && s1.active == s.active + {info};
    var s2 := Step(s1, MakeHandle(l));
    assert s2.launches[l] == Launch(info, HasHandle, None) && s2.threads == s.threads && s2.counter == s.counter + 1;
    var s3 := Step(s2, Spawn(l));
    assert s3.launches[l] == Launch(info, Spawned, None) && s3.counter == s.counter + 2;
    assert s3.threads == s.threads + [Thread(info, Starting, NoQuit, false, None)];
    var s4 := Step(s3, DropClosure(l));
    assert s4.threads == s3.threads && s4.counter == s.counter + 1 && s4.active == s1.active && s4.client == s.client;
  }

  /** For an account that is active it does nothing. */
  lemma LaunchOnlyOnce(s: State, info: Info)
    requires info in s.active
    ensures Step(s, Call(info)) == s
  {
  }

  function Relaunched(s: State, t: nat): State {
    var l := |s.launches|;
    Step(Step(Step(Step(s, Relaunch(t)), MakeHandle(l)), Spawn(l)), DropClosure(l))
  }

  lemma RelaunchedSteps(s: State, t: nat)
    requires t < |s.threads| && s.threads[t].phase.Sleeping?
    ensures var s', thread := Relaunched(s, t), s.threads[t];
            && s'.threads == s.threads[t := thread.(phase := Ending, successor := Some(|s.threads|))]
                             + [Thread(thread.info, Starting, NoQuit, false, None)]
            && s'.active == s.active && s'.client == s.client && s'.counter == s.counter + 1
  {
    var l, thread := |s.launches|, s.threads[t];
    var s1 := Step(s, Relaunch(t));
    assert s1.launches[l] == Launch(thread.info, Begun, Some(t)) && s1.threads == s.threads[t := thread.(phase := Relaunching(l))];
    var s2 := Step(s1, MakeHandle(l));
    assert s2.launches[l] == Launch(thread.info, HasHandle, Some(t)) && s2.threads == s1.threads && s2.counter == s.counter + 1;
    var s3 := Step(s2, Spawn(l));
    assert s3.launches[l] == Launch(thread.info, Spawned, Some(t)) && s3.threads == WithThread(s1.threads, s2.launches[l]);
    assert s3.counter == s.counter + 2;
    assert s3.threads[t] == thread.(phase := Relaunching(l), successor := Some(|s.threads|));
  }

  lemma RunAppend(events: seq<Event>, e: Event)
    ensures RunAll(events + [e]) == Step(RunAll(events), e)
  {
    assert (events + [e])[..|events|] == events;
  }

  // ---- the classes ----

  /** `Counter`: constructing or copying a handle adds one, destroying it takes one away. */
  class Counter {
    var counter: nat
    ghost var handles: set<Handle>

    ghost predicate Valid()
      reads this
    {
      counter == |handles|
    }

    constructor ()
      ensures Valid() && handles == {}
    {
      counter, handles := 0, {};
    }

    method Acquire(h: Handle)
      requires Valid() && h !in handles
      modifies this
      ensures Valid() && handles == old(handles) + {h} && counter == old(counter) + 1
    {
      counter, handles := counter + 1, handles + {h};
    }

    /** Whether waiters are notified: exactly when this was the last handle. */
    method Release(h: Handle) returns (empty: bool)
      requires Valid() && h in handles
      modifies this
      ensures Valid() && handles == old(handles) - {h} && counter == old(counter) - 1
      ensures empty <==> handles == {}
    {
      counter, handles := counter - 1, handles - {h};
      empty := counter == 0;
    }

    /** The condition of `wait`. */
    method IsEmpty() returns (empty: bool)
      requires Valid()
      ensures empty <==> handles == {}
    {
      empty := counter == 0;
    }
  }

  class ClientThreads {
    var active: set<Info>
    var client: map<Info, nat>
    var threads: seq<Thread>
    var launches: seq<Launch>
    const counter: Counter
    // All that has happened
    ghost var events: seq<Event>
    ghost var owner: map<Info, Owner>

    ghost function Snapshot(): State
      reads this, counter
    {
      State(active, client, threads, launches, counter.counter, counter.handles, owner)
    }

    /** The threads are in the state which the machine reaches by these events. */
    ghost predicate Valid()
      reads this, counter
    {
      Snapshot() == RunAll(events)
    }

    constructor ()
      ensures Snapshot() == INITIAL && events == [] && Valid() && fresh(counter)
    {
      events := [];
      active, client, threads, launches, owner := {}, map[], [], [], map[];
      counter := new Counter();
    }

    /** So at most one launch is live for each account, whatever has been called on the class. */
    lemma LivesOnce(info: Info)
      requires Valid()
      ensures var live := set t | 0 <= t < |threads| && threads[t].info == info && Live(threads[t]);
              var pending := set l | 0 <= l < |launches| && launches[l].info == info && Pending(launches[l]);
              && (info in active ==> (exists t :: live == {t} && pending == {}) || (exists l :: live == {} && pending == {l}))
              && (info !in active ==> live == {} && pending == {})
      ensures counter.counter == |counter.handles|
    {
      OneLivePerAccount(events, info);
      WaitAllReturnsIff(events);
    }

    /** `ClientInfo::setActive`. */
    method SetActive(info: Info, state: bool) returns (was: bool)
      modifies this`active
      ensures was == (info in old(active))
      ensures active == if state then old(active) + {info} else old(active) - {info}
    {
      was := info in active;
      active := if state then active + {info} else active - {info};
    }

    /** `Client::launch`: only the caller that turns `active` on launches. */
    method LaunchClient(info: Info) returns (launch: Option<nat>)
      requires Valid()
      modifies this
      ensures Snapshot() == Step(old(Snapshot()), Call(info))
      ensures Valid() && events == old(events) + [Call(info)]
      ensures launch == if info in old(active) then None else Some(|old(launches)|)
    {
      RunAppend(events, Call(info));
      events := events + [Call(info)];
      launch := None;
      var was := SetActive(info, true);
      if !was {
        launch := Some(|launches|);
        owner := owner[info := ByLaunch(|launches|)];
        launches := launches + [Launch(info, Begun, None)];
      } else {
        assert active == old(active);
      }
    }

    method MakeClosure(l: nat)
      requires Valid()
      requires l < |launches| && launches[l].stage.Begun?
      modifies this, counter
      ensures Snapshot() == Step(old(Snapshot()), MakeHandle(l))
      ensures Valid() && events == old(events) + [MakeHandle(l)]
    {
      EveryRunKeeps(events);
      RunAppend(events, MakeHandle(l));
      events := events + [MakeHandle(l)];
      counter.Acquire(Closure(l));
      launches := launches[l := launches[l].(stage := HasHandle)];
    }

    /** `std::thread`: the new thread has a copy of the handle in the closure. */
    method StartThread(l: nat)
      requires Valid()
      requires l < |launches| && launches[l].stage.HasHandle?
      modifies this, counter
      ensures Snapshot() == Step(old(Snapshot()), Spawn(l))
      ensures Valid() && events == old(events) + [Spawn(l)]
    {
      EveryRunKeeps(events);
      RunAppend(events, Spawn(l));
      events := events + [Spawn(l)];
      counter.Acquire(Own(|threads|));
      owner := owner[launches[l].info := ByThread(|threads|)];
      threads := WithThread(threads, launches[l]);
      launches := launches[l := launches[l].(stage := Spawned)];
    }

    method EndLaunch(l: nat)
      requires Valid()
      requires l < |launches| && launches[l].stage.Spawned?
      modifies this, counter
      ensures Snapshot() == Step(old(Snapshot()), DropClosure(l))
      ensures Valid() && events == old(events) + [DropClosure(l)]
    {
      EveryRunKeeps(events);
      RunAppend(events, DropClosure(l));
      events := events + [DropClosure(l)];
      var _ := counter.Release(Closure(l));
      if launches[l].parent.Some? {
        threads := SetPhase(threads, launches[l].parent.value, Ending);
      }
      launches := launches[l := launches[l].(stage := Done)];
    }

    method BeginRunning(t: nat)
      requires Valid()
      requires t < |threads| && threads[t].phase.Starting?
      modifies this
      ensures Snapshot() == Step(old(Snapshot()), SetClient(t))
      ensures Valid() && events == old(events) + [SetClient(t)]
    {
      RunAppend(events, SetClient(t));
      events := events + [SetClient(t)];
      client := client[threads[t].info := t];
      threads := SetPhase(threads, t, Running);
    }

    /** `Client::quit`, on a client that exists. */
    method QuitThread(t: nat, restart: bool)
      requires Valid()
      requires t < |threads| && !threads[t].phase.Starting?
      modifies this
      ensures Snapshot() == Step(old(Snapshot()), QuitClient(t, restart))
      ensures Valid() && events == old(events) + [QuitClient(t, restart)]
    {
      RunAppend(events, QuitClient(t, restart));
      events := events + [QuitClient(t, restart)];
      if threads[t].quitMode == NoQuit {
        threads := threads[t := threads[t].(quitMode := if restart then Restart else Quit)];
      }
    }

    /** After the scheduler has seen the last fiber end. */
    method ResetClient(t: nat)
      requires Valid()
      requires t < |threads| && threads[t].phase.Running?
      modifies this
      ensures Snapshot() == Step(old(Snapshot()), ClearClient(t))
      ensures Valid() && events == old(events) + [ClearClient(t)]
    {
      RunAppend(events, ClearClient(t));
      events := events + [ClearClient(t)];
      client := client - {threads[t].info};
      threads := SetPhase(threads, t, Cleared);
    }

    method SwitchOnQuitMode(t: nat)
      requires Valid()
      requires t < |threads| && threads[t].phase.Cleared?
      modifies this
      ensures Snapshot() == Step(old(Snapshot()), Switch(t))
      ensures Valid() && events == old(events) + [Switch(t)]
    {
      RunAppend(events, Switch(t));
      events := events + [Switch(t)];
      if threads[t].quitMode == Restart {
        threads := threads[t := threads[t].(phase := Sleeping, restarts := true)];
      } else {
        var _ := SetActive(threads[t].info, false);
        owner := owner - {threads[t].info};
        threads := SetPhase(threads, t, Ending);
      }
    }

    /** The recursive `launch` of a restart goes without `setActive`. */
    method RelaunchThread(t: nat) returns (l: nat)
      requires Valid()
      requires t < |threads| && threads[t].phase.Sleeping?
      modifies this
      ensures Snapshot() == Step(old(Snapshot()), Relaunch(t))
      ensures Valid() && events == old(events) + [Relaunch(t)]
      ensures l == |old(launches)|
    {
      RunAppend(events, Relaunch(t));
      events := events + [Relaunch(t)];
      l := |launches|;
      owner := owner[threads[t].info := ByLaunch(l)];
      launches := launches + [Launch(threads[t].info, Begun, Some(t))];
      threads := SetPhase(threads, t, Relaunching(l));
    }

    method ExitThread(t: nat)
      requires Valid()
      requires t < |threads| && threads[t].phase.Ending?
      modifies this, counter
      ensures Snapshot() == Step(old(Snapshot()), Exit(t))
      ensures Valid() && events == old(events) + [Exit(t)]
    {
      EveryRunKeeps(events);
      RunAppend(events, Exit(t));
      events := events + [Exit(t)];
      var _ := counter.Release(Own(t));
      threads := SetPhase(threads, t, Gone);
    }
  }
}
