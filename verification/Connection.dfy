/** The write side of a connection: packets from any thread, a drain task posted to the Asio thread
    for each, and one fiber there that writes them.  Each block under the mutex, and each stretch
    of Asio-thread code between two points where a fiber can yield, is one step. */
module Connection {
  import Sequences

  type Packet = nat

  datatype Status = Connecting | Connected | GotEOF | Error

  /** Where a draining fiber is: about to look at the status, about to take a packet, or writing one. */
  datatype Fiber = Checking | Taking | Writing(packet: Packet)

  /** `unposted` counts the calls of `writePacket` between pushing and posting, `posted` the drain
      tasks that have not run.  `accepted` lists all packets with whether they were handed in while
      connected; `wire` the ones written, `lost` those whose write failed. */
  datatype State = State(
    status: Status, writePackets: seq<Packet>, writingPackets: bool, fibers: seq<Fiber>,
    unposted: nat, posted: nat, accepted: seq<(Packet, bool)>, wire: seq<Packet>, lost: seq<Packet>)

  const INITIAL := State(Connecting, [], false, [], 0, 0, [], [], [])

  datatype Written = Fine | EndOfFile | Failed

  datatype Event =
    | Push(packet: Packet)                // `writePacket`, under the mutex
    | Post                                // the rest of `writePacket`
    | Task                                // a posted drain task runs
    | Check(fiber: nat)                   // `doWritePackets` looks at the status
    | Take(fiber: nat)                    // ... takes a packet
    | Write(fiber: nat, result: Written)  // ... and its write ends
    | Connect                             // the connection is made
    | ReadEOF                             // the reader finds the remote end closed

  function Without<T>(s: seq<T>, i: nat): seq<T>
    requires i < |s|
  {
    s[..i] + s[i + 1..]
  }

  /** The fiber leaves `doWritePackets` and clears the flag. */
  function Ended(s: State, i: nat): State
    requires i < |s.fibers|
  {
    s.(fibers := Without(s.fibers, i), writingPackets := false)
  }

  function Step(s: State, e: Event): State {
    match e
    case Push(p) =>
      s.(writePackets := s.writePackets + [p], accepted := s.accepted + [(p, s.status == Connected)], unposted := s.unposted + 1)
    case Post =>
      if s.unposted == 0 then s else s.(unposted := s.unposted - 1, posted := s.posted + 1)
    case Task =>
      if s.posted == 0 then s
      else if s.writingPackets || s.writePackets == [] then s.(posted := s.posted - 1)
      else s.(posted := s.posted - 1, writingPackets := true, fibers := s.fibers + [Checking])
    case Check(i) =>
      if i >= |s.fibers| || !s.fibers[i].Checking? then s
      else if s.status == Connected then s.(fibers := s.fibers[i := Taking])
      else Ended(s, i)
    case Take(i) =>
      if i >= |s.fibers| || !s.fibers[i].Taking? then s
      else if s.writePackets == [] then Ended(s, i)
      else s.(writePackets := s.writePackets[1..], fibers := s.fibers[i := Writing(s.writePackets[0])])
    case Write(i, result) =>
      if i >= |s.fibers| || !s.fibers[i].Writing? then s
      else
        var next := s.(fibers := s.fibers[i := Checking]);
        if result.Fine? then next.(wire := s.wire + [s.fibers[i].packet])
        else next.(lost := s.lost + [s.fibers[i].packet], status := if result.EndOfFile? then GotEOF else Error)
    case Connect =>
      if s.status == Connecting then s.(status := Connected) else s
    case ReadEOF =>
      if s.status == Connecting then s else s.(status := GotEOF)
  }

  function Run(events: seq<Event>): State {
    if events == [] then INITIAL else Step(Run(events[..|events| - 1]), events[|events| - 1])
  }

  ghost function InHand(s: State): seq<Packet> {
    if s.fibers != [] && s.fibers[0].Writing? then [s.fibers[0].packet] else []
  }

  ghost function Packets(accepted: seq<(Packet, bool)>): seq<Packet> {
    if accepted == [] then [] else Packets(accepted[..|accepted| - 1]) + [accepted[|accepted| - 1].0]
  }

  /** Never more than one fiber drains, and the flag says whether one does. */
  ghost predicate SingleWriter(s: State) {
    |s.fibers| == if s.writingPackets then 1 else 0
  }

  /** Nothing is reordered, duplicated or skipped, except for one packet whose write failed, and
      nothing is written after that one, because the connection is never connected again. */
  ghost predicate InOrder(s: State) {
    && Packets(s.accepted) == s.wire + s.lost + InHand(s) + s.writePackets
    && |s.lost| <= 1
    && (s.lost != [] ==> s.status != Connected && s.status != Connecting && InHand(s) == [])
    && (s.lost != [] && s.fibers != [] ==> s.fibers[0] == Checking)
    && (s.status == Connecting ==> s.wire == [] && InHand(s) == [] && (s.fibers != [] ==> s.fibers[0] == Checking))
  }

  /** Accepted packet `i` is still in the queue, and was handed in while connected. */
  ghost predicate WaitingSinceConnected(s: State, i: nat) {
    |s.accepted| - |s.writePackets| <= i < |s.accepted| && s.accepted[i].1
  }

  /** Nothing handed in while connected is forgotten: someone drains, or will look. */
  ghost predicate Attended(s: State) {
    s.status == Connected && s.writePackets != [] && s.accepted != [] && s.accepted[|s.accepted| - 1].1 ==>
      s.writingPackets || s.posted + s.unposted > 0
  }

  /** While connected, what was handed in while connected came after all that was not. */
  ghost predicate ConnectedLast(s: State) {
    s.status == Connected ==> forall i, j | 0 <= i < j < |s.accepted| :: s.accepted[i].1 ==> s.accepted[j].1
  }

  /** Before the connection is made, nothing has been handed in while connected. */
  ghost predicate EarlyPackets(s: State) {
    s.status == Connecting ==> forall a <- s.accepted :: !a.1
  }

  ghost predicate Invariant(s: State) {
    SingleWriter(s) && InOrder(s) && Attended(s) && EarlyPackets(s) && ConnectedLast(s)
  }

  lemma PacketsAppend(accepted: seq<(Packet, bool)>, a: (Packet, bool))
    ensures Packets(accepted + [a]) == Packets(accepted) + [a.0]
  {
    assert (accepted + [a])[..|accepted|] == accepted;
  }

  lemma {:induction false} PacketsSize(accepted: seq<(Packet, bool)>)
    ensures |Packets(accepted)| == |accepted|
  {
    if accepted != [] {
      PacketsSize(accepted[..|accepted| - 1]);
    }
  }

  lemma PushKeeps(s: State, p: Packet)
    requires Invariant(s)
    ensures Invariant(Step(s, Push(p)))
  {
    PacketsAppend(s.accepted, (p, s.status == Connected));
    Sequences.Associative(s.wire + s.lost + InHand(s), s.writePackets, [p]);
    assert InHand(Step(s, Push(p))) == InHand(s);
  }

  lemma TakeKeeps(s: State, i: nat)
    requires Invariant(s) && i < |s.fibers| && s.fibers[i].Taking?
    ensures Invariant(Step(s, Take(i)))
  {
    var s' := Step(s, Take(i));
    if s.writePackets != [] {
      assert InHand(s') == [s.writePackets[0]];
      assert s.wire + s.lost + [] + s.writePackets == s'.wire + s'.lost + InHand(s') + s'.writePackets;
    }
  }

  lemma WriteKeeps(s: State, i: nat, result: Written)
    requires Invariant(s) && i < |s.fibers| && s.fibers[i].Writing?
    ensures Invariant(Step(s, Write(i, result)))
  {
    var s', p := Step(s, Write(i, result)), s.fibers[i].packet;
    assert InHand(s) == [p] && InHand(s') == [];
    assert s.lost == [];
    assert s.wire + s.lost + [p] + s.writePackets == s'.wire + s'.lost + InHand(s') + s'.writePackets;
  }

  lemma TaskKeeps(s: State)
    requires Invariant(s)
    ensures Invariant(Step(s, Task))
  {
    assert InHand(Step(s, Task)) == InHand(s);
  }

  lemma CheckKeeps(s: State, i: nat)
    requires Invariant(s)
    ensures Invariant(Step(s, Check(i)))
  {
    assert InHand(Step(s, Check(i))) == InHand(s);
  }

  lemma OthersKeep(s: State, e: Event)
    requires Invariant(s) && (e.Post? || e.Connect? || e.ReadEOF?)
    ensures Invariant(Step(s, e))
  {
    assert InHand(Step(s, e)) == InHand(s);
  }

  lemma {:induction false} StepKeeps(s: State, e: Event)
    requires Invariant(s)
    ensures Invariant(Step(s, e))
  {
    match e
    case Push(p) => PushKeeps(s, p);
    case Take(i) => if i < |s.fibers| && s.fibers[i].Taking? { TakeKeeps(s, i); }
    case Write(i, result) => if i < |s.fibers| && s.fibers[i].Writing? { WriteKeeps(s, i, result); }
    case Task => TaskKeeps(s);
    case Check(i) => CheckKeeps(s, i);
    case _ => OthersKeep(s, e);
  }

  lemma {:induction false} EveryRunKeeps(events: seq<Event>)
    ensures Invariant(Run(events))
  {
    if events != [] {
      EveryRunKeeps(events[..|events| - 1]);
      StepKeeps(Run(events[..|events| - 1]), events[|events| - 1]);
    }
  }

  /** The write side in every run: one draining fiber at most; what is on the wire is a prefix, in
      order, of what was accepted; and while connected, every packet in the queue that was handed in
      while connected has someone to drain it. */
  lemma {:induction false} WritePump(events: seq<Event>)
    ensures var s := Run(events);
            && |s.fibers| <= 1
            && s.wire <= Packets(s.accepted)
            && |Packets(s.accepted)| == |s.accepted| >= |s.writePackets|
            && Packets(s.accepted)[|s.accepted| - |s.writePackets|..] == s.writePackets
            && forall i | WaitingSinceConnected(s, i) ::
                 s.status == Connected ==> s.writingPackets || s.posted + s.unposted > 0
  {
    EveryRunKeeps(events);
    var s := Run(events);
    Sequences.PrefixOfSum(s.wire, s.lost, InHand(s), s.writePackets);
    PacketsSize(s.accepted);
    Sequences.SuffixOfSum(s.wire + s.lost + InHand(s), s.writePackets);
  }

  /** The packets accounted for are just those that `writePacket` was called with, and each is recorded as
      handed in while connected if and only if the connection was connected then. */
  lemma AcceptedWhenWritten(s: State, e: Event)
    ensures Step(s, e).accepted == if e.Push? then s.accepted + [(e.packet, s.status == Connected)] else s.accepted
  {
  }

  /** How a write ends: the packet is on the wire; or it is lost, and the connection has reached its end, or
      is in error after any other failure. */
  lemma WriteHasEffect(events: seq<Event>, p: Packet, result: Written)
    requires Run(events).fibers == [Writing(p)]
    ensures var s, s' := Run(events), Step(Run(events), Write(0, result));
            && s'.fibers == [Checking] && s'.writePackets == s.writePackets
            && (result == Fine ==> s'.wire == s.wire + [p] && s'.status == s.status && s'.lost == s.lost)
            && (result == EndOfFile ==> s'.wire == s.wire && s'.status == GotEOF && s'.lost == s.lost + [p])
            && (result == Failed ==> s'.wire == s.wire && s'.status == Error && s'.lost == s.lost + [p])
  {
  }

  /** Otherwise the status changes only from connecting to connected, and to end of file. */
  lemma StatusChanges(s: State, e: Event)
    ensures Step(s, Connect).status == if s.status == Connecting then Connected else s.status
    ensures Step(s, ReadEOF).status == if s.status == Connecting then Connecting else GotEOF
    ensures !e.Connect? && !e.ReadEOF? && !e.Write? ==> Step(s, e).status == s.status
  {
  }

  /** A connection that has failed or ended is never connected again. */
  lemma {:induction false} NeverConnectedAgain(events: seq<Event>, more: seq<Event>)
    requires Run(events).status == GotEOF || Run(events).status == Error
    ensures Run(events + more).status == GotEOF || Run(events + more).status == Error
    decreases more
  {
    if more == [] {
      assert events + more == events;
    } else {
      var prefix, e := events + more[..|more| - 1], more[|more| - 1];
      NeverConnectedAgain(events, more[..|more| - 1]);
      StatusChanges(Run(prefix), e);
      assert events + more == prefix + [e];
      RunAppend(prefix, e);
    }
  }

  /** Taking a packet off the queue and putting it on the wire, as often as there are packets. */
  function Drained(s: State): State
    requires s.fibers == [Checking] && s.status == Connected
    decreases |s.writePackets|
  {
    var taking := Step(s, Check(0));
    if s.writePackets == [] then Step(taking, Take(0)) else Drained(Step(Step(taking, Take(0)), Write(0, Fine)))
  }

  lemma {:induction false} DrainedEmptiesQueue(s: State)
    requires s.fibers == [Checking] && s.status == Connected
    ensures var s' := Drained(s); s'.writePackets == [] && s'.wire == s.wire + s.writePackets && s'.fibers == [] && !s'.writingPackets
    decreases |s.writePackets|
  {
    if s.writePackets == [] {
      assert s.wire + [] == s.wire;
    } else {
      var next := Step(Step(Step(s, Check(0)), Take(0)), Write(0, Fine));
      DrainedEmptiesQueue(next);
      Sequences.Associative(s.wire, [s.writePackets[0]], s.writePackets[1..]);
      assert [s.writePackets[0]] + s.writePackets[1..] == s.writePackets;
    }
  }

  /** A packet written to an idle connection whose writes succeed: its drain task and the fiber it
      starts, left to themselves.  */
  function WriteOne(s: State, p: Packet): State
    requires s.fibers == [] && !s.writingPackets && s.unposted == 0
  {
    var tasked := Step(Step(Step(s, Push(p)), Post), Task);
    if tasked.status == Connected then Drained(tasked) else Step(tasked, Check(0))
  }

  /** It gets the packet, and any that were stuck before it, onto the wire exactly when the
      connection is connected; before that the packet stays behind with nobody to attend to it. */
  lemma DeliveredIffConnected(s: State, p: Packet)
    requires s.fibers == [] && !s.writingPackets && s.unposted == 0
    ensures var s' := WriteOne(s, p);
            && (s'.wire == s.wire + s.writePackets + [p] <==> s.status == Connected)
            && (s.status != Connected ==> s'.writePackets == s.writePackets + [p] && !s'.writingPackets && s'.posted == s.posted)
  {
    var tasked := Step(Step(Step(s, Push(p)), Post), Task);
    assert tasked.fibers == [Checking];
    assert s.wire + (s.writePackets + [p]) == s.wire + s.writePackets + [p];
    if s.status == Connected {
      DrainedEmptiesQueue(tasked);
    } else {
      assert |s.wire| != |s.wire + s.writePackets + [p]|;
    }
  }

  lemma RunAppend(events: seq<Event>, e: Event)
    ensures Run(events + [e]) == Step(Run(events), e)
  {
    assert (events + [e])[..|events|] == events;
  }

  /** So if the drain task runs before the connection is made, connecting does not send what was written
      too early: the queue is not empty, the status is connected, and nobody drains. */
  lemma EarlyPacketIsStuck(p: Packet)
    ensures var s := Run([Push(p)] + [Post] + [Task] + [Check(0)] + [Connect]);
            s.status == Connected && s.writePackets == [p] && !s.writingPackets && s.posted + s.unposted == 0
  {
    RunAppend([], Push(p));
    assert [] + [Push(p)] == [Push(p)];
    RunAppend([Push(p)], Post);
    RunAppend([Push(p)] + [Post], Task);
    RunAppend([Push(p)] + [Post] + [Task], Check(0));
    RunAppend([Push(p)] + [Post] + [Task] + [Check(0)], Connect);
    var tasked := Step(Step(Step(INITIAL, Push(p)), Post), Task);
    assert tasked.fibers == [Checking] && tasked.writePackets == [p] && tasked.posted == 0;
  }

  /** If it runs afterwards, the early packet gets out as well. */
  lemma EarlyPacketIsWritten(p: Packet)
    ensures Run([Push(p)] + [Connect] + [Post] + [Task] + [Check(0)] + [Take(0)] + [Write(0, Fine)]).wire == [p]
  {
    RunAppend([], Push(p));
    assert [] + [Push(p)] == [Push(p)];
    RunAppend([Push(p)], Connect);
    RunAppend([Push(p)] + [Connect], Post);
    RunAppend([Push(p)] + [Connect] + [Post], Task);
    RunAppend([Push(p)] + [Connect] + [Post] + [Task], Check(0));
    RunAppend([Push(p)] + [Connect] + [Post] + [Task] + [Check(0)], Take(0));
    RunAppend([Push(p)] + [Connect] + [Post] + [Task] + [Check(0)] + [Take(0)], Write(0, Fine));
    var posted := Step(Step(Step(INITIAL, Push(p)), Connect), Post);
    assert posted == State(Connected, [p], false, [], 0, 1, [(p, false)], [], []);
    var tasked := Step(posted, Task);
    assert tasked == posted.(writingPackets := true, fibers := [Checking], posted := 0);
    var taken := Step(Step(tasked, Check(0)), Take(0));
    assert taken == tasked.(fibers := [Writing(p)], writePackets := []);
  }

  // ---- the class ----

  class Connection {
    var status: Status
    var writePackets: seq<Packet>
    var writingPackets: bool
    var fibers: seq<Fiber>
    var unposted: nat
    var posted: nat
    // All that has happened
    ghost var events: seq<Event>
    ghost var accepted: seq<(Packet, bool)>
    ghost var wire: seq<Packet>
    ghost var lost: seq<Packet>

    ghost function Snapshot(): State
      reads this
    {
      State(status, writePackets, writingPackets, fibers, unposted, posted, accepted, wire, lost)
    }

    /** The connection is in the state which the machine reaches by these events. */
    ghost predicate Valid()
      reads this
    {
      Snapshot() == Run(events)
    }

    constructor ()
      ensures Snapshot() == INITIAL && events == [] && Valid()
    {
      events := [];
      status, writePackets, writingPackets, fibers := Connecting, [], false, [];
      unposted, posted, accepted, wire, lost := 0, 0, [], [], [];
    }

    /** So the class is a write pump, whatever has been called on it. */
    lemma Pumps()
      requires Valid()
      ensures |fibers| <= 1 && wire <= Packets(accepted)
      ensures forall i | WaitingSinceConnected(Snapshot(), i) ::
                status == Connected ==> writingPackets || posted + unposted > 0
    {
      WritePump(events);
    }

    /** `writePacket` up to the end of the block under the mutex. */
    method WritePacket(packet: Packet)
      requires Valid()
      modifies this
      ensures Snapshot() == Step(old(Snapshot()), Push(packet))
      ensures Valid() && events == old(events) + [Push(packet)]
    {
      RunAppend(events, Push(packet));
      events := events + [Push(packet)];
      accepted := accepted + [(packet, status == Connected)];
      writePackets := writePackets + [packet];
      unposted := unposted + 1;
    }

    method PostTask()
      requires Valid()
      requires unposted > 0
      modifies this
      ensures Snapshot() == Step(old(Snapshot()), Post)
      ensures Valid() && events == old(events) + [Post]
    {
      RunAppend(events, Post);
      events := events + [Post];
      unposted, posted := unposted - 1, posted + 1;
    }

    /** The posted task. */
    method DrainTask()
      requires Valid()
      requires posted > 0
      modifies this
      ensures Snapshot() == Step(old(Snapshot()), Task)
      ensures Valid() && events == old(events) + [Task]
    {
      RunAppend(events, Task);
      events := events + [Task];
      posted := posted - 1;
      if !writingPackets {
        var empty := writePackets == [];
        if !empty {
          writingPackets := true;
          fibers := fibers + [Checking];
        }
      }
    }

    method EndFiber(i: nat)
      requires i < |fibers|
      modifies this`fibers, this`writingPackets
      ensures Snapshot() == Ended(old(Snapshot()), i)
    {
      fibers := fibers[..i] + fibers[i + 1..];
      writingPackets := false;
    }

    /** The loop condition of `doWritePackets`. */
    method CheckStatus(i: nat)
      requires Valid()
      requires i < |fibers| && fibers[i].Checking?
      modifies this
      ensures Snapshot() == Step(old(Snapshot()), Check(i))
      ensures Valid() && events == old(events) + [Check(i)]
    {
      RunAppend(events, Check(i));
      events := events + [Check(i)];
      if status == Connected {
        fibers := fibers[i := Taking];
      } else {
        EndFiber(i);
      }
    }

    method TakePacket(i: nat)
      requires Valid()
      requires i < |fibers| && fibers[i].Taking?
      modifies this
      ensures Snapshot() == Step(old(Snapshot()), Take(i))
      ensures Valid() && events == old(events) + [Take(i)]
    {
      RunAppend(events, Take(i));
      events := events + [Take(i)];
      if writePackets == [] {
        EndFiber(i);
      } else {
        var packet := writePackets[0];
        writePackets := writePackets[1..];
        fibers := fibers[i := Writing(packet)];
      }
    }

    /** The write succeeds or throws. */
    method WriteEnds(i: nat, result: Written)
      requires Valid()
      requires i < |fibers| && fibers[i].Writing?
      modifies this
      ensures Snapshot() == Step(old(Snapshot()), Write(i, result))
      ensures Valid() && events == old(events) + [Write(i, result)]
    {
      RunAppend(events, Write(i, result));
      events := events + [Write(i, result)];
      match result {
        case Fine =>
          wire := wire + [fibers[i].packet];
        case EndOfFile =>
          lost := lost + [fibers[i].packet];
          status := GotEOF;
        case Failed =>
          lost := lost + [fibers[i].packet];
          status := Error;
      }
      fibers := fibers[i := Checking];
    }

    /** The status changes the rest of the module makes. */
    method SetStatus(newStatus: Status)
      requires Valid()
      requires newStatus == if status == Connecting then Connected else GotEOF
      modifies this`status, this`events
      ensures Snapshot() == Step(old(Snapshot()), if newStatus == Connected then Connect else ReadEOF)
      ensures Valid() && events == old(events) + [if newStatus == Connected then Connect else ReadEOF]
    {
      RunAppend(events, if newStatus == Connected then Connect else ReadEOF);
      events := events + [if newStatus == Connected then Connect else ReadEOF];
      status := newStatus;
    }
  }
}
