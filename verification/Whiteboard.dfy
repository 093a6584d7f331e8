/** Values by type; a waiter has a flag saying that its value may have changed since it looked. */
module Whiteboards {
  import opened Wrappers
  import opened Subscribers

  /** A change is never hidden: a waiter whose flag is down has seen the current value. */
  ghost predicate Honest<V>(items: map<TypeIndex, V>, types: map<WaiterId, TypeIndex>, hasChanged: map<WaiterId, bool>,
                                lastRead: map<WaiterId, Option<V>>)
  {
    && hasChanged.Keys == types.Keys
    && lastRead.Keys == types.Keys
    && forall w <- types :: !hasChanged[w] ==> lastRead[w] == Get(items, types[w])
  }

  lemma InstallKeepsHonest<V>(items: map<TypeIndex, V>, types: map<WaiterId, TypeIndex>, hasChanged: map<WaiterId, bool>,
                              lastRead: map<WaiterId, Option<V>>, w: WaiterId, key: TypeIndex)
    requires Honest(items, types, hasChanged, lastRead) && w !in types
    ensures Honest(items, types[w := key], hasChanged[w := key in items], lastRead[w := None])
  {
  }

  class Whiteboard<V(!new, ==)> {
    var items: map<TypeIndex, V>
    var waiters: map<TypeIndex, seq<WaiterId>>
    // The live waiters with their types, and the flag inside each of them
    var types: map<WaiterId, TypeIndex>
    var hasChanged: map<WaiterId, bool>

    // What each waiter saw when it last read; absence, before it has read anything
    ghost var lastRead: map<WaiterId, Option<V>>

    ghost predicate Valid()
      reads this
    {
      Consistent(waiters, types) && Honest(items, types, hasChanged, lastRead)
    }

    constructor ()
      ensures Valid() && items == map[] && waiters == map[] && types == map[]
    {
      items, waiters, types, hasChanged, lastRead := map[], map[], map[], map[], map[];
    }

    method DidChange(key: TypeIndex)
      requires Consistent(waiters, types) && hasChanged.Keys == types.Keys
      modifies this`hasChanged, this`waiters
      ensures waiters == old(waiters)
      ensures hasChanged == map w | w in old(hasChanged) :: types[w] == key || old(hasChanged)[w]
    {
      var setChanged := (flag: bool) => true;
      var acted := Action(waiters, key, types.Keys, hasChanged, setChanged);
      ActionReachesLive(waiters, key, types.Keys, hasChanged, setChanged);
      ActionKeepsLiveLists(waiters, key, types.Keys, hasChanged, setChanged);
      waiters, hasChanged := acted.waiters, acted.store;
    }

    method Set(key: TypeIndex, data: V)
      requires Valid()
      modifies this`items, this`hasChanged, this`waiters
      ensures Valid() && items == old(items)[key := data] && waiters == old(waiters)
      ensures hasChanged == map w | w in old(hasChanged) :: types[w] == key || old(hasChanged)[w]
    {
      items := items[key := data];
      DidChange(key);
    }

    method Clear(key: TypeIndex)
      requires Valid()
      modifies this`items, this`hasChanged, this`waiters
      ensures Valid() && items == old(items) - {key} && waiters == old(waiters)
      ensures hasChanged == map w | w in old(hasChanged) :: types[w] == key || old(hasChanged)[w]
    {
      items := items - {key};
      DidChange(key);
    }

    /** `Waiter::install`: the flag starts up exactly when there is a value already. */
    method Install(w: WaiterId, key: TypeIndex)
      requires Valid() && w !in types
      modifies this
      ensures Valid() && items == old(items)
      ensures waiters == old(waiters)[key := Find(old(waiters), key) + [w]]
      ensures types == old(types)[w := key] && lastRead == old(lastRead)[w := None]
      ensures hasChanged == old(hasChanged)[w := key in items]
    {
      InstallKeepsConsistent(waiters, types, w, key);
      InstallKeepsHonest(items, types, hasChanged, lastRead, w, key);
      waiters := waiters[key := Find(waiters, key) + [w]];
      var flag := false;
      if key in items {
        flag := true;
      }
      types, hasChanged, lastRead := types[w := key], hasChanged[w := flag], lastRead[w := None];
    }

    /** `Waiter::has`. */
    method Has(w: WaiterId) returns (data: Option<V>)
      requires Valid() && w in types
      modifies this`hasChanged, this`lastRead
      ensures Valid() && data == Get(items, types[w])
      ensures hasChanged == old(hasChanged)[w := false] && lastRead == old(lastRead)[w := data]
    {
      hasChanged := hasChanged[w := false];
      data := if types[w] in items then Some(items[types[w]]) else None;
      lastRead := lastRead[w := data];
    }

    /** `Waiter::get` with a default. */
    method GetOr(w: WaiterId, def: V) returns (data: V)
      requires Valid() && w in types
      modifies this`hasChanged, this`lastRead
      ensures Valid() && data == (if types[w] in items then items[types[w]] else def)
      ensures hasChanged == old(hasChanged)[w := false] && lastRead == old(lastRead)[w := Get(items, types[w])]
    {
      var current := Has(w);
      data := if current.Some? then current.value else def;
    }

    method Release(w: WaiterId)
      requires Valid() && w in types
      modifies this
      ensures Valid() && items == old(items)
      ensures types == old(types) - {w} && hasChanged == old(hasChanged) - {w} && lastRead == old(lastRead) - {w}
    {
      var acted := Action(waiters, types[w], types.Keys - {w}, hasChanged, NullCallback());
      ReleaseKeepsConsistent(waiters, types, w, hasChanged);
      waiters := acted.waiters;
      types, hasChanged, lastRead := types - {w}, hasChanged - {w}, lastRead - {w};
    }
  }

  datatype Event<V> =
    | SetItem(key: TypeIndex, data: V)
    | ClearItem(key: TypeIndex)
    | InstallWaiter(waiter: WaiterId, key: TypeIndex)
    | Read(waiter: WaiterId)
    | ReleaseWaiter(waiter: WaiterId)

  /** The reference for `items`: the board after a history of sets and clears. */
  ghost function Board<V>(history: seq<Event<V>>): map<TypeIndex, V> {
    if history == [] then map[]
    else
      var before, last := Board(history[..|history| - 1]), history[|history| - 1];
      if last.SetItem? then before[last.key := last.data]
      else if last.ClearItem? then before - {last.key} else before
  }

  /** The live waiters with their types.  Installing a waiter that is live, or anything else with one
      that is not, cannot happen and counts for nothing. */
  ghost function Live<V>(history: seq<Event<V>>): map<WaiterId, TypeIndex> {
    if history == [] then map[]
    else
      var before, last := Live(history[..|history| - 1]), history[|history| - 1];
      if last.InstallWaiter? && last.waiter !in before then before[last.waiter := last.key]
      else if last.ReleaseWaiter? then before - {last.waiter}
      else before
  }

  /** What each live waiter saw when it last read; absence, before it has read anything. */
  ghost function Seen<V>(history: seq<Event<V>>): map<WaiterId, Option<V>> {
    if history == [] then map[]
    else
      var rest, last := history[..|history| - 1], history[|history| - 1];
      if last.InstallWaiter? && last.waiter !in Live(rest) then Seen(rest)[last.waiter := None]
      else if last.Read? && last.waiter in Live(rest) then Seen(rest)[last.waiter := Get(Board(rest), Live(rest)[last.waiter])]
      else if last.ReleaseWaiter? then Seen(rest) - {last.waiter}
      else Seen(rest)
  }

  /** Any history, run on a fresh board: the board shows the latest values, and a waiter whose flag is
      down has seen the current one. */
  method Replay<V(!new, ==)>(events: seq<Event<V>>) returns (board: Whiteboard<V>)
    ensures fresh(board) && board.Valid() && board.items == Board(events)
    ensures board.types == Live(events) && board.lastRead == Seen(events)
    ensures forall w <- Live(events) ::
              && w in board.hasChanged && w in Seen(events)
              && (!board.hasChanged[w] ==> Seen(events)[w] == Get(Board(events), Live(events)[w]))
  {
    board := new Whiteboard<V>();
    PerformAll(board, events);
    HonestSaid(board.items, board.types, board.hasChanged, board.lastRead);
  }

  method PerformAll<V(!new, ==)>(board: Whiteboard<V>, events: seq<Event<V>>)
    requires board.Valid() && board.items == map[] && board.types == map[]
    modifies board
    ensures board.Valid() && board.items == Board(events)
    ensures board.types == Live(events) && board.lastRead == Seen(events)
  {
    assert events[..0] == [];
    for i := 0 to |events|
      invariant board.Valid() && board.items == Board(events[..i])
      invariant board.types == Live(events[..i]) && board.lastRead == Seen(events[..i])
    {
      assert events[..i + 1] == events[..i] + [events[i]];
      Perform(board, events[..i], events[i]);
    }
    assert events[..|events|] == events;
  }

  lemma HonestSaid<V>(items: map<TypeIndex, V>, types: map<WaiterId, TypeIndex>, hasChanged: map<WaiterId, bool>,
                      lastRead: map<WaiterId, Option<V>>)
    requires Honest(items, types, hasChanged, lastRead)
    ensures forall w <- types ::
              w in hasChanged && w in lastRead && (!hasChanged[w] ==> lastRead[w] == Get(items, types[w]))
  {
  }

  method Perform<V(!new, ==)>(board: Whiteboard<V>, ghost before: seq<Event<V>>, event: Event<V>)
    requires board.Valid() && board.items == Board(before)
    requires board.types == Live(before) && board.lastRead == Seen(before)
    modifies board
    ensures board.Valid() && board.items == Board(before + [event])
    ensures board.types == Live(before + [event]) && board.lastRead == Seen(before + [event])
  {
    assert (before + [event])[..|before|] == before;
    match event
    case SetItem(k, d) => board.Set(k, d);
    case ClearItem(k) => board.Clear(k);
    case InstallWaiter(w, k) => if w !in board.types { board.Install(w, k); }
    case Read(w) => if w in board.types { var _ := board.Has(w); }
    case ReleaseWaiter(w) =>
      if w in board.types {
        board.Release(w);
      } else {
        assert board.types - {w} == board.types && board.lastRead - {w} == board.lastRead;
      }
  }
}
