/** Messages by type, delivered to every registered waiter of that type. */
module Messageboards {
  import opened Wrappers
  import opened Subscribers

  datatype Event<M> = Installed(waiter: WaiterId, key: TypeIndex) | Sent(key: TypeIndex, message: M)

  /** The reference: what a waiter of type `key` must have been given, that is everything sent for
      this type since the waiter's latest installation, in send order. */
  ghost function SentSince<M>(history: seq<Event<M>>, w: WaiterId, key: TypeIndex): seq<M> {
    if history == [] then []
    else
      var before, last := SentSince(history[..|history| - 1], w, key), history[|history| - 1];
      if last.Installed? then (if last.waiter == w then [] else before)
      else if last.key == key then before + [last.message] else before
  }

  lemma SentSinceStep<M>(history: seq<Event<M>>, e: Event<M>, w: WaiterId, key: TypeIndex)
    ensures SentSince(history + [e], w, key) ==
            if e.Installed? then (if e.waiter == w then [] else SentSince(history, w, key))
            else if e.key == key then SentSince(history, w, key) + [e.message] else SentSince(history, w, key)
  {
    assert (history + [e])[..|history + [e]| - 1] == history;
  }

  ghost function Due<M>(history: seq<Event<M>>): (WaiterId, TypeIndex) -> seq<M> {
    (w: WaiterId, key: TypeIndex) => SentSince(history, w, key)
  }

  /** Nothing is lost, duplicated or reordered: for every live waiter, what it has consumed
      followed by what is queued is what it is due. */
  ghost predicate Complete<M>(types: map<WaiterId, TypeIndex>, messages: map<WaiterId, seq<M>>,
                              consumed: map<WaiterId, seq<M>>, due: (WaiterId, TypeIndex) -> seq<M>)
  {
    && messages.Keys == types.Keys
    && consumed.Keys == types.Keys
    && forall w <- types :: consumed[w] + messages[w] == due(w, types[w])
  }

  lemma InstallKeepsComplete<M>(types: map<WaiterId, TypeIndex>, messages: map<WaiterId, seq<M>>,
                                consumed: map<WaiterId, seq<M>>, history: seq<Event<M>>, w: WaiterId, key: TypeIndex)
    requires Complete(types, messages, consumed, Due(history)) && w !in types
    ensures Complete(types[w := key], messages[w := []], consumed[w := []], Due(history + [Installed(w, key)]))
  {
    var types' := types[w := key];
    forall v <- types' {
      SentSinceStep(history, Installed(w, key), v, types'[v]);
    }
  }

  function Delivered<M>(types: map<WaiterId, TypeIndex>, messages: map<WaiterId, seq<M>>, key: TypeIndex, message: M): map<WaiterId, seq<M>>
    requires messages.Keys == types.Keys
  {
    map w | w in messages :: if types[w] == key then messages[w] + [message] else messages[w]
  }

  lemma SendKeepsComplete<M>(types: map<WaiterId, TypeIndex>, messages: map<WaiterId, seq<M>>,
                             consumed: map<WaiterId, seq<M>>, history: seq<Event<M>>, key: TypeIndex, message: M)
    requires Complete(types, messages, consumed, Due(history))
    ensures Complete(types, Delivered(types, messages, key, message), consumed, Due(history + [Sent(key, message)]))
  {
    var messages' := Delivered(types, messages, key, message);
    forall w <- types
      ensures consumed[w] + messages'[w] == SentSince(history + [Sent(key, message)], w, types[w])
    {
      SentSinceStep(history, Sent(key, message), w, types[w]);
      assert consumed[w] + (messages[w] + [message]) == (consumed[w] + messages[w]) + [message];
    }
  }

  lemma ActionDelivers<M(!new)>(waiters: map<TypeIndex, seq<WaiterId>>, types: map<WaiterId, TypeIndex>,
                                messages: map<WaiterId, seq<M>>, key: TypeIndex, message: M, received: seq<M> -> seq<M>)
    requires Consistent(waiters, types) && messages.Keys == types.Keys
    requires forall queue :: received(queue) == queue + [message]
    ensures Action(waiters, key, types.Keys, messages, received) ==
            Acted(waiters, Delivered(types, messages, key, message), |set w | w in types && types[w] == key|)
  {
    ActionReachesLive(waiters, key, types.Keys, messages, received);
    ActionKeepsLiveLists(waiters, key, types.Keys, messages, received);
    var reached := Reached(Find(waiters, key), types.Keys);
    assert reached == set w | w in types && types[w] == key;
    assert Updated(messages, reached, received) == Delivered(types, messages, key, message);
  }

  lemma ReleaseKeepsComplete<M>(types: map<WaiterId, TypeIndex>, messages: map<WaiterId, seq<M>>, consumed: map<WaiterId, seq<M>>,
                                due: (WaiterId, TypeIndex) -> seq<M>, w: WaiterId)
    requires Complete(types, messages, consumed, due)
    ensures Complete(types - {w}, messages - {w}, consumed - {w}, due)
  {
  }

  lemma TakeKeepsComplete<M>(types: map<WaiterId, TypeIndex>, messages: map<WaiterId, seq<M>>, consumed: map<WaiterId, seq<M>>,
                             due: (WaiterId, TypeIndex) -> seq<M>, w: WaiterId, n: nat)
    requires Complete(types, messages, consumed, due) && w in types && n <= |messages[w]|
    ensures Complete(types, messages[w := messages[w][n..]], consumed[w := consumed[w] + messages[w][..n]], due)
  {
    var c, m := consumed[w], messages[w];
    assert (c + m[..n]) + m[n..] == c + m;
  }

  /** A waiter has always fetched a prefix of what was sent since its installation, and its queue
      is empty, so that `fetch` returns null, exactly when it has fetched all of it. */
  lemma FetchedInOrder<M>(types: map<WaiterId, TypeIndex>, messages: map<WaiterId, seq<M>>,
                          consumed: map<WaiterId, seq<M>>, history: seq<Event<M>>, w: WaiterId)
    requires Complete(types, messages, consumed, Due(history)) && w in types
    ensures consumed[w] <= SentSince(history, w, types[w])
    ensures messages[w] == [] <==> consumed[w] == SentSince(history, w, types[w])
  {
    assert consumed[w] + messages[w] == Due(history)(w, types[w]);
    assert messages[w] == [] ==> consumed[w] + messages[w] == consumed[w];
  }

  lemma NothingTaken<M>(messages: map<WaiterId, seq<M>>, consumed: map<WaiterId, seq<M>>, w: WaiterId)
    requires w in messages && w in consumed
    ensures messages == messages[w := messages[w][0..]] && consumed == consumed[w := consumed[w] + messages[w][..0]]
  {
    assert messages[w][0..] == messages[w] && consumed[w] + messages[w][..0] == consumed[w];
  }

  lemma OneMoreTaken<M>(messages: map<WaiterId, seq<M>>, consumed: map<WaiterId, seq<M>>, w: WaiterId,
                        queue: seq<M>, eaten: seq<M>, count: nat)
    requires count <= |queue|
    ensures count < |queue| ==>
              && queue[count..] != [] && queue[count..][0] == queue[count]
              && messages[w := queue[count..]][w := queue[count..][1..]] == messages[w := queue[count + 1..]]
              && consumed[w := eaten + queue[..count]][w := (eaten + queue[..count]) + [queue[count]]]
              == consumed[w := eaten + queue[..count + 1]]
  {
    if count < |queue| {
      assert queue[count..][1..] == queue[count + 1..];
      assert eaten + queue[..count + 1] == (eaten + queue[..count]) + [queue[count]];
    }
  }

  class Messageboard<M(!new)> {
    var waiters: map<TypeIndex, seq<WaiterId>>
    // The live waiters with their types, and the message queue inside each of them
    var types: map<WaiterId, TypeIndex>
    var messages: map<WaiterId, seq<M>>

    ghost var history: seq<Event<M>>
    ghost var consumed: map<WaiterId, seq<M>>

    ghost predicate Valid()
      reads this
    {
      Consistent(waiters, types) && Complete(types, messages, consumed, Due(history))
    }

    constructor ()
      ensures Valid() && waiters == map[] && types == map[] && history == []
    {
      waiters, types, messages := map[], map[], map[];
      history, consumed := [], map[];
    }

    /** `Waiter::install`, for a waiter just created. */
    method Install(w: WaiterId, key: TypeIndex)
      requires Valid() && w !in types
      modifies this
      ensures Valid()
      ensures waiters == old(waiters)[key := Find(old(waiters), key) + [w]]
      ensures types == old(types)[w := key] && messages == old(messages)[w := []]
      ensures history == old(history) + [Installed(w, key)] && consumed == old(consumed)[w := []]
    {
      InstallKeepsConsistent(waiters, types, w, key);
      InstallKeepsComplete(types, messages, consumed, history, w, key);
      waiters := waiters[key := Find(waiters, key) + [w]];
      types, messages := types[w := key], messages[w := []];
      history, consumed := history + [Installed(w, key)], consumed[w := []];
    }

    /** Every live waiter of the type gets the message once; the result is their number. */
    method Send(key: TypeIndex, message: M) returns (count: nat)
      requires Valid()
      modifies this`messages, this`waiters, this`history
      ensures Valid()
      ensures messages == Delivered(types, old(messages), key, message)
      ensures count == |set w | w in types && types[w] == key|
      ensures waiters == old(waiters) && history == old(history) + [Sent(key, message)]
    {
      var received: seq<M> -> seq<M> := queue => queue + [message];
      var acted := Action(waiters, key, types.Keys, messages, received);
      ActionDelivers(waiters, types, messages, key, message, received);
      SendKeepsComplete(types, messages, consumed, history, key, message);
      waiters, messages, count := acted.waiters, acted.store, acted.calls;
      history := history + [Sent(key, message)];
    }

    /** The next message in send order, or null: see FetchedInOrder for what `Valid` makes of it. */
    method Fetch(w: WaiterId) returns (message: Option<M>)
      requires Valid() && w in types
      modifies this`messages, this`consumed
      ensures Valid()
      ensures message == if old(messages)[w] == [] then None else Some(old(messages)[w][0])
      ensures messages == if message.None? then old(messages) else old(messages)[w := old(messages)[w][1..]]
      ensures consumed == if message.None? then old(consumed) else old(consumed)[w := old(consumed)[w] + [message.value]]
    {
      var queue := messages[w];
      TakeKeepsComplete(types, messages, consumed, Due(history), w, if queue == [] then 0 else 1);
      if queue != [] {
        message := Some(queue[0]);
        assert queue[..1] == [queue[0]];
        messages := messages[w := queue[1..]];
        consumed := consumed[w := consumed[w] + queue[..1]];
      } else {
        message := None;
      }
    }

    /** `handle`: feed the handler one message, or all of them, from the front. */
    method Handle(w: WaiterId, one: bool) returns (count: nat)
      requires Valid() && w in types
      modifies this`messages, this`consumed
      ensures Valid()
      ensures count == if one && old(messages)[w] != [] then 1 else |old(messages)[w]|
      ensures messages == old(messages)[w := old(messages)[w][count..]]
      ensures consumed == old(consumed)[w := old(consumed)[w] + old(messages)[w][..count]]
    {
      ghost var queue, eaten := messages[w], consumed[w];
      NothingTaken(messages, consumed, w);
      count := 0;
      while true
        invariant Valid() && count <= |queue|
        invariant messages == old(messages)[w := queue[count..]]
        invariant consumed == old(consumed)[w := eaten + queue[..count]]
        invariant one ==> count == 0
        decreases |queue| - count
      {
        OneMoreTaken(old(messages), old(consumed), w, queue, eaten, count);
        var message := Fetch(w);
        if message.None? { break; }
        count := count + 1;
        if one { break; }
      }
    }

    method DiscardMessages(w: WaiterId)
      requires Valid() && w in types
      modifies this`messages, this`consumed
      ensures Valid() && messages == old(messages)[w := []]
      ensures consumed == old(consumed)[w := SentSince(history, w, types[w])]
    {
      TakeKeepsComplete(types, messages, consumed, Due(history), w, |messages[w]|);
      assert messages[w][..|messages[w]|] == messages[w];
      consumed := consumed[w := consumed[w] + messages[w]];
      messages := messages[w := []];
    }

    /** The last reference goes away: the destructor cleans up. */
    method Release(w: WaiterId)
      requires Valid() && w in types
      modifies this
      ensures Valid()
      ensures types == old(types) - {w} && messages == old(messages) - {w}
      ensures history == old(history) && consumed == old(consumed) - {w}
    {
      var acted := Action(waiters, types[w], types.Keys - {w}, messages, NullCallback());
      ReleaseKeepsConsistent(waiters, types, w, messages);
      ReleaseKeepsComplete(types, messages, consumed, Due(history), w);
      waiters := acted.waiters;
      types, messages, consumed := types - {w}, messages - {w}, consumed - {w};
    }
  }

  // ---- every run ----

  datatype Call<M> =
    | InstallWaiter(waiter: WaiterId, key: TypeIndex)
    | SendMessage(key: TypeIndex, message: M)
    | FetchMessage(waiter: WaiterId)
    | HandleMessages(waiter: WaiterId, one: bool)
    | Discard(waiter: WaiterId)
    | ReleaseWaiter(waiter: WaiterId)

  /** The live waiters and the history after one more call.  Installing a waiter that is live, or anything
      else with one that is not, cannot happen and counts for nothing. */
  ghost function LiveStep<M>(live: map<WaiterId, TypeIndex>, call: Call<M>): map<WaiterId, TypeIndex> {
    if call.InstallWaiter? && call.waiter !in live then live[call.waiter := call.key]
    else if call.ReleaseWaiter? then live - {call.waiter}
    else live
  }

  ghost function HistoryStep<M>(live: map<WaiterId, TypeIndex>, history: seq<Event<M>>, call: Call<M>): seq<Event<M>> {
    if call.InstallWaiter? && call.waiter !in live then history + [Installed(call.waiter, call.key)]
    else if call.SendMessage? then history + [Sent(call.key, call.message)]
    else history
  }

  ghost function LiveAfter<M>(calls: seq<Call<M>>): map<WaiterId, TypeIndex> {
    if calls == [] then map[] else LiveStep(LiveAfter(calls[..|calls| - 1]), calls[|calls| - 1])
  }

  ghost function HistoryOf<M>(calls: seq<Call<M>>): seq<Event<M>> {
    if calls == [] then []
    else HistoryStep(LiveAfter(calls[..|calls| - 1]), HistoryOf(calls[..|calls| - 1]), calls[|calls| - 1])
  }

  method Perform<M(!new)>(board: Messageboard<M>, call: Call<M>)
    requires board.Valid()
    modifies board
    ensures board.Valid()
    ensures board.types == LiveStep(old(board.types), call)
    ensures board.history == HistoryStep(old(board.types), old(board.history), call)
  {
    if call.InstallWaiter? || call.ReleaseWaiter? {
      ComeOrGo(board, call);
    } else {
      Pass(board, call);
    }
  }

  method Pass<M(!new)>(board: Messageboard<M>, call: Call<M>)
    requires board.Valid() && !call.InstallWaiter? && !call.ReleaseWaiter?
    modifies board`messages, board`consumed, board`waiters, board`history
    ensures board.Valid()
    ensures board.history == HistoryStep(old(board.types), old(board.history), call)
  {
    if call.SendMessage? {
      var _ := board.Send(call.key, call.message);
    } else if call.waiter in board.types {
      Consume(board, call);
    }
  }

  method ComeOrGo<M(!new)>(board: Messageboard<M>, call: Call<M>)
    requires board.Valid() && (call.InstallWaiter? || call.ReleaseWaiter?)
    modifies board
    ensures board.Valid()
    ensures board.types == LiveStep(old(board.types), call)
    ensures board.history == HistoryStep(old(board.types), old(board.history), call)
  {
    if call.InstallWaiter? && call.waiter !in board.types {
      board.Install(call.waiter, call.key);
    } else if call.ReleaseWaiter? && call.waiter in board.types {
      board.Release(call.waiter);
    }
  }

  method Consume<M(!new)>(board: Messageboard<M>, call: Call<M>)
    requires board.Valid()
    requires (call.FetchMessage? || call.HandleMessages? || call.Discard?) && call.waiter in board.types
    modifies board`messages, board`consumed
    ensures board.Valid()
  {
    match call
    case FetchMessage(w) => var _ := board.Fetch(w);
    case HandleMessages(w, one) => var _ := board.Handle(w, one);
    case Discard(w) => board.DiscardMessages(w);
  }

  /** Any calls, on a fresh board: each live waiter has been given a prefix, in send order, of what was
      sent since its installation, and its queue is empty exactly when it has been given all of it. */
  method Replay<M(!new)>(calls: seq<Call<M>>) returns (board: Messageboard<M>)
    ensures fresh(board) && board.Valid() && board.types == LiveAfter(calls)
    ensures forall w <- board.types :: w in board.consumed && w in board.messages
    ensures forall w <- board.types ::
              var due := SentSince(HistoryOf(calls), w, board.types[w]);
              && board.consumed[w] <= due
              && board.consumed[w] + board.messages[w] == due
              && (board.messages[w] == [] <==> board.consumed[w] == due)
  {
    board := new Messageboard<M>();
    assert calls[..0] == [];
    for i := 0 to |calls|
      invariant fresh(board) && board.Valid()
      invariant board.types == LiveAfter(calls[..i]) && board.history == HistoryOf(calls[..i])
    {
      assert calls[..i + 1][..i] == calls[..i];
      Perform(board, calls[i]);
    }
    assert calls[..|calls|] == calls;
    forall w <- board.types {
      FetchedInOrder(board.types, board.messages, board.consumed, board.history, w);
    }
  }
}
