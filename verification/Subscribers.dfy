/** What Messageboard and Whiteboard have in common: a table from type to the weak references of
    the waiters for that type, and `action`, which walks over one list with `erase`.  A waiter is
    its identity; what belongs to a waiter is kept in a store indexed by that identity. */
module Subscribers {
  import opened Sequences
  import opened Vectors

  type TypeIndex = nat
  type WaiterId = nat

  /** A list of the live waiters of one type, each listed once. */
  ghost predicate Lists(list: seq<WaiterId>, types: map<WaiterId, TypeIndex>, key: TypeIndex) {
    && list != []
    && Distinct(list)
    && forall w {:trigger w in list} :: w in list <==> w in types && types[w] == key
  }

  /** `types` holds the live waiters.  The table has a list for exactly the types that have one. */
  ghost predicate Consistent(waiters: map<TypeIndex, seq<WaiterId>>, types: map<WaiterId, TypeIndex>) {
    && (forall k <- waiters :: Lists(waiters[k], types, k))
    && (forall w <- types :: types[w] in waiters)
  }

  function Find(waiters: map<TypeIndex, seq<WaiterId>>, key: TypeIndex): seq<WaiterId> {
    if key in waiters then waiters[key] else []
  }

  /** The predicate `action` passes to `erase`: a waiter that cannot be locked is erased; for any
      other the callback runs, changing what that waiter holds by `f`.  The state also counts the calls. */
  function Visit<X>(live: set<WaiterId>, f: X -> X, s: (map<WaiterId, X>, nat), w: WaiterId): (bool, (map<WaiterId, X>, nat)) {
    if w !in live then (true, s)
    else (false, (if w in s.0 then s.0[w := f(s.0[w])] else s.0, s.1 + 1))
  }

  function Visitor<X>(live: set<WaiterId>, f: X -> X): Predicate<(map<WaiterId, X>, nat), WaiterId> {
    (s: (map<WaiterId, X>, nat), w: WaiterId) => Visit(live, f, s, w)
  }

  datatype Acted<X> = Acted(waiters: map<TypeIndex, seq<WaiterId>>, store: map<WaiterId, X>, calls: nat)

  function NullCallback<X>(): X -> X {
    x => x
  }

  function Action<X>(waiters: map<TypeIndex, seq<WaiterId>>, key: TypeIndex, live: set<WaiterId>,
                     store: map<WaiterId, X>, f: X -> X): Acted<X>
  {
    if key !in waiters then Acted(waiters, store, 0)
    else
      var r := Erase(waiters[key], Visitor(live, f), (store, 0));
      Acted(if r.vector == [] then waiters - {key} else waiters[key := r.vector], r.state.0, r.state.1)
  }

  function Reached(list: seq<WaiterId>, live: set<WaiterId>): set<WaiterId> {
    set w | w in list && w in live
  }

  function Updated<X>(store: map<WaiterId, X>, reached: set<WaiterId>, f: X -> X): map<WaiterId, X> {
    map w | w in store :: if w in reached then f(store[w]) else store[w]
  }

  lemma {:induction false} FoldVisits<X>(list: seq<WaiterId>, live: set<WaiterId>, store: map<WaiterId, X>, calls: nat, f: X -> X)
    requires Distinct(list)
    ensures Fold(Visitor(live, f), (store, calls), list) == (Updated(store, Reached(list, live), f), calls + |Reached(list, live)|)
  {
    if list == [] {
      assert Updated(store, {}, f) == store;
    } else {
      var w, rest := list[0], Reached(list[1..], live);
      var s := Visit(live, f, (store, calls), w).1;
      assert Visitor(live, f)((store, calls), w).1 == s;
      FoldVisits(list[1..], live, s.0, s.1, f);
      assert w !in list[1..];
      assert Reached(list, live) == if w in live then {w} + rest else rest;
      UpdatedStep(store, w, rest, f);
    }
  }

  lemma UpdatedStep<X>(store: map<WaiterId, X>, w: WaiterId, rest: set<WaiterId>, f: X -> X)
    requires w !in rest
    ensures Updated(store, {w} + rest, f) == Updated(if w in store then store[w := f(store[w])] else store, rest, f)
  {
  }

  lemma KeptLive(list: seq<WaiterId>, kept: seq<WaiterId>, live: set<WaiterId>)
    requires Distinct(list)
    requires forall w :: multiset(kept)[w] == if w !in live then 0 else multiset(list)[w]
    ensures Distinct(kept) && forall w :: w in kept <==> w in list && w in live
  {
    DistinctMultiset(list);
    DistinctMultiset(kept);
    assert forall w :: (w in kept <==> w in multiset(kept)) && (w in list <==> w in multiset(list));
  }

  /** One pass of `erase`: each live waiter on the list, and no other, has `f` applied once; the
      calls are counted; the dead waiters, and only they, leave the list. */
  lemma EraseReachesLive<X(!new)>(list: seq<WaiterId>, live: set<WaiterId>, store: map<WaiterId, X>, f: X -> X)
    requires Distinct(list)
    ensures var r := Erase(list, Visitor(live, f), (store, 0));
            && r.state == (Updated(store, Reached(list, live), f), |Reached(list, live)|)
            && Distinct(r.vector)
            && (forall w :: w in r.vector <==> w in list && w in live)
  {
    EraseAppliesOnce(list, live, store, f);
    EraseByVerdict(list, Visitor(live, f), (store, 0), (w: WaiterId) => w !in live);
    KeptLive(list, Erase(list, Visitor(live, f), (store, 0)).vector, live);
  }

  lemma EraseAppliesOnce<X(!new)>(list: seq<WaiterId>, live: set<WaiterId>, store: map<WaiterId, X>, f: X -> X)
    requires Distinct(list)
    ensures Erase(list, Visitor(live, f), (store, 0)).state == (Updated(store, Reached(list, live), f), |Reached(list, live)|)
  {
    var visited := Erase(list, Visitor(live, f), (store, 0)).visited;
    EraseVisitsOnce(list, Visitor(live, f), (store, 0));
    SameElements(visited, list);
    FoldVisits(visited, live, store, 0, f);
    assert Reached(visited, live) == Reached(list, live);
  }

  /** Exactly-once delivery, and the table afterwards: no empty list, no dead waiter of this type,
      other types untouched. */
  lemma ActionReachesLive<X(!new)>(waiters: map<TypeIndex, seq<WaiterId>>, key: TypeIndex, live: set<WaiterId>,
                                   store: map<WaiterId, X>, f: X -> X)
    requires Distinct(Find(waiters, key))
    ensures var list, r := Find(waiters, key), Action(waiters, key, live, store, f);
            && r.store == Updated(store, Reached(list, live), f)
            && r.calls == |Reached(list, live)|
            && (key in r.waiters ==> r.waiters[key] != [])
            && Distinct(Find(r.waiters, key))
            && (forall w :: w in Find(r.waiters, key) <==> w in list && w in live)
            && r.waiters - {key} == waiters - {key}
  {
    if key in waiters {
      EraseReachesLive(waiters[key], live, store, f);
    } else {
      assert Updated(store, {}, f) == store;
      assert Reached([], live) == {};
    }
  }

  /** When all listed waiters are live, the table is unchanged, not even reordered. */
  lemma ActionKeepsLiveLists<X(!new)>(waiters: map<TypeIndex, seq<WaiterId>>, key: TypeIndex, live: set<WaiterId>,
                                store: map<WaiterId, X>, f: X -> X)
    requires forall w <- Find(waiters, key) :: w in live
    requires key in waiters ==> waiters[key] != []
    ensures Action(waiters, key, live, store, f).waiters == waiters
  {
    if key in waiters {
      ErasedNothing(waiters[key], 0, Visitor(live, f), (store, 0), (w: WaiterId) => w !in live);
    }
  }

  /** Registering a new waiter keeps the table consistent. */
  lemma InstallKeepsConsistent(waiters: map<TypeIndex, seq<WaiterId>>, types: map<WaiterId, TypeIndex>, w: WaiterId, key: TypeIndex)
    requires Consistent(waiters, types) && w !in types
    ensures Consistent(waiters[key := Find(waiters, key) + [w]], types[w := key])
  {
    var list, types' := Find(waiters, key), types[w := key];
    forall v ensures v in list + [w] <==> v in types' && types'[v] == key {
      assert v in list <==> v in types && types[v] == key;
    }
    assert Distinct(list + [w]) by {
      assert w in list ==> w in types;
    }
    forall k <- waiters | k != key ensures Lists(waiters[k], types', k) {
      assert w in waiters[k] ==> w in types;
    }
    forall v <- types' ensures types'[v] in waiters[key := list + [w]] {
    }
  }

  /** A destructor's `action` drops exactly the released waiter. */
  lemma ReleaseKeepsConsistent<X(!new)>(waiters: map<TypeIndex, seq<WaiterId>>, types: map<WaiterId, TypeIndex>, w: WaiterId,
                                        store: map<WaiterId, X>)
    requires Consistent(waiters, types) && w in types
    ensures var r := Action(waiters, types[w], types.Keys - {w}, store, NullCallback());
            Consistent(r.waiters, types - {w}) && r.store == store
  {
    var key, live := types[w], types.Keys - {w};
    var waiters' := Action(waiters, key, live, store, NullCallback()).waiters;
    ActionReachesLive(waiters, key, live, store, NullCallback());
    assert Updated(store, Reached(waiters[key], live), NullCallback()) == store;
    assert forall k :: k != key ==> (k in waiters' - {key} <==> k in waiters - {key});
    assert forall k <- waiters' :: k != key ==> (waiters' - {key})[k] == (waiters - {key})[k];
    assert forall k <- waiters' :: waiters'[k] == Find(waiters', k);
    assert forall v <- types - {w} :: v in Find(waiters', types[v]);
  }

  /** The assertion in both destructors: the table is empty exactly when no waiter is left. */
  lemma TableEmptyIffNoWaiters(waiters: map<TypeIndex, seq<WaiterId>>, types: map<WaiterId, TypeIndex>)
    requires Consistent(waiters, types)
    ensures waiters == map[] <==> types == map[]
  {
    if waiters != map[] {
      var k :| k in waiters;
      assert waiters[k][0] in waiters[k];
    }
    if types != map[] {
      var w :| w in types;
      assert types[w] in waiters;
    }
  }
}
