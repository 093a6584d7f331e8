/** `SteamBot::erase`: remove the elements of a vector that satisfy a predicate, by moving the
    last element into each hole.  The predicate is stateful, because the callers deliver
    messages, set flags or collect application ids while it is evaluated: it maps the state and
    an element to the verdict "erase it" and the new state. */
module Vectors {
  import opened Sequences

  type Predicate<!S, !T> = (S, T) -> (bool, S)

  /** What one run of `erase` did.  `visited` lists the arguments of the predicate calls, in order. */
  datatype Outcome<S, T> = Outcome(vector: seq<T>, state: S, visited: seq<T>, count: nat)

  /** The vector after element `i` was erased: the last element fills the hole. */
  function SwapPop<T>(v: seq<T>, i: nat): (w: seq<T>)
    requires i < |v|
    ensures |w| == |v| - 1
  {
    (if i + 1 < |v| then v[i := v[|v| - 1]] else v)[..|v| - 1]
  }

  function Erased<S, T>(v: seq<T>, i: nat, pred: Predicate<S, T>, s: S): Outcome<S, T>
    requires i <= |v|
    decreases |v| - i
  {
    if i == |v| then Outcome(v, s, [], 0)
    else
      var (doomed, s') := pred(s, v[i]);
      var rest := if doomed then Erased(SwapPop(v, i), i, pred, s') else Erased(v, i + 1, pred, s');
      Outcome(rest.vector, rest.state, [v[i]] + rest.visited, rest.count + if doomed then 1 else 0)
  }

  /** The C++ call: erase from the whole vector. */
  function Erase<S, T>(v: seq<T>, pred: Predicate<S, T>, s: S): Outcome<S, T> {
    Erased(v, 0, pred, s)
  }

  /** The state after calling the predicate on each element of `visited`, in order. */
  function Fold<S, T>(pred: Predicate<S, T>, s: S, visited: seq<T>): S {
    if visited == [] then s else Fold(pred, pred(s, visited[0]).1, visited[1..])
  }

  /** The elements whose predicate call said "keep", in visiting order. */
  function Rejected<S, T>(pred: Predicate<S, T>, s: S, visited: seq<T>): seq<T> {
    if visited == [] then []
    else
      var (doomed, s') := pred(s, visited[0]);
      (if doomed then [] else [visited[0]]) + Rejected(pred, s', visited[1..])
  }

  lemma SwapPopRemovesOne<T>(v: seq<T>, i: nat)
    requires i < |v|
    ensures SwapPop(v, i)[..i] == v[..i]
    ensures multiset(v[i..]) == multiset{v[i]} + multiset(SwapPop(v, i)[i..])
  {
    var w := SwapPop(v, i);
    if i + 1 < |v| {
      var middle, last := v[i + 1..|v| - 1], v[|v| - 1];
      assert v[i..] == [v[i]] + (middle + [last]);
      assert w[i..] == [last] + middle;
      assert multiset(middle + [last]) == multiset(middle) + multiset{last} == multiset(w[i..]);
    } else {
      assert v[i..] == [v[i]] && w[i..] == [];
    }
  }

  lemma Unfold<S, T>(pred: Predicate<S, T>, s: S, x: T, rest: seq<T>)
    ensures var (doomed, s') := pred(s, x);
            && Fold(pred, s, [x] + rest) == Fold(pred, s', rest)
            && Rejected(pred, s, [x] + rest) == (if doomed then [] else [x]) + Rejected(pred, s', rest)
  {
    assert ([x] + rest)[1..] == rest;
  }

  /** The vector and the index after one iteration. */
  function Next<S, T>(v: seq<T>, i: nat, pred: Predicate<S, T>, s: S): (seq<T>, nat)
    requires i < |v|
  {
    if pred(s, v[i]).0 then (SwapPop(v, i), i) else (v, i + 1)
  }

  lemma ErasedStep<S, T>(v: seq<T>, i: nat, pred: Predicate<S, T>, s: S)
    requires i < |v|
    ensures var (w, j) := Next(v, i, pred, s);
            var rest := Erased(w, j, pred, pred(s, v[i]).1);
            Erased(v, i, pred, s) == Outcome(rest.vector, rest.state, [v[i]] + rest.visited, rest.count + |v| - |w|)
  {
  }

  lemma NextRemovesOne<S, T>(v: seq<T>, i: nat, pred: Predicate<S, T>, s: S)
    requires i < |v|
    ensures var (w, j) := Next(v, i, pred, s);
            multiset(v[i..]) == multiset{v[i]} + multiset(w[j..])
  {
    if pred(s, v[i]).0 {
      SwapPopRemovesOne(v, i);
    } else {
      assert v[i..] == [v[i]] + v[i + 1..];
    }
  }

  /** Every element is visited exactly once. */
  lemma {:induction false} ErasedVisitsOnce<S, T>(v: seq<T>, i: nat, pred: Predicate<S, T>, s: S)
    requires i <= |v|
    ensures multiset(Erased(v, i, pred, s).visited) == multiset(v[i..])
    decreases |v| - i
  {
    if i < |v| {
      var (w, j) := Next(v, i, pred, s);
      ErasedVisitsOnce(w, j, pred, pred(s, v[i]).1);
      ErasedStep(v, i, pred, s);
      NextRemovesOne(v, i, pred, s);
    }
  }

  /** The state is the fold of the predicate over the visits, and exactly the rejected elements
      remain, in visiting order, behind the untouched prefix. */
  lemma {:induction false} ErasedKeepsRejected<S, T>(v: seq<T>, i: nat, pred: Predicate<S, T>, s: S)
    requires i <= |v|
    ensures var r := Erased(v, i, pred, s);
            && r.state == Fold(pred, s, r.visited)
            && r.vector == v[..i] + Rejected(pred, s, r.visited)
            && r.count == |v| - |r.vector|
    decreases |v| - i
  {
    if i == |v| {
      assert v[..i] == v;
    } else {
      var (w, j) := Next(v, i, pred, s);
      var s' := pred(s, v[i]).1;
      var rest := Erased(w, j, pred, s');
      ErasedKeepsRejected(w, j, pred, s');
      ErasedStep(v, i, pred, s);
      Unfold(pred, s, v[i], rest.visited);
      if j == i {
        SwapPopRemovesOne(v, i);
      } else {
        Regroup(v, i, Rejected(pred, s', rest.visited));
      }
    }
  }

  lemma Regroup<T>(v: seq<T>, i: nat, rest: seq<T>)
    requires i < |v|
    ensures v[..i + 1] + rest == v[..i] + ([v[i]] + rest)
  {
    assert v[..i + 1] == v[..i] + [v[i]];
    Associative(v[..i], [v[i]], rest);
  }

  lemma EraseVisitsOnce<S, T>(v: seq<T>, pred: Predicate<S, T>, s: S)
    ensures var r := Erase(v, pred, s);
            && multiset(r.visited) == multiset(v)
            && r.state == Fold(pred, s, r.visited)
            && r.vector == Rejected(pred, s, r.visited)
            && r.count == |v| - |r.vector|
  {
    ErasedVisitsOnce(v, 0, pred, s);
    ErasedKeepsRejected(v, 0, pred, s);
    assert v[0..] == v;
  }

  /** A predicate whose verdict, though not its effect, depends on the element alone. */
  ghost predicate Decides<S(!new), T(!new)>(pred: Predicate<S, T>, doomed: T -> bool) {
    forall s, x :: pred(s, x).0 == doomed(x)
  }

  lemma {:induction false} RejectedByVerdict<S(!new), T(!new)>(pred: Predicate<S, T>, s: S, visited: seq<T>, doomed: T -> bool)
    requires Decides(pred, doomed)
    ensures forall x :: multiset(Rejected(pred, s, visited))[x] == if doomed(x) then 0 else multiset(visited)[x]
  {
    if visited != [] {
      assert visited == [visited[0]] + visited[1..];
      RejectedByVerdict(pred, pred(s, visited[0]).1, visited[1..], doomed);
    }
  }

  /** With such a predicate, `erase` removes all the doomed elements and nothing else. */
  lemma EraseByVerdict<S(!new), T(!new)>(v: seq<T>, pred: Predicate<S, T>, s: S, doomed: T -> bool)
    requires Decides(pred, doomed)
    ensures var r := Erase(v, pred, s);
            forall x :: multiset(r.vector)[x] == if doomed(x) then 0 else multiset(v)[x]
  {
    EraseVisitsOnce(v, pred, s);
    RejectedByVerdict(pred, s, Erase(v, pred, s).visited, doomed);
  }

  lemma {:induction false} ErasedNothing<S(!new), T(!new)>(v: seq<T>, i: nat, pred: Predicate<S, T>, s: S, doomed: T -> bool)
    requires i <= |v| && Decides(pred, doomed)
    requires forall x <- v :: !doomed(x)
    ensures Erased(v, i, pred, s).vector == v && Erased(v, i, pred, s).visited == v[i..]
    decreases |v| - i
  {
    if i < |v| {
      ErasedNothing(v, i + 1, pred, pred(s, v[i]).1, doomed);
      assert v[i..] == [v[i]] + v[i + 1..];
    }
  }

  /** What the loop has to end with, given what it has done so far. */
  ghost function Remaining<S, T>(v: seq<T>, i: nat, pred: Predicate<S, T>, s: S, visited: seq<T>, count: nat): Outcome<S, T>
    requires i <= |v|
  {
    var r := Erased(v, i, pred, s);
    Outcome(r.vector, r.state, visited + r.visited, count + r.count)
  }

  lemma RemainingStep<S, T>(v: seq<T>, i: nat, pred: Predicate<S, T>, s: S, visited: seq<T>, count: nat)
    requires i < |v|
    ensures var (w, j) := Next(v, i, pred, s);
            Remaining(v, i, pred, s, visited, count) == Remaining(w, j, pred, pred(s, v[i]).1, visited + [v[i]], count + |v| - |w|)
  {
    var (w, j) := Next(v, i, pred, s);
    ErasedStep(v, i, pred, s);
    Associative(visited, [v[i]], Erased(w, j, pred, pred(s, v[i]).1).visited);
  }

  /** The loop itself, on the first `n` elements of a buffer; the vector shrinks to `m`. */
  method EraseInPlace<S, T>(a: array<T>, n: nat, pred: Predicate<S, T>, s0: S)
    returns (m: nat, s: S, count: nat, ghost visited: seq<T>)
    requires n <= a.Length
    modifies a
    ensures m <= n && Outcome(a[..m], s, visited, count) == Erase(old(a[..n]), pred, s0)
    ensures a[n..] == old(a[n..])
  {
    m, s, count, visited := n, s0, 0, [];
    var i := 0;
    while i < m
      invariant i <= m <= n
      invariant a[n..] == old(a[n..])
      invariant Remaining(a[..m], i, pred, s, visited, count) == Erase(old(a[..n]), pred, s0)
      decreases m - i
    {
      ghost var v := a[..m];
      RemainingStep(v, i, pred, s, visited, count);
      var (doomed, s') := pred(s, a[i]);
      visited, s := visited + [a[i]], s';
      if doomed {
        if i + 1 < m {
          a[i] := a[m - 1];
        }
        m := m - 1;
        count := count + 1;
        assert a[..m] == SwapPop(v, i);
      } else {
        i := i + 1;
        assert a[..m] == v;
      }
    }
    assert visited + [] == visited;
  }
}
