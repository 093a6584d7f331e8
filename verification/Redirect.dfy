/** HTTP queries with redirection: each redirect wraps the query's callback once more. */
module Redirect {
  import opened Wrappers

  type Url = string

  /** The "Location" header of a response: absent or empty, not a URL, or a URL. */
  datatype Location = NoLocation | Invalid | Target(url: Url)

  const OK := 200
  const FOUND := 302

  datatype Response = Response(status: int, location: Location)

  /** `id` identifies the caller's query; the rest is what the query object holds. */
  datatype Query = Query(id: nat, url: Url, response: Response, error: bool)

  /** How one attempt at a query ends: with a response, or with an error, before the request was
      sent (the response object still holds what it held) or after (it was reset). */
  datatype Outcome = Replied(response: Response) | FailedEarly | FailedLate

  function Completed(q: Query, o: Outcome): Query {
    match o
    case Replied(response) => q.(response := response, error := false)
    case FailedEarly => q.(error := true)
    case FailedLate => q.(response := Response(OK, NoLocation), error := true)
  }

  /** `checkRedirect`: the verdict, and the query with its URL replaced. */
  function CheckRedirect(q: Query): (bool, Query) {
    if q.response.status == FOUND && q.response.location.Target? && q.url != q.response.location.url
    then (true, q.(url := q.response.location.url))
    else (false, q)
  }

  /** The caller's callback, under any number of wrappers. */
  datatype Callback = Original | Wrapper(inner: Callback)

  /** What running a callback leads to: the original callback is called, or another attempt is posted. */
  datatype Effect = Finish(query: Query) | Repost(query: Query)

  function Invoke(callback: Callback, q: Query): Effect {
    match callback
    case Original => Finish(q)
    case Wrapper(inner) =>
      var (redirected, q') := CheckRedirect(q);
      if redirected then Repost(q') else Invoke(inner, q')
  }

  /** Nesting makes no difference: any positive number of wrappers acts like one, on the query as
      it is.  In particular the original callback runs exactly when this attempt is not redirected. */
  lemma {:induction false} NestingIsHarmless(callback: Callback, q: Query)
    requires callback.Wrapper?
    ensures Invoke(callback, q) == if CheckRedirect(q).0 then Repost(CheckRedirect(q).1) else Finish(q)
  {
    if !CheckRedirect(q).0 && callback.inner.Wrapper? {
      NestingIsHarmless(callback.inner, q);
    }
  }

  /** The response left in the query does not redirect it. */
  predicate Settled(q: Query) {
    !CheckRedirect(q).0
  }

  /** What redirects: a found response with a new URL, or an early failure on such a response that was
      there before.  A redirected query is settled again. */
  lemma RedirectSettles(q: Query, o: Outcome)
    ensures CheckRedirect(Completed(q, o)).0 <==>
            || (o.Replied? && o.response.status == FOUND && o.response.location.Target? && o.response.location.url != q.url)
            || (o.FailedEarly? && !Settled(q))
    ensures CheckRedirect(Completed(q, o)).0 ==> Settled(CheckRedirect(Completed(q, o)).1)
  {
  }

  /** A query object in the hands of `performWithRedirect`. */
  class BasicQuery {
    var query: Query
    var callback: Callback

    constructor (q: Query)
      ensures query == q && callback == Original
    {
      query, callback := q, Original;
    }

    /** Wraps the callback; the attempt itself is the environment's. */
    method PerformWithRedirect()
      modifies this`callback
      ensures callback == Wrapper(old(callback))
    {
      callback := Wrapper(callback);
    }

    /** An attempt ends: the callbacks run, from the outermost inwards. */
    method Complete(o: Outcome) returns (effect: Effect)
      modifies this`query
      ensures effect == Invoke(callback, Completed(old(query), o)) && query == effect.query
    {
      query := Completed(query, o);
      var current := callback;
      while current.Wrapper?
        invariant Invoke(current, query) == Invoke(callback, Completed(old(query), o))
        decreases current
      {
        var (redirected, q') := CheckRedirect(query);
        query := q';
        if redirected {
          return Repost(query);
        }
        current := current.inner;
      }
      effect := Finish(query);
    }
  }

  /** A whole chain of attempts with the given outcomes: the number of attempts made and the query
      with which the original callback was called, if the chain came to its end. */
  ghost function Chain(callback: Callback, q: Query, outcomes: seq<Outcome>): (nat, Option<Query>)
    decreases outcomes
  {
    if outcomes == [] then (0, None)
    else
      match Invoke(Wrapper(callback), Completed(q, outcomes[0]))
      case Finish(q') => (1, Some(q'))
      case Repost(q') =>
        var (n, r) := Chain(Wrapper(callback), q', outcomes[1..]);
        (n + 1, r)
  }

  /** The same by a plain loop that knows nothing of callbacks: follow redirects, stop otherwise. */
  ghost function Follow(q: Query, outcomes: seq<Outcome>): (nat, Option<Query>)
    decreases outcomes
  {
    if outcomes == [] then (0, None)
    else
      var (redirected, q') := CheckRedirect(Completed(q, outcomes[0]));
      if !redirected then (1, Some(q'))
      else
        var (n, r) := Follow(q', outcomes[1..]);
        (n + 1, r)
  }

  /** The query after attempts all of which were redirected. */
  ghost function Redirected(q: Query, outcomes: seq<Outcome>): Option<Query>
    decreases outcomes
  {
    if outcomes == [] then Some(q)
    else
      var (redirected, q') := CheckRedirect(Completed(q, outcomes[0]));
      if redirected then Redirected(q', outcomes[1..]) else None
  }

  /** One more attempt either redirects again or ends the chain. */
  lemma {:induction false} FollowOneMore(q: Query, outcomes: seq<Outcome>, o: Outcome)
    requires Redirected(q, outcomes).Some?
    ensures var (redirected, q') := CheckRedirect(Completed(Redirected(q, outcomes).value, o));
            && Redirected(q, outcomes + [o]) == (if redirected then Some(q') else None)
            && Follow(q, outcomes + [o]) == (|outcomes| + 1, if redirected then None else Some(q'))
    decreases outcomes
  {
    if outcomes == [] {
      assert [] + [o] == [o] && [o][1..] == [];
    } else {
      assert (outcomes + [o])[1..] == outcomes[1..] + [o];
      FollowOneMore(CheckRedirect(Completed(q, outcomes[0])).1, outcomes[1..], o);
    }
  }

  // ---- what following means, spelled out ----

  function FoundReplies(urls: seq<Url>): seq<Outcome> {
    if urls == [] then [] else [Replied(Response(302, Target(urls[0])))] + FoundReplies(urls[1..])
  }

  /** No two neighbours among `start` and `urls` are the same. */
  ghost predicate Changing(start: Url, urls: seq<Url>)
    decreases urls
  {
    urls == [] || (urls[0] != start && Changing(urls[0], urls[1..]))
  }

  function LastUrl(start: Url, urls: seq<Url>): Url {
    if urls == [] then start else urls[|urls| - 1]
  }

  /** After replies that redirect to `urls`, one after the other, the attempt is made for the last of them. */
  lemma {:induction false} RedirectsReachUrl(q: Query, urls: seq<Url>)
    requires Changing(q.url, urls) && urls != []
    ensures var last := urls[|urls| - 1];
            Redirected(q, FoundReplies(urls)) == Some(Query(q.id, last, Response(302, Target(last)), false))
    decreases urls
  {
    var next := Query(q.id, urls[0], Response(302, Target(urls[0])), false);
    var rest := urls[1..];
    assert FoundReplies(urls)[1..] == FoundReplies(rest);
    assert urls[0] != q.url && FoundReplies(urls)[0] == Replied(Response(302, Target(urls[0])));
    assert CheckRedirect(Completed(q, FoundReplies(urls)[0])) == (true, next);
    if rest != [] {
      RedirectsReachUrl(next, rest);
    }
  }

  /** And a reply that does not redirect, or a failure, ends the chain: the caller gets its query with the
      URL last tried, the response of that attempt, and whether it failed. */
  lemma FollowedToTheEnd(q: Query, urls: seq<Url>, o: Outcome)
    requires Changing(q.url, urls)
    requires o.Replied? ==> !(o.response.status == 302 && o.response.location.Target? && o.response.location.url != LastUrl(q.url, urls))
    requires urls == [] && o.FailedEarly? ==> !(q.response.status == 302 && q.response.location.Target? && q.response.location.url != q.url)
    ensures var url := LastUrl(q.url, urls);
            var response := if o.Replied? then o.response
                            else if o.FailedLate? then Response(200, NoLocation)
                            else if urls == [] then q.response else Response(302, Target(url));
            Follow(q, FoundReplies(urls) + [o]) == (|urls| + 1, Some(Query(q.id, url, response, !o.Replied?)))
  {
    if urls != [] {
      RedirectsReachUrl(q, urls);
    }
    FoundRepliesSize(urls);
    FollowOneMore(q, FoundReplies(urls), o);
  }

  lemma {:induction false} FoundRepliesSize(urls: seq<Url>)
    ensures |FoundReplies(urls)| == |urls|
  {
    if urls != [] {
      FoundRepliesSize(urls[1..]);
    }
  }

  lemma {:induction false} ChainFollows(callback: Callback, q: Query, outcomes: seq<Outcome>)
    ensures Chain(callback, q, outcomes) == Follow(q, outcomes)
    decreases outcomes
  {
    if outcomes != [] {
      var q' := Completed(q, outcomes[0]);
      NestingIsHarmless(Wrapper(callback), q');
      if CheckRedirect(q').0 {
        ChainFollows(Wrapper(callback), CheckRedirect(q').1, outcomes[1..]);
      }
    }
  }

  /** A failed attempt ends the chain, unless it is the first one and failed before the response of an
      earlier use of the query was reset: then the query is redirected on that old response. */
  lemma {:induction false} FailureEndsChainIff(callback: Callback, q: Query, outcomes: seq<Outcome>, i: nat)
    requires i < |outcomes| && !outcomes[i].Replied?
    ensures var (n, r) := Chain(callback, q, outcomes);
            && (r.Some? && n <= i + 1 <==> Settled(q) || i > 0 || outcomes[0].FailedLate?)
            && (r.Some? ==> n > 0 && r.value.id == q.id)
    decreases outcomes
  {
    var q' := Completed(q, outcomes[0]);
    NestingIsHarmless(Wrapper(callback), q');
    RedirectSettles(q, outcomes[0]);
    if CheckRedirect(q').0 {
      var next := CheckRedirect(q').1;
      if i > 0 {
        assert outcomes[i] == outcomes[1..][i - 1];
        FailureEndsChainIff(Wrapper(callback), next, outcomes[1..], i - 1);
      } else {
        ChainKeepsId(Wrapper(callback), next, outcomes[1..]);
      }
    }
  }

  lemma {:induction false} ChainKeepsId(callback: Callback, q: Query, outcomes: seq<Outcome>)
    ensures var (n, r) := Chain(callback, q, outcomes); r.Some? ==> n > 0 && r.value.id == q.id
    decreases outcomes
  {
    if outcomes != [] {
      var q' := Completed(q, outcomes[0]);
      NestingIsHarmless(Wrapper(callback), q');
      if CheckRedirect(q').0 {
        ChainKeepsId(Wrapper(callback), CheckRedirect(q').1, outcomes[1..]);
      }
    }
  }

  /** For a query that nobody has used before, a failure always ends it. */
  lemma FailureEndsChain(callback: Callback, q: Query, outcomes: seq<Outcome>, i: nat)
    requires Settled(q) && i < |outcomes| && !outcomes[i].Replied?
    ensures var (n, r) := Chain(callback, q, outcomes); n <= i + 1 && r.Some? && r.value.id == q.id
  {
    FailureEndsChainIff(callback, q, outcomes, i);
  }

  /** A used query: its only attempt fails before anything is sent, and yet another one is posted. */
  lemma FailureRedirects()
    ensures var q := Query(0, "http://a", Response(FOUND, Target("http://b")), false);
            && Invoke(Wrapper(Original), Completed(q, FailedEarly)) == Repost(q.(url := "http://b", error := true))
            && Chain(Original, q, [FailedEarly]) == (1, None)
  {
    var q := Query(0, "http://a", Response(FOUND, Target("http://b")), false);
    assert q.url[7] != "http://b"[7];
    assert CheckRedirect(Completed(q, FailedEarly)) == (true, q.(url := "http://b", error := true));
    assert [FailedEarly][1..] == [];
  }
}
