# Verification model of Christian's Steam Framework

The framework runs Steam clients: each client is a thread of cooperating fibers, which exchange typed
messages and share a board of typed values, on top of one Asio thread that does all networking. Its hard
logic is in small schedulers and protocols, in indexes kept up to date in place, and in a few parsers. This
project models these parts in Dafny and proves what they are for.

How it is built:

- A protocol is a state machine: a `State`, a `Step` for each handler or each block under a mutex, and runs
  that are arbitrary sequences of events (an event that cannot happen leaves the state alone). An invariant
  is proved of every run, and the results are stated about every run. Beside it stands a class with the
  fields of the source's class, each of whose methods is proved to make exactly the machine's step. The class
  records the events; its `Valid()` says that it is in the state which the machine reaches by them, so that
  what is proved of every run holds of every object, as a lemma in the class states.
- Code that edits a vector, a map or a buffer is a class or a method with loops, proved against a
  specification that does not mention how the code works; the properties of that specification are lemmas.
- Time, the user's answers, results of network operations and the iteration order of hash maps are
  parameters, or events that may come in any order.

| file | about |
|---|---|
| `Vectors.dfy` | `SteamBot::erase`, with predicates that have effects |
| `Subscribers.dfy`, `Messageboard.dfy`, `Whiteboard.dfy` | publish and subscribe |
| `PlayGames.dfy`, `CardFarmer.dfy`, `Farming.dfy` | what to play, playing it, and the two in agreement |
| `PackageData.dfy` | the package database, its reverse index and its file |
| `RateLimit.dfy`, `Redirect.dfy` | spaced HTTP queries, and their redirection |
| `Connection.dfy` | the write side of the Steam connection |
| `Executor.dfy` | running functions on a client's thread |
| `Session.dfy` | the thread that asks for passwords and codes |
| `Client.dfy` | launching, quitting, restarting clients, and waiting for all of them |
| `Serialize.dfy`, `Json.dfy`, `Html.dfy`, `LicenseList.dfy` | byte streams and framing, JSON paths, class names and text, the licence merge |
| `Sequences.dfy`, `Sorting.dfy`, `Wrappers.dfy` | shared notions |

Where the code does not do what one would expect, the model follows the code; a lemma says exactly when the
expectation is met, and another one shows a case in which it is not:

- A packet written before the connection is made stays in the queue until another packet is written, if its drain
  task runs before the connection is made; if it runs afterwards, the packet gets out
  (`Connection.DeliveredIffConnected`, `Connection.EarlyPacketIsStuck`, `Connection.EarlyPacketIsWritten`).
- A query that still holds the redirecting response of an earlier use is redirected on it when its first attempt
  fails early: that failure does not end the chain (`Redirect.FailureEndsChainIff`, `Redirect.FailureRedirects`).
- The whiteboard's list of games being played becomes wrong when only paused games are stopped
  (`PlayGames.ReportRightIff`, `PlayGames.StoppedGameStaysReported`).
- A package that repeats an application id is not stored, although the index has then been changed. If it came so
  before it was ever stored, a link is left behind: the package is refused while its new ids include the one left
  linked, and with other ids it is stored, but a lookup of the id left linked finds it. Loading the saved file again
  puts the index right (`PackageData.StoredIff`, `PackageData.StoredAccurateIff`, `PackageData.RefusedWhileLinked`,
  `PackageData.StoredWithStrayLink`).
- Erasing a JSON item also prunes objects that were empty before it was created
  (`Json.EraseUndoesCreateIff`, `Json.EmptyObjectIsPruned`).
- The count of family licences is wrong, and can wrap around, when a package has two own licences
  (`LicenseList.CounterRightIff`, `LicenseList.CounterWrapsAround`).
- `waitAll` may return while an account is active, if its launch has not made its counter handle yet
  (`Clients.ActiveAfterWaitAllIff`, `Clients.CallIsNotYetCounted`).

## Model

| member | source | states |
|---|---|---|
| `Vectors.EraseInPlace` | Headers/Vector.hpp:35-56 | the loop on a buffer, for any predicate with effects: final vector, state, visiting order and count are those of the specification, and it terminates |
| `Vectors.EraseVisitsOnce` | Headers/Vector.hpp:35-56 | every element is visited exactly once; the effects are those of the visits in that order; exactly the rejected elements remain, and the count is the number removed |
| `Vectors.EraseByVerdict` | Headers/Vector.hpp:35-56 | if the verdict depends on the element alone, what is left is the multiset of elements with the verdict "keep" |
| `Vectors.ErasedNothing` | Headers/Vector.hpp:35-56 | when nothing is erased the vector is not even reordered |
| `Subscribers.EraseReachesLive` | Sources/Client/Messageboard.cpp:54-76 | one pass over a list applies the callback once to each live waiter, counts the calls, and drops exactly the dead ones |
| `Subscribers.ActionReachesLive` | Sources/Client/Messageboard.cpp:54-76 | `action` reaches each live waiter of the type once and no other, leaves no empty list and no dead waiter of the type, and does not touch other types |
| `Subscribers.ActionKeepsLiveLists` | Sources/Client/Whiteboard.cpp:72-94 | with only live waiters listed, `action` leaves the table as it was |
| `Subscribers.InstallKeepsConsistent` | Headers/Client/Messageboard.hpp:136-141 | installing a waiter keeps the table exact: a list, without repetitions, for just the types that have a live waiter |
| `Subscribers.ReleaseKeepsConsistent` | Headers/Client/Messageboard.hpp:124-127 | the destructor's `action` takes exactly the released waiter out and keeps the table exact |
| `Subscribers.TableEmptyIffNoWaiters` | Sources/Client/Messageboard.cpp:29-32 | the assertion in the board's destructor holds if and only if no waiter is left |
| `Messageboards.ActionDelivers` | Headers/Client/Messageboard.hpp:197-211 | delivery through `erase` puts the message at the end of every live waiter's queue of that type, once, and counts them |
| `Messageboards.SendKeepsComplete` | Headers/Client/Messageboard.hpp:197-211 | after a send, consumed followed by queued messages is still everything sent since installation, for every waiter |
| `Messageboards.Messageboard.Send` | Headers/Client/Messageboard.hpp:197-211 | each live waiter of the type gets the message once, the result is their number, and nothing is lost, repeated or reordered for anyone |
| `Messageboards.Messageboard.Install` | Headers/Client/Messageboard.hpp:136-141 | a new waiter starts with nothing due |
| `Messageboards.Messageboard.Fetch` | Headers/Client/Messageboard.hpp:157-166 | gives and removes the front message, or null |
| `Messageboards.Messageboard.Handle` | Headers/Client/Messageboard.hpp:169-181 | feeds one message, or all, from the front, and counts them; what the handler was given is exactly these, in order |
| `Messageboards.Messageboard.DiscardMessages` | Headers/Client/Messageboard.hpp:184-187 | the waiter counts as having seen everything sent |
| `Messageboards.Messageboard.Release` | Headers/Client/Messageboard.hpp:124-127 | the waiter leaves the table, and nobody else's messages change |
| `Messageboards.Replay` | Headers/Client/Messageboard.hpp:124-211 | in every run of installations, sends, fetches, handlers, discards and releases each live waiter has been given a prefix, in send order, of what was sent since its installation, and its queue is empty exactly when it has been given all |
| `Whiteboards.Whiteboard.DidChange` | Sources/Client/Whiteboard.cpp:98-103 | exactly the flags of the waiters of that type are raised |
| `Whiteboards.Whiteboard.Set` | Headers/Client/Whiteboard.hpp:247-260 | keeps "flag down implies last read is current" for every waiter; the value is replaced |
| `Whiteboards.Whiteboard.Clear` | Headers/Client/Whiteboard.hpp:281-286 | the same when a value is removed |
| `Whiteboards.Whiteboard.Install` | Headers/Client/Whiteboard.hpp:174-184 | the flag of a new waiter is up exactly when there is a value it has not seen |
| `Whiteboards.Whiteboard.Has` | Headers/Client/Whiteboard.hpp:187-191 | gives the current value or absence, and lowers just this waiter's flag |
| `Whiteboards.Whiteboard.GetOr` | Headers/Client/Whiteboard.hpp:193-203 | the same with a default |
| `Whiteboards.Whiteboard.Release` | Headers/Client/Whiteboard.hpp:163-166 | the waiter leaves the table; values and other flags stay |
| `Whiteboards.Replay` | Headers/Client/Whiteboard.hpp:146-216 | in every run of sets, clears, installations, reads and releases: the board holds the latest values; which waiters are live, and what each saw when it last read, are those of the history; and a waiter whose flag is down has seen the current value |
| `PlayGames.ActiveIsActiveSet` | Sources/Modules/PlayGames.cpp:188-210 | the list sent to the server is the set of games not paused, each once |
| `PlayGames.StartedAdds` | Sources/Modules/PlayGames.cpp:214-244 | starting adds just the games not yet listed, once each, unpaused, behind the others, also when the request repeats a game |
| `PlayGames.StoppedRemoves` | Sources/Modules/PlayGames.cpp:259-284 | stopping removes just the named games, keeps the others as they were, and asks for an update of just those removed while not paused |
| `PlayGames.StoppedOnlyPaused` | Sources/Modules/PlayGames.cpp:278-283 | when nothing is sent because only paused games were stopped, the games being played have not changed |
| `PlayGames.SentMirrors` | Sources/Modules/PlayGames.cpp:214-300 | whether or not a message makes the module send a list, the last list sent holds just the games not paused |
| `PlayGames.TimerMirrors` | Sources/Modules/PlayGames.cpp:304-341 | the same for a timer step |
| `PlayGames.UpdatedKeepsIds` | Sources/Modules/PlayGames.cpp:304-341 | a timer step changes no identity and leaves no timer due |
| `PlayGames.TimersToggle` | Sources/Modules/PlayGames.cpp:313-332 | a game whose timer has run out is resumed for 600 seconds if it was paused, and paused for 5 seconds otherwise; any other stays as it was |
| `PlayGames.PausedThese` | Sources/Modules/PlayGames.cpp:323-329 | updates are requested for just the games paused by the step |
| `PlayGames.ReportedOutputs` | Sources/Modules/PlayGames.cpp:334-339 | a timer step sends nothing if no timer has run out; otherwise the list, and then a request for updates if a game was paused |
| `PlayGames.ReportRightIff` | Sources/Modules/PlayGames.cpp:259-284 | a right whiteboard list is still right after a stop if and only if some stopped game was not paused, or none was stopped |
| `PlayGames.StoppedGameStaysReported` | Sources/Modules/PlayGames.cpp:278-283 | a game started, paused by its timer and stopped: the list is empty, and the whiteboard is not told |
| `PlayGames.PlayGamesModule.GetNextUpdate` | Sources/Modules/PlayGames.cpp:125-136 | the earliest timer, or the maximum |
| `PlayGames.PlayGamesModule.SendGames` | Sources/Modules/PlayGames.cpp:188-210 | afterwards the last list sent to the server is the set of games not paused |
| `PlayGames.PlayGamesModule.ReportGames` | Sources/Modules/PlayGames.cpp:140-175 | all listed games, paused or not, go to the whiteboard; the server's list stays right |
| `PlayGames.PlayGamesModule.RequestUpdates` | Sources/Modules/PlayGames.cpp:248-255 | playtimes are asked for unless there is none to ask for; the server's list stays right |
| `PlayGames.PlayGamesModule.StartGames` | Sources/Modules/PlayGames.cpp:214-244 | keeps ids distinct and the server's list right; sends and reports only when a game was added |
| `PlayGames.PlayGamesModule.StopGames` | Sources/Modules/PlayGames.cpp:259-284 | the same for stopping, with the order of the outputs; sends nothing when no running game was stopped |
| `PlayGames.PlayGamesModule.ToggleGames` | Sources/Modules/PlayGames.cpp:310-332 | each game whose timer has run out is toggled; the games paused are collected |
| `PlayGames.PlayGamesModule.HandleUpdates` | Sources/Modules/PlayGames.cpp:304-341 | keeps the server's list right through a timer step, after which every timer lies in the future |
| `PlayGames.PlayGamesModule.Handle` | Sources/Modules/PlayGames.cpp:288-300 | a message has the effect used in `Farming` |
| `CardFarmer.LessOrdersByRank` | Sources/Modules/CardFarmer.cpp:143-146 | `operator<` puts fewer remaining cards first, then the higher playtime; it is a strict weak order whose ties are equal cards and equal playtime |
| `CardFarmer.SelectSingleGame` | Sources/Modules/CardFarmer.cpp:322-337 | nothing exactly when no farmable game matches; otherwise one with the fewest cards remaining of those that match, and of these the highest playtime |
| `CardFarmer.SelectMultipleGames` | Sources/Modules/CardFarmer.cpp:345-373 | at most two of the games in the time range: those with the fewest cards remaining, and of these with the highest playtime, in order |
| `CardFarmer.SelectFarmGames` | Sources/Modules/CardFarmer.cpp:380-402 | the strategy, also in plain numbers (`FollowsStrategy`): of the first kind that has any game one with the fewest cards remaining, and of these the highest playtime, or else the best two of the rest; empty if and only if no game has cards left; at most two distinct games |
| `CardFarmer.ChoiceFollowsStrategy` | Sources/Modules/CardFarmer.cpp:35-47 | the choice in plain numbers: kinds by cards received, 120 and 30 minutes; of the kind farmed, a game taken has fewer cards remaining than one left out, or as many and at least its playtime |
| `CardFarmer.ConditionsAreTiers` | Sources/Modules/CardFarmer.cpp:384-399 | tried in turn, the conditions find exactly the four kinds of the documented strategy |
| `CardFarmer.PrefixIsBest` | Sources/Modules/CardFarmer.cpp:358-372 | the first games after sorting are the best ones of all |
| `Sorting.SortSorts` | Sources/Modules/CardFarmer.cpp:358-360 | what stands for `std::sort` gives a sorted permutation, for any strict weak order |
| `CardFarmer.ChoiceUniqueUpToTies` | Sources/Modules/CardFarmer.cpp:380-402 | any two choices by the strategy agree in length and, up to ties, game by game: map order does not matter |
| `CardFarmer.ChoiceEmptyIff` | Sources/Modules/CardFarmer.cpp:380-402 | the strategy leaves nothing to farm only when there is nothing to farm |
| `CardFarmer.CardFarmerModule.PlayGames` | Sources/Modules/CardFarmer.cpp:409-456 | sends the stop message, and the start message when the sorted selection differs, and remembers the selection |
| `CardFarmer.MessagesSent` | Sources/Modules/CardFarmer.cpp:409-456 | a stop message always; a start message with the wanted games in ascending order unless this list is played already |
| `CardFarmer.CardFarmerModule.FarmGames` | Sources/Modules/CardFarmer.cpp:463-471 | plays a choice by the strategy, or nothing when farming is disabled |
| `Farming.MissingIsDifference` | Sources/Modules/CardFarmer.cpp:413-421 | the stop list is the set difference |
| `Farming.DiffReachesTarget` | Sources/Modules/CardFarmer.cpp:409-456 | the stop and start messages take a player of the old games to just the new ones |
| `Farming.HandledApplies` | Sources/Modules/PlayGames.cpp:288-300 | handling a message removes or adds just its games |
| `Farming.StepKeepsAgreement` | Sources/Modules/CardFarmer.cpp:409-456 | every decision, delivery and timer step keeps the agreement, and what the server was last sent right |
| `Farming.AgreementInEveryRun` | Sources/Modules/CardFarmer.cpp:409-456 | in every run the undelivered messages take the player's list to exactly the farmer's `playing`; once they are handled the two are equal, with at most two games |
| `Farming.ServerFollows` | Sources/Modules/PlayGames.cpp:188-341 | in every run the server has last been sent just the games not paused, each once; once the messages are handled these are among the farmer's games |
| `Farming.DecidedIsPlayed` | Sources/Modules/CardFarmer.cpp:409-456 | in whatever state a decision finds the two modules, once the messages are handled just the games decided on are listed |
| `PackageData.JsonRoundTrip` | Sources/Modules/PackageData.cpp:218-235 | a package read from its own JSON is the same package |
| `PackageData.JsonHasFields` | Sources/Modules/PackageData.cpp:229-235 | the fields of the file format |
| `PackageData.NumbersIff` | Sources/Modules/PackageData.cpp:192-211 | the application ids are the numbers in the object, in order; a value that is not a number makes the package unreadable |
| `PackageData.AppIdsMissing` | Sources/Modules/PackageData.cpp:196-199 | without such an object there are no ids |
| `PackageData.MyPackageData.Unlink` | Sources/Modules/PackageData.cpp:119-134 | takes exactly the links that the current entry accounts for out of the index, and the assertion on the count holds |
| `PackageData.MyPackageData.Link` | Sources/Modules/PackageData.cpp:137-151 | links the application ids up to the first that is repeated or linked already, and stores the package if and only if these are all |
| `PackageData.MyPackageData.StoreNew` | Sources/Modules/PackageData.cpp:117-152 | from any index whatever: packages and links afterwards; stored if and only if the ids are distinct and none has a link left over from an entry that was never stored; and the exact condition for an accurate index afterwards |
| `PackageData.StoredAccurateIff` | Sources/Modules/PackageData.cpp:117-152 | from any links: accurate afterwards if and only if those of the other packages were, none was left over for this one, and its ids are distinct or the old package had just the ids before the repetition |
| `PackageData.StoredFromAccurate` | Sources/Modules/PackageData.cpp:117-152 | from accurate links: stored if and only if the ids are distinct, and the condition for accurate links afterwards |
| `PackageData.StoredIff` | Sources/Modules/PackageData.cpp:137-151 | from any links: stored if and only if the ids are distinct and none is linked to the package by an entry that was never stored |
| `PackageData.RefusedWhileLinked` | Sources/Modules/PackageData.cpp:331-371 | a first update with ids `[a, a]` leaves a wrong index, after which a later update with `[a]` is refused |
| `PackageData.StoredWithStrayLink` | Sources/Modules/PackageData.cpp:331-371 | after that an update with other ids is stored, and the stray link stays |
| `PackageData.BeforeRepeatUnique` | Sources/Modules/PackageData.cpp:138-149 | the ids linked before the early return are determined, and are all of them exactly when none repeats or is linked already |
| `PackageData.MyPackageData.constructor` | Sources/Modules/PackageData.cpp:156-166 | loading gives the packages and links that storing one after the other gives, repeated ids or not; without any, the index equals a scan |
| `PackageData.MyPackageData.Load` | Sources/Modules/PackageData.cpp:156-166 | loading succeeds if and only if every package in the file is readable |
| `PackageData.LoadedAccurate` | Sources/Modules/PackageData.cpp:156-166 | a file whose packages repeat no id gives accurate links |
| `PackageData.MyPackageData.Update` | Sources/Modules/PackageData.cpp:331-371 | the effect of `AppliedReplaces`; an unreadable package changes nothing; change numbers never decrease; the file state stays right; an accurate index stays so unless an id is repeated |
| `PackageData.AppliedReplaces` | Sources/Modules/PackageData.cpp:331-371 | a readable package with a larger change number than the stored one, or not stored yet, is stored with what the response says, if its ids allow it; otherwise nothing is replaced |
| `PackageData.LargestIsStored` | Sources/Modules/PackageData.cpp:363-369 | over any run of responses without repeated ids, what is stored has the largest change number there was for it |
| `PackageData.MyPackageData.HandleResponse` | Sources/Modules/PackageData.cpp:432-438 | any response: all packages applied and the file written, or an exception without writing; change numbers never decrease; an accurate index stays so unless an id is repeated |
| `PackageData.NeverOlder` | Sources/Modules/PackageData.cpp:363-369 | over any run of updates, repeated ids or not, no package is replaced by an older one |
| `PackageData.AppliedAllAccurate` | Sources/Modules/PackageData.cpp:331-371 | over any run of updates without repeated ids the links stay accurate |
| `PackageData.MyPackageData.Save` | Sources/Modules/PackageData.cpp:381-392 | afterwards loading the file gives the packages in memory, with an accurate index even if the one in memory is not |
| `PackageData.MyPackageData.LookupLicense` | Sources/Modules/PackageData.cpp:476-491 | finds a package exactly when it is at least as new as the licence |
| `PackageData.MyPackageData.LookupApp` | Sources/Modules/PackageData.cpp:495-515 | the stored packages linked to the application, each once; with an accurate index, those that contain it, and nothing else |
| `PackageData.FileFollowsOrder` | Sources/Modules/PackageData.cpp:239-252 | different packages get different keys, so the file has one item for each |
| `PackageData.ReloadGivesSame` | Sources/Modules/PackageData.cpp:239-252 | saving and loading gives the same packages, with accurate links, whatever the map's order |
| `PackageData.IndexDetermined` | Sources/Modules/PackageData.cpp:495-515 | the index rebuilt by loading answers every lookup like the one maintained in place |
| `Redirect.NestingIsHarmless` | Sources/Asio/BasicQueryRedirect.cpp:60-75 | any number of nested wrappers acts like one: the original callback runs exactly when the attempt is not redirected |
| `Redirect.RedirectSettles` | Sources/Asio/BasicQueryRedirect.cpp:26-52 | what redirects: a found response with a new URL, or an early failure on such a response from before; and a redirected query will not be redirected on its old response |
| `Redirect.BasicQuery.PerformWithRedirect` | Sources/Asio/BasicQueryRedirect.cpp:60-75 | wraps the callback once |
| `Redirect.BasicQuery.Complete` | Sources/Asio/BasicQuery.cpp:113-125 | runs the wrappers from the outermost inwards, with the effect of `Invoke` |
| `Redirect.ChainFollows` | Sources/Asio/BasicQueryRedirect.cpp:60-75 | a chain of attempts under growing nesting is a plain loop that follows redirects and then calls the original callback once |
| `Redirect.RedirectsReachUrl` | Sources/Asio/BasicQueryRedirect.cpp:26-52 | after replies with status 302 and the targets `urls`, each different from the one before, the attempt is made for the last of them |
| `Redirect.FollowedToTheEnd` | Sources/Asio/BasicQueryRedirect.cpp:60-75 | and the outcome that ends such a chain is what the caller gets: the last URL, the response of that attempt, and whether it failed |
| `Redirect.FollowOneMore` | Sources/Asio/BasicQueryRedirect.cpp:60-75 | one more attempt either redirects again or ends the chain |
| `Redirect.FailureEndsChain` | Sources/Asio/BasicQueryRedirect.cpp:26-75 | for a query not used before, the first failure ends the chain at the latest, with the caller's query |
| `Redirect.FailureEndsChainIff` | Sources/Asio/BasicQueryRedirect.cpp:26-75 | a failed attempt of any chain ends it if and only if the query held no redirecting response, or it is not the first attempt, or the response had been reset before it failed |
| `Redirect.FailureRedirects` | Sources/Asio/BasicQuery.cpp:210-215 | a used query whose only attempt fails before anything is sent is redirected all the same |
| `RateLimit.StartQueryRestores` | Sources/Asio/RateLimit.cpp:63-101 | `startQuery` establishes the invariant, liveness included, whatever woke it |
| `RateLimit.CompletionKeeps` | Sources/Asio/RateLimit.cpp:44-52 | a completion keeps order, spacing and liveness |
| `RateLimit.RateLimited` | Sources/Asio/RateLimit.cpp:38-124 | in every run, stale timer handlers included: one query at a time, first in first out, each completed once, with what following its redirects makes of the query enqueued, and started at least `schedule` after the previous completion; queued queries always have something on the way that starts them |
| `RateLimit.AttemptHasEffect` | Sources/Asio/BasicQueryRedirect.cpp:60-75 | in every run: a reply with status 302 and another URL makes the next attempt go to that URL; any other reply, or a failure, is what the caller is notified with |
| `RateLimit.RecordedNow` | Sources/Asio/RateLimit.cpp:38-124 | starts and completions are recorded when they happen, and just the queries given to `enqueue` are accounted for |
| `RateLimit.StepKeeps` | Sources/Asio/RateLimit.cpp:38-124 | every handler keeps order, spacing, liveness and the state of the query in progress |
| `RateLimit.NeverStuck` | Sources/Asio/RateLimit.cpp:84-97 | and that something does start the first queued query once the time has come |
| `RateLimit.RateLimitQueue.Limits` | Sources/Asio/RateLimit.cpp:38-124 | `RateLimited` of every object of the class, whatever has been called on it |
| `RateLimit.RateLimitQueue.RunQuery` | Sources/Asio/RateLimit.cpp:38-55 | the query is in progress under its first redirect wrapper, and its start is recorded now |
| `RateLimit.RateLimitQueue.StartQuery` | Sources/Asio/RateLimit.cpp:63-101 | starts the front query if none is in progress and the time has come, otherwise leaves exactly one timer wait; it is the machine's `AfterStartQuery` |
| `RateLimit.RateLimitQueue.Enqueue` | Sources/Asio/RateLimit.cpp:111-124 | the query joins the end of the queue; the machine's step `Enqueued` |
| `RateLimit.RateLimitQueue.AttemptEnds` | Sources/Asio/RateLimit.cpp:44-52 | a redirect is posted, or the query is completed, the timer set and the next query considered; the machine's step `Attempted` |
| `RateLimit.RateLimitQueue.RedirectPerformed` | Sources/Asio/BasicQueryRedirect.cpp:65-67 | the posted redirect wraps the callback once more and starts another attempt; the step `Performed` |
| `RateLimit.RateLimitQueue.TimerExpires` | Sources/Asio/RateLimit.cpp:84 | a wait that has expired can no longer be cancelled; the step `Expired` |
| `RateLimit.RateLimitQueue.TimerFires` | Sources/Asio/RateLimit.cpp:84-97 | a handler that runs, perhaps late and stale, only considers the next query; the step `Fired` |
| `Connection.WritePump` | Sources/Asio/Connections.cpp:260-306 | in every run: at most one draining fiber; the wire carries a prefix, in order, of the packets accepted and the queue the last of them; every packet in the queue that was handed in while connected has, while connected, a writer or a drain task coming |
| `Connection.Connection.Pumps` | Sources/Asio/Connections.cpp:260-306 | the same of every object of the class, whatever has been called on it |
| `Connection.StepKeeps` | Sources/Asio/Connections.cpp:260-306 | every push, task, check, take, write and status change keeps the order, the single writer and someone to attend to the queue |
| `Connection.WriteHasEffect` | Sources/Asio/Connections.cpp:277-304 | a write puts its packet on the wire; or the packet is lost, with the status end of file in that case and error in any other |
| `Connection.StatusChanges` | Sources/Asio/Connections.cpp:277-304 | otherwise the status changes only from connecting to connected, and to end of file |
| `Connection.NeverConnectedAgain` | Sources/Asio/Connections.cpp:260-306 | a connection that has failed or ended is never connected again |
| `Connection.AcceptedWhenWritten` | Sources/Asio/Connections.cpp:463-468 | the packets accounted for are just those given to `writePacket`, each recorded with whether the connection was connected then |
| `Connection.DrainedEmptiesQueue` | Sources/Asio/Connections.cpp:260-306 | a drain left to itself writes the whole queue in order |
| `Connection.DeliveredIffConnected` | Sources/Asio/Connections.cpp:463-490 | a packet given to an idle connection gets out, with all before it, if and only if the connection is connected |
| `Connection.EarlyPacketIsStuck` | Sources/Asio/Connections.cpp:264 | a run, with the drain task before the connection is made, after which a packet waits on a connected connection with nobody to write it |
| `Connection.EarlyPacketIsWritten` | Sources/Asio/Connections.cpp:472-489 | a run in which the drain task comes after the connection is made, and the early packet gets out |
| `Connection.Connection.WritePacket` | Sources/Asio/Connections.cpp:463-468 | the packet joins the queue under the mutex, its drain task not yet posted; the machine's step `Push` |
| `Connection.Connection.DrainTask` | Sources/Asio/Connections.cpp:472-489 | starts a fiber exactly if none drains and the queue is not empty; the step `Task` |
| `Connection.Connection.PostTask` | Sources/Asio/Connections.cpp:470-472 | one drain task more is posted; the step `Post` |
| `Connection.Connection.CheckStatus` | Sources/Asio/Connections.cpp:264 | the loop goes on only while connected, otherwise the flag is cleared; the step `Check` |
| `Connection.Connection.EndFiber` | Sources/Asio/Connections.cpp:483-486 | the fiber leaves and clears the flag |
| `Connection.Connection.TakePacket` | Sources/Asio/Connections.cpp:267-275 | the fiber takes the front packet, or ends and clears the flag; the step `Take` |
| `Connection.Connection.WriteEnds` | Sources/Asio/Connections.cpp:277-304 | the packet is on the wire, or lost with the status changed to end of file or error; the step `Write` |
| `Executor.RunOrKilled` | Sources/Modules/Executor.cpp:137-218 | in every run each accepted function is run once or killed, never both, in the order of submission, its caller is told which, `getFunction` finds one after `wait`, and at the end the queue is empty |
| `Executor.StepKeeps` | Sources/Modules/Executor.cpp:137-218 | every submission, cancellation, wait, execution and kill keeps order, statuses and the rules of shutting down |
| `Executor.NothingAcceptedAfterCancel` | Sources/Modules/Executor.cpp:207-214 | from cancellation on, nothing is accepted |
| `Executor.CancelRefuses` | Sources/Modules/Executor.cpp:108-115 | whatever happens after a cancellation, the module stays cancelled and accepts nothing |
| `Executor.AcceptedIffNotCancelled` | Sources/Modules/Executor.cpp:207-214 | a function is accepted exactly if it is submitted without a cancellation before |
| `Executor.EverythingRuns` | Sources/Modules/Executor.cpp:170-180 | without cancellation, the fiber left to itself runs everything accepted, in order, and every caller is told so |
| `Executor.EveryCallerAnswered` | Sources/Modules/Executor.cpp:170-196 | once cancelled, in whatever phase, the fiber left to itself runs the function it has fetched, kills the others in order and answers every caller |
| `Executor.ExecutorModule.Execute` | Sources/Modules/Executor.cpp:200-218 | up to the wait, whose answer is `Result`: the function joins the queue, or is refused exactly when cancelled; the step `Submit` |
| `Executor.ExecutorModule.CancelModule` | Sources/Modules/Executor.cpp:108-115 | sets the flag and nothing else; the step `Cancel` |
| `Executor.ExecutorModule.WaitEnds` | Sources/Modules/Executor.cpp:153-166 | goes on to a function, or to the handler exactly when cancelled; the step `Wait` |
| `Executor.ExecutorModule.Result` | Sources/Modules/Executor.cpp:82-87 | true exactly if the function has been run, and a final false exactly if it has been killed |
| `Executor.ExecutorModule.TakeFunction` | Sources/Modules/Executor.cpp:137-149 | the front of the queue, or null |
| `Executor.ExecutorModule.RunNext` | Sources/Modules/Executor.cpp:178-179 | after `wait` there is a function, and it is run |
| `Executor.ExecutorModule.Shut` | Sources/Modules/Executor.cpp:182-195 | the handler cancels and kills all that is left; a run of the machine |
| `Executor.ExecutorModule.KillRest` | Sources/Modules/Executor.cpp:189-193 | the loop kills the queue in order and the fiber ends |
| `Executor.ExecutorModule.Settles` | Sources/Modules/Executor.cpp:137-218 | `RunOrKilled` of every object of the class, whatever has been called on it |
| `Session.FoldKeepsAll` | Sources/Modules/Login-Session.cpp:129-134 | of the sessions looked at, each is answered or still open, whatever the user has typed |
| `Session.EraseAnswers` | Sources/Modules/Login-Session.cpp:74-99 | `handleInputs` conserves the sessions, and launches each answered one with the text of its answer in the field asked for |
| `Session.HandleInputsAnswers` | Sources/Modules/Login-Session.cpp:74-99 | each open session is looked at once, and just those with a result are answered, with the text of that result |
| `Session.NoSessionIsStranded` | Sources/Modules/Login-Session.cpp:129-246 | in every run of any number of overlapping bodies: at most one has not quit, those that have hold nothing, every session is in exactly one place, and without a running body nothing is left |
| `Session.SessionThread.StrandsNone` | Sources/Modules/Login-Session.cpp:129-246 | the same of every object of the class, whatever has been called on it |
| `Session.StepKeeps` | Sources/Modules/Login-Session.cpp:129-246 | every step of any body, and every call of `run`, keeps the invariant |
| `Session.AskedInOrder` | Sources/Modules/Login-Session.cpp:137-165 | questions are opened in the order in which sessions were given |
| `Session.DroppedIffComplete` | Sources/Modules/Login-Session.cpp:152-163 | a session is dropped, against the assertion in `launchSessions`, exactly if it was given with both a password and a code |
| `Session.LaunchedWithAnswer` | Sources/Modules/Login-Session.cpp:74-99 | in every run each answered session has launched its client with the text of its answer as the password if there was none, and otherwise as the missing guard code |
| `Session.GivenAreRuns` | Sources/Modules/Login-Session.cpp:232-245 | the sessions accounted for are just those that `run` was called with |
| `Session.EverySessionCanBeSettled` | Sources/Modules/Login-Session.cpp:168-222 | from every reachable state, steps of the running body alone settle every session and end it |
| `Session.SessionThread.RunSession` | Sources/Modules/Login-Session.cpp:232-245 | the session joins the thread queue, and a body is started only if none runs; the step `Run` |
| `Session.SessionThread.LaunchNext` | Sources/Modules/Login-Session.cpp:139-164 | one iteration: the front session gets a question for the first thing it lacks; the steps `Take` and `Place` |
| `Session.SessionThread.LaunchSessions` | Sources/Modules/Login-Session.cpp:137-165 | the loop empties the fiber queue, opening a question for each session in turn; a sequence of the steps `Take` and `Place` |
| `Session.SessionThread.HandleInputs` | Sources/Modules/Login-Session.cpp:129-134 | answered sessions leave the list and their clients are launched; the step `HandleInputs` |
| `Session.SessionThread.Decide` | Sources/Modules/Login-Session.cpp:184-197 | ends the body exactly when all three containers are empty; the step `Decide` |
| `Session.SessionThread.Communicate` | Sources/Modules/Login-Session.cpp:202-215 | returns after the end, or moves all waiting sessions over in order; the step `Comm` |
| `Clients.OneLivePerAccount` | Sources/Client/Client.cpp:154-215 | in every run of launches, quits and restarts: an account is active if and only if exactly one thread is live or one launch is pending for it |
| `Clients.ClientThreads.LivesOnce` | Sources/Client/Client.cpp:154-215 | the same of every object of the class, whatever has been called on it |
| `Clients.StepKeeps` | Sources/Client/Client.cpp:154-215 | every step of every caller and thread keeps the ownership of accounts, the client pointers, the handle count and the link to successors |
| `Clients.ClientSetWhileRunning` | Sources/Client/ClientInfo.cpp:73-77 | the client pointer is set exactly while a thread of the account runs; the assertion on `isActive` holds for every launch |
| `Clients.WaitAllReturnsIff` | Headers/Client/Counter.hpp:43-84 | the counter is the number of handles; it is zero if and only if every thread is gone and no closure exists |
| `Clients.WaitAllSeesRestarts` | Sources/Client/Client.cpp:196-200 | when `waitAll` can return, every thread that chose to restart has a successor that is gone as well |
| `Clients.ActiveAfterWaitAllIff` | Sources/Client/Client.cpp:222-226 | an account is active then if and only if a caller is between `setActive` and its counter handle |
| `Clients.CallIsNotYetCounted` | Sources/Client/Client.cpp:156-165 | that can happen |
| `Clients.FirstQuitWins` | Sources/Client/Client.cpp:64-72 | the first call of `quit` decides for good whether a client restarts |
| `Clients.QuitModeIsFirst` | Sources/Client/Client.cpp:64-72 | in every run the quit mode of a thread is what the first effective call of `quit` on it asked for |
| `Clients.QuitDecides` | Sources/Client/Client.cpp:186-204 | a running client that is told to quit sleeps before a restart if and only if that was asked for, and otherwise its account becomes inactive |
| `Clients.RestartsOnlyIfAsked` | Sources/Client/Client.cpp:189-200 | in every run a client restarts only if the first call of `quit` asked for it |
| `Clients.EndsWithoutQuit` | Sources/Client/Client.cpp:191-194 | a client whose fibers end without a quit does not restart; its account becomes inactive and its handle goes |
| `Clients.RestartLeadsToSuccessor` | Sources/Client/Client.cpp:196-200 | a sleeping thread left to itself starts a successor for its account, which stays active and gets the new client, and is gone itself |
| `Clients.LaunchLeadsToThread` | Sources/Client/Client.cpp:154-186 | a launch for an inactive account, left to itself, makes it active and gives it a running thread and client |
| `Clients.LaunchOnlyOnce` | Sources/Client/Client.cpp:211-214 | a launch for an active account does nothing |
| `Clients.Counter.Acquire` | Headers/Client/Counter.hpp:49-61 | one more handle |
| `Clients.Counter.Release` | Headers/Client/Counter.hpp:63-71 | one handle less, never below zero; waiters are notified exactly for the last one |
| `Clients.Counter.IsEmpty` | Headers/Client/Counter.hpp:80-84 | the condition of `wait` is that no handle exists |
| `Clients.ClientThreads.SetActive` | Sources/Client/ClientInfo.cpp:55-61 | test and set |
| `Clients.ClientThreads.LaunchClient` | Sources/Client/Client.cpp:154-215 | a launch begins exactly if the account was not active; the step `Call` |
| `Clients.ClientThreads.MakeClosure` | Sources/Client/Client.cpp:165 | the closure of the launch has a handle; the step `MakeHandle` |
| `Clients.ClientThreads.EndLaunch` | Sources/Client/Client.cpp:165 | the closure's handle goes, and a restarting parent may end; the step `DropClosure` |
| `Clients.ClientThreads.BeginRunning` | Sources/Client/Client.cpp:170-172 | the client pointer of the account is set; the step `SetClient` |
| `Clients.ClientThreads.ResetClient` | Sources/Client/Client.cpp:186 | the client pointer is reset; the step `ClearClient` |
| `Clients.ClientThreads.StartThread` | Sources/Client/Client.cpp:165 | the new thread has its own handle before the closure's is dropped; the step `Spawn` |
| `Clients.ClientThreads.QuitThread` | Sources/Client/Client.cpp:64-72 | only the first quit sets the mode; the step `QuitClient` |
| `Clients.ClientThreads.SwitchOnQuitMode` | Sources/Client/Client.cpp:189-204 | `active` is reset exactly if there is no restart; the step `Switch` |
| `Clients.ClientThreads.RelaunchThread` | Sources/Client/Client.cpp:196-200 | a launch begins without touching `active`; the step `Relaunch` |
| `Clients.ClientThreads.ExitThread` | Sources/Client/Client.cpp:165 | the thread's own handle goes last; the step `Exit` |
| `Serialize.FromToBytes` | Headers/Connection/Serialize.hpp:76-81 | little-endian bytes give back the number |
| `Serialize.ToFromBytes` | Headers/Connection/Serialize.hpp:170-181 | the number gives back its little-endian bytes |
| `Serialize.LittleEndian` | Headers/Connection/Serialize.hpp:170-181 | a byte behind the others counts for the most |
| `Serialize.ByteOrder` | Headers/Connection/Serialize.hpp:76-81 | the bytes of 0x01020304 and, as a signed integer, of -2 |
| `Serialize.DecodeEncode` | Headers/Connection/Serialize.hpp:170-181 | reading a stored integer of any width and signedness gives it back |
| `Serialize.EncodeDecode` | Headers/Connection/Serialize.hpp:76-81 | storing an integer that was read gives back its bytes |
| `Serialize.Serializer.Store` | Headers/Connection/Serialize.hpp:68-81 | appends the bytes of one field and returns their number |
| `Serialize.Serializer.StoreAll` | Headers/Connection/Serialize.hpp:96-101 | appends the bytes of all fields in order and returns their number |
| `Serialize.Deserializer.GetBytes` | Headers/Connection/Serialize.hpp:158-167 | takes the bytes off the front, or throws and takes nothing |
| `Serialize.Deserializer.Get` | Headers/Connection/Serialize.hpp:170-181 | the same for an integer |
| `Serialize.Deserializer.GetAll` | Headers/Connection/Serialize.hpp:196-200 | reads field by field; those before the data ran out stay read |
| `Serialize.GetUndoesStore` | Headers/Connection/Serialize.hpp:196-200 | reading the field list that was stored gives back every value and leaves what follows |
| `Serialize.StoreUndoesGet` | Headers/Connection/Serialize.hpp:96-101 | storing what was read gives back the bytes |
| `Serialize.HandleMulti` | Sources/Modules/MultiPacket.cpp:88-104 | on any body, exactly the non-empty packets among its complete frames are handed over, in order, and it terminates |
| `Serialize.NonEmptyInOrder` | Sources/Modules/MultiPacket.cpp:94-98 | leaving out packets goes packet by packet, so the others stay in order |
| `Serialize.NonEmptyOne` | Sources/Modules/MultiPacket.cpp:94-98 | a single packet is left out if and only if it is empty |
| `Serialize.FramesCoverData` | Sources/Modules/MultiPacket.cpp:88-104 | any body is its complete frames and a remainder that does not start with one |
| `Serialize.FramesAreUnique` | Sources/Modules/MultiPacket.cpp:88-104 | in only one way: a body built from packets, cut off anywhere, gives just the packets that are complete |
| `Json.CreateSucceedsIffOpen` | Headers/Helpers/JSON.hpp:149-171 | creating succeeds if and only if the existing nodes on the way are objects; a failure changes nothing |
| `Json.GetItemIsNode` | Headers/Helpers/JSON.hpp:124-135 | an item is found if and only if the nodes on the way are objects and lead to it; otherwise null, or an exception at a node that is not an object |
| `Json.GetAfterCreate` | Headers/Helpers/JSON.hpp:149-171 | the created item is found, null if new, otherwise with its value |
| `Json.CreateExisting` | Headers/Helpers/JSON.hpp:149-171 | creating what exists changes nothing at all |
| `Json.EditsAreLocal` | Headers/Helpers/JSON.hpp:185-203 | neither edit is visible on a path that parts ways with the edited one |
| `Json.GetAfterErase` | Headers/Helpers/JSON.hpp:185-203 | an erased item is not found any more |
| `Json.EraseSucceedsIffOpen` | Headers/Helpers/JSON.hpp:185-203 | erasing succeeds if and only if the existing nodes on the way are objects; a failure changes nothing |
| `Json.EraseAbsentIff` | Headers/Helpers/JSON.hpp:185-203 | erasing an absent item changes nothing if and only if no object on the way but the root was empty |
| `Json.EraseUndoesCreateIff` | Headers/Helpers/JSON.hpp:185-203 | erasing what was created restores the tree if and only if the item was absent and no object on the way but the root was empty |
| `Json.EmptyObjectIsPruned` | Headers/Helpers/JSON.hpp:185-203 | creating and erasing an item in an empty object removes that object |
| `Html.CheckClass` | Sources/Helpers/HTML.cpp:16-59 | true if and only if some maximal run without spaces, in lower case, is the class name; and, unless the precondition fails, no comparison goes beyond the terminator of the class name |
| `Html.LowerIsAscii` | Sources/Helpers/HTML.cpp:37-40 | the lower case of the ASCII letters; any other character stays |
| `Html.GetCleanText` | Sources/Helpers/HTML.cpp:74-124 | the words of all text below the element, in order, separated by single spaces |
| `Html.CleanTextSteps` | Sources/Helpers/HTML.cpp:86-121 | the result character by character: a blank, tab, line feed or carriage return adds nothing, any other character is added, after one space if such a one came before it and there was text already |
| `Html.FeedCollects` | Sources/Helpers/HTML.cpp:86-103 | one character keeps the collector's result the arrangement of the words so far |
| `Html.Collector.CollectText` | Sources/Helpers/HTML.cpp:84-104 | one text node adds its characters to the arrangement of the words so far |
| `Html.WordsAreSolid` | Sources/Helpers/HTML.cpp:86-103 | words are not empty and do not end in a blank |
| `Html.Collector.Collect` | Sources/Helpers/HTML.cpp:80-114 | the recursion adds the flattened text of the subtree |
| `LicenseList.Handle` | Sources/Modules/LicenseList.cpp:207-250 | a merge for any message: the packages are those with an id other than 0, and each gets its last own licence, or its first family licence if it has no own one; the new licences are the final packages without the known ones; and the exact value of the counter |
| `LicenseList.CounterRightIff` | Sources/Modules/LicenseList.cpp:216-250 | the counter equals the number of family licences in the map if and only if no package has two own licences, the code's own assertion; for up to 2^31-1 licences, as the index is an `int` |
| `LicenseList.NeverUnderflows` | Sources/Modules/LicenseList.cpp:233-247 | without two own licences of a package, the counter is never below zero after any part of the message |
| `LicenseList.CounterWrapsAround` | Sources/Modules/LicenseList.cpp:238-247 | two own licences of one package: no family licence, and the counter at its maximum |
| `LicenseList.FamilyCount` | Sources/Modules/LicenseList.cpp:218-250 | the family licences in the map are the packages without an own licence |
| `LicenseList.OwnCounted` | Sources/Modules/LicenseList.cpp:244 | own licences outnumber the packages that have one exactly when the assertion fails |
| `LicenseList.OrderDoesNotMatter` | Sources/Modules/LicenseList.cpp:218-250 | for any message the packages, and which of them are family licences, do not depend on the order; nor do the own licences, if no package has two |

## Left out

- Sockets, TLS, gzip, protobuf, JSON and HTML text parsing, logging and user interface output: payloads are opaque values, and what is sent is a log.
- Wake-ups and condition variables: a waiting fiber may go on at any time at which its condition holds; that a notification is never lost is not claimed.
- The second half of a connection (`readPacket`, the read queue) and its endpoint selection.
- Exceptions thrown by the functions given to the executor: they never get a status; the functions here return.
- Re-entrant calls: an `enqueue` from within `completed()`, or a waiter whose last reference is dropped by its own callback during delivery.
- `Messageboard` and `Whiteboard` items of different C++ types: payloads have one type, the type index is a number, and a waiter is known by its identity.
- The rare shapes of `Whiteboard::get` without a default, which assert that the value exists.
- JSON trees are edited as values that replace each other, so references into a tree, such as the one `createItem` returns, are not modelled.
- `boost::json::object` for packages: an item list in insertion order; a number is what it converts to.
- Sessions are values: a session given again while it is still in a queue counts as another one, and its fields do not change while it is there.
- `ClientInfo::create`, `find` and groups, `quitAll`, module creation and `waitReady`.
- `handleBadgeData`, refundable games and the user interface of the card farmer; `playing` messages from other senders.
- The DLC loop of the application database, enumeration tables, trade and web form modules, machine information, the login RPC sequence, and small conversion helpers.
- `KeyValue`, `CookieJar` and URL encoding are not part of this model.
- Html.CheckClass: a class attribute in which, before any class name has matched, a zero character directly follows the complete class name, as the comparison would go on beyond the terminator there, which has no defined meaning.
- Connection.Connection.WriteEnds: a write that ends with `operation_aborted`, against which the program has an assertion (Sources/Asio/Connections.cpp:291-293).
- Clients.ClientThreads.QuitThread: `Client::quit` tests and sets the mode without a lock; it is one step here, as its callers are on the thread of the client.
