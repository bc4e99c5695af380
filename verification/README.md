# WS-Perftester: verified model

WS-Perftester measures a WebSocket server with many machines at once. A controller
synchronises a fixed number of listeners, tells each of them to launch child processes,
synchronises the children, publishes the work, and collects one statistics line for every
connection until every child has been reported as exited. Inside a child, every connection
is a client with two threads: a sender loop, and handlers that the network library calls
when the connection opens, closes, fails or echoes a message.

The model has three parts, and a fourth that joins them.

* **The client** (`Telemetry`, `BaseClient`, `Scripts`). `Telemetry` is a transition
  system: each critical section, each unlocked write and each handler is one step, and a
  run is any interleaving of them. `BaseClient` is the object itself, with its handlers and
  its loop written as methods that update fields; every method is tied to steps of the
  transition system. The methods follow a script that names the handlers between their
  steps; `Scripts` shows that scripts reach exactly the states in which a client can end.
* **The coordination protocol** (`Protocol`, `Invariant`, `Steps`, `Barriers`,
  `Conservation`, `Ordering`, `Completion`, `Records`, `NoDeadlock`, `Stuck`,
  `Shutdown`, `LostResult`, `Delivery`). Controller, listeners, children, subscriptions, publications, the request
  sockets and the fan-in sink form one transition system with any number of listeners,
  children and connections.
* **Reports** (`Text`, `Decimal`, `Report`, `Statistics`, `UnequalCounts`, `Wire`, `Sink`,
  `Programs`). Printing and reading numbers, frames of messages, the loops that take them
  apart, and the totals the controller accumulates.
* **The whole** (`Decoding`, `Loops`, `EndToEnd`, `ExitStatus`, `Outcomes`,
  `Achievable`, `ReportedVariance`, `Limits`). In every run, what the programs read is what was
  published, what the controller reports is what the clients experienced, and its counters
  stay within stated bounds; and whatever clients can experience, some run reports it.

## Environment

These are the assumptions about what surrounds the programs. They are part of the model's
steps and appear in no contract as a hidden hypothesis.

* The peer echoes an accepted message at most once; a send that returns an error delivers
  nothing; a later clock reading is not smaller than an earlier one.
* Subscriptions of one peer reach the publisher in the order in which they were made, at
  any later time. A publication reaches exactly the peers that then have a matching
  subscription; publications to one peer stay in order and none is dropped.
* Multipart messages are atomic. Messages from one sender stay in order; the sink
  interleaves different senders in any way, however late.
* A request socket alternates strictly: one request, then blocked until the reply.
  Receiving a request and replying to it is one step of the controller.
* A child may crash, or have its work cut short by an exception, at any time. Of a crashed
  child, the results that were already handed to the socket may still arrive.
* `machines` and `processes` are natural numbers; `instances`, `messages`, `interval` and
  `message_length` are any integers, negative ones included.

## What the source does, where one might expect otherwise

* **Results can be lost.** Children and listeners send to the sink over different
  connections, so an exit report can overtake the results of the child it reports. The
  controller stops at the last exit report, and what arrives later is never read. With
  any configuration that calls for results and enough listeners there is a run in which no
  child leaves early, every connection is perfect, and the controller ends with no result
  at all; results are safe in all runs only when none are called for
  (`LostResult.NothingEverLostExactlyWhen`). Of one run, it is decided where the last exit
  report is delivered: every result is received if and only if no result is underway then
  (`Delivery.DeliveryOrderDecides`).
* **The reported variance is not the variance of all samples.** It is the pooled variance
  within connections. For equal counts it lacks exactly the variance of the connection
  means. It is bounded by the variance of all samples for whatever latencies if and only if
  the contributing connections have equal counts (`ReportedVariance.NeverAboveTotalExactly`).
* **A send can follow the close.** Between the check of `m_done` and the send there is a
  window; exactly in it one send can still happen
  (`Telemetry.OvershootExactlyInWindow`).
* **Most crashes are survived, one is not.** A child that exits while it is still waiting for
  HELLO never asks to be counted, and the controller waits for it for ever. Apart from
  that, and with enough listeners, every run can come to its end, whatever has crashed or
  was cut short (`NoDeadlock.CanEndExactlyWhen`). As soon as there are children, some run is
  stuck (`Stuck.AlwaysCanEndExactlyWhen`).
* **Surplus listeners never terminate.** Only the `machines` listeners that were answered
  act on END (`Shutdown.AllEndExactlyWhen`).
* `m_failed` is set only by the fail handler. A connection that closes early prints
  `success`; the controller counts it as died because its sample count is too small.
* A child whose work is cut short by an exception still exits with status 0 and is counted
  as finished (`ExitStatus.FinishedAndDied`).
* Once the last message is sent the client closes after a fixed delay without waiting for
  its echo.
* With a negative message total the client sends nothing and calls `fail`.
* Comments that the code does not follow, in which case the model follows the code: a send
  error does not stop the loop (`clients/base-client.hpp:230-238`, the `break` is commented
  out); `send_messages` (`controller.cpp:18`) is published and decoded but the client never
  looks at it; `run` does not block until the connection is complete
  (`clients/base-client.hpp:80`).
* The branch of the reap loop for a failing wait (`listener.cpp:136-142`) cannot be reached.

Doubles are exact reals. Printing them is a codec of which nothing is known except that
every double prints as one word; how precisely it prints is a parameter `delta`, and the
results on the reported mean and variance hold to within `delta`, for every `delta >= 0`
(0 gives the exact statements). What an accumulator without samples prints (the largest
and the lowest double, and not-a-number) need not be readable.

## Model

| member | source | states |
|---|---|---|
| Telemetry.InvStep | clients/base-client.hpp:113-253 | every step of the sender and every handler keeps the client's invariant |
| Telemetry.LatencyAttribution | clients/base-client.hpp:145-238 | in every interleaving of the sender with the handlers at most one message is in flight, and sample i is the time from the i-th accepted send to the i-th echo |
| Telemetry.SamplesAreWholeMicroseconds | clients/base-client.hpp:145-157 | a thousand times the i-th sample is the number of whole microseconds in the nanoseconds from the i-th accepted send to the i-th echo |
| Telemetry.SendConservation | clients/base-client.hpp:219-239 | at every loop head the counter is echoes plus messages in flight plus rejected sends, and the pending flag is up exactly when a message is in flight, the unlocked reset notwithstanding |
| Telemetry.BoundedOvershoot | clients/base-client.hpp:194-228 | after the connection is done, every continuation attempts at most the one send whose check had already passed |
| Telemetry.OvershootExactlyInWindow | clients/base-client.hpp:194-228 | of a client that is done, some continuation attempts a send if and only if its sender is past the check and has not sent yet |
| Telemetry.WindowIsReached | clients/base-client.hpp:194-228 | with any positive number of messages a connection can close inside that window |
| Telemetry.NoSendBeforeOpen | clients/base-client.hpp:113-143 | no run attempts a send before the open handler has run, and each flag is up exactly when one of its handlers has run |
| Telemetry.LoopOutcome | clients/base-client.hpp:183-252 | a sender that has returned called exactly one of close and fail: close exactly when every message was attempted, fail with a non-negative total only after the connection was done; its passes are the sends, the waiting passes and the pass that broke out |
| Telemetry.PassBound | clients/base-client.hpp:183-242 | in every run, finished or not, the passes are at most the messages and the waiting passes |
| Telemetry.BoundedWaitingEnds | clients/base-client.hpp:183-252 | a sender that waits at most w times takes at most 5 * total + 2 * w + 3 steps, each of them is possible until it has returned, and by then it has |
| Telemetry.DoneStopsWaiting | clients/base-client.hpp:194-211 | once a client is done, opened or not, no run makes another waiting pass, and within six steps of its own the sender has returned |
| Telemetry.ReadySends | clients/base-client.hpp:194-241 | a client that is open, not done, has nothing pending and messages left attempts a send within four steps of its sender, whatever was rejected before, unless the connection closes or fails |
| Telemetry.AnyLatencies | clients/base-client.hpp:145-238 | every sequence of at most `total` echo times is the samples of some finished client that never failed, and a perfect one when they are as many as messages |
| Telemetry.SamplesNonNegative | clients/base-client.hpp:145-157 | no client ever records a negative latency |
| Telemetry.SampleCountDecides | controller.cpp:183-191 | of a finished client, "no failure and as many samples as messages" holds exactly when it never failed and all of its sends were accepted and echoed |
| BaseClient.TelemetryClient.constructor | clients/base-client.hpp:46-58 | a new client is in the initial state of the transition system |
| BaseClient.TelemetryClient.OnOpen | clients/base-client.hpp:113-122 | the open handler is the Open step |
| BaseClient.TelemetryClient.OnClose | clients/base-client.hpp:125-132 | the close handler is the Close step: done, but not failed |
| BaseClient.TelemetryClient.OnFail | clients/base-client.hpp:135-143 | the fail handler is the Fail step: failed and done |
| BaseClient.TelemetryClient.OnEcho | clients/base-client.hpp:145-157 | the message handler clears the flag and records the time since the last stamp, in whole microseconds |
| BaseClient.TelemetryClient.CheckReady | clients/base-client.hpp:194-211 | the first critical section decides between leaving, waiting and sending as the sender's Check step does |
| BaseClient.TelemetryClient.CountMessage | clients/base-client.hpp:219 | counting happens between the two critical sections, without the lock |
| BaseClient.TelemetryClient.SendUnderLock | clients/base-client.hpp:221-228 | the second critical section raises the flag, stamps the clock and sends, in one step |
| BaseClient.TelemetryClient.ResetAfter | clients/base-client.hpp:235-239 | the unlocked reset clears the flag only after a send error, and the loop goes on |
| BaseClient.TelemetryClient.LoopBody | clients/base-client.hpp:183-242 | one pass, with any handlers between its steps, is a run of the transition system and ends in the state AfterPass gives |
| BaseClient.TelemetryClient.Finish | clients/base-client.hpp:243-252 | handlers may run between the loop and the call; then exactly one call is made, close when the counter has reached the total and fail otherwise |
| BaseClient.TelemetryClient.TelemetryLoop | clients/base-client.hpp:172-253 | the loop and the closing call, interleaved with handlers before each step, produce a run of the transition system, so that all of the above holds of the object; a script of as many passes as messages and waits makes it return |
| Scripts.FinalExactlyScripted | clients/base-client.hpp:107-253 | the states in which scripts end are exactly those in which a client's threads can end: taking handlers between the steps of the sender leaves out no interleaving |
| BaseClient.TelemetryClient.GetStats | clients/base-client.hpp:255-279 | the line is the kind and the six fields, in order, separated by single spaces |
| Text.ReadIntPrint | listener-websocket.cpp:100-108 | a printed integer is read back as itself exactly when it is in the range of an int |
| Text.ReadBoolPrint | listener-websocket.cpp:104-105 | a printed bool is read back as itself |
| Text.PrintIntInjective | controller.cpp:160-165 | different statuses print differently, so comparing the text with "0" compares the status with 0 |
| Decimal.NaturalsPrintInDecimal | controller.cpp:94-138 | a text is what a natural prints as if and only if its digits, weighted by powers of ten, add up to that number and none leads in vain |
| Decimal.IntegersPrintInDecimal | listener.cpp:107-148 | the same for integers, the negative ones behind a minus sign; a bool prints as 1 or 0 |
| Wire.ListenerHearsIsMatching | listener.cpp:77-79 | prefix matching against the listener's subscriptions: HELLO is heard only when all three are active, and no message meant for children is heard |
| Wire.ChildHearsIsMatching | listener-websocket.cpp:67-68 | prefix matching against the child's subscriptions: HELLO is heard only when both are active |
| Wire.ReceiveWork | listener-websocket.cpp:93-110 | the seven-parameter loop recovers every sendable work from its frames, each parameter in its place |
| Wire.PublishedFrames | controller.cpp:93-138 | how many frames each publication has, which frame carries which parameter, and that it can be read from it |
| Report.DecodeFields | controller.cpp:170-181 | kind and count of a line always come back; mean and variance come back when the fields before them can be read |
| Report.DecodeStats | controller.cpp:170-181 | decoding a client's line tells whether it failed and its number of samples, and if it has any, its mean and population variance |
| Report.LineInWords | clients/base-client.hpp:255-279 | word by word: success, fail-opened or fail; the number of samples; a sample below all others and one above; the mean; the variance; the setup time |
| Statistics.TotalVariance | controller.cpp:193-198 | law of total variance for groups of any sizes |
| Statistics.MeanAndVariance | controller.cpp:170-198 | the mean is the sum over the number of samples, and the population variance the mean of the squares less the square of the mean |
| Statistics.PooledIsTotalMinusBetween | controller.cpp:211-212 | for groups of one size n >= 2 the pooled variance is the variance of the union minus the variance of the means, hence at most the former |
| UnequalCounts.PooledCanExceedTotal | controller.cpp:193-212 | for any counts that differ there are non-negative latencies with these counts whose pooled variance exceeds the variance of them all |
| UnequalCounts.ExceedsExactlyWhen | controller.cpp:193-212 | for any connections: the pooled variance exceeds the total variance if and only if the variances, weighted by how much larger than the average their connections are, outweigh the spread of the means |
| UnequalCounts.ExceedsExactlyWhenLarger | controller.cpp:193-212 | when all connections have the same mean and only one varies, this happens if and only if that one has more samples than the average |
| UnequalCounts.AtMostTotalExactlyForEqualCounts | controller.cpp:193-212 | the pooled variance is at most the variance of the union for all samples of given counts if and only if the counts are equal |
| Sink.ReadOne | controller.cpp:155-205 | one pass of the sink loop consumes one whole message, or skips the frame left over from an exit report |
| Sink.DrainSink | controller.cpp:142-205 | for every interleaving of whole messages the loop recovers the messages, accumulates exactly their totals, stops at the first one that completes the exits, and leaves one empty frame and the later messages unread |
| Sink.OrderIndependence | controller.cpp:155-205 | the totals depend only on the multiset of messages consumed |
| Sink.Counters | controller.cpp:166-198 | successes and deaths add up to results received; samples never exceeds totalcount, and is smaller exactly when some result has a count of 2 or more |
| Sink.OverallVarianceBounds | controller.cpp:193-212 | when some result has a count of 2 or more the overall variance is defined and lies between any bounds on the variances of such results |
| Invariant.NothingToReapIsImpossible | listener.cpp:125-142 | while a listener counts unfinished children there is one left to wait for |
| Steps.BarrierFull | controller.cpp:98-116 | pigeonhole: when the controller has counted machines * processes children, every answered listener has launched all of its children and each one was answered |
| Steps.InvStep | controller.cpp:72-217 | every step of every process and channel keeps the protocol's invariant |
| Steps.ReachableInv | controller.cpp:72-217 | the invariant holds in every reachable state, for any number of listeners |
| Barriers.ListenerBarrier | controller.cpp:72-95 | exactly `machines` listeners are answered before StartProcesses is published; any other has started and launched nothing; at most machines * processes children ever exist |
| Barriers.StartBarrier | controller.cpp:98-138 | when StartWebsockets is published all machines * processes children exist, each has been answered and is subscribed, and the message enters each inbox for the first time |
| Barriers.NoneMissesTheWork | listener-websocket.cpp:65-112 | ever after, each child has the work exactly once, unread or taken |
| Barriers.AnsweredOnce | listener-websocket.cpp:80-83 | over any run the controller answers each child at most once, and once exactly if the child ends up answered |
| Barriers.WaitNeverFails | listener.cpp:131-142 | in no reachable state can a listener's wait fail |
| Barriers.CompletionBarrier | controller.cpp:155-217 | when the sink loop ends, and when END is published, every answered listener has reaped all of its children and all of its reports have been consumed |
| Conservation.ResultsAtMost | controller.cpp:142-168 | the controller never receives more than machines * processes * instances results |
| Conservation.ResultConservation | controller.cpp:142-170 | in any state after the work is published: all results are received if and only if every child has sent all of its results, none is underway and none is unread |
| Conservation.ExactlyOnce | listener-websocket.cpp:41-46 | in every reachable state, for every child, results received followed by results underway are the results sent, in order |
| LostResult.ResultsCanBeLost | controller.cpp:155-170 | for every configuration, enough listeners and any assignment of endings to connections: a run in which no child leaves early, every child sends everything, and the controller ends with no result |
| LostResult.PerfectResultsCanBeLost | controller.cpp:155-170 | so even when every connection was perfect and has a sample for each message |
| LostResult.NothingEverLostExactlyWhen | controller.cpp:142-170 | all finished runs in which no child left early receive every result if and only if no result is called for or there are too few listeners for a run to finish |
| Delivery.AllReceivedExactlyWhen | controller.cpp:142-170 | in any finished run every result is received if and only if, when the last exit report is delivered, every child has sent all of its results and none is underway |
| Delivery.DeliveryOrderDecides | controller.cpp:142-170 | when no child left early, every result is received if and only if every child's outbox is empty when the last exit report is delivered |
| Delivery.FinishedRunReports | controller.cpp:155-165 | every finished run with children has such a last report |
| Ordering.OrderlyConservation | controller.cpp:142-170 | if no exit report overtakes results and no child's work is cut short, the controller has received exactly machines * processes * instances results when the loop ends |
| Completion.StepCloser | controller.cpp:72-217 | no action, crashes included, increases the distance to the end, and every action but HELLO publications and receives decreases it |
| Completion.WorkOfAnyRun | controller.cpp:72-217 | with n listeners every run, whatever happens in it, takes at most n * (11 + processes * (3 * instances + 13)) + 3 actions besides publishing HELLO and receiving |
| Completion.ProductiveCloser | controller.cpp:72-217 | every action other than a crash, an aborted work or a HELLO nobody waits for decreases a well-founded measure: no run of such actions only is infinite |
| NoDeadlock.NeverStuck | controller.cpp:72-217 | with enough listeners, and unless a child has gone before it heard HELLO, a run that is not over always has such an action to take, whatever else has crashed or was cut short |
| NoDeadlock.CanComplete | controller.cpp:72-217 | from every such state an orderly run leads to END |
| NoDeadlock.CompleteAs | controller.cpp:72-217 | and with every connection that is still to end ending as one likes |
| NoDeadlock.CanEndExactlyWhen | controller.cpp:72-217 | in every reachable state: the run can come to its end if and only if at least `machines` listeners were started and no child has exited while still waiting for HELLO |
| NoDeadlock.EveryRunCanFinish | controller.cpp:72-217 | every orderly run, wherever it stands, can be continued until END unless a child has gone before it heard HELLO, and the controller then has every result |
| NoDeadlock.EndsExactlyWithEnoughListeners | controller.cpp:72-89 | the iteration can come to its end if and only if at least `machines` listeners were started; with fewer no run leaves the first barrier |
| Stuck.AlwaysCanEndExactlyWhen | controller.cpp:98-116 | with enough listeners every run can come to its end if and only if there are no children to launch: otherwise a crash before HELLO strands some run |
| Shutdown.EndReachesTheAnswered | listener.cpp:95-100 | once END is published each answered listener has terminated or has END to read; no other listener terminates, and none earlier |
| Shutdown.CanShutDown | listener.cpp:89-157 | from there the run can go on until all answered listeners have terminated |
| Shutdown.AllEndExactlyWhen | listener.cpp:89-157 | some run ends with all of its listeners terminated if and only if exactly `machines` of them were started |
| Programs.Synchronise | controller.cpp:72-116 | both synchronisation loops: a HELLO on every time-out, one reply to every request, and exactly the target number of peers answered at the end |
| Programs.AwaitHello | listener.cpp:89-94 | the outer receive loop skips frames, numbers and empty ones among them, and stops right after the first HELLO |
| Programs.AwaitRequest | listener.cpp:95-105 | the inner receive loop ends on END, or with the number the first request after HELLO carries |
| Programs.ListenerReceives | listener.cpp:89-113 | frame by frame the two loops reach the verdict of the publications themselves, and stop on a message boundary |
| Programs.LaunchesAfterHello | listener.cpp:89-113 | a listener launches only on a request that follows a HELLO, and exactly the number it says |
| Programs.ListenIsTheProtocol | listener.cpp:89-113 | the verdict of the receive loops is what the protocol's listener does when it takes one publication after another, and both read equally many |
| Programs.LaunchChildren | listener.cpp:106-113 | as many children as requested, none for a negative number, with numbered names no two of which are equal |
| Programs.ReapChildren | listener.cpp:122-155 | exit reports sent and children unfinished always add up to the number launched; the reports are those of the waits, in order |
| Programs.ChildReceives | listener-websocket.cpp:78-112 | a child that has HELLO, any number of further HELLOs and the work before it decodes exactly the published values and is left on a message boundary |
| Programs.CreateClients | listener-websocket.cpp:28-33 | distinct fresh clients, one for each instance, none for a negative number |
| Programs.RunClient | listener-websocket.cpp:34-40 | a client that was run and waited for is in a final state of the transition system, the one its script leads to; as many passes as messages and waits are enough for it |
| Programs.SendResults | listener-websocket.cpp:41-46 | one Result message for each client, in order |
| Programs.DoTheWork | listener-websocket.cpp:28-46 | the results sent are those of clients whose threads have ended, one for each instance, each in the state its script leads to; it returns exactly when every connection ends |
| Programs.AnyEndings | listener-websocket.cpp:28-46 | whatever states the connections of a child can end in, there are scripts that lead to them |
| Programs.ConcurrentEndings | listener-websocket.cpp:34-40 | wherever any interleaving of all threads of all connections ends, running the connections one after another with some scripts ends too |
| Loops.SynchroniseIsTheProtocol | controller.cpp:72-116 | in every run of the protocol the controller's counters, greetings and replies are what the two synchronisation loops compute from the polls of that run |
| Loops.LaunchIsTheProtocol | listener.cpp:106-124 | the protocol's launch moves, taken until there is none left, leave as many new children as the launch loop starts, and the reap loop's counter at the number requested |
| Loops.ReapIsTheProtocol | listener.cpp:122-155 | for every sequence of waits, what the protocol's listener reports is what the reap loop sends, its count is the loop's, and it can stop exactly when the loop does |
| Loops.ResultsAreTheLog | listener-websocket.cpp:41-46 | the messages a child sends are the rendering of its log in the protocol |
| Loops.WorkIsTheProtocol | listener-websocket.cpp:28-47 | a child of the protocol can send the results of any ended connections, as many as instances, and exactly then exit |
| Decoding.EveryChildDecodesTheWork | listener-websocket.cpp:78-112 | in every reachable state after the publication, the HELLO a child has heard and its inbox are HELLOs, the frames of the published work, and whatever follows |
| Decoding.ChildTakesTheWork | listener-websocket.cpp:78-112 | in every such state the child's receive loops take from these frames exactly the published values |
| Decoding.EveryListenerReadsTheCount | listener.cpp:89-105 | in every reachable state after StartProcesses is published, an answered listener that has not started will come to launch exactly the published number, END notwithstanding |
| Decoding.ListenerTakesTheCount | listener.cpp:89-113 | in every such state the listener's receive loops read that number from its frames |
| EndToEnd.CountersEndToEnd | controller.cpp:155-198 | connectionsSucceeded counts exactly the consumed connections that never failed and had every message accepted and echoed; totalcount is the number of their samples; the exit counters count the statuses |
| EndToEnd.SumsEndToEnd | controller.cpp:193-198 | meansum is the total of all samples and variancesum the pooled sum of the connections, with errors that grow no faster than the number of samples |
| EndToEnd.MeanEndToEnd | controller.cpp:211 | the reported mean is the arithmetic mean of all samples of all consumed connections |
| EndToEnd.VarianceEndToEnd | controller.cpp:212 | the reported variance is the pooled variance of the consumed connections, for any counts |
| EndToEnd.EqualCountsVariance | controller.cpp:193-212 | for equal counts n >= 2 the reported variance is that of all samples minus that of the connection means |
| EndToEnd.SameStop | controller.cpp:155-165 | the frame-level loop stops at the same message as the protocol's controller |
| EndToEnd.ControllerReport | controller.cpp:142-213 | at the end of any run, reading the frames the sink received, the controller accounts for machines * processes exits, its success count, mean and variance are those of the consumed connections, and it leaves unread what arrived too late |
| ExitStatus.ReportedAsLeft | listener.cpp:131-149 | at the end of every run, for every set of statuses, as many exit reports with such a status were consumed as children left with one in that run |
| ExitStatus.FinishedAndDied | controller.cpp:155-165 | at the end of every run clientsFinished is the number of children that exited by themselves and clientsDied the number that crashed; without crashes all machines * processes are finished |
| Outcomes.AllReceivedReport | controller.cpp:142-209 | when every result was received, as many successes are reported as there are connections if and only if every connection of every child was perfect |
| Outcomes.OrderlyReport | controller.cpp:142-209 | the report of an orderly run covers machines * processes * instances connections, and calls all of them successes if and only if all were perfect |
| Achievable.EveryOutcome | controller.cpp:142-213 | with enough listeners, for every assignment of endings to the connections there is an orderly run in which they end so and the controller receives all of them |
| Achievable.OneChildOutcome | controller.cpp:142-213 | with one machine and one process, it consumes any given endings in the given order |
| ReportedVariance.ReportedCanExceedTotal | controller.cpp:193-212 | for any counts that differ, within the number of messages, there is an orderly run at the end of which the reported variance is above that of all samples received, but for the printed precision |
| ReportedVariance.EqualCountsNeverAbove | controller.cpp:193-212 | in no run of any configuration is the pooled variance above the total one when the consumed connections have equal counts |
| ReportedVariance.NeverAboveTotalExactly | controller.cpp:193-212 | over all runs of one machine with one process, it never is above for given counts if and only if the counts are equal |
| ReportedVariance.AtMostTotalExactly | controller.cpp:193-212 | the pooled variance of finished connections with given counts is always at most the variance of all of their samples if and only if the counts are equal |
| Limits.SamplesAtMost | clients/base-client.hpp:183-228 | the samples of the consumed connections number at most messages times results |
| Limits.CounterBounds | controller.cpp:142-205 | at every point of every run successes and deaths add up to results received, exits stay within machines * processes, results within that times instances, and totalcount within that times messages |
| Limits.BoundsAreMet | controller.cpp:142-205 | for every configuration some run meets the bounds on exits, results and totalcount, all at once |
| Limits.CountersFitExactlyWhen | controller.cpp:142-205 | for every configuration: in all runs all counters are in the range of an int if and only if machines * processes, that times instances, and that times messages are |
| Limits.DefaultsFit | controller.cpp:12-68 | with the shipped configuration of each of the 30 iterations no counter, product or difference of the controller leaves the range of an int |
| Limits.ShippedIteration | controller.cpp:70-138 | the iteration performed has 1700 children and 127500 connections, can count up to 1530000 samples, and publishes these frames |

## Left out

- BaseClient.TelemetryClient.TelemetryLoop: stops at a loop head when the passes it is given run out, because nothing bounds how long the original waits for the connection to open or for an echo; with enough passes for the messages and the waits it does return.
- Programs.DoTheWork: runs the connections one after another instead of concurrently; they share no state, and Programs.ConcurrentEndings shows that no outcome of an interleaving is lost by it.
- EndToEnd.MeanEndToEnd: does not model rounding of sums and quotients, because doubles are exact reals; only the loss in printing and reading is bounded.
- Programs.ListenerReceives: a listener whose request cannot be read as an int is not modelled; the controller never sends one.
- Report.DecodeStats: numbers that cannot be extracted count as 0; the original leaves some of them uninitialised, and uses none of them when the count is 0.
- Connection setup latency and its statistics: the setup time has no initial value in a connection that never opens.
- Random payloads, sleeping times, logging, client identifiers, and the progress and exit messages on the console.
- The ZeroMQ, WebSocket++ and Boost libraries; their assumed behaviour is listed under Environment.
- `run` failing to obtain a connection: it returns before the threads exist, and waiting for them is then undefined.
- The TLS, plain and mobile-signaling clients, which differ in socket options and connection plumbing, and the programs in `utils`.
- Crashes of listeners and of the controller, and a `start_child` that fails.
- Fairness and real time: completion says that a run can be finished and that productive actions cannot go on for ever, not that a scheduler takes them.
- More than one iteration: a listener that was answered never returns to its HELLO loop, and the controller performs one.
- Build, deployment and system configuration scripts.
