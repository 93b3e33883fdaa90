# Verification of industrial-aiops-energy

A Dafny model of the parts of the energy edition that decide something on their own:
the DNP3 integrity poll, the sequence-of-events protection analysis, the IEC 61850
adapter over its foreign binding, and the session lifecycles with their bounded wait.
Everything else in the repository wraps foreign protocol stacks or renders results.

`dafny verify dfyconfig.toml` checks the whole project.

## How it is organised

| file | what it holds |
|---|---|
| `Settle.dfy` | the wait of an integrity poll as a record of what it observed, and the theorems about it |
| `ReactorScript.dfy` | the reactor thread and the clock as a script, and what running it does |
| `SettleRun.dfy` | the wait and the poll on a script, and the exact condition for polls to be complete |
| `SettleTiming.dfy` | how long the wait takes on a script whose batches are short |
| `Dnp3Driver.dfy` | the adapter, its shared point list and the reactor, as classes |
| `ChannelHistory.dfy` | what "online" means over everything the callbacks have reported |
| `Measurements.dfy` | points and their labels |
| `SoeEvents.dfy` | events and the stable sort by time |
| `Substation.dfy` | the analysis, from raw entries to the report |
| `Citations.dfy` | what the lists of breakers and affected refs contain |
| `VerdictTheory.dfy` | the verdict declared on the set of events, and its consequences |
| `SoeInvariance.dfy` | what normalisation keeps, and what moving or re-expressing the times does |
| `Irrelevance.dfy` | which entries of the input do not matter |
| `ReportTheory.dfy` | what the report says about raw input, field by field |
| `Payloads.dfy`, `ForeignLists.dfy` | the life of foreign payloads, and foreign linked lists |
| `Iec61850Driver.dfy` | browsing, reading and decoding over an untrusted binding |
| `Sessions.dfy` | the bounded wait, what a session promises, and the IEC-104 and IEC 61850 sessions |
| `Dnp3Session.dfy` | the DNP3 session around a real adapter and reactor |

Concurrency: the reactor thread is a script. Before each atomic step of the caller the
next batch of the script runs, with any number of callbacks and any amount of time, so a
statement about every script is one about every interleaving. Enabling and shutting down
are such steps too, foreign call by foreign call. Reading the length of the list and
reading the clock afterwards are two separate steps; the time between them is the *skew*
of a pass. Every point and every report carries its time.

Oracles: foreign calls are functions from the number of the call to its outcome, and
they may be absent, raise or return any code. Times are integer microseconds (DNP3
sessions: ticks of the monotonic clock). An integer delay compared with a real
threshold behaves as with the threshold's floor, so integer thresholds lose nothing.

Five facts about the code that the theorems make precise:

* A poll returns everything for every script with gaps of at most `gap` and skew of at
  most `skew` if and only if `gap + skew < quiet` or `gap < poll`
  (`SettleRun.CompletenessBound`); `Dnp3Driver.LosePoint` runs a poll that loses a point.
  The comment on the wait only says that a stable count means that the fragments stopped
  arriving.
* The verdict is not always independent of the input order: trips that share the earliest
  time may differ on whether their breaker failed. `VerdictTheory.OrderIndependence`
  gives the exact condition and `VerdictTheory.OrderCanMatter` an input.
* An IEC 61850 payload that says it is an access error is read as a value if and only if
  the accessor for its detail exists and returns None (`Iec61850Driver.Binding.ReadAttribute`,
  `Iec61850Driver.DeniedReadComesBack`). The comment at the call says that it must not be.
* A list walk that fails comes back as a success: at its first element the model looks
  empty (`Iec61850Driver.FailedBrowseLooksEmpty`), later on the list is cut short
  (`Iec61850Driver.TruncatedBrowse`). The names are the whole list if and only if the walk
  reaches NULL (`ForeignLists.WholeListIff`). The docstring of the browse wants a failed
  browse to be an error.
* A payload is freed unless an exception escapes from iterating or rendering it, from
  looking up an unhashable type, or from its `str`; then it never is. All payloads of a run
  are freed if and only if no exception escapes (`Iec61850Driver.Run`), and
  `Iec61850Driver.LeakingCalls` leaks two.

## Model

| member | source | states |
|---|---|---|
| Settle.SettleSoundness | iaiops_energy/connectors/dnp3/driver.py:140-151 | an early return saw at least one point, and no point arrived inside an interval that ends at the last length read and is at least the quiet interval less the skew of that pass, and at least one sleep long |
| Settle.PollComplete | iaiops_energy/connectors/dnp3/driver.py:128-151 | with short gaps and all points before the deadline nothing arrives any more once the wait has returned, early or not |
| Settle.NothingMissed | iaiops_energy/connectors/dnp3/driver.py:417-421 | under those conditions the copy taken after the wait holds every arrival there ever is |
| SettleRun.ScanEnds | iaiops_energy/connectors/dnp3/driver.py:140-151 | on every script the loop ends, and what it observed is a valid wait over exactly the points received by then |
| SettleRun.PollIsComplete | iaiops_energy/connectors/dnp3/driver.py:401-421 | on every script with bounded gaps and skew the copied list is everything delivered since the clear, however long the reactor goes on |
| SettleRun.CompletenessBound | iaiops_energy/connectors/dnp3/driver.py:128-151 | the exact bound: polls are complete on every script that keeps to these gaps and skew iff gap + skew < quiet or gap < poll |
| Dnp3Driver.DefaultBound | iaiops_energy/connectors/dnp3/driver.py:128-151 | for the thresholds in use: complete iff gap + skew stays below 200 ms or the gap below 50 ms |
| Measurements.GroupOnlyFromTable | iaiops_energy/connectors/dnp3/driver.py:97-120 | a point has a group iff its class, with the prefix dropped, is in the table, and then that group and its type; every other class gets no group and its whole name as label |
| Measurements.FirstIsStripped | iaiops_energy/connectors/dnp3/driver.py:97 | the first occurrence of the prefix is dropped wherever it stands, and the rest goes the same way |
| Measurements.KnownCollections | iaiops_energy/connectors/dnp3/driver.py:55-107 | the nine kinds of collection, prefixed or not, with their groups and types spelled out |
| Settle.SettleLatency | iaiops_energy/connectors/dnp3/driver.py:140-151 | the wait ends less than the quiet interval, two passes and the skew after the last arrival, and less than one pass after the deadline; without arrivals it always times out, and never early |
| Settle.PassesBounded | iaiops_energy/connectors/dnp3/driver.py:140-151 | the number of passes is bounded by the timeout over the sleep, however the clock runs |
| SettleTiming.ScanLatency | iaiops_energy/connectors/dnp3/driver.py:140-151 | on every script whose batches take at most d, the wait ends less than the quiet interval, two passes and d after the last arrival and less than one pass after the deadline, a pass being the sleep and four batches; without arrivals never before the deadline |
| SettleTiming.ExactScanLatency | iaiops_energy/connectors/dnp3/driver.py:140-151 | when batches take no time, everything happens at multiples of the sleep, and the bounds hold in the sleep alone |
| Dnp3Driver.SoeHandler.OnItem | iaiops_energy/connectors/dnp3/driver.py:112-123 | appends the labelled point to the list captured when the handler was made |
| Dnp3Driver.Adapter.PerformBatch | iaiops_energy/connectors/dnp3/driver.py:90-125 | exactly the points and reports of the reactor's next batch are recorded, in order and with their times; list and log agree, handler and poll share one list, the recorded state is the latest reported |
| Dnp3Driver.Adapter.Interleave | iaiops_energy/connectors/dnp3/driver.py:259-288 | so callbacks between two steps of the caller only ever append, with times no earlier than the clock before them, and never count as enabling or stopping |
| Dnp3Driver.Adapter.MakeSoe | iaiops_energy/connectors/dnp3/driver.py:244-269 | the handler captures the very list the poll reads; without the base class it is the collector itself |
| Dnp3Driver.Adapter.SettleScan | iaiops_energy/connectors/dnp3/driver.py:128-151 | the imperative loop terminates, and its passes, its ending and the time it takes are those of the script |
| Dnp3Driver.Adapter.IntegrityPoll | iaiops_energy/connectors/dnp3/driver.py:401-421 | clears the list before the one scan it issues and returns exactly the points received since that clear, in delivery order; if issuing the scan raises, so does the poll, with the list cleared; without a master it does nothing |
| Dnp3Driver.Adapter.PollThenListen | iaiops_energy/connectors/dnp3/driver.py:401-421 | the whole run on the heap: however long the reactor goes on after a poll, under the completeness conditions the result is everything delivered since the clear |
| Dnp3Driver.LosePoint | iaiops_energy/connectors/dnp3/driver.py:401-421 | for all gaps and skews beyond the bound, an adapter, a reactor and a poll on them that keeps to those limits and lacks a point |
| Dnp3Driver.Adapter.Enable | iaiops_energy/connectors/dnp3/driver.py:215-242 | manager, handler, master and latch after the foreign call that raises, whichever it is, with the reactor at work between the calls and every invariant kept; whatever is reported meanwhile comes from the reactor |
| Dnp3Driver.Adapter.IsOnline | iaiops_energy/connectors/dnp3/driver.py:382-399 | online exactly if the history reported by its last look says so, although it looks twice |
| Dnp3Driver.Adapter.LinkStatus | iaiops_energy/connectors/dnp3/driver.py:360-375 | keep-alive, channel and IIN are each what the history said when they were read |
| Dnp3Driver.Adapter.Shutdown | iaiops_energy/connectors/dnp3/driver.py:423-450 | with callbacks at any time, the join included, the adapter is online afterwards iff what was reported after the state was forgotten says so; the live manager is told to shut down unless the worker cannot be started, each manager at most once ever |
| ChannelHistory.OnlineIff | iaiops_energy/connectors/dnp3/driver.py:377-399 | online iff some change to OPEN is followed by no other change and no shutdown; enabling, keep-alives and IIN bits never count |
| ChannelHistory.LatestLinkIff | iaiops_energy/connectors/dnp3/driver.py:352-375 | the link's state is the result of the latest keep-alive, and none without any |
| ChannelHistory.OnlyLateReportsCount | iaiops_energy/connectors/dnp3/driver.py:435-441 | after a shutdown the state depends on nothing reported before it |
| SoeEvents.SortIsStable | iaiops_energy/analysis/substation.py:140 | the sort is ascending and at each instant keeps the input order |
| SoeEvents.StableSortIsUnique | iaiops_energy/analysis/substation.py:140 | any two stable sorts of the same events agree, so the sort used does not matter |
| Substation.Normalize | iaiops_energy/analysis/substation.py:110-141 | the two loops and the sort yield the normalised events, and analysed plus ignored is the input length |
| ReportTheory.AnalysedByStamp | iaiops_energy/analysis/substation.py:118-141 | told by the timestamps alone: next to an aware one exactly the entries with aware ones are analysed, otherwise those with naive ones, in input order with their times in UTC; the counts are theirs and that of the rest |
| SoeInvariance.NormalizedMeans | iaiops_energy/analysis/substation.py:110-141 | the result is a stable sort and a permutation of what was kept, and normalising it again changes nothing |
| SoeInvariance.OffsetsDoNotMatter | iaiops_energy/analysis/substation.py:132-139 | re-expressing aware timestamps in other offsets leaves the whole report the same |
| SoeInvariance.ShiftDoesNotMatter | iaiops_energy/analysis/substation.py:157-325 | moving all times by a constant moves every time in the report and changes nothing else in it |
| Irrelevance.UnusableEntriesAreOnlyCounted | iaiops_energy/analysis/substation.py:118-137 | leaving out any unparseable entries, or naive ones next to aware ones, changes only the ignored count, by their number |
| Irrelevance.IrrelevantEntriesDoNotMatter | iaiops_energy/analysis/substation.py:201-217 | leaving out any closes, lockouts, undervoltages and other events, and next to a trip any pickups and trips later than the first, wherever they stand, keeps verdict, status and detail; asked is only that the other entries stay or go as before |
| Substation.DistinctOpens | iaiops_energy/analysis/substation.py:149-154 | the loop over the ordered dict computes the first opens |
| Citations.CitationsAreExact | iaiops_energy/analysis/substation.py:149-154 | one citation per distinct opening ref, at its earliest open time, in time order; the count is the number of such refs |
| Citations.CitationsGrow | iaiops_energy/analysis/substation.py:149-154 | refs are cited in the order in which they first come up |
| Substation.AffectedRefs | iaiops_energy/analysis/substation.py:262-269 | the loop computes the outage refs, cut to the list limit |
| Citations.OutageRefsAreExact | iaiops_energy/analysis/substation.py:262-269 | uncut, they are exactly the refs with an open, lockout or undervoltage, each once |
| Citations.OutageRefsGrow | iaiops_energy/analysis/substation.py:262-269 | they come in the order in which they first come up |
| Citations.BreakersAreAffected | iaiops_energy/analysis/substation.py:262-321 | every breaker cited as opened is among the uncut affected refs |
| Substation.SubstationEventAnalysis | iaiops_energy/analysis/substation.py:279-325 | the report assembled by the loops is the one the theorems speak about |
| ReportTheory.FirstEventsAreTrue | iaiops_energy/analysis/substation.py:316-318 | the first protection event and the first open cite the earliest event of their kind, the first given among equals, and are missing iff there is none |
| ReportTheory.ListsAreCut | iaiops_energy/analysis/substation.py:262-321 | the lists show their first 100 or 50 entries and the breaker count is not cut |
| VerdictTheory.JudgeIsDeclared | iaiops_energy/analysis/substation.py:183-259 | the branch cascade over sorted lists yields the verdict and status declared with quantifiers on the set of events |
| VerdictTheory.VerdictRefines | iaiops_energy/analysis/substation.py:300-312 | so does the analysis of any raw input, with the earliest trip, first given among equals |
| VerdictTheory.VerdictsMean | iaiops_energy/analysis/substation.py:183-259 | when each of the five verdicts is given, as an iff on the set of events and the first trip |
| VerdictTheory.DetailIsTrue | iaiops_energy/analysis/substation.py:174-259 | every ref, delay, threshold and count cited by the detail is so of the events, and the events cited are the earliest of their kind |
| ReportTheory.DetailFitsVerdict | iaiops_energy/analysis/substation.py:183-259 | each verdict comes with its own detail; several breakers are cited iff several opened, inconclusive activity iff there was some |
| ReportTheory.StatusFitsVerdict | iaiops_energy/analysis/substation.py:183-259 | each coordination status iff its verdict, and the two for insufficient records by whether there was protection activity |
| VerdictTheory.SelectiveIsSafe | iaiops_energy/analysis/substation.py:202-251 | selective, with some open at or after the first trip, means that only the tripped breaker opened and did so within the margin |
| VerdictTheory.WindowTransition | iaiops_energy/analysis/substation.py:157-216 | a longer window can only turn a breaker failure into a backup operation |
| VerdictTheory.MarginTransition | iaiops_energy/analysis/substation.py:217-251 | a larger margin can only turn a backup operation into a selective trip |
| VerdictTheory.ReportIgnoresOrder | iaiops_energy/analysis/substation.py:110-141 | with distinct timestamps the whole report is the same for every permutation of the input |
| VerdictTheory.OrderIndependence | iaiops_energy/analysis/substation.py:201-217 | verdict and status are the same for every permutation iff trips tied for earliest agree on whether their breaker failed, which they do if they share one ref |
| VerdictTheory.OrderCanMatter | iaiops_energy/analysis/substation.py:201-217 | an input and a permutation of it with the verdicts breaker failure and selective trip |
| Payloads.DeadMeans | iaiops_energy/connectors/iec61850/driver.py:252-266 | a payload whose life is over was handed over, freed exactly once and not touched since |
| ForeignLists.SpineHasNoCycle | iaiops_energy/connectors/iec61850/driver.py:233-250 | a list walk that ends visits no element twice |
| ForeignLists.WholeListIff | iaiops_energy/connectors/iec61850/driver.py:241-250 | the names are those of all the elements iff the walk reaches NULL; otherwise they are a proper prefix that ends at the first unreadable element |
| ForeignLists.ReachesNullMeansAll | iaiops_energy/connectors/iec61850/driver.py:241-250 | a walk that reaches NULL has gone through all the elements of a list whose links can be followed, and has the name of each |
| ForeignLists.EndsIff | iaiops_energy/connectors/iec61850/driver.py:241-248 | the lists that a browse is required to get are exactly those on which the walk terminates, by NULL or by an accessor that raises |
| Iec61850Driver.Binding.Call | iaiops_energy/connectors/iec61850/driver.py:209-231 | a call that raises is a failure with a code, and a payload comes into being only with error 0 or None |
| Iec61850Driver.Binding.LinkedListToStr | iaiops_energy/connectors/iec61850/driver.py:233-250 | the names are the data of the elements in order, up to the first accessor that raises; what raises in plain iteration or in rendering escapes |
| Iec61850Driver.Binding.GetLogicalDevices | iaiops_energy/connectors/iec61850/driver.py:116-134 | an error iff the helper is missing or the reply, told case by case, is a failure; else the names or the escaped exception; the exact condition under which it says empty, failed walks included; the payload goes to the list destructor iff nothing escapes |
| Iec61850Driver.Binding.Browse | iaiops_energy/connectors/iec61850/driver.py:151-170 | over any ordered list of attempts, with early exit, the verdict on what all of them would say; empty iff some attempt succeeds and every one that does looks empty; every payload is freed but the one an exception escapes from |
| Iec61850Driver.Binding.GetDataDirectory | iaiops_energy/connectors/iec61850/driver.py:136-170 | the same for the three levels in the code's order |
| Iec61850Driver.BrowseMeans | iaiops_energy/connectors/iec61850/driver.py:151-170 | error iff no level succeeded, empty iff one did but none had names, otherwise what the first level that decides says: its names, or the exception that escapes from it |
| Iec61850Driver.LevelFinds | iaiops_energy/connectors/iec61850/driver.py:233-250 | the names a level finds are the data of the list's elements, in order and up to the first unreadable one, unless rendering one of them raises |
| Iec61850Driver.Run | iaiops_energy/connectors/iec61850/driver.py:116-205 | over any sequence of reads and browses every payload handed over is freed exactly once and not touched afterwards, except one for each call that an exception escapes from; all are freed iff none escapes |
| Iec61850Driver.LeakingCalls | iaiops_energy/connectors/iec61850/driver.py:372-383 | a browse and a read that leave their payloads alive, on a binding that can free both kinds |
| Iec61850Driver.FailedBrowseLooksEmpty | iaiops_energy/connectors/iec61850/driver.py:119-134 | a binding whose list cannot be entered, and both browses say empty |
| Iec61850Driver.TruncatedBrowse | iaiops_energy/connectors/iec61850/driver.py:241-250 | two devices of which one comes back as the whole model |
| Iec61850Driver.Binding.AccessErrorOf | iaiops_energy/connectors/iec61850/driver.py:268-286 | an access error is reported iff the payload says it is one and the accessor for its detail is absent, raises or returns something other than None; the detail is what that accessor gave |
| Iec61850Driver.Binding.DecodeMms | iaiops_energy/connectors/iec61850/driver.py:299-329 | the answer of the accessor listed for the type just reported, else an opaque value; a numeric accessor runs only for its own type, every datum came from the binding, and an exception escapes under the exact condition |
| Iec61850Driver.Binding.OpaqueMms | iaiops_energy/connectors/iec61850/driver.py:331-352 | the text iff there is one, else the type iff it can be had, else a bare representation, never a number; an exception escapes iff `str` raises in the end |
| Iec61850Driver.Binding.ReadAttribute | iaiops_energy/connectors/iec61850/driver.py:172-205 | each of the six outcomes, told by the reply case by case, the access error under the exact condition above and with its detail, a value as decoded below; the payload goes to the MMS destructor unless an exception escapes, and then is not freed at all |
| Iec61850Driver.DeniedReadComesBack | iaiops_energy/connectors/iec61850/driver.py:191-204 | a binding on which a payload that says it is an access error comes back as a value |
| Iec61850Driver.NumericMeansReported | iaiops_energy/connectors/iec61850/driver.py:354-371 | whatever the type codes, a numeric accessor is picked only for the code of its own type |
| Iec61850Driver.AccessorsMean | iaiops_energy/connectors/iec61850/driver.py:361-371 | with a code of its own for each type, each of the six types is read with its own accessor and no other code is |
| Iec61850Driver.FaithfulIff | iaiops_energy/connectors/iec61850/driver.py:361-371 | every type is read with its own accessor iff types that share a code share an accessor |
| Sessions.WaitUntil | iaiops_energy/runtime/sessions.py:255-270 | terminates, probes at least once, and is true iff a probe reached before the deadline was seen to pass, or right after, was true; a raising probe counts as false |
| Sessions.StableReadinessIsSeen | iaiops_energy/runtime/sessions.py:255-270 | a predicate that becomes true by the deadline and stays true is never missed |
| Sessions.Iec104Session | iaiops_energy/runtime/sessions.py:94-126 | over every outcome of every step: released exactly once iff built, after the body; every ordinary error leaves as the teaching error, build errors included |
| Dnp3Session.AwaitOnline | iaiops_energy/runtime/sessions.py:173-183 | the bounded wait with `is_online` as its probe: all looks but the last are in time, a sleep apart and find the channel not open; the last one decides, as said below, and is in vain only past the deadline |
| Dnp3Session.WaitDecides | iaiops_energy/runtime/sessions.py:255-270 | the wait succeeds iff at its last look the newest state change was to OPEN; a channel that opened before the deadline, by the times of the reports, and was not overtaken by the last look is never missed; in the very tick of the deadline it can be (`SameTickCanBeMissed`) |
| Dnp3Session.LooksAreBounded | iaiops_energy/runtime/sessions.py:255-270 | looks are at least 50 ms apart and all in time, which bounds their number |
| Dnp3Session.Session | iaiops_energy/runtime/sessions.py:164-192 | over every outcome of every step and every script of the reactor: the lifecycle of the IEC-104 session, except that build errors leave as they are; the body is entered iff the wait succeeded, with what that means said of the whole history, and issues its scans; afterwards only reports later than the last shutdown can make the adapter look online, and its manager, if made, has been told to shut down exactly once unless the first shutdown could not start its worker |
| Sessions.Iec61850Session | iaiops_energy/runtime/sessions.py:226-252 | the same without a readiness wait |

## Left out

- The foreign stacks (`c104`, `pydnp3`, `pyiec61850`), sockets and real threads: oracles and scripts stand in for them.
- ISO-8601 parsing, datetime range overflow and type inference from labels (`_classify_type`): an entry comes with a parsed timestamp and a kind.
- Float rounding of `total_seconds` and NaN thresholds: delays and thresholds are integers.
- Message wording and truncation: details and errors keep the data they cite, not the text.
- Settle.PollComplete: speaks about every point delivered since the clear; the code does not tell late fragments of an earlier scan from those of the new one, so neither does the model.
- Dnp3Driver.Adapter.Shutdown: does not model how long the daemon thread and its bounded join take, nor what the foreign shutdown does; the reactor may report during and after it, as in the code.
- `link_status`: what it reports is modelled, its rendering is not.
- Iec61850Driver.Binding.LinkedListToStr: requires that the walk of the foreign list terminates (`ForeignLists.EndsIff`); on other lists the code loops forever.
- Iec61850Driver.Binding.GetLogicalDevices: requires the same of the one payload it walks.
- Iec61850Driver.Binding.Browse: requires the same of the payloads its attempts would walk.
- Iec61850Driver.Binding.GetDataDirectory: requires the same of the payloads its three attempts would walk.
- Iec61850Driver.Run: requires the same of every payload.
- Iec61850Driver.Binding.Call: a payload that arrives with a non-zero error is dropped without being freed, as in the code, and is not entered in the ledger.
- Exceptions outside `Exception`, and foreign values whose own `==`, `bool` or hash raises, except an unhashable type reply.
- IEC 61850 `connect` and `close`, with their best-effort timeout setters and destructors: straight-line calls; `close` is not idempotent.
- Dnp3Session.Session: a body is any sequence of polls, waits and shutdowns, ended by any exception; one that enables the adapter again is not modelled (the code would then lose track of the first manager).
- Sessions.WaitUntil: does not model exceptions outside `Exception` raised by a probe or a sleep.
- The tool, ops and MCP modules, targets, build scripts and deployment files: projections and wiring with no logic of their own.
