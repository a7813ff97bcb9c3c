# NodeStatus agent: a Dafny model of its state machines

The NodeStatus agent (Go) is a small HTTPS service that reports a server's metrics to paired devices. Most of it
reads `/proc` and runs subprocesses. This project models the parts of it that keep state under a lock, scan a stream
or compute a decision, and proves what they promise over every run.

Code that changes fields is modelled as a class with those fields; each of its methods is proved against a function
on values, and the properties are lemmas about that function over arbitrary runs. Code that runs concurrently is
modelled as a state machine with one event per critical section or channel operation, so that a run is any
interleaving. Time, randomness, the network, the disk's failures and everything the operating system decides are
parameters or free choices of events; Go's random map order is a free choice (`:|`) in every loop over a map.

| file | models |
|---|---|
| `RateLimiter.dfy` | the token bucket per client and its pruning |
| `JsonScanner.dfy` | the brace scanner for the endless array of `intel_gpu_top` |
| `Devices.dfy`, `Store.dfy` | the device allowlist over a disk whose writes fail: values and runs, then the code |
| `PairingWindow.dfy` | the enrollment window against the history of openings, closings and guesses |
| `Handlers.dfy`, `Enrollment.dfy` | pairing and renewal requests, one alone and any number interleaved |
| `Streams.dfy` | live streams interleaved with revocation |
| `JobRunner.dfy`, `JobSamples.dfy` | the job table and its goroutines; the shared backing array of the job's points |
| `SampleRing.dfy`, `Rates.dfy`, `Network.dfy`, `Sampler.dfy` | the ring, the rates, the interface list, one tick |
| `Broadcast.dfy`, `Lifecycle.dfy` | delivery to subscribers; starting and stopping the loop |
| `SingleFlight.dfy`, `PowerCache.dfy` | background workers, one per key; the fields one of them uses without a lock |
| `Semver.dfy`, `SelfUpdate.dfy` | version order; installing a release |
| `ConfigValues.dfy`, `ConfigFile.dfy`, `ConfigLayout.dfy` | comments, quotes and lists in the configuration file; its lines; whole files |
| `Common.dfy`, `Text.dfy` | `Option`, the tail of a sequence; trimming |

## What turned out not to hold

* A failed `Add` or `Replace` restores memory exactly if and only if the new fingerprint was not already in use by
  another device (`FailedAddRestoresIffFresh`, `FailedRenewRestoresIffFresh`).
* A `Revoke` whose save failed is not final: the device is accepted again if and only if the process restarts, and can
  read the file, before any later change gets onto the disk (`FailedRevokeReturnsIff`). If a change is written first,
  the revocation is permanent.
* A restart that cannot read devices.json starts with no devices and reports no error. They come back if and only if a
  restart that can read it precedes the first write; otherwise that write erases them (`UnreadableRestartLosesIff`).
  A saved device is accepted throughout a run if and only if no event of the run takes it out, this one included
  (`AcceptedThroughoutIff`).
* Which device `Revoke(id)` removes depends on Go's map order exactly when two devices carry that ID
  (`RevokeIsDeterminedIffIdUnique`).
* One window can pair two devices (`OverlapPairsTwo`). It pairs two requests only if both once held a passed check of
  it at the same time, and whenever two do, the run can go on to pair both (`PairsTwoIffBothHold`). Requests that are
  never in progress at once cannot (`OneDevicePerWindow`), and once a paired request has closed its window no further
  code is accepted (`PairingBurnsTheCode`).
* The job table loses track of a live goroutine exactly when a drawn job ID hits a live job
  (`SubmitMatchesIffFresh`); the slot count is right regardless.
* The linger callback tests for idleness and halts in two critical sections. A client that subscribes in between
  gets no samples (`LingerRaceStalls`) until every subscriber has left (`StallLastsUntilEmpty`). Subscribers are
  served throughout a run if and only if no callback halts while someone is being served (`ServedIffNoLateHalt`).
* A pairing code is still accepted at the very instant at which the window no longer counts as open
  (`CheckOutlivesOpenByOneInstant`).
* Sample times do not always increase: elapsed time is taken from the monotonic clock, the sample's time from the wall
  clock (`SetBackReversesTimes`). They increase over a stretch of samples if and only if the wall clock was nowhere in
  it set back between two measurements by as much as the time that passed (`TimesRiseIff`).
* A quoted value without double quotes parses back to itself if and only if no single quote stands at either end
  (`ValueRoundTripIff`). Read from the file, line after line, there is one more condition: no line but the last may
  open a square bracket, in its value or in the comment after it, without closing one; such a line swallows the next
  (`LinesRoundTripIff`, `ValuesReadBackIff`).
* A list printed over several lines reads back to its items if and only if none of them holds a closing bracket: the
  first such item ends the list there (`ListReadsBackIff`).

## Model

| member | source | states |
|---|---|---|
| `RateLimiter.Limiter.RateOK` | agent/internal/api/server.go:299-321 | one request on the map of bucket objects is `Step` on its contents: same answer, same buckets |
| `RateLimiter.Limiter.PruneBuckets` | agent/internal/api/server.go:288-297 | for every visiting order, exactly the buckets idle for over ten minutes go, and only in a map of 64 or more |
| `RateLimiter.StepPrunesIff` | agent/internal/api/server.go:279-309 | a bucket other than the caller's is dropped exactly if the caller is new, 64 buckets or more are kept and it was idle for over ten minutes |
| `RateLimiter.AgreesStep` | agent/internal/api/server.go:279-297 | a limiter that lacks only buckets that would be full again answers as one that has them, and still lacks only such buckets |
| `RateLimiter.PruningIsInvisible` | agent/internal/api/server.go:279-321 | over any requests of any clients in time order, each gets the answer it would get if no bucket were ever deleted |
| `RateLimiter.BucketIsTight` | agent/internal/api/server.go:311-320 | a bucket always holds the least of the curves 30 + 10·elapsed − admitted started at that client's earlier requests |
| `RateLimiter.AdmittedIffFits` | agent/internal/api/server.go:299-321 | a request is admitted if and only if admitting it keeps its client under 30 + 10·elapsed counted from each of its earlier requests |
| `RateLimiter.ConformingIsNeverDenied` | agent/internal/api/server.go:299-321 | a client whose requests all lie under the curve is never denied, whatever other clients do |
| `RateLimiter.WindowBound` | agent/internal/api/server.go:299-321 | any stretch of requests spanning d seconds admits at most 30 + 10·d of one client |
| `JsonScanner.StreamJSONObjects` | agent/internal/collect/gpu.go:359-402 | the loop over four variables emits what the automaton `Run` emits |
| `JsonScanner.RunAppend` | agent/internal/collect/gpu.go:364-401 | scanning in two parts is scanning the whole: only the four variables carry over |
| `JsonScanner.CharsStayInString` | agent/internal/collect/gpu.go:372-382 | inside a string, escaped quotes, backslashes and braces neither end it nor count |
| `JsonScanner.ValueIsInert` | agent/internal/collect/gpu.go:369-401 | inside an object, any JSON value (nested objects, arrays, strings, blanks) is copied to the buffer and leaves depth and flags as they were |
| `JsonScanner.ObjectIsEmitted` | agent/internal/collect/gpu.go:383-401 | an object's text is emitted whole, at its last byte, and the scanner is back at the start |
| `JsonScanner.SeparatorIsSkipped` | agent/internal/collect/gpu.go:383-401 | bytes between objects that open neither object nor string are skipped, stray closing braces included |
| `JsonScanner.StringIsSkipped` | agent/internal/collect/gpu.go:369-387 | a string between objects is skipped, with whatever braces and escaped quotes it holds |
| `JsonScanner.ScannerInvertsPrinter` | agent/internal/collect/gpu.go:356-402 | for every sequence of JSON objects and separators, the scanner emits exactly those texts in order |
| `JsonScanner.ProperPrefixEmitsNothing` | agent/internal/collect/gpu.go:356-402 | no proper prefix of an object's text is emitted |
| `JsonScanner.TruncatedObjectIsWithheld` | agent/internal/collect/gpu.go:356-402 | an object cut off at the end of the stream is withheld and the earlier ones stand |
| `JsonScanner.CutsAnyInput` | agent/internal/collect/gpu.go:359-402 | on arbitrary bytes the blocks are disjoint substrings in order, each in braces and each, scanned alone, emitted as itself |
| `Store.Store.New` | agent/internal/store/store.go:48-67 | starting fails only on a missing directory or a torn file; otherwise memory is what the file holds, or nothing if it cannot be read, and the window is closed |
| `Store.Store.Load` | agent/internal/store/store.go:58-64 | the decoded list becomes the table, a later entry for a fingerprint winning |
| `Devices.LoadedIsLastEntry` | agent/internal/store/store.go:58-64 | what is loaded under a fingerprint is the last entry that carries it |
| `Devices.EntryIsLoaded` | agent/internal/store/store.go:58-64 | every entry's fingerprint is loaded |
| `Store.Store.Listing` | agent/internal/store/store.go:69-73 | the list written, in any map order, has each device once and loads back to the same table |
| `Store.Store.Save` | agent/internal/store/store.go:69-89 | success puts exactly the table on disk; any failure leaves devices.json alone, and no temporary file if removing it works |
| `Store.Store.Lookup` | agent/internal/store/store.go:110-121 | found exactly if the fingerprint is in the table, as a fresh copy |
| `Store.Store.Touch` | agent/internal/store/store.go:132-138 | LastSeen of that device becomes the given time, in memory only, and nothing else changes |
| `Store.Store.Insert` | agent/internal/store/store.go:155-164 | the locked part of Add: added and saved, or removed again |
| `Store.Store.Add` | agent/internal/store/store.go:140-169 | without a token nothing happens; else the store takes the step `Next` gives for adding the device, saved or failed |
| `Store.Store.Move` | agent/internal/store/store.go:179-190 | one device changes fingerprint and expiry and nothing else changes |
| `Store.Store.Replace` | agent/internal/store/store.go:172-192 | an unknown fingerprint changes nothing; else the store takes the step `Next` gives for the renewal, saved or rolled back |
| `Store.Store.FindById` | agent/internal/store/store.go:201-206 | finds a device with the ID, or there is none |
| `Store.Store.FindByName` | agent/internal/store/store.go:207-212 | collects every device whose name matches, each once |
| `Store.Store.Remove` | agent/internal/store/store.go:203-204 | deletes one device and saves; the error is the save's, and a failure is not undone |
| `Store.Store.Revoke` | agent/internal/store/store.go:198-223 | removes what `Picks` allows and reports name and error; with no or several matches nothing changes |
| `Devices.PicksIff` | agent/internal/store/store.go:201-219 | a device that carries the ID, if there is one; else the device of that name if exactly one has it; else none |
| `Devices.RefusedIff` | agent/internal/store/store.go:214-222 | not found means that no name matches, ambiguous that two or more do |
| `Store.Store.OpenEnrollment` | agent/internal/store/store.go:227-235 | new code, expiry and zero attempts; the grace period stays |
| `Store.Store.CloseEnrollment` | agent/internal/store/store.go:237-243 | the code is burnt and fifteen seconds of grace begin |
| `Store.Store.EnrollmentOpen` | agent/internal/store/store.go:245-249 | open means a code is set and the expiry is strictly ahead |
| `Store.Store.AcceptsUnauthenticated` | agent/internal/store/store.go:253-258 | open, or within the grace period |
| `Store.Store.CheckEnrollCode` | agent/internal/store/store.go:268-284 | the fields and the answer are those of `Check` |
| `Devices.AlwaysBacked` | agent/internal/store/store.go:48-223 | over every run with failing saves, kills and restarts, each device in memory is on disk with the same identity fields |
| `Devices.AgreeSinceSaved` | agent/internal/store/store.go:155-204 | after a change that returned nil, memory and disk agree up to LastSeen until a failed Revoke, a collision or an unreadable restart |
| `Devices.OthersAreLeftAlone` | agent/internal/store/store.go:140-223 | a device that a change does not name is left as it is, saved or failed |
| `Devices.FailedAddRestoresIffFresh` | agent/internal/store/store.go:155-164 | a failed Add leaves the disk alone and restores memory exactly if and only if the fingerprint was unused |
| `Devices.FailedRenewRestoresIffFresh` | agent/internal/store/store.go:179-190 | a failed Replace leaves the disk alone and restores memory exactly if and only if the new fingerprint was no other device's |
| `Devices.GoneStaysGone` | agent/internal/store/store.go:48-223 | a fingerprint out of memory and disk stays out until something introduces it |
| `Devices.RevokedIsNeverAccepted` | agent/internal/store/store.go:172-223 | once Revoke, or a renewal, returned nil the old certificate is never accepted again, restarts included |
| `Devices.HiddenStaysHidden` | agent/internal/store/store.go:48-223 | a device on disk but not in memory stays out until the file is loaded, and the first write takes it off the disk |
| `Devices.HiddenReturnsIff` | agent/internal/store/store.go:48-223 | over every run, it returns if and only if the file is loaded before it is rewritten |
| `Devices.FailedRevokeReturnsIff` | agent/internal/store/store.go:203-204 | over every run after a Revoke whose save failed, the device is accepted again if and only if a readable restart comes before any written change; a change written first makes the revocation permanent |
| `Devices.UnreadableRestartLosesIff` | agent/internal/store/store.go:58-66 | over every run after a restart that cannot read the file, a device returns if and only if a readable restart comes before any written change; otherwise it is lost |
| `Devices.AcceptedThroughoutIff` | agent/internal/store/store.go:48-223 | a saved device is accepted at every moment of a run if and only if no event is its revocation or renewal, a failed change on its fingerprint, or an unreadable restart |
| `Devices.PickByNameIsUnique` | agent/internal/store/store.go:207-222 | a removal by name has only one possible outcome |
| `Devices.RevokeIsDeterminedIffIdUnique` | agent/internal/store/store.go:194-222 | the removed device is independent of map order if and only if at most one device carries the ID |
| `Devices.RenewalKeepsRoster` | agent/internal/store/store.go:172-192 | a renewal to an unused fingerprint, saved or failed, keeps IDs, names, tokens and the count |
| `Devices.RenewalsKeepRoster` | agent/internal/store/store.go:172-192 | so does any number of them, with LastSeen updates in between |
| `PairingWindow.FieldsAgreeWithHistory` | agent/internal/store/store.go:227-284 | code, expiry and attempts are those of the latest window exactly while it is unclosed and unexhausted, and cleared otherwise |
| `PairingWindow.CheckSucceedsIff` | agent/internal/store/store.go:268-284 | a check succeeds if and only if the latest window is unclosed, unexhausted and not past its expiry, and the guess normalises to its code |
| `PairingWindow.AttemptsAreLimited` | agent/internal/store/store.go:276-282 | at most maxAttempts wrong guesses of a window are ever compared, and after that many no guess succeeds |
| `PairingWindow.GraceIsLastClose` | agent/internal/store/store.go:237-243 | the grace period ends fifteen seconds after the last close |
| `PairingWindow.AcceptsIff` | agent/internal/store/store.go:251-258 | clients without a certificate are admitted exactly while the latest window is unexpired, unclosed and unexhausted or less than 15 s after a close |
| `PairingWindow.CheckOutlivesOpenByOneInstant` | agent/internal/store/store.go:248-271 | the two tests of one window differ exactly at its expiry |
| `PairingWindow.ReplacedIffSpells` | agent/internal/store/store.go:298-302 | upper-casing and replacing yields a code exactly if the text spells it, look-alike letters, hyphens and blanks included |
| `PairingWindow.NormalizesIffSpells` | agent/internal/store/store.go:286-302 | a typed text normalises to a generated code if and only if, trimmed, it spells it symbol by symbol; the dotless i and the long s, whose capitals are ASCII letters, included |
| `Handlers.StoreDevice` | agent/internal/api/handlers.go:98-114 | the issued device is in memory and on disk, or the disk is as before and memory lost at most a device of the same fingerprint |
| `Handlers.CheckRequest` | agent/internal/api/handlers.go:71-87 | which of the closed window, the unreadable body and the wrong or late code refuses the request; a guess counts only in an open window and a readable request |
| `Handlers.PairDevice` | agent/internal/api/handlers.go:88-124 | paired exactly if key, certificate, token and save all succeed, and then the window is closed; otherwise the window stays as it was |
| `Handlers.HandleEnroll` | agent/internal/api/handlers.go:70-124 | each answer is given under exactly its condition; pairing takes an open window, a readable request and, in time, its code, and stores the device with its name and times in memory and on disk and burns the code; a wrong code counts one attempt; otherwise the window and the disk are unchanged, and memory unless the fingerprint was in use |
| `Handlers.HandleRenew` | agent/internal/api/handlers.go:152-189 | success moves just this device to the new certificate in memory and on disk and drops the old one; failure changes nothing unless the fingerprint was in use |
| `Enrollment.CheckCameFirst` | agent/internal/api/handlers.go:82-107 | a request that holds a passed check passed it earlier, against that window, and has held it since |
| `Enrollment.ArrivedWhileOpen` | agent/internal/api/handlers.go:71-76 | and it arrived while a window was open |
| `Enrollment.EveryDevicePassedItsOwnCheck` | agent/internal/api/handlers.go:70-124 | in every interleaving each device added is preceded by its own request's check, in time, with the code of a window live at that moment |
| `Enrollment.ClosedStaysClosed` | agent/internal/store/store.go:237-284 | a closed window accepts nothing until another is opened |
| `Enrollment.PairingBurnsTheCode` | agent/internal/api/handlers.go:107-115 | in every interleaving, once a paired request has closed the window no check against it, or an earlier one, succeeds |
| `Enrollment.AdminCloseBurnsTheCode` | agent/internal/store/store.go:237-243 | once the administrator has closed a window no check against it succeeds |
| `Enrollment.GivenUpIsOver` | agent/internal/api/handlers.go:88-106 | a request that ended without a device adds none later |
| `Enrollment.AlwaysSettled` | agent/internal/api/handlers.go:70-124 | in every interleaving, whatever overlaps, the window of a paired request is burnt or is about to be closed by that request |
| `Enrollment.PairedBothHeld` | agent/internal/api/handlers.go:82-115 | in every interleaving, two requests paired by one window once held a passed check of it at the same time |
| `Enrollment.HoldersCanBothPair` | agent/internal/api/handlers.go:102-107 | from any moment at which two requests hold one, the run can go on to pair both |
| `Enrollment.PairsTwoIffBothHold` | agent/internal/api/handlers.go:70-124 | both directions together: holding a passed check at the same time is exactly what lets one window pair two |
| `Enrollment.OneDevicePerWindow` | agent/internal/api/handlers.go:70-124 | two requests that are never in progress at once are never paired by one window, whatever others overlap them, through failed saves, retries and crashes |
| `Enrollment.OverlapPairsTwo` | agent/internal/api/handlers.go:82-115 | such a run exists: two requests check the right code before either closes the window and are both paired |
| `Streams.StaysOut` | agent/internal/store/store.go:110-121 | a removed certificate stays out of the table that the streams consult |
| `Streams.SampleIsWrittenIff` | agent/internal/api/stream.go:57-84 | a sample is written exactly if at its check the certificate is in the table, or without one the client is local; else the stream ends |
| `Streams.KeepAliveIsSentIff` | agent/internal/api/stream.go:85-91 | a keep-alive likewise, and it counts as no sample |
| `Streams.AllowedGoesOn` | agent/internal/api/stream.go:57-91 | a stream that passes its checks ends only with the process or the client |
| `Streams.AtMostOneMoreSample` | agent/internal/api/stream.go:57-84 | for every interleaving, each stream of a removed certificate writes at most the one sample whose lookup had already passed |
| `Streams.NextCheckEndsIt` | agent/internal/api/stream.go:65-91 | its next check ends it, and it takes no further step |
| `Streams.SavedRemovalLasts` | agent/internal/store/store.go:172-204 | a saved revocation or renewal is such a removal for all that follows, restarts included |
| `JobRunner.Context.Cancel` | agent/internal/tools/jobs.go:170-170 | a context keeps the first cause it was ended for |
| `JobRunner.Job.Finish` | agent/internal/tools/jobs.go:137-145 | done, or failed and marked cancelled exactly if its context was cancelled |
| `JobRunner.Runner.HasLive` | agent/internal/tools/jobs.go:114-119 | whether some job of that type is queued or running |
| `JobRunner.Runner.Refuses` | agent/internal/tools/jobs.go:103-120 | refused exactly if the cap is reached or an exclusive type is already live |
| `JobRunner.Runner.Enter` | agent/internal/tools/jobs.go:126-127 | the job is entered and one slot taken |
| `JobRunner.Runner.Submit` | agent/internal/tools/jobs.go:101-150 | refused and unchanged, or entered queued with a fresh active context |
| `JobRunner.Runner.Begin` | agent/internal/tools/jobs.go:132-158 | an entry still in the table becomes running |
| `JobRunner.Runner.End` | agent/internal/tools/jobs.go:134-147 | one slot is returned and an entry still in the table gets its final state |
| `JobRunner.Runner.Cancel` | agent/internal/tools/jobs.go:163-172 | true exactly for a queued or running job, whose context is then ended; the table itself is unchanged |
| `JobRunner.Runner.Gc` | agent/internal/tools/jobs.go:76-86 | for every visiting order exactly the entries ended over five minutes ago go |
| `JobRunner.SweptIff` | agent/internal/tools/jobs.go:76-86 | a job is dropped exactly if it ended over 300 seconds ago |
| `JobRunner.SlotsStep` | agent/internal/tools/jobs.go:101-135 | every step keeps the slot count equal to the unfinished goroutines and within the cap |
| `JobRunner.SlotsAlwaysMatch` | agent/internal/tools/jobs.go:101-150 | over every run and for any drawn IDs, `running` is the number of unfinished goroutines and at most maxPar |
| `JobRunner.SubmitKeepsMatch` | agent/internal/tools/jobs.go:103-127 | an accepted submission keeps entries and goroutines matched and exclusive types alone |
| `JobRunner.BeginKeepsMatch` | agent/internal/tools/jobs.go:132-132 | so does starting |
| `JobRunner.EndKeepsMatch` | agent/internal/tools/jobs.go:134-147 | so does finishing |
| `JobRunner.GcKeepsMatch` | agent/internal/tools/jobs.go:76-86 | so does cleaning up: it drops no live job |
| `JobRunner.StopKeepsMatch` | agent/internal/tools/jobs.go:163-172 | so do cancellation and timeouts |
| `JobRunner.SubmitMatchesIffFresh` | agent/internal/tools/jobs.go:121-127 | an accepted submission keeps entries and goroutines matched if and only if its ID is not a live job's |
| `JobRunner.AlwaysMatched` | agent/internal/tools/jobs.go:76-172 | over every run with fresh IDs the live entries are exactly the unfinished goroutines, at most one of each exclusive type |
| `JobRunner.OneOfEachHeavyKind` | agent/internal/tools/jobs.go:113-120 | over every run with fresh IDs at most one speedtest, one geekbench and one iperf3 goroutine is unfinished |
| `JobRunner.AcceptedIff` | agent/internal/tools/jobs.go:101-120 | over the same runs a submission is accepted exactly if a slot is free and, for those three kinds, no goroutine of that kind is unfinished |
| `JobRunner.EntryRecordsGoroutine` | agent/internal/tools/jobs.go:132-147 | a started job is running; an ended one is done or failed, with its end time, and cancelled exactly if it failed under a cancelled context |
| `JobRunner.CancelTakesEffect` | agent/internal/tools/jobs.go:163-172 | a job can be cancelled exactly while its goroutine is unfinished, and then that context ends and no other |
| `JobRunner.StatesMoveForward` | agent/internal/tools/jobs.go:76-172 | a job moves queued, running, done or failed and is final then; a live entry is never dropped |
| `JobRunner.OnlyCancelCancels` | agent/internal/tools/jobs.go:163-172 | only a Cancel call on that live job makes its context cancelled |
| `JobRunner.CanceledContextWasAsked` | agent/internal/tools/jobs.go:163-172 | a cancelled context goes back to an earlier Cancel call on that job |
| `JobRunner.CancelledOnlyIfAsked` | agent/internal/tools/jobs.go:140-172 | `Cancelled` is set only on a job on which Cancel was called while it was live |
| `JobSamples.Job.Get` | agent/internal/tools/jobs.go:88-97 | the copy's slice shows the last 400 points and joins the copies that `Valid` keeps stable |
| `JobSamples.Job.Append` | agent/internal/tools/jobs.go:349-351 | one point more, in place or in a new array; every copy handed out shows what it showed |
| `JobSamples.Job.Trim` | agent/internal/tools/jobs.go:353-355 | the slice shows its last 400 points; every copy handed out shows what it showed |
| `JobSamples.Job.Progress` | agent/internal/tools/jobs.go:335-357 | a point with a positive rate is recorded; the live slice is the last 400 recorded and all copies are stable |
| `SampleRing.Ring.Push` | agent/internal/collect/sampler.go:249-257 | the ring keeps holding the end of the unbounded log of pushes |
| `SampleRing.Ring.Newest` | agent/internal/collect/sampler.go:261-268 | the last element of the log, if there is one |
| `SampleRing.Ring.History` | agent/internal/collect/sampler.go:276-288 | the last n elements of the log in order, as far as the ring is long |
| `Rates.RateLosesLessThanOne` | agent/internal/collect/sampler.go:206-218 | rate times time is at most the counted bytes and short by less than one per second |
| `Rates.RatesConserve` | agent/internal/collect/sampler.go:194-218 | so for any sequence of intervals, counting the deltas used |
| `Network.Measure` | agent/internal/collect/sampler.go:208-228 | one interface's entry: no rate when new, zero for a side that went back |
| `Network.VirtualIff` | agent/internal/collect/linux.go:397-410 | which names count as virtual |
| `Network.ListIsComplete` | agent/internal/collect/sampler.go:208-228 | each interface is listed exactly once, with its own counters, and nothing else is |
| `Network.TotalIsSum` | agent/internal/collect/sampler.go:219-232 | each total is the sum of its column over the physical interfaces |
| `Network.Collect` | agent/internal/collect/sampler.go:206-229 | for every visiting order each interface is listed once and the totals are the sums over the list |
| `Network.Sink` | agent/internal/collect/sampler.go:302-309 | one round of the insertion sort: a sorted prefix grows by one, nothing lost |
| `Network.SortIfaces` | agent/internal/collect/sampler.go:300-311 | the list is sorted in place, physical interfaces first and by name, as a permutation |
| `Network.Deltas` | agent/internal/collect/sampler.go:206-232 | the list is a sorted permutation of the entries and the totals are the sums over its non-virtual ones |
| `Network.TotalOfPermutation` | agent/internal/collect/sampler.go:219-232 | the totals do not depend on the order of the list |
| `Network.GreaterIsTotal` | agent/internal/collect/sampler.go:304-304 | the name order decides between any two different names, one way |
| `Network.GreaterIff` | agent/internal/collect/sampler.go:304-304 | the comparison of names is the order of strings |
| `Network.SortedIff` | agent/internal/collect/sampler.go:300-311 | sorted means physical interfaces first and each kind in the order of names |
| `Network.NoSwapIsTransitive` | agent/internal/collect/sampler.go:304-304 | the comparison of the sort is transitive |
| `Network.SortedListIsUnique` | agent/internal/collect/sampler.go:300-311 | interfaces with distinct names can be sorted in only one way |
| `Network.DeltasAreDetermined` | agent/internal/collect/sampler.go:206-232 | the list is the same for every order in which the map is visited |
| `Sampler.Sampler.Tick` | agent/internal/collect/sampler.go:151-247 | a sample is made exactly if primed and the monotonic clock advanced; it is the difference to the previous measurement, stamped with the wall clock, and is pushed |
| `Sampler.Sampler.Latest` | agent/internal/collect/sampler.go:260-273 | the newest sample; with none, what two measurements on the spot yield |
| `Sampler.Sampler.History` | agent/internal/collect/sampler.go:276-288 | the last n samples ever pushed, in order, as far as the ring is long |
| `Sampler.TimesRiseIff` | agent/internal/collect/sampler.go:165-179 | over any stretch of the log the sample times strictly increase if and only if the wall clock was nowhere set back between two measurements by as much as the time that passed |
| `Sampler.SetBackReversesTimes` | agent/internal/collect/sampler.go:165-179 | three ticks around such a step yield a second sample that is dated before the first |
| `Sampler.ListedIsRate` | agent/internal/collect/sampler.go:208-228 | the rate a sample lists for an interface is that of its counter over the interval, zero if absent before or after |
| `Sampler.BytesConserved` | agent/internal/collect/sampler.go:194-244 | over any run of ticks, integrating an interface's listed rates gives at most its positive increments, short by less than the elapsed seconds |
| `Sampler.GainIsIncrease` | agent/internal/collect/sampler.go:211-218 | for an interface that stayed and never reset, those increments are the true counter increase |
| `Broadcast.Chan.TrySend` | agent/internal/collect/sampler.go:138-143 | a send to an open channel is kept below eight unread samples and dropped otherwise |
| `Broadcast.SendToAll` | agent/internal/collect/sampler.go:137-143 | for every visiting order each subscriber gets the sample once or misses it, and no other channel changes |
| `Broadcast.SubscribersStayOpen` | agent/internal/collect/sampler.go:63-88 | every subscribed channel, and every one a broadcast still has to visit, is open |
| `Broadcast.NoSendOnClosedChannel` | agent/internal/collect/sampler.go:82-144 | in every interleaving no send reaches a closed channel |
| `Broadcast.ChannelMatches` | agent/internal/collect/sampler.go:137-143 | received plus buffered is exactly what was kept by the events' own account |
| `Broadcast.OfferedIsDue` | agent/internal/collect/sampler.go:133-144 | each broadcast is offered exactly once, in order, to everyone subscribed when it began |
| `Broadcast.KeptIsSubsequence` | agent/internal/collect/sampler.go:138-143 | what is kept is what was offered with some left out |
| `Broadcast.BufferIsBounded` | agent/internal/collect/sampler.go:64-64 | at most eight samples wait in a channel |
| `Broadcast.SubscriberGetsKept` | agent/internal/collect/sampler.go:63-147 | in every interleaving a subscriber gets, in order, exactly the samples broadcast while it was subscribed less those met by eight unread ones |
| `Lifecycle.Subscribers.Enter` | agent/internal/collect/sampler.go:63-73 | the lock section of Subscribe is the event `Join`; exactly the first subscriber goes on to start |
| `Lifecycle.Subscribers.Begin` | agent/internal/collect/sampler.go:103-113 | `start` is the event `Start`: the pending timer is stopped, and a loop with a new stop channel launched exactly if none was running |
| `Lifecycle.Subscribers.Depart` | agent/internal/collect/sampler.go:82-88 | the first lock section of Unsubscribe; exactly the last subscriber goes on to arm the timer |
| `Lifecycle.Subscribers.SetLinger` | agent/internal/collect/sampler.go:89-99 | one timer is pending, the previous one is stopped |
| `Lifecycle.Subscribers.IsIdle` | agent/internal/collect/sampler.go:91-94 | the callback's test sees exactly whether there are subscribers |
| `Lifecycle.Subscribers.End` | agent/internal/collect/sampler.go:115-123 | `halt` closes the stop channel of the running loop, which is open, and none if no loop runs |
| `Lifecycle.OneLoopAlways` | agent/internal/collect/sampler.go:103-131 | in every interleaving exactly one loop has not been told to stop while `running` is set, the last one started, and none otherwise |
| `Lifecycle.NoDoubleClose` | agent/internal/collect/sampler.go:115-123 | no stop channel is closed twice |
| `Lifecycle.OneTimerPending` | agent/internal/collect/sampler.go:75-108 | at most the timer armed last is pending, and none after a start |
| `Lifecycle.FirstSubscriberStarts` | agent/internal/collect/sampler.go:63-113 | the first subscriber launches a loop unless one still runs |
| `Lifecycle.IdleLoopIsHalted` | agent/internal/collect/sampler.go:91-123 | with nobody subscribed the timer stops the loop |
| `Lifecycle.BusyTestDoesNotHalt` | agent/internal/collect/sampler.go:91-98 | with somebody subscribed its test does not lead to a halt |
| `Lifecycle.StepServes` | agent/internal/collect/sampler.go:63-123 | a step leaves a subscriber without a loop exactly if it is a late halt |
| `Lifecycle.ServedIffNoLateHalt` | agent/internal/collect/sampler.go:63-123 | over any run, subscribers always have a running or starting loop if and only if no callback halts late |
| `Lifecycle.AtomicCallbackServes` | agent/internal/collect/sampler.go:91-98 | with the callback's test and halt in one step they always do |
| `Lifecycle.LingerRaceStalls` | agent/internal/collect/sampler.go:91-98 | as written a run exists in which a subscriber has no loop |
| `Lifecycle.StallLastsUntilEmpty` | agent/internal/collect/sampler.go:63-111 | such a stall ends exactly when the last subscriber leaves |
| `SingleFlight.SingleStep` | agent/internal/collect/linux.go:232-256 | every critical section keeps one worker per busy key |
| `SingleFlight.BusyIffOneWorker` | agent/internal/collect/gpu.go:45-66 | in every interleaving a key has at most one worker and is busy exactly while it lives |
| `SingleFlight.ReadersSeeLastResult` | agent/internal/collect/linux.go:239-263 | whoever reads, whenever, gets the most recently completed result for that key |
| `SingleFlight.RemoteStats.Enter` | agent/internal/collect/linux.go:232-245 | a pending mount yields its cached result, any other gets exactly one new worker |
| `SingleFlight.RemoteStats.Complete` | agent/internal/collect/linux.go:248-256 | the worker's result is stored and the mount has no worker any more |
| `SingleFlight.RemoteStats.Leave` | agent/internal/collect/linux.go:257-263 | a caller that waited gets the current result, in time or not |
| `SingleFlight.GpuCache.TryRefresh` | agent/internal/collect/gpu.go:53-64 | a refresh is launched exactly if none is in progress |
| `SingleFlight.GpuCache.Store` | agent/internal/collect/gpu.go:56-61 | the refresh shows what it collected and is over |
| `SingleFlight.IntelMonitor.Sample` | agent/internal/collect/gpu.go:256-264 | a process is launched exactly if none is live; the caller gets what the monitor shows |
| `SingleFlight.IntelMonitor.Fail` | agent/internal/collect/gpu.go:275-281 | the error replaces the measurement and the worker is over |
| `SingleFlight.IntelMonitor.Show` | agent/internal/collect/gpu.go:331-337 | a measurement replaces the error while the process goes on |
| `SingleFlight.IntelMonitor.Exit` | agent/internal/collect/gpu.go:341-353 | the worker is over; a monitor that is not running shows a measurement or an error, never both and, once it ran, never neither |
| `PowerCache.Cache.TryRefresh` | agent/internal/collect/power.go:58-65 | the lock section is the event `Get`: a refresher starts exactly if none is live |
| `PowerCache.Cache.Measure` | agent/internal/collect/power.go:81-114 | the power between the remembered reading and this one, which is remembered; nothing is remembered when there is no domain or no reading |
| `PowerCache.Cache.Sample` | agent/internal/collect/power.go:81-114 | run without interference, `sample` is its four events `Find`, `Read`, `Compare`, `Remember` in turn |
| `PowerCache.Cache.Publish` | agent/internal/collect/power.go:69-74 | the result is shown and the refresher over, in one step |
| `PowerCache.AlwaysExclusive` | agent/internal/collect/power.go:47-74 | in every interleaving at most one refresher lives, exactly while the flag is set, and nobody else moves the previous reading under it |
| `PowerCache.PrevIsLastReading` | agent/internal/collect/power.go:102-109 | the remembered reading is the last one a refresh remembered |
| `PowerCache.PowerIs` | agent/internal/collect/power.go:102-114 | the power is the energy used, across one wrap of the counter, over the time; there is none without an earlier reading or time in between |
| `PowerCache.NoReadingNoPower` | agent/internal/collect/power.go:81-101 | without a domain or a reading there is no power |
| `PowerCache.DomainStays` | agent/internal/collect/power.go:82-92 | a domain once found is kept |
| `PowerCache.ShownIsLastResult` | agent/internal/collect/power.go:69-74 | callers see the result published last |
| `PowerCache.RefreshesAreSequential` | agent/internal/collect/power.go:54-114 | each refresh computes its power from the reading of the refresh before it, as if they ran one after the other |
| `Semver.ParseSemver` | agent/internal/selfupdate/selfupdate.go:50-70 | parses exactly if every part is an integer, missing parts counting as zero |
| `Semver.Newer` | agent/internal/selfupdate/selfupdate.go:75-87 | newer exactly if both parse and the first exceeds the second |
| `Semver.NewerIsStrictOrder` | agent/internal/selfupdate/selfupdate.go:72-87 | a strict partial order on all strings, total on those that parse to different triples |
| `Semver.PrintedNewerIff` | agent/internal/selfupdate/selfupdate.go:75-87 | printed versions are ordered by their numbers, the major one first |
| `Semver.AtoiIff` | agent/internal/selfupdate/selfupdate.go:62-66 | a part is a number exactly if it is digits after an optional sign and fits 64 bits |
| `Semver.LettersDoNotParse` | agent/internal/selfupdate/selfupdate.go:50-70 | a version with any other character, such as `dev`, does not parse |
| `Semver.ShortVersionParses` | agent/internal/selfupdate/selfupdate.go:50-70 | missing numbers count as zero |
| `Semver.DecimalParses` | agent/internal/selfupdate/selfupdate.go:62-62 | a printed number reads back |
| `Semver.PrintedVersionParses` | agent/internal/selfupdate/selfupdate.go:45-70 | a printed version, with or without the tag's `v`, parses back to its numbers |
| `SelfUpdate.Host.Copy` | agent/internal/selfupdate/selfupdate.go:314-324 | copying piece by piece is a run of writes to the temporary file; it succeeds exactly if no write fails, with as many bytes as the source |
| `SelfUpdate.Host.CopyBeside` | agent/internal/selfupdate/selfupdate.go:308-328 | opening, copying and closing succeed exactly if none of them fails; otherwise no file it opened is left, if removal works |
| `SelfUpdate.Host.ReplaceByCopy` | agent/internal/selfupdate/selfupdate.go:308-333 | the fallback moves the copied file over the installed one, which then holds the whole source; an error leaves the old binary and no file it opened, if removal works |
| `SelfUpdate.Host.ReplaceBinary` | agent/internal/selfupdate/selfupdate.go:301-334 | whatever fails, what happened is a run of file steps that ends between updates; exactly which faults are errors, and an error leaves the old binary |
| `SelfUpdate.Host.Apply` | agent/internal/selfupdate/selfupdate.go:137-204 | a run of file steps; installs only a newer release whose tarball has the checksum that SHA256SUMS lists for it, and does so unless a file step fails; any error leaves the installed binary as it was |
| `SelfUpdate.WantedIff` | agent/internal/selfupdate/selfupdate.go:232-244 | the checksum compared is that of the first line that lists the tarball, with or without the mark of binary mode |
| `SelfUpdate.LatestIsTagVersion` | agent/internal/selfupdate/selfupdate.go:146-146 | the leading `v` of a tag is not part of the version |
| `SelfUpdate.CopyIsWhole` | agent/internal/selfupdate/selfupdate.go:314-328 | after every step of every run the temporary file holds a prefix of the binary being copied, and all of it once the copy is closed |
| `SelfUpdate.BusyWasChosen` | agent/internal/selfupdate/selfupdate.go:137-204 | the release an update is busy with was accepted by the binary that is still installed |
| `SelfUpdate.RenamedWasChosen` | agent/internal/selfupdate/selfupdate.go:137-204 | whatever a rename installs is the whole binary of a release that is published under a newer version than the replaced binary reports and whose checksum matched |
| `SelfUpdate.AlwaysWhole` | agent/internal/selfupdate/selfupdate.go:301-334 | over any sequence of updates, each failing or killed after any file step, the installed path always holds one whole binary: the first or that of an accepted release |
| `SelfUpdate.VersionOnlyRises` | agent/internal/selfupdate/selfupdate.go:137-148 | over the same runs the version of the installed bytes only moves to newer ones, if releases report the version they are published under |
| `SelfUpdate.LeftoverHasCause` | agent/internal/selfupdate/selfupdate.go:314-332 | a temporary file remains only after a kill, or an error whose clean-up failed, in the middle of a copy |
| `SelfUpdate.ReplacedVersionNeverReturns` | agent/internal/selfupdate/selfupdate.go:72-148 | over the same runs a binary whose version was replaced never returns, and one whose version does not parse is never replaced |
| `ConfigValues.StripInlineComment` | agent/internal/config/config.go:138-153 | the loop cuts where `CommentStart` says: at a hash after a blank outside quotes |
| `ConfigValues.CollectItems` | agent/internal/config/config.go:163-170 | the parts become their trimmed, unquoted, non-empty items |
| `ConfigValues.ParseList` | agent/internal/config/config.go:157-171 | a bracketed text becomes its items, any other nothing |
| `ConfigValues.QuotedIsClosed` | agent/internal/config/config.go:138-153 | no hash inside double quotes starts a comment |
| `ConfigValues.SingleQuotedIsClosed` | agent/internal/config/config.go:138-153 | nor inside single quotes |
| `ConfigValues.HashStartsCommentIff` | agent/internal/config/config.go:138-153 | outside quotes a hash starts a comment exactly after a blank or at the start |
| `ConfigValues.NotAList` | agent/internal/config/config.go:157-161 | text that does not begin with a bracket is no list |
| `ConfigValues.RawOfPrinted` | agent/internal/config/config.go:123-153 | blanks around a printed value and a comment after it are dropped and nothing else |
| `ConfigValues.UnquoteOfQuoted` | agent/internal/config/config.go:155-155 | unquoting undoes quoting exactly for values without quotes at their ends |
| `ConfigValues.ValueRoundTripIff` | agent/internal/config/config.go:123-155 | a value without double quotes parses back if and only if no single quote stands at either end |
| `ConfigValues.ListRoundTrip` | agent/internal/config/config.go:123-171 | a printed list of such items without commas parses back to itself, hash signs and brackets inside items included |
| `ConfigFile.JoinLines` | agent/internal/config/config.go:104-113 | a line that opens a bracket and closes none goes on up to the first line that closes one |
| `ConfigFile.ReadPiece` | agent/internal/config/config.go:97-123 | blank lines and comments are skipped; what remains is a header, a setting or an error |
| `ConfigFile.Load` | agent/internal/config/config.go:86-131 | the loop reads the lines into the settings `Parsed` gives, or fails |
| `ConfigFile.FirstLine` | agent/internal/config/config.go:97-124 | a printed line is read on its own, or swallows at least the next |
| `ConfigFile.LinesRoundTripIff` | agent/internal/config/config.go:86-131 | printed lines read back one by one, key and text, if and only if none but the last opens a bracket that it does not close |
| `ConfigFile.ValuesReadBackIff` | agent/internal/config/config.go:86-155 | quoted values read back under their keys if and only if none has a single quote at an end and no line swallows the next |
| `ConfigFile.ListSwallowsNothing` | agent/internal/config/config.go:104-113 | a printed list never swallows the next line |
| `ConfigLayout.RowsAreJoined` | agent/internal/config/config.go:103-113 | a list over several lines is joined, row by row, up to its closing line |
| `ConfigLayout.ListIsRead` | agent/internal/config/config.go:103-124 | it is read as one setting under its key and what follows is read on its own |
| `ConfigLayout.ListTextIsList` | agent/internal/config/config.go:157-171 | its text is read as the items of all rows in order |
| `ConfigLayout.ListReadsBackIff` | agent/internal/config/config.go:86-171 | both hold if and only if no item holds a closing bracket |
| `ConfigLayout.NoteIsSkipped` | agent/internal/config/config.go:98-101 | blank lines and comment lines are skipped |
| `ConfigLayout.HeadIsRead` | agent/internal/config/config.go:114-117 | a header, in whatever case, sets the section |
| `ConfigLayout.OtherLineIsAnError` | agent/internal/config/config.go:118-121 | any other line without an equals sign is an error |
| `ConfigLayout.FileReadsBack` | agent/internal/config/config.go:86-131 | a file of settings, lists over several lines, headers, comments and blank lines reads back to its settings, each in its section and under its key in lower case |

## Left out

- The `/proc`, `/sys`, smartctl, nvidia-smi, journalctl and apt readers: vendor formats; the model takes arbitrary counter values.
- X.509, TLS, SHA-256 and token generation: fingerprints, token hashes, IDs and codes are arbitrary values; where freshness matters it is a stated condition.
- The TLS handshake decision and `authenticated` (agent/internal/api/server.go:81-264): plain calls of `AcceptsUnauthenticated`, `Lookup` and `Touch`, which are modelled.
- HTTP routing, JSON encoding, the control socket and the command line: plumbing around the calls modelled here.
- Backfill events of a stream: written before the per-sample check begins, so the revocation property is about live samples.
- The select loop of `handleStream` as one method: its branches are the events of `Streams`, so that the store can change between any two of them.
- `handleDeviceRevoke` (agent/internal/api/handlers.go:141-149): one call of `Revoke`, whose every error it answers with 404.
- Job bodies and the display fields a job's `progress` sets (phase, fraction, current rate, ping): the result is an arbitrary success or failure.
- Floating point: tokens, rates and power are computed over reals, and a rate of 2^64 or more is not converted with wrap-around; sums of counters are unbounded.
- Disk rates (agent/internal/collect/sampler.go:194-204): the same delta rule with both counters tested together; `Rates.RatesConserve` covers it, the disk list is not modelled. CPU percentages are single expressions.
- The age limits of the GPU and power caches and the idle stop of `intel_gpu_top`: whether a caller tries to start a worker is a free choice, so every such policy is covered.
- The reuse of the scanner's buffer between callbacks: the callback decodes the block before it returns.
- Lower-casing of section names and keys treats ASCII letters only; name matching in `Revoke` is an arbitrary relation, so it covers Unicode case folding.
- `set`, which assigns a setting to its field and may refuse it, and the environment and checks that `Load` applies afterwards (agent/internal/config/config.go:173-273).
- VersionOnlyRises: assumes that a release's binary reports the version it is published under, as the release build makes it do; without that, `RenamedWasChosen` is what holds.
- Comments between the rows of a list: they are joined to it like the rows, so such a comment ends the list.
- Two `update` commands running at the same time, which would write the same temporary file: updates follow one another here.
- The rounding of a sample's time to a float64: times are whole nanoseconds.
- Background release checks (`Checker`): a cached copy of one answer.
