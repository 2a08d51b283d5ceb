# A verified model of the media server

This project models the parts of the Go media server under `mediamtx/` whose behaviour is hardest to see from the
code, and proves what they promise. `dafny verify dfyconfig.toml` checks the whole project.

**The life-cycle of a path** (`core/path.go`, `core/static_source_handler.go`, `core/path_manager.go`).
`PathSpec` is the event loop of a path as a state machine on values: source, stream, readers, two on-demand machines
with their four timers, requests on hold, hooks, notices to the path manager, and the books of requests and answers.
`PathActor.Path` is the object whose methods are the steps of the loop; each is proved to compute the function of
`PathSpec` of the same name. `PathSafety` proves one invariant over every step, and exactly which steps keep the
stronger agreement that one expects; `PathRuns` draws the conclusions for whole runs, from the creation of a path to its
termination. `PathReplies` says who gets which reply, and `PathEffects` which event changes what. `PathHolds` is about
how long a request stays on hold, and `PathLinks` about ready hooks and notices, whatever the order in which sources
announce themselves.
`SourceStop` is the interplay of manager, path, source handler and running source: program counters for the places where
each of them blocks, and an action for every communication or branch of a select; `SourceCalls` derives from it in which
order a source announces and withdraws itself. `PathManager` has the two indexes of the manager and a reload of the
configuration, `ManagerRuns` what happens between two reloads, `ReloadOrder` the order in which reloads arrive at a path,
and `HandlerReloads` their way from there to the running source.

What the path relies on is stated in `PathSpec.Allowed` and `SourceStop.Forced`: a timer fires only while it is armed;
a reload brings a valid configuration that the manager found updatable; only a running source announces itself, it
withdraws only what it announced, and it returns once its context is cancelled, be it without a withdrawal, as the SRT
source does (`staticsources/srt/source.go:52-64`), or after further announcements when the first is refused, as the
camera does (`staticsources/rpicamera/source.go:98-108`); a publisher that has been started does not ask to be added or
started again before it stops or leaves. That a withdrawal comes only from a source known as ready is derived in
`SourceCalls`. Likewise a muxer is given a final DTS only after a sample
(`playback/segment_fmp4.go:472-474`).

**The fMP4 recorder** (`recorder/format_fmp4*.go`, `recorder/format_mpegts.go`). `RecorderSpec` is the recorder on
values, `RecorderActor` the objects (parts, segments, recorder) proved against it, `RecorderSafety` what any recording
guarantees, `RecorderBounds` where its segments begin and end; `RecorderExample` is one recording. `Timestamps` has the conversions between ticks and nanoseconds, with
their truncated division and their 64-bit arithmetic.

**The playback muxers** (`playback/muxer_fmp4.go`, `playback/muxer_mp4.go`). `MuxerSpec` is both muxers on values, and
beside them, in closed form, what each must output for the frames it was given; `MuxerProofs` and `MuxerResults` connect
the two, and `MuxerFlushes` says when fragments are written and how long samples last; `MuxerActor` has the two objects.

**The list of recordings** (`recordstore/segment.go`, `playback/on_list.go`). `RecordingList` selects and concatenates
segments, `RecordingWindow` trims them and proves what the answer to a list request holds as a whole.

**Names of segments** (`recordstore/path.go`). `Substitution` is about replacing tokens and escaping characters one
after the other, `SegmentNames` about the texts, the regular expression built from a format and what it stands for,
`SegmentPath` about matching and parsing, `SegmentRoundTrip` about names that are printed and parsed again;
`SegmentExample` has the names of the default format.

**Access units** (`formatprocessor/h264.go`, `formatprocessor/h265.go`). `AccessUnitSpec` has the normalisation, the
aggregation packets of section 5.7.1 of RFC 6184 and section 4.4.2 of RFC 7798, and their properties; `AccessUnitTypes`
states them by the numbers of the types of NAL units. `AccessUnits` has the two processors, `AccessUnitRuns` runs of
units and packets through them.

## Where the code does less than one might expect

Each of these is proved with the condition that holds if and only if the property does.

- A request on hold has no timer that will end its wait exactly when the machine it waits for is not in the state
  waiting-ready, and then only another request or a new stream ends it (`HeldWithoutTimer`, `PutOnHoldWithoutTimer`,
  `HeldWithoutEnd`). With a publisher two runs get there (`HeldAfterReady`, `HeldAfterClosing`); with a static source it
  takes an announcement that meets a stream (`HeldForStaticSourceHasTimer`, `HeldAfterSecondAnnouncement`).
- A fixed configuration is left without a path exactly when a path of another configuration held its name at the reload,
  has gone since, and nobody has asked for the name afterwards (`MissingExactlyWhen`, `FixedPathCanBeMissing`).
- Reloads can overtake each other and leave a path with an older configuration (`OvertakenReload`). When a reload is
  sent, the path is certain to end up with it if and only if every reload still on its way carries the same
  configuration (`AgreesExactlyWhen`); at any time only recording and camera tuning can differ (`ArrivalsAreUpdatable`).
- A reload reaches a running source for certain if and only if every other one on its way to it carries the same
  configuration (`ReloadReachesSourceExactlyWhen`). A handler that does not run is not told: a source that is started
  afterwards ends up with the configuration of the path if and only if the handler has it already and older reloads on
  their way carry it too (`StartUsesReloadExactlyWhen`, `LostWhileStopped`).
- An announcement that a path can accept comes from a source it does not know as ready, except if and only if its source
  has gone without the path being told: it has returned without a withdrawal, as the SRT source does whenever it loses
  its connection, or its withdrawal was given up (`CallsAreInOrderExactlyWhen`, `StaleExactlyWhen`,
  `AnnouncesAgainAfterLostConnection`, `CanAnnounceTwice`).
- Everything in a path stays in agreement if and only if no announcement meets a stream (`StepKeepsTidyExactlyWhen`). One
  that does makes the path schedule the end of an on-demand stream that has readers, or leaves readers without a stream
  (`StepKeepsControlExactlyWhen`, `SecondAnnouncementKeepsControlExactlyWhen`). Over whole runs, ready hooks are called,
  each once and in order, and everything is left clean, if and only if no second announcement creates a stream and no source is left at the end that has lost its stream
  to an announcement that failed (`RunCallsHooksExactlyWhen`, `RunIsCleanExactlyWhen`). What `RunSettles` promises
  holds of every run.
- The base time of a part, for the track that set the start of the segment, is exact if and only if the conversion to
  nanoseconds cuts off no more of the DTS than of the start; otherwise it is a tick short, or two if the start is negative
  (`BaseTimeIsExactWhen`, `BaseTimeCanBeShort`). For the other tracks it is near the true offset (`BaseTimeIsNear`).
- Fragments of a track follow each other without a gap if and only if no gap of 2^32 ticks or more between two frames of
  the window comes before the last fragment (`FragmentsHaveNoGapExactlyWhen`).
- The two muxers keep the same frames unless a track has frames but none inside the window: the fragmented one drops it
  (`BothKeepTheSameFrames`). In a single file times are exact if and only if the first one has 32 bits
  (`FileOutputTimes`).
- The answer to a list request is inside the window if and only if the window does not end before it starts
  (`ListStaysInWindow`). All its entries end by the end of the window if and only if all segments do that are not joined
  to the next one (`AllEndInWindowExactlyWhen`, `OverlapCanEndLate`). An instant of the window is listed if and only if it
  is in a run of selected segments (`ListedExactly`), which is so for every recorded one unless a recording ends after a
  later one (`NothingIsLost`, `LongRecordingCanBeLost`).
- What a format keeps of an instant comes back from a segment name if and only if the year has four digits and the Unix
  time ten, as far as the format has them, and the rest of the format fits nowhere inside the path
  (`RoundTripExactlyWhen`, `RoundTripWithPathExactlyWhen`, `PathCanBeCutShort`).
- In H265 the last parameter set of an access unit is stored unless it equals the one stored before and the unit holds
  another one (`LastWinsExactlyWhen`, `LastCanLose`, `StoredIsLastSeenExactlyWhen`).

## Model

| member | source | states |
|---|---|---|
| PathSafety.StepKeepsInv | mediamtx/internal/core/path.go:238-324 | every event the loop can receive, a second announcement of a source included, leads from any state of the invariant of all runs to a state of it |
| PathSafety.StepKeepsBasic | mediamtx/internal/core/path.go:326-580 | in every run, whatever a running source announces: an on-demand static source is in Initial iff its handler does not run, in Ready or Closing iff the path knows the source as ready, in WaitingReady iff the ready timer is armed, in Closing iff the close timer is armed; a stream has its hook and, of a static source, a source known as ready; an on-demand publisher has its undemand hook iff its machine is not in Initial and its timers in exactly their states; held requests only without a stream, `MaxReaders` never exceeded; so no `start` or `stop` of a handler panics and no missing hook is called |
| PathSafety.StaticSetReadyKeepsBasic | mediamtx/internal/core/path.go:382-398 | whether or not the path knows the source as ready already, an announcement leaves such a path |
| PathSafety.StepKeepsTidyExactlyWhen | mediamtx/internal/core/path.go:382-398 | from a state in which stream, source, machines, timers, readers, hooks and notices agree, an event leads to another one if and only if it is not an announcement, by a source known as ready, that gets as far as the stream |
| PathSafety.StepKeepsControlExactlyWhen | mediamtx/internal/core/path.go:326-580 | for every configuration: an on-demand static source is in Initial iff its handler does not run, in WaitingReady iff the ready timer is armed iff a request is held (and then no stream), in Ready only with a stream and readers, in Closing iff the close timer is armed, with a stream and no readers; readers only with a stream, held requests only without one, recording iff configured and ready; and the rest of what `StepKeepsBasic` states: a step keeps all this if and only if it is not an announcement that ends a present stream, or that replaces one which has readers on demand |
| PathSafety.TimersKeepControl | mediamtx/internal/core/path.go:326-361 | each of the four timers, fired while armed, finds the handler or the hook it stops and leaves a consistent path |
| PathSafety.StaticSetReadyKeepsControlExactlyWhen | mediamtx/internal/core/path.go:382-398 | the same for an announcement, accepted or failed, by a source known as ready or not |
| PathSafety.SecondAnnouncementKeepsControlExactlyWhen | mediamtx/internal/core/path.go:382-398 | a source known as ready that announces itself again leaves everything in place if and only if the transcoder refuses, or a stream is created and nobody reads an on-demand one |
| PathSafety.StartPublisherKeepsControl | mediamtx/internal/core/path.go:504-529 | the same for a publisher that starts, also when it is not the publisher any more |
| PathSafety.StepPays | mediamtx/internal/core/path.go:382-580 | each step keeps the balance for each request: as often as it was accepted, it is answered or held |
| PathSafety.ConsumeHeldPays | mediamtx/internal/core/path.go:767-779 | releasing the held requests answers each of them once |
| PathSafety.ConsumeHeldServes | mediamtx/internal/core/path.go:767-779 | a path that has just become ready on demand ends up waiting to close without readers or ready with readers, whatever was held |
| PathSafety.StepAccounts | mediamtx/internal/core/path.go:563-580 | each admission of a reader is still good, ended by the reader, or ended once by the end of the stream |
| PathSafety.StepKeepsLinkInvExactlyWhen | mediamtx/internal/core/path.go:723-800 | notices to the manager alternate, starting with ready, and each ready hook issued has been closed once, except that of the present stream: an event keeps this if and only if it is not an announcement that meets a stream |
| PathSafety.SecondReadyBreaksLinkInv | mediamtx/internal/core/path.go:723-765 | a path that is made ready while it has a stream sends two notices of a kind in a row and loses a ready hook |
| PathSafety.StepKeepsDemandHooks | mediamtx/internal/core/path.go:689-721 | each undemand hook issued has been called once, except the one still pending |
| PathLinks.HooksCalledExactlyWhen | mediamtx/internal/core/path.go:723-800 | over any run of becoming ready, failing to, and becoming unready, every ready hook issued has been called if and only if no stream was created while a hook was pending and none is pending at the end |
| PathLinks.HooksInTurnExactlyWhen | mediamtx/internal/core/path.go:723-800 | over any such run, hooks have been called once and in order, but for a pending one, if and only if none was replaced and none called again |
| PathLinks.FromCreation | mediamtx/internal/core/path.go:723-800 | both from the creation of a path on |
| PathLinks.RunIsOps | mediamtx/internal/core/path.go:326-580 | any run of a path is such a run: each event does at most one of these things to the stream and its hooks, calls none again, and replaces one exactly when it is an announcement, by a source known as ready, that creates a stream |
| PathLinks.RunCallsHooksExactlyWhen | mediamtx/internal/core/path.go:195-236 | over any run of a path, from its creation to its termination at any moment, every ready hook is called, and then once and in order, if and only if no second announcement creates a stream and no source known as ready is without a stream at the end |
| PathLinks.RunIsCleanExactlyWhen | mediamtx/internal/core/path.go:195-236 | under the same condition, and only then: hooks are called once in order, notices alternate and end with not ready, each admission of a reader has ended once, and no reader and no recording is left |
| PathRuns.RunSettles | mediamtx/internal/core/path.go:195-236 | over any run that ends at any moment, whatever a running source announces: every request is answered exactly once, every undemand hook is called exactly once in order, and no stream, armed timer or running source is left |
| PathRuns.RunKeepsTidy | mediamtx/internal/core/path.go:238-324 | over any run in which no announcement meets a stream, everything stays in agreement |
| PathRuns.TerminateSettles | mediamtx/internal/core/path.go:197-233 | termination in any state of the invariant does all this for what was open |
| PathLinks.TerminateIsClean | mediamtx/internal/core/path.go:197-233 | termination also leaves hooks, notices, readers and recording clean if they were in turn and the hook that was pending has its stream |
| PathRuns.RunAccepts | mediamtx/internal/core/path.go:238-318 | the requests on the books of a run are exactly those of its events |
| PathRuns.StepTellsCurrent | mediamtx/internal/core/path.go:382-398 | no step hands out a stream that is not the stream of the path when the step is over |
| PathRuns.EndOfUseIsNoticed | mediamtx/internal/core/path.go:654-660 | every event that ends the use of a regular-expression path is one after which the loop asks whether to close |
| PathRuns.ClosingHurtsNobody | mediamtx/internal/core/path.go:654-660 | a path that closes because it is not in use refuses no request, removes no reader, and ends no stream and no source |
| PathRuns.StaleCallChangesNothing | mediamtx/internal/core/path.go:463-536 | a start, stop or remove by a publisher that is not the source leaves stream, readers, machines and hooks unchanged |
| PathRuns.StaleCallsDoNotMatter | mediamtx/internal/core/path.go:463-536 | over whole runs: with all calls of an overridden publisher, or with none of them, the path goes through the same states |
| PathReplies.DescribeGets | mediamtx/internal/core/path.go:412-461 | a describe is redirected iff the source is a redirect, or there is neither stream nor demand but a fallback; it gets the stream iff there is one; it is held iff there is none but one can be demanded; otherwise nobody is publishing, and nobody else is answered |
| PathReplies.AddReaderGets | mediamtx/internal/core/path.go:538-561 | a reader gets the stream iff there is one and the reader is known or there is room, and exactly then is one of the readers afterwards; too many readers iff it is new and there is no room; held iff there is no stream but one can be demanded |
| PathReplies.NewStreamGoesToAll | mediamtx/internal/core/path.go:767-779 | when a stream is created, each held describe gets it, each held reader gets it iff it is one of the readers afterwards and is refused only if the path is full by then, first come, first served; the announcer gets it last, and nobody else gets anything |
| PathReplies.SilentEventsAnswer | mediamtx/internal/core/path.go:326-380 | a ready timer refuses exactly those on hold; a close timer or a reload answers nobody |
| PathReplies.TimedOutExactlyWhen | mediamtx/internal/core/path.go:326-357 | over all events: a request is timed out iff it is on hold when a ready timer fires |
| PathReplies.AddPublisherGets | mediamtx/internal/core/path.go:479-502 | a publisher gets the path iff the path is for publishers and has none or may be overridden; is refused as already publishing, or as not a publisher path, iff that is why |
| PathReplies.FailedStartGets | mediamtx/internal/core/path.go:504-529 | an announcement that fails is refused, as not assigned any more iff its author is not the publisher of the path |
| PathReplies.OthersAreDone | mediamtx/internal/core/path.go:400-580 | withdrawals, and calls of readers and publishers that leave, are acknowledged, once each |
| PathReplies.RefusedOnlyFor | mediamtx/internal/core/path.go:326-580 | each kind of refusal belongs to these events and to no other |
| PathReplies.TerminateAnswers | mediamtx/internal/core/path.go:210-216 | the end of a path refuses exactly those on hold |
| PathEffects.ConfAfter | mediamtx/internal/core/path.go:363-380 | the configuration changes by a reload and by nothing else |
| PathEffects.SourceAfter | mediamtx/internal/core/path.go:463-502 | a publisher is the source of the path from being given the path until it is removed or overridden |
| PathEffects.PublisherIsClosedExactlyWhen | mediamtx/internal/core/path.go:479-502 | a publisher is closed iff another one overrides it |
| PathEffects.StreamAfter | mediamtx/internal/core/path.go:382-536 | the stream after an event: a new one, none, or the same, with the exact events for each |
| PathEffects.ReadersAfter | mediamtx/internal/core/path.go:538-580 | readers go with the stream or when they leave, and come only by asking, at once or after having been on hold |
| PathEffects.MachineMoves | mediamtx/internal/core/path.go:662-721 | the machine that serves on demand goes to each of its states exactly at these events |
| PathEffects.StepKeepsUnusedClosing | mediamtx/internal/core/path.go:704-709 | a publisher that serves on demand and has no reader is about to be closed |
| PathEffects.LeavesWhenUnused | mediamtx/internal/core/path.go:654-660 | the loop of a regular-expression path ends only when the path is unused, and whenever it becomes so |
| PathHolds.HeldWithoutTimer | mediamtx/internal/core/path.go:412-461 | in every state with a request on hold, no ready timer is armed if and only if the machine it waits for, of the static source or of the publisher, is not in WaitingReady |
| PathHolds.PutOnHoldWithoutTimer | mediamtx/internal/core/path.go:412-461 | a request that is put on hold has no ready timer if and only if that machine is Ready or Closing |
| PathHolds.WaitEndsExactlyBy | mediamtx/internal/core/path.go:326-361 | exactly a ready timer and a new stream empty the hold; a close timer and every other event leave everybody on hold |
| PathHolds.HeldWithoutEnd | mediamtx/internal/core/path.go:238-324 | from a state without a ready timer, any run without another request and without a new stream leaves the requests on hold |
| PathHolds.HeldForStaticSourceHasTimer | mediamtx/internal/core/path.go:427-433 | over any run in which no announcement meets a stream, requests held for a static source on demand have the ready timer |
| PathHolds.HeldAfterSecondAnnouncement | mediamtx/internal/core/path.go:340-343 | a run, for every such configuration, in which a second announcement fails to allocate a stream, a describe is held in state Closing, and the close timer fires without answering it |
| PathHolds.HeldAfterReady | mediamtx/internal/core/path.go:435-441 | a run, for every such configuration that admits a reader, in which the publisher drops while its machine is Ready and a describe is held with no timer at all |
| PathHolds.HeldAfterClosing | mediamtx/internal/core/path.go:359-361 | a run, for every such configuration, in which a describe is held in state Closing and the close timer fires without answering it |
| PathActor.Path.DoOnDemandStaticSourceReadyTimer | mediamtx/internal/core/path.go:326-338 | refuses everything on hold with a time-out and stops the handler |
| PathActor.Path.DoOnDemandStaticSourceCloseTimer | mediamtx/internal/core/path.go:340-343 | ends the stream and stops the handler |
| PathActor.Path.DoOnDemandPublisherReadyTimer | mediamtx/internal/core/path.go:345-357 | refuses everything on hold with a time-out and calls the undemand hook |
| PathActor.Path.DoOnDemandPublisherCloseTimer | mediamtx/internal/core/path.go:359-361 | calls the undemand hook and goes back to the initial state |
| PathActor.Path.DoReloadConf | mediamtx/internal/core/path.go:363-380 | takes the new configuration and starts or stops recording accordingly |
| PathActor.Path.DoSourceStaticSetReady | mediamtx/internal/core/path.go:382-398 | creates the stream, schedules the closing, serves what was held and answers the source; on failure only answers |
| PathActor.Path.DoSourceStaticSetNotReady | mediamtx/internal/core/path.go:400-410 | ends the stream, answers the source, and stops the handler of a source on demand |
| PathActor.Path.DoDescribe | mediamtx/internal/core/path.go:412-461 | answers, redirects, holds and demands the stream, or refuses, in that order of cases; which reply is given when is `PathReplies.DescribeGets` |
| PathActor.Path.DoAddReader | mediamtx/internal/core/path.go:538-561 | admits, holds and demands the stream, or refuses |
| PathActor.Path.DoRemoveReader | mediamtx/internal/core/path.go:563-580 | removes the reader and, after the last one, schedules the closing of a machine that is ready |
| PathActor.Path.DoAddPublisher | mediamtx/internal/core/path.go:479-502 | refuses, assigns the path, or overrides the present publisher |
| PathActor.Path.DoStartPublisher | mediamtx/internal/core/path.go:504-529 | refuses a stale publisher, otherwise creates the stream, schedules the closing and serves what was held |
| PathActor.Path.DoStopPublisher | mediamtx/internal/core/path.go:531-536 | ends the stream of the present publisher only |
| PathActor.Path.DoRemovePublisher | mediamtx/internal/core/path.go:463-477 | removes the present publisher only |
| PathActor.Path.AddReaderPost | mediamtx/internal/core/path.go:856-890 | answers a known reader again, refuses one too many, otherwise admits and reopens a closing machine |
| PathActor.Path.ConsumeOnHoldRequests | mediamtx/internal/core/path.go:767-779 | all held describes and then all held readers are served, in order |
| PathActor.Path.Terminate | mediamtx/internal/core/path.go:197-233 | computes the termination for which `TerminateSettles` is proved |
| PathActor.Path.Run | mediamtx/internal/core/path.go:195-236 | the object, run over any admissible events from any state of the invariant, ends with everything settled |
| PathActor.CreateAndRun | mediamtx/internal/core/path.go:165-236 | the object, created and run over any admissible events, ends with everything settled, and clean if and only if no ready hook is lost |
| SourceStop.ApplyKeepsInv | mediamtx/internal/core/static_source_handler.go:133-288 | every communication between manager, path, handler and source, and a source that returns with or without a withdrawal, keeps: the path knows whether its handler runs, a handler that is gone has left no source, an unanswered request is in exactly one place, and a path ends only when its context has; so `start` and `stop` never panic |
| SourceStop.NoDeadlock | mediamtx/internal/core/static_source_handler.go:154-168 | whenever the path waits in `stop`, or the manager for a path, some action is enabled that must happen and leads towards the end |
| SourceStop.RankFalls | mediamtx/internal/core/path.go:900-934 | every action lowers a rank, except for the few choices that are named as detours |
| SourceStop.RunsAreBounded | mediamtx/internal/core/static_source_handler.go:174-240 | however actions are scheduled, the length of a run is bounded by the rank at its start and the number of detours |
| SourceStop.OnlyRetriesDelayStop | mediamtx/internal/core/static_source_handler.go:174-240 | while the path is inside `stop`, the only possible detours are a retry timer chosen over a cancelled context and a camera that announces itself again after it was refused |
| SourceStop.StopIsBounded | mediamtx/internal/core/static_source_handler.go:154-240 | the number of actions while the path is inside `stop` is bounded by the rank at its start and the number of such retries, also for a source that asks again and again |
| SourceStop.WaitingEnds | mediamtx/internal/core/path_manager.go:183-195 | from every state in which somebody waits, actions that all have to happen end the waiting, within the rank, with no handler and no source left running |
| SourceCalls.LookKeepsAgreement | mediamtx/internal/core/static_source_handler.go:263-288 | every communication keeps: the path knows a running source as ready iff the source side has announced itself and not withdrawn, or the source has gone without the path being told |
| SourceCalls.CallsAreInOrderExactlyWhen | mediamtx/internal/core/static_source_handler.go:263-288 | in every reachable state an announcement the path can accept comes from a running source, which it knows as ready already if and only if a source has gone without the path being told since; a withdrawal it can accept comes from a running source it knows as ready |
| SourceCalls.StaleExactlyWhen | mediamtx/internal/core/path.go:918-934 | over every run: the flag stands if and only if at some point, with the handler running, a withdrawal was released or a live source returned without one, and since then the handler was not stopped and no announcement that creates a stream was accepted |
| SourceCalls.WithdrawingSourceIsLostToCancelled | mediamtx/internal/core/path.go:918-934 | for a source that always withdraws, it stands only once the context of the path is cancelled |
| SourceCalls.CanAnnounceTwice | mediamtx/internal/core/path.go:900-934 | a run after which the path can accept a second announcement while it has the stream of the first, because a withdrawal was given up |
| SourceCalls.AnnouncesAgainAfterLostConnection | mediamtx/internal/staticsources/srt/source.go:52-106 | a run that gets there with no context cancelled and no withdrawal made: the source loses its connection and is created again |
| PathManager.ByConfCreate | mediamtx/internal/core/path_manager.go:336-364 | adding a path keeps the second index equal to the one computed from the first |
| PathManager.ByConfRemove | mediamtx/internal/core/path_manager.go:366-373 | removing a path does so too, and no empty set is left |
| PathManager.CloseOnlyItself | mediamtx/internal/core/path_manager.go:214-219 | a late close never removes a newer path of the same name |
| PathManager.ReloadTurn | mediamtx/internal/core/path_manager.go:176-197 | one turn of the reload loop adds exactly the fate of one configuration to what the others got; what the fates are is in the next three rows |
| PathManager.ClosedExactlyWhen | mediamtx/internal/core/path_manager.go:178-190 | a reload closes a path iff its configuration has gone, or differs in anything but recording and the camera fields |
| PathManager.ToldExactlyWhen | mediamtx/internal/core/path_manager.go:176-182 | a reload tells a path a configuration iff it is the new one of that path, differs from the old one, and only in those fields |
| PathManager.ToldIsAllowed | mediamtx/internal/core/path_manager.go:17-40 | so a path is told only what its loop may receive |
| PathManager.SurvivorsAreLeft | mediamtx/internal/core/path_manager.go:183-190 | the index that is left holds exactly the paths that were not closed |
| PathManager.WithoutKeepsInv | mediamtx/internal/core/path_manager.go:173-197 | what a reload leaves in the index belongs to configurations that exist in the new set |
| ManagerRuns.MissingExactlyWhen | mediamtx/internal/core/path_manager.go:214-314 | over any run of closes and requests after a reload, a fixed configuration has no path if and only if the path that held its name has gone and nobody has asked for the name since |
| ManagerRuns.OwnPathStays | mediamtx/internal/core/path_manager.go:214-314 | a path that belongs to the fixed configuration of its name stays over any such run |
| ManagerRuns.MissingUntilRevived | mediamtx/internal/core/path_manager.go:249-314 | a missing path is created by the first request for it that is authorised and finds its configuration, and stays |
| ManagerRuns.FixedPathsStay | mediamtx/internal/core/path_manager.go:199-205 | a fixed configuration whose name was not taken at the reload has a path over any such run |
| ManagerRuns.Serve | mediamtx/internal/core/path_manager.go:126-171 | the manager object, serving closes and requests, goes through the states of these runs |
| ReloadOrder.AgreesExactlyWhen | mediamtx/internal/core/path_manager.go:176-182 | when a reload is sent, every order of arrival leaves the path with it if and only if every reload still on its way carries the same configuration |
| ReloadOrder.InOrderAgrees | mediamtx/internal/core/path.go:892-898 | reloads that arrive in the order of sending leave the path with the configuration of the manager |
| ReloadOrder.ArrivalsAreUpdatable | mediamtx/internal/core/path_manager.go:17-40 | whatever the order of arrival, each configuration that arrives is updatable with regard to the one the path has |
| ReloadOrder.OvertakenReload | mediamtx/internal/core/path_manager.go:176-182 | two reloads in quick succession after which a path keeps recording although it should not |
| HandlerReloads.EndsWithExactlyWhen | mediamtx/internal/core/static_source_handler.go:174-255 | for a handler that runs, whatever is on its way and however it arrives or is given up: the source is certain to end up with a configuration if and only if every reload on its way carries it and, unless one of them is certain to arrive, the source has it or will be created with it |
| HandlerReloads.ReloadReachesSourceExactlyWhen | mediamtx/internal/core/static_source_handler.go:215-255 | a reload told to a running handler reaches the source for certain if and only if every other one on its way carries the same configuration |
| HandlerReloads.ReloadIsKept | mediamtx/internal/core/static_source_handler.go:215-229 | then the handler has it too, and so has a source that is created again |
| HandlerReloads.StartUsesReloadExactlyWhen | mediamtx/internal/core/static_source_handler.go:242-247 | a source that is started ends up for certain with the configuration of the path if and only if the handler has it already and every older reload still on its way carries it too |
| HandlerReloads.LostWhileStopped | mediamtx/internal/core/static_source_handler.go:242-247 | a reload that comes while the handler is stopped never reaches the source that is started next |
| PathManager.FixedPathCanBeMissing | mediamtx/internal/core/path_manager.go:199-205 | a reload creates no path for a fixed configuration whose name is taken, and the name can become free afterwards |
| PathManager.Manager.CreatePath | mediamtx/internal/core/path_manager.go:336-364 | adds one fresh path to both indexes |
| PathManager.Manager.RemovePath | mediamtx/internal/core/path_manager.go:366-373 | removes exactly that path from both indexes |
| PathManager.Manager.DoClosePath | mediamtx/internal/core/path_manager.go:214-219 | removes the path only if it is the one that has its name now |
| PathManager.Manager.DoRequest | mediamtx/internal/core/path_manager.go:249-314 | a request that is authorised and matches a configuration gets the indexed path of its name, created if there was none; any other changes nothing |
| PathManager.Manager.DoReloadConf | mediamtx/internal/core/path_manager.go:173-208 | closes exactly the indexed paths whose configuration is gone or differs in more than recording and camera fields, tells exactly those whose configuration differs in these only, leaves the others in the index, and adds one fresh path for each fixed configuration without one |
| Timestamps.MultiplyAndDivideExact | mediamtx/internal/recorder/format_mpegts.go:26-36 | dividing first and carrying the remainder gives the truncated quotient of the whole product, for either sign |
| Timestamps.NoOverflow | mediamtx/internal/recorder/format_mpegts.go:26-36 | with factors up to 10^9, the wrapping 64-bit computation gives the exact quotient whenever that quotient fits |
| Timestamps.ToDurationBounds | mediamtx/internal/recorder/format_mpegts.go:38-40 | a tick, before or after 0, is converted to the nearest nanosecond that is not farther from 0 |
| Timestamps.ToDurationMonotone | mediamtx/internal/recorder/format_mpegts.go:38-40 | the conversion keeps and reflects the order of timestamps of either sign |
| Timestamps.RoundTripLoss | mediamtx/internal/recorder/format_fmp4_part.go:85-92 | what an offset between any two timestamps loses on its way through nanoseconds and back, exactly |
| Timestamps.RoundTripIsExactWhen | mediamtx/internal/recorder/format_fmp4_part.go:85-92 | the offset is exact if and only if the conversion cuts off no more of its end than of its start; otherwise one tick is lost, or two across 0 with a very fine clock |
| Timestamps.RoundTripCanLoseATick | mediamtx/internal/recorder/format_fmp4_part.go:85-92 | at 90000 ticks a second the first tick after 0 is lost and the ninth is not; two are lost across 0 at 700 million |
| Timestamps.OffsetAcrossIsNear | mediamtx/internal/recorder/format_fmp4_part.go:85-92 | the same bounds for an offset between timestamps of two tracks with different clocks |
| RecorderSafety.RecordingIsExact | mediamtx/internal/recorder/format_fmp4_track.go:14-65 | flattening all parts of all segments gives, in order, each sample written except the last of its track and those that lie before the start of the segment open at that time, with the duration up to the next sample of its track |
| RecorderSafety.HeldIsRecordedExactlyWhen | mediamtx/internal/recorder/format_fmp4_track.go:21-43 | the next write to a track records the sample it holds if and only if no segment is open or the sample does not lie before its start, at its DTS, unchanged, and with the distance to the next one as its duration if that fits into 32 bits |
| RecorderBounds.RunKeepsBounds | mediamtx/internal/recorder/format_fmp4_track.go:29-65 | over any run: the first sample a segment records of the track that opened it is the one it was opened with, a segment not opened by rollover begins with it, and one closed by a codec change ends with the last sample recorded |
| RecorderBounds.CodecChangeClosesExactlyWhen | mediamtx/internal/recorder/format_fmp4.go:128-136 | a change of codecs closes the segment iff one of its parts has been written |
| RecorderBounds.CloseEndsAtLatest | mediamtx/internal/recorder/format_fmp4.go:874-885 | the end of a recording closes the open segment, which lasts until the latest of the samples recorded in it and those still held |
| RecorderSafety.RunKeepsSegments | mediamtx/internal/recorder/format_fmp4_segment.go:112-175 | over any run: only the last sample of a part lies `PartDuration` or more after its start, every part but the last is that long, no sample precedes its segment, a segment closed by rollover is at least `SegmentDuration` long and the next one starts at its end with a sync sample |
| RecorderSafety.RunNumbers | mediamtx/internal/recorder/format_fmp4_segment.go:149-172 | part numbers run on across segments, modulo 2^32 |
| RecorderSafety.RunSeesVideo | mediamtx/internal/recorder/format_fmp4_track.go:15-18 | the video flag is set exactly once a video sample has been written |
| RecorderSafety.RollsExactlyWhen | mediamtx/internal/recorder/format_fmp4_track.go:45-62 | a rollover happens if and only if a sample was recorded, its successor is a sync sample at least `SegmentDuration` after the start of the segment, and belongs to a video track once there was any video |
| RecorderSafety.BaseTimeIsExactWhen | mediamtx/internal/recorder/format_fmp4_part.go:85-94 | no base time is negative; for the track that set the segment start it is the exact offset in ticks if and only if the conversion cuts off no more of the sample's DTS than of the start, and otherwise one tick short, or two if the start is negative |
| RecorderSafety.BaseTimeIsNear | mediamtx/internal/recorder/format_fmp4_part.go:85-94 | the base time of any track is less than two ticks short of the true offset from the segment start, and less than one beyond it, if no DTS is negative; one tick wider otherwise |
| RecorderExample.BaseTimeCanBeShort | mediamtx/internal/recorder/format_fmp4_part.go:85-94 | a recording of four samples in which the base time of the second part is a tick short |
| RecorderActor.HoldsOneMore | mediamtx/internal/recorder/format_fmp4_part.go:85-100 | one more sample, filed under its track, keeps the map of a part equal to its samples track by track, with the base time of the first |
| RecorderActor.PartObject.Write | mediamtx/internal/recorder/format_fmp4_part.go:85-100 | appends the sample to its track in the part |
| RecorderActor.SegmentObject.Write | mediamtx/internal/recorder/format_fmp4_segment.go:146-175 | puts the sample into the current part, or into a new one when there is none or it is long enough |
| RecorderActor.SegmentObject.Close | mediamtx/internal/recorder/format_fmp4_segment.go:116-144 | flushes what is left |
| RecorderActor.Recorder.Write | mediamtx/internal/recorder/format_fmp4_track.go:14-65 | holds the sample, records or rejects the one held before, and rolls over; when it records is `HeldIsRecordedExactlyWhen` |
| RecorderActor.Recorder.UpdateCodecs | mediamtx/internal/recorder/format_fmp4.go:128-136 | closes the segment if its file already holds the old parameters |
| RecorderActor.Recorder.Close | mediamtx/internal/recorder/format_fmp4.go:874-885 | extends the segment to the latest held sample and closes it |
| RecorderActor.Record | mediamtx/internal/recorder/format_fmp4_track.go:14-65 | the objects, run over any samples, leave files with the durations, numbers, base times and samples that the specification says |
| MuxerProofs.FragmentsHoldTheFrames | mediamtx/internal/playback/muxer_fmp4.go:60-157 | for non-decreasing DTS, the fragments of a track hold exactly the frames from the one where decoding has to start, each with the time to the next one, and nothing for a track without a frame in the window |
| MuxerProofs.FileHoldsTheFrames | mediamtx/internal/playback/muxer_mp4.go:49-93 | for non-decreasing DTS, the single file holds exactly the frames from the same one on, with their durations, and its time offset is the DTS of the first, cast to 32 bits |
| MuxerProofs.RunAgrees | mediamtx/internal/playback/muxer_fmp4.go:60-157 | at any time, what has been written of a track followed by its buffer is what has to be written so far |
| MuxerProofs.FlushEmits | mediamtx/internal/playback/muxer_fmp4.go:132-161 | a flush writes one fragment for each track that has something to leave, and nothing for the others |
| MuxerProofs.StartAfter | mediamtx/internal/playback/muxer_mp4.go:56-59 | the frame where decoding has to start moves to a new sync frame exactly as long as no frame is in the window |
| MuxerResults.BothKeepTheSameFrames | mediamtx/internal/playback/muxer_mp4.go:49-85 | given the same calls, both muxers keep the same frames if and only if the track has a frame in the window or none at all, and the frames of the window get the same durations |
| MuxerResults.FragmentsHaveNoGapExactlyWhen | mediamtx/internal/playback/muxer_fmp4.go:132-157 | for non-decreasing DTS, each fragment of a track starts where the one before ends if and only if frames of the window up to the last fragment are less than 2^32 ticks apart; the first one always starts with the first frame of the window |
| MuxerResults.FragmentedOutputTimes | mediamtx/internal/playback/muxer_fmp4.go:72-101 | for non-decreasing DTS less than 2^32 ticks apart in the window, each sample of each fragment in the output, counted from the base time of its fragment, is decoded at the DTS of its frame, or with the first frame of the window if it precedes it |
| MuxerResults.FileOutputTimes | mediamtx/internal/playback/muxer_mp4.go:61-69 | for non-decreasing DTS less than 2^32 ticks apart, each sample of the output file is decoded at the DTS of its frame if and only if the DTS of the first one fits into 32 bits |
| MuxerResults.BuffersStayShort | mediamtx/internal/playback/muxer_fmp4.go:95-102 | in whatever order DTS come, a started track has a non-empty buffer of less than one second |
| MuxerFlushes.FlushesExactlyWhen | mediamtx/internal/playback/muxer_fmp4.go:95-102 | over any run, a call writes a fragment iff it brings a frame of the window that is a second or more after the first frame its track has in its buffer |
| MuxerFlushes.DurationsReachNext | mediamtx/internal/playback/muxer_fmp4.go:83-88 | in both outputs a frame of the window lasts until the next one or the final DTS, if 32 bits can hold that, and has no duration if nothing follows or what follows is earlier |
| MuxerResults.OutputIsWellFormed | mediamtx/internal/playback/muxer_fmp4.go:159-189 | the output is empty, or one header followed by numbered parts of which none is empty |
| MuxerResults.PartTicksIsTimeScale | mediamtx/internal/playback/segment_fmp4.go:29-34 | one second is as many ticks as the time scale says |
| MuxerActor.FindTrack | mediamtx/internal/playback/muxer_fmp4.go:23-30 | finds the first track with the identifier, if there is one |
| MuxerActor.MuxerFMP4.WriteSample | mediamtx/internal/playback/muxer_fmp4.go:60-120 | buffers the frame and flushes a buffer that has become long enough |
| MuxerActor.MuxerFMP4.WriteFinalDTS | mediamtx/internal/playback/muxer_fmp4.go:122-130 | sets the duration of the last frame of a started track |
| MuxerActor.MuxerFMP4.InnerFlush | mediamtx/internal/playback/muxer_fmp4.go:132-192 | takes what leaves each track into one numbered part, after a header if it is the first |
| MuxerActor.MuxerMP4.WriteSample | mediamtx/internal/playback/muxer_mp4.go:49-85 | drops what precedes a sync frame before the window, and appends the frame |
| MuxerActor.MuxFMP4 | mediamtx/internal/playback/muxer_fmp4.go:42-196 | the object, driven by any calls, outputs exactly the frames it has to |
| MuxerActor.MuxMP4 | mediamtx/internal/playback/muxer_mp4.go:31-105 | the other object, driven by the same calls, too |
| RecordingList.FindSegments | mediamtx/internal/recordstore/segment.go:148-195 | nothing is found exactly when no segment starts by the end of the window; otherwise the sorted segments without all but the last of those that start by its start |
| RecordingList.FromStart | mediamtx/internal/recordstore/segment.go:171-193 | the search loop and the branch for "not found" skip exactly those segments; the last check of that branch can never fail |
| RecordingList.SelectedAreExactly | mediamtx/internal/recordstore/segment.go:148-195 | the selection consists of the segments that start in the window, and a latest one of those that start by its start if there is any, whatever order sorting gives to equal starts |
| RecordingList.CutsAreExactly | mediamtx/internal/playback/on_list.go:92-116 | an entry starts with exactly those segments that cannot be joined to their predecessor |
| RecordingList.NeighboursAreInOneEntryExactlyWhen | mediamtx/internal/playback/segment_fmp4.go:52-61 | two neighbouring segments are in one entry iff they have the same tracks and the second starts at most 500 ms before or after the end of the first |
| RecordingList.EntriesAreMaximalRuns | mediamtx/internal/playback/on_list.go:92-116 | each entry covers a maximal run of joinable segments with one track list, from the start of the first to the end of the last; the runs cover the whole list |
| RecordingList.Concatenate | mediamtx/internal/playback/on_list.go:92-116 | the loop computes these entries, although it compares with the entry and not with the segment before |
| RecordingWindow.Trim | mediamtx/internal/playback/on_list.go:188-213 | removes or shortens the first entry, shortens the last one, and answers 404 when nothing is left |
| RecordingWindow.OnList | mediamtx/internal/playback/on_list.go:172-213 | selection, concatenation and trimming together; the answer is inside the window, which may lack a start or an end, if and only if it does not end before it starts |
| RecordingWindow.ListStaysInWindow | mediamtx/internal/playback/on_list.go:188-213 | no negative duration, no start before the window and no end of the last entry after it, if and only if start is not after end or one of them is missing; otherwise the answer is a single entry of negative duration |
| RecordingWindow.WithoutStartAllAreListed | mediamtx/internal/playback/on_list.go:188-213 | without a start, every entry is listed, and an answer is empty only if there is no segment |
| RecordingWindow.ListedExactly | mediamtx/internal/playback/on_list.go:172-213 | an instant of the window is in a listed entry if and only if a selected segment has started by then and the run it belongs to lasts until then |
| RecordingWindow.ListedIsRecorded | mediamtx/internal/playback/on_list.go:92-213 | every instant of a listed entry is within 500 ms of one at which a selected segment is recorded |
| RecordingWindow.NothingIsLost | mediamtx/internal/playback/on_list.go:172-213 | every instant of the window at which there is a recording is in a listed entry, unless a recording ends after a later one |
| RecordingWindow.LongRecordingCanBeLost | mediamtx/internal/recordstore/segment.go:171-193 | a recording that spans the whole window is not listed when a shorter later one starts before the window |
| RecordingWindow.AllEndInWindowExactlyWhen | mediamtx/internal/playback/on_list.go:208-213 | every entry ends by the end of the window if and only if every selected segment that is not joined to the next one does |
| RecordingWindow.OverlapCanEndLate | mediamtx/internal/playback/on_list.go:208-213 | with recordings that overlap, an entry that is not the last one can end after the window |
| SegmentNames.LeadingZeros | mediamtx/internal/recordstore/path.go:12-24 | pads with zeros up to the size |
| SegmentNames.PaddedParses | mediamtx/internal/recordstore/path.go:12-24 | a number that fits is printed with exactly that many digits and is read back as itself |
| Substitution.OneByOneIsAtOnce | mediamtx/internal/recordstore/path.go:203-211 | replacing token after token gives the same as replacing all at once, as long as what is put in cannot form a token |
| SegmentNames.EncodeIsSubstitution | mediamtx/internal/recordstore/path.go:202-213 | a printed name is the format with the path filled in and then each token replaced once, and no number that was put in is replaced again |
| Substitution.EscapeOneMore | mediamtx/internal/recordstore/path.go:75-92 | escaping character after character, backslash first, escapes each character once |
| SegmentNames.RegexpIsRight | mediamtx/internal/recordstore/path.go:73-103 | the regular expression built from a format stands for its literal characters, a lazy group for the path, and one group of digits per token, of the right width |
| SegmentNames.OperatorsAreEscaped | mediamtx/internal/recordstore/path.go:75-92 | exactly the characters that have a meaning in Go's regular expressions are escaped |
| SegmentPath.GroupsFollowTokens | mediamtx/internal/recordstore/path.go:105-132 | the groups of that expression are those of the scanned tokens, in the same order |
| SegmentPath.GroupMapping | mediamtx/internal/recordstore/path.go:105-132 | the scan from percent sign to percent sign finds exactly the tokens |
| SegmentPath.FirstMatchIsFound | mediamtx/internal/recordstore/path.go:134-137 | a name is parsed at the first position at which the expression matches, wherever that is |
| SegmentPath.LazyEnd | mediamtx/internal/recordstore/path.go:94 | of the places at which the rest matches, the group of the path ends at the first one |
| SegmentPath.LazyMatchesExactlyWhen | mediamtx/internal/recordstore/path.go:94 | the group of the path matches iff the rest does behind it, with no line break in it |
| SegmentPath.Decode | mediamtx/internal/recordstore/path.go:72-199 | finds the leftmost match, with the shortest path, and reads the last value of each token |
| SegmentRoundTrip.RoundTrip | mediamtx/internal/recordstore/path.go:72-213 | without the path in the format, a printed name is parsed and gives back every field the format has, with the defaults for the others |
| SegmentRoundTrip.RoundTripWithPath | mediamtx/internal/recordstore/path.go:72-213 | with the path in it, a printed name is always parsed, and the path comes back if and only if the rest of the format fits nowhere inside it; then so do the fields |
| SegmentRoundTrip.SeparatedIsUnambiguous | mediamtx/internal/recordstore/path.go:94-103 | it fits nowhere inside if it begins with a character that the path does not contain |
| SegmentRoundTrip.PathCanBeCutShort | mediamtx/internal/recordstore/path.go:94-103 | a path that comes back cut short |
| SegmentRoundTrip.RoundTripExactlyWhen | mediamtx/internal/recordstore/path.go:72-213 | without the path in the format, what the format keeps of an instant comes back if and only if the year has four digits and the Unix time ten, as far as the format has them |
| SegmentRoundTrip.CompleteKeepsAll | mediamtx/internal/recordstore/path.go:145-196 | a format with all calendar fields keeps everything but the digits after the microseconds |
| SegmentExample.DefaultNameIs | mediamtx/internal/conf/path.go:195 | the name in the default format is the path and the year, and month, day, hour, minute and second with two digits, microseconds with six |
| SegmentExample.UnixNameIs | mediamtx/internal/recordstore/path.go:202-213 | the Unix time is printed as it is and read from ten digits |
| SegmentRoundTrip.RoundTripWithPathExactlyWhen | mediamtx/internal/recordstore/path.go:72-213 | with the path in the format, path and instant come back if and only if, besides, the rest of the format fits nowhere inside the path |
| SegmentRoundTrip.ShortIsLost | mediamtx/internal/recordstore/path.go:134-137 | a name printed without a path for a year below 1000, or a Unix time of fewer digits than ten, whichever decides, is not parsed at all |
| SegmentRoundTrip.ShortCutsPath | mediamtx/internal/recordstore/path.go:134-141 | with a path, such a name never gives back the whole path |
| SegmentRoundTrip.DecodedYear | mediamtx/internal/recordstore/path.go:159-161 | whatever name is parsed, the year has at most four digits and no sign |
| SegmentRoundTrip.DecodedSeconds | mediamtx/internal/recordstore/path.go:187-193 | whatever name is parsed, a Unix time is positive and has at most ten digits |
| AccessUnitSpec.RemuxIsIdempotent | mediamtx/internal/formatprocessor/h264.go:174-230 | with stored sets that are parameter sets, normalising again changes nothing |
| AccessUnitTypes.RemuxedIsNormalised | mediamtx/internal/formatprocessor/h264.go:174-230 | by the numbers of types: the stored sets are put out iff some unit has type 5 (H264), or 19 to 21 (H265), and all are known, and behind them exactly the units whose type is not 7, 8 or 9, or 32 to 35, in order |
| AccessUnitTypes.LastOfIsLastOfType | mediamtx/internal/formatprocessor/h264.go:146-172 | the SPS remembered is the last unit of type 7 (33), the PPS of type 8 (34), the VPS of type 32 |
| AccessUnitTypes.OfPayloadIsLast | mediamtx/internal/formatprocessor/h264.go:28-82 | a packet shows the sets among its units; only type 24 (48) is opened, behind one (two) bytes |
| AccessUnitTypes.LastOtherIsOfType | mediamtx/internal/formatprocessor/h265.go:170-203 | in H265 it is the last unit of that type that differs from the one stored |
| AccessUnitSpec.FilteredStays | mediamtx/internal/formatprocessor/h264.go:214-227 | what is kept are exactly the units that are neither parameters nor delimiters |
| AccessUnitSpec.LastWinsExactlyWhen | mediamtx/internal/formatprocessor/h265.go:170-203 | the last H265 parameter set of an access unit is stored, except if it equals the one stored before and the unit also holds a different one |
| AccessUnitSpec.LastCanLose | mediamtx/internal/formatprocessor/h265.go:186-190 | an access unit in which it is not |
| AccessUnitSpec.ParseRoundTrip | mediamtx/internal/formatprocessor/h264.go:47-75 | serialised units of 1 to 65535 bytes are parsed back |
| AccessUnitSpec.ParsePadded | mediamtx/internal/formatprocessor/h264.go:52-57 | whatever follows a zero size is ignored |
| AccessUnitSpec.ParseCutOff | mediamtx/internal/formatprocessor/h264.go:59-61 | a packet whose last unit is cut off yields nothing |
| AccessUnitSpec.ParseIsSound | mediamtx/internal/formatprocessor/h264.go:47-75 | whatever is parsed is a prefix of the packet, unit by unit |
| AccessUnitSpec.AggregationYieldsLast | mediamtx/internal/formatprocessor/h265.go:58-97 | an aggregation packet yields the last parameter set of each kind among its units |
| AccessUnits.ExtractH264 | mediamtx/internal/formatprocessor/h264.go:28-82 | the parser, in bounds, yields the parameter sets of the specification for every payload |
| AccessUnits.ExtractH265 | mediamtx/internal/formatprocessor/h265.go:41-102 | the same for H265 |
| AccessUnits.CountUnits | mediamtx/internal/formatprocessor/h264.go:174-199 | the counting pass finds key frames, by type 5 or 19 to 21, and the exact number of units to output |
| AccessUnits.FillUnits | mediamtx/internal/formatprocessor/h264.go:214-227 | the filling pass leaves no hole and never overflows |
| AccessUnits.RemuxAccessUnit | mediamtx/internal/formatprocessor/h265.go:205-262 | both passes together: the stored sets, if known, before a unit of a key frame type, then the units whose type is not that of a parameter set or delimiter; nothing if none is left |
| AccessUnits.ProcessorH264.UpdateFromAU | mediamtx/internal/formatprocessor/h264.go:146-172 | stores the last set of each kind of the access unit |
| AccessUnits.ProcessorH264.UpdateFromRTPPacket | mediamtx/internal/formatprocessor/h264.go:131-144 | stores the sets found in the packet, keeps the others |
| AccessUnits.ProcessorH264.ProcessUnit | mediamtx/internal/formatprocessor/h264.go:232-236 | updates the sets, then normalises with them |
| AccessUnits.ProcessorH264.ProcessRTPPacket | mediamtx/internal/formatprocessor/h264.go:253-310 | updates the sets from the packet, then normalises the access unit that it completes |
| AccessUnits.ProcessorH265.UpdateFromAU | mediamtx/internal/formatprocessor/h265.go:170-203 | stores the last set of each kind that differs from the stored one |
| AccessUnits.ProcessorH265.ProcessUnit | mediamtx/internal/formatprocessor/h265.go:264-268 | updates the sets, then normalises with them |
| AccessUnits.ProcessorH265.UpdateFromRTPPacket | mediamtx/internal/formatprocessor/h265.go:151-168 | stores the sets found in the packet, keeps the others |
| AccessUnits.ProcessorH265.ProcessRTPPacket | mediamtx/internal/formatprocessor/h265.go:285-340 | updates the sets from the packet, then normalises the access unit that it completes |
| AccessUnitRuns.RunH264 | mediamtx/internal/formatprocessor/h264.go:232-310 | over any run of units and packets, each access unit is output normalised with the last unit of type 7 and the last of type 8 that the stream has shown by then |
| AccessUnitRuns.KeyFramesAreDecodable | mediamtx/internal/formatprocessor/h264.go:188-212 | in that output an access unit with a unit of type 5 keeps it, behind the last SPS and PPS shown, once both are known, and has no other parameter set or delimiter |
| AccessUnitRuns.LastSeenIsLast | mediamtx/internal/formatprocessor/h264.go:131-172 | over any run of units and packets, the set seen last is the last one of the whole stream, units of aggregation packets included |
| AccessUnitRuns.RunH265 | mediamtx/internal/formatprocessor/h265.go:264-340 | over any run of units and packets, each access unit is output normalised with the sets of types 32, 33 and 34 that H265 stores by then |
| AccessUnitRuns.KeyFramesAreDecodableH265 | mediamtx/internal/formatprocessor/h265.go:219-244 | the same for H265 with the three stored sets and units of types 19 to 21 |
| AccessUnitRuns.StoredIsLastSeenExactlyWhen | mediamtx/internal/formatprocessor/h265.go:151-203 | over any run, H265 stores the set seen last if and only if the last input that showed one did not end with the set stored before while holding another one |
| AccessUnitRuns.StoredIsLastSeen | mediamtx/internal/formatprocessor/h265.go:151-203 | over any run of units and packets, H265 stores the set seen last as long as no access unit holds two different sets of a kind |

## Left out

- The transcoder calls in `setReady` and `doRemovePublisher`: whether a stream can be created is an input of the event.
- API queries, metrics, logging, authentication, the content of hooks and external commands: they do not change the state.
- Class `Path` keeps the fields of the Go struct in a few records (books, link, crowd, demand, supply); readers are numbers.
- The running source and its handler are one flag in `PathSpec`; how they stop is in `SourceStop`.
- `SourceStop` covers one path, its handler and its source; the manager's other paths are represented by its being busy.
- SourceStop.WaitingEnds: gives one run that ends the waiting, with bounds for all others; that a scheduler picks an
  enabled select branch fairly is not part of the model.
- `FindPathConf` matching of regular expressions: any configuration it may return is allowed.
- The manager's `doSetHLSServer` and its API calls; `core/core.go` reload.
- I/O errors of the recorder: they end a recording.
- Files, boxes and marshalling: recordings and outputs of muxers are sequences of parts.
- DTS are unbounded integers; when the conversions fit into 64 bits is `NoOverflow`.
- Tracks of the muxers are values in an array, not objects shared by pointers.
- `seekAndMux` and the parsing of recorded files: the muxers take any sequence of calls.
- RecordingList.FindSegments: the walk over directories is its argument, and so is the outcome of the sort.
- SegmentPath.Decode: of the syntax of regular expressions only what a format can produce is read; the path of the
  receiver, which stays as it is when the format has no path, starts empty.
- A recorder is one flag of the path: that the recorder of a replaced stream is never closed is not modelled.
- PathHolds.HeldForStaticSourceHasTimer: holds for sources whose announcements meet no stream; for the others
  `HeldWithoutTimer` says in which states the timer is missing.
- SegmentRoundTrip.RoundTripWithPath: does not cover formats in which `%path` occurs twice or right after a percent sign,
  nor paths with a percent sign or a line break, which are not valid path names (`conf/path.go:19-37`).
- Time zones: calendar fields are taken as they are printed, and an instant is compared field by field. That a Unix time
  of at most ten digits lies in the years 1969 to 2286 is part of what an instant is (`SegmentNames.Instant`).
- RTP encoding and decoding, padding and re-encoding of packets that are too large: an RTP packet comes with the access unit
  it completes.
- Other codecs, MPEG-TS recording, `backend/` and `frontend/`: little state to reason about.
