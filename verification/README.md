# A verified model of wlvision

wlvision runs an application inside a container on a headless Wayland compositor, lets one resident client
drive the windows, captures what the compositor shows, and keeps a durable record of every session. This
project models the parts where state, order and failure meet, and proves what they promise. It is written in
Dafny 4.11; `dafny verify dfyconfig.toml` checks all of it.

## What is modelled

- **The control protocol** (`Protocol`, `CompositorShell`, `ControlClient`, `ControlLog`, `ControlSystem`,
  `ControlAnswers`, `ControlInvariant`, `ControlTheorems`, `CompositorAnswers`, `ControlOutcomes`).
  `CompositorShell.WlvisionShell` is the Weston shell module with its two lists and two counters,
  `ControlClient.Client` the resident client with its cache, removed set, pending calls and resize progress; each
  method is proved against a function on the state. `ControlSystem` puts both into one transition system joined by
  two FIFO streams, with every interleaving of window changes, handlers, the client's critical sections, channel
  sends, caller timeouts and connection failure. An invariant relates both ends through the events in flight, and
  the theorems follow for every run.
- **Temporal vision** (`WaitStable`, `Burst`, `BurstMeaning`, with `Arithmetic` and `Text`). Both loops run
  against a script of clock readings and answers about which nothing is assumed but that the clock never goes
  backwards, and are proved against declarative statements: first long enough maximal run, grid and missed deadlines,
  conservation of bytes and entries.
- **The payload receiver** (`ArchiveNames`, `PayloadReceiver`, `PayloadMeaning`). The sorted index agrees with a plain
  relation on names, and extraction accepts exactly the archives described without any order and builds
  exactly their tree.
- **Image staging** (`CopyTree`, `CopyMeaning`, `Canonical`, `CanonicalMeaning`). The copy is the link-expanded
  unfolding of the source tree, with a termination measure through symbolic links; the fingerprint's input has a
  decoder.
- **Typing** (`Typing`). The transitions a text is compiled to are interpreted by a simulated seat, under
  calls that may be delivered although their answer is lost.
- **The capture source** (`CaptureSource`). Any number of callers, the compositor's answers and the
  retirement rule, step by step.
- **Session history** (`SessionHistory`). Operations over a store and an engine, each in a process that may
  die before any of its effects, with the saved states of every session kept in order.
- **Pixel decode and digest** (`PixelDecode`). Running offsets over arrays against the picture a buffer shows.

Conventions: a member of a class that changes state is proved against a function of the old state or states
its whole new state; a predicate that a quantifier ranges over has a name of its own, so that proofs stay
quick. The modules whose names end in Meaning, with `CompositorAnswers` and `ControlOutcomes`, say what results mean
in terms of inputs, events and stored data alone, without the functions that compute them.

## Where the code and its description differ

- `internal/capture/screenshot.go:204-208` says that a second capture waits; the code refuses it
  (`internal/capture/screenshot.go:220-223`), and so does the model.
- `internal/manifest/build.go:560-562` says that every .git directory is skipped. The code skips the directory
  entries of that name (`internal/manifest/build.go:605`); what stands in one is still copied when any link that
  is followed, whatever its name, resolves at or beneath it. `CopyTree.GitUnderAnotherName` is such a tree.
  `CopyTree.GitOnlyBehindLinks` says for every path, and `CopyTree.CopyHoldsGitIff` for the whole copy, that this
  is exactly when it happens; `CopyTree.GitOnlyThroughLinks` says exactly when an entry of the copy is a directory
  named .git.
- `internal/manifest/build.go:397-399` calls the fingerprint a digest of the declared values. It leaves out
  the digest pin of the base image (`internal/manifest/build.go:457-468`), as `Canonical.CanonicalInjective` states.
- Agreement between the client's cache and the module holds from the client's first snapshot on
  (`ControlTheorems.HeldRevisionIsExact`). From every start with a window some run misleads a caller before a
  snapshot (`ControlTheorems.BeforeFirstSnapshot`), and from a start without one none ever does:
  `ControlTheorems.OnlyEmptyStartsAgree` is the equivalence.
- Type leaves the seat with what the artifact asks for exactly when no character is typed with the shift key
  itself (`Typing.TypedAsWantedIff`); the shipped artifact has no such character.
- A session record's promise that no crash can orphan a container (`internal/session/model.go:97-99`) fails in one
  place: between the engine's answer to Create and the save of the identifier. `SessionHistory.World.Create` states
  that a container goes adrift exactly when the engine issued it to a creation that then failed or died,
  `SessionHistory.HomeUnlessAdrift` that the containers without a record are exactly those,
  `SessionHistory.CrashCanOrphan` exhibits one, and `SessionHistory.World.Close` says that closing such a session
  succeeds and leaves the container.
- The size check of `internal/capture/format.go:95-97` is in machine integers and can wrap: four bytes pass for five
  rows that start 2^62 bytes apart (`PixelDecode.OverflowIsAdmitted`). `PixelDecode.Decode` states that it then
  panics, exactly for the admitted sizes that overflow; sizes as wl_shm carries them never do
  (`PixelDecode.ProtocolSizesFit`).

## Model

| member | source | states |
|---|---|---|
| Protocol.RevisionRoundTrip | internal/control/state.go:22-30 | splitting a revision into two words and joining them again are inverse, in both directions |
| Protocol.HandleNameInjective | weston-module/wlvision-shell.c:228-229 | two counters never print the same handle |
| CompositorShell.AddedKeepsValid | weston-module/wlvision-shell.c:991-1021 | a new window gets a handle no live window has, and the live handles grow by exactly it |
| CompositorShell.RemovedKeepsValid | weston-module/wlvision-shell.c:1023-1061 | removing a window removes exactly its handle and its pending resize; every other window's pending resize stays |
| CompositorShell.CommittedKeepsValid | weston-module/wlvision-shell.c:1063-1108 | a commit keeps one pending resize per window, each for a live window |
| CompositorShell.HandlersKeepValid | weston-module/wlvision-shell.c:554-806 | every request handler keeps at most one resize per window, each for a live window, and leaves the window list alone |
| CompositorShell.WlvisionShell.FindToplevel | weston-module/wlvision-shell.c:199-213 | finds the first window with the handle, exactly when the handle is live |
| CompositorShell.WlvisionShell.FindRequest | weston-module/wlvision-shell.c:376-388 | finds the pending request of a window, exactly when there is one |
| CompositorShell.WlvisionShell.AssignHandle | weston-module/wlvision-shell.c:221-234 | the search ends and yields the next counter's handle, which no live window has |
| CompositorShell.WlvisionShell.DesktopSurfaceAdded | weston-module/wlvision-shell.c:991-1021 | the whole new state and the events of a new surface, and of one whose view could not be created |
| CompositorShell.WlvisionShell.DesktopSurfaceRemoved | weston-module/wlvision-shell.c:1023-1061 | the pending resize is refused and dropped, the removal reported, the window unlinked and the revision raised, in that order |
| CompositorShell.WlvisionShell.DesktopSurfaceCommitted | weston-module/wlvision-shell.c:1063-1108 | a commit of exactly the configured size ends the resize at a raised revision; any other changes nothing |
| CompositorShell.WlvisionShell.DesktopSurfaceRestated | weston-module/wlvision-shell.c:1132-1166 | a fullscreen or maximize request of a known window raises the revision and is reported |
| CompositorShell.WlvisionShell.Handle | weston-module/wlvision-shell.c:554-806 | each request has exactly the effect and answers of its handler, and keeps the lists valid |
| CompositorAnswers.RefusedExactly | weston-module/wlvision-shell.c:575-721 | a window request is refused exactly when its revision is stale, its size cannot be granted, its window is not live or memory is short, with the code of the first of these, and then nothing changes but, for want of memory, the resize that waited |
| CompositorAnswers.AcceptedDoes | weston-module/wlvision-shell.c:575-721 | what an accepted request is answered with and what it changes |
| CompositorAnswers.OthersAnswered | weston-module/wlvision-shell.c:554-573 | the requests that name no window change nothing, are answered once and refused only for their own reason; a snapshot lists every window in order |
| CompositorAnswers.AdditionReports | weston-module/wlvision-shell.c:991-1021 | a new window is listed last, under a handle no window has, and reported as it looks at a raised revision |
| CompositorAnswers.RestateReports | weston-module/wlvision-shell.c:1132-1166 | a fullscreen or maximize request is reported exactly for a live window |
| CompositorAnswers.RemovalAnswers | weston-module/wlvision-shell.c:1023-1061 | a resize that waited for a removed window is refused, exactly when there is one, and the removal is reported last |
| CompositorAnswers.CommitCompletes | weston-module/wlvision-shell.c:1063-1108 | a commit ends the waiting resize exactly when it has the configured size, and otherwise does nothing |
| ControlClient.Client.OnEvent | internal/control/client.go:205-334 | what every event handler does to the cache, the removed set, the collectors and the resize progress, and which answer it goes on to finish |
| ControlClient.Client.Finish | internal/control/client.go:336-349 | takes the call out of the pending map exactly when it is there, and drops a resize's progress |
| ControlClient.Client.Begin | internal/control/client.go:379-415 | a call gets the next identifier and its collector; after a failure only an authorization is still registered |
| ControlClient.Client.GiveUp | internal/control/client.go:411-415 | the call is forgotten and nothing else changes |
| ControlClient.Client.ResizeTimeout | internal/control/client.go:501-524 | the report holds the sizes observed for its own request or unknown ones, and the size its window is cached with; that request's progress is forgotten, every other stays |
| ControlClient.Client.FailEverything | internal/control/client.go:364-377 | the client is closed, and every pending call is taken and sent exactly one answer, which says disconnected |
| ControlClient.Client.MergeSnapshot | internal/control/client.go:657-667 | merging takes the newer of two windows and none that was removed |
| ControlClient.MergedTakesNewer | internal/control/client.go:657-667 | every window of the listing that was not removed is there at its revision or later, removed ones stay as they were, and nothing cached is lost |
| ControlClient.UpsertAt | internal/control/client.go:670-678 | replacing in place at the first match, or appending, is the upsert |
| ControlClient.WithoutAt | internal/control/client.go:680-688 | cutting out the first match is the removal |
| ControlLog.CollectorHearsSnapshot | internal/control/client.go:206-240 | a collector that hears a whole snapshot holds its listing and nothing else |
| ControlLog.AddedKeepsStream | weston-module/wlvision-shell.c:991-1021 | a new window keeps every claim about the stream at every point of it |
| ControlLog.RemovedKeepsStream | weston-module/wlvision-shell.c:1041-1055 | so does a removal, whose event carries no revision and comes before the bump |
| ControlLog.RequestKeepsStream | weston-module/wlvision-shell.c:554-806 | so does every request handler, and the first snapshot makes the description complete |
| ControlAnswers.StepKeepsAnswers | weston-module/wlvision-shell.c:636-693 | every step keeps the link between requests, pending resizes and the events that answer them |
| ControlInvariant.StepKeepsInv | internal/control/client.go:205-415 | every step of module, client, callers and connection keeps the whole invariant |
| ControlTheorems.AcceptedMeansUnchanged | weston-module/wlvision-shell.c:546-552 | whatever windows a caller was shown with a revision, those are the live windows before and after a request stamped with it that is answered without a refusal |
| ControlTheorems.ShownWindowIsFound | weston-module/wlvision-shell.c:575-602 | a request for a shown window is never refused as unknown |
| ControlTheorems.HeldRevisionIsExact | weston-module/wlvision-shell.c:546-552 | the cached handle set at the send equals the live handle set when the module answers without a refusal, over every interleaving |
| ControlTheorems.SnapshotSyncs | internal/control/client.go:256-266 | a client that has handled the answer to a snapshot is past the point from which the stream is complete |
| ControlTheorems.BeforeFirstSnapshot | internal/control/client.go:256-266 | from every start with a window, some run leads to a request the module answers without a refusal although its caller holds other windows, before any snapshot |
| ControlTheorems.OnlyEmptyStartsAgree | internal/control/client.go:256-266 | no run of a start ever does so exactly when there was no window when the client connected |
| ControlTheorems.InFlightCompletesCache | internal/control/client.go:206-254 | applying the events in flight to the cache gives exactly the live windows |
| ControlTheorems.CacheIsCoherent | internal/control/client.go:219-254 | cache and removed set are disjoint, no cached window is newer than the cache, no handle is issued twice, the client never runs ahead of the module |
| ControlTheorems.ClientRevisionNeverFalls | internal/control/client.go:206-266 | the client's revision never goes back over any run |
| ControlTheorems.SnapshotIsExact | internal/control/client.go:417-436 | a completed snapshot holds exactly the windows live when the module handled it, however many are pending |
| ControlTheorems.MergeChangesNothing | internal/control/client.go:657-667 | merging a completed snapshot changes nothing in any reachable state |
| ControlTheorems.OutstandingResizes | weston-module/wlvision-shell.c:636-693 | at most one resize waits per window, for a live window, with the size its caller sent |
| ControlTheorems.LaterResizeSupersedes | weston-module/wlvision-shell.c:664-693 | an accepted resize supersedes exactly the one that waited for its window |
| ControlTheorems.SettledAtMostOnce | weston-module/wlvision-shell.c:636-693 | no request has two terminal answers, and a superseded resize has none |
| ControlTheorems.SuccessfulResize | internal/control/client.go:471-499 | a successful resize was configured with and committed what it asked for, at a revision above the one it was sent with |
| ControlTheorems.TimeoutReportsOwnSizes | internal/control/client.go:501-524 | a timed-out resize reports only sizes observed for its own request |
| ControlTheorems.SendNeverBlocks | internal/control/client.go:336-374 | no outcome is sent while another sits in the same one-slot reply channel |
| ControlTheorems.AtMostOneOutcome | internal/control/client.go:379-415 | every call gets at most one outcome, and none while it is pending, although an authorization is answered twice |
| ControlOutcomes.ErrorIsTheModules | internal/control/client.go:268-273 | the error a caller gets is the one the module answered its request with |
| ControlOutcomes.ReplyIsTheModules | internal/control/client.go:256-334 | a completed call carries the module's revision and, for a resize, the sizes of its own answer |
| ControlOutcomes.NoAnswerIsLost | internal/control/client.go:256-349 | no call goes on waiting once the client has handled what ends it |
| ControlOutcomes.WaitingResizeIsRecorded | internal/control/client.go:274-317 | while a resize waits, exactly what was seen of it is on record |
| ControlOutcomes.CacheHoldsLastWord | internal/control/client.go:219-254 | a window is cached exactly as the last event about it reported it |
| WaitStable.ProbeInterval | internal/capture/vision.go:148-159 | half of the asked duration, rounded down, wherever floor and cap permit, and otherwise the one of them it passed |
| WaitStable.WaitStable | internal/capture/stability.go:96-201 | what each result means: stable at the first probe to end a long enough run, with the maximal run's length; a timeout only if no probe did, with the length of the run at hand or none; cancelled in a wait or in a capture; at most the rounded-up number of captures |
| WaitStable.VerdictInFull | internal/capture/stability.go:60-201 | every result in terms of the captures alone: which pictures were equal, which captures were in flight at a deadline, and how many were made |
| WaitStable.FirstStableIsTheVerdict | internal/capture/stability.go:187-193 | and a first stable probe leaves no other result |
| WaitStable.MaximalDecides | internal/capture/stability.go:120-131 | stability can be judged on the maximal run alone |
| WaitStable.FitsMeansCeiling | internal/capture/stability.go:138-147 | the number of captures with a deadline before the timeout is the quotient, rounded up |
| Burst.Settings | internal/capture/burst.go:200-238 | refuses exactly the plans outside the bounds; otherwise keeps what was asked for explicitly, fills in the rest, and the result can be delivered |
| Burst.FrameCount | internal/capture/burst.go:258-264 | the loop counts to the smaller of the cap and the duration divided by the interval, rounded up |
| Burst.CaptureSample | internal/capture/burst.go:315-394 | which answers make a sample captured, deduplicated, failed or overflowing, what it reports and what it stores |
| Burst.FrameNamesDistinct | internal/capture/burst.go:374 | no two samples share a stored name |
| Burst.Series | internal/capture/burst.go:125-170 | cadence, content and stored bytes hold after any series, and where it stops and why |
| Burst.Burst | internal/capture/burst.go:88-196 | entries stand on the grid, issued captures never start early nor overlap, an entry is missed exactly when its deadline had passed, length and truncation, bytes within the cap, every duplicate points at the nearest captured entry, and exactly what is stored in which order |
| BurstMeaning.EntryInFull | internal/capture/burst.go:315-394 | every field of every entry, and why it is captured, a repeat or failed; a missed entry says nothing |
| BurstMeaning.MissedInFull | internal/capture/burst.go:160-169 | an entry is missed exactly when its deadline had passed after the last issued one |
| BurstMeaning.FirstIsIssued | internal/capture/burst.go:125-140 | the first entry is never missed |
| BurstMeaning.OneWriteEach | internal/capture/burst.go:372-383 | there are as many stored frames as captured entries |
| BurstMeaning.RepeatInFull | internal/capture/burst.go:357-364 | an entry repeats exactly when its verified picture has the digest of the last stored one, and points there |
| BurstMeaning.EndInFull | internal/capture/burst.go:125-170 | where a report ends: before a picture that does not fit, at the end of the context, or at its full length |
| BurstMeaning.FrameNameInFull | internal/capture/burst.go:374 | a name is the prefix, a dash, the number from one on in at least four digits, and the extension |
| BurstMeaning.StoredInFull | internal/capture/burst.go:372-383 | exactly the captured entries are stored, each under its own name with its own bytes |
| BurstMeaning.ClosingInFull | internal/capture/burst.go:174-195 | the sheet follows the frames, and the manifest of a finished burst comes last |
| Burst.CountersSumToEntries | internal/capture/burst.go:108-123 | the four counters account for every entry |
| Burst.ManifestMarksFinished | internal/capture/burst.go:174-195 | the manifest is stored by a finished burst alone, as the last write, and stored names are distinct |
| ArchiveNames.SearchStrings | internal/inject/receiver.go:478 | the bisection finds the lower bound |
| Text.LessExactly | internal/inject/receiver.go:478 | one name comes before another where they first differ, or where it ends first |
| ArchiveNames.LowerBoundDecides | internal/inject/receiver.go:487-492 | one lower-bound search for the name with a slash decides whether anything lies beneath it |
| ArchiveNames.PathTree.Check | internal/inject/receiver.go:474-496 | accepts a name exactly when it is new, under no recorded file and, for a file, over nothing recorded; records it then and nothing otherwise |
| ArchiveNames.PathTree.Insert | internal/inject/receiver.go:498-503 | the slice stays sorted and free of duplicates and gains exactly the name |
| PayloadReceiver.CleanedIsClean | internal/inject/receiver.go:432-451 | every name that passes is the payload root or a clean relative path |
| PayloadMeaning.LetInExactly | internal/inject/receiver.go:432-451 | a name is let in exactly when it is relative, holds no NUL and has no ".." between slashes or its ends |
| PayloadMeaning.CleanedKeepsElements | internal/inject/receiver.go:446-451 | what comes of it is its elements other than the empty one and ".", in their order, or the root |
| PayloadMeaning.KeptOneMore | internal/inject/receiver.go:446-451 | an element more is kept, in its place, exactly when it is neither empty nor "." |
| PayloadMeaning.OrdinaryStays | internal/inject/receiver.go:446-451 | a name whose elements are all ordinary is returned as it is |
| PayloadReceiver.MaskMode | internal/inject/receiver.go:516-528 | a stored mode keeps read and owner write as asked, execute as asked, never lets group or others write and never carries a special bit |
| PayloadReceiver.Staging.EnsureDirs | internal/inject/receiver.go:407-427 | makes a directory of every prefix and touches nothing else, as long as no file stands on the way |
| PayloadReceiver.FreeMeansConflictless | internal/inject/receiver.go:462-465 | the incremental check agrees with the plain relation between all pairs of entries |
| PayloadReceiver.FreeMeansNoFile | internal/inject/receiver.go:383-427 | what the path tree lets in never opens over an existing path and never meets a file where a directory is made |
| PayloadReceiver.Extract | internal/inject/receiver.go:298-368 | accepts exactly the acceptable archives, then the tree is exactly the declared files, directories and ancestors and the bytes are within the limit; a refusal names what the first entry that spoils the archive has done; no filesystem call is refused on the way |
| PayloadMeaning.AcceptedExactly | internal/inject/receiver.go:298-368 | which archives are acceptable, by the names, kinds, modes and sizes of their entries |
| PayloadMeaning.DeclaredAddsUp | internal/inject/receiver.go:348-349 | the declared bytes and files are those of the regular entries, added up |
| PayloadMeaning.DeclaredNode | internal/inject/receiver.go:381-402 | what is declared stands in the tree as declared, a file with its masked mode |
| PayloadMeaning.TreeInFull | internal/inject/receiver.go:381-427 | the tree holds the declared names and the directories above them and nothing else, and no path in it has an element ".." |
| PayloadReceiver.OrderDoesNotMatter | internal/inject/receiver.go:462-465 | two archives with the same entries in any order are both accepted or both refused, with the same counts, and build one and the same tree |
| CopyTree.Copier.Walk | internal/manifest/build.go:569-627 | copies exactly the unfolding beneath a path or names a fault in it, and forgets no and keeps no ancestor; terminates by unvisited link targets, then subtree |
| CopyTree.Copy | internal/manifest/build.go:564-630 | succeeds exactly on trees whose unfolding is clean, and then the target is that unfolding, path by path |
| CopyMeaning.CopyInFull | internal/manifest/build.go:569-627 | a finished copy, entry by entry: the root, every entry of a copied directory but a real .git directory, a file with its own bytes and the asked mode, a link as what it resolves to, and nothing else |
| CopyMeaning.FaultInFull | internal/manifest/build.go:580-616 | a reported fault stands in the source: a link out of the tree or to nothing, or something that is neither file nor directory |
| CopyMeaning.CycleInFull | internal/manifest/build.go:588-590 | a reported cycle is a link to a place the path has been at before |
| CopyTree.CleanIsPlain | internal/manifest/build.go:588-593 | for such a tree the memory of ancestors makes no difference: the copy is what following the links gives |
| CopyTree.CycleNeverEnds | internal/manifest/build.go:588-590 | a cycle is reported only where following the links would go on for ever |
| CopyTree.GitOnlyThroughLinks | internal/manifest/build.go:605-607 | an entry of the copy named .git is a directory exactly when the source's is a link to one |
| CopyTree.GitOnlyBehindLinks | internal/manifest/build.go:576-607 | a path of the copy stands for something at or beneath a .git directory exactly when the last link followed on it resolves to such a place |
| CopyTree.CopyHoldsGitIff | internal/manifest/build.go:576-607 | a copy holds .git content exactly when some followed link resolves at or beneath a .git directory |
| CopyTree.GitUnderAnotherName | internal/manifest/build.go:560-562 | a tree whose .git content is copied with no link named .git |
| CopyTree.Perm | internal/manifest/build.go:619-625 | a copied file has the asked mode, its own bits where none was asked, and a default where it has none |
| Canonical.Sort | internal/manifest/build.go:443-444 | the packages in order, with their multiplicity |
| Canonical.OrderedUnique | internal/manifest/build.go:443-444 | a multiset of packages has one order |
| Canonical.Encode | internal/manifest/build.go:442-470 | the loops build the lines of the fixed fields, one line per source, and the modules |
| CanonicalMeaning.CanonicalInFull | internal/manifest/build.go:442-470 | the bytes themselves: names, order, separators; only the packages are sorted |
| Canonical.DecodeCanonical | internal/manifest/build.go:442-470 | a decoder undoes the printer, up to the digest pin and the order of packages |
| Canonical.CanonicalInjective | internal/manifest/build.go:442-470 | two manifests have the same bytes exactly when all their fields but the digest pin agree, packages up to their order |
| Typing.Sequence | internal/input/keymap.go:182-207 | resolves the whole text or names the first character that cannot be typed, by the number of UTF-8 bytes before it |
| Typing.Utf8RoundTrip | internal/input/keymap.go:189-197 | those bytes stand for the character: they can be decoded again |
| Typing.KeysAreSendable | internal/input/keymap.go:138-149 | with a valid artifact every key that is sent lies in the evdev range |
| Typing.SeatTypesText | internal/input/service.go:390-422 | between characters nothing is held, and the seat has typed exactly the characters so far, shifted as the artifact says |
| Typing.TypedAsWantedIff | internal/input/service.go:390-422 | that holds exactly for texts without a character typed by the shift key itself |
| Typing.Session.Type | internal/input/service.go:373-424 | an untypable text sends nothing; a finished one exactly its keys, every call answered; a failed one stops at the first call that was not answered and then releases exactly what may be down, so that every press is followed by a release of its key |
| Typing.Session.ReleaseKeys | internal/input/service.go:521-538 | shift first, then the keys in reverse order, whatever becomes of each call |
| Typing.CleanupInFull | internal/input/service.go:521-538 | release by release: shift first if it is down, then the keys, the last pressed first |
| Typing.Session.Tap | internal/input/service.go:349-363 | the release is sent whatever became of the press |
| Typing.OnlyLostReleasesHold | internal/input/service.go:521-538 | a key is left held only where a release of it was lost |
| CaptureSource.Source.Enter | internal/capture/screenshot.go:215-225 | closed and in-flight sources refuse, otherwise the source is taken |
| CaptureSource.Source.Offer | internal/capture/screenshot.go:145-175 | a full channel keeps what it has |
| CaptureSource.AnswerStep | internal/capture/screenshot.go:145-175 | an answer is dropped only by a retired source |
| CaptureSource.StepKeepsInv | internal/capture/screenshot.go:209-276 | every step of callers and compositor keeps the invariant |
| CaptureSource.ResultsAnswerTheirOwnRequest | internal/capture/screenshot.go:248-276 | in every run a returned result answers its own request |
| CaptureSource.CapturedMeansComplete | internal/capture/screenshot.go:248-260 | a frame is returned only where the compositor announced that very request complete, and its absence only where it did not |
| CaptureSource.ClosedAdmitsNobody | internal/capture/screenshot.go:215-219 | a closed source stays closed and admits nobody any more |
| CaptureSource.NobodyEntersBeforeSetup | internal/capture/screenshot.go:181-201 | nobody captures before a size and a format were announced |
| CaptureSource.FreeSourceIsQuiet | internal/capture/screenshot.go:242-258 | a source that is neither retired nor waiting is owed nothing and has empty channels |
| CaptureSource.NothingFollowsAnAbandonedRequest | internal/capture/screenshot.go:22-26 | an abandoned request is the last the source ever makes |
| CaptureSource.RequestsAreMadeOnAQuietSource | internal/capture/screenshot.go:57-61 | requests are made one at a time, with nothing outstanding |
| SessionHistory.ReconcileIsIdempotent | internal/session/model.go:196-240 | reconciling twice is reconciling once, changes at most the state, only to failed and only along the table |
| SessionHistory.ReconcileIsJudged | internal/session/model.go:196-240 | a session in use falls to failed exactly when its container does not run or it was still being created, and which anomaly is reported when, said of the containers alone |
| SessionHistory.LawfulMeans | internal/session/model.go:41-48 | a session runs only from ready, is ready only when created or after a run, and a closed one is only ever created anew |
| SessionHistory.SaveKeepsConsistent | internal/session/model.go:41-48 | a lawful save keeps every session's saved states lawful |
| SessionHistory.World.Create | internal/session/service.go:180-248 | what a finished, refused, failed or cut-off creation leaves in store and engine; a container goes adrift exactly when the engine issued it and the creation did not finish, and then its record is without it |
| SessionHistory.WaitReady | internal/session/service.go:292-340 | the wait ends ready exactly when the session reports itself ready before an exit, a lasting error, the deadline or the caller ends it; a transient error does not |
| SessionHistory.World.Start | internal/session/service.go:252-287 | ready exactly when nothing failed and the session came up, recorded as failed or untouched when not; refused exactly when the session was not just created |
| SessionHistory.World.Run | internal/session/service.go:366-446 | refused exactly when there is no command, a session that is not ready or an invalid name; the record after the application's exit, and after a run that was cut short; no other session is touched |
| SessionHistory.World.List | internal/session/service.go:451-476 | every record, in the order of their names, falls to failed exactly when its container does not sustain it, and exactly the anomalies the containers show are listed |
| SessionHistory.World.Inspect | internal/session/service.go:479-502 | one record falls to failed exactly when its container does not sustain it, is written back only then, and the anomaly is the one its container shows |
| SessionHistory.World.Inject | internal/session/service.go:533-603 | adds the payload to an interactive session's record and nothing else |
| SessionHistory.World.Close | internal/session/service.go:608-656 | from any state it ends closed unless the engine or the store fails, with the container gone; it removes no other container |
| SessionHistory.World.Purge | internal/session/service.go:660-678 | closes exactly the sessions that have a deadline, are past it and are not closed, in the order of their names, and touches no other |
| SessionHistory.HomeUnlessAdrift | internal/session/service.go:221-246 | a container belongs to a record that is not closed exactly when its creation was not cut off before the second save |
| SessionHistory.CrashCanOrphan | internal/session/model.go:97-99 | two states that keep every invariant, before and after a close, each with a container that no record carries |
| SessionHistory.World.Vanish | internal/session/service.go:708-720 | containers that vanish between operations break nothing |
| PixelDecode.FormatCodesCorrespond | internal/capture/format.go:38-70 | announced and decodable formats correspond one to one |
| PixelDecode.Decode | internal/capture/format.go:81-124 | succeeds exactly on decodable buffers and packs the picture without padding; panics exactly on sizes that overflow and that the wrapped check lets pass |
| PixelDecode.AdmittedIsDecodable | internal/capture/format.go:81-98 | the checks in machine integers let pass exactly the decodable buffers and some whose size overflows |
| PixelDecode.OverflowIsAdmitted | internal/capture/format.go:95-97 | a buffer that passes the check and cannot be decoded |
| PixelDecode.ProtocolSizesFit | internal/capture/format.go:90-97 | sizes of at most 31 bits never overflow |
| PixelDecode.RowPixel | internal/capture/format.go:103-120 | each packed pixel is the swizzled source pixel |
| PixelDecode.PixelInFull | internal/capture/format.go:100-120 | byte by byte, where each channel of each pixel comes from |
| PixelDecode.DecodingIsStrideIndependent | internal/capture/format.go:72-80 | two buffers decode to the same image exactly when they show the same picture, whatever their formats, strides and padding |
| PixelDecode.Feed | internal/capture/format.go:131-149 | the hash is fed the dimensions and the rows, never what lies between rows |
| PixelDecode.FedInFull | internal/capture/format.go:131-149 | the dimensions are fed as two 32-bit words, most significant byte first |
| PixelDecode.SameFeedMeansSamePicture | internal/capture/format.go:126-130 | the hash is fed the same exactly for buffers of the same size that show the same picture |

## Left out

Assumptions of the control model:

- One controller lifetime: binding, rebinding and the peer credentials of `weston-module/wlvision-shell.c:853-945` are not part of this model, and the counters for handles and requests are unbounded.
- No wrap of the 64-bit revision; `Protocol.RevisionRoundTrip` is about the words alone.
- A window is named by its handle; what libweston reports about it (title, geometry, focus, mapping) is a parameter of each step and takes no part in agreement.
- Frame events and the frame sequence numbers of captures: the agent takes whatever is oldest in a bounded buffer.
- A snapshot call's own result combines the cache at its merge with the revision of its answer; the claim about acceptance is about both as the caller sees them.

Simplifications elsewhere:

- The clock's waits: waitUntil is represented by its exit condition, and durations are unbounded integers. The
  wall-clock deadline of the readiness wait is a flag of each of its turns.
- Memory: an allocation fails only where its size overflows a machine integer.
- The other waits of `internal/capture/stability.go` share the loop's shape without its run and add only easier members.
- The contact sheet's drawing and the choice of the picture each of its cells shows.
- PNG, hashing, JSON and TOML: functions given from outside; strconv.Quote is any quoting that can be undone and whose output has no newline and no unit separator.
- The bytes of an archive beyond its entries: the stream limit, padding and trailing bytes of `internal/inject/receiver.go:288-376`, and I/O errors other than a truncated body.
- The binary payload path of `internal/inject/receiver.go:233-270`.
- I/O errors, cancellation and the temporary files of a copy: CopyTree is about what is copied from a tree that stands still.
- Click, pointer and scroll: they share the press and release rule of Tap and otherwise check arguments.
- Text that is not valid UTF-8, and keys held by others on the same seat.
- A capture request that fails to be sent is taken not to have been sent; the compositor answers each request at most once and announces only usable sizes and formats.
- Sessions run one operation at a time: Run writes back a record it loaded before the application ran, so interleaved operations do not keep these invariants.
- A failed engine Create is taken to leave no container, a failed save to leave the old record, and a record that cannot be loaded to be absent.
- The engine adapters, the supervisor, the RPC sockets, the command line, exports and result envelopes: plumbing around external programs.
