/** What holds over every run of the control system, stated without its invariant. */
module ControlTheorems {
  import opened Protocol
  import opened CompositorShell
  import opened ControlClient
  import opened ControlLog
  import opened ControlSystem
  import opened ControlAnswers
  import opened ControlInvariant
  import opened CompositorAnswers

  ghost predicate Reachable(s: System) {
    exists start, steps :: Init(start) && IsRun(start, steps) && After(start, steps) == s
  }

  lemma ReachableInv(s: System)
    requires Reachable(s)
    ensures Inv(s)
  {
    var start, steps :| Init(start) && IsRun(start, steps) && After(start, steps) == s;
    InitHolds(start);
    RunKeepsInv(start, steps);
  }

  /** The module reads a window request and no refusal is among the events it answers with. */
  ghost predicate Accepts(s: System, step: Step) {
    && step.Serve? && s.wire != [] && s.wire[0].NamesWindow()
    && s.log <= Next(s, step).log
    && forall n :: |s.log| <= n < |Next(s, step).log| ==> !Next(s, step).log[n].RequestFailed?
  }

  /** Such a request carries the module's own revision, and its answer leaves the windows as they are. */
  lemma AcceptedIsCurrent(s: System, step: Step)
    requires Valid(s.shell) && Accepts(s, step)
    ensures s.wire[0].revision == s.shell.revision && Next(s, step).shell.windows == s.shell.windows
  {
    var events := ModuleEffect(s, step).events;
    var log := Next(s, step).log;
    forall i | 0 <= i < |events| ensures !events[i].RequestFailed? {
      assert log[|s.log| + i] == events[i];
    }
    RefusedExactly(s.shell, s.wire[0], step.look, step.outOfMemory, step.identityKnown);
    HandlersKeepValid(s.shell, s.wire[0], step.look, step.outOfMemory, step.identityKnown);
  }

  /**
   Whatever state a caller was shown with the revision it stamps, that state lists exactly the windows live when the
   module answers without a refusal, before and after the answer.
   */
  lemma AcceptedMeansUnchanged(s: System, step: Step, view: View)
    requires Reachable(s) && Accepts(s, step)
    requires view in s.views && view.revision == s.wire[0].revision
    ensures view.handles == Live(s.shell.windows) == Live(Next(s, step).shell.windows)
  {
    ReachableInv(s);
    AcceptedIsCurrent(s, step);
  }

  /** So a window the caller was shown is never refused as unknown: stale is the only way the list can have moved. */
  lemma ShownWindowIsFound(s: System, view: View, look: Handle -> Info, outOfMemory: bool, identityKnown: bool)
    requires Reachable(s) && s.wire != [] && s.wire[0].NamesWindow()
    requires view in s.views && view.revision == s.wire[0].revision && s.wire[0].handle in view.handles
    ensures RequestFailed(s.wire[0].id, WindowNotFound)
      !in HandleRequest(s.shell, s.wire[0], look, outOfMemory, identityKnown).events
  {
    ReachableInv(s);
    RefusedExactly(s.shell, s.wire[0], look, outOfMemory, identityKnown);
    if s.wire[0].revision == s.shell.revision {
      assert s.wire[0].handle in Live(s.shell.windows);
    }
  }

  /** A client that has handled the answer to a snapshot is past the sync point. */
  lemma SnapshotSyncs(s: System, n: nat)
    requires Reachable(s) && n < s.seen <= |s.log|
    requires s.log[n].RequestDone? && s.log[n].id in s.sent && s.sent[s.log[n].id].Snapshot?
    ensures Synced(s)
  {
    ReachableInv(s);
    assert Fits(s, n);
    assert EndsAt(s.log, s.sync, s.log[n].id, s.listed[s.log[n].id].at);
  }

  /** The cached handle set at the send is the live handle set at acceptance, whatever happens in between. */
  lemma HeldRevisionIsExact(s: System, request: Request, steps: seq<Step>, step: Step)
    requires Reachable(s) && Synced(s) && Enabled(s, Begin(request))
    requires request.NamesWindow() && request.revision == s.client.cache.revision
    requires IsRun(Next(s, Begin(request)), steps)
    requires var t := After(Next(s, Begin(request)), steps); Accepts(t, step) && t.wire[0] == request
    ensures Live(After(Next(s, Begin(request)), steps).shell.windows) == s.client.cache.toplevels.Keys
  {
    var sent := Next(s, Begin(request));
    ReachableNext(s, Begin(request));
    HistoryGrows(sent, steps);
    ReachableAfter(sent, steps);
    AcceptedMeansUnchanged(After(sent, steps), step, View(request.revision, s.client.cache.toplevels.Keys));
  }

  lemma ReachableNext(s: System, step: Step)
    requires Reachable(s) && Enabled(s, step)
    ensures Reachable(Next(s, step))
  {
    var start, steps :| Init(start) && IsRun(start, steps) && After(start, steps) == s;
    RunAppend(start, steps, step);
  }

  lemma {:induction false} RunAppend(start: System, steps: seq<Step>, step: Step)
    requires IsRun(start, steps) && Enabled(After(start, steps), step)
    ensures IsRun(start, steps + [step])
    ensures After(start, steps + [step]) == Next(After(start, steps), step)
    decreases |steps|
  {
    var longer := steps + [step];
    if steps == [] {
      assert longer[1..] == [];
    } else {
      RunAppend(Next(start, steps[0]), steps[1..], step);
      assert longer[0] == steps[0] && longer[1..] == steps[1..] + [step];
    }
  }

  lemma {:induction false} ReachableAfter(s: System, steps: seq<Step>)
    requires Reachable(s) && IsRun(s, steps)
    ensures Reachable(After(s, steps))
    decreases |steps|
  {
    if steps != [] {
      ReachableNext(s, steps[0]);
      ReachableAfter(Next(s, steps[0]), steps[1..]);
    }
  }

  /** What was shown, superseded, listed or emitted stays so. */
  ghost predicate Remembers(s: System, t: System) {
    && s.views <= t.views && s.superseded <= t.superseded && s.log <= t.log
    && (forall id :: id in s.listed && id in s.served ==>
      id in t.listed && id in t.served && t.listed[id] == s.listed[id])
    && s.client.cache.revision <= t.client.cache.revision
  }

  lemma StepRemembers(s: System, step: Step)
    requires Inv(s) && Enabled(s, step)
    ensures Remembers(s, Next(s, step))
  {
    if step.Deliver? {
      DeliverIsLater(s);
    } else if ModuleStep(step) {
      ModuleRemembers(s, step);
    } else {
      ClientRemembers(s, step);
    }
  }

  lemma ClientRemembers(s: System, step: Step)
    requires Enabled(s, step) && !step.Deliver? && !ModuleStep(step)
    ensures Remembers(s, Next(s, step))
  {
  }

  lemma ModuleRemembers(s: System, step: Step)
    requires WireInv(s) && Enabled(s, step) && ModuleStep(step)
    ensures Remembers(s, Next(s, step))
  {
    if step.Serve? {
      assert s.wire[0].id !in s.served;
    }
  }

  lemma {:induction false} HistoryGrows(s: System, steps: seq<Step>)
    requires Reachable(s) && IsRun(s, steps)
    ensures Remembers(s, After(s, steps))
    decreases |steps|
  {
    ReachableInv(s);
    if steps != [] {
      StepRemembers(s, steps[0]);
      ReachableNext(s, steps[0]);
      HistoryGrows(Next(s, steps[0]), steps[1..]);
    }
  }

  /**
   The events still in flight turn the client's cache into exactly the module's windows, once a snapshot has been
   answered.
   */
  lemma InFlightCompletesCache(s: System)
    requires Reachable(s) && s.sync.Some?
    ensures s.seen <= |s.log|
    ensures AbsorbAll(s.client.cache, s.log[s.seen..]).toplevels.Keys == Live(s.shell.windows)
  {
    ReachableInv(s);
    AbsorbRest(s.log, s.seen);
  }

  /** Cached and removed handles are disjoint, no handle is ever issued twice, and no window or client runs ahead. */
  lemma CacheIsCoherent(s: System)
    requires Reachable(s)
    ensures s.client.cache.toplevels.Keys !! s.client.cache.removed
    ensures s.client.cache.removed !! Live(s.shell.windows)
    ensures forall h :: h in s.client.cache.toplevels ==>
      s.client.cache.toplevels[h].handle == h && s.client.cache.toplevels[h].revision <= s.client.cache.revision
    ensures s.client.cache.revision <= s.shell.revision
    ensures forall i, j :: 0 <= i < j < |s.issued| ==> s.issued[i] != s.issued[j]
    ensures Live(s.shell.windows) <= set h | h in s.issued
  {
    ReachableInv(s);
    ReplayCoherent(s.shell, s.log, s.seen);
    RemovedSoFar(s.shell, s.log, s.seen);
    assert Within(s.shell, s.log, s.seen);
  }

  lemma {:induction false} RemovedSoFar(shell: ShellState, log: seq<Event>, n: nat)
    requires n <= |log|
    ensures Replay(log[..n]).removed <= Replay(log).removed
    decreases |log| - n
  {
    if n < |log| {
      ReplayStep(log, n);
      RemovedSoFar(shell, log, n + 1);
    } else {
      assert log[..n] == log;
    }
  }

  /** The client's revision never goes back, although two handlers assign it without comparing. */
  lemma ClientRevisionNeverFalls(s: System, steps: seq<Step>)
    requires Reachable(s) && IsRun(s, steps)
    ensures s.client.cache.revision <= After(s, steps).client.cache.revision
  {
    HistoryGrows(s, steps);
  }

  lemma CompletedHoldsListing(s: System, k: nat, id: nat)
    requires Reachable(s) && k < |s.replies| && id in s.listed
    requires s.replies[k].delivery.id == id && s.replies[k].delivery.outcome.Completed?
    ensures id in s.client.collectors && s.client.collectors[id] == s.listed[id].windows
  {
    ReachableInv(s);
    assert HoldsListing(s, s.replies[k].delivery);
  }

  lemma ServingLists(s: System, step: Step, steps: seq<Step>)
    requires Reachable(s) && step.Serve? && Enabled(s, step) && s.wire[0].Snapshot?
    requires IsRun(Next(s, step), steps)
    ensures var t := After(Next(s, step), steps);
      s.wire[0].id in t.listed
        && t.listed[s.wire[0].id].windows == Listing(s.shell.windows, s.shell.revision, step.look)
  {
    ReachableNext(s, step);
    HistoryGrows(Next(s, step), steps);
  }

  /**
   A completed snapshot holds exactly the windows live when the module handled it, however many snapshots are
   pending.
   */
  lemma SnapshotIsExact(s: System, step: Step, steps: seq<Step>, k: nat)
    requires Reachable(s) && step.Serve? && Enabled(s, step) && s.wire[0].Snapshot?
    requires IsRun(Next(s, step), steps)
    requires var t := After(Next(s, step), steps);
      k < |t.replies| && t.replies[k].delivery.id == s.wire[0].id && t.replies[k].delivery.outcome.Completed?
    ensures var t := After(Next(s, step), steps);
      && s.wire[0].id in t.client.collectors
      && t.client.collectors[s.wire[0].id] == Listing(s.shell.windows, s.shell.revision, step.look)
  {
    ServingLists(s, step, steps);
    ReachableNext(s, step);
    ReachableAfter(Next(s, step), steps);
    CompletedHoldsListing(After(Next(s, step), steps), k, s.wire[0].id);
  }

  /** Merging a completed snapshot never revives, ages or adds a window: it changes nothing, in any reachable state. */
  lemma MergeChangesNothing(s: System, k: nat)
    requires Reachable(s) && Enabled(s, Merge(k))
    ensures Next(s, Merge(k)).client == s.client
  {
    ReachableInv(s);
    MergeIsIdle(s, k);
  }

  /** At most one resize waits per window, each for a live window, under the id and for the size its caller sent. */
  lemma OutstandingResizes(s: System)
    requires Reachable(s)
    ensures OneResizePerWindow(s.shell)
    ensures forall p :: p in s.shell.requests ==>
      && p.id in s.sent && s.sent[p.id].Resize?
      && s.sent[p.id].handle == p.handle && s.sent[p.id].size == p.configured
  {
    ReachableInv(s);
  }

  /** A request is settled at most once in the whole stream, and a superseded resize never, however the run goes on. */
  lemma SettledAtMostOnce(s: System, steps: seq<Step>)
    requires Reachable(s) && IsRun(s, steps)
    ensures var log := After(s, steps).log;
      && (forall m, n :: 0 <= m < n < |log| && log[m].Terminal() && log[n].Terminal() ==> log[m].id != log[n].id)
      && (forall id, n :: id in s.superseded && 0 <= n < |log| && log[n].Terminal() ==> log[n].id != id)
  {
    HistoryGrows(s, steps);
    ReachableAfter(s, steps);
    var t := After(s, steps);
    ReachableInv(t);
    forall id, n | id in s.superseded && 0 <= n < |t.log| && t.log[n].Terminal() ensures t.log[n].id != id {
      if t.log[n].id == id {
        assert Settles(t.log[n], id);
        assert Settled(t.log, id);
      }
    }
  }

  lemma SupersedesOwnWindow(shell: ShellState, request: Request, p: Pending)
    requires OneResizePerWindow(shell) && p in shell.requests
    requires forall i, j :: 0 <= i < j < |shell.requests| ==> shell.requests[i].id != shell.requests[j].id
    requires request.Resize? ==>
      request.revision == shell.revision && UsableSize(request.size) && request.handle in Live(shell.windows)
    ensures p.id in Superseded(shell, request) <==> request.Resize? && p.handle == request.handle
  {
    RequestForOnly(shell.requests, p);
  }

  lemma AcceptedIsGranted(s: System, step: Step)
    requires Valid(s.shell) && Accepts(s, step)
    ensures s.wire[0].revision == s.shell.revision
    ensures s.wire[0].Resize? ==> UsableSize(s.wire[0].size) && s.wire[0].handle in Live(s.shell.windows)
  {
    var events := ModuleEffect(s, step).events;
    forall i | 0 <= i < |events| ensures !events[i].RequestFailed? {
      assert Next(s, step).log[|s.log| + i] == events[i];
    }
    RefusedExactly(s.shell, s.wire[0], step.look, step.outOfMemory, step.identityKnown);
  }

  /** An accepted resize supersedes exactly the one that waited for its window. */
  lemma LaterResizeSupersedes(s: System, step: Step, p: Pending)
    requires Reachable(s) && Accepts(s, step) && p in s.shell.requests
    ensures p.id in Next(s, step).superseded <==> s.wire[0].Resize? && p.handle == s.wire[0].handle
  {
    ReachableInv(s);
    AcceptedIsGranted(s, step);
    SupersedesOwnWindow(s.shell, s.wire[0], p);
  }

  /**
   A resize call that succeeds was configured with and committed what it asked for, at a revision above the one it
   was sent with.
   */
  lemma SuccessfulResize(s: System, k: nat)
    requires Reachable(s) && k < |s.replies|
    requires var d := s.replies[k].delivery; d.outcome.Completed? && d.id in s.sent && s.sent[d.id].Resize?
    ensures var d := s.replies[k].delivery; var request := s.sent[d.id];
      && d.outcome.resize.Some?
      && d.outcome.resize.value.configured == request.size
      && d.outcome.resize.value.committed == request.size
      && d.outcome.resize.value.revision > request.revision
  {
    ReachableInv(s);
    assert OutcomeFits(s, s.replies[k].delivery);
  }

  /**
   A timed-out resize reports, besides what it asked for, only sizes observed for its own request: its own size or
   nothing.
   */
  lemma TimeoutReportsOwnSizes(s: System, i: nat)
    requires Reachable(s) && i < |s.timeouts|
    ensures var (id, report) := s.timeouts[i];
      && id in s.sent && s.sent[id].Resize?
      && report.handle == s.sent[id].handle && report.requested == s.sent[id].size
      && report.configured in {UNKNOWN_SIZE, report.requested}
      && report.committed in {UNKNOWN_SIZE, report.requested}
  {
    ReachableInv(s);
  }

  /** The one-slot channel of a call is free whenever somebody is about to send to it. */
  lemma SendNeverBlocks(s: System, k: nat)
    requires Reachable(s) && k < |s.replies| && s.replies[k].stage == InTransit
    ensures forall l :: 0 <= l < |s.replies| && s.replies[l].stage == Buffered ==>
      s.replies[l].delivery.id != s.replies[k].delivery.id
  {
    ReachableInv(s);
  }

  /** Every call is owed at most one outcome over the whole run, and none while it is still pending. */
  lemma AtMostOneOutcome(s: System)
    requires Reachable(s)
    ensures forall k, l :: 0 <= k < l < |s.replies| ==> s.replies[k].delivery.id != s.replies[l].delivery.id
    ensures forall k :: 0 <= k < |s.replies| ==> s.replies[k].delivery.id !in s.client.pending
  {
    ReachableInv(s);
  }

  lemma StartIsReachable(start: System)
    requires Init(start)
    ensures Reachable(start)
  {
    assert IsRun(start, []) && After(start, []) == start;
  }

  /** A caller can be misled: a request stamped with the revision it holds is accepted over windows it does not hold. */
  ghost predicate Misled(s: System) {
    && (exists step :: Accepts(s, step)) && s.wire[0].revision == s.client.cache.revision
    && s.client.cache.toplevels.Keys != Live(s.shell.windows)
  }

  /** From this state on, some run misleads a caller before any snapshot has been answered. */
  ghost predicate MayMislead(s: System) {
    exists steps :: IsRun(s, steps) && Misled(After(s, steps)) && After(s, steps).sync == None
  }

  ghost predicate NeverMisleads(s: System) {
    forall steps :: IsRun(s, steps) ==> !Misled(After(s, steps))
  }

  lemma MisleadingStep(s: System, step: Step)
    requires Enabled(s, step) && MayMislead(Next(s, step))
    ensures MayMislead(s)
  {
    var steps :| IsRun(Next(s, step), steps) && Misled(After(Next(s, step), steps))
      && After(Next(s, step), steps).sync == None;
    var longer := [step] + steps;
    assert longer[0] == step && longer[1..] == steps;
    assert IsRun(s, longer) && After(s, longer) == After(Next(s, step), steps);
  }

  /** A first key press reaches the module. */
  lemma KeyPress(start: System) returns (pressed: System, sent: System)
    requires Init(start)
    ensures Enabled(start, Begin(Key(1, 28, 1))) && pressed == Next(start, Begin(Key(1, 28, 1)))
    ensures Enabled(pressed, Write(1)) && sent == Next(pressed, Write(1))
    ensures sent.shell == start.shell && sent.log == [] && sent.seen == 0 && sent.wire == [Key(1, 28, 1)]
    ensures sent.sync == start.sync && sent.finishing == None && sent.written == {1}
    ensures sent.client == Register(INITIAL, Key(1, 28, 1))
  {
    pressed := Next(start, Begin(Key(1, 28, 1)));
    assert pressed.sent[1] == Key(1, 28, 1);
    sent := Next(pressed, Write(1));
  }

  /** And is answered: the answer brings the client the module's revision, and no window. */
  lemma KeyAnswer(sent: System) returns (answered: System, heard: System)
    requires sent.log == [] && sent.seen == 0 && sent.wire == [Key(1, 28, 1)]
    requires sent.sync == None && sent.finishing == None && sent.written == {1}
    requires sent.client == Register(INITIAL, Key(1, 28, 1))
    ensures Enabled(sent, Serve(Unseen(), false, true)) && answered == Next(sent, Serve(Unseen(), false, true))
    ensures Enabled(answered, Deliver) && heard == Next(answered, Deliver)
    ensures heard.shell == sent.shell && heard.wire == [] && heard.sync == None
    ensures heard.client.cache == Cache(map[], {}, sent.shell.revision)
    ensures heard.client.nextId == 1 && !heard.client.closed && heard.written == {1}
  {
    answered := Next(sent, Serve(Unseen(), false, true));
    assert answered.log == [RequestDone(1, sent.shell.revision)] && answered.wire == [];
    heard := Next(answered, Deliver);
  }

  function Unseen(): Handle -> Info {
    (h: Handle) => Info("", "", 0, 0, UNKNOWN_SIZE, 0)
  }

  /** A caller holds the module's revision and no window, while there are windows; its request is next. */
  ghost predicate Unaware(s: System, request: Request) {
    && s.shell.windows != [] && s.sync == None
    && s.client.cache == Cache(map[], {}, s.shell.revision)
    && request.NamesWindow() && !request.Resize? && request.revision == s.shell.revision
    && request.handle in Live(s.shell.windows)
  }

  lemma ReadMisleads(s: System, request: Request)
    requires Unaware(s, request) && s.wire == [request]
    ensures MayMislead(s)
  {
    var step := Serve(Unseen(), false, true);
    var log := Next(s, step).log;
    assert forall n :: |s.log| <= n < |log| ==> log[n] == ModuleEffect(s, step).events[n - |s.log|];
    assert Accepts(s, step);
    assert IsRun(s, []) && After(s, []) == s;
  }

  lemma WriteMisleads(s: System, request: Request)
    requires Unaware(s, request) && s.wire == []
    requires request.id in s.sent && s.sent[request.id] == request && request.id !in s.written
    ensures MayMislead(s)
  {
    ReadMisleads(Next(s, Write(request.id)), request);
    MisleadingStep(s, Write(request.id));
  }

  lemma RequestMisleads(s: System, request: Request)
    requires Unaware(s, request) && s.wire == []
    requires request.id == s.client.nextId + 1 && !s.client.closed && request.id !in s.written
    ensures MayMislead(s)
  {
    WriteMisleads(Next(s, Begin(request)), request);
    MisleadingStep(s, Begin(request));
  }

  /** Before the first snapshot the claim fails: any answer can bring the revision without bringing the windows. */
  lemma BeforeFirstSnapshot(start: System)
    requires Init(start) && start.shell.windows != []
    ensures MayMislead(start)
  {
    var pressed, sent := KeyPress(start);
    var answered, heard := KeyAnswer(sent);
    assert start.shell.windows[0] in start.shell.windows;
    RequestMisleads(heard, Activate(2, start.shell.windows[0].handle, start.shell.revision));
    MisleadingStep(answered, Deliver);
    MisleadingStep(sent, Serve(Unseen(), false, true));
    MisleadingStep(pressed, Write(1));
    MisleadingStep(start, Begin(Key(1, 28, 1)));
  }

  /**
   A client that connects to an empty session holds the live windows whenever it holds the revision, with or without
   a snapshot.
   */
  lemma EmptyStartAgrees(start: System, steps: seq<Step>)
    requires Init(start) && start.shell.windows == [] && IsRun(start, steps)
    ensures !Misled(After(start, steps))
  {
    var s := After(start, steps);
    StartIsReachable(start);
    ReachableAfter(start, steps);
    ReachableInv(s);
    SyncStays(start, steps);
    assert AgreesAt(s.shell, s.log, s.seen);
    forall step | Accepts(s, step) ensures s.wire[0].revision == s.shell.revision {
      AcceptedIsCurrent(s, step);
    }
  }

  lemma {:induction false} SyncStays(s: System, steps: seq<Step>)
    requires IsRun(s, steps) && s.sync == Some(0)
    ensures After(s, steps).sync == Some(0)
    decreases |steps|
  {
    if steps != [] {
      SyncStays(Next(s, steps[0]), steps[1..]);
    }
  }

  /** No run of a start ever misleads a caller exactly when there was no window when the client connected. */
  lemma OnlyEmptyStartsAgree(start: System)
    requires Init(start)
    ensures NeverMisleads(start) <==> start.shell.windows == []
    ensures MayMislead(start) <==> start.shell.windows != []
  {
    if start.shell.windows == [] {
      forall steps | IsRun(start, steps) ensures !Misled(After(start, steps)) {
        EmptyStartAgrees(start, steps);
      }
    } else {
      BeforeFirstSnapshot(start);
    }
  }
}
