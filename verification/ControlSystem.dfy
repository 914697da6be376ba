/**
 The module and the client as one transition system: two FIFO streams between them, every interleaving of
 window changes, handlers, critical sections, channel sends, caller timeouts and connection failures.
 */
module ControlSystem {
  import opened Protocol
  import opened CompositorShell
  import opened ControlClient
  import opened ControlLog

  /** An outcome after the critical section that took its call: about to be sent, in the reply channel, or read. */
  datatype Stage = InTransit | Buffered | Taken

  datatype Reply = Reply(delivery: Delivery, stage: Stage)

  /** What a snapshot answer listed, and where in the stream its request_done stands. */
  datatype Listed = Listed(windows: seq<Toplevel>, at: nat)

  /** A revision and the window handles the client showed a caller with it. */
  datatype View = View(revision: nat, handles: set<Handle>)

  datatype System = System(
    shell: ShellState,
    log: seq<Event>,               // every event the module emitted; log[seen..] is still in flight
    seen: nat,                     // how many of them the client has handled
    wire: seq<Request>,            // requests written and not yet read by the module
    client: ClientState,
    finishing: Option<Delivery>,   // between a handler's first critical section and its finish
    replies: seq<Reply>,           // every outcome a call was ever owed
    sent: map<nat, Request>,       // every request registered
    written: set<nat>,
    served: set<nat>,
    superseded: set<nat>,          // resizes replaced by a later one of the same window
    listed: map<nat, Listed>,      // what each served snapshot listed
    sync: Option<nat>,             // where the stream is first complete: after a snapshot, or 0 without any window
    issued: seq<Handle>,           // every handle assigned, in order
    views: set<View>,              // every state shown to a caller since the sync point
    timeouts: seq<(nat, Timeout)>) // every resize timeout reported

  datatype Step =
    | WindowAdded(viewCreated: bool, look: Handle -> Info)
    | WindowRemoved(handle: Handle)
    | WindowCommitted(handle: Handle, content: Size, look: Handle -> Info)
    | WindowRestated(handle: Handle, look: Handle -> Info)
    | Serve(look: Handle -> Info, outOfMemory: bool, identityKnown: bool)
    | Begin(request: Request)
    | Write(id: nat)
    | Deliver
    | Finish
    | Transmit(k: nat)
    | Receive(k: nat)
    | GiveUp(id: nat)
    | Report(id: nat)
    | Fail(order: seq<nat>)
    | Merge(k: nat)
    | Read

  ghost predicate Init(s: System) {
    && Valid(s.shell) && s.shell.requests == []
    && s.log == [] && s.seen == 0 && s.wire == []
    && s.client == INITIAL && s.finishing == None && s.replies == []
    && s.sent == map[] && s.written == {} && s.served == {} && s.superseded == {} && s.listed == map[]
    && s.sync == (if s.shell.windows == [] then Some(0) else None) && s.views == {} && s.timeouts == []
    && s.issued == seq(|s.shell.windows|, i requires 0 <= i < |s.shell.windows| => s.shell.windows[i].handle)
  }

  /** A snapshot call whose request_done has been received and merged by its caller. */
  predicate SnapshotTaken(s: System, k: nat) {
    && k < |s.replies| && s.replies[k].stage == Taken
    && s.replies[k].delivery.outcome.Completed?
    && s.replies[k].delivery.id in s.sent && s.sent[s.replies[k].delivery.id].Snapshot?
    && s.replies[k].delivery.id in s.client.collectors
  }

  ghost predicate Enabled(s: System, step: Step) {
    match step
    case WindowAdded(_, _) => true
    case WindowRemoved(_) => true
    case WindowCommitted(_, _, _) => true
    case WindowRestated(_, _) => true
    case Serve(_, _, _) => s.wire != []
    case Begin(request) => request.id == s.client.nextId + 1 && (s.client.closed ==> request.AuthorizeCapture?)
    case Write(id) => id in s.sent && id !in s.written
    case Deliver => s.seen < |s.log| && s.finishing == None
    case Finish => s.finishing.Some?
    case Transmit(k) => k < |s.replies| && s.replies[k].stage == InTransit
    case Receive(k) => k < |s.replies| && s.replies[k].stage == Buffered
    case GiveUp(id) => id in s.sent
    case Report(id) => id in s.sent && s.sent[id].Resize? && id !in s.client.pending
    case Fail(order) => Permutes(order, s.client.pending.Keys)
    case Merge(k) => SnapshotTaken(s, k)
    case Read => true
  }

  /** A map is walked in some order, each key once. */
  ghost predicate Permutes(order: seq<nat>, keys: set<nat>) {
    && (forall id :: id in order <==> id in keys)
    && (forall i, j :: 0 <= i < j < |order| ==> order[i] != order[j])
  }

  function ModuleEffect(s: System, step: Step): Effect
    requires step.Serve? ==> s.wire != []
  {
    match step
    case WindowAdded(true, look) => SurfaceAdded(s.shell, look)
    case WindowAdded(false, _) => SurfaceRefused(s.shell)
    case WindowRemoved(handle) => SurfaceRemoved(s.shell, handle)
    case WindowCommitted(handle, content, look) => SurfaceCommitted(s.shell, handle, content, look)
    case WindowRestated(handle, look) => SurfaceRestated(s.shell, handle, look)
    case Serve(look, outOfMemory, identityKnown) => HandleRequest(s.shell, s.wire[0], look, outOfMemory, identityKnown)
    case _ => Effect(s.shell, [])
  }

  /** The pending resize a request replaces. */
  function Superseded(shell: ShellState, request: Request): set<nat> {
    if request.Resize? && request.revision == shell.revision && UsableSize(request.size)
      && request.handle in Live(shell.windows)
       && RequestFor(shell.requests, request.handle).Some?
    then {RequestFor(shell.requests, request.handle).value.id}
    else {}
  }

  function ServeNext(s: System, step: Step): System
    requires step.Serve? && s.wire != []
  {
    var request := s.wire[0];
    var effect := ModuleEffect(s, step);
    var log := s.log + effect.events;
    s.(shell := effect.shell, log := log, wire := s.wire[1..], served := s.served + {request.id},
       superseded := s.superseded + Superseded(s.shell, request),
       listed := if request.Snapshot?
                 then s.listed[request.id := Listed(Listing(s.shell.windows, s.shell.revision, step.look), |log| - 1)]
                 else s.listed,
       sync := SyncAfter(s.sync, request, log))
  }

  /** The client has handled everything up to the sync point. */
  predicate Synced(s: System) {
    s.sync.Some? && s.sync.value <= s.seen
  }

  function Show(s: System, revision: nat): System {
    if Synced(s) then s.(views := s.views + {View(revision, s.client.cache.toplevels.Keys)}) else s
  }

  function Owe(replies: seq<Reply>, order: seq<nat>): seq<Reply> {
    replies + seq(|order|, i requires 0 <= i < |order| => Reply(Delivery(order[i], Disconnected), InTransit))
  }

  function FinishNext(s: System): System
    requires s.finishing.Some?
  {
    var delivery := s.finishing.value;
    s.(client := Claim(s.client, delivery.id), finishing := None,
       replies := if delivery.id in s.client.pending then s.replies + [Reply(delivery, InTransit)] else s.replies)
  }

  ghost function Next(s: System, step: Step): System
    requires Enabled(s, step)
  {
    match step
    case WindowAdded(viewCreated, look) =>
      var effect := ModuleEffect(s, step);
      s.(shell := effect.shell, log := s.log + effect.events, issued := s.issued + [HandleName(effect.shell.nextIndex)])
    case WindowRemoved(_) =>
      s.(shell := ModuleEffect(s, step).shell, log := s.log + ModuleEffect(s, step).events)
    case WindowCommitted(_, _, _) =>
      s.(shell := ModuleEffect(s, step).shell, log := s.log + ModuleEffect(s, step).events)
    case WindowRestated(_, _) =>
      s.(shell := ModuleEffect(s, step).shell, log := s.log + ModuleEffect(s, step).events)
    case Serve(_, _, _) => ServeNext(s, step)
    case Begin(request) =>
      Show(s.(client := Register(s.client, request), sent := s.sent[request.id := request]), s.client.cache.revision)
    case Write(id) => s.(wire := s.wire + [s.sent[id]], written := s.written + {id})
    case Deliver =>
      s.(client := Observe(s.client, s.log[s.seen]), seen := s.seen + 1, finishing := FinishOf(s.log[s.seen]))
    case Finish => FinishNext(s)
    case Transmit(k) => s.(replies := s.replies[k := s.replies[k].(stage := Buffered)])
    case Receive(k) => s.(replies := s.replies[k := s.replies[k].(stage := Taken)])
    case GiveUp(id) => s.(client := Forget(s.client, id))
    case Report(id) =>
      s.(client := DropProgress(s.client, id),
         timeouts := s.timeouts + [(id, TimeoutOf(s.client, id, s.sent[id].handle, s.sent[id].size))])
    case Fail(order) => s.(client := FailAll(s.client), replies := Owe(s.replies, order))
    case Merge(k) =>
      var delivery := s.replies[k].delivery;
      var merged := Merged(s.client.cache.toplevels, s.client.cache.removed, s.client.collectors[delivery.id]);
      Show(s.(client := s.client.(cache := s.client.cache.(toplevels := merged))), delivery.outcome.revision)
    case Read => Show(s, s.client.cache.revision)
  }

  /** A run is a start and the steps taken from it. */
  ghost predicate IsRun(s: System, steps: seq<Step>)
    decreases |steps|
  {
    steps == [] || (Enabled(s, steps[0]) && IsRun(Next(s, steps[0]), steps[1..]))
  }

  ghost function After(s: System, steps: seq<Step>): System
    requires IsRun(s, steps)
    decreases |steps|
  {
    if steps == [] then s else After(Next(s, steps[0]), steps[1..])
  }

  predicate ModuleStep(step: Step) {
    step.WindowAdded? || step.WindowRemoved? || step.WindowCommitted? || step.WindowRestated? || step.Serve?
  }

  // ---------------------------------------------------------------- requests and their answers

  /** What an event about a request says is true of the request with that id. */
  ghost predicate Fits(s: System, n: nat)
    requires n < |s.log|
  {
    var event := s.log[n];
    event.NamesRequest() ==>
      && event.id in s.served && event.id in s.sent
      && match event
         case RequestDone(id, _) =>
           && !s.sent[id].Resize?
           && (s.sent[id].Snapshot? ==> id in s.listed && s.listed[id].at == n)
         case ResizeConfigured(id, size) =>
           s.sent[id].Resize? && size == s.sent[id].size && UsableSize(size)
         case ResizeDone(id, configured, committed, visible, revision) =>
           && s.sent[id].Resize? && UsableSize(s.sent[id].size)
           && configured == committed == s.sent[id].size
           && revision > s.sent[id].revision
         case CaptureAuthorized(id) => s.sent[id].AuthorizeCapture?
         case _ => !s.sent[event.id].Snapshot?
  }

  ghost predicate WireInv(s: System) {
    && (forall id :: id in s.sent ==> s.sent[id].id == id && 1 <= id <= s.client.nextId)
    && (forall i :: 0 <= i < |s.wire| ==>
         s.wire[i].id in s.written && s.wire[i].id !in s.served && s.wire[i].id in s.sent
           && s.sent[s.wire[i].id] == s.wire[i])
    && (forall i, j :: 0 <= i < j < |s.wire| ==> s.wire[i].id != s.wire[j].id)
    && s.served <= s.written <= s.sent.Keys
    && s.superseded <= s.served
  }

  ghost predicate PendingInv(s: System) {
    && (forall p :: p in s.shell.requests ==>
         && p.id in s.served && p.id in s.sent && p.id !in s.superseded
         && s.sent[p.id].Resize? && s.sent[p.id].handle == p.handle && s.sent[p.id].size == p.configured
         && UsableSize(p.configured) && s.sent[p.id].revision <= s.shell.revision)
    && (forall i, j :: 0 <= i < j < |s.shell.requests| ==> s.shell.requests[i].id != s.shell.requests[j].id)
  }

  ghost predicate Settles(event: Event, id: nat) {
    event.Terminal() && event.id == id
  }

  ghost predicate Settled(log: seq<Event>, id: nat) {
    exists n :: 0 <= n < |log| && Settles(log[n], id)
  }

  /** At most one event settles a request; a request still waiting for its commit, or superseded, has none. */
  ghost predicate SettledOnce(s: System) {
    && (forall m, n :: 0 <= m < n < |s.log| && s.log[m].Terminal() && s.log[n].Terminal() ==>
      s.log[m].id != s.log[n].id)
    && (forall id :: id in s.superseded ==> !Settled(s.log, id))
    && (forall p :: p in s.shell.requests ==> !Settled(s.log, p.id))
  }

  ghost predicate AnswerInv(s: System) {
    && WireInv(s)
    && PendingInv(s)
    && SettledOnce(s)
    && (forall n :: 0 <= n < |s.log| ==> Fits(s, n))
  }
}
