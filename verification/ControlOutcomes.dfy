/** What a caller is told is what the module said: outcomes, observed sizes and cached windows against the stream. */
module ControlOutcomes {
  import opened Protocol
  import opened CompositorShell
  import opened ControlClient
  import opened ControlLog
  import opened ControlSystem
  import opened ControlAnswers
  import opened ControlInvariant
  import opened ControlTheorems

  /** An event that ends the wait for its request. */
  predicate Concludes(event: Event) {
    event.Terminal() || event.CaptureAuthorized?
  }

  /** This event says what the outcome says. */
  predicate Says(event: Event, d: Delivery) {
    match d.outcome
    case Refused(code) => event == RequestFailed(d.id, code)
    case Completed(revision, None) =>
      event == RequestDone(d.id, revision) || (event == CaptureAuthorized(d.id) && revision == 0)
    case Completed(revision, Some(reply)) =>
      && event.ResizeDone? && event.id == d.id && event.revision == revision
      && reply == ResizeReply(
           WireSize(event.configured), WireSize(event.committed), WireSize(event.visible), event.revision)
    case Disconnected => false
  }

  /** The outcome was said by an event the client has handled, or is the connection's end. */
  ghost predicate Said(s: System, d: Delivery)
    requires s.seen <= |s.log|
  {
    if d.outcome.Disconnected? then s.client.closed else exists n: nat :: n < s.seen && Says(s.log[n], d)
  }

  ghost predicate SaidInv(s: System) {
    && s.seen <= |s.log|
    && (forall k :: 0 <= k < |s.replies| ==> Said(s, s.replies[k].delivery))
    && (s.finishing.Some? ==> Said(s, s.finishing.value))
  }

  /** A handled answer has taken its call, unless its handler is still about to. */
  predicate ConcludedAt(s: System, n: nat)
    requires n < s.seen <= |s.log|
  {
    Concludes(s.log[n]) ==>
      s.log[n].id !in s.client.pending
      || (n == s.seen - 1 && s.finishing.Some? && s.finishing.value.id == s.log[n].id)
  }

  ghost predicate ConcludedInv(s: System) {
    s.seen <= |s.log| && forall n: nat :: n < s.seen ==> ConcludedAt(s, n)
  }

  /** The size a pending resize was seen to be configured with is on record. */
  predicate NotedAt(s: System, n: nat)
    requires n < s.seen <= |s.log|
  {
    s.log[n].ResizeConfigured? && s.log[n].id in s.client.pending ==>
      s.log[n].id in s.client.progress && s.client.progress[s.log[n].id].configured == s.log[n].size
  }

  predicate Mentions(event: Event, id: nat) {
    (event.ResizeConfigured? || event.ResizeDone?) && event.id == id
  }

  /** What is on record was seen. */
  ghost predicate Observed(s: System, id: nat)
    requires s.seen <= |s.log|
  {
    exists n: nat :: n < s.seen && Mentions(s.log[n], id)
  }

  ghost predicate NotedInv(s: System) {
    && s.seen <= |s.log|
    && (forall n: nat :: n < s.seen ==> NotedAt(s, n))
    && (forall id :: id in s.client.progress ==> Observed(s, id))
  }

  ghost predicate OutcomeInv(s: System) {
    SaidInv(s) && ConcludedInv(s) && NotedInv(s)
  }

  // ---------------------------------------------------------------- what every step keeps

  /** What was said stays said. */
  lemma StillSaid(s: System, t: System, d: Delivery)
    requires s.seen <= |s.log| && t.seen <= |t.log| && s.log <= t.log && s.seen <= t.seen
    requires (s.client.closed ==> t.client.closed) && Said(s, d)
    ensures Said(t, d)
  {
    if !d.outcome.Disconnected? {
      var n: nat :| n < s.seen && Says(s.log[n], d);
      assert t.log[n] == s.log[n];
    }
  }

  /** A step that leaves calls, records and the handled part of the stream alone. */
  lemma SameCalls(s: System, t: System)
    requires OutcomeInv(s) && s.log <= t.log && t.seen == s.seen && t.finishing == s.finishing
    requires t.client.pending == s.client.pending && t.client.progress == s.client.progress
    requires t.client.closed == s.client.closed && |t.replies| == |s.replies|
    requires forall k :: 0 <= k < |s.replies| ==> t.replies[k].delivery == s.replies[k].delivery
    ensures OutcomeInv(t)
  {
    forall k | 0 <= k < |t.replies| ensures Said(t, t.replies[k].delivery) {
      StillSaid(s, t, s.replies[k].delivery);
    }
    if t.finishing.Some? {
      StillSaid(s, t, t.finishing.value);
    }
    StillNoted(s, t);
    forall n: nat | n < t.seen ensures ConcludedAt(t, n) {
      assert ConcludedAt(s, n);
    }
  }

  /** Fewer calls pending and fewer sizes on record, but none of a pending call: nothing more is asked. */
  lemma StillNoted(s: System, t: System)
    requires NotedInv(s) && s.log <= t.log && t.seen == s.seen
    requires t.client.progress.Keys <= s.client.progress.Keys
    requires forall id :: id in s.client.pending && id in s.client.progress && id in t.client.pending ==>
      id in t.client.progress && t.client.progress[id] == s.client.progress[id]
    requires t.client.pending.Keys <= s.client.pending.Keys
    ensures NotedInv(t)
  {
    forall n: nat | n < t.seen ensures NotedAt(t, n) {
      assert NotedAt(s, n);
    }
    forall id | id in t.client.progress ensures Observed(t, id) {
      assert Observed(s, id);
      var n: nat :| n < s.seen && Mentions(s.log[n], id);
      assert Mentions(t.log[n], id);
    }
  }

  lemma DeliverKeepsSaid(s: System)
    requires SaidInv(s) && Enabled(s, Deliver)
    ensures SaidInv(Next(s, Deliver))
  {
    var t := Next(s, Deliver);
    forall k | 0 <= k < |t.replies| ensures Said(t, t.replies[k].delivery) {
      StillSaid(s, t, s.replies[k].delivery);
    }
    if t.finishing.Some? {
      assert Says(t.log[s.seen], t.finishing.value);
    }
  }

  lemma DeliverKeepsConcluded(s: System)
    requires ConcludedInv(s) && Enabled(s, Deliver)
    ensures ConcludedInv(Next(s, Deliver))
  {
    var t := Next(s, Deliver);
    forall n: nat | n < t.seen ensures ConcludedAt(t, n) {
      assert n < s.seen ==> ConcludedAt(s, n);
    }
  }

  lemma DeliverKeepsNoted(s: System)
    requires NotedInv(s) && Enabled(s, Deliver)
    requires forall n :: 0 <= n < |s.log| ==> Fits(s, n)
    ensures NotedInv(Next(s, Deliver))
  {
    var t := Next(s, Deliver);
    assert Fits(s, s.seen);
    forall n: nat | n < t.seen ensures NotedAt(t, n) {
      assert Fits(s, n);
      assert n < s.seen ==> NotedAt(s, n);
    }
    forall id | id in t.client.progress ensures Observed(t, id) {
      if id in s.client.progress {
        assert Observed(s, id);
        var n: nat :| n < s.seen && Mentions(s.log[n], id);
        assert Mentions(t.log[n], id);
      } else {
        assert Mentions(t.log[s.seen], id);
      }
    }
  }

  lemma FinishKeepsOutcomes(s: System)
    requires OutcomeInv(s) && Enabled(s, Finish)
    ensures OutcomeInv(Next(s, Finish))
  {
    var t := Next(s, Finish);
    forall k | 0 <= k < |t.replies| ensures Said(t, t.replies[k].delivery) {
      StillSaid(s, t, if k < |s.replies| then s.replies[k].delivery else s.finishing.value);
    }
    forall n: nat | n < t.seen ensures ConcludedAt(t, n) {
      assert ConcludedAt(s, n);
    }
    StillNoted(s, t);
  }

  lemma FailKeepsOutcomes(s: System, order: seq<nat>)
    requires OutcomeInv(s) && Enabled(s, Fail(order))
    ensures OutcomeInv(Next(s, Fail(order)))
  {
    var t := Next(s, Fail(order));
    forall k | 0 <= k < |t.replies| ensures Said(t, t.replies[k].delivery) {
      if k < |s.replies| {
        StillSaid(s, t, s.replies[k].delivery);
      }
    }
    if t.finishing.Some? {
      StillSaid(s, t, t.finishing.value);
    }
    forall n: nat | n < t.seen ensures ConcludedAt(t, n) {
      assert ConcludedAt(s, n);
    }
    StillNoted(s, t);
  }

  /** A new call's identifier is in no event yet. */
  lemma BeginKeepsOutcomes(s: System, t: System, request: Request)
    requires OutcomeInv(s) && WireInv(s) && request.id == s.client.nextId + 1
    requires forall n :: 0 <= n < |s.log| ==> Fits(s, n)
    requires t == s.(client := Register(s.client, request), sent := s.sent[request.id := request], views := t.views)
    ensures OutcomeInv(t)
  {
    assert request.id !in s.sent;
    forall k | 0 <= k < |t.replies| ensures Said(t, t.replies[k].delivery) {
      StillSaid(s, t, s.replies[k].delivery);
    }
    if t.finishing.Some? {
      StillSaid(s, t, t.finishing.value);
    }
    forall n: nat | n < t.seen ensures ConcludedAt(t, n) && NotedAt(t, n) {
      assert ConcludedAt(s, n) && NotedAt(s, n) && Fits(s, n);
    }
    forall id | id in t.client.progress ensures Observed(t, id) {
      assert Observed(s, id);
      var n: nat :| n < s.seen && Mentions(s.log[n], id);
      assert Mentions(t.log[n], id);
    }
  }

  /** Giving up drops a call; a report drops the record of a call that is not pending. */
  lemma DropKeepsOutcomes(s: System, step: Step)
    requires OutcomeInv(s) && Enabled(s, step) && (step.GiveUp? || step.Report?)
    ensures OutcomeInv(Next(s, step))
  {
    var t := Next(s, step);
    forall k | 0 <= k < |t.replies| ensures Said(t, t.replies[k].delivery) {
      StillSaid(s, t, s.replies[k].delivery);
    }
    if t.finishing.Some? {
      StillSaid(s, t, t.finishing.value);
    }
    forall n: nat | n < t.seen ensures ConcludedAt(t, n) {
      assert ConcludedAt(s, n);
    }
    StillNoted(s, t);
  }

  lemma ModuleKeepsOutcomes(s: System, step: Step)
    requires OutcomeInv(s) && Enabled(s, step) && ModuleStep(step)
    ensures OutcomeInv(Next(s, step))
  {
    SameCalls(s, Next(s, step));
  }

  lemma QuietKeepsOutcomes(s: System, step: Step)
    requires OutcomeInv(s) && Enabled(s, step)
    requires step.Write? || step.Transmit? || step.Receive? || step.Merge? || step.Read?
    ensures OutcomeInv(Next(s, step))
  {
    SameCalls(s, Next(s, step));
  }

  lemma StepKeepsOutcomes(s: System, step: Step)
    requires AnswerInv(s) && OutcomeInv(s) && Enabled(s, step)
    ensures OutcomeInv(Next(s, step))
  {
    match step
    case Deliver =>
      DeliverKeepsSaid(s);
      DeliverKeepsConcluded(s);
      DeliverKeepsNoted(s);
    case Finish => FinishKeepsOutcomes(s);
    case Fail(order) => FailKeepsOutcomes(s, order);
    case Begin(request) => BeginKeepsOutcomes(s, Next(s, step), request);
    case GiveUp(_) => DropKeepsOutcomes(s, step);
    case Report(_) => DropKeepsOutcomes(s, step);
    case _ =>
      if ModuleStep(step) {
        ModuleKeepsOutcomes(s, step);
      } else {
        QuietKeepsOutcomes(s, step);
      }
  }

  lemma {:induction false} RunKeepsOutcomes(s: System, steps: seq<Step>)
    requires Inv(s) && OutcomeInv(s) && IsRun(s, steps)
    ensures OutcomeInv(After(s, steps))
    decreases |steps|
  {
    if steps != [] {
      StepKeepsOutcomes(s, steps[0]);
      StepKeepsInv(s, steps[0]);
      RunKeepsOutcomes(Next(s, steps[0]), steps[1..]);
    }
  }

  lemma ReachableOutcomes(s: System)
    requires Reachable(s)
    ensures OutcomeInv(s)
  {
    var start, steps :| Init(start) && IsRun(start, steps) && After(start, steps) == s;
    InitHolds(start);
    RunKeepsOutcomes(start, steps);
  }

  // ---------------------------------------------------------------- what callers can rely on

  /** The error a caller gets is the one the module answered its request with. */
  lemma ErrorIsTheModules(s: System, k: nat) returns (n: nat)
    requires Reachable(s) && k < |s.replies| && s.replies[k].delivery.outcome.Refused?
    ensures n < s.seen <= |s.log|
    ensures s.log[n] == RequestFailed(s.replies[k].delivery.id, s.replies[k].delivery.outcome.code)
  {
    ReachableOutcomes(s);
    assert Said(s, s.replies[k].delivery);
    n :| n < s.seen && Says(s.log[n], s.replies[k].delivery);
  }

  /** And so are a completed call's revision and, for a resize, its sizes; a negative size on the wire is unknown. */
  lemma ReplyIsTheModules(s: System, k: nat) returns (n: nat)
    requires Reachable(s) && k < |s.replies| && s.replies[k].delivery.outcome.Completed?
    ensures n < s.seen <= |s.log|
    ensures var d := s.replies[k].delivery; d.outcome.resize.None? ==>
      s.log[n] == RequestDone(d.id, d.outcome.revision)
      || (s.log[n] == CaptureAuthorized(d.id) && d.outcome.revision == 0)
    ensures var d := s.replies[k].delivery; d.outcome.resize.Some? ==>
      var (event, reply) := (s.log[n], d.outcome.resize.value);
      && event.ResizeDone? && event.id == d.id && event.revision == d.outcome.revision == reply.revision
      && reply.configured == (
           if event.configured.width < 0 || event.configured.height < 0 then Size(0, 0) else event.configured)
      && reply.committed == (
           if event.committed.width < 0 || event.committed.height < 0 then Size(0, 0) else event.committed)
      && reply.visible == (
           if event.visible.width < 0 || event.visible.height < 0 then Size(0, 0) else event.visible)
  {
    ReachableOutcomes(s);
    assert Said(s, s.replies[k].delivery);
    n :| n < s.seen && Says(s.log[n], s.replies[k].delivery);
  }

  /** No call goes on waiting once the client has handled what ends it. */
  lemma NoAnswerIsLost(s: System, n: nat)
    requires Reachable(s) && s.finishing.None? && n < s.seen <= |s.log|
    requires var event := s.log[n];
      event.RequestDone? || event.RequestFailed? || event.ResizeDone? || event.CaptureAuthorized?
    ensures s.log[n].id !in s.client.pending
  {
    ReachableOutcomes(s);
    assert ConcludedAt(s, n);
  }

  /** While a resize waits, exactly what was seen of it is on record: a timeout can tell it. */
  lemma WaitingResizeIsRecorded(s: System, id: nat)
    requires Reachable(s) && s.seen <= |s.log|
    ensures forall n :: 0 <= n < s.seen && s.log[n].ResizeConfigured? && s.log[n].id == id && id in s.client.pending ==>
      id in s.client.progress && s.client.progress[id].configured == s.log[n].size
    ensures id in s.client.progress ==>
      exists n :: 0 <= n < s.seen && (s.log[n].ResizeConfigured? || s.log[n].ResizeDone?) && s.log[n].id == id
  {
    ReachableOutcomes(s);
    forall n | 0 <= n < s.seen && s.log[n].ResizeConfigured? && s.log[n].id == id && id in s.client.pending
      ensures id in s.client.progress && s.client.progress[id].configured == s.log[n].size
    {
      assert NotedAt(s, n);
    }
    if id in s.client.progress {
      assert Observed(s, id);
      var n: nat :| n < s.seen && Mentions(s.log[n], id);
    }
  }

  /** The n-th event is the last word about a window. */
  predicate LastWord(log: seq<Event>, n: nat, handle: Handle) {
    && n < |log| && log[n].ToplevelChanged? && log[n].toplevel.handle == handle
    && forall k :: n < k < |log| ==>
         log[k] != ToplevelRemoved(handle) && (log[k].ToplevelChanged? ==> log[k].toplevel.handle != handle)
  }

  lemma {:induction false} ReplayHoldsLastWord(log: seq<Event>, n: nat, handle: Handle)
    requires LastWord(log, n, handle)
    ensures handle in Replay(log).toplevels && Replay(log).toplevels[handle] == log[n].toplevel
  {
    if n < |log| - 1 {
      ReplayHoldsLastWord(log[..|log| - 1], n, handle);
    }
  }

  lemma {:induction false} ReplayHasWord(log: seq<Event>, handle: Handle) returns (n: nat)
    requires handle in Replay(log).toplevels
    ensures LastWord(log, n, handle)
  {
    var last := |log| - 1;
    if log[last].ToplevelChanged? && log[last].toplevel.handle == handle {
      n := last;
    } else {
      n := ReplayHasWord(log[..last], handle);
    }
  }

  /** The client caches a window exactly as the last event about it reported it. */
  lemma CacheHoldsLastWord(s: System, handle: Handle, t: Toplevel)
    requires Reachable(s) && s.seen <= |s.log|
    ensures handle in s.client.cache.toplevels && s.client.cache.toplevels[handle] == t <==>
      exists n: nat :: LastWord(s.log[..s.seen], n, handle) && s.log[n].toplevel == t
  {
    ReachableInv(s);
    var log := s.log[..s.seen];
    if handle in s.client.cache.toplevels {
      var n := ReplayHasWord(log, handle);
      ReplayHoldsLastWord(log, n, handle);
      assert LastWord(log, n, handle) && s.log[n] == log[n];
    }
    forall n: nat | LastWord(log, n, handle)
      ensures handle in s.client.cache.toplevels && s.client.cache.toplevels[handle] == s.log[n].toplevel
    {
      ReplayHoldsLastWord(log, n, handle);
    }
  }
}
