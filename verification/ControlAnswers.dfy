/** Every step keeps the link between requests and the events that answer them. */
module ControlAnswers {
  import opened Protocol
  import opened CompositorShell
  import opened ControlClient
  import opened ControlLog
  import opened ControlSystem

  /** The history grows and nothing recorded about a served request changes. */
  ghost predicate Grows(s: System, t: System) {
    && s.log <= t.log
    && s.served <= t.served
    && (forall id :: id in s.sent ==> id in t.sent && t.sent[id] == s.sent[id])
    && (forall id :: id in s.served && id in s.listed ==> id in t.listed && t.listed[id] == s.listed[id])
  }

  lemma OldEventsFit(s: System, t: System)
    requires Grows(s, t)
    requires forall n :: 0 <= n < |s.log| ==> Fits(s, n)
    ensures forall n :: 0 <= n < |s.log| ==> Fits(t, n)
  {
    forall n | 0 <= n < |s.log| ensures Fits(t, n) {
      assert t.log[n] == s.log[n];
      assert Fits(s, n);
    }
  }

  lemma SettledIsServed(s: System, id: nat)
    requires AnswerInv(s) && Settled(s.log, id)
    ensures id in s.served
  {
    var n :| 0 <= n < |s.log| && Settles(s.log[n], id);
    assert Fits(s, n);
  }

  lemma SettledSplit(log: seq<Event>, more: seq<Event>, id: nat)
    ensures Settled(log + more, id) <==> Settled(log, id) || Settled(more, id)
  {
    var all := log + more;
    if Settled(log, id) {
      var n :| 0 <= n < |log| && Settles(log[n], id);
      assert Settles(all[n], id);
    }
    if Settled(more, id) {
      var n :| 0 <= n < |more| && Settles(more[n], id);
      assert Settles(all[|log| + n], id);
    }
    if Settled(all, id) {
      var n :| 0 <= n < |all| && Settles(all[n], id);
      assert if n < |log| then Settles(log[n], id) else Settles(more[n - |log|], id);
    }
  }

  /**
   Events that all belong to one unsettled request, the last of which may settle it, keep every request settled at
   most once.
   */
  lemma AppendAnswers(s: System, t: System, more: seq<Event>, id: nat)
    requires AnswerInv(s) && Grows(s, t) && t.log == s.log + more
    requires WireInv(t) && PendingInv(t)
    requires forall n :: |s.log| <= n < |t.log| ==> Fits(t, n)
    requires AnswersOnly(more, id)
    requires !Settled(s.log, id)
    requires forall sup :: sup in t.superseded ==> !Settled(s.log, sup) && (sup == id ==> !Settled(more, id))
    requires forall p :: p in t.shell.requests ==> !Settled(s.log, p.id) && (p.id == id ==> !Settled(more, id))
    ensures AnswerInv(t)
  {
    OldEventsFit(s, t);
    forall m, n | 0 <= m < n < |t.log| && t.log[m].Terminal() && t.log[n].Terminal()
      ensures t.log[m].id != t.log[n].id
    {
      if n >= |s.log| {
        assert t.log[n] == more[n - |s.log|];
        if m < |s.log| {
          assert Settles(s.log[m], s.log[m].id);
        }
      }
    }
    forall other ensures Settled(t.log, other) ==> Settled(s.log, other) || (other == id && Settled(more, id)) {
      SettledSplit(s.log, more, other);
      if Settled(more, other) {
        var n :| 0 <= n < |more| && Settles(more[n], other);
      }
    }
  }

  /** All of a request's events name it, and only the last may settle it. */
  ghost predicate AnswersOnly(events: seq<Event>, id: nat) {
    && (forall i :: 0 <= i < |events| && events[i].NamesRequest() ==> events[i].id == id)
    && (forall i, j :: 0 <= i < j < |events| ==> !events[i].Terminal() || !events[j].Terminal())
  }

  lemma RemovedKeepsAnswers(s: System, step: Step)
    requires Valid(s.shell) && AnswerInv(s) && step.WindowRemoved?
    ensures AnswerInv(Next(s, step))
  {
    var t := Next(s, step);
    var request := RequestFor(s.shell.requests, step.handle);
    if step.handle !in Live(s.shell.windows) {
      assert t == s;
    } else if request.Some? {
      RefusedRemovalKeepsAnswers(s, t, step.handle, request.value.id);
    } else {
      PlainRemovalKeepsAnswers(s, t, step.handle);
    }
  }

  /** A window goes while a resize of it waits: the resize is refused. */
  lemma RefusedRemovalKeepsAnswers(s: System, t: System, handle: Handle, id: nat)
    requires Valid(s.shell) && AnswerInv(s)
    requires RequestFor(s.shell.requests, handle).Some? && RequestFor(s.shell.requests, handle).value.id == id
    requires t == s.(shell := t.shell, log := s.log + [RequestFailed(id, WindowNotFound), ToplevelRemoved(handle)])
    requires t.shell.requests == DropRequest(s.shell.requests, handle) && t.shell.revision >= s.shell.revision
    ensures AnswerInv(t)
  {
    DropKeepsIds(s.shell.requests, handle);
    DroppedKeepsPending(s, t, handle);
    AppendAnswers(s, t, [RequestFailed(id, WindowNotFound), ToplevelRemoved(handle)], id);
  }

  lemma PlainRemovalKeepsAnswers(s: System, t: System, handle: Handle)
    requires Valid(s.shell) && AnswerInv(s)
    requires t == s.(shell := t.shell, log := s.log + [ToplevelRemoved(handle)])
    requires t.shell.requests == DropRequest(s.shell.requests, handle) && t.shell.revision >= s.shell.revision
    ensures AnswerInv(t)
  {
    DropKeepsIds(s.shell.requests, handle);
    DroppedKeepsPending(s, t, handle);
    var unused := s.client.nextId + 1;
    if Settled(s.log, unused) {
      SettledIsServed(s, unused);
    }
    AppendAnswers(s, t, [ToplevelRemoved(handle)], unused);
  }

  /** Dropping a window's pending resize leaves the others as they were. */
  lemma DroppedKeepsPending(s: System, t: System, handle: Handle)
    requires PendingInv(s) && WireInv(s) && s.log <= t.log && t.shell.revision >= s.shell.revision
    requires t == s.(shell := t.shell, log := t.log) && t.shell.requests == DropRequest(s.shell.requests, handle)
    ensures WireInv(t) && PendingInv(t) && Grows(s, t)
  {
    DropKeepsIds(s.shell.requests, handle);
  }

  lemma {:induction false} DropKeepsIds(requests: seq<Pending>, handle: Handle)
    requires forall i, j :: 0 <= i < j < |requests| ==> requests[i].id != requests[j].id
    ensures var rest := DropRequest(requests, handle);
      && (forall p :: p in rest ==> p in requests)
      && (forall i, j :: 0 <= i < j < |rest| ==> rest[i].id != rest[j].id)
      && (RequestFor(requests, handle).Some? ==> forall p :: p in rest ==>
        p.id != RequestFor(requests, handle).value.id)
  {
    if requests != [] {
      var tail := requests[1..];
      assert requests == [requests[0]] + tail;
      DropKeepsIds(tail, handle);
      assert forall p :: p in tail ==> p.id != requests[0].id;
    }
  }

  lemma CommittedKeepsAnswers(s: System, step: Step)
    requires Valid(s.shell) && AnswerInv(s) && step.WindowCommitted?
    ensures AnswerInv(Next(s, step))
  {
    var t := Next(s, step);
    var request := RequestFor(s.shell.requests, step.handle);
    if step.handle in Live(s.shell.windows) && request.Some? && step.content == request.value.configured {
      DoneKeepsAnswers(s, t, request.value, ModuleEffect(s, step).events[0], step.look(step.handle).size);
    } else {
      assert t == s;
    }
  }

  /** The awaited commit of a resize: the change is reported, then the resize is done. */
  lemma DoneKeepsAnswers(s: System, t: System, request: Pending, changed: Event, visible: Size)
    requires AnswerInv(s) && RequestFor(s.shell.requests, request.handle) == Some(request)
    requires changed.ToplevelChanged? && t.shell.revision == s.shell.revision + 1
    requires t == s.(shell := t.shell,
      log := s.log
        + [changed, ResizeDone(request.id, request.configured, request.configured, visible, t.shell.revision)])
    requires t.shell.requests == DropRequest(s.shell.requests, request.handle)
    ensures AnswerInv(t)
  {
    DropKeepsIds(s.shell.requests, request.handle);
    DroppedKeepsPending(s, t, request.handle);
    AppendAnswers(
      s, t, [changed, ResizeDone(request.id, request.configured, request.configured, visible, t.shell.revision)],
        request.id);
  }

  lemma QuietKeepsAnswers(s: System, step: Step)
    requires Valid(s.shell) && AnswerInv(s) && (step.WindowAdded? || step.WindowRestated?)
    ensures AnswerInv(Next(s, step))
  {
    var t := Next(s, step);
    var unused := s.client.nextId + 1;
    if Settled(s.log, unused) {
      SettledIsServed(s, unused);
    }
    AppendAnswers(s, t, ModuleEffect(s, step).events, unused);
  }

  lemma ServeKeepsAnswers(s: System, step: Step)
    requires Valid(s.shell) && AnswerInv(s) && step.Serve? && s.wire != []
    ensures AnswerInv(Next(s, step))
  {
    var t := ServeNext(s, step);
    var request := s.wire[0];
    if Settled(s.log, request.id) {
      SettledIsServed(s, request.id);
    }
    ServeWire(s, step);
    ServePending(s, step);
    ServeFits(s, step);
    AnswerShape(s.shell, request, step.look, step.outOfMemory, step.identityKnown);
    SupersededUnsettled(s);
    AppendAnswers(s, t, ModuleEffect(s, step).events, request.id);
  }

  lemma ServeWire(s: System, step: Step)
    requires AnswerInv(s) && step.Serve? && s.wire != []
    ensures WireInv(ServeNext(s, step)) && Grows(s, ServeNext(s, step))
  {
    var t := ServeNext(s, step);
    assert forall i :: 0 <= i < |t.wire| ==> t.wire[i] == s.wire[i + 1];
  }

  lemma ServePending(s: System, step: Step)
    requires AnswerInv(s) && step.Serve? && s.wire != []
    ensures PendingInv(ServeNext(s, step))
    ensures forall p :: p in ServeNext(s, step).shell.requests ==> !Settled(s.log, p.id) || p.id == s.wire[0].id
    ensures forall p :: p in ServeNext(s, step).shell.requests && p.id == s.wire[0].id ==>
      ModuleEffect(s, step).events == [ResizeConfigured(p.id, p.configured)]
  {
    var t := ServeNext(s, step);
    var request := s.wire[0];
    assert request.id !in s.served && s.sent[request.id] == request;
    PendingAfter(s.shell, request, step.look, step.outOfMemory, step.identityKnown);
    forall p | p in t.shell.requests && p in s.shell.requests ensures p.id != request.id && p.id !in t.superseded {
      assert p.id in s.served;
    }
  }

  /** A handler either leaves the pending resizes alone, or drops its window's, or replaces its window's by its own. */
  lemma PendingAfter(shell: ShellState, request: Request, look: Handle -> Info, outOfMemory: bool, identityKnown: bool)
    requires forall i, j :: 0 <= i < j < |shell.requests| ==> shell.requests[i].id != shell.requests[j].id
    requires forall p :: p in shell.requests ==> p.id != request.id
    ensures var effect := HandleRequest(shell, request, look, outOfMemory, identityKnown);
      var after := effect.shell.requests;
      && effect.shell.revision >= shell.revision
      && (forall p :: p in after && p !in shell.requests ==>
           && request.Resize? && p == Pending(request.id, request.handle, request.size)
           && request.revision == shell.revision && UsableSize(request.size)
           && effect.events == [ResizeConfigured(p.id, p.configured)])
      && (forall p :: p in after && p in shell.requests ==> p.id !in Superseded(shell, request))
      && (forall i, j :: 0 <= i < j < |after| ==> after[i].id != after[j].id)
  {
    if request.Resize? {
      DropKeepsIds(shell.requests, request.handle);
    } else {
      OnlyResizesWait(shell, request, look, outOfMemory, identityKnown);
    }
  }

  lemma OnlyResizesWait(
      shell: ShellState, request: Request, look: Handle -> Info, outOfMemory: bool, identityKnown: bool)
    requires !request.Resize?
    ensures var after := HandleRequest(shell, request, look, outOfMemory, identityKnown).shell;
      after.requests == shell.requests && after.revision >= shell.revision
  {
  }

  lemma SupersededUnsettled(s: System)
    requires AnswerInv(s) && s.wire != []
    ensures forall id :: id in Superseded(s.shell, s.wire[0]) ==> !Settled(s.log, id) && id in s.served
  {
  }

  /** What a handler emits is about its own request, ends with the answer, and for a resize still to commit has none. */
  lemma AnswerShape(shell: ShellState, request: Request, look: Handle -> Info, outOfMemory: bool, identityKnown: bool)
    ensures var events := HandleRequest(shell, request, look, outOfMemory, identityKnown).events;
      AnswersOnly(events, request.id)
  {
  }

  lemma ServeFits(s: System, step: Step)
    requires AnswerInv(s) && step.Serve? && s.wire != []
    ensures var t := ServeNext(s, step); forall n :: |s.log| <= n < |t.log| ==> Fits(t, n)
  {
    var t := ServeNext(s, step);
    var request := s.wire[0];
    var events := ModuleEffect(s, step).events;
    assert t.sent[request.id] == request && request.id in t.served;
    forall n | |s.log| <= n < |t.log| ensures Fits(t, n) {
      assert t.log[n] == events[n - |s.log|];
      if request.Snapshot? {
        assert t.log[n].NamesRequest() ==> n == |t.log| - 1;
      }
    }
  }

  /** The client's own steps leave the answers alone. */
  lemma ClientKeepsAnswers(s: System, step: Step)
    requires Valid(s.shell) && AnswerInv(s) && Enabled(s, step) && !ModuleStep(step)
    ensures AnswerInv(Next(s, step))
  {
    var t := Next(s, step);
    ClientKeepsWire(s, step);
    OldEventsFit(s, t);
    assert t.log == s.log && t.shell == s.shell && t.superseded == s.superseded;
  }

  lemma ClientKeepsWire(s: System, step: Step)
    requires WireInv(s) && PendingInv(s) && Enabled(s, step) && !ModuleStep(step)
    ensures WireInv(Next(s, step)) && PendingInv(Next(s, step)) && Grows(s, Next(s, step))
  {
    var t := Next(s, step);
    if step.Begin? {
      BeginKeepsWire(s, t, step.request);
    } else if step.Write? {
      WriteKeepsWire(s, t, step.id);
    } else {
      SameWire(s, t);
    }
  }

  lemma SameWire(s: System, t: System)
    requires WireInv(s) && PendingInv(s) && t.shell == s.shell && t.log == s.log
    requires t.sent == s.sent && t.wire == s.wire && t.written == s.written && t.client.nextId == s.client.nextId
    requires t.served == s.served && t.superseded == s.superseded && t.listed == s.listed
    ensures WireInv(t) && PendingInv(t) && Grows(s, t)
  {
  }

  lemma BeginKeepsWire(s: System, t: System, request: Request)
    requires WireInv(s) && PendingInv(s) && request.id == s.client.nextId + 1 && request.id == t.client.nextId
    requires t == s.(client := t.client, sent := s.sent[request.id := request], views := t.views)
    ensures WireInv(t) && PendingInv(t) && Grows(s, t)
  {
  }

  lemma WriteKeepsWire(s: System, t: System, id: nat)
    requires WireInv(s) && PendingInv(s) && id in s.sent && id !in s.written
    requires t == s.(wire := s.wire + [s.sent[id]], written := s.written + {id})
    ensures WireInv(t) && PendingInv(t) && Grows(s, t)
  {
  }

  lemma StepKeepsAnswers(s: System, step: Step)
    requires Valid(s.shell) && AnswerInv(s) && Enabled(s, step)
    ensures AnswerInv(Next(s, step))
  {
    match step
    case WindowAdded(_, _) => QuietKeepsAnswers(s, step);
    case WindowRestated(_, _) => QuietKeepsAnswers(s, step);
    case WindowRemoved(_) => RemovedKeepsAnswers(s, step);
    case WindowCommitted(_, _, _) => CommittedKeepsAnswers(s, step);
    case Serve(_, _, _) => ServeKeepsAnswers(s, step);
    case _ => ClientKeepsAnswers(s, step);
  }
}
