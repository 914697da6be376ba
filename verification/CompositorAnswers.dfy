/** What the module's callbacks and handlers mean to a caller, said of the lists and the events alone. */
module CompositorAnswers {
  import opened Protocol
  import opened CompositorShell

  /**
   A request that names a window is refused exactly when its revision is not the module's, its window is not live, its
   size cannot be granted or memory is short; the code names the first of these in the handler's order. A refusal
   changes nothing but the resize that waited for the window, and that only when memory was short.
   */
  lemma RefusedExactly(s: ShellState, request: Request, look: Handle -> Info, outOfMemory: bool, identityKnown: bool)
    requires OneResizePerWindow(s)
    requires request.Activate? || request.Move? || request.Resize? || request.CloseWindow?
    ensures var events := HandleRequest(s, request, look, outOfMemory, identityKnown).events;
      (forall i :: 0 <= i < |events| ==> !events[i].RequestFailed?) <==>
        && request.revision == s.revision && (exists w :: w in s.windows && w.handle == request.handle)
        && (request.Resize? ==>
             && 0 < request.size.width <= 0x7fff_ffff && 0 < request.size.height <= 0x7fff_ffff && !outOfMemory)
    ensures var effect := HandleRequest(s, request, look, outOfMemory, identityKnown);
      var (after, events) := (effect.shell, effect.events);
      (exists i :: 0 <= i < |events| && events[i].RequestFailed?) ==>
        && events == [RequestFailed(request.id,
             if request.revision != s.revision then StaleRevision
             else if request.Resize?
               && !(0 < request.size.width <= 0x7fff_ffff && 0 < request.size.height <= 0x7fff_ffff)
             then InvalidArgument
             else if !exists w :: w in s.windows && w.handle == request.handle then WindowNotFound
             else CaptureUnavailable)]
        && after.windows == s.windows && after.nextIndex == s.nextIndex && after.revision == s.revision
        && (events[0].code != CaptureUnavailable ==> after.requests == s.requests)
    ensures var effect := HandleRequest(s, request, look, outOfMemory, identityKnown);
      RequestFailed(request.id, CaptureUnavailable) in effect.events ==>
        forall p :: p in effect.shell.requests <==> p in s.requests && p.handle != request.handle
  {
    var events := HandleRequest(s, request, look, outOfMemory, identityKnown).events;
    assert request.handle in Live(s.windows) <==> exists w :: w in s.windows && w.handle == request.handle;
    if request.Resize? {
      DropRequestKeeps(s.requests, request.handle);
    }
    if request.revision != s.revision || request.handle !in Live(s.windows)
       || (request.Resize? && (!UsableSize(request.size) || outOfMemory)) {
      assert events[0].RequestFailed?;
    } else {
      assert forall i :: 0 <= i < |events| ==> !events[i].RequestFailed?;
    }
  }

  /**
   What an accepted request is answered with and does: activate and move raise the revision and report the window
   before they are done, a resize waits in place of any earlier one of its window, a close is only passed on.
   */
  lemma AcceptedDoes(s: ShellState, request: Request, look: Handle -> Info, outOfMemory: bool, identityKnown: bool)
    requires OneResizePerWindow(s)
    requires request.Activate? || request.Move? || request.Resize? || request.CloseWindow?
    requires var events := HandleRequest(s, request, look, outOfMemory, identityKnown).events;
      forall i :: 0 <= i < |events| ==> !events[i].RequestFailed?
    ensures var effect := HandleRequest(s, request, look, outOfMemory, identityKnown);
      var (after, events) := (effect.shell, effect.events);
      && after.windows == s.windows && after.nextIndex == s.nextIndex
      && after.revision == (if request.Activate? || request.Move? then s.revision + 1 else s.revision)
      && (request.Activate? || request.Move? ==>
           && after.requests == s.requests
           && events == [ToplevelChanged(Toplevel(request.handle, look(request.handle), after.revision)),
                         RequestDone(request.id, after.revision)])
      && (request.CloseWindow? ==> after.requests == s.requests && events == [RequestDone(request.id, s.revision)])
      && (request.Resize? ==>
           && events == [ResizeConfigured(request.id, request.size)]
           && forall p :: p in after.requests <==>
                || p == Pending(request.id, request.handle, request.size)
                || (p in s.requests && p.handle != request.handle))
  {
    RefusedExactly(s, request, look, outOfMemory, identityKnown);
    if request.Resize? {
      DropRequestKeeps(s.requests, request.handle);
      var rest := DropRequest(s.requests, request.handle);
      assert HandleResize(s, request.id, request.handle, request.revision, request.size, outOfMemory).shell.requests
          == rest + [Pending(request.id, request.handle, request.size)];
    }
  }

  /** The requests that name no window change nothing; each is answered once, and refused only for its own reason. */
  lemma OthersAnswered(s: ShellState, request: Request, look: Handle -> Info, outOfMemory: bool, identityKnown: bool)
    requires !request.Activate? && !request.Move? && !request.Resize? && !request.CloseWindow?
    ensures var effect := HandleRequest(s, request, look, outOfMemory, identityKnown);
      var events := effect.events;
      var refused := ((request.Key? || request.PointerButton?) && request.state > 1)
                     || (request.AuthorizeCapture? && !identityKnown);
      && effect.shell == s && events != []
      && events[|events| - 1] == (
           if !refused then RequestDone(request.id, s.revision)
           else RequestFailed(request.id, if request.AuthorizeCapture? then NotAuthorized else InvalidArgument))
      && (request.Snapshot? ==>
           && |events| == |s.windows| + 2 && events[0] == SnapshotBegun(s.revision)
           && forall i :: 0 <= i < |s.windows| ==>
                var h := s.windows[i].handle; events[i + 1] == ToplevelChanged(Toplevel(h, look(h), s.revision)))
      && (request.AuthorizeCapture? && identityKnown ==> |events| == 2 && events[0] == CaptureAuthorized(request.id))
      && (!request.Snapshot? && !(request.AuthorizeCapture? && identityKnown) ==> |events| == 1)
  {
  }

  lemma {:induction false} RequestForOnly(requests: seq<Pending>, p: Pending)
    requires forall i, j :: 0 <= i < j < |requests| ==> requests[i].handle != requests[j].handle
    requires p in requests
    ensures RequestFor(requests, p.handle) == Some(p)
  {
    if requests[0] != p {
      assert p in requests[1..];
      RequestForOnly(requests[1..], p);
    }
  }

  /** A new window is listed last, reported as it looks, at a raised revision and under a handle never used before. */
  lemma AdditionReports(s: ShellState, look: Handle -> Info)
    requires Valid(s)
    ensures var effect := SurfaceAdded(s, look);
      && |effect.shell.windows| == |s.windows| + 1 && s.windows <= effect.shell.windows
      && var h := effect.shell.windows[|s.windows|].handle;
         && (forall w :: w in s.windows ==> w.handle != h) && h == HandleName(effect.shell.nextIndex)
         && effect.shell.nextIndex == s.nextIndex + 1 && effect.shell.revision == s.revision + 1
         && effect.shell.requests == s.requests
         && effect.events == [ToplevelChanged(Toplevel(h, look(h), s.revision + 1))]
  {
    AddedKeepsValid(s, look);
    forall w | w in s.windows ensures w.handle != HandleName(s.nextIndex + 1) {
      assert w.handle in Live(s.windows);
    }
  }

  /** A fullscreen or maximize request is reported exactly for a window that is live, and grants nothing. */
  lemma RestateReports(s: ShellState, handle: Handle, look: Handle -> Info)
    ensures var effect := SurfaceRestated(s, handle, look);
      if exists w :: w in s.windows && w.handle == handle then
        && effect.shell == s.(revision := s.revision + 1)
        && effect.events == [ToplevelChanged(Toplevel(handle, look(handle), s.revision + 1))]
      else effect.shell == s && effect.events == []
  {
    assert handle in Live(s.windows) <==> exists w :: w in s.windows && w.handle == handle;
  }

  /** A window that goes is reported gone, last, and a resize that waited for it is refused first. */
  lemma RemovalAnswers(s: ShellState, handle: Handle)
    requires Valid(s) && exists w :: w in s.windows && w.handle == handle
    ensures var effect := SurfaceRemoved(s, handle);
      var events := effect.events;
      && effect.shell.revision == s.revision + 1
      && events != [] && events[|events| - 1] == ToplevelRemoved(handle)
      && (forall p :: p in s.requests && p.handle == handle ==> events[0] == RequestFailed(p.id, WindowNotFound))
      && |events| == (if exists p :: p in s.requests && p.handle == handle then 2 else 1)
  {
    if p :| p in s.requests && p.handle == handle {
      RequestForOnly(s.requests, p);
    }
  }

  /**
   A commit completes the resize that waits for its window exactly when it has the size the application was configured
   with: then the window is reported at a raised revision and the resize done at that revision. Any other commit does
   nothing at all.
   */
  lemma CommitCompletes(s: ShellState, handle: Handle, content: Size, look: Handle -> Info)
    requires Valid(s)
    ensures var effect := SurfaceCommitted(s, handle, content, look);
      && (forall p :: p in s.requests && p.handle == handle && p.configured == content ==>
           && effect.shell.revision == s.revision + 1
           && effect.events == [
                ToplevelChanged(Toplevel(handle, look(handle), s.revision + 1)),
                ResizeDone(p.id, content, content, look(handle).size, s.revision + 1)]
           && forall q :: q in effect.shell.requests <==> q in s.requests && q != p)
      && ((forall p :: p in s.requests && p.handle == handle ==> p.configured != content) ==>
           effect.events == [] && effect.shell == s)
  {
    DropRequestKeeps(s.requests, handle);
    forall p | p in s.requests && p.handle == handle ensures RequestFor(s.requests, handle) == Some(p) {
      RequestForOnly(s.requests, p);
    }
  }
}
