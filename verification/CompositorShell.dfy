/** The Weston shell module: its windows, its revision and its pending resizes. */
module CompositorShell {
  import opened Protocol

  datatype Window = Window(handle: Handle, index: nat)

  /** A resize the application has been configured for and has not committed yet. */
  datatype Pending = Pending(id: nat, handle: Handle, configured: Size)

  datatype ShellState = ShellState(windows: seq<Window>, requests: seq<Pending>, nextIndex: nat, revision: nat)

  /** What one callback or handler does: the next state and the events it emits, in order. */
  datatype Effect = Effect(shell: ShellState, events: seq<Event>)

  function Live(windows: seq<Window>): set<Handle> {
    set w | w in windows :: w.handle
  }

  function RequestFor(requests: seq<Pending>, handle: Handle): (r: Option<Pending>)
    ensures r.Some? ==> r.value in requests && r.value.handle == handle
    ensures r.None? ==> forall p :: p in requests ==> p.handle != handle
  {
    if requests == [] then None
    else if requests[0].handle == handle then Some(requests[0])
    else RequestFor(requests[1..], handle)
  }

  /** The list without its first request for a window. */
  function DropRequest(requests: seq<Pending>, handle: Handle): seq<Pending> {
    if requests == [] then []
    else if requests[0].handle == handle then requests[1..]
    else [requests[0]] + DropRequest(requests[1..], handle)
  }

  function DropWindow(windows: seq<Window>, handle: Handle): seq<Window> {
    if windows == [] then []
    else if windows[0].handle == handle then windows[1..]
    else [windows[0]] + DropWindow(windows[1..], handle)
  }

  function Bump(s: ShellState): ShellState {
    s.(revision := s.revision + 1)
  }

  function Changed(s: ShellState, handle: Handle, look: Handle -> Info): Event {
    ToplevelChanged(Toplevel(handle, look(handle), s.revision))
  }

  function Listing(windows: seq<Window>, revision: nat, look: Handle -> Info): seq<Toplevel> {
    seq(|windows|, i requires 0 <= i < |windows| => Toplevel(windows[i].handle, look(windows[i].handle), revision))
  }

  function Announce(listing: seq<Toplevel>): seq<Event> {
    seq(|listing|, i requires 0 <= i < |listing| => ToplevelChanged(listing[i]))
  }

  function SurfaceAdded(s: ShellState, look: Handle -> Info): Effect {
    var index := s.nextIndex + 1;
    var grown := Bump(s.(windows := s.windows + [Window(HandleName(index), index)], nextIndex := index));
    Effect(grown, [Changed(grown, HandleName(index), look)])
  }

  /** The handle is used up although the view could not be created. */
  function SurfaceRefused(s: ShellState): Effect {
    Effect(s.(nextIndex := s.nextIndex + 1), [])
  }

  function SurfaceRemoved(s: ShellState, handle: Handle): Effect {
    if handle !in Live(s.windows) then Effect(s, [])
    else
      var request := RequestFor(s.requests, handle);
      var refusal := if request.Some? then [RequestFailed(request.value.id, WindowNotFound)] else [];
      Effect(
        Bump(s.(windows := DropWindow(s.windows, handle), requests := DropRequest(s.requests, handle))),
        refusal + [ToplevelRemoved(handle)])
  }

  function SurfaceCommitted(s: ShellState, handle: Handle, content: Size, look: Handle -> Info): Effect {
    var request := RequestFor(s.requests, handle);
    if handle !in Live(s.windows) || request.None? || content != request.value.configured then Effect(s, [])
    else
      var bumped := Bump(s);
      Effect(
        bumped.(requests := DropRequest(s.requests, handle)),
        [Changed(bumped, handle, look),
         ResizeDone(request.value.id, request.value.configured, content, look(handle).size, bumped.revision)])
  }

  /** A fullscreen or maximize request: reported as a change, not granted. */
  function SurfaceRestated(s: ShellState, handle: Handle, look: Handle -> Info): Effect {
    if handle !in Live(s.windows) then Effect(s, [])
    else Effect(Bump(s), [Changed(Bump(s), handle, look)])
  }

  function Refuse(s: ShellState, id: nat, code: ErrorCode): Effect {
    Effect(s, [RequestFailed(id, code)])
  }

  function Answer(s: ShellState, id: nat): Effect {
    Effect(s, [RequestDone(id, s.revision)])
  }

  function HandleSnapshot(s: ShellState, id: nat, look: Handle -> Info): Effect {
    Effect(s, [SnapshotBegun(s.revision)] + Announce(Listing(s.windows, s.revision, look))
      + [RequestDone(id, s.revision)])
  }

  /** Activate and move: a change the module makes itself and reports at once. */
  function HandleChange(s: ShellState, id: nat, handle: Handle, revision: nat, look: Handle -> Info): Effect {
    if revision != s.revision then Refuse(s, id, StaleRevision)
    else if handle !in Live(s.windows) then Refuse(s, id, WindowNotFound)
    else Effect(Bump(s), [Changed(Bump(s), handle, look), RequestDone(id, s.revision + 1)])
  }

  predicate UsableSize(size: Size) {
    0 < size.width <= INT32_MAX && 0 < size.height <= INT32_MAX
  }

  /** A second resize of a window replaces the first, even when its own allocation then fails. */
  function HandleResize(s: ShellState, id: nat, handle: Handle, revision: nat, size: Size, outOfMemory: bool): Effect {
    if revision != s.revision then Refuse(s, id, StaleRevision)
    else if !UsableSize(size) then Refuse(s, id, InvalidArgument)
    else if handle !in Live(s.windows) then Refuse(s, id, WindowNotFound)
    else
      var freed := s.(requests := DropRequest(s.requests, handle));
      if outOfMemory then Refuse(freed, id, CaptureUnavailable)
      else Effect(freed.(requests := freed.requests + [Pending(id, handle, size)]), [ResizeConfigured(id, size)])
  }

  function HandleClose(s: ShellState, id: nat, handle: Handle, revision: nat): Effect {
    if revision != s.revision then Refuse(s, id, StaleRevision)
    else if handle !in Live(s.windows) then Refuse(s, id, WindowNotFound)
    else Answer(s, id)
  }

  function HandleState(s: ShellState, id: nat, state: nat): Effect {
    if state > 1 then Refuse(s, id, InvalidArgument) else Answer(s, id)
  }

  function HandleAuthorize(s: ShellState, id: nat, identityKnown: bool): Effect {
    if !identityKnown then Refuse(s, id, NotAuthorized)
    else Effect(s, [CaptureAuthorized(id), RequestDone(id, s.revision)])
  }

  function HandleRequest(
      s: ShellState, request: Request, look: Handle -> Info, outOfMemory: bool, identityKnown: bool): Effect {
    match request
    case Snapshot(id) => HandleSnapshot(s, id, look)
    case Activate(id, handle, revision) => HandleChange(s, id, handle, revision, look)
    case Move(id, handle, revision, _, _) => HandleChange(s, id, handle, revision, look)
    case Resize(id, handle, revision, size) => HandleResize(s, id, handle, revision, size, outOfMemory)
    case CloseWindow(id, handle, revision) => HandleClose(s, id, handle, revision)
    case PointerMotion(id, _, _) => Answer(s, id)
    case PointerButton(id, _, state) => HandleState(s, id, state)
    case PointerAxis(id, _, _) => Answer(s, id)
    case Key(id, _, state) => HandleState(s, id, state)
    case AuthorizeCapture(id) => HandleAuthorize(s, id, identityKnown)
  }

  /** What every callback and handler keeps. */
  ghost predicate Valid(s: ShellState) {
    && (forall i :: 0 <= i < |s.windows| ==> s.windows[i].handle == HandleName(s.windows[i].index))
    && (forall i :: 0 <= i < |s.windows| ==> s.windows[i].index <= s.nextIndex)
    && (forall i, j :: 0 <= i < j < |s.windows| ==> s.windows[i].handle != s.windows[j].handle)
    && OneResizePerWindow(s)
  }

  ghost predicate OneResizePerWindow(s: ShellState) {
    && (forall i :: 0 <= i < |s.requests| ==> s.requests[i].handle in Live(s.windows))
    && (forall i, j :: 0 <= i < j < |s.requests| ==> s.requests[i].handle != s.requests[j].handle)
  }

  lemma {:induction false} DropWindowKeeps(windows: seq<Window>, handle: Handle)
    requires forall i, j :: 0 <= i < j < |windows| ==> windows[i].handle != windows[j].handle
    ensures var rest := DropWindow(windows, handle);
      && (forall w :: w in rest <==> w in windows && w.handle != handle)
      && (forall i, j :: 0 <= i < j < |rest| ==> rest[i].handle != rest[j].handle)
  {
    if windows != [] {
      var tail := windows[1..];
      assert windows == [windows[0]] + tail;
      if windows[0].handle != handle {
        DropWindowKeeps(tail, handle);
      }
    }
  }

  lemma {:induction false} DropRequestKeeps(requests: seq<Pending>, handle: Handle)
    requires forall i, j :: 0 <= i < j < |requests| ==> requests[i].handle != requests[j].handle
    ensures var rest := DropRequest(requests, handle);
      && (forall p :: p in rest <==> p in requests && p.handle != handle)
      && (forall i, j :: 0 <= i < j < |rest| ==> rest[i].handle != rest[j].handle)
  {
    if requests != [] {
      var tail := requests[1..];
      assert requests == [requests[0]] + tail;
      if requests[0].handle != handle {
        DropRequestKeeps(tail, handle);
      }
    }
  }

  lemma ListingHandles(windows: seq<Window>, revision: nat, look: Handle -> Info)
    ensures (set t | t in Listing(windows, revision, look) :: t.handle) == Live(windows)
  {
    var listing := Listing(windows, revision, look);
    forall w | w in windows ensures exists t :: t in listing && t.handle == w.handle {
      var i :| 0 <= i < |windows| && windows[i] == w;
      assert listing[i] in listing;
    }
  }

  lemma AddedKeepsValid(s: ShellState, look: Handle -> Info)
    requires Valid(s)
    ensures Valid(SurfaceAdded(s, look).shell)
    ensures HandleName(s.nextIndex + 1) !in Live(s.windows)
    ensures Live(SurfaceAdded(s, look).shell.windows) == Live(s.windows) + {HandleName(s.nextIndex + 1)}
  {
    var index := s.nextIndex + 1;
    forall w | w in s.windows ensures w.handle != HandleName(index) {
      if w.handle == HandleName(index) {
        HandleNameInjective(w.index, index);
      }
    }
    var grown := s.windows + [Window(HandleName(index), index)];
    assert Live(grown) == Live(s.windows) + {HandleName(index)};
  }

  lemma RemovedKeepsValid(s: ShellState, handle: Handle)
    requires Valid(s)
    ensures Valid(SurfaceRemoved(s, handle).shell)
    ensures Live(SurfaceRemoved(s, handle).shell.windows) == Live(s.windows) - {handle}
    ensures forall p :: p in SurfaceRemoved(s, handle).shell.requests <==> p in s.requests && p.handle != handle
  {
    if handle in Live(s.windows) {
      DropWindowKeeps(s.windows, handle);
      DropRequestKeeps(s.requests, handle);
      var after := SurfaceRemoved(s, handle).shell;
      forall i | 0 <= i < |after.windows| ensures after.windows[i] in s.windows {
      }
      assert Live(after.windows) == Live(s.windows) - {handle};
      forall i | 0 <= i < |after.requests| ensures after.requests[i].handle in Live(after.windows) {
        assert after.requests[i] in s.requests;
      }
    }
  }

  lemma CommittedKeepsValid(s: ShellState, handle: Handle, content: Size, look: Handle -> Info)
    requires Valid(s)
    ensures Valid(SurfaceCommitted(s, handle, content, look).shell)
  {
    DropRequestKeeps(s.requests, handle);
    var after := SurfaceCommitted(s, handle, content, look).shell;
    forall i | 0 <= i < |after.requests| ensures after.requests[i].handle in Live(after.windows) {
      assert after.requests[i] in s.requests;
    }
  }

  /**
   Every request handler keeps at most one resize per window, each for a live window, and no request changes the
   window list.
   */
  lemma HandlersKeepValid(s: ShellState, request: Request, look: Handle -> Info, outOfMemory: bool, identityKnown: bool)
    requires Valid(s)
    ensures var after := HandleRequest(s, request, look, outOfMemory, identityKnown).shell;
      Valid(after) && after.windows == s.windows && after.nextIndex == s.nextIndex
  {
    if request.Resize? {
      DropRequestKeeps(s.requests, request.handle);
      var rest := DropRequest(s.requests, request.handle);
      forall i | 0 <= i < |rest| ensures rest[i].handle in Live(s.windows) && rest[i].handle != request.handle {
        assert rest[i] in s.requests;
      }
    }
  }

  /** The module as the compositor holds it: two linked lists and two counters updated in place. */
  class WlvisionShell {
    var toplevels: seq<Window>
    var requests: seq<Pending>
    var nextIndex: nat
    var revision: nat
    var controllerBound: bool
    const controlUidKnown: bool
    /** Every event sent on the controller resource, oldest first. */
    var outgoing: seq<Event>

    function State(): ShellState
      reads this
    {
      ShellState(toplevels, requests, nextIndex, revision)
    }

    /** The old state has become this one and, with a controller bound, the events have been sent. */
    twostate predicate Performs(effect: Effect)
      reads this
    {
      && State() == effect.shell
      && controllerBound == old(controllerBound)
      && outgoing == old(outgoing) + (if controllerBound then effect.events else [])
    }

    constructor (controlUidKnown: bool)
      ensures State() == ShellState([], [], 0, 0) && Valid(State())
      ensures !controllerBound && outgoing == [] && this.controlUidKnown == controlUidKnown
    {
      toplevels, requests, nextIndex, revision := [], [], 0, 0;
      controllerBound, outgoing := false, [];
      this.controlUidKnown := controlUidKnown;
    }

    method Send(event: Event)
      modifies this`outgoing
      ensures outgoing == old(outgoing) + (if controllerBound then [event] else [])
    {
      if controllerBound {
        outgoing := outgoing + [event];
      }
    }

    /** find_toplevel: the position of the window, or the length of the list. */
    method FindToplevel(handle: Handle) returns (at: nat)
      ensures at <= |toplevels|
      ensures at < |toplevels| <==> handle in Live(toplevels)
      ensures at < |toplevels| ==> toplevels[at].handle == handle
      ensures forall i :: 0 <= i < at ==> toplevels[i].handle != handle
    {
      at := 0;
      while at < |toplevels|
        invariant at <= |toplevels|
        invariant forall i :: 0 <= i < at ==> toplevels[i].handle != handle
      {
        if toplevels[at].handle == handle {
          return;
        }
        at := at + 1;
      }
    }

    /** request_for_toplevel. */
    method FindRequest(handle: Handle) returns (request: Option<Pending>)
      ensures request == RequestFor(requests, handle)
    {
      var at := 0;
      while at < |requests|
        invariant at <= |requests|
        invariant RequestFor(requests[at..], handle) == RequestFor(requests, handle)
      {
        if requests[at].handle == handle {
          return Some(requests[at]);
        }
        assert requests[at..][1..] == requests[at + 1..];
        at := at + 1;
      }
      return None;
    }

    /** The windows whose handle some index above a candidate still names. */
    ghost function NamedAbove(candidate: nat): set<Window>
      reads this
    {
      set w | w in toplevels && exists k :: k > candidate && w.handle == HandleName(k)
    }

    /** assign_handle: count up until a candidate is not in use. With valid bookkeeping the first candidate is free. */
    method AssignHandle() returns (handle: Handle)
      modifies this`nextIndex
      ensures handle == HandleName(nextIndex) && handle !in Live(toplevels)
      ensures old(nextIndex) < nextIndex
      ensures forall k :: old(nextIndex) < k < nextIndex ==> HandleName(k) in Live(toplevels)
      ensures old(Valid(State())) ==> nextIndex == old(nextIndex) + 1
    {
      var candidate := nextIndex + 1;
      handle := HandleName(candidate);
      var at := FindToplevel(handle);
      while at < |toplevels|
        invariant unchanged(this) && nextIndex < candidate && handle == HandleName(candidate)
        invariant 0 <= at <= |toplevels|
        invariant at < |toplevels| <==> handle in Live(toplevels)
        invariant at < |toplevels| ==> toplevels[at].handle == handle
        invariant forall k :: nextIndex < k < candidate ==> HandleName(k) in Live(toplevels)
        decreases NamedAbove(candidate - 1)
      {
        ghost var holder := toplevels[at];
        assert holder in NamedAbove(candidate - 1);
        assert holder !in NamedAbove(candidate) by {
          forall k | k > candidate ensures holder.handle != HandleName(k) {
            if holder.handle == HandleName(k) {
              HandleNameInjective(k, candidate);
            }
          }
        }
        candidate := candidate + 1;
        handle := HandleName(candidate);
        at := FindToplevel(handle);
      }
      if candidate > nextIndex + 1 {
        FirstCandidateFree();
      }
      nextIndex := candidate;
    }

    lemma FirstCandidateFree()
      ensures Valid(State()) ==> HandleName(nextIndex + 1) !in Live(toplevels)
    {
      if Valid(State()) {
        AddedKeepsValid(State(), (h: Handle) => Info("", "", 0, 0, UNKNOWN_SIZE, 0));
      }
    }

    method BumpRevision()
      modifies this`revision
      ensures revision == old(revision) + 1
    {
      revision := revision + 1;
    }

    /** wl_list_remove of the window found at a position. */
    method UnlinkToplevel(at: nat)
      requires at < |toplevels|
      requires forall i :: 0 <= i < at ==> toplevels[i].handle != toplevels[at].handle
      modifies this`toplevels
      ensures toplevels == DropWindow(old(toplevels), old(toplevels)[at].handle)
    {
      DropWindowAt(toplevels, at);
      toplevels := toplevels[..at] + toplevels[at + 1..];
    }

    /** request_free of the first pending request of a window, if it has one. */
    method FreeRequest(handle: Handle)
      modifies this`requests
      ensures requests == DropRequest(old(requests), handle)
    {
      var at := 0;
      while at < |requests| && requests[at].handle != handle
        invariant at <= |requests| && requests == old(requests)
        invariant forall i :: 0 <= i < at ==> requests[i].handle != handle
      {
        at := at + 1;
      }
      DropRequestAt(requests, handle, at);
      if at < |requests| {
        requests := requests[..at] + requests[at + 1..];
      }
    }

    method DesktopSurfaceAdded(viewCreated: bool, look: Handle -> Info)
      requires Valid(State())
      modifies this
      ensures Valid(State())
      ensures Performs(if viewCreated then SurfaceAdded(old(State()), look) else SurfaceRefused(old(State())))
    {
      AddedKeepsValid(State(), look);
      var handle := AssignHandle();
      if !viewCreated {
        return;
      }
      toplevels := toplevels + [Window(handle, nextIndex)];
      BumpRevision();
      Send(ToplevelChanged(Toplevel(handle, look(handle), revision)));
    }

    method DesktopSurfaceRemoved(handle: Handle)
      requires Valid(State())
      modifies this
      ensures Valid(State())
      ensures Performs(SurfaceRemoved(old(State()), handle))
    {
      RemovedKeepsValid(State(), handle);
      var at := FindToplevel(handle);
      if at == |toplevels| {
        return;
      }
      var request := FindRequest(handle);
      if request.Some? {
        Send(RequestFailed(request.value.id, WindowNotFound));
      }
      FreeRequest(handle);
      Send(ToplevelRemoved(handle));
      UnlinkToplevel(at);
      BumpRevision();
      assert State() == SurfaceRemoved(old(State()), handle).shell;
    }

    method DesktopSurfaceCommitted(handle: Handle, content: Size, look: Handle -> Info)
      requires Valid(State())
      modifies this
      ensures Valid(State())
      ensures Performs(SurfaceCommitted(old(State()), handle, content, look))
    {
      CommittedKeepsValid(State(), handle, content, look);
      var at := FindToplevel(handle);
      var request := FindRequest(handle);
      if at == |toplevels| || request.None? || content != request.value.configured {
        return;
      }
      BumpRevision();
      Send(ToplevelChanged(Toplevel(handle, look(handle), revision)));
      Send(ResizeDone(request.value.id, request.value.configured, content, look(handle).size, revision));
      FreeRequest(handle);
    }

    method DesktopSurfaceRestated(handle: Handle, look: Handle -> Info)
      requires Valid(State())
      modifies this
      ensures Valid(State())
      ensures Performs(SurfaceRestated(old(State()), handle, look))
    {
      var at := FindToplevel(handle);
      if at < |toplevels| {
        BumpRevision();
        Send(ToplevelChanged(Toplevel(handle, look(handle), revision)));
      }
    }

    /** The snapshot handler's loop over the window list. */
    method EmitListing(look: Handle -> Info)
      modifies this`outgoing
      ensures outgoing == old(outgoing) + (if controllerBound then Announce(Listing(toplevels, revision, look)) else [])
    {
      ghost var all := Announce(Listing(toplevels, revision, look));
      var at := 0;
      while at < |toplevels|
        invariant at <= |toplevels|
        invariant unchanged(`toplevels, `revision, `controllerBound)
        invariant outgoing == old(outgoing) + (if controllerBound then all[..at] else [])
      {
        Send(ToplevelChanged(Toplevel(toplevels[at].handle, look(toplevels[at].handle), revision)));
        at := at + 1;
      }
    }

    method Handle(request: Request, look: Handle -> Info, outOfMemory: bool)
      requires Valid(State())
      requires controllerBound
      modifies this
      ensures Valid(State())
      ensures Performs(HandleRequest(old(State()), request, look, outOfMemory, controlUidKnown))
    {
      HandlersKeepValid(State(), request, look, outOfMemory, controlUidKnown);
      if request.NamesWindow() {
        HandleWindowRequest(request, look, outOfMemory);
        return;
      }
      match request
      case Snapshot(id) =>
        Send(SnapshotBegun(revision));
        EmitListing(look);
        Send(RequestDone(id, revision));
      case AuthorizeCapture(id) =>
        if controlUidKnown {
          Send(CaptureAuthorized(id));
          Send(RequestDone(id, revision));
        } else {
          Send(RequestFailed(id, NotAuthorized));
        }
      case PointerMotion(id, _, _) =>
        Send(RequestDone(id, revision));
      case PointerAxis(id, _, _) =>
        Send(RequestDone(id, revision));
      case PointerButton(id, _, state) =>
        Send(if state > 1 then RequestFailed(id, InvalidArgument) else RequestDone(id, revision));
      case Key(id, _, state) =>
        Send(if state > 1 then RequestFailed(id, InvalidArgument) else RequestDone(id, revision));
    }

    /** The four handlers that carry a revision and name a window. */
    method HandleWindowRequest(request: Request, look: Handle -> Info, outOfMemory: bool)
      requires request.NamesWindow()
      modifies this
      ensures Performs(HandleRequest(old(State()), request, look, outOfMemory, controlUidKnown))
    {
      var handle := request.handle;
      if request.revision != revision {
        Send(RequestFailed(request.id, StaleRevision));
        return;
      }
      if request.Resize? && !UsableSize(request.size) {
        Send(RequestFailed(request.id, InvalidArgument));
        return;
      }
      var at := FindToplevel(handle);
      if at == |toplevels| {
        Send(RequestFailed(request.id, WindowNotFound));
      } else if request.Resize? {
        FreeRequest(handle);
        if outOfMemory {
          Send(RequestFailed(request.id, CaptureUnavailable));
        } else {
          requests := requests + [Pending(request.id, handle, request.size)];
          Send(ResizeConfigured(request.id, request.size));
        }
      } else if request.CloseWindow? {
        Send(RequestDone(request.id, revision));
      } else {
        BumpRevision();
        Send(ToplevelChanged(Toplevel(handle, look(handle), revision)));
        Send(RequestDone(request.id, revision));
      }
    }
  }

  lemma {:induction false} DropWindowAt(windows: seq<Window>, at: nat)
    requires at < |windows|
    requires forall i :: 0 <= i < at ==> windows[i].handle != windows[at].handle
    ensures DropWindow(windows, windows[at].handle) == windows[..at] + windows[at + 1..]
  {
    if at > 0 {
      DropWindowAt(windows[1..], at - 1);
      assert windows[..at] + windows[at + 1..] == [windows[0]] + (windows[1..][..at - 1] + windows[1..][at..]);
    }
  }

  lemma {:induction false} DropRequestAt(requests: seq<Pending>, handle: Handle, at: nat)
    requires at <= |requests|
    requires forall i :: 0 <= i < at ==> requests[i].handle != handle
    requires at < |requests| ==> requests[at].handle == handle
    ensures DropRequest(requests, handle) == if at < |requests| then requests[..at] + requests[at + 1..] else requests
  {
    if at > 0 {
      DropRequestAt(requests[1..], handle, at - 1);
      if at < |requests| {
        assert requests[..at] + requests[at + 1..] == [requests[0]] + (requests[1..][..at - 1] + requests[1..][at..]);
      }
    }
  }
}
