/** The resident client: its window cache, its pending calls and what each critical section does to them. */
module ControlClient {
  import opened Protocol

  /** The part of the client that events alone decide. */
  datatype Cache = Cache(toplevels: map<Handle, Toplevel>, removed: set<Handle>, revision: nat)

  datatype Kind = WaitRequest | WaitResize | WaitCapture

  /** An in-flight request; a snapshot call also names a collector that events fill. */
  datatype Call = Call(kind: Kind, snapshot: bool)

  datatype Progress = Progress(configured: Size, committed: Size)

  datatype ResizeReply = ResizeReply(configured: Size, committed: Size, visible: Size, revision: nat)

  datatype Outcome =
    | Completed(revision: nat, resize: Option<ResizeReply>)
    | Refused(code: ErrorCode)
    | Disconnected

  datatype Delivery = Delivery(id: nat, outcome: Outcome)

  datatype ClientState = ClientState(
    cache: Cache,
    nextId: nat,
    pending: map<nat, Call>,
    collectors: map<nat, seq<Toplevel>>,
    progress: map<nat, Progress>,
    closed: bool)

  const INITIAL_CACHE := Cache(map[], {}, 0)
  const INITIAL := ClientState(INITIAL_CACHE, 0, map[], map[], map[], false)

  function Max(a: nat, b: nat): nat {
    if a > b then a else b
  }

  /** sizeFromInt32: a negative word is an unknown size. */
  function WireSize(size: Size): Size {
    if size.width < 0 || size.height < 0 then UNKNOWN_SIZE else size
  }

  /** What an event does to the cache. Snapshot and change events assign the revision without comparing. */
  function Absorb(cache: Cache, event: Event): Cache {
    match event
    case SnapshotBegun(revision) => cache.(revision := revision)
    case ToplevelChanged(t) => cache.(toplevels := cache.toplevels[t.handle := t], revision := t.revision)
    case ToplevelRemoved(handle) => cache.(toplevels := cache.toplevels - {handle}, removed := cache.removed + {handle})
    case RequestDone(_, revision) => cache.(revision := Max(cache.revision, revision))
    case ResizeDone(_, _, _, _, revision) => cache.(revision := Max(cache.revision, revision))
    case _ => cache
  }

  /** upsertToplevel. */
  function Upsert(list: seq<Toplevel>, t: Toplevel): seq<Toplevel> {
    if list == [] then [t]
    else if list[0].handle == t.handle then [t] + list[1..]
    else [list[0]] + Upsert(list[1..], t)
  }

  /** removeToplevel. */
  function Without(list: seq<Toplevel>, handle: Handle): seq<Toplevel> {
    if list == [] then []
    else if list[0].handle == handle then list[1..]
    else [list[0]] + Without(list[1..], handle)
  }

  /** What an event does to the collector of a pending snapshot. */
  function Collect(list: seq<Toplevel>, event: Event): seq<Toplevel> {
    match event
    case SnapshotBegun(_) => []
    case ToplevelChanged(t) => Upsert(list, t)
    case ToplevelRemoved(handle) => Without(list, handle)
    case _ => list
  }

  function CollectPending(c: ClientState, event: Event): map<nat, seq<Toplevel>> {
    map id | id in c.collectors ::
      if id in c.pending && c.pending[id].snapshot then Collect(c.collectors[id], event) else c.collectors[id]
  }

  /** The progress a resize event records, only while its own request is pending. */
  function Track(c: ClientState, event: Event): map<nat, Progress> {
    if event.ResizeConfigured? && event.id in c.pending && event.size.width > 0 && event.size.height > 0 then
      var known := if event.id in c.progress then c.progress[event.id] else Progress(UNKNOWN_SIZE, UNKNOWN_SIZE);
      c.progress[event.id := known.(configured := event.size)]
    else if event.ResizeDone? && event.id in c.pending then
      c.progress[event.id := Progress(WireSize(event.configured), WireSize(event.committed))]
    else c.progress
  }

  /** The first critical section of an event handler. */
  function Observe(c: ClientState, event: Event): ClientState {
    c.(cache := Absorb(c.cache, event), collectors := CollectPending(c, event), progress := Track(c, event))
  }

  /** The outcome a handler passes to finish once its first critical section is over. */
  function FinishOf(event: Event): Option<Delivery> {
    match event
    case RequestDone(id, revision) => Some(Delivery(id, Completed(revision, None)))
    case RequestFailed(id, code) => Some(Delivery(id, Refused(code)))
    case ResizeDone(id, configured, committed, visible, revision) =>
      var reply := ResizeReply(WireSize(configured), WireSize(committed), WireSize(visible), revision);
      Some(Delivery(id, Completed(revision, Some(reply))))
    case CaptureAuthorized(id) => Some(Delivery(id, Completed(0, None)))
    case _ => None
  }

  /** The critical section of finish. The call it found, if any, is owed exactly one outcome afterwards. */
  function Claim(c: ClientState, id: nat): ClientState {
    c.(pending := c.pending - {id}, progress := c.progress - {id})
  }

  function CallOf(request: Request): Call {
    match request
    case Snapshot(_) => Call(WaitRequest, true)
    case Resize(_, _, _, _) => Call(WaitResize, false)
    case AuthorizeCapture(_) => Call(WaitCapture, false)
    case _ => Call(WaitRequest, false)
  }

  /** The critical section that allocates a request id and registers the call. */
  function Register(c: ClientState, request: Request): ClientState {
    var id := c.nextId + 1;
    c.(nextId := id,
       pending := c.pending[id := CallOf(request)],
       collectors := if request.Snapshot? then c.collectors[id := []] else c.collectors)
  }

  function Forget(c: ClientState, id: nat): ClientState {
    c.(pending := c.pending - {id})
  }

  /** failAll: every pending call is taken at once. */
  function FailAll(c: ClientState): ClientState {
    c.(pending := map[], closed := true)
  }

  /** What resizeTimeout reports: the observed sizes of one request and the cached size of its window. */
  datatype Timeout = Timeout(handle: Handle, requested: Size, configured: Size, committed: Size, visible: Option<Size>)

  function TimeoutOf(c: ClientState, id: nat, handle: Handle, requested: Size): Timeout {
    var seen := if id in c.progress then c.progress[id] else Progress(UNKNOWN_SIZE, UNKNOWN_SIZE);
    var visible := if handle in c.cache.toplevels then Some(c.cache.toplevels[handle].info.size) else None;
    Timeout(handle, requested, seen.configured, seen.committed, visible)
  }

  function DropProgress(c: ClientState, id: nat): ClientState {
    c.(progress := c.progress - {id})
  }

  /** mergeSnapshot. */
  function Merged(cached: map<Handle, Toplevel>, removed: set<Handle>, listing: seq<Toplevel>): map<Handle, Toplevel>
    decreases |listing|
  {
    if listing == [] then cached
    else
      var t := listing[0];
      var stale := t.handle in removed || (t.handle in cached && cached[t.handle].revision >= t.revision);
      Merged(if stale then cached else cached[t.handle := t], removed, listing[1..])
  }

  /** A merge takes from the listing whatever is newer, never what was removed, and loses nothing that was cached. */
  lemma {:induction false} MergedTakesNewer(
      cached: map<Handle, Toplevel>, removed: set<Handle>, listing: seq<Toplevel>, h: Handle)
    ensures var merged := Merged(cached, removed, listing);
      && (h in removed ==> (h in merged <==> h in cached) && (h in merged ==> merged[h] == cached[h]))
      && (h in cached ==> h in merged && merged[h].revision >= cached[h].revision)
      && (h in merged ==> (h in cached && merged[h] == cached[h]) || (merged[h] in listing && merged[h].handle == h))
      && (h !in removed ==> forall t :: t in listing && t.handle == h ==>
           h in merged && merged[h].revision >= t.revision)
    decreases |listing|
  {
    if listing != [] {
      var t := listing[0];
      var stale := t.handle in removed || (t.handle in cached && cached[t.handle].revision >= t.revision);
      assert listing == [t] + listing[1..];
      MergedTakesNewer(if stale then cached else cached[t.handle := t], removed, listing[1..], h);
    }
  }

  /** The client as its mutex guards it. Each method is one critical section, or a helper run inside one. */
  class Client {
    var cache: Cache
    var nextRequestId: nat
    var pending: map<nat, Call>
    var collectors: map<nat, seq<Toplevel>>
    var resizeProgress: map<nat, Progress>
    var closedFlag: bool

    function State(): ClientState
      reads this
    {
      ClientState(cache, nextRequestId, pending, collectors, resizeProgress, closedFlag)
    }

    constructor ()
      ensures State() == INITIAL
    {
      cache, nextRequestId, pending, collectors := INITIAL_CACHE, 0, map[], map[];
      resizeProgress, closedFlag := map[], false;
    }

    /** The loop every listing handler runs over the pending calls. */
    method Collectors(event: Event)
      modifies this`collectors
      ensures collectors == CollectPending(old(State()), event)
    {
      var todo := pending.Keys;
      ghost var before := collectors;
      while todo != {}
        invariant todo <= pending.Keys && collectors.Keys == before.Keys
        invariant forall id :: id in collectors ==> 
          collectors[id] ==
            if id in pending && id !in todo && pending[id].snapshot then Collect(before[id], event) else before[id]
      {
        var id :| id in todo;
        if pending[id].snapshot && id in collectors {
          var list := CollectInto(collectors[id], event);
          collectors := collectors[id := list];
        }
        todo := todo - {id};
      }
    }

    method OnEvent(event: Event) returns (finish: Option<Delivery>)
      modifies this
      ensures State() == Observe(old(State()), event)
      ensures finish == FinishOf(event)
    {
      finish := FinishOf(event);
      match event
      case SnapshotBegun(revision) =>
        cache := cache.(revision := revision);
        Collectors(event);
      case ToplevelChanged(t) =>
        cache := cache.(toplevels := cache.toplevels[t.handle := t], revision := t.revision);
        Collectors(event);
      case ToplevelRemoved(handle) =>
        cache := cache.(toplevels := cache.toplevels - {handle}, removed := cache.removed + {handle});
        Collectors(event);
      case RequestDone(_, revision) =>
        if revision > cache.revision {
          cache := cache.(revision := revision);
        }
        assert CollectPending(old(State()), event) == collectors;
      case ResizeConfigured(id, size) =>
        if size.width > 0 && size.height > 0 && id in pending {
          var known := if id in resizeProgress then resizeProgress[id] else Progress(UNKNOWN_SIZE, UNKNOWN_SIZE);
          resizeProgress := resizeProgress[id := known.(configured := size)];
        }
        assert CollectPending(old(State()), event) == collectors;
      case ResizeDone(id, configured, committed, _, revision) =>
        if revision > cache.revision {
          cache := cache.(revision := revision);
        }
        if id in pending {
          resizeProgress := resizeProgress[id := Progress(WireSize(configured), WireSize(committed))];
        }
        assert CollectPending(old(State()), event) == collectors;
      case _ =>
        assert CollectPending(old(State()), event) == collectors;
    }

    method Finish(id: nat) returns (found: bool)
      modifies this`pending, this`resizeProgress
      ensures State() == Claim(old(State()), id)
      ensures found <==> id in old(pending)
    {
      found := id in pending;
      pending := pending - {id};
      resizeProgress := resizeProgress - {id};
    }

    /** The opening section of send: a closed client refuses. AuthorizeCapture registers without that test. */
    method Begin(request: Request) returns (accepted: bool)
      requires request.id == nextRequestId + 1
      modifies this
      ensures accepted <==> !old(closedFlag) || request.AuthorizeCapture?
      ensures State() == if accepted then Register(old(State()), request) else old(State())
    {
      accepted := !closedFlag || request.AuthorizeCapture?;
      if accepted {
        nextRequestId := nextRequestId + 1;
        pending := pending[nextRequestId := CallOf(request)];
        if request.Snapshot? {
          collectors := collectors[nextRequestId := []];
        }
      }
    }

    method GiveUp(id: nat)
      modifies this`pending
      ensures State() == Forget(old(State()), id)
    {
      pending := pending - {id};
    }

    /** A timed-out resize is told what was seen of its own request; a size never seen is unknown. */
    method ResizeTimeout(id: nat, handle: Handle, requested: Size) returns (report: Timeout)
      modifies this`resizeProgress
      ensures report.handle == handle && report.requested == requested
      ensures id in old(resizeProgress) ==> Progress(report.configured, report.committed) == old(resizeProgress[id])
      ensures id !in old(resizeProgress) ==> report.configured == report.committed == UNKNOWN_SIZE
      ensures report.visible.Some? <==> handle in cache.toplevels
      ensures report.visible.Some? ==> report.visible.value == cache.toplevels[handle].info.size
      ensures id !in resizeProgress
      ensures forall other :: other != id && other in old(resizeProgress) ==>
        other in resizeProgress && resizeProgress[other] == old(resizeProgress[other])
      ensures resizeProgress.Keys <= old(resizeProgress.Keys)
      ensures report == TimeoutOf(old(State()), id, handle, requested) && State() == DropProgress(old(State()), id)
    {
      var progress := Progress(UNKNOWN_SIZE, UNKNOWN_SIZE);
      if id in resizeProgress {
        progress := resizeProgress[id];
        resizeProgress := resizeProgress - {id};
      }
      var visible := None;
      if handle in cache.toplevels {
        visible := Some(cache.toplevels[handle].info.size);
      }
      report := Timeout(handle, requested, progress.configured, progress.committed, visible);
      assert resizeProgress == old(resizeProgress) - {id};
    }

    /** failAll: the calls are taken under the mutex; the sends follow, one for each call, in no promised order. */
    method FailEverything() returns (sends: seq<Delivery>)
      modifies this`pending, this`closedFlag
      ensures State() == FailAll(old(State()))
      ensures forall id :: id in old(pending) ==> Delivery(id, Disconnected) in sends
      ensures forall i :: 0 <= i < |sends| ==> sends[i].id in old(pending) && sends[i].outcome == Disconnected
      ensures forall i, j :: 0 <= i < j < |sends| ==> sends[i].id != sends[j].id
    {
      var taken := pending;
      pending, closedFlag := map[], true;
      var todo := taken.Keys;
      sends := [];
      while todo != {}
        invariant todo <= taken.Keys
        invariant forall id :: id in taken && id !in todo ==> Delivery(id, Disconnected) in sends
        invariant forall i :: 0 <= i < |sends| ==> sends[i].id in taken.Keys - todo && sends[i].outcome == Disconnected
        invariant forall i, j :: 0 <= i < j < |sends| ==> sends[i].id != sends[j].id
      {
        var id :| id in todo;
        sends := sends + [Delivery(id, Disconnected)];
        todo := todo - {id};
      }
    }

    /** mergeSnapshot, in place on the cache. */
    method MergeSnapshot(listing: seq<Toplevel>)
      modifies this`cache
      ensures cache == old(cache).(toplevels := Merged(old(cache.toplevels), old(cache.removed), listing))
    {
      var at := 0;
      while at < |listing|
        invariant at <= |listing|
        invariant cache == old(cache).(toplevels := cache.toplevels)
        invariant Merged(cache.toplevels, cache.removed, listing[at..])
               == Merged(old(cache.toplevels), cache.removed, listing)
      {
        var t := listing[at];
        var known := t.handle in cache.toplevels && cache.toplevels[t.handle].revision >= t.revision;
        if t.handle !in cache.removed && !known {
          cache := cache.(toplevels := cache.toplevels[t.handle := t]);
        }
        assert listing[at..][1..] == listing[at + 1..];
        at := at + 1;
      }
    }
  }

  /** upsertToplevel and removeToplevel: a search, then an edit at the position found. */
  method CollectInto(list: seq<Toplevel>, event: Event) returns (r: seq<Toplevel>)
    ensures r == Collect(list, event)
  {
    match event
    case SnapshotBegun(_) => r := [];
    case ToplevelChanged(t) =>
      var at := Position(list, t.handle);
      UpsertAt(list, t, at);
      r := if at < |list| then list[at := t] else list + [t];
    case ToplevelRemoved(handle) =>
      var at := Position(list, handle);
      WithoutAt(list, handle, at);
      r := if at < |list| then list[..at] + list[at + 1..] else list;
    case _ => r := list;
  }

  method Position(list: seq<Toplevel>, handle: Handle) returns (at: nat)
    ensures at <= |list|
    ensures forall i :: 0 <= i < at ==> list[i].handle != handle
    ensures at < |list| ==> list[at].handle == handle
  {
    at := 0;
    while at < |list| && list[at].handle != handle
      invariant at <= |list|
      invariant forall i :: 0 <= i < at ==> list[i].handle != handle
    {
      at := at + 1;
    }
  }

  lemma {:induction false} UpsertAt(list: seq<Toplevel>, t: Toplevel, at: nat)
    requires at <= |list|
    requires forall i :: 0 <= i < at ==> list[i].handle != t.handle
    requires at < |list| ==> list[at].handle == t.handle
    ensures Upsert(list, t) == if at < |list| then list[at := t] else list + [t]
  {
    if at > 0 {
      UpsertAt(list[1..], t, at - 1);
      if at < |list| {
        assert list[at := t] == [list[0]] + list[1..][at - 1 := t];
      } else {
        assert list + [t] == [list[0]] + (list[1..] + [t]);
      }
    }
  }

  lemma {:induction false} WithoutAt(list: seq<Toplevel>, handle: Handle, at: nat)
    requires at <= |list|
    requires forall i :: 0 <= i < at ==> list[i].handle != handle
    requires at < |list| ==> list[at].handle == handle
    ensures Without(list, handle) == if at < |list| then list[..at] + list[at + 1..] else list
  {
    if at > 0 {
      var tail := list[1..];
      WithoutAt(tail, handle, at - 1);
      assert list == [list[0]] + tail;
      if at < |list| {
        assert list[..at] == [list[0]] + tail[..at - 1] && list[at + 1..] == tail[at..];
        assert list[..at] + list[at + 1..] == [list[0]] + (tail[..at - 1] + tail[at..]);
      }
    }
  }
}
