/** What the events emitted so far say about the module's windows, at every point of the stream. */
module ControlLog {
  import opened Protocol
  import opened CompositorShell
  import opened ControlClient

  /** The cache of a client that has handled exactly these events. */
  function Replay(log: seq<Event>): Cache {
    if log == [] then INITIAL_CACHE else Absorb(Replay(log[..|log| - 1]), log[|log| - 1])
  }

  /** The cache after some more events. */
  function AbsorbAll(cache: Cache, events: seq<Event>): Cache
    decreases |events|
  {
    if events == [] then cache else AbsorbAll(Absorb(cache, events[0]), events[1..])
  }

  function CollectAll(list: seq<Toplevel>, events: seq<Event>): seq<Toplevel>
    decreases |events|
  {
    if events == [] then list else CollectAll(Collect(list, events[0]), events[1..])
  }

  lemma ReplayStep(log: seq<Event>, n: nat)
    requires n < |log|
    ensures Replay(log[..n + 1]) == Absorb(Replay(log[..n]), log[n])
  {
    assert log[..n + 1][..n] == log[..n];
  }

  lemma ReplayAppend(log: seq<Event>, event: Event)
    ensures Replay(log + [event]) == Absorb(Replay(log), event)
    ensures forall n :: 0 <= n <= |log| ==> (log + [event])[..n] == log[..n]
  {
    assert (log + [event])[..|log|] == log;
  }

  lemma {:induction false} AbsorbRest(log: seq<Event>, n: nat)
    requires n <= |log|
    ensures AbsorbAll(Replay(log[..n]), log[n..]) == Replay(log)
    decreases |log| - n
  {
    if n < |log| {
      ReplayStep(log, n);
      assert log[n..][1..] == log[n + 1..];
      AbsorbRest(log, n + 1);
    } else {
      assert log[..n] == log;
    }
  }

  lemma {:induction false} CollectSplit(list: seq<Toplevel>, a: seq<Event>, b: seq<Event>)
    ensures CollectAll(list, a + b) == CollectAll(CollectAll(list, a), b)
    decreases |a|
  {
    if a == [] {
      assert a + b == b;
    } else {
      assert (a + b)[0] == a[0] && (a + b)[1..] == a[1..] + b;
      CollectSplit(Collect(list, a[0]), a[1..], b);
    }
  }

  /** Event n takes the revision no further back. */
  predicate Rises(log: seq<Event>, n: nat)
    requires n < |log|
  {
    Replay(log[..n]).revision <= Replay(log[..n + 1]).revision
  }

  /** After n events the revision is not past the module's. */
  predicate Within(shell: ShellState, log: seq<Event>, n: nat)
    requires n <= |log|
  {
    Replay(log[..n]).revision <= shell.revision
  }

  /** The revisions of the stream never go back and never pass the module's. */
  ghost predicate Ascends(shell: ShellState, log: seq<Event>) {
    && (forall n: nat :: n < |log| ==> Rises(log, n))
    && (forall n: nat :: n <= |log| ==> Within(shell, log, n))
  }

  /** Event n reports no window that was reported removed. */
  predicate RevivesNothing(log: seq<Event>, n: nat)
    requires n < |log|
  {
    log[n].ToplevelChanged? ==> log[n].toplevel.handle !in Replay(log[..n]).removed
  }

  /** No window is reported again once it was reported removed, and removed handles stay used up. */
  ghost predicate RemovedForGood(shell: ShellState, log: seq<Event>) {
    && (forall n: nat :: n < |log| ==> RevivesNothing(log, n))
    && (forall h :: h in Replay(log).removed ==> Used(h, shell.nextIndex) && h !in Live(shell.windows))
  }

  ghost predicate Used(handle: Handle, nextIndex: nat) {
    exists i :: 0 <= i <= nextIndex && handle == HandleName(i)
  }

  /** From the sync point on, the stream describes exactly the live windows. */
  ghost predicate Describes(shell: ShellState, log: seq<Event>, sync: Option<nat>) {
    && Replay(log).toplevels.Keys <= Live(shell.windows)
    && (sync.Some? ==> sync.value <= |log| && Replay(log).toplevels.Keys == Live(shell.windows))
  }

  /** A client that has handled n events and holds the module's revision holds the module's windows. */
  predicate AgreesAt(shell: ShellState, log: seq<Event>, n: nat)
    requires n <= |log|
  {
    Replay(log[..n]).revision == shell.revision ==> Replay(log[..n]).toplevels.Keys == Live(shell.windows)
  }

  /** Once a client that is past the sync point holds the module's revision, it holds the module's windows. */
  ghost predicate Agrees(shell: ShellState, log: seq<Event>, sync: Option<nat>) {
    sync.Some? ==> forall n: nat :: sync.value <= n <= |log| ==> AgreesAt(shell, log, n)
  }

  ghost predicate StreamInv(shell: ShellState, log: seq<Event>, sync: Option<nat>) {
    && Valid(shell)
    && Ascends(shell, log)
    && RemovedForGood(shell, log)
    && Describes(shell, log, sync)
    && Agrees(shell, log, sync)
  }

  /** An event that neither adds nor removes a window and carries, if anything, the current revision. */
  ghost predicate Harmless(shell: ShellState, event: Event) {
    match event
    case SnapshotBegun(revision) => revision == shell.revision
    case ToplevelChanged(t) => t.handle in Live(shell.windows) && t.revision == shell.revision
    case ToplevelRemoved(_) => false
    case RequestDone(_, revision) => revision == shell.revision
    case ResizeDone(_, _, _, _, revision) => revision == shell.revision
    case _ => true
  }

  lemma PrefixOfLonger(log: seq<Event>, event: Event, n: nat)
    requires n <= |log|
    ensures (log + [event])[..n] == log[..n]
    ensures n == |log| ==> log[..n] == log
  {
  }

  lemma AscendsAppend(shell: ShellState, after: ShellState, log: seq<Event>, event: Event)
    requires Ascends(shell, log) && shell.revision <= after.revision
    requires Replay(log).revision <= Absorb(Replay(log), event).revision <= after.revision
    ensures Ascends(after, log + [event])
  {
    var longer := log + [event];
    forall n: nat | n < |longer| ensures Rises(longer, n) {
      RisesAppend(shell, log, event, n);
    }
    forall n: nat | n <= |longer| ensures Within(after, longer, n) {
      WithinAppend(shell, after, log, event, n);
    }
  }

  lemma RisesAppend(shell: ShellState, log: seq<Event>, event: Event, n: nat)
    requires Ascends(shell, log) && n <= |log| && Replay(log).revision <= Absorb(Replay(log), event).revision
    ensures Rises(log + [event], n)
  {
    PrefixOfLonger(log, event, n);
    if n < |log| {
      PrefixOfLonger(log, event, n + 1);
      assert Rises(log, n);
    } else {
      ReplayStep(log + [event], n);
    }
  }

  lemma WithinAppend(shell: ShellState, after: ShellState, log: seq<Event>, event: Event, n: nat)
    requires Ascends(shell, log) && n <= |log| + 1 && shell.revision <= after.revision
    requires Absorb(Replay(log), event).revision <= after.revision
    ensures Within(after, log + [event], n)
  {
    if n <= |log| {
      PrefixOfLonger(log, event, n);
      assert Within(shell, log, n);
    } else {
      ReplayAppend(log, event);
      assert (log + [event])[..n] == log + [event];
    }
  }

  lemma RemovedAppend(shell: ShellState, log: seq<Event>, event: Event)
    requires RemovedForGood(shell, log)
    requires event.ToplevelChanged? ==> event.toplevel.handle !in Replay(log).removed
    requires event.ToplevelRemoved? ==> Used(event.handle, shell.nextIndex) && event.handle !in Live(shell.windows)
    ensures RemovedForGood(shell, log + [event])
  {
    var longer := log + [event];
    ReplayAppend(log, event);
    forall n: nat | n < |longer| ensures RevivesNothing(longer, n) {
      PrefixOfLonger(log, event, n);
      assert n < |log| ==> RevivesNothing(log, n);
    }
  }

  /** A change of the window list raises the revision, so only the last point of the stream can agree. */
  lemma AgreesAfterBump(shell: ShellState, after: ShellState, log: seq<Event>, event: Event, sync: Option<nat>)
    requires Ascends(shell, log) && shell.revision < after.revision
    requires Describes(after, log + [event], sync)
    ensures Agrees(after, log + [event], sync)
  {
    var longer := log + [event];
    assert longer[..|longer|] == longer;
    if sync.Some? {
      forall n: nat | sync.value <= n <= |longer| ensures AgreesAt(after, longer, n) {
        if n <= |log| {
          PrefixOfLonger(log, event, n);
          assert Within(shell, log, n);
        }
      }
    }
  }

  /** An event that moves neither the windows nor, past them, the revision leaves agreement as it is. */
  lemma AgreesAppend(shell: ShellState, log: seq<Event>, event: Event, sync: Option<nat>)
    requires Agrees(shell, log, sync) && Describes(shell, log + [event], sync)
    requires sync.Some? ==> sync.value <= |log|
    ensures Agrees(shell, log + [event], sync)
  {
    var longer := log + [event];
    assert longer[..|longer|] == longer;
    if sync.Some? {
      forall n: nat | sync.value <= n <= |longer| ensures AgreesAt(shell, longer, n) {
        if n <= |log| {
          PrefixOfLonger(log, event, n);
          assert AgreesAt(shell, log, n);
        }
      }
    }
  }

  lemma HarmlessDescribes(shell: ShellState, log: seq<Event>, sync: Option<nat>, event: Event)
    requires Describes(shell, log, sync) && Harmless(shell, event)
    ensures Describes(shell, log + [event], sync)
  {
    ReplayAppend(log, event);
  }

  /** A harmless event takes the cache's revision to the module's or leaves it. */
  lemma HarmlessRevision(shell: ShellState, cache: Cache, event: Event)
    requires Harmless(shell, event) && cache.revision <= shell.revision
    ensures cache.revision <= Absorb(cache, event).revision <= shell.revision
  {
  }

  lemma AtEnd(shell: ShellState, log: seq<Event>)
    requires Ascends(shell, log)
    ensures Replay(log).revision <= shell.revision
  {
    assert Within(shell, log, |log|);
    assert log[..|log|] == log;
  }

  lemma AppendHarmless(shell: ShellState, log: seq<Event>, sync: Option<nat>, event: Event)
    requires StreamInv(shell, log, sync)
    requires Harmless(shell, event)
    ensures StreamInv(shell, log + [event], sync)
  {
    AtEnd(shell, log);
    HarmlessRevision(shell, Replay(log), event);
    AscendsAppend(shell, shell, log, event);
    RemovedAppend(shell, log, event);
    HarmlessDescribes(shell, log, sync, event);
    AgreesAppend(shell, log, event, sync);
  }

  lemma {:induction false} AppendAllHarmless(shell: ShellState, log: seq<Event>, sync: Option<nat>, events: seq<Event>)
    requires StreamInv(shell, log, sync)
    requires forall i :: 0 <= i < |events| ==> Harmless(shell, events[i])
    ensures StreamInv(shell, log + events, sync)
    decreases |events|
  {
    if events == [] {
      assert log + events == log;
    } else {
      AppendHarmless(shell, log, sync, events[0]);
      AppendAllHarmless(shell, log + [events[0]], sync, events[1..]);
      assert log + events == (log + [events[0]]) + events[1..];
    }
  }

  /** Bookkeeping that leaves the window list alone. */
  lemma SameWindows(shell: ShellState, after: ShellState, log: seq<Event>, sync: Option<nat>)
    requires StreamInv(shell, log, sync)
    requires Valid(after) && after.windows == shell.windows
    requires shell.nextIndex <= after.nextIndex && shell.revision <= after.revision
    ensures StreamInv(after, log, sync)
  {
    MoreUsed(shell, after, log);
    forall n: nat | n <= |log| ensures Within(after, log, n) {
      assert Within(shell, log, n);
    }
    if sync.Some? {
      forall n: nat | sync.value <= n <= |log| ensures AgreesAt(after, log, n) {
        assert Within(shell, log, n) && AgreesAt(shell, log, n);
      }
    }
  }

  /** Handles stay used up as the counter grows. */
  lemma MoreUsed(shell: ShellState, after: ShellState, log: seq<Event>)
    requires RemovedForGood(shell, log) && shell.nextIndex <= after.nextIndex
    requires forall h :: h in Replay(log).removed ==> h !in Live(after.windows)
    ensures RemovedForGood(after, log)
  {
    forall h | h in Replay(log).removed ensures Used(h, after.nextIndex) {
      var i :| 0 <= i <= shell.nextIndex && h == HandleName(i);
    }
  }

  lemma NewHandleWasNotRemoved(shell: ShellState, log: seq<Event>)
    requires RemovedForGood(shell, log)
    ensures HandleName(shell.nextIndex + 1) !in Replay(log).removed
  {
    forall h | h in Replay(log).removed ensures h != HandleName(shell.nextIndex + 1) {
      var i :| 0 <= i <= shell.nextIndex && h == HandleName(i);
      if h == HandleName(shell.nextIndex + 1) {
        HandleNameInjective(i, shell.nextIndex + 1);
      }
    }
  }

  lemma AddedKeepsStream(shell: ShellState, log: seq<Event>, sync: Option<nat>, look: Handle -> Info)
    requires StreamInv(shell, log, sync)
    ensures var effect := SurfaceAdded(shell, look); StreamInv(effect.shell, log + effect.events, sync)
  {
    AddedKeepsValid(shell, look);
    var effect := SurfaceAdded(shell, look);
    NewHandleWasNotRemoved(shell, log);
    MoreUsed(shell, effect.shell, log);
    AddedDescribes(shell, effect.shell, log, sync, effect.events[0]);
  }

  /** A new window and the event that reports it. */
  lemma AddedDescribes(shell: ShellState, after: ShellState, log: seq<Event>, sync: Option<nat>, event: Event)
    requires Ascends(shell, log) && Describes(shell, log, sync) && RemovedForGood(after, log)
    requires event.ToplevelChanged? && event.toplevel.handle !in Replay(log).removed
    requires event.toplevel.revision == after.revision == shell.revision + 1
    requires Live(after.windows) == Live(shell.windows) + {event.toplevel.handle}
    ensures Ascends(after, log + [event]) && RemovedForGood(after, log + [event])
    ensures Describes(after, log + [event], sync) && Agrees(after, log + [event], sync)
  {
    AtEnd(shell, log);
    RemovedAppend(after, log, event);
    AscendsAppend(shell, after, log, event);
    ReplayAppend(log, event);
    AgreesAfterBump(shell, after, log, event, sync);
  }

  lemma RemovedKeepsStream(shell: ShellState, log: seq<Event>, sync: Option<nat>, handle: Handle)
    requires StreamInv(shell, log, sync)
    ensures var effect := SurfaceRemoved(shell, handle); StreamInv(effect.shell, log + effect.events, sync)
  {
    var effect := SurfaceRemoved(shell, handle);
    RemovedKeepsValid(shell, handle);
    if handle !in Live(shell.windows) {
      assert log + effect.events == log;
    } else {
      var refusal := Refusal(shell, handle);
      AppendAllHarmless(shell, log, sync, refusal);
      LiveIsUsed(shell, handle);
      assert (log + refusal) + [ToplevelRemoved(handle)] == log + effect.events;
      RemovedDescribes(shell, effect.shell, log + refusal, sync, handle);
    }
  }

  /** What precedes the report of a removal: the answer to a resize that waited for the window. */
  function Refusal(shell: ShellState, handle: Handle): (refusal: seq<Event>)
    ensures forall i :: 0 <= i < |refusal| ==> Harmless(shell, refusal[i])
    ensures handle in Live(shell.windows) ==>
      SurfaceRemoved(shell, handle).events == refusal + [ToplevelRemoved(handle)]
  {
    var request := RequestFor(shell.requests, handle);
    if request.Some? then [RequestFailed(request.value.id, WindowNotFound)] else []
  }

  /** A window gone and the event that reports it. */
  lemma RemovedDescribes(shell: ShellState, after: ShellState, log: seq<Event>, sync: Option<nat>, handle: Handle)
    requires Ascends(shell, log) && Describes(shell, log, sync) && RemovedForGood(shell, log)
    requires after.revision == shell.revision + 1 && after.nextIndex == shell.nextIndex && Used(handle, shell.nextIndex)
    requires Live(after.windows) == Live(shell.windows) - {handle}
    ensures var longer := log + [ToplevelRemoved(handle)];
      Ascends(after, longer) && RemovedForGood(after, longer) && Describes(after, longer, sync)
        && Agrees(after, longer, sync)
  {
    var event := ToplevelRemoved(handle);
    AtEnd(shell, log);
    MoreUsed(shell, after, log);
    RemovedAppend(after, log, event);
    AscendsAppend(shell, after, log, event);
    ReplayAppend(log, event);
    AgreesAfterBump(shell, after, log, event, sync);
  }

  lemma LiveIsUsed(shell: ShellState, handle: Handle)
    requires Valid(shell) && handle in Live(shell.windows)
    ensures Used(handle, shell.nextIndex)
  {
    var w :| w in shell.windows && w.handle == handle;
    assert handle == HandleName(w.index);
  }

  lemma CommittedKeepsStream(
      shell: ShellState, log: seq<Event>, sync: Option<nat>, handle: Handle, content: Size, look: Handle -> Info)
    requires StreamInv(shell, log, sync)
    ensures var effect := SurfaceCommitted(shell, handle, content, look);
      StreamInv(effect.shell, log + effect.events, sync)
  {
    CommittedKeepsValid(shell, handle, content, look);
    var effect := SurfaceCommitted(shell, handle, content, look);
    SameWindows(shell, effect.shell, log, sync);
    AppendAllHarmless(effect.shell, log, sync, effect.events);
  }

  lemma RestatedKeepsStream(shell: ShellState, log: seq<Event>, sync: Option<nat>, handle: Handle, look: Handle -> Info)
    requires StreamInv(shell, log, sync)
    ensures var effect := SurfaceRestated(shell, handle, look); StreamInv(effect.shell, log + effect.events, sync)
  {
    var effect := SurfaceRestated(shell, handle, look);
    SameWindows(shell, effect.shell, log, sync);
    AppendAllHarmless(effect.shell, log, sync, effect.events);
  }

  /** Where the stream becomes complete: at the end of the first snapshot the module answers. */
  function SyncAfter(sync: Option<nat>, request: Request, log: seq<Event>): Option<nat> {
    if sync.None? && request.Snapshot? then Some(|log|) else sync
  }

  lemma RequestKeepsStream(
      shell: ShellState, log: seq<Event>, sync: Option<nat>,
      request: Request, look: Handle -> Info, outOfMemory: bool, identityKnown: bool)
    requires StreamInv(shell, log, sync)
    ensures var effect := HandleRequest(shell, request, look, outOfMemory, identityKnown);
      var longer := log + effect.events;
      StreamInv(effect.shell, longer, SyncAfter(sync, request, longer))
  {
    var effect := HandleRequest(shell, request, look, outOfMemory, identityKnown);
    HandlersKeepValid(shell, request, look, outOfMemory, identityKnown);
    SameWindows(shell, effect.shell, log, sync);
    AnswerIsHarmless(shell, request, look, outOfMemory, identityKnown);
    AppendAllHarmless(effect.shell, log, sync, effect.events);
    if request.Snapshot? && sync.None? {
      FirstSnapshot(shell, log, request.id, look);
    }
  }

  lemma AnswerIsHarmless(
      shell: ShellState, request: Request, look: Handle -> Info, outOfMemory: bool, identityKnown: bool)
    ensures var effect := HandleRequest(shell, request, look, outOfMemory, identityKnown);
      && effect.shell.nextIndex >= shell.nextIndex && effect.shell.revision >= shell.revision
      && forall i :: 0 <= i < |effect.events| ==> Harmless(effect.shell, effect.events[i])
  {
    if request.Snapshot? {
      SnapshotIsHarmless(shell, request.id, look);
    }
  }

  lemma SnapshotIsHarmless(shell: ShellState, id: nat, look: Handle -> Info)
    ensures var events := HandleSnapshot(shell, id, look).events;
      forall i :: 0 <= i < |events| ==> Harmless(shell, events[i])
  {
    var listing := Listing(shell.windows, shell.revision, look);
    forall i | 0 <= i < |listing| ensures listing[i].handle in Live(shell.windows) {
      assert shell.windows[i] in shell.windows;
    }
  }

  /** After a snapshot every live window has been reported. */
  lemma FirstSnapshot(shell: ShellState, log: seq<Event>, id: nat, look: Handle -> Info)
    requires StreamInv(shell, log + HandleSnapshot(shell, id, look).events, None)
    ensures var longer := log + HandleSnapshot(shell, id, look).events; StreamInv(shell, longer, Some(|longer|))
  {
    var longer := log + HandleSnapshot(shell, id, look).events;
    SnapshotReportsAll(shell, log, id, look);
    SyncsAtEnd(shell, longer);
  }

  lemma SyncsAtEnd(shell: ShellState, log: seq<Event>)
    requires Describes(shell, log, None) && Replay(log).toplevels.Keys >= Live(shell.windows)
    ensures Describes(shell, log, Some(|log|)) && Agrees(shell, log, Some(|log|))
  {
    assert log[..|log|] == log;
    assert AgreesAt(shell, log, |log|);
  }

  lemma SnapshotReportsAll(shell: ShellState, log: seq<Event>, id: nat, look: Handle -> Info)
    ensures Replay(log + HandleSnapshot(shell, id, look).events).toplevels.Keys >= Live(shell.windows)
  {
    var listing := Listing(shell.windows, shell.revision, look);
    var begun := log + [SnapshotBegun(shell.revision)];
    var reported := begun + Announce(listing);
    assert log + HandleSnapshot(shell, id, look).events == reported + [RequestDone(id, shell.revision)];
    AnnouncedAll(begun, listing);
    ReplayAppend(reported, RequestDone(id, shell.revision));
    ListingHandles(shell.windows, shell.revision, look);
  }

  lemma {:induction false} AnnouncedAll(log: seq<Event>, listing: seq<Toplevel>)
    ensures Replay(log + Announce(listing)).toplevels.Keys == Replay(log).toplevels.Keys
      + (set t | t in listing :: t.handle)
  {
    if listing == [] {
      assert log + Announce(listing) == log;
    } else {
      var init, last := listing[..|listing| - 1], listing[|listing| - 1];
      AnnouncedAll(log, init);
      assert log + Announce(listing) == (log + Announce(init)) + [ToplevelChanged(last)];
      ReplayAppend(log + Announce(init), ToplevelChanged(last));
      assert listing == init + [last];
      assert (set t | t in listing :: t.handle) == (set t | t in init :: t.handle) + {last.handle};
    }
  }

  /** A collector that hears a whole snapshot holds that snapshot's listing and nothing else. */
  lemma CollectorHearsSnapshot(list: seq<Toplevel>, shell: ShellState, look: Handle -> Info)
    requires Valid(shell)
    ensures var listing := Listing(shell.windows, shell.revision, look);
      CollectAll(list, [SnapshotBegun(shell.revision)] + Announce(listing)) == listing
  {
    var listing := Listing(shell.windows, shell.revision, look);
    CollectAnnounced([], listing);
    assert [] + listing == listing;
    var events := [SnapshotBegun(shell.revision)] + Announce(listing);
    assert events[1..] == Announce(listing);
  }

  lemma {:induction false} CollectAnnounced(list: seq<Toplevel>, listing: seq<Toplevel>)
    requires forall i, j :: 0 <= i < j < |listing| ==> listing[i].handle != listing[j].handle
    requires forall i, j :: 0 <= i < |list| && 0 <= j < |listing| ==> list[i].handle != listing[j].handle
    ensures CollectAll(list, Announce(listing)) == list + listing
    decreases |listing|
  {
    if listing == [] {
      assert list + listing == list;
    } else {
      UpsertAt(list, listing[0], |list|);
      assert Announce(listing)[1..] == Announce(listing[1..]);
      CollectAnnounced(list + [listing[0]], listing[1..]);
      assert list + listing == (list + [listing[0]]) + listing[1..];
    }
  }

  /** Every cached window is no newer than the cache, and no window is both cached and removed. */
  lemma {:induction false} ReplayCoherent(shell: ShellState, log: seq<Event>, n: nat)
    requires Ascends(shell, log) && RemovedForGood(shell, log) && n <= |log|
    ensures var cache := Replay(log[..n]);
      && (forall h :: h in cache.toplevels ==>
        cache.toplevels[h].handle == h && cache.toplevels[h].revision <= cache.revision)
      && cache.toplevels.Keys !! cache.removed
  {
    if n > 0 {
      ReplayCoherent(shell, log, n - 1);
      ReplayStep(log, n - 1);
      assert Rises(log, n - 1) && RevivesNothing(log, n - 1);
    }
  }
}
