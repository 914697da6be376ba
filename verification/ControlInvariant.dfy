/** The invariant of the control system, and that every step keeps it. */
module ControlInvariant {
  import opened Protocol
  import opened CompositorShell
  import opened ControlClient
  import opened ControlLog
  import opened ControlSystem
  import opened ControlAnswers

  ghost predicate CacheInv(s: System) {
    s.seen <= |s.log| && s.client.cache == Replay(s.log[..s.seen])
  }

  ghost predicate CallsInv(s: System) {
    && (forall id :: id in s.client.pending ==> id in s.sent && s.client.pending[id] == CallOf(s.sent[id]))
    && (forall id :: id in s.client.collectors <==> id in s.sent && s.sent[id].Snapshot?)
  }

  /** What an outcome says about the request it answers. */
  ghost predicate OutcomeFits(s: System, d: Delivery) {
    && d.id in s.sent
    && match d.outcome
       case Completed(revision, resize) =>
         && revision <= s.client.cache.revision
         && (resize.Some? <==> s.sent[d.id].Resize?)
         && (resize.Some? ==>
              && resize.value.configured == resize.value.committed == s.sent[d.id].size
              && resize.value.revision == revision > s.sent[d.id].revision)
       case Refused(_) => !s.sent[d.id].Snapshot?
       case Disconnected => true
  }

  ghost predicate RepliesInv(s: System) {
    && (forall k :: 0 <= k < |s.replies| ==>
         OutcomeFits(s, s.replies[k].delivery) && s.replies[k].delivery.id !in s.client.pending)
    && (forall k, l :: 0 <= k < l < |s.replies| ==> s.replies[k].delivery.id != s.replies[l].delivery.id)
    && (s.finishing.Some? ==>
         0 < s.seen <= |s.log| && FinishOf(s.log[s.seen - 1]) == s.finishing && OutcomeFits(s, s.finishing.value))
  }

  ghost predicate OwnSize(s: System, id: nat, size: Size) {
    id in s.sent && s.sent[id].Resize? && (size == UNKNOWN_SIZE || size == s.sent[id].size)
  }

  ghost predicate ProgressInv(s: System) {
    && (forall id :: id in s.client.progress ==>
         OwnSize(s, id, s.client.progress[id].configured) && OwnSize(s, id, s.client.progress[id].committed))
    && (forall i :: 0 <= i < |s.timeouts| ==> OwnTimeout(s, s.timeouts[i]))
  }

  ghost predicate OwnTimeout(s: System, timeout: (nat, Timeout)) {
    var (id, report) := timeout;
    && OwnSize(s, id, report.configured) && OwnSize(s, id, report.committed)
    && report.requested == s.sent[id].size && report.handle == s.sent[id].handle
  }

  /** The cache already knows this window at this revision or later, or knows that it is gone. */
  ghost predicate Known(cache: Cache, t: Toplevel) {
    t.handle in cache.removed || (t.handle in cache.toplevels && cache.toplevels[t.handle].revision >= t.revision)
  }

  ghost predicate CollectedInv(s: System) {
    forall id, t :: id in s.client.collectors && t in s.client.collectors[id] ==> Known(s.client.cache, t)
  }

  /** A pending snapshot will hold, or holds, exactly what the module listed for it. */
  ghost predicate WillHold(s: System, id: nat)
    requires id in s.client.collectors && id in s.listed && s.listed[id].at < |s.log|
  {
    var listed := s.listed[id];
    if s.seen <= listed.at then CollectAll(s.client.collectors[id], s.log[s.seen..listed.at]) == listed.windows
    else
      && s.seen == listed.at + 1 && s.finishing.Some? && s.finishing.value.id == id
      && s.client.collectors[id] == listed.windows
  }

  /** A listing ends where its request is answered, at or after the first point the stream is complete. */
  ghost predicate EndsAt(log: seq<Event>, sync: Option<nat>, id: nat, at: nat) {
    && at < |log| && log[at].RequestDone? && log[at].id == id
    && sync.Some? && sync.value <= at + 1
  }

  ghost predicate ListedInv(s: System) {
    && (forall id :: id in s.listed ==>
         && id in s.served && id in s.sent && s.sent[id].Snapshot?
         && EndsAt(s.log, s.sync, id, s.listed[id].at))
    && (s.sync.Some? ==> s.sync.value <= |s.log|)
  }

  ghost predicate SnapshotInv(s: System)
    requires ListedInv(s) && CallsInv(s)
  {
    && (forall id :: id in s.client.pending && id in s.listed ==> WillHold(s, id))
    && (forall k :: 0 <= k < |s.replies| ==> HoldsListing(s, s.replies[k].delivery))
  }

  /** A completed snapshot holds exactly what the module listed for it. */
  ghost predicate HoldsListing(s: System, d: Delivery) {
    d.outcome.Completed? && d.id in s.sent && s.sent[d.id].Snapshot? ==>
      && d.id in s.listed && s.listed[d.id].at < s.seen
      && d.id in s.client.collectors && s.client.collectors[d.id] == s.listed[d.id].windows
  }

  /** What was shown with the module's present revision is what is live. */
  ghost predicate Shown(views: set<View>, shell: ShellState) {
    forall v :: v in views ==>
      v.revision <= shell.revision && (v.revision == shell.revision ==> v.handles == Live(shell.windows))
  }

  /** Every live handle was issued, each once and by a counter already passed. */
  ghost predicate Accounts(issued: seq<Handle>, shell: ShellState) {
    && (forall i :: 0 <= i < |issued| ==> Used(issued[i], shell.nextIndex))
    && (forall i, j :: 0 <= i < j < |issued| ==> issued[i] != issued[j])
    && (forall h :: h in Live(shell.windows) ==> h in issued)
  }

  ghost predicate ClientInv(s: System) {
    && CacheInv(s) && CallsInv(s) && RepliesInv(s) && ProgressInv(s) && CollectedInv(s)
    && ListedInv(s) && SnapshotInv(s)
  }

  ghost predicate Inv(s: System) {
    && StreamInv(s.shell, s.log, s.sync)
    && AnswerInv(s)
    && ClientInv(s)
    && Shown(s.views, s.shell)
    && Accounts(s.issued, s.shell)
  }

  lemma InitHolds(s: System)
    requires Init(s)
    ensures Inv(s)
  {
    assert s.log[..0] == [];
    forall h | h in Live(s.shell.windows) ensures h in s.issued {
      var i :| 0 <= i < |s.shell.windows| && s.shell.windows[i].handle == h;
      assert s.issued[i] == h;
    }
    forall i | 0 <= i < |s.issued| ensures Used(s.issued[i], s.shell.nextIndex) {
      assert s.shell.windows[i] in s.shell.windows;
      LiveIsUsed(s.shell, s.issued[i]);
    }
  }

  // ---------------------------------------------------------------- module steps

  lemma ModuleKeepsStream(s: System, step: Step)
    requires StreamInv(s.shell, s.log, s.sync) && Enabled(s, step) && ModuleStep(step)
    ensures StreamInv(Next(s, step).shell, Next(s, step).log, Next(s, step).sync)
  {
    match step
    case WindowAdded(viewCreated, look) =>
      if viewCreated {
        AddedKeepsStream(s.shell, s.log, s.sync, look);
      } else {
        assert s.log + [] == s.log;
        SameWindows(s.shell, SurfaceRefused(s.shell).shell, s.log, s.sync);
      }
    case WindowRemoved(handle) => RemovedKeepsStream(s.shell, s.log, s.sync, handle);
    case WindowCommitted(handle, content, look) => CommittedKeepsStream(s.shell, s.log, s.sync, handle, content, look);
    case WindowRestated(handle, look) => RestatedKeepsStream(s.shell, s.log, s.sync, handle, look);
    case Serve(look, outOfMemory, identityKnown) =>
      RequestKeepsStream(s.shell, s.log, s.sync, s.wire[0], look, outOfMemory, identityKnown);
  }

  /** The window list changes only together with the revision. */
  lemma ListMovesRevision(s: System, step: Step)
    requires Valid(s.shell) && Enabled(s, step) && ModuleStep(step)
    ensures var after := ModuleEffect(s, step).shell;
      && s.shell.revision <= after.revision
      && s.shell.nextIndex <= after.nextIndex
      && (after.revision == s.shell.revision ==> Live(after.windows) == Live(s.shell.windows))
      && (step.WindowAdded? || Live(after.windows) <= Live(s.shell.windows))
  {
    match step
    case WindowAdded(_, look) => AddedKeepsValid(s.shell, look);
    case WindowRemoved(handle) => RemovedKeepsValid(s.shell, handle);
    case WindowCommitted(_, _, _) =>
    case WindowRestated(_, _) =>
    case Serve(look, outOfMemory, identityKnown) =>
      HandlersKeepValid(s.shell, s.wire[0], look, outOfMemory, identityKnown);
      RevisionNeverFalls(s.shell, s.wire[0], look, outOfMemory, identityKnown);
  }

  lemma RevisionNeverFalls(
      shell: ShellState, request: Request, look: Handle -> Info, outOfMemory: bool, identityKnown: bool)
    ensures HandleRequest(shell, request, look, outOfMemory, identityKnown).shell.revision >= shell.revision
  {
  }

  lemma UsedStays(handle: Handle, before: nat, after: nat)
    requires Used(handle, before) && before <= after
    ensures Used(handle, after)
  {
    var i :| 0 <= i <= before && handle == HandleName(i);
  }

  lemma IssuedStay(issued: seq<Handle>, shell: ShellState, after: ShellState)
    requires Accounts(issued, shell) && shell.nextIndex <= after.nextIndex && Live(after.windows) <= Live(shell.windows)
    ensures Accounts(issued, after)
  {
    forall i | 0 <= i < |issued| ensures Used(issued[i], after.nextIndex) {
      UsedStays(issued[i], shell.nextIndex, after.nextIndex);
    }
  }

  /** The next counter's handle was never issued before. */
  lemma IssuedGrow(issued: seq<Handle>, shell: ShellState, after: ShellState)
    requires Accounts(issued, shell) && after.nextIndex == shell.nextIndex + 1
    requires Live(after.windows) <= Live(shell.windows) + {HandleName(after.nextIndex)}
    ensures Accounts(issued + [HandleName(after.nextIndex)], after)
  {
    var handle := HandleName(after.nextIndex);
    assert Used(handle, after.nextIndex);
    forall i | 0 <= i < |issued| ensures Used(issued[i], after.nextIndex) && issued[i] != handle {
      UsedStays(issued[i], shell.nextIndex, after.nextIndex);
      var k :| 0 <= k <= shell.nextIndex && issued[i] == HandleName(k);
      if issued[i] == handle {
        HandleNameInjective(k, after.nextIndex);
      }
    }
    assert (issued + [handle])[|issued|] == handle;
  }

  lemma ModuleKeepsIssued(s: System, step: Step)
    requires Valid(s.shell) && Accounts(s.issued, s.shell) && Enabled(s, step) && ModuleStep(step)
    ensures Accounts(Next(s, step).issued, Next(s, step).shell)
  {
    if step.WindowAdded? {
      AddedKeepsValid(s.shell, step.look);
      IssuedGrow(s.issued, s.shell, ModuleEffect(s, step).shell);
    } else {
      ListMovesRevision(s, step);
      IssuedStay(s.issued, s.shell, ModuleEffect(s, step).shell);
    }
  }

  lemma ModuleKeepsShown(s: System, step: Step)
    requires Valid(s.shell) && Shown(s.views, s.shell) && Enabled(s, step) && ModuleStep(step)
    ensures Shown(Next(s, step).views, Next(s, step).shell)
  {
    ListMovesRevision(s, step);
  }

  /** The stream got longer; everything the client has or will hear of it before is the same. */
  lemma LongerStream(s: System, t: System)
    requires ClientInv(s) && s.log <= t.log && t.seen == s.seen && t.client == s.client
    requires t.finishing == s.finishing && t.replies == s.replies && t.timeouts == s.timeouts && t.sent == s.sent
    ensures CacheInv(t) && CallsInv(t) && RepliesInv(t) && ProgressInv(t) && CollectedInv(t)
    ensures forall id :: id in s.client.pending && id in s.listed && id in t.listed && t.listed[id] == s.listed[id] ==>
      WillHold(t, id)
  {
    assert t.log[..s.seen] == s.log[..s.seen];
    forall k | 0 <= k < |t.replies| ensures OutcomeFits(t, t.replies[k].delivery) {
      assert OutcomeFits(s, s.replies[k].delivery);
    }
    forall id | id in s.client.pending && id in s.listed && id in t.listed && t.listed[id] == s.listed[id]
      ensures WillHold(t, id)
    {
      assert WillHold(s, id);
      var at := s.listed[id].at;
      if s.seen <= at {
        assert t.log[s.seen..at] == s.log[s.seen..at];
      }
    }
  }

  /** The stream got longer and the listings stayed. */
  lemma ListedStay(s: System, t: System)
    requires ListedInv(s) && s.log <= t.log && s.served <= t.served
    requires t.sent == s.sent && t.listed == s.listed
    requires t.sync == s.sync || (s.sync.None? && t.sync == Some(|t.log|))
    ensures ListedInv(t)
  {
    forall id | id in s.listed ensures EndsAt(t.log, t.sync, id, t.listed[id].at) {
      assert EndsAt(s.log, s.sync, id, s.listed[id].at);
    }
  }

  /** A snapshot was answered, at the end of the stream. */
  lemma ListedGrow(s: System, t: System, id: nat, entry: Listed)
    requires ListedInv(s) && s.log < t.log && id in s.sent && s.sent[id].Snapshot?
    requires t.served == s.served + {id} && t.sent == s.sent && t.listed == s.listed[id := entry]
    requires t.sync == if s.sync.None? then Some(|t.log|) else s.sync
    requires entry.at == |t.log| - 1 && t.log[entry.at].RequestDone? && t.log[entry.at].id == id
    ensures ListedInv(t)
  {
    ListedStay(s, t.(listed := s.listed));
  }

  lemma ModuleKeepsListed(s: System, step: Step)
    requires ListedInv(s) && WireInv(s) && Enabled(s, step) && ModuleStep(step)
    ensures ListedInv(Next(s, step))
    ensures forall id :: id in s.listed ==> id in Next(s, step).listed && Next(s, step).listed[id] == s.listed[id]
  {
    var t := Next(s, step);
    if step.Serve? && s.wire[0].Snapshot? {
      var id := s.wire[0].id;
      assert id !in s.served && s.sent[id] == s.wire[0];
      ListedGrow(s, t, id, t.listed[id]);
    } else {
      ListedStay(s, t);
    }
  }

  lemma ModuleKeepsClient(s: System, step: Step)
    requires Valid(s.shell) && WireInv(s) && ClientInv(s) && Enabled(s, step) && ModuleStep(step)
    ensures ClientInv(Next(s, step))
  {
    var t := Next(s, step);
    LongerStream(s, t);
    ModuleKeepsListed(s, step);
    forall id | id in t.client.pending && id in t.listed ensures WillHold(t, id) {
      if id !in s.listed {
        ServedSnapshotHolds(s, step);
      }
    }
    forall k | 0 <= k < |t.replies| ensures HoldsListing(t, t.replies[k].delivery) {
      assert HoldsListing(s, s.replies[k].delivery);
    }
  }

  lemma ServedSnapshotHolds(s: System, step: Step)
    requires Valid(s.shell) && s.seen <= |s.log| && Enabled(s, step) && step.Serve? && s.wire[0].Snapshot?
    ensures var t := ServeNext(s, step); var id := s.wire[0].id;
      && id in t.listed && t.listed[id].at == |t.log| - 1 && s.seen <= t.listed[id].at
      && (id in t.client.collectors ==>
           CollectAll(t.client.collectors[id], t.log[t.seen..t.listed[id].at]) == t.listed[id].windows)
  {
    var t := ServeNext(s, step);
    var id := s.wire[0].id;
    var listing := Listing(s.shell.windows, s.shell.revision, step.look);
    var middle := [SnapshotBegun(s.shell.revision)] + Announce(listing);
    assert t.log == (s.log + middle) + [RequestDone(id, s.shell.revision)];
    assert t.log[s.seen..|t.log| - 1] == s.log[s.seen..] + middle;
    if id in t.client.collectors {
      var list := t.client.collectors[id];
      CollectSplit(list, s.log[s.seen..], middle);
      CollectorHearsSnapshot(CollectAll(list, s.log[s.seen..]), s.shell, step.look);
    }
  }

  lemma ModuleKeepsInv(s: System, step: Step)
    requires Inv(s) && Enabled(s, step) && ModuleStep(step)
    ensures Inv(Next(s, step))
  {
    ModuleKeepsStream(s, step);
    StepKeepsAnswers(s, step);
    ModuleKeepsClient(s, step);
    ModuleKeepsIssued(s, step);
    ModuleKeepsShown(s, step);
  }

  // ---------------------------------------------------------------- client steps

  /** A cache that moved on: later revision, nothing forgotten. */
  ghost predicate Later(before: Cache, after: Cache) {
    && before.revision <= after.revision
    && (forall t :: Known(before, t) ==> Known(after, t))
  }

  lemma DeliverIsLater(s: System)
    requires StreamInv(s.shell, s.log, s.sync) && CacheInv(s) && Enabled(s, Deliver)
    ensures var after := Observe(s.client, s.log[s.seen]).cache;
      && after == Replay(s.log[..s.seen + 1])
      && Later(s.client.cache, after)
  {
    ReplayStep(s.log, s.seen);
    ReplayCoherent(s.shell, s.log, s.seen);
    assert Rises(s.log, s.seen);
  }

  lemma DeliverKeepsCollected(s: System)
    requires CollectedInv(s) && Enabled(s, Deliver)
    requires Later(s.client.cache, Next(s, Deliver).client.cache)
    ensures CollectedInv(Next(s, Deliver))
  {
    var t := Next(s, Deliver);
    var event := s.log[s.seen];
    forall id, w | id in t.client.collectors && w in t.client.collectors[id] ensures Known(t.client.cache, w) {
      var list := s.client.collectors[id];
      CollectedFrom(list, event);
      assert w in list || (event.ToplevelChanged? && w == event.toplevel);
      if w in list {
        assert Known(s.client.cache, w);
      }
    }
  }

  lemma {:induction false} CollectedFrom(list: seq<Toplevel>, event: Event)
    ensures forall w :: w in Collect(list, event) ==> w in list || (event.ToplevelChanged? && w == event.toplevel)
    decreases |list|
  {
    if list != [] {
      var tail := list[1..];
      CollectedFrom(tail, event);
      assert list == [list[0]] + tail;
      assert forall w :: w in tail ==> w in list;
    }
  }

  /** What an outcome says stays true as the client's revision rises and requests are added. */
  lemma OutcomeStillFits(s: System, t: System, d: Delivery)
    requires OutcomeFits(s, d) && s.client.cache.revision <= t.client.cache.revision
    requires d.id in t.sent && t.sent[d.id] == s.sent[d.id]
    ensures OutcomeFits(t, d)
  {
  }

  lemma DeliverKeepsReplies(s: System)
    requires RepliesInv(s) && Enabled(s, Deliver) && Fits(s, s.seen)
    requires s.client.cache.revision <= Next(s, Deliver).client.cache.revision
    ensures RepliesInv(Next(s, Deliver))
  {
    var t := Next(s, Deliver);
    forall k | 0 <= k < |t.replies| ensures OutcomeFits(t, t.replies[k].delivery) {
      OutcomeStillFits(s, t, s.replies[k].delivery);
    }
  }

  lemma DeliverKeepsProgress(s: System)
    requires ProgressInv(s) && Enabled(s, Deliver) && Fits(s, s.seen)
    ensures ProgressInv(Next(s, Deliver))
  {
    var t := Next(s, Deliver);
    forall id, size | OwnSize(s, id, size) ensures OwnSize(t, id, size) {
    }
    TimeoutsStay(s, t);
  }

  lemma TimeoutsStay(s: System, t: System)
    requires ProgressInv(s) && t.timeouts == s.timeouts
    requires forall id :: id in s.sent ==> id in t.sent && t.sent[id] == s.sent[id]
    ensures forall i :: 0 <= i < |t.timeouts| ==> OwnTimeout(t, t.timeouts[i])
  {
    forall i | 0 <= i < |t.timeouts| ensures OwnTimeout(t, t.timeouts[i]) {
      assert OwnTimeout(s, s.timeouts[i]);
    }
  }

  lemma DeliverKeepsSnapshots(s: System)
    requires CacheInv(s) && CallsInv(s) && RepliesInv(s) && ListedInv(s) && SnapshotInv(s) && Enabled(s, Deliver)
    ensures ListedInv(Next(s, Deliver)) && CallsInv(Next(s, Deliver)) && SnapshotInv(Next(s, Deliver))
  {
    var t := Next(s, Deliver);
    var event := s.log[s.seen];
    forall id | id in t.client.pending && id in t.listed ensures WillHold(t, id) {
      assert WillHold(s, id);
      var at := s.listed[id].at;
      assert s.client.pending[id].snapshot;
      if s.seen < at {
        assert s.log[s.seen..at][0] == event && s.log[s.seen..at][1..] == s.log[s.seen + 1..at];
      } else {
        assert s.log[s.seen..at] == [];
      }
    }
    forall k | 0 <= k < |t.replies| ensures HoldsListing(t, t.replies[k].delivery) {
      assert HoldsListing(s, s.replies[k].delivery);
    }
  }

  lemma DeliverKeepsInv(s: System)
    requires Inv(s) && Enabled(s, Deliver)
    ensures Inv(Next(s, Deliver))
  {
    StepKeepsAnswers(s, Deliver);
    DeliverIsLater(s);
    DeliverKeepsCollected(s);
    assert Fits(s, s.seen);
    DeliverKeepsReplies(s);
    DeliverKeepsProgress(s);
    DeliverKeepsSnapshots(s);
    ClientOnly(s, Next(s, Deliver));
  }

  /** A step that leaves the module, the stream and what was shown alone has only the client's part to keep. */
  lemma ClientOnly(s: System, t: System)
    requires Inv(s) && AnswerInv(t) && ClientInv(t)
    requires t.shell == s.shell && t.log == s.log && t.sync == s.sync && t.issued == s.issued
    requires t.views == s.views || Shown(t.views, t.shell)
    ensures Inv(t)
  {
  }

  /** A pending snapshot whose answer is not the one just finished. */
  ghost predicate StillAwaited(s: System, t: System, id: nat) {
    && id in s.client.pending && id in s.listed
    && (t.finishing == s.finishing || s.finishing.None? || s.finishing.value.id != id)
  }

  /** The stream stood still and no collector changed: what outcomes and pending snapshots say stays true. */
  lemma StillStream(s: System, t: System)
    requires CacheInv(s) && CallsInv(s) && RepliesInv(s) && ListedInv(s) && SnapshotInv(s)
    requires t.log == s.log && t.seen == s.seen && t.listed == s.listed && t.served == s.served && t.sync == s.sync
    requires t.client.cache == s.client.cache
    requires forall id :: id in s.sent ==> id in t.sent && t.sent[id] == s.sent[id]
    requires forall id :: id in s.client.collectors ==>
      id in t.client.collectors && t.client.collectors[id] == s.client.collectors[id]
    ensures CacheInv(t) && ListedInv(t)
    ensures forall k :: 0 <= k < |s.replies| ==>
      OutcomeFits(t, s.replies[k].delivery) && HoldsListing(t, s.replies[k].delivery)
    ensures forall id :: StillAwaited(s, t, id) ==> WillHold(t, id)
    ensures t.finishing == s.finishing && t.finishing.Some? ==> OutcomeFits(t, t.finishing.value)
  {
    forall k | 0 <= k < |s.replies|
      ensures OutcomeFits(t, s.replies[k].delivery) && HoldsListing(t, s.replies[k].delivery)
    {
      assert OutcomeFits(s, s.replies[k].delivery) && HoldsListing(s, s.replies[k].delivery);
    }
    forall id | StillAwaited(s, t, id) ensures WillHold(t, id) {
      assert WillHold(s, id);
    }
  }

  /** An answer that finishes a pending snapshot finds its collector complete. */
  lemma FinishHoldsListing(s: System)
    requires CallsInv(s) && RepliesInv(s) && ListedInv(s) && SnapshotInv(s) && Enabled(s, Finish)
    requires s.finishing.value.id in s.client.pending && Fits(s, s.seen - 1)
    ensures HoldsListing(s, s.finishing.value)
  {
    var d := s.finishing.value;
    if d.id in s.listed {
      assert WillHold(s, d.id);
    }
  }

  lemma FinishKeepsReplies(s: System)
    requires RepliesInv(s) && Enabled(s, Finish)
    ensures RepliesInv(Next(s, Finish))
  {
    var t := Next(s, Finish);
    forall k | 0 <= k < |t.replies| ensures OutcomeFits(t, t.replies[k].delivery) {
      OutcomeStillFits(s, t, if k < |s.replies| then s.replies[k].delivery else s.finishing.value);
    }
  }

  lemma FinishKeepsSnapshots(s: System)
    requires CacheInv(s) && CallsInv(s) && RepliesInv(s) && ListedInv(s) && SnapshotInv(s) && Enabled(s, Finish)
    requires Fits(s, s.seen - 1)
    ensures CacheInv(Next(s, Finish)) && CallsInv(Next(s, Finish))
    ensures ListedInv(Next(s, Finish)) && SnapshotInv(Next(s, Finish))
  {
    var t := Next(s, Finish);
    var d := s.finishing.value;
    StillStream(s, t);
    if d.id in s.client.pending {
      FinishHoldsListing(s);
    }
    forall k | 0 <= k < |t.replies| ensures HoldsListing(t, t.replies[k].delivery) {
      assert t.replies[k].delivery == if k < |s.replies| then s.replies[k].delivery else d;
    }
    forall id | id in t.client.pending && id in t.listed ensures WillHold(t, id) {
      assert StillAwaited(s, t, id);
    }
  }

  lemma FinishKeepsProgress(s: System)
    requires ProgressInv(s) && Enabled(s, Finish)
    ensures ProgressInv(Next(s, Finish))
  {
    TimeoutsStay(s, Next(s, Finish));
  }

  lemma FinishKeepsInv(s: System)
    requires Inv(s) && Enabled(s, Finish)
    ensures Inv(Next(s, Finish))
  {
    StepKeepsAnswers(s, Finish);
    assert Fits(s, s.seen - 1);
    FinishKeepsReplies(s);
    FinishKeepsSnapshots(s);
    FinishKeepsProgress(s);
    ClientOnly(s, Next(s, Finish));
  }

  lemma FailKeepsReplies(s: System, order: seq<nat>)
    requires CallsInv(s) && RepliesInv(s) && Enabled(s, Fail(order))
    ensures RepliesInv(Next(s, Fail(order)))
  {
    var t := Next(s, Fail(order));
    forall k | 0 <= k < |t.replies| ensures OutcomeFits(t, t.replies[k].delivery) {
      if k < |s.replies| {
        OutcomeStillFits(s, t, s.replies[k].delivery);
      } else {
        assert order[k - |s.replies|] in order;
      }
    }
    forall k, l | 0 <= k < l < |t.replies| ensures t.replies[k].delivery.id != t.replies[l].delivery.id {
      if l >= |s.replies| {
        assert order[l - |s.replies|] in s.client.pending;
      }
    }
    if t.finishing.Some? {
      OutcomeStillFits(s, t, t.finishing.value);
    }
  }

  lemma FailKeepsClient(s: System, order: seq<nat>)
    requires ClientInv(s) && Enabled(s, Fail(order))
    ensures ClientInv(Next(s, Fail(order)))
  {
    var t := Next(s, Fail(order));
    FailKeepsReplies(s, order);
    StillStream(s, t);
    TimeoutsStay(s, t);
    forall k | 0 <= k < |t.replies| ensures HoldsListing(t, t.replies[k].delivery) {
      assert k < |s.replies| ==> t.replies[k].delivery == s.replies[k].delivery;
    }
  }

  lemma FailKeepsInv(s: System, order: seq<nat>)
    requires Inv(s) && Enabled(s, Fail(order))
    ensures Inv(Next(s, Fail(order)))
  {
    StepKeepsAnswers(s, Fail(order));
    FailKeepsClient(s, order);
    ClientOnly(s, Next(s, Fail(order)));
  }

  lemma BeginKeepsClient(s: System, t: System, request: Request)
    requires ClientInv(s) && AnswerInv(s) && request.id == s.client.nextId + 1
    requires t == s.(client := Register(s.client, request), sent := s.sent[request.id := request], views := t.views)
    ensures CallsInv(t) && ProgressInv(t) && CollectedInv(t)
    ensures forall k :: 0 <= k < |s.replies| ==> s.replies[k].delivery.id != request.id
    ensures s.finishing.Some? ==> s.finishing.value.id != request.id
  {
    assert request.id !in s.sent;
    forall k | 0 <= k < |s.replies| ensures s.replies[k].delivery.id in s.sent {
      assert OutcomeFits(s, s.replies[k].delivery);
    }
    BeginKeepsProgress(s, t, request);
  }

  lemma BeginKeepsProgress(s: System, t: System, request: Request)
    requires ProgressInv(s) && request.id !in s.sent
    requires t == s.(client := Register(s.client, request), sent := s.sent[request.id := request], views := t.views)
    ensures ProgressInv(t)
  {
    forall id, size | OwnSize(s, id, size) ensures OwnSize(t, id, size) {
    }
    TimeoutsStay(s, t);
  }

  lemma BeginKeepsInv(s: System, step: Step)
    requires Inv(s) && Enabled(s, step) && step.Begin?
    ensures Inv(Next(s, step))
  {
    var t := Next(s, step);
    StepKeepsAnswers(s, step);
    ShowKeepsViews(s, s.client.cache.revision);
    assert t.views == Show(s, s.client.cache.revision).views;
    BeginKeepsClient(s, t, step.request);
    BeginKeepsReplies(s, t, step.request);
    ClientOnly(s, t);
  }

  lemma BeginKeepsReplies(s: System, t: System, request: Request)
    requires ClientInv(s) && AnswerInv(s) && request.id == s.client.nextId + 1
    requires t == s.(client := Register(s.client, request), sent := s.sent[request.id := request], views := t.views)
    requires CallsInv(t)
    requires forall k :: 0 <= k < |s.replies| ==> s.replies[k].delivery.id != request.id
    requires s.finishing.Some? ==> s.finishing.value.id != request.id
    ensures CacheInv(t) && ListedInv(t) && RepliesInv(t) && SnapshotInv(t)
  {
    assert request.id !in s.sent && request.id !in s.listed;
    StillStream(s, t);
    forall id | id in t.client.pending && id in t.listed ensures WillHold(t, id) {
      assert StillAwaited(s, t, id);
    }
  }

  /** What the client shows with a revision it has reached is exact whenever that revision is still the module's. */
  lemma ShowKeepsViews(s: System, revision: nat)
    requires StreamInv(s.shell, s.log, s.sync) && CacheInv(s) && Shown(s.views, s.shell)
    requires revision <= s.client.cache.revision
    ensures Shown(Show(s, revision).views, s.shell)
  {
    assert Within(s.shell, s.log, s.seen);
    assert Synced(s) ==> AgreesAt(s.shell, s.log, s.seen);
  }

  lemma StageKeepsClient(s: System, t: System)
    requires ClientInv(s) && AnswerInv(s) && t == s.(replies := t.replies)
    requires |t.replies| == |s.replies|
    requires forall k :: 0 <= k < |t.replies| ==> t.replies[k].delivery == s.replies[k].delivery
    ensures ClientInv(t)
  {
    StillStream(s, t);
    TimeoutsStay(s, t);
    forall id | id in t.client.pending && id in t.listed ensures WillHold(t, id) {
      assert StillAwaited(s, t, id);
    }
  }

  lemma StageKeepsInv(s: System, step: Step)
    requires Inv(s) && Enabled(s, step) && (step.Transmit? || step.Receive?)
    ensures Inv(Next(s, step))
  {
    StepKeepsAnswers(s, step);
    StageKeepsClient(s, Next(s, step));
    ClientOnly(s, Next(s, step));
  }

  lemma QuietKeepsInv(s: System, step: Step)
    requires Inv(s) && Enabled(s, step) && (step.Write? || step.GiveUp? || step.Report?)
    ensures Inv(Next(s, step))
  {
    StepKeepsAnswers(s, step);
    QuietKeepsClient(s, step);
    ClientOnly(s, Next(s, step));
  }

  /** A write touches nothing of the client; giving up drops a call, and a report drops its sizes. */
  lemma QuietKeepsClient(s: System, step: Step)
    requires ClientInv(s) && Enabled(s, step) && (step.Write? || step.GiveUp? || step.Report?)
    ensures ClientInv(Next(s, step))
  {
    var t := Next(s, step);
    StillStream(s, t);
    forall id | id in t.client.pending && id in t.listed ensures WillHold(t, id) {
      assert StillAwaited(s, t, id);
    }
    if step.Report? {
      ReportKeepsProgress(s, step.id);
    } else {
      TimeoutsStay(s, t);
    }
  }

  lemma ReportKeepsProgress(s: System, id: nat)
    requires ProgressInv(s) && Enabled(s, Report(id))
    ensures ProgressInv(Next(s, Report(id)))
  {
    var t := Next(s, Report(id));
    TimeoutsStay(s, t.(timeouts := s.timeouts));
    forall i | 0 <= i < |t.timeouts| ensures OwnTimeout(t, t.timeouts[i]) {
      assert i < |s.timeouts| ==> OwnTimeout(s, s.timeouts[i]);
    }
  }

  lemma {:induction false} MergeOfKnown(cached: map<Handle, Toplevel>, removed: set<Handle>, listing: seq<Toplevel>)
    requires forall t :: t in listing ==>
      t.handle in removed || (t.handle in cached && cached[t.handle].revision >= t.revision)
    ensures Merged(cached, removed, listing) == cached
    decreases |listing|
  {
    if listing != [] {
      MergeOfKnown(cached, removed, listing[1..]);
    }
  }

  /** Merging a completed snapshot into the cache changes nothing. */
  lemma MergeIsIdle(s: System, k: nat)
    requires Inv(s) && Enabled(s, Merge(k))
    ensures var cache := s.client.cache;
      Merged(cache.toplevels, cache.removed, s.client.collectors[s.replies[k].delivery.id]) == cache.toplevels
  {
    var list := s.client.collectors[s.replies[k].delivery.id];
    assert forall t :: t in list ==> Known(s.client.cache, t);
    MergeOfKnown(s.client.cache.toplevels, s.client.cache.removed, list);
  }

  lemma MergeKeepsInv(s: System, k: nat)
    requires Inv(s) && Enabled(s, Merge(k))
    ensures Inv(Next(s, Merge(k)))
  {
    var revision := s.replies[k].delivery.outcome.revision;
    MergeIsIdle(s, k);
    assert OutcomeFits(s, s.replies[k].delivery);
    assert Next(s, Merge(k)) == Show(s, revision);
    ShowKeepsInv(s, revision);
  }

  /** Showing what is cached, with a revision the client has reached, changes only what was shown. */
  lemma ShowKeepsInv(s: System, revision: nat)
    requires Inv(s) && revision <= s.client.cache.revision
    ensures Inv(Show(s, revision))
  {
    var t := Show(s, revision);
    ShowKeepsViews(s, revision);
    ViewsAreApart(s, t);
    OnlyViews(s, t);
    ClientOnly(s, t);
  }

  lemma ViewsAreApart(s: System, t: System)
    requires AnswerInv(s) && t == s.(views := t.views)
    ensures AnswerInv(t)
  {
    forall n | 0 <= n < |t.log| ensures Fits(t, n) {
      assert Fits(s, n);
    }
  }

  lemma OnlyViews(s: System, t: System)
    requires ClientInv(s) && t == s.(views := t.views)
    ensures ClientInv(t)
  {
    forall k | 0 <= k < |t.replies|
      ensures OutcomeFits(t, t.replies[k].delivery) && HoldsListing(t, t.replies[k].delivery)
    {
      assert OutcomeFits(s, s.replies[k].delivery) && HoldsListing(s, s.replies[k].delivery);
    }
    forall id | id in t.client.pending && id in t.listed ensures WillHold(t, id) {
      assert WillHold(s, id);
    }
  }

  lemma StepKeepsInv(s: System, step: Step)
    requires Inv(s) && Enabled(s, step)
    ensures Inv(Next(s, step))
  {
    match step
    case Deliver => DeliverKeepsInv(s);
    case Finish => FinishKeepsInv(s);
    case Fail(order) => FailKeepsInv(s, order);
    case Begin(_) => BeginKeepsInv(s, step);
    case Transmit(_) => StageKeepsInv(s, step);
    case Receive(_) => StageKeepsInv(s, step);
    case Write(_) => QuietKeepsInv(s, step);
    case GiveUp(_) => QuietKeepsInv(s, step);
    case Report(_) => QuietKeepsInv(s, step);
    case Merge(k) => MergeKeepsInv(s, k);
    case Read => ShowKeepsInv(s, s.client.cache.revision);
    case _ => ModuleKeepsInv(s, step);
  }

  lemma {:induction false} RunKeepsInv(s: System, steps: seq<Step>)
    requires Inv(s) && IsRun(s, steps)
    ensures Inv(After(s, steps))
    decreases |steps|
  {
    if steps != [] {
      StepKeepsInv(s, steps[0]);
      RunKeepsInv(Next(s, steps[0]), steps[1..]);
    }
  }
}
