/** A bounded series of captures on absolute deadlines. Times are nanoseconds from the start of the burst. */
module Burst {
  import opened Arithmetic
  import opened Protocol
  import Text

  type Bytes = seq<bv8>

  datatype Frame = Frame(path: string, requestId: nat, sequence: nat, digest: Option<Bytes>, revision: nat)

  /** What one call of the capturer does; a digest that does not parse is None. */
  datatype Answer = Captured(frame: Frame) | CaptureFailed | ContextEnded

  datatype Fetch = Fetched(payload: Bytes) | FetchFailed | FetchEnded

  /**
   What the world does for one scheduled sample that is issued: how the wait for its deadline ends, the clock
   readings when it is asked for, when it is stored and after it, and the answers of the three collaborators.
   */
  datatype Issue = Issue(
    cancelled: bool, requested: int, completed: int, elapsed: int,
    answer: Answer, fetch: Fetch, stored: Option<string>)

  datatype Plan = Plan(interval: int, duration: int, maxFrames: int, prefix: string, contactSheet: bool, bytes: int)

  datatype Status = StatusCaptured | StatusDeduplicated | StatusMissed | StatusFailed

  datatype Sample = Sample(
    scheduled: int, requested: int, completed: int,
    requestId: nat, frameSeq: nat, digest: Bytes, status: Status, path: string, revision: nat)

  /** The last stored frame: its digest and where it went. */
  datatype Kept = Kept(digest: Bytes, path: string)

  datatype BurstState = BurstState(storedBytes: int, kept: Option<Kept>)

  /** One sample's outcome and the state that follows it; Ended is the context's error, which ends the burst. */
  datatype Sampled = Sampled(sample: Sample, state: BurstState, truncated: bool) | Ended

  datatype Outcome = Finished | Refused | ContextDone | SheetFailed | ManifestFailed

  datatype Report = Report(
    frames: seq<Sample>, captured: nat, deduplicated: nat, missed: nat, failed: nat,
    bytes: int, truncated: bool, outcome: Outcome)

  datatype Write = Write(name: string, data: Bytes)

  const MILLISECOND := 1_000_000
  const DEFAULT_INTERVAL := 100 * MILLISECOND
  const DEFAULT_DURATION := 2000 * MILLISECOND
  const DEFAULT_MAX_FRAMES := 25
  const MIN_INTERVAL := 16 * MILLISECOND
  const MAX_DURATION := 60_000 * MILLISECOND
  const MAX_FRAMES := 120
  const MAX_BURST_BYTES := 256 * 1024 * 1024
  const MANIFEST_NAME := "manifest.json"
  const SHEET_NAME := "contact.png"

  /** burstSettings: defaults for what is absent, refusal of what is out of bounds. */
  function Settings(plan: Plan): (r: Option<Plan>)
    ensures r.Some? ==> Deliverable(r.value) && r.value.contactSheet == plan.contactSheet
    ensures r.Some? ==> r.value.interval == if plan.interval != 0 then plan.interval else DEFAULT_INTERVAL
    ensures r.Some? ==> r.value.duration == if plan.duration != 0 then plan.duration else DEFAULT_DURATION
    ensures r.Some? ==> r.value.maxFrames == if plan.maxFrames != 0 then plan.maxFrames else DEFAULT_MAX_FRAMES
    ensures r.Some? ==> r.value.prefix == if plan.prefix != "" then plan.prefix else "frame"
    ensures r.Some? ==> r.value.bytes == if plan.bytes > 0 then plan.bytes else MAX_BURST_BYTES
    ensures r.None? <==>
      || plan.interval < 0 || plan.duration < 0 || plan.maxFrames < 0
      || 0 < plan.interval < MIN_INTERVAL || plan.duration > MAX_DURATION || plan.maxFrames > MAX_FRAMES
  {
    if plan.interval < 0 || plan.duration < 0 || plan.maxFrames < 0 then None
    else if plan.interval != 0 && plan.interval < MIN_INTERVAL then None
    else if plan.duration > MAX_DURATION || plan.maxFrames > MAX_FRAMES then None
    else Some(Plan(
      if plan.interval == 0 then DEFAULT_INTERVAL else plan.interval,
      if plan.duration == 0 then DEFAULT_DURATION else plan.duration,
      if plan.maxFrames == 0 then DEFAULT_MAX_FRAMES else plan.maxFrames,
      if plan.prefix == "" then "frame" else plan.prefix,
      plan.contactSheet,
      if plan.bytes <= 0 then MAX_BURST_BYTES else plan.bytes))
  }

  predicate Deliverable(plan: Plan) {
    && MIN_INTERVAL <= plan.interval && 0 < plan.duration <= MAX_DURATION && 0 < plan.maxFrames <= MAX_FRAMES
    && plan.prefix != "" && plan.bytes > 0
  }

  /** How many samples a plan schedules: the frame cap or the duration divided by the interval, rounded up. */
  function Total(plan: Plan): int
    requires Deliverable(plan)
  {
    Min(plan.maxFrames, CeilDiv(plan.duration, plan.interval))
  }

  /** burstFrameCount: the frame cap or the duration, whichever is reached first. */
  method FrameCount(plan: Plan) returns (count: nat)
    requires Deliverable(plan)
    ensures 0 < count == Total(plan)
    ensures count <= plan.maxFrames && (count - 1) * plan.interval < plan.duration
    ensures count < plan.maxFrames ==> plan.duration <= count * plan.interval
  {
    count := 0;
    CeilDivMeaning(plan.duration, plan.interval, 0);
    while count < plan.maxFrames && count * plan.interval < plan.duration
      invariant count <= plan.maxFrames && count <= CeilDiv(plan.duration, plan.interval)
    {
      CeilDivMeaning(plan.duration, plan.interval, count);
      count := count + 1;
    }
    CeilDivMeaning(plan.duration, plan.interval, count);
    CeilDivMeaning(plan.duration, plan.interval, count - 1);
  }

  function FrameName(prefix: string, index: nat): string {
    prefix + "-" + Text.Padded(index + 1, 4) + ".png"
  }

  lemma MiddleDetermined(front: string, a: string, b: string, back: string)
    requires front + a + back == front + b + back
    ensures a == b
  {
    assert |a| == |b|;
    forall k | 0 <= k < |a| ensures a[k] == b[k] {
      assert (front + a + back)[|front| + k] == (front + b + back)[|front| + k];
    }
  }

  lemma FrameNamesDistinct(prefix: string, i: nat, j: nat)
    requires FrameName(prefix, i) == FrameName(prefix, j)
    ensures i == j
  {
    MiddleDetermined(prefix + "-", Text.Padded(i + 1, 4), Text.Padded(j + 1, 4), ".png");
    Text.PaddedInjective(i + 1, j + 1, 4);
  }

  /** No frame is stored under the manifest's or the sheet's name, because its name ends in digits and ".png". */
  lemma FrameNameIsOwn(prefix: string, index: nat)
    ensures FrameName(prefix, index) != MANIFEST_NAME && FrameName(prefix, index) != SHEET_NAME
  {
    var name := FrameName(prefix, index);
    var digits := Text.Padded(index + 1, 4);
    assert name[|name| - 5] == digits[|digits| - 1];
    assert '0' <= name[|name| - 5] <= '9';
  }

  // ---------------------------------------------------------------- one sample

  /** The capture succeeded and the fetched bytes are the picture the controller reported. */
  predicate Verified(issue: Issue, hash: Bytes -> Bytes) {
    && issue.answer.Captured? && issue.answer.frame.digest.Some? && issue.fetch.Fetched?
    && hash(issue.fetch.payload) == issue.answer.frame.digest.value
  }

  predicate Repeats(issue: Issue, hash: Bytes -> Bytes, kept: Option<Kept>) {
    Verified(issue, hash) && kept.Some? && kept.value.digest == issue.answer.frame.digest.value
  }

  predicate Overflows(plan: Plan, issue: Issue, hash: Bytes -> Bytes, state: BurstState) {
    && Verified(issue, hash) && !Repeats(issue, hash, state.kept)
    && state.storedBytes + |issue.fetch.payload| > plan.bytes
  }

  predicate Endless(issue: Issue) {
    issue.answer.ContextEnded? || (issue.answer.Captured? && issue.answer.frame.digest.Some? && issue.fetch.FetchEnded?)
  }

  /** The digest the controller reported, if it can be read. */
  function DigestOf(issue: Issue): Bytes {
    if issue.answer.Captured? && issue.answer.frame.digest.Some? then issue.answer.frame.digest.value else []
  }

  /** What the controller said of the frame, or nothing where it gave none. */
  predicate Reports(sample: Sample, issue: Issue) {
    if issue.answer.Captured? then
      var frame := issue.answer.frame;
      sample.revision == frame.revision && sample.requestId == frame.requestId && sample.frameSeq == frame.sequence
    else sample.revision == 0 && sample.requestId == 0 && sample.frameSeq == 0
  }

  /** What one issued sample must report, by its status. */
  ghost predicate Describes(
      plan: Plan, hash: Bytes -> Bytes, index: nat, issue: Issue, previous: BurstState, out: Sampled) {
    && (out.Ended? <==> Endless(issue))
    && (out.Sampled? ==>
         && !out.sample.status.StatusMissed?
         && out.sample.scheduled == Multiple(plan.interval, index) && out.sample.requested == issue.requested
         && (out.truncated <==> Overflows(plan, issue, hash, previous))
         && (out.sample.status.StatusDeduplicated? <==> Repeats(issue, hash, previous.kept))
         && (out.sample.status.StatusCaptured? <==>
              Verified(issue, hash) && !Repeats(issue, hash, previous.kept) && !out.truncated && issue.stored.Some?)
         && out.sample.digest == DigestOf(issue)
         && Reports(out.sample, issue)
         && (out.sample.status.StatusFailed? ==> out.sample.path == "")
         && (out.sample.status.StatusDeduplicated? ==> out.sample.path == previous.kept.value.path)
         && (out.sample.status.StatusCaptured? ==> out.sample.path == issue.stored.value)
         && out.state == (if out.sample.status.StatusCaptured?
              then BurstState(
                previous.storedBytes + |issue.fetch.payload|, Some(Kept(out.sample.digest, out.sample.path)))
              else previous))
  }

  /** Where frames, the sheet and the manifest go: what was stored under each name, in order. */
  class Destination {
    var written: seq<Write>

    constructor ()
      ensures written == []
    {
      written := [];
    }

    /** Store: a failed store leaves nothing. */
    method Store(write: Write, succeeds: bool)
      modifies this
      ensures written == old(written) + (if succeeds then [write] else [])
    {
      if succeeds {
        written := written + [write];
      }
    }
  }

  /** captureSample. Only a captured sample is stored, under its own name. */
  method CaptureSample(
      plan: Plan, hash: Bytes -> Bytes, index: nat, issue: Issue, previous: BurstState, destination: Destination)
    returns (out: Sampled)
    modifies destination
    ensures Describes(plan, hash, index, issue, previous, out)
    ensures destination.written == old(destination.written) +
      (if out.Sampled? && out.sample.status.StatusCaptured?
       then [Write(FrameName(plan.prefix, index), issue.fetch.payload)] else [])
  {
    MultipleIsProduct(plan.interval, index);
    var sample := Sample(index * plan.interval, issue.requested, 0, 0, 0, [], StatusFailed, "", 0);
    match issue.answer
    case ContextEnded => return Ended;
    case CaptureFailed => return Sampled(sample, previous, false);
    case Captured(frame) =>
      sample := sample.(requestId := frame.requestId, frameSeq := frame.sequence, revision := frame.revision);
      if frame.digest.None? {
        return Sampled(sample, previous, false);
      }
      sample := sample.(digest := frame.digest.value);
      match issue.fetch
      case FetchEnded => return Ended;
      case FetchFailed => return Sampled(sample, previous, false);
      case Fetched(payload) =>
        if hash(payload) != sample.digest {
          return Sampled(sample, previous, false);
        }
        if previous.kept.Some? && sample.digest == previous.kept.value.digest {
          return Sampled(sample.(status := StatusDeduplicated, path := previous.kept.value.path), previous, false);
        }
        if previous.storedBytes + |payload| > plan.bytes {
          return Sampled(sample, previous, true);
        }
        destination.Store(Write(FrameName(plan.prefix, index), payload), issue.stored.Some?);
        if issue.stored.None? {
          return Sampled(sample, previous, false);
        }
        sample := sample.(status := StatusCaptured, path := issue.stored.value);
        return Sampled(
          sample, BurstState(previous.storedBytes + |payload|, Some(Kept(sample.digest, sample.path))), false);
  }

  // ---------------------------------------------------------------- the series

  /**
   The only assumptions about the world: clock readings never go backwards, and a wait that was not cancelled
   ended because a reading had reached the deadline. Entry n of the script is used only if sample n is issued.
   */
  ghost predicate Plausible(world: seq<Issue>, interval: int) {
    && (forall n :: 0 <= n < |world| ==> Timely(world[n], Multiple(interval, n)))
    && (forall m, n :: 0 <= m < n < |world| ==> Before(world[m], world[n]))
  }

  predicate Timely(issue: Issue, deadline: int) {
    0 <= issue.requested <= issue.completed <= issue.elapsed && (!issue.cancelled ==> deadline <= issue.requested)
  }

  predicate Before(first: Issue, second: Issue) {
    first.elapsed <= second.requested
  }

  predicate Issued(frames: seq<Sample>, n: nat) {
    n < |frames| && !frames[n].status.StatusMissed?
  }

  /** m is the last issued entry before n. */
  ghost predicate LastIssued(frames: seq<Sample>, m: nat, n: nat) {
    m < n <= |frames| && Issued(frames, m) && forall k :: m < k < n ==> !Issued(frames, k)
  }

  /** Entry n stands on the grid, and if it was issued it was asked for at or after its deadline. */
  predicate OnGrid(frames: seq<Sample>, world: seq<Issue>, interval: int, n: nat)
    requires n < |frames| <= |world|
  {
    && frames[n].scheduled == Multiple(interval, n)
    && (Issued(frames, n) ==>
         && frames[n].scheduled <= frames[n].requested == world[n].requested
         && frames[n].completed == world[n].completed)
  }

  /** Two issued entries never overlap. */
  predicate Apart(frames: seq<Sample>, m: nat, n: nat)
    requires m < |frames| && n < |frames|
  {
    Issued(frames, m) && Issued(frames, n) ==> frames[m].completed <= frames[n].requested
  }

  /** Entry n was missed exactly when its deadline had passed by the reading that followed the last issued capture m. */
  predicate MissedIfPassed(frames: seq<Sample>, world: seq<Issue>, interval: int, m: nat, n: nat)
    requires m < n < |frames| <= |world|
  {
    frames[n].status.StatusMissed? <==> Multiple(interval, n) < world[m].elapsed
  }

  ghost predicate Cadence(frames: seq<Sample>, world: seq<Issue>, interval: int)
    requires |frames| <= |world|
  {
    && (frames != [] ==> Issued(frames, 0))
    && (forall n :: 0 <= n < |frames| ==> OnGrid(frames, world, interval, n))
    && (forall m, n :: 0 <= m < n < |frames| ==> Apart(frames, m, n))
    && (forall m: nat, n: nat :: n < |frames| && LastIssued(frames, m, n) ==>
      MissedIfPassed(frames, world, interval, m, n))
  }

  lemma CadenceGrows(frames: seq<Sample>, s: Sample, world: seq<Issue>, interval: int, last: nat)
    requires |frames| < |world| && Plausible(world, interval) && Cadence(frames, world, interval)
    requires if frames == [] then !s.status.StatusMissed? else LastIssued(frames, last, |frames|)
    requires s.scheduled == Multiple(interval, |frames|)
    requires frames != [] ==> (s.status.StatusMissed? <==> Multiple(interval, |frames|) < world[last].elapsed)
    requires !s.status.StatusMissed? ==>
      !world[|frames|].cancelled && s.requested == world[|frames|].requested && s.completed == world[|frames|].completed
    ensures Cadence(frames + [s], world, interval)
    ensures LastIssued(frames + [s], if s.status.StatusMissed? then last else |frames|, |frames| + 1)
  {
    var grown, here := frames + [s], |frames|;
    assert Timely(world[here], Multiple(interval, here));
    forall n | 0 <= n < |grown| ensures OnGrid(grown, world, interval, n) {
      if n < here {
        assert OnGrid(frames, world, interval, n);
      }
    }
    forall m, n | 0 <= m < n < |grown| ensures Apart(grown, m, n) {
      if n < here {
        assert Apart(frames, m, n);
      } else if Issued(grown, m) {
        assert OnGrid(frames, world, interval, m);
        assert Timely(world[m], Multiple(interval, m)) && Before(world[m], world[here]);
      }
    }
    forall m: nat, n: nat | n < |grown| && LastIssued(grown, m, n)
      ensures MissedIfPassed(grown, world, interval, m, n)
    {
      LastIssuedWithin(frames, s, m, n);
      if n < here {
        assert MissedIfPassed(frames, world, interval, m, n);
      } else {
        LastIssuedUnique(frames, m, last);
      }
    }
    if s.status.StatusMissed? {
      forall k | last < k < here + 1 ensures !Issued(grown, k) {
        assert k < here ==> !Issued(frames, k);
      }
    }
  }

  lemma LastIssuedWithin(frames: seq<Sample>, s: Sample, m: nat, n: nat)
    requires n <= |frames| && LastIssued(frames + [s], m, n)
    ensures LastIssued(frames, m, n)
  {
    forall k | m < k < n ensures !Issued(frames, k) {
      assert !Issued(frames + [s], k);
    }
  }

  lemma LastIssuedUnique(frames: seq<Sample>, m: nat, n: nat)
    requires LastIssued(frames, m, |frames|) && LastIssued(frames, n, |frames|)
    ensures m == n
  {
  }

  predicate Pictured(frames: seq<Sample>, n: nat) {
    n < |frames| && frames[n].status.StatusCaptured?
  }

  /** m is the captured entry nearest before n. */
  ghost predicate NearestCaptured(frames: seq<Sample>, m: nat, n: nat) {
    m < n <= |frames| && Pictured(frames, m) && forall k :: m < k < n ==> !Pictured(frames, k)
  }

  ghost predicate CapturedBefore(frames: seq<Sample>, n: nat) {
    exists m: nat :: m < n && Pictured(frames, m)
  }

  /**
   What an issued entry says about its own capture. Only the entry that would overflow the byte limit may fail for
   that.
   */
  ghost predicate Entry(frames: seq<Sample>, world: seq<Issue>, hash: Bytes -> Bytes, overflowed: bool, n: nat)
    requires n < |frames| <= |world|
  {
    if frames[n].status.StatusMissed? then
      frames[n] == Sample(frames[n].scheduled, 0, 0, 0, 0, [], StatusMissed, "", 0)
    else
      && !Endless(world[n])
      && Reports(frames[n], world[n]) && frames[n].digest == DigestOf(world[n])
      && (frames[n].status.StatusFailed? ==> frames[n].path == "")
      && (frames[n].status.StatusCaptured? ==> Verified(world[n], hash) && world[n].stored == Some(frames[n].path))
      && (frames[n].status.StatusDeduplicated? ==> CapturedBefore(frames, n))
      && (frames[n].status.StatusFailed? ==>
           !Verified(world[n], hash) || world[n].stored.None? || (overflowed && n == |frames| - 1))
  }

  /** An entry repeats the nearest earlier captured one exactly when its own picture has the same digest. */
  predicate PointsBack(frames: seq<Sample>, world: seq<Issue>, hash: Bytes -> Bytes, m: nat, n: nat)
    requires m < n < |frames| <= |world|
  {
    && (frames[n].status.StatusDeduplicated? <==>
         Issued(frames, n) && Verified(world[n], hash) && frames[n].digest == frames[m].digest)
    && (frames[n].status.StatusDeduplicated? ==> frames[n].path == frames[m].path)
  }

  ghost predicate Content(frames: seq<Sample>, world: seq<Issue>, hash: Bytes -> Bytes, overflowed: bool)
    requires |frames| <= |world|
  {
    && (forall n :: 0 <= n < |frames| ==> Entry(frames, world, hash, overflowed, n))
    && (forall m: nat, n: nat :: n < |frames| && NearestCaptured(frames, m, n) ==>
      PointsBack(frames, world, hash, m, n))
  }

  /** What the loop carries: the key of the nearest captured entry so far, at index shown. */
  ghost predicate Keeps(frames: seq<Sample>, kept: Option<Kept>, shown: nat) {
    match kept
    case None => !CapturedBefore(frames, |frames|)
    case Some(key) => NearestCaptured(frames, shown, |frames|) && key == Kept(frames[shown].digest, frames[shown].path)
  }

  lemma ContentGrows(
      frames: seq<Sample>, s: Sample, world: seq<Issue>, hash: Bytes -> Bytes, plan: Plan, previous: BurstState,
      out: Sampled,
      shown: nat)
    requires |frames| < |world| && Content(frames, world, hash, false) && Keeps(frames, previous.kept, shown)
    requires out.Sampled? && Describes(plan, hash, |frames|, world[|frames|], previous, out)
    requires s == out.sample.(completed := world[|frames|].completed)
    ensures Content(frames + [s], world, hash, out.truncated)
    ensures Keeps(frames + [s], out.state.kept, if s.status.StatusCaptured? then |frames| else shown)
  {
    var grown, here := frames + [s], |frames|;
    forall n | 0 <= n < |grown| ensures Entry(grown, world, hash, out.truncated, n) {
      if n < here {
        EntryStays(frames, s, world, hash, out.truncated, n);
      } else if s.status.StatusDeduplicated? {
        assert Pictured(frames, shown) && Pictured(grown, shown);
      }
    }
    forall m: nat, n: nat | n < |grown| && NearestCaptured(grown, m, n) ensures PointsBack(grown, world, hash, m, n) {
      NearestWithin(frames, s, m, n);
      if n < here {
        assert PointsBack(frames, world, hash, m, n);
      } else {
        NearestMatchesKept(frames, previous.kept, shown, m);
      }
    }
    KeepsGrows(frames, s, previous.kept, shown);
  }

  lemma EntryStays(frames: seq<Sample>, s: Sample, world: seq<Issue>, hash: Bytes -> Bytes, overflowed: bool, n: nat)
    requires n < |frames| < |world| && Entry(frames, world, hash, false, n)
    ensures Entry(frames + [s], world, hash, overflowed, n)
  {
    if CapturedBefore(frames, n) {
      var m: nat :| m < n && Pictured(frames, m);
      assert Pictured(frames + [s], m);
    }
  }

  lemma NearestWithin(frames: seq<Sample>, s: Sample, m: nat, n: nat)
    requires n <= |frames| && NearestCaptured(frames + [s], m, n)
    ensures NearestCaptured(frames, m, n)
  {
    assert Pictured(frames + [s], m);
    forall k | m < k < n ensures !Pictured(frames, k) {
      assert !Pictured(frames + [s], k);
    }
  }

  lemma NearestMatchesKept(frames: seq<Sample>, kept: Option<Kept>, shown: nat, m: nat)
    requires Keeps(frames, kept, shown) && NearestCaptured(frames, m, |frames|)
    ensures kept.Some? && m == shown
  {
  }

  lemma KeepsGrows(frames: seq<Sample>, s: Sample, kept: Option<Kept>, shown: nat)
    requires Keeps(frames, kept, shown)
    ensures s.status.StatusCaptured? ==> Keeps(frames + [s], Some(Kept(s.digest, s.path)), |frames|)
    ensures !s.status.StatusCaptured? ==> Keeps(frames + [s], kept, shown)
  {
    var grown := frames + [s];
    forall m: nat | m < |frames| ensures Pictured(grown, m) <==> Pictured(frames, m) {
    }
    assert Pictured(grown, |frames|) <==> s.status.StatusCaptured?;
  }

  /** A missed entry changes neither the content nor what the loop carries. */
  lemma ContentKeepsMissed(
      frames: seq<Sample>, s: Sample, world: seq<Issue>, hash: Bytes -> Bytes, kept: Option<Kept>, shown: nat)
    requires |frames| < |world| && Content(frames, world, hash, false) && Keeps(frames, kept, shown)
    requires s == Sample(s.scheduled, 0, 0, 0, 0, [], StatusMissed, "", 0)
    ensures Content(frames + [s], world, hash, false)
    ensures Keeps(frames + [s], kept, shown)
  {
    var grown := frames + [s];
    forall n | 0 <= n < |grown| ensures Entry(grown, world, hash, false, n) {
      if n < |frames| {
        EntryStays(frames, s, world, hash, false, n);
      }
    }
    forall m: nat, n: nat | n < |grown| && NearestCaptured(grown, m, n) ensures PointsBack(grown, world, hash, m, n) {
      NearestWithin(frames, s, m, n);
      if n < |frames| {
        assert PointsBack(frames, world, hash, m, n);
      }
    }
    KeepsGrows(frames, s, kept, shown);
  }

  // ---------------------------------------------------------------- what is stored

  /** The frames a series stores: the bytes of every captured entry, under that entry's own name, in order. */
  function FrameWrites(frames: seq<Sample>, world: seq<Issue>, prefix: string): seq<Write>
    requires |frames| <= |world|
    decreases |frames|
  {
    if frames == [] then []
    else
      var n := |frames| - 1;
      FrameWrites(frames[..n], world, prefix) +
      (if frames[n].status.StatusCaptured? && world[n].fetch.Fetched?
       then [Write(FrameName(prefix, n), world[n].fetch.payload)] else [])
  }

  function TotalBytes(writes: seq<Write>): nat {
    if writes == [] then 0 else TotalBytes(writes[..|writes| - 1]) + |writes[|writes| - 1].data|
  }

  function Count(frames: seq<Sample>, status: Status): nat {
    if frames == [] then 0
    else Count(frames[..|frames| - 1], status) + (if frames[|frames| - 1].status == status then 1 else 0)
  }

  lemma {:induction false} CountsAddUp(frames: seq<Sample>)
    ensures Count(frames, StatusCaptured) + Count(frames, StatusDeduplicated) + Count(frames, StatusMissed)
            + Count(frames, StatusFailed) == |frames|
  {
    if frames != [] {
      CountsAddUp(frames[..|frames| - 1]);
    }
  }

  ghost predicate NamedBelow(name: string, prefix: string, limit: nat) {
    exists n: nat :: n < limit && name == FrameName(prefix, n)
  }

  ghost predicate AllNamedBelow(writes: seq<Write>, prefix: string, limit: nat) {
    forall i :: 0 <= i < |writes| ==> NamedBelow(writes[i].name, prefix, limit)
  }

  predicate NamesDistinct(writes: seq<Write>) {
    forall i, j :: 0 <= i < j < |writes| ==> writes[i].name != writes[j].name
  }

  lemma {:induction false} FrameWritesNames(frames: seq<Sample>, world: seq<Issue>, prefix: string)
    requires |frames| <= |world|
    ensures AllNamedBelow(FrameWrites(frames, world, prefix), prefix, |frames|)
    ensures NamesDistinct(FrameWrites(frames, world, prefix))
    decreases |frames|
  {
    if frames != [] {
      var n := |frames| - 1;
      var init := FrameWrites(frames[..n], world, prefix);
      FrameWritesNames(frames[..n], world, prefix);
      forall i | 0 <= i < |init|
        ensures init[i].name != FrameName(prefix, n) && NamedBelow(init[i].name, prefix, |frames|)
      {
        assert NamedBelow(init[i].name, prefix, n);
        var m: nat :| m < n && init[i].name == FrameName(prefix, m);
        if init[i].name == FrameName(prefix, n) {
          FrameNamesDistinct(prefix, m, n);
        }
      }
      assert NamedBelow(FrameName(prefix, n), prefix, |frames|);
    }
  }

  lemma FrameWritesGrow(frames: seq<Sample>, s: Sample, world: seq<Issue>, prefix: string)
    requires |frames| < |world|
    requires s.status.StatusCaptured? ==> world[|frames|].fetch.Fetched?
    ensures s.status.StatusCaptured? ==>
      FrameWrites(frames + [s], world, prefix) ==
      FrameWrites(frames, world, prefix) + [Write(FrameName(prefix, |frames|), world[|frames|].fetch.payload)]
    ensures !s.status.StatusCaptured? ==> FrameWrites(frames + [s], world, prefix) == FrameWrites(frames, world, prefix)
  {
    assert (frames + [s])[..|frames|] == frames;
  }

  lemma WrittenGrows(before: seq<Write>, frames: seq<Sample>, s: Sample, world: seq<Issue>, prefix: string)
    requires |frames| < |world|
    requires s.status.StatusCaptured? ==> world[|frames|].fetch.Fetched?
    ensures before + FrameWrites(frames, world, prefix) +
      (if s.status.StatusCaptured? then [Write(FrameName(prefix, |frames|), world[|frames|].fetch.payload)] else [])
      == before + FrameWrites(frames + [s], world, prefix)
  {
    FrameWritesGrow(frames, s, world, prefix);
  }

  lemma TotalBytesGrow(writes: seq<Write>, write: Write)
    ensures TotalBytes(writes + [write]) == TotalBytes(writes) + |write.data|
  {
    assert (writes + [write])[..|writes|] == writes;
  }

  /** What follows the frames: the sheet if one was asked for, then the manifest of a finished burst. */
  function Closing(plan: Plan, report: Report, sheet: Option<Bytes>, render: Report -> Bytes): seq<Write> {
    (if plan.contactSheet && sheet.Some? && (report.outcome.ManifestFailed? || report.outcome.Finished?)
     then [Write(SHEET_NAME, sheet.value)] else [])
    + (if report.outcome.Finished? then [Write(MANIFEST_NAME, render(report))] else [])
  }

  /** Everything a burst stores. */
  function AllWrites(
      plan: Plan, world: seq<Issue>, report: Report, sheet: Option<Bytes>, render: Report -> Bytes): seq<Write>
    requires |report.frames| <= |world|
  {
    FrameWrites(report.frames, world, plan.prefix) + Closing(plan, report, sheet, render)
  }

  /**
   The manifest marks a finished burst: it is stored by such a burst alone, as the last write, and no two writes
   share a name.
   */
  lemma ManifestMarksFinished(
      plan: Plan, world: seq<Issue>, report: Report, sheet: Option<Bytes>, render: Report -> Bytes)
    requires |report.frames| <= |world|
    ensures NamesDistinct(AllWrites(plan, world, report, sheet, render))
    ensures Holds(AllWrites(plan, world, report, sheet, render), MANIFEST_NAME) <==> report.outcome.Finished?
    ensures var writes := AllWrites(plan, world, report, sheet, render);
      report.outcome.Finished? ==> writes[|writes| - 1] == Write(MANIFEST_NAME, render(report))
  {
    var frameWrites := FrameWrites(report.frames, world, plan.prefix);
    FrameWritesNames(report.frames, world, plan.prefix);
    forall i | 0 <= i < |frameWrites|
      ensures frameWrites[i].name != MANIFEST_NAME && frameWrites[i].name != SHEET_NAME
    {
      assert NamedBelow(frameWrites[i].name, plan.prefix, |report.frames|);
      var n: nat :| n < |report.frames| && frameWrites[i].name == FrameName(plan.prefix, n);
      FrameNameIsOwn(plan.prefix, n);
    }
    var writes := AllWrites(plan, world, report, sheet, render);
    assert MANIFEST_NAME[0] != SHEET_NAME[0];
    if report.outcome.Finished? {
      assert writes[|writes| - 1].name == MANIFEST_NAME;
    }
  }

  ghost predicate Holds(writes: seq<Write>, name: string) {
    exists i :: 0 <= i < |writes| && writes[i].name == name
  }

  // ---------------------------------------------------------------- the burst

  /** A series after some entries, the last issued of them at index last and the last captured one at index shown. */
  ghost predicate ProgressAt(
      plan: Plan, world: seq<Issue>, hash: Bytes -> Bytes, frames: seq<Sample>, state: BurstState, overflowed: bool,
      last: nat, shown: nat)
    requires |frames| <= |world|
  {
    && Cadence(frames, world, plan.interval)
    && (frames != [] ==> LastIssued(frames, last, |frames|))
    && Content(frames, world, hash, overflowed)
    && Keeps(frames, state.kept, shown)
    && state.storedBytes == TotalBytes(FrameWrites(frames, world, plan.prefix)) <= plan.bytes
  }

  ghost predicate Progress(
      plan: Plan, world: seq<Issue>, hash: Bytes -> Bytes, frames: seq<Sample>, state: BurstState, overflowed: bool)
    requires |frames| <= |world|
  {
    exists last: nat, shown: nat :: ProgressAt(plan, world, hash, frames, state, overflowed, last, shown)
  }

  /** The next deadline has not passed by the reading that followed the last issued capture. */
  ghost predicate Due(frames: seq<Sample>, world: seq<Issue>, interval: int)
    requires |frames| <= |world|
  {
    forall m: nat :: LastIssued(frames, m, |frames|) ==> Multiple(interval, |frames|) >= world[m].elapsed
  }

  lemma ProgressStarts(plan: Plan, world: seq<Issue>, hash: Bytes -> Bytes)
    requires plan.bytes >= 0
    ensures Progress(plan, world, hash, [], BurstState(0, None), false) && Due([], world, plan.interval)
  {
    assert ProgressAt(plan, world, hash, [], BurstState(0, None), false, 0, 0);
  }

  /** One more issued sample. */
  lemma ProgressIssues(
      plan: Plan, world: seq<Issue>, hash: Bytes -> Bytes, frames: seq<Sample>, previous: BurstState, out: Sampled,
      s: Sample)
    requires |frames| < |world| && Plausible(world, plan.interval) && plan.bytes > 0
    requires Progress(plan, world, hash, frames, previous, false) && Due(frames, world, plan.interval)
    requires !world[|frames|].cancelled
    requires out.Sampled? && Describes(plan, hash, |frames|, world[|frames|], previous, out)
    requires s == out.sample.(completed := world[|frames|].completed)
    ensures Progress(plan, world, hash, frames + [s], out.state, out.truncated)
    ensures LastIssued(frames + [s], |frames|, |frames| + 1)
  {
    var last: nat, shown: nat :| ProgressAt(plan, world, hash, frames, previous, false, last, shown);
    CadenceGrows(frames, s, world, plan.interval, last);
    ContentGrows(frames, s, world, hash, plan, previous, out, shown);
    BytesGrow(plan, world, hash, frames, previous, out, s);
    var next := if s.status.StatusCaptured? then |frames| else shown;
    assert ProgressAt(plan, world, hash, frames + [s], out.state, out.truncated, |frames|, next);
  }

  lemma BytesGrow(
      plan: Plan, world: seq<Issue>, hash: Bytes -> Bytes, frames: seq<Sample>, previous: BurstState, out: Sampled,
      s: Sample)
    requires |frames| < |world|
    requires previous.storedBytes == TotalBytes(FrameWrites(frames, world, plan.prefix)) <= plan.bytes
    requires out.Sampled? && Describes(plan, hash, |frames|, world[|frames|], previous, out)
    requires s == out.sample.(completed := world[|frames|].completed)
    ensures out.state.storedBytes == TotalBytes(FrameWrites(frames + [s], world, plan.prefix)) <= plan.bytes
  {
    FrameWritesGrow(frames, s, world, plan.prefix);
    if s.status.StatusCaptured? {
      var payload := world[|frames|].fetch.payload;
      TotalBytesGrow(FrameWrites(frames, world, plan.prefix), Write(FrameName(plan.prefix, |frames|), payload));
      assert previous.storedBytes + |payload| <= plan.bytes;
    }
  }

  /** One more missed sample. */
  lemma ProgressMisses(
      plan: Plan, world: seq<Issue>, hash: Bytes -> Bytes, frames: seq<Sample>, state: BurstState, s: Sample, last: nat)
    requires |frames| < |world| && Plausible(world, plan.interval) && LastIssued(frames, last, |frames|)
    requires Progress(plan, world, hash, frames, state, false)
    requires s == Sample(s.scheduled, 0, 0, 0, 0, [], StatusMissed, "", 0)
    requires s.scheduled == Multiple(plan.interval, |frames|) < world[last].elapsed
    ensures Progress(plan, world, hash, frames + [s], state, false) && LastIssued(frames + [s], last, |frames| + 1)
  {
    var was: nat, shown: nat :| ProgressAt(plan, world, hash, frames, state, false, was, shown);
    CadenceGrows(frames, s, world, plan.interval, last);
    ContentKeepsMissed(frames, s, world, hash, state.kept, shown);
    FrameWritesGrow(frames, s, world, plan.prefix);
    assert ProgressAt(plan, world, hash, frames + [s], state, false, last, shown);
  }

  /** The last entry failed because storing its verified picture would have passed the limit. */
  predicate Overflowed(plan: Plan, world: seq<Issue>, hash: Bytes -> Bytes, frames: seq<Sample>, bytes: int)
    requires |frames| <= |world|
  {
    && frames != [] && frames[|frames| - 1].status.StatusFailed?
    && Verified(world[|frames| - 1], hash) && bytes + |world[|frames| - 1].fetch.payload| > plan.bytes
  }

  /**
   Where the series stopped: at its full length, at a sample that would overflow, or at the end of the caller's
   context.
   */
  predicate Complete(plan: Plan, total: nat, world: seq<Issue>, hash: Bytes -> Bytes, report: Report)
    requires |world| >= total
  {
    && |report.frames| <= total
    && (if report.truncated then
          !report.outcome.ContextDone? && Overflowed(plan, world, hash, report.frames, report.bytes)
        else if report.outcome.ContextDone? then
          |report.frames| < total && (world[|report.frames|].cancelled || Endless(world[|report.frames|]))
        else |report.frames| == total)
  }

  /** Every claim about a report, except for what was stored. */
  ghost predicate Delivered(plan: Plan, total: nat, world: seq<Issue>, hash: Bytes -> Bytes, report: Report)
    requires |world| >= total
  {
    && !report.outcome.Refused?
    && |report.frames| <= |world|
    && Cadence(report.frames, world, plan.interval)
    && Content(report.frames, world, hash, report.truncated)
    && report.bytes == TotalBytes(FrameWrites(report.frames, world, plan.prefix)) <= plan.bytes
    && Complete(plan, total, world, hash, report)
    && Counted(report)
  }

  lemma ProgressDelivers(
      plan: Plan, total: nat, world: seq<Issue>, hash: Bytes -> Bytes, state: BurstState, report: Report)
    requires total <= |world| && !report.outcome.Refused? && Counted(report)
      && Complete(plan, total, world, hash, report)
    requires report.bytes == state.storedBytes && Progress(plan, world, hash, report.frames, state, report.truncated)
    ensures Delivered(plan, total, world, hash, report)
  {
  }

  predicate Counted(report: Report) {
    && report.captured == Count(report.frames, StatusCaptured)
      && report.deduplicated == Count(report.frames, StatusDeduplicated)
    && report.missed == Count(report.frames, StatusMissed) && report.failed == Count(report.frames, StatusFailed)
  }

  /** The four counters account for every entry. */
  lemma CountersSumToEntries(plan: Plan, total: nat, world: seq<Issue>, hash: Bytes -> Bytes, report: Report)
    requires |world| >= total && Delivered(plan, total, world, hash, report)
    ensures report.captured + report.deduplicated + report.missed + report.failed == |report.frames|
  {
    CountsAddUp(report.frames);
  }

  /** finalise: one pass over the produced entries. */
  method Finalise(frames: seq<Sample>, bytes: int, truncated: bool) returns (report: Report)
    ensures report.frames == frames && report.bytes == bytes && report.truncated == truncated
      && report.outcome == ContextDone
    ensures Counted(report)
  {
    var captured, deduplicated, missed, failed := 0, 0, 0, 0;
    for i := 0 to |frames|
      invariant captured == Count(frames[..i], StatusCaptured) && deduplicated == Count(frames[..i], StatusDeduplicated)
      invariant missed == Count(frames[..i], StatusMissed) && failed == Count(frames[..i], StatusFailed)
    {
      assert frames[..i + 1][..i] == frames[..i];
      match frames[i].status
      case StatusCaptured => captured := captured + 1;
      case StatusDeduplicated => deduplicated := deduplicated + 1;
      case StatusMissed => missed := missed + 1;
      case StatusFailed => failed := failed + 1;
    }
    assert frames[..|frames|] == frames;
    report := Report(frames, captured, deduplicated, missed, failed, bytes, truncated, ContextDone);
  }

  /**
   The scheduled series: each turn waits, captures one sample, and records as missed the deadlines that passed
   meanwhile. The last two results say whether a sample would have overflowed the byte limit and whether the
   caller's context ended.
   */
  method Series(plan: Plan, hash: Bytes -> Bytes, world: seq<Issue>, total: nat, destination: Destination)
    returns (frames: seq<Sample>, state: BurstState, truncated: bool, ended: bool)
    requires Deliverable(plan) && 0 < total <= |world| && Plausible(world, plan.interval)
    modifies destination
    ensures |frames| <= total
    ensures Progress(plan, world, hash, frames, state, truncated)
    ensures destination.written == old(destination.written) + FrameWrites(frames, world, plan.prefix)
    ensures truncated ==> !ended && Overflowed(plan, world, hash, frames, state.storedBytes)
    ensures ended ==> |frames| < total && (world[|frames|].cancelled || Endless(world[|frames|]))
    ensures !truncated && !ended ==> |frames| == total
  {
    frames, state, truncated, ended := [], BurstState(0, None), false, false;
    ProgressStarts(plan, world, hash);
    while |frames| < total && !truncated
      invariant |frames| <= total
      invariant Progress(plan, world, hash, frames, state, truncated)
      invariant !truncated && |frames| < total ==> Due(frames, world, plan.interval)
      invariant destination.written == old(destination.written) + FrameWrites(frames, world, plan.prefix)
      invariant truncated ==> Overflowed(plan, world, hash, frames, state.storedBytes)
      decreases total - |frames|
    {
      if world[|frames|].cancelled {
        return frames, state, false, true;
      }
      var taken := Take(plan, hash, world, frames, state, destination, old(destination.written));
      if taken.Stopped? {
        return frames, state, false, true;
      }
      frames, state, truncated := frames + [taken.sample], taken.state, taken.truncated;
      if !truncated {
        frames := Missed(plan, hash, world, total, frames, state, world[|frames| - 1].elapsed);
      }
    }
  }

  datatype Taken = Taken(sample: Sample, state: BurstState, truncated: bool) | Stopped

  /** One issued sample, stamped with the reading that followed its storage. */
  method Take(
      plan: Plan, hash: Bytes -> Bytes, world: seq<Issue>, frames: seq<Sample>, state: BurstState,
      destination: Destination,
      ghost before: seq<Write>) returns (taken: Taken)
    requires |frames| < |world| && Plausible(world, plan.interval) && plan.bytes > 0 && !world[|frames|].cancelled
    requires Progress(plan, world, hash, frames, state, false) && Due(frames, world, plan.interval)
    requires destination.written == before + FrameWrites(frames, world, plan.prefix)
    modifies destination
    ensures taken.Stopped? <==> Endless(world[|frames|])
    ensures taken.Stopped? ==> destination.written == old(destination.written)
    ensures taken.Taken? ==>
      && Progress(plan, world, hash, frames + [taken.sample], taken.state, taken.truncated)
      && LastIssued(frames + [taken.sample], |frames|, |frames| + 1)
      && (taken.truncated ==> Overflowed(plan, world, hash, frames + [taken.sample], taken.state.storedBytes))
      && destination.written == before + FrameWrites(frames + [taken.sample], world, plan.prefix)
  {
    var out := CaptureSample(plan, hash, |frames|, world[|frames|], state, destination);
    if out.Ended? {
      return Stopped;
    }
    var s := out.sample.(completed := world[|frames|].completed);
    ProgressIssues(plan, world, hash, frames, state, out, s);
    WrittenGrows(before, frames, s, world, plan.prefix);
    return Taken(s, out.state, out.truncated);
  }

  /** Deadlines that passed while the last capture was in flight are recorded and skipped. */
  method Missed(
      plan: Plan, hash: Bytes -> Bytes, world: seq<Issue>, total: nat, produced: seq<Sample>, state: BurstState,
      elapsed: int)
    returns (frames: seq<Sample>)
    requires 0 < |produced| <= total <= |world| && Plausible(world, plan.interval)
    requires LastIssued(produced, |produced| - 1, |produced|) && elapsed == world[|produced| - 1].elapsed
    requires Progress(plan, world, hash, produced, state, false)
    ensures produced <= frames && |frames| <= total
    ensures Progress(plan, world, hash, frames, state, false)
    ensures FrameWrites(frames, world, plan.prefix) == FrameWrites(produced, world, plan.prefix)
    ensures |frames| == total || Due(frames, world, plan.interval)
  {
    frames := produced;
    ghost var last: nat := |produced| - 1;
    while |frames| < total && |frames| * plan.interval < elapsed
      invariant produced <= frames && |frames| <= total
      invariant Progress(plan, world, hash, frames, state, false) && LastIssued(frames, last, |frames|)
      invariant FrameWrites(frames, world, plan.prefix) == FrameWrites(produced, world, plan.prefix)
    {
      MultipleIsProduct(plan.interval, |frames|);
      var s := Sample(|frames| * plan.interval, 0, 0, 0, 0, [], StatusMissed, "", 0);
      ProgressMisses(plan, world, hash, frames, state, s, last);
      FrameWritesGrow(frames, s, world, plan.prefix);
      frames := frames + [s];
    }
    MultipleIsProduct(plan.interval, |frames|);
    if |frames| < total {
      DueNow(frames, world, plan.interval, last);
    }
  }

  lemma DueNow(frames: seq<Sample>, world: seq<Issue>, interval: int, last: nat)
    requires |frames| <= |world| && LastIssued(frames, last, |frames|)
      && Multiple(interval, |frames|) >= world[last].elapsed
    ensures Due(frames, world, interval)
  {
    forall m: nat | LastIssued(frames, m, |frames|) ensures m == last {
      LastIssuedUnique(frames, m, last);
    }
  }

  /** What follows the series: the sheet if one was asked for, and the manifest last. */
  method Publish(
      plan: Plan, produced: Report, sheet: Option<Bytes>, sheetStored: bool, render: Report -> Bytes,
      manifestStored: bool,
      destination: Destination) returns (report: Report)
    modifies destination
    ensures report == produced.(outcome := report.outcome) && !report.outcome.ContextDone? && !report.outcome.Refused?
    ensures destination.written == old(destination.written) + Closing(plan, report, sheet, render)
    ensures report.outcome.Finished? <==> manifestStored && (plan.contactSheet ==> sheet.Some? && sheetStored)
    ensures report.outcome.SheetFailed? <==> plan.contactSheet && !(sheet.Some? && sheetStored)
  {
    report := produced.(outcome := SheetFailed);
    if plan.contactSheet {
      if sheet.None? {
        return report;
      }
      destination.Store(Write(SHEET_NAME, sheet.value), sheetStored);
      if !sheetStored {
        return report;
      }
    }
    report := report.(outcome := if manifestStored then Finished else ManifestFailed);
    destination.Store(Write(MANIFEST_NAME, render(report)), manifestStored);
  }

  /** The series, the counters and what follows. */
  method Deliver(
      plan: Plan, total: nat, hash: Bytes -> Bytes, world: seq<Issue>, sheet: Option<Bytes>, sheetStored: bool,
      render: Report -> Bytes, manifestStored: bool, destination: Destination) returns (report: Report)
    requires Deliverable(plan) && 0 < total <= |world| && Plausible(world, plan.interval)
    modifies destination
    ensures Delivered(plan, total, world, hash, report)
    ensures destination.written == old(destination.written) + AllWrites(plan, world, report, sheet, render)
    ensures report.outcome.Finished? <==>
      !report.outcome.ContextDone? && manifestStored && (plan.contactSheet ==> sheet.Some? && sheetStored)
    ensures report.outcome.SheetFailed? <==>
      !report.outcome.ContextDone? && plan.contactSheet && !(sheet.Some? && sheetStored)
  {
    var frames, state, truncated, ended := Series(plan, hash, world, total, destination);
    report := Finalise(frames, state.storedBytes, truncated);
    if !ended {
      report := Publish(plan, report, sheet, sheetStored, render, manifestStored, destination);
    }
    ProgressDelivers(plan, total, world, hash, state, report);
  }

  /**
   Burst. Whatever the collaborators answer, the report keeps the cadence, accounts for every entry and every stored
   byte, and the manifest is stored by a finished burst alone, last of all.
   */
  method Burst(
      asked: Plan, hash: Bytes -> Bytes, world: seq<Issue>, sheet: Option<Bytes>, sheetStored: bool,
      render: Report -> Bytes,
      manifestStored: bool, destination: Destination) returns (report: Report)
    requires |world| >= MAX_FRAMES
    requires Settings(asked).Some? ==> Plausible(world, Settings(asked).value.interval)
    modifies destination
    ensures report.outcome.Refused? <==> Settings(asked).None?
    ensures Settings(asked).None? ==> destination.written == old(destination.written)
    ensures Settings(asked).Some? ==>
      && 0 < Total(Settings(asked).value) <= |world|
      && Delivered(Settings(asked).value, Total(Settings(asked).value), world, hash, report)
      && destination.written == old(destination.written)
        + AllWrites(Settings(asked).value, world, report, sheet, render)
    ensures report.outcome.Finished? <==>
      && !report.outcome.Refused? && !report.outcome.ContextDone?
      && manifestStored && (asked.contactSheet ==> sheet.Some? && sheetStored)
    ensures report.outcome.SheetFailed? <==>
      && !report.outcome.Refused? && !report.outcome.ContextDone?
      && asked.contactSheet && !(sheet.Some? && sheetStored)
  {
    var settings := Settings(asked);
    if settings.None? {
      return Report([], 0, 0, 0, 0, 0, false, Refused);
    }
    var plan := settings.value;
    var total := FrameCount(plan);
    report := Deliver(plan, total, hash, world, sheet, sheetStored, render, manifestStored, destination);
  }
}
