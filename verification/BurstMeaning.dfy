/** What a delivered burst reports and stores, said of the script alone. */
module BurstMeaning {
  import opened Arithmetic
  import opened Protocol
  import opened Burst
  import Text

  /** The capturer gave a picture, the fetch gave bytes, and the bytes hash to the digest that was reported. */
  predicate GotPicture(w: Issue, hash: Bytes -> Bytes) {
    && w.answer.Captured? && w.answer.frame.digest.Some? && w.fetch.Fetched?
    && hash(w.fetch.payload) == w.answer.frame.digest.value
  }

  /**
   Entry n of a delivered report. It stands at n intervals. A missed one says nothing else. Any other was asked for at
   or after its deadline, carries what the controller said of its own capture, and is captured, a repeat or failed for a
   reason: captured and repeated entries have a verified picture, a failed one has none, could not be stored, or is the
   last of a truncated burst.
   */
  lemma EntryInFull(plan: Plan, total: nat, world: seq<Issue>, hash: Bytes -> Bytes, report: Report, n: nat)
    requires |world| >= total && Delivered(plan, total, world, hash, report) && n < |report.frames|
    ensures var (f, w) := (report.frames[n], world[n]);
      && f.scheduled == n * plan.interval
      && (f.status.StatusMissed? ==>
           && f.requested == 0 && f.completed == 0 && f.requestId == 0 && f.frameSeq == 0
           && f.digest == [] && f.path == "" && f.revision == 0)
      && (!f.status.StatusMissed? ==>
           && f.scheduled <= f.requested == w.requested && f.completed == w.completed
           && f.digest ==
              (if w.answer.Captured? && w.answer.frame.digest.Some? then w.answer.frame.digest.value else [])
           && f.requestId == (if w.answer.Captured? then w.answer.frame.requestId else 0)
           && f.frameSeq == (if w.answer.Captured? then w.answer.frame.sequence else 0)
           && f.revision == (if w.answer.Captured? then w.answer.frame.revision else 0))
      && (f.status.StatusCaptured? ==> GotPicture(w, hash) && w.stored == Some(f.path))
      && (f.status.StatusDeduplicated? ==> GotPicture(w, hash))
      && (f.status.StatusFailed? ==>
           && f.path == ""
           && (!GotPicture(w, hash) || w.stored.None? || (report.truncated && n == |report.frames| - 1)))
  {
    var (frames, interval) := (report.frames, plan.interval);
    assert OnGrid(frames, world, interval, n) && Entry(frames, world, hash, report.truncated, n);
    MultipleIsProduct(interval, n);
    if frames[n].status.StatusDeduplicated? {
      var m := NearestBefore(frames, n);
      assert PointsBack(frames, world, hash, m, n);
    }
  }

  /** The captured entry nearest before one that has any before it. */
  lemma {:induction false} NearestBefore(frames: seq<Sample>, n: nat) returns (m: nat)
    requires n <= |frames| && CapturedBefore(frames, n)
    ensures NearestCaptured(frames, m, n)
  {
    if Pictured(frames, n - 1) {
      m := n - 1;
    } else {
      var k: nat :| k < n && Pictured(frames, k);
      assert k < n - 1;
      m := NearestBefore(frames, n - 1);
    }
  }

  /** An entry is missed exactly when its deadline had passed after the last one that was issued before it. */
  lemma MissedInFull(
      plan: Plan, total: nat, world: seq<Issue>, hash: Bytes -> Bytes, report: Report, m: nat, n: nat)
    requires |world| >= total && Delivered(plan, total, world, hash, report) && m < n < |report.frames|
    requires !report.frames[m].status.StatusMissed?
    requires forall k :: m < k < n ==> report.frames[k].status.StatusMissed?
    ensures report.frames[n].status.StatusMissed? <==> n * plan.interval < world[m].elapsed
  {
    assert Issued(report.frames, m);
    forall k | m < k < n ensures !Issued(report.frames, k) {
      assert report.frames[k].status.StatusMissed?;
    }
    assert LastIssued(report.frames, m, n);
    assert MissedIfPassed(report.frames, world, plan.interval, m, n);
    MultipleIsProduct(plan.interval, n);
  }

  /** The first entry is never missed. */
  lemma FirstIsIssued(plan: Plan, total: nat, world: seq<Issue>, hash: Bytes -> Bytes, report: Report)
    requires |world| >= total && Delivered(plan, total, world, hash, report) && report.frames != []
    ensures !report.frames[0].status.StatusMissed?
  {
    assert Issued(report.frames, 0);
  }

  /** Entry m was stored and no entry between m and n was. */
  predicate StoredLast(frames: seq<Sample>, m: int, n: int) {
    && 0 <= m < n <= |frames| && frames[m].status.StatusCaptured?
    && forall k :: m < k < n ==> !frames[k].status.StatusCaptured?
  }

  lemma StoredLastIsNearest(frames: seq<Sample>, m: int, n: nat)
    ensures StoredLast(frames, m, n) <==> m >= 0 && NearestCaptured(frames, m, n)
  {
    if StoredLast(frames, m, n) {
      forall k | m < k < n ensures !Pictured(frames, k) {
        assert !frames[k].status.StatusCaptured?;
      }
    }
    if m >= 0 && NearestCaptured(frames, m, n) {
      forall k | m < k < n ensures !frames[k].status.StatusCaptured? {
        assert !Pictured(frames, k);
      }
    }
  }

  /**
   An entry repeats exactly when it was issued, its picture is verified, and the last stored entry before it has the
   same digest; then it points where that one was stored.
   */
  lemma RepeatInFull(
      plan: Plan, total: nat, world: seq<Issue>, hash: Bytes -> Bytes, report: Report, n: nat)
    requires |world| >= total && Delivered(plan, total, world, hash, report) && n < |report.frames|
    ensures var frames := report.frames;
      frames[n].status.StatusDeduplicated? <==>
        && !frames[n].status.StatusMissed? && GotPicture(world[n], hash)
        && exists m :: StoredLast(frames, m, n) && frames[m].digest == frames[n].digest
    ensures var frames := report.frames;
      forall m :: StoredLast(frames, m, n) && frames[n].status.StatusDeduplicated? ==>
        frames[n].path == frames[m].path
  {
    var frames := report.frames;
    assert Entry(frames, world, hash, report.truncated, n);
    forall m | StoredLast(frames, m, n) ensures PointsBack(frames, world, hash, m, n) {
      StoredLastIsNearest(frames, m, n);
    }
    if frames[n].status.StatusDeduplicated? {
      var m := NearestBefore(frames, n);
      StoredLastIsNearest(frames, m, n);
      assert PointsBack(frames, world, hash, m, n);
    }
  }

  /**
   Where a delivered report ends: before a picture that would not fit the byte limit any more, where the caller's
   context ended in a wait, a capture or a fetch, or at its full length.
   */
  lemma EndInFull(plan: Plan, total: nat, world: seq<Issue>, hash: Bytes -> Bytes, report: Report)
    requires |world| >= total && Delivered(plan, total, world, hash, report)
    ensures var (frames, last) := (report.frames, |report.frames| - 1);
      report.truncated ==>
        && last >= 0 && frames[last].status.StatusFailed? && GotPicture(world[last], hash)
        && report.bytes + |world[last].fetch.payload| > plan.bytes
    ensures !report.truncated && report.outcome.ContextDone? ==>
      && |report.frames| < total
      && var w := world[|report.frames|];
         w.cancelled || w.answer.ContextEnded?
         || (w.answer.Captured? && w.answer.frame.digest.Some? && w.fetch.FetchEnded?)
    ensures !report.truncated && !report.outcome.ContextDone? ==> |report.frames| == total
    ensures report.bytes <= plan.bytes
  {
  }

  /** A frame's file name is the prefix, a dash, the entry's number from one on in at least four digits, and ".png". */
  lemma FrameNameInFull(prefix: string, index: nat) returns (digits: string)
    ensures FrameName(prefix, index) == prefix + "-" + digits + ".png"
    ensures |digits| >= 4 && Text.Digits(digits) && Text.Number(digits) == index + 1
    ensures |digits| > 4 ==> digits[0] != '0'
  {
    digits := Text.Padded(index + 1, 4);
    Text.NumberOfPadded(index + 1, 4);
    Text.NoLeadingZero(index + 1);
  }

  /** This is how entry n is stored. */
  predicate StoredAs(frames: seq<Sample>, world: seq<Issue>, prefix: string, n: nat, write: Write)
    requires |frames| <= |world|
  {
    && n < |frames| && frames[n].status.StatusCaptured? && world[n].fetch.Fetched?
    && write == Write(FrameName(prefix, n), world[n].fetch.payload)
  }

  /** Exactly the captured entries are stored, each under its own name and with its own bytes. */
  lemma {:induction false} StoredInFull(frames: seq<Sample>, world: seq<Issue>, prefix: string, write: Write)
    requires |frames| <= |world|
    ensures write in FrameWrites(frames, world, prefix) <==>
      exists n: nat :: StoredAs(frames, world, prefix, n, write)
    decreases |frames|
  {
    if frames != [] {
      var last := |frames| - 1;
      var front := frames[..last];
      StoredInFull(front, world, prefix, write);
      var added := FrameWrites(frames, world, prefix)[|FrameWrites(front, world, prefix)|..];
      assert FrameWrites(frames, world, prefix) == FrameWrites(front, world, prefix) + added;
      assert write in added <==> StoredAs(frames, world, prefix, last, write);
      forall n: nat ensures StoredAs(frames, world, prefix, n, write) <==>
        StoredAs(front, world, prefix, n, write) || (n == last && write in added)
      {
      }
    }
  }

  /** After the frames comes the sheet, if one was asked for and stored, and last a finished burst's manifest. */
  lemma ClosingInFull(
      plan: Plan, world: seq<Issue>, report: Report, sheet: Option<Bytes>, render: Report -> Bytes)
    requires |report.frames| <= |world|
    ensures AllWrites(plan, world, report, sheet, render) ==
      FrameWrites(report.frames, world, plan.prefix)
      + (if plan.contactSheet && sheet.Some? && (report.outcome.Finished? || report.outcome.ManifestFailed?)
         then [Write("contact.png", sheet.value)] else [])
      + (if report.outcome.Finished? then [Write("manifest.json", render(report))] else [])
  {
    var frames := FrameWrites(report.frames, world, plan.prefix);
    assert forall a: seq<Write>, b: seq<Write> :: frames + (a + b) == frames + a + b;
  }

  /** There is one write for each of them. */
  lemma {:induction false} OneWriteEach(frames: seq<Sample>, world: seq<Issue>, prefix: string)
    requires |frames| <= |world|
    requires forall n :: 0 <= n < |frames| && frames[n].status.StatusCaptured? ==> world[n].fetch.Fetched?
    ensures |FrameWrites(frames, world, prefix)| == Count(frames, StatusCaptured)
    decreases |frames|
  {
    if frames != [] {
      OneWriteEach(frames[..|frames| - 1], world, prefix);
    }
  }
}
