/** Waiting for the picture to hold still, against a clock and a capturer that answer as they please. */
module WaitStable {
  import opened Arithmetic
  import opened Protocol

  /** What two captures must share to be the same picture. Times are nanoseconds from the start of the wait. */
  datatype Frame = Frame(digest: seq<bv8>, width: int, height: int, format: string, revision: nat)

  /**
   What one call of the capturer does: a frame whose digest may not parse, a failure, or the caller's own context
   ending.
   */
  datatype Answer = Captured(frame: Frame, digestParses: bool) | CaptureFailed | ContextEnded

  /**
   What the world does at one probe: how the wait for its deadline ends, the clock readings before and after
   the capture, and the capture's answer.
   */
  datatype Probe = Probe(cancelled: bool, requested: int, completed: int, answer: Answer)

  datatype WaitResult =
    | UsageError
    | Stable(probe: nat, observations: nat, duration: int, probes: nat)
    | TimedOut(probe: nat, observations: nat, probes: nat)
    | Cancelled(probe: nat, probes: nat)

  const MILLISECOND := 1_000_000
  const INTERVAL_CAP := 100 * MILLISECOND
  const INTERVAL_FLOOR := 16 * MILLISECOND

  /** ProbeInterval: half the stability duration, between the floor and the cap. */
  function ProbeInterval(stableFor: int): (interval: int)
    ensures 2 * INTERVAL_FLOOR <= stableFor < 2 * INTERVAL_CAP ==> 2 * interval <= stableFor <= 2 * interval + 1
    ensures stableFor < 2 * INTERVAL_FLOOR ==> interval == INTERVAL_FLOOR
    ensures stableFor >= 2 * INTERVAL_CAP ==> interval == INTERVAL_CAP
  {
    var half := stableFor / 2;
    var capped := if half > INTERVAL_CAP then INTERVAL_CAP else half;
    if capped < INTERVAL_FLOOR then INTERVAL_FLOOR else capped
  }

  function Earlier(a: int, b: int): int {
    if b < a then b else a
  }

  /**
   The only assumptions about the world: clock readings never go backwards, and a wait that was not cancelled
   ended because a reading had reached the earlier of the probe's deadline and the timeout. The script is as long as the
   wait can need: its last probe is scheduled at or after the timeout.
   */
  ghost predicate Plausible(world: seq<Probe>, interval: int, timeout: int) {
    && (forall k :: 0 <= k < |world| ==> Timely(world[k], Multiple(interval, k), timeout))
    && (forall k, l :: 0 <= k < l < |world| ==> Before(world[k], world[l]))
  }

  predicate Timely(p: Probe, deadline: int, timeout: int) {
    0 <= p.requested <= p.completed && (!p.cancelled ==> Earlier(deadline, timeout) <= p.requested)
  }

  predicate Before(p: Probe, q: Probe) {
    p.completed <= q.requested
  }

  predicate Usable(p: Probe) {
    p.answer.Captured? && p.answer.digestParses
  }

  /** The previous capture was still in flight at this probe's deadline. */
  predicate Late(world: seq<Probe>, interval: int, k: nat)
    requires k < |world|
  {
    k > 0 && world[k - 1].completed > Multiple(interval, k)
  }

  /**
   Captures i to j all succeeded, show the same picture at the same revision, and none after the first was issued
   late.
   */
  ghost predicate Run(world: seq<Probe>, interval: int, i: nat, j: nat)
    requires j < |world|
  {
    && i <= j && Usable(world[i])
    && (forall k :: i < k <= j ==> Continues(world, interval, i, k))
  }

  predicate Continues(world: seq<Probe>, interval: int, i: nat, k: nat)
    requires i < |world| && k < |world| && Usable(world[i])
  {
    Usable(world[k]) && world[k].answer.frame == world[i].answer.frame && !Late(world, interval, k)
  }

  /** The picture held still up to probe j for as long as was asked. */
  ghost predicate StableAt(world: seq<Probe>, interval: int, stableFor: int, j: nat)
    requires j < |world|
  {
    exists i: nat :: Run(world, interval, i, j) && world[j].requested - world[i].requested >= stableFor
  }

  /** A run that cannot be extended to the left. */
  ghost predicate Maximal(world: seq<Probe>, interval: int, i: nat, j: nat)
    requires j < |world|
  {
    Run(world, interval, i, j) && (i > 0 ==> !Run(world, interval, i - 1, j))
  }

  /** The wait ends at probe k without a stable picture. */
  predicate Ends(world: seq<Probe>, timeout: int, k: nat)
    requires k < |world|
  {
    world[k].cancelled || world[k].requested >= timeout || world[k].answer.ContextEnded?
  }

  /** No probe before k ended the wait, and none proved the picture stable. */
  ghost predicate Undecided(world: seq<Probe>, interval: int, stableFor: int, timeout: int, k: nat)
    requires k <= |world|
  {
    forall m: nat :: m < k ==> !Ends(world, timeout, m) && !StableAt(world, interval, stableFor, m)
  }

  /** Probe j is the one that proves the picture stable. */
  ghost predicate FirstStable(world: seq<Probe>, interval: int, stableFor: int, timeout: int, j: nat)
    requires j < |world|
  {
    && Undecided(world, interval, stableFor, timeout, j)
    && !Ends(world, timeout, j) && StableAt(world, interval, stableFor, j)
  }

  /** At most this many probes have a deadline before the timeout. */
  predicate FitsIn(interval: int, timeout: int, probes: nat) {
    probes == 0 || Multiple(interval, probes - 1) < timeout
  }

  /** So the number of captures is at most the timeout divided by the interval, rounded up. */
  lemma FitsMeansCeiling(interval: int, timeout: int, probes: nat)
    requires interval > 0 && timeout > 0
    ensures FitsIn(interval, timeout, probes) <==> probes <= CeilDiv(timeout, interval)
  {
    if probes > 0 {
      MultiplesBelow(interval, timeout, probes - 1);
    } else {
      MultiplesBelow(interval, timeout, 0);
    }
  }

  lemma RunSuffix(world: seq<Probe>, interval: int, m: nat, i: nat, j: nat)
    requires m <= i <= j < |world| && Run(world, interval, m, j)
    ensures Run(world, interval, i, j)
  {
    if m < i {
      assert Continues(world, interval, m, i);
      forall k | i < k <= j ensures Continues(world, interval, i, k) {
        assert Continues(world, interval, m, k);
      }
    }
  }

  /** A run that reaches further left than a maximal one does not exist. */
  lemma MaximalIsLeftmost(world: seq<Probe>, interval: int, i: nat, m: nat, j: nat)
    requires j < |world| && Maximal(world, interval, i, j) && Run(world, interval, m, j)
    ensures i <= m
  {
    if m < i {
      RunSuffix(world, interval, m, i - 1, j);
    }
  }

  /** Stability can be judged on the maximal run alone. */
  lemma MaximalDecides(world: seq<Probe>, interval: int, timeout: int, stableFor: int, i: nat, j: nat)
    requires j < |world| && Plausible(world, interval, timeout) && Maximal(world, interval, i, j)
    ensures StableAt(world, interval, stableFor, j) <==> world[j].requested - world[i].requested >= stableFor
  {
    if StableAt(world, interval, stableFor, j) {
      var m: nat :| Run(world, interval, m, j) && world[j].requested - world[m].requested >= stableFor;
      MaximalIsLeftmost(world, interval, i, m, j);
    }
  }

  /** The comparable picture, when its run was first asked for, and how many captures it spans. */
  datatype Streak = Streak(current: Option<Frame>, since: int, identical: nat)

  /** The maximal run that ends at the previous probe, if any. */
  ghost predicate Carries(world: seq<Probe>, interval: int, probe: nat, streak: Streak)
    requires probe <= |world|
  {
    && streak.identical <= probe
    && (streak.current.None? <==> streak.identical == 0)
    && (streak.identical == 0 <==> probe == 0 || !Usable(world[probe - 1]))
    && (streak.current.Some? ==>
         && Maximal(world, interval, probe - streak.identical, probe - 1)
         && streak.current.value == world[probe - streak.identical].answer.frame
         && streak.since == world[probe - streak.identical].requested)
  }

  /** What one captured probe does to the streak. */
  function Advance(streak: Streak, p: Probe, late: bool): Streak {
    if !Usable(p) then Streak(None, streak.since, 0)
    else if !late && streak.current == Some(p.answer.frame) then streak.(identical := streak.identical + 1)
    else Streak(Some(p.answer.frame), p.requested, 1)
  }

  lemma AdvanceCarries(world: seq<Probe>, interval: int, stableFor: int, timeout: int, probe: nat, streak: Streak)
    requires probe < |world| && Plausible(world, interval, timeout) && stableFor > 0
    requires Carries(world, interval, probe, streak)
    ensures var next := Advance(streak, world[probe], Late(world, interval, probe));
      && Carries(world, interval, probe + 1, next)
      && (StableAt(world, interval, stableFor, probe) <==>
           next.identical >= 2 && world[probe].requested - next.since >= stableFor)
  {
    var p := world[probe];
    if streak.current.Some? {
      RunFrame(world, interval, probe - streak.identical, probe - 1);
    }
    if Usable(p) {
      if !Late(world, interval, probe) && streak.current == Some(p.answer.frame) {
        RunGrows(world, interval, probe - streak.identical, probe);
        MaximalDecides(world, interval, timeout, stableFor, probe - streak.identical, probe);
      } else {
        RunStarts(world, interval, probe);
        MaximalDecides(world, interval, timeout, stableFor, probe, probe);
      }
    } else if StableAt(world, interval, stableFor, probe) {
      var i: nat :| Run(world, interval, i, probe);
      RunFrame(world, interval, i, probe);
    }
  }

  /** What each result means. */
  ghost predicate Judged(world: seq<Probe>, interval: int, stableFor: int, timeout: int, r: WaitResult)
  {
    match r
    case UsageError => stableFor <= 0 || timeout <= 0
    case Stable(probe, observations, duration, probes) =>
      && probes == probe + 1 && probe < |world| && FitsIn(interval, timeout, probes)
      && FirstStable(world, interval, stableFor, timeout, probe)
      && 2 <= observations <= probe + 1
      && Maximal(world, interval, probe + 1 - observations, probe)
      && duration == world[probe].completed
    case TimedOut(probe, observations, probes) =>
      && probes == probe < |world| && FitsIn(interval, timeout, probes)
      && Undecided(world, interval, stableFor, timeout, probe)
      && !world[probe].cancelled && world[probe].requested >= timeout
      && (observations == 0 <==> probe == 0 || !Usable(world[probe - 1]))
      && (observations > 0 ==> observations <= probe && Maximal(world, interval, probe - observations, probe - 1))
    case Cancelled(probe, probes) =>
      && probe < |world| && FitsIn(interval, timeout, probes)
      && probes == (if world[probe].cancelled then probe else probe + 1)
      && Undecided(world, interval, stableFor, timeout, probe)
      && (world[probe].cancelled || (world[probe].requested < timeout && world[probe].answer.ContextEnded?))
  }

  /**
   WaitStable. The result is stable at probe j exactly when j is the first probe to end a long enough run, before
   the timeout and before the caller's context ends; its observations are the length of the maximal run; a timeout
   means that no probe ended such a run; and the loop makes at most ceil(timeout / interval) captures.
   */
  method WaitStable(stableFor: int, timeout: int, world: seq<Probe>) returns (r: WaitResult)
    requires Plausible(world, ProbeInterval(stableFor), timeout)
    requires |world| > 0 && Multiple(ProbeInterval(stableFor), |world| - 1) >= timeout
    ensures r.UsageError? <==> stableFor <= 0 || timeout <= 0
    ensures Judged(world, ProbeInterval(stableFor), stableFor, timeout, r)
  {
    if timeout <= 0 || stableFor <= 0 {
      return UsageError;
    }
    var interval := ProbeInterval(stableFor);
    var streak, lastCompleted := Streak(None, 0, 0), 0;
    var probe: nat := 0;
    while true
      invariant probe < |world| && FitsIn(interval, timeout, probe)
      invariant probe > 0 ==> lastCompleted == world[probe - 1].completed
      invariant Undecided(world, interval, stableFor, timeout, probe)
      invariant Carries(world, interval, probe, streak)
      decreases |world| - probe
    {
      var p := world[probe];
      if p.cancelled {
        return Cancelled(probe, probe);
      }
      if p.requested >= timeout {
        return TimedOut(probe, streak.identical, probe);
      }
      InTime(world, interval, timeout, probe);
      if p.answer.ContextEnded? {
        return Cancelled(probe, probe + 1);
      }
      AdvanceCarries(world, interval, stableFor, timeout, probe, streak);
      streak := Advance(streak, p, probe > 0 && lastCompleted > Multiple(interval, probe));
      lastCompleted := p.completed;
      if streak.identical >= 2 && p.requested - streak.since >= stableFor {
        return Stable(probe, streak.identical, p.completed, probe + 1);
      }
      StillUndecided(world, interval, stableFor, timeout, probe);
      probe := probe + 1;
    }
  }

  // ---------------------------------------------------------------- the verdict, said of the script alone

  /** Probes i to j brought one and the same picture, and none was due while the capture before it was in flight. */
  ghost predicate HeldStill(world: seq<Probe>, interval: int, i: int, j: int) {
    && 0 <= i <= j < |world|
    && (forall k :: i <= k <= j ==> world[k].answer.Captured? && world[k].answer.digestParses)
    && (forall k :: i <= k <= j ==> world[k].answer.frame == world[i].answer.frame)
    && (forall k :: i <= k < j ==> world[k].completed <= (k + 1) * interval)
  }

  lemma RunHeldStill(world: seq<Probe>, interval: int, i: nat, j: nat)
    requires j < |world|
    ensures Run(world, interval, i, j) <==> HeldStill(world, interval, i, j)
  {
    forall k: int | i <= k < j ensures Late(world, interval, k + 1) <==> world[k].completed > (k + 1) * interval {
      MultipleIsProduct(interval, k + 1);
    }
    if Run(world, interval, i, j) {
      forall k: int | i <= k <= j ensures Usable(world[k]) && world[k].answer.frame == world[i].answer.frame {
        assert k > i ==> Continues(world, interval, i, k);
      }
      forall k: int | i <= k < j ensures world[k].completed <= (k + 1) * interval {
        assert Continues(world, interval, i, k + 1);
      }
    }
    if HeldStill(world, interval, i, j) {
      assert Usable(world[i]);
      forall k: nat | i < k <= j ensures Continues(world, interval, i, k) {
        var before := k - 1;
        assert world[before].completed <= (before + 1) * interval;
      }
    }
  }

  /** Probe m went on the wait: it was made in time and answered, and proved nothing yet. */
  ghost predicate WentOn(world: seq<Probe>, interval: int, stableFor: int, timeout: int, m: int)
    requires 0 <= m < |world|
  {
    && !world[m].cancelled && world[m].requested < timeout && !world[m].answer.ContextEnded?
    && forall i :: HeldStill(world, interval, i, m) ==> world[m].requested - world[i].requested < stableFor
  }

  lemma UndecidedWentOn(world: seq<Probe>, interval: int, stableFor: int, timeout: int, k: nat)
    requires k <= |world| && Undecided(world, interval, stableFor, timeout, k)
    ensures forall m :: 0 <= m < k ==> WentOn(world, interval, stableFor, timeout, m)
  {
    forall m | 0 <= m < k ensures WentOn(world, interval, stableFor, timeout, m) {
      assert !Ends(world, timeout, m) && !StableAt(world, interval, stableFor, m);
      forall i | HeldStill(world, interval, i, m) ensures world[m].requested - world[i].requested < stableFor {
        RunHeldStill(world, interval, i, m);
      }
    }
  }

  lemma MaximalHeldStill(world: seq<Probe>, interval: int, i: nat, j: nat)
    requires j < |world| && Maximal(world, interval, i, j)
    ensures HeldStill(world, interval, i, j) && !HeldStill(world, interval, i - 1, j)
  {
    RunHeldStill(world, interval, i, j);
    if i > 0 {
      RunHeldStill(world, interval, i - 1, j);
    }
  }

  /**
   Every result in terms of what the world did. Stable: the picture held still for long enough up to this probe and
   for no earlier one, and the observations reach back as far as it held. Timed out: no probe proved it, and the
   observations are how far back the last picture held, none if there is none to compare. Cancelled: by the caller, in a
   wait or in a capture.
   */
  lemma VerdictInFull(world: seq<Probe>, interval: int, stableFor: int, timeout: int, r: WaitResult)
    requires stableFor > 0 && timeout > 0 && Judged(world, interval, stableFor, timeout, r)
    ensures r.probe < |world| && forall m :: 0 <= m < r.probe ==> WentOn(world, interval, stableFor, timeout, m)
    ensures r.Stable? ==>
      var (i, j) := (r.probe + 1 - r.observations, r.probe);
      && r.observations >= 2 && HeldStill(world, interval, i, j) && !HeldStill(world, interval, i - 1, j)
      && world[j].requested < timeout && !world[j].cancelled
      && (exists k :: HeldStill(world, interval, k, j) && world[j].requested - world[k].requested >= stableFor)
      && r.duration == world[j].completed && r.probes == j + 1
    ensures r.TimedOut? ==>
      var (i, j) := (r.probe - r.observations, r.probe - 1);
      && !world[r.probe].cancelled && world[r.probe].requested >= timeout && r.probes == r.probe
      && (r.observations == 0 <==> j < 0 || !world[j].answer.Captured? || !world[j].answer.digestParses)
      && (r.observations > 0 ==> HeldStill(world, interval, i, j) && !HeldStill(world, interval, i - 1, j))
    ensures r.Cancelled? ==>
      if world[r.probe].cancelled then r.probes == r.probe
      else world[r.probe].requested < timeout && world[r.probe].answer.ContextEnded? && r.probes == r.probe + 1
  {
    UndecidedWentOn(world, interval, stableFor, timeout, r.probe);
    if r.Stable? {
      MaximalHeldStill(world, interval, r.probe + 1 - r.observations, r.probe);
      var k: nat :| Run(world, interval, k, r.probe) && world[r.probe].requested - world[k].requested >= stableFor;
      RunHeldStill(world, interval, k, r.probe);
    } else if r.TimedOut? && r.observations > 0 {
      MaximalHeldStill(world, interval, r.probe - r.observations, r.probe - 1);
    }
  }

  lemma StillUndecided(world: seq<Probe>, interval: int, stableFor: int, timeout: int, k: nat)
    requires k < |world| && Undecided(world, interval, stableFor, timeout, k)
    requires !Ends(world, timeout, k) && !StableAt(world, interval, stableFor, k)
    ensures Undecided(world, interval, stableFor, timeout, k + 1)
  {
  }

  /** A first stable probe leaves the wait no other result. */
  lemma FirstStableIsTheVerdict(world: seq<Probe>, interval: int, stableFor: int, timeout: int, j: nat, r: WaitResult)
    requires stableFor > 0 && timeout > 0
    requires j < |world|
    requires FirstStable(world, interval, stableFor, timeout, j) && Judged(world, interval, stableFor, timeout, r)
    ensures r.Stable? && r.probe == j
  {
    assert Ends(world, timeout, r.probe) || FirstStable(world, interval, stableFor, timeout, r.probe);
  }

  /** A probe asked for before the timeout has its deadline before the timeout, so the script goes on. */
  lemma InTime(world: seq<Probe>, interval: int, timeout: int, k: nat)
    requires interval > 0 && Plausible(world, interval, timeout)
    requires k < |world| && !world[k].cancelled && world[k].requested < timeout
    requires Multiple(interval, |world| - 1) >= timeout
    ensures Multiple(interval, k) < timeout && k + 1 < |world|
  {
    assert Timely(world[k], Multiple(interval, k), timeout);
  }

  lemma RunGrows(world: seq<Probe>, interval: int, i: nat, j: nat)
    requires i < j < |world| && Maximal(world, interval, i, j - 1) && Continues(world, interval, i, j)
    ensures Maximal(world, interval, i, j)
  {
  }

  lemma RunFrame(world: seq<Probe>, interval: int, i: nat, j: nat)
    requires j < |world| && Run(world, interval, i, j)
    ensures Usable(world[j]) && world[j].answer.frame == world[i].answer.frame
    ensures i < j ==>
      !Late(world, interval, j) && Usable(world[j - 1]) && world[j - 1].answer.frame == world[i].answer.frame
  {
    if i < j {
      assert Continues(world, interval, i, j);
      if i < j - 1 {
        assert Continues(world, interval, i, j - 1);
      }
    }
  }

  lemma RunStarts(world: seq<Probe>, interval: int, j: nat)
    requires j < |world| && Usable(world[j])
    requires j > 0 ==>
      Late(world, interval, j) || !Usable(world[j - 1]) || world[j - 1].answer.frame != world[j].answer.frame
    ensures Maximal(world, interval, j, j)
  {
    if j > 0 && Run(world, interval, j - 1, j) {
      RunFrame(world, interval, j - 1, j);
    }
  }
}
