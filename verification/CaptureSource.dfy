/**
 One output's capture source: callers, the compositor's answers, and the rule that retires a source whose request was
 abandoned. An answer carries no name on the wire; here it carries the request it answers, so that a mix-up would show.
 */
module CaptureSource {
  import opened Protocol

  datatype Kind = Complete | Retry | Fail

  /** The fields of a source. Each result channel has one slot. */
  datatype Shared = Shared(
    setup: bool, inFlight: bool, retired: bool, closed: bool,
    complete: Option<nat>, retry: Option<nat>, failed: Option<nat>)
  {
    function Slot(kind: Kind): Option<nat> {
      match kind
      case Complete => complete
      case Retry => retry
      case Fail => failed
    }

    function With(kind: Kind, slot: Option<nat>): Shared {
      match kind
      case Complete => this.(complete := slot)
      case Retry => this.(retry := slot)
      case Fail => this.(failed := slot)
    }

    /** A callback's send: a full channel keeps what it has. */
    function Offered(kind: Kind, answer: nat): Shared {
      if Slot(kind).None? then With(kind, Some(answer)) else this
    }

    predicate Empty() {
      complete.None? && retry.None? && failed.None?
    }
  }

  datatype Outcome =
    | SourceClosed | AnotherInFlight | SourceRetired | SetupFailed | SetupCancelled | NoBuffer | NotRequested
    | Cancelled(request: nat)
    | Unavailable(request: nat, answer: nat)
    | Captured(request: nat, answer: nat)

  /** The critical section at the start of Capture. */
  datatype Entry = Refused(outcome: Outcome) | Admitted

  class Source {
    var setup: bool
    var inFlight: bool
    var retired: bool
    var closed: bool
    var complete: Option<nat>
    var retry: Option<nat>
    var failed: Option<nat>

    function Value(): Shared
      reads this
    {
      Shared(setup, inFlight, retired, closed, complete, retry, failed)
    }

    constructor ()
      ensures Value() == Fresh()
    {
      setup, inFlight, retired, closed := false, false, false, false;
      complete, retry, failed := None, None, None;
    }

    method Enter() returns (entry: Entry)
      modifies this`inFlight
      ensures entry == EntryOf(old(Value()))
      ensures entry.Admitted? <==> !closed && !old(inFlight)
      ensures closed ==> entry == Refused(SourceClosed)
      ensures !closed && old(inFlight) ==> entry == Refused(AnotherInFlight)
      ensures Value() == old(Value()).(inFlight := old(inFlight) || entry.Admitted?)
    {
      if closed {
        return Refused(SourceClosed);
      }
      if inFlight {
        return Refused(AnotherInFlight);
      }
      inFlight := true;
      return Admitted;
    }

    method Leave()
      modifies this`inFlight
      ensures Value() == old(Value()).(inFlight := false)
    {
      inFlight := false;
    }

    method Retire()
      modifies this`retired
      ensures Value() == old(Value()).(retired := true)
    {
      retired := true;
    }

    method Close() returns (destroy: bool)
      modifies this`closed
      ensures Value() == old(Value()).(closed := true) && destroy == !old(closed)
    {
      if closed {
        return false;
      }
      closed := true;
      return true;
    }

    /** OnComplete, OnRetry and fail. */
    method Offer(kind: Kind, answer: nat)
      modifies this
      ensures Value() == old(Value()).Offered(kind, answer)
      ensures Value() == old(Value()).With(kind, Value().Slot(kind))
      ensures Value().Slot(kind) == if old(Value()).Slot(kind).None? then Some(answer) else old(Value()).Slot(kind)
    {
      match kind
      case Complete =>
        if complete.None? {
          complete := Some(answer);
        }
      case Retry =>
        if retry.None? {
          retry := Some(answer);
        }
      case Fail =>
        if failed.None? {
          failed := Some(answer);
        }
    }

    /** A receive from one channel that has something. */
    method Take(kind: Kind) returns (answer: nat)
      requires Value().Slot(kind).Some?
      modifies this
      ensures answer == old(Value()).Slot(kind).value
      ensures Value() == old(Value()).With(kind, None)
    {
      match kind
      case Complete =>
        answer, complete := complete.value, None;
      case Retry =>
        answer, retry := retry.value, None;
      case Fail =>
        answer, failed := failed.value, None;
    }
  }

  function Fresh(): Shared {
    Shared(false, false, false, false, None, None, None)
  }

  function EntryOf(s: Shared): Entry {
    if s.closed then Refused(SourceClosed) else if s.inFlight then Refused(AnotherInFlight) else Admitted
  }

  // ---------------------------------------------------------------- callers and compositor

  /** Where a caller stands between two moments at which something shared is read or written. */
  datatype Phase =
    | Idle
    | AwaitsSetup            // in WaitForSetup's select, the setup not known when it last looked
    | Ready                  // the setup known, before the critical section
    | Entered                // inFlight is its own, before the retirement check
    | Checked                // the source was not retired, before the request
    | Waiting(request: nat)  // in the select for a result
    | Abandoning(request: nat) // its context ended, before the source is marked
    | Leaving(outcome: Outcome)

  predicate Busy(p: Phase) {
    p.Entered? || p.Checked? || p.Waiting? || p.Abandoning? || p.Leaving?
  }

  predicate Outstanding(p: Phase) {
    p.Waiting? || p.Abandoning?
  }

  /**
   Owed holds the requests the compositor has not answered, answered how it answered the others, issued counts the
   requests made.
   */
  datatype System = System(
    source: Shared, phases: map<nat, Phase>, owed: set<nat>, answered: map<nat, Kind>, issued: nat, abandoned: set<nat>,
    outcomes: seq<Outcome>)

  function PhaseOf(s: System, c: nat): Phase {
    if c in s.phases then s.phases[c] else Idle
  }

  function Goes(s: System, c: nat, p: Phase): System {
    s.(phases := s.phases[c := p])
  }

  datatype Step =
    | Announce                       // the compositor has announced a usable size and format
    | Look(caller: nat)              // WaitForSetup reads the fields
    | StealFailure(caller: nat)      // WaitForSetup's select takes a failure
    | CancelSetup(caller: nat)
    | Enter(caller: nat)
    | LackBuffer(caller: nat)
    | CheckRetired(caller: nat)
    | Request(caller: nat, accepted: bool)
    | Answer(request: nat, kind: Kind)
    | Receive(caller: nat, kind: Kind)
    | Abandon(caller: nat)
    | MarkRetired(caller: nat)
    | Leave(caller: nat)
    | Close

  function Init(): System {
    System(Fresh(), map[], {}, map[], 0, {}, [])
  }

  predicate Enabled(s: System, step: Step) {
    match step
    case Announce => true
    case Look(c) => PhaseOf(s, c).Idle? || PhaseOf(s, c).AwaitsSetup?
    case StealFailure(c) => PhaseOf(s, c).AwaitsSetup? && s.source.failed.Some?
    case CancelSetup(c) => PhaseOf(s, c).AwaitsSetup?
    case Enter(c) => PhaseOf(s, c).Ready?
    case LackBuffer(c) => PhaseOf(s, c).Entered?
    case CheckRetired(c) => PhaseOf(s, c).Entered?
    case Request(c, _) => PhaseOf(s, c).Checked?
    case Answer(request, _) => request in s.owed
    case Receive(c, kind) => PhaseOf(s, c).Waiting? && s.source.Slot(kind).Some?
    case Abandon(c) => PhaseOf(s, c).Waiting?
    case MarkRetired(c) => PhaseOf(s, c).Abandoning?
    case Leave(c) => PhaseOf(s, c).Leaving?
    case Close => true
  }

  function Ends(s: System, c: nat, outcome: Outcome): System {
    Goes(s, c, Idle).(outcomes := s.outcomes + [outcome])
  }

  function Next(s: System, step: Step): System
    requires Enabled(s, step)
  {
    match step
    case Announce => s.(source := s.source.(setup := true))
    case Look(c) => Goes(s, c, if s.source.setup then Ready else AwaitsSetup)
    case StealFailure(c) => Ends(s.(source := s.source.With(Fail, None)), c, SetupFailed)
    case CancelSetup(c) => Ends(s, c, SetupCancelled)
    case Enter(c) =>
      (match EntryOf(s.source)
       case Refused(outcome) => Ends(s, c, outcome)
       case Admitted => Goes(s, c, Entered).(source := s.source.(inFlight := true)))
    case LackBuffer(c) => Goes(s, c, Leaving(NoBuffer))
    case CheckRetired(c) => Goes(s, c, if s.source.retired then Leaving(SourceRetired) else Checked)
    case Request(c, accepted) =>
      if accepted then Goes(s, c, Waiting(s.issued)).(owed := s.owed + {s.issued}, issued := s.issued + 1)
      else Goes(s, c, Leaving(NotRequested))
    case Answer(request, kind) =>
      s.(owed := s.owed - {request}, answered := s.answered[request := kind],
         source := s.source.Offered(kind, request))
    case Receive(c, kind) =>
      var request, answer := PhaseOf(s, c).request, s.source.Slot(kind).value;
      Goes(s, c, Leaving(if kind.Complete? then Captured(request, answer) else Unavailable(request, answer)))
        .(source := s.source.With(kind, None))
    case Abandon(c) =>
      Goes(s, c, Abandoning(PhaseOf(s, c).request)).(abandoned := s.abandoned + {PhaseOf(s, c).request})
    case MarkRetired(c) =>
      Goes(s, c, Leaving(Cancelled(PhaseOf(s, c).request))).(source := s.source.(retired := true))
    case Leave(c) => Ends(s, c, PhaseOf(s, c).outcome).(source := s.source.(inFlight := false))
    case Close => s.(source := s.source.(closed := true))
  }

  predicate IsRun(s: System, steps: seq<Step>)
    decreases |steps|
  {
    steps == [] || (Enabled(s, steps[0]) && IsRun(Next(s, steps[0]), steps[1..]))
  }

  function After(s: System, steps: seq<Step>): System
    requires IsRun(s, steps)
    decreases |steps|
  {
    if steps == [] then s else After(Next(s, steps[0]), steps[1..])
  }

  // ---------------------------------------------------------------- the invariant

  /** The compositor owes nothing and the channels are empty. */
  predicate Quiet(s: System) {
    s.owed == {} && s.source.Empty()
  }

  /** Nothing is on its way except at most one answer to this request. */
  predicate OnlyAnswers(s: System, request: nat) {
    && (s.owed == {} || (s.owed == {request} && s.source.Empty()))
    && (forall kind: Kind :: s.source.Slot(kind) == None || s.source.Slot(kind) == Some(request))
    && (forall k: Kind, l: Kind :: s.source.Slot(k).Some? && s.source.Slot(l).Some? ==> k == l)
  }

  /** An outcome that carries an answer carries the answer to its own request. */
  predicate Own(outcome: Outcome) {
    outcome.Captured? || outcome.Unavailable? ==> outcome.answer == outcome.request
  }

  predicate PhaseFits(s: System, p: Phase) {
    && (Busy(p) ==> s.source.inFlight)
    && (p.Checked? ==> !s.source.retired)
    && (Outstanding(p) ==> !s.source.retired && p.request + 1 == s.issued && OnlyAnswers(s, p.request))
    && (p.Leaving? ==> Own(p.outcome))
  }

  predicate Alone(s: System, c: nat, d: nat) {
    Busy(PhaseOf(s, c)) && Busy(PhaseOf(s, d)) ==> c == d
  }

  ghost predicate NobodyWaits(s: System) {
    forall c: nat :: !Outstanding(PhaseOf(s, c))
  }

  ghost predicate SomebodyAbandons(s: System) {
    exists c: nat :: PhaseOf(s, c).Abandoning?
  }

  ghost predicate Inv(s: System) {
    && (forall c: nat :: PhaseFits(s, PhaseOf(s, c)))
    && (forall c: nat, d: nat :: Alone(s, c, d))
    && (!s.source.retired && NobodyWaits(s) ==> Quiet(s))
    && (forall request :: request in s.abandoned ==> request + 1 == s.issued)
    && (s.abandoned != {} ==> s.source.retired || SomebodyAbandons(s))
    && (forall i :: 0 <= i < |s.outcomes| ==> Own(s.outcomes[i]))
  }

  /** A step by one caller: the others stay where they are and still fit. */
  ghost predicate OthersFit(s: System, next: System, c: nat) {
    forall d: nat :: d != c ==> PhaseOf(next, d) == PhaseOf(s, d) && PhaseFits(next, PhaseOf(next, d))
  }

  /** A busy caller is the only one, so what it changes cannot upset another. */
  lemma BusyStepKeepsOthers(s: System, next: System, c: nat)
    requires Inv(s) && Busy(PhaseOf(s, c))
    requires forall d: nat :: d != c ==> PhaseOf(next, d) == PhaseOf(s, d)
    ensures OthersFit(s, next, c)
    ensures forall d: nat :: Alone(next, c, d)
    ensures forall d: nat :: d != c ==> !Busy(PhaseOf(s, d))
  {
    forall d: nat | d != c ensures !Busy(PhaseOf(s, d)) && PhaseFits(next, PhaseOf(next, d)) {
      assert Alone(s, c, d) && PhaseFits(s, PhaseOf(s, d));
    }
  }

  lemma BusyStepKeepsInv(s: System, next: System, c: nat)
    requires Inv(s) && Busy(PhaseOf(s, c))
    requires forall d: nat :: d != c ==> PhaseOf(next, d) == PhaseOf(s, d)
    requires PhaseFits(next, PhaseOf(next, c))
    requires !next.source.retired && !Outstanding(PhaseOf(next, c)) ==> Quiet(next)
    requires forall request :: request in next.abandoned ==> request + 1 == next.issued
    requires next.abandoned != {} ==> next.source.retired || PhaseOf(next, c).Abandoning?
    requires forall i :: 0 <= i < |next.outcomes| ==> Own(next.outcomes[i])
    ensures Inv(next)
  {
    BusyStepKeepsOthers(s, next, c);
    forall d: nat, e: nat ensures Alone(next, d, e) {
      assert Alone(next, c, d) && Alone(next, c, e);
    }
    forall d: nat ensures PhaseFits(next, PhaseOf(next, d)) {
      assert d != c ==> PhaseFits(next, PhaseOf(next, d));
    }
    assert NobodyWaits(next) ==> !Outstanding(PhaseOf(next, c));
  }

  /** If one busy caller is not outstanding, nobody is. */
  lemma NobodyElseWaits(s: System, c: nat)
    requires Inv(s) && Busy(PhaseOf(s, c)) && !Outstanding(PhaseOf(s, c))
    ensures NobodyWaits(s)
    ensures !SomebodyAbandons(s)
  {
    forall d: nat ensures !Outstanding(PhaseOf(s, d)) {
      assert Alone(s, c, d);
    }
  }

  lemma BusyCallerStep(s: System, step: Step, c: nat)
    requires Inv(s) && Enabled(s, step)
    requires step == LackBuffer(c) || step == CheckRetired(c) || step == Request(c, true) || step == Request(c, false)
    ensures Inv(Next(s, step))
  {
    NobodyElseWaits(s, c);
    BusyStepKeepsInv(s, Next(s, step), c);
  }

  /** Taking the one answer there is empties the channels. */
  lemma TakenIsLast(source: Shared, kind: Kind)
    requires source.Slot(kind).Some?
    requires forall k: Kind, l: Kind :: source.Slot(k).Some? && source.Slot(l).Some? ==> k == l
    ensures source.With(kind, None).Empty()
  {
    assert source.Slot(Complete) == source.complete && source.Slot(Retry) == source.retry
      && source.Slot(Fail) == source.failed;
  }

  /** A caller waiting for its answer has nobody's abandoned request to fear. */
  lemma WaitingMeansNoneAbandoned(s: System, c: nat)
    requires Inv(s) && PhaseOf(s, c).Waiting?
    ensures s.abandoned == {} && !s.source.retired && OnlyAnswers(s, PhaseOf(s, c).request)
  {
    assert PhaseFits(s, PhaseOf(s, c));
    forall d: nat ensures !PhaseOf(s, d).Abandoning? {
      assert Alone(s, c, d);
    }
    assert !SomebodyAbandons(s);
  }

  lemma ReceiveStep(s: System, c: nat, kind: Kind)
    requires Inv(s) && Enabled(s, Receive(c, kind))
    ensures Inv(Next(s, Receive(c, kind)))
  {
    WaitingMeansNoneAbandoned(s, c);
    TakenIsLast(s.source, kind);
    BusyStepKeepsInv(s, Next(s, Receive(c, kind)), c);
  }

  lemma AbandonStep(s: System, c: nat)
    requires Inv(s) && Enabled(s, Abandon(c))
    ensures Inv(Next(s, Abandon(c)))
  {
    WaitingMeansNoneAbandoned(s, c);
    assert PhaseFits(s, PhaseOf(s, c));
    BusyStepKeepsInv(s, Next(s, Abandon(c)), c);
  }

  lemma MarkRetiredStep(s: System, c: nat)
    requires Inv(s) && Enabled(s, MarkRetired(c))
    ensures Inv(Next(s, MarkRetired(c)))
  {
    assert PhaseFits(s, PhaseOf(s, c));
    BusyStepKeepsInv(s, Next(s, MarkRetired(c)), c);
  }

  lemma LeaveStep(s: System, c: nat)
    requires Inv(s) && Enabled(s, Leave(c))
    ensures Inv(Next(s, Leave(c)))
  {
    NobodyElseWaits(s, c);
    assert PhaseFits(s, PhaseOf(s, c));
    BusyStepKeepsInv(s, Next(s, Leave(c)), c);
  }

  /** A caller that holds nothing moves without touching what the others rely on. */
  lemma FreeCallerStep(s: System, step: Step, c: nat)
    requires Inv(s) && Enabled(s, step)
    requires step == Look(c) || step == CancelSetup(c) || step == StealFailure(c) || step == Enter(c)
    ensures Inv(Next(s, step))
  {
    var next := Next(s, step);
    forall d: nat ensures PhaseFits(next, PhaseOf(next, d)) {
      assert PhaseFits(s, PhaseOf(s, d));
      if step.StealFailure? && Outstanding(PhaseOf(s, d)) {
        StolenIsLast(s, PhaseOf(s, d).request);
      }
    }
    forall d: nat, e: nat ensures Alone(next, d, e) {
      assert Alone(s, d, e) && PhaseFits(s, PhaseOf(s, d)) && PhaseFits(s, PhaseOf(s, e));
    }
    forall d: nat ensures Outstanding(PhaseOf(next, d)) <==> Outstanding(PhaseOf(s, d)) {
    }
    assert NobodyWaits(next) ==> NobodyWaits(s);
    if SomebodyAbandons(s) {
      var d: nat :| PhaseOf(s, d).Abandoning?;
      assert PhaseOf(next, d).Abandoning?;
    }
  }

  lemma StolenIsLast(s: System, request: nat)
    requires OnlyAnswers(s, request) && s.source.failed.Some?
    ensures OnlyAnswers(s.(source := s.source.With(Fail, None)), request)
  {
    assert s.source.Slot(Fail).Some?;
    TakenIsLast(s.source, Fail);
  }

  /** The compositor answers. The answer is dropped only by a source that nobody can use any more. */
  lemma AnswerStep(s: System, request: nat, kind: Kind)
    requires Inv(s) && Enabled(s, Answer(request, kind))
    ensures Inv(Next(s, Answer(request, kind)))
    ensures !s.source.retired ==> Next(s, Answer(request, kind)).source.Slot(kind) == Some(request)
  {
    var next := Next(s, Answer(request, kind));
    forall d: nat ensures PhaseFits(next, PhaseOf(next, d)) {
      assert PhaseFits(s, PhaseOf(s, d));
      if Outstanding(PhaseOf(s, d)) {
        AnswerIsFirst(s, PhaseOf(s, d).request, request, kind);
      }
    }
    forall d: nat, e: nat ensures Alone(next, d, e) {
      assert Alone(s, d, e);
    }
    if !s.source.retired {
      assert !NobodyWaits(s);
      var c: nat :| Outstanding(PhaseOf(s, c));
      assert PhaseFits(s, PhaseOf(s, c)) && Outstanding(PhaseOf(next, c));
      AnswerIsFirst(s, PhaseOf(s, c).request, request, kind);
    }
    if SomebodyAbandons(s) {
      var d: nat :| PhaseOf(s, d).Abandoning?;
      assert PhaseOf(next, d).Abandoning?;
    }
  }

  lemma AnswerIsFirst(s: System, mine: nat, request: nat, kind: Kind)
    requires OnlyAnswers(s, mine) && request in s.owed
    ensures request == mine && OnlyAnswers(Next(s, Answer(request, kind)), mine)
    ensures Next(s, Answer(request, kind)).source.Slot(kind) == Some(request)
  {
    var source := Next(s, Answer(request, kind)).source;
    forall k: Kind ensures source.Slot(k) == if k == kind then Some(request) else None {
    }
  }

  /** The compositor announces itself, or somebody closes the source. */
  lemma FlagStep(s: System, step: Step)
    requires Inv(s) && (step.Announce? || step.Close?)
    ensures Inv(Next(s, step))
  {
    var next := Next(s, step);
    forall d: nat ensures PhaseFits(next, PhaseOf(next, d)) {
      assert PhaseFits(s, PhaseOf(s, d));
      forall k: Kind ensures next.source.Slot(k) == s.source.Slot(k) {
      }
    }
    forall d: nat, e: nat ensures Alone(next, d, e) {
      assert Alone(s, d, e);
    }
    forall d: nat ensures PhaseOf(next, d) == PhaseOf(s, d) {
    }
    if SomebodyAbandons(s) {
      var d: nat :| PhaseOf(s, d).Abandoning?;
      assert PhaseOf(next, d).Abandoning?;
    }
    assert NobodyWaits(next) ==> NobodyWaits(s);
  }

  lemma StepKeepsInv(s: System, step: Step)
    requires Inv(s) && Enabled(s, step)
    ensures Inv(Next(s, step))
  {
    match step
    case Announce => FlagStep(s, step);
    case Look(c) => FreeCallerStep(s, step, c);
    case StealFailure(c) => FreeCallerStep(s, step, c);
    case CancelSetup(c) => FreeCallerStep(s, step, c);
    case Enter(c) => FreeCallerStep(s, step, c);
    case LackBuffer(c) => BusyCallerStep(s, step, c);
    case CheckRetired(c) => BusyCallerStep(s, step, c);
    case Request(c, accepted) => BusyCallerStep(s, step, c);
    case Answer(request, kind) => AnswerStep(s, request, kind);
    case Receive(c, kind) => ReceiveStep(s, c, kind);
    case Abandon(c) => AbandonStep(s, c);
    case MarkRetired(c) => MarkRetiredStep(s, c);
    case Leave(c) => LeaveStep(s, c);
    case Close => FlagStep(s, step);
  }

  lemma {:induction false} RunKeepsInv(s: System, steps: seq<Step>)
    requires Inv(s) && IsRun(s, steps)
    ensures Inv(After(s, steps))
    decreases |steps|
  {
    if steps != [] {
      StepKeepsInv(s, steps[0]);
      RunKeepsInv(Next(s, steps[0]), steps[1..]);
    }
  }

  // ---------------------------------------------------------------- what a source promises

  ghost predicate Reachable(s: System) {
    exists steps :: IsRun(Init(), steps) && After(Init(), steps) == s
  }

  lemma ReachableInv(s: System)
    requires Reachable(s)
    ensures Inv(s)
  {
    var steps :| IsRun(Init(), steps) && After(Init(), steps) == s;
    RunKeepsInv(Init(), steps);
  }

  /** In every run a result answers the very request it is returned for. */
  lemma ResultsAnswerTheirOwnRequest(s: System, i: nat)
    requires Reachable(s) && i < |s.outcomes|
    ensures Own(s.outcomes[i])
  {
    ReachableInv(s);
  }

  /** A source that is neither retired nor waiting is owed nothing and has nothing in its channels. */
  lemma FreeSourceIsQuiet(s: System)
    requires Reachable(s)
    ensures !s.source.retired && NobodyWaits(s) ==> Quiet(s)
    ensures !s.source.retired && !s.source.inFlight ==> Quiet(s)
  {
    ReachableInv(s);
    forall c: nat | !s.source.inFlight ensures !Outstanding(PhaseOf(s, c)) {
      assert PhaseFits(s, PhaseOf(s, c));
    }
  }

  /** An abandoned request is the last the source ever makes. */
  lemma NothingFollowsAnAbandonedRequest(s: System, request: nat)
    requires Reachable(s) && request in s.abandoned
    ensures request + 1 == s.issued
  {
    ReachableInv(s);
  }

  /** At most one caller is between entering and leaving, and every request is made on an empty source. */
  lemma RequestsAreMadeOnAQuietSource(s: System, c: nat, accepted: bool)
    requires Reachable(s) && Enabled(s, Request(c, accepted))
    ensures Quiet(s) && s.abandoned == {}
    ensures forall d: nat :: d != c ==> !Busy(PhaseOf(s, d))
  {
    ReachableInv(s);
    assert PhaseFits(s, PhaseOf(s, c));
    NobodyElseWaits(s, c);
    BusyStepKeepsOthers(s, s, c);
    assert !SomebodyAbandons(s);
  }

  // ---------------------------------------------------------------- what an outcome says of the compositor

  /** A captured frame was announced complete; an unavailable one was answered otherwise. */
  predicate True(s: System, outcome: Outcome) {
    && (outcome.Captured? ==> outcome.answer in s.answered && s.answered[outcome.answer].Complete?)
    && (outcome.Unavailable? ==> outcome.answer in s.answered && !s.answered[outcome.answer].Complete?)
  }

  /** What lies in a channel was answered in that way. */
  predicate SlotTrue(s: System, kind: Kind) {
    s.source.Slot(kind).Some? ==>
      s.source.Slot(kind).value in s.answered && s.answered[s.source.Slot(kind).value] == kind
  }

  /** A caller past its wait found the source set up, and an outcome about to be returned is true. */
  predicate PhaseTrue(s: System, p: Phase) {
    && (p.Leaving? ==> True(s, p.outcome))
    && (!p.Idle? && !p.AwaitsSetup? ==> s.source.setup)
  }

  ghost predicate TruthInv(s: System) {
    && (forall request :: request in s.owed ==> request < s.issued && request !in s.answered)
    && (forall request :: request in s.answered ==> request < s.issued)
    && (forall kind: Kind :: SlotTrue(s, kind))
    && (forall c: nat :: PhaseTrue(s, PhaseOf(s, c)))
    && (forall i :: 0 <= i < |s.outcomes| ==> True(s, s.outcomes[i]))
  }

  /** The compositor answers each request once, so what was said of earlier answers stays true. */
  lemma AnswerKeepsTruth(s: System, request: nat, kind: Kind)
    requires TruthInv(s) && Enabled(s, Answer(request, kind))
    ensures TruthInv(Next(s, Answer(request, kind)))
  {
    var next := Next(s, Answer(request, kind));
    forall k: Kind ensures SlotTrue(next, k) {
      assert SlotTrue(s, k);
    }
    forall c: nat ensures PhaseTrue(next, PhaseOf(next, c)) {
      assert PhaseTrue(s, PhaseOf(s, c));
    }
    forall i | 0 <= i < |next.outcomes| ensures True(next, next.outcomes[i]) {
      assert True(s, s.outcomes[i]);
    }
  }

  lemma ReceiveKeepsTruth(s: System, c: nat, kind: Kind)
    requires TruthInv(s) && Enabled(s, Receive(c, kind))
    ensures TruthInv(Next(s, Receive(c, kind)))
  {
    var next := Next(s, Receive(c, kind));
    assert SlotTrue(s, kind);
    OthersKeepTruth(s, next, c);
  }

  /** A caller moves, perhaps taking something from a channel or ending with an outcome that is true. */
  lemma OthersKeepTruth(s: System, next: System, c: nat)
    requires TruthInv(s) && next.answered == s.answered && next.owed == s.owed && next.issued == s.issued
    requires forall d: nat :: d != c ==> PhaseOf(next, d) == PhaseOf(s, d)
    requires s.source.setup ==> next.source.setup
    requires PhaseTrue(next, PhaseOf(next, c))
    requires forall k: Kind :: next.source.Slot(k) == None || next.source.Slot(k) == s.source.Slot(k)
    requires next.outcomes == s.outcomes || (exists o :: True(s, o) && next.outcomes == s.outcomes + [o])
    ensures TruthInv(next)
  {
    forall k: Kind ensures SlotTrue(next, k) {
      assert SlotTrue(s, k);
    }
    forall d: nat ensures PhaseTrue(next, PhaseOf(next, d)) {
      assert PhaseTrue(s, PhaseOf(s, d));
    }
    forall i | 0 <= i < |next.outcomes| ensures True(next, next.outcomes[i]) {
      assert i < |s.outcomes| ==> True(s, s.outcomes[i]);
    }
  }

  lemma CallerKeepsTruth(s: System, step: Step, c: nat)
    requires TruthInv(s) && Enabled(s, step)
    requires step == Look(c) || step == StealFailure(c) || step == CancelSetup(c) || step == Enter(c)
          || step == LackBuffer(c) || step == CheckRetired(c) || step == Request(c, false) || step == Abandon(c)
          || step == MarkRetired(c) || step == Leave(c)
    ensures TruthInv(Next(s, step))
  {
    assert PhaseTrue(s, PhaseOf(s, c));
    OthersKeepTruth(s, Next(s, step), c);
  }

  lemma RequestKeepsTruth(s: System, c: nat)
    requires TruthInv(s) && Enabled(s, Request(c, true))
    ensures TruthInv(Next(s, Request(c, true)))
  {
    var next := Next(s, Request(c, true));
    assert PhaseTrue(s, PhaseOf(s, c));
    forall k: Kind ensures SlotTrue(next, k) {
      assert SlotTrue(s, k);
    }
    forall d: nat ensures PhaseTrue(next, PhaseOf(next, d)) {
      assert PhaseTrue(s, PhaseOf(s, d));
    }
    forall i | 0 <= i < |next.outcomes| ensures True(next, next.outcomes[i]) {
      assert True(s, s.outcomes[i]);
    }
  }

  lemma FlagKeepsTruth(s: System, step: Step)
    requires TruthInv(s) && (step.Announce? || step.Close?)
    ensures TruthInv(Next(s, step))
  {
    var next := Next(s, step);
    forall k: Kind ensures SlotTrue(next, k) {
      assert SlotTrue(s, k) && next.source.Slot(k) == s.source.Slot(k);
    }
    forall d: nat ensures PhaseTrue(next, PhaseOf(next, d)) {
      assert PhaseTrue(s, PhaseOf(s, d));
    }
    forall i | 0 <= i < |next.outcomes| ensures True(next, next.outcomes[i]) {
      assert True(s, s.outcomes[i]);
    }
  }

  lemma StepKeepsTruth(s: System, step: Step)
    requires TruthInv(s) && Enabled(s, step)
    ensures TruthInv(Next(s, step))
  {
    match step
    case Announce => FlagKeepsTruth(s, step);
    case Close => FlagKeepsTruth(s, step);
    case Answer(request, kind) => AnswerKeepsTruth(s, request, kind);
    case Receive(c, kind) => ReceiveKeepsTruth(s, c, kind);
    case Request(c, accepted) =>
      if accepted {
        RequestKeepsTruth(s, c);
      } else {
        CallerKeepsTruth(s, step, c);
      }
    case _ => CallerKeepsTruth(s, step, step.caller);
  }

  lemma {:induction false} RunKeepsTruth(s: System, steps: seq<Step>)
    requires TruthInv(s) && IsRun(s, steps)
    ensures TruthInv(After(s, steps))
    decreases |steps|
  {
    if steps != [] {
      StepKeepsTruth(s, steps[0]);
      RunKeepsTruth(Next(s, steps[0]), steps[1..]);
    }
  }

  lemma ReachableTruth(s: System)
    requires Reachable(s)
    ensures TruthInv(s)
  {
    var steps :| IsRun(Init(), steps) && After(Init(), steps) == s;
    RunKeepsTruth(Init(), steps);
  }

  /**
   A capture is returned only where the compositor announced that very request complete, an absence only where it did
   not.
   */
  lemma CapturedMeansComplete(s: System, i: nat)
    requires Reachable(s) && i < |s.outcomes|
    ensures var o := s.outcomes[i];
      && (o.Captured? ==> o.request in s.answered && s.answered[o.request] == Complete)
      && (o.Unavailable? ==> o.request in s.answered && s.answered[o.request] != Complete)
  {
    ReachableTruth(s);
    ResultsAnswerTheirOwnRequest(s, i);
    assert True(s, s.outcomes[i]);
  }

  /** Nobody captures before the compositor has announced a size and a format. */
  lemma NobodyEntersBeforeSetup(s: System, c: nat)
    requires Reachable(s) && !s.source.setup
    ensures PhaseOf(s, c).Idle? || PhaseOf(s, c).AwaitsSetup?
    ensures s.issued == 0
  {
    ReachableTruth(s);
    assert PhaseTrue(s, PhaseOf(s, c));
    var steps :| IsRun(Init(), steps) && After(Init(), steps) == s;
    SetupFirst(Init(), steps);
  }

  lemma {:induction false} SetupFirst(s: System, steps: seq<Step>)
    requires TruthInv(s) && IsRun(s, steps) && (s.source.setup || s.issued == 0)
    ensures After(s, steps).source.setup || After(s, steps).issued == 0
    decreases |steps|
  {
    if steps != [] {
      StepKeepsTruth(s, steps[0]);
      if steps[0].Request? {
        assert PhaseTrue(s, PhaseOf(s, steps[0].caller));
      }
      SetupFirst(Next(s, steps[0]), steps[1..]);
    }
  }

  /** A closed source stays closed and admits nobody: whoever is busy afterwards was busy before. */
  lemma {:induction false} ClosedAdmitsNobody(s: System, steps: seq<Step>, c: nat)
    requires IsRun(s, steps) && s.source.closed
    ensures After(s, steps).source.closed
    ensures Busy(PhaseOf(After(s, steps), c)) ==> Busy(PhaseOf(s, c))
    decreases |steps|
  {
    if steps != [] {
      ClosedAdmitsNobody(Next(s, steps[0]), steps[1..], c);
    }
  }
}
