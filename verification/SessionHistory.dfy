/** A session's durable record and its container, through operations that a crash may cut short. */
module SessionHistory {
  import opened Protocol
  import opened Text

  type SessionId = string
  type ContainerId = nat

  datatype State = Creating | Ready | Running | Failed | Closing | Closed

  /** transitions: everything absent is refused. */
  predicate CanTransition(from: State, to: State) {
    match from
    case Creating => to.Ready? || to.Failed? || to.Closing?
    case Ready => to.Running? || to.Failed? || to.Closing?
    case Running => to.Ready? || to.Failed? || to.Closing?
    case Failed => to.Closing? || to.Closed?
    case Closing => to.Closed? || to.Failed?
    case Closed => false
  }

  predicate Interactive(s: State) {
    s.Ready? || s.Running?
  }

  datatype Record = Record(
    state: State, container: Option<ContainerId>, payloads: seq<string>, exitCode: Option<int>, deadline: int)
  {
    /** Expired; a zero deadline stands for none. */
    predicate Expired(now: int) {
      !state.Closed? && deadline != 0 && now > deadline
    }
  }

  datatype Observed = Gone | Stopped | Alive
  datatype Anomaly = ContainerMissing | CreationInterrupted | ContainerRetained | ContainerStopped

  /** fail: a cleanup in progress and a recorded failure are left alone. */
  function Fail(record: Record): Record {
    if record.state.Closed? || record.state.Closing? || record.state.Failed? then record else record.(state := Failed)
  }

  function Reconcile(record: Record, observed: Observed): (Record, Option<Anomaly>) {
    if record.state.Closed? then (record, if observed.Gone? then None else Some(ContainerRetained))
    else if observed.Gone? then (Fail(record), Some(ContainerMissing))
    else if observed.Stopped? then (Fail(record), Some(ContainerStopped))
    else if record.state.Creating? then (Fail(record), Some(CreationInterrupted))
    else (record, None)
  }

  /** Reconciling twice against the same engine is reconciling once, and it never invents progress. */
  lemma ReconcileIsIdempotent(record: Record, observed: Observed)
    ensures var (once, anomaly) := Reconcile(record, observed);
      && Reconcile(once, observed).0 == once
      && (once.state == record.state || (once.state.Failed? && CanTransition(record.state, Failed)))
      && once.container == record.container && once == record.(state := once.state)
      && (once != record ==> anomaly.Some?)
  {
  }

  /** The record's container exists, and runs. */
  predicate Found(containers: map<ContainerId, bool>, record: Record) {
    record.container.Some? && record.container.value in containers
  }

  predicate Runs(containers: map<ContainerId, bool>, record: Record) {
    record.container.Some? && record.container.value in containers && containers[record.container.value]
  }

  /**
   What reconciliation must make of a record, said of the containers alone. A session that is in use falls to failed
   exactly when its container does not run or it was still being created; nothing else changes. There is nothing to
   report exactly for a closed session without a container and for any other but a creating one whose container runs.
   */
  predicate Judged(
      was: Record, containers: map<ContainerId, bool>, now: Record, anomaly: Option<Anomaly>) {
    var used := was.state.Creating? || was.state.Ready? || was.state.Running?;
    && now == (if used && (!Runs(containers, was) || was.state.Creating?) then was.(state := Failed) else was)
    && (anomaly.None? <==>
         if was.state.Closed? then !Found(containers, was) else Runs(containers, was) && !was.state.Creating?)
    && (anomaly == Some(ContainerRetained) <==> was.state.Closed? && Found(containers, was))
    && (anomaly == Some(ContainerMissing) <==> !was.state.Closed? && !Found(containers, was))
    && (anomaly == Some(ContainerStopped) <==>
         !was.state.Closed? && Found(containers, was) && !Runs(containers, was))
    && (anomaly == Some(CreationInterrupted) <==> was.state.Creating? && Runs(containers, was))
  }

  lemma ReconcileIsJudged(record: Record, containers: map<ContainerId, bool>, now: Record, anomaly: Option<Anomaly>)
    ensures Reconcile(record, ObservedOf(containers, record)) == (now, anomaly) <==>
      Judged(record, containers, now, anomaly)
  {
  }

  // ---------------------------------------------------------------- history

  /** One saved state of a session, and whether Create wrote it. */
  datatype Saved = Saved(state: State, byCreate: bool)

  /** What may be saved after what: the same state, an edge of the table, or a new life of a closed session. */
  predicate Follows(before: Saved, after: Saved) {
    || before.state == after.state
    || CanTransition(before.state, after.state)
    || (before.state.Closed? && after == Saved(Creating, true))
  }

  predicate FollowsAt(saves: seq<Saved>, i: nat)
    requires i + 1 < |saves|
  {
    Follows(saves[i], saves[i + 1])
  }

  ghost predicate Lawful(saves: seq<Saved>) {
    && saves != [] && saves[0] == Saved(Creating, true)
    && forall i: nat :: i + 1 < |saves| ==> FollowsAt(saves, i)
  }

  /** A session's saved states are lawful, and the last of them is the stored one. */
  ghost predicate Told(store: map<SessionId, Record>, history: map<SessionId, seq<Saved>>, id: SessionId)
    requires id in store
  {
    id in history && Lawful(history[id]) && history[id][|history[id]| - 1].state == store[id].state
  }

  ghost predicate Consistent(store: map<SessionId, Record>, history: map<SessionId, seq<Saved>>) {
    && history.Keys == store.Keys
    && forall id :: id in store ==> Told(store, history, id)
  }

  /** What a save must be so that the history stays lawful. */
  predicate Savable(store: map<SessionId, Record>, id: SessionId, record: Record, byCreate: bool) {
    if id !in store then record.state.Creating? && byCreate
    else
      || store[id].state == record.state
      || CanTransition(store[id].state, record.state)
      || (store[id].state.Closed? && record.state.Creating? && byCreate)
  }

  function Append(history: map<SessionId, seq<Saved>>, id: SessionId, saved: Saved): map<SessionId, seq<Saved>> {
    history[id := (if id in history then history[id] else []) + [saved]]
  }

  lemma SaveKeepsConsistent(
      store: map<SessionId, Record>, history: map<SessionId, seq<Saved>>, id: SessionId, record: Record, byCreate: bool)
    requires Consistent(store, history) && Savable(store, id, record, byCreate)
    ensures Consistent(store[id := record], Append(history, id, Saved(record.state, byCreate)))
  {
    var store', history' := store[id := record], Append(history, id, Saved(record.state, byCreate));
    forall other | other in store' ensures Told(store', history', other) {
      if other != id {
        assert Told(store, history, other);
      } else if id in store {
        assert Told(store, history, id);
        LawfulGrows(history[id], Saved(record.state, byCreate));
      }
    }
  }

  /**
   What a lawful history rules out: it starts with a creation; a session runs only from ready, becomes ready only when
   created or after a run, and fails from anything but closed; a closed session is only ever created anew; and only
   creations are saved as creating.
   */
  lemma LawfulMeans(saves: seq<Saved>, i: nat)
    requires Lawful(saves) && i + 1 < |saves| && saves[i].state != saves[i + 1].state
    ensures saves[0].state.Creating? && saves[0].byCreate
    ensures saves[i + 1].state.Running? ==> saves[i].state.Ready?
    ensures saves[i + 1].state.Ready? ==> saves[i].state.Creating? || saves[i].state.Running?
    ensures saves[i + 1].state.Failed? ==> !saves[i].state.Closed?
    ensures saves[i + 1].state.Closed? ==> saves[i].state.Closing? || saves[i].state.Failed?
    ensures saves[i + 1].state.Closing? ==> !saves[i].state.Closed?
    ensures saves[i + 1].state.Creating? <==> saves[i].state.Closed?
    ensures saves[i + 1].state.Creating? ==> saves[i + 1].byCreate
  {
    assert FollowsAt(saves, i);
  }

  lemma LawfulGrows(saves: seq<Saved>, saved: Saved)
    requires Lawful(saves) && Follows(saves[|saves| - 1], saved)
    ensures Lawful(saves + [saved])
  {
    forall i: nat | i + 1 < |saves + [saved]| ensures FollowsAt(saves + [saved], i) {
      if i + 1 < |saves| {
        assert FollowsAt(saves, i);
      }
    }
  }

  // ---------------------------------------------------------------- containers

  predicate Houses(record: Record, c: ContainerId) {
    !record.state.Closed? && record.container == Some(c)
  }

  predicate HousedBy(store: map<SessionId, Record>, id: SessionId, c: ContainerId) {
    id in store && Houses(store[id], c)
  }

  /** Some record that is not closed carries the container's id. */
  ghost predicate Home(store: map<SessionId, Record>, c: ContainerId) {
    exists id :: HousedBy(store, id, c)
  }

  /** Every container belongs to a record, but for those whose creation was cut off from its record. */
  ghost predicate Housed(store: map<SessionId, Record>, containers: map<ContainerId, bool>, adrift: set<ContainerId>) {
    forall c :: c in containers ==> c in adrift || Home(store, c)
  }

  /** A save that gives up no container that still exists. */
  predicate GivesUpNothing(
      store: map<SessionId, Record>, containers: map<ContainerId, bool>, id: SessionId, record: Record) {
    id in store && !store[id].state.Closed? && store[id].container.Some? && store[id].container.value in containers ==>
      Houses(record, store[id].container.value)
  }

  lemma SaveKeepsHoused(
      store: map<SessionId, Record>, containers: map<ContainerId, bool>, adrift: set<ContainerId>, id: SessionId,
      record: Record)
    requires Housed(store, containers, adrift) && GivesUpNothing(store, containers, id, record)
    ensures Housed(store[id := record], containers, adrift)
  {
    forall c | c in containers ensures c in adrift || Home(store[id := record], c) {
      if c !in adrift {
        var home :| HousedBy(store, home, c);
        assert HousedBy(store[id := record], home, c);
      }
    }
  }

  lemma AdoptionHouses(
      store: map<SessionId, Record>, containers: map<ContainerId, bool>, adrift: set<ContainerId>, id: SessionId,
      record: Record,
      c: ContainerId)
    requires Housed(store, containers, adrift + {c}) && Houses(record, c)
      && GivesUpNothing(store, containers, id, record)
    ensures Housed(store[id := record], containers, adrift)
  {
    SaveKeepsHoused(store, containers, adrift + {c}, id, record);
    assert HousedBy(store[id := record], id, c);
  }

  /** The containers records carry were issued, and none of them is adrift. */
  ghost predicate Tagged(store: map<SessionId, Record>, adrift: set<ContainerId>, nextId: nat) {
    forall id :: id in store ==> TagFits(store[id], adrift, nextId)
  }

  predicate TagFits(record: Record, adrift: set<ContainerId>, nextId: nat) {
    record.container.Some? ==> record.container.value < nextId && record.container.value !in adrift
  }

  ghost predicate Issued(containers: map<ContainerId, bool>, adrift: set<ContainerId>, nextId: nat) {
    (forall c :: c in containers ==> c < nextId) && (forall c :: c in adrift ==> c < nextId)
  }

  /**
   A container whose creation was cut off from its record stays without one: no record carries it, so no Close
   removes it.
   */
  lemma AdriftHasNoHome(store: map<SessionId, Record>, adrift: set<ContainerId>, nextId: nat, c: ContainerId)
    requires Tagged(store, adrift, nextId) && c in adrift
    ensures !Home(store, c)
  {
    forall id ensures !HousedBy(store, id, c) {
      if id in store {
        assert TagFits(store[id], adrift, nextId);
      }
    }
  }

  /** All that outlives an operation. */
  datatype Parts = Parts(
    store: map<SessionId, Record>, history: map<SessionId, seq<Saved>>, containers: map<ContainerId, bool>,
    adrift: set<ContainerId>, nextId: nat)

  ghost predicate Sound(p: Parts) {
    && Consistent(p.store, p.history) && Housed(p.store, p.containers, p.adrift)
    && Tagged(p.store, p.adrift, p.nextId) && Issued(p.containers, p.adrift, p.nextId)
  }

  /**
   In every state the operations reach, a container belongs to a record that is not closed exactly when it is not
   adrift.
   */
  lemma HomeUnlessAdrift(p: Parts, c: ContainerId)
    requires Sound(p) && c in p.containers
    ensures Home(p.store, c) <==> c !in p.adrift
  {
    if c in p.adrift {
      AdriftHasNoHome(p.store, p.adrift, p.nextId, c);
    }
  }

  function ObservedOf(containers: map<ContainerId, bool>, record: Record): Observed {
    if record.container.None? || record.container.value !in containers then Gone
    else if containers[record.container.value] then Alive else Stopped
  }

  /** A create that was cut short or failed leaves what was there, or a record without a container. */
  predicate LeftUncreated(
      before: map<SessionId, Record>, after: map<SessionId, Record>, id: SessionId, record: Record) {
    after == before || after == before[id := record] || after == before[id := record.(state := Failed)]
  }

  /**
   A container goes adrift exactly when the engine issued it to an operation that did not finish its creation: in
   Create that is a death or a failure between the engine's answer and the save that follows.
   */
  predicate CutOff(before: set<ContainerId>, after: set<ContainerId>, nextBefore: nat, nextAfter: nat, r: Outcome) {
    && nextBefore <= nextAfter <= nextBefore + 1
    && after == (if r.Troubled? && nextAfter > nextBefore then before + {nextBefore} else before)
    && (r.Troubled? ==> (after != before <==> nextAfter > nextBefore))
  }

  predicate RemovesOnly(before: map<ContainerId, bool>, after: map<ContainerId, bool>, own: Option<ContainerId>) {
    before.Keys - (if own.Some? then {own.value} else {}) <= after.Keys <= before.Keys
  }

  /** Nothing but one session's record may differ. */
  predicate Touches(before: map<SessionId, Record>, after: map<SessionId, Record>, id: SessionId) {
    before.Keys <= after.Keys <= before.Keys + {id} && forall other :: other in before && other != id ==>
      after[other] == before[other]
  }

  lemma TouchesPut(before: map<SessionId, Record>, id: SessionId, record: Record)
    ensures Touches(before, before[id := record], id) && Touches(before, before, id)
  {
  }

  lemma TouchesChain(
      first: map<SessionId, Record>, second: map<SessionId, Record>, third: map<SessionId, Record>, id: SessionId)
    requires Touches(first, second, id) && Touches(second, third, id)
    ensures Touches(first, third, id)
  {
  }

  lemma SelfPut(m: map<SessionId, Record>, id: SessionId)
    requires id in m
    ensures m == m[id := m[id].(state := m[id].state)]
  {
    assert m[id].(state := m[id].state) == m[id];
  }

  lemma PutTwice(m: map<SessionId, Record>, id: SessionId, first: Record, second: Record)
    ensures m[id := first][id := second] == m[id := second]
  {
  }

  /** A close that was cut short or failed. */
  predicate LeftUnclosed(before: map<SessionId, Record>, after: map<SessionId, Record>, id: SessionId) {
    id in before
      && (after == before[id := before[id].(state := Closing)] || after == before[id := before[id].(state := Failed)])
  }

  /** What a session can be created over: nothing, or a closed session. */
  predicate Creatable(store: map<SessionId, Record>, id: SessionId) {
    ValidSessionId(id) && (id in store ==> store[id].state.Closed?)
  }

  // ---------------------------------------------------------------- the service

  datatype Answer = Succeeded | NotFound | Errored
  datatype Outcome = Done | Refused | Troubled | Exited(code: int)

  /** What the supervisor's status, or the attempt to ask for it, says. */
  datatype Status = Up | CompositorExited | ControllerExited | NotYet | Transient | Broken

  /**
   One turn of the readiness wait: the answer, and whether the deadline had passed or the caller's context ended
   after it.
   */
  datatype Poll = Poll(status: Status, late: bool, cancelled: bool)

  predicate Decides(p: Poll) {
    p.status.Up? || p.status.CompositorExited? || p.status.ControllerExited? || p.status.Broken? || p.late
      || p.cancelled
  }

  /** The wait ends: some turn decides it, if only by its deadline. */
  ghost predicate Decisive(polls: seq<Poll>) {
    exists i :: 0 <= i < |polls| && Decides(polls[i])
  }

  predicate FirstDecides(polls: seq<Poll>, i: nat) {
    i < |polls| && Decides(polls[i]) && forall j :: 0 <= j < i ==> !Decides(polls[j])
  }

  /** The session reports itself ready before anything else decides the wait. */
  ghost predicate ComesUp(polls: seq<Poll>) {
    exists i: nat :: FirstDecides(polls, i) && polls[i].status.Up?
  }

  /** WaitReady: an exited process ends the wait at once, a transient error does not. */
  method WaitReady(polls: seq<Poll>) returns (ready: bool)
    requires Decisive(polls)
    ensures ready <==> ComesUp(polls)
    ensures ready <==> exists i :: 0 <= i < |polls| && polls[i].status.Up? && forall j :: 0 <= j < i ==>
      (polls[j].status.NotYet? || polls[j].status.Transient?) && !polls[j].late && !polls[j].cancelled
  {
    var i := 0;
    while !Decides(polls[i])
      invariant i < |polls| && forall j :: 0 <= j < i ==> !Decides(polls[j])
      decreases |polls| - i
    {
      i := i + 1;
    }
    assert FirstDecides(polls, i);
    ready := polls[i].status.Up?;
  }

  function IdChar(c: char): bool {
    'a' <= c <= 'z' || '0' <= c <= '9' || c == '-'
  }

  /** The identifiers the pattern accepts. */
  predicate ValidSessionId(id: SessionId): (valid: bool)
    ensures valid <==>
      && 1 <= |id| <= 63 && id[0] != '-'
      && forall i :: 0 <= i < |id| ==> 'a' <= id[i] <= 'z' || '0' <= id[i] <= '9' || id[i] == '-'
  {
    0 < |id| <= 63 && id[0] != '-' && forall i :: 0 <= i < |id| ==> IdChar(id[i])
  }

  /**
   The store, the engine and one operation's process. The process dies when its budget of effects is spent: from
   then on nothing it does has an effect. Faults counts the calls that failed other than by not finding what they
   were asked about.
   */
  class World {
    var store: map<SessionId, Record>
    var history: map<SessionId, seq<Saved>>
    /** The engine's containers, and whether each is running. */
    var containers: map<ContainerId, bool>
    var nextId: nat
    /** Containers created by an operation that never got to save their identifier. */
    var adrift: set<ContainerId>
    var budget: nat
    var dead: bool
    var faults: nat

    ghost predicate Valid()
      reads this
    {
      Sound(Parts(store, history, containers, adrift, nextId))
    }

    constructor ()
      ensures Valid() && store == map[] && containers == map[] && adrift == {}
    {
      store, history, containers, nextId, adrift := map[], map[], map[], 0, {};
      budget, dead, faults := 0, false, 0;
    }

    /** A new operation's process, with the number of effects it will live to have. */
    method NewProcess(effects: nat)
      requires Valid()
      modifies this`budget, this`dead, this`faults
      ensures Valid() && !dead && faults == 0
    {
      budget, dead, faults := effects, false, 0;
    }

    /** Spends one effect, or dies. */
    method Spend() returns (alive: bool)
      modifies this`budget, this`dead
      ensures alive <==> !dead
      ensures old(dead) ==> dead
    {
      if budget == 0 {
        dead := true;
      }
      alive := !dead;
      if alive {
        budget := budget - 1;
      }
    }

    method Save(id: SessionId, record: Record, byCreate: bool) returns (ok: bool)
      requires Savable(store, id, record, byCreate)
      modifies this`store, this`history, this`budget, this`dead, this`faults
      ensures store == if ok then old(store)[id := record] else old(store)
      ensures history == if ok then Append(old(history), id, Saved(record.state, byCreate)) else old(history)
      ensures ok <==> !dead && faults == old(faults)
      ensures faults >= old(faults) && (old(dead) ==> dead)
    {
      ok := Spend();
      if ok {
        var fails := *;
        if fails {
          faults := faults + 1;
          ok := false;
        } else {
          store, history := store[id := record], Append(history, id, Saved(record.state, byCreate));
        }
      }
    }

    /** engine.Create; a failed call leaves no container. */
    method EngineCreate() returns (r: Option<ContainerId>)
      modifies this`containers, this`nextId, this`adrift, this`budget, this`dead, this`faults
      ensures r.Some? ==>
        && r.value == old(nextId) && nextId == old(nextId) + 1
        && containers == old(containers)[r.value := false] && adrift == old(adrift) + {r.value}
      ensures r.None? ==> containers == old(containers) && adrift == old(adrift) && nextId == old(nextId)
      ensures r.Some? <==> !dead && faults == old(faults)
      ensures faults >= old(faults) && (old(dead) ==> dead)
    {
      var alive := Spend();
      var fails := *;
      if !alive || fails {
        faults := if alive then faults + 1 else faults;
        return None;
      }
      r := Some(nextId);
      containers, adrift, nextId := containers[nextId := false], adrift + {nextId}, nextId + 1;
    }

    /** engine.Start, engine.Exec and engine.Stream: what they do happens inside the container. */
    method EngineUse(container: Option<ContainerId>) returns (ok: bool)
      modifies this`containers, this`budget, this`dead, this`faults
      ensures containers.Keys == old(containers).Keys
      ensures ok ==> container.Some? && container.value in containers
      ensures ok <==> !dead && faults == old(faults)
      ensures faults >= old(faults) && (old(dead) ==> dead)
    {
      ok := Spend();
      var fails, runs := *, *;
      if ok && (fails || container.None? || container.value !in containers) {
        faults, ok := faults + 1, false;
      } else if ok {
        containers := containers[container.value := runs];
      }
    }

    method EngineStop(c: ContainerId) returns (answer: Answer)
      modifies this`containers, this`budget, this`dead, this`faults
      ensures containers.Keys == old(containers).Keys
      ensures answer.NotFound? ==> c !in containers
      ensures answer.Errored? <==> dead || faults > old(faults)
      ensures faults >= old(faults) && (old(dead) ==> dead)
    {
      var alive := Spend();
      var fails := *;
      if !alive {
        return Errored;
      }
      if fails {
        faults := faults + 1;
        return Errored;
      }
      if c !in containers {
        return NotFound;
      }
      containers := containers[c := false];
      return Succeeded;
    }

    /** engine.Remove. A call that failed may have removed the container all the same. */
    method EngineRemove(c: ContainerId) returns (answer: Answer)
      modifies this`containers, this`budget, this`dead, this`faults
      ensures old(containers).Keys - {c} <= containers.Keys <= old(containers).Keys
      ensures !answer.Errored? ==> c !in containers
      ensures answer.Errored? <==> dead || faults > old(faults)
      ensures faults >= old(faults) && (old(dead) ==> dead)
    {
      var alive := Spend();
      var fails, removes := *, *;
      if !alive {
        return Errored;
      }
      if fails {
        faults := faults + 1;
        containers := if removes then containers - {c} else containers;
        return Errored;
      }
      answer := if c in containers then Succeeded else NotFound;
      containers := containers - {c};
    }

    /** engine.State by way of observe; None is an error that is not about a missing container. */
    method Observe(record: Record) returns (r: Option<Observed>)
      modifies this`budget, this`dead, this`faults
      ensures r.Some? ==> r.value == ObservedOf(containers, record)
      ensures r.Some? <==> !dead && faults == old(faults)
      ensures faults >= old(faults) && (old(dead) ==> dead)
    {
      if record.container.None? && !dead {
        return Some(Gone);
      }
      var alive := Spend();
      var fails := *;
      if !alive {
        return None;
      }
      if fails {
        faults := faults + 1;
        return None;
      }
      return Some(ObservedOf(containers, record));
    }

    /** Between operations the engine may lose a container; no record loses more than its container. */
    method Vanish(c: ContainerId)
      requires Valid()
      modifies this`containers
      ensures Valid() && containers == old(containers) - {c}
    {
      containers := containers - {c};
      EngineShrinks(store, history, old(containers), containers, adrift, nextId);
    }

    /** Nothing went wrong in the operation that started at the given fault count. */
    predicate Smooth(before: nat)
      reads this
    {
      !dead && faults == before
    }

    /** Create. The record is saved before the container exists, and again with its identifier. */
    method Create(id: SessionId, deadline: int) returns (r: Outcome)
      requires Valid() && !dead
      modifies this
      ensures Valid()
      ensures Touches(old(store), store, id)
      ensures r.Done? || r.Refused? || r.Troubled?
      ensures r.Refused? ==>
        && !Creatable(old(store), id) && store == old(store) && containers == old(containers) && adrift == old(adrift)
      ensures r.Refused? ==> !ValidSessionId(id) || (id in old(store) && !old(store)[id].state.Closed?)
      ensures r.Done? ==>
        && ValidSessionId(id) && (id in old(store) ==> old(store)[id].state.Closed?)
        && store == old(store)[id := Record(Creating, Some(old(nextId)), [], None, deadline)]
        && history == Append(Append(old(history), id, Saved(Creating, true)), id, Saved(Creating, true))
        && containers == old(containers)[old(nextId) := false] && adrift == old(adrift)
      ensures r.Troubled? <==> !Smooth(old(faults))
      ensures r.Troubled? ==> LeftUncreated(old(store), store, id, Record(Creating, None, [], None, deadline))
      ensures CutOff(old(adrift), adrift, old(nextId), nextId, r)
      ensures adrift != old(adrift) ==>
        && old(nextId) in containers && id in store
        && store[id] == Record(Creating, None, [], None, deadline)
      ensures !ValidSessionId(id) ==> r.Refused?
      ensures faults >= old(faults)
    {
      if !ValidSessionId(id) {
        return Refused;
      }
      var capable := *;
      if !capable {
        faults := faults + 1;
        return Troubled;
      }
      if id in store && !store[id].state.Closed? {
        return Refused;
      }
      var record := Record(Creating, None, [], None, deadline);
      SaveKeeps(store, history, containers, adrift, nextId, id, record, true);
      var ok := Save(id, record, true);
      if !ok {
        return Troubled;
      }
      r := Furnish(id, record);
      PutTwice(old(store), id, record, record.(container := Some(old(nextId))));
      PutTwice(old(store), id, record, record.(state := Failed));
    }

    /** The second half of Create: the container, and its identifier into the record. */
    method Furnish(id: SessionId, record: Record) returns (r: Outcome)
      requires Valid() && !dead && id in store && store[id] == record && record.state.Creating?
        && record.container.None?
      modifies this
      ensures Valid()
      ensures r.Done? || r.Troubled?
      ensures r.Troubled? ==> store == old(store) || store == old(store)[id := record.(state := Failed)]
      ensures r.Done? ==>
        && store == old(store)[id := record.(container := Some(old(nextId)))]
        && history == Append(old(history), id, Saved(Creating, true))
        && containers == old(containers)[old(nextId) := false] && adrift == old(adrift)
      ensures r.Troubled? <==> !Smooth(old(faults))
      ensures CutOff(old(adrift), adrift, old(nextId), nextId, r)
      ensures adrift != old(adrift) ==> old(nextId) in containers && store == old(store)
      ensures faults >= old(faults)
    {
      assert old(nextId) !in adrift;
      var container := EngineCreate();
      if container.None? {
        StateSaveKeeps(store, history, containers, adrift, nextId, id, Failed);
        var _ := Save(id, record.(state := Failed), false);
        return Troubled;
      }
      CreatedKeeps(store, history, old(containers), old(adrift), old(nextId));
      var adopted := record.(container := container);
      AdoptionKeeps(store, history, containers, old(adrift), nextId, id, adopted, container.value);
      var ok := Save(id, adopted, true);
      if !ok {
        return Troubled;
      }
      adrift := adrift - {container.value};
      return Done;
    }

    /** Start. A created session becomes ready when it comes up, or is recorded as failed. */
    method Start(id: SessionId, polls: seq<Poll>) returns (r: Outcome)
      requires Valid() && !dead && Decisive(polls)
      modifies this
      ensures Valid() && adrift == old(adrift) && nextId == old(nextId) && containers.Keys == old(containers).Keys
      ensures Touches(old(store), store, id)
      ensures r.Refused? <==> id !in old(store) || !old(store)[id].state.Creating?
      ensures r.Refused? ==> store == old(store)
      ensures r.Done? ==>
        && store == old(store)[id := old(store)[id].(state := Ready)]
        && history == Append(old(history), id, Saved(Ready, false))
      ensures r.Troubled? ==> store == old(store) || store == old(store)[id := old(store)[id].(state := Failed)]
      ensures r.Done? || r.Refused? || r.Troubled?
      ensures !r.Refused? ==> (r.Done? <==> Smooth(old(faults)) && ComesUp(polls))
      ensures r.Troubled? && Smooth(old(faults)) ==> store == old(store)[id := old(store)[id].(state := Failed)]
      ensures faults >= old(faults)
    {
      if id !in store || !store[id].state.Creating? {
        return Refused;
      }
      var record := store[id];
      var ok := EngineUse(record.container);
      EngineShrinks(store, history, old(containers), containers, adrift, nextId);
      if ok {
        ok := WaitReady(polls);
      }
      var next := record.(state := if ok then Ready else Failed);
      StateSaveKeeps(store, history, containers, adrift, nextId, id, next.state);
      var saved := Save(id, next, false);
      return if ok && saved then Done else Troubled;
    }

    /**
     Close. From any state it ends closed, unless the engine or the store fails; it removes no container but the
     record's own.
     */
    method Close(id: SessionId) returns (r: Outcome)
      requires Valid() && !dead
      modifies this
      ensures Valid() && adrift == old(adrift) && nextId == old(nextId)
      ensures Touches(old(store), store, id)
      ensures RemovesOnly(old(containers), containers, if id in old(store) then old(store)[id].container else None)
      ensures r.Done? || r.Refused? || r.Troubled?
      ensures r.Refused? <==> id !in old(store)
      ensures r.Refused? ==> store == old(store)
      ensures r.Done? ==>
        && store == old(store)[id := old(store)[id].(state := Closed)]
        && (!old(store)[id].state.Closed? && old(store)[id].container.Some? ==>
          old(store)[id].container.value !in containers)
      ensures r.Troubled? ==> store == old(store) || LeftUnclosed(old(store), store, id)
      ensures r.Troubled? <==> !Smooth(old(faults))
      ensures faults >= old(faults)
    {
      if id !in store {
        return Refused;
      }
      var was := store[id];
      if was.state.Closed? {
        SelfPut(store, id);
        return Done;
      }
      if !store[id].state.Closing? {
        StateSaveKeeps(store, history, containers, adrift, nextId, id, Closing);
        var ok := Save(id, store[id].(state := Closing), false);
        if !ok {
          return Troubled;
        }
      } else {
        SelfPut(store, id);
      }
      r := Dismantle(id);
      PutTwice(old(store), id, was.(state := Closing), was.(state := Closed));
      PutTwice(old(store), id, was.(state := Closing), was.(state := Failed));
    }

    /** The second half of Close, on a record that is closing. */
    method Dismantle(id: SessionId) returns (r: Outcome)
      requires Valid() && !dead && id in store && store[id].state.Closing?
      modifies this
      ensures Valid() && adrift == old(adrift) && nextId == old(nextId)
      ensures RemovesOnly(old(containers), containers, old(store)[id].container)
      ensures r.Done? || r.Troubled?
      ensures r.Done? ==>
        && store == old(store)[id := old(store)[id].(state := Closed)]
        && history == Append(old(history), id, Saved(Closed, false))
        && (old(store)[id].container.Some? ==> old(store)[id].container.value !in containers)
      ensures r.Troubled? ==> store == old(store) || store == old(store)[id := old(store)[id].(state := Failed)]
      ensures r.Troubled? <==> !Smooth(old(faults))
      ensures faults >= old(faults)
    {
      var record := store[id];
      var failed := false;
      if record.container.Some? {
        var c := record.container.value;
        var stopped := EngineStop(c);
        var removed := EngineRemove(c);
        failed := stopped.Errored? || removed.Errored?;
      }
      EngineShrinks(store, history, old(containers), containers, adrift, nextId);
      var next := record.(state := if failed then Failed else Closed);
      assert TagFits(record, adrift, nextId);
      SaveKeeps(store, history, containers, adrift, nextId, id, next, false);
      var saved := Save(id, next, false);
      return if saved && !failed then Done else Troubled;
    }

    /** Inject records what arrived and changes nothing else. */
    method Inject(id: SessionId, payload: string) returns (r: Outcome)
      requires Valid() && !dead
      modifies this
      ensures Valid() && adrift == old(adrift) && containers.Keys == old(containers).Keys
      ensures r.Refused? <==> id !in old(store) || !(old(store)[id].state.Ready? || old(store)[id].state.Running?)
      ensures store == if r.Done?
        then old(store)[id := old(store)[id].(payloads := old(store)[id].payloads + [payload])] else old(store)
      ensures r.Done? || r.Refused? || r.Troubled?
      ensures r.Troubled? <==> !Smooth(old(faults))
    {
      if id !in store || !Interactive(store[id].state) {
        return Refused;
      }
      var record := store[id];
      var ok := EngineUse(record.container);
      if !ok {
        return Troubled;
      }
      EngineShrinks(store, history, old(containers), containers, adrift, nextId);
      var next := record.(payloads := record.payloads + [payload]);
      SaveKeeps(store, history, containers, adrift, nextId, id, next, false);
      ok := Save(id, next, false);
      return if ok then Done else Troubled;
    }

    /** Inspect writes back only what reconciliation changed. */
    method Inspect(id: SessionId) returns (r: Outcome, record: Option<Record>, anomaly: Option<Anomaly>)
      requires Valid() && !dead
      modifies this
      ensures Valid() && adrift == old(adrift) && containers == old(containers) && nextId == old(nextId)
      ensures r.Refused? <==> id !in old(store)
      ensures r.Done? ==>
        && id in store && Judged(old(store)[id], containers, store[id], anomaly)
        && store == old(store)[id := store[id]] && record == Some(store[id])
        && (store[id] == old(store)[id] ==> history == old(history))
      ensures r.Done? ==>
        var was := old(store)[id];
        var runs := was.container.Some? && was.container.value in containers && containers[was.container.value];
        (store != old(store) <==>
          was.state.Creating? || ((was.state.Ready? || was.state.Running?) && !runs))
      ensures !r.Done? ==> store == old(store)
      ensures r.Done? || r.Refused? || r.Troubled?
      ensures r.Troubled? <==> !Smooth(old(faults))
      ensures faults >= old(faults) && (dead ==> r.Troubled?)
    {
      if id !in store {
        return Refused, None, None;
      }
      var observed := Observe(store[id]);
      if observed.None? {
        return Troubled, None, None;
      }
      var (updated, found) := Reconcile(store[id], observed.value);
      ReconcileIsIdempotent(store[id], observed.value);
      ReconcileIsJudged(store[id], containers, updated, found);
      if updated != store[id] {
        StateSaveKeeps(store, history, containers, adrift, nextId, id, updated.state);
        var ok := Save(id, updated, false);
        if !ok {
          return Troubled, None, None;
        }
      } else {
        assert store == store[id := updated];
      }
      return Done, Some(updated), found;
    }

    /** Run. A session is created when there is none, and a ready one is used; any other is left alone. */
    method Run(id: SessionId, hasCommand: bool, ephemeral: bool, deadline: int, polls: seq<Poll>) returns (r: Outcome)
      requires Valid() && !dead && Decisive(polls)
      modifies this
      ensures Valid()
      ensures r.Refused? <==>
        !hasCommand || if id in old(store) then !old(store)[id].state.Ready? else !ValidSessionId(id)
      ensures r.Refused? ==> store == old(store) && containers == old(containers) && adrift == old(adrift)
      ensures Touches(old(store), store, id)
      ensures (r.Done? || r.Exited?) && !ephemeral ==>
        && id in store && store[id].state.Ready? && store[id].exitCode == Some(ExitCode(r))
        && (id in old(store) ==>
             history == Append(Append(old(history), id, Saved(Running, false)), id, Saved(Ready, false)))
      ensures r.Troubled? && !ephemeral && id in old(store) ==> LeftRunning(old(store), store, id)
      ensures r.Troubled? && !ephemeral && id !in old(store) && id in store ==> LeftAlong(store[id], deadline)
      ensures Smooth(old(faults)) && (id in old(store) || ComesUp(polls)) ==> !r.Troubled?
      ensures Smooth(old(faults)) && !r.Refused? && ephemeral ==> id in store && store[id].state.Closed?
      ensures adrift == old(adrift) || CutOffCreating(old(adrift), old(nextId), id, deadline, r)
    {
      if !hasCommand {
        return Refused;
      }
      if id !in store {
        r := Obtain(id, ephemeral, deadline, polls);
        if !r.Done? {
          return r;
        }
      } else if !store[id].state.Ready? {
        return Refused;
      }
      ghost var ready := store;
      r := RunIn(id, ephemeral);
      TouchesChain(old(store), ready, store, id);
    }

    /** What a creation that was cut off before its second save leaves: a container that no record carries. */
    predicate CutOffCreating(before: set<ContainerId>, c: ContainerId, id: SessionId, deadline: int, r: Outcome)
      reads this
    {
      && r.Troubled? && adrift == before + {c} && c in containers
      && id in store && store[id] == Record(Creating, None, [], None, deadline)
    }

    /** A new session, started; an ephemeral one that does not start is closed again. */
    method Obtain(id: SessionId, ephemeral: bool, deadline: int, polls: seq<Poll>) returns (r: Outcome)
      requires Valid() && !dead && id !in store && Decisive(polls)
      modifies this
      ensures Valid()
      ensures r.Done? || r.Refused? || r.Troubled?
      ensures r.Refused? <==> !ValidSessionId(id)
      ensures r.Refused? ==> store == old(store) && containers == old(containers) && adrift == old(adrift)
      ensures r.Done? ==>
        && store == old(store)[id := Record(Ready, Some(old(nextId)), [], None, deadline)]
        && adrift == old(adrift) && Smooth(old(faults))
      ensures r.Troubled? ==> !Smooth(old(faults)) || !ComesUp(polls)
      ensures r.Troubled? && Smooth(old(faults)) && ephemeral ==> id in store && store[id].state.Closed?
      ensures Touches(old(store), store, id)
      ensures r.Troubled? && !ephemeral && id in store ==> LeftAlong(store[id], deadline)
      ensures adrift == old(adrift) || CutOffCreating(old(adrift), old(nextId), id, deadline, r)
      ensures faults >= old(faults)
    {
      r := Create(id, deadline);
      if !r.Done? {
        return r;
      }
      ghost var created := store;
      r := Start(id, polls);
      PutTwice(old(store), id, created[id], created[id].(state := Ready));
      ghost var started := store;
      TouchesChain(old(store), created, started, id);
      if !r.Done? {
        if ephemeral && !dead {
          var _ := Close(id);
          TouchesChain(old(store), started, store, id);
        }
        return Troubled;
      }
    }

    /** The application's run in a ready session, and the end of an ephemeral one. */
    method RunIn(id: SessionId, ephemeral: bool) returns (r: Outcome)
      requires Valid() && !dead && id in store && store[id].state.Ready?
      modifies this
      ensures Valid() && adrift == old(adrift)
      ensures r.Done? || r.Exited? || r.Troubled?
      ensures Touches(old(store), store, id)
      ensures (r.Done? || r.Exited?) && !ephemeral ==>
        && store == old(store)[id := old(store)[id].(exitCode := Some(ExitCode(r)))]
        && history == Append(Append(old(history), id, Saved(Running, false)), id, Saved(Ready, false))
      ensures r.Troubled? && !ephemeral ==> LeftRunning(old(store), store, id)
      ensures Smooth(old(faults)) ==> !r.Troubled?
      ensures Smooth(old(faults)) && ephemeral ==> id in store && store[id].state.Closed?
      ensures faults >= old(faults)
    {
      var settled: bool;
      r, settled := RunOnce(id);
      if settled && ephemeral && !dead {
        ghost var ran := store;
        var closed := Close(id);
        TouchesChain(old(store), ran, store, id);
        if r.Done? {
          r := closed;
        }
      }
    }

    /** From ready through running to ready again; settled says whether the last save was made. */
    method RunOnce(id: SessionId) returns (r: Outcome, settled: bool)
      requires Valid() && !dead && id in store && store[id].state.Ready?
      modifies this
      ensures Valid() && adrift == old(adrift) && id in store
      ensures r.Done? || r.Exited? || r.Troubled?
      ensures Touches(old(store), store, id)
      ensures r.Done? || r.Exited? ==>
        && settled && store == old(store)[id := old(store)[id].(exitCode := Some(ExitCode(r)))]
        && history == Append(Append(old(history), id, Saved(Running, false)), id, Saved(Ready, false))
      ensures r.Troubled? ==> LeftRunning(old(store), store, id)
      ensures r.Troubled? <==> !Smooth(old(faults))
      ensures faults >= old(faults)
    {
      var record := store[id];
      StateSaveKeeps(store, history, containers, adrift, nextId, id, Running);
      var ok := Save(id, record.(state := Running), false);
      TouchesPut(old(store), id, record.(state := Running));
      if !ok {
        return Troubled, false;
      }
      var code: int;
      ok, code := Execute(id);
      PutTwice(old(store), id, record.(state := Running), record.(exitCode := Some(code)));
      TouchesPut(old(store), id, record.(exitCode := Some(code)));
      settled := store[id].state.Ready?;
      r := if !ok then Troubled else if code != 0 then Exited(code) else Done;
    }

    /** engine.Exec, and the record of how it ended. */
    method Execute(id: SessionId) returns (ok: bool, code: int)
      requires Valid() && !dead && id in store && store[id].state.Running?
      modifies this
      ensures Valid() && adrift == old(adrift) && nextId == old(nextId) && id in store
      ensures Touches(old(store), store, id)
      ensures store == old(store) || store == old(store)[id := old(store)[id].(state := Ready, exitCode := Some(code))]
      ensures ok ==> store != old(store)
      ensures ok ==> history == Append(old(history), id, Saved(Ready, false))
      ensures ok <==> Smooth(old(faults))
      ensures faults >= old(faults)
    {
      var record := store[id];
      ok := EngineUse(record.container);
      code := *;
      EngineShrinks(store, history, old(containers), containers, adrift, nextId);
      assert TagFits(record, adrift, nextId);
      var next := record.(state := Ready, exitCode := Some(code));
      SaveKeeps(store, history, containers, adrift, nextId, id, next, false);
      var saved := Save(id, next, false);
      ok := ok && saved;
    }

    /**
     List reconciles every record, in the order of their names; listing again without a change in the engine changes
     nothing.
     */
    method List() returns (r: Outcome, anomalies: map<SessionId, Anomaly>, ghost left: set<SessionId>)
      requires Valid() && !dead
      modifies this
      ensures Valid() && adrift == old(adrift) && containers == old(containers)
      ensures r.Done? || r.Troubled?
      ensures Smooth(old(faults)) ==> r.Done?
      ensures ListedBut(left, old(store), store, containers, anomalies) && InOrder(old(store).Keys, left)
      ensures forall a, b :: a in old(store) && a !in left && b in left ==> Less(a, b)
      ensures r.Done? ==>
        && left == {} && store.Keys == old(store).Keys
        && forall id :: id in old(store) ==>
             Judged(old(store)[id], containers, store[id], if id in anomalies then Some(anomalies[id]) else None)
    {
      anomalies := map[];
      var todo := store.Keys;
      while todo != {}
        invariant Valid() && !dead && faults == old(faults) && adrift == old(adrift) && containers == old(containers)
        invariant ListedBut(todo, old(store), store, containers, anomalies) && InOrder(old(store).Keys, todo)
        decreases todo
      {
        ghost var least := SomeFirst(todo);
        var id :| First(id, todo);
        NextInOrder(old(store).Keys, todo, id);
        ghost var before := store;
        var outcome, _, anomaly := Inspect(id);
        if !outcome.Done? {
          return Troubled, anomalies, todo;
        }
        ListStep(todo, id, old(store), before, store, containers, anomalies, anomaly);
        todo := todo - {id};
        if anomaly.Some? {
          anomalies := anomalies[id := anomaly.value];
        }
      }
      forall id | id in old(store)
        ensures Judged(old(store)[id], containers, store[id], if id in anomalies then Some(anomalies[id]) else None)
      {
        assert ListFits({}, old(store), store, containers, anomalies, id);
      }
      return Done, anomalies, {};
    }

    /** Purge closes every expired session, in the order of their names, and touches no other. */
    method Purge(now: int) returns (r: Outcome, purged: set<SessionId>, ghost left: set<SessionId>)
      requires Valid() && !dead
      modifies this
      ensures Valid() && adrift == old(adrift)
      ensures r.Done? || r.Troubled?
      ensures Smooth(old(faults)) ==> r.Done?
      ensures PurgedBut(left, old(store), store, now, purged, r.Troubled?) && InOrder(old(store).Keys, left)
      ensures forall a, b :: a in old(store) && a !in left && b in left ==> Less(a, b)
      ensures r.Done? ==>
        && left == {} && store.Keys == old(store).Keys && purged <= old(store).Keys
        && forall id :: id in old(store) ==>
             && (id in purged <==>
                  !old(store)[id].state.Closed? && old(store)[id].deadline != 0 && now > old(store)[id].deadline)
             && store[id] == if id in purged then old(store)[id].(state := Closed) else old(store)[id]
    {
      purged := {};
      var todo := store.Keys;
      while todo != {}
        invariant Valid() && !dead && faults == old(faults) && adrift == old(adrift)
        invariant PurgedBut(todo, old(store), store, now, purged, false) && InOrder(old(store).Keys, todo)
        decreases todo
      {
        ghost var least := SomeFirst(todo);
        var id :| First(id, todo);
        NextInOrder(old(store).Keys, todo, id);
        ghost var before := store;
        assert PurgeFits(todo, old(store), store, now, purged, false, id);
        if store[id].Expired(now) {
          var outcome := Close(id);
          if !outcome.Done? {
            PurgeStops(todo, id, old(store), before, store, now, purged);
            return outcome, purged, todo;
          }
          PurgeStep(todo, id, old(store), before, store, now, purged);
          purged := purged + {id};
        } else {
          PurgeStep(todo, id, old(store), before, store, now, purged);
        }
        todo := todo - {id};
      }
      forall id | id in old(store)
        ensures id in purged <==>
          !old(store)[id].state.Closed? && old(store)[id].deadline != 0 && now > old(store)[id].deadline
        ensures store[id] == if id in purged then old(store)[id].(state := Closed) else old(store)[id]
      {
        assert PurgeFits({}, old(store), store, now, purged, false, id);
      }
      return Done, purged, {};
    }
  }

  /**
   A run that was cut short or whose application could not be run: not begun, still recorded as running, or ready
   again.
   */
  predicate LeftRunning(before: map<SessionId, Record>, after: map<SessionId, Record>, id: SessionId)
    requires id in before
  {
    || after == before
    || after == before[id := before[id].(state := Running)]
    || (id in after && after[id].exitCode.Some? && after == before[id := before[id].(exitCode := after[id].exitCode)])
  }

  /** A session that Run created and then lost on the way: at any point from creation to the end of its application. */
  predicate LeftAlong(record: Record, deadline: int) {
    && (record.state.Creating? || record.state.Failed? || record.state.Ready? || record.state.Running?)
    && record.payloads == [] && record.deadline == deadline
    && (record.state.Ready? || record.state.Running? ==> record.container.Some?)
  }

  function ExitCode(r: Outcome): int {
    if r.Exited? then r.code else 0
  }

  /** Every session but the ones left is reconciled and its anomaly listed; those are as they were. */
  ghost predicate ListedBut(
      left: set<SessionId>, before: map<SessionId, Record>, after: map<SessionId, Record>,
      containers: map<ContainerId, bool>,
      anomalies: map<SessionId, Anomaly>)
  {
    && after.Keys == before.Keys && left <= before.Keys
    && forall id :: id in before ==> ListFits(left, before, after, containers, anomalies, id)
  }

  predicate ListFits(
      left: set<SessionId>, before: map<SessionId, Record>, after: map<SessionId, Record>,
      containers: map<ContainerId, bool>,
      anomalies: map<SessionId, Anomaly>, id: SessionId)
    requires id in before && id in after
  {
    if id in left then after[id] == before[id] && id !in anomalies
    else Judged(before[id], containers, after[id], if id in anomalies then Some(anomalies[id]) else None)
  }

  lemma ListStep(
      todo: set<SessionId>, id: SessionId, first: map<SessionId, Record>, before: map<SessionId, Record>,
      after: map<SessionId, Record>,
      containers: map<ContainerId, bool>, anomalies: map<SessionId, Anomaly>, found: Option<Anomaly>)
    requires ListedBut(todo, first, before, containers, anomalies) && id in todo && id in before && id in after
    requires after == before[id := after[id]] && Judged(before[id], containers, after[id], found)
    ensures ListedBut(
      todo - {id}, first, after, containers, if found.Some? then anomalies[id := found.value] else anomalies)
  {
    var listed := if found.Some? then anomalies[id := found.value] else anomalies;
    forall other | other in first ensures ListFits(todo - {id}, first, after, containers, listed, other) {
      assert ListFits(todo, first, before, containers, anomalies, other);
    }
  }

  /**
   Every expired session but the ones left is closed and every other is as it was; a purge that stopped may have
   left one in between.
   */
  ghost predicate PurgedBut(
      left: set<SessionId>, before: map<SessionId, Record>, after: map<SessionId, Record>, now: int,
      purged: set<SessionId>, stopped: bool)
  {
    && after.Keys == before.Keys && left <= before.Keys && purged <= before.Keys
    && forall id :: id in before ==> PurgeFits(left, before, after, now, purged, stopped, id)
  }

  predicate PurgeFits(
      left: set<SessionId>, before: map<SessionId, Record>, after: map<SessionId, Record>, now: int,
      purged: set<SessionId>,
      stopped: bool, id: SessionId)
    requires id in before && id in after
  {
    if before[id].Expired(now) && id !in left then id in purged && after[id] == before[id].(state := Closed)
    else
      && id !in purged
      && (after[id] == before[id]
        || (stopped && before[id].Expired(now) && after[id] == before[id].(state := after[id].state)))
  }

  lemma PurgeStep(
      todo: set<SessionId>, id: SessionId, first: map<SessionId, Record>, before: map<SessionId, Record>,
      after: map<SessionId, Record>,
      now: int, purged: set<SessionId>)
    requires PurgedBut(todo, first, before, now, purged, false) && id in todo && id in before
    requires after == if before[id].Expired(now) then before[id := before[id].(state := Closed)] else before
    ensures PurgedBut(todo - {id}, first, after, now, if before[id].Expired(now) then purged + {id} else purged, false)
  {
    assert PurgeFits(todo, first, before, now, purged, false, id);
    var next := if before[id].Expired(now) then purged + {id} else purged;
    forall other | other in first ensures PurgeFits(todo - {id}, first, after, now, next, false, other) {
      assert PurgeFits(todo, first, before, now, purged, false, other);
    }
  }

  lemma PurgeStops(
      todo: set<SessionId>, id: SessionId, first: map<SessionId, Record>, before: map<SessionId, Record>,
      after: map<SessionId, Record>,
      now: int, purged: set<SessionId>)
    requires PurgedBut(todo, first, before, now, purged, false) && id in todo && id in before && before[id].Expired(now)
    requires after == before || LeftUnclosed(before, after, id)
    ensures PurgedBut(todo, first, after, now, purged, true)
  {
    assert PurgeFits(todo, first, before, now, purged, false, id);
    forall other | other in first ensures PurgeFits(todo, first, after, now, purged, true, other) {
      assert PurgeFits(todo, first, before, now, purged, false, other);
    }
  }

  lemma SaveKeeps(
      store: map<SessionId, Record>, history: map<SessionId, seq<Saved>>, containers: map<ContainerId, bool>,
      adrift: set<ContainerId>, nextId: nat, id: SessionId, record: Record, byCreate: bool)
    requires Sound(Parts(store, history, containers, adrift, nextId))
    requires Savable(store, id, record, byCreate) && GivesUpNothing(store, containers, id, record)
      && TagFits(record, adrift, nextId)
    ensures Sound(Parts(store[id := record], Append(history, id, Saved(record.state, byCreate)), containers, adrift,
      nextId))
  {
    SaveKeepsConsistent(store, history, id, record, byCreate);
    SaveKeepsHoused(store, containers, adrift, id, record);
  }

  lemma EngineShrinks(
      store: map<SessionId, Record>, history: map<SessionId, seq<Saved>>, before: map<ContainerId, bool>,
      after: map<ContainerId, bool>,
      adrift: set<ContainerId>, nextId: nat)
    requires Sound(Parts(store, history, before, adrift, nextId)) && after.Keys <= before.Keys
    ensures Sound(Parts(store, history, after, adrift, nextId))
  {
  }

  /** A save that changes only the state, and not to closed, gives up nothing. */
  lemma StateSaveKeeps(
      store: map<SessionId, Record>, history: map<SessionId, seq<Saved>>, containers: map<ContainerId, bool>,
      adrift: set<ContainerId>, nextId: nat, id: SessionId, state: State)
    requires Sound(Parts(store, history, containers, adrift, nextId))
    requires id in store && CanTransition(store[id].state, state) && !state.Closed?
    ensures Savable(store, id, store[id].(state := state), false)
    ensures Sound(Parts(
      store[id := store[id].(state := state)], Append(history, id, Saved(state, false)), containers, adrift, nextId))
  {
    assert TagFits(store[id], adrift, nextId);
    SaveKeeps(store, history, containers, adrift, nextId, id, store[id].(state := state), false);
  }

  lemma CreatedKeeps(
      store: map<SessionId, Record>, history: map<SessionId, seq<Saved>>, containers: map<ContainerId, bool>,
      adrift: set<ContainerId>, nextId: nat)
    requires Sound(Parts(store, history, containers, adrift, nextId))
    ensures Sound(Parts(store, history, containers[nextId := false], adrift + {nextId}, nextId + 1))
  {
    forall id | id in store ensures TagFits(store[id], adrift + {nextId}, nextId + 1) {
      assert TagFits(store[id], adrift, nextId);
    }
  }

  lemma AdoptionKeeps(
      store: map<SessionId, Record>, history: map<SessionId, seq<Saved>>, containers: map<ContainerId, bool>,
      adrift: set<ContainerId>, nextId: nat, id: SessionId, record: Record, c: ContainerId)
    requires Sound(Parts(store, history, containers, adrift + {c}, nextId))
    requires c !in adrift && Houses(record, c) && id in store && store[id].container.None?
      && store[id].state == record.state
    ensures Sound(Parts(store[id := record], Append(history, id, Saved(record.state, true)), containers, adrift,
      nextId))
  {
    SaveKeepsConsistent(store, history, id, record, true);
    AdoptionHouses(store, containers, adrift, id, record, c);
    var after := store[id := record];
    forall other | other in after ensures TagFits(after[other], adrift, nextId) {
      if other == id {
        assert c in adrift + {c} && c < nextId;
      } else {
        assert TagFits(store[other], adrift + {c}, nextId);
      }
    }
  }

  // ---------------------------------------------------------------- the one way to an orphan

  /** Store and engine when the first creation of a session died between the engine's answer and its second save. */
  function Orphaned(id: SessionId, deadline: int): Parts {
    var record := Record(Creating, None, [], None, deadline);
    Parts(map[id := record], map[id := [Saved(Creating, true)]], map[0 := false], {0}, 1)
  }

  /** The same after the session was closed. */
  function OrphanedClosed(id: SessionId, deadline: int): Parts {
    var record := Record(Closed, None, [], None, deadline);
    Orphaned(id, deadline).(
      store := map[id := record],
      history := map[id := [Saved(Creating, true), Saved(Closing, false), Saved(Closed, false)]])
  }

  /**
   The promise that no crash orphans a container fails: here is a container that no record carries, before and after
   a close.
   */
  lemma CrashCanOrphan(id: SessionId, deadline: int)
    ensures Sound(Orphaned(id, deadline)) && !Home(Orphaned(id, deadline).store, 0)
    ensures Sound(OrphanedClosed(id, deadline)) && !Home(OrphanedClosed(id, deadline).store, 0)
    ensures 0 in Orphaned(id, deadline).containers && 0 in OrphanedClosed(id, deadline).containers
  {
    var record := Record(Creating, None, [], None, deadline);
    var store, history := map[id := record], Append(map[], id, Saved(Creating, true));
    assert [] + [Saved(Creating, true)] == [Saved(Creating, true)];
    SaveKeeps(map[], map[], map[], {}, 0, id, record, true);
    assert store == map[][id := record];
    CreatedKeeps(store, history, map[], {}, 0);
    assert {0} == {} + {0} && map[0 := false] == map[][0 := false];
    OrphanClosing(id, record, history);
    AdriftHasNoHome(store, {0}, 1, 0);
    AdriftHasNoHome(OrphanedClosed(id, deadline).store, {0}, 1, 0);
  }

  lemma OrphanClosing(id: SessionId, record: Record, history: map<SessionId, seq<Saved>>)
    requires record.state.Creating? && record.container.None? && history == map[id := [Saved(Creating, true)]]
    requires Sound(Parts(map[id := record], history, map[0 := false], {0}, 1))
    ensures Sound(Parts(
      map[id := record.(state := Closed)],
      map[id := [Saved(Creating, true), Saved(Closing, false), Saved(Closed, false)]], map[0 := false], {0}, 1))
  {
    var store, closing := map[id := record], map[id := record.(state := Closing)];
    StateSaveKeeps(store, history, map[0 := false], {0}, 1, id, Closing);
    var later := Append(history, id, Saved(Closing, false));
    assert store[id := record.(state := Closing)] == closing;
    SaveKeeps(closing, later, map[0 := false], {0}, 1, id, record.(state := Closed), false);
    assert closing[id := record.(state := Closed)] == map[id := record.(state := Closed)];
    assert [Saved(Creating, true)] + [Saved(Closing, false)] == [Saved(Creating, true), Saved(Closing, false)];
    assert [Saved(Creating, true), Saved(Closing, false)] + [Saved(Closed, false)] ==
      [Saved(Creating, true), Saved(Closing, false), Saved(Closed, false)];
    assert Append(later, id, Saved(Closed, false)) ==
      map[id := [Saved(Creating, true), Saved(Closing, false), Saved(Closed, false)]];
  }

  // ---------------------------------------------------------------- the order of a listing

  /** The sessions already visited come before those left. */
  ghost predicate InOrder(all: set<SessionId>, left: set<SessionId>) {
    forall a, b :: a in all && a !in left && b in left ==> Less(a, b)
  }

  /** The first name of a set. */
  predicate First(id: SessionId, all: set<SessionId>) {
    id in all && forall other :: other in all ==> other == id || Less(id, other)
  }

  lemma {:induction false} SomeFirst(all: set<SessionId>) returns (id: SessionId)
    requires all != {}
    ensures First(id, all)
    decreases |all|
  {
    id :| id in all;
    var rest := all - {id};
    if rest != {} {
      var first := SomeFirst(rest);
      LessTotal(id, first);
      if Less(first, id) {
        id := first;
      } else {
        forall other | other in all ensures other == id || Less(id, other) {
          if other != id && other != first {
            LessTransitive(id, first, other);
          }
        }
      }
    }
  }

  lemma NextInOrder(all: set<SessionId>, left: set<SessionId>, id: SessionId)
    requires InOrder(all, left) && First(id, left)
    ensures InOrder(all, left - {id})
  {
  }
}
