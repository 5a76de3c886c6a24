/** The life of owned OpenVPN processes (internal/tunnel/openvpn.go) as a state machine: the steps of
    Activate, wait and any number of stopProcess calls, each as long as a lock is held, interleaved
    in every order with what the processes do by themselves. */
module OpenVPNProcess {
  import opened Contracts

  /** The session leader: running, dead but not yet waited for, or reaped. */
  datatype Leader = Running | Zombie | Reaped

  /** One call of stopProcess: begun, stopping flagged, absence proved, ownership released. */
  datatype Stop = Begun | Flagged | Proved | Released | GaveUp

  /** Where wait is. Cleaning holds the index of its own stop. */
  datatype Waiter = Waiting | Recorded | Closed | Cleaning(stop: nat) | Finished

  /** Where Activate is. */
  datatype Activator = Selecting | Failing(stop: nat) | Returned(success: bool)

  /** What happened to a process, in order. */
  datatype Event = Accepted | StopRequested | ExitRecorded | Handled(cleanupProved: bool) | OwnershipReleased

  datatype Process = Process(
    leader: Leader, others: nat,                              // the session
    ready: bool, done: bool,                                  // the two channels
    exited: bool, stopping: bool, accepted: bool, unexpected: bool,
    waiter: Waiter, activator: Activator, stops: seq<Stop>,
    log: seq<Event>)

  const SPAWNED := Process(Running, 0, false, false, false, false, false, false, Waiting, Selecting, [], [])

  /** The backend: every process ever owned, and the index of the one owned now. */
  datatype System = System(procs: seq<Process>, owned: Option<nat>)

  const EMPTY := System([], None)

  datatype Action =
    | Spawn
    | Fork(p: nat) | MemberExit(p: nat) | LeaderExit(p: nat) | MarkReady(p: nat)
    | AcceptReady(p: nat) | FailStart(p: nat) | ReturnFailure(p: nat)
    | RecordExit(p: nat) | CloseDone(p: nat) | BeginCleanup(p: nat) | Handle(p: nat)
    | BeginStop(p: nat) | FlagStop(p: nat, stop: nat) | ProveStop(p: nat, stop: nat)
    | ReleaseStop(p: nat, stop: nat) | GiveUpStop(p: nat, stop: nat)

  /** No process of the session is left, and the leader was waited for. */
  predicate SessionEmpty(q: Process) {
    q.leader == Reaped && q.others == 0
  }

  /** processStopped. */
  predicate Stopped(q: Process) {
    q.done && SessionEmpty(q)
  }

  predicate StopAt(q: Process, k: nat, at: Stop) {
    k < |q.stops| && q.stops[k] == at
  }

  /** Whether a step can be taken now. */
  predicate Enabled(s: System, a: Action) {
    if a.Spawn? then s.owned.None?
    else a.p < |s.procs| && EnabledIn(s.procs[a.p], a)
  }

  predicate EnabledIn(q: Process, a: Action) {
    match a
    case Spawn => false
    case Fork(_) => q.leader == Running || q.others > 0
    case MemberExit(_) => q.others > 0
    case LeaderExit(_) => q.leader == Running
    case MarkReady(_) => true
    case AcceptReady(_) => q.activator == Selecting && q.ready && !q.exited
    case FailStart(_) => q.activator == Selecting
    case ReturnFailure(_) =>
      q.activator.Failing? && (StopAt(q, q.activator.stop, Released) || StopAt(q, q.activator.stop, GaveUp))
    case RecordExit(_) => q.waiter == Waiting && q.leader == Zombie
    case CloseDone(_) => q.waiter == Recorded
    case BeginCleanup(_) => q.waiter == Closed
    case Handle(_) => q.waiter.Cleaning? && (StopAt(q, q.waiter.stop, Released) || StopAt(q, q.waiter.stop, GaveUp))
    case BeginStop(_) => true
    case FlagStop(_, k) => StopAt(q, k, Begun)
    case ProveStop(_, k) => StopAt(q, k, Flagged) && Stopped(q)
    case ReleaseStop(_, k) => StopAt(q, k, Proved)
    case GiveUpStop(_, k) => StopAt(q, k, Flagged)
  }

  /** What a step does to its process. */
  function ApplyIn(q: Process, a: Action): Process
    requires EnabledIn(q, a)
  {
    match a
    case Fork(_) => q.(others := q.others + 1)
    case MemberExit(_) => q.(others := q.others - 1)
    case LeaderExit(_) => q.(leader := Zombie)
    case MarkReady(_) => q.(ready := true)
    case AcceptReady(_) => q.(accepted := true, activator := Returned(true), log := q.log + [Accepted])
    case FailStart(_) => q.(activator := Failing(|q.stops|), stops := q.stops + [Begun])
    case ReturnFailure(_) => q.(activator := Returned(false))
    case RecordExit(_) =>
      q.(leader := Reaped, exited := true, unexpected := q.accepted && !q.stopping, waiter := Recorded,
         log := q.log + [ExitRecorded])
    case CloseDone(_) => q.(done := true, waiter := Closed)
    case BeginCleanup(_) =>
      if q.unexpected then q.(waiter := Cleaning(|q.stops|), stops := q.stops + [Begun]) else q.(waiter := Finished)
    case Handle(_) => q.(waiter := Finished, log := q.log + [Handled(StopAt(q, q.waiter.stop, Released))])
    case BeginStop(_) => q.(stops := q.stops + [Begun])
    case FlagStop(_, k) => q.(stopping := true, stops := q.stops[k := Flagged], log := q.log + [StopRequested])
    case ProveStop(_, k) => q.(stops := q.stops[k := Proved])
    case ReleaseStop(_, k) => q.(stops := q.stops[k := Released], log := q.log + [OwnershipReleased])
    case GiveUpStop(_, k) => q.(stops := q.stops[k := GaveUp])
  }

  function Apply(s: System, a: Action): System
    requires Enabled(s, a)
  {
    if a.Spawn? then System(s.procs + [SPAWNED], Some(|s.procs|))
    else
      System(s.procs[a.p := ApplyIn(s.procs[a.p], a)],
             if a.ReleaseStop? && s.owned == Some(a.p) then None else s.owned)
  }

  // ----- what the log says -------------------------------------------------------------------

  /** The events before the exit was recorded. */
  function BeforeExit(log: seq<Event>): seq<Event> {
    if log == [] then []
    else if ExitRecorded in log[..|log| - 1] || log[|log| - 1] == ExitRecorded then BeforeExit(log[..|log| - 1])
    else log
  }

  function Handlings(log: seq<Event>): nat {
    if log == [] then 0 else Handlings(log[..|log| - 1]) + if log[|log| - 1].Handled? then 1 else 0
  }

  lemma LogSnoc(log: seq<Event>, e: Event)
    ensures BeforeExit(log + [e]) == if ExitRecorded in log || e == ExitRecorded then BeforeExit(log) else log + [e]
    ensures Handlings(log + [e]) == Handlings(log) + if e.Handled? then 1 else 0
    ensures forall x :: x in log + [e] <==> x in log || x == e
  {
    assert (log + [e])[..|log|] == log;
  }

  lemma NotExited(log: seq<Event>)
    requires ExitRecorded !in log
    ensures BeforeExit(log) == log
  {
  }

  // ----- the invariant -----------------------------------------------------------------------

  predicate FlagsTellLog(q: Process) {
    && (q.exited <==> ExitRecorded in q.log)
    && (q.stopping <==> StopRequested in q.log)
    && (q.accepted <==> Accepted in BeforeExit(q.log))
    && (Accepted in q.log ==> Accepted in BeforeExit(q.log))
  }

  /** An exit is flagged unexpected exactly when activation was accepted and no stop was requested
      before the exit was recorded. */
  predicate UnexpectedExact(q: Process) {
    q.unexpected <==> ExitRecorded in q.log && Accepted in BeforeExit(q.log) && StopRequested !in BeforeExit(q.log)
  }

  predicate WaiterTells(q: Process) {
    && (q.waiter == Waiting <==> !q.exited)
    && (q.exited <==> q.leader == Reaped)
    && (q.done <==> q.waiter != Waiting && q.waiter != Recorded)
    && (q.waiter.Cleaning? ==> q.unexpected)
    && (q.waiter.Cleaning? ==> q.waiter.stop < |q.stops|)
    && (q.activator.Failing? ==> q.activator.stop < |q.stops|)
  }

  /** The handler runs once, when all else is done, for an unexpected exit. */
  predicate HandledOnce(q: Process) {
    Handlings(q.log) == if q.waiter == Finished && q.unexpected then 1 else 0
  }

  /** Proved absence lasts, and nothing is released without it. */
  predicate ReleasesProved(q: Process) {
    && (forall k :: 0 <= k < |q.stops| && (q.stops[k] == Proved || q.stops[k] == Released) ==> Stopped(q))
    && (OwnershipReleased in q.log ==> Stopped(q))
  }

  /** No proved cleanup is reported without proved absence. */
  predicate ReportsProved(q: Process) {
    Handled(true) in q.log ==> Stopped(q)
  }

  predicate Sound(q: Process) {
    FlagsTellLog(q) && UnexpectedExact(q) && WaiterTells(q) && HandledOnce(q) && ReleasesProved(q) && ReportsProved(q)
  }

  predicate Invariant(s: System) {
    && (forall p :: 0 <= p < |s.procs| ==> Sound(s.procs[p]))
    && (s.owned.Some? ==> s.owned.value < |s.procs|)
    && forall p :: 0 <= p < |s.procs| && s.owned != Some(p) ==> OwnershipReleased in s.procs[p].log
  }

  lemma SpawnedSound()
    ensures Sound(SPAWNED)
  {
  }

  lemma LoggedSound(q: Process, e: Event, r: Process)
    requires FlagsTellLog(q) && UnexpectedExact(q) && r.log == q.log + [e]
    requires r.exited == (q.exited || e == ExitRecorded) && r.stopping == (q.stopping || e == StopRequested)
    requires r.accepted == (q.accepted || e == Accepted) && (e == Accepted ==> !q.exited)
    requires r.unexpected == if e == ExitRecorded && !q.exited then q.accepted && !q.stopping else q.unexpected
    requires e == ExitRecorded ==> !q.exited
    ensures FlagsTellLog(r) && UnexpectedExact(r)
  {
    LogSnoc(q.log, e);
    if !q.exited { NotExited(q.log); }
  }

  /** The event that a step logs, if any. */
  function Logged(q: Process, a: Action): Option<Event>
    requires EnabledIn(q, a)
  {
    match a
    case AcceptReady(_) => Some(Accepted)
    case RecordExit(_) => Some(ExitRecorded)
    case Handle(_) => Some(Handled(StopAt(q, q.waiter.stop, Released)))
    case FlagStop(_, _) => Some(StopRequested)
    case ReleaseStop(_, _) => Some(OwnershipReleased)
    case _ => None
  }

  lemma StepLogs(q: Process, a: Action)
    requires EnabledIn(q, a)
    ensures ApplyIn(q, a).log == if Logged(q, a).Some? then q.log + [Logged(q, a).value] else q.log
    ensures forall e :: e in ApplyIn(q, a).log <==> e in q.log || Logged(q, a) == Some(e)
    ensures Handlings(ApplyIn(q, a).log) == Handlings(q.log) + if a.Handle? then 1 else 0
  {
    if Logged(q, a).Some? { LogSnoc(q.log, Logged(q, a).value); }
  }

  /** How a step's event goes with its change of the flags. */
  ghost predicate FlagsGo(q: Process, e: Option<Event>, r: Process) {
    && r.log == (if e.Some? then q.log + [e.value] else q.log)
    && r.exited == (q.exited || e == Some(ExitRecorded))
    && r.stopping == (q.stopping || e == Some(StopRequested))
    && r.accepted == (q.accepted || e == Some(Accepted))
    && (e == Some(Accepted) || e == Some(ExitRecorded) ==> !q.exited)
    && r.unexpected == if e == Some(ExitRecorded) then q.accepted && !q.stopping else q.unexpected
  }

  lemma StepGoes(q: Process, a: Action)
    requires EnabledIn(q, a) && (q.waiter == Waiting ==> !q.exited)
    ensures FlagsGo(q, Logged(q, a), ApplyIn(q, a))
  {
    match a
    case AcceptReady(_) =>
    case RecordExit(_) =>
    case Handle(_) =>
    case FlagStop(_, _) =>
    case ReleaseStop(_, _) =>
    case _ =>
  }

  lemma FlagsKept(q: Process, e: Option<Event>, r: Process)
    requires FlagsTellLog(q) && UnexpectedExact(q) && FlagsGo(q, e, r)
    ensures FlagsTellLog(r) && UnexpectedExact(r)
  {
    if e.Some? { LoggedSound(q, e.value, r); }
  }

  lemma StepFlags(q: Process, a: Action)
    requires FlagsTellLog(q) && UnexpectedExact(q) && WaiterTells(q) && EnabledIn(q, a)
    ensures FlagsTellLog(ApplyIn(q, a)) && UnexpectedExact(ApplyIn(q, a))
  {
    StepGoes(q, a);
    FlagsKept(q, Logged(q, a), ApplyIn(q, a));
  }

  lemma StepWaiter(q: Process, a: Action)
    requires WaiterTells(q) && EnabledIn(q, a)
    ensures WaiterTells(ApplyIn(q, a))
  {
    StepLogs(q, a);
    match a
    case RecordExit(_) =>
    case CloseDone(_) =>
    case BeginCleanup(_) =>
    case Handle(_) =>
    case FailStart(_) =>
    case _ =>
  }

  lemma StepReleases(q: Process, a: Action)
    requires WaiterTells(q) && ReleasesProved(q) && EnabledIn(q, a)
    ensures ReleasesProved(ApplyIn(q, a))
  {
    if Stopped(q) {
      StepStopped(q, a);
    } else {
      StepLogs(q, a);
      StepStops(q, a);
    }
  }

  /** No stop proves absence of a session that is not empty. */
  lemma StepStops(q: Process, a: Action)
    requires ReleasesProved(q) && EnabledIn(q, a) && !Stopped(q)
    ensures var stops := ApplyIn(q, a).stops;
      forall k :: 0 <= k < |stops| ==> stops[k] != Proved && stops[k] != Released
    ensures !a.ReleaseStop?
  {
    match a
    case FailStart(_) =>
    case BeginCleanup(_) =>
    case BeginStop(_) =>
    case FlagStop(_, _) =>
    case ProveStop(_, _) =>
    case ReleaseStop(_, _) =>
    case GiveUpStop(_, _) =>
    case _ =>
  }

  lemma StepStopped(q: Process, a: Action)
    requires WaiterTells(q) && EnabledIn(q, a) && Stopped(q)
    ensures Stopped(ApplyIn(q, a))
  {
  }

  lemma StepHandled(q: Process, a: Action)
    requires WaiterTells(q) && HandledOnce(q) && EnabledIn(q, a)
    ensures HandledOnce(ApplyIn(q, a))
  {
    StepLogs(q, a);
  }

  lemma StepReports(q: Process, a: Action)
    requires WaiterTells(q) && ReleasesProved(q) && ReportsProved(q) && EnabledIn(q, a)
    ensures ReportsProved(ApplyIn(q, a))
  {
    StepLogs(q, a);
    if Stopped(q) { StepStopped(q, a); }
  }

  /** Every step keeps its process sound. */
  lemma StepSound(q: Process, a: Action)
    requires Sound(q) && EnabledIn(q, a)
    ensures Sound(ApplyIn(q, a))
    ensures OwnershipReleased in q.log ==> OwnershipReleased in ApplyIn(q, a).log
    ensures a.ReleaseStop? ==> OwnershipReleased in ApplyIn(q, a).log && Stopped(q)
  {
    StepFlags(q, a);
    StepWaiter(q, a);
    StepHandled(q, a);
    StepReleases(q, a);
    StepReports(q, a);
    StepLogs(q, a);
  }

  lemma StepKeeps(s: System, a: Action)
    requires Invariant(s) && Enabled(s, a)
    ensures Invariant(Apply(s, a))
  {
    if a.Spawn? {
      SpawnedSound();
    } else {
      StepSound(s.procs[a.p], a);
      Replaced(s, a.p, ApplyIn(s.procs[a.p], a), Apply(s, a).owned);
    }
  }

  lemma Replaced(s: System, p: nat, q: Process, owned: Option<nat>)
    requires Invariant(s) && p < |s.procs| && Sound(q)
    requires OwnershipReleased in s.procs[p].log ==> OwnershipReleased in q.log
    requires owned == s.owned || (owned.None? && s.owned == Some(p) && OwnershipReleased in q.log)
    ensures Invariant(System(s.procs[p := q], owned))
  {
  }

  // ----- runs --------------------------------------------------------------------------------

  /** The state after some steps; a step that cannot be taken is skipped. */
  function Run(s: System, actions: seq<Action>): System {
    if actions == [] then s
    else
      var before := Run(s, actions[..|actions| - 1]);
      var a := actions[|actions| - 1];
      if Enabled(before, a) then Apply(before, a) else before
  }

  lemma {:induction false} RunKeeps(actions: seq<Action>)
    ensures Invariant(Run(EMPTY, actions))
  {
    if actions != [] {
      var before := Run(EMPTY, actions[..|actions| - 1]);
      RunKeeps(actions[..|actions| - 1]);
      if Enabled(before, actions[|actions| - 1]) { StepKeeps(before, actions[|actions| - 1]); }
    }
  }

  /** In every interleaving: an exit is flagged unexpected exactly when activation was accepted and
      no stop was requested before it was recorded; once all is done the handler has run once for an
      unexpected exit and for no other; and it is told of a proved cleanup only when the session is
      empty. */
  lemma {:induction false} ExitsAreFlagged(actions: seq<Action>, p: nat)
    requires p < |Run(EMPTY, actions).procs|
    ensures var q := Run(EMPTY, actions).procs[p];
      && (q.unexpected <==>
          ExitRecorded in q.log && Accepted in BeforeExit(q.log) && StopRequested !in BeforeExit(q.log))
      && Handlings(q.log) == (if q.waiter == Finished && q.unexpected then 1 else 0)
      && (Handled(true) in q.log ==> Stopped(q))
  {
    RunKeeps(actions);
  }

  /** In every interleaving: a process that is not owned any more is reaped and its session empty,
      so at most one session is ever alive. */
  lemma {:induction false} OnlyOwnedAlive(actions: seq<Action>, p: nat)
    requires var s := Run(EMPTY, actions); p < |s.procs| && s.owned != Some(p)
    ensures Stopped(Run(EMPTY, actions).procs[p])
  {
    RunKeeps(actions);
  }

  /** In every interleaving: a step takes ownership away only from the process that it proved
      stopped, and gives it only to a new process when none is owned. */
  lemma {:induction false} OwnershipMoves(actions: seq<Action>, a: Action)
    requires Enabled(Run(EMPTY, actions), a)
    ensures var s := Run(EMPTY, actions);
      var t := Apply(s, a);
      t.owned != s.owned ==>
        (s.owned.None? && t.owned == Some(|s.procs|))
        || (t.owned.None? && a.ReleaseStop? && s.owned == Some(a.p) && Stopped(s.procs[a.p]) && Stopped(t.procs[a.p]))
  {
    RunKeeps(actions);
    if a.ReleaseStop? { StepSound(Run(EMPTY, actions).procs[a.p], a); }
  }
}
