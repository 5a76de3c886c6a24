/** The vocabulary shared by the layers, and the contracts by which one layer may rely on
    another: what a backend's Start and Stop promise, and what a store mutation promises.
    The manager is proved from these contracts; `WireGuard`, `OpenVPNProcess` and `Store`
    prove that they meet them. */
module Contracts {
  datatype Option<T> = None | Some(value: T)

  type Id = string

  datatype Protocol = OpenVPN | WireGuard

  /** Error kinds that the code tells apart. A Go error is the set of kinds joined into it;
      nil is the empty set. */
  datatype Kind =
    | TransitionInProgress
    | StateConflict
    | TransitionFailed
    | ActiveProfile
    | NotFound
    | Unavailable
    | CleanupUnproved
    | IdentityConflict
    | OutcomeAmbiguous
    | Capacity
    | DuplicateObject
    | StaleInspection
    | InvalidReceipt
    | ExpiredReceipt
    | ImportBusy
    | Failed

  type Failure = set<Kind>

  /** The private execution copies are named by fresh random names: a counter stands for them.
      `NoPath` is the empty string. */
  datatype Path = NoPath | Execution(number: nat)

  /** A report that an owned OpenVPN process exited by itself. */
  datatype Exit = Exit(profile: Id, path: Path, cleanupProved: bool)

  predicate Queued(exits: seq<Exit>, id: Id) {
    exists k :: 0 <= k < |exits| && exits[k].profile == id
  }

  /** What a backend's Start of one profile promises: nil means up, and an error that does not
      report unproved cleanup leaves the profile as it was found. */
  predicate StartMeets(wasUp: bool, errs: Failure, isUp: bool) {
    && (errs == {} ==> isUp)
    && (errs != {} && CleanupUnproved !in errs ==> isUp == wasUp)
  }

  /** What a backend's Stop of one profile promises: nil means down, and a stop never brings
      a profile up. */
  predicate StopMeets(wasUp: bool, errs: Failure, isUp: bool) {
    && (errs == {} ==> !isUp)
    && (isUp ==> wasUp)
  }

  /** What a mutation of the library manifest promises: success publishes the candidate, which
      is then valid; a failure leaves either the old manifest or, when the outcome is ambiguous,
      the candidate. */
  predicate MutationMeets<M(==)>(before: M, candidate: M, valid: bool, errs: Failure, after: M) {
    && (errs == {} ==> valid && after == candidate)
    && (errs != {} ==> after == before || (valid && OutcomeAmbiguous in errs && after == candidate))
  }

  /** Two elements of `s` are equal: at most one tunnel. */
  predicate AtMostOne<T(==)>(s: set<T>) {
    forall a, b :: a in s && b in s ==> a == b
  }
}
