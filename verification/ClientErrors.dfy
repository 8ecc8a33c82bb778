/** The failure evidence a client call returns and the retry policy read from it. */
module ClientErrors {
  datatype LocalKind = InvalidArgument | InvalidResponse | StaleHandle | UnexpectedEof | Internal | OtherLocal(tag: nat)

  datatype RemoteKind =
    | StaleState
    | RouteEpochMismatch
    | BlockLocationUnavailable
    | RunMismatch
    | FullReportRequired
    | NotRegistered
    | OtherRemote(tag: nat)

  datatype Recovery = RetryCall | RefreshState | ReopenWriteSession | RegisterWorker | SendFullBlockReport | Fail

  datatype Code = Unavailable | DeadlineExceeded | ResourceExhausted | OtherCode(code: nat)

  datatype Failure =
    | Local(kind: LocalKind)
    | Remote(remote: RemoteKind, recovery: Recovery)
    | Transport(code: Code, beforeSideEffect: bool)

  datatype ClientError = ClientError(detail: Failure, outcomeUnknown: bool, invalidSuccess: bool) {
    predicate RetryableTransport() {
      detail.Transport? && (detail.code.Unavailable? || detail.code.DeadlineExceeded? || detail.code.ResourceExhausted?)
    }

    predicate BeforeSideEffect() { detail.Transport? && detail.beforeSideEffect }

    /** Neither flag that reports a possibly completed side effect is set. */
    predicate Unflagged() { !outcomeUnknown && !invalidSuccess }
  }

  function LocalError(kind: LocalKind): ClientError { ClientError(Local(kind), false, false) }

  function InvalidLayout(): ClientError { LocalError(InvalidResponse) }

  function LocationUnavailable(): ClientError {
    ClientError(Remote(BlockLocationUnavailable, RefreshState), false, false)
  }

  function InvalidAuthority(): ClientError { ClientError(Local(InvalidResponse), false, true) }

  datatype RetrySafety = ReadOnly | ReplayableMutation | NonReplayableMutation

  datatype RetryDecision = Retry | RefreshMetadata(kind: RemoteKind) | Return

  /** `retry_decision`. */
  function Decide(error: ClientError, safety: RetrySafety): RetryDecision {
    match error.detail
    case Remote(kind, RetryCall) => Retry
    case Remote(kind, RefreshState) => RefreshMetadata(kind)
    case Remote(_, _) => Return
    case _ =>
      if !error.RetryableTransport() then Return
      else if error.BeforeSideEffect() || safety != NonReplayableMutation then Retry
      else Return
  }

  /** `transport_outcome_is_ambiguous`. */
  predicate Ambiguous(error: ClientError, safety: RetrySafety) {
    safety != ReadOnly && error.detail.Transport? && !error.BeforeSideEffect()
  }
}
