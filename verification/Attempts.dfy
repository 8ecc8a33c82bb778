/** The bounded attempt loop of a Metadata operation and the outcome it reports. Everything a
    call, a sleep or a lookup returns comes from the environment, one `Round` an attempt. */
module Attempts {
  import opened BerylTypes
  import opened ClientErrors

  type Group = string

  datatype Round<T> = Round(
    prepare: Option<ClientError>,         // endpoint or attempt context refused
    response: Result<T, ClientError>,     // what the call answers
    authority: Option<ClientError>,       // authority update of a success refused
    sleep: Option<ClientError>,           // deadline passed before the next attempt
    refresh: Option<ClientError>,         // refresh hint refused
    msync: Option<ClientError>,           // state refresh failed
    group: Result<Group, ClientError>)    // where the next attempt goes

  datatype Call<T> = Call(attempt: nat, group: Group, response: Result<T, ClientError>)

  /** A flagged response error is one the client built locally from a received response; the
      transport and the server set no flag. */
  predicate Received<T>(call: Call<T>) {
    call.response.Err? && !call.response.error.Unflagged() ==> call.response.error.detail.Local?
  }

  predicate AllReceived<T>(calls: seq<Call<T>>) {
    forall k :: 0 <= k < |calls| ==> Received(calls[k])
  }

  predicate AmbiguousCall<T>(call: Call<T>, safety: RetrySafety) {
    call.response.Err? && Ambiguous(call.response.error, safety)
  }

  /** The server may have carried out the mutation this call asked for. */
  predicate MayHaveApplied<T>(call: Call<T>) {
    || call.response.Ok?
    || !call.response.error.Unflagged()
    || (call.response.error.detail.Transport? && !call.response.error.BeforeSideEffect())
  }

  predicate SomeAmbiguous<T>(calls: seq<Call<T>>, safety: RetrySafety) {
    exists k :: 0 <= k < |calls| && AmbiguousCall(calls[k], safety)
  }

  predicate SomeApplied<T>(calls: seq<Call<T>>) {
    exists k :: 0 <= k < |calls| && MayHaveApplied(calls[k])
  }

  predicate OnlyLastApplied<T>(calls: seq<Call<T>>) {
    forall k :: 0 <= k < |calls| - 1 ==> !MayHaveApplied(calls[k])
  }

  predicate OnlyLastAmbiguous<T>(calls: seq<Call<T>>, safety: RetrySafety) {
    forall k :: 0 <= k < |calls| - 1 ==> !AmbiguousCall(calls[k], safety)
  }

  /** Where the attempt after a failed one goes, or what keeps it from being made. */
  function Next<T>(now: Round<T>, decision: RetryDecision, group: Group): Result<Group, ClientError>
    requires !decision.Return?
  {
    match decision
    case Retry => if now.sleep.Some? then Err(now.sleep.value) else Ok(group)
    case RefreshMetadata(kind) =>
      if now.refresh.Some? then Err(now.refresh.value)
      else if kind == StaleState && now.msync.Some? then Err(now.msync.value)
      else now.group
  }

  datatype Outcome<T> = Outcome(result: Result<T, ClientError>, calls: seq<Call<T>>)

  /** The calls made and the result reached from attempt `attempt` on. */
  function Run<T>(safety: RetrySafety, maxAttempts: nat, attempt: nat, group: Group, round: nat -> Round<T>): Outcome<T>
    requires attempt <= maxAttempts
    decreases maxAttempts - attempt
  {
    if attempt == maxAttempts then Outcome(Err(LocalError(Internal)), [])
    else
      var now := round(attempt);
      var call := Call(attempt, group, now.response);
      if now.prepare.Some? then Outcome(Err(now.prepare.value), [])
      else if now.response.Ok? then
        Outcome(if now.authority.Some? then Err(InvalidAuthority()) else now.response, [call])
      else
        var decision := Decide(now.response.error, safety);
        if decision.Return? || attempt + 1 == maxAttempts then Outcome(now.response, [call])
        else match Next(now, decision, group)
          case Err(error) => Outcome(Err(error), [call])
          case Ok(next) =>
            var rest := Run(safety, maxAttempts, attempt + 1, next, round);
            Outcome(rest.result, [call] + rest.calls)
  }

  /** The run from attempt `attempt` on ends between two calls, in an error that is flagged although
      no call returned it. */
  predicate StoppedFlagged<T>(safety: RetrySafety, maxAttempts: nat, attempt: nat, group: Group, round: nat -> Round<T>)
    requires attempt <= maxAttempts
    decreases maxAttempts - attempt
  {
    attempt < maxAttempts &&
    var now := round(attempt);
    if now.prepare.Some? then !now.prepare.value.Unflagged()
    else
      now.response.Err? &&
      var decision := Decide(now.response.error, safety);
      !decision.Return? && attempt + 1 < maxAttempts &&
      match Next(now, decision, group)
      case Err(error) => !error.Unflagged()
      case Ok(next) => StoppedFlagged(safety, maxAttempts, attempt + 1, next, round)
  }

  /** `execute_metadata_attempts`. */
  method ExecuteAttempts<T>(safety: RetrySafety, maxAttempts: nat, first: Result<Group, ClientError>, round: nat -> Round<T>)
    returns (r: Result<T, ClientError>, ambiguous: bool, calls: seq<Call<T>>)
    ensures first.Err? ==> r == Err(first.error) && calls == []
    ensures first.Ok? ==> Outcome(r, calls) == Run(safety, maxAttempts, 0, first.value, round)
    ensures ambiguous <==> SomeAmbiguous(calls, safety)
  {
    ambiguous, calls := false, [];
    if first.Err? {
      return Err(first.error), ambiguous, calls;
    }
    var group := first.value;
    ghost var whole := Run(safety, maxAttempts, 0, group, round);
    assert [] + whole.calls == whole.calls;
    for attempt := 0 to maxAttempts
      invariant whole == After(calls, Run(safety, maxAttempts, attempt, group, round))
      invariant ambiguous <==> SomeAmbiguous(calls, safety)
    {
      var now := round(attempt);
      if now.prepare.Some? {
        return Err(now.prepare.value), ambiguous, calls;
      }
      var call := Call(attempt, group, now.response);
      AmbiguousAfter(calls, call, safety);
      ghost var before := calls;
      calls := calls + [call];
      if now.response.Ok? {
        if now.authority.Some? {
          return Err(InvalidAuthority()), ambiguous, calls;
        }
        return now.response, ambiguous, calls;
      }
      var error := now.response.error;
      var decision := Decide(error, safety);
      ambiguous := ambiguous || Ambiguous(error, safety);
      if decision.Return? || attempt + 1 == maxAttempts {
        return Err(error), ambiguous, calls;
      }
      if decision.Retry? {
        if now.sleep.Some? {
          return Err(now.sleep.value), ambiguous, calls;
        }
      } else {
        if now.refresh.Some? {
          return Err(now.refresh.value), ambiguous, calls;
        }
        if decision.kind == StaleState && now.msync.Some? {
          return Err(now.msync.value), ambiguous, calls;
        }
        if now.group.Err? {
          return Err(now.group.error), ambiguous, calls;
        }
        group := now.group.value;
      }
      AfterTwice(before, call, Run(safety, maxAttempts, attempt + 1, group, round));
    }
    return Err(LocalError(Internal)), ambiguous, calls;
  }

  ghost function After<T>(calls: seq<Call<T>>, rest: Outcome<T>): Outcome<T> {
    Outcome(rest.result, calls + rest.calls)
  }

  lemma AfterTwice<T>(calls: seq<Call<T>>, call: Call<T>, rest: Outcome<T>)
    ensures After(calls, After([call], rest)) == After(calls + [call], rest)
  {
    assert calls + ([call] + rest.calls) == calls + [call] + rest.calls;
  }

  lemma AmbiguousAfter<T>(calls: seq<Call<T>>, call: Call<T>, safety: RetrySafety)
    ensures SomeAmbiguous(calls + [call], safety) <==> SomeAmbiguous(calls, safety) || AmbiguousCall(call, safety)
  {
    var all := calls + [call];
    if SomeAmbiguous(calls, safety) {
      var k :| 0 <= k < |calls| && AmbiguousCall(calls[k], safety);
      assert AmbiguousCall(all[k], safety);
    }
    assert all[|calls|] == call;
  }

  /** `execute_mutation_metadata`. */
  method ExecuteMutation<T>(safety: RetrySafety, maxAttempts: nat, first: Result<Group, ClientError>, round: nat -> Round<T>)
    returns (r: Result<T, ClientError>, calls: seq<Call<T>>)
    requires safety != ReadOnly
    ensures |calls| <= maxAttempts
    ensures r.Ok? ==> calls != [] && calls[|calls| - 1].response == r
    ensures r.Err? && SomeAmbiguous(calls, safety) ==> r.error.outcomeUnknown
    ensures safety == NonReplayableMutation ==> OnlyLastAmbiguous(calls, safety)
    ensures safety == NonReplayableMutation && AllReceived(calls) ==> OnlyLastApplied(calls)
    ensures first.Err? ==> calls == [] && r.Err? && (r.error.outcomeUnknown <==> !first.error.Unflagged())
    ensures first.Ok? && r.Err? && r.error.outcomeUnknown ==>
              SomeApplied(calls) || StoppedFlagged(safety, maxAttempts, 0, first.value, round)
    ensures first.Ok? && r.Err? && AllReceived(calls) ==>
              (r.error.outcomeUnknown <==> SomeApplied(calls) || StoppedFlagged(safety, maxAttempts, 0, first.value, round))
  {
    var inner, ambiguous;
    inner, ambiguous, calls := ExecuteAttempts(safety, maxAttempts, first, round);
    if first.Ok? {
      RunCalls(safety, maxAttempts, 0, first.value, round);
      KnownOutcome(safety, maxAttempts, 0, first.value, round);
      if safety == NonReplayableMutation {
        AppliedIsLast(safety, maxAttempts, 0, first.value, round);
      }
    }
    if inner.Err? && (ambiguous || !inner.error.Unflagged()) {
      return Err(inner.error.(outcomeUnknown := true)), calls;
    }
    return inner, calls;
  }

  // ---- When another call is made --------------------------------------------------------

  /** The failed round licenses a next call in group `next`: the server asks for a retry, or the
      transport failed for the moment and the call may be repeated, and the pause is allowed; or
      the server asks for a refresh, every part of which goes through. */
  predicate GoesOn<T>(now: Round<T>, safety: RetrySafety, group: Group, next: Group) {
    now.response.Err? &&
    match now.response.error.detail
    case Local(_) => false
    case Remote(kind, recovery) =>
      || (recovery.RetryCall? && now.sleep.None? && next == group)
      || (recovery.RefreshState? && now.refresh.None? && (kind == StaleState ==> now.msync.None?) && now.group == Ok(next))
    case Transport(code, beforeSideEffect) =>
      && (code.Unavailable? || code.DeadlineExceeded? || code.ResourceExhausted?)
      && (beforeSideEffect || safety != NonReplayableMutation)
      && now.sleep.None? && next == group
  }

  /** The calls of a run: the first in the group the run starts in, each next one exactly where the
      failure before it licenses it, as long as attempts are left and can be prepared. */
  ghost predicate Licensed<T(!new)>(calls: seq<Call<T>>, safety: RetrySafety, maxAttempts: nat, attempt: nat, group: Group,
                                    round: nat -> Round<T>)
    requires attempt <= maxAttempts
  {
    && |calls| <= maxAttempts - attempt
    && (calls != [] <==> attempt < maxAttempts && round(attempt).prepare.None?)
    && (calls != [] ==> calls[0].group == group)
    && (forall k {:trigger LicensedAt(calls, safety, attempt, round, k)} :: 0 <= k < |calls| ==>
          LicensedAt(calls, safety, attempt, round, k))
    && (0 < |calls| < maxAttempts - attempt ==>
          var last := calls[|calls| - 1];
          StopsAfter(round(last.attempt), safety, last.group) || round(last.attempt + 1).prepare.Some?)
  }

  /** One call for the attempt, answered as the round says, and not the first one without a failure
      before it that licenses it. */
  ghost predicate LicensedAt<T>(calls: seq<Call<T>>, safety: RetrySafety, attempt: nat, round: nat -> Round<T>, k: nat)
    requires k < |calls|
  {
    && calls[k].attempt == attempt + k && calls[k].response == round(attempt + k).response
    && (k > 0 ==>
          && GoesOn(round(attempt + k - 1), safety, calls[k - 1].group, calls[k].group)
          && round(attempt + k).prepare.None?)
  }

  /** The failure licenses no further call, in no group. */
  ghost predicate StopsAfter<T>(now: Round<T>, safety: RetrySafety, group: Group) {
    forall next :: !GoesOn(now, safety, group, next)
  }

  lemma {:induction false} CallsExact<T(!new)>(safety: RetrySafety, maxAttempts: nat, attempt: nat, group: Group, round: nat -> Round<T>)
    requires attempt <= maxAttempts
    ensures Licensed(Run(safety, maxAttempts, attempt, group, round).calls, safety, maxAttempts, attempt, group, round)
    decreases maxAttempts - attempt
  {
    if attempt < maxAttempts && round(attempt).prepare.None? {
      var now := round(attempt);
      if now.response.Err? {
        NextExact(now, safety, group);
        var decision := Decide(now.response.error, safety);
        if !decision.Return? && attempt + 1 < maxAttempts && Next(now, decision, group).Ok? {
          var next := Next(now, decision, group).value;
          CallsExact(safety, maxAttempts, attempt + 1, next, round);
          LicensedPrepend(Run(safety, maxAttempts, attempt + 1, next, round).calls, safety, maxAttempts, attempt, group, next, round);
        }
      }
    }
  }

  lemma NextExact<T>(now: Round<T>, safety: RetrySafety, group: Group)
    requires now.response.Err?
    ensures var decision := Decide(now.response.error, safety);
            forall next :: GoesOn(now, safety, group, next) <==> !decision.Return? && Next(now, decision, group) == Ok(next)
  {
    var decision := Decide(now.response.error, safety);
    forall next ensures GoesOn(now, safety, group, next) <==> !decision.Return? && Next(now, decision, group) == Ok(next) {
      GoesOnExact(now, safety, group, next);
    }
  }

  lemma GoesOnExact<T>(now: Round<T>, safety: RetrySafety, group: Group, next: Group)
    requires now.response.Err?
    ensures var decision := Decide(now.response.error, safety);
            GoesOn(now, safety, group, next) <==> !decision.Return? && Next(now, decision, group) == Ok(next)
  {
    match now.response.error.detail
    case Local(_) =>
    case Remote(kind, recovery) =>
    case Transport(code, beforeSideEffect) =>
  }

  lemma LicensedPrepend<T(!new)>(rest: seq<Call<T>>, safety: RetrySafety, maxAttempts: nat, attempt: nat, group: Group,
                                 next: Group, round: nat -> Round<T>)
    requires attempt + 1 < maxAttempts && round(attempt).prepare.None? && GoesOn(round(attempt), safety, group, next)
    requires Licensed(rest, safety, maxAttempts, attempt + 1, next, round)
    ensures Licensed([Call(attempt, group, round(attempt).response)] + rest, safety, maxAttempts, attempt, group, round)
  {
    hide GoesOn, StopsAfter;
    var call := Call(attempt, group, round(attempt).response);
    var calls := [call] + rest;
    forall k | 0 <= k < |calls| ensures LicensedAt(calls, safety, attempt, round, k) {
      if k > 0 {
        assert LicensedAt(rest, safety, attempt + 1, round, k - 1);
        assert calls[k] == rest[k - 1] && calls[k - 1] == if k > 1 then rest[k - 2] else call;
      }
    }
    if rest != [] {
      assert LicensedAt(rest, safety, attempt + 1, round, |rest| - 1);
      assert calls[|calls| - 1] == rest[|rest| - 1];
    }
  }

  /** How a run that made calls ends: its last call's success is the result unless the authority that
      came with it is refused, which is reported as a malformed success; a failure that no further
      attempt may follow is the result itself, and otherwise whatever first keeps the next attempt
      from being made. */
  ghost predicate EndsWith<T>(result: Result<T, ClientError>, last: Call<T>, now: Round<T>, safety: RetrySafety, final: bool) {
    && last.response == now.response
    && (result.Ok? <==> now.response.Ok? && now.authority.None?)
    && (now.response.Ok? ==>
          result == if now.authority.None? then now.response else Err(ClientError(Local(InvalidResponse), false, true)))
    && (now.response.Err? && (final || Decide(now.response.error, safety).Return?) ==> result == now.response)
    && (now.response.Err? && !final ==>
          match Decide(now.response.error, safety)
          case Return => true
          case Retry => now.sleep.Some? ==> result == Err(now.sleep.value)
          case RefreshMetadata(kind) =>
            && (now.refresh.Some? ==> result == Err(now.refresh.value))
            && (now.refresh.None? && kind == StaleState && now.msync.Some? ==> result == Err(now.msync.value))
            && (now.refresh.None? && (kind == StaleState ==> now.msync.None?) && now.group.Err? ==> result == Err(now.group.error)))
  }

  lemma OneCallEnds<T>(safety: RetrySafety, maxAttempts: nat, attempt: nat, group: Group, round: nat -> Round<T>)
    requires attempt < maxAttempts && round(attempt).prepare.None?
    ensures var run := Run(safety, maxAttempts, attempt, group, round);
            |run.calls| == 1 ==> EndsWith(run.result, run.calls[0], round(attempt), safety, attempt + 1 == maxAttempts)
  {
    if round(attempt).response.Err? {
      var decision := Decide(round(attempt).response.error, safety);
      if !decision.Return? && attempt + 1 < maxAttempts && Next(round(attempt), decision, group).Ok? {
        ErrsWithoutCall(safety, maxAttempts, attempt + 1, Next(round(attempt), decision, group).value, round);
      }
    }
  }

  lemma ErrsWithoutCall<T>(safety: RetrySafety, maxAttempts: nat, attempt: nat, group: Group, round: nat -> Round<T>)
    requires attempt <= maxAttempts
    ensures var run := Run(safety, maxAttempts, attempt, group, round);
            run.calls == [] ==> run.result == Err(if attempt == maxAttempts then LocalError(Internal) else round(attempt).prepare.value)
  {
  }

  /** At most one call for each attempt left, in order, and the result is the last call's. */
  lemma {:induction false} RunCalls<T>(safety: RetrySafety, maxAttempts: nat, attempt: nat, group: Group, round: nat -> Round<T>)
    requires attempt <= maxAttempts
    ensures var run := Run(safety, maxAttempts, attempt, group, round);
            && |run.calls| <= maxAttempts - attempt
            && (forall k :: 0 <= k < |run.calls| ==> run.calls[k].attempt == attempt + k)
            && (run.result.Ok? ==> run.calls != [])
            && (run.calls != [] ==>
                  var last := run.calls[|run.calls| - 1];
                  EndsWith(run.result, last, round(last.attempt), safety, last.attempt + 1 == maxAttempts))
    decreases maxAttempts - attempt
  {
    hide EndsWith;
    if attempt < maxAttempts && round(attempt).prepare.None? {
      OneCallEnds(safety, maxAttempts, attempt, group, round);
      if round(attempt).response.Err? {
        var decision := Decide(round(attempt).response.error, safety);
        if !decision.Return? && attempt + 1 < maxAttempts && Next(round(attempt), decision, group).Ok? {
          RunCalls(safety, maxAttempts, attempt + 1, Next(round(attempt), decision, group).value, round);
        }
      }
    }
  }

  /** A failed run is flagged or has seen an ambiguous call exactly when some call may have
      taken effect, or it was stopped between calls by a flagged error. */
  lemma {:induction false} KnownOutcome<T>(safety: RetrySafety, maxAttempts: nat, attempt: nat, group: Group, round: nat -> Round<T>)
    requires attempt <= maxAttempts && safety != ReadOnly
    ensures var run := Run(safety, maxAttempts, attempt, group, round);
            var stopped := StoppedFlagged(safety, maxAttempts, attempt, group, round);
            run.result.Err? ==>
              var unknown := SomeAmbiguous(run.calls, safety) || !run.result.error.Unflagged();
              && (unknown ==> SomeApplied(run.calls) || stopped)
              && (stopped ==> unknown)
              && (AllReceived(run.calls) && SomeApplied(run.calls) ==> unknown)
    decreases maxAttempts - attempt
  {
    hide SomeAmbiguous, SomeApplied, AllReceived;
    NoCalls<T>(safety);
    if attempt < maxAttempts {
      var now := round(attempt);
      var call := Call(attempt, group, now.response);
      OneMore(call, [], safety);
      if now.response.Err? {
        var decision := Decide(now.response.error, safety);
        if !decision.Return? && Next(now, decision, group).Ok? {
          var next := Next(now, decision, group).value;
          KnownOutcome(safety, maxAttempts, attempt + 1, next, round);
          OneMore(call, Run(safety, maxAttempts, attempt + 1, next, round).calls, safety);
        }
      }
    }
  }

  lemma NoCalls<T>(safety: RetrySafety)
    ensures !SomeAmbiguous<T>([], safety) && !SomeApplied<T>([]) && AllReceived<T>([])
  {
  }

  lemma OneMore<T>(call: Call<T>, calls: seq<Call<T>>, safety: RetrySafety)
    ensures SomeAmbiguous([call] + calls, safety) <==> AmbiguousCall(call, safety) || SomeAmbiguous(calls, safety)
    ensures SomeApplied([call] + calls) <==> MayHaveApplied(call) || SomeApplied(calls)
    ensures AllReceived([call] + calls) <==> Received(call) && AllReceived(calls)
    ensures calls == [] ==> [call] + calls == [call]
  {
    var all := [call] + calls;
    assert all[0] == call;
    assert forall k :: 0 <= k < |calls| ==> calls[k] == all[k + 1];
    assert forall k :: 0 < k < |all| ==> all[k] == calls[k - 1];
  }

  /** A non-replayable mutation is never called again after an ambiguous transport failure, nor,
      when flags come from received responses only, after any call that may have taken effect. */
  lemma {:induction false} AppliedIsLast<T>(safety: RetrySafety, maxAttempts: nat, attempt: nat, group: Group, round: nat -> Round<T>)
    requires attempt <= maxAttempts && safety == NonReplayableMutation
    ensures var calls := Run(safety, maxAttempts, attempt, group, round).calls;
            OnlyLastAmbiguous(calls, safety) && (AllReceived(calls) ==> OnlyLastApplied(calls))
    decreases maxAttempts - attempt
  {
    hide OnlyLastAmbiguous, OnlyLastApplied, AllReceived;
    AtMostOne<T>([], safety);
    if attempt < maxAttempts {
      var now := round(attempt);
      var call := Call(attempt, group, now.response);
      AtMostOne([call], safety);
      if now.response.Err? {
        var decision := Decide(now.response.error, safety);
        if !decision.Return? && Next(now, decision, group).Ok? {
          var next := Next(now, decision, group).value;
          AppliedIsLast(safety, maxAttempts, attempt + 1, next, round);
          NotTheLast(call, Run(safety, maxAttempts, attempt + 1, next, round).calls, safety);
        }
      }
    }
  }

  lemma AtMostOne<T>(calls: seq<Call<T>>, safety: RetrySafety)
    requires |calls| <= 1
    ensures OnlyLastAmbiguous(calls, safety) && OnlyLastApplied(calls)
  {
  }

  lemma NotTheLast<T>(call: Call<T>, calls: seq<Call<T>>, safety: RetrySafety)
    requires call.response.Err? && safety == NonReplayableMutation && !Decide(call.response.error, safety).Return?
    requires OnlyLastAmbiguous(calls, safety) && (AllReceived(calls) ==> OnlyLastApplied(calls))
    ensures OnlyLastAmbiguous([call] + calls, safety)
    ensures AllReceived([call] + calls) ==> OnlyLastApplied([call] + calls)
  {
    OneMore(call, calls, safety);
  }

  // ---- A refused mutation reported with unknown outcome ----------------------------------

  /** The last call was refused for stale state, and the refresh that followed met a response it
      flagged: the only way in which a mutation none of whose calls may have taken effect is
      reported with unknown outcome. */
  predicate MsyncFlagged<T>(calls: seq<Call<T>>, safety: RetrySafety, maxAttempts: nat, round: nat -> Round<T>) {
    0 < |calls| < maxAttempts &&
    var now := round(|calls| - 1);
    && now.response.Err? && Decide(now.response.error, safety) == RefreshMetadata(StaleState)
    && now.refresh.None? && now.msync.Some? && !now.msync.value.Unflagged()
  }

  /** What the endpoint and group tables, the refresh hints and the deadline refuse is never
      flagged. */
  predicate PlainAround<T>(r: Round<T>) {
    && (r.prepare.Some? ==> r.prepare.value.Unflagged())
    && (r.sleep.Some? ==> r.sleep.value.Unflagged())
    && (r.refresh.Some? ==> r.refresh.value.Unflagged())
    && (r.group.Err? ==> r.group.error.Unflagged())
  }

  lemma {:induction false} StoppedByMsync<T>(safety: RetrySafety, maxAttempts: nat, attempt: nat, group: Group, round: nat -> Round<T>)
    requires attempt <= maxAttempts && forall k :: PlainAround(round(k))
    ensures var calls := Run(safety, maxAttempts, attempt, group, round).calls;
            StoppedFlagged(safety, maxAttempts, attempt, group, round) <==>
              0 < |calls| < maxAttempts - attempt &&
              var now := round(attempt + |calls| - 1);
              && now.response.Err? && Decide(now.response.error, safety) == RefreshMetadata(StaleState)
              && now.refresh.None? && now.msync.Some? && !now.msync.value.Unflagged()
    decreases maxAttempts - attempt
  {
    if attempt < maxAttempts {
      var now := round(attempt);
      assert PlainAround(now);
      if now.prepare.None? && now.response.Err? {
        var decision := Decide(now.response.error, safety);
        if !decision.Return? && attempt + 1 < maxAttempts && Next(now, decision, group).Ok? {
          StoppedByMsync(safety, maxAttempts, attempt + 1, Next(now, decision, group).value, round);
        }
      }
    }
  }

  /** The exact outcome of a failed mutation: unknown if and only if some call may have taken
      effect, or the refresh after a stale-state refusal was flagged. */
  lemma UnknownOutcomeExact<T>(safety: RetrySafety, maxAttempts: nat, group: Group, round: nat -> Round<T>)
    requires safety != ReadOnly && forall k :: PlainAround(round(k))
    requires var run := Run(safety, maxAttempts, 0, group, round); run.result.Err? && AllReceived(run.calls)
    ensures var run := Run(safety, maxAttempts, 0, group, round);
            SomeAmbiguous(run.calls, safety) || !run.result.error.Unflagged() <==>
            SomeApplied(run.calls) || MsyncFlagged(run.calls, safety, maxAttempts, round)
  {
    KnownOutcome(safety, maxAttempts, 0, group, round);
    StoppedByMsync(safety, maxAttempts, 0, group, round);
  }

  /** Every attempt is refused for stale state and every refresh gets a malformed response. */
  function StaleThenMalformed<T>(): nat -> Round<T> {
    (k: nat) => Round(None, Err(ClientError(Remote(StaleState, RefreshState), false, false)), None, None, None,
                      Some(ClientError(Local(InvalidResponse), false, true)), Ok("root"))
  }

  /** So a mutation whose one call was refused outright is reported with unknown outcome. */
  lemma RefusedYetUnknown<T>(safety: RetrySafety, maxAttempts: nat, group: Group)
    requires maxAttempts > 1
    ensures var run := Run(safety, maxAttempts, 0, group, StaleThenMalformed<T>());
            && |run.calls| == 1 && AllReceived(run.calls) && run.result.Err? && !run.result.error.Unflagged()
            && !SomeApplied(run.calls) && !SomeAmbiguous(run.calls, safety)
  {
  }
}
