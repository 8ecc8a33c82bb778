/** Request admission of a gRPC server: a server-wide semaphore, a smaller one for regular
    requests and one for each connection, acquired and released one permit at a time by any
    number of requests. */
module Admission {
  import opened MapSums

  datatype Traffic = Regular | Control

  type ConnectionId = nat
  type RequestId = nat

  datatype Config = Config(maxRequests: nat, maxPerConnection: nat, reserved: nat)

  const MAX_PERMITS: nat := 0x1fff_ffff_ffff_ffff

  /** `validate_grpc_request_concurrency`. */
  predicate Valid(config: Config) {
    && 0 < config.maxRequests <= MAX_PERMITS
    && 0 < config.maxPerConnection <= config.maxRequests
    && config.reserved < config.maxRequests
  }

  datatype Phase =
    | Arrived       // about to ask for a connection permit
    | Connected     // holds that; a regular request asks for a regular permit, a control one for the total
    | Registered    // regular: also holds a regular permit, asks for the total
    | Active        // holds everything it needs; its next step ends it
    | Closing       // gave back the connection permit
    | Last          // regular: also gave back the regular permit
    | Refused       // gives back the connection permit
    | RefusedLate   // regular: gives back the regular permit first

  datatype Request = Request(traffic: Traffic, connection: ConnectionId, phase: Phase)

  datatype Server = Server(
    config: Config,
    total: nat,
    regular: nat,
    connections: map<ConnectionId, nat>,
    requests: map<RequestId, Request>)

  datatype Action = Arrive(id: RequestId, traffic: Traffic, connection: ConnectionId) | Go(id: RequestId)

  function Free(s: Server, c: ConnectionId): nat {
    if c in s.connections then s.connections[c] else s.config.maxPerConnection
  }

  function Fresh(config: Config): Server
    requires Valid(config)
  {
    Server(config, config.maxRequests, config.maxRequests - config.reserved, map[], map[])
  }

  // ---- Steps ------------------------------------------------------------------------

  function Move(s: Server, id: RequestId, phase: Phase): Server
    requires id in s.requests
  {
    s.(requests := s.requests[id := s.requests[id].(phase := phase)])
  }

  function Leave(s: Server, id: RequestId): Server { s.(requests := s.requests - {id}) }

  function Give(s: Server, c: ConnectionId): Server { s.(connections := s.connections[c := Free(s, c) + 1]) }

  function Take(s: Server, c: ConnectionId): Server
    requires Free(s, c) > 0
  {
    s.(connections := s.connections[c := Free(s, c) - 1])
  }

  /** The next step of a request; asking for a permit that is not there refuses at once. */
  function Proceed(s: Server, id: RequestId): Server
    requires id in s.requests
  {
    var r := s.requests[id];
    match r.phase
    case Arrived => if Free(s, r.connection) > 0 then Move(Take(s, r.connection), id, Connected) else Leave(s, id)
    case Connected =>
      if r.traffic.Regular? then
        if s.regular > 0 then Move(s.(regular := s.regular - 1), id, Registered) else Move(s, id, Refused)
      else
        if s.total > 0 then Move(s.(total := s.total - 1), id, Active) else Move(s, id, Refused)
    case Registered =>
      if s.total > 0 then Move(s.(total := s.total - 1), id, Active) else Move(s, id, RefusedLate)
    case Active => Move(Give(s, r.connection), id, Closing)
    case Closing =>
      if r.traffic.Regular? then Move(s.(regular := s.regular + 1), id, Last) else Leave(s.(total := s.total + 1), id)
    case Last => Leave(s.(total := s.total + 1), id)
    case RefusedLate => Move(s.(regular := s.regular + 1), id, Refused)
    case Refused => Leave(Give(s, r.connection), id)
  }

  function Step(s: Server, action: Action): Server {
    match action
    case Arrive(id, traffic, connection) =>
      if id in s.requests then s else s.(requests := s.requests[id := Request(traffic, connection, Arrived)])
    case Go(id) => if id in s.requests then Proceed(s, id) else s
  }

  function Reached(config: Config, actions: seq<Action>): Server
    requires Valid(config)
  {
    if actions == [] then Fresh(config) else Step(Reached(config, actions[..|actions| - 1]), actions[|actions| - 1])
  }

  // ---- What a request holds --------------------------------------------------------------

  function HoldsTotal(): Request -> nat {
    (r: Request) => if r.phase.Active? || r.phase.Closing? || r.phase.Last? then 1 else 0
  }

  function HoldsRegular(): Request -> nat {
    (r: Request) =>
      if r.traffic.Regular? && (r.phase.Registered? || r.phase.Active? || r.phase.Closing? || r.phase.RefusedLate?) then 1 else 0
  }

  function HoldsConnection(c: ConnectionId): Request -> nat {
    (r: Request) =>
      if r.connection == c && !r.phase.Arrived? && !r.phase.Closing? && !r.phase.Last? then 1 else 0
  }

  predicate Sensible(r: Request) {
    r.traffic.Control? ==> !r.phase.Registered? && !r.phase.RefusedLate? && !r.phase.Last?
  }

  /** Free permits and held permits always add up to what the semaphores were made with. */
  ghost predicate Conserved(s: Server) {
    && Valid(s.config)
    && s.total + Sum(s.requests, HoldsTotal()) == s.config.maxRequests
    && s.regular + Sum(s.requests, HoldsRegular()) == s.config.maxRequests - s.config.reserved
    && (forall c :: Free(s, c) + Sum(s.requests, HoldsConnection(c)) == s.config.maxPerConnection)
    && (forall id :: id in s.requests ==> Sensible(s.requests[id]))
  }

  /** What a request holds of some kind, nothing once it is gone. */
  ghost function Held(requests: map<RequestId, Request>, id: RequestId, weight: Request -> nat): nat {
    if id in requests then weight(requests[id]) else 0
  }

  /** A step changes no request but its own. */
  lemma OnlyOwn(s: Server, id: RequestId)
    requires id in s.requests
    ensures var s' := Proceed(s, id);
            s'.config == s.config &&
            s'.requests == if id in s'.requests then s.requests[id := s'.requests[id]] else s.requests - {id}
  {
  }

  /** So each total changes by what the request took or gave back. */
  lemma Shift(s: Server, id: RequestId, weight: Request -> nat)
    requires id in s.requests
    ensures var next := Proceed(s, id).requests;
            Sum(next, weight) + Held(s.requests, id, weight) == Sum(s.requests, weight) + Held(next, id, weight)
  {
    hide Proceed, Sum;
    var next := Proceed(s, id).requests;
    OnlyOwn(s, id);
    SumSplit(s.requests, id, weight);
    if id in next {
      SumReplace(s.requests, id, next[id], weight);
    }
  }

  lemma OwnTotal(s: Server, id: RequestId)
    requires id in s.requests && Sensible(s.requests[id])
    ensures var s' := Proceed(s, id);
            s'.total + Held(s'.requests, id, HoldsTotal()) == s.total + Held(s.requests, id, HoldsTotal())
  {
  }

  lemma OwnRegular(s: Server, id: RequestId)
    requires id in s.requests && Sensible(s.requests[id])
    ensures var s' := Proceed(s, id);
            && s'.regular + Held(s'.requests, id, HoldsRegular()) == s.regular + Held(s.requests, id, HoldsRegular())
            && (id in s'.requests ==> Sensible(s'.requests[id]))
  {
  }

  lemma OwnConnection(s: Server, id: RequestId, c: ConnectionId)
    requires id in s.requests
    ensures var s' := Proceed(s, id);
            Free(s', c) + Held(s'.requests, id, HoldsConnection(c)) == Free(s, c) + Held(s.requests, id, HoldsConnection(c))
  {
  }

  lemma ProceedKeeps(s: Server, id: RequestId)
    requires Conserved(s) && id in s.requests
    ensures Conserved(Proceed(s, id)) && Proceed(s, id).config == s.config
  {
    hide Proceed, Sum, HoldsTotal, HoldsRegular, HoldsConnection, Sensible, Free, Held;
    var s' := Proceed(s, id);
    OnlyOwn(s, id);
    OwnTotal(s, id);
    Shift(s, id, HoldsTotal());
    OwnRegular(s, id);
    Shift(s, id, HoldsRegular());
    forall c ensures Free(s', c) + Sum(s'.requests, HoldsConnection(c)) == s.config.maxPerConnection {
      assert Free(s, c) + Sum(s.requests, HoldsConnection(c)) == s.config.maxPerConnection;
      OwnConnection(s, id, c);
      Shift(s, id, HoldsConnection(c));
    }
  }

  lemma ArriveKeeps(s: Server, id: RequestId, traffic: Traffic, connection: ConnectionId)
    requires Conserved(s)
    ensures Conserved(Step(s, Arrive(id, traffic, connection)))
  {
    if id !in s.requests {
      var r, s' := Request(traffic, connection, Arrived), Step(s, Arrive(id, traffic, connection));
      SumInsert(s.requests, id, r, HoldsTotal());
      SumInsert(s.requests, id, r, HoldsRegular());
      forall c ensures Free(s', c) + Sum(s'.requests, HoldsConnection(c)) == s.config.maxPerConnection {
        SumInsert(s.requests, id, r, HoldsConnection(c));
        assert Free(s, c) + Sum(s.requests, HoldsConnection(c)) == s.config.maxPerConnection;
      }
    }
  }

  lemma StepKeeps(s: Server, action: Action)
    requires Conserved(s)
    ensures Conserved(Step(s, action)) && Step(s, action).config == s.config
  {
    hide Proceed, Conserved;
    match action {
      case Arrive(id, traffic, connection) => {
        ArriveKeeps(s, id, traffic, connection);
      }
      case Go(id) => {
        if id in s.requests {
          ProceedKeeps(s, id);
        }
      }
    }
  }

  /** In every interleaving permits are conserved. */
  lemma {:induction false} ReachedConserves(config: Config, actions: seq<Action>)
    requires Valid(config)
    ensures Conserved(Reached(config, actions)) && Reached(config, actions).config == config
  {
    if actions == [] {
    } else {
      ReachedConserves(config, actions[..|actions| - 1]);
      StepKeeps(Reached(config, actions[..|actions| - 1]), actions[|actions| - 1]);
    }
  }

  /** Hence the bounds hold, and everything is free again once no request is left. */
  lemma ReachedWithinBounds(config: Config, actions: seq<Action>)
    requires Valid(config)
    ensures var s := Reached(config, actions);
            && Sum(s.requests, HoldsTotal()) <= config.maxRequests
            && Sum(s.requests, HoldsRegular()) <= config.maxRequests - config.reserved
            && (forall c :: Sum(s.requests, HoldsConnection(c)) <= config.maxPerConnection)
            && (s.requests == map[] ==>
                  && s.total == config.maxRequests
                  && s.regular == config.maxRequests - config.reserved
                  && forall c :: Free(s, c) == config.maxPerConnection)
  {
    ReachedConserves(config, actions);
    var s := Reached(config, actions);
    forall c ensures Sum(s.requests, HoldsConnection(c)) <= config.maxPerConnection {
      assert Free(s, c) + Sum(s.requests, HoldsConnection(c)) == config.maxPerConnection;
    }
  }

  // ---- A request that arrives alone -----------------------------------------------------

  function GoTimes(s: Server, id: RequestId, n: nat): Server
    decreases n
  {
    if n == 0 then s else GoTimes(Step(s, Go(id)), id, n - 1)
  }

  /** The phase a request reaches when it arrives and asks for its permits with no other step in
      between. */
  function Asked(s: Server, id: RequestId, traffic: Traffic, connection: ConnectionId): Server {
    GoTimes(Step(s, Arrive(id, traffic, connection)), id, if traffic.Control? then 2 else 3)
  }

  /** It is active exactly if a connection permit, for a regular request also a regular one, and a
      total permit are free, and then holds one of each; a control request needs no regular one.
      Refused on the connection it is gone and nothing has changed. */
  lemma AdmittedExact(s: Server, id: RequestId, traffic: Traffic, c: ConnectionId)
    requires id !in s.requests
    ensures var t := Asked(s, id, traffic, c);
            && (id in t.requests && t.requests[id].phase.Active? <==>
                  Free(s, c) > 0 && s.total > 0 && (traffic.Regular? ==> s.regular > 0))
            && (id in t.requests && t.requests[id].phase.Active? ==>
                  && t.total == s.total - 1 && t.regular == (if traffic.Regular? then s.regular - 1 else s.regular)
                  && Free(t, c) == Free(s, c) - 1 && t.requests == s.requests[id := Request(traffic, c, Active)])
            && (Free(s, c) == 0 ==> t == s)
  {
    hide GoTimes;
    var r0 := Request(traffic, c, Arrived);
    var s0 := s.(requests := s.requests[id := r0]);
    var n := if traffic.Control? then 2 else 3;
    assert Step(s, Arrive(id, traffic, c)) == s0;
    GoOne(s0, id, n);
    if Free(s, c) == 0 {
      assert s0.requests - {id} == s.requests;
      Gone(s, id, n - 1);
    } else {
      var s1 := Step(s0, Go(id));
      assert s1.requests == s.requests[id := Request(traffic, c, Connected)];
      GoOne(s1, id, n - 1);
      var s2 := Step(s1, Go(id));
      if traffic.Regular? && s.regular > 0 {
        assert s2.requests == s.requests[id := Request(traffic, c, Registered)];
        GoOne(s2, id, 1);
        var s3 := Step(s2, Go(id));
        GoNone(s3, id);
        assert s.total > 0 ==> s3.requests == s.requests[id := Request(traffic, c, Active)];
      } else if traffic.Regular? {
        assert s2.requests[id].phase.Refused?;
        GoOne(s2, id, 1);
        GoNone(Step(s2, Go(id)), id);
      } else {
        GoNone(s2, id);
        assert s.total > 0 ==> s2.requests == s.requests[id := Request(traffic, c, Active)];
      }
    }
  }

  lemma GoOne(s: Server, id: RequestId, n: nat)
    requires n > 0
    ensures GoTimes(s, id, n) == GoTimes(Step(s, Go(id)), id, n - 1)
  {
  }

  lemma GoNone(s: Server, id: RequestId)
    ensures GoTimes(s, id, 0) == s
  {
  }

  lemma {:induction false} Gone(s: Server, id: RequestId, n: nat)
    requires id !in s.requests
    ensures GoTimes(s, id, n) == s
    decreases n
  {
    if n > 0 {
      Gone(s, id, n - 1);
    }
  }

  // ---- The control reserve -----------------------------------------------------------------

  function ControlTotal(): Request -> nat {
    (r: Request) => if r.traffic.Control? && (r.phase.Active? || r.phase.Closing? || r.phase.Last?) then 1 else 0
  }

  /** Regular requests that gave back their regular permit and still hold a total one. */
  function HalfReleased(): Request -> nat {
    (r: Request) => if r.traffic.Regular? && r.phase.Last? then 1 else 0
  }

  /** Regular requests that hold a regular permit and no total one. */
  function HalfAdmitted(): Request -> nat {
    (r: Request) => if r.traffic.Regular? && (r.phase.Registered? || r.phase.RefusedLate?) then 1 else 0
  }

  lemma Balance(r: Request)
    ensures HoldsTotal()(r) + HalfAdmitted()(r) == ControlTotal()(r) + HoldsRegular()(r) + HalfReleased()(r)
  {
  }

  lemma {:induction false} SumBalance(m: map<RequestId, Request>)
    ensures Sum(m, HoldsTotal()) + Sum(m, HalfAdmitted()) == Sum(m, ControlTotal()) + Sum(m, HoldsRegular()) + Sum(m, HalfReleased())
    decreases |m|
  {
    hide HoldsTotal, HalfAdmitted, ControlTotal, HoldsRegular, HalfReleased;
    if m != map[] {
      var k :| k in m;
      assert m.Keys == (m - {k}).Keys + {k};
      SumSplit(m, k, HoldsTotal());
      SumSplit(m, k, HalfAdmitted());
      SumSplit(m, k, ControlTotal());
      SumSplit(m, k, HoldsRegular());
      SumSplit(m, k, HalfReleased());
      Balance(m[k]);
      SumBalance(m - {k});
    }
  }

  /** The step in which a request of either traffic is refused for want of a total permit. */
  predicate RefusedGlobally(s: Server, id: RequestId) {
    id in s.requests && s.total == 0
    && (s.requests[id].phase.Registered? || (s.requests[id].phase.Connected? && s.requests[id].traffic.Control?))
  }

  /** Whenever no total permit is free, control requests hold the reserved number of them
      exactly when no more regular requests are half released than regular permits are free or
      held by half admitted ones. */
  lemma ControlReserveExact(config: Config, actions: seq<Action>)
    requires Valid(config) && Reached(config, actions).total == 0
    ensures var s := Reached(config, actions);
            Sum(s.requests, ControlTotal()) >= config.reserved
            <==> Sum(s.requests, HalfReleased()) <= s.regular + Sum(s.requests, HalfAdmitted())
  {
    ReachedConserves(config, actions);
    SumBalance(Reached(config, actions).requests);
  }

  /** What does hold whenever a request is refused globally: regular requests on their way out
      make up for what control requests lack of the reserve. */
  lemma ReserveOrHalfReleased(config: Config, actions: seq<Action>, id: RequestId)
    requires Valid(config) && RefusedGlobally(Reached(config, actions), id)
    ensures var s := Reached(config, actions);
            Sum(s.requests, ControlTotal()) + Sum(s.requests, HalfReleased()) >= config.reserved
  {
    ReachedConserves(config, actions);
    SumBalance(Reached(config, actions).requests);
  }

  // ---- A control request refused below the reserve -------------------------------------------

  const SMALL: Config := Config(2, 2, 1)

  lemma Extend(config: Config, actions: seq<Action>, action: Action)
    requires Valid(config)
    ensures Reached(config, actions + [action]) == Step(Reached(config, actions), action)
  {
    assert (actions + [action])[..|actions|] == actions;
  }

  /** One regular request comes and gives back all but its total permit. */
  const LEAVING: seq<Action> := [Arrive(0, Regular, 0), Go(0), Go(0), Go(0), Go(0), Go(0)]

  const ADMITTED: seq<Action> := [Arrive(0, Regular, 0), Go(0), Go(0), Go(0)]

  lemma FirstAdmitted()
    ensures Reached(SMALL, ADMITTED) == Server(SMALL, 1, 0, map[0 := 1], map[0 := Request(Regular, 0, Active)])
  {
    var arrive: seq<Action> := [Arrive(0, Regular, 0)];
    var go := Go(0);
    Extend(SMALL, [], Arrive(0, Regular, 0));
    assert [] + [Arrive(0, Regular, 0)] == arrive;
    assert Reached(SMALL, arrive) == Server(SMALL, 2, 1, map[], map[0 := Request(Regular, 0, Arrived)]);
    Extend(SMALL, arrive, go);
    assert Reached(SMALL, arrive + [go]) == Server(SMALL, 2, 1, map[0 := 1], map[0 := Request(Regular, 0, Connected)]);
    Extend(SMALL, arrive + [go], go);
    assert Reached(SMALL, arrive + [go] + [go]) == Server(SMALL, 2, 0, map[0 := 1], map[0 := Request(Regular, 0, Registered)]);
    Extend(SMALL, arrive + [go] + [go], go);
    assert ADMITTED == arrive + [go] + [go] + [go];
  }

  lemma LeavingHoldsTotal()
    ensures Reached(SMALL, LEAVING) == Server(SMALL, 1, 1, map[0 := 2], map[0 := Request(Regular, 0, Last)])
  {
    var go := Go(0);
    FirstAdmitted();
    Extend(SMALL, ADMITTED, go);
    assert Reached(SMALL, ADMITTED + [go]) == Server(SMALL, 1, 0, map[0 := 2], map[0 := Request(Regular, 0, Closing)]);
    Extend(SMALL, ADMITTED + [go], go);
    assert LEAVING == ADMITTED + [go] + [go];
  }

  /** Another regular request takes the last total permit before the first gives its own back. */
  lemma SecondTakesLast()
    ensures Reached(SMALL, LEAVING + [Arrive(1, Regular, 0)] + [Go(1)] + [Go(1)] + [Go(1)]) ==
            Server(SMALL, 0, 0, map[0 := 1], map[0 := Request(Regular, 0, Last), 1 := Request(Regular, 0, Active)])
  {
    var first := Request(Regular, 0, Last);
    LeavingHoldsTotal();
    var actions := LEAVING + [Arrive(1, Regular, 0)];
    Extend(SMALL, LEAVING, Arrive(1, Regular, 0));
    Extend(SMALL, actions, Go(1));
    assert Reached(SMALL, actions + [Go(1)]) == Server(SMALL, 1, 1, map[0 := 1], map[0 := first, 1 := Request(Regular, 0, Connected)]);
    Extend(SMALL, actions + [Go(1)], Go(1));
    assert Reached(SMALL, actions + [Go(1)] + [Go(1)]) == Server(SMALL, 1, 0, map[0 := 1], map[0 := first, 1 := Request(Regular, 0, Registered)]);
    Extend(SMALL, actions + [Go(1)] + [Go(1)], Go(1));
  }

  const CROWDED: seq<Action> := LEAVING + [Arrive(1, Regular, 0)] + [Go(1)] + [Go(1)] + [Go(1)] + [Arrive(2, Control, 0)] + [Go(2)]

  lemma ControlFindsNothing()
    ensures Reached(SMALL, CROWDED) ==
            Server(SMALL, 0, 0, map[0 := 0],
                   map[0 := Request(Regular, 0, Last), 1 := Request(Regular, 0, Active), 2 := Request(Control, 0, Connected)])
  {
    SecondTakesLast();
    var before := LEAVING + [Arrive(1, Regular, 0)] + [Go(1)] + [Go(1)] + [Go(1)];
    Extend(SMALL, before, Arrive(2, Control, 0));
    Extend(SMALL, before + [Arrive(2, Control, 0)], Go(2));
  }

  /** A control request can be refused globally while control requests hold fewer total permits
      than are reserved for them. */
  lemma ControlRefusedBelowReserve()
    ensures Valid(SMALL)
    ensures exists actions, id :: RefusedGlobally(Reached(SMALL, actions), id) && Reached(SMALL, actions).requests[id].traffic.Control?
              && Sum(Reached(SMALL, actions).requests, ControlTotal()) < SMALL.reserved
  {
    hide Reached, Step, Proceed;
    ControlFindsNothing();
    var first, second, third := Request(Regular, 0, Last), Request(Regular, 0, Active), Request(Control, 0, Connected);
    NobodyHolds(map[], 0, first);
    NobodyHolds(map[0 := first], 1, second);
    NobodyHolds(map[0 := first, 1 := second], 2, third);
    assert RefusedGlobally(Reached(SMALL, CROWDED), 2);
  }

  lemma NobodyHolds(m: map<RequestId, Request>, id: RequestId, r: Request)
    requires id !in m && ControlTotal()(r) == 0 && Sum(m, ControlTotal()) == 0
    ensures Sum(m[id := r], ControlTotal()) == 0
  {
    SumInsert(m, id, r, ControlTotal());
  }
}
