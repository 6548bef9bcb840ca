// The registration protocol: the server's handler and heartbeat monitor
// (src/registration/transport.rs) and the client's bounded retry loop (src/runtime.rs), over a
// network that may lose, delay, duplicate and reorder messages.
module Registration {
  import opened Wrappers
  import opened Lease
  import Strings
  import Topic

  type Id = Strings.Id

  datatype Request = RegisterRequest(robotId: Id, config: ClientConfig) | DeregisterRequest(robotId: Id)

  datatype Status =
    | Ack
    | RejectAlreadyRegistered
    | RejectPoisoned
    | Ignore
    | MissingRobotId
    | PoisonedAlert

  datatype Response = Response(topic: string, status: Status)

  // --- The server -----------------------------------------------------------------------

  // `ops` records the lease operations in the order the server performed them, `responses`
  // everything it published. `due` is the robot whose alert the monitor has yet to publish, and
  // `unsent` the robots for which that publish failed.
  datatype ServerState = ServerState(
    clients: Clients,
    ops: seq<Op>,
    responses: seq<Response>,
    due: Option<Id>,
    unsent: seq<Id>)

  function Perform(s: ServerState, op: Op): (r: ServerState) {
    s.(clients := Apply(s.clients, op), ops := s.ops + [op])
  }

  function Answer(s: ServerState, topic: string, status: Status): (r: ServerState) {
    s.(responses := s.responses + [Response(topic, status)])
  }

  function RegistrationStatus(clients: Clients, robotId: Id): (r: Status) {
    match StateOf(clients, robotId)
    case Poisoned => RejectPoisoned
    case Registered => RejectAlreadyRegistered
    case _ => Ack
  }

  // A request on the registration topic; anything but a registration is skipped.
  function OnRegistration(s: ServerState, request: Request): (r: ServerState) {
    match request
    case DeregisterRequest(_) => s
    case RegisterRequest(id, config) =>
      if id == "" then Answer(s, Topic.RegistrationResponse(id), MissingRobotId)
      else Answer(Perform(s, Register(id, config)), Topic.RegistrationResponse(id), RegistrationStatus(s.clients, id))
  }

  function OnDeregistration(s: ServerState, request: Request): (r: ServerState) {
    match request
    case RegisterRequest(_, _) => s
    case DeregisterRequest(id) =>
      var op := Deregister(id);
      if id == "" then Answer(s, Topic.DeregistrationResponse(id), MissingRobotId)
      else Answer(Perform(s, op), Topic.DeregistrationResponse(id), if Takes(s.clients, op) then Ack else Ignore)
  }

  // A deleted liveliness token, named by its key. The alert is published later, outside the lock;
  // until then the monitor takes no further token.
  function OnTokenDeleted(s: ServerState, key: string): (t: ServerState) {
    if s.due.Some? then s
    else
      match Topic.LivelinessRobot(key)
      case None => s
      case Some(id) => OnTokenOf(s, id)
  }

  function OnTokenOf(s: ServerState, id: Id): (t: ServerState) {
    var op := LivelinessDelete(id);
    if Takes(s.clients, op) then Perform(s, op).(due := Some(id)) else Perform(s, op)
  }

  // The publish of a due alert succeeds or fails; the monitor goes on either way.
  function OnAlert(s: ServerState, sent: bool): (t: ServerState) {
    match s.due
    case None => s
    case Some(id) =>
      if sent then Answer(s, Topic.HeartbeatAlert(id), PoisonedAlert).(due := None)
      else s.(unsent := s.unsent + [id], due := None)
  }

  // The handler and monitor tasks around one shared lease; each method is one turn of a loop.
  class Server {
    const lease: RegistrationLease
    var published: seq<Response>
    ghost var performed: seq<Op>
    ghost var unsent: seq<Id>

    ghost function View(): (r: ServerState)
      reads this, lease
    {
      ServerState(lease.clients, performed, published, None, unsent)
    }

    constructor (lease: RegistrationLease)
      ensures this.lease == lease && View() == ServerState(lease.clients, [], [], None, [])
    {
      this.lease := lease;
      published, performed, unsent := [], [], [];
    }

    method PublishResponse(topic: string, status: Status)
      modifies this`published
      ensures published == old(published) + [Response(topic, status)]
    {
      published := published + [Response(topic, status)];
    }

    method HandleRegistration(request: Request)
      modifies this, lease
      ensures View() == OnRegistration(old(View()), request)
    {
      match request
      case DeregisterRequest(_) =>
      case RegisterRequest(id, config) =>
        var status := MissingRobotId;
        if id != "" {
          var r := lease.RegisterClient(id, config);
          performed := performed + [Register(id, config)];
          status := match r
            case Success(_) => Ack
            case Failure(AlreadyRegistered) => RejectAlreadyRegistered
            case Failure(_) => RejectPoisoned;
        }
        PublishResponse(Topic.RegistrationResponse(id), status);
    }

    method HandleDeregistration(request: Request)
      modifies this, lease
      ensures View() == OnDeregistration(old(View()), request)
    {
      match request
      case RegisterRequest(_, _) =>
      case DeregisterRequest(id) =>
        var status := MissingRobotId;
        if id != "" {
          var r := lease.DeregisterClient(id);
          performed := performed + [Deregister(id)];
          status := if r.Success? then Ack else Ignore;
        }
        PublishResponse(Topic.DeregistrationResponse(id), status);
    }

    // `sent` says whether the publish of the alert succeeds; its failure is ignored.
    method HandleTokenDeleted(key: string, sent: bool)
      modifies this, lease
      ensures View() == OnAlert(OnTokenDeleted(old(View()), key), sent)
    {
      var parts := Strings.Split(key);
      if |parts| < 2 {
        return;
      }
      Strings.JoinSplit(key);
      var id: Id := parts[1];
      var poisoned := lease.OnLivelinessDelete(id);
      performed := performed + [LivelinessDelete(id)];
      if poisoned {
        if sent {
          PublishResponse(Topic.HeartbeatAlert(id), PoisonedAlert);
        } else {
          unsent := unsent + [id];
        }
      }
    }
  }

  // --- The client -----------------------------------------------------------------------

  const RETRIES: nat := 3

  // Between attempts, waiting for the answer to attempt `n`, or decided.
  datatype Phase = Ready(attempts: nat) | Waiting(attempts: nat) | Proceeded | Stopped(error: RegistrationError)

  // `register_with_client` on an answered attempt.
  function Interpret(status: Status): (r: Result<(), RegistrationError>) {
    match status
    case Ack => Success(())
    case RejectAlreadyRegistered => Failure(AlreadyRegistered)
    case RejectPoisoned => Failure(IsPoisoned)
    case MissingRobotId => Failure(ServerError("MissingRobotId"))
    case _ => Failure(ServerError("unexpected registration status"))
  }

  // The retry loop's reaction to the outcome of attempt `n`.
  function NextPhase(n: nat, outcome: Result<(), RegistrationError>): (r: Phase) {
    if outcome.Success? then Proceeded
    else if outcome.error == Timeout && n < RETRIES then Ready(n)
    else Stopped(outcome.error)
  }

  // The loop in `bootstrap`, run on the outcomes of its attempts: it stops at the first that is
  // not a timeout, and gives up after the third.
  method RetryLoop(outcomes: seq<Result<(), RegistrationError>>) returns (phase: Phase, attempts: nat)
    requires |outcomes| == RETRIES
    ensures 1 <= attempts <= RETRIES
    ensures forall i :: 0 <= i < attempts - 1 ==> outcomes[i] == Failure(Timeout)
    ensures phase == NextPhase(attempts, outcomes[attempts - 1]) && !phase.Ready?
    ensures phase == Proceeded <==> exists i :: 0 <= i < |outcomes| && outcomes[i].Success? &&
                                      forall j :: 0 <= j < i ==> outcomes[j] == Failure(Timeout)
    ensures phase == Stopped(Timeout) <==> forall i :: 0 <= i < |outcomes| ==> outcomes[i] == Failure(Timeout)
    ensures phase == Stopped(Timeout) ==> attempts == 3
  {
    attempts := 1;
    while true
      invariant 1 <= attempts <= RETRIES
      invariant forall i :: 0 <= i < attempts - 1 ==> outcomes[i] == Failure(Timeout)
      decreases RETRIES - attempts
    {
      var outcome := outcomes[attempts - 1];
      if outcome.Success? {
        return Proceeded, attempts;
      }
      if outcome.error != Timeout || attempts == RETRIES {
        return Stopped(outcome.error), attempts;
      }
      attempts := attempts + 1;
    }
  }

  // --- The whole system -------------------------------------------------------------------

  // The two sequences hold every request ever published on the two request topics. Delivery of
  // a request or a response picks any published one, any number of times.
  datatype State = State(server: ServerState, registrations: seq<Request>, deregistrations: seq<Request>, phase: Phase)

  datatype Event =
    | OtherPublishes(onRegistration: bool, request: Request)
    | ServerRegisters(request: Request)
    | ServerDeregisters(request: Request)
    | TokenDeleted(key: string)
    | AlertPublished(sent: bool)
    | ClientSends
    | ClientReceives(response: Response)
    | ClientTimesOut

  // One step of the client called `me`, of the server, or of anybody else. An event that is
  // not enabled changes nothing.
  function Step(me: Id, config: ClientConfig, s: State, e: Event): (r: State) {
    match e
    case OtherPublishes(onRegistration, request) =>
      if onRegistration then s.(registrations := s.registrations + [request])
      else s.(deregistrations := s.deregistrations + [request])
    case ServerRegisters(request) =>
      if request in s.registrations then s.(server := OnRegistration(s.server, request)) else s
    case ServerDeregisters(request) =>
      if request in s.deregistrations then s.(server := OnDeregistration(s.server, request)) else s
    case TokenDeleted(key) => s.(server := OnTokenDeleted(s.server, key))
    case AlertPublished(sent) => s.(server := OnAlert(s.server, sent))
    case ClientSends =>
      if !s.phase.Ready? then s
      else if me == "" then s.(phase := Stopped(ServerError("MissingRobotId")))
      else s.(registrations := s.registrations + [RegisterRequest(me, config)], phase := Waiting(s.phase.attempts + 1))
    case ClientReceives(response) =>
      if s.phase.Waiting? && response in s.server.responses && response.topic == Topic.RegistrationResponse(me)
      then s.(phase := NextPhase(s.phase.attempts, Interpret(response.status))) else s
    case ClientTimesOut =>
      if s.phase.Waiting? then s.(phase := NextPhase(s.phase.attempts, Failure(Timeout))) else s
  }

  function Start(expected: seq<string>): (r: State) {
    State(ServerState(Initial(expected), [], [], None, []), [], [], Ready(0))
  }

  function Run(me: Id, config: ClientConfig, expected: seq<string>, es: seq<Event>): (r: State) {
    if es == [] then Start(expected)
    else Step(me, config, Run(me, config, expected, es[..|es| - 1]), es[|es| - 1])
  }

  // --- Safety -------------------------------------------------------------------------

  function Registrations(expected: seq<string>, s: ServerState, robotId: string): (r: nat) {
    Taken(expected, s.ops, robotId, ARegister)
  }

  function Poisonings(expected: seq<string>, s: ServerState, robotId: string): (r: nat) {
    Taken(expected, s.ops, robotId, ADelete)
  }

  // What a status on a robot's own response topic proves about the server.
  ghost predicate Justified(expected: seq<string>, s: ServerState, robotId: Id, status: Status) {
    match status
    case Ack => Registrations(expected, s, robotId) >= 1
    case RejectAlreadyRegistered => Registrations(expected, s, robotId) >= 1
    case RejectPoisoned => StateOf(s.clients, robotId) == Poisoned
    case MissingRobotId => robotId == ""
    case _ => false
  }

  ghost predicate ServerInv(expected: seq<string>, s: ServerState, me: Id) {
    && s.clients == After(expected, s.ops)
    && forall r :: r in s.responses && r.topic == Topic.RegistrationResponse(me) ==>
      Justified(expected, s, me, r.status)
  }

  ghost predicate PhaseJustified(expected: seq<string>, s: State, me: Id) {
    match s.phase
    case Ready(n) => n < RETRIES
    case Waiting(n) => 1 <= n <= RETRIES && me != ""
    case Proceeded => me != "" && Registrations(expected, s.server, me) >= 1
    case Stopped(AlreadyRegistered) => Registrations(expected, s.server, me) >= 1
    case Stopped(IsPoisoned) => StateOf(s.server.clients, me) == Poisoned
    case Stopped(NotRegistered) => false
    case Stopped(_) => true
  }

  // Evidence about `robotId` in `s` still stands in `t`.
  ghost predicate Grows(expected: seq<string>, s: ServerState, t: ServerState, robotId: string) {
    && Registrations(expected, s, robotId) <= Registrations(expected, t, robotId)
    && (StateOf(s.clients, robotId) == Poisoned ==> StateOf(t.clients, robotId) == Poisoned)
  }

  lemma TakenSnoc(expected: seq<string>, ops: seq<Op>, op: Op, robotId: string, kind: Kind)
    ensures After(expected, ops + [op]) == Apply(After(expected, ops), op)
    ensures Taken(expected, ops + [op], robotId, kind) ==
            Taken(expected, ops, robotId, kind)
            + if op.robotId == robotId && KindOf(op) == kind && Takes(After(expected, ops), op) then 1 else 0
  {
    assert (ops + [op])[..|ops|] == ops;
  }

  lemma PerformCounts(expected: seq<string>, s: ServerState, op: Op, robotId: string)
    requires s.clients == After(expected, s.ops)
    ensures var t := Perform(s, op);
            && t.clients == After(expected, t.ops)
            && Grows(expected, s, t, robotId)
            && (op.robotId == robotId && op.Register? && Takes(s.clients, op) ==>
              Registrations(expected, t, robotId) >= 1)
            && Poisonings(expected, t, robotId) == Poisonings(expected, s, robotId)
                 + if op.robotId == robotId && op.LivelinessDelete? && Takes(s.clients, op) then 1 else 0
  {
    TakenSnoc(expected, s.ops, op, robotId, ARegister);
    TakenSnoc(expected, s.ops, op, robotId, ADelete);
  }

  lemma StillJustified(expected: seq<string>, s: ServerState, t: ServerState, me: Id, status: Status)
    requires Justified(expected, s, me, status) && Grows(expected, s, t, me)
    ensures Justified(expected, t, me, status)
  {
  }

  lemma PerformKeepsInv(expected: seq<string>, s: ServerState, op: Op, me: Id)
    requires ServerInv(expected, s, me)
    ensures ServerInv(expected, Perform(s, op), me) && Grows(expected, s, Perform(s, op), me)
  {
    var t := Perform(s, op);
    PerformCounts(expected, s, op, me);
    forall r | r in t.responses && r.topic == Topic.RegistrationResponse(me)
      ensures Justified(expected, t, me, r.status)
    {
      StillJustified(expected, s, t, me, r.status);
    }
  }

  lemma AnswerKeepsInv(expected: seq<string>, s: ServerState, topic: string, status: Status, me: Id)
    requires ServerInv(expected, s, me)
    requires topic == Topic.RegistrationResponse(me) ==> Justified(expected, s, me, status)
    ensures ServerInv(expected, Answer(s, topic, status), me) && Grows(expected, s, Answer(s, topic, status), me)
  {
    var t := Answer(s, topic, status);
    forall r | r in t.responses && r.topic == Topic.RegistrationResponse(me)
      ensures Justified(expected, t, me, r.status)
    {
      StillJustified(expected, s, t, me, r.status);
    }
  }

  // Performing an operation and answering keeps the invariant if the answer is justified.
  lemma TurnKeepsInv(expected: seq<string>, s: ServerState, op: Op, topic: string, status: Status, me: Id)
    requires ServerInv(expected, s, me)
    requires topic == Topic.RegistrationResponse(me) ==> Justified(expected, Perform(s, op), me, status)
    ensures ServerInv(expected, Answer(Perform(s, op), topic, status), me)
    ensures Grows(expected, s, Answer(Perform(s, op), topic, status), me)
  {
    PerformKeepsInv(expected, s, op, me);
    AnswerKeepsInv(expected, Perform(s, op), topic, status, me);
  }

  lemma RegistrationKeepsInv(expected: seq<string>, s: ServerState, request: Request, me: Id)
    requires ServerInv(expected, s, me)
    ensures ServerInv(expected, OnRegistration(s, request), me) && Grows(expected, s, OnRegistration(s, request), me)
  {
    match request
    case DeregisterRequest(_) =>
    case RegisterRequest(id, config) =>
      var topic := Topic.RegistrationResponse(id);
      Topic.ResponseTopicsDistinct(me, id);
      if id == "" {
        AnswerKeepsInv(expected, s, topic, MissingRobotId, me);
      } else {
        LeaseConservation(expected, s.ops, id);
        PerformCounts(expected, s, Register(id, config), id);
        TurnKeepsInv(expected, s, Register(id, config), topic, RegistrationStatus(s.clients, id), me);
      }
  }

  lemma DeregistrationKeepsInv(expected: seq<string>, s: ServerState, request: Request, me: Id)
    requires ServerInv(expected, s, me)
    ensures ServerInv(expected, OnDeregistration(s, request), me) &&
        Grows(expected, s, OnDeregistration(s, request), me)
  {
    match request
    case RegisterRequest(_, _) =>
    case DeregisterRequest(id) =>
      var op, topic := Deregister(id), Topic.DeregistrationResponse(id);
      Topic.ResponseTopicsDistinct(me, id);
      if id == "" {
        AnswerKeepsInv(expected, s, topic, MissingRobotId, me);
      } else {
        TurnKeepsInv(expected, s, op, topic, if Takes(s.clients, op) then Ack else Ignore, me);
      }
  }

  lemma TokenOfKeepsInv(expected: seq<string>, s: ServerState, id: Id, me: Id)
    requires ServerInv(expected, s, me)
    ensures ServerInv(expected, OnTokenOf(s, id), me) && Grows(expected, s, OnTokenOf(s, id), me)
  {
    PerformKeepsInv(expected, s, LivelinessDelete(id), me);
  }

  lemma TokenKeepsInv(expected: seq<string>, s: ServerState, key: string, me: Id)
    requires ServerInv(expected, s, me)
    ensures ServerInv(expected, OnTokenDeleted(s, key), me) && Grows(expected, s, OnTokenDeleted(s, key), me)
  {
    match Topic.LivelinessRobot(key)
    case None =>
    case Some(id) => TokenOfKeepsInv(expected, s, id, me);
  }

  lemma AlertKeepsInv(expected: seq<string>, s: ServerState, sent: bool, me: Id)
    requires ServerInv(expected, s, me)
    ensures ServerInv(expected, OnAlert(s, sent), me) && Grows(expected, s, OnAlert(s, sent), me)
  {
    if s.due.Some? {
      Topic.ResponseTopicsDistinct(me, s.due.value);
    }
  }

  // What every turn of the server leaves true, every step does.
  lemma StepByTurn(me: Id, config: ClientConfig, s: State, e: Event, holds: ServerState -> bool)
    requires holds(s.server)
    requires forall request :: holds(OnRegistration(s.server, request))
    requires forall request :: holds(OnDeregistration(s.server, request))
    requires forall key :: holds(OnTokenDeleted(s.server, key))
    requires forall sent :: holds(OnAlert(s.server, sent))
    ensures holds(Step(me, config, s, e).server)
  {
  }

  lemma StepKeepsServer(me: Id, config: ClientConfig, expected: seq<string>, s: State, e: Event)
    requires ServerInv(expected, s.server, me)
    ensures var t := Step(me, config, s, e).server;
            ServerInv(expected, t, me) && Grows(expected, s.server, t, me)
  {
    forall request { RegistrationKeepsInv(expected, s.server, request, me); }
    forall request { DeregistrationKeepsInv(expected, s.server, request, me); }
    forall key { TokenKeepsInv(expected, s.server, key, me); }
    forall sent { AlertKeepsInv(expected, s.server, sent, me); }
    StepByTurn(me, config, s, e, t => ServerInv(expected, t, me) && Grows(expected, s.server, t, me));
  }

  lemma StepKeepsPhase(me: Id, config: ClientConfig, expected: seq<string>, s: State, e: Event)
    requires ServerInv(expected, s.server, me) && PhaseJustified(expected, s, me)
    ensures PhaseJustified(expected, Step(me, config, s, e), me)
  {
    StepKeepsServer(me, config, expected, s, e);
    if e.ClientReceives? && e.response in s.server.responses && e.response.topic == Topic.RegistrationResponse(me) {
      assert Justified(expected, s.server, me, e.response.status);
    }
  }

  // In every run, whatever the network and the other parties do: a client that proceeds past
  // registration was accepted by the server earlier in the run (and so was one refused as a
  // duplicate), a client refused as poisoned is poisoned, and there are at most three attempts.
  lemma {:induction false} RegistrationSafety(me: Id, config: ClientConfig, expected: seq<string>, es: seq<Event>)
    ensures var s := Run(me, config, expected, es); ServerInv(expected, s.server, me) && PhaseJustified(expected, s, me)
  {
    if es != [] {
      var init, e := es[..|es| - 1], es[|es| - 1];
      RegistrationSafety(me, config, expected, init);
      StepKeepsServer(me, config, expected, Run(me, config, expected, init), e);
      StepKeepsPhase(me, config, expected, Run(me, config, expected, init), e);
    }
  }

  // --- Poison and alerts -----------------------------------------------------------------

  lemma {:induction false} OpsGrow(me: Id, config: ClientConfig, expected: seq<string>, es: seq<Event>,
      more: seq<Event>)
    returns (suffix: seq<Op>)
    ensures Run(me, config, expected, es + more).server.ops == Run(me, config, expected, es).server.ops + suffix
  {
    if more == [] {
      assert es + more == es;
      suffix := [];
    } else {
      var init := more[..|more| - 1];
      suffix := OpsGrow(me, config, expected, es, init);
      assert (es + more)[..|es + more| - 1] == es + init;
      var s, t := Run(me, config, expected, es + init).server, Run(me, config, expected, es + more).server;
      if t.ops != s.ops {
        suffix := suffix + [t.ops[|s.ops|]];
      }
    }
  }

  // Once a robot is poisoned it stays so in every continuation of the run, and no further
  // registration of it is accepted.
  lemma NoAcceptanceAfterPoison(me: Id, config: ClientConfig, expected: seq<string>, es: seq<Event>, more: seq<Event>,
                                robotId: string)
    requires StateOf(Run(me, config, expected, es).server.clients, robotId) == Poisoned
    ensures var s, t := Run(me, config, expected, es).server, Run(me, config, expected, es + more).server;
            && StateOf(t.clients, robotId) == Poisoned
            && Registrations(expected, t, robotId) == Registrations(expected, s, robotId)
  {
    RegistrationSafety(me, config, expected, es);
    RegistrationSafety(me, config, expected, es + more);
    var suffix := OpsGrow(me, config, expected, es, more);
    PoisonIsForever(expected, Run(me, config, expected, es).server.ops, suffix, robotId);
  }

  function Alerts(responses: seq<Response>, robotId: Id): (r: nat) {
    if responses == [] then 0
    else Alerts(responses[..|responses| - 1], robotId)
         + if responses[|responses| - 1].topic == Topic.HeartbeatAlert(robotId) then 1 else 0
  }

  lemma AnswerAlerts(s: ServerState, topic: string, status: Status, robotId: Id)
    ensures Alerts(Answer(s, topic, status).responses, robotId) ==
            Alerts(s.responses, robotId) + if topic == Topic.HeartbeatAlert(robotId) then 1 else 0
  {
  }

  function Unsent(robots: seq<Id>, robotId: Id): (n: nat) {
    if robots == [] then 0
    else Unsent(robots[..|robots| - 1], robotId) + if robots[|robots| - 1] == robotId then 1 else 0
  }

  function Due(s: ServerState, robotId: Id): (n: nat) {
    if s.due == Some(robotId) then 1 else 0
  }

  // Every poisoning of the robot has its alert published, due, or failed to publish.
  ghost predicate AlertsMatch(expected: seq<string>, s: ServerState, robotId: Id) {
    && s.clients == After(expected, s.ops)
    && Alerts(s.responses, robotId) + Due(s, robotId) + Unsent(s.unsent, robotId) == Poisonings(expected, s, robotId)
  }

  // Answering on a response topic, before or after a lease operation that poisons nobody, raises
  // no alert.
  lemma HandlingRaisesNoAlert(expected: seq<string>, s: ServerState, op: Op, topic: string, status: Status,
      robotId: Id)
    requires AlertsMatch(expected, s, robotId) && !op.LivelinessDelete? && topic != Topic.HeartbeatAlert(robotId)
    ensures AlertsMatch(expected, Answer(s, topic, status), robotId)
    ensures AlertsMatch(expected, Answer(Perform(s, op), topic, status), robotId)
  {
    PerformCounts(expected, s, op, robotId);
    AnswerAlerts(s, topic, status, robotId);
    AnswerAlerts(Perform(s, op), topic, status, robotId);
  }

  lemma RegistrationAlerts(expected: seq<string>, s: ServerState, request: Request, robotId: Id)
    requires AlertsMatch(expected, s, robotId)
    ensures AlertsMatch(expected, OnRegistration(s, request), robotId)
  {
    match request
    case DeregisterRequest(_) =>
    case RegisterRequest(id, config) =>
      var topic := Topic.RegistrationResponse(id);
      var status := if id == "" then MissingRobotId else RegistrationStatus(s.clients, id);
      Topic.ResponseTopicsDistinct(id, robotId);
      HandlingRaisesNoAlert(expected, s, Register(id, config), topic, status, robotId);
  }

  lemma DeregistrationAlerts(expected: seq<string>, s: ServerState, request: Request, robotId: Id)
    requires AlertsMatch(expected, s, robotId)
    ensures AlertsMatch(expected, OnDeregistration(s, request), robotId)
  {
    match request
    case RegisterRequest(_, _) =>
    case DeregisterRequest(id) =>
      var op, topic := Deregister(id), Topic.DeregistrationResponse(id);
      var status := if id == "" then MissingRobotId else if Takes(s.clients, op) then Ack else Ignore;
      Topic.ResponseTopicsDistinct(id, robotId);
      HandlingRaisesNoAlert(expected, s, op, topic, status, robotId);
  }

  lemma TokenAlerts(expected: seq<string>, s: ServerState, id: Id, robotId: Id)
    requires AlertsMatch(expected, s, robotId) && s.due.None?
    ensures AlertsMatch(expected, OnTokenOf(s, id), robotId)
  {
    PerformCounts(expected, s, LivelinessDelete(id), robotId);
  }

  lemma TokenDeletedAlerts(expected: seq<string>, s: ServerState, key: string, robotId: Id)
    requires AlertsMatch(expected, s, robotId)
    ensures AlertsMatch(expected, OnTokenDeleted(s, key), robotId)
  {
    if s.due.None? {
      match Topic.LivelinessRobot(key)
      case None =>
      case Some(id) => TokenAlerts(expected, s, id, robotId);
    }
  }

  lemma AlertMoves(expected: seq<string>, s: ServerState, sent: bool, robotId: Id)
    requires AlertsMatch(expected, s, robotId)
    ensures AlertsMatch(expected, OnAlert(s, sent), robotId)
  {
    if s.due.Some? {
      Topic.ResponseTopicsDistinct(s.due.value, robotId);
      AnswerAlerts(s, Topic.HeartbeatAlert(s.due.value), PoisonedAlert, robotId);
    }
  }

  lemma StepAlerts(me: Id, config: ClientConfig, expected: seq<string>, s: State, e: Event, robotId: Id)
    requires AlertsMatch(expected, s.server, robotId)
    ensures AlertsMatch(expected, Step(me, config, s, e).server, robotId)
  {
    forall request { RegistrationAlerts(expected, s.server, request, robotId); }
    forall request { DeregistrationAlerts(expected, s.server, request, robotId); }
    forall key { TokenDeletedAlerts(expected, s.server, key, robotId); }
    forall sent { AlertMoves(expected, s.server, sent, robotId); }
    StepByTurn(me, config, s, e, t => AlertsMatch(expected, t, robotId));
  }

  // The monitor owes one alert per poisoned robot, never before and never again: in every run it
  // has been published, is due, or its publish has failed, exactly when the robot is poisoned.
  lemma {:induction false} OneAlertPerPoisoning(me: Id, config: ClientConfig, expected: seq<string>, es: seq<Event>,
      robotId: Id)
    ensures var s := Run(me, config, expected, es).server;
            && AlertsMatch(expected, s, robotId)
            && Alerts(s.responses, robotId) + Due(s, robotId) + Unsent(s.unsent, robotId) ==
               if StateOf(s.clients, robotId) == Poisoned then 1 else 0
  {
    if es != [] {
      var init := es[..|es| - 1];
      OneAlertPerPoisoning(me, config, expected, init, robotId);
      StepAlerts(me, config, expected, Run(me, config, expected, init), es[|es| - 1], robotId);
    }
    LeaseConservation(expected, Run(me, config, expected, es).server.ops, robotId);
  }

  // --- Who holds a registration, and how the client ends -------------------------------------

  // The event hands a published registration of `me` to the server.
  ghost predicate Handles(me: Id, s: State, e: Event) {
    me != "" && e.ServerRegisters? && e.request.RegisterRequest? && e.request.robotId == me &&
    e.request in s.registrations
  }

  // The event ends a registration of `me`: a deregistration reaches the server, or the monitor
  // sees the liveliness token go.
  ghost predicate Ends(me: Id, s: State, e: Event) {
    match e
    case ServerDeregisters(DeregisterRequest(id)) => me != "" && id == me && e.request in s.deregistrations
    case TokenDeleted(key) => s.server.due.None? && Topic.LivelinessRobot(key) == Some(me)
    case _ => false
  }

  // The `i`-th event hands a registration of `me` to the server, which answers `status`.
  ghost predicate AnswersAt(me: Id, config: ClientConfig, expected: seq<string>, es: seq<Event>, i: nat, status: Status)
  {
    && i < |es| && var s := Run(me, config, expected, es[..i]);
    Handles(me, s, es[i]) && RegistrationStatus(s.server.clients, me) == status
  }

  // The `i`-th event brings the waiting client an answer of this status.
  ghost predicate TakesAt(me: Id, config: ClientConfig, expected: seq<string>, es: seq<Event>, i: nat, status: Status) {
    && i < |es| && es[i] == ClientReceives(Response(Topic.RegistrationResponse(me), status))
    && Run(me, config, expected, es[..i]).phase.Waiting?
  }

  ghost predicate EndsAt(me: Id, config: ClientConfig, expected: seq<string>, es: seq<Event>, i: nat) {
    i < |es| && Ends(me, Run(me, config, expected, es[..i]), es[i])
  }

  // The registration accepted at event `a` is not ended before event `n`.
  ghost predicate Held(me: Id, config: ClientConfig, expected: seq<string>, es: seq<Event>, a: nat, n: nat) {
    && a < n <= |es| && AnswersAt(me, config, expected, es, a, Ack)
    && forall j: nat :: a < j < n ==> !EndsAt(me, config, expected, es, j)
  }

  // What one event does to the robot's state.
  lemma StepState(me: Id, config: ClientConfig, s: State, e: Event)
    ensures var st := StateOf(s.server.clients, me);
            StateOf(Step(me, config, s, e).server.clients, me) == Registered <==>
            (Handles(me, s, e) && st in {Unknown, Expected}) || (st == Registered && !Ends(me, s, e))
  {
  }

  lemma Earlier(me: Id, config: ClientConfig, expected: seq<string>, es: seq<Event>, n: nat, i: nat, status: Status)
    requires i < n <= |es|
    ensures AnswersAt(me, config, expected, es[..n], i, status) == AnswersAt(me, config, expected, es, i, status)
    ensures TakesAt(me, config, expected, es[..n], i, status) == TakesAt(me, config, expected, es, i, status)
    ensures EndsAt(me, config, expected, es[..n], i) == EndsAt(me, config, expected, es, i)
  {
    assert es[..n][..i] == es[..i];
  }

  lemma HeldEarlier(me: Id, config: ClientConfig, expected: seq<string>, es: seq<Event>, a: nat, n: nat)
    requires n <= |es|
    ensures Held(me, config, expected, es[..n], a, n) <==> Held(me, config, expected, es, a, n)
  {
    if a < n {
      Earlier(me, config, expected, es, n, a, Ack);
      forall j: nat | a < j < n
        ensures EndsAt(me, config, expected, es[..n], j) == EndsAt(me, config, expected, es, j)
      {
        Earlier(me, config, expected, es, n, j, Ack);
      }
    }
  }

  // The server holds a robot registered exactly when some registration of it was accepted and
  // none of its deregistrations handled nor its token lost since.
  lemma {:induction false} RegisteredIff(me: Id, config: ClientConfig, expected: seq<string>, es: seq<Event>)
    ensures StateOf(Run(me, config, expected, es).server.clients, me) == Registered <==>
            exists a: nat :: Held(me, config, expected, es, a, |es|)
  {
    if es != [] {
      var n := |es| - 1;
      RegisteredIff(me, config, expected, es[..n]);
      StepState(me, config, Run(me, config, expected, es[..n]), es[n]);
      HeldLonger(me, config, expected, es);
    }
  }

  // An acceptance is held after the last event when it was held before and that event does not
  // end it, or when it is that event.
  lemma HeldLonger(me: Id, config: ClientConfig, expected: seq<string>, es: seq<Event>)
    requires es != []
    ensures var n := |es| - 1;
            (exists a: nat :: Held(me, config, expected, es, a, |es|)) <==>
            || AnswersAt(me, config, expected, es, n, Ack)
            || (!EndsAt(me, config, expected, es, n) && exists a: nat :: Held(me, config, expected, es[..n], a, n))
  {
    var n := |es| - 1;
    forall a: nat | a < n
      ensures Held(me, config, expected, es, a, |es|) <==>
              Held(me, config, expected, es[..n], a, n) && !EndsAt(me, config, expected, es, n)
    {
      HeldEarlier(me, config, expected, es, a, n);
      assert EndsAt(me, config, expected, es, n) <==>
             exists j: nat :: n <= j < |es| && EndsAt(me, config, expected, es, j);
    }
    assert Held(me, config, expected, es, n, |es|) <==> AnswersAt(me, config, expected, es, n, Ack);
    if AnswersAt(me, config, expected, es, n, Ack) {
      assert Held(me, config, expected, es, n, |es|);
    }
  }

  // The answers to a registration that settle the client's attempt.
  predicate Decisive(status: Status) {
    status in {Ack, RejectAlreadyRegistered, RejectPoisoned}
  }

  function Verdict(status: Status): (phase: Phase)
    requires Decisive(status)
  {
    match status
    case Ack => Proceeded
    case RejectAlreadyRegistered => Stopped(AlreadyRegistered)
    case _ => Stopped(IsPoisoned)
  }

  lemma StepAnswers(me: Id, config: ClientConfig, s: State, e: Event, status: Status)
    requires Decisive(status)
    ensures var r := Response(Topic.RegistrationResponse(me), status);
            r in Step(me, config, s, e).server.responses <==>
            r in s.server.responses || (Handles(me, s, e) && RegistrationStatus(s.server.clients, me) == status)
  {
    match e
    case ServerRegisters(RegisterRequest(id, _)) => Topic.ResponseTopicsDistinct(me, id);
    case ServerDeregisters(DeregisterRequest(id)) => Topic.ResponseTopicsDistinct(me, id);
    case AlertPublished(_) => if s.server.due.Some? { Topic.ResponseTopicsDistinct(me, s.server.due.value); }
    case _ =>
  }

  // What stands on the robot's response topic was answered to one of its registrations.
  lemma {:induction false} PublishedIff(me: Id, config: ClientConfig, expected: seq<string>, es: seq<Event>,
      status: Status)
    requires Decisive(status)
    ensures Response(Topic.RegistrationResponse(me), status) in Run(me, config, expected, es).server.responses <==>
            exists k: nat :: AnswersAt(me, config, expected, es, k, status)
  {
    if es != [] {
      var n := |es| - 1;
      PublishedIff(me, config, expected, es[..n], status);
      StepAnswers(me, config, Run(me, config, expected, es[..n]), es[n], status);
      forall k: nat | k < n
        ensures AnswersAt(me, config, expected, es[..n], k, status) == AnswersAt(me, config, expected, es, k, status)
      {
        Earlier(me, config, expected, es, n, k, status);
      }
      assert AnswersAt(me, config, expected, es, n, status) <==>
             Handles(me, Run(me, config, expected, es[..n]), es[n]) &&
             RegistrationStatus(Run(me, config, expected, es[..n]).server.clients, me) == status;
      if k: nat :| AnswersAt(me, config, expected, es, k, status) {
        assert k < n ==> AnswersAt(me, config, expected, es[..n], k, status);
      }
      if k: nat :| AnswersAt(me, config, expected, es[..n], k, status) {
        assert AnswersAt(me, config, expected, es, k, status);
      }
    }
  }

  // The waiting client takes, at event `i`, an answer of this status given at event `k`.
  ghost predicate ReceivesAt(me: Id, config: ClientConfig, expected: seq<string>, es: seq<Event>, k: nat, i: nat,
      status: Status)
  {
    k < i && TakesAt(me, config, expected, es, i, status) && AnswersAt(me, config, expected, es, k, status)
  }

  ghost predicate Receives(me: Id, config: ClientConfig, expected: seq<string>, es: seq<Event>, status: Status) {
    exists k: nat, i: nat :: ReceivesAt(me, config, expected, es, k, i, status)
  }

  lemma StepVerdict(me: Id, config: ClientConfig, s: State, e: Event, status: Status)
    requires Decisive(status)
    ensures var r := Response(Topic.RegistrationResponse(me), status);
            Step(me, config, s, e).phase == Verdict(status) <==>
            s.phase == Verdict(status) || (e == ClientReceives(r) && s.phase.Waiting? && r in s.server.responses)
  {
  }

  lemma ReceivedEarlier(me: Id, config: ClientConfig, expected: seq<string>, es: seq<Event>, status: Status)
    requires es != [] && Receives(me, config, expected, es, status)
    ensures var n := |es| - 1;
            || Receives(me, config, expected, es[..n], status)
            || (TakesAt(me, config, expected, es, n, status)
                && exists k: nat :: AnswersAt(me, config, expected, es[..n], k, status))
  {
    var n := |es| - 1;
    var k: nat, i: nat :| ReceivesAt(me, config, expected, es, k, i, status);
    Earlier(me, config, expected, es, n, k, status);
    if i < n {
      Earlier(me, config, expected, es, n, i, status);
      assert ReceivesAt(me, config, expected, es[..n], k, i, status);
    }
  }

  lemma ReceivedStill(me: Id, config: ClientConfig, expected: seq<string>, es: seq<Event>, k: nat, i: nat,
      status: Status)
    requires es != [] && k < i < |es| && AnswersAt(me, config, expected, es[..|es| - 1], k, status)
    requires TakesAt(me, config, expected, es[..|es| - 1], i, status) ||
             (i == |es| - 1 && TakesAt(me, config, expected, es, i, status))
    ensures Receives(me, config, expected, es, status)
  {
    Earlier(me, config, expected, es, |es| - 1, k, status);
    if i < |es| - 1 {
      Earlier(me, config, expected, es, |es| - 1, i, status);
    }
    assert ReceivesAt(me, config, expected, es, k, i, status);
  }

  lemma ReceivesLonger(me: Id, config: ClientConfig, expected: seq<string>, es: seq<Event>, status: Status)
    requires es != []
    ensures var n := |es| - 1;
            Receives(me, config, expected, es, status) <==>
            || Receives(me, config, expected, es[..n], status)
            || (TakesAt(me, config, expected, es, n, status)
                && exists k: nat :: AnswersAt(me, config, expected, es[..n], k, status))
  {
    var n := |es| - 1;
    if Receives(me, config, expected, es, status) {
      ReceivedEarlier(me, config, expected, es, status);
    }
    if k: nat, i: nat :| ReceivesAt(me, config, expected, es[..n], k, i, status) {
      ReceivedStill(me, config, expected, es, k, i, status);
    }
    if k: nat :| TakesAt(me, config, expected, es, n, status) && AnswersAt(me, config, expected, es[..n], k, status) {
      ReceivedStill(me, config, expected, es, k, n, status);
    }
  }

  // The client ends proceeding, refused as a duplicate or refused as poisoned exactly when it has
  // received, while waiting, that answer to an earlier handled registration of its id.
  lemma {:induction false} VerdictIff(me: Id, config: ClientConfig, expected: seq<string>, es: seq<Event>,
      status: Status)
    requires Decisive(status)
    ensures Run(me, config, expected, es).phase == Verdict(status) <==> Receives(me, config, expected, es, status)
  {
    if es != [] {
      var n := |es| - 1;
      VerdictIff(me, config, expected, es[..n], status);
      StepVerdict(me, config, Run(me, config, expected, es[..n]), es[n], status);
      PublishedIff(me, config, expected, es[..n], status);
      ReceivesLonger(me, config, expected, es, status);
    }
  }

  // The last accepted registration of `me`.
  ghost function LastAccepted(me: Id, config: ClientConfig, expected: seq<string>, es: seq<Event>): (a: Option<nat>) {
    if es == [] then None
    else if AnswersAt(me, config, expected, es, |es| - 1, Ack) then Some(|es| - 1)
    else LastAccepted(me, config, expected, es[..|es| - 1])
  }

  lemma {:induction false} LastAcceptedIsLast(me: Id, config: ClientConfig, expected: seq<string>, es: seq<Event>)
    ensures var last := LastAccepted(me, config, expected, es);
            && (last.Some? ==> AnswersAt(me, config, expected, es, last.value, Ack))
            && forall a: nat :: AnswersAt(me, config, expected, es, a, Ack) ==> last.Some? && a <= last.value
  {
    if es != [] {
      var n := |es| - 1;
      LastAcceptedIsLast(me, config, expected, es[..n]);
      forall a: nat | a < n
        ensures AnswersAt(me, config, expected, es[..n], a, Ack) == AnswersAt(me, config, expected, es, a, Ack)
      {
        Earlier(me, config, expected, es, n, a, Ack);
      }
    }
  }

  // While an acceptance is held no other registration of the robot is accepted.
  lemma HeldIsLast(me: Id, config: ClientConfig, expected: seq<string>, es: seq<Event>, a: nat, b: nat)
    requires Held(me, config, expected, es, a, |es|) && AnswersAt(me, config, expected, es, b, Ack)
    ensures b <= a
  {
    if a < b {
      assert Held(me, config, expected, es, a, b);
      HeldEarlier(me, config, expected, es, a, b);
      RegisteredIff(me, config, expected, es[..b]);
    }
  }

  // A client that has proceeded was accepted before. It is registered still exactly when, after
  // its last accepted registration, no deregistration of it was handled and the monitor did not
  // see its token go.
  lemma ProceededRegisteredIff(me: Id, config: ClientConfig, expected: seq<string>, es: seq<Event>)
    requires Run(me, config, expected, es).phase == Proceeded
    ensures var last := LastAccepted(me, config, expected, es);
            && last.Some?
            && (StateOf(Run(me, config, expected, es).server.clients, me) == Registered <==>
                forall j: nat :: last.value < j < |es| ==> !EndsAt(me, config, expected, es, j))
  {
    VerdictIff(me, config, expected, es, Ack);
    LastAcceptedIsLast(me, config, expected, es);
    RegisteredIff(me, config, expected, es);
    var last := LastAccepted(me, config, expected, es).value;
    if a: nat :| Held(me, config, expected, es, a, |es|) {
      HeldIsLast(me, config, expected, es, a, last);
    }
    if forall j: nat :: last < j < |es| ==> !EndsAt(me, config, expected, es, j) {
      assert Held(me, config, expected, es, last, |es|);
    }
  }

  // A handled registration is refused as a duplicate exactly when an earlier accepted one is
  // still held.
  lemma RefusedIffHeld(me: Id, config: ClientConfig, expected: seq<string>, es: seq<Event>, k: nat)
    requires k < |es| && Handles(me, Run(me, config, expected, es[..k]), es[k])
    ensures AnswersAt(me, config, expected, es, k, RejectAlreadyRegistered) <==>
            exists a: nat :: Held(me, config, expected, es, a, k)
  {
    RegisteredIff(me, config, expected, es[..k]);
    forall a: nat ensures Held(me, config, expected, es[..k], a, k) == Held(me, config, expected, es, a, k) {
      HeldEarlier(me, config, expected, es, a, k);
    }
  }

  // A handled deregistration is acknowledged exactly when an accepted registration is held, and
  // ignored otherwise; afterwards the robot is not registered.
  lemma DeregistrationAckIff(me: Id, config: ClientConfig, expected: seq<string>, es: seq<Event>, k: nat)
    requires k < |es| && me != "" && es[k] == ServerDeregisters(DeregisterRequest(me))
    requires DeregisterRequest(me) in Run(me, config, expected, es[..k]).deregistrations
    ensures var s, t := Run(me, config, expected, es[..k]).server, Run(me, config, expected, es[..k + 1]).server;
            var held := exists a: nat :: Held(me, config, expected, es, a, k);
            && t.responses ==
               s.responses + [Response(Topic.DeregistrationResponse(me), if held then Ack else Ignore)]
            && StateOf(t.clients, me) != Registered
  {
    assert es[..k + 1][..k] == es[..k];
    RegisteredIff(me, config, expected, es[..k]);
    forall a: nat ensures Held(me, config, expected, es[..k], a, k) == Held(me, config, expected, es, a, k) {
      HeldEarlier(me, config, expected, es, a, k);
    }
  }

  // The client takes, at event `i`, the refusal of a registration that reached the server at
  // event `k`, while the one accepted at event `a` was held.
  ghost predicate DuplicateAt(me: Id, config: ClientConfig, expected: seq<string>, es: seq<Event>, a: nat, k: nat,
      i: nat)
  {
    && k < |es| && Handles(me, Run(me, config, expected, es[..k]), es[k])
    && Held(me, config, expected, es, a, k)
    && k < i && TakesAt(me, config, expected, es, i, RejectAlreadyRegistered)
  }

  // Exactly when a client is stopped as already registered.
  lemma StoppedAsDuplicateIff(me: Id, config: ClientConfig, expected: seq<string>, es: seq<Event>)
    ensures Run(me, config, expected, es).phase == Stopped(AlreadyRegistered) <==>
            exists a: nat, k: nat, i: nat :: DuplicateAt(me, config, expected, es, a, k, i)
  {
    VerdictIff(me, config, expected, es, RejectAlreadyRegistered);
    if k: nat, i: nat :| ReceivesAt(me, config, expected, es, k, i, RejectAlreadyRegistered) {
      RefusedIffHeld(me, config, expected, es, k);
      var a: nat :| Held(me, config, expected, es, a, k);
      assert DuplicateAt(me, config, expected, es, a, k, i);
    }
    if a: nat, k: nat, i: nat :| DuplicateAt(me, config, expected, es, a, k, i) {
      RefusedIffHeld(me, config, expected, es, k);
      assert ReceivesAt(me, config, expected, es, k, i, RejectAlreadyRegistered);
    }
  }

  // --- Attempts -----------------------------------------------------------------------------

  // How many requests the client has sent, and how many registrations of its id the server has
  // handled.
  function Sent(me: Id, config: ClientConfig, expected: seq<string>, es: seq<Event>): (n: nat) {
    if es == [] then 0
    else
      var init := es[..|es| - 1];
      Sent(me, config, expected, init)
      + if es[|es| - 1] == ClientSends && Run(me, config, expected, init).phase.Ready? && me != "" then 1 else 0
  }

  ghost function Handled(me: Id, config: ClientConfig, expected: seq<string>, es: seq<Event>): (n: nat) {
    if es == [] then 0
    else
      var init := es[..|es| - 1];
      Handled(me, config, expected, init) + if Handles(me, Run(me, config, expected, init), es[|es| - 1]) then 1 else 0
  }

  function TimeOuts(me: Id, config: ClientConfig, expected: seq<string>, es: seq<Event>): (n: nat) {
    if es == [] then 0
    else
      var init := es[..|es| - 1];
      TimeOuts(me, config, expected, init)
      + if es[|es| - 1] == ClientTimesOut && Run(me, config, expected, init).phase.Waiting? then 1 else 0
  }

  // There are at most three attempts, every one after the first sent after a timeout of the one
  // before, and the client gives up exactly after three timeouts.
  lemma {:induction false} RetriesFollowTimeOuts(me: Id, config: ClientConfig, expected: seq<string>, es: seq<Event>)
    ensures var n, t := Sent(me, config, expected, es), TimeOuts(me, config, expected, es);
            match Run(me, config, expected, es).phase
            case Ready(k) => n == k == t && n < 3
            case Waiting(k) => n == k == t + 1 && n <= 3
            case Stopped(Timeout) => n == t == 3
            case _ => n <= t + 1 && n <= 3
  {
    if es != [] {
      RetriesFollowTimeOuts(me, config, expected, es[..|es| - 1]);
    }
  }

  // A client without an id sends nothing; it stops with the error the server would report.
  lemma {:induction false} EmptyIdSendsNothing(config: ClientConfig, expected: seq<string>, es: seq<Event>)
    ensures Sent("", config, expected, es) == 0
    ensures Run("", config, expected, es).phase in {Ready(0), Stopped(ServerError("MissingRobotId"))}
  {
    if es != [] {
      EmptyIdSendsNothing(config, expected, es[..|es| - 1]);
    }
  }

  // A request without an id touches no lease and is answered as such, on either topic.
  lemma EmptyIdIsAnswered(s: ServerState, config: ClientConfig)
    ensures OnRegistration(s, RegisterRequest("", config)) ==
            s.(responses := s.responses + [Response(Topic.RegistrationResponse(""), MissingRobotId)])
    ensures OnDeregistration(s, DeregisterRequest("")) ==
            s.(responses := s.responses + [Response(Topic.DeregistrationResponse(""), MissingRobotId)])
  {
  }

  lemma {:induction false} HandledGrows(me: Id, config: ClientConfig, expected: seq<string>, es: seq<Event>, n: nat)
    requires n <= |es|
    ensures Handled(me, config, expected, es[..n]) <= Handled(me, config, expected, es)
  {
    if n < |es| {
      HandledGrows(me, config, expected, es[..|es| - 1], n);
      assert es[..|es| - 1][..n] == es[..n];
    } else {
      assert es[..n] == es;
    }
  }

  lemma HandledOnce(me: Id, config: ClientConfig, expected: seq<string>, es: seq<Event>, k: nat)
    requires k < |es| && Handles(me, Run(me, config, expected, es[..k]), es[k])
    ensures Handled(me, config, expected, es[..k + 1]) == Handled(me, config, expected, es[..k]) + 1
  {
    assert es[..k + 1][..k] == es[..k];
  }

  lemma TwoHandled(me: Id, config: ClientConfig, expected: seq<string>, es: seq<Event>, a: nat, k: nat)
    requires a < k < |es|
    requires Handles(me, Run(me, config, expected, es[..a]), es[a])
    requires Handles(me, Run(me, config, expected, es[..k]), es[k])
    ensures Handled(me, config, expected, es) >= 2
  {
    HandledOnce(me, config, expected, es, a);
    HandledOnce(me, config, expected, es, k);
    HandledGrows(me, config, expected, es[..k], a + 1);
    HandledGrows(me, config, expected, es, k + 1);
    assert es[..k][..a + 1] == es[..a + 1];
  }

  // While the server has handled no more registrations of the id than this client has sent (no
  // one else uses the id, and no request is delivered twice), only a retry can be refused as a
  // duplicate: a client without a timeout is never stopped as already registered.
  lemma FirstAttemptIsNotRefused(me: Id, config: ClientConfig, expected: seq<string>, es: seq<Event>)
    requires Handled(me, config, expected, es) <= Sent(me, config, expected, es)
    requires Run(me, config, expected, es).phase == Stopped(AlreadyRegistered)
    ensures Sent(me, config, expected, es) >= 2 && TimeOuts(me, config, expected, es) >= 1
  {
    StoppedAsDuplicateIff(me, config, expected, es);
    var a: nat, k: nat, i: nat :| DuplicateAt(me, config, expected, es, a, k, i);
    TwoHandled(me, config, expected, es, a, k);
    RetriesFollowTimeOuts(me, config, expected, es);
  }

  // --- What the protocol does not promise ---------------------------------------------------

  // The client sends and the server accepts.
  function SendAndAccept(me: Id, config: ClientConfig, s: State): (r: State) {
    Step(me, config, Step(me, config, s, ClientSends), ServerRegisters(RegisterRequest(me, config)))
  }

  lemma AfterSendAndAccept(me: Id, config: ClientConfig, s: State)
    requires me != "" && s.phase.Ready?
    ensures var t := SendAndAccept(me, config, s);
            && t.phase == Waiting(s.phase.attempts + 1)
            && t.server == OnRegistration(s.server, RegisterRequest(me, config))
            && Response(Topic.RegistrationResponse(me), RegistrationStatus(s.server.clients, me)) in t.server.responses
  {
  }

  // A late acknowledgement: the client proceeds although the server has poisoned it meanwhile.
  lemma ProceedsWhilePoisoned(me: Id, config: ClientConfig, s: State)
    requires me != "" && s.phase.Ready? && StateOf(s.server.clients, me) in {Unknown, Expected}
    ensures var r := Step(me, config, SendAndAccept(me, config, s), AlertPublished(true));
            var t := Step(me, config, r, TokenDeleted(Topic.LivelinessKey(me)));
            var u := Step(me, config, t, ClientReceives(Response(Topic.RegistrationResponse(me), Ack)));
            u.phase == Proceeded && StateOf(u.server.clients, me) == Poisoned
  {
    AfterSendAndAccept(me, config, s);
    Topic.LivelinessReaderInverts(me);
  }

  // A lost acknowledgement: the retry is refused as a duplicate although the server holds this
  // very client registered.
  lemma RetryRefusedAfterLostAck(me: Id, config: ClientConfig, s: State)
    requires me != "" && s.phase == Ready(0) && StateOf(s.server.clients, me) in {Unknown, Expected}
    ensures var t := Step(me, config, SendAndAccept(me, config, s), ClientTimesOut);
            var u := SendAndAccept(me, config, t);
            var refusal := Response(Topic.RegistrationResponse(me), RejectAlreadyRegistered);
            var v := Step(me, config, u, ClientReceives(refusal));
            v.phase == Stopped(AlreadyRegistered) && StateOf(v.server.clients, me) == Registered
  {
  }
}
