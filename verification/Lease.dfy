// The registration lease (src/registration/lease.rs): who is registered, and the absorbing
// poisoned state entered when a registered client's liveliness token disappears.
module Lease {
  import opened Wrappers

  datatype ClientState = Unknown | Expected | Registered | Poisoned

  datatype ClientConfig = ClientConfig(text: string)

  datatype ClientEntry = ClientEntry(state: ClientState, config: Option<ClientConfig>)

  datatype RegistrationError =
    | AlreadyRegistered
    | IsPoisoned
    | NotRegistered
    | Timeout
    | ServerError(message: string)

  type Clients = map<string, ClientEntry>

  function StateOf(clients: Clients, robotId: string): (r: ClientState) {
    if robotId in clients then clients[robotId].state else Unknown
  }

  // --- The three lease operations as steps ------------------------------------------------

  datatype Op =
    | Register(robotId: string, config: ClientConfig)
    | Deregister(robotId: string)
    | LivelinessDelete(robotId: string)

  // Whether the operation takes effect.
  predicate Takes(clients: Clients, op: Op) {
    var st := StateOf(clients, op.robotId);
    if op.Register? then st in {Unknown, Expected} else st == Registered
  }

  function Apply(clients: Clients, op: Op): (r: Clients) {
    if !Takes(clients, op) then clients
    else
      match op
      case Register(id, config) => clients[id := ClientEntry(Registered, Some(config))]
      case Deregister(id) => clients - {id}
      case LivelinessDelete(id) => clients[id := ClientEntry(Poisoned, None)]
  }

  function Initial(expected: seq<string>): (r: Clients) {
    map id | id in expected :: ClientEntry(Expected, None)
  }

  class RegistrationLease {
    var clients: Clients
    const expectedClients: seq<string>

    constructor (expected: seq<string>)
      ensures clients == Initial(expected) && expectedClients == expected
    {
      expectedClients := expected;
      clients := map[];
      new;
      for i := 0 to |expected|
        invariant expectedClients == expected
        invariant clients == Initial(expected[..i])
      {
        assert expected[..i + 1] == expected[..i] + [expected[i]];
        clients := clients[expected[i] := ClientEntry(Expected, None)];
      }
      assert expected[..|expected|] == expected;
    }

    // An unexpected robot is accepted too, with a warning.
    method RegisterClient(robotId: string, config: ClientConfig) returns (r: Result<(), RegistrationError>)
      modifies this`clients
      ensures clients == Apply(old(clients), Register(robotId, config))
      ensures r == match StateOf(old(clients), robotId)
                   case Poisoned => Failure(IsPoisoned)
                   case Registered => Failure(AlreadyRegistered)
                   case _ => Success(())
    {
      var entry: Option<ClientEntry> := Lookup(clients, robotId);
      match entry
      case Some(ClientEntry(Poisoned, _)) => r := Failure(IsPoisoned);
      case Some(ClientEntry(Registered, _)) => r := Failure(AlreadyRegistered);
      case _ =>
        clients := clients[robotId := ClientEntry(Registered, Some(config))];
        r := Success(());
    }

    method DeregisterClient(robotId: string) returns (r: Result<(), RegistrationError>)
      modifies this`clients
      ensures clients == Apply(old(clients), Deregister(robotId))
      ensures r == match StateOf(old(clients), robotId)
                   case Registered => Success(())
                   case Poisoned => Failure(IsPoisoned)
                   case _ => Failure(NotRegistered)
    {
      var entry: Option<ClientEntry> := Lookup(clients, robotId);
      match entry
      case Some(ClientEntry(Registered, _)) =>
        clients := clients - {robotId};
        r := Success(());
      case Some(ClientEntry(Poisoned, _)) => r := Failure(IsPoisoned);
      case _ => r := Failure(NotRegistered);
    }

    // Check and write happen under one lock; true exactly when this call poisoned the client.
    method OnLivelinessDelete(robotId: string) returns (poisoned: bool)
      modifies this`clients
      ensures clients == Apply(old(clients), LivelinessDelete(robotId))
      ensures poisoned <==> StateOf(old(clients), robotId) == Registered
    {
      var entry: Option<ClientEntry> := Lookup(clients, robotId);
      match entry
      case Some(ClientEntry(Registered, _)) =>
        clients := clients[robotId := ClientEntry(Poisoned, None)];
        poisoned := true;
      case _ => poisoned := false;
    }

    method State(robotId: string) returns (st: ClientState)
      ensures st == StateOf(clients, robotId)
    {
      st := if robotId in clients then clients[robotId].state else Unknown;
    }
  }

  // --- Whole runs ----------------------------------------------------------------------

  function After(expected: seq<string>, ops: seq<Op>): (r: Clients) {
    if ops == [] then Initial(expected) else Apply(After(expected, ops[..|ops| - 1]), ops[|ops| - 1])
  }

  datatype Kind = ARegister | ADeregister | ADelete

  function KindOf(op: Op): (r: Kind) {
    match op
    case Register(_, _) => ARegister
    case Deregister(_) => ADeregister
    case LivelinessDelete(_) => ADelete
  }

  // How many operations of a kind on a robot took effect.
  function Taken(expected: seq<string>, ops: seq<Op>, robotId: string, kind: Kind): (r: nat) {
    if ops == [] then 0
    else
      var init, op := ops[..|ops| - 1], ops[|ops| - 1];
      Taken(expected, init, robotId, kind)
      + if op.robotId == robotId && KindOf(op) == kind && Takes(After(expected, init), op) then 1 else 0
  }

  // Conservation, over every order of operations: each accepted registration is ended by an
  // accepted deregistration or a poisoning or is still held; there is at most one poisoning,
  // and exactly one when the robot is poisoned; a config is stored exactly while registered.
  lemma {:induction false} LeaseConservation(expected: seq<string>, ops: seq<Op>, robotId: string)
    ensures var clients := After(expected, ops); var st := StateOf(clients, robotId);
            && Taken(expected, ops, robotId, ARegister) ==
               Taken(expected, ops, robotId, ADeregister) + Taken(expected, ops, robotId, ADelete)
               + (if st == Registered then 1 else 0)
            && Taken(expected, ops, robotId, ADelete) == (if st == Poisoned then 1 else 0)
            && (robotId in clients ==> (clients[robotId].config.Some? <==> st == Registered))
  {
    if ops != [] {
      LeaseConservation(expected, ops[..|ops| - 1], robotId);
    }
  }

  // Poison is for ever: whatever happens later, the robot stays poisoned and no operation on
  // it takes effect.
  lemma {:induction false} PoisonIsForever(expected: seq<string>, ops: seq<Op>, more: seq<Op>, robotId: string)
    requires StateOf(After(expected, ops), robotId) == Poisoned
    ensures StateOf(After(expected, ops + more), robotId) == Poisoned
    ensures forall kind :: Taken(expected, ops + more, robotId, kind) == Taken(expected, ops, robotId, kind)
  {
    if more == [] {
      assert ops + more == ops;
    } else {
      var init := more[..|more| - 1];
      PoisonIsForever(expected, ops, init, robotId);
      assert (ops + more)[..|ops + more| - 1] == ops + init;
    }
  }

  // The last operation on a robot that took effect.
  function LastTaken(expected: seq<string>, ops: seq<Op>, robotId: string): (r: Option<Op>) {
    if ops == [] then None
    else
      var init, op := ops[..|ops| - 1], ops[|ops| - 1];
      if op.robotId == robotId && Takes(After(expected, init), op) then Some(op) else LastTaken(expected, init, robotId)
  }

  // What is stored for a robot is decided by the last operation that took effect: a registration
  // leaves its config, a deregistration nothing at all, a poisoning no config; before any, an
  // expected robot is stored as such and no other is.
  lemma {:induction false} EntryIsHistory(expected: seq<string>, ops: seq<Op>, robotId: string)
    ensures Lookup(After(expected, ops), robotId) ==
            match LastTaken(expected, ops, robotId)
            case None => if robotId in expected then Some(ClientEntry(Expected, None)) else None
            case Some(Register(_, config)) => Some(ClientEntry(Registered, Some(config)))
            case Some(Deregister(_)) => None
            case Some(LivelinessDelete(_)) => Some(ClientEntry(Poisoned, None))
  {
    if ops != [] {
      EntryIsHistory(expected, ops[..|ops| - 1], robotId);
    }
  }
}
