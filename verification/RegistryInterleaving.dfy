// `publish` takes the registry lock once to read the row, once to write it and once to append
// the audit row. Here any number of publishers run these steps under any schedule.
module RegistryInterleaving {
  import opened Wrappers
  import opened RuleTypes
  import opened Registry

  datatype Pc =
    | Start
    | HasRead(existing: Option<Row>)
    | MustAudit(row: AuditRow, outcome: RegisterOutcome)
    | Done(result: Result<RegisterOutcome, RegistryError>)

  // `inserts` counts the successful INSERTs per name; it is only observed.
  datatype State = State(db: Db, requests: seq<Ruleset>, pcs: seq<Pc>, inserts: multiset<string>)

  ghost predicate Shaped(s: State) {
    |s.pcs| == |s.requests|
  }

  // One locked section of publisher `p`.
  function Step(s: State, p: nat): (r: State)
    requires |s.pcs| == |s.requests| && p < |s.pcs|
  {
    var rs := s.requests[p];
    var name, sha := rs.rulesetName, DigestOf(rs);
    match s.pcs[p]
    case Start =>
      if !NameOk(name) then Goto(s, p, Done(Failure(BadName)))
      else Goto(s, p, HasRead(Lookup(s.db.table, name)))
    case HasRead(None) =>
      // the primary key refuses a second INSERT of a name
      if name in s.db.table then Goto(s, p, Done(Failure(DbError)))
      else
        var s' := Write(s, name, Row(rs.robotOwner, 1, sha)).(inserts := s.inserts + multiset{name});
        Goto(s', p, MustAudit(AuditOf(rs, 1, InsertedRow), Inserted))
    case HasRead(Some(row)) =>
      if row.owner != rs.robotOwner then
        Goto(s, p, MustAudit(AuditOf(rs, row.version, RejectedRow), RejectedConflict))
      else if row.sha == sha then Goto(s, p, Done(Success(Updated(row.version, sha))))
      else
        // UPDATE .. WHERE name = ?: unconditional, and a no-op on a missing row
        var s' := if name in s.db.table then Write(s, name, Row(rs.robotOwner, row.version + 1, sha)) else s;
        Goto(s', p, MustAudit(AuditOf(rs, row.version + 1, UpdatedRow), Updated(row.version + 1, sha)))
    case MustAudit(a, outcome) =>
      Goto(s.(db := s.db.(audit := s.db.audit + [a])), p, Done(Success(outcome)))
    case Done(_) => s
  }

  function Goto(s: State, p: nat, pc: Pc): (r: State)
    requires p < |s.pcs|
  {
    s.(pcs := s.pcs[p := pc])
  }

  function Write(s: State, name: string, row: Row): (r: State) {
    s.(db := s.db.(table := s.db.table[name := row]))
  }

  function Initial(requests: seq<Ruleset>): (r: State) {
    State(Db(map[], []), requests, seq(|requests|, _ => Start), multiset{})
  }

  // A schedule names the publisher that moves next; names of no publisher are skipped.
  function Run(requests: seq<Ruleset>, schedule: seq<nat>): (s: State)
    ensures s.requests == requests && |s.pcs| == |requests|
  {
    if schedule == [] then Initial(requests)
    else
      var s, p := Run(requests, schedule[..|schedule| - 1]), schedule[|schedule| - 1];
      if p < |s.pcs| then Step(s, p) else s
  }

  ghost predicate OwnedBy(db: Db, name: string, owner: string) {
    name in db.table && db.table[name].owner == owner
  }

  ghost predicate PcInv(db: Db, rs: Ruleset, pc: Pc) {
    match pc
    case HasRead(Some(row)) => OwnedBy(db, rs.rulesetName, row.owner)
    case MustAudit(a, _) => a.name == rs.rulesetName && (a.Accepted() ==> OwnedBy(db, a.name, a.owner))
    case _ => true
  }

  ghost predicate Inv(s: State) {
    && Shaped(s)
    && (forall p :: 0 <= p < |s.pcs| ==> PcInv(s.db, s.requests[p], s.pcs[p]))
    && (forall a :: a in s.db.audit && a.Accepted() ==> OwnedBy(s.db, a.name, a.owner))
    && (forall name :: s.inserts[name] == if name in s.db.table then 1 else 0)
  }

  // The table only grows, and a row's owner never changes.
  ghost predicate OwnersKept(before: Db, after: Db) {
    forall name :: name in before.table ==> OwnedBy(after, name, before.table[name].owner)
  }

  // `t` differs from `s` in `p`'s program counter, and in the registry at most.
  ghost predicate Moves(s: State, t: State, p: nat) {
    Shaped(s) && p < |s.pcs| == |t.pcs| && t.requests == s.requests && t.pcs == s.pcs[p := t.pcs[p]]
  }

  lemma StepMoves(s: State, p: nat)
    requires Shaped(s) && p < |s.pcs|
    ensures Moves(s, Step(s, p), p)
  {
  }

  lemma StepKeepsOwners(s: State, p: nat)
    requires Inv(s) && p < |s.pcs|
    ensures OwnersKept(s.db, Step(s, p).db)
  {
  }

  lemma PcInvMonotone(before: Db, after: Db, rs: Ruleset, pc: Pc)
    requires OwnersKept(before, after) && PcInv(before, rs, pc)
    ensures PcInv(after, rs, pc)
  {
  }

  lemma StepKeepsInv(s: State, p: nat)
    requires Inv(s) && p < |s.pcs|
    ensures Inv(Step(s, p))
  {
    var t := Step(s, p);
    StepMoves(s, p);
    StepKeepsOwners(s, p);
    StepPcInv(s, p);
    StepLogs(s, p);
    forall q | 0 <= q < |t.pcs| ensures PcInv(t.db, t.requests[q], t.pcs[q]) {
      if q != p {
        PcInvMonotone(s.db, t.db, s.requests[q], s.pcs[q]);
      }
    }
    forall a | a in t.db.audit && a.Accepted() ensures OwnedBy(t.db, a.name, a.owner) {
      if a in s.db.audit {
        assert OwnedBy(s.db, a.name, a.owner);
      }
    }
  }

  lemma StepLogs(s: State, p: nat)
    requires Inv(s) && p < |s.pcs|
    ensures var t := Step(s, p);
            && (t.db.audit == s.db.audit ||
                (s.pcs[p].MustAudit? && t.db == s.db.(audit := s.db.audit + [s.pcs[p].row])))
            && (forall name :: t.inserts[name] == if name in t.db.table then 1 else 0)
  {
    assert PcInv(s.db, s.requests[p], s.pcs[p]);
  }

  lemma StepPcInv(s: State, p: nat)
    requires Inv(s) && p < |s.pcs|
    ensures PcInv(Step(s, p).db, s.requests[p], Step(s, p).pcs[p])
  {
  }

  // Under every interleaving of every set of publishers: at most one INSERT per name succeeds
  // (exactly one if the name exists), and every accepted audit row of a name carries the owner
  // the table has for it.
  lemma {:induction false} InterleavedPublish(requests: seq<Ruleset>, schedule: seq<nat>)
    ensures Inv(Run(requests, schedule))
  {
    if schedule != [] {
      var init, p := schedule[..|schedule| - 1], schedule[|schedule| - 1];
      InterleavedPublish(requests, init);
      if p < |requests| {
        StepKeepsInv(Run(requests, init), p);
      }
    }
  }

  lemma OwnersKeptOn(a: Db, b: Db, c: Db)
    requires OwnersKept(a, b) && OwnersKept(b, c)
    ensures OwnersKept(a, c)
  {
  }

  // A name's owner never changes after its first insert, however the run continues.
  lemma {:induction false} OwnerNeverChanges(requests: seq<Ruleset>, schedule: seq<nat>, more: seq<nat>)
    ensures OwnersKept(Run(requests, schedule).db, Run(requests, schedule + more).db)
  {
    if more == [] {
      assert schedule + more == schedule;
    } else {
      var init, p := more[..|more| - 1], more[|more| - 1];
      OwnerNeverChanges(requests, schedule, init);
      assert (schedule + more)[..|schedule + more| - 1] == schedule + init;
      if p < |requests| {
        InterleavedPublish(requests, schedule + init);
        StepKeepsOwners(Run(requests, schedule + init), p);
        OwnersKeptOn(Run(requests, schedule).db, Run(requests, schedule + init).db, Run(requests, schedule + more).db);
      }
    }
  }

  // A publisher that runs its sections without interruption behaves as the serial `publish`.
  lemma UninterruptedIsSerial(s: State, p: nat)
    requires Shaped(s) && p < |s.pcs| && s.pcs[p] == Start
    ensures var s3 := Step(Step(Step(s, p), p), p);
            (s3.db, s3.pcs[p]) == (Publish(s.db, s.requests[p]).0, Done(Publish(s.db, s.requests[p]).1))
  {
    var s1 := Step(s, p);
    assert s1.db == s.db;
  }

  // --- Who inserts -------------------------------------------------------------------------

  predicate ToldInserted(pc: Pc) {
    (pc.MustAudit? && pc.outcome == Inserted) || pc == Done(Success(Inserted))
  }

  ghost predicate InsertedBy(s: State, p: nat, name: string) {
    Shaped(s) && p < |s.pcs| && s.requests[p].rulesetName == name && ToldInserted(s.pcs[p])
  }

  ghost predicate RefusedInsert(s: State, p: nat, name: string) {
    Shaped(s) && p < |s.pcs| && s.requests[p].rulesetName == name && s.pcs[p] == Done(Failure(DbError))
  }

  ghost predicate OneInserter(s: State, name: string) {
    && (name in s.db.table <==> exists p :: InsertedBy(s, p, name))
    && (forall p, q :: InsertedBy(s, p, name) && InsertedBy(s, q, name) ==> p == q)
    && (forall p :: RefusedInsert(s, p, name) ==> name in s.db.table)
  }

  // What a section says about inserting.
  lemma StepInserts(s: State, p: nat, name: string)
    requires Inv(s) && p < |s.pcs|
    ensures var t := Step(s, p);
            && (InsertedBy(t, p, name) <==>
                InsertedBy(s, p, name) || (name in t.db.table && name !in s.db.table))
            && (name in s.db.table ==> name in t.db.table)
            && (RefusedInsert(t, p, name) ==> name in t.db.table || RefusedInsert(s, p, name))
            && (name in t.db.table && name !in s.db.table ==> !InsertedBy(s, p, name))
  {
    assert PcInv(s.db, s.requests[p], s.pcs[p]);
  }

  lemma OneInserterStays(s: State, t: State, p: nat, name: string)
    requires OneInserter(s, name) && Moves(s, t, p)
    requires InsertedBy(t, p, name) <==> InsertedBy(s, p, name) || (name in t.db.table && name !in s.db.table)
    requires name in s.db.table ==> name in t.db.table
    requires RefusedInsert(t, p, name) ==> name in t.db.table || RefusedInsert(s, p, name)
    ensures OneInserter(t, name)
  {
    assert forall q :: q != p ==> (InsertedBy(t, q, name) <==> InsertedBy(s, q, name));
    assert forall q :: q != p ==> (RefusedInsert(t, q, name) <==> RefusedInsert(s, q, name));
    if q :| InsertedBy(s, q, name) {
      assert InsertedBy(t, q, name);
    }
  }

  // Under every schedule a registered name was inserted by exactly one publisher, and a publisher
  // whose INSERT was refused lost it to that other one.
  lemma {:induction false} InsertAnswers(requests: seq<Ruleset>, schedule: seq<nat>, name: string)
    ensures OneInserter(Run(requests, schedule), name)
  {
    if schedule != [] {
      var init, p := schedule[..|schedule| - 1], schedule[|schedule| - 1];
      InsertAnswers(requests, init, name);
      InterleavedPublish(requests, init);
      if p < |requests| {
        var s := Run(requests, init);
        StepMoves(s, p);
        StepInserts(s, p, name);
        OneInserterStays(s, Step(s, p), p, name);
      }
    }
  }

  // --- Versions ----------------------------------------------------------------------------

  // The version that publisher `p`'s next section writes for `name`, if it writes one.
  function WrittenVersion(s: State, p: nat, name: string): (v: Option<nat>)
    requires |s.pcs| == |s.requests| && p < |s.pcs|
  {
    var rs := s.requests[p];
    if rs.rulesetName != name then None
    else
      match s.pcs[p]
      case HasRead(None) => if name in s.db.table then None else Some(1)
      case HasRead(Some(row)) =>
        if row.owner != rs.robotOwner || row.sha == DigestOf(rs) then None else Some(row.version + 1)
      case _ => None
  }

  // The versions written for `name` over a run, in order.
  function Versions(requests: seq<Ruleset>, schedule: seq<nat>, name: string): (vs: seq<nat>) {
    if schedule == [] then []
    else
      var init, p := schedule[..|schedule| - 1], schedule[|schedule| - 1];
      var vs := Versions(requests, init, name);
      if p >= |requests| then vs
      else
        match WrittenVersion(Run(requests, init), p, name)
        case Some(v) => vs + [v]
        case None => vs
  }

  // `p`'s next section updates `name` although its version is no longer the one `p` has read.
  ghost predicate StaleWrite(s: State, p: nat, name: string)
    requires |s.pcs| == |s.requests| && p < |s.pcs|
  {
    && WrittenVersion(s, p, name).Some? && s.pcs[p].existing.Some?
    && name in s.db.table && s.db.table[name].version != s.pcs[p].existing.value.version
  }

  ghost predicate NoStaleWrite(requests: seq<Ruleset>, schedule: seq<nat>, name: string) {
    schedule == [] ||
    var init, p := schedule[..|schedule| - 1], schedule[|schedule| - 1];
    && NoStaleWrite(requests, init, name)
    && (p < |requests| ==> !StaleWrite(Run(requests, init), p, name))
  }

  // What the versions written so far say about a state: the row holds the last of them, and
  // whatever a publisher has read is one of them.
  ghost predicate VersionInv(s: State, name: string, vs: seq<nat>) {
    && Shaped(s)
    && (name in s.db.table <==> vs != [])
    && (name in s.db.table ==> s.db.table[name].version == vs[|vs| - 1])
    && (forall p :: 0 <= p < |s.pcs| && s.requests[p].rulesetName == name ==> ReadIn(s.pcs[p], vs))
  }

  ghost predicate ReadIn(pc: Pc, vs: seq<nat>) {
    pc.HasRead? && pc.existing.Some? ==> pc.existing.value.version in vs
  }

  // A publisher reads the row of the moment, and writes the version it announces.
  lemma StepVersion(s: State, p: nat, name: string)
    requires Inv(s) && p < |s.pcs|
    ensures var t, v := Step(s, p), WrittenVersion(s, p, name);
            && (t.pcs[p].HasRead? ==> t.pcs[p].existing == Lookup(s.db.table, s.requests[p].rulesetName))
            && (v.None? ==> Lookup(t.db.table, name) == Lookup(s.db.table, name))
            && (v.Some? ==> name in t.db.table && t.db.table[name].version == v.value)
  {
    assert PcInv(s.db, s.requests[p], s.pcs[p]);
  }

  lemma StepVersionInv(s: State, t: State, p: nat, name: string, vs: seq<nat>, vs': seq<nat>)
    requires Moves(s, t, p) && VersionInv(s, name, vs) && vs <= vs'
    requires t.pcs[p].HasRead? ==> t.pcs[p].existing == Lookup(s.db.table, s.requests[p].rulesetName)
    requires if |vs'| == |vs| then Lookup(t.db.table, name) == Lookup(s.db.table, name)
             else name in t.db.table && t.db.table[name].version == vs'[|vs'| - 1]
    ensures VersionInv(t, name, vs')
  {
    forall q | 0 <= q < |t.pcs| && t.requests[q].rulesetName == name ensures ReadIn(t.pcs[q], vs') {
      assert ReadIn(s.pcs[q], vs);
    }
  }

  lemma {:induction false} VersionsDescribeRun(requests: seq<Ruleset>, schedule: seq<nat>, name: string)
    ensures VersionInv(Run(requests, schedule), name, Versions(requests, schedule, name))
  {
    if schedule != [] {
      var init, p := schedule[..|schedule| - 1], schedule[|schedule| - 1];
      VersionsDescribeRun(requests, init, name);
      InterleavedPublish(requests, init);
      if p < |requests| {
        var s := Run(requests, init);
        StepMoves(s, p);
        StepVersion(s, p, name);
        StepVersionInv(s, Step(s, p), p, name, Versions(requests, init, name), Versions(requests, schedule, name));
      }
    }
  }

  ghost predicate Consecutive(vs: seq<nat>) {
    forall i :: 0 <= i < |vs| ==> vs[i] == i + 1
  }

  ghost predicate Distinct(vs: seq<nat>) {
    forall i, j :: 0 <= i < j < |vs| ==> vs[i] != vs[j]
  }

  // The next version continues 1, 2, 3, ... exactly when its write is not stale, and a stale
  // write repeats one of them.
  lemma NextVersion(s: State, p: nat, name: string, vs: seq<nat>)
    requires Inv(s) && p < |s.pcs| && VersionInv(s, name, vs) && Consecutive(vs)
    requires WrittenVersion(s, p, name).Some?
    ensures var v := WrittenVersion(s, p, name).value;
            if StaleWrite(s, p, name) then v in vs else v == |vs| + 1
  {
    assert PcInv(s.db, s.requests[p], s.pcs[p]) && ReadIn(s.pcs[p], vs);
    if s.pcs[p].existing.Some? {
      var r := s.pcs[p].existing.value.version;
      assert r in vs && vs[|vs| - 1] == |vs|;
      assert r < |vs| ==> vs[r] == r + 1;
    }
  }

  // The versions written for a name are 1, 2, 3, ... as long as no write is stale; the first
  // stale write repeats one, so that they are distinct exactly when there is none.
  lemma {:induction false} WrittenDistinctIff(requests: seq<Ruleset>, schedule: seq<nat>, name: string)
    ensures NoStaleWrite(requests, schedule, name) ==> Consecutive(Versions(requests, schedule, name))
    ensures NoStaleWrite(requests, schedule, name) <==> Distinct(Versions(requests, schedule, name))
  {
    if schedule != [] {
      var init, p := schedule[..|schedule| - 1], schedule[|schedule| - 1];
      var s, vs := Run(requests, init), Versions(requests, init, name);
      WrittenDistinctIff(requests, init, name);
      if p < |requests| && WrittenVersion(s, p, name).Some? {
        var v := WrittenVersion(s, p, name).value;
        InterleavedPublish(requests, init);
        VersionsDescribeRun(requests, init, name);
        SnocDistinct(vs, v);
        if NoStaleWrite(requests, init, name) {
          NextVersion(s, p, name, vs);
        }
      }
    }
  }

  lemma SnocDistinct(vs: seq<nat>, v: nat)
    ensures Distinct(vs + [v]) <==> Distinct(vs) && v !in vs
  {
    var ws := vs + [v];
    if Distinct(ws) {
      forall i | 0 <= i < |vs| ensures vs[i] != v {
        assert ws[i] != ws[|vs|];
      }
      forall i, j | 0 <= i < j < |vs| ensures vs[i] != vs[j] {
        assert ws[i] != ws[j];
      }
    }
  }

  // --- The versions in the log ---------------------------------------------------------------

  function VersionsLogged(audit: seq<AuditRow>, name: string): (vs: seq<nat>)
    ensures |vs| == |AcceptedRows(audit, name)|
    ensures forall i :: 0 <= i < |vs| ==> vs[i] == AcceptedRows(audit, name)[i].version
  {
    var rows := AcceptedRows(audit, name);
    seq(|rows|, i requires 0 <= i < |rows| => rows[i].version)
  }

  function Count(vs: seq<nat>, f: nat -> bool): (n: nat)
    ensures n <= |vs|
  {
    if vs == [] then 0 else Count(vs[..|vs| - 1], f) + if f(vs[|vs| - 1]) then 1 else 0
  }

  // The accepted version a publisher has written and not yet logged.
  function Unlogged(pc: Pc, name: string): (v: Option<nat>) {
    if pc.MustAudit? && pc.row.Accepted() && pc.row.name == name then Some(pc.row.version) else None
  }

  function CountOne(v: Option<nat>, f: nat -> bool): (n: nat) {
    if v.Some? && f(v.value) then 1 else 0
  }

  function CountUnlogged(pcs: seq<Pc>, name: string, f: nat -> bool): (n: nat) {
    if pcs == [] then 0
    else CountUnlogged(pcs[..|pcs| - 1], name, f) + CountOne(Unlogged(pcs[|pcs| - 1], name), f)
  }

  lemma {:induction false} MoveUnlogged(pcs: seq<Pc>, p: nat, pc: Pc, name: string, f: nat -> bool)
    requires p < |pcs|
    ensures CountUnlogged(pcs[p := pc], name, f) + CountOne(Unlogged(pcs[p], name), f) ==
            CountUnlogged(pcs, name, f) + CountOne(Unlogged(pc, name), f)
  {
    var n := |pcs| - 1;
    if p < n {
      MoveUnlogged(pcs[..n], p, pc, name, f);
      assert pcs[p := pc][..n] == pcs[..n][p := pc];
    } else {
      assert pcs[p := pc][..n] == pcs[..n];
    }
  }

  // No publisher is between its write and its audit row.
  ghost predicate Settled(s: State) {
    forall p :: 0 <= p < |s.pcs| ==> !s.pcs[p].MustAudit?
  }

  lemma {:induction false} NothingUnlogged(pcs: seq<Pc>, name: string, f: nat -> bool)
    requires forall p :: 0 <= p < |pcs| ==> !pcs[p].MustAudit?
    ensures CountUnlogged(pcs, name, f) == 0
  {
    if pcs != [] {
      NothingUnlogged(pcs[..|pcs| - 1], name, f);
    }
  }

  lemma CountSnoc(vs: seq<nat>, v: nat, f: nat -> bool)
    ensures Count(vs + [v], f) == Count(vs, f) + if f(v) then 1 else 0
  {
    assert (vs + [v])[..|vs|] == vs;
  }

  lemma AppendLogged(audit: seq<AuditRow>, a: AuditRow, name: string, f: nat -> bool)
    ensures Count(VersionsLogged(audit + [a], name), f) ==
            Count(VersionsLogged(audit, name), f)
            + CountOne(if a.Accepted() && a.name == name then Some(a.version) else None, f)
  {
    assert (audit + [a])[..|audit|] == audit;
    var vs := VersionsLogged(audit, name);
    if a.Accepted() && a.name == name {
      assert VersionsLogged(audit + [a], name) == vs + [a.version];
      CountSnoc(vs, a.version, f);
    } else {
      assert VersionsLogged(audit + [a], name) == vs;
    }
  }

  // What one section does to the writes, the log and what is between them.
  lemma StepWrites(s: State, p: nat, name: string)
    requires Inv(s) && p < |s.pcs|
    ensures var t, v := Step(s, p), WrittenVersion(s, p, name);
            if s.pcs[p].MustAudit? then
              v.None? && Unlogged(t.pcs[p], name).None? && t.db.audit == s.db.audit + [s.pcs[p].row]
            else Unlogged(t.pcs[p], name) == v && t.db.audit == s.db.audit
  {
    assert PcInv(s.db, s.requests[p], s.pcs[p]);
  }

  // One section moves a version from the write to the log, or leaves both as they are.
  lemma StepConserves(s: State, p: nat, name: string, f: nat -> bool)
    requires Inv(s) && p < |s.pcs|
    ensures var t := Step(s, p);
            Count(VersionsLogged(t.db.audit, name), f) + CountUnlogged(t.pcs, name, f) ==
            Count(VersionsLogged(s.db.audit, name), f) + CountUnlogged(s.pcs, name, f)
            + CountOne(WrittenVersion(s, p, name), f)
  {
    StepWrites(s, p, name);
    StepMoves(s, p);
    MoveUnlogged(s.pcs, p, Step(s, p).pcs[p], name, f);
    if s.pcs[p].MustAudit? {
      AppendLogged(s.db.audit, s.pcs[p].row, name, f);
    }
  }

  // Every accepted version is written once and logged once, in whatever order.
  lemma {:induction false} VersionsConserved(requests: seq<Ruleset>, schedule: seq<nat>, name: string, f: nat -> bool)
    ensures var s := Run(requests, schedule);
            Count(VersionsLogged(s.db.audit, name), f) + CountUnlogged(s.pcs, name, f) ==
            Count(Versions(requests, schedule, name), f)
  {
    if schedule == [] {
      NothingUnlogged(Initial(requests).pcs, name, f);
    } else {
      var init, p := schedule[..|schedule| - 1], schedule[|schedule| - 1];
      VersionsConserved(requests, init, name, f);
      InterleavedPublish(requests, init);
      if p < |requests| {
        StepConserves(Run(requests, init), p, name, f);
        var v := WrittenVersion(Run(requests, init), p, name);
        if v.Some? {
          CountSnoc(Versions(requests, init, name), v.value, f);
        }
      }
    }
  }

  lemma {:induction false} CountAll(vs: seq<nat>)
    ensures Count(vs, _ => true) == |vs|
  {
    if vs != [] {
      CountAll(vs[..|vs| - 1]);
    }
  }

  function Copies(vs: seq<nat>, v: nat): (n: nat) {
    Count(vs, x => x == v)
  }

  lemma {:induction false} CopiesOfMember(vs: seq<nat>, v: nat)
    ensures Copies(vs, v) > 0 <==> v in vs
    ensures Distinct(vs) ==> Copies(vs, v) <= 1
  {
    if vs != [] {
      var init, last := vs[..|vs| - 1], vs[|vs| - 1];
      CopiesOfMember(init, v);
      SnocDistinct(init, last);
      assert vs == init + [last];
    }
  }

  lemma {:induction false} RepeatedVersion(vs: seq<nat>) returns (v: nat)
    requires !Distinct(vs)
    ensures Copies(vs, v) > 1
  {
    var init, last := vs[..|vs| - 1], vs[|vs| - 1];
    SnocDistinct(init, last);
    assert vs == init + [last];
    if Distinct(init) {
      v := last;
      CopiesOfMember(init, last);
    } else {
      v := RepeatedVersion(init);
    }
  }

  // Lists with the same copies of every version are distinct together.
  lemma SameCopies(vs: seq<nat>, ws: seq<nat>)
    requires forall v: nat :: Copies(vs, v) == Copies(ws, v)
    ensures Distinct(vs) ==> Distinct(ws)
    ensures forall v: nat :: v in vs ==> v in ws
  {
    if Distinct(vs) && !Distinct(ws) {
      var v := RepeatedVersion(ws);
      CopiesOfMember(vs, v);
    }
    forall v: nat | v in vs ensures v in ws {
      CopiesOfMember(vs, v);
      CopiesOfMember(ws, v);
    }
  }

  lemma LoggedAsWritten(requests: seq<Ruleset>, schedule: seq<nat>, name: string, vs: seq<nat>, ws: seq<nat>)
    requires Settled(Run(requests, schedule))
    requires vs == VersionsLogged(Run(requests, schedule).db.audit, name)
    requires ws == Versions(requests, schedule, name)
    ensures |vs| == |ws| && forall v: nat :: Copies(vs, v) == Copies(ws, v)
  {
    forall v: nat ensures Copies(vs, v) == Copies(ws, v) {
      VersionsConserved(requests, schedule, name, x => x == v);
      NothingUnlogged(Run(requests, schedule).pcs, name, x => x == v);
    }
    VersionsConserved(requests, schedule, name, _ => true);
    NothingUnlogged(Run(requests, schedule).pcs, name, _ => true);
    CountAll(vs);
    CountAll(ws);
  }

  // In every run in which no publisher is between write and audit: the accepted versions in a
  // name's log are pairwise distinct exactly when no update of the name overwrote a version
  // other than the one it had read, and they are then 1..n, in some order.
  lemma VersionsUniqueIff(requests: seq<Ruleset>, schedule: seq<nat>, name: string)
    requires Settled(Run(requests, schedule))
    ensures var vs := VersionsLogged(Run(requests, schedule).db.audit, name);
            && (Distinct(vs) <==> NoStaleWrite(requests, schedule, name))
            && (Distinct(vs) ==> forall v: nat :: v in vs <==> 1 <= v <= |vs|)
  {
    var vs, ws := VersionsLogged(Run(requests, schedule).db.audit, name), Versions(requests, schedule, name);
    LoggedAsWritten(requests, schedule, name, vs, ws);
    SameCopies(vs, ws);
    SameCopies(ws, vs);
    WrittenDistinctIff(requests, schedule, name);
    forall v: nat | Consecutive(ws) ensures v in ws <==> 1 <= v <= |ws| {
      assert 1 <= v <= |ws| ==> ws[v - 1] == v;
    }
  }

  // --- Publishes of one name that do not overlap -----------------------------------------------

  predicate Busy(pc: Pc) {
    pc.HasRead? || pc.MustAudit?
  }

  ghost predicate BusyOn(s: State, name: string, p: nat) {
    Shaped(s) && p < |s.pcs| && s.requests[p].rulesetName == name && Busy(s.pcs[p])
  }

  // Whenever a publisher of `name` moves, no other publisher of `name` is under way. Publishers
  // of other names are free to move at any time.
  ghost predicate NonOverlapping(requests: seq<Ruleset>, schedule: seq<nat>, name: string) {
    schedule == [] ||
    var init, p := schedule[..|schedule| - 1], schedule[|schedule| - 1];
    && NonOverlapping(requests, init, name)
    && (p < |requests| && requests[p].rulesetName == name ==>
      forall q: nat :: BusyOn(Run(requests, init), name, q) ==> q == p)
  }

  // The publishes of `name` that have started, in order.
  function Started(requests: seq<Ruleset>, schedule: seq<nat>, name: string): (pubs: seq<Ruleset>) {
    if schedule == [] then []
    else
      var init, p := schedule[..|schedule| - 1], schedule[|schedule| - 1];
      var pubs := Started(requests, init, name);
      if p < |requests| && requests[p].rulesetName == name && Run(requests, init).pcs[p].Start? then
        pubs + [requests[p]]
      else pubs
  }

  // The two registries agree on a name: same row, same log rows.
  ghost predicate AgreeOn(a: Db, b: Db, name: string) {
    Lookup(a.table, name) == Lookup(b.table, name) && LogOf(a.audit, name) == LogOf(b.audit, name)
  }

  // A publisher that has started on registry `before`, as far as its name goes, is on the way to
  // what the serial publish does there.
  ghost predicate Toward(db: Db, rs: Ruleset, pc: Pc, before: Db) {
    match pc
    case HasRead(existing) =>
      NameOk(rs.rulesetName) && AgreeOn(db, before, rs.rulesetName) && existing == Lookup(db.table, rs.rulesetName)
    case MustAudit(a, outcome) =>
      var (after, r) := Publish(before, rs);
      OnlyAuditLeft(db, a, outcome, rs.rulesetName, after, r)
    case Done(r) => AgreeOn(db, Publish(before, rs).0, rs.rulesetName) && r == Publish(before, rs).1
    case Start => false
  }

  ghost predicate OnlyAuditLeft(db: Db, a: AuditRow, outcome: RegisterOutcome, name: string, after: Db,
      r: Result<RegisterOutcome, RegistryError>)
  {
    && a.name == name && r == Success(outcome)
    && Lookup(db.table, name) == Lookup(after.table, name)
    && LogOf(db.audit, name) + [a] == LogOf(after.audit, name)
  }

  // With no publisher of the name under way the registry is, on that name, what the serial run
  // has made it; the one under way is the last to have started.
  ghost predicate SerialInv(s: State, name: string, pubs: seq<Ruleset>) {
    && ((forall p: nat :: !BusyOn(s, name, p)) ==> AgreeOn(s.db, PublishAll(pubs), name))
    && (forall p: nat :: BusyOn(s, name, p) ==> Underway(s, p, pubs))
  }

  ghost predicate DoneOn(s: State, name: string, p: nat) {
    Shaped(s) && p < |s.pcs| && s.requests[p].rulesetName == name && s.pcs[p].Done?
  }

  // Publisher `p` was told what the serial run answers its `k`-th publish.
  ghost predicate AnsweredAt(s: State, p: nat, pubs: seq<Ruleset>, k: nat)
    requires Shaped(s) && p < |s.pcs|
  {
    && k < |pubs| && pubs[k] == s.requests[p]
    && (s.pcs[p].Done? ==> s.pcs[p].result == Publish(PublishAll(pubs[..k]), pubs[k]).1)
  }

  ghost predicate Answered(s: State, name: string, pubs: seq<Ruleset>) {
    forall p: nat :: DoneOn(s, name, p) ==> exists k: nat :: AnsweredAt(s, p, pubs, k)
  }

  ghost predicate Underway(s: State, p: nat, pubs: seq<Ruleset>)
    requires Shaped(s) && p < |s.pcs|
  {
    && pubs != [] && pubs[|pubs| - 1] == s.requests[p]
    && Toward(s.db, s.requests[p], s.pcs[p], PublishAll(pubs[..|pubs| - 1]))
  }

  lemma AppendLog(audit: seq<AuditRow>, a: AuditRow, name: string)
    ensures LogOf(audit + [a], name) == LogOf(audit, name) + if a.name == name then [a] else []
  {
    assert (audit + [a])[..|audit|] == audit;
  }

  // `Publish` decides, writes and logs by the row of its name alone.
  lemma SameDecision(a: Db, b: Db, rs: Ruleset)
    requires Lookup(a.table, rs.rulesetName) == Lookup(b.table, rs.rulesetName)
    ensures var (a', r), (b', q) := Publish(a, rs), Publish(b, rs);
            && r == q
            && Lookup(a'.table, rs.rulesetName) == Lookup(b'.table, rs.rulesetName)
            && a'.audit[|a.audit|..] == b'.audit[|b.audit|..]
  {
  }

  // A publish appends its one row, if any, to its name's log.
  lemma PublishLogs(db: Db, rs: Ruleset, db': Db)
    requires db' == Publish(db, rs).0
    ensures LogOf(db'.audit, rs.rulesetName) == LogOf(db.audit, rs.rulesetName) + db'.audit[|db.audit|..]
  {
    if db'.audit != db.audit {
      AppendLog(db.audit, db'.audit[|db.audit|], rs.rulesetName);
    }
  }

  lemma PublishByRow(a: Db, b: Db, rs: Ruleset, a': Db, b': Db)
    requires AgreeOn(a, b, rs.rulesetName) && a' == Publish(a, rs).0 && b' == Publish(b, rs).0
    ensures AgreeOn(a', b', rs.rulesetName) && Publish(a, rs).1 == Publish(b, rs).1
  {
    SameDecision(a, b, rs);
    PublishLogs(a, rs, a');
    PublishLogs(b, rs, b');
  }

  // A section touches its own name only.
  lemma StepFrame(s: State, p: nat, name: string)
    requires Inv(s) && p < |s.pcs|
    ensures s.requests[p].rulesetName != name ==> AgreeOn(Step(s, p).db, s.db, name)
  {
    assert PcInv(s.db, s.requests[p], s.pcs[p]);
    if s.pcs[p].MustAudit? {
      AppendLog(s.db.audit, s.pcs[p].row, name);
    }
  }

  lemma TowardFrame(db: Db, db': Db, rs: Ruleset, pc: Pc, before: Db)
    requires Toward(db, rs, pc, before) && AgreeOn(db', db, rs.rulesetName)
    ensures Toward(db', rs, pc, before)
  {
  }

  // Reading, and then writing what was read, is the serial publish up to its audit row.
  lemma ReadAndWriteArePublish(s: State, p: nat)
    requires Shaped(s) && p < |s.pcs|
    requires s.pcs[p] == Start || (NameOk(s.requests[p].rulesetName)
               && s.pcs[p] == HasRead(Lookup(s.db.table, s.requests[p].rulesetName)))
    ensures var t, rs := Step(s, p), s.requests[p];
            && t.db.audit == s.db.audit
            && match t.pcs[p]
               case HasRead(existing) => t == Goto(s, p, HasRead(Lookup(s.db.table, rs.rulesetName)))
                    && s.pcs[p] == Start && NameOk(rs.rulesetName)
               case MustAudit(a, o) => Publish(s.db, rs) == (Db(t.db.table, s.db.audit + [a]), Success(o))
                    && a.name == rs.rulesetName
               case Done(r) => Publish(s.db, rs) == (t.db, r)
               case Start => false
  {
  }

  lemma FirstSections(s: State, p: nat, before: Db)
    requires Inv(s) && p < |s.pcs| && AgreeOn(s.db, before, s.requests[p].rulesetName)
    requires s.pcs[p] == Start || (NameOk(s.requests[p].rulesetName)
               && s.pcs[p] == HasRead(Lookup(s.db.table, s.requests[p].rulesetName)))
    ensures Toward(Step(s, p).db, s.requests[p], Step(s, p).pcs[p], before)
  {
    var t, rs := Step(s, p), s.requests[p];
    ReadAndWriteArePublish(s, p);
    PublishByRow(s.db, before, rs, Publish(s.db, rs).0, Publish(before, rs).0);
    if t.pcs[p].MustAudit? {
      AppendLog(s.db.audit, t.pcs[p].row, rs.rulesetName);
    }
  }

  lemma LastSection(s: State, p: nat, before: Db)
    requires Inv(s) && p < |s.pcs| && s.pcs[p].MustAudit? && Toward(s.db, s.requests[p], s.pcs[p], before)
    ensures Toward(Step(s, p).db, s.requests[p], Step(s, p).pcs[p], before)
  {
    AppendLog(s.db.audit, s.pcs[p].row, s.requests[p].rulesetName);
  }

  // A section of `p` with no other publisher of the name under way.
  lemma OwnSectionIsSerial(s: State, t: State, name: string, p: nat, pubs: seq<Ruleset>, pubs': seq<Ruleset>)
    requires Moves(s, t, p) && s.requests[p].rulesetName == name
    requires forall q: nat :: BusyOn(s, name, q) ==> q == p
    requires Underway(t, p, pubs') && Answered(s, name, pubs) && pubs <= pubs'
    ensures SerialInv(t, name, pubs') && Answered(t, name, pubs')
  {
    assert forall q: nat :: q != p ==> (BusyOn(t, name, q) <==> BusyOn(s, name, q));
    assert BusyOn(t, name, p) <==> Busy(t.pcs[p]);
    assert AnsweredAt(t, p, pubs', |pubs'| - 1);
    forall q: nat | DoneOn(t, name, q) && q != p ensures exists k: nat :: AnsweredAt(t, q, pubs', k) {
      assert DoneOn(s, name, q);
      var k: nat :| AnsweredAt(s, q, pubs, k);
      assert pubs'[..k] == pubs[..k];
      assert AnsweredAt(t, q, pubs', k);
    }
  }

  // A section of a publisher of another name leaves the name's row and log rows alone.
  lemma OtherSectionIsIndependent(s: State, t: State, name: string, p: nat, pubs: seq<Ruleset>)
    requires Moves(s, t, p) && s.requests[p].rulesetName != name && AgreeOn(t.db, s.db, name)
    requires SerialInv(s, name, pubs) && Answered(s, name, pubs)
    ensures SerialInv(t, name, pubs) && Answered(t, name, pubs)
  {
    assert forall q: nat :: BusyOn(t, name, q) <==> BusyOn(s, name, q);
    forall q: nat | BusyOn(t, name, q) ensures Underway(t, q, pubs) {
      assert BusyOn(s, name, q) && Underway(s, q, pubs);
      TowardFrame(s.db, t.db, s.requests[q], s.pcs[q], PublishAll(pubs[..|pubs| - 1]));
    }
    forall q: nat | DoneOn(t, name, q) ensures exists k: nat :: AnsweredAt(t, q, pubs, k) {
      assert DoneOn(s, name, q);
      var k: nat :| AnsweredAt(s, q, pubs, k);
      assert AnsweredAt(t, q, pubs, k);
    }
  }

  lemma OwnSection(s: State, name: string, p: nat, pubs: seq<Ruleset>, pubs': seq<Ruleset>)
    requires Inv(s) && p < |s.pcs| && s.requests[p].rulesetName == name && !s.pcs[p].Done?
    requires SerialInv(s, name, pubs)
    requires forall q: nat :: BusyOn(s, name, q) ==> q == p
    requires pubs' == if s.pcs[p].Start? then pubs + [s.requests[p]] else pubs
    ensures Underway(Step(s, p), p, pubs')
  {
    if s.pcs[p].Start? {
      assert pubs'[..|pubs|] == pubs;
      FirstSections(s, p, PublishAll(pubs));
    } else {
      assert BusyOn(s, name, p);
      if s.pcs[p].HasRead? {
        FirstSections(s, p, PublishAll(pubs[..|pubs| - 1]));
      } else {
        LastSection(s, p, PublishAll(pubs[..|pubs| - 1]));
      }
    }
  }

  lemma SectionIsSerial(s: State, name: string, p: nat, pubs: seq<Ruleset>, pubs': seq<Ruleset>)
    requires Inv(s) && p < |s.pcs| && !s.pcs[p].Done? && SerialInv(s, name, pubs) && Answered(s, name, pubs)
    requires s.requests[p].rulesetName == name ==> forall q: nat :: BusyOn(s, name, q) ==> q == p
    requires pubs' == if s.requests[p].rulesetName == name && s.pcs[p].Start? then pubs + [s.requests[p]] else pubs
    ensures SerialInv(Step(s, p), name, pubs') && Answered(Step(s, p), name, pubs')
  {
    StepMoves(s, p);
    if s.requests[p].rulesetName == name {
      OwnSection(s, name, p, pubs, pubs');
      OwnSectionIsSerial(s, Step(s, p), name, p, pubs, pubs');
    } else {
      StepFrame(s, p, name);
      OtherSectionIsIndependent(s, Step(s, p), name, p, pubs);
    }
  }

  lemma {:induction false} NonOverlappingInv(requests: seq<Ruleset>, schedule: seq<nat>, name: string)
    requires NonOverlapping(requests, schedule, name)
    ensures SerialInv(Run(requests, schedule), name, Started(requests, schedule, name))
    ensures Answered(Run(requests, schedule), name, Started(requests, schedule, name))
  {
    if schedule != [] {
      var init, p := schedule[..|schedule| - 1], schedule[|schedule| - 1];
      NonOverlappingInv(requests, init, name);
      InterleavedPublish(requests, init);
      if p < |requests| && !Run(requests, init).pcs[p].Done? {
        SectionIsSerial(Run(requests, init), name, p, Started(requests, init, name), Started(requests, schedule, name));
      }
    }
  }

  // Publishes of one name that do not overlap are serial on that name, however other names
  // interleave: once none is under way, the name's row and its log rows are those of publishing
  // them one after the other, each caller was told what that run answers it, and the accepted
  // rows are a proper history (one owner, versions 1, 2, 3, ...) that ends in the row.
  lemma NonOverlappingIsSerial(requests: seq<Ruleset>, schedule: seq<nat>, name: string)
    requires NonOverlapping(requests, schedule, name)
    requires forall p: nat :: !BusyOn(Run(requests, schedule), name, p)
    ensures var s, pubs := Run(requests, schedule), Started(requests, schedule, name);
            AgreeOn(s.db, PublishAll(pubs), name) && Answered(s, name, pubs) && MatchesLog(s.db, name)
  {
    var s, pubs := Run(requests, schedule), Started(requests, schedule, name);
    NonOverlappingInv(requests, schedule, name);
    RegistryIsItsLog(pubs, name);
    AcceptedOfLog(s.db.audit, name);
    AcceptedOfLog(PublishAll(pubs).audit, name);
  }

  // Publishers that do not overlap on a name are never refused an INSERT.
  lemma NoRefusedInsertWithoutOverlap(requests: seq<Ruleset>, schedule: seq<nat>, name: string, p: nat)
    requires NonOverlapping(requests, schedule, name)
    ensures !RefusedInsert(Run(requests, schedule), p, name)
  {
    var s, pubs := Run(requests, schedule), Started(requests, schedule, name);
    NonOverlappingInv(requests, schedule, name);
    assert RefusedInsert(s, p, name) ==> DoneOn(s, name, p);
  }

  // Versions are not unique under concurrency: whenever two updates have read the same row,
  // both are accepted and logged with the same version, and the first one's content leaves the
  // table.
  lemma LostUpdate(s: State, p: nat, q: nat, row: Row)
    requires Inv(s) && p < |s.pcs| && q < |s.pcs| && p != q
    requires s.pcs[p] == s.pcs[q] == HasRead(Some(row))
    requires s.requests[p].rulesetName == s.requests[q].rulesetName
    requires s.requests[p].robotOwner == s.requests[q].robotOwner == row.owner
    requires row.sha != DigestOf(s.requests[p]) && row.sha != DigestOf(s.requests[q])
    ensures var t := Step(Step(Step(Step(s, p), p), q), q);
            && t.pcs[p] == Done(Success(Updated(row.version + 1, DigestOf(s.requests[p]))))
            && t.pcs[q] == Done(Success(Updated(row.version + 1, DigestOf(s.requests[q]))))
            && t.db.audit == s.db.audit + [AuditOf(s.requests[p], row.version + 1, UpdatedRow)]
                             + [AuditOf(s.requests[q], row.version + 1, UpdatedRow)]
            && Lookup(t.db.table, s.requests[q].rulesetName) ==
               Some(Row(row.owner, row.version + 1, DigestOf(s.requests[q])))
  {
  }

  lemma RunStep(requests: seq<Ruleset>, schedule: seq<nat>, p: nat)
    requires p < |requests|
    ensures Run(requests, schedule + [p]) == Step(Run(requests, schedule), p)
  {
  }

  // Two publishers that both find the name free: the second INSERT is refused, also for the owner.
  lemma {:induction false} RefusedInsertIsReachable(requests: seq<Ruleset>)
    requires |requests| == 2 && NameOk(requests[0].rulesetName)
    requires requests[0].rulesetName == requests[1].rulesetName
    ensures RefusedInsert(Run(requests, [0, 1, 0, 1]), 1, requests[0].rulesetName)
  {
    BothReadNothing(requests);
    RunStep(requests, [0, 1], 0);
    RunStep(requests, [0, 1, 0], 1);
    assert [0, 1] + [0] == [0, 1, 0] && [0, 1, 0] + [1] == [0, 1, 0, 1];
    SecondInsertRefused(Run(requests, [0, 1]), 0, 1);
  }

  lemma {:induction false} BothReadNothing(requests: seq<Ruleset>)
    requires |requests| == 2 && NameOk(requests[0].rulesetName)
    requires requests[0].rulesetName == requests[1].rulesetName
    ensures var s := Run(requests, [0, 1]); s.db == Db(map[], []) && s.pcs[0] == s.pcs[1] == HasRead(None)
  {
    RunStep(requests, [], 0);
    RunStep(requests, [0], 1);
    assert [] + [0] == [0] && [0] + [1] == [0, 1];
    ReadTwice(Run(requests, []), 0, 1);
  }

  lemma SecondInsertRefused(s: State, p: nat, q: nat)
    requires Shaped(s) && p < |s.pcs| && q < |s.pcs| && p != q && s.pcs[p] == s.pcs[q] == HasRead(None)
    requires s.requests[p].rulesetName == s.requests[q].rulesetName && s.requests[p].rulesetName !in s.db.table
    ensures RefusedInsert(Step(Step(s, p), q), q, s.requests[p].rulesetName)
  {
  }

  // The first publisher alone inserts.
  lemma {:induction false} InsertAlone(requests: seq<Ruleset>)
    requires requests != [] && NameOk(requests[0].rulesetName)
    ensures var s := Run(requests, [0, 0, 0]);
            && s.db == Publish(Db(map[], []), requests[0]).0
            && forall p :: 0 < p < |requests| ==> s.pcs[p] == Start
  {
    var s0 := Run(requests, []);
    RunStep(requests, [], 0);
    RunStep(requests, [0], 0);
    RunStep(requests, [0, 0], 0);
    assert [] + [0] == [0] && [0] + [0] == [0, 0] && [0, 0] + [0] == [0, 0, 0];
    UninterruptedIsSerial(s0, 0);
    StepMoves(s0, 0);
    StepMoves(Step(s0, 0), 0);
    StepMoves(Step(Step(s0, 0), 0), 0);
  }

  // Two publishers of a registered name read its row one after the other.
  lemma ReadTwice(s: State, p: nat, q: nat)
    requires Shaped(s) && p < |s.pcs| && q < |s.pcs| && p != q && s.pcs[p] == s.pcs[q] == Start
    requires s.requests[p].rulesetName == s.requests[q].rulesetName && NameOk(s.requests[p].rulesetName)
    ensures var t := Step(Step(s, p), q);
            t.db == s.db && t.pcs[p] == t.pcs[q] == HasRead(Lookup(s.db.table, s.requests[p].rulesetName))
  {
  }

  // One publisher inserts, then two others read before either writes.
  lemma {:induction false} RaceIsReachable(requests: seq<Ruleset>)
    requires |requests| == 3 && NameOk(requests[0].rulesetName)
    requires requests[0].rulesetName == requests[1].rulesetName == requests[2].rulesetName
    ensures var s := Run(requests, [0, 0, 0, 1, 2]);
            && s.pcs[1] == s.pcs[2] == HasRead(Some(Row(requests[0].robotOwner, 1, DigestOf(requests[0]))))
            && s.db.audit == [AuditOf(requests[0], 1, InsertedRow)]
  {
    InsertAlone(requests);
    RunStep(requests, [0, 0, 0], 1);
    RunStep(requests, [0, 0, 0, 1], 2);
    assert [0, 0, 0] + [1] == [0, 0, 0, 1] && [0, 0, 0, 1] + [2] == [0, 0, 0, 1, 2];
    ReadTwice(Run(requests, [0, 0, 0]), 1, 2);
  }

  // From an empty registry: an insertion and two racing updates by its owner leave two accepted
  // rows of version 2 in the log, and the second update's content alone in the table.
  lemma {:induction false} DuplicateVersionIsReachable(requests: seq<Ruleset>)
    requires |requests| == 3 && NameOk(requests[0].rulesetName)
    requires requests[0].rulesetName == requests[1].rulesetName == requests[2].rulesetName
    requires requests[0].robotOwner == requests[1].robotOwner == requests[2].robotOwner
    requires DigestOf(requests[0]) != DigestOf(requests[1]) && DigestOf(requests[0]) != DigestOf(requests[2])
    ensures var s := Run(requests, [0, 0, 0, 1, 2, 1, 1, 2, 2]);
            && s.db.audit == [AuditOf(requests[0], 1, InsertedRow), AuditOf(requests[1], 2, UpdatedRow),
                              AuditOf(requests[2], 2, UpdatedRow)]
            && Lookup(s.db.table, requests[0].rulesetName) ==
               Some(Row(requests[0].robotOwner, 2, DigestOf(requests[2])))
  {
    var race := [0, 0, 0, 1, 2];
    RaceIsReachable(requests);
    InterleavedPublish(requests, race);
    RunStep(requests, race, 1);
    RunStep(requests, race + [1], 1);
    RunStep(requests, race + [1] + [1], 2);
    RunStep(requests, race + [1] + [1] + [2], 2);
    assert race + [1] + [1] + [2] + [2] == [0, 0, 0, 1, 2, 1, 1, 2, 2];
    LostUpdate(Run(requests, race), 1, 2, Row(requests[0].robotOwner, 1, DigestOf(requests[0])));
  }
}
