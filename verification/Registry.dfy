// The ruleset registry (src/registry.rs): canonical form, and an owner-exclusive versioned
// table with an append-only audit log.
module Registry {
  import opened Wrappers
  import opened RuleTypes
  import opened Strings

  // --- Canonical form ---------------------------------------------------------------------

  // `sort_by` is stable: a rule goes after those whose names are at most its own.
  function InsertByName(xs: seq<Rule>, x: Rule): (r: seq<Rule>) {
    if xs == [] || AtMost(xs[|xs| - 1].name, x.name) then xs + [x]
    else InsertByName(xs[..|xs| - 1], x) + [xs[|xs| - 1]]
  }

  function SortByName(xs: seq<Rule>): (r: seq<Rule>) {
    if xs == [] then [] else InsertByName(SortByName(xs[..|xs| - 1]), xs[|xs| - 1])
  }

  function Canonical(rs: Ruleset): (r: Ruleset) {
    rs.(rules := SortByName(rs.rules))
  }

  // SHA-256 of the canonical text, taken to be injective.
  datatype Digest = Sha256(of: Ruleset)

  function DigestOf(rs: Ruleset): (r: Digest) {
    Sha256(Canonical(rs))
  }

  ghost predicate Sorted(xs: seq<Rule>) {
    forall i, j :: 0 <= i < j < |xs| ==> AtMost(xs[i].name, xs[j].name)
  }

  // The rules called `n`, in order.
  function Named(xs: seq<Rule>, n: string): (r: seq<Rule>) {
    if xs == [] then []
    else
      var rest, last := Named(xs[..|xs| - 1], n), xs[|xs| - 1];
      if last.name == n then rest + [last] else rest
  }

  // The same rules in the same order under every name.
  ghost predicate SameNamed(xs: seq<Rule>, ys: seq<Rule>) {
    forall n :: Named(xs, n) == Named(ys, n)
  }

  lemma {:induction false} InsertKeepsNamed(xs: seq<Rule>, x: Rule, n: string)
    ensures Named(InsertByName(xs, x), n) == if x.name == n then Named(xs, n) + [x] else Named(xs, n)
  {
    if xs == [] || AtMost(xs[|xs| - 1].name, x.name) {
      assert (xs + [x])[..|xs|] == xs;
    } else {
      var init, last := xs[..|xs| - 1], xs[|xs| - 1];
      CompareEqual(last.name, x.name);
      InsertKeepsNamed(init, x, n);
      assert (InsertByName(init, x) + [last])[..|InsertByName(init, x)|] == InsertByName(init, x);
    }
  }

  // Sorting is stable: rules of one name keep their order.
  lemma {:induction false} SortKeepsNamed(xs: seq<Rule>, n: string)
    ensures Named(SortByName(xs), n) == Named(xs, n)
  {
    if xs != [] {
      SortKeepsNamed(xs[..|xs| - 1], n);
      InsertKeepsNamed(SortByName(xs[..|xs| - 1]), xs[|xs| - 1], n);
    }
  }

  lemma {:induction false} InsertSorted(xs: seq<Rule>, x: Rule)
    requires Sorted(xs)
    ensures Sorted(InsertByName(xs, x))
    ensures forall y :: y in InsertByName(xs, x) <==> y in xs || y == x
  {
    if xs == [] || AtMost(xs[|xs| - 1].name, x.name) {
      forall i | 0 <= i < |xs| ensures AtMost(xs[i].name, x.name) {
        if i < |xs| - 1 {
          AtMostTransitive(xs[i].name, xs[|xs| - 1].name, x.name);
        }
      }
    } else {
      var init, last := xs[..|xs| - 1], xs[|xs| - 1];
      assert xs == init + [last];
      InsertSorted(init, x);
      AtMostTotal(x.name, last.name);
      var r := InsertByName(init, x);
      forall i | 0 <= i < |r| ensures AtMost(r[i].name, last.name) {
        assert r[i] in r;
      }
    }
  }

  lemma {:induction false} SortSorted(xs: seq<Rule>)
    ensures Sorted(SortByName(xs))
  {
    if xs != [] {
      SortSorted(xs[..|xs| - 1]);
      InsertSorted(SortByName(xs[..|xs| - 1]), xs[|xs| - 1]);
    }
  }

  lemma {:induction false} NamedMember(xs: seq<Rule>, x: Rule)
    ensures x in Named(xs, x.name) <==> x in xs
  {
    if xs != [] {
      var init, last := xs[..|xs| - 1], xs[|xs| - 1];
      NamedMember(init, x);
      assert xs == init + [last];
    }
  }

  lemma NothingNamed(xs: seq<Rule>, ys: seq<Rule>)
    requires SameNamed(xs, ys)
    ensures xs == [] ==> ys == []
  {
    if ys != [] {
      NamedMember(ys, ys[0]);
    }
  }

  // Two sorted lists with the same rules under every name are the same list.
  lemma {:induction false} SortedUnique(xs: seq<Rule>, ys: seq<Rule>)
    requires Sorted(xs) && Sorted(ys)
    requires SameNamed(xs, ys)
    ensures xs == ys
  {
    NothingNamed(xs, ys);
    NothingNamed(ys, xs);
    if xs != [] {
      var xi, x, yi, y := xs[..|xs| - 1], xs[|xs| - 1], ys[..|ys| - 1], ys[|ys| - 1];
      SameLast(xs, ys);
      forall n ensures Named(xi, n) == Named(yi, n) {
        assert Named(xs, n) == Named(ys, n);
        if x.name == n {
          assert Named(xi, n) == Named(xs, n)[..|Named(xs, n)| - 1];
          assert Named(yi, n) == Named(ys, n)[..|Named(ys, n)| - 1];
        }
      }
      SortedUnique(xi, yi);
      assert xs == xi + [x] && ys == yi + [y];
    }
  }

  lemma SameLast(xs: seq<Rule>, ys: seq<Rule>)
    requires xs != [] && ys != [] && Sorted(xs) && Sorted(ys)
    requires SameNamed(xs, ys)
    ensures xs[|xs| - 1] == ys[|ys| - 1]
  {
    var x, y := xs[|xs| - 1], ys[|ys| - 1];
    NamedMember(xs, x);
    NamedMember(ys, x);
    NamedMember(xs, y);
    NamedMember(ys, y);
    assert Named(xs, x.name) == Named(ys, x.name) && Named(xs, y.name) == Named(ys, y.name);
    assert AtMost(x.name, y.name) by { LastIsGreatest(ys, x); }
    assert AtMost(y.name, x.name) by { LastIsGreatest(xs, y); }
    AtMostTotal(x.name, y.name);
    assert Last(Named(xs, x.name)) == Some(x) && Last(Named(ys, y.name)) == Some(y);
  }

  lemma LastIsGreatest(ys: seq<Rule>, x: Rule)
    requires Sorted(ys) && x in ys
    ensures AtMost(x.name, ys[|ys| - 1].name)
  {
    var i :| 0 <= i < |ys| && ys[i] == x;
    CompareEqual(x.name, x.name);
  }

  // The exact meaning of equal canonical forms: equal metadata, and under every rule name the
  // same rules in the same order. Only the order between differently named rules is forgotten.
  lemma CanonicalIff(a: Ruleset, b: Ruleset)
    ensures Canonical(a) == Canonical(b) <==>
            && a.rulesetName == b.rulesetName && a.version == b.version && a.robotOwner == b.robotOwner
            && SameNamed(a.rules, b.rules)
  {
    var sa, sb := SortByName(a.rules), SortByName(b.rules);
    forall n ensures Named(sa, n) == Named(a.rules, n) && Named(sb, n) == Named(b.rules, n) {
      SortKeepsNamed(a.rules, n);
      SortKeepsNamed(b.rules, n);
    }
    SortSorted(a.rules);
    SortSorted(b.rules);
    assert Canonical(a).rules == sa && Canonical(b).rules == sb;
    if SameNamed(a.rules, b.rules) {
      SortedUnique(sa, sb);
    }
    if sa == sb {
      forall n ensures Named(a.rules, n) == Named(b.rules, n) {
        assert Named(sa, n) == Named(sb, n);
      }
    }
  }

  ghost predicate DistinctNames(xs: seq<Rule>) {
    forall i, j :: 0 <= i < j < |xs| ==> xs[i].name != xs[j].name
  }

  lemma {:induction false} NamedDistinct(xs: seq<Rule>, n: string)
    requires DistinctNames(xs)
    ensures |Named(xs, n)| <= 1
    ensures forall x :: x in Named(xs, n) <==> x in xs && x.name == n
  {
    if xs != [] {
      var init, last := xs[..|xs| - 1], xs[|xs| - 1];
      NamedDistinct(init, n);
      assert xs == init + [last];
      assert forall x :: x in init ==> x.name != last.name;
      assert Named(init, n) != [] ==> Named(init, n)[0] in Named(init, n);
    }
  }

  // Reordering distinctly named rules never changes the canonical form.
  lemma ReorderingIsCanonical(a: Ruleset, b: Ruleset)
    requires b == a.(rules := b.rules)
    requires multiset(a.rules) == multiset(b.rules) && DistinctNames(a.rules) && DistinctNames(b.rules)
    ensures Canonical(a) == Canonical(b)
  {
    forall n ensures Named(a.rules, n) == Named(b.rules, n) {
      NamedDistinct(a.rules, n);
      NamedDistinct(b.rules, n);
      SameMembers(a.rules, b.rules);
      var x, y := Named(a.rules, n), Named(b.rules, n);
      assert x != [] ==> x[0] in y;
      assert y != [] ==> y[0] in x;
    }
    CanonicalIff(a, b);
  }

  lemma SameMembers(xs: seq<Rule>, ys: seq<Rule>)
    requires multiset(xs) == multiset(ys)
    ensures forall x :: x in xs <==> x in ys
  {
    assert forall x :: x in xs <==> x in multiset(xs);
    assert forall x :: x in ys <==> x in multiset(ys);
  }

  // A rule's place among those of its name is the number of them before it.
  lemma {:induction false} NamedAt(xs: seq<Rule>, i: nat)
    requires i < |xs|
    ensures var before, named := Named(xs[..i], xs[i].name), Named(xs, xs[i].name);
            |before| < |named| && named[|before|] == xs[i]
  {
    if i < |xs| - 1 {
      NamedAt(xs[..|xs| - 1], i);
      assert xs[..|xs| - 1][..i] == xs[..i];
    }
  }

  // Swapping two different rules of one name, wherever they stand, does change it.
  lemma DuplicateNamesKeepOrder(a: Ruleset, i: nat, j: nat)
    requires i < j < |a.rules| && a.rules[i].name == a.rules[j].name && a.rules[i] != a.rules[j]
    ensures Canonical(a.(rules := a.rules[i := a.rules[j]][j := a.rules[i]])) != Canonical(a)
  {
    var swapped := a.rules[i := a.rules[j]][j := a.rules[i]];
    NamedAt(a.rules, i);
    NamedAt(swapped, i);
    assert swapped[..i] == a.rules[..i];
    CanonicalIff(a.(rules := swapped), a);
  }

  // `canonical_ruleset`: the sort runs on a copy.
  method CanonicalRuleset(rs: Ruleset) returns (c: Ruleset)
    ensures c == Canonical(rs)
  {
    var sorted: seq<Rule> := [];
    for i := 0 to |rs.rules|
      invariant sorted == SortByName(rs.rules[..i])
    {
      assert rs.rules[..i + 1][..i] == rs.rules[..i];
      sorted := InsertByName(sorted, rs.rules[i]);
    }
    assert rs.rules[..|rs.rules|] == rs.rules;
    c := rs.(rules := sorted);
  }

  // --- The table and its log -----------------------------------------------------------------

  datatype Row = Row(owner: string, version: nat, sha: Digest)

  datatype Status = InsertedRow | UpdatedRow | RejectedRow

  datatype AuditRow = AuditRow(name: string, owner: string, version: nat, sha: Digest, status: Status, blob: Ruleset) {
    predicate Accepted() {
      status != RejectedRow
    }
  }

  datatype Db = Db(table: map<string, Row>, audit: seq<AuditRow>)

  datatype RegisterOutcome = Inserted | Updated(version: nat, sha: Digest) | RejectedConflict

  datatype RegistryError = BadName | DbError

  predicate NameOk(name: string) {
    && (forall c :: c in name ==> 'a' <= c <= 'z' || '0' <= c <= '9' || c == '-')
    && 0 < |name| <= 64
  }

  // Good names are built from single good characters up to a length of 64, so none is empty, has
  // a slash, or is a wildcard: each can stand as a topic segment.
  lemma NameOkMeans(name: string, c: char, more: string)
    ensures !NameOk("")
    ensures NameOk([c]) <==> c == '-' || '0' <= c <= '9' || 'a' <= c <= 'z'
    ensures name != "" && more != "" ==>
              (NameOk(name + more) <==> NameOk(name) && NameOk(more) && |name| + |more| <= 64)
    ensures NameOk(name) ==> SlashFree(name) && '*' !in name
  {
    assert c in [c] && forall d :: d in [c] ==> d == c;
    assert forall d :: d in name + more <==> d in name || d in more;
  }

  function AuditOf(rs: Ruleset, version: nat, status: Status): (r: AuditRow) {
    AuditRow(rs.rulesetName, rs.robotOwner, version, DigestOf(rs), status, Canonical(rs))
  }

  function Publish(db: Db, rs: Ruleset): (r: (Db, Result<RegisterOutcome, RegistryError>)) {
    var name, sha := rs.rulesetName, DigestOf(rs);
    if !NameOk(name) then (db, Failure(BadName))
    else if name !in db.table then
      (Db(db.table[name := Row(rs.robotOwner, 1, sha)], db.audit + [AuditOf(rs, 1, InsertedRow)]), Success(Inserted))
    else
      var row := db.table[name];
      if row.owner != rs.robotOwner then
        (db.(audit := db.audit + [AuditOf(rs, row.version, RejectedRow)]), Success(RejectedConflict))
      else if row.sha == sha then (db, Success(Updated(row.version, sha)))
      else
        (Db(db.table[name := Row(rs.robotOwner, row.version + 1, sha)],
            db.audit + [AuditOf(rs, row.version + 1, UpdatedRow)]),
         Success(Updated(row.version + 1, sha)))
  }

  class Registry {
    var table: map<string, Row>
    var audit: seq<AuditRow>

    function View(): (r: Db)
      reads this
    {
      Db(table, audit)
    }

    // `open`: the tables are created only if the database file does not have them.
    constructor (stored: Db)
      ensures View() == stored
    {
      table, audit := stored.table, stored.audit;
    }

    method PublishRuleset(rs: Ruleset) returns (r: Result<RegisterOutcome, RegistryError>)
      modifies this
      ensures (View(), r) == Publish(old(View()), rs)
    {
      if !NameOk(rs.rulesetName) {
        return Failure(BadName);
      }
      var canonical := CanonicalRuleset(rs);
      var sha := Sha256(canonical);
      match Lookup(table, rs.rulesetName)
      case None =>
        table := table[rs.rulesetName := Row(rs.robotOwner, 1, sha)];
        WriteAudit(rs, 1, sha, InsertedRow);
        r := Success(Inserted);
      case Some(existing) =>
        if existing.owner != rs.robotOwner {
          WriteAudit(rs, existing.version, sha, RejectedRow);
          return Success(RejectedConflict);
        }
        if existing.sha == sha {
          return Success(Updated(existing.version, sha));
        }
        table := table[rs.rulesetName := Row(rs.robotOwner, existing.version + 1, sha)];
        WriteAudit(rs, existing.version + 1, sha, UpdatedRow);
        r := Success(Updated(existing.version + 1, sha));
    }

    method WriteAudit(rs: Ruleset, version: nat, sha: Digest, status: Status)
      modifies this`audit
      ensures audit == old(audit) + [AuditRow(rs.rulesetName, rs.robotOwner, version, sha, status, Canonical(rs))]
    {
      var blob := CanonicalRuleset(rs);
      audit := audit + [AuditRow(rs.rulesetName, rs.robotOwner, version, sha, status, blob)];
    }
  }

  // --- Serial runs ---------------------------------------------------------------------------

  function PublishAll(pubs: seq<Ruleset>): (r: Db) {
    if pubs == [] then Db(map[], []) else Publish(PublishAll(pubs[..|pubs| - 1]), pubs[|pubs| - 1]).0
  }

  // Rebuild the table from the log: accepted rows are applied, rejected rows ignored.
  function Replay(audit: seq<AuditRow>): (r: map<string, Row>) {
    if audit == [] then map[]
    else
      var rest, a := Replay(audit[..|audit| - 1]), audit[|audit| - 1];
      if a.Accepted() then rest[a.name := Row(a.owner, a.version, a.sha)] else rest
  }

  function AcceptedRows(audit: seq<AuditRow>, name: string): (r: seq<AuditRow>) {
    if audit == [] then []
    else
      var rest, a := AcceptedRows(audit[..|audit| - 1], name), audit[|audit| - 1];
      if a.Accepted() && a.name == name then rest + [a] else rest
  }

  // All rows of a name, rejected ones included.
  function LogOf(audit: seq<AuditRow>, name: string): (rows: seq<AuditRow>) {
    if audit == [] then []
    else
      var rest, a := LogOf(audit[..|audit| - 1], name), audit[|audit| - 1];
      if a.name == name then rest + [a] else rest
  }

  lemma {:induction false} AcceptedOfLog(audit: seq<AuditRow>, name: string)
    ensures AcceptedRows(LogOf(audit, name), name) == AcceptedRows(audit, name)
  {
    if audit != [] {
      var init := audit[..|audit| - 1];
      AcceptedOfLog(init, name);
      assert (LogOf(init, name) + [audit[|audit| - 1]])[..|LogOf(init, name)|] == LogOf(init, name);
    }
  }

  // One owner, versions 1, 2, 3, ..., an insertion followed by updates, each a real change.
  ghost predicate ProperHistory(rows: seq<AuditRow>) {
    && (forall i :: 0 <= i < |rows| ==> rows[i].version == i + 1)
    && (forall i :: 0 <= i < |rows| ==> rows[i].owner == rows[0].owner)
    && (forall i :: 0 <= i < |rows| ==> rows[i].status == if i == 0 then InsertedRow else UpdatedRow)
    && (forall i :: 0 < i < |rows| ==> rows[i - 1].sha != rows[i].sha)
    && (forall i :: 0 <= i < |rows| ==> rows[i].sha == Sha256(rows[i].blob))
  }

  ghost predicate MatchesLog(db: Db, name: string) {
    var rows := AcceptedRows(db.audit, name);
    && ProperHistory(rows)
    && Lookup(db.table, name) ==
         match Last(rows)
         case Some(a) => Some(Row(a.owner, a.version, a.sha))
         case None => None
  }

  lemma ExtendHistory(rows: seq<AuditRow>, a: AuditRow)
    requires ProperHistory(rows)
    requires a.version == |rows| + 1 && a.sha == Sha256(a.blob)
    requires a.status == if rows == [] then InsertedRow else UpdatedRow
    requires rows != [] ==> a.owner == rows[0].owner && a.sha != rows[|rows| - 1].sha
    ensures ProperHistory(rows + [a])
  {
  }

  lemma PublishReplays(db: Db, rs: Ruleset)
    requires Replay(db.audit) == db.table
    ensures Replay(Publish(db, rs).0.audit) == Publish(db, rs).0.table
  {
  }

  // A publish appends at most one row to a name's accepted rows, and that row fits.
  lemma PublishRows(db: Db, rs: Ruleset, name: string)
    ensures var db' := Publish(db, rs).0; var rows := AcceptedRows(db.audit, name);
            if Lookup(db'.table, name) == Lookup(db.table, name) then AcceptedRows(db'.audit, name) == rows
            else
              var a := db'.audit[|db'.audit| - 1];
              && AcceptedRows(db'.audit, name) == rows + [a]
              && name == rs.rulesetName && a.sha == Sha256(a.blob)
              && Lookup(db'.table, name) == Some(Row(a.owner, a.version, a.sha))
              && match Lookup(db.table, name)
                 case None => a.version == 1 && a.status == InsertedRow
                 case Some(row) =>
                   && a.version == row.version + 1 && a.status == UpdatedRow
                   && a.owner == row.owner && a.sha != row.sha
  {
  }

  lemma PublishMatchesLog(db: Db, rs: Ruleset, name: string)
    requires MatchesLog(db, name)
    ensures MatchesLog(Publish(db, rs).0, name)
  {
    var db', rows := Publish(db, rs).0, AcceptedRows(db.audit, name);
    PublishRows(db, rs, name);
    if Lookup(db'.table, name) != Lookup(db.table, name) {
      ExtendHistory(rows, db'.audit[|db'.audit| - 1]);
    }
  }

  // After any serial sequence of publishes the table is the replay of the log, and every
  // name's accepted rows are a proper history ending in its table row.
  lemma {:induction false} RegistryIsItsLog(pubs: seq<Ruleset>, name: string)
    ensures Replay(PublishAll(pubs).audit) == PublishAll(pubs).table
    ensures MatchesLog(PublishAll(pubs), name)
  {
    if pubs != [] {
      var init := pubs[..|pubs| - 1];
      RegistryIsItsLog(init, name);
      PublishReplays(PublishAll(init), pubs[|pubs| - 1]);
      PublishMatchesLog(PublishAll(init), pubs[|pubs| - 1], name);
    }
  }

  // The first well-named publisher of a name.
  function FirstOwner(pubs: seq<Ruleset>, name: string): (owner: Option<string>)
    ensures owner.Some? ==> NameOk(name)
  {
    if pubs == [] then None
    else
      match FirstOwner(pubs[..|pubs| - 1], name)
      case Some(o) => Some(o)
      case None =>
        var rs := pubs[|pubs| - 1];
        if rs.rulesetName == name && NameOk(name) then Some(rs.robotOwner) else None
  }

  // Ownership is decided by the first well-named publish and never changes hands.
  lemma {:induction false} OwnerIsFirstPublisher(pubs: seq<Ruleset>, name: string)
    ensures match FirstOwner(pubs, name)
            case Some(o) => name in PublishAll(pubs).table && PublishAll(pubs).table[name].owner == o
            case None => name !in PublishAll(pubs).table
  {
    if pubs != [] {
      OwnerIsFirstPublisher(pubs[..|pubs| - 1], name);
    }
  }

  // Acceptance of a publish, read off the history alone; what is not accepted leaves the
  // table as it was, and an equal canonical form leaves the log as it was too.
  lemma AcceptanceByHistory(pubs: seq<Ruleset>, rs: Ruleset)
    ensures var (db, r) := Publish(PublishAll(pubs), rs);
            var accepted := r.Success? && r.value != RejectedConflict;
            && (accepted <==> NameOk(rs.rulesetName) && FirstOwner(pubs, rs.rulesetName) in {None, Some(rs.robotOwner)})
            && (accepted ==> rs.rulesetName in db.table && db.table[rs.rulesetName].sha == DigestOf(rs))
            && (!accepted ==> db.table == PublishAll(pubs).table)
  {
    OwnerIsFirstPublisher(pubs, rs.rulesetName);
  }

  // The publishes of `name` by `owner`, in order.
  function ByOwner(pubs: seq<Ruleset>, name: string, owner: string): (xs: seq<Ruleset>) {
    if pubs == [] then []
    else
      var xs, rs := ByOwner(pubs[..|pubs| - 1], name, owner), pubs[|pubs| - 1];
      if rs.rulesetName == name && rs.robotOwner == owner then xs + [rs] else xs
  }

  // How often the canonical form changes along a list, its first appearance included.
  function Changes(xs: seq<Ruleset>): (n: nat) {
    if xs == [] then 0
    else
      var init, last := xs[..|xs| - 1], xs[|xs| - 1];
      Changes(init) + if init == [] || Canonical(init[|init| - 1]) != Canonical(last) then 1 else 0
  }

  lemma ChangesSnoc(xs: seq<Ruleset>, rs: Ruleset)
    ensures Changes(xs + [rs]) ==
            Changes(xs) + if xs == [] || Canonical(xs[|xs| - 1]) != Canonical(rs) then 1 else 0
  {
    assert (xs + [rs])[..|xs|] == xs;
  }

  lemma {:induction false} NoOwnerNoRow(pubs: seq<Ruleset>, name: string)
    requires FirstOwner(pubs, name).None? && NameOk(name)
    ensures forall owner :: ByOwner(pubs, name, owner) == []
  {
    if pubs != [] {
      NoOwnerNoRow(pubs[..|pubs| - 1], name);
    }
  }

  // The row of an owner's publishes: the last one, at the version that counts their changes.
  function RowOf(owner: string, xs: seq<Ruleset>): (row: Option<Row>) {
    if xs == [] then None else Some(Row(owner, Changes(xs), DigestOf(xs[|xs| - 1])))
  }

  lemma PublishRow(db: Db, rs: Ruleset, owner: string, xs: seq<Ruleset>)
    requires NameOk(rs.rulesetName) && Lookup(db.table, rs.rulesetName) == RowOf(owner, xs)
    requires xs == [] ==> owner == rs.robotOwner
    ensures Lookup(Publish(db, rs).0.table, rs.rulesetName) ==
            RowOf(owner, if owner == rs.robotOwner then xs + [rs] else xs)
  {
    ChangesSnoc(xs, rs);
  }

  // The row of a name is determined by its first owner's publishes; claims of others leave no
  // trace in it.
  lemma {:induction false} RowByHistory(pubs: seq<Ruleset>, name: string)
    ensures match FirstOwner(pubs, name)
            case None => name !in PublishAll(pubs).table
            case Some(owner) =>
              var xs := ByOwner(pubs, name, owner);
              xs != [] && Lookup(PublishAll(pubs).table, name) == RowOf(owner, xs)
  {
    if pubs != [] {
      var init, rs := pubs[..|pubs| - 1], pubs[|pubs| - 1];
      RowByHistory(init, name);
      if rs.rulesetName == name && NameOk(name) {
        match FirstOwner(init, name)
        case None =>
          NoOwnerNoRow(init, name);
          PublishRow(PublishAll(init), rs, rs.robotOwner, []);
        case Some(owner) => PublishRow(PublishAll(init), rs, owner, ByOwner(init, name, owner));
      }
    }
  }

  // What the caller of the next publish is told, and what is logged for it, from the history.
  function Answer(pubs: seq<Ruleset>, rs: Ruleset): (r: Result<RegisterOutcome, RegistryError>) {
    var name := rs.rulesetName;
    if !NameOk(name) then Failure(BadName)
    else
      match FirstOwner(pubs, name)
      case None => Success(Inserted)
      case Some(owner) =>
        if owner != rs.robotOwner then Success(RejectedConflict)
        else Success(Updated(Changes(ByOwner(pubs, name, owner) + [rs]), DigestOf(rs)))
  }

  function Logged(pubs: seq<Ruleset>, rs: Ruleset): (rows: seq<AuditRow>) {
    var name := rs.rulesetName;
    if !NameOk(name) then []
    else
      match FirstOwner(pubs, name)
      case None => [AuditOf(rs, 1, InsertedRow)]
      case Some(owner) =>
        var xs := ByOwner(pubs, name, owner);
        if owner != rs.robotOwner then [AuditOf(rs, Changes(xs), RejectedRow)]
        else if Changes(xs + [rs]) == Changes(xs) then []
        else [AuditOf(rs, Changes(xs + [rs]), UpdatedRow)]
  }

  function LogOfPublishes(pubs: seq<Ruleset>): (rows: seq<AuditRow>) {
    if pubs == [] then []
    else LogOfPublishes(pubs[..|pubs| - 1]) + Logged(pubs[..|pubs| - 1], pubs[|pubs| - 1])
  }

  lemma NextByHistory(pubs: seq<Ruleset>, rs: Ruleset)
    ensures var (db, r) := Publish(PublishAll(pubs), rs);
            r == Answer(pubs, rs) && db.audit == PublishAll(pubs).audit + Logged(pubs, rs)
  {
    var name := rs.rulesetName;
    RowByHistory(pubs, name);
    if FirstOwner(pubs, name).Some? {
      ChangesSnoc(ByOwner(pubs, name, FirstOwner(pubs, name).value), rs);
    }
  }

  // After any history the next caller is told the outcome that the history of publishes alone
  // determines, and the log is, row for row, what that history determines.
  lemma {:induction false} OutcomeAndLogByHistory(pubs: seq<Ruleset>, rs: Ruleset)
    ensures Publish(PublishAll(pubs), rs).1 == Answer(pubs, rs)
    ensures PublishAll(pubs).audit == LogOfPublishes(pubs)
  {
    NextByHistory(pubs, rs);
    if pubs != [] {
      OutcomeAndLogByHistory(pubs[..|pubs| - 1], pubs[|pubs| - 1]);
      NextByHistory(pubs[..|pubs| - 1], pubs[|pubs| - 1]);
    }
  }

  // Who published what, as an audit row tells it.
  ghost predicate Tells(a: AuditRow, rs: Ruleset) {
    && a.name == rs.rulesetName && a.owner == rs.robotOwner
    && a.blob == rs.(rules := SortByName(rs.rules)) && a.sha == Sha256(a.blob)
  }

  // Every audit row, of a rejected claim too, names the publisher and holds the canonical form of
  // one of the publishes.
  lemma {:induction false} AuditTellsPublish(pubs: seq<Ruleset>, a: AuditRow) returns (i: nat)
    requires a in PublishAll(pubs).audit
    ensures i < |pubs| && Tells(a, pubs[i])
  {
    var init := pubs[..|pubs| - 1];
    if a in PublishAll(init).audit {
      i := AuditTellsPublish(init, a);
    } else {
      i := |pubs| - 1;
    }
  }

  // Pushing again a ruleset with the same canonical form as the registered one changes nothing.
  lemma RepushIsSilent(db: Db, a: Ruleset, b: Ruleset)
    requires NameOk(a.rulesetName) && a.rulesetName in db.table
    requires db.table[a.rulesetName].owner == a.robotOwner && db.table[a.rulesetName].sha == DigestOf(a)
    requires Canonical(a) == Canonical(b)
    ensures Publish(db, b) == (db, Success(Updated(db.table[a.rulesetName].version, DigestOf(a))))
  {
  }
}
