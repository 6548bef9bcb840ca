// The hot-reload loop (src/config.rs): pushes are parsed, registered and swapped in; whatever
// is not accepted keeps the last good rules.
module HotReload {
  import opened Wrappers
  import opened RuleTypes
  import opened Registry

  // A pushed sample, as the two parsers see its text.
  datatype Push = Push(asRuleset: Option<Ruleset>, asRules: Option<Rules>)

  // `ActiveRules`: the value behind the lock and the value held by the watch channel.
  class ActiveRules {
    var inner: RulesArc
    var watched: RulesArc

    ghost predicate Valid()
      reads this
    {
      inner == watched
    }

    constructor (rules: RulesArc)
      ensures Valid() && inner == rules
    {
      inner, watched := rules, rules;
    }

    method Current() returns (rules: RulesArc)
      ensures rules == inner
    {
      rules := inner;
    }

    method Swap(rules: RulesArc)
      modifies this
      ensures Valid() && inner == rules
    {
      inner := rules;
      watched := rules;
    }

    method Subscribe() returns (rules: RulesArc)
      requires Valid()
      ensures rules == inner
    {
      rules := watched;
    }
  }

  // What one push does to the registry (if there is one) and to the active rules: the new
  // rules when it is accepted, nothing otherwise.
  function Reload(policy: Option<Db>, p: Push): (r: (Option<Db>, Option<Rules>)) {
    match policy
    case None => (None, p.asRules)
    case Some(db) =>
      match p.asRuleset
      case None => (policy, None)
      case Some(rs) =>
        var (db', r) := Publish(db, rs);
        (Some(db'), if r.Success? && r.value != RejectedConflict then Some(Rules(rs.rules)) else None)
  }

  class HotReload {
    const store: ActiveRules
    const policy: Registry?

    constructor (store: ActiveRules, policy: Registry?)
      ensures this.store == store && this.policy == policy
    {
      this.store, this.policy := store, policy;
    }

    function Policy(): (r: Option<Db>)
      reads if policy == null then {} else {policy}
    {
      if policy == null then None else Some(policy.View())
    }

    // One iteration of `run`. Every accepted push installs a newly allocated ruleset, even
    // one equal to the current rules.
    method Handle(p: Push)
      requires store.Valid()
      modifies store, if policy == null then {} else {policy}
      ensures store.Valid()
      ensures Policy() == Reload(old(Policy()), p).0
      ensures match Reload(old(Policy()), p).1
              case Some(rules) => fresh(store.inner) && store.inner.rules == rules
              case None => store.inner == old(store.inner)
    {
      if policy != null {
        if p.asRuleset.Some? {
          var rs := p.asRuleset.value;
          var outcome := policy.PublishRuleset(rs);
          if outcome.Success? && outcome.value != RejectedConflict {
            var arc := new RulesArc(Rules(rs.rules));
            store.Swap(arc);
          }
        }
      } else if p.asRules.Some? {
        var arc := new RulesArc(p.asRules.value);
        store.Swap(arc);
      }
    }

    // The loop, over the samples received before the subscription closes.
    method Run(pushes: seq<Push>)
      requires store.Valid()
      modifies store, if policy == null then {} else {policy}
      ensures store.Valid()
      ensures (Policy(), store.inner.rules) == ReloadAll(old(Policy()), old(store.inner.rules), pushes)
    {
      ghost var policy0, rules0 := Policy(), store.inner.rules;
      for i := 0 to |pushes|
        invariant store.Valid()
        invariant (Policy(), store.inner.rules) == ReloadAll(policy0, rules0, pushes[..i])
      {
        assert pushes[..i + 1][..i] == pushes[..i];
        Handle(pushes[i]);
      }
      assert pushes[..|pushes|] == pushes;
    }
  }

  function ReloadAll(policy: Option<Db>, bootstrap: Rules, pushes: seq<Push>): (r: (Option<Db>, Rules)) {
    if pushes == [] then (policy, bootstrap)
    else
      var (db, rules) := ReloadAll(policy, bootstrap, pushes[..|pushes| - 1]);
      var (db', accepted) := Reload(db, pushes[|pushes| - 1]);
      (db', if accepted.Some? then accepted.value else rules)
  }

  // --- Last good rules, by history alone ---------------------------------------------------

  // The rulesets among the pushes, in order: what the registry is asked to publish.
  function Published(pushes: seq<Push>): (r: seq<Ruleset>) {
    if pushes == [] then []
    else
      var p := pushes[|pushes| - 1];
      Published(pushes[..|pushes| - 1]) + if p.asRuleset.Some? then [p.asRuleset.value] else []
  }

  // A push is good when it parses, is well named, and its owner is the first to have published
  // that name: in an earlier life of the database (`prior`) or since the server started.
  predicate Good(prior: seq<Ruleset>, before: seq<Push>, p: Push) {
    && p.asRuleset.Some?
    && var rs := p.asRuleset.value;
       NameOk(rs.rulesetName) && FirstOwner(prior + Published(before), rs.rulesetName) in {None, Some(rs.robotOwner)}
  }

  function LastGood(prior: seq<Ruleset>, pushes: seq<Push>): (last: Option<Ruleset>) {
    if pushes == [] then None
    else
      var init, p := pushes[..|pushes| - 1], pushes[|pushes| - 1];
      if Good(prior, init, p) then p.asRuleset else LastGood(prior, init)
  }

  // The registry is the one that publishing the parsable pushes after the earlier publishes gives.
  lemma {:induction false} RegistrySeesPublished(prior: seq<Ruleset>, bootstrap: Rules, pushes: seq<Push>)
    ensures ReloadAll(Some(PublishAll(prior)), bootstrap, pushes).0 == Some(PublishAll(prior + Published(pushes)))
  {
    if pushes == [] {
      assert prior + Published(pushes) == prior;
    } else {
      var init, p := pushes[..|pushes| - 1], pushes[|pushes| - 1];
      RegistrySeesPublished(prior, bootstrap, init);
      if p.asRuleset.Some? {
        var pubs := prior + Published(init);
        assert prior + Published(pushes) == pubs + [p.asRuleset.value];
        assert (pubs + [p.asRuleset.value])[..|pubs|] == pubs;
      } else {
        assert Published(pushes) == Published(init);
      }
    }
  }

  // After any stream of pushes to a server on any database left by earlier publishes, the active
  // rules are those of the most recent good push (or the bootstrap), and the registry holds
  // exactly that push's owner and canonical digest under its name.
  lemma {:induction false} LastGoodIsActive(prior: seq<Ruleset>, bootstrap: Rules, pushes: seq<Push>)
    ensures var (db, rules) := ReloadAll(Some(PublishAll(prior)), bootstrap, pushes);
            && db == Some(PublishAll(prior + Published(pushes)))
            && match LastGood(prior, pushes)
               case None => rules == bootstrap
               case Some(rs) =>
                 && rules == Rules(rs.rules)
                 && rs.rulesetName in db.value.table
                 && db.value.table[rs.rulesetName].owner == rs.robotOwner
                 && db.value.table[rs.rulesetName].sha == DigestOf(rs)
  {
    RegistrySeesPublished(prior, bootstrap, pushes);
    if pushes != [] {
      var init, p := pushes[..|pushes| - 1], pushes[|pushes| - 1];
      RegistrySeesPublished(prior, bootstrap, init);
      LastGoodIsActive(prior, bootstrap, init);
      if p.asRuleset.Some? {
        AcceptanceByHistory(prior + Published(init), p.asRuleset.value);
        OwnerIsFirstPublisher(prior + Published(init), p.asRuleset.value.rulesetName);
      }
    }
  }

  // The last push that parses as rules.
  function LastParsed(pushes: seq<Push>): (r: Option<Rules>) {
    if pushes == [] then None
    else if pushes[|pushes| - 1].asRules.Some? then pushes[|pushes| - 1].asRules
    else LastParsed(pushes[..|pushes| - 1])
  }

  // Without a registry, as on a robot, the active rules are those of the last push that parses as
  // rules, or the bootstrap; names and owners play no part.
  lemma {:induction false} LastParsedIsActive(bootstrap: Rules, pushes: seq<Push>)
    ensures ReloadAll(None, bootstrap, pushes) ==
            (None, if LastParsed(pushes).Some? then LastParsed(pushes).value else bootstrap)
  {
    if pushes != [] {
      LastParsedIsActive(bootstrap, pushes[..|pushes| - 1]);
    }
  }
}
