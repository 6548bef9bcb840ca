// `compile` (src/semantic.rs): from a manifest to runtime `Rules`, with its exact
// acceptance condition and what an accepted manifest is compiled to.
module Compiler {
  import opened Wrappers
  import opened Strings
  import opened RuleTypes
  import opened Semantic
  import opened Lowering
  import opened Validation
  import Topic

  predicate RawTopicValid(a: SemanticAction) {
    a.topic.Some? ==> Topic.TryNewTopic(a.topic.value).Success?
  }

  // What can still fail for a rule that passed validation. No robot id is involved.
  function RuleError(rule: SemanticRule): (r: Option<ErrorCode>) {
    if !Representable(rule.when) then Some(UnrepresentableNesting)
    else if exists a :: a in rule.actions && !RawTopicValid(a) then Some(InvalidTopic)
    else None
  }

  function RulesError(rules: seq<SemanticRule>): (r: Option<ErrorCode>) {
    if rules == [] then None
    else
      match RuleError(rules[0])
      case Some(e) => Some(e)
      case None => RulesError(rules[1..])
  }

  function CompileError(doc: RulesManifest): (r: Option<ErrorCode>) {
    match ValidateError(doc.rules, doc.zones)
    case Some(e) => Some(e)
    case None => if doc.siteId == "" then Some(MissingField) else RulesError(doc.rules)
  }

  predicate ActionsValid(acts: seq<SemanticAction>) {
    forall i :: 0 <= i < |acts| ==> ActionError(acts[i]).None? && RawTopicValid(acts[i])
  }

  function CompiledActions(acts: seq<SemanticAction>, robotId: Id): (r: seq<Action>)
    requires ActionsValid(acts)
    ensures |r| == |acts| && forall i :: 0 <= i < |acts| ==> r[i] == CompiledAction(acts[i], robotId)
  {
    seq(|acts|, i requires 0 <= i < |acts| && ActionsValid(acts) => CompiledAction(acts[i], robotId))
  }

  function CompiledAction(a: SemanticAction, robotId: Id): (r: Action)
    requires ActionError(a).None? && RawTopicValid(a)
  {
    OneVerb(a);
    CompileAction(SpecOf(a), a.qos, robotId).value
  }

  lemma OneVerb(a: SemanticAction)
    requires ActionError(a).None?
    ensures SpecOf(a).Raw? ==> a.topic == Some(SpecOf(a).topic)
    ensures a.topic.Some? ==> SpecOf(a).Raw?
  {
  }

  function CompiledWhen(w: SemanticWhen, robotId: Id): (r: When) {
    var e := ExprOf(w, robotId);
    When(AndTriggers(e), OrTriggers(e))
  }

  function CompiledRule(rule: SemanticRule, robotId: Id): (r: Rule)
    requires ActionsValid(rule.actions)
  {
    Rule(rule.name, CompiledWhen(rule.when, robotId), CompiledActions(rule.actions, robotId))
  }

  ghost predicate AllActionsValid(rules: seq<SemanticRule>) {
    forall r :: r in rules ==> ActionsValid(r.actions)
  }

  ghost function CompiledRules(rules: seq<SemanticRule>, robotId: Id): (r: seq<Rule>)
    requires AllActionsValid(rules)
    ensures |r| == |rules| && forall i :: 0 <= i < |rules| ==> r[i] == CompiledRule(rules[i], robotId)
  {
    if rules == [] then []
    else
      var n := |rules| - 1;
      CompiledRules(rules[..n], robotId) + [CompiledRule(rules[n], robotId)]
  }

  // What validation guarantees of each rule.
  ghost predicate RuleValid(rule: SemanticRule, zones: set<string>) {
    && (forall i :: 0 <= i < |rule.actions| ==> ActionError(rule.actions[i]).None?)
    && WhenError(rule.when, zones).None?
  }

  lemma {:induction false} ActionsErrorNone(acts: seq<SemanticAction>)
    ensures ActionsError(acts).None? <==> forall i :: 0 <= i < |acts| ==> ActionError(acts[i]).None?
  {
    if acts != [] {
      ActionsErrorNone(acts[1..]);
      assert forall i :: 0 < i < |acts| ==> acts[i] == acts[1..][i - 1];
      assert acts == [acts[0]] + acts[1..];
    }
  }

  lemma {:induction false} ValidateErrorNone(rules: seq<SemanticRule>, zones: set<string>)
    ensures ValidateError(rules, zones).None? <==> forall r :: r in rules ==> RuleValid(r, zones)
  {
    if rules != [] {
      ActionsErrorNone(rules[0].actions);
      ValidateErrorNone(rules[1..], zones);
      assert forall r :: r in rules <==> r == rules[0] || r in rules[1..];
      assert ValidateError(rules, zones).None? <==>
             RuleValid(rules[0], zones) && ValidateError(rules[1..], zones).None?;
    }
  }

  lemma {:induction false} RulesErrorNone(rules: seq<SemanticRule>)
    ensures RulesError(rules).None? <==> forall r :: r in rules ==> RuleError(r).None?
    ensures RulesError(rules).Some? ==> RulesError(rules).value in {UnrepresentableNesting, InvalidTopic}
  {
    if rules != [] {
      RulesErrorNone(rules[1..]);
      assert rules == [rules[0]] + rules[1..];
    }
  }

  // Exactly which manifests compile, for every robot id alike: valid ones with a site id,
  // whose guards are representable and whose raw action topics are well formed.
  lemma CompileAcceptance(doc: RulesManifest)
    ensures CompileError(doc).None? <==>
            && doc.siteId != ""
            && forall r :: r in doc.rules ==>
                 RuleOk(r, doc.zones) && Representable(r.when) && forall a :: a in r.actions ==> RawTopicValid(a)
    ensures CompileError(doc).None? ==> forall r :: r in doc.rules ==> RuleValid(r, doc.zones)
  {
    ValidateErrorNone(doc.rules, doc.zones);
    RulesErrorNone(doc.rules);
    forall r ensures RuleValid(r, doc.zones) <==> RuleOk(r, doc.zones) {
      RuleReportsFault(r, doc.zones);
      ActionsErrorNone(r.actions);
    }
    assert forall r :: RuleError(r).None? <==> Representable(r.when) && forall a :: a in r.actions ==> RawTopicValid(a);
  }

  // After validation the only failures left are these three, in this order of precedence.
  lemma FailuresAfterValidation(doc: RulesManifest)
    requires ValidateError(doc.rules, doc.zones).None?
    ensures CompileError(doc) == Some(MissingField) <==> doc.siteId == ""
    ensures CompileError(doc).Some? ==> CompileError(doc).value in {MissingField, UnrepresentableNesting, InvalidTopic}
    ensures CompileError(doc) == Some(UnrepresentableNesting) ==>
              exists r :: r in doc.rules && !Representable(r.when)
    ensures CompileError(doc) == Some(InvalidTopic) ==>
              exists r, a :: r in doc.rules && a in r.actions && !RawTopicValid(a)
    ensures doc.siteId != "" && CompileError(doc).Some? ==>
              exists i :: 0 <= i < |doc.rules| && FailsAt(doc.rules, i, CompileError(doc).value)
  {
    RulesErrorNone(doc.rules);
    if doc.siteId != "" && RulesError(doc.rules).Some? {
      var i := FirstBadRule(doc.rules);
      assert doc.rules[i] in doc.rules;
    }
  }

  // What `compile` reports: the first fault of validation; failing that the missing site id; failing
  // that the first rule that cannot be lowered or has an invalid raw topic.
  lemma CompileReportsFirstFault(doc: RulesManifest, e: ErrorCode)
    requires CompileError(doc) == Some(e)
    ensures if exists i :: 0 <= i < |doc.rules| && !RuleOk(doc.rules[i], doc.zones)
            then FirstRuleFault(doc.rules, doc.zones, e)
            else if doc.siteId == "" then e == MissingField
            else exists i :: 0 <= i < |doc.rules| && FailsAt(doc.rules, i, e)
  {
    ValidateReportsFirstFault(doc.rules, doc.zones);
    if ValidateError(doc.rules, doc.zones).None? {
      FailuresAfterValidation(doc);
    }
  }

  // The first rule that fails: an earlier one lowers and has valid raw topics; its own guard is
  // looked at before its topics.
  ghost predicate FailsAt(rules: seq<SemanticRule>, i: nat, e: ErrorCode)
    requires i < |rules|
  {
    && (forall m :: 0 <= m < i ==> Lowers(rules[m]))
    && match e
       case UnrepresentableNesting => !Representable(rules[i].when)
       case InvalidTopic => Representable(rules[i].when) && exists a :: a in rules[i].actions && !RawTopicValid(a)
       case _ => false
  }

  ghost predicate Lowers(rule: SemanticRule) {
    Representable(rule.when) && forall a :: a in rule.actions ==> RawTopicValid(a)
  }

  lemma {:induction false} FirstBadRule(rules: seq<SemanticRule>) returns (i: nat)
    requires RulesError(rules).Some?
    ensures i < |rules| && FailsAt(rules, i, RulesError(rules).value)
  {
    if RuleError(rules[0]).Some? {
      i := 0;
    } else {
      var j := FirstBadRule(rules[1..]);
      i := j + 1;
      assert forall m :: 0 < m <= i ==> rules[m] == rules[1..][m - 1];
    }
  }

  // One step of the action loop: the second look at the verbs cannot fail after validation.
  method CompileOne(a: SemanticAction, robotId: Id) returns (r: Result<Action, ErrorCode>)
    requires ActionError(a).None?
    ensures r == if RawTopicValid(a) then Success(CompiledAction(a, robotId)) else Failure(InvalidTopic)
  {
    OneVerb(a);
    var spec := TryFromAction(a);
    r := CompileAction(spec.value, a.qos, robotId);
  }

  lemma ActionsStep(acts: seq<SemanticAction>, i: nat, robotId: Id)
    requires i < |acts| && ActionsValid(acts[..i]) && ActionError(acts[i]).None? && RawTopicValid(acts[i])
    ensures ActionsValid(acts[..i + 1])
    ensures CompiledActions(acts[..i + 1], robotId) ==
            CompiledActions(acts[..i], robotId) + [CompiledAction(acts[i], robotId)]
  {
    assert acts[..i + 1][..i] == acts[..i];
  }

  method CompileActions(acts: seq<SemanticAction>, robotId: Id) returns (r: Result<seq<Action>, ErrorCode>)
    requires forall i :: 0 <= i < |acts| ==> ActionError(acts[i]).None?
    ensures r.Success? <==> forall a :: a in acts ==> RawTopicValid(a)
    ensures r.Success? ==> ActionsValid(acts) && r.value == CompiledActions(acts, robotId)
    ensures r.Failure? ==> r.error == InvalidTopic
  {
    var out: seq<Action> := [];
    for i := 0 to |acts|
      invariant ActionsValid(acts[..i])
      invariant out == CompiledActions(acts[..i], robotId)
    {
      var action :- CompileOne(acts[i], robotId);
      ActionsStep(acts, i, robotId);
      out := out + [action];
    }
    assert acts[..|acts|] == acts;
    r := Success(out);
  }

  lemma RulesStep(rules: seq<SemanticRule>, i: nat, robotId: Id)
    requires i < |rules| && AllActionsValid(rules[..i]) && ActionsValid(rules[i].actions)
    ensures AllActionsValid(rules[..i + 1])
    ensures CompiledRules(rules[..i + 1], robotId) == CompiledRules(rules[..i], robotId) +
        [CompiledRule(rules[i], robotId)]
  {
    assert rules[..i + 1][..i] == rules[..i];
    assert forall r :: r in rules[..i + 1] <==> r in rules[..i] || r == rules[i];
  }

  // --- What a compiled rule publishes -----------------------------------------------------

  // Where each authored verb goes and what it carries: a stop to the whole fleet and a resume to
  // the robot's own drive, both reliably; a speed limit to the drive and a raw action to its own
  // topic, with the authored quality of service; a raw action without payload carries null.
  ghost predicate GoesWhereAuthored(a: SemanticAction, robotId: Id, c: Action) {
    && c.topic == (if a.estop then Topic.StopCmd("fleet")
                   else if a.topic.Some? then Topic.Canonicalize(a.topic.value)
                   else Topic.RobotLocal(robotId, "drive"))
    && c.qos == (if a.estop || a.resume then Reliable else a.qos)
    && (a.estop ==> c.payload == Object(map["stop" := Bool(true)]))
    && (a.resume ==> c.payload == Object(map["resume" := Bool(true)]))
    && (a.slowTo.Some? && a.slowTo.value.Finite? ==>
          c.payload == Object(map["speed_mps" := Number(RealNum(a.slowTo.value.r))]))
    && (a.topic.Some? ==> c.payload == if a.payload.Some? then a.payload.value else Null)
  }

  lemma ActionsGoWhereAuthored(a: SemanticAction, robotId: Id, c: Action)
    requires ActionError(a).None? && RawTopicValid(a) && c == CompiledAction(a, robotId)
    ensures GoesWhereAuthored(a, robotId, c)
  {
    VerbCount(a);
    OneVerb(a);
  }

  ghost predicate ActionsAsAuthored(acts: seq<SemanticAction>, robotId: Id, compiled: seq<Action>) {
    |compiled| == |acts| && forall j :: 0 <= j < |acts| ==> GoesWhereAuthored(acts[j], robotId, compiled[j])
  }

  // Every rule has its authored name, its own guard, and one action per authored action, in order.
  ghost predicate RulesAsAuthored(rules: seq<SemanticRule>, robotId: Id, compiled: seq<Rule>) {
    && |compiled| == |rules|
    && forall i :: 0 <= i < |rules| ==>
         && compiled[i].name == rules[i].name
         && compiled[i].when == CompiledWhen(rules[i].when, robotId)
         && ActionsAsAuthored(rules[i].actions, robotId, compiled[i].actions)
  }

  lemma CompiledActionsAsAuthored(acts: seq<SemanticAction>, robotId: Id, compiled: seq<Action>)
    requires ActionsValid(acts) && compiled == CompiledActions(acts, robotId)
    ensures ActionsAsAuthored(acts, robotId, compiled)
  {
    forall j | 0 <= j < |acts| ensures GoesWhereAuthored(acts[j], robotId, compiled[j]) {
      ActionsGoWhereAuthored(acts[j], robotId, compiled[j]);
    }
  }

  lemma CompiledAsAuthored(rules: seq<SemanticRule>, robotId: Id)
    requires AllActionsValid(rules)
    ensures RulesAsAuthored(rules, robotId, CompiledRules(rules, robotId))
  {
    forall i | 0 <= i < |rules|
      ensures ActionsAsAuthored(rules[i].actions, robotId, CompiledRules(rules, robotId)[i].actions)
    {
      CompiledActionsAsAuthored(rules[i].actions, robotId, CompiledRules(rules, robotId)[i].actions);
    }
  }

  // The loop body of `compile`: a validated rule fails on its guard before its actions.
  method CompileRule(rule: SemanticRule, robotId: Id, zones: set<string>) returns (r: Result<Rule, ErrorCode>)
    requires RuleValid(rule, zones)
    ensures r.Failure? ==> RuleError(rule) == Some(r.error)
    ensures r.Success? ==> RuleError(rule).None? && ActionsValid(rule.actions) && r.value == CompiledRule(rule, robotId)
    ensures r.Success? ==> r.value.name == rule.name && ActionsAsAuthored(rule.actions, robotId, r.value.actions)
  {
    AuthoredAcceptance(rule.when, robotId, zones);
    var expr := BuildWhenExpr(rule.when, robotId, zones);  // succeeds, as it did for "validation"
    var when :- Lower(expr.value);
    var actions :- CompileActions(rule.actions, robotId);
    CompiledActionsAsAuthored(rule.actions, robotId, actions);
    r := Success(Rule(rule.name, when, actions));
  }

  // The rule loop of `compile`.
  method CompileRules(rules: seq<SemanticRule>, robotId: Id, zones: set<string>)
    returns (r: Result<seq<Rule>, ErrorCode>)
    requires forall rule :: rule in rules ==> RuleValid(rule, zones)
    ensures r.Failure? <==> RulesError(rules).Some?
    ensures r.Failure? ==> RulesError(rules) == Some(r.error)
    ensures r.Success? ==> AllActionsValid(rules) && r.value == CompiledRules(rules, robotId)
  {
    var out: seq<Rule> := [];
    for i := 0 to |rules|
      invariant RulesError(rules) == RulesError(rules[i..])
      invariant AllActionsValid(rules[..i]) && out == CompiledRules(rules[..i], robotId)
    {
      assert rules[i..][0] == rules[i] && rules[i..][1..] == rules[i + 1..];
      var rule :- CompileRule(rules[i], robotId, zones);
      RulesStep(rules, i, robotId);
      out := out + [rule];
    }
    assert rules[..|rules|] == rules;
    r := Success(out);
  }

  // `compile`
  method Compile(doc: RulesManifest, robotId: Id) returns (r: Result<Rules, ErrorCode>)
    ensures r.Failure? <==> CompileError(doc).Some?
    ensures r.Failure? ==> CompileError(doc) == Some(r.error)
    ensures r.Success? ==> AllActionsValid(doc.rules) && r.value == Rules(CompiledRules(doc.rules, robotId))
    ensures r.Success? ==> RulesAsAuthored(doc.rules, robotId, r.value.rules)
  {
    var _ :- Validate(doc);
    if doc.siteId == "" {
      return Failure(MissingField);
    }
    ValidateErrorNone(doc.rules, doc.zones);
    var rules :- CompileRules(doc.rules, robotId, doc.zones);
    CompiledAsAuthored(doc.rules, robotId);
    r := Success(Rules(rules));
  }

  // --- What compiled rules mean --------------------------------------------------------

  // Every compiled guard is non-empty and has the truth value of the authored guard, for
  // every assignment of truth values to the conditions.
  lemma CompilePreservesMeaning(doc: RulesManifest, rule: SemanticRule, robotId: Id, v: Trigger -> bool)
    requires CompileError(doc).None? && rule in doc.rules
    ensures WhenHolds(CompiledWhen(rule.when, robotId), v) <==> AuthoredHolds(rule.when, robotId, v)
  {
    CompileAcceptance(doc);
    var e := ExprOf(rule.when, robotId);
    AuthoredAcceptance(rule.when, robotId, doc.zones);
    BuiltIsNormal(rule.when, robotId, doc.zones);
    LowerPreservesMeaning(e, v);
    BuildPreservesMeaning(rule.when, robotId, v);
  }

  // The compiled lists are the authored conditions, each once, each list in document order.
  lemma CompileConserves(doc: RulesManifest, rule: SemanticRule, robotId: Id)
    requires CompileError(doc).None? && rule in doc.rules
    ensures var w := CompiledWhen(rule.when, robotId); var authored := AuthoredTriggers(rule.when, robotId);
            && authored != []
            && Shuffle(w.all, w.any, authored)
            && multiset(w.all) + multiset(w.any) == multiset(authored)
  {
    CompileAcceptance(doc);
    var e := ExprOf(rule.when, robotId);
    BuiltIsNormal(rule.when, robotId, doc.zones);
    HasTrigger(e);
    LowerConserves(e);
    BuildConserves(rule.when, robotId);
    ShuffleConserves(AndTriggers(e), OrTriggers(e), Triggers(e));
  }

  // A compiled action is never dropped at publication for an invalid topic.
  lemma CompiledActionPublishes(a: SemanticAction, robotId: Id, c: Action)
    requires ActionError(a).None? && RawTopicValid(a) && c == CompiledAction(a, robotId)
    ensures Topic.TryNewTopic(c.topic) == Success(c.topic)
  {
    ActionsGoWhereAuthored(a, robotId, c);
    if a.estop {
      Topic.StopTopic("fleet");
    } else if a.topic.Some? {
      Topic.CanonicalFixpoint(a.topic.value);
    } else {
      Topic.RobotLocalTopic(robotId, "drive");
    }
  }

  // The engine can subscribe to every topic of a compiled guard exactly when the robot id is
  // neither empty nor a wildcard.
  lemma CompiledTopicsSubscribable(doc: RulesManifest, rule: SemanticRule, robotId: Id, t: Trigger)
    requires CompileError(doc).None? && rule in doc.rules
    requires t in CompiledWhen(rule.when, robotId).all + CompiledWhen(rule.when, robotId).any
    ensures Topic.TryNewPattern(t.topic).Success? <==> robotId != "" && !Topic.IsWildcard(robotId)
  {
    CompileConserves(doc, rule, robotId);
    assert t in multiset(AuthoredTriggers(rule.when, robotId));
    AuthoredTopics(rule.when, robotId, t);
    var resource: Id :| resource in [ZONE, HUMAN_PRESENT, PROXIMITY, ROLE] &&
        t.topic == Topic.RobotLocal(robotId, resource);
    ResourcesAreNames(resource);
    Topic.RobotLocalAsPattern(robotId, resource);
  }

  lemma ResourcesAreNames(resource: Id)
    requires resource in [ZONE, HUMAN_PRESENT, PROXIMITY, ROLE]
    ensures !Topic.IsWildcard(resource)
  {
  }

  // One of the four robot-local topics the flat keys read.
  ghost predicate OwnTopic(topic: string, robotId: Id) {
    exists resource: Id :: resource in [ZONE, HUMAN_PRESENT, PROXIMITY, ROLE] &&
        topic == Topic.RobotLocal(robotId, resource)
  }

  lemma {:induction false} AuthoredTopics(w: SemanticWhen, robotId: Id, t: Trigger)
    requires t in AuthoredTriggers(w, robotId)
    ensures OwnTopic(t.topic, robotId)
    decreases w, 1
  {
    FlatMembers(w, robotId, t);
    if t in AuthoredTriggersOf(w.all, robotId) {
      AuthoredTopicsOf(w.all, robotId, t);
    } else if t in AuthoredTriggersOf(w.any, robotId) {
      AuthoredTopicsOf(w.any, robotId, t);
    }
  }

  lemma {:induction false} AuthoredTopicsOf(ws: seq<SemanticWhen>, robotId: Id, t: Trigger)
    requires t in AuthoredTriggersOf(ws, robotId)
    ensures OwnTopic(t.topic, robotId)
    decreases ws, 0
  {
    var n := |ws| - 1;
    if t in AuthoredTriggersOf(ws[..n], robotId) {
      AuthoredTopicsOf(ws[..n], robotId, t);
    } else {
      AuthoredTopics(ws[n], robotId, t);
    }
  }
}
