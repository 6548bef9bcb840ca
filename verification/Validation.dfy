// What validation accepts and which fault it reports (src/semantic.rs), stated on the authored
// manifest: no function of the validator appears in the conditions.
module Validation {
  import opened Wrappers
  import opened RuleTypes
  import opened Semantic

  // --- One guard level -----------------------------------------------------------------------

  ghost predicate HasKeyOrChild(w: SemanticWhen) {
    || w.inZone.Some? || w.notInZone.Some? || w.nearHuman.Some? || w.notNearHuman.Some?
    || w.near.Some? || w.role.Some? || w.all != [] || w.any != []
  }

  // Only negative infinity and the finite numbers up to zero are refused.
  ghost predicate Usable(d: Float64) {
    d in {NaN, PosInf} || (d.Finite? && d.r > 0.0)
  }

  ghost predicate DistancesUsable(w: SemanticWhen) {
    && (w.nearHuman.Some? ==> Usable(w.nearHuman.value))
    && (w.notNearHuman.Some? ==> Usable(w.notNearHuman.value))
    && (w.near.Some? ==> Usable(w.near.value.dist))
  }

  ghost predicate ZonesDeclared(w: SemanticWhen, zones: set<string>) {
    && (w.inZone.Some? ==> w.inZone.value in zones)
    && (w.notInZone.Some? ==> w.notInZone.value in zones)
  }

  ghost predicate LevelOk(w: SemanticWhen, zones: set<string>) {
    HasKeyOrChild(w) && DistancesUsable(w) && ZonesDeclared(w, zones)
  }

  // The code reported for a faulty level.
  ghost predicate LevelFault(w: SemanticWhen, zones: set<string>, e: ErrorCode) {
    match e
    case EmptyWhen => !HasKeyOrChild(w)
    case InvalidDistance => HasKeyOrChild(w) && !DistancesUsable(w)
    case UnknownZone => HasKeyOrChild(w) && DistancesUsable(w) && !ZonesDeclared(w, zones)
    case _ => false
  }

  lemma LevelErrorMeans(w: SemanticWhen, zones: set<string>)
    ensures LevelError(w, zones).None? <==> LevelOk(w, zones)
    ensures forall e :: LevelError(w, zones) == Some(e) <==> LevelFault(w, zones, e)
  {
  }

  // --- Whole guards ----------------------------------------------------------------------------

  // Valid at every depth.
  ghost predicate GuardValid(w: SemanticWhen, zones: set<string>) {
    && LevelOk(w, zones)
    && (forall i :: 0 <= i < |w.all| ==> GuardValid(w.all[i], zones))
    && (forall i :: 0 <= i < |w.any| ==> GuardValid(w.any[i], zones))
  }

  // A guard passes exactly when it is valid at every depth.
  lemma {:induction false} GuardPassesIff(w: SemanticWhen, zones: set<string>)
    ensures WhenError(w, zones).None? <==> GuardValid(w, zones)
  {
    LevelErrorMeans(w, zones);
    WhensErrorNone(w.all, zones);
    WhensErrorNone(w.any, zones);
    forall i | 0 <= i < |w.all| { GuardPassesIff(w.all[i], zones); }
    forall i | 0 <= i < |w.any| { GuardPassesIff(w.any[i], zones); }
  }

  // The levels of a guard in document order: a level, then its `all` children, then its `any`
  // children.
  ghost function Levels(w: SemanticWhen): (r: seq<SemanticWhen>)
    decreases w, 1
  {
    [w] + LevelsOf(w.all) + LevelsOf(w.any)
  }

  ghost function LevelsOf(ws: seq<SemanticWhen>): (r: seq<SemanticWhen>)
    decreases ws, 0
  {
    if ws == [] then [] else Levels(ws[0]) + LevelsOf(ws[1..])
  }

  // `e` is the fault of the first faulty level.
  ghost predicate FirstFault(levels: seq<SemanticWhen>, zones: set<string>, e: ErrorCode) {
    exists n :: 0 <= n < |levels| && FaultAt(levels, zones, n, e)
  }

  ghost predicate FaultAt(levels: seq<SemanticWhen>, zones: set<string>, n: nat, e: ErrorCode)
    requires n < |levels|
  {
    LevelFault(levels[n], zones, e) && forall m :: 0 <= m < n ==> LevelOk(levels[m], zones)
  }

  ghost predicate NoFault(levels: seq<SemanticWhen>, zones: set<string>) {
    forall n :: 0 <= n < |levels| ==> LevelOk(levels[n], zones)
  }

  // The first fault of a concatenation is that of its first faulty part.
  lemma FaultOfConcat(a: seq<SemanticWhen>, b: seq<SemanticWhen>, zones: set<string>, e: ErrorCode)
    ensures NoFault(a + b, zones) <==> NoFault(a, zones) && NoFault(b, zones)
    ensures FirstFault(a, zones, e) ==> FirstFault(a + b, zones, e)
    ensures NoFault(a, zones) && FirstFault(b, zones, e) ==> FirstFault(a + b, zones, e)
  {
    var c := a + b;
    if NoFault(c, zones) {
      assert forall n :: 0 <= n < |a| ==> c[n] == a[n];
      assert forall n :: 0 <= n < |b| ==> c[|a| + n] == b[n];
    }
    if n :| 0 <= n < |a| && FaultAt(a, zones, n, e) {
      assert FaultAt(c, zones, n, e);
    }
    if NoFault(a, zones) && FirstFault(b, zones, e) {
      var n :| 0 <= n < |b| && FaultAt(b, zones, n, e);
      assert FaultAt(c, zones, |a| + n, e);
    }
  }

  ghost predicate Reports(error: Option<ErrorCode>, levels: seq<SemanticWhen>, zones: set<string>) {
    match error
    case None => NoFault(levels, zones)
    case Some(e) => FirstFault(levels, zones, e)
  }

  lemma ReportsConcat(x: Option<ErrorCode>, a: seq<SemanticWhen>, y: Option<ErrorCode>, b: seq<SemanticWhen>,
      zones: set<string>)
    requires Reports(x, a, zones) && Reports(y, b, zones)
    ensures Reports(if x.Some? then x else y, a + b, zones)
  {
    if x.Some? {
      FaultOfConcat(a, b, zones, x.value);
    } else if y.Some? {
      FaultOfConcat(a, b, zones, y.value);
    } else {
      FaultOfConcat(a, b, zones, EmptyWhen);
    }
  }

  // A guard's error is the fault of its first faulty level in document order.
  lemma {:induction false} GuardReportsFirstFault(w: SemanticWhen, zones: set<string>)
    ensures Reports(WhenError(w, zones), Levels(w), zones)
    decreases w, 1
  {
    var own, all, any := LevelError(w, zones), WhensError(w.all, zones), WhensError(w.any, zones);
    LevelErrorMeans(w, zones);
    assert [w][0] == w;
    if own.Some? {
      assert FaultAt([w], zones, 0, own.value);
    }
    GuardsReportFirstFault(w.all, zones);
    GuardsReportFirstFault(w.any, zones);
    ReportsConcat(own, [w], all, LevelsOf(w.all), zones);
    ReportsConcat(if own.Some? then own else all, [w] + LevelsOf(w.all), any, LevelsOf(w.any), zones);
  }

  lemma {:induction false} GuardsReportFirstFault(ws: seq<SemanticWhen>, zones: set<string>)
    ensures Reports(WhensError(ws, zones), LevelsOf(ws), zones)
    decreases ws, 0
  {
    if ws != [] {
      GuardReportsFirstFault(ws[0], zones);
      GuardsReportFirstFault(ws[1..], zones);
      ReportsConcat(WhenError(ws[0], zones), Levels(ws[0]), WhensError(ws[1..], zones), LevelsOf(ws[1..]), zones);
    }
  }

  // --- Actions -----------------------------------------------------------------------------------

  ghost predicate ExactlyOneVerb(a: SemanticAction) {
    || (a.estop && a.slowTo.None? && !a.resume && a.topic.None?)
    || (!a.estop && a.slowTo.Some? && !a.resume && a.topic.None?)
    || (!a.estop && a.slowTo.None? && a.resume && a.topic.None?)
    || (!a.estop && a.slowTo.None? && !a.resume && a.topic.Some?)
  }

  // A scalar, or an object of scalars; null and arrays are refused anywhere.
  ghost predicate Scalar(v: Value) {
    !v.Null? && !v.Array? && !v.Object?
  }

  ghost predicate FlatPayload(a: SemanticAction) {
    a.payload.Some? ==>
      Scalar(a.payload.value) ||
      (a.payload.value.Object? && forall x :: x in a.payload.value.fields.Values ==> Scalar(x))
  }

  ghost predicate SpeedFinite(a: SemanticAction) {
    a.slowTo.Some? ==> a.slowTo.value !in {NaN, PosInf, NegInf}
  }

  ghost predicate ActionOk(a: SemanticAction) {
    ExactlyOneVerb(a) && FlatPayload(a) && SpeedFinite(a) && a.topic != Some("")
  }

  // The code reported for a faulty action.
  ghost predicate ActionFault(a: SemanticAction, e: ErrorCode) {
    match e
    case NoActionVerb => !ExactlyOneVerb(a)
    case NonPrimitivePayload => ExactlyOneVerb(a) && !FlatPayload(a)
    case InvalidDistance => ExactlyOneVerb(a) && FlatPayload(a) && !SpeedFinite(a)
    case InvalidTopic => ExactlyOneVerb(a) && FlatPayload(a) && a.topic == Some("")
    case _ => false
  }

  lemma FlatPayloadMeans(a: SemanticAction)
    ensures FlatPayload(a) <==> (a.payload.Some? ==> IsPrimitive(a.payload.value))
  {
    if a.payload.Some? && a.payload.value.Object? {
      var fields := a.payload.value.fields;
      assert forall k :: k in fields ==> fields[k] in fields.Values;
    }
  }

  lemma VerbsMean(a: SemanticAction)
    ensures ExactlyOneVerb(a) <==> |Verbs(a)| == 1
  {
    VerbCount(a);
  }

  lemma ActionErrorMeans(a: SemanticAction)
    ensures ActionError(a).None? <==> ActionOk(a)
    ensures forall e :: ActionError(a) == Some(e) <==> ActionFault(a, e)
  {
    VerbsMean(a);
    FlatPayloadMeans(a);
  }

  ghost predicate FirstActionFault(acts: seq<SemanticAction>, e: ErrorCode) {
    exists j :: 0 <= j < |acts| && ActionFaultAt(acts, j, e)
  }

  ghost predicate ActionFaultAt(acts: seq<SemanticAction>, j: nat, e: ErrorCode)
    requires j < |acts|
  {
    ActionFault(acts[j], e) && forall m :: 0 <= m < j ==> ActionOk(acts[m])
  }

  ghost predicate ActionsOk(acts: seq<SemanticAction>) {
    forall j :: 0 <= j < |acts| ==> ActionOk(acts[j])
  }

  lemma {:induction false} ActionsReportFirstFault(acts: seq<SemanticAction>)
    ensures match ActionsError(acts)
            case None => ActionsOk(acts)
            case Some(e) => FirstActionFault(acts, e)
  {
    if acts != [] {
      ActionErrorMeans(acts[0]);
      ActionsReportFirstFault(acts[1..]);
      if ActionError(acts[0]).Some? {
        assert ActionFaultAt(acts, 0, ActionError(acts[0]).value);
      } else if ActionsError(acts[1..]).Some? {
        var e := ActionsError(acts[1..]).value;
        var j :| 0 <= j < |acts[1..]| && ActionFaultAt(acts[1..], j, e);
        assert forall m :: 0 < m <= j ==> acts[m] == acts[1..][m - 1];
        assert ActionFaultAt(acts, j + 1, e);
      } else {
        assert forall m :: 0 < m < |acts| ==> acts[m] == acts[1..][m - 1];
      }
    }
  }

  // --- Whole manifests ---------------------------------------------------------------------------

  ghost predicate RuleOk(rule: SemanticRule, zones: set<string>) {
    ActionsOk(rule.actions) && GuardValid(rule.when, zones)
  }

  // The fault of a rule: its first faulty action, or failing that its guard's first faulty level.
  ghost predicate RuleFault(rule: SemanticRule, zones: set<string>, e: ErrorCode) {
    || FirstActionFault(rule.actions, e)
    || (ActionsOk(rule.actions) && FirstFault(Levels(rule.when), zones, e))
  }

  ghost predicate RuleFaultAt(rules: seq<SemanticRule>, zones: set<string>, i: nat, e: ErrorCode)
    requires i < |rules|
  {
    RuleFault(rules[i], zones, e) && forall m :: 0 <= m < i ==> RuleOk(rules[m], zones)
  }

  ghost predicate FirstRuleFault(rules: seq<SemanticRule>, zones: set<string>, e: ErrorCode) {
    exists i :: 0 <= i < |rules| && RuleFaultAt(rules, zones, i, e)
  }

  lemma RuleReportsFault(rule: SemanticRule, zones: set<string>)
    ensures ActionsError(rule.actions).Some? ==> RuleFault(rule, zones, ActionsError(rule.actions).value)
    ensures ActionsError(rule.actions).None? && WhenError(rule.when, zones).Some? ==>
              RuleFault(rule, zones, WhenError(rule.when, zones).value)
    ensures ActionsError(rule.actions).None? && WhenError(rule.when, zones).None? <==> RuleOk(rule, zones)
  {
    ActionsReportFirstFault(rule.actions);
    GuardReportsFirstFault(rule.when, zones);
    GuardPassesIff(rule.when, zones);
  }

  // `validate` passes exactly when every action and every guard is valid, and otherwise reports the
  // fault of the first faulty rule: its actions before its guard, each in document order.
  lemma {:induction false} ValidateReportsFirstFault(rules: seq<SemanticRule>, zones: set<string>)
    ensures ValidateError(rules, zones).None? <==> forall i :: 0 <= i < |rules| ==> RuleOk(rules[i], zones)
    ensures ValidateError(rules, zones).Some? ==> FirstRuleFault(rules, zones, ValidateError(rules, zones).value)
  {
    if rules != [] {
      RuleReportsFault(rules[0], zones);
      ValidateReportsFirstFault(rules[1..], zones);
      if ActionsError(rules[0].actions).Some? {
        assert RuleFaultAt(rules, zones, 0, ActionsError(rules[0].actions).value);
      } else if WhenError(rules[0].when, zones).Some? {
        assert RuleFaultAt(rules, zones, 0, WhenError(rules[0].when, zones).value);
      } else if ValidateError(rules[1..], zones).Some? {
        var e := ValidateError(rules[1..], zones).value;
        var i :| 0 <= i < |rules[1..]| && RuleFaultAt(rules[1..], zones, i, e);
        assert forall m :: 0 < m <= i ==> rules[m] == rules[1..][m - 1];
        assert RuleFaultAt(rules, zones, i + 1, e);
      }
      assert forall m :: 0 < m < |rules| ==> rules[m] == rules[1..][m - 1];
    }
  }
}
