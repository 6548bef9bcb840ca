// From an authored rule to the actions of a tick: what the compiler and the engine promise
// together, for every rule in terms of its history and for rules about distances in terms of what
// is visible, and how the zone conditions behave.
module EndToEnd {
  import opened Wrappers
  import opened RuleTypes
  import opened Predicates
  import opened Semantic
  import opened Lowering
  import opened Compiler
  import opened EngineRuns
  import opened EdgeHistory
  import opened Occurrences
  import Engine
  import Strings
  import Topic

  type Id = Strings.Id

  // --- What the conditions mean, in terms of the sample visible on a topic -----------------

  function Separation(payload: Option<Value>): (r: Option<real>) {
    match payload
    case None => None
    case Some(v) =>
      match Get(v, "separation_distance")
      case Some(Number(n)) => Some(n.AsReal())
      case _ => None
  }

  predicate CloserThan(sep: Option<real>, d: Float64) {
    sep.Some? && d.Finite? && sep.value < d.r
  }

  predicate AtLeastAway(sep: Option<real>, d: Float64) {
    sep.Some? && d.Finite? && sep.value >= d.r
  }

  predicate IsPeer(payload: Option<Value>, entity: string) {
    payload.Some? && Get(payload.value, "peer_id") == Some(Text(entity))
  }

  // Truth of an authored guard about distances, given what is visible on each topic.
  ghost predicate SeenToHold(w: SemanticWhen, robotId: Id, see: string -> Option<Value>) {
    var human, proximity := see(Topic.RobotLocal(robotId, HUMAN_PRESENT)), see(Topic.RobotLocal(robotId, PROXIMITY));
    && (w.nearHuman.Some? ==> CloserThan(Separation(human), w.nearHuman.value))
    && (w.notNearHuman.Some? ==> AtLeastAway(Separation(human), w.notNearHuman.value))
    && (w.near.Some? ==> IsPeer(proximity, w.near.value.entity) && CloserThan(Separation(proximity), w.near.value.dist))
    && (forall i :: 0 <= i < |w.all| ==> SeenToHold(w.all[i], robotId, see))
    && (w.any == [] || exists i :: 0 <= i < |w.any| && SeenToHold(w.any[i], robotId, see))
  }

  // Guards built from `near_human`, `not_near_human` and `near` only.
  ghost predicate DistancesOnly(w: SemanticWhen) {
    && w.inZone.None? && w.notInZone.None? && w.role.None?
    && (forall i :: 0 <= i < |w.all| ==> DistancesOnly(w.all[i]))
    && (forall i :: 0 <= i < |w.any| ==> DistancesOnly(w.any[i]))
  }

  ghost predicate Shows(inp: Engine.Inputs, see: string -> Option<Value>) {
    forall t :: Lookup(inp.snap, t) == see(t)
  }

  // --- One trigger --------------------------------------------------------------------

  lemma NearHumanMeans(robotId: Id, d: Float64, inp: Engine.Inputs)
    ensures var sep := Separation(Lookup(inp.snap, Topic.RobotLocal(robotId, HUMAN_PRESENT)));
            && (Engine.Cur(NearHumanTrigger(robotId, d), inp) <==> CloserThan(sep, d))
            && (Engine.Cur(NotNearHumanTrigger(robotId, d), inp) <==> AtLeastAway(sep, d))
  {
  }

  lemma NearMeans(robotId: Id, n: NearSpec, inp: Engine.Inputs)
    ensures var payload := Lookup(inp.snap, Topic.RobotLocal(robotId, PROXIMITY));
            Engine.Cur(NearTrigger(robotId, n), inp) <==>
            IsPeer(payload, n.entity) && CloserThan(Separation(payload), n.dist)
  {
  }

  // `near_human = d` and `not_near_human = d'` exclude each other when d <= d', whatever the
  // sample; with one finite distance, one of them holds exactly when the separation is known.
  lemma NearHumanExclusive(robotId: Id, d: Float64, d': Float64, inp: Engine.Inputs)
    requires d.Finite? && d'.Finite? && d.r <= d'.r
    ensures !(Engine.Cur(NearHumanTrigger(robotId, d), inp) && Engine.Cur(NotNearHumanTrigger(robotId, d'), inp))
    ensures Engine.Cur(NearHumanTrigger(robotId, d), inp) || Engine.Cur(NotNearHumanTrigger(robotId, d), inp) <==>
            Separation(Lookup(inp.snap, Topic.RobotLocal(robotId, HUMAN_PRESENT))).Some?
  {
  }

  // On a present sample `in_zone` and `not_in_zone` are exact complements, so a sample without
  // a zone id satisfies `not_in_zone`; without a sample neither holds.
  lemma ZoneComplement(robotId: Id, z: string, inp: Engine.Inputs)
    ensures var payload := Lookup(inp.snap, Topic.RobotLocal(robotId, ZONE));
            && (Engine.Cur(InZoneTrigger(robotId, z), inp) <==>
                payload.Some? && Get(payload.value, "zone_id") == Some(Text(z)))
            && (Engine.Cur(NotInZoneTrigger(robotId, z), inp) <==>
                payload.Some? && Get(payload.value, "zone_id") != Some(Text(z)))
  {
  }

  // `role` compares the payload's role exactly; without a sample or a role it is false.
  lemma RoleMeans(robotId: Id, r: string, inp: Engine.Inputs)
    ensures var payload := Lookup(inp.snap, Topic.RobotLocal(robotId, ROLE));
            Engine.Cur(RoleTrigger(robotId, r), inp) <==> payload.Some? && Get(payload.value, "role") == Some(Text(r))
  {
  }

  // A guard with the single key `in_zone`.
  function InZoneOnly(z: string): (r: SemanticWhen) {
    SemanticWhen(Some(z), None, None, None, None, None, [], [])
  }

  lemma LoneGuard(t: Trigger, ri: nat, inp: Engine.Inputs, prev: Engine.Baseline)
    ensures Engine.Guard(When([t], []), ri, inp, prev) <==> Engine.Decision(t, ri, 0, inp, prev)
  {
    var w := When([t], []);
    assert Engine.TriggersOf(w) == [t];
    assert Engine.Decides(w, ri, 0, inp, prev) <==> Engine.Decision(t, ri, 0, inp, prev);
  }

  // A lone `in_zone` rule fires when the robot is seen crossing the zone's border, in either
  // direction: its membership differs from the one at the last tick of the same ruleset.
  lemma ZoneRuleFiresOnCrossing(z: string, robotId: Id, arc: RulesArc, ri: nat, timeout: Option<nat>, es: seq<Event>,
      now: nat)
    requires ri < |arc.rules.rules| && arc.rules.rules[ri].when == CompiledWhen(InZoneOnly(z), robotId)
    ensures var s, t := StateAfter(timeout, es), InZoneTrigger(robotId, z);
            Engine.Guard(arc.rules.rules[ri].when, ri, Engine.InputsOf(s, now), Engine.BaseOf(s, arc)) <==>
            Last(Outcomes(timeout, es, arc, (t.topic, ri, 0))) ==
            Some(!Engine.Cur(t, InputsFrom(timeout, History(es), now)))
  {
    var s, t := StateAfter(timeout, es), InZoneTrigger(robotId, z);
    LoneKeyCompiles(z, robotId);
    assert Engine.TriggersOf(arc.rules.rules[ri].when) == [t];
    EdgeDecisionIsFlip(timeout, es, arc, now, ri, 0);
    LoneGuard(t, ri, Engine.InputsOf(s, now), Engine.BaseOf(s, arc));
  }

  // Every tick of its ruleset evaluates a lone Edge trigger.
  lemma {:induction false} LoneTriggerEvaluated(t: Trigger, arc: RulesArc, ri: nat, timeout: Option<nat>,
      es: seq<Event>)
    requires ri < |arc.rules.rules| && arc.rules.rules[ri].when == When([t], []) && t.mode == Edge
    ensures Outcomes(timeout, es, arc, (t.topic, ri, 0)) != [] <==> LastArc(es) == Some(arc)
  {
    if es != [] {
      var init, e := es[..|es| - 1], es[|es| - 1];
      match e
      case Ingest(_) => LoneTriggerEvaluated(t, arc, ri, timeout, init);
      case Tick(last, now) =>
        if last == arc {
          var log, inp := LogBefore(timeout, init, arc), InputsFrom(timeout, History(init), now);
          RecordAt(log, arc.rules.rules, inp, (t.topic, ri, 0));
          LoneTriggerSampled(t, arc.rules.rules, ri, inp, LastOutcomes(log));
        }
    }
  }

  lemma LoneTriggerSampled(t: Trigger, rules: seq<Rule>, ri: nat, inp: Engine.Inputs, prev: Engine.Baseline)
    requires ri < |rules| && rules[ri].when == When([t], []) && t.mode == Edge
    ensures Engine.Sampled(rules, (t.topic, ri, 0), inp, prev)
  {
    assert Engine.TriggersOf(rules[ri].when) == [t];
  }

  // The first zone sample ever received fires the rule, if it shows the robot inside, exactly when
  // the last tick before it was one of the same ruleset: that tick recorded `false`.
  lemma ZoneRuleOnFirstSample(z: string, robotId: Id, arc: RulesArc, ri: nat, timeout: Option<nat>, es: seq<Event>,
      x: Sample, now: nat)
    requires ri < |arc.rules.rules| && arc.rules.rules[ri].when == CompiledWhen(InZoneOnly(z), robotId)
    requires x.topic == Topic.RobotLocal(robotId, ZONE) && LastSample(History(es), x.topic).None?
    requires Engine.Cur(InZoneTrigger(robotId, z), InputsFrom(timeout, History(es) + [x], now))
    ensures var s := StateAfter(timeout, es + [Ingest(x)]);
            Engine.Guard(arc.rules.rules[ri].when, ri, Engine.InputsOf(s, now), Engine.BaseOf(s, arc)) <==>
            LastArc(es) == Some(arc)
  {
    var s, t := StateAfter(timeout, es + [Ingest(x)]), InZoneTrigger(robotId, z);
    LoneKeyCompiles(z, robotId);
    assert Engine.TriggersOf(arc.rules.rules[ri].when) == [t];
    FirstSampleFires(timeout, es, x, arc, now, ri, 0);
    LoneGuard(t, ri, Engine.InputsOf(s, now), Engine.BaseOf(s, arc));
    LoneTriggerEvaluated(t, arc, ri, timeout, es);
  }

  lemma OneRuleActions(s: Engine.State, arc: RulesArc, rule: Rule, now: nat)
    requires arc.rules.rules == [rule]
    ensures Engine.TickActions(s, arc, now) ==
            if Engine.Guard(rule.when, 0, Engine.InputsOf(s, now), Engine.BaseOf(s, arc)) then rule.actions else []
  {
    var chosen := Engine.Satisfied([rule], Engine.InputsOf(s, now), Engine.BaseOf(s, arc));
    assert Engine.Chosen([rule], 1, chosen) ==
           Engine.Chosen([rule], 0, chosen) + if chosen(0) then rule.actions else [];
  }

  lemma TickSampleTick(arc: RulesArc, x: Sample)
    ensures Outputs(None, [Tick(arc, 0), Ingest(x), Tick(arc, 2)]) ==
            [Engine.TickActions(StateAfter(None, []), arc, 0)]
            + [Engine.TickActions(StateAfter(None, [Tick(arc, 0)] + [Ingest(x)]), arc, 2)]
  {
    var none: seq<Event>, one, two := [], [Tick(arc, 0)], [Tick(arc, 0)] + [Ingest(x)];
    assert none + [Tick(arc, 0)] == one;
    OutputsStep(None, none, Tick(arc, 0));
    OutputsStep(None, one, Ingest(x));
    OutputsStep(None, two, Tick(arc, 2));
    assert two + [Tick(arc, 2)] == [Tick(arc, 0), Ingest(x), Tick(arc, 2)];
  }

  lemma FirstTickSilent(z: string, robotId: Id, arc: RulesArc, rule: Rule)
    requires arc.rules.rules == [rule] && rule.when == CompiledWhen(InZoneOnly(z), robotId)
    ensures Engine.TickActions(StateAfter(None, []), arc, 0) == []
  {
    OneRuleActions(StateAfter(None, []), arc, rule, 0);
    ZoneRuleFiresOnCrossing(z, robotId, arc, 0, None, [], 0);
  }

  lemma OneTick(arc: RulesArc)
    ensures History([Tick(arc, 0)]) == [] && LastArc([Tick(arc, 0)]) == Some(arc)
  {
  }

  lemma SecondTickFires(z: string, robotId: Id, arc: RulesArc, rule: Rule, x: Sample)
    requires arc.rules.rules == [rule] && rule.when == CompiledWhen(InZoneOnly(z), robotId)
    requires x.topic == Topic.RobotLocal(robotId, ZONE) && Get(x.payload, "zone_id") == Some(Text(z))
    ensures Engine.TickActions(StateAfter(None, [Tick(arc, 0)] + [Ingest(x)]), arc, 2) == rule.actions
  {
    OneTick(arc);
    FirstInside(z, robotId, x);
    ZoneRuleOnFirstSample(z, robotId, arc, 0, None, [Tick(arc, 0)], x, 2);
    OneRuleActions(StateAfter(None, [Tick(arc, 0)] + [Ingest(x)]), arc, rule, 2);
  }

  // Such a run: a tick, the first zone sample, showing the robot inside, and a second tick, which
  // emits the rule's actions.
  lemma {:induction false} FirstSampleFiresRule(z: string, robotId: Id, arc: RulesArc, rule: Rule, x: Sample)
    requires arc.rules.rules == [rule] && rule.when == CompiledWhen(InZoneOnly(z), robotId)
    requires x.topic == Topic.RobotLocal(robotId, ZONE) && Get(x.payload, "zone_id") == Some(Text(z))
    ensures Outputs(None, [Tick(arc, 0), Ingest(x), Tick(arc, 2)]) == [[], rule.actions]
  {
    TickSampleTick(arc, x);
    FirstTickSilent(z, robotId, arc, rule);
    SecondTickFires(z, robotId, arc, rule, x);
  }

  lemma FirstInside(z: string, robotId: Id, x: Sample)
    requires x.topic == Topic.RobotLocal(robotId, ZONE) && Get(x.payload, "zone_id") == Some(Text(z))
    ensures Engine.Cur(InZoneTrigger(robotId, z), InputsFrom(None, [] + [x], 2))
  {
    var h, t := [] + [x], InZoneTrigger(robotId, z);
    Topic.RobotLocalIsNotZoneTopic(robotId, ZONE);
    LastSampleStep([], x, x.topic);
    assert x in h && x.topic in (set y | y in h :: y.topic);
    ZoneComplement(robotId, z, InputsFrom(None, h, 2));
  }

  lemma LoneKeyCompiles(z: string, robotId: Id)
    ensures CompiledWhen(InZoneOnly(z), robotId) == When([InZoneTrigger(robotId, z)], [])
  {
  }

  // --- Whole rules and whole ticks ---------------------------------------------------------

  lemma {:induction false} SeenIsAuthored(w: SemanticWhen, robotId: Id, inp: Engine.Inputs,
      see: string -> Option<Value>)
    requires DistancesOnly(w) && Shows(inp, see)
    ensures SeenToHold(w, robotId, see) <==> AuthoredHolds(w, robotId, (t: Trigger) => Engine.Cur(t, inp))
  {
    forall i | 0 <= i < |w.all| { SeenIsAuthored(w.all[i], robotId, inp, see); }
    forall i | 0 <= i < |w.any| { SeenIsAuthored(w.any[i], robotId, inp, see); }
    if w.nearHuman.Some? { NearHumanMeans(robotId, w.nearHuman.value, inp); }
    if w.notNearHuman.Some? { NearHumanMeans(robotId, w.notNearHuman.value, inp); }
    if w.near.Some? { NearMeans(robotId, w.near.value, inp); }
  }

  lemma {:induction false} DistancesAreLevel(w: SemanticWhen, robotId: Id, t: Trigger)
    requires DistancesOnly(w) && t in AuthoredTriggers(w, robotId)
    ensures t.mode == Level
    decreases w, 1
  {
    FlatMembers(w, robotId, t);
    if t in AuthoredTriggersOf(w.all, robotId) {
      DistancesAreLevelOf(w.all, robotId, t);
    } else if t in AuthoredTriggersOf(w.any, robotId) {
      DistancesAreLevelOf(w.any, robotId, t);
    }
  }

  lemma {:induction false} DistancesAreLevelOf(ws: seq<SemanticWhen>, robotId: Id, t: Trigger)
    requires forall i :: 0 <= i < |ws| ==> DistancesOnly(ws[i])
    requires t in AuthoredTriggersOf(ws, robotId)
    ensures t.mode == Level
    decreases ws, 0
  {
    var n := |ws| - 1;
    if t in AuthoredTriggersOf(ws[..n], robotId) {
      DistancesAreLevelOf(ws[..n], robotId, t);
    } else {
      DistancesAreLevel(ws[n], robotId, t);
    }
  }

  // The guard of a compiled distance rule holds exactly when the authored condition is seen to
  // hold, whatever the edge baseline.
  lemma DistanceRuleFires(doc: RulesManifest, rule: SemanticRule, robotId: Id, ri: nat, inp: Engine.Inputs,
                          prev: Engine.Baseline, see: string -> Option<Value>)
    requires CompileError(doc).None? && rule in doc.rules && DistancesOnly(rule.when) && Shows(inp, see)
    ensures Engine.Guard(CompiledWhen(rule.when, robotId), ri, inp, prev) <==> SeenToHold(rule.when, robotId, see)
  {
    var w, v := CompiledWhen(rule.when, robotId), (t: Trigger) => Engine.Cur(t, inp);
    CompileConserves(doc, rule, robotId);
    forall i | 0 <= i < |Engine.TriggersOf(w)|
      ensures Engine.Decides(w, ri, i, inp, prev) <==> v(Engine.TriggersOf(w)[i])
    {
      var t := Engine.TriggersOf(w)[i];
      assert t in multiset(w.all) + multiset(w.any);
      assert t in multiset(AuthoredTriggers(rule.when, robotId));
      DistancesAreLevel(rule.when, robotId, t);
    }
    GuardAsFormula(w, ri, inp, prev, v);
    CompilePreservesMeaning(doc, rule, robotId, v);
    SeenIsAuthored(rule.when, robotId, inp, see);
  }

  // The result of a successful `compile`.
  ghost predicate CompiledTo(doc: RulesManifest, robotId: Id, rules: seq<Rule>) {
    CompileError(doc).None? && AllActionsValid(doc.rules) && rules == CompiledRules(doc.rules, robotId)
  }

  ghost predicate GuardsCompiled(doc: RulesManifest, robotId: Id, rules: seq<Rule>) {
    && |rules| == |doc.rules|
    && forall i :: 0 <= i < |rules| ==> rules[i].when == CompiledWhen(doc.rules[i].when, robotId)
  }

  // The rules whose authored condition is seen to hold.
  ghost function SeenRules(doc: RulesManifest, robotId: Id, see: string -> Option<Value>): (r: nat -> bool) {
    (i: nat) => i < |doc.rules| && SeenToHold(doc.rules[i].when, robotId, see)
  }

  // After any history of samples, ticks and swaps, a tick of a compiled distance ruleset emits
  // the actions of exactly the rules whose authored condition holds of the samples then visible.
  lemma CompileAndRun(doc: RulesManifest, robotId: Id, arc: RulesArc, timeout: Option<nat>, es: seq<Event>, now: nat)
    requires CompiledTo(doc, robotId, arc.rules.rules)
    requires forall r :: r in doc.rules ==> DistancesOnly(r.when)
    ensures Engine.TickActions(StateAfter(timeout, es), arc, now) ==
            Engine.Chosen(arc.rules.rules, |doc.rules|,
                          SeenRules(doc, robotId, topic => Visible(timeout, History(es), topic, now)))
    ensures Engine.EmitsBlocks(Engine.TickActions(StateAfter(timeout, es), arc, now), arc.rules.rules,
                               SeenRules(doc, robotId, topic => Visible(timeout, History(es), topic, now)))
  {
    var s := StateAfter(timeout, es);
    var inp := Engine.InputsOf(s, now);
    var see := topic => Visible(timeout, History(es), topic, now);
    forall t ensures Lookup(inp.snap, t) == see(t) {
      LatestIsHistory(timeout, es, t);
    }
    var rules, prev, chosen := arc.rules.rules, Engine.BaseOf(s, arc), SeenRules(doc, robotId, see);
    assert GuardsCompiled(doc, robotId, rules);
    forall i: nat | i < |rules| ensures Engine.Satisfied(rules, inp, prev)(i) == chosen(i) {
      assert rules[i].when == CompiledWhen(doc.rules[i].when, robotId);
      DistanceRuleFires(doc, doc.rules[i], robotId, i, inp, prev, see);
    }
    Engine.SameChoice(rules, |rules|, Engine.Satisfied(rules, inp, prev), chosen);
    Engine.ChosenBlocks(rules, chosen);
  }

  // --- Any rule, occurrence by occurrence ------------------------------------------------------

  // The position in the authored guard of each trigger of the compiled one.
  function Slots(w: SemanticWhen, robotId: Id): (us: seq<nat>) {
    AndPositions(ExprOf(w, robotId), 0) + OrPositions(ExprOf(w, robotId), 0)
  }

  ghost predicate AllDifferent(us: seq<nat>) {
    forall i, j :: 0 <= i < j < |us| ==> us[i] != us[j]
  }

  // The compiled guard takes every authored condition once, each from its own position.
  lemma SlotsAreConditions(w: SemanticWhen, robotId: Id)
    ensures var us, authored := Slots(w, robotId), AuthoredTriggers(w, robotId);
            var ts := Engine.TriggersOf(CompiledWhen(w, robotId));
            && |us| == |ts| && |authored| == Conditions(w) && AllDifferent(us)
            && (forall i {:trigger us[i]} :: 0 <= i < |us| ==> us[i] < |authored| && authored[us[i]] == ts[i])
            && (forall u: nat :: u < |authored| ==> u in us)
  {
    var e := ExprOf(w, robotId);
    AuthoredLength(w, robotId);
    BuildConserves(w, robotId);
    PositionsStand(e, 0);
    PositionsPartition(e, 0);
    PartitionDiffers(AndPositions(e, 0), OrPositions(e, 0), |Triggers(e)|);
  }

  lemma PartitionDiffers(a: seq<nat>, b: seq<nat>, n: nat)
    requires Partition(a, b, 0, n)
    ensures AllDifferent(a + b) && forall u: nat :: u < n ==> u in a + b
  {
    forall i, j | 0 <= i < j < |a + b| ensures (a + b)[i] != (a + b)[j] {
      if i < |a| <= j {
        assert a[i] in a && b[j - |a|] in b;
      }
    }
  }

  function IndexOf(us: seq<nat>, u: nat): (i: nat)
    ensures u in us ==> i < |us| && us[i] == u
  {
    if us == [] then 0 else if us[0] == u then 0 else IndexOf(us[1..], u) + 1
  }

  // Truth, at a tick, of the `u`-th condition of the authored guard at rule index `ri`: a Level
  // condition as it is seen now, an Edge condition whether it is seen otherwise than at its last
  // evaluation since the swap.
  predicate OccursAt(timeout: Option<nat>, es: seq<Event>, arc: RulesArc, now: nat, ri: nat, w: SemanticWhen,
      robotId: Id, u: nat)
  {
    u < |AuthoredTriggers(w, robotId)| &&
    var t, inp := AuthoredTriggers(w, robotId)[u], InputsFrom(timeout, History(es), now);
    match t.mode
    case Level => Engine.Cur(t, inp)
    case Edge =>
      Last(Outcomes(timeout, es, arc, (t.topic, ri, IndexOf(Slots(w, robotId), u)))) == Some(!Engine.Cur(t, inp))
  }

  ghost function Occurs(timeout: Option<nat>, es: seq<Event>, arc: RulesArc, now: nat, ri: nat, w: SemanticWhen,
      robotId: Id): (f: nat -> bool)
  {
    (u: nat) => OccursAt(timeout, es, arc, now, ri, w, robotId, u)
  }

  // The decision of the `i`-th compiled trigger is the truth of the condition it came from.
  lemma DecisionOccurs(timeout: Option<nat>, es: seq<Event>, arc: RulesArc, now: nat, ri: nat, w: SemanticWhen,
      robotId: Id, i: nat)
    requires ri < |arc.rules.rules| && arc.rules.rules[ri].when == CompiledWhen(w, robotId) && i < |Slots(w, robotId)|
    ensures var s := StateAfter(timeout, es);
            && i < |Engine.TriggersOf(CompiledWhen(w, robotId))|
            && (Engine.Decides(CompiledWhen(w, robotId), ri, i, Engine.InputsOf(s, now), Engine.BaseOf(s, arc)) <==>
                OccursAt(timeout, es, arc, now, ri, w, robotId, Slots(w, robotId)[i]))
  {
    var us := Slots(w, robotId);
    SlotsAreConditions(w, robotId);
    assert us[i] in us && IndexOf(us, us[i]) == i;
    InputsAreHistory(timeout, es, now);
    if Engine.TriggersOf(CompiledWhen(w, robotId))[i].mode == Edge {
      EdgeDecisionIsFlip(timeout, es, arc, now, ri, i);
    }
  }

  lemma GuardAtPositions(w: When, ri: nat, inp: Engine.Inputs, prev: Engine.Baseline, all: seq<nat>, any: seq<nat>,
      f: nat -> bool)
    requires |all| == |w.all| && |any| == |w.any| && Engine.TriggersOf(w) != []
    requires forall i: nat {:trigger (all + any)[i]} :: i < |all + any| ==>
               (Engine.Decides(w, ri, i, inp, prev) <==> f((all + any)[i]))
    ensures Engine.Guard(w, ri, inp, prev) <==> TwoLevelHoldsAt(all, any, f)
  {
    forall i: nat | i < |all| ensures Engine.Decides(w, ri, i, inp, prev) <==> f(all[i]) {
      assert (all + any)[i] == all[i];
    }
    forall m: nat | m < |any| ensures Engine.Decides(w, ri, |all| + m, inp, prev) <==> f(any[m]) {
      assert (all + any)[|all| + m] == any[m];
    }
    if OneOf(any, f) {
      var m :| 0 <= m < |any| && f(any[m]);
      assert Engine.Decides(w, ri, |all| + m, inp, prev);
    }
    if i :| |w.all| <= i < |Engine.TriggersOf(w)| && Engine.Decides(w, ri, i, inp, prev) {
      assert f(any[i - |all|]) && any[i - |all|] in any;
    }
    if EachOf(all, f) {
      assert forall i :: 0 <= i < |all| ==> all[i] in all;
    }
  }

  // Whatever the history: the guard of any compiled rule holds at a tick exactly when the authored
  // guard does, its Level conditions read as seen and each occurrence of an Edge condition as the
  // flip of its own last evaluated outcome.
  lemma RuleFiresIff(doc: RulesManifest, rule: SemanticRule, robotId: Id, arc: RulesArc, ri: nat, timeout: Option<nat>,
      es: seq<Event>, now: nat)
    requires CompileError(doc).None? && rule in doc.rules
    requires ri < |arc.rules.rules| && arc.rules.rules[ri].when == CompiledWhen(rule.when, robotId)
    ensures var s := StateAfter(timeout, es);
            Engine.Guard(CompiledWhen(rule.when, robotId), ri, Engine.InputsOf(s, now), Engine.BaseOf(s, arc)) <==>
            AuthoredHoldsAt(rule.when, 0, Occurs(timeout, es, arc, now, ri, rule.when, robotId))
  {
    var s, w, e := StateAfter(timeout, es), CompiledWhen(rule.when, robotId), ExprOf(rule.when, robotId);
    var all, any := AndPositions(e, 0), OrPositions(e, 0);
    var f := Occurs(timeout, es, arc, now, ri, rule.when, robotId);
    CompileConserves(doc, rule, robotId);
    SlotsAreConditions(rule.when, robotId);
    PositionsStand(e, 0);
    forall i: nat | i < |all + any|
      ensures Engine.Decides(w, ri, i, Engine.InputsOf(s, now), Engine.BaseOf(s, arc)) <==> f((all + any)[i])
    {
      DecisionOccurs(timeout, es, arc, now, ri, rule.when, robotId, i);
    }
    GuardAtPositions(w, ri, Engine.InputsOf(s, now), Engine.BaseOf(s, arc), all, any, f);
    CompiledKeepsOccurrences(doc, rule, robotId, f);
  }

  // Compiling preserves meaning occurrence by occurrence.
  lemma CompiledKeepsOccurrences(doc: RulesManifest, rule: SemanticRule, robotId: Id, f: nat -> bool)
    requires CompileError(doc).None? && rule in doc.rules
    ensures var e := ExprOf(rule.when, robotId);
            TwoLevelHoldsAt(AndPositions(e, 0), OrPositions(e, 0), f) <==> AuthoredHoldsAt(rule.when, 0, f)
  {
    CompileAcceptance(doc);
    AuthoredAcceptance(rule.when, robotId, doc.zones);
    BuiltIsNormal(rule.when, robotId, doc.zones);
    LowerKeepsOccurrences(ExprOf(rule.when, robotId), 0, f);
    BuildKeepsOccurrences(rule.when, robotId, f);
  }

  ghost function FiringRules(doc: RulesManifest, robotId: Id, arc: RulesArc, timeout: Option<nat>, es: seq<Event>,
      now: nat): (firing: nat -> bool)
  {
    (i: nat) => i < |doc.rules|
                && AuthoredHoldsAt(doc.rules[i].when, 0, Occurs(timeout, es, arc, now, i, doc.rules[i].when, robotId))
  }

  // After any history a tick of a compiled ruleset emits, in order, the actions of exactly the
  // rules whose authored condition then holds in that reading.
  lemma CompiledTick(doc: RulesManifest, robotId: Id, arc: RulesArc, timeout: Option<nat>, es: seq<Event>, now: nat)
    requires CompiledTo(doc, robotId, arc.rules.rules)
    ensures Engine.TickActions(StateAfter(timeout, es), arc, now) ==
            Engine.Chosen(arc.rules.rules, |doc.rules|, FiringRules(doc, robotId, arc, timeout, es, now))
    ensures Engine.EmitsBlocks(Engine.TickActions(StateAfter(timeout, es), arc, now), arc.rules.rules,
                               FiringRules(doc, robotId, arc, timeout, es, now))
  {
    var s, rules := StateAfter(timeout, es), arc.rules.rules;
    var fires := Engine.Satisfied(rules, Engine.InputsOf(s, now), Engine.BaseOf(s, arc));
    var firing := FiringRules(doc, robotId, arc, timeout, es, now);
    assert GuardsCompiled(doc, robotId, rules);
    forall i: nat | i < |rules| ensures fires(i) == firing(i) {
      RuleFiresIff(doc, doc.rules[i], robotId, arc, i, timeout, es, now);
    }
    Engine.SameChoice(rules, |rules|, fires, firing);
    Engine.ChosenBlocks(rules, firing);
  }

  // How many actions the firing rules among the first `n` author together.
  ghost function AuthoredBefore(rules: seq<SemanticRule>, n: nat, firing: nat -> bool): (r: nat)
    requires n <= |rules|
  {
    if n == 0 then 0 else AuthoredBefore(rules, n - 1, firing) + if firing(n - 1) then |rules[n - 1].actions| else 0
  }

  lemma {:induction false} SameCounts(rules: seq<SemanticRule>, robotId: Id, compiled: seq<Rule>, n: nat,
      firing: nat -> bool)
    requires RulesAsAuthored(rules, robotId, compiled) && n <= |rules|
    ensures Engine.ActionsBefore(compiled, n, firing) == AuthoredBefore(rules, n, firing)
  {
    if n > 0 {
      SameCounts(rules, robotId, compiled, n - 1, firing);
    }
  }

  // From manifest to publication: after any history a tick of a compiled ruleset emits, for every
  // rule whose authored condition holds, its authored actions one after the other right after those
  // of the rules before it, each as authored, and nothing else.
  lemma TickPublishesAuthored(doc: RulesManifest, robotId: Id, arc: RulesArc, timeout: Option<nat>, es: seq<Event>,
      now: nat, i: nat, j: nat)
    requires CompiledTo(doc, robotId, arc.rules.rules)
    requires i < |doc.rules| && FiringRules(doc, robotId, arc, timeout, es, now)(i) && j < |doc.rules[i].actions|
    ensures var out := Engine.TickActions(StateAfter(timeout, es), arc, now);
            var firing := FiringRules(doc, robotId, arc, timeout, es, now);
            var at := AuthoredBefore(doc.rules, i, firing);
            && |out| == AuthoredBefore(doc.rules, |doc.rules|, firing)
            && at + j < |out| && GoesWhereAuthored(doc.rules[i].actions[j], robotId, out[at + j])
  {
    var out, rules := Engine.TickActions(StateAfter(timeout, es), arc, now), arc.rules.rules;
    var firing := FiringRules(doc, robotId, arc, timeout, es, now);
    CompiledTick(doc, robotId, arc, timeout, es, now);
    CompiledAsAuthored(doc.rules, robotId);
    SameCounts(doc.rules, robotId, rules, i, firing);
    SameCounts(doc.rules, robotId, rules, |rules|, firing);
    EmittedAsAuthored(doc.rules, robotId, rules, out, firing, i, j);
  }

  lemma EmittedAsAuthored(rules: seq<SemanticRule>, robotId: Id, compiled: seq<Rule>, out: seq<Action>,
      firing: nat -> bool, i: nat, j: nat)
    requires RulesAsAuthored(rules, robotId, compiled) && Engine.EmitsBlocks(out, compiled, firing)
    requires i < |rules| && firing(i) && j < |rules[i].actions|
    ensures var at := Engine.ActionsBefore(compiled, i, firing);
            at + j < |out| && GoesWhereAuthored(rules[i].actions[j], robotId, out[at + j])
  {
    var at, block := Engine.ActionsBefore(compiled, i, firing), compiled[i].actions;
    assert Engine.BlockAt(out, at, block);
    assert out[at..at + |block|][j] == block[j];
  }
}
