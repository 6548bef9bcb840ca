// What a run of the engine does, read off its history alone: the samples received, the ticks and
// their rulesets, and the outcomes of Edge triggers that those imply. The engine's own state
// (`latest`, `timestamps`, `zones`, `prev`, `last_rules`) appears only in the proofs that both agree.
module EdgeHistory {
  import opened Wrappers
  import opened RuleTypes
  import opened Predicates
  import opened Engine
  import opened EngineRuns
  import Topic

  // --- The inputs of a tick --------------------------------------------------------------------

  function ZoneEvents(h: seq<Sample>): (events: seq<ZoneEvent>) {
    if h == [] then []
    else
      match ZoneEventOf(h[|h| - 1].topic, h[|h| - 1].payload)
      case Some(e) => ZoneEvents(h[..|h| - 1]) + [e]
      case None => ZoneEvents(h[..|h| - 1])
  }

  // The zones whose last event for the robot was `entered`.
  function ZonesEntered(h: seq<Sample>, robotId: string): (zones: set<string>) {
    set e | e in ZoneEvents(h) && LastZone(h, robotId, e.zoneId) == Some(true) :: e.zoneId
  }

  function ZonesFrom(h: seq<Sample>): (zones: ZoneMap) {
    var robots := set e | e in ZoneEvents(h) :: e.robotId;
    map r | r in robots && ZonesEntered(h, r) != {} :: ZonesEntered(h, r)
  }

  function SamplesFrom(timeout: Option<nat>, h: seq<Sample>, now: nat): (snap: map<string, Value>) {
    var topics := set x | x in h :: x.topic;
    map t | t in topics && Visible(timeout, h, t, now).Some? :: Visible(timeout, h, t, now).value
  }

  function InputsFrom(timeout: Option<nat>, h: seq<Sample>, now: nat): (inp: Inputs) {
    Inputs(SamplesFrom(timeout, h, now), ZonesFrom(h))
  }

  lemma {:induction false} LastZoneIsEvent(h: seq<Sample>, r: string, z: string)
    requires LastZone(h, r, z).Some?
    ensures ZoneEvent(r, z, LastZone(h, r, z).value) in ZoneEvents(h)
  {
    if ZoneEventOf(h[|h| - 1].topic, h[|h| - 1].payload) != Some(ZoneEvent(r, z, LastZone(h, r, z).value)) {
      LastZoneIsEvent(h[..|h| - 1], r, z);
    }
  }

  lemma InZoneFrom(h: seq<Sample>, r: string, z: string)
    ensures InZone(ZonesFrom(h), r, z) <==> LastEntered(h, r, z)
  {
    if LastEntered(h, r, z) {
      LastZoneIsEvent(h, r, z);
      assert ZoneEvent(r, z, true).zoneId in ZonesEntered(h, r);
      assert ZoneEvent(r, z, true).robotId in (set e | e in ZoneEvents(h) :: e.robotId);
    }
  }

  lemma {:induction false} LastSampleIsReceived(h: seq<Sample>, topic: string)
    requires LastSample(h, topic).Some?
    ensures LastSample(h, topic).value in h && LastSample(h, topic).value.topic == topic
  {
    if h[|h| - 1].topic != topic {
      LastSampleIsReceived(h[..|h| - 1], topic);
    }
  }

  // What a tick evaluates against is a function of the samples received.
  lemma InputsAreHistory(timeout: Option<nat>, es: seq<Event>, now: nat)
    ensures InputsOf(StateAfter(timeout, es), now) == InputsFrom(timeout, History(es), now)
  {
    var s, h := StateAfter(timeout, es), History(es);
    forall t ensures Lookup(Snapshot(s, now), t) == Lookup(SamplesFrom(timeout, h, now), t) {
      LatestIsHistory(timeout, es, t);
      if LastSample(h, t).Some? {
        LastSampleIsReceived(h, t);
        assert LastSample(h, t).value.topic in (set x | x in h :: x.topic);
      }
    }
    SameLookups(Snapshot(s, now), SamplesFrom(timeout, h, now));
    ZonesAreHistory(timeout, es, "", "");
    forall r, z ensures InZone(s.zones, r, z) <==> InZone(ZonesFrom(h), r, z) {
      ZonesAreHistory(timeout, es, r, z);
      InZoneFrom(h, r, z);
    }
    SameZones(s.zones, ZonesFrom(h));
  }

  // --- The outcomes of Edge triggers --------------------------------------------------------------

  // The ruleset of the last tick.
  function LastArc(es: seq<Event>): (arc: Option<RulesArc>) {
    if es == [] then None else if es[|es| - 1].Tick? then Some(es[|es| - 1].arc) else LastArc(es[..|es| - 1])
  }

  // For each Edge trigger the outcomes it has had, on the ticks that evaluated it.
  type Log = map<Key, seq<bool>>

  function LogAt(log: Log, k: Key): (xs: seq<bool>) {
    if k in log then log[k] else []
  }

  function LastOutcomes(log: Log): (last: Baseline) {
    map k | k in log && log[k] != [] :: log[k][|log[k]| - 1]
  }

  // A tick adds the outcome of every Edge trigger it evaluates.
  function Record(log: Log, rules: seq<Rule>, inp: Inputs): (log': Log) {
    map k | k in log.Keys + KeysOf(rules) ::
      LogAt(log, k) + if Sampled(rules, k, inp, LastOutcomes(log)) then [Outcome(rules, k, inp)] else []
  }

  // The log since the last change of ruleset. A tick goes on from the log only if the tick before
  // it had the same ruleset.
  function LogAfter(timeout: Option<nat>, es: seq<Event>): (log: Log) {
    if es == [] then map[]
    else
      var init, e := es[..|es| - 1], es[|es| - 1];
      var log := LogAfter(timeout, init);
      match e
      case Ingest(_) => log
      case Tick(arc, now) =>
        Record(if LastArc(init) == Some(arc) then log else map[], arc.rules.rules,
               InputsFrom(timeout, History(init), now))
  }

  function LogBefore(timeout: Option<nat>, es: seq<Event>, arc: RulesArc): (log: Log) {
    if LastArc(es) == Some(arc) then LogAfter(timeout, es) else map[]
  }

  // The outcomes of trigger `k` that a tick of `arc` compares with.
  function Outcomes(timeout: Option<nat>, es: seq<Event>, arc: RulesArc, k: Key): (xs: seq<bool>) {
    LogAt(LogBefore(timeout, es, arc), k)
  }

  // The actions of each tick, from the history.
  function HistoryOutputs(timeout: Option<nat>, es: seq<Event>): (outs: seq<seq<Action>>) {
    if es == [] then []
    else
      var init, e := es[..|es| - 1], es[|es| - 1];
      match e
      case Ingest(_) => HistoryOutputs(timeout, init)
      case Tick(arc, now) =>
        var rules, inp := arc.rules.rules, InputsFrom(timeout, History(init), now);
        var last := LastOutcomes(LogBefore(timeout, init, arc));
        HistoryOutputs(timeout, init) + [Chosen(rules, |rules|, Satisfied(rules, inp, last))]
  }

  lemma LastAt(log: Log, k: Key)
    ensures Lookup(LastOutcomes(log), k) == Last(LogAt(log, k))
  {
  }

  lemma RecordAt(log: Log, rules: seq<Rule>, inp: Inputs, k: Key)
    ensures LogAt(Record(log, rules, inp), k) ==
            if Sampled(rules, k, inp, LastOutcomes(log)) then LogAt(log, k) + [Outcome(rules, k, inp)]
            else LogAt(log, k)
  {
    assert Sampled(rules, k, inp, LastOutcomes(log)) ==> k in KeysOf(rules);
    assert LogAt(log, k) + [] == LogAt(log, k);
  }

  lemma RecordLast(log: Log, log': Log, rules: seq<Rule>, inp: Inputs, last: Baseline)
    requires log' == Record(log, rules, inp) && last == LastOutcomes(log)
    ensures LastOutcomes(log') == NextBaseline(rules, inp, last)
  {
    forall k: Key ensures Lookup(LastOutcomes(log'), k) == Lookup(NextBaseline(rules, inp, last), k) {
      RecordAt(log, rules, inp, k);
      LastAt(log, k);
      LastAt(log', k);
    }
    SameLookups(LastOutcomes(log'), NextBaseline(rules, inp, last));
  }

  ghost predicate BaselineMatches(s: State, timeout: Option<nat>, es: seq<Event>) {
    s.lastRules == LastArc(es) && s.prev == LastOutcomes(LogAfter(timeout, es))
  }

  lemma BaseAgrees(s: State, timeout: Option<nat>, es: seq<Event>, arc: RulesArc)
    requires BaselineMatches(s, timeout, es)
    ensures BaseOf(s, arc) == LastOutcomes(LogBefore(timeout, es, arc))
  {
  }

  lemma TickBaseline(s: State, arc: RulesArc, now: nat, log: Log, inp: Inputs)
    requires BaseOf(s, arc) == LastOutcomes(log) && InputsOf(s, now) == inp
    ensures TickState(s, arc, now).prev == LastOutcomes(Record(log, arc.rules.rules, inp))
  {
    RecordLast(log, Record(log, arc.rules.rules, inp), arc.rules.rules, inp, LastOutcomes(log));
  }

  lemma LogStep(timeout: Option<nat>, es: seq<Event>)
    requires es != []
    ensures var init, e := es[..|es| - 1], es[|es| - 1];
            LogAfter(timeout, es) ==
            match e
            case Ingest(_) => LogAfter(timeout, init)
            case Tick(arc, now) =>
              Record(LogBefore(timeout, init, arc), arc.rules.rules, InputsFrom(timeout, History(init), now))
  {
  }

  lemma IngestMatches(s: State, timeout: Option<nat>, es: seq<Event>)
    requires es != [] && es[|es| - 1].Ingest? && BaselineMatches(s, timeout, es[..|es| - 1])
    ensures BaselineMatches(Step(s, es[|es| - 1]), timeout, es)
  {
    LogStep(timeout, es);
  }

  lemma TickMatches(s: State, timeout: Option<nat>, es: seq<Event>)
    requires es != [] && es[|es| - 1].Tick? && BaselineMatches(s, timeout, es[..|es| - 1])
    requires InputsOf(s, es[|es| - 1].now) == InputsFrom(timeout, History(es[..|es| - 1]), es[|es| - 1].now)
    ensures BaselineMatches(Step(s, es[|es| - 1]), timeout, es)
  {
    var init, arc, now := es[..|es| - 1], es[|es| - 1].arc, es[|es| - 1].now;
    LogStep(timeout, es);
    BaseAgrees(s, timeout, init, arc);
    TickBaseline(s, arc, now, LogBefore(timeout, init, arc), InputsFrom(timeout, History(init), now));
  }

  // A tick adds to the log of an `all` trigger exactly when it is an Edge trigger and all those
  // before it decide true.
  lemma RecordOfAll(log: Log, rules: seq<Rule>, ri: nat, inp: Inputs, j: nat)
    requires ri < |rules| && j < |rules[ri].when.all|
    ensures var t := rules[ri].when.all[j]; var k := (t.topic, ri, j);
            LogAt(Record(log, rules, inp), k) ==
            if t.mode == Edge && AllBeforeHold(rules[ri].when, ri, j, inp, LastOutcomes(log))
            then LogAt(log, k) + [Cur(t, inp)] else LogAt(log, k)
  {
    var w := rules[ri].when;
    assert TriggersOf(w)[j] == w.all[j];
    AllReached(w, ri, j, inp, LastOutcomes(log));
    RecordAt(log, rules, inp, (w.all[j].topic, ri, j));
  }

  // To the log of an `any` trigger it adds when all those before it decide false, whatever became
  // of the `all` list.
  lemma RecordOfAny(log: Log, rules: seq<Rule>, ri: nat, inp: Inputs, j: nat)
    requires ri < |rules| && j < |rules[ri].when.any|
    ensures var t := rules[ri].when.any[j]; var k := (t.topic, ri, |rules[ri].when.all| + j);
            LogAt(Record(log, rules, inp), k) ==
            if t.mode == Edge && NoneBeforeHolds(rules[ri].when, ri, j, inp, LastOutcomes(log))
            then LogAt(log, k) + [Cur(t, inp)] else LogAt(log, k)
  {
    var w, last := rules[ri].when, LastOutcomes(log);
    var k := (w.any[j].topic, ri, |w.all| + j);
    assert TriggersOf(w)[k.2] == w.any[j];
    AnyReached(w, ri, j, inp, last);
    RecordAt(log, rules, inp, k);
    assert Sampled(rules, k, inp, last) <==> w.any[j].mode == Edge && NoneBeforeHolds(w, ri, j, inp, last);
  }

  // In every reachable state the baseline holds, for every trigger, exactly its last evaluated
  // outcome since the last swap, and nothing if it was never evaluated.
  lemma {:induction false} BaselineIsLastOutcome(timeout: Option<nat>, es: seq<Event>)
    ensures StateAfter(timeout, es).lastRules == LastArc(es)
    ensures StateAfter(timeout, es).prev == LastOutcomes(LogAfter(timeout, es))
  {
    if es != [] {
      var init, e := es[..|es| - 1], es[|es| - 1];
      BaselineIsLastOutcome(timeout, init);
      if e.Tick? {
        InputsAreHistory(timeout, init, e.now);
        TickMatches(StateAfter(timeout, init), timeout, es);
      } else {
        IngestMatches(StateAfter(timeout, init), timeout, es);
      }
    }
  }

  // What a tick starts from, in the engine and in the history.
  lemma TickStart(timeout: Option<nat>, es: seq<Event>, arc: RulesArc, now: nat)
    ensures InputsOf(StateAfter(timeout, es), now) == InputsFrom(timeout, History(es), now)
    ensures BaseOf(StateAfter(timeout, es), arc) == LastOutcomes(LogBefore(timeout, es, arc))
  {
    InputsAreHistory(timeout, es, now);
    BaselineIsLastOutcome(timeout, es);
    BaseAgrees(StateAfter(timeout, es), timeout, es, arc);
  }

  // The engine's actions are those its history determines.
  lemma {:induction false} OutputsAreHistory(timeout: Option<nat>, es: seq<Event>)
    ensures Outputs(timeout, es) == HistoryOutputs(timeout, es)
  {
    if es != [] {
      var init, e := es[..|es| - 1], es[|es| - 1];
      OutputsAreHistory(timeout, init);
      if e.Tick? {
        TickStart(timeout, init, e.arc, e.now);
      }
    }
  }

  // The select loop of `EvalState::run`, over the events it takes, with the actions of each tick.
  method RunEngine(timeout: Option<nat>, es: seq<Event>) returns (outs: seq<seq<Action>>)
    ensures outs == HistoryOutputs(timeout, es)
  {
    var engine := new EvalState(timeout);
    outs := [];
    for i := 0 to |es|
      invariant engine.View() == StateAfter(timeout, es[..i])
      invariant outs == Outputs(timeout, es[..i])
    {
      assert es[..i + 1][..i] == es[..i];
      match es[i]
      case Ingest(x) => engine.Ingest(x.topic, x.payload, x.at);
      case Tick(arc, now) =>
        var actions := engine.TickWithArc(arc, now);
        outs := outs + [actions];
    }
    assert es[..|es|] == es;
    OutputsAreHistory(timeout, es);
  }

  // At the next tick an Edge trigger fires exactly when it has been evaluated since the last
  // swap and its outcome then was the opposite, be that true or false.
  lemma EdgeDecisionIsFlip(timeout: Option<nat>, es: seq<Event>, arc: RulesArc, now: nat, ri: nat, ti: nat)
    requires ri < |arc.rules.rules| && ti < |TriggersOf(arc.rules.rules[ri].when)|
    requires TriggersOf(arc.rules.rules[ri].when)[ti].mode == Edge
    ensures var s, w := StateAfter(timeout, es), arc.rules.rules[ri].when;
            var t, inp := TriggersOf(w)[ti], InputsFrom(timeout, History(es), now);
            Decides(w, ri, ti, InputsOf(s, now), BaseOf(s, arc)) <==>
            Last(Outcomes(timeout, es, arc, (t.topic, ri, ti))) == Some(!Cur(t, inp))
  {
    TickStart(timeout, es, arc, now);
    var t := TriggersOf(arc.rules.rules[ri].when)[ti];
    LastAt(LogBefore(timeout, es, arc), (t.topic, ri, ti));
  }

  // --- How often an Edge trigger fires --------------------------------------------------------------

  // How often trigger `k` has fired over the whole run.
  function Fires(timeout: Option<nat>, es: seq<Event>, k: Key): (n: nat) {
    if es == [] then 0
    else
      var init, e := es[..|es| - 1], es[|es| - 1];
      match e
      case Ingest(_) => Fires(timeout, init, k)
      case Tick(arc, now) =>
        var s, rules := StateAfter(timeout, init), arc.rules.rules;
        var inp, base := InputsOf(s, now), BaseOf(s, arc);
        Fires(timeout, init, k)
        + if Sampled(rules, k, inp, base) && Decides(rules[k.1].when, k.1, k.2, inp, base) then 1 else 0
  }

  // The outcomes of trigger `k` between one change of ruleset and the next, in order.
  function Epochs(timeout: Option<nat>, es: seq<Event>, k: Key): (epochs: seq<seq<bool>>)
    ensures epochs == [] <==> LastArc(es).None?
    ensures epochs != [] ==> epochs[|epochs| - 1] == LogAt(LogAfter(timeout, es), k)
  {
    if es == [] then []
    else
      var init, e := es[..|es| - 1], es[|es| - 1];
      match e
      case Ingest(_) => Epochs(timeout, init, k)
      case Tick(arc, now) =>
        var epochs := Epochs(timeout, init, k);
        var closed := if LastArc(init) == Some(arc) then epochs[..|epochs| - 1] else epochs;
        closed + [LogAt(LogAfter(timeout, es), k)]
  }

  function Flips(xs: seq<bool>): (n: nat) {
    if |xs| < 2 then 0
    else Flips(xs[..|xs| - 1]) + if xs[|xs| - 2] != xs[|xs| - 1] then 1 else 0
  }

  function FlipsIn(epochs: seq<seq<bool>>): (n: nat) {
    if epochs == [] then 0 else FlipsIn(epochs[..|epochs| - 1]) + Flips(epochs[|epochs| - 1])
  }

  lemma FlipsSnoc(xs: seq<bool>, x: bool)
    ensures Flips(xs + [x]) == Flips(xs) + if Last(xs) == Some(!x) then 1 else 0
  {
    assert (xs + [x])[..|xs|] == xs;
  }

  lemma EvaluatedDecision(rules: seq<Rule>, k: Key, inp: Inputs, prev: Baseline)
    requires Sampled(rules, k, inp, prev)
    ensures Decides(rules[k.1].when, k.1, k.2, inp, prev) <==> Lookup(prev, k) == Some(!Outcome(rules, k, inp))
  {
  }

  // One tick adds a fire exactly when it adds a flip.
  lemma TickFlips(log: Log, rules: seq<Rule>, inp: Inputs, k: Key)
    ensures var last := LastOutcomes(log);
            Flips(LogAt(Record(log, rules, inp), k)) ==
            Flips(LogAt(log, k))
            + if Sampled(rules, k, inp, last) && Decides(rules[k.1].when, k.1, k.2, inp, last) then 1 else 0
  {
    RecordAt(log, rules, inp, k);
    if Sampled(rules, k, inp, LastOutcomes(log)) {
      EvaluatedDecision(rules, k, inp, LastOutcomes(log));
      LastAt(log, k);
      FlipsSnoc(LogAt(log, k), Outcome(rules, k, inp));
    }
  }

  lemma FlipsInSnoc(epochs: seq<seq<bool>>, xs: seq<bool>)
    ensures FlipsIn(epochs + [xs]) == FlipsIn(epochs) + Flips(xs)
  {
    assert (epochs + [xs])[..|epochs|] == epochs;
  }

  // Over a whole run an Edge trigger fires exactly once per flip of its evaluated outcomes, the
  // change from one ruleset's last outcome to the next one's first not counting as a flip.
  lemma {:induction false} FiresAreFlips(timeout: Option<nat>, es: seq<Event>, k: Key)
    ensures Fires(timeout, es, k) == FlipsIn(Epochs(timeout, es, k))
  {
    if es != [] {
      var init, e := es[..|es| - 1], es[|es| - 1];
      FiresAreFlips(timeout, init, k);
      if e.Tick? {
        var log, epochs := LogBefore(timeout, init, e.arc), Epochs(timeout, init, k);
        TickStart(timeout, init, e.arc, e.now);
        TickFlips(log, e.arc.rules.rules, InputsFrom(timeout, History(init), e.now), k);
        if LastArc(init) == Some(e.arc) {
          FlipsInSnoc(epochs[..|epochs| - 1], LogAt(LogAfter(timeout, es), k));
        } else {
          FlipsInSnoc(epochs, LogAt(LogAfter(timeout, es), k));
        }
      }
    }
  }

  lemma {:induction false} FlipParity(xs: seq<bool>)
    ensures Flips(xs) % 2 == 1 <==> xs != [] && xs[0] != xs[|xs| - 1]
  {
    if |xs| >= 2 {
      FlipParity(xs[..|xs| - 1]);
    }
  }

  // The epochs whose first and last outcome differ.
  function Crossings(epochs: seq<seq<bool>>): (n: nat) {
    if epochs == [] then 0
    else
      var xs := epochs[|epochs| - 1];
      Crossings(epochs[..|epochs| - 1]) + if xs != [] && xs[0] != xs[|xs| - 1] then 1 else 0
  }

  lemma {:induction false} CrossingParity(epochs: seq<seq<bool>>)
    ensures FlipsIn(epochs) % 2 == Crossings(epochs) % 2
  {
    if epochs != [] {
      CrossingParity(epochs[..|epochs| - 1]);
      FlipParity(epochs[|epochs| - 1]);
    }
  }

  // The fire count of a trigger is odd exactly when its first and last outcome differ in an odd
  // number of epochs; with one ruleset throughout, exactly when they differ.
  lemma FireParity(timeout: Option<nat>, es: seq<Event>, k: Key)
    ensures Fires(timeout, es, k) % 2 == Crossings(Epochs(timeout, es, k)) % 2
  {
    FiresAreFlips(timeout, es, k);
    CrossingParity(Epochs(timeout, es, k));
  }

  // A trigger without predicate is true exactly while a sample of its topic is visible.
  lemma BareTriggerMeans(timeout: Option<nat>, es: seq<Event>, now: nat, t: Trigger)
    requires t.pred.None?
    ensures Cur(t, InputsFrom(timeout, History(es), now)) <==> Visible(timeout, History(es), t.topic, now).Some?
  {
    if LastSample(History(es), t.topic).Some? {
      LastSampleIsReceived(History(es), t.topic);
      assert LastSample(History(es), t.topic).value.topic in (set x | x in History(es) :: x.topic);
    }
  }

  // --- The first sample of a topic ---------------------------------------------------------------

  lemma UnseenIsFalse(rules: seq<Rule>, k: Key, inp: Inputs, prev: Baseline)
    requires k.0 !in inp.snap && Sampled(rules, k, inp, prev)
    ensures !Outcome(rules, k, inp)
  {
  }

  // Until a sample of its topic arrives every evaluation of a trigger is false.
  lemma {:induction false} FalseWithoutSample(timeout: Option<nat>, es: seq<Event>, k: Key)
    requires LastSample(History(es), k.0).None?
    ensures forall i :: 0 <= i < |LogAt(LogAfter(timeout, es), k)| ==> !LogAt(LogAfter(timeout, es), k)[i]
  {
    if es != [] {
      var init, e := es[..|es| - 1], es[|es| - 1];
      match e
      case Ingest(x) =>
        LastSampleStep(History(init), x, k.0);
        FalseWithoutSample(timeout, init, k);
      case Tick(arc, now) =>
        var rules, log, inp := arc.rules.rules, LogBefore(timeout, init, arc), InputsFrom(timeout, History(init), now);
        FalseWithoutSample(timeout, init, k);
        assert k.0 !in inp.snap;
        LogStep(timeout, es);
        RecordAt(log, rules, inp, k);
        if Sampled(rules, k, inp, LastOutcomes(log)) {
          UnseenIsFalse(rules, k, inp, LastOutcomes(log));
        }
    }
  }

  // The first sample ever received on an Edge trigger's topic fires it, if it makes it true,
  // exactly when an earlier tick of the same ruleset has evaluated it; it was false there.
  lemma FirstSampleFires(timeout: Option<nat>, es: seq<Event>, x: Sample, arc: RulesArc, now: nat, ri: nat, ti: nat)
    requires ri < |arc.rules.rules| && ti < |TriggersOf(arc.rules.rules[ri].when)|
    requires var t := TriggersOf(arc.rules.rules[ri].when)[ti]; t.mode == Edge && t.topic == x.topic
    requires LastSample(History(es), x.topic).None?
    requires Cur(TriggersOf(arc.rules.rules[ri].when)[ti], InputsFrom(timeout, History(es) + [x], now))
    ensures var s, w := StateAfter(timeout, es + [Ingest(x)]), arc.rules.rules[ri].when;
            Decides(w, ri, ti, InputsOf(s, now), BaseOf(s, arc)) <==>
            Outcomes(timeout, es, arc, (x.topic, ri, ti)) != []
  {
    var run, k := es + [Ingest(x)], (x.topic, ri, ti);
    assert run[..|es|] == es;
    assert Outcomes(timeout, run, arc, k) == Outcomes(timeout, es, arc, k);
    EdgeDecisionIsFlip(timeout, run, arc, now, ri, ti);
    FalseWithoutSample(timeout, es, k);
  }
}
