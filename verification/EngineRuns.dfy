// What the engine does over whole runs: the history each part of its state stands for.
module EngineRuns {
  import opened Wrappers
  import opened RuleTypes
  import opened Predicates
  import opened Engine
  import Strings
  import Topic

  datatype Sample = Sample(topic: string, payload: Value, at: nat)

  // A run interleaves samples with ticks; each tick carries the ruleset then active, so a hot
  // swap shows as a tick with another pointer.
  datatype Event = Ingest(sample: Sample) | Tick(arc: RulesArc, now: nat)

  function Step(s: State, e: Event): (r: State) {
    match e
    case Ingest(x) => IngestStep(s, x.topic, x.payload, x.at)
    case Tick(arc, now) => TickState(s, arc, now)
  }

  function Start(timeout: Option<nat>): (r: State) {
    State(map[], map[], map[], map[], None, timeout)
  }

  function StateAfter(timeout: Option<nat>, es: seq<Event>): (r: State) {
    if es == [] then Start(timeout) else Step(StateAfter(timeout, es[..|es| - 1]), es[|es| - 1])
  }

  // The actions of each tick of the run, in order.
  function Outputs(timeout: Option<nat>, es: seq<Event>): (r: seq<seq<Action>>) {
    if es == [] then []
    else
      var init, e := es[..|es| - 1], es[|es| - 1];
      match e
      case Ingest(_) => Outputs(timeout, init)
      case Tick(arc, now) => Outputs(timeout, init) + [TickActions(StateAfter(timeout, init), arc, now)]
  }

  lemma OutputsStep(timeout: Option<nat>, es: seq<Event>, e: Event)
    ensures Outputs(timeout, es + [e]) ==
            match e
            case Ingest(_) => Outputs(timeout, es)
            case Tick(arc, now) => Outputs(timeout, es) + [TickActions(StateAfter(timeout, es), arc, now)]
  {
    assert (es + [e])[..|es|] == es;
  }

  // --- Guards as formulas --------------------------------------------------------------------

  // On the first tick of a ruleset, even one pushed again unchanged, a rule fires exactly when
  // its guard holds with every Edge trigger counted as false.
  lemma FirstTickOfRuleset(s: State, arc: RulesArc, now: nat, ri: nat)
    requires ArcChanged(s, arc) && ri < |arc.rules.rules|
    ensures var w, inp := arc.rules.rules[ri].when, InputsOf(s, now);
            Guard(w, ri, inp, BaseOf(s, arc)) <==> WhenHolds(w, (t: Trigger) => t.mode.Level? && Cur(t, inp))
  {
    var w, inp := arc.rules.rules[ri].when, InputsOf(s, now);
    GuardAsFormula(w, ri, inp, map[], (t: Trigger) => t.mode.Level? && Cur(t, inp));
  }

  lemma AllPart(w: When, ri: nat, inp: Inputs, prev: Baseline, v: Trigger -> bool)
    requires forall i :: 0 <= i < |w.all| ==> (Decides(w, ri, i, inp, prev) <==> v(w.all[i]))
    ensures (forall i :: 0 <= i < |w.all| ==> Decides(w, ri, i, inp, prev)) <==> forall t :: t in w.all ==> v(t)
  {
  }

  lemma AnyPart(w: When, ri: nat, inp: Inputs, prev: Baseline, v: Trigger -> bool)
    requires forall m :: 0 <= m < |w.any| ==> (Decides(w, ri, |w.all| + m, inp, prev) <==> v(w.any[m]))
    ensures (exists i :: |w.all| <= i < |TriggersOf(w)| && Decides(w, ri, i, inp, prev)) <==>
            exists t :: t in w.any && v(t)
  {
  }

  // When every decision is a function of the trigger alone, the guard is the two-level formula.
  lemma GuardAsFormula(w: When, ri: nat, inp: Inputs, prev: Baseline, v: Trigger -> bool)
    requires forall i :: 0 <= i < |TriggersOf(w)| ==> (Decides(w, ri, i, inp, prev) <==> v(TriggersOf(w)[i]))
    ensures Guard(w, ri, inp, prev) <==> WhenHolds(w, v)
  {
    forall i | 0 <= i < |w.all| ensures Decides(w, ri, i, inp, prev) <==> v(w.all[i]) {
      assert TriggersOf(w)[i] == w.all[i];
    }
    forall m | 0 <= m < |w.any| ensures Decides(w, ri, |w.all| + m, inp, prev) <==> v(w.any[m]) {
      assert TriggersOf(w)[|w.all| + m] == w.any[m];
    }
    AllPart(w, ri, inp, prev, v);
    AnyPart(w, ri, inp, prev, v);
  }

  // --- Samples and zones -------------------------------------------------------------------

  function History(es: seq<Event>): (r: seq<Sample>) {
    if es == [] then []
    else
      var e := es[|es| - 1];
      if e.Ingest? then History(es[..|es| - 1]) + [e.sample] else History(es[..|es| - 1])
  }

  // The last sensor sample of a topic; zone events are not sensor samples.
  function LastSample(h: seq<Sample>, topic: string): (r: Option<Sample>) {
    if h == [] || Topic.IsZoneTopic(topic) then None
    else if h[|h| - 1].topic == topic then Some(h[|h| - 1])
    else LastSample(h[..|h| - 1], topic)
  }

  // What the last zone event for (robot, zone) said.
  function LastZone(h: seq<Sample>, robotId: string, zoneId: string): (r: Option<bool>) {
    if h == [] then None
    else
      match ZoneEventOf(h[|h| - 1].topic, h[|h| - 1].payload)
      case Some(e) =>
        if e.robotId == robotId && e.zoneId == zoneId then Some(e.entered)
        else LastZone(h[..|h| - 1], robotId, zoneId)
      case None => LastZone(h[..|h| - 1], robotId, zoneId)
  }

  ghost predicate LastEntered(h: seq<Sample>, robotId: string, zoneId: string) {
    LastZone(h, robotId, zoneId) == Some(true)
  }

  ghost predicate InZone(zones: ZoneMap, robotId: string, zoneId: string) {
    robotId in zones && zoneId in zones[robotId]
  }

  ghost predicate NoEmptyZoneSet(zones: ZoneMap) {
    forall r :: r in zones ==> zones[r] != {}
  }

  lemma ApplyZoneEffect(zones: ZoneMap, e: ZoneEvent, r: string, z: string)
    requires NoEmptyZoneSet(zones)
    ensures NoEmptyZoneSet(ApplyZone(zones, e))
    ensures InZone(ApplyZone(zones, e), r, z) <==>
            if e.robotId == r && e.zoneId == z then e.entered else InZone(zones, r, z)
  {
    if e.entered {
      assert e.zoneId in ApplyZone(zones, e)[e.robotId];
    } else if e.robotId in zones && zones[e.robotId] - {e.zoneId} == {} {
      assert zones[e.robotId] == zones[e.robotId] - {e.zoneId} + zones[e.robotId] * {e.zoneId};
    }
  }

  lemma {:induction false} HistoryStep(es: seq<Event>)
    requires es != []
    ensures es[|es| - 1].Tick? ==> History(es) == History(es[..|es| - 1])
    ensures es[|es| - 1].Ingest? ==> History(es)[..|History(es)| - 1] == History(es[..|es| - 1])
  {
  }

  // How one more sample moves the zone map and the history's verdict: in the same way.
  lemma IngestZones(s: State, h: seq<Sample>, x: Sample, r: string, z: string)
    requires NoEmptyZoneSet(s.zones)
    ensures var zones := IngestStep(s, x.topic, x.payload, x.at).zones;
            && NoEmptyZoneSet(zones)
            && ((InZone(s.zones, r, z) <==> LastEntered(h, r, z)) ==>
                (InZone(zones, r, z) <==> LastEntered(h + [x], r, z)))
  {
    assert (h + [x])[..|h|] == h;
    match ZoneEventOf(x.topic, x.payload)
    case Some(ev) => ApplyZoneEffect(s.zones, ev, r, z);
    case None =>
  }

  function ZoneTopicOf(zoneId: Strings.Id, entered: bool): (r: string) {
    if entered then Topic.ZoneEntered(zoneId) else Topic.ZoneCleared(zoneId)
  }

  lemma ZoneTopicSegments(zoneId: Strings.Id, entered: bool)
    ensures Strings.Split(ZoneTopicOf(zoneId, entered)) == ["zone", zoneId, if entered then "entered" else "cleared"]
  {
    Topic.ZoneEnteredTopic(zoneId);
    Topic.ZoneClearedTopic(zoneId);
  }

  ghost predicate OnlyMoves(before: ZoneMap, after: ZoneMap, robotId: string, zoneId: string, entered: bool) {
    forall r, z :: InZone(after, r, z) <==> if r == robotId && z == zoneId then entered else InZone(before, r, z)
  }

  // A sample on a zone's `entered` topic puts the robot it names in the zone, one on its `cleared`
  // topic takes it out; nothing else changes. Without a text `robot_id` nothing changes at all.
  lemma ZoneSampleMoves(s: State, zoneId: Strings.Id, entered: bool, payload: Value, now: nat)
    ensures var t := IngestStep(s, ZoneTopicOf(zoneId, entered), payload, now);
            if payload.Object? && "robot_id" in payload.fields && payload.fields["robot_id"].Text? then
              t == s.(zones := t.zones) && OnlyMoves(s.zones, t.zones, payload.fields["robot_id"].s, zoneId, entered)
            else t == s
  {
    var topic := ZoneTopicOf(zoneId, entered);
    ZoneTopicSegments(zoneId, entered);
    VerbsDiffer();
    Topic.ZoneTopicBySegments(topic);
    ZoneEventMeans(topic, payload);
    var e := ZoneEventOf(topic, payload);
    if e.Some? {
      ApplyZoneMoves(s.zones, e.value);
    }
  }

  lemma VerbsDiffer()
    ensures "entered" != "cleared"
  {
    assert "entered"[0] == 'e' && "cleared"[0] == 'c';
  }

  lemma ApplyZoneMoves(zones: ZoneMap, e: ZoneEvent)
    ensures OnlyMoves(zones, ApplyZone(zones, e), e.robotId, e.zoneId, e.entered)
  {
    if !e.entered && e.robotId in zones && zones[e.robotId] - {e.zoneId} == {} {
      assert zones[e.robotId] == zones[e.robotId] - {e.zoneId} + zones[e.robotId] * {e.zoneId};
    }
  }

  // The zone map is exactly the zone events: a robot is in a zone when its last event for
  // that zone was `entered`, and a robot in no zone is not stored.
  lemma {:induction false} ZonesAreHistory(timeout: Option<nat>, es: seq<Event>, r: string, z: string)
    ensures NoEmptyZoneSet(StateAfter(timeout, es).zones)
    ensures InZone(StateAfter(timeout, es).zones, r, z) <==> LastEntered(History(es), r, z)
  {
    if es != [] {
      var init, e := es[..|es| - 1], es[|es| - 1];
      ZonesAreHistory(timeout, init, r, z);
      if e.Ingest? {
        IngestZones(StateAfter(timeout, init), History(init), e.sample, r, z);
      }
    }
  }

  // Sharing a zone is symmetric and read off the same history.
  lemma ShareZoneIsHistory(timeout: Option<nat>, es: seq<Event>, h: seq<Sample>, zones: ZoneMap, a: string, b: string)
    requires h == History(es) && zones == StateAfter(timeout, es).zones
    ensures ShareZone(zones, a, b) <==> exists z :: LastEntered(h, a, z) && LastEntered(h, b, z)
    ensures ShareZone(zones, a, b) <==> ShareZone(zones, b, a)
  {
    forall z ensures InZone(zones, a, z) <==> LastEntered(h, a, z)
             ensures InZone(zones, b, z) <==> LastEntered(h, b, z) {
      ZonesAreHistory(timeout, es, a, z);
      ZonesAreHistory(timeout, es, b, z);
    }
    SharedByHistory(zones, h, a, b);
  }

  lemma SharedByHistory(zones: ZoneMap, h: seq<Sample>, a: string, b: string)
    requires forall z :: InZone(zones, a, z) <==> LastEntered(h, a, z)
    requires forall z :: InZone(zones, b, z) <==> LastEntered(h, b, z)
    ensures ShareZone(zones, a, b) <==> exists z :: LastEntered(h, a, z) && LastEntered(h, b, z)
  {
    if ShareZone(zones, a, b) {
      var z :| z in zones[a] && z in zones[b];
      assert InZone(zones, a, z) && InZone(zones, b, z);
    }
    if exists z :: LastEntered(h, a, z) && LastEntered(h, b, z) {
      var z :| LastEntered(h, a, z) && LastEntered(h, b, z);
      assert InZone(zones, a, z) && InZone(zones, b, z);
    }
  }

  lemma IngestLatest(s: State, x: Sample, topic: string)
    ensures var t := IngestStep(s, x.topic, x.payload, x.at);
            && t.timeout == s.timeout && t.prev == s.prev && t.lastRules == s.lastRules
            && (Lookup(t.latest, topic), Lookup(t.timestamps, topic)) ==
               if x.topic == topic && !Topic.IsZoneTopic(topic) then (Some(x.payload), Some(x.at))
               else (Lookup(s.latest, topic), Lookup(s.timestamps, topic))
  {
  }

  lemma LastSampleStep(h: seq<Sample>, x: Sample, topic: string)
    ensures LastSample(h + [x], topic) ==
            if x.topic == topic && !Topic.IsZoneTopic(topic) then Some(x) else LastSample(h, topic)
  {
    assert (h + [x])[..|h|] == h;
  }

  ghost predicate Remembers(s: State, last: Option<Sample>, topic: string) {
    match last
    case Some(x) => Lookup(s.latest, topic) == Some(x.payload) && Lookup(s.timestamps, topic) == Some(x.at)
    case None => topic !in s.latest
  }

  // `latest` and `timestamps` hold the last sensor sample of each topic.
  lemma {:induction false} LatestIsHistory(timeout: Option<nat>, es: seq<Event>, topic: string)
    ensures Remembers(StateAfter(timeout, es), LastSample(History(es), topic), topic)
    ensures StateAfter(timeout, es).timeout == timeout
  {
    if es != [] {
      var init, e := es[..|es| - 1], es[|es| - 1];
      LatestIsHistory(timeout, init, topic);
      if e.Ingest? {
        IngestLatest(StateAfter(timeout, init), e.sample, topic);
        LastSampleStep(History(init), e.sample, topic);
      }
    }
  }

  // --- Non-interference -----------------------------------------------------------------------

  // The payload a tick at `now` sees for a topic.
  function Visible(timeout: Option<nat>, h: seq<Sample>, topic: string, now: nat): (r: Option<Value>) {
    match LastSample(h, topic)
    case Some(x) => if Fresh(timeout, Some(x.at), now) then Some(x.payload) else None
    case None => None
  }

  // `collect_topics`
  function CollectTopics(w: When): (r: seq<string>) {
    seq(|TriggersOf(w)|, i requires 0 <= i < |TriggersOf(w)| => TriggersOf(w)[i].topic)
  }

  // Two histories look alike to a ruleset: same visible sample on every topic it names, same
  // zone memberships.
  ghost predicate LookAlike(timeout: Option<nat>, rules: seq<Rule>, h: seq<Sample>, now: nat,
                            h': seq<Sample>, now': nat)
  {
    && (forall r, t :: r in rules && t in CollectTopics(r.when) ==>
      Visible(timeout, h, t, now) == Visible(timeout, h', t, now'))
    && (forall r, z :: LastEntered(h, r, z) <==> LastEntered(h', r, z))
  }

  // Two runs with the same sequence of rulesets whose histories look alike at every tick.
  ghost predicate Indistinguishable(timeout: Option<nat>, a: seq<Event>, b: seq<Event>)
    decreases |a| + |b|
  {
    if a != [] && a[|a| - 1].Ingest? then Indistinguishable(timeout, a[..|a| - 1], b)
    else if b != [] && b[|b| - 1].Ingest? then Indistinguishable(timeout, a, b[..|b| - 1])
    else if a == [] || b == [] then a == b
    else
      var ta, tb := a[|a| - 1], b[|b| - 1];
      && ta.arc == tb.arc
      && LookAlike(timeout, ta.arc.rules.rules, History(a), ta.now, History(b), tb.now)
      && Indistinguishable(timeout, a[..|a| - 1], b[..|b| - 1])
  }

  // Inputs that agree where a ruleset looks.
  ghost predicate SameInputs(rules: seq<Rule>, inp: Inputs, inp': Inputs) {
    && inp.zones == inp'.zones
    && forall r, t :: r in rules && t in CollectTopics(r.when) ==> Lookup(inp.snap, t) == Lookup(inp'.snap, t)
  }

  lemma SameInputsSameDecisions(rules: seq<Rule>, ri: nat, inp: Inputs, inp': Inputs, prev: Baseline)
    requires SameInputs(rules, inp, inp') && ri < |rules|
    ensures forall i :: 0 <= i < |TriggersOf(rules[ri].when)| ==>
              && Cur(TriggersOf(rules[ri].when)[i], inp) == Cur(TriggersOf(rules[ri].when)[i], inp')
              && Decides(rules[ri].when, ri, i, inp, prev) == Decides(rules[ri].when, ri, i, inp', prev)
  {
    var w := rules[ri].when;
    forall i | 0 <= i < |TriggersOf(w)| ensures Cur(TriggersOf(w)[i], inp) == Cur(TriggersOf(w)[i], inp') {
      var t := TriggersOf(w)[i].topic;
      assert CollectTopics(w)[i] == t && rules[ri] in rules;
      assert Lookup(inp.snap, t) == Lookup(inp'.snap, t);
    }
  }

  lemma SameInputsSameGuard(rules: seq<Rule>, ri: nat, inp: Inputs, inp': Inputs, prev: Baseline)
    requires SameInputs(rules, inp, inp') && ri < |rules|
    ensures Guard(rules[ri].when, ri, inp, prev) <==> Guard(rules[ri].when, ri, inp', prev)
  {
    SameInputsSameDecisions(rules, ri, inp, inp', prev);
  }

  lemma SameInputsSameActions(rules: seq<Rule>, inp: Inputs, inp': Inputs, prev: Baseline)
    requires SameInputs(rules, inp, inp')
    ensures Chosen(rules, |rules|, Satisfied(rules, inp, prev)) == Chosen(rules, |rules|, Satisfied(rules, inp', prev))
  {
    var a, b := Satisfied(rules, inp, prev), Satisfied(rules, inp', prev);
    forall i: nat | i < |rules| ensures a(i) == b(i) {
      SameInputsSameGuard(rules, i, inp, inp', prev);
    }
    SameChoice(rules, |rules|, a, b);
  }

  lemma SameInputsSameEntry(rules: seq<Rule>, k: Key, inp: Inputs, inp': Inputs, prev: Baseline)
    requires SameInputs(rules, inp, inp') && k.1 < |rules|
    ensures Sampled(rules, k, inp, prev) <==> Sampled(rules, k, inp', prev)
    ensures Sampled(rules, k, inp, prev) ==> Outcome(rules, k, inp) == Outcome(rules, k, inp')
  {
    SameInputsSameDecisions(rules, k.1, inp, inp', prev);
  }

  lemma SameInputsSameBaseline(rules: seq<Rule>, inp: Inputs, inp': Inputs, prev: Baseline)
    requires SameInputs(rules, inp, inp')
    ensures NextBaseline(rules, inp, prev) == NextBaseline(rules, inp', prev)
  {
    var a, b := NextBaseline(rules, inp, prev), NextBaseline(rules, inp', prev);
    forall k: Key ensures Lookup(a, k) == Lookup(b, k) {
      if k.1 < |rules| {
        SameInputsSameEntry(rules, k, inp, inp', prev);
      }
    }
    SameLookups(a, b);
  }

  lemma LookAlikeInputs(timeout: Option<nat>, a: seq<Event>, now: nat, b: seq<Event>, now': nat, rules: seq<Rule>)
    requires LookAlike(timeout, rules, History(a), now, History(b), now')
    ensures SameInputs(rules, InputsOf(StateAfter(timeout, a), now), InputsOf(StateAfter(timeout, b), now'))
  {
    var sa, sb := StateAfter(timeout, a), StateAfter(timeout, b);
    forall t ensures Lookup(Snapshot(sa, now), t) == Visible(timeout, History(a), t, now) {
      LatestIsHistory(timeout, a, t);
    }
    forall t ensures Lookup(Snapshot(sb, now'), t) == Visible(timeout, History(b), t, now') {
      LatestIsHistory(timeout, b, t);
    }
    forall r, z ensures InZone(sa.zones, r, z) <==> InZone(sb.zones, r, z) {
      ZonesAreHistory(timeout, a, r, z);
      ZonesAreHistory(timeout, b, r, z);
    }
    ZonesAreHistory(timeout, a, "", "");
    ZonesAreHistory(timeout, b, "", "");
    SameZones(sa.zones, sb.zones);
  }

  lemma SameZones(x: ZoneMap, y: ZoneMap)
    requires NoEmptyZoneSet(x) && NoEmptyZoneSet(y)
    requires forall r, z :: InZone(x, r, z) <==> InZone(y, r, z)
    ensures x == y
  {
    forall r ensures r in x <==> r in y {
      if r in x {
        var z :| z in x[r];
        assert InZone(x, r, z);
      }
      if r in y {
        var z :| z in y[r];
        assert InZone(y, r, z);
      }
    }
    forall r | r in x ensures x[r] == y[r] {
      forall z ensures z in x[r] <==> z in y[r] {
        assert InZone(x, r, z) <==> InZone(y, r, z);
      }
    }
  }

  lemma SameTick(s: State, now: nat, s': State, now': nat, arc: RulesArc)
    requires SameInputs(arc.rules.rules, InputsOf(s, now), InputsOf(s', now'))
    requires s.prev == s'.prev && s.lastRules == s'.lastRules
    ensures TickActions(s, arc, now) == TickActions(s', arc, now')
    ensures TickState(s, arc, now).prev == TickState(s', arc, now').prev
  {
    var rules := arc.rules.rules;
    SameInputsSameActions(rules, InputsOf(s, now), InputsOf(s', now'), BaseOf(s, arc));
    SameInputsSameBaseline(rules, InputsOf(s, now), InputsOf(s', now'), BaseOf(s, arc));
  }

  lemma IngestEmitsNothing(timeout: Option<nat>, es: seq<Event>)
    requires es != [] && es[|es| - 1].Ingest?
    ensures var init := es[..|es| - 1]; var s, t := StateAfter(timeout, init), StateAfter(timeout, es);
            && Outputs(timeout, es) == Outputs(timeout, init)
            && t.prev == s.prev && t.lastRules == s.lastRules
  {
    var x := es[|es| - 1].sample;
    IngestLatest(StateAfter(timeout, es[..|es| - 1]), x, x.topic);
  }

  // Indistinguishable runs emit the same actions at every tick: bursts collapse to their last
  // sample, and topics no trigger names have no effect.
  lemma {:induction false} NonInterference(timeout: Option<nat>, a: seq<Event>, b: seq<Event>)
    requires Indistinguishable(timeout, a, b)
    ensures Outputs(timeout, a) == Outputs(timeout, b)
    ensures StateAfter(timeout, a).prev == StateAfter(timeout, b).prev
    ensures StateAfter(timeout, a).lastRules == StateAfter(timeout, b).lastRules
    decreases |a| + |b|
  {
    if a != [] && a[|a| - 1].Ingest? {
      NonInterference(timeout, a[..|a| - 1], b);
      IngestEmitsNothing(timeout, a);
    } else if b != [] && b[|b| - 1].Ingest? {
      NonInterference(timeout, a, b[..|b| - 1]);
      IngestEmitsNothing(timeout, b);
    } else if a != [] {
      SameLastTick(timeout, a, b);
    }
  }

  lemma {:induction false} SameLastTick(timeout: Option<nat>, a: seq<Event>, b: seq<Event>)
    requires a != [] && b != [] && a[|a| - 1].Tick? && b[|b| - 1].Tick? && Indistinguishable(timeout, a, b)
    ensures Outputs(timeout, a) == Outputs(timeout, b)
    ensures StateAfter(timeout, a).prev == StateAfter(timeout, b).prev
    ensures StateAfter(timeout, a).lastRules == StateAfter(timeout, b).lastRules
    decreases |a| + |b|, 0
  {
    var a', b', ta, tb := a[..|a| - 1], b[..|b| - 1], a[|a| - 1], b[|b| - 1];
    NonInterference(timeout, a', b');
    HistoryStep(a);
    HistoryStep(b);
    LookAlikeInputs(timeout, a', ta.now, b', tb.now, ta.arc.rules.rules);
    SameTick(StateAfter(timeout, a'), ta.now, StateAfter(timeout, b'), tb.now, ta.arc);
  }

  // --- Samples that make no difference -------------------------------------------------------

  // No tick of `q` depends on a sample of `topic` ingested before `q`: the ruleset does not name
  // the topic, or a later sample of it has arrived by then.
  ghost predicate Superseded(topic: string, q: seq<Event>) {
    q == [] ||
    var init, e := q[..|q| - 1], q[|q| - 1];
    && Superseded(topic, init)
    && (e.Tick? ==> LastSample(History(init), topic).Some?
                    || forall r :: r in e.arc.rules.rules ==> topic !in CollectTopics(r.when))
  }

  lemma {:induction false} HistoryConcat(a: seq<Event>, b: seq<Event>)
    ensures History(a + b) == History(a) + History(b)
  {
    if b == [] {
      assert a + b == a;
    } else {
      HistoryConcat(a, b[..|b| - 1]);
      assert (a + b)[..|a + b| - 1] == a + b[..|b| - 1];
    }
  }

  lemma {:induction false} LastSampleConcat(h: seq<Sample>, k: seq<Sample>, topic: string)
    ensures LastSample(h + k, topic) ==
            if LastSample(k, topic).Some? then LastSample(k, topic) else LastSample(h, topic)
  {
    if k == [] {
      assert h + k == h;
    } else {
      LastSampleConcat(h, k[..|k| - 1], topic);
      assert (h + k)[..|h + k| - 1] == h + k[..|k| - 1];
    }
  }

  lemma {:induction false} LastZoneConcat(h: seq<Sample>, k: seq<Sample>, r: string, z: string)
    ensures LastZone(h + k, r, z) == if LastZone(k, r, z).Some? then LastZone(k, r, z) else LastZone(h, r, z)
  {
    if k == [] {
      assert h + k == h;
    } else {
      LastZoneConcat(h, k[..|k| - 1], r, z);
      assert (h + k)[..|h + k| - 1] == h + k[..|k| - 1];
    }
  }

  lemma ExtraSampleLooksAlike(timeout: Option<nat>, h: seq<Sample>, x: Sample, k: seq<Sample>, rules: seq<Rule>,
      now: nat)
    requires ZoneEventOf(x.topic, x.payload).None?
    requires LastSample(k, x.topic).Some? || forall r :: r in rules ==> x.topic !in CollectTopics(r.when)
    ensures LookAlike(timeout, rules, h + [x] + k, now, h + k, now)
  {
    forall r, t | r in rules && t in CollectTopics(r.when)
      ensures Visible(timeout, h + [x] + k, t, now) == Visible(timeout, h + k, t, now)
    {
      LastSampleConcat(h + [x], k, t);
      LastSampleConcat(h, k, t);
      LastSampleStep(h, x, t);
    }
    forall r, z ensures LastEntered(h + [x] + k, r, z) <==> LastEntered(h + k, r, z) {
      LastZoneConcat(h + [x], k, r, z);
      LastZoneConcat(h, k, r, z);
      LastZoneConcat(h, [x], r, z);
      assert [x][..0] == [];
    }
  }

  // Trailing samples of either run can be dropped.
  lemma {:induction false} DropTrailingSample(timeout: Option<nat>, a: seq<Event>, b: seq<Event>)
    requires b != [] && b[|b| - 1].Ingest?
    ensures Indistinguishable(timeout, a, b) <==> Indistinguishable(timeout, a, b[..|b| - 1])
  {
    if a != [] && a[|a| - 1].Ingest? {
      DropTrailingSample(timeout, a[..|a| - 1], b);
    }
  }

  lemma {:induction false} SameRunIndistinguishable(timeout: Option<nat>, a: seq<Event>)
    ensures Indistinguishable(timeout, a, a)
  {
    if a != [] {
      SameRunIndistinguishable(timeout, a[..|a| - 1]);
      if a[|a| - 1].Ingest? {
        DropTrailingSample(timeout, a[..|a| - 1], a);
      }
    }
  }

  lemma {:induction false} ExtraSampleIndistinguishable(timeout: Option<nat>, p: seq<Event>, x: Sample, q: seq<Event>)
    requires ZoneEventOf(x.topic, x.payload).None? && Superseded(x.topic, q)
    ensures Indistinguishable(timeout, p + [Ingest(x)] + q, p + q)
  {
    var a, b := p + [Ingest(x)] + q, p + q;
    if q == [] {
      assert a[..|a| - 1] == p && b == p;
      SameRunIndistinguishable(timeout, p);
    } else {
      var init, e := q[..|q| - 1], q[|q| - 1];
      ExtraSampleIndistinguishable(timeout, p, x, init);
      var a', b' := p + [Ingest(x)] + init, p + init;
      assert a == a' + [e] && b == b' + [e];
      assert a[..|a| - 1] == a' && b[..|b| - 1] == b';
      if e.Tick? {
        HistoryConcat(p + [Ingest(x)], init);
        HistoryConcat(p, init);
        assert (p + [Ingest(x)])[..|p|] == p;
        assert History(p + [Ingest(x)]) == History(p) + [x];
        ExtraSampleLooksAlike(timeout, History(p), x, History(init), e.arc.rules.rules, e.now);
        HistoryStep(a);
        HistoryStep(b);
      } else {
        DropTrailingSample(timeout, a', b);
      }
    }
  }

  // A sample overtaken by a later one before any tick needs it, or on a topic no ruleset names,
  // can be removed from the run without changing any tick's actions.
  lemma SupersededSampleHasNoEffect(timeout: Option<nat>, p: seq<Event>, x: Sample, q: seq<Event>)
    requires ZoneEventOf(x.topic, x.payload).None? && Superseded(x.topic, q)
    ensures Outputs(timeout, p + [Ingest(x)] + q) == Outputs(timeout, p + q)
  {
    ExtraSampleIndistinguishable(timeout, p, x, q);
    NonInterference(timeout, p + [Ingest(x)] + q, p + q);
  }

  // With a staleness timeout `d`, a sample counts up to and including age `d`; after that every
  // trigger on its topic is false, negated ones included.
  lemma StaleFailsClosed(d: nat, es: seq<Event>, t: Trigger, now: nat)
    requires LastSample(History(es), t.topic).Some?
    ensures var x := LastSample(History(es), t.topic).value; var s := StateAfter(Some(d), es);
            Cur(t, InputsOf(s, now)) <==> now <= x.at + d && EvalPredicate(t.pred, x.payload, s.zones)
  {
    LatestIsHistory(Some(d), es, t.topic);
  }
}
