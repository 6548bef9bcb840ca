// The evaluation engine (src/engine.rs): an `EvalState` whose short-circuiting guard
// evaluation updates the edge baseline `prev`, specified by a pure state machine.
module Engine {
  import opened Wrappers
  import opened RuleTypes
  import opened Predicates
  import Strings
  import Topic

  // (topic, rule index, trigger index); `any` triggers are numbered after the `all` triggers.
  type Key = (string, nat, nat)
  type Baseline = map<Key, bool>

  // What one tick evaluates against: the fresh samples and the zones.
  datatype Inputs = Inputs(snap: map<string, Value>, zones: ZoneMap)

  // --- One tick, as formulas over the baseline at its start ------------------------------

  function TriggersOf(w: When): (r: seq<Trigger>) {
    w.all + w.any
  }

  // A trigger's outcome on the current inputs.
  predicate Cur(t: Trigger, inp: Inputs) {
    t.topic in inp.snap && EvalPredicate(t.pred, inp.snap[t.topic], inp.zones)
  }

  // A trigger's contribution to its guard: a Level trigger its outcome, an Edge trigger
  // whether the outcome differs from the recorded one.
  predicate Decision(t: Trigger, ri: nat, ti: nat, inp: Inputs, prev: Baseline) {
    match t.mode
    case Level => Cur(t, inp)
    case Edge => (t.topic, ri, ti) in prev && prev[(t.topic, ri, ti)] != Cur(t, inp)
  }

  predicate Decides(w: When, ri: nat, ti: nat, inp: Inputs, prev: Baseline)
    requires ti < |TriggersOf(w)|
  {
    Decision(TriggersOf(w)[ti], ri, ti, inp, prev)
  }

  predicate Guard(w: When, ri: nat, inp: Inputs, prev: Baseline) {
    && TriggersOf(w) != []
    && (forall i :: 0 <= i < |w.all| ==> Decides(w, ri, i, inp, prev))
    && (w.any == [] || exists i :: |w.all| <= i < |TriggersOf(w)| && Decides(w, ri, i, inp, prev))
  }

  // Evaluation of either list stops at the first trigger that settles it; the `any` list is
  // evaluated even when the `all` list has failed.
  predicate Reached(w: When, ri: nat, ti: nat, inp: Inputs, prev: Baseline)
    requires ti < |TriggersOf(w)|
  {
    if ti < |w.all| then forall i :: 0 <= i < ti ==> Decides(w, ri, i, inp, prev)
    else forall i :: |w.all| <= i < ti ==> !Decides(w, ri, i, inp, prev)
  }

  // `k` names an Edge trigger of guard `w` at rule index `ri`.
  predicate EdgeKey(w: When, ri: nat, k: Key) {
    && k.1 == ri && k.2 < |TriggersOf(w)|
    && TriggersOf(w)[k.2].topic == k.0 && TriggersOf(w)[k.2].mode == Edge
  }

  predicate SampledIn(w: When, ri: nat, k: Key, inp: Inputs, prev: Baseline) {
    EdgeKey(w, ri, k) && Reached(w, ri, k.2, inp, prev)
  }

  // `k` names an Edge trigger that this tick evaluates.
  predicate Sampled(rules: seq<Rule>, k: Key, inp: Inputs, prev: Baseline) {
    k.1 < |rules| && SampledIn(rules[k.1].when, k.1, k, inp, prev)
  }

  predicate Outcome(rules: seq<Rule>, k: Key, inp: Inputs)
    requires k.1 < |rules| && k.2 < |TriggersOf(rules[k.1].when)|
  {
    Cur(TriggersOf(rules[k.1].when)[k.2], inp)
  }

  function KeysOf(rules: seq<Rule>): (r: set<Key>) {
    set ri, ti | 0 <= ri < |rules| && 0 <= ti < |TriggersOf(rules[ri].when)| ::
      (TriggersOf(rules[ri].when)[ti].topic, ri, ti)
  }

  // The baseline after a tick: every evaluated Edge trigger records its outcome.
  function NextBaseline(rules: seq<Rule>, inp: Inputs, prev: Baseline): (r: Baseline)
    ensures forall k :: Lookup(r, k) ==
                        if Sampled(rules, k, inp, prev) then Some(Outcome(rules, k, inp)) else Lookup(prev, k)
  {
    map k | k in prev.Keys + KeysOf(rules) && (k in prev || Sampled(rules, k, inp, prev)) ::
      if Sampled(rules, k, inp, prev) then Outcome(rules, k, inp) else prev[k]
  }

  // The actions of the chosen rules among the first `n`, in order.
  function Chosen(rules: seq<Rule>, n: nat, chosen: nat -> bool): (r: seq<Action>)
    requires n <= |rules|
  {
    if n == 0 then [] else Chosen(rules, n - 1, chosen) + (if chosen(n - 1) then rules[n - 1].actions else [])
  }

  lemma {:induction false} SameChoice(rules: seq<Rule>, n: nat, a: nat -> bool, b: nat -> bool)
    requires n <= |rules| && forall i: nat :: i < n ==> a(i) == b(i)
    ensures Chosen(rules, n, a) == Chosen(rules, n, b)
  {
    if n > 0 {
      SameChoice(rules, n - 1, a, b);
    }
  }

  // How many actions the firing rules among the first `n` have together.
  ghost function ActionsBefore(rules: seq<Rule>, n: nat, fires: nat -> bool): (r: nat)
    requires n <= |rules|
  {
    if n == 0 then 0 else ActionsBefore(rules, n - 1, fires) + if fires(n - 1) then |rules[n - 1].actions| else 0
  }

  ghost predicate BlockAt(out: seq<Action>, at: nat, block: seq<Action>) {
    at + |block| <= |out| && out[at..at + |block|] == block
  }

  // The output consists of the action lists of the firing rules, each standing as one block right
  // after those of the firing rules before it.
  ghost predicate EmitsBlocks(out: seq<Action>, rules: seq<Rule>, fires: nat -> bool) {
    && |out| == ActionsBefore(rules, |rules|, fires)
    && forall i: nat :: i < |rules| && fires(i) ==> BlockAt(out, ActionsBefore(rules, i, fires), rules[i].actions)
  }

  lemma {:induction false} ChosenLength(rules: seq<Rule>, n: nat, fires: nat -> bool)
    requires n <= |rules|
    ensures |Chosen(rules, n, fires)| == ActionsBefore(rules, n, fires)
  {
    if n > 0 {
      ChosenLength(rules, n - 1, fires);
    }
  }

  lemma {:induction false} ChosenBlock(rules: seq<Rule>, n: nat, fires: nat -> bool, i: nat)
    requires i < n <= |rules| && fires(i)
    ensures BlockAt(Chosen(rules, n, fires), ActionsBefore(rules, i, fires), rules[i].actions)
  {
    var init := Chosen(rules, n - 1, fires);
    ChosenLength(rules, n - 1, fires);
    if i < n - 1 {
      ChosenBlock(rules, n - 1, fires, i);
    }
  }

  lemma ChosenBlocks(rules: seq<Rule>, fires: nat -> bool)
    ensures EmitsBlocks(Chosen(rules, |rules|, fires), rules, fires)
  {
    ChosenLength(rules, |rules|, fires);
    forall i: nat | i < |rules| && fires(i)
      ensures BlockAt(Chosen(rules, |rules|, fires), ActionsBefore(rules, i, fires), rules[i].actions)
    {
      ChosenBlock(rules, |rules|, fires, i);
    }
  }

  lemma AfterBlock(out: seq<Action>, at: nat, block: seq<Action>)
    requires BlockAt(out, at, block)
    ensures out[..at + |block|] == out[..at] + block
  {
  }

  lemma {:induction false} BlockPrefix(out: seq<Action>, rules: seq<Rule>, fires: nat -> bool, n: nat)
    requires n <= |rules| && EmitsBlocks(out, rules, fires)
    ensures ActionsBefore(rules, n, fires) <= |out|
    ensures out[..ActionsBefore(rules, n, fires)] == Chosen(rules, n, fires)
  {
    BlocksFit(rules, n, |rules|, fires);
    if n > 0 {
      BlockPrefix(out, rules, fires, n - 1);
      if fires(n - 1) {
        AfterBlock(out, ActionsBefore(rules, n - 1, fires), rules[n - 1].actions);
      }
    }
  }

  lemma {:induction false} BlocksFit(rules: seq<Rule>, m: nat, n: nat, fires: nat -> bool)
    requires m <= n <= |rules|
    ensures ActionsBefore(rules, m, fires) <= ActionsBefore(rules, n, fires)
  {
    if m < n {
      BlocksFit(rules, m, n - 1, fires);
    }
  }

  // The blocks leave nothing open: there is exactly one such output.
  lemma BlocksDetermineOutput(out: seq<Action>, rules: seq<Rule>, fires: nat -> bool)
    ensures EmitsBlocks(out, rules, fires) <==> out == Chosen(rules, |rules|, fires)
  {
    ChosenBlocks(rules, fires);
    if EmitsBlocks(out, rules, fires) {
      BlockPrefix(out, rules, fires, |rules|);
      assert out[..|out|] == out;
    }
  }

  function Satisfied(rules: seq<Rule>, inp: Inputs, prev: Baseline): (r: nat -> bool) {
    (i: nat) => i < |rules| && Guard(rules[i].when, i, inp, prev)
  }

  // --- What a guard evaluation records, trigger by trigger ---------------------------------

  // The entry of trigger `t` in slot `ti` afterwards: its outcome if it is an Edge trigger that was
  // evaluated, and otherwise what it was.
  ghost predicate EntryAfter(t: Trigger, ri: nat, ti: nat, inp: Inputs, prev: Baseline, next: Baseline, evaluated: bool)
  {
    Lookup(next, (t.topic, ri, ti)) ==
    if evaluated && t.mode == Edge then Some(Cur(t, inp)) else Lookup(prev, (t.topic, ri, ti))
  }

  ghost predicate AllBeforeHold(w: When, ri: nat, j: nat, inp: Inputs, prev: Baseline)
    requires j <= |w.all|
  {
    forall i: nat :: i < j ==> Decision(w.all[i], ri, i, inp, prev)
  }

  ghost predicate NoneBeforeHolds(w: When, ri: nat, j: nat, inp: Inputs, prev: Baseline)
    requires j <= |w.any|
  {
    forall i: nat :: i < j ==> !Decision(w.any[i], ri, |w.all| + i, inp, prev)
  }

  // An `all` trigger is evaluated when all those before it have decided true; an `any` trigger when
  // all those before it have decided false, whatever became of the `all` list.
  ghost predicate ShortCircuits(w: When, ri: nat, inp: Inputs, prev: Baseline, next: Baseline) {
    && (forall j: nat :: j < |w.all| ==>
          EntryAfter(w.all[j], ri, j, inp, prev, next, AllBeforeHold(w, ri, j, inp, prev)))
    && (forall j: nat :: j < |w.any| ==>
          EntryAfter(w.any[j], ri, |w.all| + j, inp, prev, next, NoneBeforeHolds(w, ri, j, inp, prev)))
  }

  // A key that is no trigger's own keeps its entry.
  ghost predicate OthersKept(w: When, ri: nat, prev: Baseline, next: Baseline) {
    forall k: Key :: k.1 == ri && !(k.2 < |w.all + w.any| && (w.all + w.any)[k.2].topic == k.0) ==>
      Lookup(next, k) == Lookup(prev, k)
  }

  lemma AllReached(w: When, ri: nat, j: nat, inp: Inputs, prev: Baseline)
    requires j < |w.all|
    ensures Reached(w, ri, j, inp, prev) <==> AllBeforeHold(w, ri, j, inp, prev)
  {
    forall i: nat | i < j ensures Decides(w, ri, i, inp, prev) <==> Decision(w.all[i], ri, i, inp, prev) {
      assert TriggersOf(w)[i] == w.all[i];
    }
  }

  lemma AnyReached(w: When, ri: nat, j: nat, inp: Inputs, prev: Baseline)
    requires j < |w.any|
    ensures Reached(w, ri, |w.all| + j, inp, prev) <==> NoneBeforeHolds(w, ri, j, inp, prev)
  {
    var n := |w.all|;
    forall i: nat | i < j ensures Decides(w, ri, n + i, inp, prev) <==> Decision(w.any[i], ri, n + i, inp, prev) {
      assert TriggersOf(w)[n + i] == w.any[i];
    }
    if NoneBeforeHolds(w, ri, j, inp, prev) {
      forall m | n <= m < n + j ensures !Decides(w, ri, m, inp, prev) {
        assert Decides(w, ri, n + (m - n), inp, prev) <==> Decision(w.any[m - n], ri, n + (m - n), inp, prev);
      }
    }
  }

  lemma AllShortCircuits(w: When, ri: nat, inp: Inputs, prev: Baseline, next: Baseline)
    requires forall k: Key :: k.1 == ri && k.2 < |w.all| ==>
               (Lookup(next, k) ==
                if SampledIn(w, ri, k, inp, prev) then Some(Cur(TriggersOf(w)[k.2], inp)) else Lookup(prev, k))
    ensures forall j: nat :: j < |w.all| ==>
              EntryAfter(w.all[j], ri, j, inp, prev, next, AllBeforeHold(w, ri, j, inp, prev))
  {
    forall j: nat | j < |w.all|
      ensures EntryAfter(w.all[j], ri, j, inp, prev, next, AllBeforeHold(w, ri, j, inp, prev))
    {
      assert TriggersOf(w)[j] == w.all[j];
      AllReached(w, ri, j, inp, prev);
    }
  }

  // Guard evaluation short-circuits as stated.
  lemma GuardShortCircuits(w: When, ri: nat, inp: Inputs, prev: Baseline, next: Baseline)
    requires forall k: Key :: k.1 == ri ==>
               (Lookup(next, k) ==
                if SampledIn(w, ri, k, inp, prev) then Some(Cur(TriggersOf(w)[k.2], inp)) else Lookup(prev, k))
    ensures ShortCircuits(w, ri, inp, prev, next) && OthersKept(w, ri, prev, next)
  {
    AllShortCircuits(w, ri, inp, prev, next);
    forall j: nat | j < |w.any|
      ensures EntryAfter(w.any[j], ri, |w.all| + j, inp, prev, next, NoneBeforeHolds(w, ri, j, inp, prev))
    {
      assert TriggersOf(w)[|w.all| + j] == w.any[j];
      AnyReached(w, ri, j, inp, prev);
    }
  }

  // So does every rule of a tick, from the baseline at the tick's start.
  lemma TickShortCircuits(rules: seq<Rule>, ri: nat, inp: Inputs, prev: Baseline)
    requires ri < |rules|
    ensures ShortCircuits(rules[ri].when, ri, inp, prev, NextBaseline(rules, inp, prev))
    ensures OthersKept(rules[ri].when, ri, prev, NextBaseline(rules, inp, prev))
  {
    GuardShortCircuits(rules[ri].when, ri, inp, prev, NextBaseline(rules, inp, prev));
  }

  // --- The state machine ---------------------------------------------------------------

  // Instants are natural numbers on a monotone clock.
  datatype State = State(
    latest: map<string, Value>,
    timestamps: map<string, nat>,
    zones: ZoneMap,
    prev: Baseline,
    lastRules: Option<RulesArc>,
    timeout: Option<nat>)

  function Enter(zones: ZoneMap, robotId: string, zoneId: string): (r: ZoneMap) {
    zones[robotId := (if robotId in zones then zones[robotId] else {}) + {zoneId}]
  }

  // A robot whose last zone is cleared is forgotten.
  function Clear(zones: ZoneMap, robotId: string, zoneId: string): (r: ZoneMap) {
    if robotId !in zones then zones
    else if zones[robotId] - {zoneId} == {} then zones - {robotId}
    else zones[robotId := zones[robotId] - {zoneId}]
  }

  datatype ZoneEvent = ZoneEvent(robotId: string, zoneId: string, entered: bool)

  // The zone event a sample carries, if its topic and payload are well formed.
  function ZoneEventOf(topic: string, payload: Value): (r: Option<ZoneEvent>) {
    match (Topic.ReadZoneTopic(topic), Get(payload, "robot_id"))
    case (Some(z), Some(Text(robotId))) => Some(ZoneEvent(robotId, z.zoneId, z.entered))
    case _ => None
  }

  // Which samples are zone events, by the segments of their topic: `zone/<id>/../entered` and
  // `zone/<id>/../cleared` with a text `robot_id`.
  lemma ZoneEventMeans(topic: string, payload: Value)
    ensures var parts := Strings.Split(topic);
            ZoneEventOf(topic, payload) ==
            if |parts| >= 3 && parts[0] == "zone" && parts[|parts| - 1] in ["entered", "cleared"]
               && payload.Object? && "robot_id" in payload.fields && payload.fields["robot_id"].Text?
            then Some(ZoneEvent(payload.fields["robot_id"].s, parts[1], parts[|parts| - 1] == "entered"))
            else None
  {
    Topic.ZoneTopicBySegments(topic);
  }

  function ApplyZone(zones: ZoneMap, e: ZoneEvent): (r: ZoneMap) {
    if e.entered then Enter(zones, e.robotId, e.zoneId) else Clear(zones, e.robotId, e.zoneId)
  }

  function IngestStep(s: State, topic: string, payload: Value, now: nat): (r: State) {
    if Topic.IsZoneTopic(topic) then
      match ZoneEventOf(topic, payload)
      case Some(e) => s.(zones := ApplyZone(s.zones, e))
      case None => s
    else s.(timestamps := s.timestamps[topic := now], latest := s.latest[topic := payload])
  }

  // A sample is visible unless it is timestamped, a timeout is set, and it is older than that.
  predicate Fresh(timeout: Option<nat>, timestamp: Option<nat>, now: nat) {
    timeout.None? || timestamp.None? || now - timestamp.value <= timeout.value
  }

  function Snapshot(s: State, now: nat): (r: map<string, Value>) {
    map k | k in s.latest && Fresh(s.timeout, Lookup(s.timestamps, k), now) :: s.latest[k]
  }

  predicate ArcChanged(s: State, arc: RulesArc) {
    s.lastRules != Some(arc)
  }

  // The baseline a tick starts from: emptied when the ruleset pointer has changed.
  function BaseOf(s: State, arc: RulesArc): (r: Baseline) {
    if ArcChanged(s, arc) then map[] else s.prev
  }

  function InputsOf(s: State, now: nat): (r: Inputs) {
    Inputs(Snapshot(s, now), s.zones)
  }

  function TickState(s: State, arc: RulesArc, now: nat): (r: State) {
    s.(prev := NextBaseline(arc.rules.rules, InputsOf(s, now), BaseOf(s, arc)), lastRules := Some(arc))
  }

  function TickActions(s: State, arc: RulesArc, now: nat): (r: seq<Action>) {
    Chosen(arc.rules.rules, |arc.rules.rules|, Satisfied(arc.rules.rules, InputsOf(s, now), BaseOf(s, arc)))
  }

  lemma TickEmitsBlocks(s: State, arc: RulesArc, now: nat)
    ensures EmitsBlocks(TickActions(s, arc, now), arc.rules.rules,
                        Satisfied(arc.rules.rules, InputsOf(s, now), BaseOf(s, arc)))
  {
    ChosenBlocks(arc.rules.rules, Satisfied(arc.rules.rules, InputsOf(s, now), BaseOf(s, arc)));
  }

  // --- The implementation ----------------------------------------------------------------

  class EvalState {
    var latest: map<string, Value>
    var zones: ZoneMap
    var prev: Baseline
    var lastRules: RulesArc?
    var timestamps: map<string, nat>
    var stalenessTimeout: Option<nat>

    function View(): (r: State)
      reads this
    {
      State(latest, timestamps, zones, prev, if lastRules == null then None else Some(lastRules), stalenessTimeout)
    }

    // `EvalState::empty`, optionally `with_staleness`.
    constructor (timeout: Option<nat>)
      ensures View() == State(map[], map[], map[], map[], None, timeout)
    {
      latest, zones, prev, timestamps := map[], map[], map[], map[];
      lastRules := null;
      stalenessTimeout := timeout;
    }

    method EnterZone(robotId: string, zoneId: string)
      modifies this`zones
      ensures zones == Enter(old(zones), robotId, zoneId)
    {
      if robotId !in zones {
        zones := zones[robotId := {}];
      }
      zones := zones[robotId := zones[robotId] + {zoneId}];
    }

    method ClearZone(robotId: string, zoneId: string)
      modifies this`zones
      ensures zones == Clear(old(zones), robotId, zoneId)
    {
      if robotId in zones {
        zones := zones[robotId := zones[robotId] - {zoneId}];
        if zones[robotId] == {} {
          zones := zones - {robotId};
        }
      }
    }

    method Ingest(topic: string, payload: Value, now: nat)
      modifies this
      ensures View() == IngestStep(old(View()), topic, payload, now)
    {
      if Topic.StartsWith(topic, "zone/") && (Topic.EndsWith(topic, "/entered") || Topic.EndsWith(topic, "/cleared")) {
        var parts := Strings.Split(topic);
        if |parts| >= 3 {
          var zoneId := parts[1];
          match Get(payload, "robot_id") {
            case Some(Text(robotId)) =>
              if Topic.EndsWith(topic, "/entered") {
                EnterZone(robotId, zoneId);
              } else {
                ClearZone(robotId, zoneId);
              }
            case _ =>
          }
        }
        return;
      }
      timestamps := timestamps[topic := now];
      latest := latest[topic := payload];
    }

    method TickWithArc(rules: RulesArc, now: nat) returns (out: seq<Action>)
      modifies this
      ensures View() == TickState(old(View()), rules, now)
      ensures out == TickActions(old(View()), rules, now)
    {
      if lastRules == null || lastRules != rules {
        prev := map[];
        lastRules := rules;
      }
      out := TickInner(rules.rules, now);
    }

    // Also the body of `tick(&Rules)`, which cannot see a pointer and so never clears `prev`.
    method TickInner(rules: Rules, now: nat) returns (out: seq<Action>)
      modifies this`prev
      ensures prev == NextBaseline(rules.rules, InputsOf(old(View()), now), old(prev))
      ensures out == Chosen(rules.rules, |rules.rules|, Satisfied(rules.rules, InputsOf(old(View()), now), old(prev)))
      ensures EmitsBlocks(out, rules.rules, Satisfied(rules.rules, InputsOf(old(View()), now), old(prev)))
    {
      out := EvalRules(rules.rules, InputsOf(View(), now));
    }

    method EvalRules(rules: seq<Rule>, inp: Inputs) returns (out: seq<Action>)
      modifies this`prev
      ensures prev == NextBaseline(rules, inp, old(prev))
      ensures out == Chosen(rules, |rules|, Satisfied(rules, inp, old(prev)))
      ensures EmitsBlocks(out, rules, Satisfied(rules, inp, old(prev)))
    {
      out := [];
      ghost var chosen := Satisfied(rules, inp, old(prev));
      for ri := 0 to |rules|
        invariant forall k: Key :: Lookup(prev, k) == AfterRules(rules, ri, k, inp, old(prev))
        invariant out == Chosen(rules, ri, chosen)
      {
        ghost var before := prev;
        var satisfied := WhenSatisfiedWithPrev(rules[ri].when, ri, inp);
        RuleStep(rules, ri, inp, old(prev), before, prev);
        assert satisfied == chosen(ri);
        if satisfied {
          out := out + rules[ri].actions;
        }
      }
      SameLookups(prev, NextBaseline(rules, inp, old(prev)));
      ChosenBlocks(rules, chosen);
    }

    // Both lists are evaluated, the second even when the first has failed.
    method WhenSatisfiedWithPrev(w: When, ri: nat, inp: Inputs) returns (ok: bool)
      modifies this`prev
      ensures ok == Guard(w, ri, inp, old(prev))
      ensures forall k: Key :: Lookup(prev, k) ==
                if SampledIn(w, ri, k, inp, old(prev)) then Some(Cur(TriggersOf(w)[k.2], inp)) else Lookup(old(prev), k)
      ensures ShortCircuits(w, ri, inp, old(prev), prev) && OthersKept(w, ri, old(prev), prev)
    {
      if w.all == [] && w.any == [] {
        return false;
      }
      var allOk := AllMatch(w, ri, inp);
      var anyOk := true;
      if w.any != [] {
        anyOk := AnyMatch(w, ri, inp, old(prev));
      }
      ok := allOk && anyOk;
      GuardShortCircuits(w, ri, inp, old(prev), prev);
    }

    // `when.all.iter().enumerate().all(..)`: stops at the first trigger that fails.
    method AllMatch(w: When, ri: nat, inp: Inputs) returns (ok: bool)
      modifies this`prev
      ensures ok <==> forall i :: 0 <= i < |w.all| ==> Decides(w, ri, i, inp, old(prev))
      ensures forall k: Key :: Lookup(prev, k) ==
                if k.2 < |w.all| && SampledIn(w, ri, k, inp, old(prev))
                then Some(Cur(TriggersOf(w)[k.2], inp)) else Lookup(old(prev), k)
      ensures forall j: nat :: j < |w.all| ==>
                EntryAfter(w.all[j], ri, j, inp, old(prev), prev, AllBeforeHold(w, ri, j, inp, old(prev)))
    {
      ok := true;
      var i := 0;
      while i < |w.all| && ok
        invariant 0 <= i <= |w.all|
        invariant forall m :: 0 <= m < i - 1 ==> Decides(w, ri, m, inp, old(prev))
        invariant ok <==> i == 0 || Decides(w, ri, i - 1, inp, old(prev))
        invariant forall k: Key :: Lookup(prev, k) ==
                    if EdgeKey(w, ri, k) && k.2 < i then Some(Cur(TriggersOf(w)[k.2], inp)) else Lookup(old(prev), k)
      {
        assert w.all[i] == TriggersOf(w)[i];
        ok := TriggerEdgeMatches(w.all[i], ri, i, inp);
        i := i + 1;
      }
      assert forall m: nat :: m < |w.all| ==> (Reached(w, ri, m, inp, old(prev)) <==> m < i);
      AllShortCircuits(w, ri, inp, old(prev), prev);
    }

    // `when.any.iter().enumerate().any(..)`: stops at the first trigger that holds. `base` is
    // the baseline before the `all` list was evaluated.
    method AnyMatch(w: When, ri: nat, inp: Inputs, ghost base: Baseline) returns (ok: bool)
      requires forall k: Key :: k.2 >= |w.all| ==> Lookup(prev, k) == Lookup(base, k)
      modifies this`prev
      ensures ok <==> exists i :: |w.all| <= i < |TriggersOf(w)| && Decides(w, ri, i, inp, base)
      ensures forall k: Key :: Lookup(prev, k) ==
                if k.2 >= |w.all| && SampledIn(w, ri, k, inp, base)
                then Some(Cur(TriggersOf(w)[k.2], inp)) else Lookup(old(prev), k)
    {
      ok := false;
      var offset := |w.all|;
      var i := 0;
      while i < |w.any| && !ok
        invariant 0 <= i <= |w.any|
        invariant forall m :: offset <= m < offset + i - 1 ==> !Decides(w, ri, m, inp, base)
        invariant ok <==> i > 0 && Decides(w, ri, offset + i - 1, inp, base)
        invariant forall k: Key :: Lookup(prev, k) ==
                    if EdgeKey(w, ri, k) && offset <= k.2 < offset + i
                    then Some(Cur(TriggersOf(w)[k.2], inp)) else Lookup(old(prev), k)
      {
        var t := w.any[i];
        assert t == TriggersOf(w)[offset + i];
        var k := (t.topic, ri, offset + i);
        assert Lookup(prev, k) == Lookup(base, k);
        ok := TriggerEdgeMatches(t, ri, offset + i, inp);
        i := i + 1;
      }
      assert forall m: nat :: offset <= m < |TriggersOf(w)| ==> (Reached(w, ri, m, inp, base) <==> m < offset + i);
    }

    method TriggerEdgeMatches(t: Trigger, ri: nat, ti: nat, inp: Inputs) returns (b: bool)
      modifies this`prev
      ensures b == Decision(t, ri, ti, inp, old(prev))
      ensures prev == if t.mode == Edge then old(prev)[(t.topic, ri, ti) := Cur(t, inp)] else old(prev)
    {
      var cur := if t.topic in inp.snap then EvalPredicate(t.pred, inp.snap[t.topic], inp.zones) else false;
      match t.mode
      case Level => b := cur;
      case Edge =>
        var key := (t.topic, ri, ti);
        var prevVal := Lookup(prev, key);
        prev := prev[key := cur];
        b := prevVal.Some? && prevVal.value != cur;
    }
  }

  // The entry of `k` once the first `n` rules have been evaluated.
  function AfterRules(rules: seq<Rule>, n: nat, k: Key, inp: Inputs, prev: Baseline): (r: Option<bool>) {
    if k.1 < n && Sampled(rules, k, inp, prev) then Some(Outcome(rules, k, inp)) else Lookup(prev, k)
  }

  // Two baselines with the same entries for rule `ri`.
  ghost predicate Agree(a: Baseline, b: Baseline, ri: nat) {
    forall k: Key :: k.1 == ri ==> Lookup(a, k) == Lookup(b, k)
  }

  // One rule's evaluation depends on its own entries only.
  lemma SameBaselineSameRule(w: When, ri: nat, inp: Inputs, a: Baseline, b: Baseline)
    requires Agree(a, b, ri)
    ensures Guard(w, ri, inp, a) <==> Guard(w, ri, inp, b)
    ensures forall k: Key :: SampledIn(w, ri, k, inp, a) <==> SampledIn(w, ri, k, inp, b)
  {
    forall i | 0 <= i < |TriggersOf(w)| ensures Decides(w, ri, i, inp, a) <==> Decides(w, ri, i, inp, b) {
      var k := (TriggersOf(w)[i].topic, ri, i);
      assert Lookup(a, k) == Lookup(b, k);
    }
  }

  // Evaluating rule `n` after the first `n` rules decides and records as at the tick's start.
  lemma RuleStep(rules: seq<Rule>, n: nat, inp: Inputs, start: Baseline, before: Baseline, after: Baseline)
    requires n < |rules|
    requires forall k: Key :: Lookup(before, k) == AfterRules(rules, n, k, inp, start)
    requires forall k: Key :: Lookup(after, k) ==
               if SampledIn(rules[n].when, n, k, inp, before) then Some(Cur(TriggersOf(rules[n].when)[k.2], inp))
               else Lookup(before, k)
    ensures Guard(rules[n].when, n, inp, before) <==> Guard(rules[n].when, n, inp, start)
    ensures forall k: Key :: Lookup(after, k) == AfterRules(rules, n + 1, k, inp, start)
  {
    assert Agree(before, start, n);
    SameBaselineSameRule(rules[n].when, n, inp, before, start);
    forall k: Key ensures Lookup(after, k) == AfterRules(rules, n + 1, k, inp, start) {
      if k.1 == n {
        assert Lookup(before, k) == Lookup(start, k);
      } else {
        assert !SampledIn(rules[n].when, n, k, inp, before);
      }
    }
  }

  lemma SameLookups<K, V>(a: map<K, V>, b: map<K, V>)
    requires forall k :: Lookup(a, k) == Lookup(b, k)
    ensures a == b
  {
    assert forall k :: k in a <==> Lookup(a, k).Some?;
    assert forall k :: k in b <==> Lookup(b, k).Some?;
    assert forall k :: k in a ==> a[k] == Lookup(a, k).value;
  }
}
