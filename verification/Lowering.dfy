// Properties of the guard pipeline `SemanticWhen` -> `WhenExpr` -> `When`: meaning,
// the exact boundary of what is accepted, and conservation of triggers.
module Lowering {
  import opened Wrappers
  import opened Strings
  import opened RuleTypes
  import opened Semantic
  import Topic

  // --- Meaning -----------------------------------------------------------------

  // Truth of an authored guard: every flat key, every `all` child, and some `any` child if
  // there are any. `v` decides each condition.
  ghost predicate AuthoredHolds(w: SemanticWhen, robotId: Id, v: Trigger -> bool) {
    && (w.inZone.Some? ==> v(InZoneTrigger(robotId, w.inZone.value)))
    && (w.notInZone.Some? ==> v(NotInZoneTrigger(robotId, w.notInZone.value)))
    && (w.nearHuman.Some? ==> v(NearHumanTrigger(robotId, w.nearHuman.value)))
    && (w.notNearHuman.Some? ==> v(NotNearHumanTrigger(robotId, w.notNearHuman.value)))
    && (w.near.Some? ==> v(NearTrigger(robotId, w.near.value)))
    && (w.role.Some? ==> v(RoleTrigger(robotId, w.role.value)))
    && (forall i :: 0 <= i < |w.all| ==> AuthoredHolds(w.all[i], robotId, v))
    && (w.any == [] || exists i :: 0 <= i < |w.any| && AuthoredHolds(w.any[i], robotId, v))
  }

  ghost predicate ExprHolds(e: WhenExpr, v: Trigger -> bool) {
    match e
    case Leaf(t) => v(t)
    case All(cs) => forall i :: 0 <= i < |cs| ==> ExprHolds(cs[i], v)
    case Any(cs) => exists i :: 0 <= i < |cs| && ExprHolds(cs[i], v)
  }

  lemma FlatMembers(w: SemanticWhen, robotId: Id, t: Trigger)
    ensures t in FlatTriggers(w, robotId) <==>
            || (w.inZone.Some? && t == InZoneTrigger(robotId, w.inZone.value))
            || (w.notInZone.Some? && t == NotInZoneTrigger(robotId, w.notInZone.value))
            || (w.nearHuman.Some? && t == NearHumanTrigger(robotId, w.nearHuman.value))
            || (w.notNearHuman.Some? && t == NotNearHumanTrigger(robotId, w.notNearHuman.value))
            || (w.near.Some? && t == NearTrigger(robotId, w.near.value))
            || (w.role.Some? && t == RoleTrigger(robotId, w.role.value))
  {
  }

  lemma FlatLength(w: SemanticWhen, robotId: Id)
    ensures |FlatTriggers(w, robotId)| == FlatCount(w)
  {
  }

  ghost predicate SlotHolds(ts: seq<Trigger>, slot: nat, t: Trigger) {
    slot < |ts| && ts[slot] == t
  }

  // Each authored key's trigger stands after those of the keys before it that are authored too, in
  // the fixed key order.
  lemma FlatSlots(w: SemanticWhen, robotId: Id)
    ensures var ts := FlatTriggers(w, robotId);
            var s1 := if w.inZone.Some? then 1 else 0;
            var s2 := s1 + if w.notInZone.Some? then 1 else 0;
            var s3 := s2 + if w.nearHuman.Some? then 1 else 0;
            var s4 := s3 + if w.notNearHuman.Some? then 1 else 0;
            var s5 := s4 + if w.near.Some? then 1 else 0;
            && (w.inZone.Some? ==> SlotHolds(ts, 0, InZoneTrigger(robotId, w.inZone.value)))
            && (w.notInZone.Some? ==> SlotHolds(ts, s1, NotInZoneTrigger(robotId, w.notInZone.value)))
            && (w.nearHuman.Some? ==> SlotHolds(ts, s2, NearHumanTrigger(robotId, w.nearHuman.value)))
            && (w.notNearHuman.Some? ==> SlotHolds(ts, s3, NotNearHumanTrigger(robotId, w.notNearHuman.value)))
            && (w.near.Some? ==> SlotHolds(ts, s4, NearTrigger(robotId, w.near.value)))
            && (w.role.Some? ==> SlotHolds(ts, s5, RoleTrigger(robotId, w.role.value)))
            && |ts| == s5 + if w.role.Some? then 1 else 0
  {
  }

  ghost predicate Reads(t: Trigger, robotId: Id, resource: string, mode: EvalMode) {
    Split(t.topic) == ["robot", robotId, "local", resource] && t.mode == mode
  }

  // Which of the robot's own topics each key reads, and whether it fires on its truth (Level) or
  // on a change of it (Edge).
  lemma KeysRead(robotId: Id, z: string, d: Float64, n: NearSpec, r: string)
    ensures Reads(InZoneTrigger(robotId, z), robotId, "zone", Edge)
    ensures Reads(NotInZoneTrigger(robotId, z), robotId, "zone", Edge)
    ensures Reads(NearHumanTrigger(robotId, d), robotId, "human_present", Level)
    ensures Reads(NotNearHumanTrigger(robotId, d), robotId, "human_present", Level)
    ensures Reads(NearTrigger(robotId, n), robotId, "proximity", Level)
    ensures Reads(RoleTrigger(robotId, r), robotId, "role", Edge)
  {
    Topic.RobotLocalTopic(robotId, ZONE);
    Topic.RobotLocalTopic(robotId, HUMAN_PRESENT);
    Topic.RobotLocalTopic(robotId, PROXIMITY);
    Topic.RobotLocalTopic(robotId, ROLE);
  }

  lemma FlatHold(w: SemanticWhen, robotId: Id, v: Trigger -> bool)
    ensures (forall t :: t in FlatTriggers(w, robotId) ==> v(t)) <==>
            && (w.inZone.Some? ==> v(InZoneTrigger(robotId, w.inZone.value)))
            && (w.notInZone.Some? ==> v(NotInZoneTrigger(robotId, w.notInZone.value)))
            && (w.nearHuman.Some? ==> v(NearHumanTrigger(robotId, w.nearHuman.value)))
            && (w.notNearHuman.Some? ==> v(NotNearHumanTrigger(robotId, w.notNearHuman.value)))
            && (w.near.Some? ==> v(NearTrigger(robotId, w.near.value)))
            && (w.role.Some? ==> v(RoleTrigger(robotId, w.role.value)))
  {
    forall t { FlatMembers(w, robotId, t); }
  }

  lemma AssembleHolds(andParts: seq<WhenExpr>, anyChildren: seq<WhenExpr>, v: Trigger -> bool)
    ensures ExprHolds(Assemble(andParts, anyChildren), v) <==>
            && (forall i :: 0 <= i < |andParts| ==> ExprHolds(andParts[i], v))
            && (anyChildren == [] || ExprHolds(Any(anyChildren), v))
  {
    if anyChildren != [] && andParts != [] {
      var parts := andParts + [Any(anyChildren)];
      assert parts[|andParts|] == Any(anyChildren);
      assert forall i :: 0 <= i < |andParts| ==> parts[i] == andParts[i];
    }
  }

  ghost predicate AllHold(ts: seq<Trigger>, v: Trigger -> bool) {
    forall t :: t in ts ==> v(t)
  }

  ghost predicate SomeHold(ts: seq<Trigger>, v: Trigger -> bool) {
    exists t :: t in ts && v(t)
  }

  lemma AndPartsHold(flat: seq<Trigger>, children: seq<WhenExpr>, v: Trigger -> bool)
    ensures var parts := Leaves(flat) + children;
            (forall i :: 0 <= i < |parts| ==> ExprHolds(parts[i], v)) <==>
            AllHold(flat, v) && (forall i :: 0 <= i < |children| ==> ExprHolds(children[i], v))
  {
    var parts := Leaves(flat) + children;
    assert forall i :: 0 <= i < |flat| ==> parts[i] == Leaf(flat[i]);
    assert forall i :: 0 <= i < |children| ==> parts[|flat| + i] == children[i];
  }

  // Building preserves meaning under every assignment of truth values to triggers.
  lemma {:induction false} BuildPreservesMeaning(w: SemanticWhen, robotId: Id, v: Trigger -> bool)
    ensures ExprHolds(ExprOf(w, robotId), v) <==> AuthoredHolds(w, robotId, v)
  {
    forall i | 0 <= i < |w.all| { BuildPreservesMeaning(w.all[i], robotId, v); }
    forall i | 0 <= i < |w.any| { BuildPreservesMeaning(w.any[i], robotId, v); }
    var flat, allChildren, anyChildren := FlatTriggers(w, robotId), ExprsOf(w.all, robotId), ExprsOf(w.any, robotId);
    BuiltTree(w, robotId, allChildren, anyChildren);
    AssembleHolds(Leaves(flat) + allChildren, anyChildren, v);
    AndPartsHold(flat, allChildren, v);
    AuthoredUnfolds(w, robotId, v);
  }

  lemma AuthoredUnfolds(w: SemanticWhen, robotId: Id, v: Trigger -> bool)
    ensures AuthoredHolds(w, robotId, v) <==>
            && AllHold(FlatTriggers(w, robotId), v)
            && (forall i :: 0 <= i < |w.all| ==> AuthoredHolds(w.all[i], robotId, v))
            && (w.any == [] || exists i :: 0 <= i < |w.any| && AuthoredHolds(w.any[i], robotId, v))
  {
    FlatHold(w, robotId, v);
  }

  // The shape of built trees: no empty node and no AND of one part.
  ghost predicate Normal(e: WhenExpr) {
    match e
    case Leaf(_) => true
    case All(cs) => |cs| >= 2 && forall i :: 0 <= i < |cs| ==> Normal(cs[i])
    case Any(cs) => |cs| >= 1 && forall i :: 0 <= i < |cs| ==> Normal(cs[i])
  }

  lemma AssembleNormal(andParts: seq<WhenExpr>, anyChildren: seq<WhenExpr>)
    requires andParts != [] || anyChildren != []
    requires forall c :: c in andParts || c in anyChildren ==> Normal(c)
    ensures Normal(Assemble(andParts, anyChildren))
  {
  }

  lemma {:induction false} BuiltIsNormal(w: SemanticWhen, robotId: Id, zones: set<string>)
    requires WhenError(w, zones).None?
    ensures Normal(ExprOf(w, robotId))
  {
    WhensErrorNone(w.all, zones);
    WhensErrorNone(w.any, zones);
    forall i | 0 <= i < |w.all| { BuiltIsNormal(w.all[i], robotId, zones); }
    forall i | 0 <= i < |w.any| { BuiltIsNormal(w.any[i], robotId, zones); }
    var leaves, allChildren, anyChildren :=
      Leaves(FlatTriggers(w, robotId)), ExprsOf(w.all, robotId), ExprsOf(w.any, robotId);
    BuiltTree(w, robotId, allChildren, anyChildren);
    FlatLength(w, robotId);
    assert forall c :: c in leaves + allChildren <==> c in leaves || c in allChildren;
    AssembleNormal(leaves + allChildren, anyChildren);
  }

  lemma {:induction false} HasTrigger(e: WhenExpr)
    requires Normal(e)
    ensures Triggers(e) != []
    decreases e, 1
  {
    match e
    case Leaf(_) =>
    case All(cs) => EachHasTrigger(cs);
    case Any(cs) => EachHasTrigger(cs);
  }

  lemma {:induction false} EachHasTrigger(cs: seq<WhenExpr>)
    requires forall i :: 0 <= i < |cs| ==> Normal(cs[i])
    ensures |TriggersOf(cs)| >= |cs|
    decreases cs, 0
  {
    if cs != [] {
      EachHasTrigger(cs[..|cs| - 1]);
      HasTrigger(cs[|cs| - 1]);
    }
  }

  ghost predicate TwoLevelHolds(all: seq<Trigger>, any: seq<Trigger>, v: Trigger -> bool) {
    AllHold(all, v) && (any == [] || SomeHold(any, v))
  }

  lemma HoldConcat(a: seq<Trigger>, b: seq<Trigger>, v: Trigger -> bool)
    ensures AllHold(a + b, v) <==> AllHold(a, v) && AllHold(b, v)
    ensures SomeHold(a + b, v) <==> SomeHold(a, v) || SomeHold(b, v)
  {
  }

  // Lowering preserves meaning on every built tree it accepts.
  lemma {:induction false} LowerPreservesMeaning(e: WhenExpr, v: Trigger -> bool)
    requires Normal(e) && Expressible(e)
    ensures ExprHolds(e, v) <==> WhenHolds(When(AndTriggers(e), OrTriggers(e)), v)
    ensures ExprHolds(e, v) <==> TwoLevelHolds(AndTriggers(e), OrTriggers(e), v)
    decreases e, 1
  {
    HasTrigger(e);
    OneSided(e);
    match e
    case Leaf(_) =>
    case All(cs) => LowerAllMeaning(cs, v);
    case Any(cs) => LowerAnyMeaning(cs, v);
  }

  lemma Snoc(cs: seq<WhenExpr>, v: Trigger -> bool)
    requires cs != []
    ensures ExprHolds(All(cs), v) <==> ExprHolds(All(cs[..|cs| - 1]), v) && ExprHolds(cs[|cs| - 1], v)
    ensures ExprHolds(Any(cs), v) <==> ExprHolds(Any(cs[..|cs| - 1]), v) || ExprHolds(cs[|cs| - 1], v)
  {
  }

  lemma {:induction false} LowerAllMeaning(cs: seq<WhenExpr>, v: Trigger -> bool)
    requires forall i :: 0 <= i < |cs| ==> Normal(cs[i])
    requires Expressible(All(cs))
    ensures ExprHolds(All(cs), v) <==> TwoLevelHolds(AndTriggersOf(cs), OrTriggersOf(cs), v)
    decreases cs, 0
  {
    if cs != [] {
      var n := |cs| - 1;
      AtMostOneOrStep(cs, n);
      assert cs[..n + 1] == cs;
      LowerAllMeaning(cs[..n], v);
      LowerPreservesMeaning(cs[n], v);
      HoldConcat(AndTriggersOf(cs[..n]), AndTriggers(cs[n]), v);
      HoldConcat(OrTriggersOf(cs[..n]), OrTriggers(cs[n]), v);
      Snoc(cs, v);
    }
  }

  lemma ElementHolds(all: seq<Trigger>, any: seq<Trigger>, v: Trigger -> bool)
    requires if any == [] then |all| == 1 else all == []
    ensures TwoLevelHolds(all, any, v) <==> SomeHold(all + any, v)
  {
    if any == [] {
      assert all[0] in all && all + any == all;
    } else {
      assert all + any == any;
    }
  }

  lemma {:induction false} LowerAnyMeaning(cs: seq<WhenExpr>, v: Trigger -> bool)
    requires forall i :: 0 <= i < |cs| ==> Normal(cs[i])
    requires Expressible(Any(cs))
    ensures ExprHolds(Any(cs), v) <==> SomeHold(TriggersOf(cs), v)
    decreases cs, 0
  {
    if cs != [] {
      var n := |cs| - 1;
      LowerAnyMeaning(cs[..n], v);
      LowerPreservesMeaning(cs[n], v);
      ElementTriggers(cs[n]);
      ElementHolds(AndTriggers(cs[n]), OrTriggers(cs[n]), v);
      HoldConcat(TriggersOf(cs[..n]), Triggers(cs[n]), v);
      Snoc(cs, v);
    }
  }

  // --- Exact acceptance -----------------------------------------------------------

  // Only OR nodes and leaves.
  ghost predicate OrOnly(e: WhenExpr) {
    match e
    case Leaf(_) => true
    case All(_) => false
    case Any(cs) => forall i :: 0 <= i < |cs| ==> OrOnly(cs[i])
  }

  ghost predicate NoAndUnderOr(e: WhenExpr) {
    match e
    case Leaf(_) => true
    case All(cs) => forall i :: 0 <= i < |cs| ==> NoAndUnderOr(cs[i])
    case Any(cs) => forall i :: 0 <= i < |cs| ==> OrOnly(cs[i])
  }

  // OR nodes not below another OR node.
  ghost function MaximalOrGroups(e: WhenExpr): (r: nat)
    decreases e, 1
  {
    match e
    case Leaf(_) => 0
    case All(cs) => MaximalOrGroupsOf(cs)
    case Any(_) => 1
  }

  ghost function MaximalOrGroupsOf(cs: seq<WhenExpr>): (r: nat)
    decreases cs, 0
  {
    if cs == [] then 0 else MaximalOrGroupsOf(cs[..|cs| - 1]) + MaximalOrGroups(cs[|cs| - 1])
  }

  lemma {:induction false} GroupsMeanOrTriggers(e: WhenExpr)
    requires Normal(e)
    ensures MaximalOrGroups(e) == 0 <==> OrTriggers(e) == []
    decreases e, 1
  {
    match e
    case Leaf(_) =>
    case All(cs) => GroupsOfMeanOrTriggers(cs);
    case Any(cs) => EachHasTrigger(cs);
  }

  lemma {:induction false} GroupsOfMeanOrTriggers(cs: seq<WhenExpr>)
    requires forall i :: 0 <= i < |cs| ==> Normal(cs[i])
    ensures MaximalOrGroupsOf(cs) == 0 <==> OrTriggersOf(cs) == []
    ensures MaximalOrGroupsOf(cs) <= 1 <==> (forall c :: c in cs ==> MaximalOrGroups(c) <= 1) && AtMostOneOr(cs)
    decreases cs, 0
  {
    if cs != [] {
      var n := |cs| - 1;
      GroupsOfMeanOrTriggers(cs[..n]);
      GroupsMeanOrTriggers(cs[n]);
      AtMostOneOrStep(cs, n);
      assert cs[..n + 1] == cs;
      assert forall c :: c in cs <==> c in cs[..n] || c == cs[n];
      assert MaximalOrGroupsOf(cs) == MaximalOrGroupsOf(cs[..n]) + MaximalOrGroups(cs[n]);
    }
  }

  lemma {:induction false} OrOnlyIsElement(e: WhenExpr)
    requires Normal(e)
    ensures OrOnly(e) <==> Expressible(e) && OrElement(e)
  {
    match e
    case Leaf(_) =>
    case All(cs) => if Expressible(e) { AndIsNoElement(cs); }
    case Any(cs) =>
      EachHasTrigger(cs);
      forall i | 0 <= i < |cs| { OrOnlyIsElement(cs[i]); }
  }

  // An accepted AND of at least two parts keeps a trigger outside its OR list, and two of
  // them when it has no OR list, so it cannot be an OR element.
  lemma AndIsNoElement(cs: seq<WhenExpr>)
    requires Normal(All(cs)) && Expressible(All(cs))
    ensures !OrElement(All(cs))
  {
    OneSidedOf(cs);
    EachHasTrigger(cs);
    if OrTriggersOf(cs) != [] {
      var i := if OrTriggers(cs[0]) == [] then 0 else 1;
      OneSided(cs[i]);
      HasTrigger(cs[i]);
      AndTriggersKept(cs, i);
    }
  }

  lemma {:induction false} AndTriggersKept(cs: seq<WhenExpr>, i: nat)
    requires i < |cs| && AndTriggers(cs[i]) != []
    ensures AndTriggersOf(cs) != []
  {
    if i < |cs| - 1 {
      AndTriggersKept(cs[..|cs| - 1], i);
    }
  }

  // `lower` accepts a built tree exactly when no AND lies under an OR and at most one OR
  // group is maximal.
  lemma {:induction false} ExactAcceptance(e: WhenExpr)
    requires Normal(e)
    ensures Expressible(e) <==> NoAndUnderOr(e) && MaximalOrGroups(e) <= 1
  {
    match e
    case Leaf(_) =>
    case All(cs) =>
      forall i | 0 <= i < |cs| { ExactAcceptance(cs[i]); }
      GroupsOfMeanOrTriggers(cs);
      assert forall i :: 0 <= i < |cs| ==> cs[i] in cs;
    case Any(cs) =>
      forall i | 0 <= i < |cs| { OrOnlyIsElement(cs[i]); }
  }

  // --- The same boundary, read off the authored guard ----------------------------------

  // A guard that builds to a lone trigger or to an OR of such.
  predicate OrElementWhen(w: SemanticWhen) {
    if w.any != [] then
      && FlatCount(w) == 0 && w.all == []
      && forall i :: 0 <= i < |w.any| ==> OrElementWhen(w.any[i])
    else
      || (FlatCount(w) == 1 && w.all == [])
      || (FlatCount(w) == 0 && |w.all| == 1 && OrElementWhen(w.all[0]))
  }

  predicate NoAndUnderOrWhen(w: SemanticWhen) {
    && (forall i :: 0 <= i < |w.all| ==> NoAndUnderOrWhen(w.all[i]))
    && (forall i :: 0 <= i < |w.any| ==> OrElementWhen(w.any[i]))
  }

  // `any` blocks reachable through `all` blocks only.
  function OrGroups(w: SemanticWhen): (r: nat)
    decreases w, 1
  {
    (if w.any == [] then 0 else 1) + OrGroupsOf(w.all)
  }

  function OrGroupsOf(ws: seq<SemanticWhen>): (r: nat)
    decreases ws, 0
  {
    if ws == [] then 0 else OrGroupsOf(ws[..|ws| - 1]) + OrGroups(ws[|ws| - 1])
  }

  // What an author must respect for a valid guard to compile; no robot id is involved.
  predicate Representable(w: SemanticWhen) {
    NoAndUnderOrWhen(w) && OrGroups(w) <= 1
  }

  lemma {:induction false} OrElementTransfer(w: SemanticWhen, robotId: Id)
    ensures OrOnly(ExprOf(w, robotId)) <==> OrElementWhen(w)
  {
    forall i | 0 <= i < |w.all| { OrElementTransfer(w.all[i], robotId); }
    forall i | 0 <= i < |w.any| { OrElementTransfer(w.any[i], robotId); }
    BuiltTree(w, robotId, ExprsOf(w.all, robotId), ExprsOf(w.any, robotId));
    FlatLength(w, robotId);
  }

  ghost predicate EachNoAndUnderOr(cs: seq<WhenExpr>) {
    forall c :: c in cs ==> NoAndUnderOr(c)
  }

  lemma AssembleShape(andParts: seq<WhenExpr>, anyChildren: seq<WhenExpr>)
    ensures NoAndUnderOr(Assemble(andParts, anyChildren)) <==>
            EachNoAndUnderOr(andParts) && (forall i :: 0 <= i < |anyChildren| ==> OrOnly(anyChildren[i]))
  {
    if anyChildren == [] {
      assert NoAndUnderOr(All(andParts)) <==> EachNoAndUnderOr(andParts);
    } else {
      var or, parts := Any(anyChildren), andParts + [Any(anyChildren)];
      assert NoAndUnderOr(or) <==> forall i :: 0 <= i < |anyChildren| ==> OrOnly(anyChildren[i]);
      assert forall c :: c in parts <==> c in andParts || c == or;
      assert NoAndUnderOr(All(parts)) <==> EachNoAndUnderOr(parts);
      assert EachNoAndUnderOr(parts) <==> EachNoAndUnderOr(andParts) && NoAndUnderOr(or);
    }
  }

  lemma AssembleCounts(andParts: seq<WhenExpr>, anyChildren: seq<WhenExpr>)
    ensures MaximalOrGroups(Assemble(andParts, anyChildren)) ==
            MaximalOrGroupsOf(andParts) + if anyChildren == [] then 0 else 1
    ensures Triggers(Assemble(andParts, anyChildren)) == TriggersOf(andParts) + TriggersOf(anyChildren)
  {
    if anyChildren == [] && |andParts| == 1 {
      assert andParts[..0] == [];
    } else if anyChildren != [] && andParts != [] {
      var parts := andParts + [Any(anyChildren)];
      assert parts[..|parts| - 1] == andParts && parts[|parts| - 1] == Any(anyChildren);
      assert Assemble(andParts, anyChildren) == All(parts);
      assert MaximalOrGroupsOf(parts) == MaximalOrGroupsOf(andParts) + MaximalOrGroups(Any(anyChildren));
      assert TriggersOf(parts) == TriggersOf(andParts) + Triggers(Any(anyChildren));
    }
  }

  lemma {:induction false} GroupsOfLeaves(ts: seq<Trigger>)
    ensures MaximalOrGroupsOf(Leaves(ts)) == 0
    ensures TriggersOf(Leaves(ts)) == ts
  {
    if ts != [] {
      var init := ts[..|ts| - 1];
      GroupsOfLeaves(init);
      assert Leaves(ts)[..|ts| - 1] == Leaves(init);
      assert ts == init + [ts[|ts| - 1]];
    }
  }

  lemma OfSnoc(cs: seq<WhenExpr>, e: WhenExpr)
    ensures MaximalOrGroupsOf(cs + [e]) == MaximalOrGroupsOf(cs) + MaximalOrGroups(e)
    ensures TriggersOf(cs + [e]) == TriggersOf(cs) + Triggers(e)
  {
    assert (cs + [e])[..|cs|] == cs;
  }

  lemma Assoc<T>(a: seq<T>, b: seq<T>, c: seq<T>)
    ensures a + b + c == a + (b + c)
  {
  }

  lemma OfConcatStep(a: seq<WhenExpr>, init: seq<WhenExpr>, last: WhenExpr)
    requires MaximalOrGroupsOf(a + init) == MaximalOrGroupsOf(a) + MaximalOrGroupsOf(init)
    requires TriggersOf(a + init) == TriggersOf(a) + TriggersOf(init)
    ensures MaximalOrGroupsOf(a + (init + [last])) == MaximalOrGroupsOf(a) + MaximalOrGroupsOf(init + [last])
    ensures TriggersOf(a + (init + [last])) == TriggersOf(a) + TriggersOf(init + [last])
  {
    Assoc(a, init, [last]);
    OfSnoc(a + init, last);
    OfSnoc(init, last);
    Assoc(TriggersOf(a), TriggersOf(init), Triggers(last));
  }

  lemma {:induction false} OfConcat(a: seq<WhenExpr>, b: seq<WhenExpr>)
    ensures MaximalOrGroupsOf(a + b) == MaximalOrGroupsOf(a) + MaximalOrGroupsOf(b)
    ensures TriggersOf(a + b) == TriggersOf(a) + TriggersOf(b)
  {
    if b == [] {
      assert a + b == a;
    } else {
      OfConcat(a, b[..|b| - 1]);
      OfConcatStep(a, b[..|b| - 1], b[|b| - 1]);
      assert b == b[..|b| - 1] + [b[|b| - 1]];
    }
  }

  lemma {:induction false} ShapeTransfer(w: SemanticWhen, robotId: Id)
    ensures NoAndUnderOr(ExprOf(w, robotId)) <==> NoAndUnderOrWhen(w)
  {
    var flat, allChildren, anyChildren := FlatTriggers(w, robotId), ExprsOf(w.all, robotId), ExprsOf(w.any, robotId);
    BuiltTree(w, robotId, allChildren, anyChildren);
    AssembleShape(Leaves(flat) + allChildren, anyChildren);
    forall i | 0 <= i < |w.all| { ShapeTransfer(w.all[i], robotId); }
    forall i | 0 <= i < |w.any| { OrElementTransfer(w.any[i], robotId); }
    LeavesShape(flat, allChildren);
    assert EachNoAndUnderOr(allChildren) <==> forall i :: 0 <= i < |w.all| ==> NoAndUnderOr(allChildren[i]);
  }

  lemma LeavesShape(flat: seq<Trigger>, rest: seq<WhenExpr>)
    ensures EachNoAndUnderOr(Leaves(flat) + rest) <==> EachNoAndUnderOr(rest)
  {
  }

  lemma {:induction false} GroupTransfer(w: SemanticWhen, robotId: Id)
    ensures MaximalOrGroups(ExprOf(w, robotId)) == OrGroups(w)
    decreases w, 1
  {
    var flat, allChildren, anyChildren := FlatTriggers(w, robotId), ExprsOf(w.all, robotId), ExprsOf(w.any, robotId);
    BuiltTree(w, robotId, allChildren, anyChildren);
    AssembleCounts(Leaves(flat) + allChildren, anyChildren);
    GroupsOfLeaves(flat);
    OfConcat(Leaves(flat), allChildren);
    GroupTransferOf(w.all, robotId);
  }

  lemma {:induction false} GroupTransferOf(ws: seq<SemanticWhen>, robotId: Id)
    ensures MaximalOrGroupsOf(ExprsOf(ws, robotId)) == OrGroupsOf(ws)
    decreases ws, 0
  {
    if ws != [] {
      var n := |ws| - 1;
      GroupTransferOf(ws[..n], robotId);
      GroupTransfer(ws[n], robotId);
      assert ExprsOf(ws, robotId)[..n] == ExprsOf(ws[..n], robotId);
    }
  }

  // A valid guard lowers exactly when it is representable, for every robot id.
  lemma AuthoredAcceptance(w: SemanticWhen, robotId: Id, zones: set<string>)
    requires WhenError(w, zones).None?
    ensures Expressible(ExprOf(w, robotId)) <==> Representable(w)
  {
    BuiltIsNormal(w, robotId, zones);
    ExactAcceptance(ExprOf(w, robotId));
    ShapeTransfer(w, robotId);
    GroupTransfer(w, robotId);
  }

  // --- Conservation -------------------------------------------------------------------

  // `m` merges `a` and `b`, keeping the order inside each.
  ghost predicate Shuffle(a: seq<Trigger>, b: seq<Trigger>, m: seq<Trigger>) {
    if m == [] then a == [] && b == []
    else
      || (a != [] && a[0] == m[0] && Shuffle(a[1..], b, m[1..]))
      || (b != [] && b[0] == m[0] && Shuffle(a, b[1..], m[1..]))
  }

  lemma {:induction false} ShuffleConserves(a: seq<Trigger>, b: seq<Trigger>, m: seq<Trigger>)
    requires Shuffle(a, b, m)
    ensures multiset(m) == multiset(a) + multiset(b)
  {
    if m != [] {
      assert m == [m[0]] + m[1..];
      if a != [] && a[0] == m[0] && Shuffle(a[1..], b, m[1..]) {
        ShuffleConserves(a[1..], b, m[1..]);
        assert a == [a[0]] + a[1..];
      } else {
        ShuffleConserves(a, b[1..], m[1..]);
        assert b == [b[0]] + b[1..];
      }
    }
  }

  lemma {:induction false} ShuffleOne(m: seq<Trigger>)
    ensures Shuffle([], m, m) && Shuffle(m, [], m)
  {
    if m != [] {
      ShuffleOne(m[1..]);
    }
  }

  lemma {:induction false} ShuffleConcat(a: seq<Trigger>, b: seq<Trigger>, m: seq<Trigger>,
                                         a': seq<Trigger>, b': seq<Trigger>, m': seq<Trigger>)
    requires Shuffle(a, b, m) && Shuffle(a', b', m')
    ensures Shuffle(a + a', b + b', m + m')
    decreases |m|
  {
    if m == [] {
      assert a + a' == a' && b + b' == b' && m + m' == m';
    } else {
      assert (m + m')[1..] == m[1..] + m';
      if a != [] && a[0] == m[0] && Shuffle(a[1..], b, m[1..]) {
        ShuffleConcat(a[1..], b, m[1..], a', b', m');
        assert (a + a')[1..] == a[1..] + a';
      } else {
        ShuffleConcat(a, b[1..], m[1..], a', b', m');
        assert (b + b')[1..] == b[1..] + b';
      }
    }
  }

  // Lowering splits a tree's triggers in two, dropping, duplicating and reordering none.
  lemma {:induction false} LowerConserves(e: WhenExpr)
    ensures Shuffle(AndTriggers(e), OrTriggers(e), Triggers(e))
    decreases e, 1
  {
    match e
    case Leaf(t) => ShuffleOne([t]);
    case All(cs) => LowerConservesOf(cs);
    case Any(cs) => ShuffleOne(TriggersOf(cs));
  }

  lemma {:induction false} LowerConservesOf(cs: seq<WhenExpr>)
    ensures Shuffle(AndTriggersOf(cs), OrTriggersOf(cs), TriggersOf(cs))
    decreases cs, 0
  {
    if cs != [] {
      var init, last := cs[..|cs| - 1], cs[|cs| - 1];
      LowerConservesOf(init);
      LowerConserves(last);
      ShuffleConcat(AndTriggersOf(init), OrTriggersOf(init), TriggersOf(init),
                    AndTriggers(last), OrTriggers(last), Triggers(last));
    }
  }

  // An author's conditions in document order: flat keys, then `all`, then `any`.
  function AuthoredTriggers(w: SemanticWhen, robotId: Id): (r: seq<Trigger>)
    decreases w, 1
  {
    FlatTriggers(w, robotId) + AuthoredTriggersOf(w.all, robotId) + AuthoredTriggersOf(w.any, robotId)
  }

  function AuthoredTriggersOf(ws: seq<SemanticWhen>, robotId: Id): (r: seq<Trigger>)
    decreases ws, 0
  {
    if ws == [] then []
    else AuthoredTriggersOf(ws[..|ws| - 1], robotId) + AuthoredTriggers(ws[|ws| - 1], robotId)
  }

  lemma {:induction false} BuildConserves(w: SemanticWhen, robotId: Id)
    ensures Triggers(ExprOf(w, robotId)) == AuthoredTriggers(w, robotId)
    decreases w, 1
  {
    var flat, allChildren, anyChildren := FlatTriggers(w, robotId), ExprsOf(w.all, robotId), ExprsOf(w.any, robotId);
    BuiltTree(w, robotId, allChildren, anyChildren);
    AssembleCounts(Leaves(flat) + allChildren, anyChildren);
    GroupsOfLeaves(flat);
    OfConcat(Leaves(flat), allChildren);
    BuildConservesOf(w.all, robotId);
    BuildConservesOf(w.any, robotId);
  }

  lemma {:induction false} BuildConservesOf(ws: seq<SemanticWhen>, robotId: Id)
    ensures TriggersOf(ExprsOf(ws, robotId)) == AuthoredTriggersOf(ws, robotId)
    decreases ws, 0
  {
    if ws != [] {
      var n := |ws| - 1;
      BuildConservesOf(ws[..n], robotId);
      BuildConserves(ws[n], robotId);
      var es := ExprsOf(ws, robotId);
      assert es[..n] == ExprsOf(ws[..n], robotId) && es[n] == ExprOf(ws[n], robotId);
      PrefixTriggers(es, n);
      assert es[..n + 1] == es;
    }
  }
}
