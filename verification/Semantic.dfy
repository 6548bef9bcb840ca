// The semantic rule compiler (src/semantic.rs): nested authored guards are built into the
// `WhenExpr` tree and lowered to the two-level runtime `When`.
module Semantic {
  import opened Wrappers
  import opened Strings
  import opened RuleTypes
  import Topic

  datatype ErrorCode =
    | NoActionVerb
    | InvalidDistance
    | UnknownZone
    | MissingField
    | NonPrimitivePayload
    | InvalidTopic
    | EmptyWhen
    | UnrepresentableNesting

  datatype NearSpec = NearSpec(entity: string, dist: Float64)

  datatype SemanticWhen = SemanticWhen(
    inZone: Option<string>,
    notInZone: Option<string>,
    nearHuman: Option<Float64>,
    notNearHuman: Option<Float64>,
    near: Option<NearSpec>,
    role: Option<string>,
    all: seq<SemanticWhen>,
    any: seq<SemanticWhen>)

  datatype SemanticAction = SemanticAction(
    estop: bool,
    slowTo: Option<Float64>,
    resume: bool,
    topic: Option<string>,
    payload: Option<Value>,
    qos: Qos)

  datatype SemanticRule = SemanticRule(name: string, when: SemanticWhen, actions: seq<SemanticAction>)

  // `zones` holds the names declared under `[zones]`; only membership is consulted.
  datatype RulesManifest = RulesManifest(siteId: string, zones: set<string>, rules: seq<SemanticRule>)

  datatype WhenExpr =
    | All(children: seq<WhenExpr>)
    | Any(children: seq<WhenExpr>)
    | Leaf(trigger: Trigger)

  datatype ActionSpec =
    | Estop
    | SlowTo(v: real)
    | Resume
    | Raw(topic: string, payload: Value)

  // --- Triggers of the six flat keys ------------------------------------------------

  const ZONE: Id := "zone"
  const HUMAN_PRESENT: Id := "human_present"
  const PROXIMITY: Id := "proximity"
  const ROLE: Id := "role"

  function Compare(op: Op, p: PrimitiveRef, rhs: Operand): (r: Predicate) {
    Comparison(op, Prim(p), rhs)
  }

  function InZoneTrigger(robotId: Id, z: string): (r: Trigger) {
    Trigger(Topic.RobotLocal(robotId, ZONE), Some(Compare(Eq, Zone, StrLit(z))), Edge)
  }

  function NotInZoneTrigger(robotId: Id, z: string): (r: Trigger) {
    Trigger(Topic.RobotLocal(robotId, ZONE), Some(Not(Compare(Eq, Zone, StrLit(z)))), Edge)
  }

  function NearHumanTrigger(robotId: Id, d: Float64): (r: Trigger) {
    Trigger(Topic.RobotLocal(robotId, HUMAN_PRESENT), Some(Compare(Lt, HumanPresence, FloatLit(d))), Level)
  }

  function NotNearHumanTrigger(robotId: Id, d: Float64): (r: Trigger) {
    Trigger(Topic.RobotLocal(robotId, HUMAN_PRESENT), Some(Compare(Ge, HumanPresence, FloatLit(d))), Level)
  }

  function NearTrigger(robotId: Id, n: NearSpec): (r: Trigger) {
    Trigger(Topic.RobotLocal(robotId, PROXIMITY), Some(Compare(Lt, Proximity(n.entity), FloatLit(n.dist))), Level)
  }

  function RoleTrigger(robotId: Id, r: string): (result: Trigger) {
    Trigger(Topic.RobotLocal(robotId, ROLE), Some(Compare(Eq, Robot, StrLit(r))), Edge)
  }

  // The flat keys of one guard level, in the order the compiler emits them.
  function FlatTriggers(w: SemanticWhen, robotId: Id): (r: seq<Trigger>) {
    var t1 := if w.inZone.Some? then [InZoneTrigger(robotId, w.inZone.value)] else [];
    var t2 := if w.notInZone.Some? then t1 + [NotInZoneTrigger(robotId, w.notInZone.value)] else t1;
    var t3 := if w.nearHuman.Some? then t2 + [NearHumanTrigger(robotId, w.nearHuman.value)] else t2;
    var t4 := if w.notNearHuman.Some? then t3 + [NotNearHumanTrigger(robotId, w.notNearHuman.value)] else t3;
    var t5 := if w.near.Some? then t4 + [NearTrigger(robotId, w.near.value)] else t4;
    if w.role.Some? then t5 + [RoleTrigger(robotId, w.role.value)] else t5
  }

  function FlatCount(w: SemanticWhen): (r: nat) {
    (if w.inZone.Some? then 1 else 0) + (if w.notInZone.Some? then 1 else 0)
    + (if w.nearHuman.Some? then 1 else 0) + (if w.notNearHuman.Some? then 1 else 0)
    + (if w.near.Some? then 1 else 0) + (if w.role.Some? then 1 else 0)
  }

  // --- Validation of guards ----------------------------------------------------------

  predicate WhenIsEmpty(w: SemanticWhen) {
    && w.inZone.None? && w.notInZone.None? && w.nearHuman.None? && w.notNearHuman.None?
    && w.near.None? && w.role.None? && w.all == [] && w.any == []
  }

  // `d <= 0.0` on an `f64`: false on NaN and positive infinity.
  predicate NonPositive(d: Float64) {
    match d
    case Finite(r) => r <= 0.0
    case NegInf => true
    case _ => false
  }

  // The first fault of one guard level, ignoring its children.
  function LevelError(w: SemanticWhen, zones: set<string>): (r: Option<ErrorCode>) {
    if WhenIsEmpty(w) then Some(EmptyWhen)
    else if || (w.nearHuman.Some? && NonPositive(w.nearHuman.value))
            || (w.notNearHuman.Some? && NonPositive(w.notNearHuman.value))
            || (w.near.Some? && NonPositive(w.near.value.dist)) then Some(InvalidDistance)
    else if || (w.inZone.Some? && w.inZone.value !in zones)
            || (w.notInZone.Some? && w.notInZone.value !in zones) then Some(UnknownZone)
    else None
  }

  // The first fault in document order: a level before its children, `all` before `any`.
  // No robot id is consulted.
  function WhenError(w: SemanticWhen, zones: set<string>): (r: Option<ErrorCode>)
    decreases w, 1
  {
    match LevelError(w, zones)
    case Some(e) => Some(e)
    case None =>
      match WhensError(w.all, zones)
      case Some(e) => Some(e)
      case None => WhensError(w.any, zones)
  }

  function WhensError(ws: seq<SemanticWhen>, zones: set<string>): (r: Option<ErrorCode>)
    decreases ws, 0
  {
    if ws == [] then None
    else
      match WhenError(ws[0], zones)
      case Some(e) => Some(e)
      case None => WhensError(ws[1..], zones)
  }

  lemma {:induction false} WhensErrorNone(ws: seq<SemanticWhen>, zones: set<string>)
    ensures WhensError(ws, zones).None? <==> forall i :: 0 <= i < |ws| ==> WhenError(ws[i], zones).None?
  {
    if ws != [] {
      WhensErrorNone(ws[1..], zones);
      assert forall i :: 0 < i < |ws| ==> ws[i] == ws[1..][i - 1];
      if WhensError(ws, zones).None? {
        forall i | 0 <= i < |ws| ensures WhenError(ws[i], zones).None? {
          if i > 0 { assert WhenError(ws[1..][i - 1], zones).None?; }
        }
      } else if WhenError(ws[0], zones).None? {
        var j :| 0 <= j < |ws[1..]| && !WhenError(ws[1..][j], zones).None?;
        assert !WhenError(ws[j + 1], zones).None?;
      }
    }
  }

  // --- The tree a valid guard is built into -----------------------------------------

  function Leaves(ts: seq<Trigger>): (r: seq<WhenExpr>)
    ensures |r| == |ts| && forall i :: 0 <= i < |ts| ==> r[i] == Leaf(ts[i])
  {
    seq(|ts|, i requires 0 <= i < |ts| => Leaf(ts[i]))
  }

  function ExprOf(w: SemanticWhen, robotId: Id): (r: WhenExpr)
    decreases w
  {
    var allChildren := seq(|w.all|, i requires 0 <= i < |w.all| => ExprOf(w.all[i], robotId));
    var anyChildren := seq(|w.any|, i requires 0 <= i < |w.any| => ExprOf(w.any[i], robotId));
    Assemble(Leaves(FlatTriggers(w, robotId)) + allChildren, anyChildren)
  }

  function Assemble(andParts: seq<WhenExpr>, anyChildren: seq<WhenExpr>): (r: WhenExpr) {
    if anyChildren == [] then
      if |andParts| == 1 then andParts[0] else All(andParts)
    else if andParts == [] then Any(anyChildren)
    else All(andParts + [Any(anyChildren)])
  }

  function ExprsOf(ws: seq<SemanticWhen>, robotId: Id): (r: seq<WhenExpr>)
    ensures |r| == |ws| && forall i :: 0 <= i < |ws| ==> r[i] == ExprOf(ws[i], robotId)
  {
    seq(|ws|, i requires 0 <= i < |ws| => ExprOf(ws[i], robotId))
  }

  // `build_when_expr`, its four loops as separate methods: the checks of one level, the flat
  // triggers, and the children (run once for `all`, once for `any`).
  method BuildWhenExpr(w: SemanticWhen, robotId: Id, zones: set<string>) returns (r: Result<WhenExpr, ErrorCode>)
    ensures r == match WhenError(w, zones)
                 case Some(e) => Failure(e)
                 case None => Success(ExprOf(w, robotId))
    decreases w, 1
  {
    var fault := CheckLevel(w, zones);
    if fault.Some? {
      return Failure(fault.value);
    }
    var leafTriggers := PushFlatTriggers(w, robotId);
    var allChildren :- BuildChildren(w.all, robotId, zones);
    var anyChildren :- BuildChildren(w.any, robotId, zones);
    BuiltTree(w, robotId, allChildren, anyChildren);
    var andParts := Leaves(leafTriggers) + allChildren;
    if andParts == [] {
      r := Success(Any(anyChildren));
    } else if anyChildren == [] {
      r := Success(if |andParts| == 1 then andParts[0] else All(andParts));
    } else {
      r := Success(All(andParts + [Any(anyChildren)]));
    }
  }

  method CheckLevel(w: SemanticWhen, zones: set<string>) returns (r: Option<ErrorCode>)
    ensures r == LevelError(w, zones)
  {
    if WhenIsEmpty(w) {
      return Some(EmptyWhen);
    }
    var near := if w.near.Some? then Some(w.near.value.dist) else None;
    var distances := [w.nearHuman, w.notNearHuman, near];
    for i := 0 to |distances|
      invariant forall j :: 0 <= j < i && distances[j].Some? ==> !NonPositive(distances[j].value)
    {
      if distances[i].Some? && NonPositive(distances[i].value) {
        return Some(InvalidDistance);
      }
    }
    assert distances[0] == w.nearHuman && distances[1] == w.notNearHuman && distances[2] == near;
    var references := [w.inZone, w.notInZone];
    for i := 0 to |references|
      invariant forall j :: 0 <= j < i && references[j].Some? ==> references[j].value in zones
    {
      if references[i].Some? && references[i].value !in zones {
        return Some(UnknownZone);
      }
    }
    assert references[0] == w.inZone && references[1] == w.notInZone;
    r := None;
  }

  method PushFlatTriggers(w: SemanticWhen, robotId: Id) returns (ts: seq<Trigger>)
    ensures ts == FlatTriggers(w, robotId)
  {
    ts := [];
    if w.inZone.Some? { ts := ts + [InZoneTrigger(robotId, w.inZone.value)]; }
    if w.notInZone.Some? { ts := ts + [NotInZoneTrigger(robotId, w.notInZone.value)]; }
    if w.nearHuman.Some? { ts := ts + [NearHumanTrigger(robotId, w.nearHuman.value)]; }
    if w.notNearHuman.Some? { ts := ts + [NotNearHumanTrigger(robotId, w.notNearHuman.value)]; }
    if w.near.Some? { ts := ts + [NearTrigger(robotId, w.near.value)]; }
    if w.role.Some? { ts := ts + [RoleTrigger(robotId, w.role.value)]; }
  }

  method BuildChildren(ws: seq<SemanticWhen>, robotId: Id, zones: set<string>)
    returns (r: Result<seq<WhenExpr>, ErrorCode>)
    ensures r == match WhensError(ws, zones)
                 case Some(e) => Failure(e)
                 case None => Success(ExprsOf(ws, robotId))
    decreases ws, 0
  {
    var children: seq<WhenExpr> := [];
    for i := 0 to |ws|
      invariant children == ExprsOf(ws[..i], robotId)
      invariant WhensError(ws, zones) == WhensError(ws[i..], zones)
    {
      assert ws[i..][1..] == ws[i + 1..];
      ExprsOfStep(ws, i, robotId);
      var child :- BuildWhenExpr(ws[i], robotId, zones);
      children := children + [child];
    }
    assert ws[..|ws|] == ws;
    r := Success(children);
  }

  lemma ExprsOfStep(ws: seq<SemanticWhen>, i: nat, robotId: Id)
    requires i < |ws|
    ensures ExprsOf(ws[..i + 1], robotId) == ExprsOf(ws[..i], robotId) + [ExprOf(ws[i], robotId)]
  {
  }

  lemma BuiltTree(w: SemanticWhen, robotId: Id, allChildren: seq<WhenExpr>, anyChildren: seq<WhenExpr>)
    requires allChildren == ExprsOf(w.all, robotId) && anyChildren == ExprsOf(w.any, robotId)
    ensures ExprOf(w, robotId) == Assemble(Leaves(FlatTriggers(w, robotId)) + allChildren, anyChildren)
  {
    assert allChildren == seq(|w.all|, i requires 0 <= i < |w.all| => ExprOf(w.all[i], robotId));
    assert anyChildren == seq(|w.any|, i requires 0 <= i < |w.any| => ExprOf(w.any[i], robotId));
  }

  // --- Lowering ---------------------------------------------------------------------

  // Triggers outside every OR node, and triggers under some OR node, left to right.
  function AndTriggers(e: WhenExpr): (r: seq<Trigger>)
    decreases e, 1
  {
    match e
    case Leaf(t) => [t]
    case All(cs) => AndTriggersOf(cs)
    case Any(_) => []
  }

  function AndTriggersOf(cs: seq<WhenExpr>): (r: seq<Trigger>)
    decreases cs, 0
  {
    if cs == [] then [] else AndTriggersOf(cs[..|cs| - 1]) + AndTriggers(cs[|cs| - 1])
  }

  function OrTriggers(e: WhenExpr): (r: seq<Trigger>)
    decreases e, 1
  {
    match e
    case Leaf(_) => []
    case All(cs) => OrTriggersOf(cs)
    case Any(cs) => TriggersOf(cs)
  }

  function OrTriggersOf(cs: seq<WhenExpr>): (r: seq<Trigger>)
    decreases cs, 0
  {
    if cs == [] then [] else OrTriggersOf(cs[..|cs| - 1]) + OrTriggers(cs[|cs| - 1])
  }

  // All triggers of the tree, left to right.
  function Triggers(e: WhenExpr): (r: seq<Trigger>)
    decreases e, 1
  {
    match e
    case Leaf(t) => [t]
    case All(cs) => TriggersOf(cs)
    case Any(cs) => TriggersOf(cs)
  }

  function TriggersOf(cs: seq<WhenExpr>): (r: seq<Trigger>)
    decreases cs, 0
  {
    if cs == [] then [] else TriggersOf(cs[..|cs| - 1]) + Triggers(cs[|cs| - 1])
  }

  // What the two-level model can hold: an AND may have one child contributing an OR list;
  // an OR element must be a lone trigger or itself only an OR list.
  predicate Expressible(e: WhenExpr) {
    match e
    case Leaf(_) => true
    case All(cs) =>
      (forall i :: 0 <= i < |cs| ==> Expressible(cs[i])) && AtMostOneOr(cs)
    case Any(cs) =>
      forall i :: 0 <= i < |cs| ==> Expressible(cs[i]) && OrElement(cs[i])
  }

  predicate AtMostOneOr(cs: seq<WhenExpr>) {
    forall i, j :: 0 <= i < j < |cs| ==> OrTriggers(cs[i]) == [] || OrTriggers(cs[j]) == []
  }

  predicate OrElement(e: WhenExpr) {
    if OrTriggers(e) == [] then |AndTriggers(e)| == 1 else AndTriggers(e) == []
  }

  lemma {:induction false} OrTriggersOfEmpty(cs: seq<WhenExpr>)
    ensures OrTriggersOf(cs) == [] <==> forall c :: c in cs ==> OrTriggers(c) == []
  {
    if cs != [] {
      var init, last := cs[..|cs| - 1], cs[|cs| - 1];
      OrTriggersOfEmpty(init);
      assert forall c :: c in cs <==> c in init || c == last;
      assert OrTriggersOf(cs) == OrTriggersOf(init) + OrTriggers(last);
      if OrTriggersOf(cs) == [] {
        assert forall c :: c in cs ==> OrTriggers(c) == [];
      } else if OrTriggers(last) == [] {
        var c :| c in init && OrTriggers(c) != [];
        assert c in cs;
      } else {
        assert last in cs;
      }
    }
  }

  // A further child keeps the OR list unique unless both sides have one; a violation stays.
  lemma AtMostOneOrSnoc(init: seq<WhenExpr>, last: WhenExpr)
    ensures AtMostOneOr(init + [last]) <==> AtMostOneOr(init) && (OrTriggersOf(init) == [] || OrTriggers(last) == [])
  {
    var cs := init + [last];
    OrTriggersOfEmpty(init);
    assert forall i :: 0 <= i < |init| ==> cs[i] == init[i] && init[i] in init;
    if AtMostOneOr(cs) && OrTriggersOf(init) != [] {
      var k :| 0 <= k < |init| && OrTriggers(init[k]) != [];
      assert OrTriggers(cs[k]) == [] || OrTriggers(cs[|init|]) == [];
    }
  }

  lemma AtMostOneOrStep(cs: seq<WhenExpr>, idx: nat)
    requires idx < |cs|
    ensures AtMostOneOr(cs[..idx + 1]) <==>
            AtMostOneOr(cs[..idx]) && (OrTriggersOf(cs[..idx]) == [] || OrTriggers(cs[idx]) == [])
    ensures AtMostOneOr(cs) ==> AtMostOneOr(cs[..idx + 1])
  {
    AtMostOneOrSnoc(cs[..idx], cs[idx]);
    assert cs[..idx + 1] == cs[..idx] + [cs[idx]];
  }

  // A tree contributing only to one of the two lists contributes all its triggers to it.
  lemma {:induction false} OneSided(e: WhenExpr)
    ensures OrTriggers(e) == [] ==> AndTriggers(e) == Triggers(e)
    ensures AndTriggers(e) == [] ==> OrTriggers(e) == Triggers(e)
    decreases e, 1
  {
    match e
    case Leaf(_) =>
    case All(cs) => OneSidedOf(cs);
    case Any(cs) =>
  }

  lemma {:induction false} OneSidedOf(cs: seq<WhenExpr>)
    ensures OrTriggersOf(cs) == [] ==> AndTriggersOf(cs) == TriggersOf(cs)
    ensures AndTriggersOf(cs) == [] ==> OrTriggersOf(cs) == TriggersOf(cs)
    decreases cs, 0
  {
    if cs != [] {
      OneSidedOf(cs[..|cs| - 1]);
      OneSided(cs[|cs| - 1]);
    }
  }

  // `lower`: the accumulating recursion of the source succeeds exactly on expressible trees.
  method Lower(expr: WhenExpr) returns (r: Result<When, ErrorCode>)
    ensures r == if Expressible(expr) then Success(When(AndTriggers(expr), OrTriggers(expr)))
                 else Failure(UnrepresentableNesting)
    decreases expr, 1
  {
    match expr
    case Leaf(t) => r := Success(When([t], []));
    case All(children) => r := LowerAll(children);
    case Any(children) => r := LowerAny(children);
  }

  method LowerAll(children: seq<WhenExpr>) returns (r: Result<When, ErrorCode>)
    ensures r == if Expressible(All(children)) then Success(When(AndTriggersOf(children), OrTriggersOf(children)))
                 else Failure(UnrepresentableNesting)
    decreases children, 0
  {
    var all: seq<Trigger>, any: seq<Trigger> := [], [];
    for idx := 0 to |children|
      invariant all == AndTriggersOf(children[..idx]) && any == OrTriggersOf(children[..idx])
      invariant forall i :: 0 <= i < idx ==> Expressible(children[i])
      invariant AtMostOneOr(children[..idx])
    {
      PrefixStep(children, idx);
      AtMostOneOrStep(children, idx);
      var w :- Lower(children[idx]);
      if w.any != [] {
        if any != [] {
          return Failure(UnrepresentableNesting);
        }
        any := w.any;
      }
      all := all + w.all;
    }
    assert children[..|children|] == children;
    r := Success(When(all, any));
  }

  method LowerAny(children: seq<WhenExpr>) returns (r: Result<When, ErrorCode>)
    ensures r == if Expressible(Any(children)) then Success(When([], TriggersOf(children)))
                 else Failure(UnrepresentableNesting)
    decreases children, 0
  {
    var any: seq<Trigger> := [];
    for idx := 0 to |children|
      invariant any == TriggersOf(children[..idx])
      invariant Expressible(Any(children[..idx]))
    {
      PrefixTriggers(children, idx);
      AnyStep(children, idx);
      ElementTriggers(children[idx]);
      var w :- Lower(children[idx]);
      var element :- AsOrElement(w);
      any := any + element;
    }
    assert children[..|children|] == children;
    r := Success(When([], any));
  }

  lemma ElementTriggers(e: WhenExpr)
    ensures OrElement(e) ==> AndTriggers(e) + OrTriggers(e) == Triggers(e)
  {
    OneSided(e);
  }

  lemma AnyStep(cs: seq<WhenExpr>, idx: nat)
    requires idx < |cs|
    ensures Expressible(Any(cs[..idx + 1])) <==>
            Expressible(Any(cs[..idx])) && Expressible(cs[idx]) && OrElement(cs[idx])
    ensures Expressible(Any(cs)) ==> Expressible(Any(cs[..idx + 1]))
  {
  }

  // The checks `lower` makes on one element of an OR: a lone trigger or an OR list.
  method AsOrElement(w: When) returns (r: Result<seq<Trigger>, ErrorCode>)
    ensures r.Success? <==> if w.any == [] then |w.all| == 1 else w.all == []
    ensures r == if r.Success? then Success(w.all + w.any) else Failure(UnrepresentableNesting)
  {
    if w.all != [] && w.any != [] {
      return Failure(UnrepresentableNesting);
    }
    if w.any == [] {
      if |w.all| != 1 {
        return Failure(UnrepresentableNesting);
      }
      assert w.all + w.any == [w.all[0]];
      return Success([w.all[0]]);
    }
    assert w.all + w.any == w.any;
    r := Success(w.any);
  }

  lemma PrefixTriggers(cs: seq<WhenExpr>, idx: nat)
    requires idx < |cs|
    ensures TriggersOf(cs[..idx + 1]) == TriggersOf(cs[..idx]) + Triggers(cs[idx])
  {
    assert cs[..idx + 1][..idx] == cs[..idx];
  }

  lemma PrefixStep(cs: seq<WhenExpr>, idx: nat)
    requires idx < |cs|
    ensures AndTriggersOf(cs[..idx + 1]) == AndTriggersOf(cs[..idx]) + AndTriggers(cs[idx])
    ensures OrTriggersOf(cs[..idx + 1]) == OrTriggersOf(cs[..idx]) + OrTriggers(cs[idx])
  {
    assert cs[..idx + 1][..idx] == cs[..idx];
  }

  // --- Actions ----------------------------------------------------------------------

  predicate IsLeafValue(v: Value) {
    v.Bool? || v.Number? || v.Text?
  }

  predicate IsPrimitive(v: Value) {
    IsLeafValue(v) || (v.Object? && forall k :: k in v.fields ==> IsLeafValue(v.fields[k]))
  }

  // The verbs an authored action spells out.
  datatype Verb = VEstop | VSlowTo | VResume | VTopic

  function Verbs(a: SemanticAction): (r: set<Verb>) {
    (if a.estop then {VEstop} else {}) + (if a.slowTo.Some? then {VSlowTo} else {})
    + (if a.resume then {VResume} else {}) + (if a.topic.Some? then {VTopic} else {})
  }

  function ActionError(a: SemanticAction): (r: Option<ErrorCode>) {
    if |Verbs(a)| != 1 then Some(NoActionVerb)
    else if a.payload.Some? && !IsPrimitive(a.payload.value) then Some(NonPrimitivePayload)
    else if a.slowTo.Some? && !a.slowTo.value.Finite? then Some(InvalidDistance)
    else if a.topic == Some("") then Some(InvalidTopic)
    else None
  }

  function SpecOf(a: SemanticAction): (r: ActionSpec)
    requires ActionError(a).None?
  {
    if a.estop then Estop
    else if a.resume then Resume
    else if a.slowTo.Some? then SlowTo(a.slowTo.value.r)
    else
      var topic := if a.topic.Some? then a.topic.value else "";
      Raw(topic, if a.payload.Some? then a.payload.value else Null)
  }

  lemma VerbCount(a: SemanticAction)
    ensures |Verbs(a)| == (if a.estop then 1 else 0) + (if a.slowTo.Some? then 1 else 0)
                          + (if a.resume then 1 else 0) + (if a.topic.Some? then 1 else 0)
  {
  }

  // `ActionSpec::try_from_action`
  method TryFromAction(a: SemanticAction) returns (r: Result<ActionSpec, ErrorCode>)
    ensures r == match ActionError(a)
                 case Some(e) => Failure(e)
                 case None => Success(SpecOf(a))
  {
    VerbCount(a);
    var count := 0;
    if a.estop { count := count + 1; }
    if a.slowTo.Some? { count := count + 1; }
    if a.resume { count := count + 1; }
    if a.topic.Some? { count := count + 1; }
    if count == 0 {
      return Failure(NoActionVerb);
    }
    if count > 1 {
      return Failure(NoActionVerb);
    }
    if a.payload.Some? && !IsPrimitive(a.payload.value) {
      return Failure(NonPrimitivePayload);
    }
    if a.estop {
      return Success(Estop);
    }
    if a.resume {
      return Success(Resume);
    }
    if a.slowTo.Some? {
      if !a.slowTo.value.Finite? {
        return Failure(InvalidDistance);
      }
      return Success(SlowTo(a.slowTo.value.r));
    }
    if a.topic.value == "" {
      return Failure(InvalidTopic);
    }
    r := Success(Raw(a.topic.value, if a.payload.Some? then a.payload.value else Null));
  }

  // `compile_action_from_spec`
  function CompileAction(spec: ActionSpec, qos: Qos, robotId: Id): (r: Result<Action, ErrorCode>) {
    match spec
    case Estop => Success(Action(Topic.StopCmd("fleet"), Reliable, Object(map["stop" := Bool(true)])))
    case Resume => Success(Action(Topic.RobotLocal(robotId, "drive"), Reliable, Object(map["resume" := Bool(true)])))
    case SlowTo(v) =>
      Success(Action(Topic.RobotLocal(robotId, "drive"), qos, Object(map["speed_mps" := Number(RealNum(v))])))
    case Raw(topic, payload) =>
      var validated := Topic.TryNewTopic(topic);
      if validated.Success? then Success(Action(validated.value, qos, payload)) else Failure(InvalidTopic)
  }

  // --- Whole manifests -----------------------------------------------------------------

  function ActionsError(acts: seq<SemanticAction>): (r: Option<ErrorCode>) {
    if acts == [] then None
    else
      match ActionError(acts[0])
      case Some(e) => Some(e)
      case None => ActionsError(acts[1..])
  }

  // `validate` reports the first fault in document order: per rule, actions before guard.
  function ValidateError(rules: seq<SemanticRule>, zones: set<string>): (r: Option<ErrorCode>) {
    if rules == [] then None
    else
      match ActionsError(rules[0].actions)
      case Some(e) => Some(e)
      case None =>
        match WhenError(rules[0].when, zones)
        case Some(e) => Some(e)
        case None => ValidateError(rules[1..], zones)
  }

  method Validate(doc: RulesManifest) returns (r: Result<(), ErrorCode>)
    ensures r == match ValidateError(doc.rules, doc.zones)
                 case Some(e) => Failure(e)
                 case None => Success(())
  {
    for i := 0 to |doc.rules|
      invariant ValidateError(doc.rules, doc.zones) == ValidateError(doc.rules[i..], doc.zones)
    {
      var rule := doc.rules[i];
      assert doc.rules[i..][0] == rule && doc.rules[i..][1..] == doc.rules[i + 1..];
      for j := 0 to |rule.actions|
        invariant ActionsError(rule.actions) == ActionsError(rule.actions[j..])
      {
        assert rule.actions[j..][1..] == rule.actions[j + 1..];
        var spec := TryFromAction(rule.actions[j]);
        if spec.Failure? {
          return Failure(spec.error);
        }
      }
      var built := BuildWhenExpr(rule.when, "validation", doc.zones);
      if built.Failure? {
        return Failure(built.error);
      }
    }
    r := Success(());
  }
}
