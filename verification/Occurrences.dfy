// Guards read occurrence by occurrence. Two conditions of a guard can be equal as triggers and
// still count separately, so meaning is stated here over positions in document order, and every
// slot of the compiled guard is traced to the position it came from.
module Occurrences {
  import opened Wrappers
  import opened Strings
  import opened RuleTypes
  import opened Semantic
  import opened Lowering

  // --- Meaning by position -----------------------------------------------------------------

  // How many conditions a guard has.
  function Conditions(w: SemanticWhen): (n: nat)
    decreases w, 1
  {
    FlatCount(w) + ConditionsOf(w.all) + ConditionsOf(w.any)
  }

  function ConditionsOf(ws: seq<SemanticWhen>): (n: nat)
    decreases ws, 0
  {
    if ws == [] then 0 else ConditionsOf(ws[..|ws| - 1]) + Conditions(ws[|ws| - 1])
  }

  // Truth of an authored guard whose first condition has position `base`: its flat keys, then its
  // `all` children, then its `any` children.
  ghost predicate AuthoredHoldsAt(w: SemanticWhen, base: nat, f: nat -> bool)
    decreases w, 1
  {
    var mid := base + FlatCount(w);
    && (forall u: nat :: base <= u < mid ==> f(u))
    && AllHoldAt(w.all, mid, f)
    && (w.any == [] || SomeHoldsAt(w.any, mid + ConditionsOf(w.all), f))
  }

  ghost predicate AllHoldAt(ws: seq<SemanticWhen>, base: nat, f: nat -> bool)
    decreases ws, 0
  {
    ws == [] ||
    var n := |ws| - 1;
    AllHoldAt(ws[..n], base, f) && AuthoredHoldsAt(ws[n], base + ConditionsOf(ws[..n]), f)
  }

  ghost predicate SomeHoldsAt(ws: seq<SemanticWhen>, base: nat, f: nat -> bool)
    decreases ws, 0
  {
    ws != [] &&
    var n := |ws| - 1;
    SomeHoldsAt(ws[..n], base, f) || AuthoredHoldsAt(ws[n], base + ConditionsOf(ws[..n]), f)
  }

  // The same for trees, whose leaves are numbered left to right.
  ghost predicate ExprHoldsAt(e: WhenExpr, base: nat, f: nat -> bool)
    decreases e, 1
  {
    match e
    case Leaf(_) => f(base)
    case All(cs) => EachHoldsAt(cs, base, f)
    case Any(cs) => OneHoldsAt(cs, base, f)
  }

  ghost predicate EachHoldsAt(cs: seq<WhenExpr>, base: nat, f: nat -> bool)
    decreases cs, 0
  {
    cs == [] ||
    var n := |cs| - 1;
    EachHoldsAt(cs[..n], base, f) && ExprHoldsAt(cs[n], base + |TriggersOf(cs[..n])|, f)
  }

  ghost predicate OneHoldsAt(cs: seq<WhenExpr>, base: nat, f: nat -> bool)
    decreases cs, 0
  {
    cs != [] &&
    var n := |cs| - 1;
    OneHoldsAt(cs[..n], base, f) || ExprHoldsAt(cs[n], base + |TriggersOf(cs[..n])|, f)
  }

  lemma {:induction false} AuthoredLength(w: SemanticWhen, robotId: Id)
    ensures |AuthoredTriggers(w, robotId)| == Conditions(w)
    decreases w, 1
  {
    FlatLength(w, robotId);
    AuthoredLengthOf(w.all, robotId);
    AuthoredLengthOf(w.any, robotId);
  }

  lemma {:induction false} AuthoredLengthOf(ws: seq<SemanticWhen>, robotId: Id)
    ensures |AuthoredTriggersOf(ws, robotId)| == ConditionsOf(ws)
    decreases ws, 0
  {
    if ws != [] {
      AuthoredLengthOf(ws[..|ws| - 1], robotId);
      AuthoredLength(ws[|ws| - 1], robotId);
    }
  }

  // --- Building ------------------------------------------------------------------------------

  lemma SnocHoldsAt(cs: seq<WhenExpr>, base: nat, mid: nat, f: nat -> bool)
    requires cs != [] && mid == base + |TriggersOf(cs[..|cs| - 1])|
    ensures EachHoldsAt(cs, base, f) <==> EachHoldsAt(cs[..|cs| - 1], base, f) && ExprHoldsAt(cs[|cs| - 1], mid, f)
    ensures OneHoldsAt(cs, base, f) <==> OneHoldsAt(cs[..|cs| - 1], base, f) || ExprHoldsAt(cs[|cs| - 1], mid, f)
  {
  }

  lemma {:induction false} EachConcat(a: seq<WhenExpr>, b: seq<WhenExpr>, base: nat, f: nat -> bool)
    ensures EachHoldsAt(a + b, base, f) <==> EachHoldsAt(a, base, f) && EachHoldsAt(b, base + |TriggersOf(a)|, f)
  {
    if b == [] {
      assert a + b == a;
    } else {
      var n := |b| - 1;
      assert (a + b)[..|a + b| - 1] == a + b[..n];
      EachConcat(a, b[..n], base, f);
      OfConcat(a, b[..n]);
      SnocHoldsAt(a + b, base, base + |TriggersOf(a + b[..n])|, f);
      SnocHoldsAt(b, base + |TriggersOf(a)|, base + |TriggersOf(a + b[..n])|, f);
    }
  }

  lemma {:induction false} EachLeaf(ts: seq<Trigger>, base: nat, f: nat -> bool)
    ensures EachHoldsAt(Leaves(ts), base, f) <==> forall u: nat :: base <= u < base + |ts| ==> f(u)
  {
    if ts != [] {
      var n := |ts| - 1;
      EachLeaf(ts[..n], base, f);
      GroupsOfLeaves(ts[..n]);
      assert Leaves(ts)[..n] == Leaves(ts[..n]);
      SnocHoldsAt(Leaves(ts), base, base + n, f);
    }
  }

  lemma AndPartsHoldAt(flat: seq<Trigger>, children: seq<WhenExpr>, base: nat, f: nat -> bool)
    ensures EachHoldsAt(Leaves(flat) + children, base, f) <==>
            && (forall u: nat :: base <= u < base + |flat| ==> f(u))
            && EachHoldsAt(children, base + |flat|, f)
    ensures |TriggersOf(Leaves(flat) + children)| == |flat| + |TriggersOf(children)|
  {
    GroupsOfLeaves(flat);
    OfConcat(Leaves(flat), children);
    EachConcat(Leaves(flat), children, base, f);
    EachLeaf(flat, base, f);
  }

  lemma AssembleHoldsAt(andParts: seq<WhenExpr>, anyChildren: seq<WhenExpr>, base: nat, f: nat -> bool)
    ensures ExprHoldsAt(Assemble(andParts, anyChildren), base, f) <==>
            && EachHoldsAt(andParts, base, f)
            && (anyChildren == [] || OneHoldsAt(anyChildren, base + |TriggersOf(andParts)|, f))
  {
    if anyChildren == [] {
      if |andParts| == 1 {
        assert andParts[..0] == [];
        SnocHoldsAt(andParts, base, base, f);
      }
    } else if andParts == [] {
      assert TriggersOf(andParts) == [];
    } else {
      var or := Any(anyChildren);
      var parts := andParts + [or];
      assert parts[..|parts| - 1] == andParts && parts[|parts| - 1] == or;
      SnocHoldsAt(parts, base, base + |TriggersOf(andParts)|, f);
    }
  }

  // The tree of one guard level, its parts numbered one after the other.
  lemma LevelHoldsAt(flat: seq<Trigger>, allChildren: seq<WhenExpr>, anyChildren: seq<WhenExpr>, base: nat, mid: nat,
      last: nat, f: nat -> bool)
    requires mid == base + |flat| && last == mid + |TriggersOf(allChildren)|
    ensures ExprHoldsAt(Assemble(Leaves(flat) + allChildren, anyChildren), base, f) <==>
            && (forall u: nat :: base <= u < mid ==> f(u))
            && EachHoldsAt(allChildren, mid, f)
            && (anyChildren == [] || OneHoldsAt(anyChildren, last, f))
  {
    AssembleHoldsAt(Leaves(flat) + allChildren, anyChildren, base, f);
    AndPartsHoldAt(flat, allChildren, base, f);
  }

  // A tree and a guard with as many conditions that mean the same, wherever they are numbered from.
  ghost predicate Alike(e: WhenExpr, w: SemanticWhen, f: nat -> bool) {
    && |Triggers(e)| == Conditions(w)
    && forall base: nat :: ExprHoldsAt(e, base, f) <==> AuthoredHoldsAt(w, base, f)
  }

  ghost predicate EachAlike(es: seq<WhenExpr>, ws: seq<SemanticWhen>, f: nat -> bool) {
    |es| == |ws| && forall i :: 0 <= i < |es| ==> Alike(es[i], ws[i], f)
  }

  lemma {:induction false} ChildrenAlike(es: seq<WhenExpr>, ws: seq<SemanticWhen>, base: nat, f: nat -> bool)
    requires EachAlike(es, ws, f)
    ensures |TriggersOf(es)| == ConditionsOf(ws)
    ensures EachHoldsAt(es, base, f) <==> AllHoldAt(ws, base, f)
    ensures OneHoldsAt(es, base, f) <==> SomeHoldsAt(ws, base, f)
  {
    if es != [] {
      var n := |es| - 1;
      ChildrenAlike(es[..n], ws[..n], base, f);
      assert Alike(es[n], ws[n], f);
      SnocHoldsAt(es, base, base + ConditionsOf(ws[..n]), f);
    }
  }

  lemma LevelAlike(w: SemanticWhen, flat: seq<Trigger>, allChildren: seq<WhenExpr>, anyChildren: seq<WhenExpr>,
      f: nat -> bool)
    requires |flat| == FlatCount(w) && EachAlike(allChildren, w.all, f) && EachAlike(anyChildren, w.any, f)
    ensures Alike(Assemble(Leaves(flat) + allChildren, anyChildren), w, f)
  {
    var e := Assemble(Leaves(flat) + allChildren, anyChildren);
    forall base: nat ensures ExprHoldsAt(e, base, f) <==> AuthoredHoldsAt(w, base, f) {
      var mid := base + FlatCount(w);
      var last := mid + ConditionsOf(w.all);
      ChildrenAlike(allChildren, w.all, mid, f);
      ChildrenAlike(anyChildren, w.any, last, f);
      LevelHoldsAt(flat, allChildren, anyChildren, base, mid, last, f);
    }
    ChildrenAlike(allChildren, w.all, 0, f);
    ChildrenAlike(anyChildren, w.any, 0, f);
    AssembleCounts(Leaves(flat) + allChildren, anyChildren);
    AndPartsHoldAt(flat, allChildren, 0, f);
  }

  // Building preserves meaning occurrence by occurrence.
  lemma {:induction false} BuildKeepsOccurrences(w: SemanticWhen, robotId: Id, f: nat -> bool)
    ensures Alike(ExprOf(w, robotId), w, f)
  {
    var allChildren, anyChildren := ExprsOf(w.all, robotId), ExprsOf(w.any, robotId);
    forall i | 0 <= i < |w.all| ensures Alike(allChildren[i], w.all[i], f) {
      BuildKeepsOccurrences(w.all[i], robotId, f);
    }
    forall i | 0 <= i < |w.any| ensures Alike(anyChildren[i], w.any[i], f) {
      BuildKeepsOccurrences(w.any[i], robotId, f);
    }
    FlatLength(w, robotId);
    LevelAlike(w, FlatTriggers(w, robotId), allChildren, anyChildren, f);
    BuiltTree(w, robotId, allChildren, anyChildren);
  }

  // --- Lowering ------------------------------------------------------------------------------

  function Range(lo: nat, n: nat): (us: seq<nat>)
    ensures |us| == n && forall i :: 0 <= i < n ==> us[i] == lo + i
  {
    seq(n, i requires 0 <= i < n => lo + i)
  }

  // The positions of the triggers that `lower` puts in the `all` and in the `any` list.
  function AndPositions(e: WhenExpr, base: nat): (us: seq<nat>)
    decreases e, 1
  {
    match e
    case Leaf(_) => [base]
    case All(cs) => AndPositionsOf(cs, base)
    case Any(_) => []
  }

  function AndPositionsOf(cs: seq<WhenExpr>, base: nat): (us: seq<nat>)
    decreases cs, 0
  {
    if cs == [] then []
    else
      var n := |cs| - 1;
      AndPositionsOf(cs[..n], base) + AndPositions(cs[n], base + |TriggersOf(cs[..n])|)
  }

  function OrPositions(e: WhenExpr, base: nat): (us: seq<nat>)
    decreases e, 1
  {
    match e
    case Leaf(_) => []
    case All(cs) => OrPositionsOf(cs, base)
    case Any(cs) => Range(base, |TriggersOf(cs)|)
  }

  function OrPositionsOf(cs: seq<WhenExpr>, base: nat): (us: seq<nat>)
    decreases cs, 0
  {
    if cs == [] then []
    else
      var n := |cs| - 1;
      OrPositionsOf(cs[..n], base) + OrPositions(cs[n], base + |TriggersOf(cs[..n])|)
  }

  // `ts` is what stands at positions `us` of a document that is `doc` from position `base` on.
  ghost predicate StandsAt(ts: seq<Trigger>, us: seq<nat>, doc: seq<Trigger>, base: nat) {
    && |ts| == |us|
    && forall i {:trigger us[i]} :: 0 <= i < |us| ==> base <= us[i] < base + |doc| && doc[us[i] - base] == ts[i]
  }

  lemma StandsConcat(ts: seq<Trigger>, us: seq<nat>, doc: seq<Trigger>, base: nat, ts': seq<Trigger>, us': seq<nat>,
      doc': seq<Trigger>)
    requires StandsAt(ts, us, doc, base) && StandsAt(ts', us', doc', base + |doc|)
    ensures StandsAt(ts + ts', us + us', doc + doc', base)
  {
  }

  lemma RangeStands(ts: seq<Trigger>, base: nat)
    ensures StandsAt(ts, Range(base, |ts|), ts, base)
  {
  }

  // Each lowered trigger is the one at its position.
  lemma {:induction false} PositionsStand(e: WhenExpr, base: nat)
    ensures StandsAt(AndTriggers(e), AndPositions(e, base), Triggers(e), base)
    ensures StandsAt(OrTriggers(e), OrPositions(e, base), Triggers(e), base)
    decreases e, 1
  {
    match e
    case Leaf(_) =>
    case All(cs) => PositionsStandOf(cs, base);
    case Any(cs) => RangeStands(TriggersOf(cs), base);
  }

  lemma {:induction false} PositionsStandOf(cs: seq<WhenExpr>, base: nat)
    ensures StandsAt(AndTriggersOf(cs), AndPositionsOf(cs, base), TriggersOf(cs), base)
    ensures StandsAt(OrTriggersOf(cs), OrPositionsOf(cs, base), TriggersOf(cs), base)
    decreases cs, 0
  {
    if cs != [] {
      var n := |cs| - 1;
      var init, mid := cs[..n], base + |TriggersOf(cs[..n])|;
      PositionsStandOf(init, base);
      PositionsStand(cs[n], mid);
      StandsConcat(AndTriggersOf(init), AndPositionsOf(init, base), TriggersOf(init), base,
                   AndTriggers(cs[n]), AndPositions(cs[n], mid), Triggers(cs[n]));
      StandsConcat(OrTriggersOf(init), OrPositionsOf(init, base), TriggersOf(init), base,
                   OrTriggers(cs[n]), OrPositions(cs[n], mid), Triggers(cs[n]));
    }
  }

  ghost predicate Ascending(us: seq<nat>, lo: nat, hi: nat) {
    && (forall i :: 0 <= i < |us| ==> lo <= us[i] < hi)
    && (forall i, j :: 0 <= i < j < |us| ==> us[i] < us[j])
  }

  // Two ascending lists that share out the positions from `lo` to `hi`.
  ghost predicate Partition(a: seq<nat>, b: seq<nat>, lo: nat, hi: nat) {
    && lo <= hi && Ascending(a, lo, hi) && Ascending(b, lo, hi)
    && forall u: nat :: lo <= u < hi ==> (u in a <==> u !in b)
  }

  lemma PartitionConcat(a: seq<nat>, b: seq<nat>, a': seq<nat>, b': seq<nat>, lo: nat, mid: nat, hi: nat)
    requires Partition(a, b, lo, mid) && Partition(a', b', mid, hi)
    ensures Partition(a + a', b + b', lo, hi)
  {
  }

  lemma RangePartition(lo: nat, n: nat)
    ensures Partition([], Range(lo, n), lo, lo + n) && Partition(Range(lo, n), [], lo, lo + n)
  {
    forall u: nat | lo <= u < lo + n ensures u in Range(lo, n) {
      assert Range(lo, n)[u - lo] == u;
    }
  }

  // Lowering places every position exactly once.
  lemma {:induction false} PositionsPartition(e: WhenExpr, base: nat)
    ensures Partition(AndPositions(e, base), OrPositions(e, base), base, base + |Triggers(e)|)
    decreases e, 1
  {
    match e
    case Leaf(_) =>
    case All(cs) => PositionsPartitionOf(cs, base);
    case Any(cs) => RangePartition(base, |TriggersOf(cs)|);
  }

  lemma {:induction false} PositionsPartitionOf(cs: seq<WhenExpr>, base: nat)
    ensures Partition(AndPositionsOf(cs, base), OrPositionsOf(cs, base), base, base + |TriggersOf(cs)|)
    decreases cs, 0
  {
    if cs != [] {
      var n := |cs| - 1;
      var init, mid := cs[..n], base + |TriggersOf(cs[..n])|;
      PositionsPartitionOf(init, base);
      PositionsPartition(cs[n], mid);
      PartitionConcat(AndPositionsOf(init, base), OrPositionsOf(init, base),
                      AndPositions(cs[n], mid), OrPositions(cs[n], mid), base, mid, mid + |Triggers(cs[n])|);
    }
  }

  ghost predicate EachOf(us: seq<nat>, f: nat -> bool) {
    forall u :: u in us ==> f(u)
  }

  ghost predicate OneOf(us: seq<nat>, f: nat -> bool) {
    exists u :: u in us && f(u)
  }

  ghost predicate TwoLevelHoldsAt(all: seq<nat>, any: seq<nat>, f: nat -> bool) {
    EachOf(all, f) && (any == [] || OneOf(any, f))
  }

  lemma OfConcatAt(a: seq<nat>, b: seq<nat>, f: nat -> bool)
    ensures EachOf(a + b, f) <==> EachOf(a, f) && EachOf(b, f)
    ensures OneOf(a + b, f) <==> OneOf(a, f) || OneOf(b, f)
  {
  }

  // Lowering preserves meaning occurrence by occurrence.
  lemma {:induction false} LowerKeepsOccurrences(e: WhenExpr, base: nat, f: nat -> bool)
    requires Normal(e) && Expressible(e)
    ensures ExprHoldsAt(e, base, f) <==> TwoLevelHoldsAt(AndPositions(e, base), OrPositions(e, base), f)
    decreases e, 1
  {
    match e
    case Leaf(_) =>
    case All(cs) => LowerAllOccurrences(cs, base, f);
    case Any(cs) =>
      LowerAnyOccurrences(cs, base, f);
      EachHasTrigger(cs);
  }

  lemma {:induction false} LowerAllOccurrences(cs: seq<WhenExpr>, base: nat, f: nat -> bool)
    requires forall i :: 0 <= i < |cs| ==> Normal(cs[i])
    requires Expressible(All(cs))
    ensures EachHoldsAt(cs, base, f) <==> TwoLevelHoldsAt(AndPositionsOf(cs, base), OrPositionsOf(cs, base), f)
    decreases cs, 0
  {
    if cs != [] {
      var n := |cs| - 1;
      var mid := base + |TriggersOf(cs[..n])|;
      AtMostOneOrStep(cs, n);
      assert cs[..n + 1] == cs;
      LowerAllOccurrences(cs[..n], base, f);
      LowerKeepsOccurrences(cs[n], mid, f);
      PositionsStandOf(cs[..n], base);
      PositionsStand(cs[n], mid);
      SnocHoldsAt(cs, base, mid, f);
      OfConcatAt(AndPositionsOf(cs[..n], base), AndPositions(cs[n], mid), f);
      OfConcatAt(OrPositionsOf(cs[..n], base), OrPositions(cs[n], mid), f);
    }
  }

  lemma OneOfSame(us: seq<nat>, lo: nat, n: nat, f: nat -> bool)
    requires forall u: nat :: u in us <==> lo <= u < lo + n
    ensures OneOf(us, f) <==> OneOf(Range(lo, n), f)
  {
    forall u: nat | lo <= u < lo + n ensures u in Range(lo, n) {
      assert Range(lo, n)[u - lo] == u;
    }
  }

  // An element of an OR is true exactly when one of its positions is.
  lemma ElementOccurrences(e: WhenExpr, base: nat, f: nat -> bool)
    requires OrElement(e)
    ensures TwoLevelHoldsAt(AndPositions(e, base), OrPositions(e, base), f) <==> OneOf(Range(base, |Triggers(e)|), f)
  {
    var all, any := AndPositions(e, base), OrPositions(e, base);
    PositionsStand(e, base);
    PositionsPartition(e, base);
    if any == [] {
      assert |all| == 1 && all[0] in all;
      OneOfSame(all, base, |Triggers(e)|, f);
    } else {
      OneOfSame(any, base, |Triggers(e)|, f);
    }
  }

  lemma RangeConcat(lo: nat, m: nat, n: nat)
    ensures Range(lo, m + n) == Range(lo, m) + Range(lo + m, n)
  {
  }

  lemma {:induction false} LowerAnyOccurrences(cs: seq<WhenExpr>, base: nat, f: nat -> bool)
    requires forall i :: 0 <= i < |cs| ==> Normal(cs[i])
    requires Expressible(Any(cs))
    ensures OneHoldsAt(cs, base, f) <==> OneOf(Range(base, |TriggersOf(cs)|), f)
    decreases cs, 0
  {
    if cs != [] {
      var n := |cs| - 1;
      var m := |TriggersOf(cs[..n])|;
      LowerAnyOccurrences(cs[..n], base, f);
      LowerKeepsOccurrences(cs[n], base + m, f);
      ElementOccurrences(cs[n], base + m, f);
      SnocHoldsAt(cs, base, base + m, f);
      RangeConcat(base, m, |Triggers(cs[n])|);
      OfConcatAt(Range(base, m), Range(base + m, |Triggers(cs[n])|), f);
    }
  }
}
