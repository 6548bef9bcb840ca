// Predicate evaluation against one JSON sample and the zone map (src/engine.rs, pure part),
// and the polarity of its fail-closed treatment of absent data.
module Predicates {
  import opened Wrappers
  import opened RuleTypes
  import Strings

  // robot id -> ids of the zones it is in
  type ZoneMap = map<string, set<string>>

  const EPSILON: real := 0.000000001

  // `payload.get(name)`: absent on anything that is not an object.
  function Get(payload: Value, name: string): (r: Option<Value>) {
    if payload.Object? then Lookup(payload.fields, name) else None
  }

  function PrimField(p: PrimitiveRef): (r: string) {
    match p
    case Zone => "zone_id"
    case Robot => "role"
    case HumanPresence => "separation_distance"
    case Proximity(_) => "separation_distance"
    case Site => "site_id"
  }

  function ResolveOperand(op: Operand, payload: Value): (r: Option<Value>) {
    match op
    case BoolLit(v) => Some(Bool(v))
    case IntLit(v) => Some(Number(IntNum(v)))
    case FloatLit(v) => if v.Finite? then Some(Number(RealNum(v.r))) else None
    case StrLit(v) => Some(Text(v))
    case Field(name) => Get(payload, name)
    case Prim(p) =>
      if p.Proximity? && Get(payload, "peer_id") != Some(Text(p.entity)) then None
      else Get(payload, PrimField(p))
  }

  function Abs(x: real): (r: real) {
    if x < 0.0 then -x else x
  }

  predicate ValuesEqual(a: Value, b: Value) {
    if a.Number? && b.Number? then Abs(a.n.AsReal() - b.n.AsReal()) < EPSILON else a == b
  }

  // `None` on a type mismatch; callers read `None` as false.
  function JsonCmp(a: Value, b: Value): (r: Option<Strings.Ordering>) {
    match (a, b)
    case (Number(x), Number(y)) =>
      Some(if x.AsReal() < y.AsReal() then Strings.Less
           else if x.AsReal() > y.AsReal() then Strings.Greater
           else Strings.Equal)
    case (Text(x), Text(y)) => Some(Strings.Compare(x, y))
    case (Bool(x), Bool(y)) =>
      Some(if !x && y then Strings.Less else if x && !y then Strings.Greater else Strings.Equal)
    case _ => None
  }

  predicate ShareZone(zones: ZoneMap, a: string, b: string) {
    a in zones && b in zones && exists z :: z in zones[a] && z in zones[b]
  }

  predicate EvalComparison(op: Op, l: Value, r: Value, zones: ZoneMap) {
    match op
    case Eq => ValuesEqual(l, r)
    case Ne => !ValuesEqual(l, r)
    case Lt => JsonCmp(l, r) == Some(Strings.Less)
    case Gt => JsonCmp(l, r) == Some(Strings.Greater)
    case Le => JsonCmp(l, r) in {Some(Strings.Less), Some(Strings.Equal)}
    case Ge => JsonCmp(l, r) in {Some(Strings.Greater), Some(Strings.Equal)}
    case SameZoneAs => l.Text? && r.Text? && ShareZone(zones, l.s, r.s)
  }

  predicate EvalTree(pred: Predicate, payload: Value, zones: ZoneMap) {
    match pred
    case Comparison(op, lhs, rhs) =>
      var l, r := ResolveOperand(lhs, payload), ResolveOperand(rhs, payload);
      l.Some? && r.Some? && EvalComparison(op, l.value, r.value, zones)
    case And(ps) => forall i :: 0 <= i < |ps| ==> EvalTree(ps[i], payload, zones)
    case Or(ps) => exists i :: 0 <= i < |ps| && EvalTree(ps[i], payload, zones)
    case Not(b) => !EvalTree(b, payload, zones)
  }

  predicate EvalPredicate(pred: Option<Predicate>, payload: Value, zones: ZoneMap) {
    pred.None? || EvalTree(pred.value, payload, zones)
  }

  // --- Comparisons ------------------------------------------------------------

  ghost predicate Comparable(l: Value, r: Value) {
    (l.Number? && r.Number?) || (l.Text? && r.Text?) || (l.Bool? && r.Bool?)
  }

  // The four orderings are consistent: each is the negation of its opposite on comparable
  // values, swapping the operands swaps the direction, and on other values all are false.
  lemma OrderingLaws(l: Value, r: Value, zones: ZoneMap)
    ensures if Comparable(l, r) then
              && (EvalComparison(Ge, l, r, zones) <==> !EvalComparison(Lt, l, r, zones))
              && (EvalComparison(Le, l, r, zones) <==> !EvalComparison(Gt, l, r, zones))
              && (EvalComparison(Gt, l, r, zones) <==> EvalComparison(Lt, r, l, zones))
              && !(EvalComparison(Lt, l, r, zones) && EvalComparison(Gt, l, r, zones))
            else forall op :: op in {Lt, Gt, Le, Ge} ==> !EvalComparison(op, l, r, zones)
  {
    if l.Text? && r.Text? {
      Strings.CompareFlip(l.s, r.s);
    }
  }

  lemma SymmetricComparisons(l: Value, r: Value, zones: ZoneMap)
    ensures EvalComparison(Ne, l, r, zones) <==> !EvalComparison(Eq, l, r, zones)
    ensures EvalComparison(Eq, l, r, zones) <==> EvalComparison(Eq, r, l, zones)
    ensures EvalComparison(SameZoneAs, l, r, zones) <==> EvalComparison(SameZoneAs, r, l, zones)
  {
  }

  // Equality of numbers has a tolerance and ordering has none, so `==` and `<` overlap exactly
  // on numbers less than a billionth apart.
  lemma EqualityOverlapsOrder(x: Num, y: Num, zones: ZoneMap)
    ensures EvalComparison(Lt, Number(x), Number(y), zones) <==> x.AsReal() < y.AsReal()
    ensures EvalComparison(Eq, Number(x), Number(y), zones) && EvalComparison(Lt, Number(x), Number(y), zones) <==>
            x.AsReal() < y.AsReal() < x.AsReal() + 0.000000001
  {
  }

  // A literal stands for itself, whatever the payload; a float that is not finite for nothing.
  lemma LiteralsStandForThemselves(payload: Value, b: bool, i: int, f: Float64, s: string)
    ensures ResolveOperand(BoolLit(b), payload) == Some(Bool(b))
    ensures ResolveOperand(IntLit(i), payload) == Some(Number(IntNum(i)))
    ensures ResolveOperand(StrLit(s), payload) == Some(Text(s))
    ensures ResolveOperand(FloatLit(f), payload) ==
            if f in {NaN, PosInf, NegInf} then None else Some(Number(RealNum(f.r)))
  {
  }

  // A field operand is the field of that name in an object payload, absent otherwise; the named
  // readings are fields too, the separation of a peer only in that peer's sample.
  lemma OperandsAreFields(payload: Value, name: string, entity: string)
    ensures ResolveOperand(Field(name), payload).Some? <==> payload.Object? && name in payload.fields
    ensures payload.Object? && name in payload.fields ==>
              ResolveOperand(Field(name), payload) == Some(payload.fields[name])
    ensures ResolveOperand(Prim(Zone), payload) == ResolveOperand(Field("zone_id"), payload)
    ensures ResolveOperand(Prim(Robot), payload) == ResolveOperand(Field("role"), payload)
    ensures ResolveOperand(Prim(Site), payload) == ResolveOperand(Field("site_id"), payload)
    ensures ResolveOperand(Prim(HumanPresence), payload) == ResolveOperand(Field("separation_distance"), payload)
    ensures ResolveOperand(Prim(Proximity(entity)), payload) ==
            if ResolveOperand(Field("peer_id"), payload) == Some(Text(entity))
            then ResolveOperand(Field("separation_distance"), payload) else None
  {
  }

  // Texts are ordered by their first difference and false comes before true; off numbers equality
  // is identity; robots share a zone when both are in it.
  lemma ComparisonsMean(x: string, y: string, p: bool, q: bool, l: Value, r: Value, zones: ZoneMap)
    ensures EvalComparison(Lt, Text(x), Text(y), zones) <==> Strings.Before(x, y)
    ensures EvalComparison(Lt, Bool(p), Bool(q), zones) <==> !p && q
    ensures !(l.Number? && r.Number?) ==> (EvalComparison(Eq, l, r, zones) <==> l == r)
    ensures EvalComparison(SameZoneAs, Text(x), Text(y), zones) <==>
            x in zones && y in zones && zones[x] * zones[y] != {}
    ensures EvalComparison(SameZoneAs, l, r, zones) ==> l.Text? && r.Text?
  {
    Strings.LessMeansBefore(x, y);
    if x in zones && y in zones && zones[x] * zones[y] != {} {
      var z :| z in zones[x] * zones[y];
      assert z in zones[x] && z in zones[y];
    }
    if ShareZone(zones, x, y) {
      var z :| z in zones[x] && z in zones[y];
      assert z in zones[x] * zones[y];
    }
  }

  // --- Polarity ---------------------------------------------------------------

  // What a predicate can see.
  datatype View = View(payload: Value, zones: ZoneMap)

  // `small` is `big` with payload fields and zone memberships deleted.
  ghost predicate Deletion(small: View, big: View) {
    && (forall f: string :: Get(small.payload, f).Some? ==> Get(small.payload, f) == Get(big.payload, f))
    && (forall r :: r in small.zones ==> r in big.zones && small.zones[r] <= big.zones[r])
  }

  // Evaluation in which comparisons under an even number of negations see `pos`
  // and the others see `neg`.
  ghost predicate EvalSplit(pred: Predicate, pos: View, neg: View) {
    match pred
    case Comparison(_, _, _) => EvalTree(pred, pos.payload, pos.zones)
    case And(ps) => forall i :: 0 <= i < |ps| ==> EvalSplit(ps[i], pos, neg)
    case Or(ps) => exists i :: 0 <= i < |ps| && EvalSplit(ps[i], pos, neg)
    case Not(b) => !EvalSplit(b, neg, pos)
  }

  lemma {:induction false} EvalSplitDiagonal(pred: Predicate, v: View)
    ensures EvalSplit(pred, v, v) <==> EvalTree(pred, v.payload, v.zones)
  {
    match pred
    case Comparison(_, _, _) =>
    case And(ps) => forall i | 0 <= i < |ps| { EvalSplitDiagonal(ps[i], v); }
    case Or(ps) => forall i | 0 <= i < |ps| { EvalSplitDiagonal(ps[i], v); }
    case Not(b) => EvalSplitDiagonal(b, v);
  }

  lemma DeletionKeepsOperands(op: Operand, small: View, big: View)
    requires Deletion(small, big)
    ensures ResolveOperand(op, small.payload).Some? ==>
              ResolveOperand(op, small.payload) == ResolveOperand(op, big.payload)
  {
  }

  // Data under an even number of negations can only help, data under an odd number only
  // hurt: each `Not` flips the direction.
  lemma {:induction false} Polarity(pred: Predicate, pos: View, neg: View, morePos: View, lessNeg: View)
    requires Deletion(pos, morePos) && Deletion(lessNeg, neg)
    requires EvalSplit(pred, pos, neg)
    ensures EvalSplit(pred, morePos, lessNeg)
  {
    match pred
    case Comparison(op, lhs, rhs) =>
      DeletionKeepsOperands(lhs, pos, morePos);
      DeletionKeepsOperands(rhs, pos, morePos);
    case And(ps) =>
      forall i | 0 <= i < |ps| ensures EvalSplit(ps[i], morePos, lessNeg) {
        Polarity(ps[i], pos, neg, morePos, lessNeg);
      }
    case Or(ps) =>
      var i :| 0 <= i < |ps| && EvalSplit(ps[i], pos, neg);
      Polarity(ps[i], pos, neg, morePos, lessNeg);
    case Not(b) =>
      if EvalSplit(b, lessNeg, morePos) {
        Polarity(b, lessNeg, morePos, neg, pos);
      }
  }

  // A predicate that holds when every comparison sees the view least favourable to it holds
  // of every view in between.
  lemma RobustTruth(pred: Predicate, small: View, v: View, big: View)
    requires Deletion(small, v) && Deletion(v, big)
    requires EvalSplit(pred, small, big)
    ensures EvalTree(pred, v.payload, v.zones)
  {
    Polarity(pred, small, big, v, v);
    EvalSplitDiagonal(pred, v);
  }

  ghost predicate NegationFree(pred: Predicate) {
    match pred
    case Comparison(_, _, _) => true
    case And(ps) => forall i :: 0 <= i < |ps| ==> NegationFree(ps[i])
    case Or(ps) => forall i :: 0 <= i < |ps| ==> NegationFree(ps[i])
    case Not(_) => false
  }

  lemma {:induction false} NegationFreeIgnoresNeg(pred: Predicate, pos: View, neg: View)
    requires NegationFree(pred)
    ensures EvalSplit(pred, pos, neg) <==> EvalTree(pred, pos.payload, pos.zones)
  {
    match pred
    case Comparison(_, _, _) =>
    case And(ps) => forall i | 0 <= i < |ps| { NegationFreeIgnoresNeg(ps[i], pos, neg); }
    case Or(ps) => forall i | 0 <= i < |ps| { NegationFreeIgnoresNeg(ps[i], pos, neg); }
  }

  // Deleting data never turns a negation-free predicate from false to true, and never
  // turns its negation from true to false.
  lemma FailClosed(pred: Predicate, small: View, big: View)
    requires NegationFree(pred) && Deletion(small, big)
    ensures EvalTree(pred, small.payload, small.zones) ==> EvalTree(pred, big.payload, big.zones)
    ensures EvalTree(Not(pred), big.payload, big.zones) ==> EvalTree(Not(pred), small.payload, small.zones)
  {
    if EvalTree(pred, small.payload, small.zones) {
      NegationFreeIgnoresNeg(pred, small, big);
      assert Deletion(big, big);
      RobustTruth(pred, small, big, big);
    }
  }
}
