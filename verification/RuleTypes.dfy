// The runtime rule language (src/rules.rs) and the JSON values it is evaluated on.
module RuleTypes {
  import opened Wrappers

  // An `f64`. Rounding is not modelled; the three non-finite values are kept apart
  // because `d <= 0.0` holds of negative infinity and not of the other two.
  datatype Float64 = Finite(r: real) | PosInf | NegInf | NaN

  // A JSON number is always finite; integers and floats are distinct values with a common `as_f64`.
  datatype Num = IntNum(i: int) | RealNum(r: real) {
    function AsReal(): (r: real) {
      if IntNum? then i as real else r
    }
  }

  datatype Value =
    | Null
    | Bool(b: bool)
    | Number(n: Num)
    | Text(s: string)
    | Array(elems: seq<Value>)
    | Object(fields: map<string, Value>)

  datatype Qos = Reliable | BestEffort

  datatype Op = Eq | Ne | Lt | Gt | Le | Ge | SameZoneAs

  datatype PrimitiveRef = Site | Zone | Robot | Proximity(entity: string) | HumanPresence

  datatype Operand =
    | BoolLit(bv: bool)
    | IntLit(iv: int)
    | FloatLit(fv: Float64)
    | StrLit(sv: string)
    | Field(name: string)
    | Prim(p: PrimitiveRef)

  datatype EvalMode = Edge | Level

  datatype Predicate =
    | Comparison(op: Op, lhs: Operand, rhs: Operand)
    | And(parts: seq<Predicate>)
    | Or(parts: seq<Predicate>)
    | Not(inner: Predicate)

  datatype Action = Action(topic: string, qos: Qos, payload: Value)

  datatype Trigger = Trigger(topic: string, pred: Option<Predicate>, mode: EvalMode)

  datatype When = When(all: seq<Trigger>, any: seq<Trigger>)

  datatype Rule = Rule(name: string, when: When, actions: seq<Action>)

  datatype Rules = Rules(rules: seq<Rule>)

  datatype Ruleset = Ruleset(rulesetName: string, version: nat, robotOwner: string, rules: seq<Rule>)

  // An `Arc<Rules>`: `Arc::ptr_eq` is reference equality, and the contents never change.
  class RulesArc {
    const rules: Rules

    constructor (rules: Rules)
      ensures this.rules == rules
    {
      this.rules := rules;
    }
  }

  // Truth of a two-level guard under an arbitrary assignment of truth values to triggers.
  // The empty guard is false.
  ghost predicate WhenHolds(w: When, v: Trigger -> bool) {
    && (w.all != [] || w.any != [])
    && (forall t :: t in w.all ==> v(t))
    && (w.any == [] || exists t :: t in w.any && v(t))
  }
}
