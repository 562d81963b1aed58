/** Evaluation of parsed formulas, and the references an evaluation reads. */
module FormulaEvaluator {
  import opened Wrappers
  import opened FormulaLexer
  import opened FormulaParser

  function Refs(n: Node): set<string> {
    match n
    case Num(_) => {}
    case Ref(name) => {name}
    case Neg(operand) => Refs(operand)
    case Bin(_, left, right) => Refs(left) + Refs(right)
  }

  ghost predicate Distinct<T>(s: seq<T>) {
    forall i, j :: 0 <= i < j < |s| ==> s[i] != s[j]
  }

  /** `names` followed by the references of `n` not yet in it, in the order they are met. */
  function Walk(n: Node, names: seq<string>): (r: seq<string>)
    requires Distinct(names)
    ensures Distinct(r) && names <= r
    ensures forall name :: name in r <==> name in names || name in Refs(n)
  {
    match n
    case Num(_) => names
    case Ref(name) => if name in names then names else names + [name]
    case Neg(operand) => Walk(operand, names)
    case Bin(_, left, right) => Walk(right, Walk(left, names))
  }

  function FormulaReferences(formula: string): (r: Result<seq<string>, FormulaError>)
    ensures r.Ok? <==> Parse(formula).Ok?
    ensures r.Ok? ==> Distinct(r.value) && forall name :: name in r.value <==> name in Refs(Parse(formula).value)
    ensures r.Err? ==> r.error == Parse(formula).error
  {
    var ast := Parse(formula);
    if ast.Err? then Err(ast.error) else Ok(Walk(ast.value, []))
  }

  function Apply(op: BinaryOp, l: real, r: real): Result<real, FormulaError> {
    match op
    case Add => Ok(l + r)
    case Subtract => Ok(l - r)
    case Multiply => Ok(l * r)
    case Divide => if r == 0.0 then Err(DivisionByZero) else Ok(l / r)
  }

  function Evaluate(n: Node, vars: map<string, real>): Result<real, FormulaError> {
    match n
    case Num(value) => Ok(value)
    case Ref(name) => if name in vars then Ok(vars[name]) else Err(UnknownReference(name))
    case Neg(operand) =>
      var v := Evaluate(operand, vars);
      if v.Err? then v else Ok(-v.value)
    case Bin(op, left, right) =>
      var l := Evaluate(left, vars);
      if l.Err? then l
      else
        var r := Evaluate(right, vars);
        if r.Err? then r else Apply(op, l.value, r.value)
  }

  function EvaluateFormula(formula: string, vars: map<string, real>): Result<real, FormulaError> {
    var ast := Parse(formula);
    if ast.Err? then Err(ast.error) else Evaluate(ast.value, vars)
  }

  /** An evaluation depends on nothing but the references of the formula. */
  lemma {:induction false} EvaluateReadsOnlyRefs(n: Node, vars: map<string, real>, others: map<string, real>)
    requires Refs(n) <= vars.Keys && Refs(n) <= others.Keys
    requires forall name :: name in Refs(n) ==> vars[name] == others[name]
    ensures Evaluate(n, vars) == Evaluate(n, others)
  {
    match n
    case Num(_) =>
    case Ref(name) => assert name in Refs(n);
    case Neg(operand) => EvaluateReadsOnlyRefs(operand, vars, others);
    case Bin(_, left, right) =>
      EvaluateReadsOnlyRefs(left, vars, others);
      EvaluateReadsOnlyRefs(right, vars, others);
  }

  /** With every reference bound, the only thing that can go wrong is a division by zero. */
  lemma {:induction false} EvaluateFailsOnlyOnZero(n: Node, vars: map<string, real>)
    requires Refs(n) <= vars.Keys
    ensures Evaluate(n, vars).Err? ==> Evaluate(n, vars).error == DivisionByZero
  {
    match n
    case Num(_) =>
    case Ref(name) => assert name in Refs(n);
    case Neg(operand) => EvaluateFailsOnlyOnZero(operand, vars);
    case Bin(_, left, right) =>
      EvaluateFailsOnlyOnZero(left, vars);
      EvaluateFailsOnlyOnZero(right, vars);
  }
}
