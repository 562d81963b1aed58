/** What formulas and components come to: the laws of arithmetic for evaluated trees, and of resolved amounts. */
module FormulaLaws {
  import opened FormulaEvaluator
  import opened FormulaLexer
  import opened FormulaParser
  import opened SalaryComponents
  import opened Wrappers

  predicate HasValue(n: Node, vars: map<string, real>) {
    Evaluate(n, vars).Ok?
  }

  /** The two trees come to the same, be it a value or an error. */
  predicate Same(a: Node, b: Node, vars: map<string, real>) {
    Evaluate(a, vars) == Evaluate(b, vars)
  }

  /** Sums commute and associate, nothing added changes nothing, and a tree added to itself is twice that tree. */
  lemma Sums(a: Node, b: Node, c: Node, vars: map<string, real>)
    requires HasValue(a, vars) && HasValue(b, vars) && HasValue(c, vars)
    ensures Same(Bin(Add, a, b), Bin(Add, b, a), vars)
    ensures Same(Bin(Add, Bin(Add, a, b), c), Bin(Add, a, Bin(Add, b, c)), vars)
    ensures Same(Bin(Add, a, Num(0.0)), a, vars)
    ensures Same(Bin(Add, a, a), Bin(Multiply, Num(2.0), a), vars)
  {
  }

  /** Subtracting is adding the negative, and is undone by adding. */
  lemma Differences(a: Node, b: Node, vars: map<string, real>)
    requires HasValue(a, vars) && HasValue(b, vars)
    ensures Same(Bin(Subtract, a, b), Bin(Add, a, Neg(b)), vars)
    ensures Same(Bin(Add, Bin(Subtract, a, b), b), a, vars)
    ensures Same(Bin(Add, a, Neg(a)), Num(0.0), vars)
  {
  }

  /** Products commute, distribute over sums, and have one as their unit. */
  lemma Products(a: Node, b: Node, c: Node, vars: map<string, real>)
    requires HasValue(a, vars) && HasValue(b, vars) && HasValue(c, vars)
    ensures Same(Bin(Multiply, a, b), Bin(Multiply, b, a), vars)
    ensures Same(Bin(Multiply, Bin(Add, a, b), c), Bin(Add, Bin(Multiply, a, c), Bin(Multiply, b, c)), vars)
    ensures Same(Bin(Multiply, Num(1.0), a), a, vars)
  {
    ProductsOfNumbers(Evaluate(a, vars).value, Evaluate(b, vars).value, Evaluate(c, vars).value);
    Applied(Add, a, b, vars);
    Applied(Multiply, a, b, vars);
    Applied(Multiply, b, a, vars);
    Applied(Multiply, a, c, vars);
    Applied(Multiply, b, c, vars);
    Applied(Multiply, Bin(Add, a, b), c, vars);
    Applied(Add, Bin(Multiply, a, c), Bin(Multiply, b, c), vars);
    Applied(Multiply, Num(1.0), a, vars);
    hide Apply;
  }

  lemma Applied(op: BinaryOp, a: Node, b: Node, vars: map<string, real>)
    requires HasValue(a, vars) && HasValue(b, vars)
    ensures Evaluate(Bin(op, a, b), vars) == Apply(op, Evaluate(a, vars).value, Evaluate(b, vars).value)
  {
  }

  lemma Multiplied(x: real, y: real, product: real)
    requires product == x * y
    ensures Apply(Multiply, x, y) == Ok(product)
  {
  }

  lemma ProductsOfNumbers(x: real, y: real, z: real)
    ensures Apply(Multiply, x, y) == Apply(Multiply, y, x) && Apply(Multiply, 1.0, x) == Ok(x)
    ensures Apply(Multiply, x, z).Ok? && Apply(Multiply, y, z).Ok? && Apply(Add, x, y).Ok?
    ensures Apply(Multiply, Apply(Add, x, y).value, z) ==
      Apply(Add, Apply(Multiply, x, z).value, Apply(Multiply, y, z).value)
  {
    Multiplied(x, y, y * x);
    Multiplied(y, x, y * x);
    Multiplied(1.0, x, x);
    Multiplied(x, z, x * z);
    Multiplied(y, z, y * z);
    Multiplied(x + y, z, x * z + y * z);
  }

  lemma QuotientOfNumbers(x: real, y: real)
    ensures Apply(Divide, x, y).Ok? <==> y != 0.0
    ensures y != 0.0 ==> Apply(Multiply, Apply(Divide, x, y).value, y) == Ok(x)
  {
    if y != 0.0 {
      Multiplied(x / y, y, x);
    }
  }

  /** Dividing fails exactly on a zero divisor, and is otherwise undone by multiplying. */
  lemma Quotients(a: Node, b: Node, vars: map<string, real>)
    requires HasValue(a, vars) && HasValue(b, vars)
    ensures HasValue(Bin(Divide, a, b), vars) <==> !Same(b, Num(0.0), vars)
    ensures HasValue(Bin(Divide, a, b), vars) ==> Same(Bin(Multiply, Bin(Divide, a, b), b), a, vars)
    ensures !HasValue(Bin(Divide, a, b), vars) ==> Evaluate(Bin(Divide, a, b), vars) == Err(DivisionByZero)
  {
    QuotientOfNumbers(Evaluate(a, vars).value, Evaluate(b, vars).value);
    Applied(Divide, a, b, vars);
    if HasValue(Bin(Divide, a, b), vars) {
      Applied(Multiply, Bin(Divide, a, b), b, vars);
    }
  }

  /** An operand that fails makes the whole fail with its error, the left one first. */
  lemma ErrorsPass(op: BinaryOp, a: Node, b: Node, vars: map<string, real>)
    ensures !HasValue(a, vars) ==> Same(Bin(op, a, b), a, vars) && Same(Neg(a), a, vars)
    ensures HasValue(a, vars) && !HasValue(b, vars) ==> Same(Bin(op, a, b), b, vars)
  {
  }

  // ---- Resolved amounts ----

  /** The variables of a structure's formulas: every component's amount, and a twelfth of the annual CTC. */
  function Variables(amounts: map<string, real>, ctcAnnual: real): map<string, real> {
    amounts["CTC" := ctcAnnual / 12.0]
  }

  /** What is left of the CTC: such a component and what its formula takes off make a twelfth of the annual CTC. */
  lemma RestOfCtc(components: seq<Component>, ctcAnnual: real, amounts: map<string, real>, code: string, taken: Node)
    requires IsResolution(components, ctcAnnual, amounts) && code in amounts
    requires var c := ByCode(components)[code];
      c.mode.Formula? && c.formula.Some? && Parse(c.formula.value) == Ok(Bin(Subtract, Ref("CTC"), taken))
    ensures HasValue(taken, Variables(amounts, ctcAnnual))
    ensures 12.0 * (amounts[code] + Evaluate(taken, Variables(amounts, ctcAnnual)).value) == ctcAnnual
  {
    var vars := Variables(amounts, ctcAnnual);
    FormulaAmount(components, ctcAnnual, amounts, code);
    assert Evaluate(Ref("CTC"), vars) == Ok(ctcAnnual / 12.0);
    assert Evaluate(Bin(Subtract, Ref("CTC"), taken), vars) == Ok(amounts[code]);
  }

  /** A formula's amount is what its tree comes to with the amounts of all components. */
  lemma FormulaAmount(components: seq<Component>, ctcAnnual: real, amounts: map<string, real>, code: string)
    requires IsResolution(components, ctcAnnual, amounts) && code in amounts
    requires ByCode(components)[code].mode.Formula? && ByCode(components)[code].formula.Some?
    ensures Parse(ByCode(components)[code].formula.value).Ok?
    ensures Evaluate(Parse(ByCode(components)[code].formula.value).value, Variables(amounts, ctcAnnual)) ==
      Ok(amounts[code])
  {
  }

  /** A percentage of the CTC is so many hundredths of a twelfth of it. */
  lemma PercentOfCtcAmount(components: seq<Component>, ctcAnnual: real, amounts: map<string, real>, code: string)
    requires IsResolution(components, ctcAnnual, amounts) && code in amounts
    requires ByCode(components)[code].mode.PercentOfCtc? && ByCode(components)[code].value.Some?
    ensures 1200.0 * amounts[code] == ByCode(components)[code].value.value * ctcAnnual
  {
  }

  /** A percentage of Basic is so many hundredths of the Basic's own amount. */
  lemma PercentOfBasicAmount(components: seq<Component>, ctcAnnual: real, amounts: map<string, real>, code: string)
    requires IsResolution(components, ctcAnnual, amounts) && code in amounts
    requires ByCode(components)[code].mode.PercentOfBasic? && ByCode(components)[code].value.Some?
    ensures "BASIC" in amounts
    ensures 100.0 * amounts[code] == ByCode(components)[code].value.value * amounts["BASIC"]
  {
  }

  /** A fixed component is worth its value, and a missing value is nothing in every mode but a formula. */
  lemma FixedAmount(components: seq<Component>, ctcAnnual: real, amounts: map<string, real>, code: string)
    requires IsResolution(components, ctcAnnual, amounts) && code in amounts
    requires !ByCode(components)[code].mode.Formula?
    ensures var c := ByCode(components)[code];
      && (c.value.None? ==> amounts[code] == 0.0)
      && (c.mode.Fixed? && c.value.Some? ==> amounts[code] == c.value.value)
  {
  }
}
