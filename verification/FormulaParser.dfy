/**
 * The recursive-descent parser of the salary-formula language. `Parser` is the object whose
 * methods advance a shared position, as the source's closures do; the functions above it say
 * what each method returns, so that lemmas can speak about parsing.
 */
module FormulaParser {
  import opened DecimalText
  import opened Wrappers
  import opened FormulaLexer

  const MAX_LENGTH := 200
  const MAX_DEPTH := 20

  datatype BinaryOp = Add | Subtract | Multiply | Divide

  datatype Node =
    | Num(value: real)
    | Ref(name: string)
    | Neg(operand: Node)
    | Bin(op: BinaryOp, left: Node, right: Node)

  /** A parsed phrase and the position of the token after it. */
  datatype Parsed = Parsed(node: Node, next: nat)

  type ParseResult = Result<Parsed, FormulaError>

  /** The exact decimal number a number token spells. */
  function DecimalValue(text: string): real {
    var whole := RunEnd(text, 0, IsDigit);
    if whole == |text| then DigitsValue(text) as real
    else DigitsValue(text[..whole] + text[whole + 1..]) as real / Pow10(|text| - whole - 1) as real
  }

  predicate SymbolAt(tokens: seq<Token>, pos: nat, op: char) {
    pos < |tokens| && tokens[pos] == Symbol(op)
  }

  predicate SumOpAt(tokens: seq<Token>, pos: nat) {
    SymbolAt(tokens, pos, '+') || SymbolAt(tokens, pos, '-')
  }

  predicate ProductOpAt(tokens: seq<Token>, pos: nat) {
    SymbolAt(tokens, pos, '*') || SymbolAt(tokens, pos, '/')
  }

  /** The operator a `+ - * /` token stands for. */
  function OpOf(t: Token): BinaryOp {
    if t == Symbol('+') then Add
    else if t == Symbol('-') then Subtract
    else if t == Symbol('*') then Multiply
    else Divide
  }

  function Expr(tokens: seq<Token>, pos: nat, depth: nat): (r: ParseResult)
    requires pos <= |tokens|
    ensures r.Ok? ==> pos < r.value.next <= |tokens|
    decreases |tokens| - pos, 4
  {
    var left := Term(tokens, pos, depth);
    if left.Err? then left else ExprTail(left.value.node, tokens, left.value.next, depth)
  }

  /** The loop of `Expr`, resumed with `left` already read. */
  function ExprTail(left: Node, tokens: seq<Token>, pos: nat, depth: nat): (r: ParseResult)
    requires pos <= |tokens|
    ensures r.Ok? ==> pos <= r.value.next <= |tokens|
    decreases |tokens| - pos, 0
  {
    if !SumOpAt(tokens, pos) then Ok(Parsed(left, pos))
    else
      var right := Term(tokens, pos + 1, depth);
      if right.Err? then right
      else ExprTail(Bin(OpOf(tokens[pos]), left, right.value.node), tokens, right.value.next, depth)
  }

  function Term(tokens: seq<Token>, pos: nat, depth: nat): (r: ParseResult)
    requires pos <= |tokens|
    ensures r.Ok? ==> pos < r.value.next <= |tokens|
    decreases |tokens| - pos, 3
  {
    var left := Unary(tokens, pos, depth);
    if left.Err? then left else TermTail(left.value.node, tokens, left.value.next, depth)
  }

  function TermTail(left: Node, tokens: seq<Token>, pos: nat, depth: nat): (r: ParseResult)
    requires pos <= |tokens|
    ensures r.Ok? ==> pos <= r.value.next <= |tokens|
    decreases |tokens| - pos, 0
  {
    if !ProductOpAt(tokens, pos) then Ok(Parsed(left, pos))
    else
      var right := Unary(tokens, pos + 1, depth);
      if right.Err? then right
      else TermTail(Bin(OpOf(tokens[pos]), left, right.value.node), tokens, right.value.next, depth)
  }

  function Unary(tokens: seq<Token>, pos: nat, depth: nat): (r: ParseResult)
    requires pos <= |tokens|
    ensures r.Ok? ==> pos < r.value.next <= |tokens|
    decreases |tokens| - pos, 2
  {
    if SymbolAt(tokens, pos, '-') then
      var operand := Unary(tokens, pos + 1, depth);
      if operand.Err? then operand else Ok(Parsed(Neg(operand.value.node), operand.value.next))
    else if SymbolAt(tokens, pos, '+') then Unary(tokens, pos + 1, depth)
    else Primary(tokens, pos, depth)
  }

  function Primary(tokens: seq<Token>, pos: nat, depth: nat): (r: ParseResult)
    requires pos <= |tokens|
    ensures r.Ok? ==> pos < r.value.next <= |tokens|
    decreases |tokens| - pos, 1
  {
    if depth > MAX_DEPTH then Err(NestedTooDeeply)
    else if pos == |tokens| then Err(EndsUnexpectedly)
    else if tokens[pos].Number? then Ok(Parsed(Num(DecimalValue(tokens[pos].text)), pos + 1))
    else if tokens[pos].Name? then Ok(Parsed(Ref(tokens[pos].text), pos + 1))
    else if tokens[pos].op == '(' then
      var inner := Expr(tokens, pos + 1, depth + 1);
      if inner.Err? then inner
      else if !SymbolAt(tokens, inner.value.next, ')') then Err(MissingClosingParenthesis)
      else Ok(Parsed(inner.value.node, inner.value.next + 1))
    else Err(UnexpectedToken(tokens[pos]))
  }

  function ParseTokens(tokens: seq<Token>): Result<Node, FormulaError> {
    if tokens == [] then Err(EmptyFormula)
    else
      var r := Expr(tokens, 0, 0);
      if r.Err? then Err(r.error)
      else if r.value.next < |tokens| then Err(UnexpectedToken(tokens[r.value.next]))
      else Ok(r.value.node)
  }

  function Parse(formula: string): Result<Node, FormulaError> {
    if |formula| > MAX_LENGTH then Err(TooLong)
    else
      var tokens := Lex(formula);
      if tokens.Err? then Err(tokens.error) else ParseTokens(tokens.value)
  }

  /** The outcome of a parser method that moved the position to `pos`. */
  function Outcome(r: Result<Node, FormulaError>, pos: nat): ParseResult {
    if r.Ok? then Ok(Parsed(r.value, pos)) else Err(r.error)
  }

  class Parser {
    const tokens: seq<Token>
    var pos: nat

    ghost predicate Valid()
      reads this
    {
      pos <= |tokens|
    }

    constructor (tokens: seq<Token>)
      ensures this.tokens == tokens && pos == 0
    {
      this.tokens := tokens;
      pos := 0;
    }

    method ParseExpr(depth: nat) returns (r: Result<Node, FormulaError>)
      requires Valid()
      modifies this
      ensures r.Ok? ==> Valid() && pos > old(pos)
      ensures Expr(tokens, old(pos), depth) == Outcome(r, pos)
      decreases |tokens| - pos, 4
    {
      r := ParseTerm(depth);
      if r.Err? {
        return;
      }
      var left := r.value;
      while SumOpAt(tokens, pos)
        invariant Valid() && pos > old(pos)
        invariant Expr(tokens, old(pos), depth) == ExprTail(left, tokens, pos, depth)
        decreases |tokens| - pos
      {
        var op := OpOf(tokens[pos]);
        pos := pos + 1;
        var right := ParseTerm(depth);
        if right.Err? {
          return right;
        }
        left := Bin(op, left, right.value);
      }
      return Ok(left);
    }

    method ParseTerm(depth: nat) returns (r: Result<Node, FormulaError>)
      requires Valid()
      modifies this
      ensures r.Ok? ==> Valid() && pos > old(pos)
      ensures Term(tokens, old(pos), depth) == Outcome(r, pos)
      decreases |tokens| - pos, 3
    {
      r := ParseUnary(depth);
      if r.Err? {
        return;
      }
      var left := r.value;
      while ProductOpAt(tokens, pos)
        invariant Valid() && pos > old(pos)
        invariant Term(tokens, old(pos), depth) == TermTail(left, tokens, pos, depth)
        decreases |tokens| - pos
      {
        var op := OpOf(tokens[pos]);
        pos := pos + 1;
        var right := ParseUnary(depth);
        if right.Err? {
          return right;
        }
        left := Bin(op, left, right.value);
      }
      return Ok(left);
    }

    method ParseUnary(depth: nat) returns (r: Result<Node, FormulaError>)
      requires Valid()
      modifies this
      ensures r.Ok? ==> Valid() && pos > old(pos)
      ensures Unary(tokens, old(pos), depth) == Outcome(r, pos)
      decreases |tokens| - pos, 2
    {
      if SymbolAt(tokens, pos, '-') {
        pos := pos + 1;
        r := ParseUnary(depth);
        if r.Ok? {
          r := Ok(Neg(r.value));
        }
      } else if SymbolAt(tokens, pos, '+') {
        pos := pos + 1;
        r := ParseUnary(depth);
      } else {
        r := ParsePrimary(depth);
      }
    }

    method ParsePrimary(depth: nat) returns (r: Result<Node, FormulaError>)
      requires Valid()
      modifies this
      ensures r.Ok? ==> Valid() && pos > old(pos)
      ensures Primary(tokens, old(pos), depth) == Outcome(r, pos)
      decreases |tokens| - pos, 1
    {
      if depth > MAX_DEPTH {
        return Err(NestedTooDeeply);
      }
      if pos == |tokens| {
        return Err(EndsUnexpectedly);
      }
      var t := tokens[pos];
      pos := pos + 1;
      match t
      case Number(text) => return Ok(Num(DecimalValue(text)));
      case Name(text) => return Ok(Ref(text));
      case Symbol(op) =>
        if op != '(' {
          return Err(UnexpectedToken(t));
        }
        r := ParseExpr(depth + 1);
        if r.Ok? {
          if !SymbolAt(tokens, pos, ')') {
            return Err(MissingClosingParenthesis);
          }
          pos := pos + 1;
        }
    }
  }

  method ParseFormula(formula: string) returns (r: Result<Node, FormulaError>)
    ensures r == Parse(formula)
  {
    if |formula| > MAX_LENGTH {
      return Err(TooLong);
    }
    var tokens := Tokenize(formula);
    if tokens.Err? {
      return Err(tokens.error);
    }
    if |tokens.value| == 0 {
      return Err(EmptyFormula);
    }
    var parser := new Parser(tokens.value);
    r := parser.ParseExpr(0);
    if r.Ok? && parser.pos < |tokens.value| {
      r := Err(UnexpectedToken(tokens.value[parser.pos]));
    }
  }
}
