/**
 * The grammar of salary formulas, given independently of the parser: phrases (concrete syntax
 * trees), what they spell and what they mean. The parser accepts exactly the spelled phrases, and
 * undoes a printer that writes as few parentheses as possible.
 */
module FormulaGrammar {
  import opened DecimalText
  import opened Wrappers
  import opened FormulaLexer
  import opened FormulaParser
  import opened Integers

  datatype Phrase =
    | Literal(text: string)
    | Variable(name: string)
    | Group(inner: Phrase)
    | Minus(operand: Phrase)
    | Plus(operand: Phrase)
    | Infix(op: BinaryOp, left: Phrase, right: Phrase)

  function Precedence(op: BinaryOp): nat {
    if op.Add? || op.Subtract? then 0 else 1
  }

  /** 0: a sum, 1: a product, 2: a signed phrase, 3: a literal, a name or a group. */
  function Level(c: Phrase): nat {
    match c
    case Infix(op, _, _) => Precedence(op)
    case Minus(_) => 2
    case Plus(_) => 2
    case _ => 3
  }

  /** `* /` bind tighter than `+ -`, both associate to the left, signs bind tightest. */
  predicate WellFormed(c: Phrase) {
    match c
    case Literal(_) => true
    case Variable(_) => true
    case Group(inner) => WellFormed(inner)
    case Minus(operand) => WellFormed(operand) && Level(operand) >= 2
    case Plus(operand) => WellFormed(operand) && Level(operand) >= 2
    case Infix(op, left, right) =>
      && WellFormed(left) && Level(left) >= Precedence(op)
      && WellFormed(right) && Level(right) > Precedence(op)
  }

  function OpSymbol(op: BinaryOp): Token {
    match op
    case Add => Symbol('+')
    case Subtract => Symbol('-')
    case Multiply => Symbol('*')
    case Divide => Symbol('/')
  }

  function Yield(c: Phrase): (tokens: seq<Token>)
    ensures tokens != []
  {
    match c
    case Literal(text) => [Number(text)]
    case Variable(name) => [Name(name)]
    case Group(inner) => [Symbol('(')] + Yield(inner) + [Symbol(')')]
    case Minus(operand) => [Symbol('-')] + Yield(operand)
    case Plus(operand) => [Symbol('+')] + Yield(operand)
    case Infix(op, left, right) => Yield(left) + [OpSymbol(op)] + Yield(right)
  }

  function Meaning(c: Phrase): Node {
    match c
    case Literal(text) => Num(DecimalValue(text))
    case Variable(name) => Ref(name)
    case Group(inner) => Meaning(inner)
    case Minus(operand) => Neg(Meaning(operand))
    case Plus(operand) => Meaning(operand)
    case Infix(op, left, right) => Bin(op, Meaning(left), Meaning(right))
  }

  /** How deep the parentheses go. */
  function Nesting(c: Phrase): nat {
    match c
    case Literal(_) => 0
    case Variable(_) => 0
    case Group(inner) => 1 + Nesting(inner)
    case Minus(operand) => Nesting(operand)
    case Plus(operand) => Nesting(operand)
    case Infix(_, left, right) => Max(Nesting(left), Nesting(right))
  }

  function End(c: Phrase, pos: nat): nat {
    pos + |Yield(c)|
  }

  ghost predicate Spells(tokens: seq<Token>, pos: nat, c: Phrase) {
    End(c, pos) <= |tokens| && tokens[pos..End(c, pos)] == Yield(c)
  }

  // ---- Every phrase is parsed to its meaning ----

  lemma SpellsParts(tokens: seq<Token>, pos: nat, a: seq<Token>, b: seq<Token>)
    requires pos + |a| + |b| <= |tokens| && tokens[pos..pos + |a| + |b|] == a + b
    ensures tokens[pos..pos + |a|] == a && tokens[pos + |a|..pos + |a| + |b|] == b
  {
    var whole := tokens[pos..pos + |a| + |b|];
    assert whole[..|a|] == tokens[pos..pos + |a|];
    assert whole[|a|..] == tokens[pos + |a|..pos + |a| + |b|];
  }

  lemma SpellsInfix(tokens: seq<Token>, pos: nat, c: Phrase)
    requires c.Infix? && Spells(tokens, pos, c)
    ensures var at := End(c.left, pos);
            && Spells(tokens, pos, c.left) && tokens[at] == OpSymbol(c.op)
            && Spells(tokens, at + 1, c.right) && End(c.right, at + 1) == End(c, pos)
  {
    var left, op := Yield(c.left), [OpSymbol(c.op)];
    SpellsParts(tokens, pos, left + op, Yield(c.right));
    SpellsParts(tokens, pos, left, op);
    var at := pos + |left|;
    assert tokens[at] == tokens[at..at + 1][0] == op[0];
  }

  lemma SpellsPrefixed(tokens: seq<Token>, pos: nat, first: Token, rest: seq<Token>)
    requires pos + 1 + |rest| <= |tokens| && tokens[pos..pos + 1 + |rest|] == [first] + rest
    ensures tokens[pos] == first && tokens[pos + 1..pos + 1 + |rest|] == rest
  {
    SpellsParts(tokens, pos, [first], rest);
    assert tokens[pos..pos + 1][0] == first;
  }

  lemma SpellsGroup(tokens: seq<Token>, pos: nat, c: Phrase)
    requires c.Group? && Spells(tokens, pos, c)
    ensures tokens[pos] == Symbol('(') && Spells(tokens, pos + 1, c.inner)
    ensures SymbolAt(tokens, End(c.inner, pos + 1), ')') && End(c, pos) == End(c.inner, pos + 1) + 1
  {
    var inner, close := Yield(c.inner), [Symbol(')')];
    SpellsParts(tokens, pos, [Symbol('(')] + inner, close);
    SpellsPrefixed(tokens, pos, Symbol('('), inner);
    var at := pos + 1 + |inner|;
    assert tokens[at] == tokens[at..at + 1][0] == close[0];
  }

  lemma {:induction false} UnaryReads(c: Phrase, tokens: seq<Token>, pos: nat, depth: nat)
    requires WellFormed(c) && Level(c) >= 2 && Spells(tokens, pos, c)
    requires depth + Nesting(c) <= MAX_DEPTH
    ensures Unary(tokens, pos, depth) == Ok(Parsed(Meaning(c), End(c, pos)))
    decreases c, 0
  {
    if c.Minus? || c.Plus? {
      SpellsPrefixed(tokens, pos, Symbol(if c.Minus? then '-' else '+'), Yield(c.operand));
      UnaryReads(c.operand, tokens, pos + 1, depth);
    } else if c.Group? {
      SpellsGroup(tokens, pos, c);
      ExprReads(c.inner, tokens, pos + 1, depth + 1);
    } else {
      assert tokens[pos] == tokens[pos..End(c, pos)][0];
    }
  }

  lemma {:induction false} TermReads(c: Phrase, tokens: seq<Token>, pos: nat, depth: nat)
    requires WellFormed(c) && Level(c) >= 1 && Spells(tokens, pos, c)
    requires depth + Nesting(c) <= MAX_DEPTH
    ensures Term(tokens, pos, depth) == TermTail(Meaning(c), tokens, End(c, pos), depth)
    decreases c, 1
  {
    if Level(c) >= 2 {
      UnaryReads(c, tokens, pos, depth);
    } else {
      SpellsInfix(tokens, pos, c);
      TermReads(c.left, tokens, pos, depth);
      UnaryReads(c.right, tokens, End(c.left, pos) + 1, depth);
    }
  }

  lemma {:induction false} ExprReads(c: Phrase, tokens: seq<Token>, pos: nat, depth: nat)
    requires WellFormed(c) && Spells(tokens, pos, c) && !ProductOpAt(tokens, End(c, pos))
    requires depth + Nesting(c) <= MAX_DEPTH
    ensures Expr(tokens, pos, depth) == ExprTail(Meaning(c), tokens, End(c, pos), depth)
    decreases c, 2
  {
    if Level(c) >= 1 {
      TermReads(c, tokens, pos, depth);
    } else {
      SpellsInfix(tokens, pos, c);
      ExprReads(c.left, tokens, pos, depth);
      TermReads(c.right, tokens, End(c.left, pos) + 1, depth);
    }
  }

  // ---- Everything parsed is a phrase ----

  /** `c` is a phrase of level `level` that spells `tokens[pos..next]` and means `node`. */
  ghost predicate Derives(c: Phrase, level: nat, tokens: seq<Token>, pos: nat, p: Parsed, depth: nat) {
    && WellFormed(c) && Level(c) >= level
    && pos <= p.next <= |tokens| && Yield(c) == tokens[pos..p.next]
    && Meaning(c) == p.node
    && depth + Nesting(c) <= MAX_DEPTH
  }

  lemma {:induction false} PrimaryDerives(tokens: seq<Token>, pos: nat, depth: nat) returns (c: Phrase)
    requires pos <= |tokens| && Primary(tokens, pos, depth).Ok?
    ensures Derives(c, 3, tokens, pos, Primary(tokens, pos, depth).value, depth)
    decreases |tokens| - pos, 1
  {
    match tokens[pos]
    case Number(text) => c := Literal(text);
    case Name(name) => c := Variable(name);
    case Symbol(_) =>
      var inner := ExprDerives(tokens, pos + 1, depth + 1);
      var next := Expr(tokens, pos + 1, depth + 1).value.next;
      assert tokens[pos..next + 1] == [tokens[pos]] + tokens[pos + 1..next] + [tokens[next]];
      c := Group(inner);
  }

  lemma {:induction false} UnaryDerives(tokens: seq<Token>, pos: nat, depth: nat) returns (c: Phrase)
    requires pos <= |tokens| && Unary(tokens, pos, depth).Ok?
    ensures Derives(c, 2, tokens, pos, Unary(tokens, pos, depth).value, depth)
    decreases |tokens| - pos, 2
  {
    if SymbolAt(tokens, pos, '-') || SymbolAt(tokens, pos, '+') {
      var operand := UnaryDerives(tokens, pos + 1, depth);
      var next := Unary(tokens, pos + 1, depth).value.next;
      assert tokens[pos..next] == [tokens[pos]] + tokens[pos + 1..next];
      c := if SymbolAt(tokens, pos, '-') then Minus(operand) else Plus(operand);
    } else {
      c := PrimaryDerives(tokens, pos, depth);
    }
  }

  lemma {:induction false} TermTailDerives(left: Phrase, tokens: seq<Token>, pos: nat, mid: nat, depth: nat)
    returns (c: Phrase)
    requires pos <= mid && Derives(left, 1, tokens, pos, Parsed(Meaning(left), mid), depth)
    requires TermTail(Meaning(left), tokens, mid, depth).Ok?
    ensures Derives(c, 1, tokens, pos, TermTail(Meaning(left), tokens, mid, depth).value, depth)
    decreases |tokens| - mid, 0
  {
    if !ProductOpAt(tokens, mid) {
      c := left;
    } else {
      var right := UnaryDerives(tokens, mid + 1, depth);
      var next := Unary(tokens, mid + 1, depth).value.next;
      assert tokens[pos..next] == tokens[pos..mid] + [tokens[mid]] + tokens[mid + 1..next];
      c := TermTailDerives(Infix(OpOf(tokens[mid]), left, right), tokens, pos, next, depth);
    }
  }

  lemma {:induction false} TermDerives(tokens: seq<Token>, pos: nat, depth: nat) returns (c: Phrase)
    requires pos <= |tokens| && Term(tokens, pos, depth).Ok?
    ensures Derives(c, 1, tokens, pos, Term(tokens, pos, depth).value, depth)
    decreases |tokens| - pos, 3
  {
    c := UnaryDerives(tokens, pos, depth);
    c := TermTailDerives(c, tokens, pos, Unary(tokens, pos, depth).value.next, depth);
  }

  lemma {:induction false} ExprTailDerives(left: Phrase, tokens: seq<Token>, pos: nat, mid: nat, depth: nat)
    returns (c: Phrase)
    requires pos <= mid && Derives(left, 0, tokens, pos, Parsed(Meaning(left), mid), depth)
    requires ExprTail(Meaning(left), tokens, mid, depth).Ok?
    ensures Derives(c, 0, tokens, pos, ExprTail(Meaning(left), tokens, mid, depth).value, depth)
    decreases |tokens| - mid, 0
  {
    if !SumOpAt(tokens, mid) {
      c := left;
    } else {
      var right := TermDerives(tokens, mid + 1, depth);
      var next := Term(tokens, mid + 1, depth).value.next;
      assert tokens[pos..next] == tokens[pos..mid] + [tokens[mid]] + tokens[mid + 1..next];
      c := ExprTailDerives(Infix(OpOf(tokens[mid]), left, right), tokens, pos, next, depth);
    }
  }

  lemma {:induction false} ExprDerives(tokens: seq<Token>, pos: nat, depth: nat) returns (c: Phrase)
    requires pos <= |tokens| && Expr(tokens, pos, depth).Ok?
    ensures Derives(c, 0, tokens, pos, Expr(tokens, pos, depth).value, depth)
    decreases |tokens| - pos, 4
  {
    c := TermDerives(tokens, pos, depth);
    c := ExprTailDerives(c, tokens, pos, Term(tokens, pos, depth).value.next, depth);
  }

  // ---- The parser accepts exactly the grammar ----

  /** `c` is a sentence of the language: well formed, not nested too deeply. */
  ghost predicate IsSentence(c: Phrase) {
    WellFormed(c) && Nesting(c) <= MAX_DEPTH
  }

  lemma ParseTokensExactlyGrammar(tokens: seq<Token>, node: Node)
    ensures ParseTokens(tokens) == Ok(node)
            <==> exists c :: IsSentence(c) && Yield(c) == tokens && Meaning(c) == node
  {
    if ParseTokens(tokens) == Ok(node) {
      var c := ExprDerives(tokens, 0, 0);
      assert tokens[0..|tokens|] == tokens;
      assert IsSentence(c) && Yield(c) == tokens && Meaning(c) == node;
    }
    forall c | IsSentence(c) && Yield(c) == tokens && Meaning(c) == node
      ensures ParseTokens(tokens) == Ok(node)
    {
      assert tokens[0..|tokens|] == tokens;
      ExprReads(c, tokens, 0, 0);
    }
  }

  /** `text` is a layout of the sentence `c`, short enough to be accepted. */
  ghost predicate IsTextOf(text: string, gaps: seq<string>, c: Phrase) {
    && |text| <= MAX_LENGTH && IsSentence(c)
    && IsLayout(gaps, Yield(c)) && text == Render(gaps, Yield(c))
  }

  /** The whole front end: text to tree, in both directions. */
  lemma ParseExactlyGrammar(text: string, node: Node)
    ensures Parse(text) == Ok(node) <==> exists gaps, c :: IsTextOf(text, gaps, c) && Meaning(c) == node
  {
    if Parse(text) == Ok(node) {
      var tokens := Lex(text).value;
      LexExactlyLayouts(text, tokens);
      var gaps :| IsLayout(gaps, tokens) && text == Render(gaps, tokens);
      ParseTokensExactlyGrammar(tokens, node);
      var c :| IsSentence(c) && Yield(c) == tokens && Meaning(c) == node;
      assert IsTextOf(text, gaps, c);
    }
    forall gaps, c | IsTextOf(text, gaps, c) && Meaning(c) == node
      ensures Parse(text) == Ok(node)
    {
      LexExactlyLayouts(text, Yield(c));
      ParseTokensExactlyGrammar(Yield(c), node);
    }
  }

  /** No text has two readings. */
  lemma Unambiguous(c: Phrase, d: Phrase)
    requires IsSentence(c) && IsSentence(d) && Yield(c) == Yield(d)
    ensures Meaning(c) == Meaning(d)
  {
    ParseTokensExactlyGrammar(Yield(c), Meaning(c));
    ParseTokensExactlyGrammar(Yield(c), Meaning(d));
  }

  // ---- Printing ----

  function NodeLevel(n: Node): nat {
    match n
    case Bin(op, _, _) => Precedence(op)
    case Neg(_) => 2
    case _ => 3
  }

  /** `n` as a phrase of at least level `level`; parentheses only where the level demands them. */
  function Print(n: Node, level: nat, spell: real -> string): Phrase
    decreases n, 1
  {
    if NodeLevel(n) >= level then Bare(n, spell) else Group(Bare(n, spell))
  }

  function Bare(n: Node, spell: real -> string): Phrase
    decreases n, 0
  {
    match n
    case Num(value) => Literal(spell(value))
    case Ref(name) => Variable(name)
    case Neg(operand) => Minus(Print(operand, 2, spell))
    case Bin(op, left, right) =>
      Infix(op, Print(left, Precedence(op), spell), Print(right, Precedence(op) + 1, spell))
  }

  /** `spell` writes every constant of `n` correctly. */
  ghost predicate SpellsConstants(n: Node, spell: real -> string) {
    match n
    case Num(value) => DecimalValue(spell(value)) == value
    case Ref(_) => true
    case Neg(operand) => SpellsConstants(operand, spell)
    case Bin(_, left, right) => SpellsConstants(left, spell) && SpellsConstants(right, spell)
  }

  lemma {:induction false} PrintMeans(n: Node, level: nat, spell: real -> string)
    requires level <= 3 && SpellsConstants(n, spell)
    ensures var c := Print(n, level, spell); WellFormed(c) && Level(c) >= level && Meaning(c) == n
  {
    match n
    case Num(_) =>
    case Ref(_) =>
    case Neg(operand) => PrintMeans(operand, 2, spell);
    case Bin(op, left, right) =>
      PrintMeans(left, Precedence(op), spell);
      PrintMeans(right, Precedence(op) + 1, spell);
  }

  /** No phrase with the same meaning has fewer tokens or shallower parentheses. */
  lemma {:induction false} PrintIsMinimal(c: Phrase, level: nat, spell: real -> string)
    requires level <= 3 && WellFormed(c) && Level(c) >= level
    ensures var p := Print(Meaning(c), level, spell);
            |Yield(p)| <= |Yield(c)| && Nesting(p) <= Nesting(c)
    decreases c
  {
    match c
    case Literal(_) =>
    case Variable(_) =>
    case Group(inner) => PrintIsMinimal(inner, 0, spell);
    case Plus(operand) => PrintIsMinimal(operand, level, spell);
    case Minus(operand) => PrintIsMinimal(operand, 2, spell);
    case Infix(op, left, right) =>
      PrintIsMinimal(left, Precedence(op), spell);
      PrintIsMinimal(right, Precedence(op) + 1, spell);
  }

  /** Parsing undoes printing, whatever white space the printed text is laid out with. */
  lemma ParseUndoesPrint(n: Node, spell: real -> string, gaps: seq<string>, text: string)
    requires SpellsConstants(n, spell)
    requires IsLayout(gaps, Yield(Print(n, 0, spell))) && text == Render(gaps, Yield(Print(n, 0, spell)))
    requires |text| <= MAX_LENGTH && Nesting(Print(n, 0, spell)) <= MAX_DEPTH
    ensures Parse(text) == Ok(n)
  {
    PrintMeans(n, 0, spell);
    assert IsTextOf(text, gaps, Print(n, 0, spell));
    ParseExactlyGrammar(text, n);
  }

  /** Reprinting an accepted formula is always accepted again, reads the same and is no longer. */
  lemma ReprintIsAccepted(tokens: seq<Token>, spell: real -> string)
    requires ParseTokens(tokens).Ok? && SpellsConstants(ParseTokens(tokens).value, spell)
    ensures var printed := Yield(Print(ParseTokens(tokens).value, 0, spell));
            ParseTokens(printed) == ParseTokens(tokens) && |printed| <= |tokens|
  {
    var n := ParseTokens(tokens).value;
    ParseTokensExactlyGrammar(tokens, n);
    var c :| IsSentence(c) && Yield(c) == tokens && Meaning(c) == n;
    PrintIsMinimal(c, 0, spell);
    PrintMeans(n, 0, spell);
    ParseTokensExactlyGrammar(Yield(Print(n, 0, spell)), n);
  }

  // ---- Every decimal constant has a spelling ----

  /** `numerator / 10^places` as a number token. */
  function Spelling(numerator: nat, places: nat): string {
    var s := Digits(numerator, places + 1);
    if places == 0 then s else s[..|s| - places] + "." + s[|s| - places..]
  }

  lemma DecimalValueOfParts(text: string, whole: string, fraction: string)
    requires NumberParts(text, whole, fraction)
    ensures DecimalValue(text) == DigitsValue(whole + fraction) as real / Pow10(|fraction|) as real
  {
    if fraction == "" {
      RunEndIs(text, 0, |text|, IsDigit);
      assert whole + fraction == text;
    } else {
      assert text[|whole|] == '.' && text[..|whole|] == whole && text[|whole| + 1..] == fraction;
      assert forall k :: 0 <= k < |whole| ==> text[k] == whole[k];
      RunEndIs(text, 0, |whole|, IsDigit);
    }
  }

  lemma SpellingParts(numerator: nat, places: nat) returns (whole: string, fraction: string)
    ensures NumberParts(Spelling(numerator, places), whole, fraction)
    ensures |fraction| == places && DigitsValue(whole + fraction) == numerator
  {
    var s := Digits(numerator, places + 1);
    whole, fraction := s[..|s| - places], s[|s| - places..];
    assert whole + fraction == s;
    assert places == 0 ==> whole == s;
    assert forall k :: 0 <= k < places ==> fraction[k] == s[|s| - places + k];
  }

  lemma SpellingIsExact(numerator: nat, places: nat)
    ensures IsNumberText(Spelling(numerator, places))
    ensures DecimalValue(Spelling(numerator, places)) == numerator as real / Pow10(places) as real
  {
    var whole, fraction := SpellingParts(numerator, places);
    DecimalValueOfParts(Spelling(numerator, places), whole, fraction);
  }

  // ---- Every tree has a text ----

  ghost predicate IsDecimal(value: real, numerator: nat, places: nat) {
    value == numerator as real / Pow10(places) as real
  }

  /** Constants are non-negative finite decimals, and names are names. */
  ghost predicate Writable(n: Node) {
    match n
    case Num(value) => exists numerator: nat, places: nat :: IsDecimal(value, numerator, places)
    case Ref(name) => IsToken(Name(name))
    case Neg(operand) => Writable(operand)
    case Bin(_, left, right) => Writable(left) && Writable(right)
  }

  /** A number token for each finite decimal. */
  ghost function Decimal(value: real): string {
    if numerator: nat, places: nat :| IsDecimal(value, numerator, places) then Spelling(numerator, places) else "0"
  }

  lemma DecimalIsExact(value: real)
    requires exists numerator: nat, places: nat :: IsDecimal(value, numerator, places)
    ensures IsNumberText(Decimal(value)) && DecimalValue(Decimal(value)) == value
  {
    var numerator: nat, places: nat :|
      IsDecimal(value, numerator, places) && Decimal(value) == Spelling(numerator, places);
    SpellingIsExact(numerator, places);
  }

  lemma {:induction false} WritableIsSpelled(n: Node)
    requires Writable(n)
    ensures SpellsConstants(n, Decimal)
  {
    match n
    case Num(value) => DecimalIsExact(value);
    case Ref(_) =>
    case Neg(operand) => WritableIsSpelled(operand);
    case Bin(_, left, right) =>
      WritableIsSpelled(left);
      WritableIsSpelled(right);
  }

  /** Every token can be written, and no two neighbours would be read as one. */
  ghost predicate Unspaced(tokens: seq<Token>) {
    && AllTokens(tokens)
    && forall i :: 0 <= i < |tokens| - 1 ==> tokens[i].Symbol? || tokens[i + 1].Symbol?
  }

  lemma UnspacedAround(left: seq<Token>, symbol: Token, right: seq<Token>)
    requires Unspaced(left) && Unspaced(right) && symbol.Symbol? && IsToken(symbol)
    ensures Unspaced(left + [symbol] + right)
  {
    var all := left + [symbol] + right;
    forall i | 0 <= i < |all|
      ensures IsToken(all[i])
    {
      assert all[i] == if i < |left| then left[i] else if i == |left| then symbol else right[i - |left| - 1];
    }
    forall i | 0 <= i < |all| - 1
      ensures all[i].Symbol? || all[i + 1].Symbol?
    {
      if i > |left| {
        assert all[i] == right[i - |left| - 1] && all[i + 1] == right[i - |left|];
      } else if i + 1 < |left| {
        assert all[i] == left[i] && all[i + 1] == left[i + 1];
      }
    }
  }

  lemma {:induction false} PrintIsUnspaced(n: Node, level: nat)
    requires level <= 3 && Writable(n)
    ensures Unspaced(Yield(Print(n, level, Decimal))) && Unspaced(Yield(Bare(n, Decimal)))
  {
    match n {
      case Num(value) =>
        DecimalIsExact(value);
      case Ref(_) =>
      case Neg(operand) =>
        PrintIsUnspaced(operand, 2);
        var rest := Yield(Print(operand, 2, Decimal));
        UnspacedAround([], Symbol('-'), rest);
        assert [] + [Symbol('-')] + rest == [Symbol('-')] + rest;
      case Bin(op, left, right) =>
        PrintIsUnspaced(left, Precedence(op));
        PrintIsUnspaced(right, Precedence(op) + 1);
        UnspacedAround(Yield(Print(left, Precedence(op), Decimal)), OpSymbol(op),
          Yield(Print(right, Precedence(op) + 1, Decimal)));
    }
    GroupIsUnspaced(Yield(Bare(n, Decimal)));
  }

  lemma GroupIsUnspaced(tokens: seq<Token>)
    requires Unspaced(tokens)
    ensures Unspaced([Symbol('(')] + tokens + [Symbol(')')])
  {
    UnspacedAround([], Symbol('('), tokens);
    assert [] + [Symbol('(')] + tokens == [Symbol('(')] + tokens;
    UnspacedAround([Symbol('(')] + tokens, Symbol(')'), []);
    assert [Symbol('(')] + tokens + [Symbol(')')] + [] == [Symbol('(')] + tokens + [Symbol(')')];
  }

  /** The tokens one after the other, without white space. */
  function Compact(tokens: seq<Token>): string {
    Render(seq(|tokens| + 1, i => ""), tokens)
  }

  ghost function PrintedText(n: Node): string {
    Compact(Yield(Print(n, 0, Decimal)))
  }

  /**
   * Every tree of finite decimals and names is the parse of a text, its printed one, if that keeps to the two limits.
   */
  lemma EveryTreeHasText(n: Node)
    requires Writable(n) && Nesting(Print(n, 0, Decimal)) <= MAX_DEPTH && |PrintedText(n)| <= MAX_LENGTH
    ensures Parse(PrintedText(n)) == Ok(n)
  {
    WritableIsSpelled(n);
    PrintIsUnspaced(n, 0);
    var tokens := Yield(Print(n, 0, Decimal));
    ParseUndoesPrint(n, Decimal, seq(|tokens| + 1, i => ""), PrintedText(n));
  }

  ghost predicate AllTokens(tokens: seq<Token>) {
    forall i :: 0 <= i < |tokens| ==> IsToken(tokens[i])
  }

  lemma TokensOfParts(a: seq<Token>, b: seq<Token>)
    requires AllTokens(a + b)
    ensures AllTokens(a) && AllTokens(b)
  {
    assert forall i :: 0 <= i < |a| ==> a[i] == (a + b)[i];
    assert forall i :: 0 <= i < |b| ==> b[i] == (a + b)[i + |a|];
  }

  lemma NumberIsWritable(text: string)
    requires IsNumberText(text)
    ensures Writable(Num(DecimalValue(text)))
  {
    var whole, fraction :| NumberParts(text, whole, fraction);
    DecimalValueOfParts(text, whole, fraction);
    DigitsNonNegative(whole + fraction);
    assert IsDecimal(DecimalValue(text), DigitsValue(whole + fraction), |fraction|);
  }

  lemma {:induction false} MeaningIsWritable(c: Phrase)
    requires AllTokens(Yield(c))
    ensures Writable(Meaning(c))
  {
    hide AllTokens;
    match c
    case Literal(text) =>
      OneToken(Number(text));
      NumberIsWritable(text);
    case Variable(name) =>
      OneToken(Name(name));
    case Group(inner) =>
      TokensOfParts([Symbol('(')] + Yield(inner), [Symbol(')')]);
      TokensOfParts([Symbol('(')], Yield(inner));
      MeaningIsWritable(inner);
    case Minus(operand) =>
      TokensOfParts([Symbol('-')], Yield(operand));
      MeaningIsWritable(operand);
    case Plus(operand) =>
      TokensOfParts([Symbol('+')], Yield(operand));
      MeaningIsWritable(operand);
    case Infix(op, left, right) =>
      TokensOfParts(Yield(left) + [OpSymbol(op)], Yield(right));
      TokensOfParts(Yield(left), [OpSymbol(op)]);
      MeaningIsWritable(left);
      MeaningIsWritable(right);
  }

  lemma OneToken(t: Token)
    requires AllTokens([t])
    ensures IsToken(t)
  {
    assert IsToken([t][0]);
  }

  lemma {:induction false} DigitsNonNegative(digits: string)
    requires All(digits, IsDigit)
    ensures DigitsValue(digits) >= 0
  {
    if digits != "" {
      DigitsNonNegative(digits[..|digits| - 1]);
    }
  }

  /** And no other tree is the parse of any text: it must be writable, and print within the nesting limit. */
  lemma ParsedTreeIsWritable(text: string, n: Node)
    requires Parse(text) == Ok(n)
    ensures Writable(n) && Nesting(Print(n, 0, Decimal)) <= MAX_DEPTH
  {
    ParseExactlyGrammar(text, n);
    var gaps, c :| IsTextOf(text, gaps, c) && Meaning(c) == n;
    MeaningIsWritable(c);
    PrintIsMinimal(c, 0, Decimal);
  }
}
