/**
 * The tokenizer of the salary-formula language: a character loop with maximal munch, and the
 * exact set of texts it reads as a given token list.
 */
module FormulaLexer {
  import opened DecimalText
  import opened Sequences
  import opened Wrappers

  datatype Token =
    | Number(text: string)
    | Name(text: string)
    | Symbol(op: char)

  /** One constructor per exception the source throws; positions are 1-based, as in its messages. */
  datatype FormulaError =
    | TooLong
    | EmptyFormula
    | InvalidNumber(position: nat)
    | UnexpectedCharacter(ch: char, position: nat)
    | NestedTooDeeply
    | EndsUnexpectedly
    | MissingClosingParenthesis
    | UnexpectedToken(token: Token)
    | UnknownReference(name: string)
    | DivisionByZero

  predicate IsBlank(c: char) {
    c == ' ' || c == '\t'
  }

  predicate IsUpper(c: char) {
    'A' <= c <= 'Z'
  }

  predicate IsNameChar(c: char) {
    IsUpper(c) || IsDigit(c) || c == '_'
  }

  predicate IsSymbol(c: char) {
    c == '+' || c == '-' || c == '*' || c == '/' || c == '(' || c == ')'
  }

  /** End of the longest run of `p` characters starting at `i`. */
  function RunEnd(input: string, i: nat, p: char -> bool): (end: nat)
    requires i <= |input|
    ensures i <= end <= |input|
    ensures forall k :: i <= k < end ==> p(input[k])
    ensures end < |input| ==> !p(input[end])
    decreases |input| - i
  {
    if i < |input| && p(input[i]) then RunEnd(input, i + 1, p) else i
  }

  /** End of the match of `\d+(\.\d+)?` at `i`, or `i` itself when it does not match. */
  function NumberEnd(input: string, i: nat): (end: nat)
    requires i <= |input|
    ensures i <= end <= |input|
    ensures i < |input| && IsDigit(input[i]) ==> i < end
  {
    var whole := RunEnd(input, i, IsDigit);
    if whole == i then i
    else if whole + 1 < |input| && input[whole] == '.' && IsDigit(input[whole + 1]) then
      RunEnd(input, whole + 1, IsDigit)
    else whole
  }

  function Prepend(tokens: seq<Token>, rest: Result<seq<Token>, FormulaError>): Result<seq<Token>, FormulaError> {
    if rest.Ok? then Ok(tokens + rest.value) else rest
  }

  /** The tokens of `input` from position `i` on. */
  function LexFrom(input: string, i: nat): Result<seq<Token>, FormulaError>
    requires i <= |input|
    decreases |input| - i
  {
    if i == |input| then Ok([])
    else if IsBlank(input[i]) then LexFrom(input, i + 1)
    else if IsDigit(input[i]) || input[i] == '.' then
      var end := NumberEnd(input, i);
      if end == i then Err(InvalidNumber(i + 1))
      else Prepend([Number(input[i..end])], LexFrom(input, end))
    else if IsUpper(input[i]) then
      var end := RunEnd(input, i + 1, IsNameChar);
      Prepend([Name(input[i..end])], LexFrom(input, end))
    else if IsSymbol(input[i]) then Prepend([Symbol(input[i])], LexFrom(input, i + 1))
    else Err(UnexpectedCharacter(input[i], i + 1))
  }

  function Lex(input: string): Result<seq<Token>, FormulaError> {
    LexFrom(input, 0)
  }

  lemma PrependNothing(rest: Result<seq<Token>, FormulaError>)
    ensures Prepend([], rest) == rest
  {
    if rest.Ok? {
      assert [] + rest.value == rest.value;
    }
  }

  lemma PrependAssociates(a: seq<Token>, b: seq<Token>, rest: Result<seq<Token>, FormulaError>)
    ensures Prepend(a, Prepend(b, rest)) == Prepend(a + b, rest)
  {
    if rest.Ok? {
      assert a + (b + rest.value) == (a + b) + rest.value;
    }
  }

  method Tokenize(input: string) returns (r: Result<seq<Token>, FormulaError>)
    ensures r == Lex(input)
  {
    var tokens := [];
    var i := 0;
    PrependNothing(Lex(input));
    while i < |input|
      invariant i <= |input|
      invariant Lex(input) == Prepend(tokens, LexFrom(input, i))
    {
      var ch := input[i];
      if IsBlank(ch) {
        i := i + 1;
      } else if IsDigit(ch) || ch == '.' {
        var end := NumberEnd(input, i);
        if end == i {
          return Err(InvalidNumber(i + 1));
        }
        PrependAssociates(tokens, [Number(input[i..end])], LexFrom(input, end));
        tokens := tokens + [Number(input[i..end])];
        i := end;
      } else if IsUpper(ch) {
        var end := RunEnd(input, i + 1, IsNameChar);
        PrependAssociates(tokens, [Name(input[i..end])], LexFrom(input, end));
        tokens := tokens + [Name(input[i..end])];
        i := end;
      } else if IsSymbol(ch) {
        PrependAssociates(tokens, [Symbol(ch)], LexFrom(input, i + 1));
        tokens := tokens + [Symbol(ch)];
        i := i + 1;
      } else {
        return Err(UnexpectedCharacter(ch, i + 1));
      }
    }
    assert tokens + [] == tokens;
    return Ok(tokens);
  }

  // ---- Which texts spell a token list ----

  /** Digits, optionally a point and more digits. */
  ghost predicate IsNumberText(text: string) {
    exists whole: string, fraction: string ::
      NumberParts(text, whole, fraction)
  }

  ghost predicate NumberParts(text: string, whole: string, fraction: string) {
    && whole != "" && All(whole, IsDigit) && All(fraction, IsDigit)
    && text == if fraction == "" then whole else whole + "." + fraction
  }

  ghost predicate IsToken(t: Token) {
    match t
    case Number(text) => IsNumberText(text)
    case Name(text) => text != "" && IsUpper(text[0]) && All(text, IsNameChar)
    case Symbol(op) => IsSymbol(op)
  }

  function Text(t: Token): string {
    match t
    case Number(text) => text
    case Name(text) => text
    case Symbol(op) => [op]
  }

  /** Two neighbours that would be read as one token if nothing stood between them. */
  predicate Merge(t: Token, u: Token) {
    (t.Name? && !u.Symbol?) || (t.Number? && u.Number?)
  }

  /** `gaps[i]` is the white space before token `i`; the last gap ends the text. */
  ghost predicate IsLayout(gaps: seq<string>, tokens: seq<Token>) {
    && |gaps| == |tokens| + 1
    && (forall i :: 0 <= i < |gaps| ==> All(gaps[i], IsBlank))
    && (forall i :: 0 <= i < |tokens| ==> IsToken(tokens[i]))
    && (forall i :: 0 <= i < |tokens| - 1 && Merge(tokens[i], tokens[i + 1]) ==> gaps[i + 1] != "")
  }

  function Render(gaps: seq<string>, tokens: seq<Token>): string
    requires |gaps| == |tokens| + 1
  {
    if tokens == [] then gaps[0]
    else gaps[0] + (Text(tokens[0]) + Render(gaps[1..], tokens[1..]))
  }

  lemma {:induction false} RunEndIs(input: string, i: nat, end: nat, p: char -> bool)
    requires i <= end <= |input|
    requires forall k :: i <= k < end ==> p(input[k])
    requires end < |input| ==> !p(input[end])
    ensures RunEnd(input, i, p) == end
    decreases end - i
  {
    if i < end {
      RunEndIs(input, i + 1, end, p);
    }
  }

  lemma {:induction false} LexSkipsBlanks(input: string, i: nat, j: nat)
    requires i <= j <= |input|
    requires forall k :: i <= k < j ==> IsBlank(input[k])
    ensures LexFrom(input, i) == LexFrom(input, j)
    decreases j - i
  {
    if i < j {
      LexSkipsBlanks(input, i + 1, j);
    }
  }

  /** What may follow token `t` in the text without being absorbed into it. */
  predicate Stops(t: Token, c: char) {
    match t
    case Number(_) => !IsDigit(c) && c != '.'
    case Name(_) => !IsNameChar(c)
    case Symbol(_) => true
  }

  lemma {:induction false} FirstOfRender(gaps: seq<string>, tokens: seq<Token>, before: Token)
    requires IsLayout(gaps, tokens)
    requires tokens != [] && Merge(before, tokens[0]) ==> gaps[0] != ""
    ensures var s := Render(gaps, tokens); s == "" || Stops(before, s[0])
  {
    var s := Render(gaps, tokens);
    if gaps[0] != "" {
      assert s[0] == gaps[0][0];
    } else if tokens != [] {
      assert IsToken(tokens[0]);
      TokenStart(tokens[0]);
      assert s[0] == Text(tokens[0])[0];
    }
  }

  lemma TokenStart(t: Token)
    requires IsToken(t)
    ensures Text(t) != ""
    ensures match t
            case Number(_) => IsDigit(Text(t)[0])
            case Name(_) => IsUpper(Text(t)[0])
            case Symbol(_) => IsSymbol(Text(t)[0])
  {
    if t.Number? {
      var whole, fraction :| NumberParts(t.text, whole, fraction);
      assert t.text[0] == whole[0];
    }
  }

  predicate At(input: string, i: nat, text: string) {
    i + |text| <= |input| && forall k :: 0 <= k < |text| ==> input[i + k] == text[k]
  }

  lemma NumberEndIs(input: string, i: nat, whole: string, fraction: string)
    requires All(whole, IsDigit) && whole != "" && All(fraction, IsDigit)
    requires At(input, i, whole)
    requires fraction != "" ==> At(input, i + |whole|, ".") && At(input, i + |whole| + 1, fraction)
    requires var end := i + |whole| + (if fraction == "" then 0 else 1 + |fraction|);
             end == |input| || (!IsDigit(input[end]) && input[end] != '.')
    ensures NumberEnd(input, i) == i + |whole| + (if fraction == "" then 0 else 1 + |fraction|)
  {
    var w := i + |whole|;
    assert forall k :: i <= k < w ==> input[k] == whole[k - i];
    if fraction == "" {
      RunEndIs(input, i, w, IsDigit);
    } else {
      var end := w + 1 + |fraction|;
      assert input[w] == "."[0];
      assert forall k :: w + 1 <= k < end ==> input[k] == fraction[k - w - 1];
      RunEndIs(input, i, w, IsDigit);
      RunEndIs(input, w + 1, end, IsDigit);
    }
  }

  /** Maximal munch stops exactly at the end of a well-formed token. */
  lemma LexOneToken(input: string, i: nat, t: Token)
    requires IsToken(t) && At(input, i, Text(t))
    requires i + |Text(t)| == |input| || Stops(t, input[i + |Text(t)|])
    ensures LexFrom(input, i) == Prepend([t], LexFrom(input, i + |Text(t)|))
  {
    TokenStart(t);
    var text := Text(t);
    var end := i + |text|;
    assert input[i] == text[0];
    assert input[i..end] == text;
    match t
    case Symbol(_) =>
    case Name(_) =>
      assert forall k :: i <= k < end ==> input[k] == text[k - i];
      RunEndIs(input, i + 1, end, IsNameChar);
    case Number(_) =>
      NumberTokenEnd(input, i, text);
  }

  lemma NumberTokenEnd(input: string, i: nat, text: string)
    requires IsNumberText(text) && At(input, i, text)
    requires i + |text| == |input| || (!IsDigit(input[i + |text|]) && input[i + |text|] != '.')
    ensures NumberEnd(input, i) == i + |text|
  {
    hide NumberEnd;
    var whole, fraction :| NumberParts(text, whole, fraction);
    var w := |whole|;
    assert text[0..w] == whole;
    AtPart(input, i, text, 0, whole);
    if fraction != "" {
      assert text[w..w + 1] == "." && text[w + 1..w + 1 + |fraction|] == fraction;
      AtPart(input, i, text, w, ".");
      AtPart(input, i, text, w + 1, fraction);
    }
    hide At;
    NumberEndIs(input, i, whole, fraction);
  }

  /** A part of a text that stands somewhere stands that much further on. */
  lemma AtPart(input: string, i: nat, text: string, from: nat, part: string)
    requires At(input, i, text) && from + |part| <= |text| && text[from..from + |part|] == part
    ensures At(input, i + from, part)
  {
    forall k | 0 <= k < |part|
      ensures input[i + from + k] == part[k]
    {
      assert input[i + (from + k)] == text[from + k] == text[from..from + |part|][k];
    }
  }

  lemma LayoutTail(gaps: seq<string>, tokens: seq<Token>)
    requires IsLayout(gaps, tokens) && tokens != []
    ensures IsToken(tokens[0]) && IsLayout(gaps[1..], tokens[1..])
    ensures var s := Render(gaps[1..], tokens[1..]); s == "" || Stops(tokens[0], s[0])
  {
    var gs, ts := gaps[1..], tokens[1..];
    forall i | 0 <= i < |ts| - 1 && Merge(ts[i], ts[i + 1])
      ensures gs[i + 1] != ""
    {
      assert ts[i] == tokens[i + 1] && ts[i + 1] == tokens[i + 2] && gs[i + 1] == gaps[i + 2];
    }
    FirstOfRender(gs, ts, tokens[0]);
  }

  lemma WidenFirstGap(c: char, gaps: seq<string>, tokens: seq<Token>)
    requires IsBlank(c) && IsLayout(gaps, tokens)
    ensures var wider := gaps[0 := [c] + gaps[0]];
            && IsLayout(wider, tokens) && Render(wider, tokens) == [c] + Render(gaps, tokens)
  {
    var wider := gaps[0 := [c] + gaps[0]];
    assert wider[1..] == gaps[1..];
    if tokens != [] {
      assert [c] + (gaps[0] + (Text(tokens[0]) + Render(gaps[1..], tokens[1..]))) == Render(wider, tokens);
    }
  }

  lemma SplitSuffix(input: string, i: nat, a: string, b: string)
    requires i <= |input| && input[i..] == a + b
    ensures At(input, i, a) && i + |a| <= |input| && input[i + |a|..] == b
  {
    assert forall k :: 0 <= k < |a| ==> input[i + k] == input[i..][k] == a[k];
    assert input[i + |a|..] == input[i..][|a|..] == b;
  }

  lemma LexSkipsGap(input: string, i: nat, gap: string)
    requires All(gap, IsBlank) && At(input, i, gap)
    ensures LexFrom(input, i) == LexFrom(input, i + |gap|)
  {
    assert forall k :: i <= k < i + |gap| ==> input[k] == gap[k - i];
    LexSkipsBlanks(input, i, i + |gap|);
  }

  /** White space, then one token, read off the text. */
  lemma LexGapAndToken(input: string, i: nat, gap: string, t: Token, rest: string)
    requires All(gap, IsBlank) && IsToken(t) && (rest == "" || Stops(t, rest[0]))
    requires i <= |input| && input[i..] == gap + (Text(t) + rest)
    ensures var end := i + |gap| + |Text(t)|;
            && end <= |input| && input[end..] == rest
            && LexFrom(input, i) == Prepend([t], LexFrom(input, end))
  {
    var start := i + |gap|;
    SplitSuffix(input, i, gap, Text(t) + rest);
    SplitSuffix(input, start, Text(t), rest);
    LexSkipsGap(input, i, gap);
    assert start + |Text(t)| < |input| ==> input[start + |Text(t)|] == input[start + |Text(t)|..][0];
    LexOneToken(input, start, t);
  }

  lemma {:induction false} LexRenderAt(input: string, i: nat, gaps: seq<string>, tokens: seq<Token>)
    requires IsLayout(gaps, tokens)
    requires i <= |input| && input[i..] == Render(gaps, tokens)
    ensures LexFrom(input, i) == Ok(tokens)
    decreases |tokens|
  {
    if tokens == [] {
      LexSkipsGap(input, i, input[i..]);
    } else {
      LayoutTail(gaps, tokens);
      LexGapAndToken(input, i, gaps[0], tokens[0], Render(gaps[1..], tokens[1..]));
      LexRenderAt(input, i + |gaps[0]| + |Text(tokens[0])|, gaps[1..], tokens[1..]);
      HeadAndTail(tokens);
    }
  }

  lemma {:induction false} NumberEndReads(input: string, i: nat)
    requires i < |input|
    requires NumberEnd(input, i) != i
    ensures IsNumberText(input[i..NumberEnd(input, i)])
    ensures NumberEnd(input, i) < |input| ==> !IsDigit(input[NumberEnd(input, i)])
  {
    var whole := RunEnd(input, i, IsDigit);
    var end := NumberEnd(input, i);
    if end == whole {
      assert NumberParts(input[i..end], input[i..end], "");
    } else {
      assert input[i..end] == input[i..whole] + "." + input[whole + 1..end];
      assert NumberParts(input[i..end], input[i..whole], input[whole + 1..end]);
    }
  }

  lemma {:induction false} PrependToken(gap: string, t: Token, gaps: seq<string>, tokens: seq<Token>)
    requires All(gap, IsBlank) && IsToken(t) && IsLayout(gaps, tokens)
    requires tokens != [] && Merge(t, tokens[0]) ==> gaps[0] != ""
    ensures IsLayout([gap] + gaps, [t] + tokens)
    ensures Render([gap] + gaps, [t] + tokens) == gap + (Text(t) + Render(gaps, tokens))
  {
    var gs, ts := [gap] + gaps, [t] + tokens;
    assert gs[1..] == gaps && ts[1..] == tokens;
    forall i | 0 <= i < |ts| - 1 && Merge(ts[i], ts[i + 1])
      ensures gs[i + 1] != ""
    {
      if i > 0 {
        assert ts[i] == tokens[i - 1] && ts[i + 1] == tokens[i];
        assert gs[i + 1] == gaps[i];
      }
    }
  }

  lemma RenderStart(gaps: seq<string>, tokens: seq<Token>)
    requires IsLayout(gaps, tokens) && tokens != [] && gaps[0] == ""
    ensures Render(gaps, tokens) != ""
    ensures match tokens[0]
            case Number(_) => IsDigit(Render(gaps, tokens)[0])
            case Name(_) => IsUpper(Render(gaps, tokens)[0])
            case Symbol(_) => true
  {
    assert IsToken(tokens[0]);
    TokenStart(tokens[0]);
    assert Render(gaps, tokens)[0] == Text(tokens[0])[0];
  }

  /** Where the token starting at `i` ends. */
  function TokenEnd(input: string, i: nat): (end: nat)
    requires i < |input|
    ensures end <= |input|
  {
    if IsSymbol(input[i]) then i + 1
    else if IsUpper(input[i]) then RunEnd(input, i + 1, IsNameChar)
    else NumberEnd(input, i)
  }

  lemma LexedToken(input: string, i: nat)
    requires i < |input| && !IsBlank(input[i]) && LexFrom(input, i).Ok?
    ensures var end, tokens := TokenEnd(input, i), LexFrom(input, i).value;
            && i < end && tokens != [] && LexFrom(input, end) == Ok(tokens[1..])
            && IsToken(tokens[0]) && Text(tokens[0]) == input[i..end]
            && (end < |input| ==> !tokens[0].Symbol? ==> !IsDigit(input[end]))
            && (end < |input| ==> tokens[0].Name? ==> !IsUpper(input[end]))
  {
    if !IsSymbol(input[i]) && !IsUpper(input[i]) {
      NumberEndReads(input, i);
    }
  }

  /** Every text the tokenizer accepts is a layout of the tokens it returns. */
  lemma {:induction false} LayoutOfLexed(input: string, i: nat) returns (gaps: seq<string>)
    requires i <= |input| && LexFrom(input, i).Ok?
    ensures var tokens := LexFrom(input, i).value;
            && IsLayout(gaps, tokens) && Render(gaps, tokens) == input[i..]
    decreases |input| - i
  {
    var tokens := LexFrom(input, i).value;
    if i == |input| {
      gaps := [""];
    } else if IsBlank(input[i]) {
      var tail := LayoutOfLexed(input, i + 1);
      WidenFirstGap(input[i], tail, tokens);
      gaps := tail[0 := [input[i]] + tail[0]];
      assert input[i..] == [input[i]] + input[i + 1..];
    } else {
      LexedToken(input, i);
      var tail := LayoutOfLexed(input, TokenEnd(input, i));
      gaps := [""] + tail;
      LayoutOfToken(input, i, TokenEnd(input, i), tokens, tail);
    }
  }

  lemma LayoutOfToken(input: string, i: nat, end: nat, tokens: seq<Token>, tail: seq<string>)
    requires i < end <= |input| && tokens != [] && IsToken(tokens[0]) && Text(tokens[0]) == input[i..end]
    requires end < |input| && !tokens[0].Symbol? ==> !IsDigit(input[end])
    requires end < |input| && tokens[0].Name? ==> !IsUpper(input[end])
    requires IsLayout(tail, tokens[1..]) && Render(tail, tokens[1..]) == input[end..]
    ensures IsLayout([""] + tail, tokens) && Render([""] + tail, tokens) == input[i..]
  {
    var t, rest := tokens[0], tokens[1..];
    if rest != [] && tail[0] == "" {
      RenderStart(tail, rest);
      assert input[end..][0] == input[end];
    }
    PrependToken("", t, tail, rest);
    assert tokens == [t] + rest;
    assert input[i..] == input[i..end] + input[end..];
  }

  /** The tokenizer reads `input` as `tokens` exactly when `input` is one of their layouts. */
  lemma LexExactlyLayouts(input: string, tokens: seq<Token>)
    ensures Lex(input) == Ok(tokens) <==> exists gaps :: IsLayout(gaps, tokens) && input == Render(gaps, tokens)
  {
    if Lex(input) == Ok(tokens) {
      var gaps := LayoutOfLexed(input, 0);
      assert input[0..] == input;
    }
    forall gaps | IsLayout(gaps, tokens) && input == Render(gaps, tokens)
      ensures Lex(input) == Ok(tokens)
    {
      assert input[0..] == input;
      LexRenderAt(input, 0, gaps, tokens);
    }
  }

  /** What each character is by itself: nothing, a digit, a name, a symbol, or the error that it is. */
  lemma OneCharacter(c: char)
    ensures c in " \t" ==> Lex([c]) == Ok([])
    ensures c in "0123456789" ==> Lex([c]) == Ok([Number([c])])
    ensures c in "ABCDEFGHIJKLMNOPQRSTUVWXYZ" ==> Lex([c]) == Ok([Name([c])])
    ensures c in "+-*/()" ==> Lex([c]) == Ok([Symbol(c)])
    ensures c == '.' ==> Lex([c]) == Err(InvalidNumber(1))
    ensures c !in " \t0123456789ABCDEFGHIJKLMNOPQRSTUVWXYZ+-*/()." ==> Lex([c]) == Err(UnexpectedCharacter(c, 1))
  {
    OneByClass(c);
    Alphabet(c);
    hide Lex;
    hide IsUpper;
    hide IsDigit;
  }

  lemma OneByClass(c: char)
    ensures IsBlank(c) ==> Lex([c]) == Ok([])
    ensures IsDigit(c) ==> Lex([c]) == Ok([Number([c])])
    ensures IsUpper(c) ==> Lex([c]) == Ok([Name([c])])
    ensures IsSymbol(c) ==> Lex([c]) == Ok([Symbol(c)])
    ensures c == '.' ==> Lex([c]) == Err(InvalidNumber(1))
    ensures !IsBlank(c) && !IsDigit(c) && !IsUpper(c) && !IsSymbol(c) && c != '.' ==>
      Lex([c]) == Err(UnexpectedCharacter(c, 1))
  {
    var text := [c];
    assert LexFrom(text, 1) == Ok([]);
    assert RunEnd(text, 1, IsDigit) == 1 == RunEnd(text, 1, IsNameChar);
    assert text[0..1] == text;
    if IsDigit(c) {
      assert NumberEnd(text, 0) == 1;
      assert [Number(text)] + [] == [Number(text)];
    } else if c == '.' {
      assert NumberEnd(text, 0) == 0;
    } else if IsUpper(c) {
      assert [Name(text)] + [] == [Name(text)];
    } else if IsSymbol(c) {
      assert [Symbol(c)] + [] == [Symbol(c)];
    }
  }

  /** The letters and digits are those between the first and the last of them. */
  lemma Alphabet(c: char)
    ensures IsUpper(c) <==> c in "ABCDEFGHIJKLMNOPQRSTUVWXYZ"
    ensures IsDigit(c) <==> c in "0123456789"
  {
    var letters, digits := "ABCDEFGHIJKLMNOPQRSTUVWXYZ", "0123456789";
    if IsUpper(c) {
      assert letters[c as int - 'A' as int] == c;
    }
    if IsDigit(c) {
      assert digits[c as int - '0' as int] == c;
    }
  }
}
