/**
 * The infix parser: a regular-expression tokenizer, the shunting-yard
 * conversion to postfix and the postfix-to-tree builder, with the source's
 * three errors, and the reading of a knowledge base one line per formula.
 *
 * Each loop of the source is a method proved equal to a recursive
 * specification function; the properties are proved about those functions.
 */
module Parser {
  import opened Wrappers
  import opened Formulas
  import opened Text
  import opened Knowledge

  /** The `RuntimeError`s the parser raises. */
  datatype ParseError =
    | MismatchedParentheses
    | MissingOperand(op: string)   // "Missing operand(s) for '<op>'"
    | InvalidStructure

  datatype Assoc = LeftAssoc | RightAssoc

  const BinaryOperators: set<string> := {"&&", "||", "=>", "<=>"}
  const Operators: set<string> := BinaryOperators + {"!"}

  /** Binding strength: `!` > `&&` > `||` > `=>` > `<=>`, anything else -1. */
  function Precedence(op: string): (p: int)
    ensures -1 <= p <= 4
    ensures p == -1 <==> op !in Operators
  {
    if op == "!" then 4
    else if op == "&&" then 3
    else if op == "||" then 2
    else if op == "=>" then 1
    else if op == "<=>" then 0
    else -1
  }

  lemma PrecedenceChain()
    ensures Precedence("!") > Precedence("&&") > Precedence("||") > Precedence("=>") > Precedence("<=>") >= 0
  {
  }

  function Associativity(op: string): (a: Assoc)
    ensures a == RightAssoc <==> op == "!" || op == "=>"
  {
    if op == "!" || op == "=>" then RightAssoc else LeftAssoc
  }

  // ---------------------------------------------------------------------
  // Tokenizer: `re.findall` of (<=>|=>|&&|\|\||[()!]|[A-Za-z0-9_]+|[\+\-])
  // ---------------------------------------------------------------------

  predicate IsToken(t: string)
  {
    t in Operators || t in {"(", ")", "+", "-"} || IsIdent(t)
  }

  /** The length of the identifier run `s` starts with. */
  function IdentLength(s: string): (n: nat)
    ensures n <= |s|
    ensures forall k :: 0 <= k < n ==> IsIdentChar(s[k])
    ensures n < |s| ==> !IsIdentChar(s[n])
    ensures s != [] && IsIdentChar(s[0]) ==> n >= 1
  {
    if s != [] && IsIdentChar(s[0]) then
      var n := IdentLength(s[1..]);
      assert forall k :: 1 <= k < n + 1 ==> s[k] == s[1..][k - 1];
      n + 1
    else 0
  }

  /**
   * At each position the first alternative that matches wins (`<=>` before
   * `=>`, identifiers as long as possible); a character no alternative
   * matches is dropped.
   */
  function Tokenize(s: string): seq<string>
    decreases |s|
  {
    if s == [] then []
    else if |s| >= 3 && s[0] == '<' && s[1] == '=' && s[2] == '>' then ["<=>"] + Tokenize(s[3..])
    else if |s| >= 2 && IsTwoCharOperator(s[0], s[1]) then [[s[0], s[1]]] + Tokenize(s[2..])
    else if s[0] == '(' || s[0] == ')' || s[0] == '!' then [[s[0]]] + Tokenize(s[1..])
    else if IsIdentChar(s[0]) then
      var n := IdentLength(s);
      [s[..n]] + Tokenize(s[n..])
    else if s[0] == '+' || s[0] == '-' then [[s[0]]] + Tokenize(s[1..])
    else Tokenize(s[1..])
  }

  /** `=>`, `&&` and `||`, the operators two characters long. */
  predicate IsTwoCharOperator(a: char, b: char)
  {
    (a == '=' && b == '>') || (a == '&' && b == '&') || (a == '|' && b == '|')
  }

  /** Every token the tokenizer yields is an operator, a parenthesis, a constant or an identifier. */
  lemma {:induction false} TokenizeYieldsTokens(s: string)
    ensures forall k :: 0 <= k < |Tokenize(s)| ==> IsToken(Tokenize(s)[k])
    decreases |s|
  {
    if s == [] {
    } else if |s| >= 3 && s[0] == '<' && s[1] == '=' && s[2] == '>' {
      TokenizeYieldsTokens(s[3..]);
    } else if |s| >= 2 && IsTwoCharOperator(s[0], s[1]) {
      TokenizeYieldsTokens(s[2..]);
      assert [s[0], s[1]] in Operators;
    } else if s[0] == '(' || s[0] == ')' || s[0] == '!' {
      TokenizeYieldsTokens(s[1..]);
    } else if IsIdentChar(s[0]) {
      var n := IdentLength(s);
      TokenizeYieldsTokens(s[n..]);
      assert IsIdent(s[..n]);
    } else {
      TokenizeYieldsTokens(s[1..]);
    }
  }

  // ---------------------------------------------------------------------
  // Shunting yard (the specification of ParseFormula's loops)
  // ---------------------------------------------------------------------

  /** The `output` list and the operator `stack`; the stack's top is its last element. */
  datatype Shunt = Shunt(output: seq<string>, stack: seq<string>)

  function Top(stack: seq<string>): string
    requires stack != []
  {
    stack[|stack| - 1]
  }

  function Pop(stack: seq<string>): seq<string>
    requires stack != []
  {
    stack[..|stack| - 1]
  }

  function Reversed(s: seq<string>): (r: seq<string>)
    ensures |r| == |s| && forall k :: 0 <= k < |s| ==> r[k] == s[|s| - 1 - k]
  {
    if s == [] then [] else [s[|s| - 1]] + Reversed(s[..|s| - 1])
  }

  /** Whether an incoming operator `token` moves `top` from the stack to the output. */
  predicate Yields(token: string, top: string)
  {
    || (Associativity(token) == LeftAssoc && Precedence(token) <= Precedence(top))
    || (Associativity(token) == RightAssoc && Precedence(token) < Precedence(top))
  }

  /** The inner loop run before an operator is pushed. */
  function PopOperators(token: string, output: seq<string>, stack: seq<string>): (r: Shunt)
    ensures |r.stack| <= |stack| && r.stack == stack[..|r.stack|]
    ensures r.output == output + Reversed(stack[|r.stack|..])
    ensures r.stack == [] || Top(r.stack) in {"(", ")"} || !Yields(token, Top(r.stack))
    decreases |stack|
  {
    if stack != [] && Top(stack) !in {"(", ")"} && Yields(token, Top(stack)) then
      PopOperators(token, output + [Top(stack)], Pop(stack))
    else Shunt(output, stack)
  }

  /** The loop run at `)`: moves operators to the output down to the nearest `(`. */
  function PopToParen(output: seq<string>, stack: seq<string>): (r: Shunt)
    ensures r.stack == [] <==> "(" !in stack
    ensures r.stack != [] ==> Top(r.stack) == "("
    ensures |r.stack| <= |stack| && r.stack == stack[..|r.stack|]
    ensures r.output == output + Reversed(stack[|r.stack|..])
    ensures "(" !in stack[|r.stack|..]
    decreases |stack|
  {
    if stack != [] && Top(stack) != "(" then
      assert stack == Pop(stack) + [Top(stack)];
      PopToParen(output + [Top(stack)], Pop(stack))
    else Shunt(output, stack)
  }

  /** One token of the main loop; only an unmatched `)` fails. */
  function Step(st: Shunt, token: string): (r: Result<Shunt, ParseError>)
    ensures r.Err? <==> token == ")" && "(" !in st.stack
    ensures r.Err? ==> r.error == MismatchedParentheses
    ensures r.Ok? && token !in Operators && token != "(" && token != ")" ==>
      r.value == Shunt(st.output + [token], st.stack)
  {
    if token in Operators then
      var p := PopOperators(token, st.output, st.stack);
      Ok(Shunt(p.output, p.stack + [token]))
    else if token == "(" then
      Ok(Shunt(st.output, st.stack + ["("]))
    else if token == ")" then
      var p := PopToParen(st.output, st.stack);
      if p.stack == [] then Err(MismatchedParentheses)
      else Ok(Shunt(p.output, Pop(p.stack)))
    else
      Ok(Shunt(st.output + [token], st.stack))
  }

  /** The main loop over the tokens, without the final draining. */
  function ShuntRun(tokens: seq<string>, st: Shunt): Result<Shunt, ParseError>
  {
    if tokens == [] then Ok(st)
    else
      match Step(st, tokens[0])
      case Err(e) => Err(e)
      case Ok(st') => ShuntRun(tokens[1..], st')
  }

  /** The final loop: the stack, top first, goes to the output; a parenthesis left on it fails. */
  function Drain(output: seq<string>, stack: seq<string>): (r: Result<seq<string>, ParseError>)
    ensures r.Err? <==> "(" in stack || ")" in stack
    ensures r.Err? ==> r.error == MismatchedParentheses
    ensures r.Ok? ==> r.value == output + Reversed(stack)
    decreases |stack|
  {
    if stack == [] then Ok(output)
    else if Top(stack) in {"(", ")"} then Err(MismatchedParentheses)
    else
      assert stack == Pop(stack) + [Top(stack)];
      Drain(output + [Top(stack)], Pop(stack))
  }

  /** The postfix form `parse_formula` hands to `_parse_output`. */
  function ToPostfix(tokens: seq<string>): Result<seq<string>, ParseError>
  {
    match ShuntRun(tokens, Shunt([], []))
    case Err(e) => Err(e)
    case Ok(st) => Drain(st.output, st.stack)
  }

  // ---------------------------------------------------------------------
  // Postfix to tree (the specification of ParseOutput's loop)
  // ---------------------------------------------------------------------

  function MakeBinary(op: string, l: Formula, r: Formula): (f: Formula)
    requires op in BinaryOperators
    ensures IsBinary(f) && f.left == l && f.right == r
  {
    if op == "&&" then And(l, r)
    else if op == "||" then Or(l, r)
    else if op == "=>" then Implies(l, r)
    else Iff(l, r)
  }

  /** The operand for a token that is not an operator. */
  function Operand(token: string): Formula
  {
    if token == "+" then True
    else if token == "-" then False
    else Atom(token)
  }

  /**
   * One token: `!` replaces the top by its negation, a binary operator
   * replaces the two top entries (the lower one is the left child), anything
   * else pushes an operand.
   */
  function BuildStep(stack: seq<Formula>, token: string): (r: Result<seq<Formula>, ParseError>)
    ensures r.Err? <==> (token == "!" && stack == []) || (token in BinaryOperators && |stack| < 2)
    ensures r.Err? ==> r.error == MissingOperand(token)
    ensures r.Ok? && token == "!" ==> r.value == stack[..|stack| - 1] + [Not(stack[|stack| - 1])]
    ensures r.Ok? && token in BinaryOperators ==>
      |r.value| == |stack| - 1 && r.value[..|stack| - 2] == stack[..|stack| - 2]
      && IsBinary(r.value[|stack| - 2])
      && r.value[|stack| - 2].left == stack[|stack| - 2] && r.value[|stack| - 2].right == stack[|stack| - 1]
    ensures r.Ok? && token !in Operators ==> r.value == stack + [Operand(token)]
  {
    if token == "!" then
      if stack == [] then Err(MissingOperand(token))
      else Ok(stack[..|stack| - 1] + [Not(stack[|stack| - 1])])
    else if token in BinaryOperators then
      if |stack| < 2 then Err(MissingOperand(token))
      else Ok(stack[..|stack| - 2] + [MakeBinary(token, stack[|stack| - 2], stack[|stack| - 1])])
    else
      Ok(stack + [Operand(token)])
  }

  function BuildRun(tokens: seq<string>, stack: seq<Formula>): Result<seq<Formula>, ParseError>
  {
    if tokens == [] then Ok(stack)
    else
      match BuildStep(stack, tokens[0])
      case Err(e) => Err(e)
      case Ok(s) => BuildRun(tokens[1..], s)
  }

  /** What is left must be exactly one tree. */
  function Finish(r: Result<seq<Formula>, ParseError>): (f: Result<Formula, ParseError>)
    ensures f.Ok? <==> r.Ok? && |r.value| == 1
    ensures f.Ok? ==> f.value == r.value[0]
    ensures r.Ok? && |r.value| != 1 ==> f == Err(InvalidStructure)
    ensures r.Err? ==> f == Err(r.error)
  {
    match r
    case Err(e) => Err(e)
    case Ok(s) => if |s| != 1 then Err(InvalidStructure) else Ok(s[0])
  }

  function BuildFormula(postfix: seq<string>): Result<Formula, ParseError>
  {
    Finish(BuildRun(postfix, []))
  }

  /** `parse_formula` as a function of the input text. */
  function Parse(s: string): Result<Formula, ParseError>
  {
    match ToPostfix(Tokenize(s))
    case Err(e) => Err(e)
    case Ok(postfix) => BuildFormula(postfix)
  }

  // ---------------------------------------------------------------------
  // The source's loops
  // ---------------------------------------------------------------------

  /** `_parse_output`: builds the tree from postfix tokens with an operand stack. */
  method ParseOutput(postfix: seq<string>) returns (r: Result<Formula, ParseError>)
    ensures r == BuildFormula(postfix)
  {
    var stack: seq<Formula> := [];
    var i := 0;
    while i < |postfix|
      invariant 0 <= i <= |postfix|
      invariant Finish(BuildRun(postfix[i..], stack)) == BuildFormula(postfix)
    {
      var token := postfix[i];
      assert postfix[i..][1..] == postfix[i + 1..];
      ghost var stack0 := stack;
      if token == "!" {
        if stack == [] {
          return Err(MissingOperand("!"));
        }
        var operand := stack[|stack| - 1];
        stack := stack[..|stack| - 1];
        stack := stack + [Not(operand)];
      } else if token in BinaryOperators {
        if |stack| < 2 {
          return Err(MissingOperand(token));
        }
        var right := stack[|stack| - 1];
        stack := stack[..|stack| - 1];
        var left := stack[|stack| - 1];
        stack := stack[..|stack| - 1];
        stack := stack + [MakeBinary(token, left, right)];
        assert stack == stack0[..|stack0| - 2] + [MakeBinary(token, stack0[|stack0| - 2], stack0[|stack0| - 1])];
      } else if token == "+" {
        stack := stack + [True];
      } else if token == "-" {
        stack := stack + [False];
      } else {
        stack := stack + [Atom(token)];
      }
      i := i + 1;
    }
    if |stack| != 1 {
      return Err(InvalidStructure);
    }
    return Ok(stack[0]);
  }

  /** The loop run before an operator is pushed (`while stack and stack[-1] not in "()"`). */
  method MoveOperators(token: string, output: seq<string>, stack: seq<string>)
    returns (output': seq<string>, stack': seq<string>)
    ensures Shunt(output', stack') == PopOperators(token, output, stack)
  {
    output', stack' := output, stack;
    while stack' != [] && stack'[|stack'| - 1] !in {"(", ")"}
      invariant PopOperators(token, output', stack') == PopOperators(token, output, stack)
      decreases |stack'|
    {
      var top := stack'[|stack'| - 1];
      if Yields(token, top) {
        output' := output' + [top];
        stack' := stack'[..|stack'| - 1];
      } else {
        break;
      }
    }
  }

  /** The loop run at `)`, down to the nearest `(`. */
  method MoveToParen(output: seq<string>, stack: seq<string>)
    returns (output': seq<string>, stack': seq<string>)
    ensures Shunt(output', stack') == PopToParen(output, stack)
  {
    output', stack' := output, stack;
    while stack' != [] && stack'[|stack'| - 1] != "("
      invariant PopToParen(output', stack') == PopToParen(output, stack)
      decreases |stack'|
    {
      output' := output' + [stack'[|stack'| - 1]];
      stack' := stack'[..|stack'| - 1];
    }
  }

  /** The final loop emptying the operator stack. */
  method DrainStack(output: seq<string>, stack: seq<string>) returns (r: Result<seq<string>, ParseError>)
    ensures r == Drain(output, stack)
  {
    var out, st := output, stack;
    while st != []
      invariant Drain(out, st) == Drain(output, stack)
      decreases |st|
    {
      if st[|st| - 1] in {"(", ")"} {
        return Err(MismatchedParentheses);
      }
      out := out + [st[|st| - 1]];
      st := st[..|st| - 1];
    }
    return Ok(out);
  }

  /** `parse_formula`: tokenizes, converts to postfix with an operator stack, builds the tree. */
  method ParseFormula(s: string) returns (r: Result<Formula, ParseError>)
    ensures r == Parse(s)
  {
    var tokens := Tokenize(s);
    var output: seq<string> := [];
    var stack: seq<string> := [];
    var i := 0;
    while i < |tokens|
      invariant 0 <= i <= |tokens|
      invariant ShuntRun(tokens, Shunt([], [])) == ShuntRun(tokens[i..], Shunt(output, stack))
    {
      var token := tokens[i];
      assert tokens[i..][1..] == tokens[i + 1..];
      if token in Operators {
        output, stack := MoveOperators(token, output, stack);
        stack := stack + [token];
      } else if token == "(" {
        stack := stack + [token];
      } else if token == ")" {
        output, stack := MoveToParen(output, stack);
        if stack == [] {
          return Err(MismatchedParentheses);
        }
        stack := stack[..|stack| - 1];
      } else {
        output := output + [token];
      }
      i := i + 1;
    }
    var postfix := DrainStack(output, stack);
    if postfix.Err? {
      return Err(postfix.error);
    }
    r := ParseOutput(postfix.value);
  }

  // ---------------------------------------------------------------------
  // Reading a knowledge base: one formula per non-blank line
  // ---------------------------------------------------------------------

  /** The non-blank lines, each stripped, in order. */
  function NonBlankLines(lines: seq<string>): (r: seq<string>)
    ensures |r| <= |lines|
    ensures forall k :: 0 <= k < |r| ==> r[k] != []
  {
    if lines == [] then []
    else
      var t := Strip(lines[0]);
      (if t == [] then [] else [t]) + NonBlankLines(lines[1..])
  }

  /** Parses each text in order; the first failure is the result. */
  function ParseAll(texts: seq<string>): Result<seq<Formula>, ParseError>
  {
    if texts == [] then Ok([])
    else
      match Parse(texts[0])
      case Err(e) => Err(e)
      case Ok(f) => Prepend([f], ParseAll(texts[1..]))
  }

  /**
   * Reading succeeds iff every text parses, and then formula k is text k's
   * parse.
   */
  lemma {:induction false} ParseAllOk(texts: seq<string>)
    ensures ParseAll(texts).Ok? <==> forall k :: 0 <= k < |texts| ==> Parse(texts[k]).Ok?
    ensures ParseAll(texts).Ok? ==>
              && |ParseAll(texts).value| == |texts|
              && forall k :: 0 <= k < |texts| ==> Parse(texts[k]) == Ok(ParseAll(texts).value[k])
  {
    if texts != [] {
      var tail := texts[1..];
      assert forall k :: 1 <= k < |texts| ==> tail[k - 1] == texts[k];
      ParseAllOk(tail);
    }
  }

  /** A failed read reports the error of the first text that does not parse. */
  lemma {:induction false} ParseAllFirstError(texts: seq<string>)
    ensures ParseAll(texts).Err? ==>
              exists k :: && 0 <= k < |texts|
                          && Parse(texts[k]) == Err(ParseAll(texts).error)
                          && forall j :: 0 <= j < k ==> Parse(texts[j]).Ok?
  {
    if texts != [] {
      var tail := texts[1..];
      ParseAllFirstError(tail);
      if Parse(texts[0]).Ok? && ParseAll(tail).Err? {
        var k :| 0 <= k < |tail| && Parse(tail[k]) == Err(ParseAll(tail).error)
                 && forall j :: 0 <= j < k ==> Parse(tail[j]).Ok?;
        assert Parse(texts[k + 1]) == Err(ParseAll(texts).error);
        assert forall j :: 0 <= j < k + 1 ==> Parse(texts[j]).Ok? by {
          forall j | 0 <= j < k + 1 ensures Parse(texts[j]).Ok? {
            if j > 0 { assert texts[j] == tail[j - 1]; }
          }
        }
      }
      if Parse(texts[0]).Err? {
        assert Parse(texts[0]) == Err(ParseAll(texts).error);
      }
    }
  }

  /** Trimmed, non-blank lines all survive the blank-line filter. */
  lemma {:induction false} KeptLines(ls: seq<string>)
    requires forall i :: 0 <= i < |ls| ==> ls[i] != [] && Strip(ls[i]) == ls[i]
    ensures NonBlankLines(ls) == ls
  {
    if ls != [] {
      KeptLines(ls[1..]);
      assert ls == [ls[0]] + ls[1..];
    }
  }

  /** Texts that parse one by one are read back in order. */
  lemma {:induction false} ParsedLines(ls: seq<string>, fs: seq<Formula>)
    requires |ls| == |fs|
    requires forall i :: 0 <= i < |ls| ==> Parse(ls[i]) == Ok(fs[i])
    ensures ParseAll(ls) == Ok(fs)
  {
    if ls != [] {
      ParsedLines(ls[1..], fs[1..]);
      assert [fs[0]] + fs[1..] == fs;
    }
  }

  /** `parse_kb_from_string` as a function of the text. */
  function ParseKb(s: string): Result<seq<Formula>, ParseError>
  {
    ParseAll(NonBlankLines(SplitLines(Strip(s))))
  }

  /** The formulas read so far in front of what the rest of the lines give. */
  function Prepend(fs: seq<Formula>, r: Result<seq<Formula>, ParseError>): Result<seq<Formula>, ParseError>
  {
    match r
    case Err(e) => Err(e)
    case Ok(gs) => Ok(fs + gs)
  }

  lemma PrependSnoc(fs: seq<Formula>, f: Formula, r: Result<seq<Formula>, ParseError>)
    ensures Prepend(fs + [f], r) == Prepend(fs, Prepend([f], r))
  {
    if r.Ok? {
      assert (fs + [f]) + r.value == fs + ([f] + r.value);
    }
  }

  lemma PrependNothing(r: Result<seq<Formula>, ParseError>)
    ensures Prepend([], r) == r
  {
    if r.Ok? {
      assert [] + r.value == r.value;
    }
  }

  lemma ParseAllCons(text: string, rest: seq<string>)
    ensures Parse(text).Err? ==> ParseAll([text] + rest) == Err(Parse(text).error)
    ensures Parse(text).Ok? ==> ParseAll([text] + rest) == Prepend([Parse(text).value], ParseAll(rest))
  {
    assert ([text] + rest)[1..] == rest;
  }

  lemma NonBlankLinesFrom(lines: seq<string>, i: nat)
    requires i < |lines|
    ensures NonBlankLines(lines[i..])
         == (if Strip(lines[i]) == [] then [] else [Strip(lines[i])]) + NonBlankLines(lines[i + 1..])
  {
    assert lines[i..][1..] == lines[i + 1..];
  }

  /** How reading line `i` advances the specification, given the formulas `fs` read before it. */
  lemma ReadLine(lines: seq<string>, i: nat, fs: seq<Formula>, total: Result<seq<Formula>, ParseError>)
    requires i < |lines|
    requires total == Prepend(fs, ParseAll(NonBlankLines(lines[i..])))
    ensures Strip(lines[i]) == [] ==> total == Prepend(fs, ParseAll(NonBlankLines(lines[i + 1..])))
    ensures Strip(lines[i]) != [] && Parse(Strip(lines[i])).Err? ==> total == Err(Parse(Strip(lines[i])).error)
    ensures Strip(lines[i]) != [] && Parse(Strip(lines[i])).Ok? ==>
              total == Prepend(fs + [Parse(Strip(lines[i])).value], ParseAll(NonBlankLines(lines[i + 1..])))
  {
    var line := Strip(lines[i]);
    var rest := NonBlankLines(lines[i + 1..]);
    NonBlankLinesFrom(lines, i);
    if line != [] {
      assert NonBlankLines(lines[i..]) == [line] + rest;
      ParseAllCons(line, rest);
      if Parse(line).Ok? {
        PrependSnoc(fs, Parse(line).value, ParseAll(rest));
      }
    } else {
      assert NonBlankLines(lines[i..]) == rest;
    }
  }

  /** `parse_kb_from_string`: strips the text, splits it into lines and reads them. */
  method ParseKbFromString(s: string) returns (r: Result<Kb, ParseError>)
    ensures r.Ok? <==> ParseKb(s).Ok?
    ensures r.Ok? ==> fresh(r.value) && r.value.formulas == ParseKb(s).value
    ensures r.Err? ==> r.error == ParseKb(s).error
  {
    r := ReadLines(SplitLines(Strip(s)));
  }

  /** The loop of `parse_kb_from_string`: adds one formula per non-blank line, in line order. */
  method ReadLines(lines: seq<string>) returns (r: Result<Kb, ParseError>)
    ensures r.Ok? <==> ParseAll(NonBlankLines(lines)).Ok?
    ensures r.Ok? ==> fresh(r.value) && r.value.formulas == ParseAll(NonBlankLines(lines)).value
    ensures r.Err? ==> r.error == ParseAll(NonBlankLines(lines)).error
  {
    ghost var total := ParseAll(NonBlankLines(lines));
    var kb := new Kb();
    var i := 0;
    assert lines[i..] == lines;
    PrependNothing(total);
    while i < |lines|
      invariant 0 <= i <= |lines|
      invariant fresh(kb)
      invariant total == Prepend(kb.formulas, ParseAll(NonBlankLines(lines[i..])))
    {
      var line := Strip(lines[i]);
      ReadLine(lines, i, kb.formulas, total);
      if line != [] {
        var f := ParseFormula(line);
        if f.Err? {
          return Err(f.error);
        }
        kb.Add(f.value);
      }
      i := i + 1;
    }
    assert lines[i..] == [];
    return Ok(kb);
  }
}
