/**
 * The printer and the parser are inverse: when every atom name is an
 * identifier, parsing the printed form of a formula rebuilds the formula,
 * and reading the printed form of a knowledge base rebuilds its list.
 *
 * The proof follows the three stages: the printed text tokenizes to
 * `Tokens(f)`, the shunting yard turns those tokens into `Postfix(f)`, and
 * the postfix builder turns that back into `f`.
 */
module PrintParse {
  import opened Wrappers
  import opened Formulas
  import opened Text
  import opened Knowledge
  import opened Parser

  /** The operator token of a binary node. */
  function OpToken(f: Formula): (op: string)
    requires IsBinary(f)
    ensures op in BinaryOperators && MakeBinary(op, f.left, f.right) == f
  {
    match f
    case And(_, _) => "&&"
    case Or(_, _) => "||"
    case Implies(_, _) => "=>"
    case Iff(_, _) => "<=>"
  }

  /** The token a leaf prints as. */
  function LeafToken(f: Formula): string
    requires IsLeaf(f)
  {
    match f
    case Atom(n) => n
    case True => "+"
    case False => "-"
  }

  /** The tokens of the printed form, in order. */
  function Tokens(f: Formula): seq<string>
  {
    if IsLeaf(f) then [LeafToken(f)]
    else if f.Not? then ["!", "("] + Tokens(f.left) + [")"]
    else ["("] + Tokens(f.left) + [OpToken(f)] + Tokens(f.right) + [")"]
  }

  /** The postfix form: children first, then the node's operator. */
  function Postfix(f: Formula): seq<string>
  {
    if IsLeaf(f) then [LeafToken(f)]
    else if f.Not? then Postfix(f.left) + ["!"]
    else Postfix(f.left) + Postfix(f.right) + [OpToken(f)]
  }

  /** The output the shunting yard has produced once `f`'s tokens are consumed. */
  function Emitted(f: Formula): seq<string>
  {
    if f.Not? then Postfix(f.left) else Postfix(f)
  }

  /** What `f`'s tokens leave on the operator stack: a `!` stays until the next operator or `)`. */
  function Pending(f: Formula): seq<string>
  {
    if f.Not? then ["!"] else []
  }

  // ---------------------------------------------------------------------
  // Stage 1: tokenizing the printed form
  // ---------------------------------------------------------------------

  lemma TokenizeSingle(c: char, rest: string)
    requires c in "()!+-"
    ensures Tokenize([c] + rest) == [[c]] + Tokenize(rest)
  {
    var s := [c] + rest;
    assert s[0] == c && s[1..] == rest;
  }

  lemma TokenizeSpace(rest: string)
    ensures Tokenize(" " + rest) == Tokenize(rest)
  {
    var s := " " + rest;
    assert s[0] == ' ' && s[1..] == rest;
  }

  lemma TokenizeOperator(op: string, rest: string)
    requires op in BinaryOperators
    ensures Tokenize(op + rest) == [op] + Tokenize(rest)
  {
    var s := op + rest;
    if op == "<=>" {
      assert s[0] == '<' && s[1] == '=' && s[2] == '>' && s[3..] == rest;
    } else {
      assert s[0] == op[0] && s[1] == op[1] && s[2..] == rest;
      assert [s[0], s[1]] == op;
    }
  }

  lemma {:induction false} IdentLengthOf(n: string, rest: string)
    requires forall k :: 0 <= k < |n| ==> IsIdentChar(n[k])
    requires rest == [] || !IsIdentChar(rest[0])
    ensures IdentLength(n + rest) == |n|
  {
    if n != [] {
      assert (n + rest)[1..] == n[1..] + rest;
      IdentLengthOf(n[1..], rest);
    } else {
      assert n + rest == rest;
    }
  }

  /** Identifiers are maximal runs, so a name followed by a non-identifier character is one token. */
  lemma TokenizeIdent(n: string, rest: string)
    requires IsIdent(n)
    requires rest == [] || !IsIdentChar(rest[0])
    ensures Tokenize(n + rest) == [n] + Tokenize(rest)
  {
    var s := n + rest;
    IdentLengthOf(n, rest);
    assert s[0] == n[0] && IsIdentChar(n[0]);
    assert s[..|n|] == n && s[|n|..] == rest;
  }

  lemma PrintedNot(f: Formula, rest: string)
    requires f.Not?
    ensures Formulas.ToString(f) + rest == "!" + ("(" + (Formulas.ToString(f.left) + (")" + rest)))
  {
  }

  lemma PrintedBinary(f: Formula, rest: string)
    requires IsBinary(f)
    ensures Formulas.ToString(f) + rest
         == "(" + (Formulas.ToString(f.left) + (" " + (OpToken(f) + (" " + (Formulas.ToString(f.right) + (")" + rest))))))
  {
    var l, r, op := Formulas.ToString(f.left), Formulas.ToString(f.right), OpToken(f);
    var m := " " + op + " ";
    assert Formulas.ToString(f) == "(" + l + m + r + ")";
    Regroup("(", l, m, r, ")", rest);
    Regroup(" ", op, " ", r, ")", rest);
  }

  /** Concatenation regrouped to the right. */
  lemma Regroup(a: string, b: string, c: string, d: string, e: string, rest: string)
    ensures a + b + c + d + e + rest == a + (b + (c + (d + (e + rest))))
    ensures (a + b + c) + (d + (e + rest)) == a + (b + (c + (d + (e + rest))))
  {
    assert a + b + c + d + e + rest == (a + b + c + d) + (e + rest);
    assert (a + b + c + d) + (e + rest) == (a + b + c) + (d + (e + rest));
    assert (a + b + c) + (d + (e + rest)) == (a + b) + (c + (d + (e + rest)));
  }

  /** The printed form of a well-named formula tokenizes to `Tokens(f)`, whatever non-identifier text follows. */
  lemma {:induction false} TokenizePrinted(f: Formula, rest: string)
    requires WellNamed(f)
    requires rest == [] || !IsIdentChar(rest[0])
    ensures Tokenize(Formulas.ToString(f) + rest) == Tokens(f) + Tokenize(rest)
    decreases f, 2
  {
    if f.Atom? {
      TokenizeIdent(f.name, rest);
    } else if f.True? {
      TokenizeSingle('+', rest);
    } else if f.False? {
      TokenizeSingle('-', rest);
    } else if f.Not? {
      TokenizePrintedNot(f, rest);
    } else {
      TokenizePrintedBinary(f, rest);
    }
  }

  lemma {:induction false} TokenizePrintedNot(f: Formula, rest: string)
    requires f.Not? && WellNamed(f)
    requires rest == [] || !IsIdentChar(rest[0])
    ensures Tokenize(Formulas.ToString(f) + rest) == Tokens(f) + Tokenize(rest)
    decreases f, 1
  {
    PrintedNot(f, rest);
    TokenizePrinted(f.left, ")" + rest);
    TokenizeNotShape(Formulas.ToString(f.left), Tokens(f.left), rest);
  }

  lemma {:induction false} TokenizePrintedBinary(f: Formula, rest: string)
    requires IsBinary(f) && WellNamed(f)
    requires rest == [] || !IsIdentChar(rest[0])
    ensures Tokenize(Formulas.ToString(f) + rest) == Tokens(f) + Tokenize(rest)
    decreases f, 1
  {
    var l, r, op := Formulas.ToString(f.left), Formulas.ToString(f.right), OpToken(f);
    PrintedBinary(f, rest);
    TokenizePrinted(f.left, " " + (op + (" " + (r + (")" + rest)))));
    TokenizePrinted(f.right, ")" + rest);
    TokenizeBinaryShape(l, op, r, rest, Tokens(f.left), Tokens(f.right));
  }

  /** The tokenizer on `!(x)`, given how it treats `x` followed by `)`. */
  lemma TokenizeNotShape(x: string, tx: seq<string>, rest: string)
    requires Tokenize(x + (")" + rest)) == tx + Tokenize(")" + rest)
    ensures Tokenize("!" + ("(" + (x + (")" + rest)))) == ["!", "("] + tx + [")"] + Tokenize(rest)
  {
    calc {
      Tokenize("!" + ("(" + (x + (")" + rest))));
      { TokenizeSingle('!', ['('] + (x + (")" + rest))); }
      ["!"] + Tokenize(['('] + (x + (")" + rest)));
      { TokenizeSingle('(', x + (")" + rest)); }
      ["!"] + (["("] + Tokenize(x + (")" + rest)));
      ["!"] + (["("] + (tx + Tokenize(")" + rest)));
      { TokenizeSingle(')', rest); }
      ["!"] + (["("] + (tx + ([")"] + Tokenize(rest))));
      ["!", "("] + tx + [")"] + Tokenize(rest);
    }
  }

  /** The tokenizer on `(l op r)`, given how it treats each operand and what follows it. */
  lemma TokenizeBinaryShape(l: string, op: string, r: string, rest: string, tl: seq<string>, tr: seq<string>)
    requires op in BinaryOperators
    requires Tokenize(l + (" " + (op + (" " + (r + (")" + rest)))))) == tl + Tokenize(" " + (op + (" " + (r + (")" + rest)))))
    requires Tokenize(r + (")" + rest)) == tr + Tokenize(")" + rest)
    ensures Tokenize("(" + (l + (" " + (op + (" " + (r + (")" + rest))))))) == ["("] + tl + [op] + tr + [")"] + Tokenize(rest)
  {
    var afterLeft := " " + (op + (" " + (r + (")" + rest))));
    calc {
      Tokenize("(" + (l + afterLeft));
      { TokenizeSingle('(', l + afterLeft); }
      ["("] + Tokenize(l + afterLeft);
      ["("] + (tl + Tokenize(afterLeft));
      { TokenizeAfterLeft(op, r, rest, tr); }
      ["("] + (tl + ([op] + (tr + ([")"] + Tokenize(rest)))));
      ["("] + tl + [op] + tr + [")"] + Tokenize(rest);
    }
  }

  /** The tokenizer on what follows the left operand: ` op r)`. */
  lemma TokenizeAfterLeft(op: string, r: string, rest: string, tr: seq<string>)
    requires op in BinaryOperators
    requires Tokenize(r + (")" + rest)) == tr + Tokenize(")" + rest)
    ensures Tokenize(" " + (op + (" " + (r + (")" + rest))))) == [op] + (tr + ([")"] + Tokenize(rest)))
  {
    var afterOp := " " + (r + (")" + rest));
    calc {
      Tokenize(" " + (op + afterOp));
      { TokenizeSpace(op + afterOp); }
      Tokenize(op + afterOp);
      { TokenizeOperator(op, afterOp); }
      [op] + Tokenize(afterOp);
      { TokenizeSpace(r + (")" + rest)); }
      [op] + Tokenize(r + (")" + rest));
      [op] + (tr + Tokenize(")" + rest));
      { TokenizeSingle(')', rest); }
      [op] + (tr + ([")"] + Tokenize(rest)));
    }
  }

  // ---------------------------------------------------------------------
  // Stage 2: the shunting yard on those tokens
  // ---------------------------------------------------------------------

  lemma ShuntCons(t: string, ts: seq<string>, st: Shunt)
    requires Step(st, t).Ok?
    ensures ShuntRun([t] + ts, st) == ShuntRun(ts, Step(st, t).value)
  {
    assert ([t] + ts)[0] == t && ([t] + ts)[1..] == ts;
  }

  /** `!` binds tightest, so it never moves anything off the stack. */
  lemma StepNot(out: seq<string>, st: seq<string>)
    ensures Step(Shunt(out, st), "!") == Ok(Shunt(out, st + ["!"]))
  {
    assert PopOperators("!", out, st) == Shunt(out, st);
  }

  lemma StepOpen(out: seq<string>, st: seq<string>)
    ensures Step(Shunt(out, st), "(") == Ok(Shunt(out, st + ["("]))
  {
  }

  /** `)` moves what lies above the nearest `(` to the output and drops the `(`. */
  lemma StepClose(out: seq<string>, st: seq<string>, above: seq<string>)
    requires "(" !in above
    ensures Step(Shunt(out, st + ["("] + above), ")") == Ok(Shunt(out + Reversed(above), st))
  {
    assert ")" !in Operators;
    PopAbove(out, st, above);
    assert Pop(st + ["("]) == st;
  }

  lemma PopAbove(out: seq<string>, st: seq<string>, above: seq<string>)
    requires "(" !in above
    ensures PopToParen(out, st + ["("] + above) == Shunt(out + Reversed(above), st + ["("])
  {
    var stack := st + ["("] + above;
    var p := PopToParen(out, stack);
    assert stack[|st|] == "(";
    assert |p.stack| == |st| + 1;
    assert p.stack == st + ["("];
    assert stack[|p.stack|..] == above;
  }

  /** A binary operator moves a pending `!` to the output and stops at the `(`. */
  lemma StepBinary(op: string, out: seq<string>, st: seq<string>, pending: seq<string>)
    requires op in BinaryOperators
    requires pending == [] || pending == ["!"]
    ensures Step(Shunt(out, st + ["("] + pending), op) == Ok(Shunt(out + pending, st + ["(", op]))
  {
    var stack := st + ["("] + pending;
    AppendPair(st, "(", op);
    if pending == [] {
      assert stack == st + ["("] && out + pending == out;
      assert Top(stack) == "(";
      assert PopOperators(op, out, stack) == Shunt(out, stack);
    } else {
      assert Top(stack) == "!" && Pop(stack) == st + ["("];
      assert Yields(op, "!");
      assert Top(st + ["("]) == "(";
      assert PopOperators(op, out + ["!"], st + ["("]) == Shunt(out + ["!"], st + ["("]);
      assert PopOperators(op, out, stack) == Shunt(out + ["!"], st + ["("]);
    }
  }

  lemma AppendPair(st: seq<string>, x: string, y: string)
    ensures st + [x] + [y] == st + [x, y]
  {
  }

  lemma Assoc(a: seq<string>, b: seq<string>, c: seq<string>)
    ensures a + b + c == a + (b + c)
  {
  }

  lemma IdentIsOperand(n: string)
    requires IsIdent(n)
    ensures n !in Operators && n != "(" && n != ")" && n != "+" && n != "-"
  {
    assert IsIdentChar(n[0]);
  }

  lemma PendingBeforeClose(f: Formula)
    ensures Emitted(f) + Reversed(Pending(f)) == Postfix(f)
    ensures "(" !in Pending(f) && ")" !in Pending(f)
    ensures Pending(f) == [] || Pending(f) == ["!"]
  {
    if f.Not? {
      assert Reversed(["!"]) == ["!"];
    } else {
      assert Postfix(f) + [] == Postfix(f);
    }
  }

  /**
   * Consuming a well-named formula's tokens appends `Emitted(f)` to the
   * output and pushes `Pending(f)` on the stack, whatever was there before.
   */
  lemma {:induction false} ShuntPrinted(f: Formula, out: seq<string>, st: seq<string>, rest: seq<string>)
    requires WellNamed(f)
    ensures ShuntRun(Tokens(f) + rest, Shunt(out, st)) == ShuntRun(rest, Shunt(out + Emitted(f), st + Pending(f)))
    decreases f, 1
  {
    if IsLeaf(f) {
      var t := LeafToken(f);
      if f.Atom? { IdentIsOperand(f.name); }
      assert Step(Shunt(out, st), t) == Ok(Shunt(out + [t], st));
      ShuntCons(t, rest, Shunt(out, st));
      assert st + [] == st;
    } else if f.Not? {
      ShuntPrintedNot(f, out, st, rest);
    } else {
      ShuntPrintedBinary(f, out, st, rest);
    }
  }

  lemma {:induction false} ShuntPrintedNot(f: Formula, out: seq<string>, st: seq<string>, rest: seq<string>)
    requires f.Not? && WellNamed(f)
    ensures ShuntRun(Tokens(f) + rest, Shunt(out, st)) == ShuntRun(rest, Shunt(out + Emitted(f), st + Pending(f)))
    decreases f, 0
  {
    var x := f.left;
    ShuntPrinted(x, out, st + ["!", "("], [")"] + rest);
    PendingBeforeClose(x);
    ShuntNotShape(Tokens(x), Emitted(x), Pending(x), Emitted(f), out, st, rest);
  }

  lemma {:induction false} ShuntPrintedBinary(f: Formula, out: seq<string>, st: seq<string>, rest: seq<string>)
    requires IsBinary(f) && WellNamed(f)
    ensures ShuntRun(Tokens(f) + rest, Shunt(out, st)) == ShuntRun(rest, Shunt(out + Emitted(f), st + Pending(f)))
    decreases f, 0
  {
    var l, r, op := f.left, f.right, OpToken(f);
    var el, pl, er, pr := Emitted(l), Pending(l), Emitted(r), Pending(r);
    ShuntPrinted(l, out, st + ["("], [op] + (Tokens(r) + ([")"] + rest)));
    ShuntPrinted(r, out + el + pl, st + ["(", op], [")"] + rest);
    PendingBeforeClose(l);
    PendingBeforeClose(r);
    EmittedBinary(f);
    ShuntBinaryShape(Tokens(l), op, Tokens(r), el, pl, er, pr, Emitted(f), out, st, rest);
    assert st + Pending(f) == st;
  }

  /** What a binary node's tokens emit, in terms of what its operands' tokens emit and leave pending. */
  lemma EmittedBinary(f: Formula)
    requires IsBinary(f)
    ensures Emitted(f)
         == Emitted(f.left) + (Pending(f.left) + Emitted(f.right) + Reversed(Pending(f.right)) + [OpToken(f)])
  {
    var a, b, c, d := Emitted(f.left), Pending(f.left), Emitted(f.right), Reversed(Pending(f.right));
    PendingBeforeClose(f.left);
    PendingBeforeClose(f.right);
    PendingReversed(b);
    assert Emitted(f) == (a + b) + (c + d) + [OpToken(f)];
    RegroupOutput(a, b, c, d, [OpToken(f)]);
  }

  lemma RegroupOutput(a: seq<string>, b: seq<string>, c: seq<string>, d: seq<string>, o: seq<string>)
    ensures (a + b) + (c + d) + o == a + (b + c + d + o)
  {
  }

  lemma PendingReversed(p: seq<string>)
    requires p == [] || p == ["!"]
    ensures Reversed(p) == p
  {
    if p == ["!"] {
      assert Reversed(p) == [p[0]] + Reversed([]);
    }
  }

  /** The shunting yard on `! ( x )`, given how it treats `x` followed by `)`. */
  lemma ShuntNotShape(tx: seq<string>, ex: seq<string>, px: seq<string>, e: seq<string>,
                      out: seq<string>, st: seq<string>, rest: seq<string>)
    requires px == [] || px == ["!"]
    requires e == ex + Reversed(px)
    requires ShuntRun(tx + ([")"] + rest), Shunt(out, st + ["!", "("]))
          == ShuntRun([")"] + rest, Shunt(out + ex, st + ["!", "("] + px))
    ensures ShuntRun(["!", "("] + tx + [")"] + rest, Shunt(out, st)) == ShuntRun(rest, Shunt(out + e, st + ["!"]))
  {
    RegroupNot(tx, rest);
    StepNot(out, st);
    ShuntCons("!", ["("] + (tx + ([")"] + rest)), Shunt(out, st));
    StepOpen(out, st + ["!"]);
    ShuntCons("(", tx + ([")"] + rest), Shunt(out, st + ["!"]));
    AppendPair(st, "!", "(");
    StepClose(out + ex, st + ["!"], px);
    ShuntCons(")", rest, Shunt(out + ex, st + ["!"] + ["("] + px));
    Assoc(out, ex, Reversed(px));
  }

  lemma RegroupNot(tx: seq<string>, rest: seq<string>)
    ensures ["!", "("] + tx + [")"] + rest == ["!"] + (["("] + (tx + ([")"] + rest)))
  {
  }

  lemma RegroupBinary(tl: seq<string>, op: string, tr: seq<string>, rest: seq<string>)
    ensures ["("] + tl + [op] + tr + [")"] + rest == ["("] + (tl + ([op] + (tr + ([")"] + rest))))
  {
  }

  /** The shunting yard on `( l op r )`, given how it treats each operand and what follows it. */
  lemma ShuntBinaryShape(tl: seq<string>, op: string, tr: seq<string>, el: seq<string>, pl: seq<string>,
                         er: seq<string>, pr: seq<string>, e: seq<string>,
                         out: seq<string>, st: seq<string>, rest: seq<string>)
    requires op in BinaryOperators
    requires pl == [] || pl == ["!"]
    requires pr == [] || pr == ["!"]
    requires e == el + (pl + er + Reversed(pr) + [op])
    requires ShuntRun(tl + ([op] + (tr + ([")"] + rest))), Shunt(out, st + ["("]))
          == ShuntRun([op] + (tr + ([")"] + rest)), Shunt(out + el, st + ["("] + pl))
    requires ShuntRun(tr + ([")"] + rest), Shunt(out + el + pl, st + ["(", op]))
          == ShuntRun([")"] + rest, Shunt(out + el + pl + er, st + ["(", op] + pr))
    ensures ShuntRun(["("] + tl + [op] + tr + [")"] + rest, Shunt(out, st)) == ShuntRun(rest, Shunt(out + e, st))
  {
    var after := [op] + (tr + ([")"] + rest));
    RegroupBinary(tl, op, tr, rest);
    StepOpen(out, st);
    ShuntCons("(", tl + after, Shunt(out, st));
    var e' := pl + er + Reversed(pr) + [op];
    ShuntAfterLeft(op, tr, er, pr, e', out + el, st, pl, rest);
    Assoc(out, el, e');
  }

  /** The shunting yard on what follows the left operand: `op r )`. */
  lemma ShuntAfterLeft(op: string, tr: seq<string>, er: seq<string>, pr: seq<string>, e: seq<string>,
                       o: seq<string>, st: seq<string>, pl: seq<string>, rest: seq<string>)
    requires op in BinaryOperators
    requires pl == [] || pl == ["!"]
    requires pr == [] || pr == ["!"]
    requires e == pl + er + Reversed(pr) + [op]
    requires ShuntRun(tr + ([")"] + rest), Shunt(o + pl, st + ["(", op]))
          == ShuntRun([")"] + rest, Shunt(o + pl + er, st + ["(", op] + pr))
    ensures ShuntRun([op] + (tr + ([")"] + rest)), Shunt(o, st + ["("] + pl)) == ShuntRun(rest, Shunt(o + e, st))
  {
    ShuntOperator(op, tr + ([")"] + rest), o, st, pl);
    ShuntClose(op, pr, o + pl + er, st, rest);
    OutputAfterBinary(o, pl, er, pr, op, e);
  }

  /** A binary operator after a left operand: a pending `!` is emitted, the operator pushed. */
  lemma ShuntOperator(op: string, ts: seq<string>, o: seq<string>, st: seq<string>, pl: seq<string>)
    requires op in BinaryOperators
    requires pl == [] || pl == ["!"]
    ensures ShuntRun([op] + ts, Shunt(o, st + ["("] + pl)) == ShuntRun(ts, Shunt(o + pl, st + ["(", op]))
  {
    StepBinary(op, o, st, pl);
    ShuntCons(op, ts, Shunt(o, st + ["("] + pl));
  }

  /** The closing `)` of a binary node: the operator and a pending `!` go to the output. */
  lemma ShuntClose(op: string, pr: seq<string>, o: seq<string>, st: seq<string>, rest: seq<string>)
    requires op in BinaryOperators
    requires pr == [] || pr == ["!"]
    ensures ShuntRun([")"] + rest, Shunt(o, st + ["(", op] + pr)) == ShuntRun(rest, Shunt(o + Reversed([op] + pr), st))
  {
    var above := [op] + pr;
    RegroupAbove(st, op, pr);
    StepClose(o, st, above);
    ShuntCons(")", rest, Shunt(o, st + ["("] + above));
  }

  lemma RegroupAbove(st: seq<string>, op: string, pr: seq<string>)
    ensures st + ["(", op] + pr == st + ["("] + ([op] + pr)
  {
  }

  lemma OutputAfterBinary(o: seq<string>, pl: seq<string>, er: seq<string>, pr: seq<string>, op: string, e: seq<string>)
    requires pr == [] || pr == ["!"]
    requires e == pl + er + Reversed(pr) + [op]
    ensures o + pl + er + Reversed([op] + pr) == o + e
  {
    PendingReversed(pr);
    if pr == ["!"] {
      assert Reversed([op] + pr) == ["!", op];
    } else {
      assert Reversed([op] + pr) == [op];
    }
  }

  // ---------------------------------------------------------------------
  // Stage 3: building the tree from the postfix form
  // ---------------------------------------------------------------------

  lemma BuildCons(t: string, ts: seq<string>, stack: seq<Formula>)
    requires BuildStep(stack, t).Ok?
    ensures BuildRun([t] + ts, stack) == BuildRun(ts, BuildStep(stack, t).value)
  {
    assert ([t] + ts)[0] == t && ([t] + ts)[1..] == ts;
  }

  /** Building from `Postfix(f)` pushes exactly `f`. */
  lemma {:induction false} BuildPostfix(f: Formula, stack: seq<Formula>, rest: seq<string>)
    requires WellNamed(f)
    ensures BuildRun(Postfix(f) + rest, stack) == BuildRun(rest, stack + [f])
    decreases f, 1
  {
    if IsLeaf(f) {
      if f.Atom? { IdentIsOperand(f.name); }
      assert Operand(LeafToken(f)) == f;
      BuildCons(LeafToken(f), rest, stack);
    } else if f.Not? {
      BuildPostfixNot(f, stack, rest);
    } else {
      BuildPostfixBinary(f, stack, rest);
    }
  }

  lemma {:induction false} BuildPostfixNot(f: Formula, stack: seq<Formula>, rest: seq<string>)
    requires f.Not? && WellNamed(f)
    ensures BuildRun(Postfix(f) + rest, stack) == BuildRun(rest, stack + [f])
    decreases f, 0
  {
    BuildPostfix(f.left, stack, ["!"] + rest);
    assert Postfix(f) + rest == Postfix(f.left) + (["!"] + rest);
    BuildNot(f.left, stack, rest);
  }

  lemma {:induction false} BuildPostfixBinary(f: Formula, stack: seq<Formula>, rest: seq<string>)
    requires IsBinary(f) && WellNamed(f)
    ensures BuildRun(Postfix(f) + rest, stack) == BuildRun(rest, stack + [f])
    decreases f, 0
  {
    var op := OpToken(f);
    var pl, pr := Postfix(f.left), Postfix(f.right);
    BuildPostfix(f.left, stack, pr + ([op] + rest));
    BuildPostfix(f.right, stack + [f.left], [op] + rest);
    Assoc4(pl, pr, [op], rest);
    BuildBinary(op, f.left, f.right, stack, rest);
  }

  lemma BuildNot(x: Formula, stack: seq<Formula>, rest: seq<string>)
    ensures BuildRun(["!"] + rest, stack + [x]) == BuildRun(rest, stack + [Not(x)])
  {
    BuildCons("!", rest, stack + [x]);
    assert (stack + [x])[..|stack|] == stack;
  }

  lemma Assoc4(a: seq<string>, b: seq<string>, c: seq<string>, d: seq<string>)
    ensures a + b + c + d == a + (b + (c + d))
  {
  }

  lemma BuildBinary(op: string, l: Formula, r: Formula, stack: seq<Formula>, rest: seq<string>)
    requires op in BinaryOperators
    ensures BuildRun([op] + rest, stack + [l] + [r]) == BuildRun(rest, stack + [MakeBinary(op, l, r)])
  {
    var s := stack + [l] + [r];
    assert s[..|s| - 2] == stack && s[|s| - 2] == l && s[|s| - 1] == r;
    BuildCons(op, rest, s);
  }

  // ---------------------------------------------------------------------
  // The round trips
  // ---------------------------------------------------------------------

  /** `parse_formula(str(f))` rebuilds `f` when every atom name is an identifier. */
  lemma ParsePrinted(f: Formula)
    requires WellNamed(f)
    ensures Parse(Formulas.ToString(f)) == Ok(f)
  {
    TokenizeWhole(f);
    PostfixOfTokens(f);
    BuildWhole(f);
  }

  lemma TokenizeWhole(f: Formula)
    requires WellNamed(f)
    ensures Tokenize(Formulas.ToString(f)) == Tokens(f)
  {
    TokenizePrinted(f, "");
    assert Formulas.ToString(f) + "" == Formulas.ToString(f);
    assert Tokenize("") == [];
    assert Tokens(f) + [] == Tokens(f);
  }

  lemma PostfixOfTokens(f: Formula)
    requires WellNamed(f)
    ensures ToPostfix(Tokens(f)) == Ok(Postfix(f))
  {
    ShuntPrinted(f, [], [], []);
    assert Tokens(f) + [] == Tokens(f);
    assert [] + Emitted(f) == Emitted(f) && [] + Pending(f) == Pending(f);
    assert ShuntRun(Tokens(f), Shunt([], [])) == Ok(Shunt(Emitted(f), Pending(f)));
    PendingBeforeClose(f);
  }

  lemma BuildWhole(f: Formula)
    requires WellNamed(f)
    ensures BuildFormula(Postfix(f)) == Ok(f)
  {
    BuildPostfix(f, [], []);
    assert Postfix(f) + [] == Postfix(f);
    assert [] + [f] == [f];
  }

  /** A printed formula starts and ends with a non-whitespace character. */
  lemma PrintedEnds(f: Formula)
    requires WellNamed(f)
    ensures Formulas.ToString(f) != []
    ensures !IsSpace(Formulas.ToString(f)[0]) && !IsSpace(Formulas.ToString(f)[|Formulas.ToString(f)| - 1])
  {
    match f
    case Atom(n) => assert IsIdentChar(n[0]) && IsIdentChar(n[|n| - 1]);
    case True =>
    case False =>
    case Not(x) => NotEnds(Formulas.ToString(x));
    case And(l, r) => BinaryEnds(Formulas.ToString(l), " && ", Formulas.ToString(r));
    case Or(l, r) => BinaryEnds(Formulas.ToString(l), " || ", Formulas.ToString(r));
    case Implies(l, r) => BinaryEnds(Formulas.ToString(l), " => ", Formulas.ToString(r));
    case Iff(l, r) => BinaryEnds(Formulas.ToString(l), " <=> ", Formulas.ToString(r));
  }

  lemma NotEnds(x: string)
    ensures ("!(" + x + ")")[0] == '!'
    ensures ("!(" + x + ")")[|"!(" + x + ")"| - 1] == ')'
  {
  }

  lemma BinaryEnds(l: string, m: string, r: string)
    ensures ("(" + l + m + r + ")")[0] == '('
    ensures ("(" + l + m + r + ")")[|"(" + l + m + r + ")"| - 1] == ')'
  {
  }

  lemma ParseAllPrinted(fs: seq<Formula>)
    requires forall i :: 0 <= i < |fs| ==> WellNamed(fs[i])
    ensures NonBlankLines(Lines(fs)) == Lines(fs)
    ensures ParseAll(Lines(fs)) == Ok(fs)
  {
    var ls := Lines(fs);
    forall i | 0 <= i < |ls| ensures ls[i] != [] && Strip(ls[i]) == ls[i] && Parse(ls[i]) == Ok(fs[i]) {
      PrintedEnds(fs[i]);
      ParsePrinted(fs[i]);
    }
    KeptLines(ls);
    ParsedLines(ls, fs);
  }

  lemma {:induction false} JoinEnds(xs: seq<string>)
    requires xs != [] && forall k :: 0 <= k < |xs| ==> xs[k] != []
    ensures Join(xs, '\n') != []
    ensures Join(xs, '\n')[0] == xs[0][0]
    ensures Join(xs, '\n')[|Join(xs, '\n')| - 1] == xs[|xs| - 1][|xs[|xs| - 1]| - 1]
  {
    if |xs| > 1 {
      JoinEnds(xs[1..]);
    }
  }

  /** Reading `str(kb)` gives back the knowledge base's formulas, in order. */
  lemma ParseKbPrinted(kb: Kb)
    requires forall i :: 0 <= i < |kb.formulas| ==> WellNamed(kb.formulas[i])
    ensures ParseKb(kb.ToString()) == Ok(kb.formulas)
  {
    var ls := Lines(kb.formulas);
    var s := kb.ToString();
    if ls != [] {
      forall k | 0 <= k < |ls| ensures ls[k] != [] { PrintedEnds(kb.formulas[k]); }
      JoinEnds(ls);
      PrintedEnds(kb.formulas[0]);
      PrintedEnds(kb.formulas[|ls| - 1]);
    }
    assert Strip(s) == s;
    KbLines(kb);
    ParseAllPrinted(kb.formulas);
  }
}
