/**
 * The answer-set program generator for a knowledge base of clause lists:
 * atom declarations, the facts describing formulas, clauses and literals,
 * and the fixed rule block, laid out as one program text.
 */
module AspProgram {
  import opened Clauses
  import opened Text

  /** A formula as a list of clauses of signed atom numbers. */
  type ClauseList = seq<seq<int>>

  // ---------------------------------------------------------------------
  // Atoms
  // ---------------------------------------------------------------------

  function FormulaAtoms(f: ClauseList): set<nat>
  {
    if f == [] then {} else FormulaAtoms(f[..|f| - 1]) + ClauseVars(f[|f| - 1])
  }

  function KbAtoms(kb: seq<ClauseList>): set<nat>
  {
    if kb == [] then {} else KbAtoms(kb[..|kb| - 1]) + FormulaAtoms(kb[|kb| - 1])
  }

  /** Literal `j` of clause `i` of formula `n` exists and has the atom `a`. */
  predicate HasLiteral(kb: seq<ClauseList>, n: int, i: int, j: int)
  {
    0 <= n < |kb| && 0 <= i < |kb[n]| && 0 <= j < |kb[n][i]|
  }

  predicate Ascending(r: seq<nat>)
  {
    forall i, j :: 0 <= i < j < |r| ==> r[i] < r[j]
  }

  predicate IsMin(m: nat, s: set<nat>)
  {
    m in s && forall y :: y in s ==> m <= y
  }

  lemma {:induction false} HasMin(s: set<nat>)
    requires s != {}
    ensures exists m :: IsMin(m, s)
    decreases s
  {
    var x :| x in s;
    if s - {x} == {} {
      assert s == {x};
      assert IsMin(x, s);
    } else {
      HasMin(s - {x});
      var m :| IsMin(m, s - {x});
      var least := if x < m then x else m;
      forall y | y in s
        ensures least <= y
      {
        if y != x {
          assert y in s - {x};
        }
      }
      assert IsMin(least, s);
    }
  }

  /** The least element of a non-empty set. */
  function MinOf(s: set<nat>): (m: nat)
    requires s != {}
    ensures IsMin(m, s)
  {
    HasMin(s);
    var m :| IsMin(m, s);
    m
  }

  /** `sorted(s)` for a set of naturals: ascending, each element once. */
  function SortedNats(s: set<nat>): (r: seq<nat>)
    ensures Ascending(r)
    ensures forall x :: x in r <==> x in s
    ensures |r| == |s|
    decreases s
  {
    if s == {} then []
    else
      var m := MinOf(s);
      var rest := SortedNats(s - {m});
      assert forall i :: 0 <= i < |rest| ==> m < rest[i] by {
        forall i | 0 <= i < |rest|
          ensures m < rest[i]
        {
          assert rest[i] in s - {m};
        }
      }
      [m] + rest
  }

  // ---------------------------------------------------------------------
  // Facts
  // ---------------------------------------------------------------------

  /**
   * One fact of the knowledge-base section. Formula `n` is named `f<n>`,
   * clause `i` of a formula `k<i>`, and the negation of atom `a` `neg_<a>`.
   */
  datatype Fact =
    | FormulaFact(formula: nat)
    | KlauselFact(formula: nat, klausel: nat)
    | NegAtomFact(atom: nat)
    | InKlausel(formula: nat, klausel: nat, negated: bool, atom: nat)

  /** The facts one literal of clause `i` of formula `n` contributes. */
  function LiteralFacts(n: nat, i: nat, l: int): seq<Fact>
  {
    if l < 0 then [NegAtomFact(Abs(l)), InKlausel(n, i, true, Abs(l))]
    else [InKlausel(n, i, false, Abs(l))]
  }

  function LiteralsFacts(n: nat, i: nat, c: seq<int>): seq<Fact>
  {
    if c == [] then [] else LiteralsFacts(n, i, c[..|c| - 1]) + LiteralFacts(n, i, c[|c| - 1])
  }

  /** The facts of clause `i` of formula `n`: its own fact, then its literals. */
  function ClauseFacts(n: nat, i: nat, c: seq<int>): seq<Fact>
  {
    [KlauselFact(n, i)] + LiteralsFacts(n, i, c)
  }

  function ClausesFacts(n: nat, f: ClauseList): seq<Fact>
  {
    if f == [] then [] else ClausesFacts(n, f[..|f| - 1]) + ClauseFacts(n, |f| - 1, f[|f| - 1])
  }

  function FormulaFacts(n: nat, f: ClauseList): seq<Fact>
  {
    [FormulaFact(n)] + ClausesFacts(n, f)
  }

  /** The facts of the whole knowledge base, formula by formula in input order. */
  function KbFacts(kb: seq<ClauseList>): seq<Fact>
  {
    if kb == [] then [] else KbFacts(kb[..|kb| - 1]) + FormulaFacts(|kb| - 1, kb[|kb| - 1])
  }

  // ---------------------------------------------------------------------
  // Program text
  // ---------------------------------------------------------------------

  /** The line stating a fact. */
  function Render(fact: Fact): string
  {
    match fact
    case FormulaFact(n) => "formula(f" + (NatToString(n) + ").")
    case KlauselFact(n, i) => "klausel(f" + (NatToString(n) + (", k" + (NatToString(i) + ").")))
    case NegAtomFact(a) => "neg_atom(" + (NatToString(a) + (", neg_" + (NatToString(a) + ").")))
    case InKlausel(n, i, negated, a) =>
      "in_klausel(f" + (NatToString(n) + (", k" + (NatToString(i) + (", " + (LiteralName(negated, a) + ").")))))
  }

  /** How a literal is named in the program: `a`, or `neg_a` for the negation of `a`. */
  function LiteralName(negated: bool, a: nat): string
  {
    if negated then "neg_" + NatToString(a) else NatToString(a)
  }

  function RenderAll(facts: seq<Fact>): (lines: seq<string>)
    ensures |lines| == |facts|
    ensures forall k :: 0 <= k < |facts| ==> lines[k] == Render(facts[k])
  {
    if facts == [] then [] else [Render(facts[0])] + RenderAll(facts[1..])
  }

  const DeclHeader := "% Deklaration der Atome\n"

  function AtomDecl(a: nat): string
  {
    "atom(" + NatToString(a) + ").\n"
  }

  function AtomDecls(atoms: seq<nat>): string
  {
    if atoms == [] then "" else AtomDecls(atoms[..|atoms| - 1]) + AtomDecl(atoms[|atoms| - 1])
  }

  /** The choice of exactly one of t, f, b for each atom. */
  const ValueRules :=
    "% M\U{00F6}gliche Wahrheitswerte f\U{00FC}r jedes Atom: true (t), false (f), both (b)\n"
    + "{ val(A, t) } :- atom(A), not val(A, f), not val(A, b).\n"
    + "{ val(A, f) } :- atom(A), not val(A, t), not val(A, b).\n"
    + "{ val(A, b) } :- atom(A), not val(A, t), not val(A, f).\n\n"

  const KbHeader := "% Definition der Wissensbasis (Formeln und Klauseln)\n"

  /**
   * Satisfaction of literals, clauses and formulas, the constraint that every
   * formula is satisfied, the formulas counted as inconsistent, the objective
   * and the shown predicates.
   */
  const RuleBlock :=
    "% Eine Klausel ist erf\U{00FC}llt, wenn mindestens ein Literal in ihr wahr ist\n"
    + "klausel_erfuellt(F, K) :- klausel(F, K), in_klausel(F, K, L), literal_satisfied(L).\n\n"
    + "% Eine Formel ist erf\U{00FC}llt, wenn alle ihre Klauseln erf\U{00FC}llt sind\n"
    + "erfuellt(F, K) :- formula(F), klausel(F, K), klausel_erfuellt(F, K).\n"
    + "formel_erfuellt(F) :- formula(F), not not erfuellt(F, K) : klausel(F, K).\n\n"
    + "% Ein Literal ist erf\U{00FC}llt:\n"
    + "literal_satisfied(A) :- val(A, t).\n"
    + "literal_satisfied(A) :- val(A, b).\n"
    + "literal_satisfied(N) :- neg_atom(B, N), val(B, f).\n"
    + "literal_satisfied(N) :- neg_atom(B, N), val(B, b).\n\n"
    + "% Alle Formeln m\U{00FC}ssen erf\U{00FC}llt sein\n"
    + ":- formula(F), not formel_erfuellt(F).\n\n"
    + "% Eine Formel ist inkonsistent, wenn sie ein Atom mit dem Wert both enth\U{00E4}lt\n"
    + "f_inconsistent(F) :- formula(F), in_klausel(F, K, A), val(A, b), not neg_atom(_, A).\n"
    + "f_inconsistent(F) :- formula(F), in_klausel(F, K, N), neg_atom(A, N), val(A, b).\n\n"
    + "#minimize { 1 : f_inconsistent(F) }.\n\n"
    + "both(A) :- val(A, b).\n\n"
    + "#show val/2.\n"
    + "#show formel_erfuellt/1.\n"
    + "#show f_inconsistent/1.\n"
    + "#show both/1.\n"

  /** The facts of the knowledge base, one per line, and an empty line. */
  function KbSection(kb: seq<ClauseList>): string
  {
    Join(RenderAll(KbFacts(kb)), '\n') + "\n\n"
  }

  /** The whole program: declarations, value rules, facts, then the fixed rules. */
  function ProgramText(kb: seq<ClauseList>): string
  {
    DeclHeader + AtomDecls(SortedNats(KbAtoms(kb))) + "\n" + ValueRules
    + KbHeader + KbSection(kb) + RuleBlock
  }

  // ---------------------------------------------------------------------
  // The generator
  // ---------------------------------------------------------------------

  /** Collects the atom of every literal of every clause of every formula. */
  method CollectAtoms(kb: seq<ClauseList>) returns (atome: set<nat>)
    ensures atome == KbAtoms(kb)
  {
    atome := {};
    for n := 0 to |kb|
      invariant atome == KbAtoms(kb[..n])
    {
      for i := 0 to |kb[n]|
        invariant atome == KbAtoms(kb[..n]) + FormulaAtoms(kb[n][..i])
      {
        for j := 0 to |kb[n][i]|
          invariant atome == KbAtoms(kb[..n]) + FormulaAtoms(kb[n][..i]) + ClauseVars(kb[n][i][..j])
        {
          ClauseVarsSnoc(kb[n][i][..j], kb[n][i][j]);
          assert kb[n][i][..j + 1] == kb[n][i][..j] + [kb[n][i][j]];
          atome := atome + {Abs(kb[n][i][j])};
        }
        assert kb[n][i][..|kb[n][i]|] == kb[n][i];
        assert kb[n][..i + 1][..i] == kb[n][..i];
      }
      assert kb[n][..|kb[n]|] == kb[n];
      assert kb[..n + 1][..n] == kb[..n];
    }
    assert kb[..|kb|] == kb;
  }

  /** Appends the facts of the literals of clause `i` of formula `n`. */
  method AddLiteralRules(rules0: seq<Fact>, n: nat, i: nat, klausel: seq<int>) returns (rules: seq<Fact>)
    ensures rules == rules0 + LiteralsFacts(n, i, klausel)
  {
    rules := rules0;
    for j := 0 to |klausel|
      invariant rules == rules0 + LiteralsFacts(n, i, klausel[..j])
    {
      var literal := klausel[j];
      var atom := Abs(literal);
      if literal < 0 {
        rules := rules + [NegAtomFact(atom)];
        rules := rules + [InKlausel(n, i, true, atom)];
      } else {
        rules := rules + [InKlausel(n, i, false, atom)];
      }
      assert klausel[..j + 1][..j] == klausel[..j];
    }
    assert klausel[..|klausel|] == klausel;
  }

  /** Appends the facts of every clause of formula `n`. */
  method AddClauseRules(rules0: seq<Fact>, n: nat, formel: ClauseList) returns (rules: seq<Fact>)
    ensures rules == rules0 + ClausesFacts(n, formel)
  {
    rules := rules0;
    for i := 0 to |formel|
      invariant rules == rules0 + ClausesFacts(n, formel[..i])
    {
      ghost var before := rules;
      rules := rules + [KlauselFact(n, i)];
      rules := AddLiteralRules(rules, n, i, formel[i]);
      assert formel[..i + 1][..i] == formel[..i];
      assert ClausesFacts(n, formel[..i + 1]) == ClausesFacts(n, formel[..i]) + ClauseFacts(n, i, formel[i]);
      AppendAssoc(before, [KlauselFact(n, i)], LiteralsFacts(n, i, formel[i]));
      AppendAssoc(rules0, ClausesFacts(n, formel[..i]), ClauseFacts(n, i, formel[i]));
    }
    assert formel[..|formel|] == formel;
  }

  /** The facts of every formula, clause and literal, in input order. */
  method KbRules(kb: seq<ClauseList>) returns (rules: seq<Fact>)
    ensures rules == KbFacts(kb)
  {
    rules := [];
    var formulaCounter: nat := 0;
    for n := 0 to |kb|
      invariant formulaCounter == n
      invariant rules == KbFacts(kb[..n])
    {
      var formulaId := formulaCounter;
      ghost var before := rules;
      rules := rules + [FormulaFact(formulaId)];
      rules := AddClauseRules(rules, formulaId, kb[n]);
      assert kb[..n + 1][..n] == kb[..n];
      assert KbFacts(kb[..n + 1]) == KbFacts(kb[..n]) + FormulaFacts(n, kb[n]);
      AppendAssoc(before, [FormulaFact(n)], ClausesFacts(n, kb[n]));
      formulaCounter := formulaCounter + 1;
    }
    assert kb[..|kb|] == kb;
  }

  /** Appends one declaration per atom, in the order given. */
  method AddAtomDecls(code0: string, atoms: seq<nat>) returns (code: string)
    ensures code == code0 + AtomDecls(atoms)
  {
    code := code0;
    for k := 0 to |atoms|
      invariant code == code0 + AtomDecls(atoms[..k])
    {
      assert atoms[..k + 1][..k] == atoms[..k];
      AppendAssoc(code0, AtomDecls(atoms[..k]), AtomDecl(atoms[k]));
      code := code + AtomDecl(atoms[k]);
    }
    assert atoms[..|atoms|] == atoms;
  }

  /** `generate_asp_code`: the program text for a knowledge base. */
  method GenerateAspCode(kb: seq<ClauseList>) returns (aspCode: string)
    ensures aspCode == ProgramText(kb)
  {
    var atome := CollectAtoms(kb);
    aspCode := DeclHeader;
    aspCode := AddAtomDecls(aspCode, SortedNats(atome));
    aspCode := aspCode + "\n";
    aspCode := aspCode + ValueRules;
    aspCode := aspCode + KbHeader;
    var rules := KbRules(kb);
    aspCode := aspCode + (Join(RenderAll(rules), '\n') + "\n\n");
    aspCode := aspCode + RuleBlock;
  }
}
