/**
 * The knowledge base: an ordered list of formulas, where a formula's id is
 * its position. Only `Add` changes the list; the other members read it.
 */
module Knowledge {
  import opened Formulas
  import opened Text

  class Kb {
    var formulas: seq<Formula>

    constructor()
      ensures formulas == []
    {
      formulas := [];
    }

    /** Appends at the end; earlier formulas keep their positions. */
    method Add(f: Formula)
      modifies this
      ensures formulas == old(formulas) + [f]
      ensures forall i :: 0 <= i < |old(formulas)| ==> formulas[i] == old(formulas)[i]
    {
      formulas := formulas + [f];
    }

    /** The formulas in insertion order. */
    function GetFormulas(): (r: seq<Formula>)
      reads this
      ensures |r| == |formulas| && forall i :: 0 <= i < |r| ==> r[i] == formulas[i]
    {
      formulas
    }

    /**
     * The formula-wise CNF: position i holds the CNF of formula i, with the
     * same atoms and the same truth value under every assignment.
     */
    function ToCnf(): (r: seq<Formula>)
      reads this
      ensures |r| == |formulas|
      ensures forall i :: 0 <= i < |r| ==> IsCnf(r[i]) && Atoms(r[i]) == Atoms(formulas[i])
      ensures forall i :: 0 <= i < |r| ==> HasConstant(r[i]) == HasConstant(formulas[i])
      ensures forall i, v :: 0 <= i < |r| ==> Eval(r[i], v) == Eval(formulas[i], v)
    {
      var fs := formulas;
      CnfAll(fs);
      seq(|fs|, i requires 0 <= i < |fs| => Formulas.ToCnf(fs[i]))
    }

    /** Per formula, its atoms in ascending order, each once. */
    function AtomsPerFormula(): (r: seq<seq<string>>)
      reads this
      ensures |r| == |formulas|
      ensures forall i :: 0 <= i < |r| ==> StrictlySorted(r[i])
      ensures forall i, x :: 0 <= i < |r| ==> (x in r[i] <==> x in Atoms(formulas[i]))
    {
      var fs := formulas;
      seq(|fs|, i requires 0 <= i < |fs| => SortedSet(Atoms(fs[i])))
    }

    /** One printed formula per line. */
    function ToString(): (s: string)
      reads this
    {
      Join(Lines(formulas), '\n')
    }
  }

  /** The printed form of each formula. */
  function Lines(fs: seq<Formula>): (r: seq<string>)
    ensures |r| == |fs| && forall i :: 0 <= i < |r| ==> r[i] == Formulas.ToString(fs[i])
  {
    seq(|fs|, i requires 0 <= i < |fs| => Formulas.ToString(fs[i]))
  }

  lemma CnfAll(fs: seq<Formula>)
    ensures forall i :: 0 <= i < |fs| ==>
      IsCnf(Formulas.ToCnf(fs[i])) && Atoms(Formulas.ToCnf(fs[i])) == Atoms(fs[i])
      && HasConstant(Formulas.ToCnf(fs[i])) == HasConstant(fs[i])
    ensures forall i, v :: 0 <= i < |fs| ==> Eval(Formulas.ToCnf(fs[i]), v) == Eval(fs[i], v)
  {
    forall i, v | 0 <= i < |fs| ensures IsCnf(Formulas.ToCnf(fs[i])) && Atoms(Formulas.ToCnf(fs[i])) == Atoms(fs[i])
      && Eval(Formulas.ToCnf(fs[i]), v) == Eval(fs[i], v)
    {
      ToCnfCorrect(fs[i], v);
    }
    forall i | 0 <= i < |fs| ensures IsCnf(Formulas.ToCnf(fs[i])) && Atoms(Formulas.ToCnf(fs[i])) == Atoms(fs[i])
      && HasConstant(Formulas.ToCnf(fs[i])) == HasConstant(fs[i])
    {
      ToCnfCorrect(fs[i], {});
    }
  }

  /** The sorted atom lists are the only ones with their properties. */
  lemma AtomsPerFormulaUnique(kb: Kb, lists: seq<seq<string>>)
    requires |lists| == |kb.formulas|
    requires forall i :: 0 <= i < |lists| ==> StrictlySorted(lists[i])
    requires forall i, x :: 0 <= i < |lists| ==> (x in lists[i] <==> x in Atoms(kb.formulas[i]))
    ensures lists == kb.AtomsPerFormula()
  {
    var r := kb.AtomsPerFormula();
    forall i | 0 <= i < |lists| ensures lists[i] == r[i] {
      StrictlySortedUnique(lists[i], r[i]);
    }
  }

  /** A printed formula is a non-empty text without line breaks. */
  lemma {:induction false} PrintedIsOneLine(f: Formula)
    requires WellNamed(f)
    ensures Formulas.ToString(f) != [] && !HasLineBreak(Formulas.ToString(f))
    decreases f, 1
  {
    match f
    case Atom(n) =>
      forall k | 0 <= k < |n| ensures !IsLineBreak(n[k]) {
        assert IsIdentChar(n[k]);
      }
    case True =>
    case False =>
    case Not(x) =>
      PrintedIsOneLine(x);
      NoBreakConcat("!(", Formulas.ToString(x));
      NoBreakConcat("!(" + Formulas.ToString(x), ")");
    case And(l, r) => PrintedBinaryIsOneLine(f, l, " && ", r);
    case Or(l, r) => PrintedBinaryIsOneLine(f, l, " || ", r);
    case Implies(l, r) => PrintedBinaryIsOneLine(f, l, " => ", r);
    case Iff(l, r) => PrintedBinaryIsOneLine(f, l, " <=> ", r);
  }

  lemma {:induction false} PrintedBinaryIsOneLine(parent: Formula, l: Formula, op: string, r: Formula)
    requires IsBinary(parent) && parent.left == l && parent.right == r
    requires WellNamed(l) && WellNamed(r)
    requires !HasLineBreak(op)
    ensures !HasLineBreak("(" + Formulas.ToString(l) + op + Formulas.ToString(r) + ")")
    decreases parent, 0
  {
    PrintedIsOneLine(l);
    PrintedIsOneLine(r);
    NoBreakConcat("(", Formulas.ToString(l));
    NoBreakConcat("(" + Formulas.ToString(l), op);
    NoBreakConcat("(" + Formulas.ToString(l) + op, Formulas.ToString(r));
    NoBreakConcat("(" + Formulas.ToString(l) + op + Formulas.ToString(r), ")");
  }

  lemma NoBreakConcat(a: string, b: string)
    requires !HasLineBreak(a) && !HasLineBreak(b)
    ensures !HasLineBreak(a + b)
  {
    forall k | 0 <= k < |a + b| ensures !IsLineBreak((a + b)[k]) {
      if k < |a| { assert (a + b)[k] == a[k]; } else { assert (a + b)[k] == b[k - |a|]; }
    }
  }

  /** `str(kb)` has exactly one line per formula, each its printed form. */
  lemma KbLines(kb: Kb)
    requires forall i :: 0 <= i < |kb.formulas| ==> WellNamed(kb.formulas[i])
    ensures SplitLines(kb.ToString()) == Lines(kb.formulas)
  {
    var ls := Lines(kb.formulas);
    forall k | 0 <= k < |ls| ensures ls[k] != [] && !HasLineBreak(ls[k]) {
      PrintedIsOneLine(kb.formulas[k]);
    }
    SplitLinesJoin(ls);
  }
}

