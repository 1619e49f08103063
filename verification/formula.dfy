/**
 * Propositional formula trees and the naive four-pass CNF rewriting
 * (IFF elimination, IMPLIES elimination, pushing NOT inward, distributing
 * OR over AND), atom collection and the fully parenthesised printer.
 */
module Formulas {

  /** A formula node; the tag of the source's `FormulaType` is the constructor. */
  datatype Formula =
    | Atom(name: string)
    | True
    | False
    | Not(left: Formula)
    | And(left: Formula, right: Formula)
    | Or(left: Formula, right: Formula)
    | Implies(left: Formula, right: Formula)
    | Iff(left: Formula, right: Formula)

  function Size(f: Formula): nat
  {
    match f
    case Not(x) => 1 + Size(x)
    case And(l, r) => 1 + Size(l) + Size(r)
    case Or(l, r) => 1 + Size(l) + Size(r)
    case Implies(l, r) => 1 + Size(l) + Size(r)
    case Iff(l, r) => 1 + Size(l) + Size(r)
    case _ => 1
  }

  /** Both nodes carry the same tag (the source's `FormulaType`). */
  predicate SameTag(f: Formula, g: Formula)
  {
    && f.Atom? == g.Atom? && f.True? == g.True? && f.False? == g.False?
    && f.Not? == g.Not? && f.And? == g.And? && f.Or? == g.Or?
    && f.Implies? == g.Implies? && f.Iff? == g.Iff?
  }

  predicate IsBinary(f: Formula)
  {
    f.And? || f.Or? || f.Implies? || f.Iff?
  }

  // ---------------------------------------------------------------------
  // Classical two-valued meaning, and the normal forms
  // ---------------------------------------------------------------------

  /** Classical truth value of `f` when exactly the atoms in `v` are true. */
  function Eval(f: Formula, v: set<string>): bool
  {
    match f
    case Atom(n) => n in v
    case True => true
    case False => false
    case Not(x) => !Eval(x, v)
    case And(l, r) => Eval(l, v) && Eval(r, v)
    case Or(l, r) => Eval(l, v) || Eval(r, v)
    case Implies(l, r) => !Eval(l, v) || Eval(r, v)
    case Iff(l, r) => Eval(l, v) == Eval(r, v)
  }

  predicate NoIff(f: Formula)
  {
    match f
    case Iff(_, _) => false
    case Not(x) => NoIff(x)
    case And(l, r) => NoIff(l) && NoIff(r)
    case Or(l, r) => NoIff(l) && NoIff(r)
    case Implies(l, r) => NoIff(l) && NoIff(r)
    case _ => true
  }

  predicate NoImplies(f: Formula)
  {
    match f
    case Implies(_, _) => false
    case Not(x) => NoImplies(x)
    case And(l, r) => NoImplies(l) && NoImplies(r)
    case Or(l, r) => NoImplies(l) && NoImplies(r)
    case Iff(l, r) => NoImplies(l) && NoImplies(r)
    case _ => true
  }

  predicate IsLeaf(f: Formula)
  {
    f.Atom? || f.True? || f.False?
  }

  /** Negation normal form: only NOT/AND/OR/leaves, every NOT directly on a leaf. */
  predicate IsNnf(f: Formula)
  {
    match f
    case Not(x) => IsLeaf(x)
    case And(l, r) => IsNnf(l) && IsNnf(r)
    case Or(l, r) => IsNnf(l) && IsNnf(r)
    case Implies(_, _) => false
    case Iff(_, _) => false
    case _ => true
  }

  predicate IsLiteral(f: Formula)
  {
    IsLeaf(f) || (f.Not? && IsLeaf(f.left))
  }

  /** A disjunction of literals. */
  predicate IsClause(f: Formula)
  {
    if f.Or? then IsClause(f.left) && IsClause(f.right) else IsLiteral(f)
  }

  /** A conjunction of clauses: in particular no AND node below an OR node. */
  predicate IsCnf(f: Formula)
  {
    if f.And? then IsCnf(f.left) && IsCnf(f.right) else IsClause(f)
  }

  /** True if the tree contains a TRUE or FALSE leaf. */
  predicate HasConstant(f: Formula)
  {
    match f
    case Atom(_) => false
    case True => true
    case False => true
    case Not(x) => HasConstant(x)
    case And(l, r) => HasConstant(l) || HasConstant(r)
    case Or(l, r) => HasConstant(l) || HasConstant(r)
    case Implies(l, r) => HasConstant(l) || HasConstant(r)
    case Iff(l, r) => HasConstant(l) || HasConstant(r)
  }

  // ---------------------------------------------------------------------
  // Atoms and sub-formulas
  // ---------------------------------------------------------------------

  /** The atom names occurring in `f`; TRUE and FALSE contribute none. */
  function Atoms(f: Formula): set<string>
  {
    match f
    case Atom(n) => {n}
    case True => {}
    case False => {}
    case Not(x) => Atoms(x)
    case And(l, r) => Atoms(l) + Atoms(r)
    case Or(l, r) => Atoms(l) + Atoms(r)
    case Implies(l, r) => Atoms(l) + Atoms(r)
    case Iff(l, r) => Atoms(l) + Atoms(r)
  }

  /** The direct children of a node, left before right. */
  function Subformulas(f: Formula): (r: seq<Formula>)
    ensures |r| == (if IsBinary(f) then 2 else if f.Not? then 1 else 0)
    ensures forall g :: g in r ==> Size(g) < Size(f)
    ensures IsBinary(f) ==> r == [f.left, f.right]
    ensures f.Not? ==> r == [f.left]
  {
    match f
    case And(l, r) => [l, r]
    case Or(l, r) => [l, r]
    case Implies(l, r) => [l, r]
    case Iff(l, r) => [l, r]
    case Not(x) => [x]
    case _ => []
  }

  function AtomsOfAll(fs: seq<Formula>): set<string>
  {
    if fs == [] then {} else Atoms(fs[0]) + AtomsOfAll(fs[1..])
  }

  /** A node's atoms are those of its children, plus its own name for an atom. */
  lemma AtomsFromSubformulas(f: Formula)
    ensures Atoms(f) == (if f.Atom? then {f.name} else {}) + AtomsOfAll(Subformulas(f))
  {
    var s := Subformulas(f);
    if IsBinary(f) {
      assert s[1..] == [f.right];
      assert AtomsOfAll(s[1..][1..]) == {};
    } else if f.Not? {
      assert AtomsOfAll(s[1..]) == {};
    }
  }

  // ---------------------------------------------------------------------
  // The four rewriting passes
  // ---------------------------------------------------------------------

  /** Replaces every `a <=> b` by `(a => b) && (b => a)`. */
  function EliminateIff(f: Formula): (r: Formula)
    ensures NoIff(r)
    ensures f.Iff? ==> r.And? && r.left.Implies? && r.right.Implies?
    ensures !f.Iff? ==> SameTag(f, r)
  {
    match f
    case Iff(l, r) =>
      var a := EliminateIff(l);
      var b := EliminateIff(r);
      And(Implies(a, b), Implies(b, a))
    case Implies(l, r) => Implies(EliminateIff(l), EliminateIff(r))
    case And(l, r) => And(EliminateIff(l), EliminateIff(r))
    case Or(l, r) => Or(EliminateIff(l), EliminateIff(r))
    case Not(x) => Not(EliminateIff(x))
    case _ => f
  }

  /**
   * Replaces every `a => b` by `!a || b`. An IFF node is returned as it is,
   * without looking inside.
   */
  function EliminateImplies(f: Formula): (r: Formula)
    ensures NoIff(f) ==> NoIff(r) && NoImplies(r)
    ensures f.Iff? ==> r == f
  {
    match f
    case Implies(l, r) => Or(Not(EliminateImplies(l)), EliminateImplies(r))
    case And(l, r) => And(EliminateImplies(l), EliminateImplies(r))
    case Or(l, r) => Or(EliminateImplies(l), EliminateImplies(r))
    case Not(x) => Not(EliminateImplies(x))
    case _ => f
  }

  /**
   * Moves NOT down to the leaves with De Morgan's laws; `!!x` becomes `x`.
   * IMPLIES and IFF nodes are returned as they are.
   */
  function PushNotInwards(f: Formula): (r: Formula)
    decreases Size(f)
    ensures NoIff(f) && NoImplies(f) ==> IsNnf(r)
  {
    match f
    case Not(inner) =>
      if inner.Not? then
        assert Size(inner) == 1 + Size(inner.left);
        assert NoIff(inner) == NoIff(inner.left) && NoImplies(inner) == NoImplies(inner.left);
        PushNotInwards(inner.left)
      else if inner.And? then
        assert Size(inner) == 1 + Size(inner.left) + Size(inner.right);
        assert NoIff(inner) == (NoIff(inner.left) && NoIff(inner.right));
        assert NoImplies(inner) == (NoImplies(inner.left) && NoImplies(inner.right));
        Or(PushNotInwards(Not(inner.left)), PushNotInwards(Not(inner.right)))
      else if inner.Or? then
        assert Size(inner) == 1 + Size(inner.left) + Size(inner.right);
        assert NoIff(inner) == (NoIff(inner.left) && NoIff(inner.right));
        assert NoImplies(inner) == (NoImplies(inner.left) && NoImplies(inner.right));
        And(PushNotInwards(Not(inner.left)), PushNotInwards(Not(inner.right)))
      else
        Not(PushNotInwards(inner))
    case And(l, r) => And(PushNotInwards(l), PushNotInwards(r))
    case Or(l, r) => Or(PushNotInwards(l), PushNotInwards(r))
    case _ => f
  }

  /** Multiplication on naturals, unfolded only by the lemmas below. */
  function Mul(x: nat, y: nat): nat
  {
    if x == 0 then 0 else y + Mul(x - 1, y)
  }

  lemma {:induction false} MulAddLeft(x: nat, z: nat, y: nat)
    ensures Mul(x + z, y) == Mul(x, y) + Mul(z, y)
    decreases x
  {
    if x > 0 {
      MulAddLeft(x - 1, z, y);
    }
  }

  lemma {:induction false} MulSuccRight(x: nat, y: nat)
    ensures Mul(x, y + 1) == Mul(x, y) + x
    decreases x
  {
    if x > 0 {
      MulSuccRight(x - 1, y);
    }
  }

  lemma {:induction false} MulAddRight(x: nat, y: nat, z: nat)
    ensures Mul(x, y + z) == Mul(x, y) + Mul(x, z)
    decreases x
  {
    if x > 0 {
      MulAddRight(x - 1, y, z);
    }
  }

  lemma {:induction false} MulMono(x: nat, xx: nat, y: nat, yy: nat)
    requires x <= xx && y <= yy
    ensures Mul(x, y) <= Mul(xx, yy)
    decreases xx
  {
    if xx > 0 {
      if x == xx {
        MulMono(x - 1, xx - 1, y, yy);
      } else {
        MulMono(x, xx - 1, y, yy);
      }
    }
  }

  lemma MulAtLeast(x: nat, y: nat)
    requires x >= 2 && y >= 2
    ensures Mul(x, y) >= 4 && Mul(x, y) > x && Mul(x, y) > y
  {
    MulMono(2, x, y, y);
    MulMono(x, x, 2, y);
    MulAddRight(x, 1, 1);
    MulSuccRight(x, 0);
    assert Mul(x, 0) == 0 by { MulZero(x); }
  }

  lemma {:induction false} MulZero(x: nat)
    ensures Mul(x, 0) == 0
    decreases x
  {
    if x > 0 {
      MulZero(x - 1);
    }
  }

  /**
   * Termination measure of the distribution pass: a product over OR nodes,
   * so that rewriting `(a && b) || c` into `(a || c) && (b || c)` decreases it.
   */
  function Weight(f: Formula): (w: nat)
    ensures w >= 2
  {
    match f
    case And(l, r) => Weight(l) + Weight(r) + 1
    case Or(l, r) => MulAtLeast(Weight(l), Weight(r)); Mul(Weight(l), Weight(r))
    case _ => 2
  }

  /**
   * Arithmetic of one distribution step on the left: with `a` = `a1 && a2`
   * no heavier than `l` and `b` no heavier than `r`, both `a1 || b` and
   * `a2 || b` are lighter than `l || r`, and so is the conjunction of
   * anything no heavier than those two.
   */
  lemma SplitLeft(wa1: nat, wa2: nat, wb: nat, wl: nat, wr: nat)
    requires wb >= 2
    requires wa1 + wa2 + 1 <= wl && wb <= wr
    ensures Mul(wa1, wb) < Mul(wl, wr) && Mul(wa2, wb) < Mul(wl, wr)
    ensures Mul(wa1, wb) + Mul(wa2, wb) + 1 <= Mul(wl, wr)
  {
    MulAddLeft(wa1 + wa2, 1, wb);
    MulAddLeft(wa1, wa2, wb);
    MulMono(wa1 + wa2 + 1, wl, wb, wr);
  }

  /** The same step on the right: `b` = `b1 && b2`. */
  lemma SplitRight(wa: nat, wb1: nat, wb2: nat, wl: nat, wr: nat)
    requires wa >= 2
    requires wb1 + wb2 + 1 <= wr && wa <= wl
    ensures Mul(wa, wb1) < Mul(wl, wr) && Mul(wa, wb2) < Mul(wl, wr)
    ensures Mul(wa, wb1) + Mul(wa, wb2) + 1 <= Mul(wl, wr)
  {
    MulAddRight(wa, wb1 + wb2, 1);
    MulAddRight(wa, wb1, wb2);
    MulSuccRight(wa, 0);
    MulZero(wa);
    MulMono(wa, wl, wb1 + wb2 + 1, wr);
  }

  /** Distributes OR over AND bottom-up until no AND is left under an OR. */
  function DistributeOrOverAnd(f: Formula): (r: Formula)
    decreases Weight(f)
    ensures Weight(r) <= Weight(f)
  {
    match f
    case Or(l, r) =>
      MulAtLeast(Weight(l), Weight(r));
      var a := DistributeOrOverAnd(l);
      var b := DistributeOrOverAnd(r);
      if a.And? then
        DistributeLeftLighter(l, r, a, b);
        And(DistributeOrOverAnd(Or(a.left, b)), DistributeOrOverAnd(Or(a.right, b)))
      else if b.And? then
        DistributeRightLighter(l, r, a, b);
        And(DistributeOrOverAnd(Or(a, b.left)), DistributeOrOverAnd(Or(a, b.right)))
      else
        MulMono(Weight(a), Weight(l), Weight(b), Weight(r));
        Or(a, b)
    case And(l, r) => And(DistributeOrOverAnd(l), DistributeOrOverAnd(r))
    case _ => f
  }

  /** One distribution step on the left, in terms of the formulas' weights. */
  lemma {:induction false} DistributeLeftLighter(l: Formula, r: Formula, a: Formula, b: Formula)
    requires a.And? && Weight(a) <= Weight(l) && Weight(b) <= Weight(r)
    ensures Weight(Or(a.left, b)) < Weight(Or(l, r)) && Weight(Or(a.right, b)) < Weight(Or(l, r))
    ensures Weight(Or(a.left, b)) + Weight(Or(a.right, b)) + 1 <= Weight(Or(l, r))
  {
    var wa1, wa2, wb, wl, wr := Weight(a.left), Weight(a.right), Weight(b), Weight(l), Weight(r);
    assert Weight(a) == wa1 + wa2 + 1;
    SplitLeft(wa1, wa2, wb, wl, wr);
    assert Weight(Or(a.left, b)) == Mul(wa1, wb);
    assert Weight(Or(a.right, b)) == Mul(wa2, wb);
    assert Weight(Or(l, r)) == Mul(wl, wr);
  }

  /** The same step on the right. */
  lemma {:induction false} DistributeRightLighter(l: Formula, r: Formula, a: Formula, b: Formula)
    requires b.And? && Weight(a) <= Weight(l) && Weight(b) <= Weight(r)
    ensures Weight(Or(a, b.left)) < Weight(Or(l, r)) && Weight(Or(a, b.right)) < Weight(Or(l, r))
    ensures Weight(Or(a, b.left)) + Weight(Or(a, b.right)) + 1 <= Weight(Or(l, r))
  {
    var wa, wb1, wb2, wl, wr := Weight(a), Weight(b.left), Weight(b.right), Weight(l), Weight(r);
    assert Weight(b) == wb1 + wb2 + 1;
    SplitRight(wa, wb1, wb2, wl, wr);
    assert Weight(Or(a, b.left)) == Mul(wa, wb1);
    assert Weight(Or(a, b.right)) == Mul(wa, wb2);
    assert Weight(Or(l, r)) == Mul(wl, wr);
  }

  /** The naive CNF transformation: the four passes in their fixed order. */
  function ToCnf(f: Formula): Formula
  {
    DistributeOrOverAnd(PushNotInwards(EliminateImplies(EliminateIff(f))))
  }

  // ---------------------------------------------------------------------
  // What the passes preserve
  // ---------------------------------------------------------------------

  /** IFF elimination keeps the atoms, the constants and the classical meaning. */
  lemma {:induction false} EliminateIffPreserves(f: Formula, v: set<string>)
    ensures Atoms(EliminateIff(f)) == Atoms(f)
    ensures HasConstant(EliminateIff(f)) == HasConstant(f)
    ensures Eval(EliminateIff(f), v) == Eval(f, v)
  {
    match f
    case Not(x) => EliminateIffPreserves(x, v);
    case And(l, r) => EliminateIffPreserves(l, v); EliminateIffPreserves(r, v);
    case Or(l, r) => EliminateIffPreserves(l, v); EliminateIffPreserves(r, v);
    case Implies(l, r) => EliminateIffPreserves(l, v); EliminateIffPreserves(r, v);
    case Iff(l, r) => EliminateIffPreserves(l, v); EliminateIffPreserves(r, v);
    case _ =>
  }

  /** IMPLIES elimination keeps the atoms, the constants and the classical meaning. */
  lemma {:induction false} EliminateImpliesPreserves(f: Formula, v: set<string>)
    ensures Atoms(EliminateImplies(f)) == Atoms(f)
    ensures HasConstant(EliminateImplies(f)) == HasConstant(f)
    ensures Eval(EliminateImplies(f), v) == Eval(f, v)
  {
    match f
    case Not(x) => EliminateImpliesPreserves(x, v);
    case And(l, r) => EliminateImpliesPreserves(l, v); EliminateImpliesPreserves(r, v);
    case Or(l, r) => EliminateImpliesPreserves(l, v); EliminateImpliesPreserves(r, v);
    case Implies(l, r) => EliminateImpliesPreserves(l, v); EliminateImpliesPreserves(r, v);
    case _ =>
  }

  /** Pushing NOT inward keeps the atoms, the constants and the classical meaning. */
  lemma {:induction false} PushNotInwardsPreserves(f: Formula, v: set<string>)
    decreases Size(f)
    ensures Atoms(PushNotInwards(f)) == Atoms(f)
    ensures HasConstant(PushNotInwards(f)) == HasConstant(f)
    ensures Eval(PushNotInwards(f), v) == Eval(f, v)
  {
    match f
    case Not(inner) =>
      if inner.Not? {
        assert Size(inner) == 1 + Size(inner.left);
        PushNotInwardsPreserves(inner.left, v);
      } else if inner.And? || inner.Or? {
        assert Size(inner) == 1 + Size(inner.left) + Size(inner.right);
        PushNotInwardsPreserves(Not(inner.left), v);
        PushNotInwardsPreserves(Not(inner.right), v);
      } else {
        PushNotInwardsPreserves(inner, v);
      }
    case And(l, r) => PushNotInwardsPreserves(l, v); PushNotInwardsPreserves(r, v);
    case Or(l, r) => PushNotInwardsPreserves(l, v); PushNotInwardsPreserves(r, v);
    case _ =>
  }

  /** Distribution keeps the atoms, the constants and the classical meaning. */
  lemma DistributePreserves(f: Formula, v: set<string>)
    ensures Atoms(DistributeOrOverAnd(f)) == Atoms(f)
    ensures HasConstant(DistributeOrOverAnd(f)) == HasConstant(f)
    ensures Eval(DistributeOrOverAnd(f), v) == Eval(f, v)
  {
    DistributeKeepsAtoms(f);
    DistributeKeepsConstants(f);
    DistributeKeepsMeaning(f, v);
  }

  lemma {:induction false} DistributeKeepsAtoms(f: Formula)
    decreases Weight(f), 1
    ensures Atoms(DistributeOrOverAnd(f)) == Atoms(f)
  {
    match f
    case Or(_, _) => DistributeOrKeepsAtoms(f);
    case And(l, r) => DistributeKeepsAtoms(l); DistributeKeepsAtoms(r);
    case _ =>
  }

  lemma {:induction false} DistributeOrKeepsAtoms(f: Formula)
    requires f.Or?
    decreases Weight(f), 0
    ensures Atoms(DistributeOrOverAnd(f)) == Atoms(f)
  {
    var l, r := f.left, f.right;
    MulAtLeast(Weight(l), Weight(r));
    var a := DistributeOrOverAnd(l);
    var b := DistributeOrOverAnd(r);
    DistributeKeepsAtoms(l);
    DistributeKeepsAtoms(r);
    if a.And? {
      SplitLeft(Weight(a.left), Weight(a.right), Weight(b), Weight(l), Weight(r));
      DistributeKeepsAtoms(Or(a.left, b));
      DistributeKeepsAtoms(Or(a.right, b));
    } else if b.And? {
      SplitRight(Weight(a), Weight(b.left), Weight(b.right), Weight(l), Weight(r));
      DistributeKeepsAtoms(Or(a, b.left));
      DistributeKeepsAtoms(Or(a, b.right));
    }
  }

  lemma {:induction false} DistributeKeepsConstants(f: Formula)
    decreases Weight(f), 1
    ensures HasConstant(DistributeOrOverAnd(f)) == HasConstant(f)
  {
    match f
    case Or(_, _) => DistributeOrKeepsConstants(f);
    case And(l, r) => DistributeKeepsConstants(l); DistributeKeepsConstants(r);
    case _ =>
  }

  lemma {:induction false} DistributeOrKeepsConstants(f: Formula)
    requires f.Or?
    decreases Weight(f), 0
    ensures HasConstant(DistributeOrOverAnd(f)) == HasConstant(f)
  {
    var l, r := f.left, f.right;
    MulAtLeast(Weight(l), Weight(r));
    var a := DistributeOrOverAnd(l);
    var b := DistributeOrOverAnd(r);
    DistributeKeepsConstants(l);
    DistributeKeepsConstants(r);
    if a.And? {
      SplitLeft(Weight(a.left), Weight(a.right), Weight(b), Weight(l), Weight(r));
      DistributeKeepsConstants(Or(a.left, b));
      DistributeKeepsConstants(Or(a.right, b));
    } else if b.And? {
      SplitRight(Weight(a), Weight(b.left), Weight(b.right), Weight(l), Weight(r));
      DistributeKeepsConstants(Or(a, b.left));
      DistributeKeepsConstants(Or(a, b.right));
    }
  }

  lemma {:induction false} DistributeKeepsMeaning(f: Formula, v: set<string>)
    decreases Weight(f), 1
    ensures Eval(DistributeOrOverAnd(f), v) == Eval(f, v)
  {
    match f
    case Or(_, _) => DistributeOrKeepsMeaning(f, v);
    case And(l, r) => DistributeKeepsMeaning(l, v); DistributeKeepsMeaning(r, v);
    case _ =>
  }

  lemma {:induction false} DistributeOrKeepsMeaning(f: Formula, v: set<string>)
    requires f.Or?
    decreases Weight(f), 0
    ensures Eval(DistributeOrOverAnd(f), v) == Eval(f, v)
  {
    var l, r := f.left, f.right;
    MulAtLeast(Weight(l), Weight(r));
    var a := DistributeOrOverAnd(l);
    var b := DistributeOrOverAnd(r);
    DistributeKeepsMeaning(l, v);
    DistributeKeepsMeaning(r, v);
    if a.And? {
      SplitLeft(Weight(a.left), Weight(a.right), Weight(b), Weight(l), Weight(r));
      DistributeKeepsMeaning(Or(a.left, b), v);
      DistributeKeepsMeaning(Or(a.right, b), v);
    } else if b.And? {
      SplitRight(Weight(a), Weight(b.left), Weight(b.right), Weight(l), Weight(r));
      DistributeKeepsMeaning(Or(a, b.left), v);
      DistributeKeepsMeaning(Or(a, b.right), v);
    }
  }

  lemma {:induction false} CnfIsNnf(f: Formula)
    requires IsCnf(f)
    ensures IsNnf(f)
  {
    if f.And? {
      CnfIsNnf(f.left);
      CnfIsNnf(f.right);
    } else {
      ClauseIsNnf(f);
    }
  }

  lemma {:induction false} ClauseIsNnf(f: Formula)
    requires IsClause(f)
    ensures IsNnf(f)
  {
    if f.Or? {
      ClauseIsNnf(f.left);
      ClauseIsNnf(f.right);
    }
  }

  /** On a tree in negation normal form, distribution yields CNF. */
  lemma {:induction false} DistributeYieldsCnf(f: Formula)
    requires IsNnf(f)
    decreases Weight(f), 1
    ensures IsCnf(DistributeOrOverAnd(f))
  {
    match f
    case Or(_, _) => DistributeOrYieldsCnf(f);
    case And(l, r) => DistributeYieldsCnf(l); DistributeYieldsCnf(r);
    case _ =>
  }

  lemma {:induction false} DistributeOrYieldsCnf(f: Formula)
    requires f.Or?
    requires IsNnf(f)
    decreases Weight(f), 0
    ensures IsCnf(DistributeOrOverAnd(f))
  {
    var l, r := f.left, f.right;
    MulAtLeast(Weight(l), Weight(r));
    var a := DistributeOrOverAnd(l);
    var b := DistributeOrOverAnd(r);
    DistributeYieldsCnf(l);
    DistributeYieldsCnf(r);
    CnfIsNnf(a);
    CnfIsNnf(b);
    if a.And? {
      SplitLeft(Weight(a.left), Weight(a.right), Weight(b), Weight(l), Weight(r));
      DistributeYieldsCnf(Or(a.left, b));
      DistributeYieldsCnf(Or(a.right, b));
    } else if b.And? {
      SplitRight(Weight(a), Weight(b.left), Weight(b.right), Weight(l), Weight(r));
      DistributeYieldsCnf(Or(a, b.left));
      DistributeYieldsCnf(Or(a, b.right));
    }
  }

  /**
   * The naive transformation yields CNF with the same atoms, the same
   * constants and the same classical truth value under every assignment.
   */
  lemma ToCnfCorrect(f: Formula, v: set<string>)
    ensures IsCnf(ToCnf(f))
    ensures Atoms(ToCnf(f)) == Atoms(f)
    ensures HasConstant(ToCnf(f)) == HasConstant(f)
    ensures Eval(ToCnf(f), v) == Eval(f, v)
  {
    var f1 := EliminateIff(f);
    var f2 := EliminateImplies(f1);
    var f3 := PushNotInwards(f2);
    EliminateIffPreserves(f, v);
    EliminateImpliesPreserves(f1, v);
    PushNotInwardsPreserves(f2, v);
    DistributePreserves(f3, v);
    DistributeYieldsCnf(f3);
  }

  lemma {:induction false} EliminateIffIdentity(f: Formula)
    requires NoIff(f)
    ensures EliminateIff(f) == f
  {
    match f
    case Not(x) => EliminateIffIdentity(x);
    case And(l, r) => EliminateIffIdentity(l); EliminateIffIdentity(r);
    case Or(l, r) => EliminateIffIdentity(l); EliminateIffIdentity(r);
    case Implies(l, r) => EliminateIffIdentity(l); EliminateIffIdentity(r);
    case _ =>
  }

  lemma {:induction false} EliminateImpliesIdentity(f: Formula)
    requires NoImplies(f)
    ensures EliminateImplies(f) == f
  {
    match f
    case Not(x) => EliminateImpliesIdentity(x);
    case And(l, r) => EliminateImpliesIdentity(l); EliminateImpliesIdentity(r);
    case Or(l, r) => EliminateImpliesIdentity(l); EliminateImpliesIdentity(r);
    case _ =>
  }

  lemma {:induction false} PushNotInwardsIdentity(f: Formula)
    requires IsNnf(f)
    ensures PushNotInwards(f) == f
  {
    match f
    case And(l, r) => PushNotInwardsIdentity(l); PushNotInwardsIdentity(r);
    case Or(l, r) => PushNotInwardsIdentity(l); PushNotInwardsIdentity(r);
    case _ =>
  }

  lemma {:induction false} DistributeIdentity(f: Formula)
    requires IsCnf(f)
    ensures DistributeOrOverAnd(f) == f
  {
    if f.And? {
      DistributeIdentity(f.left);
      DistributeIdentity(f.right);
    } else if f.Or? {
      assert IsClause(f.left) && IsClause(f.right);
      assert !f.left.And? && !f.right.And?;
      DistributeIdentity(f.left);
      DistributeIdentity(f.right);
    }
  }

  lemma {:induction false} CnfHasNoIffNoImplies(f: Formula)
    requires IsCnf(f) || IsClause(f)
    ensures NoIff(f) && NoImplies(f)
  {
    if f.And? && IsCnf(f) {
      CnfHasNoIffNoImplies(f.left);
      CnfHasNoIffNoImplies(f.right);
    } else if f.Or? {
      assert IsClause(f);
      CnfHasNoIffNoImplies(f.left);
      CnfHasNoIffNoImplies(f.right);
    }
  }

  /** A formula already in CNF is returned unchanged, so the transformation is idempotent. */
  lemma ToCnfIdempotent(f: Formula)
    ensures IsCnf(f) ==> ToCnf(f) == f
    ensures ToCnf(ToCnf(f)) == ToCnf(f)
  {
    ToCnfCorrect(f, {});
    forall g | IsCnf(g) ensures ToCnf(g) == g {
      CnfHasNoIffNoImplies(g);
      CnfIsNnf(g);
      EliminateIffIdentity(g);
      EliminateImpliesIdentity(g);
      PushNotInwardsIdentity(g);
      DistributeIdentity(g);
    }
  }

  // ---------------------------------------------------------------------
  // The fully parenthesised printer
  // ---------------------------------------------------------------------

  function ToString(f: Formula): string
  {
    match f
    case Atom(n) => n
    case True => "+"
    case False => "-"
    case Not(x) => "!(" + ToString(x) + ")"
    case And(l, r) => "(" + ToString(l) + " && " + ToString(r) + ")"
    case Or(l, r) => "(" + ToString(l) + " || " + ToString(r) + ")"
    case Implies(l, r) => "(" + ToString(l) + " => " + ToString(r) + ")"
    case Iff(l, r) => "(" + ToString(l) + " <=> " + ToString(r) + ")"
  }

  /** The characters of an identifier token: `[A-Za-z0-9_]`. */
  predicate IsIdentChar(c: char)
  {
    ('A' <= c <= 'Z') || ('a' <= c <= 'z') || ('0' <= c <= '9') || c == '_'
  }

  predicate IsIdent(s: string)
  {
    s != [] && forall k :: 0 <= k < |s| ==> IsIdentChar(s[k])
  }

  /** Every atom name is an identifier, so the printed form parses back. */
  predicate WellNamed(f: Formula)
  {
    match f
    case Atom(n) => IsIdent(n)
    case True => true
    case False => true
    case Not(x) => WellNamed(x)
    case And(l, r) => WellNamed(l) && WellNamed(r)
    case Or(l, r) => WellNamed(l) && WellNamed(r)
    case Implies(l, r) => WellNamed(l) && WellNamed(r)
    case Iff(l, r) => WellNamed(l) && WellNamed(r)
  }
}
