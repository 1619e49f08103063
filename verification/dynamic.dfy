/**
 * The older clause generator `generate_dynamic_clauses` and the clause
 * assembly of `solve_maxsat`. Here a knowledge base is a list of entries,
 * each entry one clause of signed atom numbers. With `n` distinct atoms,
 * the atom at position `k` of the set's iteration order gets the ids
 * `k + 1`, `k + n + 1` and `k + 2n + 1` (true, false, both), and entry `i`
 * gets the inconsistency id `3n + 1 + i`.
 */
module DynamicEncoder {
  import opened Wrappers
  import opened Clauses
  import opened Text

  /** One knowledge-base entry: a clause of signed atom numbers. */
  type Entry = seq<int>

  /** The (true, false, both) ids of an atom. */
  type IdTriple = (int, int, int)

  // ---------------------------------------------------------------------
  // Atoms of the entries (the first loop)
  // ---------------------------------------------------------------------

  /** The atoms of all entries. */
  function AllAtoms(kb: seq<Entry>): set<nat>
  {
    if kb == [] then {} else AllAtoms(kb[..|kb| - 1]) + ClauseVars(kb[|kb| - 1])
  }

  /**
   * Lines 10-16: collects the atoms of every entry, and per entry index the
   * atoms of that entry.
   */
  method CollectAtoms(kb: seq<Entry>) returns (atoms: set<nat>, formulaAtoms: map<nat, set<nat>>)
    ensures atoms == AllAtoms(kb)
    ensures forall i: nat :: i in formulaAtoms <==> i < |kb|
    ensures forall i :: 0 <= i < |kb| ==> formulaAtoms[i] == ClauseVars(kb[i])
  {
    atoms := {};
    formulaAtoms := map[];
    for i := 0 to |kb|
      invariant atoms == AllAtoms(kb[..i])
      invariant forall j: nat :: j in formulaAtoms <==> j < i
      invariant forall j :: 0 <= j < i ==> formulaAtoms[j] == ClauseVars(kb[j])
    {
      var inFormula: set<nat> := {};
      for k := 0 to |kb[i]|
        invariant inFormula == ClauseVars(kb[i][..k])
        invariant atoms == AllAtoms(kb[..i]) + inFormula
      {
        var atom := Abs(kb[i][k]);
        ClauseVarsSnoc(kb[i][..k], kb[i][k]);
        assert kb[i][..k + 1] == kb[i][..k] + [kb[i][k]];
        atoms := atoms + {atom};
        inFormula := inFormula + {atom};
      }
      assert kb[i][..|kb[i]|] == kb[i];
      assert kb[..i + 1][..i] == kb[..i];
      formulaAtoms := formulaAtoms[i := inFormula];
    }
    assert kb[..|kb|] == kb;
  }

  /** A Python set iterated once: every member exactly once, in some order. */
  method IterationOrder(s: set<nat>) returns (order: seq<nat>)
    ensures Lists(order, s)
  {
    order := [];
    var rest := s;
    ghost var done: set<nat> := {};
    while rest != {}
      invariant Lists(order, done) && done + rest == s && done !! rest
      decreases |rest|
    {
      var x :| x in rest;
      Visit(order, done, rest, s, x);
      order, done, rest := order + [x], done + {x}, rest - {x};
    }
  }

  // ---------------------------------------------------------------------
  // Ids
  // ---------------------------------------------------------------------

  /** The ids of the atom at position `k` when there are `n` atoms. */
  function Triple(n: nat, k: nat): IdTriple
  {
    (k + 1, k + n + 1, k + 2 * n + 1)
  }

  /** The id of one kind of the atom at position `k`. */
  function AtomId(n: nat, k: nat, kind: Kind): int
  {
    match kind
    case T => Triple(n, k).0
    case F => Triple(n, k).1
    case B => Triple(n, k).2
  }

  /** `atom_mapping`: each atom of the iteration order to its triple. */
  function AtomMapping(order: seq<nat>): (m: map<nat, IdTriple>)
    requires NoDup(order)
    ensures forall a :: a in m <==> a in order
    ensures forall k :: 0 <= k < |order| ==> m[order[k]] == Triple(|order|, k)
  {
    map k | 0 <= k < |order| :: order[k] := Triple(|order|, k)
  }

  /** `f_inconsistent_vars[i]`: the inconsistency id of entry `i`. */
  function FincVar(n: nat, i: nat): int
  {
    3 * n + 1 + i
  }

  // ---------------------------------------------------------------------
  // The clauses, as functions of the iteration orders
  // ---------------------------------------------------------------------

  /** The four exactly-one clauses of the first `k` atoms, in order. */
  function AtomHard(n: nat, k: nat): (cs: seq<Clause>)
    ensures |cs| == 4 * k
  {
    if k == 0 then []
    else
      var (t, f, b) := Triple(n, k - 1);
      AtomHard(n, k - 1) + ExactlyOne(t, f, b)
  }

  predicate Maps(m: map<nat, IdTriple>, atoms: seq<nat>)
  {
    forall a :: a in atoms ==> a in m
  }

  /** `[finc, -a_both]` for each atom of `atomOrder`, in order. */
  function IncOf(m: map<nat, IdTriple>, finc: int, atomOrder: seq<nat>): (cs: seq<Clause>)
    requires Maps(m, atomOrder)
    ensures |cs| == |atomOrder|
  {
    seq(|atomOrder|, k requires 0 <= k < |atomOrder| => [finc, -m[atomOrder[k]].2])
  }

  lemma IncOfSnoc(m: map<nat, IdTriple>, finc: int, atomOrder: seq<nat>, a: nat)
    requires Maps(m, atomOrder) && a in m
    ensures Maps(m, atomOrder + [a])
    ensures IncOf(m, finc, atomOrder + [a]) == IncOf(m, finc, atomOrder) + [[finc, -m[a].2]]
  {
  }

  /** Visiting one more atom extends the increment clauses by its own. */
  lemma IncStep(hard: seq<Clause>, hard': seq<Clause>, m: map<nat, IdTriple>, finc: int, atomOrder: seq<nat>,
                done: set<nat>, rest: set<nat>, atomSet: set<nat>, a: nat, aBoth: int)
    requires Lists(atomOrder, done) && done + rest == atomSet && done !! rest && a in rest
    requires Maps(m, atomOrder) && a in m && aBoth == m[a].2 && hard' == hard + IncOf(m, finc, atomOrder)
    ensures Lists(atomOrder + [a], done + {a})
    ensures (done + {a}) + (rest - {a}) == atomSet && (done + {a}) !! (rest - {a}) && |rest - {a}| < |rest|
    ensures Maps(m, atomOrder + [a])
    ensures hard' + [[finc, -aBoth]] == hard + IncOf(m, finc, atomOrder + [a])
  {
    Visit(atomOrder, done, rest, atomSet, a);
    IncOfSnoc(m, finc, atomOrder, a);
    AppendAssoc(hard, IncOf(m, finc, atomOrder), [[finc, -m[a].2]]);
  }

  /** The `[finc_i, -a_both]` clauses of the entries, entry by entry. */
  function IncAll(m: map<nat, IdTriple>, n: nat, incOrders: seq<seq<nat>>): (cs: seq<Clause>)
    requires forall i :: 0 <= i < |incOrders| ==> Maps(m, incOrders[i])
  {
    if incOrders == [] then []
    else
      var i := |incOrders| - 1;
      IncAll(m, n, incOrders[..i]) + IncOf(m, FincVar(n, i), incOrders[i])
  }

  lemma IncAllSnoc(m: map<nat, IdTriple>, n: nat, incOrders: seq<seq<nat>>, io: seq<nat>)
    requires forall i :: 0 <= i < |incOrders| ==> Maps(m, incOrders[i])
    requires Maps(m, io)
    ensures forall i :: 0 <= i < |incOrders| + 1 ==> Maps(m, (incOrders + [io])[i])
    ensures IncAll(m, n, incOrders + [io]) == IncAll(m, n, incOrders) + IncOf(m, FincVar(n, |incOrders|), io)
  {
    assert (incOrders + [io])[..|incOrders|] == incOrders;
  }

  /** A literal's two ids: `a_true` or `a_false` by its sign, then `a_both`. */
  function LitIds(m: map<nat, IdTriple>, l: int): (c: Clause)
    requires Abs(l) in m
  {
    [if l > 0 then m[Abs(l)].0 else m[Abs(l)].1, m[Abs(l)].2]
  }

  predicate MapsEntry(m: map<nat, IdTriple>, c: Entry)
  {
    forall l :: l in c ==> Abs(l) in m
  }

  /** The hard clause of one entry: the ids of its literals, in order. */
  function EntryClause(m: map<nat, IdTriple>, c: Entry): (r: Clause)
    requires MapsEntry(m, c)
    ensures |r| == 2 * |c|
  {
    if c == [] then [] else EntryClause(m, c[..|c| - 1]) + LitIds(m, c[|c| - 1])
  }

  /** The hard clauses of the entries, one per entry. */
  function EntryClauses(m: map<nat, IdTriple>, kb: seq<Entry>): (cs: seq<Clause>)
    requires forall i :: 0 <= i < |kb| ==> MapsEntry(m, kb[i])
    ensures |cs| == |kb|
  {
    if kb == [] then [] else EntryClauses(m, kb[..|kb| - 1]) + [EntryClause(m, kb[|kb| - 1])]
  }

  /** `([-finc_i], 1)` for the first `k` entries. */
  function DynSoft(n: nat, k: nat): (r: seq<(Clause, int)>)
    ensures |r| == k
  {
    seq(k, i requires 0 <= i < k => ([-FincVar(n, i)], 1))
  }

  /**
   * The result of `generate_dynamic_clauses` for the atom iteration order
   * `order` and the per-entry atom iteration orders `incOrders`.
   */
  ghost predicate Generated(kb: seq<Entry>, order: seq<nat>, incOrders: seq<seq<nat>>,
                            hard: seq<Clause>, soft: seq<(Clause, int)>)
  {
    && Lists(order, AllAtoms(kb))
    && |incOrders| == |kb|
    && (forall i :: 0 <= i < |kb| ==> Lists(incOrders[i], ClauseVars(kb[i])))
    && (forall i :: 0 <= i < |kb| ==> Maps(AtomMapping(order), incOrders[i]))
    && (forall i :: 0 <= i < |kb| ==> MapsEntry(AtomMapping(order), kb[i]))
    && hard == AtomHard(|order|, |order|)
               + IncAll(AtomMapping(order), |order|, incOrders)
               + EntryClauses(AtomMapping(order), kb)
    && soft == DynSoft(|order|, |kb|)
  }

  lemma {:induction false} AllAtomsContains(kb: seq<Entry>, i: nat)
    requires i < |kb|
    ensures ClauseVars(kb[i]) <= AllAtoms(kb)
    decreases |kb|
  {
    if i < |kb| - 1 {
      AllAtomsContains(kb[..|kb| - 1], i);
    }
  }

  /** Every literal of every entry names an atom of the mapping built from the atoms. */
  lemma EntriesMapped(kb: seq<Entry>, order: seq<nat>)
    requires Lists(order, AllAtoms(kb))
    ensures forall i :: 0 <= i < |kb| ==> MapsEntry(AtomMapping(order), kb[i])
    ensures forall i :: 0 <= i < |kb| ==> forall a :: a in ClauseVars(kb[i]) ==> a in AtomMapping(order)
  {
    forall i | 0 <= i < |kb| ensures ClauseVars(kb[i]) <= AllAtoms(kb) {
      AllAtomsContains(kb, i);
    }
    forall i, l | 0 <= i < |kb| && l in kb[i] ensures Abs(l) in AtomMapping(order) {
      AllAtomsContains(kb, i);
      assert Abs(l) in ClauseVars(kb[i]);
    }
  }

  // ---------------------------------------------------------------------
  // The loops of generate_dynamic_clauses
  // ---------------------------------------------------------------------

  /**
   * Lines 36-38: one entry's atom set, iterated in some order, each atom
   * adding `[finc, -a_both]`.
   */
  method AddIncClauses(hard: seq<Clause>, m: map<nat, IdTriple>, finc: int, atomSet: set<nat>)
    returns (hard': seq<Clause>, ghost atomOrder: seq<nat>)
    requires forall a :: a in atomSet ==> a in m
    ensures Lists(atomOrder, atomSet) && Maps(m, atomOrder)
    ensures hard' == hard + IncOf(m, finc, atomOrder)
  {
    hard' := hard;
    atomOrder := [];
    var rest := atomSet;
    ghost var done: set<nat> := {};
    while rest != {}
      invariant Lists(atomOrder, done) && done + rest == atomSet && done !! rest
      invariant Maps(m, atomOrder)
      invariant hard' == hard + IncOf(m, finc, atomOrder)
      decreases |rest|
    {
      var atom :| atom in rest;
      var aBoth := m[atom].2;
      IncStep(hard, hard', m, finc, atomOrder, done, rest, atomSet, atom, aBoth);
      hard', atomOrder := hard' + [[finc, -aBoth]], atomOrder + [atom];
      done, rest := done + {atom}, rest - {atom};
    }
  }

  /** Lines 42-50: the literals of one entry mapped to their ids. */
  method EntryLiterals(m: map<nat, IdTriple>, clause: Entry) returns (clauseLiterals: Clause)
    requires MapsEntry(m, clause)
    ensures clauseLiterals == EntryClause(m, clause)
  {
    clauseLiterals := [];
    for j := 0 to |clause|
      invariant clauseLiterals == EntryClause(m, clause[..j])
    {
      var literal := clause[j];
      var atom := Abs(literal);
      if literal > 0 {
        clauseLiterals := clauseLiterals + [m[atom].0];
      } else {
        clauseLiterals := clauseLiterals + [m[atom].1];
      }
      clauseLiterals := clauseLiterals + [m[atom].2];
      assert clause[..j + 1][..j] == clause[..j];
    }
    assert clause[..|clause|] == clause;
  }

  /** Lines 23-27: the four exactly-one clauses of each atom, in the mapping's order. */
  method AddAtomClauses(atomOrder: seq<nat>, atomMapping: map<nat, IdTriple>) returns (hard: seq<Clause>)
    requires NoDup(atomOrder) && atomMapping == AtomMapping(atomOrder)
    ensures hard == AtomHard(|atomOrder|, |atomOrder|)
  {
    hard := [];
    for k := 0 to |atomOrder|
      invariant hard == AtomHard(|atomOrder|, k)
    {
      assert atomMapping[atomOrder[k]] == Triple(|atomOrder|, k);
      var (aTrue, aFalse, aBoth) := atomMapping[atomOrder[k]];
      assert AtomHard(|atomOrder|, k + 1) == hard + ExactlyOne(aTrue, aFalse, aBoth);
      hard := hard + [[aTrue, aFalse, aBoth], [-aTrue, -aFalse], [-aTrue, -aBoth], [-aFalse, -aBoth]];
    }
  }

  /** Lines 34-38: per entry, in index order, its atoms' `[finc_i, -a_both]` clauses. */
  method AddAllIncClauses(hard0: seq<Clause>, kb: seq<Entry>, numAtoms: nat, atomMapping: map<nat, IdTriple>,
                          fincVars: map<nat, int>, formulaAtoms: map<nat, set<nat>>)
    returns (hard: seq<Clause>, ghost incOrders: seq<seq<nat>>)
    requires forall i :: 0 <= i < |kb| ==> i in fincVars && fincVars[i] == FincVar(numAtoms, i)
    requires forall i :: 0 <= i < |kb| ==> i in formulaAtoms && formulaAtoms[i] == ClauseVars(kb[i])
    requires forall i :: 0 <= i < |kb| ==> forall a :: a in ClauseVars(kb[i]) ==> a in atomMapping
    ensures |incOrders| == |kb|
    ensures forall j :: 0 <= j < |kb| ==> Lists(incOrders[j], ClauseVars(kb[j]))
    ensures forall j :: 0 <= j < |kb| ==> Maps(atomMapping, incOrders[j])
    ensures hard == hard0 + IncAll(atomMapping, numAtoms, incOrders)
  {
    hard := hard0;
    incOrders := [];
    for i := 0 to |kb|
      invariant |incOrders| == i
      invariant forall j :: 0 <= j < i ==> Lists(incOrders[j], ClauseVars(kb[j]))
      invariant forall j :: 0 <= j < i ==> Maps(atomMapping, incOrders[j])
      invariant hard == hard0 + IncAll(atomMapping, numAtoms, incOrders)
    {
      var fincI := fincVars[i];
      ghost var io;
      hard, io := AddIncClauses(hard, atomMapping, fincI, formulaAtoms[i]);
      assert hard == hard0 + IncAll(atomMapping, numAtoms, incOrders + [io]) by {
        IncAllSnoc(atomMapping, numAtoms, incOrders, io);
        AppendAssoc(hard0, IncAll(atomMapping, numAtoms, incOrders), IncOf(atomMapping, fincI, io));
      }
      incOrders := incOrders + [io];
    }
  }

  /** Lines 41-50: one hard clause per entry, in order. */
  method AddEntryClauses(hard0: seq<Clause>, kb: seq<Entry>, atomMapping: map<nat, IdTriple>)
    returns (hard: seq<Clause>)
    requires forall i :: 0 <= i < |kb| ==> MapsEntry(atomMapping, kb[i])
    ensures hard == hard0 + EntryClauses(atomMapping, kb)
  {
    hard := hard0;
    for i := 0 to |kb|
      invariant hard == hard0 + EntryClauses(atomMapping, kb[..i])
    {
      var clauseLiterals := EntryLiterals(atomMapping, kb[i]);
      assert kb[..i + 1][..i] == kb[..i];
      hard := hard + [clauseLiterals];
    }
    assert kb[..|kb|] == kb;
  }

  /** Lines 53-54: `([-finc_i], 1)` per entry, in index order. */
  method SoftClauses(numFormulas: nat, numAtoms: nat, fincVars: map<nat, int>) returns (soft: seq<(Clause, int)>)
    requires forall i :: 0 <= i < numFormulas ==> i in fincVars && fincVars[i] == FincVar(numAtoms, i)
    ensures soft == DynSoft(numAtoms, numFormulas)
  {
    soft := [];
    for i := 0 to numFormulas
      invariant soft == DynSoft(numAtoms, i)
    {
      soft := soft + [([-fincVars[i]], 1)];
    }
  }

  /** `generate_dynamic_clauses`: the hard clauses, then the soft clauses with their weights. */
  method GenerateDynamicClauses(kb: seq<Entry>)
    returns (hard: seq<Clause>, soft: seq<(Clause, int)>, ghost order: seq<nat>, ghost incOrders: seq<seq<nat>>)
    ensures Generated(kb, order, incOrders, hard, soft)
  {
    var atoms, formulaAtoms := CollectAtoms(kb);
    var numAtoms := |atoms|;
    var atomOrder := IterationOrder(atoms);
    ListsCard(atomOrder, atoms);
    order := atomOrder;
    var atomMapping := AtomMapping(atomOrder);
    EntriesMapped(kb, atomOrder);

    hard := AddAtomClauses(atomOrder, atomMapping);
    var numFormulas := |kb|;
    var fincVars := map i: nat | i < numFormulas :: FincVar(numAtoms, i);
    assert forall i :: 0 <= i < numFormulas ==> i in fincVars && fincVars[i] == FincVar(numAtoms, i);
    var atomHard := hard;
    hard, incOrders := AddAllIncClauses(hard, kb, numAtoms, atomMapping, fincVars, formulaAtoms);
    hard := AddEntryClauses(hard, kb, atomMapping);
    soft := SoftClauses(numFormulas, numAtoms, fincVars);
    assert hard == atomHard + IncAll(atomMapping, numAtoms, incOrders) + EntryClauses(atomMapping, kb);
  }
}

/**
 * The part of `solve_maxsat` before the search: the solver-name check and
 * the assembly of the weighted clause set handed to the MaxSAT engine.
 */
module DynamicSolve {
  import opened Wrappers
  import opened Clauses

  /** `solver_map`: the six accepted solver names and their short codes. */
  function SolverCode(name: string): Option<string>
  {
    if name == "Glucose3" then Some("g3")
    else if name == "Lingeling" then Some("lgl")
    else if name == "Cadical153" then Some("cd15")
    else if name == "Cadical195" then Some("cd19")
    else if name == "Gluecard41" then Some("gc4")
    else if name == "Minisat22" then Some("m22")
    else None
  }

  /** The solver names `solver_map` accepts. */
  const SolverNames: set<string> := {"Glucose3", "Lingeling", "Cadical153", "Cadical195", "Gluecard41", "Minisat22"}

  /** The clauses of a list of (clause, weight) pairs. */
  function ClausesOf(soft: seq<(Clause, int)>): (r: seq<Clause>)
    ensures |r| == |soft|
  {
    seq(|soft|, i requires 0 <= i < |soft| => soft[i].0)
  }

  /** The weights of a list of (clause, weight) pairs. */
  function WeightsOf(soft: seq<(Clause, int)>): (r: seq<int>)
    ensures |r| == |soft|
  {
    seq(|soft|, i requires 0 <= i < |soft| => soft[i].1)
  }

  /** The clauses of the pairs whose weight is zero, in order: `append` files them as hard. */
  function ZeroWeighted(soft: seq<(Clause, int)>): (r: seq<Clause>)
    ensures |r| <= |soft|
  {
    if soft == [] then []
    else
      var last := soft[|soft| - 1];
      ZeroWeighted(soft[..|soft| - 1]) + (if last.1 == 0 then [last.0] else [])
  }

  /** The pairs whose weight is non-zero, in order: `append` files them as soft. */
  function Weighted(soft: seq<(Clause, int)>): (r: seq<(Clause, int)>)
    ensures |r| <= |soft|
  {
    if soft == [] then []
    else
      var last := soft[|soft| - 1];
      Weighted(soft[..|soft| - 1]) + (if last.1 != 0 then [last] else [])
  }

  /** One more pair appended: the parts of the longer prefix. */
  lemma AppendStep(h: seq<Clause>, ss: seq<(Clause, int)>, i: nat)
    requires i < |ss|
    ensures Wcnf(h + ZeroWeighted(ss[..i + 1]), ClausesOf(Weighted(ss[..i + 1])), WeightsOf(Weighted(ss[..i + 1])))
         == Wcnf(h + ZeroWeighted(ss[..i]), ClausesOf(Weighted(ss[..i])), WeightsOf(Weighted(ss[..i]))).AddWeighted(ss[i].0, ss[i].1)
  {
    assert ss[..i + 1][..i] == ss[..i];
    if ss[i].1 != 0 {
      assert Weighted(ss[..i + 1]) == Weighted(ss[..i]) + [ss[i]];
      assert ClausesOf(Weighted(ss[..i + 1])) == ClausesOf(Weighted(ss[..i])) + [ss[i].0];
      assert WeightsOf(Weighted(ss[..i + 1])) == WeightsOf(Weighted(ss[..i])) + [ss[i].1];
    } else {
      assert h + ZeroWeighted(ss[..i + 1]) == h + ZeroWeighted(ss[..i]) + [ss[i].0];
    }
  }

  /**
   * The clause set `solve_maxsat` builds: the given hard clauses, then the
   * given pairs of weight zero as hard clauses and the others as soft
   * clauses with their weights, and the knowledge base itself as hard
   * clauses only when neither list was given.
   */
  function Assembled(kb: seq<Clause>, hard: Option<seq<Clause>>, soft: Option<seq<(Clause, int)>>): Wcnf
  {
    var h := if hard.Some? then hard.value else [];
    var s := if soft.Some? then soft.value else [];
    Wcnf(h + ZeroWeighted(s) + (if hard.None? && soft.None? then kb else []), ClausesOf(Weighted(s)), WeightsOf(Weighted(s)))
  }

  /**
   * Every given pair lands in exactly one part: the soft part keeps only
   * non-zero weights, and pairs of non-zero weight (as the encoders give)
   * all stay soft, in their order.
   */
  lemma {:induction false} WeightSplit(soft: seq<(Clause, int)>)
    ensures |ZeroWeighted(soft)| + |Weighted(soft)| == |soft|
    ensures forall k :: 0 <= k < |Weighted(soft)| ==> Weighted(soft)[k].1 != 0
    ensures (forall k :: 0 <= k < |soft| ==> soft[k].1 != 0) ==> ZeroWeighted(soft) == [] && Weighted(soft) == soft
  {
    if soft != [] {
      var front := soft[..|soft| - 1];
      WeightSplit(front);
      assert front + [soft[|soft| - 1]] == soft;
    }
  }

  /** Lines 60-86: the name check, then the clause set and the solver code for the engine. */
  method SolveMaxSatInput(kb: seq<Clause>, solverName: string, hardClauses: Option<seq<Clause>>,
                          softClauses: Option<seq<(Clause, int)>>)
    returns (r: Result<(Wcnf, string), string>)
    ensures SolverCode(solverName).None? ==> r == Err("invalid solver name: " + solverName)
    ensures SolverCode(solverName).Some? ==>
              r == Ok((Assembled(kb, hardClauses, softClauses), SolverCode(solverName).value))
  {
    var code := SolverCode(solverName);
    if code.None? {
      return Err("invalid solver name: " + solverName);
    }
    var wcnf := NoClauses;
    if hardClauses.Some? && hardClauses.value != [] {
      var hs := hardClauses.value;
      for i := 0 to |hs|
        invariant wcnf == Wcnf(hs[..i], [], [])
      {
        assert hs[..i + 1] == hs[..i] + [hs[i]];
        wcnf := wcnf.AddHard(hs[i]);
      }
      assert hs[..|hs|] == hs;
    }
    ghost var h := wcnf.hard;
    if softClauses.Some? && softClauses.value != [] {
      var ss := softClauses.value;
      for i := 0 to |ss|
        invariant wcnf == Wcnf(h + ZeroWeighted(ss[..i]), ClausesOf(Weighted(ss[..i])), WeightsOf(Weighted(ss[..i])))
      {
        var (clause, weight) := ss[i];
        AppendStep(h, ss, i);
        wcnf := wcnf.AddWeighted(clause, weight);
      }
      assert ss[..|ss|] == ss;
    }
    if hardClauses.None? && softClauses.None? {
      wcnf := Wcnf(wcnf.hard + kb, wcnf.soft, wcnf.weights);
    }
    assert ClausesOf([]) == [] && WeightsOf([]) == [];
    assert wcnf.hard == Assembled(kb, hardClauses, softClauses).hard;
    assert wcnf.soft == Assembled(kb, hardClauses, softClauses).soft;
    assert wcnf.weights == Assembled(kb, hardClauses, softClauses).weights;
    r := Ok((wcnf, code.value));
  }
}
