/**
 * What the naive encoding means: which knowledge bases it accepts, how many
 * clauses it emits, and what every model of its hard clauses must satisfy.
 * The lemmas take the clause set in the shape `Encoder.Encode` guarantees
 * (`EncodedUpTo` over the atom blocks).
 */
module NaiveProperties {
  import opened Formulas
  import opened Clauses
  import opened NaiveEncoder

  /** A knowledge base can be encoded exactly when none of its formulas has a TRUE or FALSE leaf. */
  lemma EncodableIffNoConstants(fs: seq<Formula>, cnfs: seq<Formula>)
    requires |cnfs| == |fs|
    requires forall i :: 0 <= i < |fs| ==> IsCnf(cnfs[i]) && HasConstant(cnfs[i]) == HasConstant(fs[i])
    ensures ExtractAll(cnfs).Ok? <==> forall i :: 0 <= i < |fs| ==> !HasConstant(fs[i])
  {
    ExtractAllMeaning(cnfs);
    forall i | 0 <= i < |fs| ensures ExtractSpec(cnfs[i]).Ok? <==> !HasConstant(fs[i]) {
      ExtractSpecCorrect(cnfs[i]);
    }
  }

  /** Clauses in the block of formula `i`: one per atom of the formula, one per CNF clause. */
  function BlockSizes(atomSets: seq<set<string>>, cls: seq<seq<seq<Literal>>>): (r: seq<nat>)
    requires |atomSets| >= |cls|
    ensures |r| == |cls|
  {
    seq(|cls|, i requires 0 <= i < |cls| => |atomSets[i]| + |cls[i]|)
  }

  /**
   * Four hard clauses per atom, then per formula one per atom and one per
   * CNF clause; one soft clause `[-finc_i]` of weight 1 per formula.
   */
  lemma ClauseCounts(w: Wcnf, order: seq<string>, atoms: set<string>, ids: Ids, atomSets: seq<set<string>>,
                     cls: seq<seq<seq<Literal>>>, incOrders: seq<seq<string>>, extOrders: seq<seq<seq<string>>>)
    requires Lists(order, atoms)
    requires EncodedUpTo(w, AtomBlocks(ids, order), ids, |order|, atomSets, cls, incOrders, extOrders)
    ensures |w.hard| == 4 * |atoms| + Sum(BlockSizes(atomSets, cls))
    ensures |w.soft| == |cls| && |w.weights| == |cls|
    ensures forall i :: 0 <= i < |cls| ==> w.soft[i] == [-Finc(|order|, i)] && w.weights[i] == 1
  {
    ListsCard(order, atoms);
    var blocks := FormulaBlocks(ids, |order|, incOrders, cls, extOrders);
    ConcatLength(blocks);
    var lens := seq(|blocks|, i requires 0 <= i < |blocks| => |blocks[i]|);
    forall i | 0 <= i < |cls| ensures lens[i] == BlockSizes(atomSets, cls)[i] {
      ListsCard(incOrders[i], atomSets[i]);
    }
    assert lens == BlockSizes(atomSets, cls);
  }


  /** A clause of a formula block is a hard clause. */
  lemma InHard(w: Wcnf, pre: seq<Clause>, ids: Ids, n: nat, atomSets: seq<set<string>>,
               cls: seq<seq<seq<Literal>>>, incOrders: seq<seq<string>>, extOrders: seq<seq<seq<string>>>,
               i: nat, k: nat)
    requires EncodedUpTo(w, pre, ids, n, atomSets, cls, incOrders, extOrders)
    requires i < |cls| && k < |FormulaBlocks(ids, n, incOrders, cls, extOrders)[i]|
    ensures FormulaBlocks(ids, n, incOrders, cls, extOrders)[i][k] in w.hard
  {
    var blocks := FormulaBlocks(ids, n, incOrders, cls, extOrders);
    ConcatContains(blocks, i, k);
    var x := blocks[i][k];
    var m :| 0 <= m < |Concat(blocks)| && Concat(blocks)[m] == x;
    assert w.hard[|pre| + m] == x;
  }

  /**
   * In every model of the hard clauses, an atom takes exactly one of its
   * three values.
   */
  lemma OneValuePerAtom(model: set<int>, w: Wcnf, order: seq<string>, ids: Ids, atomSets: seq<set<string>>,
                        cls: seq<seq<seq<Literal>>>, incOrders: seq<seq<string>>, extOrders: seq<seq<seq<string>>>,
                        j: nat)
    requires EncodedUpTo(w, AtomBlocks(ids, order), ids, |order|, atomSets, cls, incOrders, extOrders)
    requires j < |order| && TripleAt(ids, order, j)
    requires AllTrue(model, w.hard)
    ensures OneOfThree(3 * j + 1 in model, 3 * j + 2 in model, 3 * j + 3 in model)
  {
    var cs := ExactlyOne(3 * j + 1, 3 * j + 2, 3 * j + 3);
    AtomBlocksAt(ids, order, j);
    assert AllTrue(model, cs) by {
      forall k | 0 <= k < 4 ensures ClauseTrue(model, cs[k]) {
        assert cs[k] == AtomBlocks(ids, order)[4 * j + k] == w.hard[4 * j + k];
      }
    }
    ExactlyOneMeaning(model, 3 * j + 1, 3 * j + 2, 3 * j + 3);
  }

  /**
   * In every model of the hard clauses, an atom of formula `i` that is
   * `both` makes `finc_i` true, so the soft clause `[-finc_i]` is violated.
   */
  lemma BothMakesInconsistent(model: set<int>, w: Wcnf, pre: seq<Clause>, ids: Ids, n: nat,
                              atomSets: seq<set<string>>, cls: seq<seq<seq<Literal>>>,
                              incOrders: seq<seq<string>>, extOrders: seq<seq<seq<string>>>, i: nat, a: string)
    requires EncodedUpTo(w, pre, ids, n, atomSets, cls, incOrders, extOrders)
    requires i < |cls| && a in atomSets[i] && AllTrue(model, w.hard)
    requires Id(ids, (a, B)) > 0 && Id(ids, (a, B)) in model
    ensures Finc(n, i) in model && !ClauseTrue(model, w.soft[i])
  {
    var finc := Finc(n, i);
    var k := ListsIndex(incOrders[i], atomSets[i], a);
    IncClausesAt(ids, finc, incOrders[i], k);
    assert FormulaBlocks(ids, n, incOrders, cls, extOrders)[i][k] == [finc, -Id(ids, (a, B))];
    InHard(w, pre, ids, n, atomSets, cls, incOrders, extOrders, i, k);
    IncForces(model, w.hard, finc, Id(ids, (a, B)));
    assert w.soft[i] == [-finc];
  }

  /** Rescued clause `j` of formula `i`: the clause's ids, then the `both` id of each of its atoms. */
  lemma RescuedClause(w: Wcnf, pre: seq<Clause>, ids: Ids, n: nat, atomSets: seq<set<string>>,
                      cls: seq<seq<seq<Literal>>>, incOrders: seq<seq<string>>, extOrders: seq<seq<seq<string>>>,
                      i: nat, j: nat)
    requires EncodedUpTo(w, pre, ids, n, atomSets, cls, incOrders, extOrders)
    requires i < |cls| && j < |cls[i]|
    ensures Lists(extOrders[i][j], LitAtoms(cls[i][j]))
    ensures MapLits(ids, cls[i][j]) + BothOf(ids, extOrders[i][j]) in w.hard
  {
    var blocks := FormulaBlocks(ids, n, incOrders, cls, extOrders);
    var k := |incOrders[i]| + j;
    assert blocks[i][k] == MapLits(ids, cls[i][j]) + BothOf(ids, extOrders[i][j]);
    InHard(w, pre, ids, n, atomSets, cls, incOrders, extOrders, i, k);
  }

  /**
   * In every model of the hard clauses, a CNF clause none of whose atoms is
   * `both` is satisfied by its own t/f ids: only `both` can excuse a clause.
   */
  lemma ClauseHoldsUnlessBoth(model: set<int>, w: Wcnf, pre: seq<Clause>, ids: Ids, n: nat,
                              atomSets: seq<set<string>>, cls: seq<seq<seq<Literal>>>,
                              incOrders: seq<seq<string>>, extOrders: seq<seq<seq<string>>>, i: nat, j: nat)
    requires EncodedUpTo(w, pre, ids, n, atomSets, cls, incOrders, extOrders)
    requires i < |cls| && j < |cls[i]| && AllTrue(model, w.hard)
    requires forall x :: x in LitAtoms(cls[i][j]) ==> Id(ids, (x, B)) > 0 && Id(ids, (x, B)) !in model
    ensures ClauseTrue(model, MapLits(ids, cls[i][j]))
  {
    RescuedClause(w, pre, ids, n, atomSets, cls, incOrders, extOrders, i, j);
    var lits := MapLits(ids, cls[i][j]);
    var m :| 0 <= m < |w.hard| && w.hard[m] == lits + BothOf(ids, extOrders[i][j]);
    assert ClauseTrue(model, w.hard[m]);
    RescuedHolds(model, lits, ids, extOrders[i][j]);
  }
}
