/**
 * What the Tseitin encoding means: how the shared pool lays out the ids,
 * how many clauses are emitted, where each remapped clause ends up, and what
 * every model of the hard clauses must satisfy. The lemmas take the clause
 * set in the shape `Encoder.Encode` guarantees (`EncodedUpTo` over the atom
 * blocks).
 */
module TseitinProperties {
  import opened Clauses
  import opened TseitinEncoder

  lemma NextIdStep(n: nat, ts: seq<TseitinCnf>, i: nat)
    requires i < |ts|
    ensures NextId(n, ts[..i + 1]) == NextId(n, ts[..i]) + 1 + ts[i].aux
  {
    assert ts[..i + 1][..i] == ts[..i];
  }

  /** Every formula takes at least its own id from the pool. */
  lemma {:induction false} NextIdGrows(n: nat, ts: seq<TseitinCnf>, i: nat, j: nat)
    requires i <= j <= |ts|
    ensures NextId(n, ts[..i]) + (j - i) <= NextId(n, ts[..j])
    decreases j
  {
    if i < j {
      NextIdGrows(n, ts, i, j - 1);
      NextIdStep(n, ts, j - 1);
    }
  }

  /** Formula `i`'s ids lie above the atom ids and below the pool's next id. */
  lemma FincBounds(n: nat, ts: seq<TseitinCnf>, i: nat)
    requires i < |ts|
    ensures 3 * n < FincIds(n, ts)[i] && FincIds(n, ts)[i] + ts[i].aux < NextId(n, ts)
  {
    NextIdStep(n, ts, i);
    NextIdGrows(n, ts, i + 1, |ts|);
    assert ts[..|ts|] == ts;
  }

  /** Formula `i`'s ids lie below those of a later formula `j`. */
  lemma FincOrdered(n: nat, ts: seq<TseitinCnf>, i: nat, j: nat)
    requires i < j < |ts|
    ensures FincIds(n, ts)[i] + ts[i].aux < FincIds(n, ts)[j]
  {
    NextIdStep(n, ts, i);
    NextIdGrows(n, ts, i + 1, j);
  }

  /**
   * The pool hands out, per formula, `finc_i` and then its auxiliaries
   * `finc_i + 1 .. finc_i + aux_i`, all above the `3n` atom ids and each
   * range below the next formula's.
   */
  lemma IdLayout(n: nat, ts: seq<TseitinCnf>)
    ensures forall i :: 0 <= i < |ts| ==> 3 * n < FincIds(n, ts)[i]
    ensures forall i, j :: 0 <= i < j < |ts| ==> FincIds(n, ts)[i] + ts[i].aux < FincIds(n, ts)[j]
    ensures forall i :: 0 <= i < |ts| ==> FincIds(n, ts)[i] + ts[i].aux < NextId(n, ts)
    ensures 3 * n < NextId(n, ts)
  {
    forall i | 0 <= i < |ts| ensures 3 * n < FincIds(n, ts)[i] && FincIds(n, ts)[i] + ts[i].aux < NextId(n, ts) {
      FincBounds(n, ts, i);
    }
    forall i, j | 0 <= i < j < |ts| ensures FincIds(n, ts)[i] + ts[i].aux < FincIds(n, ts)[j] {
      FincOrdered(n, ts, i, j);
    }
  }

  /**
   * Every id of the formula part is owned once: offset 0 from `finc_i` is
   * the formula's own id, offset `k + 1` its auxiliary `k`. Two such ids are
   * equal only for the same formula and offset, and none is an atom id.
   */
  lemma IdsDistinct(n: nat, ts: seq<TseitinCnf>, i: nat, d: nat, j: nat, e: nat)
    requires i < |ts| && j < |ts| && d <= ts[i].aux && e <= ts[j].aux
    ensures 3 * n < FincIds(n, ts)[i] + d
    ensures FincIds(n, ts)[i] + d == FincIds(n, ts)[j] + e ==> i == j && d == e
  {
    IdLayout(n, ts);
  }

  /** The soft part of an encoded clause set, as `EncodedUpTo` lays it out. */
  lemma SoftPart(w: Wcnf, pre: seq<Clause>, ids: Ids, n: nat, atomSets: seq<set<string>>,
                 ts: seq<TseitinCnf>, incOrders: seq<seq<string>>, extOrders: seq<seq<seq<string>>>)
    requires EncodedUpTo(w, pre, ids, n, atomSets, ts, incOrders, extOrders)
    ensures w.soft == Softs(FincIds(n, ts)) && w.weights == Ones(|ts|)
  {
  }

  lemma SoftsAt(fincs: seq<int>, weights: seq<int>, i: nat)
    requires i < |fincs| && weights == Ones(|fincs|)
    ensures Softs(fincs)[i] == [-fincs[i]] && weights[i] == 1
  {
  }

  /** Formula `i`'s soft clause is `[-finc_i]`, of weight 1. */
  lemma SoftAt(w: Wcnf, pre: seq<Clause>, ids: Ids, n: nat, atomSets: seq<set<string>>,
               ts: seq<TseitinCnf>, incOrders: seq<seq<string>>, extOrders: seq<seq<seq<string>>>, i: nat)
    requires EncodedUpTo(w, pre, ids, n, atomSets, ts, incOrders, extOrders) && i < |ts|
    ensures |w.soft| == |ts| && |w.weights| == |ts|
    ensures w.soft[i] == [-FincIds(n, ts)[i]] && w.weights[i] == 1
  {
    SoftPart(w, pre, ids, n, atomSets, ts, incOrders, extOrders);
    SoftsAt(FincIds(n, ts), w.weights, i);
  }

  /** Clauses in the block of formula `i`: one per atom, the top clause, one per transform clause. */
  function BlockSizes(atomSets: seq<set<string>>, ts: seq<TseitinCnf>): (r: seq<nat>)
    requires |atomSets| >= |ts|
    ensures |r| == |ts|
  {
    seq(|ts|, i requires 0 <= i < |ts| => |atomSets[i]| + 1 + |ts[i].clauses|)
  }

  /**
   * Four hard clauses per atom, then per formula its block; one soft clause
   * per formula (`SoftAt` gives its shape).
   */
  lemma ClauseCounts(w: Wcnf, order: seq<string>, atoms: set<string>, ids: Ids, atomSets: seq<set<string>>,
                     ts: seq<TseitinCnf>, incOrders: seq<seq<string>>, extOrders: seq<seq<seq<string>>>)
    requires Lists(order, atoms)
    requires EncodedUpTo(w, AtomBlocks(ids, order), ids, |order|, atomSets, ts, incOrders, extOrders)
    ensures |w.hard| == 4 * |atoms| + Sum(BlockSizes(atomSets, ts))
    ensures |w.soft| == |ts| && |w.weights| == |ts|
  {
    assert w.soft == Softs(FincIds(|order|, ts)) && w.weights == Ones(|ts|);
    ListsCard(order, atoms);
    var blocks := TBlocks(ids, |order|, ts, incOrders, extOrders);
    ConcatLength(blocks);
    var lens := seq(|blocks|, i requires 0 <= i < |blocks| => |blocks[i]|);
    forall i | 0 <= i < |ts| ensures lens[i] == BlockSizes(atomSets, ts)[i] {
      ListsCard(incOrders[i], atomSets[i]);
    }
    assert lens == BlockSizes(atomSets, ts);
  }

  /** A clause of a formula block is a hard clause. */
  lemma InHard(w: Wcnf, pre: seq<Clause>, ids: Ids, n: nat, atomSets: seq<set<string>>,
               ts: seq<TseitinCnf>, incOrders: seq<seq<string>>, extOrders: seq<seq<seq<string>>>,
               i: nat, k: nat, x: Clause)
    requires EncodedUpTo(w, pre, ids, n, atomSets, ts, incOrders, extOrders)
    requires i < |ts| && k < |TBlocks(ids, n, ts, incOrders, extOrders)[i]|
    requires TBlocks(ids, n, ts, incOrders, extOrders)[i][k] == x
    ensures x in w.hard
  {
    InPreConcat(w.hard, pre, TBlocks(ids, n, ts, incOrders, extOrders), i, k, x);
  }

  /** The orders an encoded clause set was built with fit the formulas. */
  lemma OrdersPart(w: Wcnf, pre: seq<Clause>, ids: Ids, n: nat, atomSets: seq<set<string>>,
                   ts: seq<TseitinCnf>, incOrders: seq<seq<string>>, extOrders: seq<seq<seq<string>>>)
    requires EncodedUpTo(w, pre, ids, n, atomSets, ts, incOrders, extOrders)
    ensures OrdersFit(atomSets, ts, incOrders, extOrders)
  {
  }

  lemma TBlocksIndex(ids: Ids, n: nat, ts: seq<TseitinCnf>, incOrders: seq<seq<string>>,
                     extOrders: seq<seq<seq<string>>>, i: nat)
    requires |incOrders| == |ts| && |extOrders| == |ts|
    requires forall j :: 0 <= j < |ts| ==> |extOrders[j]| == |ts[j].clauses|
    requires i < |ts|
    ensures TBlocks(ids, n, ts, incOrders, extOrders)[i] == TBlock(ids, FincIds(n, ts)[i], incOrders[i], ts[i], extOrders[i])
  {
  }

  /** A block is its increment clauses followed by its body. */
  lemma TBlockBody(ids: Ids, finc: int, incOrder: seq<string>, t: TseitinCnf, orders: seq<seq<string>>, m: nat)
    requires |orders| == |t.clauses| && m <= |t.clauses|
    ensures TBlock(ids, finc, incOrder, t, orders)[|incOrder| + m] == Body(ids, finc + 1, t, orders)[m]
  {
  }

  lemma BodyRescued(ids: Ids, base: int, t: TseitinCnf, orders: seq<seq<string>>, j: nat)
    requires |orders| == |t.clauses| && j < |t.clauses|
    ensures Body(ids, base, t, orders)[1 + j] == SymClause(ids, base, t.clauses[j]) + BothOf(ids, orders[j])
  {
    assert Body(ids, base, t, orders)[1 + j] == RescuedT(ids, base, t.clauses, orders)[j];
  }

  /** The top clause of a block is a clause of the set the blocks extend. */
  lemma TopAt(ids: Ids, n: nat, ts: seq<TseitinCnf>, incOrders: seq<seq<string>>,
              extOrders: seq<seq<seq<string>>>, i: nat)
    requires |incOrders| == |ts| && |extOrders| == |ts|
    requires forall j :: 0 <= j < |ts| ==> |extOrders[j]| == |ts[j].clauses|
    requires i < |ts|
    ensures |incOrders[i]| < |TBlocks(ids, n, ts, incOrders, extOrders)[i]|
    ensures ts[i].clauses != [] ==>
              TBlocks(ids, n, ts, incOrders, extOrders)[i][|incOrders[i]|] == [TopLit(ids, FincIds(n, ts)[i] + 1, ts[i].top)]
    ensures ts[i].clauses == [] ==>
              TBlocks(ids, n, ts, incOrders, extOrders)[i][|incOrders[i]|]
              == [TopLit(ids, FincIds(n, ts)[i] + 1, ts[i].top)] + TopBoth(ids, ts[i].top)
  {
    TBlockBody(ids, FincIds(n, ts)[i], incOrders[i], ts[i], extOrders[i], 0);
  }

  lemma RescuedAt(ids: Ids, n: nat, ts: seq<TseitinCnf>, incOrders: seq<seq<string>>,
                  extOrders: seq<seq<seq<string>>>, i: nat, j: nat)
    requires |incOrders| == |ts| && |extOrders| == |ts|
    requires forall j :: 0 <= j < |ts| ==> |extOrders[j]| == |ts[j].clauses|
    requires i < |ts| && j < |ts[i].clauses|
    ensures |incOrders[i]| + 1 + j < |TBlocks(ids, n, ts, incOrders, extOrders)[i]|
    ensures TBlocks(ids, n, ts, incOrders, extOrders)[i][|incOrders[i]| + 1 + j]
            == SymClause(ids, FincIds(n, ts)[i] + 1, ts[i].clauses[j]) + BothOf(ids, extOrders[i][j])
  {
    var finc := FincIds(n, ts)[i];
    TBlockBody(ids, finc, incOrders[i], ts[i], extOrders[i], 1 + j);
    BodyRescued(ids, finc + 1, ts[i], extOrders[i], j);
  }

  /** A clause over auxiliaries only gets no `both` ids. */
  lemma NoBothIds(ids: Ids, c: Clause, order: seq<string>)
    requires Lists(order, {})
    ensures c + BothOf(ids, order) == c
  {
    ListsCard(order, {});
    assert BothOf(ids, order) == [];
  }

  /**
   * The top literal's clause: alone when the transform emits clauses,
   * otherwise followed by the `both` id of the atom it names.
   */
  lemma TopClause(w: Wcnf, pre: seq<Clause>, ids: Ids, n: nat, atomSets: seq<set<string>>,
                  ts: seq<TseitinCnf>, incOrders: seq<seq<string>>, extOrders: seq<seq<seq<string>>>, i: nat)
    requires EncodedUpTo(w, pre, ids, n, atomSets, ts, incOrders, extOrders) && i < |ts|
    ensures ts[i].clauses != [] ==> [TopLit(ids, FincIds(n, ts)[i] + 1, ts[i].top)] in w.hard
    ensures ts[i].clauses == [] ==>
              [TopLit(ids, FincIds(n, ts)[i] + 1, ts[i].top)] + TopBoth(ids, ts[i].top) in w.hard
  {
    TopAt(ids, n, ts, incOrders, extOrders, i);
    var top := [TopLit(ids, FincIds(n, ts)[i] + 1, ts[i].top)];
    if ts[i].clauses != [] {
      InHard(w, pre, ids, n, atomSets, ts, incOrders, extOrders, i, |incOrders[i]|, top);
    } else {
      InHard(w, pre, ids, n, atomSets, ts, incOrders, extOrders, i, |incOrders[i]|, top + TopBoth(ids, ts[i].top));
    }
  }

  /**
   * Transform clause `j` of formula `i`, remapped, followed by the `both` id
   * of each atom it writes; a clause over auxiliaries only is not extended.
   */
  lemma RemappedClause(w: Wcnf, pre: seq<Clause>, ids: Ids, n: nat, atomSets: seq<set<string>>,
                       ts: seq<TseitinCnf>, incOrders: seq<seq<string>>, extOrders: seq<seq<seq<string>>>,
                       i: nat, j: nat)
    requires EncodedUpTo(w, pre, ids, n, atomSets, ts, incOrders, extOrders)
    requires i < |ts| && j < |ts[i].clauses|
    ensures Lists(extOrders[i][j], SymAtoms(ts[i].clauses[j]))
    ensures SymClause(ids, FincIds(n, ts)[i] + 1, ts[i].clauses[j]) + BothOf(ids, extOrders[i][j]) in w.hard
    ensures SymAtoms(ts[i].clauses[j]) == {} ==> SymClause(ids, FincIds(n, ts)[i] + 1, ts[i].clauses[j]) in w.hard
  {
    OrdersPart(w, pre, ids, n, atomSets, ts, incOrders, extOrders);
    RescuedAt(ids, n, ts, incOrders, extOrders, i, j);
    InHard(w, pre, ids, n, atomSets, ts, incOrders, extOrders, i, |incOrders[i]| + 1 + j,
           SymClause(ids, FincIds(n, ts)[i] + 1, ts[i].clauses[j]) + BothOf(ids, extOrders[i][j]));
    if SymAtoms(ts[i].clauses[j]) == {} {
      NoBothIds(ids, SymClause(ids, FincIds(n, ts)[i] + 1, ts[i].clauses[j]), extOrders[i][j]);
    }
  }

  /**
   * After remapping, the only negative literals left are negated
   * auxiliaries: a negated atom became its positive `a_false` id.
   */
  lemma NegativeOnlyAux(ids: Ids, base: int, c: seq<TLit>, k: nat)
    requires FreshBelow(ids, base) && base >= 1 && KnowsSym(ids, c) && k < |c|
    ensures SymClause(ids, base, c)[k] < 0 <==> c[k].v.Aux? && !c[k].positive
  {
    if c[k].v.AtomVar? {
      assert HasTriple(ids, c[k].v.name);
    }
  }

  /**
   * In every model of the hard clauses, an atom takes exactly one of its
   * three values.
   */
  lemma OneValuePerAtom(model: set<int>, w: Wcnf, order: seq<string>, ids: Ids, atomSets: seq<set<string>>,
                        ts: seq<TseitinCnf>, incOrders: seq<seq<string>>, extOrders: seq<seq<seq<string>>>,
                        j: nat)
    requires EncodedUpTo(w, AtomBlocks(ids, order), ids, |order|, atomSets, ts, incOrders, extOrders)
    requires j < |order| && TripleAt(ids, order, j)
    requires AllTrue(model, w.hard)
    ensures OneOfThree(3 * j + 1 in model, 3 * j + 2 in model, 3 * j + 3 in model)
  {
    var cs := ExactlyOne(3 * j + 1, 3 * j + 2, 3 * j + 3);
    AtomBlocksAt(ids, order, j);
    assert AllTrue(model, cs) by {
      forall k | 0 <= k < 4 ensures ClauseTrue(model, cs[k]) {
        assert cs[k] == AtomBlocks(ids, order)[4 * j + k] == w.hard[4 * j + k];
      }
    }
    ExactlyOneMeaning(model, 3 * j + 1, 3 * j + 2, 3 * j + 3);
  }

  /** Clause `k` of formula `i`'s block, where `a` is its `k`-th atom, is `[finc_i, -a_both]`. */
  lemma IncAt(ids: Ids, n: nat, ts: seq<TseitinCnf>, incOrders: seq<seq<string>>,
              extOrders: seq<seq<seq<string>>>, i: nat, a: string) returns (k: nat)
    requires |incOrders| == |ts| && |extOrders| == |ts|
    requires forall j :: 0 <= j < |ts| ==> |extOrders[j]| == |ts[j].clauses|
    requires i < |ts| && a in incOrders[i]
    ensures k < |incOrders[i]| && incOrders[i][k] == a
    ensures k < |TBlocks(ids, n, ts, incOrders, extOrders)[i]|
    ensures TBlocks(ids, n, ts, incOrders, extOrders)[i][k] == [FincIds(n, ts)[i], -Id(ids, (a, B))]
  {
    k :| 0 <= k < |incOrders[i]| && incOrders[i][k] == a;
    var finc := FincIds(n, ts)[i];
    IncClausesAt(ids, finc, incOrders[i], k);
    assert TBlock(ids, finc, incOrders[i], ts[i], extOrders[i])[k] == IncClauses(ids, finc, incOrders[i])[k];
  }

  /** Formula `i`'s clause `[finc_i, -a_both]` for each of its atoms `a` is a hard clause. */
  lemma IncInHard(w: Wcnf, pre: seq<Clause>, ids: Ids, n: nat, atomSets: seq<set<string>>,
                  ts: seq<TseitinCnf>, incOrders: seq<seq<string>>, extOrders: seq<seq<seq<string>>>,
                  i: nat, a: string)
    requires EncodedUpTo(w, pre, ids, n, atomSets, ts, incOrders, extOrders)
    requires i < |ts| && a in atomSets[i]
    ensures [FincIds(n, ts)[i], -Id(ids, (a, B))] in w.hard
  {
    assert a in incOrders[i];
    var k := IncAt(ids, n, ts, incOrders, extOrders, i, a);
    InHard(w, pre, ids, n, atomSets, ts, incOrders, extOrders, i, k, [FincIds(n, ts)[i], -Id(ids, (a, B))]);
  }

  /** Formula `i` holds the clause `[finc_i, -a_both]` for each of its atoms `a`, and its soft clause is `[-finc_i]`. */
  lemma BothClause(w: Wcnf, pre: seq<Clause>, ids: Ids, n: nat, atomSets: seq<set<string>>, ts: seq<TseitinCnf>,
                   incOrders: seq<seq<string>>, extOrders: seq<seq<seq<string>>>, i: nat, a: string)
    requires EncodedUpTo(w, pre, ids, n, atomSets, ts, incOrders, extOrders)
    requires i < |ts| && a in atomSets[i]
    ensures [FincIds(n, ts)[i], -Id(ids, (a, B))] in w.hard
    ensures FincIds(n, ts)[i] > 0 && i < |w.soft| && w.soft[i] == [-FincIds(n, ts)[i]]
  {
    IncInHard(w, pre, ids, n, atomSets, ts, incOrders, extOrders, i, a);
    FincBounds(n, ts, i);
    SoftAt(w, pre, ids, n, atomSets, ts, incOrders, extOrders, i);
  }

  /**
   * In every model of the hard clauses, an atom of formula `i` that is
   * `both` makes `finc_i` true, so the soft clause `[-finc_i]` is violated.
   */
  lemma BothMakesInconsistent(model: set<int>, w: Wcnf, pre: seq<Clause>, ids: Ids, n: nat,
                              atomSets: seq<set<string>>, ts: seq<TseitinCnf>,
                              incOrders: seq<seq<string>>, extOrders: seq<seq<seq<string>>>, i: nat, a: string)
    requires EncodedUpTo(w, pre, ids, n, atomSets, ts, incOrders, extOrders)
    requires i < |ts| && a in atomSets[i] && AllTrue(model, w.hard)
    requires Id(ids, (a, B)) > 0 && Id(ids, (a, B)) in model
    ensures FincIds(n, ts)[i] in model && !ClauseTrue(model, w.soft[i])
  {
    BothClause(w, pre, ids, n, atomSets, ts, incOrders, extOrders, i, a);
    IncForces(model, w.hard, FincIds(n, ts)[i], Id(ids, (a, B)));
  }

  /**
   * In every model of the hard clauses, a transform clause none of whose
   * atoms is `both` is satisfied by its remapped literals alone.
   */
  lemma ClauseHoldsUnlessBoth(model: set<int>, w: Wcnf, pre: seq<Clause>, ids: Ids, n: nat,
                              atomSets: seq<set<string>>, ts: seq<TseitinCnf>,
                              incOrders: seq<seq<string>>, extOrders: seq<seq<seq<string>>>, i: nat, j: nat)
    requires EncodedUpTo(w, pre, ids, n, atomSets, ts, incOrders, extOrders)
    requires i < |ts| && j < |ts[i].clauses| && AllTrue(model, w.hard)
    requires forall x :: x in SymAtoms(ts[i].clauses[j]) ==> Id(ids, (x, B)) > 0 && Id(ids, (x, B)) !in model
    ensures ClauseTrue(model, SymClause(ids, FincIds(n, ts)[i] + 1, ts[i].clauses[j]))
  {
    var lits := SymClause(ids, FincIds(n, ts)[i] + 1, ts[i].clauses[j]);
    var order := extOrders[i][j];
    assert lits + BothOf(ids, order) in w.hard && Lists(order, SymAtoms(ts[i].clauses[j])) by {
      RemappedClause(w, pre, ids, n, atomSets, ts, incOrders, extOrders, i, j);
    }
    var m :| 0 <= m < |w.hard| && w.hard[m] == lits + BothOf(ids, order);
    assert ClauseTrue(model, w.hard[m]);
    RescuedHolds(model, lits, ids, order);
  }
}
