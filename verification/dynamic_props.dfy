/**
 * What `generate_dynamic_clauses` produces: where its ids lie, where each
 * clause sits, how many there are, and what every model of the hard clauses
 * satisfies; and what `solve_maxsat` hands to the engine.
 */
module DynamicProperties {
  import opened Wrappers
  import opened Clauses
  import opened DynamicEncoder
  import opened DynamicSolve

  /** The `3n` atom ids are distinct and lie in `1..3n`. */
  lemma AtomIdsDistinct(n: nat, k: nat, d: Kind, k': nat, d': Kind)
    requires k < n && k' < n
    ensures 1 <= AtomId(n, k, d) <= 3 * n
    ensures AtomId(n, k, d) == AtomId(n, k', d') ==> k == k' && d == d'
  {
  }

  /** The inconsistency ids are distinct and above every atom id. */
  lemma FincIdsAboveAtoms(n: nat, i: nat, j: nat, k: nat, d: Kind)
    requires k < n
    ensures FincVar(n, i) > 3 * n && FincVar(n, i) > AtomId(n, k, d)
    ensures FincVar(n, i) == FincVar(n, j) ==> i == j
  {
  }

  /** Clauses `4j .. 4j + 3` of the atom part are the exactly-one clauses of atom `j`. */
  lemma {:induction false} AtomHardAt(n: nat, k: nat, j: nat, r: nat)
    requires j < k && r < 4
    ensures AtomHard(n, k)[4 * j + r] == ExactlyOne(Triple(n, j).0, Triple(n, j).1, Triple(n, j).2)[r]
  {
    if j < k - 1 {
      AtomHardAt(n, k - 1, j, r);
    }
  }

  /** Every atom of entry `i` contributes `[finc_i, -a_both]`. */
  lemma {:induction false} IncAllContains(m: map<nat, IdTriple>, n: nat, incOrders: seq<seq<nat>>, i: nat, a: nat)
    requires forall j :: 0 <= j < |incOrders| ==> Maps(m, incOrders[j])
    requires i < |incOrders| && a in incOrders[i] && a in m
    ensures [FincVar(n, i), -m[a].2] in IncAll(m, n, incOrders)
  {
    var last := |incOrders| - 1;
    if i < last {
      assert incOrders[..last][i] == incOrders[i];
      IncAllContains(m, n, incOrders[..last], i, a);
    } else {
      var k :| 0 <= k < |incOrders[i]| && incOrders[i][k] == a;
      var tail := IncOf(m, FincVar(n, i), incOrders[i]);
      assert IncAll(m, n, incOrders)[|IncAll(m, n, incOrders[..last])| + k] == tail[k];
    }
  }

  /** The length of the `finc` part: one clause per atom occurrence in an entry's atom set. */
  lemma {:induction false} IncAllLength(m: map<nat, IdTriple>, n: nat, incOrders: seq<seq<nat>>)
    requires forall j :: 0 <= j < |incOrders| ==> Maps(m, incOrders[j])
    ensures |IncAll(m, n, incOrders)| == Sum(seq(|incOrders|, j requires 0 <= j < |incOrders| => |incOrders[j]|))
  {
    if incOrders != [] {
      var last := |incOrders| - 1;
      IncAllLength(m, n, incOrders[..last]);
      var lens := seq(|incOrders|, j requires 0 <= j < |incOrders| => |incOrders[j]|);
      assert lens[..last] == seq(last, j requires 0 <= j < last => |incOrders[..last][j]|);
    }
  }

  /**
   * Literal `j` of an entry becomes ids `2j` and `2j + 1` of its clause:
   * `a_true` for a positive literal, `a_false` otherwise, then `a_both`.
   */
  lemma {:induction false} EntryClauseAt(m: map<nat, IdTriple>, c: Entry, j: nat)
    requires MapsEntry(m, c) && j < |c|
    ensures EntryClause(m, c)[2 * j] == (if c[j] > 0 then m[Abs(c[j])].0 else m[Abs(c[j])].1)
    ensures EntryClause(m, c)[2 * j + 1] == m[Abs(c[j])].2
  {
    var last := |c| - 1;
    if j < last {
      assert c[..last][j] == c[j];
      EntryClauseAt(m, c[..last], j);
    }
  }

  /** Clause `i` of the entry part is entry `i`'s clause. */
  lemma {:induction false} EntryClausesAt(m: map<nat, IdTriple>, kb: seq<Entry>, i: nat)
    requires forall j :: 0 <= j < |kb| ==> MapsEntry(m, kb[j])
    requires i < |kb|
    ensures EntryClauses(m, kb)[i] == EntryClause(m, kb[i])
  {
    var last := |kb| - 1;
    if i < last {
      assert kb[..last][i] == kb[i];
      EntryClausesAt(m, kb[..last], i);
    }
  }

  /** The number of atoms in each entry. */
  function EntrySizes(kb: seq<Entry>): (r: seq<nat>)
    ensures |r| == |kb|
  {
    seq(|kb|, i requires 0 <= i < |kb| => |ClauseVars(kb[i])|)
  }

  /** The `finc` part has one clause per atom of each entry. */
  lemma IncPartLength(kb: seq<Entry>, m: map<nat, IdTriple>, n: nat, incOrders: seq<seq<nat>>)
    requires |incOrders| == |kb|
    requires forall j :: 0 <= j < |kb| ==> Lists(incOrders[j], ClauseVars(kb[j]))
    requires forall j :: 0 <= j < |kb| ==> Maps(m, incOrders[j])
    ensures |IncAll(m, n, incOrders)| == Sum(EntrySizes(kb))
  {
    IncAllLength(m, n, incOrders);
    var lens := seq(|incOrders|, j requires 0 <= j < |incOrders| => |incOrders[j]|);
    forall j | 0 <= j < |kb| ensures lens[j] == EntrySizes(kb)[j] {
      ListsCard(incOrders[j], ClauseVars(kb[j]));
    }
    assert lens == EntrySizes(kb);
  }

  /** Four hard clauses per atom, one per atom of each entry, one per entry. */
  lemma ClauseCounts(kb: seq<Entry>, order: seq<nat>, incOrders: seq<seq<nat>>,
                     hard: seq<Clause>, soft: seq<(Clause, int)>)
    requires Generated(kb, order, incOrders, hard, soft)
    ensures |order| == |AllAtoms(kb)|
    ensures |hard| == 4 * |AllAtoms(kb)| + Sum(EntrySizes(kb)) + |kb|
  {
    ListsCard(order, AllAtoms(kb));
    IncPartLength(kb, AtomMapping(order), |order|, incOrders);
  }

  /** One soft clause `([-finc_i], 1)` per entry, in entry order. */
  lemma SoftClausesInOrder(kb: seq<Entry>, order: seq<nat>, incOrders: seq<seq<nat>>,
                           hard: seq<Clause>, soft: seq<(Clause, int)>, i: nat)
    requires Generated(kb, order, incOrders, hard, soft) && i < |kb|
    ensures |soft| == |kb| && soft[i] == ([-FincVar(|order|, i)], 1)
  {
  }

  /** In every model of the hard clauses, an atom takes exactly one of its three values. */
  lemma OneValuePerAtom(model: set<int>, kb: seq<Entry>, order: seq<nat>, incOrders: seq<seq<nat>>,
                        hard: seq<Clause>, soft: seq<(Clause, int)>, j: nat)
    requires Generated(kb, order, incOrders, hard, soft) && AllTrue(model, hard)
    requires j < |order|
    ensures OneOfThree(j + 1 in model, j + |order| + 1 in model, j + 2 * |order| + 1 in model)
  {
    var n := |order|;
    var (t, f, b) := Triple(n, j);
    var cs := ExactlyOne(t, f, b);
    assert AllTrue(model, cs) by {
      forall r | 0 <= r < 4 ensures ClauseTrue(model, cs[r]) {
        AtomHardAt(n, n, j, r);
        assert cs[r] == hard[4 * j + r];
      }
    }
    ExactlyOneMeaning(model, t, f, b);
  }

  /**
   * In every model of the hard clauses, an atom of entry `i` that is `both`
   * makes `finc_i` true, so the soft clause `[-finc_i]` is violated.
   */
  lemma BothMakesInconsistent(model: set<int>, kb: seq<Entry>, order: seq<nat>, incOrders: seq<seq<nat>>,
                              hard: seq<Clause>, soft: seq<(Clause, int)>, i: nat, a: nat)
    requires Generated(kb, order, incOrders, hard, soft) && AllTrue(model, hard)
    requires i < |kb| && a in ClauseVars(kb[i]) && AtomMapping(order)[a].2 in model
    ensures FincVar(|order|, i) in model && !ClauseTrue(model, soft[i].0)
  {
    var m := AtomMapping(order);
    var n := |order|;
    assert a in AllAtoms(kb) by { AllAtomsContains(kb, i); }
    var k := ListsIndex(order, AllAtoms(kb), a);
    assert m[a] == Triple(n, k);
    assert [FincVar(n, i), -m[a].2] in hard by {
      assert a in incOrders[i];
      IncAllContains(m, n, incOrders, i, a);
    }
    IncForces(model, hard, FincVar(n, i), m[a].2);
  }

  /** Every id of the mapping is positive. */
  lemma MappingPositive(order: seq<nat>)
    requires NoDup(order)
    ensures forall a :: a in AtomMapping(order) ==>
              AtomMapping(order)[a].0 > 0 && AtomMapping(order)[a].1 > 0 && AtomMapping(order)[a].2 > 0
  {
    forall a | a in AtomMapping(order)
      ensures AtomMapping(order)[a].0 > 0 && AtomMapping(order)[a].1 > 0 && AtomMapping(order)[a].2 > 0
    {
      var k :| 0 <= k < |order| && order[k] == a;
      assert AtomMapping(order)[a] == Triple(|order|, k);
    }
  }

  /** Entry `i`'s clause is a hard clause. */
  lemma EntryInHard(kb: seq<Entry>, order: seq<nat>, incOrders: seq<seq<nat>>,
                    hard: seq<Clause>, soft: seq<(Clause, int)>, i: nat)
    requires Generated(kb, order, incOrders, hard, soft) && i < |kb|
    ensures EntryClause(AtomMapping(order), kb[i]) in hard
  {
    var m := AtomMapping(order);
    var front := AtomHard(|order|, |order|) + IncAll(m, |order|, incOrders);
    EntryClausesAt(m, kb, i);
    assert hard[|front| + i] == EntryClause(m, kb[i]);
  }

  /**
   * A true entry clause whose atoms are none of them `both` has a true
   * `a_true` id of a positive literal or `a_false` id of a negative one.
   */
  lemma EntryClauseHolds(model: set<int>, m: map<nat, IdTriple>, c: Entry)
    requires MapsEntry(m, c) && ClauseTrue(model, EntryClause(m, c))
    requires forall a :: a in m ==> m[a].0 > 0 && m[a].1 > 0 && m[a].2 > 0
    requires forall l :: l in c ==> m[Abs(l)].2 !in model
    ensures exists j :: 0 <= j < |c| && (if c[j] > 0 then m[Abs(c[j])].0 else m[Abs(c[j])].1) in model
  {
    var ids := EntryClause(m, c);
    var p :| 0 <= p < |ids| && LitTrue(model, ids[p]);
    var j := p / 2;
    EntryClauseAt(m, c, j);
    assert c[j] in c;
    if p == 2 * j + 1 {
      assert false;
    }
  }

  /**
   * In every model of the hard clauses, an entry none of whose atoms is
   * `both` is satisfied by a literal's own id: `a_true` for a positive
   * literal, `a_false` for a negative one.
   */
  lemma ClauseHoldsUnlessBoth(model: set<int>, kb: seq<Entry>, order: seq<nat>, incOrders: seq<seq<nat>>,
                              hard: seq<Clause>, soft: seq<(Clause, int)>, i: nat)
    requires Generated(kb, order, incOrders, hard, soft) && AllTrue(model, hard)
    requires i < |kb|
    requires forall a :: a in ClauseVars(kb[i]) ==> AtomMapping(order)[a].2 !in model
    ensures exists j :: 0 <= j < |kb[i]| &&
              (if kb[i][j] > 0 then AtomMapping(order)[Abs(kb[i][j])].0 else AtomMapping(order)[Abs(kb[i][j])].1) in model
  {
    var m := AtomMapping(order);
    EntryInHard(kb, order, incOrders, hard, soft, i);
    MappingPositive(order);
    forall l | l in kb[i] ensures m[Abs(l)].2 !in model {
      assert Abs(l) in ClauseVars(kb[i]);
    }
    EntryClauseHolds(model, m, kb[i]);
  }

  /** `solver_map` accepts exactly its six names. */
  lemma SolverNamesAccepted(name: string)
    ensures SolverCode(name).Some? <==> name in SolverNames
  {
  }

  /**
   * The knowledge base becomes the hard clauses exactly when neither clause
   * list is given; an empty list given is not the same as none, and then
   * the knowledge base is dropped. Given pairs of weight zero join the hard
   * clauses; when every given weight is non-zero, the soft part is exactly
   * the given pairs.
   */
  lemma KbOnlyWithoutClauseLists(kb: seq<Clause>, hard: Option<seq<Clause>>, soft: Option<seq<(Clause, int)>>)
    ensures hard.None? && soft.None? ==> Assembled(kb, hard, soft) == Wcnf(kb, [], [])
    ensures hard.Some? && soft.None? ==> Assembled(kb, hard, soft) == Wcnf(hard.value, [], [])
    ensures soft.Some? ==>
              Assembled(kb, hard, soft).hard == (if hard.Some? then hard.value else []) + ZeroWeighted(soft.value)
    ensures soft.Some? && (forall k :: 0 <= k < |soft.value| ==> soft.value[k].1 != 0) ==>
              && Assembled(kb, hard, soft).hard == (if hard.Some? then hard.value else [])
              && |Assembled(kb, hard, soft).soft| == |soft.value|
              && forall i :: 0 <= i < |soft.value| ==>
                   (Assembled(kb, hard, soft).soft[i], Assembled(kb, hard, soft).weights[i]) == soft.value[i]
  {
    assert ClausesOf([]) == [] && WeightsOf([]) == [] && ZeroWeighted([]) == [] && Weighted([]) == [];
    if soft.Some? {
      WeightSplit(soft.value);
    }
  }
}
