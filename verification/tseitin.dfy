/**
 * The Tseitin variant of the weighted-clause encoder. Atoms get their
 * t/f/b triples and exactly-one blocks exactly as in the naive encoder, and
 * every formula its `finc` id with the `[finc, -a_both]` clauses. The inner
 * clauses, however, come from a structure-sharing Tseitin transform that
 * draws auxiliary ids from the same pool and writes atoms by their `a_true`
 * ids. The encoder remaps those literals onto the t/f ids and extends each
 * clause with the `both` ids of the atoms it names.
 *
 * The transform itself is not part of this model. Its result for one formula
 * is given symbolically (`TseitinCnf`). The encoder instantiates that result
 * with the ids the pool hands out at the moment of the call.
 */
module TseitinEncoder {
  import opened Formulas
  import opened Knowledge
  import opened Clauses
  import opened Text

  // ---------------------------------------------------------------------
  // The transform's result, symbolically
  // ---------------------------------------------------------------------

  /** A variable of the transform's output: an atom (written by its `a_true` id) or auxiliary number `k`. */
  datatype TVar = AtomVar(name: string) | Aux(k: nat)

  datatype TLit = TLit(v: TVar, positive: bool)

  /**
   * `(top_var, tseitin_clauses)` for one formula: the representative literal,
   * the clauses, and how many fresh ids the transform takes from the pool
   * (auxiliary `k` is the `k`-th of them).
   */
  datatype TseitinCnf = TseitinCnf(top: TLit, clauses: seq<seq<TLit>>, aux: nat)

  /** A literal names an atom of the formula or one of the transform's own auxiliaries. */
  predicate LitFits(l: TLit, atoms: set<string>, aux: nat)
  {
    match l.v
    case AtomVar(a) => a in atoms
    case Aux(k) => k < aux
  }

  /** The transform of a formula only writes the formula's atoms and its own auxiliaries. */
  predicate Fits(t: TseitinCnf, atoms: set<string>)
  {
    && LitFits(t.top, atoms, t.aux)
    && forall j, k :: 0 <= j < |t.clauses| && 0 <= k < |t.clauses[j]| ==> LitFits(t.clauses[j][k], atoms, t.aux)
  }

  function Signed(x: int, positive: bool): int
  {
    if positive then x else -x
  }

  /** The integer literal the transform emits, given the atom-to-`a_true` map and its first fresh id. */
  function Inst(atomTrue: map<string, int>, base: int, l: TLit): int
    requires l.v.AtomVar? ==> l.v.name in atomTrue
  {
    match l.v
    case AtomVar(a) => Signed(atomTrue[a], l.positive)
    case Aux(k) => Signed(base + k, l.positive)
  }

  predicate MapsAtoms(atomTrue: map<string, int>, cs: seq<seq<TLit>>)
  {
    forall j, k :: 0 <= j < |cs| && 0 <= k < |cs[j]| && cs[j][k].v.AtomVar? ==> cs[j][k].v.name in atomTrue
  }

  function InstClauses(atomTrue: map<string, int>, base: int, cs: seq<seq<TLit>>): (r: seq<Clause>)
    requires MapsAtoms(atomTrue, cs)
    ensures |r| == |cs| && forall j :: 0 <= j < |cs| ==> |r[j]| == |cs[j]|
  {
    seq(|cs|, j requires 0 <= j < |cs| => seq(|cs[j]|, k requires 0 <= k < |cs[j]| => Inst(atomTrue, base, cs[j][k])))
  }

  // ---------------------------------------------------------------------
  // What `encode` makes of it, stated on the id map
  // ---------------------------------------------------------------------

  /** A literal as the transform emits it: atoms by their `a_true` id, auxiliaries from `base` on. */
  function TopLit(ids: Ids, base: int, l: TLit): int
  {
    match l.v
    case AtomVar(a) => Signed(Id(ids, (a, T)), l.positive)
    case Aux(k) => Signed(base + k, l.positive)
  }

  function TopClauses(ids: Ids, base: int, cs: seq<seq<TLit>>): (r: seq<Clause>)
    ensures |r| == |cs| && forall j :: 0 <= j < |cs| ==> |r[j]| == |cs[j]|
  {
    seq(|cs|, j requires 0 <= j < |cs| => seq(|cs[j]|, k requires 0 <= k < |cs[j]| => TopLit(ids, base, cs[j][k])))
  }

  /**
   * A literal after remapping: a positive atom is its `a_true` id, a negated
   * atom its `a_false` id (a positive number), an auxiliary keeps its sign.
   */
  function SymLit(ids: Ids, base: int, l: TLit): int
  {
    match l.v
    case AtomVar(a) => if l.positive then Id(ids, (a, T)) else Id(ids, (a, F))
    case Aux(k) => Signed(base + k, l.positive)
  }

  function SymClause(ids: Ids, base: int, c: seq<TLit>): (r: Clause)
    ensures |r| == |c|
  {
    seq(|c|, k requires 0 <= k < |c| => SymLit(ids, base, c[k]))
  }

  /** The atoms a clause of the transform writes. */
  function SymAtoms(c: seq<TLit>): set<string>
  {
    set k | 0 <= k < |c| && c[k].v.AtomVar? :: c[k].v.name
  }

  /** The `both` id that follows the top literal when the transform emits no clauses. */
  function TopBoth(ids: Ids, l: TLit): (c: Clause)
    ensures |c| <= 1
  {
    if l.v.AtomVar? then [Id(ids, (l.v.name, B))] else []
  }

  /** Each remapped clause, followed by the `both` ids of its atoms. */
  function RescuedT(ids: Ids, base: int, cs: seq<seq<TLit>>, orders: seq<seq<string>>): (r: seq<Clause>)
    requires |orders| == |cs|
    ensures |r| == |cs|
  {
    seq(|cs|, j requires 0 <= j < |cs| => SymClause(ids, base, cs[j]) + BothOf(ids, orders[j]))
  }

  ghost predicate RescueOrdersT(cs: seq<seq<TLit>>, orders: seq<seq<string>>)
  {
    |orders| == |cs| && forall j :: 0 <= j < |cs| ==> Lists(orders[j], SymAtoms(cs[j]))
  }

  /**
   * The clauses after the increment clauses: with no transform clauses, the
   * top literal with the `both` id of the atom it names; otherwise the unit
   * clause of the top literal and the rescued, remapped clauses.
   */
  function Body(ids: Ids, base: int, t: TseitinCnf, orders: seq<seq<string>>): (r: seq<Clause>)
    requires |orders| == |t.clauses|
    ensures |r| == 1 + |t.clauses|
  {
    if t.clauses == [] then [[TopLit(ids, base, t.top)] + TopBoth(ids, t.top)]
    else [[TopLit(ids, base, t.top)]] + RescuedT(ids, base, t.clauses, orders)
  }

  /** Formula block: the increment clauses, then the body, auxiliaries numbered from `finc + 1`. */
  function TBlock(ids: Ids, finc: int, incOrder: seq<string>, t: TseitinCnf, orders: seq<seq<string>>): (r: seq<Clause>)
    requires |orders| == |t.clauses|
    ensures |r| == |incOrder| + 1 + |t.clauses|
  {
    IncClauses(ids, finc, incOrder) + Body(ids, finc + 1, t, orders)
  }

  /** The number of pool ids the transforms take. */
  function AuxTotal(ts: seq<TseitinCnf>): nat
  {
    if ts == [] then 0 else AuxTotal(ts[..|ts| - 1]) + ts[|ts| - 1].aux
  }

  /** The pool's next id after the `3n` atom ids and the formulas `ts`: one `finc` and the auxiliaries each. */
  function NextId(n: nat, ts: seq<TseitinCnf>): int
  {
    3 * n + 1 + |ts| + AuxTotal(ts)
  }

  /** `formula_vars` after the formulas `ts`. */
  function FincIds(n: nat, ts: seq<TseitinCnf>): (r: seq<int>)
    ensures |r| == |ts|
  {
    seq(|ts|, i requires 0 <= i < |ts| => NextId(n, ts[..i]))
  }

  lemma FincIdsSnoc(n: nat, ts: seq<TseitinCnf>, t: TseitinCnf)
    ensures FincIds(n, ts + [t]) == FincIds(n, ts) + [NextId(n, ts)]
    ensures NextId(n, ts + [t]) == NextId(n, ts) + 1 + t.aux
  {
    var l, r := FincIds(n, ts + [t]), FincIds(n, ts) + [NextId(n, ts)];
    forall i | 0 <= i < |ts| ensures l[i] == r[i] {
      assert (ts + [t])[..i] == ts[..i];
    }
    assert (ts + [t])[..|ts|] == ts;
  }

  /** One soft clause `[-finc]` per formula. */
  function Softs(fincs: seq<int>): (r: seq<Clause>)
    ensures |r| == |fincs|
  {
    seq(|fincs|, i requires 0 <= i < |fincs| => [-fincs[i]])
  }

  lemma SoftsSnoc(fincs: seq<int>, x: int)
    ensures Softs(fincs + [x]) == Softs(fincs) + [[-x]]
  {
    var l, r := Softs(fincs + [x]), Softs(fincs) + [[-x]];
    forall i | 0 <= i < |l| ensures l[i] == r[i] {
      if i < |fincs| { assert (fincs + [x])[i] == fincs[i]; }
    }
  }

  ghost predicate OrdersFit(atomSets: seq<set<string>>, ts: seq<TseitinCnf>,
                            incOrders: seq<seq<string>>, extOrders: seq<seq<seq<string>>>)
  {
    && |incOrders| == |ts| && |extOrders| == |ts| && |atomSets| >= |ts|
    && (forall i :: 0 <= i < |ts| ==> Lists(incOrders[i], atomSets[i]))
    && (forall i :: 0 <= i < |ts| ==> RescueOrdersT(ts[i].clauses, extOrders[i]))
  }

  function TBlocks(ids: Ids, n: nat, ts: seq<TseitinCnf>, incOrders: seq<seq<string>>,
                   extOrders: seq<seq<seq<string>>>): (r: seq<seq<Clause>>)
    requires |incOrders| == |ts| && |extOrders| == |ts|
    requires forall i :: 0 <= i < |ts| ==> |extOrders[i]| == |ts[i].clauses|
    ensures |r| == |ts|
  {
    seq(|ts|, i requires 0 <= i < |ts| => TBlock(ids, FincIds(n, ts)[i], incOrders[i], ts[i], extOrders[i]))
  }

  /**
   * The clause set after the formulas `ts`, given the atom blocks `pre`: the
   * formula blocks as hard clauses, one soft clause `[-finc]` of weight 1 each.
   */
  ghost predicate EncodedUpTo(w: Wcnf, pre: seq<Clause>, ids: Ids, n: nat, atomSets: seq<set<string>>,
                              ts: seq<TseitinCnf>, incOrders: seq<seq<string>>, extOrders: seq<seq<seq<string>>>)
  {
    && OrdersFit(atomSets, ts, incOrders, extOrders)
    && w == Wcnf(pre + Concat(TBlocks(ids, n, ts, incOrders, extOrders)), Softs(FincIds(n, ts)), Ones(|ts|))
  }

  lemma TBlocksSnoc(ids: Ids, n: nat, ts: seq<TseitinCnf>, incOrders: seq<seq<string>>, extOrders: seq<seq<seq<string>>>,
                    t: TseitinCnf, io: seq<string>, eo: seq<seq<string>>)
    requires |incOrders| == |ts| && |extOrders| == |ts| && |eo| == |t.clauses|
    requires forall i :: 0 <= i < |ts| ==> |extOrders[i]| == |ts[i].clauses|
    ensures TBlocks(ids, n, ts + [t], incOrders + [io], extOrders + [eo])
         == TBlocks(ids, n, ts, incOrders, extOrders) + [TBlock(ids, NextId(n, ts), io, t, eo)]
  {
    FincIdsSnoc(n, ts, t);
    var l, r := TBlocks(ids, n, ts + [t], incOrders + [io], extOrders + [eo]),
                TBlocks(ids, n, ts, incOrders, extOrders) + [TBlock(ids, NextId(n, ts), io, t, eo)];
    forall i | 0 <= i < |ts| ensures l[i] == r[i] {
      assert (ts + [t])[i] == ts[i];
    }
  }

  lemma OrdersFitSnoc(atomSets: seq<set<string>>, ts: seq<TseitinCnf>, incOrders: seq<seq<string>>,
                      extOrders: seq<seq<seq<string>>>, t: TseitinCnf, io: seq<string>, eo: seq<seq<string>>)
    requires OrdersFit(atomSets, ts, incOrders, extOrders)
    requires |ts| < |atomSets| && Lists(io, atomSets[|ts|]) && RescueOrdersT(t.clauses, eo)
    ensures OrdersFit(atomSets, ts + [t], incOrders + [io], extOrders + [eo])
  {
    var ts', io', eo' := ts + [t], incOrders + [io], extOrders + [eo];
    forall i | 0 <= i < |ts'| ensures Lists(io'[i], atomSets[i]) && RescueOrdersT(ts'[i].clauses, eo'[i]) {
      if i < |ts| { assert io'[i] == incOrders[i] && ts'[i] == ts[i] && eo'[i] == extOrders[i]; }
    }
  }

  lemma HardStep(hard: seq<Clause>, pre: seq<Clause>, ids: Ids, n: nat, ts: seq<TseitinCnf>, incOrders: seq<seq<string>>,
                 extOrders: seq<seq<seq<string>>>, t: TseitinCnf, io: seq<string>, eo: seq<seq<string>>)
    requires |incOrders| == |ts| && |extOrders| == |ts| && |eo| == |t.clauses|
    requires forall i :: 0 <= i < |ts| ==> |extOrders[i]| == |ts[i].clauses|
    requires hard == pre + Concat(TBlocks(ids, n, ts, incOrders, extOrders))
    ensures hard + TBlock(ids, NextId(n, ts), io, t, eo) == pre + Concat(TBlocks(ids, n, ts + [t], incOrders + [io], extOrders + [eo]))
  {
    TBlocksSnoc(ids, n, ts, incOrders, extOrders, t, io, eo);
    AppendBlock(hard, pre, TBlocks(ids, n, ts, incOrders, extOrders), TBlock(ids, NextId(n, ts), io, t, eo));
  }

  lemma SoftStep(soft: seq<Clause>, weights: seq<int>, n: nat, ts: seq<TseitinCnf>, t: TseitinCnf)
    requires soft == Softs(FincIds(n, ts)) && weights == Ones(|ts|)
    ensures soft + [[-NextId(n, ts)]] == Softs(FincIds(n, ts + [t]))
    ensures weights + [1] == Ones(|ts + [t]|)
  {
    FincIdsSnoc(n, ts, t);
    SoftsSnoc(FincIds(n, ts), NextId(n, ts));
    assert Ones(|ts| + 1) == Ones(|ts|) + [1];
  }

  /** Encoding one more formula extends the clause set by its block and its soft clause. */
  lemma EncodedStep(w: Wcnf, pre: seq<Clause>, ids: Ids, n: nat, atomSets: seq<set<string>>,
                    ts: seq<TseitinCnf>, incOrders: seq<seq<string>>, extOrders: seq<seq<seq<string>>>,
                    t: TseitinCnf, io: seq<string>, eo: seq<seq<string>>, w': Wcnf)
    requires EncodedUpTo(w, pre, ids, n, atomSets, ts, incOrders, extOrders)
    requires |ts| < |atomSets| && Lists(io, atomSets[|ts|]) && RescueOrdersT(t.clauses, eo)
    requires w' == Wcnf(w.hard + TBlock(ids, NextId(n, ts), io, t, eo),
                        w.soft + [[-NextId(n, ts)]], w.weights + [1])
    ensures EncodedUpTo(w', pre, ids, n, atomSets, ts + [t], incOrders + [io], extOrders + [eo])
  {
    OrdersFitSnoc(atomSets, ts, incOrders, extOrders, t, io, eo);
    HardStep(w.hard, pre, ids, n, ts, incOrders, extOrders, t, io, eo);
    SoftStep(w.soft, w.weights, n, ts, t);
  }

  // ---------------------------------------------------------------------
  // Reading atoms back from integer clauses
  // ---------------------------------------------------------------------

  /** `get_atoms_from_clause_ids`: the atoms one of whose three ids occurs (up to sign) in the clause. */
  function AtomsNamedAny(ids: Ids, c: Clause): set<string>
  {
    set key | key in ids.Keys && exists k :: 0 <= k < |c| && ids[key] == Abs(c[k]) :: key.0
  }

  lemma AtomsNamedAnySnoc(ids: Ids, c: Clause, x: int)
    requires Injective(ids)
    ensures forall key :: key in ids.Keys && ids[key] == Abs(x) ==>
              AtomsNamedAny(ids, c + [x]) == AtomsNamedAny(ids, c) + {key.0}
    ensures (forall key :: key in ids.Keys ==> ids[key] != Abs(x)) ==>
              AtomsNamedAny(ids, c + [x]) == AtomsNamedAny(ids, c)
  {
    var c' := c + [x];
    forall key | key in ids.Keys
      ensures (exists k :: 0 <= k < |c'| && ids[key] == Abs(c'[k]))
          <==> (exists k :: 0 <= k < |c| && ids[key] == Abs(c[k])) || ids[key] == Abs(x)
    {
      if exists k :: 0 <= k < |c'| && ids[key] == Abs(c'[k]) {
        var k :| 0 <= k < |c'| && ids[key] == Abs(c'[k]);
        if k < |c| { assert c'[k] == c[k]; }
      }
      if exists k :: 0 <= k < |c| && ids[key] == Abs(c[k]) {
        var k :| 0 <= k < |c| && ids[key] == Abs(c[k]);
        assert c'[k] == c[k];
      }
      if ids[key] == Abs(x) {
        assert c'[|c|] == x;
      }
    }
  }

  /** All ids lie below `base`, where the transform's auxiliaries start. */
  predicate Below(ids: Ids, base: int)
  {
    forall key :: key in ids ==> ids[key] < base
  }

  predicate KnowsSym(ids: Ids, c: seq<TLit>)
  {
    forall k :: 0 <= k < |c| && c[k].v.AtomVar? ==> HasTriple(ids, c[k].v.name)
  }

  /**
   * A remapped clause names exactly the atoms the transform wrote into it:
   * auxiliaries lie above every atom id, and distinct keys have distinct ids.
   */
  lemma SymAtomsNamed(ids: Ids, base: int, c: seq<TLit>)
    requires FreshBelow(ids, base) && KnowsSym(ids, c)
    ensures AtomsNamedAny(ids, SymClause(ids, base, c)) == SymAtoms(c)
  {
    var m := SymClause(ids, base, c);
    forall a | a in SymAtoms(c) ensures a in AtomsNamedAny(ids, m) {
      var k :| 0 <= k < |c| && c[k].v.AtomVar? && c[k].v.name == a;
      var key := if c[k].positive then (a, T) else (a, F);
      assert ids[key] == Abs(m[k]);
    }
    forall a | a in AtomsNamedAny(ids, m) ensures a in SymAtoms(c) {
      var key :| key in ids.Keys && key.0 == a && exists k :: 0 <= k < |m| && ids[key] == Abs(m[k]);
      var k :| 0 <= k < |m| && ids[key] == Abs(m[k]);
      if c[k].v.AtomVar? {
        var key' := if c[k].positive then (c[k].v.name, T) else (c[k].v.name, F);
        assert ids[key'] == Abs(m[k]);
        assert key == key';
      }
    }
  }

  /** The top literal names its atom, if it is one. */
  lemma TopAtomsNamed(ids: Ids, base: int, l: TLit)
    requires FreshBelow(ids, base) && (l.v.AtomVar? ==> HasTriple(ids, l.v.name))
    ensures AtomsNamedAny(ids, [TopLit(ids, base, l)]) == (if l.v.AtomVar? then {l.v.name} else {})
  {
    var m := [TopLit(ids, base, l)];
    if l.v.AtomVar? {
      assert ids[(l.v.name, T)] == Abs(m[0]);
    }
    forall a | a in AtomsNamedAny(ids, m) ensures l.v.AtomVar? && a == l.v.name {
      var key :| key in ids.Keys && key.0 == a && exists k :: 0 <= k < |m| && ids[key] == Abs(m[k]);
      assert ids[key] == Abs(m[0]);
      if l.v.AtomVar? {
        assert key == (l.v.name, T);
      }
    }
  }

  /** A listing of a set of at most one element is determined. */
  lemma ListsSmall(order: seq<string>, S: set<string>, l: TLit)
    requires Lists(order, S) && S == (if l.v.AtomVar? then {l.v.name} else {})
    ensures order == (if l.v.AtomVar? then [l.v.name] else [])
  {
    ListsCard(order, S);
    if l.v.AtomVar? {
      assert order[0] in S;
    }
  }

  /** The transform's literals, instantiated with the `a_true` map, are the ones `TopLit` describes. */
  lemma InstAgrees(atomTrue: map<string, int>, ids: Ids, base: int, t: TseitinCnf)
    requires t.top.v.AtomVar? ==> t.top.v.name in atomTrue && atomTrue[t.top.v.name] == Id(ids, (t.top.v.name, T))
    requires MapsAtoms(atomTrue, t.clauses)
    requires forall j, k :: 0 <= j < |t.clauses| && 0 <= k < |t.clauses[j]| && t.clauses[j][k].v.AtomVar? ==>
               atomTrue[t.clauses[j][k].v.name] == Id(ids, (t.clauses[j][k].v.name, T))
    ensures Inst(atomTrue, base, t.top) == TopLit(ids, base, t.top)
    ensures InstClauses(atomTrue, base, t.clauses) == TopClauses(ids, base, t.clauses)
  {
    var cs := t.clauses;
    var r, r' := InstClauses(atomTrue, base, cs), TopClauses(ids, base, cs);
    forall j | 0 <= j < |cs| ensures r[j] == r'[j] {
      forall k | 0 <= k < |cs[j]| ensures r[j][k] == r'[j][k] {
        assert r[j][k] == Inst(atomTrue, base, cs[j][k]);
      }
    }
  }

  /** Visiting atom `x` of the extension loop, which keeps only the formula's own atoms. */
  lemma VisitKept(order: seq<string>, done: set<string>, rest: set<string>, all: set<string>,
                  original: set<string>, x: string)
    requires Lists(order, done * original) && done + rest == all && done !! rest && x in rest
    ensures x in original ==> Lists(order + [x], (done + {x}) * original)
    ensures x !in original ==> Lists(order, (done + {x}) * original)
    ensures (done + {x}) + (rest - {x}) == all && (done + {x}) !! (rest - {x})
    ensures |rest - {x}| < |rest|
  {
    if x in original {
      ListsSnoc(order, done * original, x);
      assert (done * original) + {x} == (done + {x}) * original;
    } else {
      assert done * original == (done + {x}) * original;
    }
  }

  // ---------------------------------------------------------------------
  // The encoder
  // ---------------------------------------------------------------------

  class Encoder {
    const formulas: seq<Formula>
    const atomsPerFormula: seq<set<string>>
    /** The id the shared pool hands out next. */
    var counter: int
    var atomVars: Ids
    var formulaVars: seq<int>

    /** One atom set per formula; ids are positive, below the pool's next id and pairwise distinct. */
    ghost predicate Valid()
      reads this
    {
      |atomsPerFormula| == |formulas| && counter >= 1 && FreshBelow(atomVars, counter)
    }

    constructor(kb: Kb)
      ensures formulas == kb.formulas && atomsPerFormula == AtomSets(kb.formulas)
      ensures counter == 1 && atomVars == map[] && formulaVars == []
      ensures Valid()
    {
      formulas := kb.formulas;
      atomsPerFormula := AtomSets(kb.formulas);
      counter := 1;
      atomVars := map[];
      formulaVars := [];
    }

    /** The pool's next id; the pool starts at 1. */
    method NewVar() returns (v: int)
      requires Valid()
      modifies this
      ensures Valid()
      ensures v == old(counter) && counter == old(counter) + 1
      ensures atomVars == old(atomVars) && formulaVars == old(formulaVars)
      ensures forall key :: key in atomVars ==> atomVars[key] < v
    {
      v := counter;
      counter := counter + 1;
    }

    /** Memoised: the first request for a key takes the pool's next id, later ones get the same id. */
    method GetVar(atom: string, kind: Kind) returns (v: int)
      requires Valid()
      modifies this
      ensures Valid() && formulaVars == old(formulaVars)
      ensures (atom, kind) in old(atomVars) ==>
                v == old(atomVars)[(atom, kind)] && atomVars == old(atomVars) && counter == old(counter)
      ensures (atom, kind) !in old(atomVars) ==>
                v == old(counter) && atomVars == old(atomVars)[(atom, kind) := v] && counter == old(counter) + 1
    {
      if (atom, kind) !in atomVars {
        var id := NewVar();
        atomVars := atomVars[(atom, kind) := id];
      }
      v := atomVars[(atom, kind)];
    }

    /** The atoms one of whose three ids occurs (up to sign) in the clause. */
    method GetAtomsFromClauseIds(clause: Clause) returns (atoms: set<string>)
      requires Valid()
      ensures atoms == AtomsNamedAny(atomVars, clause)
    {
      atoms := {};
      for k := 0 to |clause|
        invariant atoms == AtomsNamedAny(atomVars, clause[..k])
      {
        var v := Abs(clause[k]);
        AtomsNamedAnySnoc(atomVars, clause[..k], clause[k]);
        assert clause[..k + 1] == clause[..k] + [clause[k]];
        if key :| key in atomVars.Keys && atomVars[key] == v {
          atoms := atoms + {key.0};
        }
      }
      assert clause[..|clause|] == clause;
    }

    /** The three `get_var` calls for an atom seen for the first time: the pool's next three ids. */
    method TripleOf(a: string) returns (t: int, f: int, b: int)
      requires Valid() && (a, T) !in atomVars && (a, F) !in atomVars && (a, B) !in atomVars
      modifies this
      ensures Valid() && formulaVars == old(formulaVars) && counter == old(counter) + 3
      ensures t == old(counter) && f == old(counter) + 1 && b == old(counter) + 2
      ensures atomVars == old(atomVars)[(a, T) := t][(a, F) := f][(a, B) := b]
    {
      t := GetVar(a, T);
      f := GetVar(a, F);
      b := GetVar(a, B);
    }

    /** The exactly-one block of every atom of the knowledge base, before any formula id is drawn. */
    method EncodeAtoms() returns (wcnf: Wcnf, ghost order: seq<string>)
      requires Valid() && atomVars == map[] && counter == 1
      modifies this
      ensures Valid() && formulaVars == old(formulaVars)
      ensures Lists(order, Union(atomsPerFormula))
      ensures forall key :: key in atomVars <==> key.0 in Union(atomsPerFormula)
      ensures forall j :: 0 <= j < |order| ==> TripleAt(atomVars, order, j)
      ensures counter == 3 * |order| + 1
      ensures wcnf == Wcnf(AtomBlocks(atomVars, order), [], [])
    {
      var all := Union(atomsPerFormula);
      var rest := all;
      ghost var done := {};
      wcnf := NoClauses;
      order := [];
      while rest != {}
        invariant Valid() && formulaVars == old(formulaVars)
        invariant Lists(order, done) && done + rest == all && done !! rest
        invariant forall key :: key in atomVars <==> key.0 in done
        invariant forall j :: 0 <= j < |order| ==> TripleAt(atomVars, order, j)
        invariant counter == 3 * |order| + 1
        invariant wcnf.hard == AtomBlocks(atomVars, order) && wcnf.soft == [] && wcnf.weights == []
        decreases |rest|
      {
        var a :| a in rest;
        ghost var before := atomVars;
        var t, f, b := TripleOf(a);
        AddExactlyOne(wcnf, t, f, b);
        wcnf := wcnf.AddHard([t, f, b]).AddHard([-t, -f]).AddHard([-t, -b]).AddHard([-f, -b]);
        TriplesStep(before, atomVars, order, done, a);
        Visit(order, done, rest, all, a);
        order := order + [a];
        done := done + {a};
        rest := rest - {a};
      }
    }

    /** `[finc, -a_both]` for each atom of a formula, in set order. */
    method IncBlock(finc: int, atoms: set<string>) returns (cs: seq<Clause>, ghost order: seq<string>)
      requires Valid() && KnowsAtoms(atomVars, atoms)
      modifies this
      ensures Valid() && atomVars == old(atomVars) && counter == old(counter) && formulaVars == old(formulaVars)
      ensures Lists(order, atoms) && cs == IncClauses(atomVars, finc, order)
    {
      var rest := atoms;
      ghost var done := {};
      cs := [];
      order := [];
      while rest != {}
        invariant Valid() && atomVars == old(atomVars) && counter == old(counter) && formulaVars == old(formulaVars)
        invariant Lists(order, done) && done + rest == atoms && done !! rest
        invariant cs == IncClauses(atomVars, finc, order)
        decreases |rest|
      {
        var a :| a in rest;
        assert HasTriple(atomVars, a);
        var b := GetVar(a, B);
        IncStep(atomVars, finc, order, a, cs, b);
        Visit(order, done, rest, atoms, a);
        cs := cs + [[finc, -b]];
        order := order + [a];
        done := done + {a};
        rest := rest - {a};
      }
    }

    /** The `both` ids of those atoms of a set that belong to the formula, in the order the set is visited. */
    method BothIdsIn(atoms: set<string>, original: set<string>) returns (c: Clause, ghost order: seq<string>)
      requires Valid() && KnowsAtoms(atomVars, atoms * original)
      modifies this
      ensures Valid() && atomVars == old(atomVars) && counter == old(counter) && formulaVars == old(formulaVars)
      ensures Lists(order, atoms * original) && c == BothOf(atomVars, order)
    {
      c := [];
      order := [];
      ghost var done := {};
      var rest := atoms;
      while rest != {}
        invariant Valid() && atomVars == old(atomVars) && counter == old(counter) && formulaVars == old(formulaVars)
        invariant Lists(order, done * original) && done + rest == atoms && done !! rest
        invariant c == BothOf(atomVars, order)
        decreases |rest|
      {
        var a :| a in rest;
        VisitKept(order, done, rest, atoms, original, a);
        if a in original {
          assert HasTriple(atomVars, a);
          var b := GetVar(a, B);
          BothOfSnoc(atomVars, order, a);
          c := c + [b];
          order := order + [a];
        }
        done := done + {a};
        rest := rest - {a};
      }
    }

    /**
     * The Tseitin transform of one formula, called with the shared pool: its
     * auxiliaries are the pool's next `t.aux` ids, its atoms are written by
     * their `a_true` ids.
     */
    method Transform(t: TseitinCnf, atomTrue: map<string, int>) returns (top: int, clauses: seq<Clause>, ghost base: int)
      requires Valid()
      requires (t.top.v.AtomVar? ==> t.top.v.name in atomTrue) && MapsAtoms(atomTrue, t.clauses)
      modifies this
      ensures Valid() && atomVars == old(atomVars) && formulaVars == old(formulaVars)
      ensures base == old(counter) && counter == old(counter) + t.aux
      ensures top == Inst(atomTrue, base, t.top) && clauses == InstClauses(atomTrue, base, t.clauses)
    {
      var first := counter;
      counter := counter + t.aux;
      top := Inst(atomTrue, first, t.top);
      clauses := InstClauses(atomTrue, first, t.clauses);
      base := first;
    }

    /**
     * One literal of a transform clause: searching the id map, an `a_true` id
     * becomes `a_true` or `a_false` by the literal's sign; any other id is
     * kept as it is.
     */
    method RemapLit(lit: int, ghost l: TLit, ghost base: int) returns (m: int)
      requires Valid() && Below(atomVars, base) && base >= 1
      requires l.v.AtomVar? ==> HasTriple(atomVars, l.v.name)
      requires lit == TopLit(atomVars, base, l)
      modifies this
      ensures Valid() && atomVars == old(atomVars) && counter == old(counter) && formulaVars == old(formulaVars)
      ensures m == SymLit(atomVars, base, l)
    {
      var v := Abs(lit);
      if key :| key in atomVars.Keys && atomVars[key] == v {
        if key.1 == T {
          assert key == (l.v.name, T);
          if lit > 0 {
            m := GetVar(key.0, T);
          } else {
            m := GetVar(key.0, F);
          }
        } else {
          // the search goes on past this key, finds no other with this id, and keeps the literal
          m := lit;
        }
      } else {
        m := lit;
      }
    }

    /** A transform clause, literal by literal. */
    method RemapClause(clause: Clause, ghost c: seq<TLit>, ghost base: int) returns (mapped: Clause)
      requires Valid() && Below(atomVars, base) && base >= 1 && KnowsSym(atomVars, c)
      requires |clause| == |c| && forall k :: 0 <= k < |c| ==> clause[k] == TopLit(atomVars, base, c[k])
      modifies this
      ensures Valid() && atomVars == old(atomVars) && counter == old(counter) && formulaVars == old(formulaVars)
      ensures mapped == SymClause(atomVars, base, c)
    {
      mapped := [];
      for k := 0 to |clause|
        invariant Valid() && atomVars == old(atomVars) && counter == old(counter) && formulaVars == old(formulaVars)
        invariant |mapped| == k && forall j :: 0 <= j < k ==> mapped[j] == SymLit(atomVars, base, c[j])
      {
        var m := RemapLit(clause[k], c[k], base);
        mapped := mapped + [m];
      }
    }

    /** Every transform clause remapped and extended with the `both` ids of the formula's atoms it names. */
    method RescueClauses(clauses: seq<Clause>, ghost cs: seq<seq<TLit>>, ghost base: int, original: set<string>)
      returns (out: seq<Clause>, ghost orders: seq<seq<string>>)
      requires Valid() && Below(atomVars, base) && base >= 1 && KnowsAtoms(atomVars, original)
      requires forall j, k :: 0 <= j < |cs| && 0 <= k < |cs[j]| && cs[j][k].v.AtomVar? ==> cs[j][k].v.name in original
      requires clauses == TopClauses(atomVars, base, cs)
      modifies this
      ensures Valid() && atomVars == old(atomVars) && counter == old(counter) && formulaVars == old(formulaVars)
      ensures RescueOrdersT(cs, orders) && out == RescuedT(atomVars, base, cs, orders)
    {
      out := [];
      orders := [];
      for j := 0 to |clauses|
        invariant Valid() && atomVars == old(atomVars) && counter == old(counter) && formulaVars == old(formulaVars)
        invariant |orders| == j && forall i :: 0 <= i < j ==> Lists(orders[i], SymAtoms(cs[i]))
        invariant |out| == j && forall i :: 0 <= i < j ==> out[i] == SymClause(atomVars, base, cs[i]) + BothOf(atomVars, orders[i])
      {
        assert KnowsSym(atomVars, cs[j]);
        var mapped := RemapClause(clauses[j], cs[j], base);
        var atoms := GetAtomsFromClauseIds(mapped);
        SymAtomsNamed(atomVars, base, cs[j]);
        assert atoms * original == atoms;
        var ext, o := BothIdsIn(atoms, original);
        out := out + [mapped + ext];
        orders := orders + [o];
      }
    }

    /**
     * One formula: its `finc`, the `[finc, -a_both]` clauses, the transform's
     * clauses remapped and rescued, and the soft clause `[-finc]`.
     */
    method EncodeFormula(idx: nat, wcnf: Wcnf, t: TseitinCnf, atomTrue: map<string, int>)
      returns (w: Wcnf, ghost incOrder: seq<string>, ghost extOrder: seq<seq<string>>)
      requires Valid() && idx < |formulas|
      requires KnowsAtoms(atomVars, atomsPerFormula[idx]) && Fits(t, atomsPerFormula[idx])
      requires forall a :: a in atomsPerFormula[idx] ==> a in atomTrue && atomTrue[a] == Id(atomVars, (a, T))
      modifies this
      ensures Valid() && atomVars == old(atomVars) && counter == old(counter) + 1 + t.aux
      ensures formulaVars == old(formulaVars) + [old(counter)]
      ensures Lists(incOrder, atomsPerFormula[idx]) && RescueOrdersT(t.clauses, extOrder)
      ensures w == Wcnf(wcnf.hard + TBlock(atomVars, old(counter), incOrder, t, extOrder),
                        wcnf.soft + [[-old(counter)]], wcnf.weights + [1])
    {
      var finc := NewVar();
      formulaVars := formulaVars + [finc];
      var original := atomsPerFormula[idx];
      var inc, order := IncBlock(finc, original);
      incOrder := order;
      InstAgrees(atomTrue, atomVars, finc + 1, t);
      var top, clauses, base := Transform(t, atomTrue);
      var body, eo := EncodeBody(top, clauses, t, base, original);
      extOrder := eo;
      var block := inc + body;
      assert block == TBlock(atomVars, finc, incOrder, t, extOrder);
      w := Wcnf(wcnf.hard + block, wcnf.soft, wcnf.weights);
      w := w.AddWeighted([-finc], 1);
    }

    /** What follows the increment clauses, for the transform's top literal and clauses. */
    method EncodeBody(top: int, clauses: seq<Clause>, ghost t: TseitinCnf, ghost base: int, original: set<string>)
      returns (body: seq<Clause>, ghost extOrder: seq<seq<string>>)
      requires Valid() && Below(atomVars, base) && base >= 1 && KnowsAtoms(atomVars, original) && Fits(t, original)
      requires top == TopLit(atomVars, base, t.top) && clauses == TopClauses(atomVars, base, t.clauses)
      modifies this
      ensures Valid() && atomVars == old(atomVars) && counter == old(counter) && formulaVars == old(formulaVars)
      ensures RescueOrdersT(t.clauses, extOrder) && body == Body(atomVars, base, t, extOrder)
    {
      if |clauses| == 0 {
        var named := GetAtomsFromClauseIds([top]);
        TopAtomsNamed(atomVars, base, t.top);
        assert named * original == named;
        var ext, o := BothIdsIn(named, original);
        ListsSmall(o, named, t.top);
        assert ext == TopBoth(atomVars, t.top);
        body := [[top] + ext];
        extOrder := [];
      } else {
        var rescued, orders := RescueClauses(clauses, t.clauses, base, original);
        body := [[top]] + rescued;
        extOrder := orders;
      }
    }

    /** The maps the atom part leaves behind: `atom_vars` and the `a_T` ids keyed by atom name. */
    static ghost predicate SharedMaps(ids: Ids, atomTrue: map<string, int>, atomSets: seq<set<string>>)
    {
      && (forall key :: key in ids <==> key.0 in Union(atomSets))
      && (forall a :: a in atomTrue <==> a in Union(atomSets))
      && (forall a :: a in atomTrue ==> atomTrue[a] == Id(ids, (a, T)))
    }

    /** The `a_T` ids read off `atom_vars` after the atom part are the shared maps. */
    static lemma SharedMapsAfterAtoms(ids: Ids, atomSets: seq<set<string>>)
      requires forall key :: key in ids <==> key.0 in Union(atomSets)
      ensures (forall a :: a in Union(atomSets) ==> (a, T) in ids)
      ensures SharedMaps(ids, map a | a in Union(atomSets) :: Id(ids, (a, T)), atomSets)
    {
      forall a | a in Union(atomSets) ensures (a, T) in ids {
        var key := (a, T);
        assert key.0 in Union(atomSets);
      }
    }

    /** The shared maps cover the atoms of formula `idx`. */
    static lemma FormulaKnown(ids: Ids, atomTrue: map<string, int>, atomSets: seq<set<string>>, idx: nat)
      requires idx < |atomSets| && SharedMaps(ids, atomTrue, atomSets)
      ensures KnowsAtoms(ids, atomSets[idx])
      ensures forall a :: a in atomSets[idx] ==> a in atomTrue && atomTrue[a] == Id(ids, (a, T))
    {
      UnionContains(atomSets, idx);
      KnowsSubset(ids, Union(atomSets), atomSets[idx]);
    }

    /** The pool and `formula_vars` once the formula loop has encoded the formulas `done`. */
    static ghost predicate Counted(n: nat, done: seq<TseitinCnf>, counter: int, formulaVars: seq<int>)
    {
      counter == NextId(n, done) && formulaVars == FincIds(n, done)
    }

    /** One turn of the formula loop takes the pool and `formula_vars` from `done` to `done + [t]`. */
    static lemma CountedStep(n: nat, done: seq<TseitinCnf>, t: TseitinCnf,
                             counter0: int, formulaVars0: seq<int>, counter1: int, formulaVars1: seq<int>)
      requires Counted(n, done, counter0, formulaVars0)
      requires counter1 == counter0 + 1 + t.aux && formulaVars1 == formulaVars0 + [counter0]
      ensures Counted(n, done + [t], counter1, formulaVars1)
    {
      FincIdsSnoc(n, done, t);
    }

    /** One turn of the formula loop: formula `idx`, with the shared maps of the atom part. */
    method EncodeNext(idx: nat, wcnf: Wcnf, t: TseitinCnf, atomTrue: map<string, int>,
                      ghost n: nat, ghost pre: seq<Clause>, ghost done: seq<TseitinCnf>,
                      ghost incOrders: seq<seq<string>>, ghost extOrders: seq<seq<seq<string>>>)
      returns (w: Wcnf, ghost io: seq<string>, ghost eo: seq<seq<string>>)
      requires Valid() && idx < |formulas| && |done| == idx && Fits(t, atomsPerFormula[idx])
      requires SharedMaps(atomVars, atomTrue, atomsPerFormula) && Counted(n, done, counter, formulaVars)
      requires EncodedUpTo(wcnf, pre, atomVars, n, atomsPerFormula, done, incOrders, extOrders)
      modifies this
      ensures Valid() && atomVars == old(atomVars) && Counted(n, done + [t], counter, formulaVars)
      ensures EncodedUpTo(w, pre, atomVars, n, atomsPerFormula, done + [t], incOrders + [io], extOrders + [eo])
    {
      FormulaKnown(atomVars, atomTrue, atomsPerFormula, idx);
      ghost var counter0, formulaVars0 := counter, formulaVars;
      w, io, eo := EncodeFormula(idx, wcnf, t, atomTrue);
      CountedStep(n, done, t, counter0, formulaVars0, counter, formulaVars);
      EncodedStep(wcnf, pre, atomVars, n, atomsPerFormula, done, incOrders, extOrders, t, io, eo, w);
    }

    /** The formula loop of `encode`, after the atom blocks: one block and one soft clause per formula. */
    method EncodeFormulas(wcnf0: Wcnf, ts: seq<TseitinCnf>, atomTrue: map<string, int>, ghost n: nat)
      returns (w: Wcnf, ghost incOrders: seq<seq<string>>, ghost extOrders: seq<seq<seq<string>>>)
      requires Valid() && counter == 3 * n + 1 && formulaVars == [] && |ts| == |formulas|
      requires forall i :: 0 <= i < |ts| ==> Fits(ts[i], atomsPerFormula[i])
      requires SharedMaps(atomVars, atomTrue, atomsPerFormula)
      requires wcnf0.soft == [] && wcnf0.weights == []
      modifies this
      ensures Valid() && atomVars == old(atomVars)
      ensures formulaVars == FincIds(n, ts) && counter == NextId(n, ts)
      ensures EncodedUpTo(w, wcnf0.hard, atomVars, n, atomsPerFormula, ts, incOrders, extOrders)
    {
      ghost var ids := atomVars;
      ghost var done: seq<TseitinCnf> := [];
      w := wcnf0;
      incOrders, extOrders := [], [];
      assert TBlocks(ids, n, [], [], []) == [];
      for idx := 0 to |ts|
        invariant Valid() && atomVars == ids && done == ts[..idx]
        invariant Counted(n, done, counter, formulaVars)
        invariant EncodedUpTo(w, wcnf0.hard, ids, n, atomsPerFormula, done, incOrders, extOrders)
      {
        ghost var io, eo;
        w, io, eo := EncodeNext(idx, w, ts[idx], atomTrue, n, wcnf0.hard, done, incOrders, extOrders);
        TakeNext(ts, idx);
        done := done + [ts[idx]];
        incOrders := incOrders + [io];
        extOrders := extOrders + [eo];
      }
      assert ts[..|ts|] == ts;
    }

    /**
     * `encode` on a fresh encoder, given the transform's result for each
     * formula: the exactly-one blocks of all atoms, then per formula its block
     * and its soft clause `[-finc_i]` of weight 1.
     */
    method Encode(ts: seq<TseitinCnf>) returns (w: Wcnf, ghost atomOrder: seq<string>,
                                               ghost incOrders: seq<seq<string>>, ghost extOrders: seq<seq<seq<string>>>)
      requires Valid() && atomVars == map[] && counter == 1 && formulaVars == []
      requires |ts| == |formulas| && forall i :: 0 <= i < |ts| ==> Fits(ts[i], atomsPerFormula[i])
      modifies this
      ensures Valid()
      ensures Lists(atomOrder, Union(atomsPerFormula))
      ensures forall key :: key in atomVars <==> key.0 in Union(atomsPerFormula)
      ensures forall j :: 0 <= j < |atomOrder| ==> TripleAt(atomVars, atomOrder, j)
      ensures formulaVars == FincIds(|atomOrder|, ts) && counter == NextId(|atomOrder|, ts)
      ensures EncodedUpTo(w, AtomBlocks(atomVars, atomOrder), atomVars, |atomOrder|, atomsPerFormula, ts, incOrders, extOrders)
    {
      var wcnf;
      wcnf, atomOrder := EncodeAtoms();
      var all := Union(atomsPerFormula);
      SharedMapsAfterAtoms(atomVars, atomsPerFormula);
      var atomTrue := map a | a in all :: atomVars[(a, T)];
      assert atomTrue == map a | a in all :: Id(atomVars, (a, T));
      w, incOrders, extOrders := EncodeFormulas(wcnf, ts, atomTrue, |atomOrder|);
    }
  }
}
