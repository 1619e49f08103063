/**
 * The naive weighted-clause encoder: every atom gets three ids (t/f/b) with
 * an exactly-one block, every formula an inconsistency id `finc` that must
 * be true once one of its atoms is `both`, and the formula's naive CNF is
 * added clause by clause, each clause "rescued" by the `both` ids of the
 * atoms it names. One soft clause `[-finc]` per formula asks for as few
 * inconsistent formulas as possible.
 */
module NaiveEncoder {
  import opened Wrappers
  import opened Formulas
  import opened Knowledge
  import opened Clauses

  /** `extract_clause_literals` met a subformula that is not an atom, a negated atom or a disjunction. */
  datatype EncodeError = UnknownClauseStructure(f: Formula)

  /** A literal of an extracted clause: the atom, and whether it occurs positively. */
  type Literal = (string, bool)

  /** The id a literal is encoded by: `a_true` for a positive atom, `a_false` for a negated one. */
  function LitKey(l: Literal): (string, Kind)
  {
    (l.0, if l.1 then T else F)
  }

  // ---------------------------------------------------------------------
  // What the extraction computes, on formulas
  // ---------------------------------------------------------------------

  /** The literals of one clause, left to right, or the first subformula that is not one. */
  function ClauseLiterals(f: Formula): Result<seq<Literal>, EncodeError>
  {
    match f
    case Or(l, r) =>
      (match ClauseLiterals(l)
       case Err(e) => Err(e)
       case Ok(a) =>
         match ClauseLiterals(r)
         case Err(e) => Err(e)
         case Ok(b) => Ok(a + b))
    case Atom(n) => Ok([(n, true)])
    case Not(Atom(n)) => Ok([(n, false)])
    case _ => Err(UnknownClauseStructure(f))
  }

  /** The clauses of a formula: an AND splits, anything else is a single clause. */
  function ExtractSpec(f: Formula): Result<seq<seq<Literal>>, EncodeError>
  {
    if f.And? then
      match ExtractSpec(f.left)
      case Err(e) => Err(e)
      case Ok(a) =>
        match ExtractSpec(f.right)
        case Err(e) => Err(e)
        case Ok(b) => Ok(a + b)
    else
      match ClauseLiterals(f)
      case Err(e) => Err(e)
      case Ok(c) => Ok([c])
  }

  /** The clauses of every formula in order, or the first failure. */
  function ExtractAll(fs: seq<Formula>): Result<seq<seq<seq<Literal>>>, EncodeError>
  {
    if fs == [] then Ok([])
    else
      match ExtractAll(fs[..|fs| - 1])
      case Err(e) => Err(e)
      case Ok(cs) =>
        match ExtractSpec(fs[|fs| - 1])
        case Err(e) => Err(e)
        case Ok(c) => Ok(cs + [c])
  }

  /** The formulas extract together exactly when each extracts, and then position by position. */
  lemma {:induction false} ExtractAllMeaning(fs: seq<Formula>)
    ensures ExtractAll(fs).Ok? <==> forall i :: 0 <= i < |fs| ==> ExtractSpec(fs[i]).Ok?
    ensures ExtractAll(fs).Ok? ==>
              |ExtractAll(fs).value| == |fs|
              && forall i :: 0 <= i < |fs| ==> ExtractAll(fs).value[i] == ExtractSpec(fs[i]).value
    decreases |fs|
  {
    if fs != [] {
      var n := |fs| - 1;
      ExtractAllMeaning(fs[..n]);
      assert forall i :: 0 <= i < n ==> fs[..n][i] == fs[i];
    }
  }

  /** A failure among the first `i` formulas is the failure of all of them. */
  lemma {:induction false} ExtractAllFirstError(fs: seq<Formula>, i: nat)
    requires i <= |fs| && ExtractAll(fs[..i]).Err?
    ensures ExtractAll(fs) == ExtractAll(fs[..i])
    decreases |fs|
  {
    if i < |fs| {
      var n := |fs| - 1;
      assert fs[..n][..i] == fs[..i];
      ExtractAllFirstError(fs[..n], i);
    } else {
      assert fs[..i] == fs;
    }
  }

  /** One more formula: its clauses are appended, or its failure is the result. */
  lemma ExtractAllNext(fs: seq<Formula>, i: nat)
    requires i < |fs| && ExtractAll(fs[..i]).Ok?
    ensures ExtractSpec(fs[i]).Err? ==> ExtractAll(fs[..i + 1]) == Err(ExtractSpec(fs[i]).error)
    ensures ExtractSpec(fs[i]).Ok? ==>
              ExtractAll(fs[..i + 1]) == Ok(ExtractAll(fs[..i]).value + [ExtractSpec(fs[i]).value])
  {
    assert fs[..i + 1][..i] == fs[..i];
  }

  function LitAtoms(lits: seq<Literal>): set<string>
  {
    set j | 0 <= j < |lits| :: lits[j].0
  }

  /** A clause of atoms and negated atoms has literals for exactly its atoms. */
  lemma {:induction false} ClauseLiteralsCorrect(f: Formula)
    ensures ClauseLiterals(f).Ok? <==> IsClause(f) && !HasConstant(f)
    ensures ClauseLiterals(f).Ok? ==> LitAtoms(ClauseLiterals(f).value) == Atoms(f)
  {
    match f
    case Or(l, r) =>
      ClauseLiteralsCorrect(l);
      ClauseLiteralsCorrect(r);
      if ClauseLiterals(f).Ok? {
        LitAtomsAppend(ClauseLiterals(l).value, ClauseLiterals(r).value);
      }
    case Atom(n) =>
      assert LitAtoms([(n, true)]) == {n} by { assert [(n, true)][0].0 == n; }
    case Not(x) =>
      if x.Atom? {
        assert LitAtoms([(x.name, false)]) == {x.name} by { assert [(x.name, false)][0].0 == x.name; }
      }
    case _ =>
  }

  lemma LitAtomsAppend(a: seq<Literal>, b: seq<Literal>)
    ensures LitAtoms(a + b) == LitAtoms(a) + LitAtoms(b)
  {
    forall x | x in LitAtoms(a) + LitAtoms(b) ensures x in LitAtoms(a + b) {
      if x in LitAtoms(a) {
        var j :| 0 <= j < |a| && a[j].0 == x;
        assert (a + b)[j] == a[j];
      } else {
        var j :| 0 <= j < |b| && b[j].0 == x;
        assert (a + b)[|a| + j] == b[j];
      }
    }
  }

  function ClauseAtoms(cs: seq<seq<Literal>>): set<string>
  {
    if cs == [] then {} else ClauseAtoms(cs[..|cs| - 1]) + LitAtoms(cs[|cs| - 1])
  }

  /**
   * On a CNF formula the extraction fails exactly when a TRUE or FALSE leaf
   * is present; otherwise its clauses name exactly the formula's atoms.
   */
  lemma {:induction false} ExtractSpecCorrect(f: Formula)
    requires IsCnf(f)
    ensures ExtractSpec(f).Ok? <==> !HasConstant(f)
    ensures ExtractSpec(f).Ok? ==> ClauseAtoms(ExtractSpec(f).value) == Atoms(f)
  {
    if f.And? {
      ExtractSpecCorrect(f.left);
      ExtractSpecCorrect(f.right);
      if ExtractSpec(f).Ok? {
        ClauseAtomsAppend(ExtractSpec(f.left).value, ExtractSpec(f.right).value);
      }
    } else {
      ClauseLiteralsCorrect(f);
      if ExtractSpec(f).Ok? {
        var c := ClauseLiterals(f).value;
        assert [c][..0] == [];
      }
    }
  }

  lemma {:induction false} ClauseAtomsAppend(a: seq<seq<Literal>>, b: seq<seq<Literal>>)
    ensures ClauseAtoms(a + b) == ClauseAtoms(a) + ClauseAtoms(b)
    decreases |b|
  {
    if b != [] {
      var n := |b| - 1;
      assert (a + b)[..|a + b| - 1] == a + b[..n];
      ClauseAtomsAppend(a, b[..n]);
    } else {
      assert a + b == a;
    }
  }

  /** The naive CNF of a formula can be encoded iff the formula has no TRUE or FALSE leaf. */
  lemma EncodableIffNoConstant(f: Formula)
    ensures ExtractSpec(Formulas.ToCnf(f)).Ok? <==> !HasConstant(f)
  {
    ToCnfCorrect(f, {});
    ExtractSpecCorrect(Formulas.ToCnf(f));
  }

  // ---------------------------------------------------------------------
  // The ids of extracted clauses
  // ---------------------------------------------------------------------

  predicate KnowsLits(ids: Ids, lits: seq<Literal>)
  {
    forall j :: 0 <= j < |lits| ==> LitKey(lits[j]) in ids
  }

  /** The clause `extract_clause_literals` returns for these literals. */
  function MapLits(ids: Ids, lits: seq<Literal>): (c: Clause)
    ensures |c| == |lits|
  {
    seq(|lits|, j requires 0 <= j < |lits| => Id(ids, LitKey(lits[j])))
  }

  predicate KnowsClauses(ids: Ids, cs: seq<seq<Literal>>)
  {
    forall j :: 0 <= j < |cs| ==> KnowsLits(ids, cs[j])
  }

  function MapClauses(ids: Ids, cs: seq<seq<Literal>>): (r: seq<Clause>)
    ensures |r| == |cs|
  {
    seq(|cs|, j requires 0 <= j < |cs| => MapLits(ids, cs[j]))
  }

  lemma MapLitsExtends(ids: Ids, ids': Ids, lits: seq<Literal>)
    requires KnowsLits(ids, lits) && Extends(ids, ids')
    ensures KnowsLits(ids', lits) && MapLits(ids', lits) == MapLits(ids, lits)
  {
  }

  /** Clauses mapped under `ids` keep their ids once `ids'` extends it, so two lists can be joined. */
  lemma MapClausesJoin(ids: Ids, ids': Ids, la: seq<seq<Literal>>, lb: seq<seq<Literal>>)
    requires KnowsClauses(ids, la) && Extends(ids, ids') && KnowsClauses(ids', lb)
    ensures KnowsClauses(ids', la + lb)
    ensures MapClauses(ids', la + lb) == MapClauses(ids, la) + MapClauses(ids', lb)
  {
    forall j | 0 <= j < |la| ensures KnowsLits(ids', la[j]) && MapLits(ids', la[j]) == MapLits(ids, la[j]) {
      MapLitsExtends(ids, ids', la[j]);
    }
    assert MapClauses(ids', la + lb) == MapClauses(ids', la) + MapClauses(ids', lb);
  }

  lemma MapLitsAppend(ids: Ids, a: seq<Literal>, b: seq<Literal>)
    ensures MapLits(ids, a + b) == MapLits(ids, a) + MapLits(ids, b)
  {
  }

  /** The atoms whose t or f id is (the variable of) a literal of `c`. */
  function AtomsNamed(ids: Ids, c: Clause): set<string>
  {
    set key | key in ids.Keys && key.1 != B && exists k :: 0 <= k < |c| && ids[key] == Abs(c[k]) :: key.0
  }

  /** With distinct ids, an encoded clause names exactly the atoms of its literals. */
  lemma AtomsNamedByMapped(ids: Ids, lits: seq<Literal>)
    requires Injective(ids) && KnowsLits(ids, lits)
    requires forall key :: key in ids ==> ids[key] > 0
    ensures AtomsNamed(ids, MapLits(ids, lits)) == LitAtoms(lits)
  {
    var c := MapLits(ids, lits);
    forall a | a in LitAtoms(lits) ensures a in AtomsNamed(ids, c) {
      var j :| 0 <= j < |lits| && lits[j].0 == a;
      var key := LitKey(lits[j]);
      assert ids[key] == Abs(c[j]);
    }
    forall a | a in AtomsNamed(ids, c) ensures a in LitAtoms(lits) {
      var key :| key in ids.Keys && key.1 != B && key.0 == a && exists k :: 0 <= k < |c| && ids[key] == Abs(c[k]);
      var k :| 0 <= k < |c| && ids[key] == Abs(c[k]);
      assert ids[LitKey(lits[k])] == c[k];
      assert key == LitKey(lits[k]);
    }
  }

  // ---------------------------------------------------------------------
  // The clause blocks `encode` emits
  // ---------------------------------------------------------------------

  /** Each clause's ids followed by the `both` ids of its atoms. */
  function Rescued(ids: Ids, cs: seq<seq<Literal>>, orders: seq<seq<string>>): (r: seq<Clause>)
    requires |orders| == |cs|
    ensures |r| == |cs|
  {
    seq(|cs|, j requires 0 <= j < |cs| => MapLits(ids, cs[j]) + BothOf(ids, orders[j]))
  }

  /** The extension of clause `j` visits each of its atoms once. */
  ghost predicate RescueOrders(cs: seq<seq<Literal>>, orders: seq<seq<string>>)
  {
    |orders| == |cs| && forall j :: 0 <= j < |cs| ==> Lists(orders[j], LitAtoms(cs[j]))
  }

  function FormulaBlock(ids: Ids, finc: int, incOrder: seq<string>, cs: seq<seq<Literal>>, orders: seq<seq<string>>): (r: seq<Clause>)
    requires |orders| == |cs|
    ensures |r| == |incOrder| + |cs|
  {
    IncClauses(ids, finc, incOrder) + Rescued(ids, cs, orders)
  }

  /** `finc_i` for formula `i` when `n` atoms hold the ids `1 .. 3n`. */
  function Finc(n: nat, i: nat): int
  {
    3 * n + i + 1
  }

  /** `formula_vars` after `m` formulas: `finc_0 .. finc_{m-1}`. */
  function FincIds(n: nat, m: nat): (r: seq<int>)
    ensures |r| == m
  {
    if m == 0 then [] else FincIds(n, m - 1) + [Finc(n, m - 1)]
  }

  lemma FincIdsSnoc(n: nat, m: nat)
    ensures FincIds(n, m + 1) == FincIds(n, m) + [3 * n + m + 1]
  {
  }

  /** One soft clause `[-finc_i]` per formula. */
  function SoftClauses(n: nat, m: nat): (r: seq<Clause>)
    ensures |r| == m
  {
    seq(m, i requires 0 <= i < m => [-Finc(n, i)])
  }

  ghost predicate OrdersFit(atomSets: seq<set<string>>, cls: seq<seq<seq<Literal>>>,
                            incOrders: seq<seq<string>>, extOrders: seq<seq<seq<string>>>)
  {
    && |incOrders| == |cls| && |extOrders| == |cls| && |atomSets| >= |cls|
    && (forall i :: 0 <= i < |cls| ==> Lists(incOrders[i], atomSets[i]))
    && (forall i :: 0 <= i < |cls| ==> RescueOrders(cls[i], extOrders[i]))
  }

  function FormulaBlocks(ids: Ids, n: nat, incOrders: seq<seq<string>>, cls: seq<seq<seq<Literal>>>,
                         extOrders: seq<seq<seq<string>>>): (r: seq<seq<Clause>>)
    requires |incOrders| == |cls| && |extOrders| == |cls|
    requires forall i :: 0 <= i < |cls| ==> |extOrders[i]| == |cls[i]|
    ensures |r| == |cls|
  {
    seq(|cls|, i requires 0 <= i < |cls| => FormulaBlock(ids, Finc(n, i), incOrders[i], cls[i], extOrders[i]))
  }

  lemma FormulaBlocksSnoc(ids: Ids, n: nat, incOrders: seq<seq<string>>, cls: seq<seq<seq<Literal>>>,
                          extOrders: seq<seq<seq<string>>>, io: seq<string>, c: seq<seq<Literal>>, eo: seq<seq<string>>)
    requires |incOrders| == |cls| && |extOrders| == |cls|
    requires forall i :: 0 <= i < |cls| ==> |extOrders[i]| == |cls[i]|
    requires |eo| == |c|
    ensures FormulaBlocks(ids, n, incOrders + [io], cls + [c], extOrders + [eo])
         == FormulaBlocks(ids, n, incOrders, cls, extOrders) + [FormulaBlock(ids, Finc(n, |cls|), io, c, eo)]
  {
  }

  /**
   * The clause set after `k` formulas, given the atom blocks `pre`: the
   * formula blocks so far as hard clauses, one soft clause per formula.
   */
  ghost predicate EncodedUpTo(w: Wcnf, pre: seq<Clause>, ids: Ids, n: nat, atomSets: seq<set<string>>,
                              cls: seq<seq<seq<Literal>>>, incOrders: seq<seq<string>>,
                              extOrders: seq<seq<seq<string>>>)
  {
    && OrdersFit(atomSets, cls, incOrders, extOrders)
    && w == Wcnf(pre + Concat(FormulaBlocks(ids, n, incOrders, cls, extOrders)),
                 SoftClauses(n, |cls|), Ones(|cls|))
  }

  /** Encoding formula `k` extends the clause set by its block and its soft clause. */
  lemma EncodedStep(w: Wcnf, pre: seq<Clause>, ids: Ids, n: nat, atomSets: seq<set<string>>,
                    cls: seq<seq<seq<Literal>>>, incOrders: seq<seq<string>>, extOrders: seq<seq<seq<string>>>,
                    io: seq<string>, c: seq<seq<Literal>>, eo: seq<seq<string>>, w': Wcnf)
    requires EncodedUpTo(w, pre, ids, n, atomSets, cls, incOrders, extOrders)
    requires |cls| < |atomSets| && Lists(io, atomSets[|cls|]) && RescueOrders(c, eo)
    requires w' == Wcnf(w.hard + FormulaBlock(ids, 3 * n + |cls| + 1, io, c, eo),
                        w.soft + [[-(3 * n + |cls| + 1)]], w.weights + [1])
    ensures EncodedUpTo(w', pre, ids, n, atomSets, cls + [c], incOrders + [io], extOrders + [eo])
  {
    OrdersFitSnoc(atomSets, cls, incOrders, extOrders, io, c, eo);
    FormulaBlocksSnoc(ids, n, incOrders, cls, extOrders, io, c, eo);
    AppendBlock(w.hard, pre, FormulaBlocks(ids, n, incOrders, cls, extOrders), FormulaBlock(ids, Finc(n, |cls|), io, c, eo));
    SoftStep(n, |cls|);
  }

  lemma OrdersFitSnoc(atomSets: seq<set<string>>, cls: seq<seq<seq<Literal>>>, incOrders: seq<seq<string>>,
                      extOrders: seq<seq<seq<string>>>, io: seq<string>, c: seq<seq<Literal>>, eo: seq<seq<string>>)
    requires OrdersFit(atomSets, cls, incOrders, extOrders)
    requires |cls| < |atomSets| && Lists(io, atomSets[|cls|]) && RescueOrders(c, eo)
    ensures OrdersFit(atomSets, cls + [c], incOrders + [io], extOrders + [eo])
  {
    var cls', io', eo' := cls + [c], incOrders + [io], extOrders + [eo];
    forall i | 0 <= i < |cls'| ensures Lists(io'[i], atomSets[i]) && RescueOrders(cls'[i], eo'[i]) {
      if i < |cls| { assert io'[i] == incOrders[i] && cls'[i] == cls[i] && eo'[i] == extOrders[i]; }
    }
  }

  lemma SoftStep(n: nat, k: nat)
    ensures SoftClauses(n, k + 1) == SoftClauses(n, k) + [[-Finc(n, k)]]
    ensures Ones(k + 1) == Ones(k) + [1]
  {
  }

  // ---------------------------------------------------------------------
  // The encoder
  // ---------------------------------------------------------------------

  class Encoder {
    const formulas: seq<Formula>
    const cnfFormulas: seq<Formula>
    const atomsPerFormula: seq<set<string>>
    /** The id `new_var` hands out next. */
    var counter: int
    var atomVars: Ids
    var formulaVars: seq<int>

    /** The CNF copy of formula `i` is in CNF and has the atoms recorded for the formula. */
    ghost predicate ShapedAt(i: nat)
      requires i < |cnfFormulas| && i < |atomsPerFormula|
    {
      IsCnf(cnfFormulas[i]) && Atoms(cnfFormulas[i]) == atomsPerFormula[i]
    }

    /** Position by position, the CNF copies and the atom sets match the formulas. */
    ghost predicate Shaped()
    {
      && |cnfFormulas| == |formulas| && |atomsPerFormula| == |formulas|
      && (forall i :: 0 <= i < |formulas| ==> ShapedAt(i))
    }

    /** Ids are positive, below the counter and pairwise distinct. */
    ghost predicate Valid()
      reads this
    {
      Shaped() && counter >= 1 && FreshBelow(atomVars, counter)
    }

    constructor(kb: Kb)
      ensures formulas == kb.formulas && cnfFormulas == kb.ToCnf()
      ensures atomsPerFormula == AtomSets(kb.formulas)
      ensures counter == 1 && atomVars == map[] && formulaVars == []
      ensures Valid()
    {
      formulas := kb.formulas;
      cnfFormulas := kb.ToCnf();
      atomsPerFormula := AtomSets(kb.formulas);
      counter := 1;
      atomVars := map[];
      formulaVars := [];
    }

    /** The next id of the counter, which starts at 1. */
    method NewVar() returns (v: int)
      requires Valid()
      modifies this
      ensures Valid()
      ensures v == old(counter) && counter == old(counter) + 1
      ensures atomVars == old(atomVars) && formulaVars == old(formulaVars)
      ensures forall key :: key in atomVars ==> atomVars[key] < v
    {
      v := counter;
      counter := counter + 1;
    }

    /** Memoised: the first request for a key takes the next id, later ones get the same id. */
    method GetVar(atom: string, kind: Kind) returns (v: int)
      requires Valid()
      modifies this
      ensures Valid() && formulaVars == old(formulaVars)
      ensures (atom, kind) in old(atomVars) ==>
                v == old(atomVars)[(atom, kind)] && atomVars == old(atomVars) && counter == old(counter)
      ensures (atom, kind) !in old(atomVars) ==>
                v == old(counter) && atomVars == old(atomVars)[(atom, kind) := v] && counter == old(counter) + 1
    {
      if (atom, kind) !in atomVars {
        var id := NewVar();
        atomVars := atomVars[(atom, kind) := id];
      }
      v := atomVars[(atom, kind)];
    }

    /** The ids of a clause's literals; fails on anything but atoms, negated atoms and OR. */
    method ExtractClauseLiterals(f: Formula) returns (r: Result<Clause, EncodeError>)
      requires Valid()
      modifies this
      decreases f
      ensures Valid() && formulaVars == old(formulaVars) && Extends(old(atomVars), atomVars)
      ensures KnowsAtoms(old(atomVars), Atoms(f)) ==> atomVars == old(atomVars) && counter == old(counter)
      ensures r.Ok? <==> ClauseLiterals(f).Ok?
      ensures r.Err? ==> r.error == ClauseLiterals(f).error
      ensures r.Ok? ==> KnowsLits(atomVars, ClauseLiterals(f).value) && r.value == MapLits(atomVars, ClauseLiterals(f).value)
    {
      if f.Or? {
        assert KnowsAtoms(atomVars, Atoms(f)) ==>
          KnowsAtoms(atomVars, Atoms(f.left)) && KnowsAtoms(atomVars, Atoms(f.right));
        var a := ExtractClauseLiterals(f.left);
        if a.Err? {
          return Err(a.error);
        }
        ghost var mid := atomVars;
        var b := ExtractClauseLiterals(f.right);
        if b.Err? {
          return Err(b.error);
        }
        MapLitsExtends(mid, atomVars, ClauseLiterals(f.left).value);
        MapLitsAppend(atomVars, ClauseLiterals(f.left).value, ClauseLiterals(f.right).value);
        r := Ok(a.value + b.value);
      } else if f.Atom? {
        assert KnowsAtoms(atomVars, Atoms(f)) ==> HasTriple(atomVars, f.name);
        var v := GetVar(f.name, T);
        r := Ok([v]);
      } else if f.Not? && f.left.Atom? {
        assert Atoms(f) == Atoms(f.left) == {f.left.name};
        assert KnowsAtoms(atomVars, Atoms(f)) ==> HasTriple(atomVars, f.left.name);
        var v := GetVar(f.left.name, F);
        r := Ok([v]);
      } else {
        r := Err(UnknownClauseStructure(f));
      }
    }

    /** The clauses of a CNF formula: AND splits, anything else is one clause. */
    method ExtractClauses(f: Formula) returns (r: Result<seq<Clause>, EncodeError>)
      requires Valid()
      modifies this
      decreases f
      ensures Valid() && formulaVars == old(formulaVars) && Extends(old(atomVars), atomVars)
      ensures KnowsAtoms(old(atomVars), Atoms(f)) ==> atomVars == old(atomVars) && counter == old(counter)
      ensures r.Ok? <==> ExtractSpec(f).Ok?
      ensures r.Err? ==> r.error == ExtractSpec(f).error
      ensures r.Ok? ==> KnowsClauses(atomVars, ExtractSpec(f).value) && r.value == MapClauses(atomVars, ExtractSpec(f).value)
    {
      if f.And? {
        assert KnowsAtoms(atomVars, Atoms(f)) ==>
          KnowsAtoms(atomVars, Atoms(f.left)) && KnowsAtoms(atomVars, Atoms(f.right));
        var a := ExtractClauses(f.left);
        if a.Err? {
          return Err(a.error);
        }
        ghost var mid := atomVars;
        var b := ExtractClauses(f.right);
        if b.Err? {
          return Err(b.error);
        }
        MapClausesJoin(mid, atomVars, ExtractSpec(f.left).value, ExtractSpec(f.right).value);
        r := Ok(a.value + b.value);
      } else {
        var c := ExtractClauseLiterals(f);
        if c.Err? {
          return Err(c.error);
        }
        r := Ok([c.value]);
      }
    }

    /** The atoms whose t or f id occurs (up to sign) in the clause. */
    method GetAtomsFromClause(clause: Clause) returns (atoms: set<string>)
      requires Valid()
      ensures atoms == AtomsNamed(atomVars, clause)
    {
      atoms := {};
      for k := 0 to |clause|
        invariant atoms == AtomsNamed(atomVars, clause[..k])
      {
        var v := Abs(clause[k]);
        AtomsNamedSnoc(atomVars, clause[..k], clause[k]);
        assert clause[..k + 1] == clause[..k] + [clause[k]];
        if key :| key in atomVars.Keys && key.1 != B && atomVars[key] == v {
          atoms := atoms + {key.0};
        }
      }
      assert clause[..|clause|] == clause;
    }

    /** The `both` ids of a set of atoms, in the order the set is visited. */
    method BothIds(atoms: set<string>) returns (c: Clause, ghost order: seq<string>)
      requires Valid() && KnowsAtoms(atomVars, atoms)
      modifies this
      ensures Valid() && atomVars == old(atomVars) && counter == old(counter) && formulaVars == old(formulaVars)
      ensures Lists(order, atoms) && c == BothOf(atomVars, order)
    {
      c := [];
      order := [];
      ghost var done := {};
      var rest := atoms;
      while rest != {}
        invariant Valid() && atomVars == old(atomVars) && counter == old(counter) && formulaVars == old(formulaVars)
        invariant Lists(order, done) && done + rest == atoms && done !! rest
        invariant c == BothOf(atomVars, order)
        decreases |rest|
      {
        var a :| a in rest;
        assert HasTriple(atomVars, a);
        var b := GetVar(a, B);
        Visit(order, done, rest, atoms, a);
        BothOfSnoc(atomVars, order, a);
        c := c + [b];
        order := order + [a];
        done := done + {a};
        rest := rest - {a};
      }
    }

    /**
     * `encode` on a fresh encoder: the exactly-one blocks of all atoms, then
     * per formula its block and its soft clause `[-finc_i]` of weight 1. The
     * first formula whose CNF has a TRUE or FALSE leaf ends it with an error.
     */
    method Encode() returns (r: Result<Wcnf, EncodeError>, ghost atomOrder: seq<string>,
                             ghost incOrders: seq<seq<string>>, ghost extOrders: seq<seq<seq<string>>>)
      requires Valid() && atomVars == map[] && counter == 1 && formulaVars == []
      modifies this
      ensures Valid()
      ensures r.Ok? <==> ExtractAll(cnfFormulas).Ok?
      ensures r.Err? ==> r.error == ExtractAll(cnfFormulas).error
      ensures r.Ok? ==>
                && Lists(atomOrder, Union(atomsPerFormula))
                && (forall key :: key in atomVars <==> key.0 in Union(atomsPerFormula))
                && (forall j :: 0 <= j < |atomOrder| ==> TripleAt(atomVars, atomOrder, j))
                && formulaVars == FincIds(|atomOrder|, |formulas|)
                && counter == 3 * |atomOrder| + |formulas| + 1
                && EncodedUpTo(r.value, AtomBlocks(atomVars, atomOrder), atomVars, |atomOrder|, atomsPerFormula,
                               ExtractAll(cnfFormulas).value, incOrders, extOrders)
    {
      var wcnf;
      wcnf, atomOrder := EncodeAtoms();
      r, incOrders, extOrders := EncodeFormulas(wcnf, |atomOrder|);
    }

    /** The formula loop of `encode`, after the atom blocks: one block and one soft clause per formula. */
    method EncodeFormulas(wcnf0: Wcnf, ghost n: nat) returns (r: Result<Wcnf, EncodeError>,
                                                             ghost incOrders: seq<seq<string>>,
                                                             ghost extOrders: seq<seq<seq<string>>>)
      requires Valid() && counter == 3 * n + 1 && formulaVars == []
      requires forall key :: key in atomVars <==> key.0 in Union(atomsPerFormula)
      requires wcnf0.soft == [] && wcnf0.weights == []
      modifies this
      ensures Valid() && atomVars == old(atomVars)
      ensures r.Ok? <==> ExtractAll(cnfFormulas).Ok?
      ensures r.Err? ==> r.error == ExtractAll(cnfFormulas).error
      ensures r.Ok? ==>
                && formulaVars == FincIds(n, |formulas|)
                && counter == 3 * n + |formulas| + 1
                && EncodedUpTo(r.value, wcnf0.hard, atomVars, n, atomsPerFormula,
                               ExtractAll(cnfFormulas).value, incOrders, extOrders)
    {
      ghost var ids := atomVars;
      var wcnf := wcnf0;
      incOrders, extOrders := [], [];
      ghost var cls := [];
      assert cnfFormulas[..0] == [];
      assert FormulaBlocks(ids, n, [], [], []) == [];
      for idx := 0 to |cnfFormulas|
        invariant Valid() && atomVars == ids && counter == 3 * n + idx + 1
        invariant formulaVars == FincIds(n, idx)
        invariant ExtractAll(cnfFormulas[..idx]) == Ok(cls) && |cls| == idx
        invariant EncodedUpTo(wcnf, wcnf0.hard, ids, n, atomsPerFormula, cls, incOrders, extOrders)
      {
        var res, io, eo := EncodeNext(idx, wcnf, n, wcnf0.hard, cls, incOrders, extOrders);
        if res.Err? {
          ExtractAllFirstError(cnfFormulas, idx + 1);
          return Err(res.error), incOrders, extOrders;
        }
        wcnf := res.value;
        incOrders := incOrders + [io];
        extOrders := extOrders + [eo];
        cls := cls + [ExtractSpec(cnfFormulas[idx]).value];
      }
      assert cnfFormulas[..|cnfFormulas|] == cnfFormulas;
      r := Ok(wcnf);
    }

    /** One turn of the formula loop: formula `idx` after `idx` encoded ones. */
    method EncodeNext(idx: nat, wcnf: Wcnf, ghost n: nat, ghost pre: seq<Clause>, ghost cls: seq<seq<seq<Literal>>>,
                      ghost incOrders: seq<seq<string>>, ghost extOrders: seq<seq<seq<string>>>)
      returns (r: Result<Wcnf, EncodeError>, ghost io: seq<string>, ghost eo: seq<seq<string>>)
      requires Valid() && idx < |cnfFormulas| && counter == 3 * n + idx + 1 && formulaVars == FincIds(n, idx)
      requires forall key :: key in atomVars <==> key.0 in Union(atomsPerFormula)
      requires ExtractAll(cnfFormulas[..idx]) == Ok(cls) && |cls| == idx
      requires EncodedUpTo(wcnf, pre, atomVars, n, atomsPerFormula, cls, incOrders, extOrders)
      modifies this
      ensures Valid() && atomVars == old(atomVars) && counter == 3 * n + (idx + 1) + 1
      ensures formulaVars == FincIds(n, idx + 1)
      ensures r.Err? ==> ExtractAll(cnfFormulas[..idx + 1]) == Err(r.error)
      ensures r.Ok? ==> ExtractSpec(cnfFormulas[idx]).Ok? && ExtractAll(cnfFormulas[..idx + 1]) == Ok(cls + [ExtractSpec(cnfFormulas[idx]).value])
      ensures r.Ok? && ExtractSpec(cnfFormulas[idx]).Ok? ==> EncodedUpTo(r.value, pre, atomVars, n, atomsPerFormula, cls + [ExtractSpec(cnfFormulas[idx]).value],
                                    incOrders + [io], extOrders + [eo])
    {
      UnionContains(atomsPerFormula, idx);
      KnowsSubset(atomVars, Union(atomsPerFormula), atomsPerFormula[idx]);
      r, io, eo := EncodeFormula(idx, wcnf);
      ExtractAllNext(cnfFormulas, idx);
      FincIdsSnoc(n, idx);
      if r.Ok? {
        EncodedStep(wcnf, pre, atomVars, n, atomsPerFormula, cls, incOrders, extOrders, io,
                    ExtractSpec(cnfFormulas[idx]).value, eo, r.value);
      }
    }

    /** The three `get_var` calls for an atom seen for the first time: the next three ids. */
    method TripleOf(a: string) returns (t: int, f: int, b: int)
      requires Valid() && (a, T) !in atomVars && (a, F) !in atomVars && (a, B) !in atomVars
      modifies this
      ensures Valid() && formulaVars == old(formulaVars) && counter == old(counter) + 3
      ensures t == old(counter) && f == old(counter) + 1 && b == old(counter) + 2
      ensures atomVars == old(atomVars)[(a, T) := t][(a, F) := f][(a, B) := b]
    {
      t := GetVar(a, T);
      f := GetVar(a, F);
      b := GetVar(a, B);
    }

    /** The exactly-one block of every atom of the knowledge base, visiting the atoms in set order. */
    method EncodeAtoms() returns (wcnf: Wcnf, ghost order: seq<string>)
      requires Valid() && atomVars == map[] && counter == 1
      modifies this
      ensures Valid() && formulaVars == old(formulaVars)
      ensures Lists(order, Union(atomsPerFormula))
      ensures forall key :: key in atomVars <==> key.0 in Union(atomsPerFormula)
      ensures forall j :: 0 <= j < |order| ==> TripleAt(atomVars, order, j)
      ensures counter == 3 * |order| + 1
      ensures wcnf == Wcnf(AtomBlocks(atomVars, order), [], [])
    {
      var all := Union(atomsPerFormula);
      var rest := all;
      ghost var done := {};
      wcnf := NoClauses;
      order := [];
      while rest != {}
        invariant Valid() && formulaVars == old(formulaVars)
        invariant Lists(order, done) && done + rest == all && done !! rest
        invariant forall key :: key in atomVars <==> key.0 in done
        invariant forall j :: 0 <= j < |order| ==> TripleAt(atomVars, order, j)
        invariant counter == 3 * |order| + 1
        invariant wcnf.hard == AtomBlocks(atomVars, order) && wcnf.soft == [] && wcnf.weights == []
        decreases |rest|
      {
        var a :| a in rest;
        ghost var before := atomVars;
        assert a !in done;
        var t, f, b := TripleOf(a);
        assert t == 3 * |order| + 1 && f == 3 * |order| + 2 && b == 3 * |order| + 3;
        TriplesStep(before, atomVars, order, done, a);
        AddExactlyOne(wcnf, t, f, b);
        wcnf := wcnf.AddHard([t, f, b]).AddHard([-t, -f]).AddHard([-t, -b]).AddHard([-f, -b]);
        Visit(order, done, rest, all, a);
        order := order + [a];
        done := done + {a};
        rest := rest - {a};
      }
    }

    /** One formula: its `finc`, the `[finc, -a_both]` clauses, its rescued CNF clauses and its soft clause. */
    method EncodeFormula(idx: nat, wcnf: Wcnf) returns (r: Result<Wcnf, EncodeError>,
                                                       ghost incOrder: seq<string>, ghost extOrder: seq<seq<string>>)
      requires Valid() && idx < |formulas|
      requires KnowsAtoms(atomVars, atomsPerFormula[idx])
      modifies this
      ensures Valid() && atomVars == old(atomVars) && counter == old(counter) + 1
      ensures formulaVars == old(formulaVars) + [old(counter)]
      ensures r.Ok? <==> ExtractSpec(cnfFormulas[idx]).Ok?
      ensures r.Err? ==> r.error == ExtractSpec(cnfFormulas[idx]).error
      ensures r.Ok? ==> Lists(incOrder, atomsPerFormula[idx])
      ensures r.Ok? ==> RescueOrders(ExtractSpec(cnfFormulas[idx]).value, extOrder)
      ensures r.Ok? ==>
                r.value == Wcnf(wcnf.hard + FormulaBlock(atomVars, old(counter), incOrder, ExtractSpec(cnfFormulas[idx]).value, extOrder),
                                wcnf.soft + [[-old(counter)]], wcnf.weights + [1])
    {
      var finc := NewVar();
      formulaVars := formulaVars + [finc];
      var inc, order := IncBlock(finc, atomsPerFormula[idx]);
      incOrder := order;
      var f := cnfFormulas[idx];
      assert ShapedAt(idx);
      var clauses := ExtractClauses(f);
      if clauses.Err? {
        return Err(clauses.error), incOrder, [];
      }
      ExtractSpecCorrect(f);
      var rescued, orders := RescueClauses(clauses.value, ExtractSpec(f).value);
      extOrder := orders;
      var block := inc + rescued;
      var w := Wcnf(wcnf.hard + block, wcnf.soft, wcnf.weights);
      w := w.AddWeighted([-finc], 1);
      r := Ok(w);
    }

    /** `[finc, -a_both]` for each atom of a formula, in set order. */
    method IncBlock(finc: int, atoms: set<string>) returns (cs: seq<Clause>, ghost order: seq<string>)
      requires Valid() && KnowsAtoms(atomVars, atoms)
      modifies this
      ensures Valid() && atomVars == old(atomVars) && counter == old(counter) && formulaVars == old(formulaVars)
      ensures Lists(order, atoms) && cs == IncClauses(atomVars, finc, order)
    {
      var rest := atoms;
      ghost var done := {};
      cs := [];
      order := [];
      while rest != {}
        invariant Valid() && atomVars == old(atomVars) && counter == old(counter) && formulaVars == old(formulaVars)
        invariant Lists(order, done) && done + rest == atoms && done !! rest
        invariant cs == IncClauses(atomVars, finc, order)
        decreases |rest|
      {
        var a :| a in rest;
        assert HasTriple(atomVars, a);
        var b := GetVar(a, B);
        IncStep(atomVars, finc, order, a, cs, b);
        cs := cs + [[finc, -b]];
        Visit(order, done, rest, atoms, a);
        order := order + [a];
        done := done + {a};
        rest := rest - {a};
      }
    }

    /** Each CNF clause of a formula, extended by the `both` ids of the atoms it names. */
    method RescueClauses(clauses: seq<Clause>, ghost cs: seq<seq<Literal>>) returns (out: seq<Clause>, ghost orders: seq<seq<string>>)
      requires Valid() && KnowsClauses(atomVars, cs) && KnowsAtoms(atomVars, ClauseAtoms(cs))
      requires clauses == MapClauses(atomVars, cs)
      modifies this
      ensures Valid() && atomVars == old(atomVars) && counter == old(counter) && formulaVars == old(formulaVars)
      ensures RescueOrders(cs, orders) && out == Rescued(atomVars, cs, orders)
    {
      out := [];
      orders := [];
      for j := 0 to |clauses|
        invariant Valid() && atomVars == old(atomVars) && counter == old(counter) && formulaVars == old(formulaVars)
        invariant RescueOrders(cs[..j], orders)
        invariant out == Rescued(atomVars, cs[..j], orders)
      {
        ClauseAtomsHas(cs, j);
        AtomsNamedByMapped(atomVars, cs[j]);
        var named := GetAtomsFromClause(clauses[j]);
        var ext, o := BothIds(named);
        out := out + [clauses[j] + ext];
        assert cs[..j + 1] == cs[..j] + [cs[j]];
        orders := orders + [o];
      }
      assert cs[..|cs|] == cs;
    }
  }

  /** The atoms of clause `j` are among the atoms of all clauses. */
  lemma {:induction false} ClauseAtomsHas(cs: seq<seq<Literal>>, j: nat)
    requires j < |cs|
    ensures LitAtoms(cs[j]) <= ClauseAtoms(cs)
    decreases |cs|
  {
    if j < |cs| - 1 {
      ClauseAtomsHas(cs[..|cs| - 1], j);
    }
  }

  /** One more literal adds the atom of the (only) t or f key with its id, if any. */
  lemma AtomsNamedSnoc(ids: Ids, c: Clause, x: int)
    requires Injective(ids)
    ensures forall key :: key in ids.Keys && key.1 != B && ids[key] == Abs(x) ==>
              AtomsNamed(ids, c + [x]) == AtomsNamed(ids, c) + {key.0}
    ensures (forall key :: key in ids.Keys && key.1 != B ==> ids[key] != Abs(x)) ==>
              AtomsNamed(ids, c + [x]) == AtomsNamed(ids, c)
  {
    var c' := c + [x];
    forall key | key in ids.Keys && key.1 != B
      ensures (exists k :: 0 <= k < |c'| && ids[key] == Abs(c'[k]))
          <==> (exists k :: 0 <= k < |c| && ids[key] == Abs(c[k])) || ids[key] == Abs(x)
    {
      if exists k :: 0 <= k < |c'| && ids[key] == Abs(c'[k]) {
        var k :| 0 <= k < |c'| && ids[key] == Abs(c'[k]);
        if k < |c| { assert c'[k] == c[k]; }
      }
      if exists k :: 0 <= k < |c| && ids[key] == Abs(c[k]) {
        var k :| 0 <= k < |c| && ids[key] == Abs(c[k]);
        assert c'[k] == c[k];
      }
      if ids[key] == Abs(x) {
        assert c'[|c|] == x;
      }
    }
  }
}
