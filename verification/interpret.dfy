/**
 * Reading a solver's answer back into the terms of the knowledge base:
 * the `atom:value` strings of the atoms and the names `F{i}` of the
 * inconsistent formulas. The two weighted-clause paths read a model (a list
 * of signed variable ids) through the inverse of the encoder's variable map;
 * the answer-set path collects the shown atoms of the best model a callback
 * has seen. Both sort their results the same way at the end.
 */
module Interpretation {
  import opened Wrappers
  import opened Text
  import opened Clauses
  import opened AnswerSets

  /** A key of an encoder's variable map: an atom and one of its three kinds. */
  type Entry = (string, Kind)

  // ---------------------------------------------------------------------
  // The inverse of the variable map
  // ---------------------------------------------------------------------

  /**
   * `{v: k for k, v in atom_vars.items()}`, where `keys` are the keys of the
   * map in the dictionary's order: a later key with the same id overwrites
   * an earlier one.
   */
  function Reverse(ids: Ids, keys: seq<Entry>): (rev: map<int, Entry>)
    requires forall key :: key in keys ==> key in ids
    ensures forall v :: v in rev ==> rev[v] in ids && ids[rev[v]] == v
  {
    if keys == [] then map[]
    else
      var key := keys[|keys| - 1];
      Reverse(ids, keys[..|keys| - 1])[ids[key] := key]
  }

  /** The inverse holds exactly the ids of the visited keys. */
  lemma {:induction false} ReverseKeys(ids: Ids, keys: seq<Entry>)
    requires forall key :: key in keys ==> key in ids
    ensures Reverse(ids, keys).Keys == set key | key in keys :: ids[key]
  {
    if keys != [] {
      var front, last := keys[..|keys| - 1], keys[|keys| - 1];
      assert keys == front + [last];
      ReverseKeys(ids, front);
      assert (set k | k in keys :: ids[k]) == (set k | k in front :: ids[k]) + {ids[last]};
    }
  }

  /** Over keys without repetition and an injective map, no later key overwrites an earlier one. */
  lemma {:induction false} ReverseFinds(ids: Ids, keys: seq<Entry>)
    requires forall key :: key in keys ==> key in ids
    requires NoDup(keys) && Injective(ids)
    ensures forall key :: key in keys ==> ids[key] in Reverse(ids, keys) && Reverse(ids, keys)[ids[key]] == key
  {
    if keys != [] {
      var front, last := keys[..|keys| - 1], keys[|keys| - 1];
      assert keys == front + [last];
      assert NoDup(front) by {
        forall i, j | 0 <= i < j < |front| ensures front[i] != front[j] { assert keys[i] != keys[j]; }
      }
      ReverseFinds(ids, front);
      forall k | k in front ensures k != last && ids[k] != ids[last] {
        var i :| 0 <= i < |front| && front[i] == k;
        assert keys[i] != keys[|keys| - 1];
      }
    }
  }

  /** Over keys without repetition and an injective map, every visited key is found again from its id. */
  lemma ReverseOfListed(ids: Ids, keys: seq<Entry>)
    requires forall key :: key in keys ==> key in ids
    requires NoDup(keys) && Injective(ids)
    ensures Reverse(ids, keys).Keys == set key | key in keys :: ids[key]
    ensures forall key :: key in keys ==> Reverse(ids, keys)[ids[key]] == key
  {
    ReverseKeys(ids, keys);
    ReverseFinds(ids, keys);
  }

  /**
   * `reverse_varmap` inverts `atom_vars`: the encoders give every key its
   * own id, so the comprehension loses nothing, whatever the dictionary's
   * order.
   */
  lemma ReverseInverts(ids: Ids, keys: seq<Entry>)
    requires Lists(keys, ids.Keys) && Injective(ids)
    ensures Reverse(ids, keys).Keys == ids.Values
    ensures forall key :: key in ids ==> Reverse(ids, keys)[ids[key]] == key
  {
    ReverseOfListed(ids, keys);
    assert ids.Values == set key | key in keys :: ids[key] by {
      forall v | v in ids.Values ensures v in set key | key in keys :: ids[key] {
        var key :| key in ids && ids[key] == v;
        assert key in keys;
      }
    }
  }

  // ---------------------------------------------------------------------
  // Atom values from a model
  // ---------------------------------------------------------------------

  /** `f"{atom}:{kind}"`. */
  function ValueEntry(e: Entry): string
  {
    e.0 + ":" + KindName(e.1)
  }

  /** An atom name without a colon is the sort key of its value entry. */
  lemma ValueEntryKey(e: Entry)
    requires forall i :: 0 <= i < |e.0| ==> e.0[i] != ':'
    ensures Key(ValueEntry(e), BeforeColon) == e.0
  {
    NamePartBefore(e.0, KindName(e.1));
  }

  /** For atom names without a colon, different keys give different value entries. */
  lemma ValueEntryInjective(e: Entry, e': Entry)
    requires forall i :: 0 <= i < |e.0| ==> e.0[i] != ':'
    requires forall i :: 0 <= i < |e'.0| ==> e'.0[i] != ':'
    ensures ValueEntry(e) == ValueEntry(e') <==> e == e'
  {
    if ValueEntry(e) == ValueEntry(e') {
      var x := ValueEntry(e);
      ValueEntryKey(e);
      ValueEntryKey(e');
      assert KindName(e.1) == x[|e.0| + 1..] == KindName(e'.1);
      KindNameInjective(e.1, e'.1);
    }
  }

  /** The value entries of the positive model literals that are ids of the map, in model order. */
  function AtomValuesOf(model: seq<int>, rev: map<int, Entry>): seq<string>
  {
    if model == [] then []
    else
      var v := model[|model| - 1];
      AtomValuesOf(model[..|model| - 1], rev) + (if v > 0 && v in rev then [ValueEntry(rev[v])] else [])
  }

  /** The loop at main.py:123-126 (and 160-163). */
  method CollectAtomValues(model: seq<int>, rev: map<int, Entry>) returns (atomValues: seq<string>)
    ensures atomValues == AtomValuesOf(model, rev)
  {
    atomValues := [];
    for k := 0 to |model|
      invariant atomValues == AtomValuesOf(model[..k], rev)
    {
      var v := model[k];
      assert model[..k + 1][..k] == model[..k];
      if v > 0 && v in rev {
        var (atom, kind) := rev[v];
        atomValues := atomValues + [atom + ":" + KindName(kind)];
      }
    }
    assert model[..|model|] == model;
  }

  /** An entry is listed iff some positive literal of the model is an id of the map and names it. */
  lemma {:induction false} AtomValuesMeaning(model: seq<int>, rev: map<int, Entry>, x: string)
    ensures x in AtomValuesOf(model, rev) <==>
      exists j :: 0 <= j < |model| && model[j] > 0 && model[j] in rev && x == ValueEntry(rev[model[j]])
  {
    if model != [] {
      var front := model[..|model| - 1];
      AtomValuesMeaning(front, rev, x);
      assert forall j :: 0 <= j < |front| ==> front[j] == model[j];
      if exists j :: 0 <= j < |model| && model[j] > 0 && model[j] in rev && x == ValueEntry(rev[model[j]]) {
        var j :| 0 <= j < |model| && model[j] > 0 && model[j] in rev && x == ValueEntry(rev[model[j]]);
        if j < |front| {
          assert front[j] > 0 && front[j] in rev && x == ValueEntry(rev[front[j]]);
        }
      }
    }
  }

  /**
   * Through the inverse of an encoder's map (ids positive and distinct):
   * `atom:kind` is reported iff the id of `(atom, kind)` is true in the model.
   * Ids of `finc` variables and auxiliaries are not keys and are skipped.
   */
  lemma AtomValuesOfEncoder(ids: Ids, keys: seq<Entry>, model: seq<int>, x: string)
    requires Lists(keys, ids.Keys) && Injective(ids)
    requires forall key :: key in ids ==> ids[key] > 0
    ensures x in AtomValuesOf(model, Reverse(ids, keys)) <==>
      exists key :: key in ids && ids[key] in model && x == ValueEntry(key)
  {
    var rev := Reverse(ids, keys);
    ReverseInverts(ids, keys);
    AtomValuesMeaning(model, rev, x);
    if x in AtomValuesOf(model, rev) {
      var j :| 0 <= j < |model| && model[j] > 0 && model[j] in rev && x == ValueEntry(rev[model[j]]);
      var key := rev[model[j]];
      assert key in ids && ids[key] == model[j];
    }
    if exists key :: key in ids && ids[key] in model && x == ValueEntry(key) {
      var key :| key in ids && ids[key] in model && x == ValueEntry(key);
      var j :| 0 <= j < |model| && model[j] == ids[key];
      assert rev[model[j]] == key;
    }
  }

  // ---------------------------------------------------------------------
  // Inconsistent formulas from a model
  // ---------------------------------------------------------------------

  /** `f"F{i}"`. */
  function FormulaId(i: nat): string
  {
    "F" + NatToString(i)
  }

  lemma FormulaIdInjective(i: nat, j: nat)
    ensures FormulaId(i) == FormulaId(j) <==> i == j
  {
    if FormulaId(i) == FormulaId(j) {
      assert NatToString(i) == FormulaId(i)[1..] && NatToString(j) == FormulaId(j)[1..];
      NatToStringInjective(i, j);
    }
  }

  /** The names of the first `n` soft clauses that the model leaves unsatisfied, in index order. */
  function ViolatedUpTo(modelSet: set<int>, soft: seq<Clause>, n: nat): seq<string>
    requires n <= |soft|
  {
    if n == 0 then []
    else ViolatedUpTo(modelSet, soft, n - 1) + (if ClauseTrue(modelSet, soft[n - 1]) then [] else [FormulaId(n - 1)])
  }

  /** `zip(wcnf.soft, wcnf.wght)` stops at the shorter list. */
  function InconsistentOf(modelSet: set<int>, soft: seq<Clause>, weights: seq<int>): seq<string>
  {
    ViolatedUpTo(modelSet, soft, if |soft| <= |weights| then |soft| else |weights|)
  }

  /** The loop at main.py:128-133 (and 165-170); `any(...)` over a clause is `ClauseTrue`. */
  method CollectInconsistent(modelSet: set<int>, soft: seq<Clause>, weights: seq<int>) returns (fInconsistent: seq<string>)
    ensures fInconsistent == InconsistentOf(modelSet, soft, weights)
  {
    fInconsistent := [];
    var i := 0;
    while i < |soft| && i < |weights|
      invariant i <= |soft| && i <= |weights|
      invariant fInconsistent == ViolatedUpTo(modelSet, soft, i)
    {
      var clause := soft[i];
      var satisfied := exists k :: 0 <= k < |clause| && (if clause[k] > 0 then clause[k] in modelSet else -clause[k] !in modelSet);
      if !satisfied {
        fInconsistent := fInconsistent + ["F" + NatToString(i)];
      }
      i := i + 1;
    }
  }

  /** Every name in the first `n` is `F{i}` of a violated clause `i < n`, and conversely. */
  lemma {:induction false} ViolatedUpToMeaning(modelSet: set<int>, soft: seq<Clause>, n: nat, i: nat)
    requires n <= |soft|
    ensures FormulaId(i) in ViolatedUpTo(modelSet, soft, n) <==> i < n && !ClauseTrue(modelSet, soft[i])
  {
    if n > 0 {
      ViolatedUpToMeaning(modelSet, soft, n - 1, i);
      FormulaIdInjective(i, n - 1);
    }
  }

  lemma {:induction false} ViolatedUpToNames(modelSet: set<int>, soft: seq<Clause>, n: nat, x: string)
    requires n <= |soft| && x in ViolatedUpTo(modelSet, soft, n)
    ensures exists i: nat :: i < n && x == FormulaId(i)
  {
    if x !in ViolatedUpTo(modelSet, soft, n - 1) {
      assert x == FormulaId(n - 1);
    } else {
      ViolatedUpToNames(modelSet, soft, n - 1, x);
    }
  }

  /**
   * `F{i}` is reported iff soft clause `i` has a weight and no literal of it
   * holds in the model, and nothing else is reported.
   */
  lemma InconsistentMeaning(modelSet: set<int>, soft: seq<Clause>, weights: seq<int>, i: nat)
    ensures FormulaId(i) in InconsistentOf(modelSet, soft, weights) <==>
      i < |soft| && i < |weights| && !ClauseTrue(modelSet, soft[i])
    ensures forall x :: x in InconsistentOf(modelSet, soft, weights) ==> exists j: nat :: x == FormulaId(j)
  {
    var n := if |soft| <= |weights| then |soft| else |weights|;
    ViolatedUpToMeaning(modelSet, soft, n, i);
    forall x | x in InconsistentOf(modelSet, soft, weights) ensures exists j: nat :: x == FormulaId(j) {
      ViolatedUpToNames(modelSet, soft, n, x);
    }
  }

  /**
   * The encoders' soft clauses are `[-finc_i]`: formula `i` is reported
   * inconsistent iff its `finc` variable is true in the model.
   */
  lemma FincReported(modelSet: set<int>, soft: seq<Clause>, weights: seq<int>, i: nat, finc: int)
    requires i < |soft| && i < |weights| && soft[i] == [-finc] && finc > 0
    ensures FormulaId(i) in InconsistentOf(modelSet, soft, weights) <==> finc in modelSet
  {
    InconsistentMeaning(modelSet, soft, weights, i);
    assert ClauseTrue(modelSet, soft[i]) <==> LitTrue(modelSet, soft[i][0]);
  }

  // ---------------------------------------------------------------------
  // The weighted-clause paths
  // ---------------------------------------------------------------------

  /** What `maxsat_encode_and_solve` returns, without the timings. */
  datatype MaxSatReport = MaxSatReport(
    cost: int, model: seq<int>, fInconsistent: seq<string>, atomValues: seq<string>, hardCount: nat)

  /**
   * main.py:113-137 (and 150-174) after the search: the engine's model is an
   * input, `None` when the hard clauses are unsatisfiable, in which case
   * `set(model)` raises and there is no report.
   */
  method ReadMaxSatModel(ids: Ids, keys: seq<Entry>, wcnf: Wcnf, model: Option<seq<int>>, cost: int)
    returns (r: Option<MaxSatReport>)
    requires forall key :: key in keys ==> key in ids
    ensures model.None? ==> r.None?
    ensures model.Some? ==> r == Some(MaxSatReport(
      cost, model.value,
      SortBy(InconsistentOf((set v | v in model.value), wcnf.soft, wcnf.weights), WholeString),
      SortBy(AtomValuesOf(model.value, Reverse(ids, keys)), BeforeColon),
      |wcnf.hard|))
  {
    var reverseVarmap := Reverse(ids, keys);
    if model.None? {
      return None;
    }
    var modelSet := set v | v in model.value;
    var atomValues := CollectAtomValues(model.value, reverseVarmap);
    var fInconsistent := CollectInconsistent(modelSet, wcnf.soft, wcnf.weights);
    r := Some(MaxSatReport(cost, model.value, SortBy(fInconsistent, WholeString), SortBy(atomValues, BeforeColon), |wcnf.hard|));
  }

  /**
   * Sorting the names as strings orders them by the decimal text of their
   * indices, not by the indices (so `F10` comes before `F2`).
   */
  lemma FormulaIdOrder(i: nat, j: nat)
    ensures StrLess(FormulaId(i), FormulaId(j)) <==> StrLess(NatToString(i), NatToString(j))
  {
    var a, b := FormulaId(i), FormulaId(j);
    assert a[0] == b[0] && a[1..] == NatToString(i) && b[1..] == NatToString(j);
  }

  // ---------------------------------------------------------------------
  // The answer-set path: the `on_model` callback
  // ---------------------------------------------------------------------

  /** A model as the callback sees it: its cost vector and its shown atoms. */
  datatype AnswerModel = AnswerModel(cost: seq<int>, symbols: seq<Symbol>)

  /** `str(int)`. */
  function IntToString(i: int): string
  {
    if i < 0 then "-" + NatToString(-i) else NatToString(i)
  }

  /** `str(symbol)` for a number or a constant. */
  function TermText(t: Term): string
  {
    match t
    case Number(n) => IntToString(n)
    case Constant(name) => name
  }

  function UpperChar(c: char): char
  {
    if 'a' <= c <= 'z' then (c as int - 32) as char else c
  }

  /** `str.upper()` on letters a-z. */
  function Upper(s: string): (r: string)
    ensures |r| == |s|
  {
    if s == [] then [] else [UpperChar(s[0])] + Upper(s[1..])
  }

  /** The answer-set path names formula `f{i}` as the weighted-clause paths do: `F{i}`. */
  lemma {:induction false} UpperFormulaName(i: nat)
    ensures Upper(TermText(Constant("f" + NatToString(i)))) == FormulaId(i)
  {
    var digits := NatToString(i);
    UpperDigits(digits);
    assert ("f" + digits)[1..] == digits;
  }

  lemma {:induction false} UpperDigits(s: string)
    requires forall k :: 0 <= k < |s| ==> IsDigit(s[k])
    ensures Upper(s) == s
  {
    if s != [] {
      UpperDigits(s[1..]);
    }
  }

  predicate ShowsInconsistent(s: Symbol)
  {
    s.name == "f_inconsistent" && |s.arguments| == 1
  }

  predicate ShowsValue(s: Symbol)
  {
    s.name == "val" && |s.arguments| == 2
  }

  /** The entry a shown `val` atom contributes: its two arguments joined by a colon. */
  function ValueText(s: Symbol): string
    requires ShowsValue(s)
  {
    TermText(s.arguments[0]) + ":" + TermText(s.arguments[1])
  }

  /** The inconsistent-formula entries of a model's shown atoms, in their order. */
  function ShownInconsistent(symbols: seq<Symbol>): seq<string>
  {
    if symbols == [] then []
    else
      var s := symbols[|symbols| - 1];
      ShownInconsistent(symbols[..|symbols| - 1]) + (if ShowsInconsistent(s) then [Upper(TermText(s.arguments[0]))] else [])
  }

  /** The `atom:value` entries of a model's shown atoms, in their order. */
  function ShownValues(symbols: seq<Symbol>): seq<string>
  {
    if symbols == [] then []
    else
      var s := symbols[|symbols| - 1];
      ShownValues(symbols[..|symbols| - 1]) + (if ShowsValue(s) then [ValueText(s)] else [])
  }

  /** The state of the callback's three variables. */
  datatype Collected = Collected(optimalCost: Option<int>, atomValues: seq<string>, fInconsistent: seq<string>)

  /** What one call of `on_model` does to the state. */
  function OnModelStep(c: Collected, m: AnswerModel): Collected
  {
    if m.cost != [] then
      if c.optimalCost.None? || m.cost[0] < c.optimalCost.value then
        Collected(Some(m.cost[0]), ShownValues(m.symbols), ShownInconsistent(m.symbols))
      else c
    else if c.optimalCost.None? then c.(optimalCost := Some(0))
    else c
  }

  /** The state after the callback has seen `models`, in order. */
  function CollectAll(models: seq<AnswerModel>): Collected
  {
    if models == [] then Collected(None, [], [])
    else OnModelStep(CollectAll(models[..|models| - 1]), models[|models| - 1])
  }

  /** The callback together with the variables it updates. */
  class ModelCollector {
    var optimalCost: Option<int>
    var atomValues: seq<string>
    var fInconsistent: seq<string>
    ghost var seen: seq<AnswerModel>

    ghost predicate Valid()
      reads this
    {
      Collected(optimalCost, atomValues, fInconsistent) == CollectAll(seen)
    }

    constructor()
      ensures Valid() && seen == []
    {
      optimalCost, atomValues, fInconsistent := None, [], [];
      seen := [];
    }

    /** `on_model` (main.py:79-94). */
    method OnModel(m: AnswerModel)
      requires Valid()
      modifies this
      ensures Valid() && seen == old(seen) + [m]
    {
      seen := seen + [m];
      assert seen[..|seen| - 1] == old(seen);
      assert CollectAll(seen) == OnModelStep(CollectAll(old(seen)), m);
      var costs := m.cost;
      if costs != [] {
        var currentCost := costs[0];
        if optimalCost.None? || currentCost < optimalCost.value {
          optimalCost := Some(currentCost);
          atomValues := [];
          fInconsistent := [];
          for k := 0 to |m.symbols|
            invariant seen == old(seen) + [m] && optimalCost == Some(currentCost)
            invariant atomValues == ShownValues(m.symbols[..k])
            invariant fInconsistent == ShownInconsistent(m.symbols[..k])
          {
            var atom := m.symbols[k];
            assert m.symbols[..k + 1][..k] == m.symbols[..k];
            if atom.name == "f_inconsistent" && |atom.arguments| == 1 {
              fInconsistent := fInconsistent + [Upper(TermText(atom.arguments[0]))];
            }
            if atom.name == "val" && |atom.arguments| == 2 {
              atomValues := atomValues + [ValueText(atom)];
            }
          }
          assert m.symbols[..|m.symbols|] == m.symbols;
        }
      } else if optimalCost.None? {
        optimalCost := Some(0);
      }
    }

    /** main.py:99-102: the cost and both lists, sorted as on the other paths. */
    method Report() returns (cost: Option<int>, fInc: seq<string>, values: seq<string>)
      requires Valid()
      ensures cost == CollectAll(seen).optimalCost
      ensures fInc == SortBy(CollectAll(seen).fInconsistent, WholeString)
      ensures values == SortBy(CollectAll(seen).atomValues, BeforeColon)
    {
      cost := optimalCost;
      fInc := SortBy(fInconsistent, WholeString);
      values := SortBy(atomValues, BeforeColon);
    }
  }

  // ---------------------------------------------------------------------
  // What the callback keeps
  // ---------------------------------------------------------------------

  predicate Costed(m: AnswerModel)
  {
    m.cost != []
  }

  /** A cost is recorded as soon as one model has been seen. */
  lemma {:induction false} CostRecorded(models: seq<AnswerModel>)
    ensures CollectAll(models).optimalCost.None? <==> models == []
  {
    if models != [] {
      CostRecorded(models[..|models| - 1]);
    }
  }

  /** The recorded cost is at most the first cost of every model seen. */
  lemma {:induction false} CostIsLowest(models: seq<AnswerModel>, j: nat)
    requires j < |models| && Costed(models[j])
    ensures CollectAll(models).optimalCost.Some?
    ensures CollectAll(models).optimalCost.value <= models[j].cost[0]
  {
    var front := models[..|models| - 1];
    CostRecorded(models);
    CostRecorded(front);
    if j < |front| {
      assert front[j] == models[j];
      CostIsLowest(front, j);
    }
  }

  /**
   * The kept state is that of model `j`: the first model whose first cost is
   * below those of all costed models before it.
   */
  predicate KeptCosted(models: seq<AnswerModel>, c: Collected, j: nat)
  {
    && j < |models| && Costed(models[j]) && c.optimalCost == Some(models[j].cost[0])
    && c.atomValues == ShownValues(models[j].symbols)
    && c.fInconsistent == ShownInconsistent(models[j].symbols)
    && forall i :: 0 <= i < j && Costed(models[i]) ==> models[i].cost[0] > models[j].cost[0]
  }

  /**
   * The first model had no cost: the cost is 0 and the lists are empty, and
   * no costed model came with a negative cost.
   */
  predicate KeptCostless(models: seq<AnswerModel>, c: Collected)
  {
    && models != [] && !Costed(models[0]) && c == Collected(Some(0), [], [])
    && forall i :: 0 <= i < |models| && Costed(models[i]) ==> models[i].cost[0] >= 0
  }

  lemma KeptCostedSnoc(front: seq<AnswerModel>, m: AnswerModel, c: Collected, j: nat)
    requires KeptCosted(front, c, j)
    ensures KeptCosted(front + [m], c, j)
  {
    var models := front + [m];
    assert forall i :: 0 <= i < |front| ==> models[i] == front[i];
  }

  lemma KeptCostlessSnoc(front: seq<AnswerModel>, m: AnswerModel, c: Collected)
    requires KeptCostless(front, c)
    requires Costed(m) ==> m.cost[0] >= 0
    ensures KeptCostless(front + [m], c)
  {
    var models := front + [m];
    assert forall i :: 0 <= i < |front| ==> models[i] == front[i];
  }

  /**
   * The lists the callback keeps are those of the first model with the
   * lowest cost, unless the first model came without a cost.
   */
  lemma {:induction false} KeepsFirstBest(models: seq<AnswerModel>)
    requires models != []
    ensures (exists j :: KeptCosted(models, CollectAll(models), j)) || KeptCostless(models, CollectAll(models))
  {
    var n := |models| - 1;
    var front, m := models[..n], models[n];
    assert models == front + [m];
    var before := CollectAll(front);
    var after := CollectAll(models);
    if front == [] {
      if Costed(m) {
        assert KeptCosted(models, after, 0);
      } else {
        assert KeptCostless(models, after);
      }
    } else {
      KeepsFirstBest(front);
      CostRecorded(front);
      if Costed(m) && m.cost[0] < before.optimalCost.value {
        forall i | 0 <= i < n && Costed(models[i]) ensures models[i].cost[0] > m.cost[0] {
          assert front[i] == models[i];
          CostIsLowest(front, i);
        }
        assert KeptCosted(models, after, n);
      } else {
        assert after == before;
        if j :| KeptCosted(front, before, j) {
          KeptCostedSnoc(front, m, before, j);
        } else {
          KeptCostlessSnoc(front, m, before);
        }
      }
    }
  }

  /** With every model costed, the kept model is the first one of least cost. */
  lemma FirstLeastCost(models: seq<AnswerModel>)
    requires models != [] && forall i :: 0 <= i < |models| ==> models[i].cost != []
    ensures exists j :: (0 <= j < |models|
      && CollectAll(models) == Collected(Some(models[j].cost[0]), ShownValues(models[j].symbols), ShownInconsistent(models[j].symbols))
      && (forall i :: 0 <= i < |models| ==> models[j].cost[0] <= models[i].cost[0])
      && (forall i :: 0 <= i < j ==> models[i].cost[0] > models[j].cost[0]))
  {
    var j := CostedModelKept(models);
    forall i | 0 <= i < |models| ensures models[j].cost[0] <= models[i].cost[0] {
      assert Costed(models[i]);
      CostIsLowest(models, i);
    }
  }

  lemma CostedModelKept(models: seq<AnswerModel>) returns (j: nat)
    requires models != [] && Costed(models[0])
    ensures KeptCosted(models, CollectAll(models), j)
  {
    KeepsFirstBest(models);
    j :| KeptCosted(models, CollectAll(models), j);
  }

  /** An entry is kept from a shown atom iff that atom is `f_inconsistent` with one argument. */
  lemma {:induction false} ShownInconsistentMeaning(symbols: seq<Symbol>, x: string)
    ensures x in ShownInconsistent(symbols) <==>
      exists k :: 0 <= k < |symbols| && ShowsInconsistent(symbols[k]) && x == Upper(TermText(symbols[k].arguments[0]))
  {
    if symbols != [] {
      var front := symbols[..|symbols| - 1];
      ShownInconsistentMeaning(front, x);
      assert forall k :: 0 <= k < |front| ==> front[k] == symbols[k];
      if exists k :: 0 <= k < |symbols| && ShowsInconsistent(symbols[k]) && x == Upper(TermText(symbols[k].arguments[0])) {
        var k :| 0 <= k < |symbols| && ShowsInconsistent(symbols[k]) && x == Upper(TermText(symbols[k].arguments[0]));
        if k < |front| {
          assert ShowsInconsistent(front[k]) && x == Upper(TermText(front[k].arguments[0]));
        }
      }
    }
  }

  /** An entry is kept from a shown atom iff that atom is `val` with two arguments. */
  lemma {:induction false} ShownValuesMeaning(symbols: seq<Symbol>, x: string)
    ensures x in ShownValues(symbols) <==>
      exists k :: 0 <= k < |symbols| && ShowsValue(symbols[k])
        && x == ValueText(symbols[k])
  {
    if symbols != [] {
      var front := symbols[..|symbols| - 1];
      ShownValuesMeaning(front, x);
      assert forall k :: 0 <= k < |front| ==> front[k] == symbols[k];
      if exists k :: 0 <= k < |symbols| && ShowsValue(symbols[k])
          && x == ValueText(symbols[k]) {
        var k :| 0 <= k < |symbols| && ShowsValue(symbols[k])
          && x == ValueText(symbols[k]);
        if k < |front| {
          assert ShowsValue(front[k]);
        }
      }
    }
  }
}
