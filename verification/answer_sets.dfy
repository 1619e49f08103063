/**
 * Reading the answer sets the ASP solver returns for the generated program:
 * whether there is a solution, the atoms valued `both` and the number of
 * inconsistent formulas, all taken from the first answer set.
 */
module AnswerSets {
  import opened Wrappers
  import opened AspProgram

  /** An argument of a shown atom: a number or a constant such as `f0` or `b`. */
  datatype Term = Number(n: int) | Constant(name: string)

  /** A shown atom `name(arguments...)` of an answer set. */
  datatype Symbol = Symbol(name: string, arguments: seq<Term>)

  predicate IsBoth(s: Symbol)
  {
    s.name == "both" && |s.arguments| == 1
  }

  predicate IsInconsistent(s: Symbol)
  {
    s.name == "f_inconsistent"
  }

  /**
   * The atoms valued `both` and the count of inconsistent formulas in one
   * answer set, or the first `both` atom whose argument is not a number.
   */
  function ReadSymbols(symbols: seq<Symbol>): Result<(seq<int>, nat), Symbol>
  {
    if symbols == [] then Ok(([], 0))
    else
      match ReadSymbols(symbols[..|symbols| - 1])
      case Err(s) => Err(s)
      case Ok((both, count)) =>
        var s := symbols[|symbols| - 1];
        if IsBoth(s) then
          if s.arguments[0].Number? then Ok((both + [s.arguments[0].n], count)) else Err(s)
        else if IsInconsistent(s) then Ok((both, count + 1))
        else Ok((both, count))
  }

  /**
   * `(solution_found, both_atoms, inconsistent_count)` for what the solver
   * returned: nothing (`None`, when it failed), no answer set, or a list of them.
   */
  function SolveResult(answerSets: Option<seq<seq<Symbol>>>): Result<(bool, seq<int>, nat), Symbol>
  {
    if answerSets.None? || answerSets.value == [] then Ok((false, [], 0))
    else
      match ReadSymbols(answerSets.value[0])
      case Err(s) => Err(s)
      case Ok((both, count)) => Ok((true, both, count))
  }

  /** The reading loop over the first answer set. */
  method ReadAnswerSets(answerSets: Option<seq<seq<Symbol>>>) returns (r: Result<(bool, seq<int>, nat), Symbol>)
    ensures r == SolveResult(answerSets)
  {
    var bothAtoms: seq<int> := [];
    var inconsistentCount: nat := 0;
    if answerSets.Some? && answerSets.value != [] {
      var firstSet := answerSets.value[0];
      for k := 0 to |firstSet|
        invariant ReadSymbols(firstSet[..k]) == Ok((bothAtoms, inconsistentCount))
      {
        var symbol := firstSet[k];
        assert firstSet[..k + 1][..k] == firstSet[..k];
        if symbol.name == "both" && |symbol.arguments| == 1 {
          if !symbol.arguments[0].Number? {
            assert ReadSymbols(firstSet[..k + 1]) == Err(symbol);
            ErrStays(firstSet, k + 1, symbol);
            return Err(symbol);
          }
          bothAtoms := bothAtoms + [symbol.arguments[0].n];
        } else if symbol.name == "f_inconsistent" {
          inconsistentCount := inconsistentCount + 1;
        }
      }
      assert firstSet[..|firstSet|] == firstSet;
      r := Ok((true, bothAtoms, inconsistentCount));
    } else {
      r := Ok((false, bothAtoms, inconsistentCount));
    }
  }

  /** Once a `both` atom without a number is read, the reading fails with it. */
  lemma {:induction false} ErrStays(symbols: seq<Symbol>, k: nat, s: Symbol)
    requires k <= |symbols| && ReadSymbols(symbols[..k]) == Err(s)
    ensures ReadSymbols(symbols) == Err(s)
    decreases |symbols| - k
  {
    if k == |symbols| {
      assert symbols[..k] == symbols;
    } else {
      assert symbols[..k + 1][..k] == symbols[..k];
      ErrStays(symbols, k + 1, s);
    }
  }

  /**
   * `solve_asp`: the program for the knowledge base, and the reading of the
   * answer sets the solver returned for it.
   */
  method SolveAsp(kb: seq<ClauseList>, answerSets: Option<seq<seq<Symbol>>>)
    returns (aspCode: string, r: Result<(bool, seq<int>, nat), Symbol>)
    ensures aspCode == ProgramText(kb)
    ensures r == SolveResult(answerSets)
  {
    aspCode := GenerateAspCode(kb);
    r := ReadAnswerSets(answerSets);
  }

  // ---------------------------------------------------------------------
  // What the reading yields
  // ---------------------------------------------------------------------

  /** A `both` atom whose argument is not a number. */
  predicate BadBoth(s: Symbol)
  {
    IsBoth(s) && !s.arguments[0].Number?
  }

  /**
   * The reading fails iff some `both` atom has an argument that is not a
   * number, and then with the first such atom.
   */
  lemma {:induction false} ReadSymbolsFails(symbols: seq<Symbol>)
    ensures ReadSymbols(symbols).Err? <==> exists k :: 0 <= k < |symbols| && BadBoth(symbols[k])
    ensures ReadSymbols(symbols).Err? ==>
      exists k :: 0 <= k < |symbols| && symbols[k] == ReadSymbols(symbols).error && BadBoth(symbols[k])
        && forall j :: 0 <= j < k ==> !BadBoth(symbols[j])
  {
    if symbols != [] {
      var pre := symbols[..|symbols| - 1];
      ReadSymbolsFails(pre);
      assert forall j :: 0 <= j < |pre| ==> pre[j] == symbols[j];
      if ReadSymbols(pre).Err? {
        var k :| 0 <= k < |pre| && pre[k] == ReadSymbols(pre).error && BadBoth(pre[k])
          && forall j :: 0 <= j < k ==> !BadBoth(pre[j]);
        assert symbols[k] == ReadSymbols(symbols).error;
      } else if BadBoth(symbols[|pre|]) {
        assert symbols[|pre|] == ReadSymbols(symbols).error;
      }
    }
  }

  /** The positions of the inconsistent-formula atoms. */
  function InconsistentAt(symbols: seq<Symbol>): set<nat>
  {
    set k: nat | k < |symbols| && IsInconsistent(symbols[k])
  }

  /** The positions of the `both` atoms. */
  function BothAt(symbols: seq<Symbol>): set<nat>
  {
    set k: nat | k < |symbols| && IsBoth(symbols[k])
  }

  lemma PositionsSnoc(symbols: seq<Symbol>, s: Symbol)
    ensures InconsistentAt(symbols + [s]) == InconsistentAt(symbols) + (if IsInconsistent(s) then {|symbols|} else {})
    ensures BothAt(symbols + [s]) == BothAt(symbols) + (if IsBoth(s) then {|symbols|} else {})
    ensures |symbols| !in InconsistentAt(symbols) && |symbols| !in BothAt(symbols)
  {
    var t := symbols + [s];
    assert forall k :: 0 <= k < |symbols| ==> t[k] == symbols[k];
    assert t[|symbols|] == s;
  }

  /**
   * A successful reading counts every `f_inconsistent` atom of the set, and
   * collects the number of every `both` atom: one entry per such atom.
   */
  lemma {:induction false} ReadSymbolsCounts(symbols: seq<Symbol>)
    requires ReadSymbols(symbols).Ok?
    ensures ReadSymbols(symbols).value.1 == |InconsistentAt(symbols)|
    ensures |ReadSymbols(symbols).value.0| == |BothAt(symbols)|
  {
    if symbols != [] {
      var pre := symbols[..|symbols| - 1];
      var s := symbols[|symbols| - 1];
      assert symbols == pre + [s];
      ReadSymbolsCounts(pre);
      PositionsSnoc(pre, s);
    }
  }

  /** The collected numbers are exactly the arguments of the `both` atoms. */
  lemma {:induction false} ReadSymbolsBoth(symbols: seq<Symbol>, x: int)
    requires ReadSymbols(symbols).Ok?
    ensures x in ReadSymbols(symbols).value.0 <==>
      exists k :: 0 <= k < |symbols| && IsBoth(symbols[k]) && symbols[k].arguments[0] == Number(x)
  {
    if symbols != [] {
      var pre := symbols[..|symbols| - 1];
      var s := symbols[|symbols| - 1];
      ReadSymbolsBoth(pre, x);
      assert forall j :: 0 <= j < |pre| ==> pre[j] == symbols[j];
      if exists k :: 0 <= k < |symbols| && IsBoth(symbols[k]) && symbols[k].arguments[0] == Number(x) {
        var k :| 0 <= k < |symbols| && IsBoth(symbols[k]) && symbols[k].arguments[0] == Number(x);
        if k < |pre| {
          assert IsBoth(pre[k]) && pre[k].arguments[0] == Number(x);
        }
      }
    }
  }

  /**
   * No answer set (or a failed solver run) means no solution, and only the
   * first answer set is read.
   */
  lemma FirstSetOnly(first: seq<Symbol>, rest: seq<seq<Symbol>>)
    ensures SolveResult(None) == Ok((false, [], 0)) && SolveResult(Some([])) == Ok((false, [], 0))
    ensures SolveResult(Some([first] + rest)) == SolveResult(Some([first]))
    ensures SolveResult(Some([first])).Ok? ==> SolveResult(Some([first])).value.0
  {
  }
}
