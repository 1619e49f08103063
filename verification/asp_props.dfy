/**
 * What the generated answer-set program says about the knowledge base:
 * which atoms it declares, which facts it states for formulas, clauses and
 * literals, that the facts describe the knowledge base exactly, and that
 * the fact section of the text determines the facts.
 */
module AspProperties {
  import opened Clauses
  import opened Text
  import opened AspProgram

  // ---------------------------------------------------------------------
  // Declared atoms
  // ---------------------------------------------------------------------

  lemma {:induction false} FormulaAtomsMeaning(f: ClauseList, a: nat)
    ensures a in FormulaAtoms(f) <==> exists i, j :: 0 <= i < |f| && 0 <= j < |f[i]| && Abs(f[i][j]) == a
  {
    if f != [] {
      var g := f[..|f| - 1];
      FormulaAtomsMeaning(g, a);
      if a in FormulaAtoms(f) {
        if a in FormulaAtoms(g) {
          var i, j :| 0 <= i < |g| && 0 <= j < |g[i]| && Abs(g[i][j]) == a;
          assert f[i] == g[i];
        } else {
          var j :| 0 <= j < |f[|f| - 1]| && f[|f| - 1][j] in f[|f| - 1] && Abs(f[|f| - 1][j]) == a;
        }
      }
      if exists i, j :: 0 <= i < |f| && 0 <= j < |f[i]| && Abs(f[i][j]) == a {
        var i, j :| 0 <= i < |f| && 0 <= j < |f[i]| && Abs(f[i][j]) == a;
        if i < |g| {
          assert g[i] == f[i];
        } else {
          assert f[i][j] in f[|f| - 1];
        }
      }
    }
  }

  /** An atom is collected iff some literal of some clause of some formula has it. */
  lemma {:induction false} KbAtomsMeaning(kb: seq<ClauseList>, a: nat)
    ensures a in KbAtoms(kb) <==> exists n, i, j :: HasLiteral(kb, n, i, j) && Abs(kb[n][i][j]) == a
  {
    if kb != [] {
      var pre := kb[..|kb| - 1];
      var last := |kb| - 1;
      KbAtomsMeaning(pre, a);
      FormulaAtomsMeaning(kb[last], a);
      if a in KbAtoms(kb) {
        if a in KbAtoms(pre) {
          var n, i, j :| HasLiteral(pre, n, i, j) && Abs(pre[n][i][j]) == a;
          assert kb[n] == pre[n];
        } else {
          var i, j :| 0 <= i < |kb[last]| && 0 <= j < |kb[last][i]| && Abs(kb[last][i][j]) == a;
          assert HasLiteral(kb, last, i, j);
        }
      }
      if exists n, i, j :: HasLiteral(kb, n, i, j) && Abs(kb[n][i][j]) == a {
        var n, i, j :| HasLiteral(kb, n, i, j) && Abs(kb[n][i][j]) == a;
        if n < last {
          assert pre[n] == kb[n];
          assert HasLiteral(pre, n, i, j);
        }
      }
    }
  }

  /**
   * The declarations name every atom of the knowledge base and no other,
   * in strictly ascending order, so each exactly once.
   */
  lemma DeclaredAtoms(kb: seq<ClauseList>)
    ensures Ascending(SortedNats(KbAtoms(kb)))
    ensures forall a :: a in SortedNats(KbAtoms(kb)) <==> exists n, i, j :: HasLiteral(kb, n, i, j) && Abs(kb[n][i][j]) == a
  {
    forall a ensures a in SortedNats(KbAtoms(kb)) <==> exists n, i, j :: HasLiteral(kb, n, i, j) && Abs(kb[n][i][j]) == a {
      KbAtomsMeaning(kb, a);
    }
  }

  // ---------------------------------------------------------------------
  // Facts of literals and clauses
  // ---------------------------------------------------------------------

  /** Some literal of `c` has atom `a` and is negative exactly when `negated` is. */
  predicate Occurs(c: seq<int>, negated: bool, a: nat)
  {
    exists j :: 0 <= j < |c| && Abs(c[j]) == a && (c[j] < 0 <==> negated)
  }

  lemma OccursSnoc(c: seq<int>, l: int, negated: bool, a: nat)
    ensures Occurs(c + [l], negated, a) <==> Occurs(c, negated, a) || (Abs(l) == a && (l < 0 <==> negated))
  {
    if Occurs(c + [l], negated, a) {
      var j :| 0 <= j < |c + [l]| && Abs((c + [l])[j]) == a && ((c + [l])[j] < 0 <==> negated);
      if j < |c| {
        assert (c + [l])[j] == c[j];
      }
    }
    if Occurs(c, negated, a) {
      var j :| 0 <= j < |c| && Abs(c[j]) == a && (c[j] < 0 <==> negated);
      assert (c + [l])[j] == c[j];
    }
    if Abs(l) == a && (l < 0 <==> negated) {
      assert (c + [l])[|c|] == l;
    }
  }

  /** The literal facts of a clause: one `in_klausel` per literal, one `neg_atom` per negative one. */
  lemma {:induction false} LiteralsFactsShape(n: nat, i: nat, c: seq<int>)
    ensures forall x :: x in LiteralsFacts(n, i, c) ==> x.NegAtomFact? || (x.InKlausel? && x.formula == n && x.klausel == i)
  {
    if c != [] {
      LiteralsFactsShape(n, i, c[..|c| - 1]);
    }
  }

  lemma {:induction false} LiteralsFactsMeaning(n: nat, i: nat, c: seq<int>, negated: bool, a: nat)
    ensures InKlausel(n, i, negated, a) in LiteralsFacts(n, i, c) <==> Occurs(c, negated, a)
    ensures NegAtomFact(a) in LiteralsFacts(n, i, c) <==> Occurs(c, true, a)
  {
    if c != [] {
      var pre := c[..|c| - 1];
      var l := c[|c| - 1];
      assert c == pre + [l];
      LiteralsFactsMeaning(n, i, pre, negated, a);
      OccursSnoc(pre, l, negated, a);
      OccursSnoc(pre, l, true, a);
    }
  }

  /** The facts of the clauses of formula `n` are clause and literal facts of that formula. */
  lemma {:induction false} ClausesFactsShape(n: nat, f: ClauseList)
    ensures forall x :: x in ClausesFacts(n, f) ==>
      || (x.KlauselFact? && x.formula == n && x.klausel < |f|)
      || x.NegAtomFact?
      || (x.InKlausel? && x.formula == n && x.klausel < |f|)
  {
    if f != [] {
      var k := |f| - 1;
      ClausesFactsShape(n, f[..k]);
      LiteralsFactsShape(n, k, f[k]);
    }
  }

  lemma NoFormulaFactInClauses(m: nat, f: ClauseList, n: nat)
    ensures multiset(ClausesFacts(m, f))[FormulaFact(n)] == 0
  {
    ClausesFactsShape(m, f);
  }

  /** Clause `i` of formula `n` gets exactly one `klausel` fact. */
  lemma {:induction false} ClausesKlauselCount(n: nat, f: ClauseList, m: nat, i: nat)
    ensures multiset(ClausesFacts(n, f))[KlauselFact(m, i)] == if m == n && i < |f| then 1 else 0
  {
    if f != [] {
      var k := |f| - 1;
      ClausesKlauselCount(n, f[..k], m, i);
      var lits := LiteralsFacts(n, k, f[k]);
      assert KlauselFact(m, i) !in lits by {
        LiteralsFactsShape(n, k, f[k]);
      }
      assert ClausesFacts(n, f) == ClausesFacts(n, f[..k]) + ([KlauselFact(n, k)] + lits);
    }
  }

  lemma {:induction false} ClausesInKlausel(n: nat, f: ClauseList, m: nat, i: nat, negated: bool, a: nat)
    ensures InKlausel(m, i, negated, a) in ClausesFacts(n, f) <==> m == n && i < |f| && Occurs(f[i], negated, a)
  {
    if f != [] {
      var k := |f| - 1;
      ClausesInKlausel(n, f[..k], m, i, negated, a);
      var lits := LiteralsFacts(n, k, f[k]);
      assert ClausesFacts(n, f) == ClausesFacts(n, f[..k]) + ([KlauselFact(n, k)] + lits);
      LiteralsFactsMeaning(n, k, f[k], negated, a);
      LiteralsFactsShape(n, k, f[k]);
      if i < k {
        assert f[..k][i] == f[i];
      }
    }
  }

  lemma {:induction false} ClausesNegAtom(n: nat, f: ClauseList, a: nat)
    ensures NegAtomFact(a) in ClausesFacts(n, f) <==> exists k :: 0 <= k < |f| && Occurs(f[k], true, a)
  {
    if f != [] {
      var k := |f| - 1;
      var pre := f[..k];
      ClausesNegAtom(n, pre, a);
      var lits := LiteralsFacts(n, k, f[k]);
      assert ClausesFacts(n, f) == ClausesFacts(n, pre) + ([KlauselFact(n, k)] + lits);
      LiteralsFactsMeaning(n, k, f[k], true, a);
      if NegAtomFact(a) in ClausesFacts(n, pre) {
        var k' :| 0 <= k' < |pre| && Occurs(pre[k'], true, a);
        assert f[k'] == pre[k'];
      }
      if exists k' :: 0 <= k' < |f| && Occurs(f[k'], true, a) {
        var k' :| 0 <= k' < |f| && Occurs(f[k'], true, a);
        if k' < k {
          assert pre[k'] == f[k'];
        }
      }
    }
  }

  // ---------------------------------------------------------------------
  // Facts of the knowledge base
  // ---------------------------------------------------------------------

  /** The facts of the first `m` formulas come first. */
  lemma {:induction false} KbFactsPrefix(kb: seq<ClauseList>, m: nat)
    requires m <= |kb|
    ensures KbFacts(kb[..m]) <= KbFacts(kb)
    decreases |kb|
  {
    if m < |kb| {
      var pre := kb[..|kb| - 1];
      KbFactsPrefix(pre, m);
      assert pre[..m] == kb[..m];
    } else {
      assert kb[..m] == kb;
    }
  }

  /** Formula `n` gets exactly one `formula` fact, and only formulas of the knowledge base get one. */
  lemma {:induction false} FormulaFactOnce(kb: seq<ClauseList>, n: nat)
    ensures multiset(KbFacts(kb))[FormulaFact(n)] == if n < |kb| then 1 else 0
  {
    if kb != [] {
      var m := |kb| - 1;
      FormulaFactOnce(kb[..m], n);
      var clauses := ClausesFacts(m, kb[m]);
      NoFormulaFactInClauses(m, kb[m], n);
      var before := KbFacts(kb[..m]);
      assert KbFacts(kb) == before + ([FormulaFact(m)] + clauses);
      assert multiset(KbFacts(kb)) == multiset(before) + (multiset{FormulaFact(m)} + multiset(clauses));
      assert multiset{FormulaFact(m)}[FormulaFact(n)] == if n == m then 1 else 0;
    }
  }

  /** Clause `i` of formula `n` gets exactly one `klausel` fact; no other pair gets one. */
  lemma {:induction false} KlauselFactOnce(kb: seq<ClauseList>, n: nat, i: nat)
    ensures multiset(KbFacts(kb))[KlauselFact(n, i)] == if n < |kb| && i < |kb[n]| then 1 else 0
  {
    if kb != [] {
      var m := |kb| - 1;
      KlauselFactOnce(kb[..m], n, i);
      ClausesKlauselCount(m, kb[m], n, i);
      assert KbFacts(kb) == KbFacts(kb[..m]) + ([FormulaFact(m)] + ClausesFacts(m, kb[m]));
      if n < m {
        assert kb[..m][n] == kb[n];
      }
    }
  }

  /**
   * `in_klausel(f<n>, k<i>, a)` is stated iff clause `i` of formula `n` holds
   * the literal `a`, and `in_klausel(f<n>, k<i>, neg_a)` iff it holds `-a`.
   */
  lemma {:induction false} InKlauselMeaning(kb: seq<ClauseList>, n: nat, i: nat, negated: bool, a: nat)
    ensures InKlausel(n, i, negated, a) in KbFacts(kb) <==> n < |kb| && i < |kb[n]| && Occurs(kb[n][i], negated, a)
  {
    if kb != [] {
      var m := |kb| - 1;
      InKlauselMeaning(kb[..m], n, i, negated, a);
      ClausesInKlausel(m, kb[m], n, i, negated, a);
      assert KbFacts(kb) == KbFacts(kb[..m]) + ([FormulaFact(m)] + ClausesFacts(m, kb[m]));
      if n < m {
        assert kb[..m][n] == kb[n];
      }
    }
  }

  /** `neg_atom(a, neg_a)` is stated iff some clause of the knowledge base holds `-a`. */
  lemma {:induction false} NegAtomMeaning(kb: seq<ClauseList>, a: nat)
    ensures NegAtomFact(a) in KbFacts(kb) <==>
      exists n, i :: 0 <= n < |kb| && 0 <= i < |kb[n]| && Occurs(kb[n][i], true, a)
  {
    if kb != [] {
      var m := |kb| - 1;
      var pre := kb[..m];
      NegAtomMeaning(pre, a);
      ClausesNegAtom(m, kb[m], a);
      assert KbFacts(kb) == KbFacts(pre) + ([FormulaFact(m)] + ClausesFacts(m, kb[m]));
      if NegAtomFact(a) in KbFacts(pre) {
        var n, i :| 0 <= n < |pre| && 0 <= i < |pre[n]| && Occurs(pre[n][i], true, a);
        assert kb[n] == pre[n];
      }
      if exists n, i :: 0 <= n < |kb| && 0 <= i < |kb[n]| && Occurs(kb[n][i], true, a) {
        var n, i :| 0 <= n < |kb| && 0 <= i < |kb[n]| && Occurs(kb[n][i], true, a);
        if n < m {
          assert pre[n] == kb[n];
        }
      }
    }
  }

  // ---------------------------------------------------------------------
  // The facts describe the knowledge base exactly
  // ---------------------------------------------------------------------

  /** Appends the literals `c` to the last clause of the last formula. */
  function ExtendLastClause(kb: seq<ClauseList>, c: seq<int>): seq<ClauseList>
    requires kb != [] && kb[|kb| - 1] != []
  {
    var f := kb[|kb| - 1];
    kb[..|kb| - 1] + [f[..|f| - 1] + [f[|f| - 1] + c]]
  }

  /** Reading one more fact: a formula or clause fact opens a new one, a literal fact extends the last clause. */
  function ReadFact(kb: seq<ClauseList>, fact: Fact): seq<ClauseList>
  {
    match fact
    case FormulaFact(_) => kb + [[]]
    case KlauselFact(_, _) => if kb == [] then kb else kb[..|kb| - 1] + [kb[|kb| - 1] + [[]]]
    case NegAtomFact(_) => kb
    case InKlausel(_, _, negated, a) =>
      if kb == [] || kb[|kb| - 1] == [] then kb
      else ExtendLastClause(kb, [if negated then -(a as int) else a as int])
  }

  /** The knowledge base read so far, `kb`, extended by reading `facts` in order. */
  function ReadFacts(kb: seq<ClauseList>, facts: seq<Fact>): seq<ClauseList>
    decreases |facts|
  {
    if facts == [] then kb else ReadFacts(ReadFact(kb, facts[0]), facts[1..])
  }

  lemma {:induction false} ReadFactsAppend(kb: seq<ClauseList>, xs: seq<Fact>, ys: seq<Fact>)
    ensures ReadFacts(kb, xs + ys) == ReadFacts(ReadFacts(kb, xs), ys)
    decreases |xs|
  {
    if xs != [] {
      assert (xs + ys)[0] == xs[0] && (xs + ys)[1..] == xs[1..] + ys;
      ReadFactsAppend(ReadFact(kb, xs[0]), xs[1..], ys);
    } else {
      assert xs + ys == ys;
    }
  }

  lemma ExtendTwice(kb: seq<ClauseList>, c: seq<int>, l: int)
    requires kb != [] && kb[|kb| - 1] != []
    ensures ExtendLastClause(kb, c) != [] && ExtendLastClause(kb, c)[|ExtendLastClause(kb, c)| - 1] != []
    ensures ExtendLastClause(ExtendLastClause(kb, c), [l]) == ExtendLastClause(kb, c + [l])
  {
    var f := kb[|kb| - 1];
    var kb' := ExtendLastClause(kb, c);
    assert kb'[..|kb'| - 1] == kb[..|kb| - 1];
    assert kb'[|kb'| - 1] == f[..|f| - 1] + [f[|f| - 1] + c];
    assert (f[|f| - 1] + c) + [l] == f[|f| - 1] + (c + [l]);
  }

  lemma ReadCons(kb: seq<ClauseList>, x: Fact, xs: seq<Fact>)
    ensures ReadFacts(kb, [x] + xs) == ReadFacts(ReadFact(kb, x), xs)
  {
    assert ([x] + xs)[0] == x && ([x] + xs)[1..] == xs;
  }

  lemma ReadOne(kb: seq<ClauseList>, x: Fact)
    ensures ReadFacts(kb, [x]) == ReadFact(kb, x)
  {
    assert [x][1..] == [];
  }

  lemma ReadInKlausel(kb: seq<ClauseList>, n: nat, i: nat, l: int)
    requires kb != [] && kb[|kb| - 1] != []
    ensures ReadFact(kb, InKlausel(n, i, l < 0, Abs(l))) == ExtendLastClause(kb, [l])
  {
    var lit := if l < 0 then -(Abs(l) as int) else Abs(l) as int;
    assert [lit] == [l];
  }

  lemma ReadPositive(kb: seq<ClauseList>, n: nat, i: nat, l: int)
    requires kb != [] && kb[|kb| - 1] != [] && l >= 0
    ensures ReadFacts(kb, [InKlausel(n, i, false, Abs(l))]) == ExtendLastClause(kb, [l])
  {
    ReadOne(kb, InKlausel(n, i, false, Abs(l)));
    ReadInKlausel(kb, n, i, l);
  }

  lemma ReadNegative(kb: seq<ClauseList>, n: nat, i: nat, l: int)
    requires kb != [] && kb[|kb| - 1] != [] && l < 0
    ensures ReadFacts(kb, [NegAtomFact(Abs(l)), InKlausel(n, i, true, Abs(l))]) == ExtendLastClause(kb, [l])
  {
    var last := InKlausel(n, i, true, Abs(l));
    ReadOne(kb, last);
    ReadInKlausel(kb, n, i, l);
    ReadCons(kb, NegAtomFact(Abs(l)), [last]);
    assert [NegAtomFact(Abs(l))] + [last] == [NegAtomFact(Abs(l)), last];
  }

  lemma ReadLiteral(kb: seq<ClauseList>, n: nat, i: nat, l: int)
    requires kb != [] && kb[|kb| - 1] != []
    ensures ReadFacts(kb, LiteralFacts(n, i, l)) == ExtendLastClause(kb, [l])
  {
    if l < 0 {
      ReadNegative(kb, n, i, l);
    } else {
      ReadPositive(kb, n, i, l);
    }
  }

  lemma {:induction false} ReadLiterals(kb: seq<ClauseList>, n: nat, i: nat, c: seq<int>)
    requires kb != [] && kb[|kb| - 1] != []
    ensures ReadFacts(kb, LiteralsFacts(n, i, c)) == ExtendLastClause(kb, c)
  {
    if c == [] {
      var f := kb[|kb| - 1];
      assert f[|f| - 1] + c == f[|f| - 1];
      assert f[..|f| - 1] + [f[|f| - 1]] == f;
      assert kb[..|kb| - 1] + [f] == kb;
    } else {
      var pre := c[..|c| - 1];
      var l := c[|c| - 1];
      ReadLiterals(kb, n, i, pre);
      ReadFactsAppend(kb, LiteralsFacts(n, i, pre), LiteralFacts(n, i, l));
      ExtendTwice(kb, pre, l);
      ReadLiteral(ExtendLastClause(kb, pre), n, i, l);
      assert pre + [l] == c;
    }
  }

  lemma ReadKlausel(kb: seq<ClauseList>, f: ClauseList, n: nat, k: nat, c: seq<int>)
    ensures ReadFacts(kb + [f], ClauseFacts(n, k, c)) == kb + [f + [c]]
  {
    var g := f + [[]];
    var kb' := kb + [g];
    assert ReadFact(kb + [f], KlauselFact(n, k)) == kb' by {
      assert (kb + [f])[..|kb|] == kb;
    }
    ReadCons(kb + [f], KlauselFact(n, k), LiteralsFacts(n, k, c));
    ReadLiterals(kb', n, k, c);
    assert kb'[..|kb'| - 1] == kb;
    assert g[..|g| - 1] == f && g[|g| - 1] + c == c;
  }

  lemma {:induction false} ReadClauses(kb: seq<ClauseList>, n: nat, f: ClauseList)
    ensures ReadFacts(kb, FormulaFacts(n, f)) == kb + [f]
  {
    if f == [] {
      ReadCons(kb, FormulaFact(n), []);
    } else {
      var k := |f| - 1;
      var pre := f[..k];
      ReadClauses(kb, n, pre);
      assert ClausesFacts(n, f) == ClausesFacts(n, pre) + ClauseFacts(n, k, f[k]);
      AppendAssoc([FormulaFact(n)], ClausesFacts(n, pre), ClauseFacts(n, k, f[k]));
      ReadFactsAppend(kb, FormulaFacts(n, pre), ClauseFacts(n, k, f[k]));
      ReadKlausel(kb, pre, n, k, f[k]);
      assert pre + [f[k]] == f;
    }
  }

  /** Reading the facts back gives the knowledge base they were generated from. */
  lemma {:induction false} FactsDescribeKb(kb: seq<ClauseList>)
    ensures ReadFacts([], KbFacts(kb)) == kb
  {
    if kb != [] {
      var m := |kb| - 1;
      FactsDescribeKb(kb[..m]);
      ReadFactsAppend([], KbFacts(kb[..m]), FormulaFacts(m, kb[m]));
      ReadClauses(kb[..m], m, kb[m]);
      assert kb[..m] + [kb[m]] == kb;
    }
  }

  // ---------------------------------------------------------------------
  // The fact section of the text determines the facts
  // ---------------------------------------------------------------------

  lemma DropPrefix<T>(p: seq<T>, s: seq<T>, t: seq<T>)
    requires p + s == p + t
    ensures s == t
  {
    assert s == (p + s)[|p|..];
    assert t == (p + t)[|p|..];
  }

  /** The first character of a fact's line tells which kind of fact it is. */
  function Initial(fact: Fact): char
  {
    match fact
    case FormulaFact(_) => 'f'
    case KlauselFact(_, _) => 'k'
    case NegAtomFact(_) => 'n'
    case InKlausel(_, _, _, _) => 'i'
  }

  lemma RenderInitial(fact: Fact)
    ensures Render(fact) != [] && Render(fact)[0] == Initial(fact)
  {
  }

  lemma LiteralNameInjective(negated: bool, a: nat, negated': bool, a': nat)
    requires LiteralName(negated, a) + ")." == LiteralName(negated', a') + ")."
    ensures negated == negated' && a == a'
  {
    var s, s' := LiteralName(negated, a), LiteralName(negated', a');
    assert negated <==> !IsDigit((s + ").")[0]);
    assert negated' <==> !IsDigit((s' + ").")[0]);
    if negated {
      AppendAssoc("neg_", NatToString(a), ").");
      AppendAssoc("neg_", NatToString(a'), ").");
      DropPrefix("neg_", NatToString(a) + ").", NatToString(a') + ").");
    }
    NumberThenText(a, ").", a', ").");
  }

  /** Different facts are written as different lines. */
  lemma RenderInjective(x: Fact, y: Fact)
    requires Render(x) == Render(y)
    ensures x == y
  {
    RenderInitial(x);
    RenderInitial(y);
    match x
    case FormulaFact(n) =>
      var n' := y.formula;
      DropPrefix("formula(f", NatToString(n) + ").", NatToString(n') + ").");
      NumberThenText(n, ").", n', ").");
    case KlauselFact(n, i) =>
      var n', i' := y.formula, y.klausel;
      var rest, rest' := ", k" + (NatToString(i) + ")."), ", k" + (NatToString(i') + ").");
      DropPrefix("klausel(f", NatToString(n) + rest, NatToString(n') + rest');
      NumberThenText(n, rest, n', rest');
      DropPrefix(", k", NatToString(i) + ").", NatToString(i') + ").");
      NumberThenText(i, ").", i', ").");
    case NegAtomFact(a) =>
      var a' := y.atom;
      var rest, rest' := ", neg_" + (NatToString(a) + ")."), ", neg_" + (NatToString(a') + ").");
      DropPrefix("neg_atom(", NatToString(a) + rest, NatToString(a') + rest');
      NumberThenText(a, rest, a', rest');
    case InKlausel(n, i, negated, a) =>
      var n', i', negated', a' := y.formula, y.klausel, y.negated, y.atom;
      var lit, lit' := LiteralName(negated, a) + ").", LiteralName(negated', a') + ").";
      var rest, rest' := ", k" + (NatToString(i) + (", " + lit)), ", k" + (NatToString(i') + (", " + lit'));
      DropPrefix("in_klausel(f", NatToString(n) + rest, NatToString(n') + rest');
      NumberThenText(n, rest, n', rest');
      DropPrefix(", k", NatToString(i) + (", " + lit), NatToString(i') + (", " + lit'));
      NumberThenText(i, ", " + lit, i', ", " + lit');
      DropPrefix(", ", lit, lit');
      LiteralNameInjective(negated, a, negated', a');
  }

  /** Printable ASCII: in particular neither a line break nor empty-line material. */
  predicate Printable(s: string)
  {
    forall k :: 0 <= k < |s| ==> ' ' <= s[k] <= '~'
  }

  lemma PrintableConcat(s: string, t: string)
    requires Printable(s) && Printable(t)
    ensures Printable(s + t)
  {
  }

  lemma NumberPrintable(n: nat)
    ensures Printable(NatToString(n))
  {
  }

  lemma PrintableLine(s: string)
    requires Printable(s)
    ensures !HasLineBreak(s)
  {
  }

  lemma PrintableLiteralName(negated: bool, a: nat)
    ensures Printable(LiteralName(negated, a) + ").")
  {
    NumberPrintable(a);
  }

  lemma FormulaLinePrintable(n: nat)
    ensures Printable(Render(FormulaFact(n)))
  {
    NumberPrintable(n);
    PrintableConcat(NatToString(n), ").");
    PrintableConcat("formula(f", NatToString(n) + ").");
  }

  lemma KlauselLinePrintable(n: nat, i: nat)
    ensures Printable(Render(KlauselFact(n, i)))
  {
    NumberPrintable(n);
    NumberPrintable(i);
    PrintableConcat(NatToString(i), ").");
    PrintableConcat(", k", NatToString(i) + ").");
    PrintableConcat(NatToString(n), ", k" + (NatToString(i) + ")."));
    PrintableConcat("klausel(f", NatToString(n) + (", k" + (NatToString(i) + ").")));
  }

  lemma NegAtomLinePrintable(a: nat)
    ensures Printable(Render(NegAtomFact(a)))
  {
    NumberPrintable(a);
    PrintableConcat(NatToString(a), ").");
    PrintableConcat(", neg_", NatToString(a) + ").");
    PrintableConcat(NatToString(a), ", neg_" + (NatToString(a) + ")."));
    PrintableConcat("neg_atom(", NatToString(a) + (", neg_" + (NatToString(a) + ").")));
  }

  lemma InKlauselLinePrintable(n: nat, i: nat, negated: bool, a: nat)
    ensures Printable(Render(InKlausel(n, i, negated, a)))
  {
    NumberPrintable(n);
    NumberPrintable(i);
    var lit := LiteralName(negated, a) + ").";
    PrintableLiteralName(negated, a);
    PrintableConcat(", ", lit);
    PrintableConcat(NatToString(i), ", " + lit);
    PrintableConcat(", k", NatToString(i) + (", " + lit));
    PrintableConcat(NatToString(n), ", k" + (NatToString(i) + (", " + lit)));
    PrintableConcat("in_klausel(f", NatToString(n) + (", k" + (NatToString(i) + (", " + lit))));
  }

  /** Each fact is one non-empty line. */
  lemma RenderIsLine(fact: Fact)
    ensures Render(fact) != [] && !HasLineBreak(Render(fact))
  {
    RenderInitial(fact);
    match fact
    case FormulaFact(n) => FormulaLinePrintable(n);
    case KlauselFact(n, i) => KlauselLinePrintable(n, i);
    case NegAtomFact(a) => NegAtomLinePrintable(a);
    case InKlausel(n, i, negated, a) => InKlauselLinePrintable(n, i, negated, a);
    PrintableLine(Render(fact));
  }

  /**
   * The knowledge-base section of the program text determines the knowledge
   * base: two knowledge bases with the same section are the same.
   */
  lemma KbSectionDetermines(kb1: seq<ClauseList>, kb2: seq<ClauseList>)
    requires KbSection(kb1) == KbSection(kb2)
    ensures kb1 == kb2
  {
    var lines1, lines2 := RenderAll(KbFacts(kb1)), RenderAll(KbFacts(kb2));
    var j1, j2 := Join(lines1, '\n'), Join(lines2, '\n');
    assert j1 == j2 by {
      assert |j1| == |j2|;
      assert j1 == KbSection(kb1)[..|j1|] && j2 == KbSection(kb2)[..|j2|];
    }
    forall lines: seq<string> | lines == lines1 || lines == lines2
      ensures SplitLines(Join(lines, '\n')) == lines
    {
      forall k | 0 <= k < |lines|
        ensures lines[k] != [] && !HasLineBreak(lines[k])
      {
        RenderIsLine(if lines == lines1 then KbFacts(kb1)[k] else KbFacts(kb2)[k]);
      }
      SplitLinesJoin(lines);
    }
    var facts1, facts2 := KbFacts(kb1), KbFacts(kb2);
    forall k | 0 <= k < |facts1|
      ensures facts1[k] == facts2[k]
    {
      RenderInjective(facts1[k], facts2[k]);
    }
    assert facts1 == facts2;
    FactsDescribeKb(kb1);
    FactsDescribeKb(kb2);
  }
}
