/**
 * Vocabulary shared by the three weighted-clause encoders and by the reading
 * of their results: truth-value kinds, integer clauses, the weighted clause
 * set, the "exactly one of t/f/b" block, and listings of finite sets in the
 * arbitrary order in which Python iterates over a set.
 */
module Clauses {
  import opened Formulas
  import opened Text

  /** The three values of an atom in the paraconsistent encoding: true, false, both. */
  datatype Kind = T | F | B

  /** The letter the encoders use for a kind in their variable map and in results. */
  function KindName(k: Kind): (s: string)
    ensures |s| == 1
  {
    match k
    case T => "t"
    case F => "f"
    case B => "b"
  }

  lemma KindNameInjective(k: Kind, k': Kind)
    ensures KindName(k) == KindName(k') <==> k == k'
  {
  }

  /** A clause is a list of non-zero signed variable ids; `-v` is the negation of `v`. */
  type Clause = seq<int>

  /** The variable map of an encoder: `(atom, kind)` to its id. */
  type Ids = map<(string, Kind), int>

  /**
   * A weighted clause set as the encoders fill it: appending without a
   * weight adds a hard clause, appending with a non-zero weight adds a soft clause
   * and its weight.
   */
  datatype Wcnf = Wcnf(hard: seq<Clause>, soft: seq<Clause>, weights: seq<int>)
  {
    function AddHard(c: Clause): (w: Wcnf)
      ensures w.hard == hard + [c] && w.soft == soft && w.weights == weights
    {
      Wcnf(hard + [c], soft, weights)
    }

    /**
     * `append(c, weight=weight)`: a non-zero weight adds a soft clause with
     * that weight; a zero weight is false to Python, so the clause is hard.
     */
    function AddWeighted(c: Clause, weight: int): (w: Wcnf)
      ensures weight != 0 ==> w.hard == hard && w.soft == soft + [c] && w.weights == weights + [weight]
      ensures weight == 0 ==> w.hard == hard + [c] && w.soft == soft && w.weights == weights
    {
      if weight != 0 then Wcnf(hard, soft + [c], weights + [weight]) else AddHard(c)
    }
  }

  const NoClauses := Wcnf([], [], [])

  function Abs(x: int): (r: nat)
    ensures r == x || r == -x
  {
    if x < 0 then -x else x
  }

  // ---------------------------------------------------------------------
  // Satisfaction by a model, given as the set of its true literals
  // ---------------------------------------------------------------------

  /** A positive literal holds if it is in the model, any other if its negation is not. */
  predicate LitTrue(model: set<int>, lit: int)
  {
    if lit > 0 then lit in model else -lit !in model
  }

  predicate ClauseTrue(model: set<int>, c: Clause)
  {
    exists k :: 0 <= k < |c| && LitTrue(model, c[k])
  }

  predicate AllTrue(model: set<int>, cs: seq<Clause>)
  {
    forall j :: 0 <= j < |cs| ==> ClauseTrue(model, cs[j])
  }

  /** The atoms of a clause of signed atom numbers: the absolute values of its literals. */
  function ClauseVars(c: seq<int>): set<nat>
  {
    set l | l in c :: Abs(l)
  }

  lemma ClauseVarsSnoc(c: seq<int>, l: int)
    ensures ClauseVars(c + [l]) == ClauseVars(c) + {Abs(l)}
  {
    assert forall x :: x in c + [l] <==> x in c || x == l;
  }

  /** At least one of t/f/b, and no two of them. */
  function ExactlyOne(t: int, f: int, b: int): (cs: seq<Clause>)
    ensures |cs| == 4
  {
    [[t, f, b], [-t, -f], [-t, -b], [-f, -b]]
  }

  predicate OneOfThree(x: bool, y: bool, z: bool)
  {
    (x && !y && !z) || (!x && y && !z) || (!x && !y && z)
  }

  /** The four clauses hold exactly when one of the three variables is true. */
  lemma ExactlyOneMeaning(model: set<int>, t: int, f: int, b: int)
    requires t > 0 && f > 0 && b > 0
    ensures AllTrue(model, ExactlyOne(t, f, b)) <==> OneOfThree(t in model, f in model, b in model)
  {
    var cs := ExactlyOne(t, f, b);
    if OneOfThree(t in model, f in model, b in model) {
      var w := if t in model then 0 else if f in model then 1 else 2;
      assert LitTrue(model, cs[0][w]);
      assert ClauseTrue(model, cs[0]);
      assert ClauseTrue(model, cs[1]) by { if t in model { assert LitTrue(model, cs[1][1]); } else { assert LitTrue(model, cs[1][0]); } }
      assert ClauseTrue(model, cs[2]) by { if t in model { assert LitTrue(model, cs[2][1]); } else { assert LitTrue(model, cs[2][0]); } }
      assert ClauseTrue(model, cs[3]) by { if f in model { assert LitTrue(model, cs[3][1]); } else { assert LitTrue(model, cs[3][0]); } }
    } else if AllTrue(model, cs) {
      assert false;
    }
  }

  // ---------------------------------------------------------------------
  // Listings: the order in which a loop visits the members of a set
  // ---------------------------------------------------------------------

  ghost predicate NoDup<X>(xs: seq<X>)
  {
    forall i, j :: 0 <= i < j < |xs| ==> xs[i] != xs[j]
  }

  /** `order` visits every member of `S` exactly once. */
  ghost predicate Lists<X(!new)>(order: seq<X>, S: set<X>)
  {
    NoDup(order) && forall x :: x in order <==> x in S
  }

  lemma {:induction false} ListsCard<X(!new)>(order: seq<X>, S: set<X>)
    requires Lists(order, S)
    ensures |order| == |S|
    decreases |order|
  {
    if order != [] {
      var n := |order| - 1;
      var x := order[n];
      var front := order[..n];
      assert x !in front by {
        forall i | 0 <= i < n ensures front[i] != x { assert order[i] != order[n]; }
      }
      forall y ensures y in front <==> y in S - {x} {
        if y in front {
          var i :| 0 <= i < n && front[i] == y;
          assert order[i] == y;
        }
      }
      ListsCard(front, S - {x});
    }
  }

  /** The position of a member of a listed set. */
  lemma ListsIndex<X(!new)>(order: seq<X>, S: set<X>, x: X) returns (k: nat)
    requires Lists(order, S) && x in S
    ensures k < |order| && order[k] == x
  {
    assert x in order;
    k :| 0 <= k < |order| && order[k] == x;
  }

  lemma ListsSnoc<X(!new)>(order: seq<X>, S: set<X>, x: X)
    requires Lists(order, S) && x !in S
    ensures Lists(order + [x], S + {x})
  {
    var o := order + [x];
    forall i, j | 0 <= i < j < |o| ensures o[i] != o[j] {
      if j < |order| { assert o[i] == order[i] && o[j] == order[j]; }
      else { assert o[i] == order[i] && order[i] in S; }
    }
    forall y ensures y in o <==> y in S + {x} {
      if y in o {
        var i :| 0 <= i < |o| && o[i] == y;
        if i < |order| { assert order[i] == y; }
      }
    }
  }

  /**
   * One step of a loop that visits the members of `all`: `done` have been
   * visited (in the order `order`), `rest` have not, and `x` is next.
   */
  lemma Visit<X(!new)>(order: seq<X>, done: set<X>, rest: set<X>, all: set<X>, x: X)
    requires Lists(order, done) && done + rest == all && done !! rest && x in rest
    ensures Lists(order + [x], done + {x})
    ensures (done + {x}) + (rest - {x}) == all && (done + {x}) !! (rest - {x})
    ensures |rest - {x}| < |rest|
  {
    ListsSnoc(order, done, x);
  }

  // ---------------------------------------------------------------------
  // Concatenating blocks of clauses
  // ---------------------------------------------------------------------

  function Concat(blocks: seq<seq<Clause>>): (cs: seq<Clause>)
  {
    if blocks == [] then [] else Concat(blocks[..|blocks| - 1]) + blocks[|blocks| - 1]
  }

  lemma ConcatSnoc(blocks: seq<seq<Clause>>, b: seq<Clause>)
    ensures Concat(blocks + [b]) == Concat(blocks) + b
  {
    assert (blocks + [b])[..|blocks|] == blocks;
  }

  /** The clauses from block `i`, in order, sit at the offset the earlier blocks take up. */
  lemma {:induction false} ConcatContains(blocks: seq<seq<Clause>>, i: nat, j: nat)
    requires i < |blocks| && j < |blocks[i]|
    ensures blocks[i][j] in Concat(blocks)
    decreases |blocks|
  {
    var n := |blocks| - 1;
    if i < n {
      assert blocks[..n][i] == blocks[i];
      ConcatContains(blocks[..n], i, j);
    } else {
      assert Concat(blocks)[|Concat(blocks[..n])| + j] == blocks[i][j];
    }
  }

  /** A clause of one of the blocks is a clause of the set the blocks extend. */
  lemma InPreConcat(hard: seq<Clause>, pre: seq<Clause>, blocks: seq<seq<Clause>>, i: nat, j: nat, x: Clause)
    requires hard == pre + Concat(blocks) && i < |blocks| && j < |blocks[i]| && blocks[i][j] == x
    ensures x in hard
  {
    ConcatContains(blocks, i, j);
    var m :| 0 <= m < |Concat(blocks)| && Concat(blocks)[m] == x;
    assert hard[|pre| + m] == x;
  }

  function Sum(xs: seq<nat>): nat
  {
    if xs == [] then 0 else Sum(xs[..|xs| - 1]) + xs[|xs| - 1]
  }

  lemma {:induction false} ConcatLength(blocks: seq<seq<Clause>>)
    ensures |Concat(blocks)| == Sum(seq(|blocks|, i requires 0 <= i < |blocks| => |blocks[i]|))
    decreases |blocks|
  {
    if blocks != [] {
      var n := |blocks| - 1;
      ConcatLength(blocks[..n]);
      var lens := seq(|blocks|, i requires 0 <= i < |blocks| => |blocks[i]|);
      assert lens[..n] == seq(n, i requires 0 <= i < n => |blocks[..n][i]|);
    }
  }

  // ---------------------------------------------------------------------
  // The per-atom block the encoders emit first
  // ---------------------------------------------------------------------

  /** The id of `key`, or 0 where the map has none (no real id is 0). */
  function Id(ids: Ids, key: (string, Kind)): int
  {
    if key in ids then ids[key] else 0
  }

  predicate HasTriple(ids: Ids, a: string)
  {
    (a, T) in ids && (a, F) in ids && (a, B) in ids
  }

  /** Every atom of `S` has its three ids. */
  predicate KnowsAtoms(ids: Ids, S: set<string>)
  {
    forall a :: a in S ==> HasTriple(ids, a)
  }

  /** `ids'` keeps every id `ids` had. */
  predicate Extends(ids: Ids, ids': Ids)
  {
    forall key :: key in ids ==> key in ids' && ids'[key] == ids[key]
  }

  /** No two keys share an id. */
  predicate Injective(ids: Ids)
  {
    forall k1, k2 :: k1 in ids && k2 in ids && k1 != k2 ==> ids[k1] != ids[k2]
  }

  /** The exactly-one clauses of each atom, in the order the atoms are visited. */
  function AtomBlocks(ids: Ids, order: seq<string>): (cs: seq<Clause>)
    ensures |cs| == 4 * |order|
  {
    if order == [] then []
    else
      var a := order[|order| - 1];
      AtomBlocks(ids, order[..|order| - 1]) + ExactlyOne(Id(ids, (a, T)), Id(ids, (a, F)), Id(ids, (a, B)))
  }

  /** Atom `j` of the listing owns clauses `4j .. 4j+3`, and they are its exactly-one block. */
  lemma {:induction false} AtomBlocksAt(ids: Ids, order: seq<string>, j: nat)
    requires j < |order|
    ensures AtomBlocks(ids, order)[4 * j .. 4 * j + 4]
         == ExactlyOne(Id(ids, (order[j], T)), Id(ids, (order[j], F)), Id(ids, (order[j], B)))
    decreases |order|
  {
    var n := |order| - 1;
    if j < n {
      AtomBlocksAt(ids, order[..n], j);
      assert order[..n][j] == order[j];
      var pre := AtomBlocks(ids, order[..n]);
      assert AtomBlocks(ids, order)[4 * j .. 4 * j + 4] == pre[4 * j .. 4 * j + 4];
    }
  }

  /** Ids added later do not change the blocks of atoms that already had theirs. */
  lemma {:induction false} AtomBlocksExtends(ids: Ids, ids': Ids, order: seq<string>)
    requires Extends(ids, ids')
    requires forall j :: 0 <= j < |order| ==> HasTriple(ids, order[j])
    ensures AtomBlocks(ids', order) == AtomBlocks(ids, order)
    decreases |order|
  {
    if order != [] {
      AtomBlocksExtends(ids, ids', order[..|order| - 1]);
      assert HasTriple(ids, order[|order| - 1]);
    }
  }

  // ---------------------------------------------------------------------
  // Shared by the encoders: atom sets, listings of ids, increment clauses
  // ---------------------------------------------------------------------

  /** The `both` ids of the atoms, in the order listed. */
  function BothOf(ids: Ids, order: seq<string>): (c: Clause)
    ensures |c| == |order|
  {
    seq(|order|, j requires 0 <= j < |order| => Id(ids, (order[j], B)))
  }

  /**
   * A clause extended with `both` ids holds without them when none of those
   * atoms is `both` in the model.
   */
  lemma RescuedHolds(model: set<int>, lits: Clause, ids: Ids, order: seq<string>)
    requires ClauseTrue(model, lits + BothOf(ids, order))
    requires forall x :: x in order ==> Id(ids, (x, B)) > 0 && Id(ids, (x, B)) !in model
    ensures ClauseTrue(model, lits)
  {
    var c := lits + BothOf(ids, order);
    var k :| 0 <= k < |c| && LitTrue(model, c[k]);
    assert k < |lits| && LitTrue(model, lits[k]);
  }

  /**
   * A hard clause `[finc, -b]` with `b` true forces `finc`, which violates
   * the soft clause `[-finc]`.
   */
  lemma IncForces(model: set<int>, hard: seq<Clause>, finc: int, b: int)
    requires AllTrue(model, hard) && [finc, -b] in hard
    requires finc > 0 && b > 0 && b in model
    ensures finc in model && !ClauseTrue(model, [-finc])
  {
    var m :| 0 <= m < |hard| && hard[m] == [finc, -b];
    assert ClauseTrue(model, hard[m]);
    assert !LitTrue(model, hard[m][1]);
  }

  lemma BothOfSnoc(ids: Ids, order: seq<string>, a: string)
    ensures BothOf(ids, order + [a]) == BothOf(ids, order) + [Id(ids, (a, B))]
  {
  }

  lemma IncClausesSnoc(ids: Ids, finc: int, order: seq<string>, a: string)
    ensures IncClauses(ids, finc, order + [a]) == IncClauses(ids, finc, order) + [[finc, -Id(ids, (a, B))]]
  {
    assert (order + [a])[..|order|] == order;
  }

  lemma IncStep(ids: Ids, finc: int, order: seq<string>, a: string, cs: seq<Clause>, b: int)
    requires cs == IncClauses(ids, finc, order) && (a, B) in ids && b == ids[(a, B)]
    ensures cs + [[finc, -b]] == IncClauses(ids, finc, order + [a])
  {
    IncClausesSnoc(ids, finc, order, a);
  }

  /** `[finc, -a_both]` for each listed atom. */
  function IncClauses(ids: Ids, finc: int, order: seq<string>): (cs: seq<Clause>)
    ensures |cs| == |order|
  {
    if order == [] then []
    else IncClauses(ids, finc, order[..|order| - 1]) + [[finc, -Id(ids, (order[|order| - 1], B))]]
  }

  /** Every id is positive and below `counter`, and no two keys share one. */
  predicate FreshBelow(ids: Ids, counter: int)
  {
    (forall key :: key in ids ==> 1 <= ids[key] < counter) && Injective(ids)
  }

  lemma KnowsSubset(ids: Ids, S: set<string>, sub: set<string>)
    requires (forall key :: key in ids <==> key.0 in S) && sub <= S
    ensures KnowsAtoms(ids, sub)
  {
    forall a | a in sub ensures HasTriple(ids, a) {
      assert (a, T).0 in S && (a, F).0 in S && (a, B).0 in S;
    }
  }

  /** `[f.get_atoms() for f in formulas]` */
  function AtomSets(fs: seq<Formula>): (r: seq<set<string>>)
    ensures |r| == |fs| && forall i :: 0 <= i < |fs| ==> r[i] == Atoms(fs[i])
  {
    seq(|fs|, i requires 0 <= i < |fs| => Atoms(fs[i]))
  }

  /** `set().union(*sets)` */
  function Union(sets: seq<set<string>>): set<string>
  {
    if sets == [] then {} else Union(sets[..|sets| - 1]) + sets[|sets| - 1]
  }

  lemma {:induction false} UnionContains(sets: seq<set<string>>, i: nat)
    requires i < |sets|
    ensures sets[i] <= Union(sets)
    decreases |sets|
  {
    if i < |sets| - 1 {
      UnionContains(sets[..|sets| - 1], i);
    }
  }

  /** Atom `j` of the listing owns the ids `3j+1`, `3j+2`, `3j+3`. */
  predicate TripleAt(ids: Ids, order: seq<string>, j: nat)
    requires j < |order|
  {
    && (order[j], T) in ids && ids[(order[j], T)] == 3 * j + 1
    && (order[j], F) in ids && ids[(order[j], F)] == 3 * j + 2
    && (order[j], B) in ids && ids[(order[j], B)] == 3 * j + 3
  }

  /**
   * The three fresh ids `3n+1 .. 3n+3` given to atom `a` after `n` listed
   * atoms extend the listing's triples and its exactly-one blocks.
   */
  lemma TriplesStep(before: Ids, after: Ids, order: seq<string>, done: set<string>, a: string)
    requires forall j :: 0 <= j < |order| ==> TripleAt(before, order, j)
    requires after == before[(a, T) := 3 * |order| + 1][(a, F) := 3 * |order| + 2][(a, B) := 3 * |order| + 3]
    requires Lists(order, done) && a !in done && forall key :: key in before <==> key.0 in done
    ensures forall key :: key in after <==> key.0 in done + {a}
    ensures forall j :: 0 <= j < |order| + 1 ==> TripleAt(after, order + [a], j)
    ensures AtomBlocks(after, order + [a]) == AtomBlocks(before, order) + ExactlyOne(3 * |order| + 1, 3 * |order| + 2, 3 * |order| + 3)
  {
    forall j | 0 <= j < |order| ensures HasTriple(before, order[j]) && order[j] != a {
      assert TripleAt(before, order, j);
    }
    TriplesKeys(before, after, order, done, a);
    AtomBlocksExtends(before, after, order);
    AtomBlocksSnoc(after, order, a);
  }

  lemma TriplesKeys(before: Ids, after: Ids, order: seq<string>, done: set<string>, a: string)
    requires forall j :: 0 <= j < |order| ==> TripleAt(before, order, j)
    requires after == before[(a, T) := 3 * |order| + 1][(a, F) := 3 * |order| + 2][(a, B) := 3 * |order| + 3]
    requires a !in done && forall key :: key in before <==> key.0 in done
    ensures forall key :: key in after <==> key.0 in done + {a}
    ensures forall j :: 0 <= j < |order| + 1 ==> TripleAt(after, order + [a], j)
  {
    var order' := order + [a];
    forall key ensures key in after <==> key.0 in done + {a} {
      if key.0 == a {
        assert key == (a, key.1) && (key.1 == T || key.1 == F || key.1 == B);
      }
    }
    forall j | 0 <= j < |order'| ensures TripleAt(after, order', j) {
      if j < |order| { assert TripleAt(before, order, j); }
    }
  }

  lemma AtomBlocksSnoc(ids: Ids, order: seq<string>, a: string)
    ensures AtomBlocks(ids, order + [a]) == AtomBlocks(ids, order) + ExactlyOne(Id(ids, (a, T)), Id(ids, (a, F)), Id(ids, (a, B)))
  {
    assert (order + [a])[..|order|] == order;
  }

  /** The four clauses appended for one atom form its exactly-one block. */
  lemma AddExactlyOne(w: Wcnf, t: int, f: int, b: int)
    ensures w.AddHard([t, f, b]).AddHard([-t, -f]).AddHard([-t, -b]).AddHard([-f, -b])
         == Wcnf(w.hard + ExactlyOne(t, f, b), w.soft, w.weights)
  {
    assert w.hard + [[t, f, b]] + [[-t, -f]] + [[-t, -b]] + [[-f, -b]] == w.hard + ExactlyOne(t, f, b);
  }

  /** Appending one more block to clauses made of blocks. */
  lemma AppendBlock(hard: seq<Clause>, pre: seq<Clause>, blocks: seq<seq<Clause>>, b: seq<Clause>)
    requires hard == pre + Concat(blocks)
    ensures hard + b == pre + Concat(blocks + [b])
  {
    ConcatSnoc(blocks, b);
    assert pre + Concat(blocks) + b == pre + (Concat(blocks) + b);
  }

  /** Clause `k` of the increment clauses is the one for the `k`-th listed atom. */
  lemma {:induction false} IncClausesAt(ids: Ids, finc: int, order: seq<string>, k: nat)
    requires k < |order|
    ensures IncClauses(ids, finc, order)[k] == [finc, -Id(ids, (order[k], B))]
    decreases |order|
  {
    var n := |order| - 1;
    if k < n {
      IncClausesAt(ids, finc, order[..n], k);
    }
  }

  /** The weight 1 of every soft clause. */
  function Ones(m: nat): (r: seq<int>)
    ensures |r| == m
  {
    seq(m, i requires 0 <= i < m => 1)
  }
}
