# Contension inconsistency measure: a Dafny model of the encoders

This project models, in Dafny, the core of a Python tool that computes the
*contension* inconsistency measure of a propositional knowledge base. Each atom
takes one of three values: `t` (true), `f` (false) or `b` (both). A formula is
inconsistent when it needs an atom valued `b`. The measure is the least number
of inconsistent formulas over the assignments under which no formula is false.

The tool compiles a knowledge base into one of three forms. An external engine
then solves it, and the tool reads the engine's answer back:

* a weighted clause set (for a MaxSAT engine), built by the **naive** encoder
  from the formulas' CNF, by the **Tseitin** encoder from a structure-sharing
  transform, or by the **dynamic** encoder from a knowledge base that is already
  a list of clauses;
* a logic program (for an answer-set engine), built from the knowledge base's
  clauses.

The model follows the source file by file:

| Dafny file | module | source file | form |
|---|---|---|---|
| `formula.dfy` | `Formulas` | `src/formula.py` | datatype and functions: the four CNF passes, atoms, printing |
| `knowledgebase.dfy` | `Knowledge` | `src/knowledgebase.py` | class `Kb` with a `seq<Formula>` field |
| `parser.dfy` | `Parser` | `src/parser.py` | tokenizer and precedence tables as functions; the shunting-yard loops as methods proved against spec functions |
| `printparse.dfy` | `PrintParse` | `src/formula.py`, `src/parser.py` | the round trip from printing to parsing |
| `clauses.dfy` | `Clauses` | shared by the encoders | weighted clause sets, the exactly-one block, listings of set iterations |
| `naive.dfy`, `naive_props.dfy` | `NaiveEncoder`, `NaiveProperties` | `src/solver_max_SAT_naive.py` | class `Encoder` with its id pool and variable map |
| `tseitin.dfy`, `tseitin_props.dfy` | `TseitinEncoder`, `TseitinProperties` | `src/solver_max_SAT_Tseitin.py` | class `Encoder` that shares its pool with the transform |
| `dynamic.dfy`, `dynamic_props.dfy` | `DynamicEncoder`, `DynamicSolve`, `DynamicProperties` | `src/MaxSAT/solver.py` | loops as methods over sequences and maps |
| `asp.dfy`, `asp_props.dfy` | `AspProgram`, `AspProperties` | `src/solver_ASP.py` | program text as a function; the generator loops as methods |
| `answer_sets.dfy` | `AnswerSets` | `src/solver_ASP.py` | reading the first answer set |
| `interpret.dfy` | `Interpretation` | `main.py` | reading MaxSAT models and answer-set models back into reports |
| `text.dfy` | `Text` | Python's `str` | string order, stable keyed sort, `splitlines`, `strip`, `str(int)` |
| `wrappers.dfy` | `Wrappers` | (none) | `Option` and `Result` |

Main results:

* **CNF.** `to_cnf` yields CNF. It keeps the atoms, whether a TRUE or FALSE
  leaf is present, and the two-valued truth value under every assignment. It is
  idempotent.
* **Parsing.** `parse_formula(str(f)) == f` for every formula whose atom names
  are identifiers. Reading `str(kb)` back gives the same formulas.
* **The three MaxSAT encoders.** In every model of the hard clauses:
  * every atom takes exactly one of its three values;
  * an atom of formula `i` valued `b` forces `finc_i` and violates the soft
    clause `[-finc_i]`;
  * a clause none of whose atoms is `b` holds through its own literals.

  The id layout is fixed as well: which ids are distinct, which clause sits at
  which position, and how many clauses there are.
* **The logic program.** It declares each atom of the knowledge base once. Its
  facts describe the knowledge base exactly: reading them back gives it again,
  and two knowledge bases with the same fact section are equal.
* **Reading results.** The inverse variable map is the exact inverse of the
  encoders' map. `atom:kind` is reported iff that kind's id is true in the
  model. Formula `F{i}` is reported iff its soft clause is violated, that is,
  iff `finc_i` is true. The sort by atom name is stable. The answer-set callback
  keeps the first model of least cost.

## Notes on the source

* The logic program of `src/solver_ASP.py` states the knowledge base's
  *clauses* as facts (`formula/1`, `klausel/2`, `in_klausel/3`, `neg_atom/2`),
  not its formula trees. It shows `val/2`, `formel_erfuellt/1`,
  `f_inconsistent/1` and `both/1`.
* `main.py:66` imports `ASPEncoder` from `src/solver_ASP.py`, which defines no
  such class. The answer-set path of `main.py` is therefore modelled from its
  callback (`on_model`, 79-94) and its sorting (100-101), with the engine's
  models as input.
* `src/solver_max_SAT_Tseitin.py:67-71` calls `formula.to_cnf(method=...,
  id_pool=..., atom_true_varmap=...)`, but `src/formula.py:116` defines only
  the argument-less naive `to_cnf`. The transform's result is therefore an
  input of the model (`TseitinEncoder.TseitinCnf`, with its auxiliaries drawn
  from the shared pool), and the encoder's treatment of it is modelled exactly.
* The clause set is pysat's `WCNF`, which lies outside the repository. Its
  `append(clause, weight=w)` files the clause as soft only when `w` is true to
  Python; a weight of 0 makes it hard. `Clauses.Wcnf.AddWeighted` models that
  test. The encoders always pass weight 1, but `solve_maxsat` passes on
  whatever weights its caller gives.

## Model

| member | source | states |
|---|---|---|
| Formulas.Subformulas | src/formula.py:163-169 | `get_subformulas`: two children (left then right) for a binary node, one for NOT, none for a leaf, each smaller than the node |
| Formulas.AtomsFromSubformulas | src/formula.py:122-132 | `get_atoms` of a node is its own name for an atom plus the atoms of its sub-formulas |
| Formulas.EliminateIff | src/formula.py:43-57 | the result contains no IFF; an IFF becomes an AND of two IMPLIES; every other node keeps its tag |
| Formulas.EliminateImplies | src/formula.py:59-71 | on an IFF-free formula the result has neither IFF nor IMPLIES; an IFF node is returned untouched |
| Formulas.PushNotInwards | src/formula.py:73-93 | on a formula without IFF and IMPLIES the result is in negation normal form |
| Formulas.DistributeOrOverAnd | src/formula.py:95-114 | the distribution terminates: its weight (a product over OR nodes) never grows |
| Formulas.DistributeLeftLighter | src/formula.py:99-102 | when the left disjunct has become a conjunction, both new disjunctions are lighter than the disjunction being distributed, and their weights plus one stay within its weight |
| Formulas.DistributeRightLighter | src/formula.py:103-106 | the same when the right disjunct has become a conjunction |
| Formulas.EliminateIffPreserves | src/formula.py:43-57 | IFF elimination keeps the atoms, the presence of constants and the truth value under every assignment |
| Formulas.EliminateImpliesPreserves | src/formula.py:59-71 | IMPLIES elimination keeps the atoms, the constants and the truth value |
| Formulas.PushNotInwardsPreserves | src/formula.py:73-93 | De Morgan and double negation keep the atoms, the constants and the truth value |
| Formulas.DistributePreserves | src/formula.py:95-114 | distribution keeps the atoms, the constants and the truth value |
| Formulas.DistributeKeepsAtoms | src/formula.py:95-114 | distribution keeps the atoms |
| Formulas.DistributeOrKeepsAtoms | src/formula.py:96-108 | the OR case of distribution keeps the atoms |
| Formulas.DistributeKeepsConstants | src/formula.py:95-114 | distribution keeps the presence of TRUE/FALSE leaves |
| Formulas.DistributeOrKeepsConstants | src/formula.py:96-108 | the OR case keeps the presence of constants |
| Formulas.DistributeKeepsMeaning | src/formula.py:95-114 | distribution keeps the truth value under every assignment |
| Formulas.DistributeOrKeepsMeaning | src/formula.py:96-108 | the OR case keeps the truth value |
| Formulas.DistributeYieldsCnf | src/formula.py:95-114 | on a formula in negation normal form the result is in CNF |
| Formulas.DistributeOrYieldsCnf | src/formula.py:96-108 | the OR case on a formula in negation normal form yields CNF |
| Formulas.ToCnfCorrect | src/formula.py:116-120 | `to_cnf` yields CNF with the same atoms, the same constants and the same truth value under every assignment |
| Formulas.EliminateIffIdentity | src/formula.py:43-57 | an IFF-free formula is returned unchanged |
| Formulas.EliminateImpliesIdentity | src/formula.py:59-71 | an IMPLIES-free formula is returned unchanged |
| Formulas.PushNotInwardsIdentity | src/formula.py:73-93 | a formula in negation normal form is returned unchanged |
| Formulas.DistributeIdentity | src/formula.py:95-114 | a formula in CNF is returned unchanged |
| Formulas.CnfHasNoIffNoImplies | src/formula.py:116-120 | CNF contains neither IFF nor IMPLIES |
| Formulas.ToCnfIdempotent | src/formula.py:116-120 | a formula in CNF is its own `to_cnf`, so `to_cnf` is idempotent |
| Knowledge.Kb.constructor | src/knowledgebase.py:2-3 | a new knowledge base holds no formulas |
| Knowledge.Kb.Add | src/knowledgebase.py:5-6 | `add` appends the formula at the end and keeps the earlier ones in place |
| Knowledge.Kb.GetFormulas | src/knowledgebase.py:17-18 | `get_formulas` returns the formulas in insertion order |
| Knowledge.Kb.ToCnf | src/knowledgebase.py:8-9 | position i of `to_cnf` is a CNF of formula i with its atoms, its constants and its truth value |
| Knowledge.Kb.AtomsPerFormula | src/knowledgebase.py:20-21 | per formula, its atoms ascending and each once |
| Knowledge.Lines | src/knowledgebase.py:11-12 | one printed form per formula, in order |
| Knowledge.CnfAll | src/knowledgebase.py:8-9 | every formula's CNF is CNF, with the same atoms, constants and truth value |
| Knowledge.AtomsPerFormulaUnique | src/knowledgebase.py:20-21 | the sorted atom lists are the only lists that are strictly ascending and hold exactly each formula's atoms |
| Knowledge.PrintedIsOneLine | src/formula.py:21-38 | a printed formula with well-formed atom names is non-empty and has no line break |
| Knowledge.KbLines | src/knowledgebase.py:11-12 | splitting `str(kb)` into lines gives back one printed formula per line |
| Parser.Precedence | src/parser.py:13-20 | the five operators have levels 0 to 4 and everything else -1, and only non-operators get -1 |
| Parser.PrecedenceChain | src/parser.py:13-20 | `!` binds tighter than `&&`, which binds tighter than `\|\|`, then `=>`, then `<=>` |
| Parser.Associativity | src/parser.py:22-25 | exactly `!` and `=>` are right-associative |
| Parser.IdentLength | src/parser.py:39-42 | the identifier run of the tokenizer's pattern is the longest prefix of identifier characters |
| Parser.TokenizeYieldsTokens | src/parser.py:39-42 | every token found is an operator, a parenthesis, a constant or an identifier |
| Parser.PopOperators | src/parser.py:51-57 | the operator loop pops a top segment of the stack onto the output (top first) and stops at a parenthesis or at an operator the new token does not yield to |
| Parser.PopToParen | src/parser.py:61-63 | the `)` loop pops everything above the nearest `(` onto the output, or empties the stack if there is none |
| Parser.Step | src/parser.py:49-68 | one token of the main loop fails exactly at a `)` with no `(` on the stack; an operand goes straight to the output |
| Parser.Drain | src/parser.py:70-73 | the final loop fails iff a parenthesis is left on the stack, and otherwise appends the stack top first |
| Parser.MakeBinary | src/parser.py:91-97 | each binary operator builds the node of its type with the lower stack entry as left child |
| Parser.BuildStep | src/parser.py:80-104 | `!` without an operand, or a binary operator with fewer than two, fails with a missing-operand error; otherwise the stack is rewritten as the source does |
| Parser.Finish | src/parser.py:106-109 | the build succeeds iff exactly one tree is left, which is the result |
| Parser.ParseOutput | src/parser.py:77-109 | the operand-stack loop computes the postfix reading `BuildFormula` |
| Parser.MoveOperators | src/parser.py:51-57 | the loop computes `PopOperators` |
| Parser.MoveToParen | src/parser.py:61-63 | the loop computes `PopToParen` |
| Parser.DrainStack | src/parser.py:70-73 | the loop computes `Drain` |
| Parser.ParseFormula | src/parser.py:44-75 | `parse_formula` computes the specification `Parse`: tokenize, shunting-yard, build |
| Parser.NonBlankLines | src/parser.py:29-31 | the kept lines are non-empty and no more than the input lines |
| Parser.ParseAllOk | src/parser.py:29-32 | reading succeeds iff every line parses, and then formula k is the parse of line k |
| Parser.ParseAllFirstError | src/parser.py:29-32 | a failed read reports the error of the first line that does not parse |
| Parser.KeptLines | src/parser.py:29-31 | stripped non-blank lines all survive the blank-line filter |
| Parser.ParsedLines | src/parser.py:29-32 | lines that parse one by one are read back as exactly those formulas, in order |
| Parser.ReadLine | src/parser.py:29-32 | reading line i advances the specification: a blank line is skipped, a failing line ends the read with its error, a parsing line contributes its formula |
| Parser.ParseKbFromString | src/parser.py:27-33 | `parse_kb_from_string` returns a fresh knowledge base holding `ParseKb(s)`, or its error |
| Parser.ReadLines | src/parser.py:29-33 | the loop adds one formula per non-blank line in line order, or stops with the first error |
| PrintParse.OpToken | src/formula.py:30-37 | the operator a binary node is printed with is parsed back into the same node |
| PrintParse.TokenizeIdent | src/parser.py:39-42 | an identifier followed by a non-identifier character is one token |
| PrintParse.TokenizePrinted | src/parser.py:39-42 | the printed form of a formula with identifier atom names tokenizes to the formula's token list, whatever non-identifier text follows |
| PrintParse.StepNot | src/parser.py:50-58 | `!` binds tightest and right-associates, so it never moves an operator off the stack |
| PrintParse.StepClose | src/parser.py:61-66 | `)` moves what lies above the nearest `(` to the output and drops the `(` |
| PrintParse.StepBinary | src/parser.py:50-58 | a binary operator just after `(` moves at most a pending `!` to the output and is pushed |
| PrintParse.ShuntPrinted | src/parser.py:49-68 | the shunting yard on a printed formula's tokens emits its postfix form except for a pending `!`, whatever the stack held |
| PrintParse.BuildPostfix | src/parser.py:77-104 | building from a formula's postfix form pushes exactly that formula |
| PrintParse.TokenizeWhole | src/parser.py:39-42 | a printed formula tokenizes to its token list |
| PrintParse.PostfixOfTokens | src/parser.py:44-75 | the token list of a printed formula converts to its postfix form without error |
| PrintParse.BuildWhole | src/parser.py:77-109 | the postfix form builds back the formula |
| PrintParse.ParsePrinted | src/parser.py:44-75 | `parse_formula(str(f))` is `f` when every atom name is an identifier |
| PrintParse.PrintedEnds | src/formula.py:21-38 | a printed formula is non-empty and neither starts nor ends with whitespace, so `strip` keeps it |
| PrintParse.ParseAllPrinted | src/parser.py:29-32 | the printed lines of a list of formulas are all kept and read back as the same list |
| PrintParse.ParseKbPrinted | src/parser.py:27-33 | reading `str(kb)` gives back the knowledge base's formulas in order |
| Text.StrLessIrreflexive | main.py:136 | Python's string order (`<` on `str`) never puts a string before itself |
| Text.StrLessAsymmetric | main.py:136 | the string order is asymmetric |
| Text.StrLessTransitive | main.py:136 | the string order is transitive |
| Text.StrLessTotal | main.py:136 | any two different strings are ordered one way or the other |
| Text.HasLeast | src/knowledgebase.py:21 | a non-empty set of strings has a least element, so `sorted` of a set is well defined |
| Text.SortedSet | src/knowledgebase.py:21 | `sorted(set)` is strictly ascending and lists exactly the set's elements, each once |
| Text.StrictlySortedUnique | src/knowledgebase.py:21 | two strictly ascending lists with the same elements are equal, so the sorted list is determined |
| Text.NamePart | main.py:137 | `x.split(":")[0]` is the longest prefix of `x` without a colon |
| Text.NamePartBefore | main.py:137 | the key of `name:kind` is `name` when the name has no colon |
| Text.InsertByKeepsOrder | main.py:136-137 | inserting into a list sorted by key keeps it sorted by key |
| Text.SortBy | main.py:136-137 | `list.sort(key=...)` yields a list ascending by key that is a permutation of the input |
| Text.InsertByStable | main.py:137 | an inserted element goes after every element with the same key |
| Text.SortByStable | main.py:137 | the sort is stable: the elements of each key keep their input order |
| Text.SplitLines | src/parser.py:29 | `splitlines()` yields pieces without line breaks, none for the empty text |
| Text.SplitLinesJoin | src/knowledgebase.py:11-12 | splitting `"\n".join(xs)` gives back `xs` when no element is empty or holds a break |
| Text.Strip | src/parser.py:29-30 | `strip()` leaves no whitespace at either end and leaves trimmed text unchanged |
| Text.StripTrims | src/parser.py:29-30 | what `strip()` removes is whitespace, and only from the two ends |
| Text.NatToString | main.py:133 | `str(n)` is a non-empty run of digits without a leading zero |
| Text.NatToStringInjective | main.py:133 | different numbers are written differently |
| Text.NumberThenText | src/solver_ASP.py:29-43 | a number followed by text that does not start with a digit is read back uniquely: the number and the rest are determined |
| Clauses.KindNameInjective | src/solver_max_SAT_naive.py:35-37 | the kind letters `t`, `f`, `b` are distinct |
| Clauses.Wcnf.AddHard | src/solver_max_SAT_naive.py:40 | appending without a weight adds a hard clause and leaves the soft part alone |
| Clauses.Wcnf.AddWeighted | src/MaxSAT/solver.py:81-82 | appending with a non-zero weight adds a soft clause and its weight and leaves the hard part alone; a zero weight adds a hard clause instead, as pysat's `append` does |
| Clauses.ExactlyOneMeaning | src/solver_max_SAT_naive.py:39-49 | the four clauses of an atom hold exactly when one of its t/f/b variables is true |
| Clauses.AtomBlocksAt | src/solver_max_SAT_naive.py:34-49 | atom j of the visiting order owns hard clauses 4j to 4j+3, its exactly-one block |
| Clauses.RescuedHolds | src/solver_max_SAT_naive.py:63-68 | a clause extended by `both` ids still needs its own literals when none of those atoms is `both` |
| Clauses.IncForces | src/solver_max_SAT_naive.py:58-61 | a hard clause `[finc, -b]` with `b` true forces `finc`, violating the soft clause `[-finc]` |
| Clauses.IncClausesAt | src/solver_max_SAT_naive.py:59-61 | clause k of a formula's increment block is `[finc, -b]` for the k-th visited atom |
| Clauses.ListsCard | src/solver_max_SAT_naive.py:34 | a loop over a set visits as many elements as the set has |
| NaiveEncoder.ExtractAllMeaning | src/solver_max_SAT_naive.py:52-68 | the formulas extract together exactly when each one extracts, and then position by position |
| NaiveEncoder.ExtractAllFirstError | src/solver_max_SAT_naive.py:52-68 | the first failing formula decides the error |
| NaiveEncoder.ClauseLiteralsCorrect | src/solver_max_SAT_naive.py:94-103 | literal extraction succeeds iff the formula is a clause without constants, and then names exactly its atoms |
| NaiveEncoder.ExtractSpecCorrect | src/solver_max_SAT_naive.py:81-91 | on CNF, clause extraction fails iff a TRUE or FALSE leaf is present; otherwise the clauses name exactly the formula's atoms |
| NaiveEncoder.EncodableIffNoConstant | src/solver_max_SAT_naive.py:81-103 | the CNF of a formula can be encoded iff the formula has no TRUE or FALSE leaf |
| NaiveEncoder.AtomsNamedByMapped | src/solver_max_SAT_naive.py:106-113 | with distinct ids, `get_atoms_from_clause` of an encoded clause gives exactly the atoms of its literals |
| NaiveEncoder.Encoder.constructor | src/solver_max_SAT_naive.py:10-19 | a new encoder holds the knowledge base's CNFs and atom sets, an empty variable map and a counter at 1 |
| NaiveEncoder.Encoder.NewVar | src/solver_max_SAT_naive.py:21-22 | `new_var` returns the counter and advances it by one, above every id in the map |
| NaiveEncoder.Encoder.GetVar | src/solver_max_SAT_naive.py:24-28 | `get_var` is memoised: a known key keeps its id, a new key takes the next id |
| NaiveEncoder.Encoder.ExtractClauseLiterals | src/solver_max_SAT_naive.py:94-103 | the ids of a clause's literals (t for an atom, f for a negated atom), or the unknown-structure error, as the specification says |
| NaiveEncoder.Encoder.ExtractClauses | src/solver_max_SAT_naive.py:81-91 | AND splits into clauses, anything else is one clause; the result matches the specification |
| NaiveEncoder.MapClausesJoin | src/solver_max_SAT_naive.py:86 | the clauses of the left conjunct keep their ids while the right conjunct adds new atoms, so the two clause lists join into the mapping of the whole |
| NaiveEncoder.Encoder.GetAtomsFromClause | src/solver_max_SAT_naive.py:106-113 | the atoms whose t or f id occurs, up to sign, in the clause |
| NaiveEncoder.Encoder.Encode | src/solver_max_SAT_naive.py:30-78 | on a fresh encoder: the exactly-one blocks of all atoms, then per formula its increment clauses, its rescued CNF clauses and `[-finc_i]` of weight 1; fails iff some CNF cannot be extracted, with the first error |
| NaiveEncoder.Encoder.EncodeAtoms | src/solver_max_SAT_naive.py:33-49 | one exactly-one block per atom of the knowledge base, ids `3j+1..3j+3` for the j-th visited atom |
| NaiveEncoder.Encoder.EncodeFormulas | src/solver_max_SAT_naive.py:52-71 | the formula loop appends one block and one soft clause per formula, or stops with the first error |
| NaiveEncoder.Encoder.EncodeFormula | src/solver_max_SAT_naive.py:53-71 | one formula: a fresh `finc`, its increment clauses, its rescued clauses and its soft clause |
| NaiveEncoder.Encoder.IncBlock | src/solver_max_SAT_naive.py:59-61 | `[finc, -a_both]` for each atom of the formula, in set order |
| NaiveEncoder.Encoder.RescueClauses | src/solver_max_SAT_naive.py:65-68 | each CNF clause extended by the `both` ids of the atoms it names |
| NaiveProperties.EncodableIffNoConstants | src/solver_max_SAT_naive.py:52-68 | a knowledge base can be encoded iff none of its formulas has a TRUE or FALSE leaf |
| NaiveProperties.ClauseCounts | src/solver_max_SAT_naive.py:30-71 | four hard clauses per atom, then per formula one per atom and one per CNF clause; one soft clause of weight 1 per formula |
| NaiveProperties.OneValuePerAtom | src/solver_max_SAT_naive.py:39-49 | in every model of the hard clauses, each atom takes exactly one of its three values |
| NaiveProperties.BothMakesInconsistent | src/solver_max_SAT_naive.py:58-61 | in every model of the hard clauses, a `both` atom of formula i makes `finc_i` true and violates its soft clause |
| NaiveProperties.RescuedClause | src/solver_max_SAT_naive.py:63-68 | clause j of formula i appears in the hard part as its ids followed by the `both` id of each of its atoms |
| NaiveProperties.ClauseHoldsUnlessBoth | src/solver_max_SAT_naive.py:63-68 | in every model of the hard clauses, a CNF clause none of whose atoms is `both` holds on its own t/f ids |
| TseitinEncoder.InstClauses | src/solver_max_SAT_Tseitin.py:68-72 | the transform's clauses, instantiated with the `a_true` map and the first fresh id, keep their number and each clause its length |
| TseitinEncoder.SymClause | src/solver_max_SAT_Tseitin.py:83-97 | a remapped clause has one literal per transform literal |
| TseitinEncoder.TBlock | src/solver_max_SAT_Tseitin.py:62-101 | a formula's hard block has one clause per atom, the top clause and one clause per transform clause |
| TseitinEncoder.FincIds | src/solver_max_SAT_Tseitin.py:57-58 | `formula_vars` holds one id per encoded formula |
| TseitinEncoder.SymAtomsNamed | src/solver_max_SAT_Tseitin.py:99 | `get_atoms_from_clause_ids` of a remapped clause gives exactly the atoms the transform wrote into it, since auxiliary ids lie above every atom id |
| TseitinEncoder.TopAtomsNamed | src/solver_max_SAT_Tseitin.py:76 | for a formula without transform clauses, the top literal names its atom if it is one and nothing otherwise |
| TseitinEncoder.InstAgrees | src/solver_max_SAT_Tseitin.py:54-72 | the literals written through `atom_true_varmap` are the `a_true` ids of the encoder's own map |
| TseitinEncoder.VisitKept | src/solver_max_SAT_Tseitin.py:77-100 | the comprehension that extends a clause keeps exactly the atoms that belong to the formula |
| TseitinEncoder.Encoder.constructor | src/solver_max_SAT_Tseitin.py:9-18 | a new encoder holds the formulas and their atom sets, an empty variable map, no formula ids and a pool at 1 |
| TseitinEncoder.Encoder.NewVar | src/solver_max_SAT_Tseitin.py:20-21 | `new_var` draws the pool's next id, above every id in the map, and changes nothing else |
| TseitinEncoder.Encoder.GetVar | src/solver_max_SAT_Tseitin.py:23-27 | `get_var` is memoised: a known key keeps its id and the pool is untouched, a new key takes the pool's next id |
| TseitinEncoder.Encoder.GetAtomsFromClauseIds | src/solver_max_SAT_Tseitin.py:29-37 | the result is the set of atoms one of whose three ids occurs, up to sign, in the clause |
| TseitinEncoder.Encoder.TripleOf | src/solver_max_SAT_Tseitin.py:45-47 | a new atom takes the pool's next three ids for `t`, `f` and `b` |
| TseitinEncoder.Encoder.EncodeAtoms | src/solver_max_SAT_Tseitin.py:42-52 | every atom of the knowledge base gets three consecutive ids from 1 on and its four exactly-one clauses, in the order of the loop |
| TseitinEncoder.Encoder.IncBlock | src/solver_max_SAT_Tseitin.py:62-65 | one clause `[finc, -a_both]` per atom of the formula, in the order of the loop, without drawing ids |
| TseitinEncoder.Encoder.BothIdsIn | src/solver_max_SAT_Tseitin.py:77-100 | the `both` ids of the clause's atoms that belong to the formula |
| TseitinEncoder.Encoder.Transform | src/solver_max_SAT_Tseitin.py:67-72 | the transform draws its auxiliaries from the shared pool, right after `finc`, and writes atoms by their `a_true` ids |
| TseitinEncoder.Encoder.RemapLit | src/solver_max_SAT_Tseitin.py:83-97 | an `a_true` literal becomes `a_true` when positive and `a_false` when negative; any other literal is kept |
| TseitinEncoder.Encoder.RemapClause | src/solver_max_SAT_Tseitin.py:81-97 | a transform clause is remapped literal by literal |
| TseitinEncoder.Encoder.RescueClauses | src/solver_max_SAT_Tseitin.py:81-101 | each remapped clause is followed by the `both` ids of the formula's atoms it names |
| TseitinEncoder.Encoder.EncodeBody | src/solver_max_SAT_Tseitin.py:74-101 | without transform clauses the top literal is extended by its atom's `both` id; otherwise `[top]` and the rescued clauses follow |
| TseitinEncoder.Encoder.EncodeFormula | src/solver_max_SAT_Tseitin.py:56-103 | one formula adds its `finc` to `formula_vars`, its hard block, and the soft clause `[-finc]` of weight 1 |
| TseitinEncoder.Encoder.EncodeNext | src/solver_max_SAT_Tseitin.py:56-103 | one turn of the formula loop keeps the encoding invariant for one more formula |
| TseitinEncoder.Encoder.EncodeFormulas | src/solver_max_SAT_Tseitin.py:56-103 | after the loop, every formula has its block and soft clause, and the pool has moved past all auxiliaries |
| TseitinEncoder.Encoder.Encode | src/solver_max_SAT_Tseitin.py:39-110 | the whole encoding: the atom blocks, then per formula its block and soft clause, with the id layout of the shared pool |
| TseitinProperties.IdLayout | src/solver_max_SAT_Tseitin.py:57-72 | each formula's `finc` and auxiliaries lie above the `3n` atom ids and below the next formula's `finc` |
| TseitinProperties.IdsDistinct | src/solver_max_SAT_Tseitin.py:57-72 | no id of the formula part is drawn twice |
| TseitinProperties.SoftAt | src/solver_max_SAT_Tseitin.py:103 | formula i's soft clause is `[-finc_i]` with weight 1 |
| TseitinProperties.BlockSizes | src/solver_max_SAT_Tseitin.py:62-101 | one block size per formula |
| TseitinProperties.ClauseCounts | src/solver_max_SAT_Tseitin.py:39-103 | four hard clauses per atom plus the formula blocks; one soft clause per formula |
| TseitinProperties.InHard | src/solver_max_SAT_Tseitin.py:65-101 | every clause of a formula block is a hard clause |
| TseitinProperties.TopClause | src/solver_max_SAT_Tseitin.py:74-80 | the top literal is a unit hard clause when the transform emits clauses, and is extended by its atom's `both` id otherwise |
| TseitinProperties.RemappedClause | src/solver_max_SAT_Tseitin.py:81-101 | each transform clause appears, remapped and extended by the `both` ids of exactly its atoms, among the hard clauses |
| TseitinProperties.NegativeOnlyAux | src/solver_max_SAT_Tseitin.py:83-97 | after remapping, a literal is negative exactly when it is a negated auxiliary |
| TseitinProperties.OneValuePerAtom | src/solver_max_SAT_Tseitin.py:49-52 | in every model of the hard clauses an atom takes exactly one of its three values |
| TseitinProperties.IncAt | src/solver_max_SAT_Tseitin.py:63-65 | for an atom a of formula i there is a position k, the one a holds in the formula's atom order, where formula i's block holds `[finc_i, -a_both]` |
| TseitinProperties.IncInHard | src/solver_max_SAT_Tseitin.py:63-65 | for every atom a of formula i, `[finc_i, -a_both]` is a hard clause |
| TseitinProperties.BothMakesInconsistent | src/solver_max_SAT_Tseitin.py:63-103 | in every model of the hard clauses, an atom of formula i valued `both` forces `finc_i` and violates its soft clause |
| TseitinProperties.ClauseHoldsUnlessBoth | src/solver_max_SAT_Tseitin.py:99-101 | in every model of the hard clauses, a transform clause none of whose atoms is `both` is satisfied by its remapped literals |
| DynamicEncoder.CollectAtoms | src/MaxSAT/solver.py:10-16 | the atoms are the absolute values of all literals, and `formula_atoms[i]` is exactly entry i's atom set, for every index and no other |
| DynamicEncoder.IterationOrder | src/MaxSAT/solver.py:20 | iterating a set visits each member exactly once |
| DynamicEncoder.AtomMapping | src/MaxSAT/solver.py:19-20 | the k-th atom of the iteration order maps to `(k+1, k+n+1, k+2n+1)`, and only those atoms are mapped |
| DynamicEncoder.AddAtomClauses | src/MaxSAT/solver.py:23-27 | four exactly-one clauses per atom, in the mapping's order |
| DynamicEncoder.AddIncClauses | src/MaxSAT/solver.py:36-38 | one clause `[finc, -a_both]` per atom of an entry, in the order the set is visited |
| DynamicEncoder.AddAllIncClauses | src/MaxSAT/solver.py:29-38 | per entry, in index order, its atoms' `[finc_i, -a_both]` clauses with `finc_i = 3n+1+i` |
| DynamicEncoder.EntryLiterals | src/MaxSAT/solver.py:42-50 | each literal becomes its `a_true` id when positive and `a_false` id otherwise, followed by its `a_both` id |
| DynamicEncoder.AddEntryClauses | src/MaxSAT/solver.py:41-50 | one hard clause per entry, in entry order |
| DynamicEncoder.SoftClauses | src/MaxSAT/solver.py:52-54 | one soft clause `([-finc_i], 1)` per entry, in index order |
| DynamicEncoder.GenerateDynamicClauses | src/MaxSAT/solver.py:4-56 | the hard clauses are the atom blocks, then the `finc` clauses, then the entry clauses; the soft clauses are `([-finc_i], 1)` |
| DynamicSolve.SolveMaxSatInput | src/MaxSAT/solver.py:58-86 | an unknown solver name is an error with the source's message; otherwise the given hard clauses, then the given pairs of weight 0 as hard clauses and the others as soft clauses with their weights, and the knowledge base as hard clauses only when neither list is given, with the engine's code |
| DynamicSolve.WeightSplit | src/MaxSAT/solver.py:80-82 | every given pair goes to exactly one part, the soft part keeps only non-zero weights, and pairs that all have non-zero weights all stay soft in their order |
| DynamicProperties.AtomIdsDistinct | src/MaxSAT/solver.py:19-20 | the `3n` atom ids are distinct and lie in `1..3n` |
| DynamicProperties.FincIdsAboveAtoms | src/MaxSAT/solver.py:30-31 | the inconsistency ids are distinct and above every atom id |
| DynamicProperties.AtomHardAt | src/MaxSAT/solver.py:23-27 | clauses `4j..4j+3` are the exactly-one clauses of atom j |
| DynamicProperties.IncAllContains | src/MaxSAT/solver.py:34-38 | every atom of entry i contributes `[finc_i, -a_both]` |
| DynamicProperties.IncAllLength | src/MaxSAT/solver.py:34-38 | the `finc` part has one clause per atom of each entry |
| DynamicProperties.EntryClauseAt | src/MaxSAT/solver.py:43-49 | literal j of an entry becomes positions 2j and 2j+1 of its clause |
| DynamicProperties.EntryClausesAt | src/MaxSAT/solver.py:41-50 | clause i of the entry part is entry i's clause |
| DynamicProperties.EntrySizes | src/MaxSAT/solver.py:10-16 | one atom count per entry |
| DynamicProperties.IncPartLength | src/MaxSAT/solver.py:34-38 | the `finc` part has as many clauses as the entries have atoms together |
| DynamicProperties.ClauseCounts | src/MaxSAT/solver.py:4-56 | four hard clauses per atom, one per atom of each entry, one per entry; one soft clause per entry |
| DynamicProperties.SoftClausesInOrder | src/MaxSAT/solver.py:52-54 | soft clause i is `([-finc_i], 1)` |
| DynamicProperties.OneValuePerAtom | src/MaxSAT/solver.py:23-27 | in every model of the hard clauses an atom takes exactly one of its three values |
| DynamicProperties.BothMakesInconsistent | src/MaxSAT/solver.py:34-54 | in every model of the hard clauses, an atom of entry i valued `both` forces `finc_i` and violates its soft clause |
| DynamicProperties.MappingPositive | src/MaxSAT/solver.py:20 | every id of the mapping is positive |
| DynamicProperties.EntryInHard | src/MaxSAT/solver.py:50 | every entry's clause is a hard clause |
| DynamicProperties.EntryClauseHolds | src/MaxSAT/solver.py:43-50 | a true entry clause none of whose atoms is `both` holds by an `a_true` id of a positive literal or an `a_false` id of a negative one |
| DynamicProperties.ClauseHoldsUnlessBoth | src/MaxSAT/solver.py:41-50 | in every model of the hard clauses, an entry none of whose atoms is `both` is satisfied by one of its literals' own ids |
| DynamicProperties.SolverNamesAccepted | src/MaxSAT/solver.py:60-70 | `solver_map` accepts exactly its six names |
| DynamicProperties.KbOnlyWithoutClauseLists | src/MaxSAT/solver.py:74-86 | the knowledge base becomes the hard clauses exactly when neither list is given; pairs of weight 0 join the hard clauses; with all weights non-zero the soft part is exactly the given pairs |
| AspProgram.MinOf | src/solver_ASP.py:17 | the least element of a non-empty set of atoms |
| AspProgram.SortedNats | src/solver_ASP.py:17 | `sorted(list(atome))` is ascending and holds exactly the set's elements, each once |
| AspProgram.RenderAll | src/solver_ASP.py:29-43 | one line per fact, each the fact's own text |
| AspProgram.CollectAtoms | src/solver_ASP.py:9-13 | the collected atoms are the absolute values of the knowledge base's literals |
| AspProgram.AddLiteralRules | src/solver_ASP.py:35-42 | the facts of a clause's literals are appended in order |
| AspProgram.AddClauseRules | src/solver_ASP.py:32-42 | the facts of a formula's clauses are appended in order |
| AspProgram.KbRules | src/solver_ASP.py:29-43 | the facts of every formula, clause and literal, in input order, with the formula counter as the formula's index |
| AspProgram.AddAtomDecls | src/solver_ASP.py:17-18 | one `atom(a).` line per atom, in the order given |
| AspProgram.GenerateAspCode | src/solver_ASP.py:3-80 | the generated program is the declarations, the fixed rule blocks and the fact block, in the source's order |
| AspProperties.FormulaAtomsMeaning | src/solver_ASP.py:10-13 | an atom is collected from a formula iff one of its literals has that atom |
| AspProperties.KbAtomsMeaning | src/solver_ASP.py:9-13 | an atom is collected iff some literal of some clause of some formula has it |
| AspProperties.DeclaredAtoms | src/solver_ASP.py:15-19 | the declarations name every atom of the knowledge base and no other, ascending, each once |
| AspProperties.LiteralsFactsShape | src/solver_ASP.py:35-42 | a clause's literal facts are `in_klausel` facts of that clause or `neg_atom` facts |
| AspProperties.LiteralsFactsMeaning | src/solver_ASP.py:35-42 | a clause states `in_klausel` for a literal iff it holds it, and `neg_atom(a, neg_a)` iff it holds `-a` |
| AspProperties.ClausesFactsShape | src/solver_ASP.py:32-42 | a formula's clause facts belong to that formula and its clauses |
| AspProperties.ClausesKlauselCount | src/solver_ASP.py:32-34 | each clause of a formula gets exactly one `klausel` fact |
| AspProperties.ClausesInKlausel | src/solver_ASP.py:32-42 | `in_klausel` facts of a formula are exactly its clauses' literals |
| AspProperties.ClausesNegAtom | src/solver_ASP.py:37-40 | a formula states `neg_atom(a, neg_a)` iff one of its clauses holds `-a` |
| AspProperties.KbFactsPrefix | src/solver_ASP.py:29-43 | the facts of the first m formulas come first |
| AspProperties.FormulaFactOnce | src/solver_ASP.py:30-43 | formula n gets exactly one `formula` fact, and only formulas of the knowledge base get one |
| AspProperties.KlauselFactOnce | src/solver_ASP.py:32-34 | clause i of formula n gets exactly one `klausel` fact, and no other pair gets one |
| AspProperties.InKlauselMeaning | src/solver_ASP.py:35-42 | `in_klausel(f<n>, k<i>, a)` is stated iff clause i of formula n holds `a`, and with `neg_a` iff it holds `-a` |
| AspProperties.NegAtomMeaning | src/solver_ASP.py:37-39 | `neg_atom(a, neg_a)` is stated iff some clause holds `-a` |
| AspProperties.FactsDescribeKb | src/solver_ASP.py:29-43 | reading the facts back gives the knowledge base they came from |
| AspProperties.RenderInjective | src/solver_ASP.py:31-42 | different facts are written as different lines |
| AspProperties.RenderIsLine | src/solver_ASP.py:31-44 | each fact is one non-empty line without a line break |
| AspProperties.KbSectionDetermines | src/solver_ASP.py:29-44 | two knowledge bases with the same fact section are the same |
| AnswerSets.ReadAnswerSets | src/solver_ASP.py:108-123 | the reading loop over the first answer set gives the specification's result |
| AnswerSets.ErrStays | src/solver_ASP.py:114-116 | once a `both` atom without a number is read, the reading fails with that atom |
| AnswerSets.SolveAsp | src/solver_ASP.py:99-123 | `solve_asp` generates the program and reads the answer sets returned for it |
| AnswerSets.ReadSymbolsFails | src/solver_ASP.py:115-116 | the reading fails iff some `both` atom's argument is not a number, and then with the first such atom |
| AnswerSets.ReadSymbolsCounts | src/solver_ASP.py:114-118 | a successful reading counts every `f_inconsistent` atom and keeps one number per `both` atom |
| AnswerSets.ReadSymbolsBoth | src/solver_ASP.py:115-116 | the collected numbers are exactly the arguments of the `both` atoms |
| AnswerSets.FirstSetOnly | src/solver_ASP.py:111-121 | no answer set means no solution, and only the first answer set is read |
| Interpretation.Reverse | main.py:113 | every id of the inverted map leads back to a key of the variable map with that id |
| Interpretation.ReverseOfListed | main.py:113 | over keys without repetition and an injective map, the inverse has exactly the visited keys' ids and finds each key again |
| Interpretation.ReverseKeys | main.py:113 | the inverse holds exactly the ids of the visited keys |
| Interpretation.ReverseFinds | main.py:113 | over keys without repetition and an injective map, each key's id is in the inverse and leads back to that key |
| Interpretation.ReverseInverts | main.py:113 | `reverse_varmap` is the exact inverse of `atom_vars`, whatever the dictionary's order, because the encoders give each key its own id |
| Interpretation.ValueEntryKey | main.py:126-137 | the sort key of an `atom:kind` entry is the atom's name |
| Interpretation.ValueEntryInjective | main.py:126 | for atom names without a colon, different `(atom, kind)` keys give different `atom:kind` entries, because the kind letters differ |
| Interpretation.CollectAtomValues | main.py:123-126 | the loop over the model builds the specification's list of `atom:kind` entries |
| Interpretation.AtomValuesMeaning | main.py:123-126 | an entry is listed iff some positive literal of the model is an id of the inverse map and names it |
| Interpretation.AtomValuesOfEncoder | main.py:113-126 | `atom:kind` is reported iff the id of `(atom, kind)` is true in the model |
| Interpretation.FormulaIdInjective | main.py:133 | the names `F{i}` of distinct formulas are distinct |
| Interpretation.CollectInconsistent | main.py:128-133 | the loop over the soft clauses builds the specification's list of violated formulas |
| Interpretation.ViolatedUpToMeaning | main.py:128-133 | among the first n soft clauses, `F{i}` is listed iff clause i is violated |
| Interpretation.InconsistentMeaning | main.py:128-133 | `F{i}` is reported iff soft clause i has a weight and no literal of it holds, and only such names are reported |
| Interpretation.FincReported | main.py:128-133 | for the encoders' soft clauses `[-finc_i]`, formula i is reported iff `finc_i` is true in the model |
| Interpretation.ReadMaxSatModel | main.py:113-139 | without a model there is no report; otherwise the cost, the model, the violated formulas sorted as strings, the atom values sorted by atom name, and the number of hard clauses |
| Interpretation.FormulaIdOrder | main.py:136 | sorting the names `F{i}` as strings orders them by the decimal text of i, so `F10` comes before `F2` |
| Interpretation.Upper | main.py:90 | upper-casing keeps the length |
| Interpretation.UpperFormulaName | main.py:90 | the answer-set path names formula `f{i}` as `F{i}`, as the weighted-clause paths do |
| Interpretation.ModelCollector.constructor | main.py:75-77 | the callback starts with no cost and no model seen |
| Interpretation.ModelCollector.OnModel | main.py:79-94 | after each model the fields are those of the models seen so far, folded as `on_model` does |
| Interpretation.ModelCollector.Report | main.py:99-102 | the cost, the inconsistent formulas sorted as strings and the atom values sorted stably by atom name |
| Interpretation.CostRecorded | main.py:82-94 | a cost is recorded iff some model has been seen |
| Interpretation.CostIsLowest | main.py:82-85 | the recorded cost is at most the first cost of every model seen |
| Interpretation.KeepsFirstBest | main.py:79-94 | the kept lists are those of the first model of lowest cost, unless the first model came without a cost |
| Interpretation.FirstLeastCost | main.py:79-94 | with every model costed, the kept model is the first one of least cost |
| Interpretation.ShownInconsistentMeaning | main.py:89-90 | an entry is kept iff a shown atom is `f_inconsistent` with one argument, upper-cased |
| Interpretation.ShownValuesMeaning | main.py:91-92 | an entry is kept iff a shown atom is `val` with two arguments, written `arg0:arg1` |

## Left out

- The MaxSAT engine (RC2 in `main.py` and `src/MaxSAT/solver.py:88-99`) and the answer-set engine (clingo in `src/solver_ASP.py:83-97` and `main.py:71-73,96-97`) are external searches. Their answers are inputs: the model and the cost in `Interpretation.ReadMaxSatModel`, the answer sets in `AnswerSets.SolveAsp`, and each model in `Interpretation.ModelCollector.OnModel`. The exception handlers around them are not modelled.
- `DynamicSolve.SolveMaxSatInput` stops where the engine is called. It returns the clause set and the engine's code, not the engine's result.
- Timing (`perf_counter`, `time`, the elapsed times the encoders return) is left out, and so is `format_time`.
- The `print` calls (`src/solver_ASP.py:121`, `src/MaxSAT/solver.py:98`, `main.py`) write only to the console.
- File access is left out: `Parser.parse_kb_from_file` (`src/parser.py:35-37`), the commented-out write in `solve_asp`, and reading the input files.
- The benchmark driver of `main.py` is left out: `TIMEOUT` and the process wrapper with its timeout (14-40), the CSV logging (42-57), and the `__main__` loop (178-289). It drives the core but is not part of it.
- `asp_encode_and_solve` parses, encodes and grounds at `main.py:62-73` through an `ASPEncoder` that the repository does not define. That part is left out.
- `Formula.__repr__`, `Kb.__repr__` and `Parser.is_ignore_token` are left out. They are debugging forms, or unused by the core.
- The `is_*` tests of `src/formula.py:134-156` are the datatype's discriminators (`f.Atom?`, `f.Not?`, and so on).
- `get_name` (`src/formula.py:158-161`) is not called by the core, so it is not modelled.
- The Tseitin encoder's `extract_clauses`, `extract_clause_literals` and `get_atoms_from_clause` (`src/solver_max_SAT_Tseitin.py:112-139`) are never called by its `encode`, so they are not modelled.
- The naive encoder's copies of those three methods are modelled.
- The Tseitin transform itself is an input, as explained under "Notes on the source". The model holds only the result's shape (`TseitinEncoder.Fits`): the transform writes the formula's atoms through `atom_true_varmap` and numbers its own auxiliaries from the shared pool.
- `NaiveEncoder.Encoder.Encode`: its contract is stated for a fresh encoder (empty map, pool at 1), which is how `main.py` uses it. A second `encode` call on the same object is not described.
- `TseitinEncoder.Encoder.Encode`: its contract is stated for a fresh encoder, for the same reason.
- Set iteration order is unspecified in Python. The encoders' loops over sets are modelled with a chosen order, which the ghost outputs expose; the contracts hold for every order.
- Dictionary iteration order is a parameter (`keys` of `Interpretation.Reverse`).
- Clingo terms are modelled as numbers and constants only (`AnswerSets.Term`). Strings, compound terms and their printed forms are left out.
- `Interpretation.Upper`: upper-cases only the ASCII letters `a`-`z`, which covers the formula names the program uses (`f0`, `f1`, …). Python's full Unicode case mapping is not modelled.
- `AnswerSets.ReadAnswerSets`: `symbol.arguments[0].number` raises on a `both` atom whose argument is not a number. This is modelled as the error value `Err(symbol)`, not as an exception.
- `Interpretation.ReadMaxSatModel`: when the engine reports no model, `set(model)` raises. This is modelled as a `None` report.
- Integer widths play no part: all ids and counts are unbounded, as in Python.
