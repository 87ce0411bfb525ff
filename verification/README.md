# Prover9.py helpers in Dafny

A Dafny model of the notebook helpers in `Prover9.py`. They sit between a
Jupyter user and the Prover9/Mace4 backend. The model covers:

- the set helpers `union`, `intersection`, `powerset`, `rel2pairs` and
  `eqrel2partition`;
- `poset2model`, which turns a collection of sets or partitions into a
  finite structure with one relation `<=`. As written, a collection of
  numbers raises `TypeError`; the corrected version orders numbers as well
  (see "## Findings");
- the logic of `hasse_diagram`: the raw edge set, the choice between the
  transitive reduction and the raw edges, and node colours;
- the logic of `m4diag` and `show`: splitting and parsing symbol tokens (a
  trailing `d` asks for the dual diagram), highlight flags, the default
  symbols of `show`, and `str.strip`;
- the theory builders over an abstract backend: `compatiblepreorders`,
  `precongruences`, `Con`, `check` and `p9`.

Modules, one per file:

- `Results` (`results.dfy`): `Option`, `Result`, and the exceptions the code
  raises.
- `Structures` (`structures.dfy`): finite structures. Operations and relations
  are association lists, which keep Python's dictionary order.
- `SetUtils` (`setutils.dfy`): the set helpers and equivalence relations.
- `Orders` (`orders.dfy`): `poset2model`.
- `Diagrams` (`diagrams.dfy`): `hasse_diagram`, `m4diag` and `show`.
- `Queries` (`queries.dfy`): the backend-driven helpers.

Parameters stand in for the parts that cannot be seen:

- The backend is a function parameter from a `Query` to what it returns. A
  `Query` holds the positional arguments of a `prover9(...)` call and its
  keyword arguments.
- `A.diagram("")` is a function parameter giving a structure's facts as
  formulas.
- The graph library's transitive reduction is a function parameter. It
  returns a reduced edge set, or `None` where the library raises.

The model follows the code:

- In operation mode, `hasse_diagram` draws `(x,y)` when `op[x][y]` is `x`, or
  `y` when dual. The dual flag changes the tested value, not only the
  orientation.
- `eqrel2partition` opens one block per distinct first coordinate. The result
  does not depend on the order of the pairs (`SetUtils.EqRel2Partition`).
- The sweep of `p9` is bounded by the first entry of the cardinality list,
  whatever that list holds. Slot 0 holds `[]` and slot 1 holds `[1]`.

## Model

| member | source | states |
|---|---|---|
| SetUtils.Union | Prover9.py:63-66 | an element is in `union(X)` exactly when it is in some member of X; an empty X gives the empty set |
| SetUtils.Intersection | Prover9.py:58-61 | the fold as written always yields the empty set |
| SetUtils.IntersectionIntended | Prover9.py:58-61 | the intended intersection: undefined for an empty family, otherwise exactly the elements common to all members |
| SetUtils.IntersectionLosesCommonElement | Prover9.py:58-61 | on `[{x}]` the code returns `{}` where the intended intersection is `{x}` |
| SetUtils.PowersetMembers | Prover9.py:68-72 | a set is in `powerset(X)` exactly when it is a subset of X; the empty set and X are members (`SetUtils.Powerset` itself is stated through this lemma and the next) |
| SetUtils.PowersetCardinality | Prover9.py:68-72 | for a duplicate-free X, `powerset(X)` has `2^len(X)` members |
| SetUtils.Rel2Pairs | Prover9.py:81-83 | `(i,j)` is in the result exactly when both are below `len(rel)` and `rel[i][j]` holds; one pair per true cell |
| SetUtils.EqRel2Partition | Prover9.py:74-79 | the dictionary loop yields one block `{a}` plus the partners of `a` for each distinct first coordinate `a`, whatever the pair order |
| SetUtils.EquivalenceBlocks | Prover9.py:74-79 | for the pairs of an equivalence relation the blocks are exactly its classes; they cover the carrier and are pairwise equal or disjoint |
| Orders.Poset2Model | Prover9.py:115-125 | an empty collection fails; otherwise the cardinality is `len(A)`, there are no operations, and `<=` is the only relation: the table whose cell `[j][i]` says item `i` is below item `j` |
| Orders.Poset2ModelAsWritten | Prover9.py:119-124 | as written, a non-empty collection of numbers raises `TypeError`; sets and sets of sets behave as in the intended version |
| Orders.NumbersAreNotIterable | Prover9.py:119-124 | any non-empty collection of numbers fails as written, while the intended table orders the numbers by `<=` |
| Orders.OrderTableIsPreorder | Prover9.py:122-124 | the `<=` table has an all-true diagonal and is transitive, for subsets, refinement of partitions and numbers |
| Orders.NestedChainOrder | Prover9.py:123 | a strictly nested chain of sets yields the total order of chain positions |
| Structures.Lookup | Prover9.py:51-54 | a name is absent exactly when no entry carries it; a found value is stored under that name |
| Diagrams.RawEdges | Prover9.py:23-26 | `(x,y)` is an edge exactly when `x != y`, both are nodes, and in relation mode `op[x][y]` holds (`op[y][x]` when dual), in operation mode `op[x][y] == x` (`== y` when dual) |
| Diagrams.DualRelationEdgesReversed | Prover9.py:24 | in relation mode the dual flag reverses every edge |
| Diagrams.DualOperationEdgesReversed | Prover9.py:26 | in operation mode, for a commutative operation, the dual flag reverses every edge |
| Diagrams.OrderTableEdges | Prover9.py:24 | drawing a `poset2model` table links every item to each other item below it, or above it when dual |
| Diagrams.HasseDiagram | Prover9.py:20-35 | node `x` is red exactly when `unary[x]` holds; the edges are the reduction of the raw edges, or the raw edges when the reduction fails |
| Diagrams.ParseSymbol | Prover9.py:50 | the dual flag is set exactly when the token ends in `d`; name plus optional `d` gives back the token; an empty token fails |
| Diagrams.ParseSymbolOfRendered | Prover9.py:50 | a name followed by `d` parses as that name with the dual flag |
| Diagrams.Split | Prover9.py:42 | `str.split(" ")`: at least one piece, and no piece holds a space; with `Diagrams.Join` it round-trips, as the next two rows state |
| Diagrams.SplitJoin | Prover9.py:137 | splitting the space-joined symbols gives back the symbols, when there is at least one and none contains a space |
| Diagrams.JoinSplit | Prover9.py:42 | joining the pieces of `split(" ")` with spaces gives back the string (`Diagrams.Join`, the `" ".join` of Prover9.py:137, is stated through this lemma and the previous one) |
| Diagrams.Unhighlighted | Prover9.py:48 | the flags for no unary relation: one per element, none set |
| Diagrams.Highlight | Prover9.py:48 | no unary relation name gives all-false flags, one per element; a missing relation raises `KeyError`; a unary relation gives its own flags |
| Diagrams.SymbolDiagram | Prover9.py:49-54 | an empty token fails with `IndexError`; a name the structure does not define draws nothing; an operation of that name is looked up before a relation; a constant or a non-empty unary entry fails with `TypeError`; a table too small for its values or for the highlight flags fails with `IndexError`; otherwise the one diagram is `hasse_diagram` of that table with the dual flag of a trailing `d` |
| Diagrams.OperationTableOf | Prover9.py:20-26 | `len` of a constant, or a second index into a non-empty unary operation, raises; a binary operation is drawn from its own table |
| Diagrams.RelationTableOf | Prover9.py:20-26 | a second index into a non-empty unary relation raises; a binary relation is drawn from its own table |
| Diagrams.Concat | Prover9.py:49-54 | the diagrams of the tokens, one after another: an element is in the result exactly when it is in some part; at most one per token when each token draws at most one, none when no token draws any |
| Diagrams.SymbolDiagrams | Prover9.py:49-54 | succeeds exactly when every token succeeds, and otherwise fails with the error of the first token that fails; on success the diagrams are those of every token, concatenated in token order; so there are no more diagrams than tokens, and none when no token names a symbol of the structure |
| Diagrams.SymbolDiagramsOfParts | Prover9.py:49-54 | when the diagrams of every token are known, the structure's diagrams are their concatenation |
| Diagrams.Draw | Prover9.py:51-54 | one `hasse_diagram` call: an entry that cannot be indexed twice raises `TypeError`, a table too small for its values or for the highlight flags raises `IndexError`, otherwise the one diagram of the table |
| Diagrams.ModelDiagrams | Prover9.py:47-54 | one structure's pass of the loop: a missing highlight relation raises `KeyError` before any token is drawn; otherwise the result is that of its tokens with those flags |
| Diagrams.M4Diag | Prover9.py:37-56 | one diagram list per structure; entry `i` is the diagrams of the tokens for `li[i]` with its highlight flags, and the call succeeds exactly when every structure does; an empty token fails |
| Diagrams.DefaultSymbolsOf | Prover9.py:130-135 | the default symbols are exactly those the first structure defines, in the order order, meet, join, sum, product |
| Diagrams.DefaultOps | Prover9.py:130-135 | the default tokens are the tokens of those symbols, in that order |
| Diagrams.DefaultOpsAreDrawn | Prover9.py:130-135 | every default token parses to a symbol the structure defines; its dual flag is set exactly for order, meet and product |
| Diagrams.Strip | Prover9.py:136 | `strip()` returns a slice with only whitespace cut from either side, and neither end of it is whitespace |
| Diagrams.StripIdempotent | Prover9.py:136 | a string already free of whitespace at both ends is left unchanged, so stripping twice equals stripping once |
| Diagrams.ChosenOps | Prover9.py:130-136 | no symbols given selects the defaults; otherwise each given symbol is stripped, in order |
| Diagrams.PosetModels | Prover9.py:140 | mapping `poset2model`, as written, over the families fails exactly when one family is empty or holds numbers; the error is that of the first such family (`EmptyFamily` or `TypeError`); otherwise each structure is the corrected `poset2model` of its family |
| Diagrams.ShowPassesChosenOps | Prover9.py:136-138 | `m4diag` receives exactly the symbols `show` chose |
| Diagrams.ShowModels | Prover9.py:128-138 | an empty list draws nothing; with no symbols given and no default symbol defined, the call fails; otherwise it succeeds exactly when every structure draws the chosen symbols with no node highlighted, the first structure that fails decides the error, and on success entry `i` is the diagrams of structure `i` |
| Diagrams.ShowFamily | Prover9.py:139 | a family fails exactly when it is empty (`EmptyFamily`) or holds numbers (`TypeError`), as `poset2model` is written; otherwise it gets exactly the non-dual diagram of its `<=` |
| Diagrams.ShowFamilies | Prover9.py:140 | a list of families fails exactly when one is empty or holds numbers, with the error of the first such family; otherwise entry `i` is exactly the non-dual diagram of family `i`'s `<=` |
| Diagrams.Show | Prover9.py:127-140 | dispatches on the argument: structures (a single one counts as a list of one), one family, or a list of families, and states for each what the three rows above state |
| Queries.Signum | Prover9.py:86-97 | every axiom of the `signum` table is an implication from `C(x,y)` |
| Queries.KnownPositions | Prover9.py:101-102 | the positions, in increasing order, of the operations whose symbol has a template, each exactly once |
| Queries.OperationAxioms | Prover9.py:101-103 | fails exactly when some operation is neither in the table nor a constant; otherwise one template per known operation, in the structure's order: entry `k` is the template of the operation at the `k`-th known position |
| Queries.Preamble | Prover9.py:100 | transitivity, then order inclusion when `precon` or reflexivity otherwise, then symmetry exactly when `sym` |
| Queries.CompatAxioms | Prover9.py:100-103 | exactly transitivity, then order inclusion if `precon` or else reflexivity, then symmetry if `sym`, then the templates of the structure's operations in order; symmetry and order inclusion occur only as asked; an unknown non-constant operation fails |
| Queries.CompatQuery | Prover9.py:104 | the query is the diagram followed by the axioms, with no goals, budgets 100000 and 0, at the structure's cardinality, with `noniso=False` |
| Queries.PairsOf | Prover9.py:105 | `rel2pairs` of a binary table succeeds exactly on a square table and yields its true cells; a non-empty unary relation raises `TypeError` |
| Queries.PreorderOf | Prover9.py:105 | a model without `C` raises `KeyError("C")`; otherwise its pairs are those of `C` |
| Queries.CollectAll | Prover9.py:105 | the set comprehension succeeds exactly when every element does; its members are exactly the results; otherwise it fails with the first failure |
| Queries.CompatiblePreorders | Prover9.py:85-105 | an unknown operation fails before the backend is asked; otherwise the result is the set of `C` relations of the models the backend returns |
| Queries.PrecongruenceAndConQueries | Prover9.py:107-113 | the precongruence theory contains order inclusion and no symmetry; the congruence theory contains reflexivity and symmetry and no order inclusion |
| Queries.Precongruences | Prover9.py:107-108 | an unknown operation fails; otherwise the `C` relations the backend finds for the diagram plus transitivity, order inclusion and the operation templates |
| Queries.Con | Prover9.py:111-112 | an unknown operation fails; otherwise the blocks of each `C` the backend finds for the diagram plus transitivity, reflexivity, symmetry and the templates; when those are equivalences on the domain, each member is a partition of the domain |
| Queries.BridgeAxiom | Prover9.py:146-150 | a bridging axiom only when the formula contains `<=`; the precedence is `^` over `v` over `*` over `+` |
| Queries.CheckQuery | Prover9.py:151 | the query is the diagram followed by the bridging axiom, with the formula as goal, budgets 1000 and 0, at the structure's cardinality, with `one=True` |
| Queries.CheckAll | Prover9.py:144-155 | True exactly when the backend returns `[]` for every formula; otherwise the result belongs to the first refuted formula: False, or with `info` its counterexamples and the note `<formula> fails` |
| Queries.Check | Prover9.py:142-155 | True exactly when no formula of the list has a counterexample; otherwise the verdict on the first refuted formula; a single formula is checked as the one-element list |
| Queries.P9 | Prover9.py:157-166 | a number or no cardinality gives one backend call; an empty list raises `IndexError`; otherwise `max(N+1, 2)` slots: `[]`, `[1]`, then the backend's answer at each size `2..N`; an answer without a length raises `TypeError` at the printed spectrum |

## Left out

- Rendering is left out: graph layout, the graphviz node attributes, SVG text and `display_html`. They are output only (Prover9.py:31-35, 52-56).
- The running index `i` and the HTML separators of `m4diag` are left out. They only label the output.
- `networkx.transitive_reduction` is a parameter. What it computes is not modelled, and any exception it raises counts as failure.
- The `prover9` backend and `Model.diagram` are parameters. Their answers are not modelled. `check` and `compatiblepreorders` assume the backend returns a list of structures. `p9` is generic in what the backend returns. A parameter gives the length of an answer, or none.
- `eval` on a string argument of `compatiblepreorders` is left out, because it runs arbitrary code (Prover9.py:98).
- The text the fine-spectrum `print` of `p9` writes is left out (Prover9.py:165). Its failure on an answer without a length is modelled.
- Python's run-time type dispatch becomes explicit variants: `Family`, `Showable`, `Formulas` and `CardinalityArg`.
  - The list forms of `precongruences` and `Con` just map the one-structure form over the list, so they are not modelled (Prover9.py:109, 113).
  - A single structure passed to `show` is `Models([K])`.
- Only one call of `show` is modelled. Its shared mutable default `ops=[]` carries appended symbols over to later calls, and that is not modelled.
- `poset2model` covers numbers, sets of numbers and sets of sets of numbers. Other comparable items are not modelled. Strings and tuples of numbers iterate without error, skip the partition test and compare natively. Tuples of sets are not modelled: every item of the first one is a set, so they can take the partition test of Prover9.py:119-122.
- Structures are association lists and may repeat a name, which a Python dictionary cannot. Lookups use the first entry. `compatiblepreorders` walks every entry, which matches Python when names are distinct.
- `itertools`, `Model`, `prover9` and `Error` are not defined in `Prover9.py`. The model assumes the surrounding environment provides them. The failure of `poset2model` on an empty collection is `EmptyFamily`, whatever exception `Error` turns out to be.
- Queries.CompatiblePreorders: the error `compatiblepreorders` raises is a `SyntaxError` whose message carries no symbol. It is modelled as `OperationNotHandled` without a payload.
- Diagrams.Show: for structures, success, the error and the diagrams are stated only when at least one symbol is chosen and no stripped symbol holds a space. A symbol with an inner space is split by `m4diag` into several tokens, and then the diagrams follow from `Diagrams.M4Diag` on the joined string.
- Diagrams.ShowModels: the same condition as for `Diagrams.Show`: success, the error and the diagrams are stated only when at least one symbol is chosen and no stripped symbol holds a space.
- Diagrams.HasseDiagram: node ids are integers rather than the strings graphviz receives.

## Findings

| source | as written | input that shows it | evidently intended | confidence | as-written member | corrected member |
|---|---|---|---|---|---|---|
| Prover9.py:58-61 | `S = frozenset()` and then `S &= x`; the fold starts from the empty set | `intersection([{1}])` returns `frozenset()` | the elements common to all members, starting from the first member | high, not executed | SetUtils.Intersection | SetUtils.IntersectionIntended |
| Prover9.py:119 | the partition test iterates over `k[0]` before any branch is chosen | `poset2model(frozenset({1, 2}))` raises `TypeError: 'int' object is not iterable` | numbers reach line 124, where `k[i]<=k[j]` orders them natively, as it does for the subsets that reach it | medium, not executed | Orders.Poset2ModelAsWritten | Orders.Poset2Model |

`show` calls `poset2model` at Prover9.py:139-140, so `Diagrams.Show` and
`Diagrams.PosetModels` follow the code as written: a non-empty family of
numbers makes `show` raise `TypeError`. For every family the written code
accepts, the structure is the one `Orders.Poset2Model` builds, and the
diagrams are stated through it.
