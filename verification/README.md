# froGQL: query rewrites and storage structures, verified

A Dafny model of the parts of froGQL whose correctness is not visible from any one function:
the query rewrites between parser and runtime, and the data structures under the stores and the
importer.  Each rewrite is proved against a reference evaluator that produces *sequences* of rows, in
the order of the evaluator's own loops, so "the same rows" below means the same rows in the same
order, which is stronger than the same bag.

`dafny verify dfyconfig.toml` checks everything.

## The modules

| layer | modules |
|---|---|
| values, syntax | `Values` (property values, the two readings of types and of comparisons), `ValueLaws` (what comparisons and connectives mean), `Syntax` (expressions, descriptors, patterns, variable collectors) |
| reference evaluator | `RowAlgebra` (filtering, pairing, mapping of row sequences), `Runtime` (expressions over a row), `Evaluator` (`Rows`: a pattern's rows; path prefixes), `Scoping` (evaluation is local; what rows bind), `PathWalks` (rows are walks of the graph; path modes), `Repetition` (rows are runs of laps), `PathSelection` (which rows a prefix selects) |
| filter hoisting | `Hoist` (the pass and its shape), `HoistPlacement` (where each filter ends), `HoistRows` (its meaning), `HoistLimits` |
| chains of clauses | `MatchChain` (how a chain runs, and the standard's reading), `OptionalScope` (what OPTIONAL clauses see), `ClauseMerge` (clause merging, read off the written clauses), `HoistQuery` (its meaning), `ChainLimits` |
| predicate pushdown | `StoredTypes` (descriptor and IS predicate over everything stored), `TypePush` (one test, one descriptor), `Pushdown` (the pass), `PushdownReach` (what it leaves behind), `PushdownRows` (merging selects), `PushdownExact` (its meaning), `ChainRows` (rows of node-edge chains), `PushdownLimits` |
| descriptor lowering | `FreshNames`, `Lowering` (the pass), `LoweringRows` (its meaning), `LoweringLimits` |
| all passes | `Pipeline` |
| importer | `Probing`, `U32Tables` (open addressing), `Csr` (adjacency), `VectorRows` (in-place permutation), `Pages`, `CellWriter` (slotted pages) |
| store | `PropertyGraph` (the plain graph), `GraphReads` (what a reader sees, and what each mutation does to it), `Overlay` (merging), `GraphStore` (the store) |
| temporal values | `Decimal`, `Calendar`, `DateText` (printing and parsing), `DateGrammar` (which texts parse) |

Code that computes a value by recursion is a function, and its property is a lemma.  Code that
changes state is a class or a method with a loop: `ClauseMerge.HoistQuery`,
`Pushdown.SplitConjuncts`, `Lowering.ElaboratePattern` with its `FreshVars`, the hash tables, the
adjacency builder, the permutation, the page, the writer, the overlay and the store.

## What stays a parameter

- `Env.subquery`: the verdict of an EXISTS / VALUE body, as any function of the row's bindings and of
  the ambient bindings for the variables the body mentions.  `LoweringLimits` gives it a body: the
  semijoin of `eval_exists`.
- `Env.star`: the rows of an unbounded repetition, as any function of the repeated operand's rows.
  Its rows bind one group per variable of the operand, by construction.
- `Env.pick`: which shared variable a hash set yields as the join key (`Picks`: some shared one).
- `Hasher`: the hash function of the importer's tables; everything holds for every function.
- The pager is a map from page numbers never handed out before to page images.
- `Sorted` and `SortIndices` stand for the standard library's unstable sorts.

## Findings

Places where the code does less than its documentation says.  The model follows the code.  Each finding
has a lemma that exhibits the failing input, and a theorem over a family of inputs (every choice of
names, literals, types) stating when the code is exact *in every environment*: if and only if a condition
on the pattern holds.  The conditions are those of the general theorems.

- Hoisting is not the standard's reading when a filter, evaluated inside an operand, reads a variable
  that the operand may leave unbound and its sibling binds.  Unlike a union, the empty branch of `(x)?`
  does not bind `x` (`QuestionedSharesVariable`, exact iff `OptionalExactWhen`); two operands with several
  shared variables meet on one of them only (`KeyLeavesVariable`, `KeyedExactWhen`).
- Operands that share no element variable are paired unchecked, and the right one's path variable replaces
  the left one's element (`ProductReplacesVariable`, `ProductExactWhen`).
- A subquery counts as referencing nothing, so `EXISTS` over a sibling's variable is evaluated where the
  sibling is not visible (`SubqueryMentionsSibling`, `SubqueryExactWhen`); the same holds for an earlier
  clause's variable (`SimpleMissesOuter`, `SimpleExactIff`).
- A path variable that reuses an element's name hides the element from a filter at the root, not from the
  hoisted one (`PathVariableHidesElement`, `NamedExactWhen`), and a subquery below a path variable runs
  before the path is bound (`PathVariableUnseen`, `NamedSubqueryExactWhen`).
- An OPTIONAL clause whose filters read the outer row is run per outer row only when they contain no
  subquery and the variable is an element variable; otherwise they miss the outer row, and the row is
  padded (`OptionalMissesOuter`, exact iff `OptionalExactIff`).
- A filter that reads a variable of a clause behind an OPTIONAL clause or a path prefix is put back on its
  own clause and left to the type checker, which is not part of this model; evaluated there, it does not see
  the variable and loses the row (`BlockedMisses`, exact iff `BlockedExactIff`).
- Clauses that share a variable one of them may leave unbound are collapsed into a join that requires it
  (`StepThenDiffers`, `SharedStepExactIff`).
- Pushing `x.a IS T` overwrites what the descriptor said about `a`, opens the question of records that
  lack `a`, and changes what a closed record admits; a stored null passes every descriptor
  (`StoredNullPasses`), and a list passes as soon as one element fits (`MixedListPasses`,
  `MixedListReadings`).  `TypePushExactWhen` gives the exact condition over all stored records, nulls and
  nested lists included.  Where nulls are stored, no type test goes exactly into a descriptor that does not
  mention the attribute (`NeverExactWithNulls`).
- A second type test of an attribute replaces the first: `x.a IS int AND x.a IS string`, which nothing
  satisfies, becomes a test for a string (`IntAndString`; exact iff `SecondTestExactWhen`).
- A type test on a variable that the pattern does not declare, or on an interior variable of a selective
  prefix, is removed from the WHERE and merged nowhere (`UndeclaredDropped`, `InteriorDropped`,
  `InteriorVariable`; exact iff `TypeExactWhen`, `SelectiveTypeExactWhen`).
- The first and last *named* nodes are taken for the endpoints, so that an unnamed endpoint lets an interior
  variable through, and its test is evaluated before the paths are selected (`UnnamedEndpoints`,
  `InteriorPushed`; exact iff `SelectiveValueExactWhen`).
- The names a generator avoids are collected from patterns only: a predicate that mentions a generated name
  is captured (`GeneratedNameCaptured`, exact iff `CapturedExactWhen`).  A subquery body draws the same
  names as its enclosing query, and is then correlated with an element it has nothing to do with
  (`BodyRepeatsOuterName`, exact iff `BodyExactWhen`).
- The live counts are allocated minus tombstones; they are exact if and only if only allocated ids were
  ever deleted (`CountExactWhen`).  An id deleted before it was given out makes the element that later
  receives it dead from the start (`AliveAfter`).
- An undirected self-loop of the base graph is listed twice at its node, one inserted later once
  (`LoopListedTwice`); `UndirectedEdgesOf` lists each edge once if and only if the node has no live one.
- `U32Map.get` answers the sentinel with `Some(0)` (`U32Map.Get`).

## Model

| member | source | states |
|---|---|---|
| `Values.PushedComparisonAgrees` | src/runtime/mod.rs:146-220 | a pushed-down comparison keeps a row if and only if the residual comparison does, except between two paths |
| `Values.EqVerdictSymmetric` | src/runtime/mod.rs:56-97 | three-valued structural equality does not depend on the side |
| `Values.FlipKeepsVerdict` | src/optimizer/pushdown.rs:250-259 | `literal op attr` and `attr flip(op) literal` evaluate to the same result, errors included |
| `Values.ScalarTypeReadingsAgree` | src/runtime/engine.rs:4040-4072 | for stored scalars, `is_subtype(value_type(v), t)` and `value_is_type(v, t)` agree for every type |
| `ValueLaws.ComparisonMeans` | src/runtime/mod.rs:146-230 | between two numbers, strings, booleans, dates or datetimes each operator is the order of the values themselves, strings as in the dictionary, on the pushed and on the residual route |
| `ValueLaws.NoOtherOrder` | src/runtime/mod.rs:146-230 | nothing else has an order: the pushed route drops the row, the residual one fails or is unknown |
| `ValueLaws.ListEqualityMeans` | src/runtime/mod.rs:56-97 | lists are unequal if and only if their lengths or some two elements are, equal if and only if all elements are, else unknown |
| `ValueLaws.ConnectivesMean` | src/runtime/engine.rs:5428-5452 | AND is the least and OR the greatest truth value, in the order false, unknown, true |
| `Scoping.EvalSees` | src/runtime/engine.rs:4165-4460 | an expression's result depends on the row and the ambient rows only through how they resolve the variables it references and what its subquery bodies mention |
| `Scoping.RowsBind` | src/runtime/engine.rs:2190-2297 | every row of every pattern binds at least the sure variables and at most the declared ones |
| `PathWalks.NodeRowsExact` | src/runtime/engine.rs:2300-2330 | a node pattern yields exactly the matching nodes |
| `PathWalks.EdgeRowsExact` | src/runtime/engine.rs:2386-2460 | an edge pattern yields exactly the ways to cross a matching edge in a direction it allows |
| `PathWalks.RowsLocated` | src/runtime/engine.rs:2190-2297 | every path of every row of every pattern is a walk of the graph, and every element a row binds lies on one of its paths |
| `PathWalks.WalkCounts` | src/runtime/path_select.rs:101-109 | a row's length counts the hops of its walk, one less than its nodes |
| `PathWalks.ModesMean` | src/runtime/path_select.rs:42-82 | on walks: TRAIL crosses no edge twice; ACYCLIC visits no node twice, hence crosses no edge twice; SIMPLE visits none twice, except that the last may be the first |
| `Repetition.RepeatExact` | src/runtime/engine.rs:3162-3300 | the rows of a bounded repetition are exactly the runs of `lb` to `ub` laps that meet end to end, and for no lap the single nodes |
| `Repetition.LapsCross` | src/runtime/engine.rs:3162-3300 | a run crosses the edges of its laps in order, from where the first begins to where the last ends |
| `Repetition.LapGroups` | src/runtime/assignment.rs:110-135 | a variable bound in every lap is bound to the group of those bindings, in order |
| `PathSelection.SelectionExact` | src/runtime/path_select.rs:16-165 | per pair of endpoints and in production order, ANY n keeps the first n rows; SHORTEST n keeps n rows, none dropped shorter than one kept, the earlier of equals; SHORTEST n GROUPS keeps exactly the rows of the n least lengths; ALL keeps all |
| `PathSelection.SelectsDetermines` | src/runtime/path_select.rs:111-165 | those conditions single out one selection |
| `PathSelection.SelectionInOrder` | src/runtime/path_select.rs:167-171 | the rows kept, of all partitions together, stay in production order |
| `Hoist.HoistKeepsShape` | src/elaborate/hoist.rs:110-175 | hoisting leaves the filter-free skeleton and all variable sets unchanged |
| `Hoist.SealedKeepsShape` | src/elaborate/hoist.rs:142-184 | so does sealing; and every scope, the opaque ones included, keeps exactly its own filters, as a multiset |
| `Hoist.HoistHosts` | src/elaborate/hoist.rs:188-200 | every placed filter sits on a pattern that declares all it references |
| `Hoist.HoistKeepsFilters` | src/elaborate/hoist.rs:110-175 | placed and pending filters together are the written ones, as multisets |
| `Hoist.SealedKeepsFilters` | src/elaborate/hoist.rs:179-184 | sealing conserves the multiset of filters |
| `Hoist.LeavesOnlyWhenUnhosted` | src/elaborate/hoist.rs:188-200 | a filter is handed upwards only if the pattern does not declare its variables |
| `Hoist.SealedIdempotent` | src/elaborate/hoist.rs:179-184 | sealing a sealed pattern changes nothing |
| `HoistPlacement.LowestMeaning` | src/elaborate/hoist.rs:188-200 | climbing from an origin finds the lowest node above it that declares the variables, or shows that none does |
| `HoistPlacement.PlacedLowest` | src/elaborate/hoist.rs:110-200 | the filters on each node of the rewritten scope are, in written order, exactly those whose lowest host it is; those handed up are, in order, exactly those without one |
| `HoistPlacement.SealedPlaced` | src/elaborate/hoist.rs:142-184 | in a sealed scope the unhosted filters close the root's list, and every inner scope stays where it was, sealed in the same way |
| `HoistRows.HoistedRows` | src/elaborate/hoist.rs:110-200 | the induction behind exactness: the rewritten pattern's rows are the bare pattern's rows filtered by what was placed inside |
| `HoistRows.SealedExact` | src/elaborate/hoist.rs:110-200 | hoisting is exact ISO scoping: same rows, same order, as deferring each scope's filters to its root |
| `HoistLimits.QuestionedSharesVariable` | src/runtime/engine.rs:2251-2262 | on `((x)? WHERE x.k op lit)(x)`, and mirrored, some environment separates the hoisted and the deferred reading |
| `HoistLimits.OptionalExactWhen` | src/elaborate/hoist.rs:110-200 | `((x)? WHERE x.k op lit)(y)`, and mirrored, is hoisted exactly in every environment if and only if x and y differ, which is when it is well scoped |
| `HoistLimits.KeyLeavesVariable` | src/runtime/engine.rs:2492-2578 | on `((z)(x)? WHERE x.k op lit), (w)(y)` over the same two variables the readings differ |
| `HoistLimits.KeyedExactWhen` | src/runtime/engine.rs:2492-2578 | that family is hoisted exactly in every environment if and only if the operands do not share both variables, which is when it is well scoped |
| `HoistLimits.ProductReplacesVariable` | src/runtime/engine.rs:2492-2578 | on `((x) WHERE x.k op lit), x = (m)` the readings differ |
| `HoistLimits.ProductExactWhen` | src/runtime/engine.rs:2492-2578 | `((x) WHERE x.k op lit), w = (m)` is hoisted exactly in every environment if and only if w is not x or x is also m, which is when it is well scoped |
| `HoistLimits.SubqueryMentionsSibling` | src/syntax/expr.rs:523-588 | on `(n), (m WHERE EXISTS {..n..})` the two readings differ |
| `HoistLimits.SubqueryExactWhen` | src/syntax/expr.rs:523-588 | `(n), (m WHERE EXISTS {..v..})` is hoisted exactly in every environment if and only if v is no variable of the sibling that the operand lacks |
| `HoistLimits.PathVariableHidesElement` | src/runtime/engine.rs:2283-2294 | on `v = ((v) WHERE v.k op lit)` the two readings differ |
| `HoistLimits.NamedExactWhen` | src/runtime/engine.rs:2283-2294 | `v = ((n) WHERE n.k op lit)` is hoisted exactly in every environment if and only if v and n differ |
| `HoistLimits.PathVariableUnseen` | src/runtime/engine.rs:2283-2294 | on `v = ((n) WHERE EXISTS {..v..})` the two readings differ |
| `HoistLimits.NamedSubqueryExactWhen` | src/runtime/engine.rs:2283-2294 | `v = ((n) WHERE EXISTS {..u..})` is hoisted exactly in every environment if and only if u is not the path variable |
| `MatchChain.KeyedJoinIsNatural` | src/runtime/engine.rs:2492-2578 | joining on one arbitrary shared variable and unifying is the natural join |
| `MatchChain.NaturalJoinIsNatural` | src/runtime/engine.rs:5560-5626 | so is joining on the keys of the first rows |
| `MatchChain.NatJoinRegroups` | src/runtime/engine.rs:5560-5626 | natural joins may be regrouped without changing a row or the row order |
| `MatchChain.NatJoinRows` | src/runtime/engine.rs:5560-5626 | the natural join lists, left rows outermost, exactly the pairs of rows that agree where both bind a variable, each with the paths and bindings of both |
| `MatchChain.CollapsedIsChain` | src/runtime/engine.rs:1493-1500 | the collapsed comma join of an all-simple chain is the clause-by-clause table |
| `OptionalScope.CorrelatedMatches` | src/runtime/engine.rs:1601-1622 | filters run with the outer row ambient keep the rows that they keep when evaluated on the joined row |
| `OptionalScope.BareUnseen` | src/runtime/engine.rs:1547-1560 | a clause whose inner filters cannot see the outer row has the same rows with and without it ambient |
| `OptionalScope.LeftJoinRows` | src/runtime/engine.rs:5639-5652 | for every outer row: one joined row for each row of the bare clause that agrees with it and on whose union the clause's filters hold, in order; if there is none, the outer row alone, Nothing on each new element variable |
| `OptionalScope.OptionalStepRows` | src/runtime/engine.rs:1536-1562 | the engine's step on the hoisted clause yields exactly those rows |
| `OptionalScope.OptionalClauseExact` | src/runtime/engine.rs:1536-1562 | an OPTIONAL clause, hoisted and run per outer row or by itself as the engine decides, extends the table by the left join with the bare clause whose filters see the joined row |
| `ClauseMerge.HoistQuery` | src/elaborate/hoist.rs:60-106 | the loop over clauses, popping and re-pushing, computes `HoistAll`, the function that the next rows are about |
| `ClauseMerge.NeverAbsorbsBarriers` | src/elaborate/hoist.rs:76-90 | optional clauses and clauses with a path prefix survive merging, in order, over the same filter-free patterns |
| `ClauseMerge.OwnPending` | src/elaborate/hoist.rs:110-200 | a clause by itself leaves pending, in order, exactly its filters that read a variable it does not declare |
| `ClauseMerge.RunStartLeast` | src/elaborate/hoist.rs:76-90 | the run before a clause begins at the least index from which on all clauses are simple and without prefix |
| `ClauseMerge.StartsCover` | src/elaborate/hoist.rs:60-106 | each merged clause is made of the operands of a stretch of written clauses, in order, declares what they declare, and covers several only if all are simple and without prefix |
| `ClauseMerge.StartsExact` | src/elaborate/hoist.rs:76-90 | no more and no less is absorbed than needed: a boundary between two written clauses survives if and only if no filter reads a variable that the mergeable clauses from the boundary up to its own do not declare |
| `ClauseMerge.UnplacedExact` | src/elaborate/hoist.rs:76-97 | the filters of a simple clause that stay without a host are, in order, exactly those that read a variable outside the clause and the run before it, or outside the clause itself when it has a prefix |
| `HoistQuery.MergeUpTable` | src/elaborate/hoist.rs:76-90 | absorbing clauses keeps the working table filtered by the pending predicates |
| `HoistQuery.HoistedQueryExact` | src/elaborate/hoist.rs:60-106 | whenever no filter reads a variable from behind an optional clause or a path prefix, a condition on the written clauses, running the hoisted chain yields the table in which each clause's filters see the working table joined, or for OPTIONAL left-joined, with the clause |
| `ChainLimits.OptionalMissesOuter` | src/runtime/engine.rs:1580-1596 | `MATCH q = (n) OPTIONAL MATCH (m) WHERE q IS NOT NULL`, and with an EXISTS over n or q beside it, pads rows that have a match |
| `ChainLimits.OptionalExactIff` | src/runtime/engine.rs:1580-1596 | the chain is run exactly in every environment if and only if the predicate reads no outer path variable, and no outer variable next to a subquery |
| `ChainLimits.SimpleMissesOuter` | src/syntax/expr.rs:523-588 | `MATCH q = (n) MATCH (m) WHERE EXISTS {..x..}` loses rows when x is n or q |
| `ChainLimits.SimpleExactIff` | src/syntax/expr.rs:523-588 | that chain is run exactly in every environment if and only if x is no earlier variable |
| `ChainLimits.SharedStepExactIff` | src/runtime/engine.rs:1493-1500 | `MATCH (x)? MATCH (y)` is run exactly in every environment if and only if x and y differ |
| `ChainLimits.BlockedMisses` | src/elaborate/hoist.rs:92-97 | `OPTIONAL MATCH (n) MATCH (m) WHERE n IS NOT NULL`, or `MATCH ALL mode (n)` before it, loses its row |
| `ChainLimits.BlockedExactIff` | src/elaborate/hoist.rs:76-97 | such a chain, with any variable in the filter, is run exactly in every environment if and only if the filter does not read the variable behind the barrier |
| `Pushdown.FlattenRebuild` | src/optimizer/pushdown.rs:162-190 | flattening a rebuilt conjunction gives the conjuncts back |
| `Pushdown.SplitConjuncts` | src/optimizer/pushdown.rs:91-113 | the loop that sorts conjuncts computes `Pushed` and `Kept` |
| `Pushdown.MergeKeepsShape` | src/optimizer/pushdown.rs:314-367 | merging constraints keeps the size, which is why `rewrite` terminates, and the variables |
| `Pushdown.MergeKeepsKinds` | src/optimizer/pushdown.rs:275-311 | merging keeps which variables name nodes and which edges |
| `Pushdown.Optimize` | src/optimizer/pushdown.rs:78-157 | `optimize` terminates and computes `Rewrite` |
| `Pushdown.RewriteKeepsShape` | src/optimizer/pushdown.rs:82-157 | pushdown keeps the variables and the top-level node variables |
| `Pushdown.RewriteIdempotent` | src/optimizer/pushdown.rs:82-157 | one pass pushes everything pushable: a second pass changes nothing |
| `PushdownReach.RewriteLeaves` | src/optimizer/pushdown.rs:82-157 | exactly the pushable conjuncts leave the filters, at every depth; the others stay, in order |
| `PushdownReach.RewriteSettles` | src/optimizer/pushdown.rs:82-157 | after the pass no filter anywhere holds a conjunct that could be pushed |
| `StoredTypes.ListPasses` | src/typing/simple_type.rs:120-152 | a list passes a type if and only if the type has a list type and the list is empty, holds only nulls, or has one element that passes an element type |
| `StoredTypes.FaithfulIff` | src/runtime/engine.rs:4040-4072 | descriptor check and IS predicate agree on every stored value, nested lists and nulls included, if and only if the type is faithful, a recursion over the type alone |
| `StoredTypes.CoversIff` | src/typing/simple_type.rs:120-152 | every stored value that passes t passes s if and only if s covers t, a recursion over the two types |
| `TypePush.StoredNullPasses` | src/typing/property_type.rs:31-38 | for every descriptor and every type that rejects null, a record with a stored null separates the extended descriptor from the filter |
| `TypePush.MixedListPasses` | src/typing/property_type.rs:31-38 | for every list type some list fails, a record with a mixed list separates them |
| `TypePush.MixedListReadings` | src/typing/simple_type.rs:120-140 | the list `[1, "a"]` passes the descriptor `a: [int]` and fails `a IS [int]` |
| `TypePush.TypePushExactWhen` | src/typing/property_type.rs:31-38 | extending a descriptor by `attr: t` equals adding `attr IS t`, over all stored records, with or without nulls, if and only if the extension is sound, a condition on the descriptor and `t` |
| `TypePush.NeverExactWithNulls` | src/typing/property_type.rs:31-38 | where nulls are stored, extending a descriptor that does not mention the attribute is never exact |
| `PushdownRows.MergedTypesMatch` | src/optimizer/pushdown.rs:408-439 | when each extension is sound on what those before it left, a record matches the merged record type if and only if it matches the old one and passes every test |
| `PushdownRows.MergedNodeMatches` | src/optimizer/pushdown.rs:408-422 | a node matches the merged descriptor if and only if it matches the old one and meets the constraints |
| `PushdownRows.MergedEdgeMatches` | src/optimizer/pushdown.rs:428-439 | the same for edges and type constraints |
| `PushdownRows.SelectionCommutes` | src/runtime/path_select.rs:95-165 | a test decided by the endpoints commutes with any selection made inside each endpoint partition |
| `PushdownRows.PrefixCommutes` | src/runtime/path_select.rs:16-35 | so it commutes with a whole path prefix, mode included |
| `PushdownRows.AllCommutes` | src/optimizer/pushdown.rs:348-351 | every test commutes with an ALL prefix |
| `PushdownRows.StartIsFirst` | src/optimizer/pushdown.rs:371-402 | a named first endpoint is what `boundary_node_vars` reports first |
| `PushdownRows.EndIsLast` | src/optimizer/pushdown.rs:371-402 | and a named last endpoint last |
| `PushdownRows.EndpointTest` | src/optimizer/pushdown.rs:348-357 | constraints on endpoint variables are decided by the endpoints |
| `PushdownRows.MergeExact` | src/optimizer/pushdown.rs:314-367 | merging constraints into a pattern is filtering its rows by them, prefixes, unions and optional steps included |
| `PushdownExact.SplitHolds` | src/optimizer/pushdown.rs:84-113 | on rows that bind the pushed variables, the filter holds if and only if the pushed constraints and the kept conjuncts do |
| `PushdownExact.PushdownIsExact` | src/optimizer/pushdown.rs:82-157 | the optimized pattern has the original's rows, in the original's order, when every pushed type test is sound on the descriptor as the filters around it have left it |
| `ChainRows.AnyOnePicks` | src/runtime/path_select.rs:111-125 | ANY 1 selects the first row of every endpoint partition and no other |
| `PushdownLimits.UnnamedEndpoints` | src/optimizer/pushdown.rs:371-402 | in `ANY 1 ()-[]-(x)-[]-()` the pass takes the middle node for an endpoint, and the optimized `x.attr op literal` changes the rows |
| `PushdownLimits.InteriorPushed` | src/optimizer/pushdown.rs:348-402 | in any chain, a test on a boundary variable that is neither the first nor the last element changes the rows of ANY 1 in some environment |
| `PushdownLimits.SelectiveValueExactWhen` | src/optimizer/pushdown.rs:348-402 | over chains, pushing a comparison is exact in every environment and under every selective prefix if and only if the variable, if taken for an endpoint, is the first or last element |
| `PushdownLimits.SelectiveTypeExactWhen` | src/optimizer/pushdown.rs:348-357 | a sound type test under every selective prefix: if and only if the variable is the first or last element |
| `PushdownLimits.InteriorDropped` | src/optimizer/pushdown.rs:348-357 | a type test on a variable that is no boundary of a selective prefix is rewritten away, which changes the rows in some environment |
| `PushdownLimits.InteriorVariable` | src/optimizer/pushdown.rs:348-357 | so for the middle node of `ANY 1 (a)-[]-(x)-[]-(b)` |
| `PushdownLimits.UndeclaredDropped` | src/optimizer/pushdown.rs:91-125 | a type test on a variable the pattern does not declare is rewritten away, which changes the rows in some environment |
| `PushdownLimits.TypeExactWhen` | src/optimizer/pushdown.rs:91-125 | without a prefix, and under ALL in every mode, pushing a sound type test is exact in every environment if and only if the chain declares the variable |
| `PushdownLimits.OneNodeExactWhen` | src/optimizer/pushdown.rs:408-422 | on one node, `x.attr IS t` is rewritten exactly for every stored graph if and only if the node is x and its descriptor can be extended soundly |
| `PushdownLimits.SecondTestExactWhen` | src/optimizer/pushdown.rs:408-422 | `x.attr IS t AND x.attr IS u`, the first sound: exact for every stored graph if and only if the second is sound on top of it |
| `PushdownLimits.IntAndString` | src/optimizer/pushdown.rs:408-422 | `x.attr IS int AND x.attr IS string` is rewritten to a node that asks for a string |
| `FreshNames.NameInjective` | src/elaborate/mod.rs:365-374 | different counters give different names |
| `FreshNames.NextIsFirstFree` | src/elaborate/mod.rs:365-374 | the generator terminates at the first free name at or after its counter |
| `FreshNames.RunIsFresh` | src/elaborate/mod.rs:348-375 | over any run, generated names are pairwise distinct and never taken |
| `FreshNames.FreshVars.Next` | src/elaborate/mod.rs:365-374 | the loop returns that first free name and moves the counter past it |
| `Lowering.FiltersToExpr` | src/elaborate/mod.rs:321-333 | the fold builds the left-associated conjunction |
| `Lowering.LowerNodeOrEdge` | src/elaborate/mod.rs:258-285 | the in-place edit of one descriptor computes `LowerElement` and the generator's new counter |
| `Lowering.ElaboratePattern` | src/elaborate/mod.rs:206-252 | the traversal sharing one generator computes `Lower` |
| `Lowering.LowerHygienic` | src/elaborate/mod.rs:206-285 | no value filter is left, and every new variable is a generated, untaken name |
| `LoweringRows.EqualImpliesType` | src/elaborate/mod.rs:308-318 | equality with a literal implies the type recorded for it, numbers across the int/float split |
| `LoweringRows.LoweredMatches` | src/elaborate/mod.rs:258-285 | the inline reading of a descriptor is the lowered descriptor plus the generated equalities |
| `LoweringRows.FiltersExprHolds` | src/elaborate/mod.rs:321-346 | the generated predicate holds exactly of the elements that meet every value filter |
| `LoweringRows.LoweringIsExact` | src/elaborate/mod.rs:206-344 | with generated names dropped, the lowered pattern has the written pattern's rows, in order |
| `LoweringLimits.RecordingExactWhen` | src/elaborate/mod.rs:272-276 | recording a literal's type leaves the match alone if and only if the descriptor's own statement on the key follows from the equality |
| `LoweringLimits.BodyLoweringIsExact` | src/elaborate/mod.rs:142-152 | if lowering adds no variable to those an EXISTS correlates on, the lowered query keeps the rows of the written one, for every pattern and body |
| `LoweringLimits.BodyRepeatsOuterName` | src/elaborate/mod.rs:142-152 | `({k: u}) WHERE EXISTS {({k: v})}`: both elements receive one name, and the row of the written query is lost |
| `LoweringLimits.BodyExactWhen` | src/runtime/engine.rs:5000-5024 | over names and literals, such a query keeps its rows in every environment if and only if both receive different names, or were written with the same one |
| `LoweringLimits.GeneratedNameCaptured` | src/elaborate/mod.rs:353-407 | `({a: lit}) WHERE x.k op v`, x the generated name, gains rows |
| `LoweringLimits.CapturedExactWhen` | src/elaborate/mod.rs:353-407 | it is lowered exactly in every environment if and only if x is no generated name |
| `Pipeline.DeferredRows` | src/elaborate/mod.rs:86-97 | lowering and deferring filters to their scope's root commute, row for row |
| `Pipeline.CompiledIsExact` | src/elaborate/mod.rs:30-97 | lowered, hoisted, optimized and run, a pattern yields the rows of the standard's reading of what was written |
| `Probing.MaskIsModulo` | src/bin/import_ttl.rs:299-312 | `& (2^k - 1)` is reduction modulo the capacity |
| `Probing.ProbeMiss` | src/bin/import_ttl.rs:299-313 | a probe that meets an empty slot has shown that the id is absent |
| `Probing.PlaceKeepsTable` | src/bin/import_ttl.rs:299-313 | filling that slot adds exactly the id, keeps slots distinct and every id reachable from its home |
| `Probing.EmptySlotExists` | src/bin/import_ttl.rs:296-298 | fewer ids than slots leave an empty slot, so probing ends |
| `Probing.AscendingUnique` | src/bin/import_ttl.rs:331-337 | an ascending list is determined by its members, so internal ids do not depend on input order |
| `U32Tables.Probe` | src/bin/import_ttl.rs:299-313 | the probe loop ends at the id, or at the empty slot that proves its absence |
| `U32Tables.FreeSlot` | src/bin/import_ttl.rs:323-328 | the empty-slot loop ends at a slot where the id may be put |
| `U32Tables.U32Set.Insert` | src/bin/import_ttl.rs:296-313 | the ids are the old ones plus the new one, the sentinel refused; load stays at most 3/4 |
| `U32Tables.U32Set.Grow` | src/bin/import_ttl.rs:315-329 | doubling the table keeps ids, count and reachability |
| `U32Tables.U32Set.IntoSortedVec` | src/bin/import_ttl.rs:333-337 | the result is strictly ascending and lists exactly the ids |
| `U32Tables.U32Map.FromSorted` | src/bin/import_ttl.rs:348-368 | terminates with load at most 3/4 and numbers each id by its position, which fits 32 bits |
| `U32Tables.U32Map.Get` | src/bin/import_ttl.rs:370-382 | `Some(i)` if and only if the id is the i-th, `None` if and only if absent; the sentinel gives `Some(0)` |
| `U32Tables.CollectEndpoints` | src/bin/import_ttl.rs:438-502 | pass 1 yields the ascending list of all endpoints and extra nodes, or aborts on a sentinel id in a triple |
| `U32Tables.ScanSubjects` | src/bin/import_ttl.rs:702-753 | the extra file adds exactly its subjects, a sentinel passed over |
| `U32Tables.LookUpEndpoints` | src/bin/import_ttl.rs:591-592 | pass 2 never fails to find an endpoint, whatever other nodes the index holds |
| `Csr.EdgesAtExact` | src/bin/import_ttl.rs:623-624 | the specification lists exactly the edges at a node, ascending |
| `Csr.CountEnds` | src/bin/import_ttl.rs:626-629 | the counting loop leaves each node's edge count one place up |
| `Csr.SumOffsets` | src/bin/import_ttl.rs:630-632 | prefix sums turn counts into bucket starts, without 32-bit overflow |
| `Csr.PlaceEdges` | src/bin/import_ttl.rs:633-639 | placing edges by cursor fills every bucket with its list, in order |
| `Csr.BuildCsr` | src/bin/import_ttl.rs:625-641 | the three loops together build the adjacency arrays |
| `Csr.BucketIsList` | src/bin/import_ttl.rs:623-641 | `flat[offsets[n]..offsets[n+1]]` is the ascending list of exactly the edges at `n` |
| `Csr.OffsetsAscend` | src/bin/import_ttl.rs:625-641 | offsets run from 0 to the edge count without decreasing |
| `Csr.FlatIsPermutation` | src/bin/import_ttl.rs:625-641 | every slot holds an edge and different slots hold different edges |
| `Csr.OutgoingAdjacency` | src/bin/import_ttl.rs:438-642 | from triples to adjacency: the n-th id's bucket lists the triples it is the subject of, in input order |
| `VectorRows.WalkCycle` | src/bin/vec_build.rs:489-504 | one walk moves a whole cycle and terminates, because it cannot meet a done position before its start |
| `VectorRows.PermuteRows` | src/bin/vec_build.rs:478-506 | position `k` ends with the id and the row that `order[k]` pointed at, for every `k` |
| `VectorRows.FindRepeat` | src/bin/vec_build.rs:460-469 | the neighbour scan reports a repeated id if and only if there is one |
| `VectorRows.SortRows` | src/bin/vec_build.rs:455-472 | ids come out strictly ascending with their own rows; on a repeated id nothing changes |
| `Pages.Page.constructor` | src/pager/page.rs:86-97 | a new page stores no cells and has 4088 free bytes |
| `Pages.Page.FreeSpace` | src/pager/page.rs:139-143 | the saturating difference is the exact free space |
| `Pages.Page.InsertCell` | src/pager/page.rs:147-168 | succeeds if and only if cell and pointer fit, at a cost of len+2; otherwise nothing changes |
| `Pages.InsertedStores` | src/pager/page.rs:153-167 | the bytes written keep every earlier slot's offset and contents, and no 16-bit field overflows |
| `Pages.CellsDisjoint` | src/pager/page.rs:52-71 | cells lie between pointer array and page end, earlier ones above later ones |
| `Pages.CellsTile` | src/pager/page.rs:52-71 | cells tile the area with no gap, in reverse slot order |
| `Pages.Page.CellOffset` | src/pager/page.rs:174-183 | returns the cell's offset if and only if the slot exists |
| `Pages.ReadCell` | src/pager/page.rs:174-188 | reading a slot back yields the bytes inserted |
| `CellWriter.CellWriter.Push` | src/bin/import_ttl.rs:405-420 | the record is appended to the log of locators, all of which stay valid and distinct, page rollovers included |
| `CellWriter.CloseOpen` | src/bin/import_ttl.rs:410-411 | writing the open page out keeps every locator readable |
| `CellWriter.WriteAll` | src/bin/import_ttl.rs:392-428 | for any run of pushes ended by flush, locators are pairwise distinct and read back exactly the bytes pushed |
| `PropertyGraph.StepKeepsNoDangling` | src/model/graph_access.rs:220-262 | every mutation, given live ends at insert, and every rollback keeps both ends of every live edge alive |
| `PropertyGraph.RunKeepsNoDangling` | src/model/graph_access.rs:220-262 | no reachable state has a dangling edge |
| `PropertyGraph.NoDetachRefused` | src/model/graph.rs:747-762 | a plain delete is refused, without effect, if and only if a live edge touches the node |
| `PropertyGraph.DetachIsolates` | src/model/graph.rs:730-745 | a detaching delete kills the node and exactly its incident live edges |
| `PropertyGraph.CountExactWhen` | src/model/graph.rs:83-92 | the live count is the number of live elements if and only if only allocated ids were deleted |
| `PropertyGraph.RunKeepsAllocated` | src/model/graph.rs:713-938 | over any run whose deletions are of existing elements, every tombstone marks an allocated id |
| `PropertyGraph.RunCountsExact` | src/model/graph.rs:83-92 | after such a run, rollbacks included, the live counts are the lengths of any repeat-free enumerations of the live elements |
| `GraphReads.StepReads` | src/model/graph.rs:713-938 | what every read answers after each mutation, in terms of the reads before: ends, direction, properties and labels of the element named change as asked, all others stay; tombstones mark exactly what was deleted; a rollback restores the base |
| `GraphReads.AfterDetermines` | src/model/graph.rs:713-938 | only one graph answers all reads that way |
| `GraphReads.AliveAfter` | src/model/graph.rs:764-785 | an element is alive afterwards if and only if it was and was not deleted, or is new under an id that was not deleted before |
| `GraphReads.AdjacentAfter` | src/store/overlay.rs:214-240 | an inserted edge joins exactly its source's outgoing and its target's incoming edges, or both ends' undirected ones; every other list loses what was deleted and is otherwise as before |
| `Overlay.ApplyPropMods` | src/model/graph.rs:943-958 | applying the changes one by one, in any order, gives the merged record |
| `Overlay.SetMerges` | src/model/graph.rs:793-804 | a set recorded in the overlay is a set on the merged record |
| `Overlay.RemoveMerges` | src/model/graph.rs:858-869 | a removal recorded is a removal on the merged record |
| `Overlay.ReplaceMerges` | src/model/graph.rs:819-837 | a replacement forgets the base record |
| `Overlay.AddMerges` | src/model/graph.rs:884-896 | adding a label to the changes adds it to the merged labels, whatever was recorded before |
| `Overlay.DropMerges` | src/model/graph.rs:912-924 | removing a label likewise |
| `Overlay.MutationOverlay.InsertEdge` | src/store/overlay.rs:214-240 | the new edge gets the next id and joins exactly its ends' lists |
| `GraphStore.MemoryGraphStore.FromRaw` | src/model/graph.rs:250-319 | one pass over the columns builds indexes that describe them |
| `GraphStore.MemoryGraphStore.Src` | src/model/graph.rs:514-519 | the source that the edge was loaded or inserted with |
| `GraphStore.MemoryGraphStore.Tgt` | src/model/graph.rs:520-525 | its target |
| `GraphStore.MemoryGraphStore.NodeProps` | src/model/graph.rs:496-504 | merged properties are those of the directly updated graph |
| `GraphStore.MemoryGraphStore.NodeLabels` | src/model/graph.rs:478-486 | merged labels likewise |
| `GraphStore.MemoryGraphStore.Nodes` | src/model/graph.rs:439-451 | enumerates exactly the live nodes, once each, as many as there are |
| `GraphStore.MemoryGraphStore.EdgesDirected` | src/model/graph.rs:452-477 | enumerates exactly the live edges of the wanted direction, once each |
| `GraphStore.MemoryGraphStore.EdgeMutations` | src/model/graph.rs:418-437 | none if and only if a base edge was relabelled; else the live new edges and the tombstones account for every difference from the base |
| `GraphStore.MemoryGraphStore.NodesWithLabel` | src/model/graph.rs:554-597 | returns exactly the live nodes carrying the label, once each, clean fast path included |
| `GraphStore.MemoryGraphStore.EdgesWithLabelDir` | src/model/graph.rs:658-710 | returns exactly the live edges of that direction carrying the label, once each |
| `GraphStore.FilledRepeats` | src/model/graph.rs:285-295 | a node's list, as the loader fills it and without dead edges, repeats an edge if and only if it is the undirected one and the node has a live undirected self-loop |
| `GraphStore.LoopListedTwice` | src/model/graph.rs:291-295 | one undirected self-loop is listed twice when loaded, once when inserted |
| `GraphStore.MemoryGraphStore.OutgoingEdges` | src/model/graph.rs:604-619 | holds exactly the live directed edges leaving the node, once each |
| `GraphStore.MemoryGraphStore.IncomingEdges` | src/model/graph.rs:620-635 | holds exactly the live directed edges entering the node, once each |
| `GraphStore.MemoryGraphStore.UndirectedEdgesOf` | src/model/graph.rs:636-651 | holds exactly the live undirected edges at the node, once each if and only if the base has no live undirected self-loop there |
| `GraphStore.MemoryGraphStore.LiveCounts` | src/model/graph.rs:83-92 | each count is exact if and only if its tombstones are all allocated ids |
| `GraphStore.MemoryGraphStore.DetachDeleteNode` | src/model/graph.rs:730-745 | the store follows the plain graph's detaching delete |
| `GraphStore.MemoryGraphStore.DeleteNodeNoDetach` | src/model/graph.rs:747-762 | fails, listing exactly the incident live edges, without change, if and only if there is one |
| `GraphStore.MemoryGraphStore.RollbackSession` | src/model/graph.rs:786-791 | the view is the base again, as the plain graph's rollback has it |
| `GraphStore.MemoryGraphStore.InsertEdge` | src/model/graph.rs:718-725 | the next id, and the reads afterwards are those of the insertion |
| `GraphStore.MemoryGraphStore.Apply` | src/model/graph.rs:713-938 | every mutator does to the view what it does to the plain graph, and changes the reads as `GraphReads.After` says |
| `GraphStore.MemoryGraphStore.RunSession` | src/model/graph.rs:713-938 | after any run of mutations and rollbacks the store reads as the plain graph; no live edge dangles if inserts were given live ends; tombstones are allocated ids if deletions were of existing elements |
| `Decimal.DigitsRoundTrip` | src/model/value.rs:157-160 | a printed number reads back as itself |
| `Calendar.YearWithinEra` | src/model/value.rs:62-66 | the year formula finds the year that holds the day, and no unsigned step underflows |
| `Calendar.MonthWithinYear` | src/model/value.rs:67-70 | the month formula finds the month that holds the day |
| `Calendar.CivilFromDaysInverts` | src/model/value.rs:50-72 | every day number, negative ones included, names a valid date with that day number |
| `Calendar.DaysFromCivilInverts` | src/model/value.rs:50-72 | every valid date is recovered from its day number |
| `Calendar.OrderAgrees` | src/model/value.rs:50-93 | lexicographic order of valid dates is the order of their day numbers |
| `Calendar.DaysAreCounted` | src/model/value.rs:50-58 | 1970-01-01 is day 0 and the day after any date has the next number |
| `DateGrammar.ParseDateExact` | src/model/value.rs:95-111 | for every text: a number if and only if the text is four, two and two characters between hyphens that read as a date that exists, and then it is its day |
| `DateGrammar.WrittenFits` | src/model/value.rs:110 | every such date is within 32 bits |
| `DateGrammar.ParseTimeExact` | src/model/value.rs:117-155 | for every text: hour at most 23, minute at most 59 and, if given, second at most 59 with a fraction of one to three digits, scaled to milliseconds |
| `DateGrammar.ParseDatetimeExact` | src/model/value.rs:113-156 | for every text: an instant if and only if the text is such a date, a T, and such a time |
| `DateText.DateRoundTrip` | src/model/value.rs:95-160 | `parse_date_str` inverts `format_date` if and only if the year has four digits, and otherwise rejects it |
| `DateText.TimeRoundTrip` | src/model/value.rs:115-181 | the time of day reads back, with and without milliseconds |
| `DateText.DatetimeRoundTrip` | src/model/value.rs:113-181 | `parse_datetime_str` inverts `format_datetime` if and only if the year has four digits |

## Left out

- The LTJ index, hash-join order limits, LIMIT, pins and the other fast paths of the runtime: the evaluator models the general pairwise route.
- The type checker; queries it would reject are evaluated here all the same.
- Expressions: arithmetic, CASE, function calls, record literals, field access and aggregates would add cases of the same kind to `Eval` and `Referenced`.
- Label algebra in descriptors: a descriptor requires a set of labels.
- Record values and record types: `StoredTypes` covers null, numbers, strings, booleans and nested lists.
- `Values.PushedComparisonAgrees`: NaN, which the ordering calls equal and the equality verdict unequal, and record values are outside the value type.
- Floating-point rounding and NaN: floats are reals, and vector components are only moved.
- PathWalks.RowsLocated: what is concatenated or repeated holds no comma, as the grammar has it, and the unbounded repetition, a parameter, answers walks.
- `Evaluator.Rows`: the breadth-first fast path for SHORTEST over a single edge; it is meant to agree with the general selection, which is what is modelled.
- HoistQuery.HoistedQueryExact: a filter that reads a variable from behind a barrier is left to the type checker, which is not part of this model; `ChainLimits.BlockedExactIff` shows what running it does.
- HoistQuery.HoistedQueryExact: clauses share only variables that each is sure to bind, and a first OPTIONAL clause is evaluated plainly, as the code does.
- MatchChain.CollapsedIsChain: clauses share only variables that each is sure to bind; `ChainLimits.SharedStepExactIff` shows what happens otherwise.
- HoistLimits, ChainLimits, PushdownLimits: the converses are proved over families of patterns; for an arbitrary pattern that violates a scoping condition the rows may agree for other reasons, such as a pattern that matches nothing.
- Pushdown into repetitions, and into one arm of a union only: `PushdownExact.Pushable` excludes them; a variable bound in both arms is covered.
- PushdownExact.PushdownIsExact: each pushed test must be sound on the descriptor the earlier ones left; a later test that happens to repair an unsound earlier one is not covered.
- LoweringRows.LoweringIsExact: value filters are constants, and for unbounded repetition `StarDrops` is a hypothesis, quantified over all rows, that the parameter groups each variable by itself.
- Pipeline.CompiledIsExact: one pattern, not a chain of clauses; subquery bodies are parameters, so their own lowering is followed in `LoweringLimits.BodyLoweringIsExact` only.
- `U32Tables.U32Set` and `U32Tables.U32Map`: the slot vectors are sequence fields that the methods reassign, so writing in place is not captured.
- U32Tables.CollectEndpoints: the triples are those that were read; parsing lines, dropping malformed ones and the edge limit are not modelled.
- `Calendar.CivilFromDays` and `Calendar.DaysFromCivil`: integers are unbounded, so overflow near the ends of the 64-bit range is not captured.
- `CellWriter.Pager`: free-list reuse, the page cache and I/O errors.
- `GraphStore.MemoryGraphStore`: names of elements, `save` and the touched-node log's consumers.
- GraphStore.MemoryGraphStore.NodesWithLabel: labels are sets; an element loaded with a repeated label, which the code lists twice, is not represented.
- GraphStore.MemoryGraphStore.EdgesWithLabelDir: the same for edges.
- `src/optimizer/existential.rs`, `src/optimizer/order_by_alias.rs` and the repetition unroller.
- JSON/CSV loaders, REPL, bindings, vector search, downloads: plumbing.
