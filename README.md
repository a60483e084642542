# itertools in Dafny

A model of the header-only C++ library `itertools`, which provides lazy
sequence adaptors in the style of Python's `itertools` module: accumulate,
chain, combinations, combinations_with_replacement, compress, count, cycle,
dropwhile, filter, filterfalse, groupby, islice, permutations, product,
repeat, starmap, takewhile, tee, zip and zip_longest.

Every adaptor hands back a `range_view`, which is a begin cursor and an end
cursor. A caller reads (`operator*`) and advances (`operator++`) the begin
cursor until it compares equal (`operator==`) to the end cursor. In the
model:

- an underlying sequence is a `seq<T>` and a cursor into it is a `nat`
  index;
- `range_view` is the datatype `RangeViews.RangeView`;
- each adaptor's iterator is a Dafny `class` whose fields are the
  iterator's members;
- `operator++` is a method with a `modifies` clause, proved against a pure
  specification function of the old state;
- `operator*` and `operator==` are functions and predicates over the
  fields.

The four nested engines (product, permutations, combinations,
combinations_with_replacement) build a chain of cursors, one per level,
outermost first. The model keeps that chain as `seq<Level>`, where
`Level(it, last)` is one level's position and its last position (module
`Levels`). Each engine's `operator++` recurses down the nest. It is modelled
twice:

- a recursive specification function, `Next`;
- a recursive method, `AdvanceFrom(k)`, which updates the levels from `k`
  on in place and is proved equal to `Next` on them.

The properties proved about `Next` and `Run` (`k` advances) are the
nested-loop and lexicographic order, the counting results and the shape
invariants. Combinations and combinations_with_replacement share one
engine, `RewindEngine`. A nested level of combinations is rewound one past
its parent (gap 1). A nested level of combinations_with_replacement is
rewound to its parent's own position (gap 0).

Where the code and its documentation disagree, the model follows the code:

- **combinations_with_replacement with fewer elements than N.** The range is
  empty. The test for it expects exactly that, although the combinatorial
  definition would give C(L+N-1, N) tuples for any L ≥ 1. See
  `CombinationsWithReplacement.ShortInputIsEmpty`.
- **permutations, product, takewhile, accumulate, groupby, islice and
  cycle.** These are listed under Findings. Each has an as-written member
  and a corrected member. The corrected permutations engine skips every
  tuple whose positions repeat (`Permutations.NextDistinct`). The corrected
  product begins at its end when some input is empty
  (`Product.CorrectedBeginState`).

## Model

| member | source | states |
|---|---|---|
| RangeViews.ViewRoundTrip | include/itertools/range_view.hpp:35-39 | `begin()` and `end()` give back exactly the two cursors the view was built from, so reading a view twice gives the same pair |
| Levels.ResetValue | include/itertools/product.hpp:88-91 | resetting a nest whose inputs are all non-empty to its saved first copy gives a dereferenceable state of rank 0 over the same number of tuples |
| Levels.ValueOrderIsLex | include/itertools/product.hpp:86-93 | on dereferenceable tuples over the same lasts, a lower mixed-radix rank means lexicographically earlier positions |
| Levels.BelowIsLexBeforeLast | include/itertools/product.hpp:86-93 | every dereferenceable position tuple is lexicographically below the all-last tuple of the end cursor |
| Levels.CursorsEqual | include/itertools/product.hpp:95-98 | two nests of the same depth have equal cursor tuples exactly when every level's position agrees; against a nest at its last over the same lasts, they are equal exactly when the other nest is at its last too |
| Levels.ValueInjective | include/itertools/product.hpp:86-93 | two dereferenceable nests over the same lasts with the same mixed-radix rank are the same nest, so each rank names exactly one tuple |
| Levels.Lengths | include/itertools/product.hpp:165-173 | the lasts handed to an engine are the inputs' lengths, one per input, in argument order |
| Levels.ValueBelowSize | include/itertools/product.hpp:86-93 | the mixed-radix rank of a dereferenceable nest is below the number of tuples the nest ranges over |
| Levels.ResetShape | include/itertools/product.hpp:88-91 | resetting a nest to its saved first copy keeps every last and puts every cursor at its first position |
| Levels.SizeDependsOnLasts | include/itertools/product.hpp:86-93 | two nests over the same lasts range over the same number of tuples |
| Product.Next | include/itertools/product.hpp:86-93 | one `operator++` keeps every level's last position |
| Product.Run | include/itertools/product.hpp:86-93 | any number of advances keeps every level's last position |
| Product.Tuple | include/itertools/product.hpp:81-84 | the dereferenced tuple has one element per input, the i-th being input i at its cursor |
| Product.NextStepsByOne | include/itertools/product.hpp:86-93 | from a dereferenceable state an advance moves the mixed-radix rank up by exactly one, or, from the final tuple, lands every level on its last |
| Product.InnerStep | include/itertools/product.hpp:88 | when the nested part does not reach its saved last copy, only it moves and the rank rises by one |
| Product.CarryStep | include/itertools/product.hpp:88-91 | a carry that leaves the outer cursor short of its last raises the rank by one and stays dereferenceable |
| Product.CarryShape | include/itertools/product.hpp:88-91 | on a carry the outer cursor moves up one and the nested part is reset to its saved first copy |
| Product.FinalStep | include/itertools/product.hpp:88-91 | a carry from the outer cursor's final position leaves the nested part at its last with no reset, so every level is at its last |
| Product.NextIsLexGreater | include/itertools/product.hpp:86-93 | each advance from a dereferenceable state strictly increases the position tuple lexicographically, which is nested-for-loop order |
| Product.BeginIsBegin | include/itertools/product.hpp:148-151 | over non-empty inputs, begin has every cursor at its first position and every last positive |
| Product.RunRanks | include/itertools/product.hpp:86-93 | from begin, the first j advances (j below the product of the lengths) reach the dereferenceable tuple of rank j |
| Product.ProductCount | include/itertools/product.hpp:148-156 | with every input non-empty, begin reaches end after exactly L0 * L1 * ... * Lk advances, and no earlier state compares equal to end |
| Product.ProductReachesEnd | include/itertools/product.hpp:153-156 | the advance after the last tuple yields exactly the state `end()` builds |
| Product.FinalRank | include/itertools/product.hpp:86-93 | the state one advance before the end holds the tuple of highest rank and is dereferenceable |
| Product.ProductNotEarlier | include/itertools/product.hpp:95-98 | no state before the final advance compares equal to end |
| Product.AtLastIsEnd | include/itertools/product.hpp:153-156 | a state with every level at its last is the state `end()` builds |
| Product.SizeOfBegin | include/itertools/product.hpp:148-151 | the begin state ranges over exactly the product of the input lengths |
| Product.BeginIsEndIff | include/itertools/product.hpp:95-98 | `begin() == end()` holds exactly when every input is empty |
| Product.OneEmptyInputIsNotEmpty | include/itertools/product.hpp:148-156 | if some but not all inputs are empty, begin differs from end yet cannot be dereferenced |
| Product.EmptyInnerInputOverruns | include/itertools/product.hpp:88-91 | with an empty inner input, an advance pushes the inner cursor past its last |
| Product.SingleInputIsPlainCursor | include/itertools/product.hpp:124-132 | a one-input product has begin at first, end at last, and advances by one |
| Product.ProductIterator.Begin | include/itertools/product.hpp:148-151 | `product_impl::begin()`: every cursor at its first position |
| Product.ProductIterator.End | include/itertools/product.hpp:153-156 | `product_impl::end()`: every cursor at its last position |
| Product.ProductIterator.Deref | include/itertools/product.hpp:81-84 | `operator*` yields the current elements, one per input, in argument order |
| Product.ProductIterator.Advance | include/itertools/product.hpp:86-93 | `operator++` updates the levels in place to exactly `Next` of the old levels and keeps the iterator well formed |
| Product.ProductIterator.AdvanceFrom | include/itertools/product.hpp:86-93 | `operator++` of the sub-product from level k leaves levels before k alone and sets the rest to `Next` of the old rest |
| Product.Range | include/itertools/product.hpp:165-173 | `product(...)` returns a view whose first is the begin state and whose last is the end state over the given inputs |
| Product.BeginState | include/itertools/product.hpp:148-151 | begin puts each level at its first position with the input's length as its last, and it can be dereferenced exactly when every input is non-empty |
| Product.EndState | include/itertools/product.hpp:153-156 | end has one level per input, each at its last, over the same lasts as begin |
| Product.LengthProductZero | include/itertools/product.hpp:148-156 | the product of the input lengths is zero exactly when some input is empty |
| Product.CorrectedBeginState | include/itertools/product.hpp:148-156 | corrected begin: the code's begin when no input is empty; over at least one input it compares equal to end exactly when some input is empty |
| Product.CorrectedProductCount | include/itertools/product.hpp:148-156 | from the corrected begin, end is reached after exactly L0 * L1 * ... * Lk advances, a number that is zero exactly when some input is empty, and no earlier state compares equal to end |
| Product.ProductIterator.BeginOrEnd | include/itertools/product.hpp:148-151 | the corrected begin cursor: its levels are the corrected begin state over the input lengths |
| Product.ProductIterator.Equals | include/itertools/product.hpp:95-98 | `operator==`: on nests of the same depth, equal exactly when every level's cursor agrees; against end, equal exactly when every level is at its last |
| Product.RangeOrEmpty | include/itertools/product.hpp:165-173 | the corrected `product(...)`: its view is empty, first equal to last, exactly when some input is empty |
| Product.NextAt | include/itertools/product.hpp:86-93 | the advance of the sub-nest from level k: the nested part advances, and only if it reaches its last does level k step, with the nested part reset unless level k reached its own last |
| Permutations.Repeated | include/itertools/permutations.hpp:111 | `repeated(p)` holds exactly when this level's cursor or some nested level's cursor is at position p |
| Permutations.Step | include/itertools/permutations.hpp:98-105 | one pass of the do-while body keeps the lasts; it either reaches the break (outer at its last, which is the whole nest at its last) or gives a dereferenceable state of higher rank |
| Permutations.Next | include/itertools/permutations.hpp:94-109 | one `operator++` keeps the lasts, either ends at the end state or reaches a higher-rank dereferenceable state, and when not at the end no nested cursor repeats the outer one |
| Permutations.NextIsLexGreater | include/itertools/permutations.hpp:94-109 | each advance strictly increases the position tuple lexicographically |
| Permutations.Emitted | include/itertools/permutations.hpp:94-109 | the range-for loop from a dereferenceable state terminates, emitting the current tuple first and at most as many tuples as ranks remain; from the end state it emits nothing |
| Permutations.BeginRepeatsPositions | include/itertools/permutations.hpp:163-166 | for N ≥ 2 over a non-empty input, the begin state has nested cursors repeating the outer one, and the first emitted tuple is all zeros |
| Permutations.StepKeeps | include/itertools/permutations.hpp:98 | when the nested part does not reach its last, only the nested part advances |
| Permutations.StepCarries | include/itertools/permutations.hpp:98-104 | on carry short of the outer last, the outer cursor moves up one and the nested part is reset to its first copy |
| Permutations.StepBreaks | include/itertools/permutations.hpp:100-103 | on carry from the outer cursor's final position, the loop breaks with the nested part at its last |
| Permutations.NextStops | include/itertools/permutations.hpp:106 | when the pass breaks or its nested part does not repeat the outer cursor, the advance is that one pass |
| Permutations.NextSkips | include/itertools/permutations.hpp:96-106 | when the nested part repeats the outer cursor, the advance runs another pass |
| Permutations.PermutationsIterator.Begin | include/itertools/permutations.hpp:163-166 | `permutations_impl::begin()`: N levels over one input, every cursor at 0 |
| Permutations.PermutationsIterator.End | include/itertools/permutations.hpp:168-171 | `permutations_impl::end()`: every cursor at the input length |
| Permutations.PermutationsIterator.Deref | include/itertools/permutations.hpp:89-92 | `operator*` yields the input elements at the current positions, outermost first |
| Permutations.PermutationsIterator.Advance | include/itertools/permutations.hpp:94-109 | `operator++` updates the levels in place to exactly `Next` of the old levels |
| Permutations.PermutationsIterator.AdvanceFrom | include/itertools/permutations.hpp:94-109 | the do-while loop at level k runs passes until the break or until no nested cursor repeats level k, ending at `Next` of the old levels from k |
| Permutations.PermutationsIterator.StepFrom | include/itertools/permutations.hpp:96-105 | one pass of the loop body at level k leaves levels before k alone and sets the rest to `Step` of the old rest |
| Permutations.Range | include/itertools/permutations.hpp:202-212 | `permutations<N>` (N > 0) feeds N copies of one input to the engine: its view runs from the begin state to the end state |
| Permutations.BeginState | include/itertools/permutations.hpp:163-166 | begin puts every level at the first element with the input length as its last; with N > 0 it can be dereferenced exactly when the input is non-empty |
| Permutations.EndState | include/itertools/permutations.hpp:168-171 | end has N levels, each at its last, over the same lasts as begin |
| Permutations.Halts | include/itertools/permutations.hpp:96-106 | the `do ... while` loop stops exactly when the outer cursor reached its last (the `break`) or no nested level holds the outer cursor's position |
| Permutations.PermutationsIterator.Equals | include/itertools/permutations.hpp:113-116 | `operator==`: on nests of the same depth, equal exactly when every level's cursor agrees; against end, equal exactly when every level is at its last |
| Permutations.SkipRepeats | include/itertools/permutations.hpp:21-33 | corrected filter: from a dereferenceable state, the first state at or after it, by rank, whose positions are all distinct, or the end; a state already distinct is kept |
| Permutations.NextDistinct | include/itertools/permutations.hpp:21-33 | corrected `operator++`: the next state is the end or a dereferenceable state of distinct positions with a higher rank, and its tuple is lexicographically greater |
| Permutations.LexAfter | include/itertools/permutations.hpp:29-30 | a state of higher rank over the same lasts, or the end, is lexicographically after the current tuple |
| Permutations.SkipRepeatsComplete | include/itertools/permutations.hpp:21-33 | every tuple passed over by the corrected filter repeats a position, so no arrangement of distinct positions is skipped |
| Permutations.NextDistinctComplete | include/itertools/permutations.hpp:21-33 | every tuple strictly between a state and its corrected successor repeats a position, so the corrected engine emits every arrangement of distinct positions, in order |
| Permutations.DistinctBeginState | include/itertools/permutations.hpp:163-166 | corrected begin: the end, or a dereferenceable state of distinct positions, over the same lasts as the code's begin |
| Permutations.EmittedDistinct | include/itertools/permutations.hpp:32-33 | every tuple the corrected engine emits has N positions with no position repeated, and there are no more of them than remaining ranks |
| Permutations.PermutationsIterator.BeginArrangement | include/itertools/permutations.hpp:163-166 | the corrected begin cursor: its levels are the corrected begin state |
| Permutations.PermutationsIterator.AdvanceToArrangement | include/itertools/permutations.hpp:94-109 | the corrected `operator++`, a loop of nested-loop steps that stops at the first distinct state, updates the levels to exactly `NextDistinct` of the old ones |
| Permutations.ArrangementsRange | include/itertools/permutations.hpp:202-212 | the corrected `permutations<N>(...)`: a view from the corrected begin to the end state |
| Permutations.EmittedStep | include/itertools/permutations.hpp:94-109 | the tuples emitted from a dereferenceable state are its own tuple followed by those emitted after one advance |
| Permutations.StepAt | include/itertools/permutations.hpp:96-105 | one pass of the loop body at level k: the nested part advances; on reaching its last, level k steps and, unless that reaches its own last, the nested part is reset |
| PermutationsExamples.ThreeArrangeTwo | include/itertools/permutations.hpp:163-166 | over three elements with N = 2 the range emits 7 tuples, the first being (0, 0) |
| PermutationsExamples.ThreeArrangeThreeRepeats | include/itertools/permutations.hpp:104-106 | over three elements with N = 3 the third advance from begin emits (1, 0, 0) |
| PermutationsExamples.DistinctBeginThree | include/itertools/permutations.hpp:163-166 | over three elements with N = 2 the corrected begin is (0, 1), the first arrangement of distinct positions |
| RewindEngine.Built | include/itertools/combinations.hpp:87-91 | the nest built over (it, it_last) has N levels, the outermost over exactly (it, it_last) |
| RewindEngine.RewindSameLasts | include/itertools/combinations.hpp:93-97 | `rewind` moves positions only; every last is untouched |
| RewindEngine.NextSameLasts | include/itertools/combinations.hpp:109-117 | `operator++` moves positions only; every last is untouched |
| RewindEngine.RewindSpaced | include/itertools/combinations.hpp:93-97 | after `rewind(p)` positions are spaced by the gap: strictly increasing for combinations, non-decreasing with replacement |
| RewindEngine.NextKeepsSpaced | include/itertools/combinations.hpp:109-117 | an advance keeps positions spaced by the gap |
| RewindEngine.RewindBounds | include/itertools/combinations.hpp:93-97 | rewinding a nest with shifted lasts to a position below the outer last gives a dereferenceable nest; to the outer last, the all-last nest |
| RewindEngine.NextStaysInBounds | include/itertools/combinations.hpp:109-117 | from a dereferenceable state an advance gives a dereferenceable state or the all-last state: every cursor stays within its bounds |
| RewindEngine.NextIsLexGreater | include/itertools/combinations.hpp:109-117 | each advance strictly increases the position tuple lexicographically |
| RewindEngine.BuiltShape | include/itertools/combinations.hpp:87-91 | a freshly built nest is spaced, each nested last is the parent's last plus the gap, and it is dereferenceable when it < it_last |
| RewindEngine.InnerPhase | include/itertools/combinations.hpp:111 | while the nested part runs through its own range the outer cursor stays put |
| RewindEngine.NextKeepsOuter | include/itertools/combinations.hpp:111 | an advance whose nested part is not exhausted leaves the outer level unchanged |
| RewindEngine.CarryPhase | include/itertools/combinations.hpp:111-115 | the advance on which the nested part becomes exhausted moves the outer cursor up one and rewinds the nested part, giving the nest built one position on |
| RewindEngine.RunBuilt | include/itertools/combinations.hpp:109-117 | a nest of n levels built over (p, m) reaches the nest built over (m, m) after exactly `Steps(m - p, n)` advances, with the outer cursor below m before that |
| RewindEngine.StepsIsChoose | include/itertools/combinations.hpp:135-147 | the advance count `Steps(d, n)` is the binomial coefficient C(d + n - 1, n) |
| RewindEngine.RunBeforeEnd | include/itertools/combinations.hpp:109-117 | every state a built nest passes through before its end is dereferenceable, spaced, and lexicographically after the previous one |
| RewindEngine.Rewind | include/itertools/combinations.hpp:93-97 | `rewind` keeps the nest's depth; the positions it sets are stated by `RewindPositions` |
| RewindEngine.RewindPositions | include/itertools/combinations.hpp:93-97 | rewinding a nest at p puts level i at p + gap * i: p, p + 1, ... for combinations and p at every level for combinations_with_replacement |
| RewindEngine.Exhausted | include/itertools/combinations.hpp:99-102 | `exhausted()`: a nest at its last counts as exhausted |
| RewindEngine.Next | include/itertools/combinations.hpp:109-117 | `operator++` keeps the nest's depth; what the step does is stated by `NextSameLasts`, `NextKeepsSpaced`, `NextStaysInBounds`, `NextIsLexGreater`, `InnerPhase` and `CarryPhase` |
| RewindEngine.Tuple | include/itertools/combinations.hpp:104-107 | `operator*` yields one element per level, the i-th being the input at level i's position |
| RewindEngine.BuiltAtLast | include/itertools/combinations.hpp:145-146 | the end cursor built with first and last at the same position has every level at its last |
| RewindEngine.BuiltFlat | include/itertools/combinations_with_replacement.hpp:88-91 | with gap 0 the constructor hands every level the same position and last |
| RewindEngine.InnerNotExhausted | include/itertools/combinations.hpp:111 | before the nested part has made all of its advances from a fresh rewind, it is not exhausted, so the outer cursor does not move |
| RewindEngine.InnerReachesEnd | include/itertools/combinations.hpp:111-115 | the nested part, from a fresh rewind, reaches its built end after exactly Steps(m - p, n - 1) advances, a positive number |
| RewindEngine.OuterBelow | include/itertools/combinations.hpp:109-117 | if the inner phase from a built state and the advances that follow it keep the outer cursor below its last, so do all of them taken together |
| RewindEngine.Run | include/itertools/combinations.hpp:109-117 | any number of advances keeps the nest's depth; `RunSameLasts` and `RunKeepsSpaced` state what else they keep |
| RewindEngine.RunSameLasts | include/itertools/combinations.hpp:109-117 | any number of advances keeps every level's last |
| RewindEngine.RunKeepsSpaced | include/itertools/combinations.hpp:109-117 | any number of advances keeps the levels at least gap apart: strictly increasing positions for combinations, non-decreasing for combinations_with_replacement |
| RewindEngine.RunAdds | include/itertools/combinations.hpp:109-117 | a + b advances are a advances followed by b advances |
| RewindEngine.RewindBuilt | include/itertools/combinations.hpp:93-97 | rewinding a freshly built nest at p gives the nest the constructor builds at p |
| RewindEngine.RunBelow | include/itertools/combinations.hpp:109-117 | every state before the end, reached from a built nest with its outer cursor below its last, can be dereferenced |
| RewindEngine.NextAt | include/itertools/combinations.hpp:109-117 | the advance of the sub-nest from level k: the nested part advances, and only if it is then exhausted does level k step and rewind the nested part gap past its new position |
| RewindEngine.RewindAt | include/itertools/combinations.hpp:93-97 | rewinding from level k sets level k to p and rewinds the levels below it at p + gap |
| Combinations.CombinationsCount | include/itertools/combinations.hpp:135-147 | for L < N begin equals end; for L ≥ N begin reaches end after exactly C(L, N) advances and compares unequal to end before that |
| Combinations.CombinationsShape | include/itertools/combinations.hpp:109-117 | every state from begin to just before end is dereferenceable with strictly increasing positions, each lexicographically after the previous |
| Combinations.CombinationsIterator.constructor | include/itertools/combinations.hpp:87-91 | `combinations_iterator(it, it_last)` builds N levels, each nested one over bounds shifted by one |
| Combinations.CombinationsIterator.Deref | include/itertools/combinations.hpp:104-107 | `operator*` yields the elements at the current positions, outermost first |
| Combinations.CombinationsIterator.RewindFrom | include/itertools/combinations.hpp:93-97 | `rewind(p)` of level k updates levels k on in place to `Rewind` of the old ones (p, p+1, ...) |
| Combinations.CombinationsIterator.Advance | include/itertools/combinations.hpp:109-117 | `operator++` updates the levels in place to exactly `Next` of the old levels |
| Combinations.CombinationsIterator.AdvanceFrom | include/itertools/combinations.hpp:109-117 | `operator++` of level k advances the nested levels and, on exhaustion, bumps level k and rewinds them just after it |
| Combinations.Range | include/itertools/combinations.hpp:135-147 | `combinations<N>` (N > 0) returns the view from the nest over (first, first+1+L-N) to the nest over (it, it), or an empty view when L < N |
| Combinations.BeginState | include/itertools/combinations.hpp:135-147 | with fewer elements than N, begin is already at its last (the empty range); otherwise begin holds (0, 1, ..., N-1), spaced one apart and dereferenceable |
| Combinations.EndState | include/itertools/combinations.hpp:135-147 | end has every level at its last; with N at most L its outer cursor is at L - N + 1 |
| Combinations.BuiltCount | include/itertools/combinations.hpp:135-147 | from the begin state, exactly C(L, N) advances reach the end state and no earlier state compares equal to it |
| Combinations.CombinationsIterator.Equals | include/itertools/combinations.hpp:119-122 | `operator==`: on nests of the same depth, equal exactly when every level's cursor agrees; against end, equal exactly when every level is at its last |
| CombinationsExamples.FourChooseThree | include/itertools/combinations.hpp:26 | range(4) choose 3 visits (0,1,2), (0,1,3), (0,2,3), (1,2,3) and then equals end |
| CombinationsWithReplacement.CombinationsWithReplacementCount | include/itertools/combinations_with_replacement.hpp:135-146 | for L < N begin equals end; for L ≥ N begin reaches end after exactly C(L+N-1, N) advances and compares unequal to end before that |
| CombinationsWithReplacement.CombinationsWithReplacementShape | include/itertools/combinations_with_replacement.hpp:109-117 | every state from begin to just before end is dereferenceable with non-decreasing positions, each lexicographically after the previous |
| CombinationsWithReplacement.ShortInputIsEmpty | include/itertools/combinations_with_replacement.hpp:140-144 | for 0 < L < N the length check makes the range empty, although the engine over (first, last) would have produced C(L+N-1, N) > 0 tuples |
| CombinationsWithReplacement.CombinationsWithReplacementIterator.constructor | include/itertools/combinations_with_replacement.hpp:88-91 | every nested level is built over the same (it, it_last) as its parent |
| CombinationsWithReplacement.CombinationsWithReplacementIterator.Deref | include/itertools/combinations_with_replacement.hpp:104-107 | `operator*` yields the elements at the current positions, outermost first |
| CombinationsWithReplacement.CombinationsWithReplacementIterator.RewindFrom | include/itertools/combinations_with_replacement.hpp:93-97 | `rewind(p)` of level k puts level k and every nested level at p |
| CombinationsWithReplacement.CombinationsWithReplacementIterator.Advance | include/itertools/combinations_with_replacement.hpp:109-117 | `operator++` updates the levels in place to exactly `Next` of the old levels |
| CombinationsWithReplacement.CombinationsWithReplacementIterator.AdvanceFrom | include/itertools/combinations_with_replacement.hpp:109-117 | `operator++` of level k advances the nested levels and, on exhaustion, bumps level k and rewinds them to its new position |
| CombinationsWithReplacement.Range | include/itertools/combinations_with_replacement.hpp:135-146 | `combinations_with_replacement<N>` returns the view from the nest over (first, last) to the nest over (last, last), or an empty view when L < N |
| CombinationsWithReplacement.BeginState | include/itertools/combinations_with_replacement.hpp:135-146 | with fewer elements than N, begin is already at its last (the empty range); otherwise begin holds (0, 0, ..., 0) and is dereferenceable |
| CombinationsWithReplacement.EndState | include/itertools/combinations_with_replacement.hpp:135-146 | end has every level at its last; with N at most L every level is at position L |
| CombinationsWithReplacement.CombinationsWithReplacementIterator.Equals | include/itertools/combinations_with_replacement.hpp:119-122 | `operator==`: on nests of the same depth, equal exactly when every level's cursor agrees; against end, equal exactly when every level is at its last |
| CombinationsWithReplacementExamples.ThreeChooseTwo | include/itertools/combinations_with_replacement.hpp:27 | "ABC" choose 2 visits AA AB AC BB BC CC and then equals end |
| Chain.Next | include/itertools/chain.hpp:87-98 | `operator++` keeps the number of levels |
| Chain.PosAtLast | include/itertools/chain.hpp:100-103 | the output position never passes the total length and reaches it exactly when every cursor is at its last, which is the end cursor |
| Chain.NextPos | include/itertools/chain.hpp:87-98 | short of the end, an advance moves the output position by exactly one |
| Chain.NextChained | include/itertools/chain.hpp:87-98 | short of the end, an advance keeps inputs before the moving one at their last and inputs after it at their first |
| Chain.NextAdvancesPos | include/itertools/chain.hpp:87-98 | short of the end, an advance keeps the nest chained and the lasts unchanged, and moves the output position by one |
| Chain.Run | include/itertools/chain.hpp:87-98 | j advances from a chained state with j elements left stay chained and are j positions further on |
| Chain.ElementAtPos | include/itertools/chain.hpp:82-85 | the element a cursor short of the end reads is the one at its output position in the concatenated inputs |
| Chain.ChainIterator.Begin | include/itertools/chain.hpp:122-123 | the begin cursor has every input at its first element and output position 0 |
| Chain.ChainIterator.End | include/itertools/chain.hpp:125-126 | the end cursor has every input at its last |
| Chain.ChainIterator.Deref | include/itertools/chain.hpp:82-85 | `operator*` reads the element at the current output position of the concatenation |
| Chain.ChainIterator.DerefFrom | include/itertools/chain.hpp:82-85 | the sub-chain from level k reads the element at its output position in the concatenation of inputs k on |
| Chain.ChainIterator.Advance | include/itertools/chain.hpp:87-98 | `operator++` updates the levels in place to `Next` of the old levels and moves the output position by one |
| Chain.ChainIterator.AdvanceFrom | include/itertools/chain.hpp:87-98 | the sub-chain from level k moves level k if it is short of its last, otherwise passes the advance on |
| Chain.Range | include/itertools/chain.hpp:116-129 | `chain(...)` returns a view from output position 0 to the all-last state |
| Chain.ElementIsFlat | include/itertools/chain.hpp:82-85 | the element `operator*` reads, from the first input not at its last, is the one at the cursor's output position in the concatenated inputs |
| Chain.ChainIsConcatenation | include/itertools/chain.hpp:116-129 | from begin, the state after j advances reads element j of the concatenated inputs; end is reached exactly after the sum of the lengths, empty inputs being passed over |
| Chain.Element | include/itertools/chain.hpp:82-85 | `operator*` reads the first input whose cursor is not at its last, every earlier one being at its last, at that cursor |
| Chain.ChainIterator.Equals | include/itertools/chain.hpp:100-103 | `operator==`: on chains of the same depth, equal exactly when every level's cursor agrees; against end, equal exactly when every level is at its last |
| Chain.FlatLength | include/itertools/chain.hpp:116-129 | the chained inputs have as many elements in all as the nest's positions count in total |
| Chain.NextSameLasts | include/itertools/chain.hpp:87-98 | an advance keeps every input's last |
| Chain.TotalDependsOnLasts | include/itertools/chain.hpp:87-98 | the total number of positions depends only on the inputs' lasts |
| ChainExamples.FourThenThree | test/test_chain.cpp:27-33 | over 1 2 3 4 and 5 6 7, the first input is walked to its last, then the second |
| ChainExamples.ChainSevenElements | test/test_chain.cpp:27-33 | the concatenated output is 1 2 3 4 5 6 7 |
| ChainExamples.EndsAfterSeven | test/test_chain.cpp:27-33 | begin reaches end after seven advances and not before |
| Zip.AnyMatch | include/itertools/zip.hpp:96-99 | the nested `operator==` holds exactly when some input's cursors match |
| Zip.Min | include/itertools/zip.hpp:27-28 | the shortest length is at most every input's length and is some input's length |
| Zip.ZipStopsAtShortest | include/itertools/zip.hpp:111-116 | begin moved in lockstep equals end exactly after min(Li) advances, and every cursor is dereferenceable before that |
| Zip.ZipIterator.constructor | include/itertools/zip.hpp:79-82 | one cursor per input, as given |
| Zip.ZipIterator.Deref | include/itertools/zip.hpp:84-87 | `operator*` yields the current elements in argument order |
| Zip.ZipIterator.Advance | include/itertools/zip.hpp:89-94 | `operator++` moves every cursor one step |
| Zip.Range | include/itertools/zip.hpp:111-116 | `zip(...)` returns a view with every cursor at 0 as begin and every cursor at its input's length as end |
| Zip.ZipIterator.Equals | include/itertools/zip.hpp:96-99 | `operator==`: equal exactly when some input's cursor agrees with the other iterator's, which is what stops zip at the shortest input |
| ZipLongest.Step | include/itertools/zip_longest.hpp:96-104 | `operator++` keeps every level's last |
| ZipLongest.StepWithinLast | include/itertools/zip_longest.hpp:96-104 | the guarded advance never passes a level's last, and a level at its last stays there |
| ZipLongest.RunFromBegin | include/itertools/zip_longest.hpp:96-104 | after k advances from begin, input i is at min(k, Li) |
| ZipLongest.Max | include/itertools/zip_longest.hpp:25-26 | the longest length is at least every input's length and is some input's length |
| ZipLongest.ZipLongestCount | include/itertools/zip_longest.hpp:122-137 | begin equals end (every input at its last) exactly from max(Li) advances on |
| ZipLongest.FiveThreeSeven | test/test_zip_longest.cpp:11-17 | over inputs of lengths 5, 3 and 7, begin equals end after 7 advances and not before, so the range has 7 tuples |
| ZipLongest.ZipLongestIterator.constructor | include/itertools/zip_longest.hpp:86-89 | one level per input, cursors as given |
| ZipLongest.ZipLongestIterator.Deref | include/itertools/zip_longest.hpp:91-94 | `operator*` yields each input's current element, or the default value once that input is exhausted |
| ZipLongest.ZipLongestIterator.Advance | include/itertools/zip_longest.hpp:96-104 | `operator++` updates the levels in place to `Step` of the old ones: only cursors short of their last move |
| ZipLongest.Range | include/itertools/zip_longest.hpp:122-137 | `zip_longest(...)` returns a view from every cursor at first to every cursor at last |
| ZipLongest.BeginState | include/itertools/zip_longest.hpp:126-131 | begin puts every level at its first position with the input's length as its last |
| ZipLongest.ZipLongestIterator.Equals | include/itertools/zip_longest.hpp:106-109 | `operator==`: on nests of the same depth, equal exactly when every level's cursor agrees; against end, equal exactly when every level is at its last |
| ZipLongest.Run | include/itertools/zip_longest.hpp:96-104 | any number of advances keeps every input's last |
| Compress.SkipCount | include/itertools/compress.hpp:45-49 | `next_selected` stops at the first pair, at or after the cursors, where either input is exhausted or the selector is true, having passed only false selectors |
| Compress.SkipCountUnique | include/itertools/compress.hpp:45-49 | any count with those properties is the one `next_selected` takes |
| Compress.SkipDropsUnselected | include/itertools/compress.hpp:45-49 | skipping false selectors does not change what the rest of the range emits |
| Compress.CompressIsCompressed | include/itertools/compress.hpp:56-62 | the range emits exactly the data elements paired with a true selector, up to the shorter input |
| Compress.CompressIterator.constructor | include/itertools/compress.hpp:39-43 | the constructor runs `next_selected`, moving both cursors by the skip count |
| Compress.CompressIterator.NextSelected | include/itertools/compress.hpp:45-49 | the skip loop moves both cursors together by exactly the skip count, landing on a true selector or at a last |
| Compress.CompressIterator.Deref | include/itertools/compress.hpp:51-54 | `operator*` yields the current data element, whose selector is true |
| Compress.CompressIterator.Advance | include/itertools/compress.hpp:56-62 | `operator++` moves both cursors one step and then skips, keeping their offset |
| Compress.Range | include/itertools/compress.hpp:81-89 | `compress(...)` returns begin with both cursors skipped from 0 and end with both cursors at their lasts |
| Compress.CompressedCons | include/itertools/compress.hpp:45-49 | a data element is kept exactly when its selector is true |
| Compress.Examples | test/test_compress.cpp:19-24 | 1 2 3 4 against F T F T gives 2 4; a selector or data input one shorter gives 2; an empty input gives nothing |
| Compress.CompressIterator.Equals | include/itertools/compress.hpp:64-67 | `operator==`: equal exactly when the data cursors or the selector cursors agree, so compress stops at the shorter input |
| Compress.DropUnselected | include/itertools/compress.hpp:45-49 | an element whose selector is false contributes nothing to the output |
| Accumulate.AccIsFold | include/itertools/accumulate.hpp:54-58 | at every position the range visits, the running state is the left fold of the input up to and including that position |
| Accumulate.RunningSums | test/test_accumulate.cpp:19 | with `plus` from 0, 1 2 3 4 5 gives 1 3 6 10 15 |
| Accumulate.AccumulateIterator.constructor | include/itertools/accumulate.hpp:44-47 | the cursor, initial state and function are stored as given |
| Accumulate.AccumulateIterator.Deref | include/itertools/accumulate.hpp:49-52 | `operator*` yields the running state |
| Accumulate.AccumulateIterator.Advance | include/itertools/accumulate.hpp:54-58 | `operator++` as written steps the cursor and folds in the element there; the read is out of range exactly when the step lands on the end |
| Accumulate.AccumulateIterator.AdvanceOrFinish | include/itertools/accumulate.hpp:54-58 | the corrected `operator++` folds in the next element when there is one and leaves the state alone on reaching the end |
| Accumulate.Range | include/itertools/accumulate.hpp:82-88 | begin holds fn(init, first element), or init for an empty input; end is at the last position |
| Accumulate.AccumulateIterator.Equals | include/itertools/accumulate.hpp:60-63 | `operator==` compares the cursors only, whatever the running totals |
| Filter.NextSelected | include/itertools/filter.hpp:44-48 | `next_selected` stops at the first position at or after the cursor that is at the last or satisfies the predicate, having passed only rejected elements |
| Filter.NextSelectedUnique | include/itertools/filter.hpp:44-48 | any position with those properties is where `next_selected` stops |
| Filter.KeepCons | include/itertools/filter.hpp:46 | an element is kept exactly when it satisfies the predicate |
| Filter.KeepSkipsRejected | include/itertools/filter.hpp:46 | skipping rejected elements does not change what the rest of the range emits |
| Filter.FilterIsKeep | include/itertools/filter.hpp:55-60 | the range emits exactly the in-order subsequence of elements that satisfy the predicate |
| Filter.KeepSound | include/itertools/filter.hpp:24-25 | every emitted element comes from the input and satisfies the predicate, and the output is no longer than the input |
| Filter.FilterIterator.constructor | include/itertools/filter.hpp:38-42 | the constructor skips to the first selected element |
| Filter.FilterIterator.SkipRejected | include/itertools/filter.hpp:44-48 | the skip loop moves the cursor to exactly where `next_selected` stops |
| Filter.FilterIterator.Deref | include/itertools/filter.hpp:50-53 | `operator*` yields the current element, which satisfies the predicate |
| Filter.FilterIterator.Advance | include/itertools/filter.hpp:55-60 | `operator++` moves at least one position, every element passed over is rejected, and the cursor stays at the last or on a selected element |
| Filter.Range | include/itertools/filter.hpp:84-89 | `filter(...)` returns begin skipped from the first position and end at the last |
| Filter.FilterIterator.Equals | include/itertools/filter.hpp:62-65 | `operator==` compares the input cursors |
| FilterExamples.TruthyKept | test/test_filter.cpp:9-13 | with element truthiness, 1 0 -1 0 1 gives 1 -1 1 under `filter` and 0 0 under `filterfalse` |
| FilterFalse.Negate | include/itertools/filterfalse.hpp:38 | the reversed predicate holds exactly where the given one does not |
| FilterFalse.KeepPartition | include/itertools/filterfalse.hpp:34-41 | what `filter` and `filterfalse` keep together make up the input: lengths add up and multisets combine to the input's |
| FilterFalse.FilterFalseOutput | include/itertools/filterfalse.hpp:34-41 | the range emits exactly the in-order elements for which the predicate is false |
| FilterFalse.Range | include/itertools/filterfalse.hpp:34-41 | begin and end are filter cursors over the same input with the reversed predicate |
| TakeWhile.TakePrefix | include/itertools/takewhile.hpp:24 | the intended output: the longest prefix of the input whose elements all satisfy the predicate |
| TakeWhile.TakeWhileAsWritten | include/itertools/takewhile.hpp:43-47 | as written, the range emits exactly what `filter` would: every accepted element |
| TakeWhile.KeepsPastRejected | include/itertools/takewhile.hpp:43-47 | over 1 5 2 with n < 3 the code emits 1 2 while the accepted prefix is 1 |
| TakeWhile.OneToFive | test/test_takewhile.cpp:9-13 | over 1 2 3 4 5 with n < 3 both agree on 1 2 |
| TakeWhile.NextTaken | include/itertools/takewhile.hpp:24 | the corrected skip stays on an accepted element and otherwise goes to the end |
| TakeWhile.TakenIsPrefix | include/itertools/takewhile.hpp:24 | the corrected cursor emits exactly the accepted prefix |
| TakeWhile.TakeWhileIterator.constructor | include/itertools/takewhile.hpp:37-41 | the constructor skips as `next_selected` does |
| TakeWhile.TakeWhileIterator.SkipRejected | include/itertools/takewhile.hpp:43-47 | the skip loop as written passes over every rejected element |
| TakeWhile.TakeWhileIterator.StopAtRejected | include/itertools/takewhile.hpp:43-47 | the corrected skip sends the cursor to the end at a rejected element |
| TakeWhile.TakeWhileIterator.Deref | include/itertools/takewhile.hpp:49-52 | `operator*` yields the current element, which satisfies the predicate |
| TakeWhile.TakeWhileIterator.Advance | include/itertools/takewhile.hpp:54-59 | `operator++` as written moves one step and then skips rejected elements |
| TakeWhile.TakeWhileIterator.AdvanceOrStop | include/itertools/takewhile.hpp:54-59 | the corrected `operator++` moves one step and stops at a rejected element |
| TakeWhile.Range | include/itertools/takewhile.hpp:77-82 | `takewhile(...)` returns begin skipped from the first position and end at the last |
| TakeWhile.TakeWhileIterator.Equals | include/itertools/takewhile.hpp:61-64 | `operator==` compares the input cursors |
| DropWhile.TakeThenDrop | include/itertools/dropwhile.hpp:24-25 | the accepted prefix followed by what `dropwhile` keeps is the whole input |
| DropWhile.DropAt | include/itertools/dropwhile.hpp:40 | dropping accepted elements one at a time does not change the final result |
| DropWhile.Range | include/itertools/dropwhile.hpp:37-43 | the range ends at the last; every dropped element satisfies the predicate; begin is the last or on a rejected element; the kept suffix is the input without its accepted prefix |
| DropWhile.OneToFive | test/test_dropwhile.cpp:9-13 | over 1 2 3 4 5 with n < 3 the output is 3 4 5, and later accepted elements pass through |
| Cycle.PosBelow | include/itertools/cycle.hpp:48-55 | within the first pass over a non-empty input the cursor is at the number of advances |
| Cycle.PosPeriodic | include/itertools/cycle.hpp:48-55 | L more advances bring the cursor back to the same position |
| Cycle.PosIsMod | include/itertools/cycle.hpp:48-55 | after q full passes and r more advances the cursor is at r |
| Cycle.PosMod | include/itertools/cycle.hpp:48-55 | after k advances over a non-empty input the cursor is at k mod L, inside the input |
| Cycle.EmptyRunsAway | include/itertools/cycle.hpp:48-55 | over an empty input the cursor starts at the last and after k advances is at k, never wrapping |
| Cycle.CycleIterator.constructor | include/itertools/cycle.hpp:38-41 | the cursor is stored as given |
| Cycle.CycleIterator.Deref | include/itertools/cycle.hpp:43-46 | `operator*` yields the current element |
| Cycle.CycleIterator.Advance | include/itertools/cycle.hpp:48-55 | `operator++` steps and wraps to the first position on reaching the last; over a non-empty input the cursor stays inside it |
| Cycle.Range | include/itertools/cycle.hpp:73-78 | begin is at the first position and end at the last; as written they never compare equal, and under the corrected comparison they do exactly for an empty input |
| Cycle.Wrap | include/itertools/cycle.hpp:48-55 | over a non-empty input, a cursor before the last steps to the next position modulo the length, wrapping to the first |
| Cycle.CycleIterator.Equals | include/itertools/cycle.hpp:57-60 | `operator==` is never true |
| Cycle.CycleIterator.EqualsOrEmpty | include/itertools/cycle.hpp:57-60 | corrected `operator==`: true exactly when the input is empty, so only the empty cycle is an empty range |
| Count.ValueAtIsLinear | include/itertools/count.hpp:47-51 | after k advances the value is start + k * step |
| Count.CountIterator.constructor | include/itertools/count.hpp:37-40 | start and step are stored as given |
| Count.CountIterator.Deref | include/itertools/count.hpp:42-45 | `operator*` yields the current value |
| Count.CountIterator.Advance | include/itertools/count.hpp:47-51 | `operator++` adds the step |
| Count.Range | include/itertools/count.hpp:68-73 | begin and end are built alike and never compare equal |
| Count.CountIterator.Equals | include/itertools/count.hpp:53-56 | `operator==` is never true, so the range never ends |
| Repeat.RepeatInfIterator.constructor | include/itertools/repeat.hpp:40-43 | the value is stored as given |
| Repeat.RepeatInfIterator.Deref | include/itertools/repeat.hpp:45-48 | `operator*` yields the value |
| Repeat.RepeatInfIterator.NotEquals | include/itertools/repeat.hpp:55-63 | `operator!=` is always the opposite of `operator==` |
| Repeat.RepeatIterator.constructor | include/itertools/repeat.hpp:73-76 | value and counter are stored as given |
| Repeat.RepeatIterator.Deref | include/itertools/repeat.hpp:78-81 | `operator*` yields the value, whatever the counter |
| Repeat.RepeatIterator.Advance | include/itertools/repeat.hpp:83-87 | `operator++` increments the counter |
| Repeat.Emitted | include/itertools/repeat.hpp:89-92 | a range-for loop over `repeat(value, n)` with n ≥ 0 emits the value exactly n times |
| Repeat.NegativeNeverEnds | include/itertools/repeat.hpp:83-92 | for `repeat(value, n)` with n < 0, after any number k of advances the begin iterator's counter is k and it still compares unequal to end, so the range never ends |
| Repeat.RangeInf | include/itertools/repeat.hpp:104-111 | `repeat(value)` gives two cursors over the value that never compare equal |
| Repeat.Range | include/itertools/repeat.hpp:113-120 | `repeat(value, times)` gives begin with counter 0 and end with counter `times` |
| Repeat.RepeatInfIterator.Advance | include/itertools/repeat.hpp:50-53 | `operator++` of the unbounded repeat changes nothing |
| Repeat.RepeatInfIterator.Equals | include/itertools/repeat.hpp:55-58 | `operator==` is never true, so the unbounded repeat never ends |
| Repeat.RepeatIterator.Equals | include/itertools/repeat.hpp:89-92 | `operator==` compares the remaining counts only |
| Starmap.StarmapIterator.constructor | include/itertools/starmap.hpp:40-43 | function and cursor are stored as given |
| Starmap.StarmapIterator.Deref | include/itertools/starmap.hpp:45-48 | `operator*` applies the function to the current argument tuple |
| Starmap.StarmapIterator.Advance | include/itertools/starmap.hpp:50-54 | `operator++` moves the underlying cursor one step |
| Starmap.Range | include/itertools/starmap.hpp:71-76 | begin is at the first tuple and end at the last |
| Starmap.Collect | include/itertools/starmap.hpp:71-76 | a range-for loop yields one result per tuple, each the function applied to that tuple |
| Starmap.HalvingPowIsPower | test/test_starmap.cpp:7-15 | power by halving the exponent computes x to the n |
| Starmap.PowExample | test/test_starmap.cpp:19-23 | (2, 5), (3, 2), (10, 3) give 32 9 1000 |
| Starmap.StarmapIterator.Equals | include/itertools/starmap.hpp:56-59 | `operator==` compares the input cursors |
| Tee.Duplicate | include/itertools/tee.hpp:38-54 | `duplicator<N>::get` yields exactly N copies of its argument; N = 0 gives the empty tuple |
| Tee.TeeRange | include/itertools/tee.hpp:56-60 | the intended result of `tee<N>(first, last)`: N views, each over exactly (first, last); the overload as written does not instantiate (see Left out) |
| Tee.CopiesAgree | include/itertools/tee.hpp:56-60 | in the intended `tee<N>(first, last)`, any two copies are the same view, so they iterate equal sequences |
| GroupBy.RunEnd | include/itertools/groupby.hpp:70-74 | `next_group` stops at the last or at the first element whose key differs, having passed only elements of the current key |
| GroupBy.RunEndUnique | include/itertools/groupby.hpp:70-74 | any position with those properties is where `next_group` stops |
| GroupBy.GroupsConcat | include/itertools/groupby.hpp:26 | concatenating the groups' runs gives back the input |
| GroupBy.GroupsAreRuns | include/itertools/groupby.hpp:72-79 | every group is a non-empty run of its own key that cannot be extended, and consecutive groups have different keys |
| GroupBy.GroupsTile | include/itertools/groupby.hpp:81-88 | the groups tile the input in order: each starts where the previous ended, the first at the start and the last at the end |
| GroupBy.GroupsKeys | include/itertools/groupby.hpp:72 | every element of a group has the group's key |
| GroupBy.GroupsKeysChange | include/itertools/groupby.hpp:32-35 | the key changes from one group to the next |
| GroupBy.FinalGroup | include/itertools/groupby.hpp:70-74 | a group is the final one exactly when its run reaches the end of the input |
| GroupBy.FinalAdvanceOverruns | include/itertools/groupby.hpp:85 | every non-empty input ends with a group whose run reaches the end, so advancing from it starts with the cursor already at the last |
| GroupBy.GroupByIterator.constructor | include/itertools/groupby.hpp:57-67 | on a non-empty input the first key is taken and its run scanned; on an empty input nothing is read |
| GroupBy.GroupByIterator.NextGroup | include/itertools/groupby.hpp:70-74 | the scan moves the cursor to the end of the current key's run and records the key of the element it stopped on |
| GroupBy.GroupByIterator.Deref | include/itertools/groupby.hpp:76-79 | `operator*` yields the current key and the view of its run, which is the first remaining group |
| GroupBy.GroupByIterator.AdvanceAsWritten | include/itertools/groupby.hpp:81-88 | `operator++` as written steps past the old run end; it overruns the input exactly when advancing from the final group, and otherwise moves to the next group |
| GroupBy.GroupByIterator.AdvanceOrFinish | include/itertools/groupby.hpp:81-88 | the corrected `operator++` moves to the next group, or to the end state from the final group, dropping exactly one group |
| GroupBy.GroupByIterator.Advance | include/itertools/groupby.hpp:81-88 | from a group that is not the final one, `operator++` starts the next group at the run end with the recorded key |
| GroupBy.Range | include/itertools/groupby.hpp:115-120 | `groupby(...)` returns begin over the whole input and end at the last; they compare equal exactly for an empty input |
| GroupBy.GroupByIterator.Equals | include/itertools/groupby.hpp:90-93 | `operator==` compares the cursors at the first element of the current group |
| GroupByExamples.NonAdjacentKeysSplit | test/test_groupby.cpp:28 | 1 2 2 3 3 3 2 2 1 gives five groups: equal keys that are not adjacent are split |
| GroupByExamples.EmptyAndConstant | test/test_groupby.cpp:24-26 | an empty input has no group; 3 3 3 has one |
| ISlice.Moved | include/itertools/islice.hpp:56-68 | the counted loop moves at most `step` positions and stops early only at the last or when the index reaches `stop` |
| ISlice.MovedUnique | include/itertools/islice.hpp:56-68 | any count with those properties is the one the loop moves |
| ISlice.Next | include/itertools/islice.hpp:54-70 | an advance never takes the cursor past the last |
| ISlice.StuckAtStop | include/itertools/islice.hpp:62-65 | once the index equals `stop`, an advance changes nothing |
| ISlice.TraceDistance | include/itertools/islice.hpp:56-68 | k advances move the cursor and the index by the same distance: k * step, cut at the last or at `stop` |
| ISlice.ReachesEnd | include/itertools/islice.hpp:72-75 | from an index not past `stop`, the cursor reaches the end on some advance exactly when `stop` does not fall inside the rest of the input |
| ISlice.SliceVisits | include/itertools/islice.hpp:54-70 | when `stop` does not cut the slice short, the advances visit every step-th position and reach the end after ceil(m / step) of them |
| ISlice.StopCutsShort | include/itertools/islice.hpp:62-65 | when `stop` falls inside the input, the index reaches `stop` short of the end and every later advance leaves the cursor there |
| ISlice.NextCorrected | include/itertools/islice.hpp:54-70 | the corrected advance never takes the cursor past the last |
| ISlice.TraceCorrectedVisits | include/itertools/islice.hpp:54-70 | the corrected advance visits start + k * step while that is below both the last and `stop`, and is otherwise at the end |
| ISlice.CorrectedReachesEnd | include/itertools/islice.hpp:54-70 | the corrected slice always ends, after ceil(m / step) advances where m is the distance to the nearer of the last and `stop` |
| ISlice.Skipped | include/itertools/islice.hpp:99-100 | the skip loop passes over min(start, L) elements, none for a non-positive start |
| ISlice.ISliceIterator.constructor | include/itertools/islice.hpp:44-47 | cursor, index, stop and step are stored as given |
| ISlice.ISliceIterator.Deref | include/itertools/islice.hpp:49-52 | `operator*` yields the element at the cursor |
| ISlice.ISliceIterator.Advance | include/itertools/islice.hpp:54-70 | the counted loop leaves the cursor and index exactly where `Next` puts them |
| ISlice.Range | include/itertools/islice.hpp:90-114 | a non-positive step is an error; start ≥ stop gives begin = end at the last; otherwise begin skips min(start, L) elements with index `start` |
| ISlice.ISliceIterator.Equals | include/itertools/islice.hpp:72-75 | `operator==` compares the input cursors, whatever the index |
| ISlice.Trace | include/itertools/islice.hpp:54-70 | after any number of advances the cursor is still at or before the end |
| ISlice.TraceCorrected | include/itertools/islice.hpp:54-70 | after any number of corrected advances the cursor is still at or before the end |
| ISliceExamples.EveryOther | test/test_islice.cpp:23 | "ABCDEFG" with step 2 visits A C E G and reaches the end on the fourth advance |
| ISliceExamples.EveryThird | test/test_islice.cpp:24 | step 3 visits A D G |
| ISliceExamples.EveryFourth | test/test_islice.cpp:25 | step 4 visits A E |
| ISliceExamples.EverySeventh | test/test_islice.cpp:26 | step 7 visits A |
| ISliceExamples.StartPastEnd | test/test_islice.cpp:27-28 | a start at or past the end skips the whole input, and an empty input skips nothing |
| ISliceExamples.StopInsideRepeats | include/itertools/islice.hpp:62-65 | "ABCDEFG" with stop 3 and step 1 stays on position 3 from the third advance on |

## Left out

- Template metaprogramming is not modelled: variadic recursion, `std::apply`, `std::tuple_cat`, `clone_args` and `decltype` typing. Inputs of an N-ary adaptor are a `seq<seq<T>>` of one element type, and a tuple is a `seq<T>`. Heterogeneous element types are therefore not modelled.
- Iterators are indices into a `seq`. Iterator categories and the container types behind them (vector, list, raw arrays, strings) are not modelled.
- Composite iterators built by hand, whose saved first and last copies differ from the sub-range's begin and end, are not modelled. The model keeps one position and one last per level; "reset to the saved first copy" puts every nested cursor at its first position, and "equals the saved last copy" means every nested cursor is at its last.
- Integer widths are not modelled: `count`'s value, `repeat`'s counter, `islice`'s index and the `size_t` lengths are unbounded integers.
- Floating-point element types (used in the product and zip_longest tests) are not modelled; `count` works on integers only.
- Caller-supplied callables are uninterpreted total functions: predicates, key functions, fold functions and the starmap function. `my_pow` from the starmap test is `Starmap.HalvingPow` over a non-negative exponent.
- Aliasing is not modelled: the reference capture of the predicate in `filterfalse` (include/itertools/filterfalse.hpp:38), and a group view going stale once `groupby` advances (include/itertools/groupby.hpp:37-38).
- Undefined behaviour is not executed. Reading a cursor at its last is a precondition of each `Deref`. The out-of-range read of accumulate's final advance is reported by a flag. The read past the end in groupby's final advance is reported by `overrun`. A key the constructor leaves uninitialised is `None`.
- The out-of-range `std::next` when combinations is built with L < N is not modelled (include/itertools/combinations.hpp:89, 143). Index arithmetic makes it moot.
- zip_longest's default value `value_type()` is the `fill` parameter.
- Tee.TeeRange: models the intended result of `tee<N>(first, last)`, an overload that is ill-formed as written. At include/itertools/tee.hpp:59 it passes a `range_view<Iterator>` to `duplicator<N, Iterator>::get`, which takes `Iterator&&` (lines 41 and 50), and a view does not convert to an iterator. The recursive `get(arg)` at line 52 also passes an lvalue to an rvalue-reference parameter unless the type is a reference. The model does not capture that this overload fails to compile.
- Only `tee(iterable)` with an lvalue iterable instantiates (include/itertools/tee.hpp:62-66). There the type is a reference, so `make_tuple` stores N copies of the iterable. `Tee.Duplicate` models those copies, and the iterable is a plain value.
- The exception thrown by `islice` for a non-positive step is the `Failure` case of a `Result`.
- `operator!=` is the negation of `operator==` everywhere and is not modelled separately, except for `repeat_inf_iterator`, which defines it on its own.
- `include/itertools/itertools.hpp` holds only `#include`s. The test programs' printing is I/O. Neither is modelled.
- Permutations.Emitted: bounded by the remaining ranks rather than by a closed-form count. The code as written does not emit L!/(L-N)! tuples (see Findings), so only termination and the worked counts in `PermutationsExamples` are proved. The corrected engine is likewise bounded by ranks (`Permutations.EmittedDistinct`), with completeness stated as `Permutations.NextDistinctComplete` rather than as a count.
- Product.ProductCount: stated for inputs that are all non-empty, as the code's begin state only ends correctly there (see Findings). `Product.CorrectedProductCount` states the count for every input.
- RewindEngine.Rewind: its own contract states only that the depth is kept. The positions it sets are stated by the lemma `RewindEngine.RewindPositions`, because a richer contract on this widely used function makes the engine proofs too costly.
- RewindEngine.Next: its own contract states only that the depth is kept, for the same reason. The lemmas `NextSameLasts`, `NextKeepsSpaced`, `NextStaysInBounds`, `NextIsLexGreater`, `InnerPhase` and `CarryPhase` state what one advance does.

## Findings

| source | as written | input that shows it | evidently intended | confidence | as-written member | corrected member |
|---|---|---|---|---|---|---|
| include/itertools/groupby.hpp:81-88 | `operator++` always runs `++_M_it`, including from the final group, where `_M_it` is already at the last; `next_group` then reads past the end | [1] (any non-empty input): the first group's run ends at the last, and advancing from it steps past the last | advancing from the final group yields the end cursor | not executed | GroupBy.GroupByIterator.AdvanceAsWritten | GroupBy.GroupByIterator.AdvanceOrFinish |
| include/itertools/islice.hpp:54-70 | once the index equals `stop` the advance is a no-op, so with `stop` inside the input the cursor never reaches the end and the element at `stop` is emitted forever | "ABCDEFG", start 0, stop 3, step 1: after three advances the cursor stays on position 3 | the slice ends once the index would reach `stop` | not executed | ISlice.StopCutsShort | ISlice.CorrectedReachesEnd |
| include/itertools/takewhile.hpp:43-47 | `next_selected` passes over rejected elements exactly as `filter` does | 1 5 2 with n < 3 emits 1 2 | the output stops at the first rejected element: 1 | not executed | TakeWhile.KeepsPastRejected | TakeWhile.TakenIsPrefix |
| include/itertools/accumulate.hpp:54-58 | the advance from the final element dereferences the end cursor to fold it in | [1] from 0: the only advance reads position 1 of a one-element input | the final advance reaches the end without reading | not executed | Accumulate.AccumulateIterator.Advance | Accumulate.AccumulateIterator.AdvanceOrFinish |
| include/itertools/cycle.hpp:48-60 | over an empty input the begin cursor is at the last, `operator++` moves it past the last without wrapping, and `operator==` is always false, so the range never ends | an empty input: the cursor is at k after k advances | a cycle over an empty input is empty | not executed | Cycle.EmptyRunsAway | Cycle.Range |
| include/itertools/permutations.hpp:163-166 | the documentation (lines 32-33) promises no repeat values within a permutation, but `begin()` puts every level at the first element and `operator++` neither filters that tuple nor the nested state a reset restores | three elements, N = 2: the first tuple is (0, 0) and 7 tuples are emitted instead of 6; N = 3 also emits (1, 0, 0) | only tuples of distinct positions are emitted, in lexicographic order | not executed | PermutationsExamples.ThreeArrangeTwo | Permutations.NextDistinct |
| include/itertools/product.hpp:148-156 | `end()` differs from `begin()` unless every input is empty, so one empty input among non-empty ones leaves a range whose first element cannot be read | lengths [2, 0]: begin is (0, 0), end is (2, 0), and reading begin reads past the second input | the product of inputs one of which is empty is empty | not executed | Product.OneEmptyInputIsNotEmpty | Product.CorrectedProductCount |
