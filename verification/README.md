# Verified models of the algorithms carried by this repository

The project models, in Dafny, the algorithms of the repository that have guarantees of their own, and proves those
guarantees.

1. **The compile-time regex engine** (`ctre.hpp`). `RegexSyntax` holds the trees and the continuation stacks,
   `RegexMatcher` the matcher as a total function (a run that never ends is the outcome `Diverges`), and
   `RegexEvaluator` the same matcher with the loops of the source. `RegexLanguage`, `RegexTermination`,
   `RegexPossessive` and `RegexExact` prove soundness with captures, termination, that the rewriting of greedy repeats
   into possessive ones preserves everything, and exactness. `RegexWays` defines the ways to match in order of
   preference, with the groups they record, and proves that the matcher takes the first. `RegexFirst` and `PointSets`
   model the FIRST sets and the collision test behind the rewriting; `RegexFirstExact` proves that they list nothing
   too much. `RegexLimits` shows by concrete patterns which conditions cannot be dropped.
2. **Its pattern parser.** `PatternGrammar` is the complete LL(1) table, `PatternParser` the machine for any semantic
   actions. `PatternLanguage` is the grammar without look-ahead; `PatternTable` and `PatternAcceptance` prove that the
   machine accepts exactly its language, with the actions of the derivation. `PatternActions` are the actions that
   build trees. `PatternPrinter` defines patterns as a reader writes them, with their text, language and groups;
   `PatternRoundTrip`, `PatternMeaning`, `PatternGroups` and `PatternExact` prove that parsing undoes printing, keeps
   the language and numbers the groups, and connect text and match end to end.
3. **The skyline rectangle packer** (`external/imgui/imstb_rectpack.h`). `SkylinePacker` rewires linked nodes in place
   as the source does; `Skyline` holds the geometry and `WindowSearch` what the best-fit search compares; `RectSorting`
   and `PackRects` are the sort, pack and unsort driver. `PackerLimits` shows two things the packer does not do.
4. **Smaller parts**: the UTF-8 decoder of `fixed_string` (`Utf8`), the chained table (`StrHashTables`), the string
   hash (`FnvHash`) and the tables of `magic_enum` (`MagicEnum`).

How the models are to be read:

- A matcher has a parameter `build`: `Optimised` is the normal build, `GreedyOptOff` the build with
  `CTRE_DISABLE_GREEDY_OPT`, and `Reference` never rewrites a repeat.
- The grammar keeps the letters of the source for its nonterminals. The parser reads a linked text, one character
  ahead and one back, which is all that the source looks at.
- The sorted order of the packer is that of some sort: an insertion sort stands for the library sort, and nothing
  beyond "a rearrangement in the order that the comparator decides" is used of it.
- The bucket of a key in the hash table is an arbitrary function into the buckets.

Where the source does not do what its documentation, a standard or the plain reading of the code suggests, the model
follows the source and the project says so: `RegexLimits` (`^` after a repeat, bounds in the wrong order, empty bodies,
iterations that are never reconsidered), `PointSets.NonWordOverflows`, `PatternMeaning.ExactCountKeptIff`,
`PackerLimits` (rounded widths and too few nodes, the waste of windows that start inside a segment),
`Utf8.ForeignLeadAccepted`, `StrHashTables.PrefixesAreFound`, `FnvHash.AgreesIffOpposite` and the empty name in
`MagicEnum.EnumTraits.CastByRange`.

## Model

| member | source | states |
|---|---|---|
| RegexEvaluator.Run | ctre.hpp:3099-3145 | the recursive part of `evaluate`, with the loops of the repeats below, computes the same outcome as the recursive definition `Evaluate` on every stack, position and captures |
| RegexEvaluator.RunLazy | ctre.hpp:3246-3278 | the loop of a lazy repeat, the mandatory iterations done, computes the recursive definition: the rest is tried before each further iteration |
| RegexEvaluator.RunPossessive | ctre.hpp:3280-3296 | the loop of a possessive repeat computes the recursive definition: iterations are taken while they match and never given back |
| RegexEvaluator.RunGreedy | ctre.hpp:3298-3335 | the recursion of a greedy repeat computes the definition: one more iteration is tried first, the rest after it |
| RegexEvaluator.SearchRe | ctre.hpp:3083-3096 | a search answers at the smallest start at which an attempt does not fail, the end of the subject included, and fails only if every attempt fails |
| RegexMatcher.Evaluate | ctre.hpp:3099-3242 | a match ends inside the subject and not before it began |
| RegexMatcher.MatchString | ctre.hpp:3148-3171 | the character by character comparison accepts exactly when the text stands at the position |
| RegexTermination.NeverDiverges | ctre.hpp:3246-3375 | no run goes on forever when every unbounded repeat has a body that consumes a character |
| RegexTermination.CapturesIrrelevant | ctre.hpp:3099-3429 | the captures carried along influence neither the verdict nor the end of a match |
| RegexLanguage.Factor | ctre.hpp:3136-3429 | every match of (re, rest) is a span of re in its language followed by a match of the rest, and only groups of re change, to spans of their own content |
| RegexLanguage.MatchSound | ctre.hpp:3077-3081 | on a tree with ordered bounds and distinct group numbers, a full match has the whole subject in the language of the pattern, and every matched group holds a span inside the subject and in the language of its own content |
| RegexLanguage.SearchAtSound | ctre.hpp:3083-3096 | the same for an attempt of a search, for the span it found |
| RegexExact.MatchIsExact | ctre.hpp:3077-3081 | on patterns with no possessive repeat, no `^` after a greedy repeat, and repeat bodies of one fixed positive width (single characters in particular) a full match succeeds if and only if the subject is in the language, the collision optimisation switched on or off |
| RegexExact.SearchIsExact | ctre.hpp:3083-3096 | on those patterns an attempt of a search succeeds if and only if some span of the pattern begins there |
| RegexEvaluator.SearchFindsLeftmost | ctre.hpp:3083-3096 | on those patterns a search succeeds if and only if the pattern has a span in the subject, and then finds the leftmost start |
| RegexWays.FirstWayTaken | ctre.hpp:3099-3429 | which match is taken and what it records: the ways of a tree are listed tree by tree, without continuation stacks, the preferred one first (content before skipping for `?`, the other way round for `??`, left before right, longer runs first for greedy, shorter first for lazy, the longest only for possessive repeats, each iteration by its own preferred way), and the matcher run on a tree and a rest takes the first way after which the rest does not fail |
| RegexWays.ChooseRecorded | ctre.hpp:3411-3423 | starting a group, matching its content and ending it records exactly the group from where it began to where the content ended, as matched, whatever the group held before |
| RegexWays.MatchTakesFirstWay | ctre.hpp:3077-3081 | a full match returns exactly the groups of the first way of the pattern that takes the whole subject, with the rewriting switched on or off, and fails when no way does |
| RegexWays.SearchTakesFirstWay | ctre.hpp:3083-3096 | an attempt of a search returns the end and the groups of the first way from there, and fails when there is none |
| RegexWays.SearchTakesLeftmostWay | ctre.hpp:3083-3096 | so a search returns the first way from the leftmost position that has one |
| RegexWays.WaysAreSpans | ctre.hpp:3099-3429 | every way is a span in the language of the tree |
| RegexWays.SpansAreWays | ctre.hpp:3099-3429 | on regular trees every span is a way: the ways are exactly the language, put in order |
| RegexWays.MatchRecordsUnavoidable | ctre.hpp:3411-3423 | after a full match every group on every path through the pattern is recorded as matched, and a pattern that is one group records the whole subject |
| RegexWays.SearchRecordsUnavoidable | ctre.hpp:3411-3423 | the same for an attempt of a search, with the span it found |
| RegexWays.OptionalTakesCharacter | ctre.hpp:3189-3199 | a search attempt with an optional character ends after the character if and only if it is there |
| RegexWays.StarTakesRun | ctre.hpp:3298-3375 | a search attempt with a greedy star over one character takes the whole run of accepted characters, and one with a lazy star takes none |
| RegexPossessive.FirstSound | ctre.hpp:2604-2829 | FIRST is sound on stacks with ordered bounds: the first character a run on a stack consumes is accepted by a matcher in FIRST of the stack (or the list says that anything may come), and a run that consumes nothing shows that the stack may match nothing |
| RegexPossessive.FirstOfSpan | ctre.hpp:2652-2829 | the same for the spans of one tree in front of any stack: a consumed character is in FIRST, an empty span lets FIRST of the rest through |
| RegexFirst.ComplementCovers | ctre.hpp:2857-2910 | the intervals reported for a negated set cover every character outside the set, in whatever order the members are listed |
| RegexFirst.CollidesMissesNothing | ctre.hpp:3054-3061 | when two lists are reported not to collide, no character satisfies a matcher of each |
| RegexFirstExact.FirstIsExact | ctre.hpp:2604-2829 | FIRST lists nothing too much: a matcher in it accepts a character if and only if the shape of the stack lets that character come first |
| RegexFirstExact.ComplementIsExact | ctre.hpp:2857-2910 | for a negated set whose members ascend, the reported intervals are exactly the complement |
| RegexFirstExact.CollidesIffCommon | ctre.hpp:3054-3061 | lists with non-empty ranges and ascending negated sets collide if and only if some character satisfies a matcher of each |
| RegexFirstExact.RewritesIff | ctre.hpp:3344-3375 | so a greedy repeat over such sets is rewritten if and only if `$` comes next or no character can begin both an iteration and the rest |
| PointSets.PointSet.LowerBound | ctre.hpp:2938-2955 | the binary search finds the lower bound in the sorted points |
| PointSets.PointSet.Insert | ctre.hpp:2956-2987 | inserting moves the points from the lower bound on up by one place, adds exactly the new point there and keeps the array sorted |
| PointSets.PointSet.Check | ctre.hpp:2988-3001 | the check answers whether some stored interval touches the given one |
| PointSets.PointSet.PopulateFrom | ctre.hpp:3032-3051 | populating stores exactly the intervals of the list, each as often as it is reported |
| PointSets.CollidesOnPoints | ctre.hpp:3054-3061 | the imperative collision test on the sorted array equals its definition on the unsorted list of intervals, when the capacity suffices |
| PointSets.TouchesIsOverlap | ctre.hpp:2988-3001 | on non-empty intervals the four-way test holds if and only if the intervals have a common point |
| PointSets.FlatListFits | ctre.hpp:2837-2856 | for flat sets the capacity computed beforehand is never exceeded |
| PointSets.FlatBodyFits | ctre.hpp:2837-2856 | FIRST of a stack of flat trees is flat, so the array that the collision test of a repeat fills is large enough whenever the negated sets in the body of the repeat hold single characters and ranges only |
| PointSets.NonWordOverflows | ctre.hpp:2837-2856 | for the complement of the word characters, a nested set, four intervals are reported for an array of three: flatness cannot be dropped |
| RegexPossessive.PossessiveRewriteIsExact | ctre.hpp:3344-3375 | a greedy repeat rewritten to a possessive one, because the FIRST sets do not collide or `$` comes next, gives the same outcome, end and captures for every subject, start and captures, when no `^` follows |
| RegexPossessive.RestFailsEarlier | ctre.hpp:3344-3375 | what makes it so: once the rest has failed after an iteration, it would have failed before that iteration too |
| RegexPossessive.BuildsAgree | ctre.hpp:3136-3375 | with any set of rewritings switched on, the matcher gives what the backtracking reference gives, on every stack with no `^` after a greedy repeat |
| RegexPossessive.MatchUnchanged | ctre.hpp:3077-3081 | so the optimisation never changes the result of a full match, captures included |
| RegexPossessive.SearchUnchanged | ctre.hpp:3083-3096 | nor that of an attempt of a search |
| RegexLimits.CaretAfterRepeatIsLost | ctre.hpp:3346-3375 | on `a*^` the rewriting loses a match: the condition on `^` cannot be dropped |
| RegexLimits.InvertedBoundsDiffer | ctre.hpp:3280-3296 | on `a{3,2}` the possessive loop accepts two characters where the greedy repeat fails: ordered bounds cannot be dropped |
| RegexLimits.EmptyBodyDiverges | ctre.hpp:3280-3296 | an unbounded repeat of a body that matches nothing never returns |
| RegexLimits.IterationsAreAtomic | ctre.hpp:3128-3132 | an iteration of a repeat is never reconsidered: two repetitions of a choice between "a" and "ab" do not match "aba", although it is in the language |
| PatternParser.RuleLowers | ctre.hpp:951-1245 | in the whole rule table every expansion that reads no character lowers a rank of the stack |
| PatternTable.RuleSound | ctre.hpp:951-1245 | whatever the table does is a production of the grammar, for every nonterminal and character |
| PatternTable.ProductionSelected | ctre.hpp:951-1245 | and of the productions of a nonterminal the table takes the one that can go on with the next character, for every nonterminal and character |
| PatternAcceptance.ParserIsExact | ctre.hpp:671-1245 | the parser accepts exactly the language of a grammar written without look-ahead, sets, named classes, hexadecimal codes, named groups, look-ahead groups, properties and back references included: with any semantic actions, it accepts with a result if and only if the text has a derivation whose actions, in their order, lead to that result |
| PatternAcceptance.OneDerivation | ctre.hpp:951-1245 | a text has at most one derivation |
| PatternLanguage.RangeIsPattern | ctre.hpp:1135-1239 | a set of one range, as `[a-z]`, is in that language, with the five actions it runs |
| PatternParser.RoundReadsOne | ctre.hpp:728-790 | a round that ends undecided has read exactly one character, a decided one none, and acceptance means the whole input was read |
| PatternParser.RoundsSuffice | ctre.hpp:671-697 | one round per remaining character and one more always reach a decision |
| PatternParser.AlwaysDecides | ctre.hpp:792-803 | the fold over the input is the machine run to its end: after one round and one more per character it is never undecided, for any input and any semantic actions, and it accepts only at the end of input and stack |
| PatternRoundTrip.ParseUndoesPrint | ctre.hpp:951-1245 | the parser accepts the printed text of every pattern of the fragment and yields exactly the tree `BuildPattern` describes, one group number per opening parenthesis |
| PatternRoundTrip.AtomRead | ctre.hpp:969-1018 | the machine reads any printed atom, groups and their contents included, and leaves its tree on the stack |
| PatternRoundTrip.NumberRead | ctre.hpp:1945-1952 | the digits of a printed number are read as that number modulo 2^64 |
| PatternMeaning.SequenceMeans | ctre.hpp:2015-2031 | building a sequence, with its four ways of growing strings and splicing sequences, is concatenation of the languages |
| PatternMeaning.AlternateMeans | ctre.hpp:1897-1905 | building a choice, with its splicing of choices, is union of the languages |
| PatternMeaning.PatternMeans | ctre.hpp:1897-2031 | the parsed tree has exactly the language of the pattern as written, when the counts of counted repeats fit |
| PatternMeaning.ExactCountKeptIff | ctre.hpp:1963-1970 | a counted character `c{n}` keeps its meaning if and only if n is neither 0, which the tree reads as "no bound", nor too large for size_t |
| PatternGroups.FindsInOrder | ctre.hpp:2495-2591 | the work list traversal finds the group numbers of a tree outer before inner and left before right |
| PatternGroups.GroupsAreNumberedInOrder | ctre.hpp:1647-1663 | the groups of a parsed pattern are found as 1, ..., n in the order of their opening parentheses, and group i has the language of the i-th group as written |
| PatternGroups.ParsedMatchIsSound | ctre.hpp:3077-3081 | end to end: a match with the parsed text of a pattern has the subject in the language of the pattern, and each matched group a span in the language of that group as written |
| PatternGroups.ParsedSearchIsSound | ctre.hpp:3083-3096 | the same for an attempt of a search |
| PatternExact.ParsedMatchTakesFirstWay | ctre.hpp:3077-3081 | end to end, on the same patterns: the match returned is the first way of the parsed tree that takes the whole subject, with the groups it records, and every group on every path is matched |
| PatternExact.ParsedMatchIsExact | ctre.hpp:3077-3081 | end to end, on patterns whose repeated atoms are single characters, with no `^` and no possessive repeat: parsing and matching decide membership, with the rewriting switched on or off |
| SkylinePacker.Context.constructor | external/imgui/imstb_rectpack.h:252-282 | a fresh target: all nodes on the free list, the skyline flat from 0 to the sentinel at the width, nothing placed, every invariant established |
| SkylinePacker.Context.AllowOutOfMem | external/imgui/imstb_rectpack.h:232-250 | the alignment is 1, or the width divided by the number of nodes, rounded up; all invariants are kept |
| SkylinePacker.DefaultAlignIsLeast | external/imgui/imstb_rectpack.h:239-249 | that is the smallest unit with which as many units as there are nodes cover the width |
| SkylinePacker.AlignedIsNextMultiple | external/imgui/imstb_rectpack.h:345-348 | the search rounds a width up to the next multiple of the unit |
| SkylinePacker.Context.SetHeuristic | external/imgui/imstb_rectpack.h:220-230 | the rule can be changed in any state and all invariants are kept |
| SkylinePacker.Context.FindMinY | external/imgui/imstb_rectpack.h:285-333 | the scan returns the maximum height over the window and the waste by which windows are compared; for a window that starts at a node or in a segment above the floor, that waste is exactly the area between the skyline and the height |
| Skyline.MaxHeightIsMax | external/imgui/imstb_rectpack.h:308-328 | that maximum is attained in the window, and no column of the window is higher |
| SkylinePacker.Context.ScanBottomLeft | external/imgui/imstb_rectpack.h:352-376 | the bottom-left scan finds the leftmost among the node positions with the lowest resting height, or none when the rectangle is too wide |
| PackerLimits.WasteOvercounted | external/imgui/imstb_rectpack.h:318-328 | for a window that starts inside a segment on the floor the waste can be larger than that area: the scan counts the part of the segment left of the window too |
| SkylinePacker.Context.ScanBestFit | external/imgui/imstb_rectpack.h:352-376 | the first scan of the best-fit rule finds, among the node positions where the rectangle fits below the top, the one that is lowest, then has the least waste, then is leftmost, or none when there is none |
| SkylinePacker.Context.ScanRightAligned | external/imgui/imstb_rectpack.h:397-428 | the second scan adds the windows that end at a node and leave room above the rectangle: it returns the best of all those and of the node positions by height, then waste, then x, or none when there is none |
| SkylinePacker.Context.FindBestPos | external/imgui/imstb_rectpack.h:341-434 | for the rounded width, the bottom-left rule answers the leftmost lowest node position, or nothing when the width exceeds the target; the best-fit rule answers the best window over both scans by height, then waste, then x, or nothing when no window fits |
| WindowSearch.NextRight | external/imgui/imstb_rectpack.h:410-427 | one comparison of the second scan keeps the best: with the window at the next node considered too, the three-way test chooses the better of it and the best so far |
| WindowSearch.BestFitIsComplete | external/imgui/imstb_rectpack.h:341-434 | the best-fit rule, although it looks at node positions and windows ending at nodes only, finds a position if and only if some integer position holds the rectangle, and rests as low as any of them |
| Skyline.LowestOverAllPositions | external/imgui/imstb_rectpack.h:341-376 | the node position the bottom-left scan chooses rests no higher than any integer position of the window |
| Skyline.BottomLeftIsComplete | external/imgui/imstb_rectpack.h:341-376 | so a rectangle fits somewhere if and only if it fits where that scan puts it |
| SkylinePacker.Context.Attach | external/imgui/imstb_rectpack.h:451-470 | the head of the free list gets the coordinates of the new segment, which the 16-bit casts do not change, and is linked in after what stays on the left |
| SkylinePacker.Context.FreeCovered | external/imgui/imstb_rectpack.h:474-480 | the walk over the covered nodes: exactly they move to the free list, in reverse, and no other link changes |
| SkylinePacker.Context.InsertNode | external/imgui/imstb_rectpack.h:451-486 | rewiring the two lists in place turns the skyline into the placed one, both lists stay acyclic, disjoint and complete, and the sentinel stays |
| Skyline.PlaceValid | external/imgui/imstb_rectpack.h:451-486 | the new skyline has strictly increasing x from 0 to the sentinel at the width, and nodes are neither lost nor made |
| Skyline.PlaceHeight | external/imgui/imstb_rectpack.h:451-486 | column by column, the heights become the top of the rectangle over the replaced part and stay as they were elsewhere |
| Skyline.PlaceKeepsPacked | external/imgui/imstb_rectpack.h:451-486 | a rectangle placed on or above the skyline is inside the target and disjoint from all earlier ones, and the skyline lies above all of them again |
| Skyline.PlacedEndExact | external/imgui/imstb_rectpack.h:472-486 | the raised part ends with the rectangle if and only if the rectangle starts at a node or reaches the next one |
| Skyline.PlaceArea | external/imgui/imstb_rectpack.h:451-486 | conservation of area, for any placement: the area under the skyline grows by exactly w*h plus the space lost |
| Skyline.ClosedIsSpace | external/imgui/imstb_rectpack.h:451-486 | the space lost is the area closed off below the rectangle and, where the raised part is wider than it, beside it; it is never negative |
| SkylinePacker.Context.PackRectangle | external/imgui/imstb_rectpack.h:436-513 | the whole operation, with either rule: where it places, the new skyline, list of rectangles and accounts; it refuses exactly when the rounded width fits at no integer position or all nodes are in use, and what it places rests as low as any position allows |
| SkylinePacker.Context.Accounts | external/imgui/imstb_rectpack.h:436-513 | in every reachable state the area under the skyline is the area of the rectangles placed plus the space lost, and no more than that of the target |
| SkylinePacker.Context.EnoughNodes | external/imgui/imstb_rectpack.h:436-449 | with at least as many nodes as columns the free list is never empty and widths are not rounded |
| PackerLimits.UseUpNodes | external/imgui/imstb_rectpack.h:236-250 | with fewer nodes than columns the rounding of widths does not make the nodes suffice, as the comment at the rounding says it does: for every such target of height 2 or more, unit squares use up the nodes, and the next one is refused although there is room |
| Skyline.FewNodes | external/imgui/imstb_rectpack.h:252-282 | because a skyline never has more segments than columns |
| RectSorting.CompareTransitive | external/imgui/imstb_rectpack.h:515-531 | both comparators are transitive |
| RectSorting.CompareMeans | external/imgui/imstb_rectpack.h:515-531 | the comparators decide the orders: the taller first and of equally tall ones the wider first, and the smaller number first |
| RectSorting.Sort | external/imgui/imstb_rectpack.h:546 | the sort returns a rearrangement of the array in which every element before another is taller, or as tall and not narrower (or, when sorting back, has no greater number) |
| RectSorting.UnsortRestores | external/imgui/imstb_rectpack.h:543-563 | sorting back by the numbers given at the start restores the original order, whatever sort was used in between |
| PackRects.PackOne | external/imgui/imstb_rectpack.h:548-560 | one turn of the loop: an empty rectangle goes to the origin, a placed one where the search says, and the marker of refusal never equals a placed position |
| PackRects.PackSorted | external/imgui/imstb_rectpack.h:548-560 | the loop as a chain of skylines, each step justified; the list of placed rectangles grows by exactly those placed |
| PackRects.PackAll | external/imgui/imstb_rectpack.h:539-580 | for the array of the caller: every placed non-empty rectangle lies inside the target and overlaps neither another one of the call nor any rectangle placed by earlier calls; ids, sizes and order are as before, the flag is 0 exactly for refused rectangles, the answer is 1 iff all flags are, the packing order takes taller rectangles first and of equally tall ones the wider first, and the invariants of the target hold again |
| PackRects.PlacedAreSafe | external/imgui/imstb_rectpack.h:539-580 | what makes it so: the list of boxes without overlap, read back through the packing order, covers every index of the array |
| PackRects.RunRestsLowest | external/imgui/imstb_rectpack.h:548-560 | over a whole run with either rule, every rectangle placed rests as low as the skyline it met allows at any integer x for its rounded width, and one is refused if and only if all nodes are in use, which never happens with a node for every column, or that skyline has no room for it |
| Utf8.FixedString.constructor | src/template_param_fixed_string.hpp:44-75 | the loop with its fall-through switch stores exactly the decoded values, their number and the flag, and leaves the rest of the buffer zero |
| Utf8.LeadLengths | src/template_param_fixed_string.hpp:16-24 | the lead byte classifier follows section 2 of RFC 2279, except that it takes FE and FF for lead bytes of six |
| Utf8.CorrectIffSplits | src/template_param_fixed_string.hpp:44-75 | for every NUL-terminated array the flag is set if and only if the bytes split into lead bytes each followed by the right number of continuation bytes |
| Utf8.Rfc2279IffCorrect | src/template_param_fixed_string.hpp:16-32 | they split as RFC 2279 asks if and only if the flag is set and neither FE nor FF occurs |
| Utf8.ForeignLeadAccepted | src/template_param_fixed_string.hpp:22 | FE followed by five continuation bytes is accepted, which RFC 2279 does not allow |
| Utf8.DecodeUndoesEncode | src/template_param_fixed_string.hpp:44-75 | decoding the NUL-terminated encoding (section 3 of RFC 3629) of any sequence of Unicode scalar values gives that sequence back, with the flag set |
| StrHashTables.StrHashTable.RemSpaces | src/StrHashTable.hpp:77-92 | copies exactly the characters that are neither space nor tab, in order, and terminates them: no space and no tab is kept, and every other character as often as it occurs |
| StrHashTables.StripDropsBlanks | src/StrHashTable.hpp:77-92 | the stripped text holds no space and no tab, and every other character as often as the text |
| StrHashTables.StripAppend | src/StrHashTable.hpp:77-92 | stripping keeps the order: of two texts one after the other it is one stripped text after the other |
| StrHashTables.BlanksDoNotCount | src/StrHashTable.hpp:77-92 | so a space or tab anywhere in a key makes no difference |
| StrHashTables.StrHashTable.Add | src/StrHashTable.hpp:131-150 | a call is accepted while the counter stays below the size, and an accepted pair is appended to the chain of its bucket, all other chains unchanged |
| StrHashTables.StrHashTable.Setup | src/StrHashTable.hpp:107-129 | a table made from given keys and values holds them in order |
| StrHashTables.StrHashTable.Get | src/StrHashTable.hpp:163-191 | answers the first entry of the chain that begins with the stripped key, and the default value for an empty key in an unused bucket |
| StrHashTables.SameEntryIffNotShadowed | src/StrHashTable.hpp:171-187 | that entry is the first one with exactly this key if and only if no longer key that begins with it stands before |
| StrHashTables.GetIsLookup | src/StrHashTable.hpp:163-191 | so for a non-empty key not hidden by a longer one, the table answers like a map in which the first insertion wins |
| StrHashTables.PrefixesAreFound | src/StrHashTable.hpp:176-181 | a key that was never inserted is answered with the value of a longer one |
| StrHashTables.ChainsHoldAll | src/StrHashTable.hpp:131-150 | the chains together are exactly as long as the list of accepted insertions |
| FnvHash.FormsAgree | src/compile_time_string_hash.hpp:60-67 | the recursion on a terminated text and the recursion on a length agree |
| FnvHash.MultiplicationInvertible | src/compile_time_string_hash.hpp:66 | multiplication by the prime modulo 2^32 is undone by 899433627 |
| FnvHash.StaysApart | src/compile_time_string_hash.hpp:64-67 | two different states stay different under any common continuation |
| FnvHash.OneDifferenceSeparates | src/compile_time_string_hash.hpp:64-67 | two texts of equal length that differ in exactly one character never hash alike |
| FnvHash.AgreesOnAscii | src/compile_time_string_hash.hpp:60-67 | on 7-bit text the hash is FNV-1a |
| FnvHash.DiffersOnOneForeign | src/compile_time_string_hash.hpp:62-66 | on a text with exactly one other character it is not, because the signed character is extended before the exclusive or |
| FnvHash.AgreesIffOpposite | src/compile_time_string_hash.hpp:62-66 | on any text with another character the hash is FNV-1a if and only if, before the last such character, the two computations have states equal in the low byte and opposite in all other bits |
| FnvHash.AgreesOnTwoForeignIff | src/compile_time_string_hash.hpp:62-66 | for two such characters side by side that means: if and only if the low byte of the state before them, exclusive or the first octet, is 0x80 |
| FnvHash.MeetsAgain | src/compile_time_string_hash.hpp:62-66 | the bytes 02 C5 80 are such a text, from the standard basis: 7-bit is sufficient for FNV-1a and not necessary |
| MagicEnum.EnumTraits.BuildValues | src/magic_enum.hpp:248-262 | the filled array is the list of valid values |
| MagicEnum.ValuesAreTheValidOnes | src/magic_enum.hpp:248-262 | that list holds exactly the valid values, in strictly ascending order |
| MagicEnum.EnumTraits.BuildIndexes | src/magic_enum.hpp:294-300 | each entry is the number of valid values below, or the sentinel |
| MagicEnum.SentinelIsNoIndex | src/magic_enum.hpp:288-300 | the sentinel of the index type is never a real index, so the counter never wraps |
| MagicEnum.EnumTraits.IndexMeans | src/magic_enum.hpp:365-377 | `index` is the place in the list for every valid value and -1 for everything else, in the sparse and in the dense layout |
| MagicEnum.EnumTraits.IndexAndValueInverse | src/magic_enum.hpp:365-385 | `index` and `value` are inverse to one another |
| MagicEnum.EnumTraits.Name | src/magic_enum.hpp:387-393 | `name` is the reflected name of a valid value and empty for everything else |
| MagicEnum.EnumTraits.CastByNames | src/magic_enum.hpp:443-448 | the cast through the list of names finds the smallest value of that name or says there is none |
| MagicEnum.EnumTraits.CastByRange | src/magic_enum.hpp:449-455 | the cast through the range does the same for every non-empty name, and takes the empty name for a hole of the range if there is one |
| MagicEnum.OneAnswer | src/magic_enum.hpp:440-459 | there is only one such answer, so the two strategies agree on non-empty names |

## Left out

- Look-ahead, back references, named groups and Unicode properties of the regex engine: trees, matcher and parser actions for them are not modelled. The grammar has their rules, so the theorem that the parser always decides covers them.
- Parser actions for character sets, hexadecimal codes, control characters and named classes: an input that reaches one is left to the subject `Outside`, and the printed patterns do not contain them. That the machine accepts exactly the right texts and which actions it runs on them, PatternAcceptance.ParserIsExact covers. The matcher, FIRST sets and collision test do cover sets.
- An empty alternative before the last one, which the grammar rejects, and a printed `{n}` with a mode, which it rejects too, are no patterns of the printer.
- RegexPossessive.BuildsAgree: asks that no `^` comes after a greedy repeat; the source rewrites there as well and loses matches, as RegexLimits.CaretAfterRepeatIsLost shows.
- RegexWays.FirstWayTaken: asks that unbounded repeats consume, that bounds are ordered and that no group number occurs twice, as they do in parsed patterns.
- RegexExact.MatchIsExact: repeat bodies must have one fixed positive width and no possessive repeat may occur, because iterations are atomic; RegexLimits.IterationsAreAtomic shows what happens otherwise.
- PatternMeaning.PatternMeans: asks that the counts of counted repeats fit; for single characters PatternMeaning.ExactCountKeptIff shows that an exact count needs this.
- RegexPossessive.MatchUnchanged: the capacity of the collision array is no condition; a pattern such as `\W*x`, whose repeat body holds a nested negated set, overflows it as PointSets.NonWordOverflows shows and does not compile in the source, so for it the statement says nothing about a program. Bodies whose negated sets hold single characters and ranges only always fit, by PointSets.FlatBodyFits.
- PatternExact.ParsedMatchIsExact: the same, for plain patterns with the class `\W` in a greedy repeat.
- PointSets.CollidesOnPoints: asks that the capacity suffices; the source does not check it, and PointSets.NonWordOverflows shows a list for which it does not suffice.
- The result object of a match beyond its groups: iterators, string views, conversions and the range interface.
- SkylinePacker.Context.FindMinY: for a window that starts inside a segment on the floor, the waste is the figure the scan computes and not an area; and integers are unbounded, so an overflow of the 32-bit sums of the source is not modelled.
- SkylinePacker.Context.FindBestPos: with the best-fit rule the rounded width must not exceed the target, as the source walks past the sentinel otherwise.
- The build with 32-bit coordinates (`STBRP_LARGE_RECTS`) and the debug walk over the lists.
- The UTF-16 branch of `fixed_string` (it combines surrogates without the offset 0x10000) and its branches for plain bytes and wide characters.
- StrHashTables.StrHashTable.Add: asks for room in the chain and for stripped keys below 255 characters, as the source writes outside its arrays otherwise; the counter is unbounded.
- StrHashTables.StrHashTable.Put: the character by character copy of a key into its bucket is an assignment of the key.
- Copying a `StrHashTable`, and the scaling of hash values to bucket numbers with floating point.
- The 64-bit form of the hash, and hashing of a null pointer.
- Reflection itself: how `magic_enum` finds names in the text of a function signature; an enumeration is given by its names. Flags, iteration over entries and stream output are left out too.
- All device, window and user interface code, XML processing, the arena containers and the code generators of the repository.
