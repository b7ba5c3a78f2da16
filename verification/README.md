# Build and lint tooling: a verified model

The repository's build and test tooling is Python: a C++ linter, a resolver for library
dependencies inside the SCons build, a generator of test suites, a report summarizer that drives
test lifecycle tags, a checker that repairs assertion codes in source files, and a pruner for the
build cache.  This project models the algorithmic core of each and proves what it is for.

`dafny verify dfyconfig.toml` checks every file.  Functions and datatypes follow the code that
computes values; classes, arrays and loops follow the code that updates things in place, each
proved equal to a function, and the theorems are about those functions.

* **Bracket matching** (`BracketWords`, `ExpressionMatcher`, `TextOfLines`, `ForwardMatching`,
  `BackwardMatching`, `MatchingRoundTrip`, `TemplateArguments`, `TemplateGrammar`, `TemplateText`,
  `BackwardTemplates`, `TemplateMirror`, `BackwardText`, `AngleRoundTrip`, `TextInside`).  cpplint
  matches brackets with a stack that also holds tentative `<` and `>`, line by line, forwards and
  backwards.  The reference is a grammar of bracket words over the whole text.  From `(`, `[` or
  `{`, the forward matcher finds exactly the group of the grammar that starts there, and fails
  exactly when there is none; the backward matcher finds exactly the group that ends at a closer.
  So each undoes the other.  The unguarded equivalence fails at exactly these ends: a `>` that the
  backward matcher takes for an operator, with a closing bracket as the first thing to its left
  that counts and a group ending in that bracket, as in `(x)->` and `(x) y->`.  From `<` and from
  `>`, a second grammar says exactly which argument lists the two matchers accept, over the
  characters themselves: which `<` and `>` count is told by what stands around them.  The two
  matchers differ there (a run of `<` is read in pairs from the end, a spaced `>=` counts only
  forwards); where no angle is of that kind they undo each other from angles too.
* **Nesting** (`NestingState`, `PreprocessorErasure`, `PreprocessorPoints`, `ScopeTracking`,
  `ClassHeads`).  The brace stack with its `#if` / `#else` / `#endif` checkpoints.  On well-nested
  input it equals running only the lines outside every else arm.  After any lines whatever, inside
  arms and with stray directives, it is what the lines of one choice of arms leave.  At every point
  of properly braced code it is the chain of scopes that enclose the point.  A class head counts
  exactly when it is no template argument and the parentheses opened before it in its block have
  been closed again.
* **Comment removal** (`CommentRemoval`, `CommentText`, `Blanks`).  The in-place removal of
  multi-line comments and its idempotence, with and without an error; which lines open and close
  a comment is told by their characters.
* **Library dependencies** (`DependencyGraph`, `LibdepsOrder`, `LibdepsCorrectness`,
  `LibdepsNameOrder`, `LibdepsConfluence`, `LibdepsEmission`, `LibdepsResolver`, `Names`).  The
  depth-first search over node attributes with its exploring flags and two caches.  A cycle is
  raised exactly when one is reachable, the reported cycle is real and simple, the list is exactly
  what is needed in link order and, within that, in the order that the names of the dependencies
  ask for; caches and flags never show, and the order of emission does not matter.
* **Suites** (`SuiteSplit`, `GreedyDivision`, `SuiteDivider`).  The greedy divider is the only
  division in which every suite is full, the smallest in order and within twice any packing.  That a test's recorded maximum dominates its variants is
  false when a variant carries the reserved name; for all non-negative durations it holds if and
  only if no variant is recorded in front of such a one, and for all durations whatsoever if and
  only if there is none.
* **Reports and tags** (`ReportEntries`, `ReportGroups`, `ReportRegrouping`, `ReportPeriods`,
  `ReportCombinations`, `TagUpdateCascade`, `TagWindows`, `LifecycleTags`, `FailureRates`,
  `TagUpdate`, `TagChangelog`).  Regrouping a daily summary loses nothing, selecting its recent
  part is summarizing the recent entries, periods tile time, tags are read back as they were
  written, and the changelog is the net difference over any run.  The whole update of the tags, in
  which each level works on the summaries of the one before, does what the numbers of runs and
  failures of the report's own entries say.  Periods of exactly one day do not tile, because the clamping of
  the dates is skipped for them: `n`-day periods tile for every report if and only if `n > 1`.
* **Error codes** (`ErrorCodes`, `TextRepair`, `ZeroCodeRepair`).  What the checker reports, and
  the right-to-left repair of zero codes.  The repair can stop with an index error: the printed
  line number counts the lines of `splitlines`, which ends a line at a lone carriage return, and
  indexes the list that `readlines` returns, which does not.  The model keeps this and says
  exactly when it happens and what has been repaired by then.
* **Cache pruning** (`CachePrune`).  Least recently used first and no more than needed, whatever
  file operations fail.

`Sequences`, `Sorting` and `Options` hold what several of these share.

Where the code and its comments disagree, the model follows the code: `unreliable_test` and
`reliable_test` are described with strict comparisons and use `>=` and `<=`.

## Model

| member | source | states |
|---|---|---|
| `BracketWords.ScanFindsTheGroup` | buildscripts/cpplint.py:1378-1453 | A plain stack machine started at an opener stops at `e` if and only if the text from the opener to `e` is one group of the bracket grammar |
| `BracketWords.ScanReturnsIffBalanced` | buildscripts/cpplint.py:1378-1453 | The machine ends with its starting stack if and only if the text is balanced in the grammar |
| `BracketWords.ScanFindsTheGroupBackwards` | buildscripts/cpplint.py:1500-1574 | The same for the machine on the mirrored text, started at a closer |
| `BracketWords.GroupMirrored` | buildscripts/cpplint.py:1500-1574 | Reversing a text and flipping its brackets maps groups to groups, both ways |
| `ExpressionMatcher.FindEndOfExpressionInLine` | buildscripts/cpplint.py:1378-1453 | The loop over a line, with its look-behind for `operator`, `<<`, `->` and its lazy dropping of `<`, computes the scan function |
| `ExpressionMatcher.CloseExpression` | buildscripts/cpplint.py:1456-1497 | The loop over the lines, with its early exit, computes `Close`, including what is returned on failure |
| `ExpressionMatcher.FindStartOfExpressionInLine` | buildscripts/cpplint.py:1500-1574 | The backward loop, which skips two characters at `->` and at operators, computes the backward scan |
| `ExpressionMatcher.ReverseCloseExpression` | buildscripts/cpplint.py:1577-1612 | The backward loop over the lines computes `Reverse`, including what is returned on failure |
| `ForwardMatching.ForwardStepSimulates` | buildscripts/cpplint.py:1391-1453 | Erasing the tentative `<` from the stack turns every step into a step of the plain machine; from a `<` start, a `;` that does not fail is inside a bracket |
| `ForwardMatching.ForwardFromSimulates` | buildscripts/cpplint.py:1391-1497 | The simulation carried over all remaining characters and lines |
| `ForwardMatching.CloseIsPlainMatching` | buildscripts/cpplint.py:1456-1497 | From `(`, `[` or `{`, the answer is that of the plain machine on the concatenated text: the first balanced position, the first mismatch, or the end |
| `ForwardMatching.CloseIffGroup` | buildscripts/cpplint.py:1456-1497 | The place returned is (line, q) if and only if the text up to there is one group of the grammar, whatever angle brackets or semicolons lie between |
| `ForwardMatching.CloseFailsIffNoGroup` | buildscripts/cpplint.py:1456-1497 | The matcher fails if and only if no group starts at the opener, and then returns the line count and -1 |
| `BackwardMatching.BackwardStepSimulates` | buildscripts/cpplint.py:1513-1574 | Erasing the tentative `>` turns every backward step into a step of the plain machine on the mirrored text |
| `BackwardMatching.BackwardFromSimulates` | buildscripts/cpplint.py:1513-1612 | The backward simulation over all earlier characters and lines |
| `BackwardMatching.ReverseIsPlainMatching` | buildscripts/cpplint.py:1577-1612 | From a closer, the answer is that of the plain machine on the mirrored text |
| `BackwardMatching.ReverseIffGroup` | buildscripts/cpplint.py:1577-1612 | From a closer, the place returned is (line, p) if and only if the text from there is one group of the grammar |
| `BackwardMatching.ReverseFailsIffNoGroup` | buildscripts/cpplint.py:1577-1612 | From a closer, the matcher fails if and only if no group ends there, and then returns line 0 and -1 |
| `BackwardMatching.MoveTurned` | buildscripts/cpplint.py:1513-1574 | On every token, the backward matcher does what the forward matcher does on the turned token and stack |
| `MatchingRoundTrip.CloseUndoneByReverse` | buildscripts/cpplint.py:1456-1612 | The forward matcher returns (line, q) if and only if the character before q is a closer and the backward matcher from it returns the start |
| `MatchingRoundTrip.ReverseResumes` | buildscripts/cpplint.py:1513-1612 | From a `>` taken for an operator, the backward matcher answers as from the first closing bracket or angle to its left that counts, or gives up if there is none on the line |
| `MatchingRoundTrip.RoundTripIff` | buildscripts/cpplint.py:1456-1612 | Without the test of the end character, the round trip holds for all openers at an end if and only if the end is not such a `>` behind a closer in which a group ends |
| `MatchingRoundTrip.RoundTripFailsWitness` | buildscripts/cpplint.py:1456-1612 | A concrete line on which the unguarded round trip fails |
| `MatchingRoundTrip.ReverseReachesOpenerIff` | buildscripts/cpplint.py:1577-1612 | From a start that is no closer, an opener is reached if and only if the start is such a `>` behind a closer from which it is reached |
| `TemplateArguments.WalkIsBalanced` | buildscripts/cpplint.py:1396-1450 | A walk that returns to its start is balanced and has no semicolon outside all brackets |
| `TemplateArguments.CloseTemplateArguments` | buildscripts/cpplint.py:1396-1450 | A successful close of a `<` that is neither behind `<` nor of `operator<` ends at `>`, with balanced brackets inside and no semicolon at depth zero |
| `TemplateGrammar.CloseIffTemplateGroup` | buildscripts/cpplint.py:1396-1497 | From a `<` that may open an argument list, the place returned is (line, q) if and only if the tokens up to there are `<`, an argument list of the grammar and `>`: angles of the list closed or taken back as shifts, real brackets grouped with anything inside, no semicolon of the list |
| `TemplateGrammar.CloseFailsIffNoTemplate` | buildscripts/cpplint.py:1396-1497 | The matcher fails if and only if no such template group starts at the `<` |
| `TemplateGrammar.FromIsMoves` | buildscripts/cpplint.py:1479-1497 | The search over lines is one run over the tokens of all remaining lines |
| `TemplateGrammar.MovesAbove` | buildscripts/cpplint.py:1396-1450 | What lies below a real bracket on the stack is untouched until that bracket is closed |
| `TemplateText.TokenKinds` | buildscripts/cpplint.py:1396-1450 | What a character is to the forward matcher, by what stands in front of it: a `<` opens unless behind `<` or the word `operator`, a `>` closes unless behind `-` or, one further back, that word |
| `TemplateText.EndsInOperatorIff` | buildscripts/cpplint.py:1406-1434 | The test for `operator` holds exactly of texts that end in the whole word and blanks |
| `TemplateText.CloseIffListText` | buildscripts/cpplint.py:1456-1497 | From a `<` that opens a list, the place returned is (line, q) if and only if the characters up to there are a list: `<`, well-formed contents and a `>` that closes |
| `TemplateText.ArrowClosesNothing` | buildscripts/cpplint.py:1432-1434 | A list never ends at the `>` of an arrow: the character two before the place returned is no `-` |
| `TemplateText.CloseRefuses` | buildscripts/cpplint.py:1474-1477 | At other characters, and at `<<` and `<=`, the matcher fails at once |
| `TemplateText.FrontDecides` | buildscripts/cpplint.py:1396-1450 | On lines without the word, a `<` opens exactly when no `<` is in front of it and a `>` closes exactly when no `-` is |
| `BackwardTemplates.ReverseIffTemplateGroup` | buildscripts/cpplint.py:1513-1612 | From a `>` that is no operator, the place returned is (line, p) if and only if the tokens read back to there are one template group of the same grammar |
| `BackwardTemplates.ReverseFailsIffNoTemplate` | buildscripts/cpplint.py:1513-1612 | The backward matcher fails if and only if no template group is read back from the `>` |
| `BackwardText.IgnoredAngleIff` | buildscripts/cpplint.py:1519-1527 | A `>` is taken for an operator exactly behind `-`, in ` >= `, or behind the word `operator` |
| `BackwardText.ReadBackIsSeen` | buildscripts/cpplint.py:1513-1574 | Reading back any line, a `<` counts exactly when it starts a run of an odd number of them, and a `>` exactly when it is no operator |
| `BackwardText.ReverseIffSeenList` | buildscripts/cpplint.py:1577-1612 | On any lines, from a `>` that counts, the place returned is (line, p) if and only if the text from there, in reading order and with the characters that count, is one template group |
| `TemplateMirror.MirrorTemplate` | buildscripts/cpplint.py:1500-1574 | Without shifts, a template group read from the other end is a template group, both ways |
| `AngleRoundTrip.ReverseIffListText` | buildscripts/cpplint.py:1577-1612 | Where every angle is a bracket in both directions, the backward matcher from `>` finds exactly the lists that the forward one finds |
| `AngleRoundTrip.CloseUndoneByReverseFromAngle` | buildscripts/cpplint.py:1456-1612 | There, from a `<` that is not part of `<=`, each matcher undoes the other |
| `TextInside.FirstMatcherIsPlain` | buildscripts/cpplint.py:1378-1453 | From an opener with an empty stack the line matcher is the plain machine |
| `TextInside.GetTextInside` | buildscripts/cpplint.py:4595-4648 | The independent matcher, which keeps expected closers instead of openers, extracts exactly the text up to where the line matcher ends, and nothing exactly when that fails |
| `NestingState.Nesting.UpdatePreprocessor` | buildscripts/cpplint.py:2318-2372 | Checkpoints are pushed, saved and restored as `Preprocess` says, including directives without an `#if` |
| `NestingState.Nesting.Update` | buildscripts/cpplint.py:2375-2537 | One line changes the stack and the checkpoints as `Step` says |
| `PreprocessorErasure.RunRegion` | buildscripts/cpplint.py:2318-2372 | A well-formed region leaves the checkpoints as they were and the stack as its kept lines alone leave it |
| `PreprocessorErasure.RunArms` | buildscripts/cpplint.py:2318-2372 | However many else and elif arms follow, the stack saved before the first is what is restored |
| `PreprocessorErasure.KeptRegion` | buildscripts/cpplint.py:2318-2372 | The kept lines of a region are those that a scan with a flag per open `#if` finds outside every else arm |
| `PreprocessorErasure.ArmsAreErased` | buildscripts/cpplint.py:2318-2537 | On any well-nested lines, from any state, the run equals the brace effects of the lines outside all else and elif arms, and the checkpoint stack returns to its start |
| `PreprocessorPoints.StackAtPoint` | buildscripts/cpplint.py:2318-2372 | At any point of well-nested lines, inside `#else` and `#elif` arms too, the stack is what the lines on the way leave: an arm starts from the stack before its `#if` |
| `PreprocessorPoints.StraysArePlain` | buildscripts/cpplint.py:2340-2372 | An `#else` or `#endif` outside all conditionals acts as a plain line |
| `PreprocessorPoints.StackAfterAnyLines` | buildscripts/cpplint.py:2318-2372 | After any lines whatever, with strays taken for plain lines, there is such a way to their end, and as many checkpoints are left as conditionals are open |
| `PreprocessorPoints.ScopesInsideArms` | buildscripts/cpplint.py:2318-2537 | Inside arms, too, the stack is the chain of scopes that enclose the point |
| `ScopeTracking.EffectIsEvents` | buildscripts/cpplint.py:2375-2537 | Every line acts on the outline of the stack as its heads and braces do one after another, the class head counted exactly when it is accepted |
| `ScopeTracking.CodeRestores` | buildscripts/cpplint.py:2500-2537 | Properly braced code, with forward declarations, leaves the scopes as they were |
| `ScopeTracking.ScopesAtPoint` | buildscripts/cpplint.py:2500-2537 | At any point of such code the scopes have grown by exactly those that enclose the point, in order |
| `ScopeTracking.StackIsEnclosingScopes` | buildscripts/cpplint.py:2318-2537 | Read from the start of a file, over any layout in lines and any preprocessor branches, the stack is the chain of scopes that enclose the point reached, and no checkpoint is left |
| `ScopeTracking.StackIsEnclosingScopesOfText` | buildscripts/cpplint.py:2318-2537 | The same for the text with every class head counted, when no class head stands behind an open parenthesis |
| `ClassHeads.QuietRun` | buildscripts/cpplint.py:2398-2419 | Over any lines without directives, heads and braces, the innermost block's open parentheses grow by those of the lines and nothing below it changes |
| `ClassHeads.HeadCountsIffClosed` | buildscripts/cpplint.py:2398-2466 | After such lines, a class head declares a class if and only if it is no template argument and the parentheses of these lines and its own add up to zero; otherwise only the line's braces act |
| `ClassHeads.OutermostHeadCounts` | buildscripts/cpplint.py:2451-2466 | Outside all blocks every head that is no template argument counts |
| `ClassHeads.ClassIsTracked` | buildscripts/cpplint.py:2468-2482 | The access of a class is the last specifier given, and it is derived exactly when its head has a colon before the brace |
| `ClassHeads.ClassStarts` | buildscripts/cpplint.py:2451-2482 | A struct starts public and a class private, unless the line says more |
| `ClassHeads.AssemblyStarts` | buildscripts/cpplint.py:2407-2416 | Inline assembly starts on an `asm` line that leaves exactly one parenthesis open, and on no other |
| `ClassHeads.AssemblyLastsWhileOpen` | buildscripts/cpplint.py:2407-2419 | It lasts while parentheses are open, and the line that closes the last one ends it |
| `ClassHeads.BraceStarts` | buildscripts/cpplint.py:2500-2522 | A brace behind `asm` starts a block of assembly, any other brace an ordinary or linkage block |
| `ClassHeads.AssemblyBlockLasts` | buildscripts/cpplint.py:2407-2419 | A block of assembly stays one, whatever parentheses follow |
| `CommentRemoval.FindNextMultiLineCommentStart` | buildscripts/cpplint.py:1225-1233 | The first line from the given one that opens a comment and does not close it, or the line count |
| `CommentRemoval.FindNextMultiLineCommentEnd` | buildscripts/cpplint.py:1236-1242 | The first line from the given one that ends with the end marker, or the line count |
| `CommentRemoval.RemoveMultiLineCommentsFromRange` | buildscripts/cpplint.py:1245-1250 | The range becomes dummy lines and every other line stays |
| `CommentRemoval.RemoveMultiLineComments` | buildscripts/cpplint.py:1253-1266 | The lines become those in which exactly the lines of finished comments are dummies, as a state per line defines them; the error names the line that opens an unfinished comment |
| `CommentRemoval.SecondPassIsIdle` | buildscripts/cpplint.py:1253-1266 | Without an error no line opens an unfinished comment any more, and a second pass changes nothing |
| `CommentRemoval.SecondPassRepeatsError` | buildscripts/cpplint.py:1253-1266 | With an error a second pass still changes nothing and reports the same line |
| `CommentText.StripIgnoresBlanks` | buildscripts/cpplint.py:1225-1242 | Blanks around a line do not matter |
| `CommentText.OpensIff` | buildscripts/cpplint.py:1225-1233 | A line opens a comment if and only if, behind blanks, it starts with the marker and has no end marker after it |
| `CommentText.ClosesIff` | buildscripts/cpplint.py:1236-1242 | A line closes a comment if and only if an end marker with nothing but blanks behind it is on it |
| `LibdepsCorrectness.CycleIffCyclic` | site_scons/libdeps.py:115-151 | A cycle is raised if and only if some closed walk of non-Private edges is reachable from a non-Interface direct dependency |
| `LibdepsCorrectness.ReportedCycleIsReal` | site_scons/libdeps.py:118-146 | The reported nodes are a closed chain of non-Private edges, first equal to last and nothing else repeated, and it is reachable |
| `LibdepsCorrectness.ListIsRequiredInLinkOrder` | site_scons/libdeps.py:115-151 | The list holds exactly the required libraries, each once, and every library before all that it depends on through non-Private edges |
| `LibdepsCorrectness.NotInOwnListWhenIgnored` | site_scons/libdeps.py:73-77 | When every dependency is public, the target is not in its own list |
| `LibdepsNameOrder.ListIsInNameOrder` | site_scons/libdeps.py:95-151 | For every dependency of the target, the libraries that no dependency named before it reaches precede all those that one does |
| `LibdepsNameOrder.ListIsInNameOrderBelow` | site_scons/libdeps.py:118-151 | The same among the children of a library that is the target's only dependency |
| `LibdepsNameOrder.ChildrenInNameOrder` | site_scons/libdeps.py:118-142 | In any visit of any run, what a child named before another reaches is finished before what only later ones reach |
| `Names.NameLeIsLexicographic` | site_scons/libdeps.py:95-101 | Names are compared as Python compares strings: a beginning first, else by the first difference |
| `LibdepsConfluence.SortedUnique` | site_scons/libdeps.py:95-101 | Two lists sorted by name with the same members are equal when names tell nodes apart |
| `LibdepsConfluence.VisitOrderIsUnique` | site_scons/libdeps.py:95-101 | The order in which dependencies are visited does not depend on the order in which they were appended |
| `LibdepsConfluence.OrderDoesNotMatter` | site_scons/libdeps.py:103-151 | Two graphs with the same dependencies in different orders give the same list or the same cycle |
| `LibdepsEmission.EmittedIsTotal` | site_scons/libdeps.py:229-235 | After any emissions a node has exactly the dependencies emitted for it, counted with repetition |
| `LibdepsEmission.EmissionOrderDoesNotMatter` | site_scons/libdeps.py:229-275 | Permuting the emissions changes no answer when node names are distinct |
| `LibdepsEmission.TargetNeverInOwnList` | site_scons/libdeps.py:73-83 | With emitters that ignore visibility, a target that needs itself gets a cycle and never a list with itself in it |
| `LibdepsResolver.NodeAttributes.AppendDirectLibdeps` | site_scons/libdeps.py:229-235 | Appends for node targets, does nothing for string targets, touches no cache |
| `LibdepsResolver.NodeAttributes.GetSortedDirectLibdeps` | site_scons/libdeps.py:95-101 | The cached or computed answer is the sorted direct list, and the cache stays right |
| `LibdepsResolver.NodeAttributes.VisitNode` | site_scons/libdeps.py:118-142 | The recursive visit over mutable flags and marks computes `Visit`, leaves every exploring flag as it was even when it raises, and terminates because the unexplored nodes shrink |
| `LibdepsResolver.NodeAttributes.GetLibdeps` | site_scons/libdeps.py:103-151 | Cached or not, the answer is the uncached one; a raised cycle caches nothing; flags are clear afterwards |
| `LibdepsResolver.EmitThenQuery` | site_scons/libdeps.py:95-151 | In any run of emissions followed by any queries, including ones that raise, every answer is that of an uncached computation on the emitted graph |
| `SuiteSplit.FirstIsMaximal` | buildscripts/generate_resmoke_suites.py:213-221 | A suite is within the limit or a single oversized test, and the test behind it did not fit |
| `SuiteSplit.SplitKeepsTestsAndLimit` | buildscripts/generate_resmoke_suites.py:204-227 | The suites in a row are the sorted tests, none is empty, and one over the limit is a single oversized test |
| `GreedyDivision.SplitIsGreedy` | buildscripts/generate_resmoke_suites.py:204-227 | Every suite meets the limit if it can, and the first test of the next would have been too much |
| `GreedyDivision.GreedyIsUnique` | buildscripts/generate_resmoke_suites.py:204-227 | Without negative runtimes, any division of the list with this property is the one the loop makes |
| `SuiteSplit.SplitIsSmallestInOrder` | buildscripts/generate_resmoke_suites.py:204-227 | No cut of the same list into parts within the limit has fewer parts |
| `SuiteSplit.SplitWithinTwiceAnyPacking` | buildscripts/generate_resmoke_suites.py:204-227 | If any packing into m bins exists there are at most 2m-1 suites, and none for m = 0 |
| `SuiteDivider.Suite.AddTest` | buildscripts/generate_resmoke_suites.py:258-275 | The test is appended, the total grows by its maximum and every variant by its own runtime |
| `SuiteDivider.DivideTestsIntoSuitesByMaxtime` | buildscripts/generate_resmoke_suites.py:204-227 | The loop over suite objects yields the division, and every suite's totals are those of its tests |
| `SuiteDivider.VariantWithinTotal` | buildscripts/generate_resmoke_suites.py:267-275 | On every variant a suite runs no longer than its total |
| `SuiteDivider.SuiteMeetsLimitOnEveryVariant` | buildscripts/generate_resmoke_suites.py:204-227 | Every suite meets the limit on every variant, or is a single oversized test |
| `SuiteDivider.OrganizeVariants` | buildscripts/generate_resmoke_suites.py:175-188 | The loop records the average per variant and the largest under the reserved key |
| `SuiteDivider.AverageIsMean` | buildscripts/generate_resmoke_suites.py:191-196 | The average times the number of runs is their sum, and it lies between the shortest and the longest |
| `SuiteDivider.OrganizedIsDominated` | buildscripts/generate_resmoke_suites.py:175-196 | Every average is recorded and the reserved key holds the largest of them and zero, if no variant is recorded in front of one with the reserved name and that one has no negative average |
| `SuiteDivider.AlwaysDominatedIff` | buildscripts/generate_resmoke_suites.py:175-188 | For distinct variants in a given order, the reserved key dominates for all non-negative durations if and only if no variant stands in front of the reserved name, and for all durations if and only if none has it |
| `ReportEntries.SumEntries` | buildscripts/lifecycle_test_failures.py:140-173 | The loop over entries with its four sets computes the sum, the empty one included |
| `ReportEntries.SumOfPermutation` | buildscripts/lifecycle_test_failures.py:140-173 | The sum does not depend on the order of the entries |
| `ReportEntries.SumOfSums` | buildscripts/lifecycle_test_failures.py:140-173 | Summing nonempty groups and then their sums is summing all entries, field for field |
| `ReportGroups.SummariesAre` | buildscripts/lifecycle_test_failures.py:264-274 | There is one summary per key that occurs, in ascending key order, and it is the sum of exactly the entries with that key |
| `ReportRegrouping.RegroupingIsLossless` | buildscripts/lifecycle_test_failures.py:264-274 | Grouping a daily summary by fewer components and by any period equals grouping the raw entries so |
| `ReportRegrouping.SummedDates` | buildscripts/lifecycle_test_failures.py:140-173 | Grouping keeps the first start date, the last end date and the counts |
| `ReportPeriods.SummarizeBy` | buildscripts/lifecycle_test_failures.py:213-292 | The method computes the summaries with clamped dates, or reports a bad period |
| `ReportPeriods.PeriodsTile` | buildscripts/lifecycle_test_failures.py:93-138 | For weeks and longer periods every entry's start date is in its summary's range, ranges with the same components are disjoint, and counts add up |
| `ReportPeriods.WeeklySummarySpansAWeek` | buildscripts/lifecycle_test_failures.py:114-138 | A weekly summary starts on a Sunday, a Monday, or the day of the week of the report's start or of the given date, and spans seven days, clamped to the report |
| `ReportPeriods.CountsAreKept` | buildscripts/lifecycle_test_failures.py:213-292 | Whatever the grouping, passes and failures add up to those of the entries |
| `ReportPeriods.DaysTileIffLongerThanOne` | buildscripts/lifecycle_test_failures.py:276-290 | Periods of n days tile every well-dated report if and only if n > 1 |
| `ReportCombinations.SummaryIsSumOfMatching` | buildscripts/lifecycle_test_failures.py:213-292 | Whatever the period, a summary is the sum of exactly the entries with its components that start in its period, and of all of them without a period; only the dates of longer periods differ |
| `ReportCombinations.SummariesDiffer` | buildscripts/lifecycle_test_failures.py:213-292 | No two summaries have the same components and the same period |
| `ReportCombinations.WithoutPeriodDaysAreJoined` | buildscripts/lifecycle_test_failures.py:240-274 | Without a period no two summaries have the same components: all days are joined |
| `ReportCombinations.CombinationOccurs` | buildscripts/lifecycle_test_failures.py:213-292 | Every entry has a summary with its components and a period that it starts in |
| `ReportCombinations.DailyIsOfOneDay` | buildscripts/lifecycle_test_failures.py:243-274 | A daily summary starts on the day that all its entries start on |
| `ReportCombinations.DaysSummarySpansItsPeriod` | buildscripts/lifecycle_test_failures.py:93-112 | A summary of n days starts a multiple of n days after the report and spans n days, clamped to the report |
| `TagUpdateCascade.DailyRegrouping` | buildscripts/update_test_lifecycle.py:352-364 | A level's daily summary computed from the finer level's is the direct one |
| `TagUpdateCascade.DailyKeepsDates` | buildscripts/update_test_lifecycle.py:352-370 | A daily summary keeps the report's start and end date |
| `TagUpdateCascade.SummarizeLevels` | buildscripts/update_test_lifecycle.py:352-364 | All four levels of the cascade equal direct summaries of the original report and count back from its end date |
| `TagWindows.RecentSummaries` | buildscripts/update_test_lifecycle.py:366-383 | The summaries of the recent part of a level's daily summary are those of the recent entries |
| `TagWindows.RecentSummariesAmong` | buildscripts/update_test_lifecycle.py:385-399 | The same for the entries of a window with given combinations |
| `TagWindows.RecentCombinations` | buildscripts/update_test_lifecycle.py:371-379 | The combinations that ran recently according to a level are those of the recent entries |
| `LifecycleTags.TagRoundTrip` | buildscripts/update_test_lifecycle.py:229-242 | Reading back the tag of a summary gives its names if and only if none is empty or contains a bar |
| `LifecycleTags.TagComponentsAreClean` | buildscripts/update_test_lifecycle.py:427-440 | Whatever the tag, no empty component and none with a bar is read from it |
| `LifecycleTags.TagIsSplitIff` | buildscripts/update_test_lifecycle.py:427-440 | Exactly the tags made of the word and one to three parts without bars are split, into these parts |
| `LifecycleTags.UpdateLifecycle` | buildscripts/update_test_lifecycle.py:245-260 | A pass over summaries makes exactly the edits of those that meet its test, in order |
| `LifecycleTags.PassEditsExactly` | buildscripts/update_test_lifecycle.py:245-260 | Afterwards exactly the tags of the summaries that meet the test have been added, or removed |
| `LifecycleTags.RemoveStaleTags` | buildscripts/update_test_lifecycle.py:409-424 | Exactly the stale tags of the given tests are gone, through the changelog |
| `LifecycleTags.FreshTagSurvives` | buildscripts/update_test_lifecycle.py:382-424 | If every entry summed up at a level has a combination that ran, the tag of each summary is not stale at that level, if its names are clean |
| `LifecycleTags.RunConcat` | buildscripts/update_test_lifecycle.py:401-424 | Consecutive passes make one run of edits |
| `FailureRates.FailRateIsShare` | buildscripts/lifecycle_test_failures.py:81-91 | The rate times the runs is the number of failures, it lies between zero and one, and is zero without runs |
| `FailureRates.MeetsIff` | buildscripts/update_test_lifecycle.py:198-213 | The two tests, told by numbers: enough runs and at least the share of failures, or too few runs or at most the share |
| `FailureRates.UnreliablePassTags` | buildscripts/update_test_lifecycle.py:401-403 | A tag is there after the adding pass exactly when it was or belongs to a summary with enough runs and failures |
| `FailureRates.ReliablePassUntags` | buildscripts/update_test_lifecycle.py:405-407 | A tag is there after the removing pass exactly when it was and belongs to no summary with too few runs or few enough failures |
| `FailureRates.MeetsBothIff` | buildscripts/update_test_lifecycle.py:198-220 | With rates in the order that is demanded, a summary meets both tests only if it ran too little for the second or the rates are equal and just its own |
| `TagUpdate.LevelIsOfReport` | buildscripts/update_test_lifecycle.py:352-399 | What a level computes from its daily summary (windows, combinations, summaries) is what the report's entries give |
| `TagUpdate.UpdateLevel` | buildscripts/update_test_lifecycle.py:366-424 | A level tags what is unreliable, then untags what is reliable, then what no longer runs |
| `TagUpdate.UpdateTags` | buildscripts/update_test_lifecycle.py:341-424 | All four levels, each summarized from the one before, do to the tags what the report's entries say, as one run of edits |
| `TagUpdate.TagAfterLevel` | buildscripts/update_test_lifecycle.py:366-424 | A tag is there after a level if and only if it was or is of an unreliable summary, is of no reliable one, and is not stale |
| `TagUpdate.UnreliableIsTagged` | buildscripts/update_test_lifecycle.py:366-424 | What is unreliable and not reliable is tagged after its level, if its names are clean |
| `TagChangelog.PutIsFlat` | buildscripts/update_test_lifecycle.py:514-521 | The nested dictionary update is one flat update and leaves no empty dictionary |
| `TagChangelog.CancelIsFlat` | buildscripts/update_test_lifecycle.py:499-512 | Cancelling removes one tag and every dictionary this empties, and nothing else |
| `TagChangelog.LogsAreNetDifference` | buildscripts/update_test_lifecycle.py:493-530 | After any edits, added is exactly current minus initial and removed initial minus current, each with the rate of the edit that last changed the tag |
| `TagChangelog.TagsConfigWithChangelog.AddTag` | buildscripts/update_test_lifecycle.py:514-521 | The wrapper's state changes by one flat addition and no dictionary is left empty |
| `TagChangelog.TagsConfigWithChangelog.RemoveTag` | buildscripts/update_test_lifecycle.py:523-530 | The wrapper's state changes by one flat removal and no dictionary is left empty |
| `ErrorCodes.Checker.ReadErrorCodes` | buildscripts/errorcodes.py:125-177 | Every location is recorded; the list of errors, in order and with repetitions, is what each location adds and the first zero; its members are exactly the repeated codes, the first use of each too large code, and the zeros |
| `ErrorCodes.NoErrorsIffClean` | buildscripts/errorcodes.py:119-177 | There are no errors if and only if codes are distinct, none is spelled 0 and none is too large |
| `ErrorCodes.EveryZeroIsReported` | buildscripts/errorcodes.py:133-161 | Every location with code 0 is among the errors |
| `ErrorCodes.GetNextCode` | buildscripts/errorcodes.py:106-116 | Greater than every code by reduction, or a type error with fewer than two locations |
| `ErrorCodes.NumeralRoundTrip` | buildscripts/errorcodes.py:106-116 | A printed code reads back as the same number |
| `ErrorCodes.NumeralIsPrintedIff` | buildscripts/errorcodes.py:106-116 | A numeral reads as a number that prints as the same numeral if and only if it has no leading zero |
| `TextRepair.EditIsReplacement` | buildscripts/errorcodes.py:205-212 | An edit left of all earlier edits is one more replacement of the original text |
| `TextRepair.RenderIsPieces` | buildscripts/errorcodes.py:205-212 | A repaired text is the original, character by character, with just the replaced ones exchanged |
| `TextRepair.RenderKeepsLines` | buildscripts/errorcodes.py:189-217 | Replacements by numerals keep the number of lines that are read back |
| `TextRepair.LineIndexInBounds` | buildscripts/errorcodes.py:82-97 | Without lone carriage returns the line number of an offset indexes the lines read |
| `ZeroCodeRepair.ReplaceBadCodes` | buildscripts/errorcodes.py:180-217 | The zero assertion and the second line lookup never fail; the repair finishes exactly when every line number is in range, and then each file is its original with only the listed zeros replaced; otherwise it stops at the last location out of range with exactly the later ones repaired |
| `ZeroCodeRepair.ZeroErrorsPointAtZeros` | buildscripts/errorcodes.py:66-79 | A location whose code stands in its file where it was parsed, and is zero, points at a zero |
| `ZeroCodeRepair.NewCodesAreDistinct` | buildscripts/errorcodes.py:189-217 | New codes, and their numerals, are pairwise distinct and at least the next code |
| `ZeroCodeRepair.CodesFollowLocations` | buildscripts/errorcodes.py:189-217 | Later locations, by file name and offset, get smaller codes, and all are among the next ones |
| `ZeroCodeRepair.WithoutLoneReturnsDone` | buildscripts/errorcodes.py:82-97 | In a file without lone carriage returns every line number is in range |
| `ZeroCodeRepair.LoneReturnStopsRepair` | buildscripts/errorcodes.py:189-200 | On a file with one parsed zero behind a lone carriage return the repair stops and changes nothing |
| `ZeroCodeRepair.ZeroErrorsAreZeroLocations` | buildscripts/errorcodes.py:125-190 | What is repaired is every zero location, when zeros are spelled 0 |
| `ZeroCodeRepair.FixZeroCodes` | buildscripts/errorcodes.py:220-250 | Reading, choosing the next code and repairing together replace every zero by a code above all existing ones |
| `CachePrune.CollectCacheContents` | buildscripts/scons_cache_prune.py:28-56 | The items are the readable files and the total is the sum of their sizes |
| `CachePrune.ItemsAre` | buildscripts/scons_cache_prune.py:28-56 | Every readable file is an item as often as it is listed, and nothing else is |
| `CachePrune.ItemsConcat` | buildscripts/scons_cache_prune.py:28-56 | The items keep the order of the listing |
| `CachePrune.TargetIsShare` | buildscripts/scons_cache_prune.py:59-79 | The target is the ratio's share of the quota: all for one, none for zero, linear between |
| `CachePrune.PrunedStep` | buildscripts/scons_cache_prune.py:79-100 | Trying the oldest kept item keeps the whole invariant, whether or not its rename and removal succeed |
| `CachePrune.PruneCache` | buildscripts/scons_cache_prune.py:59-104 | Tried items are no newer than kept ones and tried oldest first; each is tried at a size of at least the target; the size is the old one less what was deleted; the result says whether it is below the target; and without failures and with a positive target it is |

## Left out

- SCons objects, path and suffix handling, system libraries, link flags and `LIBDEPS_DEPENDENTS`
  in `libdeps.py`: nodes are names with attributes.
- Appending dependencies after the first query: the emission phase of SCons ends before queries.
- All other checks of cpplint, the cleansing of raw strings and of comments within a line, and
  the error messages of the checks that are modelled.
- `NestingState.Nesting.Update`: the line is given as what the regular expressions find in it; `previous_stack_top`,
  indentation of classes, their last line and access-label messages are not modelled.
- `CommentRemoval.RemoveMultiLineComments`: the error carries the line and not the category and text.
- The sorting of tests by runtime before they are divided, the runtime of hooks, and the check
  that a test file still exists.
- `SuiteDivider.OrganizeVariants`: averages are exact reals, so the rounding of floating point is not modelled.
- `ReportPeriods.SummarizeBy`: components are a datatype, so misspelled and date or count components do not occur,
  week starts are ones the code knows, and dates beyond the calendar's last year do not overflow.
- The order of keys of mixed kinds: the theorems hold for every total order on keys.
- The checks of the configuration of `update_tags`, and `clean_up_tags`.
- `TagUpdate.UpdateTags`: the report has an entry, tests are given by name and counts are not negative.
- The tags file itself (`TagsConfig` is not part of this model): it is a set of tags that reports
  whether an edit changed it.
- `LifecycleTags.UpdateLifecycle`: summaries name their test, as every level of the cascade groups by test.
- `LifecycleTags.RemoveStaleTags`: the tags of a test are taken in any order, and the combinations that ran are given.
- `ErrorCodes.Checker.ReadErrorCodes`: the parsing of source files and everything printed is left out.
- `ErrorCodes.GetNextCode`: the recorded locations are given; reading the sources first when there are none is left out.
- `ZeroCodeRepair.ReplaceBadCodes`: zero locations have distinct offsets, as one parse of the files gives them; files are
  texts, not encoded bytes.
- `CachePrune.PruneCache`: which of two items with the same access time is tried first.
- Scripts that talk to the network, to git, JIRA or the build farm, and the packaging scripts:
  input and output around libraries that are not shown.
