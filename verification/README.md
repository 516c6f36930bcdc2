# Verified models of ogygia's core logic

Ogygia keeps NixOS hosts on a tracked branch: a dashboard draws the deployed commits and archives
them, a daemon updates hosts and runs canary trials, and an evaluator for the Nix language
computes derivations and store objects. This project models the logic of those programs that is
hardest to get right and proves what it is for. `dafny verify dfyconfig.toml` checks all of it.

| files | what they model |
|---|---|
| `commit_graph`, `timeline_types`, `timeline_listing`, `commit_order`, `topo_order`, `graph_layout`, `graph_parents`, `timeline` | the dashboard's picture of the commit graph: which commits and edges, in which order, on which lanes, and when the picture is the ancestry relation |
| `aterm`, `platform_reader`, `aterm_parser` | the derivation printer, which leaves the platform unescaped, the reader that recovers it from both ends, and a parser of the grammar that both are measured by |
| `nix_lang`, `nix_compile`, `nix_compiler`, `named_eval`, `nix_eval`, `nix_simulation`, `nix_names` | name resolution: scopes compiled to depths and slots, that this preserves the meaning names have, and laws that fix this meaning |
| `nix_scoping`, `nix_lazy`, `nix_laziness`, `nix_program` | the evaluator's frames, whose slots hold values made at once where that is free, and that it computes exactly what the names mean |
| `attr_paths`, `attr_lookup` | merging nested attribute paths, as a commutative and associative join, and what is then found where |
| `attr_arrays` | attribute sets as sorted arrays, `//` and lookup |
| `source_offsets` | text inserted before parsing, and the way back to source offsets |
| `texts`, `float_literals`, `float_values` | which float literals underflow, and what their values are |
| `mem_tree`, `paths`, `nar`, `nar_reader`, `nar_dump` | archives in memory as flat maps of paths, canonical paths, the NAR serialisation ("Nix Archive" section of the Nix manual) and reading it back |
| `bits`, `base32`, `hash_texts`, `byte_texts`, `store_hashes` | Nix base-32, base 64, the hash formats, and what a hash's text says apart from any code that reads it |
| `civil_days` | days since the epoch of a calendar date |
| `landed`, `engine`, `engine_runs`, `engine_laws` | merge detection by change-id, one update cycle call by call, runs of cycles, pushes and reboots, and what a cycle does case by case |
| `archive_branch` | the compare-and-swap loop on the archive branch |
| `wrappers` | optional values and results |

Conventions. An object id is a number standing for its hex text. A byte of a text is the character
with its code; the bytes of a digest are numbers below 256. Methods follow the loops and updates of
the source and are proved against functions or relations; the lemmas are about those. What the
programs ask of git, of `nix` or of the system enters as a parameter: the repository is a finite
acyclic graph that only grows, a walk is any enumeration of the commits it shows, a merge base is
any common ancestor, and each call of an update cycle has a fate, which may be to fail after part of
its work.

Where the code and what it promises differ:

- A literal such as `0.01e-9223372036854775808` has a scale that wraps around in 64 bits, and its
  underflow is not reported (`FloatLiterals.UnderflowDecided` gives the exact condition; a build
  that checks overflow panics there instead).
- The daemon reads the next-boot commit from the profile and never from the boot loader. When the
  profile was set and the switch after it failed, later cycles that find the profile right leave the
  loader as it is, and still report the floor or the tip as what a reboot lands on.
  `EngineRuns.LeaveLoaderBehind` and `EngineRuns.SmallTrial` show such a host; when the report or
  the boot default is right is said by `EngineRuns.HeldReportsBoot`, `EngineRuns.UpToDateReportsBoot`,
  `EngineRuns.StartStagesFloor`, `EngineRuns.TrialBootsTracked`, `EngineRuns.ManualBootsTip` and
  `EngineRuns.PersistentTrialStarts`, each with an exact condition.
- Where a commit still to land is the same change as one of the common history, the answer of
  `changes_landed` can depend on which of several merge bases git finds
  (`Landed.BaseMattersWhenChangesRepeat`); otherwise it does not (`Landed.BaseIsImmaterial`).
- When the tracked tip is also the first commit and not deployed, `get_commits_info` lists it twice
  (`TimelineListing.Listing`). Its second row has no edges and edges to it end at one row, so the
  picture is not that of the ancestry where anything listed is its ancestor or descendant
  (`Timeline.DeployedTimeline` gives the exact condition, `Timeline.RepeatedTipIsNotJoined` a case).

## Model

| member | source | states |
|---|---|---|
| CommitGraph.DescendsTransitive | src/ogygia-updated/src/repo.rs:69-79 | ancestry, the relation every question about commits is asked of, is transitive |
| CommitGraph.DescendsAntisymmetric | src/ogygia-updated/src/repo.rs:69-79 | two commits that descend from each other are one |
| CommitGraph.DescendsStable | src/ogygia-updated/src/repo.rs:47-54 | fetching more objects changes no ancestry between commits already there |
| TopoOrder.CountChildren | src/ogygia-dashboard/src/graph.rs:18-25 | each counter is the number of links from commits that are not placed yet |
| TopoOrder.VisitParents | src/ogygia-dashboard/src/graph.rs:31-46 | placing a commit keeps every counter exact, pushes only parents whose last child it was, and leaves the first parent that became placeable on top of the stack |
| TopoOrder.PlacedNotBelowCycle | src/ogygia-dashboard/src/graph.rs:11-53 | any order with children first leaves out every commit on a cycle or reached from one through parents |
| TopoOrder.UnplacedIsBelowCycle | src/ogygia-dashboard/src/graph.rs:11-53 | and where no more commit can be placed, each one left out lies on a cycle or below one |
| TopoOrder.Kahn | src/ogygia-dashboard/src/graph.rs:31-53 | the order has each commit at most once, exactly those not below a cycle, children before parents, heads in input order, and a commit's first placeable parent right after it |
| TopoOrder.TopoOrder | src/ogygia-dashboard/src/graph.rs:11-53 | the commits returned are those of the input taken in such an order, of their parent links and of the commits themselves |
| TopoOrder.OrdersCommits | src/ogygia-dashboard/src/graph.rs:11-53 | an order of parent links is one of the commits: each once but for those below a cycle, children first, those without children as listed, and next after a commit its first listed parent that can be placed |
| CommitOrder.FirstParentFollows | src/ogygia-dashboard/src/graph.rs:31-46 | where no hash is listed twice, right after a commit comes the first of its parents that is listed and whose listed children have all come |
| CommitOrder.ChildrenFirst | src/ogygia-dashboard/src/graph.rs:31-46 | and no commit comes before one that has it as a parent |
| GraphLayout.FreeLane | src/ogygia-dashboard/src/graph.rs:209-217 | the lane found is the leftmost free one outside those to avoid, and a lane is added only when there is none |
| GraphLayout.Incoming | src/ogygia-dashboard/src/graph.rs:112-118 | the lanes that end at a commit are found, all of them, the leftmost first |
| GraphLayout.DrawAbove | src/ogygia-dashboard/src/graph.rs:128-156 | the upper half of a row draws each live lane once: through the row with its own style, into the node, or across to it |
| GraphLayout.DrawBelow | src/ogygia-dashboard/src/graph.rs:158-198 | each parent's edge joins a lane that carries it or opens a free one, no live edge is overwritten, and lanes are added only when the others are in use |
| GraphLayout.DrawRow | src/ogygia-dashboard/src/graph.rs:111-203 | one row is exactly the drawing of the lanes before it, the node and the lanes after it |
| GraphLayout.ParentLinkIsDrawn | src/ogygia-dashboard/src/graph.rs:109-207 | a parent link is one unbroken lane from the child's node through every row between, in one style, to the parent's node |
| GraphLayout.LineIsParentLink | src/ogygia-dashboard/src/graph.rs:109-207 | and every unbroken lane between two nodes is a parent link of that style, to the next commit of that hash |
| GraphLayout.DrawnStarts | src/ogygia-dashboard/src/graph.rs:109-207 | every line that enters a node started at one |
| GraphLayout.DrawnRowsMeet | src/ogygia-dashboard/src/graph.rs:109-207 | what a row draws at its lower edge the next draws at its upper edge |
| GraphLayout.RowWidth | src/ogygia-dashboard/src/graph.rs:87-98 | a row needs no more lanes than were there or than its live edges and parents ask for |
| GraphLayout.WidthIsLeast | src/ogygia-dashboard/src/graph.rs:87-98 | the width is the least number above the node's lane and every lane that a segment touches |
| GraphLayout.Layout | src/ogygia-dashboard/src/graph.rs:109-207 | for every list of commits: lines are exactly the parent links, every line has a start, rows meet, no lane half is drawn twice, the node is where its edges are, and a row is never wider than the peak demand so far |
| GraphParents.Ancestry | src/ogygia-dashboard/src/git.rs:354-361 | the pairs collected are the proper ancestries between shown commits |
| GraphParents.NearestParents | src/ogygia-dashboard/src/git.rs:363-392 | a commit's edges are its nearest shown ancestors, each as often as it is shown, in order of the first real parent that leads to them, elided where they are no real parent |
| GraphParents.EarlierParentFirst | src/ogygia-dashboard/src/git.rs:370-385 | an edge reached through a real parent stands before one reached through neither that nor an earlier one |
| GraphParents.LesserHashFirst | src/ogygia-dashboard/src/git.rs:370-385 | of two edges first reached through the same real parent the one of lesser hash stands first |
| GraphParents.EdgesListedOnce | src/ogygia-dashboard/src/git.rs:363-392 | where no commit is shown twice no edge is listed twice |
| GraphParents.GraphParents | src/ogygia-dashboard/src/git.rs:350-395 | a shown commit the repository lacks is an error, and otherwise every shown commit has its list of edges |
| GraphParents.NoEdgeImplied | src/ogygia-dashboard/src/git.rs:350-395 | no route of several edges leads where an edge does |
| GraphParents.AncestorsReached | src/ogygia-dashboard/src/git.rs:350-395 | following edges reaches every shown proper ancestor |
| GraphParents.ParentMapIsReduction | src/ogygia-dashboard/src/git.rs:350-395 | the edges are the transitive reduction of ancestry on the shown commits |
| GraphParents.ElidedHides | src/ogygia-dashboard/src/git.rs:363-392 | an elided edge passes over a hidden commit, and no edge over a shown one |
| TimelineListing.Listing | src/ogygia-dashboard/src/git.rs:188-250 | the deployed commits, the tip, the first commit and the merge bases that there are, each once, but for a tip that is the first commit too and not deployed, which is listed twice |
| Timeline.Describe | src/ogygia-dashboard/src/git.rs:258-264 | each commit takes its edges out of the map, so a copy of it has none |
| Timeline.NothingLeftOut | src/ogygia-dashboard/src/git.rs:188-288 | the edges have no cycle, so ordering them drops no commit |
| Timeline.PictureIsAncestry | src/ogygia-dashboard/src/git.rs:350-395 | with such edges between commits of one row each and such a drawing, one node is connected down to another exactly when the other commit is a proper ancestor |
| Timeline.AncestryIfRepeatsStandAlone | src/ogygia-dashboard/src/git.rs:252-288 | so the picture is that of the ancestry if and only if no commit listed more than once is an ancestor or descendant of another listed one |
| Timeline.RepeatedTipIsNotJoined | src/ogygia-dashboard/src/git.rs:203-222 | a tip listed for itself and as the first commit is joined in one row only to a deployed commit on top of it |
| Timeline.Timeline | src/ogygia-dashboard/src/git.rs:188-288 | the whole pipeline, for every listing: each commit has as many rows as it is listed, what is connected down is below, and the picture is the ancestry exactly when repeated commits stand alone |
| Timeline.DeployedTimeline | src/ogygia-dashboard/src/git.rs:188-288 | so from the deployed commits on: the one case in which the picture is not the ancestry |
| ATerm.AtermStr | src/ogygia-nix-eval/src/derivation.rs:35-48 | the buffer grows by the quoted and escaped string |
| ATerm.AtermList | src/ogygia-nix-eval/src/derivation.rs:50-63 | and by the bracketed list of the items' texts |
| ATerm.Unparse | src/ogygia-nix-eval/src/derivation.rs:72-116 | the text written is the derivation's, the platform alone unescaped; `ATermParser.DerivationReadBack` says which derivation that text is of |
| ATermParser.DerivationReadBack | src/ogygia-nix-eval/src/derivation.rs:72-116 | a parser of the grammar, with strings unescaped and fields taken by position, reads the text back as the derivation: an output's path, algorithm and hash in that order, keys and values of inputs and environment, sources, platform, builder and arguments |
| ATermParser.QuotedWrites | src/ogygia-nix-eval/src/derivation.rs:35-48 | a string is read back from its escaped form whatever it holds and whatever follows |
| PlatformReader.SkipAterm | src/ogygia-nix-eval-fuzz/src/skip.rs:170-198 | the loops find the end of the string, list or tuple that the grammar says |
| ATermParser.SkipsTerm | src/ogygia-nix-eval-fuzz/src/skip.rs:170-198 | on any text, well formed or not, a term is skipped exactly where that parser reads one, and as far |
| ATermParser.SkipsHead | src/ogygia-nix-eval-fuzz/src/skip.rs:150-157 | and so are the fields before the platform |
| PlatformReader.QuotedSkippable | src/ogygia-nix-eval-fuzz/src/skip.rs:170-198 | whatever follows, exactly a quoted string is skipped |
| PlatformReader.OpeningFound | src/ogygia-nix-eval-fuzz/src/skip.rs:201-212 | read from the end, the quote that opens a string is found by the parity of the backslashes before it |
| PlatformReader.StripEscapedString | src/ogygia-nix-eval-fuzz/src/skip.rs:201-212 | the loop finds the opening quote that the parity rule says |
| PlatformReader.StripListOf | src/ogygia-nix-eval-fuzz/src/skip.rs:222-234 | the loop strips the list that its elements, read from the end, make up |
| PlatformReader.ListStripped | src/ogygia-nix-eval-fuzz/src/skip.rs:222-234 | a written list is stripped exactly, whatever text stands before it |
| PlatformReader.ForwardsToPlatform | src/ogygia-nix-eval-fuzz/src/skip.rs:150-157 | three written fields read forwards lead to the platform's text |
| PlatformReader.BackwardsToPlatform | src/ogygia-nix-eval-fuzz/src/skip.rs:158-165 | three written fields read backwards leave the platform's text, even one that imitates them |
| PlatformReader.PlatformRecovered | src/ogygia-nix-eval-fuzz/src/skip.rs:150-167 | for every derivation and any platform text, what is read between the two ends is the platform, and it is reported exactly when it holds a quote or a backslash |
| PlatformReader.UnescapedPlatform | src/ogygia-nix-eval-fuzz/src/skip.rs:150-167 | the reader answers so for every text, well formed or not |
| PlatformReader.UnparseInjective | src/ogygia-nix-eval/src/derivation.rs:72-116 | equal texts are of equal derivations, in all that is written |
| NixCompile.ScopeOf | src/ogygia-nix-eval/src/compile.rs:1393-1401 | a scope gives each name the slot of its last occurrence, in range |
| NixCompiler.Compiler.ResolveName | src/ogygia-nix-eval/src/compile.rs:707-741 | the loop over the scopes finds what the recursive search does, `skip` scopes out; `NixNames.FreeNames` and `NixSimulation.SearchFindsBinding` say what that is |
| NixCompiler.Compiler.CompileExpr | src/ogygia-nix-eval/src/compile.rs:743-899 | compiling gives the code the scopes determine, and leaves the scope stack as it was, also on an error |
| NixCompiler.Compiler.CompileLambda | src/ogygia-nix-eval/src/compile.rs:960-1033 | defaults and body are compiled in the scope of the parameter's names, which is popped again |
| NixCompiler.Compiler.CompileSet | src/ogygia-nix-eval/src/compile.rs:1281-1381 | a set's values, sources and inherited names are compiled in the scopes that the kind of set calls for |
| NixCompiler.Compiler.CompileLet | src/ogygia-nix-eval/src/compile.rs:1296-1381 | so are those of a `let`, with its body in their scope |
| NixEval.ClimbUp | src/ogygia-nix-eval/src/value.rs:139-147 | the loop reaches the frame that many parents up, if there is one |
| NixSimulation.SearchFindsBinding | src/ogygia-nix-eval/src/compile.rs:707-741 | in every environment chain that matches, the depth and slot found hold what the innermost lexical binding of the name is bound to; a name with none is a constant, or is left to the `with` frames innermost first |
| NixSimulation.SimulatesName | src/ogygia-nix-eval/src/compile.rs:707-741 | a resolved name evaluates to what it means around the skipped scopes |
| NixSimulation.SimulatesWiths | src/ogygia-nix-eval/src/eval/machine.rs:764-795 | looking a name up in the recorded `with` frames is looking it up in the enclosing namespaces, innermost first, errors included |
| NixSimulation.RecursiveSetMatches | src/ogygia-nix-eval/src/compile.rs:1296-1381 | the entries of a recursive set, its `inherit` from outside the frame and its `inherit (from)` through a slot of it, are those of the named frame |
| NixSimulation.PlainSetMatches | src/ogygia-nix-eval/src/compile.rs:1296-1381 | and those of a plain set, whose frame holds only its sources, are those of its definitions |
| NixSimulation.SimulatesPattern | src/ogygia-nix-eval/src/eval/machine.rs:607-672 | a pattern's frame, defaults and `@` name included, binds what the pattern's names mean; missing and unexpected arguments fail alike |
| NixSimulation.Simulates | src/ogygia-nix-eval/src/eval/machine.rs:290-370 | compiled code, in any environment chain that matches the named one, gives the matching value or the same error, step for step; no depth or slot is ever out of range |
| NixSimulation.ProgramMeaning | src/ogygia-nix-eval/src/compile.rs:65-80 | so a whole program does |
| NixSimulation.RejectsOnlyUnbound | src/ogygia-nix-eval/src/compile.rs:707-741 | a name is rejected exactly when nothing binds it, no constant has it and no `with` encloses it |
| NixNames.FreeNames | src/ogygia-nix-eval/src/compile.rs:722-741 | a name that no searched scope binds resolves to true, false or null exactly if it is that word, else to the builtin of that name if there is one, else to the `with`s around it, and is rejected where there are none |
| NixNames.FreeNameMeans | src/ogygia-nix-eval/src/compile.rs:722-731 | and that is what it evaluates to, by its name and compiled |
| NixNames.ConditionChooses | src/ogygia-nix-eval/src/eval/machine.rs:357-364 | the word true chooses the first branch and false the second, where nothing binds them |
| NixNames.CompiledConditionChooses | src/ogygia-nix-eval/src/eval/machine.rs:357-364 | and so once compiled |
| NixNames.ArgumentIsGiven | src/ogygia-nix-eval/src/eval/machine.rs:338-349 | a function's parameter is its argument |
| NixNames.BodySees | src/ogygia-nix-eval/src/eval/machine.rs:338-349 | a body sees its parameter, and otherwise what is around the function, not around the call |
| NixNames.AttributeIsDefined | src/ogygia-nix-eval/src/compile.rs:1296-1381 | a set has what its definitions say under their names |
| NixNames.DefinedInItself | src/ogygia-nix-eval/src/compile.rs:1296-1381 | what a `let` or recursive set binds is in scope in its own definitions |
| NixNames.DefinedOutside | src/ogygia-nix-eval/src/compile.rs:1296-1381 | and what a plain set binds is not |
| NixNames.InheritedIsOutside | src/ogygia-nix-eval/src/compile.rs:1296-1381 | a name that a `let` inherits is the one outside it, even where they are called alike |
| NixNames.InheritedFromSet | src/ogygia-nix-eval/src/compile.rs:1296-1381 | one inherited from a set is that set's, and the set is read inside |
| NixNames.WithHidesNothing | src/ogygia-nix-eval/src/compile.rs:707-741 | a `with` hides nothing that is bound lexically |
| NixNames.InnerWithFirst | src/ogygia-nix-eval/src/eval/machine.rs:764-795 | of nested `with`s the inner one's set comes first |
| NixNames.UndefinedIsRefused | src/ogygia-nix-eval/src/eval/machine.rs:764-795 | a name that nothing binds and no `with` has is undefined |
| NixNames.FormalIsGiven | src/ogygia-nix-eval/src/eval/machine.rs:607-672 | a pattern's name is what the argument has under it, or else its default, or else missing |
| NixNames.AtIsArgument | src/ogygia-nix-eval/src/eval/machine.rs:607-672 | the name after `@` is the whole argument |
| NixNames.UnexpectedIsRefused | src/ogygia-nix-eval/src/eval/machine.rs:607-672 | an argument that the pattern does not take is refused, unless it ends in an ellipsis |
| NixNames.ExpectedIsTaken | src/ogygia-nix-eval/src/eval/machine.rs:607-672 | and arguments it all takes are not |
| NixNames.WrongKinds | src/ogygia-nix-eval/src/eval/machine.rs:290-370 | only a boolean chooses, only a function is called, only a set is selected from |
| NixScoping.CompiledIsScoped | src/ogygia-nix-eval/src/compile.rs:707-899 | every depth and slot in compiled code, evaluated or not, names a slot of the frames around it |
| NixLazy.SlotReadsOutside | src/ogygia-nix-eval/src/eval.rs:383-391 | what a slot is filled with depends on no slot of its own frame, filled in or not |
| NixLazy.NewFrame | src/ogygia-nix-eval/src/eval.rs:430-446 | filling the cells one after another, each from a half-filled frame, gives the frame whose slots all are what their code alone says |
| NixLaziness.LazyDenotes | src/ogygia-nix-eval/src/eval.rs:366-381 | a value made without evaluating exists and stands for the delayed code, in every chain that stands for the by-name one |
| NixLaziness.FrameDenotes | src/ogygia-nix-eval/src/eval.rs:440-446 | so does a new frame, slot by slot |
| NixLaziness.PatternFilledSame | src/ogygia-nix-eval/src/eval/machine.rs:607-672 | a call's frame, arguments given and defaults made at once, stands for the by-name one; the failures are the same |
| NixLaziness.Refines | src/ogygia-nix-eval/src/eval/machine.rs:290-370 | whatever evaluating by name ends with, the evaluator gives with that fuel or more |
| NixLaziness.Answers | src/ogygia-nix-eval/src/eval/machine.rs:290-370 | and whatever the evaluator gives, evaluating by name ends with for some fuel, however many variables a value was copied through |
| NixProgram.MeaningIsComputed | src/ogygia-nix-eval/src/compile.rs:65-80 | a whole program's meaning by its names is what the evaluator computes from the compiled code |
| NixProgram.ComputedIsMeaning | src/ogygia-nix-eval/src/compile.rs:65-80 | and what it computes is that meaning |
| NixProgram.AnswersWhereMeant | src/ogygia-nix-eval/src/compile.rs:65-80 | it answers exactly where there is a meaning |
| NixProgram.NeverOutOfRange | src/ogygia-nix-eval/src/value.rs:138-148 | and never goes beyond the environment chain |
| NixProgram.ProgramIsMeant | src/ogygia-nix-eval/src/compile.rs:65-80 | so of a program run on its own |
| NixProgram.StartsInScope | src/ogygia-nix-eval/src/builtins/fs.rs:25-41 | this holds for a program imported into a scope too: a frame of the given values starts it as its names say |
| AttrPaths.JoinCommutes | src/ogygia-nix-eval/src/compile.rs:1202-1260 | the meanings of two sets of definitions join the same way in either order |
| AttrPaths.JoinAssociates | src/ogygia-nix-eval/src/compile.rs:1202-1260 | and in either grouping, clashes included |
| AttrPaths.InsertMeaning | src/ogygia-nix-eval/src/compile.rs:1202-1260 | inserting a path joins its definition to what the set means: plain literals on both sides merge, anything else there is a clash |
| AttrPaths.InheritMerges | src/ogygia-nix-eval/src/compile.rs:1168-1197 | an inherited name joins as a leaf: it clashes with any other definition |
| AttrPaths.MergesMeaning | src/ogygia-nix-eval/src/compile.rs:1153-1200 | merging all definitions of a set gives the join of what each means; where they clash, merging fails or the meaning is none once the literal is taken apart |
| AttrPaths.OrderIsImmaterial | src/ogygia-nix-eval/src/compile.rs:1153-1200 | definitions in another order mean the same |
| AttrPaths.MergedInAnyOrder | src/ogygia-nix-eval/src/compile.rs:1153-1260 | a set literal merges to the same meaning in every order of its definitions, or to none in any |
| AttrLookup.MergedHave | src/ogygia-nix-eval/src/compile.rs:1153-1260 | a merged set literal that has a meaning has at each path exactly what its definitions say to be there: texts at their paths, inherited names, and the same within plain sets |
| AttrLookup.NeverTwice | src/ogygia-nix-eval/src/compile.rs:1202-1260 | and it has none where two definitions say what is at one path, or one says something below what the other says |
| AttrArrays.FromEntries | src/ogygia-nix-eval/src/eval.rs:200-214 | entries in any order become an ascending array of the same map, later duplicates winning |
| AttrArrays.Update | src/ogygia-nix-eval/src/eval.rs:492-522 | `a // b` is the ascending array of the one map overridden by the other |
| AttrArrays.Get | src/ogygia-nix-eval/src/value.rs:70-79 | the binary search finds what the map has, and nothing else |
| AttrArrays.ArrayUnique | src/ogygia-nix-eval/src/eval.rs:216-225 | a map has one ascending array, so the array is determined by what the set contains |
| SourceOffsets.InsertParens | src/ogygia-nix-eval/src/compile.rs:462-485 | the parentheses are woven in where they belong, `)` before `(` at one offset; erasing the recorded offsets still gives the source, and they stay distinct, in range and sorted |
| SourceOffsets.InsertionErased | src/ogygia-nix-eval/src/compile.rs:475-482 | one insertion, with the offsets after it moved and its own recorded, leaves what erasing gives |
| SourceOffsets.SourceOffset | src/ogygia-nix-eval/src/compile.rs:648-650 | an offset goes to the number of source bytes before it, so every byte that was not inserted goes to where it is in the source |
| FloatLiterals.NormalisedValue | src/ogygia-nix-eval/src/compile.rs:1672-1684 | the significant digits and their scale have the value of the literal |
| FloatLiterals.FarBelow | src/ogygia-nix-eval/src/compile.rs:1649-1652 | below 10^-330 every value is tiny and inexact |
| FloatLiterals.Compared | src/ogygia-nix-eval/src/compile.rs:1656-1667 | the three comparisons on whole numbers decide tininess and exactness of the value, before or after rounding |
| FloatLiterals.UnderflowDecided | src/ogygia-nix-eval/src/compile.rs:1642-1668 | for every literal whose exponent fits 64 bits, underflow is decided right if and only if the power of ten above its leading digit fits them too |
| FloatLiterals.WrapsAround | src/ogygia-nix-eval/src/compile.rs:1672-1684 | where that power is too low the sum wraps around, and the tiniest of values is not reported |
| FloatLiterals.WrappingLiteral | src/ogygia-nix-eval/src/compile.rs:1672-1684 | so 0.01e-9223372036854775808, tiny and inexact, is not reported |
| FloatLiterals.ExponentOutOfRange | src/ogygia-nix-eval/src/compile.rs:1642-1645 | an exponent that does not fit counts as an underflow, rightly exactly when it is negative |
| FloatLiterals.ZeroIsExact | src/ogygia-nix-eval/src/compile.rs:1646-1648 | a literal that is zero does not underflow, whatever its exponent |
| FloatValues.NumberOfDigits | src/ogygia-nix-eval/src/compile.rs:1655-1656 | a digit has its value, and those before it count ten times as much |
| FloatValues.ValueOfPoint | src/ogygia-nix-eval/src/compile.rs:1672-1684 | the value meant by all of these: the digits after the point count tenths, hundredths and so on |
| FloatValues.ValueOfExponent | src/ogygia-nix-eval/src/compile.rs:1672-1684 | and an exponent multiplies by a power of ten, or divides by it after a `-` |
| FloatValues.TinyAndInexactIs | src/ogygia-nix-eval/src/compile.rs:1649-1667 | and the property decided: positive, below the smallest normal number, no multiple of the smallest number of all, and where tininess is detected after rounding not within half a unit of the smallest normal number at full precision |
| FloatValues.NoIdleZeros | src/ogygia-nix-eval/src/compile.rs:1675-1677 | the significant digits neither start nor end with a zero |
| MemTrees.PutAtAndBelow | src/ogygia-nix-eval/src/archive.rs:56-77 | an inserted tree is there, with all below it |
| MemTrees.PutElsewhere | src/ogygia-nix-eval/src/archive.rs:56-77 | and everything elsewhere is as it was |
| MemTrees.PutOnTheWay | src/ogygia-nix-eval/src/archive.rs:56-77 | directories lead to it, a file on the way giving way |
| MemTrees.PutParentFirst | src/ogygia-nix-eval/src/archive.rs:56-77 | creating missing parents first is no different |
| MemTrees.PutDenoted | src/ogygia-nix-eval/src/archive.rs:56-87 | replacing a node in the flat map, what hung below it removed, denotes the tree with it put there |
| MemTrees.DenotedHasNoOrphans | src/ogygia-nix-eval/src/archive.rs:137-152 | a map that denotes a tree has every listed child and lists every node, so reading a directory never misses one |
| MemTrees.PromotedDenoted | src/ogygia-nix-eval/src/archive.rs:89-113 | stripping the prefix from the paths denotes the promoted subtree |
| MemTrees.PromotedIs | src/ogygia-nix-eval/src/archive.rs:89-113 | promoting takes a sole top-level entry away that is no file, and does nothing else |
| MemTrees.MemTree.Empty | src/ogygia-nix-eval/src/archive.rs:41-45 | the empty map denotes the empty directory |
| MemTrees.MemTree.Remove | src/ogygia-nix-eval/src/archive.rs:79-87 | the node and all below it go, and nothing else |
| MemTrees.MemTree.Insert | src/ogygia-nix-eval/src/archive.rs:56-77 | the map denotes the recursive tree after the same insertion |
| MemTrees.MemTree.ReadDir | src/ogygia-nix-eval/src/archive.rs:137-152 | a directory's names and types are those of the tree, each with a node; anything else is an error |
| MemTrees.MemTree.StripTopLevel | src/ogygia-nix-eval/src/archive.rs:89-113 | a sole top-level entry that is no file becomes the tree |
| MemTrees.Unpack | src/ogygia-nix-eval/src/archive.rs:222-273 | after any sequence of entries the map denotes the tree built from them, last wins, promoted, with no orphans; a link to a missing file is an error |
| MemTrees.EntryLands | src/ogygia-nix-eval/src/archive.rs:222-266 | in the tree replayed an entry is there afterwards, whatever was before, but that a directory leaves a directory alone, a hard link is the file it names then, and the root stays |
| Nar.StrInjective | src/ogygia-nix-eval/src/nar.rs:14-20 | two written strings that start equal texts are the same, and so is what follows |
| Nar.NodeInjective | src/ogygia-nix-eval/src/nar.rs:28-80 | and so are two written nodes |
| Nar.TreeDetermines | src/ogygia-nix-eval/src/nar.rs:46-62 | a tree has one listing in order of name |
| Nar.ArchivesAreUnique | src/ogygia-nix-eval/src/nar.rs:22-80 | texts that start with archives agree exactly when the trees and what follows do: archives are uniquely decodable and none is the start of another |
| Nar.Writer.WriteStr | src/ogygia-nix-eval/src/nar.rs:14-20 | the stream grows by the length, the bytes and the padding |
| Nar.Writer.DumpNode | src/ogygia-nix-eval/src/nar.rs:28-80 | and by the text of the node |
| Nar.Writer.Dump | src/ogygia-nix-eval/src/nar.rs:22-26 | and by the whole archive |
| NarReader.NodeReadBack | src/ogygia-nix-eval/src/nar.rs:28-80 | a reader recovers a written node and what follows it, whatever that is |
| NarReader.ReadsExactlyArchives | src/ogygia-nix-eval/src/nar.rs:22-80 | of texts of bytes it reads exactly those that start with an archive, as that archive and the bytes that remain |
| NarDump.DumpPath | src/ogygia-nix-eval/src/nar.rs:28-80 | dumping a path of a flat map writes the text of the listing, in order of name, of the subtree that is there |
| NarDump.DumpTree | src/ogygia-nix-eval/src/nar.rs:22-80 | so the dump of an archive in memory is the archive of its tree, and is read back as that |
| Base32.Base32Encode | src/ogygia-nix-eval/src/store.rs:24-38 | the text has as many digits as the bytes need and denotes, in base 32, the number the bytes denote in base 256 |
| Base32.Base32Decode | src/ogygia-nix-eval/src/store.rs:40-59 | a text of one of the lengths texts have decodes exactly when it denotes the number of bytes of that length, and to those |
| Base32.TextUnique | src/ogygia-nix-eval/src/store.rs:24-38 | bytes have one text |
| Base32.BytesUnique | src/ogygia-nix-eval/src/store.rs:40-59 | and a text is that of one byte string |
| Base32.RoundTrip | src/ogygia-nix-eval/src/store.rs:24-59 | decoding undoes encoding for bytes of every length |
| StoreHashes.Denotes32Is | src/ogygia-nix-eval/src/store.rs:22-59 | the digits are those of the alphabet written out, and what a text denotes is its number in base 32 |
| ByteTexts.Decode64Encode64 | src/ogygia-nix-eval/src/store.rs:303-327 | the lenient decoder inverts the encoding of RFC 4648, section 4, for every byte string |
| ByteTexts.Lenient | src/ogygia-nix-eval/src/store.rs:303-327 | newlines anywhere make no difference, nor does anything after a `=` |
| ByteTexts.Base64Decode | src/ogygia-nix-eval/src/store.rs:305-327 | the loop with its masked accumulator is the decoder, one character at a time |
| ByteTexts.Decoded64Is | src/ogygia-nix-eval/src/store.rs:303-327 | bytes are decoded exactly when the text before the first `=`, newlines left out, spells digits of the alphabet whose bits, but for those that make up no byte, they are |
| ByteTexts.DecodedIfOnlyDigits | src/ogygia-nix-eval/src/store.rs:303-327 | so a text is decoded exactly when it has only newlines and characters of the alphabet there |
| ByteTexts.Encode64IsPadded | src/ogygia-nix-eval/src/store.rs:352-362 | what is written has all the bits of the bytes, padded with zeros to digits and with `=` to groups of four |
| ByteTexts.UnhexIs | src/ogygia-nix-eval/src/store.rs:286-287 | hex is read exactly when it is two digits of either case for each byte |
| StoreHashes.LengthOf | src/ogygia-nix-eval/src/store.rs:286-296 | for each algorithm a digest's length tells base 16, base 32 and base 64 apart |
| StoreHashes.DecodeDigest | src/ogygia-nix-eval/src/store.rs:284-300 | a digest is read exactly when the text denotes bytes of the algorithm's size in hex, base 32 or, at the length for that size, base 64, and as those bytes |
| StoreHashes.FormatHash | src/ogygia-nix-eval/src/store.rs:352-362 | the text is the digest in the format asked for: lower-case hex, the base-32 number, or padded base 64 with the algorithm's name and a dash before it in SRI |
| StoreHashes.ParseHash | src/ogygia-nix-eval/src/store.rs:263-301 | a hash is read if and only if the text says it: the algorithm is the one named before the first colon, or else the first dash, or else the one expected, and never another than expected, and the rest is a digest of it, after a dash in base 64; anything else is refused |
| StoreHashes.RenderedSays | src/ogygia-nix-eval/src/store.rs:263-301 | a digest in any format says its hash to a reader that expects the algorithm or is told by a prefix |
| StoreHashes.SaysNothing | src/ogygia-nix-eval/src/store.rs:264-283 | a text that names no known algorithm says nothing, nor one whose rest after a dash has a character base 64 has not |
| StoreHashes.FormatAndParse | src/ogygia-nix-eval/src/store.rs:263-362 | parsing undoes formatting, in all four formats and for all four algorithms |
| CivilDays.Epoch | src/ogygia-nix-eval/src/archive.rs:344-354 | 1970-01-01 is day 0 |
| CivilDays.NextDayIsOneMore | src/ogygia-nix-eval/src/archive.rs:344-354 | the next date by the calendar is exactly one day more, over every month end, leap day and turn of year, negative years included |
| CivilDays.DaysBetween | src/ogygia-nix-eval/src/archive.rs:344-354 | so n days later is n more |
| CivilDays.DaysAscend | src/ogygia-nix-eval/src/archive.rs:344-354 | and a date is earlier exactly when it has fewer days |
| Paths.CanonPath | src/ogygia-nix-eval/src/path.rs:26-49 | the stack of components gives the canonical path |
| Paths.CanonIdempotent | src/ogygia-nix-eval/src/path.rs:26-49 | making a canonical path canonical changes nothing |
| Paths.CanonOfName | src/ogygia-nix-eval/src/path.rs:26-49 | by texts: a name after a slash is put below the canonical path |
| Paths.CanonOfDots | src/ogygia-nix-eval/src/path.rs:26-49 | a dot, a further slash, and a name with two dots after it change nothing |
| Paths.CanonOfRoot | src/ogygia-nix-eval/src/path.rs:26-49 | and there is nothing above the root |
| Paths.RenderInjective | src/ogygia-nix-eval/src/path.rs:26-49 | canonical paths and lists of component names stand for each other |
| Paths.JoinWalks | src/ogygia-nix-eval/src/path.rs:72-78 | a joined path leads where walking the name from the directory does |
| Paths.JoinEntry | src/ogygia-nix-eval/src/path.rs:72-78 | for a single name, to that entry of the directory |
| Paths.JoinIs | src/ogygia-nix-eval/src/path.rs:72-78 | one slash is put between directory and name, whatever slashes the directory ends with, and none where either is empty |
| Landed.IsAncestor | src/ogygia-updated/src/repo.rs:67-79 | true exactly of the commits in the history, unknown ones being in none |
| Landed.ChangesLanded | src/ogygia-updated/src/repo.rs:101-149 | sound for every base and every length of the walks, true of every ancestor of the tip, exact when neither walk is longer than the scan |
| Landed.OnBranch | src/ogygia-updated/src/engine.rs:484-493 | so is the question whether a revision is on the branch |
| Landed.BaseIsImmaterial | src/ogygia-updated/src/repo.rs:107-114 | where nothing still to land is a change of the common history, looking since any common ancestor finds what looking over the whole branch finds |
| Landed.BaseMattersWhenChangesRepeat | src/ogygia-updated/src/repo.rs:107-114 | where they are not, the answer can depend on which of two merge bases is found |
| Landed.StaysLanded | src/ogygia-updated/src/repo.rs:81-149 | a landed revision stays landed however the branch advances and whichever bases are found then |
| Engine.Host.SwitchToConfiguration | src/ogygia-updated/src/system.rs:14-31 | an activation that succeeds changes the running system, the loader's default or both, by its kind; one that fails may have done part, the loader first |
| Engine.Host.Activate | src/ogygia-updated/src/engine.rs:495-526 | the outcome and the host's new state for each of the three ways to activate, and which steps can have been taken when one fails: never the running system ahead of the loader, unless the loader is to be left alone |
| Engine.Host.UpdateToTip | src/ogygia-updated/src/engine.rs:403-446 | the outcome is the planned one and the host is as that outcome says; on a failure it is between the two in that order, and untouched where nothing was planned |
| Engine.Host.StageBootFloor | src/ogygia-updated/src/engine.rs:360-383 | the commit reported is the branch point where it can be built, and then on the profile; otherwise the host is left alone |
| Engine.Host.FinishCanary | src/ogygia-updated/src/engine.rs:386-398 | the record is replaced whole or not at all |
| Engine.Host.RunScheduled | src/ogygia-updated/src/engine.rs:214-286 | a trial ends for the first reason that holds, in the order reboot, overwritten, merged, expired, and the update that follows is forced only when it expired; otherwise it is held |
| Engine.Host.Start | src/ogygia-updated/src/engine.rs:291-347 | a trial's record is stored first, then the floor or the trial itself is made the boot default, and the trial is running when it says so |
| Engine.Host.Run | src/ogygia-updated/src/engine.rs:154-198 | a cycle of each trigger does one of these, answers only where no call of it failed, and fails without a failing call only where a branch or a merge base is missing |
| EngineRuns.CycleBootsTracked | src/ogygia-updated/src/engine.rs:154-526 | whatever a cycle that starts no persistent trial puts on the profile or in the loader is on the tracked branch, also when it fails half-way |
| EngineRuns.BootStaysTracked | src/ogygia-updated/src/engine.rs:154-526 | over any run of pushes, cycles, reboots and switches by hand without a persistent trial, what boots next stays an ancestor of the tracked tip |
| EngineRuns.StartStagesFloor | src/ogygia-updated/src/engine.rs:333-383 | starting an ephemeral trial whose branch point can be built puts that on the profile, and in the boot loader if and only if the profile was not already there with another loader default |
| EngineRuns.HeldReportsBoot | src/ogygia-updated/src/engine.rs:275-286 | a held trial reports what a reboot lands on if and only if the profile was elsewhere or the loader already there |
| EngineRuns.UpToDateReportsBoot | src/ogygia-updated/src/engine.rs:417-419 | a host up to date boots the tip if and only if it did before |
| EngineRuns.LeaveLoaderBehind | src/ogygia-updated/src/engine.rs:360-383 | a held cycle whose switch to a new floor is refused fails, and the next one reports the floor though the loader is where it was |
| EngineRuns.LoaderLeftBehind | src/ogygia-updated/src/engine.rs:360-383 | in runs too, and a reboot then lands where it would have before |
| EngineRuns.SmallTrial | src/ogygia-updated/src/engine.rs:360-383 | there is such a host |
| EngineRuns.TrialBootsTracked | src/ogygia-updated/src/engine.rs:291-383 | from the start of such a trial on every boot default is an ancestor of the tracked tip, if and only if the start did not find the floor on the profile and the loader off the branch |
| EngineRuns.RebootIsRecorded | src/ogygia-updated/src/engine.rs:232-244 | after a reboot, however many scheduled cycles succeed or fail, the record is as it was or says that the reboot ended the trial, whatever else has come true |
| EngineRuns.SuccessIsRecorded | src/ogygia-updated/src/engine.rs:232-244 | and it says so once one of them does not fail |
| EngineRuns.CycleKeepsTracking | src/ogygia-updated/src/engine.rs:403-446 | a scheduled cycle of any fate keeps a host that boots and runs the branch so, and never runs the tip without booting it |
| EngineRuns.RebootThenTip | src/ogygia-updated/src/engine.rs:214-446 | after a reboot, as soon as the calls of some scheduled cycle succeed the tip is the boot default, with nobody stepping in and however many cycles failed or found the cache not ready before |
| EngineRuns.TrialEndsOnTip | src/ogygia-updated/src/engine.rs:214-446 | both together, for a trial from its start |
| EngineRuns.SwitchIsSettled | src/ogygia-updated/src/engine.rs:403-419 | after a switch, a scheduled cycle on the same tip changes nothing and reports so |
| EngineRuns.ManualBootsTip | src/ogygia-updated/src/engine.rs:181-186 | a manual update that succeeds leaves the tip as boot default if and only if it was already, or the tip was not both running and on the profile |
| EngineRuns.OffBranchIsKept | src/ogygia-updated/src/engine.rs:413-446 | with no trial on, a next-boot system off the branch is kept by scheduled cycles, and a host running off it is left alone |
| EngineRuns.PersistentTrialStarts | src/ogygia-updated/src/engine.rs:317-331 | a persistent trial runs and is the boot default from its start, unless only the loader had been left behind |
| EngineRuns.PersistentTrialHolds | src/ogygia-updated/src/canary.rs:33-44 | and then through reboots and cycles until it lands, expires or is replaced |
| EngineLaws.EndsByReboot | src/ogygia-updated/src/engine.rs:232-244 | a scheduled cycle on a trial of another boot records the reboot, whatever else has come true |
| EngineLaws.EndsByOverwriting | src/ogygia-updated/src/engine.rs:246-256 | else, where the host runs something else, that it was overwritten |
| EngineLaws.EndsByMerge | src/ogygia-updated/src/engine.rs:258-267 | else, where its commit is on the branch, that it has landed |
| EngineLaws.EndsByExpiry | src/ogygia-updated/src/engine.rs:269-273 | else, where its time is up, that it expired; and the host is then on the tip for the next boot, and runs it unless that takes a new kernel and a reboot is scheduled |
| EngineLaws.HeldOtherwise | src/ogygia-updated/src/engine.rs:275-286 | and otherwise the trial is held, with what runs left alone |
| EngineLaws.EndsByHand | src/ogygia-updated/src/engine.rs:181-192 | a manual update ends any trial |
| EngineLaws.NothingToUpdate | src/ogygia-updated/src/engine.rs:413-436 | a scheduled update leaves alone a host that is off the branch, on the tip, or without its cache |
| EngineLaws.UpdatedToTip | src/ogygia-updated/src/engine.rs:403-446 | and otherwise moves it to the tip: in what runs, in what boots next, or both |
| EngineLaws.UpdatedByHand | src/ogygia-updated/src/engine.rs:403-446 | a manual update does so wherever the host is |
| EngineLaws.TrialIsRecorded | src/ogygia-updated/src/engine.rs:291-347 | a started trial runs the tip its branch had, is recorded with its deadline, and is the next boot if persistent |
| EngineLaws.TrialsTimeOut | src/ogygia-updated/src/engine.rs:269-273 | over any run without another start or a manual update, after the first scheduled cycle past the deadline whose calls succeed the trial is over |
| ArchiveBranch.AcceptAllKeeps | src/ogygia-dashboard/src/git.rs:438-474 | a server that takes only fast-forwards never loses what is reachable, whoever pushes in whatever order |
| ArchiveBranch.PushedInOrder | src/ogygia-dashboard/src/git.rs:438-474 | pushes of others come one after the other, one that adds to the branch becomes its head, and one that rewinds it changes nothing |
| ArchiveBranch.Clone.BuildChain | src/ogygia-dashboard/src/git.rs:139-164 | the chain reaches the fetched head and every pending commit that could be found |
| ArchiveBranch.Clone.Commit | src/ogygia-dashboard/src/git.rs:139-160 | a merge commit has the head so far and the archived commit as parents, in that order |
| ArchiveBranch.Clone.PushBranch | src/ogygia-dashboard/src/git.rs:438-474 | a push is reported as done exactly if it is answered and only adds to the branch, and is then the head; one refused or undelivered changes nothing |
| ArchiveBranch.Clone.ArchiveCommits | src/ogygia-dashboard/src/git.rs:98-184 | every commit returned is reachable from the server's archive head, every candidate that could be found is returned, nothing once reachable is lost whatever others push in between, nothing is pushed where all are reachable already, one undisturbed attempt suffices, and an error says whether a fetch or every push failed |
| ArchiveBranch.Clone.CollectCandidates | src/ogygia-dashboard/src/archive.rs:55-69 | the candidates are the deployed commits that are not remembered as archived |
| ArchiveBranch.Clone.Pass | src/ogygia-dashboard/src/archive.rs:18-51 | whatever is remembered as archived is reachable from the archive head, after every pass |

## Left out

- The rnix lexer and parser, and the choice of the tokens to parenthesise: token positions and syntax trees are given.
- SHA-256, MD5, hex of object ids and git's object format: commits are named by any collision-free function of their content.
- Tar, zip and decompression, HTTP, etcd, SQLite, sockets, processes, and all rendering: input, output and user interface.
- Error texts, logging, `describe` and `label`: which error is modelled, not its wording.
- NixEval.ClimbUp: answers none where the code panics on a depth beyond the chain; `NixScoping.CompiledIsScoped` and `NixProgram.NeverOutOfRange` show that no compiled name leads there.
- NixSimulation.Simulates: evaluation is by name on both sides, as `NixProgram` joins it with the values the evaluator makes at once; fuel bounds how deep thunks are forced and calls entered, and the theorem is for every fuel.
- NixLaziness.Answers: leaves out what `NixLaziness.Refines` does, below.
- NixProgram.AnswersWhereMeant: leaves that out too, as do `NixProgram.MeaningIsComputed` and `NixProgram.ComputedIsMeaning`.
- NixCompiler.Compiler.CompileSet: leaves out what `NixCompiler.Compiler.CompileExpr` does, and the sorting of a set's parts by symbol.
- NixLaziness.Refines: sharing the result of a forced thunk and blackholing are not modelled, so an expression that refers to itself runs out of fuel where the evaluator reports infinite recursion; the call depth limit is left out.
- NixLazy.NewFrame: a filled frame is a value whose slots may refer back to it, where the code has a reference to the frame.
- NixCompiler.Compiler.CompileExpr: strings, paths, operators, dynamic attributes, `or` defaults, calls with several arguments at once and positions are not modelled, and a set's parts are given merged; the `Malformed` error stands for sets that no source text merges to.
- AttrPaths.MergesMeaning: a set's parts are a value that merging returns anew rather than one updated in place, and dynamic names, which never merge, are left out.
- AttrArrays.FromEntries: sorts by insertion, which is stable as the library's sort is.
- MemTrees.MemTree.Insert: a path is the list of its components, which `Paths.RenderInjective` and `Paths.JoinEntry` justify; file times, hard links to anything but files and the executable bit's derivation from the mode are left out.
- Nar.Writer.Dump: takes the listing that an accessor gives, in order of name, which for an archive in memory `NarDump.DumpTree` does not; a path that does not exist and a file of unknown type are errors of the accessor and left out, and what is read back is strings shorter than 2^64 bytes.
- TimelineListing.Listing: where no tracked branch is found only the deployed commits are listed, and none twice; the order by time that the listing is then brought into is any order here, in which copies of a commit keep theirs.
- SourceOffsets.InsertParens: offsets do not wrap, as texts are below the parser's limit of 4 GiB.
- FloatLiterals.UnderflowDecided: is for literals shorter than 2 GiB, and for formats with 52 fraction bits whose smallest normal number is 2^-e with e up to 1022, the double's; rounding a literal to a double and overflow to infinity are the library's.
- Base32.Base32Decode: on lengths that no byte string encodes to, only the length of the result and the alphabet are stated, as extra digits can be dropped there.
- Base32.Base32Encode: shifts and masks are on natural numbers; no intermediate value reaches 2^16.
- StoreHashes.FormatHash: the library's hex and base-64 encoders are written out as functions.
- CivilDays.NextDayIsOneMore: years are unbounded integers.
- Landed.ChangesLanded: failing look-ups in the object database are left out; a walk is in no particular order.
- Engine.Host.Run: configuration is constant over a cycle, a record's commit always parses, boot ids are numbers that grow with every boot, and cloning the repository is not distinguished from opening it.
- ArchiveBranch.Clone.ArchiveCommits: a fetch brings every object that the server has, so commits no branch reaches any more are ones the clone lacks; trees, authors and times are part of the text a commit is named by.
- ArchiveBranch.Clone.CollectCandidates: takes the deployed commits as a list, in the order of their ids.
- GraphLayout.Layout: lanes are a value of type `seq` that each step returns, as a row's drawing is a relation between the lanes before and after it.
- Clevis, configuration checks, alert thresholds, statistics, bundle parsing and the supervisor's backoff: easier than what is here.
- Float printing, comparison of values and coercions in the evaluator: they would add only simple functions.
