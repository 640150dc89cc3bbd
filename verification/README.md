# Models of the repository's algorithms

This project models the algorithmic core of the repository in Dafny and proves
what it is for. Most of the core is in the vendored CMake 4.3.1 sources; the rest
is in the layout services of the WPF application. One module covers one source
component, in the component's own form: a class with the source's fields where
the source updates an object, a loop where it has a loop, an array where it works
in place. Each such method is proved against a specification, and the
specification is what the lemmas are about.

| module | what it models |
|---|---|
| ComponentGraph | the in-place Tarjan walk of `cmComputeComponentGraph`, with walk ids instead of an on-stack flag and a root node per entry |
| PresetFields | what a configure, build, test or package preset takes from one parent, field by field, and the laws of that merge |
| PresetInheritance | the visits of `cmCMakePresetsGraph` that check inheritance and fill presets in from their parents |
| PresetConditions | what these visits do to the presets' conditions |
| MacroExpansion | the macro scanner, the chain of expanders and the memoised expansion of a preset's environment |
| MacroSyntax, Paths | what the documentation says of macros, and the two parts of a path that macros stand for |
| PresetFiles | the include traversal of `ReadJSONFile`: file list, in-progress stack, reachable files, preset names |
| PkgConfig | the worklist of `PopulatePCTarget` |
| Algorithms | `cmRotate`, `RemoveN`, `cmRemoveIndices`, `cmRemoveDuplicates` |
| ArgumentParser | keyword map and state machine of `cmArgumentParser`, without sub-parsers |
| CacheHelp | help texts written to and read from the cache file |
| Base32 | the encoder, with the decoder of section 6 of RFC 4648 as its partner |
| Pagination, TextHelper, TextParser | the paginator and the two line wrappers, over the shared theory of greedy filling in Greedy and of words in Words |
| Reachability, CycleCheck, Options, Sequences | paths in a relation, what the walks over presets share, optional values, facts about sequences |

How the models read:

- A graph claim is stated with `Reaches` and `ReachesPlus` (Reachability), which
  speak of paths and know nothing of the algorithms.
- The three recursions over presets are stated by recursive specifications that
  carry the set of names in progress (`Resolve`, `Accepts`, `Eval`); the verdict
  lemmas then say without recursion when they succeed.
- Results of calls that cannot be seen (files on disk, the process environment,
  version comparison, text widths) are parameters.
- Heights and widths are real numbers.

What the proofs brought to light about the code:

- `PopulatePCTarget` never checks a requirement that a package other than the
  root has on itself: it is added to an entry that is erased afterwards
  (`SelfRequirementGoesUnchecked`, `SuccessMeetsRequirements`).
- A `$vendor{}` macro behind an `$env{}` reference ends as an error, while the
  same macro met directly makes the preset ignored. When one variable has a
  vendor macro before anything else that fails and another one fails without
  that, the verdict depends on the names of the variables, since the map is
  walked in their order (`VariableVerdict`, `VerdictOrder`, `MixedFailuresHappen`).
- A dollar is documented to be literal unless a macro begins there
  (cmake-4.3.1/Help/manual/cmake-presets.7.rst, lines 1268-1270). The scanner also
  takes the character that rules a macro out for literal, even if it is a dollar that
  begins one: two dollars in front of `{sourceDir}` stay as they are. Texts are read as
  documented exactly when no such dollar is skipped (`ScannedAsDocumented`,
  `DoubledDollar`).
- The documentation of `inherits` (cmake-4.3.1/Help/manual/presets/schema.json,
  lines 656, 1502 and 1680) promises all fields but five. The model follows the
  code, which never inherits the seven debug and trace fields of a configure preset
  and the configuration file of a package preset: such a field is as documented
  exactly when the preset sets it or none of its ancestors does (`OwnFieldsStay`,
  `OwnFieldAsDocumented`, `TraceRedirectIsLost`, `ConfigFileIsLost`). The union flag
  of a test preset's include group comes only with the whole group
  (`UseUnionAsDocumented`, `UseUnionIsLost`).
- A null condition is removed by the first visit, and a preset with children is
  visited again, so that it then takes a condition from its parents. Conditions are
  as documented exactly when no preset says null between a parent that gives a
  condition and a child (`ConditionsAsDocumented`, `NullIsLost`, `NullInTheMiddle`).
- A help text is lost in part if it begins with backslash and n, holds a NUL, or
  has a written line that ends in a carriage return, and in no other case
  (`HelpRoundTrip`, `ReturnIsLost`). When the help text is empty, the key's line is
  read unchanged exactly when the key is quoted, is empty, or does not begin with a
  blank, a tab, a carriage return, a newline, a hash or a NUL (`BareKeyIsRead`,
  `EntryRoundTrip`, `HashKeyIsLost`).
- `WrapText` trims its lines, which drops white space other than blanks and tabs
  at the edges of words (`WordsKeptForEveryLimit`, `EdgeLineBreakIsLost`).
- `Paginate` does not end when a line is higher than an empty page (`LoopEnds`,
  `OneHighLine`), and places no footnote when there is no line (`FootnotesPlaced`).
- The key of the width cache joins its parts by a bar. Its answers are right, for
  every history of requests, exactly when no family's name ends in a size and
  another family's name, set off by bars (`CacheIsRight`); otherwise a width can
  be answered for the wrong text (`KeysCollide`, `WrongWidth`).

## Model

| member | source | states |
|---|---|---|
| ComponentGraph.ComponentGraphBuilder.Compute | cmake-4.3.1/Source/cmComputeComponentGraph.cxx:20-29 | on a fresh object: two nodes share a component index exactly when each reaches the other, the lists partition the nodes as the index map says, edges between components go to a lower index, and the component graph holds exactly the transferred edges |
| ComponentGraph.ComponentGraphBuilder.constructor | cmake-4.3.1/Source/cmComputeComponentGraph.cxx:13-16 | the graph is taken over and nothing is computed yet |
| ComponentGraph.ComponentGraphBuilder.Tarjan | cmake-4.3.1/Source/cmComputeComponentGraph.cxx:31-51 | after the outer loop every node is assigned to a component and all invariants of the walk hold |
| ComponentGraph.ComponentGraphBuilder.TarjanVisit | cmake-4.3.1/Source/cmComputeComponentGraph.cxx:53-118 | for every walk state: a visit leaves the node either assigned or on the stack joined to an older root, keeps all earlier assignments, and terminates because unvisited nodes decrease |
| ComponentGraph.ComponentGraphBuilder.EnterNode | cmake-4.3.1/Source/cmComputeComponentGraph.cxx:55-62 | the entry, the visit index and the stack after entering a node |
| ComponentGraph.ComponentGraphBuilder.FollowEdge | cmake-4.3.1/Source/cmComputeComponentGraph.cxx:66-91 | each edge, whether skipped, followed or known, keeps the loop invariant of the visit |
| ComponentGraph.ComponentGraphBuilder.ImproveRoot | cmake-4.3.1/Source/cmComputeComponentGraph.cxx:83-90 | the root moves to the older of the two roots and nothing else changes |
| ComponentGraph.ComponentGraphBuilder.PopComponent | cmake-4.3.1/Source/cmComputeComponentGraph.cxx:93-117 | popping at a root completes the visit: the new component is exact |
| ComponentGraph.ComponentGraphBuilder.PopMembers | cmake-4.3.1/Source/cmComputeComponentGraph.cxx:100-116 | all nodes above the root leave the stack, get the new index, and form the sorted list |
| ComponentGraph.ComponentGraphBuilder.PopMember | cmake-4.3.1/Source/cmComputeComponentGraph.cxx:102-113 | one turn of the do-while loop keeps the record of what was popped; the loop ends at the root itself |
| ComponentGraph.ComponentGraphBuilder.MoveTop | cmake-4.3.1/Source/cmComputeComponentGraph.cxx:104-112 | one node moves from the stack to the new component |
| ComponentGraph.ComponentGraphBuilder.TransferEdges | cmake-4.3.1/Source/cmComputeComponentGraph.cxx:120-139 | each component gets the edges of its nodes, in order, that leave it |
| ComponentGraph.SortNodes | cmake-4.3.1/Source/cmComputeComponentGraph.cxx:115-116 | the members are sorted and unchanged as a set |
| ComponentGraph.EarlierWalk | cmake-4.3.1/Source/cmComputeComponentGraph.cxx:69-76 | a node reached by an earlier walk is already assigned, so skipping it loses no member |
| ComponentGraph.PushStarts | cmake-4.3.1/Source/cmComputeComponentGraph.cxx:55-66 | entering an unvisited node establishes the invariant of the edge loop |
| ComponentGraph.KnownTarget | cmake-4.3.1/Source/cmComputeComponentGraph.cxx:69-90 | an edge to a visited node, after the comparison of roots, keeps the invariant |
| ComponentGraph.ChildVisited | cmake-4.3.1/Source/cmComputeComponentGraph.cxx:78-90 | after the visit of a child, improving the root keeps the invariant |
| ComponentGraph.TopClosed | cmake-4.3.1/Source/cmComputeComponentGraph.cxx:93-94 | when a node is its own root, edges of the nodes above it lead only among them or to assigned nodes |
| ComponentGraph.PopCompletes | cmake-4.3.1/Source/cmComputeComponentGraph.cxx:93-117 | popping at a root yields exactly one class of mutual reachability |
| ComponentGraph.StayCompletes | cmake-4.3.1/Source/cmComputeComponentGraph.cxx:93-94 | a node that is not its own root stays on the stack, joined to an older node |
| ComponentGraph.ComponentCount | cmake-4.3.1/Source/cmComputeComponentGraph.cxx:96-97 | a new component index is always below the number of nodes, so it never is the invalid index |
| ComponentGraph.WalkIsCondensation | cmake-4.3.1/Source/cmComputeComponentGraph.cxx:31-118 | a finished walk is the condensation of the graph |
| ComponentGraph.RowMultiplicity | cmake-4.3.1/Source/cmComputeComponentGraph.cxx:128-136 | for one node: an edge of the component graph occurs as often as edges it stands for |
| ComponentGraph.TransferMultiplicity | cmake-4.3.1/Source/cmComputeComponentGraph.cxx:120-139 | every component edge occurs exactly as often as there are graph edges it stands for, with the same flags and backtrace |
| ComponentGraph.TransferOrder | cmake-4.3.1/Source/cmComputeComponentGraph.cxx:120-139 | a component's edges stand in the order of the nodes and of their edges, none left out and none twice |
| ComponentGraph.RowOrder | cmake-4.3.1/Source/cmComputeComponentGraph.cxx:128-136 | the same for the edges of one node |
| ComponentGraph.ComponentEdge | cmake-4.3.1/Source/cmComputeComponentGraph.cxx:131-136 | two components are joined by an edge exactly when they differ and an edge of the graph leads from one to the other |
| ComponentGraph.ComponentGraphAcyclic | cmake-4.3.1/Source/cmComputeComponentGraph.cxx:93-139 | along component edges the index falls strictly: no component reaches itself |
| ComponentGraph.CondensationReach | cmake-4.3.1/Source/cmComputeComponentGraph.cxx:20-139 | a node reaches another in the graph exactly when its component reaches the other component |
| PresetInheritance.PresetsGraph.ComputePresetInheritance | cmake-4.3.1/Source/cmCMakePresetsGraph.cxx:169-187 | true exactly when no preset inherits from itself, every parent exists in a file the child's reaches, no environment has an empty key and every preset inherits what its kind demands; then every preset equals its recursive resolution over the original presets, whatever the order and however often it is revisited, and the conditions are those after visits in some order |
| PresetInheritance.PresetsGraph.VisitPresets | cmake-4.3.1/Source/cmCMakePresetsGraph.cxx:176-184 | the loop, over a map whose presets it changes: it ends early exactly when a preset is refused |
| PresetInheritance.PresetsGraph.VisitPresetAfterInherit | cmake-4.3.1/Source/cmCMakePresetsGraph.cxx:809-839 | for every kind: hidden, or with what a visible preset of that kind must have, said of its slots |
| PresetInheritance.PresetsGraph.VisitPreset | cmake-4.3.1/Source/cmCMakePresetsGraph.cxx:89-167 | verdict, fields and conditions after one visit, for every set of presets in progress; settled presets stay settled; terminates on cyclic relations although the status map is copied |
| PresetInheritance.PresetsGraph.VisitParents | cmake-4.3.1/Source/cmCMakePresetsGraph.cxx:119-156 | the loop over the parents merges them in order or refuses as the specification does; the null marker is removed behind it |
| PresetInheritance.PresetsGraph.VisitParent | cmake-4.3.1/Source/cmCMakePresetsGraph.cxx:120-151 | one parent: missing, unreachable from the file, refused, or merged |
| PresetInheritance.PresetsGraph.InheritFrom | cmake-4.3.1/Source/cmCMakePresetsGraph.cxx:138-151 | what is filled in from one visited parent, leaving every other preset alone |
| PresetInheritance.PresetsGraph.CheckAfterInherit | cmake-4.3.1/Source/cmCMakePresetsGraph.cxx:158-166 | the last check decides the visit and settles the preset |
| PresetFields.ConfigureSlot | cmake-4.3.1/Source/cmCMakePresetsGraph.cxx:765-797 | for each field, environment entry and cache variable of a configure preset: own value, else the parent's |
| PresetFields.BuildSlot | cmake-4.3.1/Source/cmCMakePresetsGraph.cxx:841-861 | the same for build presets |
| PresetFields.TestSlot | cmake-4.3.1/Source/cmCMakePresetsGraph.cxx:873-973 | the same for test presets, whose output, include, exclude and execution groups are merged member by member if both have them, and copied if only the parent does; the union flag goes with its group |
| PresetFields.PackageSlot | cmake-4.3.1/Source/cmCMakePresetsGraph.cxx:985-1010 | the same for package presets, for every field the function mentions |
| PresetFields.BareConfigure | cmake-4.3.1/Source/cmCMakePresetsGraph.cxx:765-797 | a configure preset that sets nothing gets everything its parent has, but for the debug and trace fields |
| PresetFields.BareBuild | cmake-4.3.1/Source/cmCMakePresetsGraph.cxx:841-861 | a build preset that sets nothing becomes its parent |
| PresetFields.BareTest | cmake-4.3.1/Source/cmCMakePresetsGraph.cxx:873-973 | so does a test preset, but for a filter with nothing in it |
| PresetFields.BarePackage | cmake-4.3.1/Source/cmCMakePresetsGraph.cxx:985-1010 | so does a package preset, but for the configuration file |
| PresetFields.MergeSlot | cmake-4.3.1/Source/cmCMakePresetsGraph.cxx:138-147 | the same for whole presets, with the environment |
| PresetFields.MergeAbsorbs | cmake-4.3.1/Source/cmCMakePresetsGraph.cxx:138-147 | inheriting twice from one parent changes nothing |
| PresetFields.MergeStaysAbsorbed | cmake-4.3.1/Source/cmCMakePresetsGraph.cxx:138-147 | a parent that has nothing more to give has nothing more to give after another parent either |
| PresetInheritance.SmallerPath | cmake-4.3.1/Source/cmCMakePresetsGraph.cxx:89-167 | an accepted preset is accepted with the same result from any smaller set of presets in progress: revisiting is harmless |
| PresetInheritance.ParentAbsorbed | cmake-4.3.1/Source/cmCMakePresetsGraph.cxx:119-152 | a parent merged earlier in the list changes nothing when merged again later |
| PresetInheritance.NoEmptyKey | cmake-4.3.1/Source/cmCMakePresetsGraph.cxx:108-117 | an accepted preset's resolved environment has no empty key, so the first check never fails on a revisit |
| PresetInheritance.ResolvedSlot | cmake-4.3.1/Source/cmCMakePresetsGraph.cxx:59-81 | in every slot the resolution is the own value, else that of the first parent in order that has one |
| PresetInheritance.InheritanceEquation | cmake-4.3.1/Source/cmCMakePresetsGraph.cxx:119-152 | in the final map every slot equals the own original value, else the first final parent value in order |
| PresetInheritance.AcceptsAlong | cmake-4.3.1/Source/cmCMakePresetsGraph.cxx:95-104 | along a chain of parents every preset was accepted with the chain in progress |
| PresetInheritance.AcceptedIsAcyclic | cmake-4.3.1/Source/cmCMakePresetsGraph.cxx:96-99 | an accepted preset is on no cycle of inheritance |
| PresetInheritance.AcyclicAccepts | cmake-4.3.1/Source/cmCMakePresetsGraph.cxx:89-167 | without cycles, with parents available and the local checks met, every visit succeeds |
| PresetInheritance.InheritanceVerdict | cmake-4.3.1/Source/cmCMakePresetsGraph.cxx:89-187 | all presets are accepted if and only if inheritance is acyclic, every parent exists in a file reachable from the child's, and the checks before and after inheriting hold |
| PresetInheritance.LastCheck | cmake-4.3.1/Source/cmCMakePresetsGraph.cxx:809-839 | the last check is what the slots of a preset demand: a configure preset's name for a visible build, test or package preset; for a visible configure preset a generator and a binary directory below version 3, no error made of a warning that is off, no cache variable without a name |
| PresetInheritance.LastCheckFromTexts | cmake-4.3.1/Source/cmCMakePresetsGraph.cxx:158-166 | a preset passes its last check if and only if the first values among itself and its ancestors meet these demands |
| PresetInheritance.InheritanceFromTexts | cmake-4.3.1/Source/cmCMakePresetsGraph.cxx:89-187 | all presets are accepted if and only if, as they were read, none inherits from itself, every parent exists in a file the child's reaches, no environment has an empty key, and every preset inherits what its kind demands |
| PresetInheritance.OwnFieldsStay | cmake-4.3.1/Source/cmCMakePresetsGraph.cxx:765-797 | the seven debug and trace fields of a configure preset, and the configuration file of a package preset, are never inherited |
| PresetInheritance.FoundWhenPresent | cmake-4.3.1/Help/manual/presets/schema.json:656 | inheriting is to give a value exactly when the preset or one of its ancestors, over any chain of parents, has one |
| PresetInheritance.OwnFieldAsDocumented | cmake-4.3.1/Help/manual/presets/schema.json:656 | one of these eight fields ends up as documented, own value else first parent's, if and only if the preset sets it or no ancestor does |
| PresetInheritance.TraceRedirectIsLost | cmake-4.3.1/Source/cmCMakePresetsGraph.cxx:765-797 | a concrete accepted pair of configure presets in which the parent's trace redirection is documented but not inherited |
| PresetInheritance.ConfigFileIsLost | cmake-4.3.1/Source/cmCMakePresetsGraph.cxx:985-1010 | a concrete accepted pair of package presets in which the parent's configuration file is documented but not inherited |
| PresetInheritance.UseUnionAsDocumented | cmake-4.3.1/Help/manual/presets/schema.json:1502 | the union flag of a test preset is as documented if and only if the first include group among the preset and its ancestors sets it, or there is none, or no preset among them sets it |
| PresetInheritance.UseUnionIsLost | cmake-4.3.1/Source/cmCMakePresetsGraph.cxx:914-928 | a concrete accepted pair of test presets in which the child's own include group keeps the parent's flag out |
| PresetConditions.ConditionsAsDocumented | cmake-4.3.1/Help/manual/cmake-presets.7.rst:1180-1183 | for every order of visits: each preset ends up with its own condition, none if that is null, else the first among its parents, if and only if no preset says null between a parent that gives a condition and a child |
| PresetConditions.NullIsLost | cmake-4.3.1/Source/cmCMakePresetsGraph.cxx:154-156 | such a preset ends up with a condition in every order of visits, although it is documented to have none |
| PresetConditions.NullInTheMiddle | cmake-4.3.1/Source/cmCMakePresetsGraph.cxx:149-156 | three concrete accepted presets in a row, the middle one with null |
| PresetConditions.VisitGives | cmake-4.3.1/Source/cmCMakePresetsGraph.cxx:89-167 | without such a preset: a visit gives the documented condition and takes none away, revisits included |
| PresetConditions.WalkGives | cmake-4.3.1/Source/cmCMakePresetsGraph.cxx:169-187 | the same for the walk over all presets; a preset that is no parent is visited once |
| PresetConditions.VisitForces | cmake-4.3.1/Source/cmCMakePresetsGraph.cxx:89-167 | in any state: one visit removes the null marker of the preset and of each parent, and leaves a condition wherever one is documented, or where the marker was gone before and a parent gives one |
| PresetConditions.VisitedTwice | cmake-4.3.1/Source/cmCMakePresetsGraph.cxx:169-187 | a preset with children is visited twice; after that it has a condition if its parents give one |
| PresetConditions.DocumentedAnywhere | cmake-4.3.1/Source/cmCMakePresetsGraph.cxx:119-152 | for an accepted preset the documented condition does not depend on what is in progress |
| MacroExpansion.EnvironmentExpander.ExpandEnvironment | cmake-4.3.1/Source/cmCMakePresetsGraph.cxx:410-444 | the verdict is that of the first failing variable in order; on success each value is the recursive expansion of the original texts |
| MacroExpansion.EnvironmentExpander.VisitEnv | cmake-4.3.1/Source/cmCMakePresetsGraph.cxx:464-482 | equals the recursive specification for every set of variables in progress, memoised values included |
| MacroExpansion.EnvironmentExpander.ExpandMacros | cmake-4.3.1/Source/cmCMakePresetsGraph.cxx:485-561 | scanning and expanding a text equals evaluating its tokens from the left |
| MacroExpansion.EnvironmentExpander.ScanCharacter | cmake-4.3.1/Source/cmCMakePresetsGraph.cxx:499-546 | each character keeps the scanner halfway on the text's tokens |
| MacroExpansion.EnvironmentExpander.ExpandMacro | cmake-4.3.1/Source/cmCMakePresetsGraph.cxx:563-580 | the chain of expanders equals the specification, an ignored reference ending as an error |
| MacroExpansion.EnvironmentExpander.EnvironmentMacro | cmake-4.3.1/Source/cmCMakePresetsGraph.cxx:229-259 | a reference to the preset's own environment expands it in place first; otherwise the process environment answers |
| MacroExpansion.LexKeepsText | cmake-4.3.1/Source/cmCMakePresetsGraph.cxx:488-557 | spelling the tokens out gives the text back, for every text |
| MacroExpansion.LeaveVariable | cmake-4.3.1/Source/cmCMakePresetsGraph.cxx:476-481 | storing an expanded value keeps the state consistent |
| MacroExpansion.FewerInProgress | cmake-4.3.1/Source/cmCMakePresetsGraph.cxx:464-482 | a successful expansion does not depend on which other variables are in progress |
| MacroExpansion.ExpandedOnce | cmake-4.3.1/Source/cmCMakePresetsGraph.cxx:429-444 | each final value is the original text with every reference replaced by the final value it names: expanded exactly once |
| MacroExpansion.ExpandsAlong | cmake-4.3.1/Source/cmCMakePresetsGraph.cxx:229-246 | along a chain of references every variable expands with the chain in progress |
| MacroExpansion.CycleFails | cmake-4.3.1/Source/cmCMakePresetsGraph.cxx:471-473 | a variable on a cycle of references never expands to Ok |
| MacroExpansion.EnvironmentVerdict | cmake-4.3.1/Source/cmCMakePresetsGraph.cxx:410-482 | all variables expand if and only if no references form a cycle and every other macro is terminated, known and supported |
| MacroExpansion.FirstFailureIs | cmake-4.3.1/Source/cmCMakePresetsGraph.cxx:429-444 | the verdict is Ok, or the failure of some variable |
| MacroExpansion.ExpandsWhenSound | cmake-4.3.1/Source/cmCMakePresetsGraph.cxx:464-482 | one variable expands if and only if everything it refers to, directly or not, is on no cycle and has only known, supported, terminated macros |
| MacroExpansion.VariableVerdict | cmake-4.3.1/Source/cmCMakePresetsGraph.cxx:464-580 | the verdict on one variable from the texts alone: Ok when sound, ignored when a vendor macro comes before anything else that fails, else an error |
| MacroExpansion.VerdictOrder | cmake-4.3.1/Source/cmCMakePresetsGraph.cxx:429-444 | the verdict is the same for every order that lists each variable once if and only if no variable is ignored, or none is an error, in the sense of the texts |
| MacroExpansion.MixedFailuresHappen | cmake-4.3.1/Source/cmCMakePresetsGraph.cxx:563-580 | a concrete environment that is an error in one order and ignored in the other |
| MacroExpansion.LexMacro | cmake-4.3.1/Source/cmCMakePresetsGraph.cxx:499-546 | a well-formed macro is one token |
| MacroExpansion.EscapeRoundTrip | cmake-4.3.1/Source/cmCMakePresetsGraph.cxx:485-561 | replacing each dollar by the dollar macro and expanding gives the original text, for every text |
| MacroExpansion.NoDollarFixedPoint | cmake-4.3.1/Source/cmCMakePresetsGraph.cxx:499-507 | text without a dollar expands to itself |
| MacroSyntax.ScannedAsDocumented | cmake-4.3.1/Help/manual/cmake-presets.7.rst:1267-1270 | the scanner finds exactly the documented macros, literal dollars and unclosed macros of a text if and only if it skips no dollar that begins a macro |
| MacroSyntax.ExpandsAsDocumented | cmake-4.3.1/Source/cmCMakePresetsGraph.cxx:485-561 | such a text expands as documented |
| MacroSyntax.DoubledDollar | cmake-4.3.1/Source/cmCMakePresetsGraph.cxx:507-526 | a second dollar in front of a macro: for every macro the text is left as it is, while as documented it would be a dollar and the macro's value |
| MacroSyntax.SecondDollarIsSkipped | cmake-4.3.1/Source/cmCMakePresetsGraph.cxx:507-526 | the same for the source directory's macro |
| MacroSyntax.ScanMacro | cmake-4.3.1/Source/cmCMakePresetsGraph.cxx:508-546 | a macro runs to the first closing brace; without one the rest of the text is an unclosed macro |
| MacroSyntax.ScanDollar | cmake-4.3.1/Source/cmCMakePresetsGraph.cxx:508-526 | a dollar that begins no macro is literal, together with the characters up to the one that rules a macro out |
| MacroSyntax.SourceDirMacro | cmake-4.3.1/Source/cmCMakePresetsGraph.cxx:630-633 | the macro's text expands to the source directory |
| MacroSyntax.SourceParentDirMacro | cmake-4.3.1/Source/cmCMakePresetsGraph.cxx:634-637 | to the source directory's parent directory |
| MacroSyntax.SourceDirNameMacro | cmake-4.3.1/Source/cmCMakePresetsGraph.cxx:638-641 | to the last component of the source directory |
| MacroSyntax.DollarMacro | cmake-4.3.1/Source/cmCMakePresetsGraph.cxx:642-645 | to a dollar |
| MacroSyntax.HostSystemNameMacro | cmake-4.3.1/Source/cmCMakePresetsGraph.cxx:646-652 | to the host system's name from version 3 on, before that it is an error |
| MacroSyntax.PathListSepMacro | cmake-4.3.1/Source/cmCMakePresetsGraph.cxx:661-667 | to the list separator from version 5 on |
| MacroSyntax.PresetNameMacro | cmake-4.3.1/Source/cmCMakePresetsGraphInternal.h:104-107 | to the preset's name |
| MacroSyntax.GeneratorMacro | cmake-4.3.1/Source/cmCMakePresetsGraphInternal.h:108-114 | to the generator, to nothing for a hidden preset |
| MacroSyntax.FileDirMacro | cmake-4.3.1/Source/cmCMakePresetsGraphInternal.h:115-122 | to the parent directory of the preset's file from version 4 on |
| MacroSyntax.UnknownMacro | cmake-4.3.1/Source/cmCMakePresetsGraph.cxx:563-580 | every other name without a namespace is an error |
| MacroSyntax.EnvironmentMacros | cmake-4.3.1/Source/cmCMakePresetsGraph.cxx:223-259 | a variable that the preset sets expands to its expansion, or is an error if that fails; others come from the process environment, or are empty; the process namespace never looks at the preset; a missing name is an error; a vendor macro is ignored |
| MacroSyntax.WhichMacrosExpand | cmake-4.3.1/Source/cmCMakePresetsGraph.cxx:563-580 | for every namespace and name: which macros other than references expand, and which are ignored |
| MacroSyntax.SourceDirFromParts | cmake-4.3.1/Help/manual/cmake-presets.7.rst:1278-1283 | parent directory, slash and last component expand to the source directory if and only if its parent is not a root |
| Paths.PartsOfPath | cmake-4.3.1/Source/kwsys/SystemTools.cxx:3751-3790 | for every path in the form CMake keeps: directory, slash and name are the path if and only if the parent is not a root; the name has no slash |
| Paths.UnixPathStays | cmake-4.3.1/Source/kwsys/SystemTools.cxx:2074-2120 | the conversion leaves such a path alone |
| PresetFiles.FileReader.ReadProjectPresets | cmake-4.3.1/Source/cmCMakePresetsGraph.cxx:1058-1089 | the user's file is the first to be read if there is one, and then the project's is read too; else the project's; without both the answer is the argument's. Success leaves each file's reachable files the closure of an acyclic include relation, in the maps exactly the presets of the files read, kind by kind and each with its file, and the stack empty; failure has a reason; if all names of a file agree, success if and only if there is none |
| PresetFiles.FileReader.ReadRoot | cmake-4.3.1/Source/cmCMakePresetsGraphReadJSON.cxx:472-808 | the same for one root file |
| PresetFiles.FileReader.ReadJSONFile | cmake-4.3.1/Source/cmCMakePresetsGraphReadJSON.cxx:472-492 | one file: found, cyclic, unreadable, or read with all its includes; the in-progress stack is restored |
| PresetFiles.FileReader.ReadNewFile | cmake-4.3.1/Source/cmCMakePresetsGraphReadJSON.cxx:579-807 | a file that was not read before: entered, followed to the end of its includes, and taken off the stack |
| PresetFiles.FileReader.FollowIncludes | cmake-4.3.1/Source/cmCMakePresetsGraphReadJSON.cxx:773-807 | all includes and the implicit one of a user root are followed, in order |
| PresetFiles.FileReader.StartFile | cmake-4.3.1/Source/cmCMakePresetsGraphReadJSON.cxx:579-746 | a new file is entered with itself reachable and its presets in the maps of their kinds, or they clash |
| PresetFiles.FileReader.RegisterPresets | cmake-4.3.1/Source/cmCMakePresetsGraphReadJSON.cxx:587-746 | the presets of a file are entered if and only if within each kind their names are nonempty, different and new |
| PresetFiles.FileReader.EnterPresets | cmake-4.3.1/Source/cmCMakePresetsGraphReadJSON.cxx:638-660 | one kind: the loop over its presets and its map |
| PresetFiles.FileReader.IncludeFile | cmake-4.3.1/Source/cmCMakePresetsGraphReadJSON.cxx:748-763 | an include adds one edge and inserts what the included file reaches |
| PresetFiles.FileReader.FindFile | cmake-4.3.1/Source/cmCMakePresetsGraphReadJSON.cxx:480-492 | a file already read under any of its names is found |
| PresetFiles.PresetsAreFound | cmake-4.3.1/Source/cmCMakePresetsGraphReadJSON.cxx:587-746 | the maps hold the presets of every file read, kind by kind |
| PresetFiles.ImplicitInclude | cmake-4.3.1/Source/cmCMakePresetsGraphReadJSON.cxx:796-805 | after the user's file the project's is read, whatever the includes |
| PresetFiles.AddFile | cmake-4.3.1/Source/cmCMakePresetsGraphReadJSON.cxx:579-585 | entering a file keeps closure and acyclicity |
| PresetFiles.AddEdge | cmake-4.3.1/Source/cmCMakePresetsGraphReadJSON.cxx:760-762 | inserting the reachable files of a finished include keeps closure and acyclicity |
| PresetFiles.ReachAfterEdge | cmake-4.3.1/Source/cmCMakePresetsGraphReadJSON.cxx:760-762 | what a new edge out of a file in progress adds to the closure |
| PresetFiles.NoCycleAfterEdge | cmake-4.3.1/Source/cmCMakePresetsGraphReadJSON.cxx:483-488 | a new edge to a file not in progress closes no cycle |
| PresetFiles.CycleIsTrouble | cmake-4.3.1/Source/cmCMakePresetsGraphReadJSON.cxx:483-488 | meeting a file in progress means that the names form an include cycle |
| PresetFiles.ClashIsTrouble | cmake-4.3.1/Source/cmCMakePresetsGraphReadJSON.cxx:589-600 | refused presets mean a bad name, or a name shared within one kind, among reachable files |
| PresetFiles.PathsToInclude | cmake-4.3.1/Source/cmCMakePresetsGraphReadJSON.cxx:748-758 | the stack lists files on an include path to the file being read |
| PresetFiles.NoTrouble | cmake-4.3.1/Source/cmCMakePresetsGraphReadJSON.cxx:472-808 | a complete read rules out every reason for refusal |
| PresetFiles.OneNameForEveryKind | cmake-4.3.1/Source/cmCMakePresetsGraph.h:400-404 | one name for presets of all five kinds is no reason to refuse |
| PkgConfig.PopulatePCTarget | cmake-4.3.1/Source/cmCMakePkgConfigCommand.cxx:933-967 | terminates; succeeds if and only if root and all reached packages are readable and their checked requirements met, and the root has exactly the version asked for with EXACT, or one that meets the version asked for without; then the output is exactly the set reachable through requirements not provided and not met by a target |
| PkgConfig.CheckPackageDependencies | cmake-4.3.1/Source/cmCMakePkgConfigCommand.cxx:839-884 | true exactly when all requirements checked now hold; the others are queued, each exactly once with its parent |
| PkgConfig.ImportPackage | cmake-4.3.1/Source/cmCMakePkgConfigCommand.cxx:604-637 | a queued package is read exactly when it exists and meets every requirement collected for it |
| PkgConfig.ImportRoot | cmake-4.3.1/Source/cmCMakePkgConfigCommand.cxx:554-596 | without a version argument the root is read exactly when it exists, with EXACT when in addition its version is that one, else when its version meets the argument |
| PkgConfig.QueuedStep | cmake-4.3.1/Source/cmCMakePkgConfigCommand.cxx:845-881 | one requirement checked or queued |
| PkgConfig.StaysHandled | cmake-4.3.1/Source/cmCMakePkgConfigCommand.cxx:948-961 | a requirement checked or queued stays accounted for when a package moves from one map to the other |
| PkgConfig.PackageRead | cmake-4.3.1/Source/cmCMakePkgConfigCommand.cxx:948-961 | one turn of the worklist keeps the invariant and makes progress |
| PkgConfig.ImportRefused | cmake-4.3.1/Source/cmCMakePkgConfigCommand.cxx:951-954 | a refused import makes the whole requirement set unsatisfiable |
| PkgConfig.DependencyRefused | cmake-4.3.1/Source/cmCMakePkgConfigCommand.cxx:955-958 | so does a refused dependency check |
| PkgConfig.WorklistEmpty | cmake-4.3.1/Source/cmCMakePkgConfigCommand.cxx:948-961 | an empty worklist means closure: exactly the reachable set, with all checks met |
| PkgConfig.LinksResolve | cmake-4.3.1/Source/cmCMakePkgConfigCommand.cxx:826-835 | every link written for a requirement of a read package names a provider, an existing target or another read package |
| PkgConfig.SuccessMeetsRequirements | cmake-4.3.1/Source/cmCMakePkgConfigCommand.cxx:949-960 | success means that all version requirements hold if and only if no package other than the root refuses itself |
| PkgConfig.SelfRequirementGoesUnchecked | cmake-4.3.1/Source/cmCMakePkgConfigCommand.cxx:949-960 | a concrete world where success hides a failed requirement of a package on itself |
| Algorithms.Rotate | cmake-4.3.1/Source/cmAlgorithms.h:19-27 | the two parts of the range change places and the new boundary is returned |
| Algorithms.RemoveN | cmake-4.3.1/Source/cmAlgorithms.h:31-37 | the first n elements move to the end, in order |
| Algorithms.RemoveIndices | cmake-4.3.1/Source/cmAlgorithms.h:73-95 | kept elements in order, then removed ones in order; the position returned is the length minus the number of indices |
| Algorithms.GatherMore | cmake-4.3.1/Source/cmAlgorithms.h:89-93 | one turn of the loop gathers the next removed element |
| Algorithms.GatherLast | cmake-4.3.1/Source/cmAlgorithms.h:94 | the last rotation finishes the partition |
| Algorithms.KeptBefore | cmake-4.3.1/Source/cmAlgorithms.h:83-93 | the writer is as far as elements are kept before the removed one |
| Algorithms.RemoveDuplicates | cmake-4.3.1/Source/cmAlgorithms.h:104-137 | the prefix is exactly the first occurrences, in order, for every hash function |
| Algorithms.Keep | cmake-4.3.1/Source/cmAlgorithms.h:128-132 | a new element is moved to the front and filed; no filed position is overwritten |
| Algorithms.KnownElement | cmake-4.3.1/Source/cmAlgorithms.h:127 | the lookup by bucket tells exactly whether the element is among the kept ones, because what was filed is intact |
| Algorithms.PositionSet.Contains | cmake-4.3.1/Source/cmAlgorithms.h:107-127 | finds a position filed under the hash of the element at hand whose present element is equal |
| Algorithms.PositionSet.Insert | cmake-4.3.1/Source/cmAlgorithms.h:131 | files a position under the hash of its element unless an equal element is found |
| Algorithms.FirstsExact | cmake-4.3.1/Source/cmAlgorithms.h:104-137 | first occurrences are distinct and have the same elements |
| Algorithms.FirstsInOrder | cmake-4.3.1/Source/cmAlgorithms.h:125-136 | they are the elements at increasing positions of the input |
| ArgumentParser.LowerBound | cmake-4.3.1/Source/cmArgumentParser.cxx:18-20 | binary search finds the first name that is not less |
| ArgumentParser.KeywordActionMap.Emplace | cmake-4.3.1/Source/cmArgumentParser.cxx:15-24 | the vector stays sorted; a known name is refused and changes nothing |
| ArgumentParser.KeywordActionMap.Find | cmake-4.3.1/Source/cmArgumentParser.cxx:26-32 | finds the action bound to the name, or none |
| ArgumentParser.EmplaceFirstWins | cmake-4.3.1/Source/cmArgumentParser.cxx:15-24 | an insertion changes the answer for its own name only |
| ArgumentParser.LessIsLexicographic | cmake-4.3.1/Source/cmArgumentParser.cxx:20 | the order of names: the first difference decides, and a prefix comes first |
| ArgumentParser.ArgumentAfter | cmake-4.3.1/Source/cmArgumentParser.cxx:53-192 | for each kind of binding: what the arguments behind a keyword, up to the next one, are; a flag takes none, a text the first, a list all, a callback up to the first at which it stops |
| ArgumentParser.ArgumentBefore | cmake-4.3.1/Source/cmArgumentParser.cxx:155-161 | in front of the first keyword an argument is positional exactly if its position is bound |
| ArgumentParser.KeywordsAreNames | cmake-4.3.1/Source/cmArgumentParser.cxx:145-153 | an argument is a keyword exactly if the keyword map has its name |
| ArgumentParser.MissingValueOf | cmake-4.3.1/Source/cmArgumentParser.cxx:194-210 | for each kind of binding: when an occurrence lacks a value; for texts and nonempty lists exactly when nothing follows, for optional texts, flags and the other lists never, for callbacks when fewer values were taken than expected |
| ArgumentParser.MembersHold | cmake-4.3.1/Source/cmArgumentParser.cxx:66-140 | for each kind of binding: what the member holds, in terms of the values of its keyword's occurrences |
| ArgumentParser.LessTotal | cmake-4.3.1/Source/cmArgumentParser.cxx:20 | of two different strings exactly one is less |
| ArgumentParser.Instance.Parse | cmake-4.3.1/Source/cmArgumentParser.h:264-283 | for a flat parser: a flag is set, a text is its last value, a list has all values in order, a list of lists has them in one list for each occurrence; members hold the values of their keyword's occurrences, unparsed arguments keep their order, a missing value is recorded for a keyword if and only if some occurrence took fewer values than expected |
| ArgumentParser.Instance.Consume | cmake-4.3.1/Source/cmArgumentParser.cxx:142-192 | one argument: keyword, positional, value or unparsed |
| ArgumentParser.Instance.FinishKeyword | cmake-4.3.1/Source/cmArgumentParser.cxx:194-210 | the missing value is recorded when too few were seen |
| ArgumentParser.Instance.Bind | cmake-4.3.1/Source/cmArgumentParser.cxx:53-140 | what each overload stores, expects and installs |
| ArgumentParser.Instance.StoreValue | cmake-4.3.1/Source/cmArgumentParser.cxx:66-140 | what each value function stores and whether it stays installed |
| ArgumentParser.LastKeyword | cmake-4.3.1/Source/cmArgumentParser.cxx:142-192 | the keyword that owns the arguments after it |
| ArgumentParser.EveryArgumentOnce | cmake-4.3.1/Source/cmArgumentParser.cxx:142-192 | keywords with the values they took, positional and unparsed arguments together count every argument, and none twice |
| ArgumentParser.ControlStep | cmake-4.3.1/Source/cmArgumentParser.cxx:142-192 | the parser's state agrees with the classes of the arguments so far |
| ArgumentParser.MembersStep | cmake-4.3.1/Source/cmArgumentParser.cxx:142-192 | so do the bound members |
| ArgumentParser.MissingStep | cmake-4.3.1/Source/cmArgumentParser.cxx:194-210 | so do the recorded missing values |
| ArgumentParser.MissingSettled | cmake-4.3.1/Source/cmArgumentParser.cxx:194-210 | the next keyword, or the end, settles whether the last one was starved |
| ArgumentParser.EmptyStep | cmake-4.3.1/Source/cmArgumentParser.cxx:86-98 | an empty-string error is recorded exactly for empty values of keywords that want nonempty ones |
| ArgumentParser.ConsumeStep | cmake-4.3.1/Source/cmArgumentParser.cxx:142-192 | all of the above for one turn of the loop |
| CacheHelp.OutputHelpString | cmake-4.3.1/Source/cmCacheManager.cxx:409-431 | writes one comment line for each piece |
| CacheHelp.OutputLine | cmake-4.3.1/Source/cmCacheManager.cxx:421-427 | one piece as a comment line, its newline escaped |
| CacheHelp.OutputKey | cmake-4.3.1/Source/cmCacheManager.cxx:376-384 | the key, quoted when it has a colon or begins with two slashes |
| CacheHelp.InputStream.GetLine | cmake-4.3.1/Source/kwsys/SystemTools.cxx:4149-4186 | one line without its newline and one trailing carriage return, up to a NUL |
| CacheHelp.ReadComments | cmake-4.3.1/Source/cmCacheManager.cxx:72-84 | the comment lines are put together and the first other line is left |
| CacheHelp.LoadEntry | cmake-4.3.1/Source/cmCacheManager.cxx:54-84 | one round of the reading loop, blank lines and remarks included |
| CacheHelp.PiecesJoin | cmake-4.3.1/Source/cmCacheManager.cxx:417-430 | cutting loses nothing and a newline is only ever the first character of a piece |
| CacheHelp.BlockIsRead | cmake-4.3.1/Source/cmCacheManager.cxx:72-84 | the reader goes through a written block and stops behind it |
| CacheHelp.PieceReadBack | cmake-4.3.1/Source/cmCacheManager.cxx:73-77 | a piece comes back exactly when it has no NUL, does not end in a carriage return and does not look escaped |
| CacheHelp.HelpRoundTrip | cmake-4.3.1/Source/cmCacheManager.cxx:409-431 | the help text comes back if and only if it is faithful, and for every key the line after the block is the key's line |
| CacheHelp.PlainHelpRoundTrip | cmake-4.3.1/Source/cmCacheManager.cxx:72-84 | text without carriage returns, NULs and a leading backslash-n comes back |
| CacheHelp.PiecesAreTheCut | cmake-4.3.1/Source/cmCacheManager.cxx:417-430 | the pieces are the only way to cut the text in front of every newline and of the first blank that has sixty characters in front of it |
| CacheHelp.BlockIsWritten | cmake-4.3.1/Source/cmCacheManager.cxx:417-430 | a text so cut is written as one line of two slashes and the piece for each, a newline at its front as backslash and n |
| CacheHelp.KeyIsNoComment | cmake-4.3.1/Source/cmCacheManager.cxx:376-384 | after a block no key's line is taken for a comment |
| CacheHelp.BareKey | cmake-4.3.1/Source/cmCacheManager.cxx:61-72 | without a help text: exactly which keys' lines are taken for a comment of two slashes |
| CacheHelp.BareKeyIsRead | cmake-4.3.1/Source/cmCacheManager.cxx:61-84 | without a help text: the key's line is read, unchanged, if and only if the key is quoted, is empty, or does not begin with a blank, a tab, a carriage return, a newline, a hash or a NUL |
| CacheHelp.EntryRoundTrip | cmake-4.3.1/Source/cmCacheManager.cxx:54-84 | for every help text and every key: help text and line are read as they were written if and only if the text is faithful, or is empty and the key stands alone |
| CacheHelp.HashKeyIsLost | cmake-4.3.1/Source/cmCacheManager.cxx:68-71 | a concrete key that begins with a hash: without a help text no entry is read |
| CacheHelp.ReturnIsLost | cmake-4.3.1/Source/cmCacheManager.cxx:72-84 | a concrete help text that ends in a carriage return, which is lost |
| Base32.EncodeLast | cmake-4.3.1/Source/cmBase32.cxx:55-90 | a short last group: filled up with zeros, cut, and padded if wanted |
| Base32.EncodeString | cmake-4.3.1/Source/cmBase32.cxx:39-93 | the loop over blocks and the rest computes the specified encoding |
| Base32.Encode5 | cmake-4.3.1/Source/cmBase32.cxx:15-33 | the buffer after a block |
| Base32.ValueOfChar | cmake-4.3.1/Source/cmBase32.cxx:7-13 | the table lists the alphabet of RFC 4648 section 6 in the order of its values |
| Base32.BlockDenotes | cmake-4.3.1/Source/cmBase32.cxx:15-33 | eight symbols denote the same 40-bit number as their five bytes |
| Base32.GroupDecodes | cmake-4.3.1/Source/cmBase32.cxx:55-82 | a short last group decodes to its bytes, the symbols not written being zero |
| Base32.RoundTrip | cmake-4.3.1/Source/cmBase32.cxx:39-93 | decoding gives back every byte sequence, padded or not |
| Base32.OneByteExample | cmake-4.3.1/Source/cmBase32.cxx:55-90 | the example of RFC 4648 section 10 for one byte |
| Base32.TwoBytesExample | cmake-4.3.1/Source/cmBase32.cxx:55-90 | for two bytes |
| Base32.ThreeBytesExample | cmake-4.3.1/Source/cmBase32.cxx:55-90 | for three |
| Base32.FourBytesExample | cmake-4.3.1/Source/cmBase32.cxx:55-90 | for four |
| Base32.FiveBytesExample | cmake-4.3.1/Source/cmBase32.cxx:39-53 | for a whole block |
| Base32.PaddingAppends | cmake-4.3.1/Source/cmBase32.cxx:68-89 | padding only appends 0, 6, 4, 3 or 1 padding characters |
| Base32.Lengths | cmake-4.3.1/Source/cmBase32.cxx:39-93 | ceiling of 8n/5 symbols without padding, a multiple of eight with it |
| Pagination.PaginationEngine.Paginate | UI_Application (WPF Core)/Services/PaginationEngine.cs:33-84 | the pages hold the greedy division of the lines, numbered from one, with their heights added up and all footnotes on the first |
| Pagination.PaginationEngine.PlaceLines | UI_Application (WPF Core)/Services/PaginationEngine.cs:52-75 | the loop: every round keeps finished pages, page at hand and remaining lines in step with the greedy division |
| Pagination.PaginationEngine.PlaceLine | UI_Application (WPF Core)/Services/PaginationEngine.cs:53-75 | one round: the next line is put on the page at hand, or the page is turned; the loop makes progress either way |
| Pagination.PaginationEngine.AddLine | UI_Application (WPF Core)/Services/PaginationEngine.cs:60-67 | a line that fits is added with its height and its footnotes |
| Pagination.PaginationEngine.TurnPage | UI_Application (WPF Core)/Services/PaginationEngine.cs:70-74 | a page is filed only when the next line does not fit, and it is never empty |
| Pagination.PaginationEngine.AddFootnotesForLine | UI_Application (WPF Core)/Services/PaginationEngine.cs:121-150 | all footnotes not yet placed are appended in order |
| Pagination.PageModel.ReserveHeight | UI_Application (WPF Core)/Models/PageModel.cs:317-320 | what remains of the page falls by the height |
| Pagination.PageModel.constructor | UI_Application (WPF Core)/Services/PaginationEngine.cs:89-101 | a new page is empty |
| Pagination.LineIsReached | UI_Application (WPF Core)/Services/PaginationEngine.cs:52-75 | every line up to the first too high one is reached after finitely many rounds |
| Pagination.HighLineBlocks | UI_Application (WPF Core)/Services/PaginationEngine.cs:52-75 | a line higher than an empty page is never passed, and pages without end are made |
| Pagination.NegativeIsTaken | UI_Application (WPF Core)/Services/PaginationEngine.cs:52-75 | with a negative line height every round takes a line, once the first is taken |
| Pagination.LoopEnds | UI_Application (WPF Core)/Services/PaginationEngine.cs:52-75 | for every line height: the loop ends if and only if no line is higher than an empty page, or, with a negative line height, the first line is not |
| Pagination.PageHolds | UI_Application (WPF Core)/Models/PageModel.cs:230 | a page holds the lines for which the line heights, half as much again for lines of more than fifty characters, are at most the page height less ninety |
| Pagination.HeightOfLines | UI_Application (WPF Core)/Services/PaginationEngine.cs:106-116 | the height of any lines in terms of their number and of how many are long |
| Pagination.OneHighLine | UI_Application (WPF Core)/Services/PaginationEngine.cs:52-75 | one line higher than a page: after any number of rounds no line is placed and that many empty pages are made |
| Pagination.FootnotesPlaced | UI_Application (WPF Core)/Services/PaginationEngine.cs:60-65 | all footnotes are on the pages if and only if there is a line or no footnote |
| Pagination.PagesAreOptimal | UI_Application (WPF Core)/Services/PaginationEngine.cs:52-81 | lines conserved in order, no page above its height, no fitting division with fewer pages |
| Pagination.FitsIsHereditary | UI_Application (WPF Core)/Services/PaginationEngine.cs:106-116 | part of a page that fits also fits |
| Greedy.FillIsGreedy | UI_Application (WPF Core)/Services/TextHelper.cs:87-108 | filling loses nothing, overflows only by a single item, and never leaves room for the next item |
| Greedy.FewestSegments | UI_Application (WPF Core)/Services/TextHelper.cs:87-108 | no fitting division has fewer segments than a maximal one |
| TextHelper.WrapText | UI_Application (WPF Core)/Services/TextHelper.cs:77-111 | the lines are the greedy lines, trimmed |
| TextHelper.WordsOfText | UI_Application (WPF Core)/Services/TextHelper.cs:84 | the words are what gaps of blanks and tabs, and of nothing else, leave of the text |
| TextHelper.WhiteSpaceIs | UI_Application (WPF Core)/Services/TextHelper.cs:81 | the characters that count as white space |
| TextHelper.TrimTakesAll | UI_Application (WPF Core)/Services/TextHelper.cs:94 | trimming takes all white space from both ends and nothing else |
| TextHelper.LinesWithinLimit | UI_Application (WPF Core)/Services/TextHelper.cs:89-97 | a line is within the limit or is one word that alone is too long |
| TextHelper.FewestLines | UI_Application (WPF Core)/Services/TextHelper.cs:87-108 | no order-preserving wrapping within the limit uses fewer lines |
| TextHelper.WordsKept | UI_Application (WPF Core)/Services/TextHelper.cs:94 | for one limit: the words are kept if and only if trimming changes no joined line |
| TextHelper.WordsKeptForEveryLimit | UI_Application (WPF Core)/Services/TextHelper.cs:84-94 | for every limit: if and only if trimming changes no word |
| TextHelper.EdgeLineBreakIsLost | UI_Application (WPF Core)/Services/TextHelper.cs:84-107 | a concrete text whose word is altered |
| Words.SplitTakesApart | UI_Application (WPF Core)/Services/TextHelper.cs:84 | splitting takes every text apart into its words and the gaps between them |
| TextParser.WordsOfParagraph | UI_Application (WPF Core)/Services/TextParser.cs:160 | the words of a paragraph are what gaps of blanks alone leave of it |
| TextParser.MarkerIsCurrencySign | UI_Application (WPF Core)/Services/TextParser.cs:190-216 | the last line of a paragraph, and no other, gets the currency sign, by which last lines are recognised and which is removed |
| TextParser.TextParser.WrapLinesToWidth | UI_Application (WPF Core)/Services/TextParser.cs:153-198 | in any state: the paragraphs wrapped by the widths that are answered, last lines marked; by the true widths while the cache is accurate and no family swallows another |
| TextParser.TextParser.WrapParagraph | UI_Application (WPF Core)/Services/TextParser.cs:160-194 | one paragraph, likewise: greedy lines by answered width, the last one marked |
| TextParser.AnswersStay | UI_Application (WPF Core)/Services/TextParser.cs:111-148 | asking in a font changes no answer in that font, whatever is cached |
| TextParser.OneFamily | UI_Application (WPF Core)/Services/TextParser.cs:116 | one family never swallows itself, whatever its name: its widths are always right |
| TextParser.TextParser.MeasureTextWidth | UI_Application (WPF Core)/Services/TextParser.cs:111-148 | the answer and the cache after any request in any state; the width of the text in the font while no family swallows another |
| TextParser.KeysCollide | UI_Application (WPF Core)/Services/TextParser.cs:116 | different requests share a cache key if and only if, behind a bar, one family's name ends with a bar, a size, a bar and another family's name |
| TextParser.AnswerIsWidth | UI_Application (WPF Core)/Services/TextParser.cs:111-148 | while no family swallows another, the answer is the width in the font asked for and the cache stays accurate |
| TextParser.CacheIsRight | UI_Application (WPF Core)/Services/TextParser.cs:111-148 | after every history of requests and for every measure the answers are right if and only if no family swallows another |
| TextParser.WrongWidth | UI_Application (WPF Core)/Services/TextParser.cs:116-118 | two concrete requests: the second is answered with the width of the first |
| TextParser.LinesWithinWidth | UI_Application (WPF Core)/Services/TextParser.cs:169-193 | a line of several words was measured within the width before it was marked |
| TextParser.FewestLines | UI_Application (WPF Core)/Services/TextParser.cs:164-188 | if parts of a line are never wider than the line, no other wrapping has fewer lines |
| TextParser.ParagraphsRecovered | UI_Application (WPF Core)/Services/TextParser.cs:203-216 | for one width: cutting behind marked lines recovers the words of every non-blank paragraph if and only if no other line ends with the marker |
| TextParser.RecoveredForEveryWidth | UI_Application (WPF Core)/Services/TextParser.cs:153-216 | for every width: if and only if no word but a paragraph's last ends with the marker |
| TextParser.MarkedWordSplits | UI_Application (WPF Core)/Services/TextParser.cs:190-216 | a concrete paragraph that is cut in two because a word in its middle ends with the marker |

## Left out

- ComponentGraph.ComponentGraphBuilder.Compute: a second call on the same object, because the list of components is not cleared; the width of size_t is modelled only by the fact that indices stay below the invalid one.
- PresetInheritance.PresetsGraph.ComputePresetInheritance: workflow presets, which have no parents and inherit nothing; what a condition evaluates to; the conditions lie in a map beside the presets instead of in a field; what a failed run leaves in the presets; values of fields are kept abstract where the code only copies them.
- MacroExpansion.EnvironmentExpander.ExpandEnvironment: conditions and the remaining fields of a preset, which are expanded after the environment; process environment, home directories, platform and host properties are parameters; environment names listed in any order stand for the order of the map.
- Paths.UnixPathStays: which file names exist and where a path leads; the source directory is a text.
- PresetFiles.FileReader.ReadProjectPresets: the converse of its failure clause needs all names of one file to agree on includes and presets, because relative includes are resolved against the name a file was read by; a file pointer is an index into the list of files; JSON decoding, version gates and error texts are not modelled, a readable valid file is given with the names of its presets of each kind and its includes; the five maps of presets are one map by kind and name.
- PkgConfig.PopulatePCTarget: reading a package is a deterministic lookup, the version comparison an arbitrary predicate, an EXACT version is given as it is after parsing, the iteration order of the map arbitrary; the properties of the created targets beyond which names are linked.
- Algorithms.RemoveIndices: positions are natural numbers in one array instead of iterators.
- Algorithms.RemoveDuplicates: elements that were moved from keep no defined value, and none is claimed; the hash stands for the bucket, growing of the table is not modelled.
- ArgumentParser.Instance.Parse: sub-parsers, trailing arguments, the ParsedKeyword and KeywordMissingValue callbacks, two keywords bound to one member, and calls without a result or a list for unparsed arguments.
- ArgumentParser.KeywordActionMap.Emplace: the position map, which is the same code over numbers, is modelled as a map.
- CacheHelp.LoadEntry: parsing of the entry's line (cmState::ParseCacheEntry is not part of this model), the newline truncation warning, and the values of entries.
- Base32.EncodeString: the pointer arithmetic over the input, which is an index here.
- Pagination.PaginationEngine.Paginate: floating point rounding; the extraction of footnotes and the collapse of white space in front of the loop, which leave at most one line, so the loop is modelled over any list of lines; page width and columns.
- Pagination.PagesAreOptimal: holds under the condition under which the loop ends.
- TextHelper.WrapText: string length counts characters, not UTF-16 code units.
- TextParser.TextParser.WrapLinesToWidth: widths are an arbitrary function of text, size and family; a size stands for its printed form, which holds no bar; the marker is compared by character, not by culture.
- ColumnLayoutEngine, rendering, windows, the database and the glyph library: drawing, input and output.
- Command handlers of CMake, file system and process calls, archive and binary scanners.
