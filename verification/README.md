# The D front end's lowering, modelled and proved in Dafny

GDC turns the D front end's syntax trees into the trees of GCC's middle end.
Most of that is plumbing, but in several places the generated code has to mean
something definite, or a small algorithm has to keep a promise. This project
models those places and proves what they promise, for all inputs and all runs.
`dafny verify dfyconfig.toml` checks everything.

| part | files | what is modelled |
|---|---|---|
| structured control flow | Statements, Generic, LoopLowering, LoopLabels, LoopMeaning, LoopGotos, IRVisitor | `do`, `for`, unrolled loops, `if`, scopes, `try`/`finally` and plain or labelled `break` and `continue` become LOOP_EXPR, GOTO_EXPR and LABEL_EXPR; labels sit on two stacks and are emitted only when used |
| gotos into try blocks | BindingLevels, GotoRules, GotoChecker | the state machine over binding levels that rejects jumps into `try` and `catch` |
| static chains and closures | StaticChains | which functions get a frame, how frames are linked at run time, and the expression that reaches an outer frame |
| array operations | ArrayExps, ArrayOps, SecondPass, ArrayLoops, ArrayNames | `a[] = b[] + c[]` becomes a loop function, found again by a mangled name |
| equality of structs and arrays | StructLayouts, Comparisons, StructData, ArrayEquality | a block comparison, a comparison field by field and a generated loop |
| the front end's hash table | BucketChains, AssociativeArray | buckets of nodes linked through pointers, relinked in place when the table grows |
| make dependencies | Dependencies, Quoting, MakeRules | the search of the import graph, the text of the rule, the quoting of targets, and what make reads |

How it is done. Statements and generated trees each have an evaluator, with an
arbitrary world deciding what conditions yield and what throws, and with fuel
that bounds how often one loop goes round, so that runs that do not end are
compared too. Where the source updates fields in place there is a class
(`IRVisitor`, `GotoChecker`, `FrameTable`, `IdentBuilder`, `LoopBuilder`,
`ArrayFunctions`, `AA`) whose methods are proved equal to a specification
function; the theorems are about that function. `IRVisitor` keeps the label
stacks as tops plus a link from each label to the one below, as the source does
with DECL_CHAIN. Expressions of the source are cut down to what the part depends
on: for control flow the point at which they are evaluated and whether they are
marked as having side effects.

## Where the code falls short of its intent

Where a property fails, the code is kept as it is, the condition under which the
property does hold is proved, and a concrete example shows the failure.

- A labelled break or continue is looked up under the statement that the label
  holds at the end of the semantic pass (gcc/d/toir.cc:327-353), labels are
  registered under the loops. There are two ways for this to go wrong, and then
  the goto names a label that is never emitted. `continue` with the label of an
  unrolled loop (a `foreach` over a tuple) does, since the visitor registers
  continue labels for the single copies only (672-699). And any jump does whose
  loop the semantic pass has wrapped: `L: foreach (x; make().tupleof) break L;`
  becomes an unrolled loop inside a compound statement that evaluates `make()`
  first (gcc/d/dfrontend/statementsem.c:726-736), and the label holds the
  compound statement. All gotos find their labels if and only if neither occurs
  (`GotosFindOneLabelIff`, `ContinueToUnrolledDangles`,
  `BreakFromWrappedDangles`).
- When a level is left, every pending forward jump of a label is moved to the
  outer level (gcc/d/d-codegen.cc:70-74), although the comment on the data
  (gcc/d/d-tree.h:110-112) says that an entry moves as *its* scopes are closed.
  A jump into a `try` block is then missed when some inner block of it ends
  before the label, as in `goto L; try { { } L: }`. Every report is genuine;
  the reports are complete if and only if the jump had entered no `try` or
  `catch` level when a level was last left (`ForwardCompleteIff`,
  `JumpIntoTryMissed`). With the test `ref->level == bl` added the same theorem
  holds without the condition (`ReportsExactly`, for `guarded`). Over a whole run
  the two report the same if and only if no jump was inside such a level when a
  level was last left before its label (`SameReportsIff`).
- The name of an array function has no types for scalar operands
  (gcc/d/dfrontend/arrayop.c:277-281), though their parameters have
  (427-433), and scalar operators may have operands of two types: a real number
  beside a complex or an imaginary one keeps its own
  (gcc/d/dfrontend/impcnvgen.c:287-289). So in `a[] = b[] + x*y` and
  `a[] = b[] + z*y`, with complex arrays, y and z and a `double` x, both
  operations have one name, and the function made for one does not take the
  arguments of the other. Operations of one name need the same function, and
  the one found takes the arguments, if and only if their scalar operands have
  pairwise the same types (`NameDeterminesFunction`, `MixedScalarsShareName`,
  `ArrayFunctions.ArrayOp`).
- Operands have been through the semantic pass when they are copied, without the
  types of their operators, into the loop (gcc/d/dfrontend/arrayop.c:519-528),
  which goes through it again. In `a[] = b[] + (p - q)` the difference of
  pointers is divided by the size of what they point to
  (gcc/d/dfrontend/expression.c:12941), and in the loop once more. The loop body
  stays as it was built if and only if no pointer is added to or subtracted from
  (`BodyStaysIff`, `PointersDividedTwice`).
- A union without fields passes `identity_compare_p`, so it is compared as a
  block (gcc/d/d-codegen.cc:1886-1887), but field by field there is nothing to
  compare (1930-1931, 2008-2009): two such objects are always equal, two arrays
  of them need not be (`BlockAgreesIff`, `ArraysDecidedIff`,
  `EmptyUnionsInArrays`).
- What is no struct is compared whole, unions and static arrays too, and
  `identity_compare_p` looks at no padding inside: that of the elements of a
  static array, the bytes of a union that no member has, the last bytes of a
  `real` (gcc/d/d-target.cc:142-143). Two structs are equal if and only if their
  data are, whatever is in the padding, exactly if nothing compared whole has
  padding (`ComparesDataIff`, `PaddingInArrays`, `PaddingInUnions`,
  `PaddingInReals`).
- Names of modules in a make rule are not quoted, though targets are: the rule
  reads back as the list of names if and only if no name is empty or has a blank,
  a tab, a number sign, a dollar sign or a newline in it, none but the last ends
  in a backslash, and the last in an even number of them (`NamesReadBackIff`,
  `NamesMisread`).
- Quoting a target does not look at its end, and the blank between two targets is
  quoted by a backslash before it: a list of targets reads back if and only if
  none is empty or has a newline, and none but the last ends in a backslash
  (`TargetsReadBackIff`, `TargetsMisread`).

## Model

| member | source | states |
|---|---|---|
| LoopGotos.LoweringPreservesMeaning | gcc/d/toir.cc:177-352 | for every function body whose labelled jumps lead to their loops (the condition of GotosFindOneLabelIff), every world, history and amount of fuel: the generated trees end the way the statement ends, with the same history and returning the value of the same expression, evaluated at the same time, even if finally blocks run in between; scopes make their variables anew in the same places; no jump is left over |
| LoopMeaning.Simulates | gcc/d/toir.cc:177-352 | the same, returned values included, for any statement inside any loops: what escapes it as a break or continue becomes a jump to the label of the loop it names, whichever labels were used before |
| LoopMeaning.SimulatesDo | gcc/d/toir.cc:236-263 | a LOOP_EXPR with its exit test and break label goes round exactly as often as the do statement does, and ends as it ends |
| LoopMeaning.SimulatesFor | gcc/d/toir.cc:266-304 | test, body, continue label and increment in this order are a for loop, with or without test and increment |
| LoopMeaning.SimulatesUnrolled | gcc/d/toir.cc:672-699 | a loop that is left at the end of its first round runs the copies once each, a continue going on with the next copy |
| LoopMeaning.SimulatesTry | gcc/d/toir.cc:857-874 | jumps, returns and exceptions that leave a try block run its finally block first, which may replace them |
| LoopMeaning.RunLoop | gcc/d/toir.cc:140-145 | a jump to the break label behind a loop ends the loop and nothing else does |
| Generic.RunAppend | gcc/d/d-codegen.cc:202-238 | running a list and then another is running their concatenation, jumps from the first finding labels in the second |
| Generic.JumpsAreGotos | gcc/d/toir.cc:121-128 | a label that a list jumps to is named by some goto in it |
| LoopGotos.GotosFindOneLabelIff | gcc/d/toir.cc:110-162 | every goto of a function finds exactly one label if and only if every labelled break and continue is looked up where the loop it names has registered its label |
| LoopGotos.LabelsOnlyWhereUsed | gcc/d/toir.cc:110-119 | in every function body, dangling gotos or not, a loop label is emitted at most once, and only if some goto uses it |
| LoopGotos.Resolves | gcc/d/toir.cc:110-162 | for any statement: emitted labels are the registered ones that gotos use, once each, and its gotos lead to labels of its own or around it just when the labelled jumps in it lead to their loops |
| LoopGotos.ContinueToUnrolledDangles | gcc/d/toir.cc:343-353 | a program of three statements whose continue jumps to a label that is not there, while the statement itself ends normally |
| LoopGotos.BreakFromWrappedDangles | gcc/d/dfrontend/statementsem.c:726-736 | a break out of a tuple foreach wrapped into a compound statement jumps to a label that is not there, while the statement itself ends normally |
| IRVisitors.IRVisitor.Visit | gcc/d/toir.cc:168-711 | the visitor appends the lowered trees to the current list, marks exactly the labels jumped to, and leaves both label stacks, and the links of all labels not its own, as it found them |
| IRVisitors.IRVisitor.PopBreakLabel | gcc/d/toir.cc:140-145 | the label below becomes the top, and the label is emitted if it was used |
| IRVisitors.IRVisitor.VisitUnrolled | gcc/d/toir.cc:672-699 | imperative form of the unrolled loop, equal to its lowering |
| IRVisitors.BuildFunction | gcc/d/toir.cc:1055-1060 | the code of a function body: gotos resolved if and only if the condition holds, and then the meaning is that of the body in every world, with the values it returns; every label written in the body is there |
| LoopLabels.LoweringKeeps | gcc/d/d-codegen.cc:202-217 | whatever is lowered: every label written in it is in the code exactly as often, and no tree, at any depth, evaluates something for nothing |
| GotoCheckers.GotoChecker.PopBindingLevel | gcc/d/d-codegen.cc:119-158 | the level outside becomes current and every label's entry is updated, in any order of the table |
| GotoCheckers.GotoChecker.PopBindingLabel | gcc/d/d-codegen.cc:57-77 | a label attached to the level moves outwards and remembers a try or catch it leaves; otherwise its pending jumps move, all of them as written |
| GotoCheckers.GotoChecker.CheckPreviousGoto | gcc/d/d-codegen.cc:3887-3911 | one report for each try and catch level from the label's level out to the level held for the jump, the innermost first |
| GotoCheckers.GotoChecker.DefineLabel | gcc/d/d-codegen.cc:3987-4009 | all deferred jumps are checked and the entry starts afresh at the current level |
| GotoCheckers.CheckRun | gcc/d/d-codegen.cc:57-158 | the errors of a whole run of the checker are those that the rules on complete scopes give |
| GotoRules.ReportsExactly | gcc/d/d-codegen.cc:3862-4009 | the errors of every possible run: for a jump back, whether a try (or else a catch) level open at the label's definition has been left; for a jump forward, the try and catch levels entered since the level last held for it |
| GotoRules.EntriesKnow | gcc/d/d-codegen.cc:57-77 | invariant of every run: each label's level is the deepest level of its definition that is still open, its flags say which kinds were left, its pending jumps are held by the levels the rules name |
| GotoRules.LevelIsDeepestOpen | gcc/d/d-codegen.cc:57-69 | a defined label is attached to the part of its scope that is still open, and to nothing deeper |
| GotoRules.ForwardCompleteIff | gcc/d/d-codegen.cc:70-74 | as written, a forward jump gets all its reports if and only if it had entered no try or catch level when a level was last left |
| GotoRules.MissedReports | gcc/d/d-codegen.cc:70-74 | what a jump should get is what it gets, followed by exactly the levels it had entered when a level was last left |
| GotoRules.SameReportsIff | gcc/d/d-codegen.cc:57-77 | over a whole run the code as written and the guarded code report the same if and only if no jump was inside a try or catch level when a level was last left before its label |
| GotoRules.EnteredReportsIff | gcc/d/d-codegen.cc:3892-3910 | there is a report if and only if some try or catch level of the label does not enclose the jump |
| GotoRules.EnteredReportsEach | gcc/d/d-codegen.cc:3892-3910 | there is exactly one report for each try or catch level of the label that does not enclose the jump, the innermost first, and each says which kind of level or which switch label |
| GotoRules.EnteredTellsKind | gcc/d/d-codegen.cc:3892-3910 | for a label the reports name the jump and say try exactly for an entered try level and catch exactly for a catch level; for a case or default label they name that label |
| GotoRules.JumpIntoTryMissed | gcc/d/d-codegen.cc:70-74 | five events after which a jump into a try block has no report as written and one report when guarded |
| BindingLevels.ScopesShare | gcc/d/d-codegen.cc:108-158 | a scope and a later one share their outer levels and nothing else |
| StaticChains.FrameTable.GetFrameInfo | gcc/d/d-codegen.cc:4431-4509 | the memoised computation with its search outwards gives each function the frame that the recursive definition gives, and keeps what it has given before; whether there is a frame type and whether the frame is the function's own is as in HasFrameIff |
| StaticChains.InfoShape | gcc/d/d-codegen.cc:4431-4509 | a function has its own frame, shares one, or has none, never both; a shared frame is that of the innermost function around that creates one; it is a closure just when its owner needs one; whoever has variables for nested functions has its own |
| StaticChains.HasFrameIff | gcc/d/d-codegen.cc:4431-4509 | a function has a frame type if and only if it, or a function around it, has nested references, a compiled contract, a need for a closure or a context; the frame is its own if and only if it has variables for nested functions, needs a closure, or is the outermost of these |
| StaticChains.FramesInside | gcc/d/d-codegen.cc:4474-4499 | inside a function with a frame every function has one, and one that creates none shares its parent's |
| StaticChains.GetFrameDecl | gcc/d/d-codegen.cc:4515-4557 | the loop outwards builds the expression that follows one link for each frame on the way |
| StaticChains.RunsAreGood | gcc/d/d-codegen.cc:4367-4425 | invariant of every run of calls and captures: entry chains are those of the enclosing activation, own frames are linked to them, captured contexts are the chain of the activation captured |
| StaticChains.StepKeepsGood | gcc/d/d-codegen.cc:4367-4425 | every call, capture and entry keeps that invariant |
| StaticChains.FrameExprFindsHome | gcc/d/d-codegen.cc:4515-4557 | after any run, from any activation, the expression for an outer function has the value of a frame of the right type, made by the lexically enclosing activation |
| StaticChains.WalkFindsHome | gcc/d/d-codegen.cc:4515-4557 | walking out from an activation reaches the static chain of the enclosing activation of the function walked to |
| StaticChains.ChainIsFrame | gcc/d/d-objfile.cc:849-869 | the static chain inside a function with a frame type points to a frame of that type made by the enclosing activation it is for, shared or not |
| StaticChains.SameInstanceIff | gcc/d/d-codegen.cc:434-458 | two accesses to a variable of an outer function reach the same instance exactly when both are inside the same activation of it |
| StaticChains.CaptureKeepsGood | gcc/d/d-codegen.cc:4040-4130 | the context taken for an outer function is the static chain of its enclosing activation |
| ArrayOps.IdentBuilder.Visit | gcc/d/dfrontend/arrayop.c:266-405 | the first traversal appends the mangled operators and operands and puts the operands, the last one first, before the arguments collected so far |
| ArrayLoops.LoopBuilder.Build | gcc/d/dfrontend/arrayop.c:412-546 | the second traversal returns the loop body and puts its parameters in front, numbered in the order of their making |
| ArrayLoops.TraversalsMeet | gcc/d/dfrontend/arrayop.c:266-546 | argument k of the one traversal always meets parameter k of the other: same operand, type and kind |
| ArrayLoops.DestinationFirst | gcc/d/dfrontend/arrayop.c:464-502 | parameter 0 is the destination and the only array that may be written |
| ArrayLoops.ValidIff | gcc/d/dfrontend/arrayop.c:104-144 | an operation is valid if and only if every array operand is a slice or a literal of other than void elements, and every operator on arrays is one for array operations |
| ArrayLoops.BodyMeans | gcc/d/dfrontend/arrayop.c:412-546 | the loop body at index i, with the arguments bound, computes element i of the vector expression |
| ArrayLoops.ElementKept | gcc/d/dfrontend/arrayop.c:43-99 | elements already written do not change what is read later, if slices are the destination or apart from it |
| ArrayLoops.CallFunction | gcc/d/dfrontend/arrayop.c:43-99 | calling the generated function, whose body is what the semantic pass leaves and finds its arguments through the names of its parameters, stores the element-wise value at each index of the destination and changes nothing else, if no pointer is added to or subtracted from |
| ArrayLoops.BodyStaysIff | gcc/d/dfrontend/arrayop.c:80-93 | the semantic pass over the generated function leaves its loop body as it was built if and only if no pointer is added to or subtracted from in the operation |
| ArrayLoops.PointersDividedTwice | gcc/d/dfrontend/expression.c:12941 | an accepted operation whose loop divides a difference of pointers once more than its operand does |
| ArrayLoops.MeetBinds | gcc/d/dfrontend/arrayop.c:43-99 | where parameters meet arguments, each name stands for the argument at its parameter's place |
| ArrayNames.ReadsBack | gcc/d/dfrontend/arrayop.c:266-405 | spelled tokens can be read back, so names are uniquely decodable |
| ArrayNames.ReadsShape | gcc/d/dfrontend/arrayop.c:266-405 | reading the tokens with a stack gives the shape of the expression, whatever is on the stack |
| ArrayNames.NameTellsShape | gcc/d/dfrontend/arrayop.c:200-209 | two operations have the same name if and only if they have the same shape and element type |
| ArrayNames.SameFunction | gcc/d/dfrontend/arrayop.c:371-396 | from the shape, with its marks on operands narrower than their operation, and the element type of the whole, the types of all arrays among the operands follow, and with the types of the scalars all parameters and the loop body; nested assignments included |
| ArrayNames.SameElems | gcc/d/dfrontend/cast.c:3261-3320 | operands of an operator on arrays, as the semantic pass types them, have the same types if the marks and the type of the result are the same |
| ArrayNames.NameDeterminesFunction | gcc/d/dfrontend/arrayop.c:200-232 | operations with the same name need the same function, with the same loop, parameters of the same types and the same result, if and only if their scalar operands have pairwise the same types |
| ArrayNames.MixedScalarsShareName | gcc/d/dfrontend/impcnvgen.c:287-289 | two accepted operations with one name, a real operand in one and a complex one in the other, that need different functions |
| ArrayNames.ArrayFunctions.FindOrMake | gcc/d/dfrontend/arrayop.c:209-221 | the function in the table under the name is the one made for the first operation of that name, which is the one this operation needs if and only if the scalar operands of both have the same types; no function in the table is ever replaced |
| ArrayNames.ArrayFunctions.ArrayOp | gcc/d/dfrontend/arrayop.c:176-238 | rejected exactly for void elements, for an array operand that is neither a slice nor a literal of other than void elements, or for another operator; and else a call, with the arguments of this operation, of the function made first; its parameters have the types of the arguments if and only if it is exactly the function that would be made for this operation |
| ArrayNames.ArrayFunctions.Execute | gcc/d/dfrontend/arrayop.c:176-238 | any operation through the table, in any state it can be in, stores what it means, or its call is rejected, which happens if and only if the first operation of its name had scalar operands of other types |
| StructLayouts.IdentityCompareP | gcc/d/d-codegen.cc:1884-1918 | the loop over the fields with its early exits decides the recursive definition |
| StructLayouts.IdentityCovers | gcc/d/d-codegen.cc:1884-1918 | an accepted struct without empty unions in it, overlapping fields or not, has its every byte covered by fields at every depth |
| StructLayouts.CoveredIff | gcc/d/d-codegen.cc:1884-1918 | without overlapping fields, every byte is covered if and only if the struct is accepted and has no union without fields in it |
| StructLayouts.FindHole | gcc/d/d-codegen.cc:1904-1915 | a rejected struct has a byte, found by construction, that no field covers |
| Comparisons.LowerStructComparison | gcc/d/d-codegen.cc:1924-1997 | the field loop builds the chain of comparisons that the recursive lowering describes, struct fields compared recursively |
| Comparisons.LowerMeans | gcc/d/d-codegen.cc:1924-1997 | the expression is true if and only if the bytes of all fields agree, `!=` is its exact negation, and nothing outside the structs is read |
| ArrayEquality.StructComparisonMeans | gcc/d/d-codegen.cc:2005-2035 | whichever form is chosen, it is true if and only if the bytes of all fields agree, provided an accepted struct has no union without fields in it; `!=` is the exact negation and nothing outside is read |
| ArrayEquality.BuildStructComparison | gcc/d/d-codegen.cc:2005-2035 | the expression built, evaluated on any two structs of the type wherever they are, says whether the bytes of their fields agree |
| ArrayEquality.BlockAgreesIff | gcc/d/d-codegen.cc:1884-1918 | a block comparison and a comparison field by field agree on all objects if and only if the struct is accepted and has no union without fields |
| StructData.ComparesDataIff | gcc/d/d-codegen.cc:1884-1997 | comparison finds structs the same just when they hold the same data, if and only if it looks at no byte of padding; without overlapping fields that is, if and only if no union, static array or value in the struct has padding inside |
| StructData.CompactIff | gcc/d/d-codegen.cc:1884-1997 | with overlapping fields, too, it looks at no padding if no union, static array or value has any inside |
| StructData.PaddingInArrays | gcc/d/d-codegen.cc:1893-1901 | an accepted struct with a static array of a struct with a hole: its padding decides equality |
| StructData.PaddingInUnions | gcc/d/d-codegen.cc:1934-1941 | bytes of a union that belong to no member decide equality |
| StructData.PaddingInReals | gcc/d/d-target.cc:142-143 | the padding of a real decides equality |
| ArrayEquality.EqualArrays | gcc/d/expr.cc:185-284 | for every element type, what is built, run on any two arrays with at least as much fuel as there are elements, says whether they have the same length and pairwise equal elements, where structs with an equality function, and values that are neither structs, integers nor void, are compared by an equality of their own, whatever it is |
| ArrayEquality.ArrayEqualityMeans | gcc/d/expr.cc:185-284 | the same for one pair of arrays and one equality: inlined exactly where what elements hold decides |
| ArrayEquality.LoopMeans | gcc/d/d-codegen.cc:2083-2105 | the generated loop ends after at most one round for each element with the answer for all of them, stopping at the first difference |
| ArrayEquality.BlockOfElements | gcc/d/expr.cc:229-235 | a block comparison of n elements is the comparison of each |
| ArrayEquality.ArrayComparisonMeans | gcc/d/expr.cc:185-265 | array `==` is true if and only if lengths and all elements are equal, `!=` is its exact negation; nothing is read outside the arrays or behind the null pointer of an empty one |
| ArrayEquality.ArraysDecidedIff | gcc/d/expr.cc:225-241 | for structs without overlapping fields this holds for all arrays if and only if an accepted element struct has no union without fields |
| ArrayEquality.EmptyUnionsInArrays | gcc/d/expr.cc:225-241 | two empty unions that are equal, and two arrays of them that are not |
| BucketChains.HashInjective | gcc/d/dfrontend/aav.c:24-28 | different keys have different hashes, so they meet in a bucket only because of the mask |
| BucketChains.MaskIsRemainder | gcc/d/dfrontend/aav.c:82 | masking a hash with a power of two less one takes its remainder |
| BucketChains.MaskedHash | gcc/d/dfrontend/aav.c:82 | the index the code computes is the bucket that the key belongs to |
| BucketChains.PlacedInsert | gcc/d/dfrontend/aav.c:96-101 | appending a new key's node to its bucket keeps every node in the bucket of its key, once |
| BucketChains.RehashedPlaced | gcc/d/dfrontend/aav.c:143-176 | rehashing loses, duplicates and adds no node and puts each into its bucket |
| AssociativeArrays.AA.Find | gcc/d/dfrontend/aav.c:82-91 | following the links finds the node of a key, or the last node of its bucket |
| AssociativeArrays.AA.Get | gcc/d/dfrontend/aav.c:63-111 | the slot of a key is the same object as long as the array lives; a new key gets a new slot with a null value; no other slot moves or changes; the buckets stay the same object if and only if there are then at most two keys for each, and else there are more, a power of two |
| AssociativeArrays.AA.Rehash | gcc/d/dfrontend/aav.c:143-176 | four buckets become 32, more become four times as many; the map, every slot and its value stay; each node is at the front of its new bucket in the order moved |
| AssociativeArrays.MoveNodes | gcc/d/dfrontend/aav.c:160-166 | relinking one list in place moves its nodes to the new buckets and leaves the lists still to be moved alone |
| AssociativeArrays.AaGet | gcc/d/dfrontend/aav.c:63-111 | the same through a handle that may be null, when the array is made first |
| AssociativeArrays.AaGetRvalue | gcc/d/dfrontend/aav.c:119-136 | the value of a key, null for a missing key or array |
| AssociativeArrays.AaLen | gcc/d/dfrontend/aav.c:51-54 | the number of keys |
| AssociativeArrays.RunCalls | gcc/d/dfrontend/aav.c:51-176 | any sequence of calls, from a null handle on, with writes and reads through slots handed out at any earlier time, is answered as a mathematical map answers it |
| Dependencies.DepsWrite | gcc/d/d-lang.cc:220-323 | on any import graph, cyclic or not, the writer ends; it writes reachable modules only, each source file once, and all reachable modules if and only if their source files are distinct; the module itself is named first; the text is the rule with its names on lines that NamesWrapped describes |
| Dependencies.NamesWrapped | gcc/d/d-lang.cc:241-276 | no line is longer than the limit and one, apart from the backslash at its end, unless it is one name that stands alone; a line is broken only where the next name would not have fitted, and never without a limit; the column is the length of the last line |
| Dependencies.ColumnOfText | gcc/d/d-lang.cc:241-276 | while target and names have no newlines, the column is the number of characters behind the last newline of the text |
| Dependencies.PhonyRulesFor | gcc/d/d-lang.cc:278-323 | there is an empty rule for each module written that is not compiled here and for no other, in the order written |
| Dependencies.SearchWrites | gcc/d/d-lang.cc:255-309 | writing a module and pushing its imports keeps the invariant that imports of written modules are written or wait |
| Dependencies.ChainWritten | gcc/d/d-lang.cc:249-310 | when nothing waits, every module at the end of a chain of imports has been written |
| MakeRules.NamesReadBackIff | gcc/d/d-lang.cc:263-276 | the rule reads back as the list of names, wherever lines are wrapped, if and only if every name means the same unquoted and no backslash at the end of one quotes what follows |
| MakeRules.NamesMisread | gcc/d/d-lang.cc:276 | a blank makes two names of one, a number sign hides the rest, a dollar sign leaves nothing to read |
| Quoting.AddTarget | gcc/d/d-lang.cc:174-215 | the loops that write a quoted target, counting backslashes backwards before a blank, write its quoted form |
| Quoting.QuotedReadsBack | gcc/d/d-lang.cc:191-214 | every target, whatever is in it, is read back from its quoted form, and no blank in that form is unquoted |
| MakeRules.TargetsReadBackIff | gcc/d/d-lang.cc:174-215 | a list of quoted targets reads back as the list if and only if none is empty or has a newline, and none but the last ends in a backslash |
| MakeRules.AddTargets | gcc/d/d-lang.cc:174-215 | what adding one target after the other collects reads back as the list of targets under the same condition |
| MakeRules.RuleReadsBackIff | gcc/d/d-lang.cc:237-322 | a whole rule, with targets, colon, wrapped names and whatever follows on other lines, reads back as its targets and names if and only if these can be listed and no target has a colon |
| MakeRules.WriteRule | gcc/d/d-lang.cc:220-323 | the text written for any import graph and any targets: its first rule reads back as the targets and the files written under that condition |
| MakeRules.TargetsMisread | gcc/d/d-lang.cc:178-180 | two targets that are read as one |

## Left out

- User gotos, `switch`, `try`/`catch`, `with`, return labels and out contracts in the control-flow lowering; the front end's hoisting of loop initialisers (gcc/d/dfrontend/statementsem.c:383-425) is assumed, so a for loop has none.
- LoopGotos.GotosFindOneLabelIff: the semantic pass is not modelled. A label comes with the loop it was put in front of and the object it has come to hold, which may be any; if it is not that loop, nothing is registered under it.
- A returned value is known by the expression it comes from; its conversion to the return type and the return through a named result variable (gcc/d/toir.cc:620-638) are left out. Returns of void expressions have been split by the semantic pass (gcc/d/dfrontend/statementsem.c:2459-2467).
- IRVisitors.IRVisitor.Visit: the lists of trees are a sequence of sequences, and BIND_EXPRs are made for scopes with variables only; source locations and binding levels are not part of this visitor's model.
- LoopGotos.LoweringPreservesMeaning: an expression is the point at which it is evaluated; its value is any function of that point and of what was evaluated before.
- The checker of gotos clears its labels when a function's own level is left (gcc/d/d-codegen.cc:133-141); runs here stay inside one function.
- StaticChains.FrameTable.GetFrameInfo: nested classes and structs between functions are folded into `parent` and `member`; the error cases of get_frame_for_symbol (gcc/d/d-codegen.cc:4047-4118), the extra parent of contracts, and copies of parameters into frames are not modelled.
- StaticChains: a frame stays readable after its activation ends; whether needsClosure is set where it must be is decided by analyses that are not part of this model.
- ArrayLoops.CallFunction: operands' slices are no shorter than the destination and overlap with it only when they start where it starts, as the language demands; conversions, arithmetic and rounding are arbitrary functions.
- ArrayNames.ArrayFunctions.ArrayOp: element types are basic, their manglings lower-case letters. A call is taken to be rejected when an argument has another type than its parameter; real, imaginary and complex numbers do not convert to one another (gcc/d/dfrontend/mtype.c:3649-3670). The test that the target can be modified is not modelled, nor are array-typed casts, which isArrayOpValid rejects, and assignments with other operators (`<<=`) among the operands.
- ArrayLoops.BodyMeans: is about the loop body as it was built. Of the semantic pass over it only arithmetic on pointers is modelled; it also takes a real number divided by an imaginary one, which the pass over the operand has turned into a negated quotient of reals (gcc/d/dfrontend/expression.c:13318-13325), for a real number, so that `a[] = b[] + (x/v)*z` with an imaginary v and a complex z loses a factor.
- ArrayNames.ArrayFunctions.Execute: one assignment, at the top; the meaning of an assignment among the operands is left out.
- ArrayEquality.EqualArrays: both operands have one element type; the source takes both from the left operand (gcc/d/expr.cc:194-195), so its test that they agree always succeeds. A comparison by _adEq2 (266-284) is taken to compare elements by their own equality; overflow of the multiplication of length and size cannot happen for arrays in memory.
- MakeRules.RuleReadsBackIff: the first colon ends the targets, quoted or not. Semicolons and wildcards mean something to make too; they are plain characters here, since the writer quotes none of them anywhere.
- Comparisons.LowerMeans: an integer or the bits of a field in an integer mode are compared as unsigned numbers, least significant byte first; evaluating operands once (stabilize_expr, save_expr) is taken for granted.
- AssociativeArrays.AA: the first node is embedded in the table in the source, a separate object here; the size of the table is not bounded by memory; freeing the old buckets is not modelled.
- Dependencies.DepsWrite: the target is given; writing the buffer to a file is left out.
- BucketChains.HashInjective: words are natural numbers, shifts are divisions, and exclusive or goes bit by bit.
- Truth-value conversion, argument classification, vtable offsets, generated postblits and overflow-checked arithmetic, which would add mostly case distinctions.
