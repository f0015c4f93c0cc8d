# Kurila runtime: a verified model of its core algorithms

Kurila is a dialect of Perl; this project models the parts of its C runtime in which an algorithm
rests on an invariant, and proves what those parts are for. Code that updates state in place is
modelled by classes and loops over arrays, fields and maps; each such method is proved against a
function on plain values, and lemmas then say what that function means.

| part of the runtime | files |
|---|---|
| Perl arrays: a sequence with slack at both ends of its buffer, reference counts, amortised growth (`av.c`) | `ArraySpec.dfy`, `Av.dfy` |
| linearizations of @ISA: the C3 merge and the recursion over parents (`mro.c`) | `C3.dfy`, `Linearization.dfy`, `LinearIsa.dfy` |
| method cache: dates (`mro.c`), symbol-table entries and shared bodies, cached lookup, glob assignment, definitions on shared bodies, whole runs (`gv.c`) | `Mro.dfy`, `SymbolTable.dfy`, `GlobAssignment.dfy`, `SharedSubs.dfy`, `MethodLookup.dfy`, `MethodRuns.dfy`, `ClassPaths.dfy`, `ClassRuns.dfy`, `MethodCache.dfy` |
| qualified names and nested stashes (`gv.c`) | `Stashes.dfy`, `Names.dfy` |
| `vec`, bitwise string operators, `chomp`, `chop` (`doop.c`, `utf8.c`) | `Pv.dfy`, `Vec.dfy`, `Vop.dfy`, `Chomp.dfy`, `Chop.dfy` |
| the escaping printer and the op sequencer (`dump.c`) | `Escape.dfy`, `OpGraph.dfy`, `Sequencer.dfy` |
| blocks, dynamic scopes and on-leave handlers, run levels (`cop_i.h`, `cop.h`) | `LeaveHandlers.dfy`, `BlockStack.dfy`, `RunLevels.dfy` |
| direct execution of a command line (`doio.c`), decimal digits of integer types (`handy.h`) | `Exec.dfy`, `Digits.dfy` |

`dafny verify dfyconfig.toml` verifies everything.

## Where a natural property is false of the code

For each of these the model keeps the code as it is; a lemma or a clause says exactly when the
property holds, or gives the input for which it fails.

- `av_unshift` on an array that is neither REAL nor REIFY takes head slack back without clearing
  it: a shifted element reappears (`PerlArray.Av.Unshift`, `PerlArray.Av.ShiftThenUnshift`).
- `av_delete` with G_DISCARD on such an array drops a reference that the array never held
  (`PerlArray.Av.Delete`).
- `vec` shifts an uncast byte by 24 (`doop.c:184`): a 64-bit read of a string that ends five bytes
  into the element reads a sign extension if the fifth byte has its top bit set
  (`Vec.GetIsElement`). A later `vec` assignment that lengthens the string cures it
  (`Vec.GetElsewhere`). Widths above 64 bits store nothing and read 0.
- A bitwise operator whose target is only the right operand empties it before reading it
  (`Vop.EmptiedRight`).
- `gv_fetchmeth` at a level other than 0 or -1 remembers a failure without having asked UNIVERSAL,
  and later lookups believe it. `MethodLookup.OtherLevels` says exactly when the answer is right and
  exactly when the cache stays right; `MethodLookup.OtherLevelsPoisonTheCache` is an input for which
  they do not.
- Assigning a glob dates nothing, and `gp_ref` clears cached methods but not remembered failures, so
  glob assignment can leave wrong answers in the cache. `GlobAssignment.AssignMethod`,
  `GlobAssignment.AssignNothing` and `GlobAssignment.AssignRemoves`, together
  `GlobAssignment.AssignExactly`, cover all assignments and say for each exactly when it does not;
  `GlobAssignment.AliasLeavesStaleChild` and `GlobAssignment.AliasSpreadsFailure` are two inputs for
  which it does.
- Defining a sub in an entry whose body other entries share changes the methods of all of them, but
  dates only the descendants of one class, so other classes may go on believing the old sub.
  `SharedSubs.DefineExactly` says exactly when they do not; `SharedSubs.DefineLeavesStaleChild` is an
  input for which they do.
- mro_isa_changed_in dates the caches and forgets linearizations before it computes the new one. If
  that dies, because the new @ISA is cyclic or inconsistent, @ISA has changed but the new ancestors
  have not heard of the class; and if the hierarchy is mended without assigning to that class again,
  later definitions do not date it. `ClassRuns.UnannouncedDates` and `ClassRuns.DeadClassMisled` are
  an input for which a lookup goes wrong. `SharedSubs.DefineExactly`, which does not assume that
  anybody has heard of anybody, says exactly when a definition leaves the caches right;
  `ClassRuns.ClassRunsAgree` says that in whole runs they are right for every class that inherits from
  no class whose last assignment died.
- A package name is cut off at "::" as expected only if it is not empty and the number of colons at
  its end is a multiple of three, because the walk does not look at the character behind a
  separator (`QualifiedNames.RoutesSplit`, `QualifiedNames.FetchSplitsExactly`,
  `QualifiedNames.EmptyPackage`).
- The op sequencer does not end on some cyclic graphs. Its loop goes on for ever exactly when it passes
  an op and comes from there to an op_next cycle of ops that it passes and that have no number yet
  (`OpGraph.EndlessExactly`); a call ends if and only if it comes to no such loop
  (`Sequencer.HaltsExactly`). The call for a match op that is its own successor does not end
  (`Sequencer.MatchLoop`); that for a scope op that is its own successor does, because the first op
  of a call is numbered (`Sequencer.ScopeLoop`). `Sequencer.CallHalts` is a sufficient condition on
  the graph and the ops numbered before.
- `pv_escape` with FIRSTCHAR reports 0 bytes even after writing one (`Escape.PvEscape`), so
  `pv_pretty` puts dots behind any string that is not empty, also one it has written whole
  (`Escape.PvPretty`).
- The UTF-8 test behind `chop` accepts surrogates and code points up to U+13FFFF (the comment above
  it, `utf8.h:308`, says 0x1fffff) and the forms of five and six bytes. It accepts exactly the
  encodings of lists of numbers below 0x140000 or from 0x200000 to 0x7fffffff
  (`Chop.IsUtf8Exactly`; `Chop.MoreThanUtf8` has two inputs). Chopping is right for all of them.
- 146/485 is a little more than the logarithm of 2: BIT_DIGITS is exact below 485 bits and one too
  many at 485 (`DecimalDigits.BitDigitsNeeded`, `DecimalDigits.BitDigitsLoose`); for any number of
  bits `DecimalDigits.BitDigitsExactly` says when it is exact.

## Model

| member | source | states |
|---|---|---|
| `ArraySpec.TrimmedMeaning` | av.c:720-725 | what a delete at the end leaves is the array without exactly its trailing undefs |
| `ArraySpec.DeleteReads` | av.c:686-737 | a delete makes one index read as undef and no other, and leaves no undef at the end when the last element went |
| `ArraySpec.StoreReads` | av.c:266-281 | a store changes the read of one index only; a gap it opens reads as undef |
| `ArraySpec.ResizeReads` | av.c:644-680 | a resize leaves every index below the new length as it was and makes the others read as undef |
| `ArraySpec.IndexMeaning` | av.c:245-249 | an element has one index from the front and one from the end, where -1 is the last |
| `ArraySpec.HeadMatters` | av.c:549-558 | reusing head slack gives undefs in front exactly when the slack held undefs |
| `ArraySpec.SlotsMeaning` | av.c:36-46 | how many references an array owns to a value is the number of slots holding it |
| `ArraySpec.SlotsStore` | av.c:276-281 | a store gives up the reference of the element it replaces and takes one to the new value |
| `ArraySpec.SlotsDelete` | av.c:710-732 | a delete takes exactly one slot of the deleted value away, trimming included |
| `ArraySpec.SlotsResized` | av.c:644-680 | lowering the highest index gives up exactly the references of the elements cut off; raising it none |
| `ArraySpec.GrownSlotsBounds` | av.c:126-142 | the doubling loop yields at least the slots wanted and at most one more than twice as many |
| `ArraySpec.GrownSlotsExactly` | av.c:126-142 | the loop yields the least number of the form 2^(k+1) - 2 that is enough |
| `ArraySpec.PushOntoFull` | av.c:119-142 | a push onto a full buffer of any size: it grows to the least such number with room for a fifth of the highest index more |
| `ArraySpec.FullBufferDoubles` | av.c:120-142 | pushing onto a full buffer of 2^k - 2 slots grows it to 2^(k+1) - 2 |
| `ArraySpec.PushesCopyLinearly` | av.c:120-142 | n pushes onto a new array copy at most 2n slots through reallocation, and find room for n elements |
| `ArraySpec.PushesExactly` | av.c:119-157 | exactly how many slots n > 4 pushes onto a new array have allocated and copied: 2^k - 2 and 2^k + 2 - 2k |
| `ArraySpec.UnshiftsSlideLinearly` | av.c:559-575 | n single unshifts of a new array slide at most 2n elements |
| `ArraySpec.UnshiftsExactly` | av.c:549-576 | exactly how far n unshifts have come: with p the least power of two not below n, p - 1 elements slid and p - n slots of head slack left |
| `PerlArray.Av.Make` | av.c:306-332 | a new REAL array with the given elements, one reference to each |
| `PerlArray.Av.Reify` | av.c:25-49 | an unowned array becomes REAL with its elements unchanged, its slack undef and every element counted once per slot |
| `PerlArray.Av.RoundUp` | av.c:126-142 | the doubling loop computes the recurrence of the amortised bound, and its result is never below what was asked |
| `PerlArray.Av.Extend` | av.c:61-172 | room for an index; no element changes, slack of a REAL array is undef, the buffer grows by the recurrence |
| `PerlArray.Av.Store` | av.c:237-293 | a store at an index counted from either end is the store on the plain sequence; references are conserved; a negative index out of range changes nothing |
| `PerlArray.Av.Fetch` | av.c:188-235 | finds exactly the elements there are, or as an lvalue creates the missing one; otherwise changes nothing |
| `PerlArray.Av.Exists` | av.c:740-760 | true exactly for an index in range whose element is not undef |
| `PerlArray.Av.Push` | av.c:459-470 | appends one element and takes over one reference; an unshifted array grows by the recurrence |
| `PerlArray.Av.PushAll` | av.c:120-142 | pushing a list of n values onto a new array copies at most 2n slots in total |
| `PerlArray.Av.UnshiftOneByOne` | av.c:559-575 | n single unshifts of a new array slide at most 2n elements in total |
| `PerlArray.Av.Pop` | av.c:482-501 | removes the last element, whose reference passes to the caller |
| `PerlArray.Av.Shift` | av.c:588-612 | removes the first element, whose reference passes to the caller, leaving one more slot of head slack |
| `PerlArray.Av.Unshift` | av.c:534-577 | puts undefs in front, exactly when the array is REAL or REIFY or the reused slack holds undef; one slot costs what the recurrence says |
| `PerlArray.Av.ShiftThenUnshift` | av.c:534-612 | on a fake array a shift followed by an unshift brings the shifted element back |
| `PerlArray.Av.UnshiftOne` | av.c:513-523 | puts one value in front of every kind of array |
| `PerlArray.Av.Fill` | av.c:644-680 | setting the highest index resizes the plain sequence, undefs filling the growth; references are conserved |
| `PerlArray.Av.Delete` | av.c:686-737 | the delete on the plain sequence; references are conserved with G_DISCARD exactly if the array is or becomes REAL or the element is uncounted |
| `PerlArray.Av.Clear` | av.c:340-390 | empties the array, gives up all its references and, if there is a highest slot (AvMAX is not negative), gives the head slack back |
| `PerlArray.Av.Undef` | av.c:398-412 | the same, and the buffer goes |
| `Mro.MethodChangeLeaves` | gv.c:324-460 | a method is invisible to lookups of other names and to classes that do not inherit from its class |
| `Mro.NewStashLookup` | mro.c:28-45 | a new empty class changes no lookup, not even as UNIVERSAL |
| `Mro.MethodChangeReaches` | mro.c:451-490 | dating a method change reaches every class that can see the method except its own |
| `Mro.MethodChangeDates` | mro.c:451-490 | it dates exactly the classes known to inherit from the class, or all if UNIVERSAL does, and each once |
| `Mro.IsaChangeKeepsRevCovers` | mro.c:310-418 | after an @ISA change every class still knows everyone who inherits from it |
| `Mro.IsaChangeKeepsWf` | mro.c:310-418 | no linearization that is out of date stays remembered |
| `Mro.RelinearizedIsHeard` | mro.c:310-418 | what C3 guarantees of the linearizations before and after is what the caches assume, when everybody has heard of their descendants |
| `Mro.IsaChangeReaches` | mro.c:310-418 | dating an @ISA change reaches every class that may be looked up in afterwards and whose linearization, or whose UNIVERSAL's, is not what it was |
| `Mro.IsaDeathDates` | mro.c:324-383 | an @ISA change, also one that dies, dates exactly those and the class itself, once, and forgets their linearizations and no others |
| `Mro.IsaChangeDates` | mro.c:385-418 | if it does not die the new linearization is remembered, and exactly the ancestors in it hear of the class and its descendants |
| `SharedSubs.RedefinedLookup` | gv.c:356-459 | when several classes get a sub at once, a search that consults one of them answers with it, and any other answers as before |
| `SharedSubs.DefineExactly` | op.c:3660-3680 | defining a sub changes the methods of exactly the entries on its body; cached results stay right if and only if every other class that consults one of them, and is not dated, remembers that sub |
| `SharedSubs.DefineMeaning` | op.c:3660-3680 | in an entry with a body of its own it changes exactly that method and leaves every cached result right |
| `SharedSubs.DefineLeavesStaleChild` | op.c:3660-3680 | a definition through one of two names, after which a subclass of the other still believes the old sub |
| `SymbolTable.DeletedMeaning` | hv.c:1008-1021 | deleting an entry, also one on a shared body, removes exactly its method and leaves every cached result right |
| `SymbolTable.UndefinedMeaning` | pp.c:676-697 | so does `undef *glob` |
| `SymbolTable.NewStashMeaning` | mro.c:28-45 | creating a stash changes no lookup and leaves every cached result right |
| `SymbolTable.RelinearizeMeaning` | mro.c:310-418 | an @ISA change changes exactly the linearizations and leaves every cached result right |
| `SymbolTable.DiedMeaning` | mro.c:310-390 | one that dies takes linearizations away and leaves every cached result right for the classes that keep theirs |
| `SymbolTable.OperationDates` | hv.c:1008-1021 | a definition and `undef` of a method date those who hear of it once, a deletion twice; without a method, and on assignment, nobody is dated |
| `SymbolTable.NewDates` | mro.c:28-45 | a new entry dates nobody; a new stash starts at cache_gen 1 |
| `SymbolTable.NewGlobKeepsBodies` | gv.c:167-186 | a new entry has a body of its own, counted once |
| `SymbolTable.GpFreeKeepsBodies` | gv.c:1083-1120 | the count of a body stays the number of entries on it, and its contents are released exactly when the last entry leaves |
| `SymbolTable.GpRefKeepsBodies` | gv.c:1063-1080 | the count follows the new entry and no cached method gets onto a shared body |
| `SymbolTable.AliasedKeepsBodies` | sv.c:2773-2778 | a glob assignment keeps counts exact and cached methods off shared bodies |
| `GlobAssignment.AssignMethod` | gv.c:1063-1080 | assigning an entry with a method installs that method and no other; cached results stay right if and only if every class that consults the target's class for it, and remembers a current answer, remembers that method |
| `GlobAssignment.AssignNothing` | gv.c:1063-1080 | assigning between entries without methods changes no method; cached results stay right if and only if a failure remembered on the shared body is not newer than the target's date and, if of that date, true for the target |
| `GlobAssignment.AssignRemoves` | gv.c:1063-1080 | assigning an entry without a method to one with takes just that method away; cached results stay right if and only if a remembered failure is true for the target and every class that consults it and remembers the method finds it further on |
| `GlobAssignment.AssignExactly` | gv.c:1063-1080 | the three together: what any assignment does to the program, and one condition on the tables before it that decides whether cached results stay right |
| `GlobAssignment.ConsultsDecides` | gv.c:356-459 | a search that does not consult a class does not depend on its method; one that does answers with it |
| `GlobAssignment.AliasLeavesStaleChild` | sv.c:2773-2778 | an assignment after which a subclass still believes the replaced method |
| `GlobAssignment.AliasSpreadsFailure` | gv.c:1069-1077 | an assignment that carries a remembered failure to an entry whose class inherits the method |
| `MethodLookup.FetchRight` | gv.c:356-459 | from a table whose cached results are right, the cached search answers as the cache-free one, defines nothing and leaves cached results right |
| `MethodLookup.FetchRemembers` | gv.c:430-449 | a search that had an entry of its own settles the next one |
| `MethodLookup.StubIsForgotten` | gv.c:418-428 | a stub is never remembered |
| `MethodLookup.LineIsRemembered` | gv.c:382-392 | a search remembers the linearization of its class, and of others at most that of UNIVERSAL |
| `MethodLookup.FetchUniversal` | gv.c:440-443 | the same for the search in UNIVERSAL with which a failing search goes on, which does not go on itself |
| `MethodLookup.FetchMethRight` | gv.c:324-460 | the whole of gv_fetchmeth, the null stash and every level: the program is unchanged, counts stay exact, and at levels 0 and -1 the answer is the cache-free one |
| `MethodLookup.EntriesAfter` | gv.c:337-359 | exactly at level 0 and above, and with a class, an entry is made for the name |
| `MethodLookup.OtherLevels` | gv.c:440-456 | at any other level: exactly when the answer is the cache-free one, and exactly when every cached result is still right afterwards |
| `MethodLookup.OtherLevelsPoisonTheCache` | gv.c:440-456 | a lookup at level 1 after which an existing method of UNIVERSAL is not found at level 0 |
| `MethodRuns.StepRefines` | gv.c:324-460 | one operation of any kind, on entries that may be shared, does to the names what the cache-free reference does; and if and only if it meets its condition, cached results are right afterwards and a lookup answers as it should |
| `MethodRuns.RunsAgree` | gv.c:324-460 | over every run of operations of all kinds and lookups at all levels that meet their conditions every lookup answers as the cache-free search does |
| `MethodRuns.NewInterpreterIsSound` | gv.c:324-460 | the runs may start from a new interpreter |
| `MethodRuns.StepKeepsGood` | gv.c:1063-1120 | one operation of any kind keeps counts exact, releases nothing twice and keeps cached methods off shared bodies |
| `MethodRuns.GlobRuns` | gv.c:1063-1120 | over every run from a new interpreter, whatever the conditions: a body counts the entries on it, is released once and exactly when no entry is left, and holds no cached method while it is shared |
| `C3.MergeElements` | mro.c:176-246 | a merge has exactly the classes of its lines, each once |
| `C3.MergeKeepsOrder` | mro.c:176-246 | and keeps the order of each of them |
| `C3.MergeExactly` | mro.c:176-246 | there is a merge if and only if some list without repeats keeps the order of every line |
| `C3.MergeIs` | mro.c:176-246 | a list is the merge if and only if each of its classes in turn is the first head of a line, among what is left of the lines, that is in no tail, and it goes on until nothing is left |
| `C3.MergeApart` | mro.c:176-246 | lines that share no class, behind the list of their heads, are merged one after the other |
| `Linearization.LineKeepsOrder` | mro.c:108-246 | the list of parents, and each parent's linearization, keep their order in that of the class |
| `Linearization.NoClassTwice` | mro.c:166-246 | no class comes twice in a linearization |
| `Linearization.SingleParent` | mro.c:108-246 | with a single parent the linearization is the class and then that of the parent |
| `Linearization.IndependentParents` | mro.c:108-246 | with parents whose linearizations share no class it is the class and then these, in order |
| `Linearization.ParentAndChild` | mro.c:61-268 | a hierarchy with its linearizations |
| `Linearization.OneLine` | mro.c:61-268 | a class has only one linearization |
| `Linearization.IsaChangeRelinearizes` | mro.c:61-268 | what a change of one @ISA can do to the linearizations is what the dates of the caches assume |
| `LinearIsa.Round` | mro.c:180-228 | one round over the lines, with the heads moved and the tail counts adjusted in place, finds the candidate and takes it off every line that it heads |
| `LinearIsa.MergeLines` | mro.c:120-246 | the rounds compute the merge, or find it inconsistent |
| `LinearIsa.Classes.GetLinearIsa` | mro.c:61-268 | the recursion with its cache returns the linearization and remembers only right ones; it fails only if there is none or its ancestors are more than the levels left |
| `ClassPaths.ClearLinesSolve` | mro.c:61-268 | the classes that can be linearized and inherit from no dead one have linearizations that C3 makes from each other's |
| `ClassPaths.PathHeard` | mro.c:310-418 | after an @ISA assignment every class at the end of a path of inheritance without a dead class has heard of its beginning, or hears of it through the assignment |
| `ClassPaths.AssignmentHeard` | mro.c:310-418 | such an assignment changes the linearizations of classes that are dated only, and announces all new descendants |
| `ClassPaths.CoversLines` | mro.c:310-418 | when everybody has heard along all such paths, every class in a linearization has heard of the class it belongs to |
| `ClassPaths.DeathLeaves` | mro.c:310-390 | one that dies leaves the linearizations of the clear classes as they were |
| `ClassRuns.ClassStep` | mro.c:310-418 | an @ISA assignment that goes well or dies, a new class, and any other operation are changes that the cache is prepared for, and keep the tables in step with the hierarchy |
| `ClassRuns.CycleHasNoLine` | mro.c:61-268 | two classes that inherit from each other have no linearization |
| `ClassRuns.NewInterpreterIsTied` | mro.c:310-418 | such runs may start from a new interpreter |
| `ClassRuns.MendedHierarchy` | mro.c:310-418 | three @ISA assignments, the second of which makes such a cycle and dies, after which both classes have linearizations again |
| `ClassRuns.UnannouncedDates` | mro.c:310-418 | the dates and announcements after these three: one class has not heard of its descendant |
| `ClassRuns.DeadClassMisled` | mro.c:451-490 | a definition after them that leaves a remembered failure believed |
| `ClassRuns.ClassRunsAgree` | gv.c:324-460 | over every run that also creates classes and assigns @ISA, with assignments that die among them, every lookup in a class without a dead one among itself and its ancestors answers as the cache-free search in the C3 linearizations does |
| `MethodCache.Interp.MethodChangedIn` | mro.c:451-490 | the loops over isarev date exactly the caches they should |
| `MethodCache.Interp.IsaChangedIn` | mro.c:310-418 | dates, forgets linearizations and updates isarev as specified, or dies before the update |
| `MethodCache.Interp.FetchMeth` | gv.c:324-460 | the imperative lookup is the specified step, tables and answer |
| `MethodCache.Interp.DefineSub` | op.c:3660-3680 | the imperative definition is the specified step |
| `MethodCache.Interp.GpFree` | gv.c:1083-1120 | the imperative release is the specified step |
| `MethodCache.Interp.GpRef` | gv.c:1063-1080 | the imperative sharing is the specified step |
| `MethodCache.Interp.AssignGlob` | sv.c:2773-2778 | releasing and sharing in this order is the specified step, and the source's body is still alive in between |
| `MethodCache.Interp.DeleteEntry` | hv.c:1008-1021 | the imperative deletion is the specified step |
| `MethodCache.Interp.UndefGlob` | pp.c:676-697 | the imperative undef is the specified step |
| `Stashes.GetReads` | gv.c:720-731 | a fetch without adding gives the glob that reading along the route gives |
| `Stashes.GetKeeps` | gv.c:733-734 | such a fetch makes missing stashes on its way and yet changes no route's result |
| `Stashes.AddFinds` | gv.c:847-868 | a fetch with adding always gives a glob, which reading then finds |
| `Stashes.AddReaches` | gv.c:698-748 | adding a route leaves every route that resolved as it was, and makes resolvable exactly those that stopped where it stopped and go on along it |
| `Stashes.OneWalk` | gv.c:698-748 | one walk along a route is a walk to its stash and then one step: same glob, same tables |
| `QualifiedNames.PathOfJoined` | gv.c:698-749 | a name joined from parts without colons is cut into exactly those parts |
| `QualifiedNames.LandsMeaning` | gv.c:698-749 | the cursor lands on the end of a package name exactly if the colons at its end are a multiple of three |
| `QualifiedNames.RoutesSplit` | gv.c:604-632 | the route of pkg::last goes on from the route of the package, if and only if the colons at its end are a multiple of three |
| `QualifiedNames.FetchSplits` | gv.c:604-632 | then fetching pkg::last is finding the package's stash and fetching the last part there |
| `QualifiedNames.FetchSplitsExactly` | gv.c:604-632 | it is so in every table if and only if those colons are a multiple of three |
| `QualifiedNames.EmptyPackage` | gv.c:743-746 | the empty package has no stash, although "::" in front of a name leads to main |
| `QualifiedNames.Unqualified` | gv.c:753-818 | a name without colons is looked up in main if it is _, ARGV, ARGVOUT, STDIN, STDOUT or STDERR or does not start with a letter or underscore, and else in the current package |
| `QualifiedNames.Starred` | gv.c:693-696 | a name with a star in front is the name without it, if that has two characters and starts with a letter |
| `QualifiedNames.FetchAgain` | gv.c:847-868 | a name fetched with adding is fetched again with the same glob and no change; only "::" has no glob |
| `QualifiedNames.FetchOnlyReads` | gv.c:698-748 | fetching a name without adding changes the resolution of no name |
| `QualifiedNames.AddingKeeps` | gv.c:698-748 | adding a name leaves every other resolution as it was, except that names behind the same gap along the added route now resolve |
| `QualifiedNames.SymbolTable.FetchPvn` | gv.c:693-868 | the loop with a cursor computes the walk along the route of the name |
| `QualifiedNames.SymbolTable.StashPvn` | gv.c:604-632 | the stash of a package is that of the glob of its name and "::" |
| `Vec.Placement` | doop.c:117-127 | an element starts at bit offset * size, and one of fewer than 8 bits does not leave its byte |
| `Vec.LegalSizes` | doop.c:112 | the legal sizes are the powers of two |
| `Vec.GetOutside` | doop.c:110-113 | a negative offset reads 0 whatever the size; any other with an illegal size is an error; sizes above 64 read 0 |
| `Vec.GetIsElement` | doop.c:103-240 | a read equals the read of the zero-padded string, if and only if the sign extension does not show |
| `Vec.ElementValue` | doop.c:212-238 | an element of whole bytes is their big-endian value |
| `Vec.NarrowElement` | doop.c:212-213 | a narrower one is the number whose binary digits are its bits, the lowest first |
| `Vec.ByteIsBits` | doop.c:212-213 | a byte is the number whose binary digits are its bits, the lowest first |
| `Vec.SignSpreads` | doop.c:184 | what is read when the sign does show: 0xffffffff00000000 more, modulo 2^64 |
| `Vec.SetThenGet` | doop.c:270-318 | after an assignment the element reads as the value modulo 2^size |
| `Vec.ModulusMeaning` | doop.c:285-286 | the modulus is 2^size for every legal size up to 64 |
| `Vec.SetBits` | doop.c:285-289 | bit k of a narrow element is bit k of the value assigned |
| `Vec.SetGrows` | doop.c:277-282 | the string grows exactly when it does not hold the last bit of the element, and then to the byte of that bit |
| `Vec.SetsNothing` | doop.c:290-316 | an assignment of more than 64 bits stores nothing |
| `Vec.SetFrame` | doop.c:270-318 | an assignment leaves every bit outside its element alone |
| `Vec.ElementLocal` | doop.c:103-240 | an element depends on its own bits only |
| `Vec.SetElsewhere` | doop.c:270-318 | an assignment leaves every disjoint element of any size as it was in the zero-padded string |
| `Vec.GetElsewhere` | doop.c:270-318 | the same for what vec reads, if and only if lengthening the string does not cure a sign extension |
| `Vec.DoVecset` | doop.c:247-322 | the byte stores on the buffer are the assignment on the string; a bad size or offset changes nothing |
| `Vop.CombinedMeaning` | doop.c:512-608 | AND has the shorter length and OR and XOR the longer; every byte is the operator on the zero-extended operands |
| `Vop.XorTwice` | doop.c:558-563 | XOR with the same right operand twice gives the left one back, zero-extended |
| `Vop.EmptiedRight` | doop.c:512-515 | when the right operand alone is the target the result is still the bytewise one exactly under a condition on the operands |
| `Vop.WordIsBytes` | doop.c:537-575 | the operator on longs is the operator on each of their bytes |
| `Vop.Loops` | doop.c:537-600 | the loop over four longs with its remainder loop does what the bytewise loop does, for every length, in place too |
| `Vop.DoVop` | doop.c:491-608 | the result for every choice of target among fresh, left, right and both, and the operands that are not the target are unchanged |
| `Chomp.StripMeaning` | doop.c:440-450 | paragraph mode removes newlines only and leaves none at the end |
| `Chomp.ChompedMeaning` | doop.c:451-484 | separator mode removes one separator exactly when the string ends with it; what is left begins the original |
| `Chomp.ChompedElse` | doop.c:434-450 | without a separator, or with a record size, nothing is removed; in paragraph mode all newlines at the end are |
| `Chomp.SeparatorRemoved` | doop.c:451-487 | one separator is removed exactly if the string is something and then the separator, and how that is counted |
| `Chomp.ChompString` | doop.c:434-488 | the buffer is left as specified and the count is what was removed |
| `Chomp.ChompConserves` | doop.c:405-488 | over every tree of arrays and hashes, total length before is total length after plus the count |
| `Chomp.ChompKeepsShape` | doop.c:405-430 | at every path: containers keep their kind and length, undef stays, a string becomes the chomped string, and nothing is anywhere else |
| `Chop.ChopValid` | doop.c:361-375 | chopping a string the test accepts removes exactly its last character and leaves a string it accepts |
| `Chop.ChopLosesNothing` | doop.c:361-387 | piece and rest make up the original, and without a piece the string is unchanged |
| `Chop.ChopByteMeaning` | doop.c:376-387 | in byte mode the piece is the last byte, or empty if there is none |
| `Chop.ChopEncoded` | doop.c:361-375 | behind any front, an encoded code point that the test accepts is chopped off whole |
| `Chop.ChopLastCodePoint` | doop.c:361-375 | chopping the encoding of a list of code points gives the encoding of the list without its last |
| `Chop.EncodeTable` | utf8.c:72-160 | for the code points of section 3 of RFC 3629 the encoding is the one in its table |
| `Chop.CharIsEncoding` | utf8.c:250-262 | a character the test accepts is the shortest encoding of the number it decodes to |
| `Chop.IsUtf8Exactly` | utf8.c:277-320 | a string is accepted if and only if it is the encoding of a list of numbers below 0x140000 or from 0x200000 to 0x7fffffff |
| `Chop.MoreThanUtf8` | utf8.h:284-309 | a surrogate and a number past U+10FFFF that are accepted |
| `Chop.EncodeAllIsUtf8` | utf8.c:277-300 | the test accepts every encoding of code points |
| `Chop.ChopString` | doop.c:358-387 | the buffer and the piece are what the specification says, in both modes; an invalid tail leaves the string alone |
| `Escape.LongestFitUnique` | dump.c:219-291 | no two prefixes are both the longest that fits under a limit |
| `Escape.Fit` | dump.c:219-291 | there always is a longest prefix that fits, and only one |
| `Escape.PvEscape` | dump.c:194-294 | what is written is the complete escapes of exactly the longest prefix that fits, whose length is reported |
| `Escape.ReadBack` | dump.c:219-291 | without NOBACKSLASH and FIRSTCHAR a reader recovers the string from the unlimited output |
| `Escape.EscapedInjective` | dump.c:219-291 | hence different strings are written differently |
| `Escape.EscapedTable` | dump.c:237-268 | what each byte is written as: the escape character doubled, the five control characters by their letters, a quote escaped in quoted mode, other bytes from 32 to 126 as they are, and the rest in hexadecimal |
| `Escape.EscapedPlainly` | dump.c:227-235 | with ALL every byte is in hexadecimal, with NOBACKSLASH alone every byte is itself |
| `Escape.HexMeaning` | dump.c:227-265 | "%x" is one digit below 16 and two above, of the value of the byte |
| `Escape.OutputClean` | dump.c:219-291 | without NOBACKSLASH only characters from 32 to 126 are written, and in quoted mode every quote follows an escape character |
| `Escape.PvPretty` | dump.c:322-357 | quotes, colours, the escaped prefix, and dots exactly if the count reported is short of the string: if it was cut short, or with FIRSTCHAR if it is not empty |
| `Escape.PvDisplay` | dump.c:379-388 | at most 7 characters over a limit |
| `OpGraph.LazyWalkEndsExactly` | dump.c:608-677 | a walk along op_next over ops that may be passed ends if and only if it comes to no cycle of them |
| `OpGraph.RankingRulesOutCycles` | dump.c:608-677 | a measure that falls along such ops rules the cycles out |
| `OpGraph.EndlessExactly` | dump.c:608-677 | the loop, with oldop set or not, goes on for ever exactly when it passes its first op and comes from there to a cycle of ops that it passes and that are not numbered |
| `OpGraph.LoopsEndExactly` | dump.c:608-677 | with oldop set it ends from every op if and only if every cycle of ops that may be passed has a numbered one |
| `OpGraph.PathIsNumbered` | dump.c:597-686 | when the numbered ops are done, every op that can be reached over successors and the branches of its kind is numbered, if it is neither null, match nor, with a successor, scope or scalar |
| `Sequencer.NumberedUsesAll` | dump.c:597-678 | distinct numbers from 1 to the counter, one per op, leave no number out |
| `Sequencer.RunKeeps` | dump.c:597-686 | a run that ends keeps numbers distinct and complete and old ones unchanged, numbers only ops that may be numbered, and leaves nothing to do behind them |
| `Sequencer.RunAgain` | dump.c:613-614 | where nothing is left to do nothing is done |
| `Sequencer.QuietExactly` | dump.c:631-638 | of the scope and scalar ops with a successor a call numbers exactly those at which it is made or a branch of an op that it numbers starts |
| `Sequencer.FirstNumber` | dump.c:597-611 | an op to which a number is due when the loop comes to it gets the next one, before anything behind it |
| `Sequencer.RunInOrder` | dump.c:640-665 | the op at which a branch starts has a lower number than everything numbered after the branching op that cannot be reached from this branch or an earlier one |
| `Sequencer.HaltsExactly` | dump.c:597-686 | a run ends if and only if it comes to no loop that goes on for ever, in itself, behind a branch or behind a numbered op |
| `Sequencer.CallHalts` | dump.c:597-686 | a call ends if every op_next cycle has an op that must be numbered, is numbered, or is the scope op at which it is made |
| `Sequencer.MatchLoop` | dump.c:665-668 | sequence() of a match op that is its own successor does not end |
| `Sequencer.ScopeLoop` | dump.c:629-638 | that of a scope op that is its own successor ends, though it is on such a cycle |
| `Sequencer.Interp.Sequence` | dump.c:597-678 | the loop computes the specified run, on every graph and state from which that ends |
| `Sequencer.Interp.SequenceTail` | dump.c:681-686 | the same from behind null ops |
| `Sequencer.Interp.SequenceFrom` | dump.c:597-678 | every op that must be numbered and can be reached is numbered, of scope and scalar ops with a successor exactly those at which the call or a branch starts; calling again adds nothing |
| `Sequencer.Interp.SequenceNum` | dump.c:689-702 | an op's number, which no other op has, or 0 |
| `LeaveHandlers.LeaveNewestFirst` | cop_i.h:32-40 | leaving a scope calls its newer handlers, and all that they register on it, before any older one |
| `LeaveHandlers.LeavesBackwards` | cop_i.h:32-40 | handlers that register nothing are called from the newest to the oldest |
| `LeaveHandlers.HandlerScopes` | cop_i.h:32-40 | what a handler registers on its own scope is called when it returns, what it registers on the scope being left after that, before the older handlers there, and what it registers further out stays |
| `LeaveHandlers.EachOnceOnLeaving` | cop_i.h:32-40 | leaving a scope calls each of its handlers once; what they register is called once or left to the scope outside it was registered on |
| `LeaveHandlers.EachOnceRunning` | cop_i.h:3-51 | running any code calls each handler that it registers once, or leaves it registered |
| `LeaveHandlers.BlockCallsEachOnce` | cop_i.h:3-51 | a whole program calls every handler registered in it exactly once |
| `BlockStack.ChainDepth` | cop_i.h:19-23 | the parent chain of scopes is as deep as the block stack |
| `BlockStack.Interp.PushBlock` | cop_i.h:3-28 | the record holds the registers, and the new scope is a child of the old with no handlers |
| `BlockStack.OpenRegistered` | cop_i.h:17-23 | a handler pushed on the scope so many parents out comes at the end of that scope's list, and of no other |
| `BlockStack.Interp.CallNewest` | cop_i.h:36-38 | call_sv runs the newest handler in a block and scope of its own |
| `BlockStack.Interp.PopBlock` | cop_i.h:30-51 | runs the scope's handlers in the specified order, puts the registers of the popped record back and touches no scope that is not open |
| `BlockStack.Interp.Exec` | cop_i.h:3-51 | balanced code leaves block stack and scope alone, and its calls and registrations are the specified ones |
| `BlockStack.Interp.DoBlock` | cop.h:354-359 | entering, running any body and leaving restores cop, marks, scope index, match variables, dynamic scope and block stack, and calls each handler |
| `RunLevels.Interp.PushStack` | cop.h:572-587 | the levels there were stay as they are and an empty one is added; a stack info is made only if none is left over |
| `RunLevels.Interp.PopStack` | cop.h:593-604 | the level below is current again as it was left; from the outermost level it is a panic that changes nothing |
| `RunLevels.Interp.RunNested` | cop.h:572-604 | a nested run level, whatever runs in it, leaves every level as it was, the saved stack top included |
| `RunLevels.Interp.Run` | cop.h:572-604 | code changes its own level only, and the list of stack infos becomes as long as the deepest nesting needs, never longer |
| `RunLevels.AfterMeaning` | cop.h:572-604 | after its code a level has its type and what was set last at that level itself |
| `RunLevels.NestingBounds` | cop.h:572-604 | no path of nested levels is longer than the nesting |
| `RunLevels.Deepest` | cop.h:572-604 | and one is as long |
| `CommandLine.BlankSeparates` | doio.c:1268-1277 | a blank separates words |
| `CommandLine.SolidIsOneWord` | doio.c:1268-1277 | text without blanks is one word |
| `CommandLine.WordsMeaning` | doio.c:1268-1277 | words are free of blanks, and together they are all that is not a blank |
| `CommandLine.WordsOfJoined` | doio.c:1268-1277 | words written out with blanks between them are found again |
| `CommandLine.SimpleUnique` | doio.c:1234-1257 | a line is a plain command with an optional newline or 2>&1 at its end in one way only |
| `CommandLine.FirstMeta` | doio.c:1234-1257 | the first metacharacter of such a line is that newline or the > of that 2>&1 |
| `CommandLine.MetaMeaning` | doio.c:1245 | the metacharacters are the listed ones |
| `CommandLine.SimpleMeaning` | doio.c:1243-1262 | a line of that form has no metacharacter, or only a newline at its end, or only those of a 2>&1 behind a blank with nothing but blanks after it |
| `CommandLine.NeedsShellMeaning` | doio.c:1231-1241 | what goes to the shell whatever follows: "." and "exec" as words, and an assignment to a name of letters, digits and underscores |
| `CommandLine.Scan` | doio.c:1234-1265 | the scan gives the shell exactly the lines that are not of that form, and else ends the command at the right place |
| `CommandLine.Split` | doio.c:1265-1279 | the pointers are the addresses of the words in order, then NULL, all within (s-cmd)/2+2 slots |
| `CommandLine.DoExec3` | doio.c:1173-1296 | the shell gets the whole line exactly when it must; else the argument vector is the words of the command, and the command itself is what the shell gets if the file is refused; nothing is run exactly for a blank line |
| `DecimalDigits.BitDigitsSuffice` | handy.h:235 | every value of n bits has at most n*146/485+1 decimal digits, for all n |
| `DecimalDigits.TypeCharsSuffice` | handy.h:236-237 | the buffer holds every signed or unsigned value of the type with its sign and NUL |
| `DecimalDigits.BitDigitsNeeded` | handy.h:235 | below 485 bits the largest value has exactly that many digits |
| `DecimalDigits.BitDigitsExactly` | handy.h:235 | for any number of bits the largest value has that many digits if and only if the power of ten in question is below the power of two |
| `DecimalDigits.BitDigitsLoose` | handy.h:235 | at 485 bits it has one fewer |
| `DecimalDigits.DecimalReads` | handy.h:235 | the digits of a number have no leading zero and are read back as the number |
| `DecimalDigits.PrintedReads` | handy.h:236-237 | what is printed is a minus sign exactly for a negative number, its digits, and NUL |
| `DecimalDigits.TypeCharsExactly` | handy.h:236-237 | up to 60 bytes the buffer has room for exactly the digits of the largest value, and two more |

## Left out

- Av: read-only errors, tied and magical arrays, the half-reify repair of freed elements in av_fetch, the relocation of the argument stack in av_extend, and 32-bit wrap-around of indices. A null slot is the same as undef; values are known only by identity.
- Av.Fetch: the value that a new element of an lvalue fetch holds is a parameter.
- Growth takes the default allocator branch with 8-byte pointers; asking malloc for its true size is not modelled.
- Constants and forward declarations standing in a stash in place of a glob, SUPER stashes, reference counts of subs, and gp_egv.
- Destruction of stashes and of the symbol table; local(*glob); wrap-around of the 32-bit generation counters.
- MethodRuns: lookups that die, in a class without a linearization or deeper than the level limit. DeleteOp is a delete in void context; in any other context a placeholder takes the entry's place (hv.c:585-588) and nothing is dated until the glob dies.
- Linearizations that are remembered on the way to that of another class are not recorded as remembered.
- MethodCache.Interp.IsaChangedIn: takes the new linearizations, or that there is none, as a parameter; they are computed in LinearIsa, and ClassRuns puts the two together.
- MethodCache.Interp.UndefGlob: entries hold subs, not stashes, so the branch that undefines a whole stash (pp.c:684-685) is not modelled.
- QualifiedNames.SymbolTable.FetchPvn: run time only; the compile-time rule about imported variables (gv.c:789-812) needs the variables themselves. Stash names, and globs that share their hash through a common body, are not part of the name walk.
- Vec: magic and the conversion of the operand to bytes; the warning about 64-bit portability.
- Vop.DoVop: alignment is a parameter that says whether the word path may be taken; the long is 8 bytes. The branch for a target that is not a string (doop.c:531-537) cannot be reached, because SvPOK_only at doop.c:523 has just made it one.
- Chomp.ChompValue: containers are values; one string reached by two paths is chomped once in each place. chop over containers would only repeat this.
- Chomp.ChompString: in code-point mode the number of characters in the separator is a parameter.
- Escape.PvEscape: bytes only; code points above 255, the detection of UTF-8 and malformed UTF-8, and lengths of colour strings are not modelled.
- BlockStack: the operand stack below the saved pointer, PL_op, substitution contexts and TOPBLOCK; an "onleave" entry that is not an array; handlers that die, and handlers written in C, which get no block of their own.
- RunLevels: the context stack of each level, the arrays behind the argument stacks and POPSTACK_TO; each level has the top of its stack and its context index.
- LeaveHandlers: handlers are finite trees, so that leaving a block ends; a handler that registers itself for ever does not end in the original either. Registering on a scope further out than there is one does nothing here.
- CommandLine.DoExec3: the csh branch and freeing; the outcome of dup2 and whether the file is refused are parameters, and exec itself is the result.
- Sequencer: the check for a null op that is its own successor, compiled under PERL_MAD only (dump.c:624-627).
- PERL_STRLEN_ROUNDUP, do_join, sprintf, cando, apply, SysV IPC and the dumpers' text: single formulas, tables or output.
