/**
 Whole runs in which @ISA is assigned, and in which such assignments may die: with the linearizations
 that C3 gives, the method cache is invisible to every class that inherits from no class whose last
 assignment died (gv.c, mro.c).
 */
module ClassRuns {
  import opened Basics
  import opened Mro
  import opened SymbolTable
  import opened MethodLookup
  import opened MethodRuns
  import opened C3
  import opened Linearization
  import opened ClassPaths

  // ---------------------------------------------------------------- runs

  /** The same operation, with the linearizations it leads to. */
  ghost function WithLines(c: Classes, op: ClassOp): Op
    requires LegalClassOp(c, op)
  {
    match op
    case SetIsa(s, parents) => IsaOp(s, ClearLines(Next(c, op)), NewLine(c.isa[s := parents], s))
    case DieIsa(s, _) => DiedOp(s, ClearLines(Next(c, op)))
    case NewClass(s) => StashOp(s)
    case Do(o) => o
  }

  /** The class is there, or is not yet; an assignment that does not die has a linearization. */
  ghost predicate LegalClassOp(c: Classes, op: ClassOp) {
    match op
    case SetIsa(s, parents) => s in c.isa && Linearizable(c.isa[s := parents], s)
    case DieIsa(s, _) => s in c.isa
    case NewClass(s) => s !in c.isa
    case Do(o) => !o.IsaOp? && !o.DiedOp? && !o.StashOp?
  }

  lemma SameClassesTied(d: Dates, d': Dates, c: Classes)
    requires Tied(d, c) && SameClasses(d, d')
    ensures Tied(d', c)
  {
    assert forall y :: d'.Rev(y) == d.Rev(y);
  }

  lemma AssignmentTied(c: Classes, d: Dates, s: Stash, parents: seq<Stash>)
    requires Tied(d, c) && s in c.isa && Linearizable(c.isa[s := parents], s)
    ensures var now := Next(c, SetIsa(s, parents));
            Tied(IsaChanged(d, s, ClearLines(now), NewLine(c.isa[s := parents], s)), now)
  {
    AssignmentCovers(c, d, s, parents, ClearLines(Next(c, SetIsa(s, parents))));
  }

  lemma DeathTied(c: Classes, d: Dates, s: Stash, parents: seq<Stash>)
    requires Tied(d, c) && s in c.isa
    ensures var now := Next(c, DieIsa(s, parents)); Tied(IsaDied(d, s, ClearLines(now)), now)
  {
    DeathCovers(c, d, s, parents, ClearLines(Next(c, DieIsa(s, parents))));
  }

  lemma NewClassTied(c: Classes, t: Symtab, s: Stash)
    requires Tied(t.mro, c) && s !in c.isa
    ensures Tied(NewStash(t, s).mro, Next(c, NewClass(s)))
  {
    NewClassLines(c, s);
    NewClassCovers(c, t.mro, NewStash(t, s).mro, s);
  }

  /** Every operation is one that the caches are prepared for, and afterwards the tables belong to the
      classes again. */
  lemma ClassStep(t: Symtab, c: Classes, op: ClassOp)
    requires BodiesOk(t) && Tied(t.mro, c) && LegalClassOp(c, op) && (op.Do? ==> Possible(t, op.op))
    ensures Possible(t, WithLines(c, op)) && Tied(Step(t, WithLines(c, op)).tab.mro, Next(c, op))
  {
    match op
    case SetIsa(s, parents) =>
      AssignmentHeard(c, t.mro, s, parents);
      AssignmentTied(c, t.mro, s, parents);
    case DieIsa(s, parents) =>
      DeathLeaves(c, s, parents);
      DeathTied(c, t.mro, s, parents);
    case NewClass(s) =>
      NewClassTied(c, t, s);
    case Do(o) =>
      StepKeepsClasses(t, o);
      SameClassesTied(t.mro, Step(t, o).tab.mro, c);
  }

  ghost predicate LegalClassRun(c: Classes, ops: seq<ClassOp>)
    decreases |ops|
  {
    ops == [] || (LegalClassOp(c, ops[0]) && LegalClassRun(Next(c, ops[0]), ops[1..]))
  }

  ghost function Translated(c: Classes, ops: seq<ClassOp>): seq<Op>
    requires LegalClassRun(c, ops)
    decreases |ops|
  {
    if ops == [] then [] else [WithLines(c, ops[0])] + Translated(Next(c, ops[0]), ops[1..])
  }

  /** Everything but the @ISA assignments and the new classes is possible and meets its condition: in
      particular, lookups are in clear classes. */
  ghost predicate HarmlessClassRun(t: Symtab, c: Classes, ops: seq<ClassOp>)
    requires Sound(t) && Tied(t.mro, c) && LegalClassRun(c, ops)
    decreases |ops|
  {
    ops == [] ||
    (&& (ops[0].Do? ==> Possible(t, ops[0].op) && Harmless(t, ops[0].op))
     && (ClassStepSound(t, c, ops[0]);
         HarmlessClassRun(Step(t, WithLines(c, ops[0])).tab, Next(c, ops[0]), ops[1..])))
  }

  lemma ClassStepSound(t: Symtab, c: Classes, op: ClassOp)
    requires Sound(t) && Tied(t.mro, c) && LegalClassOp(c, op)
    requires op.Do? ==> Possible(t, op.op) && Harmless(t, op.op)
    ensures Possible(t, WithLines(c, op)) && Harmless(t, WithLines(c, op))
    ensures var u := Step(t, WithLines(c, op)).tab;
            Sound(u) && Tied(u.mro, Next(c, op))
  {
    ClassStep(t, c, op);
    StepKeepsGood(t, WithLines(c, op));
    StepRefines(t, WithLines(c, op));
  }

  lemma {:induction false} TranslatedIsHarmless(t: Symtab, c: Classes, ops: seq<ClassOp>)
    requires Sound(t) && Tied(t.mro, c) && LegalClassRun(c, ops) && HarmlessClassRun(t, c, ops)
    ensures HarmlessRun(t, Translated(c, ops))
    decreases |ops|
  {
    if ops != [] {
      ClassStepSound(t, c, ops[0]);
      var u := Step(t, WithLines(c, ops[0])).tab;
      TranslatedIsHarmless(u, Next(c, ops[0]), ops[1..]);
      assert Translated(c, ops)[1..] == Translated(Next(c, ops[0]), ops[1..]);
    }
  }

  /** Over every run that makes, defines, assigns and removes entries, creates classes and assigns
      @ISA, also with assignments that die, every lookup in a class that does not inherit from one
      whose last assignment died answers as the cache-free search in the C3 linearizations does. */
  lemma ClassRunsAgree(t: Symtab, c: Classes, ops: seq<ClassOp>)
    requires Sound(t) && Tied(t.mro, c) && LegalClassRun(c, ops) && HarmlessClassRun(t, c, ops)
    ensures var run := Translated(c, ops);
            HarmlessRun(t, run) && PossibleRun(t, run) && CachedAnswers(t, run) == Answers(Shown(t), run)
  {
    TranslatedIsHarmless(t, c, ops);
    RunsAgree(t, Translated(c, ops));
  }

  /** The runs may start from a new interpreter. */
  lemma NewInterpreterIsTied()
    ensures Tied(NEW_INTERPRETER.mro, Classes(map[], {}))
  {
  }

  // ---------------------------------------------------------------- a class that has not been announced

  /** Of two classes the first is made to inherit from the second, then the second from the first as
      well, which dies; and then the first gets no parent any more. */
  lemma MendedHierarchy()
    ensures var c := Classes(map[1 := [], 2 := []], {});
            Next(Next(Next(c, SetIsa(1, [2])), DieIsa(2, [1])), SetIsa(1, [])) ==
            Classes(map[1 := [], 2 := [1]], {2})
    ensures Linearizes(map[1 := [], 2 := [1]], map[1 := [1], 2 := [2, 1]])
  {
    var isa: Hierarchy, lin: Lines := map[1 := [], 2 := [1]], map[1 := [1], 2 := [2, 1]];
    MergeParent(Merged(lin, [1]));
    assert [2] + [1] == [2, 1];
    assert LineFrom(lin, 2, isa[2]) == Some(lin[2]);
    assert LineFrom(lin, 1, isa[1]) == Some(lin[1]);
  }

  /** The second assignment cannot but die. */
  lemma CycleHasNoLine(lin: Lines)
    requires Solves(map[1 := [2], 2 := [1]], lin)
    ensures 1 !in lin && 2 !in lin
  {
    var isa: Hierarchy := map[1 := [2], 2 := [1]];
    assert 2 in isa[1] && 1 in isa[2];
    if 1 in lin {
      ParentShorter(isa, lin, 1, 0);
      ParentShorter(isa, lin, 2, 0);
    }
  }

  function TwoClasses(): Dates {
    Dates(map[1 := 1, 2 := 1], 1, map[1 := [1], 2 := [2]], map[], map[])
  }

  /** What these three make of the dates, when lookups are to rely on the linearizations of both classes
      at the end. */
  function Unannounced(): Dates {
    Dates(map[1 := 4, 2 := 2], 1, map[1 := [1], 2 := [2, 1]], map[1 := [1]], map[2 := {1}])
  }

  lemma UnannouncedDates()
    ensures var both := map[1 := [1], 2 := [2, 1]];
            var d1 := IsaChanged(TwoClasses(), 1, map[1 := [1, 2], 2 := [2]], [1, 2]);
            IsaChanged(IsaDied(d1, 2, map[]), 1, both, [1]) == Unannounced()
  {
    FirstAssignment();
    SecondAssignment();
    ThirdAssignment();
  }

  function AfterFirst(): Dates {
    Dates(map[1 := 2, 2 := 1], 1, map[1 := [1, 2], 2 := [2]], map[1 := [1, 2]], map[2 := {1}])
  }

  function AfterSecond(): Dates {
    Dates(map[1 := 3, 2 := 2], 1, map[], map[], map[2 := {1}])
  }

  lemma FirstAssignment()
    ensures IsaChanged(TwoClasses(), 1, map[1 := [1, 2], 2 := [2]], [1, 2]) == AfterFirst()
  {
    var d := TwoClasses();
    assert Bumped(d.cacheGen, {1}) == map[1 := 2, 2 := 1];
    assert [1, 2][1..] == [2];
    assert Family(d, 1) == {1} && Elements([2]) == {2};
    var rev := WithChildren(d.isarev, {2}, {1});
    assert rev[2] == {1};
    assert rev == map[2 := {1}];
  }

  lemma SecondAssignment()
    ensures IsaDied(AfterFirst(), 2, map[]) == AfterSecond()
  {
    var d := AfterFirst();
    assert Family(d, 2) == {1, 2};
    assert Bumped(d.cacheGen, {1, 2}) == map[1 := 3, 2 := 2];
    assert d.linCache - {1, 2} == map[];
  }

  lemma ThirdAssignment()
    ensures IsaChanged(AfterSecond(), 1, map[1 := [1], 2 := [2, 1]], [1]) == Unannounced()
  {
    var d := AfterSecond();
    assert Family(d, 1) == {1};
    assert Bumped(d.cacheGen, {1}) == map[1 := 4, 2 := 2];
    assert [1][1..] == [] && Elements([]) == {};
    assert WithChildren(d.isarev, {}, {1}) == d.isarev;
  }

  /** Class 2 has looked method 5 up and remembers that there is none. */
  function Forgotten(): Symtab {
    Symtab(map[(2, 5) := 0], map[0 := Body(None, 3, 1)], 1, [], Unannounced())
  }

  function Stale(): Symtab {
    Symtab(map[(2, 5) := 0, (1, 5) := 1], map[0 := Body(None, 3, 1), 1 := Body(Some(SUB_F), 0, 1)], 2, [],
           Unannounced())
  }

  /** Now class 1, from which it inherits, gets the method.  Class 2 is not dated, and goes on believing
      that there is none. */
  lemma DeadClassMisled()
    ensures Good(Forgotten()) && Coherent(Forgotten()) && !RevCovers(Forgotten().mro)
    ensures Misled(Define(Forgotten(), (1, 5), SUB_F), (2, 5))
    ensures FetchMeth(Define(Forgotten(), (1, 5), SUB_F), Some(2), 5, 0).cv == None
  {
    ForgottenCoherent();
    ForgottenDefined();
    StaleMisled();
  }

  lemma ForgottenCoherent()
    ensures Good(Forgotten()) && Coherent(Forgotten()) && !RevCovers(Forgotten().mro)
  {
    var t := Forgotten();
    assert Users(t, 0) == {(2, 5)};
    assert 1 in t.mro.linear[2] && 2 !in t.mro.Rev(1);
    assert [2, 1][1..] == [1] && [1][1..] == [];
    assert FirstIn(World(t), [1], 5) == FirstIn(World(t), [], 5) == None;
    assert Lookup(World(t), 2, 5) == None;
    assert EntryOk(t, (2, 5));
  }

  lemma ForgottenDefined()
    ensures Define(Forgotten(), (1, 5), SUB_F) == Stale()
  {
    var d := Unannounced();
    assert Bumped(d.cacheGen, {}) == d.cacheGen;
  }

  lemma StaleMisled()
    ensures Misled(Stale(), (2, 5))
  {
    var t := Stale();
    assert [2, 1][1..] == [1];
    assert Own(World(t), 1, 5) == Some(SUB_F) && Own(World(t), 2, 5) == None;
    assert FirstIn(World(t), [1], 5) == Some(SUB_F);
  }
}
