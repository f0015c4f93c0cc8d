/**
 Glob assignment and the method cache: exactly when assigning one entry to another leaves every
 cached result right (gv.c, sv.c).

 The assignment dates nothing.  What goes wrong is either an old answer that other classes go on
 believing, or a remembered failure that comes along with the shared body.
 */
module GlobAssignment {
  import opened Basics
  import opened Mro
  import opened SymbolTable

  // ---------------------------------------------------------------- searches that meet a class

  /** The search through `classes` comes to `c` before any class with method `n`. */
  predicate ComesTo(p: Program, classes: seq<Stash>, c: Stash, n: Name) {
    classes != [] && (classes[0] == c || (Own(p, classes[0], n).None? && ComesTo(p, classes[1..], c, n)))
  }

  /** The search for method `n` of `x` comes to `c` before any other class with that method. */
  predicate Consults(p: Program, x: Stash, c: Stash, n: Name)
    requires x in p.linear
  {
    || ComesTo(p, p.linear[x], c, n)
    || (FirstIn(p, p.linear[x], n).None? && UNIVERSAL in p.linear && ComesTo(p, p.linear[UNIVERSAL], c, n))
  }

  /** Two programs that differ in method `k` only, if at all. */
  lemma {:induction false} ComesToFirst(p: Program, q: Program, classes: seq<Stash>, k: Key)
    requires SameElsewhere(p, q, k)
    ensures ComesTo(p, classes, k.0, k.1) <==> ComesTo(q, classes, k.0, k.1)
    ensures ComesTo(p, classes, k.0, k.1) && Own(q, k.0, k.1).Some? ==>
              FirstIn(q, classes, k.1) == Own(q, k.0, k.1)
    ensures !ComesTo(p, classes, k.0, k.1) ==> FirstIn(q, classes, k.1) == FirstIn(p, classes, k.1)
  {
    if classes != [] {
      var l := (classes[0], k.1);
      assert l != k ==> Own(p, l.0, l.1) == Own(q, l.0, l.1);
      ComesToFirst(p, q, classes[1..], k);
    }
  }

  /** A search that does not consult the class answers the same in both; one that does answers with
      the class's method if it has one. */
  lemma ConsultsDecides(p: Program, q: Program, k: Key, x: Stash)
    requires SameElsewhere(p, q, k) && x in p.linear
    ensures !Consults(p, x, k.0, k.1) ==> Lookup(q, x, k.1) == Lookup(p, x, k.1)
    ensures Consults(p, x, k.0, k.1) && Own(q, k.0, k.1).Some? ==> Lookup(q, x, k.1) == Own(q, k.0, k.1)
    ensures Own(p, k.0, k.1) == Own(q, k.0, k.1) ==> Lookup(q, x, k.1) == Lookup(p, x, k.1)
  {
    ComesToFirst(p, q, p.linear[x], k);
    if UNIVERSAL in p.linear {
      ComesToFirst(p, q, p.linear[UNIVERSAL], k);
    }
    ComesToUnless(p, q, p.linear[x], k);
    if Own(p, k.0, k.1) == Own(q, k.0, k.1) {
      forall c: Stash ensures Own(p, c, k.1) == Own(q, c, k.1) {
        var l := (c, k.1);
        assert l == k || Own(p, l.0, l.1) == Own(q, l.0, l.1);
      }
      FirstInFrame(p, q, p.linear[x], k.1);
      if UNIVERSAL in p.linear {
        FirstInFrame(p, q, p.linear[UNIVERSAL], k.1);
      }
    }
  }

  /** Past a class that has lost its method the search may end without an answer. */
  lemma {:induction false} ComesToUnless(p: Program, q: Program, classes: seq<Stash>, k: Key)
    requires SameElsewhere(p, q, k)
    ensures FirstIn(p, classes, k.1).None? && FirstIn(q, classes, k.1).Some? ==> ComesTo(p, classes, k.0, k.1)
  {
    if classes != [] {
      var l := (classes[0], k.1);
      assert l != k ==> Own(p, l.0, l.1) == Own(q, l.0, l.1);
      ComesToUnless(p, q, classes[1..], k);
    }
  }

  // ---------------------------------------------------------------- after the assignment

  /** The program once `dst` has the method of another entry, or none. */
  function Reassigned(p: Program, dst: Key, m: Option<Cv>): Program {
    p.(methods := if m.Some? then p.methods[dst := m.value] else p.methods - {dst})
  }

  lemma ReassignedElsewhere(p: Program, dst: Key, m: Option<Cv>)
    ensures SameElsewhere(p, Reassigned(p, dst, m), dst) && Own(Reassigned(p, dst, m), dst.0, dst.1) == m
  {
  }

  ghost predicate Assignable(t: Symtab, dst: Key, src: Key) {
    Wf(t) && BodiesOk(t) && dst in t.glob && src in t.glob && dst != src
  }

  /** What an entry shows afterwards: `dst` what `src` shows, and a cached method on the shared body
      is gone. */
  lemma AliasedBodies(t: Symtab, dst: Key, src: Key, l: Key)
    requires Assignable(t, dst, src) && l in t.glob
    ensures t.glob[src] in GpFree(t, dst).body
    ensures var u, b := Aliased(t, dst, src), if l == dst then t.glob[src] else t.glob[l];
            && u.glob.Keys == t.glob.Keys && u.glob[l] == b && b in u.body
            && if b == t.glob[src] && t.body[b].cv.Some? && t.body[b].cvgen != 0
               then u.body[b].cv.None? && u.body[b].cvgen == 0
               else u.body[b].cv == t.body[b].cv && u.body[b].cvgen == t.body[b].cvgen
  {
    SharedBodySurvives(t, dst, src);
    UsersFree(t, dst);
    assert l in Users(t, t.glob[l]);
  }

  /** Exactly one method changes hands. */
  lemma AliasedWorld(t: Symtab, dst: Key, src: Key)
    requires Assignable(t, dst, src)
    ensures t.glob[src] in GpFree(t, dst).body
    ensures Wf(Aliased(t, dst, src)) && World(Aliased(t, dst, src)) == Reassigned(World(t), dst, t.Real(src))
  {
    SharedBodySurvives(t, dst, src);
    var u := Aliased(t, dst, src);
    forall l ensures u.Real(l) == if l == dst then t.Real(src) else t.Real(l) {
      if l in t.glob {
        AliasedBodies(t, dst, src, l);
      }
    }
    forall l | l in u.glob ensures l.0 in t.mro.cacheGen && u.glob[l] in u.body {
      AliasedBodies(t, dst, src, l);
    }
    if t.Real(src).Some? {
      WorldWith(t, u, dst, t.Real(src).value);
    } else {
      WorldWithout(t, u, dst);
    }
  }

  /** A result that is believed now and is still there afterwards, in a class whose search consults
      the class of `dst`. */
  ghost predicate Exposed(t: Symtab, dst: Key, src: Key, l: Key)
    requires Wf(t) && src in t.glob
  {
    && Believed(t, l) && l != dst && l.1 == dst.1
    && (t.glob[l] == t.glob[src] ==> t.body[t.glob[l]].cv.None?)
    && Consults(World(t), l.0, dst.0, dst.1)
  }

  /** Another entry stays right exactly if it is not exposed or its answer has not changed. */
  lemma OtherEntry(t: Symtab, dst: Key, src: Key, l: Key)
    requires Assignable(t, dst, src) && Coherent(t) && l in t.glob && l != dst
    ensures t.glob[src] in GpFree(t, dst).body
    ensures var u := Aliased(t, dst, src);
            && Wf(u) && l in u.glob && World(u).linear == World(t).linear
            && (EntryOk(u, l) <==>
                (Exposed(t, dst, src, l) ==> Lookup(World(u), l.0, l.1) == Lookup(World(t), l.0, l.1)))
  {
    AliasedWorld(t, dst, src);
    AliasedBodies(t, dst, src, l);
    assert EntryOk(t, l);
    if Searchable(t.mro, l.0) {
      var p, q := World(t), World(Aliased(t, dst, src));
      ReassignedElsewhere(p, dst, t.Real(src));
      if l.1 != dst.1 {
        MethodChangeLeaves(p, q, dst, l.0, l.1);
      } else {
        ConsultsDecides(p, q, dst, l.0);
      }
    }
  }

  /** A failure remembered in the body of `src` is right for `dst` as well: it is not newer than
      the date there, and if it has that date then `q` gives `dst` no method. */
  ghost predicate FailureFits(t: Symtab, dst: Key, src: Key, q: Program)
    requires Wf(t) && dst in t.glob && src in t.glob && q.linear == t.mro.linear
  {
    var b := t.body[t.glob[src]];
    b.cv.None? ==>
      && b.cvgen <= t.mro.TopGen(dst.0)
      && (b.cvgen == t.mro.TopGen(dst.0) && Searchable(t.mro, dst.0) ==> Lookup(q, dst.0, dst.1).None?)
  }

  lemma AssignedEntry(t: Symtab, dst: Key, src: Key)
    requires Assignable(t, dst, src)
    ensures t.glob[src] in GpFree(t, dst).body
    ensures var u := Aliased(t, dst, src);
            && Wf(u) && dst in u.glob && World(u).linear == World(t).linear
            && (EntryOk(u, dst) <==> FailureFits(t, dst, src, World(u)))
  {
    AliasedWorld(t, dst, src);
    AliasedBodies(t, dst, src, dst);
  }

  /** All entries at once. */
  lemma AliasedCoherent(t: Symtab, dst: Key, src: Key)
    requires Assignable(t, dst, src) && Coherent(t)
    ensures t.glob[src] in GpFree(t, dst).body
    ensures var u := Aliased(t, dst, src);
            && Wf(u) && World(u).linear == World(t).linear
            && (Coherent(u) <==>
                && FailureFits(t, dst, src, World(u))
                && forall l :: Exposed(t, dst, src, l) ==> Lookup(World(u), l.0, l.1) == Lookup(World(t), l.0, l.1))
  {
    AssignedEntry(t, dst, src);
    OtherEntries(t, dst, src);
  }

  lemma OtherEntries(t: Symtab, dst: Key, src: Key)
    requires Assignable(t, dst, src) && Coherent(t)
    ensures t.glob[src] in GpFree(t, dst).body
    ensures var u := Aliased(t, dst, src);
            && Wf(u) && u.glob.Keys == t.glob.Keys && World(u).linear == World(t).linear
            && forall l :: l in t.glob && l != dst ==>
                 (EntryOk(u, l) <==>
                  (Exposed(t, dst, src, l) ==> Lookup(World(u), l.0, l.1) == Lookup(World(t), l.0, l.1)))
  {
    AliasedWorld(t, dst, src);
    AliasedBodies(t, dst, src, dst);
    forall l | l in t.glob && l != dst
      ensures EntryOk(Aliased(t, dst, src), l) <==>
        (Exposed(t, dst, src, l) ==>
           Lookup(World(Aliased(t, dst, src)), l.0, l.1) == Lookup(World(t), l.0, l.1))
    {
      OtherEntry(t, dst, src, l);
    }
  }

  // ---------------------------------------------------------------- the three kinds of assignment

  /** Assigning an entry that has a method gives `dst` that method and changes no other.  The caches
      stay right exactly if every class that consults the class of `dst` for the method, and
      remembers a current answer, remembers that very method. */
  lemma AssignMethod(t: Symtab, dst: Key, src: Key)
    requires Assignable(t, dst, src) && Coherent(t) && t.Real(src).Some?
    ensures t.glob[src] in GpFree(t, dst).body
    ensures var u := Aliased(t, dst, src);
            && Wf(u) && World(u) == World(t).(methods := World(t).methods[dst := t.Real(src).value])
            && (Coherent(u) <==>
                forall l :: Believed(t, l) && l != dst && l.1 == dst.1 && Consults(World(t), l.0, dst.0, dst.1)
                            ==> t.body[t.glob[l]].cv == t.Real(src))
  {
    AliasedWorld(t, dst, src);
    AliasedCoherent(t, dst, src);
    var q := World(Aliased(t, dst, src));
    ReassignedElsewhere(World(t), dst, t.Real(src));
    forall l | Believed(t, l) && l != dst && l.1 == dst.1 && Consults(World(t), l.0, dst.0, dst.1)
      ensures Exposed(t, dst, src, l)
      ensures Lookup(q, l.0, l.1) == t.Real(src) && Lookup(World(t), l.0, l.1) == t.body[t.glob[l]].cv
    {
      assert EntryOk(t, l);
      ConsultsDecides(World(t), q, dst, l.0);
    }
  }

  /** Assigning between entries without methods changes no method.  The caches stay right exactly if
      a failure remembered in the body of `src` is not newer than the date of `dst`, and, if it has
      that date, `dst` really has no such method. */
  lemma AssignNothing(t: Symtab, dst: Key, src: Key)
    requires Assignable(t, dst, src) && Coherent(t) && t.Real(src).None? && t.Real(dst).None?
    ensures t.glob[src] in GpFree(t, dst).body
    ensures var u, b := Aliased(t, dst, src), t.body[t.glob[src]];
            && Wf(u) && World(u) == World(t)
            && (Coherent(u) <==>
                (b.cv.None? ==>
                   && b.cvgen <= t.mro.TopGen(dst.0)
                   && (b.cvgen == t.mro.TopGen(dst.0) && Searchable(t.mro, dst.0) ==>
                         Lookup(World(t), dst.0, dst.1).None?)))
  {
    SameWorld(t, dst, src);
    AliasedCoherent(t, dst, src);
  }

  lemma SameWorld(t: Symtab, dst: Key, src: Key)
    requires Assignable(t, dst, src) && t.Real(src).None? && t.Real(dst).None?
    ensures t.glob[src] in GpFree(t, dst).body && World(Aliased(t, dst, src)) == World(t)
  {
    AliasedWorld(t, dst, src);
    assert dst !in World(t).methods;
    assert World(t).methods - {dst} == World(t).methods;
  }

  /** Assigning an entry without a method to one that has it takes the method away and changes no
      other.  The caches stay right exactly if a remembered failure fits as above, and every class
      that consults the class of `dst` and remembers the method finds it further on as well. */
  lemma AssignRemoves(t: Symtab, dst: Key, src: Key)
    requires Assignable(t, dst, src) && Coherent(t) && t.Real(src).None? && t.Real(dst).Some?
    ensures t.glob[src] in GpFree(t, dst).body
    ensures var u, b := Aliased(t, dst, src), t.body[t.glob[src]];
            var q := World(t).(methods := World(t).methods - {dst});
            && Wf(u) && World(u) == q
            && (Coherent(u) <==>
                && (b.cv.None? ==>
                      && b.cvgen <= t.mro.TopGen(dst.0)
                      && (b.cvgen == t.mro.TopGen(dst.0) && Searchable(t.mro, dst.0) ==>
                            Lookup(q, dst.0, dst.1).None?))
                && forall l :: Believed(t, l) && l != dst && l.1 == dst.1 && t.glob[l] != t.glob[src]
                               && Consults(World(t), l.0, dst.0, dst.1)
                               ==> Lookup(q, l.0, l.1) == t.Real(dst))
  {
    AliasedWorld(t, dst, src);
    AliasedCoherent(t, dst, src);
    var p := World(t);
    forall l | Believed(t, l) && l != dst && l.1 == dst.1 && Consults(p, l.0, dst.0, dst.1)
      ensures Lookup(p, l.0, l.1) == t.Real(dst) == t.body[t.glob[l]].cv
      ensures Exposed(t, dst, src, l) <==> t.glob[l] != t.glob[src]
    {
      assert EntryOk(t, l);
      ConsultsDecides(p, p, dst, l.0);
    }
  }

  /** The condition of the three together, before the assignment. */
  ghost predicate AssignKeeps(t: Symtab, dst: Key, src: Key)
    requires Wf(t) && dst in t.glob && src in t.glob
  {
    var p := World(t);
    var q := p.(methods := p.methods - {dst});
    if t.Real(src).Some? then
      forall l :: Believed(t, l) && l != dst && l.1 == dst.1 && Consults(p, l.0, dst.0, dst.1)
                  ==> t.body[t.glob[l]].cv == t.Real(src)
    else
      && FailureFits(t, dst, src, q)
      && (t.Real(dst).Some? ==>
            forall l :: Believed(t, l) && l != dst && l.1 == dst.1 && t.glob[l] != t.glob[src]
                        && Consults(p, l.0, dst.0, dst.1)
                        ==> Lookup(q, l.0, l.1) == t.Real(dst))
  }

  /** Every glob assignment gives `dst` the sub of `src`, or none, and the caches stay right exactly
      under the condition. */
  lemma AssignExactly(t: Symtab, dst: Key, src: Key)
    requires Assignable(t, dst, src) && Coherent(t)
    ensures t.glob[src] in GpFree(t, dst).body
    ensures var u := Aliased(t, dst, src);
            && Wf(u) && World(u) == Reassigned(World(t), dst, t.Real(src))
            && (Coherent(u) <==> AssignKeeps(t, dst, src))
  {
    AliasedWorld(t, dst, src);
    if t.Real(src).Some? {
      AssignMethod(t, dst, src);
    } else if t.Real(dst).Some? {
      AssignRemoves(t, dst, src);
    } else {
      AssignNothing(t, dst, src);
      SameWorld(t, dst, src);
    }
  }

  // ---------------------------------------------------------------- two inputs for which they go wrong

  lemma LookupThroughParent(p: Program, x: Stash, c: Stash, n: Name)
    requires x in p.linear && p.linear[x] == [x, c] && Own(p, x, n).None? && Own(p, c, n).Some?
    ensures Lookup(p, x, n) == Own(p, c, n)
  {
    assert [x, c][1..] == [c];
    assert FirstIn(p, [c], n) == Own(p, c, n);
  }

  lemma LookupAlone(p: Program, x: Stash, n: Name)
    requires x in p.linear && p.linear[x] == [x] && Own(p, x, n).None? && UNIVERSAL !in p.linear
    ensures Lookup(p, x, n) == None
  {
    assert [x][1..] == [];
    assert FirstIn(p, [x], n) == FirstIn(p, [], n);
  }

  /** Classes 1, 2 and 3, the second inheriting from `parent`; all dates are equal. */
  function ExampleDates(parent: Stash): Dates {
    Dates(map[1 := 1, 2 := 1, 3 := 1], 1, map[1 := [1], 2 := [2, parent], 3 := [3]], map[], map[parent := {2}])
  }

  lemma ExampleDatesWf(parent: Stash)
    ensures WfDates(ExampleDates(parent))
  {
    var d := ExampleDates(parent);
    forall s, c | s in d.linear && c in d.linear[s] && c != s ensures s in d.Rev(c) {
      assert s == 2 && c == parent;
    }
  }

  function Example(parent: Stash, keys: map<Key, BodyId>, bodies: map<BodyId, Body>): Symtab {
    Symtab(keys, bodies, 3, [], ExampleDates(parent))
  }

  /** Class 2 has cached the method 5 it inherits from class 1; entry (3, 6) holds another sub. */
  function CachedChild(): Symtab {
    Example(1, map[(1, 5) := 0, (2, 5) := 1, (3, 6) := 2],
            map[0 := Body(Some(SUB_F), 0, 1), 1 := Body(Some(SUB_F), 2, 1), 2 := Body(Some(SUB_G), 0, 1)])
  }

  lemma CachedChildCoherent()
    ensures Wf(CachedChild()) && Coherent(CachedChild())
  {
    var t := CachedChild();
    ExampleDatesWf(1);
    LookupThroughParent(World(t), 2, 1, 5);
    assert EntryOk(t, (1, 5)) && EntryOk(t, (2, 5)) && EntryOk(t, (3, 6));
  }

  /** When (1, 5) comes to share the body of (3, 6) nothing is dated, so class 2 goes on believing the
      old answer. */
  lemma AliasLeavesStaleChild()
    ensures Wf(CachedChild()) && Coherent(CachedChild())
    ensures Misled(Aliased(CachedChild(), (1, 5), (3, 6)), (2, 5))
  {
    CachedChildCoherent();
    CachedChildAssigned();
    StaleChildMisled();
  }

  function StaleChild(): Symtab {
    Example(1, map[(1, 5) := 2, (2, 5) := 1, (3, 6) := 2],
            map[1 := Body(Some(SUB_F), 2, 1), 2 := Body(Some(SUB_G), 0, 2)]).(released := [0])
  }

  lemma StaleChildMisled()
    ensures Misled(StaleChild(), (2, 5))
  {
    LookupThroughParent(World(StaleChild()), 2, 1, 5);
  }

  lemma CachedChildFreed()
    ensures GpFree(CachedChild(), (1, 5)) ==
      Example(1, map[(2, 5) := 1, (3, 6) := 2],
              map[1 := Body(Some(SUB_F), 2, 1), 2 := Body(Some(SUB_G), 0, 1)]).(released := [0])
  {
    var u := GpFree(CachedChild(), (1, 5));
    assert u.glob == map[(2, 5) := 1, (3, 6) := 2];
    assert u.body == map[1 := Body(Some(SUB_F), 2, 1), 2 := Body(Some(SUB_G), 0, 1)];
  }

  lemma CachedChildAssigned()
    ensures Aliased(CachedChild(), (1, 5), (3, 6)) == StaleChild()
  {
    CachedChildFreed();
  }

  /** Class 1 has cached that it has no method 5, which class 2 inherits from class 3. */
  function CachedFailure(): Symtab {
    Example(3, map[(1, 5) := 0, (2, 5) := 1, (3, 5) := 2],
            map[0 := Body(None, 2, 1), 1 := Body(None, 0, 1), 2 := Body(Some(SUB_F), 0, 1)])
  }

  lemma CachedFailureCoherent()
    ensures Wf(CachedFailure()) && Coherent(CachedFailure())
  {
    var t := CachedFailure();
    ExampleDatesWf(3);
    LookupAlone(World(t), 1, 5);
    assert EntryOk(t, (1, 5)) && EntryOk(t, (2, 5)) && EntryOk(t, (3, 5));
  }

  /** A remembered failure survives gp_ref: once (2, 5) shares the body of (1, 5), class 2, whose
      date happens to be the same, no longer finds the method it inherits. */
  lemma AliasSpreadsFailure()
    ensures Wf(CachedFailure()) && Coherent(CachedFailure())
    ensures Misled(Aliased(CachedFailure(), (2, 5), (1, 5)), (2, 5))
  {
    CachedFailureCoherent();
    CachedFailureAssigned();
    SpreadFailureMisled();
  }

  function SpreadFailure(): Symtab {
    Example(3, map[(1, 5) := 0, (2, 5) := 0, (3, 5) := 2],
            map[0 := Body(None, 2, 2), 2 := Body(Some(SUB_F), 0, 1)]).(released := [1])
  }

  lemma SpreadFailureMisled()
    ensures Misled(SpreadFailure(), (2, 5))
  {
    LookupThroughParent(World(SpreadFailure()), 2, 3, 5);
  }

  lemma CachedFailureFreed()
    ensures GpFree(CachedFailure(), (2, 5)) ==
      Example(3, map[(1, 5) := 0, (3, 5) := 2],
              map[0 := Body(None, 2, 1), 2 := Body(Some(SUB_F), 0, 1)]).(released := [1])
  {
    var u := GpFree(CachedFailure(), (2, 5));
    assert u.glob == map[(1, 5) := 0, (3, 5) := 2];
    assert u.body == map[0 := Body(None, 2, 1), 2 := Body(Some(SUB_F), 0, 1)];
  }

  lemma CachedFailureShared(t: Symtab)
    requires t == Example(3, map[(1, 5) := 0, (3, 5) := 2],
                          map[0 := Body(None, 2, 1), 2 := Body(Some(SUB_F), 0, 1)]).(released := [1])
    ensures GpRef(t, (2, 5), 0) == SpreadFailure()
  {
    assert GpRef(t, (2, 5), 0).glob == SpreadFailure().glob;
  }

  lemma CachedFailureAssigned()
    ensures Aliased(CachedFailure(), (2, 5), (1, 5)) == SpreadFailure()
  {
    CachedFailureFreed();
    CachedFailureShared(GpFree(CachedFailure(), (2, 5)));
  }
}
