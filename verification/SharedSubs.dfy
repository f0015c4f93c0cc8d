/**
 Defining a sub in an entry whose body other entries share, and the method cache: exactly when every
 cached result stays right (op.c, mro.c).

 The definition changes the method of every entry on the body, but dates only the descendants of the
 class it is made in.
 */
module SharedSubs {
  import opened Basics
  import opened Mro
  import opened SymbolTable
  import opened GlobAssignment

  // ---------------------------------------------------------------- several methods at once

  /** The program once all the entries `who` have the sub `cv`. */
  function Redefined(p: Program, who: set<Key>, cv: Cv): Program {
    p.(methods := map l | l in p.methods.Keys + who :: if l in who then cv else p.methods[l])
  }

  ghost predicate ComesToAny(p: Program, classes: seq<Stash>, who: set<Key>, n: Name) {
    exists j :: j in who && j.1 == n && ComesTo(p, classes, j.0, n)
  }

  /** The search for method `n` of `x` comes to one of the classes before any other with that
      method. */
  ghost predicate ConsultsAny(p: Program, x: Stash, who: set<Key>, n: Name)
    requires x in p.linear
  {
    exists j :: j in who && j.1 == n && Consults(p, x, j.0, n)
  }

  lemma ComesToAnyStep(p: Program, classes: seq<Stash>, who: set<Key>, n: Name)
    requires classes != []
    ensures ComesToAny(p, classes, who, n) <==>
              (classes[0], n) in who || (Own(p, classes[0], n).None? && ComesToAny(p, classes[1..], who, n))
  {
    if (classes[0], n) in who {
      var j := (classes[0], n);
      assert ComesTo(p, classes, j.0, n);
    } else if Own(p, classes[0], n).None? && ComesToAny(p, classes[1..], who, n) {
      var j :| j in who && j.1 == n && ComesTo(p, classes[1..], j.0, n);
      assert ComesTo(p, classes, j.0, n);
    } else if j :| j in who && j.1 == n && ComesTo(p, classes, j.0, n) {
      assert j == (j.0, n);
    }
  }

  lemma {:induction false} RedefinedFirst(p: Program, who: set<Key>, cv: Cv, classes: seq<Stash>, n: Name)
    ensures FirstIn(Redefined(p, who, cv), classes, n) ==
              if ComesToAny(p, classes, who, n) then Some(cv) else FirstIn(p, classes, n)
  {
    if classes != [] {
      RedefinedFirst(p, who, cv, classes[1..], n);
      ComesToAnyStep(p, classes, who, n);
    }
  }

  /** A search that consults one of the classes answers with the new sub; any other answers as
      before. */
  lemma RedefinedLookup(p: Program, who: set<Key>, cv: Cv, x: Stash, n: Name)
    requires x in p.linear
    ensures Lookup(Redefined(p, who, cv), x, n) == if ConsultsAny(p, x, who, n) then Some(cv) else Lookup(p, x, n)
  {
    RedefinedFirst(p, who, cv, p.linear[x], n);
    if UNIVERSAL in p.linear {
      RedefinedFirst(p, who, cv, p.linear[UNIVERSAL], n);
    }
    ConsultsAnyMeaning(p, x, who, n);
  }

  lemma ConsultsAnyMeaning(p: Program, x: Stash, who: set<Key>, n: Name)
    requires x in p.linear
    ensures ConsultsAny(p, x, who, n) <==>
              || ComesToAny(p, p.linear[x], who, n)
              || (FirstIn(p, p.linear[x], n).None? && UNIVERSAL in p.linear &&
                  ComesToAny(p, p.linear[UNIVERSAL], who, n))
  {
    if ComesToAny(p, p.linear[x], who, n) {
      var j :| j in who && j.1 == n && ComesTo(p, p.linear[x], j.0, n);
      assert Consults(p, x, j.0, n);
    } else if FirstIn(p, p.linear[x], n).None? && UNIVERSAL in p.linear &&
              ComesToAny(p, p.linear[UNIVERSAL], who, n) {
      var j :| j in who && j.1 == n && ComesTo(p, p.linear[UNIVERSAL], j.0, n);
      assert Consults(p, x, j.0, n);
    }
  }

  // ---------------------------------------------------------------- after the definition

  /** The entries that show the sub of entry `k`. */
  ghost function Sharers(t: Symtab, k: Key): set<Key> {
    if k in t.glob then Users(t, t.glob[k]) else {k}
  }

  ghost predicate Definable(t: Symtab, k: Key) {
    Wf(t) && BodiesOk(t) && k.0 in t.mro.cacheGen
  }

  /** What entries show afterwards. */
  lemma DefinedBodies(t: Symtab, k: Key, cv: Cv, l: Key)
    requires Definable(t, k)
    ensures var u := Define(t, k, cv);
            && (l in u.glob <==> l in t.glob || l == k)
            && (l in u.glob ==> u.glob[l] in u.body)
            && (l in Sharers(t, k) ==> l in u.glob && u.body[u.glob[l]].cv == Some(cv) && u.body[u.glob[l]].cvgen == 0)
            && (l in t.glob && l !in Sharers(t, k) ==>
                  u.body[u.glob[l]].cv == t.body[t.glob[l]].cv && u.body[u.glob[l]].cvgen == t.body[t.glob[l]].cvgen)
  {
  }

  lemma WorldOfAll(t: Symtab, u: Symtab, who: set<Key>, cv: Cv)
    requires forall l :: u.Real(l) == if l in who then Some(cv) else t.Real(l)
    ensures World(u).methods == Redefined(World(t), who, cv).methods
  {
    var m := Redefined(World(t), who, cv).methods;
    forall l ensures l in World(u).methods <==> l in m {
      assert u.Real(l) == if l in who then Some(cv) else t.Real(l);
    }
    forall l | l in m ensures World(u).methods[l] == m[l] {
      assert u.Real(l) == if l in who then Some(cv) else t.Real(l);
    }
  }

  lemma DefinedWf(t: Symtab, k: Key, cv: Cv)
    requires Definable(t, k)
    ensures Wf(Define(t, k, cv)) && Define(t, k, cv).mro == MethodChanged(t.mro, k.0)
  {
    MethodChangeKeepsWf(t.mro, k.0);
    var u := Define(t, k, cv);
    forall l | l in u.glob ensures l.0 in t.mro.cacheGen && u.glob[l] in u.body {
      DefinedBodies(t, k, cv, l);
    }
  }

  lemma DefinedReal(t: Symtab, k: Key, cv: Cv, l: Key)
    requires Definable(t, k)
    ensures Define(t, k, cv).Real(l) == if l in Sharers(t, k) then Some(cv) else t.Real(l)
  {
    DefinedBodies(t, k, cv, l);
  }

  lemma DefinedWorld(t: Symtab, k: Key, cv: Cv)
    requires Definable(t, k)
    ensures Wf(Define(t, k, cv)) && World(Define(t, k, cv)) == Redefined(World(t), Sharers(t, k), cv)
  {
    var u, who := Define(t, k, cv), Sharers(t, k);
    DefinedWf(t, k, cv);
    forall l ensures u.Real(l) == if l in who then Some(cv) else t.Real(l) {
      DefinedReal(t, k, cv, l);
    }
    WorldOfAll(t, u, who, cv);
    MethodChangeKeepsWf(t.mro, k.0);
  }

  lemma RedefinedOne(p: Program, k: Key, cv: Cv)
    ensures Redefined(p, {k}, cv) == p.(methods := p.methods[k := cv])
  {
    assert Redefined(p, {k}, cv).methods == p.methods[k := cv];
  }

  /** A result that is believed now, and still is after dating a change of class `s`. */
  predicate Undated(t: Symtab, s: Stash, l: Key) {
    Believed(t, l) && MethodChanged(t.mro, s).TopGen(l.0) == t.mro.TopGen(l.0)
  }

  lemma DefinedEntry(t: Symtab, k: Key, cv: Cv, l: Key)
    requires Definable(t, k) && Coherent(t) && l in Define(t, k, cv).glob
    ensures var u := Define(t, k, cv);
            && Wf(u)
            && (EntryOk(u, l) <==>
                (Undated(t, k.0, l) && l !in Sharers(t, k) && ConsultsAny(World(t), l.0, Sharers(t, k), l.1)
                 ==> t.body[t.glob[l]].cv == Some(cv)))
  {
    var u := Define(t, k, cv);
    DefinedWorld(t, k, cv);
    DefinedBodies(t, k, cv, l);
    MethodChangeKeepsWf(t.mro, k.0);
    if l in Sharers(t, k) {
      RealIsOk(u, l);
    } else {
      assert EntryOk(t, l);
      if Searchable(t.mro, l.0) {
        RedefinedLookup(World(t), Sharers(t, k), cv, l.0, l.1);
      }
    }
  }

  /** Every class that consults one of the entries, and goes on believing its answer, remembers the
      new sub. */
  ghost predicate DefineKeeps(t: Symtab, k: Key, cv: Cv)
    requires Wf(t)
  {
    forall l :: Undated(t, k.0, l) && l !in Sharers(t, k) && ConsultsAny(World(t), l.0, Sharers(t, k), l.1)
                ==> t.body[t.glob[l]].cv == Some(cv)
  }

  /** Defining a sub changes the methods of exactly the entries on its body.  The caches stay right if
      and only if every other class that consults one of them, and is not dated, remembers that very
      sub.  Nothing is assumed about who has heard of whose descendants. */
  lemma DefineExactly(t: Symtab, k: Key, cv: Cv)
    requires Definable(t, k) && Coherent(t)
    ensures var u := Define(t, k, cv);
            && Wf(u) && World(u) == Redefined(World(t), Sharers(t, k), cv)
            && (Coherent(u) <==> DefineKeeps(t, k, cv))
  {
    DefinedWorld(t, k, cv);
    var u := Define(t, k, cv);
    forall l | l in u.glob
      ensures EntryOk(u, l) <==>
        (Undated(t, k.0, l) && l !in Sharers(t, k) && ConsultsAny(World(t), l.0, Sharers(t, k), l.1)
         ==> t.body[t.glob[l]].cv == Some(cv))
    {
      DefinedEntry(t, k, cv, l);
    }
    forall l | Undated(t, k.0, l) ensures l in u.glob {
      DefinedBodies(t, k, cv, l);
    }
  }

  lemma {:induction false} ComesToIn(p: Program, classes: seq<Stash>, c: Stash, n: Name)
    requires ComesTo(p, classes, c, n)
    ensures c in classes
  {
    if classes[0] != c {
      ComesToIn(p, classes[1..], c, n);
    }
  }

  /** Dating reaches every class that consults the class of the definition. */
  lemma ConsultingIsDated(t: Symtab, k: Key, l: Key)
    requires Wf(t) && RevCovers(t.mro) && Believed(t, l) && l != k && l.1 == k.1
    requires Consults(World(t), l.0, k.0, k.1)
    ensures !Undated(t, k.0, l)
  {
    var p := World(t);
    if ComesTo(p, p.linear[l.0], k.0, k.1) {
      ComesToIn(p, p.linear[l.0], k.0, k.1);
    } else {
      ComesToIn(p, p.linear[UNIVERSAL], k.0, k.1);
    }
    MethodChangeReaches(t.mro, k.0, l.0);
  }

  lemma SoleKeeps(t: Symtab, k: Key, cv: Cv)
    requires Wf(t) && RevCovers(t.mro) && Sharers(t, k) == {k}
    ensures DefineKeeps(t, k, cv)
  {
    forall l | Undated(t, k.0, l) && l !in Sharers(t, k)
      ensures !ConsultsAny(World(t), l.0, Sharers(t, k), l.1)
    {
      if j :| j in Sharers(t, k) && j.1 == l.1 && Consults(World(t), l.0, j.0, l.1) {
        ConsultingIsDated(t, k, l);
      }
    }
  }

  /** So an entry with a body of its own can always be redefined, when every class has heard of its
      descendants: exactly that method changes, and no cached result goes wrong. */
  lemma DefineMeaning(t: Symtab, k: Key, cv: Cv)
    requires Definable(t, k) && RevCovers(t.mro) && Sharers(t, k) == {k}
    ensures var u := Define(t, k, cv);
            && Wf(u) && World(u) == World(t).(methods := World(t).methods[k := cv])
            && (Coherent(t) ==> DefineKeeps(t, k, cv) && Coherent(u))
  {
    DefinedWorld(t, k, cv);
    RedefinedOne(World(t), k, cv);
    SoleKeeps(t, k, cv);
    if Coherent(t) {
      DefineExactly(t, k, cv);
    }
  }

  // ---------------------------------------------------------------- an input for which it goes wrong

  /** Class 3 inherits from class 2.  Entries (1, 5) and (2, 5) share a body, and class 3 has cached
      the method it inherits. */
  function SharedParent(): Symtab {
    Symtab(map[(1, 5) := 0, (2, 5) := 0, (3, 5) := 1],
           map[0 := Body(Some(SUB_F), 0, 2), 1 := Body(Some(SUB_F), 2, 1)], 2, [],
           Dates(map[1 := 1, 2 := 1, 3 := 1], 1, map[1 := [1], 2 := [2], 3 := [3, 2]], map[], map[2 := {3}]))
  }

  lemma SharedParentWf()
    ensures Wf(SharedParent()) && RevCovers(SharedParent().mro)
  {
    var d := SharedParent().mro;
    forall s, c | s in d.linear && c in d.linear[s] && c != s ensures s in d.Rev(c) {
      assert s == 3 && c == 2;
    }
  }

  lemma SharedParentCoherent()
    ensures Wf(SharedParent()) && RevCovers(SharedParent().mro) && Coherent(SharedParent())
  {
    SharedParentWf();
    var t := SharedParent();
    LookupThroughParent(World(t), 3, 2, 5);
    assert EntryOk(t, (1, 5)) && EntryOk(t, (2, 5)) && EntryOk(t, (3, 5));
  }

  /** Defining (1, 5) redefines (2, 5) as well and dates nothing, so class 3 goes on believing the old
      answer. */
  lemma DefineLeavesStaleChild()
    ensures Wf(SharedParent()) && RevCovers(SharedParent().mro) && Coherent(SharedParent())
    ensures Misled(Define(SharedParent(), (1, 5), SUB_G), (3, 5))
  {
    SharedParentCoherent();
    SharedParentRedefined();
    RedefinedMisled();
  }

  function RedefinedParent(): Symtab {
    SharedParent().(body := map[0 := Body(Some(SUB_G), 0, 2), 1 := Body(Some(SUB_F), 2, 1)])
  }

  lemma SharedParentRedefined()
    ensures Define(SharedParent(), (1, 5), SUB_G) == RedefinedParent()
  {
    var d := SharedParent().mro;
    assert Bumped(d.cacheGen, {}) == d.cacheGen;
  }

  lemma RedefinedMisled()
    ensures Misled(RedefinedParent(), (3, 5))
  {
    LookupThroughParent(World(RedefinedParent()), 3, 2, 5);
  }
}
