/**
 The generation counters that date cached method lookups (mro.c), and the cache-free search
 they stand in for.

 A cached result is believed only while it carries the sum of its stash's `cache_gen` and
 PL_sub_generation.  mro_method_changed_in and mro_isa_changed_in raise one or the other; this
 module proves that they always reach every class whose lookups can have changed.
 */
module Mro {
  import opened Basics

  // Stashes and method names are known by number: only equality of them matters.
  type Stash = nat
  type Name = nat
  type Key = (Stash, Name)

  const UNIVERSAL: Stash := 0

  /** A sub; a stub has been declared but has no body. */
  datatype Cv = Cv(id: nat, hasBody: bool)

  // for examples
  const SUB_F := Cv(10, true)
  const SUB_G := Cv(11, true)

  // ---------------------------------------------------------------- the cache-free reference

  type Lines = map<Stash, seq<Stash>>

  /** What a program defines: its real methods, and the linearizations of its classes. */
  datatype Program = Program(methods: map<Key, Cv>, linear: Lines)

  function Own(p: Program, s: Stash, n: Name): Option<Cv> {
    if (s, n) in p.methods then Some(p.methods[(s, n)]) else None
  }

  function FirstIn(p: Program, classes: seq<Stash>, n: Name): Option<Cv> {
    if classes == [] then None
    else if Own(p, classes[0], n).Some? then Own(p, classes[0], n)
    else FirstIn(p, classes[1..], n)
  }

  function InUniversal(p: Program, n: Name): Option<Cv> {
    if UNIVERSAL in p.linear then FirstIn(p, p.linear[UNIVERSAL], n) else None
  }

  /** The uncached search: the class and its ancestors in order, then UNIVERSAL. */
  function Lookup(p: Program, s: Stash, n: Name): Option<Cv>
    requires s in p.linear
  {
    var r := FirstIn(p, p.linear[s], n);
    if r.Some? then r else InUniversal(p, n)
  }

  lemma {:induction false} FirstInAppend(p: Program, a: seq<Stash>, b: seq<Stash>, n: Name)
    ensures FirstIn(p, a + b, n) == if FirstIn(p, a, n).Some? then FirstIn(p, a, n) else FirstIn(p, b, n)
  {
    if a == [] {
      assert a + b == b;
    } else {
      assert (a + b)[1..] == a[1..] + b;
      FirstInAppend(p, a[1..], b, n);
    }
  }

  /** A search only depends on the methods of the classes it visits. */
  lemma {:induction false} FirstInFrame(p: Program, q: Program, classes: seq<Stash>, n: Name)
    requires forall c :: c in classes ==> Own(p, c, n) == Own(q, c, n)
    ensures FirstIn(p, classes, n) == FirstIn(q, classes, n)
  {
    if classes != [] {
      FirstInFrame(p, q, classes[1..], n);
    }
  }

  ghost predicate SameElsewhere(p: Program, q: Program, k: Key) {
    p.linear == q.linear && forall l :: l != k ==> Own(p, l.0, l.1) == Own(q, l.0, l.1)
  }

  /** Lookups of other names do not see a change of method `k`, and neither do classes below
      which `k.0` does not lie. */
  lemma MethodChangeLeaves(p: Program, q: Program, k: Key, x: Stash, n: Name)
    requires SameElsewhere(p, q, k) && x in p.linear
    requires n != k.1 || (k.0 !in p.linear[x] && (UNIVERSAL in p.linear ==> k.0 !in p.linear[UNIVERSAL]))
    ensures Lookup(p, x, n) == Lookup(q, x, n)
  {
    forall c | c in p.linear[x] ensures Own(p, c, n) == Own(q, c, n) {
      var l := (c, n);
      assert l != k;
      assert Own(p, l.0, l.1) == Own(q, l.0, l.1);
    }
    FirstInFrame(p, q, p.linear[x], n);
    if UNIVERSAL in p.linear {
      forall c | c in p.linear[UNIVERSAL] ensures Own(p, c, n) == Own(q, c, n) {
        var l := (c, n);
        assert l != k;
        assert Own(p, l.0, l.1) == Own(q, l.0, l.1);
      }
      FirstInFrame(p, q, p.linear[UNIVERSAL], n);
    }
  }

  lemma SameLinesLookup(p: Program, q: Program, x: Stash, n: Name)
    requires p.methods == q.methods && x in p.linear && x in q.linear && p.linear[x] == q.linear[x]
    requires UNIVERSAL in p.linear <==> UNIVERSAL in q.linear
    requires UNIVERSAL in p.linear ==> p.linear[UNIVERSAL] == q.linear[UNIVERSAL]
    ensures Lookup(p, x, n) == Lookup(q, x, n)
  {
    FirstInFrame(p, q, p.linear[x], n);
    if UNIVERSAL in p.linear {
      FirstInFrame(p, q, p.linear[UNIVERSAL], n);
    }
  }

  /** A stash without methods or parents changes no other lookup, not even as UNIVERSAL. */
  lemma NewStashLookup(p: Program, s: Stash, x: Stash, n: Name)
    requires s !in p.linear && x in p.linear
    requires Own(p, s, n).None?
    ensures Lookup(p.(linear := p.linear[s := [s]]), x, n) == Lookup(p, x, n)
  {
    var q := p.(linear := p.linear[s := [s]]);
    FirstInFrame(p, q, p.linear[x], n);
    if UNIVERSAL in p.linear {
      FirstInFrame(p, q, p.linear[UNIVERSAL], n);
    } else if s == UNIVERSAL {
      assert FirstIn(q, [s], n) == None by {
        assert [s][1..] == [];
      }
    }
  }

  // ---------------------------------------------------------------- dates

  datatype Dates = Dates(
    cacheGen: map<Stash, nat>,        // cache_gen of every existing stash
    subGen: nat,                      // PL_sub_generation
    linear: Lines,                    // the linearizations that lookups may rely on
    linCache: Lines,                  // the linearizations remembered in mro_linear_c3
    isarev: map<Stash, set<Stash>>)   // PL_isarev: known children of a class
  {
    function TopGen(s: Stash): nat {
      (if s in cacheGen then cacheGen[s] else 0) + subGen
    }

    function Rev(s: Stash): set<Stash> {
      if s in isarev then isarev[s] else {}
    }
  }

  /** Every class knows, through its ancestors' isarev entries, who must hear of its changes. */
  ghost predicate RevCovers(d: Dates) {
    forall s, c :: s in d.linear && c in d.linear[s] && c != s ==> s in d.Rev(c)
  }

  ghost predicate WfDates(d: Dates) {
    && d.subGen >= 1
    && d.linear.Keys + d.linCache.Keys <= d.cacheGen.Keys
    && (forall s :: s in d.linear ==> d.linear[s] != [] && d.linear[s][0] == s)
    && (forall s :: s in d.linear && s in d.linCache ==> d.linCache[s] == d.linear[s])
  }

  /** A lookup in class `s` may rely on its linearization, and on that of UNIVERSAL if there is one. */
  predicate Searchable(d: Dates, s: Stash) {
    s in d.linear && (UNIVERSAL in d.cacheGen ==> UNIVERSAL in d.linear)
  }

  function Bumped(gens: map<Stash, nat>, who: set<Stash>): (r: map<Stash, nat>)
    ensures r.Keys == gens.Keys
  {
    map s | s in gens :: if s in who then gens[s] + 1 else gens[s]
  }

  predicate AboveUniversal(d: Dates, s: Stash) {
    s == UNIVERSAL || UNIVERSAL in d.Rev(s)
  }

  /** mro_method_changed_in: date every cache that might have used a method of `s` - all of them
      if UNIVERSAL inherits from it, otherwise those of its children, not its own. */
  function MethodChanged(d: Dates, s: Stash): Dates {
    if AboveUniversal(d, s) then d.(subGen := d.subGen + 1)
    else d.(cacheGen := Bumped(d.cacheGen, d.Rev(s)))
  }

  /** Dating reaches every class whose lookups can see a method of `s`, other than `s` itself. */
  lemma MethodChangeReaches(d: Dates, s: Stash, x: Stash)
    requires WfDates(d) && RevCovers(d) && x in d.linear && x != s
    requires s in d.linear[x] || (UNIVERSAL in d.linear && s in d.linear[UNIVERSAL])
    ensures MethodChanged(d, s).TopGen(x) > d.TopGen(x)
  {
  }

  lemma MethodChangeKeepsWf(d: Dates, s: Stash)
    requires WfDates(d)
    ensures WfDates(MethodChanged(d, s)) && (RevCovers(d) ==> RevCovers(MethodChanged(d, s)))
    ensures MethodChanged(d, s).linear == d.linear && MethodChanged(d, s).cacheGen.Keys == d.cacheGen.Keys
    ensures forall x :: MethodChanged(d, s).TopGen(x) >= d.TopGen(x)
  {
    assert forall c :: MethodChanged(d, s).Rev(c) == d.Rev(c);
  }

  // ---------------------------------------------------------------- @ISA

  /** What C3 guarantees of the linearizations after @ISA of `s` changed: each starts with its
      class, those that do not mention `s` are as before, and a descendant of `s` gains only
      ancestors of `s`. */
  ghost predicate Relinearized(was: Lines, s: Stash, lin: Lines) {
    && s in was
    && lin.Keys == was.Keys
    && (forall x :: x in lin ==> lin[x] != [] && lin[x][0] == x)
    && (forall x :: x in was && s !in was[x] ==> lin[x] == was[x])
    && (forall x, c :: x in was && s in was[x] && c in lin[x] ==> c in was[x] || c in lin[s])
  }

  /** Who is known to inherit from `s`, and `s` itself. */
  function Family(d: Dates, s: Stash): set<Stash> {
    {s} + d.Rev(s)
  }

  /** Only the family has new linearizations. */
  ghost predicate OnlyFamily(d: Dates, s: Stash, lin: Lines) {
    && lin.Keys <= d.cacheGen.Keys
    && (forall x :: x in lin ==> lin[x] != [] && lin[x][0] == x)
    && (forall x :: x in lin && x !in Family(d, s) ==> x in d.linear && lin[x] == d.linear[x])
  }

  /** Who inherits from a class has heard of it, or is of the family and the class in `line`. */
  ghost predicate FamilyHears(d: Dates, s: Stash, lin: Lines, line: seq<Stash>)
    requires line != []
  {
    forall x, c :: x in lin && c in lin[x] && c != x ==> x in d.Rev(c) || (c in line[1..] && x in Family(d, s))
  }

  /** What the caches assume of a change of @ISA of `s`, after which lookups may rely on the
      linearizations `lin`, and that of `s` itself has come out as `line`. */
  ghost predicate Heard(d: Dates, s: Stash, lin: Lines, line: seq<Stash>) {
    && s in d.cacheGen && line != [] && line[0] == s && (s in lin ==> lin[s] == line)
    && OnlyFamily(d, s, lin) && FamilyHears(d, s, lin, line)
  }

  /** It is so when every class has a linearization before and after, by C3, and everybody has heard
      of their descendants. */
  lemma RelinearizedIsHeard(d: Dates, s: Stash, lin: Lines)
    requires WfDates(d) && RevCovers(d) && Relinearized(d.linear, s, lin)
    ensures Heard(d, s, lin, lin[s])
  {
    forall x, c | x in lin && c in lin[x] && c != x
      ensures x in d.Rev(c) || (c in lin[s][1..] && x in Family(d, s))
    {
      if c in d.linear[x] {
        assert x in d.Rev(c);
      } else {
        assert s in d.linear[x];
        assert x == s || x in d.Rev(s);
        assert lin[s] == [s] + lin[s][1..];
        assert c in lin[s];
      }
    }
  }

  function WithChildren(rev: map<Stash, set<Stash>>, parents: set<Stash>, children: set<Stash>)
    : map<Stash, set<Stash>>
  {
    map c | c in rev.Keys + parents ::
      (if c in rev then rev[c] else {}) + (if c in parents then children else {})
  }

  function Elements(line: seq<Stash>): set<Stash> {
    set c | c in line
  }

  /** mro_isa_changed_in: `line` is the new linearization of `s`, and `lin` those that lookups may
      rely on from now on. */
  function IsaChanged(d: Dates, s: Stash, lin: Lines, line: seq<Stash>): Dates
    requires line != []
  {
    var u := IsaDied(d, s, lin);
    u.(linCache := u.linCache[s := line], isarev := WithChildren(d.isarev, Elements(line[1..]), Family(d, s)))
  }

  /** If there is no such linearization it dies, when everything is dated and forgotten and nothing has
      been announced. */
  function IsaDied(d: Dates, s: Stash, lin: Lines): Dates {
    Dates(if AboveUniversal(d, s) then d.cacheGen else Bumped(d.cacheGen, Family(d, s)),
          if AboveUniversal(d, s) then d.subGen + 1 else d.subGen,
          lin,
          d.linCache - Family(d, s),
          d.isarev)
  }

  lemma WithChildrenRev(d: Dates, s: Stash, lin: Lines, line: seq<Stash>, c: Stash)
    requires line != []
    ensures d.Rev(c) <= IsaChanged(d, s, lin, line).Rev(c)
    ensures c in line[1..] ==> Family(d, s) <= IsaChanged(d, s, lin, line).Rev(c)
  {
  }

  /** After mro_isa_changed_in every class still knows all who inherit from it. */
  lemma IsaChangeKeepsRevCovers(d: Dates, s: Stash, lin: Lines, line: seq<Stash>)
    requires WfDates(d) && Heard(d, s, lin, line)
    ensures RevCovers(IsaChanged(d, s, lin, line))
  {
    forall x, c | x in lin && c in lin[x] && c != x
      ensures x in IsaChanged(d, s, lin, line).Rev(c)
    {
      WithChildrenRev(d, s, lin, line, c);
    }
  }

  /** The linearizations still remembered are the ones in force. */
  lemma IsaChangeKeepsWf(d: Dates, s: Stash, lin: Lines, line: seq<Stash>)
    requires WfDates(d) && Heard(d, s, lin, line)
    ensures WfDates(IsaChanged(d, s, lin, line))
  {
  }

  /** Dating reaches every class whose linearization, or whose UNIVERSAL, may have changed. */
  lemma IsaChangeReaches(d: Dates, s: Stash, lin: Lines, line: seq<Stash>, x: Stash)
    requires WfDates(d) && Heard(d, s, lin, line) && x in lin
    ensures IsaChanged(d, s, lin, line).TopGen(x) >= d.TopGen(x)
    ensures IsaChanged(d, s, lin, line).TopGen(x) > d.TopGen(x)
            || (&& x in d.linear && lin[x] == d.linear[x]
                && (UNIVERSAL in lin ==> UNIVERSAL in d.linear && lin[UNIVERSAL] == d.linear[UNIVERSAL]))
  {
  }

  /** Lookups may go on relying on linearizations that a dead assignment has left as they were. */
  ghost predicate Fewer(was: Lines, lin: Lines) {
    forall x :: x in lin ==> x in was && lin[x] == was[x]
  }

  lemma IsaDiedKeepsWf(d: Dates, s: Stash, lin: Lines)
    requires WfDates(d) && Fewer(d.linear, lin)
    ensures WfDates(IsaDied(d, s, lin)) && (RevCovers(d) ==> RevCovers(IsaDied(d, s, lin)))
    ensures forall x :: IsaDied(d, s, lin).TopGen(x) >= d.TopGen(x)
  {
    assert forall c :: IsaDied(d, s, lin).Rev(c) == d.Rev(c);
  }

  // ---------------------------------------------------------------- exactly what is dated

  /** Class `x` is dated by a change of a method of `s`: it is known to inherit from it, or everybody
      does. */
  ghost predicate Hears(d: Dates, s: Stash, x: Stash) {
    || s == UNIVERSAL
    || (s in d.isarev && (UNIVERSAL in d.isarev[s] || (x in d.isarev[s] && x in d.cacheGen)))
  }

  /** A method change dates these once and no others, and nothing else happens. */
  lemma MethodChangeDates(d: Dates, s: Stash, x: Stash)
    ensures var u := MethodChanged(d, s);
            && u.TopGen(x) == d.TopGen(x) + (if Hears(d, s, x) then 1 else 0)
            && u.isarev == d.isarev && u.linear == d.linear && u.linCache == d.linCache
            && forall c :: Hears(u, s, c) <==> Hears(d, s, c)
  {
  }

  /** An @ISA change dates the same classes and `s` itself, once, and forgets the linearizations of
      `s` and of those known to inherit from it, whether it dies or not. */
  lemma IsaDeathDates(d: Dates, s: Stash, lin: Lines, x: Stash)
    requires s in d.cacheGen
    ensures var u := IsaDied(d, s, lin);
            && u.TopGen(x) == d.TopGen(x) + (if x == s || Hears(d, s, x) then 1 else 0)
            && (x in u.linCache <==> x in d.linCache && x != s && !(s in d.isarev && x in d.isarev[s]))
            && (x in u.linCache ==> u.linCache[x] == d.linCache[x])
            && u.isarev == d.isarev
  {
  }

  /** If it does not die the new linearization is remembered, and exactly the ancestors in it hear of
      `s` and of all who inherit from it. */
  lemma IsaChangeDates(d: Dates, s: Stash, lin: Lines, line: seq<Stash>, x: Stash, c: Stash)
    requires s in d.cacheGen && line != []
    ensures var u, v := IsaChanged(d, s, lin, line), IsaDied(d, s, lin);
            && u.TopGen(x) == v.TopGen(x) && u.linCache == v.linCache[s := line]
            && (x in u.Rev(c) <==> x in d.Rev(c) || (c in line[1..] && (x == s || x in d.Rev(s))))
  {
  }
}
