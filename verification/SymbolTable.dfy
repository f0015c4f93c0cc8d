/**
 Symbol-table entries (globs), the shared bodies they point at, and the method results cached in
 those bodies (gv.c).

 A body whose `cvgen` is 0 holds a real method (or nothing); any other `cvgen` marks its `cv` as
 a cached result - no `cv` meaning "no such method" - dated by the sum of the two generations at
 the time it was stored.
 */
module SymbolTable {
  import opened Basics
  import opened Mro

  type BodyId = nat

  datatype Body = Body(cv: Option<Cv>, cvgen: nat, refcnt: nat)

  datatype Symtab = Symtab(
    glob: map<Key, BodyId>,    // which body each symbol-table entry points at
    body: map<BodyId, Body>,   // the live bodies
    next: BodyId,              // address of the next new body
    released: seq<BodyId>,     // bodies whose contents have been released, in order
    mro: Dates)
  {
    /** GvCVu: the real method of an entry. */
    function Real(k: Key): Option<Cv> {
      if k in glob && glob[k] in body && body[glob[k]].cvgen == 0 then body[glob[k]].cv else None
    }
  }

  function World(t: Symtab): Program {
    Program(map k | k in t.glob && t.Real(k).Some? :: t.Real(k).value, t.mro.linear)
  }

  // ---------------------------------------------------------------- invariants

  ghost predicate Wf(t: Symtab) {
    && WfDates(t.mro)
    && (forall k :: k in t.glob ==> k.0 in t.mro.cacheGen && t.glob[k] in t.body)
  }

  /** The entry holds a result that a lookup would believe. */
  predicate Believed(t: Symtab, k: Key) {
    && k in t.glob && t.glob[k] in t.body && Searchable(t.mro, k.0)
    && t.body[t.glob[k]].cvgen == t.mro.TopGen(k.0)
  }

  /** Such a result is the right one. */
  ghost predicate EntryOk(t: Symtab, k: Key)
    requires Wf(t) && k in t.glob
  {
    && t.body[t.glob[k]].cvgen <= t.mro.TopGen(k.0)
    && (Believed(t, k) ==> t.body[t.glob[k]].cv == Lookup(World(t), k.0, k.1))
  }

  ghost predicate Coherent(t: Symtab)
    requires Wf(t)
  {
    forall k :: k in t.glob ==> EntryOk(t, k)
  }

  /** A result that would be believed and is not what the cache-free search gives. */
  ghost predicate Misled(t: Symtab, k: Key) {
    Believed(t, k) && t.body[t.glob[k]].cv != Lookup(World(t), k.0, k.1)
  }

  ghost function Users(t: Symtab, b: BodyId): set<Key> {
    set k | k in t.glob && t.glob[k] == b
  }

  ghost predicate Counted(t: Symtab) {
    && (forall b :: b in t.body ==> t.body[b].refcnt == |Users(t, b)| && t.body[b].refcnt > 0)
    && (forall k :: k in t.glob ==> t.glob[k] in t.body)
  }

  /** Every body ever made is either live or was released, once. */
  ghost predicate Lifetimes(body: map<BodyId, Body>, next: BodyId, released: seq<BodyId>) {
    && (forall b: BodyId :: b < next <==> b in body || b in released)
    && (forall b: BodyId :: b in body ==> b !in released)
    && (forall i, j :: 0 <= i < j < |released| ==> released[i] != released[j])
  }

  /** Bodies are counted, live exactly until their last entry leaves, and released once. */
  ghost predicate BodiesOk(t: Symtab) {
    Counted(t) && Lifetimes(t.body, t.next, t.released)
  }

  /** No cached method sits on a body that more than one entry sees. */
  ghost predicate NoSharedCache(t: Symtab) {
    forall b :: b in t.body && t.body[b].refcnt > 1 && t.body[b].cv.Some? ==> t.body[b].cvgen == 0
  }

  // ---------------------------------------------------------------- operations

  /** newGP for a new entry. */
  function NewGlob(t: Symtab, k: Key): Symtab {
    t.(glob := t.glob[k := t.next], body := t.body[t.next := Body(None, 0, 1)], next := t.next + 1)
  }

  /** hv_fetch with lval, then gv_init if the entry is new. */
  function Fetched(t: Symtab, k: Key): Symtab {
    if k in t.glob then t else NewGlob(t, k)
  }

  function WithBody(t: Symtab, b: BodyId, v: Body): Symtab {
    t.(body := t.body[b := v])
  }

  /** GvCV = cv, GvCVGEN = 0 on an existing entry. */
  function SetCv(t: Symtab, k: Key, cv: Cv): Symtab
    requires k in t.glob && t.glob[k] in t.body
  {
    WithBody(t, t.glob[k], t.body[t.glob[k]].(cv := Some(cv), cvgen := 0))
  }

  /** mro_method_changed_in. */
  function Notified(t: Symtab, s: Stash): Symtab {
    t.(mro := MethodChanged(t.mro, s))
  }

  /** Defining a method: fetch the entry, set the sub, date the caches. */
  function Define(t: Symtab, k: Key, cv: Cv): Symtab
    requires k in t.glob ==> t.glob[k] in t.body
  {
    Notified(SetCv(Fetched(t, k), k, cv), k.0)
  }

  /** gp_free: the entry leaves its body; the last one out releases the contents. */
  function GpFree(t: Symtab, k: Key): Symtab
    requires k in t.glob && t.glob[k] in t.body
  {
    var b := t.glob[k];
    if t.body[b].refcnt > 1 then
      t.(glob := t.glob - {k}, body := t.body[b := t.body[b].(refcnt := t.body[b].refcnt - 1)])
    else
      t.(glob := t.glob - {k}, body := t.body - {b}, released := t.released + [b])
  }

  /** gp_ref for entry `k`: count it, and drop a cached method so that it is not passed on. */
  function GpRef(t: Symtab, k: Key, b: BodyId): Symtab
    requires b in t.body
  {
    var v := t.body[b].(refcnt := t.body[b].refcnt + 1);
    t.(glob := t.glob[k := b],
       body := t.body[b := if v.cv.Some? && v.cvgen != 0 then v.(cv := None, cvgen := 0) else v])
  }

  /** Assigning a glob by name: `dst` leaves its body and shares that of `src`.  Nothing is
      dated. */
  function Aliased(t: Symtab, dst: Key, src: Key): Symtab
    requires dst in t.glob && t.glob[dst] in t.body && src in t.glob && t.glob[src] in t.body
    requires t.glob[src] in GpFree(t, dst).body
  {
    GpRef(GpFree(t, dst), dst, t.glob[src])
  }

  /** Deleting an entry from its stash in void context: a real method is dated once by the hash and once by the
      dying glob. */
  function Deleted(t: Symtab, k: Key): Symtab
    requires k in t.glob && t.glob[k] in t.body
  {
    GpFree(if t.Real(k).Some? then Notified(Notified(t, k.0), k.0) else t, k)
  }

  /** `undef *glob`: the old body is left and replaced by a new one. */
  function Undefined(t: Symtab, k: Key): Symtab
    requires k in t.glob && t.glob[k] in t.body
  {
    NewGlob(GpFree(if t.Real(k).Some? then Notified(t, k.0) else t, k), k)
  }

  /** A new, empty stash: no entries, no parents, cache_gen 1. */
  function NewStash(t: Symtab, s: Stash): Symtab {
    t.(mro := t.mro.(cacheGen := t.mro.cacheGen[s := 1], linear := t.mro.linear[s := [s]]))
  }

  /** A change of @ISA, and one that dies. */
  function Relinearize(t: Symtab, s: Stash, lin: Lines, line: seq<Stash>): Symtab
    requires line != []
  {
    t.(mro := IsaChanged(t.mro, s, lin, line))
  }

  function Died(t: Symtab, s: Stash, lin: Lines): Symtab {
    t.(mro := IsaDied(t.mro, s, lin))
  }

  // ---------------------------------------------------------------- frames

  lemma WorldFrame(t: Symtab, u: Symtab)
    requires forall k :: u.Real(k) == t.Real(k)
    ensures World(u).methods == World(t).methods
  {
    forall k ensures k in World(u).methods <==> k in World(t).methods {
      assert u.Real(k) == t.Real(k);
    }
    forall k | k in World(u).methods ensures World(u).methods[k] == World(t).methods[k] {
      assert u.Real(k) == t.Real(k);
    }
  }

  lemma WorldWith(t: Symtab, u: Symtab, k: Key, cv: Cv)
    requires forall l :: u.Real(l) == if l == k then Some(cv) else t.Real(l)
    ensures World(u).methods == World(t).methods[k := cv]
  {
    var m := World(t).methods[k := cv];
    forall l ensures l in World(u).methods <==> l in m {
      assert u.Real(l) == if l == k then Some(cv) else t.Real(l);
    }
    forall l | l in m ensures World(u).methods[l] == m[l] {
      assert u.Real(l) == if l == k then Some(cv) else t.Real(l);
    }
  }

  lemma WorldWithout(t: Symtab, u: Symtab, k: Key)
    requires forall l :: u.Real(l) == if l == k then None else t.Real(l)
    ensures World(u).methods == World(t).methods - {k}
  {
    var m := World(t).methods - {k};
    forall l ensures l in World(u).methods <==> l in m {
      assert u.Real(l) == if l == k then None else t.Real(l);
    }
    forall l | l in m ensures World(u).methods[l] == m[l] {
      assert u.Real(l) == t.Real(l);
    }
  }

  // ---------------------------------------------------------------- caches stay right

  /** `u` holds the cached results of `t` (except for `k`) and nothing newer. */
  ghost predicate CachesFrom(t: Symtab, u: Symtab, k: Option<Key>)
    requires Wf(t) && Wf(u)
  {
    forall l :: l in u.glob && u.body[u.glob[l]].cvgen != 0 ==>
      && Some(l) != k && l in t.glob
      && u.body[u.glob[l]].cvgen == t.body[t.glob[l]].cvgen
      && u.body[u.glob[l]].cv == t.body[t.glob[l]].cv
  }

  /** An entry stays right if it is dated, or its answer has not changed. */
  lemma EntryKept(t: Symtab, u: Symtab, k: Key)
    requires Wf(t) && Wf(u) && k in t.glob && k in u.glob && EntryOk(t, k)
    requires u.body[u.glob[k]].cvgen == t.body[t.glob[k]].cvgen && u.body[u.glob[k]].cv == t.body[t.glob[k]].cv
    requires u.mro.TopGen(k.0) >= t.mro.TopGen(k.0)
    requires u.mro.TopGen(k.0) == t.mro.TopGen(k.0) && Searchable(u.mro, k.0) ==>
      Searchable(t.mro, k.0) && Lookup(World(u), k.0, k.1) == Lookup(World(t), k.0, k.1)
    ensures EntryOk(u, k)
  {
  }

  /** A real method, or an empty body, is no cached result. */
  lemma RealIsOk(t: Symtab, k: Key)
    requires Wf(t) && k in t.glob && t.body[t.glob[k]].cvgen == 0
    ensures EntryOk(t, k)
  {
  }

  /** A change of the one real method `k`, dated at least as mro_method_changed_in dates it,
      keeps every cached result right. */
  lemma MethodChangeKeepsCoherent(t: Symtab, u: Symtab, k: Key)
    requires Wf(t) && RevCovers(t.mro) && Coherent(t) && Wf(u) && u.mro.cacheGen.Keys == t.mro.cacheGen.Keys
    requires SameElsewhere(World(t), World(u), k) && CachesFrom(t, u, Some(k))
    requires forall x :: u.mro.TopGen(x) >= MethodChanged(t.mro, k.0).TopGen(x)
    ensures Coherent(u)
  {
    MethodChangeKeepsWf(t.mro, k.0);
    forall l | l in u.glob ensures EntryOk(u, l) {
      if u.body[u.glob[l]].cvgen != 0 {
        assert EntryOk(t, l);
        if Searchable(t.mro, l.0) {
          MethodChangeSpares(t, u, k, l);
        }
        EntryKept(t, u, l);
      } else {
        RealIsOk(u, l);
      }
    }
  }

  lemma MethodChangeSpares(t: Symtab, u: Symtab, k: Key, l: Key)
    requires Wf(t) && RevCovers(t.mro) && SameElsewhere(World(t), World(u), k) && l != k && Searchable(t.mro, l.0)
    ensures MethodChanged(t.mro, k.0).TopGen(l.0) > t.mro.TopGen(l.0)
            || Lookup(World(u), l.0, l.1) == Lookup(World(t), l.0, l.1)
  {
    if l.1 == k.1 && (k.0 in t.mro.linear[l.0] || (UNIVERSAL in t.mro.linear && k.0 in t.mro.linear[UNIVERSAL])) {
      MethodChangeReaches(t.mro, k.0, l.0);
    } else {
      MethodChangeLeaves(World(t), World(u), k, l.0, l.1);
    }
  }

  /** A change that defines nothing and dates nothing keeps every cached result right. */
  lemma SilentChangeKeepsCoherent(t: Symtab, u: Symtab)
    requires Wf(t) && Coherent(t) && Wf(u)
    requires World(u) == World(t) && u.mro == t.mro && CachesFrom(t, u, None)
    ensures Coherent(u)
  {
    forall l | l in u.glob ensures EntryOk(u, l) {
      if u.body[u.glob[l]].cvgen != 0 {
        assert EntryOk(t, l);
        EntryKept(t, u, l);
      } else {
        RealIsOk(u, l);
      }
    }
  }

  // ---------------------------------------------------------------- what each operation means

  /** Storing a result, or discarding a stale one, defines nothing. */
  lemma CacheWriteIsInvisible(t: Symtab, b: BodyId, v: Body)
    requires Wf(t) && b in t.body
    requires t.body[b].cvgen != 0 || t.body[b].cv.None?
    requires v.cvgen != 0 || v.cv.None?
    ensures Wf(WithBody(t, b, v)) && World(WithBody(t, b, v)) == World(t)
  {
    WorldFrame(t, WithBody(t, b, v));
  }

  lemma NewGlobIsInvisible(t: Symtab, k: Key)
    requires Wf(t) && k !in t.glob && k.0 in t.mro.cacheGen && t.next !in t.body
    ensures Wf(NewGlob(t, k)) && World(NewGlob(t, k)) == World(t)
    ensures Coherent(t) ==> Coherent(NewGlob(t, k))
  {
    WorldFrame(t, NewGlob(t, k));
    if Coherent(t) {
      SilentChangeKeepsCoherent(t, NewGlob(t, k));
    }
  }

  /** gp_free of an entry takes its method, if any, out of the program. */
  lemma FreeMeaning(t: Symtab, k: Key)
    requires Wf(t) && Counted(t) && k in t.glob
    ensures Wf(GpFree(t, k)) && World(GpFree(t, k)).methods == World(t).methods - {k}
    ensures CachesFrom(t, GpFree(t, k), Some(k))
  {
    UsersFree(t, k);
    forall l | l in t.glob && l != k
      ensures t.glob[l] in GpFree(t, k).body
      ensures GpFree(t, k).body[t.glob[l]].cv == t.body[t.glob[l]].cv
      ensures GpFree(t, k).body[t.glob[l]].cvgen == t.body[t.glob[l]].cvgen
    {
      assert l in Users(t, t.glob[l]);
    }
    WorldWithout(t, GpFree(t, k), k);
  }

  lemma DatesKeep(t: Symtab, d: Dates)
    requires Wf(t) && WfDates(d) && d.cacheGen.Keys == t.mro.cacheGen.Keys
    ensures Wf(t.(mro := d)) && World(t.(mro := d)).methods == World(t).methods
    ensures Counted(t) ==> Counted(t.(mro := d))
  {
    WorldFrame(t, t.(mro := d));
    assert forall b :: Users(t.(mro := d), b) == Users(t, b);
  }

  /** The entry leaves its body after a dating at least that of mro_method_changed_in. */
  lemma FreedDated(t: Symtab, k: Key, d: Dates)
    requires Wf(t) && RevCovers(t.mro) && Counted(t) && k in t.glob
    requires WfDates(d) && d.linear == t.mro.linear && d.cacheGen.Keys == t.mro.cacheGen.Keys
    requires forall x :: d.TopGen(x) >= MethodChanged(t.mro, k.0).TopGen(x)
    ensures var u := GpFree(t.(mro := d), k);
            && Wf(u) && World(u) == World(t).(methods := World(t).methods - {k})
            && (Coherent(t) ==> Coherent(u))
  {
    FreedWorld(t, k, d);
    if Coherent(t) {
      MethodChangeKeepsCoherent(t, GpFree(t.(mro := d), k), k);
    }
  }

  lemma FreedWorld(t: Symtab, k: Key, d: Dates)
    requires Wf(t) && Counted(t) && k in t.glob
    requires WfDates(d) && d.linear == t.mro.linear && d.cacheGen.Keys == t.mro.cacheGen.Keys
    ensures var u := GpFree(t.(mro := d), k);
            && Wf(u) && World(u) == World(t).(methods := World(t).methods - {k})
            && SameElsewhere(World(t), World(u), k) && CachesFrom(t, u, Some(k)) && u.mro == d
  {
    DatesKeep(t, d);
    FreeMeaning(t.(mro := d), k);
  }

  /** Without a method to take away nothing needs dating. */
  lemma FreedUnreal(t: Symtab, k: Key)
    requires Wf(t) && Counted(t) && k in t.glob && t.Real(k).None?
    ensures var u := GpFree(t, k);
            && Wf(u) && World(u) == World(t).(methods := World(t).methods - {k})
            && (Coherent(t) ==> Coherent(u))
  {
    FreeMeaning(t, k);
    assert k !in World(t).methods;
    assert World(t).methods - {k} == World(t).methods;
    if Coherent(t) {
      SilentChangeKeepsCoherent(t, GpFree(t, k));
    }
  }

  /** Deleting an entry, also one on a shared body, removes exactly its method, and no cached result
      goes wrong. */
  lemma DeletedMeaning(t: Symtab, k: Key)
    requires Wf(t) && RevCovers(t.mro) && Counted(t) && k in t.glob
    ensures var u := Deleted(t, k);
            && Wf(u) && World(u) == World(t).(methods := World(t).methods - {k})
            && (Coherent(t) ==> Coherent(u))
  {
    if t.Real(k).Some? {
      MethodChangeKeepsWf(t.mro, k.0);
      MethodChangeKeepsWf(MethodChanged(t.mro, k.0), k.0);
      FreedDated(t, k, MethodChanged(MethodChanged(t.mro, k.0), k.0));
    } else {
      FreedUnreal(t, k);
    }
  }

  /** So does undef. */
  lemma UndefinedMeaning(t: Symtab, k: Key)
    requires Wf(t) && RevCovers(t.mro) && BodiesOk(t) && k in t.glob
    ensures var u := Undefined(t, k);
            && Wf(u) && World(u) == World(t).(methods := World(t).methods - {k})
            && (Coherent(t) ==> Coherent(u))
  {
    var d := if t.Real(k).Some? then MethodChanged(t.mro, k.0) else t.mro;
    if t.Real(k).Some? {
      MethodChangeKeepsWf(t.mro, k.0);
      FreedDated(t, k, d);
    } else {
      FreedUnreal(t, k);
    }
    NewGlobIsInvisible(GpFree(t.(mro := d), k), k);
  }

  lemma NewStashMeaning(t: Symtab, s: Stash)
    requires Wf(t) && s !in t.mro.cacheGen
    ensures Wf(NewStash(t, s)) && (RevCovers(t.mro) ==> RevCovers(NewStash(t, s).mro))
    ensures World(NewStash(t, s)) == World(t).(linear := t.mro.linear[s := [s]])
    ensures Coherent(t) ==> Coherent(NewStash(t, s))
  {
    var u := NewStash(t, s);
    assert forall c :: u.mro.Rev(c) == t.mro.Rev(c);
    WorldFrame(t, u);
    if Coherent(t) {
      forall l | l in u.glob ensures EntryOk(u, l) {
        assert EntryOk(t, l);
        NewStashSpares(t, s, l);
        EntryKept(t, u, l);
      }
    }
  }

  lemma NewStashSpares(t: Symtab, s: Stash, l: Key)
    requires Wf(t) && s !in t.mro.cacheGen && l in t.glob
    requires World(NewStash(t, s)) == World(t).(linear := t.mro.linear[s := [s]])
    ensures Searchable(NewStash(t, s).mro, l.0) ==>
              && Searchable(t.mro, l.0)
              && Lookup(World(NewStash(t, s)), l.0, l.1) == Lookup(World(t), l.0, l.1)
  {
    if Searchable(NewStash(t, s).mro, l.0) {
      NewStashLookup(World(t), s, l.0, l.1);
    }
  }

  /** A change of @ISA changes exactly the linearizations, and no cached result goes wrong. */
  lemma RelinearizeMeaning(t: Symtab, s: Stash, lin: Lines, line: seq<Stash>)
    requires Wf(t) && Heard(t.mro, s, lin, line)
    ensures Wf(Relinearize(t, s, lin, line)) && RevCovers(Relinearize(t, s, lin, line).mro)
    ensures World(Relinearize(t, s, lin, line)) == World(t).(linear := lin)
    ensures Coherent(t) ==> Coherent(Relinearize(t, s, lin, line))
  {
    var u := Relinearize(t, s, lin, line);
    IsaChangeKeepsWf(t.mro, s, lin, line);
    IsaChangeKeepsRevCovers(t.mro, s, lin, line);
    WorldFrame(t, u);
    if Coherent(t) {
      forall l | l in u.glob ensures EntryOk(u, l) {
        assert EntryOk(t, l);
        if Searchable(u.mro, l.0) && u.mro.TopGen(l.0) <= t.mro.TopGen(l.0) {
          IsaChangeReaches(t.mro, s, lin, line, l.0);
          SameLinesLookup(World(t), World(u), l.0, l.1);
        }
        EntryKept(t, u, l);
      }
    }
  }

  /** One that dies takes linearizations away, and no cached result goes wrong. */
  lemma DiedMeaning(t: Symtab, s: Stash, lin: Lines)
    requires Wf(t) && Fewer(t.mro.linear, lin)
    ensures Wf(Died(t, s, lin)) && (RevCovers(t.mro) ==> RevCovers(Died(t, s, lin).mro))
    ensures World(Died(t, s, lin)) == World(t).(linear := lin)
    ensures Coherent(t) ==> Coherent(Died(t, s, lin))
  {
    var u := Died(t, s, lin);
    IsaDiedKeepsWf(t.mro, s, lin);
    WorldFrame(t, u);
    if Coherent(t) {
      forall l | l in u.glob ensures EntryOk(u, l) {
        assert EntryOk(t, l);
        if Searchable(u.mro, l.0) && Searchable(t.mro, l.0) {
          SameLinesLookup(World(t), World(u), l.0, l.1);
        }
        EntryKept(t, u, l);
      }
    }
  }

  // ---------------------------------------------------------------- what each operation dates

  /** Defining a sub dates those who hear of it once, `undef` of an entry with a method does too,
      deleting such an entry does it twice, once for the hash and once for the dying glob; without a
      method they date nothing, and assigning never does. */
  lemma OperationDates(t: Symtab, k: Key, cv: Cv, src: Key, x: Stash)
    requires Wf(t) && BodiesOk(t) && k in t.glob && src in t.glob && src != k
    ensures var gen, one := t.mro.TopGen(x), if Hears(t.mro, k.0, x) then 1 else 0;
            && Define(t, k, cv).mro.TopGen(x) == gen + one
            && Undefined(t, k).mro.TopGen(x) == gen + (if t.Real(k).Some? then one else 0)
            && Deleted(t, k).mro.TopGen(x) == gen + (if t.Real(k).Some? then 2 * one else 0)
            && t.glob[src] in GpFree(t, k).body && Aliased(t, k, src).mro == t.mro
  {
    MethodChangeDates(t.mro, k.0, x);
    MethodChangeDates(MethodChanged(t.mro, k.0), k.0, x);
    SharedBodySurvives(t, k, src);
  }

  /** A new entry dates nothing; a new stash starts one above PL_sub_generation. */
  lemma NewDates(t: Symtab, k: Key, s: Stash, x: Stash)
    requires s !in t.mro.cacheGen
    ensures Fetched(t, k).mro == t.mro
    ensures NewStash(t, s).mro.TopGen(x) == if x == s then t.mro.subGen + 1 else t.mro.TopGen(x)
  {
  }

  // ---------------------------------------------------------------- shared bodies

  lemma NewGlobKeepsBodies(t: Symtab, k: Key)
    requires BodiesOk(t) && k !in t.glob
    ensures BodiesOk(NewGlob(t, k))
    ensures NoSharedCache(t) ==> NoSharedCache(NewGlob(t, k))
  {
    var u := NewGlob(t, k);
    assert t.next !in t.released && t.next !in t.body;
    assert Users(u, t.next) == {k};
    assert forall b :: b in t.body ==> Users(u, b) == Users(t, b);
  }

  lemma WithBodyKeepsBodies(t: Symtab, b: BodyId, v: Body)
    requires BodiesOk(t) && b in t.body && v.refcnt == t.body[b].refcnt
    ensures BodiesOk(WithBody(t, b, v))
    ensures NoSharedCache(t) && (v.refcnt == 1 || v.cv.None? || v.cvgen == 0) ==> NoSharedCache(WithBody(t, b, v))
  {
    assert forall c :: Users(WithBody(t, b, v), c) == Users(t, c);
  }

  lemma UsersFree(t: Symtab, k: Key)
    requires Counted(t) && k in t.glob
    ensures Users(GpFree(t, k), t.glob[k]) == Users(t, t.glob[k]) - {k}
    ensures forall c :: c != t.glob[k] ==> Users(GpFree(t, k), c) == Users(t, c)
    ensures t.body[t.glob[k]].refcnt == 1 <==> Users(t, t.glob[k]) == {k}
  {
    var b := t.glob[k];
    assert k in Users(t, b);
    if t.body[b].refcnt == 1 {
      assert |Users(t, b) - {k}| == 0;
    }
  }

  lemma ReleaseKeepsLifetimes(body: map<BodyId, Body>, next: BodyId, released: seq<BodyId>, b: BodyId)
    requires Lifetimes(body, next, released) && b in body
    ensures Lifetimes(body - {b}, next, released + [b])
  {
  }

  lemma GpFreeKeepsCounted(t: Symtab, k: Key)
    requires Counted(t) && k in t.glob
    ensures Counted(GpFree(t, k))
  {
    UsersFree(t, k);
    var u, b := GpFree(t, k), t.glob[k];
    forall c | c in u.body ensures u.body[c].refcnt == |Users(u, c)| && u.body[c].refcnt > 0 {
      assert c != b ==> Users(u, c) == Users(t, c);
    }
    forall l | l in u.glob ensures u.glob[l] in u.body {
      assert l in Users(t, t.glob[l]);
    }
  }

  /** gp_free: the count follows the entries, and the contents go with the last of them. */
  lemma GpFreeKeepsBodies(t: Symtab, k: Key)
    requires BodiesOk(t) && k in t.glob
    ensures BodiesOk(GpFree(t, k))
    ensures NoSharedCache(t) ==> NoSharedCache(GpFree(t, k))
    ensures t.glob[k] in GpFree(t, k).released <==> Users(t, t.glob[k]) == {k}
  {
    GpFreeKeepsCounted(t, k);
    UsersFree(t, k);
    if t.body[t.glob[k]].refcnt == 1 {
      ReleaseKeepsLifetimes(t.body, t.next, t.released, t.glob[k]);
    }
  }

  /** gp_ref: the count follows the new entry, and a cached method is not passed on. */
  lemma GpRefKeepsBodies(t: Symtab, k: Key, b: BodyId)
    requires BodiesOk(t) && b in t.body && k !in t.glob
    ensures BodiesOk(GpRef(t, k, b))
    ensures NoSharedCache(t) ==> NoSharedCache(GpRef(t, k, b))
  {
    var u := GpRef(t, k, b);
    assert forall c :: c != b ==> Users(u, c) == Users(t, c);
    assert Users(u, b) == Users(t, b) + {k};
  }

  lemma SharedBodySurvives(t: Symtab, dst: Key, src: Key)
    requires BodiesOk(t) && dst in t.glob && src in t.glob && dst != src
    ensures t.glob[src] in GpFree(t, dst).body
  {
    GpFreeKeepsCounted(t, dst);
    assert GpFree(t, dst).glob[src] == t.glob[src];
  }

  /** Sharing entries keeps the counts exact and cached methods off shared bodies. */
  lemma AliasedKeepsBodies(t: Symtab, dst: Key, src: Key)
    requires BodiesOk(t) && dst in t.glob && src in t.glob && dst != src
    ensures t.glob[src] in GpFree(t, dst).body
    ensures BodiesOk(Aliased(t, dst, src))
    ensures NoSharedCache(t) ==> NoSharedCache(Aliased(t, dst, src))
  {
    SharedBodySurvives(t, dst, src);
    GpFreeKeepsBodies(t, dst);
    GpRefKeepsBodies(GpFree(t, dst), dst, t.glob[src]);
  }
}
