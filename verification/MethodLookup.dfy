/**
 gv_fetchmeth as a step on symbol tables, and the proof that it answers as the cache-free search
 does and keeps every cached result right.
 */
module MethodLookup {
  import opened Basics
  import opened Mro
  import opened SymbolTable

  ghost predicate Good(t: Symtab) {
    Wf(t) && BodiesOk(t) && NoSharedCache(t)
  }

  datatype Found = Found(tab: Symtab, cv: Option<Cv>)

  /** Only the remembered linearizations may differ. */
  predicate SameDates(t: Symtab, u: Symtab) {
    u.mro == t.mro.(linCache := u.mro.linCache)
  }

  /** The class's own entry, if it settles the lookup: a real method, or a result with the
      current date. */
  function Settled(t: Symtab, s: Stash, n: Name): bool {
    && (s, n) in t.glob && t.glob[(s, n)] in t.body
    && var b := t.body[t.glob[(s, n)]];
       (b.cv.Some? && b.cvgen == 0) || b.cvgen == t.mro.TopGen(s)
  }

  /** A stale cached method is discarded. */
  function Cleaned(t: Symtab, k: Key): (u: Symtab)
    ensures u.glob == t.glob && SameDates(t, u) && u.body.Keys == t.body.Keys
    ensures u.released == t.released && u.next == t.next
  {
    if k in t.glob && t.glob[k] in t.body && t.body[t.glob[k]].cv.Some?
    then WithBody(t, t.glob[k], t.body[t.glob[k]].(cv := None, cvgen := 0))
    else t
  }

  /** Remember a method found above the class, unless the entry is shared or the method a stub. */
  function Stored(t: Symtab, k: Key, cv: Cv): (u: Symtab)
    ensures u.glob == t.glob && SameDates(t, u) && u.body.Keys == t.body.Keys
    ensures u.released == t.released && u.next == t.next
  {
    if k in t.glob && t.glob[k] in t.body && t.body[t.glob[k]].refcnt == 1 && cv.hasBody
    then WithBody(t, t.glob[k], t.body[t.glob[k]].(cv := Some(cv), cvgen := t.mro.TopGen(k.0)))
    else t
  }

  /** Remember that there is no such method. */
  function Failed(t: Symtab, k: Key): (u: Symtab)
    ensures u.glob == t.glob && SameDates(t, u) && u.body.Keys == t.body.Keys
    ensures u.released == t.released && u.next == t.next
  {
    if k in t.glob && t.glob[k] in t.body && t.body[t.glob[k]].refcnt == 1
    then WithBody(t, t.glob[k], t.body[t.glob[k]].(cvgen := t.mro.TopGen(k.0)))
    else t
  }

  /** mro_get_linear_isa remembers the linearization. */
  function Lined(t: Symtab, s: Stash): (u: Symtab)
    ensures u.glob == t.glob && SameDates(t, u) && u.body.Keys == t.body.Keys
    ensures u.released == t.released && u.next == t.next
  {
    if s in t.mro.linear then t.(mro := t.mro.(linCache := t.mro.linCache[s := t.mro.linear[s]])) else t
  }

  /** gv_fetchmeth past the class's own entry.  With `more` the search goes on to UNIVERSAL. */
  function FetchAbove(t: Symtab, s: Stash, n: Name, more: bool): (f: Found)
    ensures f.tab.glob == t.glob && SameDates(t, f.tab) && f.tab.body.Keys == t.body.Keys
    ensures f.tab.released == t.released && f.tab.next == t.next
    decreases more, 0
  {
    var u := Lined(Cleaned(t, (s, n)), s);
    var line := if s in t.mro.linear then t.mro.linear[s] else [];
    var r := FirstIn(World(u), line, n);
    if r.Some? then Found(Stored(u, (s, n), r.value), r)
    else if !more then Found(Failed(u, (s, n)), None)
    else
      var f := if UNIVERSAL in u.mro.cacheGen then Fetch(u, UNIVERSAL, n, false) else Found(u, None);
      Found(if f.cv.Some? then Stored(f.tab, (s, n), f.cv.value) else Failed(f.tab, (s, n)), f.cv)
  }

  function Fetch(t: Symtab, s: Stash, n: Name, more: bool): (f: Found)
    ensures f.tab.glob == t.glob && SameDates(t, f.tab) && f.tab.body.Keys == t.body.Keys
    ensures f.tab.released == t.released && f.tab.next == t.next
    decreases more, 1
  {
    if Settled(t, s, n) then Found(t, t.body[t.glob[(s, n)]].cv) else FetchAbove(t, s, n, more)
  }

  // ---------------------------------------------------------------- each step is invisible

  lemma OwnIsReal(t: Symtab, k: Key)
    ensures Own(World(t), k.0, k.1) == t.Real(k)
  {
    assert (k.0, k.1) == k;
  }

  lemma CleanedMeaning(t: Symtab, k: Key)
    requires Good(t) && t.Real(k).None?
    ensures Good(Cleaned(t, k)) && World(Cleaned(t, k)) == World(t)
    ensures Coherent(t) ==> Coherent(Cleaned(t, k))
    ensures k in t.glob ==> Cleaned(t, k).body[t.glob[k]].cv.None?
  {
    var u := Cleaned(t, k);
    if u != t {
      CacheWriteIsInvisible(t, t.glob[k], u.body[t.glob[k]]);
      WithBodyKeepsBodies(t, t.glob[k], u.body[t.glob[k]]);
      if Coherent(t) {
        SilentChangeKeepsCoherent(t, u);
      }
    }
  }

  lemma LinedKeepsGood(t: Symtab, s: Stash)
    requires Good(t)
    ensures Good(Lined(t, s))
  {
    var u := Lined(t, s);
    assert forall c :: u.mro.Rev(c) == t.mro.Rev(c);
    assert forall b :: Users(u, b) == Users(t, b);
  }

  lemma LinedMeaning(t: Symtab, s: Stash)
    requires Good(t)
    ensures Good(Lined(t, s)) && World(Lined(t, s)) == World(t)
    ensures Coherent(t) ==> Coherent(Lined(t, s))
  {
    var u := Lined(t, s);
    LinedKeepsGood(t, s);
    WorldFrame(t, u);
    if Coherent(t) {
      forall l | l in u.glob ensures EntryOk(u, l) {
        assert EntryOk(t, l);
      }
    }
  }

  /** Any dated write to an entry of its own that holds no real method. */
  lemma DatedWrite(t: Symtab, k: Key, v: Body)
    requires Good(t) && k in t.glob && t.Real(k).None?
    requires t.body[t.glob[k]].refcnt == 1 && v.refcnt == 1 && v.cvgen == t.mro.TopGen(k.0)
    ensures Good(WithBody(t, t.glob[k], v)) && World(WithBody(t, t.glob[k], v)) == World(t)
  {
    CacheWriteIsInvisible(t, t.glob[k], v);
    WithBodyKeepsBodies(t, t.glob[k], v);
  }

  lemma RightWrite(t: Symtab, k: Key, v: Body)
    requires Good(t) && Coherent(t) && k in t.glob && t.Real(k).None?
    requires t.body[t.glob[k]].refcnt == 1 && v.refcnt == 1 && v.cvgen == t.mro.TopGen(k.0)
    requires k.0 in t.mro.linear && v.cv == Lookup(World(t), k.0, k.1)
    ensures Wf(WithBody(t, t.glob[k], v)) && Coherent(WithBody(t, t.glob[k], v))
  {
    var u := WithBody(t, t.glob[k], v);
    DatedWrite(t, k, v);
    UsersFree(t, k);
    forall l | l in t.glob ensures EntryOk(u, l) {
      assert EntryOk(t, l);
      assert l != k ==> l !in Users(t, t.glob[k]);
    }
  }

  lemma StoredMeaning(t: Symtab, k: Key, cv: Cv)
    requires Good(t) && t.Real(k).None? && k.0 in t.mro.linear
    ensures Good(Stored(t, k, cv)) && World(Stored(t, k, cv)) == World(t)
    ensures Coherent(t) && Lookup(World(t), k.0, k.1) == Some(cv) ==> Coherent(Stored(t, k, cv))
  {
    var u := Stored(t, k, cv);
    if u != t {
      DatedWrite(t, k, u.body[t.glob[k]]);
      if Coherent(t) && Lookup(World(t), k.0, k.1) == Some(cv) {
        RightWrite(t, k, u.body[t.glob[k]]);
      }
    }
  }

  lemma FailedMeaning(t: Symtab, k: Key)
    requires Good(t) && t.Real(k).None? && k.0 in t.mro.linear
    requires k in t.glob ==> t.body[t.glob[k]].cv.None?
    ensures Good(Failed(t, k)) && World(Failed(t, k)) == World(t)
    ensures Coherent(t) && Lookup(World(t), k.0, k.1).None? ==> Coherent(Failed(t, k))
  {
    var u := Failed(t, k);
    if u != t {
      DatedWrite(t, k, u.body[t.glob[k]]);
      if Coherent(t) && Lookup(World(t), k.0, k.1).None? {
        RightWrite(t, k, u.body[t.glob[k]]);
      }
    }
  }

  // ---------------------------------------------------------------- the lookup

  /** The step down to the search: everything cleaned, the program unchanged. */
  lemma PreparedMeaning(t: Symtab, s: Stash, n: Name)
    requires Good(t) && t.Real((s, n)).None?
    ensures var u := Lined(Cleaned(t, (s, n)), s);
            Good(u) && World(u) == World(t) && (Coherent(t) ==> Coherent(u)) && u.glob == t.glob
            && u.Real((s, n)).None?
            && ((s, n) in t.glob ==> u.body[t.glob[(s, n)]].cv.None?)
  {
    CleanedMeaning(t, (s, n));
    LinedMeaning(Cleaned(t, (s, n)), s);
  }

  lemma UnsettledIsUnreal(t: Symtab, s: Stash, n: Name)
    requires !Settled(t, s, n)
    ensures t.Real((s, n)).None?
  {
  }

  lemma SettledIsRight(t: Symtab, s: Stash, n: Name)
    requires Good(t) && Searchable(t.mro, s) && Settled(t, s, n) && Coherent(t)
    ensures t.body[t.glob[(s, n)]].cv == Lookup(World(t), s, n)
  {
    assert EntryOk(t, (s, n));
    OwnIsReal(t, (s, n));
  }

  /** An unsuccessful lookup in UNIVERSAL alone adds no cached method. */
  lemma FailureAddsNothing(t: Symtab, n: Name, k: Key)
    requires Good(t) && UNIVERSAL in t.mro.linear && k in t.glob && t.body[t.glob[k]].cv.None?
    requires Fetch(t, UNIVERSAL, n, false).cv.None?
    ensures Fetch(t, UNIVERSAL, n, false).tab.body[t.glob[k]].cv.None?
  {
  }

  /** UNIVERSAL on its own: the search above it, with nothing further to consult. */
  lemma FetchUniversal(t: Symtab, n: Name)
    requires Good(t) && UNIVERSAL in t.mro.linear
    ensures var f := Fetch(t, UNIVERSAL, n, false);
            && Good(f.tab) && World(f.tab) == World(t)
            && (Coherent(t) ==> Coherent(f.tab) && f.cv == Lookup(World(t), UNIVERSAL, n))
  {
    var k := (UNIVERSAL, n);
    if Settled(t, UNIVERSAL, n) {
      if Coherent(t) {
        SettledIsRight(t, UNIVERSAL, n);
      }
    } else {
      UnsettledIsUnreal(t, UNIVERSAL, n);
      PreparedMeaning(t, UNIVERSAL, n);
      var u := Lined(Cleaned(t, k), UNIVERSAL);
      var r := FirstIn(World(u), t.mro.linear[UNIVERSAL], n);
      if r.Some? {
        StoredMeaning(u, k, r.value);
      } else {
        FailedMeaning(u, k);
      }
    }
  }

  /** The part of a lookup that consults UNIVERSAL, from a prepared table. */
  lemma AskUniversal(u: Symtab, s: Stash, n: Name)
    requires Good(u) && Searchable(u.mro, s) && u.Real((s, n)).None? && FirstIn(World(u), u.mro.linear[s], n).None?
    requires (s, n) in u.glob ==> u.body[u.glob[(s, n)]].cv.None?
    ensures var f := if UNIVERSAL in u.mro.cacheGen then Fetch(u, UNIVERSAL, n, false) else Found(u, None);
            var v := if f.cv.Some? then Stored(f.tab, (s, n), f.cv.value) else Failed(f.tab, (s, n));
            && Good(v) && World(v) == World(u)
            && (Coherent(u) ==> Coherent(v) && f.cv == Lookup(World(u), s, n))
  {
    var k := (s, n);
    var f := if UNIVERSAL in u.mro.cacheGen then Fetch(u, UNIVERSAL, n, false) else Found(u, None);
    if UNIVERSAL in u.mro.cacheGen {
      FetchUniversal(u, n);
      if k in u.glob && f.cv.None? {
        FailureAddsNothing(u, n, k);
      }
    }
    OwnIsReal(u, k);
    OwnIsReal(f.tab, k);
    if f.cv.Some? {
      StoredMeaning(f.tab, k, f.cv.value);
    } else {
      FailedMeaning(f.tab, k);
    }
  }

  /** gv_fetchmeth at level 0 or -1 (`more`), or in UNIVERSAL itself, answers as the cache-free
      search does; it defines nothing, and leaves every cached result right. */
  lemma FetchRight(t: Symtab, s: Stash, n: Name, more: bool)
    requires Good(t) && Searchable(t.mro, s)
    ensures var f := Fetch(t, s, n, more);
            && Good(f.tab) && World(f.tab) == World(t)
            && (Coherent(t) && (more || s == UNIVERSAL) ==> Coherent(f.tab) && f.cv == Lookup(World(t), s, n))
  {
    if Settled(t, s, n) {
      if Coherent(t) {
        SettledIsRight(t, s, n);
      }
    } else {
      SearchRight(t, s, n, more);
    }
  }

  /** Past the class's own entry: one lemma for each way the search can go on. */
  lemma SearchRight(t: Symtab, s: Stash, n: Name, more: bool)
    requires Good(t) && Searchable(t.mro, s) && !Settled(t, s, n)
    ensures Right(t, s, n, more, Fetch(t, s, n, more))
  {
    UnsettledIsUnreal(t, s, n);
    PreparedMeaning(t, s, n);
    var u := Lined(Cleaned(t, (s, n)), s);
    var r := FirstIn(World(u), t.mro.linear[s], n);
    if r.Some? {
      SearchFinds(t, u, s, n, more);
    } else if more {
      AskUniversal(u, s, n);
    } else {
      SearchFails(t, u, s, n);
    }
  }

  ghost predicate Right(t: Symtab, s: Stash, n: Name, more: bool, f: Found)
    requires Wf(t) && s in t.mro.linear
  {
    && Good(f.tab) && World(f.tab) == World(t)
    && (Coherent(t) && (more || s == UNIVERSAL) ==> Coherent(f.tab) && f.cv == Lookup(World(t), s, n))
  }

  lemma SearchFinds(t: Symtab, u: Symtab, s: Stash, n: Name, more: bool)
    requires Good(t) && Searchable(t.mro, s) && Good(u) && World(u) == World(t) && SameDates(t, u)
    requires u.Real((s, n)).None? && (Coherent(t) ==> Coherent(u))
    requires FirstIn(World(u), t.mro.linear[s], n).Some?
    ensures var r := FirstIn(World(u), t.mro.linear[s], n);
            Right(t, s, n, more, Found(Stored(u, (s, n), r.value), r))
  {
    StoredMeaning(u, (s, n), FirstIn(World(u), t.mro.linear[s], n).value);
  }

  lemma SearchFails(t: Symtab, u: Symtab, s: Stash, n: Name)
    requires Good(t) && Searchable(t.mro, s) && Good(u) && World(u) == World(t) && SameDates(t, u)
    requires u.Real((s, n)).None? && (Coherent(t) ==> Coherent(u))
    requires (s, n) in u.glob ==> u.body[u.glob[(s, n)]].cv.None?
    requires FirstIn(World(u), t.mro.linear[s], n).None?
    ensures Right(t, s, n, false, Found(Failed(u, (s, n)), None))
  {
    FailedMeaning(u, (s, n));
  }

  /** A lookup that had an entry of its own to use, and found no stub, settles the next one. */
  lemma FetchRemembers(t: Symtab, s: Stash, n: Name, more: bool)
    requires Good(t) && Searchable(t.mro, s) && (s, n) in t.glob
    requires var f := Fetch(t, s, n, more);
             f.tab.body[t.glob[(s, n)]].refcnt == 1 && (f.cv.Some? ==> f.cv.value.hasBody)
    ensures Settled(Fetch(t, s, n, more).tab, s, n)
  {
  }

  /** All of gv_fetchmeth: the null stash stands for UNIVERSAL, a level of 0 or more creates an
      entry to cache in, and levels 0 and -1 go on to UNIVERSAL. */
  function FetchMeth(t: Symtab, stash: Option<Stash>, n: Name, level: int): Found {
    if stash.None? && UNIVERSAL !in t.mro.cacheGen then Found(t, None)
    else
      var s := if stash.Some? then stash.value else UNIVERSAL;
      Fetch(if stash.Some? && level >= 0 then Fetched(t, (s, n)) else t, s, n, level == 0 || level == -1)
  }

  /** What gv_fetchmeth should find. */
  function Answer(p: Program, stash: Option<Stash>, n: Name): Option<Cv>
    requires stash.Some? ==> stash.value in p.linear
  {
    if stash.None? then InUniversal(p, n) else Lookup(p, stash.value, n)
  }

  /** The classes that a lookup searches have linearizations to rely on. */
  predicate CanLookUp(d: Dates, stash: Option<Stash>) {
    if stash.Some? then Searchable(d, stash.value) else UNIVERSAL in d.cacheGen ==> UNIVERSAL in d.linear
  }

  lemma FetchMethRight(t: Symtab, stash: Option<Stash>, n: Name, level: int)
    requires Good(t) && CanLookUp(t.mro, stash)
    ensures var f := FetchMeth(t, stash, n, level);
            && Good(f.tab) && World(f.tab) == World(t)
            && (Coherent(t) && (stash.None? || stash.value == UNIVERSAL || level == 0 || level == -1) ==>
                Coherent(f.tab) && f.cv == Answer(World(t), stash, n))
  {
    if stash.Some? {
      PreparedIsSame(t, stash.value, n, level);
      FetchRight(Prepared(t, stash.value, n, level), stash.value, n, level == 0 || level == -1);
      FetchMethPrepares(t, stash.value, n, level);
    } else if UNIVERSAL in t.mro.cacheGen {
      FetchRight(t, UNIVERSAL, n, level == 0 || level == -1);
    }
  }

  /** The table a lookup starts from: at level 0 or more there is an entry to cache in. */
  function Prepared(t: Symtab, s: Stash, n: Name, level: int): Symtab {
    if level >= 0 then Fetched(t, (s, n)) else t
  }

  lemma PreparedIsSame(t: Symtab, s: Stash, n: Name, level: int)
    requires Good(t) && s in t.mro.cacheGen
    ensures var u := Prepared(t, s, n, level);
            && Good(u) && World(u) == World(t) && u.mro == t.mro && (Coherent(t) ==> Coherent(u))
  {
    if Prepared(t, s, n, level) != t {
      NewGlobIsInvisible(t, (s, n));
      NewGlobKeepsBodies(t, (s, n));
    }
  }

  /** Without going on to UNIVERSAL: the answer is right exactly if the entry settles it, a method is
      found in the class's own line, or UNIVERSAL has none; and the caches stay right exactly in
      those cases or if there is no entry, or a shared one, to remember the failure in. */
  lemma FetchWithoutUniversal(t: Symtab, s: Stash, n: Name)
    requires Good(t) && Coherent(t) && Searchable(t.mro, s)
    ensures var f := Fetch(t, s, n, false);
            var right := Settled(t, s, n) || FirstIn(World(t), t.mro.linear[s], n).Some? ||
                         InUniversal(World(t), n).None?;
            && Good(f.tab) && World(f.tab) == World(t)
            && (f.cv == Lookup(World(t), s, n) <==> right)
            && (Coherent(f.tab) <==> right || (s, n) !in t.glob || t.body[t.glob[(s, n)]].refcnt != 1)
  {
    FetchRight(t, s, n, false);
    if Settled(t, s, n) {
      SettledIsRight(t, s, n);
    } else {
      UnsettledWithoutUniversal(t, s, n);
    }
  }

  lemma UnsettledWithoutUniversal(t: Symtab, s: Stash, n: Name)
    requires Good(t) && Coherent(t) && Searchable(t.mro, s) && !Settled(t, s, n)
    ensures var f, r := Fetch(t, s, n, false), FirstIn(World(t), t.mro.linear[s], n);
            && Good(f.tab) && f.cv == r
            && (Coherent(f.tab) <==> r.Some? || InUniversal(World(t), n).None? ||
                                     (s, n) !in t.glob || t.body[t.glob[(s, n)]].refcnt != 1)
  {
    var k := (s, n);
    UnsettledIsUnreal(t, s, n);
    PreparedMeaning(t, s, n);
    var u := Lined(Cleaned(t, k), s);
    var r := FirstIn(World(u), t.mro.linear[s], n);
    if r.Some? {
      StoredMeaning(u, k, r.value);
    } else {
      FailedMeaning(u, k);
      if k in t.glob && t.body[t.glob[k]].refcnt == 1 && InUniversal(World(t), n).Some? {
        assert !EntryOk(Failed(u, k), k);
      }
    }
  }

  /** At a level other than 0 and -1: exactly when the answer is the
      cache-free one, and exactly when every cached result is still right afterwards. */
  lemma OtherLevels(t: Symtab, s: Stash, n: Name, level: int)
    requires Good(t) && Coherent(t) && Searchable(t.mro, s) && level != 0 && level != -1
    ensures var f, t1 := FetchMeth(t, Some(s), n, level), Prepared(t, s, n, level);
            var right := Settled(t1, s, n) || FirstIn(World(t), t.mro.linear[s], n).Some? ||
                         InUniversal(World(t), n).None?;
            && Good(f.tab) && World(f.tab) == World(t) && Good(t1)
            && (f.cv == Lookup(World(t), s, n) <==> right)
            && (Coherent(f.tab) <==> right || (s, n) !in t1.glob || t1.body[t1.glob[(s, n)]].refcnt != 1)
  {
    PreparedIsSame(t, s, n, level);
    FetchWithoutUniversal(Prepared(t, s, n, level), s, n);
    FetchMethPrepares(t, s, n, level);
  }

  lemma FetchMethPrepares(t: Symtab, s: Stash, n: Name, level: int)
    ensures FetchMeth(t, Some(s), n, level) == Fetch(Prepared(t, s, n, level), s, n, level == 0 || level == -1)
  {
  }

  // ---------------------------------------------------------------- what a lookup leaves behind

  /** The entry holds no believable result of its own. */
  predicate Idle(t: Symtab, k: Key) {
    k in t.glob && t.glob[k] in t.body ==> t.body[t.glob[k]].cv.None? && t.body[t.glob[k]].cvgen != t.mro.TopGen(k.0)
  }

  lemma CleanedIsIdle(t: Symtab, s: Stash, n: Name)
    requires WfDates(t.mro) && !Settled(t, s, n)
    ensures Idle(Lined(Cleaned(t, (s, n)), s), (s, n))
  {
  }

  /** A search in UNIVERSAL that comes upon a stub writes nothing but discarded results. */
  lemma UniversalStub(u: Symtab, n: Name, k: Key)
    requires Idle(u, k) && Fetch(u, UNIVERSAL, n, false).cv.Some? && !Fetch(u, UNIVERSAL, n, false).cv.value.hasBody
    ensures Idle(Fetch(u, UNIVERSAL, n, false).tab, k)
  {
  }

  /** A stub is never remembered: the next lookup searches again. */
  lemma StubIsForgotten(t: Symtab, s: Stash, n: Name, more: bool)
    requires Good(t) && Searchable(t.mro, s) && !Settled(t, s, n)
    requires var f := Fetch(t, s, n, more); f.cv.Some? && !f.cv.value.hasBody
    ensures !Settled(Fetch(t, s, n, more).tab, s, n)
  {
    var u := Lined(Cleaned(t, (s, n)), s);
    CleanedIsIdle(t, s, n);
    if FirstIn(World(u), t.mro.linear[s], n).None? {
      UniversalStub(u, n, (s, n));
    }
    assert Idle(Fetch(t, s, n, more).tab, (s, n));
  }

  /** At level 0 or more the class gets an entry for the name, unless there was no class; at other
      levels no entry is made. */
  lemma EntriesAfter(t: Symtab, stash: Option<Stash>, n: Name, level: int, l: Key)
    ensures l in FetchMeth(t, stash, n, level).tab.glob <==>
            l in t.glob || (stash.Some? && level >= 0 && l == (stash.value, n))
    ensures l in t.glob ==> FetchMeth(t, stash, n, level).tab.glob[l] == t.glob[l]
  {
  }

  lemma UniversalLine(u: Symtab, n: Name)
    requires UNIVERSAL in u.mro.linear
    ensures var m := Fetch(u, UNIVERSAL, n, false).tab.mro.linCache;
            m == u.mro.linCache || m == u.mro.linCache[UNIVERSAL := u.mro.linear[UNIVERSAL]]
  {
    var v := Lined(Cleaned(u, (UNIVERSAL, n)), UNIVERSAL);
    assert v.mro.linCache == u.mro.linCache[UNIVERSAL := u.mro.linear[UNIVERSAL]];
  }

  lemma WritesKeepDates(t: Symtab, k: Key, cv: Cv)
    ensures Stored(t, k, cv).mro == t.mro && Failed(t, k).mro == t.mro && Cleaned(t, k).mro == t.mro
  {
  }

  lemma SearchLine(t: Symtab, s: Stash, n: Name, more: bool)
    requires !Settled(t, s, n)
    ensures var u, d := Lined(Cleaned(t, (s, n)), s), Fetch(t, s, n, more).tab.mro;
            d == u.mro || (UNIVERSAL in u.mro.cacheGen && d == Fetch(u, UNIVERSAL, n, false).tab.mro)
  {
    var u := Lined(Cleaned(t, (s, n)), s);
    WritesKeepDates(u, (s, n), SUB_F);
  }

  /** A search that its entry does not settle remembers the class's linearization; of other classes
      only UNIVERSAL can get one remembered. */
  lemma LineIsRemembered(t: Symtab, s: Stash, n: Name, more: bool)
    requires Searchable(t.mro, s) && !Settled(t, s, n)
    ensures var m, m' := t.mro.linCache[s := t.mro.linear[s]], Fetch(t, s, n, more).tab.mro.linCache;
            m' == m || (UNIVERSAL in t.mro.linear && m' == m[UNIVERSAL := t.mro.linear[UNIVERSAL]])
  {
    var u := Lined(Cleaned(t, (s, n)), s);
    assert u.mro == t.mro.(linCache := t.mro.linCache[s := t.mro.linear[s]]);
    SearchLine(t, s, n, more);
    if UNIVERSAL in t.mro.linear {
      UniversalLine(u, n);
    }
  }

  /** A table for which they do not: class 1 has no method 5 of its own but UNIVERSAL does, and after
      one such lookup it is not found. */
  function UniversalOnly(): Symtab {
    Symtab(map[(UNIVERSAL, 5) := 0, (1, 5) := 1],
           map[0 := Body(Some(SUB_F), 0, 1), 1 := Body(None, 0, 1)], 2, [],
           Dates(map[UNIVERSAL := 1, 1 := 1], 1, map[UNIVERSAL := [UNIVERSAL], 1 := [1]], map[], map[]))
  }

  lemma OtherLevelsPoisonTheCache()
    ensures Lookup(World(UniversalOnly()), 1, 5) == Some(SUB_F)
    ensures Fetch(Fetch(UniversalOnly(), 1, 5, false).tab, 1, 5, true).cv == None
  {
    var t := UniversalOnly();
    assert [1][1..] == [] && [UNIVERSAL][1..] == [];
    assert FirstIn(World(t), [1], 5) == FirstIn(World(t), [], 5) == None;
    assert Lined(Cleaned(t, (1, 5)), 1).glob == t.glob;
    var u := Lined(Cleaned(t, (1, 5)), 1);
    assert World(u) == World(t);
    assert Fetch(t, 1, 5, false).tab == Failed(u, (1, 5));
  }
}
