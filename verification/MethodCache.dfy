/**
 gv_fetchmeth and the operations that change what it should find, over mutable interpreter
 state.  Each method makes exactly the step of modules SymbolTable and MethodLookup that it is
 named after; so over any run every lookup answers as if nothing had ever been cached.
 */
module MethodCache {
  import opened Basics
  import opened Mro
  import opened SymbolTable
  import opened MethodLookup

  lemma FirstInSkip(p: Program, line: seq<Stash>, i: nat, n: Name)
    requires i < |line| && FirstIn(p, line[..i], n).None?
    ensures Own(p, line[i], n).Some? ==> FirstIn(p, line, n) == Own(p, line[i], n)
    ensures Own(p, line[i], n).None? ==> FirstIn(p, line[..i + 1], n).None?
  {
    assert line == line[..i] + line[i..];
    assert line[..i + 1] == line[..i] + [line[i]];
    FirstInAppend(p, line[..i], line[i..], n);
    FirstInAppend(p, line[..i], [line[i]], n);
    assert FirstIn(p, [], n).None?;
  }

  lemma WithOneMore(rev: map<Stash, set<Stash>>, parents: set<Stash>, c: Stash, heard: set<Stash>)
    ensures var w := WithChildren(rev, parents, heard);
            WithChildren(rev, parents + {c}, heard) == w[c := (if c in w then w[c] else {}) + heard]
  {
    var w := WithChildren(rev, parents, heard);
    var v := WithChildren(rev, parents + {c}, heard);
    assert forall x :: x in v && x != c ==> v[x] == w[x];
    assert v[c] == (if c in w then w[c] else {}) + heard;
  }

  lemma WithNobody(rev: map<Stash, set<Stash>>, heard: set<Stash>)
    ensures WithChildren(rev, {}, heard) == rev
  {
    assert forall x :: x in rev ==> rev[x] + {} == rev[x];
  }

  lemma ElementsAppend(line: seq<Stash>, c: Stash)
    ensures Elements(line + [c]) == Elements(line) + {c}
  {
  }

  class Interp {
    var glob: map<Key, BodyId>
    var body: map<BodyId, Body>
    var next: BodyId
    var released: seq<BodyId>
    var cacheGen: map<Stash, nat>
    var subGen: nat
    var linear: Lines   // the linearizations that lookups may rely on
    var linCache: Lines
    var isarev: map<Stash, set<Stash>>

    function Dated(): Dates
      reads this
    {
      Dates(cacheGen, subGen, linear, linCache, isarev)
    }

    function View(): Symtab
      reads this
    {
      Symtab(glob, body, next, released, Dated())
    }

    ghost predicate Valid()
      reads this
    {
      Good(View())
    }

    /** No stash yet; PL_sub_generation starts at 1. */
    constructor ()
      ensures Valid() && RevCovers(Dated()) && Coherent(View())
      ensures World(View()) == Program(map[], map[])
    {
      glob, body, next, released := map[], map[], 0, [];
      cacheGen, subGen, linear, linCache, isarev := map[], 1, map[], map[], map[];
    }

    // -------------------------------------------------------------- mro.c

    /** cache_gen++ for every stash of `who` that exists. */
    method BumpAll(who: set<Stash>)
      modifies `cacheGen
      ensures cacheGen == Bumped(old(cacheGen), who)
    {
      var todo := who;
      while todo != {}
        invariant todo <= who && cacheGen.Keys == old(cacheGen).Keys
        invariant forall s :: s in cacheGen ==>
          cacheGen[s] == old(cacheGen)[s] + if s in who - todo then 1 else 0
      {
        var s :| s in todo;
        todo := todo - {s};
        if s in cacheGen {
          cacheGen := cacheGen[s := cacheGen[s] + 1];
        }
      }
    }

    method MethodChangedIn(s: Stash)
      modifies `cacheGen, `subGen
      ensures Dated() == MethodChanged(old(Dated()), s)
    {
      var rev := if s in isarev then isarev[s] else {};
      if s == UNIVERSAL || UNIVERSAL in rev {
        subGen := subGen + 1;
        return;
      }
      BumpAll(rev);
    }

    /** mro_get_linear_isa: the remembered linearization, or C3's answer, which is remembered. */
    method GetLinearIsa(s: Stash) returns (line: seq<Stash>)
      requires WfDates(Dated()) && s in linear
      modifies `linCache
      ensures line == linear[s] && View() == Lined(old(View()), s)
    {
      if s in linCache {
        line := linCache[s];
        assert linCache == linCache[s := line];
      } else {
        line := linear[s];
        linCache := linCache[s := line];
      }
    }

    /** Every ancestor of the class hears of it and of its children. */
    method Announce(line: seq<Stash>, heard: set<Stash>)
      requires line != []
      modifies `isarev
      ensures isarev == WithChildren(old(isarev), Elements(line[1..]), heard)
    {
      var i := 1;
      ghost var done: set<Stash> := {};
      WithNobody(isarev, heard);
      while i < |line|
        invariant 1 <= i <= |line|
        invariant done == Elements(line[1..i])
        invariant isarev == WithChildren(old(isarev), done, heard)
      {
        var c := line[i];
        WithOneMore(old(isarev), done, c, heard);
        isarev := isarev[c := (if c in isarev then isarev[c] else {}) + heard];
        ElementsAppend(line[1..i], c);
        assert line[1..i + 1] == line[1..i] + [c];
        done := done + {c};
        i := i + 1;
      }
      assert line[1..i] == line[1..];
    }

    /** mro_isa_changed_in.  `line` is the linearization of the changed @ISA; without one
        mro_get_linear_isa dies, when all has been dated and forgotten and nothing announced. */
    method IsaChangedIn(s: Stash, lin: Lines, line: Option<seq<Stash>>) returns (died: bool)
      requires line.Some? ==> line.value != []
      modifies `cacheGen, `subGen, `linear, `linCache, `isarev
      ensures died <==> line.None?
      ensures Dated() ==
        if line.Some? then IsaChanged(old(Dated()), s, lin, line.value) else IsaDied(old(Dated()), s, lin)
    {
      linear := lin;
      var rev := if s in isarev then isarev[s] else {};
      linCache := linCache - {s};
      if s == UNIVERSAL || UNIVERSAL in rev {
        subGen := subGen + 1;
      } else {
        BumpAll({s} + rev);
      }
      linCache := linCache - rev;
      assert linCache == old(linCache) - Family(old(Dated()), s);
      if line.None? {
        return true;
      }
      linCache := linCache[s := line.value];
      Announce(line.value, {s} + rev);
      died := false;
    }

    // -------------------------------------------------------------- gv.c

    /** An entry for `k`, new if need be. */
    method GvFetch(k: Key) returns (b: BodyId)
      modifies `glob, `body, `next
      ensures View() == Fetched(old(View()), k) && k in glob && b == glob[k]
    {
      if k !in glob {
        glob := glob[k := next];
        body := body[next := Body(None, 0, 1)];
        next := next + 1;
      }
      b := glob[k];
    }

    /** Remember `cv` in the entry unless others share its body or `cv` is a stub. */
    method Store(k: Key, cv: Cv)
      requires Good(View()) && k.0 in cacheGen
      modifies `body
      ensures View() == Stored(old(View()), k, cv)
    {
      if k in glob && body[glob[k]].refcnt == 1 && cv.hasBody {
        body := body[glob[k] := body[glob[k]].(cv := Some(cv), cvgen := cacheGen[k.0] + subGen)];
      }
    }

    /** The loop over the ancestors, the class itself skipped: the first real method. */
    method SearchAncestors(line: seq<Stash>, n: Name) returns (r: Option<Cv>)
      requires Good(View()) && line != [] && Own(World(View()), line[0], n).None?
      ensures r == FirstIn(World(View()), line, n)
    {
      ghost var w := World(View());
      var i := 1;
      assert line[..1][1..] == [];
      while i < |line|
        invariant 1 <= i <= |line|
        invariant FirstIn(w, line[..i], n).None?
      {
        var c := line[i];
        FirstInSkip(w, line, i, n);
        OwnIsReal(View(), (c, n));
        if c in cacheGen && (c, n) in glob {
          var b := body[glob[(c, n)]];
          if b.cv.Some? && b.cvgen == 0 {
            return b.cv;
          }
        }
        i := i + 1;
      }
      assert line[..i] == line;
      r := None;
    }

    /** Remember in the entry that there is no such method, unless others share its body. */
    method Fail(k: Key)
      requires Good(View()) && k.0 in cacheGen
      modifies `body
      ensures View() == Failed(old(View()), k)
    {
      if k in glob && body[glob[k]].refcnt == 1 {
        body := body[glob[k] := body[glob[k]].(cvgen := cacheGen[k.0] + subGen)];
      }
    }

    /** Discard a stale cached method. */
    method Clean(k: Key)
      requires Good(View())
      modifies `body
      ensures View() == Cleaned(old(View()), k)
    {
      if k in glob && body[glob[k]].cv.Some? {
        body := body[glob[k] := body[glob[k]].(cv := None, cvgen := 0)];
      }
    }

    /** From discarding a stale entry to the end of the loop over the ancestors. */
    method SearchFresh(s: Stash, n: Name) returns (r: Option<Cv>)
      requires Good(View()) && Searchable(Dated(), s) && !Settled(View(), s, n)
      modifies `body, `linCache
      ensures View() == Lined(Cleaned(old(View()), (s, n)), s) && Good(View())
      ensures r == FirstIn(World(View()), linear[s], n)
    {
      ghost var t := View();
      UnsettledIsUnreal(t, s, n);
      PreparedMeaning(t, s, n);
      CleanedMeaning(t, (s, n));
      Clean((s, n));
      var line := GetLinearIsa(s);
      OwnIsReal(View(), (s, n));
      r := SearchAncestors(line, n);
    }

    /** The last step of gv_fetchmeth: consult UNIVERSAL. */
    method AskUniversal(s: Stash, n: Name) returns (r: Option<Cv>)
      requires Good(View()) && Searchable(Dated(), s)
      modifies `body, `linCache
      ensures var u := old(View());
              var f := if UNIVERSAL in u.mro.cacheGen then Fetch(u, UNIVERSAL, n, false) else Found(u, None);
              r == f.cv && View() == if r.Some? then Stored(f.tab, (s, n), r.value) else Failed(f.tab, (s, n))
      decreases true, 0, 0
    {
      r := None;
      if UNIVERSAL in cacheGen {
        FetchUniversal(View(), n);
        r := FetchSettled(UNIVERSAL, n, false);
      }
      if r.Some? {
        Store((s, n), r.value);
      } else {
        Fail((s, n));
      }
    }

    /** gv_fetchmeth once the class's own entry has not settled it. */
    method FetchAbove(s: Stash, n: Name, more: bool) returns (r: Option<Cv>)
      requires Good(View()) && Searchable(Dated(), s) && !Settled(View(), s, n)
      modifies `body, `linCache
      ensures View() == MethodLookup.FetchAbove(old(View()), s, n, more).tab
      ensures r == MethodLookup.FetchAbove(old(View()), s, n, more).cv
      decreases more, 0, 1
    {
      r := SearchFresh(s, n);
      if r.Some? {
        Store((s, n), r.value);
      } else if more {
        r := AskUniversal(s, n);
      } else {
        Fail((s, n));
      }
    }

    /** gv_fetchmeth once the entry to cache in exists. */
    method FetchSettled(s: Stash, n: Name, more: bool) returns (r: Option<Cv>)
      requires Good(View()) && Searchable(Dated(), s)
      modifies `body, `linCache
      ensures View() == Fetch(old(View()), s, n, more).tab
      ensures r == Fetch(old(View()), s, n, more).cv
      decreases more, 1
    {
      if (s, n) in glob {
        var b := body[glob[(s, n)]];
        if b.cv.Some? {
          if b.cvgen == 0 || b.cvgen == cacheGen[s] + subGen {
            return b.cv;
          }
        } else if b.cvgen == cacheGen[s] + subGen {
          return None;
        }
      }
      r := FetchAbove(s, n, more);
    }

    /** gv_fetchmeth. */
    method FetchMeth(stash: Option<Stash>, n: Name, level: int) returns (r: Option<Cv>)
      requires Good(View()) && CanLookUp(Dated(), stash)
      modifies `glob, `body, `next, `linCache
      ensures View() == MethodLookup.FetchMeth(old(View()), stash, n, level).tab
      ensures r == MethodLookup.FetchMeth(old(View()), stash, n, level).cv
    {
      if stash.None? && UNIVERSAL !in cacheGen {
        return None;
      }
      var s := if stash.Some? then stash.value else UNIVERSAL;
      if stash.Some? && level >= 0 {
        if (s, n) !in glob {
          NewGlobIsInvisible(View(), (s, n));
          NewGlobKeepsBodies(View(), (s, n));
        }
        var _ := GvFetch((s, n));
      }
      r := FetchSettled(s, n, level == 0 || level == -1);
    }

    // -------------------------------------------------------------- changes

    /** newNAMEDSUB: the entry's sub becomes `cv`, as a real method, and the caches are dated. */
    method DefineSub(k: Key, cv: Cv)
      requires k in glob ==> glob[k] in body
      modifies this
      ensures View() == Define(old(View()), k, cv)
    {
      var b := GvFetch(k);
      body := body[b := body[b].(cv := Some(cv))];
      body := body[b := body[b].(cvgen := 0)];
      MethodChangedIn(k.0);
    }

    /** gp_free of the body of entry `k`, which then points nowhere. */
    method GpFree(k: Key)
      requires Counted(View()) && k in glob
      modifies `glob, `body, `released
      ensures View() == SymbolTable.GpFree(old(View()), k)
    {
      var b := glob[k];
      body := body[b := body[b].(refcnt := body[b].refcnt - 1)];
      if body[b].refcnt > 0 {
        glob := glob - {k};
        return;
      }
      released := released + [b];
      body := body - {b};
      glob := glob - {k};
      assert body == old(body) - {b};
    }

    /** gp_ref of body `b` on behalf of entry `k`. */
    method GpRef(k: Key, b: BodyId)
      requires b in body
      modifies `glob, `body
      ensures View() == SymbolTable.GpRef(old(View()), k, b)
    {
      body := body[b := body[b].(refcnt := body[b].refcnt + 1)];
      if body[b].cv.Some? && body[b].cvgen != 0 {
        body := body[b := body[b].(cv := None, cvgen := 0)];
      }
      glob := glob[k := b];
    }

    /** Assigning a glob by name (sv_setsv): nothing is dated. */
    method AssignGlob(dst: Key, src: Key)
      requires BodiesOk(View()) && dst in glob && src in glob && dst != src
      modifies `glob, `body, `released
      ensures old(glob)[src] in SymbolTable.GpFree(old(View()), dst).body
      ensures View() == Aliased(old(View()), dst, src)
    {
      SharedBodySurvives(View(), dst, src);
      GpFree(dst);
      GpRef(dst, glob[src]);
    }

    /** Deleting an entry from its stash in void context (hv_free_ent, then the glob's own
        destruction). */
    method DeleteEntry(k: Key)
      requires Counted(View()) && k in glob
      modifies this
      ensures View() == Deleted(old(View()), k)
    {
      ghost var t := View();
      var b := body[glob[k]];
      if b.cvgen == 0 && b.cv.Some? {
        MethodChangedIn(k.0);
        MethodChangedIn(k.0);
        assert forall c :: Users(View(), c) == Users(t, c);
      }
      GpFree(k);
    }

    /** `undef *glob`. */
    method UndefGlob(k: Key)
      requires Counted(View()) && k in glob
      modifies this
      ensures View() == Undefined(old(View()), k)
    {
      ghost var t := View();
      var b := body[glob[k]];
      if b.cvgen == 0 && b.cv.Some? {
        MethodChangedIn(k.0);
        assert forall c :: Users(View(), c) == Users(t, c);
      }
      GpFree(k);
      var _ := GvFetch(k);
    }

    /** A stash comes into being: mro_meta_init gives it cache_gen 1. */
    method CreateStash(s: Stash)
      modifies `cacheGen, `linear
      ensures View() == NewStash(old(View()), s)
    {
      cacheGen := cacheGen[s := 1];
      linear := linear[s := [s]];
    }
  }
}
