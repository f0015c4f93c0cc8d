/**
 Whole runs: making, defining, assigning, undefining and deleting entries, creating stashes, changing
 @ISA and looking methods up, in any order.  Counts are always exact; and every lookup answers as the
 cache-free search does, exactly as long as each operation meets the condition under which it leaves
 the caches right.
 */
module MethodRuns {
  import opened Basics
  import opened Mro
  import opened SymbolTable
  import opened GlobAssignment
  import opened SharedSubs
  import opened MethodLookup

  datatype Op =
    | NewOp(key: Key)
    | DefineOp(key: Key, cv: Cv)
    | AssignOp(dst: Key, src: Key)
    | UndefOp(key: Key)
    | DeleteOp(key: Key)                              // delete in void context
    | StashOp(s: Stash)
    | IsaOp(s: Stash, lin: Lines, line: seq<Stash>)
    | DiedOp(s: Stash, lin: Lines)                    // an @ISA assignment that dies
    | FetchOp(stash: Option<Stash>, n: Name, level: int)

  // ---------------------------------------------------------------- the cache-free reference

  /** What every name shows, and which names share a body. */
  datatype Names = Names(program: Program, entry: map<Key, BodyId>, next: BodyId)

  function WithEntry(r: Names, k: Key): Names {
    if k in r.entry then r else r.(entry := r.entry[k := r.next], next := r.next + 1)
  }

  ghost function SameBody(r: Names, k: Key): set<Key> {
    if k in r.entry then set l | l in r.entry && r.entry[l] == r.entry[k] else {k}
  }

  function Without(p: Program, k: Key): Program {
    p.(methods := p.methods - {k})
  }

  ghost function After(r: Names, op: Op): Names {
    match op
    case NewOp(k) => WithEntry(r, k)
    case DefineOp(k, cv) => WithEntry(r, k).(program := Redefined(r.program, SameBody(r, k), cv))
    case AssignOp(dst, src) =>
      if dst == src || src !in r.entry then r
      else r.(program := Reassigned(r.program, dst, Own(r.program, src.0, src.1)),
              entry := r.entry[dst := r.entry[src]])
    case UndefOp(k) => Names(Without(r.program, k), r.entry[k := r.next], r.next + 1)
    case DeleteOp(k) => r.(program := Without(r.program, k), entry := r.entry - {k})
    case StashOp(s) => r.(program := r.program.(linear := r.program.linear[s := [s]]))
    case IsaOp(_, lin, _) => r.(program := r.program.(linear := lin))
    case DiedOp(_, lin) => r.(program := r.program.(linear := lin))
    case FetchOp(stash, n, level) => if stash.Some? && level >= 0 then WithEntry(r, (stash.value, n)) else r
  }

  /** What a lookup should answer. */
  function Expected(r: Names, op: Op): Option<Cv> {
    if op.FetchOp? && (op.stash.Some? ==> op.stash.value in r.program.linear)
    then Answer(r.program, op.stash, op.n) else None
  }

  ghost function Answers(r: Names, ops: seq<Op>): seq<Option<Cv>>
    decreases |ops|
  {
    if ops == [] then [] else [Expected(r, ops[0])] + Answers(After(r, ops[0]), ops[1..])
  }

  // ---------------------------------------------------------------- the cached implementation

  /** The call makes sense: entries and stashes exist (or do not yet), lookups have linearizations to
      rely on, and a change of @ISA is one that the caches are prepared for. */
  ghost predicate Possible(t: Symtab, op: Op) {
    match op
    case NewOp(k) => k.0 in t.mro.cacheGen
    case DefineOp(k, _) => k.0 in t.mro.cacheGen
    case AssignOp(dst, src) => dst in t.glob && src in t.glob
    case UndefOp(k) => k in t.glob
    case DeleteOp(_) => true
    case StashOp(s) => s !in t.mro.cacheGen
    case IsaOp(s, lin, line) => Heard(t.mro, s, lin, line)
    case DiedOp(s, lin) => s in t.mro.cacheGen && Fewer(t.mro.linear, lin)
    case FetchOp(stash, _, _) => CanLookUp(t.mro, stash)
  }

  function Step(t: Symtab, op: Op): Found
    requires BodiesOk(t) && Possible(t, op)
  {
    match op
    case NewOp(k) => Found(Fetched(t, k), None)
    case DefineOp(k, cv) => Found(Define(t, k, cv), None)
    case AssignOp(dst, src) =>
      if dst == src then Found(t, None) else SharedBodySurvives(t, dst, src); Found(Aliased(t, dst, src), None)
    case UndefOp(k) => Found(Undefined(t, k), None)
    case DeleteOp(k) => Found(if k in t.glob then Deleted(t, k) else t, None)
    case StashOp(s) => Found(NewStash(t, s), None)
    case IsaOp(s, lin, line) => Found(Relinearize(t, s, lin, line), None)
    case DiedOp(s, lin) => Found(Died(t, s, lin), None)
    case FetchOp(stash, n, level) => FetchMeth(t, stash, n, level)
  }

  // ---------------------------------------------------------------- counts

  lemma DatesDoNotCount(t: Symtab, d: Dates)
    requires BodiesOk(t)
    ensures BodiesOk(t.(mro := d))
  {
    assert forall b :: Users(t.(mro := d), b) == Users(t, b);
  }

  lemma FetchedKeepsGood(t: Symtab, k: Key)
    requires Good(t) && k.0 in t.mro.cacheGen
    ensures Good(Fetched(t, k)) && World(Fetched(t, k)) == World(t) && (Coherent(t) ==> Coherent(Fetched(t, k)))
  {
    if k !in t.glob {
      NewGlobIsInvisible(t, k);
      NewGlobKeepsBodies(t, k);
    }
  }

  lemma SetCvKeepsGood(t: Symtab, k: Key, cv: Cv)
    requires Good(t) && k in t.glob
    ensures Good(SetCv(t, k, cv))
  {
    WithBodyKeepsBodies(t, t.glob[k], t.body[t.glob[k]].(cv := Some(cv), cvgen := 0));
  }

  /** Also on a body that other entries share. */
  lemma DefineKeepsGood(t: Symtab, k: Key, cv: Cv)
    requires Good(t) && k.0 in t.mro.cacheGen
    ensures Good(Define(t, k, cv)) && Define(t, k, cv).released == t.released
  {
    FetchedKeepsGood(t, k);
    SetCvKeepsGood(Fetched(t, k), k, cv);
    NotifiedKeepsGood(SetCv(Fetched(t, k), k, cv), k.0);
  }

  lemma NotifiedKeepsGood(t: Symtab, s: Stash)
    requires Good(t)
    ensures Good(Notified(t, s))
  {
    MethodChangeKeepsWf(t.mro, s);
    DatesDoNotCount(t, MethodChanged(t.mro, s));
  }

  lemma FreedKeepsGood(t: Symtab, k: Key)
    requires Good(t) && k in t.glob
    ensures Good(GpFree(t, k))
  {
    GpFreeKeepsBodies(t, k);
  }

  lemma AliasedKeepsGood(t: Symtab, dst: Key, src: Key)
    requires Good(t) && dst in t.glob && src in t.glob && dst != src
    ensures t.glob[src] in GpFree(t, dst).body && Good(Aliased(t, dst, src))
  {
    AliasedKeepsBodies(t, dst, src);
    AliasedWorld(t, dst, src);
  }

  lemma DeletedKeepsGood(t: Symtab, k: Key)
    requires Good(t) && k in t.glob
    ensures Good(Deleted(t, k))
  {
    if t.Real(k).Some? {
      NotifiedKeepsGood(t, k.0);
      NotifiedKeepsGood(Notified(t, k.0), k.0);
      FreedKeepsGood(Notified(Notified(t, k.0), k.0), k);
    } else {
      FreedKeepsGood(t, k);
    }
  }

  lemma UndefinedKeepsGood(t: Symtab, k: Key)
    requires Good(t) && k in t.glob
    ensures Good(Undefined(t, k))
  {
    if t.Real(k).Some? {
      NotifiedKeepsGood(t, k.0);
    }
    var u := if t.Real(k).Some? then Notified(t, k.0) else t;
    FreedKeepsGood(u, k);
    NewGlobKeepsBodies(GpFree(u, k), k);
    NewGlobIsInvisible(GpFree(u, k), k);
  }

  lemma DatesKeepGood(t: Symtab, d: Dates)
    requires Good(t) && WfDates(d) && d.cacheGen.Keys >= t.mro.cacheGen.Keys
    ensures Good(t.(mro := d))
  {
    DatesDoNotCount(t, d);
  }

  lemma FetchReleasesNothing(t: Symtab, stash: Option<Stash>, n: Name, level: int)
    ensures FetchMeth(t, stash, n, level).tab.released == t.released
  {
  }

  /** Bodies are counted, released once, and hold no shared cached method, also after one more
      operation of any kind; what has been released stays released. */
  lemma StepKeepsGood(t: Symtab, op: Op)
    requires Good(t) && Possible(t, op)
    ensures Good(Step(t, op).tab) && t.released <= Step(t, op).tab.released
  {
    match op
    case NewOp(k) => FetchedKeepsGood(t, k);
    case DefineOp(k, cv) => DefineKeepsGood(t, k, cv);
    case AssignOp(dst, src) => if dst != src { AliasedKeepsGood(t, dst, src); }
    case UndefOp(k) => UndefinedKeepsGood(t, k);
    case DeleteOp(k) => if k in t.glob { DeletedKeepsGood(t, k); }
    case StashOp(s) => NewStashMeaning(t, s); DatesKeepGood(t, NewStash(t, s).mro);
    case IsaOp(s, lin, line) =>
      RelinearizeMeaning(t, s, lin, line);
      DatesKeepGood(t, Relinearize(t, s, lin, line).mro);
    case DiedOp(s, lin) => DiedMeaning(t, s, lin); DatesKeepGood(t, Died(t, s, lin).mro);
    case FetchOp(stash, n, level) =>
      FetchMethRight(t, stash, n, level);
      FetchReleasesNothing(t, stash, n, level);
  }

  ghost predicate PossibleRun(t: Symtab, ops: seq<Op>)
    requires Good(t)
    decreases |ops|
  {
    ops == [] ||
    (Possible(t, ops[0]) && (StepKeepsGood(t, ops[0]); PossibleRun(Step(t, ops[0]).tab, ops[1..])))
  }

  ghost function AfterRun(t: Symtab, ops: seq<Op>): Symtab
    requires Good(t) && PossibleRun(t, ops)
    decreases |ops|
  {
    if ops == [] then t
    else
      StepKeepsGood(t, ops[0]);
      AfterRun(Step(t, ops[0]).tab, ops[1..])
  }

  lemma {:induction false} RunKeepsGood(t: Symtab, ops: seq<Op>)
    requires Good(t) && PossibleRun(t, ops)
    ensures Good(AfterRun(t, ops)) && t.released <= AfterRun(t, ops).released
    decreases |ops|
  {
    if ops != [] {
      StepKeepsGood(t, ops[0]);
      RunKeepsGood(Step(t, ops[0]).tab, ops[1..]);
    }
  }

  /** The same classes, known to the same others; dates may differ. */
  predicate SameClasses(d: Dates, d': Dates) {
    d'.linear == d.linear && d'.isarev == d.isarev && d'.cacheGen.Keys == d.cacheGen.Keys
  }

  lemma FetchKeepsClasses(t: Symtab, stash: Option<Stash>, n: Name, level: int)
    ensures SameClasses(t.mro, FetchMeth(t, stash, n, level).tab.mro)
  {
  }

  lemma NotifiedKeepsClasses(t: Symtab, s: Stash)
    ensures SameClasses(t.mro, Notified(t, s).mro) && SameClasses(t.mro, Notified(Notified(t, s), s).mro)
  {
  }

  lemma DeleteKeepsClasses(t: Symtab, k: Key)
    requires k in t.glob && t.glob[k] in t.body
    ensures SameClasses(t.mro, Deleted(t, k).mro)
  {
    NotifiedKeepsClasses(t, k.0);
  }

  lemma UndefKeepsClasses(t: Symtab, k: Key)
    requires k in t.glob && t.glob[k] in t.body
    ensures SameClasses(t.mro, Undefined(t, k).mro)
  {
    NotifiedKeepsClasses(t, k.0);
  }

  lemma AliasKeepsClasses(t: Symtab, dst: Key, src: Key)
    requires BodiesOk(t) && dst in t.glob && src in t.glob && t.glob[src] in GpFree(t, dst).body
    ensures SameClasses(t.mro, Aliased(t, dst, src).mro)
  {
  }

  lemma DefineKeepsClasses(t: Symtab, k: Key, cv: Cv)
    requires k in t.glob ==> t.glob[k] in t.body
    ensures SameClasses(t.mro, Define(t, k, cv).mro)
  {
  }

  /** Only new stashes and changes of @ISA have to do with classes. */
  lemma StepKeepsClasses(t: Symtab, op: Op)
    requires BodiesOk(t) && Possible(t, op) && !op.IsaOp? && !op.DiedOp? && !op.StashOp?
    ensures SameClasses(t.mro, Step(t, op).tab.mro)
  {
    match op
    case NewOp(k) =>
    case DefineOp(k, cv) => DefineKeepsClasses(t, k, cv);
    case AssignOp(dst, src) =>
      if dst != src {
        SharedBodySurvives(t, dst, src);
        AliasKeepsClasses(t, dst, src);
      }
    case UndefOp(k) => UndefKeepsClasses(t, k);
    case DeleteOp(k) => if k in t.glob { DeleteKeepsClasses(t, k); }
    case FetchOp(stash, n, level) => FetchKeepsClasses(t, stash, n, level);
  }

  const NEW_INTERPRETER := Symtab(map[], map[], 0, [], Dates(map[], 1, map[], map[], map[]))

  lemma UsedExactly(t: Symtab, b: BodyId)
    requires BodiesOk(t) && b < t.next
    ensures b in t.body <==> Users(t, b) != {}
    ensures b in t.released <==> Users(t, b) == {}
  {
    assert b in t.body ==> |Users(t, b)| > 0;
    assert forall k :: k in Users(t, b) ==> t.glob[k] in t.body;
  }

  /** Over every run of a new interpreter, whatever is defined, looked up, shared, undefined and
      deleted in it: every live body counts exactly the entries on it; a body has been released
      exactly if no entry is on it any more, and only once; and no body with more than one entry
      holds a cached method. */
  lemma GlobRuns(ops: seq<Op>, b: BodyId)
    ensures Good(NEW_INTERPRETER)
    ensures PossibleRun(NEW_INTERPRETER, ops) ==>
              var t := AfterRun(NEW_INTERPRETER, ops);
              && (b in t.body ==> t.body[b].refcnt == |Users(t, b)|)
              && (b < t.next ==> (b in t.released <==> Users(t, b) == {}) && (b in t.body <==> Users(t, b) != {}))
              && (forall i, j :: 0 <= i < j < |t.released| ==> t.released[i] != t.released[j])
              && (b in t.body && |Users(t, b)| > 1 && t.body[b].cv.Some? ==> t.body[b].cvgen == 0)
  {
    if PossibleRun(NEW_INTERPRETER, ops) {
      RunKeepsGood(NEW_INTERPRETER, ops);
      var t := AfterRun(NEW_INTERPRETER, ops);
      if b < t.next {
        UsedExactly(t, b);
      }
    }
  }

  // ---------------------------------------------------------------- answers

  ghost predicate Sound(t: Symtab) {
    Good(t) && RevCovers(t.mro) && Coherent(t)
  }

  function Shown(t: Symtab): Names {
    Names(World(t), t.glob, t.next)
  }

  /** A lookup at a level other than 0 and -1 does not ask UNIVERSAL. */
  ghost predicate FetchKeeps(t: Symtab, stash: Option<Stash>, n: Name, level: int)
    requires CanLookUp(t.mro, stash)
  {
    stash.None? || stash.value == UNIVERSAL || level == 0 || level == -1
    || Settled(Prepared(t, stash.value, n, level), stash.value, n)
    || FirstIn(World(t), t.mro.linear[stash.value], n).Some?
    || InUniversal(World(t), n).None?
  }

  /** The condition under which an operation leaves the caches right. */
  ghost predicate Harmless(t: Symtab, op: Op)
    requires Wf(t) && Possible(t, op)
  {
    match op
    case DefineOp(k, cv) => DefineKeeps(t, k, cv)
    case AssignOp(dst, src) => dst == src || AssignKeeps(t, dst, src)
    case FetchOp(stash, n, level) => FetchKeeps(t, stash, n, level)
    case _ => true
  }

  /** An operation that ends in `f` makes of the names what it should; and if and only if it meets its
      condition, the caches are right afterwards and a lookup answers as it should. */
  ghost predicate Refines(t: Symtab, op: Op, f: Found)
    requires Wf(t) && Possible(t, op) && Wf(f.tab)
  {
    && RevCovers(f.tab.mro) && Shown(f.tab) == After(Shown(t), op)
    && (Coherent(f.tab) && f.cv == Expected(Shown(t), op) <==> Harmless(t, op))
  }

  /** Most operations have no condition. */
  lemma RefinesAlways(t: Symtab, op: Op, u: Symtab)
    requires Wf(t) && Possible(t, op) && !op.DefineOp? && !op.AssignOp? && !op.FetchOp?
    requires Wf(u) && RevCovers(u.mro) && Coherent(u) && Shown(u) == After(Shown(t), op)
    ensures Refines(t, op, Found(u, None))
  {
  }

  lemma NewShown(t: Symtab, k: Key)
    requires World(Fetched(t, k)) == World(t)
    ensures Fetched(t, k).mro == t.mro && Shown(Fetched(t, k)) == After(Shown(t), NewOp(k))
  {
  }

  lemma NewRefines(t: Symtab, k: Key)
    requires Sound(t) && Possible(t, NewOp(k))
    ensures Wf(Fetched(t, k)) && Refines(t, NewOp(k), Found(Fetched(t, k), None))
  {
    FetchedKeepsGood(t, k);
    NewShown(t, k);
    RefinesAlways(t, NewOp(k), Fetched(t, k));
  }

  lemma DefineShown(t: Symtab, k: Key, cv: Cv)
    requires Definable(t, k) && RevCovers(t.mro)
    requires World(Define(t, k, cv)) == Redefined(World(t), Sharers(t, k), cv)
    ensures RevCovers(Define(t, k, cv).mro) && Shown(Define(t, k, cv)) == After(Shown(t), DefineOp(k, cv))
  {
    MethodChangeKeepsWf(t.mro, k.0);
    assert SameBody(Shown(t), k) == Sharers(t, k);
  }

  lemma DefineRefines(t: Symtab, k: Key, cv: Cv)
    requires Sound(t) && Possible(t, DefineOp(k, cv))
    ensures Wf(Define(t, k, cv)) && Refines(t, DefineOp(k, cv), Found(Define(t, k, cv), None))
  {
    DefineExactly(t, k, cv);
    DefineShown(t, k, cv);
    RefinesDefine(t, k, cv, Define(t, k, cv));
  }

  lemma RefinesDefine(t: Symtab, k: Key, cv: Cv, u: Symtab)
    requires Wf(t) && Possible(t, DefineOp(k, cv)) && Wf(u) && RevCovers(u.mro)
    requires Shown(u) == After(Shown(t), DefineOp(k, cv)) && (Coherent(u) <==> DefineKeeps(t, k, cv))
    ensures Refines(t, DefineOp(k, cv), Found(u, None))
  {
  }

  lemma AssignShown(t: Symtab, dst: Key, src: Key)
    requires BodiesOk(t) && dst in t.glob && src in t.glob && dst != src && t.glob[src] in GpFree(t, dst).body
    requires World(Aliased(t, dst, src)) == Reassigned(World(t), dst, t.Real(src))
    ensures Aliased(t, dst, src).mro == t.mro && Shown(Aliased(t, dst, src)) == After(Shown(t), AssignOp(dst, src))
  {
    OwnIsReal(t, src);
  }

  lemma AssignRefines(t: Symtab, dst: Key, src: Key)
    requires Sound(t) && Possible(t, AssignOp(dst, src)) && dst != src
    ensures t.glob[src] in GpFree(t, dst).body && Wf(Aliased(t, dst, src))
    ensures Refines(t, AssignOp(dst, src), Found(Aliased(t, dst, src), None))
  {
    AssignExactly(t, dst, src);
    AssignShown(t, dst, src);
    RefinesAssign(t, dst, src, Aliased(t, dst, src));
  }

  lemma RefinesAssign(t: Symtab, dst: Key, src: Key, u: Symtab)
    requires Wf(t) && Possible(t, AssignOp(dst, src)) && dst != src && Wf(u) && RevCovers(u.mro)
    requires Shown(u) == After(Shown(t), AssignOp(dst, src)) && (Coherent(u) <==> AssignKeeps(t, dst, src))
    ensures Refines(t, AssignOp(dst, src), Found(u, None))
  {
  }

  lemma UndefShown(t: Symtab, k: Key)
    requires Wf(t) && RevCovers(t.mro) && k in t.glob
    requires World(Undefined(t, k)) == Without(World(t), k)
    ensures RevCovers(Undefined(t, k).mro) && Shown(Undefined(t, k)) == After(Shown(t), UndefOp(k))
  {
    MethodChangeKeepsWf(t.mro, k.0);
    assert Undefined(t, k).glob == t.glob[k := t.next];
  }

  lemma UndefRefines(t: Symtab, k: Key)
    requires Sound(t) && Possible(t, UndefOp(k))
    ensures Wf(Undefined(t, k)) && Refines(t, UndefOp(k), Found(Undefined(t, k), None))
  {
    UndefinedMeaning(t, k);
    UndefShown(t, k);
    RefinesAlways(t, UndefOp(k), Undefined(t, k));
  }

  lemma DeleteShown(t: Symtab, k: Key)
    requires Wf(t) && RevCovers(t.mro) && k in t.glob
    requires World(Deleted(t, k)) == Without(World(t), k)
    ensures RevCovers(Deleted(t, k).mro) && Shown(Deleted(t, k)) == After(Shown(t), DeleteOp(k))
  {
    MethodChangeKeepsWf(t.mro, k.0);
    MethodChangeKeepsWf(MethodChanged(t.mro, k.0), k.0);
  }

  lemma DeleteNothing(t: Symtab, k: Key)
    requires k !in t.glob
    ensures Shown(t) == After(Shown(t), DeleteOp(k))
  {
    assert World(t).methods - {k} == World(t).methods;
    assert t.glob - {k} == t.glob;
  }

  lemma DeleteRefines(t: Symtab, k: Key)
    requires Sound(t)
    ensures var u := if k in t.glob then Deleted(t, k) else t;
            Wf(u) && Refines(t, DeleteOp(k), Found(u, None))
  {
    if k in t.glob {
      DeletedMeaning(t, k);
      DeleteShown(t, k);
      RefinesAlways(t, DeleteOp(k), Deleted(t, k));
    } else {
      DeleteNothing(t, k);
      RefinesAlways(t, DeleteOp(k), t);
    }
  }

  lemma FetchShown(t: Symtab, stash: Option<Stash>, n: Name, level: int)
    requires RevCovers(t.mro) && World(FetchMeth(t, stash, n, level).tab) == World(t)
    ensures var u := FetchMeth(t, stash, n, level).tab;
            RevCovers(u.mro) && Shown(u) == After(Shown(t), FetchOp(stash, n, level))
  {
    var u := FetchMeth(t, stash, n, level).tab;
    assert forall c :: u.mro.Rev(c) == t.mro.Rev(c);
  }

  lemma FetchExactly(t: Symtab, stash: Option<Stash>, n: Name, level: int)
    requires Sound(t) && CanLookUp(t.mro, stash)
    ensures var f := FetchMeth(t, stash, n, level);
            && Wf(f.tab) && World(f.tab) == World(t)
            && (Coherent(f.tab) && f.cv == Answer(World(t), stash, n) <==> FetchKeeps(t, stash, n, level))
  {
    FetchMethRight(t, stash, n, level);
    if stash.Some? && level != 0 && level != -1 && stash.value != UNIVERSAL {
      OtherLevels(t, stash.value, n, level);
    }
  }

  lemma FetchRefines(t: Symtab, stash: Option<Stash>, n: Name, level: int)
    requires Sound(t) && Possible(t, FetchOp(stash, n, level))
    ensures var f := FetchMeth(t, stash, n, level);
            Wf(f.tab) && Refines(t, FetchOp(stash, n, level), f)
  {
    FetchExactly(t, stash, n, level);
    FetchShown(t, stash, n, level);
    RefinesFetch(t, stash, n, level, FetchMeth(t, stash, n, level));
  }

  lemma RefinesFetch(t: Symtab, stash: Option<Stash>, n: Name, level: int, f: Found)
    requires Wf(t) && CanLookUp(t.mro, stash) && Wf(f.tab) && RevCovers(f.tab.mro)
    requires Shown(f.tab) == After(Shown(t), FetchOp(stash, n, level))
    requires Coherent(f.tab) && f.cv == Answer(World(t), stash, n) <==> FetchKeeps(t, stash, n, level)
    ensures Refines(t, FetchOp(stash, n, level), f)
  {
  }

  lemma StepRefines(t: Symtab, op: Op)
    requires Sound(t) && Possible(t, op)
    ensures Wf(Step(t, op).tab) && Refines(t, op, Step(t, op))
  {
    match op
    case NewOp(k) => NewRefines(t, k);
    case DefineOp(k, cv) => DefineRefines(t, k, cv);
    case AssignOp(dst, src) => if dst != src { AssignRefines(t, dst, src); }
    case UndefOp(k) => UndefRefines(t, k);
    case DeleteOp(k) => DeleteRefines(t, k);
    case StashOp(s) => NewStashMeaning(t, s); RefinesAlways(t, op, NewStash(t, s));
    case IsaOp(s, lin, line) =>
      RelinearizeMeaning(t, s, lin, line);
      RefinesAlways(t, op, Relinearize(t, s, lin, line));
    case DiedOp(s, lin) => DiedMeaning(t, s, lin); RefinesAlways(t, op, Died(t, s, lin));
    case FetchOp(stash, n, level) => FetchRefines(t, stash, n, level);
  }

  /** A run of possible operations that meet their conditions. */
  ghost predicate HarmlessRun(t: Symtab, ops: seq<Op>)
    requires Sound(t)
    decreases |ops|
  {
    ops == [] ||
    (&& Possible(t, ops[0]) && Harmless(t, ops[0])
     && (StepKeepsGood(t, ops[0]); StepRefines(t, ops[0]); HarmlessRun(Step(t, ops[0]).tab, ops[1..])))
  }

  ghost function CachedAnswers(t: Symtab, ops: seq<Op>): seq<Option<Cv>>
    requires Good(t) && PossibleRun(t, ops)
    decreases |ops|
  {
    if ops == [] then []
    else
      StepKeepsGood(t, ops[0]);
      [Step(t, ops[0]).cv] + CachedAnswers(Step(t, ops[0]).tab, ops[1..])
  }

  /** Over every run of operations that meet their conditions, from every sound state, the method
      cache is invisible: every lookup answers as the cache-free search does. */
  lemma {:induction false} RunsAgree(t: Symtab, ops: seq<Op>)
    requires Sound(t) && HarmlessRun(t, ops)
    ensures PossibleRun(t, ops) && CachedAnswers(t, ops) == Answers(Shown(t), ops) && Sound(AfterRun(t, ops))
    decreases |ops|
  {
    if ops != [] {
      StepKeepsGood(t, ops[0]);
      StepRefines(t, ops[0]);
      RunsAgree(Step(t, ops[0]).tab, ops[1..]);
    }
  }

  lemma NewInterpreterIsSound()
    ensures Sound(NEW_INTERPRETER) && Shown(NEW_INTERPRETER) == Names(Program(map[], map[]), map[], 0)
  {
  }
}
