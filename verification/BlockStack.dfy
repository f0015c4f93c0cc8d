/**
 The block stack and the dynamic scopes (cop_i.h, cop.h): entering a block saves interpreter
 registers and opens a dynamic scope; leaving it runs the scope's on-leave handlers and puts the
 registers back.
 */
module BlockStack {
  import opened Basics
  import opened LeaveHandlers

  type ScopeId = nat

  /** A dynamic scope: a hash with a "parent" and an "onleave" array. */
  datatype Scope = Scope(parent: Option<ScopeId>, onleave: seq<Handler>)

  /** The saved-context record. */
  datatype Context = Context(kind: nat, oldsp: nat, oldcop: nat, oldop: nat, oldmarksp: nat, oldscopesp: nat,
                             oldpm: nat, gimme: nat, dynascope: Option<ScopeId>)

  type Scopes = map<ScopeId, Scope>

  /** Parents exist and are older. */
  ghost predicate Grounded(scopes: Scopes) {
    forall s :: s in scopes && scopes[s].parent.Some? ==> scopes[s].parent.value in scopes && scopes[s].parent.value < s
  }

  /** How many scopes there are from `s` outwards. */
  ghost function Depth(scopes: Scopes, s: Option<ScopeId>): nat
    requires Grounded(scopes) && (s.Some? ==> s.value in scopes)
    decreases if s.None? then 0 else s.value + 1
  {
    if s.None? then 0 else 1 + Depth(scopes, scopes[s.value].parent)
  }

  /** Each block's scope is a child of the one it was entered from. */
  ghost predicate Linked(scopes: Scopes, cxs: seq<Context>, dyn: Option<ScopeId>)
    decreases |cxs|
  {
    && (dyn.Some? ==> dyn.value in scopes)
    && (cxs != [] ==>
          var cx := cxs[|cxs| - 1];
          dyn.Some? && scopes[dyn.value].parent == cx.dynascope && Linked(scopes, cxs[..|cxs| - 1], cx.dynascope))
  }

  /** The dynamic scope outside all blocks. */
  ghost function Outermost(cxs: seq<Context>, dyn: Option<ScopeId>): Option<ScopeId> {
    if cxs == [] then dyn else cxs[0].dynascope
  }

  /** The parent chain is as deep as the block stack, counted from outside all blocks. */
  lemma {:induction false} ChainDepth(scopes: Scopes, cxs: seq<Context>, dyn: Option<ScopeId>)
    requires Grounded(scopes) && Linked(scopes, cxs, dyn)
    ensures var o := Outermost(cxs, dyn);
            (o.Some? ==> o.value in scopes) && Depth(scopes, dyn) == Depth(scopes, o) + |cxs|
    decreases |cxs|
  {
    if cxs != [] {
      ChainDepth(scopes, cxs[..|cxs| - 1], cxs[|cxs| - 1].dynascope);
    }
  }

  /** The scopes from `s` outwards. */
  ghost function Chain(scopes: Scopes, s: Option<ScopeId>): set<ScopeId>
    requires Grounded(scopes) && (s.Some? ==> s.value in scopes)
    decreases if s.None? then 0 else s.value + 1
  {
    if s.None? then {} else {s.value} + Chain(scopes, scopes[s.value].parent)
  }

  /** Their handler lists, outermost first. */
  ghost function Open(scopes: Scopes, s: Option<ScopeId>): Lists
    requires Grounded(scopes) && (s.Some? ==> s.value in scopes)
    decreases if s.None? then 0 else s.value + 1
  {
    if s.None? then [] else Open(scopes, scopes[s.value].parent) + [scopes[s.value].onleave]
  }

  lemma {:induction false} ChainBelow(scopes: Scopes, s: Option<ScopeId>)
    requires Grounded(scopes) && (s.Some? ==> s.value in scopes)
    ensures forall x :: x in Chain(scopes, s) ==> s.Some? && x <= s.value
    decreases if s.None? then 0 else s.value + 1
  {
    if s.Some? {
      ChainBelow(scopes, scopes[s.value].parent);
    }
  }

  /** Every scope of `was` is still there, with the same parent, and unless it is in `chain` with the
      same handlers. */
  ghost predicate Kept(was: Scopes, scopes: Scopes, chain: set<ScopeId>) {
    forall s :: s in was ==>
      s in scopes && scopes[s].parent == was[s].parent && (s !in chain ==> scopes[s] == was[s])
  }

  /** Chains and links depend on parents only. */
  lemma {:induction false} ChainKept(was: Scopes, scopes: Scopes, chain: set<ScopeId>, s: Option<ScopeId>)
    requires Grounded(was) && Grounded(scopes) && Kept(was, scopes, chain) && (s.Some? ==> s.value in was)
    ensures s.Some? ==> s.value in scopes
    ensures Chain(scopes, s) == Chain(was, s)
    decreases if s.None? then 0 else s.value + 1
  {
    if s.Some? {
      ChainKept(was, scopes, chain, was[s.value].parent);
    }
  }

  lemma {:induction false} LinkedKept(was: Scopes, scopes: Scopes, chain: set<ScopeId>, cxs: seq<Context>,
                                      dyn: Option<ScopeId>)
    requires Linked(was, cxs, dyn) && Kept(was, scopes, chain)
    ensures Linked(scopes, cxs, dyn)
    decreases |cxs|
  {
    if cxs != [] {
      LinkedKept(was, scopes, chain, cxs[..|cxs| - 1], cxs[|cxs| - 1].dynascope);
    }
  }

  /** A change of handlers outside a chain does not show in its lists. */
  lemma {:induction false} OpenKept(was: Scopes, scopes: Scopes, chain: set<ScopeId>, s: Option<ScopeId>)
    requires Grounded(was) && Grounded(scopes) && Kept(was, scopes, chain) && (s.Some? ==> s.value in was)
    requires forall x :: x in Chain(was, s) ==> x !in chain
    ensures (s.Some? ==> s.value in scopes) && Open(scopes, s) == Open(was, s)
    decreases if s.None? then 0 else s.value + 1
  {
    if s.Some? {
      assert s.value in Chain(was, s);
      OpenKept(was, scopes, chain, was[s.value].parent);
    }
  }

  lemma KeptTwice(a: Scopes, b: Scopes, c: Scopes, chain: set<ScopeId>)
    requires Kept(a, b, chain) && Kept(b, c, chain)
    ensures Kept(a, c, chain)
  {
  }

  /** What happens to a scope opened since `was` does not matter to the scopes of `was`. */
  lemma KeptOutside(was: Scopes, now: Scopes, chain: set<ScopeId>, newer: ScopeId)
    requires newer !in was && Kept(was, now, chain + {newer})
    ensures Kept(was, now, chain)
  {
  }

  lemma BlockKept(was: Scopes, inside: Scopes, now: Scopes, chain: set<ScopeId>, newer: ScopeId, dyn: Option<ScopeId>)
    requires newer !in was && Kept(was, inside, chain + {newer}) && Kept(inside, now, chain + {newer})
    requires Grounded(was) && Grounded(now) && (dyn.Some? ==> dyn.value in was) && chain == Chain(was, dyn)
    ensures Kept(was, now, chain) && (dyn.Some? ==> dyn.value in now) && Chain(now, dyn) == chain
  {
    KeptTwice(was, inside, now, chain + {newer});
    KeptOutside(was, now, chain, newer);
    ChainKept(was, now, chain, dyn);
  }

  /** The scope `up` scopes further out. */
  ghost function Outer(scopes: Scopes, s: Option<ScopeId>, up: nat): (o: Option<ScopeId>)
    requires Grounded(scopes) && (s.Some? ==> s.value in scopes)
    ensures o.Some? ==> o.value in Chain(scopes, s) && o.value in scopes
    decreases up
  {
    if up == 0 || s.None? then s else Outer(scopes, scopes[s.value].parent, up - 1)
  }

  /** Adding a handler to that scope adds it to the list at that place. */
  lemma {:induction false} OpenRegistered(scopes: Scopes, s: Option<ScopeId>, up: nat, h: Handler)
    requires Grounded(scopes) && (s.Some? ==> s.value in scopes)
    ensures var o := Outer(scopes, s, up);
            && (o.Some? <==> up < |Open(scopes, s)|)
            && (o.Some? ==>
                  && o.value in Chain(scopes, s)
                  && var now := WithHandler(scopes, o.value, h);
                     Grounded(now) && Open(now, s) == Registered(Open(scopes, s), up, h))
    decreases up
  {
    if s.Some? {
      var p := scopes[s.value].parent;
      if up == 0 {
        InnermostRegistered(scopes, s.value, h);
      } else {
        OpenRegistered(scopes, p, up - 1, h);
        var o := Outer(scopes, p, up - 1);
        if o.Some? {
          OuterRegistered(scopes, s.value, o.value, h, up);
        }
      }
    }
  }

  lemma InnermostRegistered(scopes: Scopes, s: ScopeId, h: Handler)
    requires Grounded(scopes) && s in scopes
    ensures var now := WithHandler(scopes, s, h);
            Grounded(now) && Open(now, Some(s)) == Registered(Open(scopes, Some(s)), 0, h)
  {
    var now := WithHandler(scopes, s, h);
    ChainBelow(scopes, scopes[s].parent);
    OpenKept(scopes, now, {s}, scopes[s].parent);
  }

  lemma OuterRegistered(scopes: Scopes, s: ScopeId, o: ScopeId, h: Handler, up: nat)
    requires Grounded(scopes) && s in scopes && up > 0 && o in Chain(scopes, scopes[s].parent) && o in scopes
    requires var now := WithHandler(scopes, o, h);
             Grounded(now) && Open(now, scopes[s].parent) == Registered(Open(scopes, scopes[s].parent), up - 1, h)
    ensures Open(WithHandler(scopes, o, h), Some(s)) == Registered(Open(scopes, Some(s)), up, h)
  {
    ChainBelow(scopes, scopes[s].parent);
    assert WithHandler(scopes, o, h)[s] == scopes[s];
    RegisteredBelow(Open(scopes, scopes[s].parent), scopes[s].onleave, up, h);
  }

  lemma RegisteredBelow(open: Lists, hs: seq<Handler>, up: nat, h: Handler)
    requires up > 0
    ensures Registered(open, up - 1, h) + [hs] == Registered(open + [hs], up, h)
  {
  }

  function WithHandler(scopes: Scopes, s: ScopeId, h: Handler): Scopes
    requires s in scopes
  {
    scopes[s := scopes[s].(onleave := scopes[s].onleave + [h])]
  }

  /** A new innermost scope. */
  lemma ScopePushed(scopes: Scopes, cxs: seq<Context>, dyn: Option<ScopeId>, next: ScopeId, cx: Context)
    requires Grounded(scopes) && Linked(scopes, cxs, dyn) && (forall s :: s in scopes ==> s < next)
    requires cx.dynascope == dyn
    ensures var now := scopes[next := Scope(dyn, [])];
            && Grounded(now) && Linked(now, cxs + [cx], Some(next)) && Kept(scopes, now, {})
            && Open(now, Some(next)) == Open(scopes, dyn) + [[]]
            && Chain(now, Some(next)) == Chain(scopes, dyn) + {next}
  {
    var now := scopes[next := Scope(dyn, [])];
    assert Grounded(now) && Kept(scopes, now, {});
    LinkedPushed(scopes, cxs, dyn, next, cx);
    ListsPushed(scopes, dyn, next);
  }

  lemma LinkedPushed(scopes: Scopes, cxs: seq<Context>, dyn: Option<ScopeId>, next: ScopeId, cx: Context)
    requires Linked(scopes, cxs, dyn) && next !in scopes && cx.dynascope == dyn
    ensures Linked(scopes[next := Scope(dyn, [])], cxs + [cx], Some(next))
  {
    LinkedKept(scopes, scopes[next := Scope(dyn, [])], {}, cxs, dyn);
    assert (cxs + [cx])[..|cxs + [cx]| - 1] == cxs;
  }

  lemma ListsPushed(scopes: Scopes, dyn: Option<ScopeId>, next: ScopeId)
    requires Grounded(scopes) && (dyn.Some? ==> dyn.value in scopes) && (forall s :: s in scopes ==> s < next)
    requires Grounded(scopes[next := Scope(dyn, [])])
    ensures var now := scopes[next := Scope(dyn, [])];
            && Open(now, Some(next)) == Open(scopes, dyn) + [[]]
            && Chain(now, Some(next)) == Chain(scopes, dyn) + {next}
  {
    var now := scopes[next := Scope(dyn, [])];
    OpenKept(scopes, now, {}, dyn);
    ChainKept(scopes, now, {}, dyn);
  }

  /** The innermost scope without its newest handler. */
  lemma HandlerPopped(scopes: Scopes, s: ScopeId)
    requires Grounded(scopes) && s in scopes && scopes[s].onleave != []
    ensures var hs := scopes[s].onleave;
            var now := scopes[s := scopes[s].(onleave := hs[..|hs| - 1])];
            && Grounded(now) && Kept(scopes, now, {s})
            && Open(now, Some(s)) == Open(scopes, scopes[s].parent) + [hs[..|hs| - 1]]
  {
    var hs := scopes[s].onleave;
    var now := scopes[s := scopes[s].(onleave := hs[..|hs| - 1])];
    ChainBelow(scopes, scopes[s].parent);
    OpenKept(scopes, now, {s}, scopes[s].parent);
  }

  // ---------------------------------------------------------------- leaving, one call at a time

  ghost function LeaveInnermost(st: State): State
    requires st.open != []
  {
    var n := |st.open| - 1;
    Leave(st.open[..n], st.open[n], st.calls)
  }

  /** The newest handler of the innermost scope has been called. */
  ghost function CalledNewest(st: State): State
    requires st.open != [] && st.open[|st.open| - 1] != []
  {
    var n := |st.open| - 1;
    var hs := st.open[n];
    var h := hs[|hs| - 1];
    RunBlock(h.body, State(st.open[..n] + [hs[..|hs| - 1]], st.calls + [h.id]))
  }

  lemma LeaveStep(st: State)
    requires st.open != [] && st.open[|st.open| - 1] != []
    ensures CalledNewest(st).open != [] && LeaveInnermost(CalledNewest(st)) == LeaveInnermost(st)
  {
  }

  lemma BlockIs(body: seq<Action>, st: State)
    ensures var s := RunAll(body, State(st.open + [[]], st.calls));
            && s.open != [] && RunBlock(body, st) == LeaveInnermost(s)
            && Weight(s.open) <= Weight(st.open) + ActionsSize(body)
  {
    WeightAdd(st.open, []);
  }

  lemma NewestWeight(st: State)
    requires st.open != [] && st.open[|st.open| - 1] != []
    ensures var n := |st.open| - 1;
            var hs := st.open[n];
            Weight(st.open[..n] + [hs[..|hs| - 1]]) + ActionsSize(hs[|hs| - 1].body) < Weight(st.open)
    ensures Weight(CalledNewest(st).open) < Weight(st.open)
  {
    var n := |st.open| - 1;
    var hs := st.open[n];
    WeightAdd(st.open[..n], hs[..|hs| - 1]);
  }

  lemma SameLast(a: seq<Context>, x: Context, b: seq<Context>, y: Context)
    requires a + [x] == b + [y]
    ensures a == b && x == y
  {
    assert a == (a + [x])[..|a + [x]| - 1];
    assert x == (a + [x])[|a + [x]| - 1];
    assert b == (b + [y])[..|b + [y]| - 1];
  }

  const CXT_SUB := 1
  const G_VOID := 1

  class Interp {
    var cxstack: seq<Context>
    var curcop: nat
    var curop: nat
    var markptr: nat
    var scopeIx: nat
    var curpm: nat
    var sp: nat
    var dyn: Option<ScopeId>   // PL_dynamicscope
    var scopes: Scopes
    var next: ScopeId
    var calls: seq<nat>        // the handlers called so far

    ghost predicate Valid()
      reads this
    {
      && Grounded(scopes) && Linked(scopes, cxstack, dyn)
      && (forall s :: s in scopes ==> s < next)
    }

    /** The open scopes' handlers and the calls so far. */
    ghost function Now(): State
      requires Valid()
      reads this
    {
      State(Open(scopes, dyn), calls)
    }

    ghost function OpenScopes(): set<ScopeId>
      requires Valid()
      reads this
    {
      Chain(scopes, dyn)
    }

    /** Outside all blocks, with no dynamic scope. */
    constructor ()
      ensures Valid() && cxstack == [] && Now() == State([], [])
    {
      cxstack := [];
      curcop, curop, markptr, scopeIx, curpm, sp := 0, 0, 0, 0, 0, 0;
      dyn, scopes, next, calls := None, map[], 0, [];
    }

    method PushBlock(t: nat, oldsp: nat, gimme: nat)
      requires Valid()
      modifies `cxstack, `scopes, `next, `dyn
      ensures Valid() && dyn == Some(old(next)) && old(next) !in old(scopes)
      ensures cxstack == old(cxstack) +
        [Context(t, oldsp, curcop, curop, markptr, scopeIx, curpm, gimme, old(dyn))]
      ensures Now() == State(old(Now()).open + [[]], calls)
      ensures Kept(old(scopes), scopes, {}) && OpenScopes() == old(OpenScopes()) + {old(next)}
    {
      var cx := Context(t, oldsp, curcop, curop, markptr, scopeIx, curpm, gimme, dyn);
      cxstack := cxstack + [cx];
      NewScope(old(cxstack), cx);
    }

    /** The scope of the block that was just pushed. */
    method NewScope(ghost below: seq<Context>, ghost cx: Context)
      requires Grounded(scopes) && Linked(scopes, below, dyn) && (forall s :: s in scopes ==> s < next)
      requires cxstack == below + [cx] && cx.dynascope == dyn
      modifies `scopes, `next, `dyn
      ensures Valid() && dyn == Some(old(next)) && old(next) !in old(scopes)
      ensures Now() == State(Open(old(scopes), old(dyn)) + [[]], calls)
      ensures Kept(old(scopes), scopes, {}) && OpenScopes() == Chain(old(scopes), old(dyn)) + {old(next)}
    {
      ScopePushed(scopes, below, dyn, next, cx);
      scopes := scopes[next := Scope(dyn, [])];
      dyn := Some(next);
      next := next + 1;
    }

    /** Pushing onto the "onleave" array of a dynamic scope. */
    method RegisterHandler(up: nat, h: Handler)
      requires Valid()
      modifies `scopes
      ensures Valid() && Kept(old(scopes), scopes, old(OpenScopes()))
      ensures Now() == State(Registered(old(Now()).open, up, h), calls)
    {
      var s := FindScope(up);
      OpenRegistered(scopes, dyn, up, h);
      if s.Some? {
        AddHandler(s.value, h);
      }
    }

    /** Along the "parent" entries. */
    method FindScope(up: nat) returns (s: Option<ScopeId>)
      requires Valid()
      ensures s == Outer(scopes, dyn, up)
    {
      var i := 0;
      s := dyn;
      while i < up && s.Some?
        invariant 0 <= i <= up && (s.Some? ==> s.value in scopes)
        invariant Outer(scopes, s, up - i) == Outer(scopes, dyn, up)
      {
        s := scopes[s.value].parent;
        i := i + 1;
      }
    }

    method AddHandler(s: ScopeId, h: Handler)
      requires Valid() && s in scopes
      modifies `scopes
      ensures Valid() && scopes == WithHandler(old(scopes), s, h) && Kept(old(scopes), scopes, {s})
    {
      ghost var was := scopes;
      scopes := WithHandler(scopes, s, h);
      assert Kept(was, scopes, {s});
      LinkedKept(was, scopes, {s}, cxstack, dyn);
    }

    /** Run a body inside the current scope. */
    method Exec(acts: seq<Action>)
      requires Valid()
      modifies this
      ensures Valid() && cxstack == old(cxstack) && dyn == old(dyn)
      ensures Kept(old(scopes), scopes, old(OpenScopes())) && OpenScopes() == old(OpenScopes())
      ensures Now() == RunAll(acts, old(Now()))
      decreases Weight(Now().open) + ActionsSize(acts), 2
    {
      if acts != [] {
        ghost var was := scopes;
        assert ActionSize(acts[0]) + ActionsSize(acts[1..]) == ActionsSize(acts);
        Act(acts[0]);
        ghost var mid := scopes;
        Exec(acts[1..]);
        KeptTwice(was, mid, scopes, OpenScopes());
      }
    }

    /** One action. */
    method Act(a: Action)
      requires Valid()
      modifies this
      ensures Valid() && cxstack == old(cxstack) && dyn == old(dyn)
      ensures Kept(old(scopes), scopes, old(OpenScopes())) && OpenScopes() == old(OpenScopes())
      ensures Now() == RunOne(a, old(Now()))
      decreases Weight(Now().open) + ActionSize(a), 0
    {
      match a
      case Register(up, h) =>
        RegisterHandler(up, h);
        ChainKept(old(scopes), scopes, old(OpenScopes()), dyn);
      case Block(kind, gimme, body) =>
        DoBlock(kind, gimme, body);
      case SetCop(cop) =>
        curcop := cop;
      case SetMarks(n) =>
        markptr := n;
      case SetScopes(n) =>
        scopeIx := n;
      case SetPm(pm) =>
        curpm := pm;
    }

    /** Enter a block, run its body, leave it: the registers are as before, and so are the block
        stack and, but for what was registered on them, the dynamic scopes. */
    method DoBlock(kind: nat, gimme: nat, body: seq<Action>)
      requires Valid()
      modifies this
      ensures Valid() && cxstack == old(cxstack) && dyn == old(dyn)
      ensures curcop == old(curcop) && markptr == old(markptr) && scopeIx == old(scopeIx)
      ensures curpm == old(curpm)
      ensures Kept(old(scopes), scopes, old(OpenScopes())) && OpenScopes() == old(OpenScopes())
      ensures Now() == RunBlock(body, old(Now()))
      decreases Weight(Now().open) + ActionsSize(body), 4
    {
      BlockIs(body, Now());
      var pushed := RunInside(kind, gimme, body);
      ghost var inside := scopes;
      var cx := PopBlock();
      curpm := cx.oldpm;
      SameLast(cxstack, cx, old(cxstack), pushed);
      BlockKept(old(scopes), inside, scopes, old(OpenScopes()), old(next), dyn);
    }

    /** Enter a block and run its body. */
    method RunInside(kind: nat, gimme: nat, body: seq<Action>) returns (pushed: Context)
      requires Valid()
      modifies this
      ensures Valid() && dyn == Some(old(next)) && cxstack == old(cxstack) + [pushed]
      ensures pushed == Context(kind, old(sp), old(curcop), old(curop), old(markptr), old(scopeIx), old(curpm),
                                gimme, old(dyn))
      ensures old(next) !in old(scopes) && OpenScopes() == old(OpenScopes()) + {old(next)}
      ensures Kept(old(scopes), scopes, OpenScopes())
      ensures Now() == RunAll(body, State(old(Now()).open + [[]], old(calls)))
      decreases Weight(Now().open) + ActionsSize(body), 3
    {
      WeightAdd(Now().open, []);
      PushBlock(kind, sp, gimme);
      pushed := cxstack[|cxstack| - 1];
      ghost var entered := scopes;
      Exec(body);
      KeptTwice(old(scopes), entered, scopes, OpenScopes());
    }

    /** Take the newest handler off the scope being left. */
    method PopHandler() returns (h: Handler)
      requires Valid() && dyn.Some? && scopes[dyn.value].onleave != []
      modifies `scopes
      ensures Valid() && Kept(old(scopes), scopes, old(OpenScopes())) && OpenScopes() == old(OpenScopes())
      ensures var open, n := old(Now()).open, |old(Now()).open| - 1;
              && 0 <= n && open[n] != [] && h == open[n][|open[n]| - 1]
              && Now() == State(open[..n] + [open[n][..|open[n]| - 1]], calls)
    {
      var s := dyn.value;
      var hs := scopes[s].onleave;
      h := hs[|hs| - 1];
      ghost var was := scopes;
      HandlerPopped(scopes, s);
      scopes := scopes[s := scopes[s].(onleave := hs[..|hs| - 1])];
      LinkedKept(was, scopes, {s}, cxstack, dyn);
      ChainKept(was, scopes, {s}, dyn);
    }

    /** Call the newest handler of the scope being left: call_sv pushes a mark, pp_entersub takes it
        off again and runs the sub in a block of its own. */
    method CallNewest()
      requires Valid() && dyn.Some? && scopes[dyn.value].onleave != []
      modifies this
      ensures Valid() && cxstack == old(cxstack) && dyn == old(dyn)
      ensures Kept(old(scopes), scopes, old(OpenScopes())) && OpenScopes() == old(OpenScopes())
      ensures Now() == CalledNewest(old(Now())) && Weight(Now().open) < Weight(old(Now()).open)
      decreases Weight(Now().open), 0
    {
      NewestWeight(Now());
      ghost var was, st := scopes, Now();
      var h := PopHandler();
      ghost var mid := scopes;
      CallSub(h);
      KeptTwice(was, mid, scopes, OpenScopes());
      assert Now() == CalledNewest(st);
    }

    /** call_sv and pp_entersub. */
    method CallSub(h: Handler)
      requires Valid()
      modifies this
      ensures Valid() && cxstack == old(cxstack) && dyn == old(dyn)
      ensures Kept(old(scopes), scopes, old(OpenScopes())) && OpenScopes() == old(OpenScopes())
      ensures Now() == RunBlock(h.body, State(old(Now()).open, old(calls) + [h.id]))
      decreases Weight(Now().open) + ActionsSize(h.body), 5
    {
      calls := calls + [h.id];
      markptr := markptr + 1;
      markptr := markptr - 1;
      DoBlock(CXT_SUB, G_VOID, h.body);
    }

    /** PopBlock: the handlers are called newest first, including any they register; then the
        registers are put back.  The record is handed to the caller for the rest. */
    method PopBlock() returns (cx: Context)
      requires Valid() && cxstack != []
      modifies this
      ensures Valid() && old(cxstack) == cxstack + [cx]
      ensures curcop == cx.oldcop && markptr == cx.oldmarksp && scopeIx == cx.oldscopesp && dyn == cx.dynascope
      ensures Kept(old(scopes), scopes, old(OpenScopes()))
      ensures old(Now()).open != [] && Now() == LeaveInnermost(old(Now()))
      decreases Weight(Now().open), 2
    {
      CallHandlers();
      cx := RestoreRegisters();
    }

    /** The rest of PopBlock: the record comes off, and its registers and scope are put back. */
    method RestoreRegisters() returns (cx: Context)
      requires Valid() && cxstack != [] && Now().open != []
      modifies `cxstack, `curcop, `markptr, `scopeIx, `dyn
      ensures Valid() && old(cxstack) == cxstack + [cx]
      ensures curcop == cx.oldcop && markptr == cx.oldmarksp && scopeIx == cx.oldscopesp && dyn == cx.dynascope
      ensures Now() == State(old(Now()).open[..|old(Now()).open| - 1], calls)
    {
      cx := cxstack[|cxstack| - 1];
      cxstack := cxstack[..|cxstack| - 1];
      curcop := cx.oldcop;
      markptr := cx.oldmarksp;
      scopeIx := cx.oldscopesp;
      dyn := cx.dynascope;
    }

    /** The loop of PopBlock. */
    method CallHandlers()
      requires Valid() && dyn.Some?
      modifies this
      ensures Valid() && cxstack == old(cxstack) && dyn == old(dyn)
      ensures Kept(old(scopes), scopes, old(OpenScopes())) && OpenScopes() == old(OpenScopes())
      ensures old(Now()).open != [] && Now().open != []
      ensures State(Now().open[..|Now().open| - 1], calls) == LeaveInnermost(old(Now()))
      decreases Weight(Now().open), 1
    {
      ghost var was, chain := Now(), OpenScopes();
      while scopes[dyn.value].onleave != []
        invariant Valid() && cxstack == old(cxstack) && dyn == old(dyn)
        invariant Kept(old(scopes), scopes, chain) && OpenScopes() == chain
        invariant Now().open != [] && LeaveInnermost(Now()) == LeaveInnermost(was)
        invariant Weight(Now().open) <= Weight(was.open)
        decreases Weight(Now().open)
      {
        ghost var mid := scopes;
        LeaveStep(Now());
        CallNewest();
        KeptTwice(old(scopes), mid, scopes, chain);
      }
    }
  }
}
