/**
 On-leave handlers as finite trees: what running code does to the handler lists of the open dynamic
 scopes, and in which order handlers are called when scopes are left (cop_i.h).

 A handler is a sub, and a sub runs in a block of its own: what it registers on the current scope
 is called when the sub returns, what it registers on a parent scope when that one is left.
 */
module LeaveHandlers {
  import opened Basics

  datatype Handler = Handler(id: nat, body: seq<Action>)

  /** What code does that matters here: register a handler on the current dynamic scope or `up`
      scopes further out, run a nested block, or change an interpreter register. */
  datatype Action =
    | Register(up: nat, h: Handler)
    | Block(kind: nat, gimme: nat, body: seq<Action>)
    | SetCop(cop: nat)
    | SetMarks(n: nat)
    | SetScopes(n: nat)
    | SetPm(pm: nat)

  /** The handler lists of the open scopes, outermost first; each list oldest first. */
  type Lists = seq<seq<Handler>>

  datatype State = State(open: Lists, calls: seq<nat>)

  // ---------------------------------------------------------------- sizes

  function HandlerSize(h: Handler): nat
    decreases h, 0
  {
    1 + ActionsSize(h.body)
  }

  function ActionSize(a: Action): nat
    decreases a, 0
  {
    match a
    case Register(_, h) => 1 + HandlerSize(h)
    case Block(_, _, body) => 1 + ActionsSize(body)
    case _ => 1
  }

  function ActionsSize(acts: seq<Action>): nat
    decreases acts, 1
  {
    if acts == [] then 0 else ActionSize(acts[0]) + ActionsSize(acts[1..])
  }

  function HandlersSize(hs: seq<Handler>): nat {
    if hs == [] then 0 else HandlersSize(hs[..|hs| - 1]) + HandlerSize(hs[|hs| - 1])
  }

  function Weight(open: Lists): nat {
    if open == [] then 0 else Weight(open[..|open| - 1]) + HandlersSize(open[|open| - 1])
  }

  lemma HandlersSizeAdd(hs: seq<Handler>, h: Handler)
    ensures HandlersSize(hs + [h]) == HandlersSize(hs) + HandlerSize(h)
  {
    assert (hs + [h])[..|hs|] == hs;
  }

  lemma WeightAdd(open: Lists, hs: seq<Handler>)
    ensures Weight(open + [hs]) == Weight(open) + HandlersSize(hs)
  {
    assert (open + [hs])[..|open|] == open;
  }

  lemma InnermostWeight(open: Lists)
    requires open != []
    ensures var n := |open| - 1; Weight(open) == Weight(open[..n]) + HandlersSize(open[n])
  {
  }

  lemma {:induction false} WeightUpdate(open: Lists, i: nat, hs: seq<Handler>)
    requires i < |open|
    ensures Weight(open[i := hs]) + HandlersSize(open[i]) == Weight(open) + HandlersSize(hs)
  {
    var n := |open| - 1;
    if i == n {
      assert open[i := hs][..n] == open[..n];
    } else {
      assert open[i := hs][..n] == open[..n][i := hs];
      WeightUpdate(open[..n], i, hs);
    }
  }

  // ---------------------------------------------------------------- running

  /** A handler is added to the scope `up` scopes out, if there is one. */
  function Registered(open: Lists, up: nat, h: Handler): (r: Lists)
    ensures |r| == |open| && Weight(r) <= Weight(open) + HandlerSize(h)
  {
    if up < |open| then
      var i := |open| - 1 - up;
      HandlersSizeAdd(open[i], h);
      WeightUpdate(open, i, open[i] + [h]);
      open[i := open[i] + [h]]
    else open
  }

  function RunAll(acts: seq<Action>, st: State): (r: State)
    ensures |r.open| == |st.open| && Weight(r.open) <= Weight(st.open) + ActionsSize(acts)
    decreases Weight(st.open) + ActionsSize(acts), 1
  {
    if acts == [] then st
    else
      assert ActionSize(acts[0]) + ActionsSize(acts[1..]) == ActionsSize(acts);
      RunAll(acts[1..], RunOne(acts[0], st))
  }

  function RunOne(a: Action, st: State): (r: State)
    ensures |r.open| == |st.open| && Weight(r.open) < Weight(st.open) + ActionSize(a)
    decreases Weight(st.open) + ActionSize(a), 0
  {
    match a
    case Register(up, h) => State(Registered(st.open, up, h), st.calls)
    case Block(_, _, body) => RunBlock(body, st)
    case _ => st
  }

  /** A block: its own scope is opened, its body run, and the scope left. */
  function RunBlock(body: seq<Action>, st: State): (r: State)
    ensures |r.open| == |st.open| && Weight(r.open) <= Weight(st.open) + ActionsSize(body)
    decreases Weight(st.open) + ActionsSize(body), 3
  {
    var n := |st.open|;
    WeightAdd(st.open, []);
    var s := RunAll(body, State(st.open + [[]], st.calls));
    InnermostWeight(s.open);
    Leave(s.open[..n], s.open[n], s.calls)
  }

  /** Leaving a scope with handlers `hs` inside the scopes `outer`: the newest handler is called, then
      whatever is the newest by then. */
  function Leave(outer: Lists, hs: seq<Handler>, calls: seq<nat>): (r: State)
    ensures |r.open| == |outer| && Weight(r.open) <= Weight(outer) + HandlersSize(hs)
    decreases Weight(outer) + HandlersSize(hs), 2
  {
    if hs == [] then State(outer, calls)
    else
      var h, init, n := hs[|hs| - 1], hs[..|hs| - 1], |outer|;
      WeightAdd(outer, init);
      var s := RunBlock(h.body, State(outer + [init], calls + [h.id]));
      InnermostWeight(s.open);
      Leave(s.open[..n], s.open[n], s.calls)
  }

  // ---------------------------------------------------------------- every handler exactly once

  function Times(calls: seq<nat>, id: nat): nat {
    if calls == [] then 0 else Times(calls[..|calls| - 1], id) + if calls[|calls| - 1] == id then 1 else 0
  }

  /** How often handlers called `id` occur in a tree that runs with `d` scopes open, not counting
      those registered where there is no scope. */
  function InHandler(h: Handler, id: nat, d: nat): nat
    decreases h, 0
  {
    (if h.id == id then 1 else 0) + InActions(h.body, id, d + 1)
  }

  function InAction(a: Action, id: nat, d: nat): nat
    decreases a, 0
  {
    match a
    case Register(up, h) => if up < d then InHandler(h, id, d - up) else 0
    case Block(_, _, body) => InActions(body, id, d + 1)
    case _ => 0
  }

  function InActions(acts: seq<Action>, id: nat, d: nat): nat
    decreases acts, 1
  {
    if acts == [] then 0 else InAction(acts[0], id, d) + InActions(acts[1..], id, d)
  }

  function InHandlers(hs: seq<Handler>, id: nat, d: nat): nat {
    if hs == [] then 0 else InHandlers(hs[..|hs| - 1], id, d) + InHandler(hs[|hs| - 1], id, d)
  }

  function InLists(open: Lists, id: nat): nat {
    if open == [] then 0 else InLists(open[..|open| - 1], id) + InHandlers(open[|open| - 1], id, |open|)
  }

  lemma InListsAdd(open: Lists, hs: seq<Handler>, id: nat)
    ensures InLists(open + [hs], id) == InLists(open, id) + InHandlers(hs, id, |open| + 1)
  {
    assert (open + [hs])[..|open|] == open;
  }

  lemma InnermostCounts(open: Lists, id: nat)
    requires open != []
    ensures var n := |open| - 1;
            && Weight(open) == Weight(open[..n]) + HandlersSize(open[n])
            && InLists(open, id) == InLists(open[..n], id) + InHandlers(open[n], id, n + 1)
  {
  }

  lemma {:induction false} InListsUpdate(open: Lists, i: nat, hs: seq<Handler>, id: nat)
    requires i < |open|
    ensures InLists(open[i := hs], id) + InHandlers(open[i], id, i + 1) ==
            InLists(open, id) + InHandlers(hs, id, i + 1)
  {
    var n := |open| - 1;
    if i == n {
      assert open[i := hs][..n] == open[..n];
    } else {
      assert open[i := hs][..n] == open[..n][i := hs];
      InListsUpdate(open[..n], i, hs, id);
    }
  }

  lemma RegisteredCounts(open: Lists, up: nat, h: Handler, id: nat)
    ensures InLists(Registered(open, up, h), id) ==
            InLists(open, id) + if up < |open| then InHandler(h, id, |open| - up) else 0
  {
    if up < |open| {
      var i := |open| - 1 - up;
      var hs := open[i] + [h];
      InListsUpdate(open, i, hs, id);
      assert hs[..|hs| - 1] == open[i];
    }
  }

  /** All handlers called `id` of a state: those called and those still to be called. */
  function All(st: State, id: nat): nat {
    Times(st.calls, id) + InLists(st.open, id)
  }

  /** Running code calls each handler that gets registered once, or leaves it registered. */
  lemma {:induction false} EachOnceRunning(acts: seq<Action>, st: State, id: nat)
    ensures All(RunAll(acts, st), id) == All(st, id) + InActions(acts, id, |st.open|)
    decreases Weight(st.open) + ActionsSize(acts), 1
  {
    if acts != [] {
      assert ActionSize(acts[0]) + ActionsSize(acts[1..]) == ActionsSize(acts);
      EachOnceAction(acts[0], st, id);
      EachOnceRunning(acts[1..], RunOne(acts[0], st), id);
    }
  }

  lemma {:induction false} EachOnceAction(a: Action, st: State, id: nat)
    ensures All(RunOne(a, st), id) == All(st, id) + InAction(a, id, |st.open|)
    decreases Weight(st.open) + ActionSize(a), 0
  {
    match a
    case Register(up, h) => RegisteredCounts(st.open, up, h, id);
    case Block(_, _, body) => EachOnceInBlock(body, st, id);
    case _ =>
  }

  lemma {:induction false} EachOnceInBlock(body: seq<Action>, st: State, id: nat)
    ensures All(RunBlock(body, st), id) == All(st, id) + InActions(body, id, |st.open| + 1)
    decreases Weight(st.open) + ActionsSize(body), 3
  {
    var n := |st.open|;
    WeightAdd(st.open, []);
    InListsAdd(st.open, [], id);
    var s := RunAll(body, State(st.open + [[]], st.calls));
    EachOnceRunning(body, State(st.open + [[]], st.calls), id);
    InnermostCounts(s.open, id);
    EachOnceOnLeaving(s.open[..n], s.open[n], s.calls, id);
  }

  /** Leaving a scope calls its handlers once each, and what they register is called once too or
      left to the scopes outside. */
  lemma {:induction false} EachOnceOnLeaving(outer: Lists, hs: seq<Handler>, calls: seq<nat>, id: nat)
    ensures All(Leave(outer, hs, calls), id) ==
            Times(calls, id) + InLists(outer, id) + InHandlers(hs, id, |outer| + 1)
    decreases Weight(outer) + HandlersSize(hs), 2
  {
    if hs != [] {
      var h, init, n := hs[|hs| - 1], hs[..|hs| - 1], |outer|;
      WeightAdd(outer, init);
      InListsAdd(outer, init, id);
      var s := RunBlock(h.body, State(outer + [init], calls + [h.id]));
      EachOnceInBlock(h.body, State(outer + [init], calls + [h.id]), id);
      assert (calls + [h.id])[..|calls|] == calls;
      InnermostCounts(s.open, id);
      EachOnceOnLeaving(s.open[..n], s.open[n], s.calls, id);
    }
  }

  /** A whole program, from outside all scopes: every handler that is registered is called once. */
  lemma BlockCallsEachOnce(body: seq<Action>, id: nat)
    ensures Times(RunBlock(body, State([], [])).calls, id) == InActions(body, id, 1)
  {
    EachOnceInBlock(body, State([], []), id);
  }

  // ---------------------------------------------------------------- newest first

  /** The list of scope `i` with older handlers `a` in front. */
  function Under(open: Lists, i: nat, a: seq<Handler>): Lists
    requires i < |open|
  {
    open[i := a + open[i]]
  }

  /** Older handlers make no difference to running code, and stay as they are. */
  lemma {:induction false} RunAllUnder(acts: seq<Action>, st: State, i: nat, a: seq<Handler>)
    requires i < |st.open|
    ensures RunAll(acts, State(Under(st.open, i, a), st.calls)) ==
            State(Under(RunAll(acts, st).open, i, a), RunAll(acts, st).calls)
    decreases Weight(st.open) + ActionsSize(acts), 1
  {
    if acts != [] {
      assert ActionSize(acts[0]) + ActionsSize(acts[1..]) == ActionsSize(acts);
      RunOneUnder(acts[0], st, i, a);
      RunAllUnder(acts[1..], RunOne(acts[0], st), i, a);
    }
  }

  lemma {:induction false} RunOneUnder(act: Action, st: State, i: nat, a: seq<Handler>)
    requires i < |st.open|
    ensures RunOne(act, State(Under(st.open, i, a), st.calls)) ==
            State(Under(RunOne(act, st).open, i, a), RunOne(act, st).calls)
    decreases Weight(st.open) + ActionSize(act), 0
  {
    match act
    case Register(up, h) =>
      if up < |st.open| && i == |st.open| - 1 - up {
        Associate(a, st.open[i], [h]);
      }
    case Block(_, _, body) => RunBlockUnder(body, st, i, a);
    case _ =>
  }

  lemma {:induction false} RunBlockUnder(body: seq<Action>, st: State, i: nat, a: seq<Handler>)
    requires i < |st.open|
    ensures RunBlock(body, State(Under(st.open, i, a), st.calls)) ==
            State(Under(RunBlock(body, st).open, i, a), RunBlock(body, st).calls)
    decreases Weight(st.open) + ActionsSize(body), 3
  {
    var n := |st.open|;
    WeightAdd(st.open, []);
    var s := RunAll(body, State(st.open + [[]], st.calls));
    RunAllUnder(body, State(st.open + [[]], st.calls), i, a);
    assert Under(st.open, i, a) + [[]] == Under(st.open + [[]], i, a);
    InnermostWeight(s.open);
    LeaveUnder(s.open[..n], s.open[n], s.calls, i, a);
    assert Under(s.open, i, a)[..n] == Under(s.open[..n], i, a);
  }

  lemma {:induction false} LeaveUnder(outer: Lists, hs: seq<Handler>, calls: seq<nat>, i: nat, a: seq<Handler>)
    requires i < |outer|
    ensures Leave(Under(outer, i, a), hs, calls) ==
            State(Under(Leave(outer, hs, calls).open, i, a), Leave(outer, hs, calls).calls)
    decreases Weight(outer) + HandlersSize(hs), 2
  {
    if hs != [] {
      var h, init, n := hs[|hs| - 1], hs[..|hs| - 1], |outer|;
      WeightAdd(outer, init);
      var s := RunBlock(h.body, State(outer + [init], calls + [h.id]));
      RunBlockUnder(h.body, State(outer + [init], calls + [h.id]), i, a);
      assert Under(outer, i, a) + [init] == Under(outer + [init], i, a);
      InnermostWeight(s.open);
      LeaveUnder(s.open[..n], s.open[n], s.calls, i, a);
      assert Under(s.open, i, a)[..n] == Under(s.open[..n], i, a);
    }
  }

  /** Newest first: leaving a scope calls its newer handlers `b`, and everything that they register
      on the scope, before any of its older handlers `a`. */
  lemma {:induction false} LeaveNewestFirst(outer: Lists, a: seq<Handler>, b: seq<Handler>, calls: seq<nat>)
    ensures var s := Leave(outer, b, calls);
            Leave(outer, a + b, calls) == Leave(s.open, a, s.calls)
    decreases Weight(outer) + HandlersSize(b)
  {
    if b == [] {
      assert a + b == a;
    } else {
      var h, init, n := b[|b| - 1], b[..|b| - 1], |outer|;
      WeightAdd(outer, init);
      var s := RunBlock(h.body, State(outer + [init], calls + [h.id]));
      RunBlockUnder(h.body, State(outer + [init], calls + [h.id]), n, a);
      assert (a + b)[..|a + b| - 1] == a + init;
      assert outer + [a + init] == Under(outer + [init], n, a);
      InnermostWeight(s.open);
      assert Under(s.open, n, a)[..n] == s.open[..n];
      LeaveNewestFirst(s.open[..n], a, s.open[n], s.calls);
    }
  }

  // ---------------------------------------------------------------- what is called when

  ghost predicate Leaves(hs: seq<Handler>) {
    forall i :: 0 <= i < |hs| ==> hs[i].body == []
  }

  ghost function Backwards(hs: seq<Handler>): seq<nat> {
    seq(|hs|, i requires 0 <= i < |hs| => hs[|hs| - 1 - i].id)
  }

  lemma EmptyBlock(st: State)
    ensures RunBlock([], st) == st
  {
    assert (st.open + [[]])[..|st.open|] == st.open;
  }

  /** Handlers that do nothing are called from the newest to the oldest. */
  lemma {:induction false} LeavesBackwards(outer: Lists, hs: seq<Handler>, calls: seq<nat>)
    requires Leaves(hs)
    ensures Leave(outer, hs, calls) == State(outer, calls + Backwards(hs))
    decreases |hs|
  {
    if hs == [] {
      assert calls + Backwards(hs) == calls;
    } else {
      var h, init, n := hs[|hs| - 1], hs[..|hs| - 1], |outer|;
      EmptyBlock(State(outer + [init], calls + [h.id]));
      assert (outer + [init])[..n] == outer;
      LeavesBackwards(outer, init, calls + [h.id]);
      assert calls + [h.id] + Backwards(init) == calls + Backwards(hs);
    }
  }

  /** A handler called on leaving is called before anything it registers: what it registers on its
      own scope is called when it returns; what it registers on the scope being left comes after that
      and before that scope's older handlers; what it registers further out stays there. */
  lemma HandlerScopes(outer: Lists, hs: seq<Handler>, calls: seq<nat>, h: Handler, x: Handler, y: Handler, z: Handler)
    requires Leaves(hs + [y]) && x.body == [] && h.body == [Register(0, x), Register(1, y), Register(2, z)]
    requires outer != []
    ensures var n := |outer| - 1;
            Leave(outer, hs + [h], calls) ==
            State(outer[n := outer[n] + [z]], calls + [h.id, x.id, y.id] + Backwards(hs))
  {
    var n := |outer| - 1;
    var out := outer[n := outer[n] + [z]];
    var called := calls + [h.id] + [x.id];
    OneHandler(outer, hs, calls + [h.id], x, y, z);
    LeaveNewest(outer, hs, h, calls, out, hs + [y], called);
    LeavesBackwards(out, hs + [y], called);
    CalledInOrder(hs, calls, h.id, x.id, y);
  }

  lemma CalledInOrder(hs: seq<Handler>, calls: seq<nat>, h: nat, x: nat, y: Handler)
    ensures calls + [h] + [x] + Backwards(hs + [y]) == calls + [h, x, y.id] + Backwards(hs)
  {
    BackwardsAdd(hs, y);
    assert calls + [h] + [x] + ([y.id] + Backwards(hs)) == calls + [h, x, y.id] + Backwards(hs);
  }

  lemma LeaveNewest(outer: Lists, hs: seq<Handler>, h: Handler, calls: seq<nat>,
                    out: Lists, rest: seq<Handler>, called: seq<nat>)
    requires |out| == |outer|
    requires RunBlock(h.body, State(outer + [hs], calls + [h.id])) == State(out + [rest], called)
    ensures Leave(outer, hs + [h], calls) == Leave(out, rest, called)
  {
    assert (hs + [h])[..|hs|] == hs;
    assert (out + [rest])[..|outer|] == out;
  }

  lemma BackwardsAdd(hs: seq<Handler>, y: Handler)
    ensures Backwards(hs + [y]) == [y.id] + Backwards(hs)
  {
  }

  lemma OneHandler(outer: Lists, hs: seq<Handler>, calls: seq<nat>, x: Handler, y: Handler, z: Handler)
    requires x.body == [] && outer != []
    ensures var n := |outer| - 1;
            RunBlock([Register(0, x), Register(1, y), Register(2, z)], State(outer + [hs], calls)) ==
            State(outer[n := outer[n] + [z]] + [hs + [y]], calls + [x.id])
  {
    var n := |outer| - 1;
    var acts := [Register(0, x), Register(1, y), Register(2, z)];
    var open := outer + [hs] + [[]];
    var out := outer[n := outer[n] + [z]];
    RunThree(acts[0], acts[1], acts[2], State(open, calls));
    var s := RunAll(acts, State(open, calls));
    assert s.open == out + [hs + [y]] + [[x]];
    assert s.open[..|outer| + 1] == out + [hs + [y]];
    LeavesBackwards(out + [hs + [y]], [x], calls);
    assert Backwards([x]) == [x.id];
  }

  lemma RunThree(a: Action, b: Action, c: Action, st: State)
    ensures RunAll([a, b, c], st) == RunOne(c, RunOne(b, RunOne(a, st)))
  {
    assert [a, b, c][1..] == [b, c] && [b, c][1..] == [c] && [c][1..] == [];
    var s := RunOne(b, RunOne(a, st));
    assert RunAll([], RunOne(c, s)) == RunOne(c, s);
    assert RunAll([c], s) == RunOne(c, s);
    assert RunAll([b, c], RunOne(a, st)) == RunAll([c], s);
  }
}
