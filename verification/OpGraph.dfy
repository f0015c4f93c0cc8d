/**
 Op graphs as the op sequencer sees them (dump.c): each op has a successor in execution order and
 perhaps branches; the graph may be cyclic.
 */
module OpGraph {
  import opened Basics

  type OpId = nat

  datatype Kind =
    | Null                                    // OP_NULL: never numbered
    | Unnumbered                              // OP_QR, OP_MATCH, OP_HELEM: never numbered
    | Quiet                                   // OP_SCALAR, OP_LINESEQ, OP_SCOPE, OP_STUB in list context
    | Plain                                   // everything else without branches
    | Branching(tails: seq<Option<OpId>>)     // logical ops, loops, OP_SUBST

  datatype Op = Op(kind: Kind, next: Option<OpId>)

  type Graph = map<OpId, Op>

  ghost predicate InGraph(g: Graph, o: Option<OpId>) {
    o.Some? ==> o.value in g
  }

  function Tails(op: Op): seq<Option<OpId>> {
    if op.kind.Branching? then op.kind.tails else []
  }

  ghost predicate Closed(g: Graph) {
    forall o :: o in g ==> InGraph(g, g[o].next) && forall t :: t in Tails(g[o]) ==> InGraph(g, t)
  }

  /** Ops that a walk may pass without numbering them. */
  predicate Lazy(op: Op) {
    op.kind.Null? || op.kind.Unnumbered? || op.kind.Quiet?
  }

  // ---------------------------------------------------------------- termination

  /** The op reached in `k` steps along op_next, all of them from lazy ops. */
  ghost function Hop(g: Graph, o: OpId, k: nat): Option<OpId>
    requires Closed(g) && o in g
    ensures InGraph(g, Hop(g, o, k))
    decreases k
  {
    if k == 0 then Some(o)
    else if Lazy(g[o]) && g[o].next.Some? then Hop(g, g[o].next.value, k - 1)
    else None
  }

  ghost predicate OnCycle(g: Graph, o: OpId)
    requires Closed(g) && o in g
  {
    exists k: nat :: k > 0 && Hop(g, o, k) == Some(o)
  }

  /** Every op_next cycle contains an op that is always numbered. */
  ghost predicate NoLazyCycle(g: Graph)
    requires Closed(g)
  {
    forall o :: o in g ==> !OnCycle(g, o)
  }

  /** The lazy walk from `o` comes to a lazy cycle. */
  ghost predicate MeetsCycle(g: Graph, o: OpId)
    requires Closed(g) && o in g
  {
    exists i: nat :: Hop(g, o, i).Some? && OnCycle(g, Hop(g, o, i).value)
  }

  lemma {:induction false} HopAdd(g: Graph, o: OpId, i: nat, j: nat)
    requires Closed(g) && o in g
    ensures Hop(g, o, i + j) == if Hop(g, o, i).Some? then Hop(g, Hop(g, o, i).value, j) else None
    decreases i
  {
    if i > 0 && Lazy(g[o]) && g[o].next.Some? {
      HopAdd(g, g[o].next.value, i - 1, j);
    }
  }

  /** The first `k` ops of a lazy walk, which are all different. */
  ghost function Visited(g: Graph, o: OpId, k: nat): set<OpId>
    requires Closed(g) && o in g
  {
    if k == 0 then {}
    else Visited(g, o, k - 1) + if Hop(g, o, k - 1).Some? then {Hop(g, o, k - 1).value} else {}
  }

  lemma {:induction false} VisitedAre(g: Graph, o: OpId, k: nat, x: OpId)
    requires Closed(g) && o in g && x in Visited(g, o, k)
    ensures x in g && exists i: nat :: i < k && Hop(g, o, i) == Some(x)
  {
    if x in Visited(g, o, k - 1) {
      VisitedAre(g, o, k - 1, x);
    }
  }

  lemma VisitedIsNew(g: Graph, o: OpId, k: nat)
    requires Closed(g) && o in g && !MeetsCycle(g, o) && Hop(g, o, k).Some?
    ensures Hop(g, o, k).value !in Visited(g, o, k)
  {
    var x := Hop(g, o, k).value;
    if x in Visited(g, o, k) {
      VisitedAre(g, o, k, x);
      var i: nat :| i < k && Hop(g, o, i) == Some(x);
      HopAdd(g, o, i, k - i);
    }
  }

  lemma {:induction false} VisitedCount(g: Graph, o: OpId, k: nat)
    requires Closed(g) && o in g && !MeetsCycle(g, o) && Hop(g, o, k).Some?
    ensures |Visited(g, o, k + 1)| == k + 1
  {
    VisitedIsNew(g, o, k);
    if k > 0 {
      HopAdd(g, o, k - 1, 1);
      VisitedCount(g, o, k - 1);
    }
  }

  lemma SubsetSize(a: set<OpId>, b: set<OpId>)
    requires a <= b
    ensures |a| <= |b|
  {
    assert b == a + (b - a);
    assert |b| == |a| + |b - a|;
  }

  /** A lazy walk that comes to no lazy cycle ends within as many steps as there are ops. */
  lemma LazyWalkEnds(g: Graph, o: OpId)
    requires Closed(g) && o in g && !MeetsCycle(g, o)
    ensures Hop(g, o, |g|).None?
  {
    if Hop(g, o, |g|).Some? {
      VisitedCount(g, o, |g|);
      forall x | x in Visited(g, o, |g| + 1) ensures x in g.Keys {
        VisitedAre(g, o, |g| + 1, x);
      }
      SubsetSize(Visited(g, o, |g| + 1), g.Keys);
    }
  }

  /** Conversely, any ranking that falls along lazy ops rules out lazy cycles. */
  lemma {:induction false} RankingRulesOutCycles(g: Graph, rank: map<OpId, nat>, o: OpId, k: nat)
    requires Closed(g) && g.Keys <= rank.Keys && o in g
    requires forall x :: x in g && Lazy(g[x]) && g[x].next.Some? ==> rank[g[x].next.value] < rank[x]
    ensures k > 0 && Hop(g, o, k).Some? ==> rank[Hop(g, o, k).value] < rank[o]
    ensures k > 0 ==> Hop(g, o, k) != Some(o)
    decreases k
  {
    if k > 1 && Lazy(g[o]) && g[o].next.Some? {
      RankingRulesOutCycles(g, rank, g[o].next.value, k - 1);
    }
  }

  lemma {:induction false} CycleNeverEnds(g: Graph, o: OpId, k: nat, n: nat)
    requires Closed(g) && o in g && k > 0 && Hop(g, o, k) == Some(o)
    ensures Hop(g, o, n).Some?
    decreases n
  {
    if n <= k {
      HopAdd(g, o, n, k - n);
    } else {
      CycleNeverEnds(g, o, k, n - k);
      HopAdd(g, o, k, n - k);
    }
  }

  /** A lazy walk ends if and only if it comes to no lazy cycle. */
  lemma LazyWalkEndsExactly(g: Graph, o: OpId)
    requires Closed(g) && o in g
    ensures Hop(g, o, |g|).None? <==> !MeetsCycle(g, o)
    ensures (exists n: nat :: Hop(g, o, n).None?) <==> !MeetsCycle(g, o)
  {
    if MeetsCycle(g, o) {
      var i: nat :| Hop(g, o, i).Some? && OnCycle(g, Hop(g, o, i).value);
      var x := Hop(g, o, i).value;
      var k: nat :| k > 0 && Hop(g, x, k) == Some(x);
      forall n: nat ensures Hop(g, o, n).Some? {
        if n >= i {
          CycleNeverEnds(g, x, k, n - i);
          HopAdd(g, o, i, n - i);
        } else {
          HopAdd(g, o, n, i - n);
        }
      }
    } else {
      LazyWalkEnds(g, o);
    }
  }

  // ---------------------------------------------------------------- the loop of S_sequence

  /** S_sequence_tail is skipping null ops, or S_sequence has just begun (oldop is null), or it has
      got past an op. */
  datatype Phase = Skipping | Starting | Going

  /** Skipping does not ask whether an op is numbered. */
  predicate Skips(op: Op, ph: Phase) {
    ph.Skipping? && op.kind.Null?
  }

  /** The ops that are passed without being numbered. */
  predicate Passed(op: Op, ph: Phase) {
    op.kind.Null? || op.kind.Unnumbered? || (op.kind.Quiet? && ph.Going? && op.next.Some?)
  }

  function Onward(op: Op, ph: Phase): Phase {
    if Skips(op, ph) then Skipping else Going
  }

  /** Where the loop is after passing `n` ops, the ops in `s` being numbered; nowhere, if it has ended
      or come to an op that it numbers. */
  ghost function Loop(g: Graph, s: set<OpId>, o: OpId, ph: Phase, n: nat): (r: Option<OpId>)
    requires Closed(g) && o in g
    ensures InGraph(g, r)
    decreases n
  {
    if n == 0 then Some(o)
    else if (Skips(g[o], ph) || o !in s) && Passed(g[o], ph) && g[o].next.Some?
    then Loop(g, s, g[o].next.value, Onward(g[o], ph), n - 1)
    else None
  }

  ghost predicate Endless(g: Graph, s: set<OpId>, o: OpId, ph: Phase)
    requires Closed(g) && o in g
  {
    forall n: nat :: Loop(g, s, o, ph, n).Some?
  }

  /** The graph in which the numbered ops end every lazy walk. */
  function Stopped(g: Graph, s: set<OpId>): Graph {
    map x | x in g :: if x in s then g[x].(kind := Plain) else g[x]
  }

  lemma StoppedClosed(g: Graph, s: set<OpId>)
    requires Closed(g)
    ensures Closed(Stopped(g, s)) && Stopped(g, s).Keys == g.Keys && |Stopped(g, s)| == |g|
  {
    assert Stopped(g, s).Keys == g.Keys;
  }

  /** Once it is going, the loop is a lazy walk up to a numbered op. */
  lemma {:induction false} LoopIsHop(g: Graph, s: set<OpId>, o: OpId, n: nat)
    requires Closed(g) && o in g
    ensures Closed(Stopped(g, s)) && Loop(g, s, o, Going, n) == Hop(Stopped(g, s), o, n)
    decreases n
  {
    StoppedClosed(g, s);
    if n > 0 && o !in s && Passed(g[o], Going) && g[o].next.Some? {
      LoopIsHop(g, s, g[o].next.value, n - 1);
    }
  }

  /** In any phase it is part of one. */
  lemma {:induction false} LoopHops(g: Graph, s: set<OpId>, o: OpId, ph: Phase, n: nat)
    requires Closed(g) && o in g && (forall x :: x in s && x in g ==> !g[x].kind.Null?)
    requires Loop(g, s, o, ph, n).Some?
    ensures Closed(Stopped(g, s)) && Hop(Stopped(g, s), o, n) == Loop(g, s, o, ph, n)
    decreases n
  {
    StoppedClosed(g, s);
    if n > 0 {
      LoopHops(g, s, g[o].next.value, Onward(g[o], ph), n - 1);
    }
  }

  /** The loop goes on for ever exactly when it passes an op and comes from there to a cycle of ops
      that are lazy and not numbered. */
  lemma EndlessExactly(g: Graph, s: set<OpId>, o: OpId, ph: Phase)
    requires Closed(g) && o in g && !ph.Skipping?
    ensures Closed(Stopped(g, s)) && (g[o].next.Some? ==> g[o].next.value in Stopped(g, s))
    ensures Endless(g, s, o, ph) <==>
              && o !in s && Passed(g[o], ph) && g[o].next.Some?
              && MeetsCycle(Stopped(g, s), g[o].next.value)
  {
    StoppedClosed(g, s);
    if o !in s && Passed(g[o], ph) && g[o].next.Some? {
      var y := g[o].next.value;
      forall n: nat ensures Loop(g, s, o, ph, n + 1) == Hop(Stopped(g, s), y, n) {
        LoopIsHop(g, s, y, n);
      }
      LazyWalkEndsExactly(Stopped(g, s), y);
      if !Endless(g, s, o, ph) {
        var n: nat :| Loop(g, s, o, ph, n).None?;
        assert Hop(Stopped(g, s), y, n - 1).None?;
      }
    } else {
      assert Loop(g, s, o, ph, 1).None?;
    }
  }

  /** From no op, once it is going, does the loop go on for ever, if and only if every cycle of lazy
      ops has a numbered one. */
  lemma LoopsEndExactly(g: Graph, s: set<OpId>)
    requires Closed(g)
    ensures Closed(Stopped(g, s))
    ensures NoLazyCycle(Stopped(g, s)) <==> forall o :: o in g ==> !Endless(g, s, o, Going)
  {
    StoppedClosed(g, s);
    var h := Stopped(g, s);
    if NoLazyCycle(h) {
      forall o | o in g ensures !Endless(g, s, o, Going) {
        LazyWalkEnds(h, o);
        LoopIsHop(g, s, o, |h|);
      }
    } else {
      var o, k: nat :| o in h && k > 0 && Hop(h, o, k) == Some(o);
      forall n: nat ensures Loop(g, s, o, Going, n).Some? {
        CycleNeverEnds(h, o, k, n);
        LoopIsHop(g, s, o, n);
      }
    }
  }

  /** Numbering more ops breaks more cycles. */
  lemma {:induction false} StoppedHop(g: Graph, s: set<OpId>, t: set<OpId>, o: OpId, n: nat)
    requires Closed(g) && o in g && s <= t && Closed(Stopped(g, s)) && Closed(Stopped(g, t))
    requires Hop(Stopped(g, t), o, n).Some?
    ensures Hop(Stopped(g, s), o, n) == Hop(Stopped(g, t), o, n)
    decreases n
  {
    if n > 0 {
      StoppedHop(g, s, t, g[o].next.value, n - 1);
    }
  }

  lemma StoppedMore(g: Graph, s: set<OpId>, t: set<OpId>)
    requires Closed(g) && s <= t && Closed(Stopped(g, s)) && NoLazyCycle(Stopped(g, s))
    ensures Closed(Stopped(g, t)) && NoLazyCycle(Stopped(g, t))
  {
    StoppedClosed(g, t);
    if o, k: nat :| o in Stopped(g, t) && k > 0 && Hop(Stopped(g, t), o, k) == Some(o) {
      StoppedHop(g, s, t, o, k);
    }
  }

  // ---------------------------------------------------------------- settled walks

  /** A walk from `o` passes at most `n` ops, and then meets a numbered one or the end. */
  ghost predicate SettledIn(g: Graph, s: set<OpId>, o: Option<OpId>, ph: Phase, n: nat)
    requires Closed(g) && InGraph(g, o)
    decreases n
  {
    o.None? || (!Skips(g[o.value], ph) && o.value in s) ||
    (n > 0 && Passed(g[o.value], ph) && SettledIn(g, s, g[o.value].next, Onward(g[o.value], ph), n - 1))
  }

  ghost predicate Settled(g: Graph, s: set<OpId>, o: Option<OpId>, ph: Phase)
    requires Closed(g) && InGraph(g, o)
  {
    exists n: nat :: SettledIn(g, s, o, ph, n)
  }

  lemma {:induction false} SettledGrows(g: Graph, s: set<OpId>, t: set<OpId>, o: Option<OpId>, ph: Phase, ph': Phase,
                                        n: nat)
    requires Closed(g) && InGraph(g, o) && s <= t && (ph' == ph || ph'.Going?) && SettledIn(g, s, o, ph, n)
    ensures SettledIn(g, t, o, ph', n)
    decreases n
  {
    if o.Some? && (Skips(g[o.value], ph') || o.value !in t) {
      SettledGrows(g, s, t, g[o.value].next, Onward(g[o.value], ph), Onward(g[o.value], ph'), n - 1);
    }
  }

  lemma SettledStays(g: Graph, s: set<OpId>, t: set<OpId>, o: Option<OpId>, ph: Phase, ph': Phase)
    requires Closed(g) && InGraph(g, o) && s <= t && (ph' == ph || ph'.Going?) && Settled(g, s, o, ph)
    ensures Settled(g, t, o, ph')
  {
    var n: nat :| SettledIn(g, s, o, ph, n);
    SettledGrows(g, s, t, o, ph, ph', n);
  }

  /** Passing an op does not unsettle a walk, and a walk is settled at a numbered op. */
  lemma SettledBefore(g: Graph, s: set<OpId>, o: OpId, ph: Phase)
    requires Closed(g) && o in g
    ensures !Skips(g[o], ph) && o in s ==> Settled(g, s, Some(o), ph)
    ensures Passed(g[o], ph) && Settled(g, s, g[o].next, Onward(g[o], ph)) ==> Settled(g, s, Some(o), ph)
  {
    if !Skips(g[o], ph) && o in s {
      assert SettledIn(g, s, Some(o), ph, 0);
    } else if Passed(g[o], ph) && Settled(g, s, g[o].next, Onward(g[o], ph)) {
      var n: nat :| SettledIn(g, s, g[o].next, Onward(g[o], ph), n);
      assert SettledIn(g, s, Some(o), ph, n + 1);
    }
  }

  lemma SettledAtEnd(g: Graph, s: set<OpId>, ph: Phase)
    requires Closed(g)
    ensures Settled(g, s, None, ph)
  {
    assert SettledIn(g, s, None, ph, 0);
  }

  /** Nothing is left to do behind a numbered op. */
  ghost predicate Done(g: Graph, s: set<OpId>, x: OpId)
    requires Closed(g) && x in g
  {
    Settled(g, s, g[x].next, Going) && forall t :: t in Tails(g[x]) ==> Settled(g, s, t, Skipping)
  }

  lemma DoneGrows(g: Graph, s: set<OpId>, t: set<OpId>, x: OpId)
    requires Closed(g) && x in g && s <= t && Done(g, s, x)
    ensures Done(g, t, x)
  {
    SettledStays(g, s, t, g[x].next, Going, Going);
    forall u | u in Tails(g[x]) ensures Settled(g, t, u, Skipping) {
      SettledStays(g, s, t, u, Skipping, Skipping);
    }
  }

  // ---------------------------------------------------------------- coverage

  ghost predicate Edge(g: Graph, x: OpId, y: OpId)
    requires x in g
  {
    g[x].next == Some(y) || (g[x].kind.Branching? && Some(y) in g[x].kind.tails)
  }

  ghost predicate Path(g: Graph, p: seq<OpId>) {
    p != [] && (forall x :: x in p ==> x in g) && forall i :: 0 <= i < |p| - 1 ==> Edge(g, p[i], p[i + 1])
  }

  /** Ops that get a number wherever they are reached: all but null ops, match ops and quiet ops that
      have a successor. */
  predicate MustNumber(op: Op) {
    match op.kind
    case Null => false
    case Unnumbered => false
    case Quiet => op.next == None
    case Plain => true
    case Branching(_) => true
  }

  /** If a walk from the start of a path is settled and every numbered op is done, then every op of
      the path that must be numbered is. */
  lemma {:induction false} PathIsNumbered(g: Graph, s: set<OpId>, p: seq<OpId>)
    requires Closed(g) && Path(g, p) && s <= g.Keys
    requires forall x :: x in s ==> Done(g, s, x)
    requires Settled(g, s, Some(p[0]), Going)
    ensures forall x :: x in p && MustNumber(g[x]) ==> x in s
  {
    if |p| > 1 {
      var x, y := p[0], p[1];
      assert Edge(g, x, y);
      if x in s {
        assert Done(g, s, x);
        if Some(y) in Tails(g[x]) {
          SettledStays(g, s, s, Some(y), Skipping, Going);
        }
      } else {
        var n: nat :| SettledIn(g, s, Some(x), Going, n);
        assert SettledIn(g, s, g[x].next, Going, n - 1);
      }
      assert Settled(g, s, Some(y), Going);
      assert forall i :: 0 <= i < |p[1..]| - 1 ==> Edge(g, p[1..][i], p[1..][i + 1]);
      PathIsNumbered(g, s, p[1..]);
      assert p == [p[0]] + p[1..];
    }
  }

  /** From op to op along op_next, all but the last of them null. */
  ghost predicate NullPath(g: Graph, p: seq<OpId>) {
    && p != [] && (forall i :: 0 <= i < |p| ==> p[i] in g)
    && forall i :: 0 <= i < |p| - 1 ==> g[p[i]].kind.Null? && g[p[i]].next == Some(p[i + 1])
  }

  /** Behind null ops, if any, `o` leads to `x`. */
  ghost predicate NullsTo(g: Graph, o: Option<OpId>, x: OpId) {
    o.Some? && exists p :: NullPath(g, p) && p[0] == o.value && p[|p| - 1] == x
  }

  /** A branch of `y` starts with `x`, perhaps behind null ops. */
  ghost predicate BranchStart(g: Graph, y: OpId, x: OpId) {
    y in g && g[y].kind.Branching? && exists t :: t in g[y].kind.tails && NullsTo(g, t, x)
  }

  lemma NullsHere(g: Graph, x: OpId)
    requires x in g
    ensures NullsTo(g, Some(x), x)
  {
    assert NullPath(g, [x]) && [x][|[x]| - 1] == x;
  }

  lemma NullsBefore(g: Graph, o: OpId, x: OpId)
    requires o in g && g[o].kind.Null? && NullsTo(g, g[o].next, x)
    ensures NullsTo(g, Some(o), x)
  {
    var p :| NullPath(g, p) && p[0] == g[o].next.value && p[|p| - 1] == x;
    var q := [o] + p;
    assert forall i :: 0 <= i < |p| ==> q[i + 1] == p[i];
    forall i | 0 <= i < |q| - 1 ensures g[q[i]].kind.Null? && g[q[i]].next == Some(q[i + 1]) {
      if i > 0 {
        assert q[i] == p[i - 1] && q[i + 1] == p[i];
      }
    }
    assert NullPath(g, q) && q[0] == o && q[|q| - 1] == x;
  }

  /** A settled branch has its first op numbered, unless that is never numbered. */
  lemma {:induction false} SettledStart(g: Graph, s: set<OpId>, p: seq<OpId>, n: nat)
    requires Closed(g) && NullPath(g, p) && SettledIn(g, s, Some(p[0]), Skipping, n)
    requires !g[p[|p| - 1]].kind.Null? && !g[p[|p| - 1]].kind.Unnumbered?
    ensures p[|p| - 1] in s
    decreases |p|
  {
    if |p| > 1 {
      assert g[p[0]].kind.Null? && g[p[0]].next == Some(p[1]);
      NullPathTail(g, p);
      SettledStart(g, s, p[1..], n - 1);
    }
  }

  lemma NullPathTail(g: Graph, p: seq<OpId>)
    requires NullPath(g, p) && |p| > 1
    ensures NullPath(g, p[1..])
  {
    assert forall i :: 0 <= i < |p[1..]| ==> p[1..][i] == p[i + 1];
  }

  lemma StartNumbered(g: Graph, s: set<OpId>, o: Option<OpId>, x: OpId)
    requires Closed(g) && InGraph(g, o) && Settled(g, s, o, Skipping) && NullsTo(g, o, x)
    requires x in g && !g[x].kind.Null? && !g[x].kind.Unnumbered?
    ensures x in s
  {
    var p :| NullPath(g, p) && p[0] == o.value && p[|p| - 1] == x;
    var n: nat :| SettledIn(g, s, o, Skipping, n);
    SettledStart(g, s, p, n);
  }
}
