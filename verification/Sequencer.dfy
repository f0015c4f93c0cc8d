/**
 The op sequencer (dump.c): number the ops reachable from an op, in execution order, once each.
 */
module Sequencer {
  import opened Basics
  import opened OpGraph

  /** Distinct numbers, and exactly those from 1 to the counter. */
  ghost predicate Numbered(seqs: map<OpId, nat>, opSeq: nat) {
    && |seqs| == opSeq
    && (forall o :: o in seqs ==> 1 <= seqs[o] <= opSeq)
    && (forall o, p :: o in seqs && p in seqs && seqs[o] == seqs[p] ==> o == p)
  }

  lemma {:induction false} NumberedUsesAll(seqs: map<OpId, nat>, opSeq: nat, n: nat)
    requires Numbered(seqs, opSeq) && 1 <= n <= opSeq
    ensures exists o :: o in seqs && seqs[o] == n
  {
    if forall o :: o in seqs ==> seqs[o] != n {
      var m := map o | o in seqs :: if seqs[o] > n then seqs[o] - 1 else seqs[o];
      assert m.Keys == seqs.Keys;
      NotTooMany(m, opSeq - 1);
    }
  }

  /** No more than `k` ops can have distinct numbers from 1 to `k`. */
  lemma {:induction false} NotTooMany(m: map<OpId, nat>, k: nat)
    requires forall o :: o in m ==> 1 <= m[o] <= k
    requires forall o, p :: o in m && p in m && m[o] == m[p] ==> o == p
    ensures |m| <= k
    decreases k
  {
    if k == 0 {
      assert m.Keys == {};
    } else if o :| o in m && m[o] == k {
      var r := m - {o};
      assert m.Keys == r.Keys + {o};
      NotTooMany(r, k - 1);
    } else {
      NotTooMany(m, k - 1);
    }
  }

  /** The Sequence hash and PL_op_seq. */
  datatype State = State(seqs: map<OpId, nat>, opSeq: nat)

  function Recorded(st: State, x: OpId): State {
    State(st.seqs[x := st.opSeq + 1], st.opSeq + 1)
  }

  /** S_sequence from `o`, or S_sequence_tail while it is skipping.  `fuel` bounds the depth: None
      means that the run does not end within it. */
  ghost function Run(g: Graph, st: State, o: Option<OpId>, ph: Phase, fuel: nat): Option<State>
    requires Closed(g) && InGraph(g, o)
    decreases fuel, 0
  {
    if o.None? || (!Skips(g[o.value], ph) && o.value in st.seqs) then Some(st)
    else if fuel == 0 then None
    else if Passed(g[o.value], ph) then Run(g, st, g[o.value].next, Onward(g[o.value], ph), fuel - 1)
    else RunBehind(g, Recorded(st, o.value), Tails(g[o.value]), g[o.value].next, fuel - 1)
  }

  /** What is behind a numbered op: its branches, one after the other, and then its successor. */
  ghost function RunBehind(g: Graph, st: State, tails: seq<Option<OpId>>, next: Option<OpId>, fuel: nat): Option<State>
    requires Closed(g) && InGraph(g, next) && forall t :: t in tails ==> InGraph(g, t)
    decreases fuel, 1, |tails|
  {
    if tails == [] then Run(g, st, next, Going, fuel)
    else
      var u := Run(g, st, tails[0], Skipping, fuel);
      if u.None? then None else RunBehind(g, u.value, tails[1..], next, fuel)
  }

  /** More fuel changes nothing once there is enough. */
  lemma {:induction false} RunStable(g: Graph, st: State, o: Option<OpId>, ph: Phase, fuel: nat, more: nat)
    requires Closed(g) && InGraph(g, o) && fuel <= more && Run(g, st, o, ph, fuel).Some?
    ensures Run(g, st, o, ph, more) == Run(g, st, o, ph, fuel)
    decreases fuel, 0
  {
    if o.Some? && (Skips(g[o.value], ph) || o.value !in st.seqs) {
      var op := g[o.value];
      if Passed(op, ph) {
        RunStable(g, st, op.next, Onward(op, ph), fuel - 1, more - 1);
      } else {
        BehindStable(g, Recorded(st, o.value), Tails(op), op.next, fuel - 1, more - 1);
      }
    }
  }

  lemma {:induction false} BehindStable(g: Graph, st: State, tails: seq<Option<OpId>>, next: Option<OpId>, fuel: nat,
                                        more: nat)
    requires Closed(g) && InGraph(g, next) && (forall t :: t in tails ==> InGraph(g, t))
    requires fuel <= more && RunBehind(g, st, tails, next, fuel).Some?
    ensures RunBehind(g, st, tails, next, more) == RunBehind(g, st, tails, next, fuel)
    decreases fuel, 1, |tails|
  {
    if tails == [] {
      RunStable(g, st, next, Going, fuel, more);
    } else {
      RunStable(g, st, tails[0], Skipping, fuel, more);
      BehindStable(g, Run(g, st, tails[0], Skipping, fuel).value, tails[1..], next, fuel, more);
    }
  }

  // ---------------------------------------------------------------- what a run does

  /** Numbers from 1 to the counter, for ops that may be numbered. */
  ghost predicate Ok(g: Graph, st: State) {
    && Numbered(st.seqs, st.opSeq)
    && forall x :: x in st.seqs ==> x in g && !g[x].kind.Null? && !g[x].kind.Unnumbered?
  }

  /** The numbered ops are done, except for those whose branches are still being followed. */
  ghost predicate AllDone(g: Graph, st: State, gray: set<OpId>)
    requires Closed(g) && Ok(g, st)
  {
    forall x :: x in st.seqs && x !in gray ==> Done(g, st.seqs.Keys, x)
  }

  /** Earlier numbers stay, and new ones are higher. */
  ghost predicate Extends(was: State, now: State) {
    && was.opSeq <= now.opSeq
    && (forall o :: o in was.seqs ==> o in now.seqs && now.seqs[o] == was.seqs[o])
    && (forall o :: o in now.seqs && o !in was.seqs ==> now.seqs[o] > was.opSeq)
  }

  lemma RecordedOk(g: Graph, st: State, x: OpId)
    requires Ok(g, st) && x in g && x !in st.seqs && !g[x].kind.Null? && !g[x].kind.Unnumbered?
    ensures Ok(g, Recorded(st, x)) && Extends(st, Recorded(st, x))
  {
    assert |Recorded(st, x).seqs| == |st.seqs| + 1;
  }

  lemma DoneStays(g: Graph, st: State, now: State, gray: set<OpId>)
    requires Closed(g) && Ok(g, st) && Ok(g, now) && AllDone(g, st, gray) && st.seqs.Keys <= now.seqs.Keys
    ensures forall x :: x in st.seqs && x !in gray ==> Done(g, now.seqs.Keys, x)
  {
    forall x | x in st.seqs && x !in gray ensures Done(g, now.seqs.Keys, x) {
      DoneGrows(g, st.seqs.Keys, now.seqs.Keys, x);
    }
  }

  /** What a run leaves alone, and what it keeps. */
  ghost predicate Kept(g: Graph, st: State, now: State, gray: set<OpId>)
    requires Closed(g)
  {
    Ok(g, now) && Extends(st, now) && AllDone(g, now, gray)
  }

  lemma KeptTwice(g: Graph, a: State, b: State, c: State, gray: set<OpId>)
    requires Closed(g) && Extends(a, b) && Kept(g, b, c, gray)
    ensures Kept(g, a, c, gray)
  {
  }

  /** Numbers stay distinct, complete and in order, and nothing is left to do behind the ops numbered
      on the way: `gray` are those whose branches are still being followed further up. */
  lemma {:induction false} RunKeeps(g: Graph, st: State, o: Option<OpId>, ph: Phase, fuel: nat, gray: set<OpId>)
    requires Closed(g) && InGraph(g, o) && Ok(g, st) && AllDone(g, st, gray)
    requires Run(g, st, o, ph, fuel).Some?
    ensures var now := Run(g, st, o, ph, fuel).value;
            Kept(g, st, now, gray) && Settled(g, now.seqs.Keys, o, ph)
    decreases fuel, 0
  {
    if o.None? {
      SettledAtEnd(g, st.seqs.Keys, ph);
    } else {
      SettledBefore(g, Run(g, st, o, ph, fuel).value.seqs.Keys, o.value, ph);
      if Skips(g[o.value], ph) || o.value !in st.seqs {
        if Passed(g[o.value], ph) {
          RunKeeps(g, st, g[o.value].next, Onward(g[o.value], ph), fuel - 1, gray);
        } else {
          NumberingKeeps(g, st, o.value, fuel - 1, gray);
        }
      }
    }
  }

  lemma {:induction false} NumberingKeeps(g: Graph, st: State, x: OpId, fuel: nat, gray: set<OpId>)
    requires Closed(g) && x in g && Ok(g, st) && AllDone(g, st, gray) && x !in st.seqs
    requires !g[x].kind.Null? && !g[x].kind.Unnumbered?
    requires RunBehind(g, Recorded(st, x), Tails(g[x]), g[x].next, fuel).Some?
    ensures var now := RunBehind(g, Recorded(st, x), Tails(g[x]), g[x].next, fuel).value;
            Kept(g, st, now, gray) && x in now.seqs
    decreases fuel, 2
  {
    var st1 := Recorded(st, x);
    RecordedOk(g, st, x);
    DoneStays(g, st, st1, gray);
    BehindKeeps(g, st1, Tails(g[x]), g[x].next, fuel, gray + {x});
    var now := RunBehind(g, st1, Tails(g[x]), g[x].next, fuel).value;
    KeptTwice(g, st, st1, now, gray + {x});
    assert Done(g, now.seqs.Keys, x);
  }

  lemma {:induction false} BehindKeeps(g: Graph, st: State, tails: seq<Option<OpId>>, next: Option<OpId>, fuel: nat,
                                       gray: set<OpId>)
    requires Closed(g) && InGraph(g, next) && (forall t :: t in tails ==> InGraph(g, t))
    requires Ok(g, st) && AllDone(g, st, gray) && RunBehind(g, st, tails, next, fuel).Some?
    ensures var now := RunBehind(g, st, tails, next, fuel).value;
            && Kept(g, st, now, gray) && Settled(g, now.seqs.Keys, next, Going)
            && forall t :: t in tails ==> Settled(g, now.seqs.Keys, t, Skipping)
    decreases fuel, 1, |tails|
  {
    if tails == [] {
      RunKeeps(g, st, next, Going, fuel, gray);
    } else {
      RunKeeps(g, st, tails[0], Skipping, fuel, gray);
      var u := Run(g, st, tails[0], Skipping, fuel).value;
      BehindKeeps(g, u, tails[1..], next, fuel, gray);
      var now := RunBehind(g, st, tails, next, fuel).value;
      KeptTwice(g, st, u, now, gray);
      SettledStays(g, u.seqs.Keys, now.seqs.Keys, tails[0], Skipping, Skipping);
      assert tails == [tails[0]] + tails[1..];
    }
  }

  /** Where nothing is left to do, nothing is done. */
  lemma {:induction false} RunAgain(g: Graph, st: State, o: Option<OpId>, ph: Phase, n: nat, fuel: nat)
    requires Closed(g) && InGraph(g, o) && SettledIn(g, st.seqs.Keys, o, ph, n) && n <= fuel
    ensures Run(g, st, o, ph, fuel) == Some(st)
    decreases n
  {
    if o.Some? && (Skips(g[o.value], ph) || o.value !in st.seqs) {
      RunAgain(g, st, g[o.value].next, Onward(g[o.value], ph), n - 1, fuel - 1);
    }
  }

  // ---------------------------------------------------------------- which ops are numbered, and in which order

  ghost predicate New(st: State, now: State, x: OpId) {
    x in now.seqs && x !in st.seqs
  }

  ghost predicate Reaches(g: Graph, o: Option<OpId>, y: OpId) {
    o.Some? && exists p :: Path(g, p) && p[0] == o.value && p[|p| - 1] == y
  }

  lemma ReachesItself(g: Graph, x: OpId)
    requires x in g
    ensures Reaches(g, Some(x), x)
  {
    assert Path(g, [x]) && [x][|[x]| - 1] == x;
  }

  lemma ReachesBefore(g: Graph, x: OpId, t: Option<OpId>, y: OpId)
    requires x in g && Reaches(g, t, y) && Edge(g, x, t.value)
    ensures Reaches(g, Some(x), y)
  {
    var p :| Path(g, p) && p[0] == t.value && p[|p| - 1] == y;
    var q := [x] + p;
    forall i | 0 <= i < |q| - 1 ensures Edge(g, q[i], q[i + 1]) {
      if i > 0 {
        assert q[i] == p[i - 1] && q[i + 1] == p[i];
      }
    }
    assert Path(g, q) && q[0] == x && q[|q| - 1] == y;
  }

  /** Nothing is forgotten. */
  lemma RunExtends(g: Graph, st: State, o: Option<OpId>, ph: Phase, fuel: nat)
    requires Closed(g) && InGraph(g, o) && Ok(g, st) && Run(g, st, o, ph, fuel).Some?
    ensures Ok(g, Run(g, st, o, ph, fuel).value) && Extends(st, Run(g, st, o, ph, fuel).value)
  {
    RunKeeps(g, st, o, ph, fuel, st.seqs.Keys);
  }

  lemma BehindExtends(g: Graph, st: State, tails: seq<Option<OpId>>, next: Option<OpId>, fuel: nat)
    requires Closed(g) && InGraph(g, next) && (forall t :: t in tails ==> InGraph(g, t)) && Ok(g, st)
    requires RunBehind(g, st, tails, next, fuel).Some?
    ensures Ok(g, RunBehind(g, st, tails, next, fuel).value) && Extends(st, RunBehind(g, st, tails, next, fuel).value)
  {
    BehindKeeps(g, st, tails, next, fuel, st.seqs.Keys);
  }

  /** Only what can be reached is numbered. */
  lemma {:induction false} RunReaches(g: Graph, st: State, o: Option<OpId>, ph: Phase, fuel: nat, y: OpId)
    requires Closed(g) && InGraph(g, o) && Run(g, st, o, ph, fuel).Some? && New(st, Run(g, st, o, ph, fuel).value, y)
    ensures Reaches(g, o, y)
    decreases fuel, 0
  {
    var x := o.value;
    if Passed(g[x], ph) {
      RunReaches(g, st, g[x].next, Onward(g[x], ph), fuel - 1, y);
      ReachesBefore(g, x, g[x].next, y);
    } else if y == x {
      ReachesItself(g, x);
    } else {
      var t := BehindReaches(g, Recorded(st, x), Tails(g[x]), g[x].next, fuel - 1, y);
      ReachesBefore(g, x, t, y);
    }
  }

  lemma {:induction false} BehindReaches(g: Graph, st: State, tails: seq<Option<OpId>>, next: Option<OpId>, fuel: nat,
                                         y: OpId)
    returns (t: Option<OpId>)
    requires Closed(g) && InGraph(g, next) && (forall t :: t in tails ==> InGraph(g, t))
    requires RunBehind(g, st, tails, next, fuel).Some? && New(st, RunBehind(g, st, tails, next, fuel).value, y)
    ensures Reaches(g, t, y) && (t == next || t in tails)
    decreases fuel, 1, |tails|
  {
    if tails == [] {
      RunReaches(g, st, next, Going, fuel, y);
      t := next;
    } else {
      var u := Run(g, st, tails[0], Skipping, fuel).value;
      if y in u.seqs {
        RunReaches(g, st, tails[0], Skipping, fuel, y);
        t := tails[0];
      } else {
        t := BehindReaches(g, u, tails[1..], next, fuel, y);
      }
    }
  }

  ghost predicate SomeBranchStarts(g: Graph, st: State, now: State, x: OpId) {
    exists y :: New(st, now, y) && BranchStart(g, y, x)
  }

  /** A quiet op with a successor is numbered only where a call or a branch starts. */
  lemma {:induction false} QuietStarts(g: Graph, st: State, o: Option<OpId>, ph: Phase, fuel: nat, x: OpId)
    requires Closed(g) && InGraph(g, o) && Ok(g, st) && Run(g, st, o, ph, fuel).Some?
    requires New(st, Run(g, st, o, ph, fuel).value, x) && x in g && g[x].kind.Quiet? && g[x].next.Some?
    ensures || (ph.Starting? && o == Some(x)) || (ph.Skipping? && NullsTo(g, o, x))
            || SomeBranchStarts(g, st, Run(g, st, o, ph, fuel).value, x)
    decreases fuel, 0
  {
    var y := o.value;
    if Passed(g[y], ph) {
      QuietStarts(g, st, g[y].next, Onward(g[y], ph), fuel - 1, x);
      if Skips(g[y], ph) && NullsTo(g, g[y].next, x) {
        NullsBefore(g, y, x);
      }
    } else if x == y {
      NullsHere(g, x);
    } else {
      QuietNumbering(g, st, y, fuel - 1, x);
    }
  }

  lemma {:induction false} QuietNumbering(g: Graph, st: State, y: OpId, fuel: nat, x: OpId)
    requires Closed(g) && y in g && Ok(g, st) && y !in st.seqs && x != y
    requires !g[y].kind.Null? && !g[y].kind.Unnumbered?
    requires RunBehind(g, Recorded(st, y), Tails(g[y]), g[y].next, fuel).Some?
    requires New(st, RunBehind(g, Recorded(st, y), Tails(g[y]), g[y].next, fuel).value, x)
    requires x in g && g[x].kind.Quiet? && g[x].next.Some?
    ensures SomeBranchStarts(g, st, RunBehind(g, Recorded(st, y), Tails(g[y]), g[y].next, fuel).value, x)
    decreases fuel, 2
  {
    var st1 := Recorded(st, y);
    var now := RunBehind(g, st1, Tails(g[y]), g[y].next, fuel).value;
    RecordedOk(g, st, y);
    QuietBehind(g, st1, Tails(g[y]), g[y].next, fuel, x);
    BehindExtends(g, st1, Tails(g[y]), g[y].next, fuel);
    assert New(st, now, y);
    if SomeBranchStarts(g, st1, now, x) {
      MoreStarts(g, st, st1, now, now, x);
    } else {
      assert BranchStart(g, y, x);
    }
  }

  lemma MoreStarts(g: Graph, st: State, st': State, now': State, now: State, x: OpId)
    requires st.seqs.Keys <= st'.seqs.Keys && now'.seqs.Keys <= now.seqs.Keys && SomeBranchStarts(g, st', now', x)
    ensures SomeBranchStarts(g, st, now, x)
  {
    var z :| New(st', now', z) && BranchStart(g, z, x);
    assert New(st, now, z);
  }

  lemma {:induction false} QuietBehind(g: Graph, st: State, tails: seq<Option<OpId>>, next: Option<OpId>, fuel: nat,
                                       x: OpId)
    requires Closed(g) && InGraph(g, next) && (forall t :: t in tails ==> InGraph(g, t)) && Ok(g, st)
    requires RunBehind(g, st, tails, next, fuel).Some? && New(st, RunBehind(g, st, tails, next, fuel).value, x)
    requires x in g && g[x].kind.Quiet? && g[x].next.Some?
    ensures || (exists t :: t in tails && NullsTo(g, t, x))
            || SomeBranchStarts(g, st, RunBehind(g, st, tails, next, fuel).value, x)
    decreases fuel, 1, |tails|
  {
    var now := RunBehind(g, st, tails, next, fuel).value;
    if tails == [] {
      QuietStarts(g, st, next, Going, fuel, x);
    } else {
      var u := Run(g, st, tails[0], Skipping, fuel).value;
      RunExtends(g, st, tails[0], Skipping, fuel);
      BehindExtends(g, u, tails[1..], next, fuel);
      if x in u.seqs {
        QuietStarts(g, st, tails[0], Skipping, fuel, x);
        if SomeBranchStarts(g, st, u, x) {
          MoreStarts(g, st, st, u, now, x);
        }
      } else {
        QuietBehind(g, u, tails[1..], next, fuel, x);
        if SomeBranchStarts(g, u, now, x) {
          MoreStarts(g, st, u, now, now, x);
        }
      }
    }
  }

  /** Exactly which quiet ops with a successor a call numbers: the one at which it is made, and those at
      which a branch of an op starts that it numbers. */
  lemma QuietExactly(g: Graph, st: State, o: OpId, fuel: nat, x: OpId)
    requires Closed(g) && o in g && Ok(g, st) && Run(g, st, Some(o), Starting, fuel).Some?
    requires x in g && x !in st.seqs && g[x].kind.Quiet? && g[x].next.Some?
    ensures var now := Run(g, st, Some(o), Starting, fuel).value;
            x in now.seqs <==> x == o || exists y :: New(st, now, y) && BranchStart(g, y, x)
  {
    var now := Run(g, st, Some(o), Starting, fuel).value;
    if x in now.seqs {
      QuietStarts(g, st, Some(o), Starting, fuel, x);
    }
    RunKeeps(g, st, Some(o), Starting, fuel, st.seqs.Keys);
    if x == o {
      var n: nat :| SettledIn(g, now.seqs.Keys, Some(o), Starting, n);
    } else if y :| New(st, now, y) && BranchStart(g, y, x) {
      BranchNumbered(g, st, now, y, x);
    }
  }

  lemma BranchNumbered(g: Graph, st: State, now: State, y: OpId, x: OpId)
    requires Closed(g) && Kept(g, st, now, st.seqs.Keys) && New(st, now, y) && BranchStart(g, y, x)
    requires x in g && !g[x].kind.Null? && !g[x].kind.Unnumbered?
    ensures x in now.seqs
  {
    assert Done(g, now.seqs.Keys, y);
    var t :| t in g[y].kind.tails && NullsTo(g, t, x);
    StartNumbered(g, now.seqs.Keys, t, x);
  }

  /** An op to which a number is due when the loop comes to it gets the next number, before anything
      behind it does. */
  lemma FirstNumber(g: Graph, st: State, o: OpId, ph: Phase, fuel: nat)
    requires Closed(g) && o in g && Ok(g, st) && Run(g, st, Some(o), ph, fuel).Some?
    requires o !in st.seqs && !g[o].kind.Null? && !g[o].kind.Unnumbered? && (MustNumber(g[o]) || !ph.Going?)
    ensures var now := Run(g, st, Some(o), ph, fuel).value;
            o in now.seqs && now.seqs[o] == st.opSeq + 1
  {
    RecordedOk(g, st, o);
    BehindExtends(g, Recorded(st, o), Tails(g[o]), g[o].next, fuel - 1);
  }

  /** Of a numbered op, branch `i` starts at `a`, and `b` cannot be reached from it nor from an earlier
      one. */
  ghost predicate Earlier(g: Graph, tails: seq<Option<OpId>>, i: nat, a: OpId, b: OpId) {
    && i < |tails| && NullsTo(g, tails[i], a) && a in g && !g[a].kind.Null? && !g[a].kind.Unnumbered?
    && forall j :: 0 <= j <= i ==> !Reaches(g, tails[j], b)
  }

  lemma LaterHigher(g: Graph, u: State, now: State, a: OpId, b: OpId)
    requires Ok(g, u) && Extends(u, now) && a in u.seqs && New(u, now, b)
    ensures a in now.seqs && now.seqs[a] < now.seqs[b]
  {
  }

  lemma FirstBranch(g: Graph, st: State, t: Option<OpId>, fuel: nat, a: OpId)
    requires Closed(g) && InGraph(g, t) && Ok(g, st) && Run(g, st, t, Skipping, fuel).Some? && NullsTo(g, t, a)
    requires a in g && !g[a].kind.Null? && !g[a].kind.Unnumbered?
    ensures a in Run(g, st, t, Skipping, fuel).value.seqs
  {
    RunKeeps(g, st, t, Skipping, fuel, st.seqs.Keys);
    StartNumbered(g, Run(g, st, t, Skipping, fuel).value.seqs.Keys, t, a);
  }

  /** Branches are followed in their order, before the successor. */
  lemma {:induction false} BranchesInOrder(g: Graph, st: State, tails: seq<Option<OpId>>, next: Option<OpId>,
                                           fuel: nat, i: nat, a: OpId, b: OpId)
    requires Closed(g) && InGraph(g, next) && (forall t :: t in tails ==> InGraph(g, t)) && Ok(g, st)
    requires RunBehind(g, st, tails, next, fuel).Some? && New(st, RunBehind(g, st, tails, next, fuel).value, b)
    requires Earlier(g, tails, i, a, b)
    ensures var now := RunBehind(g, st, tails, next, fuel).value;
            a in now.seqs && now.seqs[a] < now.seqs[b]
    decreases |tails|
  {
    var u := Run(g, st, tails[0], Skipping, fuel).value;
    RunExtends(g, st, tails[0], Skipping, fuel);
    if b in u.seqs {
      RunReaches(g, st, tails[0], Skipping, fuel, b);
    } else if i == 0 {
      FirstBranch(g, st, tails[0], fuel, a);
      BehindExtends(g, u, tails[1..], next, fuel);
      LaterHigher(g, u, RunBehind(g, st, tails, next, fuel).value, a, b);
    } else {
      BranchesInOrder(g, u, tails[1..], next, fuel, i - 1, a, b);
    }
  }

  /** `x` and then `b` have been numbered on the way. */
  ghost predicate After(st: State, now: State, x: OpId, b: OpId) {
    New(st, now, x) && b in now.seqs && now.seqs[x] < now.seqs[b]
  }

  /** In whatever a run numbers, the op at which a branch starts comes before all ops numbered after the
      branching op that cannot be reached from this branch or an earlier one: ops are numbered in the
      order in which they are to execute. */
  lemma {:induction false} RunInOrder(g: Graph, st: State, o: Option<OpId>, ph: Phase, fuel: nat, x: OpId, i: nat,
                                      a: OpId, b: OpId)
    requires Closed(g) && InGraph(g, o) && Ok(g, st) && Run(g, st, o, ph, fuel).Some?
    requires After(st, Run(g, st, o, ph, fuel).value, x, b)
    requires x in g && g[x].kind.Branching? && Earlier(g, g[x].kind.tails, i, a, b)
    ensures var now := Run(g, st, o, ph, fuel).value;
            a in now.seqs && now.seqs[a] < now.seqs[b]
    decreases fuel, 0
  {
    var y := o.value;
    if Passed(g[y], ph) {
      RunInOrder(g, st, g[y].next, Onward(g[y], ph), fuel - 1, x, i, a, b);
    } else {
      NumberingInOrder(g, st, y, fuel - 1, x, i, a, b);
    }
  }

  lemma {:induction false} NumberingInOrder(g: Graph, st: State, y: OpId, fuel: nat, x: OpId, i: nat, a: OpId,
                                            b: OpId)
    requires Closed(g) && y in g && Ok(g, st) && y !in st.seqs && !g[y].kind.Null? && !g[y].kind.Unnumbered?
    requires RunBehind(g, Recorded(st, y), Tails(g[y]), g[y].next, fuel).Some?
    requires After(st, RunBehind(g, Recorded(st, y), Tails(g[y]), g[y].next, fuel).value, x, b)
    requires x in g && g[x].kind.Branching? && Earlier(g, g[x].kind.tails, i, a, b)
    ensures var now := RunBehind(g, Recorded(st, y), Tails(g[y]), g[y].next, fuel).value;
            a in now.seqs && now.seqs[a] < now.seqs[b]
    decreases fuel, 2
  {
    var st1 := Recorded(st, y);
    RecordedOk(g, st, y);
    BehindExtends(g, st1, Tails(g[y]), g[y].next, fuel);
    if x == y {
      BranchesInOrder(g, st1, Tails(g[y]), g[y].next, fuel, i, a, b);
    } else {
      BehindInOrder(g, st1, Tails(g[y]), g[y].next, fuel, x, i, a, b);
    }
  }

  lemma {:induction false} BehindInOrder(g: Graph, st: State, tails: seq<Option<OpId>>, next: Option<OpId>, fuel: nat,
                                         x: OpId, i: nat, a: OpId, b: OpId)
    requires Closed(g) && InGraph(g, next) && (forall t :: t in tails ==> InGraph(g, t)) && Ok(g, st)
    requires RunBehind(g, st, tails, next, fuel).Some?
    requires After(st, RunBehind(g, st, tails, next, fuel).value, x, b)
    requires x in g && g[x].kind.Branching? && Earlier(g, g[x].kind.tails, i, a, b)
    ensures var now := RunBehind(g, st, tails, next, fuel).value;
            a in now.seqs && now.seqs[a] < now.seqs[b]
    decreases fuel, 1, |tails|
  {
    if tails == [] {
      RunInOrder(g, st, next, Going, fuel, x, i, a, b);
    } else {
      var u := Run(g, st, tails[0], Skipping, fuel).value;
      RunKeeps(g, st, tails[0], Skipping, fuel, st.seqs.Keys);
      BehindExtends(g, u, tails[1..], next, fuel);
      if x !in u.seqs {
        BehindInOrder(g, u, tails[1..], next, fuel, x, i, a, b);
      } else if b in u.seqs {
        RunInOrder(g, st, tails[0], Skipping, fuel, x, i, a, b);
      } else {
        assert BranchStart(g, x, a);
        BranchNumbered(g, st, u, x, a);
        LaterHigher(g, u, RunBehind(g, st, tails, next, fuel).value, a, b);
      }
    }
  }

  // ---------------------------------------------------------------- whether a run ends

  ghost predicate Halts(g: Graph, st: State, o: Option<OpId>, ph: Phase)
    requires Closed(g) && InGraph(g, o)
  {
    exists fuel: nat :: Run(g, st, o, ph, fuel).Some?
  }

  /** At depth `n` the run comes to a loop that goes on for ever. */
  ghost predicate Jams(g: Graph, st: State, o: Option<OpId>, ph: Phase, n: nat)
    requires Closed(g) && InGraph(g, o)
    decreases n, 0
  {
    o.Some? && (Skips(g[o.value], ph) || o.value !in st.seqs) &&
    (|| Endless(g, st.seqs.Keys, o.value, ph)
     || (n > 0 &&
         if Passed(g[o.value], ph) then Jams(g, st, g[o.value].next, Onward(g[o.value], ph), n - 1)
         else JamsBehind(g, Recorded(st, o.value), Tails(g[o.value]), g[o.value].next, n - 1)))
  }

  /** In one of the branches, or when all of them have been followed. */
  ghost predicate JamsBehind(g: Graph, st: State, tails: seq<Option<OpId>>, next: Option<OpId>, n: nat)
    requires Closed(g) && InGraph(g, next) && forall t :: t in tails ==> InGraph(g, t)
    decreases n, 1, |tails|
  {
    if tails == [] then Jams(g, st, next, Going, n)
    else
      || Jams(g, st, tails[0], Skipping, n)
      || exists fuel: nat :: Run(g, st, tails[0], Skipping, fuel).Some?
                             && JamsBehind(g, Run(g, st, tails[0], Skipping, fuel).value, tails[1..], next, n)
  }

  ghost predicate Jammed(g: Graph, st: State, o: Option<OpId>, ph: Phase)
    requires Closed(g) && InGraph(g, o)
  {
    exists n: nat :: Jams(g, st, o, ph, n)
  }

  ghost predicate JammedBehind(g: Graph, st: State, tails: seq<Option<OpId>>, next: Option<OpId>)
    requires Closed(g) && InGraph(g, next) && forall t :: t in tails ==> InGraph(g, t)
  {
    exists n: nat :: JamsBehind(g, st, tails, next, n)
  }

  /** If what comes next is jammed, so is this. */
  lemma JammedBefore(g: Graph, st: State, o: OpId, ph: Phase)
    requires Closed(g) && o in g && (Skips(g[o], ph) || o !in st.seqs) && !Jammed(g, st, Some(o), ph)
    ensures Passed(g[o], ph) ==> !Jammed(g, st, g[o].next, Onward(g[o], ph))
    ensures !Passed(g[o], ph) ==> !JammedBehind(g, Recorded(st, o), Tails(g[o]), g[o].next)
    ensures !Endless(g, st.seqs.Keys, o, ph)
  {
    assert !Jams(g, st, Some(o), ph, 0);
    if Passed(g[o], ph) {
      if n: nat :| Jams(g, st, g[o].next, Onward(g[o], ph), n) {
        assert Jams(g, st, Some(o), ph, n + 1);
      }
    } else {
      if n: nat :| JamsBehind(g, Recorded(st, o), Tails(g[o]), g[o].next, n) {
        assert Jams(g, st, Some(o), ph, n + 1);
      }
    }
  }

  lemma NotJammedBehind(g: Graph, st: State, tails: seq<Option<OpId>>, next: Option<OpId>)
    requires Closed(g) && InGraph(g, next) && (forall t :: t in tails ==> InGraph(g, t))
    requires !JammedBehind(g, st, tails, next)
    ensures tails == [] ==> !Jammed(g, st, next, Going)
    ensures tails != [] ==> !Jammed(g, st, tails[0], Skipping)
    ensures tails != [] ==> forall fuel: nat :: Run(g, st, tails[0], Skipping, fuel).Some? ==>
              !JammedBehind(g, Run(g, st, tails[0], Skipping, fuel).value, tails[1..], next)
  {
    if tails == [] {
      if n: nat :| Jams(g, st, next, Going, n) {
        assert JamsBehind(g, st, tails, next, n);
      }
    } else {
      if n: nat :| Jams(g, st, tails[0], Skipping, n) {
        assert JamsBehind(g, st, tails, next, n);
      }
      forall fuel: nat | Run(g, st, tails[0], Skipping, fuel).Some?
        ensures !JammedBehind(g, Run(g, st, tails[0], Skipping, fuel).value, tails[1..], next)
      {
        if n: nat :| JamsBehind(g, Run(g, st, tails[0], Skipping, fuel).value, tails[1..], next, n) {
          assert JamsBehind(g, st, tails, next, n);
        }
      }
    }
  }

  /** A loop that goes on for ever never uses up the fuel. */
  lemma {:induction false} EndlessNeverEnds(g: Graph, st: State, o: OpId, ph: Phase, fuel: nat)
    requires Closed(g) && o in g && Loop(g, st.seqs.Keys, o, ph, fuel + 1).Some?
    ensures Run(g, st, Some(o), ph, fuel).None?
    decreases fuel
  {
    if fuel > 0 {
      EndlessNeverEnds(g, st, g[o].next.value, Onward(g[o], ph), fuel - 1);
    }
  }

  lemma {:induction false} JammedNeverEnds(g: Graph, st: State, o: Option<OpId>, ph: Phase, n: nat, fuel: nat)
    requires Closed(g) && InGraph(g, o) && Jams(g, st, o, ph, n)
    ensures Run(g, st, o, ph, fuel).None?
    decreases fuel, 0
  {
    var op := g[o.value];
    if Endless(g, st.seqs.Keys, o.value, ph) {
      EndlessNeverEnds(g, st, o.value, ph, fuel);
    } else if fuel > 0 {
      if Passed(op, ph) {
        JammedNeverEnds(g, st, op.next, Onward(op, ph), n - 1, fuel - 1);
      } else {
        JammedBehindNeverEnds(g, Recorded(st, o.value), Tails(op), op.next, n - 1, fuel - 1);
      }
    }
  }

  lemma {:induction false} JammedBehindNeverEnds(g: Graph, st: State, tails: seq<Option<OpId>>, next: Option<OpId>,
                                                 n: nat, fuel: nat)
    requires Closed(g) && InGraph(g, next) && (forall t :: t in tails ==> InGraph(g, t))
    requires JamsBehind(g, st, tails, next, n)
    ensures RunBehind(g, st, tails, next, fuel).None?
    decreases fuel, 1, |tails|
  {
    if tails == [] {
      JammedNeverEnds(g, st, next, Going, n, fuel);
    } else if Jams(g, st, tails[0], Skipping, n) {
      JammedNeverEnds(g, st, tails[0], Skipping, n, fuel);
    } else {
      var f: nat :| Run(g, st, tails[0], Skipping, f).Some?
                    && JamsBehind(g, Run(g, st, tails[0], Skipping, f).value, tails[1..], next, n);
      if Run(g, st, tails[0], Skipping, fuel).Some? {
        RunStable(g, st, tails[0], Skipping, if f < fuel then f else fuel, if f < fuel then fuel else f);
        JammedBehindNeverEnds(g, Run(g, st, tails[0], Skipping, f).value, tails[1..], next, n, fuel);
      }
    }
  }

  ghost function NotYet(g: Graph, st: State): set<OpId> {
    g.Keys - st.seqs.Keys
  }

  /** How many ops the present loop passes at most. */
  ghost function LoopLength(g: Graph, st: State, o: Option<OpId>, ph: Phase): (k: nat)
    requires Closed(g) && InGraph(g, o) && !Jammed(g, st, o, ph)
    ensures o.Some? && (Skips(g[o.value], ph) || o.value !in st.seqs) ==>
              Loop(g, st.seqs.Keys, o.value, ph, k).None?
  {
    if o.Some? && (Skips(g[o.value], ph) || o.value !in st.seqs) then
      JammedBefore(g, st, o.value, ph);
      var k: nat :| Loop(g, st.seqs.Keys, o.value, ph, k).None?;
      k
    else 0
  }

  /** A run that comes to no such loop ends: `k` bounds the steps of the present loop. */
  lemma {:induction false} EndsUnlessJammed(g: Graph, st: State, o: Option<OpId>, ph: Phase, k: nat)
    returns (fuel: nat)
    requires Closed(g) && InGraph(g, o) && Ok(g, st) && !Jammed(g, st, o, ph)
    requires o.Some? && (Skips(g[o.value], ph) || o.value !in st.seqs) ==>
      Loop(g, st.seqs.Keys, o.value, ph, k).None?
    ensures Run(g, st, o, ph, fuel).Some?
    decreases NotYet(g, st), 0, k
  {
    fuel := 0;
    if o.Some? && (Skips(g[o.value], ph) || o.value !in st.seqs) {
      var op := g[o.value];
      JammedBefore(g, st, o.value, ph);
      if Passed(op, ph) {
        fuel := EndsUnlessJammed(g, st, op.next, Onward(op, ph), k - 1);
      } else {
        RecordedOk(g, st, o.value);
        assert o.value in NotYet(g, st);
        fuel := EndsBehind(g, Recorded(st, o.value), Tails(op), op.next);
      }
      fuel := fuel + 1;
    }
  }

  lemma {:induction false} EndsBehind(g: Graph, st: State, tails: seq<Option<OpId>>, next: Option<OpId>)
    returns (fuel: nat)
    requires Closed(g) && InGraph(g, next) && (forall t :: t in tails ==> InGraph(g, t)) && Ok(g, st)
    requires !JammedBehind(g, st, tails, next)
    ensures RunBehind(g, st, tails, next, fuel).Some?
    decreases NotYet(g, st), 1, |tails|
  {
    NotJammedBehind(g, st, tails, next);
    if tails == [] {
      fuel := EndsUnlessJammed(g, st, next, Going, LoopLength(g, st, next, Going));
    } else {
      var first := EndsUnlessJammed(g, st, tails[0], Skipping, LoopLength(g, st, tails[0], Skipping));
      var u := Run(g, st, tails[0], Skipping, first).value;
      RunKeeps(g, st, tails[0], Skipping, first, st.seqs.Keys);
      var rest := EndsBehind(g, u, tails[1..], next);
      fuel := first + rest;
      RunStable(g, st, tails[0], Skipping, first, fuel);
      BehindStable(g, u, tails[1..], next, rest, fuel);
    }
  }

  lemma JammedNotHalts(g: Graph, st: State, o: Option<OpId>, ph: Phase, n: nat)
    requires Closed(g) && InGraph(g, o) && Jams(g, st, o, ph, n)
    ensures !Halts(g, st, o, ph)
  {
    forall fuel: nat ensures Run(g, st, o, ph, fuel).None? {
      JammedNeverEnds(g, st, o, ph, n, fuel);
    }
  }

  /** A run ends if and only if it comes to no loop that goes on for ever. */
  lemma HaltsExactly(g: Graph, st: State, o: Option<OpId>, ph: Phase)
    requires Closed(g) && InGraph(g, o) && Ok(g, st)
    ensures Halts(g, st, o, ph) <==> !Jammed(g, st, o, ph)
  {
    if Jammed(g, st, o, ph) {
      var n: nat :| Jams(g, st, o, ph, n);
      JammedNotHalts(g, st, o, ph, n);
    } else {
      var fuel := EndsUnlessJammed(g, st, o, ph, LoopLength(g, st, o, ph));
    }
  }

  lemma NotEndless(g: Graph, st: State, o: OpId, ph: Phase)
    requires Closed(g) && o in g && Ok(g, st) && Closed(Stopped(g, st.seqs.Keys))
    requires NoLazyCycle(Stopped(g, st.seqs.Keys))
    ensures !Endless(g, st.seqs.Keys, o, ph)
  {
    var h := Stopped(g, st.seqs.Keys);
    LazyWalkEnds(h, o);
    if Loop(g, st.seqs.Keys, o, ph, |h|).Some? {
      LoopHops(g, st.seqs.Keys, o, ph, |h|);
    }
  }

  lemma {:induction false} NoCycleNoJam(g: Graph, st: State, o: Option<OpId>, ph: Phase, n: nat)
    requires Closed(g) && InGraph(g, o) && Ok(g, st) && Closed(Stopped(g, st.seqs.Keys))
    requires NoLazyCycle(Stopped(g, st.seqs.Keys))
    ensures !Jams(g, st, o, ph, n)
    decreases n, 0
  {
    if o.Some? && (Skips(g[o.value], ph) || o.value !in st.seqs) {
      NotEndless(g, st, o.value, ph);
      if n > 0 {
        if Passed(g[o.value], ph) {
          NoCycleNoJam(g, st, g[o.value].next, Onward(g[o.value], ph), n - 1);
        } else {
          RecordedOk(g, st, o.value);
          StoppedMore(g, st.seqs.Keys, Recorded(st, o.value).seqs.Keys);
          NoJamBehind(g, Recorded(st, o.value), Tails(g[o.value]), g[o.value].next, n - 1);
        }
      }
    }
  }

  lemma {:induction false} NoJamBehind(g: Graph, st: State, tails: seq<Option<OpId>>, next: Option<OpId>, n: nat)
    requires Closed(g) && InGraph(g, next) && (forall t :: t in tails ==> InGraph(g, t)) && Ok(g, st)
    requires Closed(Stopped(g, st.seqs.Keys)) && NoLazyCycle(Stopped(g, st.seqs.Keys))
    ensures !JamsBehind(g, st, tails, next, n)
    decreases n, 1, |tails|
  {
    if tails == [] {
      NoCycleNoJam(g, st, next, Going, n);
    } else {
      NoCycleNoJam(g, st, tails[0], Skipping, n);
      forall fuel: nat | Run(g, st, tails[0], Skipping, fuel).Some?
        ensures !JamsBehind(g, Run(g, st, tails[0], Skipping, fuel).value, tails[1..], next, n)
      {
        var u := Run(g, st, tails[0], Skipping, fuel).value;
        RunKeeps(g, st, tails[0], Skipping, fuel, st.seqs.Keys);
        StoppedMore(g, st.seqs.Keys, u.seqs.Keys);
        NoJamBehind(g, u, tails[1..], next, n);
      }
    }
  }

  lemma NoCycleHalts(g: Graph, st: State, o: Option<OpId>, ph: Phase, s: set<OpId>)
    requires Closed(g) && InGraph(g, o) && Ok(g, st) && s == st.seqs.Keys
    requires Closed(Stopped(g, s)) && NoLazyCycle(Stopped(g, s))
    ensures Halts(g, st, o, ph)
  {
    forall n: nat ensures !Jams(g, st, o, ph, n) {
      NoCycleNoJam(g, st, o, ph, n);
    }
    HaltsExactly(g, st, o, ph);
  }

  /** The ops that a call at `o` finds numbered or numbers at once. */
  function Called(g: Graph, st: State, o: OpId): set<OpId> {
    if o in g && g[o].kind.Quiet? then st.seqs.Keys + {o} else st.seqs.Keys
  }

  /** If every op_next cycle has an op that must be numbered, or is numbered, or is the quiet op at
      which sequence() is called, then the call ends. */
  lemma CallHalts(g: Graph, st: State, o: OpId)
    requires Closed(g) && o in g && Ok(g, st)
    requires Closed(Stopped(g, Called(g, st, o))) && NoLazyCycle(Stopped(g, Called(g, st, o)))
    ensures Halts(g, st, Some(o), Starting)
  {
    var s := Called(g, st, o);
    if g[o].kind.Quiet? && o !in st.seqs {
      RecordedOk(g, st, o);
      assert s == Recorded(st, o).seqs.Keys;
      NoCycleHalts(g, Recorded(st, o), g[o].next, Going, s);
      QuietHalts(g, st, o);
    } else {
      assert s == st.seqs.Keys;
      NoCycleHalts(g, st, Some(o), Starting, s);
    }
  }

  lemma QuietHalts(g: Graph, st: State, o: OpId)
    requires Closed(g) && o in g && g[o].kind.Quiet? && o !in st.seqs && Halts(g, Recorded(st, o), g[o].next, Going)
    ensures Halts(g, st, Some(o), Starting)
  {
    var st1 := Recorded(st, o);
    var fuel: nat :| Run(g, st1, g[o].next, Going, fuel).Some?;
    assert Run(g, st, Some(o), Starting, fuel + 1) == RunBehind(g, st1, [], g[o].next, fuel);
  }

  // ---------------------------------------------------------------- two ops that are their own successors

  /** sequence() of such a match op does not end. */
  lemma MatchLoop()
    ensures var g := map[7 := Op(Unnumbered, Some(7))];
            Closed(g) && !Halts(g, State(map[], 0), Some(7), Starting)
  {
    var g := map[7 := Op(Unnumbered, Some(7))];
    forall fuel: nat ensures Run(g, State(map[], 0), Some(7), Starting, fuel).None? {
      MatchLoops(g, Starting, fuel);
    }
  }

  lemma {:induction false} MatchLoops(g: Graph, ph: Phase, fuel: nat)
    requires g == map[7 := Op(Unnumbered, Some(7))] && Closed(g)
    ensures Run(g, State(map[], 0), Some(7), ph, fuel).None?
    decreases fuel
  {
    if fuel > 0 {
      MatchLoops(g, Going, fuel - 1);
    }
  }

  /** That of such a scope op ends, although the op is on a lazy cycle, because it numbers the op. */
  lemma ScopeLoop()
    ensures var g := map[7 := Op(Quiet, Some(7))];
            Closed(g) && !NoLazyCycle(g) && Run(g, State(map[], 0), Some(7), Starting, 2) == Some(State(map[7 := 1], 1))
  {
    var g := map[7 := Op(Quiet, Some(7))];
    assert Hop(g, 7, 1) == Hop(g, 7, 0);
    assert Recorded(State(map[], 0), 7) == State(map[7 := 1], 1);
    assert Tails(g[7]) == [];
  }

  class Interp {
    const g: Graph
    var seqs: map<OpId, nat>   // the Sequence hash
    var opSeq: nat             // PL_op_seq

    function View(): State
      reads this
    {
      State(seqs, opSeq)
    }

    /** Between calls. */
    ghost predicate Valid()
      reads this
    {
      Closed(g) && Ok(g, View()) && AllDone(g, View(), {})
    }

    constructor (ops: Graph)
      requires Closed(ops)
      ensures Valid() && g == ops && seqs == map[] && opSeq == 0
    {
      g := ops;
      seqs := map[];
      opSeq := 0;
    }

    method Record(x: OpId)
      modifies `seqs, `opSeq
      ensures View() == Recorded(old(View()), x)
    {
      opSeq := opSeq + 1;
      seqs := seqs[x := opSeq];
    }

    /** S_sequence_tail. */
    method SequenceTail(o: Option<OpId>, ghost fuel: nat)
      requires Closed(g) && InGraph(g, o) && Run(g, View(), o, Skipping, fuel).Some?
      modifies `seqs, `opSeq
      ensures Some(View()) == Run(g, old(View()), o, Skipping, fuel)
      decreases fuel, 2
    {
      var p := o;
      ghost var f: nat := fuel;
      while p.Some? && g[p.value].kind.Null?
        invariant InGraph(g, p) && f <= fuel && Run(g, View(), p, Skipping, f) == Run(g, View(), o, Skipping, fuel)
        modifies {}
        decreases f
      {
        p, f := g[p.value].next, f - 1;
      }
      assert Run(g, View(), p, Skipping, f) == Run(g, View(), p, Starting, f);
      Sequence(p, f);
    }

    /** The calls of S_sequence_tail for the branches of a numbered op. */
    method SequenceTails(x: OpId, ghost fuel: nat)
      requires Closed(g) && x in g && RunBehind(g, View(), Tails(g[x]), g[x].next, fuel).Some?
      modifies `seqs, `opSeq
      ensures Run(g, View(), g[x].next, Going, fuel) == RunBehind(g, old(View()), Tails(g[x]), g[x].next, fuel)
      decreases fuel, 3
    {
      var tails := Tails(g[x]);
      var i := 0;
      while i < |tails|
        invariant 0 <= i <= |tails|
        invariant RunBehind(g, View(), tails[i..], g[x].next, fuel) ==
                  RunBehind(g, old(View()), tails, g[x].next, fuel)
      {
        assert tails[i..][1..] == tails[i + 1..];
        SequenceTail(tails[i], fuel);
        i := i + 1;
      }
    }

    /** S_sequence. */
    method Sequence(o: Option<OpId>, ghost fuel: nat)
      requires Closed(g) && InGraph(g, o) && Run(g, View(), o, Starting, fuel).Some?
      modifies `seqs, `opSeq
      ensures Some(View()) == Run(g, old(View()), o, Starting, fuel)
      decreases fuel, 1
    {
      var cur, oldop := o, false;
      ghost var f: nat := fuel;
      while cur.Some? && cur.value !in seqs
        invariant InGraph(g, cur) && f <= fuel
        invariant Run(g, View(), cur, if oldop then Going else Starting, f) ==
                  Run(g, old(View()), o, Starting, fuel)
        decreases f
      {
        var op := g[cur.value];
        if !(op.kind.Null? || op.kind.Unnumbered? || (op.kind.Quiet? && oldop && op.next.Some?)) {
          Record(cur.value);
          SequenceTails(cur.value, f - 1);
        }
        oldop := true;
        cur, f := op.next, f - 1;
      }
    }

    /** sequence() as it is called from outside: afterwards every op that must be numbered and can
        be reached from `o`, along successors and branches, is; of the quiet ops that have a successor
        those are numbered at which the call or a branch starts; and calling it again changes
        nothing. */
    method SequenceFrom(o: OpId)
      requires Valid() && o in g && Halts(g, View(), Some(o), Starting)
      modifies `seqs, `opSeq
      ensures Valid() && Extends(old(View()), View())
      ensures forall p :: Path(g, p) && p[0] == o ==> forall x :: x in p && MustNumber(g[x]) ==> x in seqs
      ensures forall x :: x in g && x !in old(seqs) && g[x].kind.Quiet? && g[x].next.Some? ==>
        (x in seqs <==> x == o || exists y :: New(old(View()), View(), y) && BranchStart(g, y, x))
      ensures Settled(g, seqs.Keys, Some(o), Starting)
      ensures old(Settled(g, seqs.Keys, Some(o), Starting)) ==> View() == old(View())
    {
      ghost var fuel: nat :| Run(g, View(), Some(o), Starting, fuel).Some?;
      ghost var st := View();
      Sequence(Some(o), fuel);
      RunKeeps(g, st, Some(o), Starting, fuel, {});
      forall p | Path(g, p) && p[0] == o ensures forall x :: x in p && MustNumber(g[x]) ==> x in seqs {
        SettledStays(g, seqs.Keys, seqs.Keys, Some(o), Starting, Going);
        PathIsNumbered(g, seqs.Keys, p);
      }
      forall x | x in g && x !in st.seqs && g[x].kind.Quiet? && g[x].next.Some?
        ensures x in seqs <==> x == o || exists y :: New(st, View(), y) && BranchStart(g, y, x)
      {
        QuietExactly(g, st, o, fuel, x);
      }
      if n: nat :| SettledIn(g, st.seqs.Keys, Some(o), Starting, n) {
        RunAgain(g, st, Some(o), Starting, n, fuel + n);
        RunStable(g, st, Some(o), Starting, fuel, fuel + n);
      }
    }

    /** S_sequence_num: the number of an op, or 0. */
    method SequenceNum(o: Option<OpId>) returns (n: nat)
      requires Valid() && InGraph(g, o)
      ensures n == 0 <==> o.None? || o.value !in seqs
      ensures n != 0 ==> n == seqs[o.value] <= opSeq
      ensures forall p :: p in seqs && seqs[p] == n ==> o == Some(p)
    {
      if o.None? { return 0; }
      n := if o.value in seqs then seqs[o.value] else 0;
    }
  }
}
