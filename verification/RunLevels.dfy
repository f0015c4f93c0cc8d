/**
 Run levels (cop.h): a doubly linked list of stack infos, one for each nested interpreter loop.  A
 level that is left keeps its info for the next time; the argument stack's top is saved in the info
 of the level being left and taken from the info of the level being entered.
 */
module RunLevels {

  /** What a level has: its type, its context index and the top of its argument stack. */
  datatype Level = Level(kind: int, cxix: int, top: nat)

  /** Code that works on the current level, or enters and leaves a nested one. */
  datatype Action =
    | Nest(kind: int, body: seq<Action>)
    | SetTop(top: nat)
    | SetContext(cxix: int)

  /** How many levels code nests. */
  function Nesting(acts: seq<Action>): nat
    decreases acts, 1
  {
    if acts == [] then 0 else Max(Inside(acts[0]), Nesting(acts[1..]))
  }

  function Inside(a: Action): nat
    decreases a, 0
  {
    if a.Nest? then 1 + Nesting(a.body) else 0
  }

  function Max(a: nat, b: nat): nat {
    if a < b then b else a
  }

  /** What the level itself has after its code: nested levels do not show. */
  function After(l: Level, acts: seq<Action>): Level
    decreases |acts|
  {
    if acts == [] then l else After(Changed(l, acts[0]), acts[1..])
  }

  function Changed(l: Level, a: Action): Level {
    match a
    case Nest(_, _) => l
    case SetTop(n) => l.(top := n)
    case SetContext(n) => l.(cxix := n)
  }

  /** Indices of nested levels, from the outside in. */
  ghost predicate NestsTo(acts: seq<Action>, path: seq<nat>) {
    path == [] || (path[0] < |acts| && acts[path[0]].Nest? && NestsTo(acts[path[0]].body, path[1..]))
  }

  /** The nesting is the length of the longest such path. */
  lemma {:induction false} NestingBounds(acts: seq<Action>, path: seq<nat>)
    requires NestsTo(acts, path)
    ensures |path| <= Nesting(acts)
    decreases |path|, |acts|
  {
    if path != [] && path[0] == 0 {
      NestingBounds(acts[0].body, path[1..]);
    } else if path != [] {
      assert acts[1..][path[0] - 1] == acts[path[0]];
      NestingBounds(acts[1..], [path[0] - 1] + path[1..]);
    }
  }

  /** One such path. */
  ghost function Deepest(acts: seq<Action>): (path: seq<nat>)
    ensures NestsTo(acts, path) && |path| == Nesting(acts)
    decreases acts
  {
    if acts == [] then []
    else if Nesting(acts) == Nesting(acts[1..]) then
      var path := Deepest(acts[1..]);
      if path == [] then []
      else
        assert acts[1..][path[0]] == acts[path[0] + 1];
        [path[0] + 1] + path[1..]
    else [0] + Deepest(acts[0].body)
  }

  /** The level keeps its type, and what was set last at the level itself is what it has. */
  lemma {:induction false} AfterMeaning(l: Level, acts: seq<Action>, i: int)
    requires -1 <= i < |acts|
    ensures After(l, acts).kind == l.kind
    ensures (forall j :: i < j < |acts| ==> !acts[j].SetTop?) && (i >= 0 ==> acts[i].SetTop?) ==>
              After(l, acts).top == if i >= 0 then acts[i].top else l.top
    ensures (forall j :: i < j < |acts| ==> !acts[j].SetContext?) && (i >= 0 ==> acts[i].SetContext?) ==>
              After(l, acts).cxix == if i >= 0 then acts[i].cxix else l.cxix
    decreases |acts|
  {
    if acts != [] {
      AfterMeaning(Changed(l, acts[0]), acts[1..], if i >= 0 then i - 1 else -1);
      assert forall j :: 0 <= j < |acts| - 1 ==> acts[1..][j] == acts[j + 1];
    }
  }

  class StackInfo {
    var fill: nat             // AvFILLp of si_stack
    var prev: StackInfo?
    var next: StackInfo?
    var cxix: int
    var kind: int
    ghost var place: nat      // how many are in front of it

    /** new_stackinfo. */
    constructor (ghost p: nat)
      ensures fill == 0 && prev == null && next == null && cxix == -1 && kind == 0 && place == p
    {
      fill, prev, next, cxix, kind, place := 0, null, null, -1, 0, p;
    }
  }

  ghost function At(chain: seq<StackInfo>, i: int): StackInfo? {
    if 0 <= i < |chain| then chain[i] else null
  }

  class Interp {
    var cur: StackInfo           // PL_curstackinfo
    var sp: nat                  // PL_stack_sp, counted from PL_stack_base
    ghost var chain: seq<StackInfo>
    ghost var levels: seq<Level> // the active levels, outermost first

    ghost predicate Valid()
      reads this, chain
    {
      && 0 < |levels| <= |chain| && cur == chain[|levels| - 1]
      && (forall i :: 0 <= i < |chain| ==> chain[i].place == i)
      && (forall i {:trigger chain[i].prev} :: 0 <= i < |chain| ==> chain[i].prev == At(chain, i - 1))
      && (forall i {:trigger chain[i].next} :: 0 <= i < |chain| ==> chain[i].next == At(chain, i + 1))
      && (forall i :: 0 <= i < |levels| ==>
            levels[i] == Level(chain[i].kind, chain[i].cxix, if i == |levels| - 1 then sp else chain[i].fill))
    }

    constructor (main: StackInfo)
      requires main.prev == null && main.next == null && main.place == 0
      ensures Valid() && chain == [main] && levels == [Level(main.kind, main.cxix, main.fill)]
    {
      cur, sp := main, main.fill;
      chain, levels := [main], [Level(main.kind, main.cxix, main.fill)];
    }

    /** PUSHSTACKi: the levels there were stay as they are, and the new one is empty; a stack info
        is made only if none is left over from before. */
    method PushStack(kind: int)
      requires Valid()
      modifies this, chain
      ensures Valid() && levels == old(levels) + [Level(kind, -1, 0)]
      ensures |chain| == Max(|old(chain)|, |levels|) && old(chain) <= chain
      ensures forall i :: |old(chain)| <= i < |chain| ==> fresh(chain[i])
    {
      if cur.next == null {
        Append();
      }
      Enter(kind);
    }

    /** One more stack info, linked behind the last. */
    method Append()
      requires Valid() && cur.next == null
      modifies `chain, cur`next
      ensures Valid() && |chain| == |old(chain)| + 1 && old(chain) <= chain && fresh(chain[|chain| - 1])
      ensures |levels| < |chain|
    {
      assert At(chain, |levels|) == null;
      var next := new StackInfo(|chain|);
      next.prev := cur;
      cur.next := next;
      chain := chain + [next];
    }

    /** Go on in the next stack info. */
    method Enter(kind: int)
      requires Valid() && cur.next != null
      modifies `cur, `sp, `levels, chain
      ensures Valid() && chain == old(chain) && levels == old(levels) + [Level(kind, -1, 0)]
    {
      var next := cur.next;
      assert next == chain[|levels|];
      Clear(next, kind);
      SwitchStack(next);
      levels := levels + [Level(kind, -1, 0)];
    }

    /** Make a stack info that is not in use ready for a new level. */
    method Clear(si: StackInfo, kind: int)
      requires Valid() && |levels| < |chain| && si == chain[|levels|]
      modifies si`kind, si`cxix, si`fill
      ensures Valid() && si.kind == kind && si.cxix == -1 && si.fill == 0
    {
      assert si.place == |levels|;
      si.kind := kind;
      si.cxix := -1;
      si.fill := 0;
    }

    /** SWITCHSTACK, and the assignment of PL_curstackinfo behind it. */
    method SwitchStack(to: StackInfo)
      requires to != cur
      modifies `cur, `sp, cur`fill
      ensures cur == to && sp == to.fill && old(cur).fill == old(sp)
    {
      cur.fill := sp;
      sp := to.fill;
      cur := to;
    }

    /** POPSTACK: the level below is current again, as it was left; from the outermost level it is a
        panic. */
    method PopStack() returns (ok: bool)
      requires Valid()
      modifies `cur, `sp, `levels, chain
      ensures Valid() && chain == old(chain)
      ensures ok <==> |old(levels)| > 1
      ensures levels == if ok then old(levels)[..|old(levels)| - 1] else old(levels)
    {
      var prev := cur.prev;
      assert prev == At(chain, |levels| - 2);
      if prev == null {
        return false;
      }
      SwitchStack(prev);
      levels := levels[..|levels| - 1];
      ok := true;
    }

    /** Code on the current level: the levels below stay as they are, nested levels leave no trace in
        this one, and the chain is as long as the deepest nesting needs, never longer. */
    method Run(acts: seq<Action>)
      requires Valid()
      modifies this, chain
      ensures Valid() && |levels| == |old(levels)|
      ensures levels == old(levels)[|levels| - 1 := After(old(levels)[|levels| - 1], acts)]
      ensures |chain| == Max(|old(chain)|, |levels| + Nesting(acts)) && old(chain) <= chain
      ensures forall i :: |old(chain)| <= i < |chain| ==> fresh(chain[i])
      decreases acts, 1
    {
      if acts != [] {
        Step(acts[0]);
        Run(acts[1..]);
      }
    }

    method Step(a: Action)
      requires Valid()
      modifies this, chain
      ensures Valid() && |levels| == |old(levels)|
      ensures levels == old(levels)[|levels| - 1 := Changed(old(levels)[|levels| - 1], a)]
      ensures |chain| == Max(|old(chain)|, |levels| + Inside(a)) && old(chain) <= chain
      ensures forall i :: |old(chain)| <= i < |chain| ==> fresh(chain[i])
      decreases a, 3
    {
      match a
      case Nest(kind, body) =>
        RunNested(kind, body);
      case SetTop(n) =>
        Update(n, cur.cxix);
      case SetContext(n) =>
        Update(sp, n);
    }

    /** A nested loop, from entry to exit. */
    method RunNested(kind: int, body: seq<Action>)
      requires Valid()
      modifies this, chain
      ensures Valid() && levels == old(levels)
      ensures |chain| == Max(|old(chain)|, |levels| + 1 + Nesting(body)) && old(chain) <= chain
      ensures forall i :: |old(chain)| <= i < |chain| ==> fresh(chain[i])
      decreases body, 2
    {
      PushStack(kind);
      Run(body);
      var _ := PopStack();
    }

    method Update(top: nat, cxix: int)
      requires Valid()
      modifies `sp, `levels, cur`cxix
      ensures Valid() && chain == old(chain)
      ensures levels == old(levels)[|levels| - 1 := Level(old(levels)[|old(levels)| - 1].kind, cxix, top)]
    {
      sp := top;
      cur.cxix := cxix;
      levels := levels[|levels| - 1 := Level(levels[|levels| - 1].kind, cxix, top)];
    }
  }
}
