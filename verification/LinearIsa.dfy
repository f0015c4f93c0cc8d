/**
 Computing linearizations (mro.c): the merge with its array of heads and its hash of tails, and the
 recursion over parents with its cache.
 */
module LinearIsa {
  import opened Basics
  import opened Mro
  import opened C3
  import opened Linearization

  /** The lines without the elements in front of the heads. */
  ghost function Rest(lines: seq<Line>, heads: seq<nat>): (r: seq<Line>)
    requires |heads| == |lines| && forall i :: 0 <= i < |lines| ==> heads[i] <= |lines[i]|
    ensures |r| == |lines| && forall i :: 0 <= i < |lines| ==> r[i] == lines[i][heads[i]..]
  {
    seq(|lines|, i requires 0 <= i < |lines| => lines[i][heads[i]..])
  }

  function Count(tails: map<Stash, nat>, c: Stash): nat {
    if c in tails then tails[c] else 0
  }

  /** The hash has the number of times each class is in a tail. */
  ghost predicate Counts(tails: map<Stash, nat>, rest: seq<Line>) {
    forall c :: Count(tails, c) == TailCount(rest, c)
  }

  lemma {:induction false} OccursLast(l: Line, k: nat, c: Stash)
    requires k < |l|
    ensures Occurs(l[..k + 1], c) == Occurs(l[..k], c) + if l[k] == c then 1 else 0
  {
    if k > 0 {
      assert l[..k + 1][1..] == l[1..][..k] && l[..k][1..] == l[1..][..k - 1];
      OccursLast(l[1..], k - 1, c);
    }
  }

  lemma TailCountLast(lines: seq<Line>, n: nat, c: Stash)
    requires n < |lines|
    ensures TailCount(lines[..n + 1], c) == TailCount(lines[..n], c) + Occurs(TailOf(lines[n]), c)
  {
    assert lines[..n + 1][..n] == lines[..n];
  }

  lemma {:induction false} TailCountUpdate(rest: seq<Line>, s: nat, l: Line, c: Stash)
    requires s < |rest|
    ensures TailCount(rest[s := l], c) + Occurs(TailOf(rest[s]), c) == TailCount(rest, c) + Occurs(TailOf(l), c)
  {
    var n := |rest| - 1;
    if s == n {
      assert rest[s := l][..n] == rest[..n];
    } else {
      assert rest[s := l][..n] == rest[..n][s := l];
      TailCountUpdate(rest[..n], s, l, c);
    }
  }

  /** Moving a head takes the new head out of the tails. */
  lemma HeadMoved(rest: seq<Line>, s: nat, c: Stash)
    requires s < |rest| && rest[s] != []
    ensures TailCount(rest[s := rest[s][1..]], c) ==
            TailCount(rest, c) - if |rest[s]| > 1 && rest[s][1] == c then 1 else 0
  {
    TailCountUpdate(rest, s, rest[s][1..], c);
  }

  // ---------------------------------------------------------------- the merge

  /** Fill the hash. */
  method CountTails(lines: seq<Line>) returns (tails: map<Stash, nat>)
    ensures Counts(tails, lines)
  {
    tails := map[];
    var s := 0;
    while s < |lines|
      invariant 0 <= s <= |lines|
      invariant forall c :: Count(tails, c) == TailCount(lines[..s], c)
    {
      tails := AddTail(tails, TailOf(lines[s]));
      forall c ensures TailCount(lines[..s + 1], c) == TailCount(lines[..s], c) + Occurs(TailOf(lines[s]), c) {
        TailCountLast(lines, s, c);
      }
      s := s + 1;
    }
    assert lines[..s] == lines;
  }

  method AddTail(old': map<Stash, nat>, tail: Line) returns (tails: map<Stash, nat>)
    ensures forall c :: Count(tails, c) == Count(old', c) + Occurs(tail, c)
  {
    tails := old';
    var k := 0;
    while k < |tail|
      invariant 0 <= k <= |tail|
      invariant forall c :: Count(tails, c) == Count(old', c) + Occurs(tail[..k], c)
    {
      forall c ensures Occurs(tail[..k + 1], c) == Occurs(tail[..k], c) + if tail[k] == c then 1 else 0 {
        OccursLast(tail, k, c);
      }
      tails := tails[tail[k] := Count(tails, tail[k]) + 1];
      k := k + 1;
    }
    assert tail[..k] == tail;
  }

  ghost predicate HeadsOk(lines: seq<Line>, heads: seq<nat>) {
    |heads| == |lines| && forall i :: 0 <= i < |lines| ==> heads[i] <= |lines[i]|
  }

  /** The winner is the head of line `s`: go on to the next element there. */
  method Advance(lines: seq<Line>, heads: array<nat>, tails: map<Stash, nat>, s: nat) returns (tails': map<Stash, nat>)
    requires HeadsOk(lines, heads[..]) && s < |lines| && heads[s] < |lines[s]|
    requires Counts(tails, Rest(lines, heads[..]))
    modifies heads
    ensures HeadsOk(lines, heads[..]) && heads[..] == old(heads[..])[s := old(heads[s]) + 1]
    ensures var was := Rest(lines, old(heads[..]));
            Rest(lines, heads[..]) == was[s := was[s][1..]]
    ensures Counts(tails', Rest(lines, heads[..]))
  {
    ghost var rest := Rest(lines, heads[..]);
    forall c ensures TailCount(rest[s := rest[s][1..]], c) ==
                     TailCount(rest, c) - if |rest[s]| > 1 && rest[s][1] == c then 1 else 0 {
      HeadMoved(rest, s, c);
    }
    var newHead := heads[s] + 1;
    heads[s] := newHead;
    assert Rest(lines, heads[..]) == rest[s := rest[s][1..]];
    assert |rest[s]| == |lines[s]| - newHead + 1;
    tails' := tails;
    if newHead < |lines[s]| {
      var h := lines[s][newHead];
      assert rest[s][1] == h;
      assert TailCount(rest[s := rest[s][1..]], h) == TailCount(rest, h) - 1;
      tails' := tails[h := Count(tails, h) - 1];
    }
    forall c ensures Count(tails', c) == TailCount(rest[s := rest[s][1..]], c) {
      assert Count(tails, c) == TailCount(rest, c);
    }
  }

  /** One time around the lines: the winner is the first head that is in no tail, and it is taken off
      every line that it heads. */
  method Round(lines: seq<Line>, heads: array<nat>, tails: map<Stash, nat>)
    returns (cand: bool, winner: Option<Stash>, tails': map<Stash, nat>)
    requires HeadsOk(lines, heads[..]) && Counts(tails, Rest(lines, heads[..]))
    modifies heads
    ensures HeadsOk(lines, heads[..]) && Counts(tails', Rest(lines, heads[..]))
    ensures var was := Rest(lines, old(heads[..]));
            && cand == !AllEmpty(was) && winner == Candidate(was, 0)
            && Rest(lines, heads[..]) == if winner.Some? then Dropped(was, winner.value) else was
  {
    ghost var was := Rest(lines, heads[..]);
    cand, winner, tails' := false, None, tails;
    var s := 0;
    while s < |lines|
      invariant 0 <= s <= |lines| && HeadsOk(lines, heads[..]) && Counts(tails', Rest(lines, heads[..]))
      invariant Stage(was, Rest(lines, heads[..]), s, cand, winner)
    {
      cand, winner, tails' := Look(lines, heads, tails', s, cand, winner, was);
      s := s + 1;
    }
    if winner.Some? {
      assert Rest(lines, heads[..]) == Dropped(was, winner.value);
    }
  }

  /** At line `s`. */
  method Look(lines: seq<Line>, heads: array<nat>, tails: map<Stash, nat>, s: nat, cand: bool, winner: Option<Stash>,
              ghost was: seq<Line>)
    returns (cand': bool, winner': Option<Stash>, tails': map<Stash, nat>)
    requires HeadsOk(lines, heads[..]) && Counts(tails, Rest(lines, heads[..])) && s < |lines|
    requires Stage(was, Rest(lines, heads[..]), s, cand, winner)
    modifies heads
    ensures HeadsOk(lines, heads[..]) && Counts(tails', Rest(lines, heads[..]))
    ensures Stage(was, Rest(lines, heads[..]), s + 1, cand', winner')
  {
    cand', winner', tails' := cand, winner, tails;
    ghost var rest := Rest(lines, heads[..]);
    if heads[s] == |lines[s]| {
      Exhausted(was, rest, s, cand, winner);
      return;
    }
    var seqhead := lines[s][heads[s]];
    assert rest[s] != [] && rest[s][0] == seqhead;
    if winner.None? {
      cand' := true;
      if Count(tails, seqhead) > 0 {
        Rejected(was, rest, s, cand);
        return;
      }
      winner' := Some(seqhead);
      Found(was, rest, s, cand);
    }
    OnWinner(was, rest, s, winner'.value);
    if seqhead == winner'.value {
      tails' := Advance(lines, heads, tails, s);
    }
  }

  ghost predicate Stage(was: seq<Line>, rest: seq<Line>, s: nat, cand: bool, winner: Option<Stash>) {
    if winner.None? then Searching(was, rest, s, cand) else cand && Winning(was, rest, s, winner.value)
  }

  /** No winner in front of line `s`. */
  ghost predicate Searching(was: seq<Line>, rest: seq<Line>, s: nat, cand: bool) {
    && s <= |was| && rest == was && Candidate(was, 0) == Candidate(was, s)
    && (forall i :: 0 <= i < s && was[i] != [] ==> TailCount(was, was[i][0]) > 0)
    && (cand <==> exists i :: 0 <= i < s && was[i] != [])
  }

  /** The winner has been taken off the lines in front of `s`. */
  ghost predicate Winning(was: seq<Line>, rest: seq<Line>, s: nat, w: Stash) {
    && s <= |was| == |rest| && Candidate(was, 0) == Some(w)
    && (forall i :: 0 <= i < s ==> rest[i] == Dropped(was, w)[i])
    && (forall i :: s <= i < |was| ==> rest[i] == was[i])
    && exists i :: 0 <= i < |was| && was[i] != []
  }

  lemma Exhausted(was: seq<Line>, rest: seq<Line>, s: nat, cand: bool, winner: Option<Stash>)
    requires Stage(was, rest, s, cand, winner) && s < |rest| && rest[s] == []
    ensures Stage(was, rest, s + 1, cand, winner)
  {
  }

  lemma Rejected(was: seq<Line>, rest: seq<Line>, s: nat, cand: bool)
    requires Searching(was, rest, s, cand) && s < |was| && was[s] != [] && TailCount(was, was[s][0]) > 0
    ensures Searching(was, rest, s + 1, true)
  {
  }

  lemma Found(was: seq<Line>, rest: seq<Line>, s: nat, cand: bool)
    requires Searching(was, rest, s, cand) && s < |was| && was[s] != [] && TailCount(was, was[s][0]) == 0
    ensures Winning(was, rest, s, was[s][0])
  {
  }

  lemma OnWinner(was: seq<Line>, rest: seq<Line>, s: nat, w: Stash)
    requires Winning(was, rest, s, w) && s < |was| && rest[s] != []
    ensures rest[s][0] == w ==> Winning(was, rest[s := rest[s][1..]], s + 1, w)
    ensures rest[s][0] != w ==> Winning(was, rest, s + 1, w)
  {
  }

  /** The merge as it is computed. */
  method MergeLines(lines: seq<Line>) returns (r: Option<Line>)
    ensures r == Merge(lines)
  {
    var heads := new nat[|lines|](_ => 0);
    assert Rest(lines, heads[..]) == lines;
    var tails := CountTails(lines);
    AssociateNothing(Merge(lines));
    var done := false;
    r := Some([]);
    while !done
      invariant done ==> r == Merge(lines)
      invariant !done ==> r.Some? && Going(lines, heads[..], tails, r.value)
      decreases if done || !HeadsOk(lines, heads[..]) then 0 else 1 + Total(Rest(lines, heads[..]))
    {
      done, r, tails := MergeRound(lines, heads, tails, r.value);
    }
  }

  /** The state between two rounds. */
  ghost predicate Going(lines: seq<Line>, heads: seq<nat>, tails: map<Stash, nat>, retval: Line) {
    HeadsOk(lines, heads) && Counts(tails, Rest(lines, heads)) && Remains(retval, Rest(lines, heads), lines)
  }

  /** One round: the merge is complete, or it fails, or one more class is found. */
  method MergeRound(lines: seq<Line>, heads: array<nat>, tails: map<Stash, nat>, retval: Line)
    returns (done: bool, r: Option<Line>, tails': map<Stash, nat>)
    requires Going(lines, heads[..], tails, retval)
    modifies heads
    ensures done ==> r == Merge(lines)
    ensures !done ==> r.Some? && Going(lines, heads[..], tails', r.value)
    ensures !done ==> Total(Rest(lines, heads[..])) < Total(Rest(lines, old(heads[..])))
  {
    ghost var was := Rest(lines, heads[..]);
    var cand, winner;
    cand, winner, tails' := Round(lines, heads, tails);
    MergeEnds(retval, was, lines);
    if !cand {
      return true, Some(retval), tails';
    }
    if winner.None? {
      return true, None, tails';
    }
    MergeStep(retval, was, winner.value, lines);
    return false, Some(retval + [winner.value]), tails';
  }

  function Behind(front: Line, rest: Option<Line>): Option<Line> {
    if rest.None? then None else Some(front + rest.value)
  }

  lemma AssociateNothing(m: Option<Line>)
    ensures Behind([], m) == m
  {
    if m.Some? {
      assert [] + m.value == m.value;
    }
  }

  /** What is left to merge, behind what has been, is the whole merge. */
  ghost predicate Remains(front: Line, rest: seq<Line>, all: seq<Line>) {
    Behind(front, Merge(rest)) == Merge(all)
  }

  lemma MergeEnds(front: Line, lines: seq<Line>, all: seq<Line>)
    requires Remains(front, lines, all)
    ensures AllEmpty(lines) ==> Merge(all) == Some(front)
    ensures !AllEmpty(lines) && Candidate(lines, 0).None? ==> Merge(all) == None
  {
    assert front + [] == front;
  }

  lemma MergeStep(front: Line, lines: seq<Line>, c: Stash, all: seq<Line>)
    requires !AllEmpty(lines) && Candidate(lines, 0) == Some(c) && Remains(front, lines, all)
    ensures Remains(front + [c], Dropped(lines, c), all)
    ensures Total(Dropped(lines, c)) < Total(lines)
  {
    DroppedTotal(lines, c);
    var m := Merge(Dropped(lines, c));
    if m.Some? {
      Associate(front, [c], m.value);
    }
  }

  // ---------------------------------------------------------------- the recursion

  /** There is a linearization, and the recursion from `level` does not go too deep for it. */
  ghost predicate Within(isa: Hierarchy, x: Stash, level: nat) {
    exists lin :: Solves(isa, lin) && x in lin && level + |lin[x]| <= 101
  }

  lemma NotWithin(isa: Hierarchy, x: Stash, level: nat)
    requires level > 100
    ensures !Within(isa, x, level)
  {
    forall lin | Solves(isa, lin) && x in lin ensures |lin[x]| > 0 {
      LineStarts(isa, lin, x);
    }
  }

  lemma ParentWithin(isa: Hierarchy, x: Stash, level: nat, i: nat)
    requires x in isa && i < |isa[x]| && isa[x][i] in isa && Within(isa, x, level)
    ensures Within(isa, isa[x][i], level + 1)
  {
    var lin :| Solves(isa, lin) && x in lin && level + |lin[x]| <= 101;
    ParentShorter(isa, lin, x, i);
    assert isa[x][i] in lin;
  }

  lemma NoMerge(isa: Hierarchy, linear: Lines, x: Stash, level: nat)
    requires Solves(isa, linear) && x in isa && isa[x] != [] && Merge(Merged(linear, isa[x])).None?
    requires forall p :: p in isa[x] && p in isa ==> p in linear
    ensures !Within(isa, x, level)
  {
    forall lin | Solves(isa, lin) ensures x !in lin {
      if x in lin {
        SameMerge(isa, linear, lin, x);
      }
    }
  }

  /** What was remembered still is. */
  ghost predicate Grown(was: Lines, now: Lines) {
    forall c :: c in was ==> c in now && now[c] == was[c]
  }

  lemma GrownTwice(a: Lines, b: Lines, c: Lines)
    requires Grown(a, b) && Grown(b, c)
    ensures Grown(a, c) && a.Keys <= b.Keys <= c.Keys
  {
  }

  /** The first `i` parents are linearized, if they have a stash. */
  ghost predicate Known(isa: Hierarchy, lin: Lines, parents: seq<Stash>, i: nat) {
    i <= |parents| && forall j :: 0 <= j < i && parents[j] in isa ==> parents[j] in lin
  }

  lemma KnownMore(isa: Hierarchy, was: Lines, lin: Lines, parents: seq<Stash>, i: nat)
    requires Known(isa, was, parents, i) && Grown(was, lin) && i < |parents|
    requires parents[i] in isa ==> parents[i] in lin
    ensures Known(isa, lin, parents, i + 1)
  {
  }

  lemma AllKnown(isa: Hierarchy, lin: Lines, parents: seq<Stash>)
    requires Known(isa, lin, parents, |parents|)
    ensures forall p :: p in parents && p in isa ==> p in lin
  {
  }

  /** The classes, and the linearizations remembered in them. */
  class Classes {
    var isa: Hierarchy
    var linear: Lines    // mro_linear_c3

    ghost predicate Valid()
      reads this
    {
      Solves(isa, linear)
    }

    /** mro_get_linear_isa_c3.  What it returns is the linearization, and remembered; it fails only if
        there is none, or if the classes above are more than the levels left. */
    method GetLinearIsa(x: Stash, level: nat) returns (r: Option<Line>)
      requires Valid() && x in isa && level <= 101
      modifies `linear
      ensures Valid() && Grown(old(linear), linear)
      ensures r.Some? ==> x in linear && r.value == linear[x]
      ensures Within(isa, x, level) ==> r.Some?
      decreases 101 - level, 2
    {
      if level > 100 {
        NotWithin(isa, x, level);
        return None;
      }
      if x in linear {
        return Some(linear[x]);
      }
      if isa[x] == [] {
        r := Some([x]);
      } else {
        var ok := LinearizeParents(x, level);
        if !ok {
          return None;
        }
        AllKnown(isa, linear, isa[x]);
        var m := MergeLines(Merged(linear, isa[x]));
        if m.None? {
          NoMerge(isa, linear, x, level);
          return None;
        }
        r := Some([x] + m.value);
      }
      Remembered(isa, linear, x, r.value);
      linear := linear[x := r.value];
    }

    /** The linearizations of the parents that have a stash. */
    method LinearizeParents(x: Stash, level: nat) returns (ok: bool)
      requires Valid() && x in isa && level <= 100
      modifies `linear
      ensures Valid() && Grown(old(linear), linear)
      ensures ok ==> Known(isa, linear, isa[x], |isa[x]|)
      ensures Within(isa, x, level) ==> ok
      decreases 101 - level, 1
    {
      var i := 0;
      ok := true;
      while i < |isa[x]|
        invariant 0 <= i <= |isa[x]| && Valid() && ok
        invariant Grown(old(linear), linear) && Known(isa, linear, isa[x], i)
      {
        ghost var mid := linear;
        ok := LinearizeParent(x, level, i);
        if !ok {
          return;
        }
        GrownTwice(old(linear), mid, linear);
        KnownMore(isa, mid, linear, isa[x], i);
        i := i + 1;
      }
    }

    method LinearizeParent(x: Stash, level: nat, i: nat) returns (ok: bool)
      requires Valid() && x in isa && level <= 100 && i < |isa[x]|
      modifies `linear
      ensures Valid() && Grown(old(linear), linear)
      ensures ok && isa[x][i] in isa ==> isa[x][i] in linear
      ensures Within(isa, x, level) ==> ok
      decreases 101 - level, 0
    {
      var p := isa[x][i];
      ok := true;
      if p in isa {
        var l := GetLinearIsa(p, level + 1);
        ok := l.Some?;
        if Within(isa, x, level) {
          ParentWithin(isa, x, level, i);
        }
      }
    }
  }

  /** A line made from remembered ones may be remembered. */
  lemma Remembered(isa: Hierarchy, lin: Lines, x: Stash, l: Line)
    requires Solves(isa, lin) && x in isa && LineFrom(lin, x, isa[x]) == Some(l)
    requires forall p :: p in isa[x] && p in isa ==> p in lin
    ensures Solves(isa, lin[x := l])
  {
    if x in lin {
      assert LineAt(isa, lin, x);
      assert lin[x := l] == lin;
    } else {
      var now := lin[x := l];
      forall y | y in now ensures LineAt(isa, now, y) {
        NotYetUsed(isa, lin, x, l, y);
      }
    }
  }

  lemma NotYetUsed(isa: Hierarchy, lin: Lines, x: Stash, l: Line, y: Stash)
    requires Solves(isa, lin) && x in isa && x !in lin && LineFrom(lin, x, isa[x]) == Some(l)
    requires forall p :: p in isa[x] && p in isa ==> p in lin
    requires y in lin || y == x
    ensures LineAt(isa, lin[x := l], y)
  {
    assert y in lin ==> LineAt(isa, lin, y);
    forall i | 0 <= i < |isa[y]| ensures isa[y][i] != x {
      assert isa[y][i] in isa[y];
    }
    assert Merged(lin[x := l], isa[y]) == Merged(lin, isa[y]);
  }

  /** No solution has a line where the merge of the remembered lines fails. */
  lemma SameMerge(isa: Hierarchy, linear: Lines, lin: Lines, x: Stash)
    requires Solves(isa, linear) && Solves(isa, lin) && x in lin && isa[x] != []
    requires forall p :: p in isa[x] && p in isa ==> p in linear
    ensures Merge(Merged(linear, isa[x])).Some?
  {
    assert LineAt(isa, lin, x);
    forall i | 0 <= i < |isa[x]| ensures LineIn(linear, isa[x][i]) == LineIn(lin, isa[x][i]) {
      var p := isa[x][i];
      assert p in isa[x];
      if p in isa {
        OneLine(isa, linear, lin, p);
      }
    }
    assert Merged(linear, isa[x]) == Merged(lin, isa[x]);
  }
}
