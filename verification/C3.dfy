/**
 The C3 linearization of @ISA (mro.c): a class, then the merge of its parents' linearizations and of
 its list of parents.
 */
module C3 {
  import opened Basics
  import opened Mro

  type Line = seq<Stash>
  type Hierarchy = map<Stash, seq<Stash>>   // the @ISA of every stash

  // ---------------------------------------------------------------- the merge

  function TailOf(l: Line): Line {
    if l == [] then [] else l[1..]
  }

  /** How often a class is in the tails of the lines, behind their heads. */
  function TailCount(lines: seq<Line>, c: Stash): nat {
    if lines == [] then 0 else TailCount(lines[..|lines| - 1], c) + Occurs(TailOf(lines[|lines| - 1]), c)
  }

  function Occurs(l: Line, c: Stash): nat {
    if l == [] then 0 else (if l[0] == c then 1 else 0) + Occurs(l[1..], c)
  }

  /** The first head, from line `i` on, that is in no tail. */
  function Candidate(lines: seq<Line>, i: nat): (r: Option<Stash>)
    requires i <= |lines|
    ensures r.Some? ==> exists j :: i <= j < |lines| && lines[j] != [] && lines[j][0] == r.value
    ensures r.Some? ==> TailCount(lines, r.value) == 0
    decreases |lines| - i
  {
    if i == |lines| then None
    else if lines[i] != [] && TailCount(lines, lines[i][0]) == 0 then Some(lines[i][0])
    else Candidate(lines, i + 1)
  }

  /** The lines without the head `c`. */
  function Dropped(lines: seq<Line>, c: Stash): (r: seq<Line>)
    ensures |r| == |lines|
    ensures forall i :: 0 <= i < |lines| ==>
              r[i] == if lines[i] != [] && lines[i][0] == c then lines[i][1..] else lines[i]
  {
    seq(|lines|, i requires 0 <= i < |lines| =>
      if lines[i] != [] && lines[i][0] == c then lines[i][1..] else lines[i])
  }

  function Total(lines: seq<Line>): nat {
    if lines == [] then 0 else Total(lines[..|lines| - 1]) + |lines[|lines| - 1]|
  }

  lemma {:induction false} DroppedTotal(lines: seq<Line>, c: Stash)
    ensures Total(Dropped(lines, c)) <= Total(lines)
    ensures (exists j :: 0 <= j < |lines| && lines[j] != [] && lines[j][0] == c) ==>
              Total(Dropped(lines, c)) < Total(lines)
  {
    if lines != [] {
      var n := |lines| - 1;
      assert Dropped(lines, c)[..n] == Dropped(lines[..n], c);
      DroppedTotal(lines[..n], c);
      if j :| 0 <= j < |lines| && lines[j] != [] && lines[j][0] == c && j < n {
        assert lines[..n][j] == lines[j];
      }
    }
  }

  predicate AllEmpty(lines: seq<Line>) {
    forall i :: 0 <= i < |lines| ==> lines[i] == []
  }

  /** Take the candidate off, again and again; no candidate means that the hierarchy is
      inconsistent. */
  function Merge(lines: seq<Line>): Option<Line>
    decreases Total(lines)
  {
    if AllEmpty(lines) then Some([])
    else
      var c := Candidate(lines, 0);
      if c.None? then None
      else
        DroppedTotal(lines, c.value);
        var m := Merge(Dropped(lines, c.value));
        if m.None? then None else Some([c.value] + m.value)
  }

  // ---------------------------------------------------------------- what a merge is

  ghost predicate Mentioned(lines: seq<Line>, c: Stash) {
    exists i :: 0 <= i < |lines| && c in lines[i]
  }

  lemma {:induction false} OccursIn(l: Line, c: Stash)
    ensures Occurs(l, c) > 0 <==> c in l
  {
    if l != [] {
      OccursIn(l[1..], c);
      assert l == [l[0]] + l[1..];
    }
  }

  lemma {:induction false} TailCountIn(lines: seq<Line>, c: Stash, i: nat)
    requires i < |lines| && TailCount(lines, c) == 0
    ensures c !in TailOf(lines[i])
  {
    var n := |lines| - 1;
    OccursIn(TailOf(lines[n]), c);
    if i < n {
      TailCountIn(lines[..n], c, i);
    }
  }

  /** A candidate is gone from all lines once it is dropped; nothing else goes. */
  lemma DroppedMentions(lines: seq<Line>, c: Stash, d: Stash)
    requires TailCount(lines, c) == 0
    ensures Mentioned(Dropped(lines, c), d) <==> d != c && Mentioned(lines, d)
  {
    forall i | 0 <= i < |lines|
      ensures d in Dropped(lines, c)[i] <==> d != c && d in lines[i]
    {
      TailCountIn(lines, c, i);
      if lines[i] != [] {
        assert lines[i] == [lines[i][0]] + lines[i][1..];
      }
    }
    if Mentioned(lines, d) && d != c {
      var i :| 0 <= i < |lines| && d in lines[i];
      assert d in Dropped(lines, c)[i];
    }
  }

  ghost predicate Distinct(l: Line) {
    forall i, j :: 0 <= i < j < |l| ==> l[i] != l[j]
  }

  /** `a` is `b` with some elements left out. */
  predicate InOrder(a: Line, b: Line) {
    a == [] || (b != [] && (if a[0] == b[0] then InOrder(a[1..], b[1..]) else InOrder(a, b[1..])))
  }

  /** A merge has exactly the classes of the lines, each once. */
  lemma {:induction false} MergeElements(lines: seq<Line>)
    requires Merge(lines).Some?
    ensures Distinct(Merge(lines).value) && forall c :: c in Merge(lines).value <==> Mentioned(lines, c)
    decreases Total(lines)
  {
    if !AllEmpty(lines) {
      var c := Candidate(lines, 0).value;
      var rest := Dropped(lines, c);
      DroppedTotal(lines, c);
      MergeElements(rest);
      var m := Merge(rest).value;
      forall d ensures Mentioned(rest, d) <==> d != c && Mentioned(lines, d) {
        DroppedMentions(lines, c, d);
      }
      assert Mentioned(lines, c);
      assert c !in m;
    }
  }

  /** And keeps the order of every line. */
  lemma {:induction false} MergeKeepsOrder(lines: seq<Line>, i: nat)
    requires Merge(lines).Some? && i < |lines|
    ensures InOrder(lines[i], Merge(lines).value)
    decreases Total(lines)
  {
    if !AllEmpty(lines) {
      var c := Candidate(lines, 0).value;
      DroppedTotal(lines, c);
      MergeKeepsOrder(Dropped(lines, c), i);
      var m := Merge(Dropped(lines, c)).value;
      assert ([c] + m)[1..] == m;
    }
  }

  // ---------------------------------------------------------------- when there is one

  /** `m` keeps the order of every line. */
  ghost predicate Respects(lines: seq<Line>, m: Line) {
    Distinct(m) && forall i :: 0 <= i < |lines| ==> InOrder(lines[i], m)
  }

  lemma {:induction false} InOrderIn(a: Line, b: Line, c: Stash)
    requires InOrder(a, b) && c in a
    ensures c in b
  {
    if c != b[0] {
      InOrderIn(if a[0] == b[0] then a[1..] else a, b[1..], c);
    }
  }

  lemma {:induction false} InOrderTail(a: Line, b: Line)
    requires a != [] && InOrder(a, b)
    ensures InOrder(a[1..], b)
  {
    if a[0] == b[0] {
      if |a| > 1 && a[1] == b[0] {
        InOrderTail(a[1..], b[1..]);
      }
    } else {
      InOrderTail(a, b[1..]);
      if |a| > 1 && a[1] == b[0] {
        InOrderTail(a[1..], b[1..]);
      }
    }
  }

  /** The first class of `m` can only be the head of a line. */
  lemma FirstOfAll(a: Line, m: Line)
    requires m != [] && Distinct(m) && InOrder(a, m)
    ensures m[0] in a ==> a[0] == m[0]
    ensures m[0] !in TailOf(a) && (m[0] !in a ==> InOrder(a, m[1..]))
  {
    assert m[0] !in m[1..];
    if a != [] {
      var rest := if a[0] == m[0] then a[1..] else a;
      if m[0] in rest {
        InOrderIn(rest, m[1..], m[0]);
      }
      assert a == [a[0]] + a[1..];
    }
  }

  lemma {:induction false} NoTailCount(lines: seq<Line>, c: Stash)
    requires forall i :: 0 <= i < |lines| ==> c !in TailOf(lines[i])
    ensures TailCount(lines, c) == 0
  {
    if lines != [] {
      var n := |lines| - 1;
      NoTailCount(lines[..n], c);
      OccursIn(TailOf(lines[n]), c);
    }
  }

  lemma {:induction false} CandidateFound(lines: seq<Line>, i: nat, j: nat)
    requires i <= j < |lines| && lines[j] != [] && TailCount(lines, lines[j][0]) == 0
    ensures Candidate(lines, i).Some?
    decreases j - i
  {
    if i < j && (lines[i] == [] || TailCount(lines, lines[i][0]) != 0) {
      CandidateFound(lines, i + 1, j);
    }
  }

  /** The first class of `m` that a line mentions is a candidate. */
  lemma {:induction false} OrderHasCandidate(lines: seq<Line>, m: Line)
    requires Respects(lines, m) && !AllEmpty(lines)
    ensures Candidate(lines, 0).Some?
    decreases |m|
  {
    var i :| 0 <= i < |lines| && lines[i] != [];
    assert InOrder(lines[i], m);
    forall j | 0 <= j < |lines|
      ensures m[0] in lines[j] ==> lines[j][0] == m[0]
      ensures m[0] !in TailOf(lines[j]) && (m[0] !in lines[j] ==> InOrder(lines[j], m[1..]))
    {
      FirstOfAll(lines[j], m);
    }
    if j :| 0 <= j < |lines| && m[0] in lines[j] {
      NoTailCount(lines, m[0]);
      CandidateFound(lines, 0, j);
    } else {
      OrderHasCandidate(lines, m[1..]);
    }
  }

  lemma {:induction false} OrderMerges(lines: seq<Line>, m: Line)
    requires Respects(lines, m)
    ensures Merge(lines).Some?
    decreases Total(lines)
  {
    if !AllEmpty(lines) {
      OrderHasCandidate(lines, m);
      var c := Candidate(lines, 0).value;
      DroppedTotal(lines, c);
      forall i | 0 <= i < |lines| ensures InOrder(Dropped(lines, c)[i], m) {
        assert InOrder(lines[i], m);
        if lines[i] != [] {
          InOrderTail(lines[i], m);
        }
      }
      OrderMerges(Dropped(lines, c), m);
    }
  }

  /** There is a merge exactly if some list, without repeats, keeps the order of every line. */
  lemma MergeExactly(lines: seq<Line>)
    ensures Merge(lines).Some? <==> exists m :: Respects(lines, m)
  {
    if Merge(lines).Some? {
      MergeElements(lines);
      forall i | 0 <= i < |lines| ensures InOrder(lines[i], Merge(lines).value) {
        MergeKeepsOrder(lines, i);
      }
      assert Respects(lines, Merge(lines).value);
    }
    if m :| Respects(lines, m) {
      OrderMerges(lines, m);
    }
  }

  // ---------------------------------------------------------------- which one it is

  /** A line without the classes in `gone`. */
  function Less(l: Line, gone: set<Stash>): Line {
    if l == [] then []
    else if l[0] in gone then Less(l[1..], gone)
    else [l[0]] + Less(l[1..], gone)
  }

  function AllLess(lines: seq<Line>, gone: set<Stash>): (r: seq<Line>)
    ensures |r| == |lines| && forall i :: 0 <= i < |lines| ==> r[i] == Less(lines[i], gone)
  {
    seq(|lines|, i requires 0 <= i < |lines| => Less(lines[i], gone))
  }

  /** The class is behind the head of some line. */
  ghost predicate Behind(lines: seq<Line>, c: Stash) {
    exists j, p :: 0 <= j < |lines| && 0 < p < |lines[j]| && lines[j][p] == c
  }

  /** Line `i` is the first with a head that is behind no head. */
  ghost predicate FirstFree(lines: seq<Line>, i: nat) {
    && i < |lines| && lines[i] != [] && !Behind(lines, lines[i][0])
    && forall j :: 0 <= j < i && lines[j] != [] ==> Behind(lines, lines[j][0])
  }

  /** Each class of `r` is the first free head of what the classes before it leave of the lines, and
      nothing is left in the end. */
  ghost predicate Greedy(lines: seq<Line>, r: Line) {
    && (forall k :: 0 <= k < |r| ==> Picked(AllLess(lines, Elements(r[..k])), r[k]))
    && AllEmpty(AllLess(lines, Elements(r)))
  }

  ghost predicate Picked(lines: seq<Line>, c: Stash) {
    exists i: nat :: FirstFree(lines, i) && lines[i][0] == c
  }

  lemma {:induction false} LessNothing(l: Line)
    ensures Less(l, {}) == l
  {
    if l != [] {
      LessNothing(l[1..]);
    }
  }

  lemma {:induction false} LessTwice(l: Line, a: set<Stash>, b: set<Stash>)
    ensures Less(Less(l, a), b) == Less(l, a + b)
  {
    if l != [] {
      LessTwice(l[1..], a, b);
      assert ([l[0]] + Less(l[1..], a))[1..] == Less(l[1..], a);
    }
  }

  lemma {:induction false} LessOthers(l: Line, c: Stash)
    requires c !in l
    ensures Less(l, {c}) == l
  {
    if l != [] {
      LessOthers(l[1..], c);
    }
  }

  lemma BehindCounts(lines: seq<Line>, c: Stash)
    ensures TailCount(lines, c) == 0 <==> !Behind(lines, c)
  {
    if TailCount(lines, c) == 0 {
      forall j, p | 0 <= j < |lines| && 0 < p < |lines[j]| ensures lines[j][p] != c {
        TailCountIn(lines, c, j);
        assert lines[j][p] == TailOf(lines[j])[p - 1];
      }
    } else if !Behind(lines, c) {
      forall j | 0 <= j < |lines| ensures c !in TailOf(lines[j]) {
        assert forall p :: 0 < p < |lines[j]| ==> lines[j][p] != c;
      }
      NoTailCount(lines, c);
    }
  }

  /** The candidate is the first free head. */
  lemma {:induction false} CandidateIsFirst(lines: seq<Line>, i: nat)
    requires i <= |lines| && forall j :: 0 <= j < i && lines[j] != [] ==> Behind(lines, lines[j][0])
    ensures Candidate(lines, i).Some? ==> Picked(lines, Candidate(lines, i).value)
    ensures Candidate(lines, i).None? ==> forall j :: 0 <= j < |lines| && lines[j] != [] ==> Behind(lines, lines[j][0])
    decreases |lines| - i
  {
    if i < |lines| {
      if lines[i] != [] {
        BehindCounts(lines, lines[i][0]);
      }
      if lines[i] != [] && TailCount(lines, lines[i][0]) == 0 {
        assert FirstFree(lines, i);
      } else {
        CandidateIsFirst(lines, i + 1);
      }
    }
  }

  lemma PickedOnce(lines: seq<Line>, c: Stash, d: Stash)
    requires Picked(lines, c) && Picked(lines, d)
    ensures c == d
  {
    var i: nat :| FirstFree(lines, i) && lines[i][0] == c;
    var j: nat :| FirstFree(lines, j) && lines[j][0] == d;
    assert i == j;
  }

  lemma LineLess(l: Line, c: Stash)
    requires c !in TailOf(l)
    ensures Less(l, {c}) == if l != [] && l[0] == c then l[1..] else l
  {
    if l != [] {
      LessOthers(l[1..], c);
    }
  }

  /** Dropping a head that is behind no head takes it out of the lines altogether. */
  lemma DroppedIsLess(lines: seq<Line>, c: Stash)
    requires TailCount(lines, c) == 0
    ensures Dropped(lines, c) == AllLess(lines, {c})
  {
    forall i | 0 <= i < |lines| ensures Dropped(lines, c)[i] == AllLess(lines, {c})[i] {
      TailCountIn(lines, c, i);
      LineLess(lines[i], c);
    }
  }

  lemma LessFurther(lines: seq<Line>, c: Stash, gone: set<Stash>)
    requires TailCount(lines, c) == 0
    ensures AllLess(Dropped(lines, c), gone) == AllLess(lines, {c} + gone)
  {
    DroppedIsLess(lines, c);
    forall i | 0 <= i < |lines| ensures AllLess(Dropped(lines, c), gone)[i] == Less(lines[i], {c} + gone) {
      LessTwice(lines[i], {c}, gone);
    }
  }

  lemma ElementsFirst(r: Line, k: nat)
    requires r != [] && k < |r|
    ensures Elements(r[..k + 1]) == {r[0]} + Elements(r[1..][..k])
  {
    assert r[..k + 1] == [r[0]] + r[1..][..k];
  }

  /** The first class taken, and then the same from what is left. */
  lemma GreedyStep(lines: seq<Line>, r: Line)
    requires r != [] && TailCount(lines, r[0]) == 0
    ensures Greedy(lines, r) <==> Picked(lines, r[0]) && Greedy(Dropped(lines, r[0]), r[1..])
  {
    var c, rest := r[0], r[1..];
    forall k | 0 <= k < |r|
      ensures AllLess(lines, Elements(r[..k + 1])) == AllLess(Dropped(lines, c), Elements(rest[..k]))
    {
      ElementsFirst(r, k);
      LessFurther(lines, c, Elements(rest[..k]));
    }
    assert r[..|r|] == r && rest[..|r| - 1] == rest;
    NothingGone(lines);
    assert r[..0] == [];
    GreedyPicks(lines, r);
  }

  lemma NothingGone(lines: seq<Line>)
    ensures AllLess(lines, Elements([])) == lines
  {
    assert Elements([]) == {};
    forall i | 0 <= i < |lines| ensures Less(lines[i], {}) == lines[i] {
      LessNothing(lines[i]);
    }
  }

  lemma GreedyPicks(lines: seq<Line>, r: Line)
    requires r != [] && TailCount(lines, r[0]) == 0 && AllLess(lines, Elements(r[..0])) == lines
    requires forall k :: 0 <= k < |r| ==>
               AllLess(lines, Elements(r[..k + 1])) == AllLess(Dropped(lines, r[0]), Elements(r[1..][..k]))
    ensures (forall k :: 0 <= k < |r| ==> Picked(AllLess(lines, Elements(r[..k])), r[k])) <==>
              && Picked(lines, r[0])
              && forall k :: 0 <= k < |r| - 1 ==>
                   Picked(AllLess(Dropped(lines, r[0]), Elements(r[1..][..k])), r[1..][k])
  {
    var rest := r[1..];
    assert forall k :: 0 <= k < |rest| ==> rest[k] == r[k + 1];
    if forall k :: 0 <= k < |r| ==> Picked(AllLess(lines, Elements(r[..k])), r[k]) {
      forall k | 0 <= k < |rest| ensures Picked(AllLess(Dropped(lines, r[0]), Elements(rest[..k])), rest[k]) {
        assert Picked(AllLess(lines, Elements(r[..k + 1])), r[k + 1]);
      }
      assert Picked(AllLess(lines, Elements(r[..0])), r[0]);
    }
    if Picked(lines, r[0]) &&
       forall k :: 0 <= k < |rest| ==> Picked(AllLess(Dropped(lines, r[0]), Elements(rest[..k])), rest[k]) {
      forall k | 0 <= k < |r| ensures Picked(AllLess(lines, Elements(r[..k])), r[k]) {
        if k > 0 {
          assert Picked(AllLess(Dropped(lines, r[0]), Elements(rest[..k - 1])), rest[k - 1]);
        }
      }
    }
  }

  lemma GreedyStarts(lines: seq<Line>, r: Line)
    ensures r == [] ==> (Greedy(lines, r) <==> AllEmpty(lines))
    ensures r != [] && Greedy(lines, r) ==> Picked(lines, r[0])
  {
    NothingGone(lines);
    if r != [] && Greedy(lines, r) {
      assert Picked(AllLess(lines, Elements(r[..0])), r[0]);
      assert r[..0] == [];
    }
  }

  /** A merge begins with the first free head, or with nothing. */
  lemma MergeTakes(lines: seq<Line>, c: Stash)
    requires Picked(lines, c)
    ensures TailCount(lines, c) == 0 && Total(Dropped(lines, c)) < Total(lines)
    ensures var m := Merge(Dropped(lines, c));
            Merge(lines) == if m.None? then None else Some([c] + m.value)
  {
    CandidateIsFirst(lines, 0);
    var i: nat :| FirstFree(lines, i) && lines[i][0] == c;
    if Candidate(lines, 0).Some? {
      PickedOnce(lines, c, Candidate(lines, 0).value);
    }
    DroppedTotal(lines, c);
  }

  lemma MergeCons(lines: seq<Line>, r: Line)
    requires r != [] && Picked(lines, r[0])
    ensures Total(Dropped(lines, r[0])) < Total(lines)
    ensures Merge(lines) == Some(r) <==> Merge(Dropped(lines, r[0])) == Some(r[1..])
  {
    MergeTakes(lines, r[0]);
    ConsIs(Merge(Dropped(lines, r[0])), r);
  }

  lemma ConsIs(m: Option<Line>, r: Line)
    requires r != []
    ensures (if m.None? then None else Some([r[0]] + m.value)) == Some(r) <==> m == Some(r[1..])
  {
    assert r == [r[0]] + r[1..];
  }

  lemma GreedyCons(lines: seq<Line>, r: Line)
    requires r != [] && Picked(lines, r[0])
    ensures Greedy(lines, r) <==> Greedy(Dropped(lines, r[0]), r[1..])
  {
    BehindCounts(lines, r[0]);
    GreedyStep(lines, r);
  }

  lemma MergeEnds(lines: seq<Line>)
    requires forall c :: !Picked(lines, c)
    ensures Merge(lines) == if AllEmpty(lines) then Some([]) else None
  {
    CandidateIsFirst(lines, 0);
  }

  lemma NothingPicked(lines: seq<Line>)
    requires AllEmpty(lines)
    ensures forall c :: !Picked(lines, c)
  {
  }

  /** The merge is the list in which every class is the first head, in the order of the lines, that is
      behind no head of what the classes before it have left of them; and there is a merge exactly if
      there is such a list. */
  lemma {:induction false} MergeIs(lines: seq<Line>, r: Line)
    ensures Merge(lines) == Some(r) <==> Greedy(lines, r)
    decreases Total(lines)
  {
    GreedyStarts(lines, r);
    if AllEmpty(lines) {
      NothingPicked(lines);
    }
    if r != [] && Picked(lines, r[0]) {
      MergeCons(lines, r);
      GreedyCons(lines, r);
      MergeIs(Dropped(lines, r[0]), r[1..]);
    } else if c :| Picked(lines, c) {
      MergeTakes(lines, c);
    } else {
      MergeEnds(lines);
    }
  }

  // ---------------------------------------------------------------- lines without a common class

  function Concat(lines: seq<Line>): Line {
    if lines == [] then [] else lines[0] + Concat(lines[1..])
  }

  ghost predicate Apart(lines: seq<Line>) {
    forall i, j, c :: 0 <= i < j < |lines| && c in lines[i] ==> c !in lines[j]
  }

  /** `ps` are the heads of the lines from `from` on. */
  ghost predicate HeadsFrom(lines: seq<Line>, from: nat, ps: Line) {
    && from <= |lines| && |ps| == |lines| - from
    && forall j :: from <= j < |lines| ==> lines[j] != [] && ps[j - from] == lines[j][0]
  }

  lemma {:induction false} ConcatStep(lines: seq<Line>, n: nat)
    requires n < |lines| && lines[n] != [] && forall i :: 0 <= i < n ==> lines[i] == []
    ensures Concat(lines) == [lines[n][0]] + Concat(lines[n := lines[n][1..]])
  {
    var now := lines[n := lines[n][1..]];
    if n == 0 {
      assert now[1..] == lines[1..];
      assert lines[0] == [lines[0][0]] + now[0];
    } else {
      ConcatStep(lines[1..], n - 1);
      assert now[1..] == lines[1..][n - 1 := lines[n][1..]];
      assert [] + Concat(lines[1..]) == Concat(lines[1..]) && [] + Concat(now[1..]) == Concat(now[1..]);
    }
  }

  lemma {:induction false} ConcatEmpty(lines: seq<Line>)
    requires AllEmpty(lines)
    ensures Concat(lines) == []
  {
    if lines != [] {
      ConcatEmpty(lines[1..]);
    }
  }

  /** All before line `n` is used up; `ps` are the heads of the lines that have not been begun. */
  ghost predicate Remaining(lines: seq<Line>, n: nat, from: nat, ps: Line) {
    && Apart(lines) && (forall j :: 0 <= j < |lines| ==> Distinct(lines[j]))
    && n <= from <= n + 1 && HeadsFrom(lines, from, ps)
    && forall i :: 0 <= i < n ==> i < |lines| && lines[i] == []
  }

  lemma RemainingFree(lines: seq<Line>, n: nat, from: nat, ps: Line)
    requires Remaining(lines, n, from, ps) && n < |lines| && lines[n] != []
    ensures FirstFree(lines + [ps], n)
  {
    var all, c := lines + [ps], lines[n][0];
    forall j, p | 0 <= j < |all| && 0 < p < |all[j]| ensures all[j][p] != c {
      if j < |lines| {
        assert lines[j] in lines && c in lines[n] && lines[j][p] in lines[j];
      } else {
        assert ps[from + p - from] == lines[from + p][0] && ps[p] in lines[from + p];
      }
    }
  }

  lemma RemainingStep(lines: seq<Line>, n: nat, from: nat, ps: Line)
    requires Remaining(lines, n, from, ps) && n < |lines| && lines[n] != []
    ensures Remaining(lines[n := lines[n][1..]], n, n + 1, if from == n then ps[1..] else ps)
  {
    var now, rest := lines[n := lines[n][1..]], if from == n then ps[1..] else ps;
    assert forall c :: c in now[n] ==> c in lines[n];
    forall j | 0 <= j < |now| ensures Distinct(now[j]) {
      assert Distinct(lines[j]);
    }
    forall j | n + 1 <= j < |now| ensures now[j] != [] && rest[j - n - 1] == now[j][0] {
      assert lines[j] != [] && ps[j - from] == lines[j][0];
    }
  }

  lemma RemainingDropped(lines: seq<Line>, n: nat, from: nat, ps: Line)
    requires Remaining(lines, n, from, ps) && n < |lines| && lines[n] != []
    ensures Dropped(lines + [ps], lines[n][0]) ==
            lines[n := lines[n][1..]] + [if from == n then ps[1..] else ps]
  {
    forall i | 0 <= i < |lines| && i != n ensures lines[i] == [] || lines[i][0] != lines[n][0] {
      if lines[i] != [] {
        assert lines[i][0] in lines[i] && lines[n][0] in lines[n];
      }
    }
    if from == n + 1 && ps != [] {
      assert ps[n + 1 - from] == lines[n + 1][0];
    } else if from == n {
      assert ps[n - from] == lines[n][0];
    }
  }

  /** Lines that have no class in common, merged with the list of their heads, follow one another. */
  lemma {:induction false} MergeApart(lines: seq<Line>, n: nat, from: nat, ps: Line)
    requires Remaining(lines, n, from, ps)
    ensures Merge(lines + [ps]) == Some(Concat(lines))
    decreases |lines| - n, if n < |lines| then |lines[n]| else 0
  {
    if n == |lines| {
      assert AllEmpty(lines + [ps]);
      ConcatEmpty(lines);
    } else if lines[n] == [] {
      MergeApart(lines, n + 1, n + 1, ps);
    } else {
      var now, rest := lines[n := lines[n][1..]], if from == n then ps[1..] else ps;
      RemainingStep(lines, n, from, ps);
      MergeApart(now, n, n + 1, rest);
      ConcatStep(lines, n);
      ApartStep(lines, n, from, ps, Concat(now));
    }
  }

  lemma ApartStep(lines: seq<Line>, n: nat, from: nat, ps: Line, m: Line)
    requires Remaining(lines, n, from, ps) && n < |lines| && lines[n] != []
    requires Merge(lines[n := lines[n][1..]] + [if from == n then ps[1..] else ps]) == Some(m)
    ensures Merge(lines + [ps]) == Some([lines[n][0]] + m)
  {
    RemainingFree(lines, n, from, ps);
    assert Picked(lines + [ps], lines[n][0]);
    MergeTakes(lines + [ps], lines[n][0]);
    RemainingDropped(lines, n, from, ps);
  }

  // ---------------------------------------------------------------- a single parent

  lemma TailsOfTwo(lines: seq<Line>, c: Stash)
    requires |lines| == 2
    ensures TailCount(lines, c) == Occurs(TailOf(lines[0]), c) + Occurs(TailOf(lines[1]), c)
  {
    var front := lines[..1];
    assert TailCount(lines, c) == TailCount(front, c) + Occurs(TailOf(lines[1]), c);
    assert TailCount(front, c) == TailCount(front[..0], c) + Occurs(TailOf(front[0]), c);
    assert front[..0] == [];
  }

  lemma HeadNotInTail(l: Line)
    requires Distinct(l) && l != []
    ensures Occurs(TailOf(l), l[0]) == 0 && Distinct(TailOf(l))
  {
    OccursIn(TailOf(l), l[0]);
    assert forall i :: 0 <= i < |l[1..]| ==> l[1..][i] == l[i + 1];
  }

  lemma FirstTaken(lines: seq<Line>, c: Stash, rest: seq<Line>)
    requires lines != [] && lines[0] != [] && lines[0][0] == c && TailCount(lines, c) == 0 && rest == Dropped(lines, c)
    ensures Merge(lines) == if Merge(rest).None? then None else Some([c] + Merge(rest).value)
  {
    assert Candidate(lines, 0) == Some(c);
  }

  /** When all other lines are used up there is nothing left to merge. */
  lemma {:induction false} MergeAlone(lines: seq<Line>)
    requires |lines| == 2 && lines[1] == [] && Distinct(lines[0])
    ensures Merge(lines) == Some(lines[0])
    decreases |lines[0]|
  {
    var l := lines[0];
    if l == [] {
      assert AllEmpty(lines);
    } else {
      var rest := [TailOf(l), []];
      TailsOfTwo(lines, l[0]);
      HeadNotInTail(l);
      assert Dropped(lines, l[0]) == rest;
      FirstTaken(lines, l[0], rest);
      MergeAlone(rest);
      assert [l[0]] + TailOf(l) == l;
    }
  }

  /** A single parent's linearization, merged with the list of that parent, is itself. */
  lemma MergeParent(lines: seq<Line>)
    requires |lines| == 2 && Distinct(lines[0]) && lines[0] != [] && lines[1] == [lines[0][0]]
    ensures Merge(lines) == Some(lines[0])
  {
    var l := lines[0];
    var rest := [TailOf(l), []];
    TailsOfTwo(lines, l[0]);
    HeadNotInTail(l);
    assert TailOf(lines[1]) == [];
    assert Dropped(lines, l[0]) == rest;
    FirstTaken(lines, l[0], rest);
    MergeAlone(rest);
    assert [l[0]] + TailOf(l) == l;
  }
}
