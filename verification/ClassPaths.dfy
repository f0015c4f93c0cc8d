/**
 The classes of a program, and what an assignment to the @ISA of one of them announces (mro.c).

 An assignment that dies has already changed @ISA, dated the caches and forgotten linearizations, but
 the new ancestors have not heard of the class.  They hear of it when it is assigned again.  Until then
 the class is dead; a class is clear if neither it nor an ancestor is.
 */
module ClassPaths {
  import opened Basics
  import opened Mro
  import opened SymbolTable
  import opened MethodRuns
  import opened C3
  import opened Linearization

  /** The @ISA of every class, and the classes whose last assignment died. */
  datatype Classes = Classes(isa: Hierarchy, dead: set<Stash>)

  datatype ClassOp =
    | SetIsa(s: Stash, parents: seq<Stash>)
    | DieIsa(s: Stash, parents: seq<Stash>)   // inconsistent, cyclic, or too many levels
    | NewClass(s: Stash)
    | Do(op: Op)

  function Next(c: Classes, op: ClassOp): Classes {
    match op
    case SetIsa(s, parents) => Classes(c.isa[s := parents], c.dead - {s})
    case DieIsa(s, parents) => Classes(c.isa[s := parents], c.dead + {s})
    case NewClass(s) => c.(isa := c.isa[s := []])
    case Do(_) => c
  }

  // ---------------------------------------------------------------- classes with clear ancestors

  ghost predicate ClearBy(c: Classes, lin: Lines, x: Stash) {
    Solves(c.isa, lin) && lin.Keys !! c.dead && x in lin
  }

  /** C3 gives the class a linearization, and neither it nor an ancestor is dead. */
  ghost predicate Clear(c: Classes, x: Stash) {
    exists lin :: ClearBy(c, lin, x)
  }

  ghost function LineOf(c: Classes, x: Stash): (line: Line)
    requires Clear(c, x)
    ensures exists lin :: ClearBy(c, lin, x) && lin[x] == line
  {
    var lin :| ClearBy(c, lin, x);
    lin[x]
  }

  ghost function ClearLines(c: Classes): Lines {
    map x | x in c.isa && Clear(c, x) :: LineOf(c, x)
  }

  lemma SameLine(c: Classes, a: Lines, b: Lines, x: Stash)
    requires ClearBy(c, a, x) && ClearBy(c, b, x)
    ensures a[x] == b[x]
  {
    OneLine(c.isa, a, b, x);
  }

  /** They are the only ones. */
  lemma ClearLine(c: Classes, lin: Lines, x: Stash)
    requires ClearBy(c, lin, x)
    ensures x in ClearLines(c) && ClearLines(c)[x] == lin[x]
  {
    assert x in c.isa;
    var lin' :| ClearBy(c, lin', x) && lin'[x] == LineOf(c, x);
    SameLine(c, lin', lin, x);
  }

  lemma ClearParents(c: Classes, lin: Lines, x: Stash)
    requires ClearBy(c, lin, x)
    ensures forall p :: p in c.isa[x] ==> (p in c.isa ==> ClearBy(c, lin, p)) && (p !in c.isa ==> p !in lin)
  {
  }

  lemma ClearParentLine(c: Classes, lin: Lines, x: Stash, p: Stash)
    requires ClearBy(c, lin, x) && p in c.isa[x]
    ensures LineIn(ClearLines(c), p) == LineIn(lin, p) && (p in c.isa ==> p in ClearLines(c))
  {
    ClearParents(c, lin, x);
    if p in c.isa {
      ClearLine(c, lin, p);
    }
  }

  lemma ClearLinesStep(c: Classes, x: Stash)
    requires x in ClearLines(c)
    ensures x !in c.dead && x in c.isa && LineFrom(ClearLines(c), x, c.isa[x]) == Some(ClearLines(c)[x])
    ensures forall p :: p in c.isa[x] && p in c.isa ==> p in ClearLines(c)
  {
    var lin :| ClearBy(c, lin, x) && lin[x] == LineOf(c, x);
    forall p | p in c.isa[x] ensures LineIn(ClearLines(c), p) == LineIn(lin, p) && (p in c.isa ==> p in ClearLines(c))
    {
      ClearParentLine(c, lin, x, p);
    }
    SameMerge(ClearLines(c), lin, x, c.isa[x]);
    LineStep(c.isa, lin, x);
  }

  lemma SameMerge(a: Lines, b: Lines, x: Stash, parents: seq<Stash>)
    requires forall p :: p in parents ==> LineIn(a, p) == LineIn(b, p)
    ensures LineFrom(a, x, parents) == LineFrom(b, x, parents)
  {
    assert Merged(a, parents) == Merged(b, parents);
  }

  lemma LineStep(isa: Hierarchy, lin: Lines, x: Stash)
    requires Solves(isa, lin) && x in lin
    ensures x in isa && LineFrom(lin, x, isa[x]) == Some(lin[x])
  {
    assert LineAt(isa, lin, x);
  }

  lemma ClearLinesSolve(c: Classes)
    ensures Solves(c.isa, ClearLines(c)) && ClearLines(c).Keys !! c.dead
  {
    forall x | x in ClearLines(c)
      ensures x !in c.dead && x in c.isa && LineFrom(ClearLines(c), x, c.isa[x]) == Some(ClearLines(c)[x])
      ensures forall p :: p in c.isa[x] && p in c.isa ==> p in ClearLines(c)
    {
      ClearLinesStep(c, x);
    }
  }

  // ---------------------------------------------------------------- paths of inheritance

  ghost predicate IsPath(isa: Hierarchy, p: seq<Stash>) {
    p != [] && forall i :: 0 <= i < |p| - 1 ==> p[i] in isa && p[i + 1] in isa[p[i]]
  }

  ghost predicate Avoids(p: seq<Stash>, dead: set<Stash>) {
    forall i :: 0 <= i < |p| - 1 ==> p[i] !in dead
  }

  /** Along every path on which no class is dead the end has heard of the beginning. */
  ghost predicate Covers(c: Classes, d: Dates) {
    forall p {:trigger IsPath(c.isa, p)} ::
      IsPath(c.isa, p) && Avoids(p, c.dead) && p[0] != p[|p| - 1] ==> p[0] in d.Rev(p[|p| - 1])
  }

  /** A class in the linearization is reached by a path of classes that have one. */
  lemma {:induction false} PathTo(isa: Hierarchy, lin: Lines, x: Stash, y: Stash) returns (p: seq<Stash>)
    requires Solves(isa, lin) && x in lin && y in lin[x]
    ensures IsPath(isa, p) && p[0] == x && p[|p| - 1] == y
    ensures forall i :: 0 <= i < |p| - 1 ==> p[i] in lin && p[i] != y
    decreases |lin[x]|
  {
    if x == y {
      p := [x];
    } else {
      Inherits(isa, lin, x, y);
      var i :| 0 <= i < |isa[x]| && y in LineIn(lin, isa[x][i]);
      ParentShorter(isa, lin, x, i);
      var rest := [y];
      if isa[x][i] in lin {
        rest := PathTo(isa, lin, isa[x][i], y);
      }
      p := [x] + rest;
      LongerPath(isa, x, rest);
    }
  }

  lemma LongerPath(isa: Hierarchy, x: Stash, rest: seq<Stash>)
    requires IsPath(isa, rest) && x in isa && rest[0] in isa[x]
    ensures IsPath(isa, [x] + rest)
  {
    var p := [x] + rest;
    forall i | 0 <= i < |p| - 1 ensures p[i] in isa && p[i + 1] in isa[p[i]] {
      assert i > 0 ==> p[i] == rest[i - 1] && p[i + 1] == rest[i];
    }
  }

  lemma InParentLine(isa: Hierarchy, lin: Lines, x: Stash, q: Stash, y: Stash)
    requires Solves(isa, lin) && x in lin && x in isa && q in isa[x] && y in LineIn(lin, q)
    ensures y in lin[x]
  {
    var i :| 0 <= i < |isa[x]| && isa[x][i] == q;
    Inherits(isa, lin, x, y);
  }

  /** And conversely. */
  lemma {:induction false} PathInLine(isa: Hierarchy, lin: Lines, p: seq<Stash>)
    requires Solves(isa, lin) && IsPath(isa, p) && p[0] in lin
    ensures p[|p| - 1] in LineIn(lin, p[0])
    decreases |p|
  {
    if |p| == 1 {
      LineStarts(isa, lin, p[0]);
    } else {
      assert p[1] in isa[p[0]];
      SubPath(isa, p, 1);
      if p[1] in isa {
        PathInLine(isa, lin, p[1..]);
      } else {
        PathStops(isa, p);
        LineStarts(isa, lin, p[1]);
      }
      InParentLine(isa, lin, p[0], p[1], p[|p| - 1]);
    }
  }

  lemma PathStops(isa: Hierarchy, p: seq<Stash>)
    requires IsPath(isa, p) && |p| > 1 && p[1] !in isa
    ensures |p| == 2
  {
  }

  lemma SubPath(isa: Hierarchy, p: seq<Stash>, i: nat)
    requires IsPath(isa, p) && i < |p|
    ensures IsPath(isa, p[i..]) && IsPath(isa, p[..i + 1])
    ensures p[i..][0] == p[i] && p[i..][|p| - i - 1] == p[|p| - 1] && p[..i + 1][i] == p[i]
  {
  }

  /** So the dates of the caches are prepared for changes of methods. */
  lemma CoversLines(c: Classes, d: Dates)
    requires Covers(c, d) && d.linear == ClearLines(c)
    ensures RevCovers(d)
  {
    ClearLinesSolve(c);
    forall x, y | x in d.linear && y in d.linear[x] && y != x ensures x in d.Rev(y) {
      var p := PathTo(c.isa, d.linear, x, y);
      assert Avoids(p, c.dead);
    }
  }

  // ---------------------------------------------------------------- an assignment

  /** `was` without the classes that inherit from `s`. */
  function Spared(lin: Lines, s: Stash): Lines {
    map x | x in lin && s !in lin[x] :: lin[x]
  }

  /** Classes that do not inherit from `s` keep their linearizations. */
  lemma SparedSolve(isa: Hierarchy, s: Stash, parents: seq<Stash>, lin: Lines)
    requires s in isa && Solves(isa[s := parents], lin)
    ensures Solves(isa, Spared(lin, s)) && s !in Spared(lin, s)
  {
    forall x | x in Spared(lin, s)
      ensures x in isa && LineFrom(Spared(lin, s), x, isa[x]) == Some(lin[x])
      ensures forall p :: p in isa[x] && p in isa ==> p in Spared(lin, s)
    {
      SparedStep(isa, s, parents, lin, x);
    }
    if s in lin {
      LineStarts(isa[s := parents], lin, s);
    }
  }

  lemma SparedStep(isa: Hierarchy, s: Stash, parents: seq<Stash>, lin: Lines, x: Stash)
    requires s in isa && Solves(isa[s := parents], lin) && x in lin && s !in lin[x]
    ensures x in isa && LineFrom(Spared(lin, s), x, isa[x]) == Some(lin[x])
    ensures forall p :: p in isa[x] && p in isa ==> p in Spared(lin, s)
  {
    var now := isa[s := parents];
    LineStarts(now, lin, x);
    LineStep(now, lin, x);
    assert x != s && now[x] == isa[x];
    forall p | p in isa[x] ensures LineIn(Spared(lin, s), p) == LineIn(lin, p) && (p in isa ==> p in Spared(lin, s)) {
      var i :| 0 <= i < |now[x]| && now[x][i] == p;
      SparedParent(now, lin, x, i, s);
    }
    SameMerge(Spared(lin, s), lin, x, isa[x]);
  }

  lemma SparedParent(isa: Hierarchy, lin: Lines, x: Stash, i: nat, s: Stash)
    requires Solves(isa, lin) && x in lin && i < |isa[x]| && s !in lin[x]
    ensures var p := isa[x][i];
            (p in isa ==> p in lin) && (p in lin ==> s !in lin[p])
  {
    Inherits(isa, lin, x, s);
    assert isa[x][i] in isa[x];
  }

  lemma SparedClear(c: Classes, s: Stash, parents: seq<Stash>, lin: Lines, x: Stash)
    requires s in c.isa && Solves(c.isa[s := parents], lin) && lin.Keys !! c.dead - {s} && x in lin && s !in lin[x]
    ensures x in ClearLines(c) && ClearLines(c)[x] == lin[x]
  {
    SparedSolve(c.isa, s, parents, lin);
    ClearLine(c, Spared(lin, s), x);
  }

  /** The same path before @ISA of `s` changed, if it does not go on from `s`. */
  lemma PathElsewhere(isa: Hierarchy, s: Stash, parents: seq<Stash>, p: seq<Stash>)
    requires s in isa && IsPath(isa[s := parents], p) && Avoids(p, {s})
    ensures IsPath(isa, p)
  {
    forall i | 0 <= i < |p| - 1 ensures p[i] in isa && p[i + 1] in isa[p[i]] {
      assert p[i] != s;
    }
  }

  /** Where a path first comes to `s`. */
  lemma {:induction false} FirstAt(p: seq<Stash>, s: Stash, j: nat) returns (i: nat)
    requires j < |p| && p[j] == s
    ensures i <= j && p[i] == s && forall k :: 0 <= k < i ==> p[k] != s
    decreases j
  {
    i := j;
    if k :| 0 <= k < j && p[k] == s {
      i := FirstAt(p, s, k);
    }
  }

  /** Who must hear of a class after an assignment to `s` has heard before, or is of the family. */
  lemma PathHeard(c: Classes, d: Dates, s: Stash, parents: seq<Stash>, lin: Lines, p: seq<Stash>)
    requires s in c.isa && Covers(c, d) && Solves(c.isa[s := parents], lin) && s in lin
    requires IsPath(c.isa[s := parents], p) && Avoids(p, c.dead - {s}) && p[0] != p[|p| - 1]
    ensures lin[s] != []
    ensures p[0] in d.Rev(p[|p| - 1]) || (p[|p| - 1] in lin[s][1..] && p[0] in Family(d, s))
  {
    var now := c.isa[s := parents];
    LineStarts(now, lin, s);
    if Avoids(p, {s}) {
      PathElsewhere(c.isa, s, parents, p);
      assert Avoids(p, c.dead);
    } else {
      var j :| 0 <= j < |p| - 1 && p[j] == s;
      var i := FirstAt(p, s, j);
      PathUpTo(c, d, s, parents, p, i);
      PathOnFrom(now, lin, p, i);
      assert lin[s] == [s] + lin[s][1..];
    }
  }

  lemma PathOnFrom(isa: Hierarchy, lin: Lines, p: seq<Stash>, i: nat)
    requires Solves(isa, lin) && IsPath(isa, p) && i < |p| && p[i] in lin
    ensures p[|p| - 1] in lin[p[i]]
  {
    SubPath(isa, p, i);
    PathInLine(isa, lin, p[i..]);
  }

  lemma PathUpTo(c: Classes, d: Dates, s: Stash, parents: seq<Stash>, p: seq<Stash>, i: nat)
    requires s in c.isa && Covers(c, d) && IsPath(c.isa[s := parents], p) && Avoids(p, c.dead - {s})
    requires i < |p| - 1 && p[i] == s && forall k :: 0 <= k < i ==> p[k] != s
    ensures p[0] in Family(d, s)
  {
    if i > 0 {
      var q := p[..i + 1];
      SubPath(c.isa[s := parents], p, i);
      PathElsewhere(c.isa, s, parents, q);
      assert Avoids(q, c.dead);
    }
  }

  /** The tables belong to the classes. */
  ghost predicate Tied(d: Dates, c: Classes) {
    && d.cacheGen.Keys == c.isa.Keys && d.linear == ClearLines(c)
    && Covers(c, d) && c.dead <= c.isa.Keys
  }

  /** C3 gives the class a linearization. */
  ghost predicate Linearizable(isa: Hierarchy, s: Stash) {
    Clear(Classes(isa, {}), s)
  }

  ghost function NewLine(isa: Hierarchy, s: Stash): (line: Line)
    requires Linearizable(isa, s)
    ensures line != [] && line[0] == s
    ensures exists lin :: Solves(isa, lin) && s in lin && lin[s] == line
  {
    var lin :| ClearBy(Classes(isa, {}), lin, s) && lin[s] == LineOf(Classes(isa, {}), s);
    LineStarts(isa, lin, s);
    lin[s]
  }

  lemma ClearLineStarts(c: Classes, x: Stash)
    requires x in ClearLines(c)
    ensures ClearLines(c)[x] != [] && ClearLines(c)[x][0] == x && x in c.isa
  {
    ClearLinesSolve(c);
    LineStarts(c.isa, ClearLines(c), x);
  }

  /** A class that is not of the family is as clear as it was, and has the linearization it had. */
  lemma OutsideFamily(c: Classes, d: Dates, s: Stash, parents: seq<Stash>, x: Stash)
    requires Tied(d, c) && s in c.isa
    requires x in ClearLines(Next(c, SetIsa(s, parents))) && x !in Family(d, s)
    ensures x in d.linear && ClearLines(Next(c, SetIsa(s, parents)))[x] == d.linear[x]
  {
    var now := Next(c, SetIsa(s, parents));
    var lin := ClearLines(now);
    ClearLinesSolve(now);
    if s in lin[x] {
      HeirHeard(c, d, s, parents, lin, x);
    }
    SparedClear(c, s, parents, lin, x);
  }

  lemma HeirHeard(c: Classes, d: Dates, s: Stash, parents: seq<Stash>, lin: Lines, x: Stash)
    requires Covers(c, d) && s in c.isa && Solves(c.isa[s := parents], lin) && lin.Keys !! c.dead - {s}
    requires x in lin && s in lin[x]
    ensures x in Family(d, s)
  {
    var p := PathTo(c.isa[s := parents], lin, x, s);
    assert Avoids(p, {s});
    PathElsewhere(c.isa, s, parents, p);
    assert Avoids(p, c.dead);
  }

  /** Who inherits from a class now has heard of it, or hears of it through the assignment. */
  lemma AncestorHeard(c: Classes, d: Dates, s: Stash, parents: seq<Stash>, lin: Lines, line: Line, x: Stash, y: Stash)
    requires Tied(d, c) && s in c.isa && Linearizable(c.isa[s := parents], s) && line == NewLine(c.isa[s := parents], s)
    requires Solves(c.isa[s := parents], lin) && lin.Keys !! c.dead - {s} && x in lin && y in lin[x] && y != x
    ensures x in d.Rev(y) || (y in line[1..] && x in Family(d, s))
  {
    var now := c.isa[s := parents];
    var p := PathTo(now, lin, x, y);
    assert Avoids(p, c.dead - {s});
    var lin' :| Solves(now, lin') && s in lin' && lin'[s] == line;
    PathHeard(c, d, s, parents, lin', p);
  }

  lemma AssignedLine(c: Classes, s: Stash, parents: seq<Stash>)
    requires s in c.isa && Linearizable(c.isa[s := parents], s)
    requires s in ClearLines(Next(c, SetIsa(s, parents)))
    ensures ClearLines(Next(c, SetIsa(s, parents)))[s] == NewLine(c.isa[s := parents], s)
  {
    var now := Next(c, SetIsa(s, parents));
    ClearLinesSolve(now);
    var lin :| Solves(now.isa, lin) && s in lin && lin[s] == NewLine(now.isa, s);
    OneLine(now.isa, ClearLines(now), lin, s);
  }

  /** An assignment that goes well is a change that the caches are prepared for. */
  lemma AssignmentHeard(c: Classes, d: Dates, s: Stash, parents: seq<Stash>)
    requires Tied(d, c) && s in c.isa && Linearizable(c.isa[s := parents], s)
    ensures Heard(d, s, ClearLines(Next(c, SetIsa(s, parents))), NewLine(c.isa[s := parents], s))
  {
    var lin, line := ClearLines(Next(c, SetIsa(s, parents))), NewLine(c.isa[s := parents], s);
    AssignmentOutside(c, d, s, parents, lin);
    ClearLinesSolve(Next(c, SetIsa(s, parents)));
    AssignmentAncestors(c, d, s, parents, lin, line);
    if s in lin {
      AssignedLine(c, s, parents);
    }
  }

  lemma AssignmentOutside(c: Classes, d: Dates, s: Stash, parents: seq<Stash>, lin: Lines)
    requires Tied(d, c) && s in c.isa && lin == ClearLines(Next(c, SetIsa(s, parents)))
    ensures OnlyFamily(d, s, lin)
  {
    forall x | x in lin ensures lin[x] != [] && lin[x][0] == x && x in d.cacheGen {
      ClearLineStarts(Next(c, SetIsa(s, parents)), x);
    }
    forall x | x in lin && x !in Family(d, s) ensures x in d.linear && lin[x] == d.linear[x] {
      OutsideFamily(c, d, s, parents, x);
    }
  }

  lemma AssignmentAncestors(c: Classes, d: Dates, s: Stash, parents: seq<Stash>, lin: Lines, line: Line)
    requires Tied(d, c) && s in c.isa && Linearizable(c.isa[s := parents], s) && line == NewLine(c.isa[s := parents], s)
    requires Solves(c.isa[s := parents], lin) && lin.Keys !! c.dead - {s}
    ensures FamilyHears(d, s, lin, line)
  {
    forall x, y | x in lin && y in lin[x] && y != x
      ensures x in d.Rev(y) || (y in line[1..] && x in Family(d, s))
    {
      AncestorHeard(c, d, s, parents, lin, line, x, y);
    }
  }

  /** And afterwards everybody has heard, along paths without a dead class. */
  lemma AssignmentCovers(c: Classes, d: Dates, s: Stash, parents: seq<Stash>, lines: Lines)
    requires Tied(d, c) && s in c.isa && Linearizable(c.isa[s := parents], s)
    ensures Covers(Next(c, SetIsa(s, parents)), IsaChanged(d, s, lines, NewLine(c.isa[s := parents], s)))
  {
    var now := Next(c, SetIsa(s, parents));
    var line := NewLine(now.isa, s);
    var lin :| Solves(now.isa, lin) && s in lin && lin[s] == line;
    forall p | IsPath(now.isa, p) && Avoids(p, now.dead) && p[0] != p[|p| - 1]
      ensures p[0] in IsaChanged(d, s, lines, line).Rev(p[|p| - 1])
    {
      PathHeard(c, d, s, parents, lin, p);
      WithChildrenRev(d, s, lines, line, p[|p| - 1]);
    }
  }

  /** One that dies leaves fewer clear classes. */
  lemma DeathLeaves(c: Classes, s: Stash, parents: seq<Stash>)
    requires s in c.isa
    ensures Fewer(ClearLines(c), ClearLines(Next(c, DieIsa(s, parents))))
  {
    var now := Next(c, DieIsa(s, parents));
    var lin := ClearLines(now);
    ClearLinesSolve(now);
    forall x | x in lin ensures x in ClearLines(c) && lin[x] == ClearLines(c)[x] {
      if s in lin[x] {
        AncestorClear(now.isa, lin, x, s);
      }
      SparedClear(c, s, parents, lin, x);
    }
  }

  lemma AncestorClear(isa: Hierarchy, lin: Lines, x: Stash, y: Stash)
    requires Solves(isa, lin) && x in lin && y in lin[x] && y in isa
    ensures y in lin
  {
    var p := PathTo(isa, lin, x, y);
    if |p| > 1 {
      var q := p[|p| - 2];
      assert q in lin && y == p[|p| - 1];
    }
  }

  lemma DeathCovers(c: Classes, d: Dates, s: Stash, parents: seq<Stash>, lines: Lines)
    requires Covers(c, d) && s in c.isa
    ensures Covers(Next(c, DieIsa(s, parents)), IsaDied(d, s, lines))
  {
    var now := Next(c, DieIsa(s, parents));
    forall p | IsPath(now.isa, p) && Avoids(p, now.dead) && p[0] != p[|p| - 1]
      ensures p[0] in IsaDied(d, s, lines).Rev(p[|p| - 1])
    {
      assert Avoids(p, {s});
      PathElsewhere(c.isa, s, parents, p);
      assert Avoids(p, c.dead);
    }
  }

  // ---------------------------------------------------------------- a new class

  lemma WithoutNew(isa: Hierarchy, s: Stash, lin: Lines)
    requires s !in isa && Solves(isa[s := []], lin)
    ensures Solves(isa, lin - {s})
  {
    var now := isa[s := []];
    forall x | x in lin - {s}
      ensures x in isa && LineFrom(lin - {s}, x, isa[x]) == Some(lin[x])
      ensures forall p :: p in isa[x] && p in isa ==> p in lin - {s}
    {
      LineStep(now, lin, x);
      assert now[x] == isa[x];
      forall p | p in isa[x] ensures LineIn(lin - {s}, p) == LineIn(lin, p) {
        LineStarts(now, lin, p);
      }
      SameMerge(lin - {s}, lin, x, isa[x]);
    }
  }

  lemma OldClassLine(c: Classes, s: Stash, x: Stash)
    requires s !in c.isa && c.dead <= c.isa.Keys && (x == s || x in ClearLines(c))
    ensures x in ClearLines(Next(c, NewClass(s)))
    ensures ClearLines(Next(c, NewClass(s)))[x] == ClearLines(c)[s := [s]][x]
  {
    ClearLinesSolve(c);
    NewClassSolves(c.isa, ClearLines(c), s);
    ClearLine(Next(c, NewClass(s)), ClearLines(c)[s := [s]], x);
  }

  lemma NoOtherLine(c: Classes, s: Stash, x: Stash)
    requires s !in c.isa && x != s && x in ClearLines(Next(c, NewClass(s)))
    ensures x in ClearLines(c)
  {
    var lin := ClearLines(Next(c, NewClass(s)));
    ClearLinesSolve(Next(c, NewClass(s)));
    WithoutNew(c.isa, s, lin);
    ClearLine(c, lin - {s}, x);
  }

  lemma NewClassLines(c: Classes, s: Stash)
    requires s !in c.isa && c.dead <= c.isa.Keys
    ensures ClearLines(Next(c, NewClass(s))) == ClearLines(c)[s := [s]]
  {
    var a, b := ClearLines(c)[s := [s]], ClearLines(Next(c, NewClass(s)));
    forall x | x in a ensures x in b && b[x] == a[x] {
      OldClassLine(c, s, x);
    }
    forall x | x in b ensures x in a {
      if x != s {
        NoOtherLine(c, s, x);
      }
    }
  }

  lemma NewClassCovers(c: Classes, d: Dates, d': Dates, s: Stash)
    requires s !in c.isa && Covers(c, d) && d'.isarev == d.isarev
    ensures Covers(Next(c, NewClass(s)), d')
  {
    var now := Next(c, NewClass(s));
    forall p | IsPath(now.isa, p) && Avoids(p, now.dead) && p[0] != p[|p| - 1]
      ensures p[0] in d'.Rev(p[|p| - 1])
    {
      forall i | 0 <= i < |p| - 1 ensures p[i] in c.isa && p[i + 1] in c.isa[p[i]] {
        assert p[i + 1] in now.isa[p[i]];
      }
      assert IsPath(c.isa, p);
    }
  }
}
