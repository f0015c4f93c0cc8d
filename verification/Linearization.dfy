/**
 Linearizing a whole hierarchy (mro.c): what the linearizations are made of, that there is only one
 way, and what a change of one @ISA can do to them.
 */
module Linearization {
  import opened Basics
  import opened Mro
  import opened C3

  /** A name without a linearization of its own is alone. */
  function LineIn(lin: Lines, p: Stash): Line {
    if p in lin then lin[p] else [p]
  }

  /** What is merged for a class: its parents' linearizations, and the list of parents. */
  function Merged(lin: Lines, parents: seq<Stash>): (r: seq<Line>)
    ensures |r| == |parents| + 1 && r[|parents|] == parents
    ensures forall i :: 0 <= i < |parents| ==> r[i] == LineIn(lin, parents[i])
  {
    seq(|parents|, i requires 0 <= i < |parents| => LineIn(lin, parents[i])) + [parents]
  }

  /** mro_get_linear_isa_c3: the class itself, then the merge; only itself without parents. */
  function LineFrom(lin: Lines, x: Stash, parents: seq<Stash>): Option<Line> {
    if parents == [] then Some([x])
    else
      var m := Merge(Merged(lin, parents));
      if m.None? then None else Some([x] + m.value)
  }

  ghost predicate LineAt(isa: Hierarchy, lin: Lines, x: Stash) {
    x in isa && x in lin && LineFrom(lin, x, isa[x]) == Some(lin[x])
  }

  /** `lin` has the linearizations of some classes and all their ancestors. */
  ghost predicate Solves(isa: Hierarchy, lin: Lines) {
    && (forall x :: x in lin ==> x in isa && forall p :: p in isa[x] && p in isa ==> p in lin)
    && (forall x {:trigger LineAt(isa, lin, x)} :: x in lin ==> LineAt(isa, lin, x))
  }

  // ---------------------------------------------------------------- what a linearization is

  lemma LineStarts(isa: Hierarchy, lin: Lines, x: Stash)
    requires Solves(isa, lin)
    ensures LineIn(lin, x) != [] && LineIn(lin, x)[0] == x
    ensures x in lin ==> x in isa && (isa[x] == [] ==> lin[x] == [x])
    ensures x in lin && isa[x] != [] ==>
              var m := Merge(Merged(lin, isa[x]));
              m.Some? && lin[x] == [x] + m.value
  {
    assert x in lin ==> LineAt(isa, lin, x);
  }

  lemma {:induction false} InOrderLength(a: Line, b: Line)
    requires InOrder(a, b)
    ensures |a| <= |b|
  {
    if a != [] {
      InOrderLength(if a[0] == b[0] then a[1..] else a, b[1..]);
    }
  }

  /** The list of parents and each parent's own linearization keep their order behind the class. */
  lemma LineKeepsOrder(isa: Hierarchy, lin: Lines, x: Stash, i: nat)
    requires Solves(isa, lin) && x in lin && i < |isa[x]|
    ensures lin[x] != [] && InOrder(isa[x], lin[x][1..]) && InOrder(LineIn(lin, isa[x][i]), lin[x][1..])
  {
    LineStarts(isa, lin, x);
    var all := Merged(lin, isa[x]);
    assert lin[x][1..] == Merge(all).value;
    MergeKeepsOrder(all, i);
    MergeKeepsOrder(all, |isa[x]|);
  }

  lemma ParentShorter(isa: Hierarchy, lin: Lines, x: Stash, i: nat)
    requires Solves(isa, lin) && x in lin && i < |isa[x]|
    ensures |LineIn(lin, isa[x][i])| < |lin[x]|
  {
    LineKeepsOrder(isa, lin, x, i);
    InOrderLength(LineIn(lin, isa[x][i]), lin[x][1..]);
  }

  /** Behind the class are exactly the classes in its parents' linearizations, each once. */
  lemma LineElements(isa: Hierarchy, lin: Lines, x: Stash)
    requires Solves(isa, lin) && x in lin
    ensures lin[x] != [] && Distinct(lin[x][1..])
    ensures forall c :: c in lin[x][1..] <==> exists i :: 0 <= i < |isa[x]| && c in LineIn(lin, isa[x][i])
  {
    LineStarts(isa, lin, x);
    if isa[x] != [] {
      var all := Merged(lin, isa[x]);
      MergeElements(all);
      assert lin[x][1..] == Merge(all).value;
      forall c ensures Mentioned(all, c) <==> exists i :: 0 <= i < |isa[x]| && c in LineIn(lin, isa[x][i]) {
        MergedMentions(isa, lin, isa[x], c);
      }
    }
  }

  /** Each parent is in its own line, so the list of parents mentions nobody else. */
  lemma MergedMentions(isa: Hierarchy, lin: Lines, parents: seq<Stash>, c: Stash)
    requires Solves(isa, lin)
    ensures Mentioned(Merged(lin, parents), c) <==> exists i :: 0 <= i < |parents| && c in LineIn(lin, parents[i])
  {
    var all := Merged(lin, parents);
    if i :| 0 <= i < |parents| && c in LineIn(lin, parents[i]) {
      assert c in all[i];
    }
    if Mentioned(all, c) && c in parents {
      var i :| 0 <= i < |parents| && parents[i] == c;
      LineStarts(isa, lin, c);
      assert c in LineIn(lin, parents[i]);
    }
  }

  /** A class is in the linearization exactly if it is the class itself or in that of a parent. */
  lemma Inherits(isa: Hierarchy, lin: Lines, x: Stash, c: Stash)
    requires Solves(isa, lin) && x in lin
    ensures c in lin[x] <==> c == x || exists i :: 0 <= i < |isa[x]| && c in LineIn(lin, isa[x][i])
  {
    LineStarts(isa, lin, x);
    LineElements(isa, lin, x);
    assert lin[x] == [x] + lin[x][1..];
  }

  /** The same parents with the same lines give the same line. */
  lemma SameParents(isa: Hierarchy, a: Lines, now: Hierarchy, b: Lines, x: Stash)
    requires Solves(isa, a) && Solves(now, b) && x in a && x in b && isa[x] == now[x]
    requires forall i :: 0 <= i < |isa[x]| ==> LineIn(a, isa[x][i]) == LineIn(b, isa[x][i])
    ensures a[x] == b[x]
  {
    assert LineAt(isa, a, x) && LineAt(now, b, x);
    assert Merged(a, isa[x]) == Merged(b, isa[x]);
  }

  /** The linearizations of a hierarchy are unique. */
  lemma {:induction false} OneLine(isa: Hierarchy, a: Lines, b: Lines, x: Stash)
    requires Solves(isa, a) && Solves(isa, b) && x in a && x in b
    ensures a[x] == b[x]
    decreases |a[x]|
  {
    forall i | 0 <= i < |isa[x]| ensures LineIn(a, isa[x][i]) == LineIn(b, isa[x][i]) {
      ParentShorter(isa, a, x, i);
      if isa[x][i] in isa {
        OneLine(isa, a, b, isa[x][i]);
      }
    }
    SameParents(isa, a, isa, b, x);
  }

  /** A class is not among its own ancestors, so it comes only once. */
  lemma {:induction false} NoClassTwice(isa: Hierarchy, lin: Lines, x: Stash)
    requires Solves(isa, lin) && x in lin
    ensures Distinct(lin[x])
  {
    LineStarts(isa, lin, x);
    LineElements(isa, lin, x);
    forall i | 0 <= i < |isa[x]| ensures x !in LineIn(lin, isa[x][i]) {
      ParentShorter(isa, lin, x, i);
      if x in LineIn(lin, isa[x][i]) {
        AncestorShorter(isa, lin, isa[x][i], x);
      }
    }
    DistinctWithHead(lin[x]);
  }

  /** The linearization of an ancestor is not longer. */
  lemma {:induction false} AncestorShorter(isa: Hierarchy, lin: Lines, x: Stash, c: Stash)
    requires Solves(isa, lin) && c in LineIn(lin, x)
    ensures |LineIn(lin, c)| <= |LineIn(lin, x)|
    decreases |LineIn(lin, x)|
  {
    if c != x && x in lin {
      Inherits(isa, lin, x, c);
      var i :| 0 <= i < |isa[x]| && c in LineIn(lin, isa[x][i]);
      ParentShorter(isa, lin, x, i);
      AncestorShorter(isa, lin, isa[x][i], c);
    }
  }

  /** With a single parent: the class, then the parent's linearization. */
  lemma SingleParent(isa: Hierarchy, lin: Lines, x: Stash, p: Stash)
    requires Solves(isa, lin) && x in lin && isa[x] == [p]
    ensures lin[x] == [x] + LineIn(lin, p)
  {
    LineStarts(isa, lin, x);
    LineStarts(isa, lin, p);
    if p in lin {
      NoClassTwice(isa, lin, p);
    }
    MergeParent(Merged(lin, [p]));
  }

  /** What is merged for parents that can be linearized, without their list. */
  function ParentLines(lin: Lines, parents: seq<Stash>): (r: seq<Line>)
    ensures |r| == |parents| && forall i :: 0 <= i < |r| ==> r[i] == LineIn(lin, parents[i])
  {
    seq(|parents|, i requires 0 <= i < |parents| => LineIn(lin, parents[i]))
  }

  /** With parents whose linearizations have no class in common: the class, and then these linearizations
      one after the other. */
  lemma IndependentParents(isa: Hierarchy, lin: Lines, x: Stash)
    requires Solves(isa, lin) && x in lin && isa[x] != [] && Apart(ParentLines(lin, isa[x]))
    ensures lin[x] == [x] + Concat(ParentLines(lin, isa[x]))
  {
    LineStarts(isa, lin, x);
    var lines := ParentLines(lin, isa[x]);
    forall j | 0 <= j < |lines| ensures Distinct(lines[j]) && lines[j] != [] && lines[j][0] == isa[x][j] {
      LineStarts(isa, lin, isa[x][j]);
      if isa[x][j] in lin {
        NoClassTwice(isa, lin, isa[x][j]);
      }
    }
    MergeApart(lines, 0, 0, isa[x]);
    assert Merged(lin, isa[x]) == lines + [isa[x]];
  }

  /** The smallest example of inheritance. */
  lemma ParentAndChild()
    ensures Linearizes(map[1 := [2], 2 := []], map[1 := [1, 2], 2 := [2]])
  {
    var isa: Hierarchy, lin: Lines := map[1 := [2], 2 := []], map[1 := [1, 2], 2 := [2]];
    MergeParent(Merged(lin, [2]));
    assert [1] + [2] == [1, 2];
    assert LineFrom(lin, 1, isa[1]) == Some(lin[1]);
    assert LineFrom(lin, 2, isa[2]) == Some(lin[2]);
  }

  lemma DistinctWithHead(l: Line)
    requires l != [] && Distinct(l[1..]) && l[0] !in l[1..]
    ensures Distinct(l)
  {
    assert forall i :: 1 <= i < |l| ==> l[i] == l[1..][i - 1];
  }

  // ---------------------------------------------------------------- a change of one @ISA

  /** A class that does not inherit from `s` is not affected. */
  lemma {:induction false} OthersUnchanged(isa: Hierarchy, a: Lines, s: Stash, parents: seq<Stash>, b: Lines, x: Stash)
    requires s in isa && Solves(isa, a) && Solves(isa[s := parents], b)
    requires x in a && x in b && s !in a[x]
    ensures b[x] == a[x]
    decreases |a[x]|
  {
    Inherits(isa, a, x, s);
    forall i | 0 <= i < |isa[x]| ensures LineIn(a, isa[x][i]) == LineIn(b, isa[x][i]) {
      ParentShorter(isa, a, x, i);
      if isa[x][i] in isa {
        OthersUnchanged(isa, a, s, parents, b, isa[x][i]);
      }
    }
    SameParents(isa, a, isa[s := parents], b, x);
  }

  /** A class that inherits from `s` gains only what `s` inherits from now. */
  lemma {:induction false} GainsAncestors(isa: Hierarchy, a: Lines, s: Stash, parents: seq<Stash>, b: Lines, x: Stash,
                                          c: Stash)
    requires s in isa && Solves(isa, a) && Solves(isa[s := parents], b)
    requires x in a && x in b && s in b && s in a[x] && c in b[x]
    ensures c in a[x] || c in b[s]
    decreases |a[x]|
  {
    if x != s {
      Inherits(isa, a, x, c);
      Inherits(isa, a, x, s);
      Inherits(isa[s := parents], b, x, c);
      if c != x {
        var i :| 0 <= i < |isa[x]| && c in LineIn(b, isa[x][i]);
        var p := isa[x][i];
        ParentShorter(isa, a, x, i);
        if p !in isa {
          assert c in LineIn(a, p);
        } else if s in a[p] {
          GainsAncestors(isa, a, s, parents, b, p, c);
        } else {
          OthersUnchanged(isa, a, s, parents, b, p);
          assert c in LineIn(a, p);
        }
      }
    }
  }

  /** A class without a stash of its own becomes a class without parents: nothing changes. */
  lemma NewClassSolves(isa: Hierarchy, lin: Lines, s: Stash)
    requires s !in isa && Solves(isa, lin)
    ensures Solves(isa[s := []], lin[s := [s]])
  {
    var now := lin[s := [s]];
    forall x | x in lin ensures LineFrom(now, x, isa[x]) == Some(lin[x]) {
      assert LineAt(isa, lin, x);
      assert Merged(now, isa[x]) == Merged(lin, isa[x]);
    }
  }

  // ---------------------------------------------------------------- all lines at once

  /** Every class can be linearized: there is no cycle and no inconsistent merge. */
  ghost predicate Linearizes(isa: Hierarchy, lin: Lines) {
    Solves(isa, lin) && lin.Keys == isa.Keys
  }

  /** The linearizations before and after a change of @ISA are related as the dates of the caches
      assume. */
  lemma IsaChangeRelinearizes(isa: Hierarchy, was: Lines, s: Stash, parents: seq<Stash>, lin: Lines)
    requires s in isa && Linearizes(isa, was) && Linearizes(isa[s := parents], lin)
    ensures Relinearized(was, s, lin)
  {
    forall x | x in lin ensures lin[x] != [] && lin[x][0] == x {
      LineStarts(isa[s := parents], lin, x);
    }
    forall x | x in was && s !in was[x] ensures lin[x] == was[x] {
      OthersUnchanged(isa, was, s, parents, lin, x);
    }
    forall x, c | x in was && s in was[x] && c in lin[x] ensures c in was[x] || c in lin[s] {
      GainsAncestors(isa, was, s, parents, lin, x, c);
    }
  }
}
