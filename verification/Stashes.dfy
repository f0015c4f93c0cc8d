/**
 Nested stashes as a graph of hashes: looking a route of keys up, with and without adding what is
 missing (the steps that gv_fetchpvn_flags in gv.c takes for each part of a qualified name).
 */
module Stashes {
  import opened Basics

  type StashId = nat
  type GlobId = nat
  type Route = r: seq<string> | r != [] witness [""]

  /** The hash of each stash, and the stash that a glob holds, if it holds one. */
  datatype Table = Table(hash: map<StashId, map<string, GlobId>>, hv: map<GlobId, StashId>, nextGlob: GlobId,
                         nextStash: StashId)

  ghost predicate Valid(t: Table) {
    && (forall s: StashId :: s in t.hash ==> s < t.nextStash)
    && (forall g: GlobId :: g in t.hv ==> g < t.nextGlob && t.hv[g] in t.hash)
    && (forall s: StashId, k :: s in t.hash && k in t.hash[s] ==> t.hash[s][k] < t.nextGlob)
  }

  function Entries(t: Table, s: StashId): map<string, GlobId> {
    if s in t.hash then t.hash[s] else map[]
  }

  /** A new glob under key `k`. */
  function WithGlob(t: Table, s: StashId, k: string): Table {
    var entries: map<string, GlobId> := Entries(t, s)[k := t.nextGlob];
    t.(hash := t.hash[s := entries], nextGlob := t.nextGlob + 1)
  }

  /** A new empty stash in glob `g`. */
  function WithStash(t: Table, g: GlobId): Table {
    t.(hash := t.hash[t.nextStash := map[]], hv := t.hv[g := t.nextStash], nextStash := t.nextStash + 1)
  }

  function Glob(t: Table, s: StashId, k: string): Option<GlobId> {
    if s in t.hash && k in t.hash[s] then Some(t.hash[s][k]) else None
  }

  function Hv(t: Table, g: GlobId): Option<StashId> {
    if g in t.hv then Some(t.hv[g]) else None
  }

  // ---------------------------------------------------------------- what a lookup means

  /** Where a route stops: at a key that a stash lacks, or at a glob without a stash. */
  datatype Gap = Whole(g: GlobId) | NoEntry(s: StashId, rest: Route) | NoStash(g: GlobId, rest: Route)

  function Follow(t: Table, s: StashId, r: Route): Gap
    decreases |r|
  {
    var e := Glob(t, s, r[0]);
    if e.None? then NoEntry(s, r)
    else if |r| == 1 then Whole(e.value)
    else
      var h := Hv(t, e.value);
      if h.None? then NoStash(e.value, r[1..]) else Follow(t, h.value, r[1..])
  }

  /** The glob at the end of a route, by reading alone. */
  function Find(t: Table, s: StashId, r: Route): Option<GlobId> {
    var f := Follow(t, s, r);
    if f.Whole? then Some(f.g) else None
  }

  // ---------------------------------------------------------------- what the code does

  /** One entry of a hash, made if it is missing and we are adding. */
  function Entry(t: Table, s: StashId, k: string, add: bool): (Table, Option<GlobId>) {
    if Glob(t, s, k).None? && add then (WithGlob(t, s, k), Some(t.nextGlob)) else (t, Glob(t, s, k))
  }

  /** A glob that is to hold a stash. */
  function Opened(t: Table, g: GlobId): (t1: Table)
    ensures Hv(t1, g).Some?
  {
    if Hv(t, g).None? then WithStash(t, g) else t
  }

  /** One fetch on the way, and the stash below it. */
  function Down(t: Table, s: StashId, k: string, add: bool): (Table, Option<StashId>) {
    var (t1, g) := Entry(t, s, k, add);
    if g.None? then (t1, None) else (Opened(t1, g.value), Hv(Opened(t1, g.value), g.value))
  }

  /** Fetch the glob at the end of a route.  A glob on the way gets a stash if it has none, also
      when not adding. */
  function Get(t: Table, s: StashId, r: Route, add: bool): (Table, Option<GlobId>)
    decreases |r|
  {
    if |r| == 1 then Entry(t, s, r[0], add)
    else
      var (t1, h) := Down(t, s, r[0], add);
      if h.None? then (t1, None) else Get(t1, h.value, r[1..], add)
  }

  /** The same for a route of stashes: the last glob gets a stash too. */
  function GetStash(t: Table, s: StashId, r: Route, add: bool): (Table, Option<GlobId>)
  {
    var (t1, g) := Get(t, s, r, add);
    if g.None? then (t1, None) else (Opened(t1, g.value), g)
  }

  lemma DownValid(t: Table, s: StashId, k: string, add: bool)
    requires Valid(t) && s in t.hash
    ensures var (t2, h) := Down(t, s, k, add);
            Valid(t2) && t.hash.Keys <= t2.hash.Keys && (h.Some? ==> h.value in t2.hash)
  {
    var (t1, g) := Entry(t, s, k, add);
    assert Valid(t1);
  }

  lemma {:induction false} GetValid(t: Table, s: StashId, r: Route, add: bool)
    requires Valid(t) && s in t.hash
    ensures var (t1, g) := Get(t, s, r, add);
            Valid(t1) && t.hash.Keys <= t1.hash.Keys && (g.Some? ==> g.value < t1.nextGlob)
    decreases |r|
  {
    var (t2, h) := Down(t, s, r[0], add);
    if h.Some? && |r| > 1 {
      DownValid(t, s, r[0], add);
      GetValid(t2, h.value, r[1..], add);
    }
  }

  lemma GetStashValid(t: Table, s: StashId, r: Route, add: bool)
    requires Valid(t) && s in t.hash
    ensures var (t1, g) := GetStash(t, s, r, add);
            Valid(t1) && t.hash.Keys <= t1.hash.Keys && (g.Some? ==> Hv(t1, g.value).Some?)
  {
    GetValid(t, s, r, add);
  }

  // ---------------------------------------------------------------- one step

  /** A new glob changes what stopped at its place, and nothing else. */
  lemma {:induction false} GlobStep(t: Table, s: StashId, k: string, from: StashId, q: Route)
    requires Valid(t) && s in t.hash && Glob(t, s, k).None? && from in t.hash
    ensures var f := Follow(t, from, q);
            Follow(WithGlob(t, s, k), from, q) ==
              if f.NoEntry? && f.s == s && f.rest[0] == k then
                if |f.rest| == 1 then Whole(t.nextGlob) else NoStash(t.nextGlob, f.rest[1..])
              else f
    decreases |q|
  {
    var e := Glob(t, from, q[0]);
    if e.Some? && |q| > 1 && Hv(t, e.value).Some? {
      GlobStep(t, s, k, t.hv[e.value], q[1..]);
    }
  }

  lemma {:induction false} StashStep(t: Table, g: GlobId, from: StashId, q: Route)
    requires Valid(t) && g < t.nextGlob && g !in t.hv && from in t.hash
    ensures var f := Follow(t, from, q);
            Follow(WithStash(t, g), from, q) == if f.NoStash? && f.g == g then NoEntry(t.nextStash, f.rest) else f
    decreases |q|
  {
    var e := Glob(t, from, q[0]);
    if e.Some? && |q| > 1 && Hv(t, e.value).Some? {
      StashStep(t, g, t.hv[e.value], q[1..]);
    }
  }

  lemma {:induction false} FollowRange(t: Table, s: StashId, r: Route)
    requires Valid(t) && s in t.hash
    ensures match Follow(t, s, r)
            case Whole(g) => g < t.nextGlob
            case NoEntry(at, rest) => at in t.hash && at < t.nextStash && rest != [] && rest[0] !in t.hash[at]
            case NoStash(g, rest) => g < t.nextGlob && rest != []
    decreases |r|
  {
    var e := Glob(t, s, r[0]);
    if e.Some? && |r| > 1 && Hv(t, e.value).Some? {
      FollowRange(t, t.hv[e.value], r[1..]);
    }
  }

  // ---------------------------------------------------------------- whole routes

  /** What fetching an entry and opening it does to a route: one that stopped there goes on. */
  lemma EntryStep(t: Table, s: StashId, k: string, from: StashId, q: Route)
    requires Valid(t) && s in t.hash && from in t.hash
    ensures var f := Follow(t, from, q);
            Follow(Entry(t, s, k, true).0, from, q) ==
              if Glob(t, s, k).None? && f.NoEntry? && f.s == s && f.rest[0] == k then
                if |f.rest| == 1 then Whole(t.nextGlob) else NoStash(t.nextGlob, f.rest[1..])
              else f
  {
    if Glob(t, s, k).None? {
      GlobStep(t, s, k, from, q);
    }
  }

  lemma OpenStep(t: Table, g: GlobId, from: StashId, q: Route)
    requires Valid(t) && g < t.nextGlob && from in t.hash
    ensures var f := Follow(t, from, q);
            Follow(Opened(t, g), from, q) ==
              if Hv(t, g).None? && f.NoStash? && f.g == g then NoEntry(t.nextStash, f.rest) else f
  {
    if Hv(t, g).None? {
      StashStep(t, g, from, q);
    }
  }

  /** Without adding: the answer is what reading gives, and no route resolves differently. */
  lemma {:induction false} GetReads(t: Table, s: StashId, r: Route)
    requires Valid(t) && s in t.hash
    ensures Get(t, s, r, false).1 == Find(t, s, r)
    decreases |r|
  {
    var e := Glob(t, s, r[0]);
    if e.Some? && |r| > 1 {
      OpenStep(t, e.value, s, r);
      var t2 := Opened(t, e.value);
      GetReads(t2, t2.hv[e.value], r[1..]);
    }
  }

  lemma {:induction false} GetKeeps(t: Table, s: StashId, r: Route, from: StashId, q: Route)
    requires Valid(t) && s in t.hash && from in t.hash
    ensures Find(Get(t, s, r, false).0, from, q) == Find(t, from, q)
    decreases |r|
  {
    var e := Glob(t, s, r[0]);
    if e.Some? && |r| > 1 {
      OpenStep(t, e.value, from, q);
      var t2 := Opened(t, e.value);
      GetKeeps(t2, t2.hv[e.value], r[1..], from, q);
    }
  }

  /** With adding: there is an answer, and reading gives it from then on. */
  lemma {:induction false} AddFinds(t: Table, s: StashId, r: Route)
    requires Valid(t) && s in t.hash
    ensures var (t1, g) := Get(t, s, r, true);
            g.Some? && Follow(t1, s, r) == Whole(g.value)
    decreases |r|
  {
    var (t1, g) := Entry(t, s, r[0], true);
    var (t2, h) := Down(t, s, r[0], true);
    if |r| > 1 {
      DownValid(t, s, r[0], true);
      AddFinds(t2, h.value, r[1..]);
      GetGrows(t2, h.value, r[1..], true);
      assert Glob(t2, s, r[0]) == g && Hv(t2, g.value) == h;
    }
  }

  /** Entries and stashes stay where they are. */
  ghost predicate Grown(t: Table, t1: Table) {
    && (forall s: StashId, k :: Glob(t, s, k).Some? ==> Glob(t1, s, k) == Glob(t, s, k))
    && (forall g: GlobId :: Hv(t, g).Some? ==> Hv(t1, g) == Hv(t, g))
  }

  lemma DownGrows(t: Table, s: StashId, k: string, add: bool, later: Table)
    requires Valid(t) && s in t.hash && Grown(Down(t, s, k, add).0, later)
    ensures Grown(t, later)
  {
    var (t1, g) := Entry(t, s, k, add);
    assert Grown(t, t1);
    if g.Some? {
      assert Grown(t1, Opened(t1, g.value));
    }
  }

  lemma {:induction false} GetGrows(t: Table, s: StashId, r: Route, add: bool)
    requires Valid(t) && s in t.hash
    ensures Grown(t, Get(t, s, r, add).0)
    decreases |r|
  {
    var (t2, h) := Down(t, s, r[0], add);
    if h.Some? && |r| > 1 {
      DownValid(t, s, r[0], add);
      GetGrows(t2, h.value, r[1..], add);
      DownGrows(t, s, r[0], add, Get(t, s, r, add).0);
    }
  }

  /** Both routes stop at the same place, and what is left of `f` is a beginning of what is left of
      `g`. */
  predicate Covers(g: Gap, f: Gap) {
    || (f.NoEntry? && g.NoEntry? && f.s == g.s && f.rest <= g.rest)
    || (f.NoStash? && g.NoStash? && f.g == g.g && f.rest <= g.rest)
  }

  /** What adding a route does to any other: one that resolved still gives the same glob; one that
      did not resolves now exactly when it stopped where the added route stopped, and goes on along
      the added route. */
  lemma {:induction false} AddReaches(t: Table, s: StashId, r: Route, from: StashId, q: Route)
    requires Valid(t) && s in t.hash && from in t.hash
    ensures var t1 := Get(t, s, r, true).0;
            var f := Follow(t, from, q);
            if f.Whole? then Follow(t1, from, q) == f
            else Find(t1, from, q).Some? <==> Covers(Follow(t, s, r), f)
    decreases |r|
  {
    if |r| == 1 {
      FollowRange(t, from, q);
      EntryStep(t, s, r[0], from, q);
    } else {
      var (t2, h) := Down(t, s, r[0], true);
      DownValid(t, s, r[0], true);
      AddReaches(t2, h.value, r[1..], from, q);
      DownCovers(t, s, r, from, q);
    }
  }

  /** The comparison is the same after the first step along the added route. */
  lemma DownCovers(t: Table, s: StashId, r: Route, from: StashId, q: Route)
    requires Valid(t) && s in t.hash && from in t.hash && |r| > 1
    ensures var (t2, h) := Down(t, s, r[0], true);
            var f, f2 := Follow(t, from, q), Follow(t2, from, q);
            && h.Some?
            && (f.Whole? ==> f2 == f)
            && (!f.Whole? ==> (f2.Whole? || Covers(Follow(t2, h.value, r[1..]), f2) <==> Covers(Follow(t, s, r), f)))
  {
    var f := Follow(t, from, q);
    FollowRange(t, from, q);
    DownStep(t, s, r[0], from, q);
    if f.NoEntry? {
      TailsCompare(r, f.rest);
    }
  }

  lemma DownStep(t: Table, s: StashId, k: string, from: StashId, q: Route)
    requires Valid(t) && s in t.hash && from in t.hash
    ensures var f := Follow(t, from, q);
            Follow(Down(t, s, k, true).0, from, q) ==
              if Glob(t, s, k).None? && f.NoEntry? && f.s == s && f.rest[0] == k then
                if |f.rest| == 1 then Whole(t.nextGlob) else NoEntry(t.nextStash, f.rest[1..])
              else if f.NoStash? && Glob(t, s, k) == Some(f.g) && Hv(t, f.g).None? then NoEntry(t.nextStash, f.rest)
              else f
  {
    var (t1, g) := Entry(t, s, k, true);
    FollowRange(t, from, q);
    EntryStep(t, s, k, from, q);
    OpenStep(t1, g.value, from, q);
  }

  lemma TailsCompare(r: Route, rest: Route)
    ensures rest <= r <==> rest[0] == r[0] && rest[1..] <= r[1..]
  {
    assert rest == [rest[0]] + rest[1..] && r == [r[0]] + r[1..];
  }

  /** One walk over a route is a walk to its stash, then the last key there: same answer, same
      table. */
  lemma {:induction false} OneWalk(t: Table, s: StashId, keys: Route, last: string, add: bool)
    ensures Get(t, s, keys + [last], add) == AndThen(GetStash(t, s, keys, add), [last], add)
    decreases |keys|
  {
    var key, rest := keys[0], keys[1..];
    assert keys == [key] + rest;
    if rest == [] {
      FirstStep(t, s, key, [last], add);
    } else {
      assert keys + [last] == [key] + (rest + [last]);
      FirstStep(t, s, key, rest + [last], add);
      FirstStep(t, s, key, rest, add);
      var (t1, g) := GetStash(t, s, [key], add);
      if g.Some? {
        OneWalk(t1, Hv(t1, g.value).value, rest, last, add);
      }
    }
  }

  /** From the stash of the glob that was reached, on along another route. */
  function AndThen(p: (Table, Option<GlobId>), r: Route, add: bool): (Table, Option<GlobId>) {
    if p.1.None? || Hv(p.0, p.1.value).None? then (p.0, None) else Get(p.0, Hv(p.0, p.1.value).value, r, add)
  }

  lemma FirstStep(t: Table, s: StashId, key: string, r: Route, add: bool)
    ensures Get(t, s, [key] + r, add) == AndThen(GetStash(t, s, [key], add), r, add)
  {
    assert ([key] + r)[1..] == r;
  }

  /** A route that is complete is only read. */
  lemma {:induction false} GetWhole(t: Table, s: StashId, r: Route, add: bool)
    requires Follow(t, s, r).Whole?
    ensures Get(t, s, r, add) == (t, Find(t, s, r))
    decreases |r|
  {
    if |r| > 1 {
      GetWhole(t, Hv(t, Glob(t, s, r[0]).value).value, r[1..], add);
    }
  }
}
