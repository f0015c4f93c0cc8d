/**
 Qualified names: how a name is cut at "::" into the route of a walk through the stashes
 (gv_stashpvn and gv_fetchpvn_flags in gv.c).
 */
module QualifiedNames {
  import opened Basics
  import opened Stashes

  /** What a name stands for: the keys of the stashes on the way, and the last part, or the glob of
      the last stash when the name ends with "::". */
  datatype Path = Path(qualified: bool, keys: seq<string>, last: Option<string>)

  predicate IsAlpha(c: char) {
    'A' <= c <= 'Z' || 'a' <= c <= 'z'
  }

  predicate SepAt(s: string, i: nat) {
    i + 1 < |s| && s[i] == ':' && s[i + 1] == ':'
  }

  /** The rest `s` of a name, whose first `i` characters hold no separator.  Behind a separator the
      next character is not looked at. */
  function PathOf(s: string, i: nat): Path
    requires i <= |s|
    decreases |s|, |s| - i
  {
    if i == |s| then Path(false, [], Some(s))
    else if SepAt(s, i) then
      var p := if |s| == i + 2 then Path(true, [], None) else PathOf(s[i + 2..], 1);
      Path(true, (if i == 0 then [] else [s[..i] + "::"]) + p.keys, p.last)
    else PathOf(s, i + 1)
  }

  // ---------------------------------------------------------------- names without stray colons

  predicate IsPart(s: string) {
    s != "" && ':' !in s
  }

  function Joined(parts: seq<string>, last: string): string {
    if parts == [] then last else parts[0] + "::" + Joined(parts[1..], last)
  }

  function Keys(parts: seq<string>): seq<string> {
    seq(|parts|, i requires 0 <= i < |parts| => parts[i] + "::")
  }

  /** Nothing to cut before `j`. */
  lemma {:induction false} SkipTo(s: string, i: nat, j: nat)
    requires i <= j <= |s| && forall k :: i <= k < j ==> !SepAt(s, k)
    ensures PathOf(s, i) == PathOf(s, j)
    decreases j - i
  {
    if i < j {
      SkipTo(s, i + 1, j);
    }
  }

  /** The route of a name is the parts it was put together from. */
  lemma {:induction false} PathOfJoined(parts: seq<string>, last: string, i: nat)
    requires (forall p :: p in parts ==> IsPart(p)) && IsPart(last) && i <= 1
    ensures 1 <= |Joined(parts, last)|
    ensures PathOf(Joined(parts, last), i) == Path(parts != [], Keys(parts), Some(last))
    decreases |parts|
  {
    var s := Joined(parts, last);
    if parts == [] {
      SkipTo(s, i, |s|);
    } else {
      var n, rest := |parts[0]|, Joined(parts[1..], last);
      PathOfJoined(parts[1..], last, 1);
      assert IsPart(parts[0]);
      forall k | 0 <= k < n
        ensures s[k] != ':' && !SepAt(s, k)
      {
        assert s[k] == parts[0][k] && parts[0][k] in parts[0];
      }
      assert s[n] == ':' && s[n + 1] == ':' && s[n + 2..] == rest;
      SkipTo(s, i, n);
      assert s[..n] == parts[0];
      assert Keys(parts) == [parts[0] + "::"] + Keys(parts[1..]);
    }
  }

  // ---------------------------------------------------------------- a package name, then one more part

  /** How many colons a name ends with. */
  function Trailing(s: string): (n: nat)
    ensures n <= |s| && (forall k :: |s| - n <= k < |s| ==> s[k] == ':') && (n < |s| ==> s[|s| - n - 1] != ':')
  {
    if s != "" && s[|s| - 1] == ':' then 1 + Trailing(s[..|s| - 1]) else 0
  }

  /** With "::" behind it, the name from `i` on is cut exactly at its end. */
  predicate Lands(s: string, i: nat)
    requires i <= |s|
    decreases |s|, |s| - i
  {
    if i == |s| then true
    else if s[i] == ':' && (i + 1 == |s| || s[i + 1] == ':') then
      |s| > i + 2 && Lands(s[i + 2..], 1)
    else Lands(s, i + 1)
  }

  lemma TrailingUnique(s: string, n: nat)
    requires n <= |s| && (forall k :: |s| - n <= k < |s| ==> s[k] == ':') && (n < |s| ==> s[|s| - n - 1] != ':')
    ensures n == Trailing(s)
  {
  }

  /** A separator takes two colons and hides the character behind it: colons at the end are used up
      in threes. */
  lemma {:induction false} LandsMeaning(s: string, i: nat)
    requires i <= |s| && i <= |s| - Trailing(s)
    ensures Lands(s, i) <==> Trailing(s) % 3 == 0
    decreases |s|, |s| - i
  {
    var n := Trailing(s);
    if i == |s| {
    } else if s[i] == ':' && (i + 1 == |s| || s[i + 1] == ':') {
      if |s| > i + 2 {
        var rest := s[i + 2..];
        if n >= |s| - i - 2 {
          assert n == |s| - i by {
            assert forall k :: |s| - n <= k < |s| ==> s[k] == ':';
          }
          TrailingUnique(rest, n - 2);
          LandsInColons(rest);
        } else {
          TrailingUnique(rest, n);
          LandsMeaning(rest, 1);
        }
      }
    } else {
      LandsMeaning(s, i + 1);
    }
  }

  /** Colons only, the first of them hidden. */
  lemma {:induction false} LandsInColons(s: string)
    requires s != "" && forall k :: 0 <= k < |s| ==> s[k] == ':'
    ensures Lands(s, 1) <==> |s| % 3 == 1
    decreases |s|
  {
    if |s| > 3 {
      LandsInColons(s[3..]);
    }
  }

  /** The package name and the longer name are cut alike, when the package name is cut at its end. */
  lemma {:induction false} CutAlike(s: string, i: nat, last: string)
    requires i <= |s| && (s != "" || i == 0) && Lands(s, i)
    requires last != "" && forall k :: 1 <= k < |last| ==> !SepAt(last, k)
    ensures var p := PathOf(s + "::", i);
            && p.qualified && p.last.None? && (s != "" ==> p.keys != [])
            && PathOf(s + "::" + last, i) == Path(true, p.keys, Some(last))
    decreases |s|, |s| - i
  {
    var a, b := s + "::", s + "::" + last;
    if i == |s| {
      assert SepAt(a, i) && SepAt(b, i);
      assert b[i + 2..] == last && a[..i] == s == b[..i];
      SkipTo(last, 1, |last|);
    } else if s[i] == ':' && (i + 1 == |s| || s[i + 1] == ':') {
      assert SepAt(a, i) && SepAt(b, i);
      assert a[i + 2..] == s[i + 2..] + "::" && b[i + 2..] == s[i + 2..] + "::" + last;
      assert a[..i] == s[..i] == b[..i];
      CutAlike(s[i + 2..], 1, last);
    } else {
      assert !SepAt(a, i) && !SepAt(b, i);
      CutAlike(s, i + 1, last);
    }
  }

  /** When it is not, "::" behind the package name does not make it a package: the last part begins
      with a colon, and a longer name has another last part in the same stash. */
  lemma {:induction false} CutElsewhere(s: string, i: nat, last: string)
    requires i <= |s| && !Lands(s, i) && IsPart(last)
    ensures var p := PathOf(s + "::", i);
            && p.qualified && p.last.Some?
            && PathOf(s + "::" + last, i) == p.(last := Some(p.last.value + last))
    decreases |s|, |s| - i
  {
    var a, b := s + "::", s + "::" + last;
    if s[i] == ':' && (i + 1 == |s| || s[i + 1] == ':') {
      assert SepAt(a, i) && SepAt(b, i);
      assert a[..i] == s[..i] == b[..i];
      if i + 1 == |s| {
        assert a[i + 2..] == ":" && b[i + 2..] == ":" + last;
        LastPart(":", last);
      } else if i + 2 == |s| {
        assert a[i + 2..] == "::" && b[i + 2..] == "::" + last;
        LastPart("::", last);
      } else {
        assert a[i + 2..] == s[i + 2..] + "::" && b[i + 2..] == s[i + 2..] + "::" + last;
        CutElsewhere(s[i + 2..], 1, last);
      }
    } else {
      assert !SepAt(a, i) && !SepAt(b, i);
      CutElsewhere(s, i + 1, last);
    }
  }

  lemma LastPart(colons: string, last: string)
    requires colons in {":", "::"} && IsPart(last)
    ensures PathOf(colons, 1) == Path(false, [], Some(colons))
    ensures PathOf(colons + last, 1) == Path(false, [], Some(colons + last))
  {
    var s := colons + last;
    forall k | 1 <= k < |s|
      ensures !SepAt(s, k)
    {
      assert s[k + 1..] == last[k + 1 - |colons|..];
      assert k + 1 < |s| ==> s[k + 1] == last[k + 1 - |colons|] && last[k + 1 - |colons|] in last;
    }
    SkipTo(s, 1, |s|);
    SkipTo(colons, 1, |colons|);
  }

  // ---------------------------------------------------------------- fetching

  function Stripped(name: string): string {
    if |name| > 2 && name[0] == '*' && IsAlpha(name[1]) then name[1..] else name
  }

  /** Names that are always in the main stash. */
  predicate Forced(name: string) {
    name in {"_", "ARGV", "STDIN", "STDOUT", "STDERR", "ARGVOUT"}
  }

  /** The stash of an unqualified name, while a program runs in package `cur`. */
  function DefaultStash(name: string, main: StashId, cur: StashId): StashId {
    if name != "" && (IsAlpha(name[0]) || name[0] == '_') && !Forced(name) then cur else main
  }

  /** Where the walk starts and which stash is the default. */
  datatype Env = Env(main: StashId, cur: StashId)

  /** The rest of a walk that has come to `gv`, in `stash`, along separators it has passed. */
  function Resolve(t: Table, stash: Option<StashId>, gv: Option<GlobId>, p: Path, add: bool, env: Env)
    : (Table, Option<GlobId>)
  {
    var start :=
      if stash.Some? then stash.value
      else if p.qualified || p.last.None? then env.main
      else DefaultStash(p.last.value, env.main, env.cur);
    if p.last.Some? then Get(t, start, p.keys + [p.last.value], add)
    else if p.keys == [] then (t, gv)
    else GetStash(t, start, p.keys, add)
  }

  /** The same, from what is left of the name. */
  function Walk(t: Table, stash: Option<StashId>, gv: Option<GlobId>, s: string, i: nat, add: bool, env: Env)
    : (Table, Option<GlobId>)
    requires i <= |s|
  {
    Resolve(t, stash, gv, PathOf(s, i), add, env)
  }

  /** The glob of a name. */
  function Fetch(t: Table, name: string, add: bool, env: Env): (Table, Option<GlobId>) {
    Resolve(t, None, None, PathOf(Stripped(name), 0), add, env)
  }

  /** The glob that holds the stash of a package. */
  function Package(t: Table, pkg: string, add: bool, env: Env): (Table, Option<GlobId>) {
    var (t1, g) := Fetch(t, pkg + "::", add, env);
    if g.None? then (t1, None) else (Opened(t1, g.value), g)
  }

  /** One walk to `pkg::last` is the walk to the package and then the last part there: for a package
      name that is not empty and in whose colons at the end a multiple of three. */
  lemma FetchSplits(t: Table, pkg: string, last: string, add: bool, env: Env)
    requires pkg != "" && Trailing(pkg) % 3 == 0
    requires last != "" && forall k :: 1 <= k < |last| ==> !SepAt(last, k)
    ensures Fetch(t, pkg + "::" + last, add, env) == AndThen(Package(t, pkg, add, env), [last], add)
  {
    PathsAlike(pkg, last);
    PathSplits(t, PathOf(Stripped(pkg + "::"), 0), last, add, env);
  }

  lemma StrippedPackage(pkg: string, tail: string)
    requires pkg != ""
    ensures Stripped(pkg + "::" + tail) == Unstarred(pkg) + "::" + tail
    ensures Trailing(Unstarred(pkg)) == Trailing(pkg) && Unstarred(pkg) != ""
  {
    var name := pkg + "::" + tail;
    assert name[0] == pkg[0] && name[1] == if |pkg| > 1 then pkg[1] else ':';
    if |pkg| > 1 && pkg[0] == '*' && IsAlpha(pkg[1]) {
      assert name[1..] == pkg[1..] + "::" + tail;
    }
    TrailingUnique(Unstarred(pkg), Trailing(pkg));
  }

  lemma PathsAlike(pkg: string, last: string)
    requires pkg != "" && Trailing(pkg) % 3 == 0
    requires last != "" && forall k :: 1 <= k < |last| ==> !SepAt(last, k)
    ensures var p := PathOf(Stripped(pkg + "::"), 0);
            && p.qualified && p.last.None? && p.keys != []
            && PathOf(Stripped(pkg + "::" + last), 0) == Path(true, p.keys, Some(last))
  {
    var s := Unstarred(pkg);
    StrippedPackage(pkg, "");
    StrippedPackage(pkg, last);
    assert s + "::" + "" == s + "::" && pkg + "::" + "" == pkg + "::";
    LandsMeaning(s, 0);
    CutAlike(s, 0, last);
  }

  lemma PathSplits(t: Table, p: Path, last: string, add: bool, env: Env)
    requires p.qualified && p.last.None? && p.keys != []
    ensures var (t1, g) := Resolve(t, None, None, p, add, env);
            && (g.Some? ==> Opened(t1, g.value) == t1)
            && Resolve(t, None, None, Path(true, p.keys, Some(last)), add, env) == AndThen((t1, g), [last], add)
  {
    OneWalk(t, env.main, p.keys, last, add);
  }

  function Unstarred(pkg: string): string {
    if |pkg| > 1 && pkg[0] == '*' && IsAlpha(pkg[1]) then pkg[1..] else pkg
  }

  // ---------------------------------------------------------------- names without a package

  lemma NoSeparator(name: string)
    requires ':' !in name
    ensures PathOf(name, 0) == Path(false, [], Some(name))
  {
    forall k | 0 <= k < |name| ensures !SepAt(name, k) {
      assert name[k] in name;
    }
    SkipTo(name, 0, |name|);
  }

  /** Where the entry of a name without colons is: a name that starts with a letter or an underscore is
      looked up in the current package, unless it is one of six that are always in main; any other name
      is in main. */
  lemma Unqualified(t: Table, name: string, add: bool, env: Env)
    requires ':' !in name && (name != "" ==> name[0] != '*')
    ensures name in {"_", "ARGV", "ARGVOUT", "STDIN", "STDOUT", "STDERR"} ==>
              Fetch(t, name, add, env) == Get(t, env.main, [name], add)
    ensures name == "" || !('A' <= name[0] <= 'Z' || 'a' <= name[0] <= 'z' || name[0] == '_') ==>
              Fetch(t, name, add, env) == Get(t, env.main, [name], add)
    ensures name != "" && ('A' <= name[0] <= 'Z' || 'a' <= name[0] <= 'z' || name[0] == '_') &&
            name !in {"_", "ARGV", "ARGVOUT", "STDIN", "STDOUT", "STDERR"} ==>
              Fetch(t, name, add, env) == Get(t, env.cur, [name], add)
  {
    NoSeparator(name);
    assert [] + [name] == [name];
  }

  /** A name with a star in front, as a glob prints itself, is the name without it if that starts with a
      letter; otherwise it is in main. */
  lemma Starred(t: Table, name: string, add: bool, env: Env)
    requires ':' !in name
    ensures |name| >= 2 && ('A' <= name[0] <= 'Z' || 'a' <= name[0] <= 'z') ==>
              Fetch(t, "*" + name, add, env) == Fetch(t, name, add, env)
    ensures |name| < 2 || !('A' <= name[0] <= 'Z' || 'a' <= name[0] <= 'z') ==>
              Fetch(t, "*" + name, add, env) == Get(t, env.main, ["*" + name], add)
  {
    var starred := "*" + name;
    assert starred[1..] == name;
    if |name| < 2 || !('A' <= name[0] <= 'Z' || 'a' <= name[0] <= 'z') {
      assert forall k :: 0 < k < |starred| ==> starred[k] == name[k - 1];
      NoSeparator(starred);
      assert [] + [starred] == [starred];
    }
  }

  // ---------------------------------------------------------------- names and routes

  function RouteOf(name: string): seq<string> {
    var p := PathOf(Stripped(name), 0);
    p.keys + if p.last.Some? then [p.last.value] else []
  }

  function StartOf(name: string, env: Env): StashId {
    var p := PathOf(Stripped(name), 0);
    if p.qualified || p.last.None? then env.main else DefaultStash(p.last.value, env.main, env.cur)
  }

  /** Fetching a name follows its route. */
  lemma FetchByRoute(t: Table, name: string, add: bool, env: Env)
    ensures Stripped(name) == "::" <==> RouteOf(name) == []
    ensures Stripped(name) == "::" ==> Fetch(t, name, add, env) == (t, None)
    ensures Stripped(name) != "::" ==>
              var (t1, g) := Get(t, StartOf(name, env), RouteOf(name), add);
              Fetch(t, name, add, env) == (t1, g) || (g.Some? && Fetch(t, name, add, env) == (Opened(t1, g.value), g))
  {
    OnlyColons(Stripped(name), 0);
    var p := PathOf(Stripped(name), 0);
    assert p.keys + [] == p.keys;
  }

  /** The route of `pkg::last` goes on from that of the package exactly when the number of colons
      at the end of the package name is a multiple of three. */
  lemma RoutesSplit(pkg: string, last: string)
    requires pkg != "" && IsPart(last)
    ensures RouteOf(pkg + "::" + last) == RouteOf(pkg + "::") + [last] <==> Trailing(pkg) % 3 == 0
  {
    var s := Unstarred(pkg);
    StrippedPackage(pkg, "");
    StrippedPackage(pkg, last);
    assert s + "::" + "" == s + "::" && pkg + "::" + "" == pkg + "::";
    LandsMeaning(s, 0);
    if Lands(s, 0) {
      assert forall k :: 0 <= k < |last| ==> last[k] in last;
      PathsAlike(pkg, last);
    } else {
      CutElsewhere(s, 0, last);
      var p := PathOf(s + "::", 0);
      LastOf(p.keys, p.last.value + last, RouteOf(pkg + "::"), last);
    }
  }

  lemma LastOf(a: seq<string>, x: string, b: seq<string>, y: string)
    ensures a + [x] == b + [y] ==> x == y
  {
    if a + [x] == b + [y] {
      assert (a + [x])[|a|] == (b + [y])[|b|];
    }
  }

  /** One walk to `pkg::last` is the walk to the package and then the last part there. */
  predicate Splits(t: Table, pkg: string, last: string, add: bool, env: Env) {
    Fetch(t, pkg + "::" + last, add, env) == AndThen(Package(t, pkg, add, env), [last], add)
  }

  /** A table with no stash but main, and no entry. */
  function OnlyMain(main: StashId): Table {
    Table(map[main := map[]], map[], 0, main + 1)
  }

  /** It is so in every table exactly when the number of colons at the end of the package name is a
      multiple of three. */
  lemma FetchSplitsExactly(pkg: string, last: string, env: Env)
    requires pkg != "" && IsPart(last)
    ensures (forall t: Table, add: bool :: Splits(t, pkg, last, add, env)) <==> Trailing(pkg) % 3 == 0
  {
    if Trailing(pkg) % 3 == 0 {
      assert forall k :: 0 <= k < |last| ==> last[k] in last;
      forall t: Table, add: bool ensures Splits(t, pkg, last, add, env) {
        FetchSplits(t, pkg, last, add, env);
      }
    } else {
      StrayColons(pkg, last, env);
      assert !Splits(OnlyMain(env.main), pkg, last, true, env);
    }
  }

  /** Otherwise the two leave different entries behind in an empty table. */
  lemma StrayColons(pkg: string, last: string, env: Env)
    requires pkg != "" && Trailing(pkg) % 3 != 0 && IsPart(last)
    ensures Fetch(OnlyMain(env.main), pkg + "::" + last, true, env).0 !=
            AndThen(Package(OnlyMain(env.main), pkg, true, env), [last], true).0
  {
    var s := Unstarred(pkg);
    StrippedPackage(pkg, "");
    StrippedPackage(pkg, last);
    assert s + "::" + "" == s + "::" && pkg + "::" + "" == pkg + "::";
    LandsMeaning(s, 0);
    CutElsewhere(s, 0, last);
    var p := PathOf(s + "::", 0);
    EntriesDiffer(env.main, p.keys, p.last.value, last);
  }

  lemma EntriesDiffer(main: StashId, keys: seq<string>, colons: string, last: string)
    requires last != ""
    ensures var t := OnlyMain(main);
            var (t1, g) := Get(t, main, keys + [colons], true);
            && g.Some?
            && Get(t, main, keys + [colons + last], true).0 != AndThen((Opened(t1, g.value), g), [last], true).0
  {
    var r: Route, r': Route := keys + [colons], keys + [colons + last];
    assert r'[|keys|] != r[|keys|];
    AddReaches(OnlyMain(main), main, r', main, r);
    InItsPackage(OnlyMain(main), main, r, last);
  }

  /** A route stays resolved while a last part is added in its stash. */
  lemma InItsPackage(t: Table, main: StashId, r: Route, last: string)
    requires Valid(t) && main in t.hash
    ensures var (t1, g) := Get(t, main, r, true);
            g.Some? && Find(AndThen((Opened(t1, g.value), g), [last], true).0, main, r).Some?
  {
    AddFinds(t, main, r);
    GetValid(t, main, r, true);
    var (t1, g) := Get(t, main, r, true);
    OpenStep(t1, g.value, main, r);
    OpenedValid(t1, g.value);
    AddReaches(Opened(t1, g.value), Hv(Opened(t1, g.value), g.value).value, [last], main, r);
  }

  /** The empty package name has no stash, although "::" in front of a name leads to main. */
  lemma EmptyPackage(t: Table, last: string, add: bool, env: Env)
    requires IsPart(last)
    ensures Package(t, "", add, env) == (t, None)
    ensures Fetch(t, "::" + last, add, env) == Get(t, env.main, [last], add)
  {
    var name := "::" + last;
    assert name[2..] == last && "" + "::" == "::";
    assert forall k :: 0 <= k < |last| ==> last[k] in last;
    SkipTo(last, 1, |last|);
    assert [] + [last] == [last];
  }

  /** Fetching without adding gives what is there, and no name resolves differently afterwards. */
  lemma FetchOnlyReads(t: Table, name: string, env: Env, name': string, env': Env)
    requires Valid(t) && env.main in t.hash && env.cur in t.hash && env'.main in t.hash && env'.cur in t.hash
    ensures Fetch(t, name, false, env).1 ==
              if RouteOf(name) == [] then None else Find(t, StartOf(name, env), RouteOf(name))
    ensures Fetch(Fetch(t, name, false, env).0, name', false, env').1 == Fetch(t, name', false, env').1
  {
    var s, r, s', r' := StartOf(name, env), RouteOf(name), StartOf(name', env'), RouteOf(name');
    var t1 := Fetch(t, name, false, env).0;
    FetchByRoute(t, name, false, env);
    FetchByRoute(t, name', false, env');
    FetchByRoute(t1, name', false, env');
    if r != [] {
      GetReads(t, s, r);
      GetValid(t, s, r, false);
    }
    if r' != [] {
      GetReads(t, s', r');
      if r != [] {
        GetKeeps(t, s, r, s', r');
        var (t2, g) := Get(t, s, r, false);
        if g.Some? {
          OpenedValid(t2, g.value);
          OpenStep(t2, g.value, s', r');
        }
        GetReads(t1, s', r');
      }
    }
  }

  lemma OpenedValid(t: Table, g: GlobId)
    requires Valid(t) && g < t.nextGlob
    ensures Valid(Opened(t, g)) && t.hash.Keys <= Opened(t, g).hash.Keys
  {
  }

  /** Adding a name leaves every other resolution as it was; of the names that did not resolve, those
      resolve now that stopped where the added name stopped and go on along it. */
  lemma AddingKeeps(t: Table, name: string, env: Env, name': string, env': Env)
    requires Valid(t) && env.main in t.hash && env.cur in t.hash && env'.main in t.hash && env'.cur in t.hash
    requires Stripped(name) != "::" && Stripped(name') != "::"
    ensures var was, now := Fetch(t, name', false, env').1, Fetch(Fetch(t, name, true, env).0, name', false, env').1;
            && RouteOf(name) != [] && RouteOf(name') != []
            && if was.Some? then now == was
               else now.Some? <==> Covers(Follow(t, StartOf(name, env), RouteOf(name)),
                                          Follow(t, StartOf(name', env'), RouteOf(name')))
  {
    var s, r, s', r' := StartOf(name, env), RouteOf(name), StartOf(name', env'), RouteOf(name');
    FetchByRoute(t, name, true, env);
    FetchByRoute(t, name', false, env');
    var (t1, g) := Get(t, s, r, true);
    var t2 := Fetch(t, name, true, env).0;
    FetchByRoute(t2, name', false, env');
    GetValid(t, s, r, true);
    GetReads(t, s', r');
    AddReaches(t, s, r, s', r');
    AddFinds(t, s, r);
    OpenedValid(t1, g.value);
    OpenStep(t1, g.value, s', r');
    GetReads(t2, s', r');
  }

  /** A name that is fetched with adding is found again, with the same glob and no change. */
  lemma FetchAgain(t: Table, name: string, env: Env, add: bool)
    requires Valid(t) && env.main in t.hash && env.cur in t.hash
    ensures var (t1, g) := Fetch(t, name, true, env);
            && Valid(t1) && t.hash.Keys <= t1.hash.Keys
            && Fetch(t1, name, add, env) == (t1, g)
            && (g.None? <==> Stripped(name) == "::")
  {
    var p := PathOf(Stripped(name), 0);
    if p.last.Some? {
      var start := if p.qualified then env.main else DefaultStash(p.last.value, env.main, env.cur);
      var r: Route := p.keys + [p.last.value];
      GetValid(t, start, r, true);
      AddFinds(t, start, r);
      GetWhole(Get(t, start, r, true).0, start, r, add);
    } else if p.keys != [] {
      GetStashValid(t, env.main, p.keys, true);
      AddFinds(t, env.main, p.keys);
      var (t1, g) := Get(t, env.main, p.keys, true);
      GetValid(t, env.main, p.keys, true);
      OpenStep(t1, g.value, env.main, p.keys);
      GetWhole(Opened(t1, g.value), env.main, p.keys, add);
    }
    OnlyColons(Stripped(name), 0);
  }

  /** No key and no last part: the name is "::". */
  lemma {:induction false} OnlyColons(s: string, i: nat)
    requires i <= |s| && i <= 1
    ensures PathOf(s, i).last.None? && PathOf(s, i).keys == [] <==> s == "::" && i == 0
    decreases |s| - i
  {
    if i < |s| && !SepAt(s, i) {
      NoKeyless(s, i + 1);
    } else if |s| > i + 2 {
      NoKeyless(s[i + 2..], 1);
    }
  }

  lemma {:induction false} NoKeyless(s: string, i: nat)
    requires 0 < i <= |s|
    ensures PathOf(s, i).last.Some? || PathOf(s, i).keys != []
    decreases |s| - i
  {
    if i < |s| && !SepAt(s, i) {
      NoKeyless(s, i + 1);
    }
  }

  // ---------------------------------------------------------------- the walk

  /** Past one separator. */
  lemma PastSeparator(t: Table, stash: Option<StashId>, gv: Option<GlobId>, s: string, i: nat, add: bool, env: Env)
    requires SepAt(s, i)
    ensures var p := if |s| == i + 2 then Path(true, [], None) else PathOf(s[i + 2..], 1);
            var start := if stash.Some? then stash.value else env.main;
            var (t1, g) := Entry(t, start, s[..i] + "::", add);
            Resolve(t, stash, gv, PathOf(s, i), add, env) ==
              if i == 0 then Resolve(t, Some(start), gv, p, add, env)
              else if g.None? then (t1, None)
              else Resolve(Opened(t1, g.value), Hv(Opened(t1, g.value), g.value), g, p, add, env)
  {
    var p := if |s| == i + 2 then Path(true, [], None) else PathOf(s[i + 2..], 1);
    assert [] + p.keys == p.keys;
    if i > 0 {
      var key := s[..i] + "::";
      assert [key] + p.keys + [] == [key] + p.keys;
      var start := if stash.Some? then stash.value else env.main;
      if p.last.Some? {
        assert [key] + p.keys + [p.last.value] == [key] + (p.keys + [p.last.value]);
        FirstStep(t, start, key, p.keys + [p.last.value], add);
      } else if p.keys != [] {
        FirstStep(t, start, key, p.keys, add);
      } else {
        assert [key] + p.keys == [key];
      }
    }
  }

  /** The symbol table of an interpreter. */
  class SymbolTable {
    var hash: map<StashId, map<string, GlobId>>
    var hv: map<GlobId, StashId>
    var nextGlob: GlobId
    var nextStash: StashId

    function View(): Table
      reads this
    {
      Table(hash, hv, nextGlob, nextStash)
    }

    /** With one empty stash, which is main. */
    constructor (main: StashId)
      ensures Valid(View()) && hash == map[main := map[]]
    {
      hash, hv, nextGlob, nextStash := map[main := map[]], map[], 0, main + 1;
    }

    method HvFetch(s: StashId, k: string, add: bool) returns (g: Option<GlobId>)
      modifies this
      ensures (View(), g) == Entry(old(View()), s, k, add)
    {
      var entries: map<string, GlobId> := if s in hash then hash[s] else map[];
      if k in entries {
        return Some(entries[k]);
      }
      if !add {
        return None;
      }
      g := Some(nextGlob);
      entries := entries[k := nextGlob];
      hash := hash[s := entries];
      nextGlob := nextGlob + 1;
    }

    /** GvHV, with a new hash if there is none. */
    method StashIn(g: GlobId) returns (h: StashId)
      modifies this
      ensures View() == Opened(old(View()), g) && Hv(View(), g) == Some(h)
    {
      if g in hv {
        return hv[g];
      }
      h := nextStash;
      hash := hash[h := map[]];
      hv := hv[g := h];
      nextStash := nextStash + 1;
    }

    /** One part of the walk: the glob, and its stash. */
    method Step(s: StashId, key: string, add: bool) returns (gv: Option<GlobId>, stash: Option<StashId>)
      modifies this
      ensures var (t1, g) := Entry(old(View()), s, key, add);
              && gv == g
              && if g.None? then View() == t1
                 else View() == Opened(t1, g.value) && stash == Hv(View(), g.value)
    {
      stash := None;
      gv := HvFetch(s, key, add);
      if gv.Some? {
        var h := StashIn(gv.value);
        stash := Some(h);
      }
    }

    /** At a separator: the part in front of it, if it is not empty, is the next stash. */
    method Separator(stash: Option<StashId>, gv: Option<GlobId>, s: string, name: nat, cursor: nat, add: bool,
                     env: Env) returns (done: bool, stash': Option<StashId>, gv': Option<GlobId>)
      requires name <= cursor && SepAt(s, cursor)
      modifies this
      ensures done ==> (View(), gv') == Walk(old(View()), stash, gv, s[name..], cursor - name, add, env)
      ensures !done ==> cursor + 2 < |s|
      ensures !done ==>
                Walk(View(), stash', gv', s[cursor + 2..], 1, add, env) ==
                Walk(old(View()), stash, gv, s[name..], cursor - name, add, env)
    {
      PastSeparator(View(), stash, gv, s[name..], cursor - name, add, env);
      assert s[name..][..cursor - name] == s[name..cursor];
      assert s[name..][cursor - name + 2..] == s[cursor + 2..];
      var start := if stash.Some? then stash.value else env.main;
      stash', gv' := Some(start), gv;
      if cursor > name {
        gv', stash' := Step(start, s[name..cursor] + "::", add);
      }
      done := (cursor > name && gv'.None?) || cursor + 2 == |s|;
    }

    /** The walk with a cursor. */
    method FetchPvn(nambeg: string, add: bool, env: Env) returns (gv: Option<GlobId>)
      modifies this
      ensures (View(), gv) == Fetch(old(View()), nambeg, add, env)
    {
      var s := if |nambeg| > 2 && nambeg[0] == '*' && IsAlpha(nambeg[1]) then nambeg[1..] else nambeg;
      var stash: Option<StashId> := None;
      gv := None;
      var name, cursor := 0, 0;
      while cursor < |s|
        invariant name <= cursor <= |s|
        invariant Walk(View(), stash, gv, s[name..], cursor - name, add, env) == Fetch(old(View()), nambeg, add, env)
        decreases |s| - cursor
      {
        if s[cursor] == ':' && cursor < |s| - 1 && s[cursor + 1] == ':' {
          var done;
          done, stash, gv := Separator(stash, gv, s, name, cursor, add, env);
          if done {
            return;
          }
          cursor := cursor + 2;
          name := cursor;
        }
        cursor := cursor + 1;
      }
      gv := LastPart(stash, gv, s[name..], add, env);
    }

    /** What is left when there are no more separators. */
    method LastPart(stash: Option<StashId>, gv: Option<GlobId>, last: string, add: bool, env: Env)
      returns (g: Option<GlobId>)
      modifies this
      ensures (View(), g) == Resolve(old(View()), stash, gv, PathOf(last, |last|), add, env)
    {
      assert [] + [last] == [last];
      var start := if stash.Some? then stash.value else DefaultStash(last, env.main, env.cur);
      g := HvFetch(start, last, add);
    }

    /** The stash of a package, by the glob of its name and "::". */
    method StashPvn(pkg: string, add: bool, env: Env) returns (h: Option<StashId>)
      modifies this
      ensures var (t1, g) := Package(old(View()), pkg, add, env);
              View() == t1 && h == if g.None? then None else Hv(t1, g.value)
    {
      var gv := FetchPvn(pkg + "::", add, env);
      if gv.None? {
        return None;
      }
      var stash := StashIn(gv.value);
      h := Some(stash);
    }
  }
}
