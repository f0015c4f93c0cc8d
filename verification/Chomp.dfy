/**
 chomp and chop (doop.c): on one string buffer, and over nested arrays and hashes of strings.
 */
module Chomp {
  import opened Basics
  import opened StringBuffer

  const NEWLINE: Octet := 0x0a

  /** The input record separator: undef, a record size, the empty string, or a string. */
  datatype Separator = Snarf | Record | Paragraph | Line(text: Text)

  /** What chomp works on; a hash is its values, in iteration order. */
  datatype Value = Undef | Str(s: Text) | Array(elems: seq<Value>) | Hash(vals: seq<Value>)

  // ---------------------------------------------------------------- chomp

  function StripNewlines(s: Text): Text {
    if s != [] && s[|s| - 1] == NEWLINE then StripNewlines(s[..|s| - 1]) else s
  }

  predicate EndsWith(s: Text, t: Text) {
    |t| <= |s| && s[|s| - |t|..] == t
  }

  /** What chomp leaves of a string. */
  function Chomped(s: Text, rs: Separator): Text {
    match rs
    case Snarf => s
    case Record => s
    case Paragraph => StripNewlines(s)
    case Line(t) => if t != [] && EndsWith(s, t) then s[..|s| - |t|] else s
  }

  function Newlines(n: nat): Text {
    seq(n, _ => NEWLINE)
  }

  /** Paragraph mode removes newlines only, and leaves none at the end. */
  lemma {:induction false} StripMeaning(s: Text)
    ensures |StripNewlines(s)| <= |s| && s == StripNewlines(s) + Newlines(|s| - |StripNewlines(s)|)
    ensures StripNewlines(s) != [] ==> StripNewlines(s)[|StripNewlines(s)| - 1] != NEWLINE
  {
    if s != [] && s[|s| - 1] == NEWLINE {
      StripMeaning(s[..|s| - 1]);
      assert s == s[..|s| - 1] + [NEWLINE];
    }
  }

  /** Separator mode removes one separator exactly when the string ends with it; in every mode
      what is left and what is removed make up the original. */
  lemma ChompedMeaning(s: Text, rs: Separator)
    ensures rs.Line? && rs.text != [] ==>
      (EndsWith(s, rs.text) <==> s == Chomped(s, rs) + rs.text) && (!EndsWith(s, rs.text) ==> Chomped(s, rs) == s)
    ensures |Chomped(s, rs)| <= |s| && s[..|Chomped(s, rs)|] == Chomped(s, rs)
  {
    match rs
    case Snarf =>
    case Record =>
    case Paragraph => StripIsFront(s);
    case Line(t) => SeparatorMeaning(s, t);
  }

  lemma StripIsFront(s: Text)
    ensures |StripNewlines(s)| <= |s| && s[..|StripNewlines(s)|] == StripNewlines(s)
  {
    StripMeaning(s);
  }

  lemma SeparatorMeaning(s: Text, t: Text)
    ensures EndsWith(s, t) ==> s == s[..|s| - |t|] + t
    ensures t != [] && !EndsWith(s, t) ==> s != s + t
  {
  }

  /** In the other modes: without a separator nothing is removed, and in paragraph mode all newlines at
      the end. */
  lemma ChompedElse(s: Text, rs: Separator)
    ensures rs.Snarf? || rs.Record? ==> Chomped(s, rs) == s
    ensures rs.Paragraph? ==>
              var t := Chomped(s, rs);
              && t <= s && (forall k :: |t| <= k < |s| ==> s[k] == 0x0a)
              && (t != [] ==> t[|t| - 1] != 0x0a)
  {
    StripMeaning(s);
    var t := StripNewlines(s);
    assert forall k :: |t| <= k < |s| ==> s[k] == (t + Newlines(|s| - |t|))[k];
  }

  /** What do_chomp counts for one string: bytes, or in code-point mode the `chars` characters of
      a separator of more than one byte. */
  function Count(s: Text, rs: Separator, chars: nat): nat {
    if rs.Line? && |rs.text| > 1 then (if EndsWith(s, rs.text) then chars else 0)
    else
      ChompedMeaning(s, rs);
      |s| - |Chomped(s, rs)|
  }

  /** One separator is removed exactly if the string is something and then the separator; it counts as its
      characters if it is more than one byte long, and what is removed otherwise counts in bytes. */
  lemma SeparatorRemoved(s: Text, rs: Separator, chars: nat)
    ensures rs.Line? && rs.text != [] ==>
              if exists front :: s == front + rs.text
              then s == Chomped(s, rs) + rs.text
              else Chomped(s, rs) == s
    ensures rs.Line? && |rs.text| > 1 ==>
              Count(s, rs, chars) == if exists front :: s == front + rs.text then chars else 0
    ensures !(rs.Line? && |rs.text| > 1) ==> Count(s, rs, chars) + |Chomped(s, rs)| == |s|
  {
    ChompedMeaning(s, rs);
    if rs.Line? {
      EndsWithMeaning(s, rs.text);
    }
  }

  lemma EndsWithMeaning(s: Text, t: Text)
    ensures EndsWith(s, t) <==> exists front :: s == front + t
  {
    if EndsWith(s, t) {
      assert s == s[..|s| - |t|] + t;
    }
    if front :| s == front + t {
      assert s[|s| - |t|..] == t;
    }
  }

  /** Where the newlines at the end of the buffer begin, of which one is at `last`. */
  method FirstNewline(sv: Pv<Octet>, last: nat) returns (len: nat)
    requires sv.Valid() && sv.cur == last + 1 && sv.pv[last] == NEWLINE
    ensures len <= last && StripNewlines(sv.Contents()) == sv.Contents()[..len]
  {
    ghost var s := sv.Contents();
    len := last;
    assert s[..last + 1] == s;
    while len > 0 && sv.pv[len - 1] == NEWLINE
      invariant len <= last
      invariant StripNewlines(s) == StripNewlines(s[..len])
    {
      StripStep(s, len - 1);
      len := len - 1;
    }
    assert len > 0 ==> s[..len][len - 1] == sv.pv[len - 1];
  }

  /** do_chomp on a buffer. */
  method ChompString(sv: Pv<Octet>, rs: Separator, chars: nat) returns (count: nat)
    requires sv.Valid() && (rs.Line? ==> rs.text != [])
    modifies sv, sv.pv
    ensures sv.Valid() && sv.pv == old(sv.pv)
    ensures sv.Contents() == Chomped(old(sv.Contents()), rs)
    ensures count == Count(old(sv.Contents()), rs, chars)
  {
    if rs.Snarf? || rs.Record? { return 0; }
    count := 0;
    var len := sv.cur;
    if len == 0 { return; }
    ghost var s := sv.Contents();
    len := len - 1;
    if rs.Paragraph? {
      if sv.pv[len] != NEWLINE { return; }
      len := FirstNewline(sv, len);
      count := sv.cur - len;
    } else {
      var rslen := |rs.text|;
      if rslen == 1 {
        if sv.pv[len] != rs.text[0] { return; }
        count := 1;
        assert s[len..] == rs.text;
      } else {
        if len < rslen - 1 { return; }
        len := len - (rslen - 1);
        if sv.pv[len..len + rslen] != rs.text {
          assert s[len..] == sv.pv[len..len + rslen];
          return;
        }
        assert s[len..] == rs.text;
        count := chars;
      }
    }
    sv.cur := len;
    sv.pv[len] := 0;
    assert sv.Contents() == s[..len];
  }

  lemma StripStep(s: Text, i: nat)
    requires i < |s| && s[i] == NEWLINE
    ensures StripNewlines(s[..i + 1]) == StripNewlines(s[..i])
  {
    assert s[..i + 1][..i] == s[..i];
  }

  datatype Chomping = Chomping(v: Value, count: nat)

  /** do_chomp on any value: strings in place, arrays and hashes element by element, undef
      elements skipped. */
  function ChompValue(v: Value, rs: Separator, chars: nat): Chomping
    decreases v, 0
  {
    match v
    case Undef => Chomping(v, 0)
    case Str(s) => Chomping(Str(Chomped(s, rs)), Count(s, rs, chars))
    case Array(vs) => var (ws, n) := ChompAll(vs, rs, chars); Chomping(Array(ws), n)
    case Hash(vs) => var (ws, n) := ChompAll(vs, rs, chars); Chomping(Hash(ws), n)
  }

  function ChompAll(vs: seq<Value>, rs: Separator, chars: nat): (seq<Value>, nat)
    decreases vs, 1
  {
    if vs == [] then ([], 0)
    else
      var c := ChompValue(vs[0], rs, chars);
      var (ws, n) := ChompAll(vs[1..], rs, chars);
      ([c.v] + ws, c.count + n)
  }

  function Length(v: Value): nat
    decreases v, 0
  {
    match v
    case Undef => 0
    case Str(s) => |s|
    case Array(vs) => Lengths(vs)
    case Hash(vs) => Lengths(vs)
  }

  function Lengths(vs: seq<Value>): nat
    decreases vs, 1
  {
    if vs == [] then 0 else Length(vs[0]) + Lengths(vs[1..])
  }

  /** In byte mode chomp conserves length over any tree: what is gone is what it reports. */
  lemma {:induction false} ChompConserves(v: Value, rs: Separator, chars: nat)
    requires rs.Line? ==> rs.text != [] && chars == |rs.text|
    ensures var c := ChompValue(v, rs, chars); Length(v) == Length(c.v) + c.count
    decreases v, 0
  {
    match v
    case Undef =>
    case Str(s) => ChompedMeaning(s, rs);
    case Array(vs) => ChompAllConserves(vs, rs, chars);
    case Hash(vs) => ChompAllConserves(vs, rs, chars);
  }

  lemma {:induction false} ChompAllConserves(vs: seq<Value>, rs: Separator, chars: nat)
    requires rs.Line? ==> rs.text != [] && chars == |rs.text|
    ensures var (ws, n) := ChompAll(vs, rs, chars); Lengths(vs) == Lengths(ws) + n
    decreases vs, 1
  {
    if vs != [] {
      ChompConserves(vs[0], rs, chars);
      ChompAllConserves(vs[1..], rs, chars);
      var (ws, n) := ChompAll(vs, rs, chars);
      assert ws[1..] == ChompAll(vs[1..], rs, chars).0;
    }
  }

  // ---------------------------------------------------------------- place by place

  function Children(v: Value): seq<Value> {
    match v
    case Undef => []
    case Str(_) => []
    case Array(vs) => vs
    case Hash(vs) => vs
  }

  /** The value reached by taking the element `path[0]`, of that `path[1]`, and so on. */
  function Node(v: Value, path: seq<nat>): Option<Value>
    decreases |path|
  {
    if path == [] then Some(v)
    else if path[0] < |Children(v)| then Node(Children(v)[path[0]], path[1..])
    else None
  }

  lemma {:induction false} ChompAllAt(vs: seq<Value>, rs: Separator, chars: nat, i: nat)
    ensures |ChompAll(vs, rs, chars).0| == |vs|
    ensures i < |vs| ==> ChompAll(vs, rs, chars).0[i] == ChompValue(vs[i], rs, chars).v
  {
    if vs != [] {
      ChompAllAt(vs[1..], rs, chars, if i == 0 then 0 else i - 1);
    }
  }

  /** At every place: a container stays what it is, with as many elements; undef stays; a string is
      the chomped string; and nothing is anywhere else. */
  lemma {:induction false} ChompKeepsShape(v: Value, rs: Separator, chars: nat, path: seq<nat>)
    ensures match Node(v, path)
            case None => Node(ChompValue(v, rs, chars).v, path) == None
            case Some(Undef) => Node(ChompValue(v, rs, chars).v, path) == Some(Undef)
            case Some(Str(s)) => Node(ChompValue(v, rs, chars).v, path) == Some(Str(Chomped(s, rs)))
            case Some(Array(vs)) =>
              var w := Node(ChompValue(v, rs, chars).v, path);
              w.Some? && w.value.Array? && |w.value.elems| == |vs|
            case Some(Hash(vs)) =>
              var w := Node(ChompValue(v, rs, chars).v, path);
              w.Some? && w.value.Hash? && |w.value.vals| == |vs|
    decreases |path|
  {
    var vs := Children(v);
    ChompAllAt(vs, rs, chars, if path == [] then 0 else path[0]);
    if path != [] && path[0] < |vs| {
      ChompKeepsShape(vs[path[0]], rs, chars, path[1..]);
    }
  }
}
