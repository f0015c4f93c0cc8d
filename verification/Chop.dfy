/**
 chop in byte mode and in code-point mode (doop.c), with the UTF-8 test it relies on (utf8.c).

 The test accepts more than section 3 of RFC 3629: surrogates, code points up to U+13FFFF, and
 the five- and six-byte forms.  Chopping is proved right for everything it accepts.
 */
module Chop {
  import opened Basics
  import opened StringBuffer

  datatype Piece = Unset | Piece(text: Text)

  // ---------------------------------------------------------------- is_utf8_string

  /** The byte at `i`; a string is followed by its NUL. */
  function At(s: Text, i: nat): Octet {
    if i < |s| then s[i] else 0
  }

  predicate Continuation(b: Octet) {
    0x80 <= b <= 0xbf
  }

  /** UTF8SKIP for a start byte. */
  function Skip(b: Octet): nat {
    if b < 0xc0 then 1 else if b < 0xe0 then 2 else if b < 0xf0 then 3 else if b < 0xf8 then 4
    else if b < 0xfc then 5 else 6
  }

  /** IS_UTF8_CHAR, for up to four bytes. */
  predicate FastChar(s: Text, n: nat) {
    if n == 2 then 0xc2 <= At(s, 0) <= 0xdf && Continuation(At(s, 1))
    else if n == 3 then
      && Continuation(At(s, 2))
      && ((At(s, 0) == 0xe0 && 0xa0 <= At(s, 1) <= 0xbf) || (0xe1 <= At(s, 0) <= 0xef && Continuation(At(s, 1))))
    else if n == 4 then
      && Continuation(At(s, 2)) && Continuation(At(s, 3))
      && ((At(s, 0) == 0xf0 && 0x90 <= At(s, 1) <= 0xbf) || (0xf1 <= At(s, 0) <= 0xf4 && Continuation(At(s, 1))))
    else false
  }

  /** The value accumulated by is_utf8_char_slow over the bytes from 1 up to `n`. */
  function Accumulated(s: Text, n: nat, first: nat): nat {
    if n <= 1 then first else Accumulated(s, n - 1, first) * 0x40 + At(s, n - 1) % 0x40
  }

  /** is_utf8_char_slow, for the five- and six-byte forms: continuation bytes, not overlong. */
  predicate SlowChar(s: Text, n: nat) {
    && (forall i :: 1 <= i < n ==> Continuation(At(s, i)))
    && (if n == 5 then Accumulated(s, 5, At(s, 0) % 4) >= 0x20_0000
        else Accumulated(s, 6, At(s, 0) % 2) >= 0x400_0000)
  }

  /** Length of the character at the front of a string, or 0. */
  function CharLen(s: Text): nat
    requires s != []
  {
    var n := Skip(s[0]);
    if s[0] < 0x80 then 1
    else if !(0xc0 <= s[0] <= 0xfd) then 0
    else if n <= 4 then (if FastChar(s, n) then n else 0)
    else if SlowChar(s, n) then n else 0
  }

  /** is_utf8_string. */
  predicate IsUtf8(s: Text) {
    s == [] || (0 < CharLen(s) <= |s| && IsUtf8(s[CharLen(s)..]))
  }

  /** A character is a start byte followed by continuation bytes, all inside the string. */
  lemma CharShape(s: Text)
    requires s != [] && CharLen(s) > 0
    ensures CharLen(s) <= |s| && !Continuation(s[0])
    ensures forall i :: 1 <= i < CharLen(s) ==> Continuation(s[i])
  {
    var n := CharLen(s);
    assert n >= 2 ==> Continuation(At(s, n - 1));
    assert n >= 3 ==> Continuation(At(s, 1));
    assert forall i :: 1 <= i < n ==> Continuation(At(s, i));
    assert forall i :: 1 <= i < n ==> At(s, i) == s[i];
  }

  // ---------------------------------------------------------------- do_chop

  /** Where the last character starts, judged by its bytes. */
  function LastStart(s: Text): (i: nat)
    requires s != []
    ensures i < |s|
  {
    if |s| > 1 && Continuation(s[|s| - 1]) then LastStart(s[..|s| - 1]) else |s| - 1
  }

  datatype Chopped = Chopped(rest: Text, piece: Piece)

  function ChopPoint(s: Text): Chopped {
    if s == [] then Chopped([], Piece([]))
    else
      var i := LastStart(s);
      if IsUtf8(s[i..]) then Chopped(s[..i], Piece(s[i..])) else Chopped(s, Unset)
  }

  function ChopByte(s: Text): Chopped {
    if s == [] then Chopped([], Piece([])) else Chopped(s[..|s| - 1], Piece(s[|s| - 1..]))
  }

  /** do_chop on a string buffer; `piece` is what was stored in astr, if anything. */
  method ChopString(sv: Pv<Octet>, codepoints: bool) returns (piece: Piece)
    requires sv.Valid()
    modifies sv, sv.pv
    ensures sv.Valid() && sv.pv == old(sv.pv)
    ensures Chopped(sv.Contents(), piece) ==
      if codepoints then ChopPoint(old(sv.Contents())) else ChopByte(old(sv.Contents()))
  {
    var len := sv.cur;
    ghost var s := sv.Contents();
    if len == 0 { return Piece([]); }
    var i := len - 1;
    if codepoints {
      assert s[..i + 1] == s;
      while i > 0 && Continuation(sv.pv[i])
        invariant 0 <= i < len && LastStart(s) == LastStart(s[..i + 1])
        modifies {}
      {
        assert s[..i + 1][..i] == s[..i];
        i := i - 1;
      }
      assert s[..i + 1][i] == sv.pv[i];
      assert sv.pv[i..len] == s[i..];
      if !IsUtf8(sv.pv[i..len]) { return Unset; }
    }
    piece := Piece(sv.pv[i..len]);
    sv.pv[i] := 0;
    sv.cur := i;
    assert sv.Contents() == s[..i];
  }

  // ---------------------------------------------------------------- what it means

  lemma {:induction false} LastStartOfRun(s: Text, i: nat)
    requires i < |s| && !Continuation(s[i]) && forall j :: i < j < |s| ==> Continuation(s[j])
    ensures LastStart(s) == i
  {
    if i < |s| - 1 {
      LastStartOfRun(s[..|s| - 1], i);
    }
  }

  /** The start of the last character of a string that has one more in front. */
  lemma {:induction false} LastStartBehind(s: Text, n: nat)
    requires n < |s| && !Continuation(s[n])
    ensures LastStart(s) == n + LastStart(s[n..])
  {
    var t := s[n..];
    if |t| > 1 && Continuation(t[|t| - 1]) {
      LastStartBehind(s[..|s| - 1], n);
      assert s[..|s| - 1][n..] == t[..|t| - 1];
    }
  }

  lemma {:induction false} IsUtf8Concat(s: Text, t: Text)
    requires IsUtf8(s)
    ensures IsUtf8(s + t) <==> IsUtf8(t)
  {
    if s == [] {
      assert s + t == t;
    } else {
      var n := CharLen(s);
      CharShape(s);
      assert CharLen(s + t) == n by {
        SameFront(s, s + t);
      }
      assert (s + t)[n..] == s[n..] + t;
      IsUtf8Concat(s[n..], t);
    }
  }

  lemma {:induction false} SameAccumulated(s: Text, t: Text, n: nat, first: nat)
    requires forall i :: 0 <= i < n ==> At(s, i) == At(t, i)
    ensures Accumulated(s, n, first) == Accumulated(t, n, first)
  {
    if n > 1 {
      SameAccumulated(s, t, n - 1, first);
    }
  }

  /** A character does not depend on what follows it. */
  lemma SameFront(s: Text, t: Text)
    requires s != [] && CharLen(s) > 0 && s <= t
    ensures CharLen(t) == CharLen(s)
  {
    var n := CharLen(s);
    CharShape(s);
    assert forall i :: 0 <= i < n ==> At(s, i) == At(t, i);
    if n >= 5 {
      SameAccumulated(s, t, n, At(s, 0) % 4);
      SameAccumulated(s, t, n, At(s, 0) % 2);
    } else if n >= 2 {
      assert At(s, 1) == At(t, 1);
      assert n >= 3 ==> At(s, 2) == At(t, 2);
      assert n >= 4 ==> At(s, 3) == At(t, 3);
    }
  }

  /** The last start byte starts the last character of a string the test accepts. */
  lemma {:induction false} LastCharacter(s: Text)
    requires s != [] && IsUtf8(s)
    ensures var i := LastStart(s);
            CharLen(s[i..]) == |s| - i && IsUtf8(s[..i])
    decreases |s|
  {
    var n := CharLen(s);
    CharShape(s);
    if n == |s| {
      LastStartOfRun(s, 0);
      assert s[0..] == s && s[..0] == [];
    } else {
      var t := s[n..];
      LastCharacter(t);
      Follows(s, n);
      LastStartBehind(s, n);
      FrontIsUtf8(s);
      PastFront(s, n, LastStart(t));
    }
  }

  lemma Follows(s: Text, n: nat)
    requires 0 < n < |s| && IsUtf8(s[n..])
    ensures !Continuation(s[n])
  {
    CharShape(s[n..]);
  }

  lemma PastFront(s: Text, n: nat, j: nat)
    requires n + j <= |s| && IsUtf8(s[..n]) && IsUtf8(s[n..][..j])
    ensures IsUtf8(s[..n + j]) && s[n + j..] == s[n..][j..]
  {
    IsUtf8Concat(s[..n], s[n..][..j]);
    assert s[..n + j] == s[..n] + s[n..][..j];
  }

  /** Chopping a non-empty string the test accepts removes exactly its last character, and leaves
      a string the test accepts. */
  lemma ChopValid(s: Text)
    requires s != [] && IsUtf8(s)
    ensures var c := ChopPoint(s);
            && c.piece.Piece? && c.rest + c.piece.text == s && IsUtf8(c.rest)
            && c.piece.text != [] && CharLen(c.piece.text) == |c.piece.text|
  {
    LastCharacter(s);
    var i := LastStart(s);
    assert s[i..][|s| - i..] == [];
    assert IsUtf8(s[i..]);
  }

  lemma FrontIsUtf8(s: Text)
    requires s != [] && CharLen(s) > 0
    ensures CharLen(s) <= |s| && IsUtf8(s[..CharLen(s)])
  {
    CharShape(s);
    var n := CharLen(s);
    var f := s[..n];
    assert forall i :: 0 <= i < n ==> At(s, i) == At(f, i);
    if n >= 5 {
      SameAccumulated(s, f, n, At(s, 0) % 4);
      SameAccumulated(s, f, n, At(s, 0) % 2);
    } else if n >= 2 {
      assert At(s, 1) == At(f, 1);
      assert n >= 3 ==> At(s, 2) == At(f, 2);
      assert n >= 4 ==> At(s, 3) == At(f, 3);
    }
    assert CharLen(f) == n;
    assert f[n..] == [];
  }

  /** Whatever the string, nothing is lost; and it is left alone exactly when the bytes from the
      last start byte on are not a character. */
  lemma ChopLosesNothing(s: Text)
    ensures var c := ChopPoint(s);
            && (c.piece.Piece? ==> c.rest + c.piece.text == s)
            && (c.piece == Unset ==> c.rest == s)
            && (c.piece == Unset <==> s != [] && !IsUtf8(s[LastStart(s)..]))
  {
  }

  /** In byte mode: the last byte, and what is before it. */
  lemma ChopByteMeaning(s: Text)
    ensures var c := ChopByte(s);
            && c.piece.Piece? && c.rest + c.piece.text == s
            && |c.piece.text| == if s == [] then 0 else 1
  {
  }

  // ---------------------------------------------------------------- code points

  predicate Scalar(cp: nat) {
    cp < 0xd800 || 0xe000 <= cp <= 0x10_ffff
  }

  /** The code points whose encodings the test accepts. */
  predicate Accepted(cp: nat) {
    cp < 0x14_0000 || 0x20_0000 <= cp < 0x8000_0000
  }

  type CodePoint = cp: nat | Accepted(cp)

  /** How many bytes the shortest form takes. */
  function Size(cp: nat): nat {
    if cp < 0x80 then 1 else if cp < 0x800 then 2 else if cp < 0x1_0000 then 3 else if cp < 0x20_0000 then 4
    else if cp < 0x400_0000 then 5 else 6
  }

  /** The marker bits of a start byte. */
  function Marker(n: nat): Octet {
    if n <= 1 then 0 else if n == 2 then 0xc0 else if n == 3 then 0xe0 else if n == 4 then 0xf0
    else if n == 5 then 0xf8 else 0xfc
  }

  /** The last `k` groups of 6 bits, as continuation bytes. */
  function Tail(cp: nat, k: nat): Text {
    if k == 0 then [] else Tail(cp / 0x40, k - 1) + [0x80 + cp % 0x40]
  }

  /** What is left for the start byte. */
  function High(cp: nat, k: nat): nat {
    if k == 0 then cp else High(cp / 0x40, k - 1)
  }

  lemma HighIs(cp: nat, k: nat)
    requires k <= 5
    ensures High(cp, k) == cp / (if k == 0 then 1 else if k == 1 then 0x40 else if k == 2 then 0x1000 else
                                 if k == 3 then 0x4_0000 else if k == 4 then 0x100_0000 else 0x4000_0000)
  {
    if k > 0 {
      HighIs(cp / 0x40, k - 1);
    }
  }

  /** How much a start byte has room for. */
  function Room(n: nat): nat {
    if n <= 1 then 0x80 else if n == 2 then 0x20 else if n == 3 then 0x10 else if n == 4 then 5
    else if n == 5 then 4 else 2
  }

  lemma StartFits(cp: CodePoint)
    ensures High(cp, Size(cp) - 1) < Room(Size(cp)) && Marker(Size(cp)) + Room(Size(cp)) <= 0x100
  {
    assert Accepted(cp);
    var n := Size(cp);
    HighIs(cp, n - 1);
    if n == 2 {
      assert cp < 0x20 * 0x40;
    } else if n == 3 {
      assert cp < 0x10 * 0x1000;
    } else if n == 4 {
      assert cp < 5 * 0x4_0000;
    } else if n == 5 {
      assert cp < 4 * 0x100_0000;
    } else if n == 6 {
      assert cp < 2 * 0x4000_0000;
    }
  }

  /** Section 3 of RFC 3629, and beyond its range the forms of five and six bytes. */
  function Encode(cp: CodePoint): (e: Text)
    ensures |e| == Size(cp)
  {
    var n := Size(cp);
    StartFits(cp);
    TailLength(cp, n - 1);
    [Marker(n) + High(cp, n - 1)] + Tail(cp, n - 1)
  }

  lemma TailLength(cp: nat, k: nat)
    ensures |Tail(cp, k)| == k && forall i :: 0 <= i < k ==> Continuation(Tail(cp, k)[i])
  {
    if k > 0 {
      TailLength(cp / 0x40, k - 1);
    }
  }

  /** The table in that section. */
  lemma EncodeTable(cp: nat)
    requires Scalar(cp)
    ensures Encode(cp) ==
      if cp < 0x80 then [cp]
      else if cp < 0x800 then [0xc0 + cp / 0x40, 0x80 + cp % 0x40]
      else if cp < 0x1_0000 then [0xe0 + cp / 0x1000, 0x80 + cp / 0x40 % 0x40, 0x80 + cp % 0x40]
      else [0xf0 + cp / 0x4_0000, 0x80 + cp / 0x1000 % 0x40, 0x80 + cp / 0x40 % 0x40, 0x80 + cp % 0x40]
  {
    HighIs(cp, Size(cp) - 1);
    TailTable(cp);
  }

  lemma TailTable(cp: nat)
    ensures Tail(cp, 0) == []
    ensures Tail(cp, 1) == [0x80 + cp % 0x40]
    ensures Tail(cp, 2) == [0x80 + cp / 0x40 % 0x40, 0x80 + cp % 0x40]
    ensures Tail(cp, 3) == [0x80 + cp / 0x1000 % 0x40, 0x80 + cp / 0x40 % 0x40, 0x80 + cp % 0x40]
  {
    var a := cp / 0x40;
    var b := a / 0x40;
    assert b == cp / 0x1000;
    assert Tail(cp, 0) == Tail(a, 0) == Tail(b, 0) == Tail(b / 0x40, 0) == [];
    assert Tail(cp, 1) == [0x80 + cp % 0x40];
    assert Tail(a, 1) == [0x80 + a % 0x40];
    assert Tail(b, 1) == [0x80 + b % 0x40];
    assert Tail(a, 2) == [0x80 + b % 0x40, 0x80 + a % 0x40];
  }

  function EncodeAll(cps: seq<CodePoint>): Text
  {
    if cps == [] then [] else EncodeAll(cps[..|cps| - 1]) + Encode(cps[|cps| - 1])
  }

  // ---------------------------------------------------------------- what the test accepts, exactly

  /** Collecting the groups of a tail gives the number back. */
  lemma {:induction false} AccumulatedTail(s: Text, cp: nat, k: nat)
    requires k < |s| && s[1..k + 1] == Tail(cp, k)
    ensures Accumulated(s, k + 1, High(cp, k)) == cp
  {
    if k > 0 {
      TailLength(cp / 0x40, k - 1);
      var t := Tail(cp, k);
      assert s[1..k] == s[1..k + 1][..k - 1] == t[..k - 1] == Tail(cp / 0x40, k - 1);
      assert s[k] == s[1..k + 1][k - 1] == 0x80 + cp % 0x40;
      AccumulatedTail(s, cp / 0x40, k - 1);
    }
  }

  /** Conversely, any continuation bytes are the tail of the number they add up to. */
  lemma {:induction false} TailAccumulated(s: Text, k: nat, first: nat)
    requires k < |s| && forall i :: 1 <= i <= k ==> Continuation(s[i])
    ensures var v := Accumulated(s, k + 1, first);
            Tail(v, k) == s[1..k + 1] && High(v, k) == first
  {
    if k > 0 {
      var v, w := Accumulated(s, k + 1, first), Accumulated(s, k, first);
      TailAccumulated(s, k - 1, first);
      assert v == w * 0x40 + s[k] % 0x40;
      assert v / 0x40 == w && v % 0x40 == s[k] % 0x40;
      assert s[1..k + 1] == s[1..k] + [s[k]];
    }
  }

  lemma AccumulatedIs(s: Text, first: nat)
    ensures Accumulated(s, 2, first) == first * 0x40 + At(s, 1) % 0x40
    ensures Accumulated(s, 3, first) == first * 0x1000 + At(s, 1) % 0x40 * 0x40 + At(s, 2) % 0x40
    ensures Accumulated(s, 4, first) ==
      first * 0x4_0000 + At(s, 1) % 0x40 * 0x1000 + At(s, 2) % 0x40 * 0x40 + At(s, 3) % 0x40
  {
    assert Accumulated(s, 1, first) == first;
  }

  lemma AccumulatedBounds(s: Text, first: nat)
    ensures first * 0x100_0000 <= Accumulated(s, 5, first) < (first + 1) * 0x100_0000
    ensures first * 0x4000_0000 <= Accumulated(s, 6, first) < (first + 1) * 0x4000_0000
  {
    AccumulatedIs(s, first);
    assert Accumulated(s, 5, first) == Accumulated(s, 4, first) * 0x40 + At(s, 4) % 0x40;
    assert Accumulated(s, 6, first) == Accumulated(s, 5, first) * 0x40 + At(s, 5) % 0x40;
  }

  /** The code point of the character at the front. */
  function Decoded(s: Text): nat
    requires s != [] && CharLen(s) > 0
  {
    var n := CharLen(s);
    Accumulated(s, n, s[0] - Marker(n))
  }

  /** A character the test accepts is the shortest encoding of an accepted code point. */
  lemma CharIsEncoding(s: Text)
    requires s != [] && CharLen(s) > 0
    ensures CharLen(s) <= |s| && Accepted(Decoded(s)) && s[..CharLen(s)] == Encode(Decoded(s))
  {
    CharShape(s);
    DecodedSize(s);
    var n := CharLen(s);
    var first := s[0] - Marker(n);
    TailAccumulated(s, n - 1, first);
    assert s[..n] == [s[0]] + s[1..n];
  }

  lemma DecodedSize(s: Text)
    requires s != [] && CharLen(s) > 0
    ensures Accepted(Decoded(s)) && Size(Decoded(s)) == CharLen(s)
  {
    var n := CharLen(s);
    if n <= 2 {
      ShortSize(s);
    } else if n <= 4 {
      LongSize(s);
    } else {
      SlowSize(s);
    }
  }

  lemma ShortSize(s: Text)
    requires s != [] && (CharLen(s) == 1 || CharLen(s) == 2)
    ensures Accepted(Decoded(s)) && Size(Decoded(s)) == CharLen(s)
  {
    var n := CharLen(s);
    AccumulatedIs(s, s[0] - Marker(n));
    assert n == 1 ==> Decoded(s) == s[0];
  }

  lemma LongSize(s: Text)
    requires s != [] && (CharLen(s) == 3 || CharLen(s) == 4)
    ensures Accepted(Decoded(s)) && Size(Decoded(s)) == CharLen(s)
  {
    var n := CharLen(s);
    AccumulatedIs(s, s[0] - Marker(n));
  }

  lemma SlowSize(s: Text)
    requires s != [] && (CharLen(s) == 5 || CharLen(s) == 6)
    ensures Accepted(Decoded(s)) && Size(Decoded(s)) == CharLen(s)
  {
    var n := CharLen(s);
    var first := s[0] - Marker(n);
    assert first == if n == 5 then At(s, 0) % 4 else At(s, 0) % 2;
    AccumulatedBounds(s, first);
  }

  /** And every encoding of an accepted code point is a character to the test. */
  lemma EncodeIsChar(cp: CodePoint)
    ensures Encode(cp) != [] && CharLen(Encode(cp)) == |Encode(cp)|
  {
    var e, n := Encode(cp), Size(cp);
    EncodedShape(cp);
    AccumulatedTail(e, cp, n - 1);
    if 2 <= n <= 4 {
      AccumulatedIs(e, High(cp, n - 1));
      FastEncoded(e, cp, n);
    }
  }

  lemma EncodedShape(cp: CodePoint)
    ensures var e, n := Encode(cp), Size(cp);
            && |e| == n && e[0] == Marker(n) + High(cp, n - 1) && High(cp, n - 1) < Room(n)
            && e[1..n] == Tail(cp, n - 1)
            && forall i :: 1 <= i < n ==> Continuation(At(e, i))
  {
    var e, n := Encode(cp), Size(cp);
    StartFits(cp);
    TailLength(cp, n - 1);
    assert e[1..n] == Tail(cp, n - 1);
    assert forall i :: 1 <= i < n ==> At(e, i) == Tail(cp, n - 1)[i - 1];
  }

  lemma FastEncoded(e: Text, cp: CodePoint, n: nat)
    requires 2 <= n <= 4 && |e| == n == Size(cp) && forall i :: 1 <= i < n ==> Continuation(At(e, i))
    requires Marker(n) <= e[0] < Marker(n) + Room(n) && Accumulated(e, n, e[0] - Marker(n)) == cp
    ensures FastChar(e, n)
  {
    AccumulatedIs(e, e[0] - Marker(n));
    assert Continuation(At(e, 1)) && (n >= 3 ==> Continuation(At(e, 2))) && (n >= 4 ==> Continuation(At(e, 3)));
  }

  lemma {:induction false} EncodeAllFront(cp: CodePoint, cps: seq<CodePoint>)
    ensures EncodeAll([cp] + cps) == Encode(cp) + EncodeAll(cps)
  {
    if cps == [] {
      assert [cp] + cps == [] + [cp];
      EncodeAllLast([], cp);
    } else {
      var n := |cps| - 1;
      EncodeAllFront(cp, cps[..n]);
      assert [cp] + cps == [cp] + cps[..n] + [cps[n]];
      EncodeAllLast([cp] + cps[..n], cps[n]);
      Associate(Encode(cp), EncodeAll(cps[..n]), Encode(cps[n]));
    }
  }

  lemma EncodeAllLast(cps: seq<CodePoint>, cp: CodePoint)
    ensures EncodeAll(cps + [cp]) == EncodeAll(cps) + Encode(cp)
  {
    assert (cps + [cp])[..|cps|] == cps;
  }

  lemma {:induction false} EncodeAllIsUtf8(cps: seq<CodePoint>)
    ensures IsUtf8(EncodeAll(cps))
  {
    if cps != [] {
      var n := |cps| - 1;
      EncodeAllIsUtf8(cps[..n]);
      EncodeIsChar(cps[n]);
      var e := Encode(cps[n]);
      assert e[|e|..] == [];
      IsUtf8Concat(EncodeAll(cps[..n]), e);
    }
  }

  lemma {:induction false} Decoding(s: Text) returns (cps: seq<CodePoint>)
    requires IsUtf8(s)
    ensures EncodeAll(cps) == s
    decreases |s|
  {
    if s == [] {
      cps := [];
    } else {
      var n := CharLen(s);
      CharIsEncoding(s);
      var rest := Decoding(s[n..]);
      EncodeAllFront(Decoded(s), rest);
      cps := [Decoded(s)] + rest;
      assert s == s[..n] + s[n..];
    }
  }

  /** The test accepts a string if and only if it is the encoding of a list of accepted code points. */
  lemma IsUtf8Exactly(s: Text)
    ensures IsUtf8(s) <==> exists cps: seq<CodePoint> :: EncodeAll(cps) == s
  {
    if IsUtf8(s) {
      var cps := Decoding(s);
    }
    forall cps: seq<CodePoint> | EncodeAll(cps) == s ensures IsUtf8(s) {
      EncodeAllIsUtf8(cps);
    }
  }

  /** So it accepts more than that section allows: a surrogate, and a number past the last code
      point. */
  lemma MoreThanUtf8()
    ensures !Scalar(0xd800) && Encode(0xd800) == [0xed, 0xa0, 0x80] && IsUtf8([0xed, 0xa0, 0x80])
    ensures !Scalar(0x13_ffff) && Encode(0x13_ffff) == [0xf4, 0xbf, 0xbf, 0xbf] && IsUtf8([0xf4, 0xbf, 0xbf, 0xbf])
  {
    EncodeIsChar(0xd800);
    EncodeIsChar(0x13_ffff);
    HighIs(0xd800, 2);
    HighIs(0x13_ffff, 3);
  }

  // ---------------------------------------------------------------- chopping code points

  /** After any bytes at all, the encoding of an accepted code point is chopped off whole. */
  lemma ChopEncoded(front: Text, cp: CodePoint)
    ensures ChopPoint(front + Encode(cp)) == Chopped(front, Piece(Encode(cp)))
  {
    var e := Encode(cp);
    var s := front + e;
    EncodeIsChar(cp);
    CharShape(e);
    forall j | |front| < j < |s| ensures Continuation(s[j]) {
      assert s[j] == e[j - |front|];
    }
    LastStartOfRun(s, |front|);
    assert s[|front|..] == e && s[..|front|] == front;
    assert IsUtf8(e) by {
      assert e[|e|..] == [];
    }
  }

  /** Chopping an encoded string removes exactly the last code point's encoding. */
  lemma ChopLastCodePoint(cps: seq<CodePoint>)
    requires cps != []
    ensures ChopPoint(EncodeAll(cps)) == Chopped(EncodeAll(cps[..|cps| - 1]), Piece(Encode(cps[|cps| - 1])))
  {
    ChopEncoded(EncodeAll(cps[..|cps| - 1]), cps[|cps| - 1]);
  }
}
