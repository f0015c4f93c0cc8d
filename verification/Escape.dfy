/**
 pv_escape, pv_pretty and pv_display (dump.c), for strings of bytes.
 */
module Escape {
  import opened Basics
  import opened StringBuffer

  datatype Flags = Flags(re: bool, quote: bool, all: bool, noBackslash: bool, firstChar: bool, noClear: bool,
                         ltgt: bool, ellipses: bool)

  const BACKSLASH: Octet := 0x5c
  const PERCENT: Octet := 0x25
  const DQUOTE: Octet := 0x22
  const X: Octet := 0x78

  function Esc(f: Flags): Octet {
    if f.re then PERCENT else BACKSLASH
  }

  function Dq(f: Flags): Octet {
    if f.quote then DQUOTE else Esc(f)
  }

  predicate Printable(c: Octet) {
    32 <= c < 127
  }

  function HexDigit(d: nat): Octet
    requires d < 16
  {
    if d < 10 then 0x30 + d else 0x61 + (d - 10)
  }

  /** "%x" of a byte. */
  function Hex(c: Octet): Text {
    if c < 16 then [HexDigit(c)] else [HexDigit(c / 16), HexDigit(c % 16)]
  }

  /** The letter of \v, \t, \r, \n and \f. */
  function Letter(c: Octet): Octet {
    if c == 0x0b then 0x76 else if c == 0x09 then 0x74 else if c == 0x0d then 0x72
    else if c == 0x0a then 0x6e else if c == 0x0c then 0x66 else 0
  }

  /** What one byte is written as. */
  function Escaped(c: Octet, f: Flags): (t: Text)
    ensures t != []
  {
    if f.all then
      if f.firstChar then [Esc(f)] + Hex(c) else [Esc(f), X, 0x7b] + Hex(c) + [0x7d]
    else if f.noBackslash then [c]
    else if c == Dq(f) || c == Esc(f) || !Printable(c) then
      if c == BACKSLASH || c == PERCENT then (if c == Esc(f) then [Esc(f), Esc(f)] else [c])
      else if Letter(c) != 0 then [Esc(f), Letter(c)]
      else if c == DQUOTE then (if Dq(f) == DQUOTE then [Esc(f), DQUOTE] else [c])
      else [Esc(f), X, 0x5b] + Hex(c) + [0x5d]
    else [c]
  }

  function EscapedAll(s: Text, f: Flags): Text {
    Mapped(s, c => Escaped(c, f))
  }

  /** `n` bytes of the string are the longest prefix whose escapes fit into `max` (0: no limit);
      under `firstChar` only the first byte is considered. */
  ghost predicate LongestFit(s: Text, f: Flags, max: nat, n: nat) {
    && n <= |s| && (f.firstChar ==> n <= 1)
    && (max != 0 ==> |EscapedAll(s[..n], f)| <= max)
    && (n < |s| && !(f.firstChar && n == 1) ==> max != 0 && |EscapedAll(s[..n + 1], f)| > max)
  }

  /** Any way of writing bytes, one after the other. */
  function Mapped(s: Text, esc: Octet -> Text): Text {
    if s == [] then [] else Mapped(s[..|s| - 1], esc) + esc(s[|s| - 1])
  }

  lemma MappedStep(s: Text, esc: Octet -> Text, n: nat)
    requires n < |s|
    ensures Mapped(s[..n + 1], esc) == Mapped(s[..n], esc) + esc(s[n])
  {
    assert s[..n + 1][..n] == s[..n];
  }

  /** A longer prefix never has a shorter escape, so the longest fit is unique. */
  lemma {:induction false} MappedGrows(s: Text, esc: Octet -> Text, m: nat, n: nat)
    requires m <= n <= |s|
    ensures |Mapped(s[..m], esc)| <= |Mapped(s[..n], esc)|
    decreases n
  {
    if m < n {
      MappedGrows(s, esc, m, n - 1);
      MappedStep(s, esc, n - 1);
    }
  }

  lemma LongestFitUnique(s: Text, f: Flags, max: nat, m: nat, n: nat)
    requires LongestFit(s, f, max, m) && LongestFit(s, f, max, n)
    ensures m == n
  {
    if m < n {
      MappedGrows(s, c => Escaped(c, f), m + 1, n);
    } else if n < m {
      MappedGrows(s, c => Escaped(c, f), n + 1, m);
    }
  }

  /** How much of a string is written. */
  ghost function Fit(s: Text, f: Flags, max: nat): (n: nat)
    ensures LongestFit(s, f, max, n)
    ensures forall m | LongestFit(s, f, max, m) :: m == n
  {
    forall m, n | LongestFit(s, f, max, m) && LongestFit(s, f, max, n) ensures m == n {
      LongestFitUnique(s, f, max, m, n);
    }
    FitExists(s, f, max, 0);
    var n :| LongestFit(s, f, max, n);
    n
  }

  lemma {:induction false} FitExists(s: Text, f: Flags, max: nat, from: nat)
    requires from <= |s| && (f.firstChar ==> from <= 1) && (max != 0 ==> |EscapedAll(s[..from], f)| <= max)
    ensures exists n: nat :: LongestFit(s, f, max, n)
    decreases |s| - from
  {
    if from == |s| || (f.firstChar && from == 1) || (max != 0 && |EscapedAll(s[..from + 1], f)| > max) {
      assert LongestFit(s, f, max, from);
    } else {
      FitExists(s, f, max, from + 1);
    }
  }

  /** pv_escape writes the escapes of the longest prefix that fits.  The count reported is its
      length - except that with `firstChar` it is 0 even when the byte was written. */
  method PvEscape(dsv0: Text, str: Text, max: nat, f: Flags) returns (dsv: Text, escaped: nat)
    ensures dsv == (if f.noClear then dsv0 else []) + EscapedAll(str[..Fit(str, f, max)], f)
    ensures escaped == if f.firstChar then 0 else Fit(str, f, max)
  {
    dsv := if f.noClear then dsv0 else [];
    ghost var n;
    dsv, escaped, n := Write(dsv, str, max, f.firstChar, c => Escaped(c, f));
    assert LongestFit(str, f, max, n);
  }

  /** The loop of pv_escape, whatever a byte is written as. */
  method Write(base: Text, str: Text, max: nat, firstChar: bool, esc: Octet -> Text)
    returns (dsv: Text, escaped: nat, ghost n: nat)
    requires forall c :: esc(c) != []
    ensures n <= |str| && (firstChar ==> n <= 1)
    ensures max != 0 ==> |Mapped(str[..n], esc)| <= max
    ensures n < |str| && !(firstChar && n == 1) ==> max != 0 && |Mapped(str[..n + 1], esc)| > max
    ensures dsv == base + Mapped(str[..n], esc)
    ensures escaped == if firstChar then 0 else n
  {
    dsv := base;
    var wrote: nat := 0;
    var pv := 0;
    var end := |str|;
    n := 0;
    while pv < end && (max == 0 || wrote < max)
      invariant 0 <= pv == n <= end
      invariant wrote == |Mapped(str[..n], esc)| && dsv == base + Mapped(str[..n], esc)
      invariant max != 0 ==> wrote <= max
      invariant firstChar ==> pv == 0
    {
      MappedStep(str, esc, pv);
      var chunk := esc(str[pv]);
      if max != 0 && wrote + |chunk| > max {
        return dsv, pv, n;
      }
      Associate(base, Mapped(str[..pv], esc), chunk);
      dsv := dsv + chunk;
      wrote := wrote + |chunk|;
      n := n + 1;
      if firstChar {
        return dsv, pv, n;
      }
      pv := pv + 1;
    }
    if pv < end {
      MappedStep(str, esc, pv);
    }
    escaped := pv;
  }

  // ---------------------------------------------------------------- reading it back

  function HexValue(d: Octet): nat {
    if 0x30 <= d <= 0x39 then d - 0x30 else if 0x61 <= d <= 0x66 then d - 0x61 + 10 else 0
  }

  datatype Read = Read(c: nat, size: nat)

  /** The escape at the front of a text, and how many characters it takes. */
  function ReadOne(t: Text, f: Flags): (r: Read)
    requires t != []
    ensures 0 < r.size
  {
    if t[0] != Esc(f) || |t| < 2 then Read(t[0], 1)
    else if t[1] == 0x76 then Read(0x0b, 2)
    else if t[1] == 0x74 then Read(0x09, 2)
    else if t[1] == 0x72 then Read(0x0d, 2)
    else if t[1] == 0x6e then Read(0x0a, 2)
    else if t[1] == 0x66 then Read(0x0c, 2)
    else if t[1] == X && |t| > 4 then
      if t[4] == 0x5d || t[4] == 0x7d then Read(HexValue(t[3]), 5)
      else Read(HexValue(t[3]) * 16 + HexValue(t[4]), 6)
    else Read(t[1], 2)
  }

  function ReadAll(t: Text, f: Flags): seq<nat> {
    if t == [] then []
    else
      var r := ReadOne(t, f);
      [r.c] + if r.size <= |t| then ReadAll(t[r.size..], f) else []
  }

  lemma ReadEscaped(c: Octet, f: Flags, rest: Text)
    requires !f.noBackslash && !f.firstChar
    ensures ReadOne(Escaped(c, f) + rest, f) == Read(c, |Escaped(c, f)|)
  {
    var e := Escaped(c, f);
    var t := e + rest;
    assert forall i :: 0 <= i < |e| ==> t[i] == e[i];
  }

  lemma {:induction false} EscapedAllFront(s: Text, f: Flags)
    requires s != []
    ensures EscapedAll(s, f) == Escaped(s[0], f) + EscapedAll(s[1..], f)
  {
    if |s| > 1 {
      var m := s[..|s| - 1];
      EscapedAllFront(m, f);
      assert m[1..] == s[1..][..|s| - 2];
    }
  }

  /** Without `noBackslash` and `firstChar` nothing is lost: the text can be read back. */
  lemma {:induction false} ReadBack(s: Text, f: Flags)
    requires !f.noBackslash && !f.firstChar
    ensures ReadAll(EscapedAll(s, f), f) == s
  {
    if s != [] {
      EscapedAllFront(s, f);
      var e, rest := Escaped(s[0], f), EscapedAll(s[1..], f);
      ReadEscaped(s[0], f, rest);
      ReadBack(s[1..], f);
      assert (e + rest)[|e|..] == rest;
    }
  }

  /** Hence different strings are written differently. */
  lemma EscapedInjective(s: Text, t: Text, f: Flags)
    requires !f.noBackslash && !f.firstChar && EscapedAll(s, f) == EscapedAll(t, f)
    ensures s == t
  {
    ReadBack(s, f);
    ReadBack(t, f);
  }

  // ---------------------------------------------------------------- what a byte is written as

  /** A lower-case hexadecimal digit. */
  predicate IsHexDigit(d: Octet) {
    0x30 <= d <= 0x39 || 0x61 <= d <= 0x66
  }

  /** "%x": one digit below 16 and two above, of the right value. */
  lemma HexMeaning(c: Octet)
    ensures |Hex(c)| == (if c < 16 then 1 else 2) && forall d :: d in Hex(c) ==> IsHexDigit(d)
    ensures c == if c < 16 then HexValue(Hex(c)[0]) else 16 * HexValue(Hex(c)[0]) + HexValue(Hex(c)[1])
  {
  }

  /** The escapes of single bytes, when neither ALL nor NOBACKSLASH is given: the escape character is
      doubled; five control characters have a letter; a double quote is escaped where quotes delimit the
      string; whatever else is from blank to tilde is itself; and the rest is in hexadecimal. */
  lemma EscapedTable(c: Octet, f: Flags)
    requires !f.all && !f.noBackslash
    ensures var e: Octet := if f.re then 0x25 else 0x5c;   // % or backslash
            Escaped(c, f) ==
              if c == e then [e, e]
              else if c == 0x0b then [e, 0x76]             // \v
              else if c == 0x09 then [e, 0x74]             // \t
              else if c == 0x0d then [e, 0x72]             // \r
              else if c == 0x0a then [e, 0x6e]             // \n
              else if c == 0x0c then [e, 0x66]             // \f
              else if c == 0x22 && f.quote then [e, 0x22]
              else if 0x20 <= c <= 0x7e then [c]
              else [e, 0x78, 0x5b] + Hex(c) + [0x5d]
  {
  }

  /** With ALL every byte is in hexadecimal; with NOBACKSLASH alone every byte is itself. */
  lemma EscapedPlainly(c: Octet, f: Flags)
    requires f.all || f.noBackslash
    ensures var e: Octet := if f.re then 0x25 else 0x5c;
            Escaped(c, f) ==
              if !f.all then [c]
              else if f.firstChar then [e] + Hex(c)
              else [e, 0x78, 0x7b] + Hex(c) + [0x7d]
  {
  }

  /** One escape: printable, and with no double quote except behind an escape character. */
  lemma EscapedClean(c: Octet, f: Flags)
    requires f.all || !f.noBackslash
    ensures forall d :: d in Escaped(c, f) ==> 0x20 <= d <= 0x7e
    ensures var e, t := if f.re then 0x25 else 0x5c, Escaped(c, f);
            f.quote ==> forall k :: 0 <= k < |t| && t[k] == 0x22 ==> k > 0 && t[k - 1] == e
  {
    HexMeaning(c);
    assert forall d :: d in Hex(c) ==> 0x20 <= d <= 0x7e && d != 0x22;
    if f.all {
      EscapedPlainly(c, f);
    } else {
      EscapedTable(c, f);
    }
  }

  /** What is written, unless NOBACKSLASH lets bytes through, can be printed; and between quotes it ends
      no quotes: each double quote in it follows an escape character. */
  lemma {:induction false} OutputClean(s: Text, f: Flags)
    requires f.all || !f.noBackslash
    ensures forall d :: d in EscapedAll(s, f) ==> 0x20 <= d <= 0x7e
    ensures var e, t := if f.re then 0x25 else 0x5c, EscapedAll(s, f);
            f.quote ==> forall k :: 0 <= k < |t| && t[k] == 0x22 ==> k > 0 && t[k - 1] == e
  {
    if s != [] {
      var front := s[..|s| - 1];
      OutputClean(front, f);
      EscapedClean(s[|s| - 1], f);
      var a, b := EscapedAll(front, f), Escaped(s[|s| - 1], f);
      assert EscapedAll(s, f) == a + b;
      forall k | 0 <= k < |a + b| && (a + b)[k] == 0x22 && f.quote
        ensures k > 0 && (a + b)[k - 1] == if f.re then 0x25 else 0x5c
      {
        if k >= |a| {
          assert b[k - |a|] == 0x22;
          assert (a + b)[k - 1] == b[k - |a| - 1];
        } else {
          assert a[k] == 0x22;
        }
      }
    }
  }

  // ---------------------------------------------------------------- pv_pretty, pv_display

  function Open(f: Flags): Text {
    if f.quote then [DQUOTE] else if f.ltgt then [0x3c] else []
  }

  function Close(f: Flags): Text {
    if f.quote then [DQUOTE] else if f.ltgt then [0x3e] else []
  }

  const DOTS: Text := [0x2e, 0x2e, 0x2e]

  /** pv_pretty; an absent colour is an empty text. */
  method PvPretty(dsv0: Text, str: Text, max: nat, startColor: Text, endColor: Text, f: Flags)
    returns (dsv: Text)
    ensures var n := Fit(str, f, max);
            dsv == (if f.noClear then dsv0 else [])
                   + (if f.quote then [0x22] else if f.ltgt then [0x3c] else [])
                   + startColor + EscapedAll(str[..n], f) + endColor
                   + (if f.quote then [0x22] else if f.ltgt then [0x3e] else [])
                   + if f.ellipses && (if f.firstChar then str != [] else n < |str|) then [0x2e, 0x2e, 0x2e] else []
  {
    dsv := if f.noClear then dsv0 else [];
    dsv := dsv + Open(f);
    dsv := dsv + startColor;
    var escaped: nat;
    dsv, escaped := PvEscape(dsv, str, max, f.(noClear := true));
    FitSameFlags(str, f, max);
    dsv := dsv + endColor;
    dsv := dsv + Close(f);
    if f.ellipses && escaped < |str| {
      dsv := dsv + DOTS;
    }
  }

  lemma FitSameFlags(s: Text, f: Flags, max: nat)
    ensures var g := f.(noClear := true);
            Fit(s, g, max) == Fit(s, f, max) && EscapedAll(s[..Fit(s, f, max)], g) == EscapedAll(s[..Fit(s, f, max)], f)
  {
    var n := Fit(s, f, max);
    EscapedSameFlags(s[..n], f);
    if n < |s| {
      EscapedSameFlags(s[..n + 1], f);
    }
    assert LongestFit(s, f.(noClear := true), max, n);
  }

  /** NOCLEAR does not affect what is written. */
  lemma {:induction false} EscapedSameFlags(s: Text, f: Flags)
    ensures EscapedAll(s, f.(noClear := true)) == EscapedAll(s, f)
  {
    if s != [] {
      EscapedSameFlags(s[..|s| - 1], f);
    }
  }

  const DUMP := Flags(false, true, false, false, false, false, false, true)

  /** pv_display of the first `cur` bytes of a buffer: quoted, with dots exactly if cut short, and
      a visible NUL after a string followed by one.  Over a limit it is never more than 7
      characters longer. */
  method PvDisplay(pv: Text, cur: nat, pvlim: nat) returns (dsv: Text)
    requires cur <= |pv|
    ensures !DUMP.re && !DUMP.all && !DUMP.noBackslash && !DUMP.firstChar
    ensures var n := Fit(pv[..cur], DUMP, pvlim);
            dsv == [0x22] + EscapedAll(pv[..n], DUMP) + [0x22] + (if n < cur then [0x2e, 0x2e, 0x2e] else [])
                   + if |pv| > cur && pv[cur] == 0 then [0x5c, 0x30] else []
    ensures pvlim != 0 ==> |dsv| <= pvlim + 7
  {
    dsv := PvPretty([], pv[..cur], pvlim, [], [], DUMP);
    ghost var n := Fit(pv[..cur], DUMP, pvlim);
    assert pv[..cur][..n] == pv[..n];
    ghost var e := EscapedAll(pv[..n], DUMP);
    assert [] + [DQUOTE] + [] + e + [] + [DQUOTE] == [DQUOTE] + e + [DQUOTE];
    if |pv| > cur && pv[cur] == 0 {
      dsv := dsv + [BACKSLASH, 0x30];
    }
  }
}
