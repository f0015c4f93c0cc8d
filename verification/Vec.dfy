/**
 vec: a string viewed as an array of unsigned integers of 1 to 64 bits (doop.c).

 Elements of fewer than 8 bits are packed from the low end of each byte; wider ones are big-endian.
 Either way the element at `offset` occupies exactly the bits from `offset * size` on.
 */
module Vec {
  import opened Basics
  import opened StringBuffer

  datatype Result<+T> = Ok(value: T) | IllegalSize | NegativeOffset

  predicate PowerOfTwo(n: int) {
    n == 1 || (n > 1 && n % 2 == 0 && PowerOfTwo(n / 2))
  }

  lemma {:induction false} SizeCases(size: int)
    requires PowerOfTwo(size)
    ensures size < 8 ==> size == 1 || size == 2 || size == 4
    ensures 8 <= size <= 64 ==> size == 8 || size == 16 || size == 32 || size == 64
    ensures size >= 8 ==> size % 8 == 0
  {
    if size > 1 {
      SizeCases(size / 2);
      assert size == 2 * (size / 2);
    }
  }

  // ---------------------------------------------------------------- bytes and shifts

  function Shr(b: bv8, k: nat): bv8
    requires k < 8
  {
    if k == 0 then b else if k == 1 then b >> 1 else if k == 2 then b >> 2 else if k == 3 then b >> 3
    else if k == 4 then b >> 4 else if k == 5 then b >> 5 else if k == 6 then b >> 6 else b >> 7
  }

  function Shl(b: bv8, k: nat): bv8
    requires k < 8
  {
    if k == 0 then b else if k == 1 then b << 1 else if k == 2 then b << 2 else if k == 3 then b << 3
    else if k == 4 then b << 4 else if k == 5 then b << 5 else if k == 6 then b << 6 else b << 7
  }

  /** (1 << size) - 1 for the sizes below 8. */
  function Mask(size: int): bv8 {
    if size == 1 then 1 else if size == 2 then 3 else 15
  }

  /** A UV, by value: shifts and sums of it are products and sums, masks of it are remainders. */
  const TWO64 := 0x1_0000_0000_0000_0000
  type Uv = n: nat | n < TWO64

  function UV(b: bv8): nat {
    b as nat
  }

  lemma UVNext(b: bv8)
    requires b < 255
    ensures UV(b + 1) == UV(b) + 1
  {
  }

  /** The byte of a given value. */
  function ByteFor(n: nat): (b: bv8)
    requires n < 0x100
    ensures UV(b) == n
  {
    if n == 0 then 0
    else
      var c := ByteFor(n - 1);
      UVNext(c);
      c + 1
  }

  /** The low 8 bits of a value: the cast to U8. */
  function Low(v: nat): bv8 {
    ByteFor(v % 0x100)
  }

  lemma LowBits(v: nat)
    ensures UV(Low(v)) == v % 0x100
  {
  }

  /** An uncast byte shifted by 24: the byte is an int, so its top bit becomes the sign and is
      spread over the upper half when the result is widened to a UV. */
  function IntShift24(b: bv8): nat {
    if UV(b) >= 0x80 then UV(b) * 0x100_0000 + 0xffff_ffff_0000_0000 else UV(b) * 0x100_0000
  }

  // ---------------------------------------------------------------- where an element lies

  function ByteOf(offset: nat, size: int): nat
    requires size >= 1
  {
    if size < 8 then offset / (8 / size) else if size > 8 then offset * (size / 8) else offset
  }

  function BitOf(offset: nat, size: int): nat
    requires size >= 1
  {
    if size < 8 then ((offset % 8) * size) % 8 else 0
  }

  /** Bytes the string must have for the element to exist in full. */
  function Needed(offset: nat, size: int): nat
    requires size >= 1
  {
    ByteOf(offset, size) + (BitOf(offset, size) + size + 7) / 8
  }

  /** An element of fewer than 8 bits starts at bit offset * size and does not leave its byte. */
  lemma SubBytePlacement(offset: nat, size: int)
    requires size == 1 || size == 2 || size == 4
    ensures ByteOf(offset, size) * 8 + BitOf(offset, size) == offset * size
    ensures BitOf(offset, size) + size <= 8 && Needed(offset, size) == ByteOf(offset, size) + 1
    ensures BitOf(offset, size) % size == 0
  {
    if size == 1 {
    } else if size == 2 {
      assert (offset % 8) * 2 % 8 == (offset % 4) * 2;
    } else {
      assert (offset % 8) * 4 % 8 == (offset % 2) * 4;
    }
  }

  /** A wider one is a whole number of bytes. */
  lemma WidePlacement(offset: nat, size: int)
    requires size >= 8 && size % 8 == 0
    ensures ByteOf(offset, size) * 8 == offset * size && BitOf(offset, size) == 0
    ensures Needed(offset, size) == ByteOf(offset, size) + size / 8
  {
    var n := size / 8;
    assert size == 8 * n;
    assert offset * (8 * n) == 8 * (offset * n);
  }

  /** The element starts at bit offset * size and ends within the bytes it needs. */
  lemma Placement(offset: nat, size: int)
    requires PowerOfTwo(size)
    ensures ByteOf(offset, size) * 8 + BitOf(offset, size) == offset * size
    ensures size < 8 ==> BitOf(offset, size) + size <= 8 && Needed(offset, size) == ByteOf(offset, size) + 1
    ensures size >= 8 ==> BitOf(offset, size) == 0 && Needed(offset, size) == ByteOf(offset, size) + size / 8
  {
    SizeCases(size);
    if size < 8 {
      SubBytePlacement(offset, size);
    } else {
      WidePlacement(offset, size);
    }
  }

  // ---------------------------------------------------------------- do_vecget, do_vecset

  /** The branch of do_vecget for strings that end before the element does. */
  function ReadShort(s: Bytes, u: nat, size: int): nat {
    if size <= 8 then 0
    else if size == 16 then
      if u >= |s| then 0 else UV(s[u]) * 0x100
    else if size == 32 then
      if u >= |s| then 0
      else if u + 1 >= |s| then UV(s[u]) * 0x100_0000
      else if u + 2 >= |s| then UV(s[u]) * 0x100_0000 + UV(s[u + 1]) * 0x1_0000
      else if u + 3 >= |s| then UV(s[u]) * 0x100_0000 + UV(s[u + 1]) * 0x1_0000 + UV(s[u + 2]) * 0x100
      else 0
    else if size == 64 then
      if u >= |s| then 0
      else if u + 1 >= |s| then Join8(s[u], 0, 0, 0, 0, 0, 0, 0)
      else if u + 2 >= |s| then Join8(s[u], s[u + 1], 0, 0, 0, 0, 0, 0)
      else if u + 3 >= |s| then Join8(s[u], s[u + 1], s[u + 2], 0, 0, 0, 0, 0)
      else if u + 4 >= |s| then Join8(s[u], s[u + 1], s[u + 2], s[u + 3], 0, 0, 0, 0)
      else if u + 5 >= |s| then
        (Join8(s[u], s[u + 1], s[u + 2], s[u + 3], 0, 0, 0, 0) + IntShift24(s[u + 4])) % TWO64
      else if u + 6 >= |s| then Join8(s[u], s[u + 1], s[u + 2], s[u + 3], s[u + 4], s[u + 5], 0, 0)
      else if u + 7 >= |s| then Join8(s[u], s[u + 1], s[u + 2], s[u + 3], s[u + 4], s[u + 5], s[u + 6], 0)
      else 0
    else 0
  }

  function Join4(a: bv8, b: bv8, c: bv8, d: bv8): nat {
    UV(a) * 0x100_0000 + UV(b) * 0x1_0000 + UV(c) * 0x100 + UV(d)
  }

  /** The bytes of a 64-bit element, shifted into place and summed; a byte that a branch leaves
      out is a zero here. */
  function Join8(a: bv8, b: bv8, c: bv8, d: bv8, e: bv8, f: bv8, g: bv8, h: bv8): nat {
    UV(a) * 0x100_0000_0000_0000 + UV(b) * 0x1_0000_0000_0000 + UV(c) * 0x100_0000_0000 + UV(d) * 0x1_0000_0000
    + UV(e) * 0x100_0000 + UV(f) * 0x1_0000 + UV(g) * 0x100 + UV(h)
  }

  /** The branch of do_vecget for elements within the string. */
  function ReadFull(s: Bytes, u: nat, bo: nat, size: int): nat
    requires size < 8 ==> u < |s| && bo < 8
    requires size >= 8 ==> u + size / 8 <= |s|
  {
    if size < 8 then UV(Shr(s[u], bo) & Mask(size))
    else if size == 8 then UV(s[u])
    else if size == 16 then UV(s[u]) * 0x100 + UV(s[u + 1])
    else if size == 32 then Join4(s[u], s[u + 1], s[u + 2], s[u + 3])
    else if size == 64 then
      Join8(s[u], s[u + 1], s[u + 2], s[u + 3], s[u + 4], s[u + 5], s[u + 6], s[u + 7])
    else 0
  }

  function Get(s: Bytes, offset: int, size: int): Result<nat> {
    if offset < 0 then Ok(0)
    else if !PowerOfTwo(size) then IllegalSize
    else
      Placement(offset, size);
      var u := ByteOf(offset, size);
      if Needed(offset, size) > |s| then Ok(ReadShort(s, u, size))
      else Ok(ReadFull(s, u, BitOf(offset, size), size))
  }

  // ---------------------------------------------------------------- the bit-string view

  /** Bit `i` of the zero-padded string. */
  function Bit(s: Bytes, i: nat): bv8 {
    Shr(At(s, i / 8), i % 8) & 1
  }

  function JoinAt(s: Bytes, u: nat): nat {
    Join8(At(s, u), At(s, u + 1), At(s, u + 2), At(s, u + 3), At(s, u + 4), At(s, u + 5), At(s, u + 6), At(s, u + 7))
  }

  /** The element read from the zero-padded string. */
  function Element(s: Bytes, offset: nat, size: int): nat
    requires PowerOfTwo(size)
  {
    Placement(offset, size);
    ReadPadded(s, ByteOf(offset, size), BitOf(offset, size), size)
  }

  function ReadPadded(s: Bytes, u: nat, bo: nat, size: int): nat
    requires size < 8 ==> bo < 8
  {
    if size < 8 then UV(Shr(At(s, u), bo) & Mask(size))
    else if size == 8 then UV(At(s, u))
    else if size == 16 then UV(At(s, u)) * 0x100 + UV(At(s, u + 1))
    else if size == 32 then Join4(At(s, u), At(s, u + 1), At(s, u + 2), At(s, u + 3))
    else if size == 64 then JoinAt(s, u)
    else 0
  }

  /** The one case in which the uncast shift shows: 64 bits wanted, exactly five bytes there, the
      fifth with its top bit set. */
  predicate SignShows(s: Bytes, offset: nat, size: int)
    requires size >= 1
  {
    size == 64 && |s| == ByteOf(offset, size) + 5 && UV(s[|s| - 1]) >= 0x80
  }

  lemma ShortSixtyFour(s: Bytes, u: nat)
    requires u + 8 > |s| && |s| != u + 5
    ensures ReadShort(s, u, 64) == JoinAt(s, u)
  {
  }

  lemma ShortFive(s: Bytes, u: nat)
    requires |s| == u + 5
    ensures ReadShort(s, u, 64) == JoinAt(s, u) <==> UV(s[u + 4]) < 0x80
  {
    assert JoinAt(s, u) == Join8(s[u], s[u + 1], s[u + 2], s[u + 3], s[u + 4], 0, 0, 0);
    FifthByte(s[u], s[u + 1], s[u + 2], s[u + 3], s[u + 4]);
    SignMatters(Join8(s[u], s[u + 1], s[u + 2], s[u + 3], 0, 0, 0, 0), s[u + 4]);
  }

  lemma FifthByte(a: bv8, b: bv8, c: bv8, d: bv8, e: bv8)
    ensures Join8(a, b, c, d, e, 0, 0, 0) == Join8(a, b, c, d, 0, 0, 0, 0) + UV(e) * 0x100_0000 < TWO64
  {
  }

  lemma SignMatters(x: nat, b: bv8)
    requires x + UV(b) * 0x100_0000 < TWO64
    ensures (x + IntShift24(b)) % TWO64 == x + UV(b) * 0x100_0000 <==> UV(b) < 0x80
  {
    var y := x + UV(b) * 0x100_0000;
    if UV(b) >= 0x80 {
      var z := y + 0xffff_ffff_0000_0000;
      assert x + IntShift24(b) == z;
      assert z % TWO64 == if z < TWO64 then z else z - TWO64;
    }
  }

  lemma ShortOthers(s: Bytes, offset: nat, size: int)
    requires PowerOfTwo(size) && size != 64 && Needed(offset, size) > |s|
    ensures ReadShort(s, ByteOf(offset, size), size) == Element(s, offset, size)
  {
    SizeCases(size);
    Placement(offset, size);
    if size < 8 {
      ZeroByte(BitOf(offset, size), size);
    }
  }

  lemma ZeroByte(bo: nat, size: int)
    requires bo < 8
    ensures UV(Shr(0, bo) & Mask(size)) == 0
  {
    assert Shr(0, bo) == 0;
    assert Shr(0, bo) & Mask(size) == 0;
  }

  lemma FullIsElement(s: Bytes, offset: nat, size: int)
    requires PowerOfTwo(size) && Needed(offset, size) <= |s|
    ensures Get(s, offset, size) == Ok(Element(s, offset, size))
  {
    Placement(offset, size);
    SizeCases(size);
    FullRead(s, ByteOf(offset, size), BitOf(offset, size), size);
  }

  /** Inside the string, reading bytes is reading the padded string. */
  lemma FullRead(s: Bytes, u: nat, bo: nat, size: int)
    requires size == 1 || size == 2 || size == 4 || size >= 8
    requires size < 8 ==> u < |s| && bo < 8
    requires size >= 8 ==> u + size / 8 <= |s|
    ensures ReadFull(s, u, bo, size) == ReadPadded(s, u, bo, size)
  {
    assert At(s, u) == s[u];
    if size == 16 {
      assert At(s, u + 1) == s[u + 1];
    } else if size == 32 {
      assert At(s, u + 1) == s[u + 1] && At(s, u + 2) == s[u + 2] && At(s, u + 3) == s[u + 3];
    } else if size == 64 {
      assert At(s, u + 1) == s[u + 1] && At(s, u + 2) == s[u + 2] && At(s, u + 3) == s[u + 3];
      assert At(s, u + 4) == s[u + 4] && At(s, u + 5) == s[u + 5] && At(s, u + 6) == s[u + 6];
      assert At(s, u + 7) == s[u + 7];
    }
  }

  /** Reading past the end reads zeros - exactly when the sign does not show. */
  lemma GetIsElement(s: Bytes, offset: nat, size: int)
    requires PowerOfTwo(size)
    ensures Get(s, offset, size) == Ok(Element(s, offset, size)) <==> !SignShows(s, offset, size)
  {
    if Needed(offset, size) <= |s| {
      FullIsElement(s, offset, size);
      if size == 64 { WidePlacement(offset, size); }
    } else if size == 64 {
      WidePlacement(offset, size);
      if |s| == ByteOf(offset, size) + 5 {
        ShortFive(s, ByteOf(offset, size));
      } else {
        ShortSixtyFour(s, ByteOf(offset, size));
      }
    } else {
      ShortOthers(s, offset, size);
    }
  }

  // ---------------------------------------------------------------- what do_vecset does

  /** `s` lengthened with zeros to at least `n` bytes. */
  function Padded(s: Bytes, n: nat): Bytes {
    if n > |s| then s + seq(n - |s|, _ => 0) else s
  }

  /** The `n` low digits of `v` in base 256, most significant first, each through `f`. */
  function DigitsOf(f: nat -> bv8, v: nat, n: nat): (w: Bytes)
    ensures |w| == n
  {
    if n == 0 then [] else DigitsOf(f, v / 0x100, n - 1) + [f(v)]
  }

  /** The `n` low bytes of `v`, most significant first. */
  function BigEndian(v: nat, n: nat): (w: Bytes)
    ensures |w| == n
  {
    DigitsOf(Low, v, n)
  }

  function Value(w: Bytes): nat {
    if w == [] then 0 else Value(w[..|w| - 1]) * 0x100 + UV(w[|w| - 1])
  }

  /** A byte with the `size` bits from `bo` on replaced by those of `m`. */
  function Patched(b: bv8, bo: nat, size: int, m: bv8): bv8
    requires bo < 8
  {
    (b & !Shl(Mask(size), bo)) | Shl(m, bo)
  }

  function Modulus(size: int): nat {
    if size == 1 then 2 else if size == 2 then 4 else if size == 4 then 16
    else if size == 8 then 0x100 else if size == 16 then 0x1_0000 else if size == 32 then 0x1_0000_0000 else TWO64
  }

  /** The string after the element is assigned. */
  function Set(s: Bytes, offset: nat, size: int, v: Uv): Bytes
    requires PowerOfTwo(size)
  {
    Placement(offset, size);
    SizeCases(size);
    var t := Padded(s, Needed(offset, size));
    var u := ByteOf(offset, size);
    if size < 8 then t[u := Patched(t[u], BitOf(offset, size), size, Low(v % Modulus(size)))]
    else
      var w := BigEndian(v, if size <= 64 then size / 8 else 0);
      t[..u] + w + t[u + |w|..]
  }

  // ---------------------------------------------------------------- reading back

  lemma PatchedReads(b: bv8, bo: nat, size: int, m: bv8)
    requires size == 1 || size == 2 || size == 4
    requires bo + size <= 8 && m & Mask(size) == m
    ensures Shr(Patched(b, bo, size, m), bo) & Mask(size) == m
  {
  }

  lemma PatchedKeepsOne(b: bv8, bo: nat, m: bv8, k: nat)
    requires bo < 8 && m & 1 == m && k < 8 && k != bo
    ensures Shr(Patched(b, bo, 1, m), k) & 1 == Shr(b, k) & 1
  {
  }

  lemma PatchedKeepsTwo(b: bv8, bo: nat, m: bv8, k: nat)
    requires (bo == 0 || bo == 2 || bo == 4 || bo == 6) && m & 3 == m && k < 8 && !(bo <= k < bo + 2)
    ensures Shr(Patched(b, bo, 2, m), k) & 1 == Shr(b, k) & 1
  {
  }

  lemma PatchedKeepsFour(b: bv8, bo: nat, m: bv8, k: nat)
    requires (bo == 0 || bo == 4) && m & 15 == m && k < 8 && !(bo <= k < bo + 4)
    ensures Shr(Patched(b, bo, 4, m), k) & 1 == Shr(b, k) & 1
  {
  }

  lemma SmallMask(n: nat, size: int)
    requires size == 1 || size == 2 || size == 4
    requires n < Modulus(size)
    ensures Low(n) & Mask(size) == Low(n)
  {
    if n < 2 {
      assert n == 0 || n == 1;
    } else if n < 4 {
      assert n == 2 || n == 3;
    } else if n < 8 {
      assert n == 4 || n == 5 || n == 6 || n == 7;
    } else {
      assert n == 8 || n == 9 || n == 10 || n == 11 || n == 12 || n == 13 || n == 14 || n == 15;
    }
  }

  lemma Digits(v: nat)
    ensures v / 0x100 / 0x100 == v / 0x1_0000
    ensures v / 0x1_0000 / 0x100 == v / 0x100_0000
    ensures v / 0x100_0000 / 0x100 == v / 0x1_0000_0000
    ensures v / 0x1_0000_0000 / 0x100 == v / 0x100_0000_0000
    ensures v / 0x100_0000_0000 / 0x100 == v / 0x1_0000_0000_0000
    ensures v / 0x1_0000_0000_0000 / 0x100 == v / 0x100_0000_0000_0000
  {
  }

  function Power256(n: nat): nat {
    if n == 0 then 1 else 0x100 * Power256(n - 1)
  }

  lemma {:induction false} BigEndianValue(v: nat, n: nat)
    ensures Power256(n) > 0 && Value(BigEndian(v, n)) == v % Power256(n)
  {
    if n > 0 {
      BigEndianValue(v / 0x100, n - 1);
      var w := BigEndian(v, n);
      assert w[..n - 1] == BigEndian(v / 0x100, n - 1);
      LowBits(v);
      ModStep(v, Power256(n - 1));
    }
  }

  lemma ModStep(v: nat, m: nat)
    requires m > 0
    ensures v % (0x100 * m) == v / 0x100 % m * 0x100 + v % 0x100
  {
    var q, r := v / 0x100 / m, v / 0x100 % m;
    assert v / 0x100 == q * m + r;
    var low := r * 0x100 + v % 0x100;
    assert v == q * (0x100 * m) + low;
    assert low < 0x100 * m;
    RemainderIs(v, 0x100 * m, q, low);
  }

  lemma RemainderIs(v: nat, d: nat, q: nat, r: nat)
    requires d > 0 && v == q * d + r && r < d
    ensures v % d == r
  {
    var k := v / d - q;
    assert v == (v / d) * d + v % d;
    assert r - v % d == k * d;
    MultipleBounds(k, d);
  }

  lemma MultipleBounds(k: int, d: nat)
    ensures k >= 1 ==> k * d >= d
    ensures k <= -1 ==> k * d <= -1 * d
  {
  }

  lemma ValueAdd(w: Bytes, b: bv8)
    ensures Value(w + [b]) == Value(w) * 0x100 + UV(b)
  {
    assert (w + [b])[..|w|] == w;
  }

  lemma ValueTwo(a: bv8, b: bv8)
    ensures Value([a]) == UV(a)
    ensures Value([a, b]) == UV(a) * 0x100 + UV(b)
  {
    ValueAdd([], a);
    ValueAdd([a], b);
    assert [] + [a] == [a] && [a] + [b] == [a, b];
  }

  lemma ValueFour(a: bv8, b: bv8, c: bv8, d: bv8)
    ensures Value([a, b, c, d]) == Join4(a, b, c, d)
  {
    ValueTwo(a, b);
    ValueAdd([a, b], c);
    ValueAdd([a, b, c], d);
    assert [a, b] + [c] == [a, b, c] && [a, b, c] + [d] == [a, b, c, d];
  }

  lemma ValueSix(a: bv8, b: bv8, c: bv8, d: bv8, e: bv8, f: bv8)
    ensures Value([a, b, c, d, e, f]) == Join4(a, b, c, d) * 0x1_0000 + UV(e) * 0x100 + UV(f)
  {
    ValueFour(a, b, c, d);
    ValueAdd([a, b, c, d], e);
    ValueAdd([a, b, c, d, e], f);
    assert [a, b, c, d] + [e] == [a, b, c, d, e] && [a, b, c, d, e] + [f] == [a, b, c, d, e, f];
  }

  lemma ValueEight(a: bv8, b: bv8, c: bv8, d: bv8, e: bv8, f: bv8, g: bv8, h: bv8)
    ensures Value([a, b, c, d, e, f, g, h]) == Join8(a, b, c, d, e, f, g, h)
  {
    var w := [a, b, c, d, e, f];
    ValueSix(a, b, c, d, e, f);
    ValueAdd(w, g);
    ValueAdd(w + [g], h);
    assert w + [g] + [h] == [a, b, c, d, e, f, g, h];
  }

  /** A wide element is the big-endian value of its bytes. */
  lemma ElementValue(s: Bytes, offset: nat, size: int)
    requires PowerOfTwo(size) && 8 <= size <= 64 && Needed(offset, size) <= |s|
    ensures ByteOf(offset, size) + size / 8 <= |s|
    ensures Element(s, offset, size) == Value(s[ByteOf(offset, size)..][..size / 8])
  {
    Placement(offset, size);
    SizeCases(size);
    var u := ByteOf(offset, size);
    var t := s[u..][..size / 8];
    assert forall k :: 0 <= k < size / 8 ==> t[k] == s[u + k];
    ValueOfBytes(t);
  }

  lemma ValueOfBytes(t: Bytes)
    requires |t| == 1 || |t| == 2 || |t| == 4 || |t| == 8
    ensures Value(t) == if |t| == 1 then UV(t[0]) else if |t| == 2 then UV(t[0]) * 0x100 + UV(t[1])
                        else if |t| == 4 then Join4(t[0], t[1], t[2], t[3])
                        else Join8(t[0], t[1], t[2], t[3], t[4], t[5], t[6], t[7])
  {
    if |t| == 1 {
      assert t == [t[0]];
      ValueTwo(t[0], 0);
    } else if |t| == 2 {
      assert t == [t[0], t[1]];
      ValueTwo(t[0], t[1]);
    } else if |t| == 4 {
      assert t == [t[0], t[1], t[2], t[3]];
      ValueFour(t[0], t[1], t[2], t[3]);
    } else {
      assert t == [t[0], t[1], t[2], t[3], t[4], t[5], t[6], t[7]];
      ValueEight(t[0], t[1], t[2], t[3], t[4], t[5], t[6], t[7]);
    }
  }

  /** After an assignment the element reads as the value modulo 2^size; widths above 64 bits
      store nothing and read as 0. */
  lemma SetThenGet(s: Bytes, offset: nat, size: int, v: Uv)
    requires PowerOfTwo(size)
    ensures Get(Set(s, offset, size, v), offset, size) == Ok(if size <= 64 then v % Modulus(size) else 0)
  {
    Placement(offset, size);
    SizeCases(size);
    FullIsElement(Set(s, offset, size, v), offset, size);
    if size < 8 {
      NarrowReadBack(s, offset, size, v);
    } else if size <= 64 {
      WideReadBack(s, offset, size, v);
    }
  }

  lemma NarrowReadBack(s: Bytes, offset: nat, size: int, v: Uv)
    requires PowerOfTwo(size) && size < 8
    ensures Element(Set(s, offset, size, v), offset, size) == v % Modulus(size)
  {
    Placement(offset, size);
    SizeCases(size);
    var m := v % Modulus(size);
    var bo := BitOf(offset, size);
    var b := Padded(s, Needed(offset, size))[ByteOf(offset, size)];
    assert At(Set(s, offset, size, v), ByteOf(offset, size)) == Patched(b, bo, size, Low(m));
    NarrowByte(b, bo, size, m);
  }

  lemma NarrowByte(b: bv8, bo: nat, size: int, m: nat)
    requires size == 1 || size == 2 || size == 4
    requires bo + size <= 8 && m < Modulus(size)
    ensures UV(Shr(Patched(b, bo, size, Low(m)), bo) & Mask(size)) == m
  {
    SmallMask(m, size);
    PatchedReads(b, bo, size, Low(m));
    LowBits(m);
  }

  lemma PowerModulus(size: int)
    requires size == 8 || size == 16 || size == 32 || size == 64
    ensures Power256(size / 8) == Modulus(size)
  {
    assert Power256(1) == 0x100 && Power256(2) == 0x1_0000 && Power256(4) == 0x1_0000_0000;
    assert Power256(6) == 0x1_0000_0000_0000 && Power256(8) == TWO64;
  }

  lemma WideReadBack(s: Bytes, offset: nat, size: int, v: Uv)
    requires PowerOfTwo(size) && 8 <= size <= 64
    ensures Element(Set(s, offset, size, v), offset, size) == v % Modulus(size)
  {
    var t := Set(s, offset, size, v);
    WideStored(s, offset, size, v);
    ElementOfBytes(t, offset, size, BigEndian(v, size / 8));
    ValueOfStored(v, size);
  }

  lemma ElementOfBytes(t: Bytes, offset: nat, size: int, w: Bytes)
    requires PowerOfTwo(size) && 8 <= size <= 64 && Needed(offset, size) <= |t|
    requires ByteOf(offset, size) + size / 8 <= |t| && t[ByteOf(offset, size)..][..size / 8] == w
    ensures Element(t, offset, size) == Value(w)
  {
    ElementValue(t, offset, size);
  }

  lemma ValueOfStored(v: Uv, size: int)
    requires PowerOfTwo(size) && 8 <= size <= 64
    ensures Value(BigEndian(v, size / 8)) == v % Modulus(size)
  {
    SizeCases(size);
    BigEndianValue(v, size / 8);
    PowerModulus(size);
  }

  /** The bytes of the value are where the element is. */
  lemma WideStored(s: Bytes, offset: nat, size: int, v: Uv)
    requires PowerOfTwo(size) && 8 <= size <= 64
    ensures var t, u := Set(s, offset, size, v), ByteOf(offset, size);
            && Needed(offset, size) <= |t| && u + size / 8 <= |t|
            && t[u..][..size / 8] == BigEndian(v, size / 8)
  {
    Placement(offset, size);
    SizeCases(size);
    Spliced(Padded(s, Needed(offset, size)), ByteOf(offset, size), BigEndian(v, size / 8));
  }

  lemma Spliced(t: Bytes, u: nat, w: Bytes)
    requires u + |w| <= |t|
    ensures var r := t[..u] + w + t[u + |w|..];
            |r| == |t| && r[u..][..|w|] == w
  {
  }

  // ---------------------------------------------------------------- powers of two and bits

  /** The legal sizes are the powers of two. */
  lemma {:induction false} LegalSizes(n: int)
    ensures PowerOfTwo(n) <==> exists k: nat :: n == Pow2(k)
  {
    if n < 1 {
      assert forall k: nat :: Pow2(k) > 0;
    } else if n == 1 {
      assert n == Pow2(0);
    } else {
      LegalSizes(n / 2);
      if n % 2 == 0 && PowerOfTwo(n / 2) {
        var k: nat :| n / 2 == Pow2(k);
        assert n == Pow2(k + 1);
      }
      if k: nat :| n == Pow2(k) {
        assert k > 0 && n == 2 * Pow2(k - 1);
        assert n / 2 == Pow2(k - 1) && n % 2 == 0;
        assert exists j: nat :: n / 2 == Pow2(j);
      }
    }
  }

  lemma SquaredPower(n: nat, half: nat, m: nat)
    requires n == half + half && Pow2(half) == m
    ensures Pow2(n) == m * m
  {
    Pow2Add(half, half);
  }

  /** An element of `size` bits has 2^size values. */
  lemma ModulusMeaning(size: int)
    requires PowerOfTwo(size) && size <= 64
    ensures size >= 1 && Modulus(size) == Pow2(size)
  {
    SizeCases(size);
    assert Pow2(0) == 1 && Pow2(1) == 2;
    SquaredPower(2, 1, 2);
    SquaredPower(4, 2, 4);
    SquaredPower(8, 4, 16);
    SquaredPower(16, 8, 0x100);
    SquaredPower(32, 16, 0x1_0000);
    SquaredPower(64, 32, 0x1_0000_0000);
  }

  /** The number whose binary digits are the `n` bits from `i` on, the lowest first. */
  function BitSum(s: Bytes, i: nat, n: nat): nat {
    if n == 0 then 0 else BitSum(s, i, n - 1) + UV(Bit(s, i + n - 1)) * Pow2(n - 1)
  }

  lemma {:induction false} BitSumLow(s: Bytes, i: nat, n: nat)
    requires n > 0
    ensures BitSum(s, i, n) == UV(Bit(s, i)) + 2 * BitSum(s, i + 1, n - 1)
  {
    if n == 1 {
      assert BitSum(s, i, 0) == 0 && BitSum(s, i + 1, 0) == 0 && Pow2(0) == 1;
    } else {
      BitSumLow(s, i, n - 1);
      Twice(UV(Bit(s, i + n - 1)), Pow2(n - 2));
    }
  }

  lemma Twice(x: nat, y: nat)
    ensures 2 * (x * y) == x * (2 * y)
  {
  }

  /** A byte by its upper seven bits and its lowest. */
  lemma {:induction false} Halved(b: bv8)
    ensures UV(b) == 2 * UV(b >> 1) + UV(b & 1)
    decreases UV(b)
  {
    if b >= 2 {
      assert (b - 2) & 1 == b & 1 && ((b - 2) >> 1) + 1 == b >> 1 && (b - 2) >> 1 < 255;
      UVNext(b - 2);
      UVNext(b - 1);
      UVNext((b - 2) >> 1);
      assert b - 2 + 1 == b - 1 && b - 1 + 1 == b;
      Halved(b - 2);
    } else {
      assert b == 0 || b == 1;
    }
  }

  lemma ShrHalved(b: bv8, k: nat)
    requires k < 7
    ensures UV(Shr(b, k)) == 2 * UV(Shr(b, k + 1)) + UV(Shr(b, k) & 1)
  {
    Halved(Shr(b, k));
    assert Shr(b, k) >> 1 == Shr(b, k + 1);
  }

  lemma BitHere(s: Bytes, u: nat, k: nat)
    requires k < 8
    ensures Bit(s, 8 * u + k) == Shr(At(s, u), k) & 1
  {
    assert (8 * u + k) / 8 == u && (8 * u + k) % 8 == k;
  }

  lemma DivTwice(v: nat, m: nat)
    requires m > 0
    ensures v / (2 * m) == v / 2 / m && v % (2 * m) % 2 == v % 2 && v % (2 * m) / 2 == v / 2 % m
  {
    var q, r := v / 2 / m, v / 2 % m;
    assert v / 2 == q * m + r;
    var low := r * 2 + v % 2;
    assert v == q * (2 * m) + low;
    assert low < 2 * m;
    RemainderIs(v, 2 * m, q, low);
    assert (v / (2 * m)) * (2 * m) + low == v;
    QuotientIs(v / (2 * m), q, 2 * m);
  }

  lemma QuotientIs(a: nat, b: nat, m: nat)
    requires m > 0 && a * m == b * m
    ensures a == b
  {
    MultipleBounds(a - b, m);
    assert (a - b) * m == 0;
  }

  lemma BitOfLow(b: bv8)
    ensures UV(b & 1) < 2
  {
    assert b & 1 == 0 || b & 1 == 1;
  }

  /** The `n` bits of a byte from bit `k` on. */
  lemma {:induction false} FieldOfByte(s: Bytes, u: nat, k: nat, n: nat, i: nat)
    requires k + n <= 8 && i == 8 * u + k
    ensures BitSum(s, i, n) == UV(if k < 8 then Shr(At(s, u), k) else 0) % Pow2(n)
    decreases n
  {
    if n > 0 {
      BitHere(s, u, k);
      BitSumLow(s, i, n);
      FieldOfByte(s, u, k + 1, n - 1, i + 1);
      BitOfLow(Shr(At(s, u), k));
      if k < 7 {
        ShrHalved(At(s, u), k);
      } else {
        TopBit(At(s, u));
      }
      DigitJoined(UV(Shr(At(s, u), k)), UV(if k < 7 then Shr(At(s, u), k + 1) else 0), UV(Shr(At(s, u), k) & 1),
                  Pow2(n - 1));
    }
  }

  lemma TopBit(b: bv8)
    ensures Shr(b, 7) & 1 == Shr(b, 7)
  {
  }

  lemma DigitJoined(v: nat, half: nat, bit: nat, m: nat)
    requires m > 0 && bit < 2 && v == 2 * half + bit
    ensures v % (2 * m) == bit + 2 * (half % m)
  {
    DivTwice(v, m);
  }

  lemma ByteModulus(eight: nat)
    requires eight == 8
    ensures Pow2(eight) == 0x100
  {
    ModulusMeaning(8);
  }

  /** A byte of the string is the number made of its eight bits. */
  lemma ByteIsBits(s: Bytes, u: nat, i: nat, eight: nat)
    requires i == 8 * u && eight == 8
    ensures UV(At(s, u)) == BitSum(s, i, eight)
  {
    ByteModulus(eight);
    FieldOfByte(s, u, 0, eight, i);
  }

  lemma MaskOne(x: bv8)
    ensures UV(x & 1) == UV(x) % 2 && UV(x >> 1) == UV(x) / 2
  {
    Halved(x);
    BitOfLow(x);
  }

  lemma MaskTwo(x: bv8)
    ensures UV(x & 3) == UV(x) % 4
  {
    MaskOne(x);
    MaskOne(x >> 1);
    Halved(x & 3);
    assert (x & 3) & 1 == x & 1 && (x & 3) >> 1 == (x >> 1) & 1;
  }

  lemma MaskFour(x: bv8)
    ensures UV(x & 15) == UV(x) % 16
  {
    MaskOne(x);
    MaskOne(x >> 1);
    MaskTwo((x >> 1) >> 1);
    Halved(x & 15);
    Halved((x & 15) >> 1);
    assert (x & 15) & 1 == x & 1 && ((x & 15) >> 1) & 1 == (x >> 1) & 1;
    assert ((x & 15) >> 1) >> 1 == ((x >> 1) >> 1) & 3;
  }

  lemma MaskIsModulus(x: bv8, size: int)
    requires size == 1 || size == 2 || size == 4
    ensures UV(x & Mask(size)) == UV(x) % Modulus(size)
  {
    MaskOne(x);
    MaskTwo(x);
    MaskFour(x);
  }

  lemma NarrowField(s: Bytes, u: nat, bo: nat, size: int)
    requires (size == 1 || size == 2 || size == 4) && bo + size <= 8
    ensures UV(Shr(At(s, u), bo) & Mask(size)) == BitSum(s, 8 * u + bo, size)
  {
    FieldOfByte(s, u, bo, size, 8 * u + bo);
    assert PowerOfTwo(size);
    ModulusMeaning(size);
    MaskIsModulus(Shr(At(s, u), bo), size);
  }

  /** A narrow element is the number made of its own bits. */
  lemma NarrowElement(s: Bytes, offset: nat, size: int)
    requires PowerOfTwo(size) && size < 8
    ensures size > 0 && Element(s, offset, size) == BitSum(s, offset * size, size)
  {
    SizeCases(size);
    SubBytePlacement(offset, size);
    NarrowField(s, ByteOf(offset, size), BitOf(offset, size), size);
  }

  lemma DigitStep(v: nat, m: nat, bit: nat, rest: nat)
    requires m > 0 && bit < 2 && v % (2 * m) == bit + 2 * rest
    ensures bit == v % 2 && rest == v / 2 % m
  {
    DivTwice(v, m);
  }

  lemma LowestDigit(s: Bytes, i: nat, n: nat, v: nat)
    requires n > 0 && BitSum(s, i, n) == v % Pow2(n)
    ensures UV(Bit(s, i)) == v % 2
    ensures BitSum(s, i + 1, n - 1) == v / 2 % Pow2(n - 1)
  {
    BitSumLow(s, i, n);
    BitOfLow(Shr(At(s, i / 8), i % 8));
    DigitStep(v, Pow2(n - 1), UV(Bit(s, i)), BitSum(s, i + 1, n - 1));
  }

  /** The bits of a number are its binary digits. */
  lemma {:induction false} BitSumDigit(s: Bytes, i: nat, n: nat, v: nat, k: nat)
    requires k < n && BitSum(s, i, n) == v % Pow2(n)
    ensures UV(Bit(s, i + k)) == v / Pow2(k) % 2
    decreases n, 0
  {
    LowestDigit(s, i, n, v);
    if k > 0 {
      HalfPower(v, k);
      NextDigit(s, i, n, v, k);
    } else {
      assert Pow2(0) == 1;
    }
  }

  lemma {:induction false} NextDigit(s: Bytes, i: nat, n: nat, v: nat, k: nat)
    requires 0 < k < n && BitSum(s, i + 1, n - 1) == v / 2 % Pow2(n - 1)
    ensures UV(Bit(s, i + k)) == v / 2 / Pow2(k - 1) % 2
    decreases n - 1, 1
  {
    BitSumDigit(s, i + 1, n - 1, v / 2, k - 1);
    assert i + 1 + (k - 1) == i + k;
  }

  lemma HalfPower(v: nat, k: nat)
    requires k > 0
    ensures v / Pow2(k) == v / 2 / Pow2(k - 1)
  {
    DivTwice(v, Pow2(k - 1));
  }

  lemma StoredDigits(s: Bytes, offset: nat, size: int, v: Uv, i: nat)
    requires PowerOfTwo(size) && size < 8 && i == offset * size
    ensures size > 0 && BitSum(Set(s, offset, size, v), i, size) == v % Pow2(size)
  {
    NarrowReadBack(s, offset, size, v);
    NarrowElement(Set(s, offset, size, v), offset, size);
    ModulusMeaning(size);
  }

  /** Bit `k` of a narrow element is bit `k` of the value assigned to it. */
  lemma SetBits(s: Bytes, offset: nat, size: int, v: Uv, i: nat, k: nat)
    requires PowerOfTwo(size) && size < 8 && i == offset * size && k < size
    ensures UV(Bit(Set(s, offset, size, v), i + k)) == v / Pow2(k) % 2
  {
    StoredDigits(s, offset, size, v, i);
    BitSumDigit(Set(s, offset, size, v), i, size, v, k);
  }

  /** When the sign shows, all the upper half of the value is changed by it. */
  lemma SignSpreads(s: Bytes, offset: nat, size: int)
    requires PowerOfTwo(size) && SignShows(s, offset, size)
    ensures Get(s, offset, size) == Ok((Element(s, offset, size) + 0xffff_ffff_0000_0000) % TWO64)
  {
    WidePlacement(offset, size);
    var u := ByteOf(offset, size);
    assert JoinAt(s, u) == Join8(s[u], s[u + 1], s[u + 2], s[u + 3], s[u + 4], 0, 0, 0);
    FifthByte(s[u], s[u + 1], s[u + 2], s[u + 3], s[u + 4]);
  }

  // ---------------------------------------------------------------- what stays unchanged

  /** Same bits, same byte. */
  lemma ByteBits(a: bv8, b: bv8)
    requires forall k: nat :: k < 8 ==> Shr(a, k) & 1 == Shr(b, k) & 1
    ensures a == b
  {
    assert Shr(a, 0) & 1 == Shr(b, 0) & 1 && Shr(a, 1) & 1 == Shr(b, 1) & 1;
    assert Shr(a, 2) & 1 == Shr(b, 2) & 1 && Shr(a, 3) & 1 == Shr(b, 3) & 1;
    assert Shr(a, 4) & 1 == Shr(b, 4) & 1 && Shr(a, 5) & 1 == Shr(b, 5) & 1;
    assert Shr(a, 6) & 1 == Shr(b, 6) & 1 && Shr(a, 7) & 1 == Shr(b, 7) & 1;
  }

  /** Same bits, same narrow field. */
  lemma FieldBits(a: bv8, b: bv8, bo: nat, size: int)
    requires (size == 1 || size == 2 || size == 4) && bo + size <= 8
    requires forall k: nat :: bo <= k < bo + size ==> Shr(a, k) & 1 == Shr(b, k) & 1
    ensures Shr(a, bo) & Mask(size) == Shr(b, bo) & Mask(size)
  {
    assert Shr(a, bo) & 1 == Shr(b, bo) & 1;
    if size >= 2 {
      assert Shr(a, bo + 1) & 1 == Shr(b, bo + 1) & 1;
    }
    if size == 4 {
      assert Shr(a, bo + 2) & 1 == Shr(b, bo + 2) & 1;
      assert Shr(a, bo + 3) & 1 == Shr(b, bo + 3) & 1;
    }
  }

  ghost predicate InElement(i: nat, offset: nat, size: int) {
    offset * size <= i < (offset + 1) * size
  }

  lemma Width(offset: nat, size: int)
    ensures (offset + 1) * size == offset * size + size
  {
  }

  /** Bytes that an assignment does not touch, padding included. */
  lemma SetKeepsBytes(s: Bytes, offset: nat, size: int, v: Uv, j: nat)
    requires PowerOfTwo(size)
    requires size < 8 ==> j != ByteOf(offset, size)
    requires size >= 8 ==> !(ByteOf(offset, size) <= j < ByteOf(offset, size) + size / 8)
    ensures At(Set(s, offset, size, v), j) == At(s, j)
  {
    Placement(offset, size);
  }

  /** An assignment changes no bit outside its element. */
  lemma SetFrame(s: Bytes, offset: nat, size: int, v: Uv, i: nat)
    requires PowerOfTwo(size) && !InElement(i, offset, size)
    ensures Bit(Set(s, offset, size, v), i) == Bit(s, i)
  {
    Placement(offset, size);
    SizeCases(size);
    Width(offset, size);
    if size < 8 && i / 8 == ByteOf(offset, size) {
      NarrowSetFrame(s, offset, size, v, i % 8);
    } else {
      SetKeepsBytes(s, offset, size, v, i / 8);
    }
  }

  lemma NarrowSetFrame(s: Bytes, offset: nat, size: int, v: Uv, k: nat)
    requires PowerOfTwo(size) && size < 8 && k < 8 && !(BitOf(offset, size) <= k < BitOf(offset, size) + size)
    ensures var u := ByteOf(offset, size);
            Shr(At(Set(s, offset, size, v), u), k) & 1 == Shr(At(s, u), k) & 1
  {
    SizeCases(size);
    SubBytePlacement(offset, size);
    NarrowFrame(At(s, ByteOf(offset, size)), BitOf(offset, size), size, v % Modulus(size), k);
  }

  lemma NarrowFrame(b: bv8, bo: nat, size: int, m: nat, k: nat)
    requires (size == 1 || size == 2 || size == 4) && bo < 8 && bo % size == 0
    requires m < Modulus(size) && k < 8 && !(bo <= k < bo + size)
    ensures Shr(Patched(b, bo, size, Low(m)), k) & 1 == Shr(b, k) & 1
  {
    SmallMask(m, size);
    if size == 1 {
      PatchedKeepsOne(b, bo, Low(m), k);
    } else if size == 2 {
      PatchedKeepsTwo(b, bo, Low(m), k);
    } else {
      PatchedKeepsFour(b, bo, Low(m), k);
    }
  }

  ghost predicate SameBits(s: Bytes, t: Bytes, offset: nat, size: int) {
    forall i: nat :: InElement(i, offset, size) ==> Bit(s, i) == Bit(t, i)
  }

  lemma SameBytes(s: Bytes, t: Bytes, offset: nat, size: int, j: nat)
    requires PowerOfTwo(size) && size >= 8 && SameBits(s, t, offset, size)
    requires ByteOf(offset, size) <= j < ByteOf(offset, size) + size / 8
    ensures At(s, j) == At(t, j)
  {
    Placement(offset, size);
    Width(offset, size);
    forall k: nat | k < 8 ensures Shr(At(s, j), k) & 1 == Shr(At(t, j), k) & 1 {
      var i := j * 8 + k;
      assert i / 8 == j && i % 8 == k;
      assert InElement(i, offset, size);
      assert Bit(s, i) == Bit(t, i);
    }
    ByteBits(At(s, j), At(t, j));
  }

  /** An element depends on no bit but its own. */
  lemma ElementLocal(s: Bytes, t: Bytes, offset: nat, size: int)
    requires PowerOfTwo(size) && SameBits(s, t, offset, size)
    ensures Element(s, offset, size) == Element(t, offset, size)
  {
    Placement(offset, size);
    SizeCases(size);
    var u, bo := ByteOf(offset, size), BitOf(offset, size);
    if size < 8 {
      Width(offset, size);
      forall k: nat | bo <= k < bo + size ensures Shr(At(s, u), k) & 1 == Shr(At(t, u), k) & 1 {
        var i := u * 8 + k;
        assert i / 8 == u && i % 8 == k;
        assert InElement(i, offset, size);
        assert Bit(s, i) == Bit(t, i);
      }
      FieldBits(At(s, u), At(t, u), bo, size);
    } else if size <= 64 {
      forall j: nat | u <= j < u + size / 8 ensures At(s, j) == At(t, j) {
        SameBytes(s, t, offset, size, j);
      }
    }
  }

  ghost predicate Disjoint(o: nat, z: int, p: nat, y: int) {
    (o + 1) * z <= p * y || (p + 1) * y <= o * z
  }

  lemma SetElsewhere(s: Bytes, o: nat, z: int, v: Uv, p: nat, y: int)
    requires PowerOfTwo(z) && PowerOfTwo(y) && Disjoint(o, z, p, y)
    ensures SameBits(Set(s, o, z, v), s, p, y)
    ensures Element(Set(s, o, z, v), p, y) == Element(s, p, y)
  {
    forall i: nat | InElement(i, p, y) ensures Bit(Set(s, o, z, v), i) == Bit(s, i) {
      SetFrame(s, o, z, v, i);
    }
    ElementLocal(Set(s, o, z, v), s, p, y);
  }

  lemma SetLength(s: Bytes, offset: nat, size: int, v: Uv)
    requires PowerOfTwo(size)
    ensures |Set(s, offset, size, v)| == if Needed(offset, size) > |s| then Needed(offset, size) else |s|
  {
    Placement(offset, size);
    SizeCases(size);
  }

  /** The string grows exactly when the element's last bit lies behind it, and then ends with the
      byte of that bit. */
  lemma SetGrows(s: Bytes, offset: nat, size: int, v: Uv)
    requires PowerOfTwo(size)
    ensures var n := |Set(s, offset, size, v)|;
            && n >= |s| && n * 8 >= (offset + 1) * size && (n > |s| ==> (n - 1) * 8 < (offset + 1) * size)
  {
    Placement(offset, size);
    SizeCases(size);
    Width(offset, size);
    SetLength(s, offset, size, v);
  }

  /** Sizes above 64 store nothing. */
  lemma SetsNothing(s: Bytes, offset: nat, size: int, v: Uv, j: nat)
    requires PowerOfTwo(size) && size > 64
    ensures At(Set(s, offset, size, v), j) == At(s, j)
  {
    Placement(offset, size);
  }

  /** What vec answers without looking at the string. */
  lemma GetOutside(s: Bytes, offset: int, size: int)
    ensures Get(s, offset, size) == IllegalSize <==> offset >= 0 && forall k: nat :: size != Pow2(k)
    ensures offset < 0 ==> Get(s, offset, size) == Ok(0)
    ensures size > 64 ==> Get(s, offset, size) == Ok(0) || Get(s, offset, size) == IllegalSize
  {
    LegalSizes(size);
    if offset >= 0 && PowerOfTwo(size) && size > 64 {
      HugeReads(s, offset, size);
    }
  }

  lemma HugeReads(s: Bytes, offset: nat, size: int)
    requires PowerOfTwo(size) && size > 64
    ensures Get(s, offset, size) == Ok(0)
  {
    var u := ByteOf(offset, size);
    assert ReadShort(s, u, size) == 0;
    assert Needed(offset, size) <= |s| ==> ReadFull(s, u, BitOf(offset, size), size) == 0 by {
      Placement(offset, size);
    }
  }

  /** A string that grew to hold one element does not end inside a disjoint one. */
  lemma GrowthEndsOutside(o: nat, z: int, p: nat, y: int)
    requires PowerOfTwo(z) && PowerOfTwo(y) && y >= 8 && Disjoint(o, z, p, y)
    ensures !(ByteOf(p, y) < Needed(o, z) <= ByteOf(p, y) + y / 8)
  {
    Placement(o, z);
    Placement(p, y);
    Width(o, z);
    Width(p, y);
    SizeCases(y);
    SizeCases(z);
  }

  lemma GetLocal(s: Bytes, t: Bytes, p: nat, y: int)
    requires PowerOfTwo(y) && |s| == |t| && SameBits(s, t, p, y)
    ensures Get(s, p, y) == Get(t, p, y)
  {
    ElementLocal(s, t, p, y);
    if y == 64 {
      WidePlacement(p, y);
      forall j: nat | ByteOf(p, y) <= j < ByteOf(p, y) + 8 ensures At(s, j) == At(t, j) {
        SameBytes(s, t, p, y, j);
      }
      if SignShows(s, p, y) {
        assert At(s, |s| - 1) == At(t, |t| - 1);
        ShortReadLocal(s, t, ByteOf(p, y));
      } else {
        assert |s| == ByteOf(p, y) + 5 ==> At(s, |s| - 1) == At(t, |t| - 1);
        GetIsElement(s, p, y);
        GetIsElement(t, p, y);
      }
    } else {
      GetIsElement(s, p, y);
      GetIsElement(t, p, y);
    }
  }

  lemma ShortReadLocal(s: Bytes, t: Bytes, u: nat)
    requires |s| == |t| == u + 5
    requires forall j: nat :: u <= j < u + 8 ==> At(s, j) == At(t, j)
    ensures ReadShort(s, u, 64) == ReadShort(t, u, 64)
  {
    assert At(s, u) == At(t, u) && At(s, u + 1) == At(t, u + 1) && At(s, u + 2) == At(t, u + 2);
    assert At(s, u + 3) == At(t, u + 3) && At(s, u + 4) == At(t, u + 4);
  }

  /** Assigning one element leaves what do_vecget reads of a disjoint one, of any width, as it
      was - except that growing the string cures a read in which the sign showed. */
  lemma GetElsewhere(s: Bytes, o: nat, z: int, v: Uv, p: nat, y: int)
    requires PowerOfTwo(z) && PowerOfTwo(y) && Disjoint(o, z, p, y)
    ensures Get(Set(s, o, z, v), p, y) == Get(s, p, y) <==> !(SignShows(s, p, y) && Needed(o, z) > |s|)
  {
    var t := Set(s, o, z, v);
    SetLength(s, o, z, v);
    SetElsewhere(s, o, z, v, p, y);
    if Needed(o, z) <= |s| {
      GetLocal(t, s, p, y);
    } else {
      if y == 64 {
        WidePlacement(p, y);
        GrowthEndsOutside(o, z, p, y);
      }
      GetIsElement(t, p, y);
      GetIsElement(s, p, y);
    }
  }

  // ---------------------------------------------------------------- the buffer

  /** do_vecset on a string buffer; the value is a UV. */
  method DoVecset(targ: Pv<bv8>, offset: int, size: int, lval: Uv) returns (r: Result<()>)
    requires targ.Valid()
    modifies targ, targ.pv
    ensures targ.Valid() && (targ.pv == old(targ.pv) || fresh(targ.pv))
    ensures r == if offset < 0 then NegativeOffset else if !PowerOfTwo(size) then IllegalSize else Ok(())
    ensures r.Ok? ==> targ.Contents() == Set(old(targ.Contents()), offset, size, lval)
    ensures !r.Ok? ==> targ.Contents() == old(targ.Contents())
  {
    if offset < 0 { return NegativeOffset; }
    if !PowerOfTwo(size) { return IllegalSize; }
    var u, bitoffs, len := Place(offset, size);
    Lengthen(targ, len);
    Assign(targ, u, bitoffs, size, lval);
    r := Ok(());
  }

  /** Byte and bit at which the element starts, and how long the string must be for it. */
  method Place(offset: nat, size: int) returns (u: nat, bitoffs: nat, len: nat)
    requires PowerOfTwo(size)
    ensures u == ByteOf(offset, size) && bitoffs == BitOf(offset, size) < 8 && len == Needed(offset, size)
    ensures u < len && (size >= 8 ==> u + size / 8 <= len)
  {
    Placement(offset, size);
    SizeCases(size);
    bitoffs := if size < 8 then ((offset % 8) * size) % 8 else 0;
    u := if size < 8 then offset / (8 / size) else if size > 8 then offset * (size / 8) else offset;
    len := u + (bitoffs + size + 7) / 8;
  }

  /** Make the string at least `len` bytes long, the new bytes and the NUL zeroed. */
  method Lengthen(targ: Pv<bv8>, len: nat)
    requires targ.Valid()
    modifies targ, targ.pv
    ensures targ.Valid() && (targ.pv == old(targ.pv) || fresh(targ.pv))
    ensures targ.Contents() == Padded(old(targ.Contents()), len)
  {
    ghost var s := targ.Contents();
    if len > targ.cur {
      targ.Grow(len + 1);
      forall i | targ.cur <= i <= len {
        targ.pv[i] := 0;
      }
      targ.cur := len;
    }
    assert targ.Contents() == Padded(s, len);
  }

  /** The stores of do_vecset, once the string is long enough. */
  method Assign(targ: Pv<bv8>, u: nat, bitoffs: nat, size: int, lval: Uv)
    requires targ.Valid() && PowerOfTwo(size) && bitoffs < 8
    requires u < targ.cur && (size >= 8 ==> u + size / 8 <= targ.cur)
    modifies targ.pv
    ensures targ.Contents() ==
      var t := old(targ.Contents());
      if size < 8 then t[u := Patched(t[u], bitoffs, size, Low(lval % Modulus(size)))]
      else
        var w := BigEndian(lval, if size <= 64 then size / 8 else 0);
        t[..u] + w + t[u + |w|..]
  {
    SizeCases(size);
    if size < 8 {
      StoreBits(targ, u, bitoffs, size, lval);
    } else if size <= 64 {
      StoreBytes(targ, u, size / 8, lval);
    } else {
      assert targ.Contents() == targ.Contents()[..u] + [] + targ.Contents()[u..];
    }
  }

  /** The two masked stores of the narrow branch, as one. */
  method StoreBits(targ: Pv<bv8>, u: nat, bitoffs: nat, size: int, lval: Uv)
    requires targ.Valid() && u < targ.cur && bitoffs < 8
    modifies targ.pv
    ensures var t := old(targ.Contents());
            targ.Contents() == t[u := Patched(t[u], bitoffs, size, Low(lval % Modulus(size)))]
  {
    targ.pv[u] := Patched(targ.pv[u], bitoffs, size, Low(lval % Modulus(size)));
  }

  /** The byte stores of the wide branches, most significant first. */
  method StoreBytes(targ: Pv<bv8>, u: nat, n: nat, lval: Uv)
    requires targ.Valid() && u + n <= targ.cur && (n == 1 || n == 2 || n == 4 || n == 8)
    modifies targ.pv
    ensures targ.Contents() == old(targ.Contents()[..u]) + BigEndian(lval, n) + old(targ.Contents()[u + n..])
  {
    var w := StoredBytes(lval, n);
    forall i | 0 <= i < n {
      targ.pv[u + i] := w[i];
    }
    assert targ.Contents() == old(targ.Contents()[..u]) + w + old(targ.Contents()[u + n..]);
  }

  /** The bytes that the wide branches store, in order. */
  function StoredBytes(v: Uv, n: nat): (w: Bytes)
    requires n == 1 || n == 2 || n == 4 || n == 8
    ensures w == BigEndian(v, n)
  {
    TwoBytes(Low, v);
    FourBytes(Low, v);
    EightBytes(Low, v);
    if n == 1 then [Low(v)]
    else if n == 2 then [Low(v / 0x100), Low(v)]
    else if n == 4 then [Low(v / 0x100_0000), Low(v / 0x1_0000), Low(v / 0x100), Low(v)]
    else [Low(v / 0x100_0000_0000_0000), Low(v / 0x1_0000_0000_0000), Low(v / 0x100_0000_0000), Low(v / 0x1_0000_0000),
          Low(v / 0x100_0000), Low(v / 0x1_0000), Low(v / 0x100), Low(v)]
  }

  lemma FourBytes(f: nat -> bv8, v: nat)
    ensures DigitsOf(f, v, 4) == [f(v / 0x100_0000), f(v / 0x1_0000), f(v / 0x100), f(v)]
  {
    Digits(v);
    var top := v / 0x1_0000;
    TwoBytes(f, top);
    assert DigitsOf(f, top, 2) == [f(v / 0x100_0000), f(top)];
    assert DigitsOf(f, v / 0x100, 3) == DigitsOf(f, top, 2) + [f(v / 0x100)];
    assert DigitsOf(f, v, 4) == DigitsOf(f, v / 0x100, 3) + [f(v)];
  }

  lemma TwoBytes(f: nat -> bv8, v: nat)
    ensures DigitsOf(f, v, 1) == [f(v)]
    ensures DigitsOf(f, v, 2) == [f(v / 0x100), f(v)]
  {
    assert DigitsOf(f, v / 0x100, 0) == [];
    assert DigitsOf(f, v / 0x100, 1) == [f(v / 0x100)];
  }

  lemma EightBytes(f: nat -> bv8, v: nat)
    ensures DigitsOf(f, v, 8) == [f(v / 0x100_0000_0000_0000), f(v / 0x1_0000_0000_0000), f(v / 0x100_0000_0000),
                                  f(v / 0x1_0000_0000), f(v / 0x100_0000), f(v / 0x1_0000), f(v / 0x100), f(v)]
  {
    Digits(v);
    FourBytes(f, v / 0x1_0000_0000);
    assert DigitsOf(f, v / 0x100_0000, 5) == DigitsOf(f, v / 0x1_0000_0000, 4) + [f(v / 0x100_0000)];
    assert DigitsOf(f, v / 0x1_0000, 6) == DigitsOf(f, v / 0x100_0000, 5) + [f(v / 0x1_0000)];
    assert DigitsOf(f, v / 0x100, 7) == DigitsOf(f, v / 0x1_0000, 6) + [f(v / 0x100)];
    LongDigits(v);
  }

  lemma LongDigits(v: nat)
    ensures v / 0x1_0000_0000 / 0x1_0000 == v / 0x1_0000_0000_0000
    ensures v / 0x1_0000_0000 / 0x100_0000 == v / 0x100_0000_0000_0000
  {
  }
}
