/**
 The bitwise string operators & | ^ (doop.c): a bytewise definition, and do_vop, which works on
 the buffers in place, four words at a time where alignment allows.
 */
module Vop {
  import opened StringBuffer

  datatype Op = And | Or | Xor

  function OpByte(op: Op, a: bv8, b: bv8): bv8 {
    match op
    case And => a & b
    case Or => a | b
    case Xor => a ^ b
  }

  function Min(a: nat, b: nat): nat {
    if a < b then a else b
  }

  /** The bytewise operator: AND stops with the shorter operand, OR and XOR go on with the tail of
      the longer one. */
  function Combined(op: Op, l: Bytes, r: Bytes): Bytes {
    var n := Min(|l|, |r|);
    seq(n, i requires 0 <= i < n => OpByte(op, l[i], r[i]))
    + if op == And then [] else if |r| > n then r[n..] else l[n..]
  }

  /** Length of the shorter operand for AND, of the longer for OR and XOR; and every byte is the
      operator on the zero-extended operands. */
  lemma CombinedMeaning(op: Op, l: Bytes, r: Bytes, i: nat)
    ensures |Combined(op, l, r)| == if op == And then Min(|l|, |r|) else if |l| < |r| then |r| else |l|
    ensures i < |Combined(op, l, r)| ==> Combined(op, l, r)[i] == OpByte(op, At(l, i), At(r, i))
  {
    var n := Min(|l|, |r|);
    var c := Combined(op, l, r);
    if i < |c| && n <= i {
      if |r| > n {
        assert c[i] == r[i];
      } else {
        assert c[i] == l[i];
      }
    }
  }

  /** XOR with the same right operand twice gives the left one back, zero-extended. */
  lemma XorTwice(l: Bytes, r: Bytes)
    ensures Combined(Xor, Combined(Xor, l, r), r) == l + seq(if |r| > |l| then |r| - |l| else 0, _ => 0)
  {
    var twice := Combined(Xor, Combined(Xor, l, r), r);
    CombinedMeaning(Xor, l, r, 0);
    CombinedMeaning(Xor, Combined(Xor, l, r), r, 0);
    var want := l + seq(if |r| > |l| then |r| - |l| else 0, _ => 0);
    forall i | 0 <= i < |want| ensures twice[i] == want[i] {
      XorTwiceAt(l, r, i);
      assert want[i] == At(l, i);
    }
  }

  lemma XorTwiceAt(l: Bytes, r: Bytes, i: nat)
    requires i < |l| || i < |r|
    ensures var twice := Combined(Xor, Combined(Xor, l, r), r);
            i < |twice| && twice[i] == At(l, i)
  {
    CombinedMeaning(Xor, l, r, i);
    CombinedMeaning(Xor, Combined(Xor, l, r), r, i);
    XorBack(At(l, i), At(r, i));
  }

  lemma XorBack(x: bv8, y: bv8)
    ensures (x ^ y) ^ y == x
  {
  }

  /** When only the right operand is the target it is emptied before it is read.  The result is
      still the bytewise one exactly if the right operand changes nothing: for AND if one operand
      is empty, for OR if the right adds no bits, for XOR if it has none - and is no longer. */
  lemma EmptiedRight(op: Op, l: Bytes, r: Bytes)
    ensures Combined(op, l, []) == Combined(op, l, r) <==>
            match op
            case And => l == [] || r == []
            case Or => |r| <= |l| && forall i :: 0 <= i < |r| ==> l[i] | r[i] == l[i]
            case Xor => |r| <= |l| && forall i :: 0 <= i < |r| ==> r[i] == 0
  {
    EmptyOperand(op, l);
    if op == And {
      CombinedMeaning(op, l, r, 0);
    } else {
      KeepsLeft(op, l, r);
      if op == Xor {
        forall i | 0 <= i < |r| && i < |l| ensures OpByte(op, l[i], r[i]) == l[i] <==> r[i] == 0 {
          XorKeeps(l[i], r[i]);
        }
      }
    }
  }

  lemma EmptyOperand(op: Op, l: Bytes)
    ensures Combined(op, l, []) == if op == And then [] else l
  {
  }

  lemma XorKeeps(x: bv8, y: bv8)
    ensures x ^ y == x <==> y == 0
  {
  }

  /** When the result is the left operand. */
  lemma KeepsLeft(op: Op, l: Bytes, r: Bytes)
    requires op != And
    ensures Combined(op, l, r) == l <==> |r| <= |l| && forall i :: 0 <= i < |r| ==> OpByte(op, l[i], r[i]) == l[i]
  {
    var c := Combined(op, l, r);
    CombinedMeaning(op, l, r, 0);
    forall i | 0 <= i < |r| && i < |l| ensures c[i] == OpByte(op, l[i], r[i]) {
      CombinedMeaning(op, l, r, i);
    }
    if |r| <= |l| && (forall i :: 0 <= i < |r| ==> OpByte(op, l[i], r[i]) == l[i]) {
      assert c == l;
    }
  }

  // ---------------------------------------------------------------- words

  function OpWord(op: Op, x: bv64, y: bv64): bv64 {
    match op
    case And => x & y
    case Or => x | y
    case Xor => x ^ y
  }

  /** Eight bytes of memory read as one long. */
  function Pack(a: bv8, b: bv8, c: bv8, d: bv8, e: bv8, f: bv8, g: bv8, h: bv8): bv64 {
    (a as bv64) | ((b as bv64) << 8) | ((c as bv64) << 16) | ((d as bv64) << 24)
    | ((e as bv64) << 32) | ((f as bv64) << 40) | ((g as bv64) << 48) | ((h as bv64) << 56)
  }

  function LoadWord(s: Bytes, i: nat): bv64
    requires i + 8 <= |s|
  {
    Pack(s[i], s[i + 1], s[i + 2], s[i + 3], s[i + 4], s[i + 5], s[i + 6], s[i + 7])
  }

  /** Byte `k` of a long in memory. */
  function Nth(w: bv64, k: nat): bv8
    requires k < 8
  {
    ((if k == 0 then w else if k == 1 then w >> 8 else if k == 2 then w >> 16 else if k == 3 then w >> 24
      else if k == 4 then w >> 32 else if k == 5 then w >> 40 else if k == 6 then w >> 48 else w >> 56) & 0xff) as bv8
  }

  lemma NthOfPack(a: bv8, b: bv8, c: bv8, d: bv8, e: bv8, f: bv8, g: bv8, h: bv8)
    ensures var w := Pack(a, b, c, d, e, f, g, h);
            && Nth(w, 0) == a && Nth(w, 1) == b && Nth(w, 2) == c && Nth(w, 3) == d
            && Nth(w, 4) == e && Nth(w, 5) == f && Nth(w, 6) == g && Nth(w, 7) == h
  {
  }

  lemma PackAnd(a: bv8, b: bv8, c: bv8, d: bv8, e: bv8, f: bv8, g: bv8, h: bv8,
                a': bv8, b': bv8, c': bv8, d': bv8, e': bv8, f': bv8, g': bv8, h': bv8)
    ensures OpWord(And, Pack(a, b, c, d, e, f, g, h), Pack(a', b', c', d', e', f', g', h'))
         == Pack(a & a', b & b', c & c', d & d', e & e', f & f', g & g', h & h')
  {
  }

  lemma BytesAnd(a: bv8, b: bv8, c: bv8, d: bv8, e: bv8, f: bv8, g: bv8, h: bv8,
                 a': bv8, b': bv8, c': bv8, d': bv8, e': bv8, f': bv8, g': bv8, h': bv8)
    ensures var w := OpWord(And, Pack(a, b, c, d, e, f, g, h), Pack(a', b', c', d', e', f', g', h'));
            && Nth(w, 0) == OpByte(And, a, a') && Nth(w, 1) == OpByte(And, b, b')
            && Nth(w, 2) == OpByte(And, c, c') && Nth(w, 3) == OpByte(And, d, d')
            && Nth(w, 4) == OpByte(And, e, e') && Nth(w, 5) == OpByte(And, f, f')
            && Nth(w, 6) == OpByte(And, g, g') && Nth(w, 7) == OpByte(And, h, h')
  {
    PackAnd(a, b, c, d, e, f, g, h, a', b', c', d', e', f', g', h');
    NthOfPack(a & a', b & b', c & c', d & d', e & e', f & f', g & g', h & h');
  }

  lemma PackOr(a: bv8, b: bv8, c: bv8, d: bv8, e: bv8, f: bv8, g: bv8, h: bv8,
               a': bv8, b': bv8, c': bv8, d': bv8, e': bv8, f': bv8, g': bv8, h': bv8)
    ensures OpWord(Or, Pack(a, b, c, d, e, f, g, h), Pack(a', b', c', d', e', f', g', h'))
         == Pack(a | a', b | b', c | c', d | d', e | e', f | f', g | g', h | h')
  {
  }

  lemma BytesOr(a: bv8, b: bv8, c: bv8, d: bv8, e: bv8, f: bv8, g: bv8, h: bv8,
                a': bv8, b': bv8, c': bv8, d': bv8, e': bv8, f': bv8, g': bv8, h': bv8)
    ensures var w := OpWord(Or, Pack(a, b, c, d, e, f, g, h), Pack(a', b', c', d', e', f', g', h'));
            && Nth(w, 0) == OpByte(Or, a, a') && Nth(w, 1) == OpByte(Or, b, b')
            && Nth(w, 2) == OpByte(Or, c, c') && Nth(w, 3) == OpByte(Or, d, d')
            && Nth(w, 4) == OpByte(Or, e, e') && Nth(w, 5) == OpByte(Or, f, f')
            && Nth(w, 6) == OpByte(Or, g, g') && Nth(w, 7) == OpByte(Or, h, h')
  {
    PackOr(a, b, c, d, e, f, g, h, a', b', c', d', e', f', g', h');
    NthOfPack(a | a', b | b', c | c', d | d', e | e', f | f', g | g', h | h');
  }

  lemma PackXor(a: bv8, b: bv8, c: bv8, d: bv8, e: bv8, f: bv8, g: bv8, h: bv8,
                a': bv8, b': bv8, c': bv8, d': bv8, e': bv8, f': bv8, g': bv8, h': bv8)
    ensures OpWord(Xor, Pack(a, b, c, d, e, f, g, h), Pack(a', b', c', d', e', f', g', h'))
         == Pack(a ^ a', b ^ b', c ^ c', d ^ d', e ^ e', f ^ f', g ^ g', h ^ h')
  {
  }

  lemma BytesXor(a: bv8, b: bv8, c: bv8, d: bv8, e: bv8, f: bv8, g: bv8, h: bv8,
                 a': bv8, b': bv8, c': bv8, d': bv8, e': bv8, f': bv8, g': bv8, h': bv8)
    ensures var w := OpWord(Xor, Pack(a, b, c, d, e, f, g, h), Pack(a', b', c', d', e', f', g', h'));
            && Nth(w, 0) == OpByte(Xor, a, a') && Nth(w, 1) == OpByte(Xor, b, b')
            && Nth(w, 2) == OpByte(Xor, c, c') && Nth(w, 3) == OpByte(Xor, d, d')
            && Nth(w, 4) == OpByte(Xor, e, e') && Nth(w, 5) == OpByte(Xor, f, f')
            && Nth(w, 6) == OpByte(Xor, g, g') && Nth(w, 7) == OpByte(Xor, h, h')
  {
    PackXor(a, b, c, d, e, f, g, h, a', b', c', d', e', f', g', h');
    NthOfPack(a ^ a', b ^ b', c ^ c', d ^ d', e ^ e', f ^ f', g ^ g', h ^ h');
  }

  /** The operator on longs is the operator on their bytes. */
  lemma WordIsBytes(op: Op, x: Bytes, y: Bytes, i: nat)
    requires i + 8 <= |x| && i + 8 <= |y|
    ensures var w := OpWord(op, LoadWord(x, i), LoadWord(y, i));
            && Nth(w, 0) == OpByte(op, x[i], y[i]) && Nth(w, 1) == OpByte(op, x[i + 1], y[i + 1])
            && Nth(w, 2) == OpByte(op, x[i + 2], y[i + 2]) && Nth(w, 3) == OpByte(op, x[i + 3], y[i + 3])
            && Nth(w, 4) == OpByte(op, x[i + 4], y[i + 4]) && Nth(w, 5) == OpByte(op, x[i + 5], y[i + 5])
            && Nth(w, 6) == OpByte(op, x[i + 6], y[i + 6]) && Nth(w, 7) == OpByte(op, x[i + 7], y[i + 7])
  {
    match op
    case And =>
      BytesAnd(x[i], x[i + 1], x[i + 2], x[i + 3], x[i + 4], x[i + 5], x[i + 6], x[i + 7],
               y[i], y[i + 1], y[i + 2], y[i + 3], y[i + 4], y[i + 5], y[i + 6], y[i + 7]);
    case Or =>
      BytesOr(x[i], x[i + 1], x[i + 2], x[i + 3], x[i + 4], x[i + 5], x[i + 6], x[i + 7],
              y[i], y[i + 1], y[i + 2], y[i + 3], y[i + 4], y[i + 5], y[i + 6], y[i + 7]);
    case Xor =>
      BytesXor(x[i], x[i + 1], x[i + 2], x[i + 3], x[i + 4], x[i + 5], x[i + 6], x[i + 7],
               y[i], y[i + 1], y[i + 2], y[i + 3], y[i + 4], y[i + 5], y[i + 6], y[i + 7]);
  }

  /** The bytes of the long computed from the longs at `i`. */
  function WordBytes(op: Op, x: Bytes, y: Bytes, i: nat): (w: Bytes)
    requires i + 8 <= |x| && i + 8 <= |y|
    ensures |w| == 8 && forall k :: 0 <= k < 8 ==> w[k] == OpByte(op, x[i + k], y[i + k])
  {
    WordIsBytes(op, x, y, i);
    var v := OpWord(op, LoadWord(x, i), LoadWord(y, i));
    [Nth(v, 0), Nth(v, 1), Nth(v, 2), Nth(v, 3), Nth(v, 4), Nth(v, 5), Nth(v, 6), Nth(v, 7)]
  }

  // ---------------------------------------------------------------- the buffers

  /** `*dl++ = *ll++ op *rl++`: one long, all of it read before any of it is written. */
  method DoWord(op: Op, d: array<bv8>, l: array<bv8>, r: array<bv8>, i: nat)
    requires i + 8 <= d.Length && i + 8 <= l.Length && i + 8 <= r.Length
    modifies d
    ensures forall j :: 0 <= j < d.Length ==>
      d[j] == if i <= j < i + 8 then OpByte(op, old(l[j]), old(r[j])) else old(d[j])
  {
    var w := WordBytes(op, l[..], r[..], i);
    forall j | i <= j < i + 8 {
      d[j] := w[j - i];
    }
  }

  /** The first `i` bytes are done and the rest of all three buffers is as it was. */
  ghost predicate DoneTo(op: Op, d: array<bv8>, l: array<bv8>, r: array<bv8>, d0: Bytes, l0: Bytes, r0: Bytes, i: nat)
    reads d, l, r
  {
    && |d0| == d.Length && |l0| == l.Length && |r0| == r.Length
    && i <= |d0| && i <= |l0| && i <= |r0|
    && (forall j :: 0 <= j < i ==> d[j] == OpByte(op, l0[j], r0[j]))
    && (forall j :: i <= j < |d0| ==> d[j] == d0[j])
    && (forall j :: i <= j < |l0| ==> l[j] == l0[j])
    && (forall j :: i <= j < |r0| ==> r[j] == r0[j])
  }

  /** Both loops of do_vop: groups of four longs if the buffers are aligned, then single bytes. */
  method Loops(op: Op, d: array<bv8>, l: array<bv8>, r: array<bv8>, n: nat, aligned: bool)
    requires n <= d.Length && n <= l.Length && n <= r.Length
    modifies d
    ensures DoneTo(op, d, l, r, old(d[..]), old(l[..]), old(r[..]), n)
  {
    ghost var d0, l0, r0 := d[..], l[..], r[..];
    var i := 0;
    var len := n;
    if len >= 32 && aligned {
      var remainder := len % 32;
      len := len / 32;
      while len > 0
        invariant i + len * 32 + remainder == n
        invariant DoneTo(op, d, l, r, d0, l0, r0, i)
      {
        FourWords(op, d, l, r, d0, l0, r0, i);
        i := i + 32;
        len := len - 1;
      }
      len := remainder;
    }
    while len > 0
      invariant i + len == n
      invariant DoneTo(op, d, l, r, d0, l0, r0, i)
    {
      d[i] := OpByte(op, l[i], r[i]);
      i := i + 1;
      len := len - 1;
    }
  }

  method OneWord(op: Op, d: array<bv8>, l: array<bv8>, r: array<bv8>,
                   ghost d0: Bytes, ghost l0: Bytes, ghost r0: Bytes, i: nat)
    requires i + 8 <= d.Length && i + 8 <= l.Length && i + 8 <= r.Length
    requires DoneTo(op, d, l, r, d0, l0, r0, i)
    modifies d
    ensures DoneTo(op, d, l, r, d0, l0, r0, i + 8)
  {
    DoWord(op, d, l, r, i);
  }

  /** The body of the unrolled loop. */
  method FourWords(op: Op, d: array<bv8>, l: array<bv8>, r: array<bv8>,
                   ghost d0: Bytes, ghost l0: Bytes, ghost r0: Bytes, i: nat)
    requires i + 32 <= d.Length && i + 32 <= l.Length && i + 32 <= r.Length
    requires DoneTo(op, d, l, r, d0, l0, r0, i)
    modifies d
    ensures DoneTo(op, d, l, r, d0, l0, r0, i + 32)
  {
    OneWord(op, d, l, r, d0, l0, r0, i);
    OneWord(op, d, l, r, d0, l0, r0, i + 8);
    OneWord(op, d, l, r, d0, l0, r0, i + 16);
    OneWord(op, d, l, r, d0, l0, r0, i + 24);
  }

  /** sv_catpvn of `n` bytes of `src` from `from` on; `src` may be the target's own block, which
      then is large enough not to move. */
  method Append(sv: Pv<bv8>, src: array<bv8>, from: nat, n: nat)
    requires sv.Valid() && from + n <= src.Length
    requires src == sv.pv ==> sv.cur + n < sv.pv.Length
    modifies sv, sv.pv
    ensures sv.Valid() && (sv.pv == old(sv.pv) || fresh(sv.pv))
    ensures sv.Contents() == old(sv.Contents()) + old(src[from..from + n])
  {
    ghost var s, t := sv.Contents(), src[from..from + n];
    sv.Grow(sv.cur + n + 1);
    var cur := sv.cur;
    forall k | 0 <= k < n {
      sv.pv[cur + k] := src[from + k];
    }
    sv.pv[cur + n] := 0;
    sv.cur := cur + n;
    assert sv.Contents() == s + t;
  }

  /** The start of do_vop: a target other than the left operand is emptied, and the target gets
      room for `len` bytes. */
  method Prepare(sv: Pv<bv8>, len: nat)
    requires sv.Valid() && (len <= sv.cur || sv.cur == 0)
    modifies sv
    ensures sv.Valid() && sv.cur == len && (sv.pv == old(sv.pv) || fresh(sv.pv))
    ensures old(sv.pv.Length) > len ==> sv.pv == old(sv.pv)
  {
    sv.cur := if len < sv.cur then len else sv.cur;
    sv.Grow(len + 1);
    sv.cur := len;
  }

  /** The end of do_vop: the tail of the longer operand, or the NUL. */
  method Finish(op: Op, sv: Pv<bv8>, lc: array<bv8>, rc: array<bv8>, leftlen: nat, rightlen: nat)
    requires sv.Valid() && sv.cur == Min(leftlen, rightlen)
    requires leftlen < lc.Length && rightlen < rc.Length
    modifies sv, sv.pv
    ensures sv.Valid()
    ensures var len := old(sv.cur);
            sv.Contents() == old(sv.Contents()) +
              if op == And then [] else if rightlen > len then old(rc[len..rightlen]) else old(lc[len..leftlen])
  {
    var len := sv.cur;
    if op == And {
      sv.pv[len] := 0;
    } else if rightlen > len {
      Append(sv, rc, len, rightlen - len);
    } else if leftlen > len {
      Append(sv, lc, len, leftlen - len);
    } else {
      sv.pv[len] := 0;
    }
  }

  lemma SameTail(now: Bytes, was: Bytes, from: nat, to: nat)
    requires |now| == |was| && from <= to <= |was| && forall j :: from <= j < |was| ==> now[j] == was[j]
    ensures now[from..to] == was[..to][from..]
  {
  }

  /** do_vop once a target other than the left operand has been emptied. */
  method Combine(op: Op, sv: Pv<bv8>, left: Pv<bv8>, right: Pv<bv8>, aligned: bool)
    requires sv.Valid() && left.Valid() && right.Valid()
    requires sv == left || sv.cur == 0
    requires (sv != left ==> sv.pv != left.pv) && (sv != right ==> sv.pv != right.pv)
    modifies sv, sv.pv
    ensures sv.Valid()
    ensures sv.Contents() == Combined(op, old(left.Contents()), old(right.Contents()))
  {
    var leftlen := left.cur;
    var rightlen := right.cur;
    ghost var l, r := left.Contents(), right.Contents();
    var len := if leftlen < rightlen then leftlen else rightlen;
    var lc, rc := left.pv, right.pv;
    Prepare(sv, len);
    assert sv == left || sv == right ==> sv.pv == old(sv.pv);
    ghost var l0, r0 := lc[..], rc[..];
    assert l0[..leftlen] == l && r0[..rightlen] == r;
    Loops(op, sv.pv, lc, rc, len, aligned);
    assert sv.Contents() == seq(len, i requires 0 <= i < len => OpByte(op, l[i], r[i]));
    SameTail(lc[..], l0, len, leftlen);
    SameTail(rc[..], r0, len, rightlen);
    Finish(op, sv, lc, rc, leftlen, rightlen);
  }

  /** do_vop.  The target may be either operand, or both; a target that is only the right operand
      is emptied before the operands are read. */
  method DoVop(op: Op, sv: Pv<bv8>, left: Pv<bv8>, right: Pv<bv8>, aligned: bool)
    requires sv.Valid() && left.Valid() && right.Valid()
    requires (sv != left ==> sv.pv != left.pv) && (sv != right ==> sv.pv != right.pv)
    modifies sv, sv.pv
    ensures sv.Valid()
    ensures sv.Contents() ==
      Combined(op, old(left.Contents()), if sv == right && sv != left then [] else old(right.Contents()))
    ensures left != sv ==> left.Contents() == old(left.Contents())
    ensures right != sv ==> right.Contents() == old(right.Contents())
  {
    if sv != left {
      sv.pv[0] := 0;
      sv.cur := 0;
    }
    Combine(op, sv, left, right, aligned);
  }
}
