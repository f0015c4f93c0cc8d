/**
 What Perl array operations mean on plain sequences, how references are counted in them, and
 the two growth recurrences behind the amortised costs of push and unshift.
 */
module ArraySpec {
  import opened Basics

  type Sv = nat
  const UNDEF: Sv := 0  // the immortal PL_sv_undef

  // ---------------------------------------------------------------- plain sequences

  function Undefs(n: nat): seq<Sv> {
    seq(n, _ => UNDEF)
  }

  function StoreAt(s: seq<Sv>, k: nat, v: Sv): seq<Sv> {
    if k < |s| then s[k := v] else s + Undefs(k - |s|) + [v]
  }

  function Resized(s: seq<Sv>, n: nat): seq<Sv> {
    if n <= |s| then s[..n] else s + Undefs(n - |s|)
  }

  function Trimmed(s: seq<Sv>): seq<Sv> {
    if s != [] && s[|s| - 1] == UNDEF then Trimmed(s[..|s| - 1]) else s
  }

  function DeleteAt(s: seq<Sv>, k: nat): seq<Sv>
    requires k < |s|
  {
    if k == |s| - 1 then Trimmed(s[..k]) else s[k := UNDEF]
  }

  /** What a read of index `j` sees: everything past the end reads as undef. */
  function Elem(s: seq<Sv>, j: nat): Sv {
    if j < |s| then s[j] else UNDEF
  }

  /** A negative index counts from the end. */
  function Index(s: seq<Sv>, key: int): int {
    if key < 0 then key + |s| else key
  }

  /** Trimming drops exactly the trailing undefs. */
  lemma {:induction false} TrimmedMeaning(s: seq<Sv>)
    ensures |Trimmed(s)| <= |s| && Trimmed(s) + Undefs(|s| - |Trimmed(s)|) == s
    ensures Trimmed(s) != [] ==> Trimmed(s)[|Trimmed(s)| - 1] != UNDEF
  {
    if s != [] && s[|s| - 1] == UNDEF {
      TrimmedMeaning(s[..|s| - 1]);
      assert s == s[..|s| - 1] + [UNDEF];
    }
  }

  lemma TrimStep(s: seq<Sv>, i: nat)
    requires i < |s| && s[i] == UNDEF
    ensures Trimmed(s[..i + 1]) == Trimmed(s[..i])
  {
    assert s[..i + 1][..i] == s[..i];
  }

  /** A delete changes what one index reads as, and no other; it leaves no undef at the end
      when it removed the last element. */
  lemma DeleteReads(s: seq<Sv>, k: nat, j: nat)
    requires k < |s|
    ensures Elem(DeleteAt(s, k), j) == if j == k then UNDEF else Elem(s, j)
    ensures |DeleteAt(s, k)| <= |s|
    ensures k == |s| - 1 && DeleteAt(s, k) != [] ==> DeleteAt(s, k)[|DeleteAt(s, k)| - 1] != UNDEF
  {
    if k == |s| - 1 {
      TrimmedReads(s[..k], j);
    }
  }

  lemma TrimmedReads(s: seq<Sv>, j: nat)
    ensures Elem(Trimmed(s), j) == Elem(s, j)
    ensures |Trimmed(s)| <= |s| && (Trimmed(s) != [] ==> Trimmed(s)[|Trimmed(s)| - 1] != UNDEF)
  {
    TrimmedMeaning(s);
    var t := Trimmed(s);
    if j < |s| {
      assert s[j] == (t + Undefs(|s| - |t|))[j];
    }
  }

  /** A store past the end reads as undef in the gap and leaves every other index alone. */
  lemma StoreReads(s: seq<Sv>, k: nat, v: Sv, j: nat)
    ensures Elem(StoreAt(s, k, v), j) == if j == k then v else Elem(s, j)
    ensures |StoreAt(s, k, v)| == if k < |s| then |s| else k + 1
  {
  }

  /** A resize changes no index below the new length, and fills with undefs. */
  lemma ResizeReads(s: seq<Sv>, n: nat, j: nat)
    ensures |Resized(s, n)| == n && Elem(Resized(s, n), j) == if j < n then Elem(s, j) else UNDEF
  {
  }

  /** Each element has two indices, one from the front and one from the end, where -1 is the last. */
  lemma IndexMeaning(s: seq<Sv>, x: Sv, t: seq<Sv>)
    ensures Index(s + [x] + t, |s|) == |s| && Index(s + [x] + t, -1 - |t|) == |s|
  {
  }

  /** A store into a list that reaches as far already. */
  lemma StoreInRoom(s: seq<Sv>, k: nat, v: Sv)
    ensures k < |s| ==> StoreAt(s, k, v) == s[k := v]
    ensures k >= |s| ==> StoreAt(s, k, v) == Resized(s, k + 1)[k := v]
  {
  }

  /** Undefs opened in front in two goes. */
  lemma UndefsSplit(n: nat, i: nat, s: seq<Sv>)
    ensures Undefs(n + i) + s == Undefs(n) + (Undefs(i) + s)
  {
  }

  lemma OneInFront(s: seq<Sv>, t: seq<Sv>, v: Sv)
    requires |t| == |s| + 1 && t[1..] == s
    ensures StoreAt(t, 0, v) == [v] + s
  {
  }

  /** Leaving `slide` of the undefs in front behind. */
  lemma UndefsBehind(num: nat, slide: nat, s: seq<Sv>)
    ensures (Undefs(num + slide) + s)[slide..] == Undefs(num) + s
  {
  }

  /** Reusing head slack gives undefs in front exactly when the slack held undefs. */
  lemma HeadMatters(head: seq<Sv>, s: seq<Sv>, num: nat)
    requires |head| <= num
    ensures Undefs(num - |head|) + (head + s) == Undefs(num) + s <==> head == Undefs(|head|)
  {
    var n := num - |head|;
    var l, r := Undefs(n) + (head + s), Undefs(num) + s;
    assert l[n..num] == head && r[n..num] == Undefs(|head|);
    assert Undefs(num) == Undefs(n) + Undefs(|head|);
    assert r == Undefs(n) + (Undefs(|head|) + s);
  }

  // ---------------------------------------------------------------- reference counts

  /** References to `sv` that a slot holding `x` accounts for; undef is never counted. */
  ghost function Own(x: Sv, sv: Sv): nat {
    if x == sv && x != UNDEF then 1 else 0
  }

  /** References to `sv` that the slots of `s` account for. */
  ghost function Slots(s: seq<Sv>, sv: Sv): nat {
    if s == [] then 0 else Own(s[0], sv) + Slots(s[1..], sv)
  }

  /** `Slots` is multiplicity, except that undef does not count. */
  lemma {:induction false} SlotsMeaning(s: seq<Sv>, sv: Sv)
    ensures Slots(s, sv) == if sv == UNDEF then 0 else multiset(s)[sv]
  {
    if s != [] {
      SlotsMeaning(s[1..], sv);
      assert s == [s[0]] + s[1..];
    }
  }

  lemma {:induction false} SlotsConcat(s: seq<Sv>, t: seq<Sv>, sv: Sv)
    ensures Slots(s + t, sv) == Slots(s, sv) + Slots(t, sv)
  {
    if s == [] {
      assert s + t == t;
    } else {
      SlotsConcat(s[1..], t, sv);
      assert (s + t)[1..] == s[1..] + t;
    }
  }

  lemma {:induction false} SlotsUndefs(n: nat, sv: Sv)
    ensures Slots(Undefs(n), sv) == 0
  {
    if n > 0 {
      SlotsUndefs(n - 1, sv);
      assert Undefs(n)[1..] == Undefs(n - 1);
    }
  }

  lemma SlotsSplit(s: seq<Sv>, k: nat, sv: Sv)
    requires k <= |s|
    ensures Slots(s, sv) == Slots(s[..k], sv) + Slots(s[k..], sv)
  {
    assert s == s[..k] + s[k..];
    SlotsConcat(s[..k], s[k..], sv);
  }

  lemma SlotsUpdate(s: seq<Sv>, k: nat, v: Sv, sv: Sv)
    requires k < |s|
    ensures Slots(s[k := v], sv) + Own(s[k], sv) == Slots(s, sv) + Own(v, sv)
  {
    var t := s[k := v];
    SlotsSplit(s, k, sv);
    SlotsSplit(t, k, sv);
    assert s[..k] == t[..k];
    assert s[k..][1..] == t[k..][1..];
  }

  /** Storing takes over a reference to the new element and gives up the old one. */
  lemma SlotsStore(s: seq<Sv>, k: nat, v: Sv, sv: Sv)
    ensures Slots(StoreAt(s, k, v), sv) + Own(Elem(s, k), sv) == Slots(s, sv) + Own(v, sv)
  {
    if k < |s| {
      SlotsUpdate(s, k, v, sv);
    } else {
      SlotsConcat(s + Undefs(k - |s|), [v], sv);
      SlotsConcat(s, Undefs(k - |s|), sv);
      SlotsUndefs(k - |s|, sv);
    }
  }

  lemma SlotsOfElem(s: seq<Sv>, k: nat, sv: Sv)
    ensures Own(Elem(s, k), sv) <= Slots(s, sv)
  {
    SlotsStore(s, k, UNDEF, sv);
  }

  /** Deleting gives up exactly the deleted element's reference, however much is trimmed. */
  lemma SlotsDelete(s: seq<Sv>, k: nat, sv: Sv)
    requires k < |s|
    ensures Slots(DeleteAt(s, k), sv) + Own(s[k], sv) == Slots(s, sv)
  {
    if k == |s| - 1 {
      var t := Trimmed(s[..k]);
      TrimmedMeaning(s[..k]);
      SlotsConcat(t, Undefs(k - |t|), sv);
      SlotsUndefs(k - |t|, sv);
      SlotsSplit(s, k, sv);
    } else {
      SlotsUpdate(s, k, UNDEF, sv);
    }
  }

  lemma SlotsResized(s: seq<Sv>, n: nat, sv: Sv)
    ensures n <= |s| ==> Slots(Resized(s, n), sv) + Slots(s[n..], sv) == Slots(s, sv)
    ensures n >= |s| ==> Slots(Resized(s, n), sv) == Slots(s, sv)
  {
    if n <= |s| {
      SlotsSplit(s, n, sv);
    }
    if n >= |s| {
      SlotsConcat(s, Undefs(n - |s|), sv);
      SlotsUndefs(n - |s|, sv);
      assert Resized(s, n) == s + Undefs(n - |s|);
    }
  }

  // ---------------------------------------------------------------- growth

  /** The size the doubling loop settles on: `itmp` doubled until `itmp - 16` bytes suffice. */
  function Doubled(itmp: nat, bytes: nat): (r: nat)
    requires itmp >= 16
    ensures r - 16 >= bytes
    ensures r >= itmp
    ensures r > itmp ==> r / 2 - 16 < bytes
    decreases bytes + 16 - itmp
  {
    if itmp - 16 < bytes then Doubled(itmp + itmp, bytes) else itmp
  }

  /** Slots really allocated when `want` are asked for (8-byte pointers, 16 bytes overhead). */
  function GrownSlots(want: nat): nat {
    (Doubled(16, want * 8) - 16) / 8
  }

  /** The allocation is never short, and never more than doubles the request. */
  lemma GrownSlotsBounds(want: nat)
    ensures want <= GrownSlots(want) <= 2 * want + 1
  {
  }

  lemma {:induction false} DoubledIs(j: nat, k: nat, bytes: nat)
    requires j <= k && 16 * Pow2(k) - 16 >= bytes && (j < k ==> 16 * Pow2(k - 1) - 16 < bytes)
    ensures Doubled(16 * Pow2(j), bytes) == 16 * Pow2(k)
    decreases k - j
  {
    if j < k {
      if j < k - 1 {
        Pow2Grows(j, k - 1);
      }
      DoubledIs(j + 1, k, bytes);
    }
  }

  /** The allocation has the fewest slots that suffice among the numbers of the form 2^(k+1) - 2. */
  lemma GrownSlotsExactly(want: nat, k: nat)
    requires want <= Pow2(k + 1) - 2 && (k > 0 ==> want > Pow2(k) - 2)
    ensures GrownSlots(want) == Pow2(k + 1) - 2
  {
    DoubledIs(0, k, want * 8);
  }

  datatype Meter = Meter(slots: nat, copied: nat)

  /** Effect of one push on an unshifted array holding `count` elements. */
  function PushStep(m: Meter, count: nat): Meter {
    if count < m.slots then m
    else if m.slots == 0 then Meter(if count < 3 then 4 else count + 1, m.copied)
    else Meter(GrownSlots(count + (m.slots - 1) / 5 + 1), m.copied + m.slots)
  }

  function AfterPushes(n: nat): Meter {
    if n == 0 then Meter(0, 0) else PushStep(AfterPushes(n - 1), n - 1)
  }

  ghost predicate TwoPower(n: nat) {
    n == 1 || (n > 1 && n % 2 == 0 && TwoPower(n / 2))
  }

  lemma {:induction false} DoubledExact(itmp: nat, bytes: nat, p: nat)
    requires itmp >= 16 && itmp % 16 == 0 && TwoPower(itmp / 16)
    requires p >= itmp && p % 16 == 0 && TwoPower(p / 16)
    requires p - 16 >= bytes && (p == itmp || p / 2 - 16 < bytes)
    ensures Doubled(itmp, bytes) == p
    decreases p - itmp
  {
    if p > itmp {
      TwoPowerGap(itmp / 16, p / 16);
      TwoPowerDouble(itmp / 16);
      assert (itmp + itmp) / 16 == 2 * (itmp / 16);
      DoubledExact(itmp + itmp, bytes, p);
    }
  }

  lemma TwoPowerDouble(a: nat)
    requires TwoPower(a)
    ensures TwoPower(2 * a)
  {
    assert 2 * a / 2 == a;
  }

  /** No power of two lies strictly between another one and its double. */
  lemma {:induction false} TwoPowerGap(a: nat, b: nat)
    requires TwoPower(a) && TwoPower(b) && a < b
    ensures 2 * a <= b
  {
    if a > 1 {
      TwoPowerGap(a / 2, b / 2);
    }
  }

  /** A full buffer of 2^k - 2 slots grows to 2^(k+1) - 2. */
  lemma FullBufferDoubles(slots: nat)
    requires slots >= 6 && TwoPower(slots + 2)
    ensures GrownSlots(slots + (slots - 1) / 5 + 1) == 2 * slots + 2
    ensures TwoPower(2 * slots + 4)
  {
    var p := 16 * slots + 32;
    assert p / 16 == slots + 2;
    DoubledExact(16, (slots + (slots - 1) / 5 + 1) * 8, p);
    assert (2 * slots + 4) / 2 == slots + 2;
  }

  lemma FirstGrowth()
    ensures GrownSlots(5) == 6 && TwoPower(8)
  {
    assert Doubled(16, 40) == Doubled(32, 40) == Doubled(64, 40) == 64;
    assert TwoPower(1) && TwoPower(2) && TwoPower(4);
  }

  ghost predicate PushBudget(m: Meter, n: nat) {
    || (n == 0 && m == Meter(0, 0))
    || (0 < n <= 4 && m == Meter(4, 0))
    || (m.slots >= 6 && TwoPower(m.slots + 2) && m.copied + 2 <= m.slots <= 2 * n && n <= m.slots)
  }

  lemma PushBudgetStep(m: Meter, n: nat)
    requires PushBudget(m, n)
    ensures PushBudget(PushStep(m, n), n + 1)
  {
    if n < m.slots || m.slots == 0 {
    } else if m.slots == 4 {
      FirstGrowth();
      assert PushStep(m, n) == Meter(6, 4);
    } else {
      PushBudgetGrows(m, n);
    }
  }

  lemma PushBudgetGrows(m: Meter, n: nat)
    requires PushBudget(m, n) && m.slots >= 6 && n >= m.slots
    ensures PushBudget(PushStep(m, n), n + 1)
  {
    PushGrows(m, n);
    FullBufferDoubles(m.slots);
  }

  lemma PushGrows(m: Meter, n: nat)
    requires m.slots >= 6 && n == m.slots && TwoPower(m.slots + 2)
    ensures PushStep(m, n) == Meter(2 * m.slots + 2, m.copied + m.slots)
  {
    FullBufferDoubles(m.slots);
  }

  lemma {:induction false} PushBudgetHolds(n: nat)
    ensures PushBudget(AfterPushes(n), n)
  {
    if n > 0 {
      PushBudgetHolds(n - 1);
      PushBudgetStep(AfterPushes(n - 1), n - 1);
    }
  }

  /** Amortised growth: n pushes onto a new array copy at most 2n slots. */
  lemma PushesCopyLinearly(n: nat)
    ensures AfterPushes(n).copied <= 2 * n
    ensures n <= AfterPushes(n).slots
  {
    PushBudgetHolds(n);
  }

  /** One push onto a full buffer of any size, of which `fifth` is a fifth of the highest index: the
      buffer gets the fewest slots of that form that leave room for so many more elements, and all
      its slots are copied. */
  lemma PushOntoFull(m: Meter, count: nat, fifth: nat, k: nat)
    requires 0 < m.slots <= count && 5 * fifth <= m.slots - 1 < 5 * fifth + 5
    requires Pow2(k) - 2 < count + fifth + 1 <= Pow2(k + 1) - 2
    ensures PushStep(m, count) == Meter(Pow2(k + 1) - 2, m.copied + m.slots)
  {
    GrownSlotsExactly(count + fifth + 1, k);
  }

  /** Exactly how far n pushes have come: beyond four elements the buffer has 2^k - 2 slots for the
      least k that will do, and 2^k - 2k + 2 slots have been copied. */
  lemma {:induction false} PushesExactly(n: nat, k: nat)
    requires k >= 3 && n > 4 && (k == 3 || n > Pow2(k - 1) - 2) && n <= Pow2(k) - 2
    ensures AfterPushes(n).slots == Pow2(k) - 2 && AfterPushes(n).copied == Pow2(k) + 2 - 2 * k
  {
    PowerAtLeast(k);
    if n == 5 {
      FifthPush();
    } else if k == 3 || n - 1 > Pow2(k - 1) - 2 {
      PushesExactly(n - 1, k);
    } else {
      PushesExactly(n - 1, k - 1);
      PushOntoFull(AfterPushes(n - 1), n - 1, (n - 2) / 5, k - 1);
    }
  }

  lemma FifthPush()
    ensures AfterPushes(5) == Meter(6, 4)
  {
    FewPushes(4);
    FirstGrowth();
  }

  lemma PowerAtLeast(k: nat)
    requires k >= 3
    ensures Pow2(3) == 8 && (k > 3 ==> Pow2(k - 1) >= 8)
  {
    assert Pow2(0) == 1 && Pow2(1) == 2 && Pow2(2) == 4;
    if k > 4 {
      Pow2Grows(3, k - 1);
    }
  }

  lemma {:induction false} FewPushes(n: nat)
    requires 1 <= n <= 4
    ensures AfterPushes(n) == Meter(4, 0)
  {
    if n > 1 {
      FewPushes(n - 1);
    } else {
      assert AfterPushes(0) == Meter(0, 0);
    }
  }

  datatype Slide = Slide(head: nat, count: nat, slid: nat)

  /** Effect of unshifting one slot. */
  function UnshiftStep(m: Slide): Slide {
    if m.head > 0 then Slide(m.head - 1, m.count + 1, m.slid)
    else Slide(if m.count >= 2 then m.count - 1 else 0, m.count + 1, m.slid + m.count)
  }

  function AfterUnshifts(n: nat): Slide {
    if n == 0 then Slide(0, 0, 0) else UnshiftStep(AfterUnshifts(n - 1))
  }

  /** Amortised sliding: n single-slot unshifts of a new array move at most 2n elements. */
  lemma {:induction false} UnshiftsSlideLinearly(n: nat)
    ensures var m := AfterUnshifts(n);
            m.count == n && m.head <= m.count && m.slid + m.count <= 2 * n + m.head
    ensures AfterUnshifts(n).slid <= 2 * n
  {
    if n > 0 {
      UnshiftsSlideLinearly(n - 1);
    }
  }

  /** The least power of two that is not below n. */
  function PowerFrom(n: nat): (p: nat)
    requires n > 0
    ensures TwoPower(p) && p / 2 < n <= p
  {
    if n == 1 then 1
    else
      var q := PowerFrom(n - 1);
      if n <= q then q else (TwoPowerDouble(q); 2 * q)
  }

  /** Exactly how far n unshifts have come: with p the least power of two that is not below n, p - 1
      elements have been slid and p - n slots of head slack are left. */
  lemma {:induction false} UnshiftsExactly(n: nat)
    requires n > 0
    ensures AfterUnshifts(n) == Slide(PowerFrom(n) - n, n, PowerFrom(n) - 1)
  {
    if n == 1 {
      FirstUnshift();
    } else {
      UnshiftsExactly(n - 1);
      UnshiftGoesOn(n - 1, PowerFrom(n - 1));
    }
  }

  lemma FirstUnshift()
    ensures AfterUnshifts(1) == Slide(0, 1, 0)
  {
    assert AfterUnshifts(0) == Slide(0, 0, 0);
  }

  lemma UnshiftGoesOn(n: nat, p: nat)
    requires 0 < n <= p
    ensures UnshiftStep(Slide(p - n, n, p - 1)) ==
            if n < p then Slide(p - n - 1, n + 1, p - 1) else Slide(n - 1, n + 1, 2 * n - 1)
  {
  }
}
