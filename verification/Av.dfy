/**
 Perl arrays: a sequence kept inside a larger buffer, with slack at both ends.

 The buffer is `alloc`; the live elements are the `fill + 1` slots from `start` on, and the
 buffer ends `max` slots after `start`.  A null AvALLOC is a buffer of length 0.  A REAL array
 owns one reference to every element; a fake one owns nothing and may leave arbitrary values in
 its slack.  A fake REIFY array becomes REAL when it is modified.
 */
module PerlArray {
  import opened ArraySpec

  /** The interpreter's table of reference counts. */
  class SvHeap {
    var refs: map<Sv, nat>

    constructor ()
      ensures refs == map[]
    {
      refs := map[];
    }

    function Cnt(sv: Sv): nat
      reads this
    {
      if sv in refs then refs[sv] else 0
    }

    method Inc(sv: Sv)
      modifies this
      ensures forall x :: Cnt(x) == old(Cnt(x)) + if x == sv then 1 else 0
    {
      refs := refs[sv := Cnt(sv) + 1];
    }

    /** SvREFCNT_dec: undef is immortal, and a count already at 0 stays there. */
    method Dec(sv: Sv)
      modifies this
      ensures forall x :: Cnt(x) == if old(Cnt(x)) == 0 then 0 else old(Cnt(x)) - Own(sv, x)
    {
      if sv != UNDEF && Cnt(sv) > 0 {
        refs := refs[sv := Cnt(sv) - 1];
      }
    }
  }

  class Av {
    var alloc: array<Sv>
    var start: nat
    var max: int
    var fill: int
    var isReal: bool
    var canReify: bool

    ghost var elems: seq<Sv>  // the elements
    ghost var copied: nat  // slots copied by reallocation so far
    ghost var slid: nat    // elements slid by av_unshift so far

    ghost predicate Valid()
      reads this, alloc
    {
      && -1 <= fill <= max
      && alloc.Length == start + max + 1
      && (alloc.Length == 0 ==> start == 0)
      && !(isReal && canReify)
      && (isReal ==> SlackIsUndef())
      && |elems| == fill + 1 && (forall i :: 0 <= i < |elems| ==> elems[i] == alloc[start + i])
    }

    /** Every slot below the start and above the fill holds undef. */
    ghost predicate SlackIsUndef()
      reads this, alloc
    {
      forall i :: 0 <= i < alloc.Length && !(start <= i <= start + fill) ==> alloc[i] == UNDEF
    }

    /** The references to `sv` that the array itself accounts for. */
    ghost function Held(sv: Sv): nat
      requires Valid()
      reads this, alloc
    {
      if isReal then Slots(elems, sv) else 0
    }

    /** Every reference the array accounts for really is counted. */
    ghost predicate Backed(h: SvHeap)
      requires Valid()
      reads this, alloc, h
    {
      forall sv :: Held(sv) <= h.Cnt(sv)
    }

    ghost function Capacity(): Meter
      reads this
    {
      Meter(alloc.Length, copied)
    }

    /** `newAV()`: empty, REAL and unallocated. */
    constructor ()
      ensures Valid() && isReal && elems == []
      ensures start == 0 && Capacity() == Meter(0, 0) && slid == 0
      ensures fresh(alloc)
    {
      alloc := new Sv[0];
      start, max, fill := 0, -1, -1;
      isReal, canReify := true, false;
      elems, copied, slid := [], 0, 0;
    }

    /** av_make: a new REAL array of copies of the given values, in order; `copies` are the
        addresses of the new SVs. */
    constructor Make(h: SvHeap, copies: seq<Sv>)
      requires UNDEF !in copies
      modifies h
      ensures Valid() && isReal && elems == copies
      ensures forall sv :: h.Cnt(sv) == old(h.Cnt(sv)) + Held(sv)
      ensures fresh(alloc)
    {
      alloc := new Sv[|copies|];
      start, max, fill := 0, |copies| - 1, |copies| - 1;
      isReal, canReify := true, false;
      elems, copied, slid := copies, 0, 0;
      new;
      var i := 0;
      while i < |copies|
        invariant 0 <= i <= |copies|
        invariant forall j :: 0 <= j < i ==> alloc[j] == copies[j]
        modifies alloc
      {
        alloc[i] := copies[i];
        i := i + 1;
      }
      TakeReferences(h);
    }

    /** Overwrite `count` slots from `base` on with undef, last slot first. */
    static method UndefSlots(ary: array<Sv>, base: nat, count: nat)
      requires base + count <= ary.Length
      modifies ary
      ensures forall i :: 0 <= i < ary.Length ==>
        ary[i] == if base <= i < base + count then UNDEF else old(ary[i])
    {
      var tmp := count;
      while tmp > 0
        invariant 0 <= tmp <= count
        invariant forall i :: 0 <= i < ary.Length ==>
          ary[i] == if base + tmp <= i < base + count then UNDEF else old(ary[i])
      {
        tmp := tmp - 1;
        ary[base + tmp] := UNDEF;
      }
    }

    /** Take one reference to every element that is not undef. */
    method TakeReferences(h: SvHeap)
      requires Valid()
      modifies h
      ensures forall sv :: h.Cnt(sv) == old(h.Cnt(sv)) + Slots(elems, sv)
    {
      ghost var s := elems;
      var key := fill + 1;
      assert s[key..] == [];
      while key > 0
        invariant 0 <= key <= fill + 1
        invariant forall x :: h.Cnt(x) == old(h.Cnt(x)) + Slots(s[key..], x)
      {
        key := key - 1;
        var sv := alloc[start + key];
        assert sv == s[key];
        if sv != UNDEF {
          h.Inc(sv);
        }
        assert s[key..][1..] == s[key + 1..];
      }
      assert s[0..] == s;
    }

    /** av_reify: clear the slack, take a reference to every element, become REAL. */
    method Reify(h: SvHeap)
      requires Valid()
      modifies `isReal, `canReify, alloc, h
      ensures Valid() && isReal
      ensures alloc == old(alloc) && start == old(start) && max == old(max) && fill == old(fill)
      ensures slid == old(slid) && copied == old(copied)
      ensures elems == old(elems)
      ensures forall sv :: h.Cnt(sv) + old(Held(sv)) == old(h.Cnt(sv)) + Held(sv)
    {
      if isReal { return; }
      UndefSlots(alloc, start + fill + 1, max - fill);
      TakeReferences(h);
      UndefSlots(alloc, 0, start);
      canReify := false;
      isReal := true;
    }

    /** The doubling loop that sizes an allocation. */
    method RoundUp(newmax: nat) returns (r: nat)
      ensures r + 1 == GrownSlots(newmax + 1)
      ensures r >= newmax
    {
      var bytes := (newmax + 1) * 8;
      var itmp := 16;
      while itmp - 16 < bytes
        invariant itmp >= 16
        invariant Doubled(itmp, bytes) == Doubled(16, bytes)
        decreases bytes + 16 - itmp
      {
        itmp := itmp + itmp;
      }
      GrownSlotsBounds(newmax + 1);
      itmp := itmp - 16;
      itmp := itmp / 8;
      assert itmp > newmax;
      r := itmp - 1;
    }

    /** A larger buffer with the same slots at its beginning. */
    method Reallocated(newmax: nat) returns (ary: array<Sv>)
      requires Valid() && start == 0 && max <= newmax
      ensures fresh(ary) && ary.Length == newmax + 1
      ensures forall i :: 0 <= i <= max ==> ary[i] == alloc[i]
      ensures isReal ==> forall i :: max < i <= newmax ==> ary[i] == UNDEF
    {
      ary := new Sv[newmax + 1];
      forall i | 0 <= i <= max {
        ary[i] := alloc[i];
      }
      if isReal {
        UndefSlots(ary, max + 1, newmax - max);
      }
    }

    /** The `resize:` part of av_extend. */
    method Resize(want: nat)
      requires Valid() && start == 0 && max <= want && alloc.Length > 0
      modifies this
      ensures Valid() && start == 0 && max >= want && fresh(alloc)
      ensures fill == old(fill) && isReal == old(isReal) && canReify == old(canReify) && slid == old(slid)
      ensures Capacity() == Meter(GrownSlots(want + 1), old(copied) + old(alloc.Length))
      ensures elems == old(elems)
    {
      var newmax := RoundUp(want);
      assert newmax >= max;
      copied := copied + (max + 1);
      alloc := Reallocated(newmax);
      max := newmax;
    }

    /** The first branch of av_extend: slide the elements down to the allocation base. */
    method MoveToBase()
      requires Valid() && start != 0
      modifies this, alloc
      ensures Valid() && start == 0 && alloc == old(alloc) && max == old(max) + old(start)
      ensures fill == old(fill) && isReal == old(isReal) && canReify == old(canReify) && slid == old(slid)
      ensures copied == old(copied) && elems == old(elems)
    {
      forall i | 0 <= i <= fill {
        alloc[i] := alloc[start + i];
      }
      assert forall i :: 0 <= i < |elems| ==> alloc[i] == elems[i];
      max := max + start;
      if isReal {
        UndefSlots(alloc, fill + 1, start);
      }
      start := 0;
    }

    /** av_extend: make room for index `key`; the elements do not change. */
    method Extend(key: int)
      requires Valid()
      modifies this, alloc
      ensures Valid() && max >= key
      ensures alloc == old(alloc) || fresh(alloc)
      ensures fill == old(fill) && isReal == old(isReal) && canReify == old(canReify) && slid == old(slid)
      ensures elems == old(elems)
      ensures key > old(max) ==> start == 0
      ensures key <= old(max) ==>
        start == old(start) && max == old(max) && alloc == old(alloc) && copied == old(copied)
      ensures old(start) == 0 && key == old(fill) + 1 ==> Capacity() == PushStep(old(Capacity()), key)
    {
      if key > max {
        if start != 0 {
          MoveToBase();
          if key > max - 10 {
            Resize(key + max);
          }
        } else if alloc.Length != 0 {
          Resize(key + max / 5);
        } else {
          var newmax := if key < 3 then 3 else key;
          alloc := new Sv[newmax + 1];
          alloc[0] := UNDEF;
          if isReal {
            UndefSlots(alloc, 1, newmax);
          }
          max := newmax;
        }
      }
    }

    /** Raise the highest index within the buffer: the slack that becomes elements is undef in a REAL
        array, and is cleared in any other. */
    method Grow(k: nat)
      requires Valid() && fill <= k <= max
      modifies `fill, `elems, alloc
      ensures Valid() && alloc == old(alloc) && fill == k
      ensures elems == Resized(old(elems), k + 1)
    {
      if !isReal {
        UndefSlots(alloc, start + fill + 1, k - fill);
      }
      fill := k;
      elems := Resized(elems, k + 1);
    }

    /** The end of av_store, once there is room: fill the gap or release the old element. */
    method Put(h: SvHeap, k: nat, val: Sv)
      requires Valid() && k <= max
      modifies `fill, `elems, alloc, h
      ensures Valid() && alloc == old(alloc) && start == old(start) && max == old(max)
      ensures isReal == old(isReal) && canReify == old(canReify) && slid == old(slid) && copied == old(copied)
      ensures elems == StoreAt(old(elems), k, val)
      ensures isReal ==> forall x ::
        h.Cnt(x) == if old(h.Cnt(x)) == 0 then 0 else old(h.Cnt(x)) - Own(Elem(old(elems), k), x)
      ensures !isReal ==> forall x :: h.Cnt(x) == old(h.Cnt(x))
    {
      ghost var s := elems;
      if fill < k {
        Grow(k);
      } else if isReal {
        h.Dec(alloc[start + k]);
      }
      SetSlot(k, val);
      StoreInRoom(s, k, val);
    }

    method SetSlot(k: nat, val: Sv)
      requires Valid() && k <= fill
      modifies `elems, alloc
      ensures Valid() && elems == old(elems)[k := val]
    {
      alloc[start + k] := val;
      elems := elems[k := val];
    }

    /** av_store at an index already counted from the start. */
    method StoreIndex(h: SvHeap, k: nat, val: Sv)
      requires Valid() && Backed(h)
      modifies this, alloc, h
      ensures Valid() && (alloc == old(alloc) || fresh(alloc)) && slid == old(slid)
      ensures elems == StoreAt(old(elems), k, val)
      ensures isReal == old(isReal || canReify)
      ensures isReal ==> forall sv :: h.Cnt(sv) + old(Held(sv)) + Own(val, sv) == old(h.Cnt(sv)) + Held(sv)
      ensures !isReal ==> forall sv :: h.Cnt(sv) == old(h.Cnt(sv))
      ensures old(start) == 0 && k == old(fill) + 1 ==>
        start == 0 && Capacity() == PushStep(old(Capacity()), k)
      ensures k <= old(max) ==> start == old(start) && max == old(max) && alloc == old(alloc)
    {
      ghost var s := elems;
      if !isReal && canReify {
        Reify(h);
      }
      if k > max {
        Extend(k);
      }
      forall sv ensures Slots(StoreAt(s, k, val), sv) + Own(Elem(s, k), sv) == Slots(s, sv) + Own(val, sv)
                        && Own(Elem(s, k), sv) <= Slots(s, sv) {
        SlotsStore(s, k, val, sv);
        SlotsOfElem(s, k, sv);
      }
      Put(h, k, val);
    }

    /** av_store: put `val` at index `key`, growing the array as needed.  The array takes over
        the caller's reference to `val`; a null `val` is passed as UNDEF. */
    method Store(h: SvHeap, key: int, val: Sv) returns (ok: bool)
      requires Valid() && Backed(h)
      modifies this, alloc, h
      ensures Valid() && (alloc == old(alloc) || fresh(alloc)) && slid == old(slid)
      ensures ok <==> Index(old(elems), key) >= 0
      ensures ok ==> elems == StoreAt(old(elems), Index(old(elems), key), val)
      ensures ok ==> isReal == old(isReal || canReify)
      ensures ok && isReal ==> forall sv :: h.Cnt(sv) + old(Held(sv)) + Own(val, sv) == old(h.Cnt(sv)) + Held(sv)
      ensures !(ok && isReal) ==> forall sv :: h.Cnt(sv) == old(h.Cnt(sv))
      ensures !ok ==> elems == old(elems) && isReal == old(isReal) && canReify == old(canReify)
    {
      var k := key;
      if k < 0 {
        k := k + (fill + 1);
        if k < 0 { return false; }
      }
      StoreIndex(h, k, val);
      ok := true;
    }

    /** av_fetch: the slot for `key`, or not found.  With `lval` a missing or undef element is
        first replaced by a new SV, whose address is `newSv`. */
    method Fetch(h: SvHeap, key: int, lval: bool, newSv: Sv) returns (found: bool, k: int)
      requires Valid() && Backed(h) && newSv != UNDEF
      modifies this, alloc, h
      ensures Valid() && (alloc == old(alloc) || fresh(alloc))
      ensures k == Index(old(elems), key)
      ensures found <==> 0 <= k && (lval || k < |old(elems)|)
      ensures found ==> k < |elems|
      ensures found && lval && Elem(old(elems), k) == UNDEF ==> elems == StoreAt(old(elems), k, newSv)
      ensures !(found && lval && Elem(old(elems), k) == UNDEF) ==> elems == old(elems)
      ensures found && lval ==> elems[k] != UNDEF
      ensures found && lval && old(Elem(elems, Index(elems, key))) == UNDEF && isReal ==>
        forall sv :: h.Cnt(sv) + old(Held(sv)) + Own(newSv, sv) == old(h.Cnt(sv)) + Held(sv)
      ensures !(found && lval && isReal && old(Elem(elems, Index(elems, key))) == UNDEF) ==>
        forall sv :: h.Cnt(sv) == old(h.Cnt(sv))
    {
      k := key;
      if k < 0 {
        k := k + (fill + 1);
        if k < 0 { return false, k; }
      }
      if k > fill {
        if !lval { return false, k; }
        StoreIndex(h, k, newSv);
        return true, k;
      }
      if lval && alloc[start + k] == UNDEF {
        StoreIndex(h, k, newSv);
      }
      found := true;
    }

    /** av_exists: the index holds something other than undef. */
    method Exists(key: int) returns (r: bool)
      requires Valid()
      ensures var k := Index(elems, key); r <==> 0 <= k && Elem(elems, k) != UNDEF
    {
      var k := key;
      if k < 0 {
        k := k + (fill + 1);
        if k < 0 { return false; }
      }
      r := k <= fill && alloc[start + k] != UNDEF;
    }

    method Push(h: SvHeap, val: Sv)
      requires Valid() && Backed(h)
      modifies this, alloc, h
      ensures Valid() && (alloc == old(alloc) || fresh(alloc)) && slid == old(slid)
      ensures elems == old(elems) + [val]
      ensures isReal == old(isReal || canReify)
      ensures isReal ==> forall sv :: h.Cnt(sv) + old(Held(sv)) + Own(val, sv) == old(h.Cnt(sv)) + Held(sv)
      ensures !isReal ==> forall sv :: h.Cnt(sv) == old(h.Cnt(sv))
      ensures old(start) == 0 ==> start == 0 && Capacity() == PushStep(old(Capacity()), |old(elems)|)
    {
      ghost var s := elems;
      StoreIndex(h, fill + 1, val);
      assert StoreAt(s, |s|, val) == s + [val];
    }

    /** Pushing a list onto a new array, each value with a reference to give: all of it together
        copies at most two slots per value through reallocation. */
    method PushAll(h: SvHeap, vals: seq<Sv>)
      requires Valid() && isReal && elems == [] && start == 0 && Capacity() == Meter(0, 0)
      requires forall sv :: Slots(vals, sv) <= h.Cnt(sv)
      modifies this, alloc, h
      ensures Valid() && elems == vals && copied <= 2 * |vals|
      ensures forall sv :: h.Cnt(sv) == old(h.Cnt(sv))
    {
      var i := 0;
      while i < |vals|
        invariant 0 <= i <= |vals| && Valid() && isReal && (alloc == old(alloc) || fresh(alloc))
        invariant elems == vals[..i] && start == 0 && Capacity() == AfterPushes(i)
        invariant forall sv :: h.Cnt(sv) == old(h.Cnt(sv))
      {
        forall sv ensures Slots(vals[..i], sv) <= Slots(vals, sv)
                  ensures Slots(vals[..i + 1], sv) == Slots(vals[..i], sv) + Own(vals[i], sv) {
          SlotsSplit(vals, i, sv);
          assert vals[..i + 1] == vals[..i] + [vals[i]];
          SlotsConcat(vals[..i], [vals[i]], sv);
        }
        Push(h, vals[i]);
        i := i + 1;
      }
      assert vals[..i] == vals;
      PushesCopyLinearly(|vals|);
    }

    /** av_pop: the array's reference to the element passes to the caller. */
    method Pop() returns (r: Sv)
      requires Valid()
      modifies `fill, `elems, alloc
      ensures Valid() && isReal == old(isReal)
      ensures old(elems) == [] ==> r == UNDEF && elems == []
      ensures old(elems) != [] ==> old(elems) == elems + [r]
      ensures isReal ==> forall sv :: Held(sv) + Own(r, sv) == old(Held(sv))
    {
      if fill < 0 { return UNDEF; }
      ghost var s := elems;
      r := alloc[start + fill];
      alloc[start + fill] := UNDEF;
      fill := fill - 1;
      elems := s[..|s| - 1];
      assert s == elems + [r];
      forall sv ensures Slots(s, sv) == Slots(elems, sv) + Own(r, sv) {
        SlotsConcat(elems, [r], sv);
      }
    }

    /** av_shift: the array's reference to the element passes to the caller; the slot becomes
        head slack. */
    method Shift() returns (r: Sv)
      requires Valid()
      modifies `start, `max, `fill, `elems, alloc
      ensures Valid() && isReal == old(isReal)
      ensures old(elems) == [] ==> r == UNDEF && elems == [] && start == old(start)
      ensures old(elems) != [] ==> old(elems) == [r] + elems && start == old(start) + 1
      ensures start > old(start) && !isReal ==> alloc[old(start)] == r
      ensures isReal ==> forall sv :: Held(sv) + Own(r, sv) == old(Held(sv))
    {
      if fill < 0 { return UNDEF; }
      ghost var s := elems;
      r := alloc[start];
      if isReal {
        alloc[start] := UNDEF;
      }
      start := start + 1;
      max := max - 1;
      fill := fill - 1;
      elems := s[1..];
      assert s == [r] + elems;
      forall sv ensures Slots(s, sv) == Own(r, sv) + Slots(elems, sv) {
        SlotsConcat([r], elems, sv);
      }
    }

    ghost function Sliding(): Slide
      requires Valid()
      reads this, alloc
    {
      Slide(start, |elems|, slid)
    }

    /** How many slots of head slack av_unshift reuses. */
    ghost function Reused(num: int): nat
      reads this
    {
      if num <= 0 then 0 else if start > num then num else start
    }

    /** The head slack that av_unshift would reuse holds only undef. */
    ghost predicate HeadIsUndef(num: int)
      requires Valid()
      reads this, alloc
    {
      alloc[start - Reused(num)..start] == Undefs(Reused(num))
    }

    /** Move the elements up by `n` slots and clear the slots they leave. */
    method SlideUp(n: nat)
      requires Valid() && start == 0 && fill + n <= max
      modifies `fill, `slid, `elems, alloc
      ensures Valid() && fill == old(fill) + n && slid == old(slid) + |old(elems)|
      ensures forall j :: 0 <= j < n ==> alloc[j] == UNDEF
      ensures elems == Undefs(n) + old(elems)
    {
      forall j | 0 <= j <= fill {
        alloc[n + j] := alloc[j];
      }
      slid := slid + (fill + 1);
      fill := fill + n;
      UndefSlots(alloc, 0, n);
      assert forall j :: 0 <= j < |elems| ==> alloc[n + j] == elems[j];
      elems := Undefs(n) + elems;
    }

    /** The second half of av_unshift: open `num` slots in front and as many again behind them. */
    method OpenFront(num: nat)
      requires Valid() && start == 0 && num > 0
      modifies this, alloc
      ensures Valid() && (alloc == old(alloc) || fresh(alloc))
      ensures isReal == old(isReal) && canReify == old(canReify)
      ensures elems == Undefs(num) + old(elems)
      ensures start == (if old(fill) > 0 then old(fill) else 0)
      ensures slid == old(slid) + |old(elems)|
    {
      ghost var s := elems;
      var i := fill;
      var slide := if i > 0 then i else 0;
      var n := num + slide;
      Extend(i + n);
      SlideUp(n);
      UndefsBehind(num, slide, s);
      LeaveHead(slide);
    }

    /** Leave `slide` cleared slots in front as head slack. */
    method LeaveHead(slide: nat)
      requires Valid() && start == 0 && slide <= fill && forall j :: 0 <= j < slide ==> alloc[j] == UNDEF
      modifies `start, `max, `fill, `elems
      ensures Valid() && start == slide && fill == old(fill) - slide && elems == old(elems)[slide..]
    {
      elems := elems[slide..];
      max := max - slide;
      fill := fill - slide;
      start := slide;
    }

    /** The first half of av_unshift: take `i` slots of head slack back as elements. */
    method ReuseHead(i: nat)
      requires Valid() && i <= start
      modifies `start, `max, `fill, `elems
      ensures Valid() && start == old(start) - i
      ensures elems == old(alloc[start - i..start]) + old(elems)
      ensures isReal ==> old(alloc[start - i..start]) == Undefs(i)
    {
      elems := alloc[start - i..start] + elems;
      max := max + i;
      fill := fill + i;
      start := start - i;
    }

    /** av_unshift of an array that needs no reification. */
    method UnshiftSlots(num: nat)
      requires Valid() && num > 0
      modifies this, alloc
      ensures Valid() && (alloc == old(alloc) || fresh(alloc))
      ensures isReal == old(isReal) && canReify == old(canReify)
      ensures var reused := old(Reused(num));
              elems == Undefs(num - reused) + (old(alloc[start - reused..start]) + old(elems))
      ensures old(isReal) ==> elems == Undefs(num) + old(elems)
      ensures num == 1 ==> Sliding() == UnshiftStep(old(Sliding()))
    {
      ghost var s, head := elems, alloc[start - Reused(num)..start];
      var n := ReuseSome(num);
      if n != 0 {
        OpenFront(n);
      }
      if isReal {
        UndefsSplit(n, |head|, s);
      }
    }

    /** As much of the head slack as there is and is wanted; `n` slots are still to be opened. */
    method ReuseSome(num: nat) returns (n: nat)
      requires Valid() && num > 0
      modifies `start, `max, `fill, `elems
      ensures Valid() && n == num - old(Reused(num)) && start == old(start) - old(Reused(num))
      ensures elems == old(alloc[start - Reused(num)..start]) + old(elems)
      ensures isReal ==> old(alloc[start - Reused(num)..start]) == Undefs(old(Reused(num)))
    {
      var i := start;
      n := num;
      if i != 0 {
        if i > n { i := n; }
        n := n - i;
        ReuseHead(i);
      }
    }

    /** av_unshift.  The new elements are all undef exactly when the array is REAL or REIFY, or
        the head slack it reuses happens to hold undef: a fake array that was shifted before
        gets its old elements back. */
    method Unshift(h: SvHeap, num: int)
      requires Valid()
      modifies this, alloc, h
      ensures Valid() && (alloc == old(alloc) || fresh(alloc))
      ensures num <= 0 ==> elems == old(elems) && isReal == old(isReal)
      ensures num > 0 ==> isReal == old(isReal || canReify)
      ensures !isReal ==> canReify == old(canReify)
      ensures num > 0 && isReal ==> elems == Undefs(num) + old(elems)
      ensures num > 0 && !isReal ==>
        elems == Undefs(num - old(Reused(num))) + (old(alloc[start - Reused(num)..start]) + old(elems))
      ensures num > 0 ==>
        (elems == Undefs(num) + old(elems) <==> old(isReal || canReify || HeadIsUndef(num)))
      ensures forall sv :: h.Cnt(sv) + old(Held(sv)) == old(h.Cnt(sv)) + Held(sv)
      ensures num == 1 ==> Sliding() == UnshiftStep(old(Sliding()))
    {
      if num <= 0 { return; }
      ghost var s := elems;
      if !isReal && canReify {
        Reify(h);
      }
      ghost var head := alloc[start - Reused(num)..start];
      UnshiftSlots(num);
      if isReal {
        forall sv ensures Slots(Undefs(num) + s, sv) == Slots(s, sv) {
          SlotsConcat(Undefs(num), s, sv);
          SlotsUndefs(num, sv);
        }
      } else {
        HeadMatters(head, s, num);
      }
    }

    /** Unshifting `n` slots one by one into a new array slides at most two elements for each. */
    method UnshiftOneByOne(h: SvHeap, n: nat)
      requires Valid() && isReal && elems == [] && start == 0 && slid == 0
      modifies this, alloc, h
      ensures Valid() && elems == Undefs(n) && slid <= 2 * n
      ensures forall sv :: h.Cnt(sv) == old(h.Cnt(sv))
    {
      var i := 0;
      while i < n
        invariant 0 <= i <= n && Valid() && isReal && (alloc == old(alloc) || fresh(alloc))
        invariant elems == Undefs(i) && Sliding() == AfterUnshifts(i)
        invariant forall sv :: h.Cnt(sv) == old(h.Cnt(sv))
      {
        Unshift(h, 1);
        i := i + 1;
        forall sv ensures Slots(Undefs(i - 1), sv) == Slots(Undefs(i), sv) {
          SlotsUndefs(i - 1, sv);
          SlotsUndefs(i, sv);
        }
      }
      UnshiftsSlideLinearly(n);
    }

    /** Shifting a fake array and unshifting one slot: the shifted element is back, where a REAL or
        REIFY array would have undef. */
    method ShiftThenUnshift(h: SvHeap)
      requires Valid() && !isReal && !canReify && elems != []
      modifies this, alloc, h
      ensures Valid() && elems == old(elems)
    {
      var r := Shift();
      assert alloc[start - 1..start] == [r];
      Unshift(h, 1);
      assert Undefs(0) == [];
    }

    /** av_create_and_unshift_one: unlike a bare unshift this is right for every array, since
        the store overwrites the one slot that was opened. */
    method UnshiftOne(h: SvHeap, val: Sv)
      requires Valid() && Backed(h)
      modifies this, alloc, h
      ensures Valid() && (alloc == old(alloc) || fresh(alloc))
      ensures elems == [val] + old(elems)
      ensures isReal == old(isReal || canReify)
      ensures isReal ==> forall sv :: h.Cnt(sv) + old(Held(sv)) + Own(val, sv) == old(h.Cnt(sv)) + Held(sv)
    {
      ghost var s := elems;
      Unshift(h, 1);
      ghost var t := elems;
      OneInFront(s, t, val);
      StoreIndex(h, 0, val);
    }

    /** SvREFCNT_dec on the elements from index `lo` on, last first. */
    method Release(h: SvHeap, lo: nat)
      requires Valid() && lo <= fill + 1 && isReal && Backed(h)
      modifies h
      ensures forall sv :: h.Cnt(sv) + Slots(elems[lo..], sv) == old(h.Cnt(sv))
    {
      ghost var s := elems;
      var key := fill;
      ghost var none := s[key + 1..];
      assert none == [] && forall x :: Slots(none, x) == 0;
      while key >= lo
        invariant lo - 1 <= key <= fill
        invariant forall x :: h.Cnt(x) + Slots(s[key + 1..], x) == old(h.Cnt(x))
      {
        assert s[key..][1..] == s[key + 1..];
        forall x ensures Own(s[key], x) + Slots(s[key + 1..], x) <= Slots(s, x) {
          SlotsSplit(s, key, x);
        }
        assert s[key] == alloc[start + key];
        h.Dec(alloc[start + key]);
        key := key - 1;
      }
    }

    /** av_fill: set the highest index. */
    method Fill(h: SvHeap, newFill: int)
      requires Valid() && Backed(h)
      modifies this, alloc, h
      ensures Valid() && (alloc == old(alloc) || fresh(alloc))
      ensures elems == Resized(old(elems), if newFill < 0 then 0 else newFill + 1)
      ensures isReal == old(isReal || (canReify && newFill > max))
      ensures forall sv :: h.Cnt(sv) + old(Held(sv)) == old(h.Cnt(sv)) + Held(sv)
    {
      ghost var s := elems;
      var f := if newFill < 0 then -1 else newFill;
      forall sv ensures f < |s| ==> Slots(Resized(s, f + 1), sv) + Slots(s[f + 1..], sv) == Slots(s, sv)
                ensures f >= |s| ==> Slots(Resized(s, f + 1), sv) == Slots(s, sv) {
        SlotsResized(s, f + 1, sv);
      }
      if f <= max {
        ResizeWithin(h, f);
      } else {
        assert StoreAt(s, f, UNDEF) == Resized(s, f + 1);
        StoreIndex(h, f, UNDEF);
      }
    }

    /** The first branch of av_fill: the new highest index is within the buffer. */
    method ResizeWithin(h: SvHeap, f: int)
      requires Valid() && Backed(h) && -1 <= f <= max
      modifies `fill, `elems, alloc, h
      ensures Valid() && fill == f && elems == Resized(old(elems), f + 1)
      ensures isReal && f < old(fill) ==>
        forall sv :: h.Cnt(sv) + Slots(old(elems)[f + 1..], sv) == old(h.Cnt(sv))
      ensures !(isReal && f < old(fill)) ==> forall sv :: h.Cnt(sv) == old(h.Cnt(sv))
    {
      if fill < f {
        Grow(f);
      } else {
        if isReal && fill > f {
          Release(h, f + 1);
        }
        Shrink(f);
      }
    }

    /** Lower the highest index; a REAL array clears the slots that become slack. */
    method Shrink(f: int)
      requires Valid() && -1 <= f <= fill
      modifies `fill, `elems, alloc
      ensures Valid() && fill == f && elems == Resized(old(elems), f + 1)
    {
      if isReal && fill > f {
        UndefSlots(alloc, start + f + 1, fill - f);
      }
      fill := f;
      elems := elems[..f + 1];
    }

    /** av_delete.  The deleted element is returned (its reference passes to the temporaries) or,
        with `discard`, released.  The release is wrong exactly when the array is fake: it then
        takes away a reference the array never held. */
    method Delete(h: SvHeap, key: int, discard: bool) returns (deleted: bool, r: Sv)
      requires Valid() && Backed(h)
      modifies this, alloc, h
      ensures Valid() && alloc == old(alloc)
      ensures var k := Index(old(elems), key);
              && (deleted <==> 0 <= k < |old(elems)|)
              && (deleted ==> elems == DeleteAt(old(elems), k))
              && (deleted && !discard ==> r == old(elems)[k])
              && (deleted && !discard && isReal ==>
                  forall sv :: h.Cnt(sv) + old(Held(sv)) == old(h.Cnt(sv)) + Held(sv) + Own(r, sv))
              && (deleted && discard ==>
                  ((forall sv :: h.Cnt(sv) + old(Held(sv)) == old(h.Cnt(sv)) + Held(sv)) <==>
                   old(isReal || canReify || elems[k] == UNDEF || h.Cnt(elems[k]) == 0)))
      ensures !deleted ==> elems == old(elems) && isReal == old(isReal) && canReify == old(canReify)
      ensures !deleted || (!isReal && !discard) ==> forall sv :: h.Cnt(sv) == old(h.Cnt(sv))
      ensures deleted ==> isReal == old(isReal || canReify)
    {
      var k := key;
      r := UNDEF;
      if k < 0 {
        k := k + (fill + 1);
        if k < 0 { return false, r; }
      }
      if k > fill { return false, r; }
      deleted := true;
      var sv := TakeOut(h, k);
      if discard {
        h.Dec(sv);
      } else {
        r := sv;
      }
    }

    /** The element at `k` leaves the array, and its reference with it if the array held one. */
    method TakeOut(h: SvHeap, k: nat) returns (sv: Sv)
      requires Valid() && Backed(h) && k <= fill
      modifies this, alloc, h
      ensures Valid() && alloc == old(alloc) && isReal == old(isReal || canReify)
      ensures sv == old(elems)[k] && elems == DeleteAt(old(elems), k)
      ensures isReal ==>
        forall x :: h.Cnt(x) + old(Held(x)) == old(h.Cnt(x)) + Held(x) + Own(sv, x) && Own(sv, x) <= h.Cnt(x)
      ensures !isReal ==> forall x :: h.Cnt(x) == old(h.Cnt(x))
    {
      ghost var s := elems;
      if !isReal && canReify {
        Reify(h);
      }
      sv := alloc[start + k];
      assert sv == elems[k];
      RemoveAt(k);
      forall x ensures Slots(DeleteAt(s, k), x) + Own(s[k], x) == Slots(s, x) {
        SlotsDelete(s, k, x);
      }
    }

    /** Drop the last element and every undef before it. */
    method DropLast()
      requires Valid() && fill >= 0 && alloc[start + fill] == UNDEF
      modifies `fill, `elems
      ensures Valid() && elems == Trimmed(old(elems)[..old(fill)])
    {
      ghost var s := elems;
      assert s[fill] == UNDEF;
      var i := fill - 1;
      fill := fill - 1;
      while i >= 0 && alloc[start + i] == UNDEF
        invariant -1 <= i == fill < |s| - 1
        invariant isReal ==> SlackIsUndef()
        invariant Trimmed(s[..|s| - 1]) == Trimmed(s[..i + 1])
      {
        assert s[i] == alloc[start + i];
        TrimStep(s, i);
        fill := fill - 1;
        i := i - 1;
      }
      assert i >= 0 ==> s[..i + 1][i] == alloc[start + i];
      elems := s[..i + 1];
    }

    /** The slot updates of av_delete: undef the slot, and trim if it was the last. */
    method RemoveAt(k: nat)
      requires Valid() && k <= fill
      modifies `fill, `elems, alloc
      ensures Valid() && elems == DeleteAt(old(elems), k)
    {
      ghost var s := elems;
      alloc[start + k] := UNDEF;
      elems := s[k := UNDEF];
      if k == fill {
        assert s[k := UNDEF][..k] == s[..k];
        DropLast();
      }
    }

    /** av_clear: keeps the buffer, gives the head slack back to the tail. */
    method Clear(h: SvHeap)
      requires Valid() && Backed(h)
      modifies this, alloc, h
      ensures Valid() && alloc == old(alloc)
      ensures elems == [] && isReal == old(isReal) && canReify == old(canReify)
      ensures old(max) >= 0 ==> start == 0
      ensures forall sv :: h.Cnt(sv) + old(Held(sv)) == old(h.Cnt(sv)) + Held(sv)
    {
      if max < 0 { return; }
      assert elems[0..] == elems;
      if isReal {
        Release(h, 0);
        UndefSlots(alloc, start, fill + 1);
      }
      max := max + start;
      start := 0;
      fill := -1;
      elems := [];
    }

    /** av_undef: also frees the buffer. */
    method Undef(h: SvHeap)
      requires Valid() && Backed(h)
      modifies this, h
      ensures Valid() && fresh(alloc) && alloc.Length == 0
      ensures elems == [] && isReal == old(isReal) && canReify == old(canReify)
      ensures forall sv :: h.Cnt(sv) + old(Held(sv)) == old(h.Cnt(sv)) + Held(sv)
    {
      assert elems[0..] == elems;
      if isReal {
        Release(h, 0);
      }
      alloc := new Sv[0];
      start := 0;
      max, fill := -1, -1;
      elems := [];
    }
  }
}
