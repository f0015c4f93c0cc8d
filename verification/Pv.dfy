/** String buffers: an allocated block of which the first `cur` bytes (of type B) are the string. */
module StringBuffer {

  type Bytes = seq<bv8>                   // where bits matter
  type Octet = n: nat | n < 0x100         // where values matter
  type Text = seq<Octet>

  /** A string with zero bytes after its end. */
  function At(s: Bytes, i: nat): bv8 {
    if i < |s| then s[i] else 0
  }

  class Pv<B(0)> {
    var pv: array<B>
    var cur: nat

    /** There is always room for the trailing NUL. */
    ghost predicate Valid()
      reads this
    {
      cur < pv.Length
    }

    ghost function Contents(): seq<B>
      requires Valid()
      reads this, pv
    {
      pv[..cur]
    }

    constructor (s: seq<B>, nul: B)
      ensures Valid() && Contents() == s && fresh(pv)
    {
      var a := new B[|s| + 1];
      forall i | 0 <= i < |s| {
        a[i] := s[i];
      }
      a[|s|] := nul;
      pv := a;
      cur := |s|;
    }

    /** SvGROW: a larger block if this one is too small, the old bytes kept. */
    method Grow(n: nat)
      requires Valid()
      modifies `pv
      ensures Valid() && pv.Length >= n && (pv == old(pv) || fresh(pv))
      ensures old(pv.Length) >= n ==> pv == old(pv)
      ensures Contents() == old(Contents())
    {
      if pv.Length < n {
        var a := new B[n];
        forall i | 0 <= i < cur {
          a[i] := pv[i];
        }
        pv := a;
      }
    }
  }
}
