/** `byte_swap_inplace`, which src/output/mod.rs and src/hex.rs each
    define with the same body: every whole pair of bytes swaps its two
    bytes, an odd last byte stays where it is. */
module ByteSwap {
  import opened Common

  /** Where the byte at position i of an n-byte stream comes from after
      the swap: its pair partner, or itself when it is the odd last byte. */
  function Partner(i: nat, n: nat): nat
  {
    if i % 2 == 0 then (if i + 1 < n then i + 1 else i) else i - 1
  }

  /** The stream with each whole pair swapped, pair by pair as
      `chunks_exact_mut(2)` visits them. */
  function PairSwapped(s: seq<byte>): (r: seq<byte>)
    decreases |s|
    ensures |r| == |s|
    ensures forall i :: 0 <= i < |s| ==> Partner(i, |s|) < |s| && r[i] == s[Partner(i, |s|)]
  {
    if |s| < 2 then s
    else
      var rest := PairSwapped(s[2..]);
      assert forall i :: 2 <= i < |s| ==> Partner(i, |s|) == Partner(i - 2, |s| - 2) + 2;
      [s[1], s[0]] + rest
  }

  /** A byte's partner's partner is the byte itself. */
  lemma PartnerOfPartner(i: nat, n: nat)
    requires i < n
    ensures Partner(i, n) < n && Partner(Partner(i, n), n) == i
  {
    if i % 2 == 1 {
      assert (i - 1) % 2 == 0;
    } else if i + 1 < n {
      assert (i + 1) % 2 == 1;
    }
  }

  /** Swapping twice gives the stream back. */
  lemma {:induction false} SwapTwiceIsIdentity(s: seq<byte>)
    ensures PairSwapped(PairSwapped(s)) == s
  {
    var t := PairSwapped(s);
    var r := PairSwapped(t);
    forall i | 0 <= i < |s|
      ensures r[i] == s[i]
    {
      PartnerOfPartner(i, |s|);
      assert r[i] == t[Partner(i, |s|)];
    }
  }

  /** An odd last byte is left in place. */
  lemma OddLastByteStays(s: seq<byte>)
    requires |s| % 2 == 1
    ensures PairSwapped(s)[|s| - 1] == s[|s| - 1]
  {
    assert Partner(|s| - 1, |s|) == |s| - 1;
  }

  /** `byte_swap_inplace` on a slice. */
  method ByteSwapInPlace(a: array<byte>)
    modifies a
    ensures a[..] == PairSwapped(old(a[..]))
  {
    var i := 0;
    while i + 1 < a.Length
      invariant 0 <= i <= a.Length && i % 2 == 0
      invariant forall k :: 0 <= k < i ==> Partner(k, a.Length) < i && a[k] == old(a[Partner(k, a.Length)])
      invariant forall k :: i <= k < a.Length ==> a[k] == old(a[k])
      decreases a.Length - i
    {
      a[i], a[i + 1] := a[i + 1], a[i];
      i := i + 2;
    }
    forall k | 0 <= k < a.Length
      ensures a[k] == old(a[..])[Partner(k, a.Length)]
    {
      if k >= i {
        assert Partner(k, a.Length) == k;
      }
    }
    assert a[..] == PairSwapped(old(a[..]));
  }

  /** The swap of a vector's bytes: the vector's slice swapped in place. */
  method SwapBytes(s: seq<byte>) returns (r: seq<byte>)
    ensures r == PairSwapped(s)
  {
    var a := new byte[|s|](i requires 0 <= i < |s| => s[i]);
    assert a[..] == s;
    ByteSwapInPlace(a);
    r := a[..];
  }
}
