/** Sequence numbers and AEAD nonces: the big-endian counter of a connection half, the
    two wrappers that make nonces from it, and why no nonce is ever used twice.
 */
module Nonce {
  import opened Wire
  import opened Padding

  const SEQ_BYTES := 8
  const NONCE_BYTES := 12

  // ---------------------------------------------------------------- the counter

  /** The number that big-endian bytes stand for. */
  function Number(s: Octets): nat {
    if s == [] then 0 else Number(s[..|s| - 1]) * 256 + s[|s| - 1] as int
  }

  function Limit(n: nat): nat { if n == 0 then 1 else Limit(n - 1) * 256 }

  /** The next counter value; `None` stands for the panic on wrap-around. */
  function Increment(s: Octets): Option<Octets> {
    if s == [] then None
    else
      var last := s[|s| - 1] + 1;
      if last != 0 then Some(s[..|s| - 1] + [last])
      else
        var front :- Increment(s[..|s| - 1]);
        Some(front + [last])
  }

  lemma NextByte(b: bv8)
    ensures b + 1 != 0 ==> (b + 1) as int == b as int + 1
    ensures b + 1 == 0 ==> b as int == 255
  {
  }

  lemma NumberAppend(front: Octets, b: bv8)
    ensures Number(front + [b]) == Number(front) * 256 + b as int
  {
    assert (front + [b])[..|front|] == front;
  }

  /** Main result: the counter adds one, and stops exactly at its largest value. */
  lemma {:induction false} IncrementAddsOne(s: Octets)
    ensures Number(s) < Limit(|s|)
    ensures Increment(s).None? <==> Number(s) == Limit(|s|) - 1
    ensures Increment(s).Some? ==>
      |Increment(s).value| == |s| && Number(Increment(s).value) == Number(s) + 1
  {
    if s != [] {
      var front, b := s[..|s| - 1], s[|s| - 1];
      IncrementAddsOne(front);
      NextByte(b);
      if b + 1 != 0 { NumberAppend(front, b + 1); }
      else if Increment(front).Some? { NumberAppend(Increment(front).value, 0); }
    }
  }

  lemma {:induction false} NumberIsInjective(s: Octets, t: Octets)
    requires |s| == |t| && Number(s) == Number(t)
    ensures s == t
  {
    if s != [] {
      var m, n := s[|s| - 1] as int, t[|t| - 1] as int;
      var p, q := Number(s[..|s| - 1]), Number(t[..|t| - 1]);
      assert p == q && m == n by { assert (p - q) * 256 == n - m; }
      NumberIsInjective(s[..|s| - 1], t[..|t| - 1]);
      assert s == s[..|s| - 1] + [s[|s| - 1]] && t == t[..|t| - 1] + [t[|t| - 1]];
    }
  }

  /** The loop over the bytes, from the last to the first; false stands for the panic. */
  method IncSeq(seq8: array<bv8>) returns (ok: bool)
    modifies seq8
    ensures ok <==> Increment(old(seq8[..])).Some?
    ensures ok ==> seq8[..] == Increment(old(seq8[..])).value
  {
    ghost var was := seq8[..];
    var i := seq8.Length;
    assert was[..i] == was && seq8[i..] == [];
    if Increment(was).Some? { assert Increment(was).value + [] == Increment(was).value; }
    while i > 0
      invariant 0 <= i <= seq8.Length
      invariant seq8[..i] == was[..i] && |was| == seq8.Length
      invariant Increment(was) == Chain(Increment(was[..i]), seq8[i..])
    {
      i := i - 1;
      ghost var tail := seq8[i + 1..];
      assert was[..i + 1][..i] == was[..i];
      assert seq8[..i + 1][i] == was[i];
      seq8[i] := seq8[i] + 1;
      assert seq8[i..] == [seq8[i]] + tail;
      if seq8[i] != 0 {
        assert seq8[..i] == was[..i];
        assert Increment(was[..i + 1]) == Some(was[..i] + [seq8[i]]);
        assert (was[..i] + [seq8[i]]) + tail == was[..i] + seq8[i..];
        assert seq8[..] == seq8[..i] + seq8[i..];
        return true;
      }
      ChainStep(Increment(was[..i]), seq8[i], tail);
    }
    return false;
  }

  function Chain(front: Option<Octets>, tail: Octets): Option<Octets> {
    if front.None? then None else Some(front.value + tail)
  }

  lemma ChainStep(front: Option<Octets>, b: bv8, tail: Octets)
    ensures Chain(Chain(front, [b]), tail) == Chain(front, [b] + tail)
  {
    if front.Some? { assert front.value + [b] + tail == front.value + ([b] + tail); }
  }

  // ---------------------------------------------------------------- nonces

  /** xorNonceAEAD: the mask with the sequence number folded into its last bytes. */
  function Masked(mask: Octets, nonce: Octets): (r: Octets)
    requires |mask| == 4 + |nonce|
    ensures |r| == |mask|
  {
    seq(|mask|, i requires 0 <= i < |mask| => if i < 4 then mask[i] else mask[i] ^ nonce[i - 4])
  }

  /** prefixNonceAEAD: the fixed part, then the explicit nonce. */
  function Prefixed(fixed: Octets, nonce: Octets): Octets { fixed + nonce }

  lemma XorCancels(a: bv8, b: bv8, c: bv8)
    ensures (a ^ b) ^ b == a
    ensures a ^ b == a ^ c ==> b == c
  {
    if a ^ b == a ^ c { assert a ^ (a ^ b) == b && a ^ (a ^ c) == c; }
  }

  lemma MaskedIsInjective(mask: Octets, m: Octets, n: Octets)
    requires |mask| == 4 + |m| == 4 + |n| && Masked(mask, m) == Masked(mask, n)
    ensures m == n
  {
    forall i | 0 <= i < |m| ensures m[i] == n[i] {
      assert Masked(mask, m)[4 + i] == Masked(mask, n)[4 + i];
      XorCancels(mask[4 + i], m[i], n[i]);
    }
  }

  lemma PrefixedIsInjective(fixed: Octets, m: Octets, n: Octets)
    requires Prefixed(fixed, m) == Prefixed(fixed, n)
    ensures m == n
  {
    assert m == (fixed + m)[|fixed|..] && n == (fixed + n)[|fixed|..];
  }

  /** The AEAD underneath. */
  datatype Aead = Aead(
    seal: (Octets, Octets, Octets) -> Octets,
    open: (Octets, Octets, Octets) -> Option<Octets>)

  class XorNonceAead {
    var nonceMask: array<bv8>
    const aead: Aead

    constructor (aead: Aead, mask: Octets)
      requires |mask| == NONCE_BYTES
      ensures fresh(nonceMask) && nonceMask[..] == mask && this.aead == aead
    {
      this.aead := aead;
      nonceMask := new bv8[NONCE_BYTES](i requires 0 <= i < |mask| => mask[i]);
    }

    /** Folds the nonce into the mask, or out of it again. */
    method Fold(nonce: Octets)
      requires nonceMask.Length == 4 + |nonce|
      modifies nonceMask
      ensures nonceMask[..] == Masked(old(nonceMask[..]), nonce)
    {
      ghost var was := nonceMask[..];
      for i := 0 to |nonce|
        invariant forall k :: 0 <= k < 4 + i ==> nonceMask[k] == Masked(was, nonce)[k]
        invariant forall k :: 4 + i <= k < nonceMask.Length ==> nonceMask[k] == was[k]
      {
        nonceMask[4 + i] := nonceMask[4 + i] ^ nonce[i];
      }
    }

    /** Seals under the masked nonce and restores the mask. */
    method Seal(nonce: Octets, plaintext: Octets, ad: Octets) returns (r: Octets)
      requires nonceMask.Length == 4 + |nonce|
      modifies nonceMask
      ensures nonceMask[..] == old(nonceMask[..])
      ensures r == aead.seal(Masked(old(nonceMask[..]), nonce), plaintext, ad)
    {
      ghost var was := nonceMask[..];
      Fold(nonce);
      r := aead.seal(nonceMask[..], plaintext, ad);
      Fold(nonce);
      FoldTwice(was, nonce);
    }

    /** Opens under the masked nonce; the mask is restored even when opening fails. */
    method Open(nonce: Octets, ciphertext: Octets, ad: Octets) returns (r: Option<Octets>)
      requires nonceMask.Length == 4 + |nonce|
      modifies nonceMask
      ensures nonceMask[..] == old(nonceMask[..])
      ensures r == aead.open(Masked(old(nonceMask[..]), nonce), ciphertext, ad)
    {
      ghost var was := nonceMask[..];
      Fold(nonce);
      r := aead.open(nonceMask[..], ciphertext, ad);
      Fold(nonce);
      FoldTwice(was, nonce);
    }
  }

  lemma FoldTwice(mask: Octets, nonce: Octets)
    requires |mask| == 4 + |nonce|
    ensures Masked(Masked(mask, nonce), nonce) == mask
  {
    forall i | 4 <= i < |mask| ensures Masked(Masked(mask, nonce), nonce)[i] == mask[i] {
      XorCancels(mask[i], nonce[i - 4], 0);
    }
  }

  class PrefixNonceAead {
    var nonce: array<bv8>
    const aead: Aead

    constructor (aead: Aead, fixed: Octets)
      requires |fixed| == 4
      ensures fresh(nonce) && nonce.Length == NONCE_BYTES && nonce[..4] == fixed && this.aead == aead
    {
      this.aead := aead;
      nonce := new bv8[NONCE_BYTES](i => if 0 <= i < |fixed| then fixed[i] else 0);
    }

    method Seal(explicit: Octets, plaintext: Octets, ad: Octets) returns (r: Octets)
      requires nonce.Length == 4 + |explicit|
      modifies nonce
      ensures nonce[..4] == old(nonce[..4])
      ensures r == aead.seal(Prefixed(old(nonce[..4]), explicit), plaintext, ad)
    {
      Place(explicit);
      assert nonce[..] == nonce[..4] + nonce[4..];
      r := aead.seal(nonce[..], plaintext, ad);
    }

    method Open(explicit: Octets, ciphertext: Octets, ad: Octets) returns (r: Option<Octets>)
      requires nonce.Length == 4 + |explicit|
      modifies nonce
      ensures nonce[..4] == old(nonce[..4])
      ensures r == aead.open(Prefixed(old(nonce[..4]), explicit), ciphertext, ad)
    {
      Place(explicit);
      assert nonce[..] == nonce[..4] + nonce[4..];
      r := aead.open(nonce[..], ciphertext, ad);
    }

    method Place(explicit: Octets)
      requires nonce.Length == 4 + |explicit|
      modifies nonce
      ensures nonce[..4] == old(nonce[..4]) && nonce[4..] == explicit
    {
      for i := 0 to |explicit|
        invariant nonce[..4] == old(nonce[..4])
        invariant nonce[4..4 + i] == explicit[..i]
      {
        nonce[4 + i] := explicit[i];
        assert nonce[4..4 + i + 1] == nonce[4..4 + i] + [explicit[i]];
      }
      assert nonce[4..4 + |explicit|] == nonce[4..];
    }
  }

  // ---------------------------------------------------------------- uniqueness

  /** The counter after `n` records, if it got that far. */
  function After(n: nat): Option<Octets> {
    if n == 0 then Some(seq(SEQ_BYTES, _ => 0))
    else
      var s :- After(n - 1);
      Increment(s)
  }

  lemma {:induction false} ZeroIsZero(s: Octets)
    requires forall i :: 0 <= i < |s| ==> s[i] == 0
    ensures Number(s) == 0
  {
    if s != [] { ZeroIsZero(s[..|s| - 1]); }
  }

  lemma {:induction false} AfterIs(n: nat)
    ensures After(n).Some? <==> n < Limit(SEQ_BYTES)
    ensures After(n).Some? ==> |After(n).value| == SEQ_BYTES && Number(After(n).value) == n
  {
    assert Limit(SEQ_BYTES) == 0x1_0000_0000_0000_0000 by {
      assert Limit(4) == 0x1_0000_0000;
      assert Limit(8) == Limit(7) * 256 && Limit(7) == Limit(6) * 256 && Limit(6) == Limit(5) * 256;
    }
    if n == 0 { ZeroIsZero(After(0).value); } else {
      AfterIs(n - 1);
      if After(n - 1).Some? { IncrementAddsOne(After(n - 1).value); }
    }
  }

  /** Main result: under one key, the nonces of any two different records differ, with a
      masked sequence number as well as with a prefixed one; and the counter gives out
      2^64 of them before it stops.
   */
  lemma NoncesDiffer(mask: Octets, fixed: Octets, i: nat, j: nat)
    requires |mask| == NONCE_BYTES && |fixed| == 4 && i != j && After(i).Some? && After(j).Some?
    ensures |After(i).value| == |After(j).value| == SEQ_BYTES
    ensures Masked(mask, After(i).value) != Masked(mask, After(j).value)
    ensures Prefixed(fixed, After(i).value) != Prefixed(fixed, After(j).value)
  {
    AfterIs(i);
    AfterIs(j);
    var s, t := After(i).value, After(j).value;
    if Masked(mask, s) == Masked(mask, t) { MaskedIsInjective(mask, s, t); }
    if Prefixed(fixed, s) == Prefixed(fixed, t) { PrefixedIsInjective(fixed, s, t); }
  }
}
