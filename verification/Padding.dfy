/** CBC padding (section 6.2.3.2 of RFC 2246): the plain rule, and the constant-time
    code that must compute it.
 */
module Padding {

  type Octets = seq<bv8>

  /** The last byte p announces p padding bytes in front of it, all equal to p. */
  predicate PaddingOk(payload: Octets) {
    |payload| > 0 &&
    var p := payload[|payload| - 1];
    p as int < |payload| && forall i :: |payload| - 1 - p as int <= i < |payload| ==> payload[i] == p
  }

  /** How many bytes to take off: the padding if it is right, one byte if it is wrong. */
  function ToRemove(payload: Octets): nat {
    if |payload| == 0 then 0
    else if PaddingOk(payload) then payload[|payload| - 1] as int + 1
    else 1
  }

  // ---------------------------------------------------------------- machine arithmetic

  const WORD: nat := 0x1_0000_0000_0000_0000

  /** Unsigned 64-bit subtraction. */
  function Sub(a: nat, b: nat): (t: nat)
    ensures t < WORD
  {
    (a - b) % WORD
  }

  /** byte(int32(^t) >> 31): all ones if bit 31 of t is clear, else zero. */
  function SignMask(t: nat): bv8
    requires t < WORD
  {
    if (WORD - 1 - t) % 0x1_0000_0000 >= 0x8000_0000 then 255 else 0
  }

  lemma SubSmall(a: nat, b: nat)
    requires a < WORD && b < 256
    ensures Sub(a, b) == if b <= a then a - b else WORD + a - b
  {
    if b > a { assert (a - b) + WORD == Sub(a, b); }
  }

  lemma SignMaskIs(a: nat, b: nat)
    requires a < WORD && b < 256
    ensures SignMask(Sub(a, b)) == if b <= a && Bit31Clear(a - b) then 255 else 0
  {
    SubSmall(a, b);
    var t := Sub(a, b);
    var q, r := t / 0x1_0000_0000, t % 0x1_0000_0000;
    assert WORD - 1 - t == (0xFFFF_FFFF - q) * 0x1_0000_0000 + (0xFFFF_FFFF - r);
    assert (WORD - 1 - t) % 0x1_0000_0000 == 0xFFFF_FFFF - r;
    if b > a { assert t == 0xFFFF_FFFF * 0x1_0000_0000 + (0x1_0000_0000 + a - b); }
  }

  lemma MaskStep(good: bv8, mask: bv8, p: bv8, b: bv8)
    requires mask == 0 || mask == 255
    ensures good & !((mask & p) ^ (mask & b)) == 255 <==> good == 255 && (mask == 255 ==> p == b)
  {
  }

  /** ANDing the bits of a byte together, and spreading the result over the byte. */
  function Spread(good: bv8): bv8 {
    var g1 := good & (good << 4);
    var g2 := g1 & (g1 << 2);
    var g3 := g2 & (g2 << 1);
    if g3 & 0x80 != 0 then 255 else 0
  }

  lemma SpreadIs(good: bv8)
    ensures Spread(good) == if good == 255 then 255 else 0
  {
  }

  lemma KeepByte(p: bv8, good: bv8)
    requires good == 0 || good == 255
    ensures p & good == if good == 255 then p else 0
  {
  }

  /** One round of the scan: byte `k` must equal the last one if it is within `p` of it. */
  method ScanByte(payload: Octets, k: nat, p: nat, good: bv8) returns (next: bv8)
    requires k < |payload| && p < 256
    ensures next == 255 <==>
      good == 255 && (|payload| - 1 - k <= p ==> payload[k] == payload[|payload| - 1])
    requires |payload| - k <= 256
  {
    hide SignMask, Sub;
    var i := |payload| - 1 - k;
    var mask := SignMask(Sub(p, i));
    SignMaskIs(p, i);
    var paddingLen, b := payload[|payload| - 1], payload[k];
    MaskStep(good, mask, paddingLen, b);
    next := good & !((mask & paddingLen) ^ (mask & b));
  }

  /** The scan over the bytes that can be padding. */
  method Scan(payload: Octets, p: nat, start: bv8) returns (good: bv8)
    requires |payload| > 0 && p < 256
    ensures good == 255 <==>
      start == 255 && SameFrom(payload, if 256 > |payload| then 0 else |payload| - 256, p)
  {
    hide SameFrom;
    good := start;
    var n, toCheck := |payload| - 1, 256;
    if toCheck > |payload| { toCheck := |payload|; }
    SameNowhere(payload, p);
    for i := 0 to toCheck
      invariant good == 255 <==> start == 255 && SameFrom(payload, n - i + 1, p)
    {
      good := ScanByte(payload, n - i, p, good);
      SameStep(payload, n - i, p);
    }
  }

  lemma SameNowhere(payload: Octets, p: nat)
    ensures SameFrom(payload, |payload|, p)
  {
  }

  predicate Bit31Clear(n: nat) { n % 0x1_0000_0000 < 0x8000_0000 }

  /** The code.  For every payload whatever: it reports 255 exactly when the padding is
      right and bit 31 of the unpadded length is clear, which below 2^31 bytes is always
      so; and it removes what the plain rule removes whenever the two agree.
   */
  method ExtractPadding(payload: Octets) returns (toRemove: nat, good: bv8)
    requires |payload| < WORD
    ensures good == 0 || good == 255
    ensures good == 255 <==> PaddingOk(payload) && Bit31Clear(|payload| - 1 - payload[|payload| - 1] as int)
    ensures |payload| < 0x8000_0000 ==> (good == 255 <==> PaddingOk(payload)) && toRemove == ToRemove(payload)
  {
    if |payload| < 1 { return 0, 0; }
    hide SignMask, Sub, PaddingOk, SameFrom, Bit31Clear;
    var paddingLen := payload[|payload| - 1];
    var n, p := |payload| - 1, paddingLen as int;
    good := SignMask(Sub(n, p));
    SignMaskIs(n, p);
    good := Scan(payload, p, good);
    CheckedAll(payload, if 256 > |payload| then 0 else |payload| - 256, p);
    toRemove, good := Conclude(paddingLen, good);
    if |payload| < 0x8000_0000 && p <= n { SmallIsClear(n - p); }
  }

  /** The verdict spread over a byte, and the padding length zeroed on error. */
  method Conclude(paddingLen: bv8, good: bv8) returns (toRemove: nat, verdict: bv8)
    ensures verdict == if good == 255 then 255 else 0
    ensures toRemove == if good == 255 then paddingLen as int + 1 else 1
  {
    hide Spread;
    SpreadIs(good);
    verdict := Spread(good);
    KeepByte(paddingLen, verdict);
    toRemove := (paddingLen & verdict) as int + 1;
  }

  lemma SmallIsClear(n: nat)
    requires n < 0x8000_0000
    ensures Bit31Clear(n)
  {
  }

  /** From `from` on, the bytes within `p` of the last one are equal to it. */
  predicate SameFrom(payload: Octets, from: int, p: nat) {
    forall k :: 0 <= k < |payload| && from <= k && |payload| - 1 - k <= p ==> payload[k] == payload[|payload| - 1]
  }

  lemma SameStep(payload: Octets, k: nat, p: nat)
    requires k < |payload|
    ensures SameFrom(payload, k, p) <==>
      SameFrom(payload, k + 1, p) && (|payload| - 1 - k <= p ==> payload[k] == payload[|payload| - 1])
  {
  }

  /** Counting back from the end over the bytes that exist covers all of the padding. */
  lemma CheckedAll(payload: Octets, from: int, p: nat)
    requires |payload| > 0 && payload[|payload| - 1] as int == p
    requires from == if 256 > |payload| then 0 else |payload| - 256
    ensures PaddingOk(payload) <==> p < |payload| && SameFrom(payload, from, p)
  {
    assert p < 256;
  }

  // ---------------------------------------------------------------- what encrypt writes

  /** The padding that CBC encryption appends: up to the next block boundary, never none. */
  function PadLength(n: nat, blockSize: nat): nat
    requires 0 < blockSize
  {
    blockSize - n % blockSize
  }

  /** The byte that stands for padding of `k` bytes. */
  function PadByte(k: nat): (b: bv8)
    requires 0 < k <= 256
    ensures b as int == k - 1
  {
    if k == 1 then 0 else PadByte(k - 1) + 1
  }

  function Pad(data: Octets, blockSize: nat): Octets
    requires 0 < blockSize <= 256
  {
    var k := PadLength(|data|, blockSize);
    data + seq(k, _ => PadByte(k))
  }

  lemma WholeBlocks(n: nat, b: nat)
    requires 0 < b
    ensures 0 < PadLength(n, b) <= b && (n + PadLength(n, b)) % b == 0
  {
    var q := n / b;
    assert n + PadLength(n, b) == q * b + b;
    MultipleMod(q + 1, b);
    assert q * b + b == (q + 1) * b;
  }

  lemma MultipleMod(q: nat, b: nat)
    requires 0 < b
    ensures (q * b) % b == 0
  {
    var d, r := (q * b) / b, (q * b) % b;
    assert (q - d) * b == r;
    if q > d { AtLeastOne(q - d, b); } else if q < d { AtLeastOne(d - q, b); }
  }

  lemma AtLeastOne(k: nat, b: nat)
    requires 0 < k
    ensures k * b >= b
  {
    if k > 1 { assert k * b == (k - 1) * b + b; }
  }

  /** Main result: the padding that encryption writes is always accepted and removed. */
  lemma PadIsAccepted(data: Octets, blockSize: nat)
    requires 0 < blockSize <= 256
    ensures PaddingOk(Pad(data, blockSize))
    ensures ToRemove(Pad(data, blockSize)) == PadLength(|data|, blockSize)
    ensures |Pad(data, blockSize)| == |data| + PadLength(|data|, blockSize)
    ensures |Pad(data, blockSize)| % blockSize == 0
    ensures Pad(data, blockSize)[..|data|] == data
  {
    WholeBlocks(|data|, blockSize);
    var k := PadLength(|data|, blockSize);
    hide PadLength, PadByte;
    assert Pad(data, blockSize) == data + seq(k, _ => PadByte(k));
  }
}
