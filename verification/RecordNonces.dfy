/** The nonces that a run of the record writer seals under: over any sequence of records and
    key changes, no two records under one key share a nonce.
 */
module RecordNonces {
  import opened Wire
  import opened Padding
  import opened Nonce
  import opened Record
  import opened RecordRoundTrip

  /** A run of the writer: its states, and what each operation sends. */
  ghost predicate Writes(p: Prims, halves: seq<Half>, ops: seq<Op>, sent: seq<seq<Octets>>) {
    && |halves| == |ops| + 1 && |sent| == |ops|
    && (forall k :: 0 <= k < |halves| ==> HalfOk(halves[k]))
    && forall k :: 0 <= k < |ops| ==> WriteOne(p, halves[k], ops[k]) == Some((halves[k + 1], sent[k]))
  }

  function Flat(sent: seq<seq<Octets>>): seq<Octets> {
    if sent == [] then [] else sent[0] + Flat(sent[1..])
  }

  /** Every completed sequence of operations is such a run. */
  lemma {:induction false} RunOf(p: Prims, w: Half, ops: seq<Op>) returns (halves: seq<Half>, sent: seq<seq<Octets>>)
    requires HalfOk(w) && WriteAll(p, w, ops).Some?
    ensures Writes(p, halves, ops, sent) && halves[0] == w
    ensures WriteAll(p, w, ops).value == (halves[|ops|], Flat(sent))
    decreases |ops|
  {
    hide HalfOk, WriteOne;
    if ops == [] { halves, sent := [w], []; } else {
      var first := WriteOne(p, w, ops[0]).value;
      var h, s := RunOf(p, first.0, ops[1..]);
      halves, sent := [w] + h, [first.1] + s;
      assert sent[1..] == s;
      forall k | 0 <= k < |ops| ensures WriteOne(p, halves[k], ops[k]) == Some((halves[k + 1], sent[k])) {
        if k > 0 { assert WriteOne(p, h[k - 1], ops[1..][k - 1]) == Some((h[k], s[k - 1])); }
      }
    }
  }

  /** Does the operation install another cipher?  Preparing one does not. */
  predicate Installs(op: Op) { op.Rekeying? && !op.change.Prepare? }

  /** The number of records sent since the current cipher was installed. */
  function Since(ops: seq<Op>, k: nat): nat
    requires k <= |ops|
  {
    if k == 0 || Installs(ops[k - 1]) then 0
    else Since(ops, k - 1) + if ops[k - 1].Send? then 1 else 0
  }

  lemma StepNumber(p: Prims, h: Half, op: Op, h': Half, sent: seq<Octets>)
    requires HalfOk(h) && WriteOne(p, h, op) == Some((h', sent))
    ensures Installs(op) ==> h'.number == ZERO
    ensures op.Rekeying? && !Installs(op) ==> h'.number == h.number && h'.spec == h.spec
    ensures op.Send? && h.spec.cipher.Null? ==> h' == h
    ensures op.Send? && !h.spec.cipher.Null? ==> Increment(h.number) == Some(h'.number) && !h'.spec.cipher.Null?
    ensures op.Send? && Sealing(h) ==> h'.spec == h.spec
  {
    hide MacOf, XorStream, CbcEncryptAll, Increment, Header, Masked, LastBlock, Pad;
  }

  /** The counter holds the number of records since the cipher was installed. */
  lemma {:induction false} NumberIs(p: Prims, halves: seq<Half>, ops: seq<Op>, sent: seq<seq<Octets>>, k: nat)
    requires Writes(p, halves, ops, sent) && halves[0].number == ZERO && k < |halves|
    ensures halves[k].spec.cipher.Null? ==> halves[k].number == ZERO
    ensures !halves[k].spec.cipher.Null? ==> After(Since(ops, k)) == Some(halves[k].number)
  {
    hide HalfOk, WriteOne, Increment;
    assert After(0).value == ZERO;
    if k > 0 {
      NumberIs(p, halves, ops, sent, k - 1);
      assert WriteOne(p, halves[k - 1], ops[k - 1]) == Some((halves[k], sent[k - 1]));
      StepNumber(p, halves[k - 1], ops[k - 1], halves[k], sent[k - 1]);
    }
  }

  predicate Sealing(h: Half) { h.spec.cipher.PrefixAead? || h.spec.cipher.XorAead? }

  /** The nonce for the current sequence number. */
  function NonceNow(h: Half): Octets
    requires HalfOk(h) && Sealing(h)
  {
    if h.spec.cipher.XorAead? then Masked(h.spec.cipher.mask, h.number) else Prefixed(h.spec.cipher.fixed, h.number)
  }

  /** The record is the output of Seal under `nonce`, behind its header and explicit nonce. */
  ghost predicate SealedUnder(p: Prims, h: Half, op: Op, record: Octets, nonce: Octets)
    requires op.Send? && Sealing(h)
  {
    var front := HEADER + ExplicitNonceLen(h);
    |record| >= front && exists plain, ad :: record[front..] == p.seal(h.spec.cipher.key, nonce, plain, ad)
  }

  lemma SendSeals(p: Prims, h: Half, op: Op, h': Half, sent: seq<Octets>)
    requires HalfOk(h) && Sealing(h) && op.Send? && WriteOne(p, h, op) == Some((h', sent))
    ensures |sent| == 1 && SealedUnder(p, h, op, sent[0], NonceNow(h))
  {
    hide Masked, Increment, LengthBytes, MacOf;
    var Send(typ, vers, payload, rand) := op;
    var header, key := Header(typ, vers, |payload|), h.spec.cipher.key;
    var front := HEADER + ExplicitNonceLen(h);
    if h.spec.cipher.PrefixAead? {
      assert sent[0][front..] == p.seal(key, NonceNow(h), payload, h.number + header);
    } else if h.version == TLS13 {
      assert sent[0][front..] == p.seal(key, NonceNow(h), payload + [typ],
                                        Header(APPLICATION_DATA, vers, |payload| + 1 + OVERHEAD));
    } else {
      assert sent[0][front..] == p.seal(key, NonceNow(h), payload, h.number + header);
    }
  }

  /** No other cipher is installed between the two. */
  predicate OneKey(ops: seq<Op>, i: nat, j: nat) {
    i <= j <= |ops| && forall m :: i <= m < j ==> !Installs(ops[m])
  }

  lemma {:induction false} KeyStays(p: Prims, halves: seq<Half>, ops: seq<Op>, sent: seq<seq<Octets>>, i: nat, j: nat)
    requires Writes(p, halves, ops, sent) && OneKey(ops, i, j) && Sealing(halves[i])
    ensures halves[j].spec == halves[i].spec && Since(ops, i) <= Since(ops, j)
    ensures i < j && ops[i].Send? ==> Since(ops, i) < Since(ops, j)
    decreases j - i
  {
    hide HalfOk, WriteOne;
    if i < j {
      KeyStays(p, halves, ops, sent, i, j - 1);
      assert WriteOne(p, halves[j - 1], ops[j - 1]) == Some((halves[j], sent[j - 1]));
      StepNumber(p, halves[j - 1], ops[j - 1], halves[j], sent[j - 1]);
    }
  }

  /** Main result: in any run from a cleared counter, two records sealed under one key are
      sealed under different nonces, each made from the count of records before it.
   */
  lemma NoncesOfRun(p: Prims, halves: seq<Half>, ops: seq<Op>, sent: seq<seq<Octets>>, i: nat, j: nat)
    requires Writes(p, halves, ops, sent) && halves[0].number == ZERO
    requires i < j < |ops| && ops[i].Send? && ops[j].Send? && Sealing(halves[i]) && OneKey(ops, i, j)
    ensures halves[j].spec == halves[i].spec
    ensures |sent[i]| == 1 && SealedUnder(p, halves[i], ops[i], sent[i][0], NonceNow(halves[i]))
    ensures |sent[j]| == 1 && SealedUnder(p, halves[j], ops[j], sent[j][0], NonceNow(halves[j]))
    ensures After(Since(ops, i)) == Some(halves[i].number) && After(Since(ops, j)) == Some(halves[j].number)
    ensures NonceNow(halves[i]) != NonceNow(halves[j])
  {
    NumberIs(p, halves, ops, sent, i);
    NumberIs(p, halves, ops, sent, j);
    KeyStays(p, halves, ops, sent, i, j);
    hide WriteOne, SealedUnder, After, Since, Masked;
    assert WriteOne(p, halves[i], ops[i]) == Some((halves[i + 1], sent[i]));
    assert WriteOne(p, halves[j], ops[j]) == Some((halves[j + 1], sent[j]));
    SendSeals(p, halves[i], ops[i], halves[i + 1], sent[i]);
    SendSeals(p, halves[j], ops[j], halves[j + 1], sent[j]);
    var c := halves[i].spec.cipher;
    NoncesDiffer(if c.XorAead? then c.mask else seq(NONCE_BYTES, _ => 0), if c.PrefixAead? then c.fixed else [0, 0, 0, 0],
                 Since(ops, i), Since(ops, j));
  }
}
