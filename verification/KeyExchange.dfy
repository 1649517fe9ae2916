/** The key exchanges of TLS 1.3: plain ECDH, and hybrids of ECDH with ML-KEM whose two
    halves are concatenated in an order that depends on the group.
 */
module KeyExchange {
  import opened Wire
  import opened ClientHello

  const X25519: u16 := 29
  const P256: u16 := 23
  const P384: u16 := 24
  const P521: u16 := 25
  const X25519_MLKEM768: u16 := 4588
  const P256_MLKEM768: u16 := 4587
  const P384_MLKEM1024: u16 := 4589

  /** The primitives.  A private key and the randomness of an encapsulation are byte strings. */
  datatype Primitives = Primitives(
    ecdhPublic: (u16, Bytes) -> Bytes,
    ecdh: (u16, Bytes, Bytes) -> Option<Bytes>,
    kemPublic: (u16, Bytes) -> Bytes,
    encapsulate: (u16, Bytes, Bytes) -> Option<(Bytes, Bytes)>,
    decapsulate: (u16, Bytes, Bytes) -> Option<Bytes>)

  predicate IsCurve(g: u16) { g in {X25519, P256, P384, P521} }
  predicate IsHybrid(g: u16) { g in {X25519_MLKEM768, P256_MLKEM768, P384_MLKEM1024} }
  predicate Supported(g: u16) { IsCurve(g) || IsHybrid(g) }

  function CurveOf(g: u16): u16
    requires IsHybrid(g)
  {
    if g == X25519_MLKEM768 then X25519 else if g == P256_MLKEM768 then P256 else P384
  }

  function ElementSize(c: u16): nat { if c == X25519 then 32 else if c == P256 then 65 else if c == P384 then 97 else 133 }
  function KemPublicSize(g: u16): nat { if g == P384_MLKEM1024 then 1568 else 1184 }
  function KemCiphertextSize(g: u16): nat { if g == P384_MLKEM1024 then 1568 else 1088 }

  ghost predicate EcdhLaw(p: Primitives, c: u16, a: Bytes, b: Bytes) {
    && |p.ecdhPublic(c, a)| == ElementSize(c)
    && p.ecdh(c, a, p.ecdhPublic(c, b)).Some?
    && p.ecdh(c, a, p.ecdhPublic(c, b)) == p.ecdh(c, b, p.ecdhPublic(c, a))
  }

  ghost predicate KemLaw(p: Primitives, g: u16, seed: Bytes, r: Bytes) {
    && |p.kemPublic(g, seed)| == KemPublicSize(g)
    && var e := p.encapsulate(g, p.kemPublic(g, seed), r);
    && e.Some? && |e.value.1| == KemCiphertextSize(g)
    && p.decapsulate(g, seed, e.value.1) == Some(e.value.0)
  }

  /** What is assumed of the primitives: Diffie-Hellman commutes, decapsulation undoes
      encapsulation, and the encodings have their fixed sizes.
   */
  ghost predicate Laws(p: Primitives) {
    && (forall c, a, b :: IsCurve(c) ==> EcdhLaw(p, c, a, b))
    && (forall g, seed, r :: IsHybrid(g) ==> KemLaw(p, g, seed, r))
  }

  /** The client's private keys: an ECDH key and, for a hybrid, an ML-KEM seed. */
  datatype PrivateKeys = PrivateKeys(ecdhe: Bytes, mlkem: Bytes)

  function Join(g: u16, ecdh: Bytes, mlkem: Bytes): Bytes {
    if g == X25519_MLKEM768 then mlkem + ecdh else ecdh + mlkem
  }

  function EcdhPart(g: u16, share: Bytes): Bytes
    requires IsHybrid(g) && |share| >= ElementSize(CurveOf(g))
  {
    if g == X25519_MLKEM768 then share[|share| - ElementSize(CurveOf(g))..] else share[..ElementSize(CurveOf(g))]
  }

  function KemPart(g: u16, share: Bytes): Bytes
    requires IsHybrid(g) && |share| >= ElementSize(CurveOf(g))
  {
    if g == X25519_MLKEM768 then share[..|share| - ElementSize(CurveOf(g))] else share[ElementSize(CurveOf(g))..]
  }

  /** One share for the group and, for a hybrid, a second one for its curve alone. */
  function KeyShares(p: Primitives, g: u16, k: PrivateKeys): (r: Option<seq<KeyShare>>)
    ensures r.Some? ==> |r.value| > 0 && r.value[0].group == g
  {
    if IsCurve(g) then Some([KeyShare(g, p.ecdhPublic(g, k.ecdhe))])
    else if IsHybrid(g) then
      var ecdh := p.ecdhPublic(CurveOf(g), k.ecdhe);
      Some([KeyShare(g, Join(g, ecdh, p.kemPublic(g, k.mlkem))), KeyShare(CurveOf(g), ecdh)])
    else None
  }

  /** The server's side: the shared secret and the share to send back. */
  function ServerShared(p: Primitives, g: u16, k: PrivateKeys, clientShare: Bytes): Option<(Bytes, KeyShare)> {
    if IsCurve(g) then
      var s :- p.ecdh(g, k.ecdhe, clientShare);
      Some((s, KeyShare(g, p.ecdhPublic(g, k.ecdhe))))
    else if IsHybrid(g) then
      if |clientShare| != ElementSize(CurveOf(g)) + KemPublicSize(g) then None
      else
        var s :- p.ecdh(CurveOf(g), k.ecdhe, EcdhPart(g, clientShare));
        var e :- p.encapsulate(g, KemPart(g, clientShare), k.mlkem);
        Some((Join(g, s, e.0), KeyShare(g, Join(g, p.ecdhPublic(CurveOf(g), k.ecdhe), e.1))))
    else None
  }

  function ClientShared(p: Primitives, g: u16, k: PrivateKeys, serverShare: Bytes): Option<Bytes> {
    if IsCurve(g) then p.ecdh(g, k.ecdhe, serverShare)
    else if IsHybrid(g) then
      if |serverShare| != ElementSize(CurveOf(g)) + KemCiphertextSize(g) then None
      else
        var s :- p.ecdh(CurveOf(g), k.ecdhe, EcdhPart(g, serverShare));
        var m :- p.decapsulate(g, k.mlkem, KemPart(g, serverShare));
        Some(Join(g, s, m))
    else None
  }

  lemma SplitsBack(g: u16, ecdh: Bytes, mlkem: Bytes)
    requires IsHybrid(g) && |ecdh| == ElementSize(CurveOf(g))
    ensures EcdhPart(g, Join(g, ecdh, mlkem)) == ecdh && KemPart(g, Join(g, ecdh, mlkem)) == mlkem
  {
  }

  /** `share` is one that the holder of `k` can be answered on. */
  ghost predicate Answerable(p: Primitives, k: PrivateKeys, share: KeyShare) {
    forall server: PrivateKeys :: AnswerAgrees(p, k, share, server)
  }

  ghost predicate AnswerAgrees(p: Primitives, k: PrivateKeys, share: KeyShare, server: PrivateKeys) {
    var answer := ServerShared(p, share.group, server, share.data);
    && answer.Some? && answer.value.1.group == share.group
    && ClientShared(p, share.group, k, answer.value.1.data) == Some(answer.value.0)
  }

  lemma EcdhAgrees(p: Primitives, g: u16, k: PrivateKeys, server: PrivateKeys)
    requires Laws(p) && IsCurve(g)
    ensures AnswerAgrees(p, k, KeyShare(g, p.ecdhPublic(g, k.ecdhe)), server)
  {
    assert EcdhLaw(p, g, k.ecdhe, server.ecdhe) && EcdhLaw(p, g, server.ecdhe, k.ecdhe);
  }

  lemma HybridAgrees(p: Primitives, g: u16, k: PrivateKeys, server: PrivateKeys)
    requires Laws(p) && IsHybrid(g)
    ensures AnswerAgrees(p, k, KeyShares(p, g, k).value[0], server)
  {
    var c := CurveOf(g);
    assert EcdhLaw(p, c, k.ecdhe, server.ecdhe) && EcdhLaw(p, c, server.ecdhe, k.ecdhe);
    assert KemLaw(p, g, k.mlkem, server.mlkem);
    var pub := p.kemPublic(g, k.mlkem);
    var e := p.encapsulate(g, pub, server.mlkem).value;
    SplitsBack(g, p.ecdhPublic(c, k.ecdhe), pub);
    SplitsBack(g, p.ecdhPublic(c, server.ecdhe), e.1);
  }

  /** Main result: whichever share of a generated key the server answers, with whatever
      keys of its own, both ends hold the same secret.
   */
  lemma SharedSecretsAgree(p: Primitives, g: u16, k: PrivateKeys)
    requires Laws(p)
    ensures KeyShares(p, g, k).Some? <==> Supported(g)
    ensures Supported(g) ==>
      var shares := KeyShares(p, g, k).value;
      shares[0].group == g && forall i :: 0 <= i < |shares| ==> Answerable(p, k, shares[i])
  {
    if Supported(g) {
      var shares := KeyShares(p, g, k).value;
      forall i, server: PrivateKeys | 0 <= i < |shares| ensures AnswerAgrees(p, k, shares[i], server) {
        if i == 0 && IsHybrid(g) { HybridAgrees(p, g, k, server); }
        else { EcdhAgrees(p, shares[i].group, k, server); }
      }
    }
  }
}
