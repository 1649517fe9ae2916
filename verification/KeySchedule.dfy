/** The TLS 1.3 key schedule (section 7.1 of RFC 8446) over arbitrary hash, HKDF and HMAC
    functions.
 */
module KeySchedule {
  import opened Wire

  datatype Hash = Sha256 | Sha384

  datatype Crypto = Crypto(
    digest: (Hash, Bytes) -> Bytes,
    extract: (Hash, Bytes, Bytes) -> Bytes,
    expand: (Hash, Bytes, Bytes, nat) -> Bytes,
    mac: (Hash, Bytes, Bytes) -> Bytes)

  function Size(h: Hash): nat { if h == Sha256 then 32 else 48 }

  const TLS_AES_128_GCM_SHA256: u16 := 0x1301
  const TLS_AES_256_GCM_SHA384: u16 := 0x1302
  const TLS_CHACHA20_POLY1305_SHA256: u16 := 0x1303

  function SuiteHash(id: u16): Option<Hash> {
    if id in {TLS_AES_128_GCM_SHA256, TLS_CHACHA20_POLY1305_SHA256} then Some(Sha256)
    else if id == TLS_AES_256_GCM_SHA384 then Some(Sha384)
    else None
  }

  /** The labels of the schedule. */
  datatype Name =
    | ResBinder | Derived | ClientHs | ServerHs | ClientAp | ServerAp
    | ExpMaster | ResMaster | FinishedKey | Resumption

  /** "tls13 " and the label, as ASCII. */
  function Text(l: Name): (t: Bytes)
    ensures 6 < |t| < 24
  {
    [116, 108, 115, 49, 51, 32] +
    match l
    case ResBinder => [114, 101, 115, 32, 98, 105, 110, 100, 101, 114]
    case Derived => [100, 101, 114, 105, 118, 101, 100]
    case ClientHs => [99, 32, 104, 115, 32, 116, 114, 97, 102, 102, 105, 99]
    case ServerHs => [115, 32, 104, 115, 32, 116, 114, 97, 102, 102, 105, 99]
    case ClientAp => [99, 32, 97, 112, 32, 116, 114, 97, 102, 102, 105, 99]
    case ServerAp => [115, 32, 97, 112, 32, 116, 114, 97, 102, 102, 105, 99]
    case ExpMaster => [101, 120, 112, 32, 109, 97, 115, 116, 101, 114]
    case ResMaster => [114, 101, 115, 32, 109, 97, 115, 116, 101, 114]
    case FinishedKey => [102, 105, 110, 105, 115, 104, 101, 100]
    case Resumption => [114, 101, 115, 117, 109, 112, 116, 105, 111, 110]
  }

  /** The HkdfLabel structure; `None` stands for the builder's panic. */
  function HkdfLabel(n: u16, l: Name, context: Bytes): Build {
    Cat(Cat(U16(n), Lp(1, Some(Text(l)))), Lp(1, Some(context)))
  }

  function ExpandLabel(cr: Crypto, h: Hash, secret: Bytes, l: Name, context: Bytes): Bytes {
    var info := HkdfLabel(Size(h), l, context);
    if info.None? then [] else cr.expand(h, secret, info.value, Size(h))
  }

  function DeriveSecret(cr: Crypto, h: Hash, secret: Bytes, l: Name, transcript: Bytes): Bytes {
    ExpandLabel(cr, h, secret, l, cr.digest(h, transcript))
  }

  function Zeros(h: Hash): Bytes { seq(Size(h), _ => 0) }

  function EarlySecret(cr: Crypto, h: Hash, psk: Option<Bytes>): Bytes {
    cr.extract(h, if psk.None? then Zeros(h) else psk.value, Zeros(h))
  }

  function BinderKey(cr: Crypto, h: Hash, early: Bytes): Bytes { DeriveSecret(cr, h, early, ResBinder, []) }

  function HandshakeSecret(cr: Crypto, h: Hash, early: Bytes, shared: Bytes): Bytes {
    cr.extract(h, shared, DeriveSecret(cr, h, early, Derived, []))
  }

  function MasterSecret(cr: Crypto, h: Hash, handshake: Bytes): Bytes {
    cr.extract(h, Zeros(h), DeriveSecret(cr, h, handshake, Derived, []))
  }

  function FinishedHash(cr: Crypto, h: Hash, base: Bytes, transcript: Bytes): Bytes {
    cr.mac(h, ExpandLabel(cr, h, base, FinishedKey, []), cr.digest(h, transcript))
  }

  function TicketPsk(cr: Crypto, h: Hash, resumption: Bytes, nonce: Bytes): Bytes {
    ExpandLabel(cr, h, resumption, Resumption, nonce)
  }

  const TYPE_MESSAGE_HASH: byte := 254

  /** The synthetic message that replaces the first ClientHello after a HelloRetryRequest. */
  function MessageHash(cr: Crypto, h: Hash, hello: Bytes): Bytes {
    var d := cr.digest(h, hello);
    [TYPE_MESSAGE_HASH, 0, 0, |d| % 0x100] + d
  }

  // ---------------------------------------------------------------- domain separation

  lemma TextDetermines(a: Name, b: Name)
    requires Text(a) == Text(b)
    ensures a == b
  {
    var p, q := Text(a)[6..], Text(b)[6..];
    assert |p| == |q| && p[0] == q[0] && p[|p| - 1] == q[|q| - 1] && p[2] == q[2] && p[4] == q[4];
  }

  lemma SplitLp(a: Bytes, s: Bytes, b: Bytes, t: Bytes)
    requires |a| < 256 && |b| < 256 && UInt(1, |a|) + a + s == UInt(1, |b|) + b + t
    ensures a == b && s == t
  {
    ReadLpOfLp(1, a, s);
    ReadLpOfLp(1, b, t);
  }

  /** The HkdfLabel determines length, label and context: no two derivations share one. */
  lemma LabelDetermines(n: u16, l: Name, c: Bytes, n': u16, l': Name, c': Bytes)
    requires HkdfLabel(n, l, c).Some? && HkdfLabel(n, l, c) == HkdfLabel(n', l', c')
    ensures n == n' && l == l' && c == c'
  {
    var t, t' := UInt(1, |Text(l)|) + Text(l), UInt(1, |Text(l')|) + Text(l');
    var u, u' := UInt(1, |c|) + c, UInt(1, |c'|) + c';
    Assoc3(UInt(2, n), t, u);
    Assoc3(UInt(2, n'), t', u');
    ReadU16OfUInt(n, t + u);
    ReadU16OfUInt(n', t' + u');
    SplitLp(Text(l), u, Text(l'), u');
    TextDetermines(l, l');
    assert u == u + [] && u' == u' + [];
    SplitLp(c, [], c', []);
  }

  lemma LabelFits(h: Hash, l: Name, context: Bytes)
    ensures HkdfLabel(Size(h), l, context).Some? <==> |context| < 256
  {
  }

  ghost predicate InjectiveAt(cr: Crypto, h: Hash, secret: Bytes, i: Bytes, j: Bytes) {
    cr.expand(h, secret, i, Size(h)) == cr.expand(h, secret, j, Size(h)) ==> i == j
  }

  /** If HKDF-Expand does not collide under a secret, the secrets derived from it with
      different labels or over different transcript digests are all different.
   */
  lemma SecretsDiffer(cr: Crypto, h: Hash, secret: Bytes, l: Name, t: Bytes, l': Name, t': Bytes)
    requires forall i, j :: InjectiveAt(cr, h, secret, i, j)
    requires |cr.digest(h, t)| < 256 && |cr.digest(h, t')| < 256
    ensures DeriveSecret(cr, h, secret, l, t) == DeriveSecret(cr, h, secret, l', t') <==>
      l == l' && cr.digest(h, t) == cr.digest(h, t')
  {
    LabelFits(h, l, cr.digest(h, t));
    LabelFits(h, l', cr.digest(h, t'));
    var i := HkdfLabel(Size(h), l, cr.digest(h, t)).value;
    var j := HkdfLabel(Size(h), l', cr.digest(h, t')).value;
    assert InjectiveAt(cr, h, secret, i, j);
    if i == j { LabelDetermines(Size(h), l, cr.digest(h, t), Size(h), l', cr.digest(h, t')); }
  }

  // ---------------------------------------------------------------- what the secrets bind

  /** Two calls of a primitive that do not collide. */
  ghost predicate ExtractApart(cr: Crypto, h: Hash, k: Bytes, salt: Bytes, k': Bytes, salt': Bytes) {
    cr.extract(h, k, salt) == cr.extract(h, k', salt') ==> k == k' && salt == salt'
  }

  ghost predicate ExpandApart(cr: Crypto, h: Hash, s: Bytes, i: Bytes, s': Bytes, i': Bytes) {
    cr.expand(h, s, i, Size(h)) == cr.expand(h, s', i', Size(h)) ==> s == s' && i == i'
  }

  ghost predicate MacApart(cr: Crypto, h: Hash, k: Bytes, d: Bytes, k': Bytes, d': Bytes) {
    cr.mac(h, k, d) == cr.mac(h, k', d') ==> k == k' && d == d'
  }

  /** The digests fit a label, and the derivations of two secrets from `s` and `s'` do not collide. */
  ghost predicate DeriveApart(cr: Crypto, h: Hash, s: Bytes, l: Name, t: Bytes, s': Bytes, l': Name, t': Bytes) {
    && |cr.digest(h, t)| < 256 && |cr.digest(h, t')| < 256
    && ExpandApart(cr, h, s, HkdfLabel(Size(h), l, cr.digest(h, t)).value, s', HkdfLabel(Size(h), l', cr.digest(h, t')).value)
  }

  lemma DerivedBinds(cr: Crypto, h: Hash, s: Bytes, l: Name, t: Bytes, s': Bytes, l': Name, t': Bytes)
    requires DeriveApart(cr, h, s, l, t, s', l', t')
    ensures DeriveSecret(cr, h, s, l, t) == DeriveSecret(cr, h, s', l', t') <==>
      s == s' && l == l' && cr.digest(h, t) == cr.digest(h, t')
  {
    LabelFits(h, l, cr.digest(h, t));
    LabelFits(h, l', cr.digest(h, t'));
    if DeriveSecret(cr, h, s, l, t) == DeriveSecret(cr, h, s', l', t') {
      LabelDetermines(Size(h), l, cr.digest(h, t), Size(h), l', cr.digest(h, t'));
    }
  }

  /** The same key: no PSK is one of zeros. */
  predicate SamePsk(h: Hash, a: Option<Bytes>, b: Option<Bytes>) {
    a == b || (a.None? && b == Some(Zeros(h))) || (b.None? && a == Some(Zeros(h)))
  }

  /** Main result: without collisions, equal Finished messages mean equal base secrets and
      equal transcript digests.
   */
  lemma FinishedBinds(cr: Crypto, h: Hash, base: Bytes, t: Bytes, base': Bytes, t': Bytes)
    requires var (i, j) := (HkdfLabel(Size(h), FinishedKey, []).value, HkdfLabel(Size(h), FinishedKey, []).value);
      && ExpandApart(cr, h, base, i, base', j)
      && MacApart(cr, h, cr.expand(h, base, i, Size(h)), cr.digest(h, t), cr.expand(h, base', j, Size(h)), cr.digest(h, t'))
    ensures FinishedHash(cr, h, base, t) == FinishedHash(cr, h, base', t') <==>
      base == base' && cr.digest(h, t) == cr.digest(h, t')
  {
    LabelFits(h, FinishedKey, []);
  }

  /** The calls that lead to two handshake secrets do not collide. */
  ghost predicate HandshakeApart(cr: Crypto, h: Hash, psk: Option<Bytes>, shared: Bytes, psk': Option<Bytes>, shared': Bytes) {
    var e, e' := EarlySecret(cr, h, psk), EarlySecret(cr, h, psk');
    && ExtractApart(cr, h, if psk.None? then Zeros(h) else psk.value, Zeros(h),
                    if psk'.None? then Zeros(h) else psk'.value, Zeros(h))
    && DeriveApart(cr, h, e, Derived, [], e', Derived, [])
    && ExtractApart(cr, h, shared, DeriveSecret(cr, h, e, Derived, []), shared', DeriveSecret(cr, h, e', Derived, []))
  }

  /** Main result: without collisions, equal handshake secrets mean the same PSK (none being
      the same as zeros) and the same shared secret.
   */
  lemma HandshakeSecretBinds(cr: Crypto, h: Hash, psk: Option<Bytes>, shared: Bytes, psk': Option<Bytes>, shared': Bytes)
    requires HandshakeApart(cr, h, psk, shared, psk', shared')
    ensures HandshakeSecret(cr, h, EarlySecret(cr, h, psk), shared) == HandshakeSecret(cr, h, EarlySecret(cr, h, psk'), shared') <==>
      SamePsk(h, psk, psk') && shared == shared'
  {
    hide DeriveSecret;
    DerivedBinds(cr, h, EarlySecret(cr, h, psk), Derived, [], EarlySecret(cr, h, psk'), Derived, []);
  }

  /** Main result: without collisions, two secrets derived from the master secret (application
      traffic, exporter, resumption) are equal exactly for the same label, transcript digest,
      PSK and shared secret.
   */
  lemma MasterDerivedBinds(cr: Crypto, h: Hash, l: Name, psk: Option<Bytes>, shared: Bytes, t: Bytes,
                           l': Name, psk': Option<Bytes>, shared': Bytes, t': Bytes)
    requires HandshakeApart(cr, h, psk, shared, psk', shared')
    requires
      var (hs, hs') := (HandshakeSecret(cr, h, EarlySecret(cr, h, psk), shared), HandshakeSecret(cr, h, EarlySecret(cr, h, psk'), shared'));
      && DeriveApart(cr, h, hs, Derived, [], hs', Derived, [])
      && ExtractApart(cr, h, Zeros(h), DeriveSecret(cr, h, hs, Derived, []), Zeros(h), DeriveSecret(cr, h, hs', Derived, []))
      && DeriveApart(cr, h, MasterSecret(cr, h, hs), l, t, MasterSecret(cr, h, hs'), l', t')
    ensures
      var (hs, hs') := (HandshakeSecret(cr, h, EarlySecret(cr, h, psk), shared), HandshakeSecret(cr, h, EarlySecret(cr, h, psk'), shared'));
      DeriveSecret(cr, h, MasterSecret(cr, h, hs), l, t) == DeriveSecret(cr, h, MasterSecret(cr, h, hs'), l', t') <==>
        && l == l' && cr.digest(h, t) == cr.digest(h, t')
        && SamePsk(h, psk, psk') && shared == shared'
  {
    hide DeriveSecret, HandshakeSecret, HandshakeApart;
    HandshakeSecretBinds(cr, h, psk, shared, psk', shared');
    var hs, hs' := HandshakeSecret(cr, h, EarlySecret(cr, h, psk), shared), HandshakeSecret(cr, h, EarlySecret(cr, h, psk'), shared');
    DerivedBinds(cr, h, hs, Derived, [], hs', Derived, []);
    DerivedBinds(cr, h, MasterSecret(cr, h, hs), l, t, MasterSecret(cr, h, hs'), l', t');
  }
}
