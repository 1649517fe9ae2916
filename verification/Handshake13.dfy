/** The TLS 1.3 handshake as a two-party step system, without Encrypted Client Hello.
    Each step is one phase of a party's handshake: it reads at most one message, changes
    the party's state and appends messages to the wire.  Messages travel as bytes, sealed
    under the writer's current traffic secret.  A step that fails only records the error.
 */
module Handshake13 {
  import opened Wire
  import opened ClientHello
  import opened PskBinders
  import opened KeySchedule
  import opened KeyExchange
  import opened Groups

  const HRR_RANDOM: Bytes :=
    [0xCF, 0x21, 0xAD, 0x74, 0xE5, 0x9A, 0x61, 0x11, 0xBE, 0x1D, 0x8C, 0x02, 0x1E, 0x65, 0xB8, 0x91,
     0xC2, 0xA2, 0x11, 0x16, 0x7A, 0xBB, 0x8C, 0x5E, 0x07, 0x9E, 0x09, 0xE2, 0xC8, 0xA8, 0x33, 0x9C]

  const PSK_MODE_DHE: byte := 1
  const MAX_PSK_IDENTITIES := 5
  const NO_SHARE: KeyShare := KeyShare(0, [])

  /** A ServerHello or HelloRetryRequest; a group of 0 stands for an absent field. */
  datatype ServerHello = ServerHello(
    random: Bytes, sessionId: Bytes, suite: u16, selectedGroup: u16, share: KeyShare,
    identity: Option<u16>, cookie: Option<Bytes>)

  datatype Msg =
    | ServerHelloMsg(hello: ServerHello)
    | EncryptedExtensions(body: Bytes)
    | CertificateRequest(body: Bytes)
    | Certificate(chain: seq<Bytes>, body: Bytes)
    | CertificateVerify(signature: Bytes)
    | Finished(verifyData: Bytes)
    | NewSessionTicket(nonce: Bytes, ticket: Bytes)

  /** The primitives and the codecs: of ClientHello (printer, parser, and the printed
      message without its binders) and of the other messages. */
  datatype Env = Env(
    cr: Crypto,
    kex: Primitives,
    marshal: Hello -> Build,
    unmarshal: Bytes -> Option<Hello>,
    truncated: Hello -> Build,
    encode: Msg -> Build,
    decode: Bytes -> Option<Msg>,
    sign: (Bytes, Bytes) -> Bytes,
    verify: (seq<Bytes>, Bytes, Bytes) -> bool)

  /** Can the message be printed?  A field too long for its length prefix cannot. */
  predicate Encodes(env: Env, m: Msg) { env.encode(m).Some? }

  function BytesOf(env: Env, m: Msg): Bytes {
    if env.encode(m).Some? then env.encode(m).value else []
  }

  /** A session that may be resumed. */
  datatype Session = Session(ticket: Bytes, secret: Bytes, hash: Hash)

  datatype Packet = Packet(key: Option<Bytes>, bytes: Bytes)

  /** A sent packet, with the sender's transcript after it. */
  datatype Mark = Mark(packet: Packet, after: Bytes)

  datatype Check = RecordKey | MessageType | HelloFields | RetryFields | SharedKey | Binder | Signature | FinishedMac

  /** Errors: a party's own limits and policy, or a check that found the two at odds. */
  datatype Error = Unencodable | Malformed | NoOverlap | Refused | AtOdds(check: Check)

  // ---------------------------------------------------------------- secrets

  /** What is derived at the ServerHello, and the transcript it is derived over. */
  datatype HsKeys = HsKeys(at: Bytes, client: Bytes, server: Bytes, master: Bytes)

  function DeriveHs(cr: Crypto, h: Hash, psk: Option<Bytes>, shared: Bytes, t: Bytes): HsKeys {
    var hs := HandshakeSecret(cr, h, EarlySecret(cr, h, psk), shared);
    HsKeys(t, DeriveSecret(cr, h, hs, ClientHs, t), DeriveSecret(cr, h, hs, ServerHs, t), MasterSecret(cr, h, hs))
  }

  /** What is derived at the server's Finished. */
  datatype ApKeys = ApKeys(at: Bytes, client: Bytes, server: Bytes, exporter: Bytes)

  function DeriveAp(cr: Crypto, h: Hash, master: Bytes, t: Bytes): ApKeys {
    ApKeys(t, DeriveSecret(cr, h, master, ClientAp, t), DeriveSecret(cr, h, master, ServerAp, t),
           DeriveSecret(cr, h, master, ExpMaster, t))
  }

  /** What is derived at the client's Finished. */
  datatype EndKeys = EndKeys(at: Bytes, resumption: Bytes)

  function DeriveEnd(cr: Crypto, h: Hash, master: Bytes, t: Bytes): EndKeys {
    EndKeys(t, DeriveSecret(cr, h, master, ResMaster, t))
  }

  /** The secrets a party holds: the two traffic secrets in use, and what it has derived. */
  datatype Keys = Keys(
    read: Option<Bytes>, write: Option<Bytes>,
    hs: Option<HsKeys>, ap: Option<ApKeys>, end: Option<EndKeys>, ticketPsk: Option<Bytes>)

  const NO_KEYS: Keys := Keys(None, None, None, None, None, None)

  /** If HKDF-Expand does not collide, no two of a connection's secrets that come from one
      parent are equal, the resumption secret being derived over a later transcript. */
  lemma SecretsAllDiffer(cr: Crypto, h: Hash, secret: Bytes, t: Bytes, later: Bytes)
    requires (forall i, j :: InjectiveAt(cr, h, secret, i, j)) && |cr.digest(h, t)| < 256 && |cr.digest(h, later)| < 256
    ensures DeriveSecret(cr, h, secret, ClientHs, t) != DeriveSecret(cr, h, secret, ServerHs, t)
    ensures var ap, end := DeriveAp(cr, h, secret, t), DeriveEnd(cr, h, secret, later);
      && ap.client != ap.server && ap.exporter !in {ap.client, ap.server}
      && end.resumption !in {ap.client, ap.server, ap.exporter}
  {
    hide DeriveSecret;
    SecretsDiffer(cr, h, secret, ClientHs, t, ServerHs, t);
    SecretsDiffer(cr, h, secret, ClientAp, t, ServerAp, t);
    SecretsDiffer(cr, h, secret, ClientAp, t, ExpMaster, t);
    SecretsDiffer(cr, h, secret, ServerAp, t, ExpMaster, t);
    SecretsDiffer(cr, h, secret, ResMaster, later, ExpMaster, t);
    SecretsDiffer(cr, h, secret, ResMaster, later, ClientAp, t);
    SecretsDiffer(cr, h, secret, ResMaster, later, ServerAp, t);
  }

  /** Main result: without collisions, the handshake traffic secrets of two connections are equal
      exactly if the transcript digest, the PSK and the shared secret are. */
  lemma HandshakeKeysBind(cr: Crypto, h: Hash, psk: Option<Bytes>, shared: Bytes, t: Bytes,
                          psk': Option<Bytes>, shared': Bytes, t': Bytes)
    requires HandshakeApart(cr, h, psk, shared, psk', shared')
    requires
      var (hs, hs') := (HandshakeSecret(cr, h, EarlySecret(cr, h, psk), shared), HandshakeSecret(cr, h, EarlySecret(cr, h, psk'), shared'));
      DeriveApart(cr, h, hs, ClientHs, t, hs', ClientHs, t') && DeriveApart(cr, h, hs, ServerHs, t, hs', ServerHs, t')
    ensures var (k, k') := (DeriveHs(cr, h, psk, shared, t), DeriveHs(cr, h, psk', shared', t'));
      var same := cr.digest(h, t) == cr.digest(h, t') && SamePsk(h, psk, psk') && shared == shared';
      (k.client == k'.client <==> same) && (k.server == k'.server <==> same)
  {
    hide DeriveSecret, HandshakeSecret, HandshakeApart, DeriveApart, SamePsk;
    HandshakeSecretBinds(cr, h, psk, shared, psk', shared');
    var hs, hs' := HandshakeSecret(cr, h, EarlySecret(cr, h, psk), shared), HandshakeSecret(cr, h, EarlySecret(cr, h, psk'), shared');
    DerivedBinds(cr, h, hs, ClientHs, t, hs', ClientHs, t');
    DerivedBinds(cr, h, hs, ServerHs, t, hs', ServerHs, t');
  }

  /** The calls that lead from two handshakes to a secret under the master secret do not collide. */
  ghost predicate MasterApart(cr: Crypto, h: Hash, l: Name, psk: Option<Bytes>, shared: Bytes, t: Bytes,
                              psk': Option<Bytes>, shared': Bytes, t': Bytes)
  {
    var (hs, hs') := (HandshakeSecret(cr, h, EarlySecret(cr, h, psk), shared), HandshakeSecret(cr, h, EarlySecret(cr, h, psk'), shared'));
    && HandshakeApart(cr, h, psk, shared, psk', shared')
    && DeriveApart(cr, h, hs, Derived, [], hs', Derived, [])
    && ExtractApart(cr, h, KeySchedule.Zeros(h), DeriveSecret(cr, h, hs, Derived, []),
                    KeySchedule.Zeros(h), DeriveSecret(cr, h, hs', Derived, []))
    && DeriveApart(cr, h, MasterSecret(cr, h, hs), l, t, MasterSecret(cr, h, hs'), l, t')
  }

  /** Main result: without collisions, the application traffic secrets, the exporter secret and
      the resumption secret of two connections are equal exactly if the transcript digest, the
      PSK and the shared secret are. */
  lemma ApplicationKeysBind(cr: Crypto, h: Hash, psk: Option<Bytes>, shared: Bytes, at: Bytes, t: Bytes,
                            psk': Option<Bytes>, shared': Bytes, at': Bytes, t': Bytes)
    requires forall l :: l in {ClientAp, ServerAp, ExpMaster, ResMaster} ==> MasterApart(cr, h, l, psk, shared, t, psk', shared', t')
    ensures var (m, m') := (DeriveHs(cr, h, psk, shared, at).master, DeriveHs(cr, h, psk', shared', at').master);
      var (ap, ap') := (DeriveAp(cr, h, m, t), DeriveAp(cr, h, m', t'));
      var same := cr.digest(h, t) == cr.digest(h, t') && SamePsk(h, psk, psk') && shared == shared';
      && (ap.client == ap'.client <==> same) && (ap.server == ap'.server <==> same)
      && (ap.exporter == ap'.exporter <==> same)
      && (DeriveEnd(cr, h, m, t).resumption == DeriveEnd(cr, h, m', t').resumption <==> same)
  {
    hide DeriveSecret, HandshakeSecret, HandshakeApart, DeriveApart, SamePsk, MasterSecret;
    MasterKeyBinds(cr, h, ClientAp, psk, shared, at, t, psk', shared', at', t');
    MasterKeyBinds(cr, h, ServerAp, psk, shared, at, t, psk', shared', at', t');
    MasterKeyBinds(cr, h, ExpMaster, psk, shared, at, t, psk', shared', at', t');
    MasterKeyBinds(cr, h, ResMaster, psk, shared, at, t, psk', shared', at', t');
  }

  lemma MasterKeyBinds(cr: Crypto, h: Hash, l: Name, psk: Option<Bytes>, shared: Bytes, at: Bytes, t: Bytes,
                       psk': Option<Bytes>, shared': Bytes, at': Bytes, t': Bytes)
    requires MasterApart(cr, h, l, psk, shared, t, psk', shared', t')
    ensures
      var (m, m') := (DeriveHs(cr, h, psk, shared, at).master, DeriveHs(cr, h, psk', shared', at').master);
      DeriveSecret(cr, h, m, l, t) == DeriveSecret(cr, h, m', l, t') <==>
        cr.digest(h, t) == cr.digest(h, t') && SamePsk(h, psk, psk') && shared == shared'
  {
    hide DeriveSecret, HandshakeSecret, HandshakeApart, DeriveApart, SamePsk, MasterSecret;
    MasterDerivedBinds(cr, h, l, psk, shared, t, l, psk', shared', t');
  }

  datatype Role = ClientRole | ServerRole

  /** "TLS 1.3, client CertificateVerify" or the same for the server, as ASCII, and a zero byte. */
  function SignatureContext(role: Role): (r: Bytes)
    ensures |r| == 34
  {
    [84, 76, 83, 32, 49, 46, 51, 44, 32]
    + (if role == ClientRole then [99, 108, 105, 101, 110, 116] else [115, 101, 114, 118, 101, 114])
    + [32, 67, 101, 114, 116, 105, 102, 105, 99, 97, 116, 101, 86, 101, 114, 105, 102, 121, 0]
  }

  /** The signed content: 64 spaces, the role's context string and the transcript digest. */
  function SignedMessage(role: Role, digest: Bytes): Bytes {
    seq(64, _ => 0x20) + SignatureContext(role) + digest
  }

  /** What is signed tells the role and the transcript digest. */
  lemma SignedMessageBinds(role: Role, digest: Bytes, role': Role, digest': Bytes)
    ensures |SignedMessage(role, digest)| == 64 + 34 + |digest| && SignedMessage(role, digest)[98..] == digest
    ensures SignedMessage(role, digest) == SignedMessage(role', digest') ==> role == role' && digest == digest'
  {
    var s, s' := SignedMessage(role, digest), SignedMessage(role', digest');
    assert s[73] == SignatureContext(role)[9] && s'[73] == SignatureContext(role')[9];
    assert s[98..] == digest && s'[98..] == digest';
  }

  // ---------------------------------------------------------------- client

  datatype ClientPc =
    | CStart | CHello | CRetried | CExtensions | CCertificate | CServerCert | CVerify | CFinished
    | CSendCert | CSendFinished | CDone

  datatype ClientConfig = ClientConfig(
    hello: Hello, keys: PrivateKeys, retryKeys: PrivateKeys,
    session: Option<Session>, age: u32, retryAge: u32,
    chain: seq<Bytes>, certBody: Bytes, signKey: Bytes,
    trusts: seq<Bytes> -> bool, storesTickets: bool)

  datatype Client = Client(
    pc: ClientPc, hello: Hello, keys: PrivateKeys, suite: Option<u16>, hash: Hash, group: u16,
    usingPsk: bool, certReq: bool, peer: seq<Bytes>, transcript: Bytes, k: Keys, flight: seq<Mark>)

  /** The outcome of a step: an error, or the new state, whether a packet was read, and
      what was sent. */
  datatype Move<P> = Fail(error: Error) | Move(party: P, took: bool, sent: seq<Packet>)

  /** The hello with a pre_shared_key offer whose binder is still a placeholder. */
  function Offer(h: Hello, s: Session, age: u32): Hello {
    h.(fields := h.fields[PRE_SHARED_KEY := Psk([PskIdentity(s.ticket, age)], [KeySchedule.Zeros(s.hash)])])
  }

  function BinderOf(cr: Crypto, h: Hash, secret: Bytes, covered: Bytes): Bytes {
    FinishedHash(cr, h, BinderKey(cr, h, EarlySecret(cr, h, Some(secret))), covered)
  }

  /** Main result: without collisions, equal binders mean the same session secret and the same
      digest of what they cover. */
  lemma BinderBinds(cr: Crypto, h: Hash, secret: Bytes, covered: Bytes, secret': Bytes, covered': Bytes)
    requires
      var (e, e') := (EarlySecret(cr, h, Some(secret)), EarlySecret(cr, h, Some(secret')));
      var (b, b') := (BinderKey(cr, h, e), BinderKey(cr, h, e'));
      var i := HkdfLabel(KeySchedule.Size(h), FinishedKey, []).value;
      && ExtractApart(cr, h, secret, KeySchedule.Zeros(h), secret', KeySchedule.Zeros(h))
      && DeriveApart(cr, h, e, ResBinder, [], e', ResBinder, [])
      && ExpandApart(cr, h, b, i, b', i)
      && MacApart(cr, h, cr.expand(h, b, i, KeySchedule.Size(h)), cr.digest(h, covered),
                  cr.expand(h, b', i, KeySchedule.Size(h)), cr.digest(h, covered'))
    ensures BinderOf(cr, h, secret, covered) == BinderOf(cr, h, secret', covered') <==>
      secret == secret' && cr.digest(h, covered) == cr.digest(h, covered')
  {
    hide DeriveSecret, FinishedHash;
    DerivedBinds(cr, h, EarlySecret(cr, h, Some(secret)), ResBinder, [], EarlySecret(cr, h, Some(secret')), ResBinder, []);
    FinishedBinds(cr, h, BinderKey(cr, h, EarlySecret(cr, h, Some(secret))), covered,
                  BinderKey(cr, h, EarlySecret(cr, h, Some(secret'))), covered');
  }

  /** Puts the real binder in place; `prefix` is the transcript in front of the hello. */
  function Bind(env: Env, h: Hash, secret: Bytes, placeholder: Hello, prefix: Bytes): Option<Hello>
    requires placeholder.fields[PRE_SHARED_KEY].Psk?
  {
    var t :- env.truncated(placeholder);
    var binders := [BinderOf(env.cr, h, secret, prefix + t)];
    if SameLengths(binders, placeholder.PskBinders()) then Some(WithBinders(placeholder, binders)) else None
  }

  function FirstHello(env: Env, cfg: ClientConfig): Option<Hello> {
    if cfg.session.None? then Some(cfg.hello)
    else
      var s := cfg.session.value;
      Bind(env, s.hash, s.secret, Offer(cfg.hello, s, cfg.age), [])
  }

  function StartClient(env: Env, cfg: ClientConfig, c: Client): Move<Client> {
    match FirstHello(env, cfg)
    case None => Fail(Unencodable)
    case Some(hello) =>
      match env.marshal(hello)
      case None => Fail(Unencodable)
      case Some(wire) => Move(c.(pc := CHello, hello := hello), false, [Packet(c.k.write, wire)])
  }

  /** The checks that apply to a ServerHello and a HelloRetryRequest alike. */
  predicate HelloOk(c: Client, sh: ServerHello) {
    && sh.sessionId == c.hello.sessionId
    && sh.suite in c.hello.cipherSuites && SuiteHash(sh.suite).Some?
    && (c.suite.Some? ==> c.suite.value == sh.suite)
  }

  function ReadServerHello(env: Env, cfg: ClientConfig, c: Client, bytes: Bytes): Move<Client> {
    match env.decode(bytes)
    case None => Fail(AtOdds(MessageType))
    case Some(m) =>
      if !m.ServerHelloMsg? then Fail(AtOdds(MessageType))
      else if !HelloOk(c, m.hello) then Fail(AtOdds(HelloFields))
      else
        var c' := c.(suite := Some(m.hello.suite), hash := SuiteHash(m.hello.suite).value);
        if c.pc == CRetried then AcceptHello(env, cfg, c', m.hello, c.transcript + bytes)
        else match env.marshal(c.hello)
          case None => Fail(Unencodable)
          case Some(wire) =>
            if m.hello.random == HRR_RANDOM then Retry(env, cfg, c', m.hello, wire, bytes)
            else AcceptHello(env, cfg, c', m.hello, wire + bytes)
  }

  predicate RetryOk(h: Hello, sh: ServerHello) {
    && (sh.selectedGroup != 0 || sh.cookie.Some?)
    && sh.share.group == 0
    && (sh.selectedGroup != 0 ==> RetryIsNecessary(h, sh.selectedGroup))
  }

  /** The second hello before its binder is recomputed. */
  function Retried(cfg: ClientConfig, h: Hello, sh: ServerHello, hash: Hash, share: Option<KeyShare>): Hello {
    var f0 := if sh.cookie.Some? then h.fields[COOKIE := AsVector(sh.cookie.value)] else h.fields;
    var f1 := if share.Some? then f0[KEY_SHARE := Shares([share.value])] else f0;
    h.(fields := f1[EARLY_DATA := Unset][PRE_SHARED_KEY := RetriedPsk(cfg, h, hash)])
  }

  function RetriedPsk(cfg: ClientConfig, h: Hello, hash: Hash): (f: Field)
    ensures Fits(PRE_SHARED_KEY, f)
  {
    if h.fields[PRE_SHARED_KEY].Psk? && cfg.session.Some? && cfg.session.value.hash == hash
    then Psk([PskIdentity(h.PskIdentities()[0].ticket, cfg.retryAge)] + h.PskIdentities()[1..], h.PskBinders())
    else Unset
  }

  function SecondHello(env: Env, cfg: ClientConfig, c: Client, sh: ServerHello, prefix: Bytes, share: Option<KeyShare>)
    : Option<Hello>
  {
    var h := Retried(cfg, c.hello, sh, c.hash, share);
    if h.fields[PRE_SHARED_KEY].Psk? && cfg.session.Some? then Bind(env, c.hash, cfg.session.value.secret, h, prefix)
    else Some(h)
  }

  /** Answers a HelloRetryRequest. */
  function Retry(env: Env, cfg: ClientConfig, c: Client, sh: ServerHello, wire: Bytes, hrr: Bytes): Move<Client> {
    if !RetryOk(c.hello, sh) then Fail(AtOdds(RetryFields))
    else
      var prefix := MessageHash(env.cr, c.hash, wire) + hrr;
      var shares := KeyShares(env.kex, sh.selectedGroup, cfg.retryKeys);
      if sh.selectedGroup != 0 && shares.None? then Fail(Unencodable)
      else
        var share := if sh.selectedGroup != 0 then Some(shares.value[0]) else None;
        match SecondHello(env, cfg, c, sh, prefix, share)
        case None => Fail(Unencodable)
        case Some(hello) =>
          match env.marshal(hello)
          case None => Fail(Unencodable)
          case Some(wire2) =>
            Move(c.(pc := CRetried, hello := hello, keys := if share.Some? then cfg.retryKeys else c.keys,
                    transcript := prefix + wire2),
                 true, [Packet(c.k.write, wire2)])
  }

  predicate AcceptOk(cfg: ClientConfig, c: Client, sh: ServerHello) {
    && sh.random != HRR_RANDOM && (sh.cookie.Some? ==> sh.cookie.value == [])
    && sh.selectedGroup == 0 && sh.share.group != 0
    && HasShare(c.hello.KeyShares(), sh.share.group)
    && (sh.identity.Some? ==>
          && sh.identity.value < |c.hello.PskIdentities()| == 1
          && cfg.session.Some? && cfg.session.value.hash == c.hash)
  }

  /** Takes the ServerHello into the transcript `t` and switches to the handshake keys. */
  function AcceptHello(env: Env, cfg: ClientConfig, c: Client, sh: ServerHello, t: Bytes): Move<Client> {
    if !AcceptOk(cfg, c, sh) then Fail(AtOdds(HelloFields))
    else match ClientShared(env.kex, sh.share.group, c.keys, sh.share.data)
      case None => Fail(AtOdds(SharedKey))
      case Some(shared) =>
        var psk := if sh.identity.Some? then Some(cfg.session.value.secret) else None;
        var hs := DeriveHs(env.cr, c.hash, psk, shared, t);
        Move(c.(pc := CExtensions, group := sh.share.group, usingPsk := psk.Some?, transcript := t,
                k := c.k.(hs := Some(hs), write := Some(hs.client), read := Some(hs.server))),
             true, [])
  }

  /** One message of the server's encrypted flight. */
  function ReadFlight(env: Env, cfg: ClientConfig, c: Client, bytes: Bytes): Move<Client> {
    match env.decode(bytes)
    case None => Fail(AtOdds(MessageType))
    case Some(m) =>
      if c.pc == CExtensions && m.EncryptedExtensions? then
        Move(c.(pc := if c.usingPsk then CFinished else CCertificate, transcript := c.transcript + bytes), true, [])
      else if c.pc == CCertificate && m.CertificateRequest? then
        Move(c.(pc := CServerCert, certReq := true, transcript := c.transcript + bytes), true, [])
      else if c.pc in {CCertificate, CServerCert} && m.Certificate? then
        if m.chain == [] then Fail(AtOdds(Signature))
        else if !cfg.trusts(m.chain) then Fail(Refused)
        else Move(c.(pc := CVerify, peer := m.chain, transcript := c.transcript + bytes), true, [])
      else if c.pc == CVerify && m.CertificateVerify? then
        if !env.verify(c.peer, SignedMessage(ServerRole, env.cr.digest(c.hash, c.transcript)), m.signature)
        then Fail(AtOdds(Signature))
        else if !Encodes(env, m) then Fail(Unencodable)
        else Move(c.(pc := CFinished, transcript := c.transcript + BytesOf(env, m)), true, [])
      else if c.pc == CFinished && m.Finished? && c.k.read.Some? && c.k.hs.Some? then
        if m.verifyData != FinishedHash(env.cr, c.hash, c.k.read.value, c.transcript)
        then Fail(AtOdds(FinishedMac))
        else if !Encodes(env, m) then Fail(Unencodable)
        else
          var t := c.transcript + BytesOf(env, m);
          var ap := DeriveAp(env.cr, c.hash, c.k.hs.value.master, t);
          Move(c.(pc := CSendCert, transcript := t, k := c.k.(ap := Some(ap), read := Some(ap.server))), true, [])
      else if c.pc == CDone && m.NewSessionTicket? then
        if c.k.end.None? then Move(c, true, [])
        else
          var psk := TicketPsk(env.cr, c.hash, c.k.end.value.resumption, m.nonce);
          Move(c.(k := c.k.(ticketPsk := Some(psk))), true, [])
      else Fail(AtOdds(MessageType))
  }

  /** Appends messages to the wire, the transcript and the flight. */
  function Append(env: Env, key: Option<Bytes>, t: Bytes, m: Msg): Mark {
    Mark(Packet(key, BytesOf(env, m)), t + BytesOf(env, m))
  }

  function SendCertificate(env: Env, cfg: ClientConfig, c: Client): Move<Client> {
    if !c.certReq then Move(c.(pc := CSendFinished), false, [])
    else
      var cert := Append(env, c.k.write, c.transcript, Certificate(cfg.chain, cfg.certBody));
      if !Encodes(env, Certificate(cfg.chain, cfg.certBody)) then Fail(Unencodable)
      else if cfg.chain == [] then
        Move(c.(pc := CSendFinished, transcript := cert.after, flight := c.flight + [cert]), false, [cert.packet])
      else
        var signature := env.sign(cfg.signKey, SignedMessage(ClientRole, env.cr.digest(c.hash, cert.after)));
        var verify := Append(env, c.k.write, cert.after, CertificateVerify(signature));
        if !Encodes(env, CertificateVerify(signature)) then Fail(Unencodable)
        else Move(c.(pc := CSendFinished, transcript := verify.after, flight := c.flight + [cert, verify]),
             false, [cert.packet, verify.packet])
  }

  function SendFinished(env: Env, cfg: ClientConfig, c: Client): Move<Client> {
    if c.k.write.None? || c.k.ap.None? || c.k.hs.None? then Fail(AtOdds(MessageType))
    else
      var verifyData := FinishedHash(env.cr, c.hash, c.k.write.value, c.transcript);
      var fin := Append(env, c.k.write, c.transcript, Finished(verifyData));
      var end := if cfg.storesTickets then Some(DeriveEnd(env.cr, c.hash, c.k.hs.value.master, fin.after)) else c.k.end;
      if !Encodes(env, Finished(verifyData)) then Fail(Unencodable)
      else Move(c.(pc := CDone, transcript := fin.after, flight := c.flight + [fin],
              k := c.k.(write := Some(c.k.ap.value.client), end := end)),
           false, [fin.packet])
  }

  predicate ClientReads(pc: ClientPc) { pc !in {CStart, CSendCert, CSendFinished} }

  function ClientStep(env: Env, cfg: ClientConfig, c: Client, inbox: seq<Packet>): Move<Client>
    requires ClientReads(c.pc) ==> inbox != []
  {
    if c.pc == CStart then StartClient(env, cfg, c)
    else if c.pc == CSendCert then SendCertificate(env, cfg, c)
    else if c.pc == CSendFinished then SendFinished(env, cfg, c)
    else if inbox[0].key != c.k.read then Fail(AtOdds(RecordKey))
    else if c.pc in {CHello, CRetried} then ReadServerHello(env, cfg, c, inbox[0].bytes)
    else ReadFlight(env, cfg, c, inbox[0].bytes)
  }

  // ---------------------------------------------------------------- server

  datatype ServerPc =
    | SHello | SRetry | SResume | SParams | SCert | SFinish | SWaitCert | SWaitVerify | SWaitFinished | SDone

  datatype ServerConfig = ServerConfig(
    random: Bytes, groups: seq<u16>, suites: seq<u16> -> seq<u16>, keys: PrivateKeys,
    tickets: Bytes -> Option<Session>, ticketsDisabled: bool, ticketFor: Bytes -> Bytes,
    extensions: Bytes, requestCert: bool, requestBody: Bytes,
    chain: seq<Bytes>, certBody: Bytes, signKey: Bytes,
    accepts: Hello -> bool, acceptsCert: seq<Bytes> -> bool, isQuic: bool)

  /** What the server took from the client's hello. */
  datatype Heard = Heard(hello: Hello, suite: u16, hash: Hash, group: u16, share: KeyShare)

  /** What the server answers it with. */
  datatype Deal = Deal(shared: Bytes, share: KeyShare, psk: Option<Bytes>, identity: Option<u16>)

  const NO_DEAL: Deal := Deal([], NO_SHARE, None, None)

  datatype Server = Server(
    pc: ServerPc, o: Heard, d: Deal, transcript: Bytes, base: Bytes, k: Keys,
    clientFinished: Bytes, peer: seq<Bytes>, flight: seq<Mark>)

  /** A suite the server knows and the client offers. */
  predicate SuiteOk(offered: seq<u16>, suite: u16) { suite in offered && SuiteHash(suite).Some? }

  function SelectSuite(prefs: seq<u16>, offered: seq<u16>): (r: Option<u16>)
    ensures r.Some? ==> r.value in prefs && SuiteOk(offered, r.value)
  {
    if prefs == [] then None
    else if SuiteOk(offered, prefs[0]) then Some(prefs[0])
    else SelectSuite(prefs[1..], offered)
  }

  /** The suite chosen is the first of the server's that will do; `i` is its place. */
  lemma {:induction false} SuiteIsFirst(prefs: seq<u16>, offered: seq<u16>) returns (i: nat)
    ensures i <= |prefs| && forall j :: 0 <= j < i ==> !SuiteOk(offered, prefs[j])
    ensures SelectSuite(prefs, offered) == if i < |prefs| then Some(prefs[i]) else None
  {
    if prefs == [] || SuiteOk(offered, prefs[0]) { i := 0; } else {
      i := SuiteIsFirst(prefs[1..], offered);
      i := i + 1;
      assert forall j :: 1 <= j < i ==> prefs[j] == prefs[1..][j - 1];
    }
  }

  function FindShare(shares: seq<KeyShare>, g: u16): (r: Option<KeyShare>)
    ensures r.Some? ==> r.value in shares && r.value.group == g
    ensures r.None? ==> !HasShare(shares, g)
  {
    if shares == [] then None else if shares[0].group == g then Some(shares[0]) else FindShare(shares[1..], g)
  }

  /** The share found is the client's first for the group; `i` is its place. */
  lemma {:induction false} ShareIsFirst(shares: seq<KeyShare>, g: u16) returns (i: nat)
    ensures i <= |shares| && forall j :: 0 <= j < i ==> shares[j].group != g
    ensures FindShare(shares, g) == if i < |shares| then Some(shares[i]) else None
  {
    if shares == [] || shares[0].group == g { i := 0; } else {
      i := ShareIsFirst(shares[1..], g);
      i := i + 1;
      assert forall j :: 1 <= j < i ==> shares[j] == shares[1..][j - 1];
    }
  }

  lemma ShareFound(shares: seq<KeyShare>, g: u16)
    ensures FindShare(shares, g).Some? <==> HasShare(shares, g)
  {
  }

  function HelloRetryRequest(h: Hello, suite: u16, g: u16): ServerHello {
    ServerHello(HRR_RANDOM, h.sessionId, suite, g, NO_SHARE, None, None)
  }

  /** The server's demands on a first hello; `accepts` stands for those that depend on its
      configuration (fallback, ALPN).  Only QUIC takes early data, and only with an offer. */
  predicate FirstHelloOk(cfg: ServerConfig, h: Hello) {
    && h.NumbersAt(SUPPORTED_VERSIONS) != [] && h.compressionMethods == [0]
    && h.VectorAt(RENEGOTIATION_INFO) == []
    && (h.fields[EARLY_DATA] != Unset ==> cfg.isQuic && h.PskIdentities() != [])
    && cfg.accepts(h)
  }

  function ReadClientHello(env: Env, cfg: ServerConfig, s: Server, bytes: Bytes): Move<Server> {
    match env.unmarshal(bytes)
    case None => Fail(Malformed)
    case Some(h) =>
      if !FirstHelloOk(cfg, h) then Fail(Refused)
      else match SelectSuite(cfg.suites(h.cipherSuites), h.cipherSuites)
        case None => Fail(NoOverlap)
        case Some(suite) =>
          match SelectGroup(cfg.groups, h.NumbersAt(SUPPORTED_CURVES), h.KeyShares())
          case None => Fail(NoOverlap)
          case Some(g) =>
            var hash := SuiteHash(suite).value;
            match FindShare(h.KeyShares(), g)
            case Some(share) => Move(s.(pc := SResume, o := Heard(h, suite, hash, g, share)), true, [])
            case None =>
              var hrr := BytesOf(env, ServerHelloMsg(HelloRetryRequest(h, suite, g)));
              if !Encodes(env, ServerHelloMsg(HelloRetryRequest(h, suite, g))) then Fail(Unencodable)
              else Move(s.(pc := SRetry, o := Heard(h, suite, hash, g, NO_SHARE),
                      transcript := MessageHash(env.cr, hash, bytes) + hrr),
                   true, [Packet(s.k.write, hrr)])
  }

  function ReadSecondHello(env: Env, s: Server, bytes: Bytes): Move<Server> {
    match env.unmarshal(bytes)
    case None => Fail(Malformed)
    case Some(h) =>
      if |h.KeyShares()| != 1 || h.KeyShares()[0].group != s.o.group || h.fields[EARLY_DATA] != Unset
         || IllegalChange(h, s.o.hello)
      then Fail(AtOdds(RetryFields))
      else Move(s.(pc := SResume, o := s.o.(hello := h, share := h.KeyShares()[0])), true, [])
  }

  /** Main result: the server settles on the best common group.  It asks for a retry exactly
      if the first hello has no share for that group, and has a share for it in the end.
   */
  lemma SettlesOnBest(env: Env, cfg: ServerConfig, s: Server, first: Bytes, second: Bytes)
    requires ReadClientHello(env, cfg, s, first).Move?
    ensures env.unmarshal(first).Some?
    ensures var h, s1 := env.unmarshal(first).value, ReadClientHello(env, cfg, s, first).party;
      && s1.o.group in cfg.groups && s1.o.group in h.NumbersAt(SUPPORTED_CURVES)
      && (forall g :: g in cfg.groups && g in h.NumbersAt(SUPPORTED_CURVES) ==>
            AtLeastAsGood(cfg.groups, h.KeyShares(), s1.o.group, g))
      && s1.pc == (if HasShare(h.KeyShares(), s1.o.group) then SResume else SRetry)
      && (s1.pc == SResume ==> s1.o.share in h.KeyShares() && s1.o.share.group == s1.o.group)
      && (s1.pc == SRetry && ReadSecondHello(env, s1, second).Move? ==>
            var s2 := ReadSecondHello(env, s1, second).party;
            s2.pc == SResume && s2.o.group == s1.o.group && s2.o.share.group == s1.o.group)
  {
    hide SelectGroup, AtLeastAsGood, IllegalChange, MessageHash, SelectSuite, FindShare, HasShare;
    var h, s1 := env.unmarshal(first).value, ReadClientHello(env, cfg, s, first).party;
    SelectsBest(cfg.groups, h.NumbersAt(SUPPORTED_CURVES), h.KeyShares());
    ShareFound(h.KeyShares(), s1.o.group);
  }

  datatype Resumption = Fresh | Resumed(index: nat, secret: Bytes) | BadBinder | NoPrefix

  /** The loop over the offered identities, from the `i`-th on. */
  function TryIdentities(env: Env, cfg: ServerConfig, s: Server, i: nat): (r: Resumption)
    requires |s.o.hello.PskBinders()| == |s.o.hello.PskIdentities()|
    ensures r.Resumed? ==>
      && i <= r.index < |s.o.hello.PskIdentities()| && r.index < MAX_PSK_IDENTITIES
      && var k := cfg.tickets(s.o.hello.PskIdentities()[r.index].ticket);
      && k.Some? && k.value.hash == s.o.hash && k.value.secret == r.secret
      && env.truncated(s.o.hello).Some?
      && s.o.hello.PskBinders()[r.index] ==
         BinderOf(env.cr, s.o.hash, r.secret, s.transcript + env.truncated(s.o.hello).value)
    decreases |s.o.hello.PskIdentities()| - i
  {
    if i >= |s.o.hello.PskIdentities()| || i >= MAX_PSK_IDENTITIES then Fresh
    else
      var k := cfg.tickets(s.o.hello.PskIdentities()[i].ticket);
      if k.None? || k.value.hash != s.o.hash then TryIdentities(env, cfg, s, i + 1)
      else match env.truncated(s.o.hello)
        case None => NoPrefix
        case Some(t) =>
          if s.o.hello.PskBinders()[i] == BinderOf(env.cr, s.o.hash, k.value.secret, s.transcript + t)
          then Resumed(i, k.value.secret) else BadBinder
  }

  /** A ticket of the client's that opens and goes with the suite. */
  predicate IdentityOk(cfg: ServerConfig, s: Server, i: nat)
    requires i < |s.o.hello.PskIdentities()|
  {
    var k := cfg.tickets(s.o.hello.PskIdentities()[i].ticket);
    k.Some? && k.value.hash == s.o.hash
  }

  /** The first good identity among the first five decides, by its binder alone; `j` is its
      place, or where the search ends without one. */
  lemma {:induction false} FirstIdentityDecides(env: Env, cfg: ServerConfig, s: Server, i: nat) returns (j: nat)
    requires |s.o.hello.PskBinders()| == |s.o.hello.PskIdentities()|
    ensures var n := |s.o.hello.PskIdentities()|;
      && i <= j && (forall m :: i <= m < j && m < n && m < MAX_PSK_IDENTITIES ==> !IdentityOk(cfg, s, m))
      && TryIdentities(env, cfg, s, i) ==
         if j >= n || j >= MAX_PSK_IDENTITIES then Fresh
         else if env.truncated(s.o.hello).None? then NoPrefix
         else
           var secret := if IdentityOk(cfg, s, j) then cfg.tickets(s.o.hello.PskIdentities()[j].ticket).value.secret else [];
           if s.o.hello.PskBinders()[j] ==
              BinderOf(env.cr, s.o.hash, secret, s.transcript + env.truncated(s.o.hello).value)
           then Resumed(j, secret) else BadBinder
    ensures j < |s.o.hello.PskIdentities()| && j < MAX_PSK_IDENTITIES ==> IdentityOk(cfg, s, j)
    decreases |s.o.hello.PskIdentities()| - i
  {
    hide BinderOf;
    if i >= |s.o.hello.PskIdentities()| || i >= MAX_PSK_IDENTITIES || IdentityOk(cfg, s, i) { j := i; } else {
      j := FirstIdentityDecides(env, cfg, s, i + 1);
    }
  }

  function CheckForResumption(env: Env, cfg: ServerConfig, s: Server): Resumption {
    if cfg.ticketsDisabled || PSK_MODE_DHE !in s.o.hello.VectorAt(PSK_MODES) then Fresh
    else if |s.o.hello.PskIdentities()| != |s.o.hello.PskBinders()| then BadBinder
    else TryIdentities(env, cfg, s, 0)
  }

  function ResumeStep(env: Env, cfg: ServerConfig, s: Server): Move<Server> {
    match ServerShared(env.kex, s.o.group, cfg.keys, s.o.share.data)
    case None => Fail(AtOdds(SharedKey))
    case Some((shared, share)) =>
      match CheckForResumption(env, cfg, s)
      case Fresh => Move(s.(pc := SParams, d := Deal(shared, share, None, None)), false, [])
      case Resumed(i, secret) => Move(s.(pc := SParams, d := Deal(shared, share, Some(secret), Some(i))), false, [])
      case BadBinder => Fail(AtOdds(Binder))
      case NoPrefix => Fail(Unencodable)
  }

  function HelloOf(cfg: ServerConfig, s: Server): ServerHello {
    ServerHello(cfg.random, s.o.hello.sessionId, s.o.suite, 0, s.d.share, s.d.identity, None)
  }

  function SendParameters(env: Env, cfg: ServerConfig, s: Server): Move<Server> {
    match s.o.hello.original
    case None => Fail(Unencodable)
    case Some(wire) =>
      var base := s.transcript + wire;
      var sh := Append(env, s.k.write, base, ServerHelloMsg(HelloOf(cfg, s)));
      var hs := DeriveHs(env.cr, s.o.hash, s.d.psk, s.d.shared, sh.after);
      var ee := Append(env, Some(hs.server), sh.after, EncryptedExtensions(cfg.extensions));
      if !Encodes(env, ServerHelloMsg(HelloOf(cfg, s))) || !Encodes(env, EncryptedExtensions(cfg.extensions))
      then Fail(Unencodable)
      else Move(s.(pc := SCert, base := base, transcript := ee.after, flight := [sh, ee],
              k := s.k.(hs := Some(hs), write := Some(hs.server), read := Some(hs.client))),
           false, [sh.packet, ee.packet])
  }

  predicate Requests(cfg: ServerConfig, s: Server) { cfg.requestCert && s.d.psk.None? }

  function SendServerCertificate(env: Env, cfg: ServerConfig, s: Server): Move<Server> {
    if s.d.psk.Some? then Move(s.(pc := SFinish), false, [])
    else
      var request := if Requests(cfg, s)
        then [Append(env, s.k.write, s.transcript, CertificateRequest(cfg.requestBody))] else [];
      var t := if request == [] then s.transcript else request[0].after;
      var cert := Append(env, s.k.write, t, Certificate(cfg.chain, cfg.certBody));
      var signature := env.sign(cfg.signKey, SignedMessage(ServerRole, env.cr.digest(s.o.hash, cert.after)));
      var verify := Append(env, s.k.write, cert.after, CertificateVerify(signature));
      var sent := request + [cert, verify];
      if (Requests(cfg, s) && !Encodes(env, CertificateRequest(cfg.requestBody)))
         || !Encodes(env, Certificate(cfg.chain, cfg.certBody)) || !Encodes(env, CertificateVerify(signature))
      then Fail(Unencodable)
      else Move(s.(pc := SFinish, transcript := verify.after, flight := s.flight + sent), false, Packets(sent))
  }

  function Packets(ms: seq<Mark>): (ps: seq<Packet>)
    ensures |ps| == |ms| && forall i :: 0 <= i < |ms| ==> ps[i] == ms[i].packet
  {
    seq(|ms|, i requires 0 <= i < |ms| => ms[i].packet)
  }

  /** Rolls the transcript over the client's Finished before it arrives, and sends a ticket. */
  function SendTickets(env: Env, cfg: ServerConfig, s: Server): Move<Server> {
    if s.k.read.None? || s.k.hs.None? then Fail(AtOdds(MessageType))
    else
      var v := FinishedHash(env.cr, s.o.hash, s.k.read.value, s.transcript);
      var t := s.transcript + BytesOf(env, Finished(v));
      var end := DeriveEnd(env.cr, s.o.hash, s.k.hs.value.master, t);
      var k := s.k.(end := Some(end));
      var s' := s.(pc := SWaitFinished, clientFinished := v, transcript := t, k := k);
      if !Encodes(env, Finished(v)) then Fail(Unencodable)
      else if cfg.ticketsDisabled || cfg.isQuic || PSK_MODE_DHE !in s.o.hello.VectorAt(PSK_MODES)
      then Move(s', true, [])
      else
        var psk := TicketPsk(env.cr, s.o.hash, end.resumption, []);
        var ticket := Mark(Packet(s.k.write, BytesOf(env, NewSessionTicket([], cfg.ticketFor(psk)))), t);
        if !Encodes(env, NewSessionTicket([], cfg.ticketFor(psk))) then Fail(Unencodable)
        else Move(s'.(k := k.(ticketPsk := Some(psk)), flight := s.flight + [ticket]), true, [ticket.packet])
  }

  function SendServerFinished(env: Env, cfg: ServerConfig, s: Server): Move<Server> {
    if s.k.write.None? || s.k.hs.None? then Fail(AtOdds(MessageType))
    else
      var v := FinishedHash(env.cr, s.o.hash, s.k.write.value, s.transcript);
      var fin := Append(env, s.k.write, s.transcript, Finished(v));
      var ap := DeriveAp(env.cr, s.o.hash, s.k.hs.value.master, fin.after);
      var s' := s.(pc := SWaitCert, transcript := fin.after, flight := s.flight + [fin],
                   k := s.k.(ap := Some(ap), write := Some(ap.server)));
      if !Encodes(env, Finished(v)) then Fail(Unencodable)
      else if Requests(cfg, s) then Move(s', false, [fin.packet])
      else
        var more := SendTickets(env, cfg, s');
        if more.Fail? then more else Move(more.party, false, [fin.packet] + more.sent)
  }

  function ReadClientFlight(env: Env, cfg: ServerConfig, s: Server, bytes: Bytes): Move<Server> {
    match env.decode(bytes)
    case None => Fail(AtOdds(MessageType))
    case Some(m) =>
      if s.pc == SWaitCert && m.Certificate? then
        if !cfg.acceptsCert(m.chain) then Fail(Refused)
        else if m.chain == [] then SendTickets(env, cfg, s.(transcript := s.transcript + bytes))
        else Move(s.(pc := SWaitVerify, peer := m.chain, transcript := s.transcript + bytes), true, [])
      else if s.pc == SWaitVerify && m.CertificateVerify? then
        if !env.verify(s.peer, SignedMessage(ClientRole, env.cr.digest(s.o.hash, s.transcript)), m.signature)
        then Fail(AtOdds(Signature))
        else if !Encodes(env, m) then Fail(Unencodable)
        else SendTickets(env, cfg, s.(transcript := s.transcript + BytesOf(env, m)))
      else if s.pc == SWaitFinished && m.Finished? && s.k.ap.Some? then
        if m.verifyData != s.clientFinished then Fail(AtOdds(FinishedMac))
        else Move(s.(pc := SDone, k := s.k.(read := Some(s.k.ap.value.client))), true, [])
      else Fail(AtOdds(MessageType))
  }

  predicate ServerReads(pc: ServerPc) { pc !in {SResume, SParams, SCert, SFinish} }

  function ServerStep(env: Env, cfg: ServerConfig, s: Server, inbox: seq<Packet>): Move<Server>
    requires ServerReads(s.pc) ==> inbox != []
  {
    if s.pc == SResume then ResumeStep(env, cfg, s)
    else if s.pc == SParams then SendParameters(env, cfg, s)
    else if s.pc == SCert then SendServerCertificate(env, cfg, s)
    else if s.pc == SFinish then SendServerFinished(env, cfg, s)
    else if inbox[0].key != s.k.read then Fail(AtOdds(RecordKey))
    else if s.pc == SHello then ReadClientHello(env, cfg, s, inbox[0].bytes)
    else if s.pc == SRetry then ReadSecondHello(env, s, inbox[0].bytes)
    else ReadClientFlight(env, cfg, s, inbox[0].bytes)
  }

  // ---------------------------------------------------------------- the system

  datatype System = System(c: Client, s: Server, toC: seq<Packet>, toS: seq<Packet>)

  /** The system, and the errors its parties have stopped with. */
  datatype State = State(x: System, clientError: Option<Error>, serverError: Option<Error>)

  /** Nothing sent yet; `unread` fills the server's hello field until a hello arrives. */
  function Initial(cc: ClientConfig, unread: Hello): State {
    var c := Client(CStart, cc.hello, cc.keys, None, Sha256, 0, false, false, [], [], NO_KEYS, []);
    var s := Server(SHello, Heard(unread, 0, Sha256, 0, NO_SHARE), NO_DEAL, [], [], NO_KEYS, [], [], []);
    State(System(c, s, [], []), None, None)
  }

  predicate ClientCanMove(x: System) { ClientReads(x.c.pc) ==> x.toC != [] }
  predicate ServerCanMove(x: System) { ServerReads(x.s.pc) ==> x.toS != [] }

  /** The system after a step of one party that did not fail. */
  function AfterClient(x: System, m: Move<Client>): System
    requires m.Move?
  {
    System(m.party, x.s, if m.took && x.toC != [] then x.toC[1..] else x.toC, x.toS + m.sent)
  }

  function AfterServer(x: System, m: Move<Server>): System
    requires m.Move?
  {
    System(x.c, m.party, x.toC + m.sent, if m.took && x.toS != [] then x.toS[1..] else x.toS)
  }

  /** One step of a run: `who` moves, unless it has stopped or has nothing to read. */
  predicate Step(env: Env, cc: ClientConfig, sc: ServerConfig, who: Role, a: State, b: State) {
    if who == ClientRole then
      && a.clientError.None? && ClientCanMove(a.x)
      && var m := ClientStep(env, cc, a.x.c, a.x.toC);
      b == if m.Fail? then a.(clientError := Some(m.error)) else a.(x := AfterClient(a.x, m))
    else
      && a.serverError.None? && ServerCanMove(a.x)
      && var m := ServerStep(env, sc, a.x.s, a.x.toS);
      b == if m.Fail? then a.(serverError := Some(m.error)) else a.(x := AfterServer(a.x, m))
  }
}
