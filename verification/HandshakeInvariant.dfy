/** What every interleaving of an honest handshake keeps.

    Until the server has sent its ServerHello the two parties take turns (`Opening`).
    From then on the server's flight, and later the client's, are lists of marks: sent
    messages with the sender's transcript behind each.  The receiver has consumed some
    prefix of such a list, and its transcript is the mark it has reached (`Flights`).
 */
module HandshakeInvariant {
  import opened Wire
  import opened ClientHello
  import opened PskBinders
  import opened KeySchedule
  import opened KeyExchange
  import opened Groups
  import opened Handshake13

  datatype Run = Run(env: Env, cc: ClientConfig, sc: ServerConfig)

  ghost predicate DecodesAt(env: Env, m: Msg) { Encodes(env, m) ==> env.decode(BytesOf(env, m)) == Some(m) }
  ghost predicate MacSizeAt(cr: Crypto, h: Hash, k: Bytes, x: Bytes) { |cr.mac(h, k, x)| == Size(h) }
  ghost predicate SignsAt(env: Env, chain: seq<Bytes>, key: Bytes, x: Bytes) { env.verify(chain, x, env.sign(key, x)) }

  /** What the receiver of a printed hello holds. */
  ghost predicate ReceivesAt(env: Env, h: Hello) {
    env.marshal(h).Some? && env.unmarshal(env.marshal(h).value).Some? ==>
      var wire, got := env.marshal(h).value, env.unmarshal(env.marshal(h).value).value;
      && got.original == Some(wire)
      && got.vers == h.vers && got.random == h.random && got.sessionId == h.sessionId
      && got.cipherSuites == h.cipherSuites && got.compressionMethods == h.compressionMethods
      && (forall k :: 0 <= k < PRE_SHARED_KEY ==> got.fields[k] == h.fields[k])
      && (h.fields[ENCRYPTED_CLIENT_HELLO] == Unset ==> got.fields[PRE_SHARED_KEY] == h.fields[PRE_SHARED_KEY])
      && (h.original == None && h.fields[ENCRYPTED_CLIENT_HELLO] == Unset ==> env.truncated(got) == env.truncated(h))
  }

  /** Binders of other contents leave the truncated hello as it is. */
  ghost predicate TruncatesAt(env: Env, h: Hello, binders: seq<Bytes>) {
    h.original == None && h.fields[ENCRYPTED_CLIENT_HELLO] == Unset && h.fields[PRE_SHARED_KEY].Psk?
    && SameLengths(binders, h.PskBinders()) ==>
      env.truncated(WithBinders(h, binders)) == env.truncated(h)
  }

  ghost predicate HelloLaws(env: Env) {
    && (forall h :: ReceivesAt(env, h))
    && (forall h, binders :: TruncatesAt(env, h, binders))
  }

  ghost predicate AllAnswerable(p: Primitives, k: PrivateKeys, shares: seq<KeyShare>) {
    forall i :: 0 <= i < |shares| ==> Answerable(p, k, shares[i])
  }

  /** A ServerHello carries a share for a group and no cookie, a HelloRetryRequest a
      selected group and no share. */
  predicate SoundHello(h: ServerHello) {
    && h.cookie.None?
    && (if h.selectedGroup != 0 then h.share == NO_SHARE else h.share.group != 0)
  }

  /** The messages that the two parties may send. */
  predicate HonestMsg(r: Run, m: Msg) {
    match m
    case ServerHelloMsg(h) => SoundHello(h)
    case EncryptedExtensions(body) => body == r.sc.extensions
    case CertificateRequest(body) => body == r.sc.requestBody
    case Certificate(chain, body) =>
      (chain == r.sc.chain && body == r.sc.certBody) || (chain == r.cc.chain && body == r.cc.certBody)
    case CertificateVerify(_) => true
    case Finished(_) => true
    case NewSessionTicket(nonce, _) => nonce == []
  }

  /** Two honest parties and the laws of the primitives: decoding undoes encoding for the
      messages whose codec is not spelled out, MACs have the hash's size, key exchanges
      agree, signatures verify, the client's shares are its own, and a ticket the server
      accepts holds the secret the client has for it.
   */
  ghost predicate HonestParties(r: Run) {
    && KeyExchange.Laws(r.env.kex)
    && (forall m :: HonestMsg(r, m) && !m.ServerHelloMsg? && !m.Finished? ==> DecodesAt(r.env, m))
    && (forall h, k, x :: MacSizeAt(r.env.cr, h, k, x))
    && AllAnswerable(r.env.kex, r.cc.keys, r.cc.hello.KeyShares())
    && r.cc.hello.original == None
    && r.cc.hello.fields[ENCRYPTED_CLIENT_HELLO] == Unset && r.cc.hello.fields[PRE_SHARED_KEY] == Unset
    && r.sc.random != HRR_RANDOM && r.sc.chain != []
    && (forall g :: g in r.sc.groups ==> Supported(g))
    && (forall x :: SignsAt(r.env, r.sc.chain, r.sc.signKey, x))
    && (r.cc.chain != [] ==> forall x :: SignsAt(r.env, r.cc.chain, r.cc.signKey, x))
    && (r.cc.session.Some? ==>
          var k := r.sc.tickets(r.cc.session.value.ticket);
          k.Some? ==> k.value.secret == r.cc.session.value.secret && k.value.hash == r.cc.session.value.hash)
  }

  /** Every message that an honest party sends decodes to itself. */
  ghost predicate MessageLaws(r: Run) { forall m :: HonestMsg(r, m) ==> DecodesAt(r.env, m) }

  ghost predicate Honest(r: Run) { HelloLaws(r.env) && MessageLaws(r) && HonestParties(r) }

  ghost predicate NotAtOdds(e: Option<Error>) { e.Some? ==> !e.value.AtOdds? }

  // ---------------------------------------------------------------- the opening

  /** A hello the client sent: printable, with shares of its own and at most one offer. */
  ghost predicate OwnHello(r: Run, h: Hello, keys: PrivateKeys) {
    && h.original == None && h.fields[ENCRYPTED_CLIENT_HELLO] == Unset
    && r.env.marshal(h).Some?
    && AllAnswerable(r.env.kex, keys, h.KeyShares())
    && (h.fields[PRE_SHARED_KEY] != Unset ==>
          && r.cc.session.Some? && |h.PskIdentities()| == 1
          && h.PskIdentities()[0].ticket == r.cc.session.value.ticket)
  }

  /** The offer's binder covers `prefix` and the hello up to the binders. */
  ghost predicate Bound(r: Run, h: Hello, prefix: Bytes) {
    h.fields[PRE_SHARED_KEY] != Unset ==>
      && r.cc.session.Some? && r.env.truncated(h).Some?
      && h.PskBinders() ==
         [BinderOf(r.env.cr, r.cc.session.value.hash, r.cc.session.value.secret, prefix + r.env.truncated(h).value)]
  }

  /** The server holds the client's current hello, with a suite and a share taken from it. */
  ghost predicate Listened(r: Run, c: Client, s: Server) {
    && r.env.unmarshal(Wired(r.env, c.hello)) == Some(s.o.hello)
    && SuiteHash(s.o.suite) == Some(s.o.hash) && s.o.suite in c.hello.cipherSuites
    && Supported(s.o.group)
    && s.o.share in c.hello.KeyShares() && s.o.share.group == s.o.group
  }

  ghost function Wired(env: Env, h: Hello): Bytes { if env.marshal(h).Some? then env.marshal(h).value else [] }

  /** The server has also computed the shared secret and decided about resumption. */
  ghost predicate Settled(r: Run, c: Client, s: Server) {
    && ClientShared(r.env.kex, s.o.group, c.keys, s.d.share.data) == Some(s.d.shared) && s.d.share.group == s.o.group
    && (s.d.psk.Some? <==> s.d.identity.Some?)
    && (s.d.psk.Some? ==>
          && s.d.identity == Some(0) && c.hello.fields[PRE_SHARED_KEY] != Unset
          && r.cc.session.Some? && s.d.psk.value == r.cc.session.value.secret && r.cc.session.value.hash == s.o.hash)
  }

  ghost predicate Blank(x: System) {
    x.c.k == NO_KEYS && x.c.flight == [] && !x.c.certReq && x.s.k == NO_KEYS && x.s.flight == []
  }

  ghost predicate Opening(r: Run, x: System) {
    && Blank(x)
    && x.s.pc in {SHello, SRetry, SResume, SParams} && x.c.pc in {CStart, CHello, CRetried}
    && (x.s.pc == SParams ==> Settled(r, x.c, x.s))
    && (if x.c.pc == CStart then Quiet(r, x) else if x.c.pc == CHello then FirstRound(r, x) else SecondRound(r, x))
  }

  ghost predicate Quiet(r: Run, x: System) {
    && x.s.pc == SHello && x.toC == [] && x.toS == [] && x.s.transcript == []
    && x.c.hello == r.cc.hello && x.c.keys == r.cc.keys && x.c.suite == None
  }

  ghost predicate FirstRound(r: Run, x: System) {
    var wire := Wired(r.env, x.c.hello);
    && OwnHello(r, x.c.hello, x.c.keys) && Bound(r, x.c.hello, []) && x.c.suite == None
    && x.toS == (if x.s.pc == SHello then [Packet(None, wire)] else [])
    && (if x.s.pc == SRetry then RetrySent(r, x) else x.s.transcript == [] && x.toC == [])
    && (x.s.pc in {SResume, SParams} ==> Listened(r, x.c, x.s))
  }

  ghost predicate RetrySent(r: Run, x: System) {
    var wire := Wired(r.env, x.c.hello);
    var hrr := BytesOf(r.env, ServerHelloMsg(HelloRetryRequest(x.s.o.hello, x.s.o.suite, x.s.o.group)));
    && r.env.unmarshal(wire) == Some(x.s.o.hello)
    && SuiteHash(x.s.o.suite) == Some(x.s.o.hash) && x.s.o.suite in x.c.hello.cipherSuites
    && Supported(x.s.o.group) && RetryIsNecessary(x.c.hello, x.s.o.group)
    && Encodes(r.env, ServerHelloMsg(HelloRetryRequest(x.s.o.hello, x.s.o.suite, x.s.o.group)))
    && x.s.transcript == MessageHash(r.env.cr, x.s.o.hash, wire) + hrr
    && x.toC == [Packet(None, hrr)]
  }

  ghost predicate SecondRound(r: Run, x: System) {
    var wire := Wired(r.env, x.c.hello);
    && x.s.pc != SHello && x.toC == []
    && OwnHello(r, x.c.hello, x.c.keys) && Bound(r, x.c.hello, x.s.transcript)
    && x.c.suite == Some(x.s.o.suite) && x.c.hash == x.s.o.hash
    && x.c.transcript == x.s.transcript + wire
    && x.toS == (if x.s.pc == SRetry then [Packet(None, wire)] else [])
    && (if x.s.pc == SRetry then Awaited(r, x, wire) else Listened(r, x.c, x.s))
  }

  /** The second hello in flight passes the server's checks. */
  ghost predicate Awaited(r: Run, x: System, wire: Bytes) {
    && SuiteHash(x.s.o.suite) == Some(x.s.o.hash) && x.s.o.suite in x.c.hello.cipherSuites && Supported(x.s.o.group)
    && |x.c.hello.KeyShares()| == 1 && x.c.hello.KeyShares()[0].group == x.s.o.group
    && (r.env.unmarshal(wire).Some? ==>
          var h := r.env.unmarshal(wire).value;
          h.fields[EARLY_DATA] == Unset && !IllegalChange(h, x.s.o.hello))
  }

  // ---------------------------------------------------------------- the flights

  /** What the server's flight is built from. */
  datatype Terms = Terms(hash: Hash, base: Bytes, hello: ServerHello, psk: bool, req: bool, hs: HsKeys)

  ghost function TermsOf(r: Run, s: Server): Terms
    requires s.k.hs.Some?
  {
    Terms(s.o.hash, s.base, HelloOf(r.sc, s), s.d.psk.Some?, Requests(r.sc, s), s.k.hs.value)
  }

  /** The place of the server's Finished in its flight. */
  ghost function Fin(t: Terms): nat { if t.psk then 2 else if t.req then 5 else 4 }

  ghost function Before(base: Bytes, flight: seq<Mark>, i: nat): Bytes
    requires i <= |flight|
  {
    if i == 0 then base else flight[i - 1].after
  }

  ghost function ApOf(r: Run, t: Terms, flight: seq<Mark>): ApKeys
    requires Fin(t) < |flight|
  {
    DeriveAp(r.env.cr, t.hash, t.hs.master, flight[Fin(t)].after)
  }

  /** The message at place `i` of the server's flight, up to Finished. */
  ghost function Planned(r: Run, t: Terms, before: Bytes, i: nat): Msg
    requires i <= Fin(t)
  {
    if i == 0 then ServerHelloMsg(t.hello)
    else if i == 1 then EncryptedExtensions(r.sc.extensions)
    else if i == Fin(t) then Finished(FinishedHash(r.env.cr, t.hash, t.hs.server, before))
    else if i == Fin(t) - 1 then
      CertificateVerify(r.env.sign(r.sc.signKey, SignedMessage(ServerRole, r.env.cr.digest(t.hash, before))))
    else if i == Fin(t) - 2 then Certificate(r.sc.chain, r.sc.certBody)
    else CertificateRequest(r.sc.requestBody)
  }

  ghost predicate MarkOk(r: Run, t: Terms, flight: seq<Mark>, i: nat)
    requires i < |flight|
  {
    var before := Before(t.base, flight, i);
    if i <= Fin(t) then
      Encodes(r.env, Planned(r, t, before, i)) &&
      flight[i] == Append(r.env, if i == 0 then None else Some(t.hs.server), before, Planned(r, t, before, i))
    else
      && i == Fin(t) + 1 && flight[i].packet.key == Some(ApOf(r, t, flight).server)
      && exists ticket ::
           && Encodes(r.env, NewSessionTicket([], ticket))
           && flight[i].packet.bytes == BytesOf(r.env, NewSessionTicket([], ticket))
  }

  ghost predicate DownOk(r: Run, t: Terms, flight: seq<Mark>) {
    forall i {:trigger MarkOk(r, t, flight, i)} :: 0 <= i < |flight| ==> MarkOk(r, t, flight, i)
  }

  /** The place of the client's Finished in its flight. */
  ghost function ClientFin(r: Run, t: Terms): nat { if !t.req then 0 else if r.cc.chain == [] then 1 else 2 }

  ghost function PlannedUp(r: Run, t: Terms, before: Bytes, i: nat): Msg
    requires i <= ClientFin(r, t)
  {
    if i == ClientFin(r, t) then Finished(FinishedHash(r.env.cr, t.hash, t.hs.client, before))
    else if i == 0 then Certificate(r.cc.chain, r.cc.certBody)
    else CertificateVerify(r.env.sign(r.cc.signKey, SignedMessage(ClientRole, r.env.cr.digest(t.hash, before))))
  }

  ghost predicate UpMarkOk(r: Run, t: Terms, at: Bytes, up: seq<Mark>, i: nat)
    requires i < |up|
  {
    var before := Before(at, up, i);
    && i <= ClientFin(r, t) && Encodes(r.env, PlannedUp(r, t, before, i))
    && up[i] == Append(r.env, Some(t.hs.client), before, PlannedUp(r, t, before, i))
  }

  ghost predicate UpOk(r: Run, t: Terms, at: Bytes, up: seq<Mark>) {
    forall i {:trigger UpMarkOk(r, t, at, up, i)} :: 0 <= i < |up| ==> UpMarkOk(r, t, at, up, i)
  }

  /** The server's own state, given its terms. */
  ghost predicate ServerOk(r: Run, t: Terms, s: Server) {
    && s.flight != [] && t.hs == DeriveHs(r.env.cr, s.o.hash, s.d.psk, s.d.shared, s.flight[0].after)
    && DownOk(r, t, s.flight)
    && (s.pc == SCert ==> |s.flight| == 2)
    && (s.pc == SFinish ==> |s.flight| == Fin(t))
    && (s.pc in {SCert, SFinish} ==>
          && s.transcript == s.flight[|s.flight| - 1].after && s.k.end == None && s.k.ticketPsk == None
          && s.k.write == Some(t.hs.server) && s.k.read == Some(t.hs.client) && s.k.ap == None)
    && (s.pc in {SWaitCert, SWaitVerify} ==>
          |s.flight| == Fin(t) + 1 && t.req && s.k.end == None && s.k.ticketPsk == None)
    && (s.pc !in {SCert, SFinish} ==>
          && |s.flight| >= Fin(t) + 1
          && s.k.ap == Some(ApOf(r, t, s.flight)) && s.k.write == Some(s.k.ap.value.server)
          && s.k.read == Some(if s.pc == SDone then s.k.ap.value.client else t.hs.client))
  }

  /** The client's progress through the server's flight, of which it has read `g` messages. */
  ghost predicate ClientOk(r: Run, t: Terms, c: Client, s: Server, g: nat) {
    var f := s.flight;
    if g == 0 then ClientOpening(r, t, c, s)
    else
      && g <= |f| && c.hash == t.hash && c.k.hs == Some(t.hs) && c.usingPsk == t.psk && c.group == s.o.group
      && c.certReq == (t.req && g >= 3)
      && (g <= Fin(t) ==>
            && c.pc == PcAt(t, g) && c.transcript == f[g - 1].after
            && c.k == Keys(Some(t.hs.server), Some(t.hs.client), Some(t.hs), None, None, None)
            && c.flight == []
            && (c.pc == CVerify ==> c.peer == r.sc.chain))
      && (g > Fin(t) ==>
            ClientSending(r, t, c, f) && (if g > Fin(t) + 1 then c.pc == CDone else c.k.ticketPsk == None))
  }

  ghost predicate ClientOpening(r: Run, t: Terms, c: Client, s: Server) {
    && c.pc in {CHello, CRetried}
    && c.k == NO_KEYS && c.flight == [] && !c.certReq
    && (c.suite.Some? ==> c.suite.value == s.o.suite)
    && OwnHello(r, c.hello, c.keys)
    && t.base == (if c.pc == CRetried then c.transcript else Wired(r.env, c.hello))
    && Listened(r, c, s) && Settled(r, c, s)
  }

  ghost function PcAt(t: Terms, g: nat): ClientPc
    requires 1 <= g <= Fin(t)
  {
    if g == 1 then CExtensions
    else if g == Fin(t) then CFinished
    else if g == Fin(t) - 1 then CVerify
    else if g == 2 then CCertificate
    else CServerCert
  }

  ghost predicate ClientSending(r: Run, t: Terms, c: Client, f: seq<Mark>) {
    && Fin(t) < |f|
    && var at, ap := f[Fin(t)].after, ApOf(r, t, f);
    && c.pc in {CSendCert, CSendFinished, CDone}
    && c.k.ap == Some(ap) && c.k.read == Some(ap.server)
    && UpOk(r, t, at, c.flight)
    && |c.flight| == (if c.pc == CSendCert then 0 else if c.pc == CSendFinished then ClientFin(r, t) else ClientFin(r, t) + 1)
    && c.transcript == Before(at, c.flight, |c.flight|)
    && c.k.write == Some(if c.pc == CDone then ap.client else t.hs.client)
    && (if c.pc == CDone
        then c.k.end == (if r.cc.storesTickets then Some(DeriveEnd(r.env.cr, t.hash, t.hs.master, c.transcript)) else None)
        else c.k.end == None && c.k.ticketPsk == None)
    && (c.k.ticketPsk.Some? ==> c.k.end.Some? && c.k.ticketPsk.value == TicketPsk(r.env.cr, t.hash, c.k.end.value.resumption, []))
  }

  /** The server's progress through the client's flight, of which it has read `h` messages. */
  ghost predicate ServerReading(r: Run, t: Terms, s: Server, up: seq<Mark>, h: nat) {
    && h <= |up|
    && (s.pc in {SCert, SFinish} ==> h == 0)
    && (s.pc !in {SCert, SFinish} ==>
          && Fin(t) < |s.flight|
          && var at := s.flight[Fin(t)].after;
          && (s.pc == SWaitCert ==> h == 0 && s.transcript == at)
          && (s.pc == SWaitVerify ==>
                h == 1 && r.cc.chain != [] && s.peer == r.cc.chain && s.transcript == Before(at, up, 1))
          && (s.pc in {SWaitFinished, SDone} ==>
                && ClientFin(r, t) <= |up|
                && h == ClientFin(r, t) + (if s.pc == SDone then 1 else 0)
                && ServerEnd(r, t, s, Before(at, up, ClientFin(r, t)))))
  }

  /** The precomputed Finished of the client, and what follows from it. */
  ghost predicate ServerEnd(r: Run, t: Terms, s: Server, before: Bytes) {
    && s.clientFinished == FinishedHash(r.env.cr, t.hash, t.hs.client, before)
    && s.k.end == Some(DeriveEnd(r.env.cr, t.hash, t.hs.master, before + BytesOf(r.env, Finished(s.clientFinished))))
    && (s.k.ticketPsk.Some? ==> s.k.ticketPsk.value == TicketPsk(r.env.cr, t.hash, s.k.end.value.resumption, []))
    && (|s.flight| > Fin(t) + 1 ==> s.k.ticketPsk.Some?)
  }

  ghost predicate Flights(r: Run, x: System) {
    && x.s.k.hs.Some? && x.s.flight != [] && x.s.pc !in {SHello, SRetry, SResume, SParams}
    && |x.toC| <= |x.s.flight| && |x.toS| <= |x.c.flight|
    && var t, g, h := TermsOf(r, x.s), |x.s.flight| - |x.toC|, |x.c.flight| - |x.toS|;
    && x.toC == Packets(x.s.flight)[g..] && x.toS == Packets(x.c.flight)[h..]
    && ServerOk(r, t, x.s) && ClientOk(r, t, x.c, x.s, g) && ServerReading(r, t, x.s, x.c.flight, h)
  }

  ghost predicate SystemInv(r: Run, x: System) { Opening(r, x) || Flights(r, x) }

  ghost predicate Inv(r: Run, a: State) {
    NotAtOdds(a.clientError) && NotAtOdds(a.serverError) && SystemInv(r, a.x)
  }
}
