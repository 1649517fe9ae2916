/** What a party may conclude from reaching the end of its handshake, whoever the peer is:
    the messages of a run are an arbitrary sequence of packets.
 */
module HandshakeAuthenticity {
  import opened Wire
  import opened ClientHello
  import opened PskBinders
  import opened KeySchedule
  import opened KeyExchange
  import opened Groups
  import opened Handshake13

  // ---------------------------------------------------------------- client

  ghost predicate ClientMoves(env: Env, cfg: ClientConfig, c: Client, inbox: seq<Packet>, c': Client) {
    && (ClientReads(c.pc) ==> inbox != [])
    && ClientStep(env, cfg, c, inbox).Move? && ClientStep(env, cfg, c, inbox).party == c'
  }

  /** A client's states, and what it found to read before each step. */
  ghost predicate ClientRun(env: Env, cfg: ClientConfig, cs: seq<Client>, inbox: seq<seq<Packet>>) {
    && |cs| == |inbox| + 1 && cs[0] == Initial(cfg, cfg.hello).x.c
    && forall i :: 0 <= i < |inbox| ==> ClientMoves(env, cfg, cs[i], inbox[i], cs[i + 1])
  }

  /** A certificate list came under the server's handshake key, and the policy trusts it. */
  ghost predicate CertificateRead(env: Env, cfg: ClientConfig, c: Client, inbox: seq<Packet>, c': Client) {
    && inbox != [] && c.k.hs.Some? && inbox[0].key == Some(c.k.hs.value.server)
    && env.decode(inbox[0].bytes).Some? && env.decode(inbox[0].bytes).value.Certificate?
    && var chain := env.decode(inbox[0].bytes).value.chain;
    && chain != [] && cfg.trusts(chain) && c'.peer == chain
    && c'.transcript == c.transcript + inbox[0].bytes
  }

  /** A signature of the peer over the transcript so far. */
  ghost predicate SignatureRead(env: Env, c: Client, inbox: seq<Packet>, c': Client) {
    && inbox != [] && c.k.hs.Some? && inbox[0].key == Some(c.k.hs.value.server)
    && env.decode(inbox[0].bytes).Some? && env.decode(inbox[0].bytes).value.CertificateVerify?
    && var m := env.decode(inbox[0].bytes).value;
    && env.verify(c.peer, SignedMessage(ServerRole, env.cr.digest(c.hash, c.transcript)), m.signature)
    && c'.transcript == c.transcript + BytesOf(env, m)
  }

  /** The MAC of the server's handshake secret over the transcript so far. */
  ghost predicate FinishedRead(env: Env, c: Client, inbox: seq<Packet>) {
    && inbox != [] && c.k.hs.Some? && inbox[0].key == Some(c.k.hs.value.server)
    && env.decode(inbox[0].bytes) == Some(Finished(FinishedHash(env.cr, c.hash, c.k.hs.value.server, c.transcript)))
  }

  /** The handshake secrets come from the PSK, if one is in use. */
  ghost predicate KeyedBy(env: Env, cfg: ClientConfig, c: Client) {
    c.usingPsk ==>
      && cfg.session.Some? && c.k.hs.Some?
      && exists shared ::
           c.k.hs.value == DeriveHs(env.cr, c.hash, Some(cfg.session.value.secret), shared, c.k.hs.value.at)
  }

  predicate Certified(pc: ClientPc) { pc in {CVerify, CFinished, CSendCert, CSendFinished, CDone} }
  predicate Verified(pc: ClientPc) { pc in {CFinished, CSendCert, CSendFinished, CDone} }
  predicate Passed(pc: ClientPc) { pc in {CSendCert, CSendFinished, CDone} }

  predicate InFlight(pc: ClientPc) { pc in {CExtensions, CCertificate, CServerCert, CVerify, CFinished} }

  ghost predicate KeysSet(env: Env, cfg: ClientConfig, c: Client) {
    && (c.pc !in {CStart, CHello, CRetried} ==> c.k.hs.Some? && KeyedBy(env, cfg, c))
    && (InFlight(c.pc) ==> c.k.read == Some(c.k.hs.value.server))
    && (c.pc in {CCertificate, CServerCert} ==> !c.usingPsk)
  }

  /** Step `w` read the certificates. */
  ghost predicate CertifiedBy(env: Env, cfg: ClientConfig, cs: seq<Client>, inbox: seq<seq<Packet>>, n: nat, w: nat)
    requires n < |cs| == |inbox| + 1
  {
    Certified(cs[n].pc) && !cs[n].usingPsk ==>
      && w < n && CertificateRead(env, cfg, cs[w], inbox[w], cs[w + 1]) && cs[n].peer == cs[w + 1].peer
      && (cs[n].pc == CVerify ==> cs[n].transcript == cs[w + 1].transcript)
  }

  /** Step `v` read the signature. */
  ghost predicate VerifiedBy(env: Env, cs: seq<Client>, inbox: seq<seq<Packet>>, n: nat, w: nat, v: nat)
    requires n < |cs| == |inbox| + 1
  {
    Verified(cs[n].pc) && !cs[n].usingPsk ==>
      && w < v < n && SignatureRead(env, cs[v], inbox[v], cs[v + 1]) && cs[v].peer == cs[n].peer
      && cs[v].transcript == cs[w + 1].transcript
      && (cs[n].pc == CFinished ==> cs[n].transcript == cs[v + 1].transcript)
  }

  /** Step `f` read the Finished. */
  ghost predicate PassedBy(
    env: Env, cfg: ClientConfig, cs: seq<Client>, inbox: seq<seq<Packet>>, n: nat, w: nat, v: nat, f: nat)
    requires n < |cs| == |inbox| + 1
  {
    Passed(cs[n].pc) ==>
      && f < n && FinishedRead(env, cs[f], inbox[f]) && KeyedBy(env, cfg, cs[f])
      && cs[f].k.hs == cs[n].k.hs && cs[f].hash == cs[n].hash && cs[f].usingPsk == cs[n].usingPsk
      && (!cs[n].usingPsk ==> v < f && cs[f].transcript == cs[v + 1].transcript)
  }

  ghost predicate ClientHistory(
    env: Env, cfg: ClientConfig, cs: seq<Client>, inbox: seq<seq<Packet>>, n: nat, w: nat, v: nat, f: nat)
    requires n < |cs| == |inbox| + 1
  {
    && KeysSet(env, cfg, cs[n]) && CertifiedBy(env, cfg, cs, inbox, n, w)
    && VerifiedBy(env, cs, inbox, n, w, v) && PassedBy(env, cfg, cs, inbox, n, w, v, f)
  }

  lemma AcceptKeyed(env: Env, cfg: ClientConfig, c: Client, sh: ServerHello, t: Bytes)
    requires AcceptHello(env, cfg, c, sh, t).Move?
    ensures var c' := AcceptHello(env, cfg, c, sh, t).party;
      c'.pc == CExtensions && c'.k.hs.Some? && c'.k.read == Some(c'.k.hs.value.server) && KeyedBy(env, cfg, c')
  {
    hide HandshakeSecret, DeriveSecret, MasterSecret, EarlySecret, ClientShared;
    var psk := if sh.identity.Some? then Some(cfg.session.value.secret) else None;
    var shared := ClientShared(env.kex, sh.share.group, c.keys, sh.share.data).value;
    assert AcceptHello(env, cfg, c, sh, t).party.k.hs.value == DeriveHs(env.cr, c.hash, psk, shared, t);
  }

  ghost predicate Opened(env: Env, cfg: ClientConfig, c: Client) {
    && c.pc in {CHello, CRetried, CExtensions}
    && (c.pc == CExtensions ==> c.k.hs.Some? && c.k.read == Some(c.k.hs.value.server) && KeyedBy(env, cfg, c))
  }

  lemma RetryWaits(env: Env, cfg: ClientConfig, c: Client, sh: ServerHello, wire: Bytes, hrr: Bytes)
    requires Retry(env, cfg, c, sh, wire, hrr).Move?
    ensures Retry(env, cfg, c, sh, wire, hrr).party.pc == CRetried
  {
    hide SecondHello, RetryOk, MessageHash;
  }

  lemma HelloOpens(env: Env, cfg: ClientConfig, c: Client, bytes: Bytes)
    requires ReadServerHello(env, cfg, c, bytes).Move?
    ensures Opened(env, cfg, ReadServerHello(env, cfg, c, bytes).party)
  {
    hide AcceptHello, Retry, KeyedBy;
    var m := env.decode(bytes).value.hello;
    assert SuiteHash(m.suite).Some?;
    var c' := c.(suite := Some(m.suite), hash := SuiteHash(m.suite).value);
    if c.pc == CRetried { AcceptKeyed(env, cfg, c', m, c.transcript + bytes); }
    else if m.random == HRR_RANDOM { RetryWaits(env, cfg, c', m, env.marshal(c.hello).value, bytes); }
    else { AcceptKeyed(env, cfg, c', m, env.marshal(c.hello).value + bytes); }
  }

  lemma OpeningHistory(env: Env, cfg: ClientConfig, c: Client, inbox: seq<Packet>, c': Client)
    requires c.pc in {CStart, CHello, CRetried} && ClientMoves(env, cfg, c, inbox, c')
    ensures Opened(env, cfg, c')
  {
    hide FirstHello, ReadServerHello, ReadFlight, SendCertificate, SendFinished, KeyedBy;
    if c.pc != CStart { HelloOpens(env, cfg, c, inbox[0].bytes); }
  }

  /** What a step within the encrypted flight says, phase by phase. */
  ghost predicate FlightFacts(env: Env, cfg: ClientConfig, c: Client, inbox: seq<Packet>, c': Client) {
    && c'.k.hs == c.k.hs && c'.hash == c.hash && c'.usingPsk == c.usingPsk
    && c'.pc !in {CStart, CHello, CRetried, CExtensions}
    && (InFlight(c'.pc) ==> c'.k.read == c.k.read && InFlight(c.pc))
    && (c'.pc in {CCertificate, CServerCert} ==> !Certified(c.pc) && (c.pc == CExtensions ==> !c.usingPsk))
    && (c'.pc == CVerify ==> c.pc in {CCertificate, CServerCert} && CertificateRead(env, cfg, c, inbox, c'))
    && (c'.pc != CVerify ==> c'.peer == c.peer)
    && (c'.pc == CFinished ==>
          (c.pc == CVerify && SignatureRead(env, c, inbox, c')) || (c.pc == CExtensions && c.usingPsk))
    && (Passed(c'.pc) ==> Passed(c.pc) || (c.pc == CFinished && FinishedRead(env, c, inbox)))
  }

  lemma FlightReads(env: Env, cfg: ClientConfig, c: Client, inbox: seq<Packet>)
    requires c.pc !in {CStart, CHello, CRetried} && KeysSet(env, cfg, c)
    requires inbox != [] && inbox[0].key == c.k.read && ReadFlight(env, cfg, c, inbox[0].bytes).Move?
    ensures FlightFacts(env, cfg, c, inbox, ReadFlight(env, cfg, c, inbox[0].bytes).party)
  {
    hide DeriveAp, DeriveEnd, TicketPsk, FinishedHash, SignedMessage, KeyedBy, DeriveHs;
  }

  lemma FlightStep(env: Env, cfg: ClientConfig, c: Client, inbox: seq<Packet>, c': Client)
    requires c.pc !in {CStart, CHello, CRetried} && ClientMoves(env, cfg, c, inbox, c') && KeysSet(env, cfg, c)
    ensures FlightFacts(env, cfg, c, inbox, c')
  {
    hide DeriveAp, DeriveEnd, FinishedHash, SignedMessage, StartClient, ReadServerHello, KeyedBy, DeriveHs, ReadFlight;
    if c.pc in {CSendCert, CSendFinished} {
      hide CertificateRead, SignatureRead, FinishedRead;
    } else {
      hide FlightFacts, KeysSet;
      FlightReads(env, cfg, c, inbox);
    }
  }

  lemma KeysStay(env: Env, cfg: ClientConfig, c: Client, inbox: seq<Packet>, c': Client)
    requires c.pc !in {CStart, CHello, CRetried} && KeysSet(env, cfg, c) && FlightFacts(env, cfg, c, inbox, c')
    ensures KeysSet(env, cfg, c')
  {
    hide CertificateRead, SignatureRead, FinishedRead;
  }

  /** One step further in the flight: the witnesses stay, or the step just taken is the new one. */
  lemma HistoryGoesOn(
    env: Env, cfg: ClientConfig, cs: seq<Client>, inbox: seq<seq<Packet>>, n: nat, w: nat, v: nat, f: nat)
    requires n < |inbox| && |cs| == |inbox| + 1 && ClientHistory(env, cfg, cs, inbox, n, w, v, f)
    requires cs[n].pc !in {CStart, CHello, CRetried} && FlightFacts(env, cfg, cs[n], inbox[n], cs[n + 1])
    ensures ClientHistory(env, cfg, cs, inbox, n + 1,
                          if cs[n + 1].pc == CVerify then n else w, if cs[n].pc == CVerify then n else v,
                          if cs[n].pc == CFinished then n else f)
  {
    KeysStay(env, cfg, cs[n], inbox[n], cs[n + 1]);
    hide CertificateRead, SignatureRead, FinishedRead, KeyedBy;
  }

  lemma OpeningGoesOn(
    env: Env, cfg: ClientConfig, cs: seq<Client>, inbox: seq<seq<Packet>>, n: nat, w: nat, v: nat, f: nat)
    requires n < |cs| == |inbox| + 1 && (Opened(env, cfg, cs[n]) || cs[n].pc == CStart)
    ensures ClientHistory(env, cfg, cs, inbox, n, w, v, f)
  {
    hide KeyedBy, CertificateRead, SignatureRead, FinishedRead;
  }

  lemma HistoryKeys(
    env: Env, cfg: ClientConfig, cs: seq<Client>, inbox: seq<seq<Packet>>, n: nat, w: nat, v: nat, f: nat)
    requires n < |cs| == |inbox| + 1 && ClientHistory(env, cfg, cs, inbox, n, w, v, f)
    ensures KeysSet(env, cfg, cs[n])
  {
  }

  lemma {:induction false} ClientHistoryOf(
    env: Env, cfg: ClientConfig, cs: seq<Client>, inbox: seq<seq<Packet>>, n: nat) returns (w: nat, v: nat, f: nat)
    requires ClientRun(env, cfg, cs, inbox) && n < |cs|
    ensures ClientHistory(env, cfg, cs, inbox, n, w, v, f)
  {
    hide ClientMoves, ClientHistory, FlightFacts, KeysSet, Opened;
    w, v, f := 0, 0, 0;
    if n == 0 { OpeningGoesOn(env, cfg, cs, inbox, 0, w, v, f); } else {
      w, v, f := ClientHistoryOf(env, cfg, cs, inbox, n - 1);
      var c, c' := cs[n - 1], cs[n];
      assert ClientMoves(env, cfg, c, inbox[n - 1], c');
      if c.pc in {CStart, CHello, CRetried} {
        OpeningHistory(env, cfg, c, inbox[n - 1], c');
        OpeningGoesOn(env, cfg, cs, inbox, n, w, v, f);
      } else {
        HistoryKeys(env, cfg, cs, inbox, n - 1, w, v, f);
        FlightStep(env, cfg, c, inbox[n - 1], c');
        HistoryGoesOn(env, cfg, cs, inbox, n - 1, w, v, f);
        if c'.pc == CVerify { w := n - 1; }
        if c.pc == CVerify { v := n - 1; }
        if c.pc == CFinished { f := n - 1; }
      }
    }
  }

  /** Main result: a client that has come to its own flight has checked a Finished over its
      transcript, under secrets derived from the PSK in use if there is one; and if there
      is none, before that a signature over the transcript, by a peer whose certificates
      it trusted one message earlier.
   */
  lemma ClientKnowsServer(
    env: Env, cfg: ClientConfig, cs: seq<Client>, inbox: seq<seq<Packet>>, n: nat) returns (w: nat, v: nat, f: nat)
    requires ClientRun(env, cfg, cs, inbox) && n < |cs| && cs[n].pc in {CSendCert, CSendFinished, CDone}
    ensures f < n && FinishedRead(env, cs[f], inbox[f]) && KeyedBy(env, cfg, cs[f])
    ensures cs[f].k.hs == cs[n].k.hs && cs[f].hash == cs[n].hash && cs[f].usingPsk == cs[n].usingPsk
    ensures !cs[n].usingPsk ==>
      && w < v < f
      && CertificateRead(env, cfg, cs[w], inbox[w], cs[w + 1]) && cs[v].transcript == cs[w + 1].transcript
      && cs[v].peer == cs[w + 1].peer == cs[n].peer
      && SignatureRead(env, cs[v], inbox[v], cs[v + 1]) && cs[f].transcript == cs[v + 1].transcript
  {
    hide CertificateRead, SignatureRead, FinishedRead;
    w, v, f := ClientHistoryOf(env, cfg, cs, inbox, n);
  }

  // ---------------------------------------------------------------- server

  ghost predicate ServerMoves(env: Env, cfg: ServerConfig, s: Server, inbox: seq<Packet>, s': Server) {
    && (ServerReads(s.pc) ==> inbox != [])
    && ServerStep(env, cfg, s, inbox).Move? && ServerStep(env, cfg, s, inbox).party == s'
  }

  ghost predicate ServerRun(env: Env, cfg: ServerConfig, unread: ClientConfig, ss: seq<Server>, inbox: seq<seq<Packet>>) {
    && |ss| == |inbox| + 1 && ss[0] == Initial(unread, unread.hello).x.s
    && forall i :: 0 <= i < |inbox| ==> ServerMoves(env, cfg, ss[i], inbox[i], ss[i + 1])
  }

  /** The witnesses: the steps that decided about resumption, read the client's certificates,
      signature and Finished, and the transcript in front of the Finished. */
  datatype Proof = Proof(b: nat, w: nat, v: nat, f: nat, before: Bytes)

  ghost predicate ReadsUnder(env: Env, s: Server, inbox: seq<Packet>) {
    && inbox != [] && s.k.hs.Some? && inbox[0].key == Some(s.k.hs.value.client)
    && env.decode(inbox[0].bytes).Some?
  }

  /** A certificate list that the policy accepts; it may be empty. */
  ghost predicate ClientCertRead(env: Env, cfg: ServerConfig, s: Server, inbox: seq<Packet>, chain: seq<Bytes>) {
    && ReadsUnder(env, s, inbox)
    && env.decode(inbox[0].bytes).value.Certificate? && env.decode(inbox[0].bytes).value.chain == chain
    && cfg.acceptsCert(chain)
  }

  ghost predicate ClientSignatureRead(env: Env, s: Server, inbox: seq<Packet>) {
    && ReadsUnder(env, s, inbox)
    && var m := env.decode(inbox[0].bytes).value;
    && m.CertificateVerify?
    && env.verify(s.peer, SignedMessage(ClientRole, env.cr.digest(s.o.hash, s.transcript)), m.signature)
  }

  /** The MAC of the client's handshake secret over `before`, the transcript in front of it. */
  ghost predicate ClientFinishedRead(env: Env, s: Server, inbox: seq<Packet>, before: Bytes) {
    && ReadsUnder(env, s, inbox)
    && env.decode(inbox[0].bytes).value == Finished(FinishedHash(env.cr, s.o.hash, s.k.hs.value.client, before))
  }

  predicate Answered(pc: ServerPc) { pc !in {SHello, SRetry, SResume, SParams} }

  /** The handshake secrets come from the settled PSK, and the client's messages are read under them. */
  ghost predicate ServerKeys(env: Env, cfg: ServerConfig, s: Server) {
    && (Answered(s.pc) ==>
          s.k.hs.Some? && s.k.hs.value == DeriveHs(env.cr, s.o.hash, s.d.psk, s.d.shared, s.k.hs.value.at))
    && (Answered(s.pc) && s.pc != SDone ==> s.k.read == Some(s.k.hs.value.client))
    && (s.pc in {SWaitCert, SWaitVerify} ==> Requests(cfg, s))
  }

  /** A PSK in use was offered with a binder that checked out. */
  ghost predicate DecidedBy(env: Env, cfg: ServerConfig, ss: seq<Server>, n: nat, p: Proof)
    requires n < |ss|
  {
    ss[n].pc !in {SHello, SRetry, SResume} ==>
      && p.b < n && ss[p.b].pc == SResume && ss[p.b].o == ss[n].o
      && (ss[n].d.psk.Some? ==>
            && ss[n].d.identity.Some?
            && CheckForResumption(env, cfg, ss[p.b]) == Resumed(ss[n].d.identity.value, ss[n].d.psk.value))
  }

  ghost predicate Signing(env: Env, cfg: ServerConfig, ss: seq<Server>, inbox: seq<seq<Packet>>, n: nat, p: Proof)
    requires n < |ss| == |inbox| + 1
  {
    ss[n].pc == SWaitVerify ==>
      && p.w < n && ss[n].peer != [] && ClientCertRead(env, cfg, ss[p.w], inbox[p.w], ss[n].peer)
      && ss[n].transcript == ss[p.w].transcript + inbox[p.w][0].bytes
  }

  /** The client sent no certificate and the policy allows that, or it has signed the
      transcript that ends with its certificates. */
  ghost predicate Vouched(env: Env, cfg: ServerConfig, ss: seq<Server>, inbox: seq<seq<Packet>>, n: nat, p: Proof)
    requires n < |ss| == |inbox| + 1
  {
    || (p.w < n && ClientCertRead(env, cfg, ss[p.w], inbox[p.w], [])
        && p.before == ss[p.w].transcript + inbox[p.w][0].bytes)
    || (p.w < p.v < n && ss[p.v].peer != []
        && ClientCertRead(env, cfg, ss[p.w], inbox[p.w], ss[p.v].peer)
        && ss[p.v].transcript == ss[p.w].transcript + inbox[p.w][0].bytes
        && ClientSignatureRead(env, ss[p.v], inbox[p.v])
        && p.before == ss[p.v].transcript + BytesOf(env, env.decode(inbox[p.v][0].bytes).value))
  }

  ghost predicate Expected(env: Env, cfg: ServerConfig, ss: seq<Server>, inbox: seq<seq<Packet>>, n: nat, p: Proof)
    requires n < |ss| == |inbox| + 1
  {
    ss[n].pc in {SWaitFinished, SDone} ==>
      && ss[n].k.hs.Some?
      && ss[n].clientFinished == FinishedHash(env.cr, ss[n].o.hash, ss[n].k.hs.value.client, p.before)
      && (Requests(cfg, ss[n]) ==> Vouched(env, cfg, ss, inbox, n, p))
  }

  ghost predicate Ended(env: Env, ss: seq<Server>, inbox: seq<seq<Packet>>, n: nat, p: Proof)
    requires n < |ss| == |inbox| + 1
  {
    ss[n].pc == SDone ==>
      && p.f < n && ClientFinishedRead(env, ss[p.f], inbox[p.f], p.before)
      && ss[p.f].k.hs == ss[n].k.hs && ss[p.f].o == ss[n].o && ss[p.f].d == ss[n].d
  }

  ghost predicate ServerHistory(env: Env, cfg: ServerConfig, ss: seq<Server>, inbox: seq<seq<Packet>>, n: nat, p: Proof)
    requires n < |ss| == |inbox| + 1
  {
    && ServerKeys(env, cfg, ss[n]) && DecidedBy(env, cfg, ss, n, p) && Signing(env, cfg, ss, inbox, n, p)
    && Expected(env, cfg, ss, inbox, n, p) && Ended(env, ss, inbox, n, p)
  }

  /** What a step before the ServerHello says. */
  ghost predicate EarlyFacts(env: Env, cfg: ServerConfig, s: Server, s': Server) {
    && s'.pc in {SRetry, SResume, SParams, SCert}
    && (s'.pc == SParams ==>
          && s.pc == SResume && s'.o == s.o
          && (s'.d.psk.Some? ==>
                && s'.d.identity.Some?
                && CheckForResumption(env, cfg, s) == Resumed(s'.d.identity.value, s'.d.psk.value)))
    && (s'.pc == SCert ==> s.pc == SParams && s'.o == s.o && s'.d == s.d && ServerKeys(env, cfg, s'))
  }

  lemma EarlyStep(env: Env, cfg: ServerConfig, s: Server, inbox: seq<Packet>, s': Server)
    requires !Answered(s.pc) && ServerMoves(env, cfg, s, inbox, s')
    ensures EarlyFacts(env, cfg, s, s')
  {
    hide CheckForResumption, IllegalChange, SelectGroup, SelectSuite, MessageHash, ServerShared,
      HandshakeSecret, DeriveSecret, MasterSecret, EarlySecret, SendServerCertificate, SendServerFinished, ReadClientFlight;
  }

  /** What a step after the ServerHello says; `before` is the transcript in front of the
      Finished that the server comes to expect. */
  ghost predicate LateFacts(env: Env, cfg: ServerConfig, s: Server, inbox: seq<Packet>, s': Server, before: Bytes) {
    && s'.k.hs == s.k.hs && s'.o == s.o && s'.d == s.d
    && s'.pc in {SFinish, SWaitCert, SWaitVerify, SWaitFinished, SDone}
    && (s'.pc != SDone ==> s'.k.read == s.k.read && s.pc != SDone)
    && (s'.pc == SWaitCert ==> Requests(cfg, s))
    && (s'.pc == SWaitVerify ==>
          && s.pc == SWaitCert && s'.peer != [] && ClientCertRead(env, cfg, s, inbox, s'.peer)
          && s'.transcript == s.transcript + inbox[0].bytes)
    && (s'.pc == SWaitFinished ==>
          && s.k.hs.Some? && s'.clientFinished == FinishedHash(env.cr, s.o.hash, s.k.hs.value.client, before)
          && (if s.pc == SWaitCert then
                ClientCertRead(env, cfg, s, inbox, []) && before == s.transcript + inbox[0].bytes
              else if s.pc == SWaitVerify then
                && ClientSignatureRead(env, s, inbox)
                && before == s.transcript + BytesOf(env, env.decode(inbox[0].bytes).value)
              else !Requests(cfg, s)))
    && (s'.pc == SDone ==>
          && s.pc == SWaitFinished && s'.clientFinished == s.clientFinished
          && ReadsUnder(env, s, inbox) && env.decode(inbox[0].bytes).value == Finished(s.clientFinished))
  }

  lemma TicketsNext(env: Env, cfg: ServerConfig, s: Server)
    requires SendTickets(env, cfg, s).Move?
    ensures var s' := SendTickets(env, cfg, s).party;
      && s.k.read.Some? && s'.pc == SWaitFinished && s'.o == s.o && s'.d == s.d && s'.k.hs == s.k.hs && s'.k.read == s.k.read
      && s'.clientFinished == FinishedHash(env.cr, s.o.hash, s.k.read.value, s.transcript)
  {
    hide DeriveEnd, TicketPsk, FinishedHash;
  }

  lemma LateSend(env: Env, cfg: ServerConfig, s: Server, inbox: seq<Packet>, s': Server) returns (before: Bytes)
    requires s.pc in {SCert, SFinish} && ServerMoves(env, cfg, s, inbox, s') && ServerKeys(env, cfg, s)
    ensures LateFacts(env, cfg, s, inbox, s', before)
  {
    before := [];
    if s.pc == SCert {
      hide SignedMessage, SendServerFinished, ReadClientHello, ReadSecondHello, ResumeStep, SendParameters,
        ReadClientFlight, FinishedHash, DeriveHs;
    } else {
      hide SendTickets, DeriveAp, FinishedHash, ReadClientHello, ReadSecondHello, ResumeStep, SendParameters,
        ReadClientFlight, DeriveHs;
      var v := FinishedHash(env.cr, s.o.hash, s.k.write.value, s.transcript);
      before := Append(env, s.k.write, s.transcript, Finished(v)).after;
      if !Requests(cfg, s) {
        forall t: Server | SendTickets(env, cfg, t).Move?
          ensures var t' := SendTickets(env, cfg, t).party;
            && t.k.read.Some? && t'.pc == SWaitFinished
            && t'.o == t.o && t'.d == t.d && t'.k.hs == t.k.hs && t'.k.read == t.k.read
            && t'.clientFinished == FinishedHash(env.cr, t.o.hash, t.k.read.value, t.transcript)
        {
          TicketsNext(env, cfg, t);
        }
      }
    }
  }

  lemma LateRead(env: Env, cfg: ServerConfig, s: Server, inbox: seq<Packet>, s': Server) returns (before: Bytes)
    requires Answered(s.pc) && s.pc !in {SCert, SFinish}
    requires ServerMoves(env, cfg, s, inbox, s') && ServerKeys(env, cfg, s)
    ensures LateFacts(env, cfg, s, inbox, s', before)
  {
    hide SendTickets, SignedMessage, FinishedHash, ReadClientHello, ReadSecondHello, ResumeStep, SendParameters, DeriveHs;
    var m := env.decode(inbox[0].bytes).value;
    before := s.transcript + if s.pc == SWaitVerify then BytesOf(env, m) else inbox[0].bytes;
    if SendTickets(env, cfg, s.(transcript := before)).Move? { TicketsNext(env, cfg, s.(transcript := before)); }
  }

  lemma EarlyGoesOn(env: Env, cfg: ServerConfig, ss: seq<Server>, inbox: seq<seq<Packet>>, n: nat, p: Proof)
    requires n < |inbox| && |ss| == |inbox| + 1 && ServerHistory(env, cfg, ss, inbox, n, p)
    requires !Answered(ss[n].pc) && EarlyFacts(env, cfg, ss[n], ss[n + 1])
    ensures ServerHistory(env, cfg, ss, inbox, n + 1, if ss[n + 1].pc == SParams then p.(b := n) else p)
  {
    hide CheckForResumption, DeriveHs;
  }

  lemma VouchedStays(env: Env, cfg: ServerConfig, ss: seq<Server>, inbox: seq<seq<Packet>>, n: nat, p: Proof, q: Proof)
    requires n < |inbox| && |ss| == |inbox| + 1 && Vouched(env, cfg, ss, inbox, n, p)
    requires q.w == p.w && q.v == p.v && q.before == p.before
    ensures Vouched(env, cfg, ss, inbox, n + 1, q)
  {
  }

  /** The witnesses after a step past the ServerHello. */
  ghost function Extended(ss: seq<Server>, n: nat, p: Proof, before: Bytes): Proof
    requires n + 1 < |ss|
  {
    var s, s' := ss[n], ss[n + 1];
    p.(w := if s.pc == SWaitCert then n else p.w, v := if s.pc == SWaitVerify then n else p.v,
       f := if s'.pc == SDone then n else p.f, before := if s'.pc == SWaitFinished then before else p.before)
  }

  lemma LateGoesOn(
    env: Env, cfg: ServerConfig, ss: seq<Server>, inbox: seq<seq<Packet>>, n: nat, p: Proof, before: Bytes)
    requires n < |inbox| && |ss| == |inbox| + 1 && ServerHistory(env, cfg, ss, inbox, n, p)
    requires Answered(ss[n].pc) && LateFacts(env, cfg, ss[n], inbox[n], ss[n + 1], before)
    ensures ServerHistory(env, cfg, ss, inbox, n + 1, Extended(ss, n, p, before))
  {
    hide CheckForResumption, DeriveHs, FinishedHash, SignedMessage;
    if ss[n + 1].pc == SDone && Requests(cfg, ss[n]) {
      VouchedStays(env, cfg, ss, inbox, n, p, Extended(ss, n, p, before));
    }
  }

  lemma NothingYet(env: Env, cfg: ServerConfig, ss: seq<Server>, inbox: seq<seq<Packet>>, p: Proof)
    requires |ss| == |inbox| + 1 && ss[0].pc == SHello
    ensures ServerHistory(env, cfg, ss, inbox, 0, p)
  {
    hide DeriveHs, CheckForResumption, FinishedHash;
  }

  lemma HistoryServerKeys(env: Env, cfg: ServerConfig, ss: seq<Server>, inbox: seq<seq<Packet>>, n: nat, p: Proof)
    requires n < |ss| == |inbox| + 1 && ServerHistory(env, cfg, ss, inbox, n, p)
    ensures ServerKeys(env, cfg, ss[n])
  {
  }

  lemma {:induction false} ServerHistoryOf(
    env: Env, cfg: ServerConfig, unread: ClientConfig, ss: seq<Server>, inbox: seq<seq<Packet>>, n: nat) returns (p: Proof)
    requires ServerRun(env, cfg, unread, ss, inbox) && n < |ss|
    ensures ServerHistory(env, cfg, ss, inbox, n, p)
  {
    hide ServerMoves, ServerHistory, ServerKeys, LateFacts, EarlyFacts;
    p := Proof(0, 0, 0, 0, []);
    if n == 0 { NothingYet(env, cfg, ss, inbox, p); } else {
      p := ServerHistoryOf(env, cfg, unread, ss, inbox, n - 1);
      var s, s' := ss[n - 1], ss[n];
      assert ServerMoves(env, cfg, s, inbox[n - 1], s');
      HistoryServerKeys(env, cfg, ss, inbox, n - 1, p);
      if !Answered(s.pc) {
        EarlyStep(env, cfg, s, inbox[n - 1], s');
        EarlyGoesOn(env, cfg, ss, inbox, n - 1, p);
        if s'.pc == SParams { p := p.(b := n - 1); }
      } else {
        var before;
        if s.pc in {SCert, SFinish} { before := LateSend(env, cfg, s, inbox[n - 1], s'); }
        else { before := LateRead(env, cfg, s, inbox[n - 1], s'); }
        LateGoesOn(env, cfg, ss, inbox, n - 1, p, before);
        p := Extended(ss, n - 1, p, before);
      }
    }
  }

  /** Main result: a server that is done has checked a Finished over its transcript, under
      secrets derived from the PSK it settled on; such a PSK came with a binder that
      checked out; and if it asked for a certificate, the client vouched for the transcript.
   */
  lemma ServerKnowsClient(
    env: Env, cfg: ServerConfig, unread: ClientConfig, ss: seq<Server>, inbox: seq<seq<Packet>>, n: nat) returns (p: Proof)
    requires ServerRun(env, cfg, unread, ss, inbox) && n < |ss| && ss[n].pc == SDone
    ensures p.f < n && ClientFinishedRead(env, ss[p.f], inbox[p.f], p.before)
    ensures ss[p.f].k.hs == ss[n].k.hs && ss[p.f].o == ss[n].o && ss[p.f].d == ss[n].d
    ensures ss[n].k.hs.Some?
    ensures ss[n].k.hs.value ==
      DeriveHs(env.cr, ss[n].o.hash, ss[n].d.psk, ss[n].d.shared, ss[n].k.hs.value.at)
    ensures ss[n].d.psk.Some? ==>
      && p.b < n && ss[n].d.identity.Some? && ss[p.b].o == ss[n].o
      && CheckForResumption(env, cfg, ss[p.b]) == Resumed(ss[n].d.identity.value, ss[n].d.psk.value)
    ensures Requests(cfg, ss[n]) ==> Vouched(env, cfg, ss, inbox, n, p)
  {
    hide ServerRun, Vouched, ClientFinishedRead, DeriveHs, CheckForResumption;
    p := ServerHistoryOf(env, cfg, unread, ss, inbox, n);
  }
}
