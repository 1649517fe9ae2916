/** The two handshake state objects as the code keeps them: fields that each phase
    rewrites in place.  Every method computes the corresponding step of `Handshake13`.
 */
module HandshakeObjects {
  import opened Wire
  import opened ClientHello
  import opened PskBinders
  import opened KeySchedule
  import opened KeyExchange
  import opened Groups
  import opened Handshake13

  /** A phase did what the step says: it failed alike, or it left the step's state and sent
      the step's packets. */
  ghost predicate Did<P>(m: Move<P>, err: Option<Error>, party: P, before: seq<Packet>, after: seq<Packet>) {
    if m.Fail? then err == Some(m.error) else err == None && party == m.party && after == before + m.sent
  }

  class ServerHandshake {
    const env: Env
    const cfg: ServerConfig
    var pc: ServerPc
    var heard: Heard
    var deal: Deal
    var transcript: Bytes
    var base: Bytes
    var keys: Keys
    var clientFinished: Bytes
    var peer: seq<Bytes>
    var flight: seq<Mark>
    var out: seq<Packet>

    function View(): Server
      reads this
    {
      Server(pc, heard, deal, transcript, base, keys, clientFinished, peer, flight)
    }

    constructor (env: Env, cfg: ServerConfig, unread: Hello)
      ensures this.env == env && this.cfg == cfg && out == []
      ensures forall cc :: View() == Initial(cc, unread).x.s
    {
      this.env, this.cfg := env, cfg;
      pc, heard, deal := SHello, Heard(unread, 0, Sha256, 0, NO_SHARE), NO_DEAL;
      transcript, base, keys, clientFinished, peer, flight, out := [], [], NO_KEYS, [], [], [], [];
    }

    /** Marshals a message into the transcript and onto the wire. */
    method WriteHandshakeRecord(m: Msg) returns (ok: bool)
      modifies this
      ensures ok <==> Encodes(env, m)
      ensures var mark := Append(env, old(keys.write), old(transcript), m);
        ok ==> transcript == mark.after && flight == old(flight) + [mark] && out == old(out) + [mark.packet]
      ensures pc == old(pc) && heard == old(heard) && deal == old(deal) && base == old(base) && keys == old(keys)
      ensures clientFinished == old(clientFinished) && peer == old(peer)
    {
      var marshaled := env.encode(m);
      if marshaled.None? { return false; }
      var data := marshaled.value;
      transcript := transcript + data;
      flight := flight + [Mark(Packet(keys.write, data), transcript)];
      out := out + [Packet(keys.write, data)];
      return true;
    }

    method ProcessClientHello(bytes: Bytes) returns (err: Option<Error>)
      modifies this
      ensures Did(ReadClientHello(env, cfg, old(View()), bytes), err, View(), old(out), out)
    {
      hide SelectGroup, SelectSuite, MessageHash;
      var msg := env.unmarshal(bytes);
      if msg.None? { return Some(Malformed); }
      var hello := msg.value;
      if hello.NumbersAt(SUPPORTED_VERSIONS) == [] { return Some(Refused); }
      if |hello.compressionMethods| != 1 || hello.compressionMethods[0] != 0 { return Some(Refused); }
      if |hello.VectorAt(RENEGOTIATION_INFO)| != 0 { return Some(Refused); }
      if hello.fields[EARLY_DATA] != Unset && !(cfg.isQuic && hello.PskIdentities() != []) { return Some(Refused); }
      if !cfg.accepts(hello) { return Some(Refused); }
      var suite := SelectSuite(cfg.suites(hello.cipherSuites), hello.cipherSuites);
      if suite.None? { return Some(NoOverlap); }
      var group := SelectGroup(cfg.groups, hello.NumbersAt(SUPPORTED_CURVES), hello.KeyShares());
      if group.None? { return Some(NoOverlap); }
      var hash := SuiteHash(suite.value).value;
      var share := FindShare(hello.KeyShares(), group.value);
      heard := Heard(hello, suite.value, hash, group.value, if share.Some? then share.value else NO_SHARE);
      if share.Some? {
        pc := SResume;
        assert out + [] == out;
        return None;
      }
      err := DoHelloRetryRequest(bytes);
    }

    /** Replaces the transcript by the hash of the first hello and asks for another. */
    method DoHelloRetryRequest(bytes: Bytes) returns (err: Option<Error>)
      modifies this
      ensures err == if Encodes(env, ServerHelloMsg(HelloRetryRequest(heard.hello, heard.suite, heard.group)))
        then None else Some(Unencodable)
      ensures var hrr := BytesOf(env, ServerHelloMsg(HelloRetryRequest(heard.hello, heard.suite, heard.group)));
        err == None ==>
          && View() == old(View()).(pc := SRetry, transcript := MessageHash(env.cr, heard.hash, bytes) + hrr)
          && out == old(out) + [Packet(old(keys.write), hrr)]
      ensures heard == old(heard)
    {
      transcript := MessageHash(env.cr, heard.hash, bytes);
      var marshaled := env.encode(ServerHelloMsg(HelloRetryRequest(heard.hello, heard.suite, heard.group)));
      if marshaled.None? { return Some(Unencodable); }
      transcript := transcript + marshaled.value;
      out := out + [Packet(keys.write, marshaled.value)];
      pc := SRetry;
      return None;
    }

    method ReadRetriedHello(bytes: Bytes) returns (err: Option<Error>)
      modifies this
      ensures Did(ReadSecondHello(env, old(View()), bytes), err, View(), old(out), out)
    {
      var msg := env.unmarshal(bytes);
      if msg.None? { return Some(Malformed); }
      var hello := msg.value;
      if |hello.KeyShares()| != 1 { return Some(AtOdds(RetryFields)); }
      if hello.KeyShares()[0].group != heard.group { return Some(AtOdds(RetryFields)); }
      if hello.fields[EARLY_DATA] != Unset { return Some(AtOdds(RetryFields)); }
      var illegal := IllegalClientHelloChange(hello, heard.hello);
      if illegal { return Some(AtOdds(RetryFields)); }
      heard := heard.(hello := hello, share := hello.KeyShares()[0]);
      pc := SResume;
      assert out + [] == out;
      return None;
    }

    /** The loop over the offered identities: the first that opens, with the right hash,
        decides. */
    method CheckResumption() returns (r: Resumption)
      ensures r == CheckForResumption(env, cfg, View())
      ensures r.Resumed? ==> r.index < MAX_PSK_IDENTITIES
    {
      if cfg.ticketsDisabled || PSK_MODE_DHE !in heard.hello.VectorAt(PSK_MODES) { return Fresh; }
      var ids, binders := heard.hello.PskIdentities(), heard.hello.PskBinders();
      if |ids| != |binders| { return BadBinder; }
      var i := 0;
      while i < |ids| && i < MAX_PSK_IDENTITIES
        invariant i <= |ids|
        invariant TryIdentities(env, cfg, View(), 0) == TryIdentities(env, cfg, View(), i)
      {
        var session := cfg.tickets(ids[i].ticket);
        if session.None? || session.value.hash != heard.hash {
          i := i + 1;
          continue;
        }
        var covered := env.truncated(heard.hello);
        if covered.None? { return NoPrefix; }
        var binder := BinderOf(env.cr, heard.hash, session.value.secret, transcript + covered.value);
        if binders[i] != binder { return BadBinder; }
        return Resumed(i, session.value.secret);
      }
      return Fresh;
    }

    method Decide() returns (err: Option<Error>)
      modifies this
      ensures Did(ResumeStep(env, cfg, old(View())), err, View(), old(out), out)
    {
      hide CheckForResumption, ServerShared;
      var answer := ServerShared(env.kex, heard.group, cfg.keys, heard.share.data);
      if answer.None? { return Some(AtOdds(SharedKey)); }
      var (shared, share) := answer.value;
      var resumption := CheckResumption();
      assert out + [] == out;
      match resumption {
        case Fresh => deal := Deal(shared, share, None, None);
        case Resumed(i, secret) => deal := Deal(shared, share, Some(secret), Some(i));
        case BadBinder => return Some(AtOdds(Binder));
        case NoPrefix => return Some(Unencodable);
      }
      pc := SParams;
      return None;
    }

    method SendServerParameters() returns (err: Option<Error>)
      modifies this
      ensures Did(SendParameters(env, cfg, old(View())), err, View(), old(out), out)
    {
      hide DeriveHs;
      if heard.hello.original.None? { return Some(Unencodable); }
      transcript := transcript + heard.hello.original.value;
      base, flight := transcript, [];
      var ok := WriteHandshakeRecord(ServerHelloMsg(HelloOf(cfg, View())));
      if !ok { return Some(Unencodable); }
      var hs := DeriveHs(env.cr, heard.hash, deal.psk, deal.shared, transcript);
      keys := keys.(hs := Some(hs), write := Some(hs.server), read := Some(hs.client));
      ok := WriteHandshakeRecord(EncryptedExtensions(cfg.extensions));
      if !ok { return Some(Unencodable); }
      pc := SCert;
      ghost var m := SendParameters(env, cfg, old(View()));
      assert flight == m.party.flight && out == old(out) + m.sent;
      return None;
    }

    method SendCertificates() returns (err: Option<Error>)
      modifies this
      ensures Did(SendServerCertificate(env, cfg, old(View())), err, View(), old(out), out)
    {
      if deal.psk.Some? {
        pc := SFinish;
        assert out + [] == out;
        return None;
      }
      ghost var was, sent := flight, out;
      var ok := true;
      if cfg.requestCert { ok := WriteHandshakeRecord(CertificateRequest(cfg.requestBody)); }
      if !ok { return Some(Unencodable); }
      ok := WriteHandshakeRecord(Certificate(cfg.chain, cfg.certBody));
      if !ok { return Some(Unencodable); }
      var signature := env.sign(cfg.signKey, SignedMessage(ServerRole, env.cr.digest(heard.hash, transcript)));
      ok := WriteHandshakeRecord(CertificateVerify(signature));
      if !ok { return Some(Unencodable); }
      pc := SFinish;
      ghost var m := SendServerCertificate(env, cfg, old(View()));
      assert flight == m.party.flight && out == sent + m.sent;
      return None;
    }

    /** Computes the client's Finished in advance, rolls the transcript over it, and sends a
        ticket if the client can use one. */
    method SendSessionTickets() returns (err: Option<Error>)
      modifies this
      ensures Did(SendTickets(env, cfg, old(View())), err, View(), old(out), out)
    {
      hide FinishedHash, DeriveEnd, TicketPsk;
      if keys.read.None? || keys.hs.None? { return Some(AtOdds(MessageType)); }
      clientFinished := FinishedHash(env.cr, heard.hash, keys.read.value, transcript);
      if !Encodes(env, Finished(clientFinished)) { return Some(Unencodable); }
      transcript := transcript + BytesOf(env, Finished(clientFinished));
      var end := DeriveEnd(env.cr, heard.hash, keys.hs.value.master, transcript);
      keys := keys.(end := Some(end));
      pc := SWaitFinished;
      if cfg.ticketsDisabled || cfg.isQuic || PSK_MODE_DHE !in heard.hello.VectorAt(PSK_MODES) {
        assert out + [] == out;
        return None;
      }
      var psk := TicketPsk(env.cr, heard.hash, end.resumption, []);
      keys := keys.(ticketPsk := Some(psk));
      if !Encodes(env, NewSessionTicket([], cfg.ticketFor(psk))) { return Some(Unencodable); }
      var data := BytesOf(env, NewSessionTicket([], cfg.ticketFor(psk)));
      flight := flight + [Mark(Packet(keys.write, data), transcript)];
      out := out + [Packet(keys.write, data)];
      return None;
    }

    method SendFinishedMessage() returns (err: Option<Error>)
      modifies this
      ensures Did(SendServerFinished(env, cfg, old(View())), err, View(), old(out), out)
    {
      hide FinishedHash, DeriveAp, SendTickets;
      if keys.write.None? || keys.hs.None? { return Some(AtOdds(MessageType)); }
      ghost var start := out;
      var ok := WriteHandshakeRecord(Finished(FinishedHash(env.cr, heard.hash, keys.write.value, transcript)));
      if !ok { return Some(Unencodable); }
      var ap := DeriveAp(env.cr, heard.hash, keys.hs.value.master, transcript);
      keys := keys.(ap := Some(ap), write := Some(ap.server));
      pc := SWaitCert;
      if cfg.requestCert && deal.psk.None? { return None; }
      ghost var mid, sent := View(), out;
      err := SendSessionTickets();
      ghost var more := SendTickets(env, cfg, mid);
      if more.Move? { assert sent + more.sent == start + ([sent[|sent| - 1]] + more.sent); }
    }

    method ReadFromClient(bytes: Bytes) returns (err: Option<Error>)
      modifies this
      ensures Did(ReadClientFlight(env, cfg, old(View()), bytes), err, View(), old(out), out)
    {
      hide SendTickets;
      var decoded := env.decode(bytes);
      if decoded.None? { return Some(AtOdds(MessageType)); }
      var m := decoded.value;
      assert out + [] == out;
      if pc == SWaitCert && m.Certificate? {
        if !cfg.acceptsCert(m.chain) { return Some(Refused); }
        transcript := transcript + bytes;
        if m.chain == [] { err := SendSessionTickets(); return; }
        peer := m.chain;
        pc := SWaitVerify;
        return None;
      } else if pc == SWaitVerify && m.CertificateVerify? {
        if !env.verify(peer, SignedMessage(ClientRole, env.cr.digest(heard.hash, transcript)), m.signature) {
          return Some(AtOdds(Signature));
        }
        if !Encodes(env, m) { return Some(Unencodable); }
        transcript := transcript + BytesOf(env, m);
        err := SendSessionTickets();
      } else if pc == SWaitFinished && m.Finished? && keys.ap.Some? {
        if m.verifyData != clientFinished { return Some(AtOdds(FinishedMac)); }
        keys := keys.(read := Some(keys.ap.value.client));
        pc := SDone;
        return None;
      } else {
        return Some(AtOdds(MessageType));
      }
    }
  }

  class ClientHandshake {
    const env: Env
    const cfg: ClientConfig
    var pc: ClientPc
    var hello: Hello
    var keyShareKeys: PrivateKeys
    var suite: Option<u16>
    var hash: Hash
    var group: u16
    var usingPsk: bool
    var certReq: bool
    var peer: seq<Bytes>
    var transcript: Bytes
    var keys: Keys
    var flight: seq<Mark>
    var out: seq<Packet>

    function View(): Client
      reads this
    {
      Client(pc, hello, keyShareKeys, suite, hash, group, usingPsk, certReq, peer, transcript, keys, flight)
    }

    constructor (env: Env, cfg: ClientConfig)
      ensures this.env == env && this.cfg == cfg && out == []
      ensures forall unread :: View() == Initial(cfg, unread).x.c
    {
      this.env, this.cfg := env, cfg;
      pc, hello, keyShareKeys, suite, hash, group := CStart, cfg.hello, cfg.keys, None, Sha256, 0;
      usingPsk, certReq, peer, transcript, keys, flight, out := false, false, [], [], NO_KEYS, [], [];
    }

    /** Answers a HelloRetryRequest: rewrites the transcript and the hello, and sends it. */
    method ProcessHelloRetryRequest(sh: ServerHello, wire: Bytes, hrr: Bytes) returns (err: Option<Error>)
      modifies this
      ensures Did(Retry(env, cfg, old(View()), sh, wire, hrr), err, View(), old(out), out)
    {
      hide SecondHello, MessageHash;
      if !RetryOk(hello, sh) { return Some(AtOdds(RetryFields)); }
      var prefix := MessageHash(env.cr, hash, wire) + hrr;
      var share := None;
      if sh.selectedGroup != 0 {
        var shares := KeyShares(env.kex, sh.selectedGroup, cfg.retryKeys);
        if shares.None? { return Some(Unencodable); }
        share := Some(shares.value[0]);
      }
      var second := SecondHello(env, cfg, View(), sh, prefix, share);
      if second.None? { return Some(Unencodable); }
      var wire2 := env.marshal(second.value);
      if wire2.None? { return Some(Unencodable); }
      hello := second.value;
      if share.Some? { keyShareKeys := cfg.retryKeys; }
      transcript := prefix + wire2.value;
      out := out + [Packet(keys.write, wire2.value)];
      pc := CRetried;
      return None;
    }

    /** Checks the ServerHello and switches to the handshake keys. */
    method ProcessServerHello(sh: ServerHello) returns (err: Option<Error>)
      modifies this
      ensures Did(AcceptHello(env, cfg, old(View()), sh, old(transcript)), err, View(), old(out), out)
    {
      hide DeriveHs, ClientShared;
      if !AcceptOk(cfg, View(), sh) { return Some(AtOdds(HelloFields)); }
      var shared := ClientShared(env.kex, sh.share.group, keyShareKeys, sh.share.data);
      if shared.None? { return Some(AtOdds(SharedKey)); }
      var psk := if sh.identity.Some? then Some(cfg.session.value.secret) else None;
      usingPsk := psk.Some?;
      group := sh.share.group;
      var hs := DeriveHs(env.cr, hash, psk, shared.value, transcript);
      keys := keys.(hs := Some(hs), write := Some(hs.client), read := Some(hs.server));
      pc := CExtensions;
      assert out + [] == out;
      return None;
    }

    method SendClientCertificate() returns (err: Option<Error>)
      modifies this
      ensures Did(SendCertificate(env, cfg, old(View())), err, View(), old(out), out)
    {
      pc := CSendFinished;
      assert out + [] == out;
      if !certReq { return None; }
      if !Encodes(env, Certificate(cfg.chain, cfg.certBody)) { return Some(Unencodable); }
      var cert := Append(env, keys.write, transcript, Certificate(cfg.chain, cfg.certBody));
      transcript := cert.after;
      flight, out := flight + [cert], out + [cert.packet];
      if cfg.chain == [] { return None; }
      var signature := env.sign(cfg.signKey, SignedMessage(ClientRole, env.cr.digest(hash, transcript)));
      if !Encodes(env, CertificateVerify(signature)) { return Some(Unencodable); }
      var verify := Append(env, keys.write, transcript, CertificateVerify(signature));
      transcript := verify.after;
      flight, out := flight + [verify], out + [verify.packet];
      assert old(flight) + [cert] + [verify] == old(flight) + [cert, verify];
      assert old(out) + [cert.packet] + [verify.packet] == old(out) + [cert.packet, verify.packet];
      return None;
    }

    method SendClientFinished() returns (err: Option<Error>)
      modifies this
      ensures Did(SendFinished(env, cfg, old(View())), err, View(), old(out), out)
    {
      hide FinishedHash, DeriveEnd;
      if keys.write.None? || keys.ap.None? || keys.hs.None? { return Some(AtOdds(MessageType)); }
      var verifyData := FinishedHash(env.cr, hash, keys.write.value, transcript);
      if !Encodes(env, Finished(verifyData)) { return Some(Unencodable); }
      var fin := Append(env, keys.write, transcript, Finished(verifyData));
      transcript := fin.after;
      flight, out := flight + [fin], out + [fin.packet];
      keys := keys.(write := Some(keys.ap.value.client));
      if cfg.storesTickets { keys := keys.(end := Some(DeriveEnd(env.cr, hash, keys.hs.value.master, transcript))); }
      pc := CDone;
      return None;
    }

    /** One message of the server's encrypted flight. */
    method ReadFromServer(bytes: Bytes) returns (err: Option<Error>)
      modifies this
      ensures Did(ReadFlight(env, cfg, old(View()), bytes), err, View(), old(out), out)
    {
      hide FinishedHash, DeriveAp, TicketPsk;
      var decoded := env.decode(bytes);
      if decoded.None? { return Some(AtOdds(MessageType)); }
      var m := decoded.value;
      assert out + [] == out;
      err := None;
      if pc == CExtensions && m.EncryptedExtensions? {
        transcript := transcript + bytes;
        pc := if usingPsk then CFinished else CCertificate;
      } else if pc == CCertificate && m.CertificateRequest? {
        transcript := transcript + bytes;
        certReq := true;
        pc := CServerCert;
      } else if pc in {CCertificate, CServerCert} && m.Certificate? {
        if m.chain == [] { return Some(AtOdds(Signature)); }
        if !cfg.trusts(m.chain) { return Some(Refused); }
        transcript := transcript + bytes;
        peer := m.chain;
        pc := CVerify;
      } else if pc == CVerify && m.CertificateVerify? {
        if !env.verify(peer, SignedMessage(ServerRole, env.cr.digest(hash, transcript)), m.signature) {
          return Some(AtOdds(Signature));
        }
        if !Encodes(env, m) { return Some(Unencodable); }
        transcript := transcript + BytesOf(env, m);
        pc := CFinished;
      } else if pc == CFinished && m.Finished? && keys.read.Some? && keys.hs.Some? {
        if m.verifyData != FinishedHash(env.cr, hash, keys.read.value, transcript) { return Some(AtOdds(FinishedMac)); }
        if !Encodes(env, m) { return Some(Unencodable); }
        transcript := transcript + BytesOf(env, m);
        var ap := DeriveAp(env.cr, hash, keys.hs.value.master, transcript);
        keys := keys.(ap := Some(ap), read := Some(ap.server));
        pc := CSendCert;
      } else if pc == CDone && m.NewSessionTicket? {
        if keys.end.Some? {
          keys := keys.(ticketPsk := Some(TicketPsk(env.cr, hash, keys.end.value.resumption, m.nonce)));
        }
      } else {
        return Some(AtOdds(MessageType));
      }
    }
  }
}
