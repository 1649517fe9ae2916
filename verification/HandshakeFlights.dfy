/** The flights: every later step keeps the invariant. */
module HandshakeFlights {
  import opened Wire
  import opened ClientHello
  import opened KeySchedule
  import opened KeyExchange
  import opened Groups
  import opened Handshake13
  import opened HandshakeInvariant

  /** A channel holds the packets of the last marks of a flight. */
  lemma Suffix(f: seq<Mark>, q: seq<Packet>)
    requires 0 < |q| <= |f| && q == Packets(f)[|f| - |q|..]
    ensures q[0] == f[|f| - |q|].packet && q[1..] == Packets(f)[|f| - |q[1..]|..]
  {
  }

  lemma Longer(f: seq<Mark>, q: seq<Packet>, more: seq<Mark>)
    requires |q| <= |f| && q == Packets(f)[|f| - |q|..]
    ensures q + Packets(more) == Packets(f + more)[|f| - |q|..]
  {
  }

  // ---------------------------------------------------------------- the client reads

  /** Reading one message advances the client by one place. */
  lemma ClientAdvances(r: Run, x: System, c: Client)
    requires Flights(r, x) && x.toC != [] && c.flight == x.c.flight
    requires ClientOk(r, TermsOf(r, x.s), c, x.s, |x.s.flight| - |x.toC| + 1)
    ensures Flights(r, System(c, x.s, x.toC[1..], x.toS))
  {
    hide ServerOk, ClientOk, ServerReading;
    Suffix(x.s.flight, x.toC);
  }

  /** The next packet is the mark the client has reached. */
  lemma NextPacket(r: Run, x: System)
    requires Flights(r, x) && x.toC != []
    ensures var g := |x.s.flight| - |x.toC|;
      x.toC[0] == x.s.flight[g].packet && MarkOk(r, TermsOf(r, x.s), x.s.flight, g)
  {
    hide ClientOk, ServerReading, MarkOk;
    Suffix(x.s.flight, x.toC);
    assert MarkOk(r, TermsOf(r, x.s), x.s.flight, |x.s.flight| - |x.toC|);
  }

  lemma AcceptsHello(r: Run, t: Terms, c: Client, s: Server)
    requires r.sc.random != HRR_RANDOM && s.k.hs.Some? && t == TermsOf(r, s) && ServerOk(r, t, s)
    requires c.k == NO_KEYS && c.flight == [] && !c.certReq && c.hash == s.o.hash
    requires OwnHello(r, c.hello, c.keys) && Listened(r, c, s) && Settled(r, c, s)
    ensures var m := AcceptHello(r.env, r.cc, c, t.hello, s.flight[0].after);
      && m.Move? && m.took && m.sent == [] && m.party.flight == c.flight
      && ClientOk(r, t, m.party, s, 1)
  {
    hide MarkOk, DownOk, DeriveHs, AllAnswerable, Answerable, ClientShared;
    var i :| 0 <= i < |c.hello.KeyShares()| && c.hello.KeyShares()[i] == s.o.share;
    assert HasShare(c.hello.KeyShares(), s.o.group);
  }

  lemma ClientAcceptsHello(r: Run, t: Terms, c: Client, s: Server, bytes: Bytes)
    requires Honest(r) && s.k.hs.Some? && t == TermsOf(r, s) && ServerOk(r, t, s) && ClientOpening(r, t, c, s)
    requires Encodes(r.env, ServerHelloMsg(t.hello)) && bytes == BytesOf(r.env, ServerHelloMsg(t.hello))
    requires s.flight != [] && s.flight[0].after == t.base + bytes
    ensures var m := ReadServerHello(r.env, r.cc, c, bytes);
      && m.Move? && m.took && m.sent == [] && m.party.flight == c.flight
      && ClientOk(r, t, m.party, s, 1)
  {
    hide ServerOk, ClientOk, AcceptHello, Retry, AllAnswerable, Settled;
    HelloIsSound(r, c, s);
    assert DecodesAt(r.env, ServerHelloMsg(t.hello));
    assert ReceivesAt(r.env, c.hello);
    var c' := c.(suite := Some(s.o.suite), hash := s.o.hash);
    assert ReadServerHello(r.env, r.cc, c, bytes) == AcceptHello(r.env, r.cc, c', t.hello, s.flight[0].after);
    assert Settled(r, c', s) by { SettledIgnores(r, c, c', s); }
    AcceptsHello(r, t, c', s);
  }

  lemma HelloIsSound(r: Run, c: Client, s: Server)
    requires Listened(r, c, s) && Settled(r, c, s)
    ensures SoundHello(HelloOf(r.sc, s))
  {
  }

  lemma SettledIgnores(r: Run, c: Client, c': Client, s: Server)
    requires c'.hello == c.hello && c'.keys == c.keys && Settled(r, c, s)
    ensures Settled(r, c', s)
  {
  }

  lemma ClientReadsHello(r: Run, x: System)
    requires Honest(r) && Flights(r, x) && x.toC != [] && x.c.pc in {CHello, CRetried}
    ensures x.toC[0].key == x.c.k.read
    ensures var m := ReadServerHello(r.env, r.cc, x.c, x.toC[0].bytes);
      m.Move? && Flights(r, AfterClient(x, m))
  {
    hide ServerOk, ClientOk, ServerReading, ClientOpening, MarkOk, Honest, ReadServerHello, Flights, TermsOf;
    AtHello(r, x);
    var m := ReadServerHello(r.env, r.cc, x.c, x.toC[0].bytes);
    ClientAcceptsHello(r, TermsOf(r, x.s), x.c, x.s, x.toC[0].bytes);
    ClientAdvances(r, x, m.party);
    assert x.toS + m.sent == x.toS;
  }

  lemma AtHello(r: Run, x: System)
    requires Flights(r, x) && x.toC != [] && x.c.pc in {CHello, CRetried}
    ensures |x.toC| == |x.s.flight| && x.s.k.hs.Some? && x.s.flight != []
    ensures var t := TermsOf(r, x.s);
      && x.toC[0] == Packet(None, BytesOf(r.env, ServerHelloMsg(t.hello))) && Encodes(r.env, ServerHelloMsg(t.hello))
      && x.s.flight[0].after == t.base + x.toC[0].bytes
      && ServerOk(r, t, x.s) && ClientOpening(r, t, x.c, x.s)
    ensures x.c.k.read == None
  {
    hide ServerOk, ServerReading, ClientOk, ClientOpening, Honest;
    var t, g := TermsOf(r, x.s), |x.s.flight| - |x.toC|;
    NotStarted(r, t, x.c, x.s, g);
    NextPacket(r, x);
  }

  /** A client that waits for a ServerHello has read nothing of the flight. */
  lemma NotStarted(r: Run, t: Terms, c: Client, s: Server, g: nat)
    requires ClientOk(r, t, c, s, g) && c.pc in {CHello, CRetried}
    ensures g == 0 && ClientOpening(r, t, c, s) && c.k.read == None
  {
    hide UpOk, OwnHello, Listened, Settled;
  }

  /** One message of the encrypted flight, up to Finished. */
  lemma ClientReadsOne(r: Run, t: Terms, c: Client, s: Server, g: nat, m: Move<Client>)
    requires Honest(r) && (t.psk ==> !t.req)
    requires 1 <= g <= Fin(t) && g < |s.flight| && ClientOk(r, t, c, s, g) && MarkOk(r, t, s.flight, g)
    requires m == ReadFlight(r.env, r.cc, c, s.flight[g].packet.bytes)
    ensures s.flight[g].packet.key == c.k.read
    ensures if m.Fail? then m.error == Refused && !r.cc.trusts(r.sc.chain)
      else m.took && m.sent == [] && m.party.flight == c.flight && ClientOk(r, t, m.party, s, g + 1)
  {
    hide HelloLaws, KeyExchange.Laws, FinishedHash, DeriveAp, SignedMessage;
    var before := Before(t.base, s.flight, g);
    assert DecodesAt(r.env, Planned(r, t, before, g));
    assert SignsAt(r.env, r.sc.chain, r.sc.signKey, SignedMessage(ServerRole, r.env.cr.digest(t.hash, before)));
  }

  /** A ticket, once the client is done. */
  lemma ClientReadsTicket(r: Run, t: Terms, c: Client, s: Server, m: Move<Client>)
    requires Honest(r)
    requires |s.flight| == Fin(t) + 2 && ClientOk(r, t, c, s, Fin(t) + 1) && MarkOk(r, t, s.flight, Fin(t) + 1)
    requires c.pc == CDone && m == ReadFlight(r.env, r.cc, c, s.flight[Fin(t) + 1].packet.bytes)
    ensures s.flight[Fin(t) + 1].packet.key == c.k.read
    ensures m.Move? && m.took && m.sent == [] && m.party.flight == c.flight && ClientOk(r, t, m.party, s, Fin(t) + 2)
  {
    hide HelloLaws, HonestParties, UpOk, DeriveAp, TicketPsk, DeriveEnd, ClientFin;
    var ticket :| Encodes(r.env, NewSessionTicket([], ticket))
      && s.flight[Fin(t) + 1].packet.bytes == BytesOf(r.env, NewSessionTicket([], ticket));
    assert DecodesAt(r.env, NewSessionTicket([], ticket));
  }

  lemma ClientReadsFlight(r: Run, x: System)
    requires Honest(r) && Flights(r, x) && x.toC != [] && x.c.pc !in {CHello, CRetried, CSendCert, CSendFinished}
    ensures x.toC[0].key == x.c.k.read
    ensures var m := ReadFlight(r.env, r.cc, x.c, x.toC[0].bytes);
      if m.Fail? then m.error == Refused && !r.cc.trusts(r.sc.chain) else Flights(r, AfterClient(x, m))
  {
    hide ServerOk, ClientOk, ServerReading, MarkOk, Honest, ReadFlight, Flights, TermsOf;
    InFlight(r, x);
    NextPacket(r, x);
    var t, g := TermsOf(r, x.s), |x.s.flight| - |x.toC|;
    var m := ReadFlight(r.env, r.cc, x.c, x.toC[0].bytes);
    if g <= Fin(t) { ClientReadsOne(r, t, x.c, x.s, g, m); } else { ClientReadsTicket(r, t, x.c, x.s, m); }
    if m.Move? {
      ClientAdvances(r, x, m.party);
      assert x.toS + m.sent == x.toS;
    }
  }

  lemma InFlight(r: Run, x: System)
    requires Flights(r, x) && x.toC != [] && x.c.pc !in {CHello, CRetried, CSendCert, CSendFinished}
    ensures x.s.k.hs.Some? && |x.toC| <= |x.s.flight|
    ensures var t, g := TermsOf(r, x.s), |x.s.flight| - |x.toC|;
      && 1 <= g && (t.psk ==> !t.req) && ClientOk(r, t, x.c, x.s, g)
      && (g > Fin(t) ==> g == Fin(t) + 1 && |x.s.flight| == Fin(t) + 2 && x.c.pc == CDone)
  {
    hide ServerReading, UpOk, OwnHello, Listened, Settled, DeriveHs, DeriveAp, TicketPsk, Planned, DeriveEnd;
    var t, g := TermsOf(r, x.s), |x.s.flight| - |x.toC|;
    assert MarkOk(r, t, x.s.flight, |x.s.flight| - 1);
  }

  // ---------------------------------------------------------------- the client sends

  lemma ReadingExtends(r: Run, t: Terms, s: Server, up: seq<Mark>, more: seq<Mark>, h: nat)
    requires ServerReading(r, t, s, up, h)
    ensures ServerReading(r, t, s, up + more, h)
  {
    hide ServerEnd;
  }

  lemma ClientGrows(r: Run, x: System, c: Client, more: seq<Mark>)
    requires Flights(r, x) && c.flight == x.c.flight + more
    requires ClientOk(r, TermsOf(r, x.s), c, x.s, |x.s.flight| - |x.toC|)
    ensures Flights(r, System(c, x.s, x.toC, x.toS + Packets(more)))
  {
    hide ServerOk, ClientOk, ServerReading;
    Longer(x.c.flight, x.toS, more);
    ReadingExtends(r, TermsOf(r, x.s), x.s, x.c.flight, more, |x.c.flight| - |x.toS|);
  }

  lemma UpGrows(r: Run, t: Terms, at: Bytes, up: seq<Mark>, mark: Mark)
    requires UpOk(r, t, at, up) && |up| <= ClientFin(r, t)
    requires mark == Append(r.env, Some(t.hs.client), Before(at, up, |up|), PlannedUp(r, t, Before(at, up, |up|), |up|))
    requires Encodes(r.env, PlannedUp(r, t, Before(at, up, |up|), |up|))
    ensures UpOk(r, t, at, up + [mark])
  {
    forall i | 0 <= i < |up| + 1 ensures UpMarkOk(r, t, at, up + [mark], i) {
      if i < |up| { assert UpMarkOk(r, t, at, up, i); }
    }
  }

  lemma CertificateSent(r: Run, t: Terms, c: Client, c': Client, s: Server, g: nat)
    requires g > Fin(t) && ClientOk(r, t, c, s, g) && c.pc == CSendCert
    requires c' == c.(pc := CSendFinished, transcript := c'.transcript, flight := c'.flight)
    requires var at := s.flight[Fin(t)].after;
      && UpOk(r, t, at, c'.flight) && |c'.flight| == ClientFin(r, t)
      && c'.transcript == Before(at, c'.flight, |c'.flight|)
    ensures ClientOk(r, t, c', s, g)
  {
    hide DeriveAp, DeriveEnd, TicketPsk, UpOk;
  }

  /** The messages of a client that was asked for a certificate, each appended to the one before. */
  ghost predicate OwnCertificate(env: Env, cfg: ClientConfig, c: Client, more: seq<Mark>) {
    && |more| == (if cfg.chain == [] then 1 else 2)
    && more[0] == Append(env, c.k.write, c.transcript, Certificate(cfg.chain, cfg.certBody))
    && Encodes(env, Certificate(cfg.chain, cfg.certBody))
    && (cfg.chain != [] ==>
          var verify := CertificateVerify(env.sign(cfg.signKey, SignedMessage(ClientRole, env.cr.digest(c.hash, more[0].after))));
          Encodes(env, verify) && more[1] == Append(env, c.k.write, more[0].after, verify))
  }

  lemma CertificateMarks(env: Env, cfg: ClientConfig, c: Client) returns (more: seq<Mark>)
    ensures var m := SendCertificate(env, cfg, c);
      if m.Fail? then m.error == Unencodable
      else
        && !m.took && m.sent == Packets(more) && (if c.certReq then OwnCertificate(env, cfg, c, more) else more == [])
        && m.party == c.(pc := CSendFinished, flight := c.flight + more,
                         transcript := if more == [] then c.transcript else more[|more| - 1].after)
  {
    hide SignedMessage, Append;
    more := [];
    if c.certReq {
      var cert := Append(env, c.k.write, c.transcript, Certificate(cfg.chain, cfg.certBody));
      more := [cert];
      if cfg.chain != [] {
        var signature := env.sign(cfg.signKey, SignedMessage(ClientRole, env.cr.digest(c.hash, cert.after)));
        more := [cert, Append(env, c.k.write, cert.after, CertificateVerify(signature))];
      }
    }
    assert c.flight + [] == c.flight;
  }

  lemma MarksGrow(r: Run, t: Terms, c: Client, at: Bytes, more: seq<Mark>)
    requires t.req && OwnCertificate(r.env, r.cc, c, more) && UpOk(r, t, at, [])
    requires c.hash == t.hash && c.k.write == Some(t.hs.client) && c.transcript == at
    ensures UpOk(r, t, at, more) && |more| == ClientFin(r, t)
  {
    hide UpOk, SignedMessage, Append;
    assert [] + [more[0]] == [more[0]];
    UpGrows(r, t, at, [], more[0]);
    if |more| == 2 {
      UpGrows(r, t, at, [more[0]], more[1]);
      assert more == [more[0]] + [more[1]];
    } else { assert more == [more[0]]; }
  }

  lemma SendsCertificate(r: Run, t: Terms, c: Client, s: Server, g: nat) returns (more: seq<Mark>)
    requires g > Fin(t) >= 2 && (t.req ==> Fin(t) >= 3) && ClientOk(r, t, c, s, g) && c.pc == CSendCert
    ensures var m := SendCertificate(r.env, r.cc, c);
      if m.Fail? then m.error == Unencodable
      else !m.took && m.sent == Packets(more) && m.party.flight == c.flight + more && ClientOk(r, t, m.party, s, g)
  {
    ReadyToSend(r, t, c, s, g);
    more := CertificateMarks(r.env, r.cc, c);
    hide SendCertificate, ClientOk, UpOk, OwnCertificate, Packets, DeriveHs;
    if SendCertificate(r.env, r.cc, c).Move? {
      if t.req { MarksGrow(r, t, c, s.flight[Fin(t)].after, more); }
      assert c.flight + more == more;
      CertificateSent(r, t, c, SendCertificate(r.env, r.cc, c).party, s, g);
    }
  }

  lemma ReadyToSend(r: Run, t: Terms, c: Client, s: Server, g: nat)
    requires g > Fin(t) >= 2 && (t.req ==> Fin(t) >= 3) && ClientOk(r, t, c, s, g) && c.pc == CSendCert
    ensures Fin(t) < |s.flight| && c.flight == [] && UpOk(r, t, s.flight[Fin(t)].after, [])
    ensures c.hash == t.hash && c.certReq == t.req && c.k.write == Some(t.hs.client)
    ensures c.transcript == s.flight[Fin(t)].after
  {
    hide DeriveAp, DeriveEnd, TicketPsk, UpMarkOk;
  }

  lemma SendsFinished(r: Run, t: Terms, c: Client, s: Server, g: nat) returns (more: seq<Mark>)
    requires g > Fin(t) && ClientOk(r, t, c, s, g) && c.pc == CSendFinished
    ensures var m := SendFinished(r.env, r.cc, c);
      if m.Fail? then m.error == Unencodable
      else !m.took && m.sent == Packets(more) && m.party.flight == c.flight + more && ClientOk(r, t, m.party, s, g)
  {
    hide FinishedHash, DeriveAp, DeriveEnd;
    var fin := Append(r.env, c.k.write, c.transcript, Finished(FinishedHash(r.env.cr, t.hash, t.hs.client, c.transcript)));
    if SendFinished(r.env, r.cc, c).Move? { UpGrows(r, t, s.flight[Fin(t)].after, c.flight, fin); }
    more := [fin];
  }

  lemma SendsLate(r: Run, t: Terms, c: Client, s: Server, g: nat)
    requires ClientOk(r, t, c, s, g) && c.pc in {CSendCert, CSendFinished}
    ensures g > Fin(t)
  {
    hide ClientSending, OwnHello, Listened, Settled;
  }

  lemma Sending(r: Run, x: System)
    requires Flights(r, x) && x.c.pc in {CSendCert, CSendFinished}
    ensures x.s.k.hs.Some? && |x.toC| <= |x.s.flight|
    ensures var t, g := TermsOf(r, x.s), |x.s.flight| - |x.toC|;
      g > Fin(t) && ClientOk(r, t, x.c, x.s, g)
  {
    hide ServerReading, ServerOk, ClientOk, Packets;
    SendsLate(r, TermsOf(r, x.s), x.c, x.s, |x.s.flight| - |x.toC|);
  }

  lemma ClientSends(r: Run, x: System)
    requires Flights(r, x) && x.c.pc in {CSendCert, CSendFinished}
    ensures var m := if x.c.pc == CSendCert then SendCertificate(r.env, r.cc, x.c) else SendFinished(r.env, r.cc, x.c);
      if m.Fail? then m.error == Unencodable else Flights(r, AfterClient(x, m))
  {
    hide Flights, ClientOk, SendCertificate, SendFinished;
    Sending(r, x);
    var t, g := TermsOf(r, x.s), |x.s.flight| - |x.toC|;
    var more;
    if x.c.pc == CSendCert {
      more := SendsCertificate(r, t, x.c, x.s, g);
      if SendCertificate(r.env, r.cc, x.c).Move? { ClientGrows(r, x, SendCertificate(r.env, r.cc, x.c).party, more); }
    } else {
      more := SendsFinished(r, t, x.c, x.s, g);
      if SendFinished(r.env, r.cc, x.c).Move? { ClientGrows(r, x, SendFinished(r.env, r.cc, x.c).party, more); }
    }
  }

  // ---------------------------------------------------------------- the server sends

  lemma DownGrows(r: Run, t: Terms, f: seq<Mark>, mark: Mark)
    requires DownOk(r, t, f) && |f| <= Fin(t)
    requires mark == Append(r.env, if |f| == 0 then None else Some(t.hs.server), Before(t.base, f, |f|),
                            Planned(r, t, Before(t.base, f, |f|), |f|))
    requires Encodes(r.env, Planned(r, t, Before(t.base, f, |f|), |f|))
    ensures DownOk(r, t, f + [mark])
  {
    forall i | 0 <= i < |f| + 1 ensures MarkOk(r, t, f + [mark], i) {
      if i < |f| { assert MarkOk(r, t, f, i); }
    }
  }

  lemma TicketGrows(r: Run, t: Terms, f: seq<Mark>, mark: Mark, ticket: Bytes)
    requires DownOk(r, t, f) && |f| == Fin(t) + 1
    requires mark.packet == Packet(Some(ApOf(r, t, f).server), BytesOf(r.env, NewSessionTicket([], ticket)))
    requires Encodes(r.env, NewSessionTicket([], ticket))
    ensures DownOk(r, t, f + [mark])
  {
    hide DeriveAp;
    var g := f + [mark];
    forall i | 0 <= i < |f| + 1 ensures MarkOk(r, t, g, i) {
      if i < |f| { assert MarkOk(r, t, f, i); } else {
        assert g[i].packet.bytes == BytesOf(r.env, NewSessionTicket([], ticket));
      }
    }
  }

  /** A longer server flight leaves the client where it is. */
  lemma ClientUnmoved(r: Run, t: Terms, c: Client, s: Server, s': Server, g: nat)
    requires ClientOk(r, t, c, s, g) && s'.o == s.o && s'.d == s.d && g <= |s.flight| <= |s'.flight|
    requires s'.flight[..|s.flight|] == s.flight
    ensures ClientOk(r, t, c, s', g)
  {
    hide UpOk, OwnHello;
    assert forall i :: 0 <= i < |s.flight| ==> s'.flight[i] == s.flight[i];
  }

  lemma ServerGrows(r: Run, x: System, s: Server, more: seq<Mark>)
    requires Flights(r, x) && s.flight == x.s.flight + more && s.o == x.s.o && s.d == x.s.d
    requires s.k.hs.Some? && TermsOf(r, s) == TermsOf(r, x.s) && s.pc !in {SHello, SRetry, SResume, SParams}
    requires ServerOk(r, TermsOf(r, s), s)
    requires ServerReading(r, TermsOf(r, s), s, x.c.flight, |x.c.flight| - |x.toS|)
    ensures Flights(r, System(x.c, s, x.toC + Packets(more), x.toS))
  {
    hide ServerOk, ClientOk, ServerReading;
    Longer(x.s.flight, x.toC, more);
    ClientUnmoved(r, TermsOf(r, s), x.c, x.s, s, |x.s.flight| - |x.toC|);
  }
}
