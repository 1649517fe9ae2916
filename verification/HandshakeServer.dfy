/** The flights, on the server's side. */
module HandshakeServer {
  import opened Wire
  import opened ClientHello
  import opened KeySchedule
  import opened Handshake13
  import opened HandshakeInvariant
  import opened HandshakeFlights

  // ---------------------------------------------------------------- the server sends

  lemma Certifies(r: Run, t: Terms, s: Server) returns (more: seq<Mark>)
    requires s.k.hs.Some? && t == TermsOf(r, s) && ServerOk(r, t, s) && s.pc == SCert
    requires SendServerCertificate(r.env, r.sc, s).Move?
    ensures var m := SendServerCertificate(r.env, r.sc, s);
      && !m.took && m.sent == Packets(more) && m.party.flight == s.flight + more
      && m.party == s.(pc := SFinish, transcript := m.party.transcript, flight := m.party.flight)
      && ServerOk(r, t, m.party)
  {
    hide MarkOk, SignedMessage, FinishedHash, DeriveHs;
    if t.psk {
      more := [];
    } else {
      var key, f := Some(t.hs.server), s.flight;
      var request := Append(r.env, key, s.transcript, CertificateRequest(r.sc.requestBody));
      var head := if t.req then [request] else [];
      if t.req { DownGrows(r, t, f, request); } else { assert f + head == f; }
      f := f + head;
      var cert := Append(r.env, key, f[|f| - 1].after, Certificate(r.sc.chain, r.sc.certBody));
      DownGrows(r, t, f, cert);
      f := f + [cert];
      var signature := r.env.sign(r.sc.signKey, SignedMessage(ServerRole, r.env.cr.digest(s.o.hash, cert.after)));
      var verify := Append(r.env, key, cert.after, CertificateVerify(signature));
      DownGrows(r, t, f, verify);
      f := f + [verify];
      more := head + [cert, verify];
      assert f == s.flight + more;
    }
  }

  lemma CertificateFails(r: Run, s: Server)
    ensures var m := SendServerCertificate(r.env, r.sc, s); m.Fail? ==> m.error == Unencodable
  {
    hide SignedMessage;
  }

  lemma ServerCertifies(r: Run, x: System)
    requires Flights(r, x) && x.s.pc == SCert
    ensures var m := SendServerCertificate(r.env, r.sc, x.s);
      if m.Fail? then m.error == Unencodable else Flights(r, AfterServer(x, m))
  {
    var t := TermsOf(r, x.s);
    CertificateFails(r, x.s);
    hide ServerOk, ClientOk, SendServerCertificate;
    if SendServerCertificate(r.env, r.sc, x.s).Move? {
      var more := Certifies(r, t, x.s);
      ServerGrows(r, x, SendServerCertificate(r.env, r.sc, x.s).party, more);
    }
  }

  /** The server has sent its Finished and switched its write key. */
  ghost predicate SentFinished(r: Run, t: Terms, s: Server) {
    && s.k.hs == Some(t.hs) && t.hash == s.o.hash && |s.flight| == Fin(t) + 1 && DownOk(r, t, s.flight)
    && t.hs == DeriveHs(r.env.cr, s.o.hash, s.d.psk, s.d.shared, s.flight[0].after)
    && s.k == Keys(Some(t.hs.client), Some(ApOf(r, t, s.flight).server), Some(t.hs), Some(ApOf(r, t, s.flight)), None, None)
  }

  lemma Tickets(r: Run, t: Terms, s: Server, up: seq<Mark>) returns (more: seq<Mark>)
    requires SentFinished(r, t, s) && ClientFin(r, t) <= |up|
    requires s.transcript == Before(s.flight[Fin(t)].after, up, ClientFin(r, t))
    ensures var m := SendTickets(r.env, r.sc, s);
      m.Fail? ==> m.error == Unencodable
    ensures var m := SendTickets(r.env, r.sc, s);
      m.Move? ==>
      && m.took && m.sent == Packets(more) && m.party.flight == s.flight + more
      && m.party.pc == SWaitFinished && m.party.o == s.o && m.party.d == s.d && m.party.base == s.base && m.party.k.hs == s.k.hs
      && ServerOk(r, t, m.party)
      && ServerReading(r, t, m.party, up, ClientFin(r, t))
  {
    hide MarkOk, FinishedHash, DeriveHs, DeriveAp, DeriveEnd, TicketPsk;
    var v := FinishedHash(r.env.cr, t.hash, t.hs.client, s.transcript);
    var after := s.transcript + BytesOf(r.env, Finished(v));
    var end := DeriveEnd(r.env.cr, t.hash, t.hs.master, after);
    var m := SendTickets(r.env, r.sc, s);
    if m.Fail? || m.sent == [] {
      more := [];
    } else {
      var ticket := r.sc.ticketFor(TicketPsk(r.env.cr, t.hash, end.resumption, []));
      var mark := Mark(Packet(s.k.write, BytesOf(r.env, NewSessionTicket([], ticket))), after);
      TicketGrows(r, t, s.flight, mark, ticket);
      more := [mark];
    }
  }

  lemma FinishedAppended(r: Run, t: Terms, s: Server, fin: Mark)
    requires s.k.hs.Some? && t == TermsOf(r, s) && ServerOk(r, t, s) && s.pc == SFinish
    requires fin == Append(r.env, s.k.write, s.transcript,
                           Finished(FinishedHash(r.env.cr, s.o.hash, t.hs.server, s.transcript)))
    requires Encodes(r.env, Finished(FinishedHash(r.env.cr, s.o.hash, t.hs.server, s.transcript)))
    ensures var ap := DeriveAp(r.env.cr, s.o.hash, t.hs.master, fin.after);
      SentFinished(r, t, s.(pc := SWaitCert, transcript := fin.after, flight := s.flight + [fin],
                            k := s.k.(ap := Some(ap), write := Some(ap.server))))
  {
    hide MarkOk, FinishedHash, DeriveHs, DeriveAp;
    DownGrows(r, t, s.flight, fin);
  }

  /** What the server's own Finished leads to: `more` is what it sends. */
  ghost predicate FinishedOk(r: Run, t: Terms, s: Server, m: Move<Server>, more: seq<Mark>) {
    if m.Fail? then m.error == Unencodable
    else
      && !m.took && m.sent == Packets(more) && m.party.flight == s.flight + more
      && m.party.o == s.o && m.party.d == s.d && m.party.base == s.base && m.party.k.hs == s.k.hs
      && m.party.pc !in {SHello, SRetry, SResume, SParams} && ServerOk(r, t, m.party)
      && forall up :: ServerReading(r, t, m.party, up, 0)
  }

  /** The server's state with its Finished sent. */
  ghost function Finishing(r: Run, t: Terms, s: Server): (Mark, Server) {
    var fin := Append(r.env, s.k.write, s.transcript,
                      Finished(FinishedHash(r.env.cr, s.o.hash, t.hs.server, s.transcript)));
    var ap := DeriveAp(r.env.cr, s.o.hash, t.hs.master, fin.after);
    (fin, s.(pc := SWaitCert, transcript := fin.after, flight := s.flight + [fin],
             k := s.k.(ap := Some(ap), write := Some(ap.server))))
  }

  lemma SendsFinished(r: Run, t: Terms, s: Server)
    requires s.k.hs.Some? && t == TermsOf(r, s) && ServerOk(r, t, s) && s.pc == SFinish
    ensures var (fin, s') := Finishing(r, t, s);
      SendServerFinished(r.env, r.sc, s) ==
        if !Encodes(r.env, Finished(FinishedHash(r.env.cr, s.o.hash, t.hs.server, s.transcript))) then Fail(Unencodable)
        else if t.req then Move(s', false, [fin.packet])
        else
          var rest := SendTickets(r.env, r.sc, s');
          if rest.Fail? then rest else Move(rest.party, false, [fin.packet] + rest.sent)
  {
    hide DownOk, FinishedHash, DeriveHs, DeriveAp, SendTickets;
  }

  /** With a certificate requested, the server now waits for it. */
  lemma FinishesAsking(r: Run, t: Terms, s: Server)
    requires SentFinished(r, t, s) && t == TermsOf(r, s) && t.req && s.pc == SWaitCert
    requires s.transcript == s.flight[Fin(t)].after
    ensures ServerOk(r, t, s) && forall up :: ServerReading(r, t, s, up, 0)
  {
    hide MarkOk, DownOk, FinishedHash, DeriveHs, DeriveAp, ServerEnd;
  }

  /** Without, it rolls the transcript forward at once. */
  lemma FinishesQuietly(r: Run, t: Terms, s: Server) returns (rest: seq<Mark>)
    requires SentFinished(r, t, s) && t == TermsOf(r, s) && !t.req
    requires s.transcript == s.flight[Fin(t)].after
    ensures var m := SendTickets(r.env, r.sc, s);
      m.Fail? ==> m.error == Unencodable
    ensures var m := SendTickets(r.env, r.sc, s);
      m.Move? ==>
      && m.sent == Packets(rest) && m.party.flight == s.flight + rest
      && m.party.o == s.o && m.party.d == s.d && m.party.base == s.base && m.party.k.hs == s.k.hs
      && m.party.pc == SWaitFinished && ServerOk(r, t, m.party)
      && forall up :: ServerReading(r, t, m.party, up, 0)
  {
    assert ClientFin(r, t) == 0;
    hide MarkOk, DownOk, FinishedHash, DeriveHs, DeriveAp, SendTickets, ServerOk, SentFinished, ServerReading, TermsOf;
    rest := Tickets(r, t, s, []);
    if SendTickets(r.env, r.sc, s).Move? {
      forall up ensures ServerReading(r, t, SendTickets(r.env, r.sc, s).party, up, 0) {
        ReadingExtends(r, t, SendTickets(r.env, r.sc, s).party, [], up, 0);
        assert [] + up == up;
      }
    }
  }

  lemma FinishingIs(r: Run, t: Terms, s: Server)
    requires s.k.hs.Some? && t == TermsOf(r, s) && ServerOk(r, t, s) && s.pc == SFinish
    requires Encodes(r.env, Finished(FinishedHash(r.env.cr, s.o.hash, t.hs.server, s.transcript)))
    ensures var s' := Finishing(r, t, s).1;
      && s'.k.hs.Some? && t == TermsOf(r, s') && SentFinished(r, t, s')
      && s'.transcript == s'.flight[Fin(t)].after
  {
    FinishedAppended(r, t, s, Finishing(r, t, s).0);
    hide MarkOk, DownOk, FinishedHash, DeriveHs, DeriveAp;
  }

  lemma Finishes(r: Run, t: Terms, s: Server) returns (more: seq<Mark>)
    requires s.k.hs.Some? && t == TermsOf(r, s) && ServerOk(r, t, s) && s.pc == SFinish
    ensures FinishedOk(r, t, s, SendServerFinished(r.env, r.sc, s), more)
  {
    hide FinishedHash, DeriveHs, DeriveAp, SendTickets, SendServerFinished, ServerOk, SentFinished, ServerReading, TermsOf;
    SendsFinished(r, t, s);
    more := [];
    if Encodes(r.env, Finished(FinishedHash(r.env.cr, s.o.hash, t.hs.server, s.transcript))) {
      var (fin, s') := Finishing(r, t, s);
      FinishingIs(r, t, s);
      assert s'.flight == s.flight + [fin] && s'.pc == SWaitCert && s'.k.hs == s.k.hs;
      if t.req {
        FinishesAsking(r, t, s');
        more := [fin];
        assert Packets(more) == [fin.packet];
      } else {
        var rest := FinishesQuietly(r, t, s');
        more := [fin] + rest;
        assert s.flight + more == (s.flight + [fin]) + rest;
        assert Packets(more) == [fin.packet] + Packets(rest);
      }
    }
  }

  lemma ServerFinishes(r: Run, x: System)
    requires Flights(r, x) && x.s.pc == SFinish
    ensures var m := SendServerFinished(r.env, r.sc, x.s);
      if m.Fail? then m.error == Unencodable else Flights(r, AfterServer(x, m))
  {
    var t := TermsOf(r, x.s);
    hide ServerOk, ClientOk, SendServerFinished;
    var more := Finishes(r, t, x.s);
    if SendServerFinished(r.env, r.sc, x.s).Fail? { return; }
    var s' := SendServerFinished(r.env, r.sc, x.s).party;
    assert ServerReading(r, t, s', x.c.flight, 0);
    hide ServerReading;
    ServerGrows(r, x, s', more);
  }

  // ---------------------------------------------------------------- the server reads

  /** What has been sent upwards is the client's flight, read from the server's Finished on. */
  lemma NextUp(r: Run, x: System)
    requires Flights(r, x) && x.toS != []
    ensures x.s.pc in {SWaitCert, SWaitVerify, SWaitFinished} && x.s.k.hs.Some? && |x.toS| <= |x.c.flight|
    ensures var t, h := TermsOf(r, x.s), |x.c.flight| - |x.toS|;
      && Fin(t) < |x.s.flight| && x.toS[0] == x.c.flight[h].packet
      && UpMarkOk(r, t, x.s.flight[Fin(t)].after, x.c.flight, h)
      && ServerOk(r, t, x.s) && ServerReading(r, t, x.s, x.c.flight, h)
  {
    hide ServerOk, ClientOk, UpOk, UpMarkOk, ServerReading, TermsOf, Flights;
    UpFacts(r, x);
    var t, h := TermsOf(r, x.s), |x.c.flight| - |x.toS|;
    Suffix(x.c.flight, x.toS);
    HasSent(r, t, x.c, x.s, |x.s.flight| - |x.toC|);
    var at := x.s.flight[Fin(t)].after;
    UpMarkAt(r, t, at, x.c.flight, h);
    UpMarkAt(r, t, at, x.c.flight, |x.c.flight| - 1);
    AtMostFinished(r, t, at, x.c.flight, |x.c.flight| - 1);
    Reading(r, t, x.s, x.c.flight, h);
  }

  lemma UpFacts(r: Run, x: System)
    requires Flights(r, x)
    ensures x.s.k.hs.Some? && |x.toS| <= |x.c.flight| && |x.toC| <= |x.s.flight|
    ensures x.s.pc !in {SHello, SRetry, SResume, SParams}
    ensures var t, h := TermsOf(r, x.s), |x.c.flight| - |x.toS|;
      && x.toS == Packets(x.c.flight)[h..]
      && ServerOk(r, t, x.s) && ServerReading(r, t, x.s, x.c.flight, h)
      && ClientOk(r, t, x.c, x.s, |x.s.flight| - |x.toC|)
  {
    hide ServerOk, ClientOk, ServerReading, TermsOf;
  }

  lemma UpMarkAt(r: Run, t: Terms, at: Bytes, up: seq<Mark>, i: nat)
    requires UpOk(r, t, at, up) && i < |up|
    ensures UpMarkOk(r, t, at, up, i)
  {
    hide UpMarkOk;
  }

  /** While part of the client's flight is unread, the server waits for it. */
  lemma Reading(r: Run, t: Terms, s: Server, up: seq<Mark>, h: nat)
    requires ServerOk(r, t, s) && ServerReading(r, t, s, up, h) && s.pc !in {SHello, SRetry, SResume, SParams}
    requires Fin(t) < |s.flight| && h < |up| <= ClientFin(r, t) + 1
    ensures s.pc in {SWaitCert, SWaitVerify, SWaitFinished}
  {
    hide MarkOk, DownOk, ServerEnd, DeriveHs, DeriveAp;
  }

  /** A client that has sent anything of its flight has read the server's Finished. */
  lemma HasSent(r: Run, t: Terms, c: Client, s: Server, g: nat)
    requires ClientOk(r, t, c, s, g) && c.flight != []
    ensures g > Fin(t) && Fin(t) < |s.flight| && UpOk(r, t, s.flight[Fin(t)].after, c.flight)
  {
    hide OwnHello, Listened, Settled, UpOk, DeriveAp, DeriveEnd, TicketPsk, PcAt;
  }

  lemma AtMostFinished(r: Run, t: Terms, at: Bytes, up: seq<Mark>, i: nat)
    requires i < |up| && UpMarkOk(r, t, at, up, i)
    ensures i <= ClientFin(r, t)
  {
  }

  lemma ServerAdvances(r: Run, x: System, s: Server, more: seq<Mark>)
    requires Flights(r, x) && x.toS != [] && s.flight == x.s.flight + more && s.o == x.s.o && s.d == x.s.d
    requires s.k.hs.Some? && TermsOf(r, s) == TermsOf(r, x.s) && s.pc !in {SHello, SRetry, SResume, SParams}
    requires ServerOk(r, TermsOf(r, s), s)
    requires ServerReading(r, TermsOf(r, s), s, x.c.flight, |x.c.flight| - |x.toS| + 1)
    ensures Flights(r, System(x.c, s, x.toC + Packets(more), x.toS[1..]))
  {
    hide ServerOk, ClientOk, ServerReading;
    Suffix(x.c.flight, x.toS);
    Longer(x.s.flight, x.toC, more);
    ClientUnmoved(r, TermsOf(r, s), x.c, x.s, s, |x.s.flight| - |x.toC|);
  }

  /** Why the server may stop at an honest client's message: its policy, or a message of its
      own that cannot be printed. */
  ghost predicate ServerExcused(r: Run, e: Error) {
    || (e == Refused && !r.sc.acceptsCert(r.cc.chain))
    || (e == Unencodable && exists s: Server :: SendTickets(r.env, r.sc, s) == Fail(Unencodable))
  }

  /** Reading one message of the client's flight. */
  lemma ReadsOne(r: Run, t: Terms, s: Server, up: seq<Mark>, h: nat) returns (more: seq<Mark>)
    requires Honest(r) && s.k.hs.Some? && t == TermsOf(r, s) && ServerOk(r, t, s) && s.pc !in {SCert, SFinish, SDone}
    requires s.pc !in {SHello, SRetry, SResume, SParams}
    requires h < |up| && ServerReading(r, t, s, up, h) && UpMarkOk(r, t, s.flight[Fin(t)].after, up, h)
    ensures up[h].packet.key == s.k.read
    ensures var m := ReadClientFlight(r.env, r.sc, s, up[h].packet.bytes);
      if m.Fail? then ServerExcused(r, m.error)
      else
        && m.took && m.sent == Packets(more) && m.party.flight == s.flight + more
        && m.party.o == s.o && m.party.d == s.d && m.party.base == s.base && m.party.k.hs == s.k.hs
        && m.party.pc !in {SHello, SRetry, SResume, SParams}
        && ServerOk(r, t, m.party) && ServerReading(r, t, m.party, up, h + 1)
  {
    hide HelloLaws, KeyExchange.Laws, MarkOk, DownOk, FinishedHash, DeriveHs, DeriveAp, DeriveEnd, TicketPsk,
      SignedMessage, SendTickets;
    var before := Before(s.flight[Fin(t)].after, up, h);
    assert DecodesAt(r.env, PlannedUp(r, t, before, h));
    more := [];
    if s.pc == SWaitCert && r.cc.chain == [] && r.sc.acceptsCert([]) {
      more := Tickets(r, t, s.(transcript := s.transcript + up[h].packet.bytes), up);
    } else if s.pc == SWaitVerify {
      assert SignsAt(r.env, r.cc.chain, r.cc.signKey, SignedMessage(ClientRole, r.env.cr.digest(t.hash, before)));
      more := Tickets(r, t, s.(transcript := s.transcript + up[h].packet.bytes), up);
    }
  }

  lemma ServerReadsFlight(r: Run, x: System)
    requires Honest(r) && Flights(r, x) && x.toS != []
    ensures x.toS[0].key == x.s.k.read
    ensures var m := ReadClientFlight(r.env, r.sc, x.s, x.toS[0].bytes);
      if m.Fail? then ServerExcused(r, m.error) else Flights(r, AfterServer(x, m))
  {
    hide ServerOk, ClientOk, ServerReading, Honest, ReadClientFlight, UpMarkOk, Flights;
    NextUp(r, x);
    var t, h := TermsOf(r, x.s), |x.c.flight| - |x.toS|;
    var m := ReadClientFlight(r.env, r.sc, x.s, x.toS[0].bytes);
    var more := ReadsOne(r, t, x.s, x.c.flight, h);
    if m.Move? { ServerAdvances(r, x, m.party, more); }
  }
}
