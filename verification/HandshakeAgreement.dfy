/** Main results about the TLS 1.3 handshake: in every interleaving of an honest run, the
    two parties' transcripts agree at each derivation point, and so do all their secrets;
    no check of one party against the other ever fails; and the run never deadlocks.
 */
module HandshakeAgreement {
  import opened Wire
  import opened ClientHello
  import opened ClientHelloRoundTrip
  import opened PskBinders
  import opened KeySchedule
  import opened KeyExchange
  import opened Groups
  import opened Handshake13
  import opened HandshakeInvariant
  import HandshakeOpening
  import HandshakeFlights
  import HandshakeServer
  import opened HandshakeCodec

  // ---------------------------------------------------------------- every step keeps the invariant

  lemma Starts(r: Run, unread: Hello)
    ensures Inv(r, Initial(r.cc, unread))
  {
    assert Quiet(r, Initial(r.cc, unread).x);
  }

  /** The client is before its hello, waits for one, or is in the flights. */
  lemma OpeningTurns(r: Run, x: System)
    requires Opening(r, x) && ClientCanMove(x)
    ensures x.c.pc == CStart || (x.c.pc == CHello && x.s.pc == SRetry)
  {
    hide OwnHello, Bound, Listened, Settled, Awaited;
  }

  lemma ClientKeeps(r: Run, x: System)
    requires Honest(r) && SystemInv(r, x) && ClientCanMove(x)
    ensures var m := ClientStep(r.env, r.cc, x.c, x.toC);
      if m.Fail? then !m.error.AtOdds? else SystemInv(r, AfterClient(x, m))
  {
    if Opening(r, x) {
      OpeningTurns(r, x);
      hide Opening, Flights, Honest, StartClient, ReadServerHello, ReadFlight, SendCertificate, SendFinished;
      if x.c.pc == CStart { HandshakeOpening.ClientStarts(r, x); } else { HandshakeOpening.ClientRetries(r, x); }
    } else {
      NeverStart(r, x);
      hide Opening, Flights, Honest, StartClient, ReadServerHello, ReadFlight, SendCertificate, SendFinished;
      if x.c.pc in {CSendCert, CSendFinished} { HandshakeFlights.ClientSends(r, x); }
      else if x.c.pc in {CHello, CRetried} { HandshakeFlights.ClientReadsHello(r, x); }
      else { HandshakeFlights.ClientReadsFlight(r, x); }
    }
  }

  lemma NeverStart(r: Run, x: System)
    requires Flights(r, x)
    ensures x.c.pc != CStart && x.s.pc !in {SHello, SRetry, SResume, SParams}
  {
    hide OwnHello, Listened, Settled, ServerOk, ServerReading, UpOk;
  }

  lemma ServerOpening(r: Run, x: System)
    requires Opening(r, x)
    ensures x.s.pc in {SHello, SRetry, SResume, SParams}
  {
    hide FirstRound, SecondRound, Quiet, Settled;
  }

  lemma OpeningKeeps(r: Run, x: System)
    requires Honest(r) && Opening(r, x) && ServerCanMove(x)
    ensures var m := ServerStep(r.env, r.sc, x.s, x.toS);
      if m.Fail? then !m.error.AtOdds? else SystemInv(r, AfterServer(x, m))
  {
    hide Opening, Flights, Honest, ReadClientHello, ReadSecondHello, ResumeStep, SendParameters, HandshakeOpening.Waiting;
    ServerOpening(r, x);
    if x.s.pc == SHello { HandshakeOpening.ServerHears(r, x); }
    else if x.s.pc == SRetry { HandshakeOpening.ServerHearsAgain(r, x); }
    else if x.s.pc == SResume { HandshakeOpening.ServerDecides(r, x); }
    else {
      HandshakeOpening.BeforeAnswer(r, x);
      HandshakeOpening.ServerAnswers(r, x, SendParameters(r.env, r.sc, x.s));
    }
  }

  lemma FlightsKeep(r: Run, x: System)
    requires Honest(r) && Flights(r, x) && ServerCanMove(x)
    ensures var m := ServerStep(r.env, r.sc, x.s, x.toS);
      if m.Fail? then !m.error.AtOdds? else SystemInv(r, AfterServer(x, m))
  {
    NeverStart(r, x);
    hide Opening, Flights, Honest, ReadClientFlight, SendServerCertificate, SendServerFinished;
    if x.s.pc == SCert { HandshakeServer.ServerCertifies(r, x); }
    else if x.s.pc == SFinish { HandshakeServer.ServerFinishes(r, x); }
    else { HandshakeServer.ServerReadsFlight(r, x); }
  }

  lemma ServerKeeps(r: Run, x: System)
    requires Honest(r) && SystemInv(r, x) && ServerCanMove(x)
    ensures var m := ServerStep(r.env, r.sc, x.s, x.toS);
      if m.Fail? then !m.error.AtOdds? else SystemInv(r, AfterServer(x, m))
  {
    hide Opening, Flights, Honest, ServerStep;
    if Opening(r, x) { OpeningKeeps(r, x); } else { FlightsKeep(r, x); }
  }

  lemma StepKeeps(r: Run, who: Role, a: State, b: State)
    requires Honest(r) && Inv(r, a) && Step(r.env, r.cc, r.sc, who, a, b)
    ensures Inv(r, b)
  {
    hide Honest, SystemInv, ClientStep, ServerStep;
    if who == ClientRole { ClientKeeps(r, a.x); } else { ServerKeeps(r, a.x); }
  }

  /** A run: states linked by steps of one party or the other. */
  ghost predicate IsRun(r: Run, unread: Hello, states: seq<State>, who: seq<Role>) {
    && |states| == |who| + 1 && states[0] == Initial(r.cc, unread)
    && forall i :: 0 <= i < |who| ==> Step(r.env, r.cc, r.sc, who[i], states[i], states[i + 1])
  }

  lemma {:induction false} RunKeeps(r: Run, unread: Hello, states: seq<State>, who: seq<Role>, n: nat)
    requires Honest(r) && IsRun(r, unread, states, who) && n < |states|
    ensures Inv(r, states[n])
  {
    hide Honest, Inv, Step;
    if n == 0 { Starts(r, unread); } else {
      RunKeeps(r, unread, states, who, n - 1);
      StepKeeps(r, who[n - 1], states[n - 1], states[n]);
    }
  }

  // ---------------------------------------------------------------- agreement

  /** Equal transcripts at every derivation point both have reached, and equal secrets. */
  ghost predicate Agree(c: Client, s: Server) {
    && (c.k.hs.Some? ==> s.k.hs == c.k.hs && c.group == s.o.group && c.hash == s.o.hash && c.usingPsk == s.d.psk.Some?)
    && (c.k.ap.Some? ==> s.k.ap == c.k.ap)
    && (c.k.end.Some? && s.k.end.Some? ==> s.k.end == c.k.end)
    && (c.k.ticketPsk.Some? ==> s.k.ticketPsk == c.k.ticketPsk)
  }

  /** The Finished the client sends is the one the server computed in advance. */
  ghost predicate FinishedAgrees(r: Run, c: Client, s: Server) {
    c.pc == CDone && s.pc in {SWaitFinished, SDone} ==>
      && c.flight != []
      && c.flight[|c.flight| - 1].packet.bytes == BytesOf(r.env, Finished(s.clientFinished))
  }

  /** At the end: the client's Finished is the expected one, and the last secrets agree. */
  lemma EndAgrees(r: Run, t: Terms, c: Client, s: Server, h: nat)
    requires Fin(t) < |s.flight| && ClientSending(r, t, c, s.flight) && c.pc == CDone
    requires ServerReading(r, t, s, c.flight, h) && s.pc in {SWaitFinished, SDone}
    ensures c.k.end.Some? ==> s.k.end == c.k.end
    ensures FinishedAgrees(r, c, s)
    ensures s.k.end.Some?
    ensures s.k.ticketPsk.Some? ==> s.k.ticketPsk.value == TicketPsk(r.env.cr, t.hash, s.k.end.value.resumption, [])
    ensures |s.flight| > Fin(t) + 1 ==> s.k.ticketPsk.Some?
  {
    hide DeriveAp, DeriveEnd, TicketPsk, FinishedHash;
    assert UpMarkOk(r, t, s.flight[Fin(t)].after, c.flight, ClientFin(r, t));
  }

  /** Which server states have derived which secrets. */
  lemma ServerReached(r: Run, t: Terms, s: Server)
    requires s.k.hs.Some? && t == TermsOf(r, s) && ServerOk(r, t, s) && s.pc !in {SHello, SRetry, SResume, SParams}
    ensures |s.flight| > Fin(t) ==> s.k.ap == Some(ApOf(r, t, s.flight))
    ensures |s.flight| > Fin(t) + 1 || s.k.end.Some? ==> s.pc in {SWaitFinished, SDone}
  {
    hide MarkOk, DownOk, DeriveAp, DeriveHs;
  }

  lemma PartsAgree(r: Run, t: Terms, c: Client, s: Server, g: nat, h: nat)
    requires s.k.hs.Some? && t == TermsOf(r, s) && ServerOk(r, t, s) && s.pc !in {SHello, SRetry, SResume, SParams}
    requires ClientOk(r, t, c, s, g) && ServerReading(r, t, s, c.flight, h)
    ensures Agree(c, s) && FinishedAgrees(r, c, s)
  {
    hide ServerOk, ServerReading, OwnHello, Listened, Settled, UpOk, DeriveAp, DeriveEnd, TicketPsk, FinishedAgrees;
    ServerReached(r, t, s);
    if g > Fin(t) && c.pc == CDone && s.pc in {SWaitFinished, SDone} {
      EndAgrees(r, t, c, s, h);
    } else {
      NoFinished(r, c, s);
    }
  }

  lemma NoFinished(r: Run, c: Client, s: Server)
    requires c.pc != CDone || s.pc !in {SWaitFinished, SDone}
    ensures FinishedAgrees(r, c, s)
  {
  }

  lemma FlightsAgree(r: Run, x: System)
    requires Flights(r, x)
    ensures Agree(x.c, x.s) && FinishedAgrees(r, x.c, x.s)
  {
    hide ServerOk, ClientOk, ServerReading, Agree, FinishedAgrees;
    PartsAgree(r, TermsOf(r, x.s), x.c, x.s, |x.s.flight| - |x.toC|, |x.c.flight| - |x.toS|);
  }

  lemma InvAgrees(r: Run, a: State)
    requires Inv(r, a)
    ensures Agree(a.x.c, a.x.s) && FinishedAgrees(r, a.x.c, a.x.s)
  {
    if Flights(r, a.x) {
      hide Flights;
      FlightsAgree(r, a.x);
    } else {
      hide FirstRound, SecondRound, Quiet, Settled;
    }
  }

  // ---------------------------------------------------------------- no deadlock

  /** A run that has not stopped with an error and cannot move has completed on both sides. */
  lemma NeverStuck(r: Run, a: State)
    requires Inv(r, a) && a.clientError.None? && a.serverError.None?
    requires !ClientCanMove(a.x) && !ServerCanMove(a.x)
    ensures a.x.c.pc == CDone && a.x.s.pc == SDone
  {
    if Opening(r, a.x) {
      hide OwnHello, Bound, Listened, Settled, Awaited;
      assert false;
    } else {
      FlightsComplete(r, a.x);
    }
  }

  lemma FlightsComplete(r: Run, x: System)
    requires Flights(r, x) && !ClientCanMove(x) && !ServerCanMove(x)
    ensures x.c.pc == CDone && x.s.pc == SDone
  {
    hide OwnHello, Listened, Settled, DeriveHs, DeriveAp, DeriveEnd, TicketPsk, FinishedHash, MarkOk, UpMarkOk, ServerEnd;
  }

  // ---------------------------------------------------------------- every run ends

  function ClientRank(pc: ClientPc): nat {
    match pc
    case CStart => 10
    case CHello => 9
    case CRetried => 8
    case CExtensions => 7
    case CCertificate => 6
    case CServerCert => 5
    case CVerify => 4
    case CFinished => 3
    case CSendCert => 2
    case CSendFinished => 1
    case CDone => 0
  }

  function ServerRank(pc: ServerPc): nat {
    match pc
    case SHello => 9
    case SRetry => 8
    case SResume => 7
    case SParams => 6
    case SCert => 5
    case SFinish => 4
    case SWaitCert => 3
    case SWaitVerify => 2
    case SWaitFinished => 1
    case SDone => 0
  }

  /** How much a run can still do: phases to go, packets to read, parties to stop. */
  function Rank(a: State): nat {
    8 * (ClientRank(a.x.c.pc) + ServerRank(a.x.s.pc)) + |a.x.toC| + |a.x.toS|
    + (if a.clientError.None? then 1 else 0) + (if a.serverError.None? then 1 else 0)
  }

  const MOST_STEPS := 154

  /** The client moved on, or read a packet where it stands. */
  ghost predicate ClientMoved(m: Move<Client>, pc: ClientPc) {
    m.Move? ==>
      && |m.sent| <= 2 && (m.took ==> ClientReads(pc))
      && (ClientRank(m.party.pc) < ClientRank(pc) || (m.party.pc == pc && m.took && m.sent == []))
  }

  lemma HelloAdvances(r: Run, c: Client, bytes: Bytes)
    requires c.pc in {CHello, CRetried}
    ensures ClientMoved(ReadServerHello(r.env, r.cc, c, bytes), c.pc)
  {
    hide DeriveHs, SecondHello, AcceptOk, RetryOk, HelloOk, MessageHash;
  }

  lemma FlightAdvances(r: Run, c: Client, bytes: Bytes)
    ensures ClientMoved(ReadFlight(r.env, r.cc, c, bytes), c.pc)
  {
    hide DeriveAp, TicketPsk, FinishedHash, SignedMessage;
  }

  lemma ClientAdvances(r: Run, c: Client, inbox: seq<Packet>)
    requires ClientReads(c.pc) ==> inbox != []
    ensures ClientMoved(ClientStep(r.env, r.cc, c, inbox), c.pc)
  {
    hide ReadServerHello, ReadFlight, DeriveEnd, FinishedHash, SignedMessage, FirstHello;
    if c.pc in {CHello, CRetried} { HelloAdvances(r, c, inbox[0].bytes); }
    else if ClientReads(c.pc) { FlightAdvances(r, c, inbox[0].bytes); }
  }

  ghost predicate ServerMoved(m: Move<Server>, pc: ServerPc) {
    m.Move? ==> |m.sent| <= 4 && ServerRank(m.party.pc) < ServerRank(pc)
  }

  lemma TicketsAdvance(r: Run, s: Server)
    ensures var m := SendTickets(r.env, r.sc, s); m.Move? ==> |m.sent| <= 1 && m.party.pc == SWaitFinished
  {
    hide DeriveEnd, TicketPsk, FinishedHash;
  }

  lemma ServerReadAdvances(r: Run, s: Server, bytes: Bytes)
    ensures ServerMoved(ReadClientFlight(r.env, r.sc, s, bytes), s.pc)
  {
    hide SendTickets, SignedMessage;
    forall t: Server ensures var m := SendTickets(r.env, r.sc, t); m.Move? ==> |m.sent| <= 1 && m.party.pc == SWaitFinished {
      TicketsAdvance(r, t);
    }
  }

  lemma ServerFinishAdvances(r: Run, s: Server)
    requires s.pc == SFinish
    ensures ServerMoved(SendServerFinished(r.env, r.sc, s), s.pc)
  {
    hide SendTickets, DeriveAp, FinishedHash;
    forall t: Server ensures var m := SendTickets(r.env, r.sc, t); m.Move? ==> |m.sent| <= 1 && m.party.pc == SWaitFinished {
      TicketsAdvance(r, t);
    }
  }

  lemma ServerAdvances(r: Run, s: Server, inbox: seq<Packet>)
    requires ServerReads(s.pc) ==> inbox != []
    ensures ServerMoved(ServerStep(r.env, r.sc, s, inbox), s.pc)
  {
    hide DeriveHs, SignedMessage, CheckForResumption, IllegalChange, SelectGroup, SelectSuite, ServerShared,
      ReadClientFlight, SendServerFinished, MessageHash;
    if s.pc == SFinish { ServerFinishAdvances(r, s); }
    if ServerReads(s.pc) { ServerReadAdvances(r, s, inbox[0].bytes); }
  }

  /** Every step, honest or not, uses up some of the rank. */
  lemma StepDescends(r: Run, who: Role, a: State, b: State)
    requires Step(r.env, r.cc, r.sc, who, a, b)
    ensures Rank(b) < Rank(a)
  {
    hide ClientStep, ServerStep, ClientRank, ServerRank, ClientReads;
    if who == ClientRole { ClientAdvances(r, a.x.c, a.x.toC); } else { ServerAdvances(r, a.x.s, a.x.toS); }
  }

  /** Main result: no run takes more than a fixed number of steps; with `NeverStuck`, a run
      carried on for as long as it can be ends with both parties done or one stopped by a
      limit of its own.
   */
  lemma {:induction false} RunsEnd(r: Run, unread: Hello, states: seq<State>, who: seq<Role>, n: nat)
    requires IsRun(r, unread, states, who) && n < |states|
    ensures n + Rank(states[n]) <= MOST_STEPS
  {
    hide Step;
    if n > 0 {
      RunsEnd(r, unread, states, who, n - 1);
      StepDescends(r, who[n - 1], states[n - 1], states[n]);
    }
  }

  /** Main result: over every interleaving and every combination of retry, resumption and
      client certificate, in every reachable state: no party has stopped because it found
      the two at odds; transcripts and secrets agree; the client's Finished is the one the
      server precomputed; and if nobody has stopped and nobody can move, both are done.
   */
  lemma HonestRunsAgree(r: Run, unread: Hello, states: seq<State>, who: seq<Role>, n: nat)
    requires RealCodec(r.env) && HonestParties(r)
    requires IsRun(r, unread, states, who) && n < |states|
    ensures NotAtOdds(states[n].clientError) && NotAtOdds(states[n].serverError)
    ensures Agree(states[n].x.c, states[n].x.s) && FinishedAgrees(r, states[n].x.c, states[n].x.s)
    ensures states[n].clientError.None? && states[n].serverError.None?
            && !ClientCanMove(states[n].x) && !ServerCanMove(states[n].x) ==>
      states[n].x.c.pc == CDone && states[n].x.s.pc == SDone
  {
    hide HonestParties, IsRun, SystemInv, Agree, FinishedAgrees, Honest, RealCodec;
    RealCodecLaws(r);
    RunKeeps(r, unread, states, who, n);
    InvAgrees(r, states[n]);
    if states[n].clientError.None? && states[n].serverError.None?
       && !ClientCanMove(states[n].x) && !ServerCanMove(states[n].x) {
      NeverStuck(r, states[n]);
    }
  }
}
