/** The opening: every step up to the server's flight keeps the invariant. */
module HandshakeOpening {
  import opened Wire
  import opened ClientHello
  import opened ClientHelloRoundTrip
  import opened PskBinders
  import opened KeySchedule
  import opened KeyExchange
  import opened Groups
  import opened Handshake13
  import opened HandshakeInvariant

  /** A bound hello: its binder is a MAC over what its receiver will cut out. */
  lemma BindBinds(r: Run, placeholder: Hello, h: Hello, prefix: Bytes)
    requires HelloLaws(r.env) && r.cc.session.Some?
    requires placeholder.original == None && placeholder.fields[ENCRYPTED_CLIENT_HELLO] == Unset
    requires placeholder.fields[PRE_SHARED_KEY].Psk?
    requires Bind(r.env, r.cc.session.value.hash, r.cc.session.value.secret, placeholder, prefix) == Some(h)
    ensures Bound(r, h, prefix) && h == WithBinders(placeholder, h.PskBinders())
  {
    assert TruncatesAt(r.env, placeholder, h.PskBinders());
  }

  lemma FirstHelloOwn(r: Run, h: Hello)
    requires Honest(r) && FirstHello(r.env, r.cc) == Some(h) && r.env.marshal(h).Some?
    ensures OwnHello(r, h, r.cc.keys) && Bound(r, h, [])
  {
    if r.cc.session.Some? {
      var offer := Offer(r.cc.hello, r.cc.session.value, r.cc.age);
      BindBinds(r, offer, h, []);
      assert h.KeyShares() == r.cc.hello.KeyShares();
    }
  }

  lemma ClientStarts(r: Run, x: System)
    requires Honest(r) && Opening(r, x) && x.c.pc == CStart
    ensures var m := StartClient(r.env, r.cc, x.c);
      if m.Fail? then !m.error.AtOdds? else Opening(r, AfterClient(x, m))
  {
    var m := StartClient(r.env, r.cc, x.c);
    if m.Move? {
      FirstHelloOwn(r, m.party.hello);
      assert FirstRound(r, AfterClient(x, m));
    }
  }

  /** The server has taken a share from the first hello, or asks for another. */
  ghost predicate HeardAs(r: Run, own: Hello, s: Server, m: Move<Server>)
    requires m.Move?
  {
    var wire := Wired(r.env, own);
    && m.took && m.party == s.(pc := m.party.pc, o := m.party.o, transcript := m.party.transcript)
    && r.env.unmarshal(wire) == Some(m.party.o.hello)
    && SuiteHash(m.party.o.suite) == Some(m.party.o.hash) && m.party.o.suite in own.cipherSuites
    && Supported(m.party.o.group)
    && (m.party.pc == SResume ==>
          && m.sent == [] && m.party.transcript == s.transcript
          && m.party.o.share in own.KeyShares() && m.party.o.share.group == m.party.o.group)
    && (m.party.pc != SResume ==>
          && m.party.pc == SRetry && RetryIsNecessary(own, m.party.o.group)
          && var hrr := BytesOf(r.env, ServerHelloMsg(HelloRetryRequest(m.party.o.hello, m.party.o.suite, m.party.o.group)));
          && Encodes(r.env, ServerHelloMsg(HelloRetryRequest(m.party.o.hello, m.party.o.suite, m.party.o.group)))
          && m.sent == [Packet(s.k.write, hrr)]
          && m.party.transcript == MessageHash(r.env.cr, m.party.o.hash, wire) + hrr)
  }

  /** What the server does with the first hello. */
  lemma HelloOutcome(r: Run, own: Hello, s: Server)
    requires Honest(r) && r.env.marshal(own).Some?
    ensures var m := ReadClientHello(r.env, r.sc, s, Wired(r.env, own));
      if m.Fail? then !m.error.AtOdds? else HeardAs(r, own, s, m)
  {
    hide Honest, SelectGroup, MessageHash;
    var wire := r.env.marshal(own).value;
    if r.env.unmarshal(wire).Some? { HearsHello(r, own, wire, r.env.unmarshal(wire).value); }
  }

  lemma HelloPending(r: Run, x: System)
    requires Opening(r, x) && x.s.pc == SHello && x.toS != []
    ensures x.c.pc == CHello && FirstRound(r, x) && x.s.k.read == None && r.env.marshal(x.c.hello).Some?
    ensures x.toS == [Packet(None, Wired(r.env, x.c.hello))] && x.toS[1..] == []
  {
  }

  lemma ServerHears(r: Run, x: System)
    requires Honest(r) && Opening(r, x) && x.s.pc == SHello && x.toS != []
    ensures x.toS[0].key == x.s.k.read
    ensures var m := ReadClientHello(r.env, r.sc, x.s, x.toS[0].bytes);
      if m.Fail? then !m.error.AtOdds? else Opening(r, AfterServer(x, m))
  {
    HelloPending(r, x);
    HelloOutcome(r, x.c.hello, x.s);
    hide Honest, ReadClientHello, Opening, FirstRound, HeardAs, AfterServer;
    var m := ReadClientHello(r.env, r.sc, x.s, x.toS[0].bytes);
    if m.Move? { HelloHeard(r, x, m); }
  }

  lemma HelloHeard(r: Run, x: System, m: Move<Server>)
    requires Opening(r, x) && x.s.pc == SHello && x.c.pc == CHello && m.Move? && HeardAs(r, x.c.hello, x.s, m)
    requires x.toS[1..] == []
    ensures Opening(r, AfterServer(x, m))
  {
    hide OwnHello, Bound, MessageHash, RetryIsNecessary;
    assert FirstRound(r, AfterServer(x, m));
  }

  /** The received hello offers what the client's does. */
  lemma HearsHello(r: Run, own: Hello, wire: Bytes, h: Hello)
    requires Honest(r) && r.env.marshal(own) == Some(wire) && r.env.unmarshal(wire) == Some(h)
    ensures h.cipherSuites == own.cipherSuites && h.sessionId == own.sessionId && h.KeyShares() == own.KeyShares()
    ensures h.NumbersAt(SUPPORTED_CURVES) == own.NumbersAt(SUPPORTED_CURVES)
    ensures var g := SelectGroup(r.sc.groups, h.NumbersAt(SUPPORTED_CURVES), h.KeyShares());
      g.Some? ==> Supported(g.value) && g.value in own.NumbersAt(SUPPORTED_CURVES)
  {
    assert ReceivesAt(r.env, own);
    SelectsBest(r.sc.groups, h.NumbersAt(SUPPORTED_CURVES), h.KeyShares());
  }

  // ---------------------------------------------------------------- the retry

  /** The second hello of an honest client, and the server's view of it. */
  lemma SecondHelloOwn(r: Run, x: System, share: KeyShare, h: Hello, prefix: Bytes)
    requires Honest(r) && OwnHello(r, x.c.hello, x.c.keys)
    requires KeyShares(r.env.kex, x.s.o.group, r.cc.retryKeys).Some?
    requires share == KeyShares(r.env.kex, x.s.o.group, r.cc.retryKeys).value[0]
    requires var hrr := HelloRetryRequest(x.s.o.hello, x.s.o.suite, x.s.o.group);
      SecondHello(r.env, r.cc, x.c.(hash := x.s.o.hash), hrr, prefix, Some(share)) == Some(h)
    requires r.env.marshal(h).Some?
    ensures OwnHello(r, h, r.cc.retryKeys) && Bound(r, h, prefix)
    ensures h == RetryHello(x.c.hello, share, h.fields[PRE_SHARED_KEY])
  {
    var c := x.c.(hash := x.s.o.hash);
    var hrr := HelloRetryRequest(x.s.o.hello, x.s.o.suite, x.s.o.group);
    var plain := Retried(r.cc, c.hello, hrr, c.hash, Some(share));
    assert plain == RetryHello(x.c.hello, share, RetriedPsk(r.cc, c.hello, c.hash));
    if plain.fields[PRE_SHARED_KEY].Psk? {
      BindBinds(r, plain, h, prefix);
    }
    assert h.fields == plain.fields[PRE_SHARED_KEY := h.fields[PRE_SHARED_KEY]];
    SharedSecretsAgree(r.env.kex, x.s.o.group, r.cc.retryKeys);
    assert h.KeyShares() == [share];
  }

  /** An honest retry request reaches the code that answers it, and passes its checks. */
  lemma RetryIsRead(r: Run, x: System)
    requires Honest(r) && Opening(r, x) && x.c.pc == CHello && x.s.pc == SRetry
    ensures var hrr := HelloRetryRequest(x.s.o.hello, x.s.o.suite, x.s.o.group);
      && x.toC == [Packet(None, BytesOf(r.env, ServerHelloMsg(hrr)))] && x.c.k.read == None
      && r.env.marshal(x.c.hello).Some? && RetryOk(x.c.hello, hrr) && Supported(x.s.o.group)
      && ReadServerHello(r.env, r.cc, x.c, x.toC[0].bytes) ==
         Retry(r.env, r.cc, x.c.(suite := Some(x.s.o.suite), hash := x.s.o.hash), hrr, Wired(r.env, x.c.hello), x.toC[0].bytes)
  {
    var hrr := HelloRetryRequest(x.s.o.hello, x.s.o.suite, x.s.o.group);
    assert DecodesAt(r.env, ServerHelloMsg(hrr));
    HearsHello(r, x.c.hello, Wired(r.env, x.c.hello), x.s.o.hello);
    hide Honest, Retry, SelectGroup, OwnHello, Bound, MessageHash, KeyShares;
  }

  lemma ClientRetries(r: Run, x: System)
    requires Honest(r) && Opening(r, x) && x.c.pc == CHello && x.s.pc == SRetry
    ensures x.toC != [] && x.toC[0].key == x.c.k.read
    ensures var m := ReadServerHello(r.env, r.cc, x.c, x.toC[0].bytes);
      if m.Fail? then m.error == Unencodable else Opening(r, AfterClient(x, m))
  {
    RetryIsRead(r, x);
    hide Honest, Opening, ReadServerHello, RetryOk;
    var m := ReadServerHello(r.env, r.cc, x.c, x.toC[0].bytes);
    if m.Move? { RetryAnswered(r, x, m); }
  }

  /** The server's comparison of the two hellos finds nothing wrong. */
  lemma SecondIsLegal(r: Run, h1: Hello, share: KeyShare, h2: Hello)
    requires HelloLaws(r.env) && h2 == RetryHello(h1, share, h2.fields[PRE_SHARED_KEY])
    requires r.env.marshal(h1).Some? && r.env.marshal(h2).Some?
    requires r.env.unmarshal(r.env.marshal(h1).value).Some? && r.env.unmarshal(r.env.marshal(h2).value).Some?
    ensures var g1, g2 := r.env.unmarshal(r.env.marshal(h1).value).value, r.env.unmarshal(r.env.marshal(h2).value).value;
      !IllegalChange(g2, g1) && g2.fields[EARLY_DATA] == Unset
  {
    assert ReceivesAt(r.env, h1) && ReceivesAt(r.env, h2);
    var g1, g2 := r.env.unmarshal(r.env.marshal(h1).value).value, r.env.unmarshal(r.env.marshal(h2).value).value;
    SameElsewhereIsLegal(g2, g1);
  }

  lemma RetryAnswered(r: Run, x: System, m: Move<Client>)
    requires Honest(r) && Opening(r, x) && x.c.pc == CHello && x.s.pc == SRetry
    requires var hrr := HelloRetryRequest(x.s.o.hello, x.s.o.suite, x.s.o.group);
      m == Retry(r.env, r.cc, x.c.(suite := Some(x.s.o.suite), hash := x.s.o.hash), hrr, Wired(r.env, x.c.hello),
                 BytesOf(r.env, ServerHelloMsg(hrr)))
    requires m.Move?
    ensures Opening(r, AfterClient(x, m))
  {
    hide Honest, OwnHello, Bound;
    var share := KeyShares(r.env.kex, x.s.o.group, r.cc.retryKeys).value[0];
    SecondHelloOwn(r, x, share, m.party.hello, x.s.transcript);
    RetryInFlight(r, x, share, m.party);
    assert x.toC[1..] == [] && x.toS + m.sent == m.sent;
  }

  lemma RetryInFlight(r: Run, x: System, share: KeyShare, c: Client)
    requires Honest(r) && Opening(r, x) && x.c.pc == CHello && x.s.pc == SRetry && share.group == x.s.o.group
    requires c.pc == CRetried && c.suite == Some(x.s.o.suite) && c.hash == x.s.o.hash
    requires c.k == NO_KEYS && c.flight == [] && !c.certReq
    requires OwnHello(r, c.hello, c.keys) && Bound(r, c.hello, x.s.transcript)
    requires c.transcript == x.s.transcript + Wired(r.env, c.hello)
    requires c.hello == RetryHello(x.c.hello, share, c.hello.fields[PRE_SHARED_KEY])
    ensures Opening(r, System(c, x.s, [], [Packet(None, Wired(r.env, c.hello))]))
  {
    var wire, y := Wired(r.env, c.hello), System(c, x.s, [], [Packet(None, Wired(r.env, c.hello))]);
    if r.env.unmarshal(wire).Some? { SecondIsLegal(r, x.c.hello, share, c.hello); }
    assert c.hello.KeyShares() == [share];
    assert Awaited(r, y, wire);
    assert SecondRound(r, y);
  }

  lemma ServerHearsAgain(r: Run, x: System)
    requires Honest(r) && Opening(r, x) && x.s.pc == SRetry && x.toS != []
    ensures x.toS[0].key == x.s.k.read
    ensures var m := ReadSecondHello(r.env, x.s, x.toS[0].bytes);
      if m.Fail? then !m.error.AtOdds? else Opening(r, AfterServer(x, m))
  {
    var m := ReadSecondHello(r.env, x.s, x.toS[0].bytes);
    var wire := Wired(r.env, x.c.hello);
    assert x.toS == [Packet(None, wire)] && x.toS[1..] == [];
    if r.env.unmarshal(wire).Some? {
      HearsHello(r, x.c.hello, wire, r.env.unmarshal(wire).value);
      assert SecondRound(r, AfterServer(x, m));
    }
  }

  // ---------------------------------------------------------------- the server's decisions

  /** The server accepts the binder of an honest client's offer. */
  lemma BinderAccepted(r: Run, own: Hello, s: Server)
    requires Honest(r) && own.original == None && own.fields[ENCRYPTED_CLIENT_HELLO] == Unset
    requires r.env.marshal(own).Some? && Bound(r, own, s.transcript)
    requires own.fields[PRE_SHARED_KEY] != Unset ==>
      |own.PskIdentities()| == 1 && own.PskIdentities()[0].ticket == r.cc.session.value.ticket
    requires r.env.unmarshal(r.env.marshal(own).value) == Some(s.o.hello)
    ensures var res := CheckForResumption(r.env, r.sc, s);
      && (res.Fresh? || res.Resumed?)
      && (res.Resumed? ==>
            && res.index == 0 && own.fields[PRE_SHARED_KEY] != Unset
            && res.secret == r.cc.session.value.secret && s.o.hash == r.cc.session.value.hash)
  {
    var wire := r.env.marshal(own).value;
    assert ReceivesAt(r.env, own);
    assert s.o.hello.fields[PRE_SHARED_KEY] == own.fields[PRE_SHARED_KEY];
    if own.fields[PRE_SHARED_KEY] != Unset {
      assert r.env.truncated(s.o.hello) == r.env.truncated(own);
      if |s.o.hello.PskBinders()| == |s.o.hello.PskIdentities()| {
        assert TryIdentities(r.env, r.sc, s, 1) == Fresh;
      }
    }
  }

  lemma SharedAgrees(r: Run, c: Client, s: Server)
    requires AllAnswerable(r.env.kex, c.keys, c.hello.KeyShares())
    requires s.o.share in c.hello.KeyShares() && s.o.share.group == s.o.group
    ensures var answer := ServerShared(r.env.kex, s.o.group, r.sc.keys, s.o.share.data);
      && answer.Some? && answer.value.1.group == s.o.group
      && ClientShared(r.env.kex, s.o.group, c.keys, answer.value.1.data) == Some(answer.value.0)
  {
    var i :| 0 <= i < |c.hello.KeyShares()| && c.hello.KeyShares()[i] == s.o.share;
    assert Answerable(r.env.kex, c.keys, c.hello.KeyShares()[i]);
    assert AnswerAgrees(r.env.kex, c.keys, s.o.share, r.sc.keys);
  }

  /** The server's hello and the client's: what has been heard is what the client sent. */
  lemma Deciding(r: Run, x: System)
    requires Honest(r) && Opening(r, x) && x.s.pc == SResume
    ensures OwnHello(r, x.c.hello, x.c.keys) && Listened(r, x.c, x.s) && Bound(r, x.c.hello, x.s.transcript)
    ensures x.c.pc in {CHello, CRetried}
  {
  }

  lemma Decides(r: Run, c: Client, s: Server)
    requires Honest(r) && OwnHello(r, c.hello, c.keys) && Listened(r, c, s) && Bound(r, c.hello, s.transcript)
    ensures var m := ResumeStep(r.env, r.sc, s);
      && m.Move? && !m.took && m.sent == [] && m.party == s.(pc := SParams, d := m.party.d)
      && Settled(r, c, m.party)
  {
    BinderAccepted(r, c.hello, s);
    SharedAgrees(r, c, s);
    hide Honest, Bound;
  }

  lemma ServerDecides(r: Run, x: System)
    requires Honest(r) && Opening(r, x) && x.s.pc == SResume
    ensures var m := ResumeStep(r.env, r.sc, x.s);
      m.Move? && Opening(r, AfterServer(x, m))
  {
    Deciding(r, x);
    Decides(r, x.c, x.s);
    hide Honest, ResumeStep, OwnHello, Bound, Settled;
    var m := ResumeStep(r.env, r.sc, x.s);
    var y := AfterServer(x, m);
    assert Settled(r, y.c, y.s);
    if x.c.pc == CHello { assert FirstRound(r, y); } else { assert SecondRound(r, y); }
  }

  /** The first two marks of the server's flight. */
  lemma FirstMarks(r: Run, s: Server, m: Move<Server>)
    requires s.k == NO_KEYS && s.flight == [] && s.o.hello.original.Some? && m == SendParameters(r.env, r.sc, s)
    requires m.Move?
    ensures !m.took && m.party.pc == SCert && m.party.o == s.o && m.party.d == s.d
    ensures m.party.base == s.transcript + s.o.hello.original.value
    ensures |m.party.flight| == 2 && m.sent == Packets(m.party.flight)
    ensures m.party.k.hs.Some? && ServerOk(r, TermsOf(r, m.party), m.party)
  {
    var t, f := TermsOf(r, m.party), m.party.flight;
    assert f[0] == Append(r.env, None, t.base, ServerHelloMsg(t.hello));
    assert f[1] == Append(r.env, Some(t.hs.server), f[0].after, EncryptedExtensions(r.sc.extensions));
    assert MarkOk(r, t, f, 0) && MarkOk(r, t, f, 1);
    assert m.sent == Packets(f);
  }

  /** The client, while the server is about to answer. */
  ghost predicate Waiting(r: Run, c: Client, s: Server, base: Bytes) {
    && c.pc in {CHello, CRetried} && c.k == NO_KEYS && c.flight == [] && !c.certReq
    && (c.suite.Some? ==> c.suite.value == s.o.suite)
    && OwnHello(r, c.hello, c.keys) && Listened(r, c, s) && Settled(r, c, s)
    && base == (if c.pc == CRetried then c.transcript else Wired(r.env, c.hello))
  }

  lemma Steady(r: Run, c: Client, s: Server, s': Server, base: Bytes)
    requires Waiting(r, c, s, base) && s'.o == s.o && s'.d == s.d
    ensures Waiting(r, c, s', base)
  {
  }

  lemma BeforeAnswer(r: Run, x: System)
    requires Honest(r) && Opening(r, x) && x.s.pc == SParams
    ensures x.toC == [] && x.toS == [] && x.s.k == NO_KEYS && x.s.flight == []
    ensures x.s.o.hello.original.Some? && Waiting(r, x.c, x.s, x.s.transcript + x.s.o.hello.original.value)
  {
    assert ReceivesAt(r.env, x.c.hello);
    assert x.c.pc == CHello ==> [] + Wired(r.env, x.c.hello) == Wired(r.env, x.c.hello);
  }

  lemma Launches(r: Run, c: Client, s: Server)
    requires s.pc == SCert && |s.flight| == 2 && s.k.hs.Some? && ServerOk(r, TermsOf(r, s), s)
    requires Waiting(r, c, s, s.base)
    ensures Flights(r, System(c, s, Packets(s.flight), []))
  {
    var y := System(c, s, Packets(s.flight), []);
    assert Packets(s.flight)[0..] == Packets(s.flight) && Packets(c.flight)[0..] == [];
    assert ClientOpening(r, TermsOf(r, s), c, s);
  }

  lemma AnswerFails(r: Run, s: Server, m: Move<Server>)
    requires m == SendParameters(r.env, r.sc, s) && m.Fail?
    ensures m.error == Unencodable
  {
    hide DeriveHs;
  }

  lemma ServerAnswers(r: Run, x: System, m: Move<Server>)
    requires x.toC == [] && x.toS == [] && x.s.k == NO_KEYS && x.s.flight == [] && x.s.o.hello.original.Some?
    requires Waiting(r, x.c, x.s, x.s.transcript + x.s.o.hello.original.value)
    requires m == SendParameters(r.env, r.sc, x.s)
    ensures if m.Fail? then !m.error.AtOdds? else Flights(r, AfterServer(x, m))
  {
    hide ServerOk, Waiting, SendParameters, Flights, TermsOf;
    if m.Fail? { AnswerFails(r, x.s, m); } else {
      FirstMarks(r, x.s, m);
      Steady(r, x.c, x.s, m.party, m.party.base);
      Launches(r, x.c, m.party);
      AnswerSent(x, m);
    }
  }

  lemma AnswerSent(x: System, m: Move<Server>)
    requires m.Move? && x.toC == [] && x.toS == [] && m.sent == Packets(m.party.flight)
    ensures AfterServer(x, m) == System(x.c, m.party, Packets(m.party.flight), [])
  {
    assert [] + m.sent == m.sent;
  }
}
