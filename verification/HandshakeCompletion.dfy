/** An honest handshake completes: if the two configurations have something in common, the
    policies agree and every message can be printed, no run of the two parties ever stops
    with an error, so every run carried on for as long as it can be ends with both done.
 */
module HandshakeCompletion {
  import opened Wire
  import opened ClientHello
  import opened ClientHelloRoundTrip
  import opened PskBinders
  import opened KeySchedule
  import opened KeyExchange
  import opened Groups
  import opened Handshake13
  import opened HandshakeInvariant
  import opened HandshakeCodec
  import opened HandshakeAgreement
  import HandshakeOpening
  import HandshakeFlights
  import HandshakeServer
  import S = ServerHelloMsg

  // ---------------------------------------------------------------- the conditions

  const SUITES: set<u16> := {0x1301, 0x1302, 0x1303}

  /** The share of a retry. */
  ghost predicate IsRetryShare(r: Run, share: KeyShare, g: u16) {
    Supported(g) && KeyShares(r.env.kex, g, r.cc.retryKeys).Some? && share == KeyShares(r.env.kex, g, r.cc.retryKeys).value[0]
  }

  /** No offer, or an offer of the session with one binder. */
  predicate IsOffer(r: Run, f: Field) {
    f == Unset ||
    (&& f.Psk? && r.cc.session.Some?
     && |f.identities| == 1 && f.identities[0].ticket == r.cc.session.value.ticket
     && |f.binders| == 1 && |f.binders[0]| == Size(r.cc.session.value.hash))
  }

  /** The hellos that the client may come to send: the configured one, with an offer of its
      session, with the share of a retry in place of its own. */
  ghost predicate FormOf(r: Run, h: Hello) {
    && h == r.cc.hello.(fields := h.fields)
    && (forall k :: 0 <= k < SLOTS && k !in {KEY_SHARE, EARLY_DATA, PRE_SHARED_KEY} ==> h.fields[k] == r.cc.hello.fields[k])
    && (h.fields[KEY_SHARE] == r.cc.hello.fields[KEY_SHARE]
        || exists share, g :: IsRetryShare(r, share, g) && h.fields[KEY_SHARE] == Shares([share]))
    && (h.fields[EARLY_DATA] == Unset || (h.fields[EARLY_DATA] == r.cc.hello.fields[EARLY_DATA] && h.fields[PRE_SHARED_KEY].Psk?))
    && IsOffer(r, h.fields[PRE_SHARED_KEY])
  }

  ghost predicate PrintsForm(r: Run, h: Hello) { FormOf(r, h) ==> r.env.marshal(h).Some? }

  ghost predicate SignaturePrints(r: Run, key: Bytes, x: Bytes) { Encodes(r.env, CertificateVerify(r.env.sign(key, x))) }

  ghost predicate TicketPrints(r: Run, psk: Bytes) { Encodes(r.env, NewSessionTicket([], r.sc.ticketFor(psk))) }

  /** Every message can be printed. */
  ghost predicate Printable(r: Run) {
    && (forall h :: PrintsForm(r, h))
    && |r.sc.random| == 32
    && Encodes(r.env, EncryptedExtensions(r.sc.extensions))
    && Encodes(r.env, CertificateRequest(r.sc.requestBody))
    && Encodes(r.env, Certificate(r.sc.chain, r.sc.certBody))
    && Encodes(r.env, Certificate(r.cc.chain, r.cc.certBody))
    && (forall x :: SignaturePrints(r, r.sc.signKey, x))
    && (forall x :: SignaturePrints(r, r.cc.signKey, x))
    && (forall psk :: TicketPrints(r, psk))
  }

  /** The hello is one for TLS 1.3, in a form that the parser accepts; the configurations
      have a suite and a group in common; and neither policy objects. */
  ghost predicate Compatible(r: Run) {
    && r.cc.hello.NumbersAt(SUPPORTED_VERSIONS) != []
    && r.cc.hello.compressionMethods == [0]
    && r.cc.hello.VectorAt(RENEGOTIATION_INFO) == []
    && (r.cc.hello.fields[EARLY_DATA] != Unset ==> r.sc.isQuic && r.cc.session.Some?)
    && Parseable(r.cc.hello) && (r.cc.session.Some? ==> r.cc.session.value.ticket != [])
    && (exists suite ::
          suite in r.sc.suites(r.cc.hello.cipherSuites) && suite in r.cc.hello.cipherSuites && suite in SUITES)
    && (exists g :: g in r.sc.groups && g in r.cc.hello.NumbersAt(SUPPORTED_CURVES))
    && (forall h :: r.sc.accepts(h)) && r.cc.trusts(r.sc.chain) && r.sc.acceptsCert(r.cc.chain)
  }

  // ---------------------------------------------------------------- the real codecs print

  const MOST := 2000

  /** Rows with bodies of a bounded size. */
  predicate SmallRows(rows: seq<Entry>) {
    forall i :: 0 <= i < |rows| && rows[i].Emit? ==> rows[i].body.Some? && |rows[i].body.value| <= MOST
  }

  lemma {:induction false} SmallRowsPrint(rows: seq<Entry>)
    requires SmallRows(rows)
    ensures Collect(rows).Some? && EncodeItems(EncodeExt, Collect(rows).value).Some?
    ensures |EncodeItems(EncodeExt, Collect(rows).value).value| <= |rows| * (MOST + 4)
  {
    if rows != [] {
      assert SmallRows(rows[1..]) by {
        forall i | 0 <= i < |rows| - 1 ensures rows[1..][i] == rows[i + 1] { }
      }
      SmallRowsPrint(rows[1..]);
      if rows[0].Emit? {
        var e, more := Ext(rows[0].typ, rows[0].body.value), Collect(rows[1..]).value;
        EncodeCons(EncodeExt, e, more);
      }
    }
  }

  /** A ServerHello whose fields have their usual sizes. */
  predicate SmallHello(h: ServerHello) {
    |h.random| == 32 && |h.sessionId| < 256 && |h.share.data| <= MOST - 4 && h.cookie.None?
  }

  lemma SlotBodySmall(h: ServerHello, k: S.Place)
    requires SmallHello(h)
    ensures S.SlotRow(ToMessage(h), k).Emit? ==>
      var body := S.SlotRow(ToMessage(h), k).body;
      body.Some? && |body.value| <= MOST
  {
  }

  lemma HelloPrints(h: ServerHello)
    requires SmallHello(h)
    ensures S.Marshal(ToMessage(h)).Some?
  {
    var m := ToMessage(h);
    var rows := S.SlotRows(m);
    forall k | 0 <= k < |rows| && rows[k].Emit? ensures rows[k].body.Some? && |rows[k].body.value| <= MOST {
      SlotBodySmall(h, k);
    }
    SmallRowsPrint(rows);
  }

  lemma FinishedPrints(v: Bytes)
    requires |v| < Cap(3)
    ensures PrintFinished(v).Some?
  {
  }

  /** The server's share, given that the client could use it. */
  lemma ShareIsSmall(p: Primitives, g: u16, k: PrivateKeys, own: PrivateKeys, data: Bytes)
    requires KeyExchange.Laws(p) && ServerShared(p, g, k, data).Some?
    requires ClientShared(p, g, own, ServerShared(p, g, k, data).value.1.data).Some?
    ensures |ServerShared(p, g, k, data).value.1.data| <= MOST - 4
  {
    if IsCurve(g) { assert EcdhLaw(p, g, k.ecdhe, k.ecdhe); }
  }

  // ---------------------------------------------------------------- what follows for any codec

  /** The hello can be printed, with and without its binders, and is accepted. */
  ghost predicate Passes(env: Env, h: Hello) {
    && env.marshal(h).Some? && env.truncated(h).Some?
    && env.unmarshal(env.marshal(h).value).Some?
  }

  ghost predicate FormPasses(r: Run, h: Hello) { FormOf(r, h) ==> Passes(r.env, h) }

  ghost predicate HelloMsgPrints(r: Run, h: ServerHello) { SmallHello(h) ==> Encodes(r.env, ServerHelloMsg(h)) }

  ghost predicate MacPrints(r: Run, h: Hash, k: Bytes, x: Bytes) { Encodes(r.env, Finished(r.env.cr.mac(h, k, x))) }

  ghost predicate Ready(r: Run) {
    && Compatible(r) && Printable(r)
    && (forall h :: FormPasses(r, h))
    && (forall h :: HelloMsgPrints(r, h))
    && (forall h, k, x :: MacPrints(r, h, k, x))
    && |r.cc.hello.sessionId| < 256
  }

  lemma FormParses(r: Run, h: Hello)
    requires HonestParties(r) && Compatible(r) && FormOf(r, h)
    ensures Parseable(h)
  {
    forall k | 0 <= k < SLOTS && Present(h, false, k) ensures FieldOk(k, h.fields[k]) {
      if k == KEY_SHARE && h.fields[KEY_SHARE] != r.cc.hello.fields[KEY_SHARE] {
        var share, g :| IsRetryShare(r, share, g) && h.fields[KEY_SHARE] == Shares([share]);
        RetryShareOk(r, share, g);
      } else if k == PRE_SHARED_KEY {
      } else if h.fields[k] == r.cc.hello.fields[k] {
        assert Present(r.cc.hello, false, k);
      }
    }
  }

  lemma RetryShareOk(r: Run, share: KeyShare, g: u16)
    requires HonestParties(r) && IsRetryShare(r, share, g)
    ensures ShareOk(share)
  {
    if IsCurve(g) { assert EcdhLaw(r.env.kex, g, r.cc.retryKeys.ecdhe, r.cc.retryKeys.ecdhe); }
    else { assert KemLaw(r.env.kex, g, r.cc.retryKeys.mlkem, []); }
  }

  lemma RealFormPasses(r: Run, h: Hello)
    requires RealCodec(r.env) && HonestParties(r) && Compatible(r) && Printable(r) && FormOf(r, h)
    ensures Passes(r.env, h) && |h.sessionId| < 256
  {
    FormParses(r, h);
    hide HonestParties, Compatible, Parseable, Unmarshal;
    assert PrintsForm(r, h) && RealAt(r.env, h);
    var wire := Marshal(h, false).value;
    assert ParsesAt(r.env, wire);
    RoundTrip(h);
    PrintsTruncated(r, h);
    PrintsSession(h);
  }

  lemma PrintsTruncated(r: Run, h: Hello)
    requires HonestParties(r) && FormOf(r, h) && Marshal(h, false).Some?
    ensures Truncated(h).Some?
  {
    hide Marshal;
    if h.fields[PRE_SHARED_KEY] != Unset { TruncatedIsPrefix(h); }
  }

  lemma PrintsSession(h: Hello)
    requires Marshal(h, false).Some?
    ensures |h.sessionId| < 256
  {
    hide AllExts;
  }

  /** With the modelled codecs the conditions are all that is needed. */
  lemma RealReady(r: Run)
    requires RealCodec(r.env) && HonestParties(r) && Compatible(r) && Printable(r)
    ensures Ready(r)
  {
    hide HonestParties, Compatible, Printable, FormOf, Passes, SmallHello, RealCodec, Encodes;
    forall h ensures FormPasses(r, h) { if FormOf(r, h) { RealFormPasses(r, h); } }
    forall h ensures HelloMsgPrints(r, h) { RealHelloPrints(r, h); }
    forall h, k, x ensures MacPrints(r, h, k, x) { RealMacPrints(r, h, k, x); }
    PlainForm(r);
    RealFormPasses(r, r.cc.hello.(fields := r.cc.hello.fields[EARLY_DATA := Unset]));
  }

  lemma PlainForm(r: Run)
    requires HonestParties(r)
    ensures FormOf(r, r.cc.hello.(fields := r.cc.hello.fields[EARLY_DATA := Unset]))
  {
  }

  lemma RealHelloPrints(r: Run, h: ServerHello)
    requires RealCodec(r.env)
    ensures HelloMsgPrints(r, h)
  {
    hide SmallHello, ToMessage;
    if SmallHello(h) { HelloPrints(h); }
    assert PrintsAt(r.env, h);
  }

  lemma RealMacPrints(r: Run, h: Hash, k: Bytes, x: Bytes)
    requires RealCodec(r.env) && HonestParties(r)
    ensures MacPrints(r, h, k, x)
  {
    hide PrintFinished;
    assert MacSizeAt(r.env.cr, h, k, x) && PrintsFinishedAt(r.env, r.env.cr.mac(h, k, x));
    FinishedPrints(r.env.cr.mac(h, k, x));
  }

  // ---------------------------------------------------------------- the client's hellos

  /** Binding keeps the form. */
  lemma BindsForm(r: Run, h: Hello, prefix: Bytes)
    requires HonestParties(r) && Ready(r) && FormOf(r, h) && h.fields[PRE_SHARED_KEY].Psk?
    ensures var b := Bind(r.env, r.cc.session.value.hash, r.cc.session.value.secret, h, prefix);
      b.Some? && FormOf(r, b.value)
  {
    assert FormPasses(r, h);
    var s, t := r.cc.session.value, r.env.truncated(h).value;
    var key := BinderKey(r.env.cr, s.hash, EarlySecret(r.env.cr, s.hash, Some(s.secret)));
    hide Ready, HelloLaws, KeyExchange.Laws, BinderKey, EarlySecret, ExpandLabel;
    assert MacSizeAt(r.env.cr, s.hash, ExpandLabel(r.env.cr, s.hash, key, FinishedKey, []), r.env.cr.digest(s.hash, prefix + t));
    var binders := [BinderOf(r.env.cr, s.hash, s.secret, prefix + t)];
    assert SameLengths(binders, h.PskBinders());
    Rebound(r, h, binders);
  }

  lemma Rebound(r: Run, h: Hello, binders: seq<Bytes>)
    requires FormOf(r, h) && h.fields[PRE_SHARED_KEY].Psk? && SameLengths(binders, h.PskBinders())
    ensures FormOf(r, WithBinders(h, binders))
  {
  }

  lemma OwnForms(r: Run)
    requires HonestParties(r) && Ready(r)
    ensures r.cc.session.None? ==> FormOf(r, r.cc.hello)
    ensures r.cc.session.Some? ==> FormOf(r, Offer(r.cc.hello, r.cc.session.value, r.cc.age))
  {
  }

  lemma StartsWell(r: Run, c: Client)
    requires HonestParties(r) && Ready(r)
    ensures var m := StartClient(r.env, r.cc, c); m.Move? && FormOf(r, m.party.hello)
  {
    OwnForms(r);
    hide HonestParties, Ready, FormOf, Bind;
    if r.cc.session.None? {
      ReadyForm(r, r.cc.hello);
    } else {
      var offer := Offer(r.cc.hello, r.cc.session.value, r.cc.age);
      BindsForm(r, offer, []);
      ReadyForm(r, FirstHello(r.env, r.cc).value);
    }
  }

  /** The hello that answers a retry request is one of the forms. */
  lemma SecondForm(r: Run, c: Client, sh: ServerHello, prefix: Bytes)
    requires HonestParties(r) && Ready(r) && FormOf(r, c.hello)
    requires sh.cookie.None? && Supported(sh.selectedGroup)
    ensures KeyShares(r.env.kex, sh.selectedGroup, r.cc.retryKeys).Some?
    ensures var share := Some(KeyShares(r.env.kex, sh.selectedGroup, r.cc.retryKeys).value[0]);
      var h := SecondHello(r.env, r.cc, c, sh, prefix, share);
      h.Some? && FormOf(r, h.value) && Passes(r.env, h.value)
  {
    var share := KeyShares(r.env.kex, sh.selectedGroup, r.cc.retryKeys).value[0];
    assert IsRetryShare(r, share, sh.selectedGroup);
    var h := Retried(r.cc, c.hello, sh, c.hash, Some(share));
    RetriedForm(r, c, sh, share);
    hide Ready, HonestParties;
    if h.fields[PRE_SHARED_KEY].Psk? { BindsForm(r, h, prefix); }
    assert FormPasses(r, SecondHello(r.env, r.cc, c, sh, prefix, Some(share)).value) by { ReadyForm(r, SecondHello(r.env, r.cc, c, sh, prefix, Some(share)).value); }
  }

  lemma ReadyForm(r: Run, h: Hello)
    requires Ready(r)
    ensures FormPasses(r, h)
  {
  }

  lemma RetriedForm(r: Run, c: Client, sh: ServerHello, share: KeyShare)
    requires FormOf(r, c.hello) && sh.cookie.None? && IsRetryShare(r, share, sh.selectedGroup)
    ensures var h := Retried(r.cc, c.hello, sh, c.hash, Some(share));
      FormOf(r, h) && (h.fields[PRE_SHARED_KEY].Psk? ==> r.cc.session.Some? && r.cc.session.value.hash == c.hash)
  {
    var h := Retried(r.cc, c.hello, sh, c.hash, Some(share));
    assert IsRetryShare(r, share, sh.selectedGroup) && h.fields[KEY_SHARE] == Shares([share]);
  }

  // ---------------------------------------------------------------- no step fails

  /** What a run keeps beside its invariant. */
  ghost predicate Going(r: Run, x: System) {
    && (x.c.pc in {CHello, CRetried} && x.s.pc in {SHello, SRetry, SResume, SParams} ==> FormOf(r, x.c.hello))
    && (x.s.pc == SParams ==> |x.s.d.share.data| <= MOST - 4)
  }

  /** The received hello is as the sent one. */
  lemma Heard(r: Run, own: Hello, h: Hello)
    requires HelloLaws(r.env) && HonestParties(r) && FormOf(r, own) && r.env.marshal(own).Some?
    requires r.env.unmarshal(r.env.marshal(own).value) == Some(h)
    ensures h.sessionId == own.sessionId == r.cc.hello.sessionId && h.cipherSuites == r.cc.hello.cipherSuites
    ensures h.compressionMethods == r.cc.hello.compressionMethods && h.original.Some?
    ensures forall k :: 0 <= k < SLOTS ==> h.fields[k] == own.fields[k]
  {
    assert ReceivesAt(r.env, own);
    hide ReceivesAt, HelloLaws, HonestParties;
    assert own.fields[ENCRYPTED_CLIENT_HELLO] == r.cc.hello.fields[ENCRYPTED_CLIENT_HELLO];
  }

  lemma AcceptsHello(r: Run, own: Hello, h: Hello)
    requires Compatible(r) && FormOf(r, own)
    requires h.compressionMethods == r.cc.hello.compressionMethods && forall k :: 0 <= k < SLOTS ==> h.fields[k] == own.fields[k]
    ensures FirstHelloOk(r.sc, h) && h.NumbersAt(SUPPORTED_CURVES) == r.cc.hello.NumbersAt(SUPPORTED_CURVES)
  {
  }

  lemma FindsSuite(r: Run, h: Hello)
    requires Compatible(r) && h.cipherSuites == r.cc.hello.cipherSuites
    ensures SelectSuite(r.sc.suites(h.cipherSuites), h.cipherSuites).Some?
  {
    var prefs := r.sc.suites(h.cipherSuites);
    var i := SuiteIsFirst(prefs, h.cipherSuites);
    var suite :| suite in prefs && suite in h.cipherSuites && suite in SUITES;
    var j :| 0 <= j < |prefs| && prefs[j] == suite;
    assert SuiteOk(h.cipherSuites, prefs[j]);
  }

  lemma FindsGroup(r: Run, h: Hello)
    requires Compatible(r) && h.NumbersAt(SUPPORTED_CURVES) == r.cc.hello.NumbersAt(SUPPORTED_CURVES)
    ensures SelectGroup(r.sc.groups, h.NumbersAt(SUPPORTED_CURVES), h.KeyShares()).Some?
  {
    SelectsBest(r.sc.groups, h.NumbersAt(SUPPORTED_CURVES), h.KeyShares());
  }

  lemma HearsWell(r: Run, own: Hello, s: Server)
    requires Honest(r) && Ready(r) && FormOf(r, own) && Passes(r.env, own)
    ensures ReadClientHello(r.env, r.sc, s, r.env.marshal(own).value).Move?
  {
    hide Honest, HelloLaws, HonestParties, Compatible, Printable, SelectSuite, SelectGroup, FirstHelloOk, FormOf, MessageHash, FindShare;
    var h := r.env.unmarshal(r.env.marshal(own).value).value;
    HonestHas(r);
    Heard(r, own, h);
    AcceptsHello(r, own, h);
    FindsSuite(r, h);
    FindsGroup(r, h);
    var suite := SelectSuite(r.sc.suites(h.cipherSuites), h.cipherSuites).value;
    var g := SelectGroup(r.sc.groups, h.NumbersAt(SUPPORTED_CURVES), h.KeyShares()).value;
    assert HelloMsgPrints(r, HelloRetryRequest(h, suite, g));
    assert SmallHello(HelloRetryRequest(h, suite, g));
  }

  lemma HonestHas(r: Run)
    requires Honest(r)
    ensures HelloLaws(r.env) && HonestParties(r)
  {
  }

  lemma ParametersPrint(r: Run, x: System)
    requires Honest(r) && Ready(r) && Opening(r, x) && x.s.pc == SParams && Going(r, x)
    ensures SendParameters(r.env, r.sc, x.s).Move?
  {
    assert |r.sc.random| == 32 && Encodes(r.env, EncryptedExtensions(r.sc.extensions));
    hide Opening, Honest, HelloLaws, HonestParties, Compatible, Printable, DeriveHs, FormOf, Settled, OwnHello;
    Listening(r, x);
    assert FormPasses(r, x.c.hello);
    HonestHas(r);
    Heard(r, x.c.hello, x.s.o.hello);
    assert HelloMsgPrints(r, HelloOf(r.sc, x.s));
    assert SmallHello(HelloOf(r.sc, x.s));
  }

  lemma ServerOpens(r: Run, x: System)
    requires Honest(r) && Ready(r) && Opening(r, x) && Going(r, x) && ServerCanMove(x)
    ensures var m := ServerStep(r.env, r.sc, x.s, x.toS);
      m.Move? && Going(r, AfterServer(x, m))
  {
    assert x.s.pc in {SHello, SRetry, SResume, SParams};
    if x.s.pc == SResume {
      ServerDecidesWell(r, x);
    } else if x.s.pc == SParams {
      hide Honest, Ready, Opening, SendParameters;
      ParametersPrint(r, x);
      NextIs(r, x);
    } else {
      hide Honest, Ready, Going, Passes, ReadClientHello, ReadSecondHello;
      ServerListens(r, x);
      NextIs(r, x);
    }
  }

  /** A step that is not the decision leaves `Going` as it is. */
  lemma NextIs(r: Run, x: System)
    requires ServerReads(x.s.pc) ==> x.toS != []
    requires Going(r, x) && x.s.pc != SResume
    ensures var m := ServerStep(r.env, r.sc, x.s, x.toS);
      m.Move? ==> Going(r, AfterServer(x, m))
  {
    hide FormOf, FirstHelloOk, SelectSuite, SelectGroup, FindShare, IllegalChange, MessageHash, DeriveHs, DeriveAp, DeriveEnd,
      TicketPsk, FinishedHash, SignedMessage;
  }

  lemma ServerDecidesWell(r: Run, x: System)
    requires Honest(r) && Opening(r, x) && Going(r, x) && x.s.pc == SResume
    ensures var m := ServerStep(r.env, r.sc, x.s, x.toS);
      m.Move? && Going(r, AfterServer(x, m))
  {
    hide Opening, Honest, CheckForResumption, FormOf, Answerable, ServerShared, ClientShared, KeyExchange.Laws;
    Listening(r, x);
    HandshakeOpening.ServerDecides(r, x);
    HandshakeOpening.SharedAgrees(r, x.c, x.s);
    HonestHas(r);
    ShareIsSmall(r.env.kex, x.s.o.group, r.sc.keys, x.c.keys, x.s.o.share.data);
    NextIsDecision(r, x);
  }

  lemma NextIsDecision(r: Run, x: System)
    requires Going(r, x) && x.s.pc == SResume
    requires var a := ServerShared(r.env.kex, x.s.o.group, r.sc.keys, x.s.o.share.data);
      a.Some? && |a.value.1.data| <= MOST - 4
    ensures var m := ServerStep(r.env, r.sc, x.s, x.toS);
      m == ResumeStep(r.env, r.sc, x.s) && (m.Move? ==> Going(r, AfterServer(x, m)))
  {
    hide CheckForResumption, FormOf, ServerShared;
  }

  lemma ToServer(r: Run, x: System)
    requires Opening(r, x) && x.s.pc in {SHello, SRetry} && x.toS != []
    ensures x.toS == [Packet(None, Wired(r.env, x.c.hello))] && x.c.pc in {CHello, CRetried}
  {
    hide OwnHello, Bound, Listened, Settled, RetrySent, Awaited;
  }

  lemma Listening(r: Run, x: System)
    requires Opening(r, x) && x.s.pc in {SResume, SParams}
    ensures x.c.pc in {CHello, CRetried} && Listened(r, x.c, x.s) && OwnHello(r, x.c.hello, x.c.keys)
  {
    hide OwnHello, Bound, Listened, Settled, RetrySent, Awaited;
  }

  lemma ServerListens(r: Run, x: System)
    requires Honest(r) && Ready(r) && Opening(r, x) && Going(r, x) && x.s.pc in {SHello, SRetry} && x.toS != []
    ensures ServerStep(r.env, r.sc, x.s, x.toS).Move?
  {
    hide Opening, Honest, ReadClientHello, Ready, FormOf;
    ToServer(r, x);
    ReadyForm(r, x.c.hello);
    if x.s.pc == SHello {
      HandshakeOpening.ServerHears(r, x);
      HearsWell(r, x.c.hello, x.s);
    } else {
      HandshakeOpening.ServerHearsAgain(r, x);
    }
  }

  lemma ClientOpens(r: Run, x: System)
    requires Honest(r) && Ready(r) && Opening(r, x) && Going(r, x) && ClientCanMove(x)
    ensures var m := ClientStep(r.env, r.cc, x.c, x.toC);
      m.Move? && Going(r, AfterClient(x, m))
  {
    hide Opening, Ready, Honest, StartClient, ReadServerHello, FormOf;
    OpeningTurns(r, x);
    if x.c.pc == CStart {
      HonestHas(r);
      StartsWell(r, x.c);
    } else {
      ClientRetriesWell(r, x);
    }
  }

  lemma RetryMoves(r: Run, c: Client, sh: ServerHello, wire: Bytes, hrr: Bytes)
    requires HonestParties(r) && Ready(r) && FormOf(r, c.hello)
    requires sh.cookie.None? && Supported(sh.selectedGroup) && RetryOk(c.hello, sh)
    ensures var m := Retry(r.env, r.cc, c, sh, wire, hrr); m.Move? && FormOf(r, m.party.hello)
  {
    hide Ready, HonestParties, FormOf, SecondHello, MessageHash, RetryOk;
    SecondForm(r, c, sh, MessageHash(r.env.cr, c.hash, wire) + hrr);
  }

  lemma ClientRetriesWell(r: Run, x: System)
    requires Honest(r) && Ready(r) && Opening(r, x) && Going(r, x) && x.c.pc == CHello && x.s.pc == SRetry
    ensures x.toC != [] && x.toC[0].key == x.c.k.read
    ensures var m := ReadServerHello(r.env, r.cc, x.c, x.toC[0].bytes);
      m.Move? && FormOf(r, m.party.hello)
  {
    hide Opening, Honest, Ready, FormOf, Retry, RetryOk, ReadServerHello;
    HandshakeOpening.RetryIsRead(r, x);
    HonestHas(r);
    RetryMoves(r, x.c.(suite := Some(x.s.o.suite), hash := x.s.o.hash),
               HelloRetryRequest(x.s.o.hello, x.s.o.suite, x.s.o.group), Wired(r.env, x.c.hello), x.toC[0].bytes);
  }

  lemma FlightsGoing(r: Run, x: System)
    requires Flights(r, x)
    ensures Going(r, x) && x.c.pc != CStart && x.s.pc !in {SHello, SRetry, SResume, SParams}
  {
    NeverStart(r, x);
    hide Flights;
  }

  // What the parties send can be printed, so that no step fails but for missing keys.

  lemma MacPrinted(r: Run, h: Hash, base: Bytes, t: Bytes)
    requires Ready(r)
    ensures Encodes(r.env, Finished(FinishedHash(r.env.cr, h, base, t)))
  {
    hide Compatible, Printable, ExpandLabel;
    assert MacPrints(r, h, ExpandLabel(r.env.cr, h, base, FinishedKey, []), r.env.cr.digest(h, t));
  }

  lemma ClientSendsWell(r: Run, c: Client)
    requires Ready(r)
    ensures SendCertificate(r.env, r.cc, c).Move?
    ensures SendFinished(r.env, r.cc, c).Fail? ==> SendFinished(r.env, r.cc, c).error.AtOdds?
  {
    forall x ensures Encodes(r.env, CertificateVerify(r.env.sign(r.cc.signKey, x))) { assert SignaturePrints(r, r.cc.signKey, x); }
    forall h, base, t ensures Encodes(r.env, Finished(FinishedHash(r.env.cr, h, base, t))) { MacPrinted(r, h, base, t); }
    assert Encodes(r.env, Certificate(r.cc.chain, r.cc.certBody));
    hide Ready, FinishedHash, SignedMessage, DeriveEnd, Encodes;
  }

  lemma ServerSendsWell(r: Run, s: Server)
    requires Ready(r)
    ensures SendServerCertificate(r.env, r.sc, s).Move?
    ensures SendTickets(r.env, r.sc, s).Fail? ==> SendTickets(r.env, r.sc, s).error.AtOdds?
  {
    forall x ensures Encodes(r.env, CertificateVerify(r.env.sign(r.sc.signKey, x))) { assert SignaturePrints(r, r.sc.signKey, x); }
    forall psk ensures Encodes(r.env, NewSessionTicket([], r.sc.ticketFor(psk))) { assert TicketPrints(r, psk); }
    forall h, base, t ensures Encodes(r.env, Finished(FinishedHash(r.env.cr, h, base, t))) { MacPrinted(r, h, base, t); }
    assert Encodes(r.env, Certificate(r.sc.chain, r.sc.certBody)) && Encodes(r.env, CertificateRequest(r.sc.requestBody));
    hide Ready, FinishedHash, SignedMessage, DeriveEnd, TicketPsk, Encodes;
  }

  lemma ServerFinishesWell(r: Run, s: Server)
    requires Ready(r)
    ensures SendServerFinished(r.env, r.sc, s).Fail? ==> SendServerFinished(r.env, r.sc, s).error.AtOdds?
  {
    hide Ready, FinishedHash, DeriveAp, SendTickets, Encodes;
    if s.k.write.Some? && s.k.hs.Some? {
      var fin := Append(r.env, s.k.write, s.transcript,
                        Finished(FinishedHash(r.env.cr, s.o.hash, s.k.write.value, s.transcript)));
      var ap := DeriveAp(r.env.cr, s.o.hash, s.k.hs.value.master, fin.after);
      MacPrinted(r, s.o.hash, s.k.write.value, s.transcript);
      ServerSendsWell(r, s.(pc := SWaitCert, transcript := fin.after, flight := s.flight + [fin],
                            k := s.k.(ap := Some(ap), write := Some(ap.server))));
    }
  }

  lemma ClientFlies(r: Run, x: System)
    requires Honest(r) && Ready(r) && Flights(r, x) && ClientCanMove(x)
    ensures var m := ClientStep(r.env, r.cc, x.c, x.toC);
      m.Move? && Flights(r, AfterClient(x, m))
  {
    assert r.cc.trusts(r.sc.chain);
    FlightsGoing(r, x);
    hide Flights, Honest, Ready, StartClient, ReadServerHello, ReadFlight, SendCertificate, SendFinished;
    if x.c.pc in {CSendCert, CSendFinished} {
      HandshakeFlights.ClientSends(r, x);
      ClientSendsWell(r, x.c);
    } else if x.c.pc in {CHello, CRetried} {
      HandshakeFlights.ClientReadsHello(r, x);
    } else {
      HandshakeFlights.ClientReadsFlight(r, x);
    }
  }

  lemma NotExcused(r: Run, e: Error)
    requires Ready(r)
    ensures !HandshakeServer.ServerExcused(r, e)
  {
    assert r.sc.acceptsCert(r.cc.chain);
    forall s: Server ensures SendTickets(r.env, r.sc, s) != Fail(Unencodable) { ServerSendsWell(r, s); }
    hide Ready, SendTickets;
  }

  lemma ServerFlies(r: Run, x: System)
    requires Honest(r) && Ready(r) && Flights(r, x) && ServerCanMove(x)
    ensures var m := ServerStep(r.env, r.sc, x.s, x.toS);
      m.Move? && Flights(r, AfterServer(x, m))
  {
    FlightsGoing(r, x);
    hide Flights, Honest, Ready, ReadClientFlight, SendServerCertificate, SendServerFinished, HandshakeServer.ServerExcused;
    if x.s.pc == SCert {
      HandshakeServer.ServerCertifies(r, x);
      ServerSendsWell(r, x.s);
    } else if x.s.pc == SFinish {
      HandshakeServer.ServerFinishes(r, x);
      ServerFinishesWell(r, x.s);
    } else {
      HandshakeServer.ServerReadsFlight(r, x);
      var m := ReadClientFlight(r.env, r.sc, x.s, x.toS[0].bytes);
      if m.Fail? { NotExcused(r, m.error); }
    }
  }

  lemma StepsOn(r: Run, who: Role, a: State, b: State)
    requires Honest(r) && Ready(r) && SystemInv(r, a.x) && Going(r, a.x) && Step(r.env, r.cc, r.sc, who, a, b)
    ensures b.clientError == a.clientError && b.serverError == a.serverError && Going(r, b.x)
  {
    if Opening(r, a.x) {
      hide Opening, Flights, Honest, Ready, Going, ClientStep, ServerStep;
      if who == ClientRole { ClientOpens(r, a.x); } else { ServerOpens(r, a.x); }
    } else {
      hide Opening, Flights, Honest, Ready, Going, ClientStep, ServerStep;
      if who == ClientRole { ClientFlies(r, a.x); } else { ServerFlies(r, a.x); }
      FlightsGoing(r, b.x);
    }
  }

  // ---------------------------------------------------------------- main results

  lemma {:induction false} RunsOn(r: Run, unread: Hello, states: seq<State>, who: seq<Role>, n: nat)
    requires Honest(r) && Ready(r) && IsRun(r, unread, states, who) && n < |states|
    ensures Inv(r, states[n]) && Going(r, states[n].x)
    ensures states[n].clientError.None? && states[n].serverError.None?
  {
    hide Honest, Ready, Step, SystemInv, Opening, Flights;
    RunKeeps(r, unread, states, who, n);
    if n > 0 {
      RunsOn(r, unread, states, who, n - 1);
      StepsOn(r, who[n - 1], states[n - 1], states[n]);
    }
  }

  lemma DoneIsKeyed(r: Run, x: System)
    requires Flights(r, x) && x.c.pc == CDone && x.s.pc == SDone
    ensures x.c.k.ap.Some?
    ensures x.c.k.read == Some(x.c.k.ap.value.server) && x.c.k.write == Some(x.c.k.ap.value.client)
    ensures x.s.k.ap.Some? && x.s.k.read == Some(x.s.k.ap.value.client) && x.s.k.write == Some(x.s.k.ap.value.server)
  {
    hide ServerOk, ClientOk, ServerReading, Flights;
    HandshakeServer.UpFacts(r, x);
    var t := TermsOf(r, x.s);
    ClientKeyed(r, t, x.c, x.s, |x.s.flight| - |x.toC|);
    ServerKeyed(r, t, x.s);
  }

  lemma ClientKeyed(r: Run, t: Terms, c: Client, s: Server, g: nat)
    requires ClientOk(r, t, c, s, g) && c.pc == CDone
    ensures c.k.ap.Some? && c.k.read == Some(c.k.ap.value.server) && c.k.write == Some(c.k.ap.value.client)
  {
    hide OwnHello, Listened, Settled, UpOk, DeriveAp, DeriveEnd, TicketPsk;
  }

  lemma ServerKeyed(r: Run, t: Terms, s: Server)
    requires ServerOk(r, t, s) && s.pc == SDone
    ensures s.k.ap.Some? && s.k.read == Some(s.k.ap.value.client) && s.k.write == Some(s.k.ap.value.server)
  {
    hide DownOk, DeriveHs, DeriveAp;
  }

  lemma DoneIsFlights(r: Run, x: System)
    requires SystemInv(r, x) && x.c.pc == CDone
    ensures Flights(r, x)
  {
    hide Flights, FirstRound, SecondRound, Quiet, Settled;
  }

  /** Main result: in every interleaving, with or without retry, resumption and client
      certificate, two compatible parties that can print what they send never stop with an
      error.  Within 154 steps a run is at its end, both parties being done; each then
      writes under the key that the other reads under.
   */
  lemma HonestRunsComplete(r: Run, unread: Hello, states: seq<State>, who: seq<Role>)
    requires RealCodec(r.env) && HonestParties(r) && Compatible(r) && Printable(r)
    requires IsRun(r, unread, states, who)
    ensures |who| <= MOST_STEPS
    ensures forall n :: 0 <= n < |states| ==> states[n].clientError.None? && states[n].serverError.None?
    ensures var x := states[|who|].x;
      || ClientCanMove(x) || ServerCanMove(x)
      || (x.c.pc == CDone && x.s.pc == SDone
          && x.c.k.ap.Some? && x.c.k.ap == x.s.k.ap
          && x.c.k.write.Some? && x.c.k.write == x.s.k.read && x.s.k.write.Some? && x.s.k.write == x.c.k.read)
  {
    hide HonestParties, Compatible, Printable, IsRun, Ready, Honest, SystemInv, RealCodec, Rank, Flights;
    RealReady(r);
    RealCodecLaws(r);
    forall n | 0 <= n < |states| ensures states[n].clientError.None? && states[n].serverError.None? {
      RunsOn(r, unread, states, who, n);
    }
    var last := |states| - 1;
    assert |who| == last by { LastOf(r, unread, states, who); }
    RunsEnd(r, unread, states, who, last);
    RunsOn(r, unread, states, who, last);
    if !ClientCanMove(states[last].x) && !ServerCanMove(states[last].x) {
      NeverStuck(r, states[last]);
      DoneIsFlights(r, states[last].x);
      DoneIsKeyed(r, states[last].x);
      InvAgrees(r, states[last]);
    }
  }

  lemma LastOf(r: Run, unread: Hello, states: seq<State>, who: seq<Role>)
    requires IsRun(r, unread, states, who)
    ensures |who| == |states| - 1
  {
  }
}
