/** The codecs of the handshake messages, put in place of the abstract ones of the step
    system: ClientHello, ServerHello (which is also HelloRetryRequest) and Finished, with
    the checks on a ServerHello that look at nothing but the message.
 */
module HandshakeCodec {
  import opened Wire
  import opened ClientHello
  import opened ClientHelloRoundTrip
  import opened PskBinders
  import opened Groups
  import opened Handshake13
  import opened HandshakeInvariant
  import S = ServerHelloMsg

  const VERSION_TLS12: u16 := 0x0303
  const VERSION_TLS13: u16 := 0x0304
  const TYPE_FINISHED: byte := 20

  // ---------------------------------------------------------------- ServerHello

  /** The fields the server fills in; the others stay at their zero values. */
  function SlotOf(h: ServerHello, k: S.Place): (c: S.Content)
    ensures S.Suits(k, c)
  {
    if k == S.VERSION then S.Num(VERSION_TLS13)
    else if k == S.SHARE then S.Share(h.share)
    else if k == S.IDENTITY && h.identity.Some? then S.Num(h.identity.value)
    else if k == S.RETRY_COOKIE && h.cookie.Some? then S.AsVec(h.cookie.value)
    else if k == S.GROUP then S.AsNum(h.selectedGroup)
    else S.Absent
  }

  function ToMessage(h: ServerHello): S.Message {
    S.Message(None, VERSION_TLS12, h.random, h.sessionId, h.suite, 0,
              seq(S.COUNT, k requires 0 <= k < S.COUNT => SlotOf(h, k)))
  }

  /** The extensions that TLS 1.3 forbids in a ServerHello. */
  predicate Forbidden(k: S.Place) {
    k in {S.STATUS, S.TICKET, S.RENEGOTIATION, S.MASTER_SECRET, S.PROTOCOL, S.TIMESTAMPS}
  }

  /** What the client checks of a ServerHello by itself; having offered no Encrypted Client
      Hello, it also refuses a retry request that carries one, even an empty one. */
  predicate Acceptable(m: S.Message) {
    && m.slots[S.VERSION] == S.Num(VERSION_TLS13) && m.vers == VERSION_TLS12 && m.compression == 0
    && (forall k: S.Place :: Forbidden(k) ==> m.slots[k] == S.Absent)
    && (m.random == HRR_RANDOM ==> m.slots[S.ECH] == S.Absent)
  }

  function FromMessage(m: S.Message): ServerHello {
    ServerHello(
      m.random, m.sessionId, m.cipherSuite,
      if m.slots[S.GROUP].Num? then m.slots[S.GROUP].n else 0,
      if m.slots[S.SHARE].Share? then m.slots[S.SHARE].share else NO_SHARE,
      if m.slots[S.IDENTITY].Num? then Some(m.slots[S.IDENTITY].n) else None,
      if m.slots[S.RETRY_COOKIE].Vec? then Some(m.slots[S.RETRY_COOKIE].bytes) else None)
  }

  function DecodeHello(wire: Bytes): Option<Msg> {
    var m :- S.Unmarshal(wire);
    if Acceptable(m) then Some(ServerHelloMsg(FromMessage(m))) else None
  }

  /** What an honest server prints is read back, and passes the checks. */
  lemma HelloBack(h: ServerHello)
    requires SoundHello(h) && S.Marshal(ToMessage(h)).Some?
    ensures DecodeHello(S.Marshal(ToMessage(h)).value) == Some(ServerHelloMsg(h))
  {
    hide S.Marshal, S.Unmarshal;
    var m := ToMessage(h);
    var wire := S.Marshal(m).value;
    S.ServerHelloRoundTrip(m);
    var got := S.Canonical(m, wire);
    assert m.slots[S.SHARE] == S.Share(h.share) && m.slots[S.GROUP] == S.AsNum(h.selectedGroup);
    assert !S.BothShares(m) && S.AllContentOk(m, 0);
    assert forall k: S.Place :: got.slots[k] == if S.Sends(k, m.slots[k]) then m.slots[k] else S.Absent;
    assert m.slots[S.VERSION] == S.Num(VERSION_TLS13);
    assert FromMessage(got) == h;
  }

  // ---------------------------------------------------------------- Finished

  function PrintFinished(verifyData: Bytes): Build { Cat(Some([TYPE_FINISHED]), Lp(3, Some(verifyData))) }

  function DecodeFinished(wire: Bytes): Option<Msg> {
    if wire == [] then None
    else
      var v :- Whole(ReadLp(3, wire[1..]));
      Some(Finished(v))
  }

  lemma FinishedBack(verifyData: Bytes)
    requires PrintFinished(verifyData).Some?
    ensures DecodeFinished(PrintFinished(verifyData).value) == Some(Finished(verifyData))
  {
    WholeLp(3, verifyData);
    assert PrintFinished(verifyData).value[1..] == Lp(3, Some(verifyData)).value;
  }

  // ---------------------------------------------------------------- the real codecs

  ghost predicate RealAt(env: Env, h: Hello) {
    env.marshal(h) == Marshal(h, false) && env.truncated(h) == Truncated(h)
  }

  ghost predicate PrintsAt(env: Env, h: ServerHello) { env.encode(ServerHelloMsg(h)) == S.Marshal(ToMessage(h)) }

  ghost predicate PrintsFinishedAt(env: Env, v: Bytes) { env.encode(Finished(v)) == PrintFinished(v) }

  ghost predicate ParsesAt(env: Env, wire: Bytes) {
    && env.unmarshal(wire) == Unmarshal(wire)
    && (wire != [] && wire[0] == S.TYPE_SERVER_HELLO ==> env.decode(wire) == DecodeHello(wire))
    && (wire != [] && wire[0] == TYPE_FINISHED ==> env.decode(wire) == DecodeFinished(wire))
  }

  /** The handshake uses the modelled codecs. */
  ghost predicate RealCodec(env: Env) {
    && (forall h :: RealAt(env, h)) && (forall wire :: ParsesAt(env, wire))
    && (forall h :: PrintsAt(env, h)) && (forall v :: PrintsFinishedAt(env, v))
  }

  lemma RealReceives(env: Env, h: Hello)
    requires RealCodec(env)
    ensures ReceivesAt(env, h)
  {
    hide Marshal, Unmarshal;
    assert RealAt(env, h);
    if env.marshal(h).Some? {
      var wire := env.marshal(h).value;
      assert ParsesAt(env, wire);
      if Unmarshal(wire).Some? {
        var got := Unmarshal(wire).value;
        Received(h, wire, got);
        assert RealAt(env, got);
        if h.original == None && h.fields[ENCRYPTED_CLIENT_HELLO] == Unset {
          assert got.PskBinders() == h.PskBinders();
        }
      }
    }
  }

  lemma RealTruncates(env: Env, h: Hello, binders: seq<Bytes>)
    requires RealCodec(env)
    ensures TruncatesAt(env, h, binders)
  {
    hide Marshal, Truncated;
    if h.original == None && h.fields[ENCRYPTED_CLIENT_HELLO] == Unset && h.fields[PRE_SHARED_KEY].Psk?
       && SameLengths(binders, h.PskBinders()) {
      assert RealAt(env, h) && RealAt(env, WithBinders(h, binders));
      TruncatedIgnoresBinders(h, binders);
    }
  }

  lemma RealHello(env: Env, h: ServerHello)
    requires RealCodec(env) && SoundHello(h)
    ensures DecodesAt(env, ServerHelloMsg(h))
  {
    hide DecodeHello, ToMessage, SoundHello;
    assert PrintsAt(env, h);
    if Encodes(env, ServerHelloMsg(h)) {
      var wire := S.Marshal(ToMessage(h)).value;
      assert wire[0] == S.TYPE_SERVER_HELLO;
      assert ParsesAt(env, wire);
      HelloBack(h);
    }
  }

  lemma RealFinished(env: Env, v: Bytes)
    requires RealCodec(env)
    ensures DecodesAt(env, Finished(v))
  {
    hide DecodeFinished;
    assert PrintsFinishedAt(env, v);
    if Encodes(env, Finished(v)) {
      assert ParsesAt(env, PrintFinished(v).value);
      FinishedBack(v);
    }
  }

  /** Main result: with the modelled codecs the laws the handshake rests on are met. */
  lemma RealCodecLaws(r: Run)
    requires RealCodec(r.env) && HonestParties(r)
    ensures Honest(r)
  {
    hide ReceivesAt, TruncatesAt, RealCodec, DecodesAt;
    forall h ensures ReceivesAt(r.env, h) { RealReceives(r.env, h); }
    forall h, binders ensures TruncatesAt(r.env, h, binders) { RealTruncates(r.env, h, binders); }
    forall m | HonestMsg(r, m) ensures DecodesAt(r.env, m) {
      if m.ServerHelloMsg? { RealHello(r.env, m.hello); }
      else if m.Finished? { RealFinished(r.env, m.verifyData); }
    }
  }
}
