/** The encoding of sessions: what a ticket carries. */
module SessionState {
  import opened Wire
  import opened ClientHello
  import opened CertificateList

  const VERSION_TLS13: u16 := 0x0304

  /** A session; certificates are kept as their encodings. */
  datatype Session = Session(
    version: u16, isClient: bool, cipherSuite: u16, createdAt: u64, secret: Bytes, extra: seq<Bytes>,
    extMasterSecret: bool, earlyData: bool, peer: Chain, verified: seq<seq<Bytes>>,
    alpn: Bytes, useBy: u64, ageAdd: u32, curve: u16)

  // ---------------------------------------------------------------- printer

  function U64(n: u64): (b: Bytes)
    ensures |b| == 8
  {
    UInt(4, n / 0x1_0000_0000) + UInt(4, n % 0x1_0000_0000)
  }

  function Value64(b: Bytes): u64
    requires |b| == 8
  {
    var hi, lo := Value(b[..4]) as int, Value(b[4..]) as int;
    hi * 0x1_0000_0000 + lo
  }

  function Flag01(b: bool): byte { if b then 1 else 0 }

  function Encode24(b: Bytes): Build { Lp(3, Some(b)) }

  function Read24(s: Bytes): Parsed<Bytes> { ReadLp(3, s) }

  /** The part in front of the vectors: version, kind, cipher suite and creation time. */
  function Fixed(s: Session): (b: Bytes)
    ensures |b| == 13
  {
    UInt(2, s.version) + [if s.isClient then 2 else 1] + UInt(2, s.cipherSuite) + U64(s.createdAt)
  }

  /** Verified chains without their leaves; an empty chain is an error. */
  function Tails(chains: seq<seq<Bytes>>): Option<seq<Bytes>> {
    if chains == [] then Some([])
    else if chains[0] == [] then None
    else
      var tail :- EncodeItems(Encode24, chains[0][1..]);
      var more :- Tails(chains[1..]);
      Some([tail] + more)
  }

  function VerifiedBlock(chains: seq<seq<Bytes>>): Build {
    var tails :- Tails(chains);
    EncodeItems(Encode24, tails)
  }

  function TailPart(s: Session): Build {
    Cat(if s.earlyData then Lp(1, Some(s.alpn)) else Some([]), Some(Rest(s)))
  }

  /** The last fields: those of TLS 1.3 clients, or the curve of older versions. */
  function Rest(s: Session): Bytes {
    if s.version >= VERSION_TLS13 then (if s.isClient then U64(s.useBy) + UInt(4, s.ageAdd) else [])
    else UInt(2, s.curve)
  }

  function FramePart(s: Session): Build {
    Cat(Cat(Cat(Cat(Cat(Some(Fixed(s)), Lp(1, Some(s.secret))),
                    Lp(3, EncodeItems(Encode24, s.extra))),
                Some([Flag01(s.extMasterSecret), Flag01(s.earlyData)])),
            MarshalChain(s.peer)),
        Lp(3, VerifiedBlock(s.verified)))
  }

  function Marshal(s: Session): Build { Cat(FramePart(s), TailPart(s)) }

  // ---------------------------------------------------------------- parser

  /** The encoding cut into its parts. */
  datatype Frame = Frame(fixed: Bytes, secret: Bytes, extra: Bytes, flags: Bytes, certs: Bytes, chains: Bytes)

  function ReadFrame(s: Bytes): Parsed<Frame> {
    match ReadN(13, s)
    case Bad => Bad
    case Got(fixed, r1) =>
      match ReadLp(1, r1)
      case Bad => Bad
      case Got(secret, r2) =>
        match ReadLp(3, r2)
        case Bad => Bad
        case Got(extra, r3) =>
          match ReadN(2, r3)
          case Bad => Bad
          case Got(flags, r4) =>
            match ReadLp(3, r4)
            case Bad => Bad
            case Got(certs, r5) =>
              match ReadLp(3, r5)
              case Bad => Bad
              case Got(chains, r6) => Got(Frame(fixed, secret, extra, flags, certs, chains), r6)
  }

  datatype Tail = Tail(alpn: Bytes, rest: Bytes)

  function RestSize(version: u16, isClient: bool): nat {
    if version >= VERSION_TLS13 then (if isClient then 12 else 0) else 2
  }

  function ReadTail(version: u16, isClient: bool, early: bool, s: Bytes): Parsed<Tail> {
    match (if early then ReadLp(1, s) else Got([], s))
    case Bad => Bad
    case Got(alpn, r) =>
      match ReadN(RestSize(version, isClient), r)
      case Bad => Bad
      case Got(rest, end) => Got(Tail(alpn, rest), end)
  }

  predicate AllOk(ok: Bytes -> bool, certs: seq<Bytes>) {
    forall i :: 0 <= i < |certs| ==> ok(certs[i])
  }

  /** Verified chains, each with the leaf put back in front. */
  function ParseVerified(ok: Bytes -> bool, leaf: Bytes, blocks: seq<Bytes>): Option<seq<seq<Bytes>>> {
    if blocks == [] then Some([])
    else
      var tail :- ParseItems(Read24, blocks[0]);
      if !AllOk(ok, tail) then None
      else
        var more :- ParseVerified(ok, leaf, blocks[1..]);
        Some([[leaf] + tail] + more)
  }

  predicate FrameOk(f: Frame) {
    && |f.fixed| == 13 && |f.flags| == 2
    && f.secret != [] && f.fixed[2] in {1, 2} && f.flags[0] <= 1 && f.flags[1] <= 1
  }

  /** The parts of a frame that are vectors of their own; `ok` tells which certificates the
      X.509 parser accepts. */
  function ParseVectors(ok: Bytes -> bool, f: Frame): Option<(seq<Bytes>, Chain, seq<seq<Bytes>>)>
    requires FrameOk(f)
  {
    var extra :- ParseItems(Read24, f.extra);
    var peer :- ParseBlock(f.certs);
    if !AllOk(ok, peer.certs) || (f.fixed[2] == 2 && peer.certs == []) then None
    else
      var blocks :- ParseItems(Read24, f.chains);
      if blocks != [] && peer.certs == [] then None
      else
        var verified :- ParseVerified(ok, if peer.certs == [] then [] else peer.certs[0], blocks);
        Some((extra, peer, verified))
  }

  function Assemble(f: Frame, v: (seq<Bytes>, Chain, seq<seq<Bytes>>), t: Tail): Session
    requires FrameOk(f) && |t.rest| == RestSize(Value(f.fixed[..2]), f.fixed[2] == 2)
  {
    var version, isClient := Value(f.fixed[..2]), f.fixed[2] == 2;
    var timed := version >= VERSION_TLS13 && isClient;
    Session(version, isClient, Value(f.fixed[3..5]), Value64(f.fixed[5..]), f.secret, v.0,
            f.flags[0] == 1, f.flags[1] == 1, v.1, v.2, t.alpn,
            if timed then Value64(t.rest[..8]) else 0, if timed then Value(t.rest[8..]) else 0,
            if version < VERSION_TLS13 then Value(t.rest) else 0)
  }

  /** The parser, with the bytes it leaves unread. */
  function Read(ok: Bytes -> bool, data: Bytes): Parsed<Session> {
    match ReadFrame(data)
    case Bad => Bad
    case Got(f, r) =>
      if !FrameOk(f) then Bad
      else match ReadTail(Value(f.fixed[..2]), f.fixed[2] == 2, f.flags[1] == 1, r)
        case Bad => Bad
        case Got(t, rest) =>
          var v := ParseVectors(ok, f);
          if v.None? then Bad else Got(Assemble(f, v.value, t), rest)
  }

  function Parse(ok: Bytes -> bool, data: Bytes): Option<Session> {
    var p := Read(ok, data);
    if p.Bad? then None else Some(p.value)
  }

  // ---------------------------------------------------------------- readers only look ahead

  lemma ReadNExtends(n: nat, s: Bytes, t: Bytes)
    requires ReadN(n, s).Got?
    ensures ReadN(n, s + t) == Got(ReadN(n, s).value, ReadN(n, s).rest + t)
  {
    assert (s + t)[..n] == s[..n] && (s + t)[n..] == s[n..] + t;
  }

  lemma ReadLpExtends(w: Width, s: Bytes, t: Bytes)
    requires ReadLp(w, s).Got?
    ensures ReadLp(w, s + t) == Got(ReadLp(w, s).value, ReadLp(w, s).rest + t)
  {
    hide Value;
    assert (s + t)[..w] == s[..w];
    var n := Value(s[..w]);
    assert (s + t)[w..w + n] == s[w..w + n] && (s + t)[w + n..] == s[w + n..] + t;
  }

  lemma ReadFrameExtends(s: Bytes, t: Bytes)
    requires ReadFrame(s).Got?
    ensures ReadFrame(s + t) == Got(ReadFrame(s).value, ReadFrame(s).rest + t)
  {
    hide ReadN, ReadLp;
    ReadNExtends(13, s, t);
    var r1 := ReadN(13, s).rest;
    ReadLpExtends(1, r1, t);
    var r2 := ReadLp(1, r1).rest;
    ReadLpExtends(3, r2, t);
    var r3 := ReadLp(3, r2).rest;
    ReadNExtends(2, r3, t);
    var r4 := ReadN(2, r3).rest;
    ReadLpExtends(3, r4, t);
    ReadLpExtends(3, ReadLp(3, r4).rest, t);
  }

  lemma ReadExtends(ok: Bytes -> bool, s: Bytes, t: Bytes)
    requires Read(ok, s).Got?
    ensures Read(ok, s + t) == Got(Read(ok, s).value, Read(ok, s).rest + t)
  {
    hide ReadFrame, ReadN, ReadLp, ParseVectors, Assemble, RestSize;
    ReadFrameExtends(s, t);
    var f, r := ReadFrame(s).value, ReadFrame(s).rest;
    if f.flags[1] == 1 { ReadLpExtends(1, r, t); }
    var after := if f.flags[1] == 1 then ReadLp(1, r).rest else r;
    ReadNExtends(RestSize(Value(f.fixed[..2]), f.fixed[2] == 2), after, t);
  }

  // ---------------------------------------------------------------- round trip

  predicate Any24(b: Bytes) { true }

  lemma Inverts24()
    ensures Inverts(Read24, Encode24, Any24)
  {
    forall b, t ensures InvertsAt(Read24, Encode24, Any24, b, t) {
      if |b| < Cap(3) { ReadLpOfLp(3, b, t); }
    }
  }

  lemma List24Back(xs: seq<Bytes>)
    requires EncodeItems(Encode24, xs).Some?
    ensures ParseItems(Read24, EncodeItems(Encode24, xs).value) == Some(xs)
  {
    Inverts24();
    ParseEncodeItems(Read24, Encode24, Any24, xs);
    assert AllValid(Any24, xs);
  }

  lemma Value64Back(n: u64)
    ensures Value64(U64(n)) == n
  {
    var hi, lo := n / 0x1_0000_0000, n % 0x1_0000_0000;
    ValueUInt(4, hi);
    ValueUInt(4, lo);
    hide UInt, Value;
    assert U64(n)[..4] == UInt(4, hi) && U64(n)[4..] == UInt(4, lo);
  }

  /** What an encoding keeps of a session: every chain begins with the leaf, and fields that
      the version, the role or early data rule out are gone. */
  function Canonical(s: Session): Session {
    var timed := s.version >= VERSION_TLS13 && s.isClient;
    s.(peer := Kept(s.peer), verified := Releafed(s.peer.certs, s.verified),
       alpn := if s.earlyData then s.alpn else [],
       useBy := if timed then s.useBy else 0, ageAdd := if timed then s.ageAdd else 0,
       curve := if s.version < VERSION_TLS13 then s.curve else 0)
  }

  function Releaf(leaf: Bytes, chain: seq<Bytes>): seq<Bytes> {
    if chain == [] then [] else [leaf] + chain[1..]
  }

  function Releafed(certs: seq<Bytes>, chains: seq<seq<Bytes>>): (r: seq<seq<Bytes>>)
    ensures |r| == |chains|
  {
    if certs == [] then chains
    else seq(|chains|, i requires 0 <= i < |chains| => Releaf(certs[0], chains[i]))
  }

  predicate TailsOk(ok: Bytes -> bool, chains: seq<seq<Bytes>>) {
    forall i :: 0 <= i < |chains| && chains[i] != [] ==> AllOk(ok, chains[i][1..])
  }

  lemma TailsOkStep(ok: Bytes -> bool, chains: seq<seq<Bytes>>)
    requires chains != [] && chains[0] != []
    ensures TailsOk(ok, chains) <==> AllOk(ok, chains[0][1..]) && TailsOk(ok, chains[1..])
  {
    hide AllOk;
    if AllOk(ok, chains[0][1..]) && TailsOk(ok, chains[1..]) {
      forall i | 0 <= i < |chains| && chains[i] != [] ensures AllOk(ok, chains[i][1..]) {
        if i > 0 { assert chains[i] == chains[1..][i - 1]; }
      }
    }
    if TailsOk(ok, chains) {
      forall i | 0 <= i < |chains[1..]| && chains[1..][i] != [] ensures AllOk(ok, chains[1..][i][1..]) {
        assert chains[1..][i] == chains[i + 1];
      }
    }
  }

  /** The sessions that can be read back. */
  predicate Readable(ok: Bytes -> bool, s: Session) {
    && s.secret != [] && Sound(s.peer) && AllOk(ok, s.peer.certs)
    && (s.isClient || s.verified != [] ==> s.peer.certs != [])
    && TailsOk(ok, s.verified)
  }

  lemma ReleafCons(certs: seq<Bytes>, chains: seq<seq<Bytes>>)
    requires certs != []
    ensures Releafed(certs, chains) ==
      if chains == [] then [] else [Releaf(certs[0], chains[0])] + Releafed(certs, chains[1..])
  {
  }

  lemma {:induction false} VerifiedBack(ok: Bytes -> bool, certs: seq<Bytes>, chains: seq<seq<Bytes>>)
    requires Tails(chains).Some? && certs != []
    ensures ParseVerified(ok, certs[0], Tails(chains).value) ==
      if TailsOk(ok, chains) then Some(Releafed(certs, chains)) else None
  {
    hide AllOk, ParseItems, EncodeItems, Releafed;
    ReleafCons(certs, chains);
    if chains != [] {
      List24Back(chains[0][1..]);
      VerifiedBack(ok, certs, chains[1..]);
      TailsOkStep(ok, chains);
      hide TailsOk;
      assert Tails(chains).value[1..] == Tails(chains[1..]).value;
    }
  }

  /** The frame that a session is printed as. */
  function FrameOf(s: Session): Frame
    requires FramePart(s).Some?
  {
    Frame(Fixed(s), s.secret, EncodeItems(Encode24, s.extra).value,
          [Flag01(s.extMasterSecret), Flag01(s.earlyData)], ChainBlock(s.peer).value, VerifiedBlock(s.verified).value)
  }

  lemma FrameBack(s: Session, t: Bytes)
    requires FramePart(s).Some?
    ensures ReadFrame(FramePart(s).value + t) == Got(FrameOf(s), t)
  {
    var f := FrameOf(s);
    var t5 := UInt(3, |f.chains|) + f.chains + t;
    var t4 := UInt(3, |f.certs|) + f.certs + t5;
    var t3 := f.flags + t4;
    var t2 := UInt(3, |f.extra|) + f.extra + t3;
    var t1 := UInt(1, |f.secret|) + f.secret + t2;
    FrameBytes(FramePart(s).value, f.fixed, UInt(1, |f.secret|) + f.secret, UInt(3, |f.extra|) + f.extra, f.flags,
               UInt(3, |f.certs|) + f.certs, UInt(3, |f.chains|) + f.chains, t);
    hide Fixed, EncodeItems, ChainBlock, VerifiedBlock, UInt;
    ReadNOf(f.fixed, t1);
    ReadLpOfLp(1, f.secret, t2);
    ReadLpOfLp(3, f.extra, t3);
    ReadNOf(f.flags, t4);
    ReadLpOfLp(3, f.certs, t5);
    ReadLpOfLp(3, f.chains, t);
  }

  lemma FrameBytes(all: Bytes, a: Bytes, b: Bytes, c: Bytes, d: Bytes, e: Bytes, f: Bytes, t: Bytes)
    requires all == a + b + c + d + e + f
    ensures all + t == a + (b + (c + (d + (e + (f + t)))))
  {
  }

  lemma TailBack(s: Session)
    requires TailPart(s).Some?
    ensures |Rest(s)| == RestSize(s.version, s.isClient)
    ensures ReadTail(s.version, s.isClient, s.earlyData, TailPart(s).value) ==
      Got(Tail(if s.earlyData then s.alpn else [], Rest(s)), [])
  {
    var r := Rest(s);
    ReadNOf(r, []);
    assert r + [] == r && [] + r == r;
    if s.earlyData { ReadLpOfLp(1, s.alpn, r); }
  }

  lemma VectorsBack(ok: Bytes -> bool, s: Session)
    requires FramePart(s).Some? && FrameOk(FrameOf(s))
    ensures ParseVectors(ok, FrameOf(s)) ==
      if Readable(ok, s) then Some((s.extra, Kept(s.peer), Releafed(s.peer.certs, s.verified))) else None
  {
    var tails := Tails(s.verified).value;
    List24Back(s.extra);
    BlockBack(s.peer);
    List24Back(tails);
    SameCount(s.verified);
    hide EncodeItems, ParseItems, ParseBlock, ChainBlock, Sound, Tails, ParseVerified;
    if s.peer.certs != [] { VerifiedBack(ok, s.peer.certs, s.verified); }
    else if s.verified == [] { NoneVerified(ok); }
  }

  lemma {:induction false} SameCount(chains: seq<seq<Bytes>>)
    requires Tails(chains).Some?
    ensures |Tails(chains).value| == |chains|
  {
    if chains != [] { SameCount(chains[1..]); }
  }

  lemma NoneVerified(ok: Bytes -> bool)
    ensures Tails([]) == Some([]) && ParseVerified(ok, [], []) == Some([])
  {
  }

  lemma FixedBack(s: Session)
    ensures var b := Fixed(s);
      && Value(b[..2]) == s.version && b[2] == (if s.isClient then 2 else 1)
      && Value(b[3..5]) == s.cipherSuite && Value64(b[5..]) == s.createdAt
  {
    ValueUInt(2, s.version);
    ValueUInt(2, s.cipherSuite);
    Value64Back(s.createdAt);
    hide UInt, Value, U64, Value64;
    var b := Fixed(s);
    assert b[..2] == UInt(2, s.version) && b[3..5] == UInt(2, s.cipherSuite) && b[5..] == U64(s.createdAt);
  }

  lemma RestBack(s: Session)
    ensures s.version >= VERSION_TLS13 && s.isClient ==>
      |Rest(s)| == 12 && Value64(Rest(s)[..8]) == s.useBy && Value(Rest(s)[8..]) == s.ageAdd
    ensures s.version < VERSION_TLS13 ==> |Rest(s)| == 2 && Value(Rest(s)) == s.curve
  {
    Value64Back(s.useBy);
    ValueUInt(4, s.ageAdd);
    ValueUInt(2, s.curve);
    hide UInt, Value, U64, Value64;
    if s.version >= VERSION_TLS13 && s.isClient {
      assert Rest(s)[..8] == U64(s.useBy) && Rest(s)[8..] == UInt(4, s.ageAdd);
    }
  }

  /** Main result: a printed session reads back, in full and leaving nothing unread, exactly
      if it is readable: it has a secret, its certificates parse, a client's session has
      the server's certificate, and OCSP response and timestamps are not empty.
   */
  lemma SessionRoundTrip(ok: Bytes -> bool, s: Session)
    requires Marshal(s).Some?
    ensures Read(ok, Marshal(s).value) == if Readable(ok, s) then Got(Canonical(s), []) else Bad
  {
    hide ReadFrame, ReadTail, ParseVectors, Fixed, Rest, Value, Value64, FramePart, TailPart, Releafed, Kept, Sound,
      EncodeItems, ChainBlock, VerifiedBlock;
    FrameBack(s, TailPart(s).value);
    TailBack(s);
    FixedBack(s);
    RestBack(s);
    assert FrameOk(FrameOf(s)) <==> s.secret != [];
    if s.secret != [] { VectorsBack(ok, s); }
  }

  /** Main result: no strict prefix of an encoding can be read. */
  lemma SessionPrefixFails(ok: Bytes -> bool, s: Session, n: nat)
    requires Marshal(s).Some? && n < |Marshal(s).value|
    ensures Parse(ok, Marshal(s).value[..n]) == None
  {
    hide Marshal, Read;
    var data := Marshal(s).value;
    var p, t := data[..n], data[n..];
    assert data == p + t;
    SessionRoundTrip(ok, s);
    if Read(ok, p).Got? { ReadExtends(ok, p, t); }
  }
}
