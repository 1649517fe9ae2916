/** Cutting what is written into records: how large each record may be, and the loop that
    emits them.
 */
module Fragment {
  import opened Wire
  import opened Padding
  import opened Nonce
  import opened Record
  import opened RecordRoundTrip
  import HalfConn

  const MSS := 1208
  const BOOST_THRESHOLD := 131072
  const MANY_PACKETS := 1000

  /** What of a cipher state decides the size of a record. */
  datatype Mode = Mode(tls13: bool, explicit: nat, cipher: CipherMode)
  datatype CipherMode = NoCipher | StreamMode(mac: nat) | AeadMode | CbcMode(block: nat, mac: nat)

  function ModeOf(h: Half): Mode
    requires HalfOk(h)
  {
    Mode(h.version == TLS13, ExplicitNonceLen(h),
         match h.spec.cipher
         case Null => NoCipher
         case Stream(_, _) => StreamMode(h.spec.mac.value.size)
         case Cbc(_, b, _) => CbcMode(b, h.spec.mac.value.size)
         case _ => AeadMode)
  }

  /** The block and MAC sizes in use: blocks of 8 or 16 bytes, MACs of at most 64. */
  predicate Usual(m: Mode) {
    && m.explicit <= 16
    && match m.cipher
       case StreamMode(mac) => mac <= 64
       case CbcMode(b, mac) => b in {8, 16} && mac <= 64
       case _ => true
  }

  datatype Counters = Counters(bytesSent: nat, packetsSent: nat)

  /** The room for payload in one segment. */
  function SegmentRoom(m: Mode): int {
    var room := MSS - HEADER - m.explicit;
    var left := match m.cipher
      case NoCipher => room
      case StreamMode(mac) => room - mac
      case AeadMode => room - OVERHEAD
      case CbcMode(b, mac) => (if b > 0 then room - room % b else room) - 1 - mac;
    if m.tls13 then left - 1 else left
  }

  /** Is the size of the next record being ramped up? */
  predicate Sized(dynamic: bool, typ: bv8, c: Counters) {
    dynamic && typ == APPLICATION_DATA && c.bytesSent < BOOST_THRESHOLD
  }

  /** The largest payload of the next record, and the counters after asking. */
  function MaxPayload(m: Mode, dynamic: bool, typ: bv8, c: Counters): (int, Counters) {
    if !Sized(dynamic, typ, c) then (MAX_PLAINTEXT, c)
    else
      var after := c.(packetsSent := c.packetsSent + 1);
      if c.packetsSent > MANY_PACKETS then (MAX_PLAINTEXT, after)
      else
        var n := SegmentRoom(m) * (c.packetsSent + 1);
        (if n > MAX_PLAINTEXT then MAX_PLAINTEXT else n, after)
  }

  /** The size on the wire of a record with `n` payload bytes. */
  function RecordSize(m: Mode, n: nat): nat {
    HEADER + m.explicit +
    match m.cipher
    case NoCipher => n
    case StreamMode(mac) => n + mac
    case AeadMode => n + OVERHEAD + (if m.tls13 then 1 else 0)
    case CbcMode(b, mac) => n + mac + (if b > 0 then PadLength(n + mac, b) else 0)
  }

  lemma RoomIsPositive(m: Mode)
    requires Usual(m)
    ensures 1 <= SegmentRoom(m) <= MSS
  {
  }

  lemma MaxPayloadBounds(m: Mode, dynamic: bool, typ: bv8, c: Counters)
    requires Usual(m)
    ensures 1 <= MaxPayload(m, dynamic, typ, c).0 <= MAX_PLAINTEXT
  {
    RoomIsPositive(m);
    AtLeast(SegmentRoom(m), c.packetsSent + 1);
  }

  lemma AtLeast(a: int, k: int)
    requires a >= 1 && k >= 1
    ensures a * k >= 1
  {
  }

  /** Encryption produces a record of the computed size, and stays in its mode. */
  lemma SizeOf(p: Prims, h: Half, typ: bv8, vers: Octets, payload: Octets, rand: Octets)
    requires HalfOk(h) && RandOk(h, rand) && |vers| == 2 && Laws(p, h.spec.mac)
    requires Encrypt(p, h, typ, vers, payload, rand).Written?
    ensures var w := Encrypt(p, h, typ, vers, payload, rand);
      && |w.record| == RecordSize(ModeOf(h), |payload|)
      && HalfOk(w.half) && ModeOf(w.half) == ModeOf(h) && LawsOf(p, h) == LawsOf(p, w.half)
  {
    IncrementAddsOne(h.number);
    hide Increment, Laws;
    match h.spec.cipher
    case Null =>
    case Stream(_, _) => SizeOfStream(p, h, typ, vers, payload);
    case Cbc(_, _, _) => SizeOfCbc(p, h, typ, vers, payload, rand);
    case PrefixAead(_, _) => SizeOfAead(p, h, typ, vers, payload);
    case XorAead(_, _) => SizeOfAead(p, h, typ, vers, payload);
  }

  lemma SizeOfStream(p: Prims, h: Half, typ: bv8, vers: Octets, payload: Octets)
    requires HalfOk(h) && h.spec.cipher.Stream? && |vers| == 2 && Laws(p, h.spec.mac)
    requires Encrypt(p, h, typ, vers, payload, []).Written?
    ensures |Encrypt(p, h, typ, vers, payload, []).record| == RecordSize(ModeOf(h), |payload|)
  {
    hide Increment, Header, XorStream;
    assert MacLaw(p, h.spec.mac.value, h.number + Header(typ, vers, |payload|) + payload);
    Split(typ, vers, |payload| + h.spec.mac.value.size, []);
  }

  lemma SizeOfAead(p: Prims, h: Half, typ: bv8, vers: Octets, payload: Octets)
    requires HalfOk(h) && (h.spec.cipher.PrefixAead? || h.spec.cipher.XorAead?) && |vers| == 2 && Laws(p, h.spec.mac)
    requires Encrypt(p, h, typ, vers, payload, []).Written?
    ensures |Encrypt(p, h, typ, vers, payload, []).record| == RecordSize(ModeOf(h), |payload|)
  {
    hide Increment, LengthBytes, Masked, Prefixed;
    var header := Header(typ, vers, |payload|);
    var outer := Header(APPLICATION_DATA, vers, |payload| + 1 + OVERHEAD);
    match h.spec.cipher
    case PrefixAead(key, fixed) => assert SealLaw(p, key, Prefixed(fixed, h.number), payload, h.number + header);
    case XorAead(key, mask) =>
      if h.version == TLS13 { assert SealLaw(p, key, Masked(mask, h.number), payload + [typ], outer); }
      else { assert SealLaw(p, key, Masked(mask, h.number), payload, h.number + header); }
  }

  lemma SizeOfCbc(p: Prims, h: Half, typ: bv8, vers: Octets, payload: Octets, rand: Octets)
    requires HalfOk(h) && h.spec.cipher.Cbc? && RandOk(h, rand) && |vers| == 2 && Laws(p, h.spec.mac)
    requires EncryptCbc(p, h, typ, vers, payload, rand).Written?
    ensures |EncryptCbc(p, h, typ, vers, payload, rand).record| == RecordSize(ModeOf(h), |payload|)
    ensures |EncryptCbc(p, h, typ, vers, payload, rand).half.spec.cipher.iv| == h.spec.cipher.blockSize
  {
    hide Increment, Pad, PadLength, CbcEncryptAll, LengthBytes, PaddingOk, ToRemove;
    var Cbc(key, b, chained) := h.spec.cipher;
    assert MacLaw(p, h.spec.mac.value, h.number + Header(typ, vers, |payload|) + payload);
    var data := payload + MacOf(p, h.spec.mac.value, h.number, Header(typ, vers, |payload|), payload);
    PadIsAccepted(data, b);
    var iv := if ExplicitNonceLen(h) > 0 then rand else chained;
    forall x ensures BlockLaw(p, key, x) { }
    CbcAllBack(p, key, b, iv, Pad(data, b));
  }

  // ---------------------------------------------------------------- the ramp

  lemma Monotone(a: int, b: int, k: int)
    requires a <= b && k >= 0
    ensures a * k <= b * k
  {
  }

  lemma CbcFits(room: int, b: nat, mac: nat, k: nat, n: nat)
    requires b in {8, 16} && mac <= 64 && k >= 1 && room >= 0
    requires n <= (room - room % b - 1 - mac) * k
    ensures n + mac + PadLength(n + mac, b) <= (room - room % b) * k
  {
    var f := room - room % b;
    var q := f / b;
    assert f == q * b;
    var x := n + mac;
    assert (f - 1 - mac) * k == f * k - k - mac * k;
    Monotone(1, k, mac);
    assert x < f * k;
    assert f * k == (q * k) * b by { Reassociate(q, b, k); }
    NextMultipleFits(x, q * k, b);
  }

  lemma Reassociate(q: int, b: int, k: int)
    ensures (q * b) * k == (q * k) * b
  {
  }

  lemma NextMultipleFits(x: nat, m: nat, b: nat)
    requires b in {8, 16} && x < m * b
    ensures x + PadLength(x, b) <= m * b
  {
    assert x / b < m;
  }

  /** Main result, the ramp: below the boost threshold the k-th sized record, in whatever
      mode, takes at most k segments on the wire, nonce, MAC, padding and tag included.
   */
  lemma RecordFitsSegments(m: Mode, typ: bv8, c: Counters, n: nat)
    requires Usual(m) && Sized(true, typ, c) && n <= MaxPayload(m, true, typ, c).0
    ensures RecordSize(m, n) <= MSS * (c.packetsSent + 1)
  {
    var k := c.packetsSent + 1;
    if c.packetsSent > MANY_PACKETS {
      Monotone(MANY_PACKETS + 2, k, MSS);
    } else {
      RoomIsPositive(m);
      var room := MSS - HEADER - m.explicit;
      assert n <= SegmentRoom(m) * k;
      match m.cipher
      case NoCipher => Linear(SegmentRoom(m), HEADER + m.explicit, k, n);
      case StreamMode(mac) => Linear(SegmentRoom(m), HEADER + m.explicit + mac, k, n);
      case AeadMode => Linear(SegmentRoom(m), HEADER + m.explicit + OVERHEAD + (if m.tls13 then 1 else 0), k, n);
      case CbcMode(b, mac) =>
        Monotone(SegmentRoom(m), room - room % b - 1 - mac, k);
        CbcFits(room, b, mac, k, n);
        Linear(room - room % b, HEADER + m.explicit, k, n + mac + PadLength(n + mac, b));
    }
  }

  lemma Linear(room: int, overhead: nat, k: nat, n: nat)
    requires room + overhead <= MSS && k >= 1 && n <= room * k
    ensures n + overhead <= MSS * k
  {
    Monotone(room + overhead, MSS, k);
    assert (room + overhead) * k == room * k + overhead * k;
    Monotone(1, k, overhead);
  }

  /** Main result, how tight the ramp is: in TLS 1.3 with an AEAD, and in every earlier mode,
      a payload fits one segment exactly if it is no larger than the room computed; so the
      k-th allowance is k times the largest that does, up to the limit of a record. */
  lemma RoomIsLargest(m: Mode, n: nat)
    requires Usual(m) && (m.tls13 ==> m.cipher.AeadMode?)
    ensures RecordSize(m, n) <= MSS <==> n <= SegmentRoom(m)
  {
    RoomIsPositive(m);
    var room := MSS - HEADER - m.explicit;
    match m.cipher
    case CbcMode(b, mac) =>
      if n + mac < room - room % b { CbcFits(room, b, mac, 1, n); }
      else { NextMultiple(n + mac, room, b); }
    case _ =>
  }

  lemma NextMultiple(x: nat, room: nat, b: nat)
    requires b in {8, 16} && x >= room - room % b
    ensures x + PadLength(x, b) > room
  {
  }

  lemma AllowanceIs(m: Mode, typ: bv8, c: Counters, one: nat)
    requires Usual(m) && (m.tls13 ==> m.cipher.AeadMode?) && RecordSize(m, one) <= MSS < RecordSize(m, one + 1)
    ensures MaxPayload(m, true, typ, c).0 ==
      if Sized(true, typ, c) && c.packetsSent <= MANY_PACKETS && one * (c.packetsSent + 1) < MAX_PLAINTEXT
      then one * (c.packetsSent + 1) else MAX_PLAINTEXT
  {
    hide RecordSize;
    RoomIsLargest(m, one);
    RoomIsLargest(m, one + 1);
  }

  /** The allowance is not always the largest that fits its k segments: the overhead is taken
      off every segment, though it is there once.  It is the largest for k = 1 only. */
  lemma LargestForOneSegment(m: Mode, typ: bv8, c: Counters)
    requires Usual(m) && (m.tls13 ==> m.cipher.AeadMode?)
    requires Sized(true, typ, c) && MaxPayload(m, true, typ, c).0 < MAX_PLAINTEXT
    ensures RecordSize(m, MaxPayload(m, true, typ, c).0 + 1) > MSS * (c.packetsSent + 1) <==> c.packetsSent == 0
  {
    var k, n := c.packetsSent + 1, MaxPayload(m, true, typ, c).0;
    RoomIsPositive(m);
    RoomIsLargest(m, n + 1);
    if k > 1 { OneMoreFits(m, k); }
  }

  lemma OneMoreFits(m: Mode, k: nat)
    requires Usual(m) && (m.tls13 ==> m.cipher.AeadMode?) && k > 1
    ensures SegmentRoom(m) * k >= 0 && RecordSize(m, SegmentRoom(m) * k + 1) <= MSS * k
  {
    RoomIsPositive(m);
    var room := MSS - HEADER - m.explicit;
    var n := SegmentRoom(m) * k + 1;
    AtLeast(SegmentRoom(m), k);
    match m.cipher
    case NoCipher => LinearOneMore(SegmentRoom(m), HEADER + m.explicit, k);
    case StreamMode(mac) => LinearOneMore(SegmentRoom(m), HEADER + m.explicit + mac, k);
    case AeadMode => LinearOneMore(SegmentRoom(m), HEADER + m.explicit + OVERHEAD + (if m.tls13 then 1 else 0), k);
    case CbcMode(b, mac) =>
      CbcOneMore(room, b, mac, k);
      Linear(room - room % b, HEADER + m.explicit, k, n + mac + PadLength(n + mac, b));
  }

  lemma LinearOneMore(room: int, overhead: nat, k: nat)
    requires room + overhead <= MSS && k > 1 && overhead >= 1
    ensures room * k + 1 + overhead <= MSS * k
  {
    Monotone(room + overhead, MSS, k);
    assert (room + overhead) * k == room * k + overhead * k;
    Monotone(2, k, overhead);
  }

  lemma CbcOneMore(room: int, b: nat, mac: nat, k: nat)
    requires b in {8, 16} && mac <= 64 && k > 1 && room >= 0 && (room - room % b - 1 - mac) * k >= 0
    ensures var n := (room - room % b - 1 - mac) * k + 1;
      n + mac + PadLength(n + mac, b) <= (room - room % b) * k
  {
    var f := room - room % b;
    var q := f / b;
    var x := (f - 1 - mac) * k + 1 + mac;
    assert f == q * b;
    assert (f - 1 - mac) * k == f * k - k - mac * k;
    Monotone(1, k, mac);
    assert x < f * k;
    assert f * k == (q * k) * b by { Reassociate(q, b, k); }
    NextMultipleFits(x, q * k, b);
  }

  // ---------------------------------------------------------------- the sizes of the fragments

  function Least(a: int, b: int): int { if a <= b then a else b }

  /** The counters after a record of `n` bytes. */
  function Recorded(m: Mode, dynamic: bool, typ: bv8, c: Counters, n: nat): Counters {
    var asked := MaxPayload(m, dynamic, typ, c).1;
    asked.(bytesSent := asked.bytesSent + RecordSize(m, n))
  }

  /** The sizes of the fragments of `n` bytes: each is as large as allowed, but for the last. */
  function Cuts(m: Mode, dynamic: bool, typ: bv8, c: Counters, n: nat): seq<nat>
    requires Usual(m)
    decreases n
  {
    MaxPayloadBounds(m, dynamic, typ, c);
    if n == 0 then []
    else
      var k := Least(MaxPayload(m, dynamic, typ, c).0, n);
      [k] + Cuts(m, dynamic, typ, Recorded(m, dynamic, typ, c, k), n - k)
  }

  function Sizes(payloads: seq<Octets>): (r: seq<nat>)
    ensures |r| == |payloads| && forall i :: 0 <= i < |r| ==> r[i] == |payloads[i]|
  {
    seq(|payloads|, i requires 0 <= i < |payloads| => |payloads[i]|)
  }

  /** The fragments so far, and those to come, are the cuts. */
  lemma CutOneMore(m: Mode, dynamic: bool, typ: bv8, c: Counters, n: nat, payloads: seq<Octets>, payload: Octets, all: seq<nat>)
    requires Usual(m) && n > 0 && |payload| == Least(MaxPayload(m, dynamic, typ, c).0, n)
    requires all == Sizes(payloads) + Cuts(m, dynamic, typ, c, n)
    ensures |payload| <= n
    ensures all == Sizes(payloads + [payload]) + Cuts(m, dynamic, typ, Recorded(m, dynamic, typ, c, |payload|), n - |payload|)
  {
    hide MaxPayload, Recorded;
    assert Sizes(payloads + [payload]) == Sizes(payloads) + [|payload|];
  }

  lemma CutAll(m: Mode, dynamic: bool, typ: bv8, c: Counters, n: nat)
    requires Usual(m)
    ensures Cuts(m, dynamic, typ, c, n) == Sizes([]) + Cuts(m, dynamic, typ, c, n)
    ensures Cuts(m, dynamic, typ, c, 0) == []
  {
  }

  // ---------------------------------------------------------------- the loop

  function Concat(xs: seq<Octets>): Octets {
    if xs == [] then [] else xs[0] + Concat(xs[1..])
  }

  lemma {:induction false} ConcatAppend(xs: seq<Octets>, x: Octets)
    ensures Concat(xs + [x]) == Concat(xs) + x
  {
    if xs == [] {
      assert [x][1..] == [] && xs + [x] == [x];
      assert x + [] == [] + x;
    } else {
      assert (xs + [x])[1..] == xs[1..] + [x];
      ConcatAppend(xs[1..], x);
      assert xs[0] + (Concat(xs[1..]) + x) == (xs[0] + Concat(xs[1..])) + x;
    }
  }

  /** The version bytes of a record header: 1.0 before the version is known, and never
      more than 1.2. */
  function VersionBytes(vers: u16): Octets {
    if vers == 0 then [3, 1] else if vers == TLS13 || vers == TLS12 then [3, 3] else if vers == TLS11 then [3, 2] else [3, 1]
  }

  function SendOps(typ: bv8, vers: Octets, payloads: seq<Octets>, rands: seq<Octets>): seq<Op>
    requires |payloads| == |rands|
  {
    seq(|payloads|, i requires 0 <= i < |payloads| => Send(typ, vers, payloads[i], rands[i]))
  }

  lemma {:induction false} SentOps(typ: bv8, vers: Octets, payloads: seq<Octets>, rands: seq<Octets>)
    requires |payloads| == |rands|
    ensures Sent(SendOps(typ, vers, payloads, rands)) == seq(|payloads|, i requires 0 <= i < |payloads| => Content(typ, payloads[i]))
  {
    if payloads != [] {
      SentOps(typ, vers, payloads[1..], rands[1..]);
      assert SendOps(typ, vers, payloads, rands)[1..] == SendOps(typ, vers, payloads[1..], rands[1..]);
    }
  }

  lemma {:induction false} WriteAllAppend(p: Prims, w: Half, ops: seq<Op>, op: Op)
    requires HalfOk(w) && WriteAll(p, w, ops).Some? && HalfOk(WriteAll(p, w, ops).value.0)
    requires var one := WriteOne(p, WriteAll(p, w, ops).value.0, op); one.Some? && HalfOk(one.value.0)
    ensures var (h, records) := WriteAll(p, w, ops).value;
      var one := WriteOne(p, h, op).value;
      WriteAll(p, w, ops + [op]) == Some((one.0, records + one.1))
    decreases |ops|
  {
    hide WriteOne;
    if ops == [] {
      assert ops + [op] == [op] && [op][1..] == [];
      var one := WriteOne(p, w, op).value;
      assert one.1 + [] == [] + one.1;
    } else {
      assert (ops + [op])[1..] == ops[1..] + [op];
      var first := WriteOne(p, w, ops[0]).value;
      WriteAllAppend(p, first.0, ops[1..], op);
      var (h, rest) := WriteAll(p, first.0, ops[1..]).value;
      assert first.1 + (rest + WriteOne(p, h, op).value.1) == (first.1 + rest) + WriteOne(p, h, op).value.1;
    }
  }

  /** Legal fragments: 1 to 16384 bytes each. */
  predicate Legal(payloads: seq<Octets>) {
    forall i :: 0 <= i < |payloads| ==> 1 <= |payloads[i]| <= MAX_PLAINTEXT
  }

  /** The k-th of the records that the ramp sized, for every k, takes at most k segments;
      `sized` has their places on the wire. */
  ghost predicate Ramped(wire: seq<Octets>, sized: seq<nat>) {
    && (forall k :: 0 <= k < |sized| ==> sized[k] < |wire| && |wire[sized[k]]| <= MSS * (k + 1))
    && (forall j, k :: 0 <= j < k < |sized| ==> sized[j] < sized[k])
  }

  /** What a call adds to `sized` are places of records that it wrote. */
  ghost predicate SizedSince(sized: seq<nat>, before: seq<nat>, first: nat) {
    before <= sized && forall k :: |before| <= k < |sized| ==> first <= sized[k]
  }

  lemma RampGoesOn(wire: seq<Octets>, sized: seq<nat>, record: Octets)
    requires Ramped(wire, sized)
    ensures Ramped(wire + [record], sized)
    ensures |record| <= MSS * (|sized| + 1) ==> Ramped(wire + [record], sized + [|wire|])
  {
  }

  /** The writing side of a connection.  `wire` has the complete records. */
  class Writer {
    const out: HalfConn.HalfConn
    var bytesSent: nat
    var packetsSent: nat
    var dynamic: bool
    var wire: seq<Octets>
    ghost var sized: seq<nat>

    constructor (out: HalfConn.HalfConn, dynamic: bool)
      ensures this.out == out && wire == [] && bytesSent == packetsSent == 0 && sized == []
    {
      this.out := out;
      bytesSent, packetsSent, wire, sized := 0, 0, [], [];
      this.dynamic := dynamic;
    }

    ghost predicate Valid(p: Prims)
      reads this, out, out.number
    {
      && out.Valid() && LawsOf(p, out.View()) && Usual(ModeOf(out.View()))
      && |sized| == packetsSent && Ramped(wire, sized)
    }

    /** What the next record may hold, for the counters as they are. */
    ghost function Allowance(typ: bv8): (int, Counters)
      reads this, out, out.number
      requires out.Valid()
    {
      MaxPayload(ModeOf(out.View()), dynamic, typ, Counters(bytesSent, packetsSent))
    }

    method MaxPayloadSizeForWrite(typ: bv8) returns (n: int)
      requires out.Valid()
      modifies this`packetsSent
      ensures (n, Counters(bytesSent, packetsSent)) == old(Allowance(typ))
    {
      if !dynamic || typ != APPLICATION_DATA { return MAX_PLAINTEXT; }
      if bytesSent >= BOOST_THRESHOLD { return MAX_PLAINTEXT; }
      var explicit := match out.spec.cipher
        case PrefixAead(_, _) => SEQ_BYTES
        case Cbc(_, b, _) => if out.version >= TLS11 then b else 0
        case _ => 0;
      var payloadBytes: int := MSS - HEADER - explicit;
      match out.spec.cipher {
        case Null =>
        case Stream(_, _) => payloadBytes := payloadBytes - out.spec.mac.value.size;
        case PrefixAead(_, _) => payloadBytes := payloadBytes - OVERHEAD;
        case XorAead(_, _) => payloadBytes := payloadBytes - OVERHEAD;
        case Cbc(_, b, _) =>
          payloadBytes := payloadBytes - payloadBytes % b - 1;
          payloadBytes := payloadBytes - out.spec.mac.value.size;
      }
      if out.version == TLS13 { payloadBytes := payloadBytes - 1; }
      var pkt := packetsSent;
      packetsSent := packetsSent + 1;
      if pkt > MANY_PACKETS { return MAX_PLAINTEXT; }
      n := payloadBytes * (pkt + 1);
      if n > MAX_PLAINTEXT { n := MAX_PLAINTEXT; }
    }

    /** Sizes, encrypts and writes one record from the front of `rest`.  `error` is how the
        connection fails, after so many bytes of the record, if it does.  A record that does
        not go out in full is not on the wire, but has moved the cipher on.
     */
    method WriteOneRecord(p: Prims, typ: bv8, vers: Octets, rest: Octets, rand: Octets, error: Option<nat>)
      returns (ok: bool, payload: Octets)
      requires Valid(p) && rest != [] && |vers| == 2 && RandOk(out.View(), rand)
      modifies this`bytesSent, this`packetsSent, this`wire, this`sized, out, out.number
      ensures out.number == old(out.number)
      ensures 1 <= |payload| <= MAX_PLAINTEXT && payload <= rest && |payload| == Least(old(Allowance(typ)).0, |rest|)
      ensures !ok ==> wire == old(wire)
      ensures ok ==> error.None?
      ensures ok ==>
        var w := old(Encrypt(p, out.View(), typ, vers, payload, rand));
        && w.Written? && out.View() == w.half && wire == old(wire) + [w.record]
        && bytesSent == old(bytesSent) + |w.record| && out.version == old(out.version)
      ensures ok ==>
        Counters(bytesSent, packetsSent)
        == Recorded(old(ModeOf(out.View())), dynamic, typ, old(Counters(bytesSent, packetsSent)), |payload|)
      ensures ok ==> Valid(p) && ModeOf(out.View()) == old(ModeOf(out.View())) && SameRand(old(out.View()), out.View())
      ensures ok ==> SizedSince(sized, old(sized), |old(wire)|)
      ensures ok && old(Sized(dynamic, typ, Counters(bytesSent, packetsSent))) ==> sized == old(sized) + [|old(wire)|]
    {
      hide Encrypt, Laws, LawsOf, MaxPayload, RandOk, ModeOf, Usual, Ramped;
      ghost var h, c := out.View(), Counters(bytesSent, packetsSent);
      MaxPayloadBounds(ModeOf(h), dynamic, typ, c);
      Counted(ModeOf(h), dynamic, typ, c);
      var maxPayload := MaxPayloadSizeForWrite(typ);
      var m := |rest|;
      if m > maxPayload { m := maxPayload; }
      payload := rest[..m];
      var record := out.Encrypt(p, typ, vers, payload, rand);
      if record.None? { return false, payload; }
      if error.Some? {
        bytesSent := bytesSent + if error.value < |record.value| then error.value else |record.value|;
        return false, payload;
      }
      EncryptedRamp(p, h, typ, vers, payload, rand, dynamic, c);
      RampGoesOn(wire, sized, record.value);
      if Sized(dynamic, typ, c) { sized := sized + [|wire|]; }
      wire := wire + [record.value];
      bytesSent := bytesSent + |record.value|;
      return true, payload;
    }

    /** The fragments that have gone out in full, and their records. */
    ghost predicate Delivered(p: Prims, start: Half, before: seq<Octets>, typ: bv8, vers: Octets,
                              payloads: seq<Octets>, rands: seq<Octets>)
      requires HalfOk(start)
      reads this
    {
      && |payloads| == |rands| && Legal(payloads)
      && var w := WriteAll(p, start, SendOps(typ, vers, payloads, rands));
      && w.Some? && wire == before + w.value.1
    }

    /** The loop's invariant: the fragments written so far, and the state they led to. */
    ghost predicate Progress(p: Prims, start: Half, before: seq<Octets>, typ: bv8, vers: Octets,
                             payloads: seq<Octets>, rands: seq<Octets>)
      requires HalfOk(start)
      reads this, out, out.number
    {
      && Delivered(p, start, before, typ, vers, payloads, rands)
      && out.View() == WriteAll(p, start, SendOps(typ, vers, payloads, rands)).value.0
    }

    /** Writes `data` as records of one type.  `random` supplies an IV per record, `errors`
        how the connection fails at it.  Not ok stands for such a failure, or the panic of a
        sequence number that would wrap.  Whatever happens, the records that have gone out
        are those of legal fragments that make up the front of `data`, `n` bytes of it;
        and those that the ramp sized keep to its bounds.
     */
    method WriteRecords(p: Prims, typ: bv8, data: Octets, random: nat -> Octets, errors: nat -> Option<nat>)
      returns (ok: bool, n: nat, ghost payloads: seq<Octets>, ghost rands: seq<Octets>)
      requires Valid(p) && typ != 0
      requires forall i :: RandOk(out.View(), random(i))
      modifies this`bytesSent, this`packetsSent, this`wire, this`sized, out, out.number
      ensures out.number == old(out.number) && (ok ==> out.version == old(out.version))
      ensures n <= |data| && Concat(payloads) == data[..n] && (ok ==> n == |data|)
      ensures Delivered(p, old(out.View()), old(wire), typ, VersionBytes(old(out.version)), payloads, rands)
      ensures ok ==> Progress(p, old(out.View()), old(wire), typ, VersionBytes(old(out.version)), payloads, rands)
      ensures ok ==> Valid(p) && ModeOf(out.View()) == old(ModeOf(out.View())) && SameRand(old(out.View()), out.View())
      ensures ok ==> SizedSince(sized, old(sized), |old(wire)|)
      ensures Sizes(payloads) <= old(Cuts(ModeOf(out.View()), dynamic, typ, Counters(bytesSent, packetsSent), |data|))
      ensures ok ==>
        Sizes(payloads) == old(Cuts(ModeOf(out.View()), dynamic, typ, Counters(bytesSent, packetsSent), |data|))
      ensures ok && |data| == 1 ==>
        Counters(bytesSent, packetsSent)
        == Recorded(old(ModeOf(out.View())), dynamic, typ, old(Counters(bytesSent, packetsSent)), 1)
    {
      hide Encrypt, Laws, LawsOf, MaxPayload, WriteAll, Concat, RandOk, ModeOf, Usual, VersionBytes, SendOps, HalfOk, Ramped;
      hide Cuts, Sizes, Recorded;
      ghost var first := Counters(bytesSent, packetsSent);
      ghost var cuts := Cuts(ModeOf(out.View()), dynamic, typ, first, |data|);
      CutAll(ModeOf(out.View()), dynamic, typ, Counters(bytesSent, packetsSent), |data|);
      payloads, rands, n := [], [], 0;
      var rest, i := data, 0;
      var vers := VersionBytes(out.version);
      VersionBytesSize(out.version);
      ghost var start := out.View();
      Begins(p, start, typ, vers);
      assert wire == wire + [];
      while rest != []
        invariant out.number == old(out.number) && out.version == start.version
        invariant Valid(p) && ModeOf(out.View()) == ModeOf(start)
        invariant n <= |data| && rest == data[n..] && Concat(payloads) == data[..n] && |rands| == i
        invariant Progress(p, start, old(wire), typ, vers, payloads, rands)
        invariant SameRand(start, out.View()) && |wire| >= |old(wire)|
        invariant SizedSince(sized, old(sized), |old(wire)|)
        invariant cuts == Sizes(payloads) + Cuts(ModeOf(start), dynamic, typ, Counters(bytesSent, packetsSent), |rest|)
        invariant rest == data ==> Counters(bytesSent, packetsSent) == first
        invariant |data| == 1 && rest == [] ==> Counters(bytesSent, packetsSent) == Recorded(ModeOf(start), dynamic, typ, first, 1)
        decreases |rest|
      {
        assert RandOk(start, random(i));
        var payload;
        ghost var sizedBefore, wireBefore, before := sized, wire, Counters(bytesSent, packetsSent);
        ok, payload := WriteOneRecord(p, typ, vers, rest, random(i), errors(i));
        if !ok { return false, n, payloads, rands; }
        Extends(p, start, typ, vers, payloads, rands, payload, random(i));
        ConcatAppend(payloads, payload);
        Regroup(data, n, |payload|);
        CutOneMore(ModeOf(start), dynamic, typ, before, |rest|, payloads, payload, cuts);
        SinceTrans(sized, sizedBefore, old(sized), |wireBefore|, |old(wire)|);
        payloads, rands := payloads + [payload], rands + [random(i)];
        rest, n, i := rest[|payload|..], n + |payload|, i + 1;
      }
      assert data[..n] == data;
      CutAll(ModeOf(start), dynamic, typ, Counters(bytesSent, packetsSent), 0);
      assert cuts == Sizes(payloads);
      return true, n, payloads, rands;
    }

    /** Application data.  In TLS 1.0 with a block cipher the first byte goes in a record of
        its own, which randomizes the IV of the next; `later` is how the connection fails
        at the records after it.
     */
    method Write(p: Prims, data: Octets, random: nat -> Octets, errors: nat -> Option<nat>, later: nat -> Option<nat>)
      returns (ok: bool, n: nat, ghost payloads: seq<Octets>, ghost rands: seq<Octets>)
      requires Valid(p)
      requires forall i :: RandOk(out.View(), random(i))
      modifies this`bytesSent, this`packetsSent, this`wire, this`sized, out, out.number
      ensures n <= |data| && Concat(payloads) == data[..n] && (ok ==> n == |data| && Valid(p))
      ensures Delivered(p, old(out.View()), old(wire), APPLICATION_DATA, VersionBytes(old(out.version)), payloads, rands)
      ensures ok ==>
        Progress(p, old(out.View()), old(wire), APPLICATION_DATA, VersionBytes(old(out.version)), payloads, rands)
      ensures ok ==> SizedSince(sized, old(sized), |old(wire)|)
      ensures n > 0 && old(out.version == TLS10 && out.spec.cipher.Cbc?) && |data| > 1 ==>
        && |payloads[0]| == 1 && (n > 1 ==> |payloads| >= 2)
      ensures ok ==>
        Sizes(payloads) ==
          if old(out.version == TLS10 && out.spec.cipher.Cbc?) && |data| > 1
          then [1] + Cuts(old(ModeOf(out.View())), dynamic, APPLICATION_DATA,
                          Recorded(old(ModeOf(out.View())), dynamic, APPLICATION_DATA, old(Counters(bytesSent, packetsSent)), 1),
                          |data| - 1)
          else Cuts(old(ModeOf(out.View())), dynamic, APPLICATION_DATA, old(Counters(bytesSent, packetsSent)), |data|)
    {
      hide Encrypt, Laws, LawsOf, WriteAll, Concat, RandOk, Usual, VersionBytes, SendOps, Ramped, Cuts, Sizes, Recorded, ModeOf;
      if |data| > 1 && out.version == TLS10 && out.spec.cipher.Cbc? {
        ghost var start, vers := out.View(), VersionBytes(out.version);
        ok, n, payloads, rands := WriteRecords(p, APPLICATION_DATA, data[..1], random, errors);
        FirstByte(payloads, data, n);
        if !ok { return; }
        ghost var qs, ts;
        ghost var sizedBefore, wireBefore := sized, wire;
        forall i ensures RandOk(out.View(), random(i)) { assert RandOk(start, random(i)); }
        var m;
        ok, m, qs, ts := WriteRecords(p, APPLICATION_DATA, data[1..], random, later);
        WritesCompose(p, start, APPLICATION_DATA, vers, payloads, rands, qs, ts);
        RestOfData(payloads, qs, data, m);
        if ok { SinceTrans(sized, sizedBefore, old(sized), |wireBefore|, |old(wire)|); }
        SizesJoin(payloads, qs);
        payloads, rands, n := payloads + qs, rands + ts, 1 + m;
      } else {
        ok, n, payloads, rands := WriteRecords(p, APPLICATION_DATA, data, random, errors);
      }
    }
  }

  /** A record of a sized payload keeps to the ramp, and the state stays as it has to be. */
  lemma EncryptedRamp(p: Prims, h: Half, typ: bv8, vers: Octets, payload: Octets, rand: Octets, dynamic: bool, c: Counters)
    requires HalfOk(h) && RandOk(h, rand) && |vers| == 2 && LawsOf(p, h) && Usual(ModeOf(h))
    requires |payload| <= MaxPayload(ModeOf(h), dynamic, typ, c).0
    requires Encrypt(p, h, typ, vers, payload, rand).Written?
    ensures var w := Encrypt(p, h, typ, vers, payload, rand);
      && HalfOk(w.half) && ModeOf(w.half) == ModeOf(h) && LawsOf(p, w.half) && SameRand(h, w.half)
      && w.half.version == h.version && |w.record| == RecordSize(ModeOf(h), |payload|)
      && (Sized(dynamic, typ, c) ==> |w.record| <= MSS * (c.packetsSent + 1))
  {
    hide Encrypt, Laws, MaxPayload, RecordSize, ModeOf, Usual;
    SizeOf(p, h, typ, vers, payload, rand);
    StaysRand(p, h, typ, vers, payload, rand);
    if Sized(dynamic, typ, c) { RecordFitsSegments(ModeOf(h), typ, c, |payload|); }
  }

  lemma SizesJoin(xs: seq<Octets>, ys: seq<Octets>)
    ensures Sizes(xs + ys) == Sizes(xs) + Sizes(ys)
    ensures |xs| == 1 && |xs[0]| == 1 ==> Sizes(xs + ys) == [1] + Sizes(ys)
  {
  }

  lemma SinceTrans(now: seq<nat>, mid: seq<nat>, start: seq<nat>, later: nat, first: nat)
    requires SizedSince(now, mid, later) && SizedSince(mid, start, first) && first <= later
    ensures SizedSince(now, start, first)
  {
    forall k | |start| <= k < |now| ensures first <= now[k] {
      if k < |mid| { assert now[k] == mid[k]; }
    }
  }

  lemma Something(xs: seq<Octets>, data: Octets)
    requires Concat(xs) == data && data != []
    ensures xs != []
  {
  }

  lemma Counted(m: Mode, dynamic: bool, typ: bv8, c: Counters)
    ensures MaxPayload(m, dynamic, typ, c).1 ==
      if Sized(dynamic, typ, c) then c.(packetsSent := c.packetsSent + 1) else c
  {
  }

  lemma FirstByte(xs: seq<Octets>, data: Octets, n: nat)
    requires |data| > 1 && n <= 1 && Legal(xs) && Concat(xs) == data[..1][..n]
    ensures Concat(xs) == data[..n] && |xs| == n && (n == 1 ==> xs[0] == data[..1])
  {
    AtLeastOneEach(xs);
    if n == 1 {
      Something(xs, data[..1]);
      OneByte(xs, data[..1]);
    }
  }

  lemma RestOfData(xs: seq<Octets>, ys: seq<Octets>, data: Octets, m: nat)
    requires |data| > 1 && Concat(xs) == data[..1] && m <= |data| - 1 && Concat(ys) == data[1..][..m]
    ensures Concat(xs + ys) == data[..1 + m] && (m > 0 ==> ys != [])
  {
    if m > 0 { Something(ys, data[1..][..m]); }
    ConcatConcat(xs, ys);
    assert data[..1] + data[1..][..m] == data[..1 + m];
  }

  lemma OneByte(xs: seq<Octets>, one: Octets)
    requires Legal(xs) && Concat(xs) == one && |one| == 1
    ensures |xs| == 1 && xs[0] == one
  {
    AtLeastOneEach(xs);
    assert xs[1..] == [] && xs[0] + [] == xs[0];
  }

  lemma {:induction false} AtLeastOneEach(xs: seq<Octets>)
    requires Legal(xs)
    ensures |Concat(xs)| >= |xs|
  {
    if xs != [] { AtLeastOneEach(xs[1..]); }
  }

  // ---------------------------------------------------------------- what the peer reads

  /** Legal fragments that were written were legal to write. */
  lemma {:induction false} WrittenWasLegal(p: Prims, w: Half, typ: bv8, vers: Octets, payloads: seq<Octets>, rands: seq<Octets>)
    requires HalfOk(w) && typ != 0 && |vers| == 2 && Legal(payloads) && |payloads| == |rands|
    requires WriteAll(p, w, SendOps(typ, vers, payloads, rands)).Some?
    ensures OpsOk(p, w, SendOps(typ, vers, payloads, rands))
    decreases |payloads|
  {
    hide Encrypt;
    if payloads != [] {
      var ops := SendOps(typ, vers, payloads, rands);
      assert ops[0] == Send(typ, vers, payloads[0], rands[0]);
      assert ops[1..] == SendOps(typ, vers, payloads[1..], rands[1..]);
      WrittenWasLegal(p, WriteOne(p, w, ops[0]).value.0, typ, vers, payloads[1..], rands[1..]);
    }
  }

  /** Main result: a matching reader gets, from the records of a successful write, exactly
      the fragments, each under the content type written.
   */
  lemma WrittenIsRead(p: Prims, w: Half, r: Half, typ: bv8, vers: Octets, payloads: seq<Octets>, rands: seq<Octets>)
    requires Synced(w, r) && LawsOf(p, w) && typ != 0 && |vers| == 2 && Legal(payloads) && |payloads| == |rands|
    requires Number(r.number) + |payloads| < Limit(SEQ_BYTES)
    requires WriteAll(p, w, SendOps(typ, vers, payloads, rands)).Some?
    ensures var ops := SendOps(typ, vers, payloads, rands);
      var (w', records) := WriteAll(p, w, ops).value;
      var got := ReadAll(p, r, ops, records);
      && got.Some? && Synced(w', got.value.0) && |got.value.1| == |payloads|
      && forall i :: 0 <= i < |payloads| ==> got.value.1[i] == Content(typ, payloads[i])
  {
    hide WriteAll, ReadAll, OpsOk, Number, Limit;
    WrittenWasLegal(p, w, typ, vers, payloads, rands);
    StreamsBack(p, w, r, SendOps(typ, vers, payloads, rands));
    SentOps(typ, vers, payloads, rands);
  }

  lemma {:induction false} WriteAllConcat(p: Prims, w: Half, xs: seq<Op>, ys: seq<Op>)
    requires HalfOk(w) && WriteAll(p, w, xs).Some? && HalfOk(WriteAll(p, w, xs).value.0)
    requires WriteAll(p, WriteAll(p, w, xs).value.0, ys).Some?
    ensures var (h, first) := WriteAll(p, w, xs).value;
      var (end, second) := WriteAll(p, h, ys).value;
      WriteAll(p, w, xs + ys) == Some((end, first + second))
    decreases |xs|
  {
    hide WriteOne;
    var (h, first) := WriteAll(p, w, xs).value;
    var (end, second) := WriteAll(p, h, ys).value;
    if xs == [] {
      assert xs + ys == ys && [] + second == second;
    } else {
      var one := WriteOne(p, w, xs[0]).value;
      assert (xs + ys)[1..] == xs[1..] + ys;
      WriteAllConcat(p, one.0, xs[1..], ys);
      assert one.1 + (WriteAll(p, one.0, xs[1..]).value.1 + second) == first + second;
    }
  }

  lemma {:induction false} ConcatConcat(xs: seq<Octets>, ys: seq<Octets>)
    ensures Concat(xs + ys) == Concat(xs) + Concat(ys)
  {
    if xs == [] { assert xs + ys == ys; } else {
      assert (xs + ys)[1..] == xs[1..] + ys;
      ConcatConcat(xs[1..], ys);
    }
  }

  /** Two successive writes are one. */
  lemma WritesCompose(p: Prims, start: Half, typ: bv8, vers: Octets,
                      ps: seq<Octets>, rs: seq<Octets>, qs: seq<Octets>, ts: seq<Octets>)
    requires |ps| == |rs| && |qs| == |ts| && HalfOk(start)
    requires var w := WriteAll(p, start, SendOps(typ, vers, ps, rs));
      w.Some? && HalfOk(w.value.0) && WriteAll(p, w.value.0, SendOps(typ, vers, qs, ts)).Some?
    ensures var (h, first) := WriteAll(p, start, SendOps(typ, vers, ps, rs)).value;
      var (end, second) := WriteAll(p, h, SendOps(typ, vers, qs, ts)).value;
      WriteAll(p, start, SendOps(typ, vers, ps + qs, rs + ts)) == Some((end, first + second))
    ensures Concat(ps + qs) == Concat(ps) + Concat(qs)
  {
    hide WriteAll;
    assert SendOps(typ, vers, ps + qs, rs + ts) == SendOps(typ, vers, ps, rs) + SendOps(typ, vers, qs, ts);
    WriteAllConcat(p, start, SendOps(typ, vers, ps, rs), SendOps(typ, vers, qs, ts));
    ConcatConcat(ps, qs);
  }

  lemma Regroup(data: Octets, n: nat, m: nat)
    requires n + m <= |data|
    ensures data[..n] + data[n..][..m] == data[..n + m] && data[n..][m..] == data[n + m..]
  {
  }

  lemma VersionBytesSize(v: u16)
    ensures |VersionBytes(v)| == 2
  {
  }

  lemma Begins(p: Prims, start: Half, typ: bv8, vers: Octets)
    requires HalfOk(start)
    ensures WriteAll(p, start, SendOps(typ, vers, [], [])) == Some((start, []))
    ensures SameRand(start, start) && Concat([]) == []
  {
  }

  /** Two states draw IVs of the same size. */
  ghost predicate SameRand(a: Half, b: Half) {
    forall rand :: RandOk(a, rand) ==> RandOk(b, rand)
  }

  lemma StaysRand(p: Prims, h: Half, typ: bv8, vers: Octets, payload: Octets, rand: Octets)
    requires HalfOk(h) && RandOk(h, rand) && |vers| == 2
    requires Encrypt(p, h, typ, vers, payload, rand).Written?
    ensures SameRand(h, Encrypt(p, h, typ, vers, payload, rand).half)
    ensures Encrypt(p, h, typ, vers, payload, rand).half.version == h.version
  {
    hide Increment, Pad, CbcEncryptAll, LastBlock, Header, XorStream, MacOf, Masked;
  }

  lemma Extends(p: Prims, start: Half, typ: bv8, vers: Octets, payloads: seq<Octets>, rands: seq<Octets>,
                payload: Octets, rand: Octets)
    requires |payloads| == |rands| && HalfOk(start) && |vers| == 2
    requires var w := WriteAll(p, start, SendOps(typ, vers, payloads, rands));
      && w.Some? && HalfOk(w.value.0) && RandOk(w.value.0, rand)
      && var e := Encrypt(p, w.value.0, typ, vers, payload, rand);
      && e.Written? && HalfOk(e.half)
    ensures var (h, records) := WriteAll(p, start, SendOps(typ, vers, payloads, rands)).value;
      var e := Encrypt(p, h, typ, vers, payload, rand);
      WriteAll(p, start, SendOps(typ, vers, payloads + [payload], rands + [rand])) == Some((e.half, records + [e.record]))
  {
    hide Encrypt;
    var ops, op := SendOps(typ, vers, payloads, rands), Send(typ, vers, payload, rand);
    assert SendOps(typ, vers, payloads + [payload], rands + [rand]) == ops + [op];
    WriteAllAppend(p, start, ops, op);
  }
}
