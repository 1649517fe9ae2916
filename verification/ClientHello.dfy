/** The ClientHello message: the printer of handshake_messages.go with its two
    modes (plain, and the compressed form sent inside Encrypted Client Hello), and
    the parser.  The message's extension fields are kept by slot, a slot being the
    place in which the printer emits the field; slots 9 to 17 are the ones that ECH
    may compress.
 */
module ClientHello {
  import opened Wire

  datatype KeyShare = KeyShare(group: u16, data: Bytes)
  datatype PskIdentity = PskIdentity(ticket: Bytes, age: u32)
  datatype Ext = Ext(typ: u16, body: Bytes)

  /** The content of one slot.  `Unset` is a false flag, a nil or an empty vector. */
  datatype Field =
    | Unset
    | Flag
    | Vector(bytes: Bytes)
    | Numbers(numbers: seq<u16>)
    | Protocols(protocols: seq<Bytes>)
    | Shares(shares: seq<KeyShare>)
    | Psk(identities: seq<PskIdentity>, binders: seq<Bytes>)

  const SERVER_NAME := 0
  const SUPPORTED_POINTS := 1
  const SESSION_TICKET := 2
  const RENEGOTIATION_INFO := 3
  const EXTENDED_MASTER_SECRET := 4
  const SCT := 5
  const EARLY_DATA := 6
  const QUIC_TRANSPORT_PARAMETERS := 7
  const ENCRYPTED_CLIENT_HELLO := 8
  const STATUS_REQUEST := 9
  const SUPPORTED_CURVES := 10
  const SIGNATURE_ALGORITHMS := 11
  const SIGNATURE_ALGORITHMS_CERT := 12
  const ALPN := 13
  const SUPPORTED_VERSIONS := 14
  const COOKIE := 15
  const KEY_SHARE := 16
  const PSK_MODES := 17
  const PRE_SHARED_KEY := 18
  const SLOTS := 19

  type Slot = k: int | 0 <= k < SLOTS

  /** The extension numbers, in slot order. */
  const NUMBERS: seq<u16> :=
    [0, 11, 35, 0xff01, 23, 18, 42, 57, 0xfe0d, 5, 10, 13, 50, 16, 43, 44, 51, 45, 41]

  function TypeOf(k: Slot): u16 { NUMBERS[k] }

  const EXT_ECH: u16 := 0xfe0d
  const EXT_ECH_OUTER: u16 := 0xfd00
  const TYPE_CLIENT_HELLO: byte := 1
  const STATUS_TYPE_OCSP: byte := 1
  const SCSV_RENEGOTIATION: u16 := 0x00ff
  const INNER_MARK: Field := Vector([1])
  const DOT: byte := 46

  /** The slots that the inner hello leaves to the outer one. */
  predicate Compressed(k: Slot) { STATUS_REQUEST <= k <= PSK_MODES }

  /** The slots that only TLS 1.2 and older use; the inner hello never sends them. */
  predicate Legacy(k: Slot) { SUPPORTED_POINTS <= k <= EXTENDED_MASTER_SECRET }

  /** Slots hold values of their own kind; a set vector is non-empty wherever the
      printer tests its length rather than its presence. */
  predicate Fits(k: Slot, f: Field) {
    match f
    case Unset => true
    case Flag => k in {EXTENDED_MASTER_SECRET, SCT, EARLY_DATA, STATUS_REQUEST}
    case Vector(b) =>
      || k in {SESSION_TICKET, RENEGOTIATION_INFO, QUIC_TRANSPORT_PARAMETERS}
      || (k in {SERVER_NAME, SUPPORTED_POINTS, ENCRYPTED_CLIENT_HELLO, COOKIE, PSK_MODES} && b != [])
    case Numbers(xs) =>
      k in {SUPPORTED_CURVES, SIGNATURE_ALGORITHMS, SIGNATURE_ALGORITHMS_CERT, SUPPORTED_VERSIONS} && xs != []
    case Protocols(ps) => k == ALPN && ps != []
    case Shares(s) => k == KEY_SHARE && s != []
    case Psk(ids, _) => k == PRE_SHARED_KEY && ids != []
  }

  predicate WellTyped(fields: seq<Field>) {
    |fields| == SLOTS && forall k :: 0 <= k < SLOTS ==> Fits(k, fields[k])
  }

  const NO_FIELDS: seq<Field> := seq(SLOTS, _ => Unset)

  type Fields = fs: seq<Field> | WellTyped(fs) witness NO_FIELDS

  datatype Hello = Hello(
    original: Option<Bytes>,
    vers: u16,
    random: Bytes,
    sessionId: Bytes,
    cipherSuites: seq<u16>,
    compressionMethods: Bytes,
    fields: Fields,
    extensions: seq<u16>)
  {
    function NumbersAt(k: Slot): seq<u16> {
      if fields[k].Numbers? then fields[k].numbers else []
    }

    function VectorAt(k: Slot): Bytes {
      if fields[k].Vector? then fields[k].bytes else []
    }

    function KeyShares(): seq<KeyShare> {
      if fields[KEY_SHARE].Shares? then fields[KEY_SHARE].shares else []
    }

    function PskIdentities(): seq<PskIdentity> {
      if fields[PRE_SHARED_KEY].Psk? then fields[PRE_SHARED_KEY].identities else []
    }

    function PskBinders(): seq<Bytes> {
      if fields[PRE_SHARED_KEY].Psk? then fields[PRE_SHARED_KEY].binders else []
    }

    predicate SecureRenegotiationSupported() {
      fields[RENEGOTIATION_INFO] != Unset || SCSV_RENEGOTIATION in cipherSuites
    }
  }

  // ---------------------------------------------------------------- printer

  /** Is slot `k` written out with its own body, in the given mode? */
  predicate Present(m: Hello, inner: bool, k: Slot) {
    && m.fields[k] != Unset
    && (Legacy(k) || Compressed(k) ==> !inner)
    && (k == PRE_SHARED_KEY ==> inner || m.fields[ENCRYPTED_CLIENT_HELLO] in {Unset, INNER_MARK})
  }

  function EncodeProto(p: Bytes): Build { Lp(1, Some(p)) }

  function EncodeShare(ks: KeyShare): Build { Cat(U16(ks.group), Lp(2, Some(ks.data))) }

  function EncodeIdentity(p: PskIdentity): Build { Cat(Lp(2, Some(p.ticket)), U32(p.age)) }

  function EncodeExt(e: Ext): Build { Cat(U16(e.typ), Lp(2, Some(e.body))) }

  function Binders(binders: seq<Bytes>): Build { Lp(2, EncodeItems(EncodeProto, binders)) }

  function Identities(ids: seq<PskIdentity>): Build { Lp(2, EncodeItems(EncodeIdentity, ids)) }

  function U16s(w: Width, xs: seq<u16>): Build { Lp(w, EncodeItems(U16, xs)) }

  /** The extension_data that a slot's value is printed as. */
  function Body(k: Slot, f: Field): Build {
    match f
    case Unset => Some([])
    case Flag => Some(if k == STATUS_REQUEST then [STATUS_TYPE_OCSP, 0, 0, 0, 0] else [])
    case Vector(b) =>
      if k == SERVER_NAME then Lp(2, Cat(Some([0]), Lp(2, Some(b))))
      else if k in {SUPPORTED_POINTS, RENEGOTIATION_INFO, PSK_MODES} then Lp(1, Some(b))
      else if k == COOKIE then Lp(2, Some(b))
      else Some(b)
    case Numbers(xs) => U16s(if k == SUPPORTED_VERSIONS then 1 else 2, xs)
    case Protocols(ps) => Lp(2, EncodeItems(EncodeProto, ps))
    case Shares(ss) => Lp(2, EncodeItems(EncodeShare, ss))
    case Psk(ids, binders) => Cat(Identities(ids), Binders(binders))
  }

  /** What one slot contributes: nothing, or an extension number with its body. */
  datatype Entry = Skip | Emit(typ: u16, body: Build)

  function Row(m: Hello, inner: bool, k: Slot): Entry {
    if Present(m, inner, k) then Emit(TypeOf(k), Body(k, m.fields[k])) else Skip
  }

  function Rows(m: Hello, inner: bool): (rows: seq<Entry>)
    ensures |rows| == SLOTS && forall k :: 0 <= k < SLOTS ==> rows[k] == Row(m, inner, k)
  {
    seq(SLOTS, k requires 0 <= k < SLOTS => Row(m, inner, k))
  }

  /** The extensions of a run of slots, in order. */
  function Collect(rows: seq<Entry>): Option<seq<Ext>> {
    if rows == [] then Some([])
    else if rows[0].Skip? then Collect(rows[1..])
    else
      var body :- rows[0].body;
      var more :- Collect(rows[1..]);
      Some([Ext(rows[0].typ, body)] + more)
  }

  /** The extension numbers that a run of slots would write. */
  function TypesOf(rows: seq<Entry>): seq<u16> {
    if rows == [] then []
    else if rows[0].Skip? then TypesOf(rows[1..])
    else [rows[0].typ] + TypesOf(rows[1..])
  }

  /** The compressible slots of a hello, as the plain mode writes them. */
  function CompressedRows(m: Hello): seq<Entry> { Rows(m, false)[STATUS_REQUEST..PRE_SHARED_KEY] }

  /** The ech_outer_extensions extension: the numbers left to the outer hello. */
  function OuterBlock(m: Hello): Option<seq<Ext>> {
    var types := TypesOf(CompressedRows(m));
    if types == [] then Some([])
    else
      var body :- U16s(1, types);
      Some([Ext(EXT_ECH_OUTER, body)])
  }

  /** All extensions of the message in the given mode. */
  function AllExts(m: Hello, inner: bool): Option<seq<Ext>> {
    var before :- Collect(Rows(m, inner)[..PRE_SHARED_KEY]);
    var block :- if inner then OuterBlock(m) else Some([]);
    var psk :- Collect(Rows(m, inner)[PRE_SHARED_KEY..]);
    Some(before + block + psk)
  }

  /** Everything in front of the extensions, without the four-byte header. */
  function FixedPart(m: Hello, inner: bool): Build {
    if |m.random| != 32 then None
    else
      Cat(Cat(Cat(Cat(U16(m.vers), Some(m.random)),
                  Lp(1, Some(if inner then [] else m.sessionId))),
              U16s(2, m.cipherSuites)),
          Lp(1, Some(m.compressionMethods)))
  }

  function ExtBlock(exts: Bytes): Build {
    if exts == [] then Some([]) else Lp(2, Some(exts))
  }

  /** The message body: what follows the type and the 24-bit length. */
  function MarshalBody(m: Hello, inner: bool): Build {
    var exts :- AllExts(m, inner);
    var bytes :- EncodeItems(EncodeExt, exts);
    Cat(FixedPart(m, inner), ExtBlock(bytes))
  }

  function Marshal(m: Hello, inner: bool): (r: Build)
    ensures r.Some? ==> |r.value| >= 4
  {
    Cat(Some([TYPE_CLIENT_HELLO]), Lp(3, MarshalBody(m, inner)))
  }

  // ---------------------------------------------------------------- parser

  function NonEmpty(p: Parsed<Bytes>): Parsed<Bytes> {
    if p.Got? && p.value != [] then p else Bad
  }

  function ReadProto(s: Bytes): Parsed<Bytes> { NonEmpty(ReadLp(1, s)) }

  function ReadShare(s: Bytes): Parsed<KeyShare> {
    match ReadU16(s)
    case Bad => Bad
    case Got(group, r) =>
      match NonEmpty(ReadLp(2, r))
      case Bad => Bad
      case Got(data, rest) => Got(KeyShare(group, data), rest)
  }

  function ReadIdentity(s: Bytes): Parsed<PskIdentity> {
    match NonEmpty(ReadLp(2, s))
    case Bad => Bad
    case Got(ticket, r) =>
      match ReadU32(r)
      case Bad => Bad
      case Got(age, rest) => Got(PskIdentity(ticket, age), rest)
  }

  /** One entry of the server_name list: a name type and a non-empty name. */
  function ReadName(s: Bytes): Parsed<(byte, Bytes)> {
    if s == [] then Bad
    else match NonEmpty(ReadLp(2, s[1..]))
      case Bad => Bad
      case Got(name, rest) => Got((s[0], name), rest)
  }

  function ReadExt(s: Bytes): Parsed<Ext> {
    match ReadU16(s)
    case Bad => Bad
    case Got(typ, r) =>
      match ReadLp(2, r)
      case Bad => Bad
      case Got(body, rest) => Got(Ext(typ, body), rest)
  }

  /** The value of a reader that must consume everything. */
  function Whole<T>(p: Parsed<T>): Option<T> {
    if p.Got? && p.rest == [] then Some(p.value) else None
  }

  /** Takes the one host_name out of the list; a second one, or a final dot, is refused. */
  function PickName(name: Bytes, names: seq<(byte, Bytes)>): Option<Bytes>
    decreases |names|
  {
    if names == [] then Some(name)
    else if names[0].0 != 0 then PickName(name, names[1..])
    else if name != [] || (names[0].1 != [] && names[0].1[|names[0].1| - 1] == DOT) then None
    else PickName(names[0].1, names[1..])
  }

  function AsVector(b: Bytes): Field { if b == [] then Unset else Vector(b) }

  function ParseServerName(d: Bytes): Option<Field> {
    var list :- Whole(NonEmpty(ReadLp(2, d)));
    var names :- ParseItems(ReadName, list);
    var name :- PickName([], names);
    Some(AsVector(name))
  }

  function ParseNumbers(w: Width, d: Bytes): Option<Field> {
    var list :- Whole(NonEmpty(ReadLp(w, d)));
    var xs :- ParseItems(ReadU16, list);
    Some(if xs == [] then Unset else Numbers(xs))
  }

  function ParseProtocols(d: Bytes): Option<Field> {
    var list :- Whole(NonEmpty(ReadLp(2, d)));
    var ps :- ParseItems(ReadProto, list);
    Some(if ps == [] then Unset else Protocols(ps))
  }

  function ParseShares(d: Bytes): Option<Field> {
    var list :- Whole(ReadLp(2, d));
    var ss :- ParseItems(ReadShare, list);
    Some(if ss == [] then Unset else Shares(ss))
  }

  /** status_request: a status type and two ignored vectors. */
  function ParseStatus(d: Bytes): Option<Field> {
    if d == [] then None
    else match ReadLp(2, d[1..])
      case Bad => None
      case Got(_, r) =>
        var _ :- Whole(ReadLp(2, r));
        Some(if d[0] == STATUS_TYPE_OCSP then Flag else Unset)
  }

  function ParsePsk(d: Bytes): Option<Field> {
    match NonEmpty(ReadLp(2, d))
    case Bad => None
    case Got(ids, r) =>
      var list :- Whole(NonEmpty(ReadLp(2, r)));
      var identities :- ParseItems(ReadIdentity, ids);
      var binders :- ParseItems(ReadProto, list);
      Some(if identities == [] then Unset else Psk(identities, binders))
  }

  /** The value that an extension body sets its slot to; `last` tells whether this is
      the message's final extension. */
  function ParseField(k: Slot, d: Bytes, last: bool): (r: Option<Field>)
    ensures r.Some? ==> Fits(k, r.value)
  {
    if k in {SESSION_TICKET, QUIC_TRANSPORT_PARAMETERS} then Some(Vector(d))
    else if k in {EXTENDED_MASTER_SECRET, SCT, EARLY_DATA} then (if d == [] then Some(Flag) else None)
    else if k == ENCRYPTED_CLIENT_HELLO then Some(AsVector(d))
    else if k in {SUPPORTED_POINTS, RENEGOTIATION_INFO, COOKIE, PSK_MODES} then ParseVector(k, d)
    else ParseStructured(k, d, last)
  }

  /** The extensions that are one vector. */
  function ParseVector(k: Slot, d: Bytes): (r: Option<Field>)
    requires k in {SUPPORTED_POINTS, RENEGOTIATION_INFO, COOKIE, PSK_MODES}
    ensures r.Some? ==> Fits(k, r.value)
  {
    if k == RENEGOTIATION_INFO then var v :- Whole(ReadLp(1, d)); Some(Vector(v))
    else if k == PSK_MODES then var v :- Whole(ReadLp(1, d)); Some(AsVector(v))
    else var v :- Whole(NonEmpty(ReadLp(if k == COOKIE then 2 else 1, d))); Some(AsVector(v))
  }

  /** The extensions with an inner structure. */
  function ParseStructured(k: Slot, d: Bytes, last: bool): (r: Option<Field>)
    requires k in {SERVER_NAME, STATUS_REQUEST, ALPN, KEY_SHARE, PRE_SHARED_KEY,
                   SUPPORTED_CURVES, SIGNATURE_ALGORITHMS, SIGNATURE_ALGORITHMS_CERT, SUPPORTED_VERSIONS}
    ensures r.Some? ==> Fits(k, r.value)
  {
    if k == SERVER_NAME then ParseServerName(d)
    else if k == STATUS_REQUEST then ParseStatus(d)
    else if k == ALPN then ParseProtocols(d)
    else if k == KEY_SHARE then ParseShares(d)
    else if k == PRE_SHARED_KEY then (if last then ParsePsk(d) else None)
    else ParseNumbers(if k == SUPPORTED_VERSIONS then 1 else 2, d)
  }

  /** The slot of an extension number, if the parser knows it. */
  function SlotFor(typ: u16): (r: Option<Slot>)
    ensures r.Some? ==> TypeOf(r.value) == typ
    ensures r.None? ==> typ !in NUMBERS
  {
    FindNumber(typ, 0)
  }

  function FindNumber(typ: u16, k: nat): (r: Option<Slot>)
    requires k <= SLOTS
    ensures r.Some? ==> TypeOf(r.value) == typ
    ensures r.None? ==> typ !in NUMBERS[k..]
    decreases SLOTS - k
  {
    if k == SLOTS then None else if NUMBERS[k] == typ then Some(k) else FindNumber(typ, k + 1)
  }

  /** The effect of one extension on the message under construction: its number is
      recorded; a known one also sets its slot.
   */
  function ApplyExt(h: Hello, e: Ext, last: bool): Option<Hello> {
    var h' := h.(extensions := h.extensions + [e.typ]);
    match SlotFor(e.typ)
    case None => Some(h')
    case Some(k) =>
      var f :- ParseField(k, e.body, last);
      Some(h'.(fields := h.fields[k := f]))
  }

  function ApplyAll(h: Hello, exts: seq<Ext>): Option<Hello>
    decreases |exts|
  {
    if exts == [] then Some(h)
    else
      var h' :- ApplyExt(h, exts[0], |exts| == 1);
      ApplyAll(h', exts[1..])
  }

  predicate NoRepeats(exts: seq<Ext>) {
    forall i, j :: 0 <= i < j < |exts| ==> exts[i].typ != exts[j].typ
  }

  /** The fixed fields and the bytes after them. */
  function ParseFixed(data: Bytes): Option<(Hello, Bytes)> {
    if |data| < 4 then None
    else match ReadU16(data[4..])
      case Bad => None
      case Got(vers, r1) =>
        match ReadN(32, r1)
        case Bad => None
        case Got(random, r2) =>
          match ReadLp(1, r2)
          case Bad => None
          case Got(sessionId, r3) =>
            match ReadLp(2, r3)
            case Bad => None
            case Got(suiteBytes, r4) =>
              var suites :- ParseItems(ReadU16, suiteBytes);
              match ReadLp(1, r4)
              case Bad => None
              case Got(compression, r5) =>
                Some((Hello(Some(data), vers, random, sessionId, suites, compression, NO_FIELDS, []), r5))
  }

  /** What the parser computes: split into extensions, refuse repeats, then apply them in turn. */
  function Unmarshal(data: Bytes): Option<Hello> {
    var (h, rest) :- ParseFixed(data);
    if rest == [] then Some(h)
    else
      var extBytes :- Whole(ReadLp(2, rest));
      var exts :- ParseItems(ReadExt, extBytes);
      if NoRepeats(exts) then ApplyAll(h, exts) else None
  }

  // ---------------------------------------------------------------- the parser's loop

  /** What is still to be computed once `done` has been applied to give `h`. */
  ghost function Remaining(h: Hello, done: seq<Ext>, todo: Bytes): Option<Hello> {
    var more :- ParseItems(ReadExt, todo);
    if NoRepeats(done + more) then ApplyAll(h, more) else None
  }

  /** `seen` records the numbers of the extensions already applied. */
  ghost predicate Records(seen: set<u16>, done: seq<Ext>) {
    && NoRepeats(done)
    && (forall t :: t in seen <==> exists i :: 0 <= i < |done| && done[i].typ == t)
  }

  lemma SplitFirst(h: Hello, done: seq<Ext>, todo: Bytes, seen: set<u16>)
    requires Records(seen, done) && todo != [] && ReadExt(todo).Got?
    ensures var e, more := ReadExt(todo).value, ReadExt(todo).rest;
      Remaining(h, done, todo) ==
        (if e.typ in seen || ApplyExt(h, e, more == []).None? then None
         else Remaining(ApplyExt(h, e, more == []).value, done + [e], more))
    ensures ReadExt(todo).value.typ !in seen ==>
      Records(seen + {ReadExt(todo).value.typ}, done + [ReadExt(todo).value])
  {
    var e, more := ReadExt(todo).value, ReadExt(todo).rest;
    var rest := ParseItems(ReadExt, more);
    if rest.Some? {
      var all := done + ([e] + rest.value);
      assert all == (done + [e]) + rest.value;
      if e.typ in seen {
        var i :| 0 <= i < |done| && done[i].typ == e.typ;
        assert all[i].typ == all[|done|].typ;
      }
      assert ([e] + rest.value)[1..] == rest.value;
    }
    if e.typ !in seen {
      var done' := done + [e];
      forall t ensures t in seen + {e.typ} <==> exists i :: 0 <= i < |done'| && done'[i].typ == t {
        if t in seen { var i :| 0 <= i < |done| && done[i].typ == t; assert done'[i].typ == t; }
        if t == e.typ { assert done'[|done|].typ == t; }
      }
    }
  }

  /** The extension loop as written: one pass that reads an extension, checks it
      against the ones already seen and applies it at once.
   */
  method ApplyLoop(start: Hello, block: Bytes) returns (r: Option<Hello>)
    ensures r == Remaining(start, [], block)
  {
    var h, todo, seen := start, block, {};
    ghost var done: seq<Ext> := [];
    while todo != []
      invariant Records(seen, done)
      invariant Remaining(start, [], block) == Remaining(h, done, todo)
      decreases |todo|
    {
      match ReadExt(todo) {
        case Bad => return None;
        case Got(e, more) =>
          SplitFirst(h, done, todo, seen);
          if e.typ in seen { return None; }
          var next := ApplyExt(h, e, more == []);
          if next.None? { return None; }
          h, todo, done, seen := next.value, more, done + [e], seen + {e.typ};
      }
    }
    assert done + [] == done;
    return Some(h);
  }

  method UnmarshalMsg(data: Bytes) returns (r: Option<Hello>)
    ensures r == Unmarshal(data)
  {
    var fixed := ParseFixed(data);
    if fixed.None? { return None; }
    var (h, rest) := fixed.value;
    if rest == [] { return Some(h); }
    var block := Whole(ReadLp(2, rest));
    if block.None? { return None; }
    r := ApplyLoop(h, block.value);
    ghost var all := ParseItems(ReadExt, block.value);
    assert all.Some? ==> [] + all.value == all.value;
  }
}
