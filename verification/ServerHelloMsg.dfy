/** The ServerHello message, which also serves as HelloRetryRequest.  As for ClientHello,
    the extension fields are kept by slot, in the order in which the printer emits them.
 */
module ServerHelloMsg {
  import opened Wire
  import opened ClientHello
  import opened ClientHelloRoundTrip
  import CertificateList

  const TYPE_SERVER_HELLO: byte := 2

  const STATUS := 0
  const TICKET := 1
  const RENEGOTIATION := 2
  const MASTER_SECRET := 3
  const PROTOCOL := 4
  const TIMESTAMPS := 5
  const VERSION := 6
  const SHARE := 7
  const IDENTITY := 8
  const RETRY_COOKIE := 9
  const GROUP := 10
  const POINTS := 11
  const ECH := 12
  const NAME_ACK := 13
  const COUNT := 14

  type Place = k: int | 0 <= k < COUNT

  /** The extension numbers, in slot order; key_share has two forms and hence two slots. */
  const EXTENSIONS: seq<u16> := [5, 35, 0xff01, 23, 16, 18, 43, 51, 41, 44, 51, 11, 0xfe0d, 0]

  datatype Content =
    | Absent
    | Present
    | Vec(bytes: Bytes)
    | Num(n: u16)
    | Share(share: KeyShare)
    | Items(items: seq<Bytes>)

  /** Slots hold values of their own kind; zero numbers and empty vectors are absent where
      the printer tests for them.  An encrypted_client_hello may be present and empty: a
      client tells that from an absent one. */
  predicate Suits(k: Place, c: Content) {
    match c
    case Absent => true
    case Present => k in {STATUS, TICKET, MASTER_SECRET, NAME_ACK}
    case Vec(b) => k in {RENEGOTIATION, ECH} || (k in {PROTOCOL, RETRY_COOKIE, POINTS} && b != [])
    case Num(n) => k == IDENTITY || (k in {VERSION, GROUP} && n != 0)
    case Share(_) => k == SHARE
    case Items(xs) => k == TIMESTAMPS && xs != []
  }

  type Contents = cs: seq<Content> | |cs| == COUNT && forall k :: 0 <= k < COUNT ==> Suits(k, cs[k])
    witness seq(COUNT, _ => Absent)

  datatype Message = Message(
    original: Option<Bytes>, vers: u16, random: Bytes, sessionId: Bytes, cipherSuite: u16, compression: byte,
    slots: Contents)

  // ---------------------------------------------------------------- printer

  /** A key share for group 0 is not sent, nor is an empty encrypted_client_hello. */
  predicate Sends(k: Place, c: Content) {
    c != Absent && !(c.Share? && c.share.group == 0) && !(k == ECH && c == Vec([]))
  }

  function ProtocolBody(p: Bytes): Build { Lp(2, Lp(1, Some(p))) }

  function ContentBody(k: Place, c: Content): Build {
    match c
    case Absent => Some([])
    case Present => Some([])
    case Vec(b) =>
      if k in {RENEGOTIATION, POINTS} then Lp(1, Some(b))
      else if k == PROTOCOL then ProtocolBody(b)
      else if k == RETRY_COOKIE then Lp(2, Some(b))
      else Some(b)
    case Num(n) => U16(n)
    case Share(s) => Cat(U16(s.group), Lp(2, Some(s.data)))
    case Items(xs) => CertificateList.SctBody(xs)
  }

  function SlotRow(m: Message, k: Place): Entry {
    if Sends(k, m.slots[k]) then Emit(EXTENSIONS[k], ContentBody(k, m.slots[k])) else Skip
  }

  function SlotRows(m: Message): (rows: seq<Entry>)
    ensures |rows| == COUNT && forall k :: 0 <= k < COUNT ==> rows[k] == SlotRow(m, k)
  {
    seq(COUNT, k requires 0 <= k < COUNT => SlotRow(m, k))
  }

  function Front(m: Message): Build {
    if |m.random| != 32 then None
    else
      Cat(Cat(Cat(Cat(U16(m.vers), Some(m.random)), Lp(1, Some(m.sessionId))), U16(m.cipherSuite)),
          Some([m.compression]))
  }

  function Marshal(m: Message): Build {
    var exts :- Collect(SlotRows(m));
    var bytes :- EncodeItems(EncodeExt, exts);
    Cat(Some([TYPE_SERVER_HELLO]), Lp(3, Cat(Front(m), ExtBlock(bytes))))
  }

  // ---------------------------------------------------------------- parser

  function AsVec(b: Bytes): Content { if b == [] then Absent else Vec(b) }

  function AsNum(n: u16): Content { if n == 0 then Absent else Num(n) }

  function ParseProtocol(d: Bytes): Option<Content> {
    var list :- Whole(NonEmpty(ReadLp(2, d)));
    var p :- Whole(NonEmpty(ReadLp(1, list)));
    Some(Vec(p))
  }

  function ParseServerShare(d: Bytes): Option<Content> {
    match ReadU16(d)
    case Bad => None
    case Got(group, r) =>
      var data :- Whole(ReadLp(2, r));
      Some(Share(KeyShare(group, data)))
  }

  function ParseContent(k: Place, d: Bytes): (r: Option<Content>)
    ensures r.Some? ==> Suits(k, r.value)
  {
    if k in {STATUS, TICKET, MASTER_SECRET, NAME_ACK} then (if d == [] then Some(Present) else None)
    else if k == RENEGOTIATION then var b :- Whole(ReadLp(1, d)); Some(Vec(b))
    else if k == PROTOCOL then ParseProtocol(d)
    else if k == TIMESTAMPS then
      var xs :- CertificateList.ParseScts(d);
      Some(if xs == [] then Absent else Items(xs))
    else if k in {VERSION, GROUP} then var n :- Whole(ReadU16(d)); Some(AsNum(n))
    else if k == IDENTITY then var n :- Whole(ReadU16(d)); Some(Num(n))
    else if k == SHARE then ParseServerShare(d)
    else if k == RETRY_COOKIE then var b :- Whole(NonEmpty(ReadLp(2, d))); Some(AsVec(b))
    else if k == POINTS then var b :- Whole(NonEmpty(ReadLp(1, d))); Some(AsVec(b))
    else Some(Vec(d))
  }

  /** The slot an extension belongs to: for key_share, its length tells which. */
  function PlaceOf(e: Ext): Option<Place> {
    if e.typ == EXTENSIONS[SHARE] then Some(if |e.body| == 2 then GROUP else SHARE) else Search(e.typ, 0)
  }

  function Search(typ: u16, k: nat): (r: Option<Place>)
    requires k <= COUNT
    ensures r.Some? ==> EXTENSIONS[r.value] == typ
    decreases COUNT - k
  {
    if k == COUNT then None else if EXTENSIONS[k] == typ then Some(k) else Search(typ, k + 1)
  }

  function ApplyOne(m: Message, e: Ext): Option<Message> {
    match PlaceOf(e)
    case None => Some(m)
    case Some(k) =>
      var c :- ParseContent(k, e.body);
      Some(m.(slots := m.slots[k := c]))
  }

  function ApplyEach(m: Message, exts: seq<Ext>): Option<Message>
    decreases |exts|
  {
    if exts == [] then Some(m)
    else
      var m' :- ApplyOne(m, exts[0]);
      ApplyEach(m', exts[1..])
  }

  function NoSlots(): (cs: Contents)
    ensures forall k :: 0 <= k < COUNT ==> cs[k] == Absent
  {
    seq(COUNT, _ => Absent)
  }

  function ParseFront(data: Bytes): Option<(Message, Bytes)> {
    if |data| < 4 then None
    else match ReadU16(data[4..])
      case Bad => None
      case Got(vers, r1) =>
        match ReadN(32, r1)
        case Bad => None
        case Got(random, r2) =>
          match ReadLp(1, r2)
          case Bad => None
          case Got(sessionId, r3) =>
            match ReadU16(r3)
            case Bad => None
            case Got(suite, r4) =>
              if r4 == [] then None
              else Some((Message(Some(data), vers, random, sessionId, suite, r4[0], NoSlots()), r4[1..]))
  }

  function Unmarshal(data: Bytes): Option<Message> {
    var (m, rest) :- ParseFront(data);
    if rest == [] then Some(m)
    else
      var block :- Whole(ReadLp(2, rest));
      var exts :- ParseItems(ReadExt, block);
      if NoRepeats(exts) then ApplyEach(m, exts) else None
  }

  // ---------------------------------------------------------------- slot by slot

  /** The values that the parser does not refuse. */
  ghost predicate ContentOk(c: Content) {
    c.Items? ==> AllValid(CertificateList.SctOk, c.items)
  }

  lemma ProtocolBack(p: Bytes)
    requires ProtocolBody(p).Some? && p != []
    ensures ParseProtocol(ProtocolBody(p).value) == Some(Vec(p))
  {
    WholeLp(1, p);
    WholeLp(2, Lp(1, Some(p)).value);
  }

  lemma NumberBack(n: u16)
    ensures Whole(ReadU16(UInt(2, n))) == Some(n)
  {
    ReadU16OfUInt(n, []);
    assert UInt(2, n) + [] == UInt(2, n);
  }

  lemma ShareBack(s: KeyShare)
    requires |s.data| < Cap(2)
    ensures ParseServerShare(UInt(2, s.group) + (UInt(2, |s.data|) + s.data)) == Some(Share(s))
  {
    ReadU16OfUInt(s.group, UInt(2, |s.data|) + s.data);
    WholeLp(2, s.data);
  }

  lemma VecBack(k: Place, b: Bytes)
    requires Suits(k, Vec(b)) && ContentBody(k, Vec(b)).Some?
    ensures ParseContent(k, ContentBody(k, Vec(b)).value) == Some(Vec(b))
  {
    if k == PROTOCOL { ProtocolBack(b); }
    else if k in {RENEGOTIATION, POINTS} { WholeLp(1, b); }
    else if k == RETRY_COOKIE { WholeLp(2, b); }
  }

  lemma ContentBack(k: Place, c: Content)
    requires Suits(k, c) && Sends(k, c) && ContentBody(k, c).Some?
    ensures ParseContent(k, ContentBody(k, c).value) == if ContentOk(c) then Some(c) else None
  {
    hide CertificateList.ParseScts, CertificateList.SctBody, ParseProtocol, ProtocolBody, ParseServerShare;
    match c
    case Present =>
    case Vec(b) => VecBack(k, b);
    case Num(n) => NumberBack(n);
    case Share(s) => ShareBack(s);
    case Items(xs) => CertificateList.SctsBack(xs);
  }

  lemma {:induction false} SearchFinds(k: Place, from: nat)
    requires from <= k && k != GROUP && k != SHARE
    ensures Search(EXTENSIONS[k], from) == Some(k)
    decreases k - from
  {
    if from < k { SearchFinds(k, from + 1); }
  }

  lemma PlaceIs(k: Place, c: Content)
    requires Suits(k, c) && Sends(k, c) && ContentBody(k, c).Some?
    ensures PlaceOf(Ext(EXTENSIONS[k], ContentBody(k, c).value)) == Some(k)
  {
    if k != SHARE && k != GROUP { SearchFinds(k, 0); }
  }

  // ---------------------------------------------------------------- the whole message

  function SentSlots(m: Message): (cs: Contents)
    ensures forall k :: 0 <= k < COUNT ==> cs[k] == if Sends(k, m.slots[k]) then m.slots[k] else Absent
  {
    seq(COUNT, k requires 0 <= k < COUNT => if Sends(k, m.slots[k]) then m.slots[k] else Absent)
  }

  function Canonical(m: Message, wire: Bytes): Message { m.(original := Some(wire), slots := SentSlots(m)) }

  function SlotsBelow(m: Message, k: nat): (cs: Contents)
    requires k <= COUNT
    ensures forall j :: 0 <= j < COUNT ==> cs[j] == if j < k then SentSlots(m)[j] else Absent
  {
    var sent := SentSlots(m);
    seq(COUNT, j requires 0 <= j < COUNT => if j < k then sent[j] else Absent)
  }

  function PartOf(m: Message, wire: Bytes, k: nat): Message
    requires k <= COUNT
  {
    m.(original := Some(wire), slots := SlotsBelow(m, k))
  }

  ghost predicate AllContentOk(m: Message, k: nat) {
    forall j :: k <= j < COUNT && Sends(j, m.slots[j]) ==> ContentOk(m.slots[j])
  }

  lemma TakesOne(m: Message, wire: Bytes, k: Place)
    requires Sends(k, m.slots[k]) && ContentBody(k, m.slots[k]).Some?
    ensures ApplyOne(PartOf(m, wire, k), Ext(EXTENSIONS[k], ContentBody(k, m.slots[k]).value)) ==
      if ContentOk(m.slots[k]) then Some(PartOf(m, wire, k + 1)) else None
  {
    hide ContentBody, ParseContent, ContentOk, PlaceOf, Sends;
    PlaceIs(k, m.slots[k]);
    ContentBack(k, m.slots[k]);
    assert SlotsBelow(m, k)[k := m.slots[k]] == SlotsBelow(m, k + 1);
  }

  lemma {:induction false} ApplyRows(m: Message, wire: Bytes, k: nat)
    requires k <= COUNT && Collect(SlotRows(m)[k..]).Some?
    ensures ApplyEach(PartOf(m, wire, k), Collect(SlotRows(m)[k..]).value) ==
      if AllContentOk(m, k) then Some(PartOf(m, wire, COUNT)) else None
    decreases COUNT - k
  {
    hide ContentBody, ContentOk, ApplyOne;
    if k < COUNT {
      var rows := SlotRows(m)[k..];
      var exts := Collect(rows).value;
      assert rows[1..] == SlotRows(m)[k + 1..] && rows[0] == SlotRow(m, k);
      if Sends(k, m.slots[k]) {
        TakesOne(m, wire, k);
        assert exts[1..] == Collect(rows[1..]).value;
        if ContentOk(m.slots[k]) { ApplyRows(m, wire, k + 1); }
      } else {
        assert SlotsBelow(m, k) == SlotsBelow(m, k + 1);
        ApplyRows(m, wire, k + 1);
      }
    }
  }

  predicate BothShares(m: Message) { Sends(SHARE, m.slots[SHARE]) && Sends(GROUP, m.slots[GROUP]) }

  lemma OneShareDistinct(m: Message)
    requires !BothShares(m)
    ensures Distinct(SlotRows(m))
  {
    var rows := SlotRows(m);
    forall i, j | 0 <= i < j < |rows| && rows[i].Emit? && rows[j].Emit? ensures rows[i].typ != rows[j].typ {
      NumbersDiffer(i, j);
    }
  }

  lemma NumbersDiffer(i: Place, j: Place)
    requires i < j && !(i == SHARE && j == GROUP)
    ensures EXTENSIONS[i] != EXTENSIONS[j]
  {
  }

  /** Two rows with one number make a repeated extension. */
  lemma {:induction false} CollectKeeps(rows: seq<Entry>, i: nat) returns (x: nat)
    requires Collect(rows).Some? && i < |rows| && rows[i].Emit?
    ensures x < |Collect(rows).value| && Collect(rows).value[x].typ == rows[i].typ
  {
    if i == 0 { x := 0; } else {
      x := CollectKeeps(rows[1..], i - 1);
      if rows[0].Emit? { x := x + 1; }
    }
  }

  lemma {:induction false} CollectRepeats(rows: seq<Entry>, i: nat, j: nat)
    requires Collect(rows).Some? && i < j < |rows| && rows[i].Emit? && rows[j].Emit? && rows[i].typ == rows[j].typ
    ensures !NoRepeats(Collect(rows).value)
  {
    if i == 0 {
      var x := CollectKeeps(rows[1..], j - 1);
      assert Collect(rows).value[0].typ == Collect(rows).value[x + 1].typ;
    } else {
      CollectRepeats(rows[1..], i - 1, j - 1);
      var all, more := Collect(rows).value, Collect(rows[1..]).value;
      var a, b :| 0 <= a < b < |more| && more[a].typ == more[b].typ;
      var o := if rows[0].Emit? then 1 else 0;
      assert all[a + o] == more[a] && all[b + o] == more[b];
    }
  }

  lemma SharesRepeat(m: Message)
    requires BothShares(m) && Collect(SlotRows(m)).Some?
    ensures !NoRepeats(Collect(SlotRows(m)).value)
  {
    CollectRepeats(SlotRows(m), SHARE, GROUP);
  }

  lemma FrontBack(m: Message, header: Bytes, tail: Bytes)
    requires |header| == 4 && Front(m).Some?
    ensures var wire := header + (Front(m).value + tail);
      ParseFront(wire) == Some((m.(original := Some(wire), slots := NoSlots()), tail))
  {
    var wire := header + (Front(m).value + tail);
    var t4 := [m.compression] + tail;
    var t3 := UInt(2, m.cipherSuite) + t4;
    var t2 := UInt(1, |m.sessionId|) + m.sessionId + t3;
    var t1 := m.random + t2;
    FrontBytes(UInt(2, m.vers), m.random, UInt(1, |m.sessionId|) + m.sessionId, UInt(2, m.cipherSuite), [m.compression], tail);
    hide UInt, ReadN, ReadLp;
    assert wire[4..] == UInt(2, m.vers) + t1;
    ReadU16OfUInt(m.vers, t1);
    ReadNOf(m.random, t2);
    ReadLpOfLp(1, m.sessionId, t3);
    ReadU16OfUInt(m.cipherSuite, t4);
  }

  lemma FrontBytes(a: Bytes, b: Bytes, c: Bytes, d: Bytes, e: Bytes, t: Bytes)
    ensures a + b + c + d + e + t == a + (b + (c + (d + (e + t))))
  {
  }

  /** Main result: a printed ServerHello parses back to what was sent of it, exactly if it
      does not hold both forms of key_share and no timestamp is empty.
   */
  lemma ServerHelloRoundTrip(m: Message)
    requires Marshal(m).Some?
    ensures Unmarshal(Marshal(m).value) ==
      if !BothShares(m) && AllContentOk(m, 0) then Some(Canonical(m, Marshal(m).value)) else None
  {
    var wire, rows := Marshal(m).value, SlotRows(m);
    var exts := Collect(rows).value;
    var bytes := EncodeItems(EncodeExt, exts).value;
    hide ContentBody, ContentOk, BothShares, AllContentOk, Distinct, NoRepeats, Front, ParseFront, EncodeExt, ReadExt,
      Collect, ApplyEach, EncodeItems, ParseItems, UInt;
    var tail := ExtBlock(bytes).value;
    assert wire == wire[..4] + (Front(m).value + tail);
    FrontBack(m, wire[..4], tail);
    assert rows[0..] == rows;
    assert SlotsBelow(m, 0) == NoSlots() && SlotsBelow(m, COUNT) == SentSlots(m);
    ApplyRows(m, wire, 0);
    if BothShares(m) { SharesRepeat(m); } else {
      OneShareDistinct(m);
      CollectNoRepeats(rows);
    }
    ExtsBack(exts);
    NothingSent(m, wire);
    if bytes != [] { WholeLp(2, bytes); }
  }

  lemma ExtsBack(exts: seq<Ext>)
    requires EncodeItems(EncodeExt, exts).Some?
    ensures ParseItems(ReadExt, EncodeItems(EncodeExt, exts).value) == Some(exts)
    ensures EncodeItems(EncodeExt, exts).value == [] <==> exts == []
  {
    InvertsExt();
    ParseEncodeItems(ReadExt, EncodeExt, AnyItem, exts);
    assert AllValid(AnyItem, exts);
  }

  lemma NothingSent(m: Message, wire: Bytes)
    ensures ApplyEach(PartOf(m, wire, 0), []) == Some(PartOf(m, wire, 0)) && NoRepeats([])
  {
  }
}
