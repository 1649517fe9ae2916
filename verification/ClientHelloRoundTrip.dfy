/** Parsing inverts printing for the ClientHello, exactly on the hellos whose
    variable-length parts the parser does not refuse.
 */
module ClientHelloRoundTrip {
  import opened Wire
  import opened ClientHello

  // ---------------------------------------------------------------- list elements

  predicate AnyItem<T>(x: T) { true }

  predicate NonEmptyBytes(p: Bytes) { p != [] }

  predicate ShareOk(ks: KeyShare) { ks.data != [] }

  predicate IdentityOk(p: PskIdentity) { p.ticket != [] }

  lemma InvertsU16()
    ensures Inverts(ReadU16, U16, AnyItem)
  {
    forall x: u16, t ensures InvertsAt(ReadU16, U16, AnyItem, x, t) { ReadU16OfUInt(x, t); }
  }

  lemma InvertsProto()
    ensures Inverts(ReadProto, EncodeProto, NonEmptyBytes)
  {
    forall x, t ensures InvertsAt(ReadProto, EncodeProto, NonEmptyBytes, x, t) {
      if EncodeProto(x).Some? { ReadLpOfLp(1, x, t); }
    }
  }

  lemma InvertsShare()
    ensures Inverts(ReadShare, EncodeShare, ShareOk)
  {
    forall x, t ensures InvertsAt(ReadShare, EncodeShare, ShareOk, x, t) {
      if EncodeShare(x).Some? {
        var tail := UInt(2, |x.data|) + x.data + t;
        ReadU16OfUInt(x.group, tail);
        ReadLpOfLp(2, x.data, t);
        assert EncodeShare(x).value + t == UInt(2, x.group) + tail;
      }
    }
  }

  lemma InvertsIdentity()
    ensures Inverts(ReadIdentity, EncodeIdentity, IdentityOk)
  {
    forall x, t ensures InvertsAt(ReadIdentity, EncodeIdentity, IdentityOk, x, t) {
      if EncodeIdentity(x).Some? {
        ReadLpOfLp(2, x.ticket, UInt(4, x.age) + t);
        ReadU32OfUInt(x.age, t);
        assert EncodeIdentity(x).value + t == UInt(2, |x.ticket|) + x.ticket + (UInt(4, x.age) + t);
      }
    }
  }

  lemma InvertsExt()
    ensures Inverts(ReadExt, EncodeExt, AnyItem)
  {
    forall x, t ensures InvertsAt(ReadExt, EncodeExt, AnyItem, x, t) {
      if EncodeExt(x).Some? {
        var tail := UInt(2, |x.body|) + x.body + t;
        ReadU16OfUInt(x.typ, tail);
        ReadLpOfLp(2, x.body, t);
        assert EncodeExt(x).value + t == UInt(2, x.typ) + tail;
      }
    }
  }

  lemma WholeLp(w: Width, b: Bytes)
    requires |b| < Cap(w)
    ensures Lp(w, Some(b)).Some? && ReadLp(w, Lp(w, Some(b)).value) == Got(b, [])
  {
    ReadLpOfLp(w, b, []);
    assert UInt(w, |b|) + b + [] == UInt(w, |b|) + b;
  }

  lemma ParseNumbersOf(w: Width, xs: seq<u16>)
    requires U16s(w, xs).Some? && xs != []
    ensures ParseNumbers(w, U16s(w, xs).value) == Some(Numbers(xs))
  {
    InvertsU16();
    ParseEncodeItems(ReadU16, U16, AnyItem, xs);
    WholeLp(w, EncodeItems(U16, xs).value);
  }

  lemma ParseServerNameOf(name: Bytes, body: Bytes)
    requires name != [] && Lp(2, Cat(Some([0]), Lp(2, Some(name)))) == Some(body)
    ensures ParseServerName(body) == if name[|name| - 1] == DOT then None else Some(Vector(name))
  {
    var entry: Bytes := [0] + (UInt(2, |name|) + name);
    WholeLp(2, entry);
    WholeLp(2, name);
    assert entry[1..] == UInt(2, |name|) + name;
    var names: seq<(byte, Bytes)> := [(0, name)];
    assert ReadName(entry) == Got(names[0], []);
    assert ParseItems(ReadName, []) == Some([]);
    assert ParseItems(ReadName, entry) == Some([names[0]] + []);
    assert [names[0]] + [] == names && names[1..] == [];
    assert PickName([], names) == if name[|name| - 1] == DOT then None else PickName(name, names[1..]);
  }

  lemma ParseProtocolsOf(protos: seq<Bytes>, body: Bytes)
    requires protos != [] && Lp(2, EncodeItems(EncodeProto, protos)) == Some(body)
    ensures ParseProtocols(body) == if AllValid(NonEmptyBytes, protos) then Some(Protocols(protos)) else None
  {
    InvertsProto();
    ParseEncodeItems(ReadProto, EncodeProto, NonEmptyBytes, protos);
    WholeLp(2, EncodeItems(EncodeProto, protos).value);
  }

  lemma ParseSharesOf(shares: seq<KeyShare>, body: Bytes)
    requires shares != [] && Lp(2, EncodeItems(EncodeShare, shares)) == Some(body)
    ensures ParseShares(body) == if AllValid(ShareOk, shares) then Some(Shares(shares)) else None
  {
    InvertsShare();
    ParseEncodeItems(ReadShare, EncodeShare, ShareOk, shares);
    WholeLp(2, EncodeItems(EncodeShare, shares).value);
  }

  lemma ParsePskOf(ids: seq<PskIdentity>, binders: seq<Bytes>)
    requires ids != [] && Identities(ids).Some? && Binders(binders).Some?
    ensures ParsePsk(Identities(ids).value + Binders(binders).value) ==
      if AllValid(IdentityOk, ids) && binders != [] && AllValid(NonEmptyBytes, binders)
      then Some(Psk(ids, binders)) else None
  {
    var a, b := EncodeItems(EncodeIdentity, ids).value, EncodeItems(EncodeProto, binders).value;
    InvertsIdentity();
    ParseEncodeItems(ReadIdentity, EncodeIdentity, IdentityOk, ids);
    InvertsProto();
    ParseEncodeItems(ReadProto, EncodeProto, NonEmptyBytes, binders);
    ReadLpOfLp(2, a, Binders(binders).value);
    WholeLp(2, b);
  }

  lemma ParseStatusOf()
    ensures ParseStatus([STATUS_TYPE_OCSP, 0, 0, 0, 0]) == Some(Flag)
  {
    var d: Bytes := [STATUS_TYPE_OCSP, 0, 0, 0, 0];
    assert UInt(2, 0) == [0, 0];
    ReadLpOfLp(2, [], [0, 0]);
    assert d[1..] == UInt(2, 0) + [] + [0, 0];
    WholeLp(2, []);
  }

  // ---------------------------------------------------------------- slot by slot

  /** The parser accepts what a slot's value is printed as exactly when this holds. */
  ghost predicate FieldOk(k: Slot, f: Field) {
    match f
    case Vector(b) => k == SERVER_NAME && b != [] ==> b[|b| - 1] != DOT
    case Protocols(ps) => AllValid(NonEmptyBytes, ps)
    case Shares(ss) => AllValid(ShareOk, ss)
    case Psk(ids, bs) => AllValid(IdentityOk, ids) && bs != [] && AllValid(NonEmptyBytes, bs)
    case _ => true
  }

  lemma ParseVectorOf(k: Slot, b: Bytes, last: bool)
    requires Fits(k, Vector(b)) && Body(k, Vector(b)).Some?
    ensures ParseField(k, Body(k, Vector(b)).value, last) ==
      if FieldOk(k, Vector(b)) then Some(Vector(b)) else None
  {
    if k == SERVER_NAME { ParseServerNameOf(b, Body(k, Vector(b)).value); }
    else if k in {SUPPORTED_POINTS, RENEGOTIATION_INFO, PSK_MODES} { WholeLp(1, b); }
    else if k == COOKIE { WholeLp(2, b); }
  }

  /** Parsing inverts printing, slot by slot. */
  lemma ParseFieldOf(k: Slot, f: Field, last: bool)
    requires f != Unset && Fits(k, f) && Body(k, f).Some? && (k == PRE_SHARED_KEY ==> last)
    ensures ParseField(k, Body(k, f).value, last) == if FieldOk(k, f) then Some(f) else None
  {
    match f
    case Flag => ParseStatusOf();
    case Vector(b) => ParseVectorOf(k, b, last);
    case Numbers(xs) => ParseNumbersOf(if k == SUPPORTED_VERSIONS then 1 else 2, xs);
    case Protocols(ps) => ParseProtocolsOf(ps, Body(k, f).value);
    case Shares(ss) => ParseSharesOf(ss, Body(k, f).value);
    case Psk(ids, bs) => ParsePskOf(ids, bs);
  }

  lemma {:induction false} FindNumberOf(k: Slot, from: nat)
    requires from <= k
    ensures FindNumber(TypeOf(k), from) == Some(k)
    decreases k - from
  {
    TypeOfInjective(from, k);
    if from < k { FindNumberOf(k, from + 1); }
  }

  lemma TypeOfInjective(j: Slot, k: Slot)
    ensures TypeOf(j) == TypeOf(k) ==> j == k
  {
  }

  // ---------------------------------------------------------------- the whole message

  /** The fields that the plain mode sends: all of them, except that a pre_shared_key
      is left out of a hello that carries an outer ECH payload. */
  function Sent(m: Hello): (fs: Fields)
    ensures forall k :: 0 <= k < SLOTS ==> fs[k] == if Present(m, false, k) then m.fields[k] else Unset
  {
    seq(SLOTS, k requires 0 <= k < SLOTS => if Present(m, false, k) then m.fields[k] else Unset)
  }

  /** What a parsed copy of `m` holds. */
  function Canonical(m: Hello, wire: Bytes): Hello {
    m.(original := Some(wire), fields := Sent(m), extensions := TypesOf(Rows(m, false)))
  }

  /** The first `k` slots of `fs`, the others unset. */
  function Below(fs: Fields, k: nat): (r: Fields)
    requires k <= SLOTS
    ensures forall j :: 0 <= j < SLOTS ==> r[j] == if j < k then fs[j] else Unset
  {
    seq(SLOTS, j requires 0 <= j < SLOTS => if j < k then fs[j] else Unset)
  }

  /** What a parser holds once it has read the extensions of the slots before `k`. */
  function Partial(m: Hello, wire: Bytes, k: nat): Hello
    requires k <= SLOTS
  {
    m.(original := Some(wire), fields := Below(Sent(m), k), extensions := TypesOf(Rows(m, false)[..k]))
  }

  lemma {:induction false} TypesOfAppend(a: seq<Entry>, b: seq<Entry>)
    ensures TypesOf(a + b) == TypesOf(a) + TypesOf(b)
  {
    if a == [] { assert a + b == b; } else {
      assert (a + b)[1..] == a[1..] + b;
      TypesOfAppend(a[1..], b);
    }
  }

  lemma NextTypes(m: Hello, k: Slot)
    ensures TypesOf(Rows(m, false)[..k + 1]) ==
      TypesOf(Rows(m, false)[..k]) + (if Present(m, false, k) then [TypeOf(k)] else [])
  {
    var rows := Rows(m, false);
    assert rows[..k + 1] == rows[..k] + [rows[k]];
    TypesOfAppend(rows[..k], [rows[k]]);
  }

  /** The parser takes the extension of slot `k` and moves to the next slot. */
  lemma TakesSlot(m: Hello, wire: Bytes, k: Slot, last: bool)
    requires Present(m, false, k) && Body(k, m.fields[k]).Some? && (k == PRE_SHARED_KEY ==> last)
    ensures ApplyExt(Partial(m, wire, k), Ext(TypeOf(k), Body(k, m.fields[k]).value), last) ==
      if FieldOk(k, m.fields[k]) then Some(Partial(m, wire, k + 1)) else None
  {
    NextTypes(m, k);
    FindNumberOf(k, 0);
    ParseFieldOf(k, m.fields[k], last);
    assert Below(Sent(m), k)[k := m.fields[k]] == Below(Sent(m), k + 1);
  }

  lemma SkipsSlot(m: Hello, wire: Bytes, k: Slot)
    requires !Present(m, false, k)
    ensures Partial(m, wire, k) == Partial(m, wire, k + 1)
  {
    NextTypes(m, k);
    assert Below(Sent(m), k) == Below(Sent(m), k + 1);
  }

  ghost predicate AllOk(m: Hello, k: nat) {
    forall j :: k <= j < SLOTS && Present(m, false, j) ==> FieldOk(j, m.fields[j])
  }

  lemma {:induction false} ApplySlots(m: Hello, wire: Bytes, k: nat)
    requires k <= SLOTS && Collect(Rows(m, false)[k..]).Some?
    ensures ApplyAll(Partial(m, wire, k), Collect(Rows(m, false)[k..]).value) ==
      if AllOk(m, k) then Some(Partial(m, wire, SLOTS)) else None
    decreases SLOTS - k
  {
    hide Body, ApplyExt, FieldOk;
    if k < SLOTS {
      var rows := Rows(m, false)[k..];
      var exts := Collect(rows).value;
      assert rows[1..] == Rows(m, false)[k + 1..] && rows[0] == Row(m, false, k);
      if Present(m, false, k) {
        if k == PRE_SHARED_KEY { assert rows[1..] == []; }
        TakesSlot(m, wire, k, |exts| == 1);
        assert exts[1..] == Collect(rows[1..]).value;
        if FieldOk(k, m.fields[k]) { ApplySlots(m, wire, k + 1); }
      } else {
        SkipsSlot(m, wire, k);
        ApplySlots(m, wire, k + 1);
      }
    }
  }

  predicate Distinct(rows: seq<Entry>) {
    forall i, j :: 0 <= i < j < |rows| && rows[i].Emit? && rows[j].Emit? ==> rows[i].typ != rows[j].typ
  }

  lemma {:induction false} CollectTypes(rows: seq<Entry>)
    requires Collect(rows).Some?
    ensures var exts := Collect(rows).value;
      forall i :: 0 <= i < |exts| ==> exists k :: 0 <= k < |rows| && rows[k] == Emit(exts[i].typ, Some(exts[i].body))
  {
    if rows != [] {
      CollectTypes(rows[1..]);
      var exts, more := Collect(rows).value, Collect(rows[1..]).value;
      forall i | 0 <= i < |exts|
        ensures exists k :: 0 <= k < |rows| && rows[k] == Emit(exts[i].typ, Some(exts[i].body))
      {
        if rows[0].Emit? && i == 0 {
          assert rows[0] == Emit(exts[0].typ, Some(exts[0].body));
        } else {
          var j := if rows[0].Emit? then i - 1 else i;
          assert exts[i] == more[j];
          var k :| 0 <= k < |rows[1..]| && rows[1..][k] == Emit(more[j].typ, Some(more[j].body));
          assert rows[k + 1] == rows[1..][k];
        }
      }
    }
  }

  lemma {:induction false} CollectNoRepeats(rows: seq<Entry>)
    requires Collect(rows).Some? && Distinct(rows)
    ensures NoRepeats(Collect(rows).value)
  {
    if rows != [] {
      assert Distinct(rows[1..]);
      CollectNoRepeats(rows[1..]);
      CollectTypes(rows[1..]);
      var exts, more := Collect(rows).value, Collect(rows[1..]).value;
      if rows[0].Emit? {
        forall j | 0 < j < |exts| ensures exts[0].typ != exts[j].typ {
          var k :| 0 <= k < |rows[1..]| && rows[1..][k] == Emit(more[j - 1].typ, Some(more[j - 1].body));
          assert rows[k + 1] == rows[1..][k];
        }
      }
    }
  }

  /** Slots carry distinct numbers, so a printed hello never repeats an extension. */
  lemma RowsDistinct(m: Hello, inner: bool)
    ensures Distinct(Rows(m, inner))
  {
    var rows := Rows(m, inner);
    forall i, j | 0 <= i < j < |rows| && rows[i].Emit? && rows[j].Emit? ensures rows[i].typ != rows[j].typ {
      TypeOfInjective(i, j);
    }
  }

  lemma {:induction false} CollectAppend(a: seq<Entry>, b: seq<Entry>)
    ensures Collect(a + b) ==
      if Collect(a).None? || Collect(b).None? then None else Some(Collect(a).value + Collect(b).value)
  {
    if a == [] {
      assert a + b == b;
      assert Collect(b).Some? ==> [] + Collect(b).value == Collect(b).value;
    } else {
      assert (a + b)[1..] == a[1..] + b;
      CollectAppend(a[1..], b);
      if a[0].Emit? && a[0].body.Some? && Collect(a[1..]).Some? && Collect(b).Some? {
        var e := [Ext(a[0].typ, a[0].body.value)];
        assert e + (Collect(a[1..]).value + Collect(b).value) == (e + Collect(a[1..]).value) + Collect(b).value;
      }
    }
  }

  lemma PlainExts(m: Hello)
    ensures AllExts(m, false) == Collect(Rows(m, false))
  {
    var rows := Rows(m, false);
    CollectAppend(rows[..PRE_SHARED_KEY], rows[PRE_SHARED_KEY..]);
    assert rows == rows[..PRE_SHARED_KEY] + rows[PRE_SHARED_KEY..];
    var a, b := Collect(rows[..PRE_SHARED_KEY]), Collect(rows[PRE_SHARED_KEY..]);
    if a.Some? && b.Some? { assert a.value + [] + b.value == a.value + b.value; }
  }

  /** The fixed part in front of any tail parses back to the fields it was printed from. */
  lemma ParseFixedOf(m: Hello, header: Bytes, tail: Bytes)
    requires |header| == 4 && FixedPart(m, false).Some?
    ensures var wire := header + (FixedPart(m, false).value + tail);
      ParseFixed(wire) == Some((m.(original := Some(wire), fields := NO_FIELDS, extensions := []), tail))
  {
    var wire := header + (FixedPart(m, false).value + tail);
    var suites := EncodeItems(U16, m.cipherSuites).value;
    var t4 := UInt(1, |m.compressionMethods|) + m.compressionMethods + tail;
    var t3 := UInt(2, |suites|) + suites + t4;
    var t2 := UInt(1, |m.sessionId|) + m.sessionId + t3;
    var t1 := m.random + t2;
    assert wire[4..] == UInt(2, m.vers) + t1;
    ReadU16OfUInt(m.vers, t1);
    ReadNOf(m.random, t2);
    ReadLpOfLp(1, m.sessionId, t3);
    ReadLpOfLp(2, suites, t4);
    ReadLpOfLp(1, m.compressionMethods, tail);
    InvertsU16();
    ParseEncodeItems(ReadU16, U16, AnyItem, m.cipherSuites);
  }

  /** The hellos the parser accepts once printed. */
  ghost predicate Parseable(m: Hello) { AllOk(m, 0) }

  /** Main result: printing then parsing gives back the message, exactly for the
      parseable hellos; every other printed hello is refused.
   */
  lemma RoundTrip(m: Hello)
    requires Marshal(m, false).Some?
    ensures Unmarshal(Marshal(m, false).value) ==
      if Parseable(m) then Some(Canonical(m, Marshal(m, false).value)) else None
  {
    PlainExts(m);
    var wire := Marshal(m, false).value;
    var rows := Rows(m, false);
    var exts := Collect(rows).value;
    var bytes := EncodeItems(EncodeExt, exts).value;
    var tail := ExtBlock(bytes).value;
    assert wire == wire[..4] + (FixedPart(m, false).value + tail);
    ParseFixedOf(m, wire[..4], tail);
    assert rows[0..] == rows && rows[..SLOTS] == rows && rows[..0] == [];
    assert Below(Sent(m), 0) == NO_FIELDS && Below(Sent(m), SLOTS) == Sent(m);
    ApplySlots(m, wire, 0);
    RowsDistinct(m, false);
    CollectNoRepeats(rows);
    InvertsExt();
    ParseEncodeItems(ReadExt, EncodeExt, AnyItem, exts);
    if bytes != [] { WholeLp(2, bytes); }
  }
}
