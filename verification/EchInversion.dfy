/** Compressing the inner hello and rebuilding it against the outer one are exact inverses. */
module EchInversion {
  import opened Wire
  import opened ClientHello
  import opened ClientHelloRoundTrip
  import opened Ech

  // ---------------------------------------------------------------- padding

  /** The encoding is the printed hello without its header and at most 31 zeros, as many as
      fill 32-byte blocks together with the padding that would bring the server name to the
      maximum length, or without a name, with the maximum and nine bytes more.  That padding
      itself is not added: the encoding alone fills blocks exactly when it would.
   */
  lemma EncodedLength(inner: Hello, maxNameLength: nat)
    requires EncodeInner(inner, maxNameLength).Some?
    ensures Marshal(inner, true).Some?
    ensures var (full, encoded) := (Marshal(inner, true).value, EncodeInner(inner, maxNameLength).value);
      var name := inner.VectorAt(SERVER_NAME);
      var missing := if name == [] then maxNameLength + 9 else if |name| < maxNameLength then maxNameLength - |name| else 0;
      && |full| - 4 <= |encoded| < |full| - 4 + 32
      && encoded == full[4..] + Zeros(|encoded| - (|full| - 4)) && (|encoded| + missing) % 32 == 0
      && (|encoded| % 32 == 0 <==> missing % 32 == 0)
  {
    hide Marshal, Padded;
    var h := Marshal(inner, true).value[4..];
    PaddedLength(h, NamePadding(inner, maxNameLength));
  }

  lemma PaddedLength(h: Bytes, p: nat)
    ensures var n := |Padded(h, p)|;
      && |h| <= n < |h| + 32 && Padded(h, p) == h + Zeros(n - |h|)
      && (n + p) % 32 == 0 && (n % 32 == 0 <==> p % 32 == 0)
  {
  }

  // ---------------------------------------------------------------- references resolve

  function Types(exts: seq<Ext>): seq<u16> { seq(|exts|, i requires 0 <= i < |exts| => exts[i].typ) }

  /** References to a contiguous run of the outer hello, in order, find that run. */
  lemma {:induction false} RunResolves(outer: seq<Ext>, start: nat, run: seq<Ext>, i: nat)
    requires NoRepeats(outer) && i <= start <= start + |run| <= |outer|
    requires run == outer[start..start + |run|]
    requires forall k :: 0 <= k < |run| ==> run[k].typ != EXT_ECH
    ensures var ps := Positions(Types(run), outer, i);
      ps.Some? && |ps.value| == |run| && forall k :: 0 <= k < |run| ==> ps.value[k] == start + k
    decreases |run|
  {
    if run != [] {
      assert outer[start] == run[0] && Types(run)[0] == run[0].typ;
      var j := Find(outer, i, run[0].typ);
      assert j == Some(start);
      assert Types(run)[1..] == Types(run[1..]);
      assert run[1..] == outer[start + 1..start + 1 + |run[1..]|];
      RunResolvesFromMatch(outer, start, run[1..]);
    }
  }

  /** The cursor rests on the last match, one place before the rest of the run. */
  lemma {:induction false} RunResolvesFromMatch(outer: seq<Ext>, at: nat, run: seq<Ext>)
    requires NoRepeats(outer) && at + 1 + |run| <= |outer|
    requires run == outer[at + 1..at + 1 + |run|]
    requires forall k :: 0 <= k < |run| ==> run[k].typ != EXT_ECH
    ensures var ps := Positions(Types(run), outer, at);
      ps.Some? && |ps.value| == |run| && forall k :: 0 <= k < |run| ==> ps.value[k] == at + 1 + k
    decreases |run|
  {
    if run != [] {
      assert outer[at + 1] == run[0] && Types(run)[0] == run[0].typ;
      assert Find(outer, at, run[0].typ) == Some(at + 1);
      assert Types(run)[1..] == Types(run[1..]);
      assert run[1..] == outer[at + 2..at + 2 + |run[1..]|];
      RunResolvesFromMatch(outer, at + 1, run[1..]);
    }
  }

  // ---------------------------------------------------------------- expanding what was compressed

  lemma {:induction false} PiecesAppend(a: seq<Ext>, b: seq<Ext>, outer: seq<Ext>)
    requires Pieces(a, outer).Some? && Pieces(b, outer).Some?
    ensures Pieces(a + b, outer) == Some(Pieces(a, outer).value + Pieces(b, outer).value)
  {
    if a == [] {
      assert a + b == b && [] + Pieces(b, outer).value == Pieces(b, outer).value;
    } else {
      assert (a + b)[1..] == a[1..] + b;
      PiecesAppend(a[1..], b, outer);
      var p, x, y := [PieceOf(a[0], outer).value], Pieces(a[1..], outer).value, Pieces(b, outer).value;
      assert p + (x + y) == (p + x) + y;
    }
  }

  lemma {:induction false} FlattenAppend(a: seq<Piece>, b: seq<Piece>, outer: seq<Ext>)
    requires forall i :: 0 <= i < |a| ==> InRange(a[i], outer)
    requires forall i :: 0 <= i < |b| ==> InRange(b[i], outer)
    ensures Flatten(a + b, outer) == Flatten(a, outer) + Flatten(b, outer)
  {
    if a == [] { assert a + b == b; } else {
      assert (a + b)[1..] == a[1..] + b;
      FlattenAppend(a[1..], b, outer);
    }
  }

  lemma ExpandAppend(a: seq<Ext>, b: seq<Ext>, outer: seq<Ext>)
    requires Expand(a, outer).Some? && Expand(b, outer).Some?
    ensures Expand(a + b, outer) == Some(Expand(a, outer).value + Expand(b, outer).value)
  {
    PiecesAppend(a, b, outer);
    PiecesInRange(a, outer);
    PiecesInRange(b, outer);
    FlattenAppend(Pieces(a, outer).value, Pieces(b, outer).value, outer);
  }

  /** Extensions of the inner hello's own pass through unchanged. */
  lemma {:induction false} ExpandOwn(exts: seq<Ext>, outer: seq<Ext>)
    requires forall i :: 0 <= i < |exts| ==> exts[i].typ != EXT_ECH_OUTER
    ensures Expand(exts, outer) == Some(exts)
  {
    if exts != [] {
      ExpandOwn(exts[1..], outer);
      assert Pieces(exts, outer) == Some([Own(exts[0])] + Pieces(exts[1..], outer).value);
      var pieces := Pieces(exts, outer).value;
      assert pieces[1..] == Pieces(exts[1..], outer).value;
      PiecesInRange(exts, outer);
      assert Flatten(pieces, outer) == [exts[0]] + exts[1..] == exts;
    }
  }

  lemma {:induction false} TypesOfCollect(rows: seq<Entry>)
    requires Collect(rows).Some?
    ensures TypesOf(rows) == Types(Collect(rows).value)
  {
    if rows != [] { TypesOfCollect(rows[1..]); }
  }

  /** The ech_outer_extensions block reads back as the numbers it was printed from. */
  lemma BlockPiece(block: Bytes, types: seq<u16>, outer: seq<Ext>)
    requires U16s(1, types) == Some(block)
    ensures PieceOf(Ext(EXT_ECH_OUTER, block), outer) ==
      if Positions(types, outer, 0).None? then None else Some(Copies(Positions(types, outer, 0).value))
  {
    var list := EncodeItems(U16, types).value;
    WholeLp(1, list);
    InvertsU16();
    ParseEncodeItems(ReadU16, U16, AnyItem, types);
  }

  lemma ExpandOne(e: Ext, outer: seq<Ext>, p: Piece)
    requires PieceOf(e, outer) == Some(p) && InRange(p, outer)
    ensures Expand([e], outer) == Some(ExtsOf(p, outer))
  {
    var one := [e];
    assert one[1..] == [] && Pieces([], outer) == Some([]);
    assert Pieces(one, outer) == Some([p] + []);
    var pieces := Pieces(one, outer).value;
    assert pieces == [p] && pieces[1..] == [];
    assert Flatten(pieces, outer) == ExtsOf(p, outer) + [] == ExtsOf(p, outer);
  }

  /** The block expands to the run it stands for. */
  lemma ExpandBlock(block: Bytes, outer: seq<Ext>, start: nat, run: seq<Ext>)
    requires U16s(1, Types(run)) == Some(block)
    requires NoRepeats(outer) && start + |run| <= |outer| && run == outer[start..start + |run|]
    requires forall k :: 0 <= k < |run| ==> run[k].typ != EXT_ECH
    ensures Expand([Ext(EXT_ECH_OUTER, block)], outer) == Some(run)
  {
    hide PieceOf, Expand, U16s, NoRepeats, Positions;
    RunResolves(outer, start, run, 0);
    var ps := Positions(Types(run), outer, 0).value;
    BlockPiece(block, Types(run), outer);
    ExpandOne(Ext(EXT_ECH_OUTER, block), outer, Copies(ps));
    assert Select(outer, ps) == run;
  }

  lemma {:induction false} CollectSkips(rows: seq<Entry>)
    requires forall i :: 0 <= i < |rows| ==> rows[i].Skip?
    ensures Collect(rows) == Some([])
  {
    if rows != [] { CollectSkips(rows[1..]); }
  }

  lemma NumberFacts(k: Slot)
    ensures TypeOf(k) != EXT_ECH_OUTER && (TypeOf(k) == EXT_ECH ==> k == ENCRYPTED_CLIENT_HELLO)
  {
  }

  lemma OwnTypes(m: Hello, inner: bool, lo: nat, hi: nat)
    requires lo <= hi <= SLOTS && Collect(Rows(m, inner)[lo..hi]).Some?
    ensures var exts := Collect(Rows(m, inner)[lo..hi]).value;
      forall i :: 0 <= i < |exts| ==>
        exts[i].typ != EXT_ECH_OUTER && (lo > ENCRYPTED_CLIENT_HELLO ==> exts[i].typ != EXT_ECH)
  {
    var rows := Rows(m, inner)[lo..hi];
    CollectTypes(rows);
    var exts := Collect(rows).value;
    forall i | 0 <= i < |exts|
      ensures exts[i].typ != EXT_ECH_OUTER && (lo > ENCRYPTED_CLIENT_HELLO ==> exts[i].typ != EXT_ECH)
    {
      var k :| 0 <= k < |rows| && rows[k] == Emit(exts[i].typ, Some(exts[i].body));
      assert rows[k] == Row(m, inner, lo + k);
      NumberFacts(lo + k);
    }
  }

  /** Inner and outer hello as the client derives them from each other. */
  ghost predicate Paired(inner: Hello, outer: Hello) {
    && inner.fields[ENCRYPTED_CLIENT_HELLO] == INNER_MARK
    && outer.fields[ENCRYPTED_CLIENT_HELLO] != Unset
    && inner.sessionId == outer.sessionId
    && (forall k :: 0 <= k < SLOTS && Legacy(k) ==> inner.fields[k] == Unset)
    && (forall k :: 0 <= k < SLOTS && Compressed(k) ==> inner.fields[k] == outer.fields[k])
  }

  /** The three runs of extensions: before the compressible ones, those, and the PSK. */
  lemma PlainRuns(m: Hello)
    requires AllExts(m, false).Some?
    ensures var rows := Rows(m, false);
      && Collect(rows[..STATUS_REQUEST]).Some? && Collect(CompressedRows(m)).Some? && Collect(rows[PRE_SHARED_KEY..]).Some?
      && AllExts(m, false) ==
        Some(Collect(rows[..STATUS_REQUEST]).value + Collect(CompressedRows(m)).value + Collect(rows[PRE_SHARED_KEY..]).value)
      && NoRepeats(AllExts(m, false).value)
  {
    var rows := Rows(m, false);
    PlainExts(m);
    RowsDistinct(m, false);
    CollectNoRepeats(rows);
    CollectAppend(rows[..STATUS_REQUEST], CompressedRows(m));
    assert rows[..PRE_SHARED_KEY] == rows[..STATUS_REQUEST] + CompressedRows(m);
    CollectAppend(rows[..PRE_SHARED_KEY], rows[PRE_SHARED_KEY..]);
    assert rows == rows[..PRE_SHARED_KEY] + rows[PRE_SHARED_KEY..];
  }

  /** The compressed form differs from the plain one in the middle run only. */
  lemma InnerRuns(inner: Hello, outer: Hello)
    requires Paired(inner, outer)
    ensures var rows := Rows(inner, false);
      AllExts(inner, true) ==
        if Collect(rows[..STATUS_REQUEST]).None? || OuterBlock(inner).None? || Collect(rows[PRE_SHARED_KEY..]).None? then None
        else Some(Collect(rows[..STATUS_REQUEST]).value + OuterBlock(inner).value + Collect(rows[PRE_SHARED_KEY..]).value)
  {
    var plain, packed := Rows(inner, false), Rows(inner, true);
    assert packed[..STATUS_REQUEST] == plain[..STATUS_REQUEST];
    assert packed[PRE_SHARED_KEY..] == plain[PRE_SHARED_KEY..];
    CollectSkips(packed[STATUS_REQUEST..PRE_SHARED_KEY]);
    CollectAppend(packed[..STATUS_REQUEST], packed[STATUS_REQUEST..PRE_SHARED_KEY]);
    assert packed[..PRE_SHARED_KEY] == packed[..STATUS_REQUEST] + packed[STATUS_REQUEST..PRE_SHARED_KEY];
    var a := Collect(plain[..STATUS_REQUEST]);
    if a.Some? { assert a.value + [] == a.value; }
  }

  /** Expanding the compressed extensions against the outer hello's gives the plain ones. */
  lemma ExpandInverts(inner: Hello, outer: Hello)
    requires Paired(inner, outer)
    requires AllExts(inner, false).Some? && AllExts(inner, true).Some? && AllExts(outer, false).Some?
    ensures Expand(AllExts(inner, true).value, AllExts(outer, false).value) == AllExts(inner, false)
  {
    hide Collect, OuterBlock, AllExts, Expand;
    InnerRuns(inner, outer);
    PlainRuns(inner);
    PlainRuns(outer);
    var rows, raw := Rows(inner, false), AllExts(outer, false).value;
    assert CompressedRows(inner) == CompressedRows(outer);
    var before, run, psk := Collect(rows[..STATUS_REQUEST]).value, Collect(CompressedRows(inner)).value, Collect(rows[PRE_SHARED_KEY..]).value;
    assert rows[0..STATUS_REQUEST] == rows[..STATUS_REQUEST] && rows[PRE_SHARED_KEY..SLOTS] == rows[PRE_SHARED_KEY..];
    OwnTypes(inner, false, 0, STATUS_REQUEST);
    ExpandOwn(before, raw);
    OwnTypes(inner, false, PRE_SHARED_KEY, SLOTS);
    ExpandOwn(psk, raw);
    ExpandMiddle(inner, raw, |Collect(Rows(outer, false)[..STATUS_REQUEST]).value|, run);
    var block := OuterBlock(inner).value;
    ExpandAppend(before, block, raw);
    ExpandAppend(before + block, psk, raw);
  }

  lemma ExpandMiddle(inner: Hello, raw: seq<Ext>, start: nat, run: seq<Ext>)
    requires Collect(CompressedRows(inner)) == Some(run) && OuterBlock(inner).Some?
    requires NoRepeats(raw) && start + |run| <= |raw| && run == raw[start..start + |run|]
    ensures Expand(OuterBlock(inner).value, raw) == Some(run)
  {
    TypesOfCollect(CompressedRows(inner));
    if run == [] {
      assert Types(run) == [];
      ExpandOwn([], raw);
    } else {
      assert |Types(run)| == |run|;
      OwnTypes(inner, false, STATUS_REQUEST, PRE_SHARED_KEY);
      ExpandBlock(OuterBlock(inner).value[0].body, raw, start, run);
    }
  }

  // ---------------------------------------------------------------- splitting what was encoded

  /** The fields behind the random, each in its length prefix, and what follows them. */
  function Layout(sid: Bytes, suites: Bytes, comp: Bytes, block: Bytes, tail: Bytes): Bytes
    requires |sid| < Cap(1) && |suites| < Cap(2) && |comp| < Cap(1) && |block| < Cap(2)
  {
    UInt(1, |sid|) + sid + (UInt(2, |suites|) + suites +
      (UInt(1, |comp|) + comp + (UInt(2, |block|) + block + tail)))
  }

  lemma ExtractRawParts(head: Bytes, sid: Bytes, suites: Bytes, comp: Bytes, block: Bytes)
    requires |head| == 38 && |sid| < Cap(1) && |suites| < Cap(2) && |comp| < Cap(1) && |block| < Cap(2)
    ensures ExtractRaw(head + Layout(sid, suites, comp, block, [])) == ParseItems(ReadExt, block)
  {
    var t3 := UInt(2, |block|) + block + [];
    var t2 := UInt(1, |comp|) + comp + t3;
    var t1 := UInt(2, |suites|) + suites + t2;
    var t0 := UInt(1, |sid|) + sid + t1;
    assert (head + t0)[38..] == t0;
    ReadLpOfLp(1, sid, t1);
    ReadLpOfLp(2, suites, t2);
    ReadLpOfLp(1, comp, t3);
    ReadLpOfLp(2, block, []);
  }

  lemma SplitEncodedParts(vr: Bytes, suites: Bytes, comp: Bytes, block: Bytes, padding: nat)
    requires |vr| == 34 && |suites| < Cap(2) && |comp| < Cap(1) && |block| < Cap(2)
    ensures SplitEncoded(vr + Layout([], suites, comp, block, Zeros(padding))) ==
      Some(Encoded(vr, suites, comp, block))
  {
    var t3 := UInt(2, |block|) + block + Zeros(padding);
    var t2 := UInt(1, |comp|) + comp + t3;
    var t1 := UInt(2, |suites|) + suites + t2;
    ReadNOf(vr, UInt(1, 0) + [] + t1);
    ReadLpOfLp(1, [], t1);
    ReadLpOfLp(2, suites, t2);
    ReadLpOfLp(1, comp, t3);
    ReadLpOfLp(2, block, Zeros(padding));
  }

  lemma Regroup(b: Bytes, l1: Bytes, s1: Bytes, l2: Bytes, s2: Bytes, l3: Bytes, s3: Bytes, l4: Bytes, s4: Bytes, t: Bytes)
    ensures b + (l1 + s1) + (l2 + s2) + (l3 + s3) + (l4 + s4) + t ==
      b + (l1 + s1 + (l2 + s2 + (l3 + s3 + (l4 + s4 + t))))
  {
  }

  /** A printed body, field by field. */
  lemma BodyLayout(m: Hello, inner: bool, tail: Bytes)
    requires MarshalBody(m, inner).Some? && AllExts(m, inner).value != []
    ensures EncodeItems(EncodeExt, AllExts(m, inner).value).Some? && EncodeItems(U16, m.cipherSuites).Some?
    ensures var sid := if inner then [] else m.sessionId;
      var suites, block := EncodeItems(U16, m.cipherSuites).value, EncodeItems(EncodeExt, AllExts(m, inner).value).value;
      && |m.random| == 32 && |sid| < Cap(1) && |suites| < Cap(2) && |m.compressionMethods| < Cap(1) && |block| < Cap(2)
      && ParseItems(ReadExt, block) == AllExts(m, inner)
      && MarshalBody(m, inner).value + tail ==
        (UInt(2, m.vers) + m.random) + Layout(sid, suites, m.compressionMethods, block, tail)
  {
    hide AllExts, EncodeItems, ParseItems, UInt, Inverts;
    var exts := AllExts(m, inner).value;
    InvertsExt();
    ParseEncodeItems(ReadExt, EncodeExt, AnyItem, exts);
    assert AllValid(AnyItem, exts);
    var sid, comp := if inner then [] else m.sessionId, m.compressionMethods;
    var suites, block := EncodeItems(U16, m.cipherSuites).value, EncodeItems(EncodeExt, exts).value;
    Regroup(UInt(2, m.vers) + m.random, UInt(1, |sid|), sid, UInt(2, |suites|), suites,
            UInt(1, |comp|), comp, UInt(2, |block|), block, tail);
  }

  /** The outer hello's raw extensions are the ones it was printed from. */
  lemma ExtractRawOf(m: Hello, wire: Bytes)
    requires Marshal(m, false) == Some(wire) && AllExts(m, false).value != []
    ensures ExtractRaw(wire) == AllExts(m, false)
  {
    hide AllExts, EncodeItems, ParseItems, ExtractRaw, Layout, UInt;
    BodyLayout(m, false, []);
    var vr := UInt(2, m.vers) + m.random;
    var suites, block := EncodeItems(U16, m.cipherSuites).value, EncodeItems(EncodeExt, AllExts(m, false).value).value;
    var rest := Layout(m.sessionId, suites, m.compressionMethods, block, []);
    var body := MarshalBody(m, false).value;
    assert body + [] == body && wire == wire[..4] + body;
    Assoc3(wire[..4], vr, rest);
    ExtractRawParts(wire[..4] + vr, m.sessionId, suites, m.compressionMethods, block);
  }

  /** An encoded inner hello splits into the parts it was made of. */
  lemma SplitEncodedOf(inner: Hello, padding: nat)
    requires MarshalBody(inner, true).Some? && AllExts(inner, true).value != []
    ensures SplitEncoded(MarshalBody(inner, true).value + Zeros(padding)) ==
      Some(Encoded(UInt(2, inner.vers) + inner.random,
                   EncodeItems(U16, inner.cipherSuites).value,
                   inner.compressionMethods,
                   EncodeItems(EncodeExt, AllExts(inner, true).value).value))
    ensures ParseItems(ReadExt, EncodeItems(EncodeExt, AllExts(inner, true).value).value) == AllExts(inner, true)
  {
    BodyLayout(inner, true, Zeros(padding));
    SplitEncodedParts(UInt(2, inner.vers) + inner.random, EncodeItems(U16, inner.cipherSuites).value,
                      inner.compressionMethods, EncodeItems(EncodeExt, AllExts(inner, true).value).value, padding);
  }

  lemma RebuildOf(inner: Hello)
    requires MarshalBody(inner, false).Some? && AllExts(inner, false).value != []
    ensures Rebuild(Encoded(UInt(2, inner.vers) + inner.random, EncodeItems(U16, inner.cipherSuites).value,
                            inner.compressionMethods, []),
                    inner.sessionId, AllExts(inner, false).value) == Marshal(inner, false)
  {
    var exts := AllExts(inner, false).value;
    InvertsExt();
    ParseEncodeItems(ReadExt, EncodeExt, AnyItem, exts);
  }

  /** The encrypted_client_hello field is sent in either mode. */
  lemma HasExtension(m: Hello, inner: bool)
    requires m.fields[ENCRYPTED_CLIENT_HELLO] != Unset && AllExts(m, inner).Some?
    ensures AllExts(m, inner).value != []
  {
    var rows := Rows(m, inner)[..PRE_SHARED_KEY];
    var i := ENCRYPTED_CLIENT_HELLO;
    CollectAppend(rows[..i], rows[i..]);
    assert rows == rows[..i] + rows[i..];
    assert rows[i..][0] == Row(m, inner, i);
  }

  // ---------------------------------------------------------------- main results

  lemma EncodeInnerIs(inner: Hello, maxNameLength: nat, encoded: Bytes)
    requires EncodeInner(inner, maxNameLength) == Some(encoded)
    ensures MarshalBody(inner, true).Some? && |encoded| >= |MarshalBody(inner, true).value|
    ensures encoded == MarshalBody(inner, true).value + Zeros(|encoded| - |MarshalBody(inner, true).value|)
  {
    assert Marshal(inner, true).value[4..] == MarshalBody(inner, true).value;
  }

  lemma ReceivedOuter(outer: Hello, outerWire: Bytes, received: Hello)
    requires Marshal(outer, false) == Some(outerWire) && Unmarshal(outerWire) == Some(received)
    requires outer.fields[ENCRYPTED_CLIENT_HELLO] != Unset
    ensures received.original == Some(outerWire) && received.sessionId == outer.sessionId
    ensures ExtractRaw(outerWire) == AllExts(outer, false)
  {
    HasExtension(outer, false);
    RoundTrip(outer);
    ExtractRawOf(outer, outerWire);
  }

  /** Main result: decoding the encoded inner hello against the outer hello's wire
      bytes yields exactly the bytes of the inner hello.
   */
  lemma InversionIsExact(inner: Hello, outer: Hello, maxNameLength: nat,
                         innerWire: Bytes, outerWire: Bytes, encoded: Bytes, received: Hello)
    requires Paired(inner, outer)
    requires Marshal(inner, false) == Some(innerWire) && Marshal(outer, false) == Some(outerWire)
    requires EncodeInner(inner, maxNameLength) == Some(encoded)
    requires Unmarshal(outerWire) == Some(received)
    ensures Reconstruct(received, encoded) == Some(innerWire)
  {
    EncodeInnerIs(inner, maxNameLength, encoded);
    HasExtension(inner, true);
    SplitEncodedOf(inner, |encoded| - |MarshalBody(inner, true).value|);
    ReceivedOuter(outer, outerWire, received);
    ExpandInverts(inner, outer);
    HasExtension(inner, false);
    RebuildOf(inner);
  }

  /** The decoder's verdict on an honest client's encoding. */
  lemma DecodesInner(inner: Hello, outer: Hello, maxNameLength: nat,
                     innerWire: Bytes, outerWire: Bytes, encoded: Bytes, received: Hello)
    requires Paired(inner, outer)
    requires Marshal(inner, false) == Some(innerWire) && Marshal(outer, false) == Some(outerWire)
    requires EncodeInner(inner, maxNameLength) == Some(encoded)
    requires Unmarshal(outerWire) == Some(received)
    ensures Decode(received, encoded) ==
      if Parseable(inner) && OffersOnlyTls13(inner.NumbersAt(SUPPORTED_VERSIONS))
      then Some(Canonical(inner, innerWire)) else None
  {
    InversionIsExact(inner, outer, maxNameLength, innerWire, outerWire, encoded, received);
    RoundTrip(inner);
  }
}
