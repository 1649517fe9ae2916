/** The order in which an ECH encoding refers to the outer hello.  The cursor starts over in
    every ech_outer_extensions block, so that two blocks can reorder outer extensions.
 */
module EchOrder {
  import opened Wire
  import opened ClientHello
  import opened ClientHelloRoundTrip
  import opened Ech
  import opened EchInversion
  import opened EchReferences

  /** The outer positions that an encoding refers to, block after block. */
  function AllPositions(pieces: seq<Piece>): seq<nat> {
    if pieces == [] then []
    else (if pieces[0].Copies? then pieces[0].positions else []) + AllPositions(pieces[1..])
  }

  /** The numbers that one of the encoding's extensions refers to. */
  function ReferredBy(e: Ext): seq<u16> {
    if e.typ == EXT_ECH_OUTER && ReadLp(1, e.body).Got? && ParseItems(ReadU16, ReadLp(1, e.body).value).Some?
    then ParseItems(ReadU16, ReadLp(1, e.body).value).value else []
  }

  /** All of them, as if they stood in one block. */
  function Referred(own: seq<Ext>): seq<u16> {
    if own == [] then [] else ReferredBy(own[0]) + Referred(own[1..])
  }

  ghost predicate Names(raw: seq<Ext>, at: seq<nat>, types: seq<u16>) {
    |at| == |types| && forall k :: 0 <= k < |at| ==> at[k] < |raw| && raw[at[k]].typ == types[k] != EXT_ECH
  }

  lemma PieceNames(e: Ext, raw: seq<Ext>, p: Piece)
    requires PieceOf(e, raw) == Some(p)
    ensures p.Copies? ==> Names(raw, p.positions, ReferredBy(e))
    ensures p.Own? ==> ReferredBy(e) == []
  {
    if p.Copies? { PositionsInRange(ReferredBy(e), raw, 0); }
  }

  lemma {:induction false} PiecesNames(own: seq<Ext>, raw: seq<Ext>)
    requires Pieces(own, raw).Some?
    ensures Names(raw, AllPositions(Pieces(own, raw).value), Referred(own))
  {
    if own != [] {
      var pieces := Pieces(own, raw).value;
      PiecesNames(own[1..], raw);
      PieceNames(own[0], raw, pieces[0]);
      assert pieces[1..] == Pieces(own[1..], raw).value;
    }
  }

  /** An accepted hello has no extension twice. */
  lemma AcceptedDistinct(bytes: Bytes, raw: seq<Ext>)
    requires Unmarshal(bytes).Some? && ExtractRaw(bytes) == Some(raw)
    ensures NoRepeats(raw)
  {
    var (h, rest) := ParseFixed(bytes).value;
    var r := bytes[4..][2..][32..];
    assert r == bytes[38..];
    if rest != [] { assert Whole(ReadLp(2, rest)).Some?; }
  }

  /** Main result: an accepted encoding refers to an accepted outer hello in outer order
      exactly if all its references, moved into a single block, would still resolve.
   */
  lemma OrderAcrossBlocks(outer: Hello, encoded: Bytes, inner: Hello)
      returns (own: seq<Ext>, raw: seq<Ext>, pieces: seq<Piece>)
    requires Decode(outer, encoded) == Some(inner)
    requires outer.original.Some? && Unmarshal(outer.original.value).Some?
    ensures SplitEncoded(encoded).Some? && ParseItems(ReadExt, SplitEncoded(encoded).value.exts) == Some(own)
    ensures ExtractRaw(outer.original.value) == Some(raw) && Pieces(own, raw) == Some(pieces)
    ensures Verbatim(own, raw, pieces)
    ensures inner.original.Some? && ExtractRaw(inner.original.value) == Some(Flatten(pieces, raw))
    ensures Sorted(AllPositions(pieces)) <==> Positions(Referred(own), raw, 0).Some?
  {
    hide Decode, Unmarshal, Verbatim, Flatten, Positions;
    own, raw, pieces := CopiesAreVerbatim(outer, encoded, inner);
    AcceptedDistinct(outer.original.value, raw);
    PiecesNames(own, raw);
    ResolvesIffSorted(Referred(own), raw, 0, AllPositions(pieces));
  }

  // ---------------------------------------------------------------- an encoding that reorders

  const SCT_EXT: Ext := Ext(18, [])
  const EMS_EXT: Ext := Ext(23, [])
  const MARK_EXT: Ext := Ext(EXT_ECH, [1])
  const VERSIONS_EXT: Ext := Ext(43, [2, 3, 4])
  const REFERS_EMS: Ext := Ext(EXT_ECH_OUTER, [2, 0, 23])
  const REFERS_SCT: Ext := Ext(EXT_ECH_OUTER, [2, 0, 18])

  function NoFields(): (fs: Fields)
    ensures forall k :: 0 <= k < SLOTS ==> fs[k] == Unset
  {
    seq(SLOTS, _ => Unset)
  }

  /** A hello with nothing in it but its extensions. */
  function Bare(original: Option<Bytes>): Hello { Hello(original, 0, Zeros(32), [], [], [], NoFields(), []) }

  function Parts(block: Bytes): Encoded { Encoded(UInt(2, 0) + Zeros(32), [], [], block) }

  predicate Short(exts: seq<Ext>) { forall i :: 0 <= i < |exts| ==> |exts[i].body| <= 4 }

  lemma {:induction false} ShortEncodes(exts: seq<Ext>)
    requires Short(exts)
    ensures EncodeItems(EncodeExt, exts).Some? && |EncodeItems(EncodeExt, exts).value| <= 8 * |exts|
  {
    if exts != [] {
      assert Short(exts[1..]);
      ShortEncodes(exts[1..]);
    }
  }

  /** The rebuilt bytes, as the printer of a bare hello would lay them out. */
  lemma BareLayout(exts: seq<Ext>, block: Bytes) returns (bytes: Bytes, all: Bytes)
    requires Short(exts) && |exts| <= 4
    ensures Rebuild(Parts(block), [], exts) == Some(bytes) && |bytes| >= 4
    ensures EncodeItems(EncodeExt, exts) == Some(all) && |all| < Cap(2)
    ensures FixedPart(Bare(None), false).Some?
    ensures bytes == bytes[..4] + (FixedPart(Bare(None), false).value + (UInt(2, |all|) + all))
  {
    hide EncodeExt;
    ShortEncodes(exts);
    all := EncodeItems(EncodeExt, exts).value;
    bytes := Rebuild(Parts(block), [], exts).value;
    RebuildLayout(Parts(block), [], exts, bytes);
    Regroup(UInt(2, 0) + Zeros(32), UInt(1, 0), [], UInt(2, 0), [], UInt(1, 0), [], UInt(2, |all|), all, []);
  }

  lemma BareParses(exts: seq<Ext>, block: Bytes) returns (bytes: Bytes)
    requires Short(exts) && 0 < |exts| <= 4 && NoRepeats(exts)
    ensures Rebuild(Parts(block), [], exts) == Some(bytes)
    ensures Unmarshal(bytes) == ApplyAll(Bare(Some(bytes)), exts) && ExtractRaw(bytes) == Some(exts)
  {
    hide ApplyAll, NoRepeats, ReadExt, EncodeExt, Rebuild, FixedPart, ParseFixed, ExtractRaw, UInt, ReadLp;
    var all;
    bytes, all := BareLayout(exts, block);
    RebuiltExts(Parts(block), [], exts, bytes);
    var tail := UInt(2, |all|) + all;
    ParseFixedOf(Bare(None), bytes[..4], tail);
    assert Bare(None).(original := Some(bytes), fields := NO_FIELDS, extensions := []) == Bare(Some(bytes)) by { NoFieldsIs(); }
    InvertsExt();
    ParseEncodeItems(ReadExt, EncodeExt, AnyItem, exts);
    assert AllValid(AnyItem, exts);
    WholeLp(2, all);
  }

  lemma NoFieldsIs()
    ensures NO_FIELDS == NoFields()
  {
  }

  lemma KnownSlots()
    ensures SlotFor(18) == Some(SCT) && SlotFor(23) == Some(EXTENDED_MASTER_SECRET)
    ensures SlotFor(43) == Some(SUPPORTED_VERSIONS) && SlotFor(EXT_ECH) == Some(ENCRYPTED_CLIENT_HELLO)
  {
    FindNumberOf(SCT, 0);
    FindNumberOf(EXTENDED_MASTER_SECRET, 0);
    FindNumberOf(SUPPORTED_VERSIONS, 0);
    FindNumberOf(ENCRYPTED_CLIENT_HELLO, 0);
  }

  /** What the extensions of the example set. */
  lemma ExampleFields()
    ensures ParseField(SCT, [], false) == ParseField(SCT, [], true) == Some(Flag)
    ensures ParseField(EXTENDED_MASTER_SECRET, [], false) == ParseField(EXTENDED_MASTER_SECRET, [], true) == Some(Flag)
    ensures ParseField(ENCRYPTED_CLIENT_HELLO, [1], false) == Some(INNER_MARK)
    ensures ParseField(SUPPORTED_VERSIONS, [2, 3, 4], true) == Some(Numbers([0x0304]))
  {
    EncodeOne(U16, 0x0304);
    assert UInt(2, 0x0304) == [3, 4] && UInt(1, 2) + [3, 4] == [2, 3, 4];
    assert U16s(1, [0x0304]) == Some([2, 3, 4]);
    ParseNumbersOf(1, [0x0304]);
  }

  lemma {:induction false} ApplyCons(h: Hello, e: Ext, exts: seq<Ext>)
    ensures ApplyAll(h, [e] + exts) ==
      if ApplyExt(h, e, exts == []).None? then None else ApplyAll(ApplyExt(h, e, exts == []).value, exts)
  {
    assert ([e] + exts)[1..] == exts;
  }

  /** The outer hello of the example: signed_certificate_timestamp, then extended_master_secret. */
  lemma ExampleOuter() returns (outer: Hello)
    ensures outer.original.Some? && Unmarshal(outer.original.value) == Some(outer) && outer.sessionId == []
    ensures ExtractRaw(outer.original.value) == Some([SCT_EXT, EMS_EXT])
  {
    hide ParseField, SlotFor, Rebuild, ExtractRaw, Unmarshal, ApplyAll;
    var bytes := BareParses([SCT_EXT, EMS_EXT], []);
    KnownSlots();
    ExampleFields();
    var h := Bare(Some(bytes));
    assert [SCT_EXT, EMS_EXT] == [SCT_EXT] + [EMS_EXT] && [EMS_EXT] == [EMS_EXT] + [];
    ApplyCons(h, SCT_EXT, [EMS_EXT]);
    var h1 := ApplyExt(h, SCT_EXT, false).value;
    ApplyCons(h1, EMS_EXT, []);
    outer := ApplyExt(h1, EMS_EXT, true).value;
    assert ApplyAll(outer, []) == Some(outer) by { ApplyNone(outer); }
  }

  lemma ApplyNone(h: Hello)
    ensures ApplyAll(h, []) == Some(h)
  {
  }

  /** The inner hello of the example, with the two extensions the other way round. */
  lemma ExampleInner(block: Bytes) returns (bytes: Bytes, inner: Hello)
    ensures Rebuild(Parts(block), [], [MARK_EXT, EMS_EXT, SCT_EXT, VERSIONS_EXT]) == Some(bytes)
    ensures Unmarshal(bytes) == Some(inner)
    ensures inner.fields[ENCRYPTED_CLIENT_HELLO] == INNER_MARK && inner.NumbersAt(SUPPORTED_VERSIONS) == [0x0304]
  {
    hide ParseField, SlotFor, Rebuild, ExtractRaw, Unmarshal, ApplyAll;
    var exts := [MARK_EXT, EMS_EXT, SCT_EXT, VERSIONS_EXT];
    bytes := BareParses(exts, block);
    KnownSlots();
    ExampleFields();
    var h := Bare(Some(bytes));
    assert exts == [MARK_EXT] + [EMS_EXT, SCT_EXT, VERSIONS_EXT];
    assert [EMS_EXT, SCT_EXT, VERSIONS_EXT] == [EMS_EXT] + [SCT_EXT, VERSIONS_EXT];
    assert [SCT_EXT, VERSIONS_EXT] == [SCT_EXT] + [VERSIONS_EXT] && [VERSIONS_EXT] == [VERSIONS_EXT] + [];
    ApplyCons(h, MARK_EXT, [EMS_EXT, SCT_EXT, VERSIONS_EXT]);
    var h1 := ApplyExt(h, MARK_EXT, false).value;
    ApplyCons(h1, EMS_EXT, [SCT_EXT, VERSIONS_EXT]);
    var h2 := ApplyExt(h1, EMS_EXT, false).value;
    ApplyCons(h2, SCT_EXT, [VERSIONS_EXT]);
    var h3 := ApplyExt(h2, SCT_EXT, false).value;
    ApplyCons(h3, VERSIONS_EXT, []);
    inner := ApplyExt(h3, VERSIONS_EXT, true).value;
    ApplyNone(inner);
  }

  lemma OneNumber(n: u16, raw: seq<Ext>, k: nat)
    requires NoRepeats(raw) && k < |raw| && raw[k].typ == n != EXT_ECH
    ensures U16s(1, [n]).Some? && PieceOf(Ext(EXT_ECH_OUTER, U16s(1, [n]).value), raw) == Some(Copies([k]))
  {
    EncodeOne(U16, n);
    BlockPiece(U16s(1, [n]).value, [n], raw);
    ResolvesIffSorted([n], raw, 0, [k]);
  }

  lemma ExampleBlocks(raw: seq<Ext>)
    requires raw == [SCT_EXT, EMS_EXT]
    ensures PieceOf(REFERS_EMS, raw) == Some(Copies([1])) && PieceOf(REFERS_SCT, raw) == Some(Copies([0]))
  {
    EncodeOne(U16, 23);
    EncodeOne(U16, 18);
    assert UInt(2, 23) == [0, 23] && UInt(2, 18) == [0, 18];
    assert UInt(1, 2) + [0, 23] == [2, 0, 23] && UInt(1, 2) + [0, 18] == [2, 0, 18];
    OneNumber(23, raw, 1);
    OneNumber(18, raw, 0);
  }

  lemma PiecesCons(e: Ext, p: Piece, es: seq<Ext>, ps: seq<Piece>, raw: seq<Ext>)
    requires PieceOf(e, raw) == Some(p) && Pieces(es, raw) == Some(ps)
    ensures Pieces([e] + es, raw) == Some([p] + ps)
  {
    assert ([e] + es)[1..] == es;
  }

  lemma ExamplePieces() returns (own: seq<Ext>, pieces: seq<Piece>)
    ensures own == [MARK_EXT, REFERS_EMS, REFERS_SCT, VERSIONS_EXT]
    ensures pieces == [Own(MARK_EXT), Copies([1]), Copies([0]), Own(VERSIONS_EXT)]
    ensures Pieces(own, [SCT_EXT, EMS_EXT]) == Some(pieces)
  {
    var raw := [SCT_EXT, EMS_EXT];
    assert PieceOf(MARK_EXT, raw) == Some(Own(MARK_EXT)) && PieceOf(VERSIONS_EXT, raw) == Some(Own(VERSIONS_EXT));
    assert Pieces([], raw) == Some([]);
    hide PieceOf, Pieces;
    ExampleBlocks(raw);
    PiecesCons(VERSIONS_EXT, Own(VERSIONS_EXT), [], [], raw);
    PiecesCons(REFERS_SCT, Copies([0]), [VERSIONS_EXT] + [], [Own(VERSIONS_EXT)] + [], raw);
    own, pieces := [REFERS_SCT] + ([VERSIONS_EXT] + []), [Copies([0])] + ([Own(VERSIONS_EXT)] + []);
    PiecesCons(REFERS_EMS, Copies([1]), own, pieces, raw);
    own, pieces := [REFERS_EMS] + own, [Copies([1])] + pieces;
    PiecesCons(MARK_EXT, Own(MARK_EXT), own, pieces, raw);
    own, pieces := [MARK_EXT] + own, [Own(MARK_EXT)] + pieces;
  }

  lemma ExampleFlat(pieces: seq<Piece>)
    requires pieces == [Own(MARK_EXT), Copies([1]), Copies([0]), Own(VERSIONS_EXT)]
    ensures AllInRange(pieces, [SCT_EXT, EMS_EXT])
    ensures Flatten(pieces, [SCT_EXT, EMS_EXT]) == [MARK_EXT, EMS_EXT, SCT_EXT, VERSIONS_EXT]
    ensures AllPositions(pieces) == [1, 0]
  {
    var raw := [SCT_EXT, EMS_EXT];
    var p1, p2, p3 := pieces[1..], pieces[1..][1..], pieces[1..][1..][1..];
    assert p1 == [Copies([1]), Copies([0]), Own(VERSIONS_EXT)] && p2 == [Copies([0]), Own(VERSIONS_EXT)];
    assert p3 == [Own(VERSIONS_EXT)] && p3[1..] == [];
    assert Select(raw, [0]) == [SCT_EXT] && Select(raw, [1]) == [EMS_EXT];
    assert Flatten(p3, raw) == [VERSIONS_EXT] + [];
    assert Flatten(p2, raw) == [SCT_EXT] + Flatten(p3, raw);
    assert Flatten(p1, raw) == [EMS_EXT] + Flatten(p2, raw);
    assert Flatten(pieces, raw) == [MARK_EXT] + Flatten(p1, raw);
    assert AllPositions(p3) == [] + [];
    assert AllPositions(p2) == [0] + AllPositions(p3);
    assert AllPositions(p1) == [1] + AllPositions(p2);
    assert AllPositions(pieces) == [] + AllPositions(p1);
  }

  /** Main result: there is an encoding that is decoded although it puts two outer extensions
      back in the other order, by naming them in two blocks.
   */
  lemma TwoBlocksCanReorder()
      returns (outer: Hello, encoded: Bytes, inner: Hello, own: seq<Ext>, raw: seq<Ext>, pieces: seq<Piece>)
    ensures outer.original.Some? && Unmarshal(outer.original.value) == Some(outer)
    ensures Decode(outer, encoded) == Some(inner)
    ensures SplitEncoded(encoded).Some? && ParseItems(ReadExt, SplitEncoded(encoded).value.exts) == Some(own)
    ensures ExtractRaw(outer.original.value) == Some(raw) && Pieces(own, raw) == Some(pieces)
    ensures !Sorted(AllPositions(pieces))
    ensures raw == [SCT_EXT, EMS_EXT] && AllInRange(pieces, raw)
    ensures Flatten(pieces, raw) == [MARK_EXT, EMS_EXT, SCT_EXT, VERSIONS_EXT]
  {
    hide Rebuild, ExtractRaw, Unmarshal, SplitEncoded, Pieces, Flatten, ReadExt, EncodeExt;
    outer := ExampleOuter();
    raw := [SCT_EXT, EMS_EXT];
    own, pieces := ExamplePieces();
    ExampleFlat(pieces);
    ShortEncodes(own);
    var block := EncodeItems(EncodeExt, own).value;
    encoded := UInt(2, 0) + Zeros(32) + Layout([], [], [], block, Zeros(0));
    SplitEncodedParts(UInt(2, 0) + Zeros(32), [], [], block, 0);
    InvertsExt();
    ParseEncodeItems(ReadExt, EncodeExt, AnyItem, own);
    assert AllValid(AnyItem, own);
    var bytes;
    bytes, inner := ExampleInner(block);
    assert Expand(own, raw) == Some([MARK_EXT, EMS_EXT, SCT_EXT, VERSIONS_EXT]);
    assert Reconstruct(outer, encoded) == Some(bytes);
    assert AllPositions(pieces)[0] > AllPositions(pieces)[1];
  }
}
