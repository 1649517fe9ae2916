/** The decoder as it runs: cursors over the encoded and the outer hello, and a builder
    that grows extension by extension.  It computes `Ech.Decode`.
 */
module EchDecoder {
  import opened Wire
  import opened ClientHello
  import opened Ech

  /** The bytes that the references of one block stand for, from outer position `i` on. */
  function BlockBytes(list: Bytes, outer: seq<Ext>, i: nat): Build {
    var types :- ParseItems(ReadU16, list);
    var ps :- Positions(types, outer, i);
    PositionsInRange(types, outer, i);
    EncodeItems(EncodeExt, Select(outer, ps))
  }

  lemma BlockStep(list: Bytes, outer: seq<Ext>, i: nat, t: u16, more: Bytes, j: nat)
    requires list != [] && ReadU16(list) == Got(t, more) && t != EXT_ECH
    requires Find(outer, i, t) == Some(j)
    ensures BlockBytes(list, outer, i) == Cat(EncodeExt(outer[j]), BlockBytes(more, outer, j))
  {
    if ParseItems(ReadU16, more).Some? {
      var types := ParseItems(ReadU16, more).value;
      assert ParseItems(ReadU16, list).value == [t] + types;
      hide ParseItems, EncodeItems, Find;
      assert ([t] + types)[1..] == types;
      if Positions(types, outer, j).Some? {
        var ps := Positions(types, outer, j).value;
        PositionsInRange(types, outer, j);
        PositionsInRange([t] + types, outer, i);
        assert Positions([t] + types, outer, i) == Some([j] + ps);
        assert Select(outer, [j] + ps) == [outer[j]] + Select(outer, ps);
        EncodeCons(EncodeExt, outer[j], Select(outer, ps));
      }
    }
  }

  lemma BlockFails(list: Bytes, outer: seq<Ext>, i: nat, t: u16, more: Bytes)
    requires list != [] && ReadU16(list) == Got(t, more)
    requires t == EXT_ECH || Find(outer, i, t).None?
    ensures BlockBytes(list, outer, i).None?
  {
    if ParseItems(ReadU16, more).Some? {
      assert ParseItems(ReadU16, list).value[0] == t;
    }
  }

  /** The references of one ech_outer_extensions block.  The cursor `i` only moves
      forward and rests on the extension copied last.
   */
  method CopyOuter(list: Bytes, outer: seq<Ext>) returns (recon: Build)
    ensures recon == BlockBytes(list, outer, 0)
  {
    recon := Some([]);
    var rest, i := list, 0;
    EmptyFront(BlockBytes(list, outer, 0));
    while rest != []
      invariant i <= |outer|
      invariant BlockBytes(list, outer, 0) == Cat(recon, BlockBytes(rest, outer, i))
      decreases |rest|
    {
      match ReadU16(rest) {
        case Bad => return None;
        case Got(extType, more) =>
          if extType == EXT_ECH {
            BlockFails(rest, outer, i, extType, more);
            return None;
          }
          ghost var start := i;
          while i <= |outer|
            invariant i <= |outer|
            invariant Find(outer, start, extType) == Find(outer, i, extType)
            decreases |outer| - i
          {
            if i == |outer| {
              BlockFails(rest, outer, start, extType, more);
              return None;
            }
            if outer[i].typ == extType { break; }
            i := i + 1;
          }
          BlockStep(rest, outer, start, extType, more, i);
          CatAssoc(recon, EncodeExt(outer[i]), BlockBytes(more, outer, i));
          recon, rest := Cat(recon, EncodeExt(outer[i])), more;
      }
    }
    EmptyBack(recon);
  }

  lemma CatAssoc(a: Build, b: Build, c: Build)
    ensures Cat(a, Cat(b, c)) == Cat(Cat(a, b), c)
  {
    if a.Some? && b.Some? && c.Some? { assert a.value + (b.value + c.value) == (a.value + b.value) + c.value; }
  }

  lemma EmptyFront(b: Build)
    ensures Cat(Some([]), b) == b
  {
    if b.Some? { assert [] + b.value == b.value; }
  }

  lemma EmptyBack(b: Build)
    ensures Cat(b, Some([])) == b
  {
    if b.Some? { assert b.value + [] == b.value; }
  }

  /** The extension bytes of the rebuilt hello. */
  function ExpandBytes(extensions: Bytes, outer: seq<Ext>): Build {
    var own :- ParseItems(ReadExt, extensions);
    var exts :- Expand(own, outer);
    EncodeItems(EncodeExt, exts)
  }

  function PieceBytes(e: Ext, outer: seq<Ext>): Build {
    if e.typ != EXT_ECH_OUTER then EncodeExt(e)
    else match ReadLp(1, e.body)
      case Bad => None
      case Got(list, _) => BlockBytes(list, outer, 0)
  }

  lemma PieceBytesOf(e: Ext, outer: seq<Ext>)
    ensures PieceOf(e, outer).None? ==> PieceBytes(e, outer).None?
    ensures PieceOf(e, outer).Some? ==>
      InRange(PieceOf(e, outer).value, outer) &&
      PieceBytes(e, outer) == EncodeItems(EncodeExt, ExtsOf(PieceOf(e, outer).value, outer))
  {
    if PieceOf(e, outer).Some? { PieceInRange(e, outer); }
    if e.typ != EXT_ECH_OUTER { EncodeOne(EncodeExt, e); }
  }

  lemma ExpandStep(own: seq<Ext>, outer: seq<Ext>)
    requires own != [] && PieceOf(own[0], outer).Some? && Expand(own[1..], outer).Some?
    ensures Expand(own, outer).Some? && InRange(PieceOf(own[0], outer).value, outer)
    ensures Expand(own, outer).value == ExtsOf(PieceOf(own[0], outer).value, outer) + Expand(own[1..], outer).value
  {
    PieceInRange(own[0], outer);
    PiecesInRange(own, outer);
    PiecesInRange(own[1..], outer);
    var p, ps := PieceOf(own[0], outer).value, Pieces(own[1..], outer).value;
    assert Pieces(own, outer) == Some([p] + ps);
    assert ([p] + ps)[1..] == ps;
  }

  lemma ExtensionStep(rest: Bytes, outer: seq<Ext>, e: Ext, more: Bytes)
    requires rest != [] && ReadExt(rest) == Got(e, more)
    ensures ExpandBytes(rest, outer) == Cat(PieceBytes(e, outer), ExpandBytes(more, outer))
  {
    PieceBytesOf(e, outer);
    if ParseItems(ReadExt, more).Some? {
      var own := ParseItems(ReadExt, more).value;
      var all := [e] + own;
      assert ParseItems(ReadExt, rest) == Some(all);
      assert all[1..] == own && all[0] == e;
      if PieceOf(e, outer).Some? && Expand(own, outer).Some? {
        ExpandStep(all, outer);
        EncodeItemsAppend(EncodeExt, ExtsOf(PieceOf(e, outer).value, outer), Expand(own, outer).value);
      }
    }
  }

  method ExpandExtensions(extensions: Bytes, outer: seq<Ext>) returns (recon: Build)
    ensures recon == ExpandBytes(extensions, outer)
  {
    recon := Some([]);
    var rest := extensions;
    EmptyFront(ExpandBytes(extensions, outer));
    while rest != []
      invariant ExpandBytes(extensions, outer) == Cat(recon, ExpandBytes(rest, outer))
      decreases |rest|
    {
      match ReadExt(rest) {
        case Bad => return None;
        case Got(e, more) =>
          ExtensionStep(rest, outer, e, more);
          var piece;
          if e.typ == EXT_ECH_OUTER {
            match ReadLp(1, e.body) {
              case Bad => return None;
              case Got(list, _) => piece := CopyOuter(list, outer);
            }
          } else {
            piece := EncodeExt(e);
          }
          CatAssoc(recon, piece, ExpandBytes(more, outer));
          recon, rest := Cat(recon, piece), more;
      }
    }
    EmptyBack(recon);
  }

  method PaddingIsZero(padding: Bytes) returns (ok: bool)
    ensures ok <==> forall i :: 0 <= i < |padding| ==> padding[i] == 0
  {
    for n := 0 to |padding|
      invariant forall i :: 0 <= i < n ==> padding[i] == 0
    {
      if padding[n] != 0 { return false; }
    }
    return true;
  }

  method OnlyTls13(versions: seq<u16>) returns (ok: bool)
    ensures ok <==> OffersOnlyTls13(versions)
  {
    var hasTls13 := false;
    for n := 0 to |versions|
      invariant hasTls13 <==> VERSION_TLS13 in versions[..n]
      invariant forall i :: 0 <= i < n ==> Grease(versions[i]) || versions[i] >= VERSION_TLS13
    {
      var v := versions[n];
      assert versions[..n + 1] == versions[..n] + [v];
      if Grease(v) { continue; }
      if v == VERSION_TLS13 { hasTls13 := true; }
      else if v < VERSION_TLS13 { return false; }
    }
    assert versions[..|versions|] == versions;
    return hasTls13;
  }

  function RebuildAround(vr: Bytes, sid: Bytes, suites: Bytes, comp: Bytes, exts: Build): Build {
    Cat(Some([TYPE_CLIENT_HELLO]),
        Lp(3, Cat(Cat(Cat(Cat(Some(vr), Lp(1, Some(sid))), Lp(2, Some(suites))), Lp(1, Some(comp))), Lp(2, exts))))
  }

  lemma ReconstructIs(outer: Hello, e: Encoded, original: Bytes, raw: seq<Ext>, encoded: Bytes)
    requires SplitEncoded(encoded) == Some(e)
    requires outer.original == Some(original) && ExtractRaw(original) == Some(raw)
    ensures Reconstruct(outer, encoded) ==
      RebuildAround(e.versionAndRandom, outer.sessionId, e.suites, e.compression, ExpandBytes(e.exts, raw))
  {
  }

  /** The decoder; it computes `Decode`, refusals included. */
  method DecodeInnerClientHello(outer: Hello, encoded: Bytes) returns (r: Option<Hello>)
    ensures r == Decode(outer, encoded)
  {
    var e :- SplitFields(encoded);
    var original :- outer.original;
    var raw :- ExtractRawExtensions(original);
    var exts := ExpandExtensions(e.exts, raw);
    ReconstructIs(outer, e, original, raw, encoded);
    var bytes :- RebuildAround(e.versionAndRandom, outer.sessionId, e.suites, e.compression, exts);
    var inner :- UnmarshalMsg(bytes);
    if inner.fields[ENCRYPTED_CLIENT_HELLO] != INNER_MARK { return None; }
    var ok := OnlyTls13(inner.NumbersAt(SUPPORTED_VERSIONS));
    return if ok then Some(inner) else None;
  }

  method SplitFields(encoded: Bytes) returns (r: Option<Encoded>)
    ensures r == SplitEncoded(encoded)
  {
    match ReadN(34, encoded) {
      case Bad => return None;
      case Got(vr, r1) =>
        match ReadLp(1, r1) {
          case Bad => return None;
          case Got(sid, r2) =>
            if sid != [] { return None; }
            match ReadLp(2, r2) {
              case Bad => return None;
              case Got(suites, r3) =>
                match ReadLp(1, r3) {
                  case Bad => return None;
                  case Got(comp, r4) =>
                    match ReadLp(2, r4) {
                      case Bad => return None;
                      case Got(exts, padding) =>
                        var ok := PaddingIsZero(padding);
                        return if ok then Some(Encoded(vr, suites, comp, exts)) else None;
                    }
                }
            }
        }
    }
  }

  method ExtractRawExtensions(original: Bytes) returns (r: Option<seq<Ext>>)
    ensures r == ExtractRaw(original)
  {
    if |original| < 4 + 2 + 32 { return None; }
    match ReadLp(1, original[38..]) {
      case Bad => return None;
      case Got(_, r1) =>
        match ReadLp(2, r1) {
          case Bad => return None;
          case Got(_, r2) =>
            match ReadLp(1, r2) {
              case Bad => return None;
              case Got(_, r3) =>
                match ReadLp(2, r3) {
                  case Bad => return None;
                  case Got(block, _) => r := ReadItems(ReadExt, block);
                }
            }
        }
    }
  }
}
