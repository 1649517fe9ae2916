/** Encrypted Client Hello: compressing the inner hello against the outer one, and
    rebuilding it.  Both ends hash the rebuilt bytes, so the rebuild must be exact.
 */
module Ech {
  import opened Wire
  import opened ClientHello
  import opened ClientHelloRoundTrip

  const VERSION_TLS13: u16 := 0x0304

  // ---------------------------------------------------------------- encoding (client)

  function Zeros(n: nat): Bytes { seq(n, _ => 0) }

  /** The padding that hides the server name's length; it only enters a modulus. */
  function NamePadding(inner: Hello, maxNameLength: nat): nat {
    var name := inner.VectorAt(SERVER_NAME);
    if name == [] then maxNameLength + 9
    else if maxNameLength > |name| then maxNameLength - |name| else 0
  }

  function EncodeInner(inner: Hello, maxNameLength: nat): Build {
    var full :- Marshal(inner, true);
    Some(Padded(full[4..], NamePadding(inner, maxNameLength)))
  }

  function Padded(h: Bytes, namePadding: nat): Bytes { h + Zeros(31 - (|h| + namePadding - 1) % 32) }

  // ---------------------------------------------------------------- decoding (server)

  /** The raw extensions of a received hello, in wire order. */
  function ExtractRaw(original: Bytes): Option<seq<Ext>> {
    if |original| < 4 + 2 + 32 then None
    else match ReadLp(1, original[38..])
      case Bad => None
      case Got(_, r1) =>
        match ReadLp(2, r1)
        case Bad => None
        case Got(_, r2) =>
          match ReadLp(1, r2)
          case Bad => None
          case Got(_, r3) =>
            match ReadLp(2, r3)
            case Bad => None
            case Got(block, _) => ParseItems(ReadExt, block)
  }

  /** The first position from `i` on with the given number. */
  function Find(outer: seq<Ext>, i: nat, typ: u16): (r: Option<nat>)
    ensures r.Some? ==> i <= r.value < |outer| && outer[r.value].typ == typ
    ensures r.Some? ==> forall j :: i <= j < r.value ==> outer[j].typ != typ
    ensures r.None? ==> forall j :: i <= j < |outer| ==> outer[j].typ != typ
    decreases |outer| - i
  {
    if i >= |outer| then None else if outer[i].typ == typ then Some(i) else Find(outer, i + 1, typ)
  }

  /** Looks the referenced numbers up from a cursor that stays on the last match. */
  function Positions(types: seq<u16>, outer: seq<Ext>, i: nat): Option<seq<nat>> {
    if types == [] then Some([])
    else if types[0] == EXT_ECH then None
    else
      var j :- Find(outer, i, types[0]);
      var more :- Positions(types[1..], outer, j);
      Some([j] + more)
  }

  function Select(outer: seq<Ext>, ps: seq<nat>): seq<Ext>
    requires forall i :: 0 <= i < |ps| ==> ps[i] < |outer|
  {
    seq(|ps|, i requires 0 <= i < |ps| => outer[ps[i]])
  }

  /** One extension of the encoded inner hello: its own, or references to the outer hello. */
  datatype Piece = Own(ext: Ext) | Copies(positions: seq<nat>)

  function PieceOf(e: Ext, outer: seq<Ext>): Option<Piece> {
    if e.typ != EXT_ECH_OUTER then Some(Own(e))
    else match ReadLp(1, e.body)
      case Bad => None
      case Got(list, _) =>
        var types :- ParseItems(ReadU16, list);
        var ps :- Positions(types, outer, 0);
        Some(Copies(ps))
  }

  function Pieces(exts: seq<Ext>, outer: seq<Ext>): Option<seq<Piece>> {
    if exts == [] then Some([])
    else
      var p :- PieceOf(exts[0], outer);
      var more :- Pieces(exts[1..], outer);
      Some([p] + more)
  }

  predicate InRange(p: Piece, outer: seq<Ext>) {
    p.Copies? ==> forall i :: 0 <= i < |p.positions| ==> p.positions[i] < |outer|
  }

  function ExtsOf(p: Piece, outer: seq<Ext>): seq<Ext>
    requires InRange(p, outer)
  {
    match p
    case Own(e) => [e]
    case Copies(ps) => Select(outer, ps)
  }

  function Flatten(pieces: seq<Piece>, outer: seq<Ext>): seq<Ext>
    requires forall i :: 0 <= i < |pieces| ==> InRange(pieces[i], outer)
  {
    if pieces == [] then [] else ExtsOf(pieces[0], outer) + Flatten(pieces[1..], outer)
  }

  lemma {:induction false} PositionsInRange(types: seq<u16>, outer: seq<Ext>, i: nat)
    requires Positions(types, outer, i).Some?
    ensures var ps := Positions(types, outer, i).value;
      && |ps| == |types|
      && (forall k :: 0 <= k < |ps| ==> i <= ps[k] < |outer| && outer[ps[k]].typ == types[k] != EXT_ECH)
      && (forall j, k :: 0 <= j < k < |ps| ==> ps[j] <= ps[k])
  {
    if types != [] {
      var j := Find(outer, i, types[0]).value;
      PositionsInRange(types[1..], outer, j);
    }
  }

  lemma {:induction false} PiecesInRange(exts: seq<Ext>, outer: seq<Ext>)
    requires Pieces(exts, outer).Some?
    ensures var ps := Pieces(exts, outer).value;
      |ps| == |exts| && forall i :: 0 <= i < |ps| ==> PieceOf(exts[i], outer) == Some(ps[i]) && InRange(ps[i], outer)
  {
    if exts != [] {
      PiecesInRange(exts[1..], outer);
      PieceInRange(exts[0], outer);
    }
  }

  lemma PieceInRange(e: Ext, outer: seq<Ext>)
    requires PieceOf(e, outer).Some?
    ensures InRange(PieceOf(e, outer).value, outer)
  {
    if e.typ == EXT_ECH_OUTER {
      PositionsInRange(ParseItems(ReadU16, ReadLp(1, e.body).value).value, outer, 0);
    }
  }

  /** The extension list of the rebuilt hello. */
  function Expand(exts: seq<Ext>, outer: seq<Ext>): Option<seq<Ext>> {
    var pieces :- Pieces(exts, outer);
    PiecesInRange(exts, outer);
    Some(Flatten(pieces, outer))
  }

  /** The parts of an encoded inner hello. */
  datatype Encoded = Encoded(versionAndRandom: Bytes, suites: Bytes, compression: Bytes, exts: Bytes)

  /** Splits an encoded inner hello; its session ID must be empty and its padding zero. */
  function SplitEncoded(encoded: Bytes): Option<Encoded> {
    match ReadN(34, encoded)
    case Bad => None
    case Got(vr, r1) =>
      match ReadLp(1, r1)
      case Bad => None
      case Got(sid, r2) =>
        if sid != [] then None
        else match ReadLp(2, r2)
          case Bad => None
          case Got(suites, r3) =>
            match ReadLp(1, r3)
            case Bad => None
            case Got(comp, r4) =>
              match ReadLp(2, r4)
              case Bad => None
              case Got(exts, padding) =>
                if forall i :: 0 <= i < |padding| ==> padding[i] == 0
                then Some(Encoded(vr, suites, comp, exts)) else None
  }

  function Rebuild(e: Encoded, sessionId: Bytes, exts: seq<Ext>): Build {
    Cat(Some([TYPE_CLIENT_HELLO]),
        Lp(3, Cat(Cat(Cat(Cat(Some(e.versionAndRandom), Lp(1, Some(sessionId))),
                          Lp(2, Some(e.suites))),
                      Lp(1, Some(e.compression))),
                  Lp(2, EncodeItems(EncodeExt, exts)))))
  }

  /** The bytes of the inner hello, rebuilt from its encoding and the outer hello. */
  function Reconstruct(outer: Hello, encoded: Bytes): Build {
    var e :- SplitEncoded(encoded);
    var original :- outer.original;
    var raw :- ExtractRaw(original);
    var own :- ParseItems(ReadExt, e.exts);
    var exts :- Expand(own, raw);
    Rebuild(e, outer.sessionId, exts)
  }

  predicate Grease(v: u16) { v % 0x10 == 0xA && v / 0x100 % 0x10 == 0xA && v % 0x100 == v / 0x100 }

  /** TLS 1.3 is offered, and nothing older is (GREASE values aside). */
  predicate OffersOnlyTls13(versions: seq<u16>) {
    && VERSION_TLS13 in versions
    && forall i :: 0 <= i < |versions| ==> Grease(versions[i]) || versions[i] >= VERSION_TLS13
  }

  function Decode(outer: Hello, encoded: Bytes): Option<Hello> {
    var bytes :- Reconstruct(outer, encoded);
    var inner :- Unmarshal(bytes);
    if inner.fields[ENCRYPTED_CLIENT_HELLO] == INNER_MARK && OffersOnlyTls13(inner.NumbersAt(SUPPORTED_VERSIONS))
    then Some(inner) else None
  }
}
