/** The certificate list of TLS 1.3, which session tickets use too: certificates with
    per-certificate extensions, of which only the leaf's OCSP response and certificate
    timestamps are kept.
 */
module CertificateList {
  import opened Wire
  import opened ClientHello
  import opened ClientHelloRoundTrip

  const EXT_STATUS: u16 := 5
  const EXT_SCT: u16 := 18
  const TYPE_CERTIFICATE: byte := 11

  datatype Chain = Chain(certs: seq<Bytes>, ocsp: Option<Bytes>, scts: Option<seq<Bytes>>)

  /** A certificate with its encoded extensions. */
  datatype Entry = Entry(cert: Bytes, exts: Bytes)

  // ---------------------------------------------------------------- printer

  function EncodeSct(s: Bytes): Build { Lp(2, Some(s)) }

  function OcspBody(o: Bytes): Build { Cat(Some([STATUS_TYPE_OCSP]), Lp(3, Some(o))) }

  function SctBody(scts: seq<Bytes>): Build { Lp(2, EncodeItems(EncodeSct, scts)) }

  function LeafExts(c: Chain): Option<seq<Ext>> {
    var ocsp :- if c.ocsp.None? then Some([]) else
      (var b :- OcspBody(c.ocsp.value); Some([Ext(EXT_STATUS, b)]));
    var scts :- if c.scts.None? then Some([]) else
      (var b :- SctBody(c.scts.value); Some([Ext(EXT_SCT, b)]));
    Some(ocsp + scts)
  }

  function EncodeEntry(e: Entry): Build { Cat(Lp(3, Some(e.cert)), Lp(2, Some(e.exts))) }

  function Bare(certs: seq<Bytes>): seq<Entry> {
    seq(|certs|, i requires 0 <= i < |certs| => Entry(certs[i], []))
  }

  function Entries(c: Chain): Option<seq<Entry>> {
    if c.certs == [] then Some([])
    else
      var exts :- LeafExts(c);
      var leaf :- EncodeItems(EncodeExt, exts);
      Some([Entry(c.certs[0], leaf)] + Bare(c.certs[1..]))
  }

  function ChainBlock(c: Chain): Build {
    var entries :- Entries(c);
    EncodeItems(EncodeEntry, entries)
  }

  function MarshalChain(c: Chain): Build { Lp(3, ChainBlock(c)) }

  // ---------------------------------------------------------------- parser

  function ReadSct(s: Bytes): Parsed<Bytes> { NonEmpty(ReadLp(2, s)) }

  function ReadEntry(s: Bytes): Parsed<Entry> {
    match ReadLp(3, s)
    case Bad => Bad
    case Got(cert, r) =>
      match ReadLp(2, r)
      case Bad => Bad
      case Got(exts, rest) => Got(Entry(cert, exts), rest)
  }

  function ParseOcsp(d: Bytes): Option<Bytes> {
    if d == [] || d[0] != STATUS_TYPE_OCSP then None else Whole(NonEmpty(ReadLp(3, d[1..])))
  }

  function ParseScts(d: Bytes): Option<seq<Bytes>> {
    var list :- Whole(NonEmpty(ReadLp(2, d)));
    ParseItems(ReadSct, list)
  }

  /** One extension of the leaf: a later OCSP response replaces an earlier one, timestamps
      add up, other extensions are ignored. */
  function LeafEffect(c: Chain, e: Ext): Option<Chain> {
    if e.typ == EXT_STATUS then
      var o :- ParseOcsp(e.body);
      Some(c.(ocsp := Some(o)))
    else if e.typ == EXT_SCT then
      var l :- ParseScts(e.body);
      Some(c.(scts := Some(if c.scts.Some? then c.scts.value + l else l)))
    else Some(c)
  }

  function ApplyLeaf(c: Chain, exts: seq<Ext>): Option<Chain>
    decreases |exts|
  {
    if exts == [] then Some(c)
    else
      var d :- LeafEffect(c, exts[0]);
      ApplyLeaf(d, exts[1..])
  }

  predicate ExtsParse(es: seq<Entry>) {
    forall i :: 0 <= i < |es| ==> ParseItems(ReadExt, es[i].exts).Some?
  }

  function Certs(es: seq<Entry>): seq<Bytes> {
    seq(|es|, i requires 0 <= i < |es| => es[i].cert)
  }

  function ParseBlock(block: Bytes): Option<Chain> {
    var es :- ParseItems(ReadEntry, block);
    if !ExtsParse(es) then None
    else if es == [] then Some(Chain([], None, None))
    else ApplyLeaf(Chain(Certs(es), None, None), ParseItems(ReadExt, es[0].exts).value)
  }

  function UnmarshalChain(s: Bytes): Parsed<Chain> {
    match ReadLp(3, s)
    case Bad => Bad
    case Got(block, rest) =>
      var c := ParseBlock(block);
      if c.None? then Bad else Got(c.value, rest)
  }

  // ---------------------------------------------------------------- round trip

  /** What survives: without a certificate there is nowhere to put the leaf's extensions. */
  function Kept(c: Chain): Chain {
    if c.certs == [] then Chain([], None, None) else c
  }

  predicate Sound(c: Chain) {
    c.certs != [] ==>
      && (c.ocsp.Some? ==> c.ocsp.value != [])
      && (c.scts.Some? ==> c.scts.value != [] && forall i :: 0 <= i < |c.scts.value| ==> c.scts.value[i] != [])
  }

  predicate AnyEntry(e: Entry) { true }

  lemma InvertsEntry()
    ensures Inverts(ReadEntry, EncodeEntry, AnyEntry)
  {
    forall e, t ensures InvertsAt(ReadEntry, EncodeEntry, AnyEntry, e, t) {
      if EncodeEntry(e).Some? {
        var t1 := UInt(2, |e.exts|) + e.exts + t;
        ReadLpOfLp(3, e.cert, t1);
        ReadLpOfLp(2, e.exts, t);
        Assoc3(UInt(3, |e.cert|) + e.cert, UInt(2, |e.exts|) + e.exts, t);
        assert EncodeEntry(e).value + t == UInt(3, |e.cert|) + e.cert + t1;
      }
    }
  }

  predicate SctOk(s: Bytes) { s != [] }

  lemma InvertsSct()
    ensures Inverts(ReadSct, EncodeSct, SctOk)
  {
    forall s, t ensures InvertsAt(ReadSct, EncodeSct, SctOk, s, t) {
      if |s| < Cap(2) { ReadLpOfLp(2, s, t); }
    }
  }

  lemma OcspBack(o: Bytes)
    requires OcspBody(o).Some?
    ensures ParseOcsp(OcspBody(o).value) == if o == [] then None else Some(o)
  {
    var d := OcspBody(o).value;
    assert d[1..] == UInt(3, |o|) + o;
    WholeLp(3, o);
    ReadLpOfLp(3, o, []);
    assert UInt(3, |o|) + o + [] == UInt(3, |o|) + o;
  }

  lemma SctsBack(l: seq<Bytes>)
    requires SctBody(l).Some?
    ensures ParseScts(SctBody(l).value) == if l != [] && AllValid(SctOk, l) then Some(l) else None
  {
    var list := EncodeItems(EncodeSct, l).value;
    InvertsSct();
    ParseEncodeItems(ReadSct, EncodeSct, SctOk, l);
    ReadLpOfLp(2, list, []);
    assert UInt(2, |list|) + list + [] == UInt(2, |list|) + list;
  }

  lemma LeafBack(c: Chain)
    requires LeafExts(c).Some? && c.certs != []
    ensures ApplyLeaf(Chain(c.certs, None, None), LeafExts(c).value) == if Sound(c) then Some(c) else None
  {
    if c.ocsp.Some? { OcspBack(c.ocsp.value); }
    if c.scts.Some? { SctsBack(c.scts.value); }
    hide OcspBody, SctBody, ParseOcsp, ParseScts;
    var exts, plain := LeafExts(c).value, Chain(c.certs, None, None);
    if |exts| == 2 {
      assert exts == [exts[0], exts[1]];
      TwoLeaf(plain, exts[0], exts[1]);
    } else if |exts| == 1 {
      assert exts == [exts[0]];
      OneLeaf(plain, exts[0]);
    }
  }

  lemma OneLeaf(c: Chain, e: Ext)
    ensures ApplyLeaf(c, [e]) == LeafEffect(c, e)
  {
    assert [e][1..] == [];
  }

  lemma TwoLeaf(c: Chain, e: Ext, f: Ext)
    ensures ApplyLeaf(c, [e, f]) == if LeafEffect(c, e).None? then None else LeafEffect(LeafEffect(c, e).value, f)
  {
    assert [e, f][1..] == [f];
    if LeafEffect(c, e).Some? { OneLeaf(LeafEffect(c, e).value, f); }
  }

  lemma BareParse(certs: seq<Bytes>, leaf: Entry)
    ensures ExtsParse([leaf] + Bare(certs)) <==> ParseItems(ReadExt, leaf.exts).Some?
    ensures Certs([leaf] + Bare(certs)) == [leaf.cert] + certs
  {
    var es := [leaf] + Bare(certs);
    if ParseItems(ReadExt, leaf.exts).Some? {
      forall i | 0 <= i < |es| ensures ParseItems(ReadExt, es[i].exts).Some? { }
    } else {
      assert es[0] == leaf;
    }
  }

  lemma BlockBack(c: Chain)
    requires ChainBlock(c).Some?
    ensures ParseBlock(ChainBlock(c).value) == if Sound(c) then Some(Kept(c)) else None
  {
    InvertsEntry();
    var es := Entries(c).value;
    ParseEncodeItems(ReadEntry, EncodeEntry, AnyEntry, es);
    assert AllValid(AnyEntry, es);
    if c.certs != [] {
      InvertsExt();
      var exts := LeafExts(c).value;
      ParseEncodeItems(ReadExt, EncodeExt, AnyItem, exts);
      assert AllValid(AnyItem, exts);
      LeafBack(c);
      BareParse(c.certs[1..], es[0]);
      assert [c.certs[0]] + c.certs[1..] == c.certs;
    }
  }

  /** Main result: a printed certificate list reads back as what of it can be kept, exactly
      if the leaf's OCSP response and timestamps are not empty; anything may follow it.
   */
  lemma ChainBack(c: Chain, t: Bytes)
    requires MarshalChain(c).Some?
    ensures UnmarshalChain(MarshalChain(c).value + t) == if Sound(c) then Got(Kept(c), t) else Bad
  {
    BlockBack(c);
    ReadLpOfLp(3, ChainBlock(c).value, t);
  }

  // ---------------------------------------------------------------- the TLS 1.3 message

  /** certificateMsgTLS13: extensions that were not asked for are left out. */
  function Asked(c: Chain, ocspStapling: bool, scts: bool): Chain {
    Chain(c.certs, if ocspStapling then c.ocsp else None, if scts then c.scts else None)
  }

  function Marshal13(c: Chain, ocspStapling: bool, scts: bool): Build {
    Cat(Some([TYPE_CERTIFICATE]), Lp(3, Cat(Some([0]), MarshalChain(Asked(c, ocspStapling, scts)))))
  }

  /** The certificates, and whether OCSP and timestamps were present. */
  function Unmarshal13(data: Bytes): Option<(Chain, bool, bool)> {
    if |data| < 4 then None
    else match ReadLp(1, data[4..])
      case Bad => None
      case Got(context, r) =>
        if context != [] then None
        else
          var c :- Whole(UnmarshalChain(r));
          Some((c, c.ocsp.Some?, c.scts.Some?))
  }

  /** Main result: the TLS 1.3 Certificate message carries exactly what was asked for. */
  lemma Certificate13RoundTrip(c: Chain, ocspStapling: bool, scts: bool)
    requires Marshal13(c, ocspStapling, scts).Some?
    ensures var asked := Asked(c, ocspStapling, scts);
      Unmarshal13(Marshal13(c, ocspStapling, scts).value) ==
        if Sound(asked) then Some((Kept(asked), Kept(asked).ocsp.Some?, Kept(asked).scts.Some?)) else None
  {
    var asked := Asked(c, ocspStapling, scts);
    var chain, data := MarshalChain(asked).value, Marshal13(c, ocspStapling, scts).value;
    assert data[4..] == [0] + chain;
    ReadLpOfLp(1, [], chain);
    assert UInt(1, 0) + [] + chain == [0] + chain;
    ChainBack(asked, []);
    assert chain + [] == chain;
  }
}
