/** The Certificate and CertificateRequest messages of TLS 1.2 and older, with their
    hand-written parsers.
 */
module CertificateMsg {
  import opened Wire

  const TYPE_CERTIFICATE: byte := 11
  const TYPE_CERTIFICATE_REQUEST: byte := 13
  const WORD := 0x1_0000_0000

  // ---------------------------------------------------------------- Certificate

  function EncodeCert(c: Bytes): Build { Lp(3, Some(c)) }

  function ReadCert(s: Bytes): Parsed<Bytes> { ReadLp(3, s) }

  function CertsLength(certs: seq<Bytes>): nat {
    if certs == [] then 0 else 3 + |certs[0]| + CertsLength(certs[1..])
  }

  /** A 24-bit length field; longer lengths lose their upper bits. */
  function Len24(n: nat): (b: Bytes)
    ensures |b| == 3
  {
    UInt(3, n % Cap(3))
  }

  function CertsBody(certs: seq<Bytes>): Bytes {
    if certs == [] then [] else Len24(|certs[0]|) + certs[0] + CertsBody(certs[1..])
  }

  function MarshalCertificate(certs: seq<Bytes>): Bytes {
    [TYPE_CERTIFICATE] + Len24(3 + CertsLength(certs)) + Len24(CertsLength(certs)) + CertsBody(certs)
  }

  /** The plain reading of the parser: the announced length is the rest of the message, the
      rest is a list of vectors, and the last of them is not empty. */
  function UnmarshalCertificate(data: Bytes): Option<seq<Bytes>> {
    if |data| < 7 || Value(data[4..7]) != |data| - 7 then None
    else
      var certs :- ParseItems(ReadCert, data[7..]);
      if certs != [] && certs[|certs| - 1] == [] then None else Some(certs)
  }

  // ---------------------------------------------------------------- loops over lists

  /** A list in front of an outcome. */
  function Prepend<T>(xs: seq<T>, o: Option<seq<T>>): Option<seq<T>> {
    if o.None? then None else Some(xs + o.value)
  }

  lemma PrependOne<T>(xs: seq<T>, x: T, o: Option<seq<T>>)
    ensures Prepend(xs, Prepend([x], o)) == Prepend(xs + [x], o)
    ensures Prepend([], o) == o && Prepend(xs, Some([])) == Some(xs)
  {
    if o.Some? {
      assert xs + ([x] + o.value) == (xs + [x]) + o.value;
      assert [] + o.value == o.value;
    }
    assert xs + [] == xs;
  }

  lemma ItemStep<T>(item: Bytes -> Parsed<T>, d: Bytes)
    requires item(d).Got? && |item(d).rest| < |d|
    ensures ParseItems(item, d) == Prepend([item(d).value], ParseItems(item, item(d).rest))
  {
  }

  /** Reading the next vector when enough bytes are there, and failing when not. */
  lemma NextCert(d: Bytes)
    requires |d| >= 3
    ensures var n := Value(d[..3]);
      if |d| < 3 + n then ParseItems(ReadCert, d) == None
      else ParseItems(ReadCert, d) == Prepend([d[3..3 + n]], ParseItems(ReadCert, d[3 + n..]))
  {
    hide Value;
    if |d| >= 3 + Value(d[..3]) { ItemStep(ReadCert, d); }
  }

  /** The first pass, over the bytes `d` of which `certsLen` are announced to be left: the
      two never differ, so the unsigned subtraction never wraps. */
  method CountCerts(data: Bytes) returns (count: Option<nat>)
    requires 7 <= |data| < WORD && Value(data[4..7]) == |data| - 7
    ensures count.Some? <==> UnmarshalCertificate(data).Some?
    ensures count.Some? ==> count.value == |UnmarshalCertificate(data).value|
  {
    hide Value, ParseItems;
    var certsLen, d, n := Value(data[4..7]), data[7..], 0;
    ghost var xs: seq<Bytes> := [];
    PrependOne(xs, [], ParseItems(ReadCert, d));
    while certsLen > 0
      invariant certsLen == |d| < WORD && |xs| == n
      invariant ParseItems(ReadCert, data[7..]) == Prepend(xs, ParseItems(ReadCert, d))
      invariant n > 0 && d == [] ==> xs[n - 1] != []
      decreases |d|
    {
      if |d| < 4 {
        ShortTail(d);
        return None;
      }
      NextCert(d);
      var certLen := Value(d[..3]);
      if |d| % WORD < 3 + certLen { return None; }
      PrependOne(xs, d[3..3 + certLen], ParseItems(ReadCert, d[3 + certLen..]));
      xs := xs + [d[3..3 + certLen]];
      d := d[3 + certLen..];
      certsLen := (certsLen - (3 + certLen)) % WORD;
      n := n + 1;
    }
    NoneLeft(ReadCert);
    PrependOne(xs, [], None);
    return Some(n);
  }

  lemma NoneLeft<T>(item: Bytes -> Parsed<T>)
    ensures ParseItems(item, []) == Some([])
  {
  }

  /** With fewer than four bytes left there can only be one more vector, an empty one. */
  lemma ShortTail(d: Bytes)
    requires 0 < |d| < 4
    ensures ParseItems(ReadCert, d).Some? ==> ParseItems(ReadCert, d).value == [[]]
  {
    hide Value;
    if ReadCert(d).Got? { assert ReadCert(d).rest == [] && ReadCert(d).value == []; }
  }

  /** Both passes: the first counts and checks, the second cuts without checking. */
  method Unmarshal(data: Bytes) returns (certs: Option<seq<Bytes>>)
    requires |data| < WORD
    ensures certs == UnmarshalCertificate(data)
  {
    hide Value, ParseItems;
    if |data| < 7 { return None; }
    if |data| % WORD != Value(data[4..7]) + 7 { return None; }
    var count := CountCerts(data);
    if count.None? { return None; }
    var d, xs := data[7..], [];
    PrependOne(xs, [], ParseItems(ReadCert, d));
    for i := 0 to count.value
      invariant |xs| == i
      invariant ParseItems(ReadCert, data[7..]) == Prepend(xs, ParseItems(ReadCert, d))
    {
      NotDone(d);
      NextCert(d);
      var certLen := Value(d[..3]);
      PrependOne(xs, d[3..3 + certLen], ParseItems(ReadCert, d[3 + certLen..]));
      xs := xs + [d[3..3 + certLen]];
      d := d[3 + certLen..];
    }
    assert ParseItems(ReadCert, d).value == [];
    PrependOne(xs, [], None);
    return Some(xs);
  }

  /** If more items are to come there are at least three bytes. */
  lemma NotDone(d: Bytes)
    ensures ParseItems(ReadCert, d).Some? && ParseItems(ReadCert, d).value != [] ==> |d| >= 3
  {
  }

  lemma {:induction false} BodyAppend(certs: seq<Bytes>, c: Bytes)
    ensures CertsBody(certs + [c]) == CertsBody(certs) + (Len24(|c|) + c)
    ensures CertsLength(certs + [c]) == CertsLength(certs) + 3 + |c|
    ensures |CertsBody(certs)| == CertsLength(certs)
  {
    if certs == [] {
      assert certs + [c] == [c] && [c][1..] == [];
      assert Len24(|c|) + c + [] == [] + (Len24(|c|) + c);
    } else {
      assert (certs + [c])[1..] == certs[1..] + [c];
      BodyAppend(certs[1..], c);
      var h := Len24(|certs[0]|) + certs[0];
      assert h + (CertsBody(certs[1..]) + (Len24(|c|) + c)) == (h + CertsBody(certs[1..])) + (Len24(|c|) + c);
    }
  }

  /** Writes `b` into `x` at `o`. */
  method Place(x: array<byte>, o: nat, b: Bytes)
    requires o + |b| <= x.Length
    modifies x
    ensures x[..] == old(x[..])[..o] + b + old(x[..])[o + |b|..]
  {
    ghost var was := x[..];
    for k := 0 to |b|
      invariant forall j :: o <= j < o + k ==> x[j] == b[j - o]
      invariant forall j :: 0 <= j < o || o + k <= j < x.Length ==> x[j] == was[j]
    {
      x[o + k] := b[k];
    }
  }

  method BodyLength(certs: seq<Bytes>) returns (length: nat)
    ensures length == CertsLength(certs)
  {
    hide CertsBody, CertsLength, Len24;
    EmptyBody();
    assert certs[..0] == [];
    length := 0;
    for n := 0 to |certs|
      invariant length == CertsLength(certs[..n])
    {
      assert certs[..n + 1] == certs[..n] + [certs[n]];
      BodyAppend(certs[..n], certs[n]);
      length := length + 3 + |certs[n]|;
    }
    assert certs[..|certs|] == certs;
  }

  /** Writes the certificates one after another, from `start` on. */
  method PlaceBody(x: array<byte>, start: nat, certs: seq<Bytes>)
    requires x.Length == start + CertsLength(certs)
    modifies x
    ensures x[..] == old(x[..start]) + CertsBody(certs)
  {
    hide CertsBody, CertsLength, Len24;
    EmptyBody();
    assert certs[..0] == [];
    ghost var head := x[..start];
    var o := start;
    for n := 0 to |certs|
      invariant o == start + CertsLength(certs[..n]) && o <= x.Length
      invariant x[..o] == head + CertsBody(certs[..n])
    {
      assert certs[..n + 1] == certs[..n] + [certs[n]];
      BodyAppend(certs[..n], certs[n]);
      LengthGrows(certs, n + 1);
      ghost var before := x[..];
      var entry := Len24(|certs[n]|) + certs[n];
      Place(x, o, entry);
      Placed(x[..], before, o, entry);
      assert head + CertsBody(certs[..n]) + entry == head + (CertsBody(certs[..n]) + entry);
      o := o + |entry|;
    }
    assert certs[..|certs|] == certs;
    assert x[..o] == x[..];
  }

  lemma Placed(after: Bytes, before: Bytes, o: nat, b: Bytes)
    requires o + |b| <= |before| && after == before[..o] + b + before[o + |b|..]
    ensures after[..o + |b|] == before[..o] + b
  {
  }

  /** The printer: one buffer of the final size, filled in place. */
  method Marshal(certs: seq<Bytes>) returns (x: array<byte>)
    ensures fresh(x) && x[..] == MarshalCertificate(certs)
  {
    var n := BodyLength(certs);
    x := new byte[7 + n](_ => 0);
    var head := [TYPE_CERTIFICATE] + Len24(3 + n) + Len24(n);
    Place(x, 0, head);
    assert x[..7] == head;
    PlaceBody(x, 7, certs);
  }

  lemma EmptyBody()
    ensures CertsBody([]) == [] && CertsLength([]) == 0
  {
  }

  lemma {:induction false} LengthGrows(certs: seq<Bytes>, n: nat)
    requires n <= |certs|
    ensures CertsLength(certs[..n]) <= CertsLength(certs)
  {
    if n > 0 {
      assert certs[..n][1..] == certs[1..][..n - 1];
      LengthGrows(certs[1..], n - 1);
    }
  }

  lemma Len24Is(n: nat)
    requires n < Cap(3)
    ensures Len24(n) == UInt(3, n)
  {
  }

  lemma {:induction false} BodyIs(certs: seq<Bytes>)
    requires CertsLength(certs) < Cap(3)
    ensures EncodeItems(EncodeCert, certs) == Some(CertsBody(certs)) && |CertsBody(certs)| == CertsLength(certs)
  {
    if certs != [] {
      BodyIs(certs[1..]);
      Len24Is(|certs[0]|);
      hide UInt, Len24;
    }
  }

  predicate Any(c: Bytes) { true }

  lemma InvertsCert()
    ensures Inverts(ReadCert, EncodeCert, Any)
  {
    forall c, t ensures InvertsAt(ReadCert, EncodeCert, Any, c, t) {
      if |c| < Cap(3) { ReadLpOfLp(3, c, t); }
    }
  }

  /** Main result: within the 24-bit range, a Certificate message parses back to the
      certificates it was printed from, exactly if the last of them is not empty.
   */
  lemma CertificateRoundTrip(certs: seq<Bytes>)
    requires CertsLength(certs) + 3 < Cap(3)
    ensures UnmarshalCertificate(MarshalCertificate(certs)) ==
      if certs == [] || certs[|certs| - 1] != [] then Some(certs) else None
  {
    BodyIs(certs);
    InvertsCert();
    ParseEncodeItems(ReadCert, EncodeCert, Any, certs);
    assert AllValid(Any, certs);
    var data, n := MarshalCertificate(certs), CertsLength(certs);
    ValueUInt(3, n);
    Len24Is(n);
    hide Value, UInt, ParseItems, CertsBody, Len24, Inverts;
    assert data[4..7] == UInt(3, n) && data[7..] == CertsBody(certs);
  }

  /** Main result: no strict prefix of an accepted message is accepted. */
  lemma CertificatePrefixFails(data: Bytes, n: nat)
    requires UnmarshalCertificate(data).Some? && n < |data|
    ensures UnmarshalCertificate(data[..n]).None?
  {
    if n >= 7 { assert data[..n][4..7] == data[4..7]; }
  }

  // ---------------------------------------------------------------- CertificateRequest

  datatype Request = Request(types: Bytes, algorithms: seq<u16>, authorities: seq<Bytes>)

  function EncodeAuthority(a: Bytes): Build { Lp(2, Some(a)) }

  function ReadAuthority(s: Bytes): Parsed<Bytes> { ReadLp(2, s) }

  /** The message within its ranges; `None` stands for fields that would be truncated. */
  function MarshalRequest(m: Request, hasAlgorithms: bool): Build {
    var algorithms := if hasAlgorithms then Lp(2, EncodeItems(U16, m.algorithms)) else Some([]);
    Cat(Some([TYPE_CERTIFICATE_REQUEST]),
        Lp(3, Cat(Cat(Lp(1, Some(m.types)), algorithms), Lp(2, EncodeItems(EncodeAuthority, m.authorities)))))
  }

  function ReadAlgorithms(s: Bytes, has: bool): Parsed<seq<u16>> {
    if !has then Got([], s)
    else match ReadLp(2, s)
      case Bad => Bad
      case Got(list, rest) =>
        if list == [] || |list| % 2 != 0 then Bad
        else
          var xs := ParseItems(ReadU16, list);
          if xs.None? then Bad else Got(xs.value, rest)
  }

  function UnmarshalRequest(data: Bytes, has: bool): Option<Request> {
    if |data| < 5 || Value(data[1..4]) != |data| - 4 then None
    else match ReadLp(1, data[4..])
      case Bad => None
      case Got(types, r1) =>
        if types == [] || r1 == [] then None
        else match ReadAlgorithms(r1, has)
          case Bad => None
          case Got(algorithms, r2) =>
            match ReadLp(2, r2)
            case Bad => None
            case Got(list, r3) =>
              if r3 != [] then None
              else
                var authorities :- ParseItems(ReadAuthority, list);
                Some(Request(types, algorithms, authorities))
  }

  /** The lists by hand: pairs of bytes by index, authorities by a shrinking slice. */
  method ReadPairs(list: Bytes) returns (xs: seq<u16>)
    requires |list| % 2 == 0
    ensures Some(xs) == ParseItems(ReadU16, list)
  {
    hide ParseItems;
    xs := [];
    var d := list;
    PrependOne(xs, 0, ParseItems(ReadU16, d));
    for i := 0 to |list| / 2
      invariant |d| == |list| - 2 * i
      invariant ParseItems(ReadU16, list) == Prepend(xs, ParseItems(ReadU16, d))
    {
      assert d[..2] == [d[0], d[1]];
      var x: u16 := At(d, 0) * 0x100 + d[1];
      ItemStep(ReadU16, d);
      PrependOne(xs, x, ParseItems(ReadU16, d[2..]));
      xs, d := xs + [x], d[2..];
    }
    NoneLeft(ReadU16);
    PrependOne(xs, 0, None);
  }

  predicate AnyU16(x: u16) { true }

  lemma InvertsLists()
    ensures Inverts(ReadU16, U16, AnyU16) && Inverts(ReadAuthority, EncodeAuthority, Any)
  {
    forall x: u16, t ensures InvertsAt(ReadU16, U16, AnyU16, x, t) { ReadU16OfUInt(x, t); }
    forall a, t ensures InvertsAt(ReadAuthority, EncodeAuthority, Any, a, t) {
      if |a| < Cap(2) { ReadLpOfLp(2, a, t); }
    }
  }

  lemma {:induction false} EvenLength(xs: seq<u16>)
    ensures EncodeItems(U16, xs).Some? && |EncodeItems(U16, xs).value| == 2 * |xs|
  {
    if xs != [] { EvenLength(xs[1..]); }
  }

  lemma AlgorithmsBack(xs: seq<u16>, t: Bytes)
    requires 2 * |xs| < Cap(2)
    ensures EncodeItems(U16, xs).Some? && |EncodeItems(U16, xs).value| == 2 * |xs|
    ensures var list := EncodeItems(U16, xs).value;
      ReadAlgorithms(UInt(2, |list|) + list + t, true) == if xs == [] then Bad else Got(xs, t)
  {
    EvenLength(xs);
    AlgorithmsParse(xs);
    hide ParseItems, EncodeItems, UInt, ReadLp, ReadAlgorithms;
    var list := EncodeItems(U16, xs).value;
    ReadLpOfLp(2, list, t);
    ListRead(UInt(2, |list|) + list + t, list, t);
  }

  lemma AlgorithmsParse(xs: seq<u16>)
    ensures EncodeItems(U16, xs).Some? && ParseItems(ReadU16, EncodeItems(U16, xs).value) == Some(xs)
  {
    EvenLength(xs);
    InvertsLists();
    ParseEncodeItems(ReadU16, U16, AnyU16, xs);
    assert AllValid(AnyU16, xs);
  }

  lemma ListRead(s: Bytes, list: Bytes, t: Bytes)
    requires ReadLp(2, s) == Got(list, t) && |list| % 2 == 0
    ensures ReadAlgorithms(s, true) ==
      if list == [] || ParseItems(ReadU16, list).None? then Bad else Got(ParseItems(ReadU16, list).value, t)
  {
  }

  /** Main result: a CertificateRequest parses back to what was printed, exactly if it
      names a certificate type and, where it lists signature algorithms, one of those.
   */
  lemma RequestRoundTrip(m: Request, has: bool)
    requires MarshalRequest(m, has).Some? && (!has ==> m.algorithms == [])
    ensures UnmarshalRequest(MarshalRequest(m, has).value, has) ==
      if m.types != [] && (has ==> m.algorithms != []) then Some(m) else None
  {
    var data := MarshalRequest(m, has).value;
    EvenLength(m.algorithms);
    var list, cas := EncodeItems(U16, m.algorithms).value, EncodeItems(EncodeAuthority, m.authorities).value;
    var t2 := UInt(2, |cas|) + cas + [];
    var t1 := if has then UInt(2, |list|) + list + t2 else t2;
    var body := UInt(1, |m.types|) + m.types + t1;
    RequestLayout(m, has, data, list, cas);
    ValueUInt(3, |body|);
    assert data[1..4] == UInt(3, |body|) && data[4..] == body;
    ReadLpOfLp(1, m.types, t1);
    if has { AlgorithmsBack(m.algorithms, t2); }
    ReadLpOfLp(2, cas, []);
    InvertsLists();
    ParseEncodeItems(ReadAuthority, EncodeAuthority, Any, m.authorities);
    assert AllValid(Any, m.authorities);
  }

  lemma RequestLayout(m: Request, has: bool, data: Bytes, list: Bytes, cas: Bytes)
    requires MarshalRequest(m, has) == Some(data)
    requires EncodeItems(U16, m.algorithms) == Some(list) && EncodeItems(EncodeAuthority, m.authorities) == Some(cas)
    ensures |m.types| < Cap(1) && |cas| < Cap(2) && (has ==> |list| < Cap(2))
    ensures var t2 := UInt(2, |cas|) + cas + [];
      var t1 := if has then UInt(2, |list|) + list + t2 else t2;
      var body := UInt(1, |m.types|) + m.types + t1;
      |body| < Cap(3) && data == [TYPE_CERTIFICATE_REQUEST] + UInt(3, |body|) + body
  {
    var types := UInt(1, |m.types|) + m.types;
    var algorithms := if has then UInt(2, |list|) + list else [];
    var t2 := UInt(2, |cas|) + cas + [];
    Assoc3(types, algorithms, t2);
    assert t2 == UInt(2, |cas|) + cas;
    if has { Assoc3(UInt(2, |list|), list, t2); } else { assert types + [] == types; }
  }

  /** Main result: no strict prefix of an accepted request is accepted. */
  lemma RequestPrefixFails(data: Bytes, has: bool, n: nat)
    requires UnmarshalRequest(data, has).Some? && n < |data|
    ensures UnmarshalRequest(data[..n], has).None?
  {
    if n >= 5 { assert data[..n][1..4] == data[1..4]; }
  }
}
