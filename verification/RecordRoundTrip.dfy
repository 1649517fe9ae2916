/** What a matching reader makes of a writer's records: exactly the payloads and content
    types written, over any sequence of records and key changes, in every mode.
 */
module RecordRoundTrip {
  import opened Wire
  import opened Padding
  import opened Nonce
  import opened Record

  ghost predicate BlockLaw(p: Prims, key: Octets, x: Octets) {
    && |p.blockEncrypt(key, x)| == |x| && p.blockDecrypt(key, p.blockEncrypt(key, x)) == x
  }

  ghost predicate SealLaw(p: Prims, key: Octets, nonce: Octets, x: Octets, ad: Octets) {
    && |p.seal(key, nonce, x, ad)| == |x| + OVERHEAD
    && p.open(key, nonce, p.seal(key, nonce, x, ad), ad) == Some(x)
  }

  ghost predicate MacLaw(p: Prims, m: MacKey, x: Octets) { |p.mac(m.key, x)| == m.size }

  /** Decryption undoes encryption, opening undoes sealing, and MACs have a fixed size. */
  ghost predicate Laws(p: Prims, m: Option<MacKey>) {
    && (forall key, x :: BlockLaw(p, key, x))
    && (forall key, nonce, x, ad :: SealLaw(p, key, nonce, x, ad))
    && (m.Some? ==> forall x :: MacLaw(p, m.value, x))
  }

  /** A writer and a reader activated together.  Their sequence numbers agree from the
      activation of a cipher on; before it the writer does not count and the reader does. */
  ghost predicate Synced(w: Half, r: Half) {
    && HalfOk(w) && HalfOk(r)
    && w.version == r.version && w.spec == r.spec && w.next == r.next
    && (w.spec.cipher != Null ==> w.number == r.number)
  }

  // ---------------------------------------------------------------- ciphers

  lemma XorBack(a: Octets, b: Octets)
    requires |a| == |b|
    ensures XorBytes(XorBytes(a, b), b) == a
  {
    forall i | 0 <= i < |a| ensures XorBytes(XorBytes(a, b), b)[i] == a[i] { XorCancels(a[i], b[i], 0); }
  }

  lemma StreamBack(p: Prims, key: Octets, pos: nat, data: Octets)
    ensures XorStream(p, key, pos, XorStream(p, key, pos, data)) == data
  {
    forall i | 0 <= i < |data| ensures XorStream(p, key, pos, XorStream(p, key, pos, data))[i] == data[i] {
      XorCancels(data[i], p.keystream(key, pos + i), 0);
    }
  }

  lemma {:induction false} CbcBack(p: Prims, key: Octets, b: nat, iv: Octets, data: Octets, k: nat)
    requires (forall x :: BlockLaw(p, key, x)) && |data| == k * b && |iv| == b
    ensures |CbcEncrypt(p, key, b, iv, data, k)| == |data|
    ensures CbcDecrypt(p, key, b, iv, CbcEncrypt(p, key, b, iv, data, k), k) == data
    decreases k
  {
    if k > 0 {
      BlocksLeft(k, b);
      var x := XorBytes(data[..b], iv);
      assert BlockLaw(p, key, x);
      var c := p.blockEncrypt(key, x);
      CbcBack(p, key, b, c, data[b..], k - 1);
      var out := CbcEncrypt(p, key, b, iv, data, k);
      assert out[..b] == c && out[b..] == CbcEncrypt(p, key, b, c, data[b..], k - 1);
      XorBack(data[..b], iv);
      assert data == data[..b] + data[b..];
    }
  }

  lemma CbcAllBack(p: Prims, key: Octets, b: nat, iv: Octets, data: Octets)
    requires (forall x :: BlockLaw(p, key, x)) && 0 < b && |data| % b == 0 && |iv| == b
    ensures |CbcEncryptAll(p, key, b, iv, data)| == |data|
    ensures CbcDecryptAll(p, key, b, iv, CbcEncryptAll(p, key, b, iv, data)) == data
  {
    BodyBlocks(|data|, b, 0);
    CbcBack(p, key, b, iv, data, |data| / b);
  }

  // ---------------------------------------------------------------- records

  lemma Split(typ: bv8, vers: Octets, n: nat, body: Octets)
    requires |vers| == 2
    ensures var record := Header(typ, vers, n) + body;
      && |record| == HEADER + |body| && record[0] == typ && record[..3] == [typ] + vers
      && record[..HEADER] == Header(typ, vers, n) && record[HEADER..] == body
  {
  }

  /** The MAC check finds the payload that the MAC was computed over. */
  lemma MacAccepted(p: Prims, h: Half, m: MacKey, typ: bv8, vers: Octets, payload: Octets, clear: Octets, pad: nat)
    requires |vers| == 2
    requires var mac := MacOf(p, m, h.number, Header(typ, vers, |payload|), payload);
      |mac| == m.size && |clear| == |payload| + m.size + pad && clear[..|payload| + m.size] == payload + mac
    ensures CheckMac(p, h, m, [typ] + vers, clear, pad, true) == FinishRead(h, typ, payload)
  {
    var n := |payload|;
    var mac := MacOf(p, m, h.number, Header(typ, vers, n), payload);
    assert clear[..n] == clear[..n + m.size][..n] == payload;
    assert clear[n..n + m.size] == clear[..n + m.size][n..] == mac;
    assert [typ] + vers + LengthBytes(n) == Header(typ, vers, n);
  }

  /** Reading the record that `FinishWrite` produced. */
  ghost predicate ReadsBack(p: Prims, r: Half, w: Written, typ: bv8, payload: Octets)
    requires HalfOk(r)
  {
    w.Written? ==>
      && |w.record| >= HEADER
      && var o := Decrypt(p, r, w.record);
      o.Opened? && o.typ == typ && o.payload == payload && Synced(w.half, o.half)
  }

  lemma NullBack(p: Prims, w: Half, r: Half, typ: bv8, vers: Octets, payload: Octets)
    requires Synced(w, r) && w.spec.cipher.Null? && |vers| == 2 && Increment(r.number).Some?
    ensures ReadsBack(p, r, Encrypt(p, w, typ, vers, payload, []), typ, payload)
  {
    Split(typ, vers, |payload|, payload);
    IncrementAddsOne(r.number);
  }

  lemma StreamRecordBack(p: Prims, w: Half, r: Half, typ: bv8, vers: Octets, payload: Octets)
    requires Synced(w, r) && w.spec.cipher.Stream? && Laws(p, w.spec.mac) && |vers| == 2
    ensures ReadsBack(p, r, Encrypt(p, w, typ, vers, payload, []), typ, payload)
  {
    hide Increment, XorStream, Header;
    var Stream(key, pos) := w.spec.cipher;
    var m, header := w.spec.mac.value, Header(typ, vers, |payload|);
    assert MacLaw(p, m, w.number + header + payload);
    var clear := payload + MacOf(p, m, w.number, header, payload);
    var body := XorStream(p, key, pos, clear);
    Split(typ, vers, |body|, body);
    StreamBack(p, key, pos, clear);
    assert clear[..|payload| + m.size] == clear;
    MacAccepted(p, WithCipher(r, Stream(key, pos + |clear|)), m, typ, vers, payload, clear, 0);
    IncrementAddsOne(w.number);
  }

  lemma PrefixBack(p: Prims, w: Half, r: Half, typ: bv8, vers: Octets, payload: Octets)
    requires Synced(w, r) && w.spec.cipher.PrefixAead? && Laws(p, None) && |vers| == 2 && |payload| <= MAX_PLAINTEXT
    ensures ReadsBack(p, r, Encrypt(p, w, typ, vers, payload, []), typ, payload)
  {
    var PrefixAead(key, fixed) := w.spec.cipher;
    var nonce, ad := w.number, w.number + Header(typ, vers, |payload|);
    assert SealLaw(p, key, Prefixed(fixed, nonce), payload, ad);
    var sealed := p.seal(key, Prefixed(fixed, nonce), payload, ad);
    var body := nonce + sealed;
    Split(typ, vers, |body|, body);
    SealedLengthIs(sealed, payload);
    assert body[..SEQ_BYTES] == nonce && body[SEQ_BYTES..] == sealed;
    AdditionalData(w.number, typ, vers, |payload|);
    hide Increment, Prefixed, Header, LengthBytes;
    IncrementAddsOne(w.number);
  }

  lemma SealedLengthIs(sealed: Octets, payload: Octets)
    requires |sealed| == |payload| + OVERHEAD && |payload| <= MAX_PLAINTEXT
    ensures SealedLength(sealed) == LengthBytes(|payload|)
  {
    assert (|sealed| - OVERHEAD) % 0x1_0000 == |payload|;
  }

  lemma AdditionalData(number: Octets, typ: bv8, vers: Octets, n: nat)
    ensures number + ([typ] + vers) + LengthBytes(n) == number + Header(typ, vers, n)
  {
  }

  lemma XorBack12(p: Prims, w: Half, r: Half, typ: bv8, vers: Octets, payload: Octets)
    requires Synced(w, r) && w.spec.cipher.XorAead? && w.version != TLS13
    requires Laws(p, None) && |vers| == 2 && |payload| <= MAX_PLAINTEXT
    ensures ReadsBack(p, r, Encrypt(p, w, typ, vers, payload, []), typ, payload)
  {
    var XorAead(key, mask) := w.spec.cipher;
    var nonce, ad := Masked(mask, w.number), w.number + Header(typ, vers, |payload|);
    assert SealLaw(p, key, nonce, payload, ad);
    var sealed := p.seal(key, nonce, payload, ad);
    Split(typ, vers, |sealed|, sealed);
    SealedLengthIs(sealed, payload);
    AdditionalData(w.number, typ, vers, |payload|);
    hide Increment, Masked, Header, LengthBytes;
    IncrementAddsOne(w.number);
  }

  lemma InnerOf(payload: Octets, typ: bv8)
    requires typ != 0
    ensures payload + [typ] != [] && Inner(payload + [typ]) == Some((typ, payload))
  {
    assert (payload + [typ])[..|payload|] == payload;
  }

  lemma XorBack13(p: Prims, w: Half, r: Half, typ: bv8, vers: Octets, payload: Octets)
    requires Synced(w, r) && w.spec.cipher.XorAead? && w.version == TLS13
    requires Laws(p, None) && |vers| == 2 && |payload| <= MAX_PLAINTEXT && typ != 0
    ensures ReadsBack(p, r, Encrypt(p, w, typ, vers, payload, []), typ, payload)
  {
    var XorAead(key, mask) := w.spec.cipher;
    var nonce, ad := Masked(mask, w.number), Header(APPLICATION_DATA, vers, |payload| + 1 + OVERHEAD);
    assert SealLaw(p, key, nonce, payload + [typ], ad);
    var sealed := p.seal(key, nonce, payload + [typ], ad);
    Split(APPLICATION_DATA, vers, |sealed|, sealed);
    InnerOf(payload, typ);
    hide Increment, Masked, Header, LengthBytes, Inner;
    IncrementAddsOne(w.number);
  }

  lemma RoundUpIs(a: nat, b: nat)
    requires 0 < b
    ensures RoundUp(a, b) == if a % b == 0 then a else a / b * b + b
  {
    assert a == a / b * b + a % b;
    if a % b != 0 { assert (b - a % b) % b == b - a % b; }
  }

  lemma LongEnough(n: nat, b: nat, least: nat)
    requires 0 < b && n % b == 0 && n >= least
    ensures n >= RoundUp(least, b)
  {
    RoundUpIs(least, b);
    var q, k := n / b, least / b;
    assert n == q * b && least == k * b + least % b;
    if least % b != 0 { NextMultiple(q, k, b); }
  }

  lemma NextMultiple(q: nat, k: nat, b: nat)
    requires q * b > k * b
    ensures q * b >= k * b + b
  {
    assert (q - k) * b > 0;
    AtLeastOne(q - k, b);
  }

  lemma CbcRecordBack(p: Prims, w: Half, r: Half, typ: bv8, vers: Octets, payload: Octets, rand: Octets)
    requires Synced(w, r) && w.spec.cipher.Cbc? && Laws(p, w.spec.mac) && |vers| == 2 && RandOk(w, rand)
    ensures ReadsBack(p, r, Encrypt(p, w, typ, vers, payload, rand), typ, payload)
  {
    hide Increment, Header, LengthBytes, CbcEncryptAll, CbcDecryptAll, DecryptCbc, Pad, PadLength, PaddingOk, ToRemove;
    var Cbc(key, b, chained) := w.spec.cipher;
    var m := w.spec.mac.value;
    assert MacLaw(p, m, w.number + Header(typ, vers, |payload|) + payload);
    var data := payload + MacOf(p, m, w.number, Header(typ, vers, |payload|), payload);
    var e := ExplicitNonceLen(w);
    var iv := if e > 0 then rand else chained;
    PadIsAccepted(data, b);
    var clear := Pad(data, b);
    forall x ensures BlockLaw(p, key, x) { }
    CbcAllBack(p, key, b, iv, clear);
    var out := CbcEncryptAll(p, key, b, iv, clear);
    var body := (if e > 0 then iv else []) + out;
    Split(typ, vers, |body|, body);
    CbcDecrypts(p, r, typ, vers, payload, iv, data, clear, out, body);
    IncrementAddsOne(w.number);
    LastBlockSize(b, iv, out);
  }

  lemma LastBlockSize(b: nat, iv: Octets, out: Octets)
    requires |iv| == b
    ensures |LastBlock(b, iv, out)| == b
  {
  }

  /** The reader decrypts what the writer padded, and then checks the MAC. */
  lemma CbcReaches(p: Prims, r: Half, typ: bv8, vers: Octets, size: nat, iv: Octets, clear: Octets, out: Octets, body: Octets)
    requires HalfOk(r) && r.spec.cipher.Cbc? && |vers| == 2
    requires var m, b, e := r.spec.mac.value, r.spec.cipher.blockSize, ExplicitNonceLen(r);
      && |clear| == size + PadLength(size, b) && m.size <= size
      && |clear| % b == 0 && PaddingOk(clear) && ToRemove(clear) == PadLength(size, b)
      && |iv| == b && |out| == |clear| && CbcDecryptAll(p, r.spec.cipher.key, b, iv, out) == clear
      && (e == 0 ==> iv == r.spec.cipher.iv) && body == (if e > 0 then iv else []) + out
    ensures var b := r.spec.cipher.blockSize;
      DecryptCbc(p, r, [typ] + vers, body) ==
        CheckMac(p, WithCipher(r, Cbc(r.spec.cipher.key, b, LastBlock(b, iv, out))), r.spec.mac.value, [typ] + vers, clear,
                 PadLength(size, b), true)
  {
    hide Increment, Header, LengthBytes, CbcDecryptAll, PaddingOk, ToRemove, LastBlock, CheckMac;
    var m, b, e := r.spec.mac.value, r.spec.cipher.blockSize, ExplicitNonceLen(r);
    assert body[e..] == out && (e > 0 ==> body[..e] == iv);
    WholeBlocks(size, b);
    LongEnough(|out|, b, m.size + 1);
    BodyMod(|out|, b, e);
  }

  lemma CbcDecrypts(p: Prims, r: Half, typ: bv8, vers: Octets, payload: Octets,
                    iv: Octets, data: Octets, clear: Octets, out: Octets, body: Octets)
    requires HalfOk(r) && r.spec.cipher.Cbc? && |vers| == 2
    requires var m, b, e := r.spec.mac.value, r.spec.cipher.blockSize, ExplicitNonceLen(r);
      var mac := MacOf(p, m, r.number, Header(typ, vers, |payload|), payload);
      && |mac| == m.size && data == payload + mac
      && |clear| == |data| + PadLength(|data|, b) && clear[..|data|] == data
      && |clear| % b == 0 && PaddingOk(clear) && ToRemove(clear) == PadLength(|data|, b)
      && |iv| == b && |out| == |clear| && CbcDecryptAll(p, r.spec.cipher.key, b, iv, out) == clear
      && (e == 0 ==> iv == r.spec.cipher.iv) && body == (if e > 0 then iv else []) + out
    ensures var b := r.spec.cipher.blockSize;
      DecryptCbc(p, r, [typ] + vers, body) ==
        FinishRead(WithCipher(r, Cbc(r.spec.cipher.key, b, LastBlock(b, iv, out))), typ, payload)
  {
    hide Increment, Header, LengthBytes, CbcDecryptAll, PaddingOk, ToRemove, LastBlock, DecryptCbc;
    var m, b := r.spec.mac.value, r.spec.cipher.blockSize;
    CbcReaches(p, r, typ, vers, |data|, iv, clear, out, body);
    MacAccepted(p, WithCipher(r, Cbc(r.spec.cipher.key, b, LastBlock(b, iv, out))), m, typ, vers, payload, clear,
                PadLength(|data|, b));
  }

  lemma BodyMod(n: nat, b: nat, e: nat)
    requires 0 < b && n % b == 0 && (e == 0 || e == b)
    ensures (n + e) % b == 0
  {
    var q := n / b;
    assert n == q * b;
    if e == b {
      assert n + b == (q + 1) * b;
      MultipleMod(q + 1, b);
    }
  }

  /** Main result, one record: a matching reader gets back the content type and the
      payload, and the two still match.  Without a cipher the reader counts alone, so only
      there can its counter be the one to run out.
   */
  lemma RecordBack(p: Prims, w: Half, r: Half, typ: bv8, vers: Octets, payload: Octets, rand: Octets)
    requires Synced(w, r) && Laws(p, w.spec.mac) && RandOk(w, rand)
    requires |vers| == 2 && |payload| <= MAX_PLAINTEXT && typ != 0
    requires w.spec.cipher.Null? ==> Increment(r.number).Some?
    ensures ReadsBack(p, r, Encrypt(p, w, typ, vers, payload, rand), typ, payload)
    ensures Encrypt(p, w, typ, vers, payload, rand).WritePanic? <==>
      w.spec.cipher != Null && Increment(w.number).None?
  {
    hide ReadsBack;
    match w.spec.cipher
    case Null => NullBack(p, w, r, typ, vers, payload);
    case Stream(_, _) => StreamRecordBack(p, w, r, typ, vers, payload);
    case Cbc(_, _, _) => CbcRecordBack(p, w, r, typ, vers, payload, rand);
    case PrefixAead(_, _) => PrefixBack(p, w, r, typ, vers, payload);
    case XorAead(_, _) =>
      if w.version == TLS13 { XorBack13(p, w, r, typ, vers, payload); }
      else { XorBack12(p, w, r, typ, vers, payload); }
  }

  // ---------------------------------------------------------------- whole streams

  datatype Op = Send(typ: bv8, vers: Octets, payload: Octets, rand: Octets) | Rekeying(change: KeyChange)

  /** What a writer may do next: send a record of legal size, or change keys. */
  ghost predicate OpOk(p: Prims, w: Half, op: Op) {
    match op
    case Send(typ, vers, payload, rand) => typ != 0 && |vers| == 2 && |payload| <= MAX_PLAINTEXT && RandOk(w, rand)
    case Rekeying(k) => ChangeOk(k, w) && (k.Prepare? ==> Laws(p, k.spec.mac))
  }

  /** One operation of the writer; `None` if it stops (a panic, or nothing prepared). */
  function WriteOne(p: Prims, w: Half, op: Op): Option<(Half, seq<Octets>)>
    requires HalfOk(w)
  {
    match op
    case Send(typ, vers, payload, rand) =>
      if |vers| != 2 || !RandOk(w, rand) then None
      else
        var x := Encrypt(p, w, typ, vers, payload, rand);
        if x.WritePanic? || !HalfOk(x.half) then None else Some((x.half, [x.record]))
    case Rekeying(k) =>
      if !ChangeOk(k, w) then None
      else
        var x :- Rekey(w, k);
        Some((x, []))
  }

  function WriteAll(p: Prims, w: Half, ops: seq<Op>): Option<(Half, seq<Octets>)>
    requires HalfOk(w)
    decreases |ops|
  {
    if ops == [] then Some((w, []))
    else
      var first :- WriteOne(p, w, ops[0]);
      if !HalfOk(first.0) then None
      else
        var rest :- WriteAll(p, first.0, ops[1..]);
        Some((rest.0, first.1 + rest.1))
  }

  datatype Content = Content(typ: bv8, payload: Octets)

  /** The reader takes the next record, or changes keys, where the writer did. */
  function ReadAll(p: Prims, r: Half, ops: seq<Op>, records: seq<Octets>): Option<(Half, seq<Content>)>
    requires HalfOk(r)
    decreases |ops|
  {
    if ops == [] then Some((r, []))
    else match ops[0]
      case Rekeying(k) =>
        if !ChangeOk(k, r) then None
        else
          var r' :- Rekey(r, k);
          ReadAll(p, r', ops[1..], records)
      case Send(_, _, _, _) =>
        if records == [] || |records[0]| < HEADER then None
        else
          var o := Decrypt(p, r, records[0]);
          if !o.Opened? || !HalfOk(o.half) then None
          else
            var rest :- ReadAll(p, o.half, ops[1..], records[1..]);
            Some((rest.0, [Content(o.typ, o.payload)] + rest.1))
  }

  /** What was sent. */
  function Sent(ops: seq<Op>): seq<Content> {
    if ops == [] then []
    else (if ops[0].Send? then [Content(ops[0].typ, ops[0].payload)] else []) + Sent(ops[1..])
  }

  ghost predicate OpsOk(p: Prims, w: Half, ops: seq<Op>)
    requires HalfOk(w)
    decreases |ops|
  {
    ops == [] || (OpOk(p, w, ops[0]) &&
      (var next := WriteOne(p, w, ops[0]);
       next.Some? && HalfOk(next.value.0) ==> OpsOk(p, next.value.0, ops[1..])))
  }

  ghost predicate LawsOf(p: Prims, w: Half) {
    Laws(p, w.spec.mac) && (w.next.Some? ==> Laws(p, w.next.value.mac))
  }

  /** A reader's counter after a record it could read. */
  lemma CounterAfter(p: Prims, r: Half, record: Octets)
    requires HalfOk(r) && |record| >= HEADER && Decrypt(p, r, record).Opened?
    ensures var h := Decrypt(p, r, record).half; Number(h.number) <= Number(r.number) + 1
    ensures var h := Decrypt(p, r, record).half; h.spec.mac == r.spec.mac && h.next == r.next
  {
    hide Increment, Number, Inner, XorStream, CbcDecryptAll, MacOf, LastBlock, PaddingOk, ToRemove, RoundUp;
    IncrementAddsOne(r.number);
  }

  lemma SendBack(p: Prims, w: Half, r: Half, op: Op)
    requires Synced(w, r) && LawsOf(p, w) && op.Send? && OpOk(p, w, op)
    requires Number(r.number) + 1 < Limit(SEQ_BYTES) && WriteOne(p, w, op).Some?
    ensures var (w', out) := WriteOne(p, w, op).value;
      && |out| == 1 && |out[0]| >= HEADER
      && var o := Decrypt(p, r, out[0]);
      && o.Opened? && o.typ == op.typ && o.payload == op.payload && Synced(w', o.half) && LawsOf(p, w')
      && Number(o.half.number) <= Number(r.number) + 1
  {
    hide Increment, Laws, Decrypt, Encrypt, Number, Limit;
    IncrementAddsOne(r.number);
    RecordBack(p, w, r, op.typ, op.vers, op.payload, op.rand);
    var x := Encrypt(p, w, op.typ, op.vers, op.payload, op.rand);
    CounterAfter(p, r, x.record);
  }

  lemma RekeyBack(p: Prims, w: Half, r: Half, k: KeyChange)
    requires Synced(w, r) && LawsOf(p, w) && OpOk(p, w, Rekeying(k)) && WriteOne(p, w, Rekeying(k)).Some?
    ensures var w' := WriteOne(p, w, Rekeying(k)).value.0;
      && ChangeOk(k, r) && Rekey(r, k).Some? && Synced(w', Rekey(r, k).value) && LawsOf(p, w')
      && Number(Rekey(r, k).value.number) <= Number(r.number)
  {
    hide Laws, Number;
    assert Laws(p, None) by { NoMac(p, w.spec.mac); }
    ZeroIsZero(ZERO);
  }

  lemma NoMac(p: Prims, m: Option<MacKey>)
    requires Laws(p, m)
    ensures Laws(p, None)
  {
  }

  /** Main result, whole streams: for any sequence of records and key changes, a reader
      activated together with the writer recovers each content type and payload, in order,
      and matches the writer at the end, sequence numbers included once a cipher is
      active; as this holds of every prefix too, it holds after each record.
   */
  lemma {:induction false} StreamsBack(p: Prims, w: Half, r: Half, ops: seq<Op>)
    requires Synced(w, r) && LawsOf(p, w) && OpsOk(p, w, ops)
    requires Number(r.number) + |ops| < Limit(SEQ_BYTES)
    requires WriteAll(p, w, ops).Some?
    ensures var (w', records) := WriteAll(p, w, ops).value;
      var got := ReadAll(p, r, ops, records);
      got.Some? && got.value.1 == Sent(ops) && Synced(w', got.value.0)
    decreases |ops|
  {
    hide Laws, Decrypt, Rekey, Number, Limit, WriteOne, LawsOf, OpOk;
    if ops != [] {
      var op, rest := ops[0], ops[1..];
      var (w1, out) := WriteOne(p, w, op).value;
      if op.Send? {
        SendBack(p, w, r, op);
        var o := Decrypt(p, r, out[0]);
        StreamsBack(p, w1, o.half, rest);
        var records := WriteAll(p, w, ops).value.1;
        assert records[0] == out[0] && records[1..] == WriteAll(p, w1, rest).value.1;
      } else {
        RekeyBack(p, w, r, op.change);
        assert out == [] by { NoRecord(p, w, op); }
        StreamsBack(p, w1, Rekey(r, op.change).value, rest);
        assert out + WriteAll(p, w1, rest).value.1 == WriteAll(p, w1, rest).value.1;
      }
    }
  }

  lemma NoRecord(p: Prims, w: Half, op: Op)
    requires HalfOk(w) && op.Rekeying? && WriteOne(p, w, op).Some?
    ensures WriteOne(p, w, op).value.1 == []
  {
  }

  // ---------------------------------------------------------------- authenticity

  /** `payload` stands at the front of `clear`, with its MAC under the reader's sequence
      number behind it. */
  ghost predicate Tagged(p: Prims, h: Half, head: Octets, clear: Octets, payload: Octets)
    requires h.spec.mac.Some? && |head| == 3
  {
    var m := h.spec.mac.value;
    && |payload| + m.size <= |clear| && clear[..|payload|] == payload
    && clear[|payload|..|payload| + m.size] == p.mac(m.key, h.number + head + LengthBytes(|payload|) + payload)
  }

  /** The record carries a valid tag for the reader's current sequence number. */
  ghost predicate Authentic(p: Prims, h: Half, record: Octets, typ: bv8, payload: Octets)
    requires HalfOk(h) && |record| >= HEADER
  {
    var body := record[HEADER..];
    match h.spec.cipher
    case Null => false
    case Stream(key, pos) => typ == record[0] && Tagged(p, h, record[..3], XorStream(p, key, pos, body), payload)
    case Cbc(_, _, _) => typ == record[0] && exists clear :: PaddingOk(clear) && Tagged(p, h, record[..3], clear, payload)
    case PrefixAead(key, fixed) =>
      && typ == record[0] && |body| >= SEQ_BYTES
      && p.open(key, Prefixed(fixed, body[..SEQ_BYTES]), body[SEQ_BYTES..],
                h.number + record[..3] + SealedLength(body[SEQ_BYTES..])) == Some(payload)
    case XorAead(key, mask) =>
      if h.version == TLS13 then
        && record[0] == APPLICATION_DATA
        && var plain := p.open(key, Masked(mask, h.number), body, record[..HEADER]);
        && plain.Some? && |plain.value| <= MAX_PLAINTEXT + 1
        && (if plain.value == [] then (typ, payload) == (APPLICATION_DATA, []) else Inner(plain.value) == Some((typ, payload)))
      else
        typ == record[0]
        && p.open(key, Masked(mask, h.number), body, h.number + record[..3] + SealedLength(body)) == Some(payload)
  }

  lemma TagChecked(p: Prims, h: Half, g: Half, head: Octets, clear: Octets, pad: nat, good: bool)
    requires h.spec.mac.Some? && |head| == 3 && g.number == h.number
    requires CheckMac(p, g, h.spec.mac.value, head, clear, pad, good).Opened?
    ensures good && CheckMac(p, g, h.spec.mac.value, head, clear, pad, good).typ == head[0]
    ensures Tagged(p, h, head, clear, CheckMac(p, g, h.spec.mac.value, head, clear, pad, good).payload)
  {
    hide Increment;
    var m := h.spec.mac.value;
    var n := |CheckMac(p, g, m, head, clear, pad, good).payload|;
    assert h.number + (head + LengthBytes(n)) + clear[..n] == h.number + head + LengthBytes(n) + clear[..n];
  }

  /** Main result: under an active cipher, whatever a reader delivers was authentic under its
      current sequence number, whoever wrote it; TLS 1.3's unprotected ChangeCipherSpec,
      which is ignored, is the one exception.
   */
  lemma OnlyAuthenticDelivered(p: Prims, h: Half, record: Octets)
    requires HalfOk(h) && |record| >= HEADER && h.spec.cipher != Null
    requires !(h.version == TLS13 && record[0] == CHANGE_CIPHER_SPEC)
    requires Decrypt(p, h, record).Opened?
    ensures Authentic(p, h, record, Decrypt(p, h, record).typ, Decrypt(p, h, record).payload)
  {
    hide Increment, CheckMac, Inner, XorStream, Masked, Prefixed, SealedLength, PaddingOk, Tagged;
    var body := record[HEADER..];
    match h.spec.cipher
    case Stream(key, pos) =>
      TagChecked(p, h, WithCipher(h, Stream(key, pos + |body|)), record[..3], XorStream(p, key, pos, body), 0, true);
    case Cbc(_, _, _) => CbcAuthentic(p, h, record[..3], body);
    case _ =>
  }

  lemma CbcAuthentic(p: Prims, h: Half, head: Octets, body: Octets)
    requires HalfOk(h) && h.spec.cipher.Cbc? && |head| == 3 && DecryptCbc(p, h, head, body).Opened?
    ensures var o := DecryptCbc(p, h, head, body);
      o.typ == head[0] && exists clear :: PaddingOk(clear) && Tagged(p, h, head, clear, o.payload)
  {
    hide Increment, CheckMac, PaddingOk, Tagged, CbcDecryptAll, LastBlock, ToRemove, RoundUp;
    var Cbc(key, b, chained) := h.spec.cipher;
    var e := ExplicitNonceLen(h);
    var iv, rest := if e > 0 then body[..e] else chained, body[e..];
    BodyBlocks(|body|, b, e);
    var clear := CbcDecryptAll(p, key, b, iv, rest);
    TagChecked(p, h, WithCipher(h, Cbc(key, b, LastBlock(b, iv, rest))), head, clear, ToRemove(clear), PaddingOk(clear));
  }
}
