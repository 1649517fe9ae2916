/** What the protection of a record binds: its sequence number, type, version, length and
    payload.  A record is refused under every sequence number but its own.
 */
module RecordBinding {
  import opened Wire
  import opened Padding
  import opened Nonce
  import opened Record
  import opened RecordRoundTrip

  /** The MAC does not collide on these two inputs. */
  ghost predicate MacApart(p: Prims, key: Octets, x: Octets, y: Octets) { p.mac(key, x) == p.mac(key, y) ==> x == y }

  lemma Cut(a: Octets, s: Octets, b: Octets, t: Octets)
    requires |a| == |b| && a + s == b + t
    ensures a == b && s == t
  {
    assert a == (a + s)[..|a|] && b == (b + t)[..|b|];
    assert s == (a + s)[|a|..] && t == (b + t)[|b|..];
  }

  /** Main result: equal tags under one key mean equal sequence number, header and payload. */
  lemma MacBinds(p: Prims, m: MacKey, number: Octets, header: Octets, payload: Octets,
                 number': Octets, header': Octets, payload': Octets)
    requires |number| == |number'| == SEQ_BYTES && |header| == |header'| == HEADER
    requires MacApart(p, m.key, number + header + payload, number' + header' + payload')
    requires MacOf(p, m, number, header, payload) == MacOf(p, m, number', header', payload')
    ensures number == number' && header == header' && payload == payload'
  {
    Cut(number + header, payload, number' + header', payload');
    Cut(number, header, number', header');
  }

  function Int(b: bv8): nat { b as nat }

  lemma ByteBack(n: nat)
    requires n < 256
    ensures Int(n as bv8) == n
  {
  }

  lemma LengthBytesAre(n: nat)
    ensures Int(LengthBytes(n)[0]) == n / 256 % 256 && Int(LengthBytes(n)[1]) == n % 256
  {
    ByteBack(n / 256 % 256);
    ByteBack(n % 256);
  }

  lemma LengthDetermines(n: nat, n': nat)
    requires n < 0x1_0000 && n' < 0x1_0000 && LengthBytes(n) == LengthBytes(n')
    ensures n == n'
  {
    hide LengthBytes, Int;
    LengthBytesAre(n);
    LengthBytesAre(n');
  }

  lemma HeaderDetermines(typ: bv8, vers: Octets, n: nat, typ': bv8, vers': Octets, n': nat)
    requires |vers| == |vers'| == 2 && n < 0x1_0000 && n' < 0x1_0000
    requires Header(typ, vers, n) == Header(typ', vers', n')
    ensures typ == typ' && vers == vers' && n == n'
  {
    hide LengthBytes;
    Cut([typ] + vers, LengthBytes(n), [typ'] + vers', LengthBytes(n'));
    Cut([typ], vers, [typ'], vers');
    LengthDetermines(n, n');
  }

  /** The additional data that TLS 1.2 AEADs are sealed with determines the sequence
      number, type, version and length; that of TLS 1.3, the header alone, the last three. */
  lemma AdditionalDataDetermines(number: Octets, typ: bv8, vers: Octets, n: nat,
                                 number': Octets, typ': bv8, vers': Octets, n': nat)
    requires |number| == |number'| == SEQ_BYTES && |vers| == |vers'| == 2 && n < 0x1_0000 && n' < 0x1_0000
    ensures number + Header(typ, vers, n) == number' + Header(typ', vers', n') ==>
      number == number' && typ == typ' && vers == vers' && n == n'
    ensures Header(typ, vers, n) == Header(typ', vers', n') ==> typ == typ' && vers == vers' && n == n'
  {
    hide Header;
    if number + Header(typ, vers, n) == number' + Header(typ', vers', n') {
      Cut(number, Header(typ, vers, n), number', Header(typ', vers', n'));
    }
    if Header(typ, vers, n) == Header(typ', vers', n') { HeaderDetermines(typ, vers, n, typ', vers', n'); }
  }

  // ---------------------------------------------------------------- replay and reordering

  /** The MAC check fails on a tag made for another sequence number. */
  lemma MacRefused(p: Prims, h: Half, m: MacKey, number: Octets, typ: bv8, vers: Octets, payload: Octets, clear: Octets, pad: nat)
    requires |vers| == 2 && |number| == |h.number| == SEQ_BYTES && number != h.number
    requires var mac := MacOf(p, m, number, Header(typ, vers, |payload|), payload);
      |mac| == m.size && |clear| == |payload| + m.size + pad && clear[..|payload| + m.size] == payload + mac
    requires MacApart(p, m.key, number + Header(typ, vers, |payload|) + payload,
                      h.number + Header(typ, vers, |payload|) + payload)
    ensures CheckMac(p, h, m, [typ] + vers, clear, pad, true) == BadRecordMac
  {
    var n := |payload|;
    var header := Header(typ, vers, n);
    var mac := MacOf(p, m, number, header, payload);
    assert clear[..n] == clear[..n + m.size][..n] == payload;
    assert clear[n..n + m.size] == clear[..n + m.size][n..] == mac;
    assert [typ] + vers + LengthBytes(n) == header;
    if mac == MacOf(p, m, h.number, header, payload) { MacBinds(p, m, number, header, payload, h.number, header, payload); }
  }

  /** The reader is where the writer was, but for the sequence number. */
  ghost predicate OffCount(w: Half, r: Half) {
    HalfOk(w) && HalfOk(r) && r == w.(number := r.number) && r.number != w.number
  }

  lemma StreamRefused(p: Prims, w: Half, r: Half, typ: bv8, vers: Octets, payload: Octets)
    requires OffCount(w, r) && w.spec.cipher.Stream? && Laws(p, w.spec.mac) && |vers| == 2
    requires Apart(p, w, r, typ, vers, payload)
    requires Encrypt(p, w, typ, vers, payload, []).Written?
    ensures var record := Encrypt(p, w, typ, vers, payload, []).record;
      |record| >= HEADER && Decrypt(p, r, record) == BadRecordMac
  {
    hide Increment, XorStream, Header, CheckMac;
    var Stream(key, pos) := w.spec.cipher;
    var m, header := w.spec.mac.value, Header(typ, vers, |payload|);
    assert MacLaw(p, m, w.number + header + payload);
    var clear := payload + MacOf(p, m, w.number, header, payload);
    var body := XorStream(p, key, pos, clear);
    Split(typ, vers, |body|, body);
    StreamBack(p, key, pos, clear);
    assert clear[..|payload| + m.size] == clear;
    MacRefused(p, WithCipher(r, Stream(key, pos + |clear|)), m, w.number, typ, vers, payload, clear, 0);
  }

  lemma CbcRefused(p: Prims, w: Half, r: Half, typ: bv8, vers: Octets, payload: Octets, rand: Octets)
    requires OffCount(w, r) && w.spec.cipher.Cbc? && Laws(p, w.spec.mac) && |vers| == 2 && RandOk(w, rand)
    requires Apart(p, w, r, typ, vers, payload)
    requires Encrypt(p, w, typ, vers, payload, rand).Written?
    ensures var record := Encrypt(p, w, typ, vers, payload, rand).record;
      |record| >= HEADER && Decrypt(p, r, record) == BadRecordMac
  {
    hide Increment, Header, LengthBytes, CbcEncryptAll, CbcDecryptAll, DecryptCbc, Pad, PadLength, PaddingOk, ToRemove, CheckMac;
    var Cbc(key, b, chained) := w.spec.cipher;
    var m := w.spec.mac.value;
    assert MacLaw(p, m, w.number + Header(typ, vers, |payload|) + payload);
    var data := payload + MacOf(p, m, w.number, Header(typ, vers, |payload|), payload);
    var e := ExplicitNonceLen(w);
    var iv := if e > 0 then rand else chained;
    PadIsAccepted(data, b);
    var clear := Pad(data, b);
    forall x ensures BlockLaw(p, key, x) { }
    CbcAllBack(p, key, b, iv, clear);
    var out := CbcEncryptAll(p, key, b, iv, clear);
    var body := (if e > 0 then iv else []) + out;
    Split(typ, vers, |body|, body);
    CbcReaches(p, r, typ, vers, |data|, iv, clear, out, body);
    MacRefused(p, WithCipher(r, Cbc(key, b, LastBlock(b, iv, out))), m, w.number, typ, vers, payload, clear, PadLength(|data|, b));
  }

  /** The AEAD does not open what was sealed under another nonce or other additional data. */
  ghost predicate SealApart(p: Prims, key: Octets, nonce: Octets, plain: Octets, ad: Octets, nonce': Octets, ad': Octets) {
    p.open(key, nonce', p.seal(key, nonce, plain, ad), ad').Some? ==> nonce == nonce' && ad == ad'
  }

  /** The primitives keep what the two sides compute over apart. */
  ghost predicate Apart(p: Prims, w: Half, r: Half, typ: bv8, vers: Octets, payload: Octets)
    requires OffCount(w, r)
  {
    var header := Header(typ, vers, |payload|);
    match w.spec.cipher
    case Null => true
    case PrefixAead(key, fixed) =>
      SealApart(p, key, Prefixed(fixed, w.number), payload, w.number + header, Prefixed(fixed, w.number), r.number + header)
    case XorAead(key, mask) =>
      if w.version == TLS13 then
        var outer := Header(APPLICATION_DATA, vers, |payload| + 1 + OVERHEAD);
        SealApart(p, key, Masked(mask, w.number), payload + [typ], outer, Masked(mask, r.number), outer)
      else
        SealApart(p, key, Masked(mask, w.number), payload, w.number + header, Masked(mask, r.number), r.number + header)
    case _ => MacApart(p, w.spec.mac.value.key, w.number + header + payload, r.number + header + payload)
  }

  lemma PrefixRefused(p: Prims, w: Half, r: Half, typ: bv8, vers: Octets, payload: Octets)
    requires OffCount(w, r) && w.spec.cipher.PrefixAead? && Laws(p, None) && |vers| == 2 && |payload| <= MAX_PLAINTEXT
    requires Apart(p, w, r, typ, vers, payload)
    requires Encrypt(p, w, typ, vers, payload, []).Written?
    ensures var record := Encrypt(p, w, typ, vers, payload, []).record;
      |record| >= HEADER && Decrypt(p, r, record) == BadRecordMac
  {
    var PrefixAead(key, fixed) := w.spec.cipher;
    var nonce, header := w.number, Header(typ, vers, |payload|);
    assert SealLaw(p, key, Prefixed(fixed, nonce), payload, nonce + header);
    var sealed := p.seal(key, Prefixed(fixed, nonce), payload, nonce + header);
    var body := nonce + sealed;
    Split(typ, vers, |body|, body);
    SealedLengthIs(sealed, payload);
    assert body[..SEQ_BYTES] == nonce && body[SEQ_BYTES..] == sealed;
    AdditionalData(r.number, typ, vers, |payload|);
    if w.number + header == r.number + header { Cut(w.number, header, r.number, header); }
    hide Increment, Prefixed, Header, LengthBytes;
  }

  lemma XorRefused(p: Prims, w: Half, r: Half, typ: bv8, vers: Octets, payload: Octets)
    requires OffCount(w, r) && w.spec.cipher.XorAead? && Laws(p, None) && |vers| == 2 && |payload| <= MAX_PLAINTEXT
    requires Apart(p, w, r, typ, vers, payload)
    requires Encrypt(p, w, typ, vers, payload, []).Written?
    ensures var record := Encrypt(p, w, typ, vers, payload, []).record;
      |record| >= HEADER && Decrypt(p, r, record) == BadRecordMac
  {
    var XorAead(key, mask) := w.spec.cipher;
    if Masked(mask, w.number) == Masked(mask, r.number) { MaskedIsInjective(mask, w.number, r.number); }
    if w.version == TLS13 {
      var outer := Header(APPLICATION_DATA, vers, |payload| + 1 + OVERHEAD);
      assert SealLaw(p, key, Masked(mask, w.number), payload + [typ], outer);
      var sealed := p.seal(key, Masked(mask, w.number), payload + [typ], outer);
      Split(APPLICATION_DATA, vers, |sealed|, sealed);
      hide Increment, Masked, Header, LengthBytes, OpenInner;
    } else {
      var ad := w.number + Header(typ, vers, |payload|);
      assert SealLaw(p, key, Masked(mask, w.number), payload, ad);
      var sealed := p.seal(key, Masked(mask, w.number), payload, ad);
      Split(typ, vers, |sealed|, sealed);
      SealedLengthIs(sealed, payload);
      AdditionalData(r.number, typ, vers, |payload|);
      hide Increment, Masked, Header, LengthBytes;
    }
  }

  /** Main result, every mode: a record is refused by a reader that matches the writer in
      everything but the sequence number: it can be neither replayed nor reordered.
   */
  lemma OtherCountRefused(p: Prims, w: Half, r: Half, typ: bv8, vers: Octets, payload: Octets, rand: Octets)
    requires OffCount(w, r) && w.spec.cipher != Null && Laws(p, w.spec.mac) && RandOk(w, rand)
    requires |vers| == 2 && |payload| <= MAX_PLAINTEXT && Apart(p, w, r, typ, vers, payload)
    requires Encrypt(p, w, typ, vers, payload, rand).Written?
    ensures var record := Encrypt(p, w, typ, vers, payload, rand).record;
      |record| >= HEADER && Decrypt(p, r, record) == BadRecordMac
  {
    hide Apart, Decrypt;
    match w.spec.cipher
    case Stream(_, _) => StreamRefused(p, w, r, typ, vers, payload);
    case Cbc(_, _, _) => CbcRefused(p, w, r, typ, vers, payload, rand);
    case PrefixAead(_, _) => PrefixRefused(p, w, r, typ, vers, payload);
    case XorAead(_, _) => XorRefused(p, w, r, typ, vers, payload);
  }
}
