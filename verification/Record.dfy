/** Record protection: one direction of a connection, in all its modes (none, stream
    cipher, CBC with chained or explicit IV, TLS 1.2 AEAD, TLS 1.3 AEAD), over arbitrary
    primitives.
 */
module Record {
  import opened Wire
  import opened Padding
  import opened Nonce

  const TLS10: u16 := 0x0301
  const TLS11: u16 := 0x0302
  const TLS12: u16 := 0x0303
  const TLS13: u16 := 0x0304

  const CHANGE_CIPHER_SPEC: bv8 := 20
  const ALERT: bv8 := 21
  const HANDSHAKE: bv8 := 22
  const APPLICATION_DATA: bv8 := 23

  const HEADER := 5
  const OVERHEAD := 16
  const MAX_PLAINTEXT := 16384

  datatype Prims = Prims(
    keystream: (Octets, nat) -> bv8,
    blockEncrypt: (Octets, Octets) -> Octets,
    blockDecrypt: (Octets, Octets) -> Octets,
    seal: (Octets, Octets, Octets, Octets) -> Octets,
    open: (Octets, Octets, Octets, Octets) -> Option<Octets>,
    mac: (Octets, Octets) -> Octets)

  /** The state of a cipher; a writer and a reader with the same state match. */
  datatype Cipher =
    | Null
    | Stream(key: Octets, pos: nat)
    | Cbc(key: Octets, blockSize: nat, iv: Octets)
    | PrefixAead(key: Octets, fixed: Octets)
    | XorAead(key: Octets, mask: Octets)

  datatype MacKey = MacKey(key: Octets, size: nat)

  datatype Spec = Spec(cipher: Cipher, mac: Option<MacKey>)

  datatype Half = Half(version: u16, spec: Spec, next: Option<Spec>, number: Octets)

  /** Stream and CBC ciphers come with a MAC, the others without; sizes are right. */
  predicate SpecOk(s: Spec) {
    match s.cipher
    case Null => s.mac.None?
    case Stream(_, _) => s.mac.Some?
    case Cbc(_, b, iv) => s.mac.Some? && 0 < b <= 255 && |iv| == b
    case PrefixAead(_, fixed) => s.mac.None? && |fixed| == 4
    case XorAead(_, mask) => s.mac.None? && |mask| == NONCE_BYTES
  }

  predicate HalfOk(h: Half) {
    && SpecOk(h.spec) && (h.next.Some? ==> SpecOk(h.next.value)) && |h.number| == SEQ_BYTES
    && (h.version == TLS13 ==> h.spec.cipher.Null? || h.spec.cipher.XorAead?)
  }

  const ZERO: Octets := [0, 0, 0, 0, 0, 0, 0, 0]

  // ---------------------------------------------------------------- ciphers

  function XorBytes(a: Octets, b: Octets): (r: Octets)
    requires |a| == |b|
    ensures |r| == |a|
  {
    seq(|a|, i requires 0 <= i < |a| => a[i] ^ b[i])
  }

  function XorStream(p: Prims, key: Octets, pos: nat, data: Octets): (r: Octets)
    ensures |r| == |data|
  {
    seq(|data|, i requires 0 <= i < |data| => data[i] ^ p.keystream(key, pos + i))
  }

  /** Cipher block chaining over `k` blocks of `b` bytes; a block cipher that returned a
      block of another size would make it stop. */
  function CbcEncrypt(p: Prims, key: Octets, b: nat, iv: Octets, data: Octets, k: nat): Octets
    requires |data| == k * b && |iv| == b
    decreases k
  {
    if k == 0 then []
    else
      BlocksLeft(k, b);
      var c := p.blockEncrypt(key, XorBytes(data[..b], iv));
      if |c| != b then [] else c + CbcEncrypt(p, key, b, c, data[b..], k - 1)
  }

  function CbcDecrypt(p: Prims, key: Octets, b: nat, iv: Octets, data: Octets, k: nat): Octets
    requires |data| == k * b && |iv| == b
    decreases k
  {
    if k == 0 then []
    else
      BlocksLeft(k, b);
      var d := p.blockDecrypt(key, data[..b]);
      if |d| != b then [] else XorBytes(d, iv) + CbcDecrypt(p, key, b, data[..b], data[b..], k - 1)
  }

  function CbcEncryptAll(p: Prims, key: Octets, b: nat, iv: Octets, data: Octets): Octets
    requires 0 < b && |data| % b == 0 && |iv| == b
  {
    BodyBlocks(|data|, b, 0);
    CbcEncrypt(p, key, b, iv, data, |data| / b)
  }

  function CbcDecryptAll(p: Prims, key: Octets, b: nat, iv: Octets, data: Octets): Octets
    requires 0 < b && |data| % b == 0 && |iv| == b
  {
    BodyBlocks(|data|, b, 0);
    CbcDecrypt(p, key, b, iv, data, |data| / b)
  }

  lemma BlocksLeft(k: nat, b: nat)
    requires k > 0
    ensures k * b >= b && k * b - b == (k - 1) * b
  {
  }

  function LastBlock(b: nat, iv: Octets, out: Octets): Octets {
    if |out| < b then iv else out[|out| - b..]
  }

  // ---------------------------------------------------------------- headers

  function LengthBytes(n: nat): (b: Octets)
    ensures |b| == 2
  {
    [(n / 256 % 256) as bv8, (n % 256) as bv8]
  }

  function Header(typ: bv8, vers: Octets, n: nat): Octets { [typ] + vers + LengthBytes(n) }

  function ExplicitNonceLen(h: Half): nat {
    match h.spec.cipher
    case PrefixAead(_, _) => SEQ_BYTES
    case Cbc(_, b, _) => if h.version >= TLS11 then b else 0
    case _ => 0
  }

  function MacOf(p: Prims, m: MacKey, number: Octets, header: Octets, data: Octets): Octets {
    p.mac(m.key, number + header + data)
  }

  function WithCipher(h: Half, c: Cipher): Half { h.(spec := h.spec.(cipher := c)) }

  // ---------------------------------------------------------------- writing

  /** The random bytes drawn for an explicit CBC IV. */
  predicate RandOk(h: Half, rand: Octets) {
    h.spec.cipher.Cbc? && ExplicitNonceLen(h) > 0 ==> |rand| == h.spec.cipher.blockSize
  }

  datatype Written = WritePanic | Written(half: Half, record: Octets)

  /** The last steps of encrypt: the final length, and the next sequence number. */
  function FinishWrite(h: Half, typ: bv8, vers: Octets, body: Octets): Written {
    var number := Increment(h.number);
    if number.None? then WritePanic
    else Written(h.(number := number.value), Header(typ, vers, |body|) + body)
  }

  function Encrypt(p: Prims, h: Half, typ: bv8, vers: Octets, payload: Octets, rand: Octets): Written
    requires HalfOk(h) && |vers| == 2 && RandOk(h, rand)
  {
    var header := Header(typ, vers, |payload|);
    match h.spec.cipher
    case Null => Written(h, header + payload)
    case Stream(key, pos) =>
      var clear := payload + MacOf(p, h.spec.mac.value, h.number, header, payload);
      FinishWrite(WithCipher(h, Stream(key, pos + |clear|)), typ, vers, XorStream(p, key, pos, clear))
    case PrefixAead(key, fixed) =>
      var nonce := h.number;
      FinishWrite(h, typ, vers, nonce + p.seal(key, Prefixed(fixed, nonce), payload, h.number + header))
    case XorAead(key, mask) =>
      if h.version == TLS13 then
        var outer := Header(APPLICATION_DATA, vers, |payload| + 1 + OVERHEAD);
        FinishWrite(h, APPLICATION_DATA, vers, p.seal(key, Masked(mask, h.number), payload + [typ], outer))
      else
        FinishWrite(h, typ, vers, p.seal(key, Masked(mask, h.number), payload, h.number + header))
    case Cbc(_, _, _) => EncryptCbc(p, h, typ, vers, payload, rand)
  }

  function EncryptCbc(p: Prims, h: Half, typ: bv8, vers: Octets, payload: Octets, rand: Octets): Written
    requires HalfOk(h) && h.spec.cipher.Cbc? && RandOk(h, rand)
  {
    var Cbc(key, b, chained) := h.spec.cipher;
    var data := payload + MacOf(p, h.spec.mac.value, h.number, Header(typ, vers, |payload|), payload);
    var explicit := ExplicitNonceLen(h) > 0;
    var iv := if explicit then rand else chained;
    PadIsAccepted(data, b);
    var out := CbcEncryptAll(p, key, b, iv, Pad(data, b));
    FinishWrite(WithCipher(h, Cbc(key, b, LastBlock(b, iv, out))), typ, vers, (if explicit then iv else []) + out)
  }

  // ---------------------------------------------------------------- reading

  datatype Read = BadRecordMac | UnexpectedMessage | RecordOverflow | ReadPanic
    | Opened(half: Half, typ: bv8, payload: Octets)

  function FinishRead(h: Half, typ: bv8, payload: Octets): Read {
    var number := Increment(h.number);
    if number.None? then ReadPanic else Opened(h.(number := number.value), typ, payload)
  }

  /** The inner plaintext of TLS 1.3: zeros are dropped from the end, and the last other
      byte is the content type; `None` if there is nothing but zeros. */
  function Inner(plain: Octets): Option<(bv8, Octets)>
    requires plain != []
  {
    var n := |plain| - 1;
    if plain[n] != 0 then Some((plain[n], plain[..n]))
    else if n == 0 then None
    else Inner(plain[..n])
  }

  function OpenInner(h: Half, typ: bv8, plain: Octets): Read {
    if typ != APPLICATION_DATA then UnexpectedMessage
    else if |plain| > MAX_PLAINTEXT + 1 then RecordOverflow
    else if plain == [] then FinishRead(h, typ, [])
    else match Inner(plain)
      case None => UnexpectedMessage
      case Some((inner, content)) => FinishRead(h, inner, content)
  }

  function Accept(h: Half, typ: bv8, plain: Option<Octets>): Read {
    if plain.None? then BadRecordMac else FinishRead(h, typ, plain.value)
  }

  function AcceptInner(h: Half, typ: bv8, plain: Option<Octets>): Read {
    if plain.None? then BadRecordMac else OpenInner(h, typ, plain.value)
  }

  /** The MAC check over a decrypted payload of which `pad` bytes are padding. */
  function CheckMac(p: Prims, h: Half, m: MacKey, head: Octets, payload: Octets, pad: nat, good: bool): Read
    requires |head| == 3
  {
    if |payload| < m.size then BadRecordMac
    else
      var n := if |payload| < m.size + pad then 0 else |payload| - m.size - pad;
      var local := MacOf(p, m, h.number, head + LengthBytes(n), payload[..n]);
      if good && local == payload[n..n + m.size] then FinishRead(h, head[0], payload[..n]) else BadRecordMac
  }

  function RoundUp(a: nat, b: nat): nat
    requires b > 0
  {
    a + (b - a % b) % b
  }

  function DecryptCbc(p: Prims, h: Half, head: Octets, payload: Octets): Read
    requires HalfOk(h) && h.spec.cipher.Cbc? && |head| == 3
  {
    var Cbc(key, b, chained) := h.spec.cipher;
    var m := h.spec.mac.value;
    var e := ExplicitNonceLen(h);
    if |payload| % b != 0 || |payload| < e + RoundUp(m.size + 1, b) then BadRecordMac
    else
      var iv := if e > 0 then payload[..e] else chained;
      var body := payload[e..];
      BodyBlocks(|payload|, b, e);
      var clear := CbcDecryptAll(p, key, b, iv, body);
      CheckMac(p, WithCipher(h, Cbc(key, b, LastBlock(b, iv, body))), m, head, clear, ToRemove(clear), PaddingOk(clear))
  }

  lemma BodyBlocks(n: nat, b: nat, e: nat)
    requires 0 < b && n % b == 0 && (e == 0 || e == b) && e <= n
    ensures n - e == (n - e) / b * b && (n - e) % b == 0
  {
    var q := n / b;
    assert n == q * b;
    if e == b {
      assert n - b == (q - 1) * b;
      MultipleMod(q - 1, b);
    }
  }

  function Decrypt(p: Prims, h: Half, record: Octets): Read
    requires HalfOk(h) && |record| >= HEADER
  {
    var typ, payload := record[0], record[HEADER..];
    if h.version == TLS13 && typ == CHANGE_CIPHER_SPEC then Opened(h, typ, payload)
    else match h.spec.cipher
      case Null => FinishRead(h, typ, payload)
      case Stream(key, pos) =>
        CheckMac(p, WithCipher(h, Stream(key, pos + |payload|)), h.spec.mac.value, record[..3],
                 XorStream(p, key, pos, payload), 0, true)
      case Cbc(_, _, _) => DecryptCbc(p, h, record[..3], payload)
      case PrefixAead(key, fixed) =>
        if |payload| < SEQ_BYTES then BadRecordMac
        else
          var nonce, sealed := payload[..SEQ_BYTES], payload[SEQ_BYTES..];
          Accept(h, typ, p.open(key, Prefixed(fixed, nonce), sealed, h.number + record[..3] + SealedLength(sealed)))
      case XorAead(key, mask) =>
        if h.version == TLS13 then
          AcceptInner(h, typ, p.open(key, Masked(mask, h.number), payload, record[..HEADER]))
        else
          Accept(h, typ, p.open(key, Masked(mask, h.number), payload, h.number + record[..3] + SealedLength(payload)))
  }

  /** The length bytes of the additional data: those of the plaintext.  Shorter inputs give
      a negative number, of which the low bytes are taken. */
  function SealedLength(sealed: Octets): Octets {
    LengthBytes((|sealed| - OVERHEAD) % 0x1_0000)
  }

  // ---------------------------------------------------------------- key changes

  /** prepareCipherSpec, changeCipherSpec and setTrafficSecret. */
  datatype KeyChange = Prepare(version: u16, spec: Spec) | Change | Secret(key: Octets, mask: Octets)

  predicate ChangeOk(k: KeyChange, h: Half) {
    match k
    case Prepare(v, s) => SpecOk(s) && (v == TLS13 ==> h.spec.cipher.Null? || h.spec.cipher.XorAead?)
    case Change => true
    case Secret(_, mask) => |mask| == NONCE_BYTES && h.version == TLS13
  }

  /** `None` is the internal error of a ChangeCipherSpec with nothing prepared. */
  function Rekey(h: Half, k: KeyChange): (r: Option<Half>)
    requires HalfOk(h) && ChangeOk(k, h)
    ensures r.Some? ==> HalfOk(r.value)
  {
    match k
    case Prepare(v, s) => Some(h.(version := v, next := Some(s)))
    case Change =>
      if h.next.None? || h.version == TLS13 then None
      else Some(h.(spec := h.next.value, next := None, number := ZERO))
    case Secret(key, mask) => Some(h.(spec := Spec(XorAead(key, mask), None), number := ZERO))
  }
}
