/** One direction of a connection as the code keeps it: an object whose cipher state and
    sequence number change in place.  Its operations compute the functions of `Record`.
 */
module HalfConn {
  import opened Wire
  import opened Padding
  import opened Nonce
  import opened Record

  class HalfConn {
    var version: u16
    var spec: Spec
    var next: Option<Spec>
    var number: array<bv8>

    ghost function View(): Half
      reads this, number
    {
      Half(version, spec, next, number[..])
    }

    ghost predicate Valid()
      reads this, number
    {
      HalfOk(View())
    }

    constructor (version: u16)
      ensures Valid() && fresh(number)
      ensures View() == Half(version, Spec(Null, None), None, ZERO)
    {
      this.version := version;
      spec := Spec(Null, None);
      next := None;
      number := new bv8[SEQ_BYTES](_ => 0);
    }

    method PrepareCipherSpec(version: u16, spec: Spec)
      requires Valid() && ChangeOk(Prepare(version, spec), View())
      modifies this
      ensures Valid() && number == old(number)
      ensures Some(View()) == Rekey(old(View()), Prepare(version, spec))
    {
      this.version := version;
      next := Some(spec);
    }

    /** Sets every byte of the sequence number to zero. */
    method ClearNumber()
      requires number.Length == SEQ_BYTES
      modifies number
      ensures number[..] == ZERO
    {
      for i := 0 to SEQ_BYTES
        invariant forall k :: 0 <= k < i ==> number[k] == 0
      {
        number[i] := 0;
      }
    }

    method ChangeCipherSpec() returns (ok: bool)
      requires Valid()
      modifies this, number
      ensures Valid() && number == old(number)
      ensures ok <==> Rekey(old(View()), Change).Some?
      ensures View() == if ok then Rekey(old(View()), Change).value else old(View())
    {
      if next.None? || version == TLS13 { return false; }
      spec := next.value;
      next := None;
      ClearNumber();
      return true;
    }

    method SetTrafficSecret(key: Octets, mask: Octets)
      requires Valid() && ChangeOk(Secret(key, mask), View())
      modifies this, number
      ensures Valid() && number == old(number)
      ensures Some(View()) == Rekey(old(View()), Secret(key, mask))
    {
      spec := Spec(XorAead(key, mask), None);
      ClearNumber();
    }

    // -------------------------------------------------------------- writing

    /** The last steps of encrypt. */
    method Finish(typ: bv8, vers: Octets, body: Octets) returns (r: Option<Octets>)
      requires number.Length == SEQ_BYTES
      modifies number
      ensures var w := FinishWrite(old(View()), typ, vers, body);
        if w.WritePanic? then r == None
        else r == Some(w.record) && View() == w.half
    {
      var ok := IncSeq(number);
      if !ok { return None; }
      return Some(Header(typ, vers, |body|) + body);
    }

    method EncryptBlocks(p: Prims, typ: bv8, vers: Octets, payload: Octets, rand: Octets) returns (r: Option<Octets>)
      requires Valid() && spec.cipher.Cbc? && RandOk(View(), rand) && |vers| == 2
      modifies this, number
      ensures number == old(number)
      ensures var w := Record.EncryptCbc(p, old(View()), typ, vers, payload, rand);
        if w.WritePanic? then r == None
        else r == Some(w.record) && View() == w.half
    {
      var Cbc(key, b, chained) := spec.cipher;
      var m := spec.mac.value;
      var mac := MacOf(p, m, number[..], Header(typ, vers, |payload|), payload);
      var paddingLen := PadLength(|payload| + |mac|, b);
      var dst := payload + mac;
      ghost var data := dst;
      PadIsAccepted(data, b);
      WholeBlocks(|data|, b);
      for i := 0 to paddingLen
        invariant dst == data + seq(i, _ => PadByte(paddingLen))
      {
        dst := dst + [PadByte(paddingLen)];
      }
      assert dst == Pad(data, b);
      var explicit := version >= TLS11;
      var iv := if explicit then rand else chained;
      var out := CbcEncryptAll(p, key, b, iv, dst);
      spec := spec.(cipher := Cbc(key, b, LastBlock(b, iv, out)));
      r := Finish(typ, vers, (if explicit then iv else []) + out);
    }

    method Encrypt(p: Prims, typ: bv8, vers: Octets, payload: Octets, rand: Octets) returns (r: Option<Octets>)
      requires Valid() && RandOk(View(), rand) && |vers| == 2
      modifies this, number
      ensures number == old(number)
      ensures var w := Record.Encrypt(p, old(View()), typ, vers, payload, rand);
        if w.WritePanic? then r == None
        else r == Some(w.record) && View() == w.half
    {
      var header := Header(typ, vers, |payload|);
      match spec.cipher
      case Null => r := Some(header + payload);
      case Stream(key, pos) =>
        var clear := payload + MacOf(p, spec.mac.value, number[..], header, payload);
        var body := XorStream(p, key, pos, clear);
        spec := spec.(cipher := Stream(key, pos + |clear|));
        r := Finish(typ, vers, body);
      case PrefixAead(key, fixed) =>
        var nonce := number[..];
        r := Finish(typ, vers, nonce + p.seal(key, Prefixed(fixed, nonce), payload, number[..] + header));
      case XorAead(key, mask) =>
        if version == TLS13 {
          var outer := Header(APPLICATION_DATA, vers, |payload| + 1 + OVERHEAD);
          r := Finish(APPLICATION_DATA, vers, p.seal(key, Masked(mask, number[..]), payload + [typ], outer));
        } else {
          r := Finish(typ, vers, p.seal(key, Masked(mask, number[..]), payload, number[..] + header));
        }
      case Cbc(_, _, _) => r := EncryptBlocks(p, typ, vers, payload, rand);
    }

    // -------------------------------------------------------------- reading

    method Deliver(typ: bv8, payload: Octets) returns (r: Outcome)
      requires number.Length == SEQ_BYTES
      modifies number
      ensures Matches(r, FinishRead(old(View()), typ, payload), View())
    {
      var ok := IncSeq(number);
      return if ok then Delivered(typ, payload) else Failed(ReadPanic);
    }

    /** Finds the content type of a TLS 1.3 plaintext, scanning from the end. */
    method ScanInner(plain: Octets) returns (r: Option<(bv8, Octets)>)
      requires plain != []
      ensures r == Inner(plain)
    {
      var i := |plain| - 1;
      assert plain[..|plain|] == plain;
      while i >= 0
        invariant 0 <= i < |plain|
        invariant Inner(plain) == Inner(plain[..i + 1])
        decreases i
      {
        assert plain[..i + 1][..i] == plain[..i];
        if plain[i] != 0 { return Some((plain[i], plain[..i])); }
        if i == 0 { return None; }
        i := i - 1;
      }
    }

    method DeliverInner(typ: bv8, plain: Octets) returns (r: Outcome)
      requires number.Length == SEQ_BYTES
      modifies number
      ensures Matches(r, OpenInner(old(View()), typ, plain), View())
    {
      if typ != APPLICATION_DATA { return Failed(UnexpectedMessage); }
      if |plain| > MAX_PLAINTEXT + 1 { return Failed(RecordOverflow); }
      if plain == [] { r := Deliver(typ, []); return; }
      var inner := ScanInner(plain);
      match inner
      case None => return Failed(UnexpectedMessage);
      case Some((t, content)) => r := Deliver(t, content);
    }

    method VerifyMac(p: Prims, m: MacKey, head: Octets, payload: Octets, pad: nat, good: bool) returns (r: Outcome)
      requires number.Length == SEQ_BYTES && |head| == 3
      modifies number
      ensures Matches(r, CheckMac(p, old(View()), m, head, payload, pad, good), View())
    {
      if |payload| < m.size { return Failed(BadRecordMac); }
      var n := |payload| - m.size - pad;
      if n < 0 { n := 0; }
      var local := MacOf(p, m, number[..], head + LengthBytes(n), payload[..n]);
      if !good || local != payload[n..n + m.size] { return Failed(BadRecordMac); }
      r := Deliver(head[0], payload[..n]);
    }

    method DecryptBlocks(p: Prims, head: Octets, payload: Octets) returns (r: Outcome)
      requires Valid() && spec.cipher.Cbc? && |head| == 3 && |payload| < 0x8000_0000
      modifies this, number
      ensures number == old(number)
      ensures Matches(r, Record.DecryptCbc(p, old(View()), head, payload), View())
    {
      var Cbc(key, b, chained) := spec.cipher;
      var m := spec.mac.value;
      var e := if version >= TLS11 then b else 0;
      if |payload| % b != 0 || |payload| < e + RoundUp(m.size + 1, b) { return Failed(BadRecordMac); }
      var iv := if e > 0 then payload[..e] else chained;
      var body := payload[e..];
      BodyBlocks(|payload|, b, e);
      var clear := CbcDecryptAll(p, key, b, iv, body);
      spec := spec.(cipher := Cbc(key, b, LastBlock(b, iv, body)));
      CbcShrinks(p, key, b, iv, body);
      var pad, good := ExtractPadding(clear);
      r := VerifyMac(p, m, head, clear, pad, good == 255);
    }

    method Decrypt(p: Prims, record: Octets) returns (r: Outcome)
      requires Valid() && HEADER <= |record| < 0x8000_0000
      modifies this, number
      ensures number == old(number)
      ensures Matches(r, Record.Decrypt(p, old(View()), record), View())
    {
      var typ, payload := record[0], record[HEADER..];
      if version == TLS13 && typ == CHANGE_CIPHER_SPEC { return Delivered(typ, payload); }
      match spec.cipher
      case Null => r := Deliver(typ, payload);
      case Stream(key, pos) =>
        spec := spec.(cipher := Stream(key, pos + |payload|));
        r := VerifyMac(p, spec.mac.value, record[..3], XorStream(p, key, pos, payload), 0, true);
      case Cbc(_, _, _) => r := DecryptBlocks(p, record[..3], payload);
      case PrefixAead(key, fixed) =>
        if |payload| < SEQ_BYTES { return Failed(BadRecordMac); }
        var nonce, sealed := payload[..SEQ_BYTES], payload[SEQ_BYTES..];
        var plain := p.open(key, Prefixed(fixed, nonce), sealed, number[..] + record[..3] + SealedLength(sealed));
        if plain.None? { return Failed(BadRecordMac); }
        r := Deliver(typ, plain.value);
      case XorAead(key, mask) =>
        var ad := if version == TLS13 then record[..HEADER] else number[..] + record[..3] + SealedLength(payload);
        var plain := p.open(key, Masked(mask, number[..]), payload, ad);
        if plain.None? { return Failed(BadRecordMac); }
        if version == TLS13 { r := DeliverInner(typ, plain.value); } else { r := Deliver(typ, plain.value); }
    }
  }

  /** What decrypt returns. */
  datatype Outcome = Failed(why: Read) | Delivered(typ: bv8, payload: Octets)

  /** An outcome, and the state after it, as `Record` says. */
  ghost predicate Matches(r: Outcome, spec: Read, after: Half) {
    if spec.Opened? then r == Delivered(spec.typ, spec.payload) && after == spec.half else r == Failed(spec)
  }

  lemma {:induction false} CbcDecryptSize(p: Prims, key: Octets, b: nat, iv: Octets, data: Octets, k: nat)
    requires |data| == k * b && |iv| == b
    ensures |CbcDecrypt(p, key, b, iv, data, k)| <= |data|
    decreases k
  {
    if k > 0 {
      BlocksLeft(k, b);
      CbcDecryptSize(p, key, b, data[..b], data[b..], k - 1);
    }
  }

  lemma CbcShrinks(p: Prims, key: Octets, b: nat, iv: Octets, data: Octets)
    requires 0 < b && |data| % b == 0 && |iv| == b
    ensures |CbcDecryptAll(p, key, b, iv, data)| <= |data|
  {
    BodyBlocks(|data|, b, 0);
    CbcDecryptSize(p, key, b, iv, data, |data| / b);
  }
}
