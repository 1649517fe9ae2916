/** What every encoded inner hello that is accepted looks like, and what its hello is. */
module EchAccepted {
  import opened Wire
  import opened ClientHello
  import opened ClientHelloRoundTrip
  import opened Ech
  import opened EchInversion
  import opened EchReferences

  lemma SplitSteps(encoded: Bytes) returns (e: Encoded, r2: Bytes, r3: Bytes, r4: Bytes, padding: Bytes)
    requires SplitEncoded(encoded).Some?
    ensures SplitEncoded(encoded) == Some(e) && |encoded| >= 34 && e.versionAndRandom == encoded[..34]
    ensures ReadLp(1, encoded[34..]) == Got([], r2) && ReadLp(2, r2) == Got(e.suites, r3)
    ensures ReadLp(1, r3) == Got(e.compression, r4) && ReadLp(2, r4) == Got(e.exts, padding)
    ensures padding == Zeros(|padding|)
  {
    hide ReadLp;
    e := SplitEncoded(encoded).value;
    r2 := ReadLp(1, encoded[34..]).rest;
    r3 := ReadLp(2, r2).rest;
    r4 := ReadLp(1, r3).rest;
    padding := ReadLp(2, r4).rest;
  }

  /** The parts of an encoded inner hello, laid out: a session ID of length zero, and zeros at
      the end. */
  lemma SplitLayout(encoded: Bytes)
    requires SplitEncoded(encoded).Some?
    ensures var e := SplitEncoded(encoded).value;
      && |e.versionAndRandom| == 34 && |e.suites| < Cap(2) && |e.compression| < Cap(1) && |e.exts| < Cap(2)
      && exists n: nat :: encoded == e.versionAndRandom + Layout([], e.suites, e.compression, e.exts, Zeros(n))
  {
    var e, r2, r3, r4, padding := SplitSteps(encoded);
    ReadLpExact(1, encoded[34..]);
    ReadLpExact(2, r2);
    ReadLpExact(1, r3);
    ReadLpExact(2, r4);
    hide SplitEncoded, ReadLp, Zeros, UInt;
    assert encoded == e.versionAndRandom + Layout([], e.suites, e.compression, e.exts, Zeros(|padding|));
  }

  /** Main result: an encoding splits exactly if it is laid out so: its session ID is empty and
      everything after the extensions is zero.
   */
  lemma SplitIffLaidOut(encoded: Bytes, e: Encoded)
    ensures SplitEncoded(encoded) == Some(e) <==>
      && |e.versionAndRandom| == 34 && |e.suites| < Cap(2) && |e.compression| < Cap(1) && |e.exts| < Cap(2)
      && exists n: nat :: encoded == e.versionAndRandom + Layout([], e.suites, e.compression, e.exts, Zeros(n))
  {
    hide SplitEncoded, Layout;
    if SplitEncoded(encoded) == Some(e) { SplitLayout(encoded); }
    if |e.versionAndRandom| == 34 && |e.suites| < Cap(2) && |e.compression| < Cap(1) && |e.exts| < Cap(2)
      && exists n: nat :: encoded == e.versionAndRandom + Layout([], e.suites, e.compression, e.exts, Zeros(n))
    {
      var n: nat :| encoded == e.versionAndRandom + Layout([], e.suites, e.compression, e.exts, Zeros(n));
      SplitEncodedParts(e.versionAndRandom, e.suites, e.compression, e.exts, n);
    }
  }

  lemma GreaseIsNewer(v: u16)
    requires Grease(v)
    ensures v >= 0x0a0a
  {
  }

  lemma FixedFront(data: Bytes, header: Bytes, vr: Bytes, sid: Bytes, t1: Bytes)
    requires |header| == 4 && |vr| == 34 && |sid| < Cap(1)
    requires data == header + (vr + (UInt(1, |sid|) + sid + t1)) && ParseFixed(data).Some?
    ensures var h := ParseFixed(data).value.0; h.vers == Value(vr[..2]) && h.random == vr[2..] && h.sessionId == sid
    ensures ReadLp(2, t1).Got? ==> ParseItems(ReadU16, ReadLp(2, t1).value) == Some(ParseFixed(data).value.0.cipherSuites)
    ensures ReadLp(2, t1).Got? && ReadLp(1, ReadLp(2, t1).rest).Got? ==>
      ParseFixed(data).value.0.compressionMethods == ReadLp(1, ReadLp(2, t1).rest).value
  {
    var t0 := UInt(1, |sid|) + sid + t1;
    ReadLpOfLp(1, sid, t1);
    ReadNOf(vr[2..], t0);
    hide ReadLp, UInt, ParseItems;
    assert data[4..] == vr + t0;
    assert (vr + t0)[..2] == vr[..2] && (vr + t0)[2..] == vr[2..] + t0;
  }

  lemma FixedOf(e: Encoded, sid: Bytes, exts: seq<Ext>, bytes: Bytes, inner: Hello)
    requires |e.versionAndRandom| == 34 && Rebuild(e, sid, exts) == Some(bytes) && Unmarshal(bytes) == Some(inner)
    ensures inner.vers == Value(e.versionAndRandom[..2]) && inner.random == e.versionAndRandom[2..]
    ensures inner.sessionId == sid && inner.compressionMethods == e.compression
    ensures ParseItems(ReadU16, e.suites) == Some(inner.cipherSuites)
  {
    RebuildLayout(e, sid, exts, bytes);
    var block := EncodeItems(EncodeExt, exts).value;
    var t3 := UInt(2, |block|) + block + [];
    var t2 := UInt(1, |e.compression|) + e.compression + t3;
    var t1 := UInt(2, |e.suites|) + e.suites + t2;
    assert Layout(sid, e.suites, e.compression, block, []) == UInt(1, |sid|) + sid + t1;
    hide Unmarshal, Rebuild, Layout, ParseFixed, UInt, ReadLp;
    ReadLpOfLp(2, e.suites, t2);
    ReadLpOfLp(1, e.compression, t3);
    UnmarshalParses(bytes);
    UnmarshalKeeps(bytes);
    FixedFront(bytes, bytes[..4], e.versionAndRandom, sid, t1);
  }

  lemma UnmarshalParses(bytes: Bytes)
    requires Unmarshal(bytes).Some?
    ensures ParseFixed(bytes).Some?
  {
  }

  /** Main result: every encoding that is accepted has an empty session ID and zeros for
      padding; its hello has the version, random, cipher suites and compression methods of
      the encoding and the session ID of the outer hello, bears the mark of an inner hello,
      and offers TLS 1.3 and nothing older.
   */
  lemma AcceptedMeans(outer: Hello, encoded: Bytes, inner: Hello) returns (e: Encoded, n: nat)
    requires Decode(outer, encoded) == Some(inner)
    ensures |e.suites| < Cap(2) && |e.compression| < Cap(1) && |e.exts| < Cap(2)
    ensures encoded == e.versionAndRandom + Layout([], e.suites, e.compression, e.exts, seq(n, _ => 0))
    ensures |encoded| > 34 && encoded[34] == 0
    ensures inner.vers == Value(encoded[..2]) && inner.random == encoded[2..34]
    ensures inner.sessionId == outer.sessionId && inner.compressionMethods == e.compression
    ensures ParseItems(ReadU16, e.suites) == Some(inner.cipherSuites)
    ensures inner.fields[ENCRYPTED_CLIENT_HELLO] == Vector([1])
    ensures 0x0304 in inner.NumbersAt(SUPPORTED_VERSIONS)
    ensures forall v :: v in inner.NumbersAt(SUPPORTED_VERSIONS) ==> v >= 0x0304
  {
    var own, raw, pieces, bytes;
    e, own, raw, pieces, bytes := DecodeSteps(outer, encoded, inner);
    SplitLayout(encoded);
    n :| encoded == e.versionAndRandom + Layout([], e.suites, e.compression, e.exts, Zeros(n));
    FixedOf(e, outer.sessionId, Flatten(pieces, raw), bytes, inner);
    assert encoded[..34] == e.versionAndRandom && encoded[2..34] == e.versionAndRandom[2..] && encoded[..2] == e.versionAndRandom[..2];
    assert encoded[34] == UInt(1, 0)[0];
    hide Unmarshal, Rebuild, Layout, SplitEncoded, Reconstruct;
    forall v | v in inner.NumbersAt(SUPPORTED_VERSIONS) ensures v >= 0x0304 {
      if Grease(v) { GreaseIsNewer(v); }
    }
  }
}
