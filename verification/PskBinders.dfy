/** The pre_shared_key binders.  A binder is a MAC over the ClientHello up to the end
    of the identities; both ends find that point by cutting the encoded binders off
    the end of the message.
 */
module PskBinders {
  import opened Wire
  import opened ClientHello
  import opened ClientHelloRoundTrip

  // ---------------------------------------------------------------- the operations

  /** The length of the encoded binders, with their two-byte prefix. */
  function CutLength(binders: seq<Bytes>): nat {
    if binders == [] then 2 else CutLength(binders[..|binders| - 1]) + 1 + |binders[|binders| - 1]|
  }

  function FullMessage(m: Hello): Build {
    if m.original.Some? then m.original else Marshal(m, false)
  }

  /** The message through the identities; `None` if it cannot be printed or is too short. */
  function Truncated(m: Hello): Build {
    var full :- FullMessage(m);
    if |full| < CutLength(m.PskBinders()) then None
    else Some(full[..|full| - CutLength(m.PskBinders())])
  }

  method MarshalWithoutBinders(m: Hello) returns (r: Build)
    ensures r == Truncated(m)
  {
    var binders := m.PskBinders();
    var bindersLen := 2;
    for i := 0 to |binders|
      invariant bindersLen == CutLength(binders[..i])
    {
      assert binders[..i + 1][..i] == binders[..i];
      bindersLen := bindersLen + 1 + |binders[i]|;
    }
    assert binders[..|binders|] == binders;
    var full := FullMessage(m);
    if full.None? || |full.value| < bindersLen { return None; }
    return Some(full.value[..|full.value| - bindersLen]);
  }

  predicate SameLengths(a: seq<Bytes>, b: seq<Bytes>) {
    |a| == |b| && forall i :: 0 <= i < |a| ==> |a[i]| == |b[i]|
  }

  /** A hello without an offer has no binders to replace. */
  function WithBinders(m: Hello, binders: seq<Bytes>): Hello {
    if m.fields[PRE_SHARED_KEY].Psk? then m.(fields := m.fields[PRE_SHARED_KEY := Psk(m.PskIdentities(), binders)])
    else m
  }

  /** Replaces the binders; any change of length is an internal error. */
  method UpdateBinders(m: Hello, binders: seq<Bytes>) returns (r: Option<Hello>)
    ensures r.Some? <==> SameLengths(binders, m.PskBinders())
    ensures r.Some? ==> r.value == WithBinders(m, binders) && r.value.PskBinders() == binders
  {
    var current := m.PskBinders();
    if |binders| != |current| { return None; }
    for i := 0 to |current|
      invariant forall j :: 0 <= j < i ==> |binders[j]| == |current[j]|
    {
      if |binders[i]| != |current[i]| { return None; }
    }
    return Some(WithBinders(m, binders));
  }

  // ---------------------------------------------------------------- the cut, at the sender

  lemma {:induction false} CutLengthOf(binders: seq<Bytes>)
    requires Binders(binders).Some?
    ensures |Binders(binders).value| == CutLength(binders)
  {
    EncodedLength(binders);
  }

  lemma {:induction false} EncodedLength(binders: seq<Bytes>)
    requires EncodeItems(EncodeProto, binders).Some?
    ensures |EncodeItems(EncodeProto, binders).value| + 2 == CutLength(binders)
  {
    if binders != [] {
      var front, last := binders[..|binders| - 1], binders[|binders| - 1];
      assert binders == front + [last];
      EncodeItemsAppend(EncodeProto, front, [last]);
      EncodeOne(EncodeProto, last);
      EncodedLength(front);
    }
  }

  lemma {:induction false} CutLengthSame(a: seq<Bytes>, b: seq<Bytes>)
    requires SameLengths(a, b)
    ensures CutLength(a) == CutLength(b)
    ensures EncodeItems(EncodeProto, a).Some? == EncodeItems(EncodeProto, b).Some?
  {
    if a != [] {
      var i := |a| - 1;
      CutLengthSame(a[..i], b[..i]);
      assert a == a[..i] + [a[i]] && b == b[..i] + [b[i]];
      EncodeItemsAppend(EncodeProto, a[..i], [a[i]]);
      EncodeItemsAppend(EncodeProto, b[..i], [b[i]]);
      EncodeOne(EncodeProto, a[i]);
      EncodeOne(EncodeProto, b[i]);
    }
  }

  /** The extensions in front of pre_shared_key, encoded. */
  function Front(m: Hello): Build {
    var exts :- Collect(Rows(m, false)[..PRE_SHARED_KEY]);
    EncodeItems(EncodeExt, exts)
  }

  /** The number and length in front of an extension body. */
  function ExtHeader(typ: u16, n: nat): Bytes
    requires n < Cap(2)
  {
    UInt(2, typ) + UInt(2, n)
  }

  lemma EncodeExtIs(e: Ext)
    ensures EncodeExt(e) == if |e.body| >= Cap(2) then None else Some(ExtHeader(e.typ, |e.body|) + e.body)
  {
    if |e.body| < Cap(2) { Assoc3(UInt(2, e.typ), UInt(2, |e.body|), e.body); }
  }

  /** The printed message up to the end of the identities, as a function of the
      encoded binders' length alone. */
  function Prefix(m: Hello, binderBytes: nat): Build {
    var fixed :- FixedPart(m, false);
    var front :- Front(m);
    var ids :- Identities(m.PskIdentities());
    if |ids| + binderBytes >= Cap(2) then None
    else
      PrefixOf(fixed, front + ExtHeader(TypeOf(PRE_SHARED_KEY), |ids| + binderBytes) + ids, binderBytes)
  }

  /** Header, fixed part and extensions of a message that still lacks `more` bytes. */
  function PrefixOf(fixed: Bytes, exts: Bytes, more: nat): Build {
    if |exts| + more >= Cap(2) then None
    else
      var body := fixed + UInt(2, |exts| + more) + exts;
      if |body| + more >= Cap(3) then None
      else Some([TYPE_CLIENT_HELLO] + UInt(3, |body| + more) + body)
  }

  /** pre_shared_key comes last. */
  lemma PskExts(m: Hello)
    requires Present(m, false, PRE_SHARED_KEY)
    ensures var before, body := Collect(Rows(m, false)[..PRE_SHARED_KEY]), Body(PRE_SHARED_KEY, m.fields[PRE_SHARED_KEY]);
      AllExts(m, false) ==
        if before.None? || body.None? then None
        else Some(before.value + [Ext(TypeOf(PRE_SHARED_KEY), body.value)])
  {
    var rows := Rows(m, false);
    var last := [rows[PRE_SHARED_KEY]];
    assert rows[PRE_SHARED_KEY..] == last && last[1..] == [];
    assert Collect(last[1..]) == Some([]);
    var before, body := Collect(rows[..PRE_SHARED_KEY]), Body(PRE_SHARED_KEY, m.fields[PRE_SHARED_KEY]);
    if before.Some? && body.Some? {
      var psk := [Ext(TypeOf(PRE_SHARED_KEY), body.value)];
      assert Collect(last) == Some(psk + []);
      assert before.value + [] + (psk + []) == before.value + psk;
    }
  }

  /** The encoded extensions of such a hello. */
  lemma PskExtBytes(m: Hello, ids: Bytes, binders: Bytes)
    requires Present(m, false, PRE_SHARED_KEY)
    requires Identities(m.PskIdentities()) == Some(ids) && Binders(m.PskBinders()) == Some(binders)
    ensures ExtBytes(m) ==
      if Front(m).None? || |ids| + |binders| >= Cap(2) then None
      else Some(Front(m).value + ExtHeader(TypeOf(PRE_SHARED_KEY), |ids| + |binders|) + ids + binders)
  {
    hide Collect, Rows, AllExts, EncodeItems, EncodeExt, ExtHeader, Identities, Binders;
    PskExts(m);
    var before := Collect(Rows(m, false)[..PRE_SHARED_KEY]);
    if before.Some? {
      var psk := Ext(TypeOf(PRE_SHARED_KEY), ids + binders);
      EncodeItemsAppend(EncodeExt, before.value, [psk]);
      EncodeOne(EncodeExt, psk);
      EncodeExtIs(psk);
      if Front(m).Some? && |ids| + |binders| < Cap(2) {
        Assoc4(Front(m).value, ExtHeader(psk.typ, |ids| + |binders|), ids, binders);
      }
    }
  }

  /** The encoded extensions of a message, or an error. */
  function ExtBytes(m: Hello): Build {
    var exts :- AllExts(m, false);
    EncodeItems(EncodeExt, exts)
  }

  lemma MarshalOfExtBytes(m: Hello)
    ensures Marshal(m, false) ==
      if ExtBytes(m).None? || FixedPart(m, false).None? then None
      else Cat(Some([TYPE_CLIENT_HELLO]), Lp(3, Cat(FixedPart(m, false), ExtBlock(ExtBytes(m).value))))
  {
  }

  /** A printed hello with a pre_shared_key is its prefix followed by the binders. */
  lemma MarshalSplits(m: Hello, binders: Bytes)
    requires Present(m, false, PRE_SHARED_KEY) && Binders(m.PskBinders()) == Some(binders)
    ensures Marshal(m, false) == Cat(Prefix(m, |binders|), Some(binders))
  {
    if Identities(m.PskIdentities()).None? {
      MarshalOfExtBytes(m);
      NoIdentities(m);
    } else {
      MarshalSplitsAt(m, Identities(m.PskIdentities()).value, binders);
    }
  }

  lemma MarshalSplitsAt(m: Hello, ids: Bytes, binders: Bytes)
    requires Present(m, false, PRE_SHARED_KEY)
    requires Identities(m.PskIdentities()) == Some(ids) && Binders(m.PskBinders()) == Some(binders)
    ensures Marshal(m, false) == Cat(Prefix(m, |binders|), Some(binders))
  {
    hide Marshal, ExtBytes, FixedPart, Front, Identities, Binders, ExtHeader, PrefixOf, UInt, Lp, ExtBlock;
    MarshalOfExtBytes(m);
    ExtBytesSplit(m, ids, binders);
    if ExtBytes(m).Some? && FixedPart(m, false).Some? {
      var exts := Front(m).value + ExtHeader(TypeOf(PRE_SHARED_KEY), |ids| + |binders|) + ids;
      assert ExtBytes(m).value == exts + binders;
      PrefixFrom(FixedPart(m, false).value, exts, binders);
    }
  }

  lemma ExtBytesSplit(m: Hello, ids: Bytes, binders: Bytes)
    requires Present(m, false, PRE_SHARED_KEY)
    requires Identities(m.PskIdentities()) == Some(ids) && Binders(m.PskBinders()) == Some(binders)
    ensures ExtBytes(m).None? ==> Front(m).None? || |ids| + |binders| >= Cap(2)
    ensures ExtBytes(m).Some? ==>
      var bytes := ExtBytes(m).value;
      && Front(m).Some? && |ids| + |binders| < Cap(2)
      && |bytes| > |binders| && bytes == bytes[..|bytes| - |binders|] + binders
      && bytes[..|bytes| - |binders|] ==
        Front(m).value + ExtHeader(TypeOf(PRE_SHARED_KEY), |ids| + |binders|) + ids
  {
    PskExtBytes(m, ids, binders);
    if Front(m).Some? && |ids| + |binders| < Cap(2) {
      TakePrefix(Front(m).value + ExtHeader(TypeOf(PRE_SHARED_KEY), |ids| + |binders|) + ids, binders);
    }
  }

  lemma NoIdentities(m: Hello)
    requires Present(m, false, PRE_SHARED_KEY) && Identities(m.PskIdentities()).None?
    ensures ExtBytes(m).None?
  {
    PskExts(m);
  }

  lemma PrefixFrom(fixed: Bytes, exts: Bytes, binders: Bytes)
    requires exts + binders != []
    ensures Cat(Some([TYPE_CLIENT_HELLO]), Lp(3, Cat(Some(fixed), ExtBlock(exts + binders)))) ==
      Cat(PrefixOf(fixed, exts, |binders|), Some(binders))
  {
    if |exts| + |binders| < Cap(2) { BodySplits(fixed, exts, binders); }
  }

  /** The extension block, the body and the header, with the binders split off. */
  lemma BodySplits(fixed: Bytes, exts: Bytes, binders: Bytes)
    requires |exts| + |binders| < Cap(2) && exts + binders != []
    ensures Cat(Some(fixed), ExtBlock(exts + binders)) ==
      Some(fixed + UInt(2, |exts| + |binders|) + exts + binders)
    ensures var body := fixed + UInt(2, |exts| + |binders|) + exts;
      Cat(Some([TYPE_CLIENT_HELLO]), Lp(3, Some(body + binders))) ==
        if |body| + |binders| >= Cap(3) then None
        else Some([TYPE_CLIENT_HELLO] + UInt(3, |body| + |binders|) + body + binders)
  {
    var prefix := UInt(2, |exts| + |binders|);
    Assoc4(fixed, prefix, exts, binders);
    var body := fixed + prefix + exts;
    if |body| + |binders| < Cap(3) {
      Assoc4([TYPE_CLIENT_HELLO], UInt(3, |body| + |binders|), body, binders);
    }
  }

  /** Truncating gives the prefix. */
  lemma TruncatedIsPrefix(m: Hello)
    requires m.original.None? && Present(m, false, PRE_SHARED_KEY)
    ensures var n := CutLength(m.PskBinders());
      Truncated(m) == if Binders(m.PskBinders()).None? then None else Prefix(m, n)
    ensures Marshal(m, false).Some? == Truncated(m).Some?
  {
    EncodesOrNot(m);
    if Binders(m.PskBinders()).Some? {
      CutLengthOf(m.PskBinders());
      MarshalSplits(m, Binders(m.PskBinders()).value);
      var n := CutLength(m.PskBinders());
      if Prefix(m, n).Some? { TakePrefix(Prefix(m, n).value, Binders(m.PskBinders()).value); }
    }
  }

  /** Sender: the truncated message does not depend on the binders' contents. */
  lemma TruncatedIgnoresBinders(m: Hello, binders: seq<Bytes>)
    requires m.original.None? && Present(m, false, PRE_SHARED_KEY)
    requires SameLengths(binders, m.PskBinders())
    ensures Truncated(WithBinders(m, binders)) == Truncated(m)
    ensures Marshal(WithBinders(m, binders), false).Some? == Marshal(m, false).Some?
  {
    var m' := WithBinders(m, binders);
    CutLengthSame(binders, m.PskBinders());
    TruncatedIsPrefix(m);
    TruncatedIsPrefix(m');
    if EncodeItems(EncodeProto, binders).Some? {
      EncodedLength(binders);
      EncodedLength(m.PskBinders());
    }
    SamePrefix(m, binders, CutLength(binders));
  }

  lemma SamePrefix(m: Hello, binders: seq<Bytes>, n: nat)
    requires m.fields[PRE_SHARED_KEY].Psk?
    ensures Prefix(WithBinders(m, binders), n) == Prefix(m, n)
  {
    var m' := WithBinders(m, binders);
    assert Rows(m, false)[..PRE_SHARED_KEY] == Rows(m', false)[..PRE_SHARED_KEY];
    assert Front(m) == Front(m');
  }

  lemma TakePrefix(p: Bytes, b: Bytes)
    ensures (p + b)[..|p + b| - |b|] == p
  {
  }

  /** Without encodable binders nothing is printed. */
  lemma EncodesOrNot(m: Hello)
    requires Present(m, false, PRE_SHARED_KEY)
    ensures Binders(m.PskBinders()).None? ==> Marshal(m, false).None?
  {
    var rows := Rows(m, false);
    assert rows[PRE_SHARED_KEY..] == [rows[PRE_SHARED_KEY]];
    assert rows[PRE_SHARED_KEY].body == Cat(Identities(m.PskIdentities()), Binders(m.PskBinders()));
  }

  /** Main result, honest exchange: the client computes its binders over the message
      with placeholder binders; the server cuts the message it received, with the real
      ones.  Both see the same bytes.
   */
  lemma BindersCoverSameBytes(placeholder: Hello, binders: seq<Bytes>, wire: Bytes, received: Hello)
    requires placeholder.original.None? && Present(placeholder, false, PRE_SHARED_KEY)
    requires SameLengths(binders, placeholder.PskBinders())
    requires Marshal(WithBinders(placeholder, binders), false) == Some(wire)
    requires Unmarshal(wire) == Some(received)
    ensures Truncated(placeholder).Some?
    ensures Truncated(received) == Truncated(placeholder)
    ensures received.PskBinders() == binders
  {
    hide Marshal, Unmarshal, Prefix, Parseable, Binders;
    var m := WithBinders(placeholder, binders);
    RoundTrip(m);
    TruncatedIgnoresBinders(placeholder, binders);
    EncodesOrNot(m);
    CutLengthOf(binders);
    MarshalSplits(m, Binders(binders).value);
    assert received.PskBinders() == binders;
  }

  // ---------------------------------------------------------------- the cut, at the receiver

  lemma ProtoExact(s: Bytes)
    ensures ExactAt(ReadProto, EncodeProto, s)
  {
    if ReadProto(s).Got? { ReadLpExact(1, s); }
  }

  lemma IdentityExact(s: Bytes)
    ensures ExactAt(ReadIdentity, EncodeIdentity, s)
  {
    if ReadIdentity(s).Got? {
      ReadLpExact(2, s);
      var r := ReadLp(2, s).rest;
      UIntValue(r[..4]);
      assert r == r[..4] + r[4..];
      var id := ReadIdentity(s).value;
      assert s == (UInt(2, |id.ticket|) + id.ticket + UInt(4, id.age)) + r[4..];
    }
  }

  lemma ExtExact(s: Bytes)
    ensures ExactAt(ReadExt, EncodeExt, s)
  {
    if ReadExt(s).Got? {
      UIntValue(s[..2]);
      ReadLpExact(2, s[2..]);
      var e, rest := ReadExt(s).value, ReadExt(s).rest;
      assert s == s[..2] + s[2..];
      assert s == (UInt(2, e.typ) + (UInt(2, |e.body|) + e.body)) + rest;
    }
  }

  lemma PskBodyExact(d: Bytes)
    requires ParsePsk(d).Some? && ParsePsk(d).value.Psk?
    ensures var f := ParsePsk(d).value;
      Identities(f.identities).Some? && Binders(f.binders).Some? &&
      d == Identities(f.identities).value + Binders(f.binders).value
  {
    var ids, r := ReadLp(2, d).value, ReadLp(2, d).rest;
    var list := ReadLp(2, r).value;
    ReadLpExact(2, d);
    ReadLpExact(2, r);
    forall t ensures ExactAt(ReadIdentity, EncodeIdentity, t) { IdentityExact(t); }
    EncodeParsedItems(ReadIdentity, EncodeIdentity, ids);
    forall t ensures ExactAt(ReadProto, EncodeProto, t) { ProtoExact(t); }
    EncodeParsedItems(ReadProto, EncodeProto, list);
    assert UInt(2, |list|) + list + [] == UInt(2, |list|) + list;
  }

  lemma OtherKeepsPsk(h: Hello, e: Ext)
    requires ApplyExt(h, e, false).Some?
    ensures ApplyExt(h, e, false).value.fields[PRE_SHARED_KEY] == h.fields[PRE_SHARED_KEY]
  {
  }

  lemma LastSetsPsk(h: Hello, e: Ext)
    requires h.fields[PRE_SHARED_KEY] == Unset && ApplyExt(h, e, true).Some?
    requires ApplyExt(h, e, true).value.fields[PRE_SHARED_KEY] != Unset
    ensures e.typ == TypeOf(PRE_SHARED_KEY)
    ensures ParsePsk(e.body) == Some(ApplyExt(h, e, true).value.fields[PRE_SHARED_KEY])
  {
  }

  /** Only the last extension can set the pre_shared_key slot. */
  lemma {:induction false} PskIsLast(h: Hello, exts: seq<Ext>)
    requires h.fields[PRE_SHARED_KEY] == Unset
    requires ApplyAll(h, exts).Some? && ApplyAll(h, exts).value.fields[PRE_SHARED_KEY] != Unset
    ensures exts != [] && exts[|exts| - 1].typ == TypeOf(PRE_SHARED_KEY)
    ensures ParsePsk(exts[|exts| - 1].body) == Some(ApplyAll(h, exts).value.fields[PRE_SHARED_KEY])
    decreases |exts|
  {
    hide ApplyExt, ParsePsk, TypeOf;
    var h' := ApplyExt(h, exts[0], |exts| == 1).value;
    if |exts| == 1 {
      assert exts[1..] == [];
      LastSetsPsk(h, exts[0]);
    } else {
      OtherKeepsPsk(h, exts[0]);
      PskIsLast(h', exts[1..]);
    }
  }

  lemma {:induction false} KeepsOriginal(h: Hello, exts: seq<Ext>)
    requires ApplyAll(h, exts).Some?
    ensures ApplyAll(h, exts).value.original == h.original
    decreases |exts|
  {
    if exts != [] { KeepsOriginal(ApplyExt(h, exts[0], |exts| == 1).value, exts[1..]); }
  }

  lemma FixedKeepsSuffix(data: Bytes)
    requires ParseFixed(data).Some?
    ensures var (h, rest) := ParseFixed(data).value;
      h.original == Some(data) && h.fields == NO_FIELDS &&
      |rest| <= |data| && data[|data| - |rest|..] == rest
  {
  }

  lemma BlockEndsInExt(block: Bytes, exts: seq<Ext>)
    requires ParseItems(ReadExt, block) == Some(exts) && exts != []
    ensures var i := |exts| - 1;
      EncodeItems(EncodeExt, exts[..i]).Some? && |exts[i].body| < Cap(2) &&
      block == EncodeItems(EncodeExt, exts[..i]).value + (ExtHeader(exts[i].typ, |exts[i].body|) + exts[i].body)
  {
    var i := |exts| - 1;
    forall t ensures ExactAt(ReadExt, EncodeExt, t) { ExtExact(t); }
    EncodeParsedItems(ReadExt, EncodeExt, block);
    EncodeItemsAppend(EncodeExt, exts[..i], [exts[i]]);
    EncodeOne(EncodeExt, exts[i]);
    EncodeExtIs(exts[i]);
    assert exts == exts[..i] + [exts[i]];
  }

  /** The parts of an accepted message that carries extensions. */
  lemma AcceptedParts(data: Bytes) returns (lead: Bytes, block: Bytes, exts: seq<Ext>, h: Hello)
    requires Unmarshal(data).Some? && Unmarshal(data).value.fields != NO_FIELDS
    ensures |block| < Cap(2) && data == lead + (UInt(2, |block|) + block + [])
    ensures ParseItems(ReadExt, block) == Some(exts)
    ensures h.fields == NO_FIELDS && h.original == Some(data)
    ensures ApplyAll(h, exts) == Unmarshal(data)
  {
    FixedKeepsSuffix(data);
    var rest := ParseFixed(data).value.1;
    h := ParseFixed(data).value.0;
    block := Whole(ReadLp(2, rest)).value;
    exts := ParseItems(ReadExt, block).value;
    ReadLpExact(2, rest);
    lead := data[..|data| - |rest|];
    assert data == lead + data[|data| - |rest|..];
  }

  lemma EndsInBinders(data: Bytes, lead: Bytes, block: Bytes, exts: seq<Ext>, h: Hello, m: Hello)
    requires |block| < Cap(2) && data == lead + (UInt(2, |block|) + block + [])
    requires ParseItems(ReadExt, block) == Some(exts)
    requires h.fields == NO_FIELDS && h.original == Some(data)
    requires ApplyAll(h, exts) == Some(m) && m.fields[PRE_SHARED_KEY] != Unset
    ensures m.fields[PRE_SHARED_KEY].Psk?
    ensures Identities(m.PskIdentities()).Some? && Binders(m.PskBinders()).Some?
    ensures Truncated(m).Some? && data == Truncated(m).value + Binders(m.PskBinders()).value
    ensures exists head :: Truncated(m).value == head + Identities(m.PskIdentities()).value
  {
    hide ApplyAll, ParseItems, EncodeItems, UInt, ExtHeader, Identities, Binders, CutLength;
    PskIsLast(h, exts);
    KeepsOriginal(h, exts);
    BlockEndsInExt(block, exts);
    var i := |exts| - 1;
    PskBodyExact(exts[i].body);
    CutLengthOf(m.PskBinders());
    Regroup(data, lead, UInt(2, |block|), EncodeItems(EncodeExt, exts[..i]).value,
            ExtHeader(exts[i].typ, |exts[i].body|),
            Identities(m.PskIdentities()).value, Binders(m.PskBinders()).value);
  }

  /** Main result, any accepted hello with a pre_shared_key, whoever sent it: cutting
      `CutLength` bytes removes the binders and nothing else, so the cut falls right
      behind the identities.
   */
  lemma CutsAtIdentities(data: Bytes, m: Hello)
    requires Unmarshal(data) == Some(m) && m.fields[PRE_SHARED_KEY] != Unset
    ensures m.fields[PRE_SHARED_KEY].Psk?
    ensures Identities(m.PskIdentities()).Some? && Binders(m.PskBinders()).Some?
    ensures Truncated(m).Some? && data == Truncated(m).value + Binders(m.PskBinders()).value
    ensures exists head :: Truncated(m).value == head + Identities(m.PskIdentities()).value
  {
    var lead, block, exts, h := AcceptedParts(data);
    EndsInBinders(data, lead, block, exts, h, m);
  }

  lemma Regroup(data: Bytes, lead: Bytes, len: Bytes, before: Bytes, header: Bytes, ids: Bytes, binders: Bytes)
    requires data == lead + (len + (before + (header + (ids + binders))) + [])
    ensures |data| >= |binders| && data == data[..|data| - |binders|] + binders
    ensures exists head :: data[..|data| - |binders|] == head + ids
  {
    var head := lead + (len + (before + header));
    assert data == (head + ids) + binders;
    TakePrefix(head + ids, binders);
  }
}
