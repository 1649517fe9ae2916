/** What an accepted ECH encoding can take from the outer hello, whoever wrote it. */
module EchReferences {
  import opened Wire
  import opened ClientHello
  import opened ClientHelloRoundTrip
  import opened Ech
  import opened EchInversion

  // ---------------------------------------------------------------- no position twice

  predicate StrictlyIncreasing(ps: seq<nat>) {
    forall j, k :: 0 <= j < k < |ps| ==> ps[j] < ps[k]
  }

  predicate Disjoint(a: seq<nat>, b: seq<nat>) {
    forall j, k :: 0 <= j < |a| && 0 <= k < |b| ==> a[j] != b[k]
  }

  ghost predicate AllInRange(pieces: seq<Piece>, outer: seq<Ext>) {
    forall i :: 0 <= i < |pieces| ==> InRange(pieces[i], outer)
  }

  /** The place in the flattened list where piece `i` starts. */
  ghost function Offset(pieces: seq<Piece>, outer: seq<Ext>, i: nat): nat
    requires AllInRange(pieces, outer) && i <= |pieces|
  {
    if i == 0 then 0 else Offset(pieces, outer, i - 1) + |ExtsOf(pieces[i - 1], outer)|
  }

  lemma {:induction false} OffsetIs(pieces: seq<Piece>, outer: seq<Ext>, i: nat)
    requires AllInRange(pieces, outer) && i <= |pieces|
    ensures Offset(pieces, outer, i) == |Flatten(pieces[..i], outer)|
  {
    hide ExtsOf, InRange;
    if i > 0 {
      OffsetIs(pieces, outer, i - 1);
      var last := [pieces[i - 1]];
      assert pieces[..i] == pieces[..i - 1] + last;
      FlattenAppend(pieces[..i - 1], last, outer);
      assert last[1..] == [];
      assert Flatten(last, outer) == ExtsOf(pieces[i - 1], outer) + [];
    }
  }

  lemma {:induction false} OffsetGrows(pieces: seq<Piece>, outer: seq<Ext>, i: nat, j: nat)
    requires AllInRange(pieces, outer) && i < j <= |pieces|
    ensures Offset(pieces, outer, i) + |ExtsOf(pieces[i], outer)| <= Offset(pieces, outer, j)
  {
    if i < j - 1 { OffsetGrows(pieces, outer, i, j - 1); }
  }

  /** Where the extensions of piece `i` end up. */
  lemma ElementAt(pieces: seq<Piece>, outer: seq<Ext>, i: nat, x: nat)
    requires AllInRange(pieces, outer) && i < |pieces| && x < |ExtsOf(pieces[i], outer)|
    ensures var k := Offset(pieces, outer, i) + x;
      k < |Flatten(pieces, outer)| && Flatten(pieces, outer)[k] == ExtsOf(pieces[i], outer)[x]
  {
    hide Offset, ExtsOf, InRange;
    OffsetIs(pieces, outer, i);
    assert pieces == pieces[..i] + pieces[i..];
    FlattenAppend(pieces[..i], pieces[i..], outer);
    assert Flatten(pieces[i..], outer) == ExtsOf(pieces[i], outer) + Flatten(pieces[i..][1..], outer);
  }

  lemma NoRepeatAt(exts: seq<Ext>, a: nat, b: nat)
    requires NoRepeats(exts) && a < b < |exts|
    ensures exts[a].typ != exts[b].typ
  {
  }

  lemma CopiesIncrease(outer: seq<Ext>, pieces: seq<Piece>, i: nat, types: seq<u16>)
    requires AllInRange(pieces, outer) && i < |pieces| && NoRepeats(Flatten(pieces, outer))
    requires pieces[i].Copies? && Positions(types, outer, 0) == Some(pieces[i].positions)
    ensures StrictlyIncreasing(pieces[i].positions)
  {
    hide Offset, Flatten, Positions, NoRepeats;
    PositionsInRange(types, outer, 0);
    var ps := pieces[i].positions;
    forall j, k | 0 <= j < k < |ps| ensures ps[j] < ps[k] {
      ElementAt(pieces, outer, i, j);
      ElementAt(pieces, outer, i, k);
      NoRepeatAt(Flatten(pieces, outer), Offset(pieces, outer, i) + j, Offset(pieces, outer, i) + k);
    }
  }

  lemma CopiesDisjoint(outer: seq<Ext>, pieces: seq<Piece>, i: nat, j: nat)
    requires AllInRange(pieces, outer) && i < j < |pieces| && NoRepeats(Flatten(pieces, outer))
    requires pieces[i].Copies? && pieces[j].Copies?
    ensures Disjoint(pieces[i].positions, pieces[j].positions)
  {
    var p, q := pieces[i].positions, pieces[j].positions;
    OffsetGrows(pieces, outer, i, j);
    forall x, y | 0 <= x < |p| && 0 <= y < |q| ensures p[x] != q[y] {
      ElementAt(pieces, outer, i, x);
      ElementAt(pieces, outer, j, y);
    }
  }

  /** What holds of a resolved piece by itself. */
  lemma PieceFacts(e: Ext, outer: seq<Ext>, p: Piece) returns (types: seq<u16>)
    requires PieceOf(e, outer) == Some(p)
    ensures InRange(p, outer)
    ensures p.Own? ==> p.ext == e && e.typ != EXT_ECH_OUTER
    ensures p.Copies? ==> Positions(types, outer, 0) == Some(p.positions)
    ensures p.Copies? ==> forall k :: 0 <= k < |p.positions| ==> outer[p.positions[k]].typ != EXT_ECH
  {
    types := [];
    if e.typ == EXT_ECH_OUTER {
      types := ParseItems(ReadU16, ReadLp(1, e.body).value).value;
      PositionsInRange(types, outer, 0);
    }
  }

  // ---------------------------------------------------------------- the rebuilt bytes

  /** The extensions that the parser finds in a rebuilt hello are the expanded ones. */
  lemma RebuiltExts(e: Encoded, sid: Bytes, exts: seq<Ext>, bytes: Bytes)
    requires |e.versionAndRandom| == 34 && Rebuild(e, sid, exts) == Some(bytes)
    ensures ExtractRaw(bytes) == Some(exts)
    ensures Unmarshal(bytes).Some? ==> NoRepeats(exts)
  {
    var block := EncodeItems(EncodeExt, exts).value;
    InvertsExt();
    ParseEncodeItems(ReadExt, EncodeExt, AnyItem, exts);
    var vr := e.versionAndRandom;
    var rest := Layout(sid, e.suites, e.compression, block, []);
    RebuildLayout(e, sid, exts, bytes);
    Assoc3(bytes[..4], vr, rest);
    ExtractRawParts(bytes[..4] + vr, sid, e.suites, e.compression, block);
    if Unmarshal(bytes).Some? {
      FixedThenBlock(bytes[..4], vr, sid, e.suites, e.compression, block);
    }
  }

  lemma RebuildLayout(e: Encoded, sid: Bytes, exts: seq<Ext>, bytes: Bytes)
    requires Rebuild(e, sid, exts) == Some(bytes)
    ensures |bytes| >= 4 && EncodeItems(EncodeExt, exts).Some?
    ensures |sid| < Cap(1) && |e.suites| < Cap(2) && |e.compression| < Cap(1)
    ensures var block := EncodeItems(EncodeExt, exts).value;
      |block| < Cap(2) && bytes == bytes[..4] + (e.versionAndRandom + Layout(sid, e.suites, e.compression, block, []))
  {
    var block := EncodeItems(EncodeExt, exts).value;
    Regroup(e.versionAndRandom, UInt(1, |sid|), sid, UInt(2, |e.suites|), e.suites,
            UInt(1, |e.compression|), e.compression, UInt(2, |block|), block, []);
  }

  lemma FixedThenBlock(header: Bytes, vr: Bytes, sid: Bytes, suites: Bytes, comp: Bytes, block: Bytes)
    requires |header| == 4 && |vr| == 34
    requires |sid| < Cap(1) && |suites| < Cap(2) && |comp| < Cap(1) && |block| < Cap(2)
    requires ParseFixed(header + (vr + Layout(sid, suites, comp, block, []))).Some?
    ensures ParseFixed(header + (vr + Layout(sid, suites, comp, block, []))).value.1 == UInt(2, |block|) + block
    ensures Whole(ReadLp(2, UInt(2, |block|) + block)) == Some(block)
  {
    var t3 := UInt(2, |block|) + block + [];
    var t2 := UInt(1, |comp|) + comp + t3;
    var t1 := UInt(2, |suites|) + suites + t2;
    var t0 := UInt(1, |sid|) + sid + t1;
    var data := header + (vr + t0);
    assert data[4..] == vr + t0;
    assert (vr + t0)[2..] == vr[2..] + t0;
    ReadNOf(vr[2..], t0);
    ReadLpOfLp(1, sid, t1);
    ReadLpOfLp(2, suites, t2);
    ReadLpOfLp(1, comp, t3);
    WholeLp(2, block);
    assert t3 == UInt(2, |block|) + block;
  }

  /** What an encoding may take from the outer hello. */
  ghost predicate Verbatim(own: seq<Ext>, raw: seq<Ext>, pieces: seq<Piece>) {
    && |pieces| == |own| && AllInRange(pieces, raw)
    && (forall i :: 0 <= i < |pieces| && pieces[i].Own? ==> pieces[i].ext == own[i])
    && (forall i :: 0 <= i < |pieces| && pieces[i].Copies? ==>
          && StrictlyIncreasing(pieces[i].positions)
          && forall k :: 0 <= k < |pieces[i].positions| ==> raw[pieces[i].positions[k]].typ != EXT_ECH)
    && (forall i, j :: 0 <= i < j < |pieces| && pieces[i].Copies? && pieces[j].Copies? ==>
          Disjoint(pieces[i].positions, pieces[j].positions))
  }

  lemma NoRepeatsMakesVerbatim(own: seq<Ext>, raw: seq<Ext>, pieces: seq<Piece>)
    requires Pieces(own, raw) == Some(pieces) && AllInRange(pieces, raw) && NoRepeats(Flatten(pieces, raw))
    ensures Verbatim(own, raw, pieces)
  {
    PiecesInRange(own, raw);
    forall i | 0 <= i < |pieces| && pieces[i].Own? ensures pieces[i].ext == own[i] {
      var _ := PieceFacts(own[i], raw, pieces[i]);
    }
    forall i | 0 <= i < |pieces| && pieces[i].Copies?
      ensures StrictlyIncreasing(pieces[i].positions)
      ensures forall k :: 0 <= k < |pieces[i].positions| ==> raw[pieces[i].positions[k]].typ != EXT_ECH
    {
      var types := PieceFacts(own[i], raw, pieces[i]);
      CopiesIncrease(raw, pieces, i, types);
    }
    forall i, j | 0 <= i < j < |pieces| && pieces[i].Copies? && pieces[j].Copies?
      ensures Disjoint(pieces[i].positions, pieces[j].positions)
    {
      CopiesDisjoint(raw, pieces, i, j);
    }
  }

  /** The steps of an accepted decoding. */
  lemma DecodeSteps(outer: Hello, encoded: Bytes, inner: Hello)
      returns (e: Encoded, own: seq<Ext>, raw: seq<Ext>, pieces: seq<Piece>, bytes: Bytes)
    requires Decode(outer, encoded) == Some(inner)
    ensures SplitEncoded(encoded) == Some(e) && |e.versionAndRandom| == 34
    ensures ParseItems(ReadExt, e.exts) == Some(own)
    ensures outer.original.Some? && ExtractRaw(outer.original.value) == Some(raw)
    ensures Pieces(own, raw) == Some(pieces) && AllInRange(pieces, raw)
    ensures Rebuild(e, outer.sessionId, Flatten(pieces, raw)) == Some(bytes)
    ensures Unmarshal(bytes) == Some(inner)
  {
    e := SplitEncoded(encoded).value;
    own := ParseItems(ReadExt, e.exts).value;
    raw := ExtractRaw(outer.original.value).value;
    pieces := Pieces(own, raw).value;
    bytes := Reconstruct(outer, encoded).value;
    PiecesInRange(own, raw);
  }

  /** Extensions change no other part of a hello. */
  lemma {:induction false} KeepsFixed(h: Hello, exts: seq<Ext>)
    requires ApplyAll(h, exts).Some?
    ensures var r := ApplyAll(h, exts).value; r == h.(fields := r.fields, extensions := r.extensions)
    decreases |exts|
  {
    if exts != [] { KeepsFixed(ApplyExt(h, exts[0], |exts| == 1).value, exts[1..]); }
  }

  lemma UnmarshalKeeps(bytes: Bytes)
    requires Unmarshal(bytes).Some?
    ensures Unmarshal(bytes).value.original == Some(bytes)
    ensures var (h, r) := (ParseFixed(bytes).value.0, Unmarshal(bytes).value); r == h.(fields := r.fields, extensions := r.extensions)
  {
    var (h, rest) := ParseFixed(bytes).value;
    if rest != [] {
      KeepsFixed(h, ParseItems(ReadExt, Whole(ReadLp(2, rest)).value).value);
    }
  }

  /** Main result, any accepted encoding: an extension of the rebuilt hello is either
      the encoding's own or a verbatim copy of an outer extension; references within one
      block come in outer order, no outer extension is copied twice, and
      encrypted_client_hello is never copied.
   */
  lemma CopiesAreVerbatim(outer: Hello, encoded: Bytes, inner: Hello)
      returns (own: seq<Ext>, raw: seq<Ext>, pieces: seq<Piece>)
    requires Decode(outer, encoded) == Some(inner)
    ensures SplitEncoded(encoded).Some? && ParseItems(ReadExt, SplitEncoded(encoded).value.exts) == Some(own)
    ensures outer.original.Some? && ExtractRaw(outer.original.value) == Some(raw)
    ensures Pieces(own, raw) == Some(pieces) && Verbatim(own, raw, pieces)
    ensures inner.original.Some? && ExtractRaw(inner.original.value) == Some(Flatten(pieces, raw))
  {
    var e, bytes;
    e, own, raw, pieces, bytes := DecodeSteps(outer, encoded, inner);
    RebuiltExts(e, outer.sessionId, Flatten(pieces, raw), bytes);
    NoRepeatsMakesVerbatim(own, raw, pieces);
    UnmarshalKeeps(bytes);
  }

  // ---------------------------------------------------------------- order across blocks

  predicate Sorted(ps: seq<nat>) { forall j, k :: 0 <= j < k < |ps| ==> ps[j] <= ps[k] }

  lemma SortedCons(at: seq<nat>)
    requires at != []
    ensures Sorted(at) <==> Sorted(at[1..]) && forall k :: 0 <= k < |at[1..]| ==> at[0] <= at[1..][k]
  {
    var rest := at[1..];
    assert forall k :: 0 <= k < |rest| ==> rest[k] == at[k + 1];
    if Sorted(rest) && forall k :: 0 <= k < |rest| ==> at[0] <= rest[k] {
      forall a, b | 0 <= a < b < |at| ensures at[a] <= at[b] {
        assert at[b] == rest[b - 1];
        if a > 0 { assert at[a] == rest[a - 1]; }
      }
    }
  }

  lemma AllAbove(at: seq<nat>, i: nat)
    requires at != [] && i <= at[0]
    ensures Sorted(at) ==> forall k :: 0 <= k < |at| ==> i <= at[k]
  {
  }

  /** Where distinct outer numbers sit decides whether a list of references resolves. */
  lemma {:induction false} ResolvesIffSorted(types: seq<u16>, outer: seq<Ext>, i: nat, at: seq<nat>)
    requires NoRepeats(outer) && |at| == |types|
    requires forall k :: 0 <= k < |at| ==> at[k] < |outer| && outer[at[k]].typ == types[k] != EXT_ECH
    ensures Positions(types, outer, i).Some? <==> (forall k :: 0 <= k < |at| ==> i <= at[k]) && Sorted(at)
    ensures Positions(types, outer, i).Some? ==> Positions(types, outer, i).value == at
  {
    if types != [] {
      var j := Find(outer, i, types[0]);
      if at[0] < i {
        assert j.None?;
      } else {
        assert j == Some(at[0]);
        ResolvesIffSorted(types[1..], outer, at[0], at[1..]);
        assert at == [at[0]] + at[1..];
        SortedCons(at);
        AllAbove(at, i);
      }
    }
  }
}
