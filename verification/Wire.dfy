/** The byte-level vocabulary of the codecs: big-endian integers, length-prefixed
    vectors, a builder whose first error sticks, and consuming readers.  These are
    the `cryptobyte` operations the handshake messages are written with.
 */
module Wire {

  type byte = x: int | 0 <= x < 0x100
  type u16 = x: int | 0 <= x < 0x1_0000
  type u32 = x: int | 0 <= x < 0x1_0000_0000
  type u64 = x: int | 0 <= x < 0x1_0000_0000_0000_0000
  type Bytes = seq<byte>

  datatype Option<+T> = None | Some(value: T) {
    predicate IsFailure() { None? }
    function PropagateFailure<U>(): Option<U> requires None? { None }
    function Extract(): T requires Some? { value }
  }

  /** The outcome of a reader: a value and the bytes after it. */
  datatype Parsed<+T> = Bad | Got(value: T, rest: Bytes)

  /** A width is the number of bytes of a big-endian integer. */
  type Width = w: int | 1 <= w <= 4 witness 1

  function Cap(w: Width): nat {
    if w == 1 then 0x100 else if w == 2 then 0x1_0000 else if w == 3 then 0x100_0000 else 0x1_0000_0000
  }

  function UInt(w: Width, n: nat): (b: Bytes)
    requires n < Cap(w)
    ensures |b| == w
  {
    if w == 1 then [n]
    else if w == 2 then [n / 0x100, n % 0x100]
    else if w == 3 then [n / 0x1_0000, n / 0x100 % 0x100, n % 0x100]
    else [n / 0x100_0000, n / 0x1_0000 % 0x100, n / 0x100 % 0x100, n % 0x100]
  }

  function At(b: Bytes, i: nat): int
    requires i < |b|
  {
    b[i]
  }

  function Value(b: Bytes): (n: nat)
    requires 1 <= |b| <= 4
    ensures n < Cap(|b|)
  {
    if |b| == 1 then b[0]
    else if |b| == 2 then At(b, 0) * 0x100 + b[1]
    else if |b| == 3 then At(b, 0) * 0x1_0000 + At(b, 1) * 0x100 + b[2]
    else At(b, 0) * 0x100_0000 + At(b, 1) * 0x1_0000 + At(b, 2) * 0x100 + b[3]
  }

  lemma ValueUInt(w: Width, n: nat)
    requires n < Cap(w)
    ensures Value(UInt(w, n)) == n
  {
    var n1, n2 := n / 0x100, n / 0x1_0000;
    assert n == n1 * 0x100 + n % 0x100;
    assert n1 == n2 * 0x100 + n1 % 0x100;
    if w == 4 { assert n2 == n / 0x100_0000 * 0x100 + n2 % 0x100; }
  }

  lemma UIntValue(b: Bytes)
    requires 1 <= |b| <= 4
    ensures UInt(|b|, Value(b)) == b
  {
    var n := Value(b);
    if |b| == 3 {
      var hi := At(b, 0) * 0x100 + b[1];
      assert n == hi * 0x100 + b[2] && n / 0x100 == hi;
    } else if |b| == 4 {
      var top := At(b, 0) * 0x100 + b[1];
      var hi := top * 0x100 + b[2];
      assert n == hi * 0x100 + b[3] && n / 0x100 == hi && n / 0x1_0000 == top;
    }
  }

  // ---------------------------------------------------------------- builder

  /** A builder: `None` once some length prefix has overflowed. */
  type Build = Option<Bytes>

  function Cat(a: Build, b: Build): Build {
    if a.None? || b.None? then None else Some(a.value + b.value)
  }

  /** Appends `b` behind a `w`-byte length prefix; an overlong `b` is an error. */
  function Lp(w: Width, b: Build): Build {
    if b.None? || |b.value| >= Cap(w) then None else Some(UInt(w, |b.value|) + b.value)
  }

  function U16(n: u16): Build { Some(UInt(2, n)) }

  function U32(n: u32): Build { Some(UInt(4, n)) }

  // ---------------------------------------------------------------- readers

  function ReadN(n: nat, s: Bytes): Parsed<Bytes> {
    if |s| < n then Bad else Got(s[..n], s[n..])
  }

  function ReadUInt(w: Width, s: Bytes): Parsed<nat> {
    if |s| < w then Bad else Got(Value(s[..w]), s[w..])
  }

  function ReadU16(s: Bytes): Parsed<u16> {
    if |s| < 2 then Bad else Got(Value(s[..2]), s[2..])
  }

  function ReadU32(s: Bytes): Parsed<u32> {
    if |s| < 4 then Bad else Got(Value(s[..4]), s[4..])
  }

  /** Reads a vector behind a `w`-byte length prefix. */
  function ReadLp(w: Width, s: Bytes): Parsed<Bytes> {
    if |s| < w then Bad
    else
      var n := Value(s[..w]);
      if |s| - w < n then Bad else Got(s[w..w + n], s[w + n..])
  }

  lemma ReadUIntOfUInt(w: Width, n: nat, t: Bytes)
    requires n < Cap(w)
    ensures ReadUInt(w, UInt(w, n) + t) == Got(n, t)
  {
    ValueUInt(w, n);
    assert (UInt(w, n) + t)[..w] == UInt(w, n);
    assert (UInt(w, n) + t)[w..] == t;
  }

  lemma ReadU16OfUInt(n: u16, t: Bytes)
    ensures ReadU16(UInt(2, n) + t) == Got(n, t)
  {
    ReadUIntOfUInt(2, n, t);
  }

  lemma ReadU32OfUInt(n: u32, t: Bytes)
    ensures ReadU32(UInt(4, n) + t) == Got(n, t)
  {
    ReadUIntOfUInt(4, n, t);
  }

  lemma ReadNOf(b: Bytes, t: Bytes)
    ensures ReadN(|b|, b + t) == Got(b, t)
  {
    assert (b + t)[..|b|] == b;
    assert (b + t)[|b|..] == t;
  }

  /** Reading back what `Lp` wrote, whatever follows it. */
  lemma ReadLpOfLp(w: Width, b: Bytes, t: Bytes)
    requires |b| < Cap(w)
    ensures ReadLp(w, UInt(w, |b|) + b + t) == Got(b, t)
  {
    var s := UInt(w, |b|) + b + t;
    ValueUInt(w, |b|);
    assert s[..w] == UInt(w, |b|);
    assert s[w..w + |b|] == b;
    assert s[w + |b|..] == t;
  }

  /** What `ReadLp` accepts is a prefix that `Lp` writes: nothing is skipped. */
  lemma ReadLpExact(w: Width, s: Bytes)
    requires ReadLp(w, s).Got?
    ensures |ReadLp(w, s).value| < Cap(w)
    ensures s == UInt(w, |ReadLp(w, s).value|) + ReadLp(w, s).value + ReadLp(w, s).rest
  {
    UIntValue(s[..w]);
    assert s == s[..w] + s[w..];
  }

  lemma Assoc3(a: Bytes, b: Bytes, c: Bytes)
    ensures a + (b + c) == a + b + c
  {
  }

  lemma Assoc4(a: Bytes, b: Bytes, c: Bytes, d: Bytes)
    ensures a + (b + (c + d)) == a + b + c + d
  {
  }

  // ---------------------------------------------------------------- item lists

  /** Reads items until the bytes run out.  Every reader used here consumes at least
      one byte; one that did not would make the list fail.
   */
  function ParseItems<T>(item: Bytes -> Parsed<T>, s: Bytes): Option<seq<T>>
    decreases |s|
  {
    if s == [] then Some([])
    else match item(s)
      case Bad => None
      case Got(v, rest) =>
        if |rest| >= |s| then None
        else
          var more :- ParseItems(item, rest);
          Some([v] + more)
  }

  /** The loop `for !s.Empty() { read one item; append it }`. */
  method ReadItems<T>(item: Bytes -> Parsed<T>, s: Bytes) returns (r: Option<seq<T>>)
    ensures r == ParseItems(item, s)
  {
    var rest, xs := s, [];
    assert ParseItems(item, s).Some? ==> [] + ParseItems(item, s).value == ParseItems(item, s).value;
    while rest != []
      invariant ParseItems(item, s) ==
        (if ParseItems(item, rest).None? then None else Some(xs + ParseItems(item, rest).value))
      decreases |rest|
    {
      match item(rest) {
        case Bad => return None;
        case Got(v, more) =>
          if |more| >= |rest| { return None; }
          assert ParseItems(item, more).Some? ==>
            xs + ([v] + ParseItems(item, more).value) == (xs + [v]) + ParseItems(item, more).value;
          xs, rest := xs + [v], more;
      }
    }
    assert xs + [] == xs;
    return Some(xs);
  }

  function EncodeItems<T>(enc: T -> Build, xs: seq<T>): Build {
    if xs == [] then Some([]) else Cat(enc(xs[0]), EncodeItems(enc, xs[1..]))
  }

  ghost predicate InvertsAt<T>(item: Bytes -> Parsed<T>, enc: T -> Build, valid: T -> bool, x: T, t: Bytes) {
    enc(x).Some? ==>
      |enc(x).value| > 0 && item(enc(x).value + t) == (if valid(x) then Got(x, t) else Bad)
  }

  /** `item` inverts `enc` on the valid values and refuses the encodings of the others. */
  ghost predicate Inverts<T(!new)>(item: Bytes -> Parsed<T>, enc: T -> Build, valid: T -> bool) {
    forall x, t :: InvertsAt(item, enc, valid, x, t)
  }

  ghost predicate AllValid<T>(valid: T -> bool, xs: seq<T>) {
    forall i :: 0 <= i < |xs| ==> valid(xs[i])
  }

  /** Lists round-trip exactly when every element is valid. */
  lemma {:induction false} ParseEncodeItems<T(!new)>(
      item: Bytes -> Parsed<T>, enc: T -> Build, valid: T -> bool, xs: seq<T>)
    requires Inverts(item, enc, valid)
    requires EncodeItems(enc, xs).Some?
    ensures ParseItems(item, EncodeItems(enc, xs).value) ==
      (if AllValid(valid, xs) then Some(xs) else None)
    ensures EncodeItems(enc, xs).value == [] <==> xs == []
  {
    if xs != [] {
      var head, tail := enc(xs[0]).value, EncodeItems(enc, xs[1..]).value;
      assert InvertsAt(item, enc, valid, xs[0], tail);
      ParseEncodeItems(item, enc, valid, xs[1..]);
      assert AllValid(valid, xs) <==> valid(xs[0]) && AllValid(valid, xs[1..]) by {
        assert forall i :: 0 < i < |xs| ==> xs[i] == xs[1..][i - 1];
        if valid(xs[0]) && AllValid(valid, xs[1..]) {
          forall i | 0 <= i < |xs| ensures valid(xs[i]) { }
        }
        if AllValid(valid, xs) {
          forall i | 0 <= i < |xs[1..]| ensures valid(xs[1..][i]) { assert xs[1..][i] == xs[i + 1]; }
        }
      }
      assert xs == [xs[0]] + xs[1..];
    }
  }

  lemma EncodeOne<T>(enc: T -> Build, x: T)
    ensures EncodeItems(enc, [x]) == enc(x)
  {
    var one := [x];
    assert one[1..] == [];
    if enc(x).Some? { assert enc(x).value + [] == enc(x).value; }
  }

  lemma EncodeCons<T>(enc: T -> Build, x: T, xs: seq<T>)
    ensures EncodeItems(enc, [x] + xs) == Cat(enc(x), EncodeItems(enc, xs))
  {
    assert ([x] + xs)[1..] == xs;
  }

  lemma {:induction false} EncodeItemsAppend<T>(enc: T -> Build, xs: seq<T>, ys: seq<T>)
    ensures EncodeItems(enc, xs + ys) == Cat(EncodeItems(enc, xs), EncodeItems(enc, ys))
  {
    if xs == [] {
      assert xs + ys == ys;
      if EncodeItems(enc, ys).Some? { assert [] + EncodeItems(enc, ys).value == EncodeItems(enc, ys).value; }
    } else {
      EncodeItemsAppend(enc, xs[1..], ys);
      assert (xs + ys)[1..] == xs[1..] + ys;
      var a, b, c := enc(xs[0]), EncodeItems(enc, xs[1..]), EncodeItems(enc, ys);
      if a.Some? && b.Some? && c.Some? {
        assert a.value + (b.value + c.value) == (a.value + b.value) + c.value;
      }
    }
  }

  /** `enc` writes back exactly the bytes that `item` consumed. */
  ghost predicate ExactAt<T>(item: Bytes -> Parsed<T>, enc: T -> Build, s: Bytes) {
    item(s).Got? ==>
      enc(item(s).value).Some? && s == enc(item(s).value).value + item(s).rest
  }

  /** A list that parses is exactly the encoding of what it parsed to. */
  lemma {:induction false} EncodeParsedItems<T(!new)>(item: Bytes -> Parsed<T>, enc: T -> Build, s: Bytes)
    requires forall t :: ExactAt(item, enc, t)
    requires ParseItems(item, s).Some?
    ensures EncodeItems(enc, ParseItems(item, s).value) == Some(s)
    decreases |s|
  {
    if s != [] {
      assert ExactAt(item, enc, s);
      var v, rest := item(s).value, item(s).rest;
      EncodeParsedItems(item, enc, rest);
      var xs := ParseItems(item, s).value;
      assert xs[0] == v && xs[1..] == ParseItems(item, rest).value;
    }
  }
}
