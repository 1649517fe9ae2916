/** Reading records: the bounded-retry reader, the buffer of handshake bytes, and the rule
    that no handshake message is parsed across a change of read key.
 */
module Reader {
  import opened Wire

  const TLS12: u16 := 0x0303
  const TLS13: u16 := 0x0304

  const CHANGE_CIPHER_SPEC := 20
  const ALERT := 21
  const HANDSHAKE := 22
  const APPLICATION_DATA := 23

  const MAX_PLAINTEXT := 16384
  const MAX_CIPHERTEXT := 16384 + 2048
  const MAX_CIPHERTEXT_TLS13 := 16384 + 256
  const MAX_USELESS := 16
  const MAX_HANDSHAKE := 65536
  const MAX_CERTIFICATE := 262144
  const TYPE_CERTIFICATE := 11

  const LEVEL_WARNING := 1
  const LEVEL_ERROR := 2
  const CLOSE_NOTIFY := 0
  const USER_CANCELED := 90

  /** What the network delivers next: a failed read, or a record, whose plaintext is
      `None` if it does not decrypt. */
  datatype Incoming =
    | NetError(temporary: bool)
    | Record(typ: byte, vers: u16, length: nat, plain: Option<(byte, Bytes)>)

  /** What a QUIC caller does next while the handshake waits: it hands in bytes for a level,
      or cancels. */
  datatype Delivery = Data(level: nat, bytes: Bytes) | Cancelled

  /** A handshake byte, with the number of the read key that delivered it. */
  datatype Tagged = Tagged(value: byte, epoch: nat)

  function Tag(data: Bytes, epoch: nat): (r: seq<Tagged>)
    ensures |r| == |data| && forall i :: 0 <= i < |r| ==> r[i] == Tagged(data[i], epoch)
  {
    seq(|data|, i requires 0 <= i < |data| => Tagged(data[i], epoch))
  }

  predicate Pure(hand: seq<Tagged>, epoch: nat) {
    forall i :: 0 <= i < |hand| ==> hand[i].epoch == epoch
  }

  lemma Assoc<T>(a: seq<T>, b: seq<T>, c: seq<T>)
    ensures a + b + c == a + (b + c)
  {
  }

  /** What is left of `b` after reading from its front. */
  predicate Suffix<T(==)>(a: seq<T>, b: seq<T>) { |a| <= |b| && a == b[|b| - |a|..] }

  lemma SuffixTrans<T>(a: seq<T>, b: seq<T>, c: seq<T>)
    requires Suffix(a, b) && Suffix(b, c)
    ensures Suffix(a, c)
  {
  }

  /** What has been read off the front of `before`. */
  function Gone<T>(before: seq<T>, after: seq<T>): seq<T> {
    if |after| <= |before| then before[..|before| - |after|] else []
  }

  lemma SuffixSelf<T>(a: seq<T>)
    ensures Suffix(a, a)
  {
  }

  lemma SuffixTail<T>(a: seq<T>, b: seq<T>)
    requires Suffix(a, b) && a != []
    ensures Suffix(a[1..], b)
  {
  }

  /** How a call to the reader ends. */
  datatype Outcome = Error | HandGrew | CipherChanged | InputSet

  // ---------------------------------------------------------------- what a record is good for

  /** What decides about a record, apart from the record. */
  datatype Settings = Settings(
    vers: u16, haveVers: bool, complete: bool, active: bool, ready: bool, clean: bool, expectChange: bool)

  /** The record passes the checks on its header, decrypts, and is not too long. */
  predicate Readable(s: Settings, x: Incoming) {
    && x.Record?
    && !(!s.complete && x.typ == 0x80)
    && (s.haveVers ==> x.vers == if s.vers == TLS13 then TLS12 else s.vers)
    && (!s.haveVers ==> x.typ in {ALERT, HANDSHAKE} && x.vers < 0x1000)
    && x.length <= (if s.vers == TLS13 then MAX_CIPHERTEXT_TLS13 else MAX_CIPHERTEXT)
    && x.plain.Some? && |x.plain.value.1| <= MAX_PLAINTEXT
  }

  /** Records that do not advance the state, and are dropped: empty application data, a
      warning (in TLS 1.3 only user_canceled), and TLS 1.3's ChangeCipherSpec. */
  predicate Useless(s: Settings, typ: byte, data: Bytes) {
    && (s.vers == TLS13 ==> s.clean)
    && (if typ == APPLICATION_DATA then s.active && s.complete && !s.expectChange && data == []
        else if typ == ALERT then
          |data| == 2 && data[1] != CLOSE_NOTIFY && (if s.vers == TLS13 then data[1] == USER_CANCELED else data[0] == LEVEL_WARNING)
        else typ == CHANGE_CIPHER_SPEC && s.vers == TLS13 && data == [1])
  }

  /** Records that are taken, each for the outcome it leads to. */
  predicate Useful(s: Settings, typ: byte, data: Bytes, r: Outcome) {
    match r
    case HandGrew => typ == HANDSHAKE && data != [] && !s.expectChange
    case InputSet =>
      typ == APPLICATION_DATA && data != [] && s.active && s.complete && !s.expectChange && (s.vers == TLS13 ==> s.clean)
    case CipherChanged =>
      typ == CHANGE_CIPHER_SPEC && data == [1] && s.expectChange && s.clean && s.vers != TLS13 && s.ready
    case Error => false
  }

  /** How many records are dropped before the first that is not. */
  function Skipped(s: Settings, xs: seq<Incoming>): (k: nat)
    ensures k <= |xs|
  {
    if xs == [] || !Readable(s, xs[0]) || !Useless(s, xs[0].plain.value.0, xs[0].plain.value.1) then 0
    else 1 + Skipped(s, xs[1..])
  }

  /** Every record before that one is readable and of a kind that is dropped; that one is not. */
  lemma {:induction false} SkippedAreUseless(s: Settings, xs: seq<Incoming>, i: nat)
    requires i <= Skipped(s, xs) && i < |xs|
    ensures i < Skipped(s, xs) <==> Readable(s, xs[i]) && Useless(s, xs[i].plain.value.0, xs[i].plain.value.1)
  {
    if i > 0 { SkippedAreUseless(s, xs[1..], i - 1); }
  }

  /** The first record that is not dropped decides, if it comes soon enough. */
  ghost predicate Decided(s: Settings, retry: nat, xs: seq<Incoming>, r: Outcome, rest: seq<Incoming>, got: Bytes) {
    var k := Skipped(s, xs);
    if r == Error then
      k + retry <= MAX_USELESS && k < |xs| && Readable(s, xs[k]) ==>
        forall o: Outcome :: !Useful(s, xs[k].plain.value.0, xs[k].plain.value.1, o)
    else
      && k + retry <= MAX_USELESS && k < |xs| && rest == xs[k + 1..]
      && Readable(s, xs[k]) && xs[k].plain.value.1 == got && Useful(s, xs[k].plain.value.0, got, r)
  }

  /** The same, with the first record in hand and the others to follow. */
  ghost predicate DecidedFrom(
    s: Settings, retry: nat, typ: byte, data: Bytes, xs: seq<Incoming>, r: Outcome, rest: seq<Incoming>, got: Bytes)
  {
    if |data| <= MAX_PLAINTEXT && Useless(s, typ, data) then
      if retry + 1 > MAX_USELESS then r == Error else Decided(s, retry + 1, xs, r, rest, got)
    else if r == Error then |data| > MAX_PLAINTEXT || forall o: Outcome :: !Useful(s, typ, data, o)
    else |data| <= MAX_PLAINTEXT && Useful(s, typ, data, r) && rest == xs && got == data
  }

  lemma DecidedNone(s: Settings, retry: nat, xs: seq<Incoming>, rest: seq<Incoming>, got: Bytes)
    requires xs == [] || !Readable(s, xs[0])
    ensures Decided(s, retry, xs, Error, rest, got)
  {
  }

  lemma NotReadable(s: Settings, x: Incoming)
    requires !x.Record?
    ensures !Readable(s, x)
  {
  }

  lemma DecidedError(s: Settings, retry: nat, xs: seq<Incoming>, rest: seq<Incoming>, got: Bytes, rest': seq<Incoming>)
    requires Decided(s, retry, xs, Error, rest, got)
    ensures Decided(s, retry, xs, Error, rest', [])
  {
  }

  lemma DecidedFirst(s: Settings, retry: nat, xs: seq<Incoming>, r: Outcome, rest: seq<Incoming>, got: Bytes)
    requires xs != [] && xs[0].Record? && xs[0].plain.Some? && retry <= MAX_USELESS
    requires Readable(s, xs[0]) <==> |xs[0].plain.value.1| <= MAX_PLAINTEXT
    requires DecidedFrom(s, retry, xs[0].plain.value.0, xs[0].plain.value.1, xs[1..], r, rest, got)
    ensures Decided(s, retry, xs, r, rest, got)
  {
    var k := Skipped(s, xs);
    if k > 0 {
      assert Skipped(s, xs[1..]) == k - 1;
      if k < |xs| { assert xs[k] == xs[1..][k - 1] && xs[k + 1..] == xs[1..][k..]; }
    }
  }

  /** The handshake bytes in the records read. */
  function Plaintexts(xs: seq<Incoming>): Bytes {
    if xs == [] then []
    else
      (if xs[0].Record? && xs[0].plain.Some? && xs[0].plain.value.0 == HANDSHAKE then xs[0].plain.value.1 else [])
      + Plaintexts(xs[1..])
  }

  lemma NothingGone(records: seq<Incoming>, calls: seq<Delivery>, epoch: nat)
    ensures Suffix(records, records) && Suffix(calls, calls)
    ensures Tag(Plaintexts(Gone(records, records)), epoch) == [] && Accepted(Gone(calls, calls), epoch) == []
  {
  }

  /** The bytes that a QUIC caller has handed in for the level. */
  function Accepted(calls: seq<Delivery>, level: nat): seq<Tagged> {
    if calls == [] then []
    else (if calls[0].Data? && calls[0].level == level then Tag(calls[0].bytes, level) else []) + Accepted(calls[1..], level)
  }

  lemma {:induction false} AcceptedAppend(a: seq<Delivery>, b: seq<Delivery>, level: nat)
    ensures Accepted(a + b, level) == Accepted(a, level) + Accepted(b, level)
  {
    if a == [] { assert a + b == b; } else {
      assert (a + b)[1..] == a[1..] + b;
      AcceptedAppend(a[1..], b, level);
    }
  }

  lemma AcceptedJoin(a: seq<Delivery>, b: seq<Delivery>, c: seq<Delivery>, level: nat)
    requires Suffix(b, a) && Suffix(c, b)
    ensures Accepted(Gone(a, c), level) == Accepted(Gone(a, b), level) + Accepted(Gone(b, c), level)
  {
    assert Gone(a, c) == Gone(a, b) + Gone(b, c);
    AcceptedAppend(Gone(a, b), Gone(b, c), level);
  }

  lemma AcceptedOneMore(a: seq<Delivery>, b: seq<Delivery>, level: nat)
    requires Suffix(b, a) && b != []
    ensures Accepted(Gone(a, b[1..]), level) ==
      Accepted(Gone(a, b), level) + if b[0].Data? && b[0].level == level then Tag(b[0].bytes, level) else []
  {
    AcceptedJoin(a, b, b[1..], level);
    assert Gone(b, b[1..]) == [b[0]] && [b[0]][1..] == [];
  }

  lemma {:induction false} PlaintextsAppend(a: seq<Incoming>, b: seq<Incoming>)
    ensures Plaintexts(a + b) == Plaintexts(a) + Plaintexts(b)
  {
    if a == [] { assert a + b == b; } else {
      assert (a + b)[1..] == a[1..] + b;
      PlaintextsAppend(a[1..], b);
    }
  }

  lemma PlaintextsJoin(a: seq<Incoming>, b: seq<Incoming>, c: seq<Incoming>, epoch: nat)
    requires Suffix(b, a) && Suffix(c, b)
    ensures Tag(Plaintexts(Gone(a, c)), epoch) == Tag(Plaintexts(Gone(a, b)), epoch) + Tag(Plaintexts(Gone(b, c)), epoch)
  {
    assert Gone(a, c) == Gone(a, b) + Gone(b, c);
    PlaintextsAppend(Gone(a, b), Gone(b, c));
  }

  /** Dropped records hold no handshake bytes. */
  lemma {:induction false} SkippedHoldNothing(s: Settings, xs: seq<Incoming>)
    ensures Plaintexts(xs[..Skipped(s, xs)]) == []
  {
    if Skipped(s, xs) > 0 {
      SkippedHoldNothing(s, xs[1..]);
      assert xs[..Skipped(s, xs)][1..] == xs[1..][..Skipped(s, xs[1..])];
    }
  }

  lemma {:induction false} TakenHolds(s: Settings, retry: nat, xs: seq<Incoming>, r: Outcome, rest: seq<Incoming>, got: Bytes)
    requires r != Error && Decided(s, retry, xs, r, rest, got)
    ensures Suffix(rest, xs) && Plaintexts(Gone(xs, rest)) == if r == HandGrew then got else []
  {
    var k := Skipped(s, xs);
    assert Gone(xs, rest) == xs[..k] + [xs[k]];
    PlaintextsAppend(xs[..k], [xs[k]]);
    SkippedHoldNothing(s, xs);
    assert [xs[k]][1..] == [];
  }

  /** A record that was taken adds its plaintext, if it is a handshake record. */
  lemma MoreArrived(s: Settings, retry: nat, all: seq<Incoming>, xs: seq<Incoming>, r: Outcome, rest: seq<Incoming>,
                    got: Bytes, epoch: nat)
    requires Suffix(xs, all) && r != Error && Decided(s, retry, xs, r, rest, got)
    ensures Suffix(rest, all)
    ensures Tag(Plaintexts(Gone(all, rest)), epoch) ==
      Tag(Plaintexts(Gone(all, xs)), epoch) + if r == HandGrew then Tag(got, epoch) else []
  {
    TakenHolds(s, retry, xs, r, rest, got);
    hide Decided, Suffix, Plaintexts, Gone;
    SuffixTrans(rest, xs, all);
    PlaintextsJoin(all, xs, rest, epoch);
  }

  class Reader {
    var vers: u16
    var haveVers: bool
    var handshakeComplete: bool
    var quic: bool
    var cipherActive: bool
    var nextReady: bool
    var failed: bool
    var retryCount: nat
    var input: Bytes
    var hand: seq<Tagged>
    var incoming: seq<Incoming>
    var epoch: nat
    // The QUIC handoff: bytes accepted from the caller and not yet in `hand`, and what the
    // caller will do next.
    var readbuf: seq<Tagged>
    var deliveries: seq<Delivery>
    // The writing side, as far as key updates go: the number of its key, and its error.
    var writeEpoch: nat
    var writeFailed: bool

    ghost predicate Valid()
      reads this
    {
      && Pure(hand, epoch) && Pure(readbuf, epoch)
      && (retryCount <= MAX_USELESS || failed) && (!quic ==> readbuf == [])
    }

    constructor (quic: bool, incoming: seq<Incoming>, deliveries: seq<Delivery>)
      ensures Valid() && epoch == 0 && hand == [] && this.quic == quic && this.incoming == incoming
      ensures this.deliveries == deliveries && !failed && input == [] && retryCount == 0
    {
      writeEpoch, writeFailed, this.deliveries := 0, false, deliveries;
      vers, haveVers, handshakeComplete := 0, false, false;
      cipherActive, nextReady, failed, retryCount, epoch := false, false, false, 0, 0;
      input, hand, readbuf := [], [], [];
      this.quic, this.incoming := quic, incoming;
    }

    /** The checks on a record header. */
    predicate HeaderOk(typ: byte, v: u16, length: nat)
      reads this
    {
      && !(!handshakeComplete && typ == 0x80)
      && (haveVers ==> v == if vers == TLS13 then TLS12 else vers)
      && (!haveVers ==> typ in {ALERT, HANDSHAKE} && v < 0x1000)
      && length <= MAX_CIPHERTEXT && (vers == TLS13 ==> length <= MAX_CIPHERTEXT_TLS13)
    }

    ghost function Now(expectChange: bool): Settings
      reads this
    {
      Settings(vers, haveVers, handshakeComplete, cipherActive, nextReady, hand == [], expectChange)
    }

    lemma HeaderIs(x: Incoming, expectChange: bool)
      requires x.Record?
      ensures Readable(Now(expectChange), x) <==>
        HeaderOk(x.typ, x.vers, x.length) && x.plain.Some? && |x.plain.value.1| <= MAX_PLAINTEXT
    {
    }

    /** The frame of the reader: what it never touches, and how much it reads. */
    twostate predicate Frame(new n: nat)
      reads this
    {
      && vers == old(vers) && haveVers == old(haveVers) && handshakeComplete == old(handshakeComplete)
      && quic == old(quic) && readbuf == old(readbuf) && deliveries == old(deliveries)
      && Suffix(incoming, old(incoming)) && |old(incoming)| - |incoming| <= n
    }

    method Fail() returns (r: Outcome)
      modifies this
      ensures r == Error && failed
      ensures vers == old(vers) && haveVers == old(haveVers) && handshakeComplete == old(handshakeComplete)
      ensures quic == old(quic) && cipherActive == old(cipherActive) && nextReady == old(nextReady)
      ensures retryCount == old(retryCount) && input == old(input) && hand == old(hand) && incoming == old(incoming)
      ensures writeEpoch == old(writeEpoch) && writeFailed == old(writeFailed)
      ensures epoch == old(epoch) && readbuf == old(readbuf) && deliveries == old(deliveries)
    {
      failed := true;
      r := Error;
    }

    /** Exactly one of four things happens, the one named by the outcome. */
    twostate predicate Exactly(new r: Outcome, new expectChange: bool, new got: Bytes)
      reads this
    {
      match r
      case Error =>
        && hand == old(hand) && epoch == old(epoch) && cipherActive == old(cipherActive)
        && input == old(input) && nextReady == old(nextReady)
      case HandGrew =>
        && !expectChange && epoch == old(epoch) && cipherActive == old(cipherActive) && input == []
        && got != [] && hand == old(hand) + Tag(got, epoch)
        && retryCount == 0 && !failed
      case CipherChanged =>
        && expectChange && vers != TLS13 && old(hand) == [] == hand && input == []
        && epoch == old(epoch) + 1 && cipherActive && old(nextReady) && !failed
      case InputSet =>
        && !expectChange && handshakeComplete && cipherActive && cipherActive == old(cipherActive)
        && input == got != [] && |input| <= MAX_PLAINTEXT && hand == old(hand) && epoch == old(epoch)
        && (vers == TLS13 ==> hand == []) && retryCount == 0 && !failed
    }

    /** Reads records until one advances the state, at most 17.  The first that is not dropped
        decides; `got` is its plaintext.
     */
    method ReadRecordOrCCS(expectChange: bool) returns (r: Outcome, ghost got: Bytes)
      requires Valid()
      modifies this
      ensures Valid() && Exactly(r, expectChange, got)
      ensures Frame(if old(failed) then 0 else MAX_USELESS + 1 - old(retryCount))
      ensures old(failed) || old(input) != [] || quic ==> r == Error && incoming == old(incoming)
      ensures !old(failed) && old(input) == [] && !quic ==>
        Decided(old(Now(expectChange)), old(retryCount), old(incoming), r, incoming, got)
      decreases MAX_USELESS + 1 - retryCount, 4
    {
      hide Decided, Suffix, Pure, Tag, Now;
      got := [];
      SuffixSelf(incoming);
      if failed { return Error, got; }
      if input != [] { r := Fail(); return; }
      if quic { r := Fail(); return; }
      r, got := ReadNext(expectChange);
    }

    /** Takes the next record off the network, and checks its header. */
    method ReadNext(expectChange: bool) returns (r: Outcome, ghost got: Bytes)
      requires Valid() && !failed && input == [] && !quic
      modifies this
      ensures Valid() && Exactly(r, expectChange, got)
      ensures Frame(MAX_USELESS + 1 - old(retryCount))
      ensures Decided(old(Now(expectChange)), old(retryCount), old(incoming), r, incoming, got)
      decreases MAX_USELESS + 1 - retryCount, 3
    {
      hide Decided, DecidedFrom, Skipped, Suffix, Pure, Tag, Readable, HeaderOk;
      got := [];
      SuffixSelf(incoming);
      ghost var s, retry, all := Now(expectChange), retryCount, incoming;
      if incoming == [] {
        r := Fail();
        DecidedNone(s, retry, all, incoming, got);
        return;
      }
      var next := incoming[0];
      if next.NetError? {
        incoming := incoming[1..];
        SuffixTail(all, all);
        NotReadable(s, next);
        DecidedNone(s, retry, all, incoming, got);
        if !next.temporary { failed := true; }
        return Error, got;
      }
      HeaderIs(next, expectChange);
      var ok := HeaderOk(next.typ, next.vers, next.length);
      incoming := incoming[1..];
      SuffixTail(all, all);
      if !ok || next.plain.None? {
        DecidedNone(s, retry, all, incoming, got);
        r := Fail();
        return;
      }
      ghost var left := incoming;
      r, got := Process(next.plain.value.0, next.plain.value.1, expectChange);
      SuffixTrans(incoming, left, all);
      DecidedFirst(s, retry, all, r, incoming, got);
    }

    /** Handles one decrypted record. */
    method Process(typ: byte, data: Bytes, expectChange: bool) returns (r: Outcome, ghost got: Bytes)
      requires Valid() && !failed && input == [] && !quic
      modifies this
      ensures Valid() && Exactly(r, expectChange, got)
      ensures Frame(MAX_USELESS - old(retryCount))
      ensures DecidedFrom(old(Now(expectChange)), old(retryCount), typ, data, old(incoming), r, incoming, got)
      decreases MAX_USELESS + 1 - retryCount, 2
    {
      hide Decided;
      got := data;
      if |data| > MAX_PLAINTEXT { r := Fail(); return; }
      if !cipherActive && typ == APPLICATION_DATA { r := Fail(); return; }
      if typ != ALERT && typ != CHANGE_CIPHER_SPEC && |data| > 0 { retryCount := 0; }
      if vers == TLS13 && typ != HANDSHAKE && |hand| > 0 { r := Fail(); return; }
      if typ == ALERT {
        r, got := ProcessAlert(data, expectChange);
      } else if typ == CHANGE_CIPHER_SPEC {
        r, got := ProcessChange(data, expectChange);
      } else if typ == APPLICATION_DATA {
        if !handshakeComplete || expectChange { r := Fail(); return; }
        if |data| == 0 { r, got := RetryReadRecord(expectChange); return; }
        input := data;
        return InputSet, got;
      } else if typ == HANDSHAKE {
        if |data| == 0 || expectChange { r := Fail(); return; }
        hand := hand + Tag(data, epoch);
        return HandGrew, got;
      } else {
        r := Fail();
      }
    }

    method ProcessChange(data: Bytes, expectChange: bool) returns (r: Outcome, ghost got: Bytes)
      requires Valid() && !failed && input == [] && !quic
      requires |data| <= MAX_PLAINTEXT && (vers == TLS13 ==> hand == [])
      modifies this
      ensures Valid() && Exactly(r, expectChange, got)
      ensures Frame(MAX_USELESS - old(retryCount))
      ensures DecidedFrom(old(Now(expectChange)), old(retryCount), CHANGE_CIPHER_SPEC, data, old(incoming), r, incoming, got)
      decreases MAX_USELESS + 1 - retryCount, 1
    {
      hide Decided;
      got := data;
      if |data| != 1 || data[0] != 1 { r := Fail(); return; }
      if |hand| > 0 { r := Fail(); return; }
      if vers == TLS13 { r, got := RetryReadRecord(expectChange); return; }
      if !expectChange { r := Fail(); return; }
      if !nextReady { r := Fail(); return; }
      nextReady, cipherActive, epoch := false, true, epoch + 1;
      return CipherChanged, got;
    }

    method ProcessAlert(data: Bytes, expectChange: bool) returns (r: Outcome, ghost got: Bytes)
      requires Valid() && !failed && input == [] && !quic
      requires |data| <= MAX_PLAINTEXT && (vers == TLS13 ==> hand == [])
      modifies this
      ensures Valid() && Exactly(r, expectChange, got)
      ensures Frame(MAX_USELESS - old(retryCount))
      ensures DecidedFrom(old(Now(expectChange)), old(retryCount), ALERT, data, old(incoming), r, incoming, got)
      decreases MAX_USELESS + 1 - retryCount, 1
    {
      hide Decided;
      got := data;
      if |data| != 2 || data[1] == CLOSE_NOTIFY { r := Fail(); return; }
      if vers == TLS13 {
        if data[1] == USER_CANCELED { r, got := RetryReadRecord(expectChange); return; }
        r := Fail();
        return;
      }
      if data[0] == LEVEL_WARNING { r, got := RetryReadRecord(expectChange); return; }
      r := Fail();
    }

    /** Drops a record that does not advance the state, and reads on. */
    method RetryReadRecord(expectChange: bool) returns (r: Outcome, ghost got: Bytes)
      requires Valid() && !failed && input == [] && !quic
      modifies this
      ensures Valid() && Exactly(r, expectChange, got)
      ensures Frame(MAX_USELESS - old(retryCount))
      ensures if old(retryCount) + 1 > MAX_USELESS then r == Error
        else Decided(old(Now(expectChange)), old(retryCount) + 1, old(incoming), r, incoming, got)
      decreases MAX_USELESS + 1 - retryCount, 0
    {
      hide Decided, Suffix, Pure, Tag;
      SuffixSelf(incoming);
      retryCount, got := retryCount + 1, [];
      if retryCount > MAX_USELESS { r := Fail(); return; }
      r, got := ReadRecordOrCCS(expectChange);
    }

    // -------------------------------------------------------------- messages

    /** What reading messages never touches. */
    twostate predicate Same()
      reads this
    {
      && epoch == old(epoch) && quic == old(quic) && haveVers == old(haveVers) && vers == old(vers)
      && readbuf == old(readbuf) && Suffix(deliveries, old(deliveries)) && Suffix(incoming, old(incoming))
    }

    /** The handshake bytes that have come in since: from records, or from the QUIC caller. */
    ghost function ArrivedSince(records: seq<Incoming>, calls: seq<Delivery>): seq<Tagged>
      reads this
    {
      if quic then Accepted(Gone(calls, deliveries), epoch) else Tag(Plaintexts(Gone(records, incoming)), epoch)
    }

    /** Why reading has stopped: the QUIC caller hands in nothing more, application data came
        in between, or no record is left that helps, `last` being where the last read began.
     */
    ghost predicate CutShort(last: seq<Incoming>, tries: nat, records: seq<Incoming>)
      reads this
    {
      if quic then deliveries == [] || deliveries[0].Cancelled?
      else input != [] || (Suffix(last, records) && Decided(Now(false), tries, last, Error, incoming, []))
    }

    /** Reads records until `hand` holds `n` bytes; a QUIC connection waits for its caller.
        What is added to `hand` is what has come in.  If reading stops short, `last` and
        `tries` are the records and the count of the read that failed.
     */
    method ReadHandshakeBytes(n: nat) returns (ok: bool, ghost last: seq<Incoming>, ghost tries: nat)
      requires Valid() && readbuf == []
      modifies this
      ensures Valid() && Same()
      ensures old(hand) <= hand
      ensures ok ==> |hand| >= n && hand == old(hand) + ArrivedSince(old(incoming), old(deliveries))
      ensures quic ==> retryCount == old(retryCount) && incoming == old(incoming)
      ensures |old(hand)| >= n ==> ok && hand == old(hand) && deliveries == old(deliveries) && incoming == old(incoming)
      ensures ok ==> input == old(input) && (failed && !quic ==> old(failed))
      ensures !ok ==> |hand| < n && ((!quic && (old(failed) || old(input) != [])) || CutShort(last, tries, old(incoming)))
    {
      hide Decided, Suffix, Pure, Tag, Plaintexts, Gone, Accepted;
      last, tries := incoming, retryCount;
      NothingGone(incoming, deliveries, epoch);
      assert hand + [] == hand;
      if quic {
        ok := QuicReadHandshakeBytes(n);
        return;
      }
      while |hand| < n
        invariant Valid() && Same() && deliveries == old(deliveries) && !quic
        invariant hand == old(hand) + Tag(Plaintexts(Gone(old(incoming), incoming)), epoch)
        invariant |old(hand)| >= n ==> hand == old(hand) && incoming == old(incoming)
        invariant failed ==> old(failed)
        invariant input == old(input) || |hand| < n
        invariant input == [] ==> old(input) == []
        decreases n - |hand|, if input == [] then 1 else 0
      {
        last, tries := incoming, retryCount;
        ghost var before, settings := hand, Now(false);
        var r;
        ghost var got;
        r, got := ReadRecordOrCCS(false);
        SuffixTrans(incoming, last, old(incoming));
        if r == Error {
          if settings == Now(false) && !old(failed) && input == [] { DecidedError(settings, tries, last, incoming, got, incoming); }
          return false, last, tries;
        }
        MoreArrived(settings, tries, old(incoming), last, r, incoming, got, epoch);
        Assoc(old(hand), Tag(Plaintexts(Gone(old(incoming), last)), epoch), if r == HandGrew then Tag(got, epoch) else []);
        assert before + [] == before;
      }
      return true, last, tries;
    }

    /** Waits for signals until `hand` holds `n` bytes.  Bytes for another level are refused
        on the caller's side and never get here. */
    method QuicReadHandshakeBytes(n: nat) returns (ok: bool)
      requires Valid() && quic && readbuf == []
      modifies this`hand, this`readbuf, this`deliveries, this`failed
      ensures Valid() && Same() && old(hand) <= hand
      ensures hand == old(hand) + Accepted(Gone(old(deliveries), deliveries), epoch)
      ensures ok <==> |hand| >= n
      ensures |old(hand)| >= n ==> hand == old(hand) && deliveries == old(deliveries)
      ensures !ok ==> deliveries == [] || deliveries[0].Cancelled?
    {
      hide Suffix, Pure, Tag, Gone, Accepted;
      NothingGone(incoming, deliveries, epoch);
      assert hand + [] == hand;
      while |hand| < n
        invariant Valid() && readbuf == [] && Suffix(deliveries, old(deliveries))
        invariant hand == old(hand) + Accepted(Gone(old(deliveries), deliveries), epoch)
        invariant |old(hand)| >= n ==> hand == old(hand) && deliveries == old(deliveries)
        decreases |deliveries|
      {
        if deliveries == [] || deliveries[0].Cancelled? { return false; }
        var next := deliveries[0];
        SuffixTail(deliveries, old(deliveries));
        AcceptedOneMore(old(deliveries), deliveries, epoch);
        Assoc(old(hand), Accepted(Gone(old(deliveries), deliveries), epoch),
              if next.level == epoch then Tag(next.bytes, next.level) else []);
        deliveries := deliveries[1..];
        var accepted := AcceptData(next.level, next.bytes);
        if accepted { TakeReadbuf(); } else { assert hand + [] == hand; }
      }
      return true;
    }

    /** Takes one handshake message off `hand`.  All of its bytes came in under the read key
        that is current, before the call as after it; it and what stays in `hand` are, in
        order, what was buffered and has come in since.
     */
    method ReadHandshake() returns (m: Option<seq<Tagged>>, ghost last: seq<Incoming>, ghost tries: nat)
      requires Valid() && readbuf == []
      modifies this
      ensures Valid() && Same()
      ensures m.Some? ==> |m.value| >= 4 && |m.value| == 4 + Announced(m.value) && Pure(m.value, epoch)
      ensures m.Some? ==> m.value + hand == old(hand) + ArrivedSince(old(incoming), old(deliveries))
      ensures quic ==> retryCount == old(retryCount) && incoming == old(incoming)
      ensures Complete(old(hand)) ==>
        deliveries == old(deliveries) && m.Some? && m.value + hand == old(hand)
      ensures m.None? ==>
        && !Complete(hand)
        && ((!quic && (old(failed) || old(input) != [])) || CutShort(last, tries, old(incoming)) || TooLong(hand))
    {
      hide Decided, Suffix, Pure, Tag, Plaintexts, Gone, Accepted, Announced;
      var ok;
      ok, last, tries := ReadHandshakeBytes(4);
      if !ok { return None, last, tries; }
      ghost var before, records, calls := hand, incoming, deliveries;
      var n := Announced(hand);
      var limit := if haveVers && hand[0].value == TYPE_CERTIFICATE then MAX_CERTIFICATE else MAX_HANDSHAKE;
      if n > limit { var _ := Fail(); return None, last, tries; }
      m, last, tries := TakeMessage(n);
      SuffixTrans(incoming, records, old(incoming));
      SuffixTrans(deliveries, calls, old(deliveries));
      if m.None? && Suffix(last, records) { SuffixTrans(last, records, old(incoming)); }
      FrontAnnounced(before, hand);
      if m.Some? {
        PlaintextsJoin(old(incoming), records, incoming, epoch);
        AcceptedJoin(old(deliveries), calls, deliveries, epoch);
        if quic { Assoc(old(hand), Accepted(Gone(old(deliveries), calls), epoch), Accepted(Gone(calls, deliveries), epoch)); }
        else { Assoc(old(hand), Tag(Plaintexts(Gone(old(incoming), records)), epoch), Tag(Plaintexts(Gone(records, incoming)), epoch)); }
      }
    }

    /** The second half of ReadHandshake: the header is there and announces `n` bytes. */
    method TakeMessage(n: nat) returns (m: Option<seq<Tagged>>, ghost last: seq<Incoming>, ghost tries: nat)
      requires Valid() && readbuf == [] && |hand| >= 4 && n == Announced(hand)
      modifies this
      ensures Valid() && Same()
      ensures m.Some? ==> |m.value| >= 4 && |m.value| == 4 + Announced(m.value) && Pure(m.value, epoch)
      ensures m.Some? ==> m.value + hand == old(hand) + ArrivedSince(old(incoming), old(deliveries))
      ensures quic ==> retryCount == old(retryCount) && incoming == old(incoming)
      ensures |old(hand)| >= 4 + n ==>
        deliveries == old(deliveries) && incoming == old(incoming) && m.Some? && m.value + hand == old(hand)
      ensures m.None? ==>
        && old(hand) <= hand && |hand| < 4 + n
        && ((!quic && (old(failed) || old(input) != [])) || CutShort(last, tries, old(incoming)))
    {
      hide Decided, Suffix, Pure, Tag, Plaintexts, Gone, Accepted, Announced;
      var ok;
      ok, last, tries := ReadHandshakeBytes(4 + n);
      if !ok { return None, last, tries; }
      FrontMessage(old(hand), hand, n, epoch);
      m := Some(hand[..4 + n]);
      hand := hand[4 + n..];
    }

    /** A message after the handshake, in TLS 1.3; too many in a row are an error. */
    method HandlePostHandshakeMessage() returns (m: Option<seq<Tagged>>)
      requires Valid() && readbuf == []
      modifies this
      ensures Valid() && Same()
      ensures m.Some? ==> |m.value| >= 4 && |m.value| == 4 + Announced(m.value) && Pure(m.value, epoch)
      ensures m.Some? ==> m.value + hand == old(hand) + ArrivedSince(old(incoming), old(deliveries))
      ensures quic ==> incoming == old(incoming) && (m.Some? ==> retryCount == old(retryCount) + 1 <= MAX_USELESS)
      ensures Complete(old(hand)) ==>
        && deliveries == old(deliveries)
        && (m.Some? ==> m.value + hand == old(hand))
        && (quic ==> (m.Some? <==> old(retryCount) < MAX_USELESS))
    {
      ghost var last, tries;
      m, last, tries := ReadHandshake();
      if m.None? { return; }
      retryCount := retryCount + 1;
      if retryCount > MAX_USELESS {
        var _ := Fail();
        return None;
      }
    }

    /** HandleData once the handshake goroutine has exited: the caller's thread parses every
        complete message itself, `handles` being what becomes of each.  It never waits for
        more bytes; each message came in under the current read key; nothing is lost or
        reordered; and when all went well, what stays in `hand` is no complete message.
        Nothing resets the count of messages, of which a connection thus takes at most
        sixteen in all.
     */
    method HandleDataAfterExit(level: nat, data: Bytes, handles: seq<Tagged> -> bool)
        returns (ok: bool, messages: seq<seq<Tagged>>)
      requires Valid() && quic
      modifies this
      ensures Valid() && epoch == old(epoch) && quic && deliveries == old(deliveries)
      ensures level != old(epoch) ==> !ok && messages == [] && hand == old(hand) && readbuf == old(readbuf)
      ensures level == old(epoch) ==> readbuf == []
      ensures level == old(epoch) && ok ==>
        && Flatten(messages) + hand == old(hand) + Tag(data, level) && !Complete(hand)
        && Handled(messages, handles) && retryCount == old(retryCount) + |messages|
      ensures level == old(epoch) && !ok ==> Stopped(messages, handles, old(retryCount))
      ensures AllOf(messages, epoch) && (|messages| + old(retryCount) <= MAX_USELESS || messages == [])
    {
      ok := AcceptData(level, data);
      if !ok { return false, []; }
      TakeReadbuf();
      ok, messages := ParseMessages(handles);
    }

    /** What makes the parsing of messages stop: one that is too long, one that was refused, or
        the limit on their number. */
    ghost predicate Stopped(messages: seq<seq<Tagged>>, handles: seq<Tagged> -> bool, before: nat)
      reads this
    {
      || TooLong(hand)
      || (messages != [] && !handles(messages[|messages| - 1]))
      || before + |messages| >= MAX_USELESS
    }

    /** The loop of HandleData. */
    method ParseMessages(handles: seq<Tagged> -> bool) returns (ok: bool, messages: seq<seq<Tagged>>)
      requires Valid() && quic && readbuf == []
      modifies this
      ensures Valid() && Same() && deliveries == old(deliveries)
      ensures ok ==> Flatten(messages) + hand == old(hand) && !Complete(hand) && Handled(messages, handles)
      ensures ok ==> retryCount == old(retryCount) + |messages|
      ensures !ok ==> Stopped(messages, handles, old(retryCount))
      ensures AllOf(messages, epoch) && (|messages| + old(retryCount) <= MAX_USELESS || messages == [])
    {
      hide Suffix, Pure, Tag, Gone, Accepted, Plaintexts, Handled, AllOf;
      NothingGone(incoming, deliveries, epoch);
      NoMessages(hand, handles, epoch);
      ok, messages := true, [];
      while |hand| >= 4 && ok
        invariant Valid() && Same() && deliveries == old(deliveries) && incoming == old(incoming)
        invariant ok ==> Flatten(messages) + hand == old(hand) && Handled(messages, handles)
        invariant ok ==> retryCount == old(retryCount) + |messages|
        invariant !ok ==> Stopped(messages, handles, old(retryCount))
        invariant AllOf(messages, epoch) && (|messages| + old(retryCount) <= MAX_USELESS || messages == [])
        decreases if ok then 1 else 0, |hand|
      {
        var n := Announced(hand);
        if n > MAX_HANDSHAKE { ok := false; break; }
        if |hand| < 4 + n { return; }
        ghost var before := hand;
        var m := HandlePostHandshakeMessage();
        if m.None? { ok := false; } else {
          MessageTaken(messages, m.value, hand, before, handles, epoch);
          messages := messages + [m.value];
          ok := handles(m.value);
        }
      }
    }

    // -------------------------------------------------------------- key changes

    /** A new read key is refused while handshake bytes of the old one are buffered. */
    method SetReadTrafficSecret() returns (ok: bool)
      requires Valid() && readbuf == []
      modifies this
      ensures Valid() && quic == old(quic) && hand == old(hand) && readbuf == old(readbuf)
      ensures deliveries == old(deliveries) && writeEpoch == old(writeEpoch) && writeFailed == old(writeFailed)
      ensures ok <==> old(hand) == []
      ensures epoch == if ok then old(epoch) + 1 else old(epoch)
    {
      if |hand| != 0 { return false; }
      cipherActive, epoch := true, epoch + 1;
      return true;
    }

    /** A peer's KeyUpdate, already taken off `hand`; it must be the last thing in it.  If an
        answer is requested, `written` tells whether writing it succeeds: if not, the error
        is left to the next write, and both keys stay as they are.
     */
    method HandleKeyUpdate(requested: bool, written: bool) returns (ok: bool)
      requires Valid()
      modifies this
      ensures Valid() && quic == old(quic) && hand == old(hand)
      ensures quic ==> !ok && failed && epoch == old(epoch) && writeEpoch == old(writeEpoch)
      ensures !quic && requested && !written ==>
        ok && writeFailed && epoch == old(epoch) && writeEpoch == old(writeEpoch)
      ensures !quic && (requested ==> written) ==>
        && (ok <==> old(hand) == [])
        && epoch == old(epoch) + (if ok then 1 else 0)
        && writeEpoch == old(writeEpoch) + (if requested then 1 else 0)
        && writeFailed == old(writeFailed)
    {
      if quic { var _ := Fail(); return false; }
      if requested {
        if !written { writeFailed := true; return true; }
        writeEpoch := writeEpoch + 1;
      }
      ok := SetReadTrafficSecret();
    }

    // -------------------------------------------------------------- QUIC

    /** HandleData: bytes for any level but the current one are refused. */
    method AcceptData(level: nat, data: Bytes) returns (ok: bool)
      requires Valid() && quic
      modifies this`readbuf, this`failed
      ensures Valid()
      ensures ok <==> level == epoch
      ensures readbuf == if ok then Tag(data, level) else old(readbuf)
      ensures failed == (old(failed) || !ok)
    {
      if level != epoch { failed := true; return false; }
      readbuf := Tag(data, level);
      return true;
    }

    /** The goroutine, signalled, takes the bytes over. */
    method TakeReadbuf()
      requires Valid() && quic
      modifies this`hand, this`readbuf
      ensures Valid()
      ensures hand == old(hand) + old(readbuf) && readbuf == []
    {
      hand := hand + readbuf;
      readbuf := [];
    }
  }

  /** A whole message at the front, of a length that is accepted for every type. */
  predicate Complete(hand: seq<Tagged>) {
    |hand| >= 4 && Announced(hand) <= MAX_HANDSHAKE && |hand| >= 4 + Announced(hand)
  }

  lemma FrontMessage(before: seq<Tagged>, hand: seq<Tagged>, n: nat, epoch: nat)
    requires before <= hand && |before| >= 4 && n == Announced(before) && |hand| >= 4 + n && Pure(hand, epoch)
    ensures Announced(hand[..4 + n]) == n && hand[..4 + n] + hand[4 + n..] == hand
    ensures Pure(hand[..4 + n], epoch) && Pure(hand[4 + n..], epoch)
  {
    assert hand[..4 + n][1] == before[1] && hand[..4 + n][2] == before[2] && hand[..4 + n][3] == before[3];
  }

  lemma FrontAnnounced(before: seq<Tagged>, hand: seq<Tagged>)
    ensures before <= hand && |before| >= 4 ==> |hand| >= 4 && Announced(hand) == Announced(before)
  {
  }

  function Flatten(ms: seq<seq<Tagged>>): seq<Tagged> {
    if ms == [] then [] else Flatten(ms[..|ms| - 1]) + ms[|ms| - 1]
  }

  predicate Handled(ms: seq<seq<Tagged>>, handles: seq<Tagged> -> bool) {
    forall i :: 0 <= i < |ms| ==> handles(ms[i])
  }

  /** Whole messages, each from one epoch only. */
  predicate AllOf(ms: seq<seq<Tagged>>, epoch: nat) {
    forall i :: 0 <= i < |ms| ==> Complete(ms[i]) && Pure(ms[i], epoch)
  }

  /** The message at the front is longer than any but a Certificate may be. */
  predicate TooLong(hand: seq<Tagged>) { |hand| >= 4 && Announced(hand) > MAX_HANDSHAKE }

  lemma NoMessages(hand: seq<Tagged>, handles: seq<Tagged> -> bool, epoch: nat)
    ensures Flatten([]) + hand == hand && Handled([], handles) && AllOf([], epoch)
  {
  }

  lemma MessageTaken(
    ms: seq<seq<Tagged>>, m: seq<Tagged>, hand: seq<Tagged>, before: seq<Tagged>, handles: seq<Tagged> -> bool, epoch: nat)
    requires m + hand == before && AllOf(ms, epoch) && Handled(ms, handles) && Pure(m, epoch) && Complete(m)
    ensures Flatten(ms + [m]) + hand == Flatten(ms) + before
    ensures AllOf(ms + [m], epoch) && (handles(m) ==> Handled(ms + [m], handles))
  {
    assert (ms + [m])[..|ms|] == ms;
    assert Flatten(ms) + m + hand == Flatten(ms) + (m + hand);
  }

  /** The length a handshake header announces. */
  function Announced(m: seq<Tagged>): nat
    requires |m| >= 4
  {
    Value([m[1].value, m[2].value, m[3].value])
  }
}
