/** Negotiating the key exchange group: the server's choice, when it asks for a retry,
    and why an honest client's second hello is always accepted.
 */
module Groups {
  import opened Wire
  import opened ClientHello
  import opened ClientHelloRoundTrip
  import opened KeyExchange

  const DEFAULT_PREFERENCES: seq<u16> :=
    [X25519_MLKEM768, P256_MLKEM768, P384_MLKEM1024, X25519, P256, P384, P521]

  function Filter(p: u16 -> bool, xs: seq<u16>): (r: seq<u16>)
    ensures forall x :: x in r <==> x in xs && p(x)
  {
    if xs == [] then [] else (if p(xs[0]) then [xs[0]] else []) + Filter(p, xs[1..])
  }

  /** The groups a configuration enables: a subset of the defaults, in their order. */
  function Preferences(configured: seq<u16>): seq<u16> {
    if configured == [] then DEFAULT_PREFERENCES else Filter((g: u16) => g in configured, DEFAULT_PREFERENCES)
  }

  predicate HasShare(shares: seq<KeyShare>, g: u16) {
    exists i :: 0 <= i < |shares| && shares[i].group == g
  }

  predicate IsPostQuantum(g: u16) { IsHybrid(g) }

  /** A stable sort by a yes-no key: the yes elements first, both parts in order. */
  function StableSort(p: u16 -> bool, xs: seq<u16>): (r: seq<u16>)
    ensures forall x :: x in r <==> x in xs
  {
    Filter(p, xs) + Filter((x: u16) => !p(x), xs)
  }

  /** The server's choice: common groups, sorted by share, then by post-quantum. */
  function SelectGroup(prefs: seq<u16>, curves: seq<u16>, shares: seq<KeyShare>): Option<u16> {
    var common := Filter((g: u16) => g in curves, prefs);
    if common == [] then None
    else Some(StableSort(IsPostQuantum, StableSort((g: u16) => HasShare(shares, g), common))[0])
  }

  /** The first position of a group. */
  function Index(xs: seq<u16>, g: u16): (i: nat)
    requires g in xs
    ensures i < |xs| && xs[i] == g && forall j :: 0 <= j < i ==> xs[j] != g
  {
    if xs[0] == g then 0 else 1 + Index(xs[1..], g)
  }

  lemma IndexCons(h: u16, t: seq<u16>, x: u16)
    requires x == h || x in t
    ensures x in [h] + t && Index([h] + t, x) == if x == h then 0 else 1 + Index(t, x)
  {
    assert ([h] + t)[1..] == t;
  }

  /** Filtering keeps the order of the elements it keeps. */
  lemma {:induction false} FilterKeepsOrder(p: u16 -> bool, xs: seq<u16>, x: u16, y: u16)
    requires x in xs && y in xs && p(x) && p(y)
    ensures x in Filter(p, xs) && y in Filter(p, xs)
    ensures Index(xs, x) <= Index(xs, y) <==> Index(Filter(p, xs), x) <= Index(Filter(p, xs), y)
  {
    var f, rest := Filter(p, xs), Filter(p, xs[1..]);
    assert xs == [xs[0]] + xs[1..];
    assert p(xs[0]) ==> f == [xs[0]] + rest;
    assert !p(xs[0]) ==> f == rest;
    IndexCons(xs[0], xs[1..], x);
    IndexCons(xs[0], xs[1..], y);
    if p(xs[0]) {
      IndexCons(xs[0], rest, x);
      IndexCons(xs[0], rest, y);
    }
    if x in xs[1..] && y in xs[1..] { FilterKeepsOrder(p, xs[1..], x, y); }
  }

  lemma IndexAppend(a: seq<u16>, b: seq<u16>, x: u16)
    requires x in a + b
    ensures Index(a + b, x) == if x in a then Index(a, x) else |a| + Index(b, x)
  {
    if x in a { assert (a + b)[Index(a, x)] == x; } else { assert (a + b)[|a| + Index(b, x)] == x; }
  }

  /** A stable sort orders by the key first and by the former position second. */
  lemma StableSortOrders(p: u16 -> bool, xs: seq<u16>, x: u16, y: u16)
    requires x in xs && y in xs
    ensures var r := StableSort(p, xs);
      Index(r, x) <= Index(r, y) <==>
        (if p(x) == p(y) then Index(xs, x) <= Index(xs, y) else p(x))
  {
    var n := (x: u16) => !p(x);
    IndexAppend(Filter(p, xs), Filter(n, xs), x);
    IndexAppend(Filter(p, xs), Filter(n, xs), y);
    if p(x) && p(y) { FilterKeepsOrder(p, xs, x, y); }
    if !p(x) && !p(y) { FilterKeepsOrder(n, xs, x, y); }
  }

  /** Is `x` at least as good a choice as `y`?  Post-quantum first, then an offered share,
      then the preference order. */
  predicate AtLeastAsGood(prefs: seq<u16>, shares: seq<KeyShare>, x: u16, y: u16)
    requires x in prefs && y in prefs
  {
    if IsPostQuantum(x) != IsPostQuantum(y) then IsPostQuantum(x)
    else if HasShare(shares, x) != HasShare(shares, y) then HasShare(shares, x)
    else Index(prefs, x) <= Index(prefs, y)
  }

  /** Main result: a choice exists exactly when some group is common, and it is the best one. */
  lemma SelectsBest(prefs: seq<u16>, curves: seq<u16>, shares: seq<KeyShare>)
    ensures SelectGroup(prefs, curves, shares).Some? <==> exists g :: g in prefs && g in curves
    ensures SelectGroup(prefs, curves, shares).Some? ==>
      var best := SelectGroup(prefs, curves, shares).value;
      && best in prefs && best in curves
      && forall g :: g in prefs && g in curves ==> AtLeastAsGood(prefs, shares, best, g)
  {
    var inCurves := (g: u16) => g in curves;
    var common := Filter(inCurves, prefs);
    var shared := (g: u16) => HasShare(shares, g);
    if common != [] {
      assert common[0] in common;
      var first := StableSort(shared, common);
      var second := StableSort(IsPostQuantum, first);
      assert common[0] in second;
      var best := second[0];
      assert best in second;
      forall g | g in prefs && g in curves ensures AtLeastAsGood(prefs, shares, best, g) {
        assert Index(second, best) == 0;
        StableSortOrders(IsPostQuantum, first, best, g);
        StableSortOrders(shared, common, best, g);
        FilterKeepsOrder(inCurves, prefs, best, g);
      }
    }
  }

  lemma {:induction false} FilterDistinct(p: u16 -> bool, xs: seq<u16>)
    requires forall i, j :: 0 <= i < j < |xs| ==> xs[i] != xs[j]
    ensures forall i, j :: 0 <= i < j < |Filter(p, xs)| ==> Filter(p, xs)[i] != Filter(p, xs)[j]
  {
    if xs != [] {
      FilterDistinct(p, xs[1..]);
      assert xs[0] !in xs[1..];
      assert xs[0] !in Filter(p, xs[1..]);
    }
  }

  /** The preferences are the default groups that are configured, each once, in the default
      order; with nothing configured, all of them. */
  lemma PreferencesAre(configured: seq<u16>, x: u16, y: u16)
    ensures x in Preferences(configured) <==>
      (configured == [] || x in configured)
      && x in [X25519_MLKEM768, P256_MLKEM768, P384_MLKEM1024, X25519, P256, P384, P521]
    ensures x in Preferences(configured) && y in Preferences(configured) ==>
      (Index(Preferences(configured), x) <= Index(Preferences(configured), y) <==>
       Index(DEFAULT_PREFERENCES, x) <= Index(DEFAULT_PREFERENCES, y))
    ensures forall i, j :: 0 <= i < j < |Preferences(configured)| ==> Preferences(configured)[i] != Preferences(configured)[j]
  {
    if configured != [] {
      FilterDistinct((g: u16) => g in configured, DEFAULT_PREFERENCES);
      if x in Preferences(configured) && y in Preferences(configured) {
        FilterKeepsOrder((g: u16) => g in configured, DEFAULT_PREFERENCES, x, y);
      }
    }
  }

  lemma PreferencesSupported(configured: seq<u16>)
    ensures forall g :: g in Preferences(configured) ==> Supported(g)
  {
    forall g | g in Preferences(configured) ensures Supported(g) {
      assert g in DEFAULT_PREFERENCES;
    }
  }

  // ---------------------------------------------------------------- the second hello

  /** The hello sent after a retry request for `group`: one share, for that group; no
      early data; and whatever the pre_shared_key slot has become.
   */
  function RetryHello(h: Hello, share: KeyShare, psk: Field): Hello
    requires Fits(PRE_SHARED_KEY, psk)
  {
    h.(fields := h.fields[KEY_SHARE := Shares([share])][EARLY_DATA := Unset][PRE_SHARED_KEY := psk])
  }

  /** Did a second hello change anything it must not?  The comparison of the code. */
  predicate IllegalChange(ch: Hello, ch1: Hello) {
    || ch.NumbersAt(SUPPORTED_VERSIONS) != ch1.NumbersAt(SUPPORTED_VERSIONS)
    || ch.cipherSuites != ch1.cipherSuites
    || ch.NumbersAt(SUPPORTED_CURVES) != ch1.NumbersAt(SUPPORTED_CURVES)
    || ch.NumbersAt(SIGNATURE_ALGORITHMS) != ch1.NumbersAt(SIGNATURE_ALGORITHMS)
    || ch.NumbersAt(SIGNATURE_ALGORITHMS_CERT) != ch1.NumbersAt(SIGNATURE_ALGORITHMS_CERT)
    || ProtocolsOf(ch) != ProtocolsOf(ch1)
    || ch.vers != ch1.vers || ch.random != ch1.random || ch.sessionId != ch1.sessionId
    || ch.compressionMethods != ch1.compressionMethods
    || ch.VectorAt(SERVER_NAME) != ch1.VectorAt(SERVER_NAME)
    || ch.fields[STATUS_REQUEST].Flag? != ch1.fields[STATUS_REQUEST].Flag?
    || ch.VectorAt(SUPPORTED_POINTS) != ch1.VectorAt(SUPPORTED_POINTS)
    || ch.fields[SESSION_TICKET].Vector? != ch1.fields[SESSION_TICKET].Vector?
    || ch.VectorAt(SESSION_TICKET) != ch1.VectorAt(SESSION_TICKET)
    || ch.SecureRenegotiationSupported() != ch1.SecureRenegotiationSupported()
    || ch.VectorAt(RENEGOTIATION_INFO) != ch1.VectorAt(RENEGOTIATION_INFO)
    || ch.fields[SCT].Flag? != ch1.fields[SCT].Flag?
    || ch.VectorAt(COOKIE) != ch1.VectorAt(COOKIE)
    || ch.VectorAt(PSK_MODES) != ch1.VectorAt(PSK_MODES)
  }

  function ProtocolsOf(h: Hello): seq<Bytes> {
    if h.fields[ALPN].Protocols? then h.fields[ALPN].protocols else []
  }

  /** Equal lengths and an element-by-element loop, as the code compares its lists. */
  method SameList<T(==)>(a: seq<T>, b: seq<T>) returns (same: bool)
    ensures same <==> a == b
  {
    if |a| != |b| { return false; }
    for i := 0 to |a|
      invariant a[..i] == b[..i]
    {
      if a[i] != b[i] { return false; }
    }
    return true;
  }

  method IllegalClientHelloChange(ch: Hello, ch1: Hello) returns (illegal: bool)
    ensures illegal <==> IllegalChange(ch, ch1)
  {
    var versions := SameList(ch.NumbersAt(SUPPORTED_VERSIONS), ch1.NumbersAt(SUPPORTED_VERSIONS));
    var suites := SameList(ch.cipherSuites, ch1.cipherSuites);
    var curves := SameList(ch.NumbersAt(SUPPORTED_CURVES), ch1.NumbersAt(SUPPORTED_CURVES));
    var algs := SameList(ch.NumbersAt(SIGNATURE_ALGORITHMS), ch1.NumbersAt(SIGNATURE_ALGORITHMS));
    var certAlgs := SameList(ch.NumbersAt(SIGNATURE_ALGORITHMS_CERT), ch1.NumbersAt(SIGNATURE_ALGORITHMS_CERT));
    var protocols := SameList(ProtocolsOf(ch), ProtocolsOf(ch1));
    if !versions || !suites || !curves || !algs || !certAlgs || !protocols { return true; }
    return ch.vers != ch1.vers || ch.random != ch1.random || ch.sessionId != ch1.sessionId
      || ch.compressionMethods != ch1.compressionMethods
      || ch.VectorAt(SERVER_NAME) != ch1.VectorAt(SERVER_NAME)
      || ch.fields[STATUS_REQUEST].Flag? != ch1.fields[STATUS_REQUEST].Flag?
      || ch.VectorAt(SUPPORTED_POINTS) != ch1.VectorAt(SUPPORTED_POINTS)
      || ch.fields[SESSION_TICKET].Vector? != ch1.fields[SESSION_TICKET].Vector?
      || ch.VectorAt(SESSION_TICKET) != ch1.VectorAt(SESSION_TICKET)
      || ch.SecureRenegotiationSupported() != ch1.SecureRenegotiationSupported()
      || ch.VectorAt(RENEGOTIATION_INFO) != ch1.VectorAt(RENEGOTIATION_INFO)
      || ch.fields[SCT].Flag? != ch1.fields[SCT].Flag?
      || ch.VectorAt(COOKIE) != ch1.VectorAt(COOKIE)
      || ch.VectorAt(PSK_MODES) != ch1.VectorAt(PSK_MODES);
  }

  /** A comparison of everything but the slots a retry may touch. */
  ghost predicate SameElsewhere(a: Hello, b: Hello) {
    && a.vers == b.vers && a.random == b.random && a.sessionId == b.sessionId
    && a.cipherSuites == b.cipherSuites && a.compressionMethods == b.compressionMethods
    && forall k :: 0 <= k < SLOTS && k !in {KEY_SHARE, EARLY_DATA, PRE_SHARED_KEY} ==> a.fields[k] == b.fields[k]
  }

  lemma SameElsewhereIsLegal(a: Hello, b: Hello)
    requires SameElsewhere(a, b)
    ensures !IllegalChange(a, b)
  {
  }

  /** The slots that a second hello may change: the code does not compare them. */
  const UNCOMPARED: set<int> :=
    {KEY_SHARE, EARLY_DATA, PRE_SHARED_KEY, EXTENDED_MASTER_SECRET, QUIC_TRANSPORT_PARAMETERS, ENCRYPTED_CLIENT_HELLO}

  lemma SameContent(k: Slot, f: Field, g: Field)
    requires Fits(k, f) && Fits(k, g) && k !in UNCOMPARED && k != RENEGOTIATION_INFO
    requires (if f.Numbers? then f.numbers else []) == (if g.Numbers? then g.numbers else [])
    requires (if f.Vector? then f.bytes else []) == (if g.Vector? then g.bytes else [])
    requires (if f.Protocols? then f.protocols else []) == (if g.Protocols? then g.protocols else [])
    requires f.Flag? == g.Flag? && (k == SESSION_TICKET ==> f.Vector? == g.Vector?)
    ensures f == g
  {
  }

  lemma ComparedSlot(a: Hello, b: Hello, k: Slot)
    requires !IllegalChange(a, b) && k !in UNCOMPARED && k != RENEGOTIATION_INFO
    ensures a.fields[k] == b.fields[k]
  {
    var f, g := a.fields[k], b.fields[k];
    assert Fits(k, f) && Fits(k, g);
    SameContent(k, f, g);
  }

  /** The slots agree, an empty renegotiation_info being the same as the cipher suite that
      stands for it. */
  predicate SameRenegotiation(a: Hello, b: Hello) {
    || a.fields[RENEGOTIATION_INFO] == b.fields[RENEGOTIATION_INFO]
    || (SCSV_RENEGOTIATION in a.cipherSuites
        && {a.fields[RENEGOTIATION_INFO], b.fields[RENEGOTIATION_INFO]} == {Unset, Vector([])})
  }

  lemma RenegotiationSame(a: Hello, b: Hello)
    requires a.cipherSuites == b.cipherSuites
    ensures SameRenegotiation(a, b) <==>
      && a.SecureRenegotiationSupported() == b.SecureRenegotiationSupported()
      && a.VectorAt(RENEGOTIATION_INFO) == b.VectorAt(RENEGOTIATION_INFO)
  {
    var f, g := a.fields[RENEGOTIATION_INFO], b.fields[RENEGOTIATION_INFO];
    assert Fits(RENEGOTIATION_INFO, f) && Fits(RENEGOTIATION_INFO, g);
    if {f, g} == {Unset, Vector([])} { assert f in {Unset, Vector([])} && g in {Unset, Vector([])}; }
  }

  /** The hellos agree in every slot that is compared. */
  predicate SameSlots(a: Hello, b: Hello) {
    forall k :: 0 <= k < SLOTS && k !in UNCOMPARED && k != RENEGOTIATION_INFO ==> a.fields[k] == b.fields[k]
  }

  lemma LegalKeepsSlots(a: Hello, b: Hello)
    requires !IllegalChange(a, b)
    ensures SameSlots(a, b)
  {
    hide IllegalChange;
    forall k | 0 <= k < SLOTS && k !in UNCOMPARED && k != RENEGOTIATION_INFO ensures a.fields[k] == b.fields[k] {
      ComparedSlot(a, b, k);
    }
  }

  lemma SlotsAreLegal(a: Hello, b: Hello)
    requires a.vers == b.vers && a.random == b.random && a.sessionId == b.sessionId
    requires a.cipherSuites == b.cipherSuites && a.compressionMethods == b.compressionMethods
    requires SameSlots(a, b) && SameRenegotiation(a, b)
    ensures !IllegalChange(a, b)
  {
    RenegotiationSame(a, b);
    hide SameRenegotiation;
    assert a.fields[SUPPORTED_VERSIONS] == b.fields[SUPPORTED_VERSIONS] && a.fields[SUPPORTED_CURVES] == b.fields[SUPPORTED_CURVES];
    assert a.fields[ALPN] == b.fields[ALPN] && a.fields[SESSION_TICKET] == b.fields[SESSION_TICKET];
  }

  /** Main result: a second hello is legal exactly if it equals the first outside the slots
      left open.
   */
  lemma LegalIffSame(a: Hello, b: Hello)
    ensures !IllegalChange(a, b) <==>
      && a.vers == b.vers && a.random == b.random && a.sessionId == b.sessionId
      && a.cipherSuites == b.cipherSuites && a.compressionMethods == b.compressionMethods
      && (forall k :: 0 <= k < SLOTS && k !in UNCOMPARED && k != RENEGOTIATION_INFO ==> a.fields[k] == b.fields[k])
      && SameRenegotiation(a, b)
  {
    hide SameRenegotiation;
    if !IllegalChange(a, b) {
      LegalKeepsSlots(a, b);
      RenegotiationSame(a, b);
    }
    hide IllegalChange;
    if a.vers == b.vers && a.random == b.random && a.sessionId == b.sessionId
      && a.cipherSuites == b.cipherSuites && a.compressionMethods == b.compressionMethods
      && SameSlots(a, b) && SameRenegotiation(a, b)
    {
      SlotsAreLegal(a, b);
    }
  }

  /** What the receiver of a printed hello holds. */
  lemma Received(h: Hello, wire: Bytes, r: Hello)
    requires Marshal(h, false) == Some(wire) && Unmarshal(wire) == Some(r)
    ensures r == Canonical(h, wire)
    ensures forall k :: 0 <= k < PRE_SHARED_KEY ==> r.fields[k] == h.fields[k]
    ensures h.fields[ENCRYPTED_CLIENT_HELLO] == Unset ==> r.fields[PRE_SHARED_KEY] == h.fields[PRE_SHARED_KEY]
    ensures r.KeyShares() == h.KeyShares()
  {
    RoundTrip(h);
    forall k | 0 <= k < PRE_SHARED_KEY ensures r.fields[k] == h.fields[k] { }
  }

  /** Main result: the server accepts an honest client's second hello: it carries one
      share, for the requested group, no early data, and no illegal change.
   */
  lemma SecondHelloAccepted(h: Hello, share: KeyShare, psk: Field, w1: Bytes, w2: Bytes, r1: Hello, r2: Hello)
    requires Fits(PRE_SHARED_KEY, psk)
    requires Marshal(h, false) == Some(w1) && Unmarshal(w1) == Some(r1)
    requires Marshal(RetryHello(h, share, psk), false) == Some(w2) && Unmarshal(w2) == Some(r2)
    ensures r2.KeyShares() == [share] && r2.fields[EARLY_DATA] == Unset
    ensures !IllegalChange(r2, r1)
  {
    var h2 := RetryHello(h, share, psk);
    Received(h, w1, r1);
    Received(h2, w2, r2);
    SameElsewhereIsLegal(r2, r1);
  }

  /** The client's checks on a retry request for `group`. */
  predicate RetryIsNecessary(h: Hello, group: u16) {
    group in h.NumbersAt(SUPPORTED_CURVES) && !HasShare(h.KeyShares(), group)
  }

  /** Main result: for two configurations with a common group, the server has a choice that
      the client prefers too; a retry request for it passes the client's checks exactly if
      it came without a share, and the client has a key exchange to answer it with.
   */
  lemma SettlesInOneRetry(server: seq<u16>, client: seq<u16>, h: Hello, p: Primitives, k: PrivateKeys)
      returns (choice: u16)
    requires h.NumbersAt(SUPPORTED_CURVES) == Preferences(client)
    requires exists g :: g in Preferences(server) && g in Preferences(client)
    ensures SelectGroup(Preferences(server), Preferences(client), h.KeyShares()) == Some(choice)
    ensures choice in Preferences(client)
    ensures RetryIsNecessary(h, choice) <==> !HasShare(h.KeyShares(), choice)
    ensures KeyShares(p, choice, k).Some? && KeyShares(p, choice, k).value[0].group == choice
  {
    SelectsBest(Preferences(server), Preferences(client), h.KeyShares());
    choice := SelectGroup(Preferences(server), Preferences(client), h.KeyShares()).value;
    PreferencesSupported(client);
  }
}
