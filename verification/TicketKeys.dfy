/** Automatic session ticket keys: rotation by any number of threads under a read-write
    lock, with a monotone clock that may advance between any two of its readings; and the
    tickets sealed under those keys.  Times are in nanoseconds.
 */
module TicketKeys {
  import opened Wire
  import opened Padding
  import opened Nonce

  const HOUR: int := 3_600_000_000_000
  const ROTATION: int := 24 * HOUR
  const LIFETIME: int := 7 * 24 * HOUR
  const MAX_KEYS := 7

  datatype Key = Key(created: int, aes: Octets, hmac: Octets)

  /** Where a thread stands in `ticketKeys`. */
  datatype Thread =
    | Idle
    | Reading                           // holds the read lock
    | WantWrite                         // gave it up; wants the write lock
    | Writing                           // holds the write lock; about to check again
    | Creating                          // about to make a key
    | Filtering(valid: seq<Key>, j: nat) // copies the keys that are still valid
    | Returned(list: seq<Key>, at: int) // returned `list`, judged at clock reading `at`

  datatype State = State(now: int, keys: seq<Key>, readers: set<nat>, writer: Option<nat>, threads: seq<Thread>)

  predicate Initial(s: State) {
    && s.keys == [] && s.readers == {} && s.writer == None
    && forall i :: 0 <= i < |s.threads| ==> s.threads[i] == Idle
  }

  datatype Action =
    | Tick(to: int)
    | ReadLock(i: nat) | FastPath(i: nat) | WriteLock(i: nat) | CheckAgain(i: nat)
    | Create(i: nat, aes: Octets, hmac: Octets) | FilterOne(i: nat) | Install(i: nat) | Restart(i: nat)

  predicate Fresh(s: State) { |s.keys| > 0 && s.now - s.keys[0].created < ROTATION }

  predicate Enabled(s: State, a: Action) {
    if a.Tick? then a.to >= s.now
    else
      a.i < |s.threads| &&
      var t := s.threads[a.i];
      match a
      case ReadLock(_) => t == Idle && s.writer == None
      case FastPath(_) => t == Reading
      case WriteLock(_) => t == WantWrite && s.writer == None && s.readers == {}
      case CheckAgain(_) => t == Writing
      case Create(_, _, _) => t == Creating
      case FilterOne(_) => t.Filtering? && t.j < |s.keys|
      case Install(_) => t.Filtering? && t.j >= |s.keys|
      case Restart(_) => t.Returned?
  }

  function Set(s: State, i: nat, t: Thread): State
    requires i < |s.threads|
  {
    s.(threads := s.threads[i := t])
  }

  function Next(s: State, a: Action): State
    requires Enabled(s, a)
  {
    match a
    case Tick(to) => s.(now := to)
    case ReadLock(i) => Set(s, i, Reading).(readers := s.readers + {i})
    case FastPath(i) =>
      Set(s, i, if Fresh(s) then Returned(s.keys, s.now) else WantWrite).(readers := s.readers - {i})
    case WriteLock(i) => Set(s, i, Writing).(writer := Some(i))
    case CheckAgain(i) =>
      if Fresh(s) then Set(s, i, Returned(s.keys, s.now)).(writer := None) else Set(s, i, Creating)
    case Create(i, aes, hmac) => Set(s, i, Filtering([Key(s.now, aes, hmac)], 0))
    case FilterOne(i) =>
      var Filtering(valid, j) := s.threads[i];
      Set(s, i, Filtering(if s.now - s.keys[j].created < LIFETIME then valid + [s.keys[j]] else valid, j + 1))
    case Install(i) =>
      var valid := s.threads[i].valid;
      Set(s, i, Returned(valid, if valid == [] then s.now else valid[0].created)).(keys := valid, writer := None)
    case Restart(i) => Set(s, i, Idle)
  }

  // ---------------------------------------------------------------- the invariant

  /** Keys are spaced by at least the rotation period, newest first. */
  predicate Spaced(keys: seq<Key>) {
    forall i :: 0 <= i < |keys| - 1 ==> keys[i].created >= keys[i + 1].created + ROTATION
  }

  /** When the newest key was made, all others were within their lifetime. */
  predicate Alive(keys: seq<Key>) {
    forall i :: 0 <= i < |keys| ==> keys[0].created - keys[i].created < LIFETIME
  }

  predicate KeysOk(keys: seq<Key>, now: int) {
    Spaced(keys) && Alive(keys) && (|keys| > 0 ==> keys[0].created <= now)
  }

  predicate Excludes(t: Thread) { t in {Writing, Creating} || t.Filtering? }

  predicate Locks(s: State) {
    && (forall i :: 0 <= i < |s.threads| ==> (Excludes(s.threads[i]) <==> s.writer == Some(i)))
    && (forall i :: 0 <= i < |s.threads| ==> (s.threads[i] == Reading <==> i in s.readers))
    && (s.writer.Some? ==> s.readers == {})
  }

  /** A list under construction: the new key, then the keys copied so far, a prefix of the
      list; once one is left out, its age stops all the older ones too. */
  predicate FilterOk(s: State, valid: seq<Key>, j: nat) {
    && j <= |s.keys| && 0 < |valid| <= j + 1
    && valid[1..] == s.keys[..|valid| - 1]
    && valid[0].created <= s.now
    && (|s.keys| > 0 ==> valid[0].created >= s.keys[0].created + ROTATION)
    && (|valid| <= j ==> s.now - s.keys[|valid| - 1].created >= LIFETIME)
    && Alive(valid)
  }

  predicate ThreadOk(s: State, t: Thread) {
    match t
    case Creating => !(|s.keys| > 0) || s.now - s.keys[0].created >= ROTATION
    case Filtering(valid, j) => FilterOk(s, valid, j)
    case Returned(list, at) => KeysOk(list, at) && list != [] && at - list[0].created < ROTATION
    case _ => true
  }

  predicate Inv(s: State) {
    && KeysOk(s.keys, s.now) && Locks(s)
    && forall i :: 0 <= i < |s.threads| ==> ThreadOk(s, s.threads[i])
  }

  lemma {:induction false} SpacedFar(keys: seq<Key>, i: nat, j: nat)
    requires Spaced(keys) && i <= j < |keys|
    ensures keys[i].created >= keys[j].created + (j - i) * ROTATION
  {
    if i < j { SpacedFar(keys, i, j - 1); }
  }

  /** Never more than seven keys. */
  lemma AtMostSeven(keys: seq<Key>)
    requires Spaced(keys) && Alive(keys)
    ensures |keys| <= MAX_KEYS
  {
    if |keys| > MAX_KEYS { SpacedFar(keys, 0, MAX_KEYS); }
  }

  lemma FilterStep(s: State, valid: seq<Key>, j: nat)
    requires KeysOk(s.keys, s.now) && FilterOk(s, valid, j) && j < |s.keys|
    ensures FilterOk(s, if s.now - s.keys[j].created < LIFETIME then valid + [s.keys[j]] else valid, j + 1)
  {
    var k := |valid| - 1;
    if s.now - s.keys[j].created < LIFETIME {
      if k < j {
        SpacedFar(s.keys, k, j);
        assert false;
      }
      var more := valid + [s.keys[j]];
      assert more[1..] == valid[1..] + [s.keys[j]] == s.keys[..j + 1];
      forall i | 0 <= i < |more| ensures more[0].created - more[i].created < LIFETIME { }
    } else if k == j {
      assert |valid| - 1 == j;
    }
  }

  /** The finished list keeps the spacing. */
  lemma InstallOk(s: State, valid: seq<Key>)
    requires KeysOk(s.keys, s.now) && FilterOk(s, valid, |s.keys|)
    ensures KeysOk(valid, s.now) && KeysOk(valid, valid[0].created)
  {
    forall i | 0 <= i < |valid| - 1 ensures valid[i].created >= valid[i + 1].created + ROTATION {
      assert valid[i + 1] == valid[1..][i] == s.keys[i];
      if i > 0 { assert valid[i] == valid[1..][i - 1] == s.keys[i - 1]; }
    }
  }

  /** A later clock changes nothing that was true. */
  lemma TickKeeps(s: State, to: int)
    requires Inv(s) && to >= s.now
    ensures Inv(s.(now := to))
  {
    var s' := s.(now := to);
    forall i | 0 <= i < |s.threads| ensures ThreadOk(s', s'.threads[i]) {
      assert ThreadOk(s, s.threads[i]);
    }
  }

  lemma OthersKeep(s: State, s': State, i: nat)
    requires Inv(s) && i < |s.threads| == |s'.threads| && s'.now == s.now
    requires forall k :: 0 <= k < |s.threads| && k != i ==> s'.threads[k] == s.threads[k]
    requires s'.keys == s.keys || Excludes(s.threads[i])
    requires ThreadOk(s', s'.threads[i])
    ensures forall k :: 0 <= k < |s.threads| ==> ThreadOk(s', s'.threads[k])
  {
    forall k | 0 <= k < |s.threads| && k != i ensures ThreadOk(s', s'.threads[k]) {
      assert ThreadOk(s, s.threads[k]);
      if s'.keys != s.keys { assert s.writer == Some(i) && !Excludes(s.threads[k]); }
    }
  }

  lemma LocksKeep(s: State, a: Action)
    requires Inv(s) && Enabled(s, a)
    ensures Locks(Next(s, a))
  {
    hide ThreadOk, KeysOk, Fresh;
    if !a.Tick? {
      var s', i := Next(s, a), a.i;
      assert forall k :: 0 <= k < |s.threads| && k != i ==> s'.threads[k] == s.threads[k];
    }
  }

  lemma Keeps(s: State, a: Action)
    requires Inv(s) && Enabled(s, a)
    ensures Inv(Next(s, a))
  {
    LocksKeep(s, a);
    if a.Tick? { TickKeeps(s, a.to); } else {
      hide Locks, Spaced, Alive, FilterOk;
      var s', i := Next(s, a), a.i;
      assert ThreadOk(s, s.threads[i]);
      match a {
        case FilterOne(_) => FilterStep(s, s.threads[i].valid, s.threads[i].j);
        case Install(_) => Finished(s, s.threads[i].valid, s.threads[i].j);
        case Create(_, aes, hmac) => Begins(s, Key(s.now, aes, hmac));
        case _ =>
      }
      OthersKeep(s, s', i);
    }
  }

  lemma Finished(s: State, valid: seq<Key>, j: nat)
    requires KeysOk(s.keys, s.now) && FilterOk(s, valid, j) && j >= |s.keys|
    ensures valid != [] && KeysOk(valid, s.now) && KeysOk(valid, valid[0].created)
  {
    InstallOk(s, valid);
  }

  lemma Begins(s: State, k: Key)
    requires k.created == s.now && (|s.keys| > 0 ==> s.now - s.keys[0].created >= ROTATION)
    ensures FilterOk(s, [k], 0)
  {
  }

  // ---------------------------------------------------------------- main results

  predicate Step(s: State, a: Action, s': State) { Enabled(s, a) && s' == Next(s, a) }

  predicate Linked(states: seq<State>, actions: seq<Action>) {
    && |states| == |actions| + 1
    && forall i :: 0 <= i < |actions| ==> Step(states[i], actions[i], states[i + 1])
  }

  predicate IsRun(states: seq<State>, actions: seq<Action>) { Linked(states, actions) && Initial(states[0]) }

  lemma {:induction false} RunKeeps(states: seq<State>, actions: seq<Action>, n: nat)
    requires IsRun(states, actions) && n < |states|
    ensures Inv(states[n])
  {
    hide Inv, Enabled;
    if n == 0 { Starts(states[0]); } else {
      RunKeeps(states, actions, n - 1);
      assert Step(states[n - 1], actions[n - 1], states[n]);
      Keeps(states[n - 1], actions[n - 1]);
    }
  }

  lemma Starts(s: State)
    requires Initial(s)
    ensures Inv(s)
  {
  }

  /** Main result, rotation: in every interleaving, adjacent keys were made at least a
      day apart and there are at most seven of them; and of every list a call returns, the
      newest key is under a day old, and every key under eight days old, at the clock
      reading by which the call decided.
   */
  lemma RotationBounds(states: seq<State>, actions: seq<Action>, n: nat)
    requires IsRun(states, actions) && n < |states|
    ensures Spaced(states[n].keys) && |states[n].keys| <= MAX_KEYS
    ensures forall i, k ::
      0 <= i < |states[n].threads| && states[n].threads[i].Returned? && 0 <= k < |states[n].threads[i].list| ==>
      states[n].threads[i].at - states[n].threads[i].list[k].created < 8 * 24 * HOUR
    ensures forall i :: 0 <= i < |states[n].threads| && states[n].threads[i].Returned? ==>
      && 0 < |states[n].threads[i].list| <= MAX_KEYS
      && states[n].threads[i].at - states[n].threads[i].list[0].created < ROTATION
  {
    RunKeeps(states, actions, n);
    AtMostSeven(states[n].keys);
    forall i | 0 <= i < |states[n].threads| && states[n].threads[i].Returned?
      ensures 0 < |states[n].threads[i].list| <= MAX_KEYS
    {
      assert ThreadOk(states[n], states[n].threads[i]);
      AtMostSeven(states[n].threads[i].list);
    }
  }

  /** Main result, ages at the moment of return: a list that was found in place has no key
      of eight days; one that was rebuilt may have waited since its newest key was made, and
      its keys are under seven days old plus that wait.  So a wait of a day or less keeps
      every key under eight days.
   */
  lemma AgesAtReturn(states: seq<State>, actions: seq<Action>, n: nat, i: nat)
    requires IsRun(states, actions) && n < |actions| && i < |states[n].threads|
    requires !states[n].threads[i].Returned? && states[n + 1].threads[i].Returned?
    ensures var now, Returned(list, at) := states[n + 1].now, states[n + 1].threads[i];
      && at <= now && (!actions[n].Install? ==> at == now)
      && (forall k :: 0 <= k < |list| ==>
            now - list[k].created < if at == now then 8 * 24 * HOUR else LIFETIME + (now - at))
      && (now - at <= ROTATION ==> forall k :: 0 <= k < |list| ==> now - list[k].created < 8 * 24 * HOUR)
  {
    RunKeeps(states, actions, n);
    assert Step(states[n], actions[n], states[n + 1]);
    assert ThreadOk(states[n], states[n].threads[i]);
    if actions[n].Install? { Finished(states[n], states[n].threads[i].valid, states[n].threads[i].j); }
    hide Locks, Spaced;
  }

  lemma Joined(states: seq<State>, actions: seq<Action>, more: seq<State>, acts: seq<Action>)
    requires Linked(states, actions) && Linked(more, acts) && more[0] == states[|actions|]
    ensures Linked(states + more[1..], actions + acts)
  {
    hide Step;
    var all, both := states + more[1..], actions + acts;
    forall i | 0 <= i < |both| ensures Step(all[i], both[i], all[i + 1]) {
      if i >= |actions| { assert Step(more[i - |actions|], acts[i - |actions|], more[i - |actions| + 1]); }
    }
  }

  const PATH: seq<Action> := [ReadLock(0), FastPath(0), WriteLock(0), CheckAgain(0), Create(0, [], [])]

  /** One thread by itself, up to the making of a key. */
  lemma MakesKey(s: State) returns (states: seq<State>)
    requires s.threads == [Idle] && s.readers == {} && s.writer == None && !Fresh(s)
    ensures Linked(states, PATH) && |states| == 6 && states[0] == s
    ensures states[5] == State(s.now, s.keys, {}, Some(0), [Filtering([Key(s.now, [], [])], 0)])
  {
    var s1 := State(s.now, s.keys, {0}, None, [Reading]);
    var s2 := State(s.now, s.keys, {}, None, [WantWrite]);
    var s3 := State(s.now, s.keys, {}, Some(0), [Writing]);
    var s4 := State(s.now, s.keys, {}, Some(0), [Creating]);
    var s5 := State(s.now, s.keys, {}, Some(0), [Filtering([Key(s.now, [], [])], 0)]);
    assert Step(s, ReadLock(0), s1) && Step(s1, FastPath(0), s2) && Step(s2, WriteLock(0), s3);
    assert Step(s3, CheckAgain(0), s4) && Step(s4, Create(0, [], []), s5);
    hide Step;
    states := [s, s1, s2, s3, s4, s5];
  }

  const FIRST_KEY: Key := Key(0, [], [])
  const LAST_MOMENT: int := LIFETIME - 1

  /** The first key is made and listed, and just under seven days pass. */
  lemma FirstKeyAges() returns (states: seq<State>, actions: seq<Action>)
    ensures IsRun(states, actions)
    ensures states[|actions|] == State(LAST_MOMENT, [FIRST_KEY], {}, None, [Idle])
  {
    var s0 := State(0, [], {}, None, [Idle]);
    var path := MakesKey(s0);
    var s6 := State(0, [FIRST_KEY], {}, None, [Returned([FIRST_KEY], 0)]);
    var s7 := State(0, [FIRST_KEY], {}, None, [Idle]);
    var s8 := State(LAST_MOMENT, [FIRST_KEY], {}, None, [Idle]);
    assert Step(path[5], Install(0), s6) && Step(s6, Restart(0), s7) && Step(s7, Tick(LAST_MOMENT), s8);
    hide Step;
    assert Linked([path[5], s6, s7, s8], [Install(0), Restart(0), Tick(LAST_MOMENT)]);
    Joined(path, PATH, [path[5], s6, s7, s8], [Install(0), Restart(0), Tick(LAST_MOMENT)]);
    states, actions := path + [path[5], s6, s7, s8][1..], PATH + [Install(0), Restart(0), Tick(LAST_MOMENT)];
  }

  /** Any longer wait can break the bound: a key that was young enough to be copied is eight
      days old or more when the call returns it.
   */
  lemma LateReturn(wait: int) returns (states: seq<State>, actions: seq<Action>)
    requires wait > ROTATION
    ensures IsRun(states, actions)
    ensures var s := states[|actions|];
      && s.threads == [Returned([Key(LAST_MOMENT, [], []), FIRST_KEY], LAST_MOMENT)]
      && s.now - LAST_MOMENT == wait && s.now - FIRST_KEY.created >= 8 * 24 * HOUR
      && |actions| > 0 && actions[|actions| - 1] == Install(0)
  {
    states, actions := FirstKeyAges();
    var path := MakesKey(states[|actions|]);
    var newest, end := Key(LAST_MOMENT, [], []), LAST_MOMENT + wait;
    var s6 := State(LAST_MOMENT, [FIRST_KEY], {}, Some(0), [Filtering([newest, FIRST_KEY], 1)]);
    var s7 := State(end, [FIRST_KEY], {}, Some(0), [Filtering([newest, FIRST_KEY], 1)]);
    var s8 := State(end, [newest, FIRST_KEY], {}, None, [Returned([newest, FIRST_KEY], LAST_MOMENT)]);
    assert [newest] + [FIRST_KEY] == [newest, FIRST_KEY];
    assert Step(path[5], FilterOne(0), s6) && Step(s6, Tick(end), s7) && Step(s7, Install(0), s8);
    hide Step;
    assert Linked([path[5], s6, s7, s8], [FilterOne(0), Tick(end), Install(0)]);
    Joined(path, PATH, [path[5], s6, s7, s8], [FilterOne(0), Tick(end), Install(0)]);
    var more, acts := path + [path[5], s6, s7, s8][1..], PATH + [FilterOne(0), Tick(end), Install(0)];
    Joined(states, actions, more, acts);
    states, actions := states + more[1..], actions + acts;
  }

  /** The finished list holds every key that is still within its lifetime. */
  lemma YoungKept(s: State, valid: seq<Key>, j: nat, k: Key)
    requires KeysOk(s.keys, s.now) && FilterOk(s, valid, j) && j >= |s.keys|
    requires k in s.keys && s.now - k.created < LIFETIME
    ensures k in valid
  {
    var x :| 0 <= x < |s.keys| && s.keys[x] == k;
    if x < |valid| - 1 { assert valid[x + 1] == valid[1..][x]; } else { SpacedFar(s.keys, |valid| - 1, x); }
  }

  /** A step drops only keys that have reached their lifetime. */
  lemma DropsOnlyOld(s: State, a: Action, k: Key)
    requires Inv(s) && Enabled(s, a) && k in s.keys && k !in Next(s, a).keys
    ensures s.now - k.created >= LIFETIME
  {
    hide Locks, Alive, Spaced, FilterOk;
    var i := a.i;
    assert ThreadOk(s, s.threads[i]);
    if s.now - k.created < LIFETIME { YoungKept(s, s.threads[i].valid, s.threads[i].j, k); }
  }

  lemma {:induction false} ClockGrows(states: seq<State>, actions: seq<Action>, m: nat, n: nat)
    requires IsRun(states, actions) && m <= n < |states|
    ensures states[m].now <= states[n].now
  {
    if m < n {
      ClockGrows(states, actions, m, n - 1);
      assert Step(states[n - 1], actions[n - 1], states[n]);
    }
  }

  /** Main result, retention: a key stays in the list at least as long as it is under seven
      days old.
   */
  lemma {:induction false} KeyKept(states: seq<State>, actions: seq<Action>, m: nat, n: nat, k: Key)
    requires IsRun(states, actions) && m <= n < |states| && k in states[m].keys
    requires states[n].now - k.created < LIFETIME
    ensures k in states[n].keys
  {
    if m < n {
      ClockGrows(states, actions, n - 1, n);
      KeyKept(states, actions, m, n - 1, k);
      RunKeeps(states, actions, n - 1);
      assert Step(states[n - 1], actions[n - 1], states[n]);
      if k !in states[n].keys { DropsOnlyOld(states[n - 1], actions[n - 1], k); }
    }
  }

  /** A call returns the list as it is at that moment. */
  lemma ReturnsCurrent(s: State, a: Action, i: nat)
    requires Enabled(s, a) && i < |s.threads| && !s.threads[i].Returned? && Next(s, a).threads[i].Returned?
    ensures Next(s, a).threads[i].list == Next(s, a).keys
  {
  }

  // ---------------------------------------------------------------- tickets

  const BLOCK := 16
  const TAG := 32

  datatype Sealing = Sealing(keystream: (Octets, Octets, nat) -> bv8, mac: (Octets, Octets) -> Octets)

  function Ctr(p: Sealing, key: Octets, iv: Octets, data: Octets): (r: Octets)
    ensures |r| == |data|
  {
    seq(|data|, i requires 0 <= i < |data| => data[i] ^ p.keystream(key, iv, i))
  }

  /** encryptTicket: IV, counter-mode ciphertext, tag; under the first key. */
  function Seal(p: Sealing, keys: seq<Key>, iv: Octets, state: Octets): Option<Octets> {
    if keys == [] then None
    else
      var authenticated := iv + Ctr(p, keys[0].aes, iv, state);
      Some(authenticated + p.mac(keys[0].hmac, authenticated))
  }

  /** decryptTicket: the first key whose tag matches decrypts. */
  function Open(p: Sealing, keys: seq<Key>, ticket: Octets): Option<Octets> {
    if |ticket| < BLOCK + TAG then None
    else
      var n := |ticket| - TAG;
      if keys == [] then None
      else if p.mac(keys[0].hmac, ticket[..n]) == ticket[n..]
      then Some(Ctr(p, keys[0].aes, ticket[..BLOCK], ticket[BLOCK..n]))
      else Open(p, keys[1..], ticket)
  }

  method DecryptTicket(p: Sealing, keys: seq<Key>, ticket: Octets) returns (r: Option<Octets>)
    ensures r == Open(p, keys, ticket)
  {
    if |ticket| < BLOCK + TAG { return None; }
    var n := |ticket| - TAG;
    for k := 0 to |keys|
      invariant Open(p, keys, ticket) == Open(p, keys[k..], ticket)
    {
      assert keys[k..][1..] == keys[k + 1..];
      if p.mac(keys[k].hmac, ticket[..n]) == ticket[n..] {
        return Some(Ctr(p, keys[k].aes, ticket[..BLOCK], ticket[BLOCK..n]));
      }
    }
    return None;
  }

  lemma CtrBack(p: Sealing, key: Octets, iv: Octets, data: Octets)
    ensures Ctr(p, key, iv, Ctr(p, key, iv, data)) == data
  {
    forall i | 0 <= i < |data| ensures Ctr(p, key, iv, Ctr(p, key, iv, data))[i] == data[i] {
      XorCancels(data[i], p.keystream(key, iv, i), 0);
    }
  }

  lemma XorParts(a: bv8, b: bv8, k: bv8)
    ensures (a ^ k) ^ (b ^ k) == a ^ b && 0 ^ k == k
  {
  }

  /** Counter mode: zeros encrypt to the keystream of the key and the IV, and of two texts of
      one length the ciphertexts differ by what the texts do. */
  lemma CtrIsKeystream(p: Sealing, key: Octets, iv: Octets, a: Octets, b: Octets)
    requires |a| == |b|
    ensures Ctr(p, key, iv, seq(|a|, _ => 0)) == seq(|a|, i requires 0 <= i < |a| => p.keystream(key, iv, i))
    ensures forall i :: 0 <= i < |a| ==> Ctr(p, key, iv, a)[i] ^ Ctr(p, key, iv, b)[i] == a[i] ^ b[i]
  {
    forall i | 0 <= i < |a|
      ensures Ctr(p, key, iv, seq(|a|, _ => 0))[i] == p.keystream(key, iv, i)
      ensures Ctr(p, key, iv, a)[i] ^ Ctr(p, key, iv, b)[i] == a[i] ^ b[i]
    {
      XorParts(a[i], b[i], p.keystream(key, iv, i));
    }
  }

  /** Nothing opens but what carries the tag of a listed key; that key decrypts it. */
  lemma {:induction false} OpensOnlyTagged(p: Sealing, keys: seq<Key>, ticket: Octets)
    requires Open(p, keys, ticket).Some?
    ensures |ticket| >= BLOCK + TAG
    ensures var n := |ticket| - TAG;
      exists k :: k in keys && p.mac(k.hmac, ticket[..n]) == ticket[n..]
        && Open(p, keys, ticket) == Some(Ctr(p, k.aes, ticket[..BLOCK], ticket[BLOCK..n]))
  {
    var n := |ticket| - TAG;
    if p.mac(keys[0].hmac, ticket[..n]) == ticket[n..] {
      assert keys[0] in keys;
    } else {
      OpensOnlyTagged(p, keys[1..], ticket);
      var k :| k in keys[1..] && p.mac(k.hmac, ticket[..n]) == ticket[n..]
        && Open(p, keys[1..], ticket) == Some(Ctr(p, k.aes, ticket[..BLOCK], ticket[BLOCK..n]));
      assert k in keys;
    }
  }

  /** Different keys give different tags. */
  predicate TagsDiffer(p: Sealing, key: Key, keys: seq<Key>, data: Octets) {
    forall i :: 0 <= i < |keys| && keys[i] != key ==> p.mac(keys[i].hmac, data) != p.mac(key.hmac, data)
  }

  lemma {:induction false} OpensUnder(p: Sealing, key: Key, keys: seq<Key>, iv: Octets, state: Octets)
    requires |iv| == BLOCK && key in keys
    requires var data := iv + Ctr(p, key.aes, iv, state);
      |p.mac(key.hmac, data)| == TAG && TagsDiffer(p, key, keys, data)
    ensures Open(p, keys, Seal(p, [key], iv, state).value) == Some(state)
  {
    var data := iv + Ctr(p, key.aes, iv, state);
    var ticket := data + p.mac(key.hmac, data);
    assert ticket[..|data|] == data && ticket[|data|..] == p.mac(key.hmac, data);
    assert ticket[..BLOCK] == iv && ticket[BLOCK..|data|] == Ctr(p, key.aes, iv, state);
    CtrBack(p, key.aes, iv, state);
    if keys[0] != key { OpensUnder(p, key, keys[1..], iv, state); }
  }

  /** Main result, tickets: a ticket sealed under a list current at state `m` opens to the
      same bytes under any list current at a later state `n` while the sealing key is
      under seven days old.
   */
  lemma TicketsOpen(states: seq<State>, actions: seq<Action>, m: nat, n: nat, p: Sealing, iv: Octets, state: Octets)
    requires IsRun(states, actions) && m <= n < |states| && states[m].keys != []
    requires states[n].now - states[m].keys[0].created < LIFETIME && |iv| == BLOCK
    requires var data := iv + Ctr(p, states[m].keys[0].aes, iv, state);
      |p.mac(states[m].keys[0].hmac, data)| == TAG && TagsDiffer(p, states[m].keys[0], states[n].keys, data)
    ensures Seal(p, states[m].keys, iv, state).Some?
    ensures Open(p, states[n].keys, Seal(p, states[m].keys, iv, state).value) == Some(state)
  {
    var key := states[m].keys[0];
    assert key in states[m].keys;
    KeyKept(states, actions, m, n, key);
    OpensUnder(p, key, states[n].keys, iv, state);
  }
}
