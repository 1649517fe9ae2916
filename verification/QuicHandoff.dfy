/** The handoff between a QUICConn's caller and its handshake goroutine: two unbuffered
    channels, `signalc` and `blockedc`, and the handshake mutex.  A step is one action of
    one side, or a rendezvous of both on a channel.
 */
module QuicHandoff {
  import opened Wire

  const MAX_HANDSHAKE := 65536

  /** The goroutine: where it stands. */
  datatype Routine =
    | Unborn
    | WantLock        // handshakeContext, before it takes the mutex
    | Working         // runs the handshake, holding the mutex
    | SendBlocked     // quicWaitForSignal: sends on blockedc, mutex released
    | SendSignal      // quicWaitForSignal: sends on signalc
    | Woken           // has been signalled; about to look at the context and at readbuf
    | Relock          // about to take the mutex back
    | Abort           // the same, with the error of a cancelled wait, which ends the handshake
    | KeyInstalled    // the last read key is in place; reads no more
    | Closing         // has its result; about to close blockedc
    | HalfClosed      // blockedc closed; about to close signalc
    | Closed          // both closed; about to release the mutex
    | Exited
    | Leaked          // returned without closing the channels

  /** What a caller's signal is for; `draining` tells whether Close interrupts a client that
      waits for its resumption event to be drained. */
  datatype Purpose = ForData | ForDrain | ForParams | ForClose(draining: bool)

  /** The caller: outside every method, or where it stands in one. */
  datatype Caller =
    | Before                    // Start not called
    | Outside
    | Starting                  // Start: receives from blockedc
    | Signalling(why: Purpose)  // receives from signalc
    | Awaiting(why: Purpose)    // receives from blockedc
    | Locking                   // HandleData after the goroutine's end: takes the mutex
    | Pumping                   // parses post-handshake messages, holding the mutex
    | Asking                    // ConnectionState: takes the mutex
    | Panicked                  // sent on a closed channel

  datatype Holder = Nobody | TheRoutine | TheCaller

  /** `accepted` and `consumed` are logs: the bytes HandleData took and those parsed.
      `lenient` tells of the latest wait of the goroutine whether its error is dropped: the
      client drops that of the wait for its resumption event, all other errors end the
      handshake. */
  datatype State = State(
    g: Routine, c: Caller, mutex: Holder, blockedClosed: bool, signalClosed: bool,
    cancelled: bool, failed: bool, lenient: bool,
    readbuf: Bytes, hand: Bytes, accepted: Bytes, consumed: Bytes)

  const INITIAL: State := State(Unborn, Before, Nobody, false, false, false, false, false, [], [], [], [])

  datatype Action =
    | CallStart | CallHandleData(data: Bytes) | CallNextEvent | CallSetParams | CallClose | CallState
    | Cancel
    | MeetSignal | MeetBlocked              // rendezvous
    | SignalIsClosed | BlockedIsClosed      // receiving from a closed channel
    | CallerLocks | PumpOne(ok: bool) | PumpEnds
    | TakeLock | Parse(n: nat) | Wait(lenient: bool) | Wake | InstallKey | Finish(ok: bool)
    | CloseBlocked | CloseSignal | Release

  /** Announced length of the message at the front of `hand`. */
  function MessageLength(hand: Bytes): nat
    requires |hand| >= 4
  {
    Value(hand[1..4])
  }

  /** HandleData's loop: another message is complete. */
  predicate MessageReady(s: State) {
    && |s.hand| >= 4 && !s.failed && MessageLength(s.hand) <= MAX_HANDSHAKE
    && |s.hand| >= 4 + MessageLength(s.hand)
  }

  predicate Enabled(s: State, a: Action) {
    match a
    case CallStart => s.c == Before
    case CallHandleData(_) => s.c == Outside
    case CallNextEvent => s.c == Outside
    case CallSetParams => s.c == Outside
    case CallClose => s.c == Outside
    case CallState => s.c == Outside
    case Cancel => !s.cancelled
    case MeetSignal => s.g == SendSignal && s.c.Signalling?
    case MeetBlocked => s.g == SendBlocked && (s.c.Awaiting? || s.c == Starting)
    case SignalIsClosed => s.signalClosed && s.c.Signalling?
    case BlockedIsClosed => s.blockedClosed && (s.c.Awaiting? || s.c == Starting)
    case CallerLocks => s.mutex == Nobody && s.c in {Locking, Asking}
    case PumpOne(_) => s.c == Pumping && |s.hand| >= 4 && !s.failed
    case PumpEnds => s.c == Pumping && !MessageReady(s)
    case TakeLock => s.mutex == Nobody && s.g in {WantLock, Relock, Abort}
    case Parse(n) => s.g == Working && n <= |s.hand|
    case Wait(_) => s.g == Working
    case Wake => s.g == Woken
    case InstallKey => s.g == Working && s.hand == []
    case Finish(ok) => if ok then s.g == KeyInstalled else s.g in {Working, KeyInstalled}
    case CloseBlocked => s.g == Closing
    case CloseSignal => s.g == HalfClosed
    case Release => s.g == Closed
  }

  function Next(s: State, a: Action): State
    requires Enabled(s, a)
  {
    match a
    case CallStart => s.(c := Starting, g := WantLock)
    case CallHandleData(data) => s.(c := Signalling(ForData), readbuf := data, accepted := s.accepted + data)
    case CallNextEvent => s.(c := Signalling(ForDrain))
    case CallSetParams => s.(c := Signalling(ForParams))
    case CallClose => s.(c := Signalling(ForClose(s.g == SendSignal && s.lenient)), cancelled := true)
    case CallState => s.(c := Asking)
    case Cancel => s.(cancelled := true)
    case MeetSignal => s.(c := Awaiting(s.c.why), g := Woken)
    case MeetBlocked => s.(c := if s.c.Awaiting? && s.c.why.ForClose? then s.c else Outside, g := SendSignal)
    case SignalIsClosed => s.(c := Awaiting(s.c.why))
    case BlockedIsClosed => s.(c := if s.c == Awaiting(ForData) then Locking else Outside)
    case CallerLocks =>
      if s.c == Asking then s.(c := Outside)
      else s.(c := Pumping, mutex := TheCaller, hand := s.hand + s.readbuf, readbuf := [])
    case PumpOne(ok) =>
      var n := MessageLength(s.hand);
      if n > MAX_HANDSHAKE then s.(failed := true)
      else if |s.hand| < 4 + n then s.(c := Outside, mutex := Nobody)
      else HandleMessage(s, ok)
    case PumpEnds => s.(c := Outside, mutex := Nobody)
    case TakeLock =>
      if s.g == Abort then s.(g := Closing, mutex := TheRoutine, failed := true) else s.(g := Working, mutex := TheRoutine)
    case Parse(n) => s.(hand := s.hand[n..], consumed := s.consumed + s.hand[..n])
    case Wait(lenient) => s.(g := SendBlocked, mutex := Nobody, lenient := lenient)
    case Wake =>
      if s.cancelled then s.(g := if s.lenient then Relock else Abort)
      else s.(g := Relock, hand := s.hand + s.readbuf, readbuf := [])
    case InstallKey => s.(g := KeyInstalled)
    case Finish(ok) =>
      if !ok then s.(g := Closing, failed := true)
      else if s.hand != [] then s.(g := Leaked, mutex := Nobody)
      else s.(g := Closing)
    case CloseBlocked => s.(g := HalfClosed, blockedClosed := true)
    case CloseSignal => s.(g := Closed, signalClosed := true)
    case Release => s.(g := Exited, mutex := Nobody)
  }

  /** readHandshake on the caller's side: too few bytes would wait for the goroutine, that
      is send on a closed channel. */
  function HandleMessage(s: State, ok: bool): State {
    if |s.hand| < 4 || |s.hand| < 4 + MessageLength(s.hand) then s.(c := Panicked)
    else
      var k := 4 + MessageLength(s.hand);
      s.(hand := s.hand[k..], consumed := s.consumed + s.hand[..k], failed := s.failed || !ok)
  }

  // ---------------------------------------------------------------- the invariant

  predicate RoutineHolds(g: Routine) { g in {Working, KeyInstalled, Closing, HalfClosed, Closed} }

  /** The goroutine has closed blockedc, or will do nothing else. */
  predicate PastClosing(g: Routine) { g in {HalfClosed, Closed, Exited} }

  /** Parked on signalc, or past the closing of blockedc. */
  predicate AtRest(g: Routine) { g == SendSignal || PastClosing(g) }

  predicate Inv(s: State) {
    && s.g != Leaked && s.c != Panicked
    && (s.g == Unborn <==> s.c == Before)
    && (s.blockedClosed <==> PastClosing(s.g)) && (s.signalClosed <==> s.g in {Closed, Exited})
    && (s.mutex == TheRoutine <==> RoutineHolds(s.g))
    && (s.mutex == TheCaller <==> s.c == Pumping)
    && (s.c in {Outside, Asking} || s.c.Signalling? ==> AtRest(s.g))
    && (s.c in {Locking, Pumping} ==> PastClosing(s.g))
    && (s.c == Pumping ==> s.g == Exited)
    && (s.c == Starting ==> s.g != SendSignal && s.g != Unborn)
    && (s.c.Awaiting? && !s.c.why.ForClose? ==> s.g != SendSignal)
    && (s.c == Signalling(ForClose(false)) && s.g == SendSignal ==> !s.lenient && s.cancelled)
    && (s.c == Awaiting(ForClose(false)) ==> Ending(s))
    && (s.g == KeyInstalled ==> s.hand == [])
    && (!s.cancelled ==> Conserved(s))
  }

  /** A cancelled goroutine on its way out. */
  predicate Ending(s: State) {
    (s.g == Woken && !s.lenient && s.cancelled) || s.g in {Abort, Closing} || PastClosing(s.g)
  }

  /** No byte is lost, repeated or reordered; and none is left in readbuf but while a
      HandleData call is delivering it. */
  predicate Conserved(s: State) {
    && s.accepted == s.consumed + s.hand + s.readbuf
    && (s.c in {Before, Outside, Asking, Starting, Pumping} ==> s.readbuf == [])
    && (s.readbuf != [] ==> Delivering(s))
  }

  predicate Delivering(s: State) {
    || s.c == Signalling(ForData)
    || (s.c == Awaiting(ForData) && (s.g == Woken || s.signalClosed))
    || s.c == Locking
  }

  predicate ByCaller(a: Action) {
    || a in {CallStart, CallNextEvent, CallSetParams, CallClose, CallState, Cancel, CallerLocks, PumpEnds}
    || a.CallHandleData? || a.PumpOne?
  }

  lemma Keeps(s: State, a: Action)
    requires Inv(s) && Enabled(s, a)
    ensures Inv(Next(s, a))
  {
    if ByCaller(a) { CallerKeeps(s, a); } else { RoutineKeeps(s, a); }
  }

  lemma CallerKeeps(s: State, a: Action)
    requires Inv(s) && Enabled(s, a) && ByCaller(a)
    ensures Inv(Next(s, a))
  {
    match a {
      case CallHandleData(data) =>
        if !s.cancelled { assert s.accepted + data == s.consumed + s.hand + data; }
      case CallerLocks => LocksKeeps(s);
      case PumpOne(ok) => PumpKeeps(s, ok);
      case _ =>
    }
  }

  lemma RoutineKeeps(s: State, a: Action)
    requires Inv(s) && Enabled(s, a) && !ByCaller(a)
    ensures Inv(Next(s, a))
  {
    match a {
      case Wake => WakeKeeps(s);
      case Parse(n) =>
        assert s.hand == s.hand[..n] + s.hand[n..];
        assert s.consumed + s.hand + s.readbuf == (s.consumed + s.hand[..n]) + s.hand[n..] + s.readbuf;
      case _ =>
    }
  }

  lemma WakeKeeps(s: State)
    requires Inv(s) && Enabled(s, Wake)
    ensures Inv(Next(s, Wake))
  {
    assert s.consumed + s.hand + s.readbuf == s.consumed + (s.hand + s.readbuf) + [];
  }

  lemma LocksKeeps(s: State)
    requires Inv(s) && Enabled(s, CallerLocks)
    ensures Inv(Next(s, CallerLocks))
  {
    assert s.consumed + s.hand + s.readbuf == s.consumed + (s.hand + s.readbuf) + [];
  }

  lemma PumpKeeps(s: State, ok: bool)
    requires Inv(s) && Enabled(s, PumpOne(ok))
    ensures Inv(Next(s, PumpOne(ok)))
  {
    if MessageReady(s) {
      var k := 4 + MessageLength(s.hand);
      assert s.hand == s.hand[..k] + s.hand[k..];
      assert s.consumed + s.hand + s.readbuf == (s.consumed + s.hand[..k]) + s.hand[k..] + s.readbuf;
    }
  }

  predicate Step(s: State, a: Action, s': State) { Enabled(s, a) && s' == Next(s, a) }

  /** States linked by the actions taken. */
  predicate Linked(states: seq<State>, actions: seq<Action>) {
    && |states| == |actions| + 1
    && forall i :: 0 <= i < |actions| ==> Step(states[i], actions[i], states[i + 1])
  }

  predicate IsRun(states: seq<State>, actions: seq<Action>) { Linked(states, actions) && states[0] == INITIAL }

  lemma Starts()
    ensures Inv(INITIAL)
  {
  }

  lemma {:induction false} RunKeeps(states: seq<State>, actions: seq<Action>, n: nat)
    requires IsRun(states, actions) && n < |states|
    ensures Inv(states[n])
  {
    hide Inv, Enabled, Next;
    if n == 0 { Starts(); } else {
      RunKeeps(states, actions, n - 1);
      assert Step(states[n - 1], actions[n - 1], states[n]);
      Keeps(states[n - 1], actions[n - 1]);
    }
  }

  // ---------------------------------------------------------------- main results

  /** The goroutine's next action reads or writes state shared with the caller. */
  predicate RoutineTouches(g: Routine) { g in {WantLock, Working, Woken, Relock, Abort, KeyInstalled, Closing} }

  /** The caller's next action does. */
  predicate CallerTouches(c: Caller) { c in {Outside, Pumping} }

  /** Main result, ownership: in every reachable state, a caller outside every method (or
      parsing on its own) has the shared state to itself: the goroutine is parked on
      signalc or has closed blockedc, and its mutex order is respected.
   */
  lemma ExclusiveOwnership(states: seq<State>, actions: seq<Action>, n: nat)
    requires IsRun(states, actions) && n < |states|
    ensures !(CallerTouches(states[n].c) && RoutineTouches(states[n].g))
    ensures states[n].c == Outside ==> AtRest(states[n].g)
    ensures states[n].c == Pumping ==> states[n].g == Exited
    ensures states[n].g != Leaked && states[n].c != Panicked
  {
    RunKeeps(states, actions, n);
  }

  /** Main result, conservation: until the context is cancelled, the bytes accepted by
      HandleData are, in order, those consumed, those in `hand` and those in `readbuf`;
      and between calls `readbuf` is empty.
   */
  lemma BytesConserved(states: seq<State>, actions: seq<Action>, n: nat)
    requires IsRun(states, actions) && n < |states| && !states[n].cancelled
    ensures states[n].accepted == states[n].consumed + states[n].hand + states[n].readbuf
    ensures states[n].c == Outside ==> states[n].accepted == states[n].consumed + states[n].hand
  {
    RunKeeps(states, actions, n);
    if states[n].c == Outside {
      assert states[n].consumed + states[n].hand + [] == states[n].consumed + states[n].hand;
    }
  }

  /** What the goroutine does next when it waits for nobody. */
  function OwnMove(g: Routine): Action {
    match g
    case Working => Wait(false)
    case Woken => Wake
    case KeyInstalled => Finish(true)
    case Closing => CloseBlocked
    case HalfClosed => CloseSignal
    case Closed => Release
    case _ => TakeLock
  }

  /** What unblocks a caller that is inside a method. */
  function Unblocker(s: State): Action {
    match s.c
    case Signalling(_) => if s.g == SendSignal then MeetSignal else if s.signalClosed then SignalIsClosed else OwnMove(s.g)
    case Pumping => if MessageReady(s) then PumpOne(true) else PumpEnds
    case Locking => if s.mutex == Nobody then CallerLocks else OwnMove(s.g)
    case Asking => if s.mutex == Nobody then CallerLocks else OwnMove(s.g)
    case _ => if s.g == SendBlocked then MeetBlocked else if s.blockedClosed then BlockedIsClosed else OwnMove(s.g)
  }

  function CallerWeight(c: Caller): nat {
    match c
    case Signalling(_) => 4
    case Awaiting(_) => 3
    case Starting => 3
    case Locking => 2
    case Pumping => 1
    case Asking => 1
    case _ => 0
  }

  function RoutineWeight(g: Routine): nat {
    match g
    case WantLock => 9
    case Woken => 9
    case Relock => 8
    case Abort => 8
    case Working => 7
    case KeyInstalled => 6
    case Closing => 5
    case HalfClosed => 4
    case Closed => 3
    case SendBlocked => 1
    case _ => 0
  }

  /** How far a method is from returning: what both sides still have to go, and the bytes
      they may still parse. */
  function Distance(s: State): nat {
    20 * CallerWeight(s.c) + RoutineWeight(s.g) + |s.hand| + |s.readbuf| + (if s.failed then 0 else 1)
  }

  predicate Inside(c: Caller) { c !in {Before, Outside} }

  /** An action that is not the context's cancellation, nor parsing nothing. */
  predicate Progresses(a: Action) { a != Cancel && a != Parse(0) }

  /** Close has consumed its signal and waits for the goroutine, which waits for a signal. */
  predicate Hung(s: State) { s.c.Awaiting? && s.c.why.ForClose? && s.g == SendSignal }

  /** Whatever either side does while the caller is inside a method, it leaves the method or
      comes nearer to leaving it. */
  lemma ComesNearer(s: State, a: Action)
    requires Inv(s) && Inside(s.c) && Enabled(s, a) && Progresses(a)
    ensures Next(s, a).c == Outside || Distance(Next(s, a)) < Distance(s)
  {
    hide Conserved;
    match a {
      case PumpOne(ok) => PumpNearer(s, ok);
      case Parse(n) =>
      case Wake =>
      case CallerLocks =>
      case _ => hide MessageReady, HandleMessage;
    }
  }

  lemma PumpNearer(s: State, ok: bool)
    requires Inv(s) && Enabled(s, PumpOne(ok))
    ensures Next(s, PumpOne(ok)).c == Outside || Distance(Next(s, PumpOne(ok))) < Distance(s)
  {
    hide Conserved;
  }

  lemma CanAct(s: State)
    requires Inv(s) && Inside(s.c) && !Hung(s)
    ensures Enabled(s, Unblocker(s)) && Progresses(Unblocker(s))
  {
    hide Conserved;
  }

  /** A run that goes on from `states[0]` while the caller stays inside its method. */
  predicate StaysInside(states: seq<State>, actions: seq<Action>) {
    && Linked(states, actions)
    && (forall i :: 0 <= i < |states| ==> Inside(states[i].c))
    && (forall i :: 0 <= i < |actions| ==> Progresses(actions[i]))
  }

  lemma {:induction false} StaysShort(states: seq<State>, actions: seq<Action>, n: nat)
    requires StaysInside(states, actions) && n < |states| && Inv(states[0])
    ensures Inv(states[n]) && n + Distance(states[n]) <= Distance(states[0])
  {
    hide Inv, Enabled, Next, Distance, Inside, Progresses;
    if n > 0 {
      StaysShort(states, actions, n - 1);
      assert Step(states[n - 1], actions[n - 1], states[n]) && Inside(states[n].c);
      OutsideIsNot(states[n].c);
      Keeps(states[n - 1], actions[n - 1]);
      ComesNearer(states[n - 1], actions[n - 1]);
    }
  }

  lemma OutsideIsNot(c: Caller)
    requires Inside(c)
    ensures c != Outside
  {
  }

  /** Main result, progress: in every schedule, a caller that enters a method is out of it
      after a bounded number of actions, or Close hangs: as long as the caller is inside
      and Close does not hang, some action can be taken, and no schedule can take more
      than `Distance` of them without the method returning.
   */
  lemma EveryMethodReturns(states: seq<State>, actions: seq<Action>, n: nat, more: seq<State>, taken: seq<Action>)
    requires IsRun(states, actions) && n < |states| && Inside(states[n].c)
    requires StaysInside(more, taken) && more[0] == states[n]
    ensures |taken| <= Distance(states[n])
    ensures Hung(more[|taken|]) || (Enabled(more[|taken|], Unblocker(more[|taken|])) && Progresses(Unblocker(more[|taken|])))
  {
    hide IsRun, Inv, Distance, Enabled, Hung, Unblocker;
    RunKeeps(states, actions, n);
    StaysShort(more, taken, |taken|);
    if !Hung(more[|taken|]) { CanAct(more[|taken|]); }
  }

  /** A caller inside is blocked for good exactly if Close hangs; and Close hangs only if it
      was called while a client waited for its resumption event to be drained.
   */
  lemma BlockedIffHung(states: seq<State>, actions: seq<Action>, n: nat)
    requires IsRun(states, actions) && n < |states| && Inside(states[n].c)
    ensures (forall a :: Enabled(states[n], a) ==> !Progresses(a)) <==> Hung(states[n])
    ensures Hung(states[n]) ==> states[n].c == Awaiting(ForClose(true))
  {
    RunKeeps(states, actions, n);
    hide Conserved, IsRun;
    if Hung(states[n]) { HungBlocks(states[n]); } else { CanAct(states[n]); }
  }

  lemma HungBlocks(s: State)
    requires Inv(s) && Hung(s)
    ensures forall a :: Enabled(s, a) ==> !Progresses(a)
    ensures s.c == Awaiting(ForClose(true))
  {
    hide Conserved;
  }

  /** The first half of the way: the wait ends with an error, which is dropped. */
  lemma ErrorIsDropped(s: State) returns (s1: State, s2: State, s3: State)
    requires Inv(s) && s.c == Outside && s.g == SendSignal && s.lenient
    ensures Step(s, CallClose, s1) && Step(s1, MeetSignal, s2) && Step(s2, Wake, s3)
    ensures s3 == s.(c := Awaiting(ForClose(true)), g := Relock, cancelled := true) && s3.mutex == Nobody
  {
    assert s.mutex == Nobody;
    hide Inv;
    s1 := s.(c := Signalling(ForClose(true)), cancelled := true);
    s2 := s1.(c := Awaiting(ForClose(true)), g := Woken);
    s3 := s2.(g := Relock);
  }

  /** The second half: the handshake goes on to its next wait. */
  lemma WaitsAgain(s: State) returns (s1: State, s2: State, s3: State)
    requires s.c == Awaiting(ForClose(true)) && s.g == Relock && s.mutex == Nobody
    ensures Step(s, TakeLock, s1) && Step(s1, Wait(false), s2) && Step(s2, MeetBlocked, s3) && Hung(s3)
  {
    s1 := s.(g := Working, mutex := TheRoutine);
    s2 := s1.(g := SendBlocked, mutex := Nobody, lenient := false);
    s3 := s2.(g := SendSignal);
  }

  /** Close of a client that waits for its resumption event to be drained can always come
      to hang: the goroutine's next wait and Close then wait for each other. */
  lemma CloseCanHang(s: State) returns (states: seq<State>, actions: seq<Action>)
    requires Inv(s) && s.c == Outside && s.g == SendSignal && s.lenient
    ensures Linked(states, actions) && |actions| == 6 && states[0] == s && actions[0] == CallClose && Hung(states[6])
  {
    hide Inv, Step, Hung;
    var s1, s2, s3 := ErrorIsDropped(s);
    var s4, s5, s6 := WaitsAgain(s3);
    states := [s, s1, s2, s3, s4, s5, s6];
    actions := [CallClose, MeetSignal, Wake, TakeLock, Wait(false), MeetBlocked];
  }

  /** Start alone leads to such a client, if it has a session to resume. */
  lemma DrainingIsReached() returns (states: seq<State>, actions: seq<Action>)
    ensures IsRun(states, actions) && |actions| == 4 && actions[0] == CallStart
    ensures var s := states[4]; s.c == Outside && s.g == SendSignal && s.lenient && !s.cancelled
  {
    var s1 := INITIAL.(c := Starting, g := WantLock);
    var s2 := s1.(g := Working, mutex := TheRoutine);
    var s3 := s2.(g := SendBlocked, mutex := Nobody, lenient := true);
    var s4 := s3.(c := Outside, g := SendSignal);
    assert Step(INITIAL, CallStart, s1) && Step(s1, TakeLock, s2);
    assert Step(s2, Wait(true), s3) && Step(s3, MeetBlocked, s4);
    hide Step;
    states := [INITIAL, s1, s2, s3, s4];
    actions := [CallStart, TakeLock, Wait(true), MeetBlocked];
  }

  // ---------------------------------------------------------------- parked or exited?

  lemma FailsEarly() returns (s1: State, s2: State, s3: State)
    ensures Step(INITIAL, CallStart, s1) && Step(s1, TakeLock, s2) && Step(s2, Finish(false), s3)
    ensures s3 == INITIAL.(c := Starting, g := Closing, mutex := TheRoutine, failed := true)
  {
    s1 := INITIAL.(c := Starting, g := WantLock);
    s2 := s1.(g := Working, mutex := TheRoutine);
    s3 := s2.(g := Closing, failed := true);
  }

  /** "Parked on signalc or has exited" does not quite hold: a method that returns because
      blockedc was closed can be outside before the goroutine closes signalc.
   */
  lemma WindowBeforeExit() returns (states: seq<State>, actions: seq<Action>)
    ensures IsRun(states, actions)
    ensures var s := states[|states| - 1]; s.c == Outside && s.g == HalfClosed && !s.cancelled
  {
    var s1, s2, s3 := FailsEarly();
    var s4 := s3.(g := HalfClosed, blockedClosed := true);
    var s5 := s4.(c := Outside);
    assert Step(s3, CloseBlocked, s4) && Step(s4, BlockedIsClosed, s5);
    hide Step;
    states := [INITIAL, s1, s2, s3, s4, s5];
    actions := [CallStart, TakeLock, Finish(false), CloseBlocked, BlockedIsClosed];
  }

  /** It holds exactly when the goroutine is not between its two closings and its return;
      there it touches no shared state any more, and every path of it leads to the exit.
   */
  lemma ParkedOrExitedIff(states: seq<State>, actions: seq<Action>, n: nat)
    requires IsRun(states, actions) && n < |states| && states[n].c == Outside
    ensures states[n].g in {SendSignal, Exited} <==> !(states[n].blockedClosed && states[n].mutex == TheRoutine)
    ensures states[n].blockedClosed ==> !RoutineTouches(states[n].g)
  {
    RunKeeps(states, actions, n);
  }
}
