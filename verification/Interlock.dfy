/** The lock-free interlock of Write and Close: a counter that holds twice the number of
    writes in flight plus a closed bit; and the close_notify alert behind the write lock.
    Any number of threads; every atomic access is a step of its own.
 */
module Interlock {

  /** What has gone out: an application data record, or the close_notify alert. */
  datatype Item = Data(thread: nat) | CloseNotify

  datatype Thread =
    | Idle
    | WriteLoaded(x: int)     // Write: has loaded the counter
    | WriteAgain              // Write: another thread has changed the counter; about to load it again
    | WriteEntered            // Write: has added two; waits for the write lock
    | WriteChecked            // Write: holds the lock, has found no error and no close_notify
    | WriteLeaving            // Write: has released the lock; about to subtract two
    | CloseLoaded(x: int)     // Close: has loaded the counter
    | CloseAgain              // Close: likewise
    | CloseWon(x: int)        // Close: has set the closed bit; `x` was the counter before
    | NotifyWaits             // closeNotify, from Close or CloseWrite: waits for the lock
    | NotifyLocked            // closeNotify: holds the lock
    | NotifySent              // closeNotify: the alert has been handed to the connection
    | Finished

  /** What the threads share. */
  datatype Shared = Shared(
    active: int, lock: bool, sent: bool, failed: bool, handshakeDone: bool, wire: seq<Item>, winners: seq<nat>)

  datatype State = State(g: Shared, threads: seq<Thread>)

  predicate Initial(s: State) {
    && s.g.active == 0 && !s.g.lock && !s.g.sent && s.g.wire == [] && s.g.winners == []
    && forall i :: 0 <= i < |s.threads| ==> s.threads[i] == Idle
  }

  datatype Action =
    | LoadForWrite(i: nat) | SwapForWrite(i: nat) | LockForWrite(i: nat) | Emit(i: nat) | EndWrite(i: nat)
    | Subtract(i: nat)
    | LoadForClose(i: nat) | SwapForClose(i: nat) | AfterSwap(i: nat)
    | CloseWrite(i: nat) | LockForNotify(i: nat) | SendNotify(i: nat, delivered: bool) | EndNotify(i: nat)
    | Reuse(i: nat) | WriteError(i: nat) | CompleteHandshake(i: nat)

  predicate Enabled(s: State, a: Action) {
    a.i < |s.threads| && CanDo(s.g, s.threads[a.i], a)
  }

  predicate CanDo(g: Shared, t: Thread, a: Action) {
    match a
    case LoadForWrite(_) => t in {Idle, WriteAgain}
    case SwapForWrite(_) => t.WriteLoaded?
    case LockForWrite(_) => t == WriteEntered && !g.lock
    case Emit(_) => t == WriteChecked
    case WriteError(_) => t == WriteChecked
    case EndWrite(_) => t == WriteChecked
    case Subtract(_) => t == WriteLeaving
    case LoadForClose(_) => t in {Idle, CloseAgain}
    case SwapForClose(_) => t.CloseLoaded?
    case AfterSwap(_) => t.CloseWon?
    case CloseWrite(_) => t == Idle && g.handshakeDone
    case LockForNotify(_) => t == NotifyWaits && !g.lock
    case SendNotify(_, _) => t == NotifyLocked && !g.sent
    case EndNotify(_) => t == NotifySent || (t == NotifyLocked && g.sent)
    case Reuse(_) => t == Finished
    case CompleteHandshake(_) => true
  }

  predicate Odd(x: int) { x % 2 != 0 }

  /** Where the acting thread stands afterwards. */
  function Moved(g: Shared, t: Thread, a: Action): Thread
    requires CanDo(g, t, a)
  {
    match a
    case LoadForWrite(_) => if Odd(g.active) then Finished else WriteLoaded(g.active)
    case SwapForWrite(_) => if g.active == t.x then WriteEntered else WriteAgain
    case LockForWrite(_) => if g.failed || !g.handshakeDone || g.sent then WriteLeaving else WriteChecked
    case Emit(_) => t
    case WriteError(_) => WriteLeaving
    case EndWrite(_) => WriteLeaving
    case Subtract(_) => Finished
    case LoadForClose(_) => if Odd(g.active) then Finished else CloseLoaded(g.active)
    case SwapForClose(_) => if g.active == t.x then CloseWon(g.active) else CloseAgain
    case AfterSwap(_) => if t.x == 0 && g.handshakeDone then NotifyWaits else Finished
    case CloseWrite(_) => NotifyWaits
    case LockForNotify(_) => NotifyLocked
    case SendNotify(_, _) => NotifySent
    case EndNotify(_) => Finished
    case Reuse(_) => Idle
    case CompleteHandshake(_) => t
  }

  /** What the action does to the shared state. */
  function Effect(g: Shared, t: Thread, a: Action): Shared
    requires CanDo(g, t, a)
  {
    match a
    case SwapForWrite(_) => if g.active == t.x then g.(active := g.active + 2) else g
    case LockForWrite(_) => if g.failed || !g.handshakeDone || g.sent then g else g.(lock := true)
    case Emit(i) => g.(wire := g.wire + [Data(i)])
    case WriteError(_) => g.(lock := false, failed := true)
    case EndWrite(_) => g.(lock := false)
    case Subtract(_) => g.(active := g.active - 2)
    case SwapForClose(i) => if g.active == t.x then g.(active := g.active + 1, winners := g.winners + [i]) else g
    case LockForNotify(_) => g.(lock := true)
    case SendNotify(_, delivered) => if delivered then g.(wire := g.wire + [CloseNotify]) else g
    case EndNotify(_) => g.(lock := false, sent := true)
    case CompleteHandshake(_) => g.(handshakeDone := true)
    case _ => g
  }

  function Next(s: State, a: Action): State
    requires Enabled(s, a)
  {
    var t := s.threads[a.i];
    State(Effect(s.g, t, a), s.threads[a.i := Moved(s.g, t, a)])
  }

  // ---------------------------------------------------------------- counting

  predicate InFlight(t: Thread) { t in {WriteEntered, WriteChecked, WriteLeaving} }

  function InFlightCount(ts: seq<Thread>): nat {
    if ts == [] then 0 else (if InFlight(ts[0]) then 1 else 0) + InFlightCount(ts[1..])
  }

  lemma {:induction false} CountUpdate(ts: seq<Thread>, i: nat, t: Thread)
    requires i < |ts|
    ensures InFlightCount(ts[i := t]) ==
      InFlightCount(ts) - (if InFlight(ts[i]) then 1 else 0) + (if InFlight(t) then 1 else 0)
  {
    if i == 0 {
      assert ts[i := t][1..] == ts[1..];
    } else {
      CountUpdate(ts[1..], i - 1, t);
      assert ts[i := t][1..] == ts[1..][i - 1 := t];
    }
  }

  lemma {:induction false} CountBound(ts: seq<Thread>)
    ensures InFlightCount(ts) <= |ts|
  {
    if ts != [] { CountBound(ts[1..]); }
  }

  // ---------------------------------------------------------------- the invariant

  predicate Holds(t: Thread) { t in {WriteChecked, NotifyLocked, NotifySent} }

  predicate Closed(s: State) { s.g.winners != [] }

  predicate Counted(s: State) {
    && |s.g.winners| <= 1
    && s.g.active == 2 * InFlightCount(s.threads) + |s.g.winners|
  }

  predicate OneHolder(ts: seq<Thread>) {
    forall i, j :: 0 <= i < j < |ts| ==> !(Holds(ts[i]) && Holds(ts[j]))
  }

  predicate LockOk(s: State) {
    && OneHolder(s.threads)
    && (forall i :: 0 <= i < |s.threads| && Holds(s.threads[i]) ==> s.g.lock)
    && (s.g.lock ==> exists i :: 0 <= i < |s.threads| && Holds(s.threads[i]))
  }

  /** Once close_notify is out, its flag is set, or its sender still holds the lock. */
  predicate NotifyOk(s: State) {
    && (CloseNotify in s.g.wire ==> s.g.sent || exists i :: 0 <= i < |s.threads| && s.threads[i] == NotifySent)
    && (forall i :: 0 <= i < |s.threads| && s.threads[i] in {WriteChecked, NotifySent} ==> !s.g.sent)
  }

  predicate NothingAfterNotify(wire: seq<Item>) {
    forall i :: 0 <= i < |wire| - 1 ==> wire[i] != CloseNotify
  }

  /** The values that threads have loaded are even. */
  predicate LoadedEven(s: State) {
    forall i :: 0 <= i < |s.threads| ==>
      (s.threads[i].WriteLoaded? || s.threads[i].CloseLoaded? ==> !Odd(s.threads[i].x))
  }

  predicate Inv(s: State) {
    Counted(s) && LoadedEven(s) && LockOk(s) && NotifyOk(s) && NothingAfterNotify(s.g.wire)
  }

  lemma Parity(n: nat, w: nat, x: int)
    requires w <= 1 && x == 2 * n + w
    ensures Odd(x) <==> w == 1
  {
  }

  lemma CountedKeeps(s: State, a: Action)
    requires Counted(s) && LoadedEven(s) && Enabled(s, a)
    ensures Counted(Next(s, a))
    ensures Closed(s) ==> Next(s, a).g.winners == s.g.winners
    ensures Closed(s) ==> (InFlight(Next(s, a).threads[a.i]) ==> InFlight(s.threads[a.i]))
  {
    CountUpdate(s.threads, a.i, Next(s, a).threads[a.i]);
    Parity(InFlightCount(s.threads), |s.g.winners|, s.g.active);
    hide InFlightCount, Odd;
    assert s.threads[a.i].WriteLoaded? || s.threads[a.i].CloseLoaded? ==> !Odd(s.threads[a.i].x);
  }

  lemma LoadedKeeps(s: State, a: Action)
    requires LoadedEven(s) && Enabled(s, a)
    ensures LoadedEven(Next(s, a))
  {
    hide Odd;
  }

  /** The acting thread takes the lock when it is free, gives it back, or leaves it alone. */
  lemma LockMoves(g: Shared, t: Thread, a: Action)
    requires CanDo(g, t, a) && (Holds(t) ==> g.lock)
    ensures var t', g' := Moved(g, t, a), Effect(g, t, a);
      && (Holds(t') ==> g'.lock)
      && (Holds(t') && !Holds(t) ==> !g.lock)
      && (Holds(t) && !Holds(t') ==> !g'.lock)
      && (!Holds(t) && !Holds(t') ==> g'.lock == g.lock)
  {
    hide Odd;
  }

  lemma HolderMoves(ts: seq<Thread>, i: nat, t: Thread)
    requires i < |ts| && OneHolder(ts)
    requires Holds(t) && !Holds(ts[i]) ==> forall k :: 0 <= k < |ts| ==> !Holds(ts[k])
    ensures OneHolder(ts[i := t])
  {
    hide Holds;
  }

  lemma LockKeeps(s: State, a: Action)
    requires LockOk(s) && Enabled(s, a)
    ensures LockOk(Next(s, a))
  {
    hide CanDo, Effect, Moved, Holds;
    LockMoves(s.g, s.threads[a.i], a);
    var s' := Next(s, a);
    HolderMoves(s.threads, a.i, s'.threads[a.i]);
    hide OneHolder;
    if s'.g.lock && !Holds(s'.threads[a.i]) {
      var k :| 0 <= k < |s.threads| && Holds(s.threads[k]);
      assert Holds(s'.threads[k]);
    }
  }

  lemma NotifyKeeps(s: State, a: Action)
    requires LockOk(s) && NotifyOk(s) && Enabled(s, a)
    ensures NotifyOk(Next(s, a))
  {
    hide Odd;
    var s' := Next(s, a);
    if CloseNotify in s'.g.wire && !s'.g.sent {
      if CloseNotify in s.g.wire {
        var k :| 0 <= k < |s.threads| && s.threads[k] == NotifySent;
        assert s'.threads[k] == NotifySent;
      } else {
        assert s'.threads[a.i] == NotifySent;
      }
    }
  }

  lemma WireKeeps(s: State, a: Action)
    requires LockOk(s) && NotifyOk(s) && NothingAfterNotify(s.g.wire) && Enabled(s, a)
    ensures NothingAfterNotify(Next(s, a).g.wire)
  {
    hide Odd;
    if a.Emit? || a.SendNotify? { assert Holds(s.threads[a.i]) && CloseNotify !in s.g.wire; }
  }

  lemma Keeps(s: State, a: Action)
    requires Inv(s) && Enabled(s, a)
    ensures Inv(Next(s, a))
  {
    hide Counted, LoadedEven, LockOk, NotifyOk, NothingAfterNotify, Next;
    CountedKeeps(s, a);
    LoadedKeeps(s, a);
    LockKeeps(s, a);
    NotifyKeeps(s, a);
    WireKeeps(s, a);
  }

  lemma Starts(s: State)
    requires Initial(s)
    ensures Inv(s)
  {
    NoneInFlight(s.threads);
  }

  lemma {:induction false} NoneInFlight(ts: seq<Thread>)
    requires forall i :: 0 <= i < |ts| ==> ts[i] == Idle
    ensures InFlightCount(ts) == 0
  {
    if ts != [] { NoneInFlight(ts[1..]); }
  }

  // ---------------------------------------------------------------- main results

  predicate IsRun(states: seq<State>, actions: seq<Action>) {
    && |states| == |actions| + 1 && Initial(states[0])
    && forall i :: 0 <= i < |actions| ==> Enabled(states[i], actions[i]) && states[i + 1] == Next(states[i], actions[i])
  }

  lemma {:induction false} RunKeeps(states: seq<State>, actions: seq<Action>, n: nat)
    requires IsRun(states, actions) && n < |states|
    ensures Inv(states[n])
  {
    hide Inv, Enabled, Next, Initial;
    if n == 0 { Starts(states[0]); } else {
      RunKeeps(states, actions, n - 1);
      Keeps(states[n - 1], actions[n - 1]);
    }
  }

  /** Main result: in every interleaving the counter is twice the writes in flight plus the
      closed bit, and stays within twice the threads plus one; at most one Close has won.
   */
  lemma CounterIsExact(states: seq<State>, actions: seq<Action>, n: nat)
    requires IsRun(states, actions) && n < |states|
    ensures states[n].g.active == 2 * InFlightCount(states[n].threads) + (if Closed(states[n]) then 1 else 0)
    ensures 0 <= states[n].g.active <= 2 * |states[n].threads| + 1
    ensures |states[n].g.winners| <= 1
  {
    RunKeeps(states, actions, n);
    CountBound(states[n].threads);
  }

  /** Main result: close_notify goes out at most once, and no record follows it. */
  lemma CloseNotifyIsLast(states: seq<State>, actions: seq<Action>, n: nat, k: nat)
    requires IsRun(states, actions) && n < |states|
    requires k < |states[n].g.wire| && states[n].g.wire[k] == CloseNotify
    ensures k == |states[n].g.wire| - 1
  {
    RunKeeps(states, actions, n);
  }

  lemma NoneEnters(s: State, a: Action, i: nat)
    requires Inv(s) && Enabled(s, a) && Closed(s)
    ensures Next(s, a).g.winners == s.g.winners && |Next(s, a).threads| == |s.threads|
    ensures i < |s.threads| && InFlight(Next(s, a).threads[i]) ==> InFlight(s.threads[i])
  {
    CountedKeeps(s, a);
    hide Counted, LoadedEven, LockOk, NotifyOk, NothingAfterNotify, Effect, Moved, CanDo;
  }

  /** Main result: once a Close has won, the winner stays the same and no Write enters:
      a thread with no write in flight then never has one later.
   */
  lemma {:induction false} NoWriteAfterClose(states: seq<State>, actions: seq<Action>, m: nat, n: nat, i: nat)
    requires IsRun(states, actions) && m <= n < |states| && Closed(states[m])
    ensures states[n].g.winners == states[m].g.winners && |states[n].threads| == |states[m].threads|
    ensures i < |states[m].threads| && InFlight(states[n].threads[i]) ==> InFlight(states[m].threads[i])
  {
    hide Inv, InFlight, Enabled, Next, Initial;
    if m < n {
      NoWriteAfterClose(states, actions, m, n - 1, i);
      RunKeeps(states, actions, n - 1);
      NoneEnters(states[n - 1], actions[n - 1], i);
    }
  }

  /** A Write or a Close that loads the counter is refused exactly if a Close has won; one
      that loses the swap tries again. */
  lemma RefusedOnlyWhenClosed(s: State, a: Action)
    requires Inv(s) && Enabled(s, a)
    ensures a.LoadForWrite? || a.LoadForClose? ==> (Next(s, a).threads[a.i] == Finished <==> Closed(s))
    ensures a.SwapForWrite? && Next(s, a).threads[a.i] != WriteEntered ==>
      Next(s, a) == s.(threads := s.threads[a.i := WriteAgain])
    ensures a.SwapForClose? && !Next(s, a).threads[a.i].CloseWon? ==>
      Next(s, a) == s.(threads := s.threads[a.i := CloseAgain])
    ensures Closed(s) && (a.SwapForWrite? || a.SwapForClose?) ==> Next(s, a).threads[a.i] in {WriteAgain, CloseAgain}
  {
    Parity(InFlightCount(s.threads), |s.g.winners|, s.g.active);
    hide InFlightCount, Odd;
    assert s.threads[a.i].WriteLoaded? || s.threads[a.i].CloseLoaded? ==> !Odd(s.threads[a.i].x);
  }
}
