/** The QUIC event queue: events are appended by the handshake, handed out one by one, and
    consecutive handshake data of one level is coalesced in place.
 */
module QuicEvents {
  import opened Wire

  /** An event.  `Blank` is the zero value, left in a slot whose event has been delivered;
      `Other` stands for the events that are never coalesced. */
  datatype Event =
    | Blank
    | WriteData(level: nat, data: Bytes)
    | Other(kind: nat, level: nat, data: Bytes)
    | ErrorEvent

  /** The grain at which events are compared: single bytes of handshake data, whole others. */
  datatype Atom = DataByte(level: nat, value: byte) | Whole(event: Event)

  function DataAtoms(level: nat, data: Bytes): (r: seq<Atom>)
    ensures |r| == |data| && forall i :: 0 <= i < |data| ==> r[i] == DataByte(level, data[i])
  {
    seq(|data|, i requires 0 <= i < |data| => DataByte(level, data[i]))
  }

  function AtomsOf(e: Event): seq<Atom> {
    match e
    case Blank => []
    case WriteData(level, data) => DataAtoms(level, data)
    case _ => [Whole(e)]
  }

  function Atoms(events: seq<Event>): seq<Atom> {
    if events == [] then [] else AtomsOf(events[0]) + Atoms(events[1..])
  }

  lemma {:induction false} AtomsAppend(xs: seq<Event>, ys: seq<Event>)
    ensures Atoms(xs + ys) == Atoms(xs) + Atoms(ys)
  {
    if xs == [] { assert xs + ys == ys; } else {
      assert (xs + ys)[1..] == xs[1..] + ys;
      AtomsAppend(xs[1..], ys);
    }
  }

  lemma AtomsOne(e: Event)
    ensures Atoms([e]) == AtomsOf(e)
  {
    assert [e][1..] == [];
  }

  lemma DataAtomsAppend(level: nat, data: Bytes, more: Bytes)
    ensures DataAtoms(level, data + more) == DataAtoms(level, data) + DataAtoms(level, more)
  {
  }

  /** Adding data to the last event adds its bytes at the end. */
  lemma Coalesced(front: seq<Event>, level: nat, data: Bytes, more: Bytes)
    ensures Atoms(front + [WriteData(level, data + more)]) ==
      Atoms(front + [WriteData(level, data)]) + DataAtoms(level, more)
  {
    hide Atoms, DataAtoms;
    AtomsAppend(front, [WriteData(level, data + more)]);
    AtomsAppend(front, [WriteData(level, data)]);
    AtomsOne(WriteData(level, data + more));
    AtomsOne(WriteData(level, data));
    DataAtomsAppend(level, data, more);
    assert Atoms(front) + (DataAtoms(level, data) + DataAtoms(level, more))
      == (Atoms(front) + DataAtoms(level, data)) + DataAtoms(level, more);
  }

  /** The queue `q` with an empty event for data of a level, unless it ends in one. */
  function Opened(q: seq<Event>, level: nat): (r: seq<Event>)
    ensures r != [] && r[|r| - 1].WriteData? && r[|r| - 1].level == level
  {
    if q == [] || !q[|q| - 1].WriteData? || q[|q| - 1].level != level then q + [WriteData(level, [])] else q
  }

  lemma OpenedAtoms(q: seq<Event>, level: nat)
    ensures Atoms(Opened(q, level)) == Atoms(q)
  {
    hide Atoms;
    AtomsAppend(q, [WriteData(level, [])]);
    AtomsOne(WriteData(level, []));
    assert Atoms(q) + DataAtoms(level, []) == Atoms(q);
  }

  function Grown(q: seq<Event>, more: Bytes): seq<Event>
    requires q != [] && q[|q| - 1].WriteData?
  {
    var last := q[|q| - 1];
    q[|q| - 1 := WriteData(last.level, last.data + more)]
  }

  /** New data is joined to the last event if that holds data of the same level. */
  lemma Joins(q: seq<Event>, level: nat, data: Bytes)
    ensures Grown(Opened(q, level), data) ==
      if q != [] && q[|q| - 1].WriteData? && q[|q| - 1].level == level
      then q[..|q| - 1] + [WriteData(level, q[|q| - 1].data + data)] else q + [WriteData(level, data)]
  {
    assert [] + data == data;
  }

  lemma GrownAtoms(q: seq<Event>, more: Bytes)
    requires q != [] && q[|q| - 1].WriteData?
    ensures Atoms(Grown(q, more)) == Atoms(q) + DataAtoms(q[|q| - 1].level, more)
  {
    hide Atoms, DataAtoms;
    var front, last := q[..|q| - 1], q[|q| - 1];
    assert q == front + [last];
    assert Grown(q, more) == front + [WriteData(last.level, last.data + more)];
    Coalesced(front, last.level, last.data, more);
  }

  /** Moving the head of the queue to the delivered events. */
  lemma PopAtoms(delivered: seq<Event>, queue: seq<Event>)
    requires queue != []
    ensures Atoms(delivered + [queue[0]]) + Atoms(queue[1..]) == Atoms(delivered) + Atoms(queue)
  {
    hide Atoms, AtomsOf;
    AtomsAppend(delivered, [queue[0]]);
    AtomsAppend([queue[0]], queue[1..]);
    assert queue == [queue[0]] + queue[1..];
    Associative(Atoms(delivered), Atoms([queue[0]]), Atoms(queue[1..]));
  }

  lemma Associative(a: seq<Atom>, b: seq<Atom>, c: seq<Atom>)
    ensures a + (b + c) == (a + b) + c
  {
  }

  /** The queue with the first byte of the event delivered last written over, to catch
      callers that keep it. */
  function Scribbled(events: seq<Event>, next: nat): seq<Event>
    requires next <= |events|
  {
    if next >= 1 && EventData(events[next - 1]) != []
    then events[next - 1 := Overwritten(events[next - 1])] else events
  }

  /** That never changes anything once delivered slots are blank. */
  lemma NothingToOverwrite(events: seq<Event>, next: nat)
    requires next <= |events| && forall i :: 0 <= i < next ==> events[i] == Blank
    ensures Scribbled(events, next) == events
  {
  }

  // ---------------------------------------------------------------- the queue as a value

  /** The undelivered events, the flags, and two logs: the atoms emitted so far and the events
      delivered.  `reported` is set once the handshake's error has been delivered. */
  datatype View = View(
    queue: seq<Event>, waiting: bool, failed: bool, reported: bool, emitted: seq<Atom>, delivered: seq<Event>)

  const EMPTY: View := View([], false, false, false, [], [])

  /** What the handshake does between two waits: the events it emits, whether it then waits
      for them to be drained, and whether it fails. */
  datatype Burst = Burst(out: seq<Event>, waits: bool, fails: bool)

  predicate Sendable(e: Event) { e.WriteData? || e.Other? }

  predicate Possible(b: Burst) { forall i :: 0 <= i < |b.out| ==> Sendable(b.out[i]) }

  /** Handshake data joins the last event if that is handshake data of the same level. */
  function Emitted(v: View, e: Event): View
    requires Sendable(e)
  {
    v.(queue := if e.WriteData? then Grown(Opened(v.queue, e.level), e.data) else v.queue + [e],
       emitted := v.emitted + AtomsOf(e))
  }

  function EmittedAll(v: View, es: seq<Event>): View
    requires forall i :: 0 <= i < |es| ==> Sendable(es[i])
    decreases |es|
  {
    if es == [] then v else Emitted(EmittedAll(v, es[..|es| - 1]), es[|es| - 1])
  }

  function Ran(v: View, b: Burst): View
    requires Possible(b)
  {
    EmittedAll(v, b.out).(waiting := b.waits, failed := v.failed || b.fails)
  }

  /** NextEvent, `b` being what the handshake does if taking the last event released it. */
  function Taken(v: View, b: Burst): (Event, View)
    requires Possible(b)
  {
    var u := if v.queue == [] && v.waiting then Ran(v, b) else v;
    if u.failed then
      if u.reported then (Blank, u) else (ErrorEvent, u.(reported := true, queue := []))
    else if u.queue == [] then (Blank, u)
    else (u.queue[0], u.(queue := u.queue[1..], delivered := u.delivered + [u.queue[0]]))
  }

  /** A call: NextEvent, or any other method, during which the handshake may run on. */
  datatype Call = TakeEvent(b: Burst) | RunOn(b: Burst)

  predicate Allowed(v: View, c: Call) { Possible(c.b) && (c.RunOn? ==> !v.waiting) }

  /** What a call returns, if it is NextEvent, and the state after it. */
  function Called(v: View, c: Call): (Event, View)
    requires Allowed(v, c)
  {
    match c
    case TakeEvent(b) => Taken(v, b)
    case RunOn(b) => (Blank, Ran(v, b))
  }

  /** Nothing is lost, doubled or reordered between emission and delivery. */
  ghost predicate Logged(v: View) {
    && (v.reported ==> v.failed)
    && (!v.reported ==> Atoms(v.delivered) + Atoms(v.queue) == v.emitted)
  }

  lemma EmittedLogged(v: View, e: Event)
    requires Logged(v) && Sendable(e)
    ensures Logged(Emitted(v, e))
  {
    hide Atoms, DataAtoms;
    if e.WriteData? {
      OpenedAtoms(v.queue, e.level);
      GrownAtoms(Opened(v.queue, e.level), e.data);
    } else {
      AtomsAppend(v.queue, [e]);
      AtomsOne(e);
    }
    Associative(Atoms(v.delivered), Atoms(v.queue), AtomsOf(e));
  }

  lemma {:induction false} EmittedAllLogged(v: View, es: seq<Event>)
    requires Logged(v) && forall i :: 0 <= i < |es| ==> Sendable(es[i])
    ensures Logged(EmittedAll(v, es))
    ensures var u := EmittedAll(v, es);
      u.delivered == v.delivered && u.failed == v.failed && u.reported == v.reported
    decreases |es|
  {
    hide Logged;
    if es != [] {
      EmittedAllLogged(v, es[..|es| - 1]);
      EmittedLogged(EmittedAll(v, es[..|es| - 1]), es[|es| - 1]);
    }
  }

  lemma RanLogged(v: View, b: Burst)
    requires Logged(v) && Possible(b)
    ensures Logged(Ran(v, b)) && Ran(v, b).delivered == v.delivered && Ran(v, b).reported == v.reported
    ensures v.failed ==> Ran(v, b).failed
  {
    hide Atoms, EmittedAll;
    EmittedAllLogged(v, b.out);
  }

  lemma TakenLogged(v: View, b: Burst)
    requires Logged(v) && Possible(b)
    ensures Logged(Taken(v, b).1) && v.delivered <= Taken(v, b).1.delivered
    ensures v.reported ==> Taken(v, b).0 == Blank && Taken(v, b).1.reported && Taken(v, b).1.delivered == v.delivered
  {
    hide Atoms, Ran;
    if v.queue == [] && v.waiting { RanLogged(v, b); }
    var u := if v.queue == [] && v.waiting then Ran(v, b) else v;
    if !u.failed && u.queue != [] { PopAtoms(u.delivered, u.queue); }
  }

  /** The states that a sequence of calls leads through, and the events they return. */
  ghost predicate IsRun(views: seq<View>, calls: seq<Call>, returned: seq<Event>) {
    && |views| == |calls| + 1 == |returned| + 1 && views[0] == EMPTY
    && forall i :: 0 <= i < |calls| ==> Follows(views[i], calls[i], returned[i], views[i + 1])
  }

  predicate Follows(v: View, c: Call, e: Event, v': View) { Allowed(v, c) && (e, v') == Called(v, c) }

  /** What was delivered stays; once the error has been delivered, nothing more is. */
  predicate Grows(v: View, v': View) {
    v.delivered <= v'.delivered && (v.reported ==> v'.reported && v'.delivered == v.delivered)
  }

  lemma CallLogged(v: View, c: Call, e: Event, v': View)
    requires Logged(v) && Follows(v, c, e, v')
    ensures Logged(v') && Grows(v, v')
  {
    hide Logged, Ran, Taken;
    if c.TakeEvent? { TakenLogged(v, c.b); } else { RanLogged(v, c.b); }
  }

  lemma Starts()
    ensures Logged(EMPTY)
  {
  }

  lemma {:induction false} RunLogged(views: seq<View>, calls: seq<Call>, returned: seq<Event>, m: nat, n: nat)
    requires IsRun(views, calls, returned) && m <= n < |views|
    ensures Logged(views[n]) && Grows(views[m], views[n])
    decreases n
  {
    hide Logged, Follows;
    if n == 0 { Starts(); } else {
      RunLogged(views, calls, returned, if m < n then m else n - 1, n - 1);
      CallLogged(views[n - 1], calls[n - 1], returned[n - 1], views[n]);
    }
  }

  /** Main result: over any sequence of calls, with bursts of any kind at any release, the
      events delivered and those still queued carry exactly what was emitted, byte for byte
      and in order, until the error has been delivered; after that nothing is.  What has
      been delivered stays as it is.
   */
  lemma DeliversWhatIsEmitted(views: seq<View>, calls: seq<Call>, returned: seq<Event>, m: nat, n: nat)
    requires IsRun(views, calls, returned) && m <= n < |views|
    ensures !views[n].reported ==> Atoms(views[n].delivered) + Atoms(views[n].queue) == views[n].emitted
    ensures !views[n].reported && views[n].queue == [] ==> Atoms(views[n].delivered) == views[n].emitted
    ensures Grows(views[m], views[n])
  {
    RunLogged(views, calls, returned, m, n);
    if views[n].queue == [] { assert Atoms(views[n].delivered) + [] == Atoms(views[n].delivered); }
  }

  // ---------------------------------------------------------------- what the calls return

  function NonBlank(events: seq<Event>): seq<Event> {
    if events == [] then []
    else NonBlank(events[..|events| - 1]) + if events[|events| - 1] == Blank then [] else [events[|events| - 1]]
  }

  lemma NonBlankOneMore(events: seq<Event>, n: nat)
    requires n < |events|
    ensures NonBlank(events[..n + 1]) == NonBlank(events[..n]) + if events[n] == Blank then [] else [events[n]]
  {
    assert events[..n + 1][..n] == events[..n];
  }

  /** Only what the handshake emits is ever queued or delivered. */
  predicate OnlySendable(v: View) {
    && (forall i :: 0 <= i < |v.queue| ==> Sendable(v.queue[i]))
    && (forall i :: 0 <= i < |v.delivered| ==> Sendable(v.delivered[i]))
  }

  lemma {:induction false} EmittedAllSendable(v: View, es: seq<Event>)
    requires OnlySendable(v) && forall i :: 0 <= i < |es| ==> Sendable(es[i])
    ensures OnlySendable(EmittedAll(v, es)) && EmittedAll(v, es).delivered == v.delivered
    ensures EmittedAll(v, es).failed == v.failed && EmittedAll(v, es).reported == v.reported
    decreases |es|
  {
    if es != [] { EmittedAllSendable(v, es[..|es| - 1]); }
  }

  /** The non-blank events returned so far, told from the state. */
  function Outcomes(v: View): seq<Event> { v.delivered + if v.reported then [ErrorEvent] else [] }

  lemma CallReturns(v: View, c: Call, e: Event, v': View)
    requires OnlySendable(v) && (v.reported ==> v.failed) && Follows(v, c, e, v')
    ensures OnlySendable(v') && (v'.reported ==> v'.failed)
    ensures Outcomes(v') == Outcomes(v) + if e == Blank then [] else [e]
  {
    hide EmittedAll;
    EmittedAllSendable(v, c.b.out);
  }

  lemma {:induction false} RunReturns(views: seq<View>, calls: seq<Call>, returned: seq<Event>, n: nat)
    requires IsRun(views, calls, returned) && n < |views|
    ensures OnlySendable(views[n]) && (views[n].reported ==> views[n].failed)
    ensures NonBlank(returned[..n]) == Outcomes(views[n])
  {
    hide OnlySendable, Follows, NonBlank;
    if n == 0 { NothingReturned(returned); } else {
      RunReturns(views, calls, returned, n - 1);
      CallReturns(views[n - 1], calls[n - 1], returned[n - 1], views[n]);
      NonBlankOneMore(returned, n - 1);
    }
  }

  lemma NothingReturned(returned: seq<Event>)
    ensures OnlySendable(EMPTY) && NonBlank(returned[..0]) == []
  {
  }

  /** Main result: the non-blank events that the calls of a run returned are the events
      delivered, in order, and after them the error, if the handshake has failed and was
      reported: once at most, as no delivered event is an error.
   */
  lemma ReturnsWhatIsDelivered(views: seq<View>, calls: seq<Call>, returned: seq<Event>, n: nat)
    requires IsRun(views, calls, returned) && n < |views|
    ensures !views[n].failed ==> NonBlank(returned[..n]) == views[n].delivered
    ensures views[n].failed ==>
      NonBlank(returned[..n]) == views[n].delivered + if views[n].reported then [ErrorEvent] else []
    ensures forall i :: 0 <= i < |views[n].delivered| ==> Sendable(views[n].delivered[i])
  {
    RunReturns(views, calls, returned, n);
    assert views[n].delivered + [] == views[n].delivered;
  }

  /** A queue that is not empty, and has not failed, hands out its first event. */
  lemma HandsOutHead(v: View, c: Call, e: Event, v': View)
    requires Follows(v, c, e, v') && c.TakeEvent? && !v.failed && v.queue != []
    ensures e == v.queue[0] && v'.queue == v.queue[1..] && v'.delivered == v.delivered + [e] && !v'.failed
  {
    hide Ran;
  }

  /** Main result: taken event by event, a queue of k events is handed out in k calls. */
  lemma {:induction false} EmptiesInOrder(views: seq<View>, calls: seq<Call>, returned: seq<Event>, m: nat, k: nat)
    requires IsRun(views, calls, returned) && m + k <= |calls| && !views[m].failed && k <= |views[m].queue|
    requires forall i :: m <= i < m + k ==> calls[i].TakeEvent?
    ensures returned[m..m + k] == views[m].queue[..k]
    ensures views[m + k].queue == views[m].queue[k..] && !views[m + k].failed
    ensures views[m + k].delivered == views[m].delivered + views[m].queue[..k]
  {
    hide Follows;
    if k == 0 {
      assert views[m].delivered + [] == views[m].delivered;
    } else {
      EmptiesInOrder(views, calls, returned, m, k - 1);
      var j := m + k - 1;
      HandsOutHead(views[j], calls[j], returned[j], views[j + 1]);
      assert returned[m..m + k] == returned[m..j] + [returned[j]];
      assert views[m].queue[..k] == views[m].queue[..k - 1] + [views[m].queue[k - 1]];
      assert views[m].delivered + views[m].queue[..k]
        == (views[m].delivered + views[m].queue[..k - 1]) + [views[m].queue[k - 1]];
    }
  }

  lemma Fails(v: View, c: Call, e: Event, v': View)
    requires Follows(v, c, e, v') && (v.reported ==> v.failed)
    ensures c.TakeEvent? && v'.failed && !v.reported ==> e == ErrorEvent && v'.reported
    ensures v.failed ==> v'.failed
    ensures v.reported ==> v'.reported && e == Blank
  {
    hide EmittedAll;
    EmittedFlags(v, c.b.out);
  }

  lemma {:induction false} EmittedFlags(v: View, es: seq<Event>)
    requires forall i :: 0 <= i < |es| ==> Sendable(es[i])
    ensures EmittedAll(v, es).failed == v.failed && EmittedAll(v, es).reported == v.reported
    decreases |es|
  {
    if es != [] { EmittedFlags(v, es[..|es| - 1]); }
  }

  lemma {:induction false} NonBlankHolds(events: seq<Event>, e: Event)
    ensures e in NonBlank(events) <==> e in events && e != Blank
  {
    if events != [] {
      NonBlankHolds(events[..|events| - 1], e);
      assert events == events[..|events| - 1] + [events[|events| - 1]];
    }
  }

  /** The error has been returned exactly if the state says so. */
  lemma ReportedIsReturned(views: seq<View>, calls: seq<Call>, returned: seq<Event>, n: nat)
    requires IsRun(views, calls, returned) && n < |views|
    ensures views[n].reported <==> ErrorEvent in returned[..n]
    ensures views[n].reported ==> views[n].failed
  {
    hide NonBlank;
    RunReturns(views, calls, returned, n);
    NonBlankHolds(returned[..n], ErrorEvent);
  }

  /** Main result: once the handshake has failed, the next call of NextEvent returns the error,
      if none has; after that call, none returns anything.
   */
  lemma ErrorOnce(views: seq<View>, calls: seq<Call>, returned: seq<Event>, m: nat, n: nat)
    requires IsRun(views, calls, returned) && m <= n < |calls|
    ensures calls[m].TakeEvent? && views[m + 1].failed && ErrorEvent !in returned[..m] ==> returned[m] == ErrorEvent
    ensures m < n && returned[m] == ErrorEvent ==> returned[n] == Blank
    ensures views[m].failed ==> views[m + 1].failed
  {
    hide Follows;
    ReportedIsReturned(views, calls, returned, m);
    Fails(views[m], calls[m], returned[m], views[m + 1]);
    ReportedIsReturned(views, calls, returned, n);
    Fails(views[n], calls[n], returned[n], views[n + 1]);
    if m < n && returned[m] == ErrorEvent { assert returned[..n][m] == ErrorEvent; }
  }

  // ---------------------------------------------------------------- the bytes of a level

  /** The handshake data of one level in a list of events. */
  function Stream(events: seq<Event>, level: nat): Bytes {
    if events == [] then []
    else (if events[0].WriteData? && events[0].level == level then events[0].data else []) + Stream(events[1..], level)
  }

  /** The other events in a list, blank ones aside. */
  function Others(events: seq<Event>): seq<Event> {
    if events == [] then []
    else (if events[0] == Blank || events[0].WriteData? then [] else [events[0]]) + Others(events[1..])
  }

  function OthersOf(atoms: seq<Atom>): seq<Event> {
    if atoms == [] then []
    else (if atoms[0].Whole? then [atoms[0].event] else []) + OthersOf(atoms[1..])
  }

  function StreamOf(atoms: seq<Atom>, level: nat): Bytes {
    if atoms == [] then []
    else (if atoms[0].DataByte? && atoms[0].level == level then [atoms[0].value] else []) + StreamOf(atoms[1..], level)
  }

  lemma {:induction false} StreamOfAppend(xs: seq<Atom>, ys: seq<Atom>, level: nat)
    ensures StreamOf(xs + ys, level) == StreamOf(xs, level) + StreamOf(ys, level)
    ensures OthersOf(xs + ys) == OthersOf(xs) + OthersOf(ys)
  {
    if xs == [] { assert xs + ys == ys; } else {
      assert (xs + ys)[1..] == xs[1..] + ys;
      StreamOfAppend(xs[1..], ys, level);
    }
  }

  lemma {:induction false} StreamOfData(l: nat, data: Bytes, level: nat)
    ensures StreamOf(DataAtoms(l, data), level) == if l == level then data else []
    ensures OthersOf(DataAtoms(l, data)) == []
  {
    if data != [] {
      assert DataAtoms(l, data)[1..] == DataAtoms(l, data[1..]);
      StreamOfData(l, data[1..], level);
    }
  }

  lemma {:induction false} StreamOfAtoms(events: seq<Event>, level: nat)
    ensures StreamOf(Atoms(events), level) == Stream(events, level)
    ensures OthersOf(Atoms(events)) == Others(events)
  {
    if events != [] {
      var e := events[0];
      StreamOfAtoms(events[1..], level);
      StreamOfAppend(AtomsOf(e), Atoms(events[1..]), level);
      if e.WriteData? { StreamOfData(e.level, e.data, level); }
    }
  }

  /** What the handshake emitted in a run: the bursts of the calls that let it run. */
  function Emissions(views: seq<View>, calls: seq<Call>): seq<Event>
    requires |views| >= |calls|
  {
    if calls == [] then []
    else
      var n := |calls| - 1;
      Emissions(views[..n], calls[..n])
      + if calls[n].RunOn? || (views[n].queue == [] && views[n].waiting) then calls[n].b.out else []
  }

  lemma {:induction false} EmittedAllLog(v: View, es: seq<Event>)
    requires forall i :: 0 <= i < |es| ==> Sendable(es[i])
    ensures EmittedAll(v, es).emitted == v.emitted + Atoms(es)
    decreases |es|
  {
    hide Atoms, AtomsOf;
    if es != [] {
      var front, last := es[..|es| - 1], es[|es| - 1];
      EmittedAllLog(v, front);
      AtomsAppend(front, [last]);
      AtomsOne(last);
      assert es == front + [last];
      Associative(v.emitted, Atoms(front), AtomsOf(last));
    } else { EmptyAtoms(v.emitted); }
  }

  lemma EmptyAtoms(log: seq<Atom>)
    ensures Atoms([]) == [] && log + Atoms([]) == log
  {
  }

  lemma CallEmits(v: View, c: Call, e: Event, v': View)
    requires Follows(v, c, e, v')
    ensures v'.emitted == v.emitted + Atoms(if c.RunOn? || (v.queue == [] && v.waiting) then c.b.out else [])
  {
    hide EmittedAll, Atoms;
    EmittedAllLog(v, c.b.out);
    EmptyAtoms(v.emitted);
  }

  lemma {:induction false} LogIsEmissions(views: seq<View>, calls: seq<Call>, returned: seq<Event>, n: nat)
    requires IsRun(views, calls, returned) && n <= |calls|
    ensures views[n].emitted == Atoms(Emissions(views[..n], calls[..n]))
  {
    hide Follows, Atoms;
    if n == 0 { EmptyAtoms([]); } else {
      LogIsEmissions(views, calls, returned, n - 1);
      CallEmits(views[n - 1], calls[n - 1], returned[n - 1], views[n]);
      assert views[..n][..n - 1] == views[..n - 1] && calls[..n][..n - 1] == calls[..n - 1];
      AtomsAppend(Emissions(views[..n - 1], calls[..n - 1]),
                  if calls[n - 1].RunOn? || (views[n - 1].queue == [] && views[n - 1].waiting) then calls[n - 1].b.out else []);
    }
  }

  lemma {:induction false} StreamSkipsBlank(events: seq<Event>, level: nat)
    ensures Stream(NonBlank(events), level) == Stream(events, level)
    ensures Others(NonBlank(events)) == Others(events)
  {
    if events != [] {
      var front, last := events[..|events| - 1], events[|events| - 1];
      StreamSkipsBlank(front, level);
      StreamAppend(front, [last], level);
      OthersAppend(front, [last]);
      assert events == front + [last];
      StreamAppend(NonBlank(front), [last], level);
      OthersAppend(NonBlank(front), [last]);
      assert [last][1..] == [];
      if last == Blank {
        assert NonBlank(front) + [] == NonBlank(front) && Stream(front, level) + [] == Stream(front, level);
        assert Others(front) + [] == Others(front);
      }
    }
  }

  lemma {:induction false} StreamAppend(xs: seq<Event>, ys: seq<Event>, level: nat)
    ensures Stream(xs + ys, level) == Stream(xs, level) + Stream(ys, level)
  {
    if xs == [] { assert xs + ys == ys; } else {
      assert (xs + ys)[1..] == xs[1..] + ys;
      StreamAppend(xs[1..], ys, level);
    }
  }

  lemma {:induction false} OthersAppend(xs: seq<Event>, ys: seq<Event>)
    ensures Others(xs + ys) == Others(xs) + Others(ys)
  {
    if xs == [] { assert xs + ys == ys; } else {
      assert (xs + ys)[1..] == xs[1..] + ys;
      OthersAppend(xs[1..], ys);
    }
  }

  /** Main result: while the handshake has not failed, the handshake data of a level in the
      events that the calls returned, followed by what is still queued, is the data that the
      handshake wrote for that level; the same of the events of other kinds.
   */
  lemma ReturnsWhatIsWritten(views: seq<View>, calls: seq<Call>, returned: seq<Event>, n: nat, level: nat)
    requires IsRun(views, calls, returned) && n <= |calls| && !views[n].failed
    ensures Stream(returned[..n], level) + Stream(views[n].queue, level)
      == Stream(Emissions(views[..n], calls[..n]), level)
    ensures Others(returned[..n]) + Others(views[n].queue) == Others(Emissions(views[..n], calls[..n]))
  {
    hide Atoms, Stream, StreamOf, Others, OthersOf, NonBlank;
    RunReturns(views, calls, returned, n);
    ReturnsWhatIsDelivered(views, calls, returned, n);
    DeliversWhatIsEmitted(views, calls, returned, n, n);
    LogIsEmissions(views, calls, returned, n);
    StreamSkipsBlank(returned[..n], level);
    StreamOfAtoms(views[n].delivered, level);
    StreamOfAtoms(views[n].queue, level);
    StreamOfAtoms(Emissions(views[..n], calls[..n]), level);
    StreamOfAppend(Atoms(views[n].delivered), Atoms(views[n].queue), level);
  }

  // ---------------------------------------------------------------- the queue as it is kept

  class Queue {
    var events: seq<Event>
    var nextEvent: nat
    var waitingForDrain: bool
    var errorReturned: bool
    var handshakeErr: bool
    /** Logs: the atoms emitted, and the events delivered. */
    ghost var emitted: seq<Atom>
    ghost var delivered: seq<Event>

    /** Every slot below `nextEvent` is blank, so it is neither extended nor overwritten. */
    ghost predicate Valid()
      reads this
    {
      nextEvent <= |events| && forall i :: 0 <= i < nextEvent ==> events[i] == Blank
    }

    ghost function Value(): View
      reads this
      requires Valid()
    {
      View(events[nextEvent..], waitingForDrain, handshakeErr, errorReturned, emitted, delivered)
    }

    constructor ()
      ensures Valid() && Value() == EMPTY
    {
      events, nextEvent := [], 0;
      waitingForDrain, errorReturned, handshakeErr := false, false, false;
      emitted, delivered := [], [];
    }

    /** Any event but handshake data: appended as it is. */
    method Append(e: Event)
      requires Valid() && e.Other?
      modifies this
      ensures Valid() && Value() == Emitted(old(Value()), e)
      ensures Value().queue == old(Value().queue) + [e]
    {
      assert (events + [e])[nextEvent..] == events[nextEvent..] + [e];
      events := events + [e];
      emitted := emitted + AtomsOf(e);
    }

    /** Handshake data: added to the last slot if that holds handshake data of the same
        level.  A slot that has been delivered is blank, so it never grows again.
     */
    method WriteCryptoData(level: nat, data: Bytes)
      requires Valid()
      modifies this
      ensures Valid() && Value() == Emitted(old(Value()), WriteData(level, data))
      ensures var q := old(Value().queue);
        Value().queue ==
          if q != [] && q[|q| - 1].WriteData? && q[|q| - 1].level == level
          then q[..|q| - 1] + [WriteData(level, q[|q| - 1].data + data)] else q + [WriteData(level, data)]
    {
      hide DataAtoms;
      ghost var q := events[nextEvent..];
      Joins(q, level, data);
      if |events| == 0 || !events[|events| - 1].WriteData? || events[|events| - 1].level != level {
        events := events + [WriteData(level, [])];
      }
      assert events[nextEvent..] == Opened(q, level);
      var last := |events| - 1;
      events := events[last := WriteData(level, events[last].data + data)];
      assert events[nextEvent..] == Grown(Opened(q, level), data);
      emitted := emitted + DataAtoms(level, data);
    }

    /** The handshake emits an event and waits until all have been taken. */
    method WaitForDrain(e: Event)
      requires Valid() && e.Other?
      modifies this
      ensures Valid() && Value() == Emitted(old(Value()), e).(waiting := true)
    {
      Append(e);
      waitingForDrain := true;
    }

    method Emit(e: Event)
      requires Valid() && Sendable(e)
      modifies this
      ensures Valid() && Value() == Emitted(old(Value()), e) && handshakeErr == old(handshakeErr)
    {
      hide Grown, Opened, AtomsOf;
      if e.WriteData? { WriteCryptoData(e.level, e.data); } else { Append(e); }
    }

    /** The handshake runs on: it emits events of any kind, and then waits or fails. */
    method RunHandshake(b: Burst)
      requires Valid() && Possible(b)
      modifies this
      ensures Valid() && Value() == Ran(old(Value()), b)
    {
      hide Emitted;
      for i := 0 to |b.out|
        invariant Valid() && Value() == EmittedAll(old(Value()), b.out[..i]) && handshakeErr == old(handshakeErr)
      {
        Emit(b.out[i]);
        assert b.out[..i + 1][..i] == b.out[..i];
      }
      assert b.out[..|b.out|] == b.out;
      waitingForDrain := b.waits;
      if b.fails { handshakeErr := true; }
    }

    /** Takes the next event.  `b` is what the handshake does, if it was waiting for the last
        event to be taken. */
    method NextEvent(b: Burst) returns (e: Event)
      requires Valid() && Possible(b)
      modifies this
      ensures Valid() && (e, Value()) == Taken(old(Value()), b)
      ensures !old(handshakeErr) && old(Value().queue) != [] ==>
        && e == old(Value().queue)[0] && Value().queue == old(Value().queue)[1..]
        && delivered == old(delivered) + [e] && emitted == old(emitted)
      ensures handshakeErr && !old(errorReturned) ==> e == ErrorEvent && errorReturned
    {
      hide EmittedAll, Scribbled;
      EmittedFlags(Value(), b.out);
      NothingToOverwrite(events, nextEvent);
      events := Scribbled(events, nextEvent);
      if nextEvent >= |events| && waitingForDrain {
        RunHandshake(b);
      }
      if handshakeErr {
        if errorReturned { return Blank; }
        errorReturned := true;
        events, nextEvent := [], 0;
        return ErrorEvent;
      }
      if nextEvent >= |events| {
        events, nextEvent := [], 0;
        return Blank;
      }
      e := events[nextEvent];
      ghost var queue := events[nextEvent..];
      events := events[nextEvent := Blank];
      nextEvent := nextEvent + 1;
      assert events[nextEvent..] == queue[1..];
      delivered := delivered + [e];
    }
  }

  function EventData(e: Event): Bytes {
    match e
    case WriteData(_, data) => data
    case Other(_, _, data) => data
    case _ => []
  }

  function Overwritten(e: Event): Event
    requires EventData(e) != []
  {
    match e
    case WriteData(level, data) => WriteData(level, data[0 := 0])
    case Other(kind, level, data) => Other(kind, level, data[0 := 0])
  }
}
