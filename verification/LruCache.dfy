/** The client session cache: a map and a recency list over shared entries, and the bounded
    most-recent-first list it refines.
 */
module LruCache {
  import opened Wire

  type Key = Bytes
  /** A stored state; `None` is the nil that a Put may store. */
  type Value = Option<Bytes>

  datatype Pair = Pair(key: Key, state: Value)
  type Entries = seq<Pair>

  datatype Op = Put(key: Key, state: Value) | Get(key: Key)

  const DEFAULT_CAPACITY := 64

  // ---------------------------------------------------------------- the specification

  function IndexOf(es: Entries, k: Key): (r: Option<nat>)
    ensures r.Some? ==> r.value < |es| && es[r.value].key == k
    ensures r.None? ==> forall i :: 0 <= i < |es| ==> es[i].key != k
  {
    if es == [] then None
    else if es[0].key == k then Some(0)
    else
      var i :- IndexOf(es[1..], k);
      Some(i + 1)
  }

  function Without(es: Entries, i: nat): (r: Entries)
    requires i < |es|
    ensures |r| == |es| - 1
    ensures forall j :: 0 <= j < |r| ==> r[j] == es[if j < i then j else j + 1]
  {
    es[..i] + es[i + 1..]
  }

  lemma WithoutUpdated(es: Entries, i: nat, e: Pair)
    requires i < |es|
    ensures Without(es[i := e], i) == Without(es, i)
  {
  }

  /** What an operation puts at the front, if anything. */
  function Own(es: Entries, op: Op): Option<Pair> {
    var p := IndexOf(es, op.key);
    match op
    case Get(k) => if p.None? then None else Some(es[p.value])
    case Put(k, state) => if p.Some? && state.None? then None else Some(Pair(k, state))
  }

  /** What it leaves of the rest: the key's own entry goes, or the last one if there is no
      room for a new key. */
  function Rest(es: Entries, capacity: nat, op: Op): Entries {
    var p := IndexOf(es, op.key);
    if p.Some? then Without(es, p.value)
    else if op.Get? || |es| < capacity || es == [] then es
    else es[..|es| - 1]
  }

  /** One operation on the most-recent-first list. */
  function Step(es: Entries, capacity: nat, op: Op): Entries {
    if Own(es, op).Some? then [Own(es, op).value] + Rest(es, capacity, op) else Rest(es, capacity, op)
  }

  function Lookup(es: Entries, k: Key): Option<Value> {
    var i :- IndexOf(es, k);
    Some(es[i].state)
  }

  // ---------------------------------------------------------------- runs of the specification

  function Run(capacity: nat, ops: seq<Op>): Entries
    requires capacity > 0
  {
    if ops == [] then [] else Step(Run(capacity, ops[..|ops| - 1]), capacity, ops[|ops| - 1])
  }

  /** The time of the last operation on a key, 0 if there was none. */
  function LastUse(ops: seq<Op>, k: Key): nat {
    if ops == [] then 0
    else if ops[|ops| - 1].key == k then |ops|
    else LastUse(ops[..|ops| - 1], k)
  }

  /** The state that the last Put on a key stored. */
  function LastStored(ops: seq<Op>, k: Key): Value {
    if ops == [] then None
    else
      var op := ops[|ops| - 1];
      if op.Put? && op.key == k then op.state else LastStored(ops[..|ops| - 1], k)
  }

  predicate DistinctKeys(es: Entries) {
    forall i, j :: 0 <= i < j < |es| ==> es[i].key != es[j].key
  }

  predicate ByRecency(es: Entries, ops: seq<Op>) {
    forall i, j :: 0 <= i < j < |es| ==> LastUse(ops, es[i].key) > LastUse(ops, es[j].key)
  }

  predicate HoldsLast(es: Entries, ops: seq<Op>) {
    forall i :: 0 <= i < |es| ==> es[i].state == LastStored(ops, es[i].key)
  }

  lemma {:induction false} LastUseBound(ops: seq<Op>, k: Key)
    ensures LastUse(ops, k) <= |ops|
  {
    if ops != [] { LastUseBound(ops[..|ops| - 1], k); }
  }

  /** Where the `i`-th of the remaining entries was before. */
  function RestAt(es: Entries, op: Op, i: nat): nat {
    var p := IndexOf(es, op.key);
    if p.Some? && i >= p.value then i + 1 else i
  }

  lemma RestIs(es: Entries, capacity: nat, op: Op, i: nat)
    requires DistinctKeys(es) && i < |Rest(es, capacity, op)|
    ensures RestAt(es, op, i) < |es| && Rest(es, capacity, op)[i] == es[RestAt(es, op, i)]
    ensures Rest(es, capacity, op)[i].key != op.key
  {
  }

  lemma OwnIs(es: Entries, op: Op)
    requires Own(es, op).Some?
    ensures Own(es, op).value.key == op.key
    ensures op.Put? ==> Own(es, op).value.state == op.state
    ensures op.Get? ==> Own(es, op).value in es
  {
  }

  lemma RestSize(es: Entries, capacity: nat, op: Op)
    requires |es| <= capacity && capacity > 0
    ensures |Step(es, capacity, op)| <= capacity
  {
  }

  /** What is true of the operation's entry and of pairs of remaining ones is true of pairs
      after the step. */
  lemma StepKeepsDistinct(es: Entries, capacity: nat, op: Op)
    requires capacity > 0 && DistinctKeys(es) && |es| <= capacity
    ensures DistinctKeys(Step(es, capacity, op)) && |Step(es, capacity, op)| <= capacity
  {
    RestSize(es, capacity, op);
    var rest, es' := Rest(es, capacity, op), Step(es, capacity, op);
    var own := if Own(es, op).Some? then 1 else 0;
    if own == 1 { OwnIs(es, op); }
    hide Own, Rest, IndexOf;
    forall i, j | 0 <= i < j < |es'| ensures es'[i].key != es'[j].key {
      RestIs(es, capacity, op, j - own);
      if i >= own { RestIs(es, capacity, op, i - own); }
    }
  }

  lemma UseAfter(ops: seq<Op>, op: Op, k: Key)
    ensures LastUse(ops + [op], k) == if op.key == k then |ops| + 1 else LastUse(ops, k)
    ensures LastUse(ops, k) <= |ops|
  {
    assert (ops + [op])[..|ops|] == ops;
    LastUseBound(ops, k);
  }

  /** The remaining entries keep their order, and were all used before the operation. */
  lemma RestKeepsOrder(es: Entries, capacity: nat, op: Op, ops: seq<Op>)
    requires DistinctKeys(es) && ByRecency(es, ops)
    ensures ByRecency(Rest(es, capacity, op), ops + [op])
    ensures forall i :: 0 <= i < |Rest(es, capacity, op)| ==>
      LastUse(ops + [op], Rest(es, capacity, op)[i].key) <= |ops|
  {
    hide Rest, RestAt, IndexOf, DistinctKeys, LastUse;
    var rest := Rest(es, capacity, op);
    forall i | 0 <= i < |rest|
      ensures LastUse(ops + [op], rest[i].key) == LastUse(ops, rest[i].key) <= |ops|
    {
      RestIs(es, capacity, op, i);
      UseAfter(ops, op, rest[i].key);
    }
    forall i, j | 0 <= i < j < |rest| ensures LastUse(ops, rest[i].key) > LastUse(ops, rest[j].key) {
      RestIs(es, capacity, op, i);
      RestIs(es, capacity, op, j);
      RestAtGrows(es, op, i, j);
    }
  }

  lemma RestAtGrows(es: Entries, op: Op, i: nat, j: nat)
    requires i < j
    ensures RestAt(es, op, i) < RestAt(es, op, j)
  {
  }

  lemma StepKeepsOrder(es: Entries, capacity: nat, op: Op, ops: seq<Op>)
    requires capacity > 0 && DistinctKeys(es) && ByRecency(es, ops)
    ensures ByRecency(Step(es, capacity, op), ops + [op])
  {
    RestKeepsOrder(es, capacity, op, ops);
    if Own(es, op).Some? { OwnIs(es, op); }
    UseAfter(ops, op, op.key);
    hide Own, Rest, IndexOf, DistinctKeys, LastUse;
  }

  lemma StepKeepsStates(es: Entries, capacity: nat, op: Op, ops: seq<Op>)
    requires capacity > 0 && DistinctKeys(es) && HoldsLast(es, ops)
    ensures HoldsLast(Step(es, capacity, op), ops + [op])
  {
    var es' := Step(es, capacity, op);
    assert (ops + [op])[..|ops|] == ops;
    var own := if Own(es, op).Some? then 1 else 0;
    if own == 1 { OwnIs(es, op); }
    forall i | 0 <= i < |es'| ensures es'[i].state == LastStored(ops + [op], es'[i].key) {
      hide Own, Rest, IndexOf, DistinctKeys;
      if i >= own { RestIs(es, capacity, op, i - own); }
    }
  }

  /** Main result: after any operations the list holds distinct keys, at most `capacity` of
      them, most recently used first, each with the state stored last.
   */
  lemma {:induction false} RunIsLru(capacity: nat, ops: seq<Op>)
    requires capacity > 0
    ensures var es := Run(capacity, ops);
      DistinctKeys(es) && |es| <= capacity && ByRecency(es, ops) && HoldsLast(es, ops)
  {
    if ops != [] {
      var before, op := ops[..|ops| - 1], ops[|ops| - 1];
      assert ops == before + [op];
      RunOneMore(capacity, before, op);
      RunIsLru(capacity, before);
      hide Run, Step, DistinctKeys, ByRecency, HoldsLast;
      StepKeepsDistinct(Run(capacity, before), capacity, op);
      StepKeepsOrder(Run(capacity, before), capacity, op, before);
      StepKeepsStates(Run(capacity, before), capacity, op, before);
    } else {
      assert Run(capacity, ops) == [];
    }
  }

  /** Main result: a key leaves only by its own removal, or, when a new key finds the cache
      full, by being the one whose last use is the oldest.
   */
  lemma OnlyLeastRecentLeaves(capacity: nat, ops: seq<Op>, op: Op, k: Key)
    requires capacity > 0
    requires IndexOf(Run(capacity, ops), k).Some? && IndexOf(Run(capacity, ops + [op]), k).None?
    ensures var es := Run(capacity, ops);
      || op == Put(k, None)
      || (op.Put? && IndexOf(es, op.key).None? && |es| == capacity
          && forall i :: 0 <= i < |es| && es[i].key != k ==> LastUse(ops, es[i].key) > LastUse(ops, k))
  {
    var es := Run(capacity, ops);
    RunOneMore(capacity, ops, op);
    hide Run, Step, DistinctKeys, LastUse, HoldsLast, IndexOf;
    RunIsLru(capacity, ops);
    Leaves(es, capacity, op, k);
  }

  lemma RunOneMore(capacity: nat, ops: seq<Op>, op: Op)
    requires capacity > 0
    ensures Run(capacity, ops + [op]) == Step(Run(capacity, ops), capacity, op)
  {
    assert (ops + [op])[..|ops|] == ops;
  }

  lemma Leaves(es: Entries, capacity: nat, op: Op, k: Key)
    requires capacity > 0 && DistinctKeys(es) && |es| <= capacity
    requires IndexOf(es, k).Some? && IndexOf(Step(es, capacity, op), k).None?
    ensures op == Put(k, None) || Evicts(es, capacity, op, k)
  {
    hide Step, DistinctKeys, Evicts;
    if op != Put(k, None) && !Evicts(es, capacity, op, k) { Stays(es, capacity, op, k); }
  }

  predicate Evicts(es: Entries, capacity: nat, op: Op, k: Key) {
    op.Put? && IndexOf(es, op.key).None? && 0 < |es| == capacity && es[|es| - 1].key == k
  }

  lemma Stays(es: Entries, capacity: nat, op: Op, k: Key)
    requires capacity > 0 && |es| <= capacity && IndexOf(es, k).Some?
    requires op != Put(k, None) && !Evicts(es, capacity, op, k)
    ensures IndexOf(Step(es, capacity, op), k).Some?
  {
    var own := if Own(es, op).Some? then 1 else 0;
    var es' := Step(es, capacity, op);
    if op.key == k {
      OwnIs(es, op);
      assert es'[0].key == k;
    } else {
      var j := RestHolds(es, capacity, op, k);
      assert es'[own + j].key == k;
    }
  }

  lemma RestHolds(es: Entries, capacity: nat, op: Op, k: Key) returns (j: nat)
    requires |es| <= capacity && IndexOf(es, k).Some? && op.key != k && !Evicts(es, capacity, op, k)
    ensures j < |Rest(es, capacity, op)| && Rest(es, capacity, op)[j].key == k
  {
    var i, p := IndexOf(es, k).value, IndexOf(es, op.key);
    j := if p.Some? && i >= p.value then i - 1 else i;
  }

  // ---------------------------------------------------------------- what is held, told by the operations

  function KeySet(es: Entries): (r: set<Key>)
    ensures forall k :: k in r <==> IndexOf(es, k).Some?
  {
    set i | 0 <= i < |es| :: es[i].key
  }

  lemma {:induction false} KeySetSize(es: Entries)
    requires DistinctKeys(es)
    ensures |KeySet(es)| == |es|
  {
    if es != [] {
      KeySetSize(es[1..]);
      assert KeySet(es) == KeySet(es[1..]) + {es[0].key};
    }
  }

  lemma SubsetSize<T>(a: set<T>, b: set<T>)
    requires a <= b
    ensures |a| <= |b|
  {
    if a != b { assert b == a + (b - a); }
  }

  /** Main result: what a Put stores is found, unless it is the nil that removes the key; then
      nothing is.  A Get changes nothing that is found.
   */
  lemma PutIsFound(capacity: nat, ops: seq<Op>, k: Key, state: Value, j: Key)
    requires capacity > 0
    ensures Lookup(Run(capacity, ops + [Put(k, state)]), k) ==
      if state.None? && Lookup(Run(capacity, ops), k).Some? then None else Some(state)
    ensures Lookup(Run(capacity, ops + [Op.Get(j)]), k) == Lookup(Run(capacity, ops), k)
  {
    hide Run, IndexOf, DistinctKeys, ByRecency, HoldsLast;
    var es := Run(capacity, ops);
    RunOneMore(capacity, ops, Put(k, state));
    RunOneMore(capacity, ops, Op.Get(j));
    RunIsLru(capacity, ops);
    RunIsLru(capacity, ops + [Op.Get(j)]);
    PutStep(es, capacity, k, state);
    GetStep(es, capacity, j, k);
  }

  lemma PutStep(es: Entries, capacity: nat, k: Key, state: Value)
    requires capacity > 0 && DistinctKeys(es)
    ensures Lookup(Step(es, capacity, Put(k, state)), k) ==
      if state.None? && Lookup(es, k).Some? then None else Some(state)
  {
    var op := Put(k, state);
    if state.None? && IndexOf(es, k).Some? {
      var rest := Rest(es, capacity, op);
      if IndexOf(rest, k).Some? { RestIs(es, capacity, op, IndexOf(rest, k).value); }
    }
  }

  lemma GetStep(es: Entries, capacity: nat, j: Key, k: Key)
    requires capacity > 0 && DistinctKeys(es) && |es| <= capacity && DistinctKeys(Step(es, capacity, Op.Get(j)))
    ensures Lookup(Step(es, capacity, Op.Get(j)), k) == Lookup(es, k)
  {
    var op, es' := Op.Get(j), Step(es, capacity, Op.Get(j));
    var p := IndexOf(es, k);
    var p' := IndexOf(es', k);
    if p.Some? { Stays(es, capacity, op, k); }
    if p'.Some? && Own(es, op).Some? && p'.value > 0 { RestIs(es, capacity, op, p'.value - 1); }
  }

  lemma {:induction false} LastUseIs(ops: seq<Op>, k: Key)
    ensures LastUse(ops, k) > 0 ==> LastUse(ops, k) <= |ops| && ops[LastUse(ops, k) - 1].key == k
    ensures forall i :: LastUse(ops, k) <= i < |ops| ==> ops[i].key != k
  {
    if ops != [] { LastUseIs(ops[..|ops| - 1], k); }
  }

  /** The keys used after the last use of `k`. */
  function UsedAfter(ops: seq<Op>, k: Key): set<Key> {
    set i | 0 <= i < |ops| && LastUse(ops, ops[i].key) > LastUse(ops, k) :: ops[i].key
  }

  lemma InUsedAfter(ops: seq<Op>, k: Key, j: Key)
    requires LastUse(ops, j) > LastUse(ops, k)
    ensures j in UsedAfter(ops, k)
  {
    LastUseIs(ops, j);
    assert ops[LastUse(ops, j) - 1].key == j;
  }

  /** An evicted key has `capacity` others used after it. */
  lemma EvictedIsOld(capacity: nat, ops: seq<Op>, op: Op, k: Key)
    requires capacity > 0 && op != Put(k, None)
    requires IndexOf(Run(capacity, ops), k).Some? && IndexOf(Run(capacity, ops + [op]), k).None?
    ensures |UsedAfter(ops + [op], k)| >= capacity
  {
    hide Run, IndexOf, LastUse, ByRecency, HoldsLast, DistinctKeys, UsedAfter;
    var es := Run(capacity, ops);
    RunIsLru(capacity, ops);
    OnlyLeastRecentLeaves(capacity, ops, op, k);
    KeySetSize(es);
    var newer := KeySet(es) - {k} + {op.key};
    forall j | j in newer ensures j in UsedAfter(ops + [op], k) {
      UseAfter(ops, op, j);
      UseAfter(ops, op, k);
      if j != op.key { assert es[IndexOf(es, j).value].key == j; }
      InUsedAfter(ops + [op], k, j);
    }
    assert newer <= UsedAfter(ops + [op], k);
    SubsetSize(newer, UsedAfter(ops + [op], k));
  }

  predicate Held(capacity: nat, ops: seq<Op>, k: Key)
    requires capacity > 0
  {
    Lookup(Run(capacity, ops), k).Some?
  }

  /** A key that is held stays, while it is not removed and fewer than `capacity` keys have
      been used since its last use. */
  lemma {:induction false} HeldStays(capacity: nat, ops: seq<Op>, m: nat, k: Key)
    requires capacity > 0 && m <= |ops| && Held(capacity, ops[..m], k)
    requires forall i :: m <= i < |ops| ==> ops[i] != Put(k, None)
    requires forall n :: m < n <= |ops| ==> |UsedAfter(ops[..n], k)| < capacity
    ensures Held(capacity, ops, k)
  {
    hide Run, IndexOf, UsedAfter;
    assert ops == ops[..|ops|];
    if m < |ops| {
      var before, op := ops[..|ops| - 1], ops[|ops| - 1];
      assert ops == before + [op] && before[..m] == ops[..m];
      assert forall n :: m < n <= |before| ==> before[..n] == ops[..n];
      HeldStays(capacity, before, m, k);
      if !Held(capacity, ops, k) { EvictedIsOld(capacity, before, op, k); }
    }
  }

  /** Main result: a key that was stored is found, with what was stored last, for as long as
      it is not removed by a Put of its own and fewer than `capacity` keys have been used since
      its last use.
   */
  lemma StaysFindable(capacity: nat, ops: seq<Op>, m: nat, k: Key)
    requires capacity > 0 && m < |ops| && ops[m].Put? && ops[m].key == k && ops[m].state.Some?
    requires forall i :: m < i < |ops| ==> ops[i] != Put(k, None)
    requires forall n :: m < n <= |ops| ==> |UsedAfter(ops[..n], k)| < capacity
    ensures Lookup(Run(capacity, ops), k) == Some(LastStored(ops, k))
  {
    hide Run, UsedAfter, ByRecency, DistinctKeys, LastStored;
    PutIsFound(capacity, ops[..m], k, ops[m].state, k);
    assert ops[..m + 1] == ops[..m] + [ops[m]];
    HeldStays(capacity, ops, m + 1, k);
    RunIsLru(capacity, ops);
  }

  lemma OnlyOwnEnters(es: Entries, capacity: nat, op: Op, k: Key)
    requires capacity > 0 && DistinctKeys(es) && op.key != k && IndexOf(Step(es, capacity, op), k).Some?
    ensures IndexOf(es, k).Some?
  {
    var own := if Own(es, op).Some? then 1 else 0;
    if own == 1 { OwnIs(es, op); }
    var i := IndexOf(Step(es, capacity, op), k).value;
    if i >= own { RestIs(es, capacity, op, i - own); }
  }

  /** While a key is held, so is every key held after a later use, unless it is removed. */
  lemma {:induction false} NewerAreHeld(capacity: nat, ops: seq<Op>, k: Key, i: nat)
    requires capacity > 0 && Held(capacity, ops, k)
    requires LastUse(ops, k) <= i < |ops| && Held(capacity, ops[..i + 1], ops[i].key)
    requires forall n :: i < n < |ops| ==> ops[n] != Put(ops[i].key, None)
    ensures Held(capacity, ops, ops[i].key) && ops[i].key != k
    decreases |ops|
  {
    hide Run, IndexOf, ByRecency, DistinctKeys, HoldsLast, LastUse;
    var before, op := ops[..|ops| - 1], ops[|ops| - 1];
    var es := Run(capacity, before);
    assert ops == before + [op] == ops[..|ops|];
    LastUseIs(ops, k);
    RunOneMore(capacity, before, op);
    RunIsLru(capacity, before);
    if i < |before| {
      OnlyOwnEnters(es, capacity, op, k);
      UseAfter(before, op, k);
      assert before[..i + 1] == ops[..i + 1];
      NewerAreHeld(capacity, before, k, i);
      LastUseIs(before, ops[i].key);
      assert es[IndexOf(es, k).value].key == k;
      if !Held(capacity, ops, ops[i].key) { OnlyLeastRecentLeaves(capacity, before, op, ops[i].key); }
    }
  }

  /** A value stored, and not removed since. */
  predicate StoredAt(ops: seq<Op>, i: nat)
    requires i < |ops|
  {
    ops[i].Put? && ops[i].state.Some? && forall n :: i < n < |ops| ==> ops[n] != Put(ops[i].key, None)
  }

  /** The keys stored after the last use of `k`, and not removed since. */
  function StoredAfter(ops: seq<Op>, k: Key): set<Key> {
    set i | LastUse(ops, k) <= i < |ops| && StoredAt(ops, i) :: ops[i].key
  }

  lemma HeldWithOthers(capacity: nat, ops: seq<Op>, k: Key, others: set<Key>)
    requires capacity > 0 && Held(capacity, ops, k)
    requires forall j :: j in others ==> Held(capacity, ops, j) && j != k
    ensures |others| < capacity
  {
    hide Run, IndexOf, DistinctKeys;
    var es := Run(capacity, ops);
    RunIsLru(capacity, ops);
    KeySetSize(es);
    SubsetSize(others, KeySet(es) - {k});
  }

  /** Main result: of a key that is found, fewer than `capacity` others were stored after its
      last use and not removed since.
   */
  lemma FoundIsRecent(capacity: nat, ops: seq<Op>, k: Key)
    requires capacity > 0 && Lookup(Run(capacity, ops), k).Some?
    ensures |StoredAfter(ops, k)| < capacity
  {
    hide Run, Lookup, LastUse;
    forall j | j in StoredAfter(ops, k) ensures Held(capacity, ops, j) && j != k {
      var i :| LastUse(ops, k) <= i < |ops| && StoredAt(ops, i) && ops[i].key == j;
      PutIsFound(capacity, ops[..i], j, ops[i].state, j);
      assert ops[..i + 1] == ops[..i] + [ops[i]];
      NewerAreHeld(capacity, ops, k, i);
    }
    HeldWithOthers(capacity, ops, k, StoredAfter(ops, k));
  }

  /** The operations but for the Gets that find nothing. */
  function Uses(capacity: nat, ops: seq<Op>): seq<Op>
    requires capacity > 0
  {
    if ops == [] then []
    else
      var before, op := ops[..|ops| - 1], ops[|ops| - 1];
      if op.Get? && !Held(capacity, before, op.key) then Uses(capacity, before) else Uses(capacity, before) + [op]
  }

  predicate EveryGetFinds(capacity: nat, ops: seq<Op>)
    requires capacity > 0
  {
    forall i :: 0 <= i < |ops| && ops[i].Get? ==> Held(capacity, ops[..i], ops[i].key)
  }

  predicate NothingRemoved(ops: seq<Op>) {
    forall i :: 0 <= i < |ops| && ops[i].Put? ==> ops[i].state.Some?
  }

  lemma MissChangesNothing(es: Entries, capacity: nat, k: Key)
    requires capacity > 0 && IndexOf(es, k).None?
    ensures Step(es, capacity, Op.Get(k)) == es
  {
  }

  lemma {:induction false} UsesRunTheSame(capacity: nat, ops: seq<Op>)
    requires capacity > 0
    ensures Run(capacity, Uses(capacity, ops)) == Run(capacity, ops) && EveryGetFinds(capacity, Uses(capacity, ops))
    ensures NothingRemoved(ops) ==> NothingRemoved(Uses(capacity, ops))
  {
    hide Run, IndexOf;
    if ops != [] {
      var before, op := ops[..|ops| - 1], ops[|ops| - 1];
      var us := Uses(capacity, before);
      assert ops == before + [op];
      UsesRunTheSame(capacity, before);
      RunOneMore(capacity, before, op);
      RunOneMore(capacity, us, op);
      if op.Get? && !Held(capacity, before, op.key) { MissChangesNothing(Run(capacity, before), capacity, op.key); }
      assert forall i :: 0 <= i <= |us| ==> (us + [op])[..i] == us[..i];
    }
  }

  /** Where every use finds or stores its key, the key is held right after. */
  lemma HeldAfterUse(capacity: nat, ops: seq<Op>, i: nat)
    requires capacity > 0 && EveryGetFinds(capacity, ops) && NothingRemoved(ops) && i < |ops|
    ensures Held(capacity, ops[..i + 1], ops[i].key)
  {
    hide Run, Lookup;
    PutIsFound(capacity, ops[..i], ops[i].key, if ops[i].Put? then ops[i].state else None, ops[i].key);
    assert ops[..i + 1] == ops[..i] + [ops[i]];
  }

  /** Nothing but an own use changes a key's last use. */
  lemma {:induction false} UsedEarlier(ops: seq<Op>, k: Key, n: nat)
    requires LastUse(ops, k) <= n <= |ops|
    ensures LastUse(ops[..n], k) == LastUse(ops, k)
    decreases |ops|
  {
    if n < |ops| {
      UsedEarlier(ops[..|ops| - 1], k, n);
      assert ops[..|ops| - 1][..n] == ops[..n];
    } else { assert ops[..n] == ops; }
  }

  lemma {:induction false} UseOnlyGrows(ops: seq<Op>, k: Key, n: nat)
    requires n <= |ops|
    ensures LastUse(ops[..n], k) <= LastUse(ops, k)
    decreases |ops|
  {
    if n < |ops| {
      UseOnlyGrows(ops[..|ops| - 1], k, n);
      assert ops[..|ops| - 1][..n] == ops[..n];
      LastUseBound(ops[..|ops| - 1], k);
    } else { assert ops[..n] == ops; }
  }

  lemma UsedAfterGrows(ops: seq<Op>, k: Key, n: nat)
    requires LastUse(ops, k) <= n <= |ops|
    ensures |UsedAfter(ops[..n], k)| <= |UsedAfter(ops, k)|
  {
    hide LastUse;
    UsedEarlier(ops, k, n);
    forall j | j in UsedAfter(ops[..n], k) ensures j in UsedAfter(ops, k) {
      UseOnlyGrows(ops, j, n);
      InUsedAfter(ops, k, j);
    }
    SubsetSize(UsedAfter(ops[..n], k), UsedAfter(ops, k));
  }

  lemma HeldIfRecent(capacity: nat, ops: seq<Op>, k: Key)
    requires capacity > 0 && EveryGetFinds(capacity, ops) && NothingRemoved(ops)
    requires 0 < LastUse(ops, k) && |UsedAfter(ops, k)| < capacity
    ensures Held(capacity, ops, k)
  {
    hide LastUse, UsedAfter, Held;
    LastUseIs(ops, k);
    var m := LastUse(ops, k);
    HeldAfterUse(capacity, ops, m - 1);
    forall n | m < n <= |ops| ensures |UsedAfter(ops[..n], k)| < capacity { UsedAfterGrows(ops, k, n); }
    HeldStays(capacity, ops, m, k);
  }

  lemma UsedSinceIsHeld(capacity: nat, ops: seq<Op>, k: Key, j: Key)
    requires capacity > 0 && EveryGetFinds(capacity, ops) && NothingRemoved(ops) && Held(capacity, ops, k)
    requires LastUse(ops, j) > LastUse(ops, k)
    ensures Held(capacity, ops, j) && j != k
  {
    hide LastUse, Held, EveryGetFinds;
    LastUseIs(ops, j);
    var i := LastUse(ops, j) - 1;
    HeldAfterUse(capacity, ops, i);
    NewerAreHeld(capacity, ops, k, i);
  }

  lemma RecentIfHeld(capacity: nat, ops: seq<Op>, k: Key)
    requires capacity > 0 && EveryGetFinds(capacity, ops) && NothingRemoved(ops) && Held(capacity, ops, k)
    ensures 0 < LastUse(ops, k) && |UsedAfter(ops, k)| < capacity
  {
    hide LastUse, Held, EveryGetFinds, NothingRemoved;
    forall j | j in UsedAfter(ops, k) ensures Held(capacity, ops, j) && j != k { UsedSinceIsHeld(capacity, ops, k, j); }
    HeldWithOthers(capacity, ops, k, UsedAfter(ops, k));
    HeldWasUsed(capacity, ops, k);
  }

  lemma {:induction false} HeldWasUsed(capacity: nat, ops: seq<Op>, k: Key)
    requires capacity > 0 && Held(capacity, ops, k)
    ensures 0 < LastUse(ops, k)
  {
    hide IndexOf, Step, DistinctKeys;
    assert Run(capacity, []) == [] && IndexOf([], k).None?;
    if ops != [] {
      var before, op := ops[..|ops| - 1], ops[|ops| - 1];
      if op.key != k {
        RunIsLru(capacity, before);
        OnlyOwnEnters(Run(capacity, before), capacity, op, k);
        HeldWasUsed(capacity, before, k);
      }
    }
  }

  /** Main result: while nothing is removed, exactly the keys used last are held: those with
      fewer than `capacity` keys used since, a Get that finds nothing being no use.
   */
  lemma HoldsThoseUsedLast(capacity: nat, ops: seq<Op>, k: Key)
    requires capacity > 0 && NothingRemoved(ops)
    ensures var us := Uses(capacity, ops);
      Held(capacity, ops, k) <==> 0 < LastUse(us, k) && |UsedAfter(us, k)| < capacity
  {
    hide LastUse, UsedAfter, Run, Lookup;
    var us := Uses(capacity, ops);
    UsesRunTheSame(capacity, ops);
    if Held(capacity, us, k) { RecentIfHeld(capacity, us, k); }
    if 0 < LastUse(us, k) && |UsedAfter(us, k)| < capacity { HeldIfRecent(capacity, us, k); }
  }

  // ---------------------------------------------------------------- lists

  predicate Distinct<T(==)>(q: seq<T>) {
    forall i, j :: 0 <= i < j < |q| ==> q[i] != q[j]
  }

  /** The list with its `i`-th element moved to the front. */
  function Front<T>(q: seq<T>, i: nat): (r: seq<T>)
    requires i < |q|
    ensures |r| == |q| && forall j :: 0 <= j < |r| ==> r[j] == q[if j == 0 then i else if j <= i then j - 1 else j]
  {
    [q[i]] + q[..i] + q[i + 1..]
  }

  lemma FrontKeeps<T>(q: seq<T>, i: nat)
    requires i < |q| && Distinct(q)
    ensures Distinct(Front(q, i)) && forall x :: x in q <==> x in Front(q, i)
  {
    forall x | x in q ensures x in Front(q, i) {
      var j :| 0 <= j < |q| && q[j] == x;
      assert Front(q, i)[if j == i then 0 else if j < i then j + 1 else j] == x;
    }
  }

  lemma PushKeeps<T>(q: seq<T>, x: T)
    requires Distinct(q) && x !in q
    ensures Distinct([x] + q) && forall y :: y in [x] + q <==> y in q || y == x
  {
  }

  function Cut<T>(q: seq<T>, i: nat): (r: seq<T>)
    requires i < |q|
    ensures |r| == |q| - 1 && forall j :: 0 <= j < |r| ==> r[j] == q[if j < i then j else j + 1]
  {
    q[..i] + q[i + 1..]
  }

  lemma CutKeeps<T>(q: seq<T>, i: nat)
    requires i < |q| && Distinct(q)
    ensures Distinct(Cut(q, i)) && forall x :: x in Cut(q, i) <==> x in q && x != q[i]
  {
    forall x | x in q && x != q[i] ensures x in Cut(q, i) {
      var j :| 0 <= j < |q| && q[j] == x;
      assert Cut(q, i)[if j < i then j else j - 1] == x;
    }
  }

  // ---------------------------------------------------------------- the implementation

  class Entry {
    var sessionKey: Key
    var state: Value

    constructor (k: Key, v: Value)
      ensures sessionKey == k && state == v
    {
      sessionKey, state := k, v;
    }
  }

  ghost function PairsOf(q: seq<Entry>): (es: Entries)
    reads q
    ensures |es| == |q| && forall i :: 0 <= i < |q| ==> es[i] == Pair(q[i].sessionKey, q[i].state)
  {
    seq(|q|, i requires 0 <= i < |q| reads q => Pair(q[i].sessionKey, q[i].state))
  }

  lemma PairsFront(q: seq<Entry>, i: nat)
    requires i < |q|
    ensures PairsOf(Front(q, i)) == [PairsOf(q)[i]] + Without(PairsOf(q), i)
  {
  }

  lemma PairsPush(q: seq<Entry>, e: Entry)
    ensures PairsOf([e] + q) == [Pair(e.sessionKey, e.state)] + PairsOf(q)
  {
  }

  class Cache {
    var m: map<Key, Entry>
    var q: seq<Entry>
    const capacity: nat

    /** Map and list index the same entries; keys are distinct; the size is bounded. */
    ghost predicate Valid()
      reads this, q
    {
      && capacity > 0 && |q| <= capacity
      && Distinct(q)
      && (forall e :: e in q ==> e.sessionKey in m && m[e.sessionKey] == e)
      && (forall k :: k in m ==> m[k] in q && m[k].sessionKey == k)
    }

    ghost function Contents(): (es: Entries)
      reads this, q
      ensures |es| == |q| && forall i :: 0 <= i < |q| ==> es[i] == Pair(q[i].sessionKey, q[i].state)
    {
      PairsOf(q)
    }

    constructor (capacity: int)
      ensures Valid() && Contents() == []
      ensures this.capacity == if capacity < 1 then DEFAULT_CAPACITY else capacity
    {
      this.capacity := if capacity < 1 then DEFAULT_CAPACITY else capacity;
      m, q := map[], [];
    }

    /** The place of an entry in the list. */
    method Place(elem: Entry) returns (i: nat)
      requires elem in q
      ensures i < |q| && q[i] == elem
    {
      i := 0;
      while q[i] != elem
        invariant i < |q| && elem in q[i..]
        decreases |q| - i
      {
        assert q[i..] == [q[i]] + q[i + 1..];
        i := i + 1;
      }
    }

    /** The key's place in the list, as the map tells it. */
    lemma Indexed(k: Key, i: nat)
      requires Valid() && i < |q| && q[i].sessionKey == k
      ensures IndexOf(Contents(), k) == Some(i)
    {
      var r := IndexOf(Contents(), k);
      assert Contents()[i].key == k;
      assert r.Some? && q[r.value].sessionKey == k;
    }

    lemma NotIndexed(k: Key)
      requires Valid() && k !in m
      ensures IndexOf(Contents(), k) == None
    {
      assert forall i :: 0 <= i < |q| ==> Contents()[i].key in m;
    }

    method MoveToFront(i: nat)
      requires Valid() && i < |q|
      modifies this
      ensures Valid() && Contents() == [old(Contents())[i]] + Without(old(Contents()), i)
    {
      PairsFront(q, i);
      Reorder(i);
    }

    method Reorder(i: nat)
      requires Valid() && i < |q|
      modifies this
      ensures Valid() && m == old(m) && q == Front(old(q), i)
    {
      hide Distinct, Front;
      FrontKeeps(q, i);
      q := Front(q, i);
    }

    method Get(k: Key) returns (state: Value, found: bool)
      requires Valid()
      modifies this
      ensures Valid() && Contents() == Step(old(Contents()), capacity, Op.Get(k))
      ensures if found then Lookup(old(Contents()), k) == Some(state) else Lookup(old(Contents()), k) == None
    {
      if k in m {
        var elem := m[k];
        var i := Place(elem);
        Indexed(k, i);
        MoveToFront(i);
        return elem.state, true;
      }
      NotIndexed(k);
      return None, false;
    }

    /** Takes the entry at `i` out of the list and of the map. */
    method Remove(i: nat)
      requires Valid() && i < |q|
      modifies this
      ensures Valid() && Contents() == Without(old(Contents()), i)
    {
      KeysDiffer(i);
      hide Distinct;
      CutKeeps(q, i);
      m := m - {q[i].sessionKey};
      q := Cut(q, i);
    }

    method PushFront(k: Key, state: Value)
      requires Valid() && k !in m && |q| < capacity
      modifies this
      ensures Valid() && Contents() == [Pair(k, state)] + old(Contents())
    {
      hide Distinct, PairsOf;
      var entry := new Entry(k, state);
      PushKeeps(q, entry);
      PairsPush(q, entry);
      m := m[k := entry];
      q := [entry] + q;
    }

    /** Gives the entry at `i` another key and state. */
    method Rename(i: nat, k: Key, state: Value)
      requires Valid() && k !in m && i < |q|
      modifies this, q[i]
      ensures Valid() && q == old(q) && Contents() == old(Contents())[i := Pair(k, state)]
    {
      KeysDiffer(i);
      hide Distinct;
      var elem := q[i];
      m := m - {elem.sessionKey};
      elem.sessionKey := k;
      elem.state := state;
      m := m[k := elem];
    }

    /** Gives the last entry another key and state, and moves it to the front. */
    method Recycle(k: Key, state: Value)
      requires Valid() && k !in m && |q| == capacity
      modifies this, q
      ensures Valid() && Contents() == [Pair(k, state)] + old(Contents())[..|old(Contents())| - 1]
    {
      var last := |q| - 1;
      ghost var was := Contents();
      Rename(last, k, state);
      MoveToFront(last);
      assert Without(was[last := Pair(k, state)], last) == was[..last];
    }

    /** Replaces the state of the entry at `i`. */
    method Store(i: nat, state: Value)
      requires Valid() && i < |q|
      modifies q[i]
      ensures Valid() && Contents() == old(Contents())[i := Pair(old(q[i].sessionKey), state)]
      ensures q[i].sessionKey == old(q[i].sessionKey)
    {
      OthersElsewhere(i);
      hide Distinct;
      q[i].state := state;
    }

    lemma OthersElsewhere(i: nat)
      requires Distinct(q) && i < |q|
      ensures forall j :: 0 <= j < |q| && j != i ==> q[j] != q[i]
    {
    }

    /** Entries at different places have different keys. */
    lemma KeysDiffer(i: nat)
      requires Valid() && i < |q|
      ensures forall j :: 0 <= j < |q| && j != i ==> q[j] != q[i] && q[j].sessionKey != q[i].sessionKey
    {
      forall j | 0 <= j < |q| && j != i ensures q[j] != q[i] && q[j].sessionKey != q[i].sessionKey {
        OthersElsewhere(i);
      }
    }

    method Put(k: Key, state: Value)
      requires Valid()
      modifies this, q
      ensures Valid() && Contents() == Step(old(Contents()), capacity, Op.Put(k, state))
    {
      hide Distinct;
      if k in m {
        var elem := m[k];
        var i := Place(elem);
        Indexed(k, i);
        if state.None? {
          Remove(i);
        } else {
          Store(i, state);
          MoveToFront(i);
          WithoutUpdated(old(Contents()), i, Pair(k, state));
        }
        return;
      }
      NotIndexed(k);
      if |q| < capacity { PushFront(k, state); } else { Recycle(k, state); }
    }
  }
}
